/** Stable sorting by a key, and lists as multisets. */
module Sorting {
  predicate Sorted<T>(a: seq<T>, key: T -> int) {
    forall i, j | 0 <= i < j < |a| :: key(a[i]) <= key(a[j])
  }

  /** Put an element behind all that do not come after it. */
  function Insert<T>(x: T, a: seq<T>, key: T -> int): (r: seq<T>)
    ensures |r| == |a| + 1
  {
    if a == [] || key(a[|a| - 1]) <= key(x) then a + [x] else Insert(x, a[..|a| - 1], key) + [a[|a| - 1]]
  }

  function Sort<T>(a: seq<T>, key: T -> int): (r: seq<T>)
    ensures |r| == |a|
  {
    if a == [] then [] else Insert(a[|a| - 1], Sort(a[..|a| - 1], key), key)
  }

  lemma Appended<T>(a: seq<T>, x: T, key: T -> int)
    requires Sorted(a, key) && forall i | 0 <= i < |a| :: key(a[i]) <= key(x)
    ensures Sorted(a + [x], key)
  {
  }

  lemma {:induction false} InsertSorts<T>(x: T, a: seq<T>, key: T -> int)
    requires Sorted(a, key)
    ensures multiset(Insert(x, a, key)) == multiset(a) + multiset{x}
    ensures Sorted(Insert(x, a, key), key)
  {
    var n := |a| - 1;
    if n < 0 || key(a[n]) <= key(x) {
      Appended(a, x, key);
    } else {
      assert a == a[..n] + [a[n]];
      InsertSorts(x, a[..n], key);
      var head := Insert(x, a[..n], key);
      forall i | 0 <= i < |head|
        ensures key(head[i]) <= key(a[n])
      {
        assert head[i] in multiset(head);
        assert head[i] == x || head[i] in a[..n];
      }
      Appended(head, a[n], key);
    }
  }

  /** A permutation in order. */
  lemma {:induction false} SortSorts<T>(a: seq<T>, key: T -> int)
    ensures Sorted(Sort(a, key), key) && multiset(Sort(a, key)) == multiset(a)
  {
    if a != [] {
      var n := |a| - 1;
      assert a == a[..n] + [a[n]];
      SortSorts(a[..n], key);
      InsertSorts(a[n], Sort(a[..n], key), key);
    }
  }

  lemma Repeated<T>(q: seq<T>, i: nat, j: nat)
    requires i < j < |q| && q[i] == q[j]
    ensures multiset(q)[q[i]] >= 2
  {
    assert q == q[..i] + [q[i]] + q[i + 1..j] + [q[j]] + q[j + 1..];
  }
}
