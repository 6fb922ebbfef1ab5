/**
 * Reading a run back from the server: the records of the run must be exactly the expected spans, as far as comparison
 * sees them. Every list of records is accepted, or incomplete, or rejected for good, and nothing but the run's own
 * records matters.
 */
module Readback {
  import opened Sorting
  import opened Wrappers
  import opened Spans
  import opened RunSummary

  datatype Expected = Expected(runId: string, spans: seq<Span>, summary: Summary)

  predicate Distinct(spans: seq<Span>) {
    forall i, j | 0 <= i < j < |spans| :: spans[i].identity != spans[j].identity
  }

  /** What a validated expected run guarantees. */
  predicate ValidExpected(e: Expected) {
    && Distinct(e.spans) && SummaryOf(e.spans) == Some(e.summary)
    && forall s | s in e.spans :: RunOf(s) == Some(e.runId)
  }

  predicate Belongs(s: Span, e: Expected) {
    (exists x | x in e.spans :: x.identity == s.identity) || RunOf(s) == Some(e.runId)
  }

  predicate AllCanonical(raws: seq<Raw>) {
    forall r | r in raws :: CanonicalOf(r).Some?
  }

  /** The canonical spans of the records that belong to the run, in their order. */
  function Chosen(raws: seq<Raw>, e: Expected): seq<Span> {
    if raws == [] then []
    else
      var n := |raws| - 1;
      var s := CanonicalOf(raws[n]);
      if s.Some? && Belongs(s.value, e) then Chosen(raws[..n], e) + [s.value] else Chosen(raws[..n], e)
  }

  /** The run's own spans, and the expected ones, as comparison sees them. */
  function Got(raws: seq<Raw>, e: Expected): seq<Span> {
    Levels(Chosen(raws, e))
  }

  function Wanted(e: Expected): seq<Span> {
    Levels(e.spans)
  }

  /** Every record is well-formed, the run's records equal the expected spans, each once, and they can be summarized. */
  predicate Accepted(raws: seq<Raw>, e: Expected) {
    AllCanonical(raws) && multiset(Got(raws, e)) == multiset(Wanted(e)) && AllCountable(Chosen(raws, e))
  }

  /** Every record is well-formed, and the run's records equal some of the expected spans, each once, but not all. */
  predicate Incomplete(raws: seq<Raw>, e: Expected) {
    AllCanonical(raws) && multiset(Got(raws, e)) < multiset(Wanted(e))
  }

  predicate Rejected(raws: seq<Raw>, e: Expected) {
    !Accepted(raws, e) && !Incomplete(raws, e)
  }

  lemma LevelsSplit(a: seq<Span>, b: seq<Span>)
    ensures Levels(a + b) == Levels(a) + Levels(b)
  {
  }

  lemma LevelsDistinct(a: seq<Span>)
    ensures Distinct(Levels(a)) <==> Distinct(a)
  {
    forall i | 0 <= i < |a| ensures Levels(a)[i].identity == a[i].identity {
    }
  }

  // ---- spans as multisets ----

  lemma {:induction false} BagOf(c: seq<Span>)
    requires Distinct(c)
    ensures forall x :: multiset(c)[x] == if x in c then 1 else 0
  {
    if c != [] {
      var n := |c| - 1;
      assert c == c[..n] + [c[n]];
      BagOf(c[..n]);
      assert c[n] !in c[..n];
    }
  }

  /** Part of a list without repeated identities: also without them, and nothing else in it. */
  lemma SubBag(c: seq<Span>, s: seq<Span>)
    requires Distinct(s)
    ensures multiset(c) <= multiset(s) <==> Distinct(c) && forall x | x in c :: x in s
  {
    BagOf(s);
    if multiset(c) <= multiset(s) {
      forall x | x in c
        ensures x in s
      {
        assert x in multiset(c);
      }
      forall i, j | 0 <= i < j < |c|
        ensures c[i].identity != c[j].identity
      {
        assert c[i] in s && c[j] in s;
        if c[i] == c[j] {
          Repeated(c, i, j);
        }
      }
    } else if Distinct(c) {
      BagOf(c);
    }
  }

  lemma {:induction false} ChosenSplit(a: seq<Raw>, b: seq<Raw>, e: Expected)
    ensures Chosen(a + b, e) == Chosen(a, e) + Chosen(b, e)
  {
    if b == [] {
      assert a + b == a;
    } else {
      var n := |b| - 1;
      ChosenSplit(a, b[..n], e);
      assert (a + b)[..|a| + n] == a + b[..n] && (a + b)[|a| + n] == b[n];
      hide CanonicalOf, Belongs;
    }
  }

  lemma ChosenNext(raws: seq<Raw>, i: nat, e: Expected)
    requires i < |raws|
    ensures var s := CanonicalOf(raws[i]);
            Chosen(raws[..i + 1], e) ==
            if s.Some? && Belongs(s.value, e) then Chosen(raws[..i], e) + [s.value] else Chosen(raws[..i], e)
    ensures Chosen(raws, e) == Chosen(raws[..i + 1], e) + Chosen(raws[i + 1..], e)
    ensures AllCanonical(raws[..i]) && CanonicalOf(raws[i]).Some? ==> AllCanonical(raws[..i + 1])
  {
    assert raws[..i + 1][..i] == raws[..i] && raws[..i + 1] == raws[..i] + [raws[i]];
    assert raws == raws[..i + 1] + raws[i + 1..];
    ChosenSplit(raws[..i + 1], raws[i + 1..], e);
    hide CanonicalOf, Belongs;
  }

  // ---- the selection ----

  /** The selected spans by identity, exactly the chosen ones. */
  ghost predicate Holds(selected: map<Identity, Span>, chosen: seq<Span>) {
    && Distinct(chosen)
    && (forall c | c in chosen :: c.identity in selected && selected[c.identity] == c)
    && (forall id | id in selected :: selected[id].identity == id && selected[id] in chosen)
  }

  lemma HoldsNext(selected: map<Identity, Span>, chosen: seq<Span>, s: Span)
    requires Holds(selected, chosen)
    ensures s.identity !in selected ==> Holds(selected[s.identity := s], chosen + [s])
    ensures s.identity in selected ==> !Distinct(chosen + [s])
  {
    var more := chosen + [s];
    assert forall c :: c in more <==> c in chosen || c == s;
    if s.identity in selected {
      var i :| 0 <= i < |chosen| && chosen[i] == selected[s.identity];
      assert more[i].identity == more[|chosen|].identity;
    } else {
      forall i, j | 0 <= i < j < |more|
        ensures more[i].identity != more[j].identity
      {
        assert more[i] in chosen;
      }
    }
  }

  lemma RepeatedIsRejected(chosen: seq<Span>, rest: seq<Span>, e: Expected)
    requires Distinct(e.spans) && !Distinct(chosen)
    ensures !(multiset(Levels(chosen + rest)) <= multiset(Wanted(e)))
  {
    var i, j :| 0 <= i < j < |chosen| && chosen[i].identity == chosen[j].identity;
    assert (chosen + rest)[i] == chosen[i] && (chosen + rest)[j] == chosen[j];
    LevelsDistinct(e.spans);
    LevelsDistinct(chosen + rest);
    SubBag(Levels(chosen + rest), Wanted(e));
  }

  /** Equality of identities and contents, and then the summary. */
  method CompareRun(raws: seq<Raw>, e: Expected) returns (r: Option<Summary>)
    requires ValidExpected(e)
    ensures r.Some? <==> Accepted(raws, e)
    ensures r.Some? ==> r.value == e.summary
  {
    hide Belongs, CanonicalOf, Holds, ValidExpected, AllCountable;
    Validity(e);
    var selected: map<Identity, Span>, values: seq<Span> := map[], [];
    NothingHeld();
    for i := 0 to |raws|
      invariant AllCanonical(raws[..i]) && values == Chosen(raws[..i], e) && Holds(selected, values)
    {
      ChosenNext(raws, i, e);
      var normalized := CanonicalSpan(raws[i]);
      if normalized.None? {
        assert raws[i] in raws;
        return None;
      }
      var s := normalized.value;
      if Belongs(s, e) {
        HoldsNext(selected, values, s);
        if s.identity in selected {
          RepeatedIsRejected(values + [s], Chosen(raws[i + 1..], e), e);
          return None;
        }
        selected, values := selected[s.identity := s], values + [s];
      }
    }
    assert raws[..|raws|] == raws;
    var same, aligned := SameSpans(selected, values, e);
    if !same {
      return None;
    }
    AlignedSummary(aligned, values, e);
    r := SummarizeSpans(values);
  }

  lemma Validity(e: Expected)
    requires ValidExpected(e)
    ensures Distinct(e.spans)
  {
  }

  lemma NothingHeld()
    ensures Holds(map[], [])
  {
  }

  lemma AlignedSummary(aligned: seq<Span>, values: seq<Span>, e: Expected)
    requires ValidExpected(e) && multiset(aligned) == multiset(values) && Levels(aligned) == Wanted(e)
    ensures SummaryOf(values) == if AllCountable(values) then Some(e.summary) else None
  {
    SummaryIgnoresOrder(aligned, values);
    Members(aligned, values);
    if AllCountable(values) {
      SummaryIgnoresLevel(aligned, e.spans);
    }
  }

  /**
   * Whether the selection has every expected span under its identity, and no other. If so, `aligned` is the selection
   * in the order of the expected spans.
   */
  method SameSpans(selected: map<Identity, Span>, ghost chosen: seq<Span>, e: Expected)
    returns (same: bool, ghost aligned: seq<Span>)
    requires Holds(selected, chosen) && Distinct(e.spans)
    ensures same <==> multiset(Levels(chosen)) == multiset(Wanted(e))
    ensures same ==> multiset(aligned) == multiset(chosen) && Levels(aligned) == Wanted(e)
  {
    hide Holds, Distinct, Levels, Wanted, LevelSpan;
    aligned := [];
    if multiset(Levels(chosen)) == multiset(Wanted(e)) {
      EqualAreHeld(selected, chosen, e);
    }
    if selected.Keys != set s | s in e.spans :: s.identity {
      return false, aligned;
    }
    for i := 0 to |e.spans|
      invariant forall k | 0 <= k < i :: LevelSpan(selected[e.spans[k].identity]) == LevelSpan(e.spans[k])
    {
      if LevelSpan(selected[e.spans[i].identity]) != LevelSpan(e.spans[i]) {
        return false, aligned;
      }
    }
    aligned := Align(selected, chosen, e);
    LevelsBag(aligned, chosen);
    return true, aligned;
  }

  lemma EqualAreHeld(selected: map<Identity, Span>, chosen: seq<Span>, e: Expected)
    requires Holds(selected, chosen) && multiset(Levels(chosen)) == multiset(Wanted(e))
    ensures selected.Keys == set s | s in e.spans :: s.identity
    ensures forall s | s in e.spans :: LevelSpan(selected[s.identity]) == LevelSpan(s)
  {
    hide LevelSpan;
    var got, wanted := Levels(chosen), Wanted(e);
    Members(got, wanted);
    forall s | s in e.spans
      ensures s.identity in selected && LevelSpan(selected[s.identity]) == LevelSpan(s)
    {
      var i :| 0 <= i < |e.spans| && e.spans[i] == s;
      assert wanted[i] in got;
      var j :| 0 <= j < |got| && got[j] == wanted[i];
      assert chosen[j] in chosen && LevelSpan(chosen[j]) == LevelSpan(s);
    }
    forall id | id in selected
      ensures id in set s | s in e.spans :: s.identity
    {
      var j :| 0 <= j < |chosen| && chosen[j] == selected[id];
      assert got[j] in wanted;
      var i :| 0 <= i < |wanted| && wanted[i] == got[j];
      assert e.spans[i] in e.spans && e.spans[i].identity == id;
    }
  }

  lemma Align(selected: map<Identity, Span>, chosen: seq<Span>, e: Expected) returns (aligned: seq<Span>)
    requires Holds(selected, chosen) && Distinct(e.spans)
    requires selected.Keys == set s | s in e.spans :: s.identity
    requires forall k | 0 <= k < |e.spans| :: LevelSpan(selected[e.spans[k].identity]) == LevelSpan(e.spans[k])
    ensures multiset(aligned) == multiset(chosen) && Levels(aligned) == Wanted(e)
  {
    hide LevelSpan;
    forall i | 0 <= i < |e.spans| ensures e.spans[i].identity in selected {
      assert e.spans[i] in e.spans;
    }
    aligned := seq(|e.spans|, i requires 0 <= i < |e.spans| => selected[e.spans[i].identity]);
    assert Levels(aligned) == Wanted(e);
    hide Levels;
    SelectionBag(selected, chosen, e, aligned);
  }

  lemma SelectionBag(selected: map<Identity, Span>, chosen: seq<Span>, e: Expected, aligned: seq<Span>)
    requires Holds(selected, chosen) && Distinct(e.spans)
    requires selected.Keys == set s | s in e.spans :: s.identity
    requires |aligned| == |e.spans|
    requires forall i | 0 <= i < |e.spans| ::
               e.spans[i].identity in selected && aligned[i] == selected[e.spans[i].identity]
    ensures multiset(aligned) == multiset(chosen)
  {
    forall i, j | 0 <= i < j < |aligned| ensures aligned[i].identity != aligned[j].identity {
      assert e.spans[i].identity != e.spans[j].identity;
    }
    forall x | x in chosen ensures x in aligned {
      assert x.identity in selected.Keys;
      var s :| s in e.spans && s.identity == x.identity;
      var i :| 0 <= i < |e.spans| && e.spans[i] == s;
      assert aligned[i] == x;
    }
    forall x | x in aligned ensures x in chosen {
      var i :| 0 <= i < |aligned| && aligned[i] == x;
    }
    SameBag(aligned, chosen);
  }

  lemma SameBag(a: seq<Span>, b: seq<Span>)
    requires Distinct(a) && Distinct(b) && forall x :: x in a <==> x in b
    ensures multiset(a) == multiset(b)
  {
    hide Distinct;
    BagOf(a);
    BagOf(b);
  }

  lemma Members(a: seq<Span>, b: seq<Span>)
    ensures multiset(a) == multiset(b) ==> forall s :: s in a <==> s in b
  {
    assert forall s :: s in a <==> s in multiset(a);
    assert forall s :: s in b <==> s in multiset(b);
  }

  lemma LevelsWithout(a: seq<Span>, i: nat)
    requires i < |a|
    ensures multiset(Levels(a)) == multiset(Levels(Without(a, i))) + multiset{LevelSpan(a[i])}
  {
    hide LevelSpan;
    assert a == a[..i] + [a[i]] + a[i + 1..];
    LevelsSplit(a[..i] + [a[i]], a[i + 1..]);
    LevelsSplit(a[..i], [a[i]]);
    LevelsSplit(a[..i], a[i + 1..]);
    assert Levels([a[i]]) == [LevelSpan(a[i])];
    hide Levels;
    assert multiset(Levels(a)) == multiset(Levels(a[..i])) + multiset{LevelSpan(a[i])} + multiset(Levels(a[i + 1..]));
  }

  lemma {:induction false} LevelsBag(a: seq<Span>, b: seq<Span>)
    requires multiset(a) == multiset(b)
    ensures multiset(Levels(a)) == multiset(Levels(b))
    decreases |a|
  {
    assert |multiset(a)| == |a| && |multiset(b)| == |b|;
    if a != [] {
      hide Levels, LevelSpan;
      var n := |a| - 1;
      var i := RunSummary.FindLast(a, b);
      LevelsBag(Without(a, n), Without(b, i));
      LevelsWithout(a, n);
      LevelsWithout(b, i);
    }
  }

  // ---- incomplete, or wrong for good ----

  lemma PartIsProper(chosen: seq<Span>, s: seq<Span>)
    requires multiset(chosen) <= multiset(s)
    ensures |chosen| <= |s| && (multiset(chosen) < multiset(s) <==> |chosen| < |s|)
  {
    var rest := multiset(s) - multiset(chosen);
    assert multiset(s) == multiset(chosen) + rest;
    assert |multiset(s)| == |s| && |multiset(chosen)| == |chosen| && |multiset(s)| == |multiset(chosen)| + |rest|;
    assert |rest| == 0 <==> rest == multiset{};
  }

  lemma Prefix(a: seq<Span>, b: seq<Span>, s: seq<Span>)
    requires multiset(a + b) <= multiset(s)
    ensures multiset(a) <= multiset(s)
  {
    assert multiset(a + b) == multiset(a) + multiset(b);
  }

  /** Adding one more span of the run keeps the selection a part of the expected spans, or spoils it for good. */
  lemma PartNext(values: seq<Span>, s: Span, wanted: seq<Span>)
    requires Distinct(wanted) && multiset(values) <= multiset(wanted)
    ensures multiset(values + [s]) <= multiset(wanted) <==>
              s in wanted && forall v | v in values :: v.identity != s.identity
  {
    SubBag(values, wanted);
    SubBag(values + [s], wanted);
    var more := values + [s];
    assert more[|values|] == s;
    assert forall c :: c in more <==> c in values || c == s;
    if s in wanted && forall v | v in values :: v.identity != s.identity {
      forall i, j | 0 <= i < j < |more|
        ensures more[i].identity != more[j].identity
      {
        assert more[i] in values;
      }
    } else if exists v :: v in values && v.identity == s.identity {
      var i :| 0 <= i < |values| && values[i].identity == s.identity;
      assert more[i].identity == more[|values|].identity;
    }
  }

  lemma LevelsKeepIdentities(values: seq<Span>, id: Identity)
    ensures (exists v :: v in Levels(values) && v.identity == id) <==> exists v :: v in values && v.identity == id
  {
    hide LevelSpan;
    if v :| v in values && v.identity == id {
      var i :| 0 <= i < |values| && values[i] == v;
      assert Levels(values)[i] in Levels(values) && Levels(values)[i].identity == id;
    }
    if v :| v in Levels(values) && v.identity == id {
      var i :| 0 <= i < |values| && Levels(values)[i] == v;
      assert values[i] in values;
    }
  }

  /** The same for spans as comparison sees them. */
  lemma GotNext(values: seq<Span>, s: Span, e: Expected)
    requires Distinct(e.spans) && multiset(Levels(values)) <= multiset(Wanted(e))
    ensures multiset(Levels(values + [s])) <= multiset(Wanted(e)) <==>
              LevelSpan(s) in Wanted(e) && forall v | v in values :: v.identity != s.identity
  {
    hide LevelSpan;
    LevelsSplit(values, [s]);
    assert Levels([s]) == [LevelSpan(s)];
    hide Levels, Distinct;
    LevelsDistinct(e.spans);
    PartNext(Levels(values), LevelSpan(s), Wanted(e));
    LevelsKeepIdentities(values, s.identity);
  }

  /** The identities of the spans, one for each. */
  ghost predicate Seen(ids: set<Identity>, values: seq<Span>) {
    |ids| == |values| && forall id :: id in ids <==> exists v | v in values :: v.identity == id
  }

  lemma SeenNext(ids: set<Identity>, values: seq<Span>, s: Span)
    requires Seen(ids, values)
    ensures s.identity in ids <==> exists v | v in values :: v.identity == s.identity
    ensures s.identity !in ids ==> Seen(ids + {s.identity}, values + [s])
  {
    forall id
      ensures id in ids + {s.identity} <==> exists v | v in values + [s] :: v.identity == id
    {
      if id in ids {
        var v :| v in values && v.identity == id;
        assert v in values + [s];
      }
      if id == s.identity {
        assert s in values + [s];
      }
    }
  }

  /** Whether the run's records are so far right but too few; waiting for the others makes sense only then. */
  method ReadbackIsIncomplete(raws: seq<Raw>, e: Expected) returns (r: bool)
    requires ValidExpected(e)
    ensures r <==> Incomplete(raws, e)
  {
    hide CanonicalOf, Belongs, Distinct, ValidExpected, Chosen, Seen, Levels, LevelSpan, Wanted;
    Validity(e);
    NothingGot(e);
    var selected: set<Identity> := {};
    ghost var values: seq<Span> := [];
    for i := 0 to |raws|
      invariant AllCanonical(raws[..i]) && values == Chosen(raws[..i], e)
      invariant multiset(Levels(values)) <= multiset(Wanted(e)) && Seen(selected, values)
    {
      ChosenNext(raws, i, e);
      var normalized := CanonicalSpan(raws[i]);
      if normalized.None? {
        assert raws[i] in raws;
        return false;
      }
      var s := normalized.value;
      if Belongs(s, e) {
        GotNext(values, s, e);
        SeenNext(selected, values, s);
        if LevelSpan(s) !in Wanted(e) || s.identity in selected {
          SpoiltForGood(raws, i, values + [s], e);
          return false;
        }
        selected, values := selected + {s.identity}, values + [s];
      }
    }
    assert raws[..|raws|] == raws;
    PartIsProper(Levels(values), Wanted(e));
    SeenCount(selected, values);
    return |selected| < |Wanted(e)|;
  }

  lemma NothingGot(e: Expected)
    ensures Chosen([], e) == [] && Levels([]) == [] && Seen({}, [])
  {
  }

  lemma SeenCount(ids: set<Identity>, values: seq<Span>)
    requires Seen(ids, values)
    ensures |ids| == |Levels(values)|
  {
  }

  lemma SpoiltForGood(raws: seq<Raw>, i: nat, values: seq<Span>, e: Expected)
    requires i < |raws| && values == Chosen(raws[..i + 1], e) && !(multiset(Levels(values)) <= multiset(Wanted(e)))
    ensures !Incomplete(raws, e)
  {
    ChosenNext(raws, i, e);
    LevelsSplit(values, Chosen(raws[i + 1..], e));
    if multiset(Got(raws, e)) <= multiset(Wanted(e)) {
      Prefix(Levels(values), Levels(Chosen(raws[i + 1..], e)), Wanted(e));
    }
  }

  /** What is rejected: malformed records, a surplus or a deviation, and a full set that cannot be summarized. */
  lemma RejectedWhen(raws: seq<Raw>, e: Expected)
    ensures !(Accepted(raws, e) && Incomplete(raws, e))
    ensures Rejected(raws, e) <==>
              || !AllCanonical(raws)
              || !(multiset(Got(raws, e)) <= multiset(Wanted(e)))
              || (multiset(Got(raws, e)) == multiset(Wanted(e)) && !AllCountable(Chosen(raws, e)))
  {
  }

  lemma JoinedRecords(raws: seq<Raw>, more: seq<Raw>, e: Expected)
    ensures Chosen(raws + more, e) == Chosen(raws, e) + Chosen(more, e)
    ensures Got(raws + more, e) == Got(raws, e) + Got(more, e)
    ensures AllCanonical(raws + more) <==> AllCanonical(raws) && AllCanonical(more)
    ensures AllCountable(Chosen(raws + more, e)) <==> AllCountable(Chosen(raws, e)) && AllCountable(Chosen(more, e))
  {
    hide Chosen, Levels, CanonicalOf, Countable;
    ChosenSplit(raws, more, e);
    LevelsSplit(Chosen(raws, e), Chosen(more, e));
    assert forall r :: r in raws + more <==> r in raws || r in more;
    assert forall s :: s in Chosen(raws + more, e) <==> s in Chosen(raws, e) || s in Chosen(more, e);
  }

  /**
   * An incomplete readback is completed by records of exactly the missing spans, and by nothing else; and only if it
   * can be summarized so far.
   */
  lemma IncompleteIsCompleted(raws: seq<Raw>, more: seq<Raw>, e: Expected)
    requires Incomplete(raws, e)
    ensures Accepted(raws + more, e) <==>
              && AllCountable(Chosen(raws, e)) && AllCountable(Chosen(more, e))
              && AllCanonical(more) && multiset(Got(more, e)) == multiset(Wanted(e)) - multiset(Got(raws, e))
  {
    hide Chosen, AllCanonical, AllCountable, Levels, Got, Wanted;
    JoinedRecords(raws, more, e);
    assert multiset(Got(raws, e) + Got(more, e)) == multiset(Got(raws, e)) + multiset(Got(more, e));
  }

  // ---- when waiting can help ----

  /** The expected spans that are not among these yet. */
  function Lacking(spans: seq<Span>, got: seq<Span>): seq<Span> {
    if spans == [] then []
    else
      var n := |spans| - 1;
      Lacking(spans[..n], got) + if LevelSpan(spans[n]) in got then [] else [spans[n]]
  }

  lemma {:induction false} LackingMembers(spans: seq<Span>, got: seq<Span>)
    requires Distinct(spans)
    ensures Distinct(Lacking(spans, got))
    ensures forall s :: s in Lacking(spans, got) <==> s in spans && LevelSpan(s) !in got
  {
    hide LevelSpan;
    if spans != [] {
      var n := |spans| - 1;
      LackingMembers(spans[..n], got);
      var init := Lacking(spans[..n], got);
      assert spans == spans[..n] + [spans[n]];
      forall i | 0 <= i < |init| ensures init[i].identity != spans[n].identity {
        assert init[i] in spans[..n];
        var j :| 0 <= j < n && spans[j] == init[i];
      }
    }
  }

  lemma LevelsMembers(spans: seq<Span>, x: Span)
    ensures x in Levels(spans) <==> exists s :: s in spans && LevelSpan(s) == x
  {
    hide LevelSpan;
    if x in Levels(spans) {
      var i :| 0 <= i < |spans| && Levels(spans)[i] == x;
      assert spans[i] in spans;
    }
    if s :| s in spans && LevelSpan(s) == x {
      var i :| 0 <= i < |spans| && spans[i] == s;
      assert Levels(spans)[i] == x;
    }
  }

  /** What is there and what is lacking make up the expected spans. */
  lemma LackingCompletes(e: Expected, got: seq<Span>)
    requires Distinct(e.spans) && multiset(got) <= multiset(Wanted(e))
    ensures multiset(Levels(Lacking(e.spans, got))) == multiset(Wanted(e)) - multiset(got)
  {
    hide LevelSpan, Lacking, Levels, Distinct;
    var lacking := Lacking(e.spans, got);
    LackingMembers(e.spans, got);
    LevelsDistinct(e.spans);
    LevelsDistinct(lacking);
    SubBag(got, Wanted(e));
    BagOf(Wanted(e));
    BagOf(Levels(lacking));
    BagOf(got);
    forall x ensures multiset(Levels(lacking))[x] == (multiset(Wanted(e)) - multiset(got))[x] {
      LevelsMembers(lacking, x);
      LevelsMembers(e.spans, x);
    }
  }

  /** Records of any expected spans that records can yield. */
  lemma {:induction false} RecordsOf(spans: seq<Span>, e: Expected) returns (raws: seq<Raw>)
    requires forall s | s in spans :: s in e.spans && Plausible(s)
    ensures AllCanonical(raws) && Chosen(raws, e) == spans
  {
    hide CanonicalOf, Plausible;
    raws := [];
    if spans != [] {
      var n := |spans| - 1;
      var rest := RecordsOf(spans[..n], e);
      var raw := SomeRecord(spans[n]);
      raws := rest + [raw];
      assert spans[n] in spans && Belongs(spans[n], e);
      assert raws[..|rest|] == rest && raws[|rest|] == raw;
    }
  }

  /**
   * Some records complete an incomplete readback exactly when what it has can be summarized, for every expected run
   * whose spans records can yield: otherwise there is no point in waiting.
   */
  lemma CompletedIff(raws: seq<Raw>, e: Expected)
    requires ValidExpected(e) && Incomplete(raws, e) && forall s | s in e.spans :: Plausible(s)
    ensures (exists more :: Accepted(raws + more, e)) <==> AllCountable(Chosen(raws, e))
  {
    hide Chosen, AllCanonical, Levels, Countable, Plausible, Lacking, LevelSpan;
    if AllCountable(Chosen(raws, e)) {
      var lacking := Lacking(e.spans, Got(raws, e));
      LackingMembers(e.spans, Got(raws, e));
      LackingCompletes(e, Got(raws, e));
      var more := RecordsOf(lacking, e);
      assert AllCountable(e.spans) && AllCountable(lacking);
      IncompleteIsCompleted(raws, more, e);
      assert Accepted(raws + more, e);
    }
    if more :| Accepted(raws + more, e) {
      IncompleteIsCompleted(raws, more, e);
    }
  }

  /**
   * So the loop can wait in vain: a count that comes back as a floating-point number equals the expected one, the
   * readback counts as incomplete, and no record that may still arrive can make it accepted.
   */
  lemma WaitsInVain(raw: Raw, s: Span, more: seq<Raw>, e: Expected)
    requires ValidExpected(e) && |e.spans| > 1 && CanonicalOf(raw) == Some(s) && LevelSpan(s) in Wanted(e)
    requires Root(s) && ITEMS in s.attributes && s.attributes[ITEMS].Float?
    ensures Incomplete([raw], e) && !Accepted([raw] + more, e)
  {
    hide ValidExpected, CanonicalOf, LevelSpan, JsonWhereExpected;
    var i :| 0 <= i < |e.spans| && Wanted(e)[i] == LevelSpan(s);
    assert e.spans[i] in e.spans && e.spans[i].identity == s.identity;
    assert [raw][..0] == [] && Chosen([raw], e) == [s] && Got([raw], e) == [LevelSpan(s)];
    assert LevelSpan(s) in multiset(Wanted(e));
    PartIsProper([LevelSpan(s)], Wanted(e));
    assert s in Chosen([raw], e) && !AllCountable(Chosen([raw], e));
    IncompleteIsCompleted([raw], more, e);
  }

  /** A failed request of run "r" that asked for `items` items. */
  function FailedRoot(id: string, items: Attr): Span {
    Span(Identity("t", id), "root", "CHAIN", None, "ERROR", "", 0, 1, [],
         map[ITEMS := items, QUESTIONS := Whole(0), ANSWERS := Whole(0), BATCH := Flag(false),
             "metadata" := Json(Some("r"), "")])
  }

  lemma FailedRootFacts(id: string, items: Attr)
    ensures var s := FailedRoot(id, items);
            && Root(s) && Plausible(s) && RunOf(s) == Some("r") && s.identity == Identity("t", id)
            && ITEMS in s.attributes && s.attributes[ITEMS] == items
    ensures items == Whole(2) ==> Countable(FailedRoot(id, items))
    ensures items == Float(2.0) ==> LevelSpan(FailedRoot(id, items)) == LevelSpan(FailedRoot(id, Whole(2)))
  {
    var s := FailedRoot(id, items);
    assert s.attributes.Keys == FailedRoot(id, Whole(2)).attributes.Keys;
    if items == Float(2.0) {
      SameLevel(FailedRoot(id, Whole(2)), s);
    }
  }

  /** Such a run: two items are expected for either of two requests, and one of them comes back as 2.0. */
  lemma VainExample() returns (e: Expected, raw: Raw)
    ensures ValidExpected(e) && Incomplete([raw], e) && forall more :: !Accepted([raw] + more, e)
  {
    hide FailedRoot, LevelSpan, CanonicalOf, SummaryOf, Countable, Plausible, RunOf, AllCanonical, AllCountable, Chosen;
    var a, b, s := FailedRoot("1", Whole(2)), FailedRoot("2", Whole(2)), FailedRoot("1", Float(2.0));
    FailedRootFacts("1", Whole(2));
    FailedRootFacts("2", Whole(2));
    FailedRootFacts("1", Float(2.0));
    var spans := [a, b];
    TwoRootsSummarize(a, b);
    e := Expected("r", spans, SummaryOf(spans).value);
    raw := SomeRecord(s);
    assert Wanted(e)[0] == LevelSpan(a);
    forall more ensures Incomplete([raw], e) && !Accepted([raw] + more, e) {
      WaitsInVain(raw, s, more, e);
    }
    WaitsInVain(raw, s, [], e);
  }

  lemma TwoRootsSummarize(a: Span, b: Span)
    requires Root(a) && Root(b) && Countable(a) && Countable(b)
    ensures SummaryOf([a, b]).Some?
  {
    hide Countable;
    var spans := [a, b];
    assert AllCountable(spans);
    assert spans[..1] == [a] && spans[1] == b && spans[1] in spans;
    RequestsAreRoots(spans);
    assert Durations(spans) != [];
  }

  lemma SameLevel(a: Span, s: Span)
    requires s.attributes.Keys == a.attributes.Keys && s == a.(attributes := s.attributes)
    requires forall k | k in a.attributes :: Level(s.attributes[k]) == Level(a.attributes[k])
    ensures LevelSpan(s) == LevelSpan(a)
  {
  }

  /** What is rejected stays rejected, whatever records arrive later: there is no point in waiting for them. */
  lemma RejectedForGood(raws: seq<Raw>, more: seq<Raw>, e: Expected)
    requires Rejected(raws, e)
    ensures Rejected(raws + more, e)
  {
    hide Chosen, AllCanonical, AllCountable, Levels, Got, Wanted;
    JoinedRecords(raws, more, e);
    RejectedWhen(raws, e);
    RejectedWhen(raws + more, e);
    var got, extra := Got(raws, e), Got(more, e);
    assert multiset(got + extra) == multiset(got) + multiset(extra);
    if multiset(got + extra) <= multiset(Wanted(e)) {
      Prefix(got, extra, Wanted(e));
    }
  }

  // ---- nothing else matters ----

  /** The span names this run in its metadata. */
  predicate NamesRun(s: Span, run: string) {
    && "metadata" in s.attributes && s.attributes["metadata"].Json?
    && s.attributes["metadata"].run.Some? && s.attributes["metadata"].run.value == run
  }

  /** A span of this run, or with an expected identity, that equals no expected span has the list rejected for good. */
  lemma SurplusIsRejected(before: seq<Raw>, r: Raw, after: seq<Raw>, e: Expected)
    requires CanonicalOf(r).Some?
    requires var s := CanonicalOf(r).value;
             && (NamesRun(s, e.runId) || exists x :: x in e.spans && x.identity == s.identity)
             && forall x | x in e.spans :: LevelSpan(x) != LevelSpan(s)
    ensures Rejected(before + [r] + after, e)
  {
    hide CanonicalOf, LevelSpan, AllCountable, AllCanonical, Chosen, Levels;
    var s, all := CanonicalOf(r).value, before + [r] + after;
    ChosenAlone(r, e);
    JoinedRecords(before, [r], e);
    JoinedRecords(before + [r], after, e);
    assert s in Chosen(all, e);
    LevelsMembers(Chosen(all, e), LevelSpan(s));
    LevelsMembers(e.spans, LevelSpan(s));
    assert LevelSpan(s) in multiset(Got(all, e)) && LevelSpan(s) !in multiset(Wanted(e));
  }

  lemma ChosenAlone(r: Raw, e: Expected)
    requires CanonicalOf(r).Some? && Belongs(CanonicalOf(r).value, e)
    ensures Chosen([r], e) == [CanonicalOf(r).value]
  {
    hide CanonicalOf, Belongs;
    assert [r][..0] == [] && Chosen([], e) == [];
  }

  /** Well-formed records of other runs change nothing, wherever they stand. */
  lemma OtherRunsDoNotMatter(before: seq<Raw>, other: Raw, after: seq<Raw>, e: Expected)
    requires CanonicalOf(other).Some?
    requires var s := CanonicalOf(other).value;
             !NamesRun(s, e.runId) && forall x | x in e.spans :: x.identity != s.identity
    ensures Accepted(before + [other] + after, e) == Accepted(before + after, e)
    ensures Incomplete(before + [other] + after, e) == Incomplete(before + after, e)
  {
    hide CanonicalOf, Levels, AllCountable;
    assert !Belongs(CanonicalOf(other).value, e);
    assert [other][..0] == [] && Chosen([other], e) == [];
    assert AllCanonical([other]);
    OthersAddNothing(before, other, after, e);
  }

  lemma OthersAddNothing(before: seq<Raw>, other: Raw, after: seq<Raw>, e: Expected)
    requires Chosen([other], e) == [] && AllCanonical([other])
    ensures Chosen(before + [other] + after, e) == Chosen(before + after, e)
    ensures AllCanonical(before + [other] + after) == AllCanonical(before + after)
  {
    hide Chosen, AllCanonical, Got, AllCountable;
    JoinedRecords(before + [other], after, e);
    JoinedRecords(before, [other], e);
    JoinedRecords(before, after, e);
    assert Chosen(before, e) + [] == Chosen(before, e);
  }

  lemma RemoveBag(raws: seq<Raw>, i: nat)
    requires i < |raws|
    ensures multiset(raws[..i] + raws[i + 1..]) == multiset(raws) - multiset{raws[i]}
    ensures raws == raws[..i] + [raws[i]] + raws[i + 1..]
  {
    assert raws == raws[..i] + [raws[i]] + raws[i + 1..];
  }

  lemma FindLast(a: seq<Raw>, b: seq<Raw>) returns (i: nat)
    requires multiset(a) == multiset(b) && a != []
    ensures i < |b| && b[i] == a[|a| - 1] && multiset(b[..i] + b[i + 1..]) == multiset(a[..|a| - 1])
  {
    var n := |a| - 1;
    assert a[n] in multiset(a) && a[n] in multiset(b) && a[n] in b;
    i :| i < |b| && b[i] == a[n];
    RemoveBag(b, i);
    RemoveBag(a, n);
    assert a[..n] + a[n + 1..] == a[..n];
  }

  lemma ChosenOne(before: seq<Raw>, r: Raw, after: seq<Raw>, e: Expected)
    ensures multiset(Chosen(before + [r] + after, e)) == multiset(Chosen(before + after, e)) + multiset(Chosen([r], e))
  {
    JoinedRecords(before + [r], after, e);
    JoinedRecords(before, [r], e);
    JoinedRecords(before, after, e);
    hide Chosen;
  }

  lemma {:induction false} ChosenIgnoresOrder(a: seq<Raw>, b: seq<Raw>, e: Expected)
    requires multiset(a) == multiset(b)
    ensures multiset(Chosen(a, e)) == multiset(Chosen(b, e))
    decreases |a|
  {
    if a == [] {
      assert |multiset(b)| == |b|;
    } else {
      hide Chosen;
      var n := |a| - 1;
      var i := FindLast(a, b);
      RemoveBag(a, n);
      RemoveBag(b, i);
      ChosenIgnoresOrder(a[..n], b[..i] + b[i + 1..], e);
      ChosenOne(a[..n], a[n], a[n + 1..], e);
      ChosenOne(b[..i], b[i], b[i + 1..], e);
      assert a[..n] + a[n + 1..] == a[..n];
    }
  }

  /** The order of the records does not matter. */
  lemma OrderDoesNotMatter(a: seq<Raw>, b: seq<Raw>, e: Expected)
    requires multiset(a) == multiset(b)
    ensures Accepted(a, e) == Accepted(b, e) && Incomplete(a, e) == Incomplete(b, e)
  {
    hide Chosen, Levels, CanonicalOf, Countable;
    ChosenIgnoresOrder(a, b, e);
    LevelsBag(Chosen(a, e), Chosen(b, e));
    Members(Chosen(a, e), Chosen(b, e));
    assert forall r :: r in a <==> r in multiset(a);
    assert forall r :: r in b <==> r in multiset(b);
    assert AllCanonical(a) == AllCanonical(b);
  }

  // ---- the retry loop ----

  /** One walk over the pages: the records, a transient failure, or one that no retry can mend. */
  datatype Walk = Records(raws: seq<Raw>) | Transient | Fatal

  datatype Outcome = Verified(summary: Summary) | Refused | Expired

  /** A walk after which it makes sense to try again. */
  predicate Retryable(w: Walk, e: Expected) {
    w.Transient? || (w.Records? && Incomplete(w.raws, e))
  }

  /** The walks that happen before the deadline, in order. */
  method VerifyRun(walks: seq<Walk>, e: Expected) returns (r: Outcome)
    requires ValidExpected(e)
    ensures r == Expired <==> forall w | w in walks :: Retryable(w, e)
    ensures r.Verified? ==>
              && r.summary == e.summary
              && exists i | 0 <= i < |walks| ::
                   walks[i].Records? && Accepted(walks[i].raws, e) && forall j | 0 <= j < i :: Retryable(walks[j], e)
    ensures r.Refused? ==>
              exists i | 0 <= i < |walks| ::
                && (walks[i].Fatal? || (walks[i].Records? && Rejected(walks[i].raws, e)))
                && forall j | 0 <= j < i :: Retryable(walks[j], e)
  {
    hide ValidExpected;
    for i := 0 to |walks|
      invariant forall j | 0 <= j < i :: Retryable(walks[j], e)
    {
      match walks[i]
      case Transient =>
      case Fatal =>
        assert walks[i] in walks;
        return Refused;
      case Records(raws) =>
        assert walks[i] in walks;
        RejectedWhen(raws, e);
        var summary := CompareRun(raws, e);
        if summary.Some? {
          return Verified(summary.value);
        }
        var incomplete := ReadbackIsIncomplete(raws, e);
        if !incomplete {
          return Refused;
        }
    }
    return Expired;
  }
}
