/**
 * Dollar signs in a compose service. Some providers print a resolved service with every `$` doubled, some do not;
 * the running container's environment tells which.
 */
module Dollars {
  import opened Wrappers

  datatype Value =
    | Str(s: string)
    | Num(n: int)
    | Flag(b: bool)
    | Null
    | Dict(m: map<string, Value>)
    | List(l: seq<Value>)

  type Service = map<string, Value>

  /** How the planner refuses; `Malformed` is an exception that nobody catches. */
  datatype Refusal = Input | Ownership | Malformed

  // ---- text ----

  function Twice(c: char): string {
    if c == '$' then "$$" else [c]
  }

  /** Replace every dollar by two. */
  function EscapeText(s: string): string {
    if |s| == 0 then "" else Twice(s[0]) + EscapeText(s[1..])
  }

  predicate StartsDoubled(s: string) {
    |s| >= 2 && s[0] == '$' && s[1] == '$'
  }

  /** Replace every pair of dollars by one, from left to right. */
  function UnescapeText(s: string): string {
    if |s| == 0 then ""
    else if StartsDoubled(s) then [s[0]] + UnescapeText(s[2..])
    else [s[0]] + UnescapeText(s[1..])
  }

  lemma Assoc(a: string, b: string, c: string)
    ensures a + (b + c) == (a + b) + c
  {
  }

  function Width(s: string): nat {
    if StartsDoubled(s) then 2 else 1
  }

  lemma UnescapeUnfold(s: string)
    requires |s| > 0
    ensures UnescapeText(s) == [s[0]] + UnescapeText(s[Width(s)..])
  {
  }

  lemma UnescapeTwice(c: char, rest: string)
    ensures UnescapeText(Twice(c) + rest) == [c] + UnescapeText(rest)
  {
    var s := Twice(c) + rest;
    UnescapeUnfold(s);
    hide UnescapeText;
    assert s[Width(s)..] == rest;
  }

  lemma {:induction false} UnescapeUndoesText(s: string)
    ensures UnescapeText(EscapeText(s)) == s
  {
    if |s| != 0 {
      UnescapeUndoesText(s[1..]);
      UnescapeTwice(s[0], EscapeText(s[1..]));
    }
  }

  lemma EscapeInjective(s: string, t: string)
    requires EscapeText(s) == EscapeText(t)
    ensures s == t
  {
    UnescapeUndoesText(s);
    UnescapeUndoesText(t);
  }

  lemma {:induction false} EscapeGrows(s: string)
    ensures '$' in EscapeText(s) <==> '$' in s
    ensures if '$' in s then |EscapeText(s)| > |s| else EscapeText(s) == s
  {
    if |s| != 0 {
      EscapeGrows(s[1..]);
      assert s == [s[0]] + s[1..];
    }
  }

  lemma {:induction false} UnescapePlain(s: string)
    requires '$' !in s
    ensures UnescapeText(s) == s
  {
    if |s| != 0 {
      UnescapePlain(s[1..]);
      assert s == [s[0]] + s[1..];
    }
  }

  predicate HasPair(s: string) {
    exists i | 0 <= i < |s| - 1 :: s[i] == '$' && s[i + 1] == '$'
  }

  /** Undoubling shortens exactly the texts with two dollars in a row. */
  lemma {:induction false} UnescapeShrinks(s: string)
    ensures |UnescapeText(s)| <= |s| && (HasPair(s) <==> |UnescapeText(s)| < |s|)
    decreases |s|
  {
    if |s| != 0 {
      UnescapeUnfold(s);
      UnescapeShrinks(s[Width(s)..]);
      if StartsDoubled(s) {
        assert s[0] == '$' && s[0 + 1] == '$';
      } else {
        PairTail(s);
      }
    }
  }

  lemma PairTail(s: string)
    requires |s| > 0 && !StartsDoubled(s)
    ensures HasPair(s) <==> HasPair(s[1..])
  {
    if i :| 0 <= i < |s| - 1 && s[i] == '$' && s[i + 1] == '$' {
      assert s[1..][i - 1] == '$' && s[1..][i - 1 + 1] == '$';
    }
    if i :| 0 <= i < |s[1..]| - 1 && s[1..][i] == '$' && s[1..][i + 1] == '$' {
      assert s[i + 1] == '$' && s[i + 1 + 1] == '$';
    }
  }

  lemma PairInside(a: string, s: string, b: string)
    requires HasPair(s)
    ensures HasPair(a + s + b)
  {
    var i :| 0 <= i < |s| - 1 && s[i] == '$' && s[i + 1] == '$';
    var t, j := a + s + b, |a| + i;
    assert t[j] == '$' && t[j + 1] == '$';
  }

  lemma {:induction false} EscapeHasPair(s: string)
    requires '$' in s
    ensures HasPair(EscapeText(s))
  {
    if s[0] == '$' {
      assert EscapeText(s)[0] == '$' && EscapeText(s)[0 + 1] == '$';
    } else {
      EscapeHasPair(s[1..]);
      assert EscapeText(s) == Twice(s[0]) + EscapeText(s[1..]) + "";
      PairInside(Twice(s[0]), EscapeText(s[1..]), "");
    }
  }

  /** A rewriting of text that does nothing without dollars and never reaches across an equals sign. */
  ghost predicate Tame(f: string -> string) {
    && (forall s: string | '$' !in s :: f(s) == s)
    && (forall a: string, b: string :: f(Pair(a, b)) == f(a) + "=" + f(b))
  }

  function Pair(a: string, b: string): string {
    a + "=" + b
  }

  lemma EscapeStep(a: string, b: string)
    requires |a| > 0
    ensures EscapeText(a + b) == Twice(a[0]) + EscapeText(a[1..] + b)
  {
    assert (a + b)[1..] == a[1..] + b;
  }

  lemma {:induction false} EscapeConcat(a: string, b: string)
    ensures EscapeText(a + b) == EscapeText(a) + EscapeText(b)
  {
    if |a| == 0 {
      assert a + b == b;
    } else {
      EscapeConcat(a[1..], b);
      EscapeStep(a, b);
      hide Twice;
      Assoc(Twice(a[0]), EscapeText(a[1..]), EscapeText(b));
    }
  }

  lemma DropConcat(a: string, b: string, n: nat)
    requires n <= |a|
    ensures (a + b)[n..] == a[n..] + b
  {
  }

  lemma UnescapeStep(a: string, b: string)
    requires |a| > 0 && |b| > 0 && b[0] != '$'
    ensures UnescapeText(a + b) == [a[0]] + UnescapeText(a[Width(a)..] + b)
  {
    UnescapeUnfold(a + b);
    DropConcat(a, b, Width(a));
    hide UnescapeText;
    assert |a| == 1 ==> (a + b)[1] == b[0];
    assert StartsDoubled(a + b) == StartsDoubled(a);
  }

  lemma {:induction false} UnescapeConcat(a: string, b: string)
    requires |b| > 0 && b[0] != '$'
    ensures UnescapeText(a + b) == UnescapeText(a) + UnescapeText(b)
    decreases |a|
  {
    if |a| == 0 {
      assert a + b == b;
    } else {
      UnescapeConcat(a[Width(a)..], b);
      UnescapeStep(a, b);
      Assoc([a[0]], UnescapeText(a[Width(a)..]), UnescapeText(b));
    }
  }

  /** `n` dollars in a row. */
  function Run(n: nat): string {
    seq(n, _ => '$')
  }

  /** Doubling makes two dollars of each; undoubling makes one of every two, and of a last one without a partner. */
  lemma {:induction false} RunsOfDollars(n: nat)
    ensures EscapeText(Run(n)) == Run(2 * n) && UnescapeText(Run(n)) == Run((n + 1) / 2)
  {
    if n == 1 {
      assert Run(1)[1..] == [] && UnescapeText([]) == [] && EscapeText([]) == [];
    } else if n > 1 {
      RunsOfDollars(n - 1);
      RunsOfDollars(n - 2);
      assert Run(n)[1..] == Run(n - 1) && Run(n)[2..] == Run(n - 2);
      assert Run(2 * n) == Twice('$') + Run(2 * (n - 1));
      assert Run((n + 1) / 2) == ['$'] + Run((n - 2 + 1) / 2);
    }
  }

  lemma OneOther(c: char, b: string)
    requires c != '$'
    ensures EscapeText([c] + b) == [c] + EscapeText(b) && UnescapeText([c] + b) == [c] + UnescapeText(b)
  {
    assert ([c] + b)[1..] == b;
  }

  /** Between runs of dollars both leave a text as it is, and work on each run by itself. */
  lemma OtherTextStays(a: string, c: char, b: string)
    requires c != '$'
    ensures EscapeText(a + [c] + b) == EscapeText(a) + [c] + EscapeText(b)
    ensures UnescapeText(a + [c] + b) == UnescapeText(a) + [c] + UnescapeText(b)
  {
    assert a + [c] + b == a + ([c] + b);
    EscapeConcat(a, [c] + b);
    UnescapeConcat(a, [c] + b);
    OneOther(c, b);
    hide EscapeText, UnescapeText;
    Assoc(EscapeText(a), [c], EscapeText(b));
    Assoc(UnescapeText(a), [c], UnescapeText(b));
  }

  lemma EscapeAcross(a: string, b: string)
    ensures EscapeText(Pair(a, b)) == EscapeText(a) + "=" + EscapeText(b)
  {
    Assoc(a, "=", b);
    EscapeConcat(a, "=" + b);
    EscapeConcat("=", b);
    assert EscapeText("=") == "=";
    hide EscapeText;
    Assoc(EscapeText(a), "=", EscapeText(b));
  }

  lemma UnescapeAcross(a: string, b: string)
    ensures UnescapeText(Pair(a, b)) == UnescapeText(a) + "=" + UnescapeText(b)
  {
    Assoc(a, "=", b);
    UnescapeConcat(a, "=" + b);
    assert ("=" + b)[1..] == b;
    assert UnescapeText("=" + b) == "=" + UnescapeText(b);
    hide UnescapeText;
    Assoc(UnescapeText(a), "=", UnescapeText(b));
  }

  lemma BothTame()
    ensures Tame(EscapeText) && Tame(UnescapeText)
  {
    forall s: string | '$' !in s
      ensures EscapeText(s) == s && UnescapeText(s) == s
    {
      EscapeGrows(s);
      UnescapePlain(s);
    }
    forall a: string, b: string
      ensures EscapeText(Pair(a, b)) == EscapeText(a) + "=" + EscapeText(b)
      ensures UnescapeText(Pair(a, b)) == UnescapeText(a) + "=" + UnescapeText(b)
    {
      EscapeAcross(a, b);
      UnescapeAcross(a, b);
    }
  }

  // ---- trees ----

  /** Apply a rewriting to every string of a tree; the keys of its dictionaries stay. */
  function MapStrings(v: Value, f: string -> string): Value {
    match v
    case Str(s) => Str(f(s))
    case Dict(m) => Dict(map k | k in m :: MapStrings(m[k], f))
    case List(l) => List(seq(|l|, i requires 0 <= i < |l| => MapStrings(l[i], f)))
    case _ => v
  }

  function MapService(svc: Service, f: string -> string): Service {
    map k | k in svc :: MapStrings(svc[k], f)
  }

  predicate HasDollar(v: Value) {
    match v
    case Str(s) => '$' in s
    case Dict(m) => exists k | k in m :: HasDollar(m[k])
    case List(l) => exists i | 0 <= i < |l| :: HasDollar(l[i])
    case _ => false
  }

  predicate ServiceHasDollar(svc: Service) {
    exists k | k in svc :: HasDollar(svc[k])
  }

  /** Unescaping undoes escaping on every nested tree. */
  lemma {:induction false} UnescapeUndoes(v: Value)
    ensures MapStrings(MapStrings(v, EscapeText), UnescapeText) == v
  {
    match v
    case Str(s) => UnescapeUndoesText(s);
    case Dict(m) =>
      forall k | k in m
        ensures MapStrings(MapStrings(m[k], EscapeText), UnescapeText) == m[k]
      {
        UnescapeUndoes(m[k]);
      }
    case List(l) =>
      forall i | 0 <= i < |l|
        ensures MapStrings(MapStrings(l[i], EscapeText), UnescapeText) == l[i]
      {
        UnescapeUndoes(l[i]);
      }
    case _ =>
  }

  lemma {:induction false} EscapeKeepsDollars(v: Value)
    ensures HasDollar(MapStrings(v, EscapeText)) == HasDollar(v)
    ensures !HasDollar(v) ==> MapStrings(v, EscapeText) == v
  {
    match v
    case Str(s) => EscapeGrows(s);
    case Dict(m) =>
      forall k | k in m
        ensures HasDollar(MapStrings(m[k], EscapeText)) == HasDollar(m[k])
        ensures !HasDollar(m[k]) ==> MapStrings(m[k], EscapeText) == m[k]
      {
        EscapeKeepsDollars(m[k]);
      }
      DictKeepsDollars(m);
    case List(l) =>
      forall i | 0 <= i < |l|
        ensures HasDollar(MapStrings(l[i], EscapeText)) == HasDollar(l[i])
        ensures !HasDollar(l[i]) ==> MapStrings(l[i], EscapeText) == l[i]
      {
        EscapeKeepsDollars(l[i]);
      }
      ListKeepsDollars(l);
    case _ =>
  }

  lemma DictKeepsDollars(m: map<string, Value>)
    requires forall k | k in m :: HasDollar(MapStrings(m[k], EscapeText)) == HasDollar(m[k])
    requires forall k | k in m && !HasDollar(m[k]) :: MapStrings(m[k], EscapeText) == m[k]
    ensures HasDollar(MapStrings(Dict(m), EscapeText)) == HasDollar(Dict(m))
    ensures !HasDollar(Dict(m)) ==> MapStrings(Dict(m), EscapeText) == Dict(m)
  {
    var e := MapStrings(Dict(m), EscapeText).m;
    assert forall k | k in m :: e[k] == MapStrings(m[k], EscapeText);
    if HasDollar(Dict(m)) {
      var k :| k in m && HasDollar(m[k]);
      assert k in e && HasDollar(e[k]);
    } else {
      assert e == m;
    }
  }

  lemma ListKeepsDollars(l: seq<Value>)
    requires forall i | 0 <= i < |l| :: HasDollar(MapStrings(l[i], EscapeText)) == HasDollar(l[i])
    requires forall i | 0 <= i < |l| && !HasDollar(l[i]) :: MapStrings(l[i], EscapeText) == l[i]
    ensures HasDollar(MapStrings(List(l), EscapeText)) == HasDollar(List(l))
    ensures !HasDollar(List(l)) ==> MapStrings(List(l), EscapeText) == List(l)
  {
    var e := MapStrings(List(l), EscapeText).l;
    assert forall i | 0 <= i < |l| :: e[i] == MapStrings(l[i], EscapeText);
    if HasDollar(List(l)) {
      var i :| 0 <= i < |l| && HasDollar(l[i]);
      assert HasDollar(e[i]);
    } else {
      assert e == l;
    }
  }

  lemma EscapeService(svc: Service)
    ensures MapService(MapService(svc, EscapeText), UnescapeText) == svc
    ensures ServiceHasDollar(MapService(svc, EscapeText)) == ServiceHasDollar(svc)
    ensures !ServiceHasDollar(svc) ==> MapService(svc, EscapeText) == svc
  {
    forall k | k in svc
      ensures MapStrings(MapStrings(svc[k], EscapeText), UnescapeText) == svc[k]
      ensures HasDollar(MapStrings(svc[k], EscapeText)) == HasDollar(svc[k])
      ensures !HasDollar(svc[k]) ==> MapStrings(svc[k], EscapeText) == svc[k]
    {
      UnescapeUndoes(svc[k]);
      EscapeKeepsDollars(svc[k]);
    }
    var e := MapService(svc, EscapeText);
    forall k | k in svc
      ensures HasDollar(e[k]) == HasDollar(svc[k])
    {
    }
  }

  // ---- the environment of a service ----

  function Digits(n: nat): (s: string)
    ensures '$' !in s && '=' !in s
  {
    if n < 10 then ["0123456789"[n]] else Digits(n / 10) + ["0123456789"[n % 10]]
  }

  /** The text of a scalar; `none` is the text of a missing value. Compose has no nested environment values. */
  function Text(v: Value, none: string): string {
    match v
    case Str(s) => s
    case Num(n) => if n < 0 then "-" + Digits(-n) else Digits(n)
    case Flag(b) => if b then "True" else "False"
    case _ => none
  }

  /** Where the first equals sign is, or the length. */
  function Equals(s: string): (i: nat)
    ensures i <= |s| && '=' !in s[..i] && (i < |s| ==> s[i] == '=')
  {
    if s == "" || s[0] == '=' then 0 else
      var i := Equals(s[1..]);
      assert s[..i + 1] == [s[0]] + s[1..][..i];
      i + 1
  }

  function KeyOf(s: string): string {
    s[..Equals(s)]
  }

  function ValueOf(s: string): string {
    if Equals(s) < |s| then s[Equals(s) + 1..] else ""
  }

  /** The environment of `KEY=VALUE` items; a later item of the same key wins. */
  function ItemsDict(items: seq<Value>): map<string, string> {
    if items == [] then map[] else
      var s := Text(items[|items| - 1], "None");
      ItemsDict(items[..|items| - 1])[KeyOf(s) := ValueOf(s)]
  }

  function EnvDict(env: Value): map<string, string> {
    match env
    case Dict(m) => map k | k in m :: Text(m[k], "")
    case List(l) => ItemsDict(l)
    case _ => map[]
  }

  function Field(svc: Service, key: string): Value {
    if key in svc then svc[key] else Null
  }

  function Env(svc: Service): map<string, string> {
    EnvDict(Field(svc, "environment"))
  }

  /** No item of a listed environment has a dollar in its name. */
  predicate PlainNames(env: Value) {
    env.List? ==> forall i | 0 <= i < |env.l| :: '$' !in KeyOf(Text(env.l[i], "None"))
  }

  /** The rewriting leaves the names of a listed environment alone. */
  ghost predicate KeepsNames(env: Value, f: string -> string) {
    env.List? ==> forall i | 0 <= i < |env.l| :: KeepsName(Text(env.l[i], "None"), f)
  }

  predicate KeepsName(s: string, f: string -> string) {
    f(KeyOf(s)) == KeyOf(s)
  }

  function Mapped(env: map<string, string>, f: string -> string): map<string, string> {
    map k | k in env :: f(env[k])
  }

  lemma SplitAt(s: string, i: nat)
    requires i < |s|
    ensures s == s[..i] + [s[i]] + s[i + 1..]
  {
  }

  lemma Split(s: string)
    ensures Equals(s) < |s| ==> s == Pair(KeyOf(s), ValueOf(s))
    ensures Equals(s) == |s| ==> s == KeyOf(s) && '=' !in s
  {
    var i := Equals(s);
    hide Equals;
    if i < |s| {
      SplitAt(s, i);
      assert [s[i]] == "=";
    } else {
      assert s[..i] == s;
    }
  }

  lemma {:induction false} FirstEquals(a: string, b: string)
    requires '=' !in a
    ensures KeyOf(Pair(a, b)) == a && ValueOf(Pair(a, b)) == b
  {
    if a == "" {
      assert Pair(a, b)[1..] == b;
    } else {
      FirstEquals(a[1..], b);
      assert Pair(a, b)[1..] == Pair(a[1..], b);
      assert Pair(a, b)[Equals(Pair(a, b)) + 1..] == Pair(a[1..], b)[Equals(Pair(a[1..], b)) + 1..];
    }
  }

  // What the environment of a service is.

  /** The item sets `key` to `value`: it reads `key=value`, or `key` alone for the empty value. */
  predicate Sets(item: string, key: string, value: string) {
    '=' !in key && (item == key + "=" + value || (item == key && value == ""))
  }

  lemma ItemSets(item: string, key: string, value: string)
    ensures Sets(item, key, value) <==> key == KeyOf(item) && value == ValueOf(item)
  {
    Split(item);
    assert '=' !in KeyOf(item);
    if '=' !in key {
      FirstEquals(key, value);
      assert key + "=" + value == Pair(key, value);
    }
    if item == key && '=' !in key {
      NoEquals(item);
    }
  }

  lemma {:induction false} NoEquals(s: string)
    requires '=' !in s
    ensures Equals(s) == |s| && KeyOf(s) == s && ValueOf(s) == ""
  {
    if s != "" {
      NoEquals(s[1..]);
    }
  }

  /** The last item that sets the key. */
  ghost predicate LastSets(items: seq<Value>, i: nat, key: string, value: string) {
    && i < |items| && Sets(Text(items[i], "None"), key, value)
    && forall j, w | i < j < |items| :: !Sets(Text(items[j], "None"), key, w)
  }

  /** A listed environment holds for every key what the last item that sets it says. */
  lemma {:induction false} ListedEnv(items: seq<Value>, key: string, value: string)
    ensures key in EnvDict(List(items)) && EnvDict(List(items))[key] == value
            <==> exists i: nat :: LastSets(items, i, key, value)
  {
    hide Text, Sets, KeyOf, ValueOf;
    if items != [] {
      var n := |items| - 1;
      ItemsUnfold(items, n);
      ListedEnv(items[..n], key, value);
      var last := Text(items[n], "None");
      forall w ensures Sets(last, key, w) <==> key == KeyOf(last) && w == ValueOf(last) {
        ItemSets(last, key, w);
      }
      if i: nat :| LastSets(items, i, key, value) {
        assert i < n ==> !Sets(last, key, ValueOf(last)) && LastSets(items[..n], i, key, value);
      }
      if key == KeyOf(last) {
        assert Sets(last, key, ValueOf(last)) && LastSets(items, n, key, ValueOf(last));
      } else if i: nat :| LastSets(items[..n], i, key, value) {
        assert LastSets(items, i, key, value);
      }
    }
  }

  /** A dictionary environment holds its values as Python prints them, and the empty text for a missing one. */
  lemma DictEnv(m: map<string, Value>, key: string)
    ensures key in EnvDict(Dict(m)) <==> key in m
    ensures key in m ==>
              var text := EnvDict(Dict(m))[key];
              match m[key]
              case Str(s) => text == s
              case Flag(b) => text == if b then "True" else "False"
              case Null => text == ""
              case Num(n) => Number(text) == n
              case _ => true
  {
    if key in m && m[key].Num? {
      DigitsRead(if m[key].n < 0 then -m[key].n else m[key].n);
    }
  }

  /** The number that decimal digits spell, least digit last. */
  function Number(s: string): int {
    if s == "" then 0
    else if s[0] == '-' then -Number(s[1..])
    else 10 * Number(s[..|s| - 1]) + (s[|s| - 1] as int - '0' as int)
  }

  lemma {:induction false} DigitsRead(n: nat)
    ensures Number(Digits(n)) == n && Digits(n) != "" && Digits(n)[0] != '-'
    ensures Number("-" + Digits(n)) + n == 0
  {
    DigitAt(n % 10);
    if n >= 10 {
      DigitsRead(n / 10);
      var init := Digits(n / 10);
      assert Digits(n)[..|Digits(n)| - 1] == init;
    } else {
      assert Digits(n)[..|Digits(n)| - 1] == "";
    }
    assert ("-" + Digits(n))[1..] == Digits(n);
  }

  lemma DigitAt(d: nat)
    requires d < 10
    ensures "0123456789"[d] as int == '0' as int + d
  {
  }

  lemma ItemMapped(s: string, f: string -> string)
    requires Tame(f) && KeepsName(s, f)
    ensures KeyOf(f(s)) == KeyOf(s) && ValueOf(f(s)) == f(ValueOf(s))
  {
    Split(s);
    if Equals(s) < |s| {
      assert f(s) == f(Pair(KeyOf(s), ValueOf(s))) == Pair(KeyOf(s), f(ValueOf(s)));
      FirstEquals(KeyOf(s), f(ValueOf(s)));
    } else {
      assert f(s) == s && f("") == "";
    }
  }

  lemma TextMapped(v: Value, f: string -> string, none: string)
    requires Tame(f) && '$' !in none
    ensures Text(MapStrings(v, f), none) == f(Text(v, none))
  {
  }

  lemma ItemsUnfold(items: seq<Value>, n: nat)
    requires |items| == n + 1
    ensures var s := Text(items[n], "None");
            ItemsDict(items) == ItemsDict(items[..n])[KeyOf(s) := ValueOf(s)]
  {
  }

  lemma MappedUpdate(env: map<string, string>, k: string, v: string, f: string -> string)
    ensures Mapped(env[k := v], f) == Mapped(env, f)[k := f(v)]
  {
  }

  lemma {:induction false} ItemsMapped(items: seq<Value>, f: string -> string)
    requires Tame(f) && KeepsNames(List(items), f)
    ensures ItemsDict(MapStrings(List(items), f).l) == Mapped(ItemsDict(items), f)
  {
    var mapped := MapStrings(List(items), f).l;
    if items != [] {
      var n := |items| - 1;
      ItemsMapped(items[..n], f);
      assert mapped[..n] == MapStrings(List(items[..n]), f).l;
      assert mapped[n] == MapStrings(items[n], f);
      TextMapped(items[n], f, "None");
      ItemMapped(Text(items[n], "None"), f);
      hide Tame, KeyOf, ValueOf, Text, MapStrings, ItemsDict, Mapped;
      ItemsUnfold(items, n);
      ItemsUnfold(mapped, n);
      var s := Text(items[n], "None");
      MappedUpdate(ItemsDict(items[..n]), KeyOf(s), ValueOf(s), f);
    }
  }

  /**
   * Rewriting the strings of a service rewrites the values of its environment, in both forms of an environment, as long
   * as it leaves the names of listed items alone.
   */
  lemma EnvMapped(svc: Service, f: string -> string)
    requires Tame(f) && KeepsNames(Field(svc, "environment"), f)
    ensures Env(MapService(svc, f)) == Mapped(Env(svc), f)
  {
    var env := Field(svc, "environment");
    assert Field(MapService(svc, f), "environment") == MapStrings(env, f);
    match env
    case Dict(m) =>
      forall k | k in m
        ensures Text(MapStrings(m[k], f), "") == f(Text(m[k], ""))
      {
        TextMapped(m[k], f, "");
      }
    case List(l) => ItemsMapped(l, f);
    case _ =>
  }

  lemma PlainIsKept(env: Value, f: string -> string)
    requires Tame(f) && PlainNames(env)
    ensures KeepsNames(env, f)
  {
  }

  lemma {:induction false} EscapeKeepsEquals(s: string)
    ensures '=' in EscapeText(s) <==> '=' in s
  {
    if |s| != 0 {
      EscapeKeepsEquals(s[1..]);
      assert s == [s[0]] + s[1..];
    }
  }

  lemma EscapedKey(s: string)
    ensures KeyOf(EscapeText(s)) == EscapeText(KeyOf(s))
  {
    hide EscapeText;
    Split(s);
    if Equals(s) < |s| {
      EscapeAcross(KeyOf(s), ValueOf(s));
      EscapeKeepsEquals(KeyOf(s));
      FirstEquals(EscapeText(KeyOf(s)), EscapeText(ValueOf(s)));
    } else {
      EscapeKeepsEquals(s);
      Split(EscapeText(s));
    }
  }

  /** Every name is doubled along with its item. */
  lemma {:induction false} NamesEscaped(items: seq<Value>, k: string)
    requires k in ItemsDict(items)
    ensures EscapeText(k) in ItemsDict(MapStrings(List(items), EscapeText).l)
  {
    hide Text, KeyOf, ValueOf, EscapeText, Tame;
    var mapped, n := MapStrings(List(items), EscapeText).l, |items| - 1;
    assert mapped[..n] == MapStrings(List(items[..n]), EscapeText).l;
    assert mapped[n] == MapStrings(items[n], EscapeText);
    hide MapStrings, ItemsDict;
    ItemsUnfold(items, n);
    ItemsUnfold(mapped, n);
    BothTame();
    TextMapped(items[n], EscapeText, "None");
    EscapedKey(Text(items[n], "None"));
    if k != KeyOf(Text(items[n], "None")) {
      NamesEscaped(items[..n], k);
    }
  }

  lemma {:induction false} ItemNamed(items: seq<Value>, i: nat)
    requires i < |items|
    ensures KeyOf(Text(items[i], "None")) in ItemsDict(items)
  {
    hide Text, KeyOf, ValueOf;
    var n := |items| - 1;
    ItemsUnfold(items, n);
    hide ItemsDict;
    if i < n {
      ItemNamed(items[..n], i);
    }
  }

  /** No finite set of names is closed under doubling once one of them has a dollar. */
  lemma {:induction false} SomeNameGrows(names: set<string>, k: string)
    requires k in names && '$' in k
    ensures exists x | x in names :: EscapeText(x) !in names
    decreases |(set x | x in names && |x| >= |k|)|
  {
    hide EscapeText;
    EscapeGrows(k);
    var next := EscapeText(k);
    if next in names {
      var longer := set x | x in names && |x| >= |k|;
      var rest := set x | x in names && |x| >= |next|;
      assert rest <= longer - {k} && k in longer;
      SmallerSet(rest, longer, k);
      SomeNameGrows(names, next);
    }
  }

  lemma SmallerSet(a: set<string>, b: set<string>, x: string)
    requires x in b && a <= b - {x}
    ensures |a| < |b|
  {
    var rest := b - {x} - a;
    assert b == a + rest + {x};
  }

  /** Doubling the strings of a service doubles exactly the values if and only if no listed name has a dollar. */
  lemma EnvEscaped(svc: Service)
    ensures Env(MapService(svc, EscapeText)) == Mapped(Env(svc), EscapeText)
            <==> PlainNames(Field(svc, "environment"))
  {
    hide Tame, EscapeText, UnescapeText, KeyOf, Text;
    BothTame();
    var env := Field(svc, "environment");
    assert Field(MapService(svc, EscapeText), "environment") == MapStrings(env, EscapeText);
    if PlainNames(env) {
      PlainIsKept(env, EscapeText);
      EnvMapped(svc, EscapeText);
    } else {
      var i :| 0 <= i < |env.l| && '$' in KeyOf(Text(env.l[i], "None"));
      ItemNamed(env.l, i);
      var names := Env(svc).Keys;
      SomeNameGrows(names, KeyOf(Text(env.l[i], "None")));
      var k :| k in names && EscapeText(k) !in names;
      NamesEscaped(env.l, k);
      assert EscapeText(k) in Env(MapService(svc, EscapeText)) && EscapeText(k) !in Mapped(Env(svc), EscapeText);
    }
  }

  // ---- the literal service ----

  /** Desired against running value, in either spelling. */
  predicate SameValue(value: string, actual: Option<string>) {
    actual.Some? && (value == actual.value || value == EscapeText(actual.value))
  }

  /** A running value with a dollar that the service spells the same way: the provider does not double dollars. */
  predicate Plain(env: map<string, string>, running: map<string, string>) {
    exists k | k in env :: k in running && '$' in running[k] && env[k] == running[k]
  }

  /** A running value with a dollar that the service spells doubled. */
  predicate Doubled(env: map<string, string>, running: map<string, string>) {
    exists k | k in env :: k in running && '$' in running[k] && env[k] == EscapeText(running[k])
  }

  function Literal(svc: Service, running: map<string, string>): Result<Service, Refusal> {
    var env := Env(svc);
    if Plain(env, running) && Doubled(env, running) then Err(Input)
    else if Doubled(env, running) then Ok(MapService(svc, UnescapeText))
    else if !Plain(env, running) && ServiceHasDollar(svc) then Err(Input)
    else Ok(svc)
  }

  datatype Form = PlainForm | DoubledForm

  method ToRuntimeLiteral(svc: Service, running: map<string, string>) returns (r: Result<Service, Refusal>)
    ensures r == Literal(svc, running)
  {
    var env := Env(svc);
    var forms: set<Form> := {};
    var todo := env.Keys;
    while todo != {}
      invariant todo <= env.Keys
      invariant PlainForm in forms <==>
                exists k | k in env.Keys - todo :: k in running && '$' in running[k] && env[k] == running[k]
      invariant DoubledForm in forms <==>
                exists k | k in env.Keys - todo :: k in running && '$' in running[k] && env[k] == EscapeText(running[k])
      decreases |todo|
    {
      var key :| key in todo;
      todo := todo - {key};
      var value, actual := env[key], if key in running then Some(running[key]) else None;
      if SameValue(value, actual) && '$' in actual.value {
        EscapeGrows(actual.value);
        forms := forms + {if value == actual.value then PlainForm else DoubledForm};
      }
    }
    if PlainForm in forms && DoubledForm in forms {
      return Err(Input);
    }
    if DoubledForm in forms {
      return Ok(MapService(svc, UnescapeText));
    }
    if PlainForm !in forms && ServiceHasDollar(svc) {
      return Err(Input);
    }
    return Ok(svc);
  }

  // ---- what the provider meant ----

  /** The service as a provider prints it that doubles dollars, or does not. */
  function Spelled(svc: Service, form: Form): Service {
    if form == DoubledForm then MapService(svc, EscapeText) else svc
  }

  /** A value of the service, as it is printed, that shows how its provider really spells dollars. */
  predicate Right(svc: Service, form: Form, running: map<string, string>) {
    var env := Env(Spelled(svc, form));
    if form == PlainForm then Plain(env, running) else Doubled(env, running)
  }

  /** A drifted one that reads like the other spelling of the value that runs. */
  predicate Wrong(svc: Service, form: Form, running: map<string, string>) {
    var env := Env(Spelled(svc, form));
    if form == PlainForm then Doubled(env, running) else Plain(env, running)
  }

  /** What a service is taken for when its spelling is taken for the other one. */
  function Misread(svc: Service, form: Form): Service {
    if form == PlainForm then MapService(svc, UnescapeText) else MapService(svc, EscapeText)
  }

  lemma ValueDollar(item: Value)
    requires '$' in ValueOf(Text(item, "None"))
    ensures HasDollar(item)
  {
    Split(Text(item, "None"));
    hide Equals;
  }

  lemma {:induction false} ItemDollars(items: seq<Value>, k: string)
    requires k in ItemsDict(items) && '$' in ItemsDict(items)[k]
    ensures exists i | 0 <= i < |items| :: HasDollar(items[i])
  {
    hide Text, HasDollar, KeyOf, ValueOf;
    var n := |items| - 1;
    ItemsUnfold(items, n);
    if k == KeyOf(Text(items[n], "None")) {
      ValueDollar(items[n]);
    } else {
      hide ItemsDict;
      ItemDollars(items[..n], k);
      var i :| 0 <= i < n && HasDollar(items[..n][i]);
      assert HasDollar(items[i]);
    }
  }

  lemma EnvDollars(svc: Service, k: string)
    requires k in Env(svc) && '$' in Env(svc)[k]
    ensures HasDollar(Field(svc, "environment")) && ServiceHasDollar(svc)
  {
    var env := svc["environment"];
    if env.Dict? {
      assert HasDollar(env.m[k]);
    } else {
      ItemDollars(env.l, k);
    }
    assert HasDollar(env);
  }

  // A misread service is another one.

  lemma {:induction false} EscapeChanges(v: Value)
    requires HasDollar(v)
    ensures MapStrings(v, EscapeText) != v
  {
    match v
    case Str(s) => EscapeGrows(s);
    case Dict(m) =>
      var k :| k in m && HasDollar(m[k]);
      EscapeChanges(m[k]);
      assert MapStrings(v, EscapeText).m[k] != m[k];
    case List(l) =>
      var i :| 0 <= i < |l| && HasDollar(l[i]);
      EscapeChanges(l[i]);
      assert MapStrings(v, EscapeText).l[i] != l[i];
    case _ =>
  }

  lemma {:induction false} ItemPairs(items: seq<Value>, k: string) returns (i: nat)
    requires k in ItemsDict(items) && HasPair(ItemsDict(items)[k])
    ensures i < |items| && items[i].Str? && HasPair(items[i].s)
  {
    hide HasPair, KeyOf, ValueOf;
    var n := |items| - 1;
    ItemsUnfold(items, n);
    var s := Text(items[n], "None");
    if k == KeyOf(s) {
      ValuePair(items[n]);
      i := n;
    } else {
      hide ItemsDict;
      i := ItemPairs(items[..n], k);
    }
  }

  lemma PairHasDollar(s: string)
    requires HasPair(s)
    ensures '$' in s
  {
  }

  lemma ValuePair(item: Value)
    requires HasPair(ValueOf(Text(item, "None")))
    ensures item.Str? && HasPair(item.s)
  {
    hide HasPair, Equals;
    var s := Text(item, "None");
    PairHasDollar(ValueOf(s));
    Split(s);
    assert s == KeyOf(s) + "=" + ValueOf(s) + "";
    PairInside(KeyOf(s) + "=", ValueOf(s), "");
    ValueDollar(item);
  }

  /** Undoubling changes a text with two dollars in a row, and makes it another one than doubling does. */
  lemma PairedChanges(s: string)
    requires HasPair(s)
    ensures UnescapeText(s) != s && UnescapeText(s) != EscapeText(s)
  {
    UnescapeShrinks(s);
    EscapeGrows(s);
  }

  lemma EnvPairs(svc: Service, k: string)
    requires k in Env(svc) && HasPair(Env(svc)[k])
    ensures var env := Field(svc, "environment");
            MapStrings(env, UnescapeText) != env && MapStrings(env, UnescapeText) != MapStrings(env, EscapeText)
  {
    hide HasPair, UnescapeText, EscapeText;
    var env := svc["environment"];
    if env.Dict? {
      PairHasDollar(Text(env.m[k], ""));
      PairedChanges(env.m[k].s);
      assert MapStrings(env, UnescapeText).m[k] != env.m[k];
      assert MapStrings(env, UnescapeText).m[k] != MapStrings(env, EscapeText).m[k];
    } else {
      var i := ItemPairs(env.l, k);
      PairedChanges(env.l[i].s);
      assert MapStrings(env, UnescapeText).l[i] != env.l[i];
      assert MapStrings(env, UnescapeText).l[i] != MapStrings(env, EscapeText).l[i];
    }
  }

  lemma FieldMapped(svc: Service, f: string -> string)
    ensures Field(MapService(svc, f), "environment") == MapStrings(Field(svc, "environment"), f)
  {
  }

  /** A misread service has another environment, and not the same one for either way to misread it. */
  lemma MisreadDiffers(svc: Service, form: Form, running: map<string, string>)
    requires Wrong(svc, form, running)
    ensures ServiceHasDollar(svc)
    ensures Field(Misread(svc, form), "environment") != Field(svc, "environment")
    ensures form == PlainForm ==> Misread(svc, PlainForm) != Misread(svc, DoubledForm)
  {
    hide Env, HasPair, HasDollar, MapStrings, MapService, EscapeText, UnescapeText, ServiceHasDollar;
    FieldMapped(svc, UnescapeText);
    FieldMapped(svc, EscapeText);
    var env := Env(Spelled(svc, form));
    if form == PlainForm {
      var k :| k in env && k in running && '$' in running[k] && env[k] == EscapeText(running[k]);
      EscapeHasPair(running[k]);
      EscapeGrows(running[k]);
      EnvPairs(svc, k);
      EnvDollars(svc, k);
    } else {
      var k :| k in env && k in running && '$' in running[k] && env[k] == running[k];
      EnvDollars(MapService(svc, EscapeText), k);
      EscapeKeepsDollars(Field(svc, "environment"));
      EscapeChanges(Field(svc, "environment"));
      EscapeService(svc);
    }
  }

  /**
   * What the planner takes for the literal service, for every service a provider may mean and either way to spell it.
   * It is refused if there is evidence for both spellings, or dollars and evidence for neither; and if the only
   * evidence is a drifted value, another service than the one meant is taken for it.
   */
  lemma LiteralOfSpelled(svc: Service, form: Form, running: map<string, string>)
    ensures Literal(Spelled(svc, form), running) ==
              if Wrong(svc, form, running) then
                if Right(svc, form, running) then Err(Input) else Ok(Misread(svc, form))
              else if Right(svc, form, running) || !ServiceHasDollar(svc) then Ok(svc)
              else Err(Input)
  {
    hide EscapeText, UnescapeText, Env, MapService, ServiceHasDollar, Plain, Doubled;
    EscapeService(svc);
    if Wrong(svc, form, running) {
      MisreadDiffers(svc, form, running);
    }
  }

  /** The literal is the service that was meant exactly when no evidence is wrong and any dollars have some. */
  lemma LiteralIsMeant(svc: Service, form: Form, running: map<string, string>)
    ensures Literal(Spelled(svc, form), running) == Ok(svc) <==>
              !Wrong(svc, form, running) && (ServiceHasDollar(svc) ==> Right(svc, form, running))
  {
    hide Literal, Spelled, Right, Wrong, ServiceHasDollar, Misread;
    LiteralOfSpelled(svc, form, running);
    if Wrong(svc, form, running) {
      MisreadDiffers(svc, form, running);
    }
  }

  /**
   * Both spellings of a service come to the same literal or the same refusal exactly when it has no dollars, or the
   * evidence is right and not wrong in both, or in both of them it is mixed or missing.
   */
  lemma SpellingsAgree(svc: Service, running: map<string, string>)
    ensures Literal(MapService(svc, EscapeText), running) == Literal(svc, running) <==>
              var r0, w0 := Right(svc, PlainForm, running), Wrong(svc, PlainForm, running);
              var r1, w1 := Right(svc, DoubledForm, running), Wrong(svc, DoubledForm, running);
              !ServiceHasDollar(svc) || (r0 && !w0 && r1 && !w1) || (r0 == w0 && r1 == w1)
  {
    hide Literal, Right, Wrong, ServiceHasDollar, Misread, MapService, EscapeText;
    LiteralOfSpelled(svc, PlainForm, running);
    LiteralOfSpelled(svc, DoubledForm, running);
    if Wrong(svc, PlainForm, running) {
      MisreadDiffers(svc, PlainForm, running);
    }
    if Wrong(svc, DoubledForm, running) {
      MisreadDiffers(svc, DoubledForm, running);
    }
  }

  // ---- names without dollars ----

  /** Some drifted value of the environment reads like the other spelling of the value that runs. */
  predicate Confused(form: Form, env: map<string, string>, running: map<string, string>) {
    match form
    case PlainForm => Doubled(env, running)
    case DoubledForm => Plain(Mapped(env, EscapeText), running)
  }

  lemma DoublingFacts(env: map<string, string>, running: map<string, string>)
    ensures Doubled(Mapped(env, EscapeText), running) == Plain(env, running)
    ensures Doubled(env, running) || Plain(Mapped(env, EscapeText), running) ==> exists k | k in env :: '$' in env[k]
  {
    var doubled := Mapped(env, EscapeText);
    forall k | k in env && k in running
      ensures doubled[k] == EscapeText(running[k]) <==> env[k] == running[k]
      ensures '$' in running[k] && (env[k] == EscapeText(running[k]) || doubled[k] == running[k]) ==> '$' in env[k]
    {
      EscapeGrows(running[k]);
      EscapeGrows(env[k]);
      if doubled[k] == EscapeText(running[k]) {
        EscapeInjective(env[k], running[k]);
      }
    }
    hide EscapeText;
    if Doubled(doubled, running) {
      var k :| k in doubled && k in running && '$' in running[k] && doubled[k] == EscapeText(running[k]);
      assert k in env && env[k] == running[k];
    }
    if Plain(env, running) {
      var k :| k in env && k in running && '$' in running[k] && env[k] == running[k];
      assert k in doubled;
    }
  }

  /** Where no listed name has a dollar, the evidence is in the values that were meant. */
  lemma EvidenceMeant(svc: Service, form: Form, running: map<string, string>)
    requires PlainNames(Field(svc, "environment"))
    ensures Right(svc, form, running) == Plain(Env(svc), running)
    ensures Wrong(svc, form, running) == Confused(form, Env(svc), running)
  {
    hide Env, EscapeText, MapService, Mapped, Plain, Doubled, PlainNames;
    EnvEscaped(svc);
    DoublingFacts(Env(svc), running);
  }

  /** Every environment value with a dollar is the running container's. */
  predicate MatchesRunning(env: map<string, string>, running: map<string, string>) {
    forall k | k in env && '$' in env[k] :: k in running && running[k] == env[k]
  }

  /** When every dollar in the environment is the running container's, nothing is confused. */
  lemma MatchedIsNotConfused(form: Form, env: map<string, string>, running: map<string, string>)
    requires MatchesRunning(env, running)
    ensures !Confused(form, env, running)
  {
    var doubled := Mapped(env, EscapeText);
    forall k | k in env && k in running
      ensures env[k] == EscapeText(running[k]) ==> '$' !in running[k]
      ensures doubled[k] == running[k] ==> '$' !in running[k]
    {
      EscapeGrows(running[k]);
      EscapeGrows(env[k]);
    }
  }

  /**
   * A service whose dollar-bearing environment values match the running container has one literal, and one refusal,
   * whichever way the provider spells dollars.
   */
  lemma MatchedAgree(svc: Service, running: map<string, string>)
    requires PlainNames(Field(svc, "environment")) && MatchesRunning(Env(svc), running)
    ensures Literal(MapService(svc, EscapeText), running) == Literal(svc, running)
  {
    hide Env, Plain, Confused, MapService, ServiceHasDollar, EscapeText, Literal, PlainNames, MatchesRunning, Right,
         Wrong;
    EvidenceMeant(svc, PlainForm, running);
    EvidenceMeant(svc, DoubledForm, running);
    MatchedIsNotConfused(PlainForm, Env(svc), running);
    MatchedIsNotConfused(DoubledForm, Env(svc), running);
    SpellingsAgree(svc, running);
  }

  // ---- drifted values, and names with dollars ----

  function EnvService(env: map<string, string>): Service {
    map["environment" := Dict(map k | k in env :: Str(env[k]))]
  }

  lemma EnvServiceFacts(env: map<string, string>, f: string -> string)
    ensures Env(EnvService(env)) == env && PlainNames(Field(EnvService(env), "environment"))
    ensures MapService(EnvService(env), f) == EnvService(Mapped(env, f))
  {
    var values := map k | k in env :: Str(env[k]);
    assert MapStrings(Dict(values), f) == Dict(map k | k in env :: Str(f(env[k])));
    assert EnvService(Mapped(env, f))["environment"] == Dict(map k | k in env :: Str(f(env[k])));
  }

  lemma SmallTexts()
    ensures EscapeText("$") == "$$" && EscapeText("$$") == "$$$$"
    ensures UnescapeText("$") == "$" && UnescapeText("$$") == "$" && UnescapeText("$$$$") == "$$"
  {
    assert EscapeText("") == "" && UnescapeText("") == "";
    assert EscapeText("$") == "$$" && UnescapeText("$") == "$" && UnescapeText("$$") == "$";
    assert "$$"[1..] == "$" && "$$$$"[2..] == "$$";
  }

  const RUNNING_B := map["B" := "$"]

  /**
   * Both bad ends happen. A provider that does not double means B to be two dollars while one runs: the planner takes
   * it for the doubled spelling and, without any refusal, writes one dollar. If another value shows the true spelling,
   * it refuses; the same service is found when it is spelled doubled.
   */
  lemma DriftMisleads()
    ensures Literal(EnvService(map["B" := "$$"]), RUNNING_B) == Ok(EnvService(map["B" := "$"]))
    ensures var both := EnvService(map["A" := "$", "B" := "$$"]);
            && Literal(both, RUNNING_B["A" := "$"]) == Err(Input)
            && Literal(MapService(both, EscapeText), RUNNING_B["A" := "$"]) == Ok(both)
  {
    hide EscapeText, UnescapeText, MapService, EnvService, Env, Literal, Right, Wrong, PlainNames;
    var one, two := map["B" := "$$"], map["A" := "$", "B" := "$$"];
    var running := RUNNING_B["A" := "$"];
    SmallTexts();
    EnvServiceFacts(one, UnescapeText);
    EnvServiceFacts(two, EscapeText);
    assert one["B"] == EscapeText(RUNNING_B["B"]) && '$' in RUNNING_B["B"];
    assert Mapped(one, UnescapeText) == RUNNING_B;
    EvidenceMeant(EnvService(one), PlainForm, RUNNING_B);
    LiteralOfSpelled(EnvService(one), PlainForm, RUNNING_B);
    assert two["B"] == EscapeText(running["B"]) && '$' in running["B"];
    assert two["A"] == running["A"] && '$' in running["A"];
    EvidenceMeant(EnvService(two), PlainForm, running);
    LiteralOfSpelled(EnvService(two), PlainForm, running);
    assert forall k | k in Mapped(two, EscapeText) && k in running :: Mapped(two, EscapeText)[k] != running[k];
    EvidenceMeant(EnvService(two), DoubledForm, running);
    LiteralOfSpelled(EnvService(two), DoubledForm, running);
  }

  function Listed(item: string): Service {
    map["environment" := List([Str(item)])]
  }

  lemma ListedFacts(item: string)
    ensures Env(Listed(item)) == map[KeyOf(item) := ValueOf(item)]
    ensures MapService(Listed(item), EscapeText) == Listed(EscapeText(item))
    ensures ServiceHasDollar(Listed(item)) == ('$' in item)
  {
    hide KeyOf, ValueOf, EscapeText, ItemsDict;
    var items := [Str(item)];
    ItemsUnfold(items, 0);
    NoItems();
    assert items[..0] == [];
    ListedMapped(item);
    ListedDollar(item);
  }

  lemma NoItems()
    ensures ItemsDict([]) == map[]
  {
  }

  lemma ListedMapped(item: string)
    ensures MapService(Listed(item), EscapeText) == Listed(EscapeText(item))
  {
    hide EscapeText;
    var items := [Str(item)];
    assert MapStrings(List(items), EscapeText).l == [Str(EscapeText(item))];
  }

  lemma ListedDollar(item: string)
    ensures ServiceHasDollar(Listed(item)) == ('$' in item)
  {
    var items := [Str(item)];
    assert HasDollar(items[0]) == ('$' in item);
    assert HasDollar(List(items)) == ('$' in item);
    assert "environment" in Listed(item) && Listed(item)["environment"] == List(items);
  }

  /** A listed environment whose name has a dollar is found in the plain spelling and refused in the doubled one. */
  lemma DollarNameDiffers()
    ensures Literal(Listed("$=$"), map["$" := "$"]) == Ok(Listed("$=$"))
    ensures Literal(MapService(Listed("$=$"), EscapeText), map["$" := "$"]) == Err(Input)
  {
    hide EscapeText, UnescapeText, MapService, Env, ServiceHasDollar, KeyOf, ValueOf, Equals, Listed;
    SmallTexts();
    EscapeAcross("$", "$");
    assert Pair("$", "$") == "$=$" && Pair("$$", "$$") == "$$=$$" && EscapeText("$=$") == "$$=$$";
    FirstEquals("$", "$");
    FirstEquals("$$", "$$");
    ListedFacts("$=$");
    ListedFacts("$$=$$");
    var env, running := Env(Listed("$=$")), map["$" := "$"];
    assert env == running && running["$"] == "$" && '$' in running["$"];
    assert Plain(env, running) && !Doubled(env, running);
    assert Env(Listed("$$=$$")) == map["$$" := "$$"] && '$' in "$$=$$";
  }
}
