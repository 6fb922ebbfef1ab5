/**
 * The summary of a run: counts over its root spans and the median of their durations. It depends on which spans there
 * are, not on their order.
 */
module RunSummary {
  import opened Sorting
  import opened Wrappers
  import opened Spans

  /** What one root adds to the totals. */
  datatype Tally = Tally(requests: nat, ok: nat, errors: nat, items: nat, questions: nat, answers: nat, batches: nat,
                         input: nat, output: nat, unknown: nat)

  datatype Summary = Summary(spans: nat, tally: Tally, errorRate: real, medianMs: real)

  const ZERO := Tally(0, 0, 0, 0, 0, 0, 0, 0, 0, 0)

  function Plus(a: Tally, b: Tally): Tally {
    Tally(a.requests + b.requests, a.ok + b.ok, a.errors + b.errors, a.items + b.items, a.questions + b.questions,
          a.answers + b.answers, a.batches + b.batches, a.input + b.input, a.output + b.output, a.unknown + b.unknown)
  }

  predicate HasCount(s: Span, key: string) {
    key in s.attributes && s.attributes[key].Whole? && 0 <= s.attributes[key].n
  }

  const ITEMS := "laya.requested_items"
  const QUESTIONS := "laya.requested_questions"
  const ANSWERS := "laya.completed_answers"
  const BATCH := "laya.batch"
  const PROMPT := "llm.token_count.prompt"
  const COMPLETION := "llm.token_count.completion"

  /** A root that can be counted: nothing is missing, and tokens are reported exactly when the request succeeded. */
  predicate Countable(s: Span) {
    && s.start < s.end
    && HasCount(s, ITEMS) && HasCount(s, QUESTIONS) && HasCount(s, ANSWERS)
    && BATCH in s.attributes && s.attributes[BATCH].Flag?
    && (s.status == "ERROR" ==> PROMPT !in s.attributes && COMPLETION !in s.attributes)
    && (s.status == "OK" ==> HasCount(s, PROMPT) && HasCount(s, COMPLETION))
    && s.status in {"OK", "ERROR"}
  }

  function TallyOf(s: Span): Tally
    requires Countable(s)
  {
    var ok := s.status == "OK";
    Tally(1, if ok then 1 else 0, if ok then 0 else 1, s.attributes[ITEMS].n, s.attributes[QUESTIONS].n,
          s.attributes[ANSWERS].n, if s.attributes[BATCH].b then 1 else 0,
          if ok then s.attributes[PROMPT].n else 0, if ok then s.attributes[COMPLETION].n else 0, if ok then 0 else 1)
  }

  predicate Root(s: Span) {
    s.parent.None?
  }

  predicate AllCountable(spans: seq<Span>) {
    forall s | s in spans && Root(s) :: Countable(s)
  }

  /** What one span adds: only roots count. */
  function Part(s: Span): Tally
    requires Root(s) ==> Countable(s)
  {
    if Root(s) then TallyOf(s) else ZERO
  }

  function Total(spans: seq<Span>): Tally
    requires AllCountable(spans)
  {
    if spans == [] then ZERO
    else
      var n := |spans| - 1;
      assert spans[n] in spans && forall s | s in spans[..n] :: s in spans;
      Plus(Total(spans[..n]), Part(spans[n]))
  }

  function Durations(spans: seq<Span>): seq<int> {
    if spans == [] then []
    else
      var n := |spans| - 1;
      if Root(spans[n]) then Durations(spans[..n]) + [spans[n].end - spans[n].start] else Durations(spans[..n])
  }

  // ---- the median ----

  function Itself(x: int): int {
    x
  }

  /** The middle value, or the mean of the two middle ones. */
  function Median(a: seq<int>): real
    requires a != []
  {
    var s, h := Sort(a, Itself), |a| / 2;
    if |a| % 2 == 1 then s[h] as real else (s[h - 1] + s[h]) as real / 2.0
  }

  lemma SameLast(a: seq<int>, b: seq<int>)
    requires Sorted(a, Itself) && Sorted(b, Itself) && multiset(a) == multiset(b) && a != [] && b != []
    ensures a[|a| - 1] == b[|b| - 1]
  {
    var x, y := a[|a| - 1], b[|b| - 1];
    assert x in multiset(a) && y in multiset(b);
    assert x in multiset(b) && y in multiset(a);
    assert x in b && y in a;
  }

  lemma DropLast(a: seq<int>)
    requires a != []
    ensures multiset(a[..|a| - 1]) == multiset(a) - multiset{a[|a| - 1]}
  {
    assert a == a[..|a| - 1] + [a[|a| - 1]];
  }

  lemma SameLength(a: seq<int>, b: seq<int>)
    requires multiset(a) == multiset(b)
    ensures |a| == |b|
  {
    assert |multiset(a)| == |a| && |multiset(b)| == |b|;
  }

  lemma SplitLast(a: seq<int>)
    requires a != []
    ensures a == a[..|a| - 1] + [a[|a| - 1]]
    ensures Sorted(a, Itself) ==> Sorted(a[..|a| - 1], Itself)
  {
  }

  /** There is one way to sort. */
  lemma {:induction false} OneOrder(a: seq<int>, b: seq<int>)
    requires Sorted(a, Itself) && Sorted(b, Itself) && multiset(a) == multiset(b)
    ensures a == b
  {
    SameLength(a, b);
    if a != [] {
      SameLast(a, b);
      DropLast(a);
      DropLast(b);
      SplitLast(a);
      SplitLast(b);
      hide Sorted;
      OneOrder(a[..|a| - 1], b[..|b| - 1]);
    }
  }

  // ---- the summary ----

  function SummaryOf(spans: seq<Span>): Option<Summary> {
    if !AllCountable(spans) || Durations(spans) == [] then None
    else
      var t := Total(spans);
      if t.requests == 0 then None
      else Some(Summary(|spans|, t, t.errors as real / t.requests as real, Median(Durations(spans))))
  }

  lemma {:induction false} RequestsAreRoots(spans: seq<Span>)
    requires AllCountable(spans)
    ensures Total(spans).requests == |Durations(spans)|
  {
    if spans != [] {
      var n := |spans| - 1;
      assert forall s | s in spans[..n] :: s in spans;
      RequestsAreRoots(spans[..n]);
    }
  }

  lemma TotalNext(spans: seq<Span>, n: nat)
    requires n < |spans| && AllCountable(spans[..n]) && (Root(spans[n]) ==> Countable(spans[n]))
    ensures AllCountable(spans[..n + 1]) && Total(spans[..n + 1]) == Plus(Total(spans[..n]), Part(spans[n]))
    ensures Durations(spans[..n + 1]) ==
            if Root(spans[n]) then Durations(spans[..n]) + [spans[n].end - spans[n].start] else Durations(spans[..n])
  {
    assert spans[..n + 1] == spans[..n] + [spans[n]] && spans[..n + 1][..n] == spans[..n];
    hide Countable, TallyOf;
  }

  /** Refuses a run without roots or with a root that cannot be counted. */
  method SummarizeSpans(spans: seq<Span>) returns (r: Option<Summary>)
    ensures r == SummaryOf(spans)
  {
    var t, durations := ZERO, [];
    for i := 0 to |spans|
      invariant AllCountable(spans[..i]) && t == Total(spans[..i]) && durations == Durations(spans[..i])
    {
      var s := spans[i];
      hide Countable, TallyOf, Total, Durations, Plus;
      if Root(s) && !Countable(s) {
        assert s in spans;
        return None;
      }
      TotalNext(spans, i);
      if Root(s) {
        t, durations := Plus(t, TallyOf(s)), durations + [s.end - s.start];
      } else {
        PlusZero(t);
      }
    }
    assert spans[..|spans|] == spans;
    hide Total, Durations, Countable;
    RequestsAreRoots(spans);
    if durations == [] {
      return None;
    }
    return Some(Summary(|spans|, t, t.errors as real / t.requests as real, Median(durations)));
  }

  lemma PlusZero(t: Tally)
    ensures Plus(t, ZERO) == t
  {
  }

  lemma PlusSwap(a: Tally, b: Tally, c: Tally)
    ensures Plus(Plus(a, b), c) == Plus(Plus(a, c), b)
  {
  }

  predicate Consistent(t: Tally, most: nat) {
    t.requests == t.ok + t.errors && t.unknown == t.errors && t.batches <= t.requests <= most
  }

  lemma PartConsistent(s: Span)
    requires Root(s) ==> Countable(s)
    ensures Consistent(Part(s), 1)
  {
  }

  lemma PlusConsistent(a: Tally, b: Tally, m: nat, n: nat)
    requires Consistent(a, m) && Consistent(b, n)
    ensures Consistent(Plus(a, b), m + n)
  {
  }

  lemma {:induction false} TotalConsistent(spans: seq<Span>)
    requires AllCountable(spans)
    ensures Consistent(Total(spans), |spans|)
  {
    hide Countable, AllCountable, Part, Consistent, Plus, Durations, Root;
    if spans == [] {
      assert Total(spans) == ZERO;
      ZeroConsistent();
    } else {
      hide Total;
      var n := |spans| - 1;
      CountableWithout(spans, n);
      TotalConsistent(spans[..n]);
      PartConsistent(spans[n]);
      TotalNext(spans, n);
      assert spans[..n + 1] == spans;
      PlusConsistent(Total(spans[..n]), Part(spans[n]), n, 1);
    }
  }

  lemma ZeroConsistent()
    ensures Consistent(ZERO, 0)
  {
  }

  /** The middle of an ordered list: it lies between two of its elements. */
  lemma MiddleBetween(s: seq<int>)
    requires s != [] && Sorted(s, Itself)
    ensures var h := |s| / 2;
            var middle := if |s| % 2 == 1 then s[h] as real else (s[h - 1] + s[h]) as real / 2.0;
            exists a, b :: a in s && b in s && a as real <= middle <= b as real
  {
    var h := |s| / 2;
    var a, b := if |s| % 2 == 1 then s[h] else s[h - 1], s[h];
    assert Itself(a) <= Itself(b);
    assert a in s && b in s;
  }

  lemma MedianBetween(d: seq<int>)
    requires d != []
    ensures exists a, b :: a in d && b in d && a as real <= Median(d) <= b as real
  {
    hide Sort, Sorted;
    SortSorts(d, Itself);
    var s := Sort(d, Itself);
    MiddleBetween(s);
    forall x | x in s ensures x in d {
      assert x in multiset(s);
    }
  }

  /** The counts of a summary fit together, and its median lies between two of the durations. */
  lemma SummaryConsistent(spans: seq<Span>)
    requires SummaryOf(spans).Some?
    ensures var r := SummaryOf(spans).value;
            && r.spans == |spans| && 0 < r.tally.requests && Consistent(r.tally, r.spans)
            && 0.0 <= r.errorRate <= 1.0
            && exists a, b :: a in Durations(spans) && b in Durations(spans) && a as real <= r.medianMs <= b as real
  {
    hide Total, Durations, Countable, Median;
    TotalConsistent(spans);
    var d, t := Durations(spans), Total(spans);
    MedianBetween(d);
    RateBounds(t.errors, t.requests);
  }

  lemma RateBounds(errors: nat, requests: nat)
    requires errors <= requests && 0 < requests
    ensures 0.0 <= errors as real / requests as real <= 1.0
  {
  }

  // ---- what the numbers are ----

  /** The sum of a part of every span. */
  function Sum(spans: seq<Span>, part: Span -> int): int {
    if spans == [] then 0 else Sum(spans[..|spans| - 1], part) + part(spans[|spans| - 1])
  }

  /** What a root reports under a key; a span that is no root counts for nothing. */
  function Reported(s: Span, key: string): int {
    if s.parent.None? && key in s.attributes && s.attributes[key].Whole? then s.attributes[key].n else 0
  }

  function One(b: bool): int {
    if b then 1 else 0
  }

  /** Every total is the sum of its own attribute over the roots, or the number of roots of a kind. */
  ghost predicate Sums(spans: seq<Span>, t: Tally) {
    && t.requests == Sum(spans, (s: Span) => One(s.parent.None?))
    && t.ok == Sum(spans, (s: Span) => One(s.parent.None? && s.status == "OK"))
    && t.errors == Sum(spans, (s: Span) => One(s.parent.None? && s.status == "ERROR"))
    && t.unknown == Sum(spans, (s: Span) => One(s.parent.None? && s.status == "ERROR"))
    && t.items == Sum(spans, (s: Span) => Reported(s, "laya.requested_items"))
    && t.questions == Sum(spans, (s: Span) => Reported(s, "laya.requested_questions"))
    && t.answers == Sum(spans, (s: Span) => Reported(s, "laya.completed_answers"))
    && t.batches == Sum(spans, (s: Span) => One(s.parent.None? && "laya.batch" in s.attributes
                                        && s.attributes["laya.batch"] == Flag(true)))
    && t.input == Sum(spans, (s: Span) => Reported(s, "llm.token_count.prompt"))
    && t.output == Sum(spans, (s: Span) => Reported(s, "llm.token_count.completion"))
  }

  lemma {:induction false} TotalSums(spans: seq<Span>)
    requires AllCountable(spans)
    ensures Sums(spans, Total(spans))
  {
    if spans != [] {
      var n := |spans| - 1;
      CountableWithout(spans, n);
      TotalSums(spans[..n]);
      TotalNext(spans, n);
      assert spans[..n + 1] == spans;
      hide Total, AllCountable;
      SumsNext(spans, n, Total(spans[..n]));
    }
  }

  lemma SumsNext(spans: seq<Span>, n: nat, t: Tally)
    requires |spans| == n + 1 && Sums(spans[..n], t) && (Root(spans[n]) ==> Countable(spans[n]))
    ensures Sums(spans, Plus(t, Part(spans[n])))
  {
  }

  /** How often a duration occurs is how many roots have it. */
  lemma {:induction false} DurationsCount(spans: seq<Span>, d: int)
    ensures multiset(Durations(spans))[d] == Sum(spans, (s: Span) => One(s.parent.None? && s.end - s.start == d))
  {
    if spans != [] {
      DurationsCount(spans[..|spans| - 1], d);
    }
  }

  /** The median is the middle one of the values in order, or the mean of the middle two. */
  lemma MedianIsMiddle(values: seq<int>, ordered: seq<int>)
    requires values != [] && multiset(ordered) == multiset(values)
    requires forall i, j | 0 <= i < j < |ordered| :: ordered[i] <= ordered[j]
    ensures |ordered| == |values|
    ensures var n := |values|;
            if n % 2 == 1 then Median(values) == ordered[(n - 1) / 2] as real
            else 2.0 * Median(values) == ordered[n / 2 - 1] as real + ordered[n / 2] as real
  {
    SameLength(values, ordered);
    SortSorts(values, Itself);
    OneOrder(ordered, Sort(values, Itself));
  }

  /** What a summary says: sums over the roots, the share of errors among them, and the median of their durations. */
  lemma SummarySays(spans: seq<Span>)
    requires SummaryOf(spans).Some?
    ensures var r := SummaryOf(spans).value;
            && r.spans == |spans| && Sums(spans, r.tally)
            && r.errorRate * r.tally.requests as real == r.tally.errors as real
            && r.medianMs == Median(Durations(spans))
  {
    hide Sums, Total, Durations, Median, AllCountable;
    TotalSums(spans);
  }

  /** The attribute is a count. */
  predicate Counts(s: Span, key: string) {
    key in s.attributes && s.attributes[key].Whole? && s.attributes[key].n >= 0
  }

  /** What is wrong with a root that cannot be counted. */
  predicate Faulty(s: Span) {
    || s.end <= s.start
    || !Counts(s, "laya.requested_items") || !Counts(s, "laya.requested_questions")
    || !Counts(s, "laya.completed_answers")
    || "laya.batch" !in s.attributes || !s.attributes["laya.batch"].Flag?
    || (s.status == "ERROR"
        && ("llm.token_count.prompt" in s.attributes || "llm.token_count.completion" in s.attributes))
    || (s.status == "OK" && !(Counts(s, "llm.token_count.prompt") && Counts(s, "llm.token_count.completion")))
    || (s.status != "ERROR" && s.status != "OK")
  }

  /** A run is refused exactly when it has no root, or one with a fault. */
  lemma RefusedWhen(spans: seq<Span>)
    ensures SummaryOf(spans).None? <==>
            (forall s | s in spans :: s.parent.Some?) || exists s :: s in spans && s.parent.None? && Faulty(s)
  {
    if AllCountable(spans) {
      RootsHaveDurations(spans);
      RequestsAreRoots(spans);
    }
    hide Total, Durations, Median;
  }

  lemma {:induction false} RootsHaveDurations(spans: seq<Span>)
    ensures Durations(spans) == [] <==> forall s | s in spans :: s.parent.Some?
  {
    if spans != [] {
      var n := |spans| - 1;
      RootsHaveDurations(spans[..n]);
      assert spans == spans[..n] + [spans[n]];
      assert forall s :: s in spans <==> s in spans[..n] || s == spans[n];
    }
  }

  // ---- independence of order ----

  function Without(spans: seq<Span>, i: nat): seq<Span>
    requires i < |spans|
  {
    spans[..i] + spans[i + 1..]
  }

  lemma WithoutLast(spans: seq<Span>, i: nat)
    requires i < |spans| - 1
    ensures Without(spans, i)[..|spans| - 2] == Without(spans[..|spans| - 1], i)
    ensures Without(spans, i)[|spans| - 2] == spans[|spans| - 1]
  {
  }

  lemma CountableWithout(spans: seq<Span>, i: nat)
    requires AllCountable(spans) && i < |spans|
    ensures AllCountable(Without(spans, i)) && (Root(spans[i]) ==> Countable(spans[i]))
    ensures AllCountable(spans[..|spans| - 1])
  {
    assert forall s | s in Without(spans, i) :: s in spans;
    assert forall s | s in spans[..|spans| - 1] :: s in spans;
    assert spans[i] in spans;
  }

  lemma {:induction false} TotalWithout(spans: seq<Span>, i: nat)
    requires i < |spans| && AllCountable(spans) && AllCountable(Without(spans, i))
    requires Root(spans[i]) ==> Countable(spans[i])
    ensures Total(spans) == Plus(Total(Without(spans, i)), Part(spans[i]))
  {
    var n := |spans| - 1;
    hide Countable, TallyOf, Plus, Part;
    if i == n {
      assert Without(spans, i) == spans[..n];
    } else {
      CountableWithout(spans[..n], i) by { CountableWithout(spans, n); }
      CountableWithout(spans, n);
      WithoutLast(spans, i);
      TotalWithout(spans[..n], i);
      hide Without, AllCountable;
      PlusSwap(Total(Without(spans[..n], i)), Part(spans[i]), Part(spans[n]));
    }
  }

  /** How long a root took, as a multiset of at most one. */
  function Took(s: Span): multiset<int> {
    if Root(s) then multiset{s.end - s.start} else multiset{}
  }

  lemma DurationsStep(spans: seq<Span>)
    requires spans != []
    ensures var n := |spans| - 1;
            multiset(Durations(spans)) == multiset(Durations(spans[..n])) + Took(spans[n])
  {
  }

  lemma {:induction false} DurationsWithout(spans: seq<Span>, i: nat)
    requires i < |spans|
    ensures multiset(Durations(spans)) == multiset(Durations(Without(spans, i))) + Took(spans[i])
  {
    var n := |spans| - 1;
    hide Durations, Took;
    DurationsStep(spans);
    if i == n {
      assert Without(spans, i) == spans[..n];
    } else {
      WithoutLast(spans, i);
      DurationsWithout(spans[..n], i);
      assert |Without(spans, i)| == n;
      DurationsStep(Without(spans, i));
      hide Without;
    }
  }

  lemma WithoutBag(spans: seq<Span>, i: nat)
    requires i < |spans|
    ensures multiset(Without(spans, i)) == multiset(spans) - multiset{spans[i]}
  {
    assert spans == spans[..i] + [spans[i]] + spans[i + 1..];
  }

  lemma FindLast(a: seq<Span>, b: seq<Span>) returns (i: nat)
    requires multiset(a) == multiset(b) && a != []
    ensures i < |b| && b[i] == a[|a| - 1] && multiset(Without(b, i)) == multiset(Without(a, |a| - 1))
  {
    var n := |a| - 1;
    assert a[n] in multiset(a) && a[n] in multiset(b) && a[n] in b;
    i :| i < |b| && b[i] == a[n];
    WithoutBag(a, n);
    WithoutBag(b, i);
  }

  lemma {:induction false} OrderDoesNotCount(a: seq<Span>, b: seq<Span>)
    requires multiset(a) == multiset(b) && AllCountable(a) && AllCountable(b)
    ensures Total(a) == Total(b) && multiset(Durations(a)) == multiset(Durations(b))
  {
    if a == [] {
      assert |multiset(b)| == |b|;
    } else {
      var n := |a| - 1;
      var i := FindLast(a, b);
      CountableWithout(a, n);
      CountableWithout(b, i);
      hide Total, Durations, AllCountable, Countable, TallyOf;
      OrderDoesNotCount(Without(a, n), Without(b, i));
      TotalWithout(a, n);
      TotalWithout(b, i);
      DurationsWithout(a, n);
      DurationsWithout(b, i);
    }
  }

  lemma SameMedian(a: seq<int>, b: seq<int>)
    requires multiset(a) == multiset(b)
    ensures |a| == |b| && (a != [] ==> Median(a) == Median(b))
  {
    SortSorts(a, Itself);
    SortSorts(b, Itself);
    OneOrder(Sort(a, Itself), Sort(b, Itself));
  }

  /** The same spans in any order have the same summary, or are refused alike. */
  lemma SummaryIgnoresOrder(a: seq<Span>, b: seq<Span>)
    requires multiset(a) == multiset(b)
    ensures SummaryOf(a) == SummaryOf(b)
  {
    assert |multiset(a)| == |a| && |multiset(b)| == |b|;
    assert forall s :: s in a <==> s in multiset(a);
    assert forall s :: s in b <==> s in multiset(b);
    assert AllCountable(a) == AllCountable(b);
    hide AllCountable, Countable, Total, Durations, Median;
    if AllCountable(a) {
      OrderDoesNotCount(a, b);
      SameMedian(Durations(a), Durations(b));
    }
  }

  // ---- comparison does not see everything ----

  /** The spans as comparison sees them. */
  function Levels(spans: seq<Span>): (r: seq<Span>)
    ensures |r| == |spans|
  {
    seq(|spans|, i requires 0 <= i < |spans| => LevelSpan(spans[i]))
  }

  lemma SamePart(s: Span, t: Span)
    requires LevelSpan(s) == LevelSpan(t) && (Root(s) ==> Countable(s)) && (Root(t) ==> Countable(t))
    ensures Part(s) == Part(t) && Root(s) == Root(t) && s.end - s.start == t.end - t.start
  {
    var a, b := LevelSpan(s).attributes, LevelSpan(t).attributes;
    forall k | k in s.attributes && k in t.attributes
      ensures Level(s.attributes[k]) == Level(t.attributes[k])
    {
      assert a[k] == b[k];
    }
    assert forall k :: k in s.attributes <==> k in a;
    assert forall k :: k in t.attributes <==> k in b;
    if Root(s) {
      assert s.status == t.status;
    }
  }

  lemma {:induction false} SameTotals(a: seq<Span>, b: seq<Span>)
    requires Levels(a) == Levels(b) && AllCountable(a) && AllCountable(b)
    ensures Total(a) == Total(b) && Durations(a) == Durations(b)
  {
    assert |a| == |b| by { assert |Levels(a)| == |Levels(b)|; }
    if a != [] {
      var n := |a| - 1;
      assert LevelSpan(a[n]) == Levels(a)[n] == Levels(b)[n] == LevelSpan(b[n]);
      assert Levels(a[..n]) == Levels(a)[..n] && Levels(b[..n]) == Levels(b)[..n];
      assert a[n] in a && b[n] in b;
      hide Countable, LevelSpan, Part;
      SamePart(a[n], b[n]);
      SameTotals(a[..n], b[..n]);
    }
  }

  /** Spans that comparison cannot tell apart have the same summary, if both can be summarized. */
  lemma SummaryIgnoresLevel(a: seq<Span>, b: seq<Span>)
    requires Levels(a) == Levels(b) && AllCountable(a) && AllCountable(b)
    ensures SummaryOf(a) == SummaryOf(b)
  {
    hide Total, Durations, AllCountable, Median;
    assert |a| == |b| by { assert |Levels(a)| == |Levels(b)|; }
    SameTotals(a, b);
  }
}
