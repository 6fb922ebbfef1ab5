/**
 * The observer: it samples, asks the gate, takes a second sample when the gate wants one, and overwrites the verdict
 * file. The main result: a published "ready" means a real quiet window.
 */
module Observer {
  import opened Numbers
  import opened Wrappers
  import opened Activity
  import opened Routes
  import opened JournalReader
  import opened CallLogs
  import opened Collector
  import opened IdleGate
  import opened IdleRuns

  const START := Kept(0, 0, 0, None, None)

  /** A sample, how it came about, the inference records it polled and how many journal lines had been read after it. */
  datatype Taken = Taken(sample: Sample, env: Environment, deadline: real, batch: Option<Batch>, after: Kept, read: nat,
                         arrivals: nat, seedCursor: Option<Cursor>, seedBoot: Option<Boot>)

  function ObsOf(s: Sample): Obs {
    Obs(s.sampleMonotonic, Classify(s), s.arrivalGeneration, s.rowGeneration, s.healthTimestampMs, Some(s.reason))
  }

  function Prior(trace: seq<Taken>, k: nat): Kept
    requires k <= |trace|
  {
    if k == 0 then START else trace[k - 1].after
  }

  function From(trace: seq<Taken>, k: nat): nat
    requires k <= |trace|
  {
    if k == 0 then 0 else trace[k - 1].read
  }

  /** Every source of the sample `t` answered, none shows activity, and the row times and clocks were conclusive. */
  ghost predicate SourcesQuiet(c: Config, t: Taken) {
    && |t.env.pages| == ROW_PAGES && EveryAnswer(c, t.env, t.deadline, t.batch)
    && exists scan :: Scanned(c, t.env, scan) && scan.failure.None? && !scan.gap && !SeesActivity(c, t.env, scan)
  }

  /** The journal feed of `t` was ready and unbroken, no line was too long, and it was read up to its own barrier. */
  ghost predicate JournalQuiet(c: Config, consumed: seq<Line>, from: nat, t: Taken) {
    && from <= t.read <= |consumed|
    && t.batch.Some? && t.batch.value.ready && t.batch.value.continuous && !t.batch.value.overflow
    && t.batch.value.barrierSeen && t.env.barrier.Some?
    && (Distinct(Cursors(consumed[..t.read])) ==>
          Some(t.env.barrier.value.0) == t.seedCursor || t.env.barrier.value.0 in Cursors(consumed[..t.read]))
    && TooLong !in consumed[from..t.read]
    && t.arrivals == |ArrivalsAt(c.routes, Records(consumed[from..t.read]))|
  }

  /** What ties the sample `t` to the fields `prior` kept before it and the `from` lines read before it. */
  ghost predicate Link(c: Config, consumed: seq<Line>, prior: Kept, from: nat, t: Taken) {
    && from <= t.read <= |consumed|
    && t.sample.arrivalGeneration == t.after.arrivalGen == prior.arrivalGen + t.arrivals
    && t.sample.rowGeneration == t.after.rowGen
       == prior.rowGen + (if prior.last.Some? && t.after.newest != prior.newest then 1 else 0)
    && (Classify(t.sample).Idle? ==>
          t.after.last.Some? && SourcesQuiet(c, t) && JournalQuiet(c, consumed, from, t))
  }

  /** A sample taken by the sampler is linked. */
  lemma TakeLinks(c: Config, consumed: seq<Line>, prior: Kept, from: nat, t: Taken)
    requires |t.env.pages| == ROW_PAGES && from <= t.read <= |consumed|
    requires (t.sample, t.after) == Take(c, prior, t.env, t.deadline, t.batch)
    requires t.arrivals == Arrivals(c, t.env, t.batch)
    requires t.env.recheck.Answer? ==>
               Faithful(t.batch, consumed[from..t.read], consumed[..t.read], t.env.barrier, t.seedCursor, t.seedBoot)
    ensures Link(c, consumed, prior, from, t)
  {
    hide Profiled, Scanned, SeesActivity, ClocksAgree, Classify, FindingsOf, ReadFailure, ScanOf, InTime,
         InferenceCount, ArrivalsAt, Cursors, Distinct;
    IdleIffComplete(c, prior, t.env, t.deadline, t.batch);
    AnsweredIffRead(c, t.env, t.deadline, t.batch);
    if t.batch.Some? {
      CountIsArrivals(c.routes, t.batch.value.records);
    }
  }

  ghost predicate Linked(c: Config, consumed: seq<Line>, trace: seq<Taken>, k: nat)
    requires k < |trace|
  {
    Link(c, consumed, Prior(trace, k), From(trace, k), trace[k])
  }

  /** The samples of a run, each linked to the one before. */
  ghost predicate Chain(c: Config, consumed: seq<Line>, trace: seq<Taken>) {
    forall k: nat | k < |trace| :: Linked(c, consumed, trace, k)
  }

  /** What the gate was told: the samples taken before the deadline. */
  function Told(deadline: real, trace: seq<Taken>): seq<Obs> {
    if trace == [] then []
    else
      var last := ObsOf(trace[|trace| - 1].sample);
      Told(deadline, trace[..|trace| - 1]) + if last.now >= deadline then [] else [last]
  }

  /** What the gate answered to sample `k`. */
  ghost function Answered(minWait: int, deadline: real, trace: seq<Taken>, k: nat): Verdict
    requires k < |trace|
  {
    VerdictAfter(minWait, deadline, Told(deadline, trace[..k]), ObsOf(trace[k].sample))
  }

  predicate Monotone(trace: seq<Taken>) {
    forall i: nat, j: nat | i <= j < |trace| :: trace[i].sample.sampleMonotonic <= trace[j].sample.sampleMonotonic
  }

  // ---- runs of samples ----

  lemma LinkStays(c: Config, consumed: seq<Line>, more: seq<Line>, prior: Kept, from: nat, t: Taken)
    requires Link(c, consumed, prior, from, t)
    ensures Link(c, consumed + more, prior, from, t)
  {
    assert (consumed + more)[from..t.read] == consumed[from..t.read];
    assert (consumed + more)[..t.read] == consumed[..t.read];
  }

  lemma ChainGrows(c: Config, consumed: seq<Line>, more: seq<Line>, trace: seq<Taken>, t: Taken)
    requires Chain(c, consumed, trace)
    requires Link(c, consumed + more, Prior(trace, |trace|), From(trace, |trace|), t)
    ensures Chain(c, consumed + more, trace + [t])
  {
    var all := trace + [t];
    forall k: nat | k < |all| ensures Linked(c, consumed + more, all, k) {
      if k < |trace| {
        assert Linked(c, consumed, trace, k);
        LinkStays(c, consumed, more, Prior(trace, k), From(trace, k), trace[k]);
      }
    }
  }

  /** While the clock stays below the deadline the gate is told every sample. */
  lemma {:induction false} ToldAll(deadline: real, trace: seq<Taken>)
    requires forall k: nat | k < |trace| :: trace[k].sample.sampleMonotonic < deadline
    ensures |Told(deadline, trace)| == |trace|
    ensures forall k: nat | k < |trace| :: Told(deadline, trace)[k] == ObsOf(trace[k].sample)
  {
    if trace != [] {
      ToldAll(deadline, trace[..|trace| - 1]);
    }
  }

  /** None of the records is an inference call. */
  ghost predicate NoCalls(c: Config, records: seq<Record>) {
    forall record | record in records :: !Arrives(c.routes, record)
  }

  lemma NoneArrived(c: Config, records: seq<Record>)
    requires |ArrivalsAt(c.routes, records)| == 0
    ensures NoCalls(c, records)
  {
    hide Arrives;
    forall record | record in records ensures !Arrives(c.routes, record) {
      var i: nat :| i < |records| && records[i] == record;
      assert i !in ArrivalsAt(c.routes, records);
    }
  }

  /**
   * Between two idle samples with the same generations and only idle samples in between: no polled journal record was
   * an inference call, none stands on the lines read in between, and the newest client trace did not change.
   */
  lemma {:induction false} NothingArrived(c: Config, consumed: seq<Line>, trace: seq<Taken>, j: nat, i: nat)
    requires Chain(c, consumed, trace) && j <= i < |trace|
    requires forall k: nat | j <= k <= i ::
               Classify(trace[k].sample).Idle? && SameGenerations(ObsOf(trace[k].sample), ObsOf(trace[j].sample))
    ensures trace[j].read <= trace[i].read <= |consumed|
    ensures forall k: nat | j < k <= i :: trace[k].arrivals == 0
    ensures NoCalls(c, Records(consumed[trace[j].read..trace[i].read]))
    ensures TooLong !in consumed[trace[j].read..trace[i].read]
    ensures forall k: nat | j <= k <= i :: trace[k].after.newest == trace[j].after.newest
    decreases i
  {
    hide SourcesQuiet, JournalQuiet, Classify, Cursors, NoCalls, Records;
    assert Linked(c, consumed, trace, i);
    hide Link;
    if j == i {
      EmptySlice(c, consumed, trace[j].read);
    } else {
      NothingArrived(c, consumed, trace, j, i - 1);
      QuietStep(c, consumed, trace, i);
      NothingOnLines(c, consumed, trace[j].read, trace[i - 1].read, trace[i].read);
    }
  }

  lemma QuietStep(c: Config, consumed: seq<Line>, trace: seq<Taken>, i: nat)
    requires Chain(c, consumed, trace) && 0 < i < |trace|
    requires Classify(trace[i].sample).Idle? && Classify(trace[i - 1].sample).Idle?
    requires SameGenerations(ObsOf(trace[i].sample), ObsOf(trace[i - 1].sample))
    ensures trace[i - 1].read <= trace[i].read <= |consumed|
    ensures trace[i].arrivals == 0 && trace[i].after.newest == trace[i - 1].after.newest
    ensures NoCalls(c, Records(consumed[trace[i - 1].read..trace[i].read]))
    ensures TooLong !in consumed[trace[i - 1].read..trace[i].read]
  {
    hide SourcesQuiet, Cursors, Distinct, ArrivalsAt, NoCalls;
    assert Linked(c, consumed, trace, i - 1) && Linked(c, consumed, trace, i);
    NoneArrived(c, Records(consumed[trace[i - 1].read..trace[i].read]));
  }

  lemma EmptySlice(c: Config, consumed: seq<Line>, a: nat)
    requires a <= |consumed|
    ensures NoCalls(c, Records(consumed[a..a])) && TooLong !in consumed[a..a]
  {
  }

  lemma NothingOnLines(c: Config, consumed: seq<Line>, a: nat, b: nat, d: nat)
    requires a <= b <= d <= |consumed|
    ensures NoCalls(c, Records(consumed[a..d]))
            <==> NoCalls(c, Records(consumed[a..b])) && NoCalls(c, Records(consumed[b..d]))
    ensures TooLong in consumed[a..d] <==> TooLong in consumed[a..b] || TooLong in consumed[b..d]
  {
    assert consumed[a..d] == consumed[a..b] + consumed[b..d];
    RecordsConcat(consumed[a..b], consumed[b..d]);
  }

  /** Some earlier or equal sample that was not unknown carried a health time above one before it. */
  ghost predicate HealthAdvanced(trace: seq<Taken>, j: nat) {
    exists a: nat, b: nat :: a < b <= j < |trace|
      && Stamped(ObsOf(trace[a].sample)) && Stamped(ObsOf(trace[b].sample))
      && trace[a].sample.healthTimestampMs.value < trace[b].sample.healthTimestampMs.value
  }

  /** Samples `j` to `i` are a real quiet window. */
  ghost predicate QuietWindow(c: Config, minWait: int, consumed: seq<Line>, trace: seq<Taken>, j: nat, i: nat) {
    && j < i < |trace|
    && trace[j].read <= trace[i].read <= |consumed|
    && trace[i].sample.sampleMonotonic - trace[j].sample.sampleMonotonic >= minWait as real
    && HealthAdvanced(trace, j)
    && (forall k: nat | j <= k <= i :: CompleteAndIdle(c, consumed, trace, k))
    && (forall k: nat | j < k <= i :: trace[k].arrivals == 0)
    && NoCalls(c, Records(consumed[trace[j].read..trace[i].read]))
    && TooLong !in consumed[trace[j].read..trace[i].read]
    && (forall k: nat | j <= k <= i :: trace[k].after.newest == trace[j].after.newest)
  }

  /** A real quiet window ends at sample `i`. */
  ghost predicate ClosesQuiet(c: Config, minWait: int, consumed: seq<Line>, trace: seq<Taken>, i: nat) {
    exists j: nat :: QuietWindow(c, minWait, consumed, trace, j, i)
  }

  /** Sample `k` is idle, and every source of it was complete and quiet. */
  ghost predicate CompleteAndIdle(c: Config, consumed: seq<Line>, trace: seq<Taken>, k: nat)
    requires k < |trace|
  {
    && Classify(trace[k].sample).Idle?
    && SourcesQuiet(c, trace[k])
    && JournalQuiet(c, consumed, From(trace, k), trace[k])
  }

  lemma IdleIsComplete(c: Config, consumed: seq<Line>, trace: seq<Taken>, k: nat)
    requires Chain(c, consumed, trace) && k < |trace| && Classify(trace[k].sample).Idle?
    ensures CompleteAndIdle(c, consumed, trace, k)
  {
    assert Linked(c, consumed, trace, k);
  }

  /** Sample `k` is idle with the generations of sample `j`, or unknown and answered defer-unknown. */
  ghost predicate QuietTaken(minWait: int, deadline: real, trace: seq<Taken>, j: nat, k: nat)
    requires j < |trace| && k < |trace|
  {
    if Answered(minWait, deadline, trace, k).DeferUnknown? then Classify(trace[k].sample).Unknown?
    else Classify(trace[k].sample).Idle? && SameGenerations(ObsOf(trace[k].sample), ObsOf(trace[j].sample))
  }

  /** What a ready answer to the last sample means, back to sample `j`. */
  ghost predicate ReadyWindow(minWait: int, deadline: real, trace: seq<Taken>, j: nat) {
    && j + 1 < |trace|
    && trace[|trace| - 1].sample.sampleMonotonic - trace[j].sample.sampleMonotonic >= minWait as real
    && HealthAdvanced(trace, j)
    && (forall k: nat | j <= k < |trace| :: QuietTaken(minWait, deadline, trace, j, k))
  }

  /** The first of the samples before `n` that comes after every deferred one; `n` if the last of them was deferred. */
  ghost function AfterDeferrals(minWait: int, deadline: real, trace: seq<Taken>, n: nat): (f: nat)
    requires n <= |trace|
    ensures f <= n
    ensures f > 0 ==> Answered(minWait, deadline, trace, f - 1).DeferUnknown?
    ensures forall k: nat | f <= k < n :: !Answered(minWait, deadline, trace, k).DeferUnknown?
  {
    if n == 0 then 0
    else if Answered(minWait, deadline, trace, n - 1).DeferUnknown? then n
    else AfterDeferrals(minWait, deadline, trace, n - 1)
  }

  /** The undeferred samples at the end of the run span at least `minWait`. */
  ghost predicate UndeferredSpan(minWait: int, deadline: real, trace: seq<Taken>)
    requires trace != []
  {
    var f := AfterDeferrals(minWait, deadline, trace, |trace|);
    && f < |trace|
    && trace[|trace| - 1].sample.sampleMonotonic - trace[f].sample.sampleMonotonic >= minWait as real
  }

  lemma AnsweredAtTold(minWait: int, deadline: real, trace: seq<Taken>, k: nat)
    requires k < |trace| && forall i: nat | i < |trace| :: trace[i].sample.sampleMonotonic < deadline
    ensures |Told(deadline, trace)| == |trace|
    ensures Answered(minWait, deadline, trace, k) == AnswerAt(minWait, deadline, Told(deadline, trace), k)
  {
    ToldAll(deadline, trace);
    ToldAll(deadline, trace[..k]);
    assert Told(deadline, trace)[..k] == Told(deadline, trace[..k]);
  }

  lemma ReadySpan(minWait: int, deadline: real, trace: seq<Taken>) returns (j: nat)
    requires 1 <= minWait && Monotone(trace) && trace != []
    requires Answered(minWait, deadline, trace, |trace| - 1) == Ready
    ensures j + 1 < |trace| && HealthAdvanced(trace, j)
    ensures trace[|trace| - 1].sample.sampleMonotonic - trace[j].sample.sampleMonotonic >= minWait as real
    ensures forall k: nat | j <= k < |trace| :: QuietTaken(minWait, deadline, trace, j, k)
  {
    var h := Told(deadline, trace);
    assert trace[|trace| - 1].sample.sampleMonotonic < deadline;
    ToldAll(deadline, trace);
    AnsweredAtTold(minWait, deadline, trace, |trace| - 1);
    ReadyMeansQuiet(minWait, deadline, h);
    j :| 0 <= j && Window(h, j) && QuietSpan(minWait, deadline, h, j);
    AdvancedTells(h, trace, j);
    forall k: nat | j <= k < |trace| ensures QuietTaken(minWait, deadline, trace, j, k) {
      AnsweredAtTold(minWait, deadline, trace, k);
      assert QuietSample(minWait, deadline, h, j, k);
    }
  }

  /** Idle samples with unchanged generations, far enough apart, form a quiet window. */
  lemma IdleRunIsQuiet(c: Config, minWait: int, consumed: seq<Line>, trace: seq<Taken>, j: nat, i: nat)
    requires Chain(c, consumed, trace) && j < i < |trace| && HealthAdvanced(trace, j)
    requires trace[i].sample.sampleMonotonic - trace[j].sample.sampleMonotonic >= minWait as real
    requires forall k: nat | j <= k <= i ::
               Classify(trace[k].sample).Idle? && SameGenerations(ObsOf(trace[k].sample), ObsOf(trace[j].sample))
    ensures QuietWindow(c, minWait, consumed, trace, j, i)
  {
    forall k: nat | j <= k <= i ensures CompleteAndIdle(c, consumed, trace, k) {
      IdleIsComplete(c, consumed, trace, k);
    }
    NothingArrived(c, consumed, trace, j, i);
  }

  /** An idle sample is never answered defer-unknown. */
  lemma IdleIsNotDeferred(minWait: int, deadline: real, trace: seq<Taken>, k: nat)
    requires k < |trace| && Classify(trace[k].sample).Idle?
    ensures !Answered(minWait, deadline, trace, k).DeferUnknown?
  {
    hide Classify, Told;
    var g := Told(deadline, trace[..k]) + [ObsOf(trace[k].sample)];
    assert !DefersUnknown(g);
  }

  /** A quiet window up to the last sample lies after the last deferred one. */
  lemma QuietIsUndeferred(c: Config, minWait: int, deadline: real, consumed: seq<Line>, trace: seq<Taken>, j: nat)
    requires Monotone(trace) && j + 1 < |trace| && QuietWindow(c, minWait, consumed, trace, j, |trace| - 1)
    ensures UndeferredSpan(minWait, deadline, trace)
  {
    hide Answered;
    forall k: nat | j <= k < |trace| ensures !Answered(minWait, deadline, trace, k).DeferUnknown? {
      assert CompleteAndIdle(c, consumed, trace, k);
      IdleIsNotDeferred(minWait, deadline, trace, k);
    }
    var f := AfterDeferrals(minWait, deadline, trace, |trace|);
    assert f <= j;
  }

  /**
   * End to end. On a monotonic clock, if the gate answers ready to the last sample, there is an earlier sample at
   * least `minWait` before it such that every sample from there on is idle or was itself answered defer-unknown. A real
   * quiet window ends at the ready sample exactly when the samples after the last deferred one span `minWait`.
   */
  lemma ReadyIsQuiet(c: Config, minWait: int, deadline: real, consumed: seq<Line>, trace: seq<Taken>)
    requires 1 <= minWait && Chain(c, consumed, trace) && Monotone(trace) && trace != []
    requires Answered(minWait, deadline, trace, |trace| - 1) == Ready
    ensures exists j: nat :: ReadyWindow(minWait, deadline, trace, j)
    ensures ClosesQuiet(c, minWait, consumed, trace, |trace| - 1) <==> UndeferredSpan(minWait, deadline, trace)
  {
    hide QuietTaken, HealthAdvanced, AfterDeferrals, Answered, Link;
    var j := ReadySpan(minWait, deadline, trace);
    assert ReadyWindow(minWait, deadline, trace, j);
    if UndeferredSpan(minWait, deadline, trace) {
      UndeferredIsQuiet(c, minWait, deadline, consumed, trace, j);
    }
    if ClosesQuiet(c, minWait, consumed, trace, |trace| - 1) {
      var last := |trace| - 1;
      var q: nat :| QuietWindow(c, minWait, consumed, trace, q, last);
      QuietIsUndeferred(c, minWait, deadline, consumed, trace, q);
    }
  }

  /** The undeferred end of a ready window is a quiet window, if it is long enough. */
  lemma UndeferredIsQuiet(c: Config, minWait: int, deadline: real, consumed: seq<Line>, trace: seq<Taken>, j: nat)
    requires 1 <= minWait && Chain(c, consumed, trace) && ReadyWindow(minWait, deadline, trace, j)
    requires UndeferredSpan(minWait, deadline, trace)
    ensures ClosesQuiet(c, minWait, consumed, trace, |trace| - 1)
  {
    var f := AfterDeferrals(minWait, deadline, trace, |trace|);
    var q := if f < j then j else f;
    hide Answered, Classify;
    assert QuietTaken(minWait, deadline, trace, j, q);
    forall k: nat | q <= k <= |trace| - 1
      ensures Classify(trace[k].sample).Idle? && SameGenerations(ObsOf(trace[k].sample), ObsOf(trace[q].sample))
    {
      assert QuietTaken(minWait, deadline, trace, j, k);
    }
    IdleRunIsQuiet(c, minWait, consumed, trace, q, |trace| - 1);
  }

  lemma AdvancedTells(h: seq<Obs>, trace: seq<Taken>, j: nat)
    requires |h| == |trace| && j < |trace| && forall k: nat | k < |h| :: h[k] == ObsOf(trace[k].sample)
    requires Advanced(h[..j + 1])
    ensures HealthAdvanced(trace, j)
  {
    var p := h[..j + 1];
    var a: nat, b: nat :| FirstStamp(p, a) && a < b < |p| && Stamped(p[b]) && p[b].health.value > p[a].health.value;
    assert p[a] == ObsOf(trace[a].sample) && p[b] == ObsOf(trace[b].sample);
  }

  // ---- the observer ----

  /** The outside world in one turn of the loop: the first sample, the second in case it is wanted, the file write. */
  datatype Round = Round(start: real, first: Environment, again: real, second: Environment, wrote: bool)

  datatype Published = Published(sequence: nat, verdict: Verdict, reason: Reason, sample: Sample)

  ghost predicate Recorded(c: Config, minWait: int, deadline: real, consumed: seq<Line>, trace: seq<Taken>,
                           answers: seq<Verdict>)
  {
    && |consumed| == From(trace, |trace|)
    && Chain(c, consumed, trace)
    && |answers| == |trace|
    && (forall k: nat | k < |trace| :: answers[k] == Answered(minWait, deadline, trace, k))
  }

  lemma RecordGrows(c: Config, minWait: int, deadline: real, consumed: seq<Line>, more: seq<Line>, trace: seq<Taken>,
                    answers: seq<Verdict>, t: Taken, verdict: Verdict)
    requires Recorded(c, minWait, deadline, consumed, trace, answers)
    requires Link(c, consumed + more, Prior(trace, |trace|), |consumed|, t) && t.read == |consumed + more|
    requires verdict == VerdictAfter(minWait, deadline, Told(deadline, trace), ObsOf(t.sample))
    ensures Recorded(c, minWait, deadline, consumed + more, trace + [t], answers + [verdict])
    ensures Told(deadline, trace + [t])
         == Told(deadline, trace) + if t.sample.sampleMonotonic >= deadline then [] else [ObsOf(t.sample)]
  {
    var all := trace + [t];
    assert all[..|trace|] == trace;
    ChainGrows(c, consumed, more, trace, t);
    forall k: nat | k < |all|
      ensures (answers + [verdict])[k] == Answered(minWait, deadline, all, k)
    {
      if k < |trace| {
        assert all[..k] == trace[..k] && answers[k] == Answered(minWait, deadline, trace, k);
      }
    }
  }

  class Loop {
    const gate: Gate
    const sampler: Sampler
    var latest: Option<Published>                  // the verdict file
    ghost var trace: seq<Taken>                    // every sample taken
    ghost var answers: seq<Verdict>                // what the gate answered to each
    ghost var published: seq<(nat, Published)>     // every verdict written, with the index of its sample

    ghost predicate Valid()
      reads this, gate, sampler, sampler.reader
    {
      && 1 <= gate.minWait && gate.Valid() && sampler.reader.Valid()
      && gate.seen == Told(gate.deadline, trace)
      && sampler.Fields() == Prior(trace, |trace|)
      && |answers| == |trace|
      && Recorded(sampler.config, gate.minWait, gate.deadline, sampler.reader.consumed, trace, answers)
    }

    constructor (gate: Gate, sampler: Sampler)
      requires gate.Valid() && gate.seen == [] && sampler.Fields() == START
      requires sampler.reader.Valid() && sampler.reader.consumed == []
      ensures Valid() && this.gate == gate && this.sampler == sampler && trace == [] && published == []
    {
      this.gate, this.sampler := gate, sampler;
      latest, trace, answers, published := None, [], [], [];
    }

    /** Take one sample and ask the gate about it. */
    method Judge(env: Environment, deadline: real) returns (s: Sample, verdict: Verdict)
      requires Valid() && |env.pages| == ROW_PAGES
      modifies this`trace, this`answers, gate, sampler, sampler.reader
      ensures Valid()
      ensures |trace| == |old(trace)| + 1 && trace[..|old(trace)|] == old(trace) && trace[|old(trace)|].sample == s
      ensures answers == old(answers) + [verdict]
      ensures verdict == VerdictAfter(gate.minWait, gate.deadline, old(gate.seen), ObsOf(s))
      ensures verdict == Resample ==> gate.seen == old(gate.seen) + [ObsOf(s)]
    {
      hide VerdictAfter, Remembers, Recorded, Link, Told, Take, Faithful, Classify, Gate.Valid, Reader.Valid;
      ghost var before, batch, taken := sampler.reader.consumed, None, [];
      s, batch, taken := sampler.Sample(env, deadline);
      verdict := gate.Step(ObsOf(s));
      ghost var reader := sampler.reader;
      ghost var t := Taken(s, env, deadline, batch, sampler.Fields(), |reader.consumed|,
                           Arrivals(sampler.config, env, batch), reader.seedCursor, reader.seedBoot);
      assert reader.consumed[|before|..t.read] == taken && reader.consumed[..t.read] == reader.consumed;
      TakeLinks(sampler.config, reader.consumed, Prior(trace, |trace|), |before|, t);
      RecordGrows(sampler.config, gate.minWait, gate.deadline, before, taken, trace, answers, t, verdict);
      trace, answers := trace + [t], answers + [verdict];
    }

    /** One turn: sample, sample again if the gate wants it, and write the verdict. */
    method Turn(r: Round, lifetimeEnd: real) returns (broken: bool)
      requires Valid() && |r.first.pages| == ROW_PAGES && |r.second.pages| == ROW_PAGES
      modifies this`trace, this`answers, this`latest, this`published, gate, sampler, sampler.reader
      ensures Valid()
      ensures old(trace) <= trace && old(answers) <= answers && |old(trace)| < |trace|
      ensures broken == !r.wrote
      ensures broken ==> published == old(published) && latest == old(latest)
      ensures !broken ==> latest.Some? && published == old(published) + [(|trace| - 1, latest.value)]
                          && Right(trace, answers, (|trace| - 1, latest.value))
    {
      hide VerdictAfter, Remembers, Recorded, Told, Classify, Gate.Valid, Reader.Valid;
      ghost var h := gate.seen;
      var s, verdict := Judge(r.first, MinReal(r.start + 5.0, lifetimeEnd));
      if verdict == Resample {
        ghost var first := s;
        s, verdict := Judge(r.second, MinReal(r.again + 5.0, lifetimeEnd));
        ResampleOnlyOnce(gate.minWait, gate.deadline, h, ObsOf(first), ObsOf(s));
      }
      if !r.wrote {
        return true;
      }
      var out := Published(s.sequence, verdict, if verdict.DeferDeadline? then Reason.Deadline else s.reason, s);
      latest := Some(out);
      published := published + [(|trace| - 1, out)];
      return false;
    }

    /**
     * The observer loop, for as many rounds as the supervisor lets it run. It ends early, with `broken`, when the
     * verdict file cannot be written.
     */
    method Run(rounds: seq<Round>, lifetimeEnd: real) returns (broken: bool)
      requires Valid() && published == []
      requires forall r | r in rounds :: |r.first.pages| == ROW_PAGES && |r.second.pages| == ROW_PAGES
      modifies this`trace, this`answers, this`latest, this`published, gate, sampler, sampler.reader
      ensures Valid()
      ensures forall p | p in published :: Right(trace, answers, p)
      ensures latest == (if published == [] then old(latest) else Some(published[|published| - 1].1))
      ensures |published| == |rounds| <==> !broken
      ensures |published| <= |rounds| && (broken ==> !rounds[|published|].wrote)
      ensures forall i: nat | i < |published| :: rounds[i].wrote && |old(trace)| + i <= published[i].0 < |trace|
      // once the samples are steadily idle and have been for long enough, every round publishes ready
      ensures forall s: nat, a: nat, n: nat, i: nat | i < |published| ::
                Steady(gate.minWait, gate.deadline, trace, s, a, n) && n <= published[i].0
                ==> published[i].1.verdict == Ready
    {
      hide Valid, Steady;
      broken := Rounds(rounds, lifetimeEnd);
      forall s: nat, a: nat, n: nat, i: nat
        | i < |published| && Steady(gate.minWait, gate.deadline, trace, s, a, n) && n <= published[i].0
        ensures published[i].1.verdict == Ready
      {
        SteadyIsReady(this, s, a, n, published[i]);
      }
    }

    method Rounds(rounds: seq<Round>, lifetimeEnd: real) returns (broken: bool)
      requires Valid() && published == []
      requires forall r | r in rounds :: |r.first.pages| == ROW_PAGES && |r.second.pages| == ROW_PAGES
      modifies this`trace, this`answers, this`latest, this`published, gate, sampler, sampler.reader
      ensures Valid()
      ensures forall p | p in published :: Right(trace, answers, p)
      ensures latest == (if published == [] then old(latest) else Some(published[|published| - 1].1))
      ensures |published| == |rounds| <==> !broken
      ensures |published| <= |rounds| && (broken ==> !rounds[|published|].wrote)
      ensures forall i: nat | i < |published| :: rounds[i].wrote && |old(trace)| + i <= published[i].0 < |trace|
    {
      hide Valid;
      for i := 0 to |rounds|
        invariant Valid() && |published| == i && |old(trace)| + i <= |trace|
        invariant forall p | p in published :: Right(trace, answers, p)
        invariant forall k: nat | k < i :: rounds[k].wrote && |old(trace)| + k <= published[k].0 < |trace|
        invariant latest == (if published == [] then old(latest) else Some(published[|published| - 1].1))
      {
        var stop := Turn(rounds[i], lifetimeEnd);
        if stop {
          return true;
        }
      }
      return false;
    }
  }

  /** A published verdict is the gate's answer to its sample, and never resample. */
  ghost predicate Right(trace: seq<Taken>, answers: seq<Verdict>, p: (nat, Published)) {
    && p.0 < |trace| && p.0 < |answers|
    && p.1.sample == trace[p.0].sample && p.1.sequence == p.1.sample.sequence
    && p.1.verdict == answers[p.0] && p.1.verdict != Resample
    && p.1.reason == if p.1.verdict.DeferDeadline? then Reason.Deadline else p.1.sample.reason
  }

  /** The samples as the gate is told them. */
  function Observations(trace: seq<Taken>): seq<Obs> {
    seq(|trace|, k requires 0 <= k < |trace| => ObsOf(trace[k].sample))
  }

  /**
   * On a monotonic clock and before the deadline, all samples from `s` on are idle with unchanged generations, the
   * health clock has advanced by sample `a`, and sample `n` comes `minWait` after the later of `a` and the second one.
   */
  ghost predicate Steady(minWait: int, deadline: real, trace: seq<Taken>, s: nat, a: nat, n: nat) {
    && Monotone(trace)
    && s + 1 < |trace| && s <= a < |trace| && s <= n < |trace|
    && (forall k: nat | s <= k < |trace| ::
          && Classify(trace[k].sample).Idle? && SameGenerations(ObsOf(trace[k].sample), ObsOf(trace[s].sample))
          && trace[k].sample.sampleMonotonic < deadline)
    && Advanced(Observations(trace[..a + 1]))
    && trace[n].sample.sampleMonotonic - trace[Max(a, s + 1)].sample.sampleMonotonic >= minWait as real
  }

  lemma ToldIs(deadline: real, trace: seq<Taken>, k: nat)
    requires Monotone(trace) && trace != [] && trace[|trace| - 1].sample.sampleMonotonic < deadline && k <= |trace|
    ensures Told(deadline, trace[..k]) == Observations(trace[..k])
  {
    hide Classify, Told;
    ToldAll(deadline, trace[..k]);
  }

  /** The observations up to sample `s`, and the ones after it. */
  lemma Parts(trace: seq<Taken>, s: nat, k: nat)
    requires s + k <= |trace|
    ensures |Observations(trace[s..])| == |trace| - s
    ensures Observations(trace[..s]) + Observations(trace[s..])[..k] == Observations(trace[..s + k])
  {
    hide Classify;
  }

  lemma TailObserved(trace: seq<Taken>, s: nat)
    requires s <= |trace|
    ensures var q := Observations(trace[s..]);
            && |q| == |trace| - s && (forall i: nat | i < |q| :: q[i] == ObsOf(trace[s + i].sample))
            && (Monotone(trace) ==> ClockMonotone(Observations(trace[..s]) + q))
  {
    hide Classify;
    Parts(trace, s, |trace| - s);
    assert trace[..s + (|trace| - s)] == trace;
  }

  lemma SteadyTail(minWait: int, deadline: real, trace: seq<Taken>, s: nat, a: nat, n: nat, q: seq<Obs>)
    requires Steady(minWait, deadline, trace, s, a, n)
    requires |q| == |trace| - s && forall i: nat | i < |q| :: q[i] == ObsOf(trace[s + i].sample)
    ensures 1 < |q| && forall k: nat | k < |q| :: q[k].state.Idle? && SameGenerations(q[k], q[0]) && q[k].now < deadline
    ensures q[n - s].now - q[if a - s < 1 then 1 else a - s].now >= minWait as real
  {
    hide Classify, Advanced, Monotone;
  }

  /** From sample `n` on, the gate answers ready, or resample to `n` itself. */
  lemma SteadyAnswers(minWait: int, deadline: real, trace: seq<Taken>, s: nat, a: nat, n: nat, k: nat)
    requires 1 <= minWait && Steady(minWait, deadline, trace, s, a, n) && n <= k < |trace|
    ensures Answered(minWait, deadline, trace, k) in if k == n then {Resample, Ready} else {Ready}
  {
    hide Classify, VerdictAfter, Advanced, Told, Observations, Monotone, ClockMonotone, SameGenerations;
    var p, q := Observations(trace[..s]), Observations(trace[s..]);
    LastInTime(minWait, deadline, trace, s, a, n);
    ToldIs(deadline, trace, k);
    Parts(trace, s, a - s + 1);
    Parts(trace, s, k - s);
    TailObserved(trace, s);
    SteadyTail(minWait, deadline, trace, s, a, n, q);
    StableIdleReachesReady(minWait, deadline, p, q, a - s, n - s);
  }

  lemma LastInTime(minWait: int, deadline: real, trace: seq<Taken>, s: nat, a: nat, n: nat)
    requires Steady(minWait, deadline, trace, s, a, n)
    ensures trace[|trace| - 1].sample.sampleMonotonic < deadline
  {
    hide Classify;
  }

  /** What is published for a sample from `n` on is ready: a resample answer is never published. */
  lemma SteadyIsReady(loop: Loop, s: nat, a: nat, n: nat, p: (nat, Published))
    requires loop.Valid() && Steady(loop.gate.minWait, loop.gate.deadline, loop.trace, s, a, n)
    requires Right(loop.trace, loop.answers, p) && n <= p.0
    ensures p.1.verdict == Ready
  {
    hide Steady, Answered, Gate.Valid, Reader.Valid, Told, Chain;
    SteadyAnswers(loop.gate.minWait, loop.gate.deadline, loop.trace, s, a, n, p.0);
    assert loop.answers[p.0] == Answered(loop.gate.minWait, loop.gate.deadline, loop.trace, p.0);
  }

  /** Every published ready, on a monotonic clock, closes a ready window; see ReadyIsQuiet. */
  lemma PublishedReadyIsQuiet(loop: Loop, p: (nat, Published))
    requires loop.Valid() && Monotone(loop.trace)
    requires Right(loop.trace, loop.answers, p) && p.1.verdict == Ready
    ensures var trace, minWait, deadline := loop.trace[..p.0 + 1], loop.gate.minWait, loop.gate.deadline;
      && (exists j: nat :: ReadyWindow(minWait, deadline, trace, j))
      && (ClosesQuiet(loop.sampler.config, minWait, loop.sampler.reader.consumed, trace, p.0)
          <==> UndeferredSpan(minWait, deadline, trace))
  {
    hide QuietWindow, QuietTaken, HealthAdvanced, AfterDeferrals, VerdictAfter, Link, Told, Classify, Remembers;
    var trace := loop.trace[..p.0 + 1];
    var c, consumed := loop.sampler.config, loop.sampler.reader.consumed;
    forall k: nat | k < |trace| ensures Linked(c, consumed, trace, k) {
      assert Linked(c, consumed, loop.trace, k);
    }
    assert trace[..p.0] == loop.trace[..p.0];
    ReadyIsQuiet(c, loop.gate.minWait, loop.gate.deadline, consumed, trace);
  }
}
