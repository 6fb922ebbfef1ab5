/**
 * The activity sampler. One sample combines the journal, three counters, the paged call log and the health clock;
 * the sampler keeps a few private fields from one sample to the next.
 */
module Collector {
  import opened Wrappers
  import opened Activity
  import opened Routes
  import opened JournalReader
  import opened CallLogs

  datatype Config = Config(routes: seq<Route>, cacheMs: int, refreshMs: int, pageLimit: nat, toleranceMs: int,
                           minWaitMs: int)

  datatype Health = Health(admission: Option<nat>, timestamp: Option<int>)    // None: missing or mistyped

  datatype History = History(active: Option<nat>, pending: Option<nat>)

  /** Everything the outside world does during one sample. */
  datatype Environment = Environment(
    started: real,
    recheck: Reply<bool>,
    barrier: Option<(Cursor, Boot)>, spawns: bool, printed: seq<Line>, budget: nat,
    prime: Reply<bool>, beforeRead: real,
    t0: real, w0: real, health: Reply<Health>, t1: real, w1: real,
    history: Reply<History>,
    pages: seq<Reply<seq<LogEntry>>>)

  /** What the sampler keeps between samples. */
  datatype Kept = Kept(sequence: nat, arrivalGen: nat, rowGen: nat, newest: Option<int>,
                       last: Option<(real, real, int)>)

  function InferenceCount(routes: seq<Route>, records: seq<Record>): nat {
    if records == [] then 0
    else InferenceCount(routes, records[..|records| - 1])
         + if ClassifyRoute(routes, records[|records| - 1]) == Some(Inference) then 1 else 0
  }

  /** The records of a batch that are inference calls, by their place in it. */
  ghost function ArrivalsAt(routes: seq<Route>, records: seq<Record>): set<nat> {
    set i: nat | i < |records| && Arrives(routes, records[i])
  }

  /** Every inference call of the batch is counted, and nothing else. */
  lemma {:induction false} CountIsArrivals(routes: seq<Route>, records: seq<Record>)
    ensures InferenceCount(routes, records) == |ArrivalsAt(routes, records)|
    ensures InferenceCount(routes, records) == 0 <==> forall record | record in records :: !Arrives(routes, record)
    ensures Unprofiled(routes, records) <==> exists record :: record in records && !Profiled(routes, record)
  {
    hide ClassifyRoute, Arrives, Profiled;
    forall record ensures ClassifyRoute(routes, record) == Some(Inference) <==> Arrives(routes, record)
                  ensures ClassifyRoute(routes, record).Some? <==> Profiled(routes, record)
    {
      ClassOf(routes, record);
    }
    if records != [] {
      var n := |records| - 1;
      CountIsArrivals(routes, records[..n]);
      assert ArrivalsAt(routes, records) ==
             ArrivalsAt(routes, records[..n]) + if Arrives(routes, records[n]) then {n} else {};
      assert records == records[..n] + [records[n]];
      if Arrives(routes, records[n]) {
        assert records[n] in records;
      }
    }
  }

  predicate Unprofiled(routes: seq<Route>, records: seq<Record>) {
    exists record :: record in records && ClassifyRoute(routes, record).None?
  }

  /** Towards zero. */
  function Truncate(x: real): (n: int)
    ensures 0.0 <= x ==> n as real <= x < n as real + 1.0
    ensures x <= 0.0 ==> n as real - 1.0 < x <= n as real
  {
    if x >= 0.0 then x.Floor else -(-x).Floor
  }

  function Abs(x: real): real {
    if x < 0.0 then -x else x
  }

  /** The pause between the discarded health request and the one that counts, in seconds. */
  function PrimeGap(c: Config): real {
    var half := c.cacheMs as real / 2000.0;
    if half < 0.2 then half else 0.2
  }

  function WallMs(env: Environment): int {
    Truncate(env.w1 * 1000.0)
  }

  function ScanOf(c: Config, env: Environment): Reply<Scan>
    requires |env.pages| == ROW_PAGES
  {
    ScanFrom(AllClassified(c.routes, env.pages), 0, c.pageLimit, WallMs(env) - c.minWaitMs,
             WallMs(env) + c.toleranceMs, NOTHING)
  }

  // ---- one sample ----

  function RefusalOf<T>(reply: Reply<T>): Option<Reason> {
    match reply
    case Answer(_) => None
    case Refused(reason) => Some(reason)
    case Garbled => Some(Reason.Schema)
  }

  predicate Polled(env: Environment, batch: Option<Batch>) {
    env.recheck.Answer? && batch.Some?
  }

  function Arrivals(c: Config, env: Environment, batch: Option<Batch>): nat {
    if Polled(env, batch) then InferenceCount(c.routes, batch.value.records) else 0
  }

  /** The three counters as far as they could be read, in the order they are read: admission, active, pending. */
  datatype Counts = Counts(admission: nat, active: nat, pending: nat)

  function CountsOf(health: Health, history: History): Counts {
    var admission := health.admission.Some?;
    var active := admission && history.active.Some?;
    var pending := active && history.pending.Some?;
    Counts(if admission then health.admission.value else 0, if active then history.active.value else 0,
           if pending then history.pending.value else 0)
  }

  predicate WellTyped(health: Health, history: History) {
    health.admission.Some? && history.active.Some? && history.pending.Some? && health.timestamp.Some?
  }

  /** Why a sample whose journal was polled could not read its other sources, in the order they are read. */
  function SourceFailure(c: Config, env: Environment, deadline: real): Option<Reason>
    requires |env.pages| == ROW_PAGES
  {
    if env.prime.Refused? then Some(Reason.Io)
    else if env.prime.Garbled? then Some(Reason.Schema)
    else if env.beforeRead + PrimeGap(c) >= deadline then Some(Reason.Io)
    else if !env.health.Answer? then RefusalOf(env.health)
    else if !env.history.Answer? then RefusalOf(env.history)
    else if !ScanOf(c, env).Answer? then RefusalOf(ScanOf(c, env))
    else if !WellTyped(env.health.value, env.history.value) then Some(Reason.Schema)
    else None
  }

  function SourceCounts(c: Config, env: Environment, deadline: real): Counts
    requires |env.pages| == ROW_PAGES
  {
    if env.prime.Answer? && env.beforeRead + PrimeGap(c) < deadline && env.health.Answer? && env.history.Answer?
       && ScanOf(c, env).Answer?
    then CountsOf(env.health.value, env.history.value)
    else Counts(0, 0, 0)
  }

  /** Why the sample could not read its sources, in the order the sources are read. */
  function ReadFailure(c: Config, env: Environment, deadline: real, batch: Option<Batch>): Option<Reason>
    requires |env.pages| == ROW_PAGES
  {
    if !env.recheck.Answer? then RefusalOf(env.recheck)
    else if batch.None? then Some(Reason.Schema)
    else SourceFailure(c, env, deadline)
  }

  /** The counters, the in-memory rows or a trace younger than the threshold show activity. */
  predicate ShowsActivity(c: Config, env: Environment, deadline: real, batch: Option<Batch>)
    requires |env.pages| == ROW_PAGES
    requires ReadFailure(c, env, deadline, batch).None?
  {
    || env.history.value.active.value > 0 || env.history.value.pending.value > 0 || env.health.value.admission.value > 0
    || Active(ScanOf(c, env).value, WallMs(env) - c.minWaitMs)
  }

  /** The structural failure of the journal alone, or of the journal and the call-log rows. */
  function Structural(c: Config, batch: Batch, rowGap: bool): Option<Reason> {
    FirstFailure(batch.overflow, !batch.continuous, !(batch.ready && batch.barrierSeen),
                 Unprofiled(c.routes, batch.records) || rowGap)
  }

  /** The wall and monotonic clocks disagree across the health request, or since the previous sample. */
  predicate ClockJumped(c: Config, env: Environment, last: Option<(real, real, int)>, ts: int) {
    || Abs((env.w1 - env.w0) - (env.t1 - env.t0)) * 1000.0 > c.toleranceMs as real
    || (env.t1 - env.t0) * 1000.0 > 5000.0
    || (last.Some? &&
        (|| Abs((env.w1 - last.value.1) - (env.t1 - last.value.0)) * 1000.0
              > c.toleranceMs as real + 10.0 * (env.t1 - last.value.0)
         || ts < last.value.2))
  }

  /** Why a sample that read its sources is still not conclusive. */
  function ProofFailure(c: Config, env: Environment, deadline: real, batch: Option<Batch>,
                        last: Option<(real, real, int)>): Option<Reason>
    requires |env.pages| == ROW_PAGES
    requires ReadFailure(c, env, deadline, batch).None?
  {
    var scan := ScanOf(c, env).value;
    var ts := env.health.value.timestamp.value;
    var structural := Structural(c, batch.value, scan.gap);
    if structural.Some? then structural
    else if scan.failure.Some? then scan.failure
    else if ClockJumped(c, env, last, ts) then Some(Reason.Clock)
    else CheckFreshness(ts, WallMs(env), c.cacheMs, c.refreshMs, c.toleranceMs)
  }

  /** What one sample established: the failure that ended it, the counters, and the activity it saw. */
  datatype Findings = Findings(failure: Option<Reason>, counts: Counts, evidence: bool, busy: bool,
                               structural: Option<Reason>, health: Option<int>, age: Option<int>)

  function FindingsOf(c: Config, env: Environment, deadline: real, batch: Option<Batch>,
                      last: Option<(real, real, int)>): Findings
    requires |env.pages| == ROW_PAGES
  {
    if !env.recheck.Answer? then Findings(RefusalOf(env.recheck), Counts(0, 0, 0), false, false, None, None, None)
    else if batch.None? then Findings(Some(Reason.Schema), Counts(0, 0, 0), false, false, None, None, None)
    else
      var arrived := InferenceCount(c.routes, batch.value.records) > 0;
      var structural := Structural(c, batch.value, false);
      var counts := SourceCounts(c, env, deadline);
      var failure := SourceFailure(c, env, deadline);
      if failure.Some? then Findings(failure, counts, arrived, false, structural, None, None)
      else
        var busy := ShowsActivity(c, env, deadline, batch);
        var ts := env.health.value.timestamp.value;
        Findings(ProofFailure(c, env, deadline, batch, last), counts, arrived || busy, busy, structural,
                 Some(ts), Some(AtLeastZero(WallMs(env) - ts)))
  }

  /** The fields kept after the sample; the sequence number was counted up before it. */
  function KeptAfter(c: Config, k: Kept, env: Environment, deadline: real, batch: Option<Batch>): Kept
    requires |env.pages| == ROW_PAGES
  {
    var arrived := k.(arrivalGen := k.arrivalGen + Arrivals(c, env, batch));
    if ReadFailure(c, env, deadline, batch).Some? then arrived
    else
      var newest := ScanOf(c, env).value.newest;
      arrived.(rowGen := if k.last.Some? && newest != k.newest then k.rowGen + 1 else k.rowGen,
               newest := newest,
               last := Some((env.t1, env.w1, env.health.value.timestamp.value)))
  }

  datatype Flags = Flags(ready: bool, seen: bool, continuous: bool, overflow: bool)

  function FlagsOf(env: Environment, batch: Option<Batch>): Flags {
    if Polled(env, batch)
    then Flags(batch.value.ready, batch.value.barrierSeen, batch.value.continuous, batch.value.overflow)
    else Flags(false, false, false, false)
  }

  /** Activity only ever turns a transient failure into busy; every other failure is unknown. */
  function Report(k: Kept, started: real, flags: Flags, f: Findings): Sample {
    var excused := f.failure.Some? && Transient(f.failure.value) && f.evidence && f.structural.None?;
    var unknown := f.failure.Some? && !excused;
    Sample(k.sequence, started, k.arrivalGen, k.rowGen, f.counts.active, f.counts.pending, f.counts.admission,
           f.health, f.age, flags.ready, flags.seen, flags.continuous, flags.overflow, unknown,
           if unknown then f.failure.value else if excused || f.busy then Reason.BusyNow else Reason.ReadyNow)
  }

  /** The sample and the fields kept after it. */
  function Take(c: Config, k: Kept, env: Environment, deadline: real, batch: Option<Batch>): (Sample, Kept)
    requires |env.pages| == ROW_PAGES
  {
    var kept := KeptAfter(c, k.(sequence := k.sequence + 1), env, deadline, batch);
    (Report(kept, env.started, FlagsOf(env, batch), FindingsOf(c, env, deadline, batch, k.last)), kept)
  }

  function AtLeastZero(x: int): int {
    if x < 0 then 0 else x
  }

  // ---- what a sample means ----

  /**
   * The wall clock keeps its distance to the monotonic clock, up to the tolerance across the health request, which
   * takes at most five seconds, and up to one more percent of the time since the last sample; and the health clock has
   * not gone back.
   */
  ghost predicate ClocksAgree(c: Config, env: Environment, last: Option<(real, real, int)>) {
    var before, now, slack := env.w0 - env.t0, env.w1 - env.t1, c.toleranceMs as real / 1000.0;
    && before - slack <= now <= before + slack && env.t1 - env.t0 <= 5.0
    && (last.Some? ==>
          var earlier, drift := last.value.1 - last.value.0, (env.t1 - last.value.0) / 100.0;
          && earlier - slack - drift <= now <= earlier + slack + drift
          && (env.health.Answer? && env.health.value.timestamp.Some? ==>
                last.value.2 <= env.health.value.timestamp.value))
  }

  lemma AgreeOrJumped(c: Config, env: Environment, last: Option<(real, real, int)>)
    requires env.health.Answer? && env.health.value.timestamp.Some?
    ensures ClocksAgree(c, env, last) <==> !ClockJumped(c, env, last, env.health.value.timestamp.value)
  {
    var before, now, tolerance := env.w0 - env.t0, env.w1 - env.t1, c.toleranceMs as real;
    assert (env.w1 - env.w0) - (env.t1 - env.t0) == now - before;
    Within(now - before, tolerance, 0.0);
    if last.Some? {
      var earlier, passed := last.value.1 - last.value.0, env.t1 - last.value.0;
      assert (env.w1 - last.value.1) - passed == now - earlier;
      Within(now - earlier, tolerance, passed);
    }
  }

  lemma Within(d: real, ms: real, passed: real)
    ensures Abs(d) * 1000.0 <= ms + 10.0 * passed
            <==> -(ms / 1000.0) - passed / 100.0 <= d <= ms / 1000.0 + passed / 100.0
  {
  }

  /** The journal feed was ready, caught up to its barrier and unbroken, and every record on it is profiled. */
  ghost predicate FeedSound(c: Config, b: Batch) {
    && b.ready && b.barrierSeen && b.continuous && !b.overflow
    && forall record | record in b.records :: Profiled(c.routes, record)
  }

  lemma StructuralIs(c: Config, b: Batch, rowGap: bool)
    ensures Structural(c, b, rowGap) ==
              if b.overflow then Some(Reason.Overflow) else if !b.continuous then Some(Continuity)
              else if !(b.ready && b.barrierSeen) then Some(Feed)
              else if FeedSound(c, b) && !rowGap then None else Some(Coverage)
  {
    hide Unprofiled, Profiled;
    CountIsArrivals(c.routes, b.records);
    var checks := [(b.overflow, Reason.Overflow), (!b.continuous, Continuity),
                   (!(b.ready && b.barrierSeen), Feed), (Unprofiled(c.routes, b.records) || rowGap, Coverage)];
    assert Structural(c, b, rowGap) == FirstOf(checks);
    assert checks[1..] == [checks[1], checks[2], checks[3]];
    assert checks[1..][1..] == [checks[2], checks[3]] && checks[1..][1..][1..] == [checks[3]];
  }

  /** Time is left for the health request after the pause, the shorter of 0.2 seconds and half the cache time. */
  ghost predicate InTime(c: Config, env: Environment, deadline: real) {
    env.beforeRead + 0.2 < deadline || env.beforeRead + c.cacheMs as real / 2000.0 < deadline
  }

  /** The scan of the call log, at the wall time of the health answer in whole milliseconds. */
  ghost predicate Scanned(c: Config, env: Environment, scan: Scan)
    requires |env.pages| == ROW_PAGES
  {
    var now := Truncate(env.w1 * 1000.0);
    ScanFrom(AllClassified(c.routes, env.pages), 0, c.pageLimit, now - c.minWaitMs, now + c.toleranceMs, NOTHING)
    == Answer(scan)
  }

  /** Every source of the sample answered in time with what was asked for. */
  ghost predicate EveryAnswer(c: Config, env: Environment, deadline: real, batch: Option<Batch>)
    requires |env.pages| == ROW_PAGES
  {
    && env.recheck.Answer? && batch.Some? && env.prime.Answer? && InTime(c, env, deadline)
    && env.health.Answer? && env.health.value.admission.Some? && env.health.value.timestamp.Some?
    && env.history.Answer? && env.history.value.active.Some? && env.history.value.pending.Some?
    && exists scan :: Scanned(c, env, scan)
  }

  lemma AnsweredIffRead(c: Config, env: Environment, deadline: real, batch: Option<Batch>)
    requires |env.pages| == ROW_PAGES
    ensures EveryAnswer(c, env, deadline, batch) <==> ReadFailure(c, env, deadline, batch).None?
    ensures forall scan :: Scanned(c, env, scan) <==> ScanOf(c, env) == Answer(scan)
  {
    hide ScanFrom, AllClassified;
    if ScanOf(c, env).Answer? {
      assert Scanned(c, env, ScanOf(c, env).value);
    }
  }

  /** Something is in flight, pending or admitted, or a client row is in memory or younger than the minimum wait. */
  ghost predicate SeesActivity(c: Config, env: Environment, scan: Scan) {
    || (env.health.Answer? && env.health.value.admission.Some? && env.health.value.admission.value > 0)
    || (env.history.Answer? && env.history.value.active.Some? && env.history.value.active.value > 0)
    || (env.history.Answer? && env.history.value.pending.Some? && env.history.value.pending.value > 0)
    || scan.inflight
    || (scan.newest.Some? && Truncate(env.w1 * 1000.0) - scan.newest.value < c.minWaitMs)
  }

  /** The row times, both clocks and the age of the health answer are conclusive. */
  ghost predicate Conclusive(c: Config, env: Environment, last: Option<(real, real, int)>, scan: Scan)
    requires env.health.Answer? && env.health.value.timestamp.Some?
  {
    && scan.failure.None? && ClocksAgree(c, env, last)
    && 0 <= Truncate(env.w1 * 1000.0) - env.health.value.timestamp.value <= c.cacheMs + c.refreshMs + c.toleranceMs
  }

  /**
   * A sample is idle exactly when every source answered in time, nothing shows activity, the journal feed is ready
   * and caught up to its barrier in an unbroken boot with no overflow, every route and row is profiled, and the row
   * times, both clocks and the health age are conclusive.
   */
  lemma IdleIffComplete(c: Config, k: Kept, env: Environment, deadline: real, batch: Option<Batch>)
    requires |env.pages| == ROW_PAGES
    ensures Classify(Take(c, k, env, deadline, batch).0).Idle? <==>
            && EveryAnswer(c, env, deadline, batch) && FeedSound(c, batch.value)
            && exists scan :: Scanned(c, env, scan) && !scan.gap && !SeesActivity(c, env, scan)
                              && Conclusive(c, env, k.last, scan)
  {
    hide InferenceCount, Unprofiled, ScanFrom, Profiled, ClockJumped, ClocksAgree, Structural;
    AnsweredIffRead(c, env, deadline, batch);
    if ReadFailure(c, env, deadline, batch).None? {
      StructuralIs(c, batch.value, ScanOf(c, env).value.gap);
      AgreeOrJumped(c, env, k.last);
    }
  }

  /**
   * If the pages are those of a call log that keeps the page contract, an idle sample means that in the whole log no
   * client row is in memory or younger than the minimum wait.
   */
  lemma IdleLogIsQuiet(c: Config, k: Kept, env: Environment, deadline: real, batch: Option<Batch>, log: Log)
    requires |env.pages| == ROW_PAGES && WellFormed(log) && c.pageLimit > 0
    requires forall q: nat | q < ROW_PAGES :: AllClassified(c.routes, env.pages)[q] == Answer(Page(log, q, c.pageLimit))
    requires Classify(Take(c, k, env, deadline, batch).0).Idle?
    ensures forall row | row in log.memory + log.disk && row.kind == Some(Inference) ::
              !row.inMemory && (row.stamp.Some? ==> Truncate(env.w1 * 1000.0) - row.stamp.value >= c.minWaitMs)
  {
    hide AllClassified, WellFormed, ScanFrom, Take, FeedSound, ClocksAgree, InTime, Page;
    IdleIffComplete(c, k, env, deadline, batch);
    var now := Truncate(env.w1 * 1000.0);
    var horizon := now - c.minWaitMs;
    ScanIsExact(log, AllClassified(c.routes, env.pages), c.pageLimit, horizon, now + c.toleranceMs);
    assert !ActiveLog(log, horizon);
    assert forall row | row in log.memory + log.disk :: !Shows(row, horizon);
  }

  /** A counter is above zero, among those that could be read: admission, then active, then pending. */
  ghost predicate CountersBusy(c: Config, env: Environment, deadline: real, batch: Option<Batch>)
    requires |env.pages| == ROW_PAGES
  {
    && env.recheck.Answer? && batch.Some? && env.prime.Answer? && InTime(c, env, deadline)
    && env.health.Answer? && env.history.Answer? && (exists scan :: Scanned(c, env, scan))
    && env.health.value.admission.Some?
    && (|| env.health.value.admission.value > 0
        || (env.history.value.active.Some?
            && (|| env.history.value.active.value > 0
                || (env.history.value.pending.Some? && env.history.value.pending.value > 0))))
  }

  /** The request for a source failed, for a reason that may go away by itself. */
  predicate Excused<T>(reply: Reply<T>) {
    reply.Refused? && Transient(reply.reason)
  }

  /** The first source after the journal that failed did so for such a reason: a refused prime and lost time do. */
  ghost predicate ExcusedSource(c: Config, env: Environment, deadline: real)
    requires |env.pages| == ROW_PAGES
  {
    || env.prime.Refused?
    || (env.prime.Answer?
        && (|| !InTime(c, env, deadline)
            || Excused(env.health)
            || (env.health.Answer?
                && (|| Excused(env.history)
                    || (env.history.Answer? && Excused(ScanOf(c, env)))))))
  }

  lemma ExcusedIffTransient(c: Config, env: Environment, deadline: real)
    requires |env.pages| == ROW_PAGES
    ensures ExcusedSource(c, env, deadline)
            <==> SourceFailure(c, env, deadline).Some? && Transient(SourceFailure(c, env, deadline).value)
  {
    hide ScanFrom, AllClassified;
  }

  /** A scan fails on trace times alone: they are unreadable, in the future, or too young on every page. */
  lemma ScanFailsOnTimes(c: Config, env: Environment)
    requires |env.pages| == ROW_PAGES && ScanOf(c, env).Answer? && ScanOf(c, env).value.failure.Some?
    ensures ScanOf(c, env).value.failure.value in {Reason.Age, Reason.Clock}
  {
    hide ScanFrom, Says;
    var pages, latest := AllClassified(c.routes, env.pages), WallMs(env) + c.toleranceMs;
    ScanSays(pages, c.pageLimit, WallMs(env) - c.minWaitMs, latest);
    var s := ScanOf(c, env).value;
    var n: nat :| ReadTo(pages, n, latest, s);
    var t :| Says(t, ReadRows(pages, n), latest) && (s == t || s == t.(failure := OrElse(t.failure, Reason.Age)));
    SaysAgeOrClock(t, ReadRows(pages, n), latest);
    assert s.failure == t.failure || s.failure == OrElse(t.failure, Reason.Age);
  }

  lemma SaysAgeOrClock(t: Scan, rows: seq<Row>, latest: int)
    requires Says(t, rows, latest)
    ensures t.failure.Some? ==> t.failure.value in {Reason.Age, Reason.Clock}
  {
  }

  /**
   * A sample is busy exactly when a counter that could be read is above zero, or the journal feed is sound and there is
   * other activity: everything answered, every row is profiled, and there are client rows or, where the times are not
   * conclusive, inference calls on the journal; or there are such calls and a source failed for a transient reason.
   * What is neither idle nor busy is unknown.
   */
  lemma BusyIff(c: Config, k: Kept, env: Environment, deadline: real, batch: Option<Batch>)
    requires |env.pages| == ROW_PAGES
    ensures Classify(Take(c, k, env, deadline, batch).0).Busy? <==>
            || CountersBusy(c, env, deadline, batch)
            || (env.recheck.Answer? && batch.Some? && FeedSound(c, batch.value)
                && var arrived := exists record :: record in batch.value.records && Arrives(c.routes, record);
                   || (arrived && ExcusedSource(c, env, deadline))
                   || (EveryAnswer(c, env, deadline, batch)
                       && exists scan :: Scanned(c, env, scan) && !scan.gap
                            && (SeesActivity(c, env, scan) || (arrived && !Conclusive(c, env, k.last, scan)))))
  {
    hide InferenceCount, Unprofiled, ScanFrom, Profiled, Arrives, ClockJumped, ClocksAgree, Structural, ExcusedSource,
         SourceFailure;
    AnsweredIffRead(c, env, deadline, batch);
    ExcusedIffTransient(c, env, deadline);
    if Polled(env, batch) {
      StructuralIs(c, batch.value, false);
      CountIsArrivals(c.routes, batch.value.records);
      if ReadFailure(c, env, deadline, batch).None? {
        StructuralIs(c, batch.value, ScanOf(c, env).value.gap);
        AgreeOrJumped(c, env, k.last);
        if ScanOf(c, env).value.failure.Some? {
          ScanFailsOnTimes(c, env);
        }
      }
    }
  }

  /** What a sample reports of its sources, once they have all answered, and what is kept of it for the next one. */
  lemma SampleReports(c: Config, k: Kept, env: Environment, deadline: real, batch: Option<Batch>)
    requires |env.pages| == ROW_PAGES && EveryAnswer(c, env, deadline, batch)
    ensures var s, b := Take(c, k, env, deadline, batch).0, batch.value;
            var age := Truncate(env.w1 * 1000.0) - env.health.value.timestamp.value;
            && s.sequence == k.sequence + 1 && s.sampleMonotonic == env.started
            && env.history.value.active == Some(s.active) && env.history.value.pending == Some(s.pending)
            && env.health.value.admission == Some(s.admission)
            && s.healthTimestampMs == env.health.value.timestamp
            && s.healthAgeMs.Some? && s.healthAgeMs.value >= 0 && s.healthAgeMs.value >= age
            && (s.healthAgeMs.value == 0 || s.healthAgeMs.value == age)
            && s.feedReady == b.ready && s.barrierSeen == b.barrierSeen && s.continuous == b.continuous
            && s.overflow == b.overflow
            && s.arrivalGeneration == k.arrivalGen + |ArrivalsAt(c.routes, b.records)|
    ensures var (s, kept) := Take(c, k, env, deadline, batch);
            && kept.sequence == s.sequence && kept.arrivalGen == s.arrivalGeneration && kept.rowGen == s.rowGeneration
            && kept.last == Some((env.t1, env.w1, env.health.value.timestamp.value))
            && forall scan | Scanned(c, env, scan) ::
                 && kept.newest == scan.newest
                 && s.rowGeneration == k.rowGen + if k.last.Some? && scan.newest != k.newest then 1 else 0
  {
    hide ScanFrom, AllClassified, ArrivalsAt, InferenceCount, Unprofiled, ProofFailure, ShowsActivity, Structural;
    AnsweredIffRead(c, env, deadline, batch);
    CountIsArrivals(c.routes, batch.value.records);
  }

  /** Why a sample with all its answers is unknown: the first of these that is the case. */
  lemma UnknownReason(c: Config, k: Kept, env: Environment, deadline: real, batch: Option<Batch>, scan: Scan)
    requires |env.pages| == ROW_PAGES && EveryAnswer(c, env, deadline, batch) && Scanned(c, env, scan)
    ensures var s, b := Take(c, k, env, deadline, batch).0, batch.value;
            var profiled := !scan.gap && forall record | record in b.records :: Profiled(c.routes, record);
            && (s.reason == Reason.Overflow <==> b.overflow)
            && (s.reason == Continuity <==> !b.overflow && !b.continuous)
            && (s.reason == Feed <==> !b.overflow && b.continuous && !(b.ready && b.barrierSeen))
            && (s.reason == Coverage <==>
                  !b.overflow && b.continuous && b.ready && b.barrierSeen && !profiled)
            && (s.reason in {Reason.Age, Reason.Clock} ==>
                  FeedSound(c, b) && !scan.gap && !Conclusive(c, env, k.last, scan))
            && (s.unknown <==> s.reason in {Reason.Overflow, Continuity, Feed, Coverage, Reason.Age, Reason.Clock})
  {
    hide InferenceCount, Unprofiled, ScanFrom, Profiled, Arrives, ClockJumped, ClocksAgree, SourceFailure, Structural;
    AnsweredIffRead(c, env, deadline, batch);
    CountIsArrivals(c.routes, batch.value.records);
    StructuralIs(c, batch.value, scan.gap);
    AgreeOrJumped(c, env, k.last);
    if scan.failure.Some? {
      ScanFailsOnTimes(c, env);
    }
  }

  /** The sampler: one per observation. */
  class Sampler {
    const config: Config
    const reader: Reader
    var sequence: nat
    var arrivalGen: nat
    var rowGen: nat
    var newest: Option<int>
    var last: Option<(real, real, int)>

    function Fields(): Kept
      reads this
    {
      Kept(sequence, arrivalGen, rowGen, newest, last)
    }

    constructor (config: Config, reader: Reader)
      ensures this.config == config && this.reader == reader && Fields() == Kept(0, 0, 0, None, None)
    {
      this.config, this.reader := config, reader;
      sequence, arrivalGen, rowGen, newest, last := 0, 0, 0, None, None;
    }

    /** Count the inference arrivals of a batch; `gap` says some record has no profiled route. */
    method CountArrivals(records: seq<Record>) returns (evidence: bool, gap: bool)
      modifies this`arrivalGen
      ensures arrivalGen == old(arrivalGen) + InferenceCount(config.routes, records)
      ensures evidence <==> InferenceCount(config.routes, records) > 0
      ensures gap <==> Unprofiled(config.routes, records)
      ensures arrivalGen == old(arrivalGen) + |ArrivalsAt(config.routes, records)|
      ensures evidence <==> exists record :: record in records && Arrives(config.routes, record)
      ensures gap <==> exists record :: record in records && !Profiled(config.routes, record)
    {
      hide ClassifyRoute, Arrives, Profiled;
      CountIsArrivals(config.routes, records);
      evidence, gap := false, false;
      for i := 0 to |records|
        invariant arrivalGen == old(arrivalGen) + InferenceCount(config.routes, records[..i])
        invariant evidence <==> InferenceCount(config.routes, records[..i]) > 0
        invariant gap <==> Unprofiled(config.routes, records[..i])
      {
        var kind := ClassifyRoute(config.routes, records[i]);
        assert records[..i + 1] == records[..i] + [records[i]];
        if kind == Some(Inference) {
          arrivalGen := arrivalGen + 1;
          evidence := true;
        } else if kind.None? {
          gap := true;
        }
      }
      assert records[..|records|] == records;
    }

    /** Read the health, history and call-log sources; stop at the first one that fails. */
    static method ReadSources(c: Config, env: Environment, deadline: real)
      returns (failure: Option<Reason>, counts: Counts, scan: Scan)
      requires |env.pages| == ROW_PAGES
      ensures failure == SourceFailure(c, env, deadline)
      ensures counts == SourceCounts(c, env, deadline)
      ensures failure.None? ==> ScanOf(c, env) == Answer(scan)
    {
      hide ScanFrom, AllClassified;
      counts, scan := Counts(0, 0, 0), NOTHING;
      if !env.prime.Answer? {
        failure := if env.prime.Refused? then Some(Reason.Io) else Some(Reason.Schema);
        return;
      }
      if env.beforeRead + PrimeGap(c) >= deadline {
        failure := Some(Reason.Io);
        return;
      }
      if !env.health.Answer? {
        failure := RefusalOf(env.health);
        return;
      }
      if !env.history.Answer? {
        failure := RefusalOf(env.history);
        return;
      }
      var wallMs := WallMs(env);
      var reply := ScanCallLogs(c.routes, env.pages, c.pageLimit, wallMs - c.minWaitMs, wallMs + c.toleranceMs);
      if !reply.Answer? {
        failure := RefusalOf(reply);
        return;
      }
      scan := reply.value;
      var health, history := env.health.value, env.history.value;
      counts := CountsOf(health, history);
      failure := if WellTyped(health, history) then None else Some(Reason.Schema);
    }

    /** Keep what the sources said, then look for a reason not to trust them. */
    method Conclude(env: Environment, deadline: real, batch: Batch, gap: bool, counts: Counts, scan: Scan)
      returns (failure: Option<Reason>, busy: bool)
      requires |env.pages| == ROW_PAGES && ReadFailure(config, env, deadline, Some(batch)).None?
      requires counts == SourceCounts(config, env, deadline) && ScanOf(config, env) == Answer(scan)
      requires gap <==> Unprofiled(config.routes, batch.records)
      modifies this`rowGen, this`newest, this`last
      ensures failure == ProofFailure(config, env, deadline, Some(batch), old(last))
      ensures busy == ShowsActivity(config, env, deadline, Some(batch))
      ensures rowGen == old(rowGen) + if old(last).Some? && scan.newest != old(newest) then 1 else 0
      ensures newest == scan.newest && last == Some((env.t1, env.w1, env.health.value.timestamp.value))
    {
      var ts, wallMs := env.health.value.timestamp.value, WallMs(env);
      if last.Some? && scan.newest != newest {
        rowGen := rowGen + 1;
      }
      newest := scan.newest;
      var previous := last;
      last := Some((env.t1, env.w1, ts));
      var recent := newest.Some? && wallMs - newest.value < config.minWaitMs;
      busy := counts.active > 0 || counts.pending > 0 || counts.admission > 0 || scan.inflight || recent;
      failure := FirstFailure(batch.overflow, !batch.continuous, !(batch.ready && batch.barrierSeen), gap || scan.gap);
      if failure.Some? {
        return;
      }
      if scan.failure.Some? {
        failure := scan.failure;
        return;
      }
      if ClockJumped(config, env, previous, ts) {
        failure := Some(Reason.Clock);
        return;
      }
      failure := CheckFreshness(ts, wallMs, config.cacheMs, config.refreshMs, config.toleranceMs);
    }

    /** Go through the sources after the journal; the first failure ends it. */
    method Investigate(env: Environment, deadline: real, b: Batch) returns (f: Findings)
      requires |env.pages| == ROW_PAGES && env.recheck.Answer?
      modifies this`arrivalGen, this`rowGen, this`newest, this`last
      ensures f == FindingsOf(config, env, deadline, Some(b), old(last))
      ensures Fields() == KeptAfter(config, old(Fields()), env, deadline, Some(b))
    {
      hide SourceCounts, ProofFailure, ShowsActivity, InferenceCount, Unprofiled, ScanOf, Arrives, Profiled, ArrivalsAt;
      var evidence, gap := CountArrivals(b.records);
      var structural := FirstFailure(b.overflow, !b.continuous, !(b.ready && b.barrierSeen), gap);
      var failure, counts, scan := ReadSources(config, env, deadline);
      if failure.Some? {
        f := Findings(failure, counts, evidence, false, structural, None, None);
      } else {
        var busy;
        failure, busy := Conclude(env, deadline, b, gap, counts, scan);
        var ts := env.health.value.timestamp.value;
        f := Findings(failure, counts, evidence || busy, busy, structural, Some(ts),
                      Some(AtLeastZero(WallMs(env) - ts)));
      }
    }

    /** One sample. */
    method Sample(env: Environment, deadline: real)
      returns (s: Sample, ghost batch: Option<Batch>, ghost taken: seq<Line>)
      requires reader.Valid() && |env.pages| == ROW_PAGES
      modifies this, reader
      ensures reader.Valid()
      ensures (s, Fields()) == Take(config, old(Fields()), env, deadline, batch)
      ensures reader.consumed == old(reader.consumed) + taken
      ensures if env.recheck.Answer?
              then Faithful(batch, taken, reader.consumed, env.barrier, reader.seedCursor, reader.seedBoot)
              else taken == []
    {
      hide Faithful, SourceFailure, SourceCounts, ProofFailure, ShowsActivity, Structural, InferenceCount, ScanOf,
           Report;
      sequence := sequence + 1;
      batch, taken := None, [];
      var f, flags := Findings(RefusalOf(env.recheck), Counts(0, 0, 0), false, false, None, None, None),
                      Flags(false, false, false, false);
      if env.recheck.Answer? {
        var polled;
        polled, taken := reader.Poll(env.barrier, env.spawns, env.printed, env.budget);
        batch := polled;
        if polled.None? {
          f := f.(failure := Some(Reason.Schema));
        } else {
          var b := polled.value;
          flags := Flags(b.ready, b.barrierSeen, b.continuous, b.overflow);
          f := Investigate(env, deadline, b);
        }
      }
      s := Report(Fields(), env.started, flags, f);
    }
  }
}
