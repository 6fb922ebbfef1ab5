/** The sanitized observer state: reasons, samples and what a sample says about activity. */
module Activity {
  import opened Wrappers

  datatype Reason =
    | ReadyNow | BusyNow | Capability | Coverage | Logging | Feed | Overflow | Auth | Schema | Age | Clock
    | Continuity | Deadline | Ownership | Health | Lock | Input | Io | State

  /** Reasons that may be gone at the next look without anybody doing anything. */
  predicate Transient(reason: Reason) {
    reason.Age? || reason.Io? || reason.Clock?
  }

  datatype State = Idle | Busy | Unknown

  datatype Sample = Sample(
    sequence: nat,
    sampleMonotonic: real,
    arrivalGeneration: nat,
    rowGeneration: nat,
    active: nat,
    pending: nat,
    admission: nat,
    healthTimestampMs: Option<int>,
    healthAgeMs: Option<int>,
    feedReady: bool,
    barrierSeen: bool,
    continuous: bool,
    overflow: bool,
    unknown: bool,
    reason: Reason)

  function Classify(s: Sample): State {
    if s.active > 0 || s.pending > 0 || s.admission > 0 || (s.reason.BusyNow? && !s.unknown) then Busy
    else if s.unknown || s.overflow || !(s.feedReady && s.barrierSeen && s.continuous) then Unknown
    else Idle
  }

  /** The reason of the first condition that holds, in the order given. */
  function FirstOf(checks: seq<(bool, Reason)>): (r: Option<Reason>)
    ensures r.None? <==> forall k | 0 <= k < |checks| :: !checks[k].0
    ensures r.Some? ==> exists k | 0 <= k < |checks| ::
      checks[k].0 && checks[k].1 == r.value && forall j | 0 <= j < k :: !checks[j].0
  {
    if checks == [] then None
    else if checks[0].0 then Some(checks[0].1)
    else
      var rest := FirstOf(checks[1..]);
      assert rest.Some? ==> exists k | 0 <= k < |checks[1..]| ::
          checks[1..][k].0 && checks[1..][k].1 == rest.value && forall j | 0 <= j < k :: !checks[1..][j].0;
      assert rest.Some? ==> exists k | 0 <= k < |checks| ::
          checks[k].0 && checks[k].1 == rest.value && forall j | 0 <= j < k :: !checks[j].0 by {
        if rest.Some? {
          var k :| 0 <= k < |checks[1..]| && checks[1..][k].0 && checks[1..][k].1 == rest.value
                   && forall j | 0 <= j < k :: !checks[1..][j].0;
          assert checks[k + 1].0 && checks[k + 1].1 == rest.value;
          assert forall j | 0 <= j < k + 1 :: !checks[j].0 by {
            forall j | 0 <= j < k + 1 ensures !checks[j].0 {
              if j > 0 { assert !checks[1..][j - 1].0; }
            }
          }
        }
      }
      rest
  }

  /** Structural journal and row failures, in priority order. */
  function FirstFailure(overflow: bool, discontinuous: bool, feedMissing: bool, coverageGap: bool): Option<Reason> {
    FirstOf([(overflow, Reason.Overflow), (discontinuous, Continuity), (feedMissing, Feed), (coverageGap, Coverage)])
  }

  function CheckFreshness(timestampMs: int, wallMs: int, cacheMs: int, refreshMs: int, toleranceMs: int)
    : Option<Reason>
  {
    var age := wallMs - timestampMs;
    if 0 <= age <= cacheMs + refreshMs + toleranceMs then None else Some(Reason.Age)
  }
}
