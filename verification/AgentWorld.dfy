/**
 * The surroundings of the bounded agent runner: two drain threads copying the client's streams into files, the
 * launcher process, the scope's control group and the clock. Everything outside the runner is free to do anything
 * its interface allows, and does some of it during every call the runner makes.
 */
module AgentWorld {
  import opened Numbers
  import opened Wrappers

  datatype Outcome = Completed | TimedOut | TranscriptLimit | StderrLimit | BoundaryFailure

  /** One read of a client stream; an empty chunk is its end. */
  datatype Chunk = Chunk(data: seq<byte>) | ReadError

  datatype Write = Wrote(n: nat) | WriteError

  // ---- one drain thread ----

  /** All of a drain's fields at one moment. */
  datatype Look = Look(stored: nat, exceeded: bool, failed: bool, writing: bool, finished: bool, file: seq<byte>,
                       client: seq<byte>, ended: bool)

  /** A drain never takes back a failure or a reached limit, and after its end it does nothing any more. */
  predicate Drifted(a: Look, b: Look) {
    (a.exceeded ==> b.exceeded) && (a.failed ==> b.failed) && (a.finished ==> b == a)
  }

  class Drain {
    const limit: nat
    const limitOutcome: Outcome
    var stored: nat
    var exceeded: bool
    var failed: bool
    var writing: bool
    var finished: bool
    var file: seq<byte>
    ghost var client: seq<byte>  // everything read from the client's stream
    ghost var ended: bool        // the end of the stream was read

    ghost predicate Valid()
      reads this
    {
      && stored == |file| <= limit
      && file <= client
      && (!failed ==> writing && |file| == Min(limit, |client|) && (exceeded <==> |client| > limit))
      && (finished && !failed ==> ended)
      && (failed && !finished ==> !writing)
    }

    constructor (limit: nat, limitOutcome: Outcome)
      ensures Valid() && !finished && !failed && !exceeded && file == [] && client == []
      ensures this.limit == limit && this.limitOutcome == limitOutcome
    {
      this.limit, this.limitOutcome := limit, limitOutcome;
      stored, exceeded, failed, writing, finished, file := 0, false, false, true, false, [];
      client, ended := [], false;
    }

    ghost function Now(): Look
      reads this
    {
      Look(stored, exceeded, failed, writing, finished, file, client, ended)
    }

    /** The events that may be in the queue because of this drain. */
    ghost predicate Justifies(event: Outcome)
      reads this
    {
      (event == BoundaryFailure && failed) || (event == limitOutcome && exceeded)
    }

    /** What of a chunk still fits under the limit. */
    function Fitting(chunk: seq<byte>): seq<byte>
      reads this
    {
      chunk[..Min(if limit < stored then 0 else limit - stored, |chunk|)]
    }

    /** How much of it the file takes. */
    function Taken(fitting: seq<byte>, write: Write): nat
      reads this
    {
      if !writing || write.WriteError? then 0 else Min(write.n, |fitting|)
    }

    /**
     * One pass of the drain loop, and the close that ends it. A read error and an empty read end the drain; every
     * failure and the first excess put their event into the queue, in the order in which they happen.
     */
    method Iterate(read: Chunk, write: Write, closes: bool) returns (events: seq<Outcome>)
      requires Valid() && !finished && limitOutcome in {TranscriptLimit, StderrLimit}
      modifies this
      ensures Valid()
      ensures old(file) <= file && (old(failed) ==> failed) && (old(exceeded) ==> exceeded)
      ensures forall e | e in events :: Justifies(e)
      ensures (failed && !old(failed) ==> BoundaryFailure in events)
              && (exceeded && !old(exceeded) ==> limitOutcome in events)
      ensures finished <==> read.ReadError? || read.data == []
      ensures client == old(client) + if read.ReadError? then [] else read.data
      ensures finished ==> file == old(file) && exceeded == old(exceeded)
      ensures finished ==> failed == (old(failed) || read.ReadError? || !closes)
      ensures finished ==>
                events == (if read.ReadError? then [BoundaryFailure] else []) + if closes then [] else [BoundaryFailure]
      ensures !finished ==>
                var fitting := old(Fitting(read.data));
                var taken := old(Taken(fitting, write));
                && file == old(file) + fitting[..taken]
                && (exceeded <==> old(exceeded) || |fitting| < |read.data|)
                && (failed <==> old(failed) || (old(writing) && taken < |fitting|))
      ensures !finished ==>
                events == (if failed != old(failed) then [BoundaryFailure] else [])
                        + if exceeded != old(exceeded) then [limitOutcome] else []
    {
      events := [];
      if read.ReadError? {
        failed, events := true, [BoundaryFailure];
      } else if read.data == [] {
        ended := true;
      } else {
        var chunk := read.data;
        var remaining := if limit < stored then 0 else limit - stored;
        var retained := chunk[..Min(remaining, |chunk|)];
        client := client + chunk;
        if retained != [] && writing {
          var written := if write.WriteError? then 0 else Min(write.n, |retained|);
          file, stored := file + retained[..written], stored + written;
          if written != |retained| {
            writing, failed, events := false, true, [BoundaryFailure];
          }
        }
        if |chunk| > remaining && !exceeded {
          exceeded, events := true, events + [limitOutcome];
        }
        return;
      }
      finished := true;
      if !closes {
        failed, events := true, events + [BoundaryFailure];
      }
    }

    /**
     * The drain loop on a stream nobody else touches: it copies the stream up to the limit, in order, and says so
     * when there is more.
     */
    method DrainStream(chunks: seq<seq<byte>>) returns (events: seq<Outcome>)
      requires Valid() && !finished && !failed && client == [] && limitOutcome in {TranscriptLimit, StderrLimit}
      requires forall c | c in chunks :: c != []
      modifies this
      ensures finished && !failed && client == Concat(chunks)
      ensures file == client[..Min(limit, |client|)]
      ensures events == if |client| > limit then [limitOutcome] else []
    {
      events := [];
      for i := 0 to |chunks|
        invariant Valid() && !finished && !failed && client == Concat(chunks[..i])
        invariant events == if exceeded then [limitOutcome] else []
      {
        assert chunks[..i + 1][..i] == chunks[..i] && chunks[i] in chunks;
        var put := Iterate(Chunk(chunks[i]), Wrote(|chunks[i]|), true);
        events := events + put;
      }
      assert chunks[..|chunks|] == chunks;
      var put := Iterate(Chunk([]), Wrote(0), true);
      events := events + put;
    }
  }

  function Concat(chunks: seq<seq<byte>>): seq<byte> {
    if chunks == [] then [] else Concat(chunks[..|chunks| - 1]) + chunks[|chunks| - 1]
  }

  // ---- the launcher, the control group and the clock ----

  datatype Sig = Term | Kill

  datatype CgroupState = Empty | Populated | Removing | Unreadable

  datatype Query = Found | Missing | QueryFailed

  datatype WaitResult = Exited | StillRunning | WaitFailed

  /** A signal request: when it returned, and how many times the saved group had been read before it. */
  datatype Request = Request(sig: Sig, at: real, seen: nat)

  /** What the runner may rely on to stay as it is while it waits. */
  datatype Scene = Scene(started: nat, status: Option<int>, transcript: Look, stderr: Look,
                         polls: seq<(Option<int>, real)>, checks: seq<(bool, real)>,
                         readings: seq<(CgroupState, real)>)

  predicate Kept(a: Scene, b: Scene) {
    && b.started == a.started
    && a.polls <= b.polls && a.checks <= b.checks && a.readings <= b.readings
    && (a.status.Some? ==> b.status == a.status)
    && Drifted(a.transcript, b.transcript) && Drifted(a.stderr, b.stderr)
  }

  lemma KeptChains()
    ensures forall a :: Kept(a, a)
    ensures forall a, b, c :: Kept(a, b) && Kept(b, c) ==> Kept(a, c)
  {
  }

  /**
   * The world of one run. It records what the runner asks and what it is answered, so that what the runner claims can
   * be held against what happened.
   */
  class World {
    const lag: real              // no call takes longer than this beyond the time it waits on purpose
    const pipes: bool            // the launcher comes with both output pipes
    const transcript: Drain
    const stderr: Drain
    var now: real
    var status: Option<int>      // the launcher's exit status, once it has exited
    var started: nat             // how many drain threads have been started
    var queue: seq<Outcome>
    ghost var signals: seq<Request>
    ghost var readings: seq<(CgroupState, real)>  // every read of the saved control group, and when
    ghost var gets: seq<(Option<Outcome>, real)>  // every attempt to take an event from the queue, and when
    ghost var polls: seq<(Option<int>, real)>     // every poll of the launcher and its answer, and when
    ghost var queries: seq<(Query, real)>         // every request for the control group's path, and when it returned
    ghost var checks: seq<(bool, real)>           // every look whether the drain threads have ended, and when
    ghost var hits: seq<(Sig, real)>              // every signal to the launcher itself
    ghost var overdue: seq<(nat, real)>           // every wait the launcher outlived: hits before it, and its end
    ghost var launchedAt: real
    ghost var faults: nat                         // calls that failed so far, removals in progress not counted
    ghost var reaped: bool                        // some poll has returned an exit status
    ghost var early: bool                         // one has before any signal was sent

    ghost predicate Valid()
      reads this`status, this`started, this`queue, this`gets, this`reaped, transcript, stderr
    {
      && 0.0 <= lag && transcript != stderr
      && transcript.Valid() && transcript.limitOutcome == TranscriptLimit
      && stderr.Valid() && stderr.limitOutcome == StderrLimit
      && (started < 1 ==> !transcript.finished) && (started < 2 ==> !stderr.finished)
      && (reaped ==> status.Some?)
      && (forall e | e in queue :: transcript.Justifies(e) || stderr.Justifies(e))
      && (transcript.exceeded ==> Reported(TranscriptLimit)) && (transcript.failed ==> Reported(BoundaryFailure))
      && (stderr.exceeded ==> Reported(StderrLimit)) && (stderr.failed ==> Reported(BoundaryFailure))
    }

    /** The event waits in the queue, or has been taken from it. */
    ghost predicate Reported(event: Outcome)
      reads this`queue, this`gets
    {
      event in queue || exists g | g in gets :: g.0 == Some(event)
    }

    /** Nothing has been asked yet. */
    ghost predicate Untouched()
      reads this
    {
      && started == 0 && gets == [] && polls == [] && queries == [] && checks == [] && readings == []
      && signals == [] && hits == [] && overdue == []
      && faults == 0 && !reaped && !early
    }

    constructor (lag: real, limit: nat, pipes: bool)
      requires 0.0 <= lag
      ensures Valid() && Untouched() && queue == []
      ensures transcript.limit == limit && stderr.limit == limit
      ensures fresh(transcript) && fresh(stderr)
    {
      var a := new Drain(limit, TranscriptLimit);
      var b := new Drain(limit, StderrLimit);
      this.lag, this.pipes, transcript, stderr := lag, pipes, a, b;
      now, status, started, queue, signals, readings, faults, reaped := 0.0, None, 0, [], [], [], 0, false;
      gets, polls, queries, checks, hits, overdue, launchedAt, early := [], [], [], [], [], [], 0.0, false;
    }

    ghost function Now(): Scene
      reads this`started, this`status, this`polls, this`checks, this`readings, transcript, stderr
    {
      Scene(started, status, transcript.Now(), stderr.Now(), polls, checks, readings)
    }

    /** The outside has moved on: time has passed, the launcher may have exited, the drains may have run. */
    twostate predicate Passed(least: real, most: real)
      reads this, transcript, stderr
    {
      old(now) + least <= now <= old(now) + most && Kept(old(Now()), Now()) && (old(early) ==> early)
    }

    /** One pass of one drain thread, on any input. */
    method RunDrain(d: Drain)
      requires Valid() && d in {transcript, stderr} && !d.finished
      requires d == transcript ==> started >= 1
      requires d == stderr ==> started >= 2
      modifies this`queue, d
      ensures Valid() && Kept(old(Now()), Now())
    {
      hide Drain.Taken, Drain.Fitting, Drain.Valid;
      var read, write, closes: bool := *, *, *;
      var put := d.Iterate(read, write, closes);
      queue := queue + put;
    }

    lemma LagIsNatural()
      requires Valid()
      ensures 0.0 <= lag
    {
    }

    lemma QueueIsJustified()
      requires Valid()
      ensures forall e | e in queue :: e !in {Completed, TimedOut}
      ensures BoundaryFailure in queue ==> transcript.failed || stderr.failed
      ensures TranscriptLimit in queue ==> transcript.exceeded
      ensures StderrLimit in queue ==> stderr.exceeded
    {
    }

    /** Let any amount of time between `least` and `most` pass, with any behaviour of the outside. */
    method Elapse(least: real, most: real)
      requires Valid() && 0.0 <= least <= most
      modifies this`now, this`status, this`queue, transcript, stderr
      ensures Valid() && Passed(least, most)
    {
      KeptChains();
      var t: real := *;
      now := now + if t < least then least else if t > most then most else t;
      var exits: bool := *;
      if exits && status.None? {
        var code: int := *;
        status := Some(code);
      }
      assert Kept(old(Now()), Now());
      hide Kept, Now;
      var passes: int := *;
      for _ := 0 to if passes < 0 then 0 else passes
        invariant Valid() && Passed(least, most)
      {
        var first: bool := *;
        var d := if first then transcript else stderr;
        if (if first then started >= 1 else started >= 2) && !d.finished {
          RunDrain(d);
        }
      }
    }

    method Sleep(seconds: real)
      requires Valid() && 0.0 <= seconds
      modifies this`now, this`status, this`queue, transcript, stderr
      ensures Valid() && Passed(seconds, seconds + lag)
    {
      Elapse(seconds, seconds + lag);
    }

    /** Open the output files and start the client in its scope. */
    method Launch() returns (ok: bool)
      requires Valid()
      modifies this`now, this`status, this`queue, this`faults, this`launchedAt, transcript, stderr
      ensures Valid() && Passed(0.0, lag) && launchedAt == now
      ensures faults == old(faults) + if ok then 0 else 1
    {
      hide Valid, Now, Kept;
      LagIsNatural();
      Elapse(0.0, lag);
      launchedAt := now;
      ok := *;
      faults := if ok then faults else faults + 1;
    }

    /** Start the next drain thread. */
    method StartThread() returns (ok: bool)
      requires Valid() && started < 2
      modifies this`started, this`faults
      ensures Valid() && started == old(started) + (if ok then 1 else 0)
      ensures faults == old(faults) + if ok then 0 else 1
    {
      ok := *;
      if ok {
        started := started + 1;
      } else {
        faults := faults + 1;
      }
    }

    /** Take the next event from the queue, if there is one. */
    method Get() returns (event: Option<Outcome>)
      requires Valid()
      modifies this`queue, this`gets
      ensures Valid()
      ensures event == if old(queue) == [] then None else Some(old(queue)[0])
      ensures queue == if old(queue) == [] then [] else old(queue)[1..]
      ensures gets == old(gets) + [(event, now)]
    {
      event := if queue == [] then None else Some(queue[0]);
      queue := if queue == [] then [] else queue[1..];
      gets := gets + [(event, now)];
      assert forall e :: old(Reported(e)) ==> Reported(e) by {
        assert gets[|gets| - 1] in gets && forall g | g in old(gets) :: g in gets;
        assert old(queue) == [] || old(queue) == [event.value] + queue;
      }
    }

    /** Poll the launcher. */
    method Poll() returns (code: Option<int>, failed: bool)
      requires Valid()
      modifies this`now, this`status, this`queue, this`faults, this`polls, this`reaped, this`early, transcript, stderr
      ensures Valid() && Passed(0.0, lag)
      ensures polls == old(polls) + [(code, now)]
      ensures failed ==> code.None? && faults == old(faults) + 1 && reaped == old(reaped)
      ensures !failed ==> code == status && faults == old(faults) && reaped == (old(reaped) || code.Some?)
      ensures early == (old(early) || (code.Some? && signals == []))
    {
      hide Drain.Valid, Drain.Justifies, Drain.Now, Drifted, Reported;
      Elapse(0.0, lag);
      failed := *;
      code := if failed then None else status;
      polls := polls + [(code, now)];
      faults := if failed then faults + 1 else faults;
      reaped := reaped || code.Some?;
      early := early || (code.Some? && signals == []);
    }

    /** Close the output files and the pipes. */
    method Close() returns (ok: bool)
      requires Valid()
      modifies this`now, this`status, this`queue, this`faults, transcript, stderr
      ensures Valid() && Passed(0.0, lag)
      ensures faults == old(faults) + if ok then 0 else 1
    {
      hide Valid, Now, Kept;
      LagIsNatural();
      Elapse(0.0, lag);
      ok := *;
      faults := if ok then faults else faults + 1;
    }

    /** Look whether the first `threads` drain threads have ended. */
    method ThreadsEnded(threads: nat) returns (ended: bool)
      modifies this`checks
      ensures Passed(0.0, 0.0)
      ensures ended == Drained(threads) && checks == old(checks) + [(ended, now)]
    {
      ended := Drained(threads);
      checks := checks + [(ended, now)];
    }

    /** Wait for a drain thread to end, but not for long. */
    method Join(d: Drain, timeout: real)
      requires Valid() && d in {transcript, stderr} && 0.0 <= timeout
      modifies this`now, this`status, this`queue, transcript, stderr
      ensures Valid() && Passed(0.0, timeout + lag)
      ensures !d.finished ==> old(now) + timeout <= now
    {
      KeptChains();
      var until := now + timeout;
      Elapse(0.0, timeout + lag);
      if !d.finished && now < until {
        hide Kept, Now, Valid;
        Elapse(until - now, until + lag - now);
      }
    }

    /** Read the saved control group. */
    method ReadCgroup() returns (r: CgroupState)
      requires Valid()
      modifies this`now, this`status, this`queue, this`readings, this`faults, transcript, stderr
      ensures Valid() && Passed(0.0, lag)
      ensures readings == old(readings) + [(r, now)]
      ensures faults == old(faults) + if r == Unreadable then 1 else 0
    {
      Elapse(0.0, lag);
      r := *;
      readings := readings + [(r, now)];
      faults := if r == Unreadable then faults + 1 else faults;
    }

    /** Ask systemd to signal the whole scope. */
    method Signal(sig: Sig, timeout: real) returns (ok: bool)
      requires Valid() && 0.0 <= timeout
      modifies this`now, this`status, this`queue, this`signals, this`faults, transcript, stderr
      ensures Valid() && Passed(0.0, timeout + lag)
      ensures signals == old(signals) + [Request(sig, now, |readings|)]
      ensures faults == old(faults) + if ok then 0 else 1
    {
      hide Valid, Now, Kept;
      LagIsNatural();
      Elapse(0.0, timeout + lag);
      ok := *;
      signals := signals + [Request(sig, now, |readings|)];
      faults := if ok then faults else faults + 1;
    }

    /** Ask systemd where the scope's control group is. */
    method QueryPath(timeout: real) returns (q: Query)
      requires Valid() && 0.0 <= timeout
      modifies this`now, this`status, this`queue, this`queries, this`faults, transcript, stderr
      ensures Valid() && Passed(0.0, timeout + lag)
      ensures queries == old(queries) + [(q, now)]
      ensures faults == old(faults) + if q == QueryFailed then 1 else 0
    {
      hide Valid, Now, Kept;
      LagIsNatural();
      Elapse(0.0, timeout + lag);
      q := *;
      queries := queries + [(q, now)];
      faults := if q == QueryFailed then faults + 1 else faults;
    }

    /** Terminate or kill the launcher itself; it may raise. */
    method SignalLauncher(sig: Sig) returns (ok: bool)
      requires Valid()
      modifies this`now, this`status, this`queue, this`hits, this`faults, transcript, stderr
      ensures Valid() && Passed(0.0, lag)
      ensures hits == old(hits) + [(sig, now)]
      ensures faults == old(faults) + if ok then 0 else 1
    {
      hide Valid, Now, Kept;
      LagIsNatural();
      Elapse(0.0, lag);
      ok := *;
      hits := hits + [(sig, now)];
      faults := if ok then faults else faults + 1;
    }

    /** Wait for the launcher to exit; a wait that ends without that has lasted its whole time. */
    method WaitLauncher(timeout: real) returns (r: WaitResult)
      requires Valid() && 0.0 <= timeout
      modifies this`now, this`status, this`queue, this`overdue, this`faults, transcript, stderr
      ensures Valid() && Passed(0.0, timeout + lag)
      ensures faults == old(faults) + if r == WaitFailed then 1 else 0
      ensures r == Exited ==> status.Some?
      ensures r == StillRunning ==> status.None? && old(now) + timeout <= now
      ensures overdue == old(overdue) + if r == StillRunning then [(|hits|, now)] else []
    {
      hide Valid, Now, Kept;
      LagIsNatural();
      KeptChains();
      var until := now + timeout;
      Elapse(0.0, timeout + lag);
      var fails: bool := *;
      if fails {
        faults := faults + 1;
        return WaitFailed;
      }
      if status.None? && now < until {
        Elapse(until - now, until + lag - now);
      }
      if status.Some? {
        return Exited;
      }
      overdue := overdue + [(|hits|, now)];
      return StillRunning;
    }

    /** The first `threads` drain threads have all come to an end. */
    predicate Drained(threads: nat)
      reads transcript, stderr
    {
      (threads >= 1 ==> transcript.finished) && (threads >= 2 ==> stderr.finished)
    }
  }
}
