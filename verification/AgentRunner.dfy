/**
 * The bounded agent runner: run one client inside a transient scope, copy its output up to a limit, and stop it with
 * TERM, then KILL, claiming a clean stop only on proof.
 */
module AgentRunner {
  import opened Numbers
  import opened Wrappers
  import opened AgentWorld

  const POLL := 0.01
  const JOIN := 0.1

  datatype Limits = Limits(runtime: real, grace: real, streamBytes: nat)

  datatype Report = Report(outcome: Outcome, exitStatus: Option<int>, transcriptBytes: nat, stderrBytes: nat,
                           cleanupProved: bool)

  /** How many polling intervals, rounded up, fit into the time left. */
  function Ticks(left: real): int {
    -(-left * 100.0).Floor
  }

  // ---- polling and proof ----

  /** Within this time some answer said that the run goes on: a poll, a look at the drains, or a read of the group. */
  predicate Unfinished(s: Scene, since: real, until: real) {
    || (exists p | p in s.polls :: since <= p.1 <= until && p.0.None?)
    || (exists c | c in s.checks :: since <= c.1 <= until && !c.0)
    || (exists r | r in s.readings :: since <= r.1 <= until && r.0 != Empty)
  }

  lemma UnfinishedStays(a: Scene, b: Scene, since: real, until: real, later: real)
    requires Unfinished(a, since, until) && Kept(a, b) && until <= later
    ensures Unfinished(b, since, later)
  {
    assert forall p | p in a.polls :: p in b.polls;
    assert forall c | c in a.checks :: c in b.checks;
    assert forall r | r in a.readings :: r in b.readings;
  }

  /** Finished means that the launcher has been reaped and every started drain has ended. */
  method ExecutionFinished(w: World, threads: nat) returns (done: bool, failed: bool)
    requires w.Valid()
    modifies w`now, w`status, w`queue, w`faults, w`polls, w`reaped, w`early, w`checks, w.transcript, w.stderr
    ensures w.Valid() && w.Passed(0.0, w.lag)
    ensures w.faults == old(w.faults) + if failed then 1 else 0
    ensures old(w.reaped) ==> w.reaped
    ensures done <==> !failed && w.status.Some? && w.Drained(threads)
    ensures done ==> w.reaped
    ensures !failed && w.status.Some? ==> Checked(w, done, w.now)
    ensures !done ==> Unfinished(w.Now(), old(w.now), w.now)
  {
    var code;
    code, failed := w.Poll();
    done := false;
    if code.Some? {
      done := w.ThreadsEnded(threads);
    }
  }

  /** The last look at the drain threads gave this answer, at this time or later. */
  ghost predicate Checked(w: World, ended: bool, since: real)
    reads w`checks
  {
    w.checks != [] && w.checks[|w.checks| - 1].0 == ended && since <= w.checks[|w.checks| - 1].1
  }

  /** The events waiting in the queue: a boundary failure wins, otherwise the first one. */
  method NextEvent(w: World) returns (event: Option<Outcome>)
    requires w.Valid()
    modifies w`queue, w`gets
    ensures w.Valid()
    ensures event == if BoundaryFailure in old(w.queue) then Some(BoundaryFailure)
                     else if old(w.queue) == [] then None
                     else Some(old(w.queue)[0])
    ensures event == Some(BoundaryFailure) ==> w.transcript.failed || w.stderr.failed
    ensures event == Some(TranscriptLimit) ==> w.transcript.exceeded
    ensures event == Some(StderrLimit) ==> w.stderr.exceeded
    ensures event.Some? ==> event.value !in {Completed, TimedOut}
    ensures old(w.gets) < w.gets
    ensures w.gets[|old(w.gets)|] == (if old(w.queue) == [] then None else Some(old(w.queue)[0]), w.now)
    ensures old(w.queue) == [] ==> |w.gets| == |old(w.gets)| + 1
  {
    hide World.Valid;
    event := None;
    ghost var all, k := w.queue, 0;
    w.QueueIsJustified();
    while true
      invariant w.Valid() && 0 <= k <= |all| && w.queue == all[k..]
      invariant BoundaryFailure !in all[..k] && event == if k == 0 then None else Some(all[0])
      invariant TakenFrom(old(w.gets), w.gets, all, k, w.now)
      decreases |all| - k
    {
      ghost var gets := w.gets;
      var head := w.Get();
      TakenNext(old(w.gets), gets, all, k, w.now);
      if head.None? {
        assert all[..k] == all && (k > 0 ==> all[0] in all);
        return;
      }
      assert all[..k + 1] == all[..k] + [all[k]] && all[k..][1..] == all[k + 1..];
      assert all[k] in all;
      if head.value == BoundaryFailure {
        return Some(BoundaryFailure);
      }
      if event.None? {
        event := head;
      }
      k := k + 1;
    }
  }

  /** The first `k` of the events have been taken, all at this time. */
  predicate TakenFrom(before: seq<(Option<Outcome>, real)>, gets: seq<(Option<Outcome>, real)>, events: seq<Outcome>,
                      k: nat, now: real)
  {
    if k == 0 then gets == before
    else before < gets && events != [] && gets[|before|] == (Some(events[0]), now)
  }

  lemma TakenNext(before: seq<(Option<Outcome>, real)>, gets: seq<(Option<Outcome>, real)>, events: seq<Outcome>,
                  k: nat, now: real)
    requires TakenFrom(before, gets, events, k, now) && k <= |events|
    ensures k < |events| ==> TakenFrom(before, gets + [(Some(events[k]), now)], events, k + 1, now)
    ensures k == |events| ==>
              var all := gets + [(None, now)];
              before < all && all[|before|] == (if events == [] then None else Some(events[0]), now)
  {
  }

  /** The last read of the control group gave this answer, at this time or later. */
  ghost predicate Seen(w: World, r: CgroupState, since: real)
    reads w`readings
  {
    w.readings != [] && w.readings[|w.readings| - 1].0 == r && since <= w.readings[|w.readings| - 1].1
  }

  /** The last looks were clean: the group empty, the drains ended, and the launcher gone after at most two signals. */
  ghost predicate Clean(w: World)
    reads w`readings, w`checks, w`overdue
  {
    && w.readings != [] && w.readings[|w.readings| - 1].0 == Empty
    && w.checks != [] && w.checks[|w.checks| - 1].0
    && |w.overdue| < 2
  }

  /** The proof of a clean end: the last looks were clean, the launcher is reaped and every drain thread has ended. */
  ghost predicate Proved(w: World, threads: nat)
    reads w`reaped, w`readings, w`checks, w`overdue, w.transcript, w.stderr
  {
    w.reaped && w.Drained(threads) && Clean(w)
  }

  /** Everything that has happened so far stays, and no signal was sent in between. */
  twostate predicate Quietly(w: World)
    reads w
  {
    w.signals == old(w.signals) && old(w.readings) <= w.readings && old(w.faults) <= w.faults
    && (old(w.reaped) ==> w.reaped)
  }

  /** A proof at once: found exactly when the run has ended and the next read of a known group finds it empty. */
  method CleanupNow(w: World, path: bool, threads: nat) returns (proved: bool, failed: bool)
    requires w.Valid() && |w.overdue| < 2
    modifies w`now, w`status, w`queue, w`faults, w`polls, w`reaped, w`early, w`checks, w`readings,
             w.transcript, w.stderr
    ensures w.Valid() && w.Passed(0.0, 2.0 * w.lag) && Quietly(w)
    ensures w.faults > old(w.faults) ==> failed
    ensures proved ==> Proved(w, threads) && !failed && path
    ensures failed && path ==> w.faults > old(w.faults)
    ensures path && w.faults == old(w.faults) ==>
              if w.readings == old(w.readings) then !proved && (w.status.None? || !w.Drained(threads))
              else |w.readings| == |old(w.readings)| + 1 && (proved <==> w.readings[|w.readings| - 1].0 == Empty)
    ensures path && !proved ==> Unfinished(w.Now(), old(w.now), w.now)
    ensures !path && !failed ==> Unfinished(w.Now(), old(w.now), w.now)
  {
    hide World.Valid, Drain.Valid;
    w.LagIsNatural();
    KeptChains();
    var done;
    done, failed := ExecutionFinished(w, threads);
    if failed || !done {
      return false, failed;
    }
    if !path {
      return false, true;
    }
    var r := w.ReadCgroup();
    return r == Empty, r == Unreadable;
  }

  /** Time a launcher that outlived the scope may still take: two waits, one polling interval and two joins. */
  function ReapSlack(grace: real, lag: real): real {
    2.0 * grace + POLL + 2.0 * JOIN + 10.0 * lag
  }

  /** The launcher was told to terminate and then killed, and outlived either by a grace period. */
  ghost predicate KilledInVain(w: World, since: real, grace: real)
    reads w`hits, w`overdue
  {
    && |w.hits| == 2 && w.hits[0].0 == Term && w.hits[1].0 == Kill
    && |w.overdue| == 2 && w.overdue[0].0 == 1 && w.overdue[1].0 == 2
    && since <= w.hits[0].1 && w.hits[0].1 + grace <= w.overdue[0].1
    && w.overdue[0].1 <= w.hits[1].1 && w.hits[1].1 + grace <= w.overdue[1].1
  }

  /** After this time the launcher outlived TERM and KILL, or a drain thread was still running after a join. */
  ghost predicate GaveUp(w: World, since: real, grace: real)
    reads w`hits, w`overdue, w`checks
  {
    KilledInVain(w, since, grace) || Checked(w, false, since + JOIN)
  }

  /** Kill a launcher that outlived TERM. */
  method KillLauncher(w: World, ghost since: real, grace: real) returns (ok: bool)
    requires w.Valid() && 0.0 < grace && |w.hits| == 1 && |w.overdue| == 1 && w.hits[0].0 == Term
    requires w.overdue[0].0 == 1 && since <= w.hits[0].1 && w.hits[0].1 + grace <= w.overdue[0].1 <= w.now
    modifies w`now, w`status, w`queue, w`faults, w`hits, w`overdue, w.transcript, w.stderr
    ensures w.Valid() && w.Passed(0.0, grace + 2.0 * w.lag) && old(w.faults) <= w.faults && old(w.hits) <= w.hits
    ensures w.faults > old(w.faults) ==> !ok
    ensures ok ==> w.status.Some? && |w.overdue| < 2
    ensures !ok && w.faults == old(w.faults) ==> KilledInVain(w, since, grace)
  {
    hide World.Valid, World.Now, Kept;
    w.LagIsNatural();
    KeptChains();
    ok := w.SignalLauncher(Kill);
    if ok {
      var r := w.WaitLauncher(grace);
      ok := r == Exited;
    }
  }

  /** Terminate the launcher, and kill it if it does not go. It fails only after both, and a wait for each. */
  method StopLauncher(w: World, grace: real) returns (ok: bool)
    requires w.Valid() && 0.0 < grace && w.hits == [] && w.overdue == []
    modifies w`now, w`status, w`queue, w`faults, w`hits, w`overdue, w.transcript, w.stderr
    ensures w.Valid() && Quietly(w)
    ensures w.Passed(0.0, 2.0 * grace + 4.0 * w.lag)
    ensures w.faults > old(w.faults) ==> !ok
    ensures ok ==> w.status.Some? && |w.overdue| < 2
    ensures !ok && w.faults == old(w.faults) ==> KilledInVain(w, old(w.now), grace)
    ensures w.hits != [] ==> old(w.now) <= w.hits[0].1
  {
    hide World.Valid, World.Now, Kept, KilledInVain;
    w.LagIsNatural();
    KeptChains();
    ok := w.SignalLauncher(Term);
    if !ok {
      return;
    }
    var r := w.WaitLauncher(grace);
    if r != StillRunning {
      return r == Exited;
    }
    ok := KillLauncher(w, old(w.now), grace);
  }

  /** Join the started drain threads, and look a last time: one that is still running was waited for. */
  method JoinAll(w: World, threads: nat) returns (ok: bool)
    requires w.Valid()
    modifies w`now, w`status, w`queue, w`faults, w`polls, w`reaped, w`early, w`checks, w.transcript, w.stderr
    ensures w.Valid() && Quietly(w) && w.Passed(0.0, 2.0 * JOIN + 3.0 * w.lag)
    ensures w.faults > old(w.faults) ==> !ok
    ensures ok ==> w.reaped && w.Drained(threads) && Checked(w, true, old(w.now))
    ensures !ok && w.faults == old(w.faults) && old(w.status).Some? ==> Checked(w, false, old(w.now) + JOIN)
  {
    hide World.Valid, Unfinished;
    w.LagIsNatural();
    KeptChains();
    if threads >= 1 {
      w.Join(w.transcript, JOIN);
    }
    if threads >= 2 {
      w.Join(w.stderr, JOIN);
    }
    var failed;
    ok, failed := ExecutionFinished(w, threads);
  }

  /** The deadline has passed: terminate and then kill the launcher if it is still there, and join the drains. */
  method ReapLate(w: World, threads: nat, grace: real) returns (ok: bool)
    requires w.Valid() && 0.0 < grace && w.hits == [] && w.overdue == []
    modifies w`now, w`status, w`queue, w`faults, w`polls, w`reaped, w`early, w`checks, w`hits, w`overdue,
             w.transcript, w.stderr
    ensures w.Valid() && Quietly(w)
    ensures w.Passed(0.0, 2.0 * grace + 2.0 * JOIN + 8.0 * w.lag)
    ensures w.faults > old(w.faults) ==> !ok
    ensures ok ==> w.reaped && w.Drained(threads) && |w.overdue| < 2 && Checked(w, true, old(w.now))
    ensures !ok && w.faults == old(w.faults) ==> GaveUp(w, old(w.now), grace)
    ensures w.hits != [] ==> old(w.now) <= w.hits[0].1 && old(w.status).None?
  {
    hide World.Valid, World.Drained;
    w.LagIsNatural();
    KeptChains();
    var code, failed := w.Poll();
    if failed {
      return false;
    }
    if code.None? {
      ok := StopLauncher(w, grace);
      if !ok {
        return false;
      }
    }
    ok := JoinAll(w, threads);
  }

  /** Wait until the launcher and the drains have ended; after the deadline terminate and then kill the launcher. */
  method Reap(w: World, threads: nat, deadline: real, grace: real) returns (ok: bool)
    requires w.Valid() && 0.0 < grace && w.hits == [] && w.overdue == []
    modifies w`now, w`status, w`queue, w`faults, w`polls, w`reaped, w`early, w`checks, w`hits, w`overdue,
             w.transcript, w.stderr
    ensures w.Valid() && Quietly(w)
    ensures w.Passed(0.0, MaxReal(0.0, deadline - old(w.now)) + ReapSlack(grace, w.lag))
    ensures w.faults > old(w.faults) ==> !ok
    ensures ok ==> w.reaped && w.Drained(threads) && |w.overdue| < 2 && Checked(w, true, old(w.now))
    ensures !ok && w.faults == old(w.faults) ==> GaveUp(w, deadline, grace)
    // the launcher is signalled only after the deadline, and only if it was there till then
    ensures w.hits != [] ==> deadline <= w.hits[0].1 && old(w.status).None?
  {
    hide World.Valid, World.Now, Kept;
    w.LagIsNatural();
    KeptChains();
    NowStatus(w);
    var done, failed;
    while w.now < deadline
      invariant w.Valid() && Quietly(w) && w.faults == old(w.faults) && w.hits == [] && w.overdue == []
      invariant w.Passed(0.0, MaxReal(0.0, deadline - old(w.now)) + POLL + 2.0 * w.lag)
      decreases Ticks(deadline - w.now)
    {
      done, failed := ExecutionFinished(w, threads);
      if failed || done {
        return done;
      }
      w.Sleep(POLL);
    }
    NowStatus(w);
    KeptStatus(old(w.Now()), w.Now());
    ok := ReapLate(w, threads, grace);
  }

  lemma NowStatus(w: World)
    ensures w.Now().status == w.status
  {
  }

  lemma KeptStatus(a: Scene, b: Scene)
    requires Kept(a, b)
    ensures a.status.Some? ==> b.status.Some?
  {
  }

  /** The deadline has passed: read the scope once more. `broken` means that an earlier read has failed. */
  method LastLook(w: World, threads: nat, deadline: real, grace: real, broken: bool)
    returns (proved: bool, failed: bool, populated: bool)
    requires w.Valid() && 0.0 < grace && w.hits == [] && w.overdue == [] && deadline <= w.now
    modifies w`now, w`status, w`queue, w`faults, w`polls, w`reaped, w`early, w`checks, w`hits, w`overdue, w`readings,
             w.transcript, w.stderr
    ensures w.Valid() && Quietly(w)
    ensures w.Passed(0.0, w.lag + if populated then 0.0 else ReapSlack(grace, w.lag))
    ensures w.faults > old(w.faults) || broken ==> failed
    ensures proved ==> Proved(w, threads) && !populated
    ensures !proved && !populated ==> failed
    ensures failed && (proved || populated) ==> broken
    ensures populated ==> Seen(w, Populated, deadline) && w.hits == [] && w.overdue == []
    ensures !proved && !populated && w.faults == old(w.faults) ==>
              Seen(w, Removing, deadline) || (Seen(w, Empty, old(w.now)) && GaveUp(w, deadline, grace))
  {
    hide World.Valid, World.Now, Kept, GaveUp;
    w.LagIsNatural();
    KeptChains();
    var r := w.ReadCgroup();
    if r == Removing || r == Unreadable {
      return false, true, false;
    }
    if r == Empty {
      proved := Reap(w, threads, deadline, grace);
      return proved, broken || !proved, false;
    }
    return false, broken, true;
  }

  /** Read the scope until it is empty or the deadline has passed. */
  method AwaitEmpty(w: World, deadline: real) returns (empty: bool, failed: bool)
    requires w.Valid()
    modifies w`now, w`status, w`queue, w`faults, w`readings, w.transcript, w.stderr
    ensures w.Valid() && Quietly(w) && w.Passed(0.0, MaxReal(0.0, deadline - old(w.now)) + w.lag)
    ensures failed <==> w.faults > old(w.faults)
    ensures if empty then Seen(w, Empty, old(w.now)) else deadline <= w.now
  {
    hide World.Valid, World.Now, Kept;
    w.LagIsNatural();
    KeptChains();
    failed := false;
    while w.now < deadline
      invariant w.Valid() && Quietly(w)
      invariant w.Passed(0.0, MaxReal(0.0, deadline - old(w.now)) + w.lag)
      invariant w.faults > old(w.faults) <==> failed
      decreases Ticks(deadline - w.now)
    {
      var r := w.ReadCgroup();
      if r == Unreadable {
        failed := true;
      } else if r == Empty {
        return true, failed;
      }
      var remaining := deadline - w.now;
      if remaining > 0.0 {
        w.Sleep(if POLL < remaining then POLL else remaining);
      }
    }
    empty := false;
  }

  /**
   * Wait for the scope to empty until the deadline, then read it once more. `populated` means that last read still
   * found something. Without a failed call it gives up only on a group being removed, or on what outlived the scope.
   */
  method WaitForCleanup(w: World, path: bool, threads: nat, deadline: real, grace: real)
    returns (proved: bool, failed: bool, populated: bool)
    requires w.Valid() && 0.0 < grace && w.hits == [] && w.overdue == []
    modifies w`now, w`status, w`queue, w`faults, w`polls, w`reaped, w`early, w`checks, w`hits, w`overdue, w`readings,
             w.transcript, w.stderr
    ensures w.Valid() && Quietly(w)
    ensures w.Passed(0.0, MaxReal(0.0, deadline - old(w.now)) + 2.0 * w.lag
                          + if populated then 0.0 else ReapSlack(grace, w.lag))
    ensures w.faults > old(w.faults) ==> failed
    ensures proved ==> Proved(w, threads) && !populated
    ensures !proved && !populated ==> failed
    ensures failed && (proved || populated) ==> w.faults > old(w.faults)
    ensures populated ==> Seen(w, Populated, deadline) && w.hits == [] && w.overdue == []
    ensures path && !proved && !populated && w.faults == old(w.faults) ==>
              Seen(w, Removing, deadline) || (Seen(w, Empty, old(w.now)) && GaveUp(w, deadline, grace))
  {
    hide World.Valid, World.Now, World.Drained, Kept, GaveUp;
    w.LagIsNatural();
    KeptChains();
    if !path {
      return false, true, false;
    }
    var empty;
    empty, failed := AwaitEmpty(w, deadline);
    if empty {
      proved := Reap(w, threads, deadline, grace);
      return proved, failed || !proved, false;
    }
    proved, failed, populated := LastLook(w, threads, deadline, grace, failed);
  }

  // ---- the stop protocol ----

  /**
   * The scope was signalled with TERM and then perhaps KILL, nothing else; and KILL went out only after the saved
   * control group was read as still populated at the end of the TERM grace, with no read in between.
   */
  ghost predicate Escalates(w: World, grace: real)
    reads w`signals, w`readings
  {
    && |w.signals| <= 2
    && (|w.signals| >= 1 ==> w.signals[0].sig == Term)
    && (|w.signals| == 2 ==>
          && w.signals[1].sig == Kill
          && 0 < w.signals[1].seen <= |w.readings|
          && w.readings[w.signals[1].seen - 1].0 == Populated
          && w.signals[0].at + grace <= w.readings[w.signals[1].seen - 1].1)
  }

  /**
   * Why a stop without a failed call may end without proof. A grace period after the last signal the group was being
   * removed, or it was still populated although KILL had been sent, or it was empty and something outlived it.
   */
  ghost predicate Unclean(w: World, grace: real)
    reads w`signals, w`readings, w`hits, w`overdue, w`checks
  {
    && w.signals != []
    && var late := w.signals[|w.signals| - 1].at + grace;
       || Seen(w, Removing, late)
       || (Seen(w, Populated, late) && |w.signals| == 2)
       || (w.readings != [] && w.readings[|w.readings| - 1].0 == Empty && GaveUp(w, late, grace))
  }

  lemma CleanIsNotUnclean(w: World, grace: real)
    requires Clean(w)
    ensures !Unclean(w, grace)
  {
  }

  /** Six grace periods, and slack for polling, joining and the calls themselves. */
  function StopTime(grace: real, lag: real): real {
    6.0 * grace + 2.0 * POLL + 2.0 * JOIN + 18.0 * lag
  }

  /** Wait for the launcher's exit until the deadline: for its first poll that finds it gone, or that fails. */
  method AwaitExit(w: World, deadline: real)
    requires w.Valid()
    modifies w`now, w`status, w`queue, w`faults, w`polls, w`reaped, w`early, w.transcript, w.stderr
    ensures old(w.faults) <= w.faults
    ensures w.Valid() && w.Passed(0.0, MaxReal(0.0, deadline - old(w.now)) + POLL + 2.0 * w.lag)
    ensures w.status.Some? || w.faults > old(w.faults) || deadline <= w.now
    ensures old(w.polls) <= w.polls && forall i | |old(w.polls)| <= i < |w.polls| - 1 :: w.polls[i].0.None?
  {
    hide World.Valid, World.Now, Kept;
    w.LagIsNatural();
    KeptChains();
    while w.now < deadline
      invariant w.Valid() && w.Passed(0.0, MaxReal(0.0, deadline - old(w.now)) + POLL + 2.0 * w.lag)
      invariant w.faults == old(w.faults)
      invariant old(w.polls) <= w.polls && forall i | |old(w.polls)| <= i < |w.polls| :: w.polls[i].0.None?
      decreases Ticks(deadline - w.now)
    {
      var code, failed := w.Poll();
      if failed || code.Some? {
        break;
      }
      w.Sleep(POLL);
    }
  }

  /** The stop when the control group is not known: it can end the client, but it can never prove a clean end. */
  method StopUnproved(w: World, threads: nat, grace: real)
    requires w.Valid() && 0.0 < grace && w.signals == [] && w.hits == [] && w.overdue == []
    modifies w`now, w`status, w`queue, w`faults, w`polls, w`reaped, w`early, w`checks, w`hits, w`overdue, w`signals,
             w.transcript, w.stderr
    ensures w.Valid() && w.Passed(0.0, 5.0 * grace + 2.0 * POLL + 2.0 * JOIN + 14.0 * w.lag)
    ensures |w.signals| == 1 && w.signals[0].sig == Term
    ensures old(w.faults) <= w.faults
    ensures w.faults == old(w.faults) ==>
              (w.reaped && w.Drained(threads)) || GaveUp(w, w.signals[0].at + grace, grace)
    ensures w.faults == old(w.faults) && w.hits != [] ==> w.signals[0].at + 2.0 * grace <= w.hits[0].1
  {
    hide World.Valid, World.Now, Kept;
    w.LagIsNatural();
    KeptChains();
    var ok := w.Signal(Term, grace);
    AwaitExit(w, w.now + grace);
    ok := Reap(w, threads, w.now + grace, grace);
  }

  /** TERM has gone out and the scope is still populated at the end of its grace period: KILL it and wait again. */
  method KillAndProve(w: World, threads: nat, grace: real) returns (proved: bool, failed: bool)
    requires w.Valid() && 0.0 < grace && |w.signals| == 1 && w.signals[0].sig == Term
    requires Seen(w, Populated, w.signals[0].at + grace) && w.hits == [] && w.overdue == []
    modifies w`now, w`status, w`queue, w`faults, w`polls, w`reaped, w`early, w`checks, w`hits, w`overdue,
             w`readings, w`signals, w.transcript, w.stderr
    ensures w.Valid() && Escalates(w, grace) && |w.signals| == 2 && w.signals[0] == old(w.signals[0])
    ensures w.Passed(0.0, 2.0 * grace + 3.0 * w.lag + ReapSlack(grace, w.lag))
    ensures w.faults >= old(w.faults) && (w.faults > old(w.faults) ==> failed)
    ensures proved ==> Proved(w, threads)
    ensures !proved ==> failed
    ensures proved && failed ==> w.faults > old(w.faults)
    ensures !proved && w.faults == old(w.faults) ==> Unclean(w, grace)
  {
    hide World.Valid, World.Now, Kept, Proved, GaveUp;
    w.LagIsNatural();
    KeptChains();
    var ok := w.Signal(Kill, grace);
    assert Escalates(w, grace);
    var proofFailed, populated;
    proved, proofFailed, populated := WaitForCleanup(w, true, threads, w.now + grace, grace);
    failed := !ok || proofFailed || !proved;
  }

  /** TERM, a grace period, and KILL if the scope is still populated at its end. */
  method Escalate(w: World, threads: nat, grace: real) returns (proved: bool, failed: bool)
    requires w.Valid() && 0.0 < grace && w.signals == [] && w.hits == [] && w.overdue == []
    modifies w`now, w`status, w`queue, w`faults, w`polls, w`reaped, w`early, w`checks, w`hits, w`overdue,
             w`readings, w`signals, w.transcript, w.stderr
    ensures w.Valid() && Escalates(w, grace)
    ensures w.Passed(0.0, StopTime(grace, w.lag) - 2.0 * w.lag)
    ensures w.faults >= old(w.faults) && (w.faults > old(w.faults) ==> failed)
    ensures proved ==> Proved(w, threads)
    ensures !proved ==> failed
    ensures proved && failed ==> w.faults > old(w.faults)
    ensures !proved && w.faults == old(w.faults) ==> Unclean(w, grace)
    ensures |w.signals| > 0 && old(w.now) <= w.signals[0].at
  {
    hide World.Valid, World.Now, Kept, Proved, GaveUp;
    w.LagIsNatural();
    KeptChains();
    var ok := w.Signal(Term, grace);
    var populated;
    proved, failed, populated := WaitForCleanup(w, true, threads, w.now + grace, grace);
    failed := !ok || failed;
    if proved || !populated {
      return;
    }
    hide Escalates, Unclean;
    var killFailed;
    proved, killFailed := KillAndProve(w, threads, grace);
    failed := failed || killFailed;
  }

  /** Stop the client and try to prove that nothing of it is left. */
  method StopAndProve(w: World, path: bool, threads: nat, grace: real) returns (proved: bool, failed: bool)
    requires w.Valid() && 0.0 < grace && w.signals == [] && w.hits == [] && w.overdue == []
    modifies w`now, w`status, w`queue, w`faults, w`polls, w`reaped, w`early, w`checks, w`hits, w`overdue,
             w`readings, w`signals, w.transcript, w.stderr
    ensures w.Valid() && Escalates(w, grace)
    ensures w.Passed(0.0, StopTime(grace, w.lag))
    ensures w.faults >= old(w.faults) && (w.faults > old(w.faults) ==> failed)
    ensures proved ==> Proved(w, threads)
    ensures !proved ==> failed && |w.signals| > 0
    ensures !path ==> !proved
    ensures proved && failed ==> w.faults > old(w.faults)
    ensures path && !proved && w.faults == old(w.faults) ==> Unclean(w, grace)
    // no signal is sent to a client that is found ended, with its group empty
    ensures path && w.signals != [] ==> Unfinished(w.Now(), old(w.now), w.signals[0].at)
    ensures !path ==> |w.signals| == 1
  {
    hide World.Valid, World.Now, Kept, Proved, Unclean, Unfinished;
    w.LagIsNatural();
    KeptChains();
    proved, failed := CleanupNow(w, path, threads);
    if proved {
      return true, failed;
    }
    if !path {
      StopUnproved(w, threads, grace);
      return false, true;
    }
    ghost var looked, late := w.Now(), w.now;
    var stopFailed;
    proved, stopFailed := Escalate(w, threads, grace);
    failed := failed || stopFailed;
    UnfinishedStays(looked, w.Now(), old(w.now), late, w.signals[0].at);
  }

  // ---- a whole run ----

  const MAX_RUNTIME := 300.0
  const MAX_GRACE := 10.0
  const MAX_STREAM := 33_554_432

  /** What must hold in the world before the runner may name an outcome. */
  ghost predicate Supported(w: World, outcome: Outcome)
    reads w`started, w`faults, w`reaped, w`readings, w`checks, w`overdue, w.transcript, w.stderr
  {
    && (outcome != BoundaryFailure ==>
          w.started == 2 && Proved(w, 2) && w.faults == 0 && !w.transcript.failed && !w.stderr.failed)
    && (outcome == Completed ==> !w.transcript.exceeded && !w.stderr.exceeded)
    && (outcome == TranscriptLimit ==> w.transcript.exceeded)
    && (outcome == StderrLimit ==> w.stderr.exceeded)
  }

  /** An output file holds the first `bytes` bytes of its stream, and never more than the limit. */
  ghost predicate Copied(d: Drain, bytes: nat)
    reads d
  {
    |d.file| == bytes <= d.limit && d.file <= d.client
  }

  /** What a report promises. `full`: the file is the whole stream, or its first `limit` bytes. */
  ghost predicate Sound(w: World, r: Report)
    reads w, w.transcript, w.stderr
  {
    var full := (d: Drain) reads d => d.ended && d.file == d.client[..Min(d.limit, |d.client|)];
    && Copied(w.transcript, r.transcriptBytes) && Copied(w.stderr, r.stderrBytes)
    && (r.cleanupProved ==> Proved(w, w.started))
    && (w.faults > 0 ==> r.outcome == BoundaryFailure)
    && (r.outcome != BoundaryFailure ==>
          r.cleanupProved && w.started == 2 && r.exitStatus.Some? && r.exitStatus == w.status
          && full(w.transcript) && full(w.stderr) && !w.transcript.failed && !w.stderr.failed)
    && (r.outcome == Completed ==> w.transcript.file == w.transcript.client && w.stderr.file == w.stderr.client)
    && (r.outcome == TranscriptLimit ==> |w.transcript.file| == w.transcript.limit < |w.transcript.client|)
    && (r.outcome == StderrLimit ==> |w.stderr.file| == w.stderr.limit < |w.stderr.client|)
  }

  lemma SupportedIsSound(w: World, r: Report)
    requires w.Valid() && Supported(w, r.outcome)
    requires r.transcriptBytes == w.transcript.stored && r.stderrBytes == w.stderr.stored
    requires r.cleanupProved ==> Proved(w, w.started)
    requires w.faults > 0 ==> r.outcome == BoundaryFailure
    requires r.outcome != BoundaryFailure ==> r.cleanupProved && r.exitStatus.Some? && r.exitStatus == w.status
    ensures Sound(w, r)
  {
  }

  /** The control group was never known: the launcher was gone first, or it was asked for until the time was up. */
  ghost predicate Lost(w: World, deadline: real)
    reads w`queries, w`early, w`launchedAt
  {
    && (forall q | q in w.queries :: q.0 != Found)
    && if w.queries == [] then deadline - POLL - 2.0 * w.lag <= w.launchedAt
       else
         var last := w.queries[|w.queries| - 1];
         (w.early && last.0 == Missing) || deadline - POLL - 2.0 * w.lag <= last.1
  }

  /** Everything that makes a run a boundary failure: what happened, and not what the runner says about it. */
  ghost predicate Broken(w: World, deadline: real, grace: real)
    reads w, w.transcript, w.stderr
  {
    w.faults > 0 || !w.pipes || w.transcript.failed || w.stderr.failed || Lost(w, deadline) || Unclean(w, grace)
  }

  /**
   * Where no call failed the report tells all that is known: the exit status, and a clean end exactly when the group
   * was known and the last looks at it were not unclean.
   */
  ghost predicate Telling(w: World, r: Report, path: bool, grace: real)
    reads w
  {
    w.faults == 0 ==> r.exitStatus == w.status && (r.cleanupProved <==> path && !Unclean(w, grace))
  }

  /** Close the output files and poll the launcher one last time. What is proved by then stays proved. */
  method Settle(w: World, named: Outcome, proved: bool, launched: bool)
    returns (closed: bool, code: Option<int>, failed: bool)
    requires w.Valid() && Supported(w, named) && (proved ==> Proved(w, w.started))
    modifies w`now, w`status, w`queue, w`faults, w`polls, w`reaped, w`early, w.transcript, w.stderr
    ensures w.Valid() && w.Passed(0.0, 2.0 * w.lag)
    ensures w.faults == old(w.faults) + (if closed then 0 else 1) + if failed then 1 else 0
    ensures w.faults == old(w.faults) ==> Supported(w, named)
    ensures proved ==> Proved(w, w.started)
    ensures !failed && launched ==> code == w.status
  {
    hide World.Valid, Drain.Valid, Clean;
    w.LagIsNatural();
    closed := w.Close();
    code, failed := None, false;
    if launched {
      code, failed := w.Poll();
    }
  }

  /** The report of a run: a failed close or poll makes the outcome a failure, and a failed poll drops the proof. */
  method MakeResult(w: World, named: Outcome, proved: bool, launched: bool) returns (r: Report)
    requires w.Valid() && Supported(w, named)
    requires proved ==> Proved(w, w.started)
    requires named != BoundaryFailure ==> proved && launched
    modifies w`now, w`status, w`queue, w`faults, w`polls, w`reaped, w`early, w.transcript, w.stderr
    ensures w.Valid() && Sound(w, r) && Supported(w, r.outcome) && w.Passed(0.0, 2.0 * w.lag)
    ensures (old(w.transcript.failed) ==> w.transcript.failed) && (old(w.stderr.failed) ==> w.stderr.failed)
    ensures r.outcome == if w.faults == old(w.faults) then named else BoundaryFailure
    ensures old(w.faults) <= w.faults
    ensures r.cleanupProved ==> proved
    ensures proved && !r.cleanupProved ==> w.faults > old(w.faults)
    ensures launched && w.faults == old(w.faults) ==> r.exitStatus == w.status
  {
    var closed, code, failed := Settle(w, named, proved, launched);
    r := Report(if closed && !failed then named else BoundaryFailure, code, w.transcript.stored, w.stderr.stored,
                proved && !failed);
    hide World.Valid, Drain.Valid, World.Now, Kept, Sound, Clean;
    SupportedIsSound(w, r);
  }

  /** Ask for the control group once, and see whether the launcher is still there if it is not known yet. */
  method AskPath(w: World, timeout: real) returns (q: Query, over: bool)
    requires w.Valid() && 0.0 <= timeout
    modifies w`now, w`status, w`queue, w`queries, w`faults, w`polls, w`reaped, w`early, w.transcript, w.stderr
    ensures w.Valid() && w.Passed(0.0, timeout + 2.0 * w.lag) && w.faults >= old(w.faults)
    ensures |w.queries| == |old(w.queries)| + 1 && w.queries[..|old(w.queries)|] == old(w.queries)
    ensures w.queries[|old(w.queries)|].0 == q && w.now <= w.queries[|old(w.queries)|].1 + w.lag
    ensures q == QueryFailed ==> w.faults > old(w.faults)
    ensures over ==> q == Missing && (w.faults > old(w.faults) || (w.signals == [] ==> w.early))
    ensures !over && q != QueryFailed ==> w.faults == old(w.faults)
  {
    hide World.Valid, World.Now, Kept;
    w.LagIsNatural();
    KeptChains();
    q := w.QueryPath(timeout);
    over := false;
    if q == Missing {
      var code, failed := w.Poll();
      over := failed || code.Some?;
    }
  }

  /**
   * Ask for the control group until it is known, the launcher is gone, a call fails, or the time is up. It is known
   * exactly when some answer said where it is, and otherwise it is lost or a call failed.
   */
  method FindPath(w: World, deadline: real, grace: real) returns (path: bool, failed: bool)
    requires w.Valid() && 0.0 < grace && w.signals == [] && w.queries == [] && w.launchedAt == w.now
    modifies w`now, w`status, w`queue, w`queries, w`faults, w`polls, w`reaped, w`early, w.transcript, w.stderr
    ensures w.Valid() && w.Passed(0.0, MaxReal(0.0, deadline - old(w.now)) + POLL + 3.0 * w.lag)
    ensures w.faults > old(w.faults) ==> failed
    ensures path ==> !failed && w.faults == old(w.faults)
    ensures path <==> exists q :: q in w.queries && q.0 == Found
    ensures path ==> w.queries != [] && w.now <= w.queries[|w.queries| - 1].1 + POLL + 2.0 * w.lag
    ensures !path && w.faults == old(w.faults) ==> Lost(w, deadline)
    ensures !path && !failed ==> deadline <= w.now && w.faults == old(w.faults)
    ensures failed && w.faults == old(w.faults) ==> w.early
  {
    hide World.Valid, World.Now, Kept;
    w.LagIsNatural();
    KeptChains();
    path, failed := false, false;
    while !path
      invariant w.Valid() && w.Passed(0.0, MaxReal(0.0, deadline - old(w.now)) + POLL + 3.0 * w.lag)
      invariant w.faults == old(w.faults) && !failed
      invariant path <==> exists q :: q in w.queries && q.0 == Found
      invariant w.now <= POLL + 2.0 * w.lag + if w.queries == [] then w.launchedAt else w.queries[|w.queries| - 1].1
      decreases if path then -1 else Ticks(deadline - w.now)
    {
      var remaining := deadline - w.now;
      if remaining <= 0.0 {
        return false, false;
      }
      var q, over := AskPath(w, if grace < remaining then grace else remaining);
      if q == QueryFailed || over {
        return false, true;
      }
      path := q == Found;
      w.Sleep(if POLL < remaining then POLL else remaining);
    }
  }

  /** How a run is named that ended by itself. */
  function EndedAs(s: Scene): Outcome {
    if s.transcript.exceeded then TranscriptLimit else if s.stderr.exceeded then StderrLimit else Completed
  }

  /** The launcher and both drains have ended: how the run ended, if the scope is found empty where that matters. */
  method Ending(w: World) returns (pending: Option<Outcome>, failed: bool)
    requires w.Valid() && w.started == 2 && w.faults == 0 && w.Drained(2) && w.overdue == []
    modifies w`now, w`status, w`queue, w`faults, w`polls, w`reaped, w`early, w`checks, w`readings,
             w.transcript, w.stderr
    ensures w.Valid() && Quietly(w) && w.Passed(0.0, 2.0 * w.lag)
    ensures failed <==> pending == Some(BoundaryFailure)
    ensures failed <==> w.faults > 0 || w.transcript.failed || w.stderr.failed
    ensures !failed ==>
              var empty := |w.readings| > |old(w.readings)| && w.readings[|w.readings| - 1].0 == Empty;
              pending == if w.transcript.exceeded || w.stderr.exceeded || empty then Some(EndedAs(w.Now())) else None
    ensures pending.None? ==> Unfinished(w.Now(), old(w.now), w.now)
    ensures pending == Some(Completed) ==> Supported(w, Completed)
  {
    hide World.Valid, Drain.Valid, Proved;
    w.LagIsNatural();
    if w.transcript.failed || w.stderr.failed {
      return Some(BoundaryFailure), true;
    }
    if w.transcript.exceeded {
      return Some(TranscriptLimit), false;
    }
    if w.stderr.exceeded {
      return Some(StderrLimit), false;
    }
    var proved;
    proved, failed := CleanupNow(w, true, 2);
    pending := if failed then Some(BoundaryFailure) else if proved then Some(Completed) else None;
  }

  /** What ended the watch is really the case. */
  ghost predicate Witnessed(w: World, pending: Outcome, failed: bool, deadline: real)
    reads w, w.transcript, w.stderr
  {
    && (pending == BoundaryFailure || w.faults > 0 ==> failed)
    && (failed ==> w.faults > 0 || w.transcript.failed || w.stderr.failed)
    && (pending == TimedOut ==> deadline <= w.now)
    && (pending == Completed ==> !failed && Supported(w, Completed))
    && (pending == TranscriptLimit ==> w.transcript.exceeded)
    && (pending == StderrLimit ==> w.stderr.exceeded)
  }

  /**
   * The look `n` at the queue decides the outcome: the first event waiting there does. If none is waiting it is the
   * deadline, once that has passed, and otherwise the end that the run has come to.
   */
  predicate Decides(s: Scene, gets: seq<(Option<Outcome>, real)>, n: nat, outcome: Outcome, deadline: real) {
    && n < |gets|
    && match gets[n].0
       case Some(event) => outcome == event
       case None =>
         && n == |gets| - 1
         && if deadline <= gets[n].1 then outcome == TimedOut
            else s.transcript.finished && s.stderr.finished && outcome == EndedAs(s)
  }

  /** The first `m` looks found nothing in the queue, before the deadline, and the run unfinished; and none was late. */
  predicate Watched(s: Scene, gets: seq<(Option<Outcome>, real)>, m: nat, deadline: real, lag: real) {
    && m <= |gets|
    && forall i: nat | i < m ::
         && gets[i].0.None? && gets[i].1 < deadline && Unfinished(s, gets[i].1, gets[i].1 + 3.0 * lag)
         && (i + 1 < |gets| ==> gets[i + 1].1 <= gets[i].1 + POLL + 4.0 * lag)
  }

  /** The outcome is the one the first decisive look gave. */
  ghost predicate Settled(s: Scene, gets: seq<(Option<Outcome>, real)>, outcome: Outcome, deadline: real, lag: real) {
    exists n: nat :: Watched(s, gets, n, deadline, lag) && Decides(s, gets, n, outcome, deadline)
  }

  lemma WatchedStays(a: Scene, b: Scene, gets: seq<(Option<Outcome>, real)>, m: nat, deadline: real, lag: real)
    requires Watched(a, gets, m, deadline, lag) && Kept(a, b)
    ensures Watched(b, gets, m, deadline, lag)
  {
    hide Unfinished, Kept;
    forall i: nat | i < m ensures Unfinished(b, gets[i].1, gets[i].1 + 3.0 * lag) {
      UnfinishedStays(a, b, gets[i].1, gets[i].1 + 3.0 * lag, gets[i].1 + 3.0 * lag);
    }
  }

  lemma SettledStays(a: Scene, b: Scene, gets: seq<(Option<Outcome>, real)>, outcome: Outcome, deadline: real,
                     lag: real)
    requires Settled(a, gets, outcome, deadline, lag) && Kept(a, b)
    ensures Settled(b, gets, outcome, deadline, lag)
  {
    hide Watched;
    var n: nat :| Watched(a, gets, n, deadline, lag) && Decides(a, gets, n, outcome, deadline);
    WatchedStays(a, b, gets, n, deadline, lag);
    assert Decides(b, gets, n, outcome, deadline);
  }

  /** Every look so far was watched, and now comes the next one, in time. */
  lemma WatchedNext(a: Scene, b: Scene, gets: seq<(Option<Outcome>, real)>, more: seq<(Option<Outcome>, real)>,
                    deadline: real, lag: real)
    requires Watched(a, gets, |gets|, deadline, lag) && Kept(a, b) && gets < more
    requires gets != [] ==> more[|gets|].1 <= gets[|gets| - 1].1 + POLL + 4.0 * lag
    ensures Watched(b, more, |gets|, deadline, lag)
  {
    hide Unfinished, Kept;
    WatchedStays(a, b, gets, |gets|, deadline, lag);
    assert forall i: nat | i < |gets| :: more[i] == gets[i];
  }

  /** Look once at everything that can end the run. */
  method Watch(w: World, deadline: real) returns (pending: Option<Outcome>, failed: bool)
    requires w.Valid() && w.started == 2 && w.faults == 0 && w.overdue == []
    modifies w`now, w`status, w`queue, w`gets, w`faults, w`polls, w`reaped, w`early, w`checks, w`readings,
             w.transcript, w.stderr
    ensures w.Valid() && Quietly(w) && w.Passed(0.0, 3.0 * w.lag)
    ensures old(w.gets) < w.gets && w.gets[|old(w.gets)|].1 == old(w.now)
    ensures if pending.Some? then
              && Witnessed(w, pending.value, failed, deadline)
              && (!failed ==> Decides(w.Now(), w.gets, |old(w.gets)|, pending.value, deadline))
            else
              && !failed && w.faults == 0 && old(w.now) < deadline && Unfinished(w.Now(), old(w.now), w.now)
              && w.gets == old(w.gets) + [(None, old(w.now))]
  {
    hide World.Valid, Drain.Valid, Kept, Supported, Unfinished;
    w.LagIsNatural();
    KeptChains();
    pending := NextEvent(w);
    if pending.Some? {
      return pending, pending.value == BoundaryFailure;
    }
    if w.now >= deadline {
      return Some(TimedOut), false;
    }
    pending, failed := Inspect(w);
  }

  /** No event is waiting: has the run ended by itself? */
  method Inspect(w: World) returns (pending: Option<Outcome>, failed: bool)
    requires w.Valid() && w.started == 2 && w.faults == 0 && w.overdue == []
    modifies w`now, w`status, w`queue, w`faults, w`polls, w`reaped, w`early, w`checks, w`readings,
             w.transcript, w.stderr
    ensures w.Valid() && Quietly(w) && w.Passed(0.0, 3.0 * w.lag)
    ensures failed <==> pending == Some(BoundaryFailure)
    ensures failed ==> w.faults > 0 || w.transcript.failed || w.stderr.failed
    ensures w.faults > 0 ==> failed
    ensures !failed && pending.Some? ==> w.Drained(2) && pending == Some(EndedAs(w.Now()))
    ensures pending.None? ==> Unfinished(w.Now(), old(w.now), w.now)
    ensures pending == Some(Completed) ==> Supported(w, Completed)
  {
    hide World.Valid, Drain.Valid, Supported;
    w.LagIsNatural();
    KeptChains();
    var done;
    done, failed := ExecutionFinished(w, 2);
    if failed {
      return Some(BoundaryFailure), true;
    }
    pending := None;
    if done {
      pending, failed := Ending(w);
    }
  }

  /**
   * Watch the client until an event, the deadline, a fault, or its proven end. The first look comes at once, and each
   * one soon after the one before.
   */
  method Supervise(w: World, deadline: real) returns (pending: Outcome, failed: bool)
    requires w.Valid() && w.started == 2 && w.faults == 0 && w.overdue == [] && w.gets == []
    modifies w`now, w`status, w`queue, w`gets, w`faults, w`polls, w`reaped, w`early, w`checks, w`readings,
             w.transcript, w.stderr
    ensures w.Valid() && Quietly(w) && Witnessed(w, pending, failed, deadline)
    ensures !failed ==> Settled(w.Now(), w.gets, pending, deadline, w.lag)
    ensures w.gets != [] && w.gets[0].1 == old(w.now)
    ensures w.Passed(0.0, MaxReal(0.0, deadline - old(w.now)) + 7.0 * w.lag)
  {
    hide World.Valid, Drain.Valid, World.Now, Kept, Witnessed, Watched, Decides, Unfinished;
    w.LagIsNatural();
    KeptChains();
    NothingWatched(w.Now(), deadline, w.lag);
    while true
      invariant w.Valid() && Quietly(w) && w.started == 2 && w.faults == 0
      invariant w.Passed(0.0, MaxReal(0.0, deadline - old(w.now)) + 4.0 * w.lag)
      invariant Watched(w.Now(), w.gets, |w.gets|, deadline, w.lag)
      invariant if w.gets == [] then w.now == old(w.now)
                else w.gets[0].1 == old(w.now) && w.now <= w.gets[|w.gets| - 1].1 + POLL + 4.0 * w.lag
      decreases if w.now < deadline then Ticks(deadline - w.now) else 0
    {
      ghost var before, gets := w.Now(), w.gets;
      var event;
      event, failed := Watch(w, deadline);
      WatchedNext(before, w.Now(), gets, w.gets, deadline, w.lag);
      if event.Some? {
        return event.value, failed;
      }
      LookedOnce(w.Now(), gets, w.gets, deadline, w.lag, w.now);
      ghost var looked := w.Now();
      var remaining := deadline - w.now;
      if remaining > 0.0 {
        w.Sleep(if POLL < remaining then POLL else remaining);
      }
      WatchedStays(looked, w.Now(), w.gets, |w.gets|, deadline, w.lag);
    }
  }

  lemma NothingWatched(s: Scene, deadline: real, lag: real)
    ensures Watched(s, [], 0, deadline, lag)
  {
  }

  lemma LookedOnce(s: Scene, gets: seq<(Option<Outcome>, real)>, more: seq<(Option<Outcome>, real)>, deadline: real,
                   lag: real, now: real)
    requires |more| == |gets| + 1 && Watched(s, more, |gets|, deadline, lag)
    requires var last := more[|gets|];
             last.0.None? && last.1 < deadline && Unfinished(s, last.1, now) && now <= last.1 + 3.0 * lag
    ensures Watched(s, more, |more|, deadline, lag)
  {
    UnfinishedStays(s, s, more[|gets|].1, now, more[|gets|].1 + 3.0 * lag);
  }

  /** Time beyond the runtime limit that a run may take. */
  function RunSlack(grace: real, lag: real): real {
    StopTime(grace, lag) + 2.0 * POLL + 14.0 * lag
  }

  /** What makes a run with a known group and two drains a boundary failure. */
  ghost predicate Spoiled(w: World, grace: real)
    reads w, w.transcript, w.stderr
  {
    w.faults > 0 || w.transcript.failed || w.stderr.failed || Unclean(w, grace)
  }

  /** Stop the client, and decide whether the reason for it may still be named. */
  method StopNamed(w: World, pending: Outcome, failed: bool, deadline: real, grace: real)
    returns (named: Outcome, proved: bool)
    requires w.Valid() && 0.0 < grace && w.started == 2 && Witnessed(w, pending, failed, deadline)
    requires pending != Completed && w.signals == [] && w.hits == [] && w.overdue == []
    modifies w`now, w`status, w`queue, w`faults, w`polls, w`reaped, w`early, w`checks, w`hits, w`overdue,
             w`readings, w`signals, w.transcript, w.stderr
    ensures w.Valid() && Escalates(w, grace) && w.Passed(0.0, StopTime(grace, w.lag))
    ensures named == if Spoiled(w, grace) then BoundaryFailure else pending
    ensures failed || pending == BoundaryFailure ==> Spoiled(w, grace)
    ensures Supported(w, named) && (proved ==> Proved(w, 2)) && (named != BoundaryFailure ==> proved)
    ensures w.faults == 0 ==> (proved <==> !Unclean(w, grace))
    ensures old(w.faults) <= w.faults
  {
    hide World.Valid, Drain.Valid, Escalates, Unclean, Clean;
    w.LagIsNatural();
    var stopFailed;
    proved, stopFailed := StopAndProve(w, true, 2, grace);
    var boundary := failed || stopFailed || !proved || w.transcript.failed || w.stderr.failed;
    named := if boundary then BoundaryFailure else pending;
    if Clean(w) {
      CleanIsNotUnclean(w, grace);
    }
  }

  /** Supervise a client whose streams are being drained, and stop it if it did not end by itself. */
  method Conclude(w: World, deadline: real, grace: real) returns (r: Report)
    requires w.Valid() && 0.0 < grace && w.started == 2 && w.faults == 0 && w.signals == []
    requires w.hits == [] && w.overdue == [] && w.gets == []
    modifies w`now, w`status, w`queue, w`gets, w`faults, w`polls, w`reaped, w`early, w`checks, w`hits, w`overdue,
             w`readings, w`signals, w.transcript, w.stderr
    ensures w.Valid() && Sound(w, r) && Escalates(w, grace)
    ensures r.outcome == BoundaryFailure <==> Spoiled(w, grace)
    ensures Telling(w, r, true, grace)
    ensures r.outcome != BoundaryFailure ==> Settled(w.Now(), w.gets, r.outcome, deadline, w.lag)
    ensures w.gets != [] && w.gets[0].1 == old(w.now)
    ensures r.outcome == Completed ==> w.signals == []
    ensures r.outcome == TimedOut ==> deadline <= w.now
    ensures w.Passed(0.0, MaxReal(0.0, deadline - old(w.now)) + POLL + 10.0 * w.lag + StopTime(grace, w.lag))
  {
    hide World.Valid, Drain.Valid, World.Now, Kept, Proved, Sound, GaveUp, Seen, Settled;
    w.LagIsNatural();
    KeptChains();
    var named, failed := Supervise(w, deadline);
    ghost var pending, before := named, w.Now();
    var proved := named == Completed;
    if named != Completed {
      hide Escalates;
      named, proved := StopNamed(w, named, failed, deadline, grace);
    }
    r := MakeResult(w, named, proved, true);
    if r.outcome != BoundaryFailure {
      SettledStays(before, w.Now(), w.gets, pending, deadline, w.lag);
    }
  }

  /** Stop a client that could not be supervised; the report is a boundary failure. */
  method Abandon(w: World, path: bool, grace: real) returns (r: Report)
    requires w.Valid() && 0.0 < grace && w.signals == [] && w.hits == [] && w.overdue == []
    modifies w`now, w`status, w`queue, w`faults, w`polls, w`reaped, w`early, w`checks, w`hits, w`overdue,
             w`readings, w`signals, w.transcript, w.stderr
    ensures w.Valid() && Sound(w, r) && Escalates(w, grace) && r.outcome == BoundaryFailure
    ensures !path ==> !r.cleanupProved
    ensures Telling(w, r, path, grace)
    ensures old(w.faults) <= w.faults
    ensures w.Passed(0.0, StopTime(grace, w.lag) + 2.0 * w.lag)
  {
    hide World.Valid, Drain.Valid, World.Now, Kept, Sound, Escalates, Unclean, Clean;
    w.LagIsNatural();
    KeptChains();
    assert Supported(w, BoundaryFailure);
    var proved, stopFailed := StopAndProve(w, path, w.started, grace);
    if proved {
      CleanIsNotUnclean(w, grace);
    }
    r := MakeResult(w, BoundaryFailure, proved, true);
  }

  /** Start the two drain threads, the second only if the first one started. */
  method StartThreads(w: World)
    requires w.Valid() && w.started == 0
    modifies w`started, w`faults
    ensures w.Valid() && w.started <= 2 && old(w.faults) <= w.faults
    ensures w.started < 2 ==> w.faults > old(w.faults)
    ensures w.started == 2 ==> w.faults == old(w.faults)
  {
    var ok := w.StartThread();
    if ok {
      ok := w.StartThread();
    }
  }

  /** What the runner refuses before it does anything. */
  predicate Refused(emptyCommand: bool, limits: Limits) {
    emptyCommand || limits.runtime > MAX_RUNTIME || limits.grace > MAX_GRACE || limits.streamBytes > MAX_STREAM
  }

  /** The outcome is settled by looks that began right after the group was known. */
  ghost predicate Attended(w: World, outcome: Outcome, deadline: real)
    reads w, w.transcript, w.stderr
  {
    && Settled(w.Now(), w.gets, outcome, deadline, w.lag)
    && w.gets != [] && w.queries != [] && w.gets[0].1 <= w.queries[|w.queries| - 1].1 + POLL + 2.0 * w.lag
  }

  /** Drain the output of a client whose group was looked for, and see it to its end. */
  method Accompany(w: World, path: bool, deadline: real, grace: real) returns (r: Report)
    requires w.Valid() && 0.0 < grace && w.started == 0 && (path ==> w.faults == 0)
    requires w.signals == [] && w.hits == [] && w.overdue == [] && w.gets == []
    requires path <==> exists q :: q in w.queries && q.0 == Found
    requires path ==> w.queries != [] && w.now <= w.queries[|w.queries| - 1].1 + POLL + 2.0 * w.lag
    requires !path ==> w.faults > 0 || Lost(w, deadline)
    modifies w`now, w`status, w`queue, w`gets, w`faults, w`polls, w`reaped, w`early, w`checks, w`hits, w`overdue,
             w`readings, w`signals, w`started, w.transcript, w.stderr
    ensures w.Valid() && Sound(w, r) && Escalates(w, grace)
    ensures r.outcome == BoundaryFailure <==> Broken(w, deadline, grace)
    ensures Telling(w, r, exists q :: q in w.queries && q.0 == Found, grace)
    ensures r.outcome != BoundaryFailure ==> Attended(w, r.outcome, deadline)
    ensures r.outcome == Completed ==> w.signals == []
    ensures r.outcome == TimedOut ==> deadline <= w.now
    ensures w.now <= MaxReal(old(w.now), deadline) + POLL + 10.0 * w.lag + StopTime(grace, w.lag)
  {
    hide World.Valid, World.Now, Kept, Proved, Clean, Unclean, Sound, Escalates, Settled;
    w.LagIsNatural();
    if !w.pipes {
      r := Abandon(w, path, grace);
      return;
    }
    StartThreads(w);
    if w.started < 2 || !path {
      r := Abandon(w, path, grace);
    } else {
      r := Conclude(w, deadline, grace);
    }
  }

  /** The client has been started: find its group, drain its output, and see it to its end. */
  method Attend(w: World, deadline: real, grace: real) returns (r: Report)
    requires w.Valid() && 0.0 < grace && w.launchedAt == w.now && w.started == 0 && w.faults == 0
    requires w.signals == [] && w.queries == [] && w.hits == [] && w.overdue == [] && w.gets == []
    modifies w, w.transcript, w.stderr
    ensures w.Valid() && Sound(w, r) && Escalates(w, grace)
    ensures r.outcome == BoundaryFailure <==> Broken(w, deadline, grace)
    ensures Telling(w, r, exists q :: q in w.queries && q.0 == Found, grace)
    ensures r.outcome != BoundaryFailure ==> Attended(w, r.outcome, deadline)
    ensures r.outcome == Completed ==> w.signals == []
    ensures r.outcome == TimedOut ==> deadline <= w.now
    ensures w.now <= MaxReal(old(w.now), deadline) + RunSlack(grace, w.lag) - w.lag
  {
    hide World.Valid, World.Now, Kept, Broken, Sound, Escalates, Attended;
    w.LagIsNatural();
    var path, _ := FindPath(w, deadline, grace);
    r := Accompany(w, path, deadline, grace);
  }

  /**
   * One bounded run. Whatever the client, the launcher, the scope and the control group do, the report is sound, it is
   * a boundary failure exactly when something in the world broke, the scope is signalled with TERM before KILL, and the
   * run ends within its runtime limit and a fixed slack.
   */
  method RunBoundedAgent(w: World, emptyCommand: bool, limits: Limits) returns (r: Report)
    requires w.Valid() && w.Untouched()
    requires 0.0 < limits.runtime && 0.0 < limits.grace
    requires w.transcript.limit == w.stderr.limit == limits.streamBytes
    requires w.transcript.file == [] && w.stderr.file == []
    modifies w, w.transcript, w.stderr
    ensures w.Valid() && Sound(w, r) && Escalates(w, limits.grace)
    ensures Refused(emptyCommand, limits) ==> r == Report(BoundaryFailure, None, 0, 0, false) && w.signals == []
    ensures !Refused(emptyCommand, limits) ==>
              && (r.outcome == BoundaryFailure <==> Broken(w, old(w.now) + limits.runtime, limits.grace))
              && Telling(w, r, exists q :: q in w.queries && q.0 == Found, limits.grace)
    ensures r.outcome != BoundaryFailure ==> Attended(w, r.outcome, old(w.now) + limits.runtime)
    ensures r.outcome == Completed ==> w.signals == []
    ensures r.outcome == TimedOut ==> old(w.now) + limits.runtime <= w.now
    ensures w.now <= old(w.now) + limits.runtime + RunSlack(limits.grace, w.lag)
  {
    hide World.Valid, World.Now, Kept, Refused, Proved, GaveUp, Seen, Attended;
    w.LagIsNatural();
    KeptChains();
    if Refused(emptyCommand, limits) {
      return Report(BoundaryFailure, None, 0, 0, false);
    }
    var deadline := w.now + limits.runtime;
    var launched := w.Launch();
    if !launched {
      assert Supported(w, BoundaryFailure);
      r := MakeResult(w, BoundaryFailure, false, false);
    } else {
      r := Attend(w, deadline, limits.grace);
    }
  }
}
