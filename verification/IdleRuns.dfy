/** What the answers of the idle gate mean over whole runs. */
module IdleRuns {
  import opened Wrappers
  import opened Activity
  import opened IdleGate

  /** The answer to sample `k` of the run `h`, all of it before the deadline. */
  ghost function AnswerAt(minWait: int, deadline: real, h: seq<Obs>, k: nat): Verdict
    requires k < |h|
  {
    VerdictAfter(minWait, deadline, h[..k], h[k])
  }

  predicate Live(deadline: real, h: seq<Obs>) {
    forall k: nat | k < |h| :: h[k].now < deadline
  }

  predicate ClockMonotone(h: seq<Obs>) {
    forall i: nat, j: nat | i <= j < |h| :: h[i].now <= h[j].now
  }

  /** Sample `k` is idle with the generations of sample `w`, or it is unknown and was answered defer-unknown. */
  ghost predicate QuietSample(minWait: int, deadline: real, h: seq<Obs>, w: nat, k: nat)
    requires w < |h| && k < |h|
  {
    if AnswerAt(minWait, deadline, h, k).DeferUnknown? then h[k].state.Unknown?
    else h[k].state.Idle? && SameGenerations(h[k], h[w])
  }

  /**
   * Samples `w` to the last form a quiet span: `w` is idle and sees an advanced health clock, the last one is idle
   * at least `minWait` later, and every sample between them is a quiet one.
   */
  ghost predicate QuietSpan(minWait: int, deadline: real, h: seq<Obs>, w: nat) {
    && w + 1 < |h|
    && h[w].state.Idle? && h[|h| - 1].state.Idle?
    && Advanced(h[..w + 1])
    && h[|h| - 1].now - h[w].now >= minWait as real
    && forall k: nat | w <= k < |h| :: QuietSample(minWait, deadline, h, w, k)
  }

  lemma DeferredIffDefersUnknown(minWait: int, deadline: real, h: seq<Obs>, k: nat)
    requires k < |h| && h[k].now < deadline
    ensures AnswerAt(minWait, deadline, h, k).DeferUnknown? <==> DefersUnknown(h[..k + 1])
    ensures DefersUnknown(h[..k + 1]) ==> h[k].state.Unknown?
  {
    assert h[..k] + [h[k]] == h[..k + 1];
  }

  lemma WindowSamplesQuiet(minWait: int, deadline: real, h: seq<Obs>, w: nat, k: nat)
    requires w <= k < |h| && h[k].now < deadline && Window(h, w)
    ensures QuietSample(minWait, deadline, h, w, k)
  {
    assert Opens(h, w);
    assert k > w ==> Carries(h, w, k);
    DeferredIffDefersUnknown(minWait, deadline, h, k);
  }

  lemma ReadyIsRipe(minWait: int, deadline: real, h: seq<Obs>) returns (w: nat)
    requires h != [] && AnswerAt(minWait, deadline, h, |h| - 1) == Ready
    ensures Ripe(minWait, h, w, true)
  {
    assert h[..|h| - 1] + [h[|h| - 1]] == h;
    w :| Ripe(minWait, h, w, true);
  }

  /** The gate answers ready only at the end of a quiet span. */
  lemma ReadyMeansQuiet(minWait: int, deadline: real, h: seq<Obs>)
    requires 1 <= minWait && h != [] && Live(deadline, h)
    requires AnswerAt(minWait, deadline, h, |h| - 1) == Ready
    ensures exists w: nat :: Window(h, w) && QuietSpan(minWait, deadline, h, w)
  {
    hide VerdictAfter, DefersUnknown;
    var w := ReadyIsRipe(minWait, deadline, h);
    assert Opens(h, w);
    forall k: nat | w <= k < |h| {
      WindowSamplesQuiet(minWait, deadline, h, w, k);
    }
  }

  /** A run in which a structural unknown inside the window did not drop it. */
  function DeferredRun(): seq<Obs> {
    [ Obs(0.0, Idle, 0, 0, Some(1), None),
      Obs(5.0, Idle, 0, 0, Some(2), None),
      Obs(10.0, Unknown, 0, 0, None, Some(Coverage)),
      Obs(310.0, Idle, 0, 0, Some(3), None),
      Obs(311.0, Idle, 0, 0, Some(4), None) ]
  }

  /** The gate can answer ready across a sample it answered defer-unknown: the deferring return keeps the window. */
  lemma ReadyAcrossDeferral()
    ensures AnswerAt(300, 1000.0, DeferredRun(), 2) == DeferUnknown
    ensures AnswerAt(300, 1000.0, DeferredRun(), 4) == Ready
  {
    var h := DeferredRun();
    var m0 := Memory(None, false, None, None, false, None);
    assert Remembers(300, h[..0], m0) && h[..0] == [];
    assert |h| == 5 && h[0].health == Some(1) && h[1].health == Some(2) && h[2].reason == Some(Coverage);
    hide VerdictAfter, Remembers;
    var m1 := StepOf(h, 0, m0);
    assert m1 == m0.(baseTs := Some(1));
    var m2 := StepOf(h, 1, m1);
    assert m2 == m1.(advanced := true, quietSince := Some(5.0), quietGens := Some((0, 0)));
    var m3 := StepOf(h, 2, m2);
    assert m3 == m2.(unknownSince := Some(10.0));
    var m4 := StepOf(h, 3, m3);
    assert m4 == m2.(resampling := true);
    var m5 := StepOf(h, 4, m4);
  }

  lemma StepOf(h: seq<Obs>, k: nat, m: Memory) returns (m': Memory)
    requires k < |h| && h[k].now < 1000.0 && Remembers(300, h[..k], m)
    ensures (m', AnswerAt(300, 1000.0, h, k)) == Next(300, 1000.0, m, h[k])
    ensures Remembers(300, h[..k + 1], m')
  {
    NextRemembers(300, 1000.0, h[..k], m, h[k]);
    assert h[..k] + [h[k]] == h[..k + 1];
    m' := Next(300, 1000.0, m, h[k]).0;
  }

  /** The sample right after a resample answer is never answered resample. */
  lemma ResampleOnlyOnce(minWait: int, deadline: real, h: seq<Obs>, o: Obs, p: Obs)
    requires 1 <= minWait
    requires VerdictAfter(minWait, deadline, h, o) == Resample
    ensures VerdictAfter(minWait, deadline, h + [o], p) != Resample
  {
    var g := h + [o];
    var w: nat :| Ripe(minWait, g, w, false);
    if p.now < deadline {
      StepOpen(minWait, deadline, g, p, w);
      assert Matured(minWait, g, w, |g| - 1);
    }
  }

  /**
   * On a monotonic clock the sample before a ready one was answered resample, ready or defer-unknown: the first ready
   * of a window that was never answered defer-unknown comes right after its resample.
   */
  lemma ReadyFollowsResample(minWait: int, deadline: real, h: seq<Obs>, o: Obs, p: Obs)
    requires 1 <= minWait && ClockMonotone(h + [o]) && o.now < deadline
    requires VerdictAfter(minWait, deadline, h + [o], p) == Ready
    ensures VerdictAfter(minWait, deadline, h, o) in {Resample, Ready, DeferUnknown}
  {
    var g := h + [o];
    var w: nat :| Ripe(minWait, g + [p], w, true);
    assert p.now < deadline;
    assert Window(g, w) by {
      var k: nat :| Matured(minWait, g + [p], w, k) && k < |g|;
      assert (g + [p])[..|g|] == g;
      WindowPrefix(g + [p], w, |g|);
    }
    ReadyFollowsWithin(minWait, deadline, h, o, p, w);
  }

  lemma ReadyFollowsWithin(minWait: int, deadline: real, h: seq<Obs>, o: Obs, p: Obs, w: nat)
    requires 1 <= minWait && ClockMonotone(h + [o]) && o.now < deadline && p.now < deadline
    requires Window(h + [o], w) && VerdictAfter(minWait, deadline, h + [o], p) == Ready
    ensures VerdictAfter(minWait, deadline, h, o) in {Resample, Ready, DeferUnknown}
  {
    hide VerdictAfter;
    var g := h + [o];
    assert g[..|h|] == h && g[..|h| + 1] == g;
    StepOpen(minWait, deadline, g, p, w);
    var k: nat :| Matured(minWait, g, w, k);
    assert g[k].now <= g[|h|].now;
    WindowPrefix(g, w, |h|);
    assert Carries(g, w, |h|);
    StepOpen(minWait, deadline, h, o, w);
  }

  /** After sample `j` of a stably idle tail, a window with the tail's generations is open, or it is too early. */
  ghost predicate TailOpen(p: seq<Obs>, q: seq<Obs>, start: nat, j: nat)
    requires j < |q|
  {
    var g := p + q[..j + 1];
    if exists w: nat :: Window(g, w) then
      exists w: nat :: Window(g, w) && w <= |p| + start && SameGenerations(g[w], q[0])
    else j < start
  }

  /** One more idle sample with the tail's generations carries an open window on, or closes a stale one. */
  lemma TailCarries(minWait: int, deadline: real, p: seq<Obs>, q: seq<Obs>, start: nat, j: nat, w: nat)
    requires j < |q| && q[j].state.Idle? && SameGenerations(q[j], q[0]) && q[j].now < deadline
    requires Window(p + q[..j], w) && 1 <= start
    requires j > 0 ==> w <= |p| + start && SameGenerations((p + q[..j])[w], q[0])
    ensures TailOpen(p, q, start, j)
  {
    hide VerdictAfter, Matured;
    var h, o, g := p + q[..j], q[j], p + q[..j + 1];
    assert g == h + [o] && g[|h|] == o && g[..|h| + 1] == g;
    DeferredIffDefersUnknown(minWait, deadline, g, |h|);
    StepOpen(minWait, deadline, h, o, w);
    assert Carries(g, w, |h|) <==> SameGenerations(g[w], q[0]);
  }

  /** With no window open, one more idle sample opens one as soon as the health clock has advanced. */
  lemma TailStarts(minWait: int, deadline: real, p: seq<Obs>, q: seq<Obs>, a: nat, start: nat, j: nat)
    requires j < |q| && q[j].state.Idle? && SameGenerations(q[j], q[0]) && q[j].now < deadline
    requires a <= start < |q| && Advanced(p + q[..a + 1])
    requires Closed(p + q[..j]) && j <= start
    ensures TailOpen(p, q, start, j)
  {
    hide VerdictAfter, Matured;
    var h, o, g := p + q[..j], q[j], p + q[..j + 1];
    assert g == h + [o] && g[|h|] == o;
    if j >= start {
      assert g[..|p| + a + 1] == p + q[..a + 1];
      AdvancedStays(g, |p| + a + 1);
    }
    StepClosed(minWait, deadline, h, o);
  }

  lemma {:induction false} TailOpens(minWait: int, deadline: real, p: seq<Obs>, q: seq<Obs>, a: nat, start: nat, j: nat)
    requires 1 <= minWait && j < |q| && a <= start && 1 <= start < |q|
    requires forall k: nat | k < |q| :: q[k].state.Idle? && SameGenerations(q[k], q[0]) && q[k].now < deadline
    requires Advanced(p + q[..a + 1])
    ensures TailOpen(p, q, start, j)
  {
    hide Advanced, Opens, Carries;
    if j > 0 {
      TailOpens(minWait, deadline, p, q, a, start, j - 1);
    }
    var h := p + q[..j];
    if exists w: nat :: Window(h, w) {
      var w: nat :| Window(h, w) && (j > 0 ==> w <= |p| + start && SameGenerations(h[w], q[0]));
      TailCarries(minWait, deadline, p, q, start, j, w);
    } else {
      TailStarts(minWait, deadline, p, q, a, start, j);
    }
  }

  /**
   * Stably idle samples reach ready. After any run `p`, if the samples `q` are idle with unchanged generations, the
   * health clock has advanced by sample `a`, and sample `n` comes `minWait` after the later of `a` and the second
   * sample, then `n` is answered resample or ready and every later sample is answered ready.
   */
  lemma StableIdleReachesReady(minWait: int, deadline: real, p: seq<Obs>, q: seq<Obs>, a: nat, n: nat)
    requires 1 <= minWait && n < |q| && a < |q|
    requires forall k: nat | k < |q| :: q[k].state.Idle? && SameGenerations(q[k], q[0]) && q[k].now < deadline
    requires ClockMonotone(p + q)
    requires Advanced(p + q[..a + 1])
    requires 1 < |q| && q[n].now - q[if a < 1 then 1 else a].now >= minWait as real
    ensures VerdictAfter(minWait, deadline, p + q[..n], q[n]) in {Resample, Ready}
    ensures forall k: nat | n < k < |q| :: VerdictAfter(minWait, deadline, p + q[..k], q[k]) == Ready
  {
    var start := if a < 1 then 1 else a;
    var h := p + q;
    assert forall i: nat | i < |q| :: h[|p| + i] == q[i];
    assert h[|p| + n] == q[n] && h[|p| + start] == q[start];
    assert start < n;
    forall k: nat | n <= k < |q|
      ensures VerdictAfter(minWait, deadline, p + q[..k], q[k]) in {Resample, Ready}
      ensures k > n ==> VerdictAfter(minWait, deadline, p + q[..k], q[k]) == Ready
    {
      var g := p + q[..k];
      TailOpens(minWait, deadline, p, q, a, start, k - 1);
      var w: nat :| Window(g, w) && w <= |p| + start && SameGenerations(g[w], q[0]);
      assert g[w] == h[w] && g[w].now <= h[|p| + start].now;
      assert h[|p| + n].now <= h[|p| + k].now;
      assert (g + [q[k]])[..|g| + 1] == g + [q[k]];
      StepOpen(minWait, deadline, g, q[k], w);
      DeferredIffDefersUnknown(minWait, deadline, g + [q[k]], |g|);
      if k > n {
        assert g[|p| + n] == q[n];
        assert Matured(minWait, g, w, |p| + n);
      }
    }
  }
}
