/**
 * The idle gate of the updater. The gate keeps six fields and sees one sample at a time; what it answers is
 * stated here over the whole sequence of samples it has seen, and the two are proved to agree.
 */
module IdleGate {
  import opened Wrappers
  import opened Activity

  const UNKNOWN_BUDGET_S := 60.0

  datatype Verdict = Wait | Resample | Ready | DeferUnknown | DeferDeadline

  /** What the gate is told about one sample. */
  datatype Obs = Obs(now: real, state: State, arrivals: nat, rows: nat, health: Option<int>, reason: Option<Reason>)

  predicate SameGenerations(a: Obs, b: Obs) {
    a.arrivals == b.arrivals && a.rows == b.rows
  }

  predicate Stamped(o: Obs) {
    !o.state.Unknown? && o.health.Some?
  }

  // ---- the meaning of the gate, over a history of samples ----

  /** Sample `i` is the first that was not unknown and carried a health timestamp. */
  ghost predicate FirstStamp(h: seq<Obs>, i: nat) {
    i < |h| && Stamped(h[i]) && forall k | 0 <= k < i :: !Stamped(h[k])
  }

  /** Some later timestamp exceeds the first one. */
  ghost predicate Advanced(h: seq<Obs>) {
    exists i: nat, j: nat :: FirstStamp(h, i) && i < j < |h| && Stamped(h[j]) && h[j].health.value > h[i].health.value
  }

  /** The samples from `u` on are all unknown, and `u` is where that run begins. */
  ghost predicate UnknownRun(h: seq<Obs>, u: nat) {
    && u < |h|
    && (forall k | u <= k < |h| :: h[k].state.Unknown?)
    && (u > 0 ==> !h[u - 1].state.Unknown?)
  }

  /** The last sample is unknown for a structural reason, or closes a run of unknown samples longer than the budget. */
  ghost predicate DefersUnknown(h: seq<Obs>) {
    && h != []
    && var last := h[|h| - 1];
    && last.state.Unknown?
    && ((last.reason.None? || !Transient(last.reason.value))
        || exists u: nat :: UnknownRun(h, u) && last.now - h[u].now > UNKNOWN_BUDGET_S)
  }

  /** Sample `k` leaves a window that `w` opened open: it is idle with the same generations, or defers as unknown. */
  ghost predicate Carries(h: seq<Obs>, w: nat, k: nat)
    requires w < |h| && k < |h|
  {
    || (h[k].state.Idle? && SameGenerations(h[k], h[w]))
    || DefersUnknown(h[..k + 1])
  }

  /** Sample `w` opened a quiet window: idle, the health clock has advanced, and no window was open before it. */
  ghost predicate Opens(h: seq<Obs>, w: nat)
    decreases |h|, 0
  {
    && w < |h|
    && h[w].state.Idle?
    && Advanced(h[..w + 1])
    && Closed(h[..w])
  }

  /** The quiet window opened by sample `w` is still open after all of `h`. */
  ghost predicate Window(h: seq<Obs>, w: nat)
    decreases |h|, 1
  {
    && w < |h|
    && Opens(h, w)
    && forall k: nat | w < k < |h| :: Carries(h, w, k)
  }

  /** No quiet window is open after all of `h`. */
  ghost predicate Closed(h: seq<Obs>)
    decreases |h|, 2
  {
    forall w: nat | w < |h| :: !Window(h, w)
  }

  /** Sample `k` is an idle sample at least `minWait` after the opening sample `w`. */
  predicate Matured(minWait: int, h: seq<Obs>, w: nat, k: nat) {
    w < k < |h| && h[k].state.Idle? && h[k].now - h[w].now >= minWait as real
  }

  /** The last sample of `h` is idle, in window `w`, and late enough; `again` says an earlier one already was. */
  ghost predicate Ripe(minWait: int, h: seq<Obs>, w: nat, again: bool) {
    && h != []
    && Window(h, w)
    && Matured(minWait, h, w, |h| - 1)
    && (again <==> exists k: nat :: k < |h| - 1 && Matured(minWait, h, w, k))
  }

  /** What the gate answers to sample `o` after the samples `h`. */
  ghost function VerdictAfter(minWait: int, deadline: real, h: seq<Obs>, o: Obs): Verdict {
    var g := h + [o];
    if o.now >= deadline then DeferDeadline
    else if DefersUnknown(g) then DeferUnknown
    else if exists w: nat :: Ripe(minWait, g, w, true) then Ready
    else if exists w: nat :: Ripe(minWait, g, w, false) then Resample
    else Wait
  }

  // ---- what the fields of the gate stand for ----

  ghost predicate BaseOf(h: seq<Obs>, base: Option<int>) {
    if base.None? then forall k: nat | k < |h| :: !Stamped(h[k])
    else exists i: nat :: FirstStamp(h, i) && h[i].health == base
  }

  ghost predicate SinceOf(h: seq<Obs>, since: Option<real>) {
    if since.None? then h == [] || !h[|h| - 1].state.Unknown?
    else exists u: nat :: UnknownRun(h, u) && h[u].now == since.value
  }

  /** The window fields stand for the window opened by sample `w`. */
  ghost predicate InWindow(minWait: int, h: seq<Obs>, since: real, gens: (nat, nat), resampling: bool, w: nat) {
    && Window(h, w)
    && since == h[w].now
    && gens == (h[w].arrivals, h[w].rows)
    && (resampling <==> exists k: nat :: Matured(minWait, h, w, k))
  }

  ghost predicate WindowOf(minWait: int, h: seq<Obs>, since: Option<real>, gens: Option<(nat, nat)>, resampling: bool) {
    if since.None? || gens.None? then since.None? && gens.None? && !resampling && Closed(h)
    else exists w: nat :: InWindow(minWait, h, since.value, gens.value, resampling, w)
  }

  // ---- how the meaning grows by one sample ----

  lemma BaseGrows(h: seq<Obs>, o: Obs, base: Option<int>)
    requires BaseOf(h, base)
    ensures BaseOf(h + [o], if Stamped(o) && base.None? then o.health else base)
    ensures Advanced(h + [o]) <==>
            Advanced(h) || (Stamped(o) && base.Some? && o.health.value > base.value)
  {
    var g := h + [o];
    if base.None? {
      if Stamped(o) { assert FirstStamp(g, |h|); }
    } else {
      var i: nat :| FirstStamp(h, i) && h[i].health == base;
      assert FirstStamp(g, i);
      assert forall v: nat :: FirstStamp(g, v) ==> v == i;
      assert forall v: nat :: FirstStamp(h, v) ==> v == i;
      if Advanced(h) {
        var j: nat :| i < j < |h| && Stamped(h[j]) && h[j].health.value > h[i].health.value;
        assert g[j] == h[j];
      }
      if Stamped(o) && o.health.value > base.value { assert g[|h|] == o; }
    }
    if Advanced(g) {
      var i: nat, j: nat :| FirstStamp(g, i) && i < j < |g| && Stamped(g[j]) && g[j].health.value > g[i].health.value;
      assert FirstStamp(h, i);
      if j < |h| { assert g[j] == h[j]; }
    }
  }

  lemma SinceGrows(h: seq<Obs>, o: Obs, since: Option<real>)
    requires SinceOf(h, since)
    ensures var now' := if !o.state.Unknown? then None else if since.None? then Some(o.now) else since;
      && SinceOf(h + [o], now')
      && (DefersUnknown(h + [o]) <==>
          && o.state.Unknown?
          && (o.reason.None? || !Transient(o.reason.value) || o.now - now'.value > UNKNOWN_BUDGET_S))
  {
    var g := h + [o];
    if o.state.Unknown? {
      var u := |h|;
      if since.Some? {
        u :| 0 <= u && UnknownRun(h, u) && h[u].now == since.value;
      }
      assert UnknownRun(g, u);
      forall v: nat | UnknownRun(g, v) ensures v == u {
        assert 0 < u ==> !g[u - 1].state.Unknown?;
        assert 0 < v ==> !g[v - 1].state.Unknown?;
      }
    }
  }

  lemma WindowPrefix(h: seq<Obs>, w: nat, n: nat)
    requires w < n <= |h|
    requires Window(h, w)
    ensures Window(h[..n], w)
  {
    var p := h[..n];
    assert p[..w + 1] == h[..w + 1] && p[..w] == h[..w];
    forall k: nat | w < k < n ensures Carries(p, w, k) {
      assert Carries(h, w, k);
      assert p[..k + 1] == h[..k + 1];
    }
  }

  /** At most one quiet window is open at a time. */
  lemma WindowUnique(h: seq<Obs>, v: nat, w: nat)
    requires Window(h, v) && Window(h, w)
    ensures v == w
  {
    assert Closed(h[..v]) && Closed(h[..w]);
    if v < w {
      WindowPrefix(h, v, w);
    } else if w < v {
      WindowPrefix(h, w, v);
    }
  }

  lemma WindowCarries(h: seq<Obs>, o: Obs, w: nat)
    requires w < |h|
    ensures Window(h + [o], w) <==> Window(h, w) && Carries(h + [o], w, |h|)
  {
    var g := h + [o];
    assert g[..w] == h[..w] && g[..w + 1] == h[..w + 1];
    assert Opens(g, w) <==> Opens(h, w);
    forall k: nat | w < k < |h| ensures Carries(g, w, k) <==> Carries(h, w, k) {
      assert g[..k + 1] == h[..k + 1];
    }
  }

  /** The windows of the longer history: those the new sample carried on, and the one it may have opened. */
  lemma WindowsGrow(h: seq<Obs>, o: Obs)
    ensures forall w: nat | Window(h, w) :: Window(h + [o], w) <==> Carries(h + [o], w, |h|)
    ensures forall w: nat | Window(h + [o], w) && w != |h| :: Window(h, w)
    ensures Window(h + [o], |h|) <==> o.state.Idle? && Advanced(h + [o]) && Closed(h)
  {
    forall w: nat | w < |h| { WindowCarries(h, o, w); }
    assert (h + [o])[..|h|] == h && (h + [o])[..|h| + 1] == h + [o];
  }

  /** With window `w` open: what one more sample does to it, and what it is answered. */
  lemma StepOpen(minWait: int, deadline: real, h: seq<Obs>, o: Obs, w: nat)
    requires Window(h, w) && o.now < deadline
    ensures var g := h + [o];
      && (if Carries(g, w, |h|) then Window(g, w) else Closed(g))
      && (forall k: nat | k < |h| :: Matured(minWait, g, w, k) <==> Matured(minWait, h, w, k))
      && VerdictAfter(minWait, deadline, h, o) ==
         (if DefersUnknown(g) then DeferUnknown
          else if !Carries(g, w, |h|) || o.now - h[w].now < minWait as real then Wait
          else if exists k: nat :: Matured(minWait, h, w, k) then Ready
          else Resample)
  {
    var g := h + [o];
    assert g[..|h| + 1] == g;
    WindowsGrow(h, o);
    forall v: nat | Window(g, v) ensures v == w {
      assert !Window(g, |h|) by { assert !Closed(h); }
      WindowUnique(h, v, w);
    }
    forall v: nat, again: bool | Ripe(minWait, g, v, again) ensures v == w {}
    assert forall k: nat | k < |h| :: Matured(minWait, g, w, k) <==> Matured(minWait, h, w, k);
    if !DefersUnknown(g) && Carries(g, w, |h|) && o.now - h[w].now >= minWait as real {
      assert Matured(minWait, g, w, |g| - 1);
      assert Ripe(minWait, g, w, exists k: nat :: Matured(minWait, h, w, k));
    }
  }

  /** The same when no window is open. */
  lemma StepClosed(minWait: int, deadline: real, h: seq<Obs>, o: Obs)
    requires Closed(h) && o.now < deadline
    ensures var g := h + [o];
      && (if o.state.Idle? && Advanced(g) then Window(g, |h|) else Closed(g))
      && VerdictAfter(minWait, deadline, h, o) == if DefersUnknown(g) then DeferUnknown else Wait
  {
    WindowsGrow(h, o);
    forall v: nat | Window(h + [o], v) ensures v == |h| {
      assert v < |h| ==> !Window(h, v);
    }
  }

  /** One step of the window fields, and the answer. */
  lemma WindowStep(minWait: int, deadline: real, h: seq<Obs>, o: Obs,
                   since: Option<real>, gens: Option<(nat, nat)>, resampling: bool)
    requires WindowOf(minWait, h, since, gens, resampling) && o.now < deadline
    ensures var g := h + [o];
      var mine := (o.arrivals, o.rows);
      var verdict := VerdictAfter(minWait, deadline, h, o);
      if DefersUnknown(g) then
        verdict == DeferUnknown && WindowOf(minWait, g, since, gens, resampling)
      else if !o.state.Idle? || (gens.Some? && gens.value != mine) then
        verdict == Wait && WindowOf(minWait, g, None, None, false)
      else if since.None? then
        verdict == Wait
        && if Advanced(g) then WindowOf(minWait, g, Some(o.now), Some(mine), false)
           else WindowOf(minWait, g, None, None, false)
      else if o.now - since.value < minWait as real then
        verdict == Wait && WindowOf(minWait, g, since, gens, resampling)
      else
        verdict == (if resampling then Ready else Resample) && WindowOf(minWait, g, since, gens, true)
  {
    var g := h + [o];
    assert g[..|h| + 1] == g;
    if since.None? {
      StepClosed(minWait, deadline, h, o);
      if o.state.Idle? && Advanced(g) {
        assert InWindow(minWait, g, o.now, (o.arrivals, o.rows), false, |h|);
      }
    } else {
      var w: nat :| InWindow(minWait, h, since.value, gens.value, resampling, w);
      StepOpen(minWait, deadline, h, o, w);
      var again := resampling || Matured(minWait, g, w, |h|);
      if Carries(g, w, |h|) {
        assert again <==> exists k: nat :: Matured(minWait, g, w, k);
        assert InWindow(minWait, g, since.value, gens.value, again, w);
      }
    }
  }

  /** A window is open only once the health clock has advanced. */
  lemma OpenMeansAdvanced(minWait: int, h: seq<Obs>, since: Option<real>, gens: Option<(nat, nat)>, resampling: bool)
    requires WindowOf(minWait, h, since, gens, resampling) && since.Some?
    ensures Advanced(h)
  {
    var w: nat :| InWindow(minWait, h, since.value, gens.value, resampling, w);
    assert Opens(h, w);
    AdvancedStays(h, w + 1);
  }

  lemma AdvancedStays(h: seq<Obs>, n: nat)
    requires n <= |h| && Advanced(h[..n])
    ensures Advanced(h)
  {
    var p := h[..n];
    var i: nat, j: nat :| FirstStamp(p, i) && i < j < |p| && Stamped(p[j]) && p[j].health.value > p[i].health.value;
    assert FirstStamp(h, i) && h[j] == p[j];
  }

  // ---- the gate's memory ----

  datatype Memory = Memory(baseTs: Option<int>, advanced: bool, quietSince: Option<real>,
                           quietGens: Option<(nat, nat)>, resampling: bool, unknownSince: Option<real>)

  /** The memory `m` stands for the history `h`. */
  ghost predicate Remembers(minWait: int, h: seq<Obs>, m: Memory) {
    && BaseOf(h, m.baseTs)
    && (m.advanced <==> Advanced(h))
    && SinceOf(h, m.unknownSince)
    && WindowOf(minWait, h, m.quietSince, m.quietGens, m.resampling)
  }

  /** One step on the memory alone. */
  function Next(minWait: int, deadline: real, m: Memory, o: Obs): (Memory, Verdict) {
    var gens := (o.arrivals, o.rows);
    if o.now >= deadline then (m, DeferDeadline)
    else if o.state.Unknown? then
      var since := if m.unknownSince.None? then o.now else m.unknownSince.value;
      if o.reason.None? || !Transient(o.reason.value) || o.now - since > UNKNOWN_BUDGET_S then
        (m.(unknownSince := Some(since)), DeferUnknown)
      else
        (m.(unknownSince := Some(since), quietSince := None, quietGens := None, resampling := false), Wait)
    else
      var advanced := m.advanced || (o.health.Some? && m.baseTs.Some? && o.health.value > m.baseTs.value);
      var k := m.(unknownSince := None, advanced := advanced,
                  baseTs := if m.baseTs.None? then o.health else m.baseTs);
      if o.state.Busy? || (m.quietGens.Some? && m.quietGens.value != gens) then
        (k.(quietSince := None, quietGens := None, resampling := false), Wait)
      else if !advanced then (k, Wait)
      else if m.quietSince.None? then (k.(quietSince := Some(o.now), quietGens := Some(gens)), Wait)
      else if o.now - m.quietSince.value < minWait as real then (k, Wait)
      else if !m.resampling then (k.(resampling := true), Resample)
      else (k, Ready)
  }

  /** The incremental step keeps the memory right and gives the answer the whole history calls for. */
  lemma NextRemembers(minWait: int, deadline: real, h: seq<Obs>, m: Memory, o: Obs)
    requires Remembers(minWait, h, m)
    ensures Next(minWait, deadline, m, o).1 == VerdictAfter(minWait, deadline, h, o)
    ensures Remembers(minWait, if o.now >= deadline then h else h + [o], Next(minWait, deadline, m, o).0)
  {
    if o.now < deadline {
      SinceGrows(h, o, m.unknownSince);
      BaseGrows(h, o, m.baseTs);
      WindowStep(minWait, deadline, h, o, m.quietSince, m.quietGens, m.resampling);
      if m.quietSince.Some? {
        OpenMeansAdvanced(minWait, h, m.quietSince, m.quietGens, m.resampling);
      }
    }
  }

  class Gate {
    const minWait: int
    const deadline: real
    var baseTs: Option<int>
    var advanced: bool
    var quietSince: Option<real>
    var quietGens: Option<(nat, nat)>
    var resampling: bool
    var unknownSince: Option<real>
    ghost var seen: seq<Obs>  // every sample the gate was given before the deadline

    function Fields(): Memory
      reads this
    {
      Memory(baseTs, advanced, quietSince, quietGens, resampling, unknownSince)
    }

    ghost predicate Valid()
      reads this
    {
      1 <= minWait && Remembers(minWait, seen, Fields())
    }

    constructor (minWait: int, deadline: real)
      requires 1 <= minWait
      ensures Valid() && seen == [] && this.minWait == minWait && this.deadline == deadline
    {
      this.minWait, this.deadline := minWait, deadline;
      baseTs, advanced, quietSince, quietGens := None, false, None, None;
      resampling, unknownSince := false, None;
      seen := [];
    }

    /** One step. The answer is the one the history calls for, and a sample before the deadline joins the history. */
    method Step(o: Obs) returns (verdict: Verdict)
      requires Valid()
      modifies this
      ensures Valid()
      ensures verdict == VerdictAfter(minWait, deadline, old(seen), o)
      ensures seen == if o.now >= deadline then old(seen) else old(seen) + [o]
      ensures verdict.DeferDeadline? <==> o.now >= deadline
    {
      NextRemembers(minWait, deadline, seen, Fields(), o);
      seen := if o.now >= deadline then seen else seen + [o];
      verdict := Advance(o);
    }

    method Advance(o: Obs) returns (verdict: Verdict)
      modifies this
      ensures (Fields(), verdict) == Next(minWait, deadline, old(Fields()), o)
      ensures seen == old(seen)
    {
      if o.now >= deadline {
        return DeferDeadline;
      }
      if o.state.Unknown? {
        if unknownSince.None? {
          unknownSince := Some(o.now);
        }
        if o.reason.None? || !Transient(o.reason.value) || o.now - unknownSince.value > UNKNOWN_BUDGET_S {
          return DeferUnknown;
        }
        quietSince, quietGens := None, None;
        resampling := false;
        return Wait;
      }
      unknownSince := None;
      var gens := (o.arrivals, o.rows);
      if o.health.Some? {
        if baseTs.None? {
          baseTs := o.health;
        } else if o.health.value > baseTs.value {
          advanced := true;
        }
      }
      if o.state.Busy? || (quietGens.Some? && gens != quietGens.value) {
        quietSince, quietGens := None, None;
        resampling := false;
        return Wait;
      }
      if !advanced {
        return Wait;
      }
      if quietSince.None? {
        quietSince, quietGens := Some(o.now), Some(gens);
        return Wait;
      }
      if o.now - quietSince.value < minWait as real {
        return Wait;
      }
      if !resampling {
        resampling := true;
        return Resample;
      }
      return Ready;
    }
  }
}
