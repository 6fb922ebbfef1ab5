/**
 * The budget command: the VRAM check and the RAM check together. They rank the models differently, yet a feasible
 * verdict covers every set of models that can be resident at once.
 */
module BudgetCheck {
  import opened Numbers
  import opened Wrappers
  import opened Budget
  import Resources

  datatype Verdict = Verdict(vram: Vram, ramRequired: nat, ram: Resources.RamVerdict, feasible: bool)

  /** A ceiling of zero in the configuration means that there is none. */
  function Configured(gpu: Gpu): Gpu {
    gpu.(ceiling := if gpu.ceiling == Some(0) then None else gpu.ceiling)
  }

  /** The GPU with the ceiling that counts, if there is one above zero. */
  function Bounded(gpu: Gpu): Gpu {
    match gpu.ceiling
    case Some(n) => if n > 0 then gpu else Gpu(gpu.total, gpu.compositorUsed, gpu.reserveFloor, None, gpu.extraReserved)
    case None => gpu
  }

  /** What these models keep in RAM fits into llm-server's limit. */
  predicate FitsRam(r: seq<Model>, l: Resources.Limits) {
    var needed := Sum(r, (m: Model) => m.ramWeights);
    needed == 0 || needed <= l.llmMemory
  }

  lemma {:induction false} SumRam(r: seq<Model>)
    ensures Sum(r, RamWeights) == Sum(r, (m: Model) => m.ramWeights)
  {
    if r != [] {
      SumRam(r[1..]);
    }
  }

  lemma RankedIsTop(models: seq<Model>, most: nat)
    requires most <= |models|
    ensures Top(models, most, RamWeights) == Sum(Ranked(models, RamWeights)[..most], RamWeights)
  {
  }

  lemma BoundedIsConfigured(gpu: Gpu)
    ensures Bounded(gpu) == Configured(gpu)
  {
  }

  method CheckBudget(gpu: Gpu, models: seq<Model>, modelsMax: nat, host: Resources.Host, c: Resources.Config)
    returns (r: Option<Verdict>)
    ensures r.Some? <==> 1 <= modelsMax <= |models|
    ensures r.Some? ==>
              (r.value.feasible <==>
                 && Resources.ComputeLimits(host, c).Ok?
                 && forall s | Resident(s, models, modelsMax) ::
                      FitsVram(s, Bounded(gpu)) && FitsRam(s, Resources.ComputeLimits(host, c).value))
    ensures r.Some? ==>
              && r.value.vram.required == Top(models, modelsMax, Required)
              && r.value.ramRequired == Top(models, modelsMax, RamWeights)
              && (r.value.vram.feasible <==> forall s | Resident(s, models, modelsMax) :: FitsVram(s, Bounded(gpu)))
              && (r.value.ram == Resources.RamFits <==>
                    && Resources.ComputeLimits(host, c).Ok?
                    && forall s | Resident(s, models, modelsMax) :: FitsRam(s, Resources.ComputeLimits(host, c).value))
              && (r.value.ram.NoFloor? <==> Resources.ComputeLimits(host, c).Err?)
    ensures r.Some? && r.value.ram.RaiseTo? ==>
              && var raised := Resources.ComputeLimits(host, c.(memoryPct := r.value.ram.pct as real));
                 r.value.ram.pct <= 100 && raised.Ok?
                 && forall s | Resident(s, models, modelsMax) :: FitsRam(s, raised.value)
    ensures r.Some? && r.value.ram == Resources.NoPercentageFits ==>
              forall pct :: exists s | Resident(s, models, modelsMax) ::
                Resources.ComputeLimits(host, c.(memoryPct := pct)).Ok?
                && !FitsRam(s, Resources.ComputeLimits(host, c.(memoryPct := pct)).value)
  {
    hide Top, Ranked, Resources.ComputeLimits, Resident, FitsVram;
    BoundedIsConfigured(gpu);
    forall s ensures Sum(s, RamWeights) == Sum(s, (m: Model) => m.ramWeights) {
      SumRam(s);
    }
    var vram := ComputeBudget(Configured(gpu), models, modelsMax);
    if vram.None? {
      return None;
    }
    var ranked := Ranked(models, RamWeights);
    var ramRequired := Total(ranked[..modelsMax], RamWeights);
    TopCovers(models, modelsMax, RamWeights);
    RankedIsTop(models, modelsMax);
    var ram := Resources.RamCheck(host, c, ramRequired);
    ghost var worst :| Resident(worst, models, modelsMax) && Sum(worst, RamWeights) == ramRequired;
    return Some(Verdict(vram.value, ramRequired, ram, vram.value.feasible && ram == Resources.RamFits));
  }
}
