/**
 * The host budget: what is reserved for the system and the small services, and what llm-server may use at most.
 * Percentages are exact numbers here.
 */
module Resources {
  import opened Numbers
  import opened Wrappers

  const HOST_CPU_FLOOR := 2.0
  const HOST_MEMORY_FLOOR_MIB := 4096

  datatype Policy = Policy(cpusMin: real, cpusMax: real, memoryMin: int, memoryMax: int)

  /** What the configuration sets instead of the built-in values. */
  datatype Override = Override(cpusMin: Option<real>, cpusMax: Option<real>, memoryMin: Option<int>,
                               memoryMax: Option<int>)

  const OMNIROUTE := Policy(1.0, 2.0, 768, 2048)
  const REMOTE_SETUP := Policy(0.25, 0.5, 32, 64)
  const SYSTEM_ONE := Policy(1.0, 2.0, 2560, 5120)
  const PHOENIX := Policy(0.25, 1.0, 192, 1024)

  datatype Overrides = Overrides(omniroute: Override, remoteSetup: Override, systemOne: Override, phoenix: Override)

  datatype Host = Host(cpus: real, memory: nat)

  /** The percentages of the configuration, and which of the optional services are on. */
  datatype Config = Config(memoryPct: real, memoryFloorPct: real, cpuPct: real, cpuFloorPct: real,
                           llmServer: bool, systemOne: bool, overrides: Overrides)

  datatype ResourceError = BadOverride | TooFewCpus | TooLittleMemory

  datatype Limits = Limits(omniroute: Policy, remoteSetup: Policy, systemOne: Policy, phoenix: Policy,
                           llmCpus: real, llmMemory: int)

  // ---- policies ----

  function Or<T>(o: Option<T>, otherwise: T): T {
    if o.Some? then o.value else otherwise
  }

  function EffectivePolicy(builtIn: Policy, o: Override): Policy {
    Policy(Or(o.cpusMin, builtIn.cpusMin), Or(o.cpusMax, builtIn.cpusMax),
           Or(o.memoryMin, builtIn.memoryMin), Or(o.memoryMax, builtIn.memoryMax))
  }

  /** Every value of an override is positive, and what it makes of the policy is in order. */
  predicate ValidOverride(builtIn: Policy, o: Override) {
    && (o.cpusMin.Some? ==> o.cpusMin.value > 0.0) && (o.cpusMax.Some? ==> o.cpusMax.value > 0.0)
    && (o.memoryMin.Some? ==> o.memoryMin.value >= 1) && (o.memoryMax.Some? ==> o.memoryMax.value >= 1)
    && var p := EffectivePolicy(builtIn, o);
       p.cpusMin <= p.cpusMax && p.memoryMin <= p.memoryMax
  }

  predicate ValidOverrides(o: Overrides) {
    && ValidOverride(OMNIROUTE, o.omniroute) && ValidOverride(REMOTE_SETUP, o.remoteSetup)
    && ValidOverride(SYSTEM_ONE, o.systemOne) && ValidOverride(PHOENIX, o.phoenix)
  }

  // ---- the limits ----

  function Scale(total: real, pct: real): real {
    total * pct / 100.0
  }

  function Share(total: real, pct: real): int {
    Round(Scale(total, pct))
  }

  /** What the host and the services reserve before llm-server gets anything. */
  function CpuFloor(c: Config): real {
    HOST_CPU_FLOOR + EffectivePolicy(OMNIROUTE, c.overrides.omniroute).cpusMin
    + EffectivePolicy(REMOTE_SETUP, c.overrides.remoteSetup).cpusMin
    + if c.systemOne then EffectivePolicy(SYSTEM_ONE, c.overrides.systemOne).cpusMin
                          + EffectivePolicy(PHOENIX, c.overrides.phoenix).cpusMin
      else 0.0
  }

  function MemoryFloor(c: Config): int {
    HOST_MEMORY_FLOOR_MIB + EffectivePolicy(OMNIROUTE, c.overrides.omniroute).memoryMin
    + EffectivePolicy(REMOTE_SETUP, c.overrides.remoteSetup).memoryMin
    + if c.systemOne then EffectivePolicy(SYSTEM_ONE, c.overrides.systemOne).memoryMin
                          + EffectivePolicy(PHOENIX, c.overrides.phoenix).memoryMin
      else 0
  }

  const OFF := Policy(0.0, 0.0, 0, 0)

  function LlmMemory(host: Host, c: Config): int {
    if !c.llmServer then 0
    else
      var ceiling := Max(Share(host.memory as real, c.memoryFloorPct), Share(host.memory as real, c.memoryPct));
      Min(host.memory - MemoryFloor(c), ceiling)
  }

  function LlmCpus(host: Host, c: Config): real {
    if !c.llmServer then 0.0
    else
      var ceiling := Max(1, Max(Share(host.cpus, c.cpuFloorPct), Share(host.cpus, c.cpuPct)));
      MinReal(host.cpus - CpuFloor(c), ceiling as real)
  }

  function ComputeLimits(host: Host, c: Config): Result<Limits, ResourceError> {
    if !ValidOverrides(c.overrides) then Err(BadOverride)
    else if host.cpus < CpuFloor(c) || (c.llmServer && host.cpus == CpuFloor(c)) then Err(TooFewCpus)
    else if host.memory < MemoryFloor(c) || (c.llmServer && host.memory == MemoryFloor(c)) then Err(TooLittleMemory)
    else Ok(Limits(EffectivePolicy(OMNIROUTE, c.overrides.omniroute),
                   EffectivePolicy(REMOTE_SETUP, c.overrides.remoteSetup),
                   if c.systemOne then EffectivePolicy(SYSTEM_ONE, c.overrides.systemOne) else OFF,
                   if c.systemOne then EffectivePolicy(PHOENIX, c.overrides.phoenix) else OFF,
                   LlmCpus(host, c), LlmMemory(host, c)))
  }

  method ComputeResourceLimits(host: Host, c: Config) returns (r: Result<Limits, ResourceError>)
    ensures r == ComputeLimits(host, c)
  {
    if !ValidOverrides(c.overrides) {
      return Err(BadOverride);
    }
    var omniroute := EffectivePolicy(OMNIROUTE, c.overrides.omniroute);
    var remoteSetup := EffectivePolicy(REMOTE_SETUP, c.overrides.remoteSetup);
    var systemOne := EffectivePolicy(SYSTEM_ONE, c.overrides.systemOne);
    var phoenix := EffectivePolicy(PHOENIX, c.overrides.phoenix);
    var cpuFloor := HOST_CPU_FLOOR + omniroute.cpusMin + remoteSetup.cpusMin;
    var memoryFloor := HOST_MEMORY_FLOOR_MIB + omniroute.memoryMin + remoteSetup.memoryMin;
    if c.systemOne {
      cpuFloor := cpuFloor + systemOne.cpusMin;
      memoryFloor := memoryFloor + systemOne.memoryMin;
      cpuFloor := cpuFloor + phoenix.cpusMin;
      memoryFloor := memoryFloor + phoenix.memoryMin;
    }
    if c.llmServer {
      if host.cpus <= cpuFloor {
        return Err(TooFewCpus);
      }
      if host.memory <= memoryFloor {
        return Err(TooLittleMemory);
      }
    } else {
      if host.cpus < cpuFloor {
        return Err(TooFewCpus);
      }
      if host.memory < memoryFloor {
        return Err(TooLittleMemory);
      }
    }
    var llmMemory, llmCpus := 0, 0.0;
    if c.llmServer {
      var ceiling := Max(Share(host.memory as real, c.memoryFloorPct), Share(host.memory as real, c.memoryPct));
      llmMemory := Min(host.memory - memoryFloor, ceiling);
      var cpuCeiling := Max(1, Max(Share(host.cpus, c.cpuFloorPct), Share(host.cpus, c.cpuPct)));
      llmCpus := MinReal(host.cpus - cpuFloor, cpuCeiling as real);
    }
    return Ok(Limits(omniroute, remoteSetup, if c.systemOne then systemOne else OFF,
                     if c.systemOne then phoenix else OFF,
                     llmCpus, llmMemory));
  }

  /** The host never promises more than it has: floors, reservations and llm-server's limit fit together. */
  lemma NothingOverpromised(host: Host, c: Config)
    requires ComputeLimits(host, c).Ok?
    ensures var l := ComputeLimits(host, c).value;
            && HOST_MEMORY_FLOOR_MIB + l.omniroute.memoryMin + l.remoteSetup.memoryMin + l.systemOne.memoryMin
                 + l.phoenix.memoryMin + l.llmMemory <= host.memory
            && HOST_CPU_FLOOR + l.omniroute.cpusMin + l.remoteSetup.cpusMin + l.systemOne.cpusMin + l.phoenix.cpusMin
                 + l.llmCpus <= host.cpus
  {
  }

  /** A running llm-server always has a CPU quota: it is never zero, which would mean no limit at all. */
  lemma CpuQuotaIsPositive(host: Host, c: Config)
    requires ComputeLimits(host, c).Ok? && c.llmServer
    ensures 0.0 < ComputeLimits(host, c).value.llmCpus
  {
  }

  // ---- what the limits are ----

  /** A field of a policy: what the configuration sets, or the built-in value. */
  predicate From<T(==)>(given: Option<T>, builtIn: T, value: T) {
    match given
    case Some(x) => value == x
    case None => value == builtIn
  }

  predicate PolicyFrom(p: Policy, o: Override, cpusMin: real, cpusMax: real, memoryMin: int, memoryMax: int) {
    && From(o.cpusMin, cpusMin, p.cpusMin) && From(o.cpusMax, cpusMax, p.cpusMax)
    && From(o.memoryMin, memoryMin, p.memoryMin) && From(o.memoryMax, memoryMax, p.memoryMax)
  }

  /** Every value is the configured or the built-in one; System One and Phoenix get nothing when they are off. */
  lemma PoliciesAre(host: Host, c: Config)
    requires ComputeLimits(host, c).Ok?
    ensures var l := ComputeLimits(host, c).value;
            && PolicyFrom(l.omniroute, c.overrides.omniroute, 1.0, 2.0, 768, 2048)
            && PolicyFrom(l.remoteSetup, c.overrides.remoteSetup, 0.25, 0.5, 32, 64)
            && if c.systemOne then
                 && PolicyFrom(l.systemOne, c.overrides.systemOne, 1.0, 2.0, 2560, 5120)
                 && PolicyFrom(l.phoenix, c.overrides.phoenix, 0.25, 1.0, 192, 1024)
               else l.systemOne == l.phoenix == Policy(0.0, 0.0, 0, 0)
  {
  }

  /** Every bound is positive, and no minimum is above its maximum. */
  predicate InOrder(p: Policy) {
    0.0 < p.cpusMin <= p.cpusMax && 1 <= p.memoryMin <= p.memoryMax
  }

  /** Overrides are refused exactly when they leave a policy out of order, whether its service is on or not. */
  lemma RefusedOverrides(host: Host, c: Config, omniroute: Policy, remoteSetup: Policy, systemOne: Policy,
                         phoenix: Policy)
    requires PolicyFrom(omniroute, c.overrides.omniroute, 1.0, 2.0, 768, 2048)
    requires PolicyFrom(remoteSetup, c.overrides.remoteSetup, 0.25, 0.5, 32, 64)
    requires PolicyFrom(systemOne, c.overrides.systemOne, 1.0, 2.0, 2560, 5120)
    requires PolicyFrom(phoenix, c.overrides.phoenix, 0.25, 1.0, 192, 1024)
    ensures ComputeLimits(host, c) == Err(BadOverride)
            <==> !(InOrder(omniroute) && InOrder(remoteSetup) && InOrder(systemOne) && InOrder(phoenix))
  {
  }

  /** What is left of the host when 2 CPUs, 4096 MiB and the minima of the policies are set aside. */
  function FreeCpus(host: Host, l: Limits): real {
    host.cpus - 2.0 - l.omniroute.cpusMin - l.remoteSetup.cpusMin - l.systemOne.cpusMin - l.phoenix.cpusMin
  }

  function FreeMemory(host: Host, l: Limits): int {
    host.memory - 4096 - l.omniroute.memoryMin - l.remoteSetup.memoryMin - l.systemOne.memoryMin - l.phoenix.memoryMin
  }

  /** A percentage of the total, rounded to the nearest whole number. */
  predicate Rounded(n: int, total: real, pct: real) {
    -0.5 <= n as real - total * pct / 100.0 <= 0.5
  }

  /** The greater of two percentages of the total, rounded. */
  predicate Cap(n: int, total: real, pct: real, floorPct: real) {
    && (Rounded(n, total, pct) || Rounded(n, total, floorPct))
    && total * pct / 100.0 <= n as real + 0.5 && total * floorPct / 100.0 <= n as real + 0.5
  }

  /**
   * llm-server gets what is free, or less: the greater of the two percentages of the host, rounded, and in CPUs at
   * least one. It gets nothing when it is off.
   */
  lemma LlmServerGets(host: Host, c: Config)
    requires ComputeLimits(host, c).Ok?
    ensures var l := ComputeLimits(host, c).value;
            if c.llmServer then
              && (exists n: int :: Cap(n, host.cpus, c.cpuPct, c.cpuFloorPct)
                                   && l.llmCpus == MinReal(FreeCpus(host, l), Max(1, n) as real))
              && (exists n: int :: Cap(n, host.memory as real, c.memoryPct, c.memoryFloorPct)
                                   && l.llmMemory == Min(FreeMemory(host, l), n))
            else l.llmCpus == 0.0 && l.llmMemory == 0
  {
    hide Round;
    ShareIsCap(host.cpus, c.cpuPct, c.cpuFloorPct);
    ShareIsCap(host.memory as real, c.memoryPct, c.memoryFloorPct);
    hide Share, Cap;
    var n := Max(Share(host.memory as real, c.memoryFloorPct), Share(host.memory as real, c.memoryPct));
    assert LlmMemory(host, c) == if c.llmServer then Min(FreeMemory(host, ComputeLimits(host, c).value), n) else 0;
  }

  lemma ShareIsCap(total: real, pct: real, floorPct: real)
    ensures Cap(Max(Share(total, floorPct), Share(total, pct)), total, pct, floorPct)
  {
    hide Round;
  }

  /** Raising a CPU percentage never lowers llm-server's quota, and never raises it past what is free. */
  lemma CpuMonotone(host: Host, c: Config, pct: real, more: real)
    requires ComputeLimits(host, c).Ok? && c.llmServer && pct <= more && 0.0 <= host.cpus
    ensures var low, high := ComputeLimits(host, c.(cpuPct := pct)), ComputeLimits(host, c.(cpuPct := more));
            low.Ok? && high.Ok? && low.value.llmCpus <= high.value.llmCpus <= FreeCpus(host, high.value)
    ensures var low, high := ComputeLimits(host, c.(cpuFloorPct := pct)), ComputeLimits(host, c.(cpuFloorPct := more));
            low.Ok? && high.Ok? && low.value.llmCpus <= high.value.llmCpus <= FreeCpus(host, high.value)
  {
    ScaleMonotone(host.cpus, pct, more);
    RoundMonotone(Scale(host.cpus, pct), Scale(host.cpus, more));
    hide Scale, Round;
  }

  /** Raising the percentage never lowers llm-server's memory, and never raises it past what the floors leave. */
  lemma MemoryMonotone(host: Host, c: Config, pct: real, more: real)
    requires ComputeLimits(host, c).Ok? && c.llmServer && pct <= more
    ensures var low, high := ComputeLimits(host, c.(memoryPct := pct)), ComputeLimits(host, c.(memoryPct := more));
            && low.Ok? && high.Ok?
            && low.value.llmMemory <= high.value.llmMemory <= host.memory - MemoryFloor(c)
  {
    ScaleMonotone(host.memory as real, pct, more);
    RoundMonotone(Scale(host.memory as real, pct), Scale(host.memory as real, more));
    hide Scale, Round;
  }

  lemma ScaleMonotone(total: real, pct: real, more: real)
    requires 0.0 <= total && pct <= more
    ensures Scale(total, pct) <= Scale(total, more)
  {
    assert total * pct <= total * more;
  }

  // ---- the RAM check and its remedy ----

  datatype RamVerdict = RamFits | NoFloor(error: ResourceError) | NoPercentageFits | RaiseTo(pct: int)

  function CeilReal(x: real): int {
    -((-x).Floor)
  }

  /** With this percentage llm-server gets what is required. */
  predicate Enough(host: Host, c: Config, required: nat, pct: int) {
    var limits := ComputeLimits(host, c.(memoryPct := pct as real));
    limits.Ok? && required <= limits.value.llmMemory
  }

  /**
   * The percentage that is named works. It is the least whole one exactly when one less, rounded to whole MiB, falls
   * short of what is required; two less never work.
   */
  method RamCheck(host: Host, c: Config, required: nat) returns (v: RamVerdict)
    ensures v == RamFits <==> ComputeLimits(host, c).Ok? && required <= Max(0, ComputeLimits(host, c).value.llmMemory)
    ensures v.NoFloor? <==> ComputeLimits(host, c).Err?
    ensures v.RaiseTo? ==>
              && 0 < v.pct <= 100
              && var raised := ComputeLimits(host, c.(memoryPct := v.pct as real));
                 raised.Ok? && required <= raised.value.llmMemory
    ensures v.RaiseTo? ==>
              && (forall p: int | p < v.pct - 1 :: !Enough(host, c, required, p))
              && ((forall p: int | p < v.pct :: !Enough(host, c, required, p))
                  <==> Share(host.memory as real, (v.pct - 1) as real) < required)
    ensures v == NoPercentageFits ==>
              forall pct :: ComputeLimits(host, c.(memoryPct := pct)).Ok?
                            && ComputeLimits(host, c.(memoryPct := pct)).value.llmMemory < required
  {
    var limits := ComputeResourceLimits(host, c);
    if limits.Err? {
      return NoFloor(limits.error);
    }
    var available := limits.value.llmMemory;
    if required == 0 || required <= available {
      return RamFits;
    }
    var most := ComputeResourceLimits(host, c.(memoryPct := 100.0));
    if required > most.value.llmMemory {
      NothingMore(host, c);
      return NoPercentageFits;
    }
    var pct := CeilReal(required as real / host.memory as real * 100.0);
    RemedyWorks(host, c, required, pct);
    RemedyIsNearLeast(host, c, required, pct);
    return RaiseTo(pct);
  }

  /** No percentage gives llm-server more than 100 does. */
  lemma NothingMore(host: Host, c: Config)
    requires ComputeLimits(host, c).Ok?
    ensures forall pct :: ComputeLimits(host, c.(memoryPct := pct)).Ok?
                          && ComputeLimits(host, c.(memoryPct := pct)).value.llmMemory
                             <= ComputeLimits(host, c.(memoryPct := 100.0)).value.llmMemory
  {
    assert MemoryFloor(c) >= 0;
    assert Scale(host.memory as real, 100.0) == host.memory as real;
    assert Share(host.memory as real, 100.0) == host.memory by {
      RoundAtLeast(host.memory as real, host.memory);
      RoundAtMost(host.memory as real, host.memory);
    }
  }

  lemma Fraction(a: real, b: real)
    requires 0.0 < a <= b
    ensures 0.0 < a / b <= 1.0 && a / b * b == a
  {
  }

  lemma ScaleGrows(part: real, pct: real, total: real)
    requires part * 100.0 <= pct && 0.0 < total
    ensures part * total <= Scale(total, pct)
  {
    assert total * (part * 100.0) <= total * pct;
    assert total * (part * 100.0) == part * total * 100.0;
  }

  /** That share of the total, rounded up to whole percents, is at most 100 percent and enough. */
  lemma PercentIsEnough(required: nat, total: nat, pct: int)
    requires 0 < required <= total && pct == CeilReal(required as real / total as real * 100.0)
    ensures 0 < pct <= 100 && required <= Share(total as real, pct as real)
  {
    Fraction(required as real, total as real);
    var part := required as real / total as real;
    assert part * 100.0 <= pct as real < part * 100.0 + 1.0;
    hide CeilReal, Round, Scale;
    ScaleGrows(part, pct as real, total as real);
    RoundAtLeast(Scale(total as real, pct as real), required);
  }

  lemma RemedyWorks(host: Host, c: Config, required: nat, pct: int)
    requires ComputeLimits(host, c).Ok? && c.llmServer
    requires 0 < required <= ComputeLimits(host, c.(memoryPct := 100.0)).value.llmMemory
    requires 0 < host.memory && pct == CeilReal(required as real / host.memory as real * 100.0)
    ensures 0 < pct <= 100
    ensures required <= ComputeLimits(host, c.(memoryPct := pct as real)).value.llmMemory
  {
    hide Share, CeilReal;
    assert MemoryFloor(c) >= 0 && required <= host.memory - MemoryFloor(c);
    PercentIsEnough(required, host.memory, pct);
  }

  lemma ScaleStep(total: real, pct: real, more: real)
    requires 0.0 <= total && pct + 1.0 <= more
    ensures Scale(total, pct) + total / 100.0 <= Scale(total, more)
  {
    var low, high := total * pct, total * more;
    assert total * (pct + 1.0) == low + total;
    assert total * (pct + 1.0) <= high by { Times(total, pct + 1.0, more); }
    assert Scale(total, pct) == low / 100.0 && Scale(total, more) == high / 100.0;
    assert low / 100.0 + total / 100.0 == (low + total) / 100.0 <= high / 100.0;
  }

  lemma Times(a: real, b: real, c: real)
    requires 0.0 <= a && b <= c
    ensures a * b <= a * c
  {
  }

  lemma ScaleBelow(part: real, pct: real, total: real)
    requires pct < part * 100.0 && 0.0 < total
    ensures Scale(total, pct) < part * total
  {
    assert total * pct < total * (part * 100.0);
    assert total * (part * 100.0) == part * total * 100.0;
  }

  /** On any host with at least 100 MiB, two percent less than that never give what is required. */
  lemma ShareFallsShort(total: nat, required: nat, pct: int, p: int)
    requires 0 < required <= total && 100 <= total && p < pct - 1
    requires pct == CeilReal(required as real / total as real * 100.0)
    ensures Share(total as real, p as real) < required
  {
    Fraction(required as real, total as real);
    var part := required as real / total as real;
    assert (pct - 1) as real < part * 100.0;
    hide CeilReal, Scale, Round;
    assert part * total as real == required as real;
    ScaleBelow(part, (pct - 1) as real, total as real);
    ScaleStep(total as real, p as real, (pct - 1) as real);
    var scaled := Scale(total as real, p as real);
    assert scaled + 1.0 <= scaled + total as real / 100.0 < required as real;
    RoundAtMost(scaled, required - 1);
    assert Share(total as real, p as real) == Round(scaled);
  }

  lemma RemedyIsNearLeast(host: Host, c: Config, required: nat, pct: int)
    requires ComputeLimits(host, c).Ok? && c.llmServer
    requires ComputeLimits(host, c).value.llmMemory < required
    requires 0 < required <= ComputeLimits(host, c.(memoryPct := 100.0)).value.llmMemory
    requires pct == CeilReal(required as real / host.memory as real * 100.0)
    ensures forall p: int | p < pct - 1 :: !Enough(host, c, required, p)
    ensures (forall p: int | p < pct :: !Enough(host, c, required, p))
            <==> Share(host.memory as real, (pct - 1) as real) < required
  {
    hide Share, CeilReal;
    assert 100 <= MemoryFloor(c) <= host.memory && required <= host.memory - MemoryFloor(c);
    forall p: int | p < pct - 1 ensures !Enough(host, c, required, p) {
      ShareFallsShort(host.memory, required, pct, p);
    }
    assert Enough(host, c, required, pct - 1) <==> required <= Share(host.memory as real, (pct - 1) as real);
  }

  /** The named percentage need not be the least: rounding can make one less enough. */
  lemma LessCanBeEnough()
    ensures var none := Override(None, None, None, None);
            var c := Config(30.0, 30.0, 50.0, 50.0, true, false, Overrides(none, none, none, none));
            var host := Host(8.0, 10050);
            && ComputeLimits(host, c).Ok? && ComputeLimits(host, c).value.llmMemory == 3015
            && CeilReal(3116.0 / 10050.0 * 100.0) == 32
            && Enough(host, c, 3116, 31) && !Enough(host, c, 3116, 30)
  {
    assert Scale(10050.0, 30.0) == 3015.0 && Scale(10050.0, 31.0) == 3115.5;
    assert Share(10050.0, 30.0) == 3015 && Share(10050.0, 31.0) == 3116;
    assert 31.0 < 3116.0 / 10050.0 * 100.0 <= 32.0;
  }
}
