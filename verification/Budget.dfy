/**
 * The VRAM budget: what each model needs, and whether any `models_max` of them fit at once. The check looks only at
 * the most expensive ones; that this covers every possible choice is what is proved here.
 */
module Budget {
  import opened Numbers
  import opened Sorting
  import opened Wrappers

  const RUNTIME_OVERHEAD_MIB := 512
  const SPIKE_HEADROOM_MIB := 1024
  const MIB := 1_048_576

  // ---- the KV cache of one model ----

  datatype CacheType = F32 | F16 | BF16 | Q8_0 | Q5_1 | Q5_0 | Q4_1 | Q4_0

  /** Bytes per element, in thirty-seconds. */
  function Per32(t: CacheType): nat {
    match t
    case F32 => 128
    case F16 => 64
    case BF16 => 64
    case Q8_0 => 34
    case Q5_1 => 24
    case Q5_0 => 22
    case Q4_1 => 20
    case Q4_0 => 18
  }

  datatype Kind = Full | Swa | Recurrent

  datatype Layer = Layer(kind: Kind, heads: nat, keyLength: nat, valueLength: nat)

  datatype Geometry = Geometry(layers: seq<Layer>, slidingWindow: Option<nat>)

  datatype Cache = Cache(fullMib: nat, swaMib: nat, kvMib: nat)

  /** How a model is run. */
  datatype Load = Load(ctx: nat, ubatch: nat, k: CacheType, v: CacheType)

  /** The least multiple of 256 that is not below the value. */
  function Pad256(value: nat): (r: nat)
    ensures r % 256 == 0 && value <= r < value + 256
  {
    (value + 255) / 256 * 256
  }

  function Cells(kind: Kind, window: Option<nat>, load: Load): nat {
    match kind
    case Full => load.ctx
    case Swa => if window.Some? then Pad256(Min(load.ctx, window.value + load.ubatch)) else 0
    case Recurrent => 0
  }

  /** The cache of one cell of a layer, in thirty-seconds of a byte. */
  function Cell32(layer: Layer, load: Load): nat {
    layer.heads * (layer.keyLength * Per32(load.k) + layer.valueLength * Per32(load.v))
  }

  function Layer32(layer: Layer, window: Option<nat>, load: Load): nat {
    Cells(layer.kind, window, load) * Cell32(layer, load)
  }

  /** The cache of all layers of one kind. */
  function Sum32(layers: seq<Layer>, kind: Kind, window: Option<nat>, load: Load): nat {
    if layers == [] then 0
    else
      var n := |layers| - 1;
      Sum32(layers[..n], kind, window, load) + if layers[n].kind == kind then Layer32(layers[n], window, load) else 0
  }

  predicate ValidLayers(layers: seq<Layer>, window: Option<nat>) {
    forall i | 0 <= i < |layers| :: layers[i].kind == Swa ==> window.Some?
  }

  /** Refuses a sliding-window layer without a window; otherwise each part is its bytes, rounded up to MiB. */
  method KvCacheComponents(g: Geometry, load: Load) returns (r: Option<Cache>)
    ensures r.Some? <==> ValidLayers(g.layers, g.slidingWindow)
    ensures r.Some? ==>
              && r.value.fullMib == CeilDiv(Sum32(g.layers, Full, g.slidingWindow, load), 32 * MIB)
              && r.value.swaMib == CeilDiv(Sum32(g.layers, Swa, g.slidingWindow, load), 32 * MIB)
              && r.value.kvMib == r.value.fullMib + r.value.swaMib
    ensures r.Some? ==>
              && LeastMib(KindBytes(g.layers, Full, g.slidingWindow, load), r.value.fullMib)
              && LeastMib(KindBytes(g.layers, Swa, g.slidingWindow, load), r.value.swaMib)
  {
    hide Layer32, CeilDiv, KindBytes, LeastMib;
    var full, swa := 0, 0;
    for i := 0 to |g.layers|
      invariant full == Sum32(g.layers[..i], Full, g.slidingWindow, load)
      invariant swa == Sum32(g.layers[..i], Swa, g.slidingWindow, load)
      invariant ValidLayers(g.layers[..i], g.slidingWindow)
    {
      var layer := g.layers[i];
      assert g.layers[..i + 1][..i] == g.layers[..i];
      if layer.kind == Swa && g.slidingWindow.None? {
        return None;
      }
      if layer.kind == Full {
        full := full + Layer32(layer, g.slidingWindow, load);
      } else if layer.kind == Swa {
        swa := swa + Layer32(layer, g.slidingWindow, load);
      }
    }
    assert g.layers[..|g.layers|] == g.layers;
    var fullMib, swaMib := CeilDiv(full, 32 * MIB), CeilDiv(swa, 32 * MIB);
    SumIsBytes(g.layers, Full, g.slidingWindow, load);
    SumIsBytes(g.layers, Swa, g.slidingWindow, load);
    CeilIsLeast(full, KindBytes(g.layers, Full, g.slidingWindow, load));
    CeilIsLeast(swa, KindBytes(g.layers, Swa, g.slidingWindow, load));
    return Some(Cache(fullMib, swaMib, fullMib + swaMib));
  }

  // ---- the bytes of a layer ----

  /** Bytes per element. */
  function PerElement(t: CacheType): real {
    match t
    case F32 => 4.0
    case F16 => 2.0
    case BF16 => 2.0
    case Q8_0 => 1.0625
    case Q5_1 => 0.75
    case Q5_0 => 0.6875
    case Q4_1 => 0.625
    case Q4_0 => 0.5625
  }

  /**
   * How many cells a layer keeps: the whole context, or a sliding window and one batch of it, whichever is less, padded
   * to a multiple of 256; a recurrent layer keeps none.
   */
  predicate Keeps(layer: Layer, window: Option<nat>, load: Load, cells: nat) {
    match layer.kind
    case Full => cells == load.ctx
    case Recurrent => cells == 0
    case Swa =>
      && window.Some? && cells % 256 == 0
      && (load.ctx <= cells || window.value + load.ubatch <= cells)
      && cells < load.ctx + 256 && cells < window.value + load.ubatch + 256
  }

  /** Keys and values of every head in every cell, each in its own type. */
  function LayerBytes(layer: Layer, cells: nat, load: Load): real {
    (cells * layer.heads * layer.keyLength) as real * PerElement(load.k)
    + (cells * layer.heads * layer.valueLength) as real * PerElement(load.v)
  }

  lemma Exact(t: CacheType)
    ensures PerElement(t) * 32.0 == Per32(t) as real
  {
  }

  lemma Products(cells: nat, heads: nat, n: nat, per: nat, each: real)
    requires each * 32.0 == per as real
    ensures ((cells * heads * n) as real * each) * 32.0 == (cells * (heads * (n * per))) as real
  {
    var count := cells * heads * n;
    assert count * per == cells * (heads * (n * per));
    assert (count as real * each) * 32.0 == count as real * (each * 32.0) == count as real * per as real;
    assert count as real * per as real == (count * per) as real;
  }

  /** The cache of a layer is what its own geometry, its kind and the two cache types make it. */
  lemma LayerIsBytes(layer: Layer, window: Option<nat>, load: Load)
    requires layer.kind == Swa ==> window.Some?
    ensures var cells := Cells(layer.kind, window, load);
            Keeps(layer, window, load, cells)
            && Layer32(layer, window, load) as real == LayerBytes(layer, cells, load) * 32.0
  {
    hide Per32, PerElement;
    Exact(load.k);
    Exact(load.v);
    var cells := Cells(layer.kind, window, load);
    var keys, values := layer.keyLength * Per32(load.k), layer.valueLength * Per32(load.v);
    Products(cells, layer.heads, layer.keyLength, Per32(load.k), PerElement(load.k));
    Products(cells, layer.heads, layer.valueLength, Per32(load.v), PerElement(load.v));
    assert cells * (layer.heads * (keys + values)) == cells * (layer.heads * keys) + cells * (layer.heads * values);
  }

  /** The bytes of all layers of a kind. */
  function KindBytes(layers: seq<Layer>, kind: Kind, window: Option<nat>, load: Load): real {
    if layers == [] then 0.0
    else
      var n := |layers| - 1;
      KindBytes(layers[..n], kind, window, load)
      + if layers[n].kind == kind then LayerBytes(layers[n], Cells(kind, window, load), load) else 0.0
  }

  lemma {:induction false} SumIsBytes(layers: seq<Layer>, kind: Kind, window: Option<nat>, load: Load)
    requires ValidLayers(layers, window)
    ensures Sum32(layers, kind, window, load) as real == KindBytes(layers, kind, window, load) * 32.0
  {
    hide Layer32, LayerBytes, Cells;
    if layers != [] {
      var n := |layers| - 1;
      SumIsBytes(layers[..n], kind, window, load);
      LayerIsBytes(layers[n], window, load);
    }
  }

  /** The least number of whole MiB that holds so many bytes. */
  predicate LeastMib(bytes: real, mib: nat) {
    bytes <= mib as real * 1_048_576.0 && (mib > 0 ==> (mib - 1) as real * 1_048_576.0 < bytes)
  }

  lemma CeilIsLeast(n: nat, bytes: real)
    requires n as real == bytes * 32.0
    ensures LeastMib(bytes, CeilDiv(n, 32 * MIB))
  {
    var r := CeilDiv(n, 32 * MIB);
    assert n as real <= (r * (32 * MIB)) as real == r as real * 1_048_576.0 * 32.0;
    if r > 0 {
      assert ((r - 1) * (32 * MIB)) as real == (r - 1) as real * 1_048_576.0 * 32.0;
    }
  }

  /** A layer keeps one number of cells. */
  lemma KeepsOne(layer: Layer, window: Option<nat>, load: Load, a: nat, b: nat)
    requires Keeps(layer, window, load, a) && Keeps(layer, window, load, b)
    ensures a == b
  {
  }

  lemma TimesMonotone(a: nat, b: nat, c: nat)
    requires a <= b
    ensures a * c <= b * c
  {
  }

  lemma PadMonotone(a: nat, b: nat)
    requires a <= b
    ensures Pad256(a) <= Pad256(b)
  {
    assert (a + 255) / 256 <= (b + 255) / 256;
  }

  lemma LayerMonotone(layer: Layer, window: Option<nat>, few: Load, many: nat)
    requires few.ctx <= many
    ensures Layer32(layer, window, few) <= Layer32(layer, window, few.(ctx := many))
  {
    hide Cell32, Pad256;
    var more := few.(ctx := many);
    assert Cell32(layer, few) == Cell32(layer, more) by { CellIgnoresContext(layer, few, many); }
    if window.Some? {
      PadMonotone(Min(few.ctx, window.value + few.ubatch), Min(many, window.value + few.ubatch));
    }
    TimesMonotone(Cells(layer.kind, window, few), Cells(layer.kind, window, more), Cell32(layer, few));
  }

  lemma CellIgnoresContext(layer: Layer, load: Load, ctx: nat)
    ensures Cell32(layer, load.(ctx := ctx)) == Cell32(layer, load)
  {
  }

  /** A longer context never needs a smaller cache. */
  lemma {:induction false} CacheMonotone(layers: seq<Layer>, kind: Kind, window: Option<nat>, few: Load, many: nat)
    requires few.ctx <= many
    ensures Sum32(layers, kind, window, few) <= Sum32(layers, kind, window, few.(ctx := many))
  {
    hide Layer32;
    if layers != [] {
      var n := |layers| - 1;
      CacheMonotone(layers[..n], kind, window, few, many);
      LayerMonotone(layers[n], window, few, many);
    }
  }

  // ---- the most expensive models ----

  datatype Model = Model(alias: string, weights: nat, ramWeights: nat, kv: nat)

  function Required(m: Model): nat {
    m.weights + m.kv + RUNTIME_OVERHEAD_MIB
  }

  function RamWeights(m: Model): nat {
    m.ramWeights
  }

  function Sum(models: seq<Model>, cost: Model -> nat): nat {
    if models == [] then 0 else cost(models[0]) + Sum(models[1..], cost)
  }

  predicate Descending(models: seq<Model>, cost: Model -> nat) {
    forall i, j | 0 <= i < j < |models| :: cost(models[i]) >= cost(models[j])
  }

  function Falling(cost: Model -> nat): Model -> int {
    (m: Model) => 0 - cost(m)
  }

  /** The models by descending cost; equals stay in order. */
  function Ranked(models: seq<Model>, cost: Model -> nat): (r: seq<Model>)
    ensures |r| == |models|
  {
    Sort(models, Falling(cost))
  }

  lemma RankedRanks(models: seq<Model>, cost: Model -> nat)
    ensures Descending(Ranked(models, cost), cost) && multiset(Ranked(models, cost)) == multiset(models)
  {
    SortSorts(models, Falling(cost));
    hide Sort;
    var ranked := Ranked(models, cost);
    forall i, j | 0 <= i < j < |ranked|
      ensures cost(ranked[i]) >= cost(ranked[j])
    {
      assert Falling(cost)(ranked[i]) <= Falling(cost)(ranked[j]);
    }
  }

  /** A choice of at most `most` of the models. */
  predicate Resident(r: seq<Model>, models: seq<Model>, most: nat) {
    |r| <= most && multiset(r) <= multiset(models)
  }

  function Top(models: seq<Model>, most: nat, cost: Model -> nat): nat {
    var ranked := Ranked(models, cost);
    Sum(ranked[..Min(most, |ranked|)], cost)
  }

  lemma {:induction false} SumRemove(r: seq<Model>, i: nat, cost: Model -> nat)
    requires i < |r|
    ensures Sum(r, cost) == cost(r[i]) + Sum(r[..i] + r[i + 1..], cost)
  {
    if i == 0 {
      assert r[..0] + r[1..] == r[1..];
    } else {
      SumRemove(r[1..], i - 1, cost);
      assert r[1..][..i - 1] + r[1..][i..] == (r[..i] + r[i + 1..])[1..];
    }
  }

  lemma RemoveFrom(r: seq<Model>, i: nat)
    requires i < |r|
    ensures multiset(r[..i] + r[i + 1..]) == multiset(r) - multiset{r[i]}
  {
    assert r == r[..i] + [r[i]] + r[i + 1..];
  }

  /** Some element can go so that the rest is a choice from all but the most expensive model. */
  lemma TakeOne(sorted: seq<Model>, r: seq<Model>, cost: Model -> nat) returns (i: nat)
    requires Descending(sorted, cost) && multiset(r) <= multiset(sorted) && r != []
    ensures sorted != [] && i < |r| && cost(r[i]) <= cost(sorted[0])
    ensures multiset(r[..i] + r[i + 1..]) <= multiset(sorted[1..])
  {
    assert r[0] in multiset(r) && r[0] in multiset(sorted) && r[0] in sorted;
    i := 0;
    if sorted[0] in r {
      i :| i < |r| && r[i] == sorted[0];
    }
    assert r[i] in multiset(r) && r[i] in multiset(sorted) && r[i] in sorted;
    RemoveFrom(r, i);
    assert sorted == [sorted[0]] + sorted[1..];
    assert multiset(sorted[1..]) == multiset(sorted) - multiset{sorted[0]};
  }

  /** The first `most` of a descending list cost at least as much as any `most` of its elements. */
  lemma {:induction false} PrefixDominates(sorted: seq<Model>, r: seq<Model>, most: nat, cost: Model -> nat)
    requires Descending(sorted, cost) && Resident(r, sorted, most) && most <= |sorted|
    ensures Sum(r, cost) <= Sum(sorted[..most], cost)
    decreases most
  {
    if r != [] {
      var i := TakeOne(sorted, r, cost);
      var rest := r[..i] + r[i + 1..];
      SumRemove(r, i, cost);
      PrefixDominates(sorted[1..], rest, most - 1, cost);
      assert sorted[..most][0] == sorted[0] && sorted[..most][1..] == sorted[1..][..most - 1];
      hide Descending;
    }
  }

  /** No choice of at most `most` models costs more than the most expensive ones, and one costs as much. */
  lemma TopCovers(models: seq<Model>, most: nat, cost: Model -> nat)
    requires most <= |models|
    ensures forall r | Resident(r, models, most) :: Sum(r, cost) <= Top(models, most, cost)
    ensures exists r | Resident(r, models, most) :: Sum(r, cost) == Top(models, most, cost)
  {
    var ranked := Ranked(models, cost);
    RankedRanks(models, cost);
    forall r | Resident(r, models, most)
      ensures Sum(r, cost) <= Top(models, most, cost)
    {
      PrefixDominates(ranked, r, most, cost);
    }
    assert ranked == ranked[..most] + ranked[most..];
    assert Resident(ranked[..most], models, most);
  }

  // ---- the VRAM verdict ----

  datatype Gpu = Gpu(total: nat, compositorUsed: nat, reserveFloor: nat, ceiling: Option<nat>, extraReserved: nat)

  datatype Vram = Vram(reserve: nat, available: int, required: nat, shortfall: nat, feasible: bool,
                       resident: seq<Model>)

  function CeilingOf(gpu: Gpu): nat {
    if gpu.ceiling.Some? then Min(gpu.total, gpu.ceiling.value) else gpu.total
  }

  /**
   * These models fit: their weights, caches and overhead, the extra reserve and the spike headroom, together with what
   * the compositor uses and likewise with the reserve floor, stay within the GPU and the ceiling, if there is one.
   */
  predicate FitsVram(r: seq<Model>, gpu: Gpu) {
    var needed := Sum(r, (m: Model) => m.weights) + Sum(r, (m: Model) => m.kv) + 512 * |r| + gpu.extraReserved + 1024;
    && needed + gpu.compositorUsed <= gpu.total && needed + gpu.reserveFloor <= gpu.total
    && (gpu.ceiling.Some? ==>
          needed + gpu.compositorUsed <= gpu.ceiling.value && needed + gpu.reserveFloor <= gpu.ceiling.value)
  }

  lemma {:induction false} SumRequired(r: seq<Model>)
    ensures Sum(r, Required) == Sum(r, (m: Model) => m.weights) + Sum(r, (m: Model) => m.kv) + 512 * |r|
  {
    if r != [] {
      SumRequired(r[1..]);
    }
  }

  lemma FitsIff(r: seq<Model>, gpu: Gpu)
    ensures FitsVram(r, gpu) <==>
            Sum(r, Required) + Max(gpu.compositorUsed, gpu.reserveFloor) + gpu.extraReserved + SPIKE_HEADROOM_MIB
            <= CeilingOf(gpu)
  {
    SumRequired(r);
  }

  method ComputeBudget(gpu: Gpu, costs: seq<Model>, modelsMax: nat) returns (r: Option<Vram>)
    ensures r.Some? <==> 1 <= modelsMax <= |costs|
    ensures r.Some? ==> r.value.required == Top(costs, modelsMax, Required)
                        && r.value.resident == Ranked(costs, Required)[..modelsMax]
    ensures r.Some? ==> (r.value.feasible <==> forall s | Resident(s, costs, modelsMax) :: FitsVram(s, gpu))
    ensures r.Some? ==> (r.value.feasible <==> r.value.shortfall == 0)
    ensures r.Some? && !r.value.feasible ==> r.value.shortfall == r.value.required - r.value.available
    ensures r.Some? ==>
              && r.value.reserve in {gpu.compositorUsed, gpu.reserveFloor}
              && gpu.compositorUsed <= r.value.reserve && gpu.reserveFloor <= r.value.reserve
              && r.value.available + r.value.reserve + gpu.extraReserved + 1024 == CeilingOf(gpu)
  {
    if modelsMax < 1 || modelsMax > |costs| {
      return None;
    }
    var reserve := Max(gpu.compositorUsed, gpu.reserveFloor);
    var available := CeilingOf(gpu) - reserve - gpu.extraReserved - SPIKE_HEADROOM_MIB;
    RankedRanks(costs, Required);
    var resident := Ranked(costs, Required)[..modelsMax];
    var required := Total(resident, Required);
    var shortfall := Max(0, required - available);
    CoverageDecides(gpu, costs, modelsMax);
    return Some(Vram(reserve, available, required, shortfall, shortfall == 0, resident));
  }

  method Total(models: seq<Model>, cost: Model -> nat) returns (total: nat)
    ensures total == Sum(models, cost)
  {
    total := 0;
    for i := 0 to |models|
      invariant total + Sum(models[i..], cost) == Sum(models, cost)
    {
      assert models[i..][1..] == models[i + 1..];
      total := total + cost(models[i]);
    }
  }

  lemma CoverageDecides(gpu: Gpu, costs: seq<Model>, modelsMax: nat)
    requires modelsMax <= |costs|
    ensures (forall s | Resident(s, costs, modelsMax) :: FitsVram(s, gpu)) <==>
            Top(costs, modelsMax, Required) + Max(gpu.compositorUsed, gpu.reserveFloor) + gpu.extraReserved
              + SPIKE_HEADROOM_MIB <= CeilingOf(gpu)
  {
    hide Top, FitsVram;
    TopCovers(costs, modelsMax, Required);
    forall r ensures FitsVram(r, gpu) <==>
                     Sum(r, Required) + Max(gpu.compositorUsed, gpu.reserveFloor) + gpu.extraReserved
                       + SPIKE_HEADROOM_MIB <= CeilingOf(gpu)
    {
      FitsIff(r, gpu);
    }
    var worst :| Resident(worst, costs, modelsMax) && Sum(worst, Required) == Top(costs, modelsMax, Required);
    assert FitsVram(worst, gpu) <==>
           Top(costs, modelsMax, Required) + Max(gpu.compositorUsed, gpu.reserveFloor) + gpu.extraReserved
             + SPIKE_HEADROOM_MIB <= CeilingOf(gpu);
  }
}
