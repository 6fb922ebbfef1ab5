/**
 * The tensor table of a GGUF file. Sizes are the gaps between sorted offsets; they partition the data section, and the
 * part of them that belongs to routed experts is what a mixture-of-experts model keeps in RAM.
 */
module GgufTensors {
  import opened Numbers
  import opened Sorting
  import opened Wrappers
  import opened GgufFormat
  import opened GgufReader

  type Name = seq<byte>

  datatype Info = Info(name: Name, offset: nat)

  /** The table sorted by offset, and where the data section begins and ends. */
  datatype Layout = Layout(alignment: nat, start: nat, infos: seq<Info>, fileSize: nat)

  const DEFAULT_ALIGNMENT := 32
  const MIB := 1_048_576

  function Ascii(s: string): (raw: seq<byte>)
    ensures |raw| == |s| && forall i | 0 <= i < |s| :: s[i] as int < 128 ==> raw[i] == s[i] as int
  {
    seq(|s|, i requires 0 <= i < |s| => s[i] as int % 256)
  }

  // ---- the table ----

  function AlignmentOf(metadata: Metadata): Result<nat, Error> {
    var key := Ascii("general.alignment");
    if key !in metadata then Ok(DEFAULT_ALIGNMENT)
    else match metadata[key]
      case Int(n) => if n > 0 then Ok(n) else Err(BadAlignment)
      case _ => Err(BadAlignment)
  }

  function ReadInfo(data: seq<byte>, pos: nat, alignment: nat): Parsed<Info>
    requires alignment > 0
  {
    match ReadText(data, pos)
    case Failed(e) => Failed(e)
    case Done(name, p0) =>
      match ReadNumber(data, p0, 4)
      case Failed(e) => Failed(e)
      case Done(dims, p1) =>
        if p1 + 8 * dims + 4 > |data| then Failed(Truncated)
        else
          match ReadNumber(data, p1 + 8 * dims + 4, 8)
          case Failed(e) => Failed(e)
          case Done(offset, p2) => if offset % alignment != 0 then Failed(Misaligned) else Done(Info(name, offset), p2)
  }

  function ReadInfos(data: seq<byte>, pos: nat, count: nat, alignment: nat, infos: seq<Info>): Parsed<seq<Info>>
    requires alignment > 0
    decreases count
  {
    if count == 0 then Done(infos, pos)
    else
      match ReadInfo(data, pos, alignment)
      case Failed(e) => Failed(e)
      case Done(info, next) => ReadInfos(data, next, count - 1, alignment, infos + [info])
  }

  method ReadRow(fh: Stream, alignment: nat) returns (r: Result<Info, Error>)
    requires fh.Valid() && alignment > 0
    modifies fh
    ensures fh.Valid() && Follows(ReadInfo(fh.data, old(fh.pos), alignment), r, fh.pos)
  {
    hide ReadText, ReadNumber;
    var name := fh.ReadString();
    if name.Err? {
      return Err(name.error);
    }
    var dims := fh.Unpack(4);
    if dims.Err? {
      return Err(dims.error);
    }
    var skipped := fh.SkipExact(8 * dims.value);
    if skipped.Err? {
      return Err(skipped.error);
    }
    skipped := fh.SkipExact(4);
    if skipped.Err? {
      return Err(skipped.error);
    }
    var offset := fh.Unpack(8);
    if offset.Err? {
      return Err(offset.error);
    }
    if offset.value % alignment != 0 {
      return Err(Misaligned);
    }
    return Ok(Info(name.value, offset.value));
  }

  method ReadTable(fh: Stream, count: nat, alignment: nat) returns (r: Result<seq<Info>, Error>)
    requires fh.Valid() && alignment > 0
    modifies fh
    ensures fh.Valid() && Follows(ReadInfos(fh.data, old(fh.pos), count, alignment, []), r, fh.pos)
  {
    var infos: seq<Info> := [];
    for i := 0 to count
      invariant fh.Valid()
      invariant ReadInfos(fh.data, old(fh.pos), count, alignment, []) ==
                ReadInfos(fh.data, fh.pos, count - i, alignment, infos)
    {
      hide ReadInfo;
      var info := ReadRow(fh, alignment);
      if info.Err? {
        return Err(info.error);
      }
      infos := infos + [info.value];
    }
    return Ok(infos);
  }

  // ---- sorting by offset ----

  function OffsetOf(info: Info): int {
    info.offset
  }

  function SortByOffset(infos: seq<Info>): seq<Info> {
    Sort(infos, OffsetOf)
  }

  // ---- the layout of the data section ----

  function Aligned(n: nat, alignment: nat): nat
    requires alignment > 0
  {
    if n % alignment != 0 then n + (alignment - n % alignment) else n
  }

  predicate StrictlyIncreasing(infos: seq<Info>) {
    forall i | 0 <= i < |infos| - 1 :: infos[i].offset < infos[i + 1].offset
  }

  /** The layout of a whole file, or why it is refused. */
  function LayoutOf(data: seq<byte>): Result<Layout, Error> {
    match ReadHeader(data)
    case Failed(e) => Err(e)
    case Done(header, pos) =>
      match AlignmentOf(header.metadata)
      case Err(e) => Err(e)
      case Ok(alignment) =>
        if alignment == 0 then Err(BadAlignment)
        else
          match ReadInfos(data, pos, header.tensorCount, alignment, [])
          case Failed(e) => Err(e)
          case Done(infos, end) =>
            var l := Layout(alignment, Aligned(end, alignment), SortByOffset(infos), |data|);
            if !StrictlyIncreasing(l.infos) then Err(OutOfOrder)
            else if l.infos != [] && l.infos[|l.infos| - 1].offset > l.fileSize - l.start then Err(PastEnd)
            else Ok(l)
  }

  predicate LaidOut(l: Layout) {
    && l.alignment > 0 && l.start % l.alignment == 0
    && (forall i | 0 <= i < |l.infos| :: l.infos[i].offset % l.alignment == 0)
    && (forall i, j | 0 <= i < j < |l.infos| :: l.infos[i].offset < l.infos[j].offset)
    && (l.infos != [] ==> l.start + l.infos[|l.infos| - 1].offset <= l.fileSize)
  }

  function Begin(l: Layout, i: nat): nat
    requires i < |l.infos|
  {
    l.start + l.infos[i].offset
  }

  function End(l: Layout, i: nat): nat
    requires i < |l.infos|
  {
    if i + 1 < |l.infos| then l.start + l.infos[i + 1].offset else l.fileSize
  }

  function SizeAt(l: Layout, i: nat): nat
    requires LaidOut(l) && i < |l.infos|
  {
    End(l, i) - Begin(l, i)
  }

  lemma {:induction false} InfosAligned(data: seq<byte>, pos: nat, count: nat, alignment: nat, infos: seq<Info>)
    requires alignment > 0 && forall x | x in infos :: x.offset % alignment == 0
    requires ReadInfos(data, pos, count, alignment, infos).Done?
    ensures forall x | x in ReadInfos(data, pos, count, alignment, infos).value :: x.offset % alignment == 0
    decreases count
  {
    if count > 0 {
      var info := ReadInfo(data, pos, alignment);
      assert info.value.offset % alignment == 0;
      hide ReadInfo;
      InfosAligned(data, info.next, count - 1, alignment, infos + [info.value]);
    }
  }

  lemma {:induction false} IncreasingThroughout(infos: seq<Info>, i: nat, j: nat)
    requires StrictlyIncreasing(infos) && i < j < |infos|
    ensures infos[i].offset < infos[j].offset
  {
    if i + 1 < j {
      IncreasingThroughout(infos, i, j - 1);
    }
  }

  lemma AlignedIsAligned(n: nat, alignment: nat)
    requires alignment > 0
    ensures Aligned(n, alignment) % alignment == 0 && n <= Aligned(n, alignment) < n + alignment
  {
    var q, r := n / alignment, n % alignment;
    assert n == q * alignment + r;
    if r != 0 {
      assert Aligned(n, alignment) == (q + 1) * alignment;
      assert (q + 1) * alignment % alignment == 0 by { Multiple(q + 1, alignment); }
    }
  }

  lemma Grows(k: int, m: nat)
    requires k >= 1
    ensures k * m >= m
  {
  }

  lemma Multiple(q: nat, m: nat)
    requires m > 0
    ensures q * m % m == 0
  {
    var d, r := q * m / m, q * m % m;
    assert q * m == d * m + r;
    assert (q - d) * m == r && (d - q) * m == -r;
    if q > d {
      Grows(q - d, m);
    }
    if d > q {
      Grows(d - q, m);
    }
  }

  /** A file that is not refused has a table in order, with every tensor inside the data section. */
  lemma LayoutIsLaidOut(data: seq<byte>)
    requires LayoutOf(data).Ok?
    ensures LaidOut(LayoutOf(data).value)
  {
    var l := LayoutOf(data).value;
    var pos := ReadHeader(data).next;
    var count := ReadHeader(data).value.tensorCount;
    var parsed := ReadInfos(data, pos, count, l.alignment, []);
    hide ReadHeader, ReadInfos, ReadInfo, AlignmentOf;
    InfosAligned(data, pos, count, l.alignment, []);
    SortSorts(parsed.value, OffsetOf);
    AlignedIsAligned(parsed.next, l.alignment);
    hide SortByOffset, Aligned;
    forall i | 0 <= i < |l.infos|
      ensures l.infos[i].offset % l.alignment == 0
    {
      assert l.infos[i] in multiset(l.infos);
      assert l.infos[i] in parsed.value;
    }
    forall i, j | 0 <= i < j < |l.infos|
      ensures l.infos[i].offset < l.infos[j].offset
    {
      IncreasingThroughout(l.infos, i, j);
    }
  }

  /** Every tensor begins at an aligned byte, in the data section, and ends inside the file. */
  lemma IntervalInside(l: Layout, i: nat)
    requires LaidOut(l) && i < |l.infos|
    ensures Begin(l, i) % l.alignment == 0
    ensures l.start <= Begin(l, i) <= End(l, i) <= l.fileSize
    ensures i + 1 < |l.infos| ==> Begin(l, i) < End(l, i)
  {
    AlignedSum(l.start, l.infos[i].offset, l.alignment);
    var last := |l.infos| - 1;
    assert i < last ==> l.infos[i].offset < l.infos[last].offset;
    assert i + 1 < last ==> l.infos[i + 1].offset < l.infos[last].offset;
  }

  /** Two tensors never share a byte. */
  lemma IntervalsDisjoint(l: Layout, i: nat, j: nat)
    requires LaidOut(l) && i < j < |l.infos|
    ensures End(l, i) <= Begin(l, j)
  {
    assert i + 1 < j ==> l.infos[i + 1].offset < l.infos[j].offset;
  }

  lemma AlignedSum(a: nat, b: nat, m: nat)
    requires m > 0 && a % m == 0 && b % m == 0
    ensures (a + b) % m == 0
  {
    var p, q := a / m, b / m;
    assert a == p * m && b == q * m;
    assert a + b == (p + q) * m;
    Multiple(p + q, m);
  }

  // ---- sizes by name ----

  /** The sizes of the first `n` tensors; of two tensors with the same name the later one counts. */
  function SizesUpTo(l: Layout, n: nat): map<Name, nat>
    requires LaidOut(l) && n <= |l.infos|
  {
    if n == 0 then map[] else SizesUpTo(l, n - 1)[l.infos[n - 1].name := SizeAt(l, n - 1)]
  }

  function SizesOf(l: Layout): map<Name, nat>
    requires LaidOut(l)
  {
    SizesUpTo(l, |l.infos|)
  }

  lemma {:induction false} SizeOfName(l: Layout, n: nat, i: nat)
    requires LaidOut(l) && i < n <= |l.infos| && forall j | i < j < n :: l.infos[j].name != l.infos[i].name
    ensures l.infos[i].name in SizesUpTo(l, n) && SizesUpTo(l, n)[l.infos[i].name] == SizeAt(l, i)
  {
    if i + 1 < n {
      SizeOfName(l, n - 1, i);
    }
  }

  /** The size of a tensor reaches to the next offset there is, and that of the last one to the end of the file. */
  lemma SizeIsGap(l: Layout, i: nat)
    requires LaidOut(l) && i < |l.infos| && forall j | i < j < |l.infos| :: l.infos[j].name != l.infos[i].name
    ensures l.infos[i].name in SizesOf(l)
    ensures var offset, size := l.infos[i].offset, SizesOf(l)[l.infos[i].name];
            && (forall x | x in l.infos :: x.offset <= offset || offset + size <= x.offset)
            && if exists x :: x in l.infos && offset < x.offset
               then exists x :: x in l.infos && x.offset == offset + size
               else l.start + offset + size == l.fileSize
  {
    SizeOfName(l, |l.infos|, i);
    hide SizesUpTo;
    var offset := l.infos[i].offset;
    forall x | x in l.infos ensures x.offset <= offset || (i + 1 < |l.infos| && l.infos[i + 1].offset <= x.offset) {
      var k :| 0 <= k < |l.infos| && l.infos[k] == x;
      assert i < k ==> offset < x.offset && (i + 1 < k ==> l.infos[i + 1].offset < x.offset);
    }
    if i + 1 < |l.infos| {
      assert l.infos[i + 1] in l.infos;
    }
  }

  method CheckOrder(infos: seq<Info>) returns (ok: bool)
    ensures ok <==> StrictlyIncreasing(infos)
  {
    for i := 0 to if infos == [] then 0 else |infos| - 1
      invariant forall k | 0 <= k < i :: infos[k].offset < infos[k + 1].offset
    {
      if infos[i].offset >= infos[i + 1].offset {
        return false;
      }
    }
    return true;
  }

  /** The size of every tensor of a file, from its header alone. */
  method TensorSizes(data: seq<byte>) returns (r: Result<map<Name, nat>, Error>)
    ensures LayoutOf(data).Ok? ==> LaidOut(LayoutOf(data).value) && r == Ok(SizesOf(LayoutOf(data).value))
    ensures LayoutOf(data).Err? ==> r == Err(LayoutOf(data).error)
  {
    hide ReadHeader, ReadInfos, AlignmentOf, SortByOffset, StrictlyIncreasing;
    var header, fh := ReadGgufHeader(data);
    if header.Err? {
      return Err(header.error);
    }
    var alignment := AlignmentOf(header.value.metadata);
    if alignment.Err? {
      return Err(alignment.error);
    }
    if alignment.value == 0 {
      return Err(BadAlignment);
    }
    var table := ReadTable(fh, header.value.tensorCount, alignment.value);
    if table.Err? {
      return Err(table.error);
    }
    var start, infos := Aligned(fh.pos, alignment.value), SortByOffset(table.value);
    var ordered := CheckOrder(infos);
    if !ordered {
      return Err(OutOfOrder);
    }
    if infos != [] && infos[|infos| - 1].offset > |data| - start {
      return Err(PastEnd);
    }
    ghost var l := LayoutOf(data).value;
    LayoutIsLaidOut(data);
    hide LayoutOf;
    var sizes: map<Name, nat> := map[];
    for i := 0 to |infos|
      invariant sizes == SizesUpTo(l, i)
    {
      var next := if i + 1 < |infos| then infos[i + 1].offset else |data| - start;
      sizes := sizes[infos[i].name := next - infos[i].offset];
    }
    return Ok(sizes);
  }

  // ---- sums ----

  ghost function SumOver(sizes: map<Name, nat>, names: set<Name>): nat
    requires names <= sizes.Keys
  {
    if names == {} then 0 else
      var name :| name in names;
      sizes[name] + SumOver(sizes, names - {name})
  }

  lemma {:induction false} SumWithout(sizes: map<Name, nat>, names: set<Name>, name: Name)
    requires names <= sizes.Keys && name in names
    ensures SumOver(sizes, names) == sizes[name] + SumOver(sizes, names - {name})
    decreases |names|
  {
    var first :| first in names && SumOver(sizes, names) == sizes[first] + SumOver(sizes, names - {first});
    if first != name {
      SumWithout(sizes, names - {first}, name);
      SumWithout(sizes, names - {name}, first);
      assert names - {first} - {name} == names - {name} - {first};
    }
  }

  lemma {:induction false} SumMonotone(sizes: map<Name, nat>, some: set<Name>, more: set<Name>)
    requires some <= more <= sizes.Keys
    ensures SumOver(sizes, some) <= SumOver(sizes, more)
    decreases |some|
  {
    if some != {} {
      var name :| name in some;
      SumWithout(sizes, some, name);
      SumWithout(sizes, more, name);
      SumMonotone(sizes, some - {name}, more - {name});
    }
  }

  lemma {:induction false} SumSame(a: map<Name, nat>, b: map<Name, nat>, names: set<Name>)
    requires names <= a.Keys * b.Keys && forall n | n in names :: a[n] == b[n]
    ensures SumOver(a, names) == SumOver(b, names)
    decreases |names|
  {
    if names != {} {
      var name :| name in names;
      SumWithout(a, names, name);
      SumWithout(b, names, name);
      SumSame(a, b, names - {name});
    }
  }

  lemma SumUpdate(sizes: map<Name, nat>, name: Name, size: nat)
    ensures SumOver(sizes[name := size], sizes.Keys + {name}) == size + SumOver(sizes, sizes.Keys - {name})
  {
    var more := sizes[name := size];
    SumWithout(more, sizes.Keys + {name}, name);
    assert sizes.Keys + {name} - {name} == sizes.Keys - {name};
    SumSame(more, sizes, sizes.Keys - {name});
  }

  function LimitOf(l: Layout, n: nat): nat
    requires LaidOut(l) && n <= |l.infos|
  {
    if n == |l.infos| then l.fileSize else Begin(l, n)
  }

  predicate DistinctNames(infos: seq<Info>) {
    forall i, j | 0 <= i < j < |infos| :: infos[i].name != infos[j].name
  }

  lemma {:induction false} SizesSumUpTo(l: Layout, n: nat)
    requires LaidOut(l) && 0 < n <= |l.infos|
    ensures var sizes := SizesUpTo(l, n);
            && SumOver(sizes, sizes.Keys) <= LimitOf(l, n) - Begin(l, 0)
            && (forall name | name in sizes :: exists i | 0 <= i < n :: l.infos[i].name == name)
            && (DistinctNames(l.infos) ==> SumOver(sizes, sizes.Keys) == LimitOf(l, n) - Begin(l, 0))
  {
    var earlier := SizesUpTo(l, n - 1);
    var last := l.infos[n - 1].name;
    SumUpdate(earlier, last, SizeAt(l, n - 1));
    assert SizesUpTo(l, n).Keys == earlier.Keys + {last};
    SumMonotone(earlier, earlier.Keys - {last}, earlier.Keys);
    if n > 1 {
      SizesSumUpTo(l, n - 1);
      if DistinctNames(l.infos) {
        assert earlier.Keys - {last} == earlier.Keys;
      }
    }
  }

  /**
   * With distinct names the sizes partition the data section from the first tensor on; with repeated names they cover
   * less of it.
   */
  lemma SizesSum(l: Layout)
    requires LaidOut(l) && l.infos != []
    ensures var sum := SumOver(SizesOf(l), SizesOf(l).Keys);
            && sum <= l.fileSize - l.start - l.infos[0].offset
            && (DistinctNames(l.infos) ==> sum == l.fileSize - l.start - l.infos[0].offset)
  {
    SizesSumUpTo(l, |l.infos|);
  }

  // ---- what goes to RAM ----

  /** The routed-expert tensors of the first `blocks` blocks; `block` names the block of such a tensor. */
  function Offloaded(sizes: map<Name, nat>, block: Name -> Option<nat>, blocks: int): set<Name> {
    set name | name in sizes && block(name).Some? && block(name).value < blocks
  }

  function CeilMib(bytes: nat): nat {
    CeilDiv(bytes, MIB)
  }

  method OffloadedBytes(sizes: map<Name, nat>, block: Name -> Option<nat>, blocks: int) returns (bytes: nat)
    ensures bytes == SumOver(sizes, Offloaded(sizes, block, blocks))
  {
    bytes := 0;
    var todo := sizes.Keys;
    assert todo * Offloaded(sizes, block, blocks) == Offloaded(sizes, block, blocks);
    while todo != {}
      invariant todo <= sizes.Keys
      invariant bytes + SumOver(sizes, todo * Offloaded(sizes, block, blocks)) ==
                SumOver(sizes, Offloaded(sizes, block, blocks))
      decreases |todo|
    {
      var name :| name in todo;
      ghost var left := todo * Offloaded(sizes, block, blocks);
      hide SumOver;
      if block(name).Some? && block(name).value < blocks {
        SumWithout(sizes, left, name);
        bytes := bytes + sizes[name];
      } else {
        assert left - {name} == left;
      }
      assert (todo - {name}) * Offloaded(sizes, block, blocks) == left - {name};
      todo := todo - {name};
    }
  }

  datatype OffloadError = NoArchitecture | NoExperts | BadFile(error: Error)

  /** The architecture a model names, if it names one. */
  function ArchitectureOf(metadata: Metadata): Option<seq<byte>> {
    var key := Ascii("general.architecture");
    if key in metadata && metadata[key].Text? && metadata[key].raw != [] then Some(metadata[key].raw) else None
  }

  predicate HasExperts(metadata: Metadata) {
    ArchitectureOf(metadata).Some? && ArchitectureOf(metadata).value + Ascii(".expert_count") in metadata
  }

  predicate NamesArchitecture(metadata: Metadata) {
    var key := Ascii("general.architecture");
    key in metadata && metadata[key].Text? && |metadata[key].raw| > 0
  }

  /** There is an expert count under the name of the architecture. */
  predicate CountsExperts(metadata: Metadata)
    requires NamesArchitecture(metadata)
  {
    metadata[Ascii("general.architecture")].raw + Ascii(".expert_count") in metadata
  }

  /** A model without routed experts is refused even when no block is to be offloaded. */
  method MoeExpertOffloadMib(data: seq<byte>, metadata: Metadata, blocks: int, block: Name -> Option<nat>)
    returns (r: Result<nat, OffloadError>)
    ensures r == Err(NoArchitecture) <==> !NamesArchitecture(metadata)
    ensures r == Err(NoExperts) <==> NamesArchitecture(metadata) && !CountsExperts(metadata)
    ensures NamesArchitecture(metadata) && CountsExperts(metadata) && blocks <= 0 ==> r == Ok(0)
    ensures NamesArchitecture(metadata) && CountsExperts(metadata) && blocks > 0 ==>
              match LayoutOf(data)
              case Err(e) => r == Err(BadFile(e))
              case Ok(l) => LaidOut(l) && r == Ok(CeilMib(SumOver(SizesOf(l), Offloaded(SizesOf(l), block, blocks))))
  {
    hide LayoutOf, SizesOf, LaidOut, SumOver, Offloaded;
    if ArchitectureOf(metadata).None? {
      return Err(NoArchitecture);
    }
    if !HasExperts(metadata) {
      return Err(NoExperts);
    }
    if blocks <= 0 {
      return Ok(0);
    }
    var sizes := TensorSizes(data);
    if sizes.Err? {
      return Err(BadFile(sizes.error));
    }
    var bytes := OffloadedBytes(sizes.value, block, blocks);
    return Ok(CeilMib(bytes));
  }

  /** Sending more blocks to the CPU never sends fewer bytes. */
  lemma OffloadMonotone(sizes: map<Name, nat>, block: Name -> Option<nat>, few: int, many: int)
    requires few <= many
    ensures SumOver(sizes, Offloaded(sizes, block, few)) <= SumOver(sizes, Offloaded(sizes, block, many))
    ensures CeilMib(SumOver(sizes, Offloaded(sizes, block, few)))
         <= CeilMib(SumOver(sizes, Offloaded(sizes, block, many)))
  {
    SumMonotone(sizes, Offloaded(sizes, block, few), Offloaded(sizes, block, many));
  }

  /**
   * What is left for the GPU after taking away the offloaded MiB: never negative, and less than a MiB off the bytes
   * that really stay.
   */
  lemma SharesAreExact(l: Layout, block: Name -> Option<nat>, blocks: int)
    requires LaidOut(l)
    ensures var off := SumOver(SizesOf(l), Offloaded(SizesOf(l), block, blocks));
            var vram := CeilMib(l.fileSize) - CeilMib(off);
            && off <= l.fileSize && 0 <= vram
            && -1_048_576 < vram * 1_048_576 - (l.fileSize - off) < 1_048_576
  {
    var sizes := SizesOf(l);
    SumMonotone(sizes, Offloaded(sizes, block, blocks), sizes.Keys);
    if l.infos != [] {
      SizesSum(l);
    }
  }
}
