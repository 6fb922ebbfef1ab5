/**
 * A GGUF file as the format lays it out, every width and type code written out as a number, and what the reader makes
 * of it: the header, and the table of tensors behind it.
 */
module GgufWriter {
  import opened Wrappers
  import opened GgufFormat
  import opened GgufRoundTrip
  import opened GgufTensors
  import opened Sorting

  /** A value as its writer has it; a float is its bits and a text its bytes. */
  datatype Plain =
    | U8(n: int) | I8(n: int) | U16(n: int) | I16(n: int) | U32(n: int) | I32(n: int) | U64(n: int) | I64(n: int)
    | F32(bits: seq<byte>) | F64(bits: seq<byte>) | Boolean(b: bool) | String(text: seq<byte>)

  /** A metadata value: one, or an array of values of one type. */
  datatype Meta = One(v: Plain) | Many(code: nat, items: seq<Plain>)

  datatype Pair = Pair(key: seq<byte>, value: Meta)

  function Code(v: Plain): nat {
    match v
    case U8(_) => 0
    case I8(_) => 1
    case U16(_) => 2
    case I16(_) => 3
    case U32(_) => 4
    case I32(_) => 5
    case F32(_) => 6
    case Boolean(_) => 7
    case String(_) => 8
    case U64(_) => 10
    case I64(_) => 11
    case F64(_) => 12
  }

  predicate Fits(v: Plain) {
    match v
    case U8(n) => 0 <= n <= 0xff
    case I8(n) => -0x80 <= n <= 0x7f
    case U16(n) => 0 <= n <= 0xffff
    case I16(n) => -0x8000 <= n <= 0x7fff
    case U32(n) => 0 <= n <= 0xffff_ffff
    case I32(n) => -0x8000_0000 <= n <= 0x7fff_ffff
    case U64(n) => 0 <= n <= 0xffff_ffff_ffff_ffff
    case I64(n) => -0x8000_0000_0000_0000 <= n <= 0x7fff_ffff_ffff_ffff
    case F32(bits) => |bits| == 4
    case F64(bits) => |bits| == 8
    case Boolean(_) => true
    case String(text) => |text| <= 0xffff_ffff_ffff_ffff
  }

  predicate FitsMeta(m: Meta) {
    match m
    case One(v) => Fits(v)
    case Many(code, items) =>
      code in {0, 1, 2, 3, 4, 5, 6, 7, 8, 10, 11, 12} && |items| <= 100_000_000
      && forall v | v in items :: Fits(v) && Code(v) == code
  }

  predicate FitsAll(pairs: seq<Pair>) {
    forall p | p in pairs :: |p.key| <= 0xffff_ffff_ffff_ffff && FitsMeta(p.value)
  }

  // ---- writing ----

  function Le2(n: nat): seq<byte> {
    [n % 0x100, n / 0x100 % 0x100]
  }

  function Le4(n: nat): seq<byte> {
    Le2(n) + Le2(n / 0x1_0000)
  }

  function Le8(n: nat): seq<byte> {
    Le4(n) + Le4(n / 0x1_0000_0000)
  }

  /** Two's complement in a type with `size` values. */
  function Complement(n: int, size: nat): (stored: nat)
    requires 0 <= n + size
  {
    if n < 0 then n + size else n
  }

  function Write(v: Plain): seq<byte>
    requires Fits(v)
  {
    match v
    case U8(n) => [n]
    case I8(n) => [Complement(n, 0x100)]
    case U16(n) => Le2(n)
    case I16(n) => Le2(Complement(n, 0x1_0000))
    case U32(n) => Le4(n)
    case I32(n) => Le4(Complement(n, 0x1_0000_0000))
    case U64(n) => Le8(n)
    case I64(n) => Le8(Complement(n, 0x1_0000_0000_0000_0000))
    case F32(bits) => bits
    case F64(bits) => bits
    case Boolean(b) => [if b then 1 else 0]
    case String(text) => Le8(|text|) + text
  }

  function WriteAll(items: seq<Plain>): seq<byte>
    requires forall v | v in items :: Fits(v)
  {
    if items == [] then [] else Write(items[0]) + WriteAll(items[1..])
  }

  function WriteMeta(m: Meta): seq<byte>
    requires FitsMeta(m)
  {
    match m
    case One(v) => Le4(Code(v)) + Write(v)
    case Many(code, items) => Le4(9) + (Le4(code) + (Le8(|items|) + WriteAll(items)))
  }

  function WritePairs(pairs: seq<Pair>): seq<byte>
    requires FitsAll(pairs)
  {
    if pairs == [] then []
    else
      assert pairs[0] in pairs;
      Le8(|pairs[0].key|) + pairs[0].key + WriteMeta(pairs[0].value) + WritePairs(pairs[1..])
  }

  /** "GGUF", the version, the two counts, and the metadata. */
  function WriteFile(version: nat, tensors: nat, pairs: seq<Pair>): seq<byte>
    requires FitsAll(pairs)
  {
    [0x47, 0x47, 0x55, 0x46] + (Le4(version) + (Le8(tensors) + (Le8(|pairs|) + WritePairs(pairs))))
  }

  // ---- meaning ----

  function Meaning(v: Plain): Value {
    match v
    case F32(bits) => Float(bits)
    case F64(bits) => Float(bits)
    case Boolean(b) => Bool(b)
    case String(text) => Text(text)
    case _ => Int(v.n)
  }

  /** What a metadata value is read as; an array of more than 4096 elements is summarized. */
  ghost predicate Means(m: Meta, value: Value) {
    match m
    case One(v) => value == Meaning(v)
    case Many(code, items) =>
      if |items| <= 4096 then
        value.Inline? && |value.items| == |items| && forall i | 0 <= i < |items| :: value.items[i] == Meaning(items[i])
      else value == Summary(code, |items|)
  }

  predicate HasKey(pairs: seq<Pair>, k: seq<byte>) {
    exists i :: 0 <= i < |pairs| && pairs[i].key == k
  }

  /** Entry `i` is the last one with its key. */
  predicate LastOf(pairs: seq<Pair>, i: nat) {
    i < |pairs| && forall j | i < j < |pairs| :: pairs[j].key != pairs[i].key
  }

  /** The metadata holds for every key what its last entry means, and no other keys. */
  ghost predicate MeansAll(pairs: seq<Pair>, metadata: Metadata) {
    && (forall k :: k in metadata <==> HasKey(pairs, k))
    && forall i: nat | LastOf(pairs, i) :: pairs[i].key in metadata && Means(pairs[i].value, metadata[pairs[i].key])
  }

  // ---- the bytes behind a value ----

  /** What is stored of a value: the bytes of a scalar, or the text alone. */
  function Stored(v: Plain): seq<byte>
    requires Fits(v)
  {
    if v.String? then v.text else Write(v)
  }

  lemma LeIsBytes(n: nat)
    ensures Bytes(n, 1) == [n % 0x100] && Bytes(n, 2) == Le2(n) && Bytes(n, 4) == Le4(n) && Bytes(n, 8) == Le8(n)
  {
    hide Bytes, Le2;
    BytesAre(n);
    var high := n / 0x1_0000_0000;
    BytesAre(high);
    Pairs(n, 6);
    Pairs(n / 0x1_0000, 4);
    Halves(n);
    Join(Le2(n), Le2(n / 0x1_0000), Le4(high));
  }

  lemma Halves(n: nat)
    ensures n / 0x1_0000 / 0x1_0000 == n / 0x1_0000_0000
  {
  }

  lemma Join(a: seq<byte>, b: seq<byte>, c: seq<byte>)
    ensures a + (b + c) == a + b + c
  {
  }

  lemma BytesAre(n: nat)
    ensures Bytes(n, 1) == [n % 0x100] && Bytes(n, 2) == Le2(n) && Bytes(n, 4) == Le4(n)
  {
    assert Bytes(n / 256, 0) == [] && Bytes(n / 0x1_0000, 0) == [] && Bytes(n / 0x1_0000 / 0x1_0000, 0) == [];
    Pairs(n, 0);
    Pairs(n, 2);
    Pairs(n / 0x1_0000, 0);
  }

  /** Two bytes at a time. */
  lemma Pairs(n: nat, more: nat)
    ensures Bytes(n, more + 2) == Le2(n) + Bytes(n / 0x1_0000, more)
  {
    assert n / 256 / 256 == n / 0x1_0000;
    assert Bytes(n, more + 2) == [n % 256] + ([n / 256 % 256] + Bytes(n / 256 / 256, more));
  }

  predicate Whole(v: Plain) {
    v.U8? || v.I8? || v.U16? || v.I16? || v.U32? || v.I32? || v.U64? || v.I64?
  }

  /** How many values the type of a number has. */
  function Range(v: Plain): nat
    requires Whole(v)
  {
    if v.U8? || v.I8? then 0x100
    else if v.U16? || v.I16? then 0x1_0000
    else if v.U32? || v.I32? then 0x1_0000_0000
    else 0x1_0000_0000_0000_0000
  }

  lemma Ranges(v: Plain)
    requires Whole(v)
    ensures Scalar(Code(v)) && Power(256, Size(Code(v))) == Range(v)
  {
    Powers();
    assert Power(256, 1) == 0x100 && Power(256, 2) == 0x1_0000;
  }

  lemma WholeIsBytes(v: Plain)
    requires Whole(v) && Fits(v)
    ensures 0 <= v.n + Range(v) && Scalar(Code(v)) && Write(v) == Bytes(Complement(v.n, Range(v)), Size(Code(v)))
  {
    hide Bytes, Le2, Le4, Le8;
    LeIsBytes(Complement(v.n, Range(v)));
  }

  lemma WholeIsRead(v: Plain)
    requires Whole(v) && Fits(v)
    ensures Scalar(Code(v)) && |Write(v)| == Size(Code(v)) && Decode(Code(v), Write(v)) == Int(v.n)
  {
    hide Bytes, Number, Power, Decode, Write;
    Ranges(v);
    WholeIsBytes(v);
    IntegersRoundTrip(Code(v), v.n);
  }

  lemma OneByte(n: byte)
    ensures Number([n]) == n
  {
    assert [n][1..] == [];
  }

  /** The widths and the signs of the format are those of the reader. */
  lemma StoredIsRead(v: Plain)
    requires Fits(v)
    ensures ValidElement(Code(v), Stored(v)) && WriteElement(Code(v), Stored(v)) == Write(v)
    ensures ElementOf(Code(v), Stored(v)) == Meaning(v)
  {
    if Whole(v) {
      hide Bytes, Number, Power, Decode, Write;
      WholeIsRead(v);
    } else {
      hide Bytes, Power;
      Powers();
      match v
      case String(text) => LeIsBytes(|text|);
      case Boolean(b) => OneByte(if b then 1 else 0);
      case _ =>
    }
  }

  // ---- the header is read back ----

  function StoredAll(items: seq<Plain>): (raws: seq<seq<byte>>)
    requires forall v | v in items :: Fits(v)
    ensures |raws| == |items| && forall i | 0 <= i < |items| :: raws[i] == Stored(items[i])
  {
    seq(|items|, i requires 0 <= i < |items| => Stored(items[i]))
  }

  function Lower(m: Meta): Typed
    requires FitsMeta(m)
  {
    match m
    case One(v) => Element(Code(v), Stored(v))
    case Many(code, items) => Array(code, StoredAll(items))
  }

  function LowerAll(pairs: seq<Pair>): (entries: seq<Entry>)
    requires FitsAll(pairs)
    ensures |entries| == |pairs|
    ensures forall i | 0 <= i < |pairs| :: pairs[i] in pairs && entries[i] == Entry(pairs[i].key, Lower(pairs[i].value))
  {
    seq(|pairs|, i requires 0 <= i < |pairs| => Entry(pairs[i].key, Lower(pairs[i].value)))
  }

  lemma {:induction false} ItemsStored(code: nat, items: seq<Plain>)
    requires forall v | v in items :: Fits(v) && Code(v) == code
    ensures forall i | 0 <= i < |items| :: ValidElement(code, StoredAll(items)[i])
    ensures forall i | 0 <= i < |items| :: ElementOf(code, StoredAll(items)[i]) == Meaning(items[i])
    ensures WriteItems(code, StoredAll(items)) == WriteAll(items)
  {
    hide Stored, Write, ValidElement, ElementOf, Meaning, Fits, Code, WriteElement;
    forall i | 0 <= i < |items|
      ensures ValidElement(code, StoredAll(items)[i]) && ElementOf(code, StoredAll(items)[i]) == Meaning(items[i])
      ensures WriteElement(code, StoredAll(items)[i]) == Write(items[i])
    {
      assert items[i] in items;
      StoredIsRead(items[i]);
    }
    if items != [] {
      ItemsStored(code, items[1..]);
      assert StoredAll(items)[1..] == StoredAll(items[1..]);
    }
  }

  lemma CodesAre(code: nat)
    ensures code in {0, 1, 2, 3, 4, 5, 6, 7, 8, 10, 11, 12} <==> Scalar(code) || code == STRING
  {
  }

  lemma LowerMeta(m: Meta)
    requires FitsMeta(m)
    ensures ValidValue(Lower(m)) && Bytes(TypeOf(Lower(m)), 4) + WriteValue(Lower(m)) == WriteMeta(m)
    ensures Means(m, ValueOf(Lower(m)))
  {
    hide Stored, Write, Bytes, Number, Le4, Le8, Meaning, Fits, Code, Scalar, WriteElement, Decode;
    match m
    case One(v) =>
      StoredIsRead(v);
      LeIsBytes(Code(v));
    case Many(code, items) =>
      ItemsStored(code, items);
      CodesAre(code);
      LeIsBytes(9);
      LeIsBytes(code);
      LeIsBytes(|items|);
  }

  lemma {:induction false} LowerPairs(pairs: seq<Pair>)
    requires FitsAll(pairs)
    ensures ValidEntries(LowerAll(pairs)) && WriteEntries(LowerAll(pairs)) == WritePairs(pairs)
  {
    hide Lower, WriteMeta, WriteValue, TypeOf, FitsMeta, ValidValue, Bytes, Le8, Means;
    Powers();
    forall p | p in pairs
      ensures ValidValue(Lower(p.value))
      ensures WriteEntry(Entry(p.key, Lower(p.value))) == Le8(|p.key|) + p.key + WriteMeta(p.value)
    {
      LowerMeta(p.value);
      LeIsBytes(|p.key|);
    }
    if pairs != [] {
      hide WriteEntry;
      assert pairs[0] in pairs;
      LowerPairs(pairs[1..]);
      assert LowerAll(pairs)[1..] == LowerAll(pairs[1..]);
    }
  }

  lemma CollectStep(pairs: seq<Pair>, metadata: Metadata)
    requires FitsAll(pairs) && ValidEntries(LowerAll(pairs)) && pairs != []
    ensures pairs[0] in pairs && ValidEntries(LowerAll(pairs[1..])) && ValidValue(Lower(pairs[0].value))
    ensures Collect(LowerAll(pairs), metadata) ==
            Collect(LowerAll(pairs[1..]), metadata[pairs[0].key := ValueOf(Lower(pairs[0].value))])
  {
    hide Lower, FitsMeta, ValidValue, ValueOf;
    assert pairs[0] in pairs;
    var entries := LowerAll(pairs);
    assert entries[1..] == LowerAll(pairs[1..]);
    assert entries[0] == Entry(pairs[0].key, Lower(pairs[0].value));
  }

  /** What the entries make of the metadata so far. */
  ghost predicate Adds(pairs: seq<Pair>, before: Metadata, after: Metadata) {
    && (forall k :: k in after <==> k in before || HasKey(pairs, k))
    && (forall k | k in before && !HasKey(pairs, k) :: after[k] == before[k])
    && forall i: nat | LastOf(pairs, i) :: pairs[i].key in after && Means(pairs[i].value, after[pairs[i].key])
  }

  lemma KeyOfRest(pairs: seq<Pair>, k: seq<byte>)
    requires pairs != []
    ensures HasKey(pairs, k) <==> k == pairs[0].key || HasKey(pairs[1..], k)
  {
    if i :| 0 <= i < |pairs[1..]| && pairs[1..][i].key == k {
      assert pairs[i + 1].key == k;
    }
    if i :| 0 < i < |pairs| && pairs[i].key == k {
      assert pairs[1..][i - 1].key == k;
    }
  }

  lemma LastOfRest(pairs: seq<Pair>, i: nat)
    requires LastOf(pairs, i)
    ensures if i == 0 then !HasKey(pairs[1..], pairs[0].key)
            else LastOf(pairs[1..], i - 1) && pairs[1..][i - 1] == pairs[i]
  {
    var rest := pairs[1..];
    assert forall j | 0 <= j < |rest| :: rest[j] == pairs[j + 1];
  }

  lemma AddsOneMore(pairs: seq<Pair>, before: Metadata, value: Value, after: Metadata)
    requires pairs != [] && Means(pairs[0].value, value) && Adds(pairs[1..], before[pairs[0].key := value], after)
    ensures Adds(pairs, before, after)
  {
    hide Means, HasKey, LastOf;
    forall k ensures HasKey(pairs, k) <==> k == pairs[0].key || HasKey(pairs[1..], k) {
      KeyOfRest(pairs, k);
    }
    forall i: nat | LastOf(pairs, i)
      ensures i < |pairs| && pairs[i].key in after && Means(pairs[i].value, after[pairs[i].key])
    {
      LastIsInside(pairs, i);
      LastOfRest(pairs, i);
    }
  }

  lemma LastIsInside(pairs: seq<Pair>, i: nat)
    requires LastOf(pairs, i)
    ensures i < |pairs|
  {
  }

  lemma {:induction false} CollectMeans(pairs: seq<Pair>, metadata: Metadata)
    requires FitsAll(pairs) && ValidEntries(LowerAll(pairs))
    ensures Adds(pairs, metadata, Collect(LowerAll(pairs), metadata))
  {
    hide Lower, Means, FitsMeta, ValidValue, ValueOf;
    if pairs != [] {
      hide Adds, LowerAll, Collect, ValidEntries;
      CollectStep(pairs, metadata);
      LowerMeta(pairs[0].value);
      var value := ValueOf(Lower(pairs[0].value));
      CollectMeans(pairs[1..], metadata[pairs[0].key := value]);
      AddsOneMore(pairs, metadata, value, Collect(LowerAll(pairs), metadata));
    }
  }

  lemma FileIsHeader(version: nat, tensors: nat, pairs: seq<Pair>)
    requires FitsAll(pairs)
    ensures ValidEntries(LowerAll(pairs))
    ensures WriteFile(version, tensors, pairs) == WriteHeader(version, tensors, LowerAll(pairs))
  {
    hide Bytes, Le4, Le8, WritePairs, WriteEntries, Lower, ValidEntries;
    LowerPairs(pairs);
    LeIsBytes(version);
    LeIsBytes(tensors);
    LeIsBytes(|pairs|);
  }

  /**
   * Reading a written header gives back the version, the count of tensors, and what the metadata means: every value in
   * the range of its type as itself, large arrays summarized, and the last of several entries with one key. It ends at
   * the last byte of the header, whatever follows.
   */
  lemma FileRoundTrip(version: nat, tensors: nat, pairs: seq<Pair>, rest: seq<byte>)
    requires version <= 0xffff_ffff && tensors <= 0xffff_ffff_ffff_ffff && |pairs| <= 100_000 && FitsAll(pairs)
    ensures var r := ReadHeader(WriteFile(version, tensors, pairs) + rest);
            && r.Done? && r.next == |WriteFile(version, tensors, pairs)|
            && r.value.version == version && r.value.tensorCount == tensors && MeansAll(pairs, r.value.metadata)
  {
    hide ReadHeader, WriteFile, WriteHeader, LowerAll, Means, ValidEntries, Collect;
    Powers();
    FileIsHeader(version, tensors, pairs);
    CollectMeans(pairs, map[]);
    HeaderRoundTrip(version, tensors, LowerAll(pairs), rest);
  }

  // ---- the table of tensors ----

  datatype Tensor = Tensor(name: seq<byte>, dims: seq<nat>, kind: nat, offset: nat)

  predicate FitsTensor(t: Tensor) {
    && |t.name| <= 0xffff_ffff_ffff_ffff && |t.dims| <= 0xffff_ffff
    && (forall d | d in t.dims :: d <= 0xffff_ffff_ffff_ffff)
    && t.kind <= 0xffff_ffff && t.offset <= 0xffff_ffff_ffff_ffff
  }

  function WriteDims(dims: seq<nat>): (raw: seq<byte>)
    ensures |raw| == 8 * |dims|
  {
    if dims == [] then [] else Le8(dims[0]) + WriteDims(dims[1..])
  }

  function WriteTensor(t: Tensor): seq<byte> {
    (Le8(|t.name|) + t.name) + (Le4(|t.dims|) + (WriteDims(t.dims) + (Le4(t.kind) + Le8(t.offset))))
  }

  function WriteTensors(ts: seq<Tensor>): seq<byte> {
    if ts == [] then [] else WriteTensor(ts[0]) + WriteTensors(ts[1..])
  }

  function InfosOf(ts: seq<Tensor>): (infos: seq<Info>)
    ensures |infos| == |ts| && forall i | 0 <= i < |ts| :: infos[i] == Info(ts[i].name, ts[i].offset)
  {
    seq(|ts|, i requires 0 <= i < |ts| => Info(ts[i].name, ts[i].offset))
  }

  lemma NumbersAt(data: seq<byte>, pos: nat, n: nat)
    ensures n <= 0xffff_ffff && At(data, pos, Le4(n)) ==> ReadNumber(data, pos, 4) == Done(n, pos + 4)
    ensures n <= 0xffff_ffff_ffff_ffff && At(data, pos, Le8(n)) ==> ReadNumber(data, pos, 8) == Done(n, pos + 8)
  {
    hide Bytes, Le4, Le8, At, ReadNumber;
    Powers();
    LeIsBytes(n);
    if n <= 0xffff_ffff && At(data, pos, Le4(n)) {
      NumberAt(data, pos, n, 4);
    }
    if n <= 0xffff_ffff_ffff_ffff && At(data, pos, Le8(n)) {
      NumberAt(data, pos, n, 8);
    }
  }

  lemma NameAt(data: seq<byte>, pos: nat, name: seq<byte>)
    requires |name| <= 0xffff_ffff_ffff_ffff && At(data, pos, Le8(|name|) + name)
    ensures ReadText(data, pos) == Done(name, pos + 8 + |name|)
  {
    hide Bytes, Le8, At;
    Powers();
    LeIsBytes(|name|);
    TextAt(data, pos, name);
  }

  lemma TensorParts(data: seq<byte>, pos: nat, t: Tensor)
    requires At(data, pos, WriteTensor(t))
    ensures |WriteTensor(t)| == 8 + |t.name| + 4 + 8 * |t.dims| + 4 + 8 && pos + |WriteTensor(t)| <= |data|
    ensures At(data, pos, Le8(|t.name|) + t.name) && At(data, pos + 8 + |t.name|, Le4(|t.dims|))
    ensures At(data, pos + 8 + |t.name| + 4 + 8 * |t.dims| + 4, Le8(t.offset))
  {
    var dims, end := WriteDims(t.dims), Le4(t.kind) + Le8(t.offset);
    hide WriteDims;
    AtSplit(data, pos, Le8(|t.name|) + t.name, Le4(|t.dims|) + (dims + end));
    var p := pos + 8 + |t.name|;
    AtSplit(data, p, Le4(|t.dims|), dims + end);
    AtSplit(data, p + 4, dims, end);
    AtSplit(data, p + 4 + |dims|, Le4(t.kind), Le8(t.offset));
  }

  lemma TensorAt(data: seq<byte>, pos: nat, t: Tensor, alignment: nat)
    requires alignment > 0 && FitsTensor(t) && At(data, pos, WriteTensor(t))
    ensures ReadInfo(data, pos, alignment) ==
              if t.offset % alignment != 0 then Failed(Misaligned)
              else Done(Info(t.name, t.offset), pos + |WriteTensor(t)|)
  {
    hide At, Le4, Le8, WriteTensor, ReadText, ReadNumber;
    TensorParts(data, pos, t);
    NameAt(data, pos, t.name);
    NumbersAt(data, pos + 8 + |t.name|, |t.dims|);
    NumbersAt(data, pos + 8 + |t.name| + 4 + 8 * |t.dims| + 4, t.offset);
  }

  lemma InfosStep(data: seq<byte>, pos: nat, count: nat, alignment: nat, infos: seq<Info>)
    requires alignment > 0
    ensures count == 0 ==> ReadInfos(data, pos, count, alignment, infos) == Done(infos, pos)
    ensures count > 0 ==>
              var info := ReadInfo(data, pos, alignment);
              && (info.Failed? ==> ReadInfos(data, pos, count, alignment, infos) == Failed(info.error))
              && (info.Done? ==>
                    ReadInfos(data, pos, count, alignment, infos) ==
                    ReadInfos(data, info.next, count - 1, alignment, infos + [info.value]))
  {
    hide ReadInfo;
  }

  predicate AllAligned(ts: seq<Tensor>, alignment: nat)
    requires alignment > 0
  {
    forall t | t in ts :: t.offset % alignment == 0
  }

  /** Reading a written table gives back names and offsets in order and ends at its last byte, if all are aligned. */
  lemma {:induction false} TableRoundTrip(data: seq<byte>, pos: nat, ts: seq<Tensor>, alignment: nat, infos: seq<Info>)
    requires alignment > 0 && (forall t | t in ts :: FitsTensor(t)) && At(data, pos, WriteTensors(ts))
    ensures ReadInfos(data, pos, |ts|, alignment, infos) ==
              if AllAligned(ts, alignment) then Done(infos + InfosOf(ts), pos + |WriteTensors(ts)|)
              else Failed(Misaligned)
    decreases |ts|
  {
    hide At, FitsTensor, ReadInfo, ReadInfos, WriteTensor;
    InfosStep(data, pos, |ts|, alignment, infos);
    if ts == [] {
      assert infos + InfosOf(ts) == infos;
    } else {
      var first, rest := ts[0], ts[1..];
      assert ts == [first] + rest && first in ts;
      AtSplit(data, pos, WriteTensor(first), WriteTensors(rest));
      TensorAt(data, pos, first, alignment);
      if first.offset % alignment == 0 {
        var more := infos + [Info(first.name, first.offset)];
        TableRoundTrip(data, pos + |WriteTensor(first)|, rest, alignment, more);
        assert more + InfosOf(rest) == infos + InfosOf(ts);
        assert AllAligned(ts, alignment) <==> AllAligned(rest, alignment);
      }
    }
  }

  // ---- the file as a whole ----

  const ALIGNMENT_KEY: seq<byte> :=
    [0x67, 0x65, 0x6e, 0x65, 0x72, 0x61, 0x6c, 0x2e, 0x61, 0x6c, 0x69, 0x67, 0x6e, 0x6d, 0x65, 0x6e, 0x74]

  /** The alignment the metadata ask for: that of the last `general.alignment`, a positive whole number, or 32. */
  ghost predicate AsksFor(pairs: seq<Pair>, alignment: nat) {
    if HasKey(pairs, ALIGNMENT_KEY) then
      exists i: nat :: LastOf(pairs, i) && pairs[i].key == ALIGNMENT_KEY && pairs[i].value.One?
                       && Whole(pairs[i].value.v) && pairs[i].value.v.n == alignment > 0
    else alignment == 32
  }

  lemma AlignmentKey()
    ensures Ascii("general.alignment") == ALIGNMENT_KEY
  {
  }

  lemma {:induction false} SomeLast(pairs: seq<Pair>, k: seq<byte>) returns (i: nat)
    requires HasKey(pairs, k)
    ensures LastOf(pairs, i) && pairs[i].key == k
  {
    i := |pairs| - 1;
    while pairs[i].key != k
      invariant i < |pairs| && forall j | i < j < |pairs| :: pairs[j].key != k
      decreases i
    {
      i := i - 1;
    }
  }

  lemma AlignmentIsRead(pairs: seq<Pair>, metadata: Metadata, alignment: nat)
    requires MeansAll(pairs, metadata)
    ensures AsksFor(pairs, alignment) <==> AlignmentOf(metadata) == Ok(alignment)
  {
    hide Ascii;
    AlignmentKey();
    if HasKey(pairs, ALIGNMENT_KEY) {
      var i := SomeLast(pairs, ALIGNMENT_KEY);
      forall j: nat | LastOf(pairs, j) && pairs[j].key == ALIGNMENT_KEY ensures i == j {
      }
    }
  }

  /** The least multiple of the alignment not below `n`. */
  predicate RoundsUp(n: nat, alignment: nat, start: nat) {
    alignment > 0 && start % alignment == 0 && n <= start < n + alignment
  }

  /** The tensors have offsets of their own, all aligned and none past the end of the data section. */
  ghost predicate InOrder(ts: seq<Tensor>, alignment: nat, span: int) {
    && alignment > 0 && AllAligned(ts, alignment)
    && (forall i, j | 0 <= i < j < |ts| :: ts[i].offset != ts[j].offset)
    && forall t | t in ts :: t.offset <= span
  }

  lemma RoundUpIs(n: nat, alignment: nat, start: nat)
    requires alignment > 0
    ensures RoundsUp(n, alignment, start) <==> start == Aligned(n, alignment)
  {
    AlignedIsAligned(n, alignment);
    var up := Aligned(n, alignment);
    if RoundsUp(n, alignment, start) {
      SameMultiple(start, up, alignment);
    }
  }

  lemma SameMultiple(a: nat, b: nat, m: nat)
    requires m > 0 && a % m == 0 && b % m == 0 && a < b + m && b < a + m
    ensures a == b
  {
    var p, q := a / m, b / m;
    assert a == p * m && b == q * m;
    assert (p - q) * m == a - b;
    if p > q {
      Grows(p - q, m);
    } else if q > p {
      Grows(q - p, m);
    }
  }

  predicate OwnOffsets(infos: seq<Info>) {
    forall i, j | 0 <= i < j < |infos| :: infos[i].offset != infos[j].offset
  }

  lemma {:induction false} OnceEach(infos: seq<Info>)
    requires OwnOffsets(infos)
    ensures forall x :: multiset(infos)[x] <= 1
  {
    if infos != [] {
      var n := |infos| - 1;
      assert infos == infos[..n] + [infos[n]];
      OnceEach(infos[..n]);
      assert infos[n] !in infos[..n];
      assert multiset(infos[..n])[infos[n]] == 0;
    }
  }

  lemma Twice(infos: seq<Info>, i: nat, j: nat)
    requires i < j < |infos| && infos[i] == infos[j]
    ensures multiset(infos)[infos[i]] >= 2
  {
    assert infos == infos[..j] + [infos[j]] + infos[j + 1..];
    assert infos[i] in infos[..j];
  }

  lemma OwnInAnyOrder(a: seq<Info>, b: seq<Info>)
    requires multiset(a) == multiset(b) && OwnOffsets(a)
    ensures OwnOffsets(b)
  {
    OnceEach(a);
    forall i, j | 0 <= i < j < |b| ensures b[i].offset != b[j].offset {
      assert b[i] in multiset(a) && b[j] in multiset(a);
      var k :| 0 <= k < |a| && a[k] == b[i];
      var l :| 0 <= l < |a| && a[l] == b[j];
      if b[i] == b[j] {
        Twice(b, i, j);
      }
    }
  }

  lemma IncreasingIffOwn(infos: seq<Info>, sorted: seq<Info>)
    requires Sorted(sorted, OffsetOf) && multiset(sorted) == multiset(infos)
    ensures StrictlyIncreasing(sorted) <==> OwnOffsets(infos)
  {
    if StrictlyIncreasing(sorted) {
      forall i, j | 0 <= i < j < |sorted| ensures sorted[i].offset != sorted[j].offset {
        IncreasingThroughout(sorted, i, j);
      }
      OwnInAnyOrder(sorted, infos);
    }
    if OwnOffsets(infos) {
      OwnInAnyOrder(infos, sorted);
      forall i | 0 <= i < |sorted| - 1 ensures sorted[i].offset < sorted[i + 1].offset {
        assert OffsetOf(sorted[i]) <= OffsetOf(sorted[i + 1]);
      }
    }
  }

  lemma LastIsGreatest(infos: seq<Info>, sorted: seq<Info>, span: int)
    requires Sorted(sorted, OffsetOf) && multiset(sorted) == multiset(infos)
    ensures (forall x | x in infos :: x.offset <= span) <==> sorted == [] || sorted[|sorted| - 1].offset <= span
  {
    forall x ensures x in infos <==> x in sorted {
      assert x in infos <==> x in multiset(infos);
      assert x in sorted <==> x in multiset(sorted);
    }
    forall i | 0 <= i < |sorted| ensures OffsetOf(sorted[i]) <= OffsetOf(sorted[|sorted| - 1]) {
    }
  }

  /** What is read of a written file: the header, the alignment, and the table behind the header. */
  lemma WrittenIsRead(version: nat, pairs: seq<Pair>, ts: seq<Tensor>, rest: seq<byte>, alignment: nat)
    requires version <= 0xffff_ffff && |pairs| <= 100_000 && FitsAll(pairs) && AsksFor(pairs, alignment)
    requires |ts| <= 0xffff_ffff_ffff_ffff && forall t | t in ts :: FitsTensor(t)
    ensures alignment > 0
    ensures var header, table := WriteFile(version, |ts|, pairs), WriteTensors(ts);
            var data := header + table + rest;
            && ReadHeader(data).Done? && ReadHeader(data).next == |header| && ReadHeader(data).value.tensorCount == |ts|
            && AlignmentOf(ReadHeader(data).value.metadata) == Ok(alignment)
            && ReadInfos(data, |header|, |ts|, alignment, []) ==
                 if AllAligned(ts, alignment) then Done(InfosOf(ts), |header + table|) else Failed(Misaligned)
  {
    hide WriteFile, WriteTensors, ReadHeader, ReadInfos, FitsAll, FitsTensor, MeansAll, AsksFor, AlignmentOf;
    var header, table := WriteFile(version, |ts|, pairs), WriteTensors(ts);
    var data := header + table + rest;
    assert data == header + (table + rest);
    FileRoundTrip(version, |ts|, pairs, table + rest);
    AlignmentIsRead(pairs, ReadHeader(data).value.metadata, alignment);
    assert alignment > 0 by { PositiveAlignment(pairs, alignment); }
    assert At(data, |header|, table);
    TableRoundTrip(data, |header|, ts, alignment, []);
    assert [] + InfosOf(ts) == InfosOf(ts);
  }

  lemma LayoutIs(data: seq<byte>, alignment: nat)
    requires ReadHeader(data).Done? && alignment > 0 && AlignmentOf(ReadHeader(data).value.metadata) == Ok(alignment)
    ensures var parsed := ReadInfos(data, ReadHeader(data).next, ReadHeader(data).value.tensorCount, alignment, []);
            && (parsed.Failed? ==> LayoutOf(data).Err?)
            && (parsed.Done? ==>
                  var l := Layout(alignment, Aligned(parsed.next, alignment), SortByOffset(parsed.value), |data|);
                  && (LayoutOf(data).Ok? <==>
                        && StrictlyIncreasing(l.infos)
                        && (l.infos == [] || l.infos[|l.infos| - 1].offset <= |data| - l.start))
                  && (LayoutOf(data).Ok? ==> LayoutOf(data).value == l))
  {
    hide ReadHeader, ReadInfos, AlignmentOf, Aligned, SortByOffset, StrictlyIncreasing;
  }

  /**
   * A written file is laid out with its alignment, its data section at the first multiple of that behind the table, and
   * its tensors by offset; it is refused exactly when offsets are not aligned, not distinct, or past the end.
   */
  lemma LayoutOfWritten(version: nat, pairs: seq<Pair>, ts: seq<Tensor>, rest: seq<byte>, alignment: nat, start: nat)
    requires version <= 0xffff_ffff && |pairs| <= 100_000 && FitsAll(pairs) && AsksFor(pairs, alignment)
    requires |ts| <= 0xffff_ffff_ffff_ffff && forall t | t in ts :: FitsTensor(t)
    requires RoundsUp(|WriteFile(version, |ts|, pairs) + WriteTensors(ts)|, alignment, start)
    ensures var data := WriteFile(version, |ts|, pairs) + WriteTensors(ts) + rest;
            && (LayoutOf(data).Ok? <==> InOrder(ts, alignment, |data| - start))
            && (LayoutOf(data).Ok? ==>
                  var l := LayoutOf(data).value;
                  && l.alignment == alignment && l.start == start && l.fileSize == |data|
                  && multiset(l.infos) == multiset(InfosOf(ts)))
  {
    hide WriteFile, WriteTensors, ReadHeader, ReadInfos, FitsAll, FitsTensor, AsksFor, Aligned, RoundsUp, AlignmentOf,
         StrictlyIncreasing, OwnOffsets, Sort, LayoutOf, InfosOf;
    var data := WriteFile(version, |ts|, pairs) + WriteTensors(ts) + rest;
    WrittenIsRead(version, pairs, ts, rest, alignment);
    LayoutIs(data, alignment);
    RoundUpIs(|WriteFile(version, |ts|, pairs) + WriteTensors(ts)|, alignment, start);
    var infos := InfosOf(ts);
    SortSorts(infos, OffsetOf);
    IncreasingIffOwn(infos, SortByOffset(infos));
    LastIsGreatest(infos, SortByOffset(infos), |data| - start);
    OwnIsInfos(ts, |data| - start);
  }

  lemma PositiveAlignment(pairs: seq<Pair>, alignment: nat)
    requires AsksFor(pairs, alignment)
    ensures alignment > 0
  {
  }

  lemma OwnIsInfos(ts: seq<Tensor>, span: int)
    ensures OwnOffsets(InfosOf(ts)) <==> forall i, j | 0 <= i < j < |ts| :: ts[i].offset != ts[j].offset
    ensures (forall x | x in InfosOf(ts) :: x.offset <= span) <==> forall t | t in ts :: t.offset <= span
  {
    var infos := InfosOf(ts);
    if forall x | x in infos :: x.offset <= span {
      forall t | t in ts ensures t.offset <= span {
        var i :| 0 <= i < |ts| && ts[i] == t;
        assert infos[i] in infos;
      }
    }
  }
}