/** Writing a GGUF header and reading it back. */
module GgufRoundTrip {
  import opened Wrappers
  import opened GgufFormat

  /** A metadata value as it is written: the bytes of a scalar or a text, or an array of them. */
  datatype Typed = Element(t: nat, raw: seq<byte>) | Array(elem: nat, items: seq<seq<byte>>)

  datatype Entry = Entry(key: seq<byte>, value: Typed)

  predicate ValidElement(t: nat, raw: seq<byte>) {
    if t == STRING then |raw| < Power(256, 8) else Scalar(t) && |raw| == Size(t)
  }

  predicate ValidValue(v: Typed) {
    match v
    case Element(t, raw) => ValidElement(t, raw)
    case Array(elem, items) =>
      && (Scalar(elem) || elem == STRING) && |items| <= MAX_ARRAY_ELEMENTS
      && forall i | 0 <= i < |items| :: ValidElement(elem, items[i])
  }

  predicate ValidEntries(entries: seq<Entry>) {
    forall i | 0 <= i < |entries| :: |entries[i].key| < Power(256, 8) && ValidValue(entries[i].value)
  }

  // ---- writing ----

  function WriteText(raw: seq<byte>): seq<byte> {
    Bytes(|raw|, 8) + raw
  }

  function WriteElement(t: nat, raw: seq<byte>): seq<byte> {
    if t == STRING then WriteText(raw) else raw
  }

  function WriteItems(elem: nat, items: seq<seq<byte>>): seq<byte> {
    if items == [] then [] else WriteElement(elem, items[0]) + WriteItems(elem, items[1..])
  }

  function TypeOf(v: Typed): nat {
    match v
    case Element(t, _) => t
    case Array(_, _) => ARRAY
  }

  function WriteValue(v: Typed): seq<byte> {
    match v
    case Element(t, raw) => WriteElement(t, raw)
    case Array(elem, items) => Bytes(elem, 4) + (Bytes(|items|, 8) + WriteItems(elem, items))
  }

  function WriteEntry(e: Entry): seq<byte> {
    WriteText(e.key) + (Bytes(TypeOf(e.value), 4) + WriteValue(e.value))
  }

  function WriteEntries(entries: seq<Entry>): seq<byte> {
    if entries == [] then [] else WriteEntry(entries[0]) + WriteEntries(entries[1..])
  }

  function WriteHeader(version: nat, tensorCount: nat, entries: seq<Entry>): seq<byte> {
    MAGIC + (Bytes(version, 4) + (Bytes(tensorCount, 8) + (Bytes(|entries|, 8) + WriteEntries(entries))))
  }

  // ---- meaning ----

  function ElementOf(t: nat, raw: seq<byte>): Value
    requires ValidElement(t, raw)
  {
    if t == STRING then Text(raw) else Decode(t, raw)
  }

  function ElementsOf(elem: nat, items: seq<seq<byte>>): (values: seq<Value>)
    requires forall i | 0 <= i < |items| :: ValidElement(elem, items[i])
    ensures |values| == |items| && forall i | 0 <= i < |items| :: values[i] == ElementOf(elem, items[i])
  {
    if items == [] then [] else [ElementOf(elem, items[0])] + ElementsOf(elem, items[1..])
  }

  /** Integers are stored in two's complement: every value in the range of its type is read back as itself. */
  lemma IntegersRoundTrip(t: nat, n: int)
    requires t in {UINT8, UINT16, UINT32, UINT64, INT8, INT16, INT32, INT64}
    requires var size := Power(256, Size(t));
             if t in {INT8, INT16, INT32, INT64} then 0 <= 2 * n + size < 2 * size else 0 <= n < size
    ensures Decode(t, Bytes(if n < 0 then n + Power(256, Size(t)) else n, Size(t))) == Int(n)
  {
    var stored := if n < 0 then n + Power(256, Size(t)) else n;
    hide Power, Bytes, Number;
    NumberOfBytes(stored, Size(t));
  }

  /** Large arrays are summarized. */
  function ValueOf(v: Typed): Value
    requires ValidValue(v)
  {
    match v
    case Element(t, raw) => ElementOf(t, raw)
    case Array(elem, items) =>
      if |items| <= MAX_INLINE_ARRAY_ELEMENTS then Inline(ElementsOf(elem, items)) else Summary(elem, |items|)
  }

  function Collect(entries: seq<Entry>, metadata: Metadata): Metadata
    requires ValidEntries(entries)
  {
    if entries == [] then metadata
    else Collect(entries[1..], metadata[entries[0].key := ValueOf(entries[0].value)])
  }

  // ---- reading back ----

  predicate At(data: seq<byte>, pos: nat, part: seq<byte>) {
    pos + |part| <= |data| && data[pos..pos + |part|] == part
  }

  lemma AtSplit(data: seq<byte>, pos: nat, a: seq<byte>, b: seq<byte>)
    requires At(data, pos, a + b)
    ensures At(data, pos, a) && At(data, pos + |a|, b)
  {
    assert a == (a + b)[..|a|] && b == (a + b)[|a|..];
    assert data[pos..pos + |a|] == data[pos..pos + |a + b|][..|a|];
    assert data[pos + |a|..pos + |a + b|] == data[pos..pos + |a + b|][|a|..];
  }

  lemma Powers()
    ensures Power(256, 4) == 0x1_0000_0000 && Power(256, 8) == 0x1_0000_0000_0000_0000
  {
    assert Power(256, 2) == 65536;
    assert Power(256, 4) == 256 * (256 * Power(256, 2));
    assert Power(256, 6) == 256 * (256 * Power(256, 4));
    assert Power(256, 8) == 256 * (256 * Power(256, 6));
  }

  lemma NumberAt(data: seq<byte>, pos: nat, n: nat, width: nat)
    requires n < Power(256, width) && At(data, pos, Bytes(n, width))
    ensures ReadNumber(data, pos, width) == Done(n, pos + width)
  {
    NumberOfBytes(n, width);
  }

  lemma TextAt(data: seq<byte>, pos: nat, raw: seq<byte>)
    requires |raw| < Power(256, 8) && At(data, pos, WriteText(raw))
    ensures ReadText(data, pos) == Done(raw, pos + |WriteText(raw)|)
  {
    AtSplit(data, pos, Bytes(|raw|, 8), raw);
    NumberAt(data, pos, |raw|, 8);
  }

  lemma ElementAt(data: seq<byte>, pos: nat, t: nat, raw: seq<byte>)
    requires ValidElement(t, raw) && At(data, pos, WriteElement(t, raw))
    ensures ReadElement(data, pos, t) == Done(ElementOf(t, raw), pos + |WriteElement(t, raw)|)
  {
    if t == STRING {
      TextAt(data, pos, raw);
    }
  }

  lemma ItemsStep(data: seq<byte>, pos: nat, elem: nat, count: nat)
    requires count > 0 && ReadElement(data, pos, elem).Done?
    ensures var first := ReadElement(data, pos, elem);
            var rest := ReadItems(data, first.next, elem, count - 1);
            rest.Done? ==> ReadItems(data, pos, elem, count) == Done([first.value] + rest.value, rest.next)
  {
    hide ReadElement;
  }

  lemma {:induction false} ItemsAt(data: seq<byte>, pos: nat, elem: nat, items: seq<seq<byte>>)
    requires forall i | 0 <= i < |items| :: ValidElement(elem, items[i])
    requires At(data, pos, WriteItems(elem, items))
    ensures ReadItems(data, pos, elem, |items|) == Done(ElementsOf(elem, items), pos + |WriteItems(elem, items)|)
    decreases |items|
  {
    hide ReadElement, ElementOf, ValidElement, WriteElement;
    if items != [] {
      hide ReadItems;
      var first := WriteElement(elem, items[0]);
      AtSplit(data, pos, first, WriteItems(elem, items[1..]));
      ElementAt(data, pos, elem, items[0]);
      hide At;
      ItemsAt(data, pos + |first|, elem, items[1..]);
      ItemsStep(data, pos, elem, |items|);
    }
  }

  lemma ArrayAt(data: seq<byte>, pos: nat, v: Typed)
    requires v.Array? && ValidValue(v) && At(data, pos, WriteValue(v))
    ensures ReadArray(data, pos) == Done(ValueOf(v), pos + |WriteValue(v)|)
  {
    Powers();
    AtSplit(data, pos, Bytes(v.elem, 4), Bytes(|v.items|, 8) + WriteItems(v.elem, v.items));
    AtSplit(data, pos + 4, Bytes(|v.items|, 8), WriteItems(v.elem, v.items));
    NumberAt(data, pos, v.elem, 4);
    NumberAt(data, pos + 4, |v.items|, 8);
    ItemsAt(data, pos + 12, v.elem, v.items);
    SkipIsRead(data, pos + 12, v.elem, |v.items|);
  }

  lemma ValueAt(data: seq<byte>, pos: nat, v: Typed)
    requires ValidValue(v) && At(data, pos, WriteValue(v))
    ensures ReadValue(data, pos, TypeOf(v)) == Done(ValueOf(v), pos + |WriteValue(v)|)
  {
    if v.Array? {
      ArrayAt(data, pos, v);
    } else {
      ElementAt(data, pos, v.t, v.raw);
    }
  }

  lemma EntryStep(data: seq<byte>, pos: nat, metadata: Metadata)
    requires ReadText(data, pos).Done?
    requires ReadNumber(data, ReadText(data, pos).next, 4).Done?
    ensures var key := ReadText(data, pos);
            var t := ReadNumber(data, key.next, 4);
            var v := ReadValue(data, t.next, t.value);
            v.Done? ==> ReadEntry(data, pos, metadata) == Done(metadata[key.value := v.value], v.next)
  {
    hide ReadText, ReadNumber, ReadValue;
  }

  lemma EntryParts(data: seq<byte>, pos: nat, e: Entry)
    requires At(data, pos, WriteEntry(e))
    ensures At(data, pos, WriteText(e.key))
    ensures At(data, pos + |WriteText(e.key)|, Bytes(TypeOf(e.value), 4))
    ensures At(data, pos + |WriteText(e.key)| + 4, WriteValue(e.value))
    ensures |WriteEntry(e)| == |WriteText(e.key)| + 4 + |WriteValue(e.value)|
  {
    var t := TypeOf(e.value);
    AtSplit(data, pos, WriteText(e.key), Bytes(t, 4) + WriteValue(e.value));
    AtSplit(data, pos + |WriteText(e.key)|, Bytes(t, 4), WriteValue(e.value));
  }

  lemma TypeFits(v: Typed)
    requires ValidValue(v)
    ensures TypeOf(v) < Power(256, 4)
  {
    Powers();
  }

  lemma EntryAt(data: seq<byte>, pos: nat, e: Entry, metadata: Metadata)
    requires |e.key| < Power(256, 8) && ValidValue(e.value) && At(data, pos, WriteEntry(e))
    ensures ReadEntry(data, pos, metadata) == Done(metadata[e.key := ValueOf(e.value)], pos + |WriteEntry(e)|)
  {
    hide At, WriteEntry, WriteText, WriteValue, ReadText, ReadValue, ReadEntry, ValueOf, ValidValue, ReadNumber, Bytes,
         Power, TypeOf;
    var start, t := pos + |WriteText(e.key)|, TypeOf(e.value);
    EntryParts(data, pos, e);
    TypeFits(e.value);
    TextAt(data, pos, e.key);
    NumberAt(data, start, t, 4);
    ValueAt(data, start + 4, e.value);
    EntryStep(data, pos, metadata);
  }

  lemma EntriesStep(data: seq<byte>, pos: nat, n: nat, metadata: Metadata)
    requires n > 0 && ReadEntry(data, pos, metadata).Done?
    ensures var e := ReadEntry(data, pos, metadata);
            ReadEntries(data, pos, n, metadata) == ReadEntries(data, e.next, n - 1, e.value)
  {
    hide ReadEntry;
  }

  lemma {:induction false} EntriesAt(data: seq<byte>, pos: nat, entries: seq<Entry>, metadata: Metadata)
    requires ValidEntries(entries) && At(data, pos, WriteEntries(entries))
    ensures ReadEntries(data, pos, |entries|, metadata) ==
            Done(Collect(entries, metadata), pos + |WriteEntries(entries)|)
    decreases |entries|
  {
    hide ReadEntry, WriteEntry, ValueOf, ValidValue;
    if entries != [] {
      hide ReadEntries;
      var first, more := WriteEntry(entries[0]), metadata[entries[0].key := ValueOf(entries[0].value)];
      AtSplit(data, pos, first, WriteEntries(entries[1..]));
      EntryAt(data, pos, entries[0], metadata);
      EntriesStep(data, pos, |entries|, metadata);
      hide At;
      EntriesAt(data, pos + |first|, entries[1..], more);
    }
  }

  /**
   * Reading a written header gives back the version, the tensor count and all metadata, with large arrays summarized,
   * and ends exactly where the header does, whatever follows it.
   */
  lemma HeaderRoundTrip(version: nat, tensorCount: nat, entries: seq<Entry>, rest: seq<byte>)
    requires version < Power(256, 4) && tensorCount < Power(256, 8)
    requires |entries| <= MAX_METADATA_ENTRIES && ValidEntries(entries)
    ensures ReadHeader(WriteHeader(version, tensorCount, entries) + rest) ==
            Done(Header(version, tensorCount, Collect(entries, map[])), |WriteHeader(version, tensorCount, entries)|)
  {
    Powers();
    var header := WriteHeader(version, tensorCount, entries);
    var data := header + rest;
    assert At(data, 0, header);
    var counts := Bytes(tensorCount, 8) + (Bytes(|entries|, 8) + WriteEntries(entries));
    AtSplit(data, 0, MAGIC, Bytes(version, 4) + counts);
    AtSplit(data, 4, Bytes(version, 4), counts);
    AtSplit(data, 8, Bytes(tensorCount, 8), Bytes(|entries|, 8) + WriteEntries(entries));
    AtSplit(data, 16, Bytes(|entries|, 8), WriteEntries(entries));
    NumberAt(data, 4, version, 4);
    NumberAt(data, 8, tensorCount, 8);
    NumberAt(data, 16, |entries|, 8);
    EntriesAt(data, 24, entries, map[]);
  }
}
