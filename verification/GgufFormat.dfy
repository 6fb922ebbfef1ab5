/**
 * The GGUF header as functions on bytes: what reading at a position yields and where it leaves off. Arrays are read
 * element by element or skipped; both ways end at the same byte.
 */
module GgufFormat {
  import opened Wrappers

  const UINT8 := 0
  const INT8 := 1
  const UINT16 := 2
  const INT16 := 3
  const UINT32 := 4
  const INT32 := 5
  const FLOAT32 := 6
  const BOOL := 7
  const STRING := 8
  const ARRAY := 9
  const UINT64 := 10
  const INT64 := 11
  const FLOAT64 := 12

  const MAX_METADATA_ENTRIES := 100_000
  const MAX_ARRAY_ELEMENTS := 100_000_000
  const MAX_INLINE_ARRAY_ELEMENTS := 4096

  const MAGIC: seq<byte> := [0x47, 0x47, 0x55, 0x46]

  datatype Error =
    | Truncated
    | BadMagic
    | TooManyEntries
    | ArrayTooLarge
    | NestedArray
    | UnknownElement
    | UnknownType
    | BadAlignment
    | Misaligned
    | OutOfOrder
    | PastEnd

  /** What reading yields, and the position of the byte after it. */
  datatype Parsed<+T> = Done(value: T, next: nat) | Failed(error: Error)

  /** A metadata value; text stays as bytes, and a float as its bit pattern. */
  datatype Value =
    | Int(n: int)
    | Bool(b: bool)
    | Float(raw: seq<byte>)
    | Text(raw: seq<byte>)
    | Inline(items: seq<Value>)
    | Summary(elem: nat, count: nat)

  type Metadata = map<seq<byte>, Value>

  datatype Header = Header(version: nat, tensorCount: nat, metadata: Metadata)

  // ---- bytes and numbers ----

  /** Little-endian bytes as a number. */
  function Number(raw: seq<byte>): nat {
    if raw == [] then 0 else raw[0] + 256 * Number(raw[1..])
  }

  function Bytes(n: nat, width: nat): (raw: seq<byte>)
    ensures |raw| == width
  {
    if width == 0 then [] else [n % 256] + Bytes(n / 256, width - 1)
  }

  function Power(b: nat, e: nat): nat {
    if e == 0 then 1 else b * Power(b, e - 1)
  }

  lemma {:induction false} NumberOfBytes(n: nat, width: nat)
    requires n < Power(256, width)
    ensures Number(Bytes(n, width)) == n
  {
    if width > 0 {
      NumberOfBytes(n / 256, width - 1);
      assert Bytes(n, width)[1..] == Bytes(n / 256, width - 1);
    }
  }

  // ---- reading ----

  function Take(data: seq<byte>, pos: nat, n: nat): Parsed<seq<byte>> {
    if pos + n <= |data| then Done(data[pos..pos + n], pos + n) else Failed(Truncated)
  }

  function ReadNumber(data: seq<byte>, pos: nat, width: nat): Parsed<nat> {
    match Take(data, pos, width)
    case Done(raw, next) => Done(Number(raw), next)
    case Failed(e) => Failed(e)
  }

  function ReadText(data: seq<byte>, pos: nat): Parsed<seq<byte>> {
    match ReadNumber(data, pos, 8)
    case Done(length, next) => Take(data, next, length)
    case Failed(e) => Failed(e)
  }

  predicate Scalar(t: nat) {
    t <= 12 && t != STRING && t != ARRAY
  }

  function Size(t: nat): nat
    requires Scalar(t)
  {
    if t == UINT8 || t == INT8 || t == BOOL then 1
    else if t == UINT16 || t == INT16 then 2
    else if t == UINT32 || t == INT32 || t == FLOAT32 then 4
    else 8
  }

  function Decode(t: nat, raw: seq<byte>): Value
    requires Scalar(t) && |raw| == Size(t)
  {
    var n := Number(raw);
    if t == BOOL then Bool(n != 0)
    else if t == FLOAT32 || t == FLOAT64 then Float(raw)
    else if t in {INT8, INT16, INT32, INT64} && 2 * n >= Power(256, |raw|) then Int(n - Power(256, |raw|))
    else Int(n)
  }

  /** One value that is not an array. */
  function ReadElement(data: seq<byte>, pos: nat, t: nat): Parsed<Value> {
    if Scalar(t) then
      match Take(data, pos, Size(t))
      case Done(raw, next) => Done(Decode(t, raw), next)
      case Failed(e) => Failed(e)
    else if t == STRING then
      match ReadText(data, pos)
      case Done(raw, next) => Done(Text(raw), next)
      case Failed(e) => Failed(e)
    else Failed(UnknownType)
  }

  /** The elements of an array one after the other. */
  function ReadItems(data: seq<byte>, pos: nat, elem: nat, count: nat): Parsed<seq<Value>>
    decreases count
  {
    if count == 0 then Done([], pos)
    else
      match ReadElement(data, pos, elem)
      case Failed(e) => Failed(e)
      case Done(first, next) =>
        match ReadItems(data, next, elem, count - 1)
        case Failed(e) => Failed(e)
        case Done(rest, end) => Done([first] + rest, end)
  }

  function SkipTexts(data: seq<byte>, pos: nat, count: nat): Parsed<()>
    decreases count
  {
    if count == 0 then Done((), pos)
    else
      match ReadNumber(data, pos, 8)
      case Failed(e) => Failed(e)
      case Done(length, next) =>
        if next + length <= |data| then SkipTexts(data, next + length, count - 1) else Failed(Truncated)
  }

  /** The same array without its elements. */
  function SkipItems(data: seq<byte>, pos: nat, elem: nat, count: nat): Parsed<()> {
    if Scalar(elem) then
      if pos + Size(elem) * count <= |data| then Done((), pos + Size(elem) * count) else Failed(Truncated)
    else if elem == STRING then SkipTexts(data, pos, count)
    else if elem == ARRAY then Failed(NestedArray)
    else Failed(UnknownElement)
  }

  function ReadArray(data: seq<byte>, pos: nat): Parsed<Value> {
    match ReadNumber(data, pos, 4)
    case Failed(e) => Failed(e)
    case Done(elem, next) =>
      match ReadNumber(data, next, 8)
      case Failed(e) => Failed(e)
      case Done(count, start) =>
        if count > MAX_ARRAY_ELEMENTS then Failed(ArrayTooLarge)
        else if elem != ARRAY && count <= MAX_INLINE_ARRAY_ELEMENTS then
          match ReadItems(data, start, elem, count)
          case Done(items, end) => Done(Inline(items), end)
          case Failed(e) => Failed(e)
        else
          match SkipItems(data, start, elem, count)
          case Done(_, end) => Done(Summary(elem, count), end)
          case Failed(e) => Failed(e)
  }

  function ReadValue(data: seq<byte>, pos: nat, t: nat): Parsed<Value> {
    if t == ARRAY then ReadArray(data, pos) else ReadElement(data, pos, t)
  }

  function ReadEntry(data: seq<byte>, pos: nat, metadata: Metadata): Parsed<Metadata> {
    match ReadText(data, pos)
    case Failed(e) => Failed(e)
    case Done(key, next) =>
      match ReadNumber(data, next, 4)
      case Failed(e) => Failed(e)
      case Done(t, start) =>
        match ReadValue(data, start, t)
        case Failed(e) => Failed(e)
        case Done(value, end) => Done(metadata[key := value], end)
  }

  /** The next `n` entries; a repeated key overwrites the earlier one. */
  function ReadEntries(data: seq<byte>, pos: nat, n: nat, metadata: Metadata): Parsed<Metadata>
    decreases n
  {
    if n == 0 then Done(metadata, pos)
    else
      match ReadEntry(data, pos, metadata)
      case Failed(e) => Failed(e)
      case Done(more, next) => ReadEntries(data, next, n - 1, more)
  }

  function ReadHeader(data: seq<byte>): Parsed<Header> {
    match Take(data, 0, 4)
    case Failed(e) => Failed(e)
    case Done(magic, p0) =>
      if magic != MAGIC then Failed(BadMagic)
      else
        match ReadNumber(data, p0, 4)
        case Failed(e) => Failed(e)
        case Done(version, p1) =>
          if p1 + 16 > |data| then Failed(Truncated)
          else
            var tensorCount, kvCount := Number(data[p1..p1 + 8]), Number(data[p1 + 8..p1 + 16]);
            if kvCount > MAX_METADATA_ENTRIES then Failed(TooManyEntries)
            else
              match ReadEntries(data, p1 + 16, kvCount, map[])
              case Failed(e) => Failed(e)
              case Done(metadata, end) => Done(Header(version, tensorCount, metadata), end)
  }

  // ---- skipping is reading ----

  /** Both end at the same byte, or both fail. */
  predicate Agree<S, T>(a: Parsed<S>, b: Parsed<T>) {
    match a
    case Done(_, next) => b.Done? && b.next == next
    case Failed(e) => b == Failed(e)
  }

  lemma {:induction false} SkipScalarsIsRead(data: seq<byte>, pos: nat, elem: nat, count: nat)
    requires Scalar(elem) && pos <= |data|
    ensures Agree(ReadItems(data, pos, elem, count), SkipItems(data, pos, elem, count))
    decreases count
  {
    if count > 0 {
      assert Size(elem) * count == Size(elem) + Size(elem) * (count - 1);
      if pos + Size(elem) <= |data| {
        SkipScalarsIsRead(data, pos + Size(elem), elem, count - 1);
      }
    }
  }

  lemma {:induction false} SkipTextsIsRead(data: seq<byte>, pos: nat, count: nat)
    requires pos <= |data|
    ensures Agree(ReadItems(data, pos, STRING, count), SkipTexts(data, pos, count))
    decreases count
  {
    if count > 0 && ReadText(data, pos).Done? {
      SkipTextsIsRead(data, ReadText(data, pos).next, count - 1);
    }
  }

  /** For every known element type, reading and skipping an array consume the same bytes and fail alike. */
  lemma SkipIsRead(data: seq<byte>, pos: nat, elem: nat, count: nat)
    requires pos <= |data| && (Scalar(elem) || elem == STRING)
    ensures Agree(ReadItems(data, pos, elem, count), SkipItems(data, pos, elem, count))
  {
    if Scalar(elem) {
      SkipScalarsIsRead(data, pos, elem, count);
    } else {
      SkipTextsIsRead(data, pos, count);
    }
  }

  /** For an unknown element type both fail, with one exception: an empty array is read without looking at its type. */
  lemma UnknownElements(data: seq<byte>, pos: nat, elem: nat, count: nat)
    requires pos <= |data| && !Scalar(elem) && elem != STRING
    ensures SkipItems(data, pos, elem, count).Failed?
    ensures ReadItems(data, pos, elem, count).Done? <==> count == 0
  {
  }
}
