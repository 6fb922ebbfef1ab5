/** Reading a GGUF file through a stream with a position. Every method reads what the format says, and stops there. */
module GgufReader {
  import opened Wrappers
  import opened GgufFormat

  /** The method's result and the new position are those of the parse. */
  predicate Follows<T(==)>(p: Parsed<T>, r: Result<T, Error>, pos: nat) {
    match p
    case Done(value, next) => r == Ok(value) && pos == next
    case Failed(e) => r == Err(e)
  }

  lemma EntriesStep(data: seq<byte>, pos: nat, n: nat, metadata: Metadata)
    ensures ReadEntries(data, pos, n, metadata) ==
              if n == 0 then Done(metadata, pos)
              else
                match ReadEntry(data, pos, metadata)
                case Failed(e) => Failed(e)
                case Done(more, next) => ReadEntries(data, next, n - 1, more)
  {
  }

  class Stream {
    const data: seq<byte>
    var pos: nat

    ghost predicate Valid()
      reads this
    {
      pos <= |data|
    }

    constructor (data: seq<byte>)
      ensures Valid() && this.data == data && pos == 0
    {
      this.data, pos := data, 0;
    }

    method ReadExact(size: nat) returns (r: Result<seq<byte>, Error>)
      requires Valid()
      modifies this
      ensures Valid() && Follows(Take(data, old(pos), size), r, pos)
    {
      var end := if pos + size <= |data| then pos + size else |data|;
      var got := data[pos..end];
      pos := end;
      if |got| != size {
        return Err(Truncated);
      }
      return Ok(got);
    }

    method SkipExact(size: nat) returns (r: Result<(), Error>)
      requires Valid()
      modifies this
      ensures Valid()
      ensures if old(pos) + size <= |data| then r == Ok(()) && pos == old(pos) + size else r == Err(Truncated)
    {
      if size > |data| - pos {
        return Err(Truncated);
      }
      pos := pos + size;
      return Ok(());
    }

    method Unpack(width: nat) returns (r: Result<nat, Error>)
      requires Valid()
      modifies this
      ensures Valid() && Follows(ReadNumber(data, old(pos), width), r, pos)
    {
      var raw := ReadExact(width);
      if raw.Err? {
        return Err(raw.error);
      }
      return Ok(Number(raw.value));
    }

    method ReadString() returns (r: Result<seq<byte>, Error>)
      requires Valid()
      modifies this
      ensures Valid() && Follows(ReadText(data, old(pos)), r, pos)
    {
      var length := Unpack(8);
      if length.Err? {
        return Err(length.error);
      }
      r := ReadExact(length.value);
    }

    method SkipArrayPayload(elem: nat, count: nat) returns (r: Result<(), Error>)
      requires Valid()
      modifies this
      ensures Valid() && Follows(SkipItems(data, old(pos), elem, count), r, pos)
    {
      if Scalar(elem) {
        r := SkipExact(Size(elem) * count);
        return;
      }
      if elem == STRING {
        for i := 0 to count
          invariant Valid() && SkipTexts(data, old(pos), count) == SkipTexts(data, pos, count - i)
        {
          var length := Unpack(8);
          if length.Err? {
            return Err(length.error);
          }
          var skipped := SkipExact(length.value);
          if skipped.Err? {
            return skipped;
          }
        }
        return Ok(());
      }
      return Err(if elem == ARRAY then NestedArray else UnknownElement);
    }

    /** A value that is not an array. */
    method ReadElementOf(t: nat) returns (r: Result<Value, Error>)
      requires Valid()
      modifies this
      ensures Valid() && Follows(ReadElement(data, old(pos), t), r, pos)
    {
      if Scalar(t) {
        var raw := ReadExact(Size(t));
        return if raw.Ok? then Ok(Decode(t, raw.value)) else Err(raw.error);
      }
      if t == STRING {
        var raw := ReadString();
        return if raw.Ok? then Ok(Text(raw.value)) else Err(raw.error);
      }
      return Err(UnknownType);
    }

    method ReadInline(elem: nat, count: nat) returns (r: Result<seq<Value>, Error>)
      requires Valid()
      modifies this
      ensures Valid() && Follows(ReadItems(data, old(pos), elem, count), r, pos)
    {
      var items: seq<Value> := [];
      PrependNothing(ReadItems(data, pos, elem, count));
      for i := 0 to count
        invariant Valid() && |items| == i
        invariant ReadItems(data, old(pos), elem, count) == Prepend(items, ReadItems(data, pos, elem, count - i))
      {
        hide ReadElement;
        ghost var before := pos;
        var item := ReadElementOf(elem);
        if item.Err? {
          return Err(item.error);
        }
        PrependNext(items, item.value, ReadItems(data, pos, elem, count - i - 1));
        assert ReadItems(data, before, elem, count - i)
            == Prepend([item.value], ReadItems(data, pos, elem, count - i - 1));
        items := items + [item.value];
      }
      assert items + [] == items;
      return Ok(items);
    }

    method ReadValueOf(t: nat) returns (r: Result<Value, Error>)
      requires Valid()
      modifies this
      ensures Valid() && Follows(ReadValue(data, old(pos), t), r, pos)
    {
      if t != ARRAY {
        r := ReadElementOf(t);
        return;
      }
      var elem := Unpack(4);
      if elem.Err? {
        return Err(elem.error);
      }
      var count := Unpack(8);
      if count.Err? {
        return Err(count.error);
      }
      if count.value > MAX_ARRAY_ELEMENTS {
        return Err(ArrayTooLarge);
      }
      if elem.value != ARRAY && count.value <= MAX_INLINE_ARRAY_ELEMENTS {
        var items := ReadInline(elem.value, count.value);
        return if items.Ok? then Ok(Inline(items.value)) else Err(items.error);
      }
      var skipped := SkipArrayPayload(elem.value, count.value);
      return if skipped.Ok? then Ok(Summary(elem.value, count.value)) else Err(skipped.error);
    }

    method ReadMetadata(count: nat) returns (r: Result<Metadata, Error>)
      requires Valid()
      modifies this
      ensures Valid() && Follows(ReadEntries(data, old(pos), count, map[]), r, pos)
    {
      hide ReadEntry, ReadEntries;
      var metadata: Metadata := map[];
      for i := 0 to count
        invariant Valid()
        invariant ReadEntries(data, old(pos), count, map[]) == ReadEntries(data, pos, count - i, metadata)
      {
        EntriesStep(data, pos, count - i, metadata);
        var more := ReadEntryInto(metadata);
        if more.Err? {
          return Err(more.error);
        }
        metadata := more.value;
      }
      EntriesStep(data, pos, 0, metadata);
      return Ok(metadata);
    }

    /** One entry: its key, its type and its value. A key that is already there gets the new value. */
    method ReadEntryInto(metadata: Metadata) returns (r: Result<Metadata, Error>)
      requires Valid()
      modifies this
      ensures Valid() && Follows(ReadEntry(data, old(pos), metadata), r, pos)
    {
      hide ReadText, ReadNumber, ReadValue;
      var key := ReadString();
      if key.Err? {
        return Err(key.error);
      }
      var t := Unpack(4);
      if t.Err? {
        return Err(t.error);
      }
      var value := ReadValueOf(t.value);
      if value.Err? {
        return Err(value.error);
      }
      return Ok(metadata[key.value := value.value]);
    }
  }

  ghost function Prepend(items: seq<Value>, p: Parsed<seq<Value>>): Parsed<seq<Value>> {
    match p
    case Done(rest, next) => Done(items + rest, next)
    case Failed(e) => Failed(e)
  }

  lemma PrependNothing(p: Parsed<seq<Value>>)
    ensures Prepend([], p) == p
  {
    if p.Done? {
      assert [] + p.value == p.value;
    }
  }

  lemma PrependNext(items: seq<Value>, item: Value, p: Parsed<seq<Value>>)
    ensures Prepend(items, Prepend([item], p)) == Prepend(items + [item], p)
  {
    if p.Done? {
      assert items + ([item] + p.value) == items + [item] + p.value;
    }
  }

  /** Read the header of a file. */
  method ReadGgufHeader(data: seq<byte>) returns (r: Result<Header, Error>, fh: Stream)
    ensures fresh(fh) && fh.Valid() && fh.data == data && Follows(ReadHeader(data), r, fh.pos)
  {
    fh := new Stream(data);
    hide ReadEntries;
    var magic := fh.ReadExact(4);
    if magic.Err? {
      return Err(magic.error), fh;
    }
    if magic.value != MAGIC {
      return Err(BadMagic), fh;
    }
    var version := fh.Unpack(4);
    if version.Err? {
      return Err(version.error), fh;
    }
    ghost var p := fh.pos;
    var counts := fh.ReadExact(16);
    if counts.Err? {
      return Err(counts.error), fh;
    }
    var tensorCount, kvCount := Number(counts.value[..8]), Number(counts.value[8..]);
    assert counts.value[..8] == data[p..p + 8] && counts.value[8..] == data[p + 8..p + 16];
    if kvCount > MAX_METADATA_ENTRIES {
      return Err(TooManyEntries), fh;
    }
    var metadata := fh.ReadMetadata(kvCount);
    if metadata.Err? {
      return Err(metadata.error), fh;
    }
    r := Ok(Header(version.value, tensorCount, metadata.value));
  }
}
