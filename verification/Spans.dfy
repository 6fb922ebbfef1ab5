/**
 * Spans as a Phoenix server returns them, brought into one canonical shape. Nested attributes are flattened to dotted
 * paths without losing or confusing any.
 */
module Spans {
  import opened Sorting
  import opened Wrappers

  /** An attribute value; floating-point numbers are finite, and JSON text comes with the run id it names, if any. */
  datatype Attr =
    | Text(s: string)
    | Whole(n: int)
    | Float(x: real)
    | Flag(b: bool)
    | Json(run: Option<string>, text: string)

  /** An attribute as received; `Unsupported` is anything that is neither a scalar nor an object. */
  datatype Tree = Leaf(a: Attr) | Unsupported | Node(fields: seq<Named>)

  datatype Named = Named(key: string, value: Tree)

  type Attributes = map<string, Attr>

  datatype Path = Path(key: string, value: Attr)

  function Join(prefix: string, key: string): string {
    if prefix == "" then key else prefix + "." + key
  }

  /** All leaves with their dotted paths, in order. */
  function Leaves(fields: seq<Named>, prefix: string): seq<Path> {
    if fields == [] then [] else LeavesOf(fields[0], prefix) + Leaves(fields[1..], prefix)
  }

  function LeavesOf(field: Named, prefix: string): seq<Path> {
    match field.value
    case Leaf(a) => [Path(Join(prefix, field.key), a)]
    case Unsupported => []
    case Node(fields) => Leaves(fields, Join(prefix, field.key))
  }

  /** Keys are not empty, objects are not empty, and every leaf is supported. */
  predicate WellFormed(fields: seq<Named>) {
    forall i | 0 <= i < |fields| :: WellFormedField(fields[i])
  }

  predicate WellFormedField(field: Named) {
    field.key != "" &&
    match field.value
    case Leaf(_) => true
    case Unsupported => false
    case Node(fields) => fields != [] && WellFormed(fields)
  }

  predicate DistinctPaths(paths: seq<Path>) {
    forall i, j | 0 <= i < j < |paths| :: paths[i].key != paths[j].key
  }

  /** The map has exactly these paths, each once. */
  ghost predicate Flattens(m: Attributes, paths: seq<Path>) {
    && DistinctPaths(paths)
    && (forall p | p in paths :: p.key in m && m[p.key] == p.value)
    && (forall key | key in m :: Path(key, m[key]) in paths)
  }

  lemma FlattensJoin(a: Attributes, p: seq<Path>, b: Attributes, q: seq<Path>)
    requires Flattens(a, p) && Flattens(b, q)
    ensures a.Keys !! b.Keys ==> Flattens(a + b, p + q)
    ensures !(a.Keys !! b.Keys) ==> !DistinctPaths(p + q)
  {
    if a.Keys !! b.Keys {
      forall i, j | 0 <= i < j < |p + q|
        ensures (p + q)[i].key != (p + q)[j].key
      {
        if i < |p| <= j {
          assert p[i] in p && q[j - |p|] in q;
        }
      }
    } else {
      var key :| key in a && key in b;
      var i :| 0 <= i < |p| && p[i] == Path(key, a[key]);
      var j :| 0 <= j < |q| && q[j] == Path(key, b[key]);
      assert (p + q)[i].key == (p + q)[|p| + j].key;
    }
  }

  lemma DistinctParts(p: seq<Path>, q: seq<Path>)
    requires DistinctPaths(p + q)
    ensures DistinctPaths(p) && DistinctPaths(q)
  {
    forall i, j | 0 <= i < j < |p|
      ensures p[i].key != p[j].key
    {
      assert (p + q)[i] == p[i] && (p + q)[j] == p[j];
    }
    forall i, j | 0 <= i < j < |q|
      ensures q[i].key != q[j].key
    {
      assert (p + q)[|p| + i] == q[i] && (p + q)[|p| + j] == q[j];
    }
  }

  lemma LeavesStep(field: Named, rest: seq<Named>, prefix: string)
    ensures Leaves([field] + rest, prefix) == LeavesOf(field, prefix) + Leaves(rest, prefix)
  {
    assert ([field] + rest)[1..] == rest;
  }

  lemma PathsAssoc(a: seq<Path>, b: seq<Path>, c: seq<Path>)
    ensures a + (b + c) == (a + b) + c
  {
  }

  lemma {:induction false} LeavesJoin(a: seq<Named>, b: seq<Named>, prefix: string)
    ensures Leaves(a + b, prefix) == Leaves(a, prefix) + Leaves(b, prefix)
  {
    if a == [] {
      assert a + b == b;
    } else {
      hide Leaves, LeavesOf;
      LeavesJoin(a[1..], b, prefix);
      LeavesStep(a[0], a[1..] + b, prefix);
      LeavesStep(a[0], a[1..], prefix);
      assert a + b == [a[0]] + (a[1..] + b) && a == [a[0]] + a[1..];
      PathsAssoc(LeavesOf(a[0], prefix), Leaves(a[1..], prefix), Leaves(b, prefix));
    }
  }

  lemma OneLeaf(field: Named, prefix: string)
    ensures Leaves([field], prefix) == LeavesOf(field, prefix)
  {
    assert [field][1..] == [];
  }

  /** Flattening succeeds exactly on well-formed attributes whose paths do not collide, and keeps every leaf. */
  method FlattenAttributes(fields: seq<Named>, prefix: string) returns (r: Option<Attributes>)
    ensures r.Some? <==> WellFormed(fields) && DistinctPaths(Leaves(fields, prefix))
    ensures r.Some? ==> Flattens(r.value, Leaves(fields, prefix))
    decreases fields
  {
    var flattened: Attributes := map[];
    for i := 0 to |fields|
      invariant WellFormed(fields[..i]) && Flattens(flattened, Leaves(fields[..i], prefix))
    {
      var field := fields[i];
      hide Flattens, DistinctPaths;
      var children := FlattenField(field, prefix);
      assert fields[..i + 1] == fields[..i] + [field];
      LeavesJoin(fields[..i], [field], prefix);
      OneLeaf(field, prefix);
      ghost var before, here := Leaves(fields[..i], prefix), LeavesOf(field, prefix);
      Beyond(fields, i, prefix);
      if children.None? {
        return None;
      }
      FlattensJoin(flattened, before, children.value, here);
      if !(flattened.Keys !! children.value.Keys) {
        return None;
      }
      flattened := flattened + children.value;
    }
    assert fields[..|fields|] == fields;
    return Some(flattened);
  }

  lemma Beyond(fields: seq<Named>, i: nat, prefix: string)
    requires i < |fields|
    ensures WellFormed(fields) ==> WellFormedField(fields[i])
    ensures DistinctPaths(Leaves(fields, prefix)) ==>
              && DistinctPaths(Leaves(fields[..i], prefix) + LeavesOf(fields[i], prefix))
              && DistinctPaths(LeavesOf(fields[i], prefix))
  {
    assert fields == (fields[..i] + [fields[i]]) + fields[i + 1..];
    LeavesJoin(fields[..i] + [fields[i]], fields[i + 1..], prefix);
    LeavesJoin(fields[..i], [fields[i]], prefix);
    OneLeaf(fields[i], prefix);
    if DistinctPaths(Leaves(fields, prefix)) {
      DistinctParts(Leaves(fields[..i], prefix) + LeavesOf(fields[i], prefix), Leaves(fields[i + 1..], prefix));
      DistinctParts(Leaves(fields[..i], prefix), LeavesOf(fields[i], prefix));
    }
  }

  method FlattenField(field: Named, prefix: string) returns (r: Option<Attributes>)
    ensures r.Some? <==> WellFormedField(field) && DistinctPaths(LeavesOf(field, prefix))
    ensures r.Some? ==> Flattens(r.value, LeavesOf(field, prefix))
    decreases field, 0
  {
    if field.key == "" {
      return None;
    }
    var key := Join(prefix, field.key);
    match field.value
    case Leaf(a) =>
      return Some(map[key := a]);
    case Unsupported =>
      return None;
    case Node(fields) =>
      if fields == [] {
        return None;
      }
      r := FlattenAttributes(fields, key);
  }

  function ToMap(paths: seq<Path>): Attributes {
    if paths == [] then map[]
    else ToMap(paths[..|paths| - 1])[paths[|paths| - 1].key := paths[|paths| - 1].value]
  }

  lemma {:induction false} ToMapFlattens(paths: seq<Path>)
    requires DistinctPaths(paths)
    ensures Flattens(ToMap(paths), paths)
  {
    if paths != [] {
      var n := |paths| - 1;
      assert paths == paths[..n] + [paths[n]];
      ToMapFlattens(paths[..n]);
    }
  }

  lemma FlatteningIsUnique(m: Attributes, paths: seq<Path>)
    requires Flattens(m, paths)
    ensures m == ToMap(paths)
  {
    ToMapFlattens(paths);
    var t := ToMap(paths);
    assert forall key | key in m :: Path(key, m[key]) in paths;
    assert forall key | key in t :: Path(key, t[key]) in paths;
  }

  // ---- canonical spans ----

  datatype Identity = Identity(trace: string, span: string)

  /** A record as received. Shapes, identifiers and times are already judged; a bad time is missing. */
  datatype Raw = Raw(exactFields: bool, validIds: bool, identity: Identity, name: string, kind: string,
                     parent: Option<string>, status: string, message: string, start: Option<int>, end: Option<int>,
                     events: seq<string>, attributes: seq<Named>)

  datatype Span = Span(identity: Identity, name: string, kind: string, parent: Option<string>, status: string,
                       message: string, start: int, end: int, events: seq<string>, attributes: Attributes)

  const KIND_KEY := "openinference.span.kind"

  predicate JsonWhereExpected(a: Attributes) {
    ("metadata" in a ==> a["metadata"].Json?) && ("laya.result" in a ==> a["laya.result"].Json?)
  }

  predicate Acceptable(raw: Raw) {
    && raw.exactFields && raw.validIds && raw.kind in {"LLM", "CHAIN"} && raw.status in {"OK", "ERROR"}
    && raw.start.Some? && raw.end.Some?
    && WellFormed(raw.attributes) && DistinctPaths(Leaves(raw.attributes, ""))
    && var a := ToMap(Leaves(raw.attributes, ""));
       (KIND_KEY in a ==> a[KIND_KEY] == Text(raw.kind)) && JsonWhereExpected(a - {KIND_KEY})
  }

  /** The canonical span of a record, or nothing if the record is malformed. */
  function CanonicalOf(raw: Raw): Option<Span> {
    if Acceptable(raw) then
      Some(Span(raw.identity, raw.name, raw.kind, raw.parent, raw.status, raw.message, raw.start.value, raw.end.value,
                raw.events, ToMap(Leaves(raw.attributes, "")) - {KIND_KEY}))
    else None
  }

  method CanonicalSpan(raw: Raw) returns (r: Option<Span>)
    ensures r == CanonicalOf(raw)
  {
    if !raw.exactFields || !raw.validIds || raw.kind !in {"LLM", "CHAIN"} {
      return None;
    }
    var attributes := FlattenAttributes(raw.attributes, "");
    if attributes.None? {
      return None;
    }
    FlatteningIsUnique(attributes.value, Leaves(raw.attributes, ""));
    var a := attributes.value;
    if KIND_KEY in a && a[KIND_KEY] != Text(raw.kind) {
      return None;
    }
    a := a - {KIND_KEY};
    if !JsonWhereExpected(a) || raw.status !in {"OK", "ERROR"} || raw.start.None? || raw.end.None? {
      return None;
    }
    return Some(Span(raw.identity, raw.name, raw.kind, raw.parent, raw.status, raw.message, raw.start.value,
                     raw.end.value, raw.events, a));
  }

  /** The value as comparison sees it: numbers and truth values are equal when their numbers are. */
  function Level(a: Attr): Attr {
    match a
    case Whole(n) => Float(n as real)
    case Flag(b) => Float(if b then 1.0 else 0.0)
    case _ => a
  }

  /** Two values are equal: the same, or numbers of one value, where a truth value counts as one or zero. */
  predicate Equal(a: Attr, b: Attr) {
    || a == b
    || (a.Whole? && b.Float? && a.n as real == b.x) || (a.Float? && b.Whole? && a.x == b.n as real)
    || (a.Flag? && b.Whole? && b.n == if a.b then 1 else 0) || (a.Whole? && b.Flag? && a.n == if b.b then 1 else 0)
    || (a.Flag? && b.Float? && b.x == if a.b then 1.0 else 0.0)
    || (a.Float? && b.Flag? && a.x == if b.b then 1.0 else 0.0)
  }

  /** Comparison sees two spans as one exactly when all their fields are the same and all their attributes are equal. */
  lemma LevelIsEquality(s: Span, t: Span)
    ensures LevelSpan(s) == LevelSpan(t) <==>
              && s.identity == t.identity && s.name == t.name && s.kind == t.kind && s.parent == t.parent
              && s.status == t.status && s.message == t.message && s.start == t.start && s.end == t.end
              && s.events == t.events
              && (forall k :: k in s.attributes <==> k in t.attributes)
              && forall k | k in s.attributes && k in t.attributes :: Equal(s.attributes[k], t.attributes[k])
  {
    var a, b := LevelSpan(s).attributes, LevelSpan(t).attributes;
    forall k ensures (k in a <==> k in s.attributes) && (k in b <==> k in t.attributes) {
    }
    forall k | k in s.attributes && k in t.attributes
      ensures a[k] == b[k] <==> Equal(s.attributes[k], t.attributes[k])
    {
    }
    if a == b {
      assert forall k :: k in s.attributes <==> k in a;
    }
  }

  /** The span as comparison sees it. */
  function LevelSpan(s: Span): (t: Span)
    ensures t.identity == s.identity && RunOf(t) == RunOf(s)
  {
    s.(attributes := map k | k in s.attributes :: Level(s.attributes[k]))
  }

  /** The run a span says it belongs to. */
  function RunOf(s: Span): Option<string> {
    if "metadata" in s.attributes && s.attributes["metadata"].Json? then s.attributes["metadata"].run else None
  }

  lemma {:induction false} OnceEach(p: seq<Path>)
    requires DistinctPaths(p)
    ensures forall x :: multiset(p)[x] <= 1
  {
    if p != [] {
      var n := |p| - 1;
      assert p == p[..n] + [p[n]];
      OnceEach(p[..n]);
      assert p[n] !in p[..n];
      assert multiset(p[..n])[p[n]] == 0;
    }
  }

  lemma DistinctInAnyOrder(p: seq<Path>, q: seq<Path>)
    requires multiset(p) == multiset(q) && DistinctPaths(p)
    ensures DistinctPaths(q)
  {
    OnceEach(p);
    forall i, j | 0 <= i < j < |q|
      ensures q[i].key != q[j].key
    {
      assert q[i] in multiset(p) && q[j] in multiset(p);
      var k :| 0 <= k < |p| && p[k] == q[i];
      var l :| 0 <= l < |p| && p[l] == q[j];
      if q[i] == q[j] {
        Repeated(q, i, j);
      }
    }
  }

  lemma SameLeavesSameMap(p: seq<Path>, q: seq<Path>)
    requires multiset(p) == multiset(q) && DistinctPaths(p)
    ensures DistinctPaths(q) && ToMap(p) == ToMap(q)
  {
    DistinctInAnyOrder(p, q);
    ToMapFlattens(p);
    assert forall x :: x in p <==> x in multiset(p);
    assert forall x :: x in q <==> x in multiset(q);
    assert Flattens(ToMap(p), q);
    FlatteningIsUnique(ToMap(p), q);
  }

  /** How attributes are nested, and in which order they come, does not matter to the canonical span. */
  lemma NestingDoesNotMatter(a: Raw, b: Raw)
    requires b == a.(attributes := b.attributes)
    requires WellFormed(a.attributes) && WellFormed(b.attributes)
    requires multiset(Leaves(a.attributes, "")) == multiset(Leaves(b.attributes, ""))
    ensures CanonicalOf(a) == CanonicalOf(b)
  {
    var p, q := Leaves(a.attributes, ""), Leaves(b.attributes, "");
    hide Leaves, WellFormed, ToMap;
    if DistinctPaths(p) {
      SameLeavesSameMap(p, q);
    } else if DistinctPaths(q) {
      SameLeavesSameMap(q, p);
    }
  }

  // ---- every plausible span has a record ----

  /** Attributes that are not nested. */
  function Flat(paths: seq<Path>): seq<Named> {
    seq(|paths|, i requires 0 <= i < |paths| => Named(paths[i].key, Leaf(paths[i].value)))
  }

  lemma {:induction false} FlatLeaves(paths: seq<Path>)
    ensures Leaves(Flat(paths), "") == paths
    decreases |paths|
  {
    if paths != [] {
      FlatLeaves(paths[1..]);
      assert Flat(paths)[1..] == Flat(paths[1..]);
      assert paths == [paths[0]] + paths[1..];
    }
  }

  lemma {:induction false} Listing(m: Attributes) returns (paths: seq<Path>)
    ensures DistinctPaths(paths) && Flattens(m, paths)
    decreases |m|
  {
    paths := [];
    if m != map[] {
      var key :| key in m;
      var rest := Listing(m - {key});
      paths := rest + [Path(key, m[key])];
      assert forall p | p in rest :: p.key != key;
      forall k | k in m ensures Path(k, m[k]) in paths {
        if k != key {
          assert Path(k, (m - {key})[k]) in rest;
        } else {
          assert paths[|rest|] == Path(k, m[k]);
        }
      }
    }
  }

  /** A canonical span that some record yields: the fields are in order, and so are the attributes. */
  predicate Plausible(s: Span) {
    && s.kind in {"LLM", "CHAIN"} && s.status in {"OK", "ERROR"}
    && "" !in s.attributes && KIND_KEY !in s.attributes && JsonWhereExpected(s.attributes)
  }

  lemma SomeRecord(s: Span) returns (raw: Raw)
    requires Plausible(s)
    ensures CanonicalOf(raw) == Some(s)
  {
    var paths := Listing(s.attributes);
    raw := Raw(true, true, s.identity, s.name, s.kind, s.parent, s.status, s.message, Some(s.start), Some(s.end),
               s.events, Flat(paths));
    FlatLeaves(paths);
    FlatteningIsUnique(s.attributes, paths);
    assert WellFormed(raw.attributes) by {
      forall i | 0 <= i < |paths| ensures paths[i].key != "" {
        assert paths[i] in paths;
      }
    }
    assert s.attributes - {KIND_KEY} == s.attributes;
  }
}
