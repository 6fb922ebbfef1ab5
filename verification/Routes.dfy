/** The capability profile's routes, and how an access-log record or a call-log path is classified by them. */
module Routes {
  import opened Wrappers

  datatype Class = Inference | Probe

  datatype Route = Route(verb: string, path: string, kind: Option<Class>)

  /** A parsed access-log record. */
  datatype Record = Record(verb: string, path: string)

  /** The mark stands at `i`. */
  predicate MarkAt(s: string, mark: string, i: nat) {
    i + |mark| <= |s| && s[i..i + |mark|] == mark
  }

  /** What stands before the first `mark`, or everything. */
  function Before(s: string, mark: string): string {
    if s == "" || MarkAt(s, mark, 0) then "" else [s[0]] + Before(s[1..], mark)
  }

  /** The path without its query and without the suffix of the access log. */
  function CleanPath(path: string): string {
    Before(Before(path, "?"), " | ")
  }

  /** The class of the first route with this verb and path. */
  function ClassifyRoute(routes: seq<Route>, record: Record): Option<Class> {
    if routes == [] then None
    else if routes[0].verb == record.verb && routes[0].path == CleanPath(record.path) then routes[0].kind
    else ClassifyRoute(routes[1..], record)
  }

  /** The kinds of the routes with this path. */
  function Kinds(routes: seq<Route>, clean: string): set<Option<Class>> {
    set route | route in routes && route.path == clean :: route.kind
  }

  /** The class of a call-log row, which has no verb: that of its path, unless its routes differ. */
  function ClassifyPath(routes: seq<Route>, path: string): Option<Class> {
    var kinds := Kinds(routes, CleanPath(path));
    if kinds == {Some(Inference)} then Some(Inference) else if kinds == {Some(Probe)} then Some(Probe) else None
  }

  // ---- what is left of a path ----

  /** A query or the suffix of the access log begins at `i`. */
  predicate EndsAt(path: string, i: nat) {
    MarkAt(path, "?", i) || MarkAt(path, " | ", i)
  }

  /** `clean` is all of the path before the first place where a query or the suffix begins. */
  ghost predicate IsClean(path: string, clean: string) {
    && clean <= path
    && (forall i: nat | i < |clean| :: !EndsAt(path, i))
    && (clean == path || EndsAt(path, |clean|))
  }

  lemma MarkShift(s: string, mark: string, i: nat)
    requires s != ""
    ensures MarkAt(s, mark, i + 1) == MarkAt(s[1..], mark, i)
  {
    if i + 1 + |mark| <= |s| {
      assert s[i + 1..i + 1 + |mark|] == s[1..][i..i + |mark|];
    }
  }

  lemma {:induction false} BeforeFirst(s: string, mark: string)
    requires mark != ""
    ensures var b := Before(s, mark);
            && b <= s && (forall i: nat | i < |b| :: !MarkAt(s, mark, i)) && (b == s || MarkAt(s, mark, |b|))
  {
    if s != "" && !MarkAt(s, mark, 0) {
      hide MarkAt;
      BeforeFirst(s[1..], mark);
      var rest := Before(s[1..], mark);
      MarkShift(s, mark, |rest|);
      forall i: nat | i < |rest| + 1 ensures !MarkAt(s, mark, i) {
        if 0 < i { MarkShift(s, mark, i - 1); }
      }
    }
  }

  /** Cleaning cuts a path where the query or the suffix begins, and nowhere else. */
  lemma CleanCuts(path: string, clean: string)
    ensures CleanPath(path) == clean <==> IsClean(path, clean)
  {
    BeforeFirst(path, "?");
    var line := Before(path, "?");
    BeforeFirst(line, " | ");
    var cut := CleanPath(path);
    forall i: nat | i < |cut| ensures !EndsAt(path, i) {
      assert !MarkAt(line, " | ", i);
      if MarkAt(path, " | ", i) {
        NoQueryInside(path, line, i);
      }
    }
    if cut != line {
      assert path[|cut|..|cut| + 3] == line[|cut|..|cut| + 3];
    }
    assert IsClean(path, cut);
    if IsClean(path, clean) {
      if |clean| < |cut| {
        assert !EndsAt(path, |clean|);
      }
    }
  }

  lemma QueryAt(s: string, i: nat)
    requires MarkAt(s, "?", i)
    ensures s[i] == '?'
  {
    var mark := s[i..i + 1];
    assert mark == "?";
    assert mark[0] == s[i];
  }

  /** A suffix that begins before the query ends before it. */
  lemma NoQueryInside(path: string, line: string, i: nat)
    requires line <= path && (line == path || MarkAt(path, "?", |line|)) && i < |line| && MarkAt(path, " | ", i)
    ensures MarkAt(line, " | ", i)
  {
    if line != path {
      QueryAt(path, |line|);
    }
    var suffix := path[i..i + 3];
    assert forall j: nat | i <= j < i + 3 :: path[j] == suffix[j - i] != '?';
  }

  // ---- what the class of a record is ----

  /** Route `i` is the first one with the verb of the record and with its path. */
  ghost predicate FirstRoute(routes: seq<Route>, record: Record, i: nat) {
    && i < |routes| && routes[i].verb == record.verb && IsClean(record.path, routes[i].path)
    && forall j | 0 <= j < i :: !(routes[j].verb == record.verb && IsClean(record.path, routes[j].path))
  }

  /** The record is an inference call: its first route says so. */
  ghost predicate Arrives(routes: seq<Route>, record: Record) {
    exists i: nat :: FirstRoute(routes, record, i) && routes[i].kind == Some(Inference)
  }

  /** The record has a class: that of its first route. */
  ghost predicate Profiled(routes: seq<Route>, record: Record) {
    exists i: nat :: FirstRoute(routes, record, i) && routes[i].kind.Some?
  }

  lemma {:induction false} ClassIsFirst(routes: seq<Route>, record: Record)
    ensures forall i: nat | FirstRoute(routes, record, i) :: ClassifyRoute(routes, record) == routes[i].kind
    ensures (forall i: nat :: !FirstRoute(routes, record, i)) ==> ClassifyRoute(routes, record).None?
  {
    hide IsClean;
    if routes != [] {
      CleanCuts(record.path, routes[0].path);
      if routes[0].verb == record.verb && IsClean(record.path, routes[0].path) {
        assert FirstRoute(routes, record, 0);
      } else {
        var rest := routes[1..];
        ClassIsFirst(rest, record);
        forall i: nat ensures FirstRoute(routes, record, i) <==> 0 < i && FirstRoute(rest, record, i - 1) {
          FirstRest(routes, record, i);
        }
        if i: nat :| FirstRoute(rest, record, i) {
          assert FirstRoute(routes, record, i + 1);
        }
      }
    }
  }

  lemma FirstRest(routes: seq<Route>, record: Record, i: nat)
    requires routes != [] && !(routes[0].verb == record.verb && IsClean(record.path, routes[0].path))
    ensures FirstRoute(routes, record, i) <==> 0 < i && FirstRoute(routes[1..], record, i - 1)
  {
    hide IsClean;
    var rest := routes[1..];
    if 0 < i && FirstRoute(rest, record, i - 1) {
      forall j | 0 <= j < i ensures !(routes[j].verb == record.verb && IsClean(record.path, routes[j].path)) {
        assert j > 0 ==> routes[j] == rest[j - 1];
      }
    }
    if FirstRoute(routes, record, i) {
      forall j | 0 <= j < i - 1 ensures !(rest[j].verb == record.verb && IsClean(record.path, rest[j].path)) {
        assert rest[j] == routes[j + 1];
      }
    }
  }

  /**
   * A record counts as inference exactly when its first route with its verb and path is one, and is unprofiled exactly
   * when there is no such route or the first one has no class.
   */
  lemma ClassOf(routes: seq<Route>, record: Record)
    ensures ClassifyRoute(routes, record) == Some(Inference) <==> Arrives(routes, record)
    ensures ClassifyRoute(routes, record).Some? <==> Profiled(routes, record)
  {
    hide FirstRoute;
    ClassIsFirst(routes, record);
  }

  // ---- what the class of a path is ----

  /** Some route has the path of the row, and all that have it are of this class. */
  ghost predicate OnlyKind(routes: seq<Route>, path: string, kind: Class) {
    && (exists route :: route in routes && IsClean(path, route.path))
    && (forall route | route in routes && IsClean(path, route.path) :: route.kind == Some(kind))
  }

  /** A row is of a class exactly when every route with its path is, and there is one. */
  lemma PathClassOf(routes: seq<Route>, path: string, kind: Class)
    ensures ClassifyPath(routes, path) == Some(kind) <==> OnlyKind(routes, path, kind)
  {
    hide IsClean, CleanPath;
    var kinds := Kinds(routes, CleanPath(path));
    forall route | route in routes ensures route.path == CleanPath(path) <==> IsClean(path, route.path) {
      CleanCuts(path, route.path);
    }
    if OnlyKind(routes, path, kind) {
      assert kinds == {Some(kind)};
    }
    if kinds == {Some(kind)} {
      assert Some(kind) in kinds;
      forall route | route in routes && IsClean(path, route.path) ensures route.kind == Some(kind) {
        assert route.kind in kinds;
      }
    }
  }
}
