/**
 * The container inventory of the updater: which containers matter to replacing the target, and when the ones that
 * matter are unchanged. Containers of other projects may come and go meanwhile.
 */
module Inventory {
  import opened Wrappers

  /** A container id: 64 hexadecimal digits, read as a number, so that the order of ids is the order of strings. */
  type Id = nat

  /** A digest of everything about a container that must not change; digests are injective. */
  type Digest = nat

  /** One inspected container. */
  datatype Container = Container(id: Id, digest: Digest, dependencies: set<Id>, networks: set<string>,
                                 project: Option<string>, name: string, started: string)

  datatype Snapshot = Snapshot(backend: string, containers: map<Id, Digest>, deps: set<(Id, Id)>,
                               docs: map<Id, Container>, names: map<Id, string>, started: map<Id, string>,
                               others: set<Id>)

  /** The target of a replacement; its id is missing when no such container exists yet. */
  datatype Target = Target(id: Option<Id>, project: Option<string>, networks: set<string>)

  // ---- taking a snapshot ----

  predicate Complete(s: Snapshot) {
    && s.docs.Keys == s.containers.Keys == s.names.Keys == s.started.Keys
    && (forall d | d in s.deps :: d.0 in s.docs)
  }

  /** The last container in the listing with this id; a later row of the same id overwrites an earlier one. */
  function LastOf(rows: seq<Container>, id: Id): (c: Option<Container>)
    ensures c.Some? ==> c.value in rows && c.value.id == id
    ensures c.None? ==> forall r | r in rows :: r.id != id
  {
    if rows == [] then None
    else if rows[|rows| - 1].id == id then Some(rows[|rows| - 1])
    else LastOf(rows[..|rows| - 1], id)
  }

  method TakeSnapshot(backend: string, rows: seq<Container>) returns (s: Snapshot)
    ensures Complete(s) && s.backend == backend && s.others == {}
    ensures forall id :: id in s.docs <==> LastOf(rows, id).Some?
    ensures forall id | id in s.docs ::
              var c := LastOf(rows, id).value;
              s.docs[id] == c && s.containers[id] == c.digest && s.names[id] == c.name && s.started[id] == c.started
    ensures forall d :: d in s.deps <==> exists c | c in rows :: c.id == d.0 && d.1 in c.dependencies
  {
    s := Snapshot(backend, map[], {}, map[], map[], map[], {});
    for i := 0 to |rows|
      invariant Complete(s) && s.backend == backend && s.others == {}
      invariant forall id :: id in s.docs <==> LastOf(rows[..i], id).Some?
      invariant forall id | id in s.docs ::
                  var c := LastOf(rows[..i], id).value;
                  s.docs[id] == c && s.containers[id] == c.digest && s.names[id] == c.name && s.started[id] == c.started
      invariant forall d :: d in s.deps <==> exists c | c in rows[..i] :: c.id == d.0 && d.1 in c.dependencies
    {
      var c := rows[i];
      assert rows[..i + 1] == rows[..i] + [c];
      s := Snapshot(backend, s.containers[c.id := c.digest], s.deps + (set t | t in c.dependencies :: (c.id, t)),
                    s.docs[c.id := c], s.names[c.id := c.name], s.started[c.id := c.started], {});
    }
    assert rows[..|rows|] == rows;
  }

  // ---- the containers that matter ----

  predicate Relevant(s: Snapshot, t: Target, id: Id)
    requires id in s.docs
  {
    var c := s.docs[id];
    || t.id == Some(id)
    || (t.id.Some? && (id, t.id.value) in s.deps)
    || c.networks * t.networks != {}
    || (t.project.Some? && c.project == t.project)
  }

  function RelevantIds(s: Snapshot, t: Target): set<Id> {
    set id | id in s.docs && Relevant(s, t, id)
  }

  function Only<V>(m: map<Id, V>, keep: set<Id>): map<Id, V> {
    map id | id in m && id in keep :: m[id]
  }

  lemma OnlySame<V>(m: map<Id, V>, n: map<Id, V>, keep: set<Id>)
    requires forall id | id in keep :: (id in m <==> id in n) && (id in m && id in n ==> m[id] == n[id])
    ensures Only(m, keep) == Only(n, keep)
  {
  }

  function Restrict(s: Snapshot, keep: set<Id>): Snapshot {
    Snapshot(s.backend, Only(s.containers, keep), (set d | d in s.deps && d.0 in keep), Only(s.docs, keep),
             Only(s.names, keep), Only(s.started, keep), s.containers.Keys - keep)
  }

  function Scoped(s: Snapshot, t: Target): Snapshot {
    Restrict(s, RelevantIds(s, t))
  }

  /** The two snapshots have the same container under this id, with the same dependencies, or both have none. */
  ghost predicate AgreeOn(a: Snapshot, b: Snapshot, id: Id)
    requires Complete(a) && Complete(b)
  {
    && (id in a.docs <==> id in b.docs)
    && (id in a.docs ==>
          && a.docs[id] == b.docs[id] && a.containers[id] == b.containers[id]
          && a.names[id] == b.names[id] && a.started[id] == b.started[id])
    && (forall x :: (id, x) in a.deps <==> (id, x) in b.deps)
  }

  /** The snapshots differ at most in containers that are irrelevant to the target in both of them. */
  ghost predicate DifferOutside(a: Snapshot, b: Snapshot, t: Target)
    requires Complete(a) && Complete(b)
  {
    && a.backend == b.backend
    && forall id | id in RelevantIds(a, t) + RelevantIds(b, t) :: AgreeOn(a, b, id)
  }

  /** The same snapshot but for the ids left out by the restriction. */
  predicate SameScope(a: Snapshot, b: Snapshot) {
    a == b.(others := a.others)
  }

  lemma SameRelevant(a: Snapshot, b: Snapshot, t: Target)
    requires Complete(a) && Complete(b) && DifferOutside(a, b, t)
    ensures RelevantIds(a, t) == RelevantIds(b, t)
  {
    forall id
      ensures id in RelevantIds(a, t) <==> id in RelevantIds(b, t)
    {
      if id in RelevantIds(a, t) || id in RelevantIds(b, t) {
        assert AgreeOn(a, b, id);
      }
    }
  }

  /** Containers irrelevant in both snapshots change nothing in the restricted one, the list of left-out ids aside. */
  lemma IrrelevantContainersDoNotShow(a: Snapshot, b: Snapshot, t: Target)
    requires Complete(a) && Complete(b) && DifferOutside(a, b, t)
    ensures SameScope(Scoped(a, t), Scoped(b, t))
  {
    SameRelevant(a, b, t);
    var keep := RelevantIds(a, t);
    assert forall id | id in keep :: AgreeOn(a, b, id);
    OnlySame(a.containers, b.containers, keep);
    OnlySame(a.docs, b.docs, keep);
    OnlySame(a.names, b.names, keep);
    OnlySame(a.started, b.started, keep);
    hide Only;
    assert Restrict(a, keep).deps == Restrict(b, keep).deps by {
      forall d
        ensures d in Restrict(a, keep).deps <==> d in Restrict(b, keep).deps
      {
        if d.0 in keep {
          assert AgreeOn(a, b, d.0);
          assert d == (d.0, d.1);
        }
      }
    }
  }

  /** Restricting loses nothing that the target's relevance is judged by. */
  lemma RestrictionIsStable(s: Snapshot, t: Target)
    requires Complete(s)
    ensures Complete(Scoped(s, t)) && RelevantIds(Scoped(s, t), t) == RelevantIds(s, t)
  {
    var r := Scoped(s, t);
    forall id
      ensures id in RelevantIds(r, t) <==> id in RelevantIds(s, t)
    {
      if id in r.docs && t.id.Some? {
        assert (id, t.id.value) in s.deps <==> (id, t.id.value) in r.deps;
      }
    }
  }

  /** Kept are the target, its dependents, its neighbours on a network and its project; the rest is only counted. */
  lemma KeptExactly(s: Snapshot, t: Target, id: Id)
    requires Complete(s) && id in s.containers
    ensures id in Scoped(s, t).containers <==>
              || t.id == Some(id)
              || (t.id.Some? && id in Incoming(s, t.id.value))
              || (exists n :: n in s.docs[id].networks && n in t.networks)
              || (t.project.Some? && s.docs[id].project == t.project)
    ensures id in Scoped(s, t).containers <==> id !in Scoped(s, t).others
    ensures id in Scoped(s, t).containers ==>
              Scoped(s, t).containers[id] == s.containers[id] && Scoped(s, t).docs[id] == s.docs[id]
  {
    var c := s.docs[id];
    if n :| n in c.networks && n in t.networks {
      assert n in c.networks * t.networks;
    }
    if t.id.Some? && id in Incoming(s, t.id.value) {
      var d :| d in s.deps && d.1 == t.id.value && d.0 == id;
      assert d == (id, t.id.value);
    }
    if t.id.Some? && (id, t.id.value) in s.deps {
      assert (id, t.id.value).0 in Incoming(s, t.id.value);
    }
  }

  /** The containers that depend on the target. */
  function Incoming(s: Snapshot, target: Id): set<Id> {
    set d | d in s.deps && d.1 == target :: d.0
  }

  /** No dependent of the target is ever left out. */
  lemma IncomingIsRelevant(s: Snapshot, t: Target)
    requires Complete(s) && t.id.Some?
    ensures Incoming(Scoped(s, t), t.id.value) == Incoming(s, t.id.value)
  {
    forall id | id in Incoming(s, t.id.value)
      ensures id in Incoming(Scoped(s, t), t.id.value)
    {
      var d :| d in s.deps && d.1 == t.id.value && d.0 == id;
      assert d == (id, t.id.value);
      assert d in Scoped(s, t).deps;
    }
  }

  // ---- unchanged ----

  datatype Name = Named(name: string) | Short(id: Id)

  datatype Kind = Removed | Appeared | Restarted | Altered

  datatype Change = Change(id: Id, name: Name, kind: Kind)

  datatype Verdict = Unchanged | BackendChanged | InventoryChanged(changes: seq<Change>)

  function NameOf(before: Snapshot, after: Snapshot, id: Id): Name {
    if id in after.names && after.names[id] != "" then Named(after.names[id])
    else if id in before.names && before.names[id] != "" then Named(before.names[id])
    else Short(id)
  }

  function StartOf(s: Snapshot, id: Id): Option<string> {
    if id in s.started then Some(s.started[id]) else None
  }

  /** What happened to one container between the snapshots. */
  function ChangeOf(before: Snapshot, after: Snapshot, id: Id): (c: Option<Change>)
    ensures c.Some? ==> c.value.id == id && (id in before.containers || id in after.containers)
    ensures c.None? <==> (id in before.containers <==> id in after.containers)
                         && (id in before.containers && id in after.containers ==>
                               before.containers[id] == after.containers[id])
  {
    if id !in before.containers && id !in after.containers then None
    else if id !in after.containers then Some(Change(id, NameOf(before, after, id), Removed))
    else if id !in before.containers then Some(Change(id, NameOf(before, after, id), Appeared))
    else if before.containers[id] == after.containers[id] then None
    else Some(Change(id, NameOf(before, after, id),
                     if StartOf(before, id) != StartOf(after, id) then Restarted else Altered))
  }

  /**
   * What a change says is so: the container is gone, is new, was started again, or differs in something else; and it
   * goes by its newest name that is not empty, or by its id if it never had one.
   */
  ghost predicate Tells(c: Change, before: Snapshot, after: Snapshot) {
    var was, now := c.id in before.containers, c.id in after.containers;
    var same := (c.id in before.started <==> c.id in after.started)
                && (c.id in before.started && c.id in after.started ==> before.started[c.id] == after.started[c.id]);
    && (c.kind == Removed <==> was && !now) && (c.kind == Appeared <==> !was && now)
    && (c.kind == Restarted <==> was && now && !same) && (c.kind == Altered <==> was && now && same)
    && (was && now ==> before.containers[c.id] != after.containers[c.id])
    && Calls(c.name, before, after, c.id)
  }

  predicate Calls(name: Name, before: Snapshot, after: Snapshot, id: Id) {
    var renamed, named := id in after.names && |after.names[id]| > 0, id in before.names && |before.names[id]| > 0;
    match name
    case Named(n) => (renamed && n == after.names[id]) || (!renamed && named && n == before.names[id])
    case Short(i) => !renamed && !named && i == id
  }

  lemma ChangeTells(before: Snapshot, after: Snapshot, id: Id)
    requires ChangeOf(before, after, id).Some?
    ensures Tells(ChangeOf(before, after, id).value, before, after)
  {
  }

  /** Exactly the changes there are, in the order of the ids. */
  ghost predicate Lists(changes: seq<Change>, before: Snapshot, after: Snapshot) {
    && (forall i, j | 0 <= i < j < |changes| :: changes[i].id < changes[j].id)
    && (forall c | c in changes :: ChangeOf(before, after, c.id) == Some(c))
    && (forall id | ChangeOf(before, after, id).Some? :: ChangeOf(before, after, id).value in changes)
  }

  ghost predicate Judges(v: Verdict, before: Snapshot, after: Snapshot) {
    match v
    case BackendChanged => before.backend != after.backend
    case InventoryChanged(changes) =>
      before.backend == after.backend && Lists(changes, before, after) && (changes == [] ==> before.deps != after.deps)
    case Unchanged =>
      before.backend == after.backend && before.containers == after.containers && before.deps == after.deps
  }

  lemma LeastId(ids: set<Id>) returns (least: Id)
    requires ids != {}
    ensures least in ids && forall x | x in ids :: least <= x
  {
    var x :| x in ids;
    if ids == {x} {
      return x;
    }
    var y := LeastId(ids - {x});
    least := if x < y then x else y;
    assert forall z | z in ids :: z == x || z in ids - {x};
  }

  lemma NoChanges(changes: seq<Change>, before: Snapshot, after: Snapshot)
    requires Lists(changes, before, after)
    ensures changes == [] <==> before.containers == after.containers
  {
    if changes == [] {
      forall id
        ensures id in before.containers <==> id in after.containers
        ensures id in before.containers && id in after.containers ==> before.containers[id] == after.containers[id]
      {
        assert ChangeOf(before, after, id).None?;
      }
    } else {
      assert changes[0] in changes;
    }
  }

  /** All changes outside `todo` are listed in order, and every id in `todo` comes after them. */
  ghost predicate ListedBut(changes: seq<Change>, before: Snapshot, after: Snapshot, todo: set<Id>) {
    && (forall i, j | 0 <= i < j < |changes| :: changes[i].id < changes[j].id)
    && (forall c | c in changes :: ChangeOf(before, after, c.id) == Some(c))
    && (forall c, x | c in changes && x in todo :: c.id < x)
    && (forall id | id !in todo && ChangeOf(before, after, id).Some? :: ChangeOf(before, after, id).value in changes)
  }

  lemma ListNext(changes: seq<Change>, before: Snapshot, after: Snapshot, todo: set<Id>, id: Id)
    requires ListedBut(changes, before, after, todo)
    requires id in todo && forall x | x in todo :: id <= x
    ensures var change := ChangeOf(before, after, id);
            ListedBut(if change.Some? then changes + [change.value] else changes, before, after, todo - {id})
  {
    hide ChangeOf;
    var change := ChangeOf(before, after, id);
    if change.Some? {
      var more := changes + [change.value];
      assert forall c :: c in more <==> c in changes || c == change.value;
    }
  }

  method ListChanges(before: Snapshot, after: Snapshot) returns (changes: seq<Change>)
    ensures Lists(changes, before, after)
    ensures forall c | c in changes :: Tells(c, before, after)
  {
    hide Tells;
    forall id | ChangeOf(before, after, id).Some? ensures Tells(ChangeOf(before, after, id).value, before, after) {
      ChangeTells(before, after, id);
    }
    changes := [];
    var todo := before.containers.Keys + after.containers.Keys;
    while todo != {}
      invariant ListedBut(changes, before, after, todo)
      decreases |todo|
    {
      hide ChangeOf, ListedBut;
      ghost var least := LeastId(todo);
      var id :| id in todo && forall x | x in todo :: id <= x;
      ListNext(changes, before, after, todo, id);
      todo := todo - {id};
      var change := ChangeOf(before, after, id);
      if change.Some? {
        changes := changes + [change.value];
      }
    }
  }

  /** Accepts exactly when backend, containers and dependencies are equal; otherwise lists every change, in order. */
  method AssertUnchanged(before: Snapshot, after: Snapshot) returns (v: Verdict)
    ensures Judges(v, before, after)
    ensures v == Unchanged <==>
              before.backend == after.backend && before.containers == after.containers && before.deps == after.deps
    ensures v.InventoryChanged? ==> forall c | c in v.changes :: Tells(c, before, after)
  {
    hide Tells;
    if before.backend != after.backend {
      return BackendChanged;
    }
    var changes := ListChanges(before, after);
    NoChanges(changes, before, after);
    if changes != [] || before.deps != after.deps {
      return InventoryChanged(changes);
    }
    return Unchanged;
  }

  /** Two increasing lists of the same elements are the same list. */
  lemma {:induction false} OneListing(a: seq<Change>, b: seq<Change>)
    requires forall i, j | 0 <= i < j < |a| :: a[i].id < a[j].id
    requires forall i, j | 0 <= i < j < |b| :: b[i].id < b[j].id
    requires forall c :: c in a <==> c in b
    ensures a == b
  {
    assert a != [] ==> a[0] in a;
    assert b != [] ==> b[0] in b;
    if a != [] && b != [] {
      assert a[0] == b[0];
      forall c
        ensures c in a[1..] <==> c in b[1..]
      {
        if c in a[1..] || c in b[1..] {
          assert c in a && c in b && c != a[0];
        }
      }
      OneListing(a[1..], b[1..]);
      assert a == [a[0]] + a[1..] && b == [b[0]] + b[1..];
    }
  }

  /** There is one right verdict on two snapshots, down to the wording. */
  lemma OneVerdict(v: Verdict, w: Verdict, before: Snapshot, after: Snapshot)
    requires Judges(v, before, after) && Judges(w, before, after)
    ensures v == w
  {
    if v.InventoryChanged? {
      NoChanges(v.changes, before, after);
    }
    if w.InventoryChanged? {
      NoChanges(w.changes, before, after);
    }
    if v.InventoryChanged? && w.InventoryChanged? {
      forall c
        ensures c in v.changes <==> c in w.changes
      {
        if c in v.changes || c in w.changes {
          assert ChangeOf(before, after, c.id) == Some(c);
        }
      }
      OneListing(v.changes, w.changes);
    }
  }

  /** Whatever comes and goes beside the target's own neighbourhood, the verdict is the same one. */
  lemma VerdictIgnoresOthers(before: Snapshot, a: Snapshot, b: Snapshot, t: Target, v: Verdict, w: Verdict)
    requires Complete(a) && Complete(b) && DifferOutside(a, b, t)
    requires Judges(v, before, Scoped(a, t)) && Judges(w, before, Scoped(b, t))
    ensures v == w
  {
    IrrelevantContainersDoNotShow(a, b, t);
    var x, y := Scoped(a, t), Scoped(b, t);
    assert forall id :: ChangeOf(before, x, id) == ChangeOf(before, y, id);
    assert Judges(w, before, x);
    OneVerdict(v, w, before, x);
  }

  // ---- the recheck before acting ----

  /** Everything the deployment fingerprint is computed from; `rest` stands for the parts outside the inventory. */
  datatype Parts = Parts(rest: string, backend: string, containers: map<Id, Digest>, deps: set<(Id, Id)>)

  function PartsOf(rest: string, s: Snapshot): Parts {
    Parts(rest, s.backend, s.containers, s.deps)
  }

  datatype Recheck =
    | Steady(added: nat, removed: nat)
    | TargetGone
    | Drifted(verdict: Verdict)
    | Depended
    | FingerprintDrift

  predicate Gone(now: Snapshot, t: Target) {
    t.id.Some? && t.id.value !in now.docs
  }

  predicate Needed(now: Snapshot, t: Target) {
    t.id.Some? && Incoming(now, t.id.value) != {}
  }

  /** The relevant part of the inventory is the recorded one. */
  predicate Held(before: Snapshot, now: Snapshot, t: Target) {
    && before.backend == now.backend && before.containers == Scoped(now, t).containers
    && before.deps == Scoped(now, t).deps
  }

  method RunRecheck(before: Snapshot, expected: Parts, rest: string, now: Snapshot, t: Target) returns (r: Recheck)
    requires Complete(now)
    ensures r == TargetGone <==> Gone(now, t)
    ensures r.Drifted? <==> !Gone(now, t) && !Held(before, now, t)
    ensures r.Drifted? ==> r.verdict != Unchanged && Judges(r.verdict, before, Scoped(now, t))
    ensures r == Depended <==> !Gone(now, t) && Held(before, now, t) && Needed(now, t)
    ensures r == FingerprintDrift <==>
              !Gone(now, t) && Held(before, now, t) && !Needed(now, t) && PartsOf(rest, Scoped(now, t)) != expected
    ensures r.Steady? ==> r.added == |Scoped(now, t).others - before.others|
                          && r.removed == |before.others - Scoped(now, t).others|
  {
    var s := Restrict(now, RelevantIds(now, t));
    if t.id.Some? && t.id.value !in s.containers {
      return TargetGone;
    }
    var v := AssertUnchanged(before, s);
    if v != Unchanged {
      return Drifted(v);
    }
    if t.id.Some? {
      IncomingIsRelevant(now, t);
      if Incoming(s, t.id.value) != {} {
        return Depended;
      }
    }
    if PartsOf(rest, s) != expected {
      return FingerprintDrift;
    }
    return Steady(|s.others - before.others|, |before.others - s.others|);
  }

  /** The fingerprint of the deployment does not see irrelevant containers either. */
  lemma FingerprintIgnoresOthers(rest: string, a: Snapshot, b: Snapshot, t: Target)
    requires Complete(a) && Complete(b) && DifferOutside(a, b, t)
    ensures PartsOf(rest, Scoped(a, t)) == PartsOf(rest, Scoped(b, t))
  {
    IrrelevantContainersDoNotShow(a, b, t);
  }

  /**
   * The ids of the containers left out are the only trace of them: the restricted snapshots are identical exactly when
   * the same ones were left out. No comparison looks at these ids, and no fingerprint is computed from them.
   */
  lemma OthersDecide(a: Snapshot, b: Snapshot, t: Target)
    requires Complete(a) && Complete(b) && DifferOutside(a, b, t)
    ensures Scoped(a, t) == Scoped(b, t) <==> a.docs.Keys - RelevantIds(a, t) == b.docs.Keys - RelevantIds(b, t)
  {
    IrrelevantContainersDoNotShow(a, b, t);
  }

  /** And they do change. */
  lemma OthersDiffer()
    ensures exists a: Snapshot, b: Snapshot, t: Target ::
              && Complete(a) && Complete(b) && DifferOutside(a, b, t)
              && Scoped(a, t) != Scoped(b, t)
  {
    var t := Target(None, None, {});
    var c := Container(7, 1, {}, {}, None, "x", "");
    var a := Snapshot("", map[], {}, map[], map[], map[], {});
    var b := Snapshot("", map[7 := 1], {}, map[7 := c], map[7 := "x"], map[7 := ""], {});
    assert RelevantIds(a, t) == {} == RelevantIds(b, t);
    assert 7 in Scoped(b, t).others && 7 !in Scoped(a, t).others;
  }
}
