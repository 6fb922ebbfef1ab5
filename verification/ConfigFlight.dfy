/**
 * The single flight behind `/config`: a handler takes the flight lock, starts a worker to fetch the key and the combos
 * into a box, and waits for it a limited time. The lock is handed to the worker, which gives it back when it is done,
 * however late. The lock has no owner; that it is never given back twice is a property of the protocol.
 */
module ConfigFlight {
  import opened Numbers
  import opened Wrappers

  datatype Box = Box(key: Option<int>, combos: Option<int>, error: Option<string>, crash: bool)

  const EMPTY := Box(None, None, None, false)

  /** What a client gets: `Crashed` is the worker's exception, raised again, and `Raised` one of the handler's own. */
  datatype Reply = Busy | NotStarted | Late | Failed(error: string) | Crashed | Served(key: int, combos: int) | Raised

  datatype Handler = Arrived | Launching | Waiting | Reading | Answered(reply: Reply)

  datatype Worker = NoWorker | FetchKey | FetchCombos | Releasing | Exiting | Dead

  /** One request: its handler, its worker, their box, and how often the lock was taken and given back for it. */
  datatype Request = Request(handler: Handler, worker: Worker, box: Box, taken: nat, returned: nat)

  datatype State = State(requests: map<nat, Request>, held: bool)

  const INITIAL := State(map[], false)

  /** How a fetch ends. */
  datatype Fetch = Got(value: int) | Unreachable(error: string) | Exception

  datatype Action =
    | Arrive(id: nat)
    | TryAcquire(id: nat)
    | Start(id: nat, ok: bool)
    | Work(id: nat, fetch: Fetch)
    | Wake(id: nat)       // the wait ends: the time is up or the worker is dead
    | ReadBox(id: nat)

  predicate Enabled(s: State, a: Action) {
    if a.Arrive? then a.id !in s.requests
    else
      && a.id in s.requests
      && var r := s.requests[a.id];
         match a
         case TryAcquire(_) => r.handler == Arrived
         case Start(_, _) => r.handler == Launching
         case Work(_, _) => r.worker !in {NoWorker, Dead}
         case Wake(_) => r.handler == Waiting
         case ReadBox(_) => r.handler == Reading
         case Arrive(_) => false
  }

  /** Whether the next step of this request gives the lock back. */
  predicate Returns(s: State, a: Action)
    requires Enabled(s, a)
  {
    (a.Start? && !a.ok) || (a.Work? && s.requests[a.id].worker == Releasing)
  }

  function WorkOf(r: Request, fetch: Fetch): Request {
    match r.worker
    case FetchKey =>
      (match fetch
       case Got(k) => r.(box := r.box.(key := Some(k)), worker := FetchCombos)
       case Unreachable(e) => r.(box := r.box.(error := Some(e)), worker := Releasing)
       case Exception => r.(box := r.box.(crash := true), worker := Releasing))
    case FetchCombos =>
      (match fetch
       case Got(c) => r.(box := r.box.(combos := Some(c)), worker := Releasing)
       case Unreachable(e) => r.(box := r.box.(error := Some(e)), worker := Releasing)
       case Exception => r.(box := r.box.(crash := true), worker := Releasing))
    case Releasing => r.(worker := Exiting, returned := r.returned + 1)
    case Exiting => r.(worker := Dead)
    case _ => r
  }

  /** A box with a crash, an error, or everything that was asked for. */
  predicate Complete(b: Box) {
    b.crash || b.error.Some? || (b.key.Some? && b.combos.Some?)
  }

  /** Reading an incomplete box raises a KeyError. */
  function ReplyOf(b: Box): Reply {
    if b.crash then Crashed
    else if b.error.Some? then Failed(b.error.value)
    else if b.key.Some? && b.combos.Some? then Served(b.key.value, b.combos.value)
    else Raised
  }

  function Apply(s: State, a: Action): State
    requires Enabled(s, a)
  {
    if a.Arrive? then
      s.(requests := s.requests[a.id := Request(Arrived, NoWorker, EMPTY, 0, 0)])
    else
      var r := s.requests[a.id];
      var t := match a
        case TryAcquire(_) =>
          if s.held then r.(handler := Answered(Busy)) else r.(handler := Launching, taken := r.taken + 1)
        case Start(_, ok) =>
          if ok then r.(handler := Waiting, worker := FetchKey)
          else r.(handler := Answered(NotStarted), returned := r.returned + 1)
        case Work(_, fetch) => WorkOf(r, fetch)
        case Wake(_) => r.(handler := if r.worker == Dead then Reading else Answered(Late))
        case ReadBox(_) => r.(handler := Answered(ReplyOf(r.box)))
        case Arrive(_) => r;
      State(s.requests[a.id := t], (s.held || a.TryAcquire?) && !Returns(s, a))
  }

  // ---- the invariant ----

  /** The request is why the lock is held: its handler is launching a worker, or its worker is still fetching. */
  predicate Flying(r: Request) {
    r.handler == Launching || r.worker in {FetchKey, FetchCombos, Releasing}
  }

  predicate Sound(r: Request) {
    && (r.handler in {Arrived, Launching, Answered(Busy), Answered(NotStarted)} ==> r.worker == NoWorker)
    && (r.handler == Waiting ==> r.worker != NoWorker)
    && (r.handler == Reading ==> r.worker == Dead)
    && (r.worker in {Releasing, Exiting, Dead} ==> Complete(r.box))
    && (r.worker in {NoWorker, FetchKey} ==> r.box == EMPTY)
    && (r.worker == FetchCombos ==> r.box.key.Some? && r.box == EMPTY.(key := r.box.key))
    && (r.handler == Arrived || r.handler == Answered(Busy) ==> r.taken == 0)
    && r.taken == r.returned + (if Flying(r) then 1 else 0)
    && r.taken <= 1
    && (r.handler.Answered? && r.handler.reply !in {Busy, NotStarted, Late} ==>
          r.worker == Dead && Complete(r.box) && r.handler.reply == ReplyOf(r.box) && r.handler.reply != Raised)
  }

  /** The lock is held exactly while one request flies. */
  predicate Inv(s: State) {
    && (forall i | i in s.requests :: Sound(s.requests[i]))
    && (forall i | i in s.requests && Flying(s.requests[i]) :: s.held)
    && (s.held ==> exists i | i in s.requests :: Flying(s.requests[i]))
    && (forall i, j | i in s.requests && j in s.requests && Flying(s.requests[i]) && Flying(s.requests[j]) :: i == j)
  }

  /** One request's step: what it does to its own record and to the lock. */
  lemma RequestStep(s: State, a: Action)
    requires Inv(s) && Enabled(s, a) && !a.Arrive?
    ensures var r, t := s.requests[a.id], Apply(s, a).requests[a.id];
            && Sound(t)
            && (Flying(t) ==> Flying(r) || (a.TryAcquire? && !s.held))
            && (Returns(s, a) ==> Flying(r) && !Flying(t))
            && (Flying(r) && !Flying(t) ==> Returns(s, a))
            && (a.TryAcquire? ==> Apply(s, a).held && (Flying(t) <==> !s.held))
  {
  }

  lemma ArriveKeeps(s: State, id: nat)
    requires Inv(s) && Enabled(s, Arrive(id))
    ensures Inv(Apply(s, Arrive(id)))
  {
    var t := Apply(s, Arrive(id));
    assert Sound(t.requests[id]) && !Flying(t.requests[id]);
    hide Sound;
    assert forall i | i in s.requests :: t.requests[i] == s.requests[i];
    if s.held {
      var i :| i in s.requests && Flying(s.requests[i]);
      assert Flying(t.requests[i]);
    }
  }

  lemma Others(s: State, a: Action)
    requires Enabled(s, a) && !a.Arrive?
    ensures var t := Apply(s, a);
            && a.id in s.requests
            && t.held == ((s.held || a.TryAcquire?) && !Returns(s, a))
            && t.requests.Keys == s.requests.Keys
            && forall i | i in s.requests && i != a.id :: t.requests[i] == s.requests[i]
  {
    hide WorkOf, ReplyOf;
  }

  lemma StepKeeps(s: State, a: Action)
    requires Inv(s) && Enabled(s, a)
    ensures Inv(Apply(s, a))
  {
    hide Sound, Apply, Flying, Returns, Enabled, Complete;
    var t := Apply(s, a);
    if a.Arrive? {
      ArriveKeeps(s, a.id);
    } else {
      RequestStep(s, a);
      Others(s, a);
      if s.held {
        var i :| i in s.requests && Flying(s.requests[i]);
        assert t.held ==> Flying(t.requests[i]);
      }
    }
  }

  // ---- runs ----

  predicate Runs(s: State, actions: seq<Action>)
    decreases |actions|
  {
    actions == [] || (Enabled(s, actions[0]) && Runs(Apply(s, actions[0]), actions[1..]))
  }

  function After(s: State, actions: seq<Action>): State
    requires Runs(s, actions)
    decreases |actions|
  {
    if actions == [] then s else After(Apply(s, actions[0]), actions[1..])
  }

  ghost predicate Reachable(s: State) {
    exists actions :: Runs(INITIAL, actions) && After(INITIAL, actions) == s
  }

  lemma {:induction false} RunKeeps(s: State, actions: seq<Action>)
    requires Inv(s) && Runs(s, actions)
    ensures Inv(After(s, actions))
    decreases |actions|
  {
    if actions != [] {
      StepKeeps(s, actions[0]);
      RunKeeps(Apply(s, actions[0]), actions[1..]);
    }
  }

  lemma ReachableKeeps(s: State)
    requires Reachable(s)
    ensures Inv(s)
  {
    var actions :| Runs(INITIAL, actions) && After(INITIAL, actions) == s;
    RunKeeps(INITIAL, actions);
  }

  // ---- what the protocol promises ----

  /** No handler ever reads an incomplete box, so reading it never raises an exception of the handler's own. */
  lemma AnIncompleteBoxIsNeverRead(s: State, a: Action)
    requires Reachable(s) && Enabled(s, a) && a.ReadBox?
    ensures Complete(s.requests[a.id].box) && s.requests[a.id].worker == Dead
    ensures Apply(s, a).requests[a.id].handler.reply != Raised
  {
    ReachableKeeps(s);
    assert Sound(s.requests[a.id]);
  }

  /** Whatever the requests do, none of them is ever answered by such an exception. */
  lemma NeverRaised(s: State, id: nat)
    requires Reachable(s) && id in s.requests
    ensures s.requests[id].handler != Answered(Raised)
  {
    ReachableKeeps(s);
    assert Sound(s.requests[id]);
  }

  /** The lock is held exactly while one handler is launching or one worker is still fetching, and only ever one. */
  lemma HeldExactlyInFlight(s: State)
    requires Reachable(s)
    ensures s.held <==> exists i | i in s.requests :: Flying(s.requests[i])
    ensures forall i, j | i in s.requests && j in s.requests && Flying(s.requests[i]) && Flying(s.requests[j]) :: i == j
  {
    ReachableKeeps(s);
  }

  /** A lock that is given back was held, for the request that gives it back, and had not been given back yet. */
  lemma ReturnedOnce(s: State, a: Action)
    requires Reachable(s) && Enabled(s, a) && Returns(s, a)
    ensures s.held && Flying(s.requests[a.id]) && s.requests[a.id].taken == 1 && s.requests[a.id].returned == 0
  {
    ReachableKeeps(s);
  }

  /** Every request gives back what it took, once it is no longer flying. */
  lemma TakenIsReturned(s: State, id: nat)
    requires Reachable(s) && id in s.requests
    ensures var r := s.requests[id]; r.returned <= r.taken <= 1 && (r.returned == r.taken <==> !Flying(r))
  {
    ReachableKeeps(s);
  }

  /** What a client is served is what its own worker fetched. */
  lemma ServedIsFetched(s: State, id: nat)
    requires Reachable(s) && id in s.requests
    requires s.requests[id].handler.Answered? && s.requests[id].handler.reply.Served?
    ensures var r := s.requests[id];
            r.box.key == Some(r.handler.reply.key) && r.box.combos == Some(r.handler.reply.combos) && !r.box.crash
  {
    ReachableKeeps(s);
  }

  // ---- the way back ----

  /** How many steps of its own a request still needs until its lock is back. */
  function Left(r: Request): (n: nat)
    ensures n == 0 <==> !Flying(r)
  {
    if r.handler == Launching then 4
    else
      match r.worker
      case FetchKey => 3
      case FetchCombos => 2
      case Releasing => 1
      case _ => 0
  }

  /** The action is a step of this request's own: its handler starts the worker, or the worker goes on. */
  predicate Moves(a: Action, id: nat) {
    (a.Start? || a.Work?) && a.id == id
  }

  /** A request in flight is never stuck: it can take a step of its own, and however that ends, fewer are left. */
  lemma FlightMoves(s: State, id: nat, ok: bool, fetch: Fetch)
    requires Reachable(s) && id in s.requests && Flying(s.requests[id])
    ensures var a := if s.requests[id].handler == Launching then Start(id, ok) else Work(id, fetch);
            && Enabled(s, a) && Moves(a, id)
            && Left(Apply(s, a).requests[id]) < Left(s.requests[id])
  {
    ReachableKeeps(s);
    assert Sound(s.requests[id]);
  }

  lemma NeverLonger(s: State, a: Action, id: nat)
    requires Inv(s) && Enabled(s, a) && id in s.requests && s.requests[id].handler != Arrived
    ensures var t := Apply(s, a);
            && id in t.requests && t.requests[id].handler != Arrived
            && Left(t.requests[id]) <= if Moves(a, id) then Max(0, Left(s.requests[id]) - 1) else Left(s.requests[id])
  {
    assert Sound(s.requests[id]);
  }

  /** How many steps of its own the request takes in a run. */
  function Taken(actions: seq<Action>, id: nat): nat {
    if actions == [] then 0 else (if Moves(actions[0], id) then 1 else 0) + Taken(actions[1..], id)
  }

  /**
   * Whatever happens in between, each step of its own brings the request's lock closer, and nothing delays it: after at
   * most four of them it is back.
   */
  lemma {:induction false} FlightEnds(s: State, actions: seq<Action>, id: nat)
    requires Inv(s) && Runs(s, actions) && id in s.requests && s.requests[id].handler != Arrived
    ensures var t := After(s, actions);
            && id in t.requests && Left(t.requests[id]) <= Max(0, Left(s.requests[id]) - Taken(actions, id))
            && (Taken(actions, id) >= 4 ==> !Flying(t.requests[id]))
    decreases |actions|
  {
    hide Apply, Enabled, Sound, Flying, Moves;
    if actions != [] {
      StepKeeps(s, actions[0]);
      NeverLonger(s, actions[0], id);
      FlightEnds(Apply(s, actions[0]), actions[1..], id);
    }
  }

  // ---- what a request is answered ----

  /** The request's own steps of a run, in order. */
  function Own(actions: seq<Action>, id: nat): seq<Action> {
    if actions == [] then [] else (if actions[0].id == id then [actions[0]] else []) + Own(actions[1..], id)
  }

  /** One step of a request on its own, once it has been launched. */
  function Stepped(r: Request, a: Action): Request {
    match a
    case Start(_, ok) =>
      if ok then r.(handler := Waiting, worker := FetchKey)
      else r.(handler := Answered(NotStarted), returned := r.returned + 1)
    case Work(_, fetch) => WorkOf(r, fetch)
    case Wake(_) => r.(handler := if r.worker == Dead then Reading else Answered(Late))
    case ReadBox(_) => r.(handler := Answered(ReplyOf(r.box)))
    case _ => r
  }

  function Alone(r: Request, own: seq<Action>): Request
    decreases |own|
  {
    if own == [] then r else Alone(Stepped(r, own[0]), own[1..])
  }

  /** From its launch on, nothing that other requests do makes a difference to a request, to its reply least of all. */
  lemma {:induction false} OthersDoNotMatter(s: State, actions: seq<Action>, id: nat)
    requires Runs(s, actions) && id in s.requests && s.requests[id].handler != Arrived
    ensures id in After(s, actions).requests
    ensures After(s, actions).requests[id] == Alone(s.requests[id], Own(actions, id))
    decreases |actions|
  {
    hide ReplyOf;
    if actions != [] {
      var a := actions[0];
      var t := Apply(s, a);
      OthersDoNotMatter(t, actions[1..], id);
      if a.id == id {
        assert Own(actions, id) == [a] + Own(actions[1..], id);
        assert Own(actions, id)[1..] == Own(actions[1..], id);
      } else {
        assert t.requests[id] == s.requests[id] && Own(actions, id) == Own(actions[1..], id);
      }
    }
  }

  /** What a fetch of the key and then one of the combos come to. */
  function Expected(f: Fetch, g: Fetch): Reply {
    match f
    case Unreachable(e) => Failed(e)
    case Exception => Crashed
    case Got(key) =>
      match g
      case Unreachable(e) => Failed(e)
      case Exception => Crashed
      case Got(combos) => Served(key, combos)
  }

  /** The steps of a worker that fetches this: the second fetch is made only after the first one succeeded. */
  ghost predicate Fetching(own: seq<Action>, id: nat, f: Fetch, g: Fetch) {
    && |own| == (if f.Got? then 4 else 3) && own[0] == Work(id, f) && (f.Got? ==> own[1] == Work(id, g))
    && forall k | 0 <= k < |own| :: own[k].Work? && own[k].id == id
  }

  lemma {:induction false} AloneGoesOn(r: Request, a: seq<Action>, b: seq<Action>)
    ensures Alone(r, a + b) == Alone(Alone(r, a), b)
    decreases |a|
  {
    hide Stepped;
    if a == [] {
      assert a + b == b;
    } else {
      assert (a + b)[0] == a[0] && (a + b)[1..] == a[1..] + b;
      AloneGoesOn(Stepped(r, a[0]), a[1..], b);
    }
  }

  lemma OneStep(r: Request, a: Action)
    ensures Alone(r, []) == r && Alone(r, [a]) == Stepped(r, a)
  {
    assert [a][1..] == [];
  }

  /** The worker is dead after these steps and not before, and its box holds what it fetched. */
  lemma WorkerEnds(r: Request, own: seq<Action>, id: nat, f: Fetch, g: Fetch, n: nat)
    requires r.worker == FetchKey && r.box == EMPTY && Fetching(own, id, f, g) && n <= |own|
    ensures Alone(r, own[..n]).worker == Dead <==> n == |own|
    ensures Alone(r, own[..n]).handler == r.handler
    ensures ReplyOf(Alone(r, own).box) == Expected(f, g)
  {
    hide Alone;
    var a := WorkOf(r, own[0].fetch);
    OneStep(r, own[0]);
    var b := WorkOf(a, own[1].fetch);
    OneStep(a, own[1]);
    var c := WorkOf(b, own[2].fetch);
    OneStep(b, own[2]);
    AloneGoesOn(r, own[..1], [own[1]]);
    AloneGoesOn(r, own[..2], [own[2]]);
    assert own[..1] == [own[0]] && own[..2] == own[..1] + [own[1]] && own[..3] == own[..2] + [own[2]];
    if f.Got? {
      OneStep(c, own[3]);
      AloneGoesOn(r, own[..3], [own[3]]);
      assert own[..4] == own[..3] + [own[3]];
    }
    assert own[..|own|] == own;
    assert own[..0] == [];
  }

  /** The handler starts the worker, which takes `n` of its steps before the handler wakes up. */
  lemma Wakes(r: Request, own: seq<Action>, id: nat, f: Fetch, g: Fetch, n: nat)
    requires r.handler == Launching && r.box == EMPTY && Fetching(own, id, f, g) && n <= |own|
    ensures Alone(r, [Start(id, true)] + own[..n] + [Wake(id)]).handler == if n < |own| then Answered(Late) else Reading
    ensures n == |own| ==> ReplyOf(Alone(r, [Start(id, true)] + own[..n] + [Wake(id)]).box) == Expected(f, g)
  {
    hide WorkOf, ReplyOf, Alone;
    var started := r.(handler := Waiting, worker := FetchKey);
    OneStep(r, Start(id, true));
    WorkerEnds(started, own, id, f, g, n);
    AloneGoesOn(r, [Start(id, true)], own[..n]);
    AloneGoesOn(r, [Start(id, true)] + own[..n], [Wake(id)]);
    OneStep(Alone(started, own[..n]), Wake(id));
    assert own[..|own|] == own;
  }

  /** A request whose worker is done when its handler wakes up is answered with what was fetched. */
  lemma ReadyIsServed(s: State, actions: seq<Action>, id: nat, f: Fetch, g: Fetch, works: seq<Action>)
    requires Reachable(s) && Runs(s, actions) && id in s.requests && s.requests[id].handler == Launching
    requires Fetching(works, id, f, g) && Own(actions, id) == [Start(id, true)] + works + [Wake(id)] + [ReadBox(id)]
    ensures id in After(s, actions).requests
    ensures After(s, actions).requests[id].handler == Answered(Expected(f, g))
  {
    hide ReplyOf, Expected;
    ReachableKeeps(s);
    assert Sound(s.requests[id]);
    OthersDoNotMatter(s, actions, id);
    Wakes(s.requests[id], works, id, f, g, |works|);
    assert works[..|works|] == works;
    AloneGoesOn(s.requests[id], [Start(id, true)] + works + [Wake(id)], [ReadBox(id)]);
    OneStep(Alone(s.requests[id], [Start(id, true)] + works + [Wake(id)]), ReadBox(id));
  }

  /** One whose worker still has a step to take is told that it took too long. */
  lemma EarlyIsLate(s: State, actions: seq<Action>, id: nat, f: Fetch, g: Fetch, works: seq<Action>, n: nat)
    requires Reachable(s) && Runs(s, actions) && id in s.requests && s.requests[id].handler == Launching
    requires Fetching(works, id, f, g) && n < |works|
    requires Own(actions, id) == [Start(id, true)] + works[..n] + [Wake(id)]
    ensures id in After(s, actions).requests && After(s, actions).requests[id].handler == Answered(Late)
  {
    ReachableKeeps(s);
    assert Sound(s.requests[id]);
    OthersDoNotMatter(s, actions, id);
    Wakes(s.requests[id], works, id, f, g, n);
  }
}