/**
 * Issuing one API key to many callers: threads of several processes share a cache file. A thread lock in each process
 * and a lock on a file beside the cache guard reading it, asking the server, creating a key and replacing the file.
 * The protocol is a state machine: every lock operation, request and file access is one step, and the steps of all
 * callers, crashes and revocations interleave freely.
 */
module KeyIssuance {
  import opened Wrappers

  type Key = nat

  /** One call, made by one thread of one process. */
  datatype Caller = Caller(process: nat, thread: nat)

  datatype Pc =
    | WantThread
    | WantFile
    | Login
    | Read
    | Listing(cached: Key)
    | Create
    | Write(key: Key)
    | LeaveFile(out: Option<Key>)
    | LeaveThread(out: Option<Key>)
    | Done(out: Option<Key>)
    | Killed

  /** A key handed to a caller, with the number of mishaps when it took the file lock and when it got the key. */
  datatype Handed = Handed(caller: Caller, key: Key, since: nat, at: nat)

  /** Everything that can cost a key: revocations, failed cache writes, crashes, and creations whose reply is lost. */
  datatype Mishaps = Mishaps(revocations: nat, failedWrites: nat, crashes: nat, lostReplies: nat) {
    function Total(): nat {
      revocations + failedWrites + crashes + lostReplies
    }
  }

  datatype State = State(
    pc: map<Caller, Pc>,
    threadLock: map<nat, Caller>,   // process -> the thread holding its lock
    fileLock: Option<Caller>,
    since: nat,                     // mishaps when the file lock was last taken
    cache: Option<Key>,             // the key in the cache file
    live: set<Key>,                 // the keys the server lists
    minted: nat,                    // keys created so far; the next one gets this number
    mishaps: Mishaps,
    handed: set<Handed>)

  const INITIAL := State(map[], map[], None, 0, None, {}, 0, Mishaps(0, 0, 0, 0), {})

  /** How a request or a file access goes. A creation may take effect although its reply never arrives. */
  datatype How = Works | Fails | Lost

  datatype Action = Call(caller: Caller) | Move(caller: Caller, how: How) | Crash(process: nat) | Revoke(key: Key)

  // ---- one step ----

  predicate HoldsThread(pc: Pc) {
    !pc.WantThread? && !pc.Done? && !pc.Killed?
  }

  predicate HoldsFile(pc: Pc) {
    HoldsThread(pc) && !pc.WantFile? && !pc.LeaveThread?
  }

  predicate Enabled(s: State, a: Action) {
    match a
    case Call(c) => c !in s.pc
    case Crash(p) => true
    case Revoke(k) => k in s.live
    case Move(c, how) =>
      && c in s.pc
      && match s.pc[c] {
           case WantThread => how == Works && c.process !in s.threadLock
           case WantFile => how == Fails || (how == Works && s.fileLock.None?)
           case Login => how != Lost
           case Read => how == Works
           case Listing(_) => how != Lost
           case Create => true
           case Write(_) => how != Lost
           case LeaveFile(_) => how == Works
           case LeaveThread(_) => how == Works
           case Done(_) => false
           case Killed => false
         }
  }

  function Goto(s: State, c: Caller, pc: Pc): State {
    s.(pc := s.pc[c := pc])
  }

  /** The caller has its key; what is left is to release the locks. */
  function Hand(s: State, c: Caller, key: Key): State {
    Goto(s, c, LeaveFile(Some(key))).(handed := s.handed + {Handed(c, key, s.since, s.mishaps.Total())})
  }

  /** The server creates a key and lists it. */
  function Mint(s: State): State {
    s.(live := s.live + {s.minted}, minted := s.minted + 1)
  }

  function MoveOf(s: State, c: Caller, how: How): State
    requires Enabled(s, Move(c, how))
  {
    match s.pc[c]
    case WantThread => Goto(s, c, WantFile).(threadLock := s.threadLock[c.process := c])
    case WantFile =>
      if how == Fails then Goto(s, c, LeaveThread(None))
      else Goto(s, c, Login).(fileLock := Some(c), since := s.mishaps.Total())
    case Login => Goto(s, c, if how == Works then Read else LeaveFile(None))
    case Read => Goto(s, c, if s.cache.Some? then Listing(s.cache.value) else Create)
    case Listing(k) =>
      if how == Fails then Goto(s, c, LeaveFile(None))
      else if k in s.live then Hand(s, c, k)
      else Goto(s, c, Create)
    case Create =>
      (match how
       case Works => Goto(Mint(s), c, Write(s.minted))
       case Fails => Goto(s, c, LeaveFile(None))
       case Lost => Goto(Mint(s), c, LeaveFile(None)).(mishaps := s.mishaps.(lostReplies := s.mishaps.lostReplies + 1)))
    case Write(k) =>
      if how == Works then Hand(s.(cache := Some(k)), c, k)
      else Goto(s, c, LeaveFile(None)).(mishaps := s.mishaps.(failedWrites := s.mishaps.failedWrites + 1))
    case LeaveFile(out) => Goto(s, c, LeaveThread(out)).(fileLock := None)
    case LeaveThread(out) => Goto(s, c, Done(out)).(threadLock := s.threadLock - {c.process})
  }

  /** The whole process dies: its threads are gone, and the system releases its locks. */
  function CrashOf(s: State, p: nat): State {
    s.(pc := map c | c in s.pc :: if c.process == p && !s.pc[c].Done? then Killed else s.pc[c],
       threadLock := s.threadLock - {p},
       fileLock := if s.fileLock.Some? && s.fileLock.value.process == p then None else s.fileLock,
       mishaps := s.mishaps.(crashes := s.mishaps.crashes + 1))
  }

  function Apply(s: State, a: Action): State
    requires Enabled(s, a)
  {
    match a
    case Call(c) => Goto(s, c, WantThread)
    case Move(c, how) => MoveOf(s, c, how)
    case Crash(p) => CrashOf(s, p)
    case Revoke(k) => s.(live := s.live - {k}, mishaps := s.mishaps.(revocations := s.mishaps.revocations + 1))
  }

  // ---- runs ----

  predicate Runs(s: State, actions: seq<Action>)
    decreases |actions|
  {
    actions == [] || (Enabled(s, actions[0]) && Runs(Apply(s, actions[0]), actions[1..]))
  }

  function After(s: State, actions: seq<Action>): State
    requires Runs(s, actions)
    decreases |actions|
  {
    if actions == [] then s else After(Apply(s, actions[0]), actions[1..])
  }

  // ---- the invariant ----

  predicate CacheLive(s: State) {
    s.cache.Some? && s.cache.value in s.live
  }

  /** The locks belong to exactly the callers whose program says so. */
  predicate LocksAgree(s: State) {
    && (forall p | p in s.threadLock ::
          s.threadLock[p].process == p && s.threadLock[p] in s.pc && HoldsThread(s.pc[s.threadLock[p]]))
    && (forall c | c in s.pc && HoldsThread(s.pc[c]) :: c.process in s.threadLock && s.threadLock[c.process] == c)
    && (s.fileLock.Some? ==> s.fileLock.value in s.pc && HoldsFile(s.pc[s.fileLock.value]))
    && (forall c | c in s.pc && HoldsFile(s.pc[c]) :: s.fileLock == Some(c))
  }

  /** Whether a key that nobody has lost is still on its way or in use: the one key beyond the mishaps. */
  predicate InUse(s: State) {
    if s.fileLock.Some? && s.fileLock.value in s.pc then
      match s.pc[s.fileLock.value]
      case Create => false
      case Write(k) => k in s.live
      case _ => CacheLive(s)
    else CacheLive(s)
  }

  /** What the holder of the file lock knows. */
  predicate HolderKnows(s: State) {
    s.fileLock.Some? && s.fileLock.value in s.pc ==>
      match s.pc[s.fileLock.value]
      case Listing(k) => s.cache == Some(k)
      case Create => !CacheLive(s)
      case Write(k) => !CacheLive(s) && k < s.minted
      case _ => true
  }

  /** Keys handed out without a mishap since are the cached one, and it works. */
  predicate HandedAgree(s: State) {
    && s.since <= s.mishaps.Total()
    && (forall h | h in s.handed :: h.since <= h.at <= s.mishaps.Total() && h.key < s.minted)
    && (forall h | h in s.handed && h.since == s.mishaps.Total() :: s.cache == Some(h.key) && h.key in s.live)
    && (forall g, h | g in s.handed && h in s.handed && g.since == g.at == h.since == h.at :: g.key == h.key)
  }

  function Outcome(pc: Pc): Option<Key> {
    match pc
    case LeaveFile(out) => out
    case LeaveThread(out) => out
    case Done(out) => out
    case _ => None
  }

  /** Every key a caller leaves with was handed to it, and what was handed to a caller it leaves with, or it dies. */
  predicate Recorded(s: State) {
    && (forall c | c in s.pc && Outcome(s.pc[c]).Some? ::
          exists h | h in s.handed :: h.caller == c && h.key == Outcome(s.pc[c]).value)
    && (forall h | h in s.handed :: Keeps(s, h.caller, h.key))
  }

  /** The caller is dead, or on its way out with this key. */
  predicate Keeps(s: State, c: Caller, key: Key) {
    c in s.pc && (s.pc[c] == Killed || s.pc[c] in {LeaveFile(Some(key)), LeaveThread(Some(key)), Done(Some(key))})
  }

  predicate Inv(s: State) {
    && LocksAgree(s)
    && Recorded(s)
    && (forall k | k in s.live :: k < s.minted)
    && (s.cache.Some? ==> s.cache.value < s.minted)
    && HolderKnows(s)
    && s.minted <= s.mishaps.Total() + (if InUse(s) then 1 else 0)
    && HandedAgree(s)
    && (s.fileLock.Some? && s.fileLock.value in s.pc && s.pc[s.fileLock.value].Write?
        && s.since == s.mishaps.Total() ==>
          s.pc[s.fileLock.value].key in s.live)
  }

  // ---- every step keeps it ----

  lemma GotoKeepsLocks(s: State, c: Caller, pc: Pc)
    requires LocksAgree(s) && c in s.pc
    requires HoldsThread(s.pc[c]) == HoldsThread(pc) && HoldsFile(s.pc[c]) == HoldsFile(pc)
    ensures LocksAgree(Goto(s, c, pc))
  {
  }

  lemma MoveKeepsLocks(s: State, c: Caller, how: How)
    requires LocksAgree(s) && Enabled(s, Move(c, how))
    ensures LocksAgree(MoveOf(s, c, how))
  {
    if s.pc[c].WantThread? {
      ThreadLockTaken(s, c);
    } else if s.pc[c].LeaveThread? {
      ThreadLockReleased(s, c, s.pc[c].out);
    } else if HoldsFile(s.pc[c]) && !s.pc[c].LeaveFile? {
      GotoKeepsLocks(s, c, MoveOf(s, c, how).pc[c]);
    }
  }

  lemma ThreadLockTaken(s: State, c: Caller)
    requires LocksAgree(s) && c in s.pc && s.pc[c].WantThread? && c.process !in s.threadLock
    ensures LocksAgree(Goto(s, c, WantFile).(threadLock := s.threadLock[c.process := c]))
  {
  }

  lemma ThreadLockReleased(s: State, c: Caller, out: Option<Key>)
    requires LocksAgree(s) && c in s.pc && s.pc[c].LeaveThread?
    ensures LocksAgree(Goto(s, c, Done(out)).(threadLock := s.threadLock - {c.process}))
  {
  }

  lemma CrashKeepsLocks(s: State, p: nat)
    requires LocksAgree(s)
    ensures LocksAgree(CrashOf(s, p))
  {
  }

  lemma MoveKeepsRecords(s: State, c: Caller, how: How)
    requires Recorded(s) && Enabled(s, Move(c, how))
    ensures Recorded(MoveOf(s, c, how))
  {
    var t := MoveOf(s, c, how);
    forall x | x in t.pc && Outcome(t.pc[x]).Some?
      ensures exists h | h in t.handed :: h.caller == x && h.key == Outcome(t.pc[x]).value
    {
      if x == c && Outcome(s.pc[c]).None? {
        var key := Outcome(t.pc[c]).value;
        assert Handed(c, key, s.since, s.mishaps.Total()) in t.handed;
      } else {
        var h :| h in s.handed && h.caller == x && h.key == Outcome(s.pc[x]).value;
        assert h in t.handed;
      }
    }
    forall h | h in t.handed ensures Keeps(t, h.caller, h.key) {
      if h in s.handed {
        assert Keeps(s, h.caller, h.key);
      }
    }
  }

  lemma HolderIs(s: State, c: Caller)
    requires LocksAgree(s) && c in s.pc
    ensures s.fileLock == Some(c) <==> HoldsFile(s.pc[c])
  {
  }

  /** Outside the file lock nothing but the locks and the program counters changes. */
  lemma OutsideKeeps(s: State, c: Caller, how: How)
    requires Inv(s) && Enabled(s, Move(c, how)) && (!HoldsFile(s.pc[c]) || s.pc[c].LeaveFile?)
    ensures Inv(MoveOf(s, c, how))
  {
    hide LocksAgree, Recorded;
    MoveKeepsLocks(s, c, how);
    MoveKeepsRecords(s, c, how);
    HolderIs(s, c);
  }

  lemma InsideKeeps(s: State, c: Caller, how: How)
    requires Inv(s) && Enabled(s, Move(c, how)) && HoldsFile(s.pc[c]) && !s.pc[c].LeaveFile?
    ensures Inv(MoveOf(s, c, how))
  {
    hide LocksAgree, Recorded;
    MoveKeepsLocks(s, c, how);
    MoveKeepsRecords(s, c, how);
    HolderIs(s, c);
  }

  lemma CrashKeeps(s: State, p: nat)
    requires Inv(s)
    ensures Inv(CrashOf(s, p))
  {
    CrashKeepsLocks(s, p);
    var t := CrashOf(s, p);
    forall x | x in t.pc && Outcome(t.pc[x]).Some?
      ensures exists h | h in t.handed :: h.caller == x && h.key == Outcome(t.pc[x]).value
    {
      assert t.pc[x] == s.pc[x];
    }
    forall h | h in t.handed ensures Keeps(t, h.caller, h.key) {
      assert Keeps(s, h.caller, h.key);
    }
    hide LocksAgree;
  }

  lemma StepKeeps(s: State, a: Action)
    requires Inv(s) && Enabled(s, a)
    ensures Inv(Apply(s, a))
  {
    match a
    case Call(c) =>
    case Move(c, how) =>
      if HoldsFile(s.pc[c]) && !s.pc[c].LeaveFile? {
        InsideKeeps(s, c, how);
      } else {
        OutsideKeeps(s, c, how);
      }
    case Crash(p) => CrashKeeps(s, p);
    case Revoke(k) =>
  }

  lemma {:induction false} RunKeeps(s: State, actions: seq<Action>)
    requires Inv(s) && Runs(s, actions)
    ensures Inv(After(s, actions))
    decreases |actions|
  {
    if actions != [] {
      StepKeeps(s, actions[0]);
      RunKeeps(Apply(s, actions[0]), actions[1..]);
    }
  }

  lemma InitialKeeps(actions: seq<Action>)
    requires Runs(INITIAL, actions)
    ensures Inv(After(INITIAL, actions))
  {
    RunKeeps(INITIAL, actions);
  }

  // ---- what callers and the server see ----

  /** Some run from the empty cache and the empty server ends in this state. */
  ghost predicate Reachable(s: State) {
    exists actions :: Runs(INITIAL, actions) && After(INITIAL, actions) == s
  }

  lemma ReachableKeeps(s: State)
    requires Reachable(s)
    ensures Inv(s)
  {
    var actions :| Runs(INITIAL, actions) && After(INITIAL, actions) == s;
    InitialKeeps(actions);
  }

  /** Whatever happens, at most one key is created beyond the mishaps. */
  lemma MintBound(s: State)
    requires Reachable(s)
    ensures s.minted <= 1 + s.mishaps.Total()
  {
    ReachableKeeps(s);
  }

  /** Two calls that saw no mishap between taking the file lock and getting their keys, nor between each other. */
  lemma SameKey(s: State, g: Handed, h: Handed)
    requires Reachable(s) && {g, h} <= s.handed
    requires g.since == g.at == h.since == h.at
    ensures g.key == h.key
  {
    ReachableKeeps(s);
  }

  /** What was handed to a caller is what it leaves with, unless it dies; and the server created it. */
  lemma HandedIsKept(s: State, h: Handed)
    requires Reachable(s) && h in s.handed
    ensures h.caller in s.pc && h.key < s.minted
    ensures s.pc[h.caller] in {Killed, LeaveFile(Some(h.key)), LeaveThread(Some(h.key)), Done(Some(h.key))}
  {
    ReachableKeeps(s);
    assert Keeps(s, h.caller, h.key);
  }

  /** All steps of the call went well. */
  predicate GoesWell(actions: seq<Action>, c: Caller) {
    forall a | a in actions && a.Move? && a.caller == c :: a.how == Works
  }

  predicate Failed(pc: Pc) {
    pc in {LeaveFile(None), LeaveThread(None), Done(None)}
  }

  lemma {:induction false} WellEndsWell(s: State, actions: seq<Action>, c: Caller)
    requires Runs(s, actions)
    ensures var e := After(s, actions);
            c in e.pc && e.pc[c].Done? ==>
              (e.pc[c].out.Some? <==> GoesWell(actions, c) && !(c in s.pc && Failed(s.pc[c])))
    decreases |actions|
  {
    if actions != [] {
      var a, t := actions[0], Apply(s, actions[0]);
      WellEndsWell(t, actions[1..], c);
      assert actions == [a] + actions[1..];
      assert GoesWell(actions, c) <==> (a.Move? && a.caller == c ==> a.how == Works) && GoesWell(actions[1..], c);
      if c in t.pc && t.pc[c] == Killed {
        DeadStays(t, actions[1..], c);
      }
    }
  }

  lemma {:induction false} DeadStays(s: State, actions: seq<Action>, c: Caller)
    requires Runs(s, actions) && c in s.pc && s.pc[c] == Killed
    ensures c in After(s, actions).pc && After(s, actions).pc[c] == Killed
    decreases |actions|
  {
    if actions != [] {
      DeadStays(Apply(s, actions[0]), actions[1..], c);
    }
  }

  /** A call that has ended has a key exactly when all its steps went well; the server created that key. */
  lemma WellMeansKey(actions: seq<Action>, c: Caller)
    requires Runs(INITIAL, actions) && c in After(INITIAL, actions).pc && After(INITIAL, actions).pc[c].Done?
    ensures var s := After(INITIAL, actions);
            && (s.pc[c].out.Some? <==> GoesWell(actions, c))
            && (s.pc[c].out.Some? ==>
                  exists h :: h in s.handed && h.caller == c && h.key == s.pc[c].out.value < s.minted)
  {
    hide Runs, After, Inv;
    WellEndsWell(INITIAL, actions, c);
    InitialKeeps(actions);
    if After(INITIAL, actions).pc[c].out.Some? {
      LeavesWithKey(After(INITIAL, actions), c);
    }
  }

  lemma LeavesWithKey(s: State, c: Caller)
    requires Inv(s) && c in s.pc && Outcome(s.pc[c]).Some?
    ensures exists h :: h in s.handed && h.caller == c && h.key == Outcome(s.pc[c]).value < s.minted
  {
    hide LocksAgree, HolderKnows, InUse, Keeps;
    var h :| h in s.handed && h.caller == c && h.key == Outcome(s.pc[c]).value;
    assert h.key < s.minted;
  }

  /** How many steps the call has taken. */
  function Moved(actions: seq<Action>, c: Caller): nat {
    if actions == [] then 0 else Moved(actions[1..], c) + if actions[0].Move? && actions[0].caller == c then 1 else 0
  }

  lemma {:induction false} StepsRunOut(s: State, actions: seq<Action>, c: Caller)
    requires Runs(s, actions) && c in s.pc
    requires forall a | a in actions && a.Crash? :: a.process != c.process
    ensures var e := After(s, actions);
            && c in e.pc && StepsLeft(e.pc[c]) + Moved(actions, c) <= StepsLeft(s.pc[c])
            && (e.pc[c] == Killed ==> s.pc[c] == Killed)
    decreases |actions|
  {
    if actions != [] {
      StepsRunOut(Apply(s, actions[0]), actions[1..], c);
    }
  }

  /**
   * In a process that does not die a call ends after at most nine steps of its own, with a key if all of them go well.
   */
  lemma CallEndsWithKey(before: seq<Action>, actions: seq<Action>, c: Caller)
    requires Runs(INITIAL, before) && c in After(INITIAL, before).pc && After(INITIAL, before).pc[c] == WantThread
    requires Runs(After(INITIAL, before), actions) && Moved(actions, c) >= 9
    requires forall a | a in actions && a.Crash? :: a.process != c.process
    ensures var s := After(After(INITIAL, before), actions);
            c in s.pc && s.pc[c].Done?
            && (s.pc[c].out.Some? <==> GoesWell(actions, c)) && (s.pc[c].out.Some? ==> s.pc[c].out.value < s.minted)
  {
    hide Runs, After, Inv;
    var start := After(INITIAL, before);
    StepsRunOut(start, actions, c);
    WellEndsWell(start, actions, c);
    InitialKeeps(before);
    RunKeeps(start, actions);
    if After(start, actions).pc[c].out.Some? {
      LeavesWithKey(After(start, actions), c);
    }
  }

  lemma OnlyKey(s: State)
    requires Inv(s) && s.mishaps.Total() == 0
    ensures s.minted <= 1
  {
  }

  /** Without any mishap all calls that end without a failed step of their own get one key, the only one there is. */
  lemma ColdCacheOneKey(actions: seq<Action>, a: Caller, b: Caller)
    requires Runs(INITIAL, actions) && After(INITIAL, actions).mishaps.Total() == 0
    requires var s := After(INITIAL, actions);
             && a in s.pc && s.pc[a].Done? && GoesWell(actions, a)
             && b in s.pc && s.pc[b].Done? && GoesWell(actions, b)
    ensures var s := After(INITIAL, actions); s.pc[a] == s.pc[b] == Done(Some(0)) && s.minted == 1
  {
    hide Runs, After, Inv;
    WellMeansKey(actions, a);
    WellMeansKey(actions, b);
    InitialKeeps(actions);
    OnlyKey(After(INITIAL, actions));
  }

  /** One caller at a time reads, creates and replaces. */
  lemma OneAtATime(s: State, a: Caller, b: Caller)
    requires Reachable(s) && a in s.pc && b in s.pc && HoldsFile(s.pc[a]) && HoldsFile(s.pc[b])
    ensures a == b
  {
    ReachableKeeps(s);
  }

  /** The two locks cannot deadlock: as long as some call is under way, some call can take its next step. */
  lemma NoDeadlock(s: State, c: Caller)
    requires Reachable(s) && c in s.pc && !s.pc[c].Done? && !s.pc[c].Killed?
    ensures exists x :: Enabled(s, Move(x, Works))
  {
    ReachableKeeps(s);
    var x :=
      if s.fileLock.Some? then s.fileLock.value
      else if c.process in s.threadLock then s.threadLock[c.process]
      else c;
    assert Enabled(s, Move(x, Works));
  }

  /** How many steps a call has left at most. */
  function StepsLeft(pc: Pc): nat {
    match pc
    case WantThread => 10
    case WantFile => 9
    case Login => 8
    case Read => 7
    case Listing(_) => 6
    case Create => 5
    case Write(_) => 4
    case LeaveFile(_) => 3
    case LeaveThread(_) => 2
    case Done(_) => 0
    case Killed => 0
  }

  /** Every step of a call brings it closer to its end and leaves all other calls where they are. */
  lemma MoveProgresses(s: State, c: Caller, how: How)
    requires Enabled(s, Move(c, how))
    ensures StepsLeft(MoveOf(s, c, how).pc[c]) < StepsLeft(s.pc[c])
    ensures forall x | x in s.pc && x != c :: MoveOf(s, c, how).pc[x] == s.pc[x]
  {
  }

  // ---- every mishap costs a key ----

  lemma {:induction false} Extend(s: State, actions: seq<Action>, a: Action)
    requires Runs(s, actions) && Enabled(After(s, actions), a)
    ensures Runs(s, actions + [a]) && After(s, actions + [a]) == Apply(After(s, actions), a)
    decreases |actions|
  {
    if actions == [] {
      assert actions + [a] == [a] && [a][1..] == [];
    } else {
      Extend(Apply(s, actions[0]), actions[1..], a);
      assert (actions + [a])[1..] == actions[1..] + [a];
    }
  }

  lemma Along(actions: seq<Action>, a: Action) returns (more: seq<Action>)
    requires Runs(INITIAL, actions) && Enabled(After(INITIAL, actions), a)
    ensures Runs(INITIAL, more) && After(INITIAL, more) == Apply(After(INITIAL, actions), a)
  {
    more := actions + [a];
    Extend(INITIAL, actions, a);
  }

  /** A caller that has the locks to itself and finds no key that works gets as far as creating one. */
  lemma Walk(actions: seq<Action>, c: Caller) returns (more: seq<Action>)
    requires Runs(INITIAL, actions)
    requires var s := After(INITIAL, actions);
             c in s.pc && s.pc[c] == WantThread && s.threadLock == map[] && s.fileLock.None? && !CacheLive(s)
    ensures Runs(INITIAL, more)
    ensures var s := After(INITIAL, actions);
            After(INITIAL, more) == Goto(s, c, Create).(threadLock := map[c.process := c], fileLock := Some(c),
                                                        since := s.mishaps.Total())
  {
    hide Runs, After;
    var s := After(INITIAL, actions);
    more := Along(actions, Move(c, Works));
    more := Along(more, Move(c, Works));
    more := Along(more, Move(c, Works));
    more := Along(more, Move(c, Works));
    if s.cache.Some? {
      more := Along(more, Move(c, Works));
    }
    var t := After(INITIAL, more);
    assert t.pc == s.pc[c := Create] && t.threadLock == map[c.process := c];
  }

  datatype Mishap = Revocation | FailedWrite | ProcessDeath | LostReply

  function MishapsOf(kind: Mishap, n: nat): Mishaps {
    match kind
    case Revocation => Mishaps(n, 0, 0, 0)
    case FailedWrite => Mishaps(0, n, 0, 0)
    case ProcessDeath => Mishaps(0, 0, n, 0)
    case LostReply => Mishaps(0, 0, 0, n)
  }

  /** The first `n` callers have come and gone, each with a key created and then lost in this way. */
  ghost predicate Spent(s: State, kind: Mishap, n: nat) {
    && s.threadLock == map[] && s.fileLock.None? && !CacheLive(s)
    && s.minted == n && s.mishaps == MishapsOf(kind, n) && (s.cache.Some? ==> s.cache.value < n)
    && forall c | c in s.pc :: c.process < n
  }

  /** A caller with the locks to itself that is about to create a key. */
  ghost predicate AboutToCreate(s: State, c: Caller) {
    && c in s.pc && s.pc[c] == Create && s.threadLock == map[c.process := c] && s.fileLock == Some(c)
    && !CacheLive(s) && (s.cache.Some? ==> s.cache.value < s.minted)
    && forall x | x in s.pc :: x.process <= c.process
  }

  /** The reply to the creation is lost. */
  lemma LosesReply(actions: seq<Action>, n: nat) returns (more: seq<Action>)
    requires Runs(INITIAL, actions) && AboutToCreate(After(INITIAL, actions), Caller(n, 0))
    requires After(INITIAL, actions).minted == n && After(INITIAL, actions).mishaps == MishapsOf(LostReply, n)
    ensures Runs(INITIAL, more) && Spent(After(INITIAL, more), LostReply, n + 1)
  {
    hide Runs, After;
    var c := Caller(n, 0);
    more := Along(actions, Move(c, Lost));
    more := Along(more, Move(c, Works));
    more := Along(more, Move(c, Works));
    assert After(INITIAL, more).threadLock == map[];
  }

  /** The process dies with the key in hand. */
  lemma Dies(actions: seq<Action>, n: nat) returns (more: seq<Action>)
    requires Runs(INITIAL, actions) && AboutToCreate(After(INITIAL, actions), Caller(n, 0))
    requires After(INITIAL, actions).minted == n && After(INITIAL, actions).mishaps == MishapsOf(ProcessDeath, n)
    ensures Runs(INITIAL, more) && Spent(After(INITIAL, more), ProcessDeath, n + 1)
  {
    hide Runs, After;
    var c := Caller(n, 0);
    more := Along(actions, Move(c, Works));
    more := Along(more, Crash(n));
    assert After(INITIAL, more).threadLock == map[];
  }

  /** The cache file cannot be written. */
  lemma FailsToWrite(actions: seq<Action>, n: nat) returns (more: seq<Action>)
    requires Runs(INITIAL, actions) && AboutToCreate(After(INITIAL, actions), Caller(n, 0))
    requires After(INITIAL, actions).minted == n && After(INITIAL, actions).mishaps == MishapsOf(FailedWrite, n)
    ensures Runs(INITIAL, more) && Spent(After(INITIAL, more), FailedWrite, n + 1)
  {
    hide Runs, After;
    var c := Caller(n, 0);
    more := Along(actions, Move(c, Works));
    more := Along(more, Move(c, Fails));
    more := Along(more, Move(c, Works));
    more := Along(more, Move(c, Works));
    assert After(INITIAL, more).threadLock == map[];
  }

  /** The key is handed out and cached, and then revoked. */
  lemma IsRevoked(actions: seq<Action>, n: nat) returns (more: seq<Action>)
    requires Runs(INITIAL, actions) && AboutToCreate(After(INITIAL, actions), Caller(n, 0))
    requires After(INITIAL, actions).minted == n && After(INITIAL, actions).mishaps == MishapsOf(Revocation, n)
    ensures Runs(INITIAL, more) && Spent(After(INITIAL, more), Revocation, n + 1)
  {
    hide Runs, After;
    var c := Caller(n, 0);
    more := Along(actions, Move(c, Works));
    more := Along(more, Move(c, Works));
    more := Along(more, Move(c, Works));
    more := Along(more, Move(c, Works));
    more := Along(more, Revoke(n));
    assert After(INITIAL, more).threadLock == map[];
  }

  lemma Loses(actions: seq<Action>, kind: Mishap, n: nat) returns (more: seq<Action>)
    requires Runs(INITIAL, actions) && AboutToCreate(After(INITIAL, actions), Caller(n, 0))
    requires After(INITIAL, actions).minted == n && After(INITIAL, actions).mishaps == MishapsOf(kind, n)
    ensures Runs(INITIAL, more) && Spent(After(INITIAL, more), kind, n + 1)
  {
    hide Runs, After, AboutToCreate, Spent;
    match kind
    case LostReply => more := LosesReply(actions, n);
    case ProcessDeath => more := Dies(actions, n);
    case FailedWrite => more := FailsToWrite(actions, n);
    case Revocation => more := IsRevoked(actions, n);
  }

  lemma Arrives(actions: seq<Action>, kind: Mishap, n: nat) returns (more: seq<Action>)
    requires Runs(INITIAL, actions) && Spent(After(INITIAL, actions), kind, n)
    ensures Runs(INITIAL, more) && AboutToCreate(After(INITIAL, more), Caller(n, 0))
    ensures After(INITIAL, more).minted == n && After(INITIAL, more).mishaps == MishapsOf(kind, n)
  {
    hide Runs, After;
    more := Along(actions, Call(Caller(n, 0)));
    more := Walk(more, Caller(n, 0));
  }

  lemma {:induction false} LosesMany(kind: Mishap, n: nat) returns (actions: seq<Action>)
    ensures Runs(INITIAL, actions) && Spent(After(INITIAL, actions), kind, n)
  {
    actions := [];
    if n > 0 {
      hide Spent, AboutToCreate, Runs, After;
      actions := LosesMany(kind, n - 1);
      actions := Arrives(actions, kind, n - 1);
      actions := Loses(actions, kind, n - 1);
    }
  }

  /**
   * The bound is met for each of the four kinds of mishap and any number of them: after `n` of one kind and no other,
   * one more caller makes it n + 1 keys. In particular, a lost reply costs a key although nobody revoked one, no write
   * failed and nothing crashed.
   */
  lemma EveryMishapMints(kind: Mishap, n: nat) returns (s: State)
    ensures Reachable(s) && s.minted == n + 1 && s.mishaps == MishapsOf(kind, n)
  {
    hide Runs, After, Spent;
    var actions := LosesMany(kind, n);
    actions := Arrives(actions, kind, n);
    actions := Along(actions, Move(Caller(n, 0), Works));
    s := After(INITIAL, actions);
  }
}
