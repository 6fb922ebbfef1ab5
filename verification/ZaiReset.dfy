/**
 * Redeeming a weekly reset card: at most once per connection and weekly window, although replies get lost, the program
 * dies before it has noted the redemption, and the note itself disappears.
 */
module ZaiReset {
  import opened Numbers
  import opened Wrappers

  // ---- when ----

  const THRESHOLD_PERCENT := 99.0

  /** The used percentage, rounded to one decimal. */
  function Percent(used: real, total: real): real
    requires total > 0.0
  {
    Round(100.0 * used / total * 10.0) as real / 10.0
  }

  predicate BelowThreshold(used: real, total: real)
    requires total > 0.0
  {
    Percent(used, total) < THRESHOLD_PERCENT
  }

  /** The documented threshold of 99 percent is, because of the rounding, one of 98.95 percent. */
  lemma ThresholdIsLower(used: real, total: real)
    requires total > 0.0
    ensures !BelowThreshold(used, total) <==> 98.95 <= 100.0 * used / total
  {
    var tenths := 100.0 * used / total * 10.0;
    assert !BelowThreshold(used, total) <==> Round(tenths) >= 990;
    assert tenths.Floor as real <= tenths < tenths.Floor as real + 1.0;
  }

  // ---- which card ----

  datatype Card = Card(resetType: string, token: string, expires: nat)

  predicate Usable(card: Card) {
    card.resetType == "WEEK" && card.token != ""
  }

  /** A weekly card that can be selected. */
  predicate Weekly(card: Card) {
    card.resetType == "WEEK" && |card.token| > 0
  }

  /** The weekly card at `i` expires first, and of several that do it is the first one listed. */
  predicate ExpiresFirst(cards: seq<Card>, i: nat) {
    && i < |cards| && Weekly(cards[i])
    && (forall j | 0 <= j < i && Weekly(cards[j]) :: cards[i].expires < cards[j].expires)
    && (forall j | i < j < |cards| && Weekly(cards[j]) :: cards[i].expires <= cards[j].expires)
  }

  /** The usable card that expires first; of several the first one listed. */
  method WeekCard(cards: seq<Card>) returns (r: Option<Card>)
    ensures r.None? <==> forall c | c in cards :: !Weekly(c)
    ensures r.Some? ==> exists i: nat :: ExpiresFirst(cards, i) && cards[i] == r.value
  {
    assert forall c :: Usable(c) <==> Weekly(c);
    var best: Option<nat> := None;
    for i := 0 to |cards|
      invariant best.None? <==> forall j | 0 <= j < i :: !Usable(cards[j])
      invariant best.Some? ==>
                  && best.value < i && Usable(cards[best.value])
                  && (forall j | 0 <= j < best.value && Usable(cards[j]) ::
                        cards[best.value].expires < cards[j].expires)
                  && (forall j | best.value < j < i && Usable(cards[j]) ::
                        cards[best.value].expires <= cards[j].expires)
    {
      if Usable(cards[i]) && (best.None? || cards[i].expires < cards[best.value].expires) {
        best := Some(i);
      }
    }
    return if best.Some? then Some(cards[best.value]) else None;
  }

  // ---- how often ----

  /** A weekly window, named by its reset time, so that windows are ordered; 0 when the server does not say. */
  type Window = nat

  datatype Key = Key(connection: string, window: Window)

  /** Whether the server honours the idempotency key of a request, and how it writes reset times. */
  datatype Server = Server(idempotent: bool, at: Window -> string)

  /** Different windows are written differently. */
  ghost predicate Tells(at: Window -> string) {
    forall v, w :: at(v) == at(w) ==> v == w
  }

  const PREFIX := "llm-env-zai-reset:"

  /** The idempotency key of a request. */
  function Text(at: Window -> string, key: Key): string {
    PREFIX + key.connection + ":" + at(key.window)
  }

  /**
   * The program's notes in memory and on disk, the redemptions the server accepted, and the cards it spent. Mishaps are
   * accepted redemptions that the program did not get to note.
   */
  datatype State = State(
    running: bool,
    memory: map<string, Window>,
    disk: map<string, Window>,
    seen: map<string, Window>,    // the latest window observed for each connection
    accepted: map<Key, nat>,
    spent: map<Key, nat>,
    honoured: set<string>,        // the idempotency keys of all accepted requests
    mishaps: map<Key, nat>,
    blanks: map<string, nat>,     // redemptions noted for a connection without a window, over its earlier note
    losses: nat)                  // how often the notes on disk were lost

  const INITIAL := State(false, map[], map[], map[], map[], map[], {}, map[], map[], 0)

  /** What becomes of a redemption request. */
  datatype How = Noted | NotAccepted | ReplyLost | Died

  /** What a check of one connection finds: the quota is (nearly) used up, there is a card, and it is no dry run. */
  datatype Find = Find(used: bool, card: bool, dry: bool)

  datatype Action = Begin | Check(key: Key, find: Find, how: How) | LoseNotes

  predicate Enabled(s: State, a: Action) {
    a.Check? ==> s.running && (a.key.window == 0 || Of(s.seen, a.key.connection) <= a.key.window)
  }

  function Of<K>(m: map<K, nat>, k: K): nat {
    if k in m then m[k] else 0
  }

  function Bump<K>(m: map<K, nat>, k: K): map<K, nat> {
    m[k := Of(m, k) + 1]
  }

  predicate Redeems(s: State, key: Key, find: Find) {
    find.used && find.card && !find.dry && !(key.window != 0 && Of(s.memory, key.connection) == key.window)
  }

  /** The cards spent once the server has accepted a request: if it honours the text, none for one it has seen. */
  function Spend(spent: map<Key, nat>, honoured: set<string>, key: Key, server: Server): map<Key, nat> {
    if server.idempotent && Text(server.at, key) in honoured then spent else Bump(spent, key)
  }

  function Checked(s: State, key: Key, find: Find, how: How, server: Server): State {
    var seen := if key.window == 0 then s.seen else s.seen[key.connection := key.window];
    if !Redeems(s, key, find) || how == NotAccepted then s.(seen := seen)
    else
      var accepted, spent := Bump(s.accepted, key), Spend(s.spent, s.honoured, key, server);
      var honoured := s.honoured + {Text(server.at, key)};
      if how == Noted then
        var notes := s.memory[key.connection := key.window];
        var blanks := if key.window == 0 then Bump(s.blanks, key.connection) else s.blanks;
        State(s.running, notes, notes, seen, accepted, spent, honoured, s.mishaps, blanks, s.losses)
      else
        State(s.running && how == ReplyLost, s.memory, s.disk, seen, accepted, spent, honoured, Bump(s.mishaps, key),
              s.blanks, s.losses)
  }

  function Apply(s: State, a: Action, server: Server): State
    requires Enabled(s, a)
  {
    match a
    case Begin => s.(running := true, memory := s.disk)
    case Check(key, find, how) => Checked(s, key, find, how, server)
    case LoseNotes => s.(disk := map[], losses := s.losses + 1)
  }

  predicate Runs(s: State, actions: seq<Action>, server: Server)
    decreases |actions|
  {
    actions == [] || (Enabled(s, actions[0]) && Runs(Apply(s, actions[0], server), actions[1..], server))
  }

  function After(s: State, actions: seq<Action>, server: Server): State
    requires Runs(s, actions, server)
    decreases |actions|
  {
    if actions == [] then s else After(Apply(s, actions[0], server), actions[1..], server)
  }

  /** The notes say that this window, or a later one, has been dealt with. */
  predicate Marks(notes: map<string, Window>, key: Key) {
    key.window <= Of(notes, key.connection)
  }

  /** Redemptions of this window that its note does not account for. */
  function Excuses(s: State, key: Key): nat {
    Of(s.mishaps, key) + Of(s.blanks, key.connection) + s.losses
  }

  predicate KeyInv(s: State, key: Key) {
    && (key.window > 0 ==>
          && Of(s.accepted, key) <= Excuses(s, key) + (if Marks(s.memory, key) then 1 else 0)
          && Of(s.accepted, key) <= Excuses(s, key) + (if Marks(s.disk, key) then 1 else 0))
    && Of(s.spent, key) <= Of(s.accepted, key)
  }

  ghost predicate Inv(s: State) {
    && (forall key :: KeyInv(s, key))
    && (s.running ==> s.disk == s.memory || s.disk == map[])
    && (forall c :: Of(s.memory, c) <= Of(s.seen, c) && Of(s.disk, c) <= Of(s.seen, c))
  }

  lemma Bumped<K>(m: map<K, nat>, k: K)
    ensures Of(Bump(m, k), k) == Of(m, k) + 1 && forall x | x != k :: Of(Bump(m, k), x) == Of(m, x)
  {
  }

  lemma Updated(m: map<string, nat>, c: string, w: nat)
    ensures Of(m[c := w], c) == w && forall x | x != c :: Of(m[c := w], x) == Of(m, x)
  {
  }

  lemma SpendCounts(spent: map<Key, nat>, honoured: set<string>, key: Key, server: Server, other: Key)
    ensures Of(Spend(spent, honoured, key, server), other) <= Of(spent, other) + (if key == other then 1 else 0)
  {
    Bumped(spent, key);
  }

  lemma InvAt(s: State, key: Key, c: string)
    requires Inv(s)
    ensures KeyInv(s, key)
    ensures Of(s.memory, c) <= Of(s.seen, c) && Of(s.disk, c) <= Of(s.seen, c)
  {
  }

  /** A redemption that is noted: its own window is marked, and a blank one is an excuse for all others. */
  lemma NotedKeeps(s: State, key: Key, find: Find, server: Server, other: Key)
    requires Inv(s) && Enabled(s, Check(key, find, Noted)) && Redeems(s, key, find)
    ensures KeyInv(Checked(s, key, find, Noted, server), other)
  {
    hide Bump, Of, Inv, Spend, Text;
    InvAt(s, other, key.connection);
    Bumped(s.accepted, key);
    SpendCounts(s.spent, s.honoured, key, server, other);
    Bumped(s.blanks, key.connection);
    Updated(s.memory, key.connection, key.window);
  }

  /** A redemption that is not noted is an excuse for itself. */
  lemma UnnotedKeeps(s: State, key: Key, find: Find, how: How, server: Server, other: Key)
    requires Inv(s) && how in {ReplyLost, Died} && Redeems(s, key, find)
    ensures KeyInv(Checked(s, key, find, how, server), other)
  {
    hide Bump, Of, Inv, Spend, Text;
    InvAt(s, other, key.connection);
    Bumped(s.accepted, key);
    SpendCounts(s.spent, s.honoured, key, server, other);
    Bumped(s.mishaps, key);
  }

  lemma CheckKeepsKey(s: State, key: Key, find: Find, how: How, server: Server, other: Key)
    requires Inv(s) && Enabled(s, Check(key, find, how))
    ensures KeyInv(Checked(s, key, find, how, server), other)
  {
    if Redeems(s, key, find) && how == Noted {
      NotedKeeps(s, key, find, server, other);
    } else if Redeems(s, key, find) && how != NotAccepted {
      UnnotedKeeps(s, key, find, how, server, other);
    } else {
      InvAt(s, other, key.connection);
    }
  }

  lemma NotesFields(s: State, key: Key, find: Find, how: How, server: Server)
    ensures var t := Checked(s, key, find, how, server);
            && t.seen == (if key.window == 0 then s.seen else s.seen[key.connection := key.window])
            && t.memory in {s.memory, s.memory[key.connection := key.window]}
            && t.disk in {s.disk, t.memory}
            && (t.memory != s.memory ==> t.disk == t.memory)
            && (t.disk != s.disk ==> t.disk == t.memory)
            && (t.running ==> s.running)
  {
  }

  lemma NotesStaySeen(s: State, key: Key, find: Find, how: How, server: Server, c: string)
    requires Inv(s) && Enabled(s, Check(key, find, how))
    ensures var t := Checked(s, key, find, how, server);
            Of(t.memory, c) <= Of(t.seen, c) && Of(t.disk, c) <= Of(t.seen, c)
  {
    hide Of, Inv, Checked;
    InvAt(s, key, c);
    InvAt(s, key, key.connection);
    NotesFields(s, key, find, how, server);
    Updated(s.memory, key.connection, key.window);
    Updated(s.seen, key.connection, key.window);
  }

  lemma CheckKeeps(s: State, key: Key, find: Find, how: How, server: Server)
    requires Inv(s) && Enabled(s, Check(key, find, how))
    ensures Inv(Checked(s, key, find, how, server))
  {
    hide KeyInv, Of, Checked;
    var t := Checked(s, key, find, how, server);
    NotesFields(s, key, find, how, server);
    assert t.running ==> t.disk == t.memory || t.disk == map[];
    forall other ensures KeyInv(t, other) {
      CheckKeepsKey(s, key, find, how, server, other);
    }
    forall c ensures Of(t.memory, c) <= Of(t.seen, c) && Of(t.disk, c) <= Of(t.seen, c) {
      NotesStaySeen(s, key, find, how, server, c);
    }
  }

  lemma StepKeeps(s: State, a: Action, server: Server)
    requires Inv(s) && Enabled(s, a)
    ensures Inv(Apply(s, a, server))
  {
    if a.Check? {
      CheckKeeps(s, a.key, a.find, a.how, server);
    } else {
      var t := Apply(s, a, server);
      forall key ensures KeyInv(t, key) {
        assert KeyInv(s, key);
      }
    }
  }

  lemma {:induction false} RunKeeps(s: State, actions: seq<Action>, server: Server)
    requires Inv(s) && Runs(s, actions, server)
    ensures Inv(After(s, actions, server))
    decreases |actions|
  {
    if actions != [] {
      StepKeeps(s, actions[0], server);
      RunKeeps(Apply(s, actions[0], server), actions[1..], server);
    }
  }

  /**
   * Whatever goes wrong, and whether or not the server honours the idempotency key: the program has no more than one
   * redemption of a window accepted beyond the unnoted ones, the lost notes, and the redemptions without a window,
   * whose note replaces the one of this window.
   */
  lemma NotesBoundCards(actions: seq<Action>, key: Key, server: Server)
    requires Runs(INITIAL, actions, server) && key.window > 0
    ensures var s := After(INITIAL, actions, server);
            Of(s.spent, key) <= Of(s.accepted, key) <= 1 + Excuses(s, key)
  {
    hide Runs, After, Apply;
    RunKeeps(INITIAL, actions, server);
    assert KeyInv(After(INITIAL, actions, server), key);
  }

  // ---- every excuse costs a card ----

  const FOUND := Find(true, true, false)

  /** The four things that let a window be redeemed again: its note is not written, is lost, or is written over. */
  datatype Excuse = NoReply | Death | LostNotes | BlankWindow

  function Relapse(kind: Excuse, key: Key): seq<Action> {
    match kind
    case NoReply => [Begin, Check(key, FOUND, ReplyLost)]
    case Death => [Begin, Check(key, FOUND, Died)]
    case LostNotes => [Begin, Check(key, FOUND, Noted), LoseNotes]
    case BlankWindow => [Begin, Check(key, FOUND, Noted), Check(Key(key.connection, 0), FOUND, Noted)]
  }

  /** `n` rounds of one kind, and a pass in which nothing goes wrong. */
  function Spree(kind: Excuse, key: Key, n: nat): seq<Action> {
    if n == 0 then [Begin, Check(key, FOUND, Noted)] else Relapse(kind, key) + Spree(kind, key, n - 1)
  }

  /** The window `key` has been redeemed `n` times, each with an excuse of this kind, and would be redeemed again. */
  ghost predicate Primed(s: State, kind: Excuse, key: Key, n: nat) {
    && Of(s.disk, key.connection) == 0 && Of(s.seen, key.connection) <= key.window
    && Of(s.accepted, key) == n
    && Of(s.mishaps, key) == (if kind in {NoReply, Death} then n else 0)
    && s.losses == (if kind == LostNotes then n else 0)
    && Of(s.blanks, key.connection) == (if kind == BlankWindow then n else 0)
  }

  lemma RelapsePrimes(s: State, kind: Excuse, key: Key, n: nat, server: Server)
    requires Primed(s, kind, key, n) && key.window > 0
    ensures Runs(s, Relapse(kind, key), server) && Primed(After(s, Relapse(kind, key), server), kind, key, n + 1)
    ensures var t := After(s, Relapse(kind, key), server);
            !server.idempotent ==> Of(t.spent, key) == Of(s.spent, key) + 1
  {
    var relapse := Relapse(kind, key);
    var s1 := Apply(s, relapse[0], server);
    var s2 := Apply(s1, relapse[1], server);
    assert Of(s2.accepted, key) == n + 1;
    if |relapse| == 2 {
      TwoSteps(s, relapse, server);
    } else {
      ThreeSteps(s, relapse, server);
    }
  }

  lemma TwoSteps(s: State, a: seq<Action>, server: Server)
    requires |a| == 2 && Enabled(s, a[0]) && Enabled(Apply(s, a[0], server), a[1])
    ensures Runs(s, a, server) && After(s, a, server) == Apply(Apply(s, a[0], server), a[1], server)
  {
    hide Enabled, Apply;
    var s1, s2 := Apply(s, a[0], server), Apply(Apply(s, a[0], server), a[1], server);
    assert a[1..] == [a[1]] && a[1..][1..] == [];
    assert Runs(s2, [], server) && After(s2, [], server) == s2;
    assert Runs(s1, a[1..], server) && After(s1, a[1..], server) == s2;
  }

  lemma ThreeSteps(s: State, a: seq<Action>, server: Server)
    requires |a| == 3 && Enabled(s, a[0]) && Enabled(Apply(s, a[0], server), a[1])
    requires Enabled(Apply(Apply(s, a[0], server), a[1], server), a[2])
    ensures Runs(s, a, server)
    ensures After(s, a, server) == Apply(Apply(Apply(s, a[0], server), a[1], server), a[2], server)
  {
    hide Enabled, Apply;
    TwoSteps(Apply(s, a[0], server), a[1..], server);
  }

  lemma {:induction false} RunsConcat(s: State, a: seq<Action>, b: seq<Action>, server: Server)
    requires Runs(s, a, server) && Runs(After(s, a, server), b, server)
    ensures Runs(s, a + b, server) && After(s, a + b, server) == After(After(s, a, server), b, server)
    decreases |a|
  {
    hide Enabled, Apply;
    if a == [] {
      assert a + b == b;
    } else {
      assert (a + b)[1..] == a[1..] + b;
      RunsConcat(Apply(s, a[0], server), a[1..], b, server);
    }
  }

  lemma {:induction false} SpreeFrom(s: State, kind: Excuse, key: Key, k: nat, n: nat, server: Server)
    requires Primed(s, kind, key, k) && key.window > 0
    ensures Runs(s, Spree(kind, key, n), server)
    ensures var t := After(s, Spree(kind, key, n), server);
            && Of(t.accepted, key) == k + n + 1 && Excuses(t, key) == k + n
            && (!server.idempotent ==> Of(t.spent, key) == Of(s.spent, key) + n + 1)
    decreases n
  {
    if n == 0 {
      TwoSteps(s, Spree(kind, key, 0), server);
    } else {
      hide Primed, Runs, After, Relapse, Apply, Of;
      RelapsePrimes(s, kind, key, k, server);
      var t := After(s, Relapse(kind, key), server);
      SpreeFrom(t, kind, key, k + 1, n - 1, server);
      RunsConcat(s, Relapse(kind, key), Spree(kind, key, n - 1), server);
    }
  }

  /**
   * The bound is met, for each of the four excuses and any number of them: after `n` of them and no other, the window
   * has been redeemed n + 1 times, and a server that does not honour the key has spent as many cards.
   */
  lemma EveryExcuseCosts(kind: Excuse, key: Key, n: nat, server: Server)
    requires key.window > 0
    ensures Runs(INITIAL, Spree(kind, key, n), server)
    ensures var s := After(INITIAL, Spree(kind, key, n), server);
            && Of(s.accepted, key) == n + 1 && Excuses(s, key) == n
            && (!server.idempotent ==> Of(s.spent, key) == n + 1)
  {
    SpreeFrom(INITIAL, kind, key, 0, n, server);
  }

  // ---- the idempotency key ----

  /** The texts of two requests run into each other: the second connection's id continues in the first one's window. */
  predicate Nested(at: Window -> string, a: Key, b: Key) {
    && a.connection + ":" <= b.connection
    && at(a.window) == b.connection[|a.connection| + 1..] + ":" + at(b.window)
  }

  /**
   * Two redemptions carry the same text exactly when they are for the same window of the same connection, or their
   * texts run into each other, which takes a colon in a connection's id.
   */
  lemma SameText(at: Window -> string, a: Key, b: Key)
    requires Tells(at)
    ensures Text(at, a) == Text(at, b) <==> a == b || Nested(at, a, b) || Nested(at, b, a)
    ensures Nested(at, a, b) ==> ':' in b.connection
  {
    hide Tells;
    if |a.connection| <= |b.connection| {
      SameTextShorter(at, a, b);
    } else {
      SameTextShorter(at, b, a);
    }
    if Nested(at, a, b) {
      assert b.connection[|a.connection|] == ':';
    }
  }

  lemma SameTextShorter(at: Window -> string, a: Key, b: Key)
    requires Tells(at) && |a.connection| <= |b.connection|
    ensures Text(at, a) == Text(at, b) <==> a == b || Nested(at, a, b)
    ensures !Nested(at, b, a)
  {
    var s, t := a.connection + ":" + at(a.window), b.connection + ":" + at(b.window);
    assert Text(at, a) == PREFIX + s && Text(at, b) == PREFIX + t;
    assert Text(at, a)[|PREFIX|..] == s && Text(at, b)[|PREFIX|..] == t;
    Overlap(a.connection, at(a.window), b.connection, at(b.window));
  }

  /** Two texts joined by colons are equal exactly when their parts are, or the longer first part runs on. */
  lemma Overlap(c: string, v: string, d: string, w: string)
    requires |c| <= |d|
    ensures c + ":" + v == d + ":" + w <==>
              (c == d && v == w) || (c + ":" <= d && v == d[|c| + 1..] + ":" + w)
  {
    var s, t, n, m := c + ":" + v, d + ":" + w, |c|, |d|;
    if c + ":" <= d && v == d[n + 1..] + ":" + w {
      assert d == (c + ":") + d[n + 1..];
      assert s == t;
    }
    if s == t && n == m {
      assert s[..n] == c && t[..m] == d && s[n + 1..] == v && t[m + 1..] == w;
    } else if s == t {
      assert t[..m] == d && s[..n + 1] == c + ":" && t[..n + 1] == d[..n + 1];
      assert v == s[n + 1..] && t[n + 1..] == t[n + 1..m] + t[m..] && t[n + 1..m] == d[n + 1..] && t[m..] == ":" + w;
      assert d[n + 1..] + (":" + w) == d[n + 1..] + ":" + w;
    }
  }

  /** What a server that honours the texts has spent: exactly one card for each text it has accepted. */
  ghost predicate Billed(accepted: map<Key, nat>, spent: map<Key, nat>, honoured: set<string>, at: Window -> string) {
    && (forall key :: Of(spent, key) <= 1)
    && (forall a, b :: Of(spent, a) > 0 && Of(spent, b) > 0 && Text(at, a) == Text(at, b) ==> a == b)
    && (forall key :: Of(spent, key) > 0 || Of(accepted, key) > 0 ==> Text(at, key) in honoured)
    && (forall t :: t in honoured ==> exists key :: Text(at, key) == t && Of(spent, key) > 0)
  }

  lemma AcceptedBills(accepted: map<Key, nat>, spent: map<Key, nat>, honoured: set<string>, key: Key, server: Server)
    requires server.idempotent && Billed(accepted, spent, honoured, server.at)
    ensures Billed(Bump(accepted, key), Spend(spent, honoured, key, server), honoured + {Text(server.at, key)},
                   server.at)
  {
    hide Text, Of, Bump;
    Bumped(accepted, key);
    Bumped(spent, key);
    var after := Spend(spent, honoured, key, server);
    forall t | t in honoured + {Text(server.at, key)}
      ensures exists k :: Text(server.at, k) == t && Of(after, k) > 0
    {
      if t in honoured {
        var k :| Text(server.at, k) == t && Of(spent, k) > 0;
        assert Of(after, k) > 0;
      } else {
        assert Of(after, key) > 0;
      }
    }
  }

  lemma StepBills(s: State, a: Action, server: Server)
    requires server.idempotent && Billed(s.accepted, s.spent, s.honoured, server.at) && Enabled(s, a)
    ensures var t := Apply(s, a, server); Billed(t.accepted, t.spent, t.honoured, server.at)
  {
    hide Billed, Text, Of, Bump, Spend, Enabled, Redeems;
    if a.Check? {
      AcceptedBills(s.accepted, s.spent, s.honoured, a.key, server);
    }
  }

  lemma {:induction false} RunBills(s: State, actions: seq<Action>, server: Server)
    requires server.idempotent && Billed(s.accepted, s.spent, s.honoured, server.at) && Runs(s, actions, server)
    ensures var t := After(s, actions, server); Billed(t.accepted, t.spent, t.honoured, server.at)
    decreases |actions|
  {
    hide Billed, Enabled, Apply;
    if actions != [] {
      StepBills(s, actions[0], server);
      RunBills(Apply(s, actions[0], server), actions[1..], server);
    }
  }

  /** A server that honours the texts spends, for all the redemptions of one text it accepts, exactly one card. */
  lemma OneCardPerText(actions: seq<Action>, key: Key, server: Server)
    requires server.idempotent && Runs(INITIAL, actions, server)
    requires Of(After(INITIAL, actions, server).accepted, key) > 0
    ensures var spent := After(INITIAL, actions, server).spent;
            exists k :: Text(server.at, k) == Text(server.at, key) && Of(spent, k) == 1
                        && forall other :: other != k && Text(server.at, other) == Text(server.at, k)
                                           ==> Of(spent, other) == 0
  {
    hide Runs, After, Text;
    RunBills(INITIAL, actions, server);
  }

  lemma StepAccepts(s: State, a: Action, key: Key, server: Server)
    requires Enabled(s, a) && !(a.Check? && a.key == key)
    ensures Of(Apply(s, a, server).accepted, key) == Of(s.accepted, key)
  {
    hide Spend, Text, Bump, Of, Redeems;
    if a.Check? {
      Bumped(s.accepted, a.key);
    }
  }

  /** What was accepted was asked for. */
  lemma {:induction false} AcceptedIsAsked(s: State, actions: seq<Action>, key: Key, server: Server)
    requires Runs(s, actions, server)
    ensures Of(After(s, actions, server).accepted, key) > Of(s.accepted, key) ==>
              exists a :: a in actions && a.Check? && a.key == key
    decreases |actions|
  {
    hide Enabled, Apply, Of;
    if actions != [] {
      AcceptedIsAsked(Apply(s, actions[0], server), actions[1..], key, server);
      if !(actions[0].Check? && actions[0].key == key) {
        StepAccepts(s, actions[0], key, server);
      } else {
        assert actions[0] in actions;
      }
    }
  }

  /**
   * So a window whose text no other request of the run carries costs exactly one card once a redemption is accepted,
   * however often it is retried. By SameText that is every window, as long as no connection's id has a colon.
   */
  lemma SpentExactlyOnce(actions: seq<Action>, key: Key, server: Server)
    requires server.idempotent && Runs(INITIAL, actions, server)
    requires forall a | a in actions && a.Check? && Text(server.at, a.key) == Text(server.at, key) :: a.key == key
    ensures var s := After(INITIAL, actions, server);
            Of(s.spent, key) == if Of(s.accepted, key) > 0 then 1 else 0
  {
    hide Runs, After, Text;
    var s := After(INITIAL, actions, server);
    RunKeeps(INITIAL, actions, server);
    assert KeyInv(s, key);
    if Of(s.accepted, key) > 0 {
      OneCardPerText(actions, key, server);
      var k :| Text(server.at, k) == Text(server.at, key) && Of(s.spent, k) == 1;
      assert KeyInv(s, k);
      AcceptedIsAsked(INITIAL, actions, k, server);
    }
  }

  /** Where the texts do run into each other, the later connection is told of a redemption that renews nothing. */
  lemma ClashLosesCard(a: Key, b: Key, server: Server)
    requires server.idempotent && a.connection != b.connection && Text(server.at, a) == Text(server.at, b)
    ensures var actions := [Begin, Check(a, FOUND, Noted), Check(b, FOUND, Noted)];
            && Runs(INITIAL, actions, server)
            && var s := After(INITIAL, actions, server);
               Of(s.accepted, b) == 1 && Of(s.spent, b) == 0 && Of(s.spent, a) == 1
  {
    hide Text;
    ThreeSteps(INITIAL, [Begin, Check(a, FOUND, Noted), Check(b, FOUND, Noted)], server);
  }

  // ---- one check ----

  datatype Usage = Usage(used: real, total: real, window: Window)

  datatype Report = NoQuota | BelowLimit | AlreadyRedeemed | NoCard | WouldRedeem | Failed | Redeemed

  /** What a check finds, in the terms of the runs above. */
  function FindOf(usage: Usage, cards: seq<Card>, dry: bool): Find
    requires usage.total > 0.0
  {
    Find(!BelowThreshold(usage.used, usage.total), exists c :: c in cards && Usable(c), dry)
  }

  /** At least 98.95 percent of the quota is used, whatever it is rounded to. */
  predicate NearlyUsed(u: Usage)
    requires u.total > 0.0
  {
    98.95 <= 100.0 * u.used / u.total
  }

  /** The window is noted for the connection. */
  predicate NotedWindow(notes: map<string, Window>, connection: string, window: Window) {
    window > 0 && connection in notes && notes[connection] == window
  }

  predicate HasCard(cards: seq<Card>) {
    exists c :: c in cards && Weekly(c)
  }

  lemma WeeklyIsUsable(cards: seq<Card>)
    ensures (exists c :: c in cards && Usable(c)) <==> HasCard(cards)
  {
    assert forall c :: Usable(c) <==> Weekly(c);
  }

  class Program {
    const server: Server
    var running: bool
    var memory: map<string, Window>
    var disk: map<string, Window>
    ghost var seen: map<string, Window>
    ghost var accepted: map<Key, nat>
    ghost var spent: map<Key, nat>
    ghost var honoured: set<string>
    ghost var mishaps: map<Key, nat>
    ghost var blanks: map<string, nat>
    ghost var losses: nat

    ghost function Now(): State
      reads this
    {
      State(running, memory, disk, seen, accepted, spent, honoured, mishaps, blanks, losses)
    }

    constructor (server: Server)
      ensures Now() == INITIAL && this.server == server
    {
      this.server := server;
      running, memory, disk, seen := false, map[], map[], map[];
      accepted, spent, honoured, mishaps, blanks, losses := map[], map[], {}, map[], map[], 0;
    }

    /** A new pass starts from the notes on disk. */
    method StartPass()
      modifies this
      ensures Now() == Apply(old(Now()), Begin, server)
    {
      running, memory := true, disk;
    }

    /** Send the redemption, and note it once it is accepted. */
    method Redeem(key: Key, how: How)
      modifies this
      ensures running == (old(running) && how != Died)
      ensures memory == if how == Noted then old(memory)[key.connection := key.window] else old(memory)
      ensures disk == if how == Noted then memory else old(disk)
      ensures seen == old(seen) && losses == old(losses)
      ensures accepted == if how == NotAccepted then old(accepted) else Bump(old(accepted), key)
      ensures spent == if how == NotAccepted then old(spent) else Spend(old(spent), old(honoured), key, server)
      ensures honoured == old(honoured) + if how == NotAccepted then {} else {Text(server.at, key)}
      ensures mishaps == if how in {ReplyLost, Died} then Bump(old(mishaps), key) else old(mishaps)
      ensures blanks == if how == Noted && key.window == 0 then Bump(old(blanks), key.connection) else old(blanks)
    {
      hide Spend, Bump, Text, Of;
      if how == NotAccepted {
        return;
      }
      spent, accepted := Spend(spent, honoured, key, server), Bump(accepted, key);
      honoured := honoured + {Text(server.at, key)};
      if how != Noted {
        mishaps, running := Bump(mishaps, key), running && how == ReplyLost;
        return;
      }
      memory := memory[key.connection := key.window];
      if key.window == 0 {
        blanks := Bump(blanks, key.connection);
      }
      disk := memory;
    }

    /** Check one connection, and redeem the card `sent` if its quota is nearly used; `how` is how that request goes. */
    method CheckConnection(connection: string, usage: Option<Usage>, cards: seq<Card>, dry: bool, how: How)
      returns (r: Report, sent: Option<Card>)
      requires usage.Some? ==>
                 usage.value.total > 0.0 && Enabled(Now(), Check(Key(connection, usage.value.window),
                                                               FindOf(usage.value, cards, dry), how))
      modifies this
      ensures usage.None? ==> r == NoQuota && Now() == old(Now())
      ensures usage.Some? ==>
                var key, find := Key(connection, usage.value.window), FindOf(usage.value, cards, dry);
                && Now() == Apply(old(Now()), Check(key, find, how), server)
                && (r == Redeemed <==> Redeems(old(Now()), key, find) && how == Noted)
                && (r == Failed <==> Redeems(old(Now()), key, find) && how != Noted)
      ensures usage.Some? ==>
                var used, noted := NearlyUsed(usage.value), NotedWindow(old(memory), connection, usage.value.window);
                && (r == BelowLimit <==> !used)
                && (r == AlreadyRedeemed <==> used && noted)
                && (r == NoCard <==> used && !noted && !HasCard(cards))
                && (r == WouldRedeem <==> used && !noted && HasCard(cards) && dry)
                && (sent.Some? <==> used && !noted && HasCard(cards) && !dry)
                && (r == Redeemed <==> sent.Some? && how == Noted) && (r == Failed <==> sent.Some? && how != Noted)
                && accepted == if sent.Some? && how != NotAccepted
                               then Bump(old(accepted), Key(connection, usage.value.window)) else old(accepted)
      ensures sent.Some? ==> exists i: nat :: ExpiresFirst(cards, i) && cards[i] == sent.value
      ensures usage.None? ==> sent.None?
    {
      hide BelowThreshold, Usable, Bump, Spend, Text, Round, Weekly;
      if usage.None? {
        return NoQuota, None;
      }
      ThresholdIsLower(usage.value.used, usage.value.total);
      WeeklyIsUsable(cards);
      var window := usage.value.window;
      var key := Key(connection, window);
      if window != 0 {
        seen := seen[connection := window];
      }
      if BelowThreshold(usage.value.used, usage.value.total) {
        return BelowLimit, None;
      }
      if window != 0 && connection in memory && memory[connection] == window {
        return AlreadyRedeemed, None;
      }
      var card := WeekCard(cards);
      if card.None? {
        return NoCard, None;
      }
      if dry {
        return WouldRedeem, None;
      }
      Redeem(key, how);
      return if how == Noted then Redeemed else Failed, card;
    }
  }
}
