/**
 * The journal follower: each poll takes a barrier from a taken one-line capture and then drains the follower until
 * the barrier shows up or the time budget ends.
 */
module JournalReader {
  import opened Wrappers
  import opened Routes

  const RETAINED_CURSORS := 10000

  type Cursor = nat
  type Boot = nat

  /** One line the follower prints. */
  datatype Line =
    | TooLong                                                                 // longer than 65536 bytes
    | NotJson
    | NotObject                                                               // valid JSON, but not an object
    | Entry(cursor: Option<Cursor>, boot: Option<Boot>, record: Option<Record>)

  datatype Batch = Batch(records: seq<Record>, boot: Option<Boot>, ready: bool, barrierSeen: bool, continuous: bool,
                         overflow: bool)

  /** The records a sequence of lines carries, in order. */
  function Records(lines: seq<Line>): seq<Record> {
    if lines == [] then []
    else
      var last := lines[|lines| - 1];
      Records(lines[..|lines| - 1]) + if last.Entry? && last.record.Some? then [last.record.value] else []
  }

  /** The cursors of the entries, in order. */
  function Cursors(lines: seq<Line>): seq<Cursor> {
    if lines == [] then []
    else
      var last := lines[|lines| - 1];
      Cursors(lines[..|lines| - 1]) + if last.Entry? && last.cursor.Some? then [last.cursor.value] else []
  }

  predicate Distinct(cursors: seq<Cursor>) {
    forall i, j | 0 <= i < j < |cursors| :: cursors[i] != cursors[j]
  }

  lemma Appended(lines: seq<Line>, line: Line)
    ensures Records(lines + [line]) ==
            Records(lines) + if line.Entry? && line.record.Some? then [line.record.value] else []
    ensures Cursors(lines + [line]) ==
            Cursors(lines) + if line.Entry? && line.cursor.Some? then [line.cursor.value] else []
  {
    assert (lines + [line])[..|lines|] == lines;
  }

  lemma {:induction false} RecordsConcat(a: seq<Line>, b: seq<Line>)
    ensures Records(a + b) == Records(a) + Records(b)
    ensures Cursors(a + b) == Cursors(a) + Cursors(b)
  {
    if b == [] {
      assert a + b == a;
    } else {
      var init, last := b[..|b| - 1], b[|b| - 1];
      RecordsConcat(a, init);
      Appended(a + init, last);
      Appended(init, last);
      assert b == init + [last] && a + b == (a + init) + [last];
    }
  }

  /** The cursors the reader keeps: the newest ones. */
  function Newest(cursors: seq<Cursor>): (kept: seq<Cursor>)
    ensures |kept| <= RETAINED_CURSORS && forall c | c in kept :: c in cursors
  {
    if |cursors| <= RETAINED_CURSORS then cursors else cursors[|cursors| - RETAINED_CURSORS..]
  }

  lemma NewestGrows(cursors: seq<Cursor>, mark: Cursor)
    ensures Newest(Newest(cursors) + [mark]) == Newest(cursors + [mark])
    ensures |Newest(cursors) + [mark]| > RETAINED_CURSORS <==> |cursors + [mark]| > RETAINED_CURSORS
  {
  }

  /** After the lines `before`, the line carries the barrier or a cursor that is still kept. */
  predicate Recognized(before: seq<Line>, line: Line, cursor: Cursor) {
    line.Entry? && line.cursor.Some? && (line.cursor.value == cursor || line.cursor.value in Newest(Cursors(before)))
  }

  /** The line ends the poll: it is recognized, or it makes the poll raise. */
  predicate Halts(before: seq<Line>, line: Line, cursor: Cursor) {
    line.NotObject? || Recognized(before, line, cursor)
  }

  /**
   * After the lines `before`, a poll reads `taken` and leaves `rest`: it goes on up to the first line that ends it, and
   * otherwise until its budget is used up or nothing is left.
   */
  ghost predicate Reads(before: seq<Line>, taken: seq<Line>, rest: seq<Line>, cursor: Cursor, budget: nat) {
    && |taken| <= budget
    && (forall k: nat | k + 1 < |taken| :: !Halts(before + taken[..k], taken[k], cursor))
    && (|taken| == budget || rest == [] || HaltsLast(before, taken, cursor))
  }

  predicate HaltsLast(before: seq<Line>, taken: seq<Line>, cursor: Cursor) {
    taken != [] && Halts(before + taken[..|taken| - 1], taken[|taken| - 1], cursor)
  }

  /** Some retained cursor went when the lines `taken` were read, the last of `consumed`. */
  predicate Cut(taken: seq<Line>, consumed: seq<Line>) {
    Cursors(taken) != [] && |Cursors(consumed)| > RETAINED_CURSORS
  }

  predicate OneBoot(lines: seq<Line>, boot: Option<Boot>) {
    forall line | line in lines && line.Entry? :: line.boot == boot
  }

  /** What one poll promises about the lines `taken` it read, the last of `consumed`, and the batch it returned. */
  ghost predicate Faithful(batch: Option<Batch>, taken: seq<Line>, consumed: seq<Line>,
                           barrier: Option<(Cursor, Boot)>, seedCursor: Option<Cursor>, seedBoot: Option<Boot>)
  {
    && (batch.None? <==> NotObject in taken)
    && (batch.Some? ==>
          && batch.value.records == Records(taken)
          && (batch.value.overflow <==> TooLong in taken || Cut(taken, consumed))
          && (batch.value.ready <==> barrier.Some?)
          && (barrier.None? ==> !batch.value.barrierSeen && (batch.value.continuous <==> seedBoot.Some?))
          && (barrier.Some? ==>
                // a continuous poll stays in the boot the reader was seeded in
                && (batch.value.continuous <==> seedBoot == Some(barrier.value.1) && OneBoot(taken, seedBoot))
                // a barrier is seen when it is the seed or its line was read and is still kept
                && (Distinct(Cursors(consumed)) ==>
                      (batch.value.barrierSeen <==>
                        && seedBoot == Some(barrier.value.1)
                        && (Some(barrier.value.0) == seedCursor || barrier.value.0 in Newest(Cursors(consumed)))))))
  }

  /** What a drain has found out about the lines `taken` that it read after the lines `before`. */
  datatype Found = Found(raised: bool, records: seq<Record>, overflow: bool, seen: bool, continuous: bool)

  ghost predicate Accounts(f: Found, before: seq<Line>, taken: seq<Line>, cursor: Cursor, boot: Option<Boot>) {
    && (forall k: nat | k + 1 < |taken| :: !Halts(before + taken[..k], taken[k], cursor))
    && (f.raised <==> NotObject in taken)
    && (f.seen <==> HaltsLast(before, taken, cursor) && !f.raised)
    && (f.raised ==> HaltsLast(before, taken, cursor))
    && f.records == Records(taken)
    && (f.overflow <==> TooLong in taken || Cut(taken, before + taken))
    && (f.continuous <==> OneBoot(taken, boot))
  }

  const NOTHING_READ := Found(false, [], false, false, true)

  lemma AccountsNothing(before: seq<Line>, cursor: Cursor, boot: Option<Boot>)
    ensures Accounts(NOTHING_READ, before, [], cursor, boot)
  {
  }

  /** What a drain knows after one line more, `seen` and `cut` being what reading it said. */
  function After(f: Found, line: Line, seen: bool, cut: bool, boot: Option<Boot>): Found {
    Found(line.NotObject?,
          f.records + if line.Entry? && line.record.Some? then [line.record.value] else [],
          f.overflow || line.TooLong? || cut,
          seen,
          f.continuous && (line.Entry? ==> line.boot == boot))
  }

  /** One more line, after lines that did not end the drain. */
  lemma AccountsGrow(f: Found, before: seq<Line>, taken: seq<Line>, cursor: Cursor, boot: Option<Boot>, line: Line)
    requires Accounts(f, before, taken, cursor, boot) && !f.raised && !f.seen
    ensures var seen, cut := Recognized(before + taken, line, cursor), Cut([line], before + taken + [line]);
            Accounts(After(f, line, seen, cut, boot), before, taken + [line], cursor, boot)
  {
    var all := taken + [line];
    Appended(taken, line);
    CutGrows(before, taken, line);
    hide Cut, Records, Cursors, Newest;
    assert forall k: nat | k <= |taken| :: all[..k] == taken[..k];
    assert before + taken + [line] == before + all;
    assert taken[..|taken|] == taken && all[..|all| - 1] == taken;
    assert line.Entry? ==> !line.NotObject? && !line.TooLong?;
    forall k: nat | k + 1 < |all| ensures !Halts(before + all[..k], all[k], cursor) {
      if k + 1 == |taken| {
        assert !HaltsLast(before, taken, cursor);
      }
    }
  }

  lemma AccountsRead(f: Found, before: seq<Line>, taken: seq<Line>, rest: seq<Line>, cursor: Cursor, boot: Option<Boot>,
                     budget: nat)
    requires Accounts(f, before, taken, cursor, boot) && |taken| <= budget
    requires |taken| == budget || rest == [] || f.seen || f.raised
    ensures Reads(before, taken, rest, cursor, budget)
  {
  }

  lemma CutGrows(before: seq<Line>, taken: seq<Line>, line: Line)
    ensures Cut(taken + [line], before + (taken + [line])) <==>
              Cut(taken, before + taken) || Cut([line], before + taken + [line])
  {
    Appended(taken, line);
    Appended([], line);
    assert [] + [line] == [line];
    RecordsConcat(before, taken);
    RecordsConcat(before, taken + [line]);
    assert before + taken + [line] == before + (taken + [line]);
  }

  /** A line that is recognized and repeats no cursor carries the barrier. */
  lemma RecognizedIsKept(before: seq<Line>, line: Line, cursor: Cursor)
    requires Recognized(before, line, cursor) && Distinct(Cursors(before + [line]))
    ensures cursor in Newest(Cursors(before + [line]))
  {
    Appended(before, line);
    var cursors, mark := Cursors(before), line.cursor.value;
    var all := cursors + [mark];
    forall i | 0 <= i < |cursors| ensures cursors[i] != mark {
      assert all[i] != all[|cursors|];
    }
    var kept := Newest(all);
    assert kept[|kept| - 1] == mark;
  }

  lemma SeenIsKept(f: Found, before: seq<Line>, taken: seq<Line>, cursor: Cursor)
    requires f.seen ==> HaltsLast(before, taken, cursor) && NotObject !in taken
    ensures f.seen && Distinct(Cursors(before + taken)) ==> cursor in Newest(Cursors(before + taken))
  {
    if f.seen && Distinct(Cursors(before + taken)) {
      var init, last := taken[..|taken| - 1], taken[|taken| - 1];
      assert before + taken == (before + init) + [last];
      RecognizedIsKept(before + init, last, cursor);
    }
  }

  class Reader {
    var seedCursor: Option<Cursor>
    var seedBoot: Option<Boot>
    var following: bool
    var retained: seq<Cursor>
    var pipe: seq<Line>              // printed by the follower and not read yet
    ghost var consumed: seq<Line>     // every line read so far
    ghost var delivered: seq<Record>  // the records of every batch handed out, one after the other
    ghost var dropped: nat            // records that polls had read before they raised

    ghost predicate Valid()
      reads this
    {
      && seedCursor.Some? == seedBoot.Some?
      && (following ==> seedCursor.Some?)
      && |delivered| + dropped == |Records(consumed)|
      && (dropped == 0 ==> delivered == Records(consumed))
      && Retains()
    }

    constructor ()
      ensures Valid() && consumed == [] && delivered == [] && pipe == [] && dropped == 0
      ensures seedCursor.None? && !following
    {
      seedCursor, seedBoot, following, retained, pipe := None, None, false, [], [];
      consumed, delivered, dropped := [], [], 0;
    }

    /** The follower prints: it has been started, and its lines wait in the pipe. */
    method Print(printed: seq<Line>)
      modifies this`pipe
      ensures pipe == old(pipe) + if following then printed else []
    {
      if following {
        pipe := pipe + printed;
      }
    }

    /** The newest cursors are kept, in order. */
    ghost predicate Retains()
      reads this`retained, this`consumed
    {
      retained == Newest(Cursors(consumed))
    }

    /** Keep one more cursor; the oldest ones go first. True if the list had to be cut. */
    method Retain(mark: Cursor, ghost cursors: seq<Cursor>) returns (cut: bool)
      requires retained == Newest(cursors)
      modifies this`retained
      ensures retained == Newest(cursors + [mark])
      ensures cut <==> |cursors + [mark]| > RETAINED_CURSORS
    {
      NewestGrows(cursors, mark);
      retained := retained + [mark];
      cut := |retained| > RETAINED_CURSORS;
      if cut {
        retained := retained[|retained| - RETAINED_CURSORS..];
      }
    }

    /** Read the next line. `seen` says it carries the barrier, or a cursor that was already read. */
    method ReadLine(cursor: Cursor) returns (line: Line, seen: bool, cut: bool)
      requires Retains() && pipe != []
      modifies this`pipe, this`consumed, this`retained
      ensures Retains()
      ensures line == old(pipe)[0] && pipe == old(pipe)[1..] && consumed == old(consumed) + [line]
      ensures seen <==> Recognized(old(consumed), line, cursor)
      ensures cut <==> Cut([line], consumed)
    {
      line, seen, cut := pipe[0], false, false;
      Appended(consumed, line);
      Appended([], line);
      assert [] + [line] == [line];
      ghost var cursors := Cursors(consumed);
      pipe, consumed := pipe[1..], consumed + [line];
      if line.Entry? && line.cursor.Some? {
        var mark := line.cursor.value;
        seen := mark == cursor || mark in retained;
        cut := Retain(mark, cursors);
      }
    }

    /** Read one more line of a drain that did not end yet. */
    method DrainLine(f: Found, ghost before: seq<Line>, ghost taken: seq<Line>, cursor: Cursor) returns (g: Found)
      requires Retains() && pipe != [] && consumed == before + taken
      requires Accounts(f, before, taken, cursor, seedBoot) && !f.raised && !f.seen
      modifies this`pipe, this`consumed, this`retained
      ensures Retains() && pipe == old(pipe)[1..] && consumed == before + (taken + [old(pipe)[0]])
      ensures Accounts(g, before, taken + [old(pipe)[0]], cursor, seedBoot)
    {
      hide Retains, Recognized, Halts, HaltsLast, OneBoot, Newest, Records, Cursors, Cut, Accounts, After;
      var line, seen, cut := ReadLine(cursor);
      AccountsGrow(f, before, taken, cursor, seedBoot, line);
      g := After(f, line, seen, cut, seedBoot);
    }

    /** Read lines until the barrier shows up, the budget ends or the pipe is empty. */
    method Drain(cursor: Cursor, budget: nat) returns (f: Found, ghost taken: seq<Line>)
      requires Retains()
      modifies this`pipe, this`consumed, this`retained
      ensures Retains()
      ensures consumed == old(consumed) + taken && old(pipe) == taken + pipe
      ensures Reads(old(consumed), taken, pipe, cursor, budget)
      ensures Accounts(f, old(consumed), taken, cursor, seedBoot)
    {
      hide Retains, Recognized, Halts, HaltsLast, OneBoot, Newest, Records, Cursors, Cut, Accounts, Reads;
      f, taken := NOTHING_READ, [];
      AccountsNothing(consumed, cursor, seedBoot);
      ghost var all := pipe;
      var left: nat := budget;
      while left > 0 && !f.seen && !f.raised && pipe != []
        invariant consumed == old(consumed) + taken && left + |taken| == budget && |taken| <= |all|
        invariant taken == all[..|taken|] && pipe == all[|taken|..]
        invariant Retains() && Accounts(f, old(consumed), taken, cursor, seedBoot)
      {
        assert pipe[0] == all[|taken|] && pipe[1..] == all[|taken| + 1..];
        f := DrainLine(f, old(consumed), taken, cursor);
        assert taken + [all[|taken|]] == all[..|taken| + 1];
        taken, left := all[..|taken| + 1], left - 1;
      }
      AccountsRead(f, old(consumed), taken, pipe, cursor, seedBoot, budget);
    }

    /** Start the follower if there is none, and read what it has printed. */
    method Catch(cursor: Cursor, spawns: bool, printed: seq<Line>, budget: nat)
      returns (f: Found, ghost taken: seq<Line>)
      requires Retains()
      modifies this`following, this`pipe, this`consumed, this`retained
      ensures Retains() && following == (old(following) || spawns)
      ensures consumed == old(consumed) + taken
      ensures old(pipe) + (if following then printed else []) == taken + pipe
      ensures if following then Reads(old(consumed), taken, pipe, cursor, budget) else taken == []
      ensures Accounts(f, old(consumed), taken, cursor, seedBoot)
    {
      hide Retains, Recognized, Halts, HaltsLast, OneBoot, Newest, Records, Cursors, Cut, Accounts, Reads;
      f, taken := NOTHING_READ, [];
      AccountsNothing(consumed, cursor, seedBoot);
      following := following || spawns;
      Print(printed);
      if following {
        f, taken := Drain(cursor, budget);
      }
    }

    /** The part of a poll that has a barrier of the reader's own boot. */
    method Follow(cursor: Cursor, boot: Boot, spawns: bool, printed: seq<Line>, budget: nat)
      returns (batch: Option<Batch>, ghost taken: seq<Line>)
      requires Valid() && seedBoot == Some(boot)
      modifies this`following, this`pipe, this`consumed, this`retained, this`delivered, this`dropped
      ensures Valid() && following == (old(following) || spawns)
      ensures consumed == old(consumed) + taken
      ensures old(pipe) + (if following then printed else []) == taken + pipe
      ensures if following then Reads(old(consumed), taken, pipe, cursor, budget) else taken == []
      ensures Faithful(batch, taken, consumed, Some((cursor, boot)), seedCursor, seedBoot)
      ensures batch.Some? ==> batch.value.boot == Some(boot)
      ensures delivered == old(delivered) + if batch.Some? then batch.value.records else []
      ensures dropped == old(dropped) + if batch.Some? then 0 else |Records(taken)|
    {
      hide Records, Cursors, Reads, Halts, HaltsLast, Recognized, Newest, Distinct, OneBoot, Cut;
      var f;
      f, taken := Catch(cursor, spawns, printed, budget);
      RecordsConcat(old(consumed), taken);
      SeenIsKept(f, old(consumed), taken, cursor);
      if f.raised {
        dropped, batch := dropped + |Records(taken)|, None;
      } else {
        delivered := delivered + f.records;
        batch := Some(Batch(f.records, Some(boot), true, f.seen || Some(cursor) == seedCursor || cursor in retained,
                            f.continuous, f.overflow));
      }
    }

    /**
     * One poll. `barrier` is what the one-line capture returned, `spawns` whether the follower can be started,
     * `printed` what the follower prints up to the end of the poll, and `budget` how many lines the time budget allows.
     * None means the poll raised: a line was valid JSON but not an object. `taken` is what this poll read.
     */
    method Poll(barrier: Option<(Cursor, Boot)>, spawns: bool, printed: seq<Line>, budget: nat)
      returns (batch: Option<Batch>, ghost taken: seq<Line>)
      requires Valid()
      modifies this
      ensures Valid()
      // what was read is what the follower printed, in order, without loss or repeat, as far as the poll had to go
      ensures consumed == old(consumed) + taken
      ensures old(pipe) + (if following then printed else []) == taken + pipe
      ensures var own := barrier.Some? && seedBoot == Some(barrier.value.1);
        && following == (old(following) || (own && spawns))
        && if own && following then Reads(old(consumed), taken, pipe, barrier.value.0, budget) else taken == []
      ensures Faithful(batch, taken, consumed, barrier, seedCursor, seedBoot)
      ensures delivered == old(delivered) + if batch.Some? then batch.value.records else []
      // everything read so far has been handed out exactly when no poll that raised had read a record
      ensures dropped == old(dropped) + if batch.Some? then 0 else |Records(taken)|
      ensures delivered == Records(consumed) <==> dropped == 0
      // the first barrier seeds the reader
      ensures (seedCursor, seedBoot) == if old(seedCursor).None? && barrier.Some?
                                        then (Some(barrier.value.0), Some(barrier.value.1))
                                        else old((seedCursor, seedBoot))
    {
      hide Reads, Newest, Distinct, Retains;
      taken := [];
      if barrier.None? {
        Print(printed);
        batch := Some(Batch([], seedBoot, false, false, seedBoot.Some?, false));
        return;
      }
      var (cursor, boot) := barrier.value;
      if seedCursor.None? {
        seedCursor, seedBoot := Some(cursor), Some(boot);
      } else if Some(boot) != seedBoot {
        Print(printed);
        batch := Some(Batch([], Some(boot), true, false, false, false));
        return;
      }
      batch, taken := Follow(cursor, boot, spawns, printed, budget);
    }
  }

  /** A poll can lose a record: one was read, and the next line is valid JSON but not an object. */
  method ARaisingPollLoses(record: Record) returns (reader: Reader, batch: Option<Batch>)
    ensures fresh(reader) && reader.Valid() && batch.None?
    ensures reader.delivered == [] && Records(reader.consumed) == [record] && reader.dropped == 1
  {
    hide HaltsLast, Cut, OneBoot, Newest, Distinct;
    reader := new Reader();
    var printed := [Entry(Some(2), Some(7), Some(record)), NotObject];
    ghost var taken;
    batch, taken := reader.Poll(Some((1, 7)), true, printed, 2);
    assert taken + reader.pipe == [] + printed == printed;
    BothRead(printed, taken, reader.pipe);
    assert [] + taken == taken;
  }

  lemma BothRead(printed: seq<Line>, taken: seq<Line>, rest: seq<Line>)
    requires |printed| == 2 && printed[0].Entry? && printed[0].cursor == Some(2) && printed[0].record.Some?
    requires printed[1] == NotObject && taken + rest == printed && Reads([], taken, rest, 1, 2)
    ensures taken == printed && Records(taken) == [printed[0].record.value]
  {
    assert !Halts([], printed[0], 1) && [] + [printed[0]][..0] == [];
    assert taken != [printed[0]];
    assert taken == printed;
    hide Records, Cursors, Reads;
    OneRecord(printed);
  }

  lemma OneRecord(lines: seq<Line>)
    requires |lines| == 2 && lines[0].Entry? && lines[0].record.Some? && lines[1] == NotObject
    ensures Records(lines) == [lines[0].record.value]
  {
    assert Records([]) == [] && Cursors([]) == [];
    hide Records, Cursors;
    Appended([], lines[0]);
    Appended([lines[0]], lines[1]);
    assert [] + [lines[0]] == [lines[0]] && [lines[0]] + [lines[1]] == lines;
  }
}
