/**
 * The paged call-log scan: at most five pages are read, and the scan stops as soon as activity is found or nothing
 * younger than the idle threshold can remain.
 */
module CallLogs {
  import opened Numbers
  import opened Wrappers
  import opened Activity
  import opened Routes

  const ROW_PAGES := 5

  /** A call-log row as the server sends it: its path, its trace time (None: unreadable) and the in-memory flag. */
  datatype LogEntry = LogEntry(path: string, stamp: Option<int>, inMemory: bool)

  /** A call-log row with its profiled class. */
  datatype Row = Row(kind: Option<Class>, stamp: Option<int>, inMemory: bool)

  /** What the server answers to one request. */
  datatype Reply<+T> = Answer(value: T) | Refused(reason: Reason) | Garbled

  datatype Scan = Scan(newest: Option<int>, inflight: bool, gap: bool, failure: Option<Reason>)

  const NOTHING := Scan(None, false, false, None)

  function RowOf(routes: seq<Route>, e: LogEntry): Row {
    Row(ClassifyPath(routes, e.path), e.stamp, e.inMemory)
  }

  function RowsOf(routes: seq<Route>, page: seq<LogEntry>): seq<Row> {
    seq(|page|, k requires 0 <= k < |page| => RowOf(routes, page[k]))
  }

  function Classified(routes: seq<Route>, reply: Reply<seq<LogEntry>>): Reply<seq<Row>> {
    match reply
    case Answer(page) => Answer(RowsOf(routes, page))
    case Refused(reason) => Refused(reason)
    case Garbled => Garbled
  }

  function AllClassified(routes: seq<Route>, pages: seq<Reply<seq<LogEntry>>>): (rows: seq<Reply<seq<Row>>>)
    ensures |rows| == |pages|
  {
    seq(|pages|, p requires 0 <= p < |pages| => Classified(routes, pages[p]))
  }

  predicate Client(row: Row) {
    row.kind == Some(Inference)
  }

  /** The trace time the scan trusts: readable and not in the future. */
  function Trusted(row: Row, latest: int): Option<int> {
    if row.stamp.Some? && row.stamp.value <= latest then row.stamp else None
  }

  function OrElse(failure: Option<Reason>, reason: Reason): Option<Reason> {
    if failure.Some? then failure else Some(reason)
  }

  function ScanRow(s: Scan, row: Row, latest: int): Scan {
    var stamp := Trusted(row, latest);
    Scan(
      if Client(row) && stamp.Some? && (s.newest.None? || s.newest.value < stamp.value) then stamp else s.newest,
      s.inflight || (Client(row) && row.inMemory),
      s.gap || row.kind.None?,
      if row.stamp.None? then OrElse(s.failure, Reason.Age)
      else if stamp.None? then OrElse(s.failure, Reason.Clock)
      else s.failure)
  }

  function ScanRows(s: Scan, rows: seq<Row>, latest: int): Scan {
    if rows == [] then s else ScanRow(ScanRows(s, rows[..|rows| - 1], latest), rows[|rows| - 1], latest)
  }

  /** The client activity a scan has found. */
  predicate Active(s: Scan, horizon: int) {
    s.inflight || (s.newest.Some? && s.newest.value > horizon)
  }

  /** After this page nothing more is requested. */
  predicate Stops(s: Scan, page: seq<Row>, limit: nat, horizon: int, latest: int) {
    || Active(s, horizon)
    || |page| < limit
    || (page != [] && var stamp := Trusted(page[|page| - 1], latest); stamp.Some? && stamp.value <= horizon)
  }

  /** The scan from page `p` on. */
  function ScanFrom(pages: seq<Reply<seq<Row>>>, p: nat, limit: nat, horizon: int, latest: int, s: Scan): Reply<Scan>
    requires p <= |pages| == ROW_PAGES
    decreases ROW_PAGES - p
  {
    if p == ROW_PAGES then Answer(s.(failure := OrElse(s.failure, Reason.Age)))
    else match pages[p]
      case Refused(reason) => Refused(reason)
      case Garbled => Garbled
      case Answer(page) =>
        var t := ScanRows(s, page, latest);
        if Stops(t, page, limit, horizon, latest) then Answer(t)
        else ScanFrom(pages, p + 1, limit, horizon, latest, t)
  }

  /** Go through the rows of one page; `stamp` is the trace time of the last one, as far as it can be trusted. */
  method ScanPage(routes: seq<Route>, page: seq<LogEntry>, latest: int, s: Scan) returns (t: Scan, stamp: Option<int>)
    ensures t == ScanRows(s, RowsOf(routes, page), latest)
    ensures stamp == if page == [] then None else Trusted(RowOf(routes, page[|page| - 1]), latest)
  {
    hide ClassifyPath;
    var newest, inflight, gap, failure := s.newest, s.inflight, s.gap, s.failure;
    ghost var rows := RowsOf(routes, page);
    stamp := None;
    for k := 0 to |page|
      invariant Scan(newest, inflight, gap, failure) == ScanRows(s, rows[..k], latest)
      invariant stamp == if k == 0 then None else Trusted(rows[k - 1], latest)
    {
      var entry, kind := page[k], ClassifyPath(routes, page[k].path);
      assert rows[..k + 1][..k] == rows[..k];
      stamp := entry.stamp;
      if stamp.None? {
        failure := OrElse(failure, Reason.Age);
      } else if stamp.value > latest {
        stamp, failure := None, OrElse(failure, Reason.Clock);
      }
      if kind.None? {
        gap := true;
      } else if kind == Some(Inference) {
        inflight := inflight || entry.inMemory;
        if stamp.Some? {
          newest := if newest.None? || newest.value < stamp.value then stamp else newest;
        }
      }
    }
    assert rows[..|rows|] == rows;
    t := Scan(newest, inflight, gap, failure);
  }

  /** The scan as the sampler runs it: `pages[p]` is the answer to the request for page `p`. */
  method ScanCallLogs(routes: seq<Route>, pages: seq<Reply<seq<LogEntry>>>, limit: nat, horizon: int, latest: int)
    returns (r: Reply<Scan>)
    requires |pages| == ROW_PAGES
    ensures r == ScanFrom(AllClassified(routes, pages), 0, limit, horizon, latest, NOTHING)
  {
    hide ClassifyPath, ScanRows, Trusted;
    var s := NOTHING;
    ghost var all := AllClassified(routes, pages);
    for p := 0 to ROW_PAGES
      invariant ScanFrom(all, 0, limit, horizon, latest, NOTHING) == ScanFrom(all, p, limit, horizon, latest, s)
    {
      assert all[p] == Classified(routes, pages[p]);
      if pages[p].Refused? {
        return Refused(pages[p].reason);
      } else if pages[p].Garbled? {
        return Garbled;
      }
      var page, stamp := pages[p].value, None;
      s, stamp := ScanPage(routes, page, latest, s);
      if s.inflight || (s.newest.Some? && s.newest.value > horizon) || |page| < limit {
        return Answer(s);
      }
      if stamp.Some? && stamp.value <= horizon {
        return Answer(s);
      }
    }
    return Answer(s.(failure := OrElse(s.failure, Reason.Age)));
  }

  // ---- what the scan says about the rows it has read ----

  /** The trace time of the row is readable and not in the future. */
  predicate Dated(row: Row, latest: int) {
    row.stamp.Some? && row.stamp.value <= latest
  }

  /** Row `k` is the first one whose trace time proves nothing, and this is why. */
  predicate FirstUndated(rows: seq<Row>, k: nat, latest: int, why: Reason) {
    && k < |rows| && !Dated(rows[k], latest) && (forall j | 0 <= j < k :: Dated(rows[j], latest))
    && why == if rows[k].stamp.None? then Reason.Age else Reason.Clock
  }

  /** The greatest trusted trace time of an inference row. */
  ghost predicate NewestOf(rows: seq<Row>, latest: int, newest: Option<int>) {
    && (newest.Some? ==> exists row :: row in rows && row.kind == Some(Inference) && Dated(row, latest)
                                       && row.stamp == newest)
    && forall row | row in rows && row.kind == Some(Inference) && Dated(row, latest) ::
         newest.Some? && row.stamp.value <= newest.value
  }

  /** What a scan state says about the rows it has gone through. */
  ghost predicate Says(s: Scan, rows: seq<Row>, latest: int) {
    && (s.inflight <==> exists row :: row in rows && row.kind == Some(Inference) && row.inMemory)
    && (s.gap <==> exists row :: row in rows && row.kind.None?)
    && NewestOf(rows, latest, s.newest)
    && (s.failure.None? <==> forall row | row in rows :: Dated(row, latest))
    && (s.failure.Some? ==> exists k: nat :: FirstUndated(rows, k, latest, s.failure.value))
  }

  lemma SaysNext(s: Scan, rows: seq<Row>, row: Row, latest: int)
    requires Says(s, rows, latest)
    ensures Says(ScanRow(s, row, latest), rows + [row], latest)
  {
    var all, next := rows + [row], ScanRow(s, row, latest);
    assert row in all && forall r :: r in all <==> r in rows || r == row;
    hide FirstUndated;
    if next.failure.Some? {
      FirstStays(s, rows, row, latest);
    }
  }

  lemma FirstStays(s: Scan, rows: seq<Row>, row: Row, latest: int)
    requires Says(s, rows, latest) && ScanRow(s, row, latest).failure.Some?
    ensures exists k: nat :: FirstUndated(rows + [row], k, latest, ScanRow(s, row, latest).failure.value)
  {
    var all, next := rows + [row], ScanRow(s, row, latest);
    if s.failure.Some? {
      var k: nat :| FirstUndated(rows, k, latest, s.failure.value);
      assert FirstUndated(all, k, latest, next.failure.value);
    } else {
      assert forall j | 0 <= j < |rows| :: rows[j] in rows && all[j] == rows[j];
      assert FirstUndated(all, |rows|, latest, next.failure.value);
    }
  }

  /**
   * After any rows the state says what they say: an inference row in memory, an unprofiled row, the newest inference
   * trace, and the first trace time that proves nothing.
   */
  lemma {:induction false} ScanRowsSays(s: Scan, before: seq<Row>, rows: seq<Row>, latest: int)
    requires Says(s, before, latest)
    ensures Says(ScanRows(s, rows, latest), before + rows, latest)
  {
    hide Says, ScanRow;
    if rows == [] {
      assert before + rows == before;
    } else {
      var init, last := rows[..|rows| - 1], rows[|rows| - 1];
      ScanRowsSays(s, before, init, latest);
      SaysNext(ScanRows(s, init, latest), before + init, last, latest);
      assert before + rows == before + init + [last];
    }
  }

  /** The rows of the first `n` pages. */
  function ReadRows(pages: seq<Reply<seq<Row>>>, n: nat): seq<Row>
    requires n <= |pages|
  {
    if n == 0 then [] else ReadRows(pages, n - 1) + if pages[n - 1].Answer? then pages[n - 1].value else []
  }

  /** The scan has read `n` pages, and gives up when that are all it may read. */
  ghost predicate ReadTo(pages: seq<Reply<seq<Row>>>, n: nat, latest: int, s: Scan) {
    && n <= |pages| && (forall p | 0 <= p < n :: pages[p].Answer?)
    && exists t :: Says(t, ReadRows(pages, n), latest)
                   && (s == t || (n == ROW_PAGES && s == t.(failure := OrElse(t.failure, Reason.Age))))
  }

  lemma {:induction false} ScanFromSays(pages: seq<Reply<seq<Row>>>, p: nat, limit: nat, horizon: int, latest: int,
                                        s: Scan)
    requires p <= |pages| == ROW_PAGES && (forall q | 0 <= q < p :: pages[q].Answer?)
    requires Says(s, ReadRows(pages, p), latest) && ScanFrom(pages, p, limit, horizon, latest, s).Answer?
    ensures exists n: nat :: ReadTo(pages, n, latest, ScanFrom(pages, p, limit, horizon, latest, s).value)
    decreases ROW_PAGES - p
  {
    hide Says, Stops, ScanRows;
    if p == ROW_PAGES {
      assert ReadTo(pages, p, latest, ScanFrom(pages, p, limit, horizon, latest, s).value);
    } else {
      var t := ScanRows(s, pages[p].value, latest);
      ScanRowsSays(s, ReadRows(pages, p), pages[p].value, latest);
      if Stops(t, pages[p].value, limit, horizon, latest) {
        assert ReadTo(pages, p + 1, latest, t);
      } else {
        ScanFromSays(pages, p + 1, limit, horizon, latest, t);
      }
    }
  }

  /** What a scan answers is what the rows of the pages it read say. */
  lemma ScanSays(pages: seq<Reply<seq<Row>>>, limit: nat, horizon: int, latest: int)
    requires |pages| == ROW_PAGES && ScanFrom(pages, 0, limit, horizon, latest, NOTHING).Answer?
    ensures exists n: nat :: ReadTo(pages, n, latest, ScanFrom(pages, 0, limit, horizon, latest, NOTHING).value)
  {
    assert Says(NOTHING, ReadRows(pages, 0), latest);
    ScanFromSays(pages, 0, limit, horizon, latest, NOTHING);
  }

  // ---- what the scan says about a whole call log ----

  /** A call log: the rows still in memory, and the persisted rows newest first. */
  datatype Log = Log(memory: seq<Row>, disk: seq<Row>)

  ghost predicate WellFormed(log: Log) {
    && (forall row | row in log.disk :: !row.inMemory)
    && (forall i: nat, j: nat | i < j < |log.disk| && log.disk[i].stamp.Some? && log.disk[j].stamp.Some? ::
          log.disk[j].stamp.value <= log.disk[i].stamp.value)
  }

  /** Page `p`: every in-memory row, then the persisted rows at offset `p * limit`. */
  function Page(log: Log, p: nat, limit: nat): seq<Row> {
    log.memory + log.disk[Min(p * limit, |log.disk|)..Min((p + 1) * limit, |log.disk|)]
  }

  /** Somewhere in the whole log a client row is in flight or newer than the horizon. */
  ghost predicate ActiveLog(log: Log, horizon: int) {
    exists row :: row in log.memory + log.disk && Shows(row, horizon)
  }

  predicate Shows(row: Row, horizon: int) {
    Client(row) && (row.inMemory || (row.stamp.Some? && row.stamp.value > horizon))
  }

  /** What a scan state says about the rows it has gone through. */
  ghost predicate Covers(s: Scan, rows: set<Row>, horizon: int, latest: int) {
    && (Active(s, horizon) ==> exists row :: row in rows && Shows(row, horizon))
    && (s.failure.None? && !Active(s, horizon) ==> forall row | row in rows :: !Shows(row, horizon))
    && (s.failure.None? ==> forall row | row in rows :: Trusted(row, latest).Some?)
  }

  function Elements(rows: seq<Row>): set<Row> {
    set row | row in rows
  }

  lemma {:induction false} ScanRowsCovers(s: Scan, seen: set<Row>, rows: seq<Row>, horizon: int, latest: int)
    requires Covers(s, seen, horizon, latest)
    ensures Covers(ScanRows(s, rows, latest), seen + Elements(rows), horizon, latest)
  {
    if rows == [] {
      assert seen + Elements(rows) == seen;
    } else {
      var init, last := rows[..|rows| - 1], rows[|rows| - 1];
      ScanRowsCovers(s, seen, init, horizon, latest);
      assert rows == init + [last];
      assert seen + Elements(rows) == seen + Elements(init) + {last};
    }
  }

  /** The rows of the pages before page `p`. */
  function Paged(log: Log, p: nat, limit: nat): set<Row> {
    if p == 0 then {} else Elements(log.memory) + Elements(log.disk[..Min(p * limit, |log.disk|)])
  }

  lemma PagedGrows(log: Log, p: nat, limit: nat)
    ensures Paged(log, p + 1, limit) == Paged(log, p, limit) + Elements(Page(log, p, limit))
  {
    var a, b := Min(p * limit, |log.disk|), Min((p + 1) * limit, |log.disk|);
    assert (p + 1) * limit == p * limit + limit;
    assert log.disk[..b] == log.disk[..a] + log.disk[a..b];
    if p == 0 { assert a == 0; }
  }

  /** A page that cannot be the last one reaches further into the persisted rows than the one before. */
  lemma PageBounds(size: nat, p: nat, limit: nat) returns (a: nat, b: nat)
    ensures a == Min(p * limit, size) && b == Min((p + 1) * limit, size)
    ensures a <= b <= size && (b - a < limit ==> b == size) && (a == b && limit > 0 ==> b == size)
  {
    a, b := Min(p * limit, size), Min((p + 1) * limit, size);
    assert (p + 1) * limit == p * limit + limit;
  }

  /** A scan that stops at page `p` without activity has left nothing active behind it. */
  lemma StopLeavesNothing(log: Log, s: Scan, p: nat, limit: nat, horizon: int, latest: int)
    requires WellFormed(log) && s.failure.None? && !Active(s, horizon) && limit > 0
    requires Covers(s, Paged(log, p + 1, limit), horizon, latest)
    requires Stops(s, Page(log, p, limit), limit, horizon, latest)
    ensures !ActiveLog(log, horizon)
  {
    var page := Page(log, p, limit);
    var a, b := PageBounds(|log.disk|, p, limit);
    assert Elements(log.disk[..b]) <= Paged(log, p + 1, limit);
    forall j: nat | b <= j < |log.disk| ensures !Shows(log.disk[j], horizon) {
      assert page[|page| - 1] == log.disk[b - 1];
      assert log.disk[j] in log.disk;
    }
    forall row | row in log.memory + log.disk ensures !Shows(row, horizon) {
      if row in log.disk {
        var j: nat :| j < |log.disk| && log.disk[j] == row;
        assert j < b ==> log.disk[..b][j] == row;
      }
    }
  }

  /**
   * For every call log that keeps the page contract, a scan with no gap and no failure answers the question "is a
   * client row in flight or newer than the horizon" as the whole log does; and activity it reports is always there.
   */
  lemma {:induction false} ScanAnswersWholeLog(log: Log, pages: seq<Reply<seq<Row>>>, p: nat, limit: nat,
                                               horizon: int, latest: int, s: Scan)
    requires p <= |pages| == ROW_PAGES && WellFormed(log) && limit > 0
    requires forall q: nat | p <= q < ROW_PAGES :: pages[q] == Answer(Page(log, q, limit))
    requires Covers(s, Paged(log, p, limit), horizon, latest) && !Active(s, horizon)
    ensures var r := ScanFrom(pages, p, limit, horizon, latest, s);
      && r.Answer?
      && (Active(r.value, horizon) ==> ActiveLog(log, horizon))
      && (r.value.failure.None? ==> (Active(r.value, horizon) <==> ActiveLog(log, horizon)))
    decreases ROW_PAGES - p
  {
    if p < ROW_PAGES {
      var page := Page(log, p, limit);
      var t := ScanRows(s, page, latest);
      ScanRowsCovers(s, Paged(log, p, limit), page, horizon, latest);
      PagedGrows(log, p, limit);
      if Active(t, horizon) {
        var row :| row in Paged(log, p + 1, limit) && Shows(row, horizon);
        assert row in log.memory + log.disk;
      } else if Stops(t, page, limit, horizon, latest) {
        if t.failure.None? { StopLeavesNothing(log, t, p, limit, horizon, latest); }
      } else {
        ScanAnswersWholeLog(log, pages, p + 1, limit, horizon, latest, t);
      }
    }
  }

  lemma ScanIsExact(log: Log, pages: seq<Reply<seq<Row>>>, limit: nat, horizon: int, latest: int)
    requires |pages| == ROW_PAGES && WellFormed(log) && limit > 0
    requires forall q: nat | q < ROW_PAGES :: pages[q] == Answer(Page(log, q, limit))
    ensures var r := ScanFrom(pages, 0, limit, horizon, latest, NOTHING);
      && r.Answer?
      && (Active(r.value, horizon) ==> ActiveLog(log, horizon))
      && (r.value.failure.None? ==> (Active(r.value, horizon) <==> ActiveLog(log, horizon)))
  {
    ScanAnswersWholeLog(log, pages, 0, limit, horizon, latest, NOTHING);
  }

  // ---- when a scan is conclusive ----

  /**
   * Page `p` settles the question: all trace times up to it can be trusted, and some row shows activity, or the page is
   * short, or its last row is no younger than the horizon.
   */
  ghost predicate Settles(log: Log, p: nat, limit: nat, horizon: int, latest: int) {
    var page := Page(log, p, limit);
    && (forall row | row in Paged(log, p + 1, limit) :: Dated(row, latest))
    && (|| (exists row :: row in Paged(log, p + 1, limit) && Shows(row, horizon))
        || |page| < limit
        || (page != [] && page[|page| - 1].stamp.Some? && page[|page| - 1].stamp.value <= horizon))
  }

  lemma {:induction false} ScanRowsFails(s: Scan, rows: seq<Row>, latest: int)
    ensures ScanRows(s, rows, latest).failure.None?
            <==> s.failure.None? && forall row | row in rows :: Dated(row, latest)
  {
    if rows != [] {
      var init, last := rows[..|rows| - 1], rows[|rows| - 1];
      ScanRowsFails(s, init, latest);
      assert rows == init + [last];
      assert forall row :: row in rows <==> row in init || row == last;
      var t := ScanRows(s, init, latest);
      assert ScanRows(s, rows, latest).failure.None? <==> t.failure.None? && Dated(last, latest);
    }
  }

  lemma PagedMonotone(log: Log, p: nat, q: nat, limit: nat)
    requires p <= q
    ensures Paged(log, p, limit) <= Paged(log, q, limit)
    decreases q
  {
    if p < q {
      PagedMonotone(log, p, q - 1, limit);
      PagedGrows(log, q - 1, limit);
    }
  }

  /** Of a page that all can be trusted up to, the scan stops there exactly when the page settles the question. */
  lemma StopsIffSettles(log: Log, t: Scan, p: nat, limit: nat, horizon: int, latest: int)
    requires Covers(t, Paged(log, p + 1, limit), horizon, latest) && t.failure.None?
    ensures Stops(t, Page(log, p, limit), limit, horizon, latest) <==> Settles(log, p, limit, horizon, latest)
  {
    PagedGrows(log, p, limit);
    var page := Page(log, p, limit);
    assert page != [] ==> page[|page| - 1] in Elements(page);
  }

  lemma {:induction false} ScanFromConcludes(log: Log, pages: seq<Reply<seq<Row>>>, p: nat, limit: nat, horizon: int,
                                             latest: int, s: Scan)
    requires p <= |pages| == ROW_PAGES
    requires forall q: nat | p <= q < ROW_PAGES :: pages[q] == Answer(Page(log, q, limit))
    requires Covers(s, Paged(log, p, limit), horizon, latest)
    requires s.failure.None? <==> forall row | row in Paged(log, p, limit) :: Dated(row, latest)
    ensures var r := ScanFrom(pages, p, limit, horizon, latest, s);
            r.Answer? && (r.value.failure.None?
                          <==> exists q: nat :: p <= q < ROW_PAGES && Settles(log, q, limit, horizon, latest))
    decreases ROW_PAGES - p
  {
    hide Settles, Stops, Covers, Shows;
    if p < ROW_PAGES {
      var t := ScanRows(s, Page(log, p, limit), latest);
      ScanRowsCovers(s, Paged(log, p, limit), Page(log, p, limit), horizon, latest);
      ScanRowsFails(s, Page(log, p, limit), latest);
      PagedGrows(log, p, limit);
      if t.failure.None? {
        StopsIffSettles(log, t, p, limit, horizon, latest);
      } else {
        forall q: nat | p <= q ensures !Settles(log, q, limit, horizon, latest) {
          Unsettled(log, p, q, limit, horizon, latest);
        }
      }
      if !Stops(t, Page(log, p, limit), limit, horizon, latest) {
        ScanFromConcludes(log, pages, p + 1, limit, horizon, latest, t);
      }
    }
  }

  lemma Unsettled(log: Log, p: nat, q: nat, limit: nat, horizon: int, latest: int)
    requires p <= q && exists row :: row in Paged(log, p + 1, limit) && !Dated(row, latest)
    ensures !Settles(log, q, limit, horizon, latest)
  {
    PagedMonotone(log, p + 1, q + 1, limit);
  }

  /** A scan of a call log ends without a failure exactly when one of the pages it may read settles the question. */
  lemma ScanConcludes(log: Log, pages: seq<Reply<seq<Row>>>, limit: nat, horizon: int, latest: int)
    requires |pages| == ROW_PAGES
    requires forall q: nat | q < ROW_PAGES :: pages[q] == Answer(Page(log, q, limit))
    ensures var r := ScanFrom(pages, 0, limit, horizon, latest, NOTHING);
            r.Answer? && (r.value.failure.None?
                          <==> exists p: nat :: p < ROW_PAGES && Settles(log, p, limit, horizon, latest))
  {
    hide Settles;
    ScanFromConcludes(log, pages, 0, limit, horizon, latest, NOTHING);
  }
}
