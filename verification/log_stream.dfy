/** The websocket that streams a run's log rows: a cursor-driven poller against a table that keeps
    growing, a status that keeps changing, and a run that may stop being found. */
module LogStream {
  import opened Text
  import opened Sorting
  import opened CrawlLifecycle

  const LIMIT := 500
  const MISS_LIMIT := 3

  datatype LogRow = LogRow(id: int, createdAt: int)

  datatype Close = Completed1000 | Unavailable1011

  /** The table's rows in the order they became visible, and the run. */
  datatype Db = Db(rows: seq<LogRow>, status: CrawlStatus, found: bool)

  datatype Stream = Stream(
    cursor: Option<int>, status: CrawlStatus, misses: nat, sent: seq<LogRow>, closed: Option<Close>)

  predicate IsAbove(row: LogRow, cursor: Option<int>) {
    cursor.None? || row.id > cursor.value
  }

  function Above(rows: seq<LogRow>, cursor: Option<int>): seq<LogRow> {
    if rows == [] then []
    else
      var before, last := Above(rows[..|rows| - 1], cursor), rows[|rows| - 1];
      if IsAbove(last, cursor) then before + [last] else before
  }

  function ByCreation(row: LogRow): Rank {
    Rank(row.createdAt, row.id, 0)
  }

  function Take(rows: seq<LogRow>, n: nat): seq<LogRow> {
    if |rows| <= n then rows else rows[..n]
  }

  /** `load_log_stream_snapshot`: rows past the cursor by creation time then id, at most `LIMIT`. */
  function SnapshotRows(db: Db, cursor: Option<int>): seq<LogRow> {
    if db.found then Take(Sorted(Above(db.rows, cursor), ByCreation), LIMIT) else []
  }

  function SnapshotStatus(db: Db): Option<CrawlStatus> {
    if db.found then Some(db.status) else None
  }

  /** One turn of the loop. */
  function Poll(s: Stream, rows: seq<LogRow>, next: Option<CrawlStatus>): Stream {
    var cursor := if rows == [] then s.cursor else Some(rows[|rows| - 1].id);
    var misses := if next.None? then s.misses + 1 else 0;
    var status := if next.None? then s.status else next.value;
    var closed := if misses >= MISS_LIMIT then Some(Unavailable1011)
                  else if Terminal(status) && rows == [] then Some(Completed1000)
                  else None;
    Stream(cursor, status, misses, s.sent + rows, closed)
  }

  class LogSocket {
    var cursor: Option<int>
    var status: CrawlStatus
    var misses: nat
    var sent: seq<LogRow>
    var closed: Option<Close>

    ghost function State(): Stream
      reads this
    {
      Stream(cursor, status, misses, sent, closed)
    }

    constructor (afterId: Option<int>, status: CrawlStatus)
      ensures State() == Stream(afterId, status, 0, [], None)
    {
      cursor, this.status, misses, sent, closed := afterId, status, 0, [], None;
    }

    /** One turn as it runs: rows go out one by one, each moving the cursor. */
    method Turn(rows: seq<LogRow>, next: Option<CrawlStatus>)
      requires closed.None?
      modifies this
      ensures State() == Poll(old(State()), rows, next)
    {
      for i := 0 to |rows|
        invariant status == old(status) && misses == old(misses) && closed.None?
        invariant sent == old(sent) + rows[..i]
        invariant cursor == if i == 0 then old(cursor) else Some(rows[i - 1].id)
      {
        sent := sent + [rows[i]];
        cursor := Some(rows[i].id);
      }
      assert rows[..|rows|] == rows;
      if next.None? {
        misses := misses + 1;
        if misses >= MISS_LIMIT {
          closed := Some(Unavailable1011);
          return;
        }
      } else {
        misses := 0;
        status := next.value;
      }
      if Terminal(status) && rows == [] {
        closed := Some(Completed1000);
      }
    }
  }

  // ---------------------------------------------------------------- any interleaving

  datatype Action = Append(row: LogRow) | SetStatus(status: CrawlStatus) | Vanish | Reappear | DoPoll

  datatype System = System(db: Db, stream: Stream)

  /** Rows become visible in id order. */
  predicate Enabled(s: System, a: Action) {
    match a
    case Append(row) => s.db.rows == [] || row.id > s.db.rows[|s.db.rows| - 1].id
    case DoPoll => s.stream.closed.None?
    case _ => true
  }

  function Apply(s: System, a: Action): System {
    match a
    case Append(row) => s.(db := s.db.(rows := s.db.rows + [row]))
    case SetStatus(status) => s.(db := s.db.(status := status))
    case Vanish => s.(db := s.db.(found := false))
    case Reappear => s.(db := s.db.(found := true))
    case DoPoll =>
      s.(stream := Poll(s.stream, SnapshotRows(s.db, s.stream.cursor), SnapshotStatus(s.db)))
  }

  /** All that has happened since the socket opened with `afterId` and the run it was shown. */
  datatype History = Open(afterId: Option<int>, known: CrawlStatus, db: Db) | Then(before: History, action: Action)

  ghost predicate IdsInOrder(rows: seq<LogRow>) {
    forall i, j :: 0 <= i < j < |rows| ==> rows[i].id < rows[j].id
  }

  /** No row was created before an earlier one. */
  ghost predicate CreatedInOrder(rows: seq<LogRow>) {
    forall i, j :: 0 <= i < j < |rows| ==> rows[i].createdAt <= rows[j].createdAt
  }

  /** None of the first 500 rows was created after a later one. */
  ghost predicate HeadInOrder(rows: seq<LogRow>) {
    forall i, j :: 0 <= i < j < |rows| && i < 500 ==> rows[i].createdAt <= rows[j].createdAt
  }

  ghost predicate Possible(h: History)
    decreases h, 0
  {
    match h
    case Open(_, _, db) => IdsInOrder(db.rows)
    case Then(b, a) => Possible(b) && Enabled(After(b), a)
  }

  ghost function After(h: History): System
    requires Possible(h)
    decreases h, 1
  {
    match h
    case Open(afterId, known, db) => System(db, Stream(afterId, known, 0, [], None))
    case Then(b, a) => Apply(After(b), a)
  }

  function AfterId(h: History): Option<int> {
    match h
    case Open(afterId, _, _) => afterId
    case Then(b, _) => AfterId(b)
  }

  ghost function Pending(s: System): seq<LogRow> {
    Above(s.db.rows, s.stream.cursor)
  }

  /** Every poll that found the run met pending rows whose head was created in order. */
  ghost predicate PollsInOrder(h: History)
    requires Possible(h)
  {
    h.Then? ==>
      && PollsInOrder(h.before)
      && (h.action.DoPoll? && After(h.before).db.found ==> HeadInOrder(Pending(After(h.before))))
  }

  // ---------------------------------------------------------------- rows above a cursor

  lemma {:induction false} AboveMembers(rows: seq<LogRow>, cursor: Option<int>)
    ensures forall x :: x in Above(rows, cursor) <==> x in rows && IsAbove(x, cursor)
  {
    if rows != [] {
      AboveMembers(rows[..|rows| - 1], cursor);
      assert rows == rows[..|rows| - 1] + [rows[|rows| - 1]];
    }
  }

  lemma {:induction false} AboveIds(rows: seq<LogRow>, cursor: Option<int>)
    requires IdsInOrder(rows)
    ensures IdsInOrder(Above(rows, cursor))
  {
    if rows != [] {
      var before, last := rows[..|rows| - 1], rows[|rows| - 1];
      AboveIds(before, cursor);
      AboveMembers(before, cursor);
      assert forall x :: x in before ==> x.id < last.id;
      assert forall x :: x in Above(before, cursor) ==> x.id < last.id;
    }
  }

  lemma {:induction false} AboveCreated(rows: seq<LogRow>, cursor: Option<int>)
    requires CreatedInOrder(rows)
    ensures CreatedInOrder(Above(rows, cursor))
  {
    if rows != [] {
      var before, last := rows[..|rows| - 1], rows[|rows| - 1];
      AboveCreated(before, cursor);
      AboveMembers(before, cursor);
      assert forall x :: x in before ==> x.createdAt <= last.createdAt;
      assert forall x :: x in Above(before, cursor) ==> x.createdAt <= last.createdAt;
    }
  }

  lemma {:induction false} AboveTwice(rows: seq<LogRow>, cursor: Option<int>, id: int)
    requires cursor.None? || cursor.value <= id
    ensures Above(Above(rows, cursor), Some(id)) == Above(rows, Some(id))
  {
    if rows != [] {
      var before := Above(rows[..|rows| - 1], cursor);
      AboveTwice(rows[..|rows| - 1], cursor, id);
      assert (before + [rows[|rows| - 1]])[..|before|] == before;
    }
  }

  lemma {:induction false} AboveCut(rows: seq<LogRow>, n: nat)
    requires IdsInOrder(rows) && 0 < n <= |rows|
    ensures Above(rows, Some(rows[n - 1].id)) == rows[n..]
  {
    var k := |rows| - 1;
    if n == |rows| {
      NothingAbove(rows, rows[k].id);
    } else {
      AboveCut(rows[..k], n);
      assert rows[n..] == rows[..k][n..] + [rows[k]];
    }
  }

  lemma {:induction false} NothingAbove(rows: seq<LogRow>, id: int)
    requires forall i :: 0 <= i < |rows| ==> rows[i].id <= id
    ensures Above(rows, Some(id)) == []
  {
    if rows != [] {
      NothingAbove(rows[..|rows| - 1], id);
    }
  }

  /** Moving the cursor to a row of the pending ones leaves exactly the rows behind it. */
  lemma CursorMoves(rows: seq<LogRow>, cursor: Option<int>, n: nat)
    requires IdsInOrder(rows) && 0 < n <= |Above(rows, cursor)|
    ensures Above(rows, Some(Above(rows, cursor)[n - 1].id)) == Above(rows, cursor)[n..]
  {
    var pending := Above(rows, cursor);
    AboveMembers(rows, cursor);
    AboveIds(rows, cursor);
    assert pending[n - 1] in pending;
    AboveTwice(rows, cursor, pending[n - 1].id);
    AboveCut(pending, n);
  }

  lemma AboveAppend(rows: seq<LogRow>, row: LogRow, cursor: Option<int>)
    ensures Above(rows + [row], cursor) == Above(rows, cursor) + if IsAbove(row, cursor) then [row] else []
  {
    assert (rows + [row])[..|rows|] == rows;
  }

  // ---------------------------------------------------------------- when a snapshot is in order

  lemma SortedSize(rows: seq<LogRow>)
    ensures |Sorted(rows, ByCreation)| == |rows|
  {
    SortedIsOrdered(rows, ByCreation);
    assert |multiset(Sorted(rows, ByCreation))| == |multiset(rows)|;
  }

  /** A row created no later than any of the others goes in front of them. */
  lemma FirstStays(first: LogRow, rest: seq<LogRow>)
    requires forall i :: 0 <= i < |rest| ==> first.createdAt <= rest[i].createdAt && first.id < rest[i].id
    ensures Insert(first, Sorted(rest, ByCreation), ByCreation) == [first] + Sorted(rest, ByCreation)
  {
    var sorted := Sorted(rest, ByCreation);
    SortedIsOrdered(rest, ByCreation);
    if sorted != [] {
      assert sorted[0] in multiset(sorted);
      assert sorted[0] in rest;
    }
  }

  /** The first `n` rows stay in front when none of them was created after a later one. */
  lemma {:induction false} HeadStays(rows: seq<LogRow>, n: nat)
    requires IdsInOrder(rows) && n <= |rows|
    requires forall i, j :: 0 <= i < j < |rows| && i < n ==> rows[i].createdAt <= rows[j].createdAt
    ensures |Sorted(rows, ByCreation)| == |rows| && Sorted(rows, ByCreation)[..n] == rows[..n]
  {
    SortedSize(rows);
    if n > 0 {
      HeadStays(rows[1..], n - 1);
      FirstStays(rows[0], rows[1..]);
      assert rows == [rows[0]] + rows[1..];
    }
  }

  lemma SameTail(head: seq<LogRow>, a: seq<LogRow>, b: seq<LogRow>)
    requires multiset(head + a) == multiset(head + b)
    ensures multiset(a) == multiset(b)
  {
    assert multiset(head + a) == multiset(head) + multiset(a);
    assert multiset(head + b) == multiset(head) + multiset(b);
    assert multiset(a) == multiset(head + a) - multiset(head);
  }

  /** Sorted rows that start like the rows themselves show that their head was created in order. */
  lemma StaysHead(rows: seq<LogRow>, sorted: seq<LogRow>, n: nat)
    requires IdsInOrder(rows) && n <= |rows| && |sorted| == |rows| && multiset(sorted) == multiset(rows)
    requires Ordered(sorted, ByCreation) && sorted[..n] == rows[..n]
    ensures forall i, j :: 0 <= i < j < |rows| && i < n ==> rows[i].createdAt <= rows[j].createdAt
  {
    assert sorted == rows[..n] + sorted[n..] && rows == rows[..n] + rows[n..];
    SameTail(rows[..n], sorted[n..], rows[n..]);
    forall i, j | 0 <= i < j < |rows| && i < n
      ensures rows[i].createdAt <= rows[j].createdAt
    {
      assert sorted[..n][i] == rows[..n][i];
      if j < n {
        assert sorted[..n][j] == rows[..n][j];
      } else {
        assert rows[n..][j - n] in multiset(rows[n..]);
        assert rows[j] in multiset(sorted[n..]);
        var k :| 0 <= k < |sorted[n..]| && sorted[n..][k] == rows[j];
        assert sorted[n + k] == rows[j];
      }
    }
  }

  function Fewer(n: nat, m: nat): nat {
    if n < m then n else m
  }

  /** A snapshot is a prefix of the pending rows exactly when their head was created in order. */
  lemma SnapshotInOrderExactly(db: Db, cursor: Option<int>)
    requires IdsInOrder(db.rows) && db.found
    ensures var pending, rows := Above(db.rows, cursor), SnapshotRows(db, cursor);
            && |rows| == Fewer(|pending|, LIMIT)
            && (rows <= pending <==> HeadInOrder(pending))
  {
    AboveIds(db.rows, cursor);
    SnapshotOfPending(Above(db.rows, cursor));
  }

  lemma SnapshotOfPending(pending: seq<LogRow>)
    requires IdsInOrder(pending)
    ensures var rows := Take(Sorted(pending, ByCreation), LIMIT);
            |rows| == Fewer(|pending|, LIMIT) && (rows <= pending <==> HeadInOrder(pending))
  {
    var sorted, n := Sorted(pending, ByCreation), Fewer(|pending|, LIMIT);
    SortedIsOrdered(pending, ByCreation);
    SortedSize(pending);
    var rows := Take(sorted, LIMIT);
    assert rows == sorted[..n];
    if HeadInOrder(pending) {
      HeadStays(pending, n);
    }
    if rows <= pending {
      assert sorted[..n] == pending[..n];
      StaysHead(pending, sorted, n);
    }
  }

  // ---------------------------------------------------------------- what is sent

  /** Sent rows and pending rows together are the run's rows after `afterId`, in order. */
  ghost predicate Conserved(db: Db, s: Stream, afterId: Option<int>) {
    Above(db.rows, afterId) == s.sent + Above(db.rows, s.cursor)
  }

  /** The cursor stands at the last row sent. */
  ghost predicate CursorAtLast(s: Stream, afterId: Option<int>) {
    if s.sent == [] then s.cursor == afterId else s.cursor == Some(s.sent[|s.sent| - 1].id)
  }

  ghost predicate Sane(db: Db, s: Stream, afterId: Option<int>) {
    && IdsInOrder(db.rows) && CursorAtLast(s, afterId)
    && (forall x :: x in s.sent ==> x in db.rows && IsAbove(x, afterId))
  }

  lemma SnapshotIsPending(db: Db, cursor: Option<int>, x: LogRow)
    requires x in SnapshotRows(db, cursor)
    ensures x in db.rows && IsAbove(x, cursor)
  {
    var pending := Above(db.rows, cursor);
    AboveMembers(db.rows, cursor);
    SortedIsOrdered(pending, ByCreation);
    assert x in Sorted(pending, ByCreation);
    assert x in multiset(Sorted(pending, ByCreation));
  }

  /** Whatever the creation times, only rows of the run are sent and the cursor is at the last. */
  lemma {:induction false} AlwaysSane(h: History)
    requires Possible(h)
    ensures Sane(After(h).db, After(h).stream, AfterId(h))
  {
    if h.Then? {
      AlwaysSane(h.before);
      var s := After(h.before);
      match h.action
      case DoPoll => PollStaysSane(s.db, s.stream, AfterId(h));
      case Append(row) => AppendStaysSane(s.db, s.stream, AfterId(h), row);
      case _ =>
    }
  }

  lemma AppendStaysSane(db: Db, s: Stream, afterId: Option<int>, row: LogRow)
    requires Sane(db, s, afterId) && Enabled(System(db, s), Append(row))
    ensures Sane(db.(rows := db.rows + [row]), s, afterId)
  {
  }

  lemma PollStaysSane(db: Db, s: Stream, afterId: Option<int>)
    requires Sane(db, s, afterId)
    ensures Sane(db, Poll(s, SnapshotRows(db, s.cursor), SnapshotStatus(db)), afterId)
  {
    var rows := SnapshotRows(db, s.cursor);
    forall x | x in s.sent + rows
      ensures x in db.rows && IsAbove(x, afterId)
    {
      if x !in s.sent {
        SnapshotIsPending(db, s.cursor, x);
        if s.sent != [] {
          assert s.sent[|s.sent| - 1] in s.sent;
        }
      }
    }
  }

  /** Sending rows keeps the account straight exactly when they are the first of the pending ones. */
  lemma SendingConservesExactly(db: Db, s: Stream, afterId: Option<int>, rows: seq<LogRow>, next: Option<CrawlStatus>)
    requires IdsInOrder(db.rows) && Conserved(db, s, afterId) && |rows| <= |Above(db.rows, s.cursor)|
    ensures Conserved(db, Poll(s, rows, next), afterId) <==> rows <= Above(db.rows, s.cursor)
    ensures !(rows <= Above(db.rows, s.cursor)) ==> !(s.sent + rows <= Above(db.rows, afterId))
  {
    var pending, all := Above(db.rows, s.cursor), Above(db.rows, afterId);
    if rows <= pending {
      if rows != [] {
        CursorMoves(db.rows, s.cursor, |rows|);
        assert s.sent + pending == s.sent + rows + pending[|rows|..];
      } else {
        assert s.sent + rows == s.sent;
      }
    } else {
      var i :| 0 <= i < |rows| && rows[i] != pending[i];
      assert (s.sent + rows)[|s.sent| + i] == rows[i] && all[|s.sent| + i] == pending[i];
    }
  }

  /** A new row is past the cursor exactly when it is past where the stream began. */
  lemma NewRowAbove(db: Db, s: Stream, afterId: Option<int>, row: LogRow)
    requires Sane(db, s, afterId) && forall x :: x in db.rows ==> x.id < row.id
    ensures IsAbove(row, s.cursor) <==> IsAbove(row, afterId)
  {
    if s.sent != [] {
      assert s.sent[|s.sent| - 1] in s.sent;
    }
  }

  lemma AppendConserves(db: Db, s: Stream, afterId: Option<int>, row: LogRow)
    requires Sane(db, s, afterId) && Enabled(System(db, s), Append(row)) && Conserved(db, s, afterId)
    ensures Conserved(db.(rows := db.rows + [row]), s, afterId)
  {
    NewRowAbove(db, s, afterId, row);
    AboveAppend(db.rows, row, afterId);
    AboveAppend(db.rows, row, s.cursor);
  }

  /** What the account looks like once it has gone wrong: some row sent is not the one due, and
      never will be. */
  ghost predicate Spoiled(db: Db, s: Stream, afterId: Option<int>) {
    exists i :: Misplaced(Above(db.rows, afterId), s.sent, i)
  }

  predicate Misplaced(all: seq<LogRow>, sent: seq<LogRow>, i: int) {
    0 <= i < |sent| && i < |all| && sent[i] != all[i]
  }

  lemma PollSpoils(db: Db, s: Stream, afterId: Option<int>)
    requires IdsInOrder(db.rows) && Conserved(db, s, afterId)
    ensures var next := Poll(s, SnapshotRows(db, s.cursor), SnapshotStatus(db));
            if db.found ==> HeadInOrder(Above(db.rows, s.cursor)) then Conserved(db, next, afterId)
            else Spoiled(db, next, afterId)
  {
    var rows, pending, all := SnapshotRows(db, s.cursor), Above(db.rows, s.cursor), Above(db.rows, afterId);
    if db.found {
      SnapshotInOrderExactly(db, s.cursor);
    }
    SendingConservesExactly(db, s, afterId, rows, SnapshotStatus(db));
    if !(rows <= pending) {
      var i :| 0 <= i < |rows| && rows[i] != pending[i];
      assert (s.sent + rows)[|s.sent| + i] == rows[i] && all[|s.sent| + i] == pending[i];
      assert Misplaced(all, s.sent + rows, |s.sent| + i);
    }
  }

  lemma StaysMisplaced(all: seq<LogRow>, sent: seq<LogRow>, all': seq<LogRow>, sent': seq<LogRow>, i: int)
    requires Misplaced(all, sent, i) && all <= all' && sent <= sent'
    ensures Misplaced(all', sent', i)
  {
  }

  lemma SpoiledStays(s: System, a: Action, afterId: Option<int>)
    requires Sane(s.db, s.stream, afterId) && Enabled(s, a) && Spoiled(s.db, s.stream, afterId)
    ensures Spoiled(Apply(s, a).db, Apply(s, a).stream, afterId)
  {
    var s' := Apply(s, a);
    var all, all' := Above(s.db.rows, afterId), Above(s'.db.rows, afterId);
    var i :| Misplaced(all, s.stream.sent, i);
    if a.Append? {
      AboveAppend(s.db.rows, a.row, afterId);
    }
    StaysMisplaced(all, s.stream.sent, all', s'.stream.sent, i);
  }

  /** Over every interleaving the account is straight as long as the polls met rows created in
      order, and spoiled for good after the first that did not. */
  lemma {:induction false} AccountExactly(h: History)
    requires Possible(h)
    ensures PollsInOrder(h) ==> Conserved(After(h).db, After(h).stream, AfterId(h))
    ensures !PollsInOrder(h) ==> Spoiled(After(h).db, After(h).stream, AfterId(h))
  {
    match h
    case Open(afterId, known, db) =>
      assert [] + Above(db.rows, afterId) == Above(db.rows, afterId);
    case Then(b, a) =>
      AccountExactly(b);
      AlwaysSane(b);
      var s := After(b);
      if !PollsInOrder(b) {
        SpoiledStays(s, a, AfterId(h));
      } else if a.DoPoll? {
        PollSpoils(s.db, s.stream, AfterId(h));
      } else if a.Append? {
        AppendConserves(s.db, s.stream, AfterId(h), a.row);
      }
  }

  /** At every instant of every interleaving, sent and pending rows are the run's rows in order
      exactly when every poll so far met pending rows whose head was created in order. */
  lemma {:induction false} ConservedExactly(h: History)
    requires Possible(h)
    ensures Conserved(After(h).db, After(h).stream, AfterId(h)) <==> PollsInOrder(h)
  {
    AccountExactly(h);
  }

  /** Rows created in order never spoil a poll. */
  lemma {:induction false} InOrderNeverSpoils(h: History)
    requires Possible(h) && CreatedInOrder(After(h).db.rows)
    ensures PollsInOrder(h)
  {
    if h.Then? {
      var s := After(h.before);
      assert s.db.rows <= After(h).db.rows;
      assert CreatedInOrder(s.db.rows) by {
        assert forall i :: 0 <= i < |s.db.rows| ==> s.db.rows[i] == After(h).db.rows[i];
      }
      InOrderNeverSpoils(h.before);
      AboveCreated(s.db.rows, s.stream.cursor);
    }
  }

  /** Ids sent strictly increase and are exactly the run's rows above `afterId` up to the cursor. */
  ghost predicate SentIsRange(db: Db, s: Stream, afterId: Option<int>) {
    && IdsInOrder(s.sent)
    && (forall row :: row in s.sent <==> InRange(db, s, afterId, row))
  }

  ghost predicate InRange(db: Db, s: Stream, afterId: Option<int>, row: LogRow) {
    row in db.rows && IsAbove(row, afterId) && s.cursor.Some? && row.id <= s.cursor.value
  }

  lemma ConservedRow(db: Db, s: Stream, afterId: Option<int>, row: LogRow)
    requires Sane(db, s, afterId) && Conserved(db, s, afterId) && IdsInOrder(s.sent)
    ensures row in s.sent <==> InRange(db, s, afterId, row)
  {
    AboveMembers(db.rows, afterId);
    AboveMembers(db.rows, s.cursor);
    assert row in Above(db.rows, afterId) <==> row in s.sent || row in Above(db.rows, s.cursor);
  }

  lemma ConservedIsRange(db: Db, s: Stream, afterId: Option<int>)
    requires Sane(db, s, afterId) && Conserved(db, s, afterId)
    ensures SentIsRange(db, s, afterId)
  {
    AboveIds(db.rows, afterId);
    assert forall i :: 0 <= i < |s.sent| ==> s.sent[i] == Above(db.rows, afterId)[i];
    forall row
      ensures row in s.sent <==> InRange(db, s, afterId, row)
    {
      ConservedRow(db, s, afterId, row);
    }
  }

  /** Two rising lists that agree on membership up to a bound start alike. */
  lemma SameFirst(a: seq<LogRow>, b: seq<LogRow>, bound: int)
    requires IdsInOrder(a) && IdsInOrder(b) && a != []
    requires forall x :: x in a <==> x in b && x.id <= bound
    ensures b != [] && a[0] == b[0]
  {
    assert a[0] in a;
    assert b[0] in b;
    var i :| 0 <= i < |b| && b[i] == a[0];
    assert b[0].id <= a[0].id;
    var j :| 0 <= j < |a| && a[j] == b[0];
  }

  lemma {:induction false} SameRange(a: seq<LogRow>, b: seq<LogRow>, bound: int)
    requires IdsInOrder(a) && IdsInOrder(b)
    requires forall x :: x in a <==> x in b && x.id <= bound
    ensures a <= b
  {
    if a != [] {
      SameFirst(a, b, bound);
      forall x
        ensures x in a[1..] <==> x in b[1..] && x.id <= bound
      {
      }
      SameRange(a[1..], b[1..], bound);
      assert a == [a[0]] + a[1..] && b == [b[0]] + b[1..];
    }
  }

  lemma RangeNotSpoiled(db: Db, s: Stream, afterId: Option<int>)
    requires Sane(db, s, afterId) && SentIsRange(db, s, afterId)
    ensures !Spoiled(db, s, afterId)
  {
    if s.sent != [] {
      var all, bound := Above(db.rows, afterId), s.sent[|s.sent| - 1].id;
      AboveMembers(db.rows, afterId);
      AboveIds(db.rows, afterId);
      forall x
        ensures x in s.sent <==> x in all && x.id <= bound
      {
        assert x in s.sent <==> InRange(db, s, afterId, x);
      }
      SameRange(s.sent, all, bound);
    }
  }

  /** For any interleaving of appends, status changes and polls: the ids sent strictly increase and
      are exactly the run's rows with an id above `afterId` and up to the cursor, exactly when every
      poll met pending rows whose head was created in order. */
  lemma {:induction false} SentExactly(h: History)
    requires Possible(h)
    ensures SentIsRange(After(h).db, After(h).stream, AfterId(h)) <==> PollsInOrder(h)
    ensures CreatedInOrder(After(h).db.rows) ==> PollsInOrder(h)
  {
    var db, s := After(h).db, After(h).stream;
    AlwaysSane(h);
    AccountExactly(h);
    if PollsInOrder(h) {
      ConservedIsRange(db, s, AfterId(h));
    } else if SentIsRange(db, s, AfterId(h)) {
      RangeNotSpoiled(db, s, AfterId(h));
    }
    if CreatedInOrder(db.rows) {
      InOrderNeverSpoils(h);
    }
  }

  // ---------------------------------------------------------------- when the socket closes

  /** Polls in a row, up to now, that did not find the run. */
  ghost function MissRun(h: History): nat
    requires Possible(h)
  {
    match h
    case Open(_, _, _) => 0
    case Then(b, a) => if !a.DoPoll? then MissRun(b) else if After(b).db.found then 0 else MissRun(b) + 1
  }

  lemma {:induction false} MissesAreCounted(h: History)
    requires Possible(h)
    ensures After(h).stream.misses == MissRun(h) <= MISS_LIMIT
    ensures After(h).stream.closed == Some(Unavailable1011) <==> MissRun(h) == MISS_LIMIT
  {
    if h.Then? {
      MissesAreCounted(h.before);
    }
  }

  /** The socket closes as unavailable exactly when the last three polls in a row missed the run. */
  lemma UnavailableExactly(h: History)
    requires Possible(h)
    ensures After(h).stream.closed == Some(Unavailable1011) <==> MissRun(h) == 3
  {
    MissesAreCounted(h);
  }

  /** The poll that closes as completed saw no rows and a terminal last known status; if it found
      the run, that status is current, no row is pending, and what was sent is exactly the rows after
      `afterId`, in order, exactly when every poll met pending rows whose head was created in order. */
  lemma {:induction false} CompletedMeansAllSent(h: History)
    requires Possible(h) && h.Then? && h.action.DoPoll?
    requires After(h).stream.closed == Some(Completed1000)
    ensures var db, s := After(h).db, After(h).stream;
            && Terminal(s.status) && s.sent == After(h.before).stream.sent
            && SnapshotRows(db, After(h.before).stream.cursor) == []
            && (db.found ==>
                  && s.status == db.status && Pending(After(h)) == []
                  && (s.sent == Above(db.rows, AfterId(h)) <==> PollsInOrder(h)))
  {
    var db, s := After(h).db, After(h.before).stream;
    ConservedExactly(h);
    SortedIsOrdered(Above(db.rows, s.cursor), ByCreation);
    var sorted := Sorted(Above(db.rows, s.cursor), ByCreation);
    if db.found {
      assert sorted == [];
      assert |multiset(sorted)| == |multiset(Above(db.rows, s.cursor))|;
      assert s.sent + [] == s.sent;
    }
  }
}
