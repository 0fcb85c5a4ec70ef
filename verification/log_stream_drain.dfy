/** The log stream against a table that no longer changes: what it takes to send the pending rows. */
module LogStreamDrain {
  import opened Text
  import opened Sorting
  import opened CrawlLifecycle
  import opened LogStream

  /** `n` more turns against a table that no longer changes, stopping once the socket is closed. */
  function Turns(db: Db, s: Stream, n: nat): Stream
    decreases n
  {
    if n == 0 || s.closed.Some? then s
    else Turns(db, Poll(s, SnapshotRows(db, s.cursor), SnapshotStatus(db)), n - 1)
  }

  /** What one turn does to a found run with pending rows in order. */
  lemma TurnInOrder(db: Db, s: Stream)
    requires IdsInOrder(db.rows) && CreatedInOrder(Above(db.rows, s.cursor)) && db.found
    ensures var pending, rows := Above(db.rows, s.cursor), SnapshotRows(db, s.cursor);
            var next := Poll(s, rows, SnapshotStatus(db));
            && rows <= pending && |rows| == Fewer(|pending|, LIMIT)
            && (pending != [] ==> next.closed.None?)
            && Above(db.rows, next.cursor) == pending[|rows|..]
            && CreatedInOrder(pending[|rows|..])
            && next.sent + pending[|rows|..] == s.sent + pending
  {
    var pending, rows := Above(db.rows, s.cursor), SnapshotRows(db, s.cursor);
    SnapshotInOrderExactly(db, s.cursor);
    if rows != [] {
      CursorMoves(db.rows, s.cursor, |rows|);
      assert rows[|rows| - 1] == pending[|rows| - 1];
    }
  }

  /** Once the run is terminal and found and nothing more is appended, enough turns to carry the
      pending rows, and one more, send them all and close as completed. */
  lemma {:induction false} DrainsAndCloses(db: Db, s: Stream, n: nat)
    requires IdsInOrder(db.rows) && CreatedInOrder(Above(db.rows, s.cursor))
    requires db.found && Terminal(db.status) && s.closed.None?
    requires n >= 1 && |Above(db.rows, s.cursor)| <= 500 * (n - 1)
    ensures var last := Turns(db, s, n);
            last.closed == Some(Completed1000) && last.sent == s.sent + Above(db.rows, s.cursor)
    decreases n
  {
    TurnInOrder(db, s);
    if Above(db.rows, s.cursor) != [] {
      DrainsAndCloses(db, Poll(s, SnapshotRows(db, s.cursor), SnapshotStatus(db)), n - 1);
    }
  }

  lemma {:induction false} SendsInTurns(db: Db, s: Stream, n: nat)
    requires IdsInOrder(db.rows) && CreatedInOrder(Above(db.rows, s.cursor)) && db.found && s.closed.None?
    requires |Above(db.rows, s.cursor)| <= 500 * n
    ensures SendsPending(db, s, n)
    decreases n
  {
    if Above(db.rows, s.cursor) != [] {
      TurnInOrder(db, s);
      var next := Poll(s, SnapshotRows(db, s.cursor), SnapshotStatus(db));
      SendsInTurns(db, next, n - 1);
    } else {
      NothingPending(db, s, n);
    }
  }

  lemma {:induction false} NothingPending(db: Db, s: Stream, n: nat)
    requires Above(db.rows, s.cursor) == []
    ensures Turns(db, s, n).sent == s.sent
    decreases n
  {
    if n > 0 && s.closed.None? {
      var next := Poll(s, SnapshotRows(db, s.cursor), SnapshotStatus(db));
      assert SnapshotRows(db, s.cursor) == [];
      NothingPending(db, next, n - 1);
    }
  }

  /** `n` turns send exactly the pending rows, each once and in id order. */
  ghost predicate SendsPending(db: Db, s: Stream, n: nat) {
    Turns(db, s, n).sent == s.sent + Above(db.rows, s.cursor)
  }

  lemma {:induction false} TurnsExtend(db: Db, s: Stream, n: nat)
    ensures s.sent <= Turns(db, s, n).sent
    decreases n
  {
    if n > 0 && s.closed.None? {
      TurnsExtend(db, Poll(s, SnapshotRows(db, s.cursor), SnapshotStatus(db)), n - 1);
    }
  }

  lemma PrefixOfRest(sent: seq<LogRow>, rows: seq<LogRow>, pending: seq<LogRow>)
    requires sent + rows <= sent + pending
    ensures rows <= pending && sent + pending == sent + rows + pending[|rows|..]
  {
    assert rows == (sent + rows)[|sent|..] && pending == (sent + pending)[|sent|..];
  }

  /** A first turn that is part of sending exactly the pending rows sends the first of them. */
  lemma FirstTurnInOrder(db: Db, s: Stream, n: nat)
    requires IdsInOrder(db.rows) && db.found && s.closed.None? && SendsPending(db, s, n)
    requires n > 0 && Above(db.rows, s.cursor) != []
    ensures var pending, rows := Above(db.rows, s.cursor), SnapshotRows(db, s.cursor);
            var next := Poll(s, rows, SnapshotStatus(db));
            && HeadInOrder(pending) && |rows| == Fewer(|pending|, LIMIT)
            && next.closed.None? && SendsPending(db, next, n - 1) && Above(db.rows, next.cursor) == pending[|rows|..]
  {
    var pending, rows := Above(db.rows, s.cursor), SnapshotRows(db, s.cursor);
    SnapshotInOrderExactly(db, s.cursor);
    TurnsExtend(db, Poll(s, rows, SnapshotStatus(db)), n - 1);
    PrefixOfRest(s.sent, rows, pending);
    CursorMoves(db.rows, s.cursor, |rows|);
  }

  lemma {:induction false} SendingShowsOrder(db: Db, s: Stream, n: nat)
    requires IdsInOrder(db.rows) && db.found && s.closed.None?
    ensures SendsPending(db, s, n) ==> CreatedInOrder(Above(db.rows, s.cursor))
    decreases n
  {
    var pending, rows := Above(db.rows, s.cursor), SnapshotRows(db, s.cursor);
    if n == 0 {
      assert |s.sent + pending| == |s.sent| + |pending|;
    } else if pending != [] && SendsPending(db, s, n) {
      FirstTurnInOrder(db, s, n);
      SendingShowsOrder(db, Poll(s, rows, SnapshotStatus(db)), n - 1);
    }
  }

  /** Against a table that no longer changes, some number of turns sends exactly the pending rows,
      each once and in id order, exactly when none of them was created before an earlier one. */
  lemma SendsExactlyWhenCreatedInOrder(db: Db, s: Stream)
    requires IdsInOrder(db.rows) && db.found && s.closed.None?
    ensures (exists n: nat :: SendsPending(db, s, n)) <==> CreatedInOrder(Above(db.rows, s.cursor))
  {
    var pending := Above(db.rows, s.cursor);
    if CreatedInOrder(pending) {
      SendsInTurns(db, s, |pending|);
    }
    if n: nat :| SendsPending(db, s, n) {
      SendingShowsOrder(db, s, n);
    }
  }

  lemma TwoRowsAbove(a: LogRow, b: LogRow)
    requires a.id < b.id
    ensures Above([a, b], None) == [a, b] && Above([a, b], Some(a.id)) == [b]
  {
    assert [a, b][..1] == [a] && [a][..0] == [];
    assert Above([a], None) == [a] && Above([a], Some(a.id)) == [];
  }

  lemma TwoRowsSwapped(a: LogRow, b: LogRow)
    requires b.createdAt < a.createdAt
    ensures Sorted([a, b], ByCreation) == [b, a] && Sorted([b], ByCreation) == [b]
  {
    assert [a, b][1..] == [b] && [b][1..] == [];
    assert Sorted([b], ByCreation) == [b];
    assert Insert(a, [b], ByCreation) == [b] + Insert(a, [], ByCreation);
  }

  /** Of two rows created against their ids the second is sent first, and then again. */
  lemma SwappedResends(a: LogRow, b: LogRow)
    requires a.id < b.id && b.createdAt < a.createdAt
    ensures Turns(Db([a, b], Running, true), Stream(None, Running, 0, [], None), 2).sent == [b, a, b]
  {
    var db, start := Db([a, b], Running, true), Stream(None, Running, 0, [], None);
    TwoRowsAbove(a, b);
    TwoRowsSwapped(a, b);
    var once := Stream(Some(a.id), Running, 0, [b, a], None);
    assert Poll(start, [b, a], Some(Running)) == once;
    assert Poll(once, [b], Some(Running)).sent == [b, a, b];
  }

  /** The order of creation matters: a row created before an earlier id is sent twice, and no number
      of turns sends each of the two rows once and in order. */
  lemma LateCreationResends(n: nat)
    ensures var db, start := Db([LogRow(1, 10), LogRow(2, 5)], Running, true), Stream(None, Running, 0, [], None);
            && Turns(db, start, 2).sent == [LogRow(2, 5), LogRow(1, 10), LogRow(2, 5)]
            && !SendsPending(db, start, n)
  {
    var a, b := LogRow(1, 10), LogRow(2, 5);
    var rows := [a, b];
    SwappedResends(a, b);
    TwoRowsAbove(a, b);
    assert rows[1].createdAt < rows[0].createdAt;
    SendsExactlyWhenCreatedInOrder(Db(rows, Running, true), Stream(None, Running, 0, [], None));
  }
}
