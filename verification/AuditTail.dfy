/**
 The audit tail: one newest-first page, then polls for rows newer than a cursor.
 */
module AuditTail {
  import opened Prelude
  import Text

  /** Rows are read in order of `(created_at, id)`. */
  datatype Cursor = Cursor(createdAt: int, rowId: string)

  /** A row and its NDJSON line. */
  datatype Row = Row(cursor: Cursor, line: string)

  datatype Chunk = Line(row: Row) | Keepalive

  /** `maxEmptyPolls` is None when the stream follows for ever. */
  datatype Config = Config(limit: nat, follow: bool, keepalive: bool, maxEmptyPolls: Option<int>)

  // ---------------------------------------------------------------------------------------------
  // The table and its queries
  // ---------------------------------------------------------------------------------------------

  predicate Before(a: Cursor, b: Cursor) {
    a.createdAt < b.createdAt || (a.createdAt == b.createdAt && Text.Less(a.rowId, b.rowId))
  }

  predicate Above(mark: Option<Cursor>, row: Row) {
    mark.None? || Before(mark.value, row.cursor)
  }

  /** The audit rows of one moment, listed in cursor order; ids are unique. */
  ghost predicate InOrder(rows: seq<Row>) {
    forall i, j :: 0 <= i < j < |rows| ==> Before(rows[i].cursor, rows[j].cursor)
  }

  function Newer(table: seq<Row>, mark: Option<Cursor>): seq<Row> {
    if table == [] then []
    else if Above(mark, table[0]) then [table[0]] + Newer(table[1..], mark)
    else Newer(table[1..], mark)
  }

  /** `fetch_next`: rows above the cursor, oldest first, at most `limit`. */
  function FetchNext(table: seq<Row>, mark: Option<Cursor>, limit: nat): seq<Row> {
    var newer := Newer(table, mark);
    if |newer| <= limit then newer else newer[..limit]
  }

  /** `fetch_initial`: the newest `limit` rows, newest first. */
  function FetchInitial(table: seq<Row>, limit: nat): seq<Row> {
    if table == [] || limit == 0 then []
    else [table[|table| - 1]] + FetchInitial(table[..|table| - 1], limit - 1)
  }

  // ---------------------------------------------------------------------------------------------
  // The stream, poll by poll
  // ---------------------------------------------------------------------------------------------

  datatype State = State(cursor: Option<Cursor>, yielded: bool, emptyPolls: nat, ended: bool, chunks: seq<Chunk>)

  function Lines(rows: seq<Row>): seq<Chunk> {
    seq(|rows|, i requires 0 <= i < |rows| => Line(rows[i]))
  }

  function Opening(c: Config, page: seq<Row>): State {
    var s := State(if page == [] then None else Some(page[0].cursor), page != [], 0, !c.follow, Lines(page));
    if !c.follow && page == [] && c.keepalive then s.(chunks := [Keepalive]) else s
  }

  function Poll(c: Config, s: State, table: seq<Row>): State {
    var rows := FetchNext(table, s.cursor, c.limit);
    if s.ended then s
    else if rows != [] then
      State(Some(rows[|rows| - 1].cursor), true, 0, false, s.chunks + Lines(rows))
    else if !s.yielded && c.keepalive then s.(yielded := true, chunks := s.chunks + [Keepalive])
    else if c.maxEmptyPolls.Some? then
      s.(emptyPolls := s.emptyPolls + 1, ended := s.emptyPolls + 1 > c.maxEmptyPolls.value)
    else s
  }

  function Follow(c: Config, s: State, tables: seq<seq<Row>>): State {
    if tables == [] then s else Poll(c, Follow(c, s, tables[..|tables| - 1]), tables[|tables| - 1])
  }

  /** `tables[0]` answers the first page, each later table one poll. */
  function Stream(c: Config, first: seq<Row>, tables: seq<seq<Row>>): State {
    Follow(c, Opening(c, FetchInitial(first, c.limit)), tables)
  }

  /** The generator, run for as long as the caller reads it: one table a poll. */
  method AuditTailChunks(c: Config, first: seq<Row>, tables: seq<seq<Row>>) returns (chunks: seq<Chunk>, returned: bool)
    ensures chunks == Stream(c, first, tables).chunks && returned == Stream(c, first, tables).ended
  {
    var initial := FetchInitial(first, c.limit);
    var yielded, cursor := false, None;
    chunks := [];
    for i := 0 to |initial|
      invariant chunks == Lines(initial[..i]) && yielded == (i > 0)
    {
      yielded := true;
      chunks := chunks + [Line(initial[i])];
    }
    assert initial[..|initial|] == initial;
    if initial != [] {
      cursor := Some(initial[0].cursor);
    }
    if !c.follow {
      if !yielded && c.keepalive {
        chunks := chunks + [Keepalive];
      }
      EndedStaysEnded(c, Opening(c, initial), tables);
      return chunks, true;
    }
    var emptyPolls, polls := 0, 0;
    while polls < |tables|
      invariant polls <= |tables|
      invariant State(cursor, yielded, emptyPolls, false, chunks) == Follow(c, Opening(c, initial), tables[..polls])
    {
      assert tables[..polls + 1][..polls] == tables[..polls];
      var table := tables[polls];
      polls := polls + 1;
      var rows := FetchNext(table, cursor, c.limit);
      if rows != [] {
        emptyPolls := 0;
        var more := EmitRows(rows);
        yielded, chunks := true, chunks + more;
        cursor := Some(rows[|rows| - 1].cursor);
        continue;
      }
      if !yielded && c.keepalive {
        yielded, chunks := true, chunks + [Keepalive];
        continue;
      }
      if c.maxEmptyPolls.Some? {
        emptyPolls := emptyPolls + 1;
        if emptyPolls > c.maxEmptyPolls.value {
          assert tables[..polls] + tables[polls..] == tables;
          FollowOn(c, Opening(c, initial), tables[..polls], tables[polls..]);
          EndedStaysEnded(c, Follow(c, Opening(c, initial), tables[..polls]), tables[polls..]);
          return chunks, true;
        }
      }
    }
    assert tables[..|tables|] == tables;
    returned := false;
  }

  /** `ndjson_lines` over one batch. */
  method EmitRows(rows: seq<Row>) returns (lines: seq<Chunk>)
    ensures lines == Lines(rows)
  {
    lines := [];
    for i := 0 to |rows|
      invariant lines == Lines(rows[..i])
    {
      lines := lines + [Line(rows[i])];
    }
    assert rows[..|rows|] == rows;
  }

  lemma {:induction false} EndedStaysEnded(c: Config, s: State, tables: seq<seq<Row>>)
    requires s.ended
    ensures Follow(c, s, tables) == s
  {
    if tables != [] { EndedStaysEnded(c, s, tables[..|tables| - 1]); }
  }

  lemma {:induction false} FollowOn(c: Config, s: State, earlier: seq<seq<Row>>, later: seq<seq<Row>>)
    ensures Follow(c, s, earlier + later) == Follow(c, Follow(c, s, earlier), later)
  {
    if later == [] {
      assert earlier + later == earlier;
    } else {
      assert (earlier + later)[..|earlier + later| - 1] == earlier + later[..|later| - 1];
      FollowOn(c, s, earlier, later[..|later| - 1]);
    }
  }

  // ---------------------------------------------------------------------------------------------
  // What the queries return
  // ---------------------------------------------------------------------------------------------

  lemma BeforeIsTransitive(a: Cursor, b: Cursor, c: Cursor)
    requires Before(a, b) && Before(b, c)
    ensures Before(a, c)
  {
    if a.createdAt == b.createdAt && b.createdAt == c.createdAt {
      Text.LessIsTransitive(a.rowId, b.rowId, c.rowId);
    }
  }

  lemma BeforeIsAsymmetric(a: Cursor, b: Cursor)
    requires Before(a, b)
    ensures !Before(b, a) && a != b
  {
    if a.createdAt == b.createdAt { Text.LessIsAsymmetric(a.rowId, b.rowId); }
  }

  /** In an ordered table the rows above a mark are a suffix. */
  lemma {:induction false} NewerIsSuffix(table: seq<Row>, mark: Option<Cursor>, k: nat)
    requires k <= |table|
    requires forall i :: 0 <= i < k ==> !Above(mark, table[i])
    requires forall i :: k <= i < |table| ==> Above(mark, table[i])
    ensures Newer(table, mark) == table[k..]
  {
    if table != [] {
      if k == 0 {
        NewerIsSuffix(table[1..], mark, 0);
        assert table[0..] == [table[0]] + table[1..][0..];
      } else {
        NewerIsSuffix(table[1..], mark, k - 1);
        assert table[k..] == table[1..][k - 1..];
      }
    }
  }

  lemma {:induction false} NewerIsFilter(table: seq<Row>, mark: Option<Cursor>)
    requires InOrder(table)
    ensures InOrder(Newer(table, mark))
    ensures forall r :: r in Newer(table, mark) <==> r in table && Above(mark, r)
  {
    if table != [] {
      NewerIsFilter(table[1..], mark);
      assert table == [table[0]] + table[1..];
      forall i | 0 <= i < |Newer(table[1..], mark)| ensures Before(table[0].cursor, Newer(table[1..], mark)[i].cursor) {
        var r := Newer(table[1..], mark)[i];
        assert r in table[1..];
        var j :| 0 <= j < |table[1..]| && table[1..][j] == r;
        assert table[j + 1] == r;
      }
    }
  }

  // ---------------------------------------------------------------------------------------------
  // One poll
  // ---------------------------------------------------------------------------------------------

  /** The rows a stream has sent, in the order sent. */
  function Sent(chunks: seq<Chunk>): seq<Row> {
    if chunks == [] then []
    else if chunks[|chunks| - 1].Line? then Sent(chunks[..|chunks| - 1]) + [chunks[|chunks| - 1].row]
    else Sent(chunks[..|chunks| - 1])
  }

  lemma {:induction false} SentLines(chunks: seq<Chunk>, rows: seq<Row>)
    ensures Sent(chunks + Lines(rows)) == Sent(chunks) + rows
  {
    var all := chunks + Lines(rows);
    if rows == [] {
      assert all == chunks;
    } else {
      assert all[..|all| - 1] == chunks + Lines(rows[..|rows| - 1]);
      SentLines(chunks, rows[..|rows| - 1]);
    }
  }

  function Batch(c: Config, s: State, table: seq<Row>): seq<Row> {
    if s.ended then [] else FetchNext(table, s.cursor, c.limit)
  }

  function MarkAfter(mark: Option<Cursor>, rows: seq<Row>): Option<Cursor> {
    if rows == [] then mark else Some(rows[|rows| - 1].cursor)
  }

  lemma PollSends(c: Config, s: State, table: seq<Row>)
    ensures Sent(Poll(c, s, table).chunks) == Sent(s.chunks) + Batch(c, s, table)
    ensures Poll(c, s, table).cursor == MarkAfter(s.cursor, Batch(c, s, table))
  {
    var rows := Batch(c, s, table);
    if rows != [] {
      SentLines(s.chunks, rows);
    } else {
      assert (s.chunks + [Keepalive])[..|s.chunks|] == s.chunks;
    }
  }

  /** A batch is ordered, new, and leaves nothing behind below the next cursor. */
  lemma BatchIsNext(c: Config, s: State, table: seq<Row>)
    requires InOrder(table) && c.limit >= 1
    ensures var rows := Batch(c, s, table);
      && InOrder(rows) && (forall r :: r in rows ==> r in table && Above(s.cursor, r))
      && (!s.ended ==> forall r :: r in table && Above(s.cursor, r) ==> r in rows || Above(MarkAfter(s.cursor, rows), r))
  {
    NewerIsFilter(table, s.cursor);
    var newer, rows := Newer(table, s.cursor), Batch(c, s, table);
    if !s.ended {
      forall r | r in table && Above(s.cursor, r) ensures r in rows || Above(MarkAfter(s.cursor, rows), r) {
        var i :| 0 <= i < |newer| && newer[i] == r;
        if i < |rows| {
          assert rows[i] == r;
        } else {
          assert Before(newer[|rows| - 1].cursor, newer[i].cursor);
        }
      }
    }
  }

  lemma AboveIsMonotone(mark: Option<Cursor>, rows: seq<Row>, r: Row)
    requires forall x :: x in rows ==> Above(mark, x)
    requires Above(MarkAfter(mark, rows), r)
    ensures Above(mark, r)
  {
    if rows != [] && mark.Some? {
      assert rows[|rows| - 1] in rows;
      BeforeIsTransitive(mark.value, rows[|rows| - 1].cursor, r.cursor);
    }
  }

  // ---------------------------------------------------------------------------------------------
  // Any schedule of polls
  // ---------------------------------------------------------------------------------------------

  ghost predicate AllInOrder(tables: seq<seq<Row>>) {
    forall i :: 0 <= i < |tables| ==> InOrder(tables[i])
  }

  /** `more` was sent after `s`: fresh rows of the polled tables, ordered, ending at the cursor. */
  ghost predicate Extends(s: State, after: State, more: seq<Row>, tables: seq<seq<Row>>) {
    && Sent(after.chunks) == Sent(s.chunks) + more
    && after.cursor == MarkAfter(s.cursor, more)
    && InOrder(more)
    && forall r :: r in more ==> Above(s.cursor, r) && exists i :: 0 <= i < |tables| && r in tables[i]
  }

  lemma OrderedAppend(mark: Option<Cursor>, more: seq<Row>, rows: seq<Row>)
    requires InOrder(more) && InOrder(rows)
    requires forall r :: r in rows ==> Above(MarkAfter(mark, more), r)
    requires forall r :: r in more ==> Above(mark, r)
    ensures InOrder(more + rows) && MarkAfter(mark, more + rows) == MarkAfter(MarkAfter(mark, more), rows)
    ensures forall r :: r in more + rows ==> Above(mark, r)
  {
    forall i, j | 0 <= i < |more| <= j < |more| + |rows| ensures Before(more[i].cursor, (more + rows)[j].cursor) {
      var r := rows[j - |more|];
      assert r in rows;
      if i < |more| - 1 { BeforeIsTransitive(more[i].cursor, more[|more| - 1].cursor, r.cursor); }
    }
    forall r | r in rows ensures Above(mark, r) {
      AboveIsMonotone(mark, more, r);
    }
  }

  lemma PollExtends(
    c: Config, s: State, mid: State, after: State, earlier: seq<Row>, more: seq<Row>, tables: seq<seq<Row>>, n: nat)
    requires AllInOrder(tables) && c.limit >= 1 && n + 1 == |tables|
    requires Extends(s, mid, earlier, tables[..n]) && after == Poll(c, mid, tables[n])
    requires more == earlier + Batch(c, mid, tables[n])
    ensures Extends(s, after, more, tables)
  {
    var rows := Batch(c, mid, tables[n]);
    PollSends(c, mid, tables[n]);
    BatchIsNext(c, mid, tables[n]);
    OrderedAppend(s.cursor, earlier, rows);
    forall r | r in more ensures exists i :: 0 <= i < |tables| && r in tables[i] {
      if r in earlier {
        var i :| 0 <= i < n && r in tables[..n][i];
        assert r in tables[i];
      } else {
        assert r in tables[n];
      }
    }
  }

  lemma {:induction false} FollowExtends(c: Config, s: State, tables: seq<seq<Row>>) returns (more: seq<Row>)
    requires AllInOrder(tables) && c.limit >= 1
    ensures Extends(s, Follow(c, s, tables), more, tables)
  {
    if tables == [] {
      return [];
    }
    var n := |tables| - 1;
    var mid := Follow(c, s, tables[..n]);
    var earlier := FollowExtends(c, s, tables[..n]);
    more := earlier + Batch(c, mid, tables[n]);
    PollExtends(c, s, mid, Follow(c, s, tables), earlier, more, tables, n);
  }

  /** A row that stays in the table from a poll whose cursor is below it is sent, or still lies ahead. */
  lemma {:induction false} NothingSkipped(c: Config, s: State, tables: seq<seq<Row>>, r: Row)
    requires AllInOrder(tables) && c.limit >= 1 && Above(s.cursor, r)
    requires forall i :: 0 <= i < |tables| ==> r in tables[i]
    requires !Follow(c, s, tables).ended
    ensures r in Sent(Follow(c, s, tables).chunks) || Above(Follow(c, s, tables).cursor, r)
  {
    if tables != [] {
      var n := |tables| - 1;
      var mid := Follow(c, s, tables[..n]);
      NothingSkipped(c, s, tables[..n], r);
      PollSends(c, mid, tables[n]);
      BatchIsNext(c, mid, tables[n]);
      assert r in tables[n];
    }
  }

  lemma {:induction false} InitialIsNewest(table: seq<Row>, limit: nat)
    ensures var page := FetchInitial(table, limit);
      && |page| == (if |table| <= limit then |table| else limit)
      && forall i :: 0 <= i < |page| ==> page[i] == table[|table| - 1 - i]
  {
    if table != [] && limit > 0 { InitialIsNewest(table[..|table| - 1], limit - 1); }
  }

  lemma OpeningSends(c: Config, page: seq<Row>)
    ensures Sent(Opening(c, page).chunks) == page
  {
    SentLines([], page);
    assert [] + Lines(page) == Lines(page);
    assert [Keepalive][..0] == [];
  }

  ghost predicate Distinct(rows: seq<Row>) {
    forall i, j :: 0 <= i < j < |rows| ==> rows[i].cursor != rows[j].cursor
  }

  lemma PageThenNewerIsDistinct(first: seq<Row>, page: seq<Row>, more: seq<Row>)
    requires InOrder(first) && |page| <= |first| && InOrder(more)
    requires forall i :: 0 <= i < |page| ==> page[i] == first[|first| - 1 - i]
    requires page != [] ==> forall r :: r in more ==> Before(page[0].cursor, r.cursor)
    ensures Distinct(page + more)
  {
    var all := page + more;
    forall i, j | 0 <= i < j < |all| ensures all[i].cursor != all[j].cursor {
      if j < |page| {
        BeforeIsAsymmetric(page[j].cursor, page[i].cursor);
      } else if i < |page| {
        var r := more[j - |page|];
        assert r in more;
        if i > 0 { BeforeIsTransitive(page[i].cursor, page[0].cursor, r.cursor); }
        BeforeIsAsymmetric(page[i].cursor, r.cursor);
      } else {
        BeforeIsAsymmetric(all[i].cursor, all[j].cursor);
      }
    }
  }

  /** No row is sent twice, whatever happens to the table between polls. */
  lemma NothingTwice(c: Config, first: seq<Row>, tables: seq<seq<Row>>)
    requires InOrder(first) && AllInOrder(tables) && c.limit >= 1
    ensures Distinct(Sent(Stream(c, first, tables).chunks))
  {
    var page := FetchInitial(first, c.limit);
    InitialIsNewest(first, c.limit);
    OpeningSends(c, page);
    var more := FollowExtends(c, Opening(c, page), tables);
    PageThenNewerIsDistinct(first, page, more);
  }

  /**
   A row first seen by poll `j` and there ever since: once the stream has caught up, it was sent exactly when it
   was above the cursor at that poll. A row that commits below the cursor is lost.
   */
  lemma SentIffAboveTheCursor(c: Config, first: seq<Row>, tables: seq<seq<Row>>, j: nat, r: Row)
    requires InOrder(first) && AllInOrder(tables) && c.limit >= 1 && j < |tables|
    requires r !in first && (forall i :: 0 <= i < j ==> r !in tables[i]) && (forall i :: j <= i < |tables| ==> r in tables[i])
    requires var s := Stream(c, first, tables); !s.ended && Newer(tables[|tables| - 1], s.cursor) == []
    ensures r in Sent(Stream(c, first, tables).chunks) <==> Above(Stream(c, first, tables[..j]).cursor, r)
  {
    var page := FetchInitial(first, c.limit);
    var start := Opening(c, page);
    var mid, end := Follow(c, start, tables[..j]), Follow(c, start, tables);
    assert tables == tables[..j] + tables[j..];
    FollowOn(c, start, tables[..j], tables[j..]);
    InitialIsNewest(first, c.limit);
    OpeningSends(c, page);
    var earlier := FollowExtends(c, start, tables[..j]);
    var later := FollowExtends(c, mid, tables[j..]);
    assert r !in page + earlier;
    if Above(mid.cursor, r) {
      NothingSkipped(c, mid, tables[j..], r);
      NewerIsFilter(tables[|tables| - 1], end.cursor);
      assert r in tables[|tables| - 1];
    }
  }

  /** A row below the first page's high-water mark is never sent. */
  lemma BelowTheMarkIsLost(c: Config, first: seq<Row>, tables: seq<seq<Row>>, r: Row)
    requires InOrder(first) && AllInOrder(tables) && c.limit >= 1 && r !in first && first != []
    requires Before(r.cursor, first[|first| - 1].cursor)
    ensures r !in Sent(Stream(c, first, tables).chunks)
  {
    var page := FetchInitial(first, c.limit);
    InitialIsNewest(first, c.limit);
    OpeningSends(c, page);
    BeforeIsAsymmetric(r.cursor, first[|first| - 1].cursor);
    var more := FollowExtends(c, Opening(c, page), tables);
  }

  const SEEN_ROW := Row(Cursor(2, "01B"), "{}")
  const LATE_ROW := Row(Cursor(1, "01A"), "{}")

  /**
   A first page and two polls, and as many more as one likes: the transaction that stamped its row earlier commits
   between them, and its row is never sent.
   */
  lemma LateCommitIsLost(c: Config, n: nat)
    requires c.limit >= 1 && n >= 1
    ensures var tables := [[SEEN_ROW]] + Repeat([LATE_ROW, SEEN_ROW], n);
      && InOrder([SEEN_ROW]) && AllInOrder(tables)
      && (forall i :: 1 <= i < |tables| ==> LATE_ROW in tables[i])
      && LATE_ROW !in Sent(Stream(c, [SEEN_ROW], tables).chunks)
  {
    var tables := [[SEEN_ROW]] + Repeat([LATE_ROW, SEEN_ROW], n);
    assert InOrder([LATE_ROW, SEEN_ROW]);
    BelowTheMarkIsLost(c, [SEEN_ROW], tables, LATE_ROW);
  }

  // ---------------------------------------------------------------------------------------------
  // An append-only log
  // ---------------------------------------------------------------------------------------------

  /** The polls see longer and longer prefixes of one log. */
  ghost predicate Growing(log: seq<Row>, from: nat, sizes: seq<nat>) {
    && from <= |log|
    && (forall i :: 0 <= i < |sizes| ==> from <= sizes[i] <= |log|)
    && (forall i, j :: 0 <= i < j < |sizes| ==> sizes[i] <= sizes[j])
  }

  function Prefixes(log: seq<Row>, sizes: seq<nat>): seq<seq<Row>>
    requires forall i :: 0 <= i < |sizes| ==> sizes[i] <= |log|
  {
    seq(|sizes|, i requires 0 <= i < |sizes| => log[..sizes[i]])
  }

  function MarkAt(log: seq<Row>, p: nat): Option<Cursor>
    requires p <= |log|
  {
    if p == 0 then None else Some(log[p - 1].cursor)
  }

  lemma NewerInLog(log: seq<Row>, p: nat, size: nat)
    requires InOrder(log) && p <= size <= |log|
    ensures Newer(log[..size], MarkAt(log, p)) == log[p..size]
  {
    forall i | 0 <= i < size ensures Above(MarkAt(log, p), log[..size][i]) <==> i >= p {
      if p > 0 && i < p - 1 { BeforeIsAsymmetric(log[i].cursor, log[p - 1].cursor); }
      if p > 0 && i == p - 1 { BeforeIsIrreflexive(log[i].cursor); }
    }
    NewerIsSuffix(log[..size], MarkAt(log, p), p);
    assert log[..size][p..] == log[p..size];
  }

  lemma BeforeIsIrreflexive(a: Cursor)
    ensures !Before(a, a)
  {
    if Text.Less(a.rowId, a.rowId) { Text.LessIsAsymmetric(a.rowId, a.rowId); }
  }

  function Min(a: nat, b: nat): nat {
    if a <= b then a else b
  }

  /** Where the cursor stands after one poll, and after a schedule of them. */
  function Next(c: Config, s: State, p: nat, size: nat): nat {
    if s.ended || size < p then p else p + Min(size - p, c.limit)
  }

  lemma BatchInLog(c: Config, s: State, log: seq<Row>, p: nat, size: nat)
    requires InOrder(log) && p <= size <= |log| && s.cursor == MarkAt(log, p)
    ensures Batch(c, s, log[..size]) == log[p..Next(c, s, p, size)]
  {
    NewerInLog(log, p, size);
    assert log[p..size][..Min(size - p, c.limit)] == log[p..p + Min(size - p, c.limit)];
  }

  lemma PollInLog(c: Config, s: State, log: seq<Row>, p: nat, size: nat)
    requires InOrder(log) && p <= size <= |log| && s.cursor == MarkAt(log, p)
    ensures var after, q := Poll(c, s, log[..size]), Next(c, s, p, size);
      p <= q <= size && after.cursor == MarkAt(log, q) && Sent(after.chunks) == Sent(s.chunks) + log[p..q]
  {
    BatchInLog(c, s, log, p, size);
    PollSends(c, s, log[..size]);
  }

  lemma PollExtendsSlice(c: Config, s: State, log: seq<Row>, sent: seq<Row>, from: nat, p: nat, size: nat) returns (q: nat)
    requires InOrder(log) && from <= p <= size <= |log| && s.cursor == MarkAt(log, p)
    requires Sent(s.chunks) == sent + log[from..p]
    ensures q == Next(c, s, p, size) && p <= q <= size
    ensures Poll(c, s, log[..size]).cursor == MarkAt(log, q)
    ensures Sent(Poll(c, s, log[..size]).chunks) == sent + log[from..q]
  {
    PollInLog(c, s, log, p, size);
    q := Next(c, s, p, size);
    assert sent + log[from..p] + log[p..q] == sent + log[from..q];
  }

  lemma {:induction false} FollowsTheLog(c: Config, s: State, log: seq<Row>, from: nat, sizes: seq<nat>) returns (p: nat)
    requires InOrder(log) && c.limit >= 1 && Growing(log, from, sizes) && s.cursor == MarkAt(log, from)
    ensures from <= p <= (if sizes == [] then from else sizes[|sizes| - 1])
    ensures var after := Follow(c, s, Prefixes(log, sizes));
      after.cursor == MarkAt(log, p) && Sent(after.chunks) == Sent(s.chunks) + log[from..p]
  {
    if sizes == [] {
      return from;
    }
    var n := |sizes| - 1;
    var q := FollowsTheLog(c, s, log, from, sizes[..n]);
    assert Prefixes(log, sizes)[..n] == Prefixes(log, sizes[..n]);
    var mid := Follow(c, s, Prefixes(log, sizes[..n]));
    assert n > 0 ==> sizes[n - 1] <= sizes[n];
    p := PollExtendsSlice(c, mid, log, Sent(s.chunks), from, q, sizes[n]);
  }

  /** Followed rows are the log from the high-water mark on: none skipped, none repeated, in order. */
  lemma TailIsExact(c: Config, log: seq<Row>, from: nat, sizes: seq<nat>) returns (p: nat)
    requires InOrder(log) && c.limit >= 1 && Growing(log, from, sizes)
    ensures from <= p <= |log|
    ensures Sent(Stream(c, log[..from], Prefixes(log, sizes)).chunks) == FetchInitial(log[..from], c.limit) + log[from..p]
    ensures Stream(c, log[..from], Prefixes(log, sizes)).cursor == MarkAt(log, p)
  {
    var page := FetchInitial(log[..from], c.limit);
    InitialIsNewest(log[..from], c.limit);
    OpeningSends(c, page);
    p := FollowsTheLog(c, Opening(c, page), log, from, sizes);
  }

  // ---------------------------------------------------------------------------------------------
  // The keepalive
  // ---------------------------------------------------------------------------------------------

  /** A keepalive can only be the first chunk, and nothing has been sent while none is recorded. */
  ghost predicate KeepaliveFirst(c: Config, s: State) {
    && (forall i :: 0 <= i < |s.chunks| && s.chunks[i].Keepalive? ==> i == 0 && c.keepalive)
    && (!s.ended && !s.yielded ==> s.chunks == [])
  }

  lemma {:induction false} KeepaliveStaysFirst(c: Config, s: State, tables: seq<seq<Row>>)
    requires KeepaliveFirst(c, s)
    ensures KeepaliveFirst(c, Follow(c, s, tables))
  {
    if tables != [] { KeepaliveStaysFirst(c, s, tables[..|tables| - 1]); }
  }

  lemma {:induction false} OneKeepaliveBeforeAnyRow(c: Config, first: seq<Row>, tables: seq<seq<Row>>)
    ensures var chunks := Stream(c, first, tables).chunks;
      forall i :: 0 <= i < |chunks| && chunks[i].Keepalive? ==> i == 0 && c.keepalive && FetchInitial(first, c.limit) == []
  {
    var start := Opening(c, FetchInitial(first, c.limit));
    KeepaliveStaysFirst(c, start, tables);
    FollowOnlyAppends(c, start, tables);
    if FetchInitial(first, c.limit) != [] { assert start.chunks[0].Line?; }
  }

  lemma {:induction false} FollowOnlyAppends(c: Config, s: State, tables: seq<seq<Row>>)
    ensures s.chunks <= Follow(c, s, tables).chunks
  {
    if tables != [] { FollowOnlyAppends(c, s, tables[..|tables| - 1]); }
  }

  // ---------------------------------------------------------------------------------------------
  // Termination under max_empty_polls
  // ---------------------------------------------------------------------------------------------

  function AtLeastZero(i: int): nat {
    if i < 0 then 0 else i
  }

  /** How many more polls of an unchanging table can pass before the stream returns. */
  function Remaining(c: Config, s: State, unread: nat): nat
    requires c.maxEmptyPolls.Some?
  {
    if s.ended then 0
    else if unread > 0 then unread + AtLeastZero(c.maxEmptyPolls.value) + 1
    else (if !s.yielded && c.keepalive then 1 else 0) + AtLeastZero(c.maxEmptyPolls.value - s.emptyPolls) + 1
  }

  lemma EachPollUsesOne(c: Config, s: State, log: seq<Row>, p: nat)
    requires InOrder(log) && c.limit >= 1 && p <= |log| && s.cursor == MarkAt(log, p) && c.maxEmptyPolls.Some?
    ensures var after, q := Poll(c, s, log), Next(c, s, p, |log|);
      && q <= |log| && after.cursor == MarkAt(log, q)
      && (Remaining(c, s, |log| - p) > 0 ==> Remaining(c, after, |log| - q) < Remaining(c, s, |log| - p))
      && (after.ended && !s.ended ==> q == |log|) && (s.ended ==> after == s)
  {
    assert log[..|log|] == log;
    BatchInLog(c, s, log, p, |log|);
    PollInLog(c, s, log, p, |log|);
  }

  function Repeat(log: seq<Row>, n: nat): seq<seq<Row>> {
    seq(n, _ => log)
  }

  function Quiet(c: Config, s: State, log: seq<Row>, n: nat): State {
    Follow(c, s, Repeat(log, n))
  }

  lemma OneMoreQuietPoll(c: Config, s: State, log: seq<Row>, n: nat)
    requires n > 0
    ensures Quiet(c, s, log, n) == Poll(c, Quiet(c, s, log, n - 1), log[..|log|])
  {
    assert Repeat(log, n)[..n - 1] == Repeat(log, n - 1);
    assert log[..|log|] == log;
  }

  lemma {:induction false} QuietPolls(c: Config, s: State, log: seq<Row>, p: nat, n: nat) returns (q: nat)
    requires InOrder(log) && c.limit >= 1 && p <= |log| && s.cursor == MarkAt(log, p) && c.maxEmptyPolls.Some? && !s.ended
    ensures var after := Quiet(c, s, log, n);
      && p <= q <= |log| && after.cursor == MarkAt(log, q) && Sent(after.chunks) == Sent(s.chunks) + log[p..q]
      && (after.ended ==> q == |log|)
    ensures Remaining(c, Quiet(c, s, log, n), |log| - q) <= AtLeastZero(Remaining(c, s, |log| - p) - n)
  {
    if n == 0 {
      return p;
    }
    var mid := Quiet(c, s, log, n - 1);
    var m := QuietPolls(c, s, log, p, n - 1);
    OneMoreQuietPoll(c, s, log, n);
    q := QuietPoll(c, mid, log, Sent(s.chunks), p, m, Remaining(c, s, |log| - p), n);
  }

  lemma QuietPoll(c: Config, s: State, log: seq<Row>, sent: seq<Row>, from: nat, p: nat, budget: nat, n: nat) returns (q: nat)
    requires InOrder(log) && c.limit >= 1 && from <= p <= |log| && s.cursor == MarkAt(log, p) && c.maxEmptyPolls.Some? && n > 0
    requires Sent(s.chunks) == sent + log[from..p] && (s.ended ==> p == |log|)
    requires Remaining(c, s, |log| - p) <= AtLeastZero(budget - (n - 1))
    ensures var after := Poll(c, s, log[..|log|]);
      && p <= q <= |log| && after.cursor == MarkAt(log, q) && Sent(after.chunks) == sent + log[from..q]
      && (after.ended ==> q == |log|)
    ensures Remaining(c, Poll(c, s, log[..|log|]), |log| - q) <= AtLeastZero(budget - n)
  {
    assert log[..|log|] == log;
    EachPollUsesOne(c, s, log, p);
    q := PollExtendsSlice(c, s, log, sent, from, p, |log|);
  }

  lemma EnoughQuietPolls(c: Config, s: State, log: seq<Row>, p: nat, n: nat)
    requires InOrder(log) && c.limit >= 1 && p <= |log| && s.cursor == MarkAt(log, p) && c.maxEmptyPolls.Some? && !s.ended
    requires n >= |log| - p + AtLeastZero(c.maxEmptyPolls.value) + 2
    ensures var after := Quiet(c, s, log, n);
      after.ended && Sent(after.chunks) == Sent(s.chunks) + log[p..]
  {
    var q := QuietPolls(c, s, log, p, n);
    assert log[p..|log|] == log[p..];
  }

  /** Once the log stops growing the stream returns after at most this many polls, with every row sent. */
  lemma QuietStreamEnds(c: Config, log: seq<Row>, from: nat, sizes: seq<nat>, n: nat)
    requires InOrder(log) && c.limit >= 1 && Growing(log, from, sizes) && c.follow && c.maxEmptyPolls.Some?
    requires n >= |log| - from + AtLeastZero(c.maxEmptyPolls.value) + 2
    ensures var before, s := Stream(c, log[..from], Prefixes(log, sizes)), Stream(c, log[..from], Prefixes(log, sizes) + Repeat(log, n));
      s.ended && (!before.ended ==> Sent(s.chunks) == FetchInitial(log[..from], c.limit) + log[from..])
  {
    var p := TailIsExact(c, log, from, sizes);
    var start := Opening(c, FetchInitial(log[..from], c.limit));
    var before := Follow(c, start, Prefixes(log, sizes));
    FollowOn(c, start, Prefixes(log, sizes), Repeat(log, n));
    if before.ended {
      EndedStaysEnded(c, before, Repeat(log, n));
    } else {
      EnoughQuietPolls(c, before, log, p, n);
      SlicesJoin(FetchInitial(log[..from], c.limit), log, from, p);
    }
  }

  lemma SlicesJoin(page: seq<Row>, log: seq<Row>, from: nat, p: nat)
    requires from <= p <= |log|
    ensures page + log[from..p] + log[p..] == page + log[from..]
  {
  }

  // ---------------------------------------------------------------------------------------------
  // The order, the size of a batch, and when a stream returns
  // ---------------------------------------------------------------------------------------------

  /** Rows are ordered by time, and by id where the times are equal; no two different cursors are left unordered. */
  lemma OrderIsByTimeThenId(a: Cursor, b: Cursor)
    ensures a.createdAt < b.createdAt ==> Before(a, b)
    ensures a.createdAt == b.createdAt ==> (Before(a, b) <==> Text.Less(a.rowId, b.rowId))
    ensures a == b || Before(a, b) || Before(b, a)
  {
    Text.LessIsTotal(a.rowId, b.rowId);
  }

  /** A batch holds the oldest of the newer rows, as many as there are but no more than the limit. */
  lemma {:induction false} BatchSize(table: seq<Row>, mark: Option<Cursor>, limit: nat)
    ensures var newer, rows := Newer(table, mark), FetchNext(table, mark, limit);
      rows <= newer && |rows| == (if |newer| <= limit then |newer| else limit)
  {
  }

  /** Polls that find nothing, once the stream has said something: it returns with the first one over `max_empty_polls`. */
  lemma {:induction false} ReturnsAfterEmptyPolls(c: Config, s: State, table: seq<Row>, n: nat)
    requires !s.ended && s.yielded && FetchNext(table, s.cursor, c.limit) == []
    requires c.maxEmptyPolls.Some? && s.emptyPolls <= c.maxEmptyPolls.value
    ensures var after := Follow(c, s, Repeat(table, n));
      && after.chunks == s.chunks && after.cursor == s.cursor && after.yielded
      && (after.ended <==> s.emptyPolls + n > c.maxEmptyPolls.value)
      && (!after.ended ==> after.emptyPolls == s.emptyPolls + n)
  {
    if n > 0 {
      ReturnsAfterEmptyPolls(c, s, table, n - 1);
      assert Repeat(table, n)[..n - 1] == Repeat(table, n - 1);
    }
  }

  /** A poll that finds rows starts the count anew. */
  lemma RowsResetTheCount(c: Config, s: State, table: seq<Row>)
    requires !s.ended && FetchNext(table, s.cursor, c.limit) != []
    ensures !Poll(c, s, table).ended && Poll(c, s, table).emptyPolls == 0
  {
  }

  /** A stream that does not follow returns at once; one without a maximum never returns. */
  lemma {:induction false} ReturnsAtOnceOrNever(c: Config, first: seq<Row>, tables: seq<seq<Row>>)
    ensures !c.follow ==> Stream(c, first, tables) == Opening(c, FetchInitial(first, c.limit)) && Stream(c, first, tables).ended
    ensures c.follow && c.maxEmptyPolls.None? ==> !Stream(c, first, tables).ended
  {
    var start := Opening(c, FetchInitial(first, c.limit));
    if !c.follow {
      EndedStaysEnded(c, start, tables);
    } else if tables != [] {
      ReturnsAtOnceOrNever(c, first, tables[..|tables| - 1]);
    }
  }

  /** With keepalives on, a stream that has returned or polled at all has said something; with them off it never says that. */
  lemma {:induction false} KeepaliveIff(c: Config, first: seq<Row>, tables: seq<seq<Row>>)
    ensures c.keepalive && (!c.follow || tables != []) ==> Stream(c, first, tables).chunks != []
    ensures !c.keepalive ==> Keepalive !in Stream(c, first, tables).chunks
    ensures c.follow && c.keepalive ==> (Stream(c, first, tables).yielded <==> Stream(c, first, tables).chunks != [])
  {
    if tables != [] { KeepaliveIff(c, first, tables[..|tables| - 1]); }
  }
}
