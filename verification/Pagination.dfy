/**
 Keyset pagination: the seek predicate in SQL's three-valued logic, the nulls-last order, one page,
 and walks that follow `next_cursor` while other rows come and go.
 */
module Pagination {
  import opened Prelude
  import opened CursorCodec
  import Json
  import Text

  /** A row as the query sees it: its unique id and its nullable sort column, read as a rank. */
  datatype Row = Row(id: string, sort: Option<int>)

  datatype Direction = Asc | Desc

  // ---------------------------------------------------------------------------------------------
  // SQL truth values
  // ---------------------------------------------------------------------------------------------

  datatype Truth = True | False | Unknown

  function Known(b: bool): Truth {
    if b then True else False
  }

  function And(a: Truth, b: Truth): Truth {
    if a == False || b == False then False else if a == True && b == True then True else Unknown
  }

  function Or(a: Truth, b: Truth): Truth {
    if a == True || b == True then True else if a == False && b == False then False else Unknown
  }

  /** Comparisons with a null column are unknown. */
  function Greater(column: Option<int>, value: int): Truth {
    if column.None? then Unknown else Known(column.value > value)
  }

  function Smaller(column: Option<int>, value: int): Truth {
    if column.None? then Unknown else Known(column.value < value)
  }

  function Equal(column: Option<int>, value: int): Truth {
    if column.None? then Unknown else Known(column.value == value)
  }

  function SeekCondition(d: Direction, sortValue: Option<int>, lastId: string, row: Row): Truth {
    var idAfter, idBefore := Known(Text.Less(lastId, row.id)), Known(Text.Less(row.id, lastId));
    if sortValue.None? then And(Known(row.sort.None?), if d.Asc? then idAfter else idBefore)
    else if d.Asc? then
      Or(Or(Greater(row.sort, sortValue.value), And(Equal(row.sort, sortValue.value), idAfter)), Known(row.sort.None?))
    else
      Or(Or(Smaller(row.sort, sortValue.value), And(Equal(row.sort, sortValue.value), idBefore)), Known(row.sort.None?))
  }

  // ---------------------------------------------------------------------------------------------
  // The order
  // ---------------------------------------------------------------------------------------------

  /** `ORDER BY column [ASC|DESC] NULLS LAST, id [ASC|DESC]` */
  predicate Before(d: Direction, a: Row, b: Row) {
    if a.sort.Some? && b.sort.Some? && a.sort != b.sort then
      if d.Asc? then a.sort.value < b.sort.value else a.sort.value > b.sort.value
    else if a.sort == b.sort then
      if d.Asc? then Text.Less(a.id, b.id) else Text.Less(b.id, a.id)
    else b.sort.None?
  }

  lemma BeforeIsTotal(d: Direction, a: Row, b: Row)
    ensures a == b || Before(d, a, b) || Before(d, b, a)
  {
    Text.LessIsTotal(a.id, b.id);
  }

  lemma BeforeIsTransitive(d: Direction, a: Row, b: Row, c: Row)
    requires Before(d, a, b) && Before(d, b, c)
    ensures Before(d, a, c)
  {
    if a.sort == b.sort == c.sort {
      if d.Asc? { Text.LessIsTransitive(a.id, b.id, c.id); } else { Text.LessIsTransitive(c.id, b.id, a.id); }
    }
  }

  lemma BeforeIsIrreflexive(d: Direction, a: Row)
    ensures !Before(d, a, a)
  {
    if Text.Less(a.id, a.id) { Text.LessIsAsymmetric(a.id, a.id); }
  }

  /** The WHERE clause keeps a row exactly when the row comes after the boundary in the ORDER BY. */
  lemma SeekAgreesWithOrder(d: Direction, boundary: Row, row: Row)
    ensures SeekCondition(d, boundary.sort, boundary.id, row) == True <==> Before(d, boundary, row)
  {
  }

  ghost predicate Ordered(d: Direction, rows: seq<Row>) {
    forall i, j :: 0 <= i < j < |rows| ==> Before(d, rows[i], rows[j])
  }

  lemma {:induction false} LeastRow(d: Direction, rows: set<Row>) returns (least: Row)
    requires rows != {}
    ensures least in rows && forall r :: r in rows && r != least ==> Before(d, least, r)
  {
    least :| least in rows;
    var rest := rows - {least};
    assert forall r :: r in rows ==> r == least || r in rest;
    if rest != {} {
      var other := LeastRow(d, rest);
      BeforeIsTotal(d, least, other);
      if Before(d, other, least) {
        least := other;
      } else {
        forall r | r in rest && r != other ensures Before(d, least, r) {
          BeforeIsTransitive(d, least, other, r);
        }
      }
    }
  }

  /** The result of the ORDER BY: the one ordered listing of a set of rows. */
  ghost function OrderBy(d: Direction, rows: set<Row>): (listing: seq<Row>)
    ensures forall r :: r in listing <==> r in rows
    ensures |listing| == |rows|
  {
    if rows == {} then []
    else
      assert exists least :: least in rows && forall r :: r in rows && r != least ==> Before(d, least, r) by {
        var least := LeastRow(d, rows);
      }
      var least :| least in rows && forall r :: r in rows && r != least ==> Before(d, least, r);
      [least] + OrderBy(d, rows - {least})
  }

  lemma {:induction false} OrderByIsOrdered(d: Direction, rows: set<Row>)
    ensures Ordered(d, OrderBy(d, rows))
  {
    if rows != {} {
      var listing := OrderBy(d, rows);
      OrderByIsOrdered(d, rows - {listing[0]});
      forall i, j | 0 <= i < j < |listing| ensures Before(d, listing[i], listing[j]) {
        assert listing[1..] == OrderBy(d, rows - {listing[0]});
        if i == 0 {
          assert listing[1..][j - 1] in rows - {listing[0]};
        } else {
          assert Before(d, listing[1..][i - 1], listing[1..][j - 1]);
        }
      }
    }
  }

  lemma HeadIsMember(rows: seq<Row>)
    requires rows != []
    ensures rows[0] in rows
  {
  }

  /** Two ordered listings of the same rows are the same listing. */
  lemma {:induction false} OrderedListingIsUnique(d: Direction, a: seq<Row>, b: seq<Row>)
    requires Ordered(d, a) && Ordered(d, b) && forall r :: r in a <==> r in b
    ensures a == b
  {
    if a == [] {
      if b != [] { HeadIsMember(b); }
    } else {
      assert a[0] in b && (b != [] ==> b[0] in a);
      var i :| 0 <= i < |b| && b[i] == a[0];
      var j :| 0 <= j < |a| && a[j] == b[0];
      if i > 0 {
        assert Before(d, b[0], b[i]);
        if j > 0 {
          assert Before(d, a[0], a[j]);
          BeforeIsTransitive(d, a[0], a[j], a[0]);
        }
        BeforeIsIrreflexive(d, a[0]);
      }
      assert a[0] == b[0];
      forall r ensures r in a[1..] <==> r in b[1..] {
        TailMembers(d, a, r);
        TailMembers(d, b, r);
      }
      OrderedListingIsUnique(d, a[1..], b[1..]);
      assert a == [a[0]] + a[1..] && b == [b[0]] + b[1..];
    }
  }

  lemma TailMembers(d: Direction, rows: seq<Row>, r: Row)
    requires Ordered(d, rows) && rows != []
    ensures r in rows[1..] <==> r in rows && r != rows[0]
  {
    BeforeIsIrreflexive(d, rows[0]);
    if r in rows[1..] {
      var k :| 0 <= k < |rows[1..]| && rows[1..][k] == r;
      assert Before(d, rows[0], rows[k + 1]);
    }
    if r in rows && r != rows[0] {
      var k :| 0 <= k < |rows| && rows[k] == r;
      assert rows[1..][k - 1] == r;
    }
  }

  // ---------------------------------------------------------------------------------------------
  // One page
  // ---------------------------------------------------------------------------------------------

  const MAX_LIMIT := 500

  /** How a resource turns its sort value into a JSON scalar and back; parsing may raise. */
  datatype SortSpec = SortSpec(
    direction: Direction, serialize: Option<int> -> Json.Value, parse: Json.Value -> Option<Option<int>>)

  datatype Page = Page(data: seq<Row>, nextCursor: Option<string>, hasMore: bool)

  datatype PageError = LimitOutOfRange | InvalidCursor | CursorNotEncodable

  /** The rows after the boundary, or all of them. */
  ghost function Matching(d: Direction, table: set<Row>, sortValue: Option<int>, lastId: string): set<Row> {
    set r | r in table && SeekCondition(d, sortValue, lastId, r) == True
  }

  ghost function PaginateQuery(
    p: Platform, spec: SortSpec, table: set<Row>, limit: int, token: Option<string>): Result<Page, PageError>
  {
    if !(1 <= limit <= MAX_LIMIT) then Err(LimitOutOfRange)
    else
      var cursor := DecodePageCursor(p, token);
      if cursor.Err? then Err(InvalidCursor)
      else if cursor.value.None? then PageOf(p, spec, table, limit)
      else
        var c := cursor.value.value;
        var sortValue := spec.parse(c.lastSortValue);
        if sortValue.None? then Err(InvalidCursor)
        else PageOf(p, spec, Matching(spec.direction, table, sortValue.value, c.lastId), limit)
  }

  function Boundary(spec: SortSpec, last: Row): Cursor {
    Cursor(spec.serialize(last.sort), last.id)
  }

  /** A boundary made of this row can be written as a token, and read back as this row's place in the order. */
  predicate Survives(p: Platform, spec: SortSpec, r: Row) {
    && spec.parse(spec.serialize(r.sort)) == Some(r.sort) && Json.IsScalar(spec.serialize(r.sort))
    && IsAscii(r.id) && Carries(p, PagePayload(Boundary(spec, r)))
  }

  ghost predicate AllSurvive(p: Platform, spec: SortSpec, table: set<Row>) {
    forall r :: r in table ==> Survives(p, spec, r)
  }

  ghost function PageOf(p: Platform, spec: SortSpec, rows: set<Row>, limit: nat): Result<Page, PageError>
    requires limit >= 1
  {
    var listing := OrderBy(spec.direction, rows);
    var fetched := if |listing| <= limit + 1 then listing else listing[..limit + 1];
    if |fetched| <= limit then Ok(Page(fetched, None, false))
    else
      var data := fetched[..limit];
      var token := EncodePageCursor(p, Boundary(spec, data[limit - 1]));
      if token.Err? then Err(CursorNotEncodable) else Ok(Page(data, Some(token.value), true))
  }

  // ---------------------------------------------------------------------------------------------
  // What a page holds
  // ---------------------------------------------------------------------------------------------

  /** `token` stands for the position just after `after`, or for the start. */
  ghost predicate StandsFor(p: Platform, spec: SortSpec, token: Option<string>, after: Option<Row>) {
    if after.None? then token == None
    else token.Some? && Ok(token.value) == EncodePageCursor(p, Boundary(spec, after.value)) && Survives(p, spec, after.value)
  }

  predicate IsAfter(d: Direction, after: Option<Row>, r: Row) {
    after.None? || Before(d, after.value, r)
  }

  ghost function RowsAfter(d: Direction, table: set<Row>, after: Option<Row>): set<Row> {
    set r | r in table && IsAfter(d, after, r)
  }

  /** Following a token selects exactly the rows after the row it was made from. */
  lemma TokenSelectsRowsAfter(
    p: Platform, spec: SortSpec, table: set<Row>, limit: int, token: Option<string>, after: Option<Row>)
    requires Lawful(p) && 1 <= limit <= MAX_LIMIT && StandsFor(p, spec, token, after)
    ensures PaginateQuery(p, spec, table, limit, token) == PageOf(p, spec, RowsAfter(spec.direction, table, after), limit)
  {
    if after.None? {
      assert RowsAfter(spec.direction, table, after) == table;
    } else {
      PageCursorRoundTrip(p, Boundary(spec, after.value));
      var matching := Matching(spec.direction, table, after.value.sort, after.value.id);
      forall r ensures r in matching <==> r in RowsAfter(spec.direction, table, after) {
        SeekAgreesWithOrder(spec.direction, after.value, r);
      }
      assert matching == RowsAfter(spec.direction, table, after);
    }
  }

  /** The page's rows are the first ones after the boundary, and its token stands for its last row. */
  ghost predicate GoodPage(p: Platform, spec: SortSpec, rows: set<Row>, limit: nat, page: Page) {
    && Ordered(spec.direction, page.data)
    && (forall r :: r in page.data ==> r in rows)
    && page.hasMore == page.nextCursor.Some?
    && (if page.nextCursor.None? then (forall r :: r in rows ==> r in page.data) && |page.data| <= limit
        else
          && |page.data| == limit >= 1 && (exists r :: r in rows && r !in page.data)
          && StandsFor(p, spec, page.nextCursor, Some(page.data[|page.data| - 1]))
          && forall r :: r in rows ==> r in page.data || Before(spec.direction, page.data[|page.data| - 1], r))
  }

  lemma NextIsNotOnThePage(d: Direction, listing: seq<Row>, limit: nat)
    requires Ordered(d, listing) && limit < |listing|
    ensures listing[limit] !in listing[..limit]
  {
    BeforeIsIrreflexive(d, listing[limit]);
  }

  lemma FirstOnesAreGood(
    p: Platform, spec: SortSpec, rows: set<Row>, limit: nat, listing: seq<Row>, data: seq<Row>, token: string)
    requires limit >= 1 && Ordered(spec.direction, listing) && (forall r :: r in rows <==> r in listing)
    requires |listing| > limit && data == listing[..limit]
    requires StandsFor(p, spec, Some(token), Some(data[limit - 1]))
    ensures GoodPage(p, spec, rows, limit, Page(data, Some(token), true))
  {
    var d, last := spec.direction, data[limit - 1];
    NextIsNotOnThePage(d, listing, limit);
    assert listing[limit] in listing;
    forall r | r in rows ensures r in data || Before(d, last, r) {
      var k :| 0 <= k < |listing| && listing[k] == r;
      if k < limit { assert data[k] == r; } else { assert Before(d, listing[limit - 1], listing[k]); }
    }
  }

  lemma {:induction false} ShortPage(p: Platform, spec: SortSpec, rows: set<Row>, limit: nat, listing: seq<Row>)
    requires limit >= 1 && listing == OrderBy(spec.direction, rows) && |listing| <= limit
    ensures PageOf(p, spec, rows, limit) == Ok(Page(listing, None, false))
  {
  }

  lemma {:induction false} FullPage(p: Platform, spec: SortSpec, rows: set<Row>, limit: nat, listing: seq<Row>, data: seq<Row>)
    requires Lawful(p) && limit >= 1 && listing == OrderBy(spec.direction, rows) && |listing| > limit
    requires data == listing[..limit] && Survives(p, spec, data[limit - 1])
    ensures var token := EncodePageCursor(p, Boundary(spec, data[limit - 1]));
      token.Ok? && PageOf(p, spec, rows, limit) == Ok(Page(data, Some(token.value), true))
  {
    PageCursorRoundTrip(p, Boundary(spec, data[limit - 1]));
    var fetched := if |listing| <= limit + 1 then listing else listing[..limit + 1];
    assert fetched[..limit] == data;
  }

  lemma PageIsGood(p: Platform, spec: SortSpec, rows: set<Row>, limit: nat)
    requires Lawful(p) && limit >= 1 && AllSurvive(p, spec, rows)
    ensures var page := PageOf(p, spec, rows, limit); page.Ok? && GoodPage(p, spec, rows, limit, page.value)
  {
    var listing := OrderBy(spec.direction, rows);
    OrderByIsOrdered(spec.direction, rows);
    if |listing| > limit {
      var data := listing[..limit];
      assert data[limit - 1] in listing;
      FullPage(p, spec, rows, limit, listing, data);
      FirstOnesAreGood(p, spec, rows, limit, listing, data, EncodePageCursor(p, Boundary(spec, data[limit - 1])).value);
    } else {
      ShortPage(p, spec, rows, limit, listing);
    }
  }

  /** A limit outside 1 to 500 is refused whatever the cursor, and nothing else is refused for its limit. */
  lemma LimitRefusedIff(p: Platform, spec: SortSpec, table: set<Row>, limit: int, token: Option<string>)
    ensures PaginateQuery(p, spec, table, limit, token) == Err(LimitOutOfRange) <==> limit < 1 || limit > 500
  {
  }

  /** A token the decoder refuses, or whose sort value the resource refuses, yields no page. */
  lemma RefusedCursorYieldsNoPage(p: Platform, spec: SortSpec, table: set<Row>, limit: int, token: string)
    requires 1 <= limit <= 500 && token != ""
    requires forall c: Cursor :: DecodePageCursor(p, Some(token)) == Ok(Some(c)) ==> spec.parse(c.lastSortValue).None?
    ensures PaginateQuery(p, spec, table, limit, Some(token)) == Err(InvalidCursor)
  {
    FirstPageIff(p, Some(token));
  }

  /** Bytes other than the digest in place of a token's signature yield no page. */
  lemma ForgedCursorYieldsNoPage(
    p: Platform, spec: SortSpec, table: set<Row>, limit: int, raw: seq<byte>, forged: seq<byte>)
    requires 1 <= limit <= 500 && forged != p.hmac(raw)
    ensures PaginateQuery(p, spec, table, limit, Some(B64Encode(raw) + "." + B64Encode(forged))) == Err(InvalidCursor)
  {
    ForgedSignatureIsRefused(p, raw, forged);
  }

  // ---------------------------------------------------------------------------------------------
  // Walks
  // ---------------------------------------------------------------------------------------------

  /** A walk: the rows returned, how many pages it took, and whether it reached the end. */
  datatype Trip = Trip(rows: seq<Row>, pages: nat, finished: bool)

  /** Follow `next_cursor`, the k-th page being read from the k-th table with the k-th limit. */
  ghost function Walk(
    p: Platform, spec: SortSpec, tables: seq<set<Row>>, limits: seq<int>, token: Option<string>): Result<Trip, PageError>
    requires |limits| == |tables|
  {
    if tables == [] then Ok(Trip([], 0, false))
    else
      var page := PaginateQuery(p, spec, tables[0], limits[0], token);
      if page.Err? then Err(page.error)
      else if page.value.nextCursor.None? then Ok(Trip(page.value.data, 1, true))
      else
        var rest := Walk(p, spec, tables[1..], limits[1..], page.value.nextCursor);
        if rest.Err? then rest
        else Ok(Trip(page.value.data + rest.value.rows, rest.value.pages + 1, rest.value.finished))
  }

  ghost predicate WalkReady(p: Platform, spec: SortSpec, tables: seq<set<Row>>, limits: seq<int>) {
    && Lawful(p) && |limits| == |tables|
    && (forall k :: 0 <= k < |tables| ==> AllSurvive(p, spec, tables[k]) && 1 <= limits[k] <= MAX_LIMIT)
  }

  /** What a walk from just after `after` returns. */
  ghost predicate GoodTrip(d: Direction, tables: seq<set<Row>>, after: Option<Row>, trip: Trip) {
    && trip.pages <= |tables|
    && Ordered(d, trip.rows)
    && (forall r :: r in trip.rows ==> IsAfter(d, after, r) && exists k :: 0 <= k < trip.pages && r in tables[k])
    && (trip.finished ==> forall r ::
          IsAfter(d, after, r) && (forall k :: 0 <= k < trip.pages ==> r in tables[k]) ==> r in trip.rows)
    && (!trip.finished ==> trip.pages == |tables| && |trip.rows| >= trip.pages)
  }

  lemma OrderedConcat(d: Direction, a: seq<Row>, b: seq<Row>)
    requires Ordered(d, a) && Ordered(d, b) && (a != [] ==> forall r :: r in b ==> Before(d, a[|a| - 1], r))
    ensures Ordered(d, a + b)
  {
    forall i, j | 0 <= i < j < |a + b| ensures Before(d, (a + b)[i], (a + b)[j]) {
      if i < |a| <= j {
        assert b[j - |a|] in b;
        if i < |a| - 1 { BeforeIsTransitive(d, a[i], a[|a| - 1], b[j - |a|]); }
      }
    }
  }

  /** A page in front of a good trip that starts after the page's last row is a good trip. */
  lemma PageThenTrip(
    p: Platform, spec: SortSpec, tables: seq<set<Row>>, limit: nat, after: Option<Row>, page: Page, rest: Trip)
    requires tables != [] && page.nextCursor.Some?
    requires GoodPage(p, spec, RowsAfter(spec.direction, tables[0], after), limit, page)
    requires GoodTrip(spec.direction, tables[1..], Some(page.data[|page.data| - 1]), rest)
    ensures GoodTrip(spec.direction, tables, after, Trip(page.data + rest.rows, rest.pages + 1, rest.finished))
  {
    var d, last, later := spec.direction, page.data[|page.data| - 1], tables[1..];
    OrderedConcat(d, page.data, rest.rows);
    forall r | r in page.data + rest.rows
      ensures IsAfter(d, after, r) && exists k :: 0 <= k < rest.pages + 1 && r in tables[k]
    {
      if r in page.data {
        assert r in tables[0];
      } else {
        var k :| 0 <= k < rest.pages && r in later[k];
        assert r in tables[k + 1];
        if after.Some? {
          assert last in page.data;
          BeforeIsTransitive(d, after.value, last, r);
        }
      }
    }
    if rest.finished {
      forall r | IsAfter(d, after, r) && (forall k :: 0 <= k < rest.pages + 1 ==> r in tables[k])
        ensures r in page.data + rest.rows
      {
        assert r in RowsAfter(d, tables[0], after);
        forall k | 0 <= k < rest.pages ensures r in later[k] { assert r in tables[k + 1]; }
      }
    }
  }

  lemma LaterPagesReady(p: Platform, spec: SortSpec, tables: seq<set<Row>>, limits: seq<int>)
    requires WalkReady(p, spec, tables, limits) && tables != []
    ensures WalkReady(p, spec, tables[1..], limits[1..])
  {
  }

  lemma LastPageIsATrip(p: Platform, spec: SortSpec, tables: seq<set<Row>>, limit: nat, after: Option<Row>, page: Page)
    requires tables != [] && page.nextCursor.None?
    requires GoodPage(p, spec, RowsAfter(spec.direction, tables[0], after), limit, page)
    ensures GoodTrip(spec.direction, tables, after, Trip(page.data, 1, true))
  {
    forall r | r in page.data ensures exists k :: 0 <= k < 1 && r in tables[k] {
      assert r in tables[0];
    }
  }

  lemma NextPageIsGood(
    p: Platform, spec: SortSpec, table: set<Row>, limit: int, token: Option<string>, after: Option<Row>) returns (page: Page)
    requires Lawful(p) && AllSurvive(p, spec, table) && 1 <= limit <= MAX_LIMIT && StandsFor(p, spec, token, after)
    ensures PaginateQuery(p, spec, table, limit, token) == Ok(page)
    ensures GoodPage(p, spec, RowsAfter(spec.direction, table, after), limit, page)
  {
    TokenSelectsRowsAfter(p, spec, table, limit, token, after);
    PageIsGood(p, spec, RowsAfter(spec.direction, table, after), limit);
    page := PageOf(p, spec, RowsAfter(spec.direction, table, after), limit).value;
  }

  /** A walk is its first page and the walk from there. */
  lemma {:induction false} WalkUnfolds(
    p: Platform, spec: SortSpec, tables: seq<set<Row>>, limits: seq<int>, token: Option<string>, page: Page)
    requires |limits| == |tables| > 0 && PaginateQuery(p, spec, tables[0], limits[0], token) == Ok(page)
    ensures page.nextCursor.None? ==> Walk(p, spec, tables, limits, token) == Ok(Trip(page.data, 1, true))
    ensures page.nextCursor.Some? ==>
      var rest := Walk(p, spec, tables[1..], limits[1..], page.nextCursor);
      rest.Ok? ==> Walk(p, spec, tables, limits, token)
                   == Ok(Trip(page.data + rest.value.rows, rest.value.pages + 1, rest.value.finished))
  {
  }

  lemma {:induction false} WalkIsGood(
    p: Platform, spec: SortSpec, tables: seq<set<Row>>, limits: seq<int>, token: Option<string>, after: Option<Row>)
    requires WalkReady(p, spec, tables, limits) && StandsFor(p, spec, token, after)
    ensures var trip := Walk(p, spec, tables, limits, token);
      trip.Ok? && GoodTrip(spec.direction, tables, after, trip.value)
    decreases |tables|
  {
    if tables != [] {
      var page := NextPageIsGood(p, spec, tables[0], limits[0], token, after);
      WalkUnfolds(p, spec, tables, limits, token, page);
      if page.nextCursor.Some? {
        LaterPagesReady(p, spec, tables, limits);
        WalkIsGood(p, spec, tables[1..], limits[1..], page.nextCursor, Some(page.data[|page.data| - 1]));
        PageThenTrip(p, spec, tables, limits[0], after, page, Walk(p, spec, tables[1..], limits[1..], page.nextCursor).value);
      } else {
        LastPageIsATrip(p, spec, tables, limits[0], after, page);
      }
    }
  }

  /** How often a listing returns a row. */
  function Times(rows: seq<Row>, r: Row): nat {
    multiset(rows)[r]
  }

  lemma {:induction false} OrderedHasNoRepeats(d: Direction, rows: seq<Row>, r: Row)
    requires Ordered(d, rows)
    ensures Times(rows, r) == if r in rows then 1 else 0
  {
    if rows != [] {
      TailMembers(d, rows, r);
      OrderedHasNoRepeats(d, rows[1..], r);
      assert rows == [rows[0]] + rows[1..];
    }
  }

  /**
   A walk over a table that changes between pages: no row comes back twice, rows come in order, and
   in a finished walk every row present throughout comes back exactly once.
   */
  lemma {:induction false} ChangingTableWalk(p: Platform, spec: SortSpec, tables: seq<set<Row>>, limits: seq<int>, r: Row)
    requires WalkReady(p, spec, tables, limits)
    ensures var trip := Walk(p, spec, tables, limits, None);
      && trip.Ok? && trip.value.pages <= |tables|
      && Ordered(spec.direction, trip.value.rows)
      && Times(trip.value.rows, r) <= 1
      && (trip.value.finished && (forall k :: 0 <= k < trip.value.pages ==> r in tables[k]) ==> Times(trip.value.rows, r) == 1)
  {
    WalkIsGood(p, spec, tables, limits, None, None);
    OrderedHasNoRepeats(spec.direction, Walk(p, spec, tables, limits, None).value.rows, r);
  }

  /** If no row's sort value is edited during the walk, no id comes back twice either. */
  lemma {:induction false} ChangingTableWalkIds(p: Platform, spec: SortSpec, tables: seq<set<Row>>, limits: seq<int>, i: nat, j: nat)
    requires WalkReady(p, spec, tables, limits)
    requires forall k, l, r, s :: 0 <= k < |tables| && 0 <= l < |tables| && r in tables[k] && s in tables[l] && r.id == s.id ==> r == s
    ensures var trip := Walk(p, spec, tables, limits, None);
      trip.Ok? && (i < j < |trip.value.rows| ==> trip.value.rows[i].id != trip.value.rows[j].id)
  {
    WalkIsGood(p, spec, tables, limits, None, None);
    var trip := Walk(p, spec, tables, limits, None).value;
    if i < j < |trip.rows| {
      assert trip.rows[i] in trip.rows && trip.rows[j] in trip.rows;
      assert Before(spec.direction, trip.rows[i], trip.rows[j]);
      BeforeIsIrreflexive(spec.direction, trip.rows[i]);
    }
  }

  /**
   A walk over a fixed table, with any limits: given as many pages as there are rows, and one more,
   it ends, and what it returned is the whole table in nulls-last order.
   */
  lemma {:induction false} FixedTableWalk(p: Platform, spec: SortSpec, table: set<Row>, limits: seq<int>)
    requires WalkReady(p, spec, Unchanging(table, |limits|), limits) && |limits| > |table|
    ensures var trip := Walk(p, spec, Unchanging(table, |limits|), limits, None);
      trip.Ok? && trip.value.finished && trip.value.rows == OrderBy(spec.direction, table)
  {
    WalkIsGood(p, spec, Unchanging(table, |limits|), limits, None, None);
    FixedTripIsListing(spec.direction, table, |limits|, Walk(p, spec, Unchanging(table, |limits|), limits, None).value);
  }

  function Unchanging(table: set<Row>, pages: nat): seq<set<Row>> {
    seq(pages, _ => table)
  }

  lemma {:induction false} FixedTripIsListing(d: Direction, table: set<Row>, pages: nat, trip: Trip)
    requires GoodTrip(d, Unchanging(table, pages), None, trip) && pages > |table|
    ensures trip.finished && trip.rows == OrderBy(d, table)
  {
    OrderedFits(d, trip.rows, table);
    OrderByIsOrdered(d, table);
    forall r ensures r in trip.rows <==> r in OrderBy(d, table) {
      if r in table { assert forall k :: 0 <= k < trip.pages ==> r in Unchanging(table, pages)[k]; }
    }
    OrderedListingIsUnique(d, trip.rows, OrderBy(d, table));
  }

  lemma {:induction false} OrderedFits(d: Direction, rows: seq<Row>, table: set<Row>)
    requires Ordered(d, rows) && forall r :: r in rows ==> r in table
    ensures |rows| <= |table|
  {
    if rows != [] {
      forall r | r in rows[1..] ensures r in table - {rows[0]} {
        TailMembers(d, rows, r);
      }
      OrderedFits(d, rows[1..], table - {rows[0]});
    }
  }
}
