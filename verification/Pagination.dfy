/** Case folding as LOWER and strings.ToLower do it on hexadecimal text. */
module Text {
  function LowerChar(c: char): char {
    if 'A' <= c <= 'Z' then c - 'A' + 'a' else c
  }

  function Lower(s: string): (r: string)
    ensures |r| == |s|
  {
    seq(|s|, i requires 0 <= i < |s| => LowerChar(s[i]))
  }

  /** The same text but for the case of the letters A to Z. */
  ghost predicate EqualUpToCase(a: string, b: string) {
    |a| == |b| && forall i :: 0 <= i < |a| ==>
      || a[i] == b[i]
      || ('A' <= a[i] <= 'Z' && b[i] as int == a[i] as int + 32)
      || ('A' <= b[i] <= 'Z' && a[i] as int == b[i] as int + 32)
  }

  lemma LowerComparesIgnoringCase(a: string, b: string)
    ensures Lower(a) == Lower(b) <==> EqualUpToCase(a, b)
  {
    assert forall i :: 0 <= i < |a| ==> Lower(a)[i] == LowerChar(a[i]);
    assert forall i :: 0 <= i < |b| ==> Lower(b)[i] == LowerChar(b[i]);
    if Lower(a) == Lower(b) {
      forall i | 0 <= i < |a|
        ensures || a[i] == b[i]
                || ('A' <= a[i] <= 'Z' && b[i] as int == a[i] as int + 32)
                || ('A' <= b[i] <= 'Z' && a[i] as int == b[i] as int + 32)
      {
        assert LowerChar(a[i]) == Lower(a)[i] == Lower(b)[i] == LowerChar(b[i]);
      }
    }
    if EqualUpToCase(a, b) {
      forall i | 0 <= i < |a| ensures Lower(a)[i] == Lower(b)[i] {
        assert LowerChar(a[i]) == LowerChar(b[i]);
      }
    }
  }
}

/** PostgresTransferReader.ListTransfers and keyset pagination over the transfer table. */
module Pagination {
  import opened Chain
  import opened Store
  import opened Text

  type Row = StoredTransfer

  datatype Cursor = Cursor(blockNumber: nat, logIndex: Uint64)

  datatype Query = Query(blockNumber: Option<Uint64>, token: Option<string>, address: Option<string>,
                         cursor: Option<Cursor>, limit: int)

  datatype Page = Page(transfers: seq<Row>, next: Option<Cursor>)

  datatype ReadError = NegativeLogIndex

  function EffectiveLimit(limit: int): nat {
    if limit <= 0 then 100 else if limit > 1000 then 1000 else limit
  }

  /** The value of the signed log_index column; it is negative for the largest unsigned indexes. */
  function LogColumn(r: Row): int {
    AsInt64(r.transfer.logIndex)
  }

  function PositionOf(r: Row): Cursor {
    Cursor(r.blockNumber, r.transfer.logIndex)
  }

  predicate Newer(a: Row, b: Row) {
    a.blockNumber > b.blockNumber || (a.blockNumber == b.blockNumber && LogColumn(a) > LogColumn(b))
  }

  /** The keyset predicate of the WHERE clause. */
  predicate Past(c: Cursor, r: Row) {
    r.blockNumber < AsInt64(c.blockNumber)
    || (r.blockNumber == AsInt64(c.blockNumber) && LogColumn(r) < AsInt64(c.logIndex))
  }

  predicate Filtered(q: Query, r: Row) {
    && (q.blockNumber.Some? ==> r.blockNumber == AsInt64(q.blockNumber.value))
    && (q.token.Some? ==> Lower(r.transfer.token) == Lower(q.token.value))
    && (q.address.Some? ==> Lower(r.transfer.sender) == Lower(q.address.value)
                            || Lower(r.transfer.receiver) == Lower(q.address.value))
  }

  predicate Selected(q: Query, r: Row) {
    Filtered(q, r) && (q.cursor.Some? ==> Past(q.cursor.value, r))
  }

  function Matching(table: set<Row>, q: Query): set<Row> {
    set r | r in table && Selected(q, r)
  }

  /** ORDER BY block_number DESC, log_index DESC LIMIT n; ties come in any order. */
  ghost predicate IsTop(rows: seq<Row>, all: set<Row>, n: nat) {
    && |rows| == (if n < |all| then n else |all|)
    && (forall i :: 0 <= i < |rows| ==> rows[i] in all)
    && (forall i, j :: 0 <= i < j < |rows| ==> rows[i] != rows[j] && !Newer(rows[j], rows[i]))
    && (forall r, i :: r in all && r !in rows && 0 <= i < |rows| ==> !Newer(r, rows[i]))
  }

  /** A page: the newest selected rows, and a cursor exactly when more are left. */
  ghost predicate IsPage(table: set<Row>, q: Query, page: Page) {
    var all, limit := Matching(table, q), EffectiveLimit(q.limit);
    && IsTop(page.transfers, all, limit)
    && page.next == if |all| > limit then Some(PositionOf(page.transfers[limit - 1])) else None
  }

  lemma {:induction false} NewestExists(rows: set<Row>) returns (m: Row)
    requires rows != {}
    ensures m in rows && forall r :: r in rows ==> !Newer(r, m)
  {
    m :| m in rows;
    var rest := rows - {m};
    if rest != {} {
      var best := NewestExists(rest);
      m := if Newer(m, best) then m else best;
      assert forall r :: r in rows ==> r in rest || rows - rest == {r};
    } else {
      assert rows == {m};
    }
  }

  /** The database's part of the query. */
  method RunQuery(all: set<Row>, n: nat) returns (rows: seq<Row>)
    ensures IsTop(rows, all, n)
  {
    rows := [];
    var rest := all;
    while |rows| < n && rest != {}
      invariant |rows| + |rest| == |all| && |rows| <= n
      invariant forall r :: r in all <==> r in rows || r in rest
      invariant forall r :: r in rows ==> r !in rest
      invariant forall i, j :: 0 <= i < j < |rows| ==> rows[i] != rows[j] && !Newer(rows[j], rows[i])
      invariant forall r, i :: r in rest && 0 <= i < |rows| ==> !Newer(r, rows[i])
      decreases |rest|
    {
      ghost var newest := NewestExists(rest);
      var m :| m in rest && forall r :: r in rest ==> !Newer(r, m);
      rows := rows + [m];
      rest := rest - {m};
    }
  }

  /** The row fetched beyond the limit is only there to tell that more follow. */
  lemma DropExtraRow(rows: seq<Row>, all: set<Row>, limit: nat)
    requires IsTop(rows, all, limit + 1) && |rows| > limit
    ensures IsTop(rows[..limit], all, limit)
  {
    forall r, i | r in all && r !in rows[..limit] && 0 <= i < limit ensures !Newer(r, rows[i]) {
      assert r in rows ==> r == rows[limit];
    }
  }

  ghost predicate Readable(rows: seq<Row>) {
    forall i :: 0 <= i < |rows| ==> LogColumn(rows[i]) >= 0
  }

  /** The rows the query may fetch include one that cannot be read back. */
  ghost predicate Unreadable(all: set<Row>, n: nat) {
    exists rows :: IsTop(rows, all, n) && !Readable(rows)
  }

  method ListTransfers(table: set<Row>, q: Query) returns (r: Result<Page, ReadError>)
    ensures r.Ok? ==> IsPage(table, q, r.value) && Readable(r.value.transfers)
    ensures r.Ok? ==>
      var most := if q.limit <= 0 then 100 else if q.limit <= 1000 then q.limit else 1000;
      |r.value.transfers| <= most && (r.value.next.Some? ==> |r.value.transfers| == most)
    ensures r.Err? ==> Unreadable(Matching(table, q), EffectiveLimit(q.limit) + 1)
  {
    var limit := q.limit;
    if limit <= 0 {
      limit := 100;
    }
    if limit > 1000 {
      limit := 1000;
    }
    var all := Matching(table, q);
    var rows := RunQuery(all, limit + 1);
    var transfers: seq<Row> := [];
    for i := 0 to |rows|
      invariant transfers == rows[..i] && Readable(transfers)
    {
      if LogColumn(rows[i]) < 0 {
        assert !Readable(rows);
        return Err(NegativeLogIndex);
      }
      transfers := transfers + [rows[i]];
    }
    assert transfers == rows;
    if |transfers| > limit {
      var last := transfers[limit - 1];
      DropExtraRow(rows, all, limit);
      return Ok(Page(transfers[..limit], Some(Cursor(last.blockNumber, last.transfer.logIndex))));
    }
    return Ok(Page(transfers, None));
  }

  // ----- following NextCursor -----

  ghost predicate UniquePositions(rows: set<Row>) {
    forall a, b :: a in rows && b in rows && PositionOf(a) == PositionOf(b) ==> a == b
  }

  ghost predicate Bounded(table: set<Row>) {
    forall r :: r in table ==> r.blockNumber <= MAX_BIGINT
  }

  function After(q: Query, page: Page): Query {
    q.(cursor := page.next)
  }

  /** The pages read from `q` on, one per table state, until there is no next cursor. */
  ghost predicate Walk(tables: seq<set<Row>>, q: Query, pages: seq<Page>)
    decreases |pages|
  {
    && pages != [] && |tables| == |pages|
    && IsPage(tables[0], q, pages[0])
    && if pages[0].next.None? then |pages| == 1 else Walk(tables[1..], After(q, pages[0]), pages[1..])
  }

  /** The same over one table that stays as it is. */
  ghost predicate FixedWalk(table: set<Row>, q: Query, pages: seq<Page>)
    decreases |pages|
  {
    && pages != [] && IsPage(table, q, pages[0])
    && if pages[0].next.None? then |pages| == 1 else FixedWalk(table, After(q, pages[0]), pages[1..])
  }

  function Rows(pages: seq<Page>): seq<Row>
    decreases |pages|
  {
    if pages == [] then [] else pages[0].transfers + Rows(pages[1..])
  }

  ghost predicate StrictlyDescending(rows: seq<Row>) {
    forall i, j :: 0 <= i < j < |rows| ==> Newer(rows[i], rows[j])
  }

  /** How many pages hold n rows: at least one, and no empty page after an exact multiple. */
  function PageCount(n: nat, limit: nat): nat
    requires limit > 0
    decreases n
  {
    if n <= limit then 1 else 1 + PageCount(n - limit, limit)
  }

  function Taken(rows: seq<Row>): set<Row> {
    set r | r in rows
  }

  /** What lies past the cursor of a page is what the page left out. */
  lemma {:induction false} RestIsPastCursor(table: set<Row>, q: Query, page: Page)
    requires Bounded(table) && UniquePositions(Matching(table, q)) && IsPage(table, q, page) && page.next.Some?
    ensures Matching(table, After(q, page)) == Matching(table, q) - Taken(page.transfers)
  {
    var all, rows := Matching(table, q), page.transfers;
    var last := rows[|rows| - 1];
    assert last in all;
    assert forall i :: 0 <= i < |rows| - 1 ==> !Newer(last, rows[i]);
    forall r | r in table
      ensures r in Matching(table, After(q, page)) <==> r in all && r !in rows
    {
      if r in all && r !in rows {
        assert !Newer(r, last) && PositionOf(r) != PositionOf(last);
        assert Selected(After(q, page), r);
      }
      if Selected(After(q, page), r) {
        assert Newer(last, r);
        assert Selected(q, r);
        assert r !in rows[..|rows| - 1] && r != last;
      }
    }
  }

  lemma {:induction false} DistinctCount(rows: seq<Row>)
    requires forall i, j :: 0 <= i < j < |rows| ==> rows[i] != rows[j]
    ensures |Taken(rows)| == |rows|
  {
    if rows != [] {
      var init := rows[..|rows| - 1];
      DistinctCount(init);
      assert Taken(rows) == Taken(init) + {rows[|rows| - 1]};
    }
  }

  lemma RestCount(rows: seq<Row>, all: set<Row>, n: nat)
    requires IsTop(rows, all, n)
    ensures |all - Taken(rows)| == |all| - |rows|
  {
    DistinctCount(rows);
    assert Taken(rows) <= all;
    assert |all - Taken(rows)| == |all| - |Taken(rows)|;
  }

  lemma DescendingCount(rows: seq<Row>)
    requires StrictlyDescending(rows)
    ensures |Taken(rows)| == |rows|
  {
    assert forall i, j :: 0 <= i < j < |rows| ==> Newer(rows[i], rows[j]);
    DistinctCount(rows);
  }

  ghost predicate Lists(rows: seq<Row>, all: set<Row>) {
    StrictlyDescending(rows) && Taken(rows) == all
  }

  lemma FullPageTakesAll(rows: seq<Row>, all: set<Row>, n: nat)
    requires IsTop(rows, all, n) && |all| <= n
    ensures Taken(rows) == all
  {
    RestCount(rows, all, n);
    assert all - Taken(rows) == {};
  }

  lemma PageDescends(rows: seq<Row>, all: set<Row>, n: nat)
    requires IsTop(rows, all, n) && UniquePositions(all)
    ensures StrictlyDescending(rows)
    ensures |all| <= n ==> Lists(rows, all)
  {
    forall i, j | 0 <= i < j < |rows| ensures Newer(rows[i], rows[j]) {
      assert rows[i] in all && rows[j] in all && PositionOf(rows[i]) != PositionOf(rows[j]);
    }
    if |all| <= n {
      FullPageTakesAll(rows, all, n);
    }
  }

  lemma JoinLists(page: seq<Row>, rest: seq<Row>, all: set<Row>, n: nat)
    requires IsTop(page, all, n) && UniquePositions(all)
    requires Lists(rest, all - Taken(page))
    ensures Lists(page + rest, all)
  {
    PageDescends(page, all, n);
    var rows := page + rest;
    forall i, j | 0 <= i < j < |rows| ensures Newer(rows[i], rows[j]) {
      if i < |page| <= j {
        var r := rest[j - |page|];
        assert r in Taken(rest);
        assert !Newer(r, page[i]) && PositionOf(r) != PositionOf(page[i]);
      }
    }
    assert Taken(rows) == Taken(page) + Taken(rest);
  }

  /** A page that is not the last takes `limit` matching rows and leaves the others to its cursor. */
  lemma {:induction false} PageSplits(table: set<Row>, q: Query, page: Page)
    requires Bounded(table) && UniquePositions(Matching(table, q)) && IsPage(table, q, page) && page.next.Some?
    ensures IsTop(page.transfers, Matching(table, q), EffectiveLimit(q.limit))
    ensures Matching(table, After(q, page)) == Matching(table, q) - Taken(page.transfers)
    ensures UniquePositions(Matching(table, After(q, page)))
    ensures |Matching(table, q)| == |Matching(table, After(q, page))| + EffectiveLimit(q.limit)
    ensures Matching(table, After(q, page)) != {}
  {
    RestIsPastCursor(table, q, page);
    RestCount(page.transfers, Matching(table, q), EffectiveLimit(q.limit));
  }

  /** A last page lists what is left; another page, followed by a listing of the rest, lists everything. */
  lemma PageThenRest(table: set<Row>, q: Query, page: Page, rest: seq<Row>)
    requires Bounded(table) && UniquePositions(Matching(table, q)) && IsPage(table, q, page)
    requires page.next.Some? ==> Lists(rest, Matching(table, After(q, page)))
    ensures page.next.None? ==> Lists(page.transfers, Matching(table, q))
    ensures page.next.Some? ==> Lists(page.transfers + rest, Matching(table, q))
  {
    if page.next.None? {
      PageDescends(page.transfers, Matching(table, q), EffectiveLimit(q.limit));
    } else {
      PageSplits(table, q, page);
      JoinLists(page.transfers, rest, Matching(table, q), EffectiveLimit(q.limit));
    }
  }

  lemma {:induction false} WalkLists(table: set<Row>, q: Query, pages: seq<Page>)
    requires Bounded(table) && UniquePositions(Matching(table, q)) && FixedWalk(table, q, pages)
    ensures Lists(Rows(pages), Matching(table, q))
    decreases |pages|
  {
    var page, rest := pages[0], Rows(pages[1..]);
    if page.next.Some? {
      PageSplits(table, q, page);
      WalkLists(table, After(q, page), pages[1..]);
    } else {
      LastPageRows(pages);
    }
    PageThenRest(table, q, page, rest);
  }

  lemma {:induction false} WalkCounts(table: set<Row>, q: Query, pages: seq<Page>)
    requires Bounded(table) && UniquePositions(Matching(table, q)) && FixedWalk(table, q, pages)
    ensures |pages| == PageCount(|Matching(table, q)|, EffectiveLimit(q.limit))
    decreases |pages|
  {
    var page := pages[0];
    if page.next.Some? {
      PageSplits(table, q, page);
      WalkCounts(table, After(q, page), pages[1..]);
    }
  }

  /**
    Following NextCursor to the end returns every matching row exactly once, in strictly
    descending (block, log) order, on the least number of pages, whatever the filters and limit.
    */
  lemma {:induction false} WalkListsEverything(table: set<Row>, q: Query, pages: seq<Page>)
    requires Bounded(table) && UniquePositions(Matching(table, q)) && FixedWalk(table, q, pages)
    ensures Lists(Rows(pages), Matching(table, q))
    ensures |pages| == PageCount(|Matching(table, q)|, EffectiveLimit(q.limit))
  {
    WalkLists(table, q, pages);
    WalkCounts(table, q, pages);
  }

  lemma LastPageRows(pages: seq<Page>)
    requires |pages| == 1
    ensures Rows(pages) == pages[0].transfers
  {
    assert Rows(pages[1..]) == [];
  }

  lemma {:induction false} TopExists(all: set<Row>, n: nat) returns (rows: seq<Row>)
    ensures IsTop(rows, all, n)
    decreases n
  {
    rows := [];
    if n > 0 && all != {} {
      var m := NewestExists(all);
      var rest := TopExists(all - {m}, n - 1);
      rows := [m] + rest;
    }
  }

  /** The cursor strictly descends: the rows past a page are fewer, even if positions are shared. */
  lemma CursorDescends(table: set<Row>, q: Query, page: Page)
    requires Bounded(table) && IsPage(table, q, page) && page.next.Some?
    ensures |Matching(table, After(q, page))| < |Matching(table, q)|
  {
    var all, rest := Matching(table, q), Matching(table, After(q, page));
    var last := page.transfers[|page.transfers| - 1];
    assert last in all && last !in rest;
    forall r | r in rest ensures r in all {
      assert Newer(last, r);
    }
    SmallerSubset(rest, all, last);
  }

  lemma SmallerSubset(a: set<Row>, b: set<Row>, x: Row)
    requires a <= b && x in b && x !in a
    ensures |a| < |b|
  {
    assert a <= b - {x};
    SubsetSize(a, b - {x});
  }

  lemma {:induction false} SubsetSize(a: set<Row>, b: set<Row>)
    requires a <= b
    ensures |a| <= |b|
  {
    if a != {} {
      var x :| x in a;
      SubsetSize(a - {x}, b - {x});
    }
  }

  /** The walk ends: from any query, over any table, a last page is reached. */
  lemma {:induction false} WalkEnds(table: set<Row>, q: Query) returns (pages: seq<Page>)
    requires Bounded(table)
    ensures FixedWalk(table, q, pages)
    decreases |Matching(table, q)|
  {
    var all, limit := Matching(table, q), EffectiveLimit(q.limit);
    var rows := TopExists(all, limit);
    if |all| <= limit {
      pages := [Page(rows, None)];
    } else {
      var page := Page(rows, Some(PositionOf(rows[limit - 1])));
      CursorDescends(table, q, page);
      var rest := WalkEnds(table, After(q, page));
      pages := [page] + rest;
      assert pages[1..] == rest;
    }
  }

  // ----- uniqueness of positions is exactly what completeness needs -----

  lemma {:induction false} OneByOneDescends(table: set<Row>, q: Query, pages: seq<Page>)
    requires Bounded(table) && q.limit == 1 && FixedWalk(table, q, pages)
    ensures StrictlyDescending(Rows(pages))
    ensures forall r :: r in Rows(pages) ==> Selected(q, r)
    decreases |pages|
  {
    var page, rest := pages[0], pages[1..];
    assert forall i :: 0 <= i < |page.transfers| ==> page.transfers[i] in Matching(table, q);
    if page.next.None? {
      LastPageRows(pages);
    } else {
      var last := page.transfers[0];
      assert page.transfers == [last];
      OneByOneDescends(table, After(q, page), rest);
      forall r | r in Rows(rest) ensures Newer(last, r) && Selected(q, r) {
        assert Past(PositionOf(last), r);
      }
      forall i, j | 0 <= i < j < |Rows(pages)| ensures Newer(Rows(pages)[i], Rows(pages)[j]) {
        if i == 0 {
          assert Rows(pages)[j] == Rows(rest)[j - 1];
        }
      }
    }
  }

  /** Two matching rows at one position: reading one row at a time, one of the two is never returned. */
  lemma SharedPositionLosesARow(table: set<Row>, q: Query, pages: seq<Page>, a: Row, b: Row)
    requires Bounded(table) && q.limit == 1 && FixedWalk(table, q, pages)
    requires a in Matching(table, q) && b in Matching(table, q) && a != b && PositionOf(a) == PositionOf(b)
    ensures a !in Rows(pages) || b !in Rows(pages)
  {
    OneByOneDescends(table, q, pages);
  }

  ghost predicate Complete(table: set<Row>, q: Query, pages: seq<Page>) {
    Taken(Rows(pages)) == Matching(table, q)
  }

  /** Reading row by row returns every matching row exactly when no two of them share a position. */
  lemma OneRowWalkIsCompleteIff(table: set<Row>, q: Query)
    requires Bounded(table) && q.limit == 1
    ensures (forall pages :: FixedWalk(table, q, pages) ==> Complete(table, q, pages))
       <==> UniquePositions(Matching(table, q))
  {
    var all := Matching(table, q);
    if UniquePositions(all) {
      forall pages | FixedWalk(table, q, pages) ensures Complete(table, q, pages) {
        WalkListsEverything(table, q, pages);
      }
    } else {
      var a, b :| a in all && b in all && PositionOf(a) == PositionOf(b) && a != b;
      var pages := WalkEnds(table, q);
      SharedPositionLosesARow(table, q, pages, a, b);
      assert !Complete(table, q, pages);
    }
  }

  // ----- commits between page reads -----

  /** `later` differs from `table` only by rows of blocks above all of `table`'s. */
  ghost predicate OnlyNewerAdded(table: set<Row>, later: set<Row>) {
    table <= later && forall r, x :: r in later && r !in table && x in table ==> r.blockNumber > x.blockNumber
  }

  lemma CursorHidesNewRows(table: set<Row>, later: set<Row>, q: Query, x: Row)
    requires OnlyNewerAdded(table, later) && Bounded(table) && x in table && q.cursor == Some(PositionOf(x))
    ensures Matching(later, q) == Matching(table, q)
  {
  }

  lemma {:induction false} LaterPagesAreStable(table: set<Row>, q: Query, tables: seq<set<Row>>, pages: seq<Page>,
                                               x: Row)
    requires Bounded(table) && x in table && q.cursor == Some(PositionOf(x))
    requires Walk(tables, q, pages) && forall i :: 0 <= i < |tables| ==> OnlyNewerAdded(table, tables[i])
    ensures FixedWalk(table, q, pages)
    decreases |pages|
  {
    CursorHidesNewRows(table, tables[0], q, x);
    if pages[0].next.Some? {
      var rows := pages[0].transfers;
      var last := rows[|rows| - 1];
      assert last in Matching(tables[0], q);
      LaterPagesAreStable(table, After(q, pages[0]), tables[1..], pages[1..], last);
    }
  }

  /** Commits between page reads do not disturb the walk: it lists the table as of the first read. */
  lemma {:induction false} WalkIsStable(q: Query, tables: seq<set<Row>>, pages: seq<Page>)
    requires Walk(tables, q, pages) && Bounded(tables[0]) && UniquePositions(Matching(tables[0], q))
    requires forall i :: 0 <= i < |tables| ==> OnlyNewerAdded(tables[0], tables[i])
    ensures Lists(Rows(pages), Matching(tables[0], q))
    ensures |pages| == PageCount(|Matching(tables[0], q)|, EffectiveLimit(q.limit))
  {
    var table := tables[0];
    if pages[0].next.Some? {
      var rows := pages[0].transfers;
      var last := rows[|rows| - 1];
      assert last in Matching(table, q);
      LaterPagesAreStable(table, After(q, pages[0]), tables[1..], pages[1..], last);
    }
    WalkListsEverything(table, q, pages);
  }

  // ----- the store's invariant supplies uniqueness and stability -----

  function TableOf(p: seq<Block>): set<Row> {
    TransfersOf(p).Values
  }

  lemma StoredRowsAreUnique(w: World, s: Tables, p: seq<Block>)
    requires WellFormed(w) && Tracks(w, s, p)
    ensures UniquePositions(TableOf(p)) && Bounded(TableOf(p))
  {
    var t := TransfersOf(p);
    forall a, b | a in t.Values && b in t.Values && PositionOf(a) == PositionOf(b) ensures a == b {
      var k :| k in t && t[k] == a;
      var l :| l in t && t[l] == b;
      var i, x := RowSource(p, k);
      var j, y := RowSource(p, l);
      PositionsAreUnique(w, p, k, l);
    }
    forall r | r in t.Values ensures r.blockNumber <= MAX_BIGINT {
      var k :| k in t && t[k] == r;
      var i, x := RowSource(p, k);
      assert Storable(p[i]);
    }
  }

  lemma CommitsOnlyAddNewer(w: World, p: seq<Block>, q: seq<Block>)
    requires WellFormed(w) && Path(w, p) && Path(w, p + q)
    ensures OnlyNewerAdded(TableOf(p), TableOf(p + q))
  {
    var t, u := TransfersOf(p), TransfersOf(p + q);
    forall r | r in t.Values ensures r in u.Values {
      var k :| k in t && t[k] == r;
      var i, x := RowSource(p, k);
      RowIsPresent(w, p + q, i, x);
      assert u[k] == r;
    }
    forall r, x | r in u.Values && r !in t.Values && x in t.Values ensures r.blockNumber > x.blockNumber {
      var k :| k in u && u[k] == r;
      var i, y := RowSource(p + q, k);
      if i < |p| {
        RowIsPresent(w, p, i, y);
        assert false;
      }
      LinkedNumbers(p + q, i);
      TransferNumbers(p);
      LinkedNumbers(p, |p| - 1);
      var l :| l in t && t[l] == x;
    }
  }

  /** Reading back the rows of a segment never fails exactly if no log index has overflowed its column. */
  lemma RowsAreReadableIff(w: World, p: seq<Block>)
    requires WellFormed(w) && Path(w, p)
    ensures (forall r :: r in TableOf(p) ==> LogColumn(r) >= 0)
       <==> (forall i, x :: 0 <= i < |p| && 0 <= x < |p[i].transfers| ==> p[i].transfers[x].logIndex <= MAX_BIGINT)
  {
    forall r | r in TableOf(p) ensures FromSegment(p, r) {
      var k :| k in TransfersOf(p) && TransfersOf(p)[k] == r;
      var i, x := RowSource(p, k);
    }
    if forall r :: r in TableOf(p) ==> LogColumn(r) >= 0 {
      forall i, x | 0 <= i < |p| && 0 <= x < |p[i].transfers|
        ensures p[i].transfers[x].logIndex <= MAX_BIGINT
      {
        RowIsPresent(w, p, i, x);
        var row := TransfersOf(p)[KeyOf(p[i].transfers[x])];
        assert row in TableOf(p);
      }
    }
  }

  ghost predicate FromSegment(p: seq<Block>, r: Row) {
    exists i, x :: 0 <= i < |p| && 0 <= x < |p[i].transfers| && r == RowOf(p[i], p[i].transfers[x])
  }

  /**
    The API's pages over the indexer's tables: with any commits between page reads, the pages
    together list exactly the matching transfers stored at the first read, newest first, each once.
    */
  lemma {:induction false} PagesListTheIndex(w: World, s: Tables, p: seq<Block>, grown: seq<seq<Block>>, q: Query,
                                             pages: seq<Page>)
    requires WellFormed(w) && Tracks(w, s, p)
    requires |grown| == |pages| > 0 && grown[0] == [] && forall i :: 0 <= i < |grown| ==> Path(w, p + grown[i])
    requires Walk(seq(|grown|, i requires 0 <= i < |grown| => TableOf(p + grown[i])), q, pages)
    ensures Lists(Rows(pages), Matching(s.transfers.Values, q))
    ensures |pages| == PageCount(|Matching(s.transfers.Values, q)|, EffectiveLimit(q.limit))
  {
    var tables := seq(|grown|, i requires 0 <= i < |grown| => TableOf(p + grown[i]));
    assert p + grown[0] == p;
    StoredRowsAreUnique(w, s, p);
    forall i | 0 <= i < |tables| ensures OnlyNewerAdded(tables[0], tables[i]) {
      CommitsOnlyAddNewer(w, p, grown[i]);
    }
    WalkIsStable(q, tables, pages);
  }
}
