/** Listings read from the tables of a running process, while it indexes. */
module Listing {
  import opened Chain
  import opened Store
  import opened Runs
  import opened Lifetimes
  import opened Pagination
  import opened Text

  /** The moments of the page reads, one after the other. */
  ghost predicate Ordered(at: seq<nat>, bound: nat) {
    (forall k :: 0 <= k < |at| ==> at[k] < bound) && (forall k, l :: 0 <= k <= l < |at| ==> at[k] <= at[l])
  }

  ghost function RowsAt(trace: seq<Process>, at: seq<nat>): (tables: seq<set<Row>>)
    requires Ordered(at, |trace|)
    ensures |tables| == |at|
    ensures forall k :: 0 <= k < |at| ==> tables[k] == StoreNow(trace[at[k]]).transfers.Values
  {
    seq(|at|, k requires 0 <= k < |at| => StoreNow(trace[at[k]]).transfers.Values)
  }

  /** What has been committed between two moments lies above everything stored at the first. */
  lemma LaterTableGrows(w: World, cfg: Settings, trace: seq<Process>, i: nat, j: nat, p: seq<Block>)
    requires WellFormed(w) && cfg.workerCount > 0 && Execution(w, cfg, trace) && i <= j < |trace|
    requires Tracks(w, StoreNow(trace[i]), p) && NoBoots(cfg, trace, i, j)
    ensures OnlyNewerAdded(StoreNow(trace[i]).transfers.Values, StoreNow(trace[j]).transfers.Values)
  {
    var q := SegmentsGrow(w, cfg, trace, i, j, p);
    CommitsOnlyAddNewer(w, p, q);
  }

  lemma LaterTablesGrow(w: World, cfg: Settings, trace: seq<Process>, at: seq<nat>, p: seq<Block>)
    requires WellFormed(w) && cfg.workerCount > 0 && Execution(w, cfg, trace)
    requires at != [] && Ordered(at, |trace|) && NoBoots(cfg, trace, at[0], at[|at| - 1])
    requires Tracks(w, StoreNow(trace[at[0]]), p)
    ensures forall k :: 0 <= k < |at| ==> OnlyNewerAdded(RowsAt(trace, at)[0], RowsAt(trace, at)[k])
  {
    forall k | 0 <= k < |at| ensures OnlyNewerAdded(RowsAt(trace, at)[0], RowsAt(trace, at)[k]) {
      assert at[0] <= at[k] <= at[|at| - 1];
      LaterTableGrows(w, cfg, trace, at[0], at[k], p);
    }
  }

  /** The transfer t of a block numbered n passes the filters, and the cursor, of a query. */
  ghost predicate Asked(q: Query, n: nat, t: Transfer) {
    && (q.blockNumber.Some? ==> n == q.blockNumber.value)
    && (q.token.Some? ==> EqualUpToCase(t.token, q.token.value))
    && (q.address.Some? ==> EqualUpToCase(t.sender, q.address.value) || EqualUpToCase(t.receiver, q.address.value))
    && (q.cursor.Some? ==> var c := q.cursor.value;
          n < AsInt64(c.blockNumber) || (n == AsInt64(c.blockNumber) && AsInt64(t.logIndex) < AsInt64(c.logIndex)))
  }

  lemma AskedIsSelected(q: Query, r: Row)
    requires r.blockNumber <= MAX_BIGINT
    ensures Selected(q, r) <==> Asked(q, r.blockNumber, r.transfer)
  {
    if q.token.Some? {
      LowerComparesIgnoringCase(r.transfer.token, q.token.value);
    }
    if q.address.Some? {
      LowerComparesIgnoringCase(r.transfer.sender, q.address.value);
      LowerComparesIgnoringCase(r.transfer.receiver, q.address.value);
    }
  }

  /** The rows are exactly those of the segment's transfers that the query asks for. */
  ghost predicate ListsTransfers(rows: seq<Row>, p: seq<Block>, q: Query) {
    && (forall i, x :: 0 <= i < |p| && 0 <= x < |p[i].transfers| ==>
          (StoredTransfer(p[i].number, p[i].hash, p[i].transfers[x]) in rows
           <==> Asked(q, p[i].number, p[i].transfers[x])))
    && (forall r :: r in rows ==> exists i, x ::
          && 0 <= i < |p| && 0 <= x < |p[i].transfers|
          && r.blockNumber == p[i].number && r.blockHash == p[i].hash && r.transfer == p[i].transfers[x])
  }

  lemma ListedIffAsked(w: World, s: Tables, p: seq<Block>, q: Query, rows: seq<Row>)
    requires WellFormed(w) && Tracks(w, s, p) && Lists(rows, Matching(s.transfers.Values, q))
    ensures ListsTransfers(rows, p, q)
  {
    TransferTableIsExact(w, s, p);
    assert forall r :: r in rows <==> r in Taken(rows);
    forall i, x | 0 <= i < |p| && 0 <= x < |p[i].transfers|
      ensures StoredTransfer(p[i].number, p[i].hash, p[i].transfers[x]) in rows
         <==> Asked(q, p[i].number, p[i].transfers[x])
    {
      var row := StoredTransfer(p[i].number, p[i].hash, p[i].transfers[x]);
      assert s.transfers[(p[i].transfers[x].txHash, AsInt64(p[i].transfers[x].logIndex))] == row;
      assert Storable(p[i]);
      AskedIsSelected(q, row);
    }
  }

  /**
    Pages read one after the other from a running process, at any moments of one run between which
    it does not start up again, while the worker pool commits and the chain changes: together they
    list exactly the transfers of the blocks stored at the first read that pass every filter given,
    newest first, each once.
    */
  lemma {:induction false} PagesListTheRun(w: World, cfg: Settings, trace: seq<Process>, at: seq<nat>, q: Query,
                                           pages: seq<Page>) returns (p: seq<Block>)
    requires WellFormed(w) && cfg.workerCount > 0 && Execution(w, cfg, trace)
    requires at != [] && Ordered(at, |trace|) && NoBoots(cfg, trace, at[0], at[|at| - 1])
    requires Walk(RowsAt(trace, at), q, pages)
    ensures Tracks(w, StoreNow(trace[at[0]]), p)
    ensures ListsTransfers(Rows(pages), p, q)
    ensures forall k, l :: 0 <= k < l < |Rows(pages)| ==>
      var a, b := Rows(pages)[k], Rows(pages)[l];
      || a.blockNumber > b.blockNumber
      || (a.blockNumber == b.blockNumber && AsInt64(a.transfer.logIndex) > AsInt64(b.transfer.logIndex))
    ensures |pages| == PageCount(|Rows(pages)|, EffectiveLimit(q.limit))
  {
    p := StateTracks(w, cfg, trace, at[0]);
    StoredRowsAreUnique(w, StoreNow(trace[at[0]]), p);
    LaterTablesGrow(w, cfg, trace, at, p);
    WalkIsStable(q, RowsAt(trace, at), pages);
    ListedIffAsked(w, StoreNow(trace[at[0]]), p, q, Rows(pages));
    DescendingCount(Rows(pages));
  }
}
