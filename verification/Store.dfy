/**
  The three PostgreSQL tables as values, the four transactions on them as functions, and
  `StoreOf(p)`: the tables that hold exactly the chain segment `p`.
  */
module Store {
  import opened Chain

  const MIN_INTEGER: int := -0x8000_0000
  const MAX_INTEGER: int := 0x7FFF_FFFF
  const NUMERIC_78: int :=
    1_000_000_000_000_000_000_000_000_000_000_000_000_000_000_000_000_000_000_000_000_000_000_000_000_000_000

  datatype BlockRow = BlockRow(hash: Hash, parent: Hash)

  datatype StoredTransfer = StoredTransfer(blockNumber: nat, blockHash: Hash, transfer: Transfer)

  /** Primary key of erc20_transfers; the log index is the value of its signed column. */
  type TransferKey = (string, int)

  datatype Tables = Tables(checkpoint: Option<Checkpoint>,
                           history: map<nat, BlockRow>,
                           transfers: map<TransferKey, StoredTransfer>)

  const EMPTY: Tables := Tables(None, map[], map[])

  datatype DbError = NilValue | OutOfRange | HashConflict | Unavailable

  /** How the connection fares: it may be lost before the commit, or after it took effect. */
  datatype Fault = NoFault | LostBeforeCommit | LostAfterCommit

  function KeyOf(t: Transfer): TransferKey {
    (t.txHash, AsInt64(t.logIndex))
  }

  function RowOf(b: Block, t: Transfer): StoredTransfer {
    StoredTransfer(b.number, b.hash, t)
  }

  /** The log_index column. */
  predicate FitsInteger(n: int) {
    MIN_INTEGER <= n <= MAX_INTEGER
  }

  /** The value column, NUMERIC(78, 0). */
  predicate FitsNumeric(n: int) {
    -NUMERIC_78 < n < NUMERIC_78
  }

  /** Why the insert of one transfer is refused, if it is. */
  function Refusal(t: Transfer): Option<DbError> {
    if t.value.None? then Some(NilValue)
    else if !FitsInteger(AsInt64(t.logIndex)) || !FitsNumeric(t.value.value) then Some(OutOfRange)
    else None
  }

  function FirstRefusal(b: Block, k: nat): Option<DbError>
    requires k <= |b.transfers|
  {
    if k == 0 then None
    else if FirstRefusal(b, k - 1).Some? then FirstRefusal(b, k - 1)
    else Refusal(b.transfers[k - 1])
  }

  ghost predicate Storable(b: Block) {
    b.number <= MAX_BIGINT && forall i :: 0 <= i < |b.transfers| ==> Refusal(b.transfers[i]).None?
  }

  /** INSERT ... ON CONFLICT (transaction_hash, log_index) DO NOTHING. */
  function InsertRow(table: map<TransferKey, StoredTransfer>, key: TransferKey, row: StoredTransfer)
    : map<TransferKey, StoredTransfer>
  {
    if key in table then table else table[key := row]
  }

  function Inserted(table: map<TransferKey, StoredTransfer>, b: Block, k: nat): map<TransferKey, StoredTransfer>
    requires k <= |b.transfers|
  {
    if k == 0 then table
    else InsertRow(Inserted(table, b, k - 1), KeyOf(b.transfers[k - 1]), RowOf(b, b.transfers[k - 1]))
  }

  predicate Conflicts(history: map<nat, BlockRow>, number: nat, hash: Hash) {
    number in history && history[number].hash != hash
  }

  /** The upsert of recordIndexedBlock, when it does not conflict. */
  function Recorded(history: map<nat, BlockRow>, number: nat, hash: Hash, parent: Hash): map<nat, BlockRow> {
    if number in history && history[number].parent != "" then history
    else history[number := BlockRow(hash, parent)]
  }

  function Save(s: Tables, b: Block): Result<Tables, DbError> {
    var refusal := FirstRefusal(b, |b.transfers|);
    if refusal.Some? then Err(refusal.value)
    else if b.number > MAX_BIGINT then Err(OutOfRange)
    else if Conflicts(s.history, b.number, b.hash) then Err(HashConflict)
    else Ok(Tables(Some(Checkpoint(b.number, b.hash)),
                   Recorded(s.history, b.number, b.hash, b.parent),
                   Inserted(s.transfers, b, |b.transfers|)))
  }

  function Ensure(s: Tables, c: Checkpoint): Result<Tables, DbError> {
    if c.number > MAX_BIGINT then Err(OutOfRange)
    else if Conflicts(s.history, c.number, c.hash) then Err(HashConflict)
    else Ok(s.(history := Recorded(s.history, c.number, c.hash, "")))
  }

  function Rollback(s: Tables, c: Checkpoint): Result<Tables, DbError> {
    if c.number > MAX_BIGINT then Err(OutOfRange)
    else Ok(Tables(Some(c),
                   map n | n in s.history && n <= c.number :: s.history[n],
                   map k | k in s.transfers && s.transfers[k].blockNumber <= c.number :: s.transfers[k]))
  }

  function LoadHash(s: Tables, number: nat): Option<Hash> {
    if number in s.history then Some(s.history[number].hash) else None
  }

  /** A transaction under a possible fault: the tables afterwards and the error reported, if any. */
  function Attempt(s: Tables, tx: Result<Tables, DbError>, fault: Fault): (Tables, Option<DbError>) {
    if fault == LostBeforeCommit then (s, Some(Unavailable))
    else if tx.Err? then (s, Some(tx.error))
    else (tx.value, if fault == LostAfterCommit then Some(Unavailable) else None)
  }

  // ----- the tables of a chain segment -----

  function HistoryOf(p: seq<Block>): map<nat, BlockRow> {
    if p == [] then map[]
    else var b := p[|p| - 1]; HistoryOf(p[..|p| - 1])[b.number := BlockRow(b.hash, b.parent)]
  }

  function TransfersOf(p: seq<Block>): map<TransferKey, StoredTransfer> {
    if p == [] then map[]
    else var b := p[|p| - 1]; Inserted(TransfersOf(p[..|p| - 1]), b, |b.transfers|)
  }

  function TopOf(p: seq<Block>): Option<Checkpoint> {
    if p == [] then None else Some(Checkpoint(p[|p| - 1].number, p[|p| - 1].hash))
  }

  function StoreOf(p: seq<Block>): Tables {
    Tables(TopOf(p), HistoryOf(p), TransfersOf(p))
  }

  /** The tables hold exactly one linked segment of the world's block tree. */
  ghost predicate Tracks(w: World, s: Tables, p: seq<Block>) {
    Path(w, p) && s == StoreOf(p) && forall i :: 0 <= i < |p| ==> Storable(p[i])
  }

  lemma {:induction false} HistoryAt(p: seq<Block>, n: nat)
    requires Linked(p)
    ensures n in HistoryOf(p) <==> p != [] && p[0].number <= n < p[0].number + |p|
    ensures n in HistoryOf(p) ==>
      var b := p[n - p[0].number]; b.number == n && HistoryOf(p)[n] == BlockRow(b.hash, b.parent)
  {
    if p != [] {
      LinkedSlice(p, 0, |p| - 1);
      HistoryAt(p[..|p| - 1], n);
      LinkedNumbers(p, |p| - 1);
    }
  }

  lemma {:induction false} FirstRefusalNone(b: Block, k: nat)
    requires k <= |b.transfers|
    ensures FirstRefusal(b, k).None? <==> forall i :: 0 <= i < k ==> Refusal(b.transfers[i]).None?
  {
    if k > 0 {
      FirstRefusalNone(b, k - 1);
    }
  }

  lemma NextIsUnrecorded(p: seq<Block>, number: nat)
    requires Linked(p) && (p != [] ==> number == p[|p| - 1].number + 1)
    ensures number !in HistoryOf(p)
  {
    HistoryAt(p, number);
    if p != [] {
      LinkedNumbers(p, |p| - 1);
    }
  }

  lemma StoreOfExtended(p: seq<Block>, b: Block)
    ensures StoreOf(p + [b]) == Tables(Some(Checkpoint(b.number, b.hash)),
                                       HistoryOf(p)[b.number := BlockRow(b.hash, b.parent)],
                                       Inserted(TransfersOf(p), b, |b.transfers|))
  {
    assert (p + [b])[..|p|] == p;
  }

  /** Saving a block that continues the segment extends the segment, and nothing else. */
  lemma {:induction false} SaveExtends(w: World, s: Tables, p: seq<Block>, b: Block)
    requires Tracks(w, s, p) && b in w
    requires p != [] ==> Follows(p[|p| - 1], b)
    ensures Save(s, b).Ok? <==> Storable(b)
    ensures Save(s, b).Ok? ==> Tracks(w, Save(s, b).value, p + [b])
  {
    FirstRefusalNone(b, |b.transfers|);
    NextIsUnrecorded(p, b.number);
    LinkedExtend(w, p, b);
    StoreOfExtended(p, b);
  }

  /** Re-recording the checkpoint block, as Reconcile does when it is still canonical, changes nothing. */
  lemma EnsureKeeps(w: World, s: Tables, p: seq<Block>)
    requires Tracks(w, s, p) && p != []
    ensures Ensure(s, s.checkpoint.value) == Ok(s)
  {
    var b := p[|p| - 1];
    LinkedNumbers(p, |p| - 1);
    HistoryAt(p, b.number);
    assert b.parent == "" ==> s.history[b.number := BlockRow(b.hash, "")] == s.history;
  }

  lemma {:induction false} InsertedShape(table: map<TransferKey, StoredTransfer>, b: Block, k: nat)
    requires k <= |b.transfers|
    ensures forall key :: key in table ==> key in Inserted(table, b, k) && Inserted(table, b, k)[key] == table[key]
    ensures forall key :: key in Inserted(table, b, k) && key !in table ==>
      Inserted(table, b, k)[key].blockNumber == b.number
  {
    if k > 0 {
      InsertedShape(table, b, k - 1);
    }
  }

  function Below(t: map<TransferKey, StoredTransfer>, n: nat): map<TransferKey, StoredTransfer> {
    map k | k in t && t[k].blockNumber <= n :: t[k]
  }

  lemma {:induction false} TransfersBelow(p: seq<Block>, k: nat, n: nat)
    requires Linked(p) && 0 < k <= |p| && n == p[k - 1].number
    ensures Below(TransfersOf(p), n) == TransfersOf(p[..k])
    decreases |p|
  {
    var q := p[..|p| - 1];
    var b := p[|p| - 1];
    LinkedNumbers(p, k - 1);
    LinkedNumbers(p, |p| - 1);
    if k == |p| {
      assert p[..k] == p;
      TransferNumbers(p);
    } else {
      LinkedSlice(p, 0, |p| - 1);
      TransfersBelow(q, k, n);
      InsertedShape(TransfersOf(q), b, |b.transfers|);
      assert Below(TransfersOf(p), n) == Below(TransfersOf(q), n);
      assert q[..k] == p[..k];
    }
  }

  lemma {:induction false} TransferNumbers(p: seq<Block>)
    requires Linked(p)
    ensures forall k :: k in TransfersOf(p) ==>
      p != [] && p[0].number <= TransfersOf(p)[k].blockNumber <= p[|p| - 1].number
  {
    if p != [] {
      var q := p[..|p| - 1];
      var b := p[|p| - 1];
      LinkedSlice(p, 0, |p| - 1);
      TransferNumbers(q);
      InsertedShape(TransfersOf(q), b, |b.transfers|);
      LinkedNumbers(p, |p| - 1);
      if q != [] {
        LinkedNumbers(q, |q| - 1);
      }
    }
  }

  /** Rolling back to a recorded block truncates the segment there: RollbackTo undoes the saves above it. */
  lemma RollbackTruncates(w: World, s: Tables, p: seq<Block>, k: nat)
    requires Tracks(w, s, p) && 0 < k <= |p|
    ensures Rollback(s, Checkpoint(p[k - 1].number, p[k - 1].hash)).Ok?
    ensures Tracks(w, Rollback(s, Checkpoint(p[k - 1].number, p[k - 1].hash)).value, p[..k])
  {
    var c := Checkpoint(p[k - 1].number, p[k - 1].hash);
    var r := Rollback(s, c).value;
    LinkedSlice(p, 0, k);
    LinkedNumbers(p, k - 1);
    TransfersBelow(p, k, c.number);
    assert r.transfers == Below(TransfersOf(p), c.number);
    forall n: nat
      ensures n in r.history <==> n in HistoryOf(p[..k])
      ensures n in r.history ==> r.history[n] == HistoryOf(p[..k])[n]
    {
      HistoryAt(p, n);
      HistoryAt(p[..k], n);
    }
    assert r.history == HistoryOf(p[..k]);
  }

  // ----- exactness: DO NOTHING never hides a row -----

  ghost predicate Holds(table: map<TransferKey, StoredTransfer>, b: Block, t: Transfer) {
    KeyOf(t) in table && table[KeyOf(t)] == RowOf(b, t)
  }

  ghost predicate Fresh(table: map<TransferKey, StoredTransfer>, b: Block) {
    forall i :: 0 <= i < |b.transfers| ==> KeyOf(b.transfers[i]) !in table
  }

  /** Inside one block no transfer's key is taken by an earlier one. */
  lemma KeyIsNew(table: map<TransferKey, StoredTransfer>, b: Block, k: nat)
    requires k < |b.transfers| && DistinctLogs(b) && Fresh(table, b)
    ensures KeyOf(b.transfers[k]) !in Inserted(table, b, k)
  {
    if KeyOf(b.transfers[k]) in Inserted(table, b, k) {
      var x := InsertedFrom(table, b, k, KeyOf(b.transfers[k]));
    }
  }

  lemma {:induction false} InsertedHolds(table: map<TransferKey, StoredTransfer>, b: Block, k: nat)
    requires k <= |b.transfers| && DistinctLogs(b) && Fresh(table, b)
    ensures forall i :: 0 <= i < k ==> Holds(Inserted(table, b, k), b, b.transfers[i])
  {
    if k > 0 {
      InsertedHolds(table, b, k - 1);
      KeyIsNew(table, b, k - 1);
    }
  }

  lemma OneRowMore(table: map<TransferKey, StoredTransfer>, b: Block, k: nat)
    requires k < |b.transfers| && KeyOf(b.transfers[k]) !in Inserted(table, b, k)
    ensures |Inserted(table, b, k + 1)| == |Inserted(table, b, k)| + 1
  {
    var rows, t := Inserted(table, b, k), b.transfers[k];
    assert Inserted(table, b, k + 1) == rows[KeyOf(t) := RowOf(b, t)];
  }

  lemma {:induction false} InsertedCount(table: map<TransferKey, StoredTransfer>, b: Block, k: nat)
    requires k <= |b.transfers| && DistinctLogs(b) && Fresh(table, b)
    ensures |Inserted(table, b, k)| == |table| + k
  {
    if k > 0 {
      InsertedCount(table, b, k - 1);
      KeyIsNew(table, b, k - 1);
      OneRowMore(table, b, k - 1);
    }
  }

  function RowCount(p: seq<Block>): nat {
    if p == [] then 0 else RowCount(p[..|p| - 1]) + |p[|p| - 1].transfers|
  }

  lemma {:induction false} RowSource(p: seq<Block>, k: TransferKey) returns (i: nat, x: nat)
    requires k in TransfersOf(p)
    ensures i < |p| && x < |p[i].transfers|
    ensures k == KeyOf(p[i].transfers[x]) && TransfersOf(p)[k] == RowOf(p[i], p[i].transfers[x])
  {
    var q := p[..|p| - 1];
    var b := p[|p| - 1];
    if k in TransfersOf(q) {
      i, x := RowSource(q, k);
      InsertedShape(TransfersOf(q), b, |b.transfers|);
    } else {
      i := |p| - 1;
      x := InsertedFrom(TransfersOf(q), b, |b.transfers|, k);
    }
  }

  lemma {:induction false} InsertedFrom(table: map<TransferKey, StoredTransfer>, b: Block, n: nat, k: TransferKey)
    returns (x: nat)
    requires n <= |b.transfers| && k !in table && k in Inserted(table, b, n)
    ensures x < n && k == KeyOf(b.transfers[x]) && Inserted(table, b, n)[k] == RowOf(b, b.transfers[x])
  {
    if k in Inserted(table, b, n - 1) {
      x := InsertedFrom(table, b, n - 1, k);
    } else {
      x := n - 1;
    }
  }

  lemma NextBlockIsFresh(w: World, p: seq<Block>)
    requires WellFormed(w) && Path(w, p) && p != []
    ensures Fresh(TransfersOf(p[..|p| - 1]), p[|p| - 1])
  {
    var q := p[..|p| - 1];
    var b := p[|p| - 1];
    assert Path(w, p);
    forall x | 0 <= x < |b.transfers| ensures KeyOf(b.transfers[x]) !in TransfersOf(q) {
      var key := KeyOf(b.transfers[x]);
      if key in TransfersOf(q) {
        var i, y := RowSource(q, key);
      }
    }
  }

  lemma {:induction false} RowIsPresent(w: World, p: seq<Block>, i: nat, x: nat)
    requires WellFormed(w) && Path(w, p) && i < |p| && x < |p[i].transfers|
    ensures Holds(TransfersOf(p), p[i], p[i].transfers[x])
  {
    var q := p[..|p| - 1];
    var b := p[|p| - 1];
    LinkedSlice(p, 0, |p| - 1);
    if i < |q| {
      RowIsPresent(w, q, i, x);
      InsertedShape(TransfersOf(q), b, |b.transfers|);
    } else {
      NextBlockIsFresh(w, p);
      InsertedHolds(TransfersOf(q), b, |b.transfers|);
    }
  }

  lemma {:induction false} RowsAreCounted(w: World, p: seq<Block>)
    requires WellFormed(w) && Path(w, p)
    ensures |TransfersOf(p)| == RowCount(p)
  {
    if p != [] {
      LinkedSlice(p, 0, |p| - 1);
      RowsAreCounted(w, p[..|p| - 1]);
      NextBlockIsFresh(w, p);
      InsertedCount(TransfersOf(p[..|p| - 1]), p[|p| - 1], |p[|p| - 1].transfers|);
    }
  }

  /**
    The transfer table of a linked segment is the disjoint union of its blocks' transfers: every
    transfer of every block has its row, with the block's number and hash and every field of the
    transfer as it is, every row is one of these, and the number of
    rows is the number of transfers, so no insert was ever absorbed by ON CONFLICT DO NOTHING.
    */
  lemma TransferTableIsExact(w: World, s: Tables, p: seq<Block>)
    requires WellFormed(w) && Tracks(w, s, p)
    ensures forall i, x :: 0 <= i < |p| && 0 <= x < |p[i].transfers| ==>
      var t := p[i].transfers[x];
      var key := (t.txHash, AsInt64(t.logIndex));
      && key in s.transfers && s.transfers[key].transfer == t
      && s.transfers[key].blockNumber == p[i].number && s.transfers[key].blockHash == p[i].hash
    ensures forall k :: k in s.transfers ==> exists i, x ::
      && 0 <= i < |p| && 0 <= x < |p[i].transfers|
      && k == (p[i].transfers[x].txHash, AsInt64(p[i].transfers[x].logIndex))
      && s.transfers[k].transfer == p[i].transfers[x]
      && s.transfers[k].blockNumber == p[i].number && s.transfers[k].blockHash == p[i].hash
    ensures |s.transfers| == RowCount(p)
  {
    forall i, x | 0 <= i < |p| && 0 <= x < |p[i].transfers|
      ensures Holds(s.transfers, p[i], p[i].transfers[x])
    {
      RowIsPresent(w, p, i, x);
    }
    forall k | k in s.transfers
      ensures exists i, x ::
        && 0 <= i < |p| && 0 <= x < |p[i].transfers|
        && k == KeyOf(p[i].transfers[x]) && s.transfers[k] == RowOf(p[i], p[i].transfers[x])
    {
      var i, x := RowSource(p, k);
    }
    RowsAreCounted(w, p);
  }

  /** The tables determine the segment they hold. */
  lemma TracksUnique(w: World, s: Tables, p: seq<Block>, q: seq<Block>)
    requires CollisionFree(w) && Tracks(w, s, p) && Tracks(w, s, q)
    ensures p == q
  {
    if p != [] {
      SameBounds(s, p, q);
      forall i | 0 <= i < |p| ensures p[i] == q[i] {
        LinkedNumbers(p, i);
        LinkedNumbers(q, i);
        HistoryAt(p, p[i].number);
        HistoryAt(q, p[i].number);
      }
    }
  }

  lemma SameBounds(s: Tables, p: seq<Block>, q: seq<Block>)
    requires Linked(p) && Linked(q) && s == StoreOf(p) && s == StoreOf(q) && p != []
    ensures |p| == |q| && p[0].number == q[0].number
  {
    assert q != [];
    HistoryAt(p, p[0].number);
    HistoryAt(q, p[0].number);
    HistoryAt(p, q[0].number);
    HistoryAt(q, q[0].number);
    LinkedNumbers(p, |p| - 1);
    LinkedNumbers(q, |q| - 1);
  }

  /** Two stored rows never share a (block, log) position; the pagination cursor depends on it. */
  lemma PositionsAreUnique(w: World, p: seq<Block>, k1: TransferKey, k2: TransferKey)
    requires WellFormed(w) && Path(w, p)
    requires k1 in TransfersOf(p) && k2 in TransfersOf(p)
    requires TransfersOf(p)[k1].blockNumber == TransfersOf(p)[k2].blockNumber && k1.1 == k2.1
    ensures k1 == k2
  {
    var i, x := RowSource(p, k1);
    var j, y := RowSource(p, k2);
    LinkedNumbers(p, i);
    LinkedNumbers(p, j);
    assert DistinctLogs(p[i]);
  }
}
