/**
  PostgresBlockPersistence: the object that owns the tables. Each method works on a copy of the
  rows it touches and publishes it in one assignment, as a committed transaction does.
  */
module PostgresStore {
  import opened Chain
  import opened Store

  /**
    The insert loop of insertBlockTransfers: rows that were there stay, and every transfer whose key
    is new gets a row with its own fields, the first of several with one key.
    */
  method InsertBlockTransfers(table: map<TransferKey, StoredTransfer>, b: Block)
    returns (r: Result<map<TransferKey, StoredTransfer>, DbError>)
    ensures r.Ok? <==> forall i :: 0 <= i < |b.transfers| ==>
      var t := b.transfers[i];
      && t.value.Some? && -NUMERIC_78 < t.value.value < NUMERIC_78
      && -0x8000_0000 <= AsInt64(t.logIndex) <= 0x7FFF_FFFF
    ensures r.Ok? ==>
      && r.value == Inserted(table, b, |b.transfers|)
      && (forall k :: k in table ==> k in r.value && r.value[k] == table[k])
      && (forall i :: 0 <= i < |b.transfers| ==> (b.transfers[i].txHash, AsInt64(b.transfers[i].logIndex)) in r.value)
      && (forall k :: k in r.value && k !in table ==> exists i ::
            && 0 <= i < |b.transfers|
            && k == (b.transfers[i].txHash, AsInt64(b.transfers[i].logIndex))
            && r.value[k].transfer == b.transfers[i]
            && r.value[k].blockNumber == b.number && r.value[k].blockHash == b.hash
            && forall j :: 0 <= j < i ==> k != (b.transfers[j].txHash, AsInt64(b.transfers[j].logIndex)))
    ensures r.Err? ==>
      && FirstRefusal(b, |b.transfers|) == Some(r.error)
      && exists i :: 0 <= i < |b.transfers| && (r.error == if b.transfers[i].value.None? then NilValue else OutOfRange)
                     && Refusal(b.transfers[i]).Some? && forall j :: 0 <= j < i ==> Refusal(b.transfers[j]).None?
  {
    var rows := table;
    for i := 0 to |b.transfers|
      invariant forall j :: 0 <= j < i ==> Refusal(b.transfers[j]).None?
      invariant FirstRefusal(b, i).None?
      invariant rows == Inserted(table, b, i)
    {
      var t := b.transfers[i];
      if t.value.None? {
        RefusedForGood(b, i);
        return Err(NilValue);
      }
      if !FitsInteger(AsInt64(t.logIndex)) || !FitsNumeric(t.value.value) {
        RefusedForGood(b, i);
        return Err(OutOfRange);
      }
      if KeyOf(t) !in rows {
        rows := rows[KeyOf(t) := StoredTransfer(b.number, b.hash, t)];
      }
    }
    InsertedRows(table, b, rows);
    return Ok(rows);
  }

  lemma {:induction false} KeysPresent(table: map<TransferKey, StoredTransfer>, b: Block, k: nat)
    requires k <= |b.transfers|
    ensures forall i :: 0 <= i < k ==> KeyOf(b.transfers[i]) in Inserted(table, b, k)
  {
    if k > 0 {
      KeysPresent(table, b, k - 1);
    }
  }

  /** A new row is that of the first transfer with its key. */
  lemma {:induction false} FirstOfItsKey(table: map<TransferKey, StoredTransfer>, b: Block, n: nat, k: TransferKey)
    returns (x: nat)
    requires n <= |b.transfers| && k !in table && k in Inserted(table, b, n)
    ensures x < n && k == KeyOf(b.transfers[x])
    ensures Inserted(table, b, n)[k] == StoredTransfer(b.number, b.hash, b.transfers[x])
    ensures forall j :: 0 <= j < x ==> k != KeyOf(b.transfers[j])
  {
    if k in Inserted(table, b, n - 1) {
      x := FirstOfItsKey(table, b, n - 1, k);
    } else {
      x := n - 1;
      KeysPresent(table, b, n - 1);
    }
  }

  /** The rows after all inserts, field by field. */
  lemma InsertedRows(table: map<TransferKey, StoredTransfer>, b: Block, rows: map<TransferKey, StoredTransfer>)
    requires rows == Inserted(table, b, |b.transfers|)
    ensures forall k :: k in table ==> k in rows && rows[k] == table[k]
    ensures forall i :: 0 <= i < |b.transfers| ==> (b.transfers[i].txHash, AsInt64(b.transfers[i].logIndex)) in rows
    ensures forall k :: k in rows && k !in table ==> exists i ::
      && 0 <= i < |b.transfers|
      && k == (b.transfers[i].txHash, AsInt64(b.transfers[i].logIndex))
      && rows[k].transfer == b.transfers[i]
      && rows[k].blockNumber == b.number && rows[k].blockHash == b.hash
      && forall j :: 0 <= j < i ==> k != (b.transfers[j].txHash, AsInt64(b.transfers[j].logIndex))
  {
    InsertedShape(table, b, |b.transfers|);
    KeysPresent(table, b, |b.transfers|);
    forall i | 0 <= i < |b.transfers| ensures (b.transfers[i].txHash, AsInt64(b.transfers[i].logIndex)) in rows {
      assert KeyOf(b.transfers[i]) in rows;
    }
    forall k | k in rows && k !in table
      ensures exists i ::
        && 0 <= i < |b.transfers|
        && k == (b.transfers[i].txHash, AsInt64(b.transfers[i].logIndex))
        && rows[k].transfer == b.transfers[i]
        && rows[k].blockNumber == b.number && rows[k].blockHash == b.hash
        && forall j :: 0 <= j < i ==> k != (b.transfers[j].txHash, AsInt64(b.transfers[j].logIndex))
    {
      var x := FirstOfItsKey(table, b, |b.transfers|, k);
      assert forall j :: 0 <= j < x ==>
        KeyOf(b.transfers[j]) == (b.transfers[j].txHash, AsInt64(b.transfers[j].logIndex));
    }
  }

  /** What a save changes in the three tables, row by row. */
  lemma SaveWrites(s: Tables, b: Block, s': Tables)
    requires Save(s, b) == Ok(s')
    ensures s'.checkpoint == Some(Checkpoint(b.number, b.hash))
    ensures b.number in s'.history && s'.history[b.number].hash == b.hash
    ensures b.number in s.history && s.history[b.number].parent != "" ==>
      s'.history[b.number] == s.history[b.number]
    ensures !(b.number in s.history && s.history[b.number].parent != "") ==>
      s'.history[b.number].parent == b.parent
    ensures forall n :: n != b.number ==> (n in s'.history <==> n in s.history)
    ensures forall n :: n != b.number && n in s.history ==> s'.history[n] == s.history[n]
    ensures forall k :: k in s.transfers ==> k in s'.transfers && s'.transfers[k] == s.transfers[k]
    ensures forall i :: 0 <= i < |b.transfers| ==>
      (b.transfers[i].txHash, AsInt64(b.transfers[i].logIndex)) in s'.transfers
    ensures forall k :: k in s'.transfers && k !in s.transfers ==> exists i ::
      && 0 <= i < |b.transfers|
      && k == (b.transfers[i].txHash, AsInt64(b.transfers[i].logIndex))
      && s'.transfers[k].transfer == b.transfers[i]
      && s'.transfers[k].blockNumber == b.number && s'.transfers[k].blockHash == b.hash
  {
    InsertedRows(s.transfers, b, s'.transfers);
  }

  /**
    Which transfers the columns take: every token amount of 256 bits and every log index below
    2^31, and with them every block in the range of block numbers.
    */
  lemma RealTransfersFit(b: Block)
    requires b.number <= MAX_BIGINT
    requires forall i :: 0 <= i < |b.transfers| ==>
      var t := b.transfers[i];
      t.value.Some? && 0 <= t.value.value <= MAX_U256 && t.logIndex < 0x8000_0000
    ensures Storable(b)
  {
  }

  /** The loop stops at the first refused transfer, and that one decides the error. */
  lemma {:induction false} RefusedForGood(b: Block, i: nat)
    requires i < |b.transfers| && FirstRefusal(b, i).None? && Refusal(b.transfers[i]).Some?
    ensures FirstRefusal(b, |b.transfers|) == Refusal(b.transfers[i])
  {
    var k := i + 1;
    while k < |b.transfers|
      invariant i < k <= |b.transfers|
      invariant FirstRefusal(b, k) == Refusal(b.transfers[i])
    {
      k := k + 1;
    }
  }

  class PostgresBlockPersistence {
    var checkpoint: Option<Checkpoint>
    var history: map<nat, BlockRow>
    var transfers: map<TransferKey, StoredTransfer>

    constructor ()
      ensures Rows() == EMPTY
    {
      checkpoint, history, transfers := None, map[], map[];
    }

    ghost function Rows(): (s: Tables)
      reads this
    {
      Tables(checkpoint, history, transfers)
    }

    method Load(fails: bool) returns (r: Result<Option<Checkpoint>, DbError>)
      ensures r == if fails then Err(Unavailable) else Ok(checkpoint)
    {
      if fails {
        return Err(Unavailable);
      }
      return Ok(checkpoint);
    }

    method LoadIndexedBlockHash(number: nat, fails: bool) returns (r: Result<Option<Hash>, DbError>)
      ensures r == if fails then Err(Unavailable) else Ok(LoadHash(Rows(), number))
      ensures r.Ok? ==> r.value == if number in history then Some(history[number].hash) else None
    {
      if fails {
        return Err(Unavailable);
      }
      if number in history {
        return Ok(Some(history[number].hash));
      }
      return Ok(None);
    }

    /**
      INSERT INTO indexed_blocks ... ON CONFLICT DO UPDATE ... WHERE the hashes agree: another hash at
      that number is refused; a parent that was known stays, a missing one is filled in.
      */
    method RecordIndexedBlock(number: nat, hash: Hash, parent: Hash)
      returns (r: Result<map<nat, BlockRow>, DbError>)
      ensures r == if number > MAX_BIGINT then Err(OutOfRange)
                   else if Conflicts(history, number, hash) then Err(HashConflict)
                   else Ok(Recorded(history, number, hash, parent))
      ensures r.Ok? <==> number <= MAX_BIGINT && (number in history ==> history[number].hash == hash)
      ensures r.Ok? ==>
        && (forall n :: n != number ==> (n in r.value <==> n in history) && (n in history ==> r.value[n] == history[n]))
        && number in r.value && r.value[number].hash == hash
        && r.value[number].parent ==
           if number in history && history[number].parent != "" then history[number].parent else parent
    {
      if number > MAX_BIGINT {
        return Err(OutOfRange);
      }
      if number !in history {
        return Ok(history[number := BlockRow(hash, parent)]);
      }
      var row := history[number];
      if row.hash != hash {
        return Err(HashConflict);
      }
      var merged := history[number := BlockRow(row.hash, if row.parent == "" then parent else row.parent)];
      assert row.parent != "" ==> merged == history;
      return Ok(merged);
    }

    method SaveIndexedBlock(b: Block, fault: Fault) returns (e: Option<DbError>)
      modifies this
      ensures (Rows(), e) == Attempt(old(Rows()), Save(old(Rows()), b), fault)
    {
      if fault == LostBeforeCommit {
        return Some(Unavailable);
      }
      var inserted := InsertBlockTransfers(transfers, b);
      FirstRefusalNone(b, |b.transfers|);
      if inserted.Err? {
        return Some(inserted.error);
      }
      var recorded := RecordIndexedBlock(b.number, b.hash, b.parent);
      if recorded.Err? {
        return Some(recorded.error);
      }
      checkpoint, history, transfers := Some(Checkpoint(b.number, b.hash)), recorded.value, inserted.value;
      return if fault == LostAfterCommit then Some(Unavailable) else None;
    }

    method EnsureIndexedBlock(c: Checkpoint, fault: Fault) returns (e: Option<DbError>)
      modifies this
      ensures (Rows(), e) == Attempt(old(Rows()), Ensure(old(Rows()), c), fault)
      ensures checkpoint == old(checkpoint) && transfers == old(transfers)
      ensures e.None? ==> c.number in history && history[c.number].hash == c.hash
      ensures e.None? && c.number !in old(history) ==> history == old(history)[c.number := BlockRow(c.hash, "")]
      ensures forall n :: n in old(history) ==> n in history && history[n] == old(history)[n]
    {
      if fault == LostBeforeCommit {
        return Some(Unavailable);
      }
      var recorded := RecordIndexedBlock(c.number, c.hash, "");
      if recorded.Err? {
        return Some(recorded.error);
      }
      history := recorded.value;
      return if fault == LostAfterCommit then Some(Unavailable) else None;
    }

    method RollbackTo(c: Checkpoint, fault: Fault) returns (e: Option<DbError>)
      modifies this
      ensures (Rows(), e) == Attempt(old(Rows()), Rollback(old(Rows()), c), fault)
      ensures e.Some? && fault != LostAfterCommit ==> Rows() == old(Rows())
      ensures e.None? ==>
        && checkpoint == Some(c)
        && (forall n :: n in history <==> n in old(history) && n <= c.number)
        && (forall n :: n in history ==> history[n] == old(history)[n])
        && (forall k :: k in transfers <==> k in old(transfers) && old(transfers)[k].blockNumber <= c.number)
        && (forall k :: k in transfers ==> transfers[k] == old(transfers)[k])
    {
      if fault == LostBeforeCommit {
        return Some(Unavailable);
      }
      if c.number > MAX_BIGINT {
        return Some(OutOfRange);
      }
      transfers := map k | k in transfers && transfers[k].blockNumber <= c.number :: transfers[k];
      history := map n | n in history && n <= c.number :: history[n];
      checkpoint := Some(c);
      return if fault == LostAfterCommit then Some(Unavailable) else None;
    }
  }
}
