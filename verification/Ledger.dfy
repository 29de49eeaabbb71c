/** The in-memory ledger: balances with uint64 arithmetic, and blocks applied all or nothing. */
module Ledger {
  import opened Chain

  type Address = string

  datatype Transaction = Transaction(hash: string, sender: Address, receiver: Address, valueWei: Uint64)

  datatype LedgerBlock = LedgerBlock(number: nat, hash: Hash, transactions: seq<Transaction>)

  datatype LedgerError =
    | EmptyTransactionHash | EmptySender | EmptyReceiver | ZeroValue
    | AlreadyProcessed | SenderNotFound | InsufficientBalance

  datatype State = State(balances: map<Address, Uint64>, processed: set<string>)

  function BalanceOf(balances: map<Address, Uint64>, a: Address): Uint64 {
    if a in balances then balances[a] else 0
  }

  function Validate(tx: Transaction): Option<LedgerError> {
    if tx.hash == "" then Some(EmptyTransactionHash)
    else if tx.sender == "" then Some(EmptySender)
    else if tx.receiver == "" then Some(EmptyReceiver)
    else if tx.valueWei == 0 then Some(ZeroValue)
    else None
  }

  function Rejection(s: State, tx: Transaction): Option<LedgerError> {
    if Validate(tx).Some? then Validate(tx)
    else if tx.hash in s.processed then Some(AlreadyProcessed)
    else if tx.sender !in s.balances then Some(SenderNotFound)
    else if s.balances[tx.sender] < tx.valueWei then Some(InsufficientBalance)
    else None
  }

  function Debited(s: State, tx: Transaction): map<Address, Uint64> {
    s.balances[tx.sender := Wrap(BalanceOf(s.balances, tx.sender) - tx.valueWei)]
  }

  function Transact(s: State, tx: Transaction): Result<State, LedgerError> {
    if Rejection(s, tx).Some? then Err(Rejection(s, tx).value)
    else
      var debited := Debited(s, tx);
      Ok(State(debited[tx.receiver := Wrap(BalanceOf(debited, tx.receiver) + tx.valueWei)],
               s.processed + {tx.hash}))
  }

  lemma WrapWithin(n: int)
    ensures Wrap(n) == n % 0x1_0000_0000_0000_0000
    ensures 0 <= n <= MAX_U64 ==> Wrap(n) == n
  {
  }

  /** Whose balance an accepted transaction changes, and how. */
  lemma TransactEffects(s: State, tx: Transaction, after: map<Address, Uint64>)
    requires Transact(s, tx).Ok? && after == Transact(s, tx).value.balances
    ensures tx.sender in s.balances && s.balances[tx.sender] >= tx.valueWei
    ensures tx.sender == tx.receiver ==> after == s.balances
    ensures tx.sender != tx.receiver ==>
      && after.Keys == s.balances.Keys + {tx.receiver}
      && after[tx.sender] == s.balances[tx.sender] - tx.valueWei
      && after[tx.receiver] == (BalanceOf(s.balances, tx.receiver) + tx.valueWei) % 0x1_0000_0000_0000_0000
      && forall a :: a in s.balances && a != tx.sender && a != tx.receiver ==> after[a] == s.balances[a]
  {
    var held := s.balances[tx.sender];
    WrapWithin(held - tx.valueWei);
    if tx.sender == tx.receiver {
      WrapWithin(held);
    } else {
      WrapWithin(BalanceOf(s.balances, tx.receiver) + tx.valueWei);
    }
  }

  /** The first k transactions in turn, stopping at the first that fails. */
  function TransactAll(s: State, txs: seq<Transaction>): Result<State, LedgerError> {
    if txs == [] then Ok(s)
    else
      var prev := TransactAll(s, txs[..|txs| - 1]);
      if prev.Err? then prev else Transact(prev.value, txs[|txs| - 1])
  }

  lemma {:induction false} FailureIsFinal(s: State, txs: seq<Transaction>, k: nat)
    requires k <= |txs| && TransactAll(s, txs[..k]).Err?
    ensures TransactAll(s, txs) == TransactAll(s, txs[..k])
  {
    if k == |txs| {
      assert txs[..k] == txs;
    } else {
      assert txs[..|txs| - 1][..k] == txs[..k];
      FailureIsFinal(s, txs[..|txs| - 1], k);
    }
  }

  lemma OneMore(s: State, txs: seq<Transaction>, k: nat)
    requires k < |txs| && TransactAll(s, txs[..k]).Ok?
    ensures TransactAll(s, txs[..k + 1]) == Transact(TransactAll(s, txs[..k]).value, txs[k])
  {
    assert txs[..k + 1][..k] == txs[..k];
  }

  class Blockchain {
    var blocks: seq<LedgerBlock>
    var balances: map<Address, Uint64>
    var processed: map<string, bool>

    constructor (initial: map<Address, Uint64>)
      ensures blocks == [] && processed == map[] && balances == initial
    {
      blocks, balances, processed := [], initial, map[];
    }

    /** Processed hashes are stored with the value true. */
    ghost function Ledger(): (s: State)
      reads this
    {
      State(balances, set h | h in processed && processed[h])
    }

    method ProcessTransaction(tx: Transaction) returns (e: Option<LedgerError>)
      modifies this`balances, this`processed
      ensures match Transact(old(Ledger()), tx)
              case Ok(s) => e == None && Ledger() == s
              case Err(x) => e == Some(x) && Ledger() == old(Ledger())
      ensures e ==
        if tx.hash == "" then Some(EmptyTransactionHash)
        else if tx.sender == "" then Some(EmptySender)
        else if tx.receiver == "" then Some(EmptyReceiver)
        else if tx.valueWei == 0 then Some(ZeroValue)
        else if tx.hash in old(processed) && old(processed)[tx.hash] then Some(AlreadyProcessed)
        else if tx.sender !in old(balances) then Some(SenderNotFound)
        else if old(balances)[tx.sender] < tx.valueWei then Some(InsufficientBalance)
        else None
      ensures e.Some? ==> balances == old(balances) && processed == old(processed)
      ensures e.None? ==> processed == old(processed)[tx.hash := true]
      ensures e.None? && tx.sender == tx.receiver ==> balances == old(balances)
      ensures e.None? && tx.sender != tx.receiver ==>
        && balances.Keys == old(balances).Keys + {tx.receiver}
        && balances[tx.sender] == old(balances)[tx.sender] - tx.valueWei
        && balances[tx.receiver] ==
           ((if tx.receiver in old(balances) then old(balances)[tx.receiver] else 0) + tx.valueWei)
           % 0x1_0000_0000_0000_0000
        && forall a :: a in old(balances) && a != tx.sender && a != tx.receiver ==> balances[a] == old(balances)[a]
    {
      ghost var result := Transact(Ledger(), tx);
      if result.Ok? {
        TransactEffects(Ledger(), tx, result.value.balances);
      }
      var invalid := Validate(tx);
      if invalid.Some? {
        return invalid;
      }
      if tx.hash in processed && processed[tx.hash] {
        return Some(AlreadyProcessed);
      }
      if tx.sender !in balances {
        return Some(SenderNotFound);
      }
      var senderBalance := balances[tx.sender];
      if senderBalance < tx.valueWei {
        return Some(InsufficientBalance);
      }
      balances := balances[tx.sender := Wrap(balances[tx.sender] - tx.valueWei)];
      var receiverBalance := if tx.receiver in balances then balances[tx.receiver] else 0;
      balances := balances[tx.receiver := Wrap(receiverBalance + tx.valueWei)];
      processed := processed[tx.hash := true];
      return None;
    }

    method ProcessBlock(block: LedgerBlock) returns (e: Option<LedgerError>)
      modifies this
      ensures match TransactAll(old(Ledger()), block.transactions)
              case Ok(s) => e == None && Ledger() == s && blocks == old(blocks) + [block]
              case Err(x) => e == Some(x) && Ledger() == old(Ledger()) && blocks == old(blocks)
      ensures e.Some? ==> blocks == old(blocks) && balances == old(balances) && processed == old(processed)
      ensures e.None? && Total(old(balances)) <= MAX_U64 ==>
        && blocks == old(blocks) + [block] && Total(balances) == Total(old(balances))
        && Settles(old(balances), block.transactions, balances)
    {
      var temp := new Blockchain(balances);
      temp.processed := processed;
      for k := 0 to |block.transactions|
        invariant fresh(temp) && balances == old(balances) && processed == old(processed) && blocks == old(blocks)
        invariant TransactAll(old(Ledger()), block.transactions[..k]) == Ok(temp.Ledger())
      {
        OneMore(old(Ledger()), block.transactions, k);
        var failed := temp.ProcessTransaction(block.transactions[k]);
        if failed.Some? {
          FailureIsFinal(old(Ledger()), block.transactions, k + 1);
          return failed;
        }
      }
      assert block.transactions[..|block.transactions|] == block.transactions;
      if Total(old(balances)) <= MAX_U64 {
        BlockConserves(old(Ledger()), block.transactions);
      }
      balances, processed := temp.balances, temp.processed;
      blocks := blocks + [block];
      return None;
    }
  }

  // ----- conservation of money -----

  ghost function Total(balances: map<Address, Uint64>): nat
    decreases |balances|
  {
    if balances == map[] then 0
    else
      var a :| a in balances;
      balances[a] + Total(balances - {a})
  }

  /** Any account can be split off the total. */
  lemma {:induction false} TotalSplits(balances: map<Address, Uint64>, a: Address)
    requires a in balances
    ensures Total(balances) == balances[a] + Total(balances - {a})
    decreases |balances|
  {
    var b :| b in balances && Total(balances) == balances[b] + Total(balances - {b});
    if a != b {
      assert (balances - {b}) - {a} == (balances - {a}) - {b};
      TotalSplits(balances - {b}, a);
      TotalSplits(balances - {a}, b);
    }
  }

  lemma TotalUpdates(balances: map<Address, Uint64>, a: Address, n: Uint64)
    ensures Total(balances[a := n]) == Total(balances) - BalanceOf(balances, a) + n
  {
    var after := balances[a := n];
    TotalSplits(after, a);
    if a in balances {
      TotalSplits(balances, a);
      assert after - {a} == balances - {a};
    } else {
      assert after - {a} == balances;
    }
  }

  lemma BalanceWithinTotal(balances: map<Address, Uint64>, a: Address)
    ensures BalanceOf(balances, a) <= Total(balances)
  {
    if a in balances {
      TotalSplits(balances, a);
    }
  }

  lemma DebitTakesOut(s: State, tx: Transaction)
    requires Rejection(s, tx).None?
    ensures Total(Debited(s, tx)) == Total(s.balances) - tx.valueWei
  {
    TotalUpdates(s.balances, tx.sender, Wrap(BalanceOf(s.balances, tx.sender) - tx.valueWei));
  }

  /** Crediting adds what it should exactly when the sum does not wrap. */
  lemma CreditKeepsIff(balances: map<Address, Uint64>, a: Address, n: Uint64)
    ensures Total(balances[a := Wrap(BalanceOf(balances, a) + n)]) == Total(balances) + n
       <==> BalanceOf(balances, a) + n <= MAX_U64
  {
    TotalUpdates(balances, a, Wrap(BalanceOf(balances, a) + n));
  }

  /**
    An accepted transaction keeps the total exactly when it is a self-transfer or the receiver's
    balance, zero without an account, can take the value within 64 bits.
    */
  lemma TransactConservesIff(s: State, tx: Transaction)
    requires Transact(s, tx).Ok?
    ensures Total(Transact(s, tx).value.balances) == Total(s.balances)
       <==> tx.sender == tx.receiver || BalanceOf(s.balances, tx.receiver) + tx.valueWei <= MAX_U64
  {
    DebitTakesOut(s, tx);
    CreditKeepsIff(Debited(s, tx), tx.receiver, tx.valueWei);
  }

  /** Sender and receiver together hold no more than everybody. */
  lemma PairWithinTotal(balances: map<Address, Uint64>, a: Address, b: Address)
    requires a != b
    ensures BalanceOf(balances, a) + BalanceOf(balances, b) <= Total(balances)
  {
    if a in balances {
      TotalSplits(balances, a);
      BalanceWithinTotal(balances - {a}, b);
    } else {
      BalanceWithinTotal(balances, b);
    }
  }

  /** While the total fits in 64 bits a transaction moves its value, and nothing else. */
  lemma TransactMoves(s: State, tx: Transaction, a: Address)
    requires Transact(s, tx).Ok? && Total(s.balances) <= MAX_U64
    ensures var s' := Transact(s, tx).value;
      && Total(s'.balances) == Total(s.balances)
      && BalanceOf(s'.balances, a) + (if a == tx.sender then tx.valueWei else 0)
         == BalanceOf(s.balances, a) + (if a == tx.receiver then tx.valueWei else 0)
  {
    if tx.sender != tx.receiver {
      PairWithinTotal(s.balances, tx.sender, tx.receiver);
    }
    TransactEffects(s, tx, Transact(s, tx).value.balances);
    TransactConservesIff(s, tx);
  }

  function Sent(txs: seq<Transaction>, a: Address): nat {
    if txs == [] then 0
    else Sent(txs[..|txs| - 1], a) + if txs[|txs| - 1].sender == a then txs[|txs| - 1].valueWei else 0
  }

  function Received(txs: seq<Transaction>, a: Address): nat {
    if txs == [] then 0
    else Received(txs[..|txs| - 1], a) + if txs[|txs| - 1].receiver == a then txs[|txs| - 1].valueWei else 0
  }

  /** Every account has what it had, plus what it received, less what it sent. */
  ghost predicate Settles(before: map<Address, Uint64>, txs: seq<Transaction>, after: map<Address, Uint64>) {
    forall a :: BalanceOf(after, a) + Sent(txs, a) == BalanceOf(before, a) + Received(txs, a)
  }

  /** The transaction that fails first decides the error, on the ledger that those before it leave. */
  lemma {:induction false} FirstFailureDecides(s: State, txs: seq<Transaction>) returns (k: nat)
    requires TransactAll(s, txs).Err?
    ensures k < |txs| && TransactAll(s, txs[..k]).Ok?
    ensures Transact(TransactAll(s, txs[..k]).value, txs[k]) == Err(TransactAll(s, txs).error)
  {
    var init := txs[..|txs| - 1];
    if TransactAll(s, init).Err? {
      k := FirstFailureDecides(s, init);
      assert txs[..k] == init[..k];
    } else {
      k := |txs| - 1;
    }
  }

  datatype Call = One(tx: Transaction) | Whole(block: LedgerBlock)

  function Transactions(call: Call): seq<Transaction> {
    if call.One? then [call.tx] else call.block.transactions
  }

  /** The ledger after one call; a failed call leaves it as it was. */
  function After(s: State, call: Call): State {
    match TransactAll(s, Transactions(call))
    case Ok(s') => s'
    case Err(_) => s
  }

  function Accepted(s: State, call: Call): seq<Transaction> {
    if TransactAll(s, Transactions(call)).Err? then [] else Transactions(call)
  }

  function AfterAll(s: State, calls: seq<Call>): State {
    if calls == [] then s else After(AfterAll(s, calls[..|calls| - 1]), calls[|calls| - 1])
  }

  /** The transactions accepted over a run, in order. */
  function AcceptedAll(s: State, calls: seq<Call>): seq<Transaction> {
    if calls == [] then []
    else AcceptedAll(s, calls[..|calls| - 1]) + Accepted(AfterAll(s, calls[..|calls| - 1]), calls[|calls| - 1])
  }

  /** The hashes of `txs` differ and were all new to `before`, and `after` is `before` plus them. */
  ghost predicate Enters(before: set<string>, txs: seq<Transaction>, after: set<string>) {
    && (forall i, j :: 0 <= i < j < |txs| ==> txs[i].hash != txs[j].hash)
    && (forall i :: 0 <= i < |txs| ==> txs[i].hash !in before)
    && after == before + set i | 0 <= i < |txs| :: txs[i].hash
  }

  lemma EnterMore(before: set<string>, txs: seq<Transaction>, mid: set<string>, more: seq<Transaction>,
                  after: set<string>)
    requires Enters(before, txs, mid) && Enters(mid, more, after)
    ensures Enters(before, txs + more, after)
  {
    var all := txs + more;
    forall i, j | 0 <= i < j < |all| ensures all[i].hash != all[j].hash {
      if i < |txs| <= j {
        assert txs[i].hash in mid;
      }
    }
    assert forall i :: 0 <= i < |txs| ==> all[i] == txs[i];
    assert forall i :: 0 <= i < |more| ==> all[|txs| + i] == more[i];
  }

  lemma {:induction false} SumsJoin(txs: seq<Transaction>, more: seq<Transaction>, a: Address)
    ensures Sent(txs + more, a) == Sent(txs, a) + Sent(more, a)
    ensures Received(txs + more, a) == Received(txs, a) + Received(more, a)
  {
    if more == [] {
      assert txs + more == txs;
    } else {
      SumsJoin(txs, more[..|more| - 1], a);
      assert (txs + more)[..|txs + more| - 1] == txs + more[..|more| - 1];
    }
  }

  lemma SettleMore(before: map<Address, Uint64>, txs: seq<Transaction>, mid: map<Address, Uint64>,
                   more: seq<Transaction>, after: map<Address, Uint64>)
    requires Settles(before, txs, mid) && Settles(mid, more, after)
    ensures Settles(before, txs + more, after)
  {
    forall a ensures BalanceOf(after, a) + Sent(txs + more, a) == BalanceOf(before, a) + Received(txs + more, a) {
      SumsJoin(txs, more, a);
    }
  }

  lemma OneSettles(s: State, tx: Transaction)
    requires Transact(s, tx).Ok? && Total(s.balances) <= MAX_U64
    ensures var s' := Transact(s, tx).value;
      && Total(s'.balances) == Total(s.balances)
      && Settles(s.balances, [tx], s'.balances) && Enters(s.processed, [tx], s'.processed)
  {
    forall a ensures BalanceOf(Transact(s, tx).value.balances, a) + Sent([tx], a)
                  == BalanceOf(s.balances, a) + Received([tx], a)
    {
      TransactMoves(s, tx, a);
      assert [tx][..0] == [];
    }
    TransactMoves(s, tx, tx.sender);
  }

  /** A block that is accepted keeps the total, settles every account, and its hashes are distinct and new. */
  lemma {:induction false} BlockConserves(s: State, txs: seq<Transaction>)
    requires TransactAll(s, txs).Ok? && Total(s.balances) <= MAX_U64
    ensures var s' := TransactAll(s, txs).value;
      && Total(s'.balances) == Total(s.balances)
      && Settles(s.balances, txs, s'.balances) && Enters(s.processed, txs, s'.processed)
  {
    if txs != [] {
      var init, last := txs[..|txs| - 1], txs[|txs| - 1];
      var mid := TransactAll(s, init).value;
      BlockConserves(s, init);
      OneSettles(mid, last);
      assert init + [last] == txs;
      EnterMore(s.processed, init, mid.processed, [last], TransactAll(s, txs).value.processed);
      SettleMore(s.balances, init, mid.balances, [last], TransactAll(s, txs).value.balances);
    }
  }

  /**
    Over any sequence of calls that starts with a total that fits in 64 bits: the total never
    changes, no balance ever wraps (each account has what it had, plus what it received, less what
    it sent, as unbounded sums), and each hash is accepted at most once.
    */
  lemma {:induction false} EveryRunConservesMoney(s: State, calls: seq<Call>)
    requires Total(s.balances) <= MAX_U64
    ensures var s' := AfterAll(s, calls);
      && Total(s'.balances) == Total(s.balances)
      && Settles(s.balances, AcceptedAll(s, calls), s'.balances)
      && Enters(s.processed, AcceptedAll(s, calls), s'.processed)
  {
    if calls != [] {
      var init, call := calls[..|calls| - 1], calls[|calls| - 1];
      var mid := AfterAll(s, init);
      EveryRunConservesMoney(s, init);
      if TransactAll(mid, Transactions(call)).Ok? {
        BlockConserves(mid, Transactions(call));
        EnterMore(s.processed, AcceptedAll(s, init), mid.processed, Accepted(mid, call), AfterAll(s, calls).processed);
        SettleMore(s.balances, AcceptedAll(s, init), mid.balances, Accepted(mid, call), AfterAll(s, calls).balances);
      } else {
        assert AcceptedAll(s, init) + [] == AcceptedAll(s, init);
      }
    }
  }

  /** Beyond 64 bits the credit wraps and money vanishes: the initial total must fit. */
  lemma MoneyVanishesBeyond64Bits()
    ensures var s := State(map["a" := 1, "b" := MAX_U64], {});
      var r := Transact(s, Transaction("t", "a", "b", 1));
      r.Ok? && Total(s.balances) == MAX_U64 + 1 && Total(r.value.balances) == 0
  {
    var s := State(map["a" := 1, "b" := MAX_U64], {});
    var r := Transact(s, Transaction("t", "a", "b", 1)).value;
    TotalSplits(s.balances, "a");
    TotalSplits(s.balances - {"a"}, "b");
    assert s.balances - {"a"} - {"b"} == map[];
    TotalSplits(r.balances, "a");
    TotalSplits(r.balances - {"a"}, "b");
    assert r.balances - {"a"} - {"b"} == map[];
  }
}
