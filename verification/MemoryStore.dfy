/** MemoryCheckpointStore, and its simulation of the PostgreSQL store under the indexers and Reconcile. */
module MemoryStore {
  import opened Chain
  import opened Store
  import opened Indexing
  import opened Reorg
  import Sequential = SequentialIndexer

  datatype Memory = Memory(checkpoint: Checkpoint, present: bool, indexes: map<nat, Block>)

  datatype MemoryError = ContextDone | ChainReorg

  function Saved(m: Memory, b: Block): Memory {
    Memory(Checkpoint(b.number, b.hash), true, m.indexes[b.number := b])
  }

  predicate Clashes(m: Memory, c: Checkpoint) {
    c.number in m.indexes && m.indexes[c.number].hash != c.hash
  }

  /** The entry is replaced by a bare one: the hash stays, parent and transfers go. */
  function Ensured(m: Memory, c: Checkpoint): Memory {
    m.(indexes := m.indexes[c.number := Block(c.number, c.hash, "", [])])
  }

  function RolledBackTo(m: Memory, c: Checkpoint): Memory {
    Memory(c, true, map n | n in m.indexes && n <= c.number :: m.indexes[n])
  }

  function Loaded(m: Memory): Option<Checkpoint> {
    if m.present then Some(m.checkpoint) else None
  }

  function HashAt(m: Memory, number: nat): Option<Hash> {
    if number in m.indexes then Some(m.indexes[number].hash) else None
  }

  // ----- the store as an object, with big integers that callers may share and change -----

  class BigInt {
    var value: int

    constructor (value: int)
      ensures this.value == value
    {
      this.value := value;
    }
  }

  /** A transfer whose value is a pointer, nil allowed. */
  datatype TransferRecord = TransferRecord(token: string, sender: string, receiver: string,
                                           value: BigInt?, txHash: string, logIndex: Uint64)

  datatype IndexRecord = IndexRecord(number: nat, hash: Hash, parent: Hash, transfers: seq<TransferRecord>)

  ghost function IntegerOf(t: TransferRecord): set<BigInt> {
    if t.value == null then {} else var v: BigInt := t.value; {v}
  }

  /** The big integers that a list of transfers points to. */
  ghost function Integers(ts: seq<TransferRecord>): set<BigInt> {
    if ts == [] then {} else Integers(ts[..|ts| - 1]) + IntegerOf(ts[|ts| - 1])
  }

  ghost function TransferOf(t: TransferRecord): Transfer
    reads IntegerOf(t)
  {
    Transfer(t.token, t.sender, t.receiver, if t.value == null then None else Some(t.value.value), t.txHash, t.logIndex)
  }

  ghost function TransfersIn(ts: seq<TransferRecord>): seq<Transfer>
    reads Integers(ts)
  {
    if ts == [] then [] else TransfersIn(ts[..|ts| - 1]) + [TransferOf(ts[|ts| - 1])]
  }

  ghost function BlockOf(index: IndexRecord): Block
    reads Integers(index.transfers)
  {
    Block(index.number, index.hash, index.parent, TransfersIn(index.transfers))
  }

  lemma {:induction false} IntegersAllocated(ts: seq<TransferRecord>)
    ensures forall o :: o in Integers(ts) ==> allocated(o)
  {
    if ts != [] {
      IntegersAllocated(ts[..|ts| - 1]);
    }
  }

  ghost function OwnedBy(indexes: map<nat, IndexRecord>): set<BigInt> {
    set n, o | n in indexes && o in Integers(indexes[n].transfers) :: o
  }

  ghost function Entries(indexes: map<nat, IndexRecord>): map<nat, Block>
    reads OwnedBy(indexes)
  {
    map n | n in indexes :: BlockOf(indexes[n])
  }

  lemma OwnedAllocated(indexes: map<nat, IndexRecord>)
    ensures forall o :: o in OwnedBy(indexes) ==> allocated(o)
  {
    forall n | n in indexes ensures forall o :: o in Integers(indexes[n].transfers) ==> allocated(o) {
      IntegersAllocated(indexes[n].transfers);
    }
  }

  /** The integers existed before, and still have the values they had. */
  twostate predicate Kept(integers: set<BigInt>)
    reads integers
  {
    forall o :: o in integers ==> old(allocated(o)) && o.value == old(o.value)
  }

  twostate lemma {:induction false} TransfersKept(ts: seq<TransferRecord>)
    requires Kept(Integers(ts))
    ensures TransfersIn(ts) == old(TransfersIn(ts))
  {
    if ts != [] {
      TransfersKept(ts[..|ts| - 1]);
      assert ts[|ts| - 1].value != null ==> ts[|ts| - 1].value in Integers(ts);
    }
  }

  lemma TransfersAppend(ts: seq<TransferRecord>, t: TransferRecord)
    ensures TransfersIn(ts + [t]) == TransfersIn(ts) + [TransferOf(t)]
    ensures Integers(ts + [t]) == Integers(ts) + IntegerOf(t)
  {
    assert (ts + [t])[..|ts|] == ts;
  }

  lemma {:induction false} TransferAt(ts: seq<TransferRecord>, i: nat)
    requires i < |ts|
    ensures |TransfersIn(ts)| == |ts| && TransfersIn(ts)[i] == TransferOf(ts[i])
  {
    if i < |ts| - 1 {
      TransferAt(ts[..|ts| - 1], i);
    } else if ts[..i] != [] {
      TransferAt(ts[..i], 0);
    }
  }

  /** The value behind the pointer is copied, not the pointer. */
  method CopyTransfer(t: TransferRecord) returns (copy: TransferRecord)
    ensures TransferOf(copy) == old(TransferOf(t))
    ensures fresh(IntegerOf(copy))
  {
    copy := t;
    if t.value != null {
      var value := new BigInt(t.value.value);
      copy := t.(value := value);
    }
  }

  /** An equal copy that shares no big integer with the original, or with anything else. */
  method CloneBlockTransferIndex(index: IndexRecord) returns (clone: IndexRecord)
    ensures BlockOf(clone) == old(BlockOf(index))
    ensures fresh(Integers(clone.transfers))
  {
    var transfers: seq<TransferRecord> := [];
    ghost var original := TransfersIn(index.transfers);
    IntegersAllocated(index.transfers);
    if index.transfers != [] {
      TransferAt(index.transfers, 0);
    }
    for i := 0 to |index.transfers|
      invariant |original| == |index.transfers| && fresh(Integers(transfers))
      invariant TransfersIn(transfers) == original[..i]
    {
      IntegersAllocated(transfers);
      TransfersKept(index.transfers);
      TransferAt(index.transfers, i);
      var copy := CopyTransfer(index.transfers[i]);
      TransfersAppend(transfers, copy);
      transfers := transfers + [copy];
    }
    return IndexRecord(index.number, index.hash, index.parent, transfers);
  }

  /** Whatever is done to big integers that the entries do not own, the entries stay. */
  twostate lemma EntriesKept(indexes: map<nat, IndexRecord>)
    requires Kept(OwnedBy(indexes))
    ensures Entries(indexes) == old(Entries(indexes))
  {
    forall n | n in indexes ensures BlockOf(indexes[n]) == old(BlockOf(indexes[n])) {
      assert Integers(indexes[n].transfers) <= OwnedBy(indexes);
      TransfersKept(indexes[n].transfers);
    }
  }

  lemma EntriesUpdated(indexes: map<nat, IndexRecord>, n: nat, index: IndexRecord)
    ensures Entries(indexes[n := index]) == Entries(indexes)[n := BlockOf(index)]
    ensures OwnedBy(indexes[n := index]) <= OwnedBy(indexes) + Integers(index.transfers)
  {
  }

  class MemoryCheckpointStore {
    var checkpoint: Checkpoint
    var hasCheckpoint: bool
    var indexes: map<nat, IndexRecord>

    constructor ()
      ensures !hasCheckpoint && indexes == map[]
    {
      checkpoint, hasCheckpoint, indexes := Checkpoint(0, ""), false, map[];
    }

    /** The big integers that the stored entries point to. */
    ghost function Owned(): set<BigInt>
      reads this
    {
      OwnedBy(indexes)
    }

    /** It reads nothing but the store and what it owns. */
    ghost function State(): (m: Memory)
      reads this, Owned()
    {
      Memory(checkpoint, hasCheckpoint, Entries(indexes))
    }

    method Load(done: bool) returns (r: Result<Option<Checkpoint>, MemoryError>)
      ensures r == if done then Err(ContextDone) else Ok(Loaded(State()))
      ensures r.Ok? ==> r.value == if hasCheckpoint then Some(checkpoint) else None
    {
      if done {
        return Err(ContextDone);
      }
      return Ok(if hasCheckpoint then Some(checkpoint) else None);
    }

    /** What the store comes to own is new, so that later changes to the caller's integers cannot reach it. */
    method SaveIndexedBlock(done: bool, index: IndexRecord) returns (e: Option<MemoryError>)
      modifies this
      ensures e == if done then Some(ContextDone) else None
      ensures State() == if done then old(State()) else Saved(old(State()), old(BlockOf(index)))
      ensures !done ==> State() == Memory(Checkpoint(index.number, index.hash), true,
                                          old(State().indexes)[index.number := old(BlockOf(index))])
      ensures fresh(Owned() - old(Owned()))
    {
      if done {
        return Some(ContextDone);
      }
      OwnedAllocated(indexes);
      var clone := CloneBlockTransferIndex(index);
      ghost var saved := BlockOf(clone);
      indexes := indexes[index.number := clone];
      checkpoint := Checkpoint(index.number, index.hash);
      hasCheckpoint := true;
      assert BlockOf(clone) == saved;
      EntriesKept(old(indexes));
      EntriesUpdated(old(indexes), index.number, clone);
      return None;
    }

    method EnsureIndexedBlock(done: bool, c: Checkpoint) returns (e: Option<MemoryError>)
      modifies this
      ensures e == if done then Some(ContextDone) else if Clashes(old(State()), c) then Some(ChainReorg) else None
      ensures State() == if e.Some? then old(State()) else Ensured(old(State()), c)
      ensures checkpoint == old(checkpoint) && hasCheckpoint == old(hasCheckpoint)
      ensures e.None? ==> State().indexes == old(State().indexes)[c.number := Block(c.number, c.hash, "", [])]
      ensures Owned() <= old(Owned())
    {
      if done {
        return Some(ContextDone);
      }
      if c.number in indexes && indexes[c.number].hash != c.hash {
        return Some(ChainReorg);
      }
      OwnedAllocated(indexes);
      var bare := IndexRecord(c.number, c.hash, "", []);
      indexes := indexes[c.number := bare];
      EntriesKept(old(indexes));
      EntriesUpdated(old(indexes), c.number, bare);
      return None;
    }

    method LoadIndexedBlockHash(done: bool, number: nat) returns (r: Result<Option<Hash>, MemoryError>)
      ensures r == if done then Err(ContextDone) else Ok(HashAt(State(), number))
      ensures r.Ok? ==> r.value == if number in indexes then Some(indexes[number].hash) else None
    {
      if done {
        return Err(ContextDone);
      }
      if number in indexes {
        return Ok(Some(indexes[number].hash));
      }
      return Ok(None);
    }

    /** Deletes while ranging over the map, in whatever order the keys come. */
    method RollbackTo(done: bool, c: Checkpoint) returns (e: Option<MemoryError>)
      modifies this
      ensures e == if done then Some(ContextDone) else None
      ensures State() == if done then old(State()) else RolledBackTo(old(State()), c)
      ensures !done ==> checkpoint == c && hasCheckpoint
      ensures !done ==> forall n :: n in indexes <==> n in old(indexes) && n <= c.number
      ensures forall n :: n in indexes ==> n in old(indexes) && indexes[n] == old(indexes)[n]
      ensures Owned() <= old(Owned())
    {
      if done {
        return Some(ContextDone);
      }
      OwnedAllocated(indexes);
      var todo := indexes.Keys;
      while todo != {}
        invariant todo <= old(indexes).Keys
        invariant forall n :: n in indexes <==> n in old(indexes) && (n in todo || n <= c.number)
        invariant forall n :: n in indexes ==> indexes[n] == old(indexes)[n]
        decreases |todo|
      {
        var number :| number in todo;
        todo := todo - {number};
        if number > c.number {
          indexes := indexes - {number};
        }
      }
      checkpoint := c;
      hasCheckpoint := true;
      EntriesKept(old(indexes));
      assert Entries(indexes) == RolledBackTo(old(State()), c).indexes;
      return None;
    }
  }

  /** Whatever is done to big integers that the store does not own, its state stays. */
  twostate lemma ForeignChangesAreInvisible(store: MemoryCheckpointStore)
    requires unchanged(store) && Kept(store.Owned())
    ensures store.State() == old(store.State())
  {
    EntriesKept(store.indexes);
  }

  // ----- simulation -----

  /** The two stores answer Load and LoadIndexedBlockHash alike. */
  ghost predicate Similar(m: Memory, s: Tables) {
    Loaded(m) == s.checkpoint && forall n: nat :: HashAt(m, n) == LoadHash(s, n)
  }

  /** Saving keeps the stores alike exactly when the block does not conflict with recorded history. */
  lemma SaveAgreesIff(m: Memory, s: Tables, b: Block)
    requires Similar(m, s) && Storable(b)
    ensures Conflicts(s.history, b.number, b.hash) ==> Save(s, b) == Err(HashConflict) && !Similar(Saved(m, b), s)
    ensures !Conflicts(s.history, b.number, b.hash) ==> Save(s, b).Ok? && Similar(Saved(m, b), Save(s, b).value)
  {
    FirstRefusalNone(b, |b.transfers|);
    assert HashAt(m, b.number) == LoadHash(s, b.number);
    if Conflicts(s.history, b.number, b.hash) {
      assert HashAt(Saved(m, b), b.number) != LoadHash(s, b.number);
    } else {
      var s' := Save(s, b).value;
      forall n: nat ensures HashAt(Saved(m, b), n) == LoadHash(s', n) {
        assert HashAt(m, n) == LoadHash(s, n);
      }
    }
  }

  lemma EnsureAgrees(m: Memory, s: Tables, c: Checkpoint)
    requires Similar(m, s) && c.number <= MAX_BIGINT
    ensures Clashes(m, c) <==> Ensure(s, c) == Err(HashConflict)
    ensures !Clashes(m, c) ==> Ensure(s, c).Ok? && Similar(Ensured(m, c), Ensure(s, c).value)
  {
    assert HashAt(m, c.number) == LoadHash(s, c.number);
    if !Clashes(m, c) {
      forall n: nat ensures HashAt(Ensured(m, c), n) == LoadHash(Ensure(s, c).value, n) {
        assert HashAt(m, n) == LoadHash(s, n);
      }
    }
  }

  lemma RollbackAgrees(m: Memory, s: Tables, c: Checkpoint)
    requires Similar(m, s) && c.number <= MAX_BIGINT
    ensures Rollback(s, c).Ok? && Similar(RolledBackTo(m, c), Rollback(s, c).value)
  {
    forall n: nat ensures HashAt(RolledBackTo(m, c), n) == LoadHash(Rollback(s, c).value, n) {
      assert HashAt(m, n) == LoadHash(s, n);
    }
  }

  /** The sequential loop over the memory store. */
  function FinishInMemory(script: Sequential.Script, end: nat, m: Memory, next: nat, expected: Hash,
                          results: seq<Block>)
    : (Memory, Outcome)
    requires next <= end
    decreases end - next
  {
    match Sequential.ProcessBlock(script, next)
    case FetchFailed(c) => (m, Failure(FetchError(next, c)))
    case LogsFailed(c) => (m, Failure(LogsError(next, c)))
    case Fetched(b) =>
      if !ParentAccepted(b.parent, expected) then (m, Failure(ParentMismatch(b.number)))
      else if next == end then (Saved(m, b), Success(results + [b]))
      else FinishInMemory(script, end, Saved(m, b), next + 1, b.hash, results + [b])
  }

  ghost predicate AllStorable(script: Sequential.Script) {
    forall n: nat :: Sequential.ProcessBlock(script, n).Fetched? ==> Storable(Sequential.ProcessBlock(script, n).block)
  }

  /** One pass of the loop whose block is accepted, on both stores. */
  lemma PassAgrees(w: World, p: seq<Block>, from: nat, end: nat, st: Sequential.Loop, m: Memory, b: Block)
    requires WellFormed(w) && st.Running? && Sequential.LoopInv(w, p, from, end, st) && Similar(m, st.store)
    requires b in w && b.number == st.next && Storable(b) && ParentAccepted(b.parent, st.expected)
    ensures Save(st.store, b).Ok? && Similar(Saved(m, b), Save(st.store, b).value)
  {
    NextIsUnrecorded(p + st.results, b.number);
    SaveAgreesIff(m, st.store, b);
  }

  /** A range indexed over either store ends the same way and leaves the stores alike. */
  lemma {:induction false} RangeAgrees(w: World, script: Sequential.Script, p: seq<Block>, from: nat, end: nat,
                                       st: Sequential.Loop, m: Memory)
    requires WellFormed(w) && Honest(w, Sequential.EnvOf(script)) && AllStorable(script)
    requires forall n: nat :: script.fault(n) == NoFault
    requires st.Running? && Sequential.LoopInv(w, p, from, end, st) && Similar(m, st.store)
    ensures var (m', out) := FinishInMemory(script, end, m, st.next, st.expected, st.results);
      var (s', out') := Sequential.Finish(script, end, st);
      out == out' && Similar(m', s')
    decreases end - st.next
  {
    var a := Sequential.ProcessBlock(script, st.next);
    if a.Fetched? && ParentAccepted(a.block.parent, st.expected) {
      var st' := Sequential.Iterate(end, st, a, NoFault);
      Sequential.FetchedIsGenuine(w, script, st.next);
      PassAgrees(w, p, from, end, st, m, a.block);
      if st.next < end {
        Sequential.IterateKeeps(w, p, from, end, st, a, NoFault);
        RangeAgrees(w, script, p, from, end, st', Saved(m, a.block));
      }
    }
  }

  /** What the descent sees of a memory store. */
  function View(m: Memory): Tables {
    Tables(Loaded(m), map n | n in m.indexes :: BlockRow(m.indexes[n].hash, ""), map[])
  }

  function ReconciliationInMemory(m: Memory, probe: Probe, maxDepth: nat): (Memory, ReorgResult) {
    if maxDepth == 0 then (m, Refused(InvalidDepth))
    else if probe.loadFails then (m, Refused(ReorgError.LoadFailed))
    else if !m.present then (m, NoCheckpoint)
    else
      var c := m.checkpoint;
      match probe.canonical(c.number)
      case Err(e) => (m, Refused(ReorgError.FetchFailed(c.number, e)))
      case Ok(b) =>
        if b.hash == c.hash then
          if Clashes(m, c) then (m, Refused(RecordFailed(HashConflict))) else (Ensured(m, c), Steady(c))
        else
          match Descend(View(m), probe, c.number, maxDepth)
          case Found(h, hash) => (RolledBackTo(m, Checkpoint(h, hash)), RolledBack(Checkpoint(h, hash), c))
          case Missing(h) => (m, Refused(HistoryUnavailable(h)))
          case Unreadable(h) => (m, Refused(ReadFailed(h)))
          case Unfetched(h, cause) => (m, Refused(ReorgError.FetchFailed(h, cause)))
          case Exhausted => (m, Refused(TooDeep))
  }

  lemma {:induction false} DescendAgrees(m: Memory, s: Tables, probe: Probe, height: nat, budget: nat)
    requires Similar(m, s)
    ensures Descend(View(m), probe, height, budget) == Descend(s, probe, height, budget)
  {
    if budget > 0 && height > 0 {
      assert HashAt(m, height - 1) == LoadHash(s, height - 1);
      DescendAgrees(m, s, probe, height - 1, budget - 1);
    }
  }

  /** Reconcile over either store gives the same result and leaves the stores alike. */
  lemma ReconcileAgrees(m: Memory, s: Tables, probe: Probe, maxDepth: nat)
    requires Similar(m, s) && probe.fault == NoFault && (s.checkpoint.Some? ==> s.checkpoint.value.number <= MAX_BIGINT)
    ensures var (m', r) := ReconciliationInMemory(m, probe, maxDepth);
      var (s', r') := Reconciliation(s, probe, maxDepth);
      r == r' && Similar(m', s')
  {
    if m.present {
      var c := m.checkpoint;
      EnsureAgrees(m, s, c);
      DescendAgrees(m, s, probe, c.number, maxDepth);
      var d := Descend(s, probe, c.number, maxDepth);
      if d.Found? {
        DescendFindsRecorded(s, probe, c.number, maxDepth);
        RollbackAgrees(m, s, Checkpoint(d.height, d.hash));
      }
    }
  }

  // ----- whole runs over both stores -----

  datatype Phase = Check(probe: Probe, maxDepth: nat) | Range(script: Sequential.Script, start: nat, end: nat)

  function IndexRangeInMemory(script: Sequential.Script, m: Memory, start: nat, end: nat): (Memory, Outcome) {
    match Enter(Loaded(m), script.loadFails, start, end)
    case Immediate(out) => (m, out)
    case Begin(next, expected) => FinishInMemory(script, end, m, next, expected, [])
  }

  function OnMemory(m: Memory, phase: Phase): Memory {
    match phase
    case Check(probe, maxDepth) => ReconciliationInMemory(m, probe, maxDepth).0
    case Range(script, start, end) => IndexRangeInMemory(script, m, start, end).0
  }

  function OnTables(s: Tables, phase: Phase): Tables {
    match phase
    case Check(probe, maxDepth) => Reconciliation(s, probe, maxDepth).0
    case Range(script, start, end) => Sequential.IndexRangeResult(script, s, start, end).0
  }

  /** A phase without database faults, whose range starts at or below checkpoint + 1. */
  ghost predicate Clean(w: World, s: Tables, phase: Phase) {
    match phase
    case Check(probe, _) => probe.fault == NoFault
    case Range(script, start, end) =>
      && Honest(w, Sequential.EnvOf(script)) && AllStorable(script)
      && (forall n: nat :: script.fault(n) == NoFault)
      && (s.checkpoint.Some? ==> start <= s.checkpoint.value.number + 1)
  }

  ghost predicate CleanRun(w: World, s: Tables, phases: seq<Phase>)
    decreases |phases|
  {
    phases == [] || (Clean(w, s, phases[0]) && CleanRun(w, OnTables(s, phases[0]), phases[1..]))
  }

  function AllOnMemory(m: Memory, phases: seq<Phase>): Memory
    decreases |phases|
  {
    if phases == [] then m else AllOnMemory(OnMemory(m, phases[0]), phases[1..])
  }

  function AllOnTables(s: Tables, phases: seq<Phase>): Tables
    decreases |phases|
  {
    if phases == [] then s else AllOnTables(OnTables(s, phases[0]), phases[1..])
  }

  lemma RangePhaseAgrees(w: World, m: Memory, s: Tables, p: seq<Block>, phase: Phase) returns (p': seq<Block>)
    requires WellFormed(w) && Tracks(w, s, p) && Similar(m, s) && phase.Range? && Clean(w, s, phase)
    ensures Similar(OnMemory(m, phase), OnTables(s, phase)) && Tracks(w, OnTables(s, phase), p')
  {
    var Range(script, start, end) := phase;
    p' := p;
    var e := Enter(s.checkpoint, script.loadFails, start, end);
    if e.Begin? {
      EnterContinues(w, s, p, start, end);
      var st := Sequential.Running(s, e.next, e.expected, []);
      assert p + [] == p;
      RangeAgrees(w, script, p, e.next, end, st, m);
      var q := Sequential.FinishExtends(w, script, p, e.next, end, st);
      p' := p + q;
    }
  }

  lemma PhaseAgrees(w: World, m: Memory, s: Tables, p: seq<Block>, phase: Phase) returns (p': seq<Block>)
    requires WellFormed(w) && Tracks(w, s, p) && Similar(m, s) && Clean(w, s, phase)
    ensures Similar(OnMemory(m, phase), OnTables(s, phase)) && Tracks(w, OnTables(s, phase), p')
  {
    if phase.Range? {
      p' := RangePhaseAgrees(w, m, s, p, phase);
    } else {
      assert s.checkpoint.Some? ==> Storable(p[|p| - 1]);
      ReconcileAgrees(m, s, phase.probe, phase.maxDepth);
      var k := ReconcileTruncates(w, s, p, phase.probe, phase.maxDepth);
      p' := p[..k];
    }
  }

  lemma {:induction false} SimilarAlongRuns(w: World, m: Memory, s: Tables, p: seq<Block>, phases: seq<Phase>)
    requires WellFormed(w) && Tracks(w, s, p) && Similar(m, s) && CleanRun(w, s, phases)
    ensures Similar(AllOnMemory(m, phases), AllOnTables(s, phases))
    decreases |phases|
  {
    if phases != [] {
      var p' := PhaseAgrees(w, m, s, p, phases[0]);
      SimilarAlongRuns(w, OnMemory(m, phases[0]), OnTables(s, phases[0]), p', phases[1..]);
    }
  }

  /**
    From empty stores, after any sequence of index ranges and reconciliations, the memory store and
    the PostgreSQL store give identical Load and LoadIndexedBlockHash answers.
    */
  lemma StoresAgreeAlongRuns(w: World, phases: seq<Phase>)
    requires WellFormed(w) && CleanRun(w, EMPTY, phases)
    ensures var m, s := AllOnMemory(Memory(Checkpoint(0, ""), false, map[]), phases), AllOnTables(EMPTY, phases);
      Loaded(m) == s.checkpoint && forall n: nat :: HashAt(m, n) == LoadHash(s, n)
  {
    assert Tracks(w, EMPTY, []);
    SimilarAlongRuns(w, Memory(Checkpoint(0, ""), false, map[]), EMPTY, [], phases);
  }
}
