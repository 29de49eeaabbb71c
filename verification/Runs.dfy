/**
  Whole runs of the process: start-up (Reconcile, determineStartBlock), index cycles executed by
  the concurrent indexer one atomic step at a time, stops, and a crash at any moment.
  */
module Runs {
  import opened Chain
  import opened Store
  import opened Indexing
  import opened Reorg
  import Sequential = SequentialIndexer
  import Concurrent = ConcurrentIndexer
  import Continuous = ContinuousIndexer

  datatype StartError = ReorgRefused(error: ReorgError) | NoHead(cause: Cause)

  /** determineStartBlock: the tables after start-up, and the first block to index. */
  function DetermineStartBlock(s: Tables, probe: Probe, maxDepth: nat, head: Result<nat, Cause>, confirmations: nat)
    : (Tables, Result<nat, StartError>)
  {
    match Reconciliation(s, probe, maxDepth)
    case (s', Refused(e)) => (s', Err(ReorgRefused(e)))
    case (s', Steady(c)) => (s', Ok(c.number + 1))
    case (s', RolledBack(c, _)) => (s', Ok(c.number + 1))
    case (s', NoCheckpoint) =>
      match head
      case Err(e) => (s', Err(NoHead(e)))
      case Ok(latest) => (s', Ok(if latest >= confirmations then latest - confirmations else 0))
  }

  datatype Process =
    | Down(store: Tables)
    | Ready(store: Tables, start: nat)
    | Indexing(start: nat, end: nat, env: Env, range: Concurrent.State)

  datatype Settings = Settings(maxDepth: nat, confirmations: nat, workerCount: nat)

  function StoreNow(y: Process): Tables {
    if y.Indexing? then y.range.store else y.store
  }

  ghost predicate BootsWith(cfg: Settings, y: Process, y': Process, probe: Probe, head: Result<nat, Cause>) {
    y.Down? &&
    match DetermineStartBlock(y.store, probe, cfg.maxDepth, head, cfg.confirmations)
    case (s', Ok(start)) => y' == Ready(s', start)
    case (s', Err(_)) => y' == Down(s')
  }

  ghost predicate Boots(cfg: Settings, y: Process, y': Process) {
    exists probe, head :: BootsWith(cfg, y, y', probe, head)
  }

  /** A tick at which the latest block is `head`. */
  ghost predicate Polls(w: World, cfg: Settings, y: Process, y': Process, head: nat, loadFails: bool, env: Env)
    requires y.Ready?
  {
    && Honest(w, env)
    && cfg.confirmations <= head <= MAX_U64 && y.start <= head - cfg.confirmations
    && match Concurrent.Launch(y.store, loadFails, y.start, head - cfg.confirmations, cfg.workerCount)
       case Immediate(Success(_)) => y' == y
       case Immediate(Failure(_)) => y' == Down(y.store)
       case Begin(next, expected) =>
         y' == Indexing(y.start, head - cfg.confirmations, env,
                        Concurrent.Init(y.store, next, expected, cfg.workerCount))
  }

  ghost predicate BeginsCycle(w: World, cfg: Settings, y: Process, y': Process) {
    y.Ready? && exists head: nat, loadFails: bool, env: Env :: Polls(w, cfg, y, y', head, loadFails, env)
  }

  ghost predicate Indexes(y: Process, y': Process) {
    y.Indexing? && y'.Indexing? && y' == y.(range := y'.range) && Concurrent.Step(y.env, y.end, y.range, y'.range)
  }

  /** A nil error goes back to polling; any other return ends the process. */
  ghost predicate EndsCycle(y: Process, y': Process) {
    y.Indexing? && y.range.coordinator.Returned? &&
    y' == if y.range.coordinator.outcome.Success? then Ready(y.range.store, y.start) else Down(y.range.store)
  }

  ghost predicate Crashes(y: Process, y': Process) {
    y' == Down(StoreNow(y))
  }

  /** Every step but start-up. */
  ghost predicate Proceeds(w: World, cfg: Settings, y: Process, y': Process) {
    BeginsCycle(w, cfg, y, y') || Indexes(y, y') || EndsCycle(y, y') || Crashes(y, y')
  }

  ghost predicate Next(w: World, cfg: Settings, y: Process, y': Process) {
    Boots(cfg, y, y') || Proceeds(w, cfg, y, y')
  }

  ghost predicate NextAt(w: World, cfg: Settings, trace: seq<Process>, i: nat)
    requires 0 < i < |trace|
  {
    Next(w, cfg, trace[i - 1], trace[i])
  }

  ghost predicate Execution(w: World, cfg: Settings, trace: seq<Process>) {
    trace != [] && trace[0] == Down(EMPTY) && forall i :: 0 < i < |trace| ==> NextAt(w, cfg, trace, i)
  }

  // ----- the invariant of every run -----

  ghost predicate StartsWithin(p: seq<Block>, start: nat) {
    p != [] ==> start <= p[|p| - 1].number + 1
  }

  /** The range in progress started at `next` on a store that held the segment `p`. */
  ghost predicate RangeFrom(w: World, cfg: Settings, y: Process, p: seq<Block>, next: nat)
    requires y.Indexing?
  {
    && Honest(w, y.env) && Path(w, p) && Continues(p, next) && y.start <= next <= y.end
    && (p == [] ==> next == y.start)
    && Tracks(w, StoreOf(p), p)
    && Concurrent.Inv(y.env, y.end, Sequential.Running(StoreOf(p), next, TopHash(p), []), y.range)
  }

  /** `p` is the stored segment, or while a range is in progress the segment that the range builds on. */
  ghost predicate Grounded(w: World, cfg: Settings, y: Process, p: seq<Block>) {
    match y
    case Down(s) => Tracks(w, s, p)
    case Ready(s, start) => Tracks(w, s, p) && StartsWithin(p, start)
    case Indexing(_, _, _, _) => exists next: nat :: RangeFrom(w, cfg, y, p, next)
  }

  ghost predicate Sound(w: World, cfg: Settings, y: Process) {
    exists p :: Grounded(w, cfg, y, p)
  }

  ghost predicate Succeeded(y: Process) {
    y.Indexing? && y.range.coordinator.Returned? && y.range.coordinator.outcome.Success?
  }

  /**
    What a range in progress has committed so far, on top of the segment it started from: all of it
    and nothing else if it has succeeded.
    */
  lemma RangeCommits(w: World, cfg: Settings, y: Process, p: seq<Block>) returns (q: seq<Block>)
    requires WellFormed(w) && y.Indexing? && Grounded(w, cfg, y, p)
    ensures Tracks(w, y.range.store, p + q)
    ensures q != [] && p == [] ==> q[0].number == y.start
    ensures Succeeded(y) ==> q == y.range.coordinator.outcome.results && StartsWithin(p + q, y.start)
    ensures Succeeded(y) ==> q != [] && q[|q| - 1].number == y.end
  {
    var next: nat :| RangeFrom(w, cfg, y, p, next);
    assert p + [] == p;
    var l := Concurrent.Abstract(y.range);
    Sequential.ReachesKeeps(w, y.env, p, next, y.end, Sequential.Running(StoreOf(p), next, TopHash(p), []), l);
    q := Sequential.LoopCommits(w, p, next, y.end, l);
    TopOfJoin(p, q);
  }

  lemma TopOfJoin(p: seq<Block>, q: seq<Block>)
    ensures q != [] ==> (p + q)[|p + q| - 1] == q[|q| - 1]
  {
  }

  lemma SoundTracks(w: World, cfg: Settings, y: Process) returns (p: seq<Block>)
    requires WellFormed(w) && Sound(w, cfg, y)
    ensures Tracks(w, StoreNow(y), p)
  {
    p :| Grounded(w, cfg, y, p);
    if y.Indexing? {
      var q := RangeCommits(w, cfg, y, p);
      p := p + q;
    }
  }

  lemma BootKeeps(w: World, cfg: Settings, y: Process, y': Process, p: seq<Block>) returns (k: nat)
    requires WellFormed(w) && Grounded(w, cfg, y, p) && Boots(cfg, y, y')
    ensures k <= |p| && (p != [] ==> k > 0) && Grounded(w, cfg, y', p[..k])
  {
    var probe, head :| BootsWith(cfg, y, y', probe, head);
    k := ReconcileTruncates(w, y.store, p, probe, cfg.maxDepth);
    assert Tracks(w, y'.store, p[..k]);
    if y'.Ready? {
      assert StartsWithin(p[..k], y'.start);
    }
  }

  /** The start block fits in 64 bits: no stored checkpoint is near the top of the range. */
  lemma StartNeverWraps(w: World, cfg: Settings, s: Tables, p: seq<Block>, probe: Probe, head: Result<nat, Cause>)
    requires Tracks(w, s, p) && (head.Ok? ==> head.value <= MAX_U64)
    ensures var (s', started) := DetermineStartBlock(s, probe, cfg.maxDepth, head, cfg.confirmations);
      started.Ok? ==> started.value <= MAX_U64 && (p != [] ==> started.value <= MAX_BIGINT + 1)
  {
    var k := ReconcileTruncates(w, s, p, probe, cfg.maxDepth);
    var (s', r) := Reconciliation(s, probe, cfg.maxDepth);
    if r.Steady? || r.RolledBack? {
      assert Storable(p[k - 1]);
    }
  }

  /**
    Where start-up leaves off: right above the checkpoint that is now stored, or, on a store without
    one, at the confirmed head; and why it fails.
    */
  lemma StartExplained(s: Tables, probe: Probe, maxDepth: nat, head: Result<nat, Cause>, confirmations: nat)
    ensures var (s', started) := DetermineStartBlock(s, probe, maxDepth, head, confirmations);
      match started
      case Ok(start) =>
        && (s.checkpoint.Some? ==> s'.checkpoint.Some? && start == s'.checkpoint.value.number + 1)
        && (s.checkpoint.None? ==> s' == s && head.Ok?)
        && (s.checkpoint.None? ==> start == if head.value <= confirmations then 0 else head.value - confirmations)
      case Err(NoHead(c)) => s' == s && s.checkpoint.None? && head == Err(c)
      case Err(ReorgRefused(e)) => Reconciliation(s, probe, maxDepth) == (s', Refused(e))
  {
    ReconcileExplained(s, probe, maxDepth);
  }

  lemma BeginKeeps(w: World, cfg: Settings, y: Process, y': Process, p: seq<Block>)
    requires WellFormed(w) && cfg.workerCount > 0 && Grounded(w, cfg, y, p) && BeginsCycle(w, cfg, y, y')
    ensures Grounded(w, cfg, y', p)
  {
    var head: nat, loadFails: bool, env: Env :| Polls(w, cfg, y, y', head, loadFails, env);
    if y'.Indexing? {
      EnterContinues(w, y.store, p, y.start, y'.end);
      var Begin(next, expected) := Enter(y.store.checkpoint, false, y.start, y'.end);
      Concurrent.InitInv(y'.env, y'.end, y.store, next, expected, cfg.workerCount);
      assert RangeFrom(w, cfg, y', p, next);
    }
  }

  lemma IndexKeeps(w: World, cfg: Settings, y: Process, y': Process, p: seq<Block>)
    requires Grounded(w, cfg, y, p) && Indexes(y, y')
    ensures Grounded(w, cfg, y', p)
  {
    var next: nat :| RangeFrom(w, cfg, y, p, next);
    Concurrent.StepKeepsInv(y.env, y.end, Sequential.Running(StoreOf(p), next, TopHash(p), []), y.range, y'.range);
    assert RangeFrom(w, cfg, y', p, next);
  }

  lemma StopKeeps(w: World, cfg: Settings, y: Process, y': Process, p: seq<Block>) returns (q: seq<Block>)
    requires WellFormed(w) && Grounded(w, cfg, y, p) && (EndsCycle(y, y') || Crashes(y, y'))
    ensures Grounded(w, cfg, y', p + q)
  {
    q := [];
    assert p + [] == p;
    if y.Indexing? {
      q := RangeCommits(w, cfg, y, p);
    }
  }

  lemma NextIsSound(w: World, cfg: Settings, y: Process, y': Process)
    requires WellFormed(w) && cfg.workerCount > 0 && Sound(w, cfg, y) && Next(w, cfg, y, y')
    ensures Sound(w, cfg, y')
  {
    var p :| Grounded(w, cfg, y, p);
    if Boots(cfg, y, y') {
      var k := BootKeeps(w, cfg, y, y', p);
    } else if BeginsCycle(w, cfg, y, y') {
      BeginKeeps(w, cfg, y, y', p);
    } else if Indexes(y, y') {
      IndexKeeps(w, cfg, y, y', p);
    } else {
      var q := StopKeeps(w, cfg, y, y', p);
    }
  }

  lemma {:induction false} ExecutionIsSound(w: World, cfg: Settings, trace: seq<Process>, i: nat)
    requires WellFormed(w) && cfg.workerCount > 0 && Execution(w, cfg, trace) && i < |trace|
    ensures Sound(w, cfg, trace[i])
  {
    if i == 0 {
      assert Grounded(w, cfg, trace[0], []);
    } else {
      ExecutionIsSound(w, cfg, trace, i - 1);
      assert NextAt(w, cfg, trace, i);
      NextIsSound(w, cfg, trace[i - 1], trace[i]);
    }
  }

  lemma StateTracks(w: World, cfg: Settings, trace: seq<Process>, i: nat) returns (p: seq<Block>)
    requires WellFormed(w) && cfg.workerCount > 0 && Execution(w, cfg, trace) && i < |trace|
    ensures Tracks(w, StoreNow(trace[i]), p)
  {
    ExecutionIsSound(w, cfg, trace, i);
    p := SoundTracks(w, cfg, trace[i]);
  }

  /**
    In every state of every run from an empty store, whatever forks the node answers from and
    wherever the process crashed: the history is one parent-linked segment of one chain, the
    checkpoint is its top, and the transfer table is the disjoint union of its blocks' transfers.
    */
  lemma EveryStoreIsOneChain(w: World, cfg: Settings, trace: seq<Process>, i: nat) returns (p: seq<Block>)
    requires WellFormed(w) && cfg.workerCount > 0 && Execution(w, cfg, trace) && i < |trace|
    ensures var s := StoreNow(trace[i]);
      && Tracks(w, s, p)
      && (s.checkpoint == if p == [] then None else Some(Checkpoint(p[|p| - 1].number, p[|p| - 1].hash)))
      && (forall j :: 0 <= j < |p| ==>
            p[j].number in s.history && s.history[p[j].number] == BlockRow(p[j].hash, p[j].parent))
      && (forall n :: n in s.history ==> p != [] && p[0].number <= n <= p[|p| - 1].number)
      && (forall j, x :: 0 <= j < |p| && 0 <= x < |p[j].transfers| ==>
            var t := p[j].transfers[x];
            var key := (t.txHash, AsInt64(t.logIndex));
            && key in s.transfers && s.transfers[key].transfer == t
            && s.transfers[key].blockNumber == p[j].number && s.transfers[key].blockHash == p[j].hash)
      && (forall k :: k in s.transfers ==> exists j, x ::
            && 0 <= j < |p| && 0 <= x < |p[j].transfers|
            && k == (p[j].transfers[x].txHash, AsInt64(p[j].transfers[x].logIndex))
            && s.transfers[k].transfer == p[j].transfers[x]
            && s.transfers[k].blockNumber == p[j].number && s.transfers[k].blockHash == p[j].hash)
      && |s.transfers| == RowCount(p)
  {
    p := StateTracks(w, cfg, trace, i);
    var s := StoreNow(trace[i]);
    forall j | 0 <= j < |p|
      ensures p[j].number in s.history && s.history[p[j].number] == BlockRow(p[j].hash, p[j].parent)
    {
      LinkedNumbers(p, j);
      HistoryAt(p, p[j].number);
    }
    forall n | n in s.history ensures p != [] && p[0].number <= n <= p[|p| - 1].number {
      HistoryAt(p, n);
      LinkedNumbers(p, |p| - 1);
    }
    TransferTableIsExact(w, s, p);
  }
}
