/**
  Recovery on a chain that stays fixed: what start-up and the cycles after it rebuild, first with
  the cycle as a function, then over whole runs of the process.
  */
module Recovery {
  import opened Chain
  import opened Store
  import opened Indexing
  import opened Reorg
  import opened Runs
  import opened Lifetimes
  import Sequential = SequentialIndexer
  import Continuous = ContinuousIndexer

  function FixedScript(chain: seq<Block>): Sequential.Script {
    Sequential.Script((n: nat) => if n < |chain| then Ok(chain[n].Head()) else Err("not found"),
                      (h: Header) => if h.number < |chain| && chain[h.number].Head() == h
                                     then Ok(chain[h.number].transfers) else Err("unknown block"),
                      (n: nat) => NoFault, false)
  }

  /** The loop on the fixed chain, with everything from `first` to below `next` stored. */
  function LoopAt(chain: seq<Block>, first: nat, from: nat, next: nat): Sequential.Loop
    requires first <= from <= next <= |chain|
  {
    Sequential.Running(StoreOf(chain[first..next]), next, TopHash(chain[first..next]), chain[from..next])
  }

  lemma ScriptGives(chain: seq<Block>, n: nat)
    requires Linked(chain) && chain != [] && chain[0].number == 0 && n < |chain|
    ensures Sequential.ProcessBlock(FixedScript(chain), n) == Fetched(chain[n])
  {
    LinkedNumbers(chain, n);
    assert Assemble(chain[n].Head(), chain[n].transfers) == chain[n];
  }

  ghost predicate StorableFrom(chain: seq<Block>, first: nat, m: nat)
    requires m <= |chain|
  {
    forall i :: first <= i < m ==> Storable(chain[i])
  }

  lemma NextSaves(w: World, chain: seq<Block>, first: nat, next: nat)
    requires Canonical(w, chain) && first <= next < |chain| && StorableFrom(chain, first, next + 1)
    ensures Save(StoreOf(chain[first..next]), chain[next]) == Ok(StoreOf(chain[first..next + 1]))
    ensures ParentAccepted(chain[next].parent, TopHash(chain[first..next]))
    ensures TopHash(chain[first..next + 1]) == chain[next].hash
  {
    var p := chain[first..next];
    LinkedSlice(chain, first, next);
    if p != [] {
      assert LinkAt(chain, next);
    }
    SaveExtends(w, StoreOf(p), p, chain[next]);
    assert p + [chain[next]] == chain[first..next + 1];
  }

  /** A pass of the loop whose block is accepted and saved. */
  lemma IterateSaves(end: nat, st: Sequential.Loop, b: Block, store: Tables)
    requires st.Running? && ParentAccepted(b.parent, st.expected) && Save(st.store, b) == Ok(store)
    ensures Sequential.Iterate(end, st, Fetched(b), NoFault)
         == if st.next == end then Sequential.Finished(store, Success(st.results + [b]))
            else Sequential.Running(store, st.next + 1, b.hash, st.results + [b])
  {
  }

  lemma FixedStep(w: World, chain: seq<Block>, first: nat, from: nat, next: nat, end: nat)
    requires Canonical(w, chain) && first <= from <= next <= end < |chain| && StorableFrom(chain, first, end + 1)
    ensures Sequential.ProcessBlock(FixedScript(chain), next) == Fetched(chain[next])
    ensures Sequential.Iterate(end, LoopAt(chain, first, from, next), Fetched(chain[next]), NoFault)
         == if next == end then Sequential.Finished(StoreOf(chain[first..next + 1]), Success(chain[from..next + 1]))
            else LoopAt(chain, first, from, next + 1)
  {
    ScriptGives(chain, next);
    NextSaves(w, chain, first, next);
    IterateSaves(end, LoopAt(chain, first, from, next), chain[next], StoreOf(chain[first..next + 1]));
    assert chain[from..next] + [chain[next]] == chain[from..next + 1];
  }

  lemma FinishOnce(script: Sequential.Script, end: nat, st: Sequential.Loop)
    requires st.Running? && st.next <= end
    ensures var st' := Sequential.Iterate(end, st, Sequential.ProcessBlock(script, st.next), script.fault(st.next));
      Sequential.Finish(script, end, st)
      == if st'.Finished? then (st'.store, st'.outcome) else Sequential.Finish(script, end, st')
  {
  }

  /** Indexing a stretch of the fixed chain appends exactly that stretch. */
  lemma {:induction false} FixedRange(w: World, chain: seq<Block>, first: nat, from: nat, next: nat, end: nat)
    requires Canonical(w, chain) && first <= from <= next <= end < |chain| && StorableFrom(chain, first, end + 1)
    ensures Sequential.Finish(FixedScript(chain), end, LoopAt(chain, first, from, next))
         == (StoreOf(chain[first..end + 1]), Success(chain[from..end + 1]))
    decreases end - next
  {
    FixedStep(w, chain, first, from, next, end);
    FinishOnce(FixedScript(chain), end, LoopAt(chain, first, from, next));
    if next < end {
      FixedRange(w, chain, first, from, next + 1, end);
    }
  }

  /** Indexing `first..end` of the chain into an empty store stores exactly that stretch. */
  lemma IndexingFromScratch(w: World, chain: seq<Block>, first: nat, end: nat)
    requires Canonical(w, chain) && first <= end < |chain| && StorableFrom(chain, first, end + 1)
    ensures Sequential.IndexRangeResult(FixedScript(chain), EMPTY, first, end)
         == (StoreOf(chain[first..end + 1]), Success(chain[first..end + 1]))
  {
    assert LoopAt(chain, first, first, first) == Sequential.Running(EMPTY, first, "", []);
    FixedRange(w, chain, first, first, first, end);
  }

  // ----- cycles -----

  /**
    With everything below `m` stored: where the head `latest` takes it, up to latest - confirmations
    and never down.
    */
  function Raised(m: nat, latest: nat, confirmations: nat): nat {
    if latest >= m + confirmations then latest - confirmations + 1 else m
  }

  /** A confirmed head at or below the checkpoint, or below the first block of an empty store, changes nothing. */
  lemma CycleStays(tick: Continuous.Tick, s: Tables, start: nat, confirmations: nat)
    requires tick.head.Ok? && !tick.script.loadFails
    requires
      if s.checkpoint.None? then tick.head.value < start + confirmations
      else start <= s.checkpoint.value.number + 1 && tick.head.value <= s.checkpoint.value.number + confirmations
    ensures Continuous.Cycle(tick, s, start, confirmations) == (s, Continuous.Indexed([]))
  {
  }

  lemma CycleMoves(script: Sequential.Script, latest: nat, s: Tables, start: nat, confirmations: nat, end: nat,
                   s': Tables, blocks: seq<Block>)
    requires start <= end && end + confirmations == latest
    requires Sequential.IndexRangeResult(script, s, start, end) == (s', Success(blocks))
    ensures Continuous.Cycle(Continuous.Tick(Ok(latest), script), s, start, confirmations)
         == (s', Continuous.Indexed(blocks))
  {
  }

  /** The loop resumes on a store that holds the chain below `m` where it would have continued. */
  lemma LoopAtCheckpoint(chain: seq<Block>, first: nat, m: nat, s: Tables)
    requires Linked(chain) && chain != [] && chain[0].number == 0 && first < m <= |chain|
    requires s == StoreOf(chain[first..m])
    ensures s.checkpoint == Some(Checkpoint(m - 1, chain[m - 1].hash))
    ensures Sequential.Running(s, m, chain[m - 1].hash, []) == LoopAt(chain, first, m, m)
  {
    LinkedNumbers(chain, m - 1);
  }

  lemma ResumesAfterCheckpoint(script: Sequential.Script, s: Tables, start: nat, next: nat, end: nat, hash: Hash,
                               r: (Tables, Outcome))
    requires s.checkpoint.Some? && s.checkpoint.value.number + 1 == next && s.checkpoint.value.hash == hash
    requires start <= next <= end && !script.loadFails
    requires r == Sequential.Finish(script, end, Sequential.Running(s, next, hash, []))
    ensures Sequential.IndexRangeResult(script, s, start, end) == r
  {
  }

  /** A range resumed on a store that holds the chain below `m`. */
  lemma RangeResumes(w: World, chain: seq<Block>, first: nat, m: nat, start: nat, end: nat, s: Tables)
    requires Canonical(w, chain) && first < m && start <= m <= end < |chain| && StorableFrom(chain, first, end + 1)
    requires s == StoreOf(chain[first..m])
    ensures Sequential.IndexRangeResult(FixedScript(chain), s, start, end)
         == (StoreOf(chain[first..end + 1]), Success(chain[m..end + 1]))
  {
    LoopAtCheckpoint(chain, first, m, s);
    FixedRange(w, chain, first, m, m, end);
    ResumesAfterCheckpoint(FixedScript(chain), s, start, m, end, chain[m - 1].hash,
                           (StoreOf(chain[first..end + 1]), Success(chain[m..end + 1])));
  }

  /** A range of the fixed chain, on a store that holds it below `m`, or on the empty store. */
  lemma RangeAdvances(w: World, chain: seq<Block>, first: nat, m: nat, start: nat, end: nat, s: Tables)
    requires Canonical(w, chain) && first <= start <= m <= end < |chain| && StorableFrom(chain, first, end + 1)
    requires s == StoreOf(chain[first..m])
    ensures Sequential.IndexRangeResult(FixedScript(chain), s, start, end)
         == (StoreOf(chain[first..end + 1]), Success(chain[m..end + 1]))
  {
    if first == m {
      assert chain[first..m] == [];
      IndexingFromScratch(w, chain, first, end);
    } else {
      RangeResumes(w, chain, first, m, start, end, s);
    }
  }

  function FixedTick(chain: seq<Block>, latest: nat): Continuous.Tick {
    Continuous.Tick(Ok(latest), FixedScript(chain))
  }

  /** The tables that hold the chain from `first` to below a given height. */
  function Grown(chain: seq<Block>, first: nat): nat -> Tables {
    (m: nat) => if first <= m <= |chain| then StoreOf(chain[first..m]) else EMPTY
  }

  lemma CycleIndexes(w: World, chain: seq<Block>, first: nat, m: nat, start: nat, confirmations: nat, latest: nat,
                     end: nat, s: Tables)
    requires Canonical(w, chain) && first <= start <= m <= end && end + confirmations == latest < |chain|
    requires StorableFrom(chain, first, |chain|) && s == StoreOf(chain[first..m])
    ensures Continuous.Cycle(FixedTick(chain, latest), s, start, confirmations)
         == (StoreOf(chain[first..end + 1]), Continuous.Indexed(chain[m..end + 1]))
  {
    RangeAdvances(w, chain, first, m, start, end, s);
    CycleMoves(FixedScript(chain), latest, s, start, confirmations, end,
               StoreOf(chain[first..end + 1]), chain[m..end + 1]);
  }

  lemma CycleAdvances(w: World, chain: seq<Block>, first: nat, m: nat, start: nat, confirmations: nat, latest: nat,
                      end: nat, s: Tables)
    requires Canonical(w, chain) && first <= start <= m <= end && end + confirmations == latest < |chain|
    requires StorableFrom(chain, first, |chain|) && s == Grown(chain, first)(m)
    ensures Continuous.Cycle(FixedTick(chain, latest), s, start, confirmations).0 == Grown(chain, first)(end + 1)
  {
    CycleIndexes(w, chain, first, m, start, confirmations, latest, end, s);
  }

  lemma CycleRests(chain: seq<Block>, first: nat, m: nat, start: nat, confirmations: nat, latest: nat, s: Tables)
    requires Linked(chain) && chain != [] && chain[0].number == 0 && first <= start <= m <= |chain|
    requires latest < m + confirmations && s == Grown(chain, first)(m)
    ensures Continuous.Cycle(FixedTick(chain, latest), s, start, confirmations).0 == Grown(chain, first)(m)
  {
    if first < m {
      LoopAtCheckpoint(chain, first, m, s);
    }
    CycleStays(FixedTick(chain, latest), s, start, confirmations);
  }

  /** One cycle on the fixed chain moves the checkpoint up to head - confirmations, or leaves everything. */
  lemma CycleFollowsChain(w: World, chain: seq<Block>, first: nat, m: nat, start: nat, confirmations: nat,
                          latest: nat, s: Tables, s': Tables)
    requires Canonical(w, chain) && first <= start <= m <= |chain| && latest < |chain|
    requires StorableFrom(chain, first, |chain|)
    requires s == Grown(chain, first)(m)
    requires s' == Continuous.Cycle(FixedTick(chain, latest), s, start, confirmations).0
    ensures s' == Grown(chain, first)(Raised(m, latest, confirmations))
  {
    if latest >= m + confirmations {
      var end := latest - confirmations;
      assert Raised(m, latest, confirmations) == end + 1;
      CycleAdvances(w, chain, first, m, start, confirmations, latest, end, s);
    } else {
      assert Raised(m, latest, confirmations) == m;
      CycleRests(chain, first, m, start, confirmations, latest, s);
    }
  }

  ghost predicate CycleAt(chain: seq<Block>, start: nat, confirmations: nat, heads: seq<nat>, stores: seq<Tables>,
                          i: nat)
    requires i < |heads| && |stores| == |heads| + 1
  {
    stores[i + 1] == Continuous.Cycle(FixedTick(chain, heads[i]), stores[i], start, confirmations).0
  }

  /** Index cycles on the fixed chain, one per observed head, and the tables before and after each. */
  ghost predicate CycleRun(chain: seq<Block>, start: nat, confirmations: nat, heads: seq<nat>, stores: seq<Tables>) {
    && |stores| == |heads| + 1
    && forall i :: 0 <= i < |heads| ==> CycleAt(chain, start, confirmations, heads, stores, i)
  }

  ghost predicate RaisesAt(at: nat -> Tables, start: nat, limit: nat, confirmations: nat, heads: seq<nat>,
                           stores: seq<Tables>, i: nat)
    requires i < |heads| && |stores| == |heads| + 1
  {
    forall m: nat :: start <= m <= limit && stores[i] == at(m) ==>
      stores[i + 1] == at(Raised(m, heads[i], confirmations))
  }

  /** If each cycle raises the checkpoint to its confirmed head or leaves it, all of them end at the highest. */
  lemma {:induction false} RaisesFollow(at: nat -> Tables, start: nat, limit: nat, confirmations: nat,
                                        heads: seq<nat>, stores: seq<Tables>, k: nat) returns (m: nat)
    requires k <= |heads| && |stores| == |heads| + 1 && start <= limit && stores[0] == at(start)
    requires forall i :: 0 <= i < |heads| ==> heads[i] < limit
    requires forall i :: 0 <= i < |heads| ==> RaisesAt(at, start, limit, confirmations, heads, stores, i)
    ensures start <= m <= limit && stores[k] == at(m)
    ensures forall i :: 0 <= i < k ==> heads[i] < m + confirmations
    ensures m == start || exists i :: 0 <= i < k && heads[i] + 1 == m + confirmations
  {
    if k == 0 {
      m := start;
    } else {
      var before := RaisesFollow(at, start, limit, confirmations, heads, stores, k - 1);
      assert RaisesAt(at, start, limit, confirmations, heads, stores, k - 1);
      m := Raised(before, heads[k - 1], confirmations);
    }
  }

  lemma {:induction false} CycleRaises(w: World, chain: seq<Block>, first: nat, start: nat, confirmations: nat,
                                       heads: seq<nat>, stores: seq<Tables>, i: nat)
    requires Canonical(w, chain) && first <= start <= |chain|
    requires StorableFrom(chain, first, |chain|)
    requires i < |heads| && |stores| == |heads| + 1 && heads[i] < |chain|
    requires CycleAt(chain, start, confirmations, heads, stores, i)
    ensures RaisesAt(Grown(chain, first), start, |chain|, confirmations, heads, stores, i)
  {
    var at := Grown(chain, first);
    forall m: nat | start <= m <= |chain| && stores[i] == at(m)
      ensures stores[i + 1] == at(Raised(m, heads[i], confirmations))
    {
      CycleFollowsChain(w, chain, first, m, start, confirmations, heads[i], stores[i], stores[i + 1]);
    }
  }

  lemma CyclesRaise(w: World, chain: seq<Block>, first: nat, start: nat, confirmations: nat,
                    heads: seq<nat>, stores: seq<Tables>)
    requires Canonical(w, chain) && first <= start <= |chain|
    requires StorableFrom(chain, first, |chain|)
    requires forall i :: 0 <= i < |heads| ==> heads[i] < |chain|
    requires CycleRun(chain, start, confirmations, heads, stores)
    ensures forall i :: 0 <= i < |heads| ==>
      RaisesAt(Grown(chain, first), start, |chain|, confirmations, heads, stores, i)
  {
    forall i | 0 <= i < |heads|
      ensures RaisesAt(Grown(chain, first), start, |chain|, confirmations, heads, stores, i)
    {
      assert CycleAt(chain, start, confirmations, heads, stores, i);
      CycleRaises(w, chain, first, start, confirmations, heads, stores, i);
    }
  }

  /**
    Any number of cycles, from the chain stored below `start` or from an empty store, ends with the
    chain stored up to the highest confirmed head seen, if that raises it.
    */
  lemma CyclesFollowChain(w: World, chain: seq<Block>, first: nat, start: nat, confirmations: nat,
                          heads: seq<nat>, stores: seq<Tables>) returns (m: nat)
    requires Canonical(w, chain) && first <= start <= |chain|
    requires StorableFrom(chain, first, |chain|)
    requires forall i :: 0 <= i < |heads| ==> heads[i] < |chain|
    requires CycleRun(chain, start, confirmations, heads, stores)
    requires stores[0] == StoreOf(chain[first..start])
    ensures start <= m <= |chain| && stores[|heads|] == StoreOf(chain[first..m])
    ensures forall i :: 0 <= i < |heads| ==> heads[i] < m + confirmations
    ensures m == start || exists i :: 0 <= i < |heads| && heads[i] + 1 == m + confirmations
  {
    CyclesRaise(w, chain, first, start, confirmations, heads, stores);
    m := RaisesFollow(Grown(chain, first), start, |chain|, confirmations, heads, stores, |heads|);
  }

  // ----- start-up -----

  /**
    Start-up on a fixed chain over recorded history succeeds exactly when the node knows the
    checkpoint's height and a recorded common ancestor lies within maxDepth; otherwise it changes nothing.
    */
  lemma RestartSucceedsIff(w: World, s: Tables, p: seq<Block>, chain: seq<Block>, cfg: Settings,
                           head: Result<nat, Cause>)
    requires WellFormed(w) && Tracks(w, s, p) && p != [] && Canonical(w, chain) && cfg.maxDepth > 0
    ensures var (s', started) := DetermineStartBlock(s, FixedProbe(chain), cfg.maxDepth, head, cfg.confirmations);
      var top := p[|p| - 1].number;
      && (started.Ok? <==> top < |chain| && AncestorWithin(p, chain, top, cfg.maxDepth))
      && (started.Err? ==> s' == s)
  {
    ReconcileFindsHighestAncestor(w, s, p, chain, cfg.maxDepth);
  }

  lemma StartIsAboveCheckpoint(s: Tables, probe: Probe, maxDepth: nat, head: Result<nat, Cause>, confirmations: nat,
                               s': Tables, start: nat) returns (r: ReorgResult)
    requires DetermineStartBlock(s, probe, maxDepth, head, confirmations) == (s', Ok(start)) && s.checkpoint.Some?
    ensures Reconciliation(s, probe, maxDepth) == (s', r) && (r.Steady? || r.RolledBack?)
    ensures start == r.checkpoint.number + 1
  {
    r := Reconciliation(s, probe, maxDepth).1;
  }

  lemma {:induction false} SettledIsChain(w: World, p: seq<Block>, chain: seq<Block>, s: Tables, a: Checkpoint)
    requires Settled(w, p, chain, s, a)
    ensures p != [] && p[0].number <= a.number < |chain| && HighestAgreement(p, chain, a.number)
    ensures s == StoreOf(chain[p[0].number..a.number + 1])
  {
  }

  lemma ReconciledIsChain(w: World, s: Tables, p: seq<Block>, chain: seq<Block>, maxDepth: nat,
                          s': Tables, r: ReorgResult)
    requires WellFormed(w) && Tracks(w, s, p) && p != [] && Canonical(w, chain) && maxDepth > 0
    requires Reconciliation(s, FixedProbe(chain), maxDepth) == (s', r) && (r.Steady? || r.RolledBack?)
    ensures p[0].number <= r.checkpoint.number < |chain| && HighestAgreement(p, chain, r.checkpoint.number)
    ensures s' == StoreOf(chain[p[0].number..r.checkpoint.number + 1])
  {
    ReconcileFindsHighestAncestor(w, s, p, chain, maxDepth);
    SettledIsChain(w, p, chain, s', r.checkpoint);
  }

  /** Then it continues right above the highest common ancestor, with the chain's blocks up to there stored. */
  lemma RestartSettles(w: World, s: Tables, p: seq<Block>, chain: seq<Block>, cfg: Settings, head: Result<nat, Cause>,
                       s': Tables, start: nat)
    requires WellFormed(w) && Tracks(w, s, p) && p != [] && Canonical(w, chain) && cfg.maxDepth > 0
    requires DetermineStartBlock(s, FixedProbe(chain), cfg.maxDepth, head, cfg.confirmations) == (s', Ok(start))
    ensures p[0].number < start && HighestAgreement(p, chain, start - 1)
    ensures start <= |chain| && s' == StoreOf(chain[p[0].number..start])
  {
    var r := StartIsAboveCheckpoint(s, FixedProbe(chain), cfg.maxDepth, head, cfg.confirmations, s', start);
    ReconciledIsChain(w, s, p, chain, cfg.maxDepth, s', r);
  }

  /** On a store without a checkpoint start-up succeeds once the head is known, and begins at the confirmed head. */
  lemma FreshStart(s: Tables, probe: Probe, maxDepth: nat, head: Result<nat, Cause>, confirmations: nat)
    requires s.checkpoint.None? && maxDepth > 0 && !probe.loadFails
    ensures DetermineStartBlock(s, probe, maxDepth, head, confirmations)
         == (s, match head
                case Err(e) => Err(NoHead(e))
                case Ok(latest) => Ok(if latest < confirmations then 0 else latest - confirmations))
  {
  }

  /** The first block of what the store will hold: the first recorded one, or the start block of an empty store. */
  function FirstOf(p: seq<Block>, start: nat): nat {
    if p == [] then start else p[0].number
  }

  lemma RestartHoldsChain(w: World, s: Tables, p: seq<Block>, chain: seq<Block>, cfg: Settings,
                          head: Result<nat, Cause>, s': Tables, start: nat)
    requires WellFormed(w) && Tracks(w, s, p) && Canonical(w, chain) && cfg.maxDepth > 0
    requires head.Ok? ==> head.value < |chain|
    requires DetermineStartBlock(s, FixedProbe(chain), cfg.maxDepth, head, cfg.confirmations) == (s', Ok(start))
    ensures FirstOf(p, start) <= start <= |chain| && s' == StoreOf(chain[FirstOf(p, start)..start])
  {
    if p == [] {
      FreshStart(s, FixedProbe(chain), cfg.maxDepth, head, cfg.confirmations);
      assert chain[start..start] == [];
    } else {
      RestartSettles(w, s, p, chain, cfg, head, s', start);
    }
  }

  lemma Converges(w: World, cfg: Settings, s: Tables, p: seq<Block>, chain: seq<Block>, head: Result<nat, Cause>,
                  start: nat, heads: seq<nat>, stores: seq<Tables>)
    returns (m: nat)
    requires WellFormed(w) && Tracks(w, s, p) && cfg.maxDepth > 0
    requires Canonical(w, chain) && forall j :: 0 <= j < |chain| ==> Storable(chain[j])
    requires (head.Ok? ==> head.value < |chain|) && forall j :: 0 <= j < |heads| ==> heads[j] < |chain|
    requires CycleRun(chain, start, cfg.confirmations, heads, stores)
    requires DetermineStartBlock(s, FixedProbe(chain), cfg.maxDepth, head, cfg.confirmations) == (stores[0], Ok(start))
    ensures FirstOf(p, start) <= start <= m <= |chain| && stores[|heads|] == StoreOf(chain[FirstOf(p, start)..m])
    ensures forall j :: 0 <= j < |heads| ==> heads[j] < m + cfg.confirmations
    ensures m == start || exists j :: 0 <= j < |heads| && heads[j] + 1 == m + cfg.confirmations
  {
    RestartHoldsChain(w, s, p, chain, cfg, head, stores[0], start);
    m := CyclesFollowChain(w, chain, FirstOf(p, start), start, cfg.confirmations, heads, stores);
  }

  /** What indexing the chain from `first` to below `m` into an empty store leaves. */
  function FromScratch(chain: seq<Block>, first: nat, m: nat): Tables {
    if first >= m then EMPTY else Sequential.IndexRangeResult(FixedScript(chain), EMPTY, first, m - 1).0
  }

  lemma ScratchHoldsChain(w: World, chain: seq<Block>, first: nat, m: nat)
    requires Canonical(w, chain) && first <= m <= |chain| && StorableFrom(chain, first, m)
    ensures FromScratch(chain, first, m) == StoreOf(chain[first..m])
  {
    if first < m {
      IndexingFromScratch(w, chain, first, m - 1);
    }
  }

  /**
    Recovery converges. Take the tables of any state of any run, with forks, stops and crashes
    behind it, or no block stored yet. If the chain now stays fixed and start-up succeeds, then after
    any further cycles checkpoint, history and transfers are those of indexing that chain into an
    empty store from the same first block up to the same checkpoint, and no confirmed head seen
    since is above it. An empty store starts at `start`, and stays empty only while no head
    confirms that block.
    */
  lemma RecoveryConverges(w: World, cfg: Settings, trace: seq<Process>, i: nat, chain: seq<Block>,
                          head: Result<nat, Cause>, start: nat, heads: seq<nat>, stores: seq<Tables>)
    returns (p: seq<Block>, m: nat)
    requires WellFormed(w) && cfg.workerCount > 0 && cfg.maxDepth > 0 && Execution(w, cfg, trace) && i < |trace|
    requires Canonical(w, chain) && forall j :: 0 <= j < |chain| ==> Storable(chain[j])
    requires (head.Ok? ==> head.value < |chain|) && forall j :: 0 <= j < |heads| ==> heads[j] < |chain|
    requires CycleRun(chain, start, cfg.confirmations, heads, stores)
    requires DetermineStartBlock(StoreNow(trace[i]), FixedProbe(chain), cfg.maxDepth, head, cfg.confirmations)
          == (stores[0], Ok(start))
    ensures Tracks(w, StoreNow(trace[i]), p) && FirstOf(p, start) <= start <= m <= |chain|
    ensures stores[|heads|] == FromScratch(chain, FirstOf(p, start), m)
    ensures forall j :: 0 <= j < |heads| ==> heads[j] < m + cfg.confirmations
    ensures m == start || exists j :: 0 <= j < |heads| && heads[j] + 1 == m + cfg.confirmations
  {
    p := StateTracks(w, cfg, trace, i);
    m := Converges(w, cfg, StoreNow(trace[i]), p, chain, head, start, heads, stores);
    ScratchHoldsChain(w, chain, FirstOf(p, start), m);
  }
}
