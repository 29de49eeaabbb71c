/**
  Recovery over whole runs of the process: once it has started on a chain that stays fixed, its
  stores only ever hold that chain, whatever the worker pool's schedule and however often a call
  fails, the database is lost, or the process crashes and starts again.
  */
module Rebuilding {
  import opened Chain
  import opened Store
  import opened Indexing
  import opened Reorg
  import opened Runs
  import opened Lifetimes
  import opened Recovery

  /** The world in which nothing but the chain exists. */
  ghost function ChainWorld(chain: seq<Block>): World {
    iset b | b in chain
  }

  lemma ChainWorldIsWellFormed(w: World, chain: seq<Block>)
    requires WellFormed(w) && Path(w, chain)
    ensures WellFormed(ChainWorld(chain)) && Path(ChainWorld(chain), chain)
  {
    forall p | Path(ChainWorld(chain), p) ensures DisjointTransactions(p) {
      assert Path(w, p);
    }
  }

  lemma BlockIsOnChain(chain: seq<Block>, p: seq<Block>, i: nat)
    requires Path(ChainWorld(chain), chain) && chain != [] && chain[0].number == 0
    requires Path(ChainWorld(chain), p) && i < |p|
    ensures p[0].number + i < |chain| && p[i] == chain[p[0].number + i]
  {
    LinkedNumbers(p, i);
    var k :| 0 <= k < |chain| && chain[k] == p[i];
    LinkedNumbers(chain, k);
  }

  /** A segment of that world is a stretch of the chain. */
  lemma SegmentIsStretch(chain: seq<Block>, p: seq<Block>)
    requires Path(ChainWorld(chain), chain) && chain != [] && chain[0].number == 0
    requires Path(ChainWorld(chain), p) && p != []
    ensures p[0].number + |p| <= |chain| && p == chain[p[0].number..p[0].number + |p|]
  {
    BlockIsOnChain(chain, p, |p| - 1);
    forall i | 0 <= i < |p| ensures p[i] == chain[p[0].number..p[0].number + |p|][i] {
      BlockIsOnChain(chain, p, i);
    }
  }

  // ----- start-up against a node that knows only the chain -----

  /** Lookups may fail, but what they find is the chain's. */
  ghost predicate ProbesChain(chain: seq<Block>, probe: Probe) {
    forall n: nat :: probe.canonical(n).Ok? ==> n < |chain| && probe.canonical(n).value == chain[n].Head()
  }

  ghost predicate BootsBy(chain: seq<Block>, cfg: Settings, y: Process, y': Process, probe: Probe,
                          head: Result<nat, Cause>)
  {
    ProbesChain(chain, probe) && (head.Ok? ==> head.value < |chain|) && BootsWith(cfg, y, y', probe, head)
  }

  ghost predicate BootsOn(chain: seq<Block>, cfg: Settings, y: Process, y': Process) {
    exists probe, head :: BootsBy(chain, cfg, y, y', probe, head)
  }

  lemma {:induction false} DescendIsCanonical(s: Tables, probe: Probe, height: nat, budget: nat)
    requires Descend(s, probe, height, budget).Found?
    ensures var d := Descend(s, probe, height, budget);
      probe.canonical(d.height).Ok? && probe.canonical(d.height).value.hash == d.hash
  {
    var h := height - 1;
    if probe.canonical(h).value.hash != LoadHash(s, h).value {
      DescendIsCanonical(s, probe, h, budget - 1);
    }
  }

  /** A checkpoint that Reconcile accepts is one that the node confirmed. */
  lemma AcceptedIsCanonical(s: Tables, probe: Probe, maxDepth: nat, r: ReorgResult)
    requires r == Reconciliation(s, probe, maxDepth).1 && (r.Steady? || r.RolledBack?)
    ensures probe.canonical(r.checkpoint.number).Ok?
    ensures probe.canonical(r.checkpoint.number).value.hash == r.checkpoint.hash
  {
    if r.RolledBack? {
      DescendIsCanonical(s, probe, s.checkpoint.value.number, maxDepth);
    }
  }

  lemma AcceptedIsStretch(w: World, s: Tables, p: seq<Block>, k: nat, chain: seq<Block>, probe: Probe, maxDepth: nat,
                          r: ReorgResult, start: nat)
    requires WellFormed(w) && Path(w, p) && Canonical(w, chain) && 0 < k <= |p| && ProbesChain(chain, probe)
    requires r == Reconciliation(s, probe, maxDepth).1 && (r.Steady? || r.RolledBack?)
    requires Some(r.checkpoint) == TopOf(p[..k]) && start == r.checkpoint.number + 1
    ensures p[0].number < start <= |chain| && p[..k] == chain[p[0].number..start]
  {
    AcceptedIsCanonical(s, probe, maxDepth, r);
    LinkedNumbers(p, k - 1);
    assert Agrees(p, chain, r.checkpoint.number);
    AgreementMeansPrefix(w, p, chain, r.checkpoint.number);
  }

  lemma HistoryHoldsChain(w: World, cfg: Settings, s: Tables, s': Tables, start: nat, p: seq<Block>, chain: seq<Block>,
                          probe: Probe, head: Result<nat, Cause>)
    requires WellFormed(w) && Canonical(w, chain) && Tracks(w, s, p) && p != [] && ProbesChain(chain, probe)
    requires DetermineStartBlock(s, probe, cfg.maxDepth, head, cfg.confirmations) == (s', Ok(start))
    ensures p[0].number < start <= |chain| && Tracks(w, s', chain[p[0].number..start])
  {
    var k := ReconcileTruncates(w, s, p, probe, cfg.maxDepth);
    var r := StartIsAboveCheckpoint(s, probe, cfg.maxDepth, head, cfg.confirmations, s', start);
    AcceptedIsStretch(w, s, p, k, chain, probe, cfg.maxDepth, r, start);
  }

  /** After a successful start-up the tables hold the chain from the first recorded block to the start block. */
  lemma BootHoldsChain(w: World, cfg: Settings, y: Process, y': Process, p: seq<Block>, chain: seq<Block>)
    requires WellFormed(w) && Canonical(w, chain) && y.Down? && Tracks(w, y.store, p)
    requires BootsOn(chain, cfg, y, y') && y'.Ready?
    ensures FirstOf(p, y'.start) <= y'.start <= |chain| && (p != [] ==> p[0].number < y'.start)
    ensures Tracks(w, y'.store, chain[FirstOf(p, y'.start)..y'.start])
  {
    var probe, head :| BootsBy(chain, cfg, y, y', probe, head);
    if p == [] {
      FreshStart(y.store, probe, cfg.maxDepth, head, cfg.confirmations);
      assert p == chain[y'.start..y'.start];
    } else {
      HistoryHoldsChain(w, cfg, y.store, y'.store, y'.start, p, chain, probe, head);
    }
  }

  /** Over tables that hold a stretch of the chain, start-up changes nothing. */
  lemma BootKeepsStretch(cfg: Settings, y: Process, y': Process, p: seq<Block>, chain: seq<Block>)
    requires Canonical(ChainWorld(chain), chain)
    requires y.Down? && Tracks(ChainWorld(chain), y.store, p) && BootsOn(chain, cfg, y, y')
    ensures StoreNow(y') == y.store
  {
    var probe, head :| BootsBy(chain, cfg, y, y', probe, head);
    if p != [] {
      var top := p[|p| - 1];
      var i :| 0 <= i < |chain| && chain[i] == top;
      LinkedNumbers(chain, i);
      EnsureKeeps(ChainWorld(chain), y.store, p);
      assert probe.canonical(top.number).Ok? ==> probe.canonical(top.number).value.hash == top.hash;
    }
  }

  // ----- runs -----

  /** A step of a process whose node answers from the chain only; any call may fail. */
  ghost predicate SeesOnly(chain: seq<Block>, cfg: Settings, y: Process, y': Process) {
    BootsOn(chain, cfg, y, y') || Proceeds(ChainWorld(chain), cfg, y, y')
  }

  ghost predicate SeesOnlyAt(chain: seq<Block>, cfg: Settings, trace: seq<Process>, t: nat)
    requires 0 < t < |trace|
  {
    SeesOnly(chain, cfg, trace[t - 1], trace[t])
  }

  /** The chain is a whole chain of the world in which nothing else exists. */
  ghost predicate OnlyChain(chain: seq<Block>) {
    WellFormed(ChainWorld(chain)) && Canonical(ChainWorld(chain), chain)
  }

  lemma StepRebuilds(chain: seq<Block>, cfg: Settings, y: Process, y': Process, p: seq<Block>) returns (q: seq<Block>)
    requires OnlyChain(chain) && cfg.workerCount > 0
    requires Sound(ChainWorld(chain), cfg, y) && Tracks(ChainWorld(chain), StoreNow(y), p)
    requires SeesOnly(chain, cfg, y, y')
    ensures Tracks(ChainWorld(chain), StoreNow(y'), p + q)
  {
    if BootsOn(chain, cfg, y, y') {
      BootKeepsStretch(cfg, y, y', p, chain);
      q := [];
      assert p + [] == p;
    } else {
      q := NextGrows(ChainWorld(chain), cfg, y, y', p);
    }
  }

  ghost predicate SeesOnlyFrom(chain: seq<Block>, cfg: Settings, trace: seq<Process>, i: nat, j: nat)
    requires i <= j < |trace|
  {
    forall t :: i < t <= j ==> SeesOnlyAt(chain, cfg, trace, t)
  }

  lemma {:induction false} RunStaysSound(chain: seq<Block>, cfg: Settings, trace: seq<Process>, i: nat, j: nat)
    requires OnlyChain(chain) && cfg.workerCount > 0 && i <= j < |trace|
    requires Sound(ChainWorld(chain), cfg, trace[i]) && SeesOnlyFrom(chain, cfg, trace, i, j)
    ensures Sound(ChainWorld(chain), cfg, trace[j])
    decreases j
  {
    if i < j {
      RunStaysSound(chain, cfg, trace, i, j - 1);
      assert SeesOnlyAt(chain, cfg, trace, j);
      NextIsSound(ChainWorld(chain), cfg, trace[j - 1], trace[j]);
    }
  }

  lemma StateRebuilds(chain: seq<Block>, cfg: Settings, trace: seq<Process>, i: nat, j: nat, start: nat,
                      held: seq<Block>, p: seq<Block>) returns (q: seq<Block>)
    requires OnlyChain(chain) && cfg.workerCount > 0 && i < j < |trace| && SeesOnlyFrom(chain, cfg, trace, i, j)
    requires trace[i].Ready? && trace[i].start == start && Grounded(ChainWorld(chain), cfg, trace[i], held)
    requires Tracks(ChainWorld(chain), StoreNow(trace[j - 1]), p)
    ensures Tracks(ChainWorld(chain), StoreNow(trace[j]), p + q)
  {
    RunStaysSound(chain, cfg, trace, i, j - 1);
    assert SeesOnlyAt(chain, cfg, trace, j);
    q := StepRebuilds(chain, cfg, trace[j - 1], trace[j], p);
  }

  /** On a fixed chain the stored segment only grows, crashes and start-ups included. */
  lemma {:induction false} RunRebuilds(chain: seq<Block>, cfg: Settings, trace: seq<Process>, i: nat, j: nat,
                                       start: nat, p: seq<Block>) returns (q: seq<Block>)
    requires OnlyChain(chain) && cfg.workerCount > 0 && i <= j < |trace| && SeesOnlyFrom(chain, cfg, trace, i, j)
    requires trace[i].Ready? && trace[i].start == start && Grounded(ChainWorld(chain), cfg, trace[i], p)
    ensures Tracks(ChainWorld(chain), StoreNow(trace[j]), p + q)
    decreases j
  {
    q := [];
    assert p + [] == p;
    if i < j {
      var before := RunRebuilds(chain, cfg, trace, i, j - 1, start, p);
      var more := StateRebuilds(chain, cfg, trace, i, j, start, p, p + before);
      q := before + more;
      assert p + before + more == p + q;
    }
  }

  /** A cycle that has succeeded has raised the checkpoint to the end of its range. */
  lemma SuccessReachesEnd(w: World, cfg: Settings, y: Process, p: seq<Block>)
    requires WellFormed(w) && Sound(w, cfg, y) && Succeeded(y) && Tracks(w, StoreNow(y), p)
    ensures p != [] && p[|p| - 1].number == y.end
  {
    var base :| Grounded(w, cfg, y, base);
    var q := RangeCommits(w, cfg, y, base);
    TopOfJoin(base, q);
    TracksUnique(w, StoreNow(y), p, base + q);
  }

  lemma InChainWorld(w: World, chain: seq<Block>, s: Tables, a: nat, b: nat)
    requires Path(w, chain) && a <= b <= |chain| && Tracks(w, s, chain[a..b])
    ensures Tracks(ChainWorld(chain), s, chain[a..b])
  {
  }

  lemma StretchFromScratch(chain: seq<Block>, s: Tables, p: seq<Block>) returns (first: nat, m: nat)
    requires OnlyChain(chain) && Tracks(ChainWorld(chain), s, p)
    ensures first <= m <= |chain| && s == FromScratch(chain, first, m) && m - first == |p|
    ensures p != [] ==> p[0].number == first && p[|p| - 1].number == m - 1
  {
    if p == [] {
      first, m := 0, 0;
    } else {
      SegmentIsStretch(chain, p);
      LinkedNumbers(p, |p| - 1);
      first, m := p[0].number, p[0].number + |p|;
      forall i | first <= i < m ensures Storable(chain[i]) {
        assert chain[i] == p[i - first];
      }
      ScratchHoldsChain(ChainWorld(chain), chain, first, m);
    }
  }

  lemma OnlyStartUpReadies(chain: seq<Block>, cfg: Settings, y: Process, y': Process)
    requires y.Down? && y'.Ready? && SeesOnly(chain, cfg, y, y')
    ensures BootsOn(chain, cfg, y, y')
  {
  }

  lemma StretchStartsWithin(chain: seq<Block>, a: nat, b: nat)
    requires Linked(chain) && chain != [] && chain[0].number == 0 && a <= b <= |chain|
    ensures StartsWithin(chain[a..b], b) && (a < b ==> chain[a..b][0].number == a)
  {
    if a < b {
      LinkedNumbers(chain, b - 1);
      LinkedNumbers(chain, a);
    }
  }

  lemma RestartGrounds(w: World, cfg: Settings, y: Process, y': Process, chain: seq<Block>, p: seq<Block>, a: nat)
    requires WellFormed(w) && Canonical(w, chain) && y.Down? && Tracks(w, y.store, p) && y'.Ready?
    requires BootsOn(chain, cfg, y, y') && a == FirstOf(p, y'.start)
    ensures a <= y'.start <= |chain| && (p != [] ==> a < y'.start)
    ensures Grounded(ChainWorld(chain), cfg, y', chain[a..y'.start])
  {
    BootHoldsChain(w, cfg, y, y', p, chain);
    InChainWorld(w, chain, y'.store, a, y'.start);
    StretchStartsWithin(chain, a, y'.start);
  }

  lemma RestartedRunHoldsStretch(cfg: Settings, trace: seq<Process>, i: nat, j: nat, chain: seq<Block>,
                                 held: seq<Block>) returns (q: seq<Block>)
    requires OnlyChain(chain) && cfg.workerCount > 0 && i <= j < |trace| && SeesOnlyFrom(chain, cfg, trace, i, j)
    requires trace[i].Ready? && Grounded(ChainWorld(chain), cfg, trace[i], held)
    ensures Sound(ChainWorld(chain), cfg, trace[j])
    ensures Tracks(ChainWorld(chain), StoreNow(trace[j]), held + q)
  {
    RunStaysSound(chain, cfg, trace, i, j);
    q := RunRebuilds(chain, cfg, trace, i, j, trace[i].start, held);
  }

  lemma RestartedRunRebuilds(cfg: Settings, trace: seq<Process>, i: nat, j: nat, chain: seq<Block>, held: seq<Block>)
    returns (first: nat, m: nat)
    requires OnlyChain(chain) && cfg.workerCount > 0 && i <= j < |trace| && SeesOnlyFrom(chain, cfg, trace, i, j)
    requires trace[i].Ready? && Grounded(ChainWorld(chain), cfg, trace[i], held)
    ensures first <= m <= |chain| && StoreNow(trace[j]) == FromScratch(chain, first, m)
    ensures held != [] ==> first == held[0].number && first + |held| <= m
    ensures Succeeded(trace[j]) ==> m == trace[j].end + 1
  {
    var q := RestartedRunHoldsStretch(cfg, trace, i, j, chain, held);
    first, m := StretchFromScratch(chain, StoreNow(trace[j]), held + q);
    if Succeeded(trace[j]) {
      SuccessReachesEnd(ChainWorld(chain), cfg, trace[j], held + q);
    }
  }

  lemma RestartAt(w: World, cfg: Settings, trace: seq<Process>, i: nat, j: nat, chain: seq<Block>, p: seq<Block>,
                  a: nat)
    requires WellFormed(w) && Canonical(w, chain) && i < j < |trace| && SeesOnlyFrom(chain, cfg, trace, i, j)
    requires trace[i].Down? && trace[i + 1].Ready? && Tracks(w, StoreNow(trace[i]), p)
    requires a == FirstOf(p, trace[i + 1].start)
    ensures OnlyChain(chain)
    ensures var start := trace[i + 1].start;
      && a <= start <= |chain| && (p != [] ==> a < start)
      && Grounded(ChainWorld(chain), cfg, trace[i + 1], chain[a..start])
      && (a < start ==> chain[a..start][0].number == a)
  {
    assert SeesOnlyAt(chain, cfg, trace, i + 1);
    OnlyStartUpReadies(chain, cfg, trace[i], trace[i + 1]);
    RestartGrounds(w, cfg, trace[i], trace[i + 1], chain, p, a);
    ChainWorldIsWellFormed(w, chain);
    StretchStartsWithin(chain, a, trace[i + 1].start);
  }

  lemma RestartRebuilds(w: World, cfg: Settings, trace: seq<Process>, i: nat, j: nat, chain: seq<Block>, p: seq<Block>)
    returns (first: nat, m: nat)
    requires WellFormed(w) && cfg.workerCount > 0 && Canonical(w, chain) && i < j < |trace|
    requires trace[i].Down? && trace[i + 1].Ready? && SeesOnlyFrom(chain, cfg, trace, i, j)
    requires Tracks(w, StoreNow(trace[i]), p)
    ensures first <= m <= |chain| && StoreNow(trace[j]) == FromScratch(chain, first, m)
    ensures p != [] ==> first == p[0].number < trace[i + 1].start <= m
    ensures Succeeded(trace[j]) ==> m == trace[j].end + 1
  {
    var a, start := FirstOf(p, trace[i + 1].start), trace[i + 1].start;
    RestartAt(w, cfg, trace, i, j, chain, p, a);
    first, m := RestartedRunRebuilds(cfg, trace, i + 1, j, chain, chain[a..start]);
  }

  /**
    Recovery over runs. Take any run, with forks and crashes behind it, in which the process starts
    up successfully at step i + 1 and from then on the node answers from one fixed chain. In every
    later state, under every schedule of the worker pool, and however often calls fail or the
    process crashes and starts again, the tables are exactly those of indexing that chain from
    scratch into an empty store: from the first block recorded before, at least up to the start
    block, and up to the end of the range whenever a cycle has succeeded.
    */
  lemma RunsRebuildTheChain(w: World, cfg: Settings, trace: seq<Process>, i: nat, j: nat, chain: seq<Block>)
    returns (p: seq<Block>, first: nat, m: nat)
    requires WellFormed(w) && cfg.workerCount > 0 && Execution(w, cfg, trace) && Canonical(w, chain)
    requires i < j < |trace| && trace[i].Down? && trace[i + 1].Ready? && SeesOnlyFrom(chain, cfg, trace, i, j)
    ensures Tracks(w, StoreNow(trace[i]), p)
    ensures first <= m <= |chain| && StoreNow(trace[j]) == FromScratch(chain, first, m)
    ensures p != [] ==> first == p[0].number < trace[i + 1].start <= m
    ensures Succeeded(trace[j]) ==> m == trace[j].end + 1
  {
    p := StateTracks(w, cfg, trace, i);
    first, m := RestartRebuilds(w, cfg, trace, i, j, chain, p);
  }
}
