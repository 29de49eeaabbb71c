/**
  What happens to the stored segment along one run of the process: it only grows between start-ups,
  and the handler is given exactly what it grows by.
  */
module Lifetimes {
  import opened Chain
  import opened Store
  import opened Indexing
  import opened Reorg
  import opened Runs
  import Sequential = SequentialIndexer
  import Concurrent = ConcurrentIndexer
  import Continuous = ContinuousIndexer

  /** A step of the worker pool appends one block to what is stored, or none. */
  lemma IndexGrows(w: World, cfg: Settings, y: Process, y': Process, p: seq<Block>) returns (q: seq<Block>)
    requires WellFormed(w) && Sound(w, cfg, y) && Indexes(y, y') && Tracks(w, StoreNow(y), p)
    ensures Tracks(w, StoreNow(y'), p + q)
  {
    q := [];
    assert p + [] == p;
    var base :| Grounded(w, cfg, y, base);
    var next: nat :| RangeFrom(w, cfg, y, base, next);
    var act :| Concurrent.Enabled(y.env, y.range, act) && y'.range == Concurrent.Apply(y.env, y.end, y.range, act);
    Concurrent.StepRefines(y.env, y.end, y.range, act);
    var l, l' := Concurrent.Abstract(y.range), Concurrent.Abstract(y'.range);
    if l != l' {
      assert base + [] == base;
      var init := Sequential.Running(StoreOf(base), next, TopHash(base), []);
      Sequential.ReachesKeeps(w, y.env, base, next, y.end, init, l);
      q := Sequential.StepGrows(w, y.env, base, next, y.end, l, l');
      TracksUnique(w, StoreNow(y), p, base + l.results);
    }
  }

  /** Apart from start-up, a step only ever appends to the stored segment. */
  lemma NextGrows(w: World, cfg: Settings, y: Process, y': Process, p: seq<Block>) returns (q: seq<Block>)
    requires WellFormed(w) && Sound(w, cfg, y) && Tracks(w, StoreNow(y), p) && Proceeds(w, cfg, y, y')
    ensures Tracks(w, StoreNow(y'), p + q)
  {
    q := [];
    assert p + [] == p;
    if BeginsCycle(w, cfg, y, y') {
      var head: nat, loadFails: bool, env: Env :| Polls(w, cfg, y, y', head, loadFails, env);
    } else if Indexes(y, y') {
      q := IndexGrows(w, cfg, y, y', p);
    }
  }

  /** No start-up in the steps after state `i` up to state `j`. */
  ghost predicate NoBoots(cfg: Settings, trace: seq<Process>, i: nat, j: nat)
    requires i <= j < |trace|
  {
    forall t :: i < t <= j ==> !BootsAt(cfg, trace, t)
  }

  ghost predicate BootsAt(cfg: Settings, trace: seq<Process>, t: nat)
    requires 0 < t < |trace|
  {
    Boots(cfg, trace[t - 1], trace[t])
  }

  lemma StateGrows(w: World, cfg: Settings, trace: seq<Process>, j: nat, p: seq<Block>) returns (q: seq<Block>)
    requires WellFormed(w) && cfg.workerCount > 0 && Execution(w, cfg, trace) && 0 < j < |trace|
    requires Tracks(w, StoreNow(trace[j - 1]), p) && !BootsAt(cfg, trace, j)
    ensures Tracks(w, StoreNow(trace[j]), p + q)
  {
    assert NextAt(w, cfg, trace, j);
    ExecutionIsSound(w, cfg, trace, j - 1);
    q := NextGrows(w, cfg, trace[j - 1], trace[j], p);
  }

  /** Between two start-ups the stored segment only grows, whatever the chain does. */
  lemma {:induction false} SegmentsGrow(w: World, cfg: Settings, trace: seq<Process>, i: nat, j: nat, p: seq<Block>)
    returns (q: seq<Block>)
    requires WellFormed(w) && cfg.workerCount > 0 && Execution(w, cfg, trace) && i <= j < |trace|
    requires Tracks(w, StoreNow(trace[i]), p) && NoBoots(cfg, trace, i, j)
    ensures Tracks(w, StoreNow(trace[j]), p + q)
    decreases j
  {
    q := [];
    assert p + [] == p;
    if i < j {
      var before := SegmentsGrow(w, cfg, trace, i, j - 1, p);
      var more := StateGrows(w, cfg, trace, j, p + before);
      q := before + more;
      assert p + before + more == p + q;
    }
  }

  // ----- what the handler is given -----

  /** The blocks handed over by a step: those of a cycle that ends with a nil error. */
  ghost function HandedAt(y: Process, y': Process): seq<Block> {
    if Succeeded(y) && EndsCycle(y, y') then y.range.coordinator.outcome.results else []
  }

  ghost function Handed(trace: seq<Process>, i: nat, j: nat): seq<Block>
    requires i <= j < |trace|
  {
    if i == j then [] else Handed(trace, i, j - 1) + HandedAt(trace[j - 1], trace[j])
  }

  ghost predicate UpAt(trace: seq<Process>, t: nat)
    requires t < |trace|
  {
    !trace[t].Down?
  }

  /** What the process has handed over since it was ready on the segment `p`. */
  ghost predicate HandedFrom(w: World, cfg: Settings, start: nat, p: seq<Block>, h: seq<Block>, y: Process) {
    && Grounded(w, cfg, y, p + h) && !y.Down? && y.start == start
    && (p == [] && h != [] ==> h[0].number == start)
  }

  lemma StepHandsOver(w: World, cfg: Settings, start: nat, p: seq<Block>, h: seq<Block>, y: Process, y': Process)
    requires WellFormed(w) && cfg.workerCount > 0 && HandedFrom(w, cfg, start, p, h, y)
    requires Next(w, cfg, y, y') && !y'.Down?
    ensures HandedFrom(w, cfg, start, p, h + HandedAt(y, y'), y')
  {
    var more := HandedAt(y, y');
    if BeginsCycle(w, cfg, y, y') {
      assert more == [] && h + more == h;
      BeginKeeps(w, cfg, y, y', p + h);
    } else if Indexes(y, y') {
      assert more == [] && h + more == h;
      IndexKeeps(w, cfg, y, y', p + h);
    } else {
      var q := RangeCommits(w, cfg, y, p + h);
      assert p + h + q == p + (h + more);
    }
  }

  lemma UpToTheTop(p: seq<Block>, q: seq<Block>, k: nat)
    requires Linked(p + q) && k < |q|
    ensures q[k].number <= q[|q| - 1].number
  {
    var all := p + q;
    LinkedNumbers(all, |p| + k);
    LinkedNumbers(all, |all| - 1);
    assert q[k] == all[|p| + k] && q[|q| - 1] == all[|all| - 1];
  }

  /** No block is handed over above the end of its own range, the head less confirmationDepth. */
  lemma HandedIsConfirmed(w: World, cfg: Settings, y: Process, y': Process)
    requires WellFormed(w) && Sound(w, cfg, y)
    ensures forall b :: b in HandedAt(y, y') ==> b.number <= y.end
  {
    if HandedAt(y, y') != [] {
      var p :| Grounded(w, cfg, y, p);
      var q := RangeCommits(w, cfg, y, p);
      forall k | 0 <= k < |q| ensures q[k].number <= y.end {
        UpToTheTop(p, q, k);
      }
    }
  }

  lemma {:induction false} LifetimeHandsOver(w: World, cfg: Settings, trace: seq<Process>, i: nat, j: nat,
                                             p: seq<Block>)
    requires WellFormed(w) && cfg.workerCount > 0 && Execution(w, cfg, trace) && i <= j < |trace|
    requires trace[i].Ready? && Grounded(w, cfg, trace[i], p) && forall t :: i <= t <= j ==> UpAt(trace, t)
    ensures HandedFrom(w, cfg, trace[i].start, p, Handed(trace, i, j), trace[j])
    decreases j
  {
    assert UpAt(trace, j);
    if i == j {
      assert p + [] == p;
    } else {
      LifetimeHandsOver(w, cfg, trace, i, j - 1, p);
      assert NextAt(w, cfg, trace, j);
      StepHandsOver(w, cfg, trace[i].start, p, Handed(trace, i, j - 1), trace[j - 1], trace[j]);
    }
  }

  lemma JoinedIsConsecutive(p: seq<Block>, h: seq<Block>, start: nat)
    requires Linked(p + h) && StartsWithin(p, start) && (p == [] && h != [] ==> h[0].number == start)
    ensures Continuous.Consecutive(h, Continuous.FirstNew(TopOf(p), start))
  {
    var all := p + h;
    forall k | 0 <= k < |h| ensures h[k].number == Continuous.FirstNew(TopOf(p), start) + k {
      LinkedNumbers(all, |p| + k);
      if p != [] {
        LinkedNumbers(all, |p| - 1);
        assert all[|p| - 1] == p[|p| - 1];
      }
      assert all[|p| + k] == h[k];
    }
  }

  /**
    Within one lifetime of the process, over the worker pool and in any environment: at every point
    between two cycles the handler has been given exactly the blocks committed since the process
    was ready, in order, each once, consecutive from max(start, checkpoint + 1).
    */
  lemma HandlerSeesEveryBlock(w: World, cfg: Settings, trace: seq<Process>, i: nat, j: nat) returns (p: seq<Block>)
    requires WellFormed(w) && cfg.workerCount > 0 && Execution(w, cfg, trace) && i <= j < |trace|
    requires trace[i].Ready? && trace[j].Ready? && forall t :: i <= t <= j ==> UpAt(trace, t)
    ensures Tracks(w, StoreNow(trace[i]), p) && Tracks(w, StoreNow(trace[j]), p + Handed(trace, i, j))
    ensures Continuous.Consecutive(Handed(trace, i, j),
                                   Continuous.FirstNew(StoreNow(trace[i]).checkpoint, trace[i].start))
  {
    ExecutionIsSound(w, cfg, trace, i);
    p :| Grounded(w, cfg, trace[i], p);
    LifetimeHandsOver(w, cfg, trace, i, j, p);
    JoinedIsConsecutive(p, Handed(trace, i, j), trace[i].start);
  }
}
