/** ContinuousIndexer: the polling loop that indexes up to head - confirmationDepth and hands blocks to a handler. */
module ContinuousIndexer {
  import opened Chain
  import opened Store
  import opened Indexing
  import opened PostgresStore
  import opened SequentialIndexer

  datatype CycleResult = Indexed(blocks: seq<Block>) | HeadFailed(cause: Cause) | RangeFailed(error: IndexError)

  /** What one tick sees: the latest block number, and how the range's calls are answered. */
  datatype Tick = Tick(head: Result<nat, Cause>, script: Script)

  function Cycle(tick: Tick, s: Tables, start: nat, confirmations: nat): (Tables, CycleResult) {
    match tick.head
    case Err(c) => (s, HeadFailed(c))
    case Ok(latest) =>
      if latest < confirmations || start > latest - confirmations then (s, Indexed([]))
      else
        match IndexRangeResult(tick.script, s, start, latest - confirmations)
        case (s', Success(r)) => (s', Indexed(r))
        case (s', Failure(e)) => (s', RangeFailed(e))
  }

  /** The client reports the number it was asked for. */
  ghost predicate NumbersMatch(script: Script) {
    forall n: nat :: script.observe(n).Ok? ==> script.observe(n).value.number == n
  }

  /** The first block number a range would index: max(start, checkpoint + 1). */
  function FirstNew(c: Option<Checkpoint>, start: nat): nat {
    if c.Some? && c.value.number + 1 > start then c.value.number + 1 else start
  }

  ghost predicate Consecutive(blocks: seq<Block>, from: nat) {
    forall i :: 0 <= i < |blocks| ==> blocks[i].number == from + i
  }

  ghost predicate Confirmed(tick: Tick, b: Block, confirmations: nat) {
    tick.head.Ok? && b.number + confirmations <= tick.head.value
  }

  function TopAfter(c: Option<Checkpoint>, blocks: seq<Block>): Option<Checkpoint> {
    if blocks == [] then c else TopOf(blocks)
  }

  lemma {:induction false} FinishIsConsecutive(script: Script, end: nat, st: Loop, from: nat)
    requires NumbersMatch(script) && st.Running? && st.next <= end
    requires |st.results| == st.next - from && Consecutive(st.results, from)
    ensures var (s', out) := Finish(script, end, st);
      out.Success? ==>
        && |out.results| == end - from + 1 && Consecutive(out.results, from)
        && s'.checkpoint == TopOf(out.results)
    decreases end - st.next
  {
    var st' := Iterate(end, st, ProcessBlock(script, st.next), script.fault(st.next));
    if st'.Running? {
      FinishIsConsecutive(script, end, st', from);
    }
  }

  /** A range that succeeds on any store returns consecutive blocks from FirstNew, and its checkpoint is the last. */
  lemma SuccessIsConsecutive(script: Script, s: Tables, start: nat, end: nat)
    requires NumbersMatch(script)
    ensures var (s', out) := IndexRangeResult(script, s, start, end);
      out.Success? ==>
        && Consecutive(out.results, FirstNew(s.checkpoint, start))
        && s'.checkpoint == TopAfter(s.checkpoint, out.results)
        && (out.results == [] ==> s' == s)
        && (forall i :: 0 <= i < |out.results| ==> out.results[i].number <= end)
  {
    var e := Enter(s.checkpoint, script.loadFails, start, end);
    if e.Begin? {
      FinishIsConsecutive(script, end, Running(s, e.next, e.expected, []), e.next);
    }
  }

  /** The cycle with its subtraction and all sums taken in uint64. */
  function CycleWrapping(tick: Tick, s: Tables, start: nat, confirmations: nat): (Tables, CycleResult)
    requires start <= MAX_U64 && (s.checkpoint.Some? ==> s.checkpoint.value.number <= MAX_U64)
  {
    match tick.head
    case Err(c) => (s, HeadFailed(c))
    case Ok(latest) =>
      if latest < confirmations || start > Wrap(latest - confirmations) then (s, Indexed([]))
      else
        match IndexRangeWrapping(tick.script, s, start, Wrap(latest - confirmations))
        case (s', Success(r)) => (s', Indexed(r))
        case (s', Failure(e)) => (s', RangeFailed(e))
  }

  /** Whatever 64-bit head, start block and checkpoint a cycle meets, nothing in it wraps around. */
  lemma CycleNeverWraps(tick: Tick, s: Tables, start: nat, confirmations: nat)
    requires start <= MAX_U64 && (s.checkpoint.Some? ==> s.checkpoint.value.number <= MAX_U64)
    requires tick.head.Ok? ==> tick.head.value <= MAX_U64
    ensures CycleWrapping(tick, s, start, confirmations) == Cycle(tick, s, start, confirmations)
  {
    if tick.head.Ok? && tick.head.value >= confirmations {
      RangeNeverWraps(tick.script, s, start, tick.head.value - confirmations);
    }
  }

  /** Tick after tick until a cycle fails: the tables, the blocks handed over, and the failure if there is one. */
  function AfterTicks(ticks: seq<Tick>, s: Tables, start: nat, confirmations: nat)
    : (Tables, seq<Block>, Option<CycleResult>)
  {
    if ticks == [] then (s, [], None)
    else
      var (s', handled, failure) := AfterTicks(ticks[..|ticks| - 1], s, start, confirmations);
      if failure.Some? then (s', handled, failure)
      else
        match Cycle(ticks[|ticks| - 1], s', start, confirmations)
        case (s'', Indexed(blocks)) => (s'', handled + blocks, None)
        case (s'', failed) => (s'', handled, Some(failed))
  }

  lemma {:induction false} FailureIsFinal(ticks: seq<Tick>, s: Tables, start: nat, confirmations: nat, k: nat)
    requires k <= |ticks| && AfterTicks(ticks[..k], s, start, confirmations).2.Some?
    ensures AfterTicks(ticks, s, start, confirmations) == AfterTicks(ticks[..k], s, start, confirmations)
  {
    if k == |ticks| {
      assert ticks[..k] == ticks;
    } else {
      assert ticks[..|ticks| - 1][..k] == ticks[..k];
      FailureIsFinal(ticks[..|ticks| - 1], s, start, confirmations, k);
    }
  }

  /** A successful cycle returns consecutive new blocks, all confirmed at its head, and its checkpoint is the last. */
  lemma CycleIsConsecutive(tick: Tick, s: Tables, start: nat, confirmations: nat)
    requires NumbersMatch(tick.script)
    ensures var (s', r) := Cycle(tick, s, start, confirmations);
      r.Indexed? ==>
        && Consecutive(r.blocks, FirstNew(s.checkpoint, start))
        && s'.checkpoint == TopAfter(s.checkpoint, r.blocks)
        && forall i :: 0 <= i < |r.blocks| ==> Confirmed(tick, r.blocks[i], confirmations)
  {
    if tick.head.Ok? && tick.head.value >= confirmations {
      SuccessIsConsecutive(tick.script, s, start, tick.head.value - confirmations);
    }
  }

  lemma TopAdds(c: Option<Checkpoint>, start: nat, handled: seq<Block>, more: seq<Block>)
    requires Consecutive(handled, FirstNew(c, start)) && Consecutive(more, FirstNew(TopAfter(c, handled), start))
    ensures Consecutive(handled + more, FirstNew(c, start))
    ensures TopAfter(TopAfter(c, handled), more) == TopAfter(c, handled + more)
  {
    assert FirstNew(TopAfter(c, handled), start) == FirstNew(c, start) + |handled|;
  }

  ghost predicate ConfirmedBy(ticks: seq<Tick>, tickOf: seq<nat>, blocks: seq<Block>, confirmations: nat) {
    |tickOf| == |blocks| && forall i :: 0 <= i < |blocks| ==>
      tickOf[i] < |ticks| && Confirmed(ticks[tickOf[i]], blocks[i], confirmations)
  }

  /**
    Over any number of ticks, with heads moving up or down, the handler sees consecutive blocks
    from max(startBlock, checkpoint + 1) up to the final checkpoint, each exactly once, and none
    above the head less confirmationDepth of the tick it came in (`tickOf`).
    */
  lemma {:induction false} TicksAreConsecutive(ticks: seq<Tick>, s: Tables, start: nat, confirmations: nat)
    returns (tickOf: seq<nat>)
    requires forall t :: 0 <= t < |ticks| ==> NumbersMatch(ticks[t].script)
    ensures var (s', handled, failure) := AfterTicks(ticks, s, start, confirmations);
      && Consecutive(handled, FirstNew(s.checkpoint, start))
      && (failure.None? ==> s'.checkpoint == TopAfter(s.checkpoint, handled))
      && ConfirmedBy(ticks, tickOf, handled, confirmations)
  {
    tickOf := [];
    if ticks != [] {
      var last := |ticks| - 1;
      tickOf := TicksAreConsecutive(ticks[..last], s, start, confirmations);
      var (mid, handled, failure) := AfterTicks(ticks[..last], s, start, confirmations);
      var (_, r) := Cycle(ticks[last], mid, start, confirmations);
      if failure.None? && r.Indexed? {
        CycleIsConsecutive(ticks[last], mid, start, confirmations);
        TopAdds(s.checkpoint, start, handled, r.blocks);
        tickOf := tickOf + seq(|r.blocks|, i => last);
      }
    }
  }

  class ContinuousIndexer {
    const indexer: SequentialIndexer
    const startBlock: nat
    const confirmationDepth: nat

    constructor (indexer: SequentialIndexer, startBlock: nat, confirmationDepth: nat)
      ensures this.indexer == indexer && this.startBlock == startBlock && this.confirmationDepth == confirmationDepth
    {
      this.indexer, this.startBlock, this.confirmationDepth := indexer, startBlock, confirmationDepth;
    }

    /** No block above head - confirmationDepth is indexed, and the subtraction never wraps. */
    method RunCycle(tick: Tick) returns (r: CycleResult)
      modifies indexer.persistence
      ensures (indexer.persistence.Rows(), r)
           == Cycle(tick, old(indexer.persistence.Rows()), startBlock, confirmationDepth)
      ensures tick.head.Err? ==>
        r == HeadFailed(tick.head.error) && indexer.persistence.Rows() == old(indexer.persistence.Rows())
      ensures tick.head.Ok? && tick.head.value < startBlock + confirmationDepth ==>
        r == Indexed([]) && indexer.persistence.Rows() == old(indexer.persistence.Rows())
      ensures tick.head.Ok? && tick.head.value >= startBlock + confirmationDepth ==>
        var (s', out) := IndexRangeResult(tick.script, old(indexer.persistence.Rows()), startBlock,
                                          tick.head.value - confirmationDepth);
        && indexer.persistence.Rows() == s'
        && match out
           case Success(blocks) => r == Indexed(blocks)
           case Failure(e) => r == RangeFailed(e)
      ensures r.Indexed? && NumbersMatch(tick.script) ==>
        && Consecutive(r.blocks, FirstNew(old(indexer.persistence.Rows().checkpoint), startBlock))
        && indexer.persistence.Rows().checkpoint == TopAfter(old(indexer.persistence.Rows().checkpoint), r.blocks)
        && forall i :: 0 <= i < |r.blocks| ==> Confirmed(tick, r.blocks[i], confirmationDepth)
    {
      if NumbersMatch(tick.script) {
        CycleIsConsecutive(tick, indexer.persistence.Rows(), startBlock, confirmationDepth);
      }
      if tick.head.Err? {
        return HeadFailed(tick.head.error);
      }
      var latest := tick.head.value;
      if latest < confirmationDepth {
        return Indexed([]);
      }
      var indexThrough := latest - confirmationDepth;
      if startBlock > indexThrough {
        return Indexed([]);
      }
      var out := indexer.IndexRange(tick.script, startBlock, indexThrough);
      if out.Failure? {
        return RangeFailed(out.error);
      }
      return Indexed(out.results);
    }

    /**
      One cycle per tick until one fails, or until the context ends and no tick follows. `handled` is
      what the handler was given, in order. A failure that stems from a cancelled context, as
      `isCancel` tells, is reported as no error.
      */
    method Run(ticks: seq<Tick>, isCancel: CycleResult -> bool) returns (handled: seq<Block>, err: Option<CycleResult>)
      modifies indexer.persistence
      ensures var (s', blocks, failure) :=
        AfterTicks(ticks, old(indexer.persistence.Rows()), startBlock, confirmationDepth);
        && indexer.persistence.Rows() == s' && handled == blocks
        && err == if failure.Some? && isCancel(failure.value) then None else failure
    {
      handled, err := [], None;
      ghost var s0 := indexer.persistence.Rows();
      for t := 0 to |ticks|
        invariant AfterTicks(ticks[..t], s0, startBlock, confirmationDepth)
               == (indexer.persistence.Rows(), handled, None)
      {
        assert ticks[..t + 1][..t] == ticks[..t];
        var r := RunCycle(ticks[t]);
        if !r.Indexed? {
          FailureIsFinal(ticks, s0, startBlock, confirmationDepth, t + 1);
          return handled, if isCancel(r) then None else Some(r);
        }
        ghost var before := handled;
        for k := 0 to |r.blocks|
          invariant handled == before + r.blocks[..k]
        {
          handled := handled + [r.blocks[k]];
        }
        assert handled == before + r.blocks;
      }
      assert ticks[..|ticks|] == ticks;
      return handled, None;
    }
  }
}
