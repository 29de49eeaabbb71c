/** ReorgManager.Reconcile: verify the checkpoint against the canonical chain, or roll back to a common ancestor. */
module Reorg {
  import opened Chain
  import opened Store
  import opened PostgresStore

  datatype ReorgError =
    | InvalidDepth
    | LoadFailed
    | FetchFailed(height: nat, cause: Cause)
    | RecordFailed(db: DbError)
    | ReadFailed(height: nat)
    | HistoryUnavailable(height: nat)
    | RollbackFailed(db: DbError)
    | TooDeep

  datatype ReorgResult =
    | NoCheckpoint
    | Steady(checkpoint: Checkpoint)
    | RolledBack(checkpoint: Checkpoint, previous: Checkpoint)
    | Refused(error: ReorgError)

  /**
    What the calls of one Reconcile see. Each height is asked for once, so a function of the
    height covers a node that changes its chain between calls.
    */
  datatype Probe = Probe(loadFails: bool,
                         canonical: nat -> Result<Header, Cause>,
                         readFails: nat -> bool,
                         fault: Fault)

  datatype Search =
    | Found(height: nat, hash: Hash)
    | Missing(height: nat)
    | Unreadable(height: nat)
    | Unfetched(height: nat, cause: Cause)
    | Exhausted

  /** The bounded descent below `height`. */
  function Descend(s: Tables, probe: Probe, height: nat, budget: nat): Search {
    if budget == 0 || height == 0 then Exhausted
    else
      var h := height - 1;
      if probe.readFails(h) then Unreadable(h)
      else
        var stored := LoadHash(s, h);
        if stored.None? then Missing(h)
        else
          match probe.canonical(h)
          case Err(c) => Unfetched(h, c)
          case Ok(b) => if b.hash == stored.value then Found(h, b.hash) else Descend(s, probe, h, budget - 1)
  }

  function Reconciliation(s: Tables, probe: Probe, maxDepth: nat): (Tables, ReorgResult) {
    if maxDepth == 0 then (s, Refused(InvalidDepth))
    else if probe.loadFails then (s, Refused(LoadFailed))
    else if s.checkpoint.None? then (s, NoCheckpoint)
    else
      var c := s.checkpoint.value;
      match probe.canonical(c.number)
      case Err(e) => (s, Refused(FetchFailed(c.number, e)))
      case Ok(b) =>
        if b.hash == c.hash then
          var (s', e) := Attempt(s, Ensure(s, c), probe.fault);
          (s', if e.Some? then Refused(RecordFailed(e.value)) else Steady(c))
        else
          match Descend(s, probe, c.number, maxDepth)
          case Found(h, hash) =>
            var ancestor := Checkpoint(h, hash);
            var (s', e) := Attempt(s, Rollback(s, ancestor), probe.fault);
            (s', if e.Some? then Refused(RollbackFailed(e.value)) else RolledBack(ancestor, c))
          case Missing(h) => (s, Refused(HistoryUnavailable(h)))
          case Unreadable(h) => (s, Refused(ReadFailed(h)))
          case Unfetched(h, cause) => (s, Refused(FetchFailed(h, cause)))
          case Exhausted => (s, Refused(TooDeep))
  }

  class ReorgManager {
    const store: PostgresBlockPersistence
    const maxDepth: nat

    constructor (store: PostgresBlockPersistence, maxDepth: nat)
      ensures this.store == store && this.maxDepth == maxDepth
    {
      this.store, this.maxDepth := store, maxDepth;
    }

    method Reconcile(probe: Probe) returns (r: ReorgResult, fetches: nat)
      modifies store
      ensures (store.Rows(), r) == Reconciliation(old(store.Rows()), probe, maxDepth)
      ensures var c := old(store.Rows().checkpoint);
        fetches <= if c.None? then 0 else 1 + if maxDepth < c.value.number then maxDepth else c.value.number
    {
      fetches := 0;
      if maxDepth == 0 {
        return Refused(InvalidDepth), fetches;
      }
      var loaded := store.Load(probe.loadFails);
      if loaded.Err? {
        return Refused(LoadFailed), fetches;
      }
      if loaded.value.None? {
        return NoCheckpoint, fetches;
      }
      var checkpoint := loaded.value.value;
      fetches := fetches + 1;
      var canonical := probe.canonical(checkpoint.number);
      if canonical.Err? {
        return Refused(FetchFailed(checkpoint.number, canonical.error)), fetches;
      }
      if canonical.value.hash == checkpoint.hash {
        var e := store.EnsureIndexedBlock(checkpoint, probe.fault);
        if e.Some? {
          return Refused(RecordFailed(e.value)), fetches;
        }
        return Steady(checkpoint), fetches;
      }
      var height: nat := checkpoint.number;
      var depth: nat := 1;
      while depth <= maxDepth && height > 0
        invariant 1 <= depth <= maxDepth + 1 && height + (depth - 1) == checkpoint.number && fetches == depth
        invariant store.Rows() == old(store.Rows())
        invariant Descend(store.Rows(), probe, checkpoint.number, maxDepth)
               == Descend(store.Rows(), probe, height, maxDepth + 1 - depth)
      {
        height := height - 1;
        var read := store.LoadIndexedBlockHash(height, probe.readFails(height));
        if read.Err? {
          return Refused(ReadFailed(height)), fetches;
        }
        var storedHash := read.value;
        if storedHash.None? {
          return Refused(HistoryUnavailable(height)), fetches;
        }
        fetches := fetches + 1;
        var candidate := probe.canonical(height);
        if candidate.Err? {
          return Refused(FetchFailed(height, candidate.error)), fetches;
        }
        if candidate.value.hash == storedHash.value {
          var ancestor := Checkpoint(height, storedHash.value);
          var e := store.RollbackTo(ancestor, probe.fault);
          if e.Some? {
            return Refused(RollbackFailed(e.value)), fetches;
          }
          return RolledBack(ancestor, checkpoint), fetches;
        }
        depth := depth + 1;
      }
      return Refused(TooDeep), fetches;
    }
  }

  // ----- what each result means, for any answers and faults -----

  /** Height `n` could be read and looked up, and the two hashes differ. */
  ghost predicate ForkedAt(s: Tables, probe: Probe, n: nat) {
    && !probe.readFails(n) && n in s.history
    && probe.canonical(n).Ok? && probe.canonical(n).value.hash != s.history[n].hash
  }

  /** The checkpoint was loaded and looked up, and the node has another block at its height. */
  ghost predicate TopForked(s: Tables, probe: Probe, maxDepth: nat) {
    && maxDepth > 0 && !probe.loadFails && s.checkpoint.Some?
    && var c := s.checkpoint.value;
       probe.canonical(c.number).Ok? && probe.canonical(c.number).value.hash != c.hash
  }

  /** The search may look at `h`: within the depth, the checkpoint and all heights above `h` being forked. */
  ghost predicate SearchedAt(s: Tables, probe: Probe, maxDepth: nat, h: nat) {
    && TopForked(s, probe, maxDepth)
    && h < s.checkpoint.value.number <= h + maxDepth
    && forall n :: h < n < s.checkpoint.value.number ==> ForkedAt(s, probe, n)
  }

  /** The node still has the checkpoint's block. */
  ghost predicate TopConfirmed(s: Tables, probe: Probe, maxDepth: nat) {
    && maxDepth > 0 && !probe.loadFails && s.checkpoint.Some?
    && var c := s.checkpoint.value;
       probe.canonical(c.number).Ok? && probe.canonical(c.number).value.hash == c.hash
  }

  lemma {:induction false} DescendExplained(s: Tables, probe: Probe, height: nat, budget: nat)
    ensures
      match Descend(s, probe, height, budget)
      case Found(h, hash) =>
        && h < height <= h + budget && (forall n :: h < n < height ==> ForkedAt(s, probe, n))
        && !probe.readFails(h) && h in s.history && s.history[h].hash == hash
        && probe.canonical(h).Ok? && probe.canonical(h).value.hash == hash
      case Missing(h) =>
        && h < height <= h + budget && (forall n :: h < n < height ==> ForkedAt(s, probe, n))
        && !probe.readFails(h) && h !in s.history
      case Unreadable(h) =>
        && h < height <= h + budget && (forall n :: h < n < height ==> ForkedAt(s, probe, n))
        && probe.readFails(h)
      case Unfetched(h, cause) =>
        && h < height <= h + budget && (forall n :: h < n < height ==> ForkedAt(s, probe, n))
        && !probe.readFails(h) && h in s.history && probe.canonical(h) == Err(cause)
      case Exhausted =>
        forall n: nat :: n < height <= n + budget ==> ForkedAt(s, probe, n)
  {
    if budget > 0 && height > 0 && ForkedAt(s, probe, height - 1) {
      DescendExplained(s, probe, height - 1, budget - 1);
    }
  }

  /** Forked heights are passed over, and only those. */
  lemma {:induction false} DescendPasses(s: Tables, probe: Probe, height: nat, budget: nat, h: nat)
    requires h < height <= h + budget && forall n :: h < n < height ==> ForkedAt(s, probe, n)
    ensures Descend(s, probe, height, budget) == Descend(s, probe, h + 1, budget - (height - h - 1))
    decreases height
  {
    if h + 1 < height {
      assert ForkedAt(s, probe, height - 1);
      DescendPasses(s, probe, height - 1, budget - 1, h);
    }
  }

  /** Height `h` is read, found in the history, and looked up with this answer. */
  ghost predicate Compared(s: Tables, probe: Probe, h: nat, answer: Result<Header, Cause>) {
    !probe.readFails(h) && h in s.history && probe.canonical(h) == answer
  }

  /** Re-recording adds a row that was missing, and changes none that was there. */
  lemma EnsureRecords(s: Tables, c: Checkpoint)
    requires Ensure(s, c).Ok?
    ensures c.number !in s.history ==> Ensure(s, c).value == s.(history := s.history[c.number := BlockRow(c.hash, "")])
    ensures c.number in s.history ==> s.history[c.number].hash == c.hash && Ensure(s, c) == Ok(s)
  {
    if c.number in s.history && s.history[c.number].parent == "" {
      assert s.history[c.number := BlockRow(c.hash, "")] == s.history;
    }
  }

  /** What Reconcile reports, and what the node and the history must have said for it. */
  lemma ReconcileExplained(s: Tables, probe: Probe, maxDepth: nat)
    ensures var (s', r) := Reconciliation(s, probe, maxDepth);
      match r
      case NoCheckpoint => s' == s && s.checkpoint.None? && maxDepth > 0 && !probe.loadFails
      case Steady(c) =>
        && TopConfirmed(s, probe, maxDepth) && s.checkpoint == Some(c)
        && s'.checkpoint == s.checkpoint && s'.transfers == s.transfers
        && c.number in s'.history && s'.history[c.number].hash == c.hash
        && (c.number !in s.history ==> s'.history == s.history[c.number := BlockRow(c.hash, "")])
        && (c.number in s.history ==> s'.history == s.history)
      case RolledBack(a, c) =>
        && s.checkpoint == Some(c) && SearchedAt(s, probe, maxDepth, a.number)
        && Compared(s, probe, a.number, probe.canonical(a.number)) && s.history[a.number].hash == a.hash
        && probe.canonical(a.number).Ok? && probe.canonical(a.number).value.hash == a.hash
        && s'.checkpoint == Some(a)
        && (forall n :: n in s'.history <==> n in s.history && n <= a.number)
        && (forall n :: n in s'.history ==> s'.history[n] == s.history[n])
        && (forall k :: k in s'.transfers ==> s'.transfers[k] == s.transfers[k])
        && (forall k :: k in s'.transfers <==> k in s.transfers && s.transfers[k].blockNumber <= a.number)
      case Refused(InvalidDepth) => s' == s && maxDepth == 0
      case Refused(LoadFailed) => s' == s && probe.loadFails && maxDepth > 0
      case Refused(FetchFailed(h, cause)) =>
        && s' == s && maxDepth > 0 && !probe.loadFails && s.checkpoint.Some? && probe.canonical(h) == Err(cause)
        && (h == s.checkpoint.value.number || (SearchedAt(s, probe, maxDepth, h) && Compared(s, probe, h, Err(cause))))
      case Refused(ReadFailed(h)) => s' == s && SearchedAt(s, probe, maxDepth, h) && probe.readFails(h)
      case Refused(HistoryUnavailable(h)) =>
        s' == s && SearchedAt(s, probe, maxDepth, h) && !probe.readFails(h) && h !in s.history
      case Refused(TooDeep) =>
        && s' == s && TopForked(s, probe, maxDepth)
        && forall n: nat :: n < s.checkpoint.value.number <= n + maxDepth ==> ForkedAt(s, probe, n)
      case Refused(RecordFailed(e)) =>
        && TopConfirmed(s, probe, maxDepth) && (probe.fault != LostAfterCommit ==> s' == s)
        && var c := s.checkpoint.value;
           if probe.fault == NoFault || e != Unavailable
           then c.number > MAX_BIGINT || (c.number in s.history && s.history[c.number].hash != c.hash)
           else true
      case Refused(RollbackFailed(e)) =>
        && (probe.fault != LostAfterCommit ==> s' == s)
        && (probe.fault == NoFault || e != Unavailable ==> s.checkpoint.value.number > MAX_BIGINT)
        && exists h :: SearchedAt(s, probe, maxDepth, h) && Compared(s, probe, h, probe.canonical(h))
                       && probe.canonical(h).Ok? && probe.canonical(h).value.hash == s.history[h].hash
  {
    if s.checkpoint.Some? {
      if Ensure(s, s.checkpoint.value).Ok? {
        EnsureRecords(s, s.checkpoint.value);
      }
      DescendExplained(s, probe, s.checkpoint.value.number, maxDepth);
    }
  }

  /**
    The first height below the checkpoint that is not forked decides: it cannot be read, or is not
    recorded, or cannot be looked up, and the error names it and nothing changes; or it is the
    ancestor, and Reconcile rolls back to it.
    */
  lemma FirstUnforkedDecides(s: Tables, probe: Probe, maxDepth: nat, h: nat)
    requires SearchedAt(s, probe, maxDepth, h)
    ensures probe.readFails(h) ==> Reconciliation(s, probe, maxDepth) == (s, Refused(ReadFailed(h)))
    ensures !probe.readFails(h) && h !in s.history ==>
      Reconciliation(s, probe, maxDepth) == (s, Refused(HistoryUnavailable(h)))
    ensures !probe.readFails(h) && h in s.history && probe.canonical(h).Err? ==>
      Reconciliation(s, probe, maxDepth) == (s, Refused(FetchFailed(h, probe.canonical(h).error)))
    ensures !probe.readFails(h) && h in s.history && probe.canonical(h).Ok? && !ForkedAt(s, probe, h) ==>
      probe.fault == NoFault && h <= MAX_BIGINT ==>
      Reconciliation(s, probe, maxDepth).1 == RolledBack(Checkpoint(h, s.history[h].hash), s.checkpoint.value)
  {
    DescendPasses(s, probe, s.checkpoint.value.number, maxDepth, h);
  }

  // ----- any answers at all: the store stays one linked segment -----

  lemma {:induction false} DescendFindsRecorded(s: Tables, probe: Probe, height: nat, budget: nat)
    requires Descend(s, probe, height, budget).Found?
    ensures var d := Descend(s, probe, height, budget);
      d.height < height && height - d.height <= budget && LoadHash(s, d.height) == Some(d.hash)
  {
    var h := height - 1;
    if probe.canonical(h).Ok? && probe.canonical(h).value.hash != LoadHash(s, h).value {
      DescendFindsRecorded(s, probe, h, budget - 1);
    }
  }

  lemma FoundIsOnSegment(w: World, s: Tables, p: seq<Block>, probe: Probe, budget: nat) returns (k: nat)
    requires Tracks(w, s, p) && p != [] && Descend(s, probe, p[|p| - 1].number, budget).Found?
    ensures var d := Descend(s, probe, p[|p| - 1].number, budget);
      0 < k <= |p| && Checkpoint(d.height, d.hash) == Checkpoint(p[k - 1].number, p[k - 1].hash)
  {
    var d := Descend(s, probe, p[|p| - 1].number, budget);
    DescendFindsRecorded(s, probe, p[|p| - 1].number, budget);
    HistoryAt(p, d.height);
    k := d.height - p[0].number + 1;
  }

  /**
    Whatever the node and the database do, Reconcile only ever truncates the stored segment: it
    keeps the first block, and an accepted checkpoint is the top of what is kept.
    */
  lemma ReconcileTruncates(w: World, s: Tables, p: seq<Block>, probe: Probe, maxDepth: nat) returns (k: nat)
    requires Tracks(w, s, p)
    ensures var (s', r) := Reconciliation(s, probe, maxDepth);
      && k <= |p| && (p != [] ==> k > 0) && Tracks(w, s', p[..k])
      && (r.NoCheckpoint? ==> p == [])
      && (r.Steady? || r.RolledBack? ==> p != [] && Some(r.checkpoint) == TopOf(p[..k]))
  {
    k := |p|;
    assert p[..|p|] == p;
    if p != [] {
      EnsureKeeps(w, s, p);
      var (s', r) := Reconciliation(s, probe, maxDepth);
      if r.RolledBack? || s' != s {
        k := FoundIsOnSegment(w, s, p, probe, maxDepth);
        RollbackTruncates(w, s, p, k);
        if s' == s {
          k := |p|;
        }
      }
    }
  }

  // ----- a fixed canonical chain -----

  /** A node that keeps answering from one chain, and a database that works. */
  function FixedProbe(chain: seq<Block>): Probe {
    Probe(false, (n: nat) => if n < |chain| then Ok(chain[n].Head()) else Err("not found"), (n: nat) => false, NoFault)
  }

  /** Stored segment and chain hold the same block at height `n`. */
  ghost predicate Agrees(p: seq<Block>, chain: seq<Block>, n: nat) {
    p != [] && p[0].number <= n < p[0].number + |p| && n < |chain| && p[n - p[0].number].hash == chain[n].hash
  }

  ghost predicate HighestAgreement(p: seq<Block>, chain: seq<Block>, a: nat) {
    Agrees(p, chain, a) && forall n: nat :: Agrees(p, chain, n) ==> n <= a
  }

  /** Agreement at one height means the whole stored segment up to it is the chain's. */
  lemma AgreementMeansPrefix(w: World, p: seq<Block>, chain: seq<Block>, a: nat)
    requires WellFormed(w) && Path(w, p) && Canonical(w, chain) && Agrees(p, chain, a)
    ensures p[..a - p[0].number + 1] == chain[p[0].number..a + 1]
    ensures forall n :: p[0].number <= n <= a ==> Agrees(p, chain, n)
  {
    var first := p[0].number;
    forall n | first <= n <= a ensures p[n - first] == chain[n] {
      AgreementIsDownwardClosed(w, p, a - first, chain, a, a - n);
    }
    assert p[..a - first + 1] == chain[first..a + 1];
  }

  /** The descent stops at the highest agreement below `height`, at the edge of history, or at its budget. */
  lemma {:induction false} DescendOnFixedChain(s: Tables, p: seq<Block>, chain: seq<Block>, height: nat, budget: nat)
    requires Linked(p) && p != [] && s.history == HistoryOf(p)
    requires p[0].number <= height < p[0].number + |p| && height <= |chain|
    ensures
      match Descend(s, FixedProbe(chain), height, budget)
      case Found(h, hash) =>
        h < height && height - h <= budget && Agrees(p, chain, h) && hash == chain[h].hash
        && forall n: nat :: h < n < height ==> !Agrees(p, chain, n)
      case Missing(h) =>
        h + 1 == p[0].number && height - h <= budget && forall n: nat :: n < height ==> !Agrees(p, chain, n)
      case Exhausted =>
        (p[0].number == 0 || height - p[0].number >= budget)
        && forall n: nat :: n < height && height - n <= budget ==> !Agrees(p, chain, n)
      case _ => false
    decreases budget
  {
    if budget > 0 && height > 0 {
      var h := height - 1;
      HistoryAt(p, h);
      if h >= p[0].number && chain[h].hash != p[h - p[0].number].hash {
        DescendOnFixedChain(s, p, chain, h, budget - 1);
      }
    }
  }

  ghost predicate AncestorWithin(p: seq<Block>, chain: seq<Block>, top: nat, maxDepth: nat) {
    exists n: nat :: Agrees(p, chain, n) && top - n <= maxDepth
  }

  /** The tables hold the chain from the segment's first block up to the accepted checkpoint, the highest agreement. */
  ghost predicate Settled(w: World, p: seq<Block>, chain: seq<Block>, s: Tables, c: Checkpoint) {
    && HighestAgreement(p, chain, c.number) && c.hash == chain[c.number].hash
    && Tracks(w, s, chain[p[0].number..c.number + 1])
  }

  lemma SteadySettles(w: World, s: Tables, p: seq<Block>, chain: seq<Block>)
    requires WellFormed(w) && Tracks(w, s, p) && Canonical(w, chain)
    requires p != [] && Agrees(p, chain, p[|p| - 1].number)
    ensures Ensure(s, s.checkpoint.value) == Ok(s) && Settled(w, p, chain, s, s.checkpoint.value)
  {
    LinkedNumbers(p, |p| - 1);
    EnsureKeeps(w, s, p);
    AgreementMeansPrefix(w, p, chain, p[|p| - 1].number);
    assert p[..|p|] == p;
  }

  lemma RollbackSettles(w: World, s: Tables, p: seq<Block>, chain: seq<Block>, a: nat)
    requires WellFormed(w) && Tracks(w, s, p) && Canonical(w, chain) && HighestAgreement(p, chain, a)
    ensures var r := Rollback(s, Checkpoint(a, chain[a].hash));
      r.Ok? && Settled(w, p, chain, r.value, Checkpoint(a, chain[a].hash))
  {
    AgreementMeansPrefix(w, p, chain, a);
    LinkedNumbers(p, a - p[0].number);
    RollbackTruncates(w, s, p, a - p[0].number + 1);
  }

  lemma MismatchOnFixedChain(s: Tables, p: seq<Block>, chain: seq<Block>, maxDepth: nat)
    requires Linked(p) && p != [] && s.history == HistoryOf(p)
    requires p[|p| - 1].number < |chain| && !Agrees(p, chain, p[|p| - 1].number)
    ensures
      var first, top := p[0].number, p[|p| - 1].number;
      match Descend(s, FixedProbe(chain), top, maxDepth)
      case Found(h, hash) =>
        AncestorWithin(p, chain, top, maxDepth) && HighestAgreement(p, chain, h) && hash == chain[h].hash
      case Missing(h) =>
        !AncestorWithin(p, chain, top, maxDepth) && first > 0 && h == first - 1 && top - first < maxDepth
      case Exhausted =>
        !AncestorWithin(p, chain, top, maxDepth) && !(first > 0 && top - first < maxDepth)
      case _ => false
  {
    var top := p[|p| - 1].number;
    LinkedNumbers(p, |p| - 1);
    DescendOnFixedChain(s, p, chain, top, maxDepth);
    var d := Descend(s, FixedProbe(chain), top, maxDepth);
    if d.Found? {
      assert Agrees(p, chain, d.height) && top - d.height <= maxDepth;
    }
  }

  lemma ReconcileWhenSteady(w: World, s: Tables, p: seq<Block>, chain: seq<Block>, maxDepth: nat)
    requires WellFormed(w) && Tracks(w, s, p) && p != [] && Canonical(w, chain) && maxDepth > 0
    requires Agrees(p, chain, p[|p| - 1].number)
    ensures var (s', r) := Reconciliation(s, FixedProbe(chain), maxDepth);
      r.Steady? && Settled(w, p, chain, s', r.checkpoint)
  {
    LinkedNumbers(p, |p| - 1);
    SteadySettles(w, s, p, chain);
  }

  /** What Reconcile makes of its descent. */
  lemma AfterDescent(s: Tables, probe: Probe, maxDepth: nat, c: Checkpoint, d: Search)
    requires maxDepth > 0 && !probe.loadFails && probe.fault == NoFault && s.checkpoint == Some(c)
    requires probe.canonical(c.number).Ok? && probe.canonical(c.number).value.hash != c.hash
    requires d == Descend(s, probe, c.number, maxDepth)
    ensures d.Found? && Rollback(s, Checkpoint(d.height, d.hash)).Ok? ==>
      Reconciliation(s, probe, maxDepth)
      == (Rollback(s, Checkpoint(d.height, d.hash)).value, RolledBack(Checkpoint(d.height, d.hash), c))
    ensures d.Missing? ==> Reconciliation(s, probe, maxDepth) == (s, Refused(HistoryUnavailable(d.height)))
    ensures d.Exhausted? ==> Reconciliation(s, probe, maxDepth) == (s, Refused(TooDeep))
  {
  }

  lemma ReconcileWhenForked(w: World, s: Tables, p: seq<Block>, chain: seq<Block>, maxDepth: nat)
    requires WellFormed(w) && Tracks(w, s, p) && p != [] && Canonical(w, chain) && maxDepth > 0
    requires p[|p| - 1].number < |chain| && !Agrees(p, chain, p[|p| - 1].number)
    ensures
      var (s', r) := Reconciliation(s, FixedProbe(chain), maxDepth);
      var first, top := p[0].number, p[|p| - 1].number;
      if AncestorWithin(p, chain, top, maxDepth) then r.RolledBack? && Settled(w, p, chain, s', r.checkpoint)
      else
        s' == s && r == Refused(if first > 0 && top - first < maxDepth then HistoryUnavailable(first - 1) else TooDeep)
  {
    LinkedNumbers(p, |p| - 1);
    MismatchOnFixedChain(s, p, chain, maxDepth);
    var d := Descend(s, FixedProbe(chain), p[|p| - 1].number, maxDepth);
    AfterDescent(s, FixedProbe(chain), maxDepth, s.checkpoint.value, d);
    if d.Found? {
      RollbackSettles(w, s, p, chain, d.height);
    }
  }

  /**
    On a fixed chain Reconcile keeps exactly the blocks up to the highest common ancestor, if that
    lies within maxDepth of the checkpoint; otherwise it changes nothing and says which limit it hit.
    */
  lemma ReconcileFindsHighestAncestor(w: World, s: Tables, p: seq<Block>, chain: seq<Block>, maxDepth: nat)
    requires WellFormed(w) && Tracks(w, s, p) && p != [] && Canonical(w, chain) && maxDepth > 0
    ensures
      var (s', r) := Reconciliation(s, FixedProbe(chain), maxDepth);
      var first, top := p[0].number, p[|p| - 1].number;
      if top >= |chain| then r == Refused(FetchFailed(top, "not found")) && s' == s
      else if AncestorWithin(p, chain, top, maxDepth) then
        (r.Steady? || r.RolledBack?) && Settled(w, p, chain, s', r.checkpoint)
      else
        s' == s && r == Refused(if first > 0 && top - first < maxDepth then HistoryUnavailable(first - 1) else TooDeep)
  {
    var top := p[|p| - 1].number;
    if Agrees(p, chain, top) {
      assert top - top <= maxDepth;
      ReconcileWhenSteady(w, s, p, chain, maxDepth);
    } else if top < |chain| {
      ReconcileWhenForked(w, s, p, chain, maxDepth);
    }
  }
}
