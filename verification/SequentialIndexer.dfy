/** What both range indexers share: client answers, outcomes, the resume rule and the parent-hash check. */
module Indexing {
  import opened Chain
  import opened Store

  /** The result of fetching one block number: a block lookup, then the logs of the block found. */
  datatype Answer = Fetched(block: Block) | FetchFailed(cause: Cause) | LogsFailed(cause: Cause)

  datatype IndexError =
    | InvalidRange
    | InvalidWorkerCount
    | LoadFailed
    | FetchError(block: nat, cause: Cause)
    | LogsError(block: nat, cause: Cause)
    | ParentMismatch(block: nat)
    | PersistError(block: nat, db: DbError)
    | Cancelled

  datatype Outcome = Success(results: seq<Block>) | Failure(error: IndexError)

  /**
    Everything outside the indexer, as relations: which answers each RPC may give and how each
    database transaction may fare. Relations rather than functions, so that the canonical chain
    may change between any two calls. `cancellable` lets the caller's context be cancelled.
    */
  datatype Env = Env(observe: (nat, Result<Header, Cause>) -> bool,
                     logs: (Header, Result<seq<Transfer>, Cause>) -> bool,
                     db: (nat, Fault) -> bool,
                     cancellable: bool)

  ghost predicate Answers(env: Env, n: nat, a: Answer) {
    match a
    case Fetched(b) => env.observe(n, Ok(b.Head())) && env.logs(b.Head(), Ok(b.transfers))
    case FetchFailed(c) => env.observe(n, Err(c))
    case LogsFailed(c) => exists h :: env.observe(n, Ok(h)) && env.logs(h, Err(c))
  }

  /** Under a cancelled context any call may fail instead. */
  ghost predicate MayAnswer(env: Env, n: nat, a: Answer) {
    Answers(env, n, a) || (env.cancellable && !a.Fetched?)
  }

  ghost predicate MayFare(env: Env, n: nat, f: Fault) {
    env.db(n, f) || (env.cancellable && f != NoFault)
  }

  ghost predicate ObserveReturns(env: Env, n: nat) {
    exists r :: env.observe(n, r)
  }

  ghost predicate LogsReturn(env: Env, h: Header) {
    exists r :: env.logs(h, r)
  }

  ghost predicate DbReturns(env: Env, n: nat) {
    exists f :: env.db(n, f)
  }

  /** Every RPC returns, with some answer; so does every database call. */
  ghost predicate Responsive(env: Env) {
    && (forall n: nat :: ObserveReturns(env, n) && DbReturns(env, n))
    && (forall h :: LogsReturn(env, h))
  }

  /** The client's contract: it answers from the world, with the block number it was asked for. */
  ghost predicate Honest(w: World, env: Env) {
    && (forall n: nat, h :: env.observe(n, Ok(h)) ==> h.number == n)
    && (forall n: nat, h, ts :: env.observe(n, Ok(h)) && env.logs(h, Ok(ts)) ==> Assemble(h, ts) in w)
  }

  /** validateParentHash: an empty hash on either side skips the check. */
  predicate ParentAccepted(parent: Hash, expected: Hash) {
    parent == "" || expected == "" || parent == expected
  }

  datatype Entry = Immediate(outcome: Outcome) | Begin(next: nat, expected: Hash)

  /** Where a range starts, given the checkpoint. */
  function Enter(checkpoint: Option<Checkpoint>, loadFails: bool, start: nat, end: nat): (e: Entry)
    ensures e.Begin? ==> start <= e.next <= end
  {
    if start > end then Immediate(Failure(InvalidRange))
    else if loadFails then Immediate(Failure(LoadFailed))
    else if checkpoint.None? then Begin(start, "")
    else
      var c := checkpoint.value;
      if c.number >= end && c.number >= start then Immediate(Success([]))
      else
        var next := if c.number >= start then c.number + 1 else start;
        Begin(next, if c.number + 1 == next then c.hash else "")
  }

  /** Enter with every sum taken in uint64, as the code takes it. */
  function EnterWrapping(checkpoint: Option<Checkpoint>, loadFails: bool, start: nat, end: nat): Entry {
    if start > end then Immediate(Failure(InvalidRange))
    else if loadFails then Immediate(Failure(LoadFailed))
    else if checkpoint.None? then Begin(start, "")
    else
      var c := checkpoint.value;
      if c.number >= end && c.number >= start then Immediate(Success([]))
      else
        var next := if c.number >= start then Wrap(c.number + 1) else start;
        Begin(next, if Wrap(c.number + 1) == next then c.hash else "")
  }

  lemma EnterNeverWraps(checkpoint: Option<Checkpoint>, loadFails: bool, start: nat, end: nat)
    requires start <= MAX_U64 && end <= MAX_U64 && (checkpoint.Some? ==> checkpoint.value.number <= MAX_U64)
    ensures EnterWrapping(checkpoint, loadFails, start, end) == Enter(checkpoint, loadFails, start, end)
  {
  }

  function TopHash(p: seq<Block>): Hash {
    if p == [] then "" else p[|p| - 1].hash
  }

  /** `next` continues the segment `p`. */
  ghost predicate Continues(p: seq<Block>, next: nat) {
    p != [] ==> next == p[|p| - 1].number + 1
  }

  /** A range that starts at or below checkpoint + 1 continues the stored segment, with its top hash expected. */
  lemma {:induction false} EnterContinues(w: World, s: Tables, p: seq<Block>, start: nat, end: nat)
    requires Tracks(w, s, p) && start <= end
    requires p != [] ==> start <= p[|p| - 1].number + 1
    ensures
      match Enter(s.checkpoint, false, start, end)
      case Immediate(out) => out == Success([]) && p != [] && p[|p| - 1].number >= end
      case Begin(next, expected) =>
        Continues(p, next) && expected == TopHash(p) && start <= next <= end && (p == [] ==> next == start)
  {
  }
}

/** The plain loop: the specification that the concurrent indexer refines. */
module SequentialIndexer {
  import opened Chain
  import opened Store
  import opened Indexing
  import opened PostgresStore

  datatype Loop =
    | Running(store: Tables, next: nat, expected: Hash, results: seq<Block>)
    | Finished(store: Tables, outcome: Outcome)

  /** One pass of the loop body, with the answer and the database's fate given. */
  function Iterate(end: nat, st: Loop, a: Answer, f: Fault): Loop
    requires st.Running?
  {
    match a
    case FetchFailed(c) => Finished(st.store, Failure(FetchError(st.next, c)))
    case LogsFailed(c) => Finished(st.store, Failure(LogsError(st.next, c)))
    case Fetched(b) =>
      if !ParentAccepted(b.parent, st.expected) then Finished(st.store, Failure(ParentMismatch(b.number)))
      else
        var (store, e) := Attempt(st.store, Save(st.store, b), f);
        if e.Some? then Finished(store, Failure(PersistError(st.next, e.value)))
        else if st.next == end then Finished(store, Success(st.results + [b]))
        else Running(store, st.next + 1, b.hash, st.results + [b])
  }

  ghost predicate Step(env: Env, end: nat, st: Loop, st': Loop) {
    st.Running?
    && exists a, f :: MayAnswer(env, st.next, a) && MayFare(env, st.next, f) && st' == Iterate(end, st, a, f)
  }

  ghost predicate StepAt(env: Env, end: nat, trace: seq<Loop>, i: nat)
    requires 0 < i < |trace|
  {
    Step(env, end, trace[i - 1], trace[i])
  }

  ghost predicate Run(env: Env, end: nat, trace: seq<Loop>) {
    trace != [] && forall i :: 0 < i < |trace| ==> StepAt(env, end, trace, i)
  }

  ghost predicate Leads(env: Env, end: nat, st: Loop, st': Loop, trace: seq<Loop>) {
    Run(env, end, trace) && trace[0] == st && trace[|trace| - 1] == st'
  }

  /** Some run of the loop leads from `st` to `st'`. */
  ghost predicate Reaches(env: Env, end: nat, st: Loop, st': Loop) {
    exists trace :: Leads(env, end, st, st', trace)
  }

  lemma ReachesItself(env: Env, end: nat, st: Loop)
    ensures Reaches(env, end, st, st)
  {
    assert Leads(env, end, st, st, [st]);
  }

  lemma ReachesStep(env: Env, end: nat, st: Loop, mid: Loop, st': Loop)
    requires Reaches(env, end, st, mid) && Step(env, end, mid, st')
    ensures Reaches(env, end, st, st')
  {
    var trace :| Leads(env, end, st, mid, trace);
    var longer := trace + [st'];
    forall i | 0 < i < |longer| ensures StepAt(env, end, longer, i) {
      assert i < |trace| ==> StepAt(env, end, trace, i);
    }
    assert Leads(env, end, st, st', longer);
  }

  // ----- what the loop does to the store -----

  ghost predicate Commits(w: World, p: seq<Block>, from: nat, store: Tables, q: seq<Block>) {
    Tracks(w, store, p + q) && forall i :: 0 <= i < |q| ==> q[i].number == from + i
  }

  ghost predicate LoopInv(w: World, p: seq<Block>, from: nat, end: nat, st: Loop) {
    match st
    case Running(store, next, expected, results) =>
      && from <= next <= end && |results| == next - from
      && Commits(w, p, from, store, results)
      && expected == TopHash(p + results) && Continues(p + results, next)
    case Finished(store, out) =>
      exists q :: Commits(w, p, from, store, q) && |q| <= end - from + 1
                  && (out.Success? ==> q == out.results && |q| == end - from + 1)
  }

  /** What the loop has committed on top of `p`: all of the range if it has succeeded. */
  lemma LoopCommits(w: World, p: seq<Block>, from: nat, end: nat, st: Loop) returns (q: seq<Block>)
    requires LoopInv(w, p, from, end, st) && from <= end
    ensures Commits(w, p, from, st.store, q)
    ensures st.Running? ==> q == st.results
    ensures st.Finished? && st.outcome.Success? ==>
      q == st.outcome.results && q != [] && q[|q| - 1].number == end
  {
    if st.Running? {
      q := st.results;
    } else {
      q :| Commits(w, p, from, st.store, q) && |q| <= end - from + 1
           && (st.outcome.Success? ==> q == st.outcome.results && |q| == end - from + 1);
    }
  }

  /** With hashes never empty, an accepted parent hash means that the block sits on top of the segment. */
  lemma AcceptedFollows(w: World, p: seq<Block>, b: Block)
    requires WellFormed(w) && Path(w, p) && b in w
    requires Continues(p, b.number) && ParentAccepted(b.parent, TopHash(p))
    ensures p != [] ==> Follows(p[|p| - 1], b)
  {
    if p != [] {
      assert p[|p| - 1] in w;
    }
  }

  lemma CommitsOneMore(w: World, p: seq<Block>, from: nat, store: Tables, q: seq<Block>, b: Block, store': Tables)
    requires Commits(w, p, from, store, q) && b.number == from + |q| && Tracks(w, store', (p + q) + [b])
    ensures Commits(w, p, from, store', q + [b])
  {
    assert p + (q + [b]) == (p + q) + [b];
  }

  /** A block of the world with the next number is committed only on top of its own parent. */
  lemma CommitNext(w: World, p: seq<Block>, from: nat, store: Tables, q: seq<Block>, b: Block)
    requires WellFormed(w) && Commits(w, p, from, store, q) && Continues(p + q, b.number)
    requires b in w && b.number == from + |q| && ParentAccepted(b.parent, TopHash(p + q))
    ensures Save(store, b).Ok? ==> Commits(w, p, from, Save(store, b).value, q + [b])
  {
    AcceptedFollows(w, p + q, b);
    SaveExtends(w, store, p + q, b);
    if Save(store, b).Ok? {
      CommitsOneMore(w, p, from, store, q, b, Save(store, b).value);
    }
  }

  lemma IterateKeeps(w: World, p: seq<Block>, from: nat, end: nat, st: Loop, a: Answer, f: Fault)
    requires WellFormed(w) && st.Running? && LoopInv(w, p, from, end, st)
    requires a.Fetched? ==> a.block in w && a.block.number == st.next
    ensures LoopInv(w, p, from, end, Iterate(end, st, a, f))
  {
    var r := st.results;
    assert Commits(w, p, from, st.store, r);
    if a.Fetched? && ParentAccepted(a.block.parent, st.expected) {
      var b := a.block;
      CommitNext(w, p, from, st.store, r, b);
      var t := p + (r + [b]);
      assert t[|t| - 1] == b;
      assert Save(st.store, b).Ok? ==> Commits(w, p, from, Save(st.store, b).value, r + [b]);
    }
  }

  lemma StepKeeps(w: World, env: Env, p: seq<Block>, from: nat, end: nat, st: Loop, st': Loop)
    requires WellFormed(w) && Honest(w, env) && LoopInv(w, p, from, end, st) && Step(env, end, st, st')
    ensures LoopInv(w, p, from, end, st')
  {
    var a, f :| MayAnswer(env, st.next, a) && MayFare(env, st.next, f) && st' == Iterate(end, st, a, f);
    if a.Fetched? {
      assert Assemble(a.block.Head(), a.block.transfers) == a.block;
    }
    IterateKeeps(w, p, from, end, st, a, f);
  }

  /** One pass appends one block to what is stored, or none. */
  lemma StepGrows(w: World, env: Env, p: seq<Block>, from: nat, end: nat, st: Loop, st': Loop) returns (q: seq<Block>)
    requires WellFormed(w) && Honest(w, env) && LoopInv(w, p, from, end, st) && Step(env, end, st, st')
    ensures Tracks(w, st.store, p + st.results) && Tracks(w, st'.store, p + st.results + q)
  {
    var r := st.results;
    assert Commits(w, p, from, st.store, r);
    q := [];
    assert p + r + [] == p + r;
    var a, f :| MayAnswer(env, st.next, a) && MayFare(env, st.next, f) && st' == Iterate(end, st, a, f);
    if st'.store != st.store {
      q := [a.block];
      assert Assemble(a.block.Head(), a.block.transfers) == a.block;
      CommitNext(w, p, from, st.store, r, a.block);
      assert p + (r + q) == p + r + q;
    }
  }

  lemma {:induction false} RunKeeps(w: World, env: Env, p: seq<Block>, from: nat, end: nat, trace: seq<Loop>, i: nat)
    requires WellFormed(w) && Honest(w, env) && Run(env, end, trace) && i < |trace|
    requires LoopInv(w, p, from, end, trace[0])
    ensures LoopInv(w, p, from, end, trace[i])
  {
    if i > 0 {
      RunKeeps(w, env, p, from, end, trace, i - 1);
      assert StepAt(env, end, trace, i);
      StepKeeps(w, env, p, from, end, trace[i - 1], trace[i]);
    }
  }

  /**
    Whatever the node answers, even from a chain that changes between calls, the loop only ever
    extends the stored segment by consecutive linked blocks, and a success has committed them all.
    */
  lemma ReachesKeeps(w: World, env: Env, p: seq<Block>, from: nat, end: nat, st: Loop, st': Loop)
    requires WellFormed(w) && Honest(w, env) && LoopInv(w, p, from, end, st) && Reaches(env, end, st, st')
    ensures LoopInv(w, p, from, end, st')
  {
    var trace :| Leads(env, end, st, st', trace);
    RunKeeps(w, env, p, from, end, trace, |trace| - 1);
  }

  // ----- the deterministic loop -----

  /** An environment that answers each request in one fixed way. */
  datatype Script = Script(observe: nat -> Result<Header, Cause>,
                           logs: Header -> Result<seq<Transfer>, Cause>,
                           fault: nat -> Fault,
                           loadFails: bool)

  ghost function EnvOf(script: Script): Env {
    Env((n: nat, r) => r == script.observe(n), (h, r) => r == script.logs(h),
        (n: nat, f) => f == script.fault(n), false)
  }

  function ProcessBlock(script: Script, n: nat): Answer {
    match script.observe(n)
    case Err(c) => FetchFailed(c)
    case Ok(h) =>
      match script.logs(h)
      case Err(c) => LogsFailed(c)
      case Ok(ts) => Fetched(Assemble(h, ts))
  }

  function Finish(script: Script, end: nat, st: Loop): (r: (Tables, Outcome))
    requires st.Running? ==> st.next <= end
    decreases if st.Running? then end - st.next + 1 else 0
  {
    if st.Finished? then (st.store, st.outcome)
    else Finish(script, end, Iterate(end, st, ProcessBlock(script, st.next), script.fault(st.next)))
  }

  /** The whole call, as a function of the script and the tables. */
  function IndexRangeResult(script: Script, s: Tables, start: nat, end: nat): (Tables, Outcome) {
    match Enter(s.checkpoint, script.loadFails, start, end)
    case Immediate(out) => (s, out)
    case Begin(next, expected) => Finish(script, end, Running(s, next, expected, []))
  }

  /** The loop with blockNumber++ taken in uint64. */
  function FinishWrapping(script: Script, end: nat, st: Loop): (Tables, Outcome)
    requires end <= MAX_U64 && (st.Running? ==> st.next <= end)
    decreases if st.Running? then end - st.next + 1 else 0
  {
    if st.Finished? then (st.store, st.outcome)
    else
      var st' := Iterate(end, st, ProcessBlock(script, st.next), script.fault(st.next));
      FinishWrapping(script, end, if st'.Running? then st'.(next := Wrap(st.next + 1)) else st')
  }

  lemma {:induction false} FinishNeverWraps(script: Script, end: nat, st: Loop)
    requires end <= MAX_U64 && (st.Running? ==> st.next <= end)
    ensures FinishWrapping(script, end, st) == Finish(script, end, st)
    decreases if st.Running? then end - st.next + 1 else 0
  {
    if st.Running? {
      FinishNeverWraps(script, end, Iterate(end, st, ProcessBlock(script, st.next), script.fault(st.next)));
    }
  }

  function IndexRangeWrapping(script: Script, s: Tables, start: nat, end: nat): (Tables, Outcome)
    requires start <= MAX_U64 && end <= MAX_U64 && (s.checkpoint.Some? ==> s.checkpoint.value.number <= MAX_U64)
  {
    EnterNeverWraps(s.checkpoint, script.loadFails, start, end);
    match EnterWrapping(s.checkpoint, script.loadFails, start, end)
    case Immediate(out) => (s, out)
    case Begin(next, expected) => FinishWrapping(script, end, Running(s, next, expected, []))
  }

  /** For any 64-bit bounds and checkpoint no sum in a range wraps around, the largest end block included. */
  lemma RangeNeverWraps(script: Script, s: Tables, start: nat, end: nat)
    requires start <= MAX_U64 && end <= MAX_U64 && (s.checkpoint.Some? ==> s.checkpoint.value.number <= MAX_U64)
    ensures IndexRangeWrapping(script, s, start, end) == IndexRangeResult(script, s, start, end)
  {
    EnterNeverWraps(s.checkpoint, script.loadFails, start, end);
    var e := Enter(s.checkpoint, script.loadFails, start, end);
    if e.Begin? {
      FinishNeverWraps(script, end, Running(s, e.next, e.expected, []));
    }
  }

  lemma StepIsDeterministic(script: Script, end: nat, st: Loop, st': Loop)
    requires Step(EnvOf(script), end, st, st')
    ensures st.Running? && st' == Iterate(end, st, ProcessBlock(script, st.next), script.fault(st.next))
  {
    var env := EnvOf(script);
    var a, f :| MayAnswer(env, st.next, a) && MayFare(env, st.next, f) && st' == Iterate(end, st, a, f);
    if a.Fetched? {
      assert Assemble(a.block.Head(), a.block.transfers) == a.block;
    }
  }

  lemma StepFollowsScript(script: Script, end: nat, st: Loop, st': Loop)
    requires Step(EnvOf(script), end, st, st') && (st.Running? ==> st.next <= end)
    ensures st'.Running? ==> st'.next <= end
    ensures Finish(script, end, st) == Finish(script, end, st')
  {
    StepIsDeterministic(script, end, st, st');
  }

  /** Every state of a run of the deterministic loop has the same end. */
  lemma {:induction false} RunFollowsScript(script: Script, end: nat, trace: seq<Loop>, i: nat)
    requires Run(EnvOf(script), end, trace) && i < |trace|
    requires trace[0].Running? ==> trace[0].next <= end
    ensures trace[i].Running? ==> trace[i].next <= end
    ensures Finish(script, end, trace[0]) == Finish(script, end, trace[i])
  {
    if i > 0 {
      RunFollowsScript(script, end, trace, i - 1);
      assert StepAt(EnvOf(script), end, trace, i);
      StepFollowsScript(script, end, trace[i - 1], trace[i]);
    }
  }

  lemma ReachesFollowsScript(script: Script, end: nat, st: Loop, st': Loop)
    requires Reaches(EnvOf(script), end, st, st') && st'.Finished? && (st.Running? ==> st.next <= end)
    ensures Finish(script, end, st) == (st'.store, st'.outcome)
  {
    var trace :| Leads(EnvOf(script), end, st, st', trace);
    RunFollowsScript(script, end, trace, |trace| - 1);
  }

  lemma FetchedIsGenuine(w: World, script: Script, n: nat)
    requires Honest(w, EnvOf(script)) && ProcessBlock(script, n).Fetched?
    ensures var b := ProcessBlock(script, n).block; b in w && b.number == n
  {
    var env := EnvOf(script);
    var h := script.observe(n).value;
    assert env.observe(n, Ok(h)) && env.logs(h, Ok(script.logs(h).value));
  }

  /** The deterministic loop, too, only extends the stored segment. */
  lemma {:induction false} FinishExtends(w: World, script: Script, p: seq<Block>, from: nat, end: nat, st: Loop)
    returns (q: seq<Block>)
    requires WellFormed(w) && Honest(w, EnvOf(script))
    requires st.Running? && LoopInv(w, p, from, end, st)
    ensures Commits(w, p, from, Finish(script, end, st).0, q)
    decreases end - st.next
  {
    var a := ProcessBlock(script, st.next);
    if a.Fetched? {
      FetchedIsGenuine(w, script, st.next);
    }
    var st' := Iterate(end, st, a, script.fault(st.next));
    IterateKeeps(w, p, from, end, st, a, script.fault(st.next));
    if st'.Running? {
      q := FinishExtends(w, script, p, from, end, st');
    } else {
      q :| Commits(w, p, from, st'.store, q);
    }
  }

  // ----- what an outcome says -----

  /** The node answered the lookup of `n`, and the log request for the block it found, with this block. */
  ghost predicate AnsweredBy(script: Script, n: nat, b: Block) {
    && script.observe(n) == Ok(Header(b.number, b.hash, b.parent))
    && script.logs(Header(b.number, b.hash, b.parent)) == Ok(b.transfers)
  }

  /** The two hashes are both known and differ. */
  predicate Clash(parent: Hash, before: Hash) {
    parent != "" && before != "" && parent != before
  }

  /** The hash that the block after `done` has to name as its parent. */
  function HashAfter(expected: Hash, done: seq<Block>): Hash {
    if done == [] then expected else done[|done| - 1].hash
  }

  ghost predicate AnsweredAt(script: Script, first: nat, expected: Hash, done: seq<Block>, k: nat)
    requires k < |done|
  {
    && AnsweredBy(script, first + k, done[k])
    && !Clash(done[k].parent, if k == 0 then expected else done[k - 1].hash)
  }

  /** `done` are the blocks answered from `first` on, each linked to the one before. */
  ghost predicate Answered(script: Script, first: nat, expected: Hash, done: seq<Block>) {
    forall k :: 0 <= k < |done| ==> AnsweredAt(script, first, expected, done, k)
  }

  /** Why a range that goes up to `end` ends with `n` still to do, after a block with hash `before`. */
  ghost predicate Ended(script: Script, n: nat, end: nat, before: Hash, out: Outcome) {
    match out
    case Success(_) => n == end + 1
    case Failure(FetchError(m, c)) => m == n <= end && script.observe(n) == Err(c)
    case Failure(LogsError(m, c)) =>
      m == n <= end && script.observe(n).Ok? && script.logs(script.observe(n).value) == Err(c)
    case Failure(ParentMismatch(m)) =>
      n <= end && exists b :: AnsweredBy(script, n, b) && m == b.number && Clash(b.parent, before)
    case Failure(PersistError(m, e)) =>
      && m == n <= end && (e == Unavailable ==> script.fault(n) != NoFault)
      && exists b :: AnsweredBy(script, n, b) && !Clash(b.parent, before)
    case _ => false
  }

  lemma AnsweredJoins(script: Script, first: nat, expected: Hash, b: Block, rest: seq<Block>)
    requires AnsweredBy(script, first, b) && !Clash(b.parent, expected)
    requires Answered(script, first + 1, b.hash, rest)
    ensures Answered(script, first, expected, [b] + rest) && HashAfter(expected, [b] + rest) == HashAfter(b.hash, rest)
  {
    var done := [b] + rest;
    forall k | 0 <= k < |done| ensures AnsweredAt(script, first, expected, done, k) {
      if k > 0 {
        assert AnsweredAt(script, first + 1, b.hash, rest, k - 1);
      }
    }
  }

  lemma {:induction false} RefusedForAReason(b: Block, k: nat)
    requires k <= |b.transfers|
    ensures FirstRefusal(b, k) != Some(Unavailable)
  {
    if k > 0 {
      RefusedForAReason(b, k - 1);
    }
  }

  /** A pass that goes on has accepted the answered block. */
  lemma PassGoesOn(script: Script, end: nat, st: Loop, f: Fault)
    requires st.Running? && Iterate(end, st, ProcessBlock(script, st.next), f).Running?
    ensures var a := ProcessBlock(script, st.next);
      var st' := Iterate(end, st, a, f);
      && a.Fetched? && AnsweredBy(script, st.next, a.block) && !Clash(a.block.parent, st.expected) && st.next != end
      && st'.next == st.next + 1 && st'.expected == a.block.hash && st'.results == st.results + [a.block]
  {
  }

  /** A pass that ends the loop says why. */
  lemma PassEnds(script: Script, end: nat, st: Loop, st': Loop) returns (done: seq<Block>)
    requires st.Running? && st.next <= end && st'.Finished?
    requires st' == Iterate(end, st, ProcessBlock(script, st.next), script.fault(st.next))
    ensures Answered(script, st.next, st.expected, done)
    ensures Ended(script, st.next + |done|, end, HashAfter(st.expected, done), st'.outcome)
    ensures st'.outcome.Success? ==> st'.outcome.results == st.results + done
  {
    var a := ProcessBlock(script, st.next);
    done := [];
    if a.Fetched? {
      assert AnsweredBy(script, st.next, a.block);
      RefusedForAReason(a.block, |a.block.transfers|);
      if st'.outcome.Success? {
        done := [a.block];
        assert AnsweredAt(script, st.next, st.expected, done, 0);
      }
    }
  }

  lemma {:induction false} FinishExplained(script: Script, end: nat, st: Loop, r: (Tables, Outcome))
    returns (done: seq<Block>)
    requires st.Running? && st.next <= end && r == Finish(script, end, st)
    ensures Answered(script, st.next, st.expected, done)
    ensures Ended(script, st.next + |done|, end, HashAfter(st.expected, done), r.1)
    ensures r.1.Success? ==> r.1.results == st.results + done
    decreases end - st.next
  {
    var a := ProcessBlock(script, st.next);
    var st' := Iterate(end, st, a, script.fault(st.next));
    if st'.Running? {
      PassGoesOn(script, end, st, script.fault(st.next));
      var rest := FinishExplained(script, end, st', r);
      done := [a.block] + rest;
      AnsweredJoins(script, st.next, st.expected, a.block, rest);
      assert st.results + [a.block] + rest == st.results + done;
    } else {
      done := PassEnds(script, end, st, st');
    }
  }

  lemma EnterExplained(c: Option<Checkpoint>, loadFails: bool, start: nat, end: nat)
    ensures Enter(c, loadFails, start, end) ==
      if start > end then Immediate(Failure(InvalidRange))
      else if loadFails then Immediate(Failure(LoadFailed))
      else if c.Some? && c.value.number >= end then Immediate(Success([]))
      else
        var first := if c.Some? && c.value.number >= start then c.value.number + 1 else start;
        Begin(first, if c.Some? && c.value.number + 1 == first then c.value.hash else "")
  {
  }

  /**
    Every outcome of a call, for any answers: bad bounds and a failed load are reported, a range that
    the checkpoint covers is done, and otherwise the blocks from max(start, checkpoint + 1) on are
    answered, linked and saved one by one up to the end, or up to the first number where a lookup, a
    log request, the parent hash or the save fails, which the error names with its cause.
    */
  lemma OutcomeExplained(script: Script, s: Tables, start: nat, end: nat, r: (Tables, Outcome))
    returns (done: seq<Block>)
    requires r == IndexRangeResult(script, s, start, end)
    ensures var c := s.checkpoint;
      if start > end then r == (s, Failure(InvalidRange))
      else if script.loadFails then r == (s, Failure(LoadFailed))
      else if c.Some? && c.value.number >= end then r == (s, Success([]))
      else
        var first := if c.Some? && c.value.number >= start then c.value.number + 1 else start;
        var expected := if c.Some? && c.value.number + 1 == first then c.value.hash else "";
        && Answered(script, first, expected, done)
        && Ended(script, first + |done|, end, HashAfter(expected, done), r.1)
        && (r.1.Success? ==> r.1.results == done)
  {
    done := [];
    EnterExplained(s.checkpoint, script.loadFails, start, end);
    var e := Enter(s.checkpoint, script.loadFails, start, end);
    if e.Begin? {
      done := FinishExplained(script, end, Running(s, e.next, e.expected, []), r);
    }
  }

  class SequentialIndexer {
    const persistence: PostgresBlockPersistence

    constructor (persistence: PostgresBlockPersistence)
      ensures this.persistence == persistence
    {
      this.persistence := persistence;
    }

    method IndexRange(script: Script, start: nat, end: nat) returns (out: Outcome)
      modifies persistence
      ensures (persistence.Rows(), out) == IndexRangeResult(script, old(persistence.Rows()), start, end)
    {
      if start > end {
        return Failure(InvalidRange);
      }
      var nextBlock := start;
      var loaded := persistence.Load(script.loadFails);
      if loaded.Err? {
        return Failure(LoadFailed);
      }
      var checkpoint := loaded.value;
      if checkpoint.Some? && checkpoint.value.number >= start {
        if checkpoint.value.number >= end {
          return Success([]);
        }
        nextBlock := checkpoint.value.number + 1;
      }
      var expected := "";
      if checkpoint.Some? && checkpoint.value.number + 1 == nextBlock {
        expected := checkpoint.value.hash;
      }
      var results := [];
      var blockNumber := nextBlock;
      while true
        invariant nextBlock <= blockNumber <= end
        invariant IndexRangeResult(script, old(persistence.Rows()), start, end)
               == Finish(script, end, Running(persistence.Rows(), blockNumber, expected, results))
        decreases end - blockNumber
      {
        var observed := script.observe(blockNumber);
        if observed.Err? {
          return Failure(FetchError(blockNumber, observed.error));
        }
        var logs := script.logs(observed.value);
        if logs.Err? {
          return Failure(LogsError(blockNumber, logs.error));
        }
        var index := Assemble(observed.value, logs.value);
        if !ParentAccepted(index.parent, expected) {
          return Failure(ParentMismatch(index.number));
        }
        var e := persistence.SaveIndexedBlock(index, script.fault(blockNumber));
        if e.Some? {
          return Failure(PersistError(blockNumber, e.value));
        }
        expected := index.hash;
        results := results + [index];
        if blockNumber == end {
          break;
        }
        blockNumber := blockNumber + 1;
      }
      return Success(results);
    }
  }
}
