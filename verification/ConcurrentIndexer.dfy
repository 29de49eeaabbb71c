/**
  ConcurrentRangeIndexer.IndexRange as a step system: one dispatcher, a pool of workers, the
  unbuffered `jobs` channel (a rendezvous), the `results` channel whose capacity is the number
  of workers, the goroutine that closes it, and the coordinator that commits in order.
  Any actor that can move may move next, so a run is any interleaving.
  */
module ConcurrentIndexer {
  import opened Chain
  import opened Store
  import opened Indexing
  import Sequential = SequentialIndexer

  datatype Worker =
    | Idle
    | Looking(n: nat)                   // in GetObservedBlockByNumber
    | Reading(n: nat, header: Header)   // in GetERC20TransfersByBlock
    | Holding(n: nat, answer: Answer)   // in the select that sends the result
    | Exited

  /** `next` is the first block number not handed out yet; Closed means `jobs` is closed. */
  datatype Dispatcher = Offering(next: nat) | Closed(next: nat)

  datatype Delivery = Delivery(n: nat, answer: Answer)

  datatype Coordinator =
    | Receiving    // waiting on `results`
    | Committing   // in the inner loop over `pending`
    | Returned(outcome: Outcome)

  datatype State = State(dispatcher: Dispatcher,
                         workers: seq<Worker>,
                         results: seq<Delivery>,
                         resultsClosed: bool,
                         pending: map<nat, Answer>,
                         nextCommit: nat,
                         expected: Hash,
                         ordered: seq<Block>,
                         coordinator: Coordinator,
                         cancelled: bool,   // workerCtx is done
                         outer: bool,       // the caller's ctx is done
                         store: Tables)

  datatype Action =
    | Dispatch(w: nat)
    | StopDispatch
    | Look(w: nat, observed: Result<Header, Cause>)
    | Read(w: nat, logs: Result<seq<Transfer>, Cause>)
    | Send(w: nat)
    | Abandon(w: nat)
    | Quit(w: nat)
    | CloseResults
    | Receive
    | Commit(fault: Fault)
    | Drain
    | CancelOuter

  function Init(s: Tables, next: nat, expected: Hash, workerCount: nat): State {
    State(Offering(next), seq(workerCount, i => Idle), [], false, map[], next, expected, [],
          Receiving, false, false, s)
  }

  predicate AllExited(s: State) {
    forall i :: 0 <= i < |s.workers| ==> s.workers[i].Exited?
  }

  ghost predicate Enabled(env: Env, s: State, act: Action) {
    match act
    case Dispatch(w) => w < |s.workers| && s.workers[w].Idle? && s.dispatcher.Offering?
    case StopDispatch => s.dispatcher.Offering? && s.cancelled
    case Look(w, r) =>
      w < |s.workers| && s.workers[w].Looking? && (env.observe(s.workers[w].n, r) || (s.cancelled && r.Err?))
    case Read(w, r) =>
      w < |s.workers| && s.workers[w].Reading? && (env.logs(s.workers[w].header, r) || (s.cancelled && r.Err?))
    case Send(w) => w < |s.workers| && s.workers[w].Holding? && |s.results| < |s.workers|
    case Abandon(w) => w < |s.workers| && s.workers[w].Holding? && s.cancelled
    case Quit(w) => w < |s.workers| && s.workers[w].Idle? && s.dispatcher.Closed?
    case CloseResults => !s.resultsClosed && AllExited(s)
    case Receive => s.coordinator.Receiving? && s.results != []
    case Commit(f) => s.coordinator.Committing? && (env.db(s.nextCommit, f) || (s.outer && f != NoFault))
    case Drain => s.coordinator.Receiving? && s.results == [] && s.resultsClosed
    case CancelOuter => env.cancellable && !s.outer
  }

  /** Every return path runs the deferred cancel(). */
  function Return(s: State, out: Outcome): State {
    s.(coordinator := Returned(out), cancelled := true)
  }

  /** One pass of the coordinator's inner loop. */
  function CommitPending(end: nat, s: State, f: Fault): State {
    if s.nextCommit !in s.pending then s.(coordinator := Receiving)
    else
      match s.pending[s.nextCommit]
      case FetchFailed(c) => Return(s, Failure(FetchError(s.nextCommit, c)))
      case LogsFailed(c) => Return(s, Failure(LogsError(s.nextCommit, c)))
      case Fetched(b) =>
        if !ParentAccepted(b.parent, s.expected) then Return(s, Failure(ParentMismatch(b.number)))
        else
          var (store, e) := Attempt(s.store, Save(s.store, b), f);
          if e.Some? then Return(s.(store := store), Failure(PersistError(s.nextCommit, e.value)))
          else
            var s' := s.(store := store, expected := b.hash, ordered := s.ordered + [b],
                         pending := s.pending - {s.nextCommit});
            if s.nextCommit == end then Return(s', Success(s'.ordered))
            else s'.(nextCommit := s.nextCommit + 1)
  }

  function Move(s: State, w: nat, to: Worker): State
    requires w < |s.workers|
  {
    s.(workers := s.workers[w := to])
  }

  ghost function Apply(env: Env, end: nat, s: State, act: Action): State
    requires Enabled(env, s, act)
  {
    match act
    case Dispatch(w) =>
      var n := s.dispatcher.next;
      Move(s, w, Looking(n)).(dispatcher := if n == end then Closed(n + 1) else Offering(n + 1))
    case StopDispatch => s.(dispatcher := Closed(s.dispatcher.next))
    case Look(w, r) =>
      var n := s.workers[w].n;
      Move(s, w, if r.Ok? then Reading(n, r.value) else Holding(n, FetchFailed(r.error)))
    case Read(w, r) =>
      var Reading(n, h) := s.workers[w];
      Move(s, w, Holding(n, if r.Ok? then Fetched(Assemble(h, r.value)) else LogsFailed(r.error)))
    case Send(w) =>
      Move(s, w, Idle).(results := s.results + [Delivery(s.workers[w].n, s.workers[w].answer)])
    case Abandon(w) => Move(s, w, Exited)
    case Quit(w) => Move(s, w, Exited)
    case CloseResults => s.(resultsClosed := true)
    case Receive =>
      var d := s.results[0];
      s.(results := s.results[1..], pending := s.pending[d.n := d.answer], coordinator := Committing)
    case Commit(f) => CommitPending(end, s, f)
    case Drain => if s.outer then Return(s, Failure(Cancelled)) else Return(s, Success(s.ordered))
    case CancelOuter => s.(outer := true, cancelled := true)
  }

  ghost predicate Step(env: Env, end: nat, s: State, s': State) {
    exists act :: Enabled(env, s, act) && s' == Apply(env, end, s, act)
  }

  ghost predicate Run(env: Env, end: nat, trace: seq<State>) {
    trace != [] && forall i :: 0 < i < |trace| ==> StepAt(env, end, trace, i)
  }

  ghost predicate StepAt(env: Env, end: nat, trace: seq<State>, i: nat)
    requires 0 < i < |trace|
  {
    Step(env, end, trace[i - 1], trace[i])
  }

  // ----- conservation: where every block number is -----

  function Carries(w: Worker, n: nat): nat {
    if (w.Looking? || w.Reading? || w.Holding?) && w.n == n then 1 else 0
  }

  function InFlight(ws: seq<Worker>, n: nat): nat {
    if ws == [] then 0 else InFlight(ws[..|ws| - 1], n) + Carries(ws[|ws| - 1], n)
  }

  function Buffered(rs: seq<Delivery>, n: nat): nat {
    if rs == [] then 0 else Buffered(rs[..|rs| - 1], n) + if rs[|rs| - 1].n == n then 1 else 0
  }

  function Waiting(pending: map<nat, Answer>, n: nat): nat {
    if n in pending then 1 else 0
  }

  /** How often block `n` is in a worker, in the results buffer, or in `pending`. */
  function Copies(s: State, n: nat): nat {
    InFlight(s.workers, n) + Buffered(s.results, n) + Waiting(s.pending, n)
  }

  /** One if `n` was handed out and is not committed yet. */
  function Due(s: State, n: nat): nat {
    if s.nextCommit <= n < s.dispatcher.next then 1 else 0
  }

  /** Each block that is due is in exactly one place; a cancelled context may only lose it. */
  ghost predicate Conserved(s: State) {
    forall n: nat :: Copies(s, n) <= Due(s, n) && (!s.cancelled ==> Copies(s, n) == Due(s, n))
  }

  lemma {:induction false} InFlightUpdate(ws: seq<Worker>, w: nat, to: Worker, n: nat)
    requires w < |ws|
    ensures InFlight(ws[w := to], n) + Carries(ws[w], n) == InFlight(ws, n) + Carries(to, n)
  {
    var ws' := ws[w := to];
    if w == |ws| - 1 {
      assert ws'[..|ws| - 1] == ws[..|ws| - 1];
    } else {
      assert ws'[..|ws| - 1] == ws[..|ws| - 1][w := to];
      InFlightUpdate(ws[..|ws| - 1], w, to, n);
    }
  }

  lemma {:induction false} InFlightNone(ws: seq<Worker>, n: nat)
    requires forall i :: 0 <= i < |ws| ==> ws[i].Idle? || ws[i].Exited?
    ensures InFlight(ws, n) == 0
  {
    if ws != [] {
      InFlightNone(ws[..|ws| - 1], n);
    }
  }

  lemma {:induction false} BufferedFront(rs: seq<Delivery>, n: nat)
    requires rs != []
    ensures Buffered(rs, n) == (if rs[0].n == n then 1 else 0) + Buffered(rs[1..], n)
  {
    if |rs| > 1 {
      BufferedFront(rs[..|rs| - 1], n);
      assert rs[..|rs| - 1][1..] == rs[1..][..|rs| - 2];
      assert rs[1..][|rs| - 2] == rs[|rs| - 1];
    }
  }

  lemma BufferedBack(rs: seq<Delivery>, d: Delivery, n: nat)
    ensures Buffered(rs + [d], n) == Buffered(rs, n) + if d.n == n then 1 else 0
  {
    assert (rs + [d])[..|rs|] == rs;
  }

  // ----- the inductive invariant -----

  ghost predicate Shape(env: Env, end: nat, s: State) {
    && s.workers != [] && |s.results| <= |s.workers|
    && s.nextCommit <= end && s.nextCommit <= s.dispatcher.next
    && (s.dispatcher.Offering? ==> s.dispatcher.next <= end)
    && (s.dispatcher.Closed? ==> s.dispatcher.next == end + 1 || s.cancelled)
    && (s.outer ==> s.cancelled && env.cancellable)
    && (s.coordinator.Returned? ==> s.cancelled) && (GaveUp(s) ==> s.outer)
    && (s.cancelled ==> s.outer || s.coordinator.Returned?)
    && (forall i :: 0 <= i < |s.workers| && s.workers[i].Exited? ==> s.dispatcher.Closed? || s.cancelled)
    && (s.resultsClosed ==> AllExited(s))
    && (s.coordinator.Receiving? ==> s.nextCommit !in s.pending)
  }

  ghost predicate Genuine(env: Env, w: Worker) {
    match w
    case Reading(n, h) => env.observe(n, Ok(h))
    case Holding(n, a) => MayAnswer(env, n, a)
    case _ => true
  }

  /** Until the coordinator returns, every answer in the system is one the environment may give. */
  ghost predicate AnswersGenuine(env: Env, s: State) {
    s.coordinator.Returned? || (
      && (forall i :: 0 <= i < |s.workers| ==> Genuine(env, s.workers[i]))
      && (forall i :: 0 <= i < |s.results| ==> MayAnswer(env, s.results[i].n, s.results[i].answer))
      && (forall n :: n in s.pending ==> MayAnswer(env, n, s.pending[n])))
  }

  /** The sequential loop's view of the state: only the coordinator's variables count. */
  function Abstract(s: State): Sequential.Loop {
    if s.coordinator.Returned? && !GaveUp(s) then Sequential.Finished(s.store, s.coordinator.outcome)
    else Sequential.Running(s.store, s.nextCommit, s.expected, s.ordered)
  }

  /** The fall-through return with the caller's own context error: the loop is left where it stands. */
  predicate GaveUp(s: State) {
    s.coordinator == Returned(Failure(Cancelled))
  }

  ghost predicate Inv(env: Env, end: nat, init: Sequential.Loop, s: State) {
    Shape(env, end, s) && Conserved(s) && AnswersGenuine(env, s)
    && Sequential.Reaches(env, end, init, Abstract(s))
  }

  /** Without cancellation, a closed and drained results channel is impossible before the last commit. */
  lemma NeverDrainedEarly(env: Env, end: nat, s: State)
    requires Shape(env, end, s) && Conserved(s) && s.coordinator.Receiving? && s.results == [] && s.resultsClosed
    ensures s.outer
  {
    InFlightNone(s.workers, s.nextCommit);
    assert s.workers[0].Exited?;
    assert Copies(s, s.nextCommit) == 0;
  }

  predicate ByWorker(act: Action) {
    act.Dispatch? || act.Look? || act.Read? || act.Send? || act.Abandon? || act.Quit?
  }

  lemma WorkerStepShape(env: Env, end: nat, s: State, act: Action)
    requires Shape(env, end, s) && Enabled(env, s, act) && ByWorker(act)
    ensures Shape(env, end, Apply(env, end, s, act))
  {
  }

  /** What a pass of the inner loop does to the bookkeeping, whatever the store does. */
  ghost predicate Bookkeeping(end: nat, s: State, s': State) {
    && s'.dispatcher == s.dispatcher && s'.workers == s.workers && s'.results == s.results
    && s'.resultsClosed == s.resultsClosed && s'.outer == s.outer && !GaveUp(s')
    && if s'.coordinator.Returned? then
         && s'.cancelled && s'.nextCommit == s.nextCommit
         && (s'.pending == s.pending || s'.pending == s.pending - {s.nextCommit})
       else if s'.coordinator.Receiving? then
         && s'.cancelled == s.cancelled && s'.nextCommit == s.nextCommit
         && s'.pending == s.pending && s.nextCommit !in s.pending
       else
         && s'.cancelled == s.cancelled && s.nextCommit in s.pending && s.nextCommit != end
         && s'.nextCommit == s.nextCommit + 1 && s'.pending == s.pending - {s.nextCommit}
  }

  lemma CommitBookkeeping(end: nat, s: State, f: Fault)
    requires s.coordinator.Committing?
    ensures Bookkeeping(end, s, CommitPending(end, s, f))
  {
  }

  lemma CommitShape(env: Env, end: nat, s: State, s': State)
    requires Shape(env, end, s) && Conserved(s) && s.coordinator.Committing? && Bookkeeping(end, s, s')
    ensures Shape(env, end, s')
  {
    assert Copies(s, s.nextCommit) <= Due(s, s.nextCommit);
  }

  lemma OtherStepShape(env: Env, end: nat, s: State, act: Action)
    requires Shape(env, end, s) && Conserved(s) && Enabled(env, s, act) && !ByWorker(act)
    ensures Shape(env, end, Apply(env, end, s, act))
  {
    if act.Commit? {
      CommitBookkeeping(end, s, act.fault);
      CommitShape(env, end, s, CommitPending(end, s, act.fault));
    }
  }

  lemma WorkerStepCarries(env: Env, end: nat, s: State, act: Action, s': State, n: nat)
    requires Enabled(env, s, act) && ByWorker(act) && s' == Apply(env, end, s, act)
    ensures s'.workers == s.workers[act.w := s'.workers[act.w]] && s'.pending == s.pending
    ensures Carries(s'.workers[act.w], n) + (if act.Send? || act.Abandon? then Carries(s.workers[act.w], n) else 0)
         == Carries(s.workers[act.w], n) + (if act.Dispatch? && n == s.dispatcher.next then 1 else 0)
  {
  }

  lemma WorkerStepBuffers(env: Env, end: nat, s: State, act: Action, s': State, n: nat)
    requires Enabled(env, s, act) && ByWorker(act) && s' == Apply(env, end, s, act)
    ensures Buffered(s'.results, n) == Buffered(s.results, n) + if act.Send? then Carries(s.workers[act.w], n) else 0
  {
    if act.Send? {
      BufferedBack(s.results, Delivery(s.workers[act.w].n, s.workers[act.w].answer), n);
    }
  }

  /** A dispatched block appears once; only abandoning makes one disappear. */
  lemma WorkerStepCopies(env: Env, end: nat, s: State, act: Action, s': State, n: nat)
    requires Enabled(env, s, act) && ByWorker(act) && s' == Apply(env, end, s, act)
    ensures Copies(s', n) + (if act.Abandon? then Carries(s.workers[act.w], n) else 0)
         == Copies(s, n) + (if act.Dispatch? && n == s.dispatcher.next then 1 else 0)
  {
    WorkerStepCarries(env, end, s, act, s', n);
    WorkerStepBuffers(env, end, s, act, s', n);
    InFlightUpdate(s.workers, act.w, s'.workers[act.w], n);
  }

  lemma WorkerStepDue(env: Env, end: nat, s: State, act: Action, s': State, n: nat)
    requires Enabled(env, s, act) && ByWorker(act) && s' == Apply(env, end, s, act)
    requires s.nextCommit <= s.dispatcher.next
    ensures Due(s', n) == Due(s, n) + (if act.Dispatch? && n == s.dispatcher.next then 1 else 0)
    ensures s'.cancelled == s.cancelled && (act.Abandon? ==> s.cancelled)
  {
  }

  lemma WorkerStepConserves(env: Env, end: nat, s: State, act: Action)
    requires Conserved(s) && Enabled(env, s, act) && ByWorker(act)
    requires s.nextCommit <= s.dispatcher.next
    ensures Conserved(Apply(env, end, s, act))
  {
    var s' := Apply(env, end, s, act);
    forall n: nat ensures Copies(s', n) <= Due(s', n) && (!s'.cancelled ==> Copies(s', n) == Due(s', n)) {
      assert Copies(s, n) <= Due(s, n);
      WorkerStepCopies(env, end, s, act, s', n);
      WorkerStepDue(env, end, s, act, s', n);
    }
  }

  lemma CommitConserves(end: nat, s: State, s': State)
    requires Conserved(s) && Bookkeeping(end, s, s')
    ensures Conserved(s')
  {
    forall n: nat ensures Copies(s', n) <= Due(s', n) && (!s'.cancelled ==> Copies(s', n) == Due(s', n)) {
      assert Copies(s, n) <= Due(s, n);
      assert Copies(s, s.nextCommit) <= Due(s, s.nextCommit);
    }
  }

  lemma OtherStepConserves(env: Env, end: nat, s: State, act: Action)
    requires Conserved(s) && Enabled(env, s, act) && !ByWorker(act)
    ensures Conserved(Apply(env, end, s, act))
  {
    var s' := Apply(env, end, s, act);
    if act.Commit? {
      CommitBookkeeping(end, s, act.fault);
      CommitConserves(end, s, s');
    } else {
      forall n: nat ensures Copies(s', n) <= Due(s', n) && (!s'.cancelled ==> Copies(s', n) == Due(s', n)) {
        assert Copies(s, n) <= Due(s, n);
        if act.Receive? {
          BufferedFront(s.results, n);
        }
      }
    }
  }

  /** The two counters are only ever incremented below the end block, so neither wraps even at 2^64 - 1. */
  lemma CountersNeverWrap(env: Env, end: nat, s: State, act: Action)
    requires Shape(env, end, s) && Conserved(s) && Enabled(env, s, act)
    ensures var s' := Apply(env, end, s, act);
      && s'.nextCommit <= end && (s'.nextCommit != s.nextCommit ==> s.nextCommit < end)
      && (s'.dispatcher.Offering? ==> s'.dispatcher.next <= end)
      && (s'.dispatcher.Offering? && s'.dispatcher != s.dispatcher ==> s.dispatcher.next < end)
  {
    if act.Commit? {
      CommitBookkeeping(end, s, act.fault);
      CommitShape(env, end, s, CommitPending(end, s, act.fault));
    }
  }

  lemma WorkerStepAnswers(env: Env, end: nat, s: State, act: Action)
    requires Shape(env, end, s) && AnswersGenuine(env, s) && Enabled(env, s, act) && ByWorker(act)
    ensures AnswersGenuine(env, Apply(env, end, s, act))
  {
    var s' := Apply(env, end, s, act);
    if !s.coordinator.Returned? {
      assert Genuine(env, s.workers[act.w]);
      assert Genuine(env, s'.workers[act.w]);
    }
  }

  lemma OtherStepAnswers(env: Env, end: nat, s: State, act: Action)
    requires AnswersGenuine(env, s) && Enabled(env, s, act) && !ByWorker(act)
    ensures AnswersGenuine(env, Apply(env, end, s, act))
  {
    if act.Commit? {
      CommitBookkeeping(end, s, act.fault);
    }
  }

  /** The coordinator's pass over a fetched block is the sequential loop's body. */
  lemma CommitIterates(end: nat, s: State, f: Fault)
    requires s.coordinator.Committing? && s.nextCommit in s.pending
    ensures Abstract(CommitPending(end, s, f)) == Sequential.Iterate(end, Abstract(s), s.pending[s.nextCommit], f)
  {
  }

  /** Each step is a stutter of the sequential loop, or one pass of its body. */
  lemma StepRefines(env: Env, end: nat, s: State, act: Action)
    requires Shape(env, end, s) && Conserved(s) && AnswersGenuine(env, s) && Enabled(env, s, act)
    ensures var s' := Apply(env, end, s, act);
      Abstract(s') == Abstract(s) || Sequential.Step(env, end, Abstract(s), Abstract(s'))
  {
    if act.Commit? && s.nextCommit in s.pending {
      CommitIterates(end, s, act.fault);
      assert MayAnswer(env, s.nextCommit, s.pending[s.nextCommit]) && MayFare(env, s.nextCommit, act.fault);
    } else if act.Drain? {
      NeverDrainedEarly(env, end, s);
    }
  }

  lemma StepKeepsInv(env: Env, end: nat, init: Sequential.Loop, s: State, s': State)
    requires Inv(env, end, init, s) && Step(env, end, s, s')
    ensures Inv(env, end, init, s')
  {
    var act :| Enabled(env, s, act) && s' == Apply(env, end, s, act);
    if ByWorker(act) {
      WorkerStepShape(env, end, s, act);
      WorkerStepConserves(env, end, s, act);
      WorkerStepAnswers(env, end, s, act);
    } else {
      OtherStepShape(env, end, s, act);
      OtherStepConserves(env, end, s, act);
      OtherStepAnswers(env, end, s, act);
    }
    StepRefines(env, end, s, act);
    if Abstract(s') != Abstract(s) {
      Sequential.ReachesStep(env, end, init, Abstract(s), Abstract(s'));
    }
  }

  lemma InitInv(env: Env, end: nat, s: Tables, next: nat, expected: Hash, workerCount: nat)
    requires next <= end && workerCount > 0
    ensures Inv(env, end, Abstract(Init(s, next, expected, workerCount)), Init(s, next, expected, workerCount))
  {
    var i := Init(s, next, expected, workerCount);
    forall n: nat ensures Copies(i, n) == Due(i, n) {
      InFlightNone(i.workers, n);
    }
    Sequential.ReachesItself(env, end, Abstract(i));
  }

  lemma {:induction false} RunKeepsInv(env: Env, end: nat, init: Sequential.Loop, trace: seq<State>, i: nat)
    requires Run(env, end, trace) && Inv(env, end, init, trace[0]) && i < |trace|
    ensures Inv(env, end, init, trace[i])
  {
    if i > 0 {
      RunKeepsInv(env, end, init, trace, i - 1);
      assert StepAt(env, end, trace, i);
      StepKeepsInv(env, end, init, trace[i - 1], trace[i]);
    }
  }

  // ----- refinement of the sequential loop -----

  /** What a call does before it spawns anything. */
  function Launch(s: Tables, loadFails: bool, start: nat, end: nat, workerCount: int): (e: Entry)
    ensures e == Immediate(Failure(InvalidWorkerCount)) <==> start <= end && workerCount <= 0
  {
    if start > end then Immediate(Failure(InvalidRange))
    else if workerCount <= 0 then Immediate(Failure(InvalidWorkerCount))
    else Enter(s.checkpoint, loadFails, start, end)
  }

  /**
    Any interleaving, any environment: each state is one the sequential loop reaches, and the call
    returns only what that loop can return, or, having been cancelled from outside, its context's
    error in a state where the sequential loop would still be running.
    */
  lemma ConcurrentRefinesSequential(env: Env, end: nat, s: Tables, next: nat, expected: Hash, workerCount: nat,
                                    trace: seq<State>, i: nat)
    requires next <= end && workerCount > 0 && Run(env, end, trace) && i < |trace|
    requires trace[0] == Init(s, next, expected, workerCount)
    ensures Sequential.Reaches(env, end, Sequential.Running(s, next, expected, []), Abstract(trace[i]))
  {
    InitInv(env, end, s, next, expected, workerCount);
    RunKeepsInv(env, end, Abstract(trace[0]), trace, i);
  }

  /** A call that has returned `result`: at once, or by the run `trace`. */
  ghost predicate CallReturns(script: Sequential.Script, s: Tables, start: nat, end: nat, workerCount: nat,
                              trace: seq<State>, result: (Tables, Outcome))
  {
    match Launch(s, script.loadFails, start, end, workerCount)
    case Immediate(out) => result == (s, out)
    case Begin(next, expected) =>
      && Run(Sequential.EnvOf(script), end, trace) && trace[0] == Init(s, next, expected, workerCount)
      && trace[|trace| - 1].coordinator == Returned(result.1) && trace[|trace| - 1].store == result.0
  }

  /**
    With a client and database that answer deterministically and no outside cancellation, every
    interleaving that returns leaves the tables of the sequential call and returns its outcome:
    the same blocks, or the same first failing block with the same cause.
    */
  lemma ConcurrentEqualsSequential(script: Sequential.Script, s: Tables, start: nat, end: nat, workerCount: nat,
                                   trace: seq<State>, result: (Tables, Outcome))
    requires workerCount > 0 && CallReturns(script, s, start, end, workerCount, trace, result)
    ensures result == Sequential.IndexRangeResult(script, s, start, end)
  {
    var entry := Launch(s, script.loadFails, start, end, workerCount);
    if entry.Begin? {
      var Begin(next, expected) := entry;
      var env := Sequential.EnvOf(script);
      var last := |trace| - 1;
      var first := Sequential.Running(s, next, expected, []);
      InitInv(env, end, s, next, expected, workerCount);
      RunKeepsInv(env, end, first, trace, last);
      Sequential.ReachesFollowsScript(script, end, first, Abstract(trace[last]));
    }
  }

  /**
    No silent truncation: a nil error means that exactly the blocks next..end were committed, in
    order, on top of the stored segment; and at every point of every run the store is the old
    segment extended by consecutive linked blocks, even if the chain changes between any two calls.
    */
  lemma NothingIsTruncated(w: World, env: Env, end: nat, s: Tables, p: seq<Block>, next: nat, workerCount: nat,
                           trace: seq<State>, i: nat)
    requires WellFormed(w) && Honest(w, env) && Tracks(w, s, p) && Continues(p, next)
    requires next <= end && workerCount > 0 && Run(env, end, trace) && i < |trace|
    requires trace[0] == Init(s, next, TopHash(p), workerCount)
    ensures exists q :: Sequential.Commits(w, p, next, trace[i].store, q)
    ensures var c := trace[i].coordinator; c.Returned? && c.outcome.Success? ==>
      |c.outcome.results| == end - next + 1 && Sequential.Commits(w, p, next, trace[i].store, c.outcome.results)
  {
    ConcurrentRefinesSequential(env, end, s, next, TopHash(p), workerCount, trace, i);
    assert p + [] == p;
    Sequential.ReachesKeeps(w, env, p, next, end, Sequential.Running(s, next, TopHash(p), []), Abstract(trace[i]));
    if !trace[i].coordinator.Returned? {
      assert Sequential.Commits(w, p, next, trace[i].store, trace[i].ordered);
    }
  }

  // ----- progress and cleanup -----

  ghost predicate Final(s: State) {
    s.coordinator.Returned? && s.dispatcher.Closed? && AllExited(s) && s.resultsClosed
  }

  /** No deadlock: short of the final state some actor can always move. */
  lemma SomeoneCanMove(env: Env, end: nat, s: State)
    requires Responsive(env) && Shape(env, end, s) && !Final(s)
    ensures exists act :: Enabled(env, s, act)
  {
    if s.coordinator.Committing? {
      assert DbReturns(env, s.nextCommit);
      var f :| env.db(s.nextCommit, f);
      assert Enabled(env, s, Commit(f));
    } else if i :| 0 <= i < |s.workers| && s.workers[i].Looking? {
      assert ObserveReturns(env, s.workers[i].n);
      var r :| env.observe(s.workers[i].n, r);
      assert Enabled(env, s, Look(i, r));
    } else if i :| 0 <= i < |s.workers| && s.workers[i].Reading? {
      assert LogsReturn(env, s.workers[i].header);
      var r :| env.logs(s.workers[i].header, r);
      assert Enabled(env, s, Read(i, r));
    } else if i :| 0 <= i < |s.workers| && s.workers[i].Holding? {
      assert Enabled(env, s, Send(i)) || Enabled(env, s, Receive) || Enabled(env, s, Abandon(i));
    } else if i :| 0 <= i < |s.workers| && s.workers[i].Idle? {
      assert Enabled(env, s, Dispatch(i)) || Enabled(env, s, Quit(i));
    } else {
      assert s.workers[0].Exited?;
      assert Enabled(env, s, StopDispatch) || Enabled(env, s, CloseResults)
          || Enabled(env, s, Receive) || Enabled(env, s, Drain);
    }
  }

  function Effort(w: Worker): nat {
    match w
    case Exited => 0
    case Idle => 1
    case Holding(_, _) => 6
    case Reading(_, _) => 7
    case Looking(_) => 8
  }

  function Efforts(ws: seq<Worker>): nat {
    if ws == [] then 0 else Efforts(ws[..|ws| - 1]) + Effort(ws[|ws| - 1])
  }

  /** A bound on the steps left. It counts blocks, so it is as good for end == 2^64 - 1 as for any other. */
  function Measure(end: nat, s: State): nat {
    (if s.dispatcher.Offering? && s.dispatcher.next <= end then 1 + 8 * (end + 1 - s.dispatcher.next) else 0)
    + Efforts(s.workers) + 4 * |s.results| + |s.pending|
    + (match s.coordinator case Receiving => 1 case Committing => 2 case Returned(_) => 0)
    + (if s.resultsClosed then 0 else 1) + (if s.outer then 0 else 1)
  }

  lemma {:induction false} EffortsUpdate(ws: seq<Worker>, w: nat, to: Worker)
    requires w < |ws|
    ensures Efforts(ws[w := to]) + Effort(ws[w]) == Efforts(ws) + Effort(to)
  {
    var ws' := ws[w := to];
    if w == |ws| - 1 {
      assert ws'[..|ws| - 1] == ws[..|ws| - 1];
    } else {
      assert ws'[..|ws| - 1] == ws[..|ws| - 1][w := to];
      EffortsUpdate(ws[..|ws| - 1], w, to);
    }
  }

  lemma CommitDecreases(end: nat, s: State, s': State)
    requires s.coordinator.Committing? && Bookkeeping(end, s, s')
    ensures Measure(end, s') < Measure(end, s)
  {
    var smaller := s.pending - {s.nextCommit};
    assert smaller.Keys == s.pending.Keys - {s.nextCommit};
    assert |smaller.Keys| <= |s.pending.Keys|;
    if s.nextCommit in s.pending {
      assert s.pending.Keys == smaller.Keys + {s.nextCommit};
    }
  }

  lemma WorkerStepDecreases(env: Env, end: nat, s: State, act: Action)
    requires Shape(env, end, s) && Enabled(env, s, act) && ByWorker(act)
    ensures Measure(end, Apply(env, end, s, act)) < Measure(end, s)
  {
    EffortsUpdate(s.workers, act.w, Apply(env, end, s, act).workers[act.w]);
  }

  lemma OtherStepDecreases(env: Env, end: nat, s: State, act: Action)
    requires Shape(env, end, s) && Enabled(env, s, act) && !ByWorker(act)
    ensures Measure(end, Apply(env, end, s, act)) < Measure(end, s)
  {
    var s' := Apply(env, end, s, act);
    if act.Commit? {
      CommitBookkeeping(end, s, act.fault);
      CommitDecreases(end, s, s');
    } else if act.Receive? {
      assert s'.pending.Keys == s.pending.Keys + {s.results[0].n};
      assert |s'.pending.Keys| <= |s.pending.Keys| + 1;
    }
  }

  /** Every schedule stops: a run cannot have more steps than its first state's measure. */
  lemma {:induction false} EveryScheduleStops(env: Env, end: nat, init: Sequential.Loop, trace: seq<State>, i: nat)
    requires Run(env, end, trace) && Inv(env, end, init, trace[0]) && i < |trace|
    ensures i + Measure(end, trace[i]) <= Measure(end, trace[0])
  {
    if i > 0 {
      EveryScheduleStops(env, end, init, trace, i - 1);
      RunKeepsInv(env, end, init, trace, i - 1);
      assert StepAt(env, end, trace, i);
      var act :| Enabled(env, trace[i - 1], act) && trace[i] == Apply(env, end, trace[i - 1], act);
      if ByWorker(act) {
        WorkerStepDecreases(env, end, trace[i - 1], act);
      } else {
        OtherStepDecreases(env, end, trace[i - 1], act);
      }
    }
  }

  /**
    If client and database calls return, every run either is finished, with the coordinator
    returned and the dispatcher, all workers and the closer gone, or can be extended; and no run
    is longer than a bound fixed at the start.
    */
  lemma EveryRunFinishesAndCleansUp(env: Env, end: nat, s: Tables, next: nat, expected: Hash, workerCount: nat,
                                    trace: seq<State>)
    requires Responsive(env) && next <= end && workerCount > 0
    requires Run(env, end, trace) && trace[0] == Init(s, next, expected, workerCount)
    ensures |trace| <= 1 + Measure(end, trace[0])
    ensures Final(trace[|trace| - 1]) || exists s' :: Run(env, end, trace + [s'])
  {
    var last := |trace| - 1;
    InitInv(env, end, s, next, expected, workerCount);
    EveryScheduleStops(env, end, Abstract(trace[0]), trace, last);
    RunKeepsInv(env, end, Abstract(trace[0]), trace, last);
    if !Final(trace[last]) {
      SomeoneCanMove(env, end, trace[last]);
      var act :| Enabled(env, trace[last], act);
      var longer := trace + [Apply(env, end, trace[last], act)];
      forall i | 0 < i < |longer| ensures StepAt(env, end, longer, i) {
        assert i < |trace| ==> StepAt(env, end, trace, i);
      }
      assert Run(env, end, trace + [Apply(env, end, trace[last], act)]);
    }
  }
}
