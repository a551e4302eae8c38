/** The three scheduler threads, their worker pools, the thread that initializes and starts the
    scheduler and the thread that shuts it down, as interleaved steps. */
module SchedulerThreads {
  import opened Wrappers

  /** Where a scheduler thread is in its main loop. */
  datatype Pc =
    | Unborn
    | LoopTest         // while (!halted)
    | AwaitDependent   // the inner loop on dependentSchedulerThread.hasExecutedOnce()
    | AwaitUnpaused
    | AwaitWorker      // blockForAvailableThreads
    | Constructing
    | Timing           // has the task reached its time, and the wait for it
    | GoAheadTest
    | Submitting       // runInThread
    | Signalling       // signalHasExecutedOnce after a task
    | SignallingIdle   // and without one
    | IdleWait
    | Dead

  datatype Thread = Thread(pc: Pc, paused: bool, halted: bool, once: bool)

  /** The workers of a pool that are free and those that run a task. */
  datatype Pool = Pool(avail: nat, busy: nat, closed: bool)

  datatype Shutdown = NotCalled | Called(wait: bool, pc: nat)

  /** Thread 0 polls the exception queue, 1 keeps house, 2 polls the interval retries; each has a
      pool of its own. `starter` counts the calls of initialize() and start() carried out. */
  datatype State = State(threads: seq<Thread>, pools: seq<Pool>, starter: nat, shutdown: Shutdown)

  type Id = i: nat | i < 3

  datatype Outcome = Found | Nothing | Throws

  datatype Step =
    | Begin(i: Id)                        // initialize(): construct and start a thread
    | StartChecks                         // start(): throws once a shutdown has begun
    | Unpause(i: Id)                      // togglePause(false)
    | Test(i: Id)
    | DependentDone(i: Id)
    | PauseOver(i: Id)
    | WorkerFree(i: Id)
    | Construct(i: Id, outcome: Outcome)
    | TimeReached(i: Id, throws: bool)
    | GoAhead(i: Id)
    | RunInThread(i: Id)
    | Signal(i: Id)
    | IdleOver(i: Id)
    | WorkerDone(i: Id)
    | CallShutDown(wait: bool)
    | Halt(i: Id)
    | Join(i: Id)
    | ClosePool(i: Id)
    | PoolQuiet(i: Id)
    | ShutDownReturns

  predicate WellFormed(s: State) {
    |s.threads| == 3 && |s.pools| == 3
  }

  predicate At(s: State, i: Id, pc: Pc)
    requires WellFormed(s)
  {
    s.threads[i].pc == pc
  }

  predicate ClosingAt(s: State, pc: nat) {
    s.shutdown.Called? && s.shutdown.pc == pc
  }

  const HOUSE_KEEP: Id := 1
  const EXCEPTION_QUEUE: Id := 0

  /** `shutDown` halts and joins thread after thread, then closes pool after pool; without `wait`
      it passes the joins and the waits. */
  predicate Enabled(s: State, step: Step)
    requires WellFormed(s)
  {
    match step
    case Begin(i) => s.starter == i && s.shutdown.NotCalled?
    case StartChecks => s.starter == 3
    case Unpause(i) => s.starter == 4 + i
    case Test(i) => At(s, i, LoopTest)
    case DependentDone(i) => At(s, i, AwaitDependent) && s.threads[EXCEPTION_QUEUE].once
    case PauseOver(i) => At(s, i, AwaitUnpaused) && (s.threads[i].halted || !s.threads[i].paused)
    case WorkerFree(i) => At(s, i, AwaitWorker) && (s.pools[i].avail > 0 || s.pools[i].closed)
    case Construct(i, _) => At(s, i, Constructing)
    case TimeReached(i, _) => At(s, i, Timing)
    case GoAhead(i) => At(s, i, GoAheadTest)
    case RunInThread(i) => At(s, i, Submitting) && (s.pools[i].avail > 0 || s.pools[i].closed)
    case Signal(i) => At(s, i, Signalling) || At(s, i, SignallingIdle)
    case IdleOver(i) => At(s, i, IdleWait)
    case WorkerDone(i) => s.pools[i].busy > 0
    case CallShutDown(_) => s.shutdown.NotCalled? && s.starter >= 3
    case Halt(i) => ClosingAt(s, 2 * i)
    case Join(i) => ClosingAt(s, 2 * i + 1) && (s.shutdown.wait ==> At(s, i, Dead))
    case ClosePool(i) => ClosingAt(s, 6 + 2 * i)
    case PoolQuiet(i) => ClosingAt(s, 7 + 2 * i) && (s.shutdown.wait ==> s.pools[i].busy == 0)
    case ShutDownReturns => ClosingAt(s, 12)
  }

  function Put(s: State, i: Id, t: Thread): (r: State)
    requires WellFormed(s)
    ensures WellFormed(r)
  {
    s.(threads := s.threads[i := t])
  }

  function Go(s: State, i: Id, pc: Pc): (r: State)
    requires WellFormed(s)
    ensures WellFormed(r)
  {
    Put(s, i, s.threads[i].(pc := pc))
  }

  function PutPool(s: State, i: Id, p: Pool): (r: State)
    requires WellFormed(s)
    ensures WellFormed(r)
  {
    s.(pools := s.pools[i := p])
  }

  function Closing(s: State): State
    requires s.shutdown.Called?
  {
    s.(shutdown := Called(s.shutdown.wait, s.shutdown.pc + 1))
  }

  function Do(s: State, step: Step): (r: State)
    requires WellFormed(s) && Enabled(s, step)
    ensures WellFormed(r)
  {
    match step
    case Begin(i) => Go(s, i, LoopTest).(starter := i + 1)
    case StartChecks => s.(starter := if s.shutdown.Called? then 7 else 4)
    case Unpause(i) => Put(s, i, s.threads[i].(paused := false)).(starter := 5 + i)
    case Test(i) =>
      Go(s, i, if s.threads[i].halted then Dead else if i == HOUSE_KEEP then AwaitDependent else AwaitUnpaused)
    case DependentDone(i) => Go(s, i, AwaitUnpaused)
    case PauseOver(i) => Go(s, i, if s.threads[i].halted then Dead else AwaitWorker)
    case WorkerFree(i) => Go(s, i, if s.pools[i].avail > 0 then Constructing else LoopTest)
    case Construct(i, outcome) =>
      Go(s, i, match outcome case Found => Timing case Nothing => SignallingIdle case Throws => LoopTest)
    case TimeReached(i, throws) => Go(s, i, if throws then LoopTest else GoAheadTest)
    case GoAhead(i) => Go(s, i, if s.threads[i].halted then Signalling else Submitting)
    case RunInThread(i) =>
      // a closed pool runs the task in a thread of its own
      PutPool(Go(s, i, Signalling), i,
              Pool(if s.pools[i].closed then s.pools[i].avail else s.pools[i].avail - 1,
                   s.pools[i].busy + 1, s.pools[i].closed))
    case Signal(i) => Put(s, i, s.threads[i].(pc := if At(s, i, Signalling) then LoopTest else IdleWait, once := true))
    case IdleOver(i) => Go(s, i, LoopTest)
    case WorkerDone(i) =>
      PutPool(s, i,
              Pool(if s.pools[i].closed then s.pools[i].avail else s.pools[i].avail + 1,
                   s.pools[i].busy - 1, s.pools[i].closed))
    case CallShutDown(wait) => s.(shutdown := Called(wait, 0))
    case Halt(i) => Closing(Put(s, i, s.threads[i].(halted := true)))
    case Join(i) => Closing(s)
    case ClosePool(i) => Closing(PutPool(s, i, Pool(0, s.pools[i].busy, true)))
    case PoolQuiet(i) => Closing(s)
    case ShutDownReturns => Closing(s)
  }

  predicate IsRun(s: State, steps: seq<Step>)
    requires WellFormed(s)
    decreases |steps|
  {
    steps == [] || (Enabled(s, steps[0]) && IsRun(Do(s, steps[0]), steps[1..]))
  }

  function End(s: State, steps: seq<Step>): (r: State)
    requires WellFormed(s) && IsRun(s, steps)
    ensures WellFormed(r)
    decreases |steps|
  {
    if steps == [] then s else End(Do(s, steps[0]), steps[1..])
  }

  function Start(sizes: seq<nat>): State
    requires |sizes| == 3
  {
    var t := Thread(Unborn, true, false, false);
    State([t, t, t], [Pool(sizes[0], 0, false), Pool(sizes[1], 0, false), Pool(sizes[2], 0, false)], 0, NotCalled)
  }

  // ---- what every run keeps ----

  /** Between blockForAvailableThreads and runInThread. */
  predicate HasWorker(pc: Pc) {
    pc.Constructing? || pc.Timing? || pc.GoAheadTest? || pc.Submitting?
  }

  /** Between the pause and the end of the round. */
  predicate Working(pc: Pc) {
    HasWorker(pc) || pc.AwaitWorker? || pc.Signalling? || pc.SignallingIdle? || pc.IdleWait?
  }

  predicate PoolKept(s: State, i: Id)
    requires WellFormed(s)
  {
    && (s.pools[i].closed <==> s.shutdown.Called? && s.shutdown.pc > 6 + 2 * i)
    && (s.pools[i].closed ==> s.pools[i].avail == 0)
    && (!s.pools[i].closed && HasWorker(s.threads[i].pc) ==> s.pools[i].avail > 0)
  }

  predicate Lives(s: State, i: Id)
    requires WellFormed(s)
  {
    && (s.threads[i].pc == Unborn <==> s.starter <= i)
    && (At(s, i, AwaitDependent) ==> i == HOUSE_KEEP)
    && (At(s, i, Dead) ==> s.threads[i].halted)
  }

  predicate HaltedInTurn(s: State, i: Id)
    requires WellFormed(s)
  {
    && (s.threads[i].halted <==> s.shutdown.Called? && s.shutdown.pc > 2 * i)
    && (s.shutdown.Called? ==> s.starter >= 3 && s.shutdown.pc <= 13)
  }

  predicate Joined(s: State, i: Id)
    requires WellFormed(s)
  {
    s.shutdown.Called? && s.shutdown.wait && s.shutdown.pc > 2 * i + 1 ==> At(s, i, Dead)
  }

  predicate Drained(s: State, i: Id)
    requires WellFormed(s)
  {
    s.shutdown.Called? && s.shutdown.wait && s.shutdown.pc > 7 + 2 * i ==> s.pools[i].busy == 0
  }

  predicate ThreadKept(s: State, i: Id)
    requires WellFormed(s)
  {
    Lives(s, i) && HaltedInTurn(s, i) && Joined(s, i) && Drained(s, i)
  }

  predicate Inv(s: State) {
    WellFormed(s) && forall i: Id :: PoolKept(s, i) && ThreadKept(s, i)
  }

  lemma PoolStep(s: State, step: Step, i: Id)
    requires WellFormed(s) && Enabled(s, step) && PoolKept(s, i)
    ensures PoolKept(Do(s, step), i)
  {
  }

  lemma LivesStep(s: State, step: Step, i: Id)
    requires WellFormed(s) && Enabled(s, step) && Lives(s, i) && (s.shutdown.Called? ==> s.starter >= 3)
    ensures Lives(Do(s, step), i)
  {
  }

  lemma HaltedInTurnStep(s: State, step: Step, i: Id)
    requires WellFormed(s) && Enabled(s, step) && HaltedInTurn(s, i)
    ensures HaltedInTurn(Do(s, step), i)
  {
  }

  lemma JoinedStep(s: State, step: Step, i: Id)
    requires WellFormed(s) && Enabled(s, step) && Lives(s, i) && HaltedInTurn(s, i) && Joined(s, i)
    ensures Joined(Do(s, step), i)
  {
  }

  lemma DrainedStep(s: State, step: Step, i: Id)
    requires WellFormed(s) && Enabled(s, step) && PoolKept(s, i) && ThreadKept(s, i)
    ensures Drained(Do(s, step), i)
  {
  }

  lemma InvStep(s: State, step: Step)
    requires Inv(s) && Enabled(s, step)
    ensures Inv(Do(s, step))
  {
    var t := Do(s, step);
    forall i: Id ensures PoolKept(t, i) && ThreadKept(t, i) {
      assert PoolKept(s, i) && ThreadKept(s, i);
      PoolStep(s, step, i);
      LivesStep(s, step, i);
      HaltedInTurnStep(s, step, i);
      JoinedStep(s, step, i);
      DrainedStep(s, step, i);
    }
  }

  lemma {:induction false} InvRun(s: State, steps: seq<Step>)
    requires Inv(s) && IsRun(s, steps)
    ensures Inv(End(s, steps))
    decreases |steps|
  {
    if steps != [] {
      InvStep(s, steps[0]);
      InvRun(Do(s, steps[0]), steps[1..]);
    }
  }

  /** runInThread never waits for a worker. */
  lemma SubmitNeverWaits(sizes: seq<nat>, steps: seq<Step>, i: Id)
    requires |sizes| == 3 && IsRun(Start(sizes), steps) && At(End(Start(sizes), steps), i, Submitting)
    ensures Enabled(End(Start(sizes), steps), RunInThread(i))
  {
    InvRun(Start(sizes), steps);
    assert PoolKept(End(Start(sizes), steps), i);
  }

  // ---- what the place of a thread tells ----

  /** The outcome of the last task thread `i` tried to construct; `before` is that before the run. */
  function LastOutcome(steps: seq<Step>, i: Id, before: Option<Outcome>): Option<Outcome> {
    if steps == [] then before
    else LastOutcome(steps[1..], i, Outcomes(steps[0], i, before))
  }

  /** A thread holds a task, or has handed one over, when it found one last; it idles when it found
      nothing. */
  predicate Tells(s: State, i: Id, last: Option<Outcome>)
    requires WellFormed(s)
  {
    var pc := s.threads[i].pc;
    && (pc.Timing? || pc.GoAheadTest? || pc.Submitting? || pc.Signalling? ==> last == Some(Found))
    && (pc.SignallingIdle? || pc.IdleWait? ==> last == Some(Nothing))
  }

  function Outcomes(step: Step, i: Id, before: Option<Outcome>): Option<Outcome> {
    if step.Construct? && step.i == i then Some(step.outcome) else before
  }

  lemma TellsStep(s: State, step: Step, i: Id, before: Option<Outcome>)
    requires WellFormed(s) && Enabled(s, step) && Tells(s, i, before)
    ensures Tells(Do(s, step), i, Outcomes(step, i, before))
    ensures Do(s, step).threads[i].once <==> s.threads[i].once || step == Signal(i)
  {
  }

  lemma {:induction false} TellsRun(s: State, steps: seq<Step>, i: Id, before: Option<Outcome>)
    requires WellFormed(s) && IsRun(s, steps) && Tells(s, i, before)
    ensures Tells(End(s, steps), i, LastOutcome(steps, i, before))
    ensures End(s, steps).threads[i].once <==> s.threads[i].once || Signal(i) in steps
    decreases |steps|
  {
    if steps != [] {
      TellsStep(s, steps[0], i, before);
      TellsRun(Do(s, steps[0]), steps[1..], i, Outcomes(steps[0], i, before));
      assert steps == [steps[0]] + steps[1..];
    }
  }

  /** A thread idles only when it found nothing last, hands over a task only when it found one last,
      and has executed once exactly when it has signalled. */
  lemma IdlesAfterNothing(sizes: seq<nat>, steps: seq<Step>, i: Id)
    requires |sizes| == 3 && IsRun(Start(sizes), steps)
    ensures Enabled(End(Start(sizes), steps), IdleOver(i)) ==> LastOutcome(steps, i, None) == Some(Nothing)
    ensures Enabled(End(Start(sizes), steps), RunInThread(i)) ==> LastOutcome(steps, i, None) == Some(Found)
    ensures End(Start(sizes), steps).threads[i].once <==> Signal(i) in steps
  {
    TellsRun(Start(sizes), steps, i, None);
  }

  function If(b: bool): nat {
    if b then 1 else 0
  }

  /** How often `p` holds of a step. */
  function Times(steps: seq<Step>, p: Step -> bool): nat {
    if steps == [] then 0 else If(p(steps[0])) + Times(steps[1..], p)
  }

  predicate Holding(pc: Pc) {
    pc.Timing? || pc.GoAheadTest? || pc.Submitting?
  }

  /** A thread with a round to end by a signal. */
  predicate Unsignalled(pc: Pc) {
    Holding(pc) || pc.Signalling? || pc.SignallingIdle?
  }

  function Being(what: Step): Step -> bool {
    step => step == what
  }

  /** A step the thread itself takes. */
  predicate Own(i: Id, step: Step) {
    (step.Test? || step.DependentDone? || step.PauseOver? || step.WorkerFree? || step.Construct? || step.TimeReached?
     || step.GoAhead? || step.RunInThread? || step.Signal? || step.IdleOver? || step.Begin?) && step.i == i
  }

  lemma OthersKeepPlace(s: State, step: Step, i: Id)
    requires WellFormed(s) && Enabled(s, step) && !Own(i, step)
    ensures Do(s, step).threads[i].pc == s.threads[i].pc
  {
  }

  lemma HandOverStep(s: State, step: Step, i: Id)
    requires WellFormed(s) && Enabled(s, step) && Lives(s, i)
    ensures s.threads[i].halted ==> Do(s, step).threads[i].halted
    ensures !Do(s, step).threads[i].halted ==>
              If(step == RunInThread(i)) + If(Holding(Do(s, step).threads[i].pc))
              == If(step == Construct(i, Found)) + If(Holding(s.threads[i].pc)) - If(step == TimeReached(i, true))
  {
  }

  lemma SignalStep(s: State, step: Step, i: Id)
    requires WellFormed(s) && Enabled(s, step) && Lives(s, i)
    ensures If(step == Signal(i)) + If(Unsignalled(Do(s, step).threads[i].pc))
            == If(step == Construct(i, Found)) + If(step == Construct(i, Nothing))
               + If(Unsignalled(s.threads[i].pc)) - If(step == TimeReached(i, true))
  {
    if !Own(i, step) {
      OthersKeepPlace(s, step, i);
    }
  }

  /** A thread that is not halted hands over every task it finds, but for those whose wait throws. */
  lemma {:induction false} FoundIsHandedOver(s: State, steps: seq<Step>, i: Id)
    requires Inv(s) && IsRun(s, steps) && !End(s, steps).threads[i].halted
    ensures !s.threads[i].halted
    ensures Times(steps, Being(RunInThread(i))) + If(Holding(End(s, steps).threads[i].pc))
            == Times(steps, Being(Construct(i, Found))) + If(Holding(s.threads[i].pc))
               - Times(steps, Being(TimeReached(i, true)))
    decreases |steps|
  {
    if steps != [] {
      InvStep(s, steps[0]);
      assert ThreadKept(s, i);
      HandOverStep(s, steps[0], i);
      FoundIsHandedOver(Do(s, steps[0]), steps[1..], i);
    }
  }

  /** Halted or not, it signals once for every task it found or did not find, unless that threw. */
  lemma {:induction false} SignalsOnceARound(s: State, steps: seq<Step>, i: Id)
    requires Inv(s) && IsRun(s, steps)
    ensures Times(steps, Being(Signal(i))) + If(Unsignalled(End(s, steps).threads[i].pc))
            == Times(steps, Being(Construct(i, Found))) + Times(steps, Being(Construct(i, Nothing)))
               + If(Unsignalled(s.threads[i].pc)) - Times(steps, Being(TimeReached(i, true)))
    decreases |steps|
  {
    if steps != [] {
      InvStep(s, steps[0]);
      assert ThreadKept(s, i);
      SignalStep(s, steps[0], i);
      SignalsOnceARound(Do(s, steps[0]), steps[1..], i);
    }
  }

  lemma StartFails(s: State, step: Step, i: Id)
    requires WellFormed(s) && Enabled(s, step) && s.shutdown.Called? && (s.starter == 3 || s.starter == 7)
    ensures Do(s, step).shutdown.Called? && (Do(s, step).starter == 3 || Do(s, step).starter == 7)
    ensures step != Unpause(i) && Do(s, step).threads[i].paused == s.threads[i].paused
  {
  }

  /** Once a shutdown has begun before start(), start() does not get past its test: no thread is
      unpaused any more. */
  lemma {:induction false} NoStartAfterShutDown(s: State, steps: seq<Step>, i: Id)
    requires WellFormed(s) && IsRun(s, steps) && s.shutdown.Called? && (s.starter == 3 || s.starter == 7)
    ensures Unpause(i) !in steps && End(s, steps).threads[i].paused == s.threads[i].paused
    decreases |steps|
  {
    if steps != [] {
      StartFails(s, steps[0], i);
      NoStartAfterShutDown(Do(s, steps[0]), steps[1..], i);
      assert steps == [steps[0]] + steps[1..];
    }
  }

  // ---- after halt ----

  function Submits(steps: seq<Step>, i: Id): nat {
    if steps == [] then 0 else If(steps[0] == RunInThread(i)) + Submits(steps[1..], i)
  }

  lemma SubmitStep(s: State, step: Step, i: Id)
    requires WellFormed(s) && Enabled(s, step) && s.threads[i].halted
    ensures Do(s, step).threads[i].halted
    ensures If(step == RunInThread(i)) + If(At(Do(s, step), i, Submitting)) <= If(At(s, i, Submitting))
  {
  }

  /** A halted thread submits at most one more task, and that one only if it had passed the test
      of `halted` before. */
  lemma {:induction false} OneMoreSubmit(s: State, steps: seq<Step>, i: Id)
    requires WellFormed(s) && IsRun(s, steps) && s.threads[i].halted
    ensures End(s, steps).threads[i].halted
    ensures Submits(steps, i) + If(At(End(s, steps), i, Submitting)) <= If(At(s, i, Submitting))
    decreases |steps|
  {
    if steps != [] {
      SubmitStep(s, steps[0], i);
      OneMoreSubmit(Do(s, steps[0]), steps[1..], i);
    }
  }

  function Constructs(steps: seq<Step>, i: Id): nat {
    if steps == [] then 0 else If(steps[0].Construct? && steps[0].i == i) + Constructs(steps[1..], i)
  }

  predicate MayConstruct(s: State, i: Id)
    requires WellFormed(s)
  {
    At(s, i, AwaitWorker) || At(s, i, Constructing)
  }

  lemma ConstructStep(s: State, step: Step, i: Id)
    requires WellFormed(s) && Enabled(s, step) && s.threads[i].halted
    ensures Do(s, step).threads[i].halted
    ensures If(step.Construct? && step.i == i) + If(MayConstruct(Do(s, step), i)) <= If(MayConstruct(s, i))
  {
  }

  /** It constructs at most one more, and that one only if it had passed the pause before. */
  lemma {:induction false} OneMoreConstruct(s: State, steps: seq<Step>, i: Id)
    requires WellFormed(s) && IsRun(s, steps) && s.threads[i].halted
    ensures Constructs(steps, i) + If(MayConstruct(End(s, steps), i)) <= If(MayConstruct(s, i))
    decreases |steps|
  {
    if steps != [] {
      ConstructStep(s, steps[0], i);
      OneMoreConstruct(Do(s, steps[0]), steps[1..], i);
    }
  }

  // ---- shutDown(true) ----

  predicate NoLateSubmit(s: State, steps: seq<Step>)
    requires WellFormed(s) && IsRun(s, steps)
    decreases |steps|
  {
    steps == []
    || ((steps[0].RunInThread? ==> !s.pools[steps[0].i].closed) && NoLateSubmit(Do(s, steps[0]), steps[1..]))
  }

  predicate Waits(s: State, steps: seq<Step>) {
    (s.shutdown.Called? ==> s.shutdown.wait) && forall i :: 0 <= i < |steps| ==> steps[i] != CallShutDown(false)
  }

  /** With `wait`, nothing is handed to a pool after its shutdown. */
  lemma {:induction false} NoSubmitAfterClose(s: State, steps: seq<Step>)
    requires Inv(s) && IsRun(s, steps) && Waits(s, steps)
    ensures NoLateSubmit(s, steps)
    decreases |steps|
  {
    if steps != [] {
      var step := steps[0];
      if step.RunInThread? {
        assert PoolKept(s, step.i) && ThreadKept(s, step.i);
      }
      InvStep(s, step);
      assert step != CallShutDown(false);
      assert forall i :: 0 <= i < |steps[1..]| ==> steps[1..][i] == steps[i + 1];
      NoSubmitAfterClose(Do(s, step), steps[1..]);
    }
  }

  /** Once shutDown(true) has returned all threads are dead and no task runs, for good. */
  lemma {:induction false} QuietForGood(s: State, steps: seq<Step>)
    requires Inv(s) && IsRun(s, steps) && s.shutdown == Called(true, 13)
    ensures End(s, steps).shutdown == Called(true, 13)
    ensures forall i: Id :: At(End(s, steps), i, Dead) && End(s, steps).pools[i].busy == 0
    ensures forall k :: 0 <= k < |steps| ==> steps[k].Unpause? || steps[k].StartChecks?
    decreases |steps|
  {
    forall i: Id ensures At(s, i, Dead) && s.pools[i].busy == 0 {
      assert ThreadKept(s, i);
    }
    if steps != [] {
      assert ThreadKept(s, 0);
      InvStep(s, steps[0]);
      QuietForGood(Do(s, steps[0]), steps[1..]);
      forall k | 0 <= k < |steps|
        ensures steps[k].Unpause? || steps[k].StartChecks?
      {
        if k > 0 {
          assert steps[k] == steps[1..][k - 1];
        }
      }
    }
  }

  // ---- before the start ----

  /** Not past the pause of its current round. */
  predicate BeforeWork(pc: Pc) {
    !Working(pc)
  }

  predicate NoneConstructs(steps: seq<Step>, i: Id) {
    forall k :: 0 <= k < |steps| ==> !(steps[k].Construct? && steps[k].i == i)
  }

  lemma PausedStays(s: State, step: Step, i: Id)
    requires WellFormed(s) && Enabled(s, step) && step != Unpause(i)
    requires s.threads[i].paused && BeforeWork(s.threads[i].pc)
    ensures Do(s, step).threads[i].paused && BeforeWork(Do(s, step).threads[i].pc)
    ensures !(step.Construct? && step.i == i)
  {
  }

  /** A paused thread constructs nothing until togglePause(false). */
  lemma {:induction false} NothingWhilePaused(s: State, steps: seq<Step>, i: Id)
    requires WellFormed(s) && IsRun(s, steps)
    requires s.threads[i].paused && BeforeWork(s.threads[i].pc)
    requires forall k :: 0 <= k < |steps| ==> steps[k] != Unpause(i)
    ensures NoneConstructs(steps, i)
    decreases |steps|
  {
    if steps != [] {
      assert forall k :: 0 <= k < |steps[1..]| ==> steps[1..][k] == steps[k + 1];
      PausedStays(s, steps[0], i);
      NothingWhilePaused(Do(s, steps[0]), steps[1..], i);
      forall k | 0 <= k < |steps|
        ensures !(steps[k].Construct? && steps[k].i == i)
      {
        if k > 0 {
          assert steps[k] == steps[1..][k - 1];
        }
      }
    }
  }

  predicate BeforeDependent(pc: Pc) {
    pc.Unborn? || pc.LoopTest? || pc.AwaitDependent? || pc.Dead?
  }

  lemma BeforeDependentStays(s: State, step: Step)
    requires WellFormed(s) && Enabled(s, step) && step != Signal(EXCEPTION_QUEUE)
    requires !s.threads[EXCEPTION_QUEUE].once && BeforeDependent(s.threads[HOUSE_KEEP].pc)
    ensures !Do(s, step).threads[EXCEPTION_QUEUE].once && BeforeDependent(Do(s, step).threads[HOUSE_KEEP].pc)
    ensures !(step.Construct? && step.i == HOUSE_KEEP)
  {
  }

  /** House-keeping constructs nothing until the exception-queue thread has signalled a round. */
  lemma {:induction false} NothingBeforeFirstSignal(s: State, steps: seq<Step>)
    requires WellFormed(s) && IsRun(s, steps)
    requires !s.threads[EXCEPTION_QUEUE].once && BeforeDependent(s.threads[HOUSE_KEEP].pc)
    requires forall k :: 0 <= k < |steps| ==> steps[k] != Signal(EXCEPTION_QUEUE)
    ensures NoneConstructs(steps, HOUSE_KEEP)
    ensures BeforeDependent(End(s, steps).threads[HOUSE_KEEP].pc) && !End(s, steps).threads[EXCEPTION_QUEUE].once
    decreases |steps|
  {
    if steps != [] {
      BeforeDependentStays(s, steps[0]);
      assert forall k :: 0 <= k < |steps[1..]| ==> steps[1..][k] == steps[k + 1];
      NothingBeforeFirstSignal(Do(s, steps[0]), steps[1..]);
      forall k | 0 <= k < |steps|
        ensures !(steps[k].Construct? && steps[k].i == HOUSE_KEEP)
      {
        if k > 0 {
          assert steps[k] == steps[1..][k - 1];
        }
      }
    }
  }

  // ---- where shutdown goes wrong ----

  /** The exception-queue thread can still get to its signal: it is past the pause of this round,
      or it is neither halted nor to stay paused. */
  predicate MaySignal(s: State)
    requires WellFormed(s)
  {
    var e := s.threads[EXCEPTION_QUEUE];
    || HasWorker(e.pc) || e.pc.AwaitWorker? || e.pc.Signalling? || e.pc.SignallingIdle?
    || ((e.pc.LoopTest? || e.pc.AwaitUnpaused? || e.pc.IdleWait?) && !e.halted && (e.paused ==> s.starter == 4))
  }

  /** Under shutDown(true) house-keeping waits for a first round that will not come: it no longer
      looks at `halted`. */
  predicate Stuck(s: State)
    requires WellFormed(s)
  {
    && s.shutdown.Called? && s.shutdown.wait && s.shutdown.pc <= 2 * HOUSE_KEEP + 1
    && At(s, HOUSE_KEEP, AwaitDependent) && !s.threads[EXCEPTION_QUEUE].once && !MaySignal(s)
  }

  lemma StuckStays(s: State, step: Step)
    requires WellFormed(s) && Enabled(s, step) && Stuck(s)
    ensures Stuck(Do(s, step))
  {
  }

  lemma {:induction false} StuckForGood(s: State, steps: seq<Step>)
    requires WellFormed(s) && IsRun(s, steps) && Stuck(s)
    ensures Stuck(End(s, steps))
    decreases |steps|
  {
    if steps != [] {
      StuckStays(s, steps[0]);
      StuckForGood(Do(s, steps[0]), steps[1..]);
    }
  }

  // ---- when shutDown(true) can return ----

  /** A pool is given at least one thread (`initialize` of SimpleThreadPool throws otherwise). */
  predicate Sized(s: State)
    requires WellFormed(s)
  {
    forall i: Id :: !s.pools[i].closed ==> s.pools[i].avail + s.pools[i].busy > 0
  }

  lemma SizedStays(s: State, step: Step)
    requires WellFormed(s) && Enabled(s, step) && Sized(s)
    ensures Sized(Do(s, step))
  {
  }

  predicate UnderWay(s: State) {
    Inv(s) && Sized(s) && s.shutdown.Called? && s.shutdown.wait && s.shutdown.pc <= 12
  }

  ghost predicate MayReturn(s: State)
    requires WellFormed(s)
  {
    exists steps :: IsRun(s, steps) && End(s, steps).shutdown == Called(true, 13)
  }

  /** A shutDown(true) under way can return exactly unless it is stuck. */
  lemma ShutDownReturnsExactly(s: State)
    requires UnderWay(s)
    ensures MayReturn(s) <==> !Stuck(s)
  {
    if Stuck(s) {
      forall steps | IsRun(s, steps) ensures End(s, steps).shutdown != Called(true, 13) {
        StuckForGood(s, steps);
      }
    } else {
      ReturnPossible(s);
    }
  }

  /** What house-keeping still waits for: the first round of the other thread, or the next look at it. */
  function Phase(s: State): nat
    requires WellFormed(s)
  {
    if !At(s, HOUSE_KEEP, AwaitDependent) then 0 else if s.threads[EXCEPTION_QUEUE].once then 1 else 2
  }

  function ToSignal(s: State): nat
    requires WellFormed(s)
  {
    match s.threads[EXCEPTION_QUEUE].pc
    case IdleWait => 12
    case LoopTest => 11
    case AwaitUnpaused => if s.threads[EXCEPTION_QUEUE].paused then 10 else 9
    case AwaitWorker => if s.pools[EXCEPTION_QUEUE].avail == 0 then 8 else 7
    case Constructing => 6
    case Timing => 5
    case GoAheadTest => 4
    case Submitting => 3
    case _ => 1
  }

  function ToDeath(s: State, i: Id): nat
    requires WellFormed(s)
  {
    match s.threads[i].pc
    case AwaitWorker => if s.pools[i].avail == 0 then 4 else 3
    case Constructing => 2
    case Timing => 2
    case GoAheadTest => 3
    case Submitting => 3
    case Signalling => 2
    case SignallingIdle => 3
    case IdleWait => 2
    case Dead => 0
    case _ => 1
  }

  /** How far the present part of the shutdown has to go. */
  function Distance(s: State): nat
    requires WellFormed(s)
  {
    if Phase(s) == 2 then ToSignal(s)
    else if s.shutdown.NotCalled? then 0
    else if s.shutdown.pc < 6 then (if s.shutdown.pc % 2 == 0 then 0 else ToDeath(s, s.shutdown.pc / 2))
    else if s.shutdown.pc < 12 then (if s.shutdown.pc % 2 == 0 then 0 else s.pools[(s.shutdown.pc - 7) / 2].busy)
    else 0
  }

  predicate Nearer(s: State, t: State)
    requires WellFormed(s) && s.shutdown.Called? && s.shutdown.pc <= 13
    requires WellFormed(t) && t.shutdown.Called? && t.shutdown.pc <= 13
  {
    || Phase(t) < Phase(s)
    || (Phase(t) == Phase(s) && t.shutdown.pc > s.shutdown.pc)
    || (Phase(t) == Phase(s) && t.shutdown.pc == s.shutdown.pc && Distance(t) < Distance(s))
  }

  /** The exception-queue thread goes on to its signal: to the work of a round, */
  lemma RoundComes(s: State) returns (step: Step)
    requires UnderWay(s) && !Stuck(s) && Phase(s) == 2 && !Working(s.threads[EXCEPTION_QUEUE].pc)
    ensures Enabled(s, step) && !Stuck(Do(s, step)) && Do(s, step).shutdown == s.shutdown && Nearer(s, Do(s, step))
  {
    var e := s.threads[EXCEPTION_QUEUE];
    assert ThreadKept(s, HOUSE_KEEP);
    step := if e.pc.LoopTest? then Test(EXCEPTION_QUEUE)
            else if e.paused then Unpause(EXCEPTION_QUEUE) else PauseOver(EXCEPTION_QUEUE);
  }

  /** and through it. */
  lemma SignalComes(s: State) returns (step: Step)
    requires UnderWay(s) && !Stuck(s) && Phase(s) == 2 && Working(s.threads[EXCEPTION_QUEUE].pc)
    ensures Enabled(s, step) && !Stuck(Do(s, step)) && Do(s, step).shutdown == s.shutdown && Nearer(s, Do(s, step))
  {
    assert PoolKept(s, EXCEPTION_QUEUE) && ThreadKept(s, HOUSE_KEEP);
    step := match s.threads[EXCEPTION_QUEUE].pc
      case IdleWait => IdleOver(EXCEPTION_QUEUE)
      case AwaitWorker =>
        if s.pools[EXCEPTION_QUEUE].avail == 0 then WorkerDone(EXCEPTION_QUEUE) else WorkerFree(EXCEPTION_QUEUE)
      case Constructing => Construct(EXCEPTION_QUEUE, Nothing)
      case Timing => TimeReached(EXCEPTION_QUEUE, false)
      case GoAheadTest => GoAhead(EXCEPTION_QUEUE)
      case Submitting => RunInThread(EXCEPTION_QUEUE)
      case _ => Signal(EXCEPTION_QUEUE);
  }

  /** A halted thread goes on to its death: back to a test of the flag before it has a task, */
  lemma DeathWithoutTask(s: State, i: Id) returns (step: Step)
    requires UnderWay(s) && Phase(s) == 0 && s.shutdown.pc == 2 * i + 1 && !At(s, i, Dead)
    requires !Submitted(s.threads[i].pc)
    ensures Enabled(s, step) && Phase(Do(s, step)) == 0 && Do(s, step).shutdown == s.shutdown && Nearer(s, Do(s, step))
  {
    assert PoolKept(s, i) && ThreadKept(s, i);
    step := match s.threads[i].pc
      case LoopTest => Test(i)
      case AwaitUnpaused => PauseOver(i)
      case AwaitWorker => if s.pools[i].avail == 0 then WorkerDone(i) else WorkerFree(i)
      case Constructing => Construct(i, Throws)
      case _ => TimeReached(i, true);
  }

  /** or through the rest of the round. */
  lemma DeathAfterTask(s: State, i: Id) returns (step: Step)
    requires UnderWay(s) && Phase(s) == 0 && s.shutdown.pc == 2 * i + 1
    requires Submitted(s.threads[i].pc)
    ensures Enabled(s, step) && Phase(Do(s, step)) == 0 && Do(s, step).shutdown == s.shutdown && Nearer(s, Do(s, step))
  {
    assert PoolKept(s, i) && ThreadKept(s, i);
    step := match s.threads[i].pc
      case GoAheadTest => GoAhead(i)
      case Submitting => RunInThread(i)
      case IdleWait => IdleOver(i)
      case _ => Signal(i);
  }

  predicate Submitted(pc: Pc) {
    pc.GoAheadTest? || pc.Submitting? || pc.Signalling? || pc.SignallingIdle? || pc.IdleWait?
  }

  /** The shutdown thread goes on, once what it waits for is there. */
  lemma ShutDownGoesOn(s: State) returns (step: Step)
    requires UnderWay(s) && Phase(s) == 0
    requires s.shutdown.pc < 6 && s.shutdown.pc % 2 == 1 ==> At(s, s.shutdown.pc / 2, Dead)
    ensures Enabled(s, step) && Phase(Do(s, step)) == 0 && Do(s, step).shutdown.Called? && Do(s, step).shutdown.wait
    ensures s.shutdown.pc <= Do(s, step).shutdown.pc <= 13 && Nearer(s, Do(s, step))
  {
    var pc := s.shutdown.pc;
    if pc < 6 {
      step := if pc % 2 == 0 then Halt(pc / 2) else Join(pc / 2);
    } else if pc < 12 {
      var i := (pc - 6) / 2;
      step := if pc % 2 == 0 then ClosePool(i) else if s.pools[i].busy > 0 then WorkerDone(i) else PoolQuiet(i);
    } else {
      step := ShutDownReturns;
    }
  }

  lemma OneStepNearer(s: State) returns (step: Step)
    requires UnderWay(s) && !Stuck(s)
    ensures Enabled(s, step) && !Stuck(Do(s, step)) && Do(s, step).shutdown.Called? && Do(s, step).shutdown.wait
    ensures Do(s, step).shutdown.pc <= 13 && Nearer(s, Do(s, step))
  {
    if Phase(s) == 2 {
      if Working(s.threads[EXCEPTION_QUEUE].pc) {
        step := SignalComes(s);
      } else {
        step := RoundComes(s);
      }
    } else if Phase(s) == 1 {
      step := DependentDone(HOUSE_KEEP);
    } else if s.shutdown.pc < 6 && s.shutdown.pc % 2 == 1 && !At(s, s.shutdown.pc / 2, Dead) {
      var i := s.shutdown.pc / 2;
      if Submitted(s.threads[i].pc) {
        step := DeathAfterTask(s, i);
      } else {
        step := DeathWithoutTask(s, i);
      }
    } else {
      step := ShutDownGoesOn(s);
    }
  }

  lemma {:induction false} ReturnPossible(s: State)
    requires UnderWay(s) && !Stuck(s)
    ensures MayReturn(s)
    decreases Phase(s), 13 - s.shutdown.pc, Distance(s)
  {
    var step := OneStepNearer(s);
    var t := Do(s, step);
    InvStep(s, step);
    SizedStays(s, step);
    var rest: seq<Step> := [];
    if t.shutdown.pc == 13 {
      assert IsRun(t, rest);
    } else {
      ReturnPossible(t);
      rest :| IsRun(t, rest) && End(t, rest).shutdown == Called(true, 13);
    }
    RunJoined(s, step, rest);
  }

  lemma RunJoined(s: State, step: Step, rest: seq<Step>)
    requires WellFormed(s) && Enabled(s, step) && IsRun(Do(s, step), rest)
    ensures IsRun(s, [step] + rest) && End(s, [step] + rest) == End(Do(s, step), rest)
  {
    assert ([step] + rest)[1..] == rest;
  }

  /** A shutdown before the start leads there. */
  lemma ShutDownBeforeStartGetsStuck(sizes: seq<nat>) returns (steps: seq<Step>)
    requires |sizes| == 3
    ensures IsRun(Start(sizes), steps) && Stuck(End(Start(sizes), steps))
  {
    var s1 := Do(Start(sizes), Begin(0));
    var s2 := Do(s1, Begin(1));
    var s3 := Do(s2, Begin(2));
    var s4 := Do(s3, Test(HOUSE_KEEP));
    assert IsRun(Do(s4, CallShutDown(true)), []);
    RunJoined(s4, CallShutDown(true), []);
    steps := [CallShutDown(true)] + [];
    RunJoined(s3, Test(HOUSE_KEEP), steps);
    steps := [Test(HOUSE_KEEP)] + steps;
    RunJoined(s2, Begin(2), steps);
    steps := [Begin(2)] + steps;
    RunJoined(s1, Begin(1), steps);
    steps := [Begin(1)] + steps;
    RunJoined(Start(sizes), Begin(0), steps);
    steps := [Begin(0)] + steps;
  }

  /** Without `wait`, a thread can hand a task to a pool that is already closed. */
  lemma LateSubmit(sizes: seq<nat>) returns (steps: seq<Step>)
    requires |sizes| == 3 && sizes[0] > 0
    ensures IsRun(Start(sizes), steps) && !NoLateSubmit(Start(sizes), steps)
  {
    var s1 := Do(Start(sizes), Begin(0));
    var s2 := Do(s1, Begin(1));
    var s3 := Do(s2, Begin(2));
    var s4 := Do(s3, StartChecks);
    steps := LateOnceStarted(Do(s4, Unpause(0)));
    steps := Before(s4, Unpause(0), steps);
    steps := Before(s3, StartChecks, steps);
    steps := Before(s2, Begin(2), steps);
    steps := Before(s1, Begin(1), steps);
    steps := Before(Start(sizes), Begin(0), steps);
  }

  lemma LateOnceStarted(s: State) returns (steps: seq<Step>)
    requires WellFormed(s) && s.shutdown.NotCalled? && s.starter >= 3 && At(s, 0, LoopTest)
    requires !s.threads[0].paused && !s.threads[0].halted && s.pools[0].avail > 0
    ensures IsRun(s, steps) && !NoLateSubmit(s, steps)
  {
    var s1 := Do(s, Test(0));
    var s2 := Do(s1, PauseOver(0));
    var s3 := Do(s2, WorkerFree(0));
    steps := LateOnceFound(Do(s3, Construct(0, Found)));
    steps := Before(s3, Construct(0, Found), steps);
    steps := Before(s2, WorkerFree(0), steps);
    steps := Before(s1, PauseOver(0), steps);
    steps := Before(s, Test(0), steps);
  }

  lemma LateOnceFound(s: State) returns (steps: seq<Step>)
    requires WellFormed(s) && s.shutdown.NotCalled? && s.starter >= 3 && At(s, 0, Timing) && !s.threads[0].halted
    ensures IsRun(s, steps) && !NoLateSubmit(s, steps)
  {
    var s1 := Do(s, TimeReached(0, false));
    steps := LateOncePassed(Do(s1, GoAhead(0)));
    steps := Before(s1, GoAhead(0), steps);
    steps := Before(s, TimeReached(0, false), steps);
  }

  lemma LateOncePassed(s: State) returns (steps: seq<Step>)
    requires WellFormed(s) && s.shutdown.NotCalled? && At(s, 0, Submitting) && s.starter >= 3
    ensures IsRun(s, steps) && !NoLateSubmit(s, steps)
  {
    var s1 := Do(s, CallShutDown(false));
    var s2 := Do(s1, Halt(0));
    var rest := LateRest(Do(s2, Join(0)));
    steps := Before(s2, Join(0), rest);
    steps := Before(s1, Halt(0), steps);
    steps := Before(s, CallShutDown(false), steps);
  }

  lemma LateRest(s: State) returns (steps: seq<Step>)
    requires WellFormed(s) && s.shutdown == Called(false, 2) && At(s, 0, Submitting)
    ensures IsRun(s, steps) && !NoLateSubmit(s, steps)
  {
    var s1 := Do(s, Halt(1));
    var s2 := Do(s1, Join(1));
    var s3 := Do(s2, Halt(2));
    steps := LateEnd(Do(s3, Join(2)));
    steps := Before(s3, Join(2), steps);
    steps := Before(s2, Halt(2), steps);
    steps := Before(s1, Join(1), steps);
    steps := Before(s, Halt(1), steps);
  }

  lemma LateEnd(s: State) returns (steps: seq<Step>)
    requires WellFormed(s) && s.shutdown == Called(false, 6) && At(s, 0, Submitting)
    ensures IsRun(s, steps) && !NoLateSubmit(s, steps)
  {
    var closed := Do(s, ClosePool(0));
    steps := [RunInThread(0)];
    assert IsRun(Do(closed, RunInThread(0)), steps[1..]);
    assert IsRun(closed, steps) && !NoLateSubmit(closed, steps);
    steps := Before(s, ClosePool(0), steps);
  }

  lemma Before(s: State, step: Step, rest: seq<Step>) returns (steps: seq<Step>)
    requires WellFormed(s) && Enabled(s, step) && IsRun(Do(s, step), rest) && !NoLateSubmit(Do(s, step), rest)
    ensures IsRun(s, steps) && !NoLateSubmit(s, steps)
  {
    steps := [step] + rest;
    assert steps[1..] == rest;
  }
}
