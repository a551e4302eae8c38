/** The house-keeping thread with its workers, the interval-retry thread, the services and the
    shutdown thread over the two tables, as interleaved steps; each DAO call is one step. */
module RetryProtocol {
  import opened Wrappers
  import opened RetryTables

  /** HouseKeepSchedulerThread: the query, the semaphore, the hand-over to the pool. */
  datatype Keeper = Idle | Queried(batch: map<MsgId, Payload>) | Acquired(batch: map<MsgId, Payload>)

  /** A house-keeping task in a worker thread; doHouseKeep is entered and left around its commit. */
  datatype Worker = Waiting(batch: map<MsgId, Payload>) | Inside(batch: map<MsgId, Payload>) | Leaving

  /** PollIntervalRetryTaskSchedulerThread, with the record it read. */
  datatype Poller = Looking | Fetched(id: MsgId, at: int) | Holding(id: MsgId, at: int) | Ready(id: MsgId, at: int)

  /** `lost` counts the permits whose holder is gone without a release. */
  datatype State = State(db: Db, issued: set<MsgId>, clock: int, halted: bool,
                         keeper: Keeper, workers: seq<Worker>, permits: nat, lost: nat, poller: Poller)

  datatype Step =
    | Serve(op: Op)                           // a message handled by the service
    | QueryBatch(rows: map<MsgId, Payload>)
    | Acquire
    | AcquireInterrupted                      // the exception is swallowed, the thread goes on
    | SubmitBatch
    | DropBatch                               // halted: the task is not run
    | Enter(k: nat)
    | Commit(k: nat)                          // or a duplicate makes the DAO throw, and that is logged
    | CommitFails(k: nat)                     // the DAO throws for another reason: likewise
    | Release(k: nat)
    | Die(k: nat)                             // any other exception: the worker skips its release
    | Fetch(msgId: MsgId)
    | CheckOut
    | CheckOutThrows(updated: bool)           // `result` stays true
    | WaitOver
    | Submit
    | DropRecord
    | Tick(now: int)
    | Halt

  const START: State := State(Db(map[], map[]), {}, 0, false, Idle, [], 1, 0, Looking)

  /** A message with an id carries one that the generator gave out. */
  predicate Known(op: Op, issued: set<MsgId>) {
    op.DoMessageDirectToRecover? && op.m.msgId > 0 ==> op.m.msgId in issued
  }

  /** `ORDER BY next_exec_at ASC LIMIT 1` among the rows not checked out. */
  predicate MostUrgent(db: Db, id: MsgId) {
    id in db.retries && db.retries[id].state == ToRetry
    && forall other | other in db.retries && db.retries[other].state == ToRetry ::
         db.retries[id].nextExecAt <= db.retries[other].nextExecAt
  }

  /** Some of the rows that are checked out; how long they have been is not modelled. */
  predicate Overdue(db: Db, rows: map<MsgId, Payload>) {
    && rows != map[]
    && forall id | id in rows ::
         id in db.retries && db.retries[id].state == InRetry && db.retries[id].payload == rows[id]
  }

  predicate Enabled(s: State, step: Step) {
    match step
    case Serve(op) =>
      && !op.HouseKeep? && !op.CheckOutRetry? && Legal(op, s.issued) && Known(op, s.issued)
      && (op.DoIntervalMessageRetry? ==> op.now == s.clock)
    case QueryBatch(rows) => s.keeper == Idle && Overdue(s.db, rows)
    case Acquire => s.keeper.Queried? && s.permits > 0
    case AcquireInterrupted => s.keeper.Queried?
    case SubmitBatch => s.keeper.Acquired? && !s.halted
    case DropBatch => s.keeper.Acquired? && s.halted
    case Enter(k) => k < |s.workers| && s.workers[k].Waiting?
    case Commit(k) => k < |s.workers| && s.workers[k].Inside?
    case CommitFails(k) => k < |s.workers| && s.workers[k].Inside?
    case Release(k) => k < |s.workers| && s.workers[k].Leaving?
    case Die(k) => k < |s.workers| && s.workers[k].Inside?
    case Fetch(id) => s.poller == Looking && MostUrgent(s.db, id)
    case CheckOut => s.poller.Fetched?
    case CheckOutThrows(_) => s.poller.Fetched?
    case WaitOver => s.poller.Holding? && (s.poller.at - s.clock <= 2 || s.halted)
    case Submit => s.poller.Ready? && !s.halted
    case DropRecord => s.poller.Ready? && s.halted
    case Tick(now) => s.clock <= now
    case Halt => true
  }

  function Do(s: State, step: Step): State
    requires Enabled(s, step)
  {
    match step
    case Serve(op) => s.(db := After(s.db, op), issued := s.issued + Draws(op))
    case QueryBatch(rows) => s.(keeper := Queried(rows))
    case Acquire => s.(keeper := Acquired(s.keeper.batch), permits := s.permits - 1)
    case AcquireInterrupted => s.(keeper := Acquired(s.keeper.batch))
    case SubmitBatch => s.(keeper := Idle, workers := s.workers + [Waiting(s.keeper.batch)])
    case DropBatch => s.(keeper := Idle, lost := s.lost + 1)
    case Enter(k) => s.(workers := s.workers[k := Inside(s.workers[k].batch)])
    case Commit(k) => s.(db := After(s.db, HouseKeep(s.workers[k].batch)), workers := s.workers[k := Leaving])
    case CommitFails(k) => s.(workers := s.workers[k := Leaving])
    case Release(k) => s.(workers := s.workers[..k] + s.workers[k + 1..], permits := s.permits + 1)
    case Die(k) => s.(workers := s.workers[..k] + s.workers[k + 1..], lost := s.lost + 1)
    case Fetch(id) => s.(poller := Fetched(id, s.db.retries[id].nextExecAt))
    case CheckOut =>
      s.(db := After(s.db, CheckOutRetry(s.poller.id)),
         poller := if CanCheckOut(s.db, s.poller.id) then Holding(s.poller.id, s.poller.at) else Looking)
    case CheckOutThrows(updated) =>
      s.(db := if updated then After(s.db, CheckOutRetry(s.poller.id)) else s.db,
         poller := Holding(s.poller.id, s.poller.at))
    case WaitOver => s.(poller := Ready(s.poller.id, s.poller.at))
    case Submit => s.(poller := Looking)
    case DropRecord => s.(poller := Looking)
    case Tick(now) => s.(clock := now)
    case Halt => s.(halted := true)
  }

  predicate IsRun(s: State, steps: seq<Step>)
    decreases |steps|
  {
    steps == [] || (Enabled(s, steps[0]) && IsRun(Do(s, steps[0]), steps[1..]))
  }

  function End(s: State, steps: seq<Step>): State
    requires IsRun(s, steps)
    decreases |steps|
  {
    if steps == [] then s else End(Do(s, steps[0]), steps[1..])
  }

  // ---- where a message stands ----

  /** What a step does to the tables, as one operation. */
  function OpOf(s: State, step: Step): Option<Op>
    requires Enabled(s, step)
  {
    match step
    case Serve(op) => Some(op)
    case Commit(k) => Some(HouseKeep(s.workers[k].batch))
    case CheckOut => Some(CheckOutRetry(s.poller.id))
    case CheckOutThrows(updated) => if updated then Some(CheckOutRetry(s.poller.id)) else None
    case _ => None
  }

  /** Every id in a batch, even a stale one, was given out. */
  predicate BatchesIssued(s: State) {
    && (!s.keeper.Idle? ==> s.keeper.batch.Keys <= s.issued)
    && forall w | w in s.workers :: !w.Leaving? ==> w.batch.Keys <= s.issued
  }

  predicate Sound(s: State) {
    Issued(s.db, s.issued) && BatchesIssued(s)
  }

  lemma BatchesStay(s: State, step: Step)
    requires Sound(s) && Enabled(s, step)
    ensures BatchesIssued(Do(s, step))
  {
    var t := Do(s, step);
    if step.QueryBatch? {
      assert forall id | id in step.rows :: id in s.db.retries;
    }
    forall w | w in t.workers && !w.Leaving?
      ensures w.batch.Keys <= t.issued
    {
      if step.Enter? && w !in s.workers {
        assert w.batch == s.workers[step.k].batch && s.workers[step.k] in s.workers;
      } else if step.SubmitBatch? && w !in s.workers {
        assert w == Waiting(s.keeper.batch);
      }
    }
  }

  lemma StepTables(s: State, step: Step)
    requires Sound(s) && Enabled(s, step)
    ensures Do(s, step).db == (match OpOf(s, step) case Some(op) => After(s.db, op) case None => s.db)
    ensures OpOf(s, step).Some? ==> Legal(OpOf(s, step).value, s.issued) && Known(OpOf(s, step).value, s.issued)
    ensures OpOf(s, step).Some? ==> Do(s, step).issued == s.issued + Draws(OpOf(s, step).value)
    ensures OpOf(s, step).None? ==> Do(s, step).issued == s.issued
  {
    if step.Commit? {
      assert s.workers[step.k] in s.workers;
    }
  }

  predicate StepBypasses(s: State, step: Step)
    requires Enabled(s, step)
  {
    OpOf(s, step).Some? && Bypasses(s.db, OpOf(s, step).value)
  }

  predicate NeverBypasses(s: State, steps: seq<Step>)
    requires IsRun(s, steps)
    decreases |steps|
  {
    steps == [] || (!StepBypasses(s, steps[0]) && NeverBypasses(Do(s, steps[0]), steps[1..]))
  }

  predicate AlwaysDisjoint(s: State, steps: seq<Step>)
    requires IsRun(s, steps)
    decreases |steps|
  {
    Disjoint(s.db) && (steps == [] || AlwaysDisjoint(Do(s, steps[0]), steps[1..]))
  }

  lemma SoundStays(s: State, step: Step)
    requires Sound(s) && Enabled(s, step) && !StepBypasses(s, step)
    ensures Sound(Do(s, step))
  {
    BatchesStay(s, step);
    StepTables(s, step);
    if OpOf(s, step).Some? {
      IssuedStays(s.db, OpOf(s, step).value, s.issued);
    }
  }

  /** On every run, stale batches included: no id is ever in both tables exactly when no message
      sends an id straight to recovery while interval_retry still holds it. */
  lemma {:induction false} DisjointOnEveryRun(s: State, steps: seq<Step>)
    requires Sound(s) && Disjoint(s.db) && IsRun(s, steps)
    ensures AlwaysDisjoint(s, steps) <==> NeverBypasses(s, steps)
    decreases |steps|
  {
    if steps != [] {
      var t := Do(s, steps[0]);
      StepTables(s, steps[0]);
      if OpOf(s, steps[0]).Some? {
        DisjointExactly(s.db, OpOf(s, steps[0]).value, s.issued);
      }
      if StepBypasses(s, steps[0]) {
        assert !Disjoint(t.db);
      } else {
        SoundStays(s, steps[0]);
        DisjointOnEveryRun(t, steps[1..]);
      }
    }
  }

  /** The step cleans or loses the message. */
  predicate StepRemoves(s: State, step: Step, id: MsgId)
    requires Enabled(s, step)
  {
    OpOf(s, step).Some? && (Cleans(s.db, OpOf(s, step).value, id) || Loses(s.db, OpOf(s, step).value, id))
  }

  predicate NeverRemoved(s: State, steps: seq<Step>, id: MsgId)
    requires IsRun(s, steps)
    decreases |steps|
  {
    steps == []
    || (!StepRemoves(s, steps[0], id)
        && NeverRemoved(Do(s, steps[0]), steps[1..], id))
  }

  predicate AlwaysStored(s: State, steps: seq<Step>, id: MsgId)
    requires IsRun(s, steps)
    decreases |steps|
  {
    Holds(s.db, id) && (steps == [] || AlwaysStored(Do(s, steps[0]), steps[1..], id))
  }

  /** On every run: a stored message stays stored exactly as long as no step cleans or loses it. */
  lemma {:induction false} StoredOnEveryRun(s: State, steps: seq<Step>, id: MsgId)
    requires Holds(s.db, id) && IsRun(s, steps)
    ensures AlwaysStored(s, steps, id) <==> NeverRemoved(s, steps, id)
    decreases |steps|
  {
    if steps != [] {
      var t := Do(s, steps[0]);
      if OpOf(s, steps[0]).Some? {
        assert t.db == After(s.db, OpOf(s, steps[0]).value);
        StaysExactly(s.db, OpOf(s, steps[0]).value, id);
      } else {
        assert t.db == s.db;
      }
      if Holds(t.db, id) {
        StoredOnEveryRun(t, steps[1..], id);
      }
    }
  }

  // ---- the semaphore ----

  function Holders(s: State): nat {
    (if s.keeper.Acquired? then 1 else 0) + |s.workers|
  }

  function Interrupts(steps: seq<Step>): nat {
    if steps == [] then 0 else (if steps[0].AcquireInterrupted? then 1 else 0) + Interrupts(steps[1..])
  }

  function Permits(s: State): nat {
    s.permits + Holders(s) + s.lost
  }

  /** Permits are neither made nor destroyed, except that an interrupted acquire makes one. */
  lemma {:induction false} PermitsConserved(s: State, steps: seq<Step>)
    requires IsRun(s, steps)
    ensures Permits(End(s, steps)) == Permits(s) + Interrupts(steps)
    decreases |steps|
  {
    if steps != [] {
      PermitsConserved(Do(s, steps[0]), steps[1..]);
    }
  }

  /** Without interrupts no two batches are inside doHouseKeep. */
  lemma OneBatchInside(steps: seq<Step>, i: nat, j: nat)
    requires IsRun(START, steps) && Interrupts(steps) == 0
    requires i < |End(START, steps).workers| && End(START, steps).workers[i].Inside?
    requires j < |End(START, steps).workers| && End(START, steps).workers[j].Inside?
    ensures i == j && End(START, steps).permits == 0 && !End(START, steps).keeper.Acquired?
  {
    PermitsConserved(START, steps);
  }

  const TEXT: Payload := Payload("queue", "text", 1000, 0, 3)

  /** Message 1 is checked out and submitted. */
  const OUT: State := State(Db(map[1 := Retry(TEXT, InRetry, 1000)], map[]), {1}, 1000, false, Idle, [], 1, 0, Looking)

  /** One interrupt is enough to let two in. */
  lemma TwoBatchesInside() returns (steps: seq<Step>)
    ensures IsRun(START, steps) && Interrupts(steps) == 1
    ensures End(START, steps).workers == [Inside(map[1 := TEXT]), Inside(map[1 := TEXT])]
  {
    var batch := map[1 := TEXT];
    assert 1 in batch;
    var s1 := Do(OUT, QueryBatch(batch));
    var s2 := Do(s1, Acquire);
    var s3 := Do(s2, SubmitBatch);
    steps := SecondBatch(Do(s3, Enter(0)), batch);
    steps := Prepend(s3, Enter(0), steps);
    steps := Prepend(s2, SubmitBatch, steps);
    steps := Prepend(s1, Acquire, steps);
    steps := Prepend(OUT, QueryBatch(batch), steps);
    steps := ReachOut(steps);
  }

  lemma SecondBatch(s: State, batch: map<MsgId, Payload>) returns (steps: seq<Step>)
    requires s.keeper == Idle && Overdue(s.db, batch) && s.workers == [Inside(batch)] && !s.halted
    ensures IsRun(s, steps) && Interrupts(steps) == 1 && End(s, steps).workers == [Inside(batch), Inside(batch)]
  {
    var s1 := Do(s, QueryBatch(batch));
    var s2 := Do(s1, AcquireInterrupted);
    var s3 := Do(s2, SubmitBatch);
    assert IsRun(Do(s3, Enter(1)), []);
    steps := Prepend(s3, Enter(1), []);
    steps := Prepend(s2, SubmitBatch, steps);
    steps := Prepend(s1, AcquireInterrupted, steps);
    steps := Prepend(s, QueryBatch(batch), steps);
  }

  /** A first retry is stored, becomes due, and is checked out and submitted. */
  lemma ReachOut(rest: seq<Step>) returns (steps: seq<Step>)
    requires IsRun(OUT, rest)
    ensures IsRun(START, steps) && End(START, steps) == End(OUT, rest) && Interrupts(steps) == Interrupts(rest)
  {
    var first := Serve(DoIntervalMessageRetry(Message(0, TEXT), 0, 1));
    assert Do(START, first).issued == {1};
    assert Do(Do(START, first), Tick(1000)) == OUT.(db := STORED);
    steps := DueAndOut(rest);
    steps := Prepend(Do(START, first), Tick(1000), steps);
    steps := Prepend(START, first, steps);
  }

  const STORED: Db := Db(map[1 := Retry(TEXT, ToRetry, 1000)], map[])

  lemma DueAndOut(rest: seq<Step>) returns (steps: seq<Step>)
    requires IsRun(OUT, rest)
    ensures var s := OUT.(db := STORED);
            IsRun(s, steps) && End(s, steps) == End(OUT, rest) && Interrupts(steps) == Interrupts(rest)
  {
    var s := OUT.(db := STORED);
    var s1 := Do(s, Fetch(1));
    steps := Delivered(Do(s1, CheckOut), rest);
    steps := Prepend(s1, CheckOut, steps);
    steps := Prepend(s, Fetch(1), steps);
  }

  lemma Delivered(s: State, rest: seq<Step>) returns (steps: seq<Step>)
    requires s == OUT.(poller := Holding(1, 1000)) && IsRun(OUT, rest)
    ensures IsRun(s, steps) && End(s, steps) == End(OUT, rest) && Interrupts(steps) == Interrupts(rest)
  {
    assert Do(Do(s, WaitOver), Submit) == OUT;
    steps := Prepend(Do(s, WaitOver), Submit, rest);
    steps := Prepend(s, WaitOver, steps);
  }

  lemma Prepend(s: State, step: Step, rest: seq<Step>) returns (steps: seq<Step>)
    requires Enabled(s, step) && IsRun(Do(s, step), rest)
    ensures steps == [step] + rest && IsRun(s, steps) && End(s, steps) == End(Do(s, step), rest)
    ensures Interrupts(steps) == (if step.AcquireInterrupted? then 1 else 0) + Interrupts(rest)
  {
    steps := [step] + rest;
    assert steps[1..] == rest;
  }

  /** A permit dropped at a halt or by a dying worker never comes back: when all are lost, no batch
      is moved again on any continuation without interrupts. */
  lemma {:induction false} LostForGood(s: State, steps: seq<Step>)
    requires IsRun(s, steps) && Interrupts(steps) == 0
    requires s.lost == Permits(s)
    ensures forall i :: 0 <= i < |steps| ==> !steps[i].Acquire? && !steps[i].Commit?
    decreases |steps|
  {
    if steps != [] {
      LostForGood(Do(s, steps[0]), steps[1..]);
      forall i | 0 <= i < |steps|
        ensures !steps[i].Acquire? && !steps[i].Commit?
      {
        if i > 0 {
          assert steps[i] == steps[1..][i - 1];
        }
      }
    }
  }

  /** One worker that dies takes the only permit with it. */
  lemma PermitIsLost() returns (steps: seq<Step>)
    ensures IsRun(START, steps) && Interrupts(steps) == 0
    ensures !End(START, steps).halted && End(START, steps).lost == Permits(End(START, steps))
  {
    var batch := map[1 := TEXT];
    assert 1 in batch;
    var s1 := Do(OUT, QueryBatch(batch));
    steps := WorkerDies(Do(s1, Acquire));
    steps := Prepend(s1, Acquire, steps);
    steps := Prepend(OUT, QueryBatch(batch), steps);
    steps := ReachOut(steps);
  }

  lemma WorkerDies(s: State) returns (steps: seq<Step>)
    requires s.keeper.Acquired? && s.workers == [] && s.permits == 0 && s.lost == 0 && !s.halted
    ensures IsRun(s, steps) && Interrupts(steps) == 0
    ensures !End(s, steps).halted && End(s, steps).lost == Permits(End(s, steps))
  {
    var s1 := Do(s, SubmitBatch);
    var s2 := Do(s1, Enter(0));
    assert IsRun(Do(s2, Die(0)), []);
    steps := Prepend(s2, Die(0), []);
    steps := Prepend(s1, Enter(0), steps);
    steps := Prepend(s, SubmitBatch, steps);
  }

  /** A batch is moved: its rows go from one table to the other. */
  predicate Moves(s: State, step: Step)
    requires Enabled(s, step)
  {
    step.Commit? && Apply(s.db, HouseKeep(s.workers[step.k].batch)).Committed?
  }

  predicate MovesOn(s: State, steps: seq<Step>)
    requires IsRun(s, steps)
    decreases |steps|
  {
    steps != [] && (Moves(s, steps[0]) || MovesOn(Do(s, steps[0]), steps[1..]))
  }

  /** Some continuation without interrupts moves a batch. */
  ghost predicate MayMove(s: State) {
    exists steps :: IsRun(s, steps) && Interrupts(steps) == 0 && MovesOn(s, steps)
  }

  /** A batch that has not committed yet is with a worker. */
  predicate AtWork(s: State) {
    exists k :: 0 <= k < |s.workers| && !s.workers[k].Leaving?
  }

  /** House-keeping goes on exactly as long as a permit is left; after a halt exactly as long as a
      worker has a batch to move. */
  lemma HouseKeepingGoesOnExactly(s: State)
    requires Issued(s.db, s.issued)
    ensures MayMove(s) <==> if s.halted then AtWork(s) else s.lost < Permits(s)
  {
    if MayMove(s) {
      var steps :| IsRun(s, steps) && Interrupts(steps) == 0 && MovesOn(s, steps);
      if s.halted {
        HaltedForGood(s, steps);
      } else if s.lost == Permits(s) {
        LostForGood(s, steps);
        MovesByCommit(s, steps);
      }
    }
    if AtWork(s) {
      var k :| 0 <= k < |s.workers| && !s.workers[k].Leaving?;
      CommitByWorker(s, k);
    } else if !s.halted && s.lost < Permits(s) {
      CommitByPermit(s);
    }
  }

  lemma {:induction false} MovesByCommit(s: State, steps: seq<Step>)
    requires IsRun(s, steps) && MovesOn(s, steps)
    ensures exists i :: 0 <= i < |steps| && steps[i].Commit?
    decreases |steps|
  {
    if !steps[0].Commit? {
      MovesByCommit(Do(s, steps[0]), steps[1..]);
      var i :| 0 <= i < |steps[1..]| && steps[1..][i].Commit?;
      assert steps[i + 1].Commit?;
    }
  }

  lemma {:induction false} HaltedForGood(s: State, steps: seq<Step>)
    requires IsRun(s, steps) && s.halted && MovesOn(s, steps)
    ensures AtWork(s)
    decreases |steps|
  {
    if !steps[0].Commit? {
      HaltedForGood(Do(s, steps[0]), steps[1..]);
      var k :| 0 <= k < |Do(s, steps[0]).workers| && !Do(s, steps[0]).workers[k].Leaving?;
      WorkerWasThere(s, steps[0], k);
    }
  }

  lemma WorkerWasThere(s: State, step: Step, k: nat)
    requires Enabled(s, step) && s.halted && k < |Do(s, step).workers| && !Do(s, step).workers[k].Leaving?
    ensures AtWork(s)
  {
    if (step.Release? || step.Die?) && k >= step.k {
      assert s.workers[k + 1] == Do(s, step).workers[k];
    } else {
      assert k < |s.workers| && !s.workers[k].Leaving?;
    }
  }

  lemma CommitLater(s: State, step: Step)
    requires Enabled(s, step) && !step.AcquireInterrupted? && (Moves(s, step) || MayMove(Do(s, step)))
    ensures MayMove(s)
  {
    var rest: seq<Step> := [];
    if Moves(s, step) {
      assert IsRun(Do(s, step), rest);
    } else {
      rest :| IsRun(Do(s, step), rest) && Interrupts(rest) == 0 && MovesOn(Do(s, step), rest);
    }
    var steps := Prepend(s, step, rest);
    assert steps[0] == step && steps[1..] == rest;
    assert MovesOn(s, steps);
  }

  /** Recover rows that stand in the way are cleaned first. */
  lemma {:induction false} CommitByWorker(s: State, k: nat)
    requires k < |s.workers| && !s.workers[k].Leaving? && Issued(s.db, s.issued)
    ensures MayMove(s)
    decreases |s.db.recovers.Keys|
  {
    if id :| id in s.db.recovers && id in s.workers[k].batch {
      var step := Serve(CleanRecover(id));
      assert Do(s, step).db.recovers.Keys == s.db.recovers.Keys - {id};
      assert s.issued + {} == s.issued;
      CommitByWorker(Do(s, step), k);
      CommitLater(s, step);
    } else if s.workers[k].Waiting? {
      CommitLater(Do(s, Enter(k)), Commit(k));
      CommitLater(s, Enter(k));
    } else {
      CommitLater(s, Commit(k));
    }
  }

  lemma CommitByBatch(s: State)
    requires s.keeper.Acquired? && !s.halted && Issued(s.db, s.issued)
    ensures MayMove(s)
  {
    CommitByWorker(Do(s, SubmitBatch), |s.workers|);
    CommitLater(s, SubmitBatch);
  }

  lemma CommitByQuery(s: State)
    requires s.keeper.Queried? && s.permits > 0 && !s.halted && Issued(s.db, s.issued)
    ensures MayMove(s)
  {
    CommitByBatch(Do(s, Acquire));
    CommitLater(s, Acquire);
  }

  lemma CommitByRow(s: State, id: MsgId)
    requires s.keeper == Idle && s.permits > 0 && !s.halted && Issued(s.db, s.issued)
    requires id in s.db.retries && s.db.retries[id].state == InRetry
    ensures MayMove(s)
  {
    var batch := map[id := s.db.retries[id].payload];
    assert id in batch;
    CommitByQuery(Do(s, QueryBatch(batch)));
    CommitLater(s, QueryBatch(batch));
  }

  /** Checking a row out makes it one that house-keeping may take. */
  lemma CommitByUrgent(s: State, id: MsgId)
    requires s.keeper == Idle && s.permits > 0 && !s.halted && s.poller == Looking && MostUrgent(s.db, id)
    requires Issued(s.db, s.issued)
    ensures MayMove(s)
  {
    var s1 := Do(s, Fetch(id));
    CommitByRow(Do(s1, CheckOut), id);
    CommitLater(s1, CheckOut);
    CommitLater(s, Fetch(id));
  }

  lemma {:induction false} FreshId(issued: set<MsgId>) returns (id: MsgId)
    ensures id > 0 && forall other | other in issued :: other < id
    decreases issued
  {
    id := 1;
    if some :| some in issued {
      var before := FreshId(issued - {some});
      id := if some < before then before else some + 1;
      forall other | other in issued ensures other < id {
        assert other == some || other in issued - {some};
      }
    }
  }

  /** Rows in the way are cleaned, a missing one is written. */
  lemma {:induction false} CommitByLooking(s: State)
    requires s.keeper == Idle && s.permits > 0 && !s.halted && s.poller == Looking && Issued(s.db, s.issued)
    ensures MayMove(s)
    decreases |s.db.retries.Keys|
  {
    if id :| id in s.db.retries {
      if s.db.retries[id].state == InRetry {
        CommitByRow(s, id);
      } else if other :| other in s.db.retries && other != id {
        var step := Serve(CleanIntervalRetry(other));
        assert Do(s, step).db.retries.Keys == s.db.retries.Keys - {other};
        assert s.issued + {} == s.issued;
        CommitByLooking(Do(s, step));
        CommitLater(s, step);
      } else {
        CommitByUrgent(s, id);
      }
    } else {
      assert s.db.retries.Keys == {} by {
        assert forall id :: id !in s.db.retries.Keys;
      }
      CommitByInsert(s);
    }
  }

  lemma CommitByInsert(s: State)
    requires s.keeper == Idle && s.permits > 0 && !s.halted && s.poller == Looking && Issued(s.db, s.issued)
    requires s.db.retries.Keys == {}
    ensures MayMove(s)
  {
    var id := FreshId(s.issued);
    var step := Serve(DoIntervalMessageRetry(Message(0, TEXT), s.clock, id));
    var t := Do(s, step);
    assert t.db.retries.Keys == {id} && t.issued == s.issued + {id} && t.db.recovers == s.db.recovers;
    CommitByUrgent(t, id);
    CommitLater(s, step);
  }

  /** The record the thread holds goes out first. */
  lemma {:induction false} CommitByPoller(s: State)
    requires s.keeper == Idle && s.permits > 0 && !s.halted && Issued(s.db, s.issued)
    ensures MayMove(s)
    decreases match s.poller case Looking => 0 case Ready(_, _) => 1 case Holding(_, _) => 2 case Fetched(_, _) => 3,
              StepsToReady(s.poller, s.clock)
  {
    if s.poller.Looking? {
      CommitByLooking(s);
    } else {
      var step := match s.poller
        case Fetched(_, _) => CheckOut
        case Holding(_, at) => if at - s.clock <= 2 then WaitOver else Tick(at)
        case _ => Submit;
      CommitByPoller(Do(s, step));
      CommitLater(s, step);
    }
  }

  lemma {:induction false} CommitByPermit(s: State)
    requires !s.halted && s.lost < Permits(s) && Issued(s.db, s.issued) && !AtWork(s)
    ensures MayMove(s)
    decreases |s.workers|
  {
    if s.keeper.Acquired? {
      CommitByBatch(s);
    } else if s.workers != [] {
      assert s.workers[0].Leaving?;
      forall k | 0 <= k < |Do(s, Release(0)).workers| ensures Do(s, Release(0)).workers[k].Leaving? {
        assert s.workers[k + 1].Leaving?;
      }
      CommitByPermit(Do(s, Release(0)));
      CommitLater(s, Release(0));
    } else if s.keeper.Queried? {
      CommitByQuery(s);
    } else {
      CommitByPoller(s);
    }
  }

  // ---- the hand-over of an interval retry ----

  function If(b: bool): nat {
    if b then 1 else 0
  }

  predicate HoldsRecord(p: Poller, id: MsgId) {
    (p.Holding? || p.Ready?) && p.id == id
  }

  /** How often `id` can be handed over before it is checked in again. */
  function Credit(s: State, id: MsgId): nat {
    If(HoldsRecord(s.poller, id)) + If(CanCheckOut(s.db, id))
  }

  function HandOvers(s: State, steps: seq<Step>, id: MsgId): nat
    requires IsRun(s, steps)
    decreases |steps|
  {
    if steps == [] then 0
    else If(steps[0].Submit? && s.poller.id == id) + HandOvers(Do(s, steps[0]), steps[1..], id)
  }

  /** The row of `id` is written afresh: a first retry, or the check-in of a message that came back. */
  predicate ChecksIn(step: Step, id: MsgId) {
    && step.Serve? && step.op.DoIntervalMessageRetry?
    && id == if step.op.m.msgId > 0 then step.op.m.msgId else step.op.newId
  }

  function CheckIns(steps: seq<Step>, id: MsgId): nat {
    if steps == [] then 0 else If(ChecksIn(steps[0], id)) + CheckIns(steps[1..], id)
  }

  function ThrownCheckOuts(s: State, steps: seq<Step>, id: MsgId): nat
    requires IsRun(s, steps)
    decreases |steps|
  {
    if steps == [] then 0
    else If(steps[0].CheckOutThrows? && s.poller.id == id) + ThrownCheckOuts(Do(s, steps[0]), steps[1..], id)
  }

  lemma CreditStep(s: State, step: Step, id: MsgId)
    requires Enabled(s, step)
    ensures If(step.Submit? && s.poller.id == id) + Credit(Do(s, step), id)
            <= Credit(s, id) + If(ChecksIn(step, id)) + If(step.CheckOutThrows? && s.poller.id == id)
  {
  }

  /** On every run a message is handed over at most once for each time it was written or checked
      in, and once more for each of its check-outs that threw. */
  lemma {:induction false} HandOversArePaidFor(s: State, steps: seq<Step>, id: MsgId)
    requires IsRun(s, steps)
    ensures HandOvers(s, steps, id) + Credit(End(s, steps), id)
            <= Credit(s, id) + CheckIns(steps, id) + ThrownCheckOuts(s, steps, id)
    decreases |steps|
  {
    if steps != [] {
      CreditStep(s, steps[0], id);
      HandOversArePaidFor(Do(s, steps[0]), steps[1..], id);
    }
  }

  /** However the run goes on, the record is handed over at most once before it is checked in. */
  ghost predicate AtMostOnce(s: State, id: MsgId) {
    forall steps | IsRun(s, steps) ::
      CheckIns(steps, id) == 0 && ThrownCheckOuts(s, steps, id) == 0 ==> HandOvers(s, steps, id) <= 1
  }

  /** Between two check-ins once: exactly unless the record is still held and its row was already
      checked in again. */
  lemma OnceBetweenCheckIns(s: State, id: MsgId)
    requires Sound(s) && !s.halted
    ensures AtMostOnce(s, id) <==> !(HoldsRecord(s.poller, id) && CanCheckOut(s.db, id))
  {
    if HoldsRecord(s.poller, id) && CanCheckOut(s.db, id) {
      var steps := TwoHandOvers(s, id);
    } else {
      forall steps | IsRun(s, steps) && CheckIns(steps, id) == 0 && ThrownCheckOuts(s, steps, id) == 0
        ensures HandOvers(s, steps, id) <= 1
      {
        HandOversArePaidFor(s, steps, id);
      }
    }
  }

  predicate HandsOver(s: State, steps: seq<Step>, id: MsgId, n: nat) {
    IsRun(s, steps) && CheckIns(steps, id) == 0 && ThrownCheckOuts(s, steps, id) == 0 && HandOvers(s, steps, id) == n
  }

  function StepsToReady(p: Poller, clock: int): nat {
    if !p.Holding? then 0 else if p.at - clock <= 2 then 1 else 2
  }

  /** Any other row may be cleaned, the wait ends, and the row is fetched after its record went out. */
  lemma {:induction false} TwoHandOvers(s: State, id: MsgId) returns (steps: seq<Step>)
    requires Issued(s.db, s.issued) && !s.halted && HoldsRecord(s.poller, id) && CanCheckOut(s.db, id)
    ensures HandsOver(s, steps, id, 2)
    decreases |s.db.retries.Keys|, StepsToReady(s.poller, s.clock)
  {
    var step;
    if other :| other in s.db.retries && other != id {
      step := Serve(CleanIntervalRetry(other));
      assert Do(s, step).db.retries.Keys == s.db.retries.Keys - {other};
      steps := TwoHandOvers(Do(s, step), id);
    } else if s.poller.Holding? {
      step := if s.poller.at - s.clock <= 2 then WaitOver else Tick(s.poller.at);
      steps := TwoHandOvers(Do(s, step), id);
    } else {
      step := Submit;
      assert MostUrgent(s.db, id);
      var s1 := Do(s, Submit);
      var s2 := Do(s1, Fetch(id));
      steps := OneHandOver(Do(s2, CheckOut), id);
      steps := HandOverBefore(s2, CheckOut, steps, id, 1);
      steps := HandOverBefore(s1, Fetch(id), steps, id, 1);
    }
    steps := HandOverBefore(s, step, steps, id, if step.Submit? then 1 else 2);
  }

  lemma {:induction false} OneHandOver(s: State, id: MsgId) returns (steps: seq<Step>)
    requires !s.halted && HoldsRecord(s.poller, id)
    ensures HandsOver(s, steps, id, 1)
    decreases StepsToReady(s.poller, s.clock)
  {
    var step;
    if s.poller.Holding? {
      step := if s.poller.at - s.clock <= 2 then WaitOver else Tick(s.poller.at);
      steps := OneHandOver(Do(s, step), id);
    } else {
      step, steps := Submit, [];
    }
    steps := HandOverBefore(s, step, steps, id, if step.Submit? then 0 else 1);
  }

  lemma HandOverBefore(s: State, step: Step, rest: seq<Step>, id: MsgId, n: nat) returns (steps: seq<Step>)
    requires Enabled(s, step) && HandsOver(Do(s, step), rest, id, n)
    requires !ChecksIn(step, id) && !step.CheckOutThrows?
    ensures HandsOver(s, steps, id, n + If(step.Submit? && s.poller.id == id))
  {
    steps := [step] + rest;
    assert steps[1..] == rest;
  }

  /** The record of message 1 is held, due at 1000, when a check-in arrives. */
  const HELD: State := OUT.(poller := Ready(1, 1000))
  const COMING_BACK: Step := Serve(DoIntervalMessageRetry(Message(1, TEXT), 1000, 2))
  const PUT_OFF: State := HELD.(db := Db(map[1 := Retry(TEXT, ToRetry, 2000)], map[]))

  lemma ReachHeld() returns (steps: seq<Step>)
    ensures IsRun(START, steps) && End(START, steps) == HELD
  {
    var first := Serve(DoIntervalMessageRetry(Message(0, TEXT), 0, 1));
    var s1 := Do(START, first);
    assert s1.issued == {1};
    var s2 := Do(s1, Tick(1000));
    assert s2 == OUT.(db := STORED);
    steps := StoredToHeld();
    steps := Prepend(s1, Tick(1000), steps);
    steps := Prepend(START, first, steps);
  }

  lemma StoredToHeld() returns (steps: seq<Step>)
    ensures IsRun(OUT.(db := STORED), steps) && End(OUT.(db := STORED), steps) == HELD
  {
    var s := OUT.(db := STORED);
    var s1 := Do(s, Fetch(1));
    var s2 := Do(s1, CheckOut);
    assert Do(s2, WaitOver) == HELD && IsRun(HELD, []);
    steps := Prepend(s2, WaitOver, []);
    steps := Prepend(s1, CheckOut, steps);
    steps := Prepend(s, Fetch(1), steps);
  }

  lemma ReachPutOff() returns (steps: seq<Step>)
    ensures IsRun(START, steps) && End(START, steps) == PUT_OFF
  {
    var before := ReachHeld();
    assert HELD.issued + {} == HELD.issued;
    assert Do(HELD, COMING_BACK) == PUT_OFF && IsRun(PUT_OFF, []);
    var last := Prepend(HELD, COMING_BACK, []);
    steps := before + last;
    Joined(START, before, last);
  }

  lemma {:induction false} Joined(s: State, a: seq<Step>, b: seq<Step>)
    requires IsRun(s, a) && IsRun(End(s, a), b)
    ensures IsRun(s, a + b) && End(s, a + b) == End(End(s, a), b)
    decreases |a|
  {
    if a == [] {
      assert a + b == b;
    } else {
      assert (a + b)[1..] == a[1..] + b;
      Joined(Do(s, a[0]), a[1..], b);
    }
  }

  /** A check-in that arrives while the record is held can lead to two hand-overs without a
      check-in in between. */
  lemma TwiceAfterEarlyCheckIn() returns (before: seq<Step>, steps: seq<Step>)
    ensures IsRun(START, before) && HandsOver(End(START, before), steps, 1, 2)
  {
    before := ReachPutOff();
    steps := TwoHandOvers(PUT_OFF, 1);
  }

  // ---- not before its time ----

  predicate Timely(s: State) {
    s.poller.Ready? ==> s.poller.at - s.clock <= 2 || s.halted
  }

  predicate HandedInTime(s: State, steps: seq<Step>)
    requires IsRun(s, steps)
    decreases |steps|
  {
    steps == []
    || ((steps[0].Submit? ==> s.poller.at - s.clock <= 2) && HandedInTime(Do(s, steps[0]), steps[1..]))
  }

  /** No record is handed over more than 2 ms before the time it was read with. */
  lemma {:induction false} NeverTooEarly(s: State, steps: seq<Step>)
    requires Timely(s) && IsRun(s, steps)
    ensures HandedInTime(s, steps)
    decreases |steps|
  {
    if steps != [] {
      NeverTooEarly(Do(s, steps[0]), steps[1..]);
    }
  }

  /** The record the thread has read still says what the row says. */
  predicate UpToDate(s: State) {
    !s.poller.Looking? && s.poller.id in s.db.retries ==> s.db.retries[s.poller.id].nextExecAt == s.poller.at
  }

  /** A check-in in the hands of another thread, while the record waits. */
  predicate Overtaken(s: State, step: Step)
    requires Enabled(s, step)
  {
    !s.poller.Looking? && ChecksIn(step, s.poller.id)
  }

  predicate NeverOvertaken(s: State, steps: seq<Step>)
    requires IsRun(s, steps)
    decreases |steps|
  {
    steps == [] || (!Overtaken(s, steps[0]) && NeverOvertaken(Do(s, steps[0]), steps[1..]))
  }

  /** At each hand-over the row, if it is still there, is due as well. */
  predicate RowsDue(s: State, steps: seq<Step>)
    requires IsRun(s, steps)
    decreases |steps|
  {
    steps == []
    || ((steps[0].Submit? && s.poller.id in s.db.retries ==> s.db.retries[s.poller.id].nextExecAt - s.clock <= 2)
        && RowsDue(Do(s, steps[0]), steps[1..]))
  }

  lemma {:induction false} NeverBeforeTheRowIsDue(s: State, steps: seq<Step>)
    requires Timely(s) && UpToDate(s) && IsRun(s, steps) && NeverOvertaken(s, steps)
    ensures RowsDue(s, steps)
    decreases |steps|
  {
    if steps != [] {
      UpToDateStays(s, steps[0]);
      NeverBeforeTheRowIsDue(Do(s, steps[0]), steps[1..]);
    }
  }

  lemma UpToDateStays(s: State, step: Step)
    requires UpToDate(s) && Enabled(s, step) && !Overtaken(s, step)
    ensures UpToDate(Do(s, step))
  {
  }

  /** At each hand-over of `id` its row, if it is still there, is due. */
  predicate RowDue(s: State, steps: seq<Step>, id: MsgId)
    requires IsRun(s, steps)
    decreases |steps|
  {
    steps == []
    || ((steps[0].Submit? && s.poller.id == id && id in s.db.retries ==> s.db.retries[id].nextExecAt - s.clock <= 2)
        && RowDue(Do(s, steps[0]), steps[1..], id))
  }

  ghost predicate AlwaysDue(s: State, id: MsgId) {
    forall steps | IsRun(s, steps) :: CheckIns(steps, id) == 0 ==> RowDue(s, steps, id)
  }

  /** The thread has read the record of `id`, whose row will only be due later than it says. */
  predicate RowIsPutOff(s: State, id: MsgId) {
    && !s.poller.Looking? && s.poller.id == id && id in s.db.retries
    && s.db.retries[id].nextExecAt > Max(s.poller.at, s.clock + 2)
  }

  function Max(a: int, b: int): int {
    if a < b then b else a
  }

  /** However the run goes on without a check-in of `id`, its row is due whenever its record is
      handed over: exactly unless the row is put off already. */
  lemma RowDueExactly(s: State, id: MsgId)
    requires Timely(s) && !s.halted
    ensures AlwaysDue(s, id) <==> !RowIsPutOff(s, id)
  {
    if RowIsPutOff(s, id) {
      var steps := HandOverTooEarly(s, id);
    } else {
      forall steps | IsRun(s, steps) && CheckIns(steps, id) == 0 ensures RowDue(s, steps, id) {
        NotPutOffIsDue(s, steps, id);
      }
    }
  }

  lemma NotPutOffStays(s: State, step: Step, id: MsgId)
    requires Timely(s) && Enabled(s, step) && !ChecksIn(step, id) && !RowIsPutOff(s, id)
    ensures Timely(Do(s, step)) && !RowIsPutOff(Do(s, step), id)
  {
  }

  lemma {:induction false} NotPutOffIsDue(s: State, steps: seq<Step>, id: MsgId)
    requires Timely(s) && !RowIsPutOff(s, id) && IsRun(s, steps) && CheckIns(steps, id) == 0
    ensures RowDue(s, steps, id)
    decreases |steps|
  {
    if steps != [] {
      NotPutOffStays(s, steps[0], id);
      NotPutOffIsDue(Do(s, steps[0]), steps[1..], id);
    }
  }

  lemma {:induction false} HandOverTooEarly(s: State, id: MsgId) returns (steps: seq<Step>)
    requires Timely(s) && !s.halted && RowIsPutOff(s, id)
    ensures IsRun(s, steps) && CheckIns(steps, id) == 0 && !RowDue(s, steps, id)
    decreases if s.poller.Fetched? then 1 else 0, StepsToReady(s.poller, s.clock)
  {
    if s.poller.Ready? {
      assert IsRun(Do(s, Submit), [Submit][1..]);
      steps := [Submit];
    } else {
      var step := if s.poller.Fetched? then CheckOutThrows(false)
                  else if s.poller.at - s.clock <= 2 then WaitOver else Tick(s.poller.at - 2);
      var rest := HandOverTooEarly(Do(s, step), id);
      steps := [step] + rest;
      assert steps[1..] == rest;
    }
  }

  /** Overtaken, the thread hands over a record whose row was put off. */
  lemma RowPutOff() returns (steps: seq<Step>)
    ensures IsRun(START, steps) && !RowsDue(START, steps)
  {
    var before := ReachPutOff();
    assert IsRun(PUT_OFF, [Submit]) && !RowsDue(PUT_OFF, [Submit]);
    Joined(START, before, [Submit]);
    StillNotDue(START, before, [Submit]);
    steps := before + [Submit];
  }

  lemma {:induction false} StillNotDue(s: State, a: seq<Step>, b: seq<Step>)
    requires IsRun(s, a) && IsRun(End(s, a), b) && IsRun(s, a + b) && !RowsDue(End(s, a), b)
    ensures !RowsDue(s, a + b)
    decreases |a|
  {
    if a == [] {
      assert a + b == b;
    } else {
      assert (a + b)[1..] == a[1..] + b;
      StillNotDue(Do(s, a[0]), a[1..], b);
    }
  }
}
