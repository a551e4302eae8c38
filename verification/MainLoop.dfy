/** The main loop of a scheduler thread, statement by statement, among whatever the other threads
    do between its atomic blocks: every step it takes is one the transition system allows. */
module MainLoop {
  import opened SchedulerThreads

  lemma {:induction false} RunSnoc(s: State, steps: seq<Step>, step: Step)
    requires WellFormed(s) && IsRun(s, steps) && Enabled(End(s, steps), step)
    ensures IsRun(s, steps + [step]) && End(s, steps + [step]) == Do(End(s, steps), step)
    decreases |steps|
  {
    if steps == [] {
      assert [step][1..] == [];
    } else {
      assert (steps + [step])[1..] == steps[1..] + [step];
      RunSnoc(Do(s, steps[0]), steps[1..], step);
    }
  }

  class PollTaskSchedulerThread {
    const i: Id
    /** What the task will be, and whether the wait for its time throws, at a moment of the run. */
    const construct: nat -> Outcome
    const fails: nat -> bool
    /** What the other threads try in between; a step that is not possible does not happen. */
    var env: seq<seq<Step>>
    /** Everything the threads share. */
    var world: State
    ghost const first: State
    ghost var trace: seq<Step>

    ghost predicate Valid()
      reads this
    {
      Inv(first) && IsRun(first, trace) && world == End(first, trace) && Inv(world)
    }

    constructor (i: Id, construct: nat -> Outcome, fails: nat -> bool, env: seq<seq<Step>>, world: State)
      requires Inv(world)
      ensures Valid() && this.i == i && this.world == first == world && trace == []
      ensures this.construct == construct && this.fails == fails && this.env == env
    {
      this.i, this.construct, this.fails, this.env, this.world := i, construct, fails, env, world;
      this.first, this.trace := world, [];
    }

    function Place(): Pc
      requires WellFormed(world)
      reads this
    {
      world.threads[i].pc
    }

    method Act(step: Step)
      requires Valid() && Enabled(world, step)
      modifies this`world, this`trace
      ensures Valid() && Place() == Do(old(world), step).threads[i].pc && trace == old(trace) + [step]
    {
      RunSnoc(first, trace, step);
      InvStep(world, step);
      world := Do(world, step);
      trace := trace + [step];
    }

    /** The other threads go on; false when the run is over. */
    method Others() returns (more: bool)
      requires Valid()
      modifies this`env, this`world, this`trace
      ensures Valid() && Place() == old(Place()) && old(trace) <= trace
      ensures if more then |env| < |old(env)| else env == []
    {
      if env == [] {
        return false;
      }
      var steps := env[0];
      env := env[1..];
      for k := 0 to |steps|
        invariant Valid() && Place() == old(Place()) && old(trace) <= trace
        invariant env == old(env)[1..]
      {
        if Enabled(world, steps[k]) && !Own(i, steps[k]) {
          OthersKeepPlace(world, steps[k], i);
          Act(steps[k]);
        }
      }
      return true;
    }

    /** `while(!dependentSchedulerThread.hasExecutedOnce())`; this wait does not look at `halted`. */
    method AwaitDependentRound() returns (more: bool)
      requires Valid()
      modifies this`env, this`world, this`trace
      ensures Valid() && Place() == old(Place()) && old(trace) <= trace && |env| <= |old(env)|
      ensures if more then world.threads[EXCEPTION_QUEUE].once else env == []
    {
      more := true;
      while !world.threads[EXCEPTION_QUEUE].once
        invariant Valid() && Place() == old(Place()) && old(trace) <= trace && |env| <= |old(env)|
        decreases |env|
      {
        more := Others();
        if !more {
          return;
        }
      }
      more := true;
    }

    /** `while (paused && !halted.get())` */
    method AwaitUnpausedOrHalted() returns (more: bool)
      requires Valid()
      modifies this`env, this`world, this`trace
      ensures Valid() && Place() == old(Place()) && old(trace) <= trace && |env| <= |old(env)|
      ensures if more then !world.threads[i].paused || world.threads[i].halted else env == []
    {
      more := true;
      while world.threads[i].paused && !world.threads[i].halted
        invariant Valid() && Place() == old(Place()) && old(trace) <= trace && |env| <= |old(env)|
        decreases |env|
      {
        more := Others();
        if !more {
          return;
        }
      }
      more := true;
    }

    /** `while((availWorkers.size() < 1 || handoffPending) && !isShutdown)`; no hand-off is pending,
        as this thread is the only one that uses its pool. */
    method AwaitAvailableWorker() returns (more: bool)
      requires Valid()
      modifies this`env, this`world, this`trace
      ensures Valid() && Place() == old(Place()) && old(trace) <= trace && |env| <= |old(env)|
      ensures if more then world.pools[i].avail >= 1 || world.pools[i].closed else env == []
    {
      more := true;
      while world.pools[i].avail < 1 && !world.pools[i].closed
        invariant Valid() && Place() == old(Place()) && old(trace) <= trace && |env| <= |old(env)|
        decreases |env|
      {
        more := Others();
        if !more {
          return;
        }
      }
      more := true;
    }

    /** `run`: until the thread is dead, or the run is over. */
    method Run()
      requires Valid() && Place() == LoopTest
      modifies this`env, this`world, this`trace
      ensures Valid() && old(trace) <= trace
      ensures Place() == Dead || env == []
    {
      var more := true;
      while more
        invariant Valid() && old(trace) <= trace
        invariant if more then Place() == LoopTest else Place() == Dead || env == []
        decreases more, |env|
      {
        more := Others();
        if more {
          more := Round();
        }
      }
    }

    /** One turn of the loop; false when it was the last. */
    method Round() returns (more: bool)
      requires Valid() && Place() == LoopTest
      modifies this`env, this`world, this`trace
      ensures Valid() && old(trace) <= trace && |env| <= |old(env)|
      ensures if more then Place() == LoopTest else Place() == Dead || env == []
    {
      more := PassLoopTest();
      if more {
        more := PassPause();
        if more {
          var availThreadCount;
          more, availThreadCount := PassPool();
          if more && availThreadCount > 0 {
            ExecuteTask();
          }
        }
      }
    }

    /** The test of the loop, and the wait for the thread this one depends on. */
    method PassLoopTest() returns (more: bool)
      requires Valid() && Place() == LoopTest
      modifies this`env, this`world, this`trace
      ensures Valid() && old(trace) <= trace && |env| <= |old(env)|
      ensures if more then Place() == AwaitUnpaused else Place() == Dead || env == []
    {
      var halted := world.threads[i].halted;
      Act(Test(i));
      if halted {
        return false;
      }
      more := true;
      if i == HOUSE_KEEP {
        var _ := Others();
        more := AwaitDependentRound();
        if more {
          Act(DependentDone(i));
        }
      }
    }

    /** The wait while paused; a halt ends it, and the thread. */
    method PassPause() returns (more: bool)
      requires Valid() && Place() == AwaitUnpaused
      modifies this`env, this`world, this`trace
      ensures Valid() && old(trace) <= trace && |env| <= |old(env)|
      ensures if more then Place() == AwaitWorker else Place() == Dead || env == []
    {
      var _ := Others();
      more := AwaitUnpausedOrHalted();
      if more {
        more := !world.threads[i].halted;
        Act(PauseOver(i));
      }
    }

    /** blockForAvailableThreads: none when the pool is closed. */
    method PassPool() returns (more: bool, availThreadCount: nat)
      requires Valid() && Place() == AwaitWorker
      modifies this`env, this`world, this`trace
      ensures Valid() && old(trace) <= trace && |env| <= |old(env)|
      ensures if more then Place() == (if availThreadCount > 0 then Constructing else LoopTest) else env == []
    {
      var _ := Others();
      more := AwaitAvailableWorker();
      availThreadCount := world.pools[i].avail;
      if more {
        Act(WorkerFree(i));
      }
    }

    method ExecuteTask()
      requires Valid() && Place() == Constructing
      modifies this`env, this`world, this`trace
      ensures Valid() && Place() == LoopTest && old(trace) <= trace && |env| <= |old(env)|
    {
      var _ := Others();
      var outcome := construct(|env|);
      Act(Construct(i, outcome));
      if outcome == Found {
        SubmitTask();
      } else if outcome == Nothing {
        IdleAfterTask();
      }
    }

    method IdleAfterTask()
      requires Valid() && Place() == SignallingIdle
      modifies this`env, this`world, this`trace
      ensures Valid() && Place() == LoopTest && old(trace) <= trace && |env| <= |old(env)|
    {
      var _ := Others();
      Act(Signal(i));
      var _ := Others();
      Act(IdleOver(i));
    }

    method SubmitTask()
      requires Valid() && Place() == Timing
      modifies this`env, this`world, this`trace
      ensures Valid() && Place() == LoopTest && old(trace) <= trace && |env| <= |old(env)|
    {
      var _ := Others();
      var throws := fails(|env|);
      Act(TimeReached(i, throws));
      if !throws {
        RunUnlessHalted();
        var _ := Others();
        Act(Signal(i));
      }
    }

    method RunUnlessHalted()
      requires Valid() && Place() == GoAheadTest
      modifies this`env, this`world, this`trace
      ensures Valid() && Place() == Signalling && old(trace) <= trace && |env| <= |old(env)|
    {
      var _ := Others();
      var goAhead := !world.threads[i].halted;
      Act(GoAhead(i));
      if goAhead {
        RunTask();
      }
    }

    /** runInThread, for which there is always a worker, or the pool is closed. */
    method RunTask()
      requires Valid() && Place() == Submitting
      modifies this`env, this`world, this`trace
      ensures Valid() && Place() == Signalling && old(trace) <= trace && |env| <= |old(env)|
    {
      var _ := Others();
      assert PoolKept(world, i);
      Act(RunInThread(i));
    }
  }
}
