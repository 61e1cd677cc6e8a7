/**
  * What the pool's steps promise, one operation at a time, and the invariant
  * Inv that every step keeps, carried over whole runs of the pool.
  */
module PoolProperties {
  import opened PoolSpec

  // ---------------------------------------------------------------------------
  // Counters

  /** The idle counter never goes negative and never exceeds the live thread
      count; while running it counts exactly the registered workers that are
      not running a task. */
  lemma IdleCountBounds(s: PoolState)
    requires Inv(s)
    ensures 0 <= s.idleThreadSize <= s.curThreadSize
    ensures s.idleThreadSize >= |s.threads - s.executing|
    ensures s.running ==> s.idleThreadSize == |s.threads - s.executing|
  {
    assert |s.threads - s.executing| == |s.threads| - |s.executing|;
  }

  lemma InitialSatisfiesInv(generateId: nat)
    ensures Inv(Initial(generateId))
  {
  }

  // ---------------------------------------------------------------------------
  // Configuration

  /** Once the pool runs, no setter changes anything. */
  lemma ConfigFrozenWhileRunning(s: PoolState, mode: PoolMode, threshhold: int)
    requires s.running
    ensures SetMode(s, mode) == s
    ensures SetTaskQueMaxThreshHold(s, threshhold) == s
    ensures SetThreadSizeThreshHold(s, threshhold) == s
  {
  }

  /** In fixed mode the thread maximum never changes, even before start. */
  lemma ThreadSizeThreshHoldOnlyInCachedMode(s: PoolState, threshhold: int)
    ensures s.mode == ModeFixed ==> SetThreadSizeThreshHold(s, threshhold) == s
  {
  }

  lemma ConfigPreservesInv(s: PoolState, e: Event)
    requires Inv(s)
    requires e.CallSetMode? || e.CallSetTaskQueMaxThreshHold? || e.CallSetThreadSizeThreshHold?
    ensures Inv(Next(s, e))
  {
  }

  // ---------------------------------------------------------------------------
  // start

  /** Started from a counter at 0, the registry was empty and ends up
      holding exactly the ids 0 .. n-1. */
  lemma StartFromZero(s: PoolState, n: nat)
    requires Inv(s) && CanStart(s)
    ensures s.threads == {}
    ensures Start(s, n).threads == IdRange(0, n)
    ensures Inv(Start(s, n))
  {
    assert s.threads == {} by {
      forall id | id in s.threads ensures false {
      }
    }
    assert s.curThreadSize == 0;
  }

  /** start marks the pool running, sets both the initial and the live thread
      count to n, registers n ids none of which was registered before, all
      larger than every id handed out earlier, and adds n idle workers. */
  lemma StartRegistersFreshWorkers(s: PoolState, n: nat)
    requires Inv(s) && CanStart(s)
    ensures var r := Start(s, n);
      && r.running && r.initThreadSize == n && r.curThreadSize == n
      && r.idleThreadSize == s.idleThreadSize + n
      && r.threads == s.threads + IdRange(s.generateId, n) == IdRange(0, n)
      && s.threads !! IdRange(s.generateId, n)
      && |r.threads| == |s.threads| + n
      && (forall id :: id in r.threads - s.threads ==> s.generateId <= id < r.generateId)
      && r.taskQue == s.taskQue
      && Inv(r)
  {
    StartFromZero(s, n);
  }

  /** The keys start's second loop looks up (0 .. n-1) are the ids its first
      loop registered exactly when the id counter began at 0. */
  lemma StartLookupNeedsCounterAtZero(generateId: nat, n: nat)
    requires n > 0
    ensures IdRange(0, n) == IdRange(generateId, n) <==> generateId == 0
  {
    if generateId != 0 {
      assert 0 in IdRange(0, n);
    }
  }

  // ---------------------------------------------------------------------------
  // submitTask

  /** A full queue makes submitTask hand back a default value and change
      nothing; otherwise it hands back the future of the queued task. */
  lemma SubmitRejectsWhenFull(s: PoolState, t: TaskId)
    ensures SubmitTask(s, t).1 == DefaultValue <==> QueueFull(s)
    ensures SubmitTask(s, t).1 != DefaultValue ==> SubmitTask(s, t).1 == Pending(t)
    ensures QueueFull(s) ==> SubmitTask(s, t).0 == s
  {
  }

  /** An accepted task goes to the back of the queue, the task counter grows
      by exactly one and the queue stays within its capacity. */
  lemma SubmitAppendsWhenAccepted(s: PoolState, t: TaskId)
    requires !QueueFull(s)
    ensures var r := SubmitTask(s, t).0;
      && r.taskQue == s.taskQue + [t]
      && r.taskSize == s.taskSize + 1
      && |r.taskQue| <= Capacity(r)
  {
  }

  /** A worker is added exactly when the task was accepted in cached mode,
      more tasks are queued than workers are idle and the maximum is not
      reached; the worker gets a fresh id larger than every registered one
      and both the live and the idle count grow by one. */
  lemma SubmitSpawnRule(s: PoolState, t: TaskId)
    requires Inv(s)
    ensures var r := SubmitTask(s, t).0;
      (r.threads != s.threads) <==>
        (!QueueFull(s) && s.mode == ModeCached
         && s.taskSize + 1 > s.idleThreadSize && s.curThreadSize < s.threadSizeThreshHold)
    ensures var r := SubmitTask(s, t).0;
      r.threads != s.threads ==>
        && s.generateId !in s.threads
        && (forall id :: id in s.threads ==> id < s.generateId)
        && r.threads == s.threads + {s.generateId}
        && r.generateId == s.generateId + 1
        && r.curThreadSize == s.curThreadSize + 1
        && r.idleThreadSize == s.idleThreadSize + 1
    ensures var r := SubmitTask(s, t).0;
      r.threads == s.threads ==>
        r.curThreadSize == s.curThreadSize && r.idleThreadSize == s.idleThreadSize
  {
    var r := SubmitTask(s, t).0;
    if !QueueFull(s) && ShouldSpawn(Enqueue(s, t)) {
      assert s.generateId in r.threads;
    }
  }

  /** In fixed mode submitTask leaves the workers alone. */
  lemma FixedSubmitKeepsWorkers(s: PoolState, t: TaskId)
    requires s.mode == ModeFixed
    ensures var r := SubmitTask(s, t).0;
      r.curThreadSize == s.curThreadSize && r.idleThreadSize == s.idleThreadSize
      && r.threads == s.threads
  {
  }

  /** submitTask never takes the live thread count past the maximum. */
  lemma SubmitKeepsThreadBound(s: PoolState, t: TaskId)
    requires s.curThreadSize <= s.threadSizeThreshHold
    ensures var r := SubmitTask(s, t).0; r.curThreadSize <= r.threadSizeThreshHold
  {
  }

  lemma EnqueuePreservesInv(s: PoolState, t: TaskId)
    requires Inv(s)
    ensures Inv(Enqueue(s, t))
  {
    assert Enqueue(s, t).accepted == s.dispatched + (s.taskQue + [t]);
  }

  lemma SpawnWorkerPreservesInv(s: PoolState)
    requires Inv(s) && ShouldSpawn(s)
    ensures Inv(SpawnWorker(s))
  {
    assert s.generateId !in s.threads;
    assert |s.threads + {s.generateId}| == |s.threads| + 1;
  }

  lemma SubmitPreservesInv(s: PoolState, t: TaskId)
    requires Inv(s)
    ensures Inv(SubmitTask(s, t).0)
  {
    if !QueueFull(s) {
      EnqueuePreservesInv(s, t);
      if ShouldSpawn(Enqueue(s, t)) {
        SpawnWorkerPreservesInv(Enqueue(s, t));
      }
    }
  }

  // ---------------------------------------------------------------------------
  // Worker steps

  /** A worker takes the task at the front of the queue; the task and idle
      counters both drop by one and the idle counter stays non-negative. */
  lemma DequeueTakesFront(s: PoolState, w: int)
    requires Inv(s) && Enabled(s, WorkerDequeue(w))
    ensures var r := Dequeue(s, w);
      && r.taskQue == s.taskQue[1..]
      && r.dispatched == s.dispatched + [s.taskQue[0]]
      && r.taskSize == s.taskSize - 1 == |r.taskQue|
      && r.idleThreadSize == s.idleThreadSize - 1 >= 0
      && w in r.executing
  {
    DequeuePreservesInv(s, w);
    IdleCountBounds(Dequeue(s, w));
  }

  lemma DequeuePreservesInv(s: PoolState, w: int)
    requires Inv(s) && Enabled(s, WorkerDequeue(w))
    ensures Inv(Dequeue(s, w))
  {
    assert s.taskQue == [s.taskQue[0]] + s.taskQue[1..];
    assert |s.executing + {w}| == |s.executing| + 1;
    assert s.executing + {w} <= s.threads;
  }

  /** After its task a worker is idle again and counted as such. */
  lemma FinishTaskMakesWorkerIdle(s: PoolState, w: int)
    requires Inv(s) && Enabled(s, WorkerFinishTask(w))
    ensures var r := FinishTask(s, w);
      && r.idleThreadSize == s.idleThreadSize + 1
      && WorkerIdle(r, w)
      && r.idleThreadSize <= r.curThreadSize
      && r.taskQue == s.taskQue && r.threads == s.threads
  {
    FinishTaskPreservesInv(s, w);
    IdleCountBounds(FinishTask(s, w));
  }

  lemma FinishTaskPreservesInv(s: PoolState, w: int)
    requires Inv(s) && Enabled(s, WorkerFinishTask(w))
    ensures Inv(FinishTask(s, w))
  {
    assert |s.executing - {w}| == |s.executing| - 1;
  }

  /** A timed-out wait retires the worker exactly when it has been idle for
      THREAD_MAX_IDLE_TIME seconds and there are more live threads than the
      initial count; it then deregisters the worker, both counters drop by
      one, and the live count never falls below the initial count. */
  lemma IdleTimeoutReapRule(s: PoolState, w: int, elapsed: nat)
    requires Inv(s) && Enabled(s, WorkerIdleTimeout(w, elapsed))
    ensures var r := IdleTimeout(s, w, elapsed);
      (r != s) <==> (elapsed >= THREAD_MAX_IDLE_TIME && s.curThreadSize > s.initThreadSize)
    ensures var r := IdleTimeout(s, w, elapsed);
      r != s ==>
        && r.threads == s.threads - {w}
        && r.curThreadSize == s.curThreadSize - 1
        && r.idleThreadSize == s.idleThreadSize - 1
        && r.curThreadSize >= r.initThreadSize
  {
    if IdleExpired(s, elapsed) {
      assert w !in IdleTimeout(s, w, elapsed).threads;
    }
  }

  lemma ReapPreservesInv(s: PoolState, w: int)
    requires Inv(s) && WorkerIdle(s, w) && s.curThreadSize > s.initThreadSize
    ensures Inv(Reap(s, w))
  {
    assert |s.threads - {w}| == |s.threads| - 1;
  }

  lemma IdleTimeoutPreservesInv(s: PoolState, w: int, elapsed: nat)
    requires Inv(s) && Enabled(s, WorkerIdleTimeout(w, elapsed))
    ensures Inv(IdleTimeout(s, w, elapsed))
  {
    if IdleExpired(s, elapsed) {
      ReapPreservesInv(s, w);
    }
  }

  /** A worker leaves on shutdown only once every accepted task has been
      handed to a worker; it erases its id and leaves every counter alone. */
  lemma ShutdownExitOnlyWhenDrained(s: PoolState, w: int)
    requires Inv(s) && Enabled(s, WorkerExitOnShutdown(w))
    ensures s.dispatched == s.accepted
    ensures var r := ExitOnShutdown(s, w);
      && r.threads == s.threads - {w} && w !in r.threads
      && r.curThreadSize == s.curThreadSize
      && r.idleThreadSize == s.idleThreadSize
      && r.taskSize == s.taskSize == 0
  {
  }

  lemma ExitOnShutdownPreservesInv(s: PoolState, w: int)
    requires Inv(s) && Enabled(s, WorkerExitOnShutdown(w))
    ensures Inv(ExitOnShutdown(s, w))
  {
    assert |s.threads - {w}| == |s.threads| - 1;
  }

  /** Once the pool is stopped, the queue is drained and no worker is running
      a task, the registered workers can leave one by one until the registry
      is empty: the wait that ends the destructor can finish. */
  lemma {:induction false} ShutdownCanEmptyRegistry(s: PoolState) returns (es: seq<Event>)
    requires !s.running && s.taskQue == [] && s.executing == {}
    ensures ValidTrace(s, es) && Run(s, es).threads == {}
    ensures |es| == |s.threads|
    ensures forall i :: 0 <= i < |es| ==> es[i].WorkerExitOnShutdown?
    decreases |s.threads|
  {
    if |s.threads| == 0 {
      es := [];
    } else {
      if forall id :: id !in s.threads {
        assert false;  // a set with no member is empty
      }
      var w :| w in s.threads;
      var next := ExitOnShutdown(s, w);
      assert |next.threads| == |s.threads| - 1;
      var rest := ShutdownCanEmptyRegistry(next);
      es := [WorkerExitOnShutdown(w)] + rest;
      assert es[1..] == rest;
    }
  }

  // ---------------------------------------------------------------------------
  // Every step, every run

  lemma NextPreservesInv(s: PoolState, e: Event)
    requires Inv(s) && Enabled(s, e)
    ensures Inv(Next(s, e))
  {
    match e
    case CallSetMode(_) => ConfigPreservesInv(s, e);
    case CallSetTaskQueMaxThreshHold(_) => ConfigPreservesInv(s, e);
    case CallSetThreadSizeThreshHold(_) => ConfigPreservesInv(s, e);
    case CallStart(n) => StartRegistersFreshWorkers(s, n);
    case CallSubmitTask(t) => SubmitPreservesInv(s, t);
    case WorkerDequeue(w) => DequeuePreservesInv(s, w);
    case WorkerFinishTask(w) => FinishTaskPreservesInv(s, w);
    case WorkerIdleTimeout(w, elapsed) => IdleTimeoutPreservesInv(s, w, elapsed);
    case WorkerExitOnShutdown(w) => ExitOnShutdownPreservesInv(s, w);
    case Shutdown =>
  }

  lemma {:induction false} RunPreservesInv(s: PoolState, es: seq<Event>)
    requires Inv(s) && ValidTrace(s, es)
    ensures Inv(Run(s, es))
    decreases |es|
  {
    if es != [] {
      NextPreservesInv(s, es[0]);
      RunPreservesInv(Next(s, es[0]), es[1..]);
    }
  }

  /** Whatever a constructed pool goes through: the task counter is the queue
      length, tasks reach workers in the order they were accepted and each at
      most once, the idle count lies between 0 and the live count, registered
      ids lie below the counter, a running pool has as many registered
      workers as live threads, and a running cached pool whose initial count
      does not exceed its maximum stays within the maximum. */
  lemma ReachableStateProperties(generateId: nat, es: seq<Event>)
    requires ValidTrace(Initial(generateId), es)
    ensures var r := Run(Initial(generateId), es);
      && r.taskSize == |r.taskQue|
      && |r.dispatched| <= |r.accepted|
      && r.dispatched == r.accepted[..|r.dispatched|]
      && r.accepted[|r.dispatched|..] == r.taskQue
      && 0 <= r.idleThreadSize <= r.curThreadSize
      && (forall id :: id in r.threads ==> 0 <= id < r.generateId)
      && (r.running ==> |r.threads| == r.curThreadSize)
      && (r.running && r.mode == ModeCached && r.initThreadSize <= r.threadSizeThreshHold
          ==> r.curThreadSize <= r.threadSizeThreshHold)
  {
    InitialSatisfiesInv(generateId);
    RunPreservesInv(Initial(generateId), es);
    var r := Run(Initial(generateId), es);
    IdleCountBounds(r);
    assert r.accepted == r.dispatched + r.taskQue;
  }

  /** A running pool in fixed mode keeps its live thread count, its mode and
      its running flag through anything but another start or a shutdown;
      setMode calls are allowed and ignored. */
  lemma {:induction false} FixedPoolKeepsThreadCount(s: PoolState, es: seq<Event>)
    requires ValidTrace(s, es) && s.running && s.mode == ModeFixed
    requires forall i :: 0 <= i < |es| ==> !es[i].CallStart? && !es[i].Shutdown?
    ensures Run(s, es).curThreadSize == s.curThreadSize
    ensures Run(s, es).running
    ensures Run(s, es).mode == ModeFixed
    decreases |es|
  {
    if es != [] {
      var next := Next(s, es[0]);
      assert next.curThreadSize == s.curThreadSize && next.running && next.mode == ModeFixed;
      FixedPoolKeepsThreadCount(next, es[1..]);
    }
  }

  /** The id counter only moves up, so an id once handed out is never handed
      out again, even after its worker retired or exited. */
  lemma {:induction false} CounterNeverDecreases(s: PoolState, es: seq<Event>)
    requires ValidTrace(s, es)
    ensures Run(s, es).generateId >= s.generateId
    decreases |es|
  {
    if es != [] {
      var next := Next(s, es[0]);
      assert next.generateId >= s.generateId;
      CounterNeverDecreases(next, es[1..]);
    }
  }

  /** While the pool runs and is not shut down, a queue within its capacity
      stays within it, whatever happens. */
  lemma {:induction false} RunningQueueStaysBounded(s: PoolState, es: seq<Event>)
    requires ValidTrace(s, es) && s.running && |s.taskQue| <= Capacity(s)
    requires forall i :: 0 <= i < |es| ==> !es[i].Shutdown?
    ensures Run(s, es).running
    ensures |Run(s, es).taskQue| <= Capacity(Run(s, es))
    decreases |es|
  {
    if es != [] {
      var next := Next(s, es[0]);
      assert next.running && Capacity(next) == Capacity(s);
      assert |next.taskQue| <= Capacity(next);
      RunningQueueStaysBounded(next, es[1..]);
    }
  }
}
