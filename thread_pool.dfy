/**
  * The pool as the source has it: an object whose methods update its fields
  * in place, plus the Thread objects it registers and the process-wide id
  * counter they draw from. Each method is one atomic step (a critical
  * section in submitTask and the worker loop, an unlocked update taken as
  * atomic in the setters, start, FinishTask and BeginShutdown); its requires
  * is the condition on which the thread making the call would have been
  * woken, and its ensures says that the new state is the matching step of
  * PoolSpec applied to the old one, with the invariant kept.
  */
module Pool {
  import opened PoolSpec
  import PoolProperties

  /** The process-wide counter behind the static Thread::generateId_. */
  class ThreadIdCounter {
    var generateId: nat

    constructor ()
      ensures generateId == 0
    {
      generateId := 0;
    }
  }

  /** A worker thread object: it only carries its id (the OS thread is not modelled). */
  class Thread {
    const threadId: int

    /** Takes the counter's value as its id and post-increments the counter. */
    constructor (counter: ThreadIdCounter)
      modifies counter
      ensures threadId == old(counter.generateId)
      ensures counter.generateId == old(counter.generateId) + 1
    {
      threadId := counter.generateId;
      counter.generateId := counter.generateId + 1;
    }
  }

  class ThreadPool {
    var threads: map<int, Thread>
    var initThreadSize: int
    var threadSizeThreshHold: int
    var curThreadSize: int
    var idleThreadSize: int
    var taskQue: seq<TaskId>
    var taskSize: int
    var taskQueMaxThreshHold: int
    var poolMode: PoolMode
    var isPoolRunning: bool
    const counter: ThreadIdCounter

    /** The abstract value of the pool. Besides the fields above it holds the
        bookkeeping kept for the proofs only: which workers are running a
        task, and the histories of pushed and popped tasks. */
    ghost var model: PoolState

    ghost predicate Valid()
      reads this, counter
    {
      && model.mode == poolMode
      && model.running == isPoolRunning
      && model.initThreadSize == initThreadSize
      && model.threadSizeThreshHold == threadSizeThreshHold
      && model.taskQueMaxThreshHold == taskQueMaxThreshHold
      && model.curThreadSize == curThreadSize
      && model.idleThreadSize == idleThreadSize
      && model.taskSize == taskSize
      && model.taskQue == taskQue
      && model.threads == threads.Keys
      && model.generateId == counter.generateId
      && Inv(model)
      && (forall id :: id in threads ==> threads[id].threadId == id)
    }

    /** A new pool: fixed mode, not running, queue capacity 2, at most 1024
        threads, every counter 0, no task and no worker. */
    constructor (counter: ThreadIdCounter)
      ensures Valid() && this.counter == counter
      ensures model == Initial(counter.generateId)
      ensures poolMode == ModeFixed && !isPoolRunning
      ensures taskQueMaxThreshHold == TASK_MAX_THRESHHOLD
      ensures threadSizeThreshHold == THREAD_MAX_THRESHHOLD
      ensures initThreadSize == 0 && curThreadSize == 0 && idleThreadSize == 0 && taskSize == 0
      ensures taskQue == [] && threads == map[]
    {
      threads := map[];
      initThreadSize := 0;
      taskSize := 0;
      idleThreadSize := 0;
      curThreadSize := 0;
      taskQueMaxThreshHold := TASK_MAX_THRESHHOLD;
      threadSizeThreshHold := THREAD_MAX_THRESHHOLD;
      poolMode := ModeFixed;
      isPoolRunning := false;
      this.counter := counter;
      taskQue := [];
      model := Initial(counter.generateId);
      new;
      PoolProperties.InitialSatisfiesInv(counter.generateId);
    }

    method SetMode(mode: PoolMode)
      requires Valid()
      modifies this
      ensures Valid()
      ensures model == PoolSpec.SetMode(old(model), mode)
      ensures old(isPoolRunning) ==> model == old(model)
    {
      if isPoolRunning {
        return;
      }
      poolMode := mode;
      PoolProperties.ConfigPreservesInv(model, CallSetMode(mode));
      model := PoolSpec.SetMode(model, mode);
    }

    method SetTaskQueMaxThreshHold(threshhold: int)
      requires Valid()
      modifies this
      ensures Valid()
      ensures model == PoolSpec.SetTaskQueMaxThreshHold(old(model), threshhold)
      ensures old(isPoolRunning) ==> model == old(model)
    {
      if isPoolRunning {
        return;
      }
      taskQueMaxThreshHold := threshhold;
      PoolProperties.ConfigPreservesInv(model, CallSetTaskQueMaxThreshHold(threshhold));
      model := PoolSpec.SetTaskQueMaxThreshHold(model, threshhold);
    }

    method SetThreadSizeThreshHold(threshhold: int)
      requires Valid()
      modifies this
      ensures Valid()
      ensures model == PoolSpec.SetThreadSizeThreshHold(old(model), threshhold)
      ensures old(isPoolRunning) || old(poolMode) == ModeFixed ==> model == old(model)
    {
      if isPoolRunning {
        return;
      }
      if poolMode == ModeCached {
        threadSizeThreshHold := threshhold;
      }
      PoolProperties.ConfigPreservesInv(model, CallSetThreadSizeThreshHold(threshhold));
      model := PoolSpec.SetThreadSizeThreshHold(model, threshhold);
    }

    /** Registers initThreadSize new workers under ids 0 .. initThreadSize-1
        and counts each one idle as it is started. The second loop looks
        the workers up under the keys 0 .. initThreadSize-1, so the id
        counter must not have moved before. */
    method Start(initThreadSize: nat)
      requires Valid() && counter.generateId == 0
      modifies this, counter
      ensures Valid()
      ensures model == PoolSpec.Start(old(model), initThreadSize)
    {
      assert threads.Keys == {} by { assert forall id :: id in model.threads ==> 0 <= id < 0; }
      Launch(initThreadSize);
      PoolProperties.StartFromZero(model, initThreadSize);
      model := PoolSpec.Start(model, initThreadSize);
    }

    /** start's body on the fields. */
    method Launch(n: nat)
      requires threads.Keys == {} && counter.generateId == 0
      modifies this`isPoolRunning, this`initThreadSize, this`curThreadSize, this`threads, this`idleThreadSize, counter
      ensures isPoolRunning && initThreadSize == n && curThreadSize == n
      ensures counter.generateId == n
      ensures threads.Keys == IdRange(0, n)
      ensures forall id :: id in threads ==> threads[id].threadId == id
      ensures idleThreadSize == old(idleThreadSize) + n
    {
      isPoolRunning := true;
      initThreadSize := n;
      curThreadSize := n;

      CreateThreads(n);
      StartThreads(n);
    }

    /** start's first loop: n new Thread objects, each registered under its own id. */
    method CreateThreads(n: nat)
      requires threads.Keys == {} && counter.generateId == 0
      modifies this`threads, counter
      ensures counter.generateId == n
      ensures threads.Keys == IdRange(0, n)
      ensures forall id :: id in threads ==> threads[id].threadId == id
    {
      var i := 0;
      while i < n
        invariant 0 <= i <= n
        invariant counter.generateId == i
        invariant forall id :: id in threads <==> 0 <= id < i
        invariant forall id :: id in threads ==> threads[id].threadId == id
      {
        var ptr := new Thread(counter);
        var threadId := ptr.threadId;
        threads := threads[threadId := ptr];
        i := i + 1;
      }
      assert threads.Keys == IdRange(0, n);
    }

    /** start's second loop: looks the workers up under the keys 0 .. n-1
        and counts each one idle. */
    method StartThreads(n: nat)
      requires threads.Keys == IdRange(0, n)
      modifies this`idleThreadSize
      ensures idleThreadSize == old(idleThreadSize) + n
    {
      for i := 0 to n
        invariant idleThreadSize == old(idleThreadSize) + i
      {
        var worker := threads[i];  // threads_[i]->start(): the OS thread itself is not modelled
        idleThreadSize := idleThreadSize + 1;
      }
    }

    /** Queues the task unless the queue is at capacity, in which case the
        returned handle already holds a default value; in cached mode one
        worker may be added. */
    method SubmitTask(task: TaskId) returns (result: Handle)
      requires Valid()
      modifies this, counter
      ensures Valid()
      ensures (model, result) == PoolSpec.SubmitTask(old(model), task)
      ensures result == DefaultValue <==> old(|taskQue|) >= SizeT(old(taskQueMaxThreshHold))
    {
      if !(|taskQue| < SizeT(taskQueMaxThreshHold)) {
        return DefaultValue;
      }
      PushTask(task);
      if poolMode == ModeCached
        && taskSize > idleThreadSize
        && curThreadSize < threadSizeThreshHold
      {
        AddThread();
      }
      result := Pending(task);
    }

    /** The accepting half of submitTask: the task goes to the back of the queue. */
    method PushTask(task: TaskId)
      requires Valid() && !QueueFull(model)
      modifies this`taskQue, this`taskSize, this`model
      ensures Valid()
      ensures model == Enqueue(old(model), task)
    {
      PoolProperties.EnqueuePreservesInv(model, task);
      taskQue := taskQue + [task];
      taskSize := taskSize + 1;
      model := Enqueue(model, task);
    }

    /** The cached-mode scale-up in submitTask: one new Thread registered
        under its id, counted both live and idle. */
    method AddThread()
      requires Valid() && ShouldSpawn(model)
      modifies this`threads, this`curThreadSize, this`idleThreadSize, this`model, counter
      ensures Valid()
      ensures model == SpawnWorker(old(model))
    {
      PoolProperties.SpawnWorkerPreservesInv(model);
      var ptr := new Thread(counter);
      var threadId := ptr.threadId;
      threads := threads[threadId := ptr];
      curThreadSize := curThreadSize + 1;
      idleThreadSize := idleThreadSize + 1;
      model := SpawnWorker(model);
    }

    /** Worker w leaves its wait because the queue is not empty and takes
        the task at the front. */
    method Dequeue(w: int) returns (task: TaskId)
      requires Valid() && WorkerIdle(model, w) && |taskQue| > 0
      modifies this
      ensures Valid()
      ensures model == PoolSpec.Dequeue(old(model), w)
      ensures task == old(taskQue[0]) && taskQue == old(taskQue[1..])
    {
      PoolProperties.DequeuePreservesInv(model, w);
      idleThreadSize := idleThreadSize - 1;
      task := taskQue[0];
      taskQue := taskQue[1..];
      taskSize := taskSize - 1;
      model := PoolSpec.Dequeue(model, w);
    }

    /** Worker w has run its task and counts itself idle again. */
    method FinishTask(w: int)
      requires Valid() && w in model.executing
      modifies this
      ensures Valid()
      ensures model == PoolSpec.FinishTask(old(model), w)
      ensures idleThreadSize == old(idleThreadSize) + 1
    {
      PoolProperties.FinishTaskPreservesInv(model, w);
      idleThreadSize := idleThreadSize + 1;
      model := PoolSpec.FinishTask(model, w);
    }

    /** A cached-mode wait of worker w timed out after it had been idle for
        elapsed seconds; reports whether the worker retired. */
    method IdleTimeout(w: int, elapsed: nat) returns (reaped: bool)
      requires Valid() && WorkerIdle(model, w) && poolMode == ModeCached
      modifies this
      ensures Valid()
      ensures model == PoolSpec.IdleTimeout(old(model), w, elapsed)
      ensures reaped <==> elapsed >= THREAD_MAX_IDLE_TIME && old(curThreadSize) > old(initThreadSize)
      ensures reaped ==> w !in threads && curThreadSize >= initThreadSize
    {
      reaped := elapsed >= THREAD_MAX_IDLE_TIME && curThreadSize > initThreadSize;
      if reaped {
        Retire(w);
      }
    }

    /** The retiring branch of a timed-out wait. */
    method Retire(w: int)
      requires Valid() && WorkerIdle(model, w) && curThreadSize > initThreadSize
      modifies this`threads, this`curThreadSize, this`idleThreadSize, this`model
      ensures Valid()
      ensures model == Reap(old(model), w)
    {
      PoolProperties.ReapPreservesInv(model, w);
      threads := threads - {w};
      curThreadSize := curThreadSize - 1;
      idleThreadSize := idleThreadSize - 1;
      model := Reap(model, w);
    }

    /** Worker w found the queue empty and the pool no longer running: it
        erases its id and leaves every counter as it is. */
    method ExitOnShutdown(w: int)
      requires Valid() && WorkerIdle(model, w) && |taskQue| == 0 && !isPoolRunning
      modifies this
      ensures Valid()
      ensures model == PoolSpec.ExitOnShutdown(old(model), w)
      ensures w !in threads && curThreadSize == old(curThreadSize)
    {
      PoolProperties.ExitOnShutdownPreservesInv(model, w);
      threads := threads - {w};
      model := PoolSpec.ExitOnShutdown(model, w);
    }

    /** The destructor's first step; it then waits until AllThreadsExited. */
    method BeginShutdown()
      requires Valid()
      modifies this
      ensures Valid()
      ensures model == PoolSpec.BeginShutdown(old(model))
    {
      isPoolRunning := false;
      model := PoolSpec.BeginShutdown(model);
    }

    /** The condition the destructor waits for: no worker is registered. */
    predicate AllThreadsExited()
      reads this, counter
      ensures Valid() ==> (AllThreadsExited() <==> model.threads == {})
    {
      threads == map[]
    }
  }
}
