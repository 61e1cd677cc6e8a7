/**
  * The bookkeeping of the thread pool as a value and its atomic steps.
  *
  * The queue, the registry and the counters change either inside a
  * critical section (under taskQueMtx_) or, in the setters, start, the
  * destructor's clearing of the running flag and the idle count's increment
  * after a task, without any lock; every such change is taken as atomic
  * here. So the state seen between two steps is a PoolState and every step
  * is one transition below. A step's enabling condition is the condition on which
  * the thread taking it would have been woken up. Besides the source's own
  * fields the state keeps three pieces of bookkeeping that only exist to
  * state properties: which workers are running a task (each worker thread's
  * position in its loop), the tasks ever accepted and the tasks ever handed
  * to a worker, both in order.
  */
module PoolSpec {

  /** Default capacity of the task queue (TASK_MAX_THRESHHOLD). */
  const TASK_MAX_THRESHHOLD: int := 2
  /** Default maximum number of threads in cached mode (THREAD_MAX_THRESHHOLD). */
  const THREAD_MAX_THRESHHOLD: int := 1024
  /** Seconds a cached-mode worker may stay idle before it may retire (THREAD_MAX_IDLE_TIME). */
  const THREAD_MAX_IDLE_TIME: nat := 60
  /** A size_t holds 64 bits. */
  const SIZE_T_MODULUS: nat := 0x1_0000_0000_0000_0000

  datatype PoolMode = ModeFixed | ModeCached

  /** A task is opaque to the pool: the submitter names it by a number. */
  type TaskId = nat

  /** What submitTask returns: the future of the queued task, or a future
      that already holds a default-constructed value (the rejection signal). */
  datatype Handle = Pending(task: TaskId) | DefaultValue

  datatype PoolState = PoolState(
    mode: PoolMode,
    running: bool,
    initThreadSize: int,
    threadSizeThreshHold: int,
    taskQueMaxThreshHold: int,
    curThreadSize: int,
    idleThreadSize: int,
    taskSize: int,
    taskQue: seq<TaskId>,
    threads: set<int>,         // the keys of the threads_ registry
    generateId: int,           // the process-wide next thread id
    executing: set<int>,       // workers between taking a task and finishing it
    accepted: seq<TaskId>,     // every task ever pushed, in push order
    dispatched: seq<TaskId>)   // every task ever popped, in pop order

  function Max(a: int, b: int): int { if a < b then b else a }

  /** The conversion (size_t)x: modulo 2^64, so a negative capacity becomes huge. */
  function SizeT(x: int): nat { x % SIZE_T_MODULUS }

  /** The bound that submitTask compares the queue length against. */
  function Capacity(s: PoolState): nat { SizeT(s.taskQueMaxThreshHold) }

  /** The ids in [lo, lo + n): the ids handed out by n consecutive thread constructions. */
  function IdRange(lo: int, n: nat): (r: set<int>)
    ensures |r| == n
    ensures forall id :: id in r <==> lo <= id < lo + n
  {
    if n == 0 then {} else IdRange(lo, n - 1) + {lo + n - 1}
  }

  // ---------------------------------------------------------------------------
  // The state a pool is constructed in, and its invariant

  /** A freshly constructed pool; generateId is whatever the process-wide counter holds. */
  function Initial(generateId: nat): PoolState
  {
    PoolState(ModeFixed, false, 0, THREAD_MAX_THRESHHOLD, TASK_MAX_THRESHHOLD,
              0, 0, 0, [], {}, generateId, {}, [], [])
  }

  /** What holds between any two critical sections. */
  ghost predicate Inv(s: PoolState)
  {
    && s.generateId >= 0
    && s.taskSize == |s.taskQue|
    && s.accepted == s.dispatched + s.taskQue
    && (forall id :: id in s.threads ==> 0 <= id < s.generateId)
    && s.executing <= s.threads
    && s.idleThreadSize + |s.executing| == s.curThreadSize
    && |s.threads| <= s.curThreadSize <= s.generateId
    && (s.running ==> |s.threads| == s.curThreadSize)
    && (s.running && s.mode == ModeCached ==>
          s.curThreadSize <= Max(s.initThreadSize, s.threadSizeThreshHold))
    && (s.running && s.mode == ModeFixed ==> s.curThreadSize == s.initThreadSize)
  }

  /** A worker that is registered and waiting for work rather than running a task. */
  predicate WorkerIdle(s: PoolState, w: int)
  {
    w in s.threads && w !in s.executing
  }

  // ---------------------------------------------------------------------------
  // Configuration

  function SetMode(s: PoolState, mode: PoolMode): PoolState
  {
    if s.running then s else s.(mode := mode)
  }

  function SetTaskQueMaxThreshHold(s: PoolState, threshhold: int): PoolState
  {
    if s.running then s else s.(taskQueMaxThreshHold := threshhold)
  }

  function SetThreadSizeThreshHold(s: PoolState, threshhold: int): PoolState
  {
    if s.running then s
    else if s.mode == ModeCached then s.(threadSizeThreshHold := threshhold)
    else s
  }

  // ---------------------------------------------------------------------------
  // start

  /** start looks its new threads up under the keys 0 .. n-1, which are the
      ids it created only when the process-wide counter was still 0. */
  predicate CanStart(s: PoolState)
  {
    s.generateId == 0
  }

  function Start(s: PoolState, initThreadSize: nat): PoolState
  {
    s.(running := true,
       initThreadSize := initThreadSize,
       curThreadSize := initThreadSize,
       threads := s.threads + IdRange(s.generateId, initThreadSize),
       generateId := s.generateId + initThreadSize,
       idleThreadSize := s.idleThreadSize + initThreadSize)
  }

  // ---------------------------------------------------------------------------
  // submitTask

  predicate QueueFull(s: PoolState)
  {
    |s.taskQue| >= Capacity(s)
  }

  function Enqueue(s: PoolState, task: TaskId): PoolState
  {
    s.(taskQue := s.taskQue + [task],
       taskSize := s.taskSize + 1,
       accepted := s.accepted + [task])
  }

  /** The cached-mode scale-up test, made after the task is queued. */
  predicate ShouldSpawn(s: PoolState)
  {
    s.mode == ModeCached
    && s.taskSize > s.idleThreadSize
    && s.curThreadSize < s.threadSizeThreshHold
  }

  /** One new worker under the next id of the process-wide counter. */
  function SpawnWorker(s: PoolState): PoolState
  {
    s.(threads := s.threads + {s.generateId},
       generateId := s.generateId + 1,
       curThreadSize := s.curThreadSize + 1,
       idleThreadSize := s.idleThreadSize + 1)
  }

  function SubmitTask(s: PoolState, task: TaskId): (PoolState, Handle)
  {
    if QueueFull(s) then (s, DefaultValue)
    else
      var queued := Enqueue(s, task);
      (if ShouldSpawn(queued) then SpawnWorker(queued) else queued, Pending(task))
  }

  // ---------------------------------------------------------------------------
  // The steps of a worker's loop (threadFunc)

  /** Leaving the wait with a non-empty queue: take the front task. */
  function Dequeue(s: PoolState, w: int): PoolState
    requires s.taskQue != []
  {
    s.(idleThreadSize := s.idleThreadSize - 1,
       taskQue := s.taskQue[1..],
       taskSize := s.taskSize - 1,
       executing := s.executing + {w},
       dispatched := s.dispatched + [s.taskQue[0]])
  }

  /** Back from running the task. */
  function FinishTask(s: PoolState, w: int): PoolState
  {
    s.(idleThreadSize := s.idleThreadSize + 1, executing := s.executing - {w})
  }

  /** The reaping test made when a cached-mode wait times out. */
  predicate IdleExpired(s: PoolState, elapsed: nat)
  {
    elapsed >= THREAD_MAX_IDLE_TIME && s.curThreadSize > s.initThreadSize
  }

  /** An idle worker retires: its id leaves the registry and it is no longer
      counted, neither live nor idle. */
  function Reap(s: PoolState, w: int): PoolState
  {
    s.(threads := s.threads - {w},
       curThreadSize := s.curThreadSize - 1,
       idleThreadSize := s.idleThreadSize - 1)
  }

  /** A cached-mode wait timed out after the worker had been idle elapsed seconds. */
  function IdleTimeout(s: PoolState, w: int, elapsed: nat): PoolState
  {
    if IdleExpired(s, elapsed) then Reap(s, w) else s
  }

  /** The queue is empty and the pool is no longer running: the worker leaves. */
  function ExitOnShutdown(s: PoolState, w: int): PoolState
  {
    s.(threads := s.threads - {w})
  }

  /** The first thing the destructor does. */
  function BeginShutdown(s: PoolState): PoolState
  {
    s.(running := false)
  }

  // ---------------------------------------------------------------------------
  // All steps together

  datatype Event =
    | CallSetMode(mode: PoolMode)
    | CallSetTaskQueMaxThreshHold(threshhold: int)
    | CallSetThreadSizeThreshHold(threshhold: int)
    | CallStart(initThreadSize: nat)
    | CallSubmitTask(task: TaskId)
    | WorkerDequeue(worker: int)
    | WorkerFinishTask(worker: int)
    | WorkerIdleTimeout(worker: int, elapsed: nat)
    | WorkerExitOnShutdown(worker: int)
    | Shutdown

  predicate Enabled(s: PoolState, e: Event)
  {
    match e
    case CallStart(_) => CanStart(s)
    case WorkerDequeue(w) => WorkerIdle(s, w) && s.taskQue != []
    case WorkerFinishTask(w) => w in s.executing
    case WorkerIdleTimeout(w, _) => WorkerIdle(s, w) && s.mode == ModeCached
    case WorkerExitOnShutdown(w) => WorkerIdle(s, w) && s.taskQue == [] && !s.running
    case _ => true
  }

  function Next(s: PoolState, e: Event): PoolState
    requires Enabled(s, e)
  {
    match e
    case CallSetMode(mode) => SetMode(s, mode)
    case CallSetTaskQueMaxThreshHold(n) => SetTaskQueMaxThreshHold(s, n)
    case CallSetThreadSizeThreshHold(n) => SetThreadSizeThreshHold(s, n)
    case CallStart(n) => Start(s, n)
    case CallSubmitTask(t) => SubmitTask(s, t).0
    case WorkerDequeue(w) => Dequeue(s, w)
    case WorkerFinishTask(w) => FinishTask(s, w)
    case WorkerIdleTimeout(w, elapsed) => IdleTimeout(s, w, elapsed)
    case WorkerExitOnShutdown(w) => ExitOnShutdown(s, w)
    case Shutdown => BeginShutdown(s)
  }

  /** Every event of es is enabled in the state the previous ones lead to. */
  predicate ValidTrace(s: PoolState, es: seq<Event>)
    decreases |es|
  {
    es == [] || (Enabled(s, es[0]) && ValidTrace(Next(s, es[0]), es[1..]))
  }

  function Run(s: PoolState, es: seq<Event>): PoolState
    requires ValidTrace(s, es)
    decreases |es|
  {
    if es == [] then s else Run(Next(s, es[0]), es[1..])
  }
}
