# Thread pool bookkeeping, modelled and verified in Dafny

The thread pool keeps a bounded FIFO queue of tasks and a registry of worker
threads keyed by thread id. It also keeps three live counters: tasks queued
(`taskSize_`), live threads (`curThreadSize_`) and idle threads
(`idleThreadSize_`). It runs in fixed mode (a constant number of workers) or
cached mode. Cached mode adds a worker when tasks outnumber idle workers and
retires a worker that stayed idle for 60 seconds. Configuration
(`setMode`, `setTaskQueMaxThreshHold`, `setThreadSizeThreshHold`) is frozen
once `start` has run.

The queue, the registry and the counters change either inside a critical
section under `taskQueMtx_` (`submitTask` and the worker loop) or, for the
operations listed under "Left out", without any lock. The model treats every
one of these changes as an atomic step: the state between two steps is a
value, and each step is a transition. That is the model:

- `pool_spec.dfy`, module `PoolSpec`:
  - the state `PoolState` and one function per atomic step
    (`SetMode`, `Start`, `SubmitTask`, `Dequeue`, `FinishTask`, `IdleTimeout`,
    `ExitOnShutdown`, `BeginShutdown`, …);
  - the invariant `Inv`;
  - `Enabled`, the condition on which the thread taking a step would have
    been woken;
  - `Run`, which applies a sequence of events.
- `pool_properties.dfy`, module `PoolProperties`: lemmas about every step and
  about every run from a freshly constructed pool.
- `thread_pool.dfy`, module `Pool`, the classes as the source has them:
  - `ThreadPool`: the source's fields, which its methods update in place, and
    a ghost field `model`. `Valid()` ties every real field to `model` and
    requires `Inv(model)`. Each method ensures that the new `model` is the
    matching `PoolSpec` step applied to the old one.
  - `Thread`: a thread object that only carries its id.
  - `ThreadIdCounter`: the process-wide counter behind the static
    `Thread::generateId_`. The `Thread` constructor post-increments it.
  - `start`'s two loops and the worker registry (`map<int, Thread>`) are kept.

Besides the source's own fields, `PoolState` keeps three pieces of
bookkeeping that exist only to state properties:
- `executing`: which workers are between taking a task and finishing it;
- `accepted`: every task ever queued, in order;
- `dispatched`: every task ever handed to a worker, in order.

The invariant `accepted == dispatched + taskQue` yields FIFO order and
at-most-once delivery.

Points where the model follows the code closely:

- `start` (ThreadPool.cpp:56-76) creates its threads, which take the ids
  `g .. g+n-1` from the global counter. It then looks them up under the keys
  `0 .. n-1`. These are the same keys only when the counter was 0
  (`PoolProperties.StartLookupNeedsCounterAtZero`). When the counter has
  moved to `g > 0`, the second loop starts whichever threads sit under the
  keys `0 .. n-1`. A registered key below `g` belongs to an older worker,
  which is started a second time; the keys `g .. n-1` (if `g < n`) are new
  threads and are started normally; the new threads with ids `n .. g+n-1`
  are never started. A key that is missing makes `threads_[i]` insert an
  empty pointer, which is then dereferenced. The model requires the counter to be
  0 when `start` runs. That excludes every case in which any `Thread` was
  constructed before: a cached-mode submit before `start`, a repeated
  `start`, and threads of another pool in the same process (see
  "Left out").
- A worker leaves on shutdown only after its wait loop sees an empty queue
  (ThreadPool.cpp:94-103). Queued tasks are therefore drained, not
  abandoned, before workers exit (`PoolProperties.ShutdownExitOnlyWhenDrained`).
  The shutdown exit erases the worker's id but decrements no counter.
- The capacity test compares against `(size_t)taskQueMaxThreshHold_`. It is
  modelled as the value modulo 2^64 (`PoolSpec.SizeT`), so a negative
  capacity accepts every task.
- The idle timeout in cached mode reaps whenever a wait times out after 60
  idle seconds and there are more live threads than initial ones. A worker
  only enters that wait after seeing an empty queue and a running pool
  (ThreadPool.cpp:94-96), but the test after the wait re-checks neither. The
  model also allows the step in states the source's wait cannot be in, such
  as a pool that was never started: its behaviours are a superset of the
  source's.
- Bounds on the number of live threads hold only while the pool runs. Before
  `start`, a cached-mode submit can already add a worker, and the maximum can
  still be lowered below the live count.

## Model

| member | source | states |
|---|---|---|
| Pool.ThreadPool.constructor | ThreadPool.cpp:7-21 | a new pool is in fixed mode and not running, with queue capacity 2, at most 1024 threads, every counter 0, an empty queue and an empty registry; its abstract state is `Initial` and the invariant holds |
| Pool.ThreadIdCounter.constructor | ThreadPool.cpp:78 | the process-wide id counter starts at 0 |
| Pool.Thread.constructor | ThreadPool.cpp:166-169 | a new thread takes the counter's value as its id and the counter grows by exactly one (post-increment) |
| Pool.ThreadPool.SetMode | ThreadPool.cpp:22-27 | the mode changes only while the pool is not running; once running the whole state is unchanged; the invariant is kept |
| Pool.ThreadPool.SetTaskQueMaxThreshHold | ThreadPool.cpp:37-42 | the queue capacity changes only while not running; once running the whole state is unchanged |
| Pool.ThreadPool.SetThreadSizeThreshHold | ThreadPool.cpp:44-52 | the thread maximum changes only before start and only in cached mode; in every other case the state is unchanged |
| PoolProperties.ConfigFrozenWhileRunning | ThreadPool.cpp:22-52 | once the pool runs, none of the three setters changes anything |
| PoolProperties.ThreadSizeThreshHoldOnlyInCachedMode | ThreadPool.cpp:44-52 | in fixed mode `setThreadSizeThreshHold` is a no-op even before start |
| PoolProperties.ConfigPreservesInv | ThreadPool.cpp:22-52 | every setter keeps the pool invariant |
| PoolProperties.InitialSatisfiesInv | ThreadPool.cpp:12-21 | a freshly constructed pool satisfies the invariant |
| PoolSpec.IdRange | ThreadPool.cpp:63-68 | the ids handed out by n consecutive thread constructions starting at `lo` are exactly `lo .. lo+n-1`, n distinct ids |
| Pool.ThreadPool.Start | ThreadPool.cpp:56-76 | from a counter at 0, the pool runs, the initial and live counts are n, the registry holds exactly the ids 0..n-1 (each `Thread` under its own id), n idle workers are added, and the invariant is kept |
| Pool.ThreadPool.Launch | ThreadPool.cpp:56-76 | start's assignments and two loops on the fields: running set, both counts n, registry keys 0..n-1, idle count up by n, counter at n |
| Pool.ThreadPool.CreateThreads | ThreadPool.cpp:63-68 | start's first loop registers n new threads under keys 0..n-1, each under its own id, and advances the counter by n |
| Pool.ThreadPool.StartThreads | ThreadPool.cpp:71-75 | start's second loop finds every key 0..n-1 registered and raises the idle count by exactly n |
| PoolProperties.StartFromZero | ThreadPool.cpp:56-76 | from a counter at 0 the registry was empty and start leaves it holding exactly 0..n-1, with the invariant kept |
| PoolProperties.StartRegistersFreshWorkers | ThreadPool.cpp:56-76 | start sets running, initial and live counts to n, adds n ids none registered before and each at least the old counter, raises the idle count by n, leaves the queue alone and keeps the invariant |
| PoolProperties.StartLookupNeedsCounterAtZero | ThreadPool.cpp:71-75 | the keys start's second loop looks up are the ids its first loop created if and only if the counter began at 0 |
| Pool.ThreadPool.SubmitTask | ThreadPool.h:101-151 | a full queue (length not below the size_t capacity) yields the default-value handle and changes nothing; otherwise the task is queued, at most one worker is added by the cached-mode rule, and the task's own handle is returned; the invariant is kept |
| Pool.ThreadPool.PushTask | ThreadPool.h:125-126 | an accepted task goes to the back of the queue and the task count grows by one |
| Pool.ThreadPool.AddThread | ThreadPool.h:132-146 | the scale-up registers one new thread under the next counter value and raises the live and idle counts by one each |
| PoolProperties.SubmitRejectsWhenFull | ThreadPool.h:113-122 | the handle is the default value if and only if the queue is at capacity, and then the state is unchanged; otherwise it is the task's own handle |
| PoolProperties.SubmitAppendsWhenAccepted | ThreadPool.h:113-126 | on acceptance the task is appended at the back, the task count grows by exactly one and the queue stays within capacity |
| PoolProperties.SubmitSpawnRule | ThreadPool.h:132-146 | the registry changes if and only if the task was accepted in cached mode with more tasks than idle workers and fewer live threads than the maximum; then exactly the counter value is added as a fresh id, the counter grows by one and both counts grow by one |
| PoolProperties.FixedSubmitKeepsWorkers | ThreadPool.h:132-147 | in fixed mode submitting never changes the live count, the idle count or the registry |
| PoolProperties.SubmitKeepsThreadBound | ThreadPool.h:132-146 | if the live count is within the maximum before a submit, it is within it after |
| PoolProperties.EnqueuePreservesInv | ThreadPool.h:125-126 | queueing a task keeps the invariant |
| PoolProperties.SpawnWorkerPreservesInv | ThreadPool.h:132-146 | the scale-up, when its test passes, keeps the invariant |
| PoolProperties.SubmitPreservesInv | ThreadPool.h:111-150 | submitting a task keeps the invariant |
| Pool.ThreadPool.Dequeue | ThreadPool.cpp:131-138 | an idle worker facing a non-empty queue takes the front task, the queue loses exactly its front, and the task and idle counts drop by one; the invariant is kept |
| PoolProperties.DequeueTakesFront | ThreadPool.cpp:131-138 | the front task is removed and recorded as dispatched, the task count still equals the queue length, the idle count drops by one and stays non-negative |
| PoolProperties.DequeuePreservesInv | ThreadPool.cpp:94-138 | taking a task keeps the invariant |
| Pool.ThreadPool.FinishTask | ThreadPool.cpp:147-152 | a worker back from its task raises the idle count by one; the invariant is kept |
| PoolProperties.FinishTaskMakesWorkerIdle | ThreadPool.cpp:152 | after its task the worker is idle again, the idle count grew by one and stays within the live count, and queue and registry are untouched |
| PoolProperties.FinishTaskPreservesInv | ThreadPool.cpp:152 | finishing a task keeps the invariant |
| Pool.ThreadPool.IdleTimeout | ThreadPool.cpp:105-123 | a timed-out cached-mode wait retires the worker if and only if it was idle for at least 60 seconds and there are more live than initial threads; a retired worker is deregistered and the live count stays at least the initial count |
| Pool.ThreadPool.Retire | ThreadPool.cpp:112-121 | the retiring branch erases the worker's id and lowers the live and idle counts by one |
| PoolProperties.IdleTimeoutReapRule | ThreadPool.cpp:105-122 | the state changes if and only if the reap test passes; then exactly the worker's id leaves, both counts drop by one and the live count does not fall below the initial count |
| PoolProperties.ReapPreservesInv | ThreadPool.cpp:115-117 | retiring an idle worker while there are more live than initial threads keeps the invariant |
| PoolProperties.IdleTimeoutPreservesInv | ThreadPool.cpp:105-122 | a timed-out wait keeps the invariant |
| Pool.ThreadPool.ExitOnShutdown | ThreadPool.cpp:94-103 | with an empty queue and the pool stopped, an idle worker erases its own id and leaves every counter unchanged |
| PoolProperties.ShutdownExitOnlyWhenDrained | ThreadPool.cpp:94-103 | a worker can leave on shutdown only once every accepted task has been dispatched; it erases only its id and keeps the live and idle counts |
| PoolProperties.ExitOnShutdownPreservesInv | ThreadPool.cpp:94-103 | a shutdown exit keeps the invariant |
| PoolProperties.ShutdownCanEmptyRegistry | ThreadPool.cpp:28-36 | once the pool is stopped, the queue is drained and no worker runs a task, one shutdown exit per registered worker is enabled in turn and leaves the registry empty, so the destructor's wait can end |
| Pool.ThreadPool.BeginShutdown | ThreadPool.cpp:28-30 | the destructor's first step clears the running flag and changes nothing else |
| Pool.ThreadPool.AllThreadsExited | ThreadPool.cpp:35 | the destructor's wait condition (no thread registered) holds exactly when the abstract registry is empty |
| PoolProperties.IdleCountBounds | ThreadPool.h:82-83 | under the invariant the idle count lies between 0 and the live count, is at least the number of registered workers not running a task, and equals it while the pool runs |
| PoolProperties.NextPreservesInv | ThreadPool.cpp:79-155 | every enabled step of the pool or of a worker keeps the invariant |
| PoolProperties.RunPreservesInv | ThreadPool.cpp:79-155 | any sequence of enabled steps keeps the invariant |
| PoolProperties.ReachableStateProperties | ThreadPool.h:78-97 | in every reachable state the task count is the queue length, tasks reach workers in acceptance order and at most once, the idle count lies between 0 and the live count, registered ids lie below the counter, a running pool has as many registered workers as live threads, and a running cached pool whose initial count does not exceed its maximum stays within the maximum |
| PoolProperties.FixedPoolKeepsThreadCount | ThreadPool.h:132-134 | a running fixed-mode pool keeps its live thread count, its mode and its running flag through every run without another start or a shutdown, setMode calls included |
| PoolProperties.RunningQueueStaysBounded | ThreadPool.h:113-114 | while the pool runs and is not shut down, a queue within its capacity stays within it whatever happens |
| PoolProperties.CounterNeverDecreases | ThreadPool.cpp:166-169 | over any run the id counter never decreases, so ids of retired or exited workers are never reused |

## Left out

- Operating-system threads, `std::thread`, `detach` and `Thread::start` (ThreadPool.cpp:171-178). Workers are ids that take atomic steps.
- Condition variables, notify and wait. Each wait predicate is the enabling condition (`requires`) of the step that follows the wake-up.
- `std::chrono` clocks. The idle time is a parameter of the idle-timeout step.
- Logging to `std::cout` and `std::cerr`. It is pure output.
- `std::packaged_task`, `std::future` and `std::bind`. A task is an opaque number, and its result value is not modelled. A handle is either the task's own future or a future that already holds a default value.
- Interleavings that a sequence of atomic steps cannot express. These run without the lock, so a worker (including one spawned by a cached-mode submit before `start`) can run alongside them; each is modelled as if it were atomic:
  - `setMode`, `setTaskQueMaxThreshHold` and `setThreadSizeThreshHold` (ThreadPool.cpp:22-27, 37-42, 44-52) write plain fields that workers and `submitTask` read;
  - `start` as a whole (ThreadPool.cpp:56-76);
  - the destructor clears `isPoolRunning_` before taking the lock (ThreadPool.cpp:30);
  - `idleThreadSize_++` after a task runs without the lock (ThreadPool.cpp:152).
- `std::atomic_int` counters and `int` fields are unbounded integers. 32-bit overflow is not modelled.
- The `std::thread::hardware_concurrency()` default argument of `start` is not modelled. The caller always passes the count.
- Pool.ThreadPool.Start: takes a `nat` for the count, so a negative `initThreadSize` (both loops skipped, counters set negative) is not modelled. It requires the id counter to be 0, which excludes these cases the source accepts: (1) a cached-mode `submitTask` before `start` spawns thread 0 (ThreadPool.h:132-146, no running check), so `start(n)` creates ids `1 .. n` and its second loop starts thread 0 a second time and never starts thread `n`; (2) a repeated `start(m)` after `start(n)` creates ids `n .. n+m-1`: for `n >= m > 0` the second loop starts the older threads under keys `0 .. m-1` again and none of the new ones; for `m > n` it starts the older threads `0 .. n-1` again and the new threads `n .. m-1`, and never starts the new threads `m .. n+m-1`; (3) when the counter has moved and a key `0 .. n-1` is absent (a reaped or exited worker, or ids taken by another pool), `threads_[i]` inserts an empty pointer and dereferences it.
- Pool.ThreadPool.SubmitTask: the wait of up to one second for space is collapsed into a test at the moment of the call. A worker that frees space during that second is a `Dequeue` step taken before the submit.
- Pool.ThreadPool.BeginShutdown: the rest of the destructor, which waits until the registry is empty, is only the predicate `AllThreadsExited` and the lemma `PoolProperties.ShutdownCanEmptyRegistry`. It is not a blocking step.
- `checkRunningState` (ThreadPool.cpp:158-161) is read directly as the running flag.
