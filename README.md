# ThreadPool bookkeeping, modelled in Dafny

This project models the sequential bookkeeping of the header-only C++ `ThreadPool`
class: the recorded thread count `m_numthreads`, the thread collection `m_threads`,
the FIFO task queue `m_queue`, and the hard and soft stop flags `m_stopflag` and
`m_stopflag_soft`. It covers `init`, `enqueue`, `stop`, `softStop`, `numThreads`,
the constructor and destructor, `clearThreads`, and one pass of a worker's
`threadFunction` loop.

Threads, the mutex and the condition variable are abstracted away. A worker is a
position in the collection that is either `Running` its loop or has `Exited` it.
One pass of its loop is a step:

- it stays blocked while the wake condition (soft flag, hard flag, or a non-empty
  queue) is false;
- it leaves the loop when the hard flag is set, or when the soft flag is set and
  the queue is empty;
- otherwise it pops the head of the queue.

Tasks are opaque ids.

- `pool_state.dfy` (module `PoolState`): the pool as a value, with one function per
  operation. Each function's contract states what the source promises.
- `pool_traces.dfy` (module `PoolTraces`): runs made of any operations and worker
  steps, in any interleaving of the workers. It proves that no task is lost or
  duplicated and that tasks leave the queue in submission order. It also proves
  that a hard stop pops nothing, and that a soft stop drains the queue whichever
  workers run.
- `thread_pool.dfy` (module `ThreadPoolImpl`): the class `ThreadPool` with the same
  fields. Its methods update the fields in place and are proved against the
  `PoolState` functions. `Init` fills the collection in a counting loop. `Join` runs
  one worker's passes until it leaves its loop. `ClearThreads` joins every worker
  in turn and then empties the collection. The module `PoolLifecycle` shows a
  caller's stop, restart and destroy sequence.

The header defines only `init`, although the example programs call `start`
(code/examples/stop_and_restart.cpp:29). Facts about the header that the model keeps:

- its only constructor takes a thread count; there is no zero-argument constructor;
- there is no `start`, only `init`;
- the constructor's `init` always succeeds because the collection starts empty.

## Model

| member | source | states |
|---|---|---|
| PoolState.Init | ThreadPool.hpp:74-90 | refused (false, pool unchanged) exactly when threads exist; on success both flags are clear, the count is n, n running workers exist, the queue is kept |
| PoolState.Enqueue | ThreadPool.hpp:133-136 | the queue gains the task at its tail; flags, count and threads are unchanged, whatever their values |
| PoolState.Step | ThreadPool.hpp:153-165 | a worker pass is blocked exactly when neither flag is set and the queue is empty; it exits exactly when hard, or soft with an empty queue; otherwise it returns the head of the queue and removes exactly it; flags and count never change |
| PoolState.Stop | ThreadPool.hpp:92-104 | the hard flag is set and the collection is empty; the queue keeps every task in order; the soft flag and the count are unchanged |
| PoolState.SoftStop | ThreadPool.hpp:106-118 | the soft flag is set and the collection is empty; popped tasks followed by the queue left equal the old queue; with a worker and no hard stop the whole queue is popped in order; with no worker nothing is popped |
| PoolTraces.Conservation | ThreadPool.hpp:133-136 | over any run, tasks popped followed by the queue left equal the initial queue followed by the tasks submitted: no loss, no duplication, FIFO order |
| PoolTraces.StepsKeepShape | ThreadPool.hpp:153-167 | worker passes alone never resize the collection or change the flags or the count |
| PoolTraces.EmptyStaysEmpty | ThreadPool.hpp:158-164 | with an empty queue, worker passes alone pop nothing |
| PoolTraces.DrainOnExit | ThreadPool.hpp:159-162 | under a soft stop without a hard stop, a worker that has left its loop saw an empty queue, and the queue stays empty |
| PoolTraces.NoWorkersNoSteps | ThreadPool.hpp:110-118 | with no workers, worker passes change nothing |
| PoolTraces.HardStopPopsNothing | ThreadPool.hpp:159-162 | with the hard flag set, worker passes pop nothing and keep the queue |
| PoolTraces.HardStopAnyInterleaving | ThreadPool.hpp:92-104 | after the hard flag is raised, any interleaving of worker passes pops nothing, and clearing the collection afterwards gives exactly Stop |
| PoolTraces.SoftStopAnyInterleaving | ThreadPool.hpp:106-118 | after the soft flag is raised on a valid pool, any interleaving in which all workers leave pops exactly what SoftStop pops and ends in SoftStop's state |
| PoolTraces.ValidInvariant | ThreadPool.hpp:74-118 | every run keeps the invariant: all workers in the collection are running, and a set flag means an empty collection |
| PoolTraces.FlagsAndCountWithoutInit | ThreadPool.hpp:81-83 | without init a set flag stays set and the recorded count does not change |
| ThreadPoolImpl.ThreadPool.constructor | ThreadPool.hpp:55-59 | the count is recorded, both flags are clear, and init succeeds with n running workers and an empty queue |
| ThreadPoolImpl.ThreadPool.Destroy | ThreadPool.hpp:61-67 | behaves as SoftStop |
| ThreadPoolImpl.ThreadPool.Init | ThreadPool.hpp:74-90 | the counting loop gives exactly PoolState.Init's state and result |
| ThreadPoolImpl.ThreadPool.Stop | ThreadPool.hpp:96-104 | raising the flag then joining gives exactly PoolState.Stop |
| ThreadPoolImpl.ThreadPool.SoftStop | ThreadPool.hpp:110-118 | raising the flag then joining gives exactly PoolState.SoftStop, popped tasks included |
| ThreadPoolImpl.ThreadPool.Enqueue | ThreadPool.hpp:126-139 | the fields become exactly PoolState.Enqueue's |
| ThreadPoolImpl.ThreadPool.NumThreads | ThreadPool.hpp:145-148 | returns the recorded count |
| ThreadPoolImpl.ThreadPool.WorkerStep | ThreadPool.hpp:153-167 | one pass gives exactly PoolState.Step's state and outcome |
| ThreadPoolImpl.ThreadPool.Join | ThreadPool.hpp:172-178 | joining one worker under a set flag ends with it exited; popped tasks followed by the queue equal the old queue; under the hard flag nothing is popped, otherwise the queue is empty |
| ThreadPoolImpl.ThreadPool.ClearThreads | ThreadPool.hpp:170-180 | all workers are joined and the collection is emptied; under the hard flag nothing is popped; with a worker and only the soft flag the queue ends empty |
| PoolLifecycle.StopAndRestart | ThreadPool.hpp:92-94 | tasks left queued by a hard stop survive it; a second init on a running pool is refused; destroying a restarted pool hands out the leftovers in order |

## Left out

- Real threads, `std::mutex`, `std::condition_variable`, notifications, blocking waits, spurious wake-ups and `join` are not modelled. A worker pass is an explicit step, and joining a worker means running its passes until it leaves.
- ThreadPoolImpl.ThreadPool.Stop and ThreadPoolImpl.ThreadPool.SoftStop let only the worker being joined take passes, so under a soft stop worker 0 drains the whole queue. In the C++ every worker keeps running while worker 0 is joined. Other interleavings are covered on values by PoolTraces.HardStopAnyInterleaving and PoolTraces.SoftStopAnyInterleaving.
- In a run, stop and softStop are single atomic operations. An `enqueue` that lands between raising the flag and the last join is not modelled.
- `std::packaged_task`, `std::future`, `std::bind` and the return type of `enqueue` are not modelled. Tasks are opaque ids, and enqueue returns nothing.
- Task execution and failure delivery are not modelled. A popped task counts as handed out for execution, and SoftStop returns the popped tasks in order.
- PoolState.Init: the counter of the start-up loop is an `unsigned int` (`auto i = 0u`, ThreadPool.hpp:85) compared against a `size_t` bound, so with a count above `UINT_MAX` the loop never ends; the model's counter is unbounded and always stops at n.
- PoolState.Init: exception paths are not modelled. `reserve` (ThreadPool.hpp:84) can throw `std::length_error` or `std::bad_alloc`, leaving the flags cleared and the count set to n with no thread started. Starting a thread (ThreadPool.hpp:87) can throw `std::system_error`, leaving the flags cleared, the count n and fewer than n running threads. Inside the constructor (ThreadPool.hpp:58) that exception leaves joinable threads in the vector, so the program calls `std::terminate`. The model's init always succeeds on an empty collection.
- PoolState.Enqueue: the allocation failures of `make_shared` and of the queue's `emplace` (ThreadPool.hpp:131, 135) are not modelled. `std::bad_alloc` would leave the queue unchanged, but the model's enqueue always succeeds.
- `start` and a zero-argument constructor are not modelled, because the header does not define them.
- The example programs are callers doing console I/O and sleeps, and are not part of this model.
