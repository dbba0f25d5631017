/**
 * The bookkeeping of a thread pool as a value: the recorded thread count, the
 * collection of worker threads, the FIFO queue of pending tasks and the two stop
 * flags. Threads, the mutex and the condition variable are abstracted away; a
 * worker is either still running its loop or has returned from it.
 */
module PoolState {

  /** Tasks are opaque: the pool only moves them from the queue to a worker. */
  type TaskId = nat

  datatype Worker = Running | Exited

  datatype Pool = Pool(
    numThreads: nat,
    threads: seq<Worker>,
    queue: seq<TaskId>,
    stop: bool,
    softStop: bool)

  /** What one pass of a worker's loop does. */
  datatype Outcome =
    | Blocked               // the wake condition is false: the worker keeps waiting
    | Exit                  // the worker returns from its loop
    | Popped(task: TaskId)  // the worker took the head of the queue to execute it

  /**
   * The invariant every pool satisfies between public operations: every thread in
   * the collection is still running its loop, and a set stop flag means the
   * collection has been joined and cleared.
   */
  ghost predicate Valid(p: Pool) {
    && (forall i :: 0 <= i < |p.threads| ==> p.threads[i] == Running)
    && ((p.stop || p.softStop) ==> p.threads == [])
  }

  /** The condition a waiting worker waits for. */
  predicate Wakes(p: Pool) {
    p.softStop || p.stop || p.queue != []
  }

  /** The condition under which an awake worker leaves its loop. */
  predicate Exits(p: Pool) {
    (p.softStop && p.queue == []) || p.stop
  }

  function AllRunning(n: nat): (ws: seq<Worker>)
    ensures |ws| == n
    ensures forall i :: 0 <= i < n ==> ws[i] == Running
  {
    seq(n, _ => Running)
  }

  /**
   * init(n): refused while the collection holds threads; otherwise clears both
   * flags, records n and starts n workers. The queue is left as it is.
   */
  function Init(p: Pool, n: nat): (r: (Pool, bool))
    ensures r.1 <==> p.threads == []
    ensures !r.1 ==> r.0 == p
    ensures r.1 ==> !r.0.stop && !r.0.softStop && r.0.numThreads == n
    ensures r.1 ==> |r.0.threads| == n && r.0.queue == p.queue
    ensures r.1 ==> Valid(r.0)
  {
    if p.threads != [] then (p, false)
    else (Pool(n, AllRunning(n), p.queue, false, false), true)
  }

  /** enqueue: the task goes to the tail of the queue, whatever the flags and threads. */
  function Enqueue(p: Pool, t: TaskId): (q: Pool)
    ensures |q.queue| == |p.queue| + 1
    ensures q.queue[..|p.queue|] == p.queue && q.queue[|p.queue|] == t
    ensures q.(queue := p.queue) == p
  {
    p.(queue := p.queue + [t])
  }

  /**
   * One pass of the loop of running worker w: wait for the wake condition, leave
   * if the exit condition holds, otherwise pop the head of the queue.
   */
  function Step(p: Pool, w: nat): (r: (Pool, Outcome))
    requires w < |p.threads| && p.threads[w] == Running
    ensures r.1 == Blocked <==> !p.softStop && !p.stop && p.queue == []
    ensures r.1 == Exit <==> p.stop || (p.softStop && p.queue == [])
    ensures r.1.Popped? ==> p.queue != [] && [r.1.task] + r.0.queue == p.queue
    ensures !r.1.Popped? ==> r.0.queue == p.queue
    ensures r.0.threads == if r.1 == Exit then p.threads[w := Exited] else p.threads
    ensures r.0.numThreads == p.numThreads && r.0.stop == p.stop && r.0.softStop == p.softStop
  {
    if !Wakes(p) then (p, Blocked)
    else if Exits(p) then (p.(threads := p.threads[w := Exited]), Exit)
    else (p.(queue := p.queue[1..]), Popped(p.queue[0]))
  }

  /**
   * stop(): sets the hard flag and joins every worker; a worker that sees the flag
   * leaves before popping, so the queue keeps every task in its order.
   */
  function Stop(p: Pool): (q: Pool)
    ensures q.stop && q.threads == [] && Valid(q)
    ensures q.queue == p.queue && q.softStop == p.softStop && q.numThreads == p.numThreads
  {
    p.(stop := true, threads := [])
  }

  /**
   * softStop(): sets the soft flag and joins every worker. With a worker running
   * and no hard stop, the workers pop the whole queue, in order, before leaving;
   * with no worker nothing is popped. The second component lists the tasks popped.
   */
  function SoftStop(p: Pool): (r: (Pool, seq<TaskId>))
    ensures r.0.softStop && r.0.threads == [] && Valid(r.0)
    ensures r.1 + r.0.queue == p.queue
    ensures p.threads != [] && !p.stop ==> r.0.queue == [] && r.1 == p.queue
    ensures p.threads == [] || p.stop ==> r.0.queue == p.queue && r.1 == []
    ensures r.0.stop == p.stop && r.0.numThreads == p.numThreads
  {
    if p.threads != [] && !p.stop then (p.(softStop := true, threads := [], queue := []), p.queue)
    else (p.(softStop := true, threads := []), [])
  }
}
