/**
 * The pool object. Its fields are those of the C++ `ThreadPool` class; its methods
 * update them in place and are proved against the functions of PoolState.
 * A worker thread is a position in `threads`; running one pass of its loop is
 * WorkerStep, and joining it is running its passes until it leaves the loop.
 */
module ThreadPoolImpl {
  import opened PoolState

  class ThreadPool {
    var numThreads: nat
    var threads: seq<Worker>
    var queue: seq<TaskId>
    var stopFlag: bool
    var softStopFlag: bool

    /** The fields as a value. */
    function State(): Pool
      reads this
    {
      Pool(numThreads, threads, queue, stopFlag, softStopFlag)
    }

    ghost predicate Valid()
      reads this
    {
      PoolState.Valid(State())
    }

    /** Records the count with both flags clear, then runs init, which succeeds. */
    constructor (n: nat)
      ensures Valid()
      ensures State() == PoolState.Init(Pool(n, [], [], false, false), n).0
      ensures numThreads == n && |threads| == n && queue == []
    {
      numThreads, threads, queue := n, [], [];
      stopFlag, softStopFlag := false, false;
      new;
      var ok := Init(n);
    }

    /** The destructor: a soft stop. */
    method Destroy() returns (ran: seq<TaskId>)
      requires Valid()
      modifies this
      ensures Valid()
      ensures (State(), ran) == PoolState.SoftStop(old(State()))
    {
      ran := SoftStop();
    }

    /** Refused while threads exist; otherwise starts n workers one by one. */
    method Init(n: nat) returns (ok: bool)
      modifies this
      ensures (State(), ok) == PoolState.Init(old(State()), n)
    {
      if |threads| != 0 {
        return false;
      }
      stopFlag := false;
      softStopFlag := false;
      numThreads := n;
      var i := 0;
      while i < n
        invariant 0 <= i <= n
        invariant threads == AllRunning(i)
        invariant queue == old(queue) && numThreads == n && !stopFlag && !softStopFlag
      {
        threads := threads + [Running];
        i := i + 1;
      }
      ok := true;
    }

    /** Hard stop: raise the flag, then join and clear the workers. */
    method Stop()
      requires Valid()
      modifies this
      ensures Valid()
      ensures State() == PoolState.Stop(old(State()))
    {
      stopFlag := true;
      var ran := ClearThreads();
    }

    /** Soft stop: raise the flag, then join and clear the workers; returns the tasks they popped. */
    method SoftStop() returns (ran: seq<TaskId>)
      requires Valid()
      modifies this
      ensures Valid()
      ensures (State(), ran) == PoolState.SoftStop(old(State()))
    {
      softStopFlag := true;
      ran := ClearThreads();
      if old(threads) != [] {
        assert queue == [] && ran == old(queue);
      } else {
        assert ran == [] && queue == [] + queue == old(queue);
      }
    }

    /** Appends a task at the tail of the queue. */
    method Enqueue(t: TaskId)
      modifies this
      ensures old(Valid()) ==> Valid()
      ensures State() == PoolState.Enqueue(old(State()), t)
    {
      queue := queue + [t];
    }

    /** The recorded thread count. */
    function NumThreads(): (n: nat)
      reads this
      ensures n == State().numThreads
    {
      numThreads
    }

    /** One pass of the loop of running worker w. */
    method WorkerStep(w: nat) returns (o: Outcome)
      requires w < |threads| && threads[w] == Running
      modifies this
      ensures (State(), o) == PoolState.Step(old(State()), w)
    {
      if !(softStopFlag || stopFlag || queue != []) {
        o := Blocked;
      } else if (softStopFlag && queue == []) || stopFlag {
        threads := threads[w := Exited];
        o := Exit;
      } else {
        o := Popped(queue[0]);
        queue := queue[1..];
      }
    }

    /**
     * Joins worker w: runs its passes until it leaves its loop. A set flag makes
     * every pass either pop a task or leave, so the join ends.
     */
    method Join(w: nat) returns (ran: seq<TaskId>)
      requires stopFlag || softStopFlag
      requires w < |threads|
      modifies this
      ensures threads == old(threads)[w := Exited]
      ensures numThreads == old(numThreads) && stopFlag == old(stopFlag) && softStopFlag == old(softStopFlag)
      ensures ran + queue == old(queue)
      ensures stopFlag ==> ran == []
      ensures old(threads[w]) == Running ==> stopFlag || queue == []
      ensures old(threads[w]) == Exited ==> ran == []
    {
      ran := [];
      while threads[w] == Running
        invariant w < |threads| && threads == old(threads)[w := threads[w]]
        invariant numThreads == old(numThreads) && stopFlag == old(stopFlag) && softStopFlag == old(softStopFlag)
        invariant ran + queue == old(queue)
        invariant stopFlag ==> ran == []
        invariant threads[w] == Exited && old(threads[w]) == Running ==> stopFlag || queue == []
        invariant old(threads[w]) == Exited ==> ran == []
        decreases |queue| + (if threads[w] == Running then 1 else 0)
      {
        var o := WorkerStep(w);
        if o.Popped? {
          assert ran + [o.task] + queue == ran + ([o.task] + queue);
          ran := ran + [o.task];
        }
      }
    }

    /** Joins every worker in turn, then empties the collection. */
    method ClearThreads() returns (ran: seq<TaskId>)
      requires stopFlag || softStopFlag
      requires forall i :: 0 <= i < |threads| ==> threads[i] == Running
      modifies this
      ensures threads == []
      ensures numThreads == old(numThreads) && stopFlag == old(stopFlag) && softStopFlag == old(softStopFlag)
      ensures ran + queue == old(queue)
      ensures stopFlag ==> ran == []
      ensures !stopFlag && old(threads) != [] ==> queue == []
      ensures old(threads) == [] ==> ran == []
    {
      ran := [];
      var i := 0;
      while i < |threads|
        invariant 0 <= i <= |threads| == |old(threads)|
        invariant forall j :: i <= j < |threads| ==> threads[j] == Running
        invariant numThreads == old(numThreads) && stopFlag == old(stopFlag) && softStopFlag == old(softStopFlag)
        invariant ran + queue == old(queue)
        invariant stopFlag ==> ran == []
        invariant i > 0 && !stopFlag ==> queue == []
        invariant i == 0 ==> ran == []
      {
        var r := Join(i);
        assert ran + r + queue == ran + (r + queue);
        ran := ran + r;
        i := i + 1;
      }
      threads := [];
    }
  }
}

/**
 * A caller's view of the lifecycle, with no worker taking a step before the hard
 * stop: tasks left queued by the stop survive it, a second init is refused while
 * workers exist, and a pool restarted with one worker hands the leftovers out, in
 * order, when it is destroyed.
 */
module PoolLifecycle {
  import opened PoolState
  import opened ThreadPoolImpl

  method StopAndRestart(a: TaskId, b: TaskId) returns (refused: bool, ran: seq<TaskId>)
    ensures refused
    ensures ran == [a, b]
  {
    var pool := new ThreadPool(4);
    pool.Enqueue(a);
    pool.Enqueue(b);
    pool.Stop();
    var ok := pool.Init(1);
    assert ok && pool.NumThreads() == 1;
    ok := pool.Init(8);
    refused := !ok;
    assert pool.NumThreads() == 1;
    ran := pool.Destroy();
  }
}
