/**
 * Runs of the pool: any sequence of public operations and worker steps, in any
 * interleaving of the workers. The lemmas here are the guarantees the pool gives
 * whatever order the workers happen to run in.
 */
module PoolTraces {
  import opened PoolState

  datatype Op =
    | InitOp(n: nat)
    | EnqueueOp(task: TaskId)
    | StepOp(worker: nat)
    | StopOp
    | SoftStopOp

  /** One operation; the second component lists the tasks it handed to workers. */
  function Apply(p: Pool, op: Op): (Pool, seq<TaskId>) {
    match op
    case InitOp(n) => (Init(p, n).0, [])
    case EnqueueOp(t) => (Enqueue(p, t), [])
    case StepOp(w) =>
      if w < |p.threads| && p.threads[w] == Running then
        var r := Step(p, w);
        (r.0, if r.1.Popped? then [r.1.task] else [])
      else (p, [])  // a worker that is not running takes no step
    case StopOp => (Stop(p), [])
    case SoftStopOp => SoftStop(p)
  }

  /** The final pool of a run and every task popped during it, in popping order. */
  function Replay(p: Pool, ops: seq<Op>): (Pool, seq<TaskId>)
    decreases |ops|
  {
    if ops == [] then (p, [])
    else
      var first := Apply(p, ops[0]);
      var rest := Replay(first.0, ops[1..]);
      (rest.0, first.1 + rest.1)
  }

  /** The tasks submitted during a run, in submission order. */
  function Enqueued(ops: seq<Op>): seq<TaskId>
    decreases |ops|
  {
    if ops == [] then []
    else (if ops[0].EnqueueOp? then [ops[0].task] else []) + Enqueued(ops[1..])
  }

  predicate OnlySteps(ops: seq<Op>) {
    forall i :: 0 <= i < |ops| ==> ops[i].StepOp?
  }

  predicate AllExited(p: Pool) {
    forall i :: 0 <= i < |p.threads| ==> p.threads[i] == Exited
  }

  lemma ApplyConserves(p: Pool, op: Op)
    ensures Apply(p, op).1 + Apply(p, op).0.queue
         == p.queue + (if op.EnqueueOp? then [op.task] else [])
  {
  }

  /**
   * No task is lost or duplicated and tasks leave the queue in the order they were
   * submitted: over any run, the tasks popped followed by the queue left over are
   * exactly the initial queue followed by the tasks submitted.
   */
  lemma {:induction false} Conservation(p: Pool, ops: seq<Op>)
    ensures Replay(p, ops).1 + Replay(p, ops).0.queue == p.queue + Enqueued(ops)
    decreases |ops|
  {
    if ops != [] {
      var first := Apply(p, ops[0]);
      var rest := Replay(first.0, ops[1..]);
      var e := if ops[0].EnqueueOp? then [ops[0].task] else [];
      assert Replay(p, ops) == (rest.0, first.1 + rest.1);
      assert Enqueued(ops) == e + Enqueued(ops[1..]);
      ApplyConserves(p, ops[0]);
      Conservation(first.0, ops[1..]);
      SeqShuffle(first.1, rest.1, rest.0.queue, first.0.queue, Enqueued(ops[1..]), p.queue, e);
    }
  }

  lemma SeqShuffle<T>(a: seq<T>, b: seq<T>, c: seq<T>, d: seq<T>, x: seq<T>, q: seq<T>, e: seq<T>)
    requires b + c == d + x && a + d == q + e
    ensures (a + b) + c == q + (e + x)
  {
    calc {
      (a + b) + c;
      a + (b + c);
      a + (d + x);
      (a + d) + x;
    }
  }

  /** Worker steps alone never resize the collection nor touch the flags or the count. */
  lemma {:induction false} StepsKeepShape(p: Pool, ops: seq<Op>)
    requires OnlySteps(ops)
    ensures |Replay(p, ops).0.threads| == |p.threads|
    ensures Replay(p, ops).0.stop == p.stop && Replay(p, ops).0.softStop == p.softStop
    ensures Replay(p, ops).0.numThreads == p.numThreads
    ensures Enqueued(ops) == []
    decreases |ops|
  {
    if ops != [] {
      StepsKeepShape(Apply(p, ops[0]).0, ops[1..]);
    }
  }

  /** Once the queue is empty, worker steps alone pop nothing and leave it empty. */
  lemma {:induction false} EmptyStaysEmpty(p: Pool, ops: seq<Op>)
    requires OnlySteps(ops) && p.queue == []
    ensures Replay(p, ops).0.queue == [] && Replay(p, ops).1 == []
    decreases |ops|
  {
    if ops != [] {
      EmptyStaysEmpty(Apply(p, ops[0]).0, ops[1..]);
    }
  }

  /**
   * Under a soft stop without a hard stop, a worker that was running and has left
   * its loop saw the queue empty, and worker steps alone keep it empty.
   */
  lemma {:induction false} DrainOnExit(p: Pool, ops: seq<Op>, w: nat)
    requires OnlySteps(ops)
    requires p.softStop && !p.stop
    requires w < |p.threads| && p.threads[w] == Running
    requires w < |Replay(p, ops).0.threads| && Replay(p, ops).0.threads[w] == Exited
    ensures Replay(p, ops).0.queue == []
    decreases |ops|
  {
    if ops != [] {
      var q := Apply(p, ops[0]).0;
      assert OnlySteps(ops[1..]);
      if q.threads[w] == Exited {
        // worker w itself just left: it saw the soft flag and an empty queue
        EmptyStaysEmpty(q, ops[1..]);
      } else {
        DrainOnExit(q, ops[1..], w);
      }
    }
  }

  /** With no worker in the collection, worker steps change nothing. */
  lemma {:induction false} NoWorkersNoSteps(p: Pool, ops: seq<Op>)
    requires OnlySteps(ops) && p.threads == []
    ensures Replay(p, ops) == (p, [])
    decreases |ops|
  {
    if ops != [] {
      assert OnlySteps(ops[1..]);
      assert Apply(p, ops[0]) == (p, []);
      NoWorkersNoSteps(p, ops[1..]);
      assert Replay(p, ops).1 == [] + [];
    }
  }

  /** With the hard flag set, worker steps alone pop nothing. */
  lemma {:induction false} HardStopPopsNothing(p: Pool, ops: seq<Op>)
    requires OnlySteps(ops) && p.stop
    ensures Replay(p, ops).1 == [] && Replay(p, ops).0.queue == p.queue
    decreases |ops|
  {
    if ops != [] {
      assert OnlySteps(ops[1..]);
      HardStopPopsNothing(Apply(p, ops[0]).0, ops[1..]);
    }
  }

  /**
   * stop() under any interleaving: once the hard flag is set, no worker pops a
   * task, so the queue keeps every task in its order, and clearing the collection
   * afterwards gives exactly Stop.
   */
  lemma HardStopAnyInterleaving(p: Pool, ops: seq<Op>)
    requires OnlySteps(ops)
    ensures Replay(p.(stop := true), ops).1 == []
    ensures Replay(p.(stop := true), ops).0.queue == p.queue
    ensures Replay(p.(stop := true), ops).0.(threads := []) == Stop(p)
  {
    HardStopPopsNothing(p.(stop := true), ops);
    StepsKeepShape(p.(stop := true), ops);
  }

  /**
   * softStop() under any interleaving: from a valid pool, once the soft flag is set
   * and every worker has left its loop, the tasks popped and the pool left over
   * (with its collection cleared) are exactly those of SoftStop, whichever worker
   * popped which task: with a worker running, the whole queue in FIFO order and an
   * empty queue; with none, nothing popped and the queue untouched.
   */
  lemma SoftStopAnyInterleaving(p: Pool, ops: seq<Op>)
    requires Valid(p) && OnlySteps(ops)
    requires AllExited(Replay(p.(softStop := true), ops).0)
    ensures Replay(p.(softStop := true), ops).1 == SoftStop(p).1
    ensures Replay(p.(softStop := true), ops).0.(threads := []) == SoftStop(p).0
  {
    var q := p.(softStop := true);
    var f := Replay(q, ops);
    StepsKeepShape(q, ops);
    Conservation(q, ops);
    if p.threads == [] {
      NoWorkersNoSteps(q, ops);
    } else {
      DrainOnExit(q, ops, 0);
      assert f.1 == f.1 + f.0.queue == p.queue;
    }
  }

  /** Every run from a valid pool ends in a valid pool. */
  lemma {:induction false} ValidInvariant(p: Pool, ops: seq<Op>)
    requires Valid(p)
    ensures Valid(Replay(p, ops).0)
    decreases |ops|
  {
    if ops != [] {
      var q := Apply(p, ops[0]).0;
      assert Valid(q);
      ValidInvariant(q, ops[1..]);
    }
  }

  /**
   * Only init clears a stop flag or changes the recorded count: a run without init
   * keeps a set flag set and keeps numThreads.
   */
  lemma {:induction false} FlagsAndCountWithoutInit(p: Pool, ops: seq<Op>)
    requires forall i :: 0 <= i < |ops| ==> !ops[i].InitOp?
    ensures p.stop ==> Replay(p, ops).0.stop
    ensures p.softStop ==> Replay(p, ops).0.softStop
    ensures Replay(p, ops).0.numThreads == p.numThreads
    decreases |ops|
  {
    if ops != [] {
      FlagsAndCountWithoutInit(Apply(p, ops[0]).0, ops[1..]);
    }
  }
}
