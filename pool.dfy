/** `WorkQueue`: a pool of `nThreads` workers, fixed at construction, that
    take submitted tasks from one FIFO queue. Tasks are opaque values of type
    `T`; what running one does is foreign code, and whether it throws is an
    input to the worker step. */
module Pool {
  import opened Common
  import Seqs

  /** How running a task ended: normally; with a `RuntimeException`, which
      the worker catches and reports before taking the next task; or with any
      other throwable (an `Error`), which `catch (RuntimeException e)` lets
      through, so it leaves `run()` and ends the worker's thread. */
  datatype TaskOutcome = Completed | Faulted | Escaped

  /** The pool: `alive[i]` tells whether worker `i`'s thread still runs its
      loop, so `|alive|` is `nThreads`; `queue` holds the submitted tasks. */
  datatype PoolState<T> = PoolState(alive: seq<bool>, queue: seq<T>)

  datatype PoolCall<T> =
    | ExecuteCall(task: T)
    | TakeCall(worker: nat, outcome: TaskOutcome)   // one pass of that worker's loop

  /** One call, and the tasks it took from the queue. A live worker takes and
      runs the head; a worker whose queue is empty waits, and one whose thread
      has ended does nothing, so neither takes anything. */
  function Next<T>(p: PoolState<T>, c: PoolCall<T>): (r: (PoolState<T>, seq<T>))
    ensures |r.0.alive| == |p.alive|
    ensures r.1 == [] || (p.queue != [] && r.1 == [p.queue[0]])
    ensures forall i :: 0 <= i < |p.alive| && !p.alive[i] ==> !r.0.alive[i]
    ensures r.0.alive != p.alive ==> c.TakeCall? && c.outcome == Escaped && r.1 != []
    ensures r.1 != [] ==> c.TakeCall? && c.worker < |p.alive| && p.alive[c.worker]
    ensures c.ExecuteCall? ==> r == (p.(queue := p.queue + [c.task]), [])
  {
    match c
    case ExecuteCall(task) => (p.(queue := p.queue + [task]), [])
    case TakeCall(k, outcome) =>
      if k < |p.alive| && p.alive[k] && p.queue != [] then
        (PoolState(p.alive[k := outcome != Escaped], p.queue[1..]), [p.queue[0]])
      else (p, [])
  }

  /** A sequence of calls: the final state and the tasks taken, in order. */
  function Run<T>(p: PoolState<T>, calls: seq<PoolCall<T>>): (PoolState<T>, seq<T>)
    decreases |calls|
  {
    if calls == [] then (p, [])
    else
      var step := Next(p, calls[0]);
      var rest := Run(step.0, calls[1..]);
      (rest.0, step.1 + rest.1)
  }

  /** The task a call submits, if it is an `execute`. */
  function SubmittedBy<T>(c: PoolCall<T>): seq<T>
  {
    if c.ExecuteCall? then [c.task] else []
  }

  /** The tasks submitted by `execute` calls, in order. */
  function Submitted<T>(calls: seq<PoolCall<T>>): seq<T>
    decreases |calls|
  {
    if calls == [] then [] else SubmittedBy(calls[0]) + Submitted(calls[1..])
  }

  /** The same calls, with every caught `RuntimeException` replaced by a
      normal completion; an escaping throwable stays as it is. */
  function WithoutFaults<T>(calls: seq<PoolCall<T>>): (r: seq<PoolCall<T>>)
    ensures |r| == |calls|
    decreases |calls|
  {
    if calls == [] then []
    else [WithoutFault(calls[0])] + WithoutFaults(calls[1..])
  }

  function WithoutFault<T>(c: PoolCall<T>): PoolCall<T>
  {
    if c.TakeCall? && c.outcome == Faulted then TakeCall(c.worker, Completed) else c
  }

  /** One call takes at most the head: what it took, followed by the queue
      after it, is the queue before it followed by what it submitted. */
  lemma NextTakesHead<T>(p: PoolState<T>, c: PoolCall<T>)
    ensures Next(p, c).1 + Next(p, c).0.queue == p.queue + SubmittedBy(c)
    ensures |Next(p, c).0.alive| == |p.alive|
  {
    if c.TakeCall? && p.queue != [] {
      assert [p.queue[0]] + p.queue[1..] == p.queue;
    }
  }

  /** Tasks leave in submission order, each submission exactly once: the tasks
      taken, followed by those still queued, are the queue that was there
      followed by the submitted tasks. The pool size never changes. */
  lemma {:induction false} RunTakesInOrder<T>(p: PoolState<T>, calls: seq<PoolCall<T>>)
    ensures Run(p, calls).1 + Run(p, calls).0.queue == p.queue + Submitted(calls)
    ensures |Run(p, calls).0.alive| == |p.alive|
    decreases |calls|
  {
    if calls == [] {
      assert [] + p.queue == p.queue + [];
    } else {
      var step := Next(p, calls[0]);
      var rest := Run(step.0, calls[1..]);
      NextTakesHead(p, calls[0]);
      RunTakesInOrder(step.0, calls[1..]);
      assert Run(p, calls) == (rest.0, step.1 + rest.1);
      Seqs.Assoc(step.1, rest.1, rest.0.queue);
      Seqs.Assoc(step.1, step.0.queue, Submitted(calls[1..]));
      Seqs.Assoc(p.queue, SubmittedBy(calls[0]), Submitted(calls[1..]));
    }
  }

  /** Once the queue of a pool that started with none has drained, every
      submitted task has been taken exactly as many times as it was submitted. */
  lemma DrainedRunTakesEachSubmissionOnce<T>(alive: seq<bool>, calls: seq<PoolCall<T>>)
    requires Run(PoolState(alive, []), calls).0.queue == []
    ensures Run(PoolState(alive, []), calls).1 == Submitted(calls)
    ensures multiset(Run(PoolState(alive, []), calls).1) == multiset(Submitted(calls))
  {
    RunTakesInOrder(PoolState(alive, []), calls);
    assert Run(PoolState(alive, []), calls).1 + [] == Run(PoolState(alive, []), calls).1;
    assert [] + Submitted(calls) == Submitted(calls);
  }

  /** Fault isolation: a task that throws a `RuntimeException` changes nothing
      for the pool. Every sequence of calls leaves the same workers alive, the
      same queue and the same taken tasks as if those tasks had completed. */
  lemma {:induction false} FaultsDoNotAffectThePool<T>(p: PoolState<T>, calls: seq<PoolCall<T>>)
    ensures Run(p, calls) == Run(p, WithoutFaults(calls))
    decreases |calls|
  {
    if calls != [] {
      var clean := WithoutFaults(calls);
      assert clean[0] == WithoutFault(calls[0]);
      assert clean[1..] == WithoutFaults(calls[1..]);
      assert Next(p, calls[0]) == Next(p, clean[0]);
      FaultsDoNotAffectThePool(Next(p, calls[0]).0, calls[1..]);
    }
  }

  /** No call lets a throwable other than a `RuntimeException` escape. */
  ghost predicate NoneEscapes<T>(calls: seq<PoolCall<T>>)
  {
    forall i :: 0 <= i < |calls| ==> !(calls[i].TakeCall? && calls[i].outcome == Escaped)
  }

  /** As long as every task completes or throws a `RuntimeException`, no
      worker thread ends: the pool keeps all the workers it had. */
  lemma {:induction false} CaughtFaultsKeepEveryWorker<T>(p: PoolState<T>, calls: seq<PoolCall<T>>)
    requires NoneEscapes(calls)
    ensures Run(p, calls).0.alive == p.alive
    decreases |calls|
  {
    if calls != [] {
      assert forall i :: 0 <= i < |calls[1..]| ==> calls[1..][i] == calls[i + 1];
      CaughtFaultsKeepEveryWorker(Next(p, calls[0]).0, calls[1..]);
    }
  }

  /** A worker thread that has ended stays ended: nothing restarts it. */
  lemma {:induction false} EndedWorkersStayEnded<T>(p: PoolState<T>, calls: seq<PoolCall<T>>, i: nat)
    requires i < |p.alive| && !p.alive[i]
    ensures |Run(p, calls).0.alive| == |p.alive| && !Run(p, calls).0.alive[i]
    decreases |calls|
  {
    if calls != [] {
      EndedWorkersStayEnded(Next(p, calls[0]).0, calls[1..], i);
    }
  }

  /** The number of worker threads still running. */
  function LiveCount(alive: seq<bool>): (n: nat)
    ensures n <= |alive|
  {
    if alive == [] then 0 else (if alive[0] then 1 else 0) + LiveCount(alive[1..])
  }

  lemma {:induction false} LiveCountEnd(alive: seq<bool>, k: nat)
    requires k < |alive| && alive[k]
    ensures LiveCount(alive[k := false]) == LiveCount(alive) - 1
    decreases |alive|
  {
    if k > 0 {
      LiveCountEnd(alive[1..], k - 1);
      assert alive[k := false][1..] == alive[1..][k - 1 := false];
    } else {
      assert alive[k := false][1..] == alive[1..];
    }
  }

  /** A live worker that takes a task whose throwable escapes ends, and the
      pool runs on with exactly one worker fewer; a caught `RuntimeException`
      leaves the worker running. */
  lemma EscapeEndsOneWorker<T>(p: PoolState<T>, k: nat)
    requires k < |p.alive| && p.alive[k] && p.queue != []
    ensures Next(p, TakeCall(k, Escaped)).1 == [p.queue[0]]
    ensures LiveCount(Next(p, TakeCall(k, Escaped)).0.alive) == LiveCount(p.alive) - 1
    ensures Next(p, TakeCall(k, Faulted)).0.alive == p.alive
  {
    LiveCountEnd(p.alive, k);
  }

  /** Once every worker thread has ended, nothing is taken any more: the
      queue only grows with the submitted tasks. */
  lemma {:induction false} NoWorkerLeftTakesNothing<T>(p: PoolState<T>, calls: seq<PoolCall<T>>)
    requires forall i :: 0 <= i < |p.alive| ==> !p.alive[i]
    ensures Run(p, calls).1 == []
    ensures Run(p, calls).0.queue == p.queue + Submitted(calls)
    decreases |calls|
  {
    if calls == [] {
      assert p.queue + [] == p.queue;
    } else {
      var step := Next(p, calls[0]);
      assert step.1 == [] && step.0.alive == p.alive;
      assert step.0.queue == p.queue + SubmittedBy(calls[0]);
      NoWorkerLeftTakesNothing(step.0, calls[1..]);
      Seqs.Assoc(p.queue, SubmittedBy(calls[0]), Submitted(calls[1..]));
    }
  }

  /** A worker thread. `PoolWorker` declares no fields of its own; `alive`
      stands for the liveness of the `Thread` it extends (`isAlive()`),
      which becomes false once `run()` ends. */
  class PoolWorker {
    var alive: bool

    /** `new PoolWorker()` followed by `start()`. */
    constructor ()
      ensures alive
    {
      alive := true;
    }
  }

  class WorkQueue<T> {
    const nThreads: nat
    const threads: array<PoolWorker?>
    var queue: seq<T>

    /** The worker array holds exactly `nThreads` workers, all distinct. */
    ghost predicate Valid()
      reads this, threads
    {
      threads.Length == nThreads &&
      (forall i :: 0 <= i < threads.Length ==> threads[i] != null) &&
      (forall i, j :: 0 <= i < j < threads.Length ==> threads[i] != threads[j])
    }

    ghost function State(): PoolState<T>
      requires Valid()
      reads this, threads, threads[..]
    {
      PoolState(seq(nThreads, i requires 0 <= i < threads.Length && threads[i] != null
                                reads threads, threads[..] => threads[i].alive),
                queue)
    }

    /** Creates and starts the `n` workers, one per slot of a new array. */
    constructor (n: nat)
      ensures Valid() && fresh(threads)
      ensures nThreads == n
      ensures State() == PoolState(seq(n, _ => true), [])
    {
      nThreads := n;
      queue := [];
      var workers := new PoolWorker?[n];
      for i := 0 to n
        invariant forall j :: 0 <= j < i ==> workers[j] != null && workers[j].alive
        invariant forall j, k :: 0 <= j < k < i ==> workers[j] != workers[k]
      {
        workers[i] := new PoolWorker();
      }
      threads := workers;
    }

    /** `execute`: appends `r` at the tail of the queue and changes nothing else. */
    method Execute(r: T)
      requires Valid()
      modifies this`queue
      ensures Valid()
      ensures queue == old(queue) + [r]
      ensures State() == Next(old(State()), ExecuteCall(r)).0
    {
      queue := queue + [r];
    }

    /** One pass of worker `k`'s loop. If its thread still runs and tasks are
        queued, it removes and runs the head: a `RuntimeException` is caught
        and the worker carries on, any other throwable ends its thread. With
        no task queued it waits. */
    method WorkerStep(k: nat, outcome: TaskOutcome) returns (ran: Option<T>)
      requires Valid() && k < nThreads
      modifies this`queue, threads[k]
      ensures Valid()
      ensures ran.Some? <==> old(threads[k].alive) && old(queue) != []
      ensures ran.Some? ==> ran.value == old(queue)[0] && queue == old(queue)[1..]
      ensures ran.None? ==> queue == old(queue)
      ensures threads[k].alive == (old(threads[k].alive) && !(ran.Some? && outcome == Escaped))
      ensures State() == Next(old(State()), TakeCall(k, outcome)).0
    {
      if !threads[k].alive || queue == [] {
        return None;
      }
      var r := queue[0];
      queue := queue[1..];
      if outcome == Escaped {
        threads[k].alive := false;
      }
      ran := Some(r);
    }

    /** Worker `k`'s loop, run until it would wait on an empty queue or its
        thread ends. It runs the queued tasks head first, each once, and stops
        right after the first task whose throwable escapes; `outcomes[i]` says
        how the `i`-th task it takes ends. */
    method RunWorker(k: nat, outcomes: seq<TaskOutcome>) returns (ran: seq<T>)
      requires Valid() && k < nThreads
      requires |outcomes| >= |queue|
      modifies this`queue, threads[k]
      ensures Valid()
      ensures ran + queue == old(queue)
      ensures queue == [] || !threads[k].alive
      ensures !old(threads[k].alive) ==> ran == []
      ensures threads[k].alive == (old(threads[k].alive) && forall i :: 0 <= i < |ran| ==> outcomes[i] != Escaped)
      ensures forall i :: 0 <= i < |ran| - 1 ==> outcomes[i] != Escaped
    {
      ran := [];
      while threads[k].alive && queue != []
        invariant Valid()
        invariant ran + queue == old(queue)
        invariant !old(threads[k].alive) ==> ran == []
        invariant threads[k].alive == (old(threads[k].alive) && forall i :: 0 <= i < |ran| ==> outcomes[i] != Escaped)
        invariant forall i :: 0 <= i < |ran| - 1 ==> outcomes[i] != Escaped
        decreases |queue|
      {
        var r := WorkerStep(k, outcomes[|ran|]);
        ran := ran + [r.value];
      }
    }
  }
}
