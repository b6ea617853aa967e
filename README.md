# Hand-built locks and a worker pool, modelled in Dafny

This project models the four concurrency primitives of `com.tsystems.javaschool.concurrency`:

- `MyLock`, a non-reentrant mutex over one field, `owner`;
- `MyReentantLock`, a reentrant mutex over `owner` and the hold count `lockCounter`;
- `MyFairLock`, a reentrant mutex that hands the lock to blocked threads in arrival order, through a FIFO list `waiters` of `LockObj` signal records;
- `WorkQueue`, a pool of `nThreads` workers, fixed at construction, draining one FIFO task queue.

Each primitive is a small sequential state machine guarded by a Java monitor. The model makes three changes to expose it:

- The calling thread (`Thread.currentThread()`) is an explicit `Tid` argument.
- A step that would wait returns `Blocked` and changes nothing. The thread retries it after being woken. So each step's enabling condition is stated as an if-and-only-if in its postcondition, with no precondition.
- `IllegalStateException` is the `IllegalState` result.

Each Java class is a Dafny class with the same state fields (the monitor object `lockObj` of each lock is left out with the monitors); `PoolWorker` declares none of its own, and its `alive` flag stands for the liveness of the `Thread` it extends. Its methods are proved against a pure transition function `Next` over a state value. `Run` applies `Next` to a sequence of calls by any threads, so a sequence of calls stands for one interleaving. The lemmas about `Run` carry the claims that cover many calls:

- ownership is bracketed (mutual exclusion);
- the hold-count invariant holds;
- nested locks and releases balance;
- waiters acquire in FIFO order;
- tasks leave in submission order, each exactly once;
- a `RuntimeException` in a task is isolated, while any other throwable ends its worker for good.

`MyFairLock.lock()` is split into the steps one thread goes through:

- `LockEnter`: the reentrant fast path, or joining the tail of the queue with a fresh `LockObj`;
- `LockAcquireIfHead`: repeated attempts at the acquiring check, with `LockObj.Await` between attempts;
- `LockCancel`: what happens when the wait is interrupted.

The loop test of the Java code is not part of these steps; see Findings.

Files: `common.dfy` (thread ids, `Option`, step and release results, Java `int` increment), `seqs.dfy` (subsequences, first-occurrence removal), `mutex.dfy`, `reentrant.dfy`, `fair_lock.dfy`, `pool.dfy`.

## Model

| member | source | states |
|---|---|---|
| `Mutex.MyLock.constructor` | Concurrency.1/src/com/tsystems/javaschool/concurrency/MyLock.java:8-10 | a new lock has no owner |
| `Mutex.MyLock.Lock` | Concurrency.1/src/com/tsystems/javaschool/concurrency/MyLock.java:21-29 | `lock` proceeds iff `owner` is null, and then sets it to the caller; it waits whenever the lock is held, even by the caller (no reentrancy) |
| `Mutex.MyLock.Unlock` | Concurrency.1/src/com/tsystems/javaschool/concurrency/MyLock.java:38-49 | `unlock` succeeds iff the caller is the owner, and then clears `owner`; otherwise, also on a free lock, it throws and `owner` is unchanged |
| `Mutex.MyLock.TryLock` | Concurrency.1/src/com/tsystems/javaschool/concurrency/MyLock.java:61-70 | `tryLock` returns true iff the lock was free, and then the caller owns it; on a held lock, even one the caller holds, it returns false and changes nothing |
| `Mutex.Next` | Concurrency.1/src/com/tsystems/javaschool/concurrency/MyLock.java:21-70 | one call changes the owner exactly when it logs a change; the change is made by the caller, an acquire only on a free lock and a release only by the owner |
| `Mutex.RunIsBracketed` | Concurrency.1/src/com/tsystems/javaschool/concurrency/MyLock.java:21-70 | over any sequence of calls, every acquisition happens on a free lock and every release is by the thread that acquired last; the final owner is the last acquirer unless it released since |
| `Mutex.OthersCannotInterfere` | Concurrency.1/src/com/tsystems/javaschool/concurrency/MyLock.java:24-26 | while `t` owns the lock, no sequence of calls by other threads changes the owner or makes any acquisition or release |
| `Reentrant.MyReentantLock.constructor` | Concurrency.1/src/com/tsystems/javaschool/concurrency/MyReentantLock.java:10-13 | a new lock is free with count 0 |
| `Reentrant.MyReentantLock.Lock` | Concurrency.1/src/com/tsystems/javaschool/concurrency/MyReentantLock.java:25-38 | `lock` proceeds iff the lock is free or owned by the caller: a free lock becomes owned with count 1, and the owner's count rises by exactly 1; while another thread owns it, the call waits and nothing changes |
| `Reentrant.MyReentantLock.ReleaseLock` | Concurrency.1/src/com/tsystems/javaschool/concurrency/MyReentantLock.java:48-63 | release by the owner lowers the count by 1 and clears `owner` exactly when the count reaches 0; release by anyone else throws and changes nothing |
| `Reentrant.MyReentantLock.TryLock` | Concurrency.1/src/com/tsystems/javaschool/concurrency/MyReentantLock.java:75-85 | `tryLock` returns true iff the lock was free, setting owner and count 1; it returns false and changes nothing whenever the lock is held, even by the caller |
| `Reentrant.Next` | Concurrency.1/src/com/tsystems/javaschool/concurrency/MyReentantLock.java:25-85 | one call keeps the hold-count invariant, changes nothing while another thread owns the lock, and never passes ownership directly from one thread to another |
| `Reentrant.RunKeepsInv` | Concurrency.1/src/com/tsystems/javaschool/concurrency/MyReentantLock.java:31-35 | every sequence of calls keeps the invariant "`owner` is non-null iff `lockCounter` >= 1, and the count is 0 when free" |
| `Reentrant.OwnerLocks` | Concurrency.1/src/com/tsystems/javaschool/concurrency/MyReentantLock.java:34-35 | `n` further `lock` calls by the owner raise the count by exactly `n` |
| `Reentrant.OwnerReleases` | Concurrency.1/src/com/tsystems/javaschool/concurrency/MyReentantLock.java:51-56 | `n` releases by the owner lower the count by `n` and free the lock exactly when `n` equals the count |
| `Reentrant.NestedLocksThenReleases` | Concurrency.1/src/com/tsystems/javaschool/concurrency/MyReentantLock.java:25-63 | on a free lock, `n` nested `lock` calls followed by `n` releases by the same thread leave the lock free |
| `Reentrant.OthersCannotInterfere` | Concurrency.1/src/com/tsystems/javaschool/concurrency/MyReentantLock.java:28-30 | while `t` owns the lock, no sequence of calls by other threads changes owner or count |
| `Reentrant.ReenterAsWritten` | Concurrency.1/src/com/tsystems/javaschool/concurrency/MyReentantLock.java:33-35 | the owner's reentry as written keeps it owner and adds 1 to the count below 2^31-1, but leaves a negative count at 2^31-1 |
| `Common.Int32Inc` | Concurrency.1/src/com/tsystems/javaschool/concurrency/MyReentantLock.java:35 | Java's `int` increment stays in 32-bit range and wraps from 2^31-1 to -2^31 |
| `Reentrant.ReenterAsWrittenOverflows` | Concurrency.1/src/com/tsystems/javaschool/concurrency/MyReentantLock.java:35 | with the count at 2^31-1, one more `lock` by the owner wraps the count to -2^31 while the lock stays held, breaking the invariant |
| `Seqs.RemoveFirst` | Concurrency.1/src/com/tsystems/javaschool/concurrency/MyFairLock.java:45 | `waiters.remove(waiter)` shortens the list by one exactly when the waiter is in it, and adds no element |
| `Seqs.RemoveFirstShape` | Concurrency.1/src/com/tsystems/javaschool/concurrency/MyFairLock.java:56 | `waiters.remove(waiter)` cuts out exactly the first occurrence of the waiter, and changes nothing when it is absent |
| `Seqs.RemoveFirstSubseq` | Concurrency.1/src/com/tsystems/javaschool/concurrency/MyFairLock.java:45 | removing a waiter leaves the others in their relative order |
| `Seqs.RemoveFirstMultiset` | Concurrency.1/src/com/tsystems/javaschool/concurrency/MyFairLock.java:54-58 | removing a waiter takes away one copy of it, if present, and nothing else |
| `FairLock.LockObj.constructor` | Concurrency.1/src/com/tsystems/javaschool/concurrency/MyFairLock.java:118-119 | a new waiter record is unsignaled |
| `FairLock.LockObj.Await` | Concurrency.1/src/com/tsystems/javaschool/concurrency/MyFairLock.java:127-132 | `await` proceeds iff `signaled` is set, and leaves it cleared |
| `FairLock.LockObj.Signal` | Concurrency.1/src/com/tsystems/javaschool/concurrency/MyFairLock.java:137-140 | `signal` sets `signaled` |
| `FairLock.MyFairLock.constructor` | Concurrency.1/src/com/tsystems/javaschool/concurrency/MyFairLock.java:14-17 | a new lock is free, with count 0 and no waiters |
| `FairLock.MyFairLock.LockEnter` | Concurrency.1/src/com/tsystems/javaschool/concurrency/MyFairLock.java:29-40 | `lock` by the owner raises the count by 1 and leaves `waiters` untouched; by anyone else it appends a fresh, unsignaled waiter at the tail and changes nothing else |
| `FairLock.MyFairLock.LockAcquireIfHead` | Concurrency.1/src/com/tsystems/javaschool/concurrency/MyFairLock.java:43-49 | the waiter acquires iff the lock is free and it heads `waiters`; it is then removed, the caller becomes owner with count 1; otherwise nothing changes |
| `FairLock.MyFairLock.LockCancel` | Concurrency.1/src/com/tsystems/javaschool/concurrency/MyFairLock.java:52-58 | an interrupted waiter is removed from `waiters` (first occurrence); owner and count are unchanged |
| `FairLock.MyFairLock.ReleaseLock` | Concurrency.1/src/com/tsystems/javaschool/concurrency/MyFairLock.java:73-90 | release by the owner lowers the count by 1; at 0 it clears `owner` and sets the `signaled` flag of the head waiter only, every other flag unchanged; release by anyone else throws and changes nothing |
| `FairLock.MyFairLock.TryLock` | Concurrency.1/src/com/tsystems/javaschool/concurrency/MyFairLock.java:102-112 | `tryLock` succeeds iff the lock is free, whatever the queue, setting count 1; it refuses a held lock, even the caller's own, changing nothing |
| `FairLock.Next` | Concurrency.1/src/com/tsystems/javaschool/concurrency/MyFairLock.java:29-111 | one call keeps the hold-count invariant, moves at most one waiter, lets a waiter acquire only from the head of a free lock, and leaves owner and count alone when another thread or a cancellation acts on a held lock |
| `FairLock.NextKeepsOrder` | Concurrency.1/src/com/tsystems/javaschool/concurrency/MyFairLock.java:29-111 | one call of any kind keeps the FIFO discipline: the waiters that acquire, then those still queued, are the old queue plus the arrivals with some left out and none reordered |
| `FairLock.RunKeepsOrder` | Concurrency.1/src/com/tsystems/javaschool/concurrency/MyFairLock.java:37-58 | over any sequence of calls, waiters acquire in arrival order, none while an earlier arrival is still queued, and cancellations keep the relative order of the rest |
| `FairLock.RunKeepsInv` | Concurrency.1/src/com/tsystems/javaschool/concurrency/MyFairLock.java:29-111 | every sequence of calls keeps "`owner` is non-null iff `lockCounter` >= 1, and the count is 0 when free" |
| `FairLock.OthersCannotTakeOver` | Concurrency.1/src/com/tsystems/javaschool/concurrency/MyFairLock.java:44-48 | while `t` owns the lock, calls by other threads and cancellations change neither owner nor count |
| `FairLock.UncontendedLockAcquires` | Concurrency.1/src/com/tsystems/javaschool/concurrency/MyFairLock.java:37-48 | on a free lock with no waiters, entering the queue and one acquiring attempt make the caller owner with count 1 and empty the queue |
| `FairLock.LockAsWritten` | Concurrency.1/src/com/tsystems/javaschool/concurrency/MyFairLock.java:29-62 | `lock` as written takes the fast path exactly for the owner, and returns without waiting or owning exactly when the lock is free and the new waiter is at the head; a call that enters the loop has appended its waiter and changed no owner, and then throws at `await` (exit `ThrowsAtAwait`) |
| `FairLock.LockAsWrittenNeverAcquires` | Concurrency.1/src/com/tsystems/javaschool/concurrency/MyFairLock.java:42-49 | with the loop test as written and no other thread acting, the acquiring branch is never reached, and a `lock` that returns without waiting leaves the caller not owning the lock unless it already did |
| `FairLock.LockAsWrittenOnFreeLock` | Concurrency.1/src/com/tsystems/javaschool/concurrency/MyFairLock.java:42 | as written, `lock` on a free lock with no waiters returns with the lock still free and the waiter left at the head; the caller's `releaseLock` then throws |
| `FairLock.LockAsWrittenOnHeldLock` | Concurrency.1/src/com/tsystems/javaschool/concurrency/MyFairLock.java:53-58 | as written, `lock` while another thread holds the lock throws at `await` with its waiter still queued; after the release that waiter heads the queue, and a later `lock` also throws because its acquiring test at line 44 fails and changes nothing while the stranded waiter heads the queue |
| `FairLock.LockAsWrittenOverflows` | Concurrency.1/src/com/tsystems/javaschool/concurrency/MyFairLock.java:32-33 | with the count at 2^31-1, one more `lock` by the owner wraps it to -2^31 while the lock stays held, breaking the invariant |
| `Pool.Next` | Concurrency.1/src/com/tsystems/javaschool/concurrency/WorkQueue.java:29-58 | `execute` only appends; a worker pass takes at most the head, only from a live worker, and never revives an ended worker; a worker ends only by taking a task whose throwable escapes |
| `Pool.PoolWorker.constructor` | Concurrency.1/src/com/tsystems/javaschool/concurrency/WorkQueue.java:24-25 | a created and started worker is alive |
| `Pool.WorkQueue.constructor` | Concurrency.1/src/com/tsystems/javaschool/concurrency/WorkQueue.java:18-27 | the pool gets a fresh array of exactly `nThreads` distinct workers, all alive, and an empty queue |
| `Pool.WorkQueue.Execute` | Concurrency.1/src/com/tsystems/javaschool/concurrency/WorkQueue.java:29-34 | `execute` appends the task at the tail of the queue and changes nothing else |
| `Pool.WorkQueue.WorkerStep` | Concurrency.1/src/com/tsystems/javaschool/concurrency/WorkQueue.java:40-58 | a pass of worker `k` takes a task iff its thread is alive and the queue is non-empty, removing and returning exactly the head; the worker stays alive after a normal completion or a caught `RuntimeException`, and its thread ends when another throwable escapes; no other worker changes |
| `Pool.WorkQueue.RunWorker` | Concurrency.1/src/com/tsystems/javaschool/concurrency/WorkQueue.java:37-60 | worker `k`'s loop, given how each task it takes ends, runs the queued tasks head first, each once, until the queue is empty or a task's throwable escapes; it ends right after the first escaping task, and stays alive iff none escaped |
| `Pool.NextTakesHead` | Concurrency.1/src/com/tsystems/javaschool/concurrency/WorkQueue.java:29-50 | a single `execute` or worker pass takes at most the head: what it took, then the queue after it, is the queue before it followed by what it submitted |
| `Pool.RunTakesInOrder` | Concurrency.1/src/com/tsystems/javaschool/concurrency/WorkQueue.java:29-50 | over any sequence of submissions and worker passes, the tasks taken followed by those still queued are exactly the submitted tasks in order; the number of workers never changes |
| `Pool.DrainedRunTakesEachSubmissionOnce` | Concurrency.1/src/com/tsystems/javaschool/concurrency/WorkQueue.java:41-50 | once the queue of a pool that started empty has drained, the tasks taken are exactly the submitted ones, each as often as it was submitted |
| `Pool.FaultsDoNotAffectThePool` | Concurrency.1/src/com/tsystems/javaschool/concurrency/WorkQueue.java:52-58 | a task that throws a `RuntimeException` changes nothing for the pool: any sequence of calls leaves the same live workers, queue and taken tasks as if those tasks had completed |
| `Pool.CaughtFaultsKeepEveryWorker` | Concurrency.1/src/com/tsystems/javaschool/concurrency/WorkQueue.java:52-58 | while no throwable other than a `RuntimeException` escapes a task, every worker that was alive stays alive |
| `Pool.EscapeEndsOneWorker` | Concurrency.1/src/com/tsystems/javaschool/concurrency/WorkQueue.java:54-58 | a live worker that takes a task whose throwable escapes ends, leaving exactly one live worker fewer, while a caught `RuntimeException` leaves every worker alive |
| `Pool.EndedWorkersStayEnded` | Concurrency.1/src/com/tsystems/javaschool/concurrency/WorkQueue.java:18-27 | a worker whose thread has ended is never restarted |
| `Pool.NoWorkerLeftTakesNothing` | Concurrency.1/src/com/tsystems/javaschool/concurrency/WorkQueue.java:40-50 | once every worker has ended, no task is taken any more and the queue only grows by the submitted tasks |

## Left out

- Real threads: `synchronized`, `wait`/`notify`, `Thread.start` and true interleaving are not modelled. A sequence of calls stands for one interleaving of atomic monitor sections. Liveness (every waiter eventually acquires, every task eventually runs) is not stated.
- Interruption of a blocked `lock` in `MyLock` and `MyReentantLock`: it registers nothing, so cancelling changes no state. It is not a separate step.
- Monitor misuse in `MyFairLock`. Line 42 reads `owner` and `waiters` without holding `lockObj`, and line 55 synchronizes on `this` instead of `lockObj`; these matter only under true concurrency and are not modelled. Line 129 is different: `await` is not `synchronized` and `lock` calls it at line 53 without holding the waiter's monitor, so every `this.wait()` throws `IllegalMonitorStateException`, in any interleaving. That is recorded under Findings and shown by `FairLock.LockAsWrittenOnHeldLock`. The step model adopts the intended effect: `FairLock.LockObj.Await` returns `Blocked` (a wait) while unsignaled, the head check runs under the monitor, and cancelling removes the waiter.
- `LockObj` notification: only the `signaled` flag is kept. The pure `FairLock.Next` leaves the flags out, and the class `MyFairLock` states them.
- `FairLock.MyFairLock.LockAcquireIfHead`: `waiters.get(0)` on an empty list would throw `IndexOutOfBoundsException`. The model treats an empty list as "not the head". A thread that follows `lock` always has its own waiter queued, so that case cannot arise.
- Task bodies, `e.printStackTrace()` and the uncaught-exception handler that reports an escaping throwable are not modelled. How a task ends is an input, `TaskOutcome`.
- The `InterruptedException` swallowed by the worker's wait at `WorkQueue.java:45` is not modelled. The worker simply waits again.
- Liveness of `MyFairLock` is not stated. `LockCancel` removes the waiter as line 56 does and signals nobody, so a head that `releaseLock` has just signaled and that is then interrupted leaves the lock free and the new head unsignaled, waiting with no release left to wake it. The model keeps that behaviour; no lemma states the stall.
- Pool construction with a negative `nThreads` throws `NegativeArraySizeException` in Java. The constructor takes a `nat`.

## Findings

| source | as written | input that shows it | evidently intended | confidence | as-written member | corrected member |
|---|---|---|---|---|---|---|
| Concurrency.1/src/com/tsystems/javaschool/concurrency/MyFairLock.java:42 | the loop runs while `owner != null \|\| waiter != waiters.get(0)`, the exact negation of the acquiring test at line 44; the loop therefore ends exactly when the lock could be taken, and `lock()` returns normally without taking it | a free lock with no waiters; thread 1 calls `lock()`: it returns, `owner` is still null, its waiter stays at the head, and its `releaseLock()` throws `IllegalStateException` | the loop ends only through the acquiring branch (`while (true)`), so a returning `lock()` always owns the lock | high; not executed | `FairLock.LockAsWrittenOnFreeLock` | `FairLock.MyFairLock.LockAcquireIfHead` |
| Concurrency.1/src/com/tsystems/javaschool/concurrency/MyReentantLock.java:35 | `lockCounter++` on a 32-bit `int` wraps from 2^31-1 to -2^31 | the owner holds the lock 2^31-1 times and calls `lock()` once more: the count becomes -2^31 while it still owns the lock | the hold count grows without wrapping, or the extra acquisition is refused | medium: needs 2^31-1 nested holds; not executed | `Reentrant.ReenterAsWrittenOverflows` | `Reentrant.RunKeepsInv` |
| Concurrency.1/src/com/tsystems/javaschool/concurrency/MyFairLock.java:33 | the reentrant fast path of `lock()` does `lockCounter++` on a 32-bit `int`, which wraps from 2^31-1 to -2^31 | the owner holds the lock 2^31-1 times and calls `lock()` once more: the count becomes -2^31 while it still owns the lock | the hold count grows without wrapping, or the extra acquisition is refused | medium: needs 2^31-1 nested holds; not executed | `FairLock.LockAsWrittenOverflows` | `FairLock.RunKeepsInv` |
| Concurrency.1/src/com/tsystems/javaschool/concurrency/MyFairLock.java:129 | `await` calls `this.wait()` without holding the `LockObj` monitor (the method is not `synchronized`, and `lock` calls it at line 53 outside any `synchronized (waiter)`), so it throws `IllegalMonitorStateException`; line 54 catches only `InterruptedException`, so `lock` throws and leaves its waiter in `waiters` | thread 2 calls `lock()` while thread 1 holds the lock: it throws at `await`; after thread 1 releases, thread 2's waiter heads the queue and any later `lock()` by thread 3 fails the head test at line 44 and throws too | `await` waits on its own monitor (`synchronized`, as `signal` is) until signaled | high; not executed | `FairLock.LockAsWrittenOnHeldLock` | `FairLock.LockObj.Await` |
