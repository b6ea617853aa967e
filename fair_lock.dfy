/** `MyFairLock`: a reentrant mutex that hands the lock to blocked threads in
    arrival order. Beside `owner` and `lockCounter` it keeps `waiters`, a FIFO
    list of `LockObj` signal records, one per blocked `lock` call.

    A `lock` call is modelled as the steps a thread goes through: `LockEnter`
    (the reentrant fast path, or joining the tail of `waiters`), then attempts
    at `LockAcquireIfHead`, between which the thread awaits its own `LockObj`;
    an interrupted wait ends with `LockCancel`. */
module FairLock {
  import opened Common
  import opened Seqs

  /** The lock's fields, over any type `W` of waiter identities. */
  datatype FairState<W> = FairState(owner: Option<Tid>, lockCounter: int, waiters: seq<W>)

  /** The lock is held exactly when the hold count is positive, and free with count 0. */
  ghost predicate Inv<W>(s: FairState<W>)
  {
    (s.owner.None? <==> s.lockCounter == 0) && s.lockCounter >= 0
  }

  datatype Call<W> =
    | EnterCall(t: Tid, w: W)       // fast path, or append the new waiter `w`
    | AcquireCall(t: Tid, w: W)     // the check under the monitor for waiter `w`
    | CancelCall(w: W)              // an interrupted waiter leaves the queue
    | ReleaseCall(t: Tid)
    | TryLockCall(t: Tid)

  /** What a call did to the queue: the waiters it appended and the waiters
      that left it by acquiring the lock. */
  datatype Moves<W> = Moves(arrived: seq<W>, acquired: seq<W>)

  predicate IsHead<W(==)>(s: FairState<W>, w: W)
  {
    |s.waiters| > 0 && s.waiters[0] == w
  }

  /** One call. An `AcquireCall` that finds the lock held or `w` not at the
      head blocks and changes nothing; a `ReleaseCall` by a thread other than
      the owner throws and changes nothing. */
  function Next<W(==)>(s: FairState<W>, c: Call<W>): (r: (FairState<W>, Moves<W>))
    ensures Inv(s) ==> Inv(r.0)
    ensures |r.1.arrived| + |r.1.acquired| <= 1
    ensures r.1.acquired != [] ==> s.owner.None? && IsHead(s, r.1.acquired[0])
    ensures s.owner.Some? && Caller(c) != s.owner ==> r.0.owner == s.owner && r.0.lockCounter == s.lockCounter
  {
    match c
    case EnterCall(t, w) =>
      if s.owner == Some(t) then (s.(lockCounter := s.lockCounter + 1), Moves([], []))
      else (s.(waiters := s.waiters + [w]), Moves([w], []))
    case AcquireCall(t, w) =>
      if s.owner.None? && IsHead(s, w) then (FairState(Some(t), 1, RemoveFirst(s.waiters, w)), Moves([], [w]))
      else (s, Moves([], []))
    case CancelCall(w) =>
      (s.(waiters := RemoveFirst(s.waiters, w)), Moves([], []))
    case ReleaseCall(t) =>
      if s.owner == Some(t) then
        if s.lockCounter - 1 == 0 then (FairState(None, 0, s.waiters), Moves([], []))
        else (s.(lockCounter := s.lockCounter - 1), Moves([], []))
      else (s, Moves([], []))
    case TryLockCall(t) =>
      if s.owner.None? then (s.(owner := Some(t), lockCounter := 1), Moves([], []))
      else (s, Moves([], []))
  }

  /** A sequence of calls: the final state, and all waiters that arrived and
      that acquired, each in order. */
  function Run<W(==)>(s: FairState<W>, calls: seq<Call<W>>): (FairState<W>, Moves<W>)
    decreases |calls|
  {
    if calls == [] then (s, Moves([], []))
    else
      var step := Next(s, calls[0]);
      var rest := Run(step.0, calls[1..]);
      (rest.0, Moves(step.1.arrived + rest.1.arrived, step.1.acquired + rest.1.acquired))
  }

  /** The FIFO discipline between a queue `before` and the result `r` of some
      calls: the waiters that acquired, followed by those still queued, are
      `before` plus the arrivals with some left out and none reordered. */
  ghost predicate KeepsOrder<W>(before: seq<W>, r: (FairState<W>, Moves<W>))
  {
    Subseq(r.1.acquired + r.0.waiters, before + r.1.arrived)
  }

  /** One call keeps the FIFO discipline. */
  lemma NextKeepsOrder<W>(s: FairState<W>, c: Call<W>)
    ensures KeepsOrder(s.waiters, Next(s, c))
  {
    var r := Next(s, c);
    if c.CancelCall? {
      RemoveFirstSubseq(s.waiters, c.w);
      assert r.1.acquired + r.0.waiters == RemoveFirst(s.waiters, c.w);
      assert s.waiters + r.1.arrived == s.waiters;
    } else {
      if c.AcquireCall? && s.owner.None? && IsHead(s, c.w) {
        assert r.1.acquired + r.0.waiters == [c.w] + s.waiters[1..];
      }
      assert r.1.acquired + r.0.waiters == s.waiters + r.1.arrived;
      SubseqRefl(s.waiters + r.1.arrived);
    }
  }

  /** FIFO fairness over any sequence of calls: waiters acquire in the order in
      which they joined the queue, and none acquires while an earlier arrival is
      still queued. Cancelled waiters simply drop out; the others keep their
      relative order. */
  lemma {:induction false} RunKeepsOrder<W>(s: FairState<W>, calls: seq<Call<W>>)
    ensures KeepsOrder(s.waiters, Run(s, calls))
    decreases |calls|
  {
    if calls == [] {
      var r := Run(s, calls);
      assert r.1.acquired + r.0.waiters == s.waiters == s.waiters + r.1.arrived;
      SubseqRefl(s.waiters);
    } else {
      var first := Next(s, calls[0]);
      var rest := Run(first.0, calls[1..]);
      NextKeepsOrder(s, calls[0]);
      RunKeepsOrder(first.0, calls[1..]);
      SubseqChain(first.1.acquired, first.0.waiters, s.waiters, first.1.arrived,
                  rest.1.acquired, rest.0.waiters, rest.1.arrived);
    }
  }

  /** Every sequence of calls keeps "held exactly when the count is positive". */
  lemma {:induction false} RunKeepsInv<W>(s: FairState<W>, calls: seq<Call<W>>)
    requires Inv(s)
    ensures Inv(Run(s, calls).0)
    decreases |calls|
  {
    if calls != [] {
      RunKeepsInv(Next(s, calls[0]).0, calls[1..]);
    }
  }

  /** The thread a call is made by, if it names one. */
  function Caller<W>(c: Call<W>): Option<Tid>
  {
    match c
    case EnterCall(t, _) => Some(t)
    case AcquireCall(t, _) => Some(t)
    case CancelCall(_) => None
    case ReleaseCall(t) => Some(t)
    case TryLockCall(t) => Some(t)
  }

  /** While `t` holds the lock, other threads may join or leave the queue but
      change neither the owner nor the hold count. */
  lemma {:induction false} OthersCannotTakeOver<W>(s: FairState<W>, t: Tid, calls: seq<Call<W>>)
    requires s.owner == Some(t)
    requires forall i :: 0 <= i < |calls| ==> Caller(calls[i]) != Some(t)
    ensures Run(s, calls).0.owner == Some(t)
    ensures Run(s, calls).0.lockCounter == s.lockCounter
    decreases |calls|
  {
    if calls != [] {
      assert forall i :: 0 <= i < |calls[1..]| ==> calls[1..][i] == calls[i + 1];
      var s1 := Next(s, calls[0]).0;
      assert s1.owner == s.owner && s1.lockCounter == s.lockCounter;
      OthersCannotTakeOver(s1, t, calls[1..]);
    }
  }

  /** A thread that calls `lock` on a free lock with no waiters holds it after
      entering the queue and one attempt at the head. */
  lemma UncontendedLockAcquires<W>(t: Tid, w: W)
    ensures Run(FairState(None, 0, []), [EnterCall(t, w), AcquireCall(t, w)])
         == (FairState(Some(t), 1, []), Moves([w], [w]))
  {
    var calls := [EnterCall(t, w), AcquireCall(t, w)];
    var s1 := Next(FairState(None, 0, []), EnterCall(t, w)).0;
    assert s1 == FairState(None, 0, [w]);
    assert calls[1..] == [AcquireCall(t, w)] && calls[1..][1..] == [];
    assert RemoveFirst([w], w) == [];
    assert Next(s1, AcquireCall(t, w)) == (FairState(Some(t), 1, []), Moves([], [w]));
    var held: FairState<W> := FairState(Some(t), 1, []);
    var none: seq<W> := [];
    assert Run(held, calls[1..][1..]) == (held, Moves(none, none));
    assert none + none == none && [w] + none == [w] && none + [w] == [w];
    assert Run(s1, calls[1..]) == (FairState(Some(t), 1, []), Moves([], [w]));
  }

  // ---- `lock` as written ----

  /** How one uninterrupted run of `lock` ends as written (lines 29-62) when
      no other thread acts meanwhile. `ThrowsAtAwait`: the loop body calls
      `waiter.await()` on the caller's new, unsignaled waiter, whose
      `this.wait()` (line 129) runs without holding the waiter's monitor and
      throws `IllegalMonitorStateException`; line 54 catches only
      `InterruptedException`, so `lock` throws with its waiter still queued. */
  datatype Exit = FastPath | ReturnsWithoutLock | AcquiresAtLine44 | ThrowsAtAwait

  /** `lock` as written. Its loop runs while `owner != null || waiter !=
      waiters.get(0)`, which is the exact negation of the acquiring test inside
      it; so the loop stops before it can acquire, and `lock` returns normally
      with the lock not taken and its waiter left at the head. */
  function LockAsWritten<W(==)>(s: FairState<W>, t: Tid, w: W): (r: (FairState<W>, Exit))
    requires -0x8000_0000 <= s.lockCounter < 0x8000_0000
    ensures r.1 == FastPath <==> s.owner == Some(t)
    ensures r.1 == ReturnsWithoutLock <==> s.owner.None? && (s.waiters == [] || s.waiters[0] == w)
    ensures r.1 == ThrowsAtAwait ==> r.0.waiters == s.waiters + [w] && r.0.owner == s.owner
  {
    if s.owner == Some(t) then (s.(lockCounter := Int32Inc(s.lockCounter)), FastPath)
    else
      var q := s.(waiters := s.waiters + [w]);
      if !(q.owner.Some? || q.waiters[0] != w) then (q, ReturnsWithoutLock)
      else if q.owner.None? && q.waiters[0] == w then (FairState(Some(t), 1, RemoveFirst(q.waiters, w)), AcquiresAtLine44)
      else (q, ThrowsAtAwait)
  }

  /** As written, the acquiring branch is never reached without interference
      from another thread, and whenever `lock` returns without waiting the
      caller does not own the lock unless it already did. */
  lemma LockAsWrittenNeverAcquires<W>(s: FairState<W>, t: Tid, w: W)
    requires -0x8000_0000 <= s.lockCounter < 0x8000_0000
    ensures LockAsWritten(s, t, w).1 != AcquiresAtLine44
    ensures LockAsWritten(s, t, w).1 == ReturnsWithoutLock ==> LockAsWritten(s, t, w).0.owner != Some(t)
  {
  }

  /** The witness: on a free lock with no waiters, `lock` by `t` returns
      normally, the lock is still free, `t`'s waiter stays at the head, and
      `t`'s following `releaseLock` throws `IllegalStateException`. */
  lemma LockAsWrittenOnFreeLock<W>(t: Tid, w: W)
    ensures LockAsWritten(FairState(None, 0, []), t, w) == (FairState(None, 0, [w]), ReturnsWithoutLock)
    ensures Next(FairState(None, 0, [w]), ReleaseCall(t)).0 == FairState(None, 0, [w])
  {
    assert [] + [w] == [w];
  }

  /** The witness for line 129: `lock` by `t` while another thread `u` holds
      the lock throws at `await`, leaving `t`'s waiter queued. Once `u`
      releases, that waiter heads the queue for good: a later waiter `w2` can
      never pass the head test at line 44. */
  lemma LockAsWrittenOnHeldLock<W>(t: Tid, u: Tid, w: W, w2: W)
    requires t != u && w != w2
    ensures LockAsWritten(FairState(Some(u), 1, []), t, w) == (FairState(Some(u), 1, [w]), ThrowsAtAwait)
    ensures Next(FairState(Some(u), 1, [w]), ReleaseCall(u)).0 == FairState(None, 0, [w])
    ensures LockAsWritten(FairState(None, 0, [w]), t, w2) == (FairState(None, 0, [w, w2]), ThrowsAtAwait)
    ensures Next(FairState(None, 0, [w, w2]), AcquireCall(t, w2)).0 == FairState(None, 0, [w, w2])
  {
    assert [] + [w] == [w];
    assert [w] + [w2] == [w, w2];
  }

  /** The reentrant fast path as written keeps `lockCounter++` on a 32-bit
      `int`: at 2^31 - 1 holds one more `lock` by the owner wraps the count to
      -2^31 while the lock stays held, so `Inv` no longer holds. */
  lemma LockAsWrittenOverflows<W>(t: Tid, waiters: seq<W>, w: W)
    ensures Inv(FairState(Some(t), 0x7fff_ffff, waiters))
    ensures LockAsWritten(FairState(Some(t), 0x7fff_ffff, waiters), t, w)
         == (FairState(Some(t), -0x8000_0000, waiters), FastPath)
    ensures !Inv(LockAsWritten(FairState(Some(t), 0x7fff_ffff, waiters), t, w).0)
  {
  }

  // ---- the classes ----

  /** A waiter's signal record: `signal` sets `signaled`, and `await` returns
      once it is set, clearing it. */
  class LockObj {
    var signaled: bool

    constructor ()
      ensures !signaled
    {
      signaled := false;
    }

    /** One attempt at `await`: proceeds, clearing the flag, exactly when the
        flag is set; otherwise its wait loop goes on waiting. */
    method Await() returns (step: Step)
      modifies this
      ensures step == Proceeded <==> old(signaled)
      ensures !signaled
    {
      if signaled {
        signaled := false;
        step := Proceeded;
      } else {
        step := Blocked;
      }
    }

    method Signal()
      modifies this
      ensures signaled
    {
      signaled := true;
    }
  }

  /** How `LockEnter` went: the caller already owned the lock, or it has
      joined the queue with a new waiter. */
  datatype Entry = Reentered | Queued(waiter: LockObj)

  class MyFairLock {
    var owner: Option<Tid>
    var waiters: seq<LockObj>
    var lockCounter: int

    function State(): FairState<LockObj>
      reads this
    {
      FairState(owner, lockCounter, waiters)
    }

    /** Besides `Inv`, no waiter is queued twice: each `lock` call creates its own. */
    ghost predicate Valid()
      reads this
    {
      Inv(State()) && Distinct(waiters)
    }

    constructor ()
      ensures Valid() && State() == FairState(None, 0, [])
    {
      owner := None;
      waiters := [];
      lockCounter := 0;
    }

    /** The start of `lock` by `t`: the owner adds 1 to the count and leaves
        the queue alone; any other thread appends a new, unsignaled waiter at
        the tail. */
    method LockEnter(t: Tid) returns (entry: Entry)
      requires Valid()
      modifies this
      ensures Valid()
      ensures entry == Reentered <==> old(owner) == Some(t)
      ensures entry == Reentered ==> State() == old(State()).(lockCounter := old(lockCounter) + 1)
      ensures entry.Queued? ==> fresh(entry.waiter) && !entry.waiter.signaled
      ensures entry.Queued? ==> State() == old(State()).(waiters := old(waiters) + [entry.waiter])
      ensures entry.Queued? ==> State() == Next(old(State()), EnterCall(t, entry.waiter)).0
    {
      if owner == Some(t) {
        lockCounter := lockCounter + 1;
        return Reentered;
      }
      var waiter := new LockObj();
      AppendDistinct(waiters, waiter);
      waiters := waiters + [waiter];
      entry := Queued(waiter);
    }

    /** One attempt by `t`, holding `waiter`, to take the lock: it succeeds
        exactly when the lock is free and `waiter` heads the queue, and then
        removes `waiter` and takes the lock with count 1. */
    method LockAcquireIfHead(t: Tid, waiter: LockObj) returns (step: Step)
      requires Valid()
      modifies this
      ensures Valid()
      ensures step == Proceeded <==> old(owner) == None && |old(waiters)| > 0 && old(waiters)[0] == waiter
      ensures step == Proceeded ==> owner == Some(t) && lockCounter == 1 && waiters == old(waiters)[1..]
      ensures step == Blocked ==> State() == old(State())
      ensures State() == Next(old(State()), AcquireCall(t, waiter)).0
    {
      if owner == None && |waiters| > 0 && waiters[0] == waiter {
        RemoveFirstDistinct(waiters, waiter);
        waiters := RemoveFirst(waiters, waiter);
        owner := Some(t);
        lockCounter := 1;
        return Proceeded;
      }
      return Blocked;
    }

    /** An interrupted wait: `waiter` leaves the queue and the others keep
        their order; then `lock` rethrows the `InterruptedException`. */
    method LockCancel(waiter: LockObj)
      requires Valid()
      modifies this
      ensures Valid()
      ensures waiters == RemoveFirst(old(waiters), waiter)
      ensures owner == old(owner) && lockCounter == old(lockCounter)
      ensures State() == Next(old(State()), CancelCall(waiter)).0
    {
      RemoveFirstDistinct(waiters, waiter);
      waiters := RemoveFirst(waiters, waiter);
    }

    /** `releaseLock` by `t`. The owner lowers the count by 1; when it reaches
        0 the lock becomes free and only the head waiter is signaled. Anyone
        else gets `IllegalStateException` and nothing changes. */
    method ReleaseLock(t: Tid) returns (r: Outcome)
      requires Valid()
      modifies this, waiters
      ensures Valid()
      ensures waiters == old(waiters)
      ensures r == Ok <==> old(owner) == Some(t)
      ensures r == Ok ==> lockCounter == old(lockCounter) - 1
      ensures r == Ok ==> owner == if lockCounter == 0 then None else old(owner)
      ensures r == IllegalState ==> State() == old(State())
      ensures forall i :: 0 <= i < |waiters| ==>
                waiters[i].signaled == (old(waiters[i].signaled) || (i == 0 && r == Ok && lockCounter == 0))
      ensures State() == Next(old(State()), ReleaseCall(t)).0
    {
      if owner == Some(t) {
        lockCounter := lockCounter - 1;
        if lockCounter == 0 {
          owner := None;
          if |waiters| > 0 {
            waiters[0].Signal();
          }
        }
        return Ok;
      } else {
        return IllegalState;
      }
    }

    /** `tryLock` by `t`: takes a free lock with count 1 regardless of the
        queue, and refuses a held one, even when `t` owns it. */
    method TryLock(t: Tid) returns (acquired: bool)
      requires Valid()
      modifies this
      ensures Valid()
      ensures acquired <==> old(owner) == None
      ensures acquired ==> owner == Some(t) && lockCounter == 1 && waiters == old(waiters)
      ensures !acquired ==> State() == old(State())
      ensures State() == Next(old(State()), TryLockCall(t)).0
    {
      if owner != None {
        return false;
      }
      owner := Some(t);
      lockCounter := 1;
      return true;
    }
  }
}
