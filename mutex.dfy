/** `MyLock`: a non-reentrant mutex. Its only state is the `owner` field;
    `None` stands for Java's `null`. */
module Mutex {
  import opened Common

  /** A call on the lock by thread `t`. */
  datatype Call = LockCall(t: Tid) | UnlockCall(t: Tid) | TryLockCall(t: Tid)

  /** A change of ownership. */
  datatype Event = Acquire(t: Tid) | Release(t: Tid)

  /** One call from the state `owner`: the new owner, and the change of
      ownership it made if it made one. A `lock` whose wait loop still spins, a
      refused `tryLock` and an `unlock` that throws leave the owner as it was. */
  function Next(owner: Option<Tid>, c: Call): (r: (Option<Tid>, Option<Event>))
    ensures r.1.None? <==> r.0 == owner
    ensures r.1.Some? ==> r.1.value.t == c.t
    ensures r.1.Some? && r.1.value.Acquire? ==> owner.None? && r.0 == Some(c.t)
    ensures r.1.Some? && r.1.value.Release? ==> owner == Some(c.t) && r.0.None?
  {
    match c
    case LockCall(t) => if owner.None? then (Some(t), Some(Acquire(t))) else (owner, None)
    case TryLockCall(t) => if owner.None? then (Some(t), Some(Acquire(t))) else (owner, None)
    case UnlockCall(t) => if owner == Some(t) then (None, Some(Release(t))) else (owner, None)
  }

  /** A sequence of calls: the final owner and the changes of ownership, in order. */
  function Run(owner: Option<Tid>, calls: seq<Call>): (Option<Tid>, seq<Event>)
    decreases |calls|
  {
    if calls == [] then (owner, [])
    else
      var step := Next(owner, calls[0]);
      var rest := Run(step.0, calls[1..]);
      (rest.0, Logged(step.1) + rest.1)
  }

  /** The change a call made, as a log entry. */
  function Logged(e: Option<Event>): seq<Event>
  {
    if e.Some? then [e.value] else []
  }

  /** Starting from `owner`, the changes in `log` bracket ownership: every
      acquire happens on a free lock, and every release is made by the thread
      that acquired it last. */
  ghost predicate Bracketed(owner: Option<Tid>, log: seq<Event>)
    decreases |log|
  {
    log == [] ||
    match owner
    case None => log[0].Acquire? && Bracketed(Some(log[0].t), log[1..])
    case Some(t) => log[0] == Release(t) && Bracketed(None, log[1..])
  }

  /** Who holds the lock after the changes in `log`, read off its last change. */
  function HolderAfter(owner: Option<Tid>, log: seq<Event>): Option<Tid>
  {
    if log == [] then owner
    else match log[|log| - 1]
      case Acquire(t) => Some(t)
      case Release(_) => None
  }

  /** Mutual exclusion over any sequence of calls: ownership passes from one
      thread to the next only through a release by the holder, and the final
      owner is the last acquirer unless it has released since. */
  lemma {:induction false} RunIsBracketed(owner: Option<Tid>, calls: seq<Call>)
    ensures Bracketed(owner, Run(owner, calls).1)
    ensures Run(owner, calls).0 == HolderAfter(owner, Run(owner, calls).1)
    decreases |calls|
  {
    if calls != [] {
      var step := Next(owner, calls[0]);
      RunIsBracketed(step.0, calls[1..]);
      var rest := Run(step.0, calls[1..]).1;
      var log := Logged(step.1) + rest;
      assert Run(owner, calls) == (Run(step.0, calls[1..]).0, log);
      if step.1.Some? {
        assert log[1..] == rest;
        assert rest != [] ==> log[|log| - 1] == rest[|rest| - 1];
      } else {
        assert log == rest && step.0 == owner;
      }
    }
  }

  /** While `t` holds the lock, calls by other threads change nothing: their
      `lock` waits, their `tryLock` is refused and their `unlock` throws. */
  lemma {:induction false} OthersCannotInterfere(t: Tid, calls: seq<Call>)
    requires forall i :: 0 <= i < |calls| ==> calls[i].t != t
    ensures Run(Some(t), calls) == (Some(t), [])
    decreases |calls|
  {
    if calls != [] {
      assert forall i :: 0 <= i < |calls[1..]| ==> calls[1..][i] == calls[i + 1];
      OthersCannotInterfere(t, calls[1..]);
      assert Next(Some(t), calls[0]) == (Some(t), None);
      assert Logged(None) + [] == [];
    }
  }

  class MyLock {
    var owner: Option<Tid>

    constructor ()
      ensures owner == None
    {
      owner := None;
    }

    /** One attempt at `lock` by `t`: its wait loop spins while the lock has an
        owner, including when that owner is `t` itself (no reentrancy). */
    method Lock(t: Tid) returns (step: Step)
      modifies this
      ensures step == Proceeded <==> old(owner) == None
      ensures owner == (if step == Proceeded then Some(t) else old(owner))
      ensures owner == Next(old(owner), LockCall(t)).0
    {
      if owner == None {
        owner := Some(t);
        step := Proceeded;
      } else {
        step := Blocked;
      }
    }

    /** `unlock` by `t`: frees the lock if `t` owns it, and otherwise throws
        `IllegalStateException` and changes nothing, also on a free lock. */
    method Unlock(t: Tid) returns (r: Outcome)
      modifies this
      ensures r == Ok <==> old(owner) == Some(t)
      ensures owner == (if r == Ok then None else old(owner))
      ensures owner == Next(old(owner), UnlockCall(t)).0
    {
      if owner == Some(t) {
        owner := None;
        r := Ok;
      } else {
        r := IllegalState;
      }
    }

    /** `tryLock` by `t`: never waits; takes a free lock, and refuses a held
        one, even when `t` is the holder. */
    method TryLock(t: Tid) returns (acquired: bool)
      modifies this
      ensures acquired <==> old(owner) == None
      ensures owner == (if acquired then Some(t) else old(owner))
      ensures owner == Next(old(owner), TryLockCall(t)).0
    {
      if owner != None {
        return false;
      }
      owner := Some(t);
      return true;
    }
  }
}
