/** `MyReentantLock`: a reentrant mutex over the fields `owner` and
    `lockCounter` (the hold count). */
module Reentrant {
  import opened Common

  /** The lock's fields. `lockCounter` is unbounded here; what Java's 32-bit
      `int` does to it is modelled separately by `ReenterAsWritten`. */
  datatype RState = RState(owner: Option<Tid>, lockCounter: int)

  const Free: RState := RState(None, 0)

  /** The lock is held exactly when the hold count is positive, and free with count 0. */
  ghost predicate Inv(s: RState)
  {
    (s.owner.None? <==> s.lockCounter == 0) && s.lockCounter >= 0
  }

  datatype Call = LockCall(t: Tid) | ReleaseCall(t: Tid) | TryLockCall(t: Tid)

  /** One call by a thread. A `lock` whose wait loop still spins and a
      `releaseLock` that throws leave the state as it was. */
  function Next(s: RState, c: Call): (r: RState)
    ensures Inv(s) ==> Inv(r)
    ensures s.owner.Some? && s.owner != Some(c.t) ==> r == s
    ensures r.owner != s.owner ==> s.owner.None? || r.owner.None?
  {
    match c
    case LockCall(t) =>
      if s.owner.None? then RState(Some(t), 1)
      else if s.owner == Some(t) then s.(lockCounter := s.lockCounter + 1)
      else s
    case ReleaseCall(t) =>
      if s.owner == Some(t) then
        if s.lockCounter - 1 == 0 then RState(None, 0) else s.(lockCounter := s.lockCounter - 1)
      else s
    case TryLockCall(t) =>
      if s.owner.None? then RState(Some(t), 1) else s
  }

  function Run(s: RState, calls: seq<Call>): RState
    decreases |calls|
  {
    if calls == [] then s else Run(Next(s, calls[0]), calls[1..])
  }

  /** `n` copies of one call. */
  function Repeat(c: Call, n: nat): (r: seq<Call>)
    ensures |r| == n
  {
    if n == 0 then [] else [c] + Repeat(c, n - 1)
  }

  lemma {:induction false} RunAppend(s: RState, a: seq<Call>, b: seq<Call>)
    ensures Run(s, a + b) == Run(Run(s, a), b)
    decreases |a|
  {
    if a != [] {
      assert (a + b)[0] == a[0] && (a + b)[1..] == a[1..] + b;
      RunAppend(Next(s, a[0]), a[1..], b);
    } else {
      assert a + b == b;
    }
  }

  /** Every sequence of calls keeps "held exactly when the count is positive". */
  lemma {:induction false} RunKeepsInv(s: RState, calls: seq<Call>)
    requires Inv(s)
    ensures Inv(Run(s, calls))
    decreases |calls|
  {
    if calls != [] {
      RunKeepsInv(Next(s, calls[0]), calls[1..]);
    }
  }

  /** `n` more `lock` calls by the owner raise the hold count by exactly `n`. */
  lemma {:induction false} OwnerLocks(t: Tid, count: int, n: nat)
    requires count >= 1
    ensures Run(RState(Some(t), count), Repeat(LockCall(t), n)) == RState(Some(t), count + n)
    decreases n
  {
    if n > 0 {
      OwnerLocks(t, count + 1, n - 1);
    }
  }

  /** `n` releases by the owner lower the hold count by `n`, and free the lock
      exactly when the count reaches 0. */
  lemma {:induction false} OwnerReleases(t: Tid, count: int, n: nat)
    requires n <= count
    requires count >= 1
    ensures Run(RState(Some(t), count), Repeat(ReleaseCall(t), n))
         == if n == count then Free else RState(Some(t), count - n)
    decreases n
  {
    if n > 0 && count > 1 {
      OwnerReleases(t, count - 1, n - 1);
    } else if n > 0 {
      assert Repeat(ReleaseCall(t), n - 1) == [];
    }
  }

  /** On a free lock, `n` nested `lock` calls followed by `n` releases by the
      same thread leave the lock free again. */
  lemma NestedLocksThenReleases(t: Tid, n: nat)
    ensures Run(Free, Repeat(LockCall(t), n) + Repeat(ReleaseCall(t), n)) == Free
  {
    if n > 0 {
      RunAppend(Free, Repeat(LockCall(t), n), Repeat(ReleaseCall(t), n));
      OwnerLocks(t, 1, n - 1);
      OwnerReleases(t, n, n);
    }
  }

  /** While `t` holds the lock, calls by other threads change neither owner nor
      hold count. */
  lemma {:induction false} OthersCannotInterfere(s: RState, t: Tid, calls: seq<Call>)
    requires s.owner == Some(t)
    requires forall i :: 0 <= i < |calls| ==> calls[i].t != t
    ensures Run(s, calls) == s
    decreases |calls|
  {
    if calls != [] {
      assert forall i :: 0 <= i < |calls[1..]| ==> calls[1..][i] == calls[i + 1];
      OthersCannotInterfere(s, t, calls[1..]);
    }
  }

  /** The reentrant branch of `lock` as written, with `lockCounter++` on a 32-bit `int`. */
  function ReenterAsWritten(s: RState, t: Tid): (r: RState)
    requires s.owner == Some(t)
    requires -0x8000_0000 <= s.lockCounter < 0x8000_0000
    ensures r.owner == Some(t)
    ensures s.lockCounter < 0x7fff_ffff ==> r.lockCounter == s.lockCounter + 1
    ensures s.lockCounter == 0x7fff_ffff ==> r.lockCounter < 0
  {
    s.(lockCounter := Int32Inc(s.lockCounter))
  }

  /** The 2^31-th nested `lock` by the owner wraps the count to a negative value
      while the lock is still held, so `Inv` no longer holds. */
  lemma ReenterAsWrittenOverflows(t: Tid)
    ensures Inv(RState(Some(t), 0x7fff_ffff))
    ensures ReenterAsWritten(RState(Some(t), 0x7fff_ffff), t) == RState(Some(t), -0x8000_0000)
    ensures !Inv(ReenterAsWritten(RState(Some(t), 0x7fff_ffff), t))
  {
  }

  class MyReentantLock {
    var owner: Option<Tid>
    var lockCounter: int

    function State(): RState
      reads this
    {
      RState(owner, lockCounter)
    }

    ghost predicate Valid()
      reads this
    {
      Inv(State())
    }

    constructor ()
      ensures Valid() && State() == Free
    {
      owner := None;
      lockCounter := 0;
    }

    /** One attempt at `lock` by `t`. It proceeds on a free lock, taking it with
        count 1, and for the owner, adding 1 to the count; while another thread
        owns the lock its wait loop spins. */
    method Lock(t: Tid) returns (step: Step)
      requires Valid()
      modifies this
      ensures Valid()
      ensures step == Proceeded <==> old(owner) == None || old(owner) == Some(t)
      ensures old(owner) == None ==> owner == Some(t) && lockCounter == 1
      ensures old(owner) == Some(t) ==> owner == Some(t) && lockCounter == old(lockCounter) + 1
      ensures step == Blocked ==> State() == old(State())
      ensures State() == Next(old(State()), LockCall(t))
    {
      if owner != None && owner != Some(t) {
        return Blocked;
      }
      if owner == None {
        owner := Some(t);
        lockCounter := 1;
      } else if owner == Some(t) {
        lockCounter := lockCounter + 1;
      }
      step := Proceeded;
    }

    /** `releaseLock` by `t`. The owner lowers the count by 1 and frees the lock
        when it reaches 0; anyone else gets `IllegalStateException` and nothing
        changes. */
    method ReleaseLock(t: Tid) returns (r: Outcome)
      requires Valid()
      modifies this
      ensures Valid()
      ensures r == Ok <==> old(owner) == Some(t)
      ensures r == Ok ==> lockCounter == old(lockCounter) - 1
      ensures r == Ok ==> owner == if lockCounter == 0 then None else old(owner)
      ensures r == IllegalState ==> State() == old(State())
      ensures State() == Next(old(State()), ReleaseCall(t))
    {
      if owner == Some(t) {
        lockCounter := lockCounter - 1;
        if lockCounter == 0 {
          owner := None;
        }
        return Ok;
      } else {
        return IllegalState;
      }
    }

    /** `tryLock` by `t`: takes a free lock with count 1, and refuses a held one
        without waiting, even when `t` already owns it. */
    method TryLock(t: Tid) returns (acquired: bool)
      requires Valid()
      modifies this
      ensures Valid()
      ensures acquired <==> old(owner) == None
      ensures acquired ==> State() == RState(Some(t), 1)
      ensures !acquired ==> State() == old(State())
      ensures State() == Next(old(State()), TryLockCall(t))
    {
      if owner != None {
        return false;
      }
      owner := Some(t);
      lockCounter := 1;
      return true;
    }
  }
}
