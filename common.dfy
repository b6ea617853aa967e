/** Vocabulary shared by the three locks and the worker pool. */
module Common {
  /** A thread's identity. Each operation receives the calling thread
      (`Thread.currentThread()` in Java) as an explicit argument. */
  type Tid = nat

  datatype Option<T> = None | Some(value: T)

  /** The result of one attempt at a step that may block. `Blocked` means the
      guard of the step's wait loop still holds: the calling thread goes on
      waiting and attempts the step again once it is woken. A blocked attempt
      changes nothing. */
  datatype Step = Proceeded | Blocked

  /** How a release returns: normally, or by throwing `IllegalStateException`. */
  datatype Outcome = Ok | IllegalState

  /** Java's `int` increment: stays in the 32-bit range and wraps from
      2^31 - 1 to -2^31. Both locks keep their hold count in an `int`. */
  function Int32Inc(x: int): (r: int)
    requires -0x8000_0000 <= x < 0x8000_0000
    ensures -0x8000_0000 <= r < 0x8000_0000
    ensures r == if x == 0x7fff_ffff then -0x8000_0000 else x + 1
  {
    (x + 1 + 0x8000_0000) % 0x1_0000_0000 - 0x8000_0000
  }
}
