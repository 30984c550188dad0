/** Types shared by the deletion queue, the transfer pipeline and the viewer. */
module Core {

  /** 2^64: one more than the largest value of a C++ uint64_t. */
  const UINT64_LIMIT: int := 0x1_0000_0000_0000_0000

  /** The values of a C++ uint64_t. */
  type uint64 = x: int | 0 <= x < UINT64_LIMIT

  datatype Option<T> = None | Some(value: T)

  /** The part of a frame stamp this model keeps: the frame number (the clock
      time and the simulation time are floating point and left out). */
  datatype FrameStamp = FrameStamp(frameCount: uint64)

  /** Unsigned 64-bit addition as C++ performs it: the sum modulo 2^64. The
      result is the true sum exactly when the sum fits, and only then is it
      at least the first operand. */
  function AddU64(a: uint64, b: uint64): (r: uint64)
    ensures r == a + b <==> a + b < UINT64_LIMIT
    ensures r >= a <==> a + b < UINT64_LIMIT
    ensures r == (a + b) % UINT64_LIMIT
  {
    if a + b < UINT64_LIMIT then a + b else a + b - UINT64_LIMIT
  }
}
