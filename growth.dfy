/** Growth of the statement buffer `g_buffer` (chunt.c:327-332, 344, 348). */
module Growth {

  /** `g_bufferSize` as `main` sets it. */
  const InitialSize: nat := 65535

  /** What the buffer grows by each time. */
  const Increment: nat := 1024

  /** Most bytes one iteration of the loop writes: a backslash and the character after it, or a
      terminator and the NUL after it. */
  const MaxWrite: nat := 2

  /** The size after the check as written: the buffer grows only once the offset has reached it. */
  function GrownSizeAsWritten(idx: nat, size: nat): nat
  {
    if idx >= size then size + Increment else size
  }

  /** The size after the corrected check: the buffer grows whenever the next iteration's writes
      might not fit. It never shrinks and always leaves room for them. */
  function GrownSize(idx: nat, size: nat): (r: nat)
    requires idx <= size
    ensures size <= r && idx + MaxWrite <= r
    ensures r == size || r == size + Increment
  {
    if idx + MaxWrite > size then size + Increment else size
  }
}
