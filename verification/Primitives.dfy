/** Bytes, and the two units of the database clock. */
module Primitives {
  type Byte = b: int | 0 <= b < 256

  /** The clock runs in microseconds; TIMESTAMP(3) rounds to the nearest millisecond. */
  function ToMillis(clock: int): int { (clock + 500) / 1000 }

  /** The nearest millisecond, halves upwards. */
  lemma ToMillisNearest(clock: int)
    ensures clock - 500 < 1000 * ToMillis(clock) <= clock + 500
  {
  }
}
