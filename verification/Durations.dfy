/** Go's 64-bit integers and durations. */
module Durations {

  const LIMIT63 := 0x8000_0000_0000_0000

  type Int64 = x: int | -LIMIT63 <= x < LIMIT63

  const NANOS_PER_MILLI := 1_000_000

  function Min(a: int, b: int): int { if a <= b then a else b }
  function Max(a: int, b: int): int { if a >= b then a else b }

  /** Two's-complement wrap-around at 64 bits. */
  function Wrap64(x: int): Int64 {
    (x + LIMIT63) % (2 * LIMIT63) - LIMIT63
  }

  /** A multiple of 2^64 is all that wrapping takes away, and nothing from what fits. */
  lemma WrapMeaning(x: int)
    ensures (x - Wrap64(x)) % 0x1_0000_0000_0000_0000 == 0
    ensures -LIMIT63 <= x < LIMIT63 ==> Wrap64(x) == x
  {
    var m := 2 * LIMIT63;
    assert (x + LIMIT63) - (x + LIMIT63) % m == m * ((x + LIMIT63) / m);
    assert x - Wrap64(x) == m * ((x + LIMIT63) / m);
  }

  /** Integer division that truncates toward zero. */
  function Quot(a: int, n: int): int
    requires n > 0
  {
    if a >= 0 then a / n else -(-a / n)
  }

  /** The difference of two points in time: a duration, saturated at 64 bits. */
  function Elapsed(from: int, to: int): Int64 {
    Max(-LIMIT63, Min(to - from, LIMIT63 - 1))
  }

  /** A number of milliseconds as a duration in nanoseconds. */
  function Millis(ms: Int64): Int64 {
    Wrap64(ms * NANOS_PER_MILLI)
  }
}
