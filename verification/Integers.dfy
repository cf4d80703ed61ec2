/** Signed 64-bit integers. */
module Integers {
  const MAX_INT64: int := 0x7FFF_FFFF_FFFF_FFFF
  const TWO_64: int := 0x1_0000_0000_0000_0000

  predicate InInt64(n: int) {
    -MAX_INT64 - 1 <= n <= MAX_INT64
  }

  /** Two's complement wrap-around. */
  function Wrap64(n: int): (w: int)
    ensures InInt64(w) && (n - w) % TWO_64 == 0
    ensures InInt64(n) ==> w == n
  {
    (n + MAX_INT64 + 1) % TWO_64 - MAX_INT64 - 1
  }
}
