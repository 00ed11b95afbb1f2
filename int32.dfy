/** The conversion that happens when a pool stores `m_pool.size()` (a `size_t`)
    into its `int counts` result: the value is reduced modulo 2^32 and read
    back as a two's-complement 32-bit integer. */
module Int32 {

  const INT_MAX: int := 0x7fff_ffff
  const TWO_TO_32: int := 0x1_0000_0000

  /** The `int` that a non-negative count becomes. It is the count itself
      whenever the count fits, and it always agrees with the count modulo 2^32. */
  function ToInt32(n: nat): (r: int)
    ensures -INT_MAX - 1 <= r <= INT_MAX
    ensures n <= INT_MAX ==> r == n
    ensures (n - r) % TWO_TO_32 == 0
  {
    var m := n % TWO_TO_32;
    if m <= INT_MAX then m else m - TWO_TO_32
  }
}
