/** Integer conversions of the sources. */
module Integers {
  /** Rust's `v as i32` and C's `(int)`: the value modulo 2^32, in signed range. */
  function AsInt32(v: int): (r: int)
    ensures -0x8000_0000 <= r < 0x8000_0000 && (v - r) % 0x1_0000_0000 == 0
  {
    (v + 0x8000_0000) % 0x1_0000_0000 - 0x8000_0000
  }
}
