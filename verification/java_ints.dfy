/** Java's fixed-width integer types, as ranges of mathematical integers. */
module JavaInts {

  const TwoTo31: int := 0x8000_0000
  const TwoTo32: int := 0x1_0000_0000
  const TwoTo63: int := 0x8000_0000_0000_0000
  const TwoTo64: int := 0x1_0000_0000_0000_0000

  /** Java's `int`. */
  predicate IsInt32(x: int) {
    -TwoTo31 <= x < TwoTo31
  }

  /** Java's `long`. */
  type Long = x: int | -TwoTo63 <= x < TwoTo63
}
