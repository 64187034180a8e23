/** Go's signed 64-bit arithmetic: results are reduced into [-2^63, 2^63). */
module Int64 {
  const TWO_62: int := 0x4000_0000_0000_0000
  const TWO_63: int := 0x8000_0000_0000_0000
  const TWO_64: int := 0x1_0000_0000_0000_0000

  predicate Fits(x: int) {
    -TWO_63 <= x < TWO_63
  }

  type int64 = x: int | Fits(x)

  function Wrap(x: int): (r: int64)
    ensures Fits(x) ==> r == x
  {
    (x + TWO_63) % TWO_64 - TWO_63
  }

  /** The one 64-bit number that differs by a multiple of 2^64. */
  lemma WrapIff(x: int, r: int)
    ensures Wrap(x) == r <==>
      && -0x8000_0000_0000_0000 <= r < 0x8000_0000_0000_0000 && (x - r) % 0x1_0000_0000_0000_0000 == 0
  {
  }
}
