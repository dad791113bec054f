/** Go's `int` on a 64-bit platform: the range of `math.MinInt`..`math.MaxInt`
    and two's-complement wrap-around of an addition that leaves it. */
module Int64 {
  const TwoTo64: int := 0x1_0000_0000_0000_0000
  const MinInt: int := -0x8000_0000_0000_0000
  const MaxInt: int := 0x7FFF_FFFF_FFFF_FFFF

  predicate InRange(x: int) {
    MinInt <= x <= MaxInt
  }

  /** The value a Go `int` holds after an arithmetic result `x` is stored in it. */
  function Wrap(x: int): (r: int)
    ensures InRange(r)
    ensures InRange(x) ==> r == x
    ensures (x - r) % TwoTo64 == 0
  {
    (x - MinInt) % TwoTo64 + MinInt
  }

  function Max(a: int, b: int): (r: int)
    ensures r >= a && r >= b && (r == a || r == b)
  {
    if a >= b then a else b
  }

  function Min(a: int, b: int): (r: int)
    ensures r <= a && r <= b && (r == a || r == b)
  {
    if a <= b then a else b
  }
}
