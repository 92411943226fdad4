/** Go's fixed-width signed integer `int64` and its wrap-around subtraction. */
module GoInt {

  const MinInt64: int := -0x8000_0000_0000_0000
  const MaxInt64: int := 0x7fff_ffff_ffff_ffff

  type Int64 = x: int | MinInt64 <= x <= MaxInt64

  /** `a - b` on int64 operands: the mathematical difference taken modulo 2^64
      into the signed range, as Go's two's-complement arithmetic does. */
  function Sub64(a: Int64, b: Int64): (r: Int64)
    ensures (r - (a - b)) % 0x1_0000_0000_0000_0000 == 0
    ensures MinInt64 <= a - b <= MaxInt64 ==> r == a - b
  {
    var d := a - b;
    if d > MaxInt64 then d - 0x1_0000_0000_0000_0000
    else if d < MinInt64 then d + 0x1_0000_0000_0000_0000
    else d
  }

  /** Cumulative counters are never negative, so their difference never wraps. */
  lemma SubOfCountersIsExact(a: Int64, b: Int64)
    requires 0 <= a && 0 <= b
    ensures Sub64(a, b) == a - b
  {
  }
}
