/** The two pieces of IEEE-754 binary64 arithmetic the size formatter relies
    on: round-to-nearest with ties to even, and the conversion `float64(s)`
    of an integer, whose significand holds 53 bits. */
module Float64 {

  const TwoTo52: int := 0x10_0000_0000_0000
  const TwoTo53: int := 0x20_0000_0000_0000

  /** The integer nearest to n / d; on an exact tie, the even one. */
  function RoundHalfEven(n: int, d: int): (q: int)
    requires d > 0
    ensures -d <= 2 * (n - q * d) <= d
    ensures (2 * (n - q * d) == d || 2 * (n - q * d) == -d) ==> q % 2 == 0
    ensures n % d == 0 ==> q * d == n
    ensures n >= 0 ==> q >= 0
  {
    var q0 := n / d;
    var r := n % d;
    assert n == q0 * d + r;
    assert (q0 + 1) * d == q0 * d + d;
    if 2 * r < d then q0
    else if 2 * r > d then q0 + 1
    else if q0 % 2 == 0 then q0
    else q0 + 1
  }

  /** The two clauses of RoundHalfEven's contract pin its result down: no
      other integer is as near to n / d under the same tie rule. */
  lemma RoundHalfEvenUnique(n: int, d: int, q: int)
    requires d > 0
    requires -d <= 2 * (n - q * d) <= d
    requires (2 * (n - q * d) == d || 2 * (n - q * d) == -d) ==> q % 2 == 0
    ensures q == RoundHalfEven(n, d)
  {
    var p := RoundHalfEven(n, d);
    var a, b := n - q * d, n - p * d;
    // Both quotients are within d/2 of n/d, so a - b == (p - q) * d lies in
    // [-d, d]: they differ by at most one, and by one only on a tie, where
    // just the even one is allowed.
    ScaledDifference(p, q, d);
    assert a - b == (p - q) * d;
    StepBound(p - q, d);
  }

  lemma ScaledDifference(p: int, q: int, d: int)
    ensures p * d - q * d == (p - q) * d
  {
  }

  /** A multiple k * d of a positive d that lies within [-d, d] has |k| <= 1. */
  lemma StepBound(k: int, d: int)
    requires d > 0
    ensures k >= 2 ==> k * d >= 2 * d
    ensures k <= -2 ==> k * d <= -2 * d
    ensures k == 1 ==> k * d == d
    ensures k == -1 ==> k * d == -d
  {
    if k >= 2 {
      assert k * d == 2 * d + (k - 2) * d;
    } else if k <= -2 {
      assert k * d == -2 * d + (k + 2) * d;
    }
  }

  /** The spacing of binary64 values around a non-negative integer n: one
      below 2^53, then doubling with each further bit of n. */
  function Ulp(n: nat): (u: nat)
    ensures n < TwoTo53 ==> u == 1
    ensures n >= TwoTo53 ==> 2 <= u && TwoTo52 * u <= n < TwoTo53 * u
    decreases n
  {
    if n < TwoTo53 then 1 else 2 * Ulp(n / 2)
  }

  /** `float64(n)` for a non-negative integer n, as an exact integer: the
      multiple of the binary64 spacing at n that is nearest to n, the even
      multiple on a tie. */
  function OfNat(n: nat): (r: nat)
    ensures 2 * (r - n) <= Ulp(n) && 2 * (n - r) <= Ulp(n)
    ensures r % Ulp(n) == 0
    ensures (2 * (r - n) == Ulp(n) || 2 * (n - r) == Ulp(n)) ==> (r / Ulp(n)) % 2 == 0
    ensures n <= TwoTo53 ==> r == n
    ensures n >= TwoTo53 ==> r >= TwoTo53
  {
    var u := Ulp(n);
    var q := RoundHalfEven(n, u);
    MultipleOf(q, u);
    if n >= TwoTo53 then LargeQuotient(n, u, q); q * u else q * u
  }

  /** A multiple q * u of a positive u leaves no remainder and has quotient q. */
  lemma MultipleOf(q: int, u: int)
    requires u > 0
    ensures (q * u) % u == 0 && (q * u) / u == q
  {
    var k, m := (q * u) / u, (q * u) % u;
    assert q * u == k * u + m && 0 <= m < u;
    ScaledDifference(q, k, u);
    assert (q - k) * u == m;
    StepBound(q - k, u);
  }

  /** Negating a multiple of u negates its quotient and keeps its parity. */
  lemma NegatedMultiple(p: int, u: int)
    requires u > 0 && p % u == 0
    ensures (-p) % u == 0 && (-p) / u == -(p / u)
    ensures ((-p) / u) % 2 == 0 <==> (p / u) % 2 == 0
  {
    var q := p / u;
    assert p == q * u;
    assert -p == (-q) * u;
    MultipleOf(-q, u);
  }

  /** The contract of OfNat pins its result down: any multiple of the
      spacing that is as near to n, under the same tie rule, is OfNat(n). */
  lemma OfNatUnique(n: nat, r: int)
    requires 2 * (r - n) <= Ulp(n) && 2 * (n - r) <= Ulp(n)
    requires r % Ulp(n) == 0
    requires (2 * (r - n) == Ulp(n) || 2 * (n - r) == Ulp(n)) ==> (r / Ulp(n)) % 2 == 0
    ensures r == OfNat(n)
  {
    NearestMultipleUnique(n, Ulp(n), r);
  }

  /** The multiple of u nearest to n, the even multiple on a tie, is the
      rounded quotient times u. */
  lemma NearestMultipleUnique(n: int, u: int, r: int)
    requires u > 0 && r % u == 0
    requires 2 * (r - n) <= u && 2 * (n - r) <= u
    requires (2 * (r - n) == u || 2 * (n - r) == u) ==> (r / u) % 2 == 0
    ensures r == RoundHalfEven(n, u) * u
  {
    var q := r / u;
    assert r == q * u;
    RoundHalfEvenUnique(n, u, q);
  }

  lemma LargeQuotient(n: nat, u: nat, q: int)
    requires 2 <= u && TwoTo52 * u <= n
    requires -(u as int) <= 2 * (n - q * u) <= u
    ensures q * u >= TwoTo53
  {
    // q * u >= n - u / 2 > (TwoTo52 - 1) * u, so q >= TwoTo52.
    ScaledDifference(TwoTo52, q, u);
    StepBound(TwoTo52 - q, u);
    ScaledDifference(q, TwoTo52, u);
    assert (q - TwoTo52) * u >= 0;
    assert TwoTo52 * u >= TwoTo52 * 2;
  }

  /** `float64(s)` for an int64 s: round-to-nearest is symmetric about zero. */
  function OfInt(s: int): (r: int)
    ensures var u := Ulp(if s < 0 then -s else s);
      && 2 * (r - s) <= u && 2 * (s - r) <= u
      && r % u == 0
      && ((2 * (r - s) == u || 2 * (s - r) == u) ==> (r / u) % 2 == 0)
    ensures -TwoTo53 <= s <= TwoTo53 ==> r == s
    ensures s >= TwoTo53 ==> r >= TwoTo53
    ensures s <= -TwoTo53 ==> r <= -TwoTo53
    ensures s >= 0 <==> r >= 0
  {
    if s < 0 then
      NegatedMultiple(OfNat(-s), Ulp(-s));
      -(OfNat(-s) as int)
    else OfNat(s)
  }

  /** Beyond 2^53 the conversion is no longer exact: 2^53 + 1 has no binary64
      value and rounds down to the even neighbour 2^53. */
  lemma OfIntLosesLowBit()
    ensures OfInt(TwoTo53 + 1) == TwoTo53
  {
    assert Ulp(TwoTo53 + 1) == 2;
    var q := RoundHalfEven(TwoTo53 + 1, 2);
    RoundHalfEvenUnique(TwoTo53 + 1, 2, TwoTo52);
  }
}
