/** Java/Kotlin 32-bit `int` arithmetic, written out over Dafny's unbounded integers. */
module Int32 {
  const MIN_VALUE: int := -0x8000_0000
  const MAX_VALUE: int := 0x7FFF_FFFF
  const MODULUS: int := 0x1_0000_0000

  predicate InRange(x: int) {
    MIN_VALUE <= x <= MAX_VALUE
  }

  /** Two's-complement wrap-around: the 32-bit value that `x` becomes in Java. */
  function Wrap(x: int): (r: int)
    ensures InRange(r)
    ensures InRange(x) ==> r == x
    ensures x == MAX_VALUE + 1 ==> r == MIN_VALUE
    ensures x == MIN_VALUE - 1 ==> r == MAX_VALUE
  {
    (x - MIN_VALUE) % MODULUS + MIN_VALUE
  }

  /** Java's `/` on ints: the quotient truncated toward zero (Dafny's `/` is Euclidean). */
  function TruncDiv(a: int, b: int): (q: int)
    requires b > 0
    ensures a >= 0 ==> q >= 0
    ensures a < 0 ==> q <= 0
  {
    if a >= 0 then a / b else -((-a) / b)
  }

  /** The truncated quotient times the divisor lies within one divisor of the dividend, toward zero. */
  lemma TruncDivBounds(a: int, b: int)
    requires b > 0
    ensures a >= 0 ==> TruncDiv(a, b) * b <= a < TruncDiv(a, b) * b + b
    ensures a < 0 ==> TruncDiv(a, b) * b - b < a <= TruncDiv(a, b) * b
  {
    if a >= 0 {
      assert a == (a / b) * b + a % b;
    } else {
      assert -a == ((-a) / b) * b + (-a) % b;
    }
  }

  /** A truncated quotient of at least 1 needs a dividend at least the divisor. */
  lemma QuotientAtLeastOne(a: int, b: int)
    requires b > 0 && TruncDiv(a, b) >= 1
    ensures a >= b
  {
    TruncDivBounds(a, b);
    var q := TruncDiv(a, b);
    assert q * b >= b;
  }
}
