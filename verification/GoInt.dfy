/** Go's fixed-width integers: 64-bit wrap-around, division that truncates toward
    zero, and the truncating conversion from a floating-point value, which is
    taken over exact reals. */
module GoInt {
  const TWO_63: int := 0x8000_0000_0000_0000
  const TWO_64: int := 0x1_0000_0000_0000_0000

  predicate IsInt64(x: int) {
    -TWO_63 <= x < TWO_63
  }

  /** The value an int64 holds after an arithmetic result `x` is stored in it. */
  function Wrap64(x: int): (r: int)
    ensures IsInt64(r)
    ensures IsInt64(x) ==> r == x
    ensures (x - r) % TWO_64 == 0
  {
    if IsInt64(x) then x else (x + TWO_63) % TWO_64 - TWO_63
  }

  /** Integer division that discards the fraction, as Go's `/` does. */
  function TruncDiv(a: int, b: int): int
    requires b != 0
  {
    if a >= 0 then a / b else -((-a) / b)
  }

  /** `int64(x)` for a value in range. */
  function TruncReal(x: real): int {
    if x >= 0.0 then x.Floor else -((-x).Floor)
  }

  lemma MulLe(a: int, b: int, k: int)
    requires a <= b && 0 <= k
    ensures a * k <= b * k
  {}

  lemma Distribute(a: int, b: int, k: int)
    ensures (a + b) * k == a * k + b * k
  {}

  lemma ScaleReal(k: real, x: real, y: real)
    requires k >= 0.0 && x <= y
    ensures k * x <= k * y
  {}

  /** A positive quotient bound is the same as a bound on the product. */
  lemma TruncDivAtLeast(a: int, b: int, q: int)
    requires b > 0 && q >= 1
    ensures q <= TruncDiv(a, b) <==> q * b <= a
  {
    if a >= 0 {
      var d := a / b;
      assert a == b * d + a % b;
      if q <= d {
        MulLe(q, d, b);
      } else {
        MulLe(d + 1, q, b);
      }
    } else {
      MulLe(1, q, b);
    }
  }

  /** A quotient is below a bound exactly when the dividend is below the product. */
  lemma TruncDivBelow(a: int, b: int, q: int)
    requires b > 0 && a >= 0
    ensures TruncDiv(a, b) < q <==> a < q * b
  {
    if q >= 1 {
      TruncDivAtLeast(a, b, q);
    } else {
      MulLe(q, 0, b);
    }
  }

  /** The quotient that leaves a remainder smaller than the divisor and of the sign of
      the dividend; there is only one. */
  lemma TruncDivExact(a: int, b: int, q: int)
    requires b != 0
    ensures q == TruncDiv(a, b)
       <==> if a >= 0 then 0 <= a - q * b < Abs(b) else -Abs(b) < a - q * b <= 0
  {
    if a >= 0 {
      QuotientIff(a, b, q);
    } else {
      QuotientIff(-a, b, -q);
      Negate(q, b);
    }
  }

  function Abs(x: int): int {
    if x >= 0 then x else -x
  }

  lemma Negate(q: int, b: int)
    ensures (-q) * b == -(q * b) && (-q) * (-b) == q * b
  {}

  lemma QuotientIff(a: nat, b: int, q: int)
    requires b != 0
    ensures q == a / b <==> 0 <= a - q * b < Abs(b)
  {
    if b > 0 {
      QuotientUnique(a, b, q);
    } else {
      QuotientUnique(a, -b, -q);
      Negate(q, b);
      NegativeDivisor(a, b);
    }
  }

  lemma NegativeDivisor(a: nat, b: int)
    requires b < 0
    ensures a / b == -(a / -b)
  {}

  lemma QuotientUnique(a: nat, b: int, q: int)
    requires b >= 1
    ensures q == a / b <==> 0 <= a - q * b < b
  {
    if 0 <= a - q * b < b {
      QuotientIs(a, b, q, a - q * b);
    }
  }

  lemma QuotientIs(n: int, d: int, q: int, r: int)
    requires d >= 1 && n == d * q + r && 0 <= r < d
    ensures n / d == q
  {
    var q' := n / d;
    assert n == d * q' + n % d;
    if q' > q {
      MulLe(1, q' - q, d);
    } else if q' < q {
      MulLe(1, q - q', d);
    }
  }

  /** The whole number that comes before `x` on the way from zero; there is only one. */
  lemma TruncRealExact(x: real, k: int)
    ensures k == TruncReal(x)
       <==> if x >= 0.0 then k as real <= x < (k + 1) as real else (k - 1) as real < x <= k as real
  {}

  lemma TruncRealMonotone(x: real, y: real)
    requires x <= y
    ensures TruncReal(x) <= TruncReal(y)
  {}
}
