/**
 * The pieces of C++ floating-point and integer arithmetic the planners use,
 * stated on exact reals and unbounded integers: std::ceil, the truncating
 * int(...) conversion, IEEE 754 remainder (std::remainder), the 1e-10
 * tolerance, and the Euclidean-division facts the storage cursor needs.
 */
module Numerics {

  /** The tolerance 1e-10 with which both planners test a remainder. */
  const Eps: real := 0.0000000001

  /** std::ceil. */
  function Ceil(x: real): (c: int)
    ensures c as real - 1.0 < x <= c as real
  {
    -((-x).Floor)
  }

  /** The conversion int(x) of C++, which truncates toward zero. */
  function Trunc(x: real): (t: int)
    ensures 0.0 <= x ==> t == x.Floor
    ensures x < 0.0 ==> t == Ceil(x)
  {
    if x >= 0.0 then x.Floor else Ceil(x)
  }

  /** Integer division of C++ (int / int), which truncates toward zero. */
  function TruncDiv(a: int, b: int): (q: int)
    requires b > 0
    ensures 0 <= a ==> q == a / b
    ensures a < 0 ==> q == -((-a) / b)
  {
    if a >= 0 then a / b else -((-a) / b)
  }

  /** The integer nearest to x, ties to even: the rounding IEEE 754 remainder uses. */
  function RoundHalfEven(x: real): (r: int)
    ensures x - 0.5 <= r as real <= x + 0.5
    ensures x - 0.5 < r as real < x + 0.5 || r % 2 == 0
  {
    var f := x.Floor;
    var d := x - f as real;
    if d < 0.5 then f
    else if d > 0.5 then f + 1
    else if f % 2 == 0 then f
    else f + 1
  }

  /** std::remainder(x, y): x minus the multiple of y nearest to x (ties to an even multiple). */
  function IeeeRemainder(x: real, y: real): (r: real)
    requires y != 0.0
    ensures 0.0 < y ==> -y / 2.0 <= r <= y / 2.0
  {
    var k := RoundHalfEven(x / y);
    RemainderBound(x, y, k);
    x - y * k as real
  }

  lemma RemainderBound(x: real, y: real, k: int)
    requires y != 0.0
    requires x / y - 0.5 <= k as real <= x / y + 0.5
    ensures 0.0 < y ==> -y / 2.0 <= x - y * k as real <= y / 2.0
  {
    if 0.0 < y {
      var t := x / y;
      var s := t - k as real;
      assert x == y * t;
      assert -0.5 <= s <= 0.5;
      assert x - y * k as real == y * s;
      MulBounds(y, s);
    }
  }

  /** y * s lies within [-y/2, y/2] when s lies within [-1/2, 1/2]. */
  lemma MulBounds(y: real, s: real)
    requires 0.0 < y && -0.5 <= s <= 0.5
    ensures -y / 2.0 <= y * s <= y / 2.0
  {
    assert y * (0.5 - s) >= 0.0;
    assert y * (s + 0.5) >= 0.0;
  }

  /**
   * How ceil and floor of x/y sit around the rounding used by the IEEE
   * remainder: the sign of the remainder decides which side x/y is on.
   */
  lemma RatioAroundRounding(x: real, y: real)
    requires 0.0 < y
    ensures var k := RoundHalfEven(x / y); var r := IeeeRemainder(x, y);
      && (0.0 < r ==> (x / y).Floor == k && Ceil(x / y) == k + 1)
      && (r == 0.0 ==> (x / y).Floor == k && Ceil(x / y) == k && x / y == k as real)
      && (r < 0.0 ==> (x / y).Floor == k - 1 && Ceil(x / y) == k)
  {
    var k := RoundHalfEven(x / y);
    var t := x / y;
    assert x == y * t;
    var r := IeeeRemainder(x, y);
    assert r == y * (t - k as real);
    SignOfProduct(y, t - k as real);
  }

  /** The sign of d / h is the sign of d, for h > 0. */
  lemma NonNegativeRatio(d: real, h: real)
    requires 0.0 < h
    ensures 0.0 <= d ==> 0.0 <= d / h
    ensures 0.0 < d ==> 0.0 < d / h
  {
    SignOfProduct(h, d / h);
    assert d == h * (d / h);
  }

  lemma SignOfProduct(y: real, s: real)
    requires 0.0 < y
    ensures (0.0 < y * s <==> 0.0 < s) && (y * s == 0.0 <==> s == 0.0)
  {
    if s > 0.0 { assert y * s > 0.0; }
    if s < 0.0 { assert y * s < 0.0; }
  }

  /** The IEEE remainder of an integer multiple k y by y is zero. */
  lemma RemainderOfMultiple(x: real, y: real, k: int)
    requires 0.0 < y
    ensures x == k as real * y ==> IeeeRemainder(x, y) == 0.0
  {
    if x == k as real * y {
      assert x / y == k as real;
    }
  }

  // ---------------------------------------------------------------------------
  // Euclidean division facts for the storage cursor (all operands positive).

  lemma DivUnique(x: int, d: int, q: int, r: int)
    requires 0 < d && 0 <= r < d && x == q * d + r
    ensures x / d == q && x % d == r
  {
    var q0, r0 := x / d, x % d;
    assert x == q0 * d + r0;
    if q0 < q {
      assert (q - q0) * d >= d by { MulAtLeast(q - q0, d); }
      assert false;
    } else if q0 > q {
      assert (q0 - q) * d >= d by { MulAtLeast(q0 - q, d); }
      assert false;
    }
  }

  lemma MulAtLeast(a: int, d: int)
    requires 1 <= a && 0 < d
    ensures a * d >= d
  {
    assert a * d == (a - 1) * d + d;
    assert (a - 1) * d >= 0;
  }

  /** Advancing i by one advances i / s by one exactly when s divides i. */
  lemma DivStep(i: int, s: int)
    requires 1 <= i && 1 <= s
    ensures i / s == (i - 1) / s + (if i % s == 0 then 1 else 0)
    ensures i % s == 0 ==> (i / s) * s == i
  {
    var q, r := (i - 1) / s, (i - 1) % s;
    assert i - 1 == q * s + r;
    if r == s - 1 {
      DivUnique(i, s, q + 1, 0);
    } else {
      DivUnique(i, s, q, r + 1);
    }
  }

  lemma DivMonotone(a: int, b: int, s: int)
    requires 0 <= a <= b && 1 <= s
    ensures a / s <= b / s
  {
    if a / s > b / s {
      assert a == (a / s) * s + a % s;
      assert b == (b / s) * s + b % s;
      assert (a / s - b / s) * s >= s by { MulAtLeast(a / s - b / s, s); }
      assert false;
    }
  }

  /** Adding the divisor advances the quotient by one. */
  lemma DivAddDivisor(a: int, s: int)
    requires 0 <= a && 1 <= s
    ensures (a + s) / s == a / s + 1
  {
    DivUnique(a + s, s, a / s + 1, a % s);
  }

  /** Multiplying by a positive number keeps a strict order. */
  lemma MulStrict(y: real, a: real, b: real)
    requires 0.0 < y && a < b
    ensures y * a < y * b
  {
    assert y * (b - a) > 0.0;
  }

  /** Multiplying by a positive number keeps a weak order. */
  lemma MulMono(y: real, a: real, b: real)
    requires 0.0 < y && a <= b
    ensures y * a <= y * b
  {
    assert y * (b - a) >= 0.0;
  }

  /** Distributing one more step: (j - 1) h + h = j h. */
  lemma StepOff(j: int, h: real)
    ensures (j - 1) as real * h + h == j as real * h
  {
  }
}
