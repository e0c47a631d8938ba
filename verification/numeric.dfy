/**
 * Kotlin's 32-bit `Int`, its `rem` operator, `kotlin.math.truncate` and the
 * `Float.toInt()` / `Double.toInt()` conversions. Floating-point values are
 * modelled as exact reals: every float computation the widget does that this
 * model keeps (halving a width, dividing a byte by 8) is exact in binary
 * floating point for the values it sees.
 */
module Numeric {

  const IntMin: int := -0x8000_0000
  const IntMax: int := 0x7FFF_FFFF

  /** A Kotlin `Int`. */
  type Int32 = x: int | -0x8000_0000 <= x <= 0x7FFF_FFFF

  /** `kotlin.math.truncate`: the integer part, rounding toward zero. */
  function Truncate(x: real): (t: int)
    ensures 0.0 <= x ==> t as real <= x < t as real + 1.0
    ensures x < 0.0 ==> t as real - 1.0 < x <= t as real
  {
    if x >= 0.0 then x.Floor else -((-x).Floor)
  }

  /**
   * `toInt()` on a float or double: truncation toward zero, saturating at the
   * bounds of `Int`. NaN has no counterpart among the reals.
   */
  function ToInt(x: real): (r: Int32)
    ensures x <= IntMin as real ==> r == IntMin
    ensures x >= IntMax as real ==> r == IntMax
    ensures IntMin as real < x < IntMax as real ==> r == Truncate(x)
  {
    var t := Truncate(x);
    if t < IntMin then IntMin else if t > IntMax then IntMax else t
  }

  /**
   * Kotlin's `a rem n` for a positive divisor: the remainder of the division
   * rounded toward zero, so it takes the sign of `a`.
   */
  function Rem(a: int, n: int): (r: int)
    requires n > 0
    ensures a >= 0 ==> 0 <= r < n
    ensures a < 0 ==> -n < r <= 0
  {
    if a >= 0 then a % n else -((-a) % n)
  }

  /**
   * For the palette's divisor 8, `a rem 8` is a true remainder: it differs
   * from `a` by a multiple of 8, and negating `a` negates it.
   */
  lemma RemIsRemainder(a: int)
    ensures (a - Rem(a, 8)) % 8 == 0
    ensures Rem(-a, 8) == -Rem(a, 8)
  {
    if a < 0 {
      assert a - Rem(a, 8) == -(8 * ((-a) / 8));
    } else {
      assert a - Rem(a, 8) == 8 * (a / 8);
    }
  }

  /**
   * Taking the signed fractional part of `b / 8` and scaling it back by 8
   * yields exactly `b rem 8`: `((d - truncate(d)) * 8).toInt()` with
   * `d = b / 8.0` computes a remainder without any integer division.
   */
  lemma FractionalPartIsRem(b: int)
    ensures var d := b as real / 8.0;
            ToInt((d - Truncate(d) as real) * 8.0) == Rem(b, 8)
  {
    var d := b as real / 8.0;
    if b >= 0 {
      var q, r := b / 8, b % 8;
      assert b as real == 8.0 * q as real + r as real;
      assert d == q as real + r as real / 8.0;
      assert Truncate(d) == q;
      assert (d - q as real) * 8.0 == r as real;
    } else {
      var q, r := (-b) / 8, (-b) % 8;
      assert (-b) as real == 8.0 * q as real + r as real;
      assert -d == q as real + r as real / 8.0;
      assert Truncate(d) == -q;
      assert (d + q as real) * 8.0 == -(r as real);
    }
  }
}
