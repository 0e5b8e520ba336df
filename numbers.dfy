/**
  The few JavaScript number operations the calculator relies on, over exact reals.

  A `Number` is a real value or NaN. Numbers are exact reals, so neither
  binary floating-point rounding nor the infinities are modelled.
 */
module Numbers {

  datatype Number = Num(val: real) | NaN

  /** `a + b`; NaN is absorbing. */
  function Add(a: Number, b: Number): (r: Number)
    ensures r.NaN? <==> a.NaN? || b.NaN?
  {
    if a.Num? && b.Num? then Num(a.val + b.val) else NaN
  }

  /** `a * b`; NaN is absorbing. */
  function Mul(a: Number, b: Number): (r: Number)
    ensures r.NaN? <==> a.NaN? || b.NaN?
  {
    if a.Num? && b.Num? then Num(a.val * b.val) else NaN
  }

  /** `a / b` for a divisor that is not zero; NaN is absorbing. */
  function Div(a: Number, b: Number): (r: Number)
    requires b != Num(0.0)
    ensures r.NaN? <==> a.NaN? || b.NaN?
  {
    if a.Num? && b.Num? then Num(a.val / b.val) else NaN
  }

  /** `a > 0`, which is false for NaN. */
  predicate Positive(a: Number)
  {
    a.Num? && a.val > 0.0
  }

  /** `a <= 0`, which is false for NaN as well. */
  predicate NonPositive(a: Number)
  {
    a.Num? && a.val <= 0.0
  }

  /** NaN passes neither `e > 0` nor `e <= 0`; a number passes exactly one of them. */
  lemma Comparisons(a: Number)
    ensures a.NaN? ==> !Positive(a) && !NonPositive(a)
    ensures a.Num? ==> (Positive(a) <==> !NonPositive(a))
  {
  }

  /** A real that is a whole number of tenths, i.e. one that one-decimal text denotes exactly. */
  predicate IsTenths(x: real)
  {
    (x * 10.0).Floor as real == x * 10.0
  }

  /** Rounds a non-negative real to the nearest tenth, halves upwards. */
  function RoundTenth(x: real): (r: real)
    requires x >= 0.0
    ensures -0.05 < r - x <= 0.05
    ensures r >= 0.0 && IsTenths(r)
    ensures IsTenths(x) ==> r == x
  {
    var n := (x * 10.0 + 0.5).Floor;
    assert n as real <= x * 10.0 + 0.5 < n as real + 1.0;
    assert (n as real / 10.0) * 10.0 == n as real;
    assert IsTenths(x) ==> n == (x * 10.0).Floor;
    n as real / 10.0
  }

  /**
    The value denoted by the text `x.toFixed(1)`: `x` rounded to one decimal
    place, halves away from zero (toFixed rounds the magnitude and then puts
    the sign back).
   */
  function Round1(x: real): (r: real)
    ensures -0.05 <= r - x <= 0.05
    ensures x >= 0.0 ==> -0.05 < r - x
    ensures x < 0.0 ==> r - x < 0.05
    ensures IsTenths(r)
    ensures x >= 0.0 ==> r >= 0.0
    ensures IsTenths(x) ==> r == x
  {
    if x >= 0.0 then RoundTenth(x)
    else
      var t := RoundTenth(-x);
      NegatedTenths(t);
      if IsTenths(x) then NegatedTenths(x); -t else -t
  }

  /** `(0.25).toFixed(1)` is "0.3" and `(-0.25).toFixed(1)` is "-0.3": ties go away from zero. */
  lemma TiesAwayFromZero()
    ensures Round1(0.25) == 0.3
    ensures Round1(-0.25) == -0.3
  {
    assert (0.25 * 10.0 + 0.5).Floor == 3;
  }

  lemma NegatedTenths(x: real)
    requires IsTenths(x)
    ensures IsTenths(-x)
  {
    var k := (x * 10.0).Floor;
    assert (-x) * 10.0 == (-k) as real;
  }

  /** The difference of two one-decimal values is again a one-decimal value. */
  lemma TenthsDifference(x: real, y: real)
    requires IsTenths(x) && IsTenths(y)
    ensures IsTenths(x - y)
  {
    var a, b := (x * 10.0).Floor, (y * 10.0).Floor;
    assert (x - y) * 10.0 == (a - b) as real;
  }
}
