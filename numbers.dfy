/**
 * Numeric conversions shared by the Python scripts: `round(x, n)` (round half to even)
 * and `int(x)` on a float (truncation toward zero). Prices are modelled as exact reals.
 */
module Numbers {

  function Pow10(d: nat): (p: nat)
    ensures p >= 1
  {
    if d == 0 then 1 else 10 * Pow10(d - 1)
  }

  function Abs(x: real): (r: real)
    ensures r >= 0.0 && (r == x || r == -x)
  {
    if x < 0.0 then -x else x
  }

  /** Python's round to an integer: the nearest integer, ties going to the even one. */
  function RoundHalfEven(y: real): (n: int)
    ensures Abs(y - n as real) <= 0.5
    ensures Abs(y - n as real) == 0.5 ==> n % 2 == 0
  {
    var f := y.Floor;
    var frac := y - f as real;
    if frac < 0.5 then f
    else if frac > 0.5 then f + 1
    else if f % 2 == 0 then f
    else f + 1
  }

  /** The rounded value is the only integer at distance under one half, so it is determined. */
  lemma RoundHalfEvenUnique(y: real, n: int)
    requires Abs(y - n as real) < 0.5
    ensures RoundHalfEven(y) == n
  {
  }

  /** An integer-valued input is returned unchanged. */
  lemma RoundHalfEvenIntegral(n: int)
    ensures RoundHalfEven(n as real) == n
  {
    RoundHalfEvenUnique(n as real, n);
  }

  lemma RoundHalfEvenMonotone(x: real, y: real)
    requires x <= y
    ensures RoundHalfEven(x) <= RoundHalfEven(y)
  {
  }

  /** 10^digits as a real: the scale `round(x, digits)` works at. */
  function Scale(digits: nat): (p: real)
    ensures p >= 1.0
  {
    Pow10(digits) as real
  }

  /** Python `round(x, digits)`: half-even rounding to `digits` decimal places. */
  function Round(x: real, digits: nat): real
  {
    Scaled(x, Scale(digits))
  }

  /** Half-even rounding to a multiple of `1 / p`. */
  function Scaled(x: real, p: real): real
    requires p > 0.0
  {
    RoundHalfEven(x * p) as real / p
  }

  lemma ScaledError(x: real, p: real)
    requires p > 0.0
    ensures Abs(Scaled(x, p) - x) * p <= 0.5
  {
    var n := RoundHalfEven(x * p) as real;
    var d := n / p - x;
    assert d * p == n - x * p;
    if d >= 0.0 {
      assert Abs(d) * p == n - x * p;
    } else {
      assert Abs(d) * p == x * p - n;
    }
  }

  /** Rounding to `digits` places moves a value by at most half a unit in the last place. */
  lemma RoundError(x: real, digits: nat)
    ensures Abs(Round(x, digits) - x) * Scale(digits) <= 0.5
  {
    ScaledError(x, Scale(digits));
  }

  lemma ScaledExact(x: real, p: real, n: int)
    requires p > 0.0 && x * p == n as real
    ensures Scaled(x, p) == x
  {
    RoundHalfEvenIntegral(n);
    assert (x * p) / p == x;
  }

  /** A value that already has at most `digits` decimal places is not changed by rounding. */
  lemma RoundExact(x: real, digits: nat, n: int)
    requires x * Scale(digits) == n as real
    ensures Round(x, digits) == x
  {
    ScaledExact(x, Scale(digits), n);
  }

  /** In particular a whole number is not changed by rounding. */
  lemma RoundWhole(n: int, digits: nat)
    ensures Round(n as real, digits) == n as real
  {
    var q := Pow10(digits);
    assert n as real * (q as real) == (n * q) as real;
    RoundExact(n as real, digits, n * q);
  }

  lemma ScaledMonotone(x: real, y: real, p: real)
    requires x <= y && p > 0.0
    ensures Scaled(x, p) <= Scaled(y, p)
  {
    assert x * p <= y * p;
    RoundHalfEvenMonotone(x * p, y * p);
    var a, b := RoundHalfEven(x * p) as real, RoundHalfEven(y * p) as real;
    assert a / p <= b / p;
  }

  lemma RoundMonotone(x: real, y: real, digits: nat)
    requires x <= y
    ensures Round(x, digits) <= Round(y, digits)
  {
    ScaledMonotone(x, y, Scale(digits));
  }

  /** Rounding keeps a value between any two bounds that rounding leaves unchanged. */
  lemma RoundKeepsBounds(x: real, digits: nat, lo: real, hi: real)
    requires lo <= x <= hi
    requires Round(lo, digits) == lo && Round(hi, digits) == hi
    ensures lo <= Round(x, digits) <= hi
  {
    RoundMonotone(lo, x, digits);
    RoundMonotone(x, hi, digits);
  }

  /** In particular rounding keeps any bound that is itself a whole number. */
  lemma RoundWithin(x: real, digits: nat, lo: int, hi: int)
    requires lo as real <= x <= hi as real
    ensures lo as real <= Round(x, digits) <= hi as real
  {
    RoundWhole(lo, digits);
    RoundWhole(hi, digits);
    RoundKeepsBounds(x, digits, lo as real, hi as real);
  }

  /** Python `int(x)` for a float: truncation toward zero. */
  function Trunc(x: real): (n: int)
    ensures Abs(n as real) <= Abs(x) < Abs(n as real) + 1.0
    ensures x >= 0.0 ==> n >= 0
    ensures x <= 0.0 ==> n <= 0
  {
    if x >= 0.0 then x.Floor else -((-x).Floor)
  }

  function MinInt(a: int, b: int): int { if a <= b then a else b }
  function MaxInt(a: int, b: int): int { if a >= b then a else b }
}
