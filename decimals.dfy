/** `BigDecimal.setScale(s, HALF_UP)` and `setScale(s, DOWN)` on exact decimals.

    A value `x` set to scale `s` becomes an integer multiple of `10^-s` (for a
    negative `s`, of `10^|s|`). HALF_UP picks the nearer multiple and, on a tie,
    the one away from zero; DOWN picks the multiple towards zero. */
module Decimals {

  function Pow10(n: nat): (p: nat)
    ensures p >= 1
  {
    if n == 0 then 1 else 10 * Pow10(n - 1)
  }

  /** `10^s` as a real, for any integer `s`. */
  function Scale(s: int): (p: real)
    ensures p > 0.0
  {
    if s >= 0 then Pow10(s) as real else 1.0 / (Pow10(-s) as real)
  }

  /** `x` has at most `s` decimals: `x * 10^s` is an integer. */
  predicate AtScale(x: real, s: int)
  {
    MultipleOf(x, Scale(s))
  }

  /** `x` is an integer multiple of `1 / p`. */
  predicate MultipleOf(x: real, p: real)
  {
    (x * p).Floor as real == x * p
  }

  /** `Math.abs` on reals. */
  function Abs(x: real): real { if x < 0.0 then -x else x }

  /** The magnitude `|x| * p` rounded to an integer: HALF_UP when `halfUp`,
      DOWN otherwise. */
  function Magnitude(x: real, p: real, halfUp: bool): nat
    requires p > 0.0
  {
    var y := Abs(x) * p;
    if halfUp then (y + 0.5).Floor else y.Floor
  }

  function Signed(x: real, m: nat): int
  {
    if x < 0.0 then -(m as int) else m
  }

  /** `x` rounded to a multiple of `1 / p`. */
  function RoundTo(x: real, p: real, halfUp: bool): real
    requires p > 0.0
  {
    Signed(x, Magnitude(x, p, halfUp)) as real / p
  }

  function RoundHalfUp(x: real, s: int): real
  {
    RoundTo(x, Scale(s), true)
  }

  function RoundDown(x: real, s: int): real
  {
    RoundTo(x, Scale(s), false)
  }

  lemma DivTimes(m: real, p: real)
    requires p > 0.0
    ensures (m / p) * p == m
    ensures (m * p) / p == m
  {
  }

  /** An integer divided by `p` is a multiple of `1 / p`, with the integer's sign. */
  lemma IntegerOverIsMultiple(m: int, p: real)
    requires p > 0.0
    ensures (m as real / p) * p == m as real
    ensures MultipleOf(m as real / p, p)
    ensures m >= 0 ==> m as real / p >= 0.0
    ensures m < 0 ==> m as real / p < 0.0
  {
    DivTimes(m as real, p);
    assert (m as real).Floor == m;
  }

  /** Rounding either way lands on a multiple of `1 / p`, with the sign of `x`
      (or on zero), and its scaled value is the signed rounded magnitude. */
  lemma RoundToIsMultiple(x: real, p: real, halfUp: bool)
    requires p > 0.0
    ensures var r := RoundTo(x, p, halfUp);
            MultipleOf(r, p) &&
            r * p == Signed(x, Magnitude(x, p, halfUp)) as real &&
            (x >= 0.0 ==> r >= 0.0) && (x < 0.0 ==> r <= 0.0)
  {
    IntegerOverIsMultiple(Signed(x, Magnitude(x, p, halfUp)), p);
  }

  lemma RoundedIsAtScale(x: real, s: int)
    ensures AtScale(RoundHalfUp(x, s), s) && AtScale(RoundDown(x, s), s)
  {
    var p := Scale(s);
    RoundToIsMultiple(x, p, true);
    RoundToIsMultiple(x, p, false);
  }

  /** The magnitude of `k / p`, for an integer `k`, is `|k|` either way. */
  lemma MagnitudeOfInteger(k: int, p: real, halfUp: bool)
    requires p > 0.0
    ensures Magnitude(k as real / p, p, halfUp) == if k < 0 then -k else k
    ensures Signed(k as real / p, if k < 0 then -k else k) == k
  {
    var y := k as real / p;
    IntegerOverIsMultiple(k, p);
    var n: nat := if k < 0 then -k else k;
    if k < 0 {
      assert Abs(y) * p == -(y * p);
    }
    assert Abs(y) * p == n as real;
    assert (n as real + 0.5).Floor == n;
    assert (n as real).Floor == n;
  }

  /** Rounding a multiple of `1 / p` to `1 / p` changes nothing. */
  lemma RoundToMultipleIsIdentity(y: real, p: real, halfUp: bool)
    requires p > 0.0
    requires MultipleOf(y, p)
    ensures RoundTo(y, p, halfUp) == y
  {
    var k := (y * p).Floor;
    DivTimes(y, p);
    assert y == k as real / p;
    MagnitudeOfInteger(k, p, halfUp);
  }

  /** Setting a scale a value already has changes nothing. */
  lemma RoundingAtScaleIsIdentity(y: real, s: int)
    requires AtScale(y, s)
    ensures RoundHalfUp(y, s) == y
    ensures RoundDown(y, s) == y
  {
    var p := Scale(s);
    RoundToMultipleIsIdentity(y, p, true);
    RoundToMultipleIsIdentity(y, p, false);
  }

  /** `round(round(x, d), d) == round(x, d)`, and likewise for `trunc`. */
  lemma {:induction false} SetScaleIsIdempotent(x: real, s: int)
    ensures RoundHalfUp(RoundHalfUp(x, s), s) == RoundHalfUp(x, s)
    ensures RoundDown(RoundDown(x, s), s) == RoundDown(x, s)
  {
    RoundedIsAtScale(x, s);
    RoundingAtScaleIsIdentity(RoundHalfUp(x, s), s);
    RoundingAtScaleIsIdentity(RoundDown(x, s), s);
  }

  lemma MulLeCancel(a: real, b: real, p: real)
    requires p > 0.0 && a * p <= b * p
    ensures a <= b
  {
  }

  lemma RoundToDownBounds(x: real, p: real)
    requires p > 0.0
    ensures 0.0 <= Abs(x) * p - Abs(RoundTo(x, p, false)) * p < 1.0
    ensures Abs(RoundTo(x, p, false)) <= Abs(x)
  {
    var r := RoundTo(x, p, false);
    RoundToIsMultiple(x, p, false);
    var m := Magnitude(x, p, false);
    if x < 0.0 {
      assert Abs(r) * p == -(r * p);
    }
    assert Abs(r) * p == m as real;
    MulLeCancel(Abs(r), Abs(x), p);
  }

  /** DOWN moves towards zero by less than one unit of the scale, so it never
      increases the magnitude. */
  lemma RoundDownBounds(x: real, s: int)
    ensures 0.0 <= Abs(x) * Scale(s) - Abs(RoundDown(x, s)) * Scale(s) < 1.0
    ensures Abs(RoundDown(x, s)) <= Abs(x)
  {
    var p := Scale(s);
    RoundToDownBounds(x, p);
  }

  /** HALF_UP moves by at most half a unit of the scale. */
  lemma RoundHalfUpBounds(x: real, s: int)
    ensures -0.5 <= x * Scale(s) - RoundHalfUp(x, s) * Scale(s) <= 0.5
  {
    var p := Scale(s);
    RoundToIsMultiple(x, p, true);
    if x < 0.0 {
      assert Abs(x) * p == -(x * p);
    }
  }

  /** HALF_UP breaks a tie away from zero; DOWN cuts the digits. */
  lemma RoundingExamples()
    ensures RoundHalfUp(2.345, 2) == 2.35
    ensures RoundDown(2.345, 2) == 2.34
    ensures RoundHalfUp(-2.5, 0) == -3.0
    ensures RoundDown(-2.5, 0) == -2.0
    ensures RoundHalfUp(1234.0, -2) == 1200.0
  {
    assert Scale(2) == 100.0;
    assert Scale(0) == 1.0;
    assert Scale(-2) == 1.0 / 100.0;
    assert (234.5 + 0.5).Floor == 235;
    assert (234.5).Floor == 234;
    assert (2.5 + 0.5).Floor == 3;
    assert (2.5).Floor == 2;
    assert 1234.0 * (1.0 / 100.0) == 12.34;
    assert (12.34 + 0.5).Floor == 12;
  }
}
