/**
 * Exact arithmetic helpers for BigNumber and JavaScript number operations.
 * Amounts are unbounded integers and prices are exact rationals (`real`).
 */
module Numeric {

  /** `base` raised to a natural power. */
  function Pow(base: nat, e: nat): (r: nat)
    ensures base > 0 ==> r > 0
  {
    if e == 0 then 1 else base * Pow(base, e - 1)
  }

  /** 10^e over the reals, for any integer exponent. */
  function TenPow(e: int): real
    decreases if e >= 0 then e else -e
  {
    if e == 0 then 1.0 else if e > 0 then 10.0 * TenPow(e - 1) else TenPow(e + 1) / 10.0
  }

  lemma {:induction false} TenPowPositive(e: int)
    ensures TenPow(e) > 0.0
    decreases if e >= 0 then e else -e
  {
    if e > 0 {
      TenPowPositive(e - 1);
    } else if e < 0 {
      TenPowPositive(e + 1);
    }
  }

  /** `new BigNumber(10).pow(e)` for any integer exponent, negative ones included. */
  function Pow10(e: int): (r: real)
    ensures r > 0.0
  {
    TenPowPositive(e);
    TenPow(e)
  }

  lemma TenPowStep(e: int, n: int)
    requires n == e + 1
    ensures TenPow(n) == 10.0 * TenPow(e)
  {
  }

  lemma TenTimesProduct(a: real, b: real, c: real, d: real, e: real)
    requires a == 10.0 * b && b == c * d && e == 10.0 * d
    ensures a == c * e
  {
  }

  lemma TenPowAddStep(x: int, k: nat)
    requires k > 0 && TenPow(x + (k - 1)) == TenPow(x) * TenPow(k - 1)
    ensures TenPow(x + k) == TenPow(x) * TenPow(k)
  {
    TenPowStep(x + (k - 1), x + k);
    TenPowStep(k - 1, k);
    TenTimesProduct(TenPow(x + k), TenPow(x + (k - 1)), TenPow(x), TenPow(k - 1), TenPow(k));
  }

  /** Powers of ten multiply by adding their exponents. */
  lemma {:induction false} TenPowAdd(x: int, k: nat)
    ensures TenPow(x + k) == TenPow(x) * TenPow(k)
    decreases k
  {
    if k > 0 {
      TenPowAdd(x, k - 1);
      TenPowAddStep(x, k);
    }
  }

  /** 10^(t - m) is the ratio of 10^t to 10^m, whichever exponent is larger. */
  lemma Pow10Difference(t: nat, m: nat)
    ensures Pow10(t as int - m) * Pow10(m) == Pow10(t)
  {
    TenPowAdd(t as int - m, m);
  }

  /** Scaling by 10^e and then by 10^-e gives back the original value. */
  lemma Pow10Inverse(e: int)
    ensures Pow10(e) * Pow10(-e) == 1.0
  {
    if e >= 0 {
      TenPowAdd(-e, e);
    } else {
      TenPowAdd(e, -e);
    }
  }

  /** Dividing both amounts of a ratio by powers of ten scales it by their quotient. */
  lemma RatioOfScaledAmounts(x: real, y: real, a: real, b: real, f: real)
    requires a > 0.0 && b > 0.0 && y > 0.0 && f * a == b
    ensures (x / a) / (y / b) == (x / y) * f
  {
    assert (x / a) / (y / b) == (x * b) / (a * y);
    assert (x / y) * f == (x * f * a) / (a * y);
  }

  /** Smallest integer not below `x` (ROUND_CEIL applied to an integer place). */
  function Ceil(x: real): int
  {
    -((-x).Floor)
  }

  lemma CeilBounds(x: real)
    ensures x <= Ceil(x) as real < x + 1.0
  {
  }

  /** `integerValue()` with BigNumber's default ROUND_HALF_UP: ties go away from zero. */
  function RoundHalfUp(x: real): (r: int)
  {
    if x >= 0.0 then (x + 0.5).Floor else -((-x + 0.5).Floor)
  }

  lemma RoundHalfUpBounds(x: real)
    ensures x - 0.5 <= RoundHalfUp(x) as real <= x + 0.5
    ensures x >= 0.0 ==> RoundHalfUp(x) >= 0
  {
  }

  /** JavaScript `Math.round`: ties go towards positive infinity. */
  function MathRound(x: real): int
  {
    (x + 0.5).Floor
  }

  /** `decimalPlaces(places, ROUND_FLOOR)`: round down to a multiple of 10^-places. */
  function FloorTo(x: real, places: nat): real
  {
    FloorToMultiple(x, Pow10(places))
  }

  /** Round down to an integer multiple of 1/p. */
  function FloorToMultiple(x: real, p: real): real
    requires p > 0.0
  {
    ((x * p).Floor as real) / p
  }

  /** Round up to an integer multiple of 1/p. */
  function CeilToMultiple(x: real, p: real): real
    requires p > 0.0
  {
    (Ceil(x * p) as real) / p
  }

  /** `decimalPlaces(places, ROUND_CEIL)`: round up to a multiple of 10^-places. */
  function CeilTo(x: real, places: nat): real
  {
    CeilToMultiple(x, Pow10(places))
  }

  /** `decimalPlaces(places)` with the default ROUND_HALF_UP mode. */
  function HalfUpTo(x: real, places: nat): real
  {
    (RoundHalfUp(x * Pow10(places)) as real) / Pow10(places)
  }

  /** A value with at most `places` decimal places. */
  predicate HasPlaces(x: real, places: nat)
  {
    IsMultipleOf(x, Pow10(places))
  }

  /** `x` is an integer multiple of 1/p. */
  predicate IsMultipleOf(x: real, p: real)
  {
    (x * p).Floor as real == x * p
  }

  lemma MulMonotone(a: real, b: real, p: real)
    requires p > 0.0 && a <= b
    ensures a * p <= b * p
  {
  }

  lemma FloorMonotone(a: real, b: real)
    requires a <= b
    ensures a.Floor <= b.Floor
  {
  }

  lemma DivMonotone(a: real, b: real, p: real)
    requires p > 0.0 && a <= b
    ensures a / p <= b / p
  {
    assert a / p * p == a;
    assert b / p * p == b;
  }

  lemma DivStrict(a: real, b: real, p: real)
    requires p > 0.0 && a < b
    ensures a / p < b / p
  {
    assert a / p * p == a;
    assert b / p * p == b;
  }

  lemma MulDivCancel(x: real, p: real)
    requires p > 0.0
    ensures x * p / p == x
  {
  }

  lemma DivAdd(a: real, b: real, p: real)
    requires p > 0.0
    ensures (a + b) / p == a / p + b / p
  {
  }

  lemma FloorDivBounds(x: real, p: real)
    requires p > 0.0
    ensures FloorToMultiple(x, p) <= x < FloorToMultiple(x, p) + 1.0 / p
  {
    var f := (x * p).Floor as real;
    MulDivCancel(x, p);
    DivMonotone(f, x * p, p);
    DivStrict(x * p, f + 1.0, p);
    DivAdd(f, 1.0, p);
  }

  lemma CeilDivBounds(x: real, p: real)
    requires p > 0.0
    ensures x <= CeilToMultiple(x, p) < x + 1.0 / p
  {
    var c := Ceil(x * p) as real;
    CeilBounds(x * p);
    MulDivCancel(x, p);
    DivMonotone(x * p, c, p);
    DivStrict(c, x * p + 1.0, p);
    DivAdd(x * p, 1.0, p);
  }

  lemma IntDivMul(k: int, p: real)
    requires p > 0.0
    ensures IsMultipleOf((k as real) / p, p)
  {
    assert (k as real) / p * p == k as real;
  }

  lemma FloorToMultipleIsMultiple(x: real, p: real)
    requires p > 0.0
    ensures IsMultipleOf(FloorToMultiple(x, p), p)
  {
    IntDivMul((x * p).Floor, p);
  }

  lemma CeilToMultipleIsMultiple(x: real, p: real)
    requires p > 0.0
    ensures IsMultipleOf(CeilToMultiple(x, p), p)
  {
    IntDivMul(Ceil(x * p), p);
  }

  /** Rounding down never increases the value and loses less than one unit in the last place. */
  lemma FloorToBounds(x: real, places: nat)
    ensures FloorTo(x, places) <= x
    ensures x < FloorTo(x, places) + 1.0 / Pow10(places)
    ensures HasPlaces(FloorTo(x, places), places)
  {
    FloorDivBounds(x, Pow10(places));
    FloorToMultipleIsMultiple(x, Pow10(places));
  }

  /** Rounding up never decreases the value and adds less than one unit in the last place. */
  lemma CeilToBounds(x: real, places: nat)
    ensures x <= CeilTo(x, places)
    ensures CeilTo(x, places) < x + 1.0 / Pow10(places)
    ensures HasPlaces(CeilTo(x, places), places)
  {
    CeilDivBounds(x, Pow10(places));
    CeilToMultipleIsMultiple(x, Pow10(places));
  }

  lemma FloorDivMonotone(x: real, y: real, p: real)
    requires x <= y && p > 0.0
    ensures FloorToMultiple(x, p) <= FloorToMultiple(y, p)
  {
    MulMonotone(x, y, p);
    FloorMonotone(x * p, y * p);
    DivMonotone((x * p).Floor as real, (y * p).Floor as real, p);
  }

  lemma CeilDivMonotone(x: real, y: real, p: real)
    requires x <= y && p > 0.0
    ensures CeilToMultiple(x, p) <= CeilToMultiple(y, p)
  {
    MulMonotone(x, y, p);
    assert -(y * p) <= -(x * p);
    FloorMonotone(-(y * p), -(x * p));
    DivMonotone(Ceil(x * p) as real, Ceil(y * p) as real, p);
  }

  /** Rounding down preserves order. */
  lemma FloorToMonotone(x: real, y: real, places: nat)
    requires x <= y
    ensures FloorTo(x, places) <= FloorTo(y, places)
  {
    FloorDivMonotone(x, y, Pow10(places));
  }

  /** Rounding up preserves order. */
  lemma CeilToMonotone(x: real, y: real, places: nat)
    requires x <= y
    ensures CeilTo(x, places) <= CeilTo(y, places)
  {
    CeilDivMonotone(x, y, Pow10(places));
  }
}
