/**
 * Python's `round(x, n)` on amounts of energy and money. Amounts are exact reals here,
 * so `round` is round-half-to-even at the n-th decimal place.
 */
module Numeric {

  function Pow10(n: nat): (p: nat)
    ensures p >= 1
  {
    if n == 0 then 1 else 10 * Pow10(n - 1)
  }

  /** Half a unit in the n-th decimal place: the largest error `Round(x, n)` may make. */
  function HalfUnit(n: nat): (h: real)
    ensures 0.0 < h <= 0.5
  {
    1.0 / (2.0 * Pow10(n) as real)
  }

  /** `r` is a whole number of units 1/p: `r * p` has no fractional part. */
  predicate OnGrid(r: real, p: real) {
    (r * p).Floor as real == r * p
  }

  lemma WholeUnitsOnGrid(r: real, p: real, k: int)
    requires r * p == k as real
    ensures OnGrid(r, p)
  {
    assert (k as real).Floor == k;
  }

  /** The nearest integer to `s`, ties going to the even one. */
  function RoundHalfEven(s: real): (k: int)
    ensures -0.5 <= k as real - s <= 0.5
    ensures s == s.Floor as real ==> k == s.Floor
  {
    var f := s.Floor;
    var frac := s - f as real;
    if frac < 0.5 then f
    else if frac > 0.5 then f + 1
    else if f % 2 == 0 then f
    else f + 1
  }

  /** `round(x, digits)`: the multiple of 10^-digits nearest to x, ties to even. */
  function Round(x: real, digits: nat): (r: real)
    ensures -HalfUnit(digits) <= r - x <= HalfUnit(digits)
    ensures x == 0.0 ==> r == 0.0
    ensures OnGrid(r, Pow10(digits) as real)
  {
    RoundToScale(x, Pow10(digits) as real)
  }

  /** The multiple of 1/p nearest to x, ties to even. */
  function RoundToScale(x: real, p: real): (r: real)
    requires p >= 1.0
    ensures -1.0 / (2.0 * p) <= r - x <= 1.0 / (2.0 * p)
    ensures OnGrid(r, p)
  {
    var k := RoundHalfEven(x * p);
    RoundError(x, p, k);
    DivideBack(k as real / p, p, k as real);
    WholeUnitsOnGrid(k as real / p, p, k);
    k as real / p
  }

  /** Amounts already on the grid of `digits` decimals are left as they are. */
  lemma RoundOfExact(x: real, digits: nat, k: int)
    requires x * Pow10(digits) as real == k as real
    ensures Round(x, digits) == x
  {
    RoundToScaleOfExact(x, Pow10(digits) as real, k);
  }

  lemma RoundToScaleOfExact(x: real, p: real, k: int)
    requires p >= 1.0 && x * p == k as real
    ensures RoundToScale(x, p) == x
  {
    assert RoundHalfEven(x * p) == k;
    DivideBack(x, p, k as real);
  }

  lemma DivideBack(x: real, p: real, y: real)
    requires p >= 1.0 && (x * p == y || x == y / p)
    ensures y / p == x && x * p == y
  {
  }

  lemma RoundError(x: real, p: real, k: int)
    requires p >= 1.0
    requires -0.5 <= k as real - x * p <= 0.5
    ensures -1.0 / (2.0 * p) <= k as real / p - x <= 1.0 / (2.0 * p)
  {
    var d := k as real / p - x;
    assert d * p == k as real - x * p;
    assert (1.0 / (2.0 * p)) * p == 0.5;
  }
}
