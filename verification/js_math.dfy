/** `Math.round` applied to a ratio of integers, as the front end uses it for
    percentages and elapsed seconds. The ratio is taken exactly; rounding is
    half up (`Math.round(2.5) == 3`, `Math.round(-2.5) == -2`). */
module JsMath {
  /** `Math.round(n / d)` for a positive divisor. */
  function RoundDiv(n: int, d: int): (r: int)
    requires d > 0
    ensures 2 * d * r <= 2 * n + d < 2 * d * r + 2 * d
  {
    (2 * n + d) / (2 * d)
  }

  /** `Math.round((part / whole) * 100)`. */
  function Percent(part: int, whole: int): int
    requires whole > 0
  {
    RoundDiv(100 * part, whole)
  }

  /** A share of a whole rounds to a percentage between 0 and 100, reaching
      100 exactly for the whole and 0 for nothing. */
  lemma PercentBounds(part: int, whole: int)
    requires 0 <= part <= whole && whole > 0
    ensures 0 <= Percent(part, whole) <= 100
    ensures part == whole ==> Percent(part, whole) == 100
    ensures part == 0 ==> Percent(part, whole) == 0
  {
    var r := Percent(part, whole);
    // 2w(r) <= 200 part + w <= 201 w < 2w * 101, and 200 part + w >= w > 2w(r - 1)
    if r > 100 { MulMono(2 * whole, 101, r); }
    if r < 0 { MulMono(2 * whole, r + 1, 0); }
    if part == whole && r < 100 { MulMono(2 * whole, r + 1, 100); }
    if part == 0 && r > 0 { MulMono(2 * whole, 1, r); }
  }

  /** More correct answers never give a lower percentage. */
  lemma PercentMonotone(a: int, b: int, whole: int)
    requires whole > 0 && a <= b
    ensures Percent(a, whole) <= Percent(b, whole)
  {
    var ra := Percent(a, whole);
    var rb := Percent(b, whole);
    if ra > rb { MulMono(2 * whole, rb + 1, ra); }
  }

  lemma MulMono(k: int, x: int, y: int)
    requires k >= 0 && x <= y
    ensures k * x <= k * y
  {
    assert k * y - k * x == k * (y - x);
  }
}
