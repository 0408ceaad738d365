/**
 * JavaScript's `Math.round` over exact numbers. `Math.round(x)` is the integer nearest to `x`,
 * halves rounded toward +infinity, i.e. floor(x + 1/2); the model computes it exactly, on
 * integer ratios (`RoundDiv`) or on reals (`Round`), instead of on IEEE doubles.
 */
module Arith {

  /** `Math.round(p / q)` for a positive divisor. */
  function RoundDiv(p: int, q: int): (r: int)
    requires q > 0
    ensures 2 * q * r - q <= 2 * p < 2 * q * r + q
  {
    var r := (2 * p + q) / (2 * q);
    assert 2 * q * r <= 2 * p + q < 2 * q * r + 2 * q;
    r
  }

  /** `Math.round(x)` on a real. */
  function Round(x: real): (r: int)
    ensures r as real - 0.5 <= x < r as real + 0.5
  {
    (x + 0.5).Floor
  }

  /** A real with at most one decimal place: ten times it is a whole number. */
  predicate IsTenth(r: real)
  {
    (r * 10.0).Floor as real == r * 10.0
  }

  /** `Math.round(x * 10) / 10`: the value rounded to one decimal place. */
  function Round10(x: real): (r: real)
    ensures -0.05 <= x - r < 0.05
    ensures IsTenth(r)
  {
    var k := Round(x * 10.0);
    assert (k as real / 10.0) * 10.0 == k as real;
    k as real / 10.0
  }

  /** Only one tenth lies in the half-open band of width a tenth around `x`, so it is `Round10(x)`. */
  lemma Round10Unique(x: real, r: real)
    requires IsTenth(r) && -0.05 <= x - r < 0.05
    ensures r == Round10(x)
  {
    var a := (r * 10.0).Floor;
    var b := Round(x * 10.0);
    assert a as real - 0.5 <= x * 10.0 < a as real + 0.5;
    assert b as real - 0.5 <= x * 10.0 < b as real + 0.5;
    assert a == b;
  }

  function Max(a: int, b: int): (r: int)
    ensures r >= a && r >= b && (r == a || r == b)
  {
    if a >= b then a else b
  }

  function Min(a: int, b: int): (r: int)
    ensures r <= a && r <= b && (r == a || r == b)
  {
    if a <= b then a else b
  }

  /** A rounded percentage of a part of a whole stays within [0, 100] and is 100 for the whole. */
  lemma RoundedPercentInRange(part: int, whole: int)
    requires 0 <= part <= whole
    requires whole > 0
    ensures 0 <= RoundDiv(100 * part, whole) <= 100
    ensures part == whole ==> RoundDiv(100 * part, whole) == 100
  {
    if part == whole {
      RoundedPercentOfWhole(whole);
    }
    RoundDivAtLeast(100 * part, whole, 0);
    RoundDivAtMost(100 * part, whole, 100);
  }

  /** A ratio at least `lo` rounds to at least `lo`. */
  lemma RoundDivAtLeast(p: int, q: int, lo: int)
    requires q > 0 && q * lo <= p
    ensures lo <= RoundDiv(p, q)
  {
    var r := RoundDiv(p, q);
    assert q * (2 * lo - 2 * r - 1) == 2 * (q * lo) - (2 * q * r + q);
    ProductSign(q, 2 * lo - 2 * r - 1);
  }

  /** A ratio at most `hi` rounds to at most `hi`. */
  lemma RoundDivAtMost(p: int, q: int, hi: int)
    requires q > 0 && p <= q * hi
    ensures RoundDiv(p, q) <= hi
  {
    var r := RoundDiv(p, q);
    assert q * (2 * r - 2 * hi - 1) == (2 * q * r - q) - 2 * (q * hi);
    ProductSign(q, 2 * r - 2 * hi - 1);
  }

  /** A product with a positive factor has the sign of the other factor. */
  lemma ProductSign(q: int, x: int)
    requires q > 0
    ensures q * x <= 0 ==> x <= 0
    ensures q * x < 0 ==> x < 0
  {
    if x > 0 {
      MulMono(q, 1, x);
    }
  }

  /** `Math.round(100 * part / whole)` is 100 exactly when part is the whole. */
  lemma RoundedPercentOfWhole(whole: int)
    requires whole > 0
    ensures RoundDiv(100 * whole, whole) == 100
  {
    assert 2 * (100 * whole) + whole == 100 * (2 * whole) + whole;
    DivUnique(2 * (100 * whole) + whole, 2 * whole, 100);
  }

  lemma DivUnique(a: int, q: int, k: int)
    requires q > 0 && k * q <= a < k * q + q
    ensures a / q == k
  {
    var d := a / q;
    assert d * q <= a < d * q + q;
    assert q * (d - k - 1) == d * q - (k * q + q);
    ProductSign(q, d - k - 1);
    assert q * (k - d - 1) == k * q - (d * q + q);
    ProductSign(q, k - d - 1);
  }

  /** `k / n * 100` on exact reals: it scales back to `100 * k`, and it is a percentage when `k <= n`. */
  lemma RatioPercent(k: int, n: int)
    requires n > 0 && 0 <= k
    ensures k as real / n as real * 100.0 * n as real == 100.0 * k as real
    ensures k as real / n as real * 100.0 >= 0.0
    ensures k <= n ==> k as real / n as real * 100.0 <= 100.0
    ensures k as real / n as real * 100.0 == 100.0 <==> k == n
  {
    var kr, nr := k as real, n as real;
    var q := kr / nr;
    assert q * nr == kr;
    assert q >= 0.0;
    assert (1.0 - q) * nr == nr - kr;
    if q == 1.0 {
      assert kr == nr;
    }
  }

  /** A product with a positive factor has the sign of the other factor. */
  lemma PositiveFactor(x: real, d: real)
    requires d > 0.0 && x * d >= 0.0
    ensures x >= 0.0
  {
  }

  lemma MulMono(k: int, a: int, b: int)
    requires k >= 0 && a <= b
    ensures k * a <= k * b
  {
  }
}
