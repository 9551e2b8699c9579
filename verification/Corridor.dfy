/** The padded diagonal corridor of core/alignment.py: which columns of each row
    the banded table holds. */
module Corridor {
  import opened Numbers

  /** `round(a / d)`: nearest integer, ties to even. */
  function RoundDiv(a: nat, d: nat): nat
    requires d > 0
  {
    var q, r := a / d, a % d;
    if 2 * r < d || (2 * r == d && q % 2 == 0) then q else q + 1
  }

  function Centre(i: nat, n: nat, m: nat): nat {
    if n == m then i else if n == 0 then 0 else RoundDiv(i * m, n)
  }

  /** First column held for row i: the band's own, padded by one. */
  function Lo(i: nat, n: nat, m: nat, band: nat): nat {
    Max(0, Max(0, Centre(i, n, m) - band) - 1)
  }

  /** One past the last column held for row i. */
  function Hi(i: nat, n: nat, m: nat, band: nat): nat {
    Min(m + 1, Min(m, Centre(i, n, m) + band + 1) + 1)
  }

  predicate Holds(i: nat, j: nat, n: nat, m: nat, band: nat) {
    i <= n && Lo(i, n, m, band) <= j < Hi(i, n, m, band)
  }

  /** The band `align_tokens` searches: never narrower than the length difference. */
  predicate WideEnough(n: nat, m: nat, band: nat) {
    band >= n - m && band >= m - n
  }

  lemma RoundDivNear(a: nat, d: nat)
    requires d > 0
    ensures 2 * a - d <= 2 * (d * RoundDiv(a, d)) <= 2 * a + d
  {
    var q := a / d;
    assert a == d * q + a % d;
    assert d * (q + 1) == d * q + d;
  }

  /** Half a step of slack never reaches the next multiple. */
  lemma Cancel(d: nat, x: int, y: int)
    requires d > 0 && 2 * (d * x) <= 2 * (d * y) + d
    ensures x <= y
  {
    assert d * (y + 1) == d * y + d;
    if x >= y + 1 { Scale(d, y + 1, x); }
  }

  lemma Scale(d: nat, x: int, y: int)
    requires x <= y
    ensures d * x <= d * y
  {
    assert d * (y - x) >= 0;
    assert d * (y - x) == d * y - d * x;
  }

  lemma CentreRange(i: nat, n: nat, m: nat)
    requires i <= n
    ensures Centre(i, n, m) <= m
    ensures Centre(0, n, m) == 0
    ensures n > 0 ==> Centre(n, n, m) == m
  {
    if n != m && n > 0 {
      Scale(m, i, n);
      RoundDivNear(i * m, n);
      Cancel(n, RoundDiv(i * m, n), m);
      RoundDivNear(n * m, n);
      Cancel(n, RoundDiv(n * m, n), m);
      Cancel(n, m, RoundDiv(n * m, n));
    }
  }

  /** From one row to the next the centre never moves back, nor further than the band can follow. */
  lemma CentreStep(i: nat, n: nat, m: nat, band: nat)
    requires i < n && WideEnough(n, m, band)
    ensures Centre(i, n, m) <= Centre(i + 1, n, m) <= Centre(i, n, m) + band + 2
  {
    if n != m {
      assert (i + 1) * m == i * m + m;
      RoundDivMonotone(i * m, i * m + m, n);
      RoundDivNear(i * m, n);
      RoundDivNear(i * m + m, n);
      StepBound(n, m, band, i * m, RoundDiv(i * m, n), RoundDiv(i * m + m, n));
    }
  }

  lemma StepBound(n: nat, m: nat, band: nat, a: nat, c: nat, d: nat)
    requires n > 0 && WideEnough(n, m, band)
    requires 2 * a - n <= 2 * (n * c) && 2 * (n * d) <= 2 * (a + m) + n
    ensures d <= c + band + 2
  {
    Distribute(n, c, band);
    Scale(band, 1, n);
    Cancel(n, d, c + band + 2);
  }

  lemma Distribute(n: nat, c: nat, band: nat)
    ensures n * (c + band + 2) == n * c + band * n + 2 * n
  {
  }

  lemma RoundDivMonotone(a: nat, b: nat, d: nat)
    requires d > 0 && a <= b
    ensures RoundDiv(a, d) <= RoundDiv(b, d)
  {
    var q, p := a / d, b / d;
    assert a == d * q + a % d && b == d * p + b % d;
    assert d * (p + 1) == d * p + d;
    if p < q { Scale(d, p + 1, q); }
  }

  /** Row i + 1 starts inside row i, and neither edge moves back. */
  lemma RowStep(i: nat, n: nat, m: nat, band: nat)
    requires i < n && WideEnough(n, m, band)
    ensures Lo(i, n, m, band) <= Lo(i + 1, n, m, band) < Hi(i, n, m, band) <= Hi(i + 1, n, m, band)
  {
    CentreRange(i + 1, n, m);
    CentreStep(i, n, m, band);
  }

  /** Every row holds a column, none past the last, and both corners of the table are held. */
  lemma RowRange(i: nat, n: nat, m: nat, band: nat)
    requires i <= n && WideEnough(n, m, band)
    ensures Lo(i, n, m, band) < Hi(i, n, m, band) <= m + 1
    ensures Lo(0, n, m, band) == 0
    ensures Holds(0, 0, n, m, band) && Holds(n, m, n, m, band)
  {
    CentreRange(i, n, m);
    CentreRange(n, n, m);
  }

  /** A band as wide as the longer sequence holds every cell. */
  lemma Everything(n: nat, m: nat, i: nat, j: nat)
    requires i <= n && j <= m
    ensures Holds(i, j, n, m, Max(n, m))
  {
    CentreRange(i, n, m);
  }
}
