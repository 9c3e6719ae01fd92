/** Products of real numbers: signs, comparison and cancellation. */
module Reals {

  lemma ProductPositive(x: real, y: real)
    requires x > 0.0 && y > 0.0
    ensures x * y > 0.0
  {
  }

  lemma Product(x: real, y: real) returns (p: real)
    requires x > 0.0 && y > 0.0
    ensures p == x * y && p > 0.0
  {
    p := x * y;
  }

  lemma Distribute(a: real, b: real, c: real)
    ensures (a + b) * c == a * c + b * c
  {
  }

  lemma AffineDifference(c: real, x: real, m: real, d: real)
    ensures c * x + d - (c * m + d) == c * (x - m)
  {
  }

  lemma Cancel(a: real, b: real, n: real)
    requires n != 0.0 && a * n == b * n
    ensures a == b
  {
    assert (a - b) * n == 0.0;
  }

  lemma SquareIncreases(x: real, y: real)
    requires 0.0 <= y < x
    ensures y * y < x * x
  {
    ProductPositive(x - y, x + y);
  }

  lemma ScaleExceeds(x: real, y: real, p: real)
    requires x > y && p > 0.0
    ensures x * p > y * p
  {
    ProductPositive(x - y, p);
  }

  lemma SquareNonNegative(x: real)
    ensures x * x >= 0.0
  {
  }

  lemma CancelLess(p: real, q: real, w: real)
    requires w > 0.0 && p * w < q * w
    ensures p < q
  {
    if p >= q {
      ScaleAtLeast(p, q, w);
    }
  }

  lemma ScaleAtLeast(x: real, y: real, p: real)
    requires x >= y && p >= 0.0
    ensures x * p >= y * p
  {
    assert (x - y) * p >= 0.0;
  }
}
