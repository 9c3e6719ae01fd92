/** Means, variances and products of real sequences. A standard deviation is the non-negative
    root of the sample variance, given as a number with that property. */
module Statistics {
  import opened Reals

  function SumTo(s: seq<real>, n: nat): real
    requires n <= |s|
  {
    if n == 0 then 0.0 else SumTo(s, n - 1) + s[n - 1]
  }

  function Sum(s: seq<real>): real {
    SumTo(s, |s|)
  }

  /** The sum of the products of the first n elements. */
  function DotTo(a: seq<real>, b: seq<real>, n: nat): real
    requires n <= |a| && n <= |b|
  {
    if n == 0 then 0.0 else DotTo(a, b, n - 1) + a[n - 1] * b[n - 1]
  }

  function Mean(s: seq<real>): real
    requires s != []
  {
    Sum(s) / |s| as real
  }

  /** The deviations from the mean. */
  function Deviations(s: seq<real>): (r: seq<real>)
    requires s != []
    ensures |r| == |s|
    ensures forall i :: 0 <= i < |s| ==> r[i] == s[i] - Mean(s)
  {
    seq(|s|, i requires 0 <= i < |s| => s[i] - Mean(s))
  }

  function SquareSum(s: seq<real>): real
    requires s != []
  {
    DotTo(Deviations(s), Deviations(s), |s|)
  }

  /** `statistics.stdev`. */
  ghost predicate IsStdev(sd: real, s: seq<real>)
    requires |s| >= 2
  {
    sd >= 0.0 && sd * sd == SquareSum(s) / (|s| - 1) as real
  }

  /** `stdev(...) or 1e-9`. */
  function NonZero(sd: real): real {
    if sd == 0.0 then 0.000000001 else sd
  }

  lemma {:induction false} DotSymmetric(a: seq<real>, b: seq<real>, n: nat)
    requires n <= |a| && n <= |b|
    ensures DotTo(a, b, n) == DotTo(b, a, n)
  {
    if n > 0 {
      DotSymmetric(a, b, n - 1);
    }
  }

  function Times(x: real, y: real): real {
    x * y
  }

  /** (a u - b v) . (a u - b v) for p = a . a, q = a . b and r = b . b. */
  function Form(p: real, q: real, r: real, u: real, v: real): real {
    p * (u * u) - 2.0 * (q * (u * v)) + r * (v * v)
  }

  lemma FormStep(p: real, q: real, r: real, x: real, y: real, u: real, v: real)
    requires Form(p, q, r, u, v) >= 0.0
    ensures Form(p + Times(x, x), q + Times(x, y), r + Times(y, y), u, v) >= 0.0
  {
    Distribute(p, x * x, u * u);
    Distribute(q, x * y, u * v);
    Distribute(r, y * y, v * v);
  }

  lemma FormZero(u: real, v: real)
    ensures Form(0.0, 0.0, 0.0, u, v) == 0.0
  {
  }

  lemma {:induction false} FormNonNegative(a: seq<real>, b: seq<real>, n: nat, u: real, v: real)
    requires n <= |a| && n <= |b|
    ensures Form(DotTo(a, a, n), DotTo(a, b, n), DotTo(b, b, n), u, v) >= 0.0
  {
    hide Form, Times;
    if n == 0 {
      FormZero(u, v);
    } else {
      hide DotTo;
      FormNonNegative(a, b, n - 1, u, v);
      DotSteps(a, b, n);
      FormStep(DotTo(a, a, n - 1), DotTo(a, b, n - 1), DotTo(b, b, n - 1), a[n - 1], b[n - 1], u, v);
    }
  }

  lemma DotSteps(a: seq<real>, b: seq<real>, n: nat)
    requires 0 < n <= |a| && n <= |b|
    ensures DotTo(a, a, n) == DotTo(a, a, n - 1) + Times(a[n - 1], a[n - 1])
    ensures DotTo(a, b, n) == DotTo(a, b, n - 1) + Times(a[n - 1], b[n - 1])
    ensures DotTo(b, b, n) == DotTo(b, b, n - 1) + Times(b[n - 1], b[n - 1])
  {
  }

  /** q^2 <= p r. */
  ghost predicate SquareAtMost(q: real, p: real, r: real) {
    q * q <= p * r
  }

  lemma SchwarzStep(p: real, q: real, r: real, x: real, y: real)
    requires SquareAtMost(q, p, r) && Form(p, q, r, y, x) >= 0.0
    ensures SquareAtMost(q + Times(x, y), p + Times(x, x), r + Times(y, y))
  {
    var xx, xy, yy := x * x, x * y, y * y;
    assert (q + xy) * (q + xy) == q * q + 2.0 * (q * xy) + xy * xy;
    assert (p + xx) * (r + yy) == p * r + p * yy + r * xx + xx * yy;
    SquareOfProduct(x, y);
    assert y * x == xy;
  }

  lemma SquareOfProduct(x: real, y: real)
    ensures x * y * (x * y) == x * x * (y * y)
  {
  }

  lemma SquareAtMostZero()
    ensures SquareAtMost(0.0, 0.0, 0.0)
  {
  }

  /** Cauchy-Schwarz. */
  lemma {:induction false} Schwarz(a: seq<real>, b: seq<real>, n: nat)
    requires n <= |a| && n <= |b|
    ensures SquareAtMost(DotTo(a, b, n), DotTo(a, a, n), DotTo(b, b, n))
  {
    hide SquareAtMost, Form, Times;
    if n == 0 {
      SquareAtMostZero();
    } else {
      hide DotTo;
      Schwarz(a, b, n - 1);
      FormNonNegative(a, b, n - 1, b[n - 1], a[n - 1]);
      SchwarzStep(DotTo(a, a, n - 1), DotTo(a, b, n - 1), DotTo(b, b, n - 1), a[n - 1], b[n - 1]);
      DotSteps(a, b, n);
    }
  }

  // Affine changes of scale

  /** t is s in another unit and from another origin. */
  ghost predicate Affine(s: seq<real>, t: seq<real>, c: real, d: real) {
    |t| == |s| && forall i :: 0 <= i < |s| ==> t[i] == c * s[i] + d
  }

  lemma {:induction false} SumAffine(s: seq<real>, t: seq<real>, c: real, d: real, n: nat)
    requires n <= |s| && Affine(s, t, c, d)
    ensures SumTo(t, n) == c * SumTo(s, n) + d * n as real
  {
    if n > 0 {
      SumAffine(s, t, c, d, n - 1);
      assert d * n as real == d * (n - 1) as real + d;
      assert c * SumTo(s, n) == c * SumTo(s, n - 1) + c * s[n - 1];
    }
  }

  lemma Divide(p: real, c: real, x: real, d: real, n: real)
    requires n > 0.0 && p == c * x + d * n
    ensures p / n == c * (x / n) + d
  {
    var q := x / n;
    assert x == q * n;
    assert p == (c * q + d) * n;
    Cancel(p / n, c * q + d, n);
  }

  lemma DivideScaled(p: real, c: real, x: real, n: real)
    requires n > 0.0 && p == c * x
    ensures p / n == c * (x / n)
  {
    var q := x / n;
    assert x == q * n;
    assert p == c * q * n;
    Cancel(p / n, c * q, n);
  }

  lemma MeanAffine(s: seq<real>, t: seq<real>, c: real, d: real)
    requires s != [] && Affine(s, t, c, d)
    ensures |t| == |s| && Mean(t) == c * Mean(s) + d
  {
    SumAffine(s, t, c, d, |s|);
    assert |t| == |s|;
    hide SumTo, Affine;
    Divide(Sum(t), c, Sum(s), d, |s| as real);
  }

  lemma DeviationsAffine(s: seq<real>, t: seq<real>, c: real, d: real)
    requires s != [] && Affine(s, t, c, d)
    ensures Affine(Deviations(s), Deviations(t), c, 0.0)
  {
    MeanAffine(s, t, c, d);
    hide Mean;
    forall i | 0 <= i < |s| ensures Deviations(t)[i] == c * Deviations(s)[i] {
      AffineDifference(c, s[i], Mean(s), d);
    }
  }

  lemma {:induction false} DotScaled(a: seq<real>, b: seq<real>, x: seq<real>, c: real, n: nat)
    requires n <= |a| && n <= |b| && Affine(a, x, c, 0.0)
    ensures DotTo(x, b, n) == c * DotTo(a, b, n)
  {
    if n > 0 {
      DotScaled(a, b, x, c, n - 1);
      assert c * a[n - 1] * b[n - 1] == c * (a[n - 1] * b[n - 1]);
      assert c * DotTo(a, b, n) == c * DotTo(a, b, n - 1) + c * (a[n - 1] * b[n - 1]);
    }
  }

  lemma RootUnique(x: real, y: real)
    requires x >= 0.0 && y >= 0.0 && x * x == y * y
    ensures x == y
  {
    var u, v := x - y, x + y;
    assert u * v == 0.0 && 0.0 * v == 0.0;
    if v == 0.0 {
      assert x == 0.0 && y == 0.0;
    } else {
      Cancel(u, 0.0, v);
    }
  }

  // Raw sums

  lemma ProductOfDeviations(x: real, y: real, u: real, v: real)
    ensures (x - u) * (y - v) == x * y - v * x - u * y + u * v
  {
  }

  /** The products of the deviations from u and v, multiplied out. */
  ghost predicate Expanded(d: real, dot: real, x: real, y: real, u: real, v: real, n: real) {
    d == dot - v * x - u * y + n * (u * v)
  }

  lemma ExpandedStep(d: real, dot: real, x: real, y: real, u: real, v: real, n: real, a: real, b: real)
    requires Expanded(d, dot, x, y, u, v, n)
    ensures Expanded(d + Times(a - u, b - v), dot + Times(a, b), x + a, y + b, u, v, n + 1.0)
  {
    ProductOfDeviations(a, b, u, v);
    Distribute(x, a, v);
    Distribute(y, b, u);
    Distribute(n, 1.0, u * v);
  }

  lemma ExpandedNone(u: real, v: real)
    ensures Expanded(0.0, 0.0, 0.0, 0.0, u, v, 0.0)
  {
  }

  lemma {:induction false} DotOfDeviations(a: seq<real>, b: seq<real>, n: nat)
    requires |a| == |b| > 0 && n <= |a|
    ensures Expanded(DotTo(Deviations(a), Deviations(b), n), DotTo(a, b, n), SumTo(a, n), SumTo(b, n),
      Mean(a), Mean(b), n as real)
  {
    hide Expanded, Mean, Times, DotTo, SumTo;
    if n == 0 {
      NoSums(a, b);
      NoSums(Deviations(a), Deviations(b));
      ExpandedNone(Mean(a), Mean(b));
    } else {
      var x, y := Deviations(a), Deviations(b);
      DotOfDeviations(a, b, n - 1);
      ExpandedStep(DotTo(x, y, n - 1), DotTo(a, b, n - 1), SumTo(a, n - 1), SumTo(b, n - 1), Mean(a), Mean(b),
        (n - 1) as real, a[n - 1], b[n - 1]);
      SumSteps(x, y, n);
      SumSteps(a, b, n);
    }
  }

  lemma NoSums(a: seq<real>, b: seq<real>)
    ensures DotTo(a, b, 0) == SumTo(a, 0) == SumTo(b, 0) == 0.0
  {
  }

  lemma SumSteps(a: seq<real>, b: seq<real>, n: nat)
    requires 0 < n <= |a| && n <= |b|
    ensures DotTo(a, b, n) == DotTo(a, b, n - 1) + Times(a[n - 1], b[n - 1])
    ensures SumTo(a, n) == SumTo(a, n - 1) + a[n - 1] && SumTo(b, n) == SumTo(b, n - 1) + b[n - 1]
  {
  }

  ghost predicate IsMean(u: real, x: real, n: real) {
    u * n == x
  }

  lemma MeanTimes(s: seq<real>)
    requires s != []
    ensures IsMean(Mean(s), Sum(s), |s| as real)
  {
  }

  /** d = dot - x y / n. */
  ghost predicate LessProduct(d: real, dot: real, x: real, y: real, n: real)
    requires n > 0.0
  {
    d == dot - x * y / n
  }

  lemma MeansCancel(d: real, dot: real, x: real, y: real, u: real, v: real, n: real)
    requires n > 0.0 && IsMean(u, x, n) && IsMean(v, y, n) && Expanded(d, dot, x, y, u, v, n)
    ensures LessProduct(d, dot, x, y, n)
  {
    var p := u * v;
    assert v * x == n * p && u * y == n * p;
    assert x * y == n * p * n;
    Cancel(x * y / n, n * p, n);
  }

  /** The products of the deviations, in raw sums. */
  lemma DotInRawSums(a: seq<real>, b: seq<real>)
    requires |a| == |b| > 0
    ensures LessProduct(DotTo(Deviations(a), Deviations(b), |a|), DotTo(a, b, |a|), Sum(a), Sum(b), |a| as real)
  {
    hide Expanded, IsMean, LessProduct, Mean, SumTo, DotTo, Deviations;
    DotOfDeviations(a, b, |a|);
    MeanTimes(a);
    MeanTimes(b);
    MeansCancel(DotTo(Deviations(a), Deviations(b), |a|), DotTo(a, b, |a|), Sum(a), Sum(b), Mean(a), Mean(b),
      |a| as real);
  }

  // Columns without deviation

  lemma {:induction false} ZeroSquares(d: seq<real>, n: nat)
    requires n <= |d|
    ensures DotTo(d, d, n) >= 0.0
    ensures DotTo(d, d, n) == 0.0 ==> forall i :: 0 <= i < n ==> d[i] == 0.0
  {
    if n > 0 {
      ZeroSquares(d, n - 1);
      SquareZero(d[n - 1]);
    }
  }

  lemma SquareZero(x: real)
    ensures x * x >= 0.0 && (x * x == 0.0 ==> x == 0.0)
  {
    var y := if x < 0.0 then -x else x;
    assert y * y == x * x;
    if y > 0.0 {
      var p := Product(y, y);
    }
  }
}
