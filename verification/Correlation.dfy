/** Pearson correlation of two table columns. */
module Correlation {
  import opened Options
  import opened Reals
  import opened Statistics
  import opened Tables

  /** The rows among the first n that have a value in the column. */
  function PresentTo(rows: seq<Row>, col: string, n: nat): seq<nat>
    requires n <= |rows|
  {
    if n == 0 then []
    else PresentTo(rows, col, n - 1) + if Present(rows[n - 1], col) then [n - 1] else []
  }

  /** Every present cell converts to a number; otherwise `float` raises. */
  predicate Numeric(rows: seq<Row>, col: string) {
    forall i :: 0 <= i < |rows| && Present(rows[i], col) ==> ToFloat(rows[i], col).Some?
  }

  function ValuesTo(rows: seq<Row>, col: string, n: nat): (r: seq<real>)
    requires n <= |rows| && Numeric(rows, col)
    ensures |r| == |PresentTo(rows, col, n)|
  {
    if n == 0 then []
    else ValuesTo(rows, col, n - 1) + if Present(rows[n - 1], col) then [ToFloat(rows[n - 1], col).value] else []
  }

  function Covariance(a: seq<real>, b: seq<real>): real
    requires |a| == |b| >= 2
  {
    DotTo(Deviations(a), Deviations(b), |a|) / (|a| - 1) as real
  }

  function Pearson(a: seq<real>, b: seq<real>, sdA: real, sdB: real): real
    requires |a| == |b| >= 2 && sdA >= 0.0 && sdB >= 0.0
  {
    Scaled(Covariance(a, b), NonZero(sdA), NonZero(sdB))
  }

  function Scaled(cov: real, x: real, y: real): real
    requires x > 0.0 && y > 0.0
  {
    assert x * y > 0.0;
    cov / (x * y)
  }

  function Min(a: nat, b: nat): nat {
    if a < b then a else b
  }

  datatype Result = NotEnough | ConversionFailed | Correlated(r: real, pairs: nat)

  /** The columns, each filtered on its own and cut to the shorter length. */
  function Columns(rows: seq<Row>, colA: string, colB: string): (r: (seq<real>, seq<real>))
    requires Numeric(rows, colA) && Numeric(rows, colB)
    ensures |r.0| == |r.1|
  {
    var a, b := ValuesTo(rows, colA, |rows|), ValuesTo(rows, colB, |rows|);
    var n := Min(|a|, |b|);
    (a[..n], b[..n])
  }

  /** `correlate_columns`, given the two standard deviations. */
  function CorrelateColumns(rows: seq<Row>, colA: string, colB: string, sdA: real, sdB: real): Result
    requires sdA >= 0.0 && sdB >= 0.0
  {
    if !Numeric(rows, colA) || !Numeric(rows, colB) then ConversionFailed
    else
      var (a, b) := Columns(rows, colA, colB);
      if |a| < 2 then NotEnough else Correlated(Pearson(a, b, sdA, sdB), |a|)
  }

  // Bounds

  lemma SquareBound(x: real, y: real)
    requires y >= 0.0 && x * x <= y * y
    ensures -y <= x <= y
  {
    if x > y {
      SquareIncreases(x, y);
    } else if x < -y {
      SquareIncreases(-x, y);
    }
  }

  lemma QuotientSquare(c: real, a: real, b: real, m: real)
    requires m > 0.0 && c * c <= a * b
    ensures (c / m) * (c / m) <= (a / m) * (b / m)
  {
    var k := Product(m, m);
    var x, y, z := c / m, a / m, b / m;
    assert x * m == c && y * m == a && z * m == b;
  }

  lemma CovarianceBound(a: seq<real>, b: seq<real>, sdA: real, sdB: real)
    requires |a| == |b| >= 2 && IsStdev(sdA, a) && IsStdev(sdB, b)
    ensures -(sdA * sdB) <= Covariance(a, b) <= sdA * sdB
  {
    var x, y, m := Deviations(a), Deviations(b), (|a| - 1) as real;
    Schwarz(x, y, |a|);
    QuotientSquare(DotTo(x, y, |a|), SquareSum(a), SquareSum(b), m);
    assert sdA * sdB * (sdA * sdB) == sdA * sdA * (sdB * sdB);
    assert sdA * sdB >= 0.0;
    SquareBound(Covariance(a, b), sdA * sdB);
  }

  lemma ScaledBound(cov: real, x: real, y: real)
    requires x > 0.0 && y > 0.0 && -(x * y) <= cov <= x * y
    ensures -1.0 <= Scaled(cov, x, y) <= 1.0
  {
    ProductPositive(x, y);
    assert Scaled(cov, x, y) == cov / (x * y);
  }

  /** The coefficient lies in [-1, 1] for all columns; a constant column gives 0. */
  lemma PearsonBounded(a: seq<real>, b: seq<real>, sdA: real, sdB: real)
    requires |a| == |b| >= 2 && IsStdev(sdA, a) && IsStdev(sdB, b)
    ensures -1.0 <= Pearson(a, b, sdA, sdB) <= 1.0
    ensures sdA == 0.0 || sdB == 0.0 ==> Pearson(a, b, sdA, sdB) == 0.0
  {
    CovarianceBound(a, b, sdA, sdB);
    if sdA == 0.0 || sdB == 0.0 {
      assert sdA * sdB == 0.0;
    } else {
      ScaledBound(Covariance(a, b), sdA, sdB);
    }
  }

  /** Swapping the columns does not change the coefficient. */
  lemma PearsonSymmetric(a: seq<real>, b: seq<real>, sdA: real, sdB: real)
    requires |a| == |b| >= 2 && sdA >= 0.0 && sdB >= 0.0
    ensures Pearson(a, b, sdA, sdB) == Pearson(b, a, sdB, sdA)
  {
    DotSymmetric(Deviations(a), Deviations(b), |a|);
    var x, y := NonZero(sdA), NonZero(sdB);
    assert x * y == y * x;
  }

  lemma SquareSumScales(a: seq<real>, t: seq<real>, c: real, d: real)
    requires |a| == |t| >= 2 && Affine(a, t, c, d)
    ensures SquareSum(t) == c * (c * SquareSum(a))
  {
    var x, y := Deviations(a), Deviations(t);
    DeviationsAffine(a, t, c, d);
    hide Deviations, DotTo, Affine;
    DotScaled(x, y, y, c, |a|);
    DotSymmetric(x, y, |a|);
    DotScaled(x, x, y, c, |a|);
  }

  /** A root of the c^2-fold is the c-fold root. */
  lemma RootScales(c: real, total: real, totalT: real, m: real, sd: real, sdT: real)
    requires c > 0.0 && m > 0.0 && sd >= 0.0 && sdT >= 0.0 && totalT == c * (c * total)
    requires sd * sd == total / m && sdT * sdT == totalT / m
    ensures sdT == c * sd
  {
    DivideScaled(totalT, c, c * total, m);
    DivideScaled(c * total, c, total, m);
    ScaleAtLeast(c, 0.0, sd);
    RootUnique(sdT, c * sd);
  }

  lemma StdevScales(a: seq<real>, t: seq<real>, c: real, d: real, sd: real, sdT: real)
    requires |a| == |t| >= 2 && c > 0.0 && Affine(a, t, c, d)
    requires IsStdev(sd, a) && IsStdev(sdT, t)
    ensures sdT == c * sd
  {
    SquareSumScales(a, t, c, d);
    hide SquareSum, Affine;
    RootScales(c, SquareSum(a), SquareSum(t), (|a| - 1) as real, sd, sdT);
  }

  lemma CovarianceScales(a: seq<real>, b: seq<real>, t: seq<real>, c: real, d: real)
    requires |a| == |b| == |t| >= 2 && Affine(a, t, c, d)
    ensures Covariance(t, b) == c * Covariance(a, b)
  {
    var n := |a|;
    DotAffine(a, b, t, c, d);
    hide Deviations, DotTo, Affine;
    DivideScaled(DotTo(Deviations(t), Deviations(b), n), c, DotTo(Deviations(a), Deviations(b), n), (n - 1) as real);
  }

  lemma DotAffine(a: seq<real>, b: seq<real>, t: seq<real>, c: real, d: real)
    requires |a| == |b| == |t| >= 2 && Affine(a, t, c, d)
    ensures DotTo(Deviations(t), Deviations(b), |a|) == c * DotTo(Deviations(a), Deviations(b), |a|)
  {
    hide *;
    DeviationsAffine(a, t, c, d);
    DotScaled(Deviations(a), Deviations(b), Deviations(t), c, |a|);
  }

  /** Changing the unit or the origin of a column does not change the coefficient. */
  lemma PearsonScaleInvariant(a: seq<real>, b: seq<real>, t: seq<real>, c: real, d: real, sdA: real, sdB: real,
      sdT: real)
    requires |a| == |b| == |t| >= 2 && c > 0.0 && Affine(a, t, c, d)
    requires IsStdev(sdA, a) && IsStdev(sdB, b) && IsStdev(sdT, t)
    ensures Pearson(t, b, sdT, sdB) == Pearson(a, b, sdA, sdB)
  {
    StdevScales(a, t, c, d, sdA, sdT);
    if sdA == 0.0 {
      assert sdT == 0.0;
      PearsonBounded(a, b, sdA, sdB);
      PearsonBounded(t, b, sdT, sdB);
    } else {
      CovarianceScales(a, b, t, c, d);
      ProductPositive(c, sdA);
      hide Covariance, Scaled, IsStdev, Affine;
      ScaledUnchanged(Covariance(t, b), sdT, c, Covariance(a, b), sdA, NonZero(sdB));
    }
  }

  lemma ScaledUnchanged(p: real, u: real, c: real, cov: real, x: real, y: real)
    requires c > 0.0 && x > 0.0 && y > 0.0 && u > 0.0 && p == c * cov && u == c * x
    ensures Scaled(p, u, y) == Scaled(cov, x, y)
  {
    var k := Product(x, y);
    var q := cov / k;
    assert q * k == cov;
    var uy := Product(u, y);
    assert uy == c * k;
    assert q * uy == p;
    Cancel(p / uy, q, uy);
  }

  // The coefficient in raw sums

  function TimesAll(r: real, x: real, y: real, n: int): real {
    r * (x * y) * n as real
  }

  /** In columns that vary, the coefficient times both deviations and n - 1 is the sum of the products
      less the product of the sums over n. */
  lemma PearsonInRawSums(a: seq<real>, b: seq<real>, sdA: real, sdB: real)
    requires |a| == |b| >= 2 && sdA > 0.0 && sdB > 0.0
    ensures var n := |a|;
      LessProduct(TimesAll(Pearson(a, b, sdA, sdB), sdA, sdB, n - 1), DotTo(a, b, n), Sum(a), Sum(b), n as real)
  {
    DotInRawSums(a, b);
    hide LessProduct, DotTo, Deviations, Sum, TimesAll, Scaled;
    var d := DotTo(Deviations(a), Deviations(b), |a|);
    ScaledTimesAll(Covariance(a, b), sdA, sdB, |a| - 1, d);
  }

  lemma ScaledTimesAll(cov: real, x: real, y: real, n: nat, d: real)
    requires x > 0.0 && y > 0.0 && n > 0 && cov == d / n as real
    ensures TimesAll(Scaled(cov, x, y), x, y, n) == d
  {
    ScaledTimes(cov, x, y);
    hide Scaled;
    var p := Scaled(cov, x, y) * (x * y);
    assert p * n as real == d;
  }

  lemma ScaledTimes(cov: real, x: real, y: real)
    requires x > 0.0 && y > 0.0
    ensures Scaled(cov, x, y) * (x * y) == cov
  {
    var p := Product(x, y);
    assert Scaled(cov, x, y) == cov / p;
  }

  lemma DeviationOfLine(a: seq<real>, t: seq<real>, c: real, d: real, k: real, sd: real, sdT: real)
    requires |a| == |t| >= 2 && k > 0.0 && (c == k || c == -k) && Affine(a, t, c, d)
    requires IsStdev(sd, a) && IsStdev(sdT, t)
    ensures sdT == k * sd
  {
    SquareSumScales(a, t, c, d);
    hide SquareSum, Affine;
    assert c * (c * SquareSum(a)) == k * (k * SquareSum(a));
    RootScales(k, SquareSum(a), SquareSum(t), (|a| - 1) as real, sd, sdT);
  }

  lemma LineQuotient(cov: real, x: real, c: real, k: real, s: real)
    requires k > 0.0 && s > 0.0 && (c == k || c == -k) && cov == c * (s * s) && x == k * s && x > 0.0
    ensures Scaled(cov, x, s) == if c == k then 1.0 else -1.0
  {
    var p := Product(s, s);
    var q := Product(x, s);
    assert q == k * p;
    var r := if c == k then 1.0 else -1.0;
    assert cov == r * q;
    assert Scaled(cov, x, s) * q == r * q by {
      ScaledTimes(cov, x, s);
    }
    Cancel(Scaled(cov, x, s), r, q);
  }

  /** A column against its image under a line: 1 when the line ascends, -1 when it descends. */
  lemma PearsonOfLine(a: seq<real>, t: seq<real>, c: real, d: real, sd: real, sdT: real)
    requires |a| == |t| >= 2 && c != 0.0 && Affine(a, t, c, d)
    requires IsStdev(sd, a) && IsStdev(sdT, t) && sd > 0.0
    ensures Pearson(t, a, sdT, sd) == Pearson(a, t, sd, sdT) == if c > 0.0 then 1.0 else -1.0
  {
    var k := if c > 0.0 then c else -c;
    DeviationOfLine(a, t, c, d, k, sd, sdT);
    ProductPositive(k, sd);
    CovarianceScales(a, a, t, c, d);
    assert Covariance(a, a) == sd * sd;
    PearsonSymmetric(a, t, sd, sdT);
    hide Covariance, Affine, IsStdev, Scaled;
    LineQuotient(Covariance(t, a), sdT, c, k, sd);
  }

  /** A missing cell, null and the empty text are gaps. */
  lemma GapKinds(col: string, text: string)
    ensures !Present(map[], col) && !Present(map[col := Null], col)
    ensures Present(map[col := Value(text, None)], col) <==> text != ""
  {
  }

  /** Some value of the column is no number. */
  ghost predicate Unreadable(rows: seq<Row>, col: string) {
    exists i :: 0 <= i < |rows| && Present(rows[i], col) && ToFloat(rows[i], col).None?
  }

  /** Which answer is given: a value that is no number makes the conversion fail, whatever else; then
      both columns need two values. */
  lemma AnswerIff(rows: seq<Row>, colA: string, colB: string, sdA: real, sdB: real)
    requires sdA >= 0.0 && sdB >= 0.0
    ensures var c := CorrelateColumns(rows, colA, colB, sdA, sdB);
      var a, b := |PresentTo(rows, colA, |rows|)|, |PresentTo(rows, colB, |rows|)|;
      && (c.ConversionFailed? <==> Unreadable(rows, colA) || Unreadable(rows, colB))
      && (c.NotEnough? ==> a < 2 || b < 2)
      && (c.Correlated? ==> a >= 2 && b >= 2 && (c.pairs == a || c.pairs == b) && c.pairs <= a && c.pairs <= b)
  {
    forall col ensures Numeric(rows, col) <==> !Unreadable(rows, col) {
    }
    hide Unreadable, Numeric, PresentTo, ValuesTo, Pearson;
  }

  /** Every correlation reported for a table lies in [-1, 1], and does not depend on the order of
      the two columns; it is reported when both columns are numeric and two pairs remain. */
  lemma CorrelationBounded(rows: seq<Row>, colA: string, colB: string, sdA: real, sdB: real)
    requires Numeric(rows, colA) && Numeric(rows, colB)
    requires var (a, b) := Columns(rows, colA, colB); |a| >= 2 && IsStdev(sdA, a) && IsStdev(sdB, b)
    ensures var c := CorrelateColumns(rows, colA, colB, sdA, sdB);
      c.Correlated? && -1.0 <= c.r <= 1.0 && c == CorrelateColumns(rows, colB, colA, sdB, sdA)
  {
    var (a, b) := Columns(rows, colA, colB);
    assert Columns(rows, colB, colA) == (b, a);
    PearsonBounded(a, b, sdA, sdB);
    PearsonSymmetric(a, b, sdA, sdB);
  }

  // Which rows are paired

  /** The k-th value of a column is the value of its k-th present row. */
  lemma {:induction false} ValuesFromRows(rows: seq<Row>, col: string, n: nat, k: nat)
    requires n <= |rows| && Numeric(rows, col) && k < |PresentTo(rows, col, n)|
    ensures var i := PresentTo(rows, col, n)[k];
      i < n && ToFloat(rows[i], col) == Some(ValuesTo(rows, col, n)[k])
  {
    if k < |PresentTo(rows, col, n - 1)| {
      ValuesFromRows(rows, col, n - 1, k);
    }
  }

  /** The rows among the first n that have a value in both columns. */
  function CompleteTo(rows: seq<Row>, colA: string, colB: string, n: nat): seq<nat>
    requires n <= |rows|
  {
    if n == 0 then []
    else CompleteTo(rows, colA, colB, n - 1)
         + if Present(rows[n - 1], colA) && Present(rows[n - 1], colB) then [n - 1] else []
  }

  lemma {:induction false} NoneComplete(rows: seq<Row>, colA: string, colB: string, m: nat, n: nat)
    requires m <= n <= |rows|
    requires forall j :: m <= j < n ==> !Present(rows[j], colA) || !Present(rows[j], colB)
    ensures CompleteTo(rows, colA, colB, n) == CompleteTo(rows, colA, colB, m)
  {
    if m < n {
      NoneComplete(rows, colA, colB, m, n - 1);
    }
  }

  /** Every pair of the correlation comes from one row. */
  ghost predicate Aligned(rows: seq<Row>, colA: string, colB: string) {
    var a, b := PresentTo(rows, colA, |rows|), PresentTo(rows, colB, |rows|);
    forall k :: 0 <= k < |a| && k < |b| ==> a[k] == b[k]
  }

  /** A row with a value in one column only is followed by no value in the other column. */
  ghost predicate GapsAtEnd(rows: seq<Row>, colA: string, colB: string) {
    forall i, j :: 0 <= i < j < |rows| ==>
      && !(Present(rows[i], colA) && !Present(rows[i], colB) && Present(rows[j], colB))
      && !(Present(rows[i], colB) && !Present(rows[i], colA) && Present(rows[j], colA))
  }

  lemma {:induction false} PresentExtends(rows: seq<Row>, col: string, m: nat, n: nat)
    requires m <= n <= |rows|
    ensures PresentTo(rows, col, m) <= PresentTo(rows, col, n)
    ensures forall k :: |PresentTo(rows, col, m)| <= k < |PresentTo(rows, col, n)| ==>
      m <= PresentTo(rows, col, n)[k] < n && Present(rows[PresentTo(rows, col, n)[k]], col)
  {
    if m < n {
      PresentExtends(rows, col, m, n - 1);
    }
  }

  lemma {:induction false} NoneAfter(rows: seq<Row>, col: string, m: nat, n: nat)
    requires m <= n <= |rows| && forall j :: m <= j < n ==> !Present(rows[j], col)
    ensures PresentTo(rows, col, n) == PresentTo(rows, col, m)
  {
    if m < n {
      NoneAfter(rows, col, m, n - 1);
    }
  }

  lemma {:induction false} SomeAfter(rows: seq<Row>, col: string, m: nat, j: nat, n: nat)
    requires m <= j < n <= |rows| && Present(rows[j], col)
    ensures |PresentTo(rows, col, n)| > |PresentTo(rows, col, m)|
  {
    PresentExtends(rows, col, m, j);
    PresentExtends(rows, col, j + 1, n);
  }

  lemma {:induction false} SamePresence(rows: seq<Row>, colA: string, colB: string, n: nat)
    requires n <= |rows| && forall i :: 0 <= i < n ==> Present(rows[i], colA) == Present(rows[i], colB)
    ensures PresentTo(rows, colA, n) == PresentTo(rows, colB, n) == CompleteTo(rows, colA, colB, n)
  {
    if n > 0 {
      SamePresence(rows, colA, colB, n - 1);
    }
  }

  /** The first row i <= n with a value in exactly one of the columns. */
  lemma {:induction false} FirstMixed(rows: seq<Row>, colA: string, colB: string, n: nat) returns (m: nat)
    requires n < |rows| && Present(rows[n], colA) != Present(rows[n], colB)
    ensures m <= n && Present(rows[m], colA) != Present(rows[m], colB)
    ensures forall i :: 0 <= i < m ==> Present(rows[i], colA) == Present(rows[i], colB)
  {
    if k :| 0 <= k < n && Present(rows[k], colA) != Present(rows[k], colB) {
      m := FirstMixed(rows, colA, colB, k);
    } else {
      m := n;
    }
  }

  /** When the first mixed row lacks column b and b has a later value, the columns are shifted. */
  lemma Shifted(rows: seq<Row>, colA: string, colB: string, m: nat, j: nat)
    requires m < j < |rows| && Present(rows[m], colA) && !Present(rows[m], colB) && Present(rows[j], colB)
    requires forall i :: 0 <= i < m ==> Present(rows[i], colA) == Present(rows[i], colB)
    ensures var k := |PresentTo(rows, colA, m)|;
      var a, b := PresentTo(rows, colA, |rows|), PresentTo(rows, colB, |rows|);
      k < |a| && k < |b| && a[k] == m < b[k]
  {
    var n := |rows|;
    SamePresence(rows, colA, colB, m);
    PresentExtends(rows, colA, m + 1, n);
    PresentExtends(rows, colB, m + 1, n);
    SomeAfter(rows, colB, m + 1, j, n);
  }

  /** Without such gaps the correlated pairs are exactly the rows that have both values. */
  lemma GapsAtEndPairsCompleteRows(rows: seq<Row>, colA: string, colB: string)
    requires GapsAtEnd(rows, colA, colB)
    ensures Aligned(rows, colA, colB)
    ensures var a, b := PresentTo(rows, colA, |rows|), PresentTo(rows, colB, |rows|);
      a[..Min(|a|, |b|)] == b[..Min(|a|, |b|)] == CompleteTo(rows, colA, colB, |rows|)
  {
    var n := |rows|;
    if i :| 0 <= i < n && Present(rows[i], colA) != Present(rows[i], colB) {
      var m := FirstMixed(rows, colA, colB, i);
      SamePresence(rows, colA, colB, m);
      PresentExtends(rows, colA, m, n);
      PresentExtends(rows, colB, m, n);
      if Present(rows[m], colA) {
        NoneAfter(rows, colB, m, n);
      } else {
        NoneAfter(rows, colA, m, n);
      }
      NoneComplete(rows, colA, colB, m, n);
    } else {
      SamePresence(rows, colA, colB, n);
    }
  }

  /** The correlated pairs come from the same rows if and only if no column has a value after a row
      in which only the other column has one. */
  lemma AlignedIffGapsAtEnd(rows: seq<Row>, colA: string, colB: string)
    ensures Aligned(rows, colA, colB) <==> GapsAtEnd(rows, colA, colB)
  {
    if GapsAtEnd(rows, colA, colB) {
      GapsAtEndPairsCompleteRows(rows, colA, colB);
    } else {
      var i, j :| 0 <= i < j < |rows| &&
        ((Present(rows[i], colA) && !Present(rows[i], colB) && Present(rows[j], colB))
         || (Present(rows[i], colB) && !Present(rows[i], colA) && Present(rows[j], colA)));
      var m := FirstMixed(rows, colA, colB, i);
      if Present(rows[m], colA) {
        Shifted(rows, colA, colB, m, if m == i then j else if Present(rows[i], colB) then i else j);
      } else {
        Shifted(rows, colB, colA, m, if m == i then j else if Present(rows[i], colA) then i else j);
      }
    }
  }

  /** A gap in the second column pairs the first row's value with the second row's. */
  lemma GapMisaligns()
    ensures var rows := [map["a" := Value("1", Some(1.0))],
                         map["a" := Value("2", Some(2.0)), "b" := Value("5", Some(5.0))],
                         map["b" := Value("6", Some(6.0))]];
      && Numeric(rows, "a") && Numeric(rows, "b")
      && Columns(rows, "a", "b") == ([1.0, 2.0], [5.0, 6.0])
      && !Aligned(rows, "a", "b")
  {
    var x := map["a" := Value("1", Some(1.0))];
    var y := map["a" := Value("2", Some(2.0)), "b" := Value("5", Some(5.0))];
    var z := map["b" := Value("6", Some(6.0))];
    var rows: seq<Row> := [x, y, z];
    assert Present(x, "a") && Present(y, "a") && !Present(z, "a");
    assert !Present(x, "b") && Present(y, "b") && Present(z, "b");
    assert ValuesTo(rows, "a", 0) == [] && ValuesTo(rows, "b", 0) == [];
    assert ValuesTo(rows, "a", 1) == [1.0] && ValuesTo(rows, "b", 1) == [];
    assert ValuesTo(rows, "a", 2) == [1.0, 2.0] && ValuesTo(rows, "b", 2) == [5.0];
    assert ValuesTo(rows, "a", 3) == [1.0, 2.0] && ValuesTo(rows, "b", 3) == [5.0, 6.0];
    assert [1.0, 2.0][..2] == [1.0, 2.0] && [5.0, 6.0][..2] == [5.0, 6.0];
    assert Columns(rows, "a", "b") == ([1.0, 2.0], [5.0, 6.0]);
    AlignedIffGapsAtEnd(rows, "a", "b");
    assert Present(rows[0], "a") && !Present(rows[0], "b") && Present(rows[1], "b");
  }
}
