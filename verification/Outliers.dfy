/** Outlier detection by quartiles or by standard score. */
module Outliers {
  import opened Options
  import opened Reals
  import opened Sorting
  import opened Statistics
  import opened Tables

  predicate Leq(x: real, y: real) {
    x <= y
  }

  /** The numbers in a column of the first n rows. */
  function NumbersTo(rows: seq<Row>, col: string, n: nat): seq<real>
    requires n <= |rows|
  {
    if n == 0 then []
    else
      var before, v := NumbersTo(rows, col, n - 1), ToFloat(rows[n - 1], col);
      if v.Some? then before + [v.value] else before
  }

  function Numbers(rows: seq<Row>, col: string): seq<real> {
    NumbersTo(rows, col, |rows|)
  }

  function Ordered(rows: seq<Row>, col: string): seq<real> {
    Sort(Leq, Numbers(rows, col))
  }

  /** What a detection flags: values outside two fences, or far from the mean, or nothing. */
  datatype Test = Fences(low: real, high: real) | Score(mean: real, sd: real, threshold: real) | Nothing
  {
    ghost predicate WellFormed() {
      Score? ==> sd > 0.0
    }

    predicate Flags(v: real)
      requires Score? ==> sd > 0.0
    {
      match this
      case Fences(low, high) => v < low || v > high
      case Score(mean, sd, threshold) => Abs((v - mean) / sd) > threshold
      case Nothing => false
    }
  }

  function Abs(x: real): real {
    if x < 0.0 then -x else x
  }

  function Quartile1(s: seq<real>): real
    requires s != []
  {
    s[|s| / 4]
  }

  function Quartile3(s: seq<real>): real
    requires s != []
  {
    s[3 * |s| / 4]
  }

  function IqrTest(s: seq<real>, threshold: real): Test
    requires s != []
  {
    var q1, q3 := Quartile1(s), Quartile3(s);
    Fences(q1 - threshold * (q3 - q1), q3 + threshold * (q3 - q1))
  }

  function ZScoreTest(s: seq<real>, sd: real, threshold: real): (t: Test)
    requires s != [] && sd >= 0.0
    ensures t.WellFormed()
  {
    Score(Mean(s), NonZero(sd), threshold)
  }

  /** The rows among the first n whose value is flagged. */
  function FlaggedTo(t: Test, rows: seq<Row>, col: string, n: nat): seq<Row>
    requires t.WellFormed() && n <= |rows|
  {
    if n == 0 then []
    else
      var v := ToFloat(rows[n - 1], col);
      FlaggedTo(t, rows, col, n - 1) + if v.Some? && t.Flags(v.value) then [rows[n - 1]] else []
  }

  /** How many of the first n values are flagged. */
  function CountTo(t: Test, s: seq<real>, n: nat): nat
    requires t.WellFormed() && n <= |s|
  {
    if n == 0 then 0 else CountTo(t, s, n - 1) + if t.Flags(s[n - 1]) then 1 else 0
  }

  datatype Detection = NotEnough | Detected(count: nat, total: nat, listed: seq<Row>)

  function TestFor(kind: string, s: seq<real>, threshold: real, sd: real): (t: Test)
    requires s != [] && sd >= 0.0
    ensures t.WellFormed()
  {
    if kind == "iqr" then IqrTest(s, threshold)
    else if kind == "zscore" then ZScoreTest(s, sd, threshold)
    else Nothing
  }

  function Listed(flagged: seq<Row>): seq<Row> {
    if |flagged| <= 100 then flagged else flagged[..100]
  }

  // What is flagged

  function Larger(x: real, y: real): real {
    if x < y then y else x
  }

  /** An outlying value among the sorted values s. By quartiles: its distance from the interval between
      the quartile positions, negative inside it, exceeds the threshold times the interval's width. By
      standard score: its squared deviation exceeds the threshold's square times the sample variance;
      a negative threshold is always exceeded. */
  ghost predicate Outlying(kind: string, s: seq<real>, threshold: real, v: real)
    requires |s| >= 2
  {
    if kind == "iqr" then
      var q1, q3 := s[|s| / 4], s[3 * |s| / 4];
      Larger(q1 - v, v - q3) > threshold * (q3 - q1)
    else if kind == "zscore" then
      var deviation, variance := v - Sum(s) / |s| as real, SquareSum(s) / (|s| - 1) as real;
      threshold < 0.0 || deviation * deviation > threshold * threshold * variance
    else false
  }

  lemma ScoreExceedsIff(d: real, w: real, k: real, p: real)
    requires w > 0.0 && p == w * w
    ensures Abs(d / w) > k <==> k < 0.0 || d * d > k * k * p
  {
    var z := d / w;
    assert d == z * w;
    ProductPositive(w, w);
    assert d * d == z * z * p;
    var y := Abs(z);
    assert y * y == z * z;
    if k >= 0.0 {
      if y > k {
        SquareIncreases(y, k);
        ScaleExceeds(z * z, k * k, p);
      } else {
        SquareAtMostSquare(y, k);
        ScaleAtLeast(k * k, z * z, p);
      }
    }
  }

  lemma SquareAtMostSquare(x: real, y: real)
    requires 0.0 <= x <= y
    ensures x * x <= y * y
  {
    if x < y {
      SquareIncreases(y, x);
    }
  }

  lemma NoDeviation(s: seq<real>, i: nat)
    requires i < |s| && SquareSum(s) == 0.0
    ensures s[i] == Mean(s)
  {
    ZeroSquares(Deviations(s), |s|);
    assert Deviations(s)[i] == s[i] - Mean(s);
  }

  lemma ScoreIff(s: seq<real>, sd: real, k: real, i: nat)
    requires |s| >= 2 && IsStdev(sd, s) && i < |s|
    ensures ZScoreTest(s, sd, k).Flags(s[i]) <==> Outlying("zscore", s, k, s[i])
  {
    var d, variance := s[i] - Mean(s), SquareSum(s) / (|s| - 1) as real;
    if sd == 0.0 {
      assert 0.0 * 0.0 == 0.0;
      ZeroQuotient(SquareSum(s), (|s| - 1) as real);
      NoDeviation(s, i);
    }
    hide SquareSum, Mean;
    ScoreOrZero(d, sd, k, variance);
  }

  lemma ZeroQuotient(x: real, n: real)
    requires n > 0.0 && x / n == 0.0
    ensures x == 0.0
  {
    assert x == x / n * n;
  }

  lemma ScoreOrZero(d: real, sd: real, k: real, variance: real)
    requires sd >= 0.0 && sd * sd == variance && (sd == 0.0 ==> d == 0.0)
    ensures Abs(d / NonZero(sd)) > k <==> k < 0.0 || d * d > k * k * variance
  {
    if sd > 0.0 {
      ScoreExceedsIff(d, sd, k, variance);
    } else {
      NoScore(d, NonZero(sd), k, variance, sd);
    }
  }

  lemma NoScore(d: real, w: real, k: real, variance: real, sd: real)
    requires w > 0.0 && d == 0.0 && sd == 0.0 && sd * sd == variance
    ensures Abs(d / w) > k <==> k < 0.0 || d * d > k * k * variance
  {
    assert variance == 0.0;
    assert d / w == 0.0 && d * d == 0.0 && k * k * variance == 0.0;
  }

  lemma FencesIff(s: seq<real>, k: real, v: real)
    requires |s| >= 2
    ensures IqrTest(s, k).Flags(v) <==> Outlying("iqr", s, k, v)
  {
    FenceExceeds(s[|s| / 4], s[3 * |s| / 4], k * (s[3 * |s| / 4] - s[|s| / 4]), v);
  }

  lemma FenceExceeds(q1: real, q3: real, p: real, v: real)
    ensures v < q1 - p || v > q3 + p <==> Larger(q1 - v, v - q3) > p
  {
  }

  /** Exactly the outlying values of the column are flagged, for every method name, threshold and
      column. */
  lemma FlagsIff(kind: string, s: seq<real>, threshold: real, sd: real, i: nat)
    requires |s| >= 2 && IsStdev(sd, s) && i < |s|
    ensures TestFor(kind, s, threshold, sd).Flags(s[i]) <==> Outlying(kind, s, threshold, s[i])
  {
    FencesIff(s, threshold, s[i]);
    ScoreIff(s, sd, threshold, i);
    hide SquareSum, Sum, IqrTest, ZScoreTest;
  }

  /** The places of the rows that are listed. */
  ghost predicate Lists(idx: seq<nat>, rows: seq<Row>, column: string, kind: string, threshold: real, n: nat)
    requires n <= |rows| && |Ordered(rows, column)| >= 2
  {
    && (forall j, k :: 0 <= j < k < |idx| ==> idx[j] < idx[k])
    && (forall k :: 0 <= k < |idx| ==> idx[k] < n)
    && forall i: nat :: i < n ==> (i in idx <==> RowOutlies(rows[i], rows, column, kind, threshold))
  }

  ghost predicate RowOutlies(row: Row, rows: seq<Row>, column: string, kind: string, threshold: real)
    requires |Ordered(rows, column)| >= 2
  {
    ToFloat(row, column).Some? && Outlying(kind, Ordered(rows, column), threshold, ToFloat(row, column).value)
  }

  ghost function RowsAt(rows: seq<Row>, idx: seq<nat>): (r: seq<Row>)
    requires forall k :: 0 <= k < |idx| ==> idx[k] < |rows|
    ensures |r| == |idx| && forall k :: 0 <= k < |idx| ==> r[k] == rows[idx[k]]
  {
    seq(|idx|, k requires 0 <= k < |idx| => rows[idx[k]])
  }

  /** The answer reports the rows at these places, the first hundred of them in full. */
  ghost predicate Reports(r: Detection, rows: seq<Row>, idx: seq<nat>)
    requires forall k :: 0 <= k < |idx| ==> idx[k] < |rows|
  {
    && r.Detected? && r.count == |idx| && r.total == |rows|
    && r.listed == RowsAt(rows, if |idx| <= 100 then idx else idx[..100])
  }

  lemma {:induction false} NumberOccurs(rows: seq<Row>, col: string, n: nat, i: nat)
    requires i < n <= |rows| && ToFloat(rows[i], col).Some?
    ensures ToFloat(rows[i], col).value in NumbersTo(rows, col, n)
  {
    if i < n - 1 {
      NumberOccurs(rows, col, n - 1, i);
    }
  }

  lemma ValueIsOrdered(rows: seq<Row>, col: string, i: nat)
    requires i < |rows| && ToFloat(rows[i], col).Some?
    ensures ToFloat(rows[i], col).value in Ordered(rows, col)
  {
    var v := ToFloat(rows[i], col).value;
    NumberOccurs(rows, col, |rows|, i);
    SortPermutes(Leq, Numbers(rows, col));
    assert v in multiset(Numbers(rows, col));
    assert v in multiset(Ordered(rows, col));
  }

  lemma RowFlagsIff(rows: seq<Row>, col: string, kind: string, threshold: real, sd: real, i: nat)
    requires i < |rows| && |Ordered(rows, col)| >= 2 && IsStdev(sd, Ordered(rows, col))
    requires ToFloat(rows[i], col).Some?
    ensures TestFor(kind, Ordered(rows, col), threshold, sd).Flags(ToFloat(rows[i], col).value)
       <==> RowOutlies(rows[i], rows, col, kind, threshold)
  {
    ValueIsOrdered(rows, col, i);
    var s := Ordered(rows, col);
    var k :| 0 <= k < |s| && s[k] == ToFloat(rows[i], col).value;
    FlagsIff(kind, s, threshold, sd, k);
  }

  lemma ListsNext(idx: seq<nat>, rows: seq<Row>, column: string, kind: string, threshold: real, n: nat)
    requires n < |rows| && |Ordered(rows, column)| >= 2 && Lists(idx, rows, column, kind, threshold, n)
    ensures Lists(if RowOutlies(rows[n], rows, column, kind, threshold) then idx + [n] else idx,
      rows, column, kind, threshold, n + 1)
  {
    hide RowOutlies, Ordered;
    if RowOutlies(rows[n], rows, column, kind, threshold) {
      forall i: nat | i < n + 1 ensures i in idx + [n] <==> i in idx || i == n {
      }
    }
    assert n !in idx;
  }

  lemma OnlyNumbersOutlie(rows: seq<Row>, col: string, kind: string, threshold: real, i: nat)
    requires i < |rows| && |Ordered(rows, col)| >= 2 && ToFloat(rows[i], col).None?
    ensures !RowOutlies(rows[i], rows, col, kind, threshold)
  {
  }

  lemma ListsNone(rows: seq<Row>, column: string, kind: string, threshold: real)
    requires |Ordered(rows, column)| >= 2
    ensures Lists([], rows, column, kind, threshold, 0)
  {
  }

  lemma RowsAtAppend(rows: seq<Row>, idx: seq<nat>, i: nat)
    requires i < |rows| && forall k :: 0 <= k < |idx| ==> idx[k] < |rows|
    ensures RowsAt(rows, idx + [i]) == RowsAt(rows, idx) + [rows[i]]
  {
  }

  lemma {:induction false} FlaggedAt(rows: seq<Row>, col: string, kind: string, threshold: real, sd: real, n: nat)
    returns (idx: seq<nat>)
    requires n <= |rows| && |Ordered(rows, col)| >= 2 && IsStdev(sd, Ordered(rows, col))
    ensures Lists(idx, rows, col, kind, threshold, n) && forall k :: 0 <= k < |idx| ==> idx[k] < n
    ensures FlaggedTo(TestFor(kind, Ordered(rows, col), threshold, sd), rows, col, n) == RowsAt(rows, idx)
  {
    hide TestFor, Test.Flags, RowOutlies, Ordered, Lists, IsStdev, ToFloat;
    if n == 0 {
      idx := [];
      ListsNone(rows, col, kind, threshold);
    } else {
      var before := FlaggedAt(rows, col, kind, threshold, sd, n - 1);
      ListsNext(before, rows, col, kind, threshold, n - 1);
      RowsAtAppend(rows, before, n - 1);
      if ToFloat(rows[n - 1], col).Some? {
        RowFlagsIff(rows, col, kind, threshold, sd, n - 1);
      } else {
        OnlyNumbersOutlie(rows, col, kind, threshold, n - 1);
      }
      idx := if RowOutlies(rows[n - 1], rows, col, kind, threshold) then before + [n - 1] else before;
    }
  }

  /** `detect_outliers`, given the lower-cased method name and the standard deviation. An unknown
      method flags nothing. */
  method DetectOutliers(rows: seq<Row>, column: string, kind: string, threshold: real, sd: real)
    returns (r: Detection)
    requires sd >= 0.0
    ensures r.NotEnough? <==> |Ordered(rows, column)| < 4
    ensures r.Detected? ==>
      var flagged := FlaggedTo(TestFor(kind, Ordered(rows, column), threshold, sd), rows, column, |rows|);
      r == Detected(|flagged|, |rows|, Listed(flagged))
    ensures r.Detected? && IsStdev(sd, Ordered(rows, column)) ==>
      exists idx :: Lists(idx, rows, column, kind, threshold, |rows|) && Reports(r, rows, idx)
  {
    var values: seq<real> := [];
    for i := 0 to |rows|
      invariant values == NumbersTo(rows, column, i)
    {
      var v := ToFloat(rows[i], column);
      if v.Some? {
        values := values + [v.value];
      }
    }
    var vals := Sort(Leq, values);
    if |vals| < 4 {
      return NotEnough;
    }
    var t := TestFor(kind, vals, threshold, sd);
    var outlierRows: seq<Row> := [];
    for i := 0 to |rows|
      invariant outlierRows == FlaggedTo(t, rows, column, i)
    {
      var v := ToFloat(rows[i], column);
      if v.Some? && t.Flags(v.value) {
        outlierRows := outlierRows + [rows[i]];
      }
    }
    r := Detected(|outlierRows|, |rows|, Listed(outlierRows));
    hide Ordered, TestFor, Test.Flags, FlaggedTo, Lists, IsStdev;
    if IsStdev(sd, Ordered(rows, column)) {
      ghost var idx := FlaggedAt(rows, column, kind, threshold, sd, |rows|);
      assert Reports(r, rows, idx);
    }
  }

  // Counting rows is counting sorted values

  lemma {:induction false} FlaggedRowsAreFlaggedNumbers(t: Test, rows: seq<Row>, col: string, n: nat)
    requires t.WellFormed() && n <= |rows|
    ensures var s := NumbersTo(rows, col, n); |FlaggedTo(t, rows, col, n)| == CountTo(t, s, |s|)
  {
    if n > 0 {
      FlaggedRowsAreFlaggedNumbers(t, rows, col, n - 1);
      var s, v := NumbersTo(rows, col, n - 1), ToFloat(rows[n - 1], col);
      if v.Some? {
        CountConcat(t, s, [v.value], 1);
      }
    }
  }

  lemma {:induction false} CountConcat(t: Test, a: seq<real>, b: seq<real>, n: nat)
    requires t.WellFormed() && n <= |b|
    ensures CountTo(t, a + b, |a| + n) == CountTo(t, a, |a|) + CountTo(t, b, n)
  {
    if n == 0 {
      CountPrefix(t, a, a + b, |a|);
    } else {
      CountConcat(t, a, b, n - 1);
      assert (a + b)[|a| + n - 1] == b[n - 1];
    }
  }

  lemma {:induction false} CountPrefix(t: Test, a: seq<real>, b: seq<real>, n: nat)
    requires t.WellFormed() && n <= |a| && n <= |b| && forall i :: 0 <= i < n ==> a[i] == b[i]
    ensures CountTo(t, a, n) == CountTo(t, b, n)
  {
    if n > 0 {
      CountPrefix(t, a, b, n - 1);
    }
  }

  lemma CountInserted(t: Test, s: seq<real>, x: real)
    requires t.WellFormed()
    ensures |Insert(Leq, s, x)| == |s| + 1
    ensures CountTo(t, Insert(Leq, s, x), |s| + 1) == CountTo(t, s, |s|) + CountTo(t, [x], 1)
  {
    hide CountTo, Test.Flags;
    var k := Place(Leq, s, x, |s|);
    var a, b := s[..k], s[k..];
    assert s == a + b && Insert(Leq, s, x) == a + [x] + b;
    CountConcat(t, a, b, |b|);
    CountConcat(t, a + [x], b, |b|);
    CountConcat(t, a, [x], 1);
  }

  lemma {:induction false} CountSorted(t: Test, s: seq<real>, n: nat)
    requires t.WellFormed() && n <= |s|
    ensures |SortTo(Leq, s, n)| == n && CountTo(t, SortTo(Leq, s, n), n) == CountTo(t, s, n)
  {
    hide Insert;
    if n > 0 {
      CountSorted(t, s, n - 1);
      CountInserted(t, SortTo(Leq, s, n - 1), s[n - 1]);
    }
  }

  /** The number of flagged rows is the number of flagged values in the sorted column. */
  lemma FlaggedCount(t: Test, rows: seq<Row>, col: string)
    requires t.WellFormed()
    ensures var s := Ordered(rows, col);
      |s| == |Numbers(rows, col)| && |FlaggedTo(t, rows, col, |rows|)| == CountTo(t, s, |s|)
  {
    FlaggedRowsAreFlaggedNumbers(t, rows, col, |rows|);
    CountSorted(t, Numbers(rows, col), |Numbers(rows, col)|);
  }

  // Quartiles

  lemma OrderedSorted(rows: seq<Row>, col: string)
    ensures SortedBy(Leq, Ordered(rows, col))
  {
    SortSorts(Leq, Numbers(rows, col));
  }

  lemma {:induction false} CountOutside(t: Test, s: seq<real>, lo: nat, hi: nat, n: nat)
    requires t.WellFormed() && lo <= hi < |s| && n <= |s|
    requires forall i :: lo <= i <= hi ==> !t.Flags(s[i])
    ensures CountTo(t, s, n) <= (if n < lo then n else lo) + if n > hi then n - 1 - hi else 0
  {
    if n > 0 {
      CountOutside(t, s, lo, hi, n - 1);
    }
  }

  /** Nothing from the first to the third quartile is flagged if and only if the threshold is not
      negative or the quartiles coincide. */
  lemma MiddleUnflaggedIff(s: seq<real>, threshold: real)
    requires s != [] && SortedBy(Leq, s)
    ensures (forall v :: Quartile1(s) <= v <= Quartile3(s) ==> !IqrTest(s, threshold).Flags(v))
      <==> threshold >= 0.0 || Quartile1(s) == Quartile3(s)
  {
    var q1, q3 := Quartile1(s), Quartile3(s);
    assert |s| / 4 == 3 * |s| / 4 || Leq(q1, q3);
    MarginSign(threshold, q3 - q1);
    if threshold < 0.0 && q1 != q3 {
      assert IqrTest(s, threshold).Flags(q1);
    }
  }

  lemma MarginSign(threshold: real, iqr: real)
    requires iqr >= 0.0
    ensures threshold * iqr >= 0.0 <==> threshold >= 0.0 || iqr == 0.0
  {
    if iqr == 0.0 {
      assert threshold * 0.0 == 0.0;
    } else if threshold >= 0.0 {
      ScaleAtLeast(threshold, 0.0, iqr);
    } else {
      ProductPositive(-threshold, iqr);
      assert -threshold * iqr == -(threshold * iqr);
    }
  }

  /** With a non-negative threshold at most n/4 + (n - 1 - 3n/4) of n values are flagged. */
  lemma IqrFlagsAtMostTheTails(rows: seq<Row>, col: string, threshold: real)
    requires threshold >= 0.0 && |Ordered(rows, col)| >= 4
    ensures var s := Ordered(rows, col);
      var n := |s|;
      |FlaggedTo(IqrTest(s, threshold), rows, col, |rows|)| <= n / 4 + (n - 1 - 3 * n / 4)
  {
    var s := Ordered(rows, col);
    var n, t := |s|, IqrTest(s, threshold);
    OrderedSorted(rows, col);
    MiddleUnflaggedIff(s, threshold);
    FlaggedCount(t, rows, col);
    forall i | n / 4 <= i <= 3 * n / 4 ensures !t.Flags(s[i]) {
      assert i == n / 4 || Leq(s[n / 4], s[i]);
      assert i == 3 * n / 4 || Leq(s[i], s[3 * n / 4]);
    }
    CountOutside(t, s, n / 4, 3 * n / 4, n);
  }

  // Standard scores

  ghost predicate SquareAbove(x: real, c: real) {
    x * x > c
  }

  /** A flagged value deviates by more than k standard deviations. */
  lemma FlaggedDeviation(d: real, sd: real, k: real, kk: real, p: real)
    requires sd > 0.0 && k >= 0.0 && Abs(d / sd) > k && kk == k * k && p == sd * sd
    ensures SquareAbove(d, kk * p)
  {
    var z := d / sd;
    assert d == z * sd;
    SquareIncreases(Abs(z), k);
    assert Abs(z) * Abs(z) == z * z;
    ProductPositive(sd, sd);
    ScaleExceeds(z * z, kk, p);
    assert d * d == z * z * p;
  }

  /** m times c does not reach the total, unless both are zero. */
  ghost predicate Below(m: nat, c: real, total: real) {
    m as real * c <= total && (m > 0 ==> m as real * c < total)
  }

  lemma BelowNothing(c: real)
    ensures Below(0, c, 0.0)
  {
    assert 0.0 * c == 0.0;
  }

  lemma BelowNext(m: nat, c: real, total: real, q: real)
    requires Below(m, c, total) && q >= 0.0
    ensures Below(m, c, total + q) && (q > c ==> Below(m + 1, c, total + q))
  {
    Distribute(m as real, 1.0, c);
    assert (m + 1) as real == m as real + 1.0 && 1.0 * c == c;
  }

  /** Each flagged value adds more than c to the sum of squares. */
  lemma {:induction false} CountTimes(t: Test, s: seq<real>, d: seq<real>, c: real, n: nat)
    requires t.WellFormed() && n <= |s| == |d|
    requires forall i :: 0 <= i < |s| && t.Flags(s[i]) ==> SquareAbove(d[i], c)
    ensures Below(CountTo(t, s, n), c, DotTo(d, d, n))
  {
    hide Below, Test.Flags;
    if n == 0 {
      BelowNothing(c);
    } else {
      CountTimes(t, s, d, c, n - 1);
      SquareNonNegative(d[n - 1]);
      BelowNext(CountTo(t, s, n - 1), c, DotTo(d, d, n - 1), d[n - 1] * d[n - 1]);
    }
  }

  /** m of n values lie more than k standard deviations from the mean. */
  ghost predicate Chebyshev(m: nat, k: real, n: nat) {
    m as real * (k * k) < (n - 1) as real
  }

  /** m flagged values alone exceed the sum of squares: kk, ww and v stand for k^2, the square of
      the divisor and the variance. */
  ghost predicate Exceeded(m: nat, k: real, n: nat, kk: real, ww: real, v: real, total: real) {
    && kk == k * k && kk >= 0.0 && ww > 0.0 && ww >= v >= 0.0 && n >= 2
    && total == (n - 1) as real * v && m as real * (kk * ww) < total
  }

  lemma ChebyshevOf(m: nat, k: real, n: nat, kk: real, ww: real, v: real, total: real)
    requires Exceeded(m, k, n, kk, ww, v, total)
    ensures Chebyshev(m, k, n)
  {
    CancelVariance(m as real, kk, ww, v, (n - 1) as real, total);
  }

  lemma ChebyshevFew(m: nat, k: real, n: nat)
    requires Chebyshev(m, k, n) && n as real <= k * k + 1.0
    ensures m == 0
  {
    assert (n - 1) as real == n as real - 1.0;
    SquareNonNegative(k);
    CountBelowOne(m, k * k, (n - 1) as real);
  }

  lemma CountBelowOne(m: nat, kk: real, bound: real)
    requires kk >= 0.0 && m as real * kk < bound <= kk
    ensures m == 0
  {
    ScaleAtLeast(m as real, 0.0, kk);
    assert 0.0 * kk == 0.0 && 1.0 * kk == kk;
    CancelLess(m as real, 1.0, kk);
  }

  /** Chebyshev's inequality for the values of a column, with k >= 0. */
  lemma ScoreCount(s: seq<real>, sd: real, k: real)
    requires |s| >= 2 && IsStdev(sd, s) && k >= 0.0
    ensures Chebyshev(CountTo(ZScoreTest(s, sd, k), s, |s|), k, |s|)
  {
    assert sd >= 0.0;
    hide *;
    var m, n := CountTo(ZScoreTest(s, sd, k), s, |s|), |s|;
    if m == 0 {
    } else {
      var kk, ww, v := FlaggedSquares(s, sd, k);
      ChebyshevOf(m, k, n, kk, ww, v, SquareSum(s));
    }
  }

  lemma FlaggedSquares(s: seq<real>, sd: real, k: real) returns (kk: real, ww: real, v: real)
    requires |s| >= 2 && IsStdev(sd, s) && k >= 0.0 && CountTo(ZScoreTest(s, sd, k), s, |s|) > 0
    ensures Exceeded(CountTo(ZScoreTest(s, sd, k), s, |s|), k, |s|, kk, ww, v, SquareSum(s))
  {
    assert sd >= 0.0;
    hide CountTo, DotTo, Mean, Deviations, Test.Flags, SquareAbove, Below, Exceeded, IsStdev, ZScoreTest, NonZero;
    kk, v := k * k, sd * sd;
    ww := Root(sd);
    var t, d := ZScoreTest(s, sd, k), Deviations(s);
    forall i | 0 <= i < |s| && t.Flags(s[i]) ensures SquareAbove(d[i], kk * ww) {
      FlaggedSquare(s, sd, k, kk, ww, i);
    }
    CountTimes(t, s, d, kk * ww, |s|);
    TotalFromVariance(s, sd);
    ExceededOf(CountTo(t, s, |s|), k, |s|, kk, ww, v, SquareSum(s));
  }

  lemma ExceededOf(m: nat, k: real, n: nat, kk: real, ww: real, v: real, total: real)
    requires kk == k * k && ww > 0.0 && ww >= v >= 0.0 && n >= 2
    requires total == (n - 1) as real * v && m > 0 && Below(m, kk * ww, total)
    ensures Exceeded(m, k, n, kk, ww, v, total)
  {
    SquareNonNegative(k);
  }

  lemma FlaggedSquare(s: seq<real>, sd: real, k: real, kk: real, ww: real, i: nat)
    requires i < |s| && sd >= 0.0 && k >= 0.0 && ZScoreTest(s, sd, k).Flags(s[i])
    requires kk == k * k && ww == NonZero(sd) * NonZero(sd)
    ensures SquareAbove(Deviations(s)[i], kk * ww)
  {
    hide SquareAbove, Mean;
    FlaggedDeviation(Deviations(s)[i], NonZero(sd), k, kk, ww);
  }

  lemma TotalFromVariance(s: seq<real>, sd: real)
    requires |s| >= 2 && IsStdev(sd, s)
    ensures SquareSum(s) == (|s| - 1) as real * (sd * sd)
  {
  }

  lemma Root(sd: real) returns (ww: real)
    requires sd >= 0.0
    ensures ww == NonZero(sd) * NonZero(sd) && ww > 0.0 && ww >= sd * sd >= 0.0
  {
    ww := Product(NonZero(sd), NonZero(sd));
  }

  lemma CancelVariance(m: real, kk: real, ww: real, v: real, n: real, total: real)
    requires m >= 0.0 && kk >= 0.0 && ww > 0.0 && ww >= v >= 0.0 && n > 0.0
    requires total == n * v && m * (kk * ww) < total
    ensures m * kk < n
  {
    ScaleAtLeast(ww, v, n);
    assert m * (kk * ww) == m * kk * ww;
    CancelLess(m * kk, n, ww);
  }

  /** Standard scores above k >= 0 occur in m of n values only with m k^2 < n - 1. */
  lemma ZScoreBound(rows: seq<Row>, col: string, k: real, sd: real)
    requires |Ordered(rows, col)| >= 4 && IsStdev(sd, Ordered(rows, col)) && k >= 0.0
    ensures var s := Ordered(rows, col);
      Chebyshev(|FlaggedTo(ZScoreTest(s, sd, k), rows, col, |rows|)|, k, |s|)
  {
    assert sd >= 0.0;
    hide CountTo, FlaggedTo, Ordered, IsStdev, ZScoreTest, Test.Flags, Chebyshev;
    ScoreCount(Ordered(rows, col), sd, k);
    FlaggedCount(ZScoreTest(Ordered(rows, col), sd, k), rows, col);
  }

  /** So a column of at most k^2 + 1 values has no outlier: with k = 3, none among ten values. */
  lemma FewValuesHaveNoOutlier(rows: seq<Row>, col: string, k: real, sd: real)
    requires |Ordered(rows, col)| >= 4 && IsStdev(sd, Ordered(rows, col)) && k >= 0.0
    requires |Ordered(rows, col)| as real <= k * k + 1.0
    ensures FlaggedTo(ZScoreTest(Ordered(rows, col), sd, k), rows, col, |rows|) == []
  {
    assert sd >= 0.0;
    hide FlaggedTo, Ordered, IsStdev, ZScoreTest, Test.Flags, Chebyshev;
    ZScoreBound(rows, col, k, sd);
    ChebyshevFew(|FlaggedTo(ZScoreTest(Ordered(rows, col), sd, k), rows, col, |rows|)|, k, |Ordered(rows, col)|);
  }
}
