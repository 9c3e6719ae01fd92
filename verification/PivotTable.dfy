/** Grouping rows by a column, and pivot tables. */
module PivotTable {
  import opened Grouping
  import opened Options
  import opened Statistics
  import opened Tables

  datatype Attempt<T> = Raised | Done(value: T)

  /** A cell of a result row. */
  datatype Entry = Name(text: string) | Number(value: real) | Count(n: nat) | Nil

  /** What a row contributes to a pivot table. */
  datatype Fact = Fact(index: string, column: string, number: Option<real>)

  function FactOf(row: Row, index: string, column: string, value: string): Fact {
    Fact(Label(row, index), Label(row, column), ToFloat(row, value))
  }

  function Facts(rows: seq<Row>, index: string, column: string, value: string): (r: seq<Fact>)
    ensures |r| == |rows| && forall i :: 0 <= i < |rows| ==> r[i] == FactOf(rows[i], index, column, value)
  {
    seq(|rows|, i requires 0 <= i < |rows| => FactOf(rows[i], index, column, value))
  }

  function IndexLabels(facts: seq<Fact>): (r: seq<string>)
    ensures |r| == |facts| && forall i :: 0 <= i < |facts| ==> r[i] == facts[i].index
  {
    seq(|facts|, i requires 0 <= i < |facts| => facts[i].index)
  }

  function ColumnLabels(facts: seq<Fact>): (r: seq<string>)
    ensures |r| == |facts| && forall i :: 0 <= i < |facts| ==> r[i] == facts[i].column
  {
    seq(|facts|, i requires 0 <= i < |facts| => facts[i].column)
  }

  lemma LabelsOfFacts(rows: seq<Row>, index: string, column: string, value: string)
    ensures IndexLabels(Facts(rows, index, column, value)) == Labels(rows, index)
    ensures ColumnLabels(Facts(rows, index, column, value)) == Labels(rows, column)
  {
  }

  /** The numbers that fall into a cell of the table. */
  function Bucket(facts: seq<Fact>, key: (string, string), n: nat): seq<real>
    requires n <= |facts|
  {
    if n == 0 then []
    else
      var before, f := Bucket(facts, key, n - 1), facts[n - 1];
      if f.number.Some? && (f.index, f.column) == key then before + [f.number.value] else before
  }

  // Aggregation

  function Least(s: seq<real>): (r: real)
    requires s != []
    ensures r in s && forall x :: x in s ==> r <= x
  {
    if |s| == 1 then s[0]
    else
      var r := Least(s[1..]);
      assert s == [s[0]] + s[1..];
      if s[0] <= r then s[0] else r
  }

  function Greatest(s: seq<real>): (r: real)
    requires s != []
    ensures r in s && forall x :: x in s ==> x <= r
  {
    if |s| == 1 then s[0]
    else
      var r := Greatest(s[1..]);
      assert s == [s[0]] + s[1..];
      if s[0] >= r then s[0] else r
  }

  /** The mean, the minimum and the maximum of nothing raise. */
  predicate NeedsValues(func: string) {
    func == "mean" || func == "min" || func == "max"
  }

  function Aggregate(func: string, vals: seq<real>): (r: Attempt<Entry>)
    ensures r.Raised? <==> NeedsValues(func) && vals == []
    ensures r.Done? ==> !r.value.Name?
  {
    if func == "sum" then Done(Number(Sum(vals)))
    else if func == "count" then Done(Count(|vals|))
    else if !NeedsValues(func) then Done(Nil)
    else if vals == [] then Raised
    else if func == "mean" then Done(Number(Mean(vals)))
    else if func == "min" then Done(Number(Least(vals)))
    else Done(Number(Greatest(vals)))
  }

  /** What each aggregate is, for every name. */
  ghost predicate IsAggregate(func: string, vals: seq<real>, e: Entry) {
    match e
    case Number(x) =>
      || (func == "sum" && x == Sum(vals))
      || (func == "mean" && vals != [] && x * |vals| as real == Sum(vals))
      || (func == "min" && x in vals && forall y :: y in vals ==> x <= y)
      || (func == "max" && x in vals && forall y :: y in vals ==> y <= x)
    case Count(n) => func == "count" && n == |vals|
    case Nil => func !in {"sum", "mean", "min", "max", "count"}
    case Name(_) => false
  }

  lemma AggregateIs(func: string, vals: seq<real>)
    requires Aggregate(func, vals).Done?
    ensures IsAggregate(func, vals, Aggregate(func, vals).value)
  {
    hide Least, Greatest, SumTo;
    if vals != [] {
      MeanTimes(vals);
    }
  }

  // The table

  /** A row after m columns, starting with its label. */
  function RowTo(facts: seq<Fact>, func: string, index: string, iv: string, cvs: seq<string>, m: nat)
      : Attempt<map<string, Entry>>
    requires m <= |cvs|
  {
    if m == 0 then Done(map[index := Name(iv)])
    else
      match RowTo(facts, func, index, iv, cvs, m - 1)
      case Raised => Raised
      case Done(row) =>
        match Aggregate(func, Bucket(facts, (iv, cvs[m - 1]), |facts|))
        case Raised => Raised
        case Done(e) => Done(row[cvs[m - 1] := e])
  }

  function TableTo(facts: seq<Fact>, func: string, index: string, ivs: seq<string>, cvs: seq<string>, k: nat)
      : Attempt<seq<map<string, Entry>>>
    requires k <= |ivs|
  {
    if k == 0 then Done([])
    else
      match TableTo(facts, func, index, ivs, cvs, k - 1)
      case Raised => Raised
      case Done(table) =>
        match RowTo(facts, func, index, ivs[k - 1], cvs, |cvs|)
        case Raised => Raised
        case Done(row) => Done(table + [row])
  }

  function IndexValues(facts: seq<Fact>): seq<string> {
    SortedSet(IndexLabels(facts))
  }

  function ColumnValues(facts: seq<Fact>): seq<string> {
    SortedSet(ColumnLabels(facts))
  }

  function Table(facts: seq<Fact>, func: string, index: string): Attempt<seq<map<string, Entry>>> {
    TableTo(facts, func, index, IndexValues(facts), ColumnValues(facts), |IndexValues(facts)|)
  }

  /** `buckets.get(key, [])`. */
  function Lookup(buckets: map<(string, string), seq<real>>, key: (string, string)): seq<real> {
    if key in buckets then buckets[key] else []
  }

  method FillBuckets(rows: seq<Row>, index: string, column: string, value: string)
    returns (buckets: map<(string, string), seq<real>>)
    ensures forall key :: Lookup(buckets, key) == Bucket(Facts(rows, index, column, value), key, |rows|)
  {
    ghost var facts := Facts(rows, index, column, value);
    buckets := map[];
    for i := 0 to |rows|
      invariant forall key :: Lookup(buckets, key) == Bucket(facts, key, i)
    {
      var k := (Label(rows[i], index), Label(rows[i], column));
      var v := ToFloat(rows[i], value);
      assert facts[i] == Fact(k.0, k.1, v);
      if v.Some? {
        buckets := buckets[k := Lookup(buckets, k) + [v.value]];
      }
    }
  }

  lemma {:induction false} RowStaysRaised(facts: seq<Fact>, func: string, index: string, iv: string,
      cvs: seq<string>, m: nat, n: nat)
    requires m <= n <= |cvs| && RowTo(facts, func, index, iv, cvs, m).Raised?
    ensures RowTo(facts, func, index, iv, cvs, n).Raised?
  {
    if m < n {
      RowStaysRaised(facts, func, index, iv, cvs, m, n - 1);
    }
  }

  lemma {:induction false} TableStaysRaised(facts: seq<Fact>, func: string, index: string, ivs: seq<string>,
      cvs: seq<string>, k: nat, n: nat)
    requires k <= n <= |ivs| && TableTo(facts, func, index, ivs, cvs, k).Raised?
    ensures TableTo(facts, func, index, ivs, cvs, n).Raised?
  {
    if k < n {
      TableStaysRaised(facts, func, index, ivs, cvs, k, n - 1);
    }
  }

  method BuildRow(ghost facts: seq<Fact>, buckets: map<(string, string), seq<real>>, func: string, index: string,
      iv: string, cvs: seq<string>) returns (r: Attempt<map<string, Entry>>)
    requires forall key :: Lookup(buckets, key) == Bucket(facts, key, |facts|)
    ensures r == RowTo(facts, func, index, iv, cvs, |cvs|)
  {
    hide Bucket, Aggregate, Lookup;
    var row := map[index := Name(iv)];
    for j := 0 to |cvs|
      invariant Done(row) == RowTo(facts, func, index, iv, cvs, j)
    {
      var e := Aggregate(func, Lookup(buckets, (iv, cvs[j])));
      if e.Raised? {
        RowStaysRaised(facts, func, index, iv, cvs, j + 1, |cvs|);
        return Raised;
      }
      row := row[cvs[j] := e.value];
    }
    return Done(row);
  }

  /** `pivot_table`. Without rows the table is empty. */
  method Pivot(rows: seq<Row>, index: string, column: string, value: string, func: string)
    returns (r: Attempt<seq<map<string, Entry>>>, indexValues: seq<string>, columnValues: seq<string>)
    ensures var facts := Facts(rows, index, column, value);
      r == Table(facts, func, index) && indexValues == IndexValues(facts) && columnValues == ColumnValues(facts)
  {
    ghost var facts := Facts(rows, index, column, value);
    LabelsOfFacts(rows, index, column, value);
    hide Bucket, Lookup, SortedSet, RowTo, Labels, Facts, IndexLabels, ColumnLabels;
    indexValues := SortedSet(Labels(rows, index));
    columnValues := SortedSet(Labels(rows, column));
    var buckets := FillBuckets(rows, index, column, value);
    var pivot: seq<map<string, Entry>> := [];
    for i := 0 to |indexValues|
      invariant Done(pivot) == TableTo(facts, func, index, indexValues, columnValues, i)
    {
      var row := BuildRow(facts, buckets, func, index, indexValues[i], columnValues);
      if row.Raised? {
        TableStaysRaised(facts, func, index, indexValues, columnValues, i + 1, |indexValues|);
        return Raised, indexValues, columnValues;
      }
      pivot := pivot + [row.value];
    }
    return Done(pivot), indexValues, columnValues;
  }

  // What the table contains

  /** A row holds the aggregate of every column, and its label unless a column has the index's name. */
  lemma {:induction false} RowCells(facts: seq<Fact>, func: string, index: string, iv: string, cvs: seq<string>, m: nat)
    requires m <= |cvs| && Distinct(cvs) && RowTo(facts, func, index, iv, cvs, m).Done?
    ensures var row := RowTo(facts, func, index, iv, cvs, m).value;
      && row.Keys == {index} + (set j | 0 <= j < m :: cvs[j])
      && (forall j :: 0 <= j < m ==> Done(row[cvs[j]]) == Aggregate(func, Bucket(facts, (iv, cvs[j]), |facts|)))
      && (row[index] == Name(iv) <==> index !in cvs[..m])
  {
    hide Bucket, Aggregate;
    if m > 0 {
      RowCells(facts, func, index, iv, cvs, m - 1);
      assert cvs[..m] == cvs[..m - 1] + [cvs[m - 1]];
    }
  }

  lemma {:induction false} TableRows(facts: seq<Fact>, func: string, index: string, ivs: seq<string>,
      cvs: seq<string>, k: nat)
    requires k <= |ivs| && TableTo(facts, func, index, ivs, cvs, k).Done?
    ensures var table := TableTo(facts, func, index, ivs, cvs, k).value;
      |table| == k && forall i :: 0 <= i < k ==> Done(table[i]) == RowTo(facts, func, index, ivs[i], cvs, |cvs|)
  {
    hide RowTo;
    if k > 0 {
      TableRows(facts, func, index, ivs, cvs, k - 1);
    }
  }

  lemma {:induction false} RowRaises(facts: seq<Fact>, func: string, index: string, iv: string, cvs: seq<string>,
      m: nat)
    requires m <= |cvs|
    ensures RowTo(facts, func, index, iv, cvs, m).Raised?
      <==> exists j :: 0 <= j < m && Aggregate(func, Bucket(facts, (iv, cvs[j]), |facts|)).Raised?
  {
    hide Bucket, Aggregate;
    if m > 0 {
      RowRaises(facts, func, index, iv, cvs, m - 1);
    }
  }

  lemma {:induction false} TableRaises(facts: seq<Fact>, func: string, index: string, ivs: seq<string>,
      cvs: seq<string>, k: nat)
    requires k <= |ivs|
    ensures TableTo(facts, func, index, ivs, cvs, k).Raised?
      <==> exists i :: 0 <= i < k && RowTo(facts, func, index, ivs[i], cvs, |cvs|).Raised?
  {
    hide RowTo;
    if k > 0 {
      TableRaises(facts, func, index, ivs, cvs, k - 1);
    }
  }

  /** Some index value and some column value never occur together with a number. */
  ghost predicate HasEmptyCell(facts: seq<Fact>) {
    exists i, j :: 0 <= i < |facts| && 0 <= j < |facts|
      && Bucket(facts, (facts[i].index, facts[j].column), |facts|) == []
  }

  lemma RaisedHasEmptyCell(facts: seq<Fact>, func: string, index: string)
    requires Table(facts, func, index).Raised?
    ensures NeedsValues(func) && HasEmptyCell(facts)
  {
    var ivs, cvs, n := IndexValues(facts), ColumnValues(facts), |facts|;
    SortedSetSorts(IndexLabels(facts));
    SortedSetSorts(ColumnLabels(facts));
    TableRaises(facts, func, index, ivs, cvs, |ivs|);
    hide *;
    var i :| 0 <= i < |ivs| && RowTo(facts, func, index, ivs[i], cvs, |cvs|).Raised?;
    RowRaises(facts, func, index, ivs[i], cvs, |cvs|);
    var j :| 0 <= j < |cvs| && Aggregate(func, Bucket(facts, (ivs[i], cvs[j]), n)).Raised?;
    var p := LabelIndex(IndexLabels(facts), ivs[i]);
    var q := LabelIndex(ColumnLabels(facts), cvs[j]);
  }

  lemma EmptyCellRaises(facts: seq<Fact>, func: string, index: string, p: nat, q: nat)
    requires p < |facts| && q < |facts| && Bucket(facts, (facts[p].index, facts[q].column), |facts|) == []
    requires NeedsValues(func)
    ensures Table(facts, func, index).Raised?
  {
    var ivs, cvs := IndexValues(facts), ColumnValues(facts);
    SortedSetSorts(IndexLabels(facts));
    SortedSetSorts(ColumnLabels(facts));
    TableRaises(facts, func, index, ivs, cvs, |ivs|);
    hide *;
    assert IndexLabels(facts)[p] in ivs && ColumnLabels(facts)[q] in cvs;
    var i := LabelIndex(ivs, facts[p].index);
    var j := LabelIndex(cvs, facts[q].column);
    RowRaises(facts, func, index, ivs[i], cvs, |cvs|);
    assert Aggregate(func, Bucket(facts, (ivs[i], cvs[j]), |facts|)).Raised?;
  }

  /** "mean", "min" and "max" raise exactly when a cell of the table is empty; nothing else raises. */
  lemma PivotRaisesIff(facts: seq<Fact>, func: string, index: string)
    ensures Table(facts, func, index).Raised? <==> NeedsValues(func) && HasEmptyCell(facts)
  {
    hide Table, Bucket;
    if Table(facts, func, index).Raised? {
      RaisedHasEmptyCell(facts, func, index);
    }
    if NeedsValues(func) && HasEmptyCell(facts) {
      var p, q :| 0 <= p < |facts| && 0 <= q < |facts|
        && Bucket(facts, (facts[p].index, facts[q].column), |facts|) == [];
      EmptyCellRaises(facts, func, index, p, q);
    }
  }

  lemma LabelIndex(s: seq<string>, x: string) returns (i: nat)
    requires x in s
    ensures i < |s| && s[i] == x
  {
    i :| 0 <= i < |s| && s[i] == x;
  }

  /** The finished table has a row for every index value and in it every column's aggregate. The
      label of a row is lost if and only if the index's name is a column value. */
  lemma PivotCells(facts: seq<Fact>, func: string, index: string)
    requires Table(facts, func, index).Done?
    ensures var table, ivs, cvs := Table(facts, func, index).value, IndexValues(facts), ColumnValues(facts);
      && |table| == |ivs|
      && (forall i, j :: 0 <= i < |ivs| && 0 <= j < |cvs| ==>
        && cvs[j] in table[i]
        && Done(table[i][cvs[j]]) == Aggregate(func, Bucket(facts, (ivs[i], cvs[j]), |facts|)))
      && (forall i :: 0 <= i < |ivs| ==>
        && index in table[i]
        && (table[i][index] == Name(ivs[i]) <==> index !in ColumnLabels(facts)))
  {
    var table, ivs, cvs := Table(facts, func, index).value, IndexValues(facts), ColumnValues(facts);
    SortedSetSorts(ColumnLabels(facts));
    TableRows(facts, func, index, ivs, cvs, |ivs|);
    assert cvs[..|cvs|] == cvs;
    hide Bucket, Aggregate, SortedSet, RowTo;
    forall i | 0 <= i < |ivs| {
      RowCells(facts, func, index, ivs[i], cvs, |cvs|);
    }
  }

  /** Every cell is what its aggregate's name says of the numbers in its bucket. */
  lemma CellsAreAggregates(facts: seq<Fact>, func: string, index: string)
    requires Table(facts, func, index).Done?
    ensures var table, ivs, cvs := Table(facts, func, index).value, IndexValues(facts), ColumnValues(facts);
      && |table| == |ivs|
      && (forall i :: 0 <= i < |ivs| ==> table[i].Keys == {index} + set j | 0 <= j < |cvs| :: cvs[j])
      && (forall i, j :: 0 <= i < |ivs| && 0 <= j < |cvs| ==>
           cvs[j] in table[i] && IsAggregate(func, Bucket(facts, (ivs[i], cvs[j]), |facts|), table[i][cvs[j]]))
  {
    PivotCells(facts, func, index);
    var table, ivs, cvs := Table(facts, func, index).value, IndexValues(facts), ColumnValues(facts);
    SortedSetSorts(ColumnLabels(facts));
    TableRows(facts, func, index, ivs, cvs, |ivs|);
    forall i | 0 <= i < |ivs| ensures table[i].Keys == {index} + set j | 0 <= j < |cvs| :: cvs[j] {
      RowCells(facts, func, index, ivs[i], cvs, |cvs|);
    }
    hide Table, IndexValues, ColumnValues, Bucket, Aggregate, IsAggregate;
    forall i, j | 0 <= i < |ivs| && 0 <= j < |cvs|
      ensures IsAggregate(func, Bucket(facts, (ivs[i], cvs[j]), |facts|), table[i][cvs[j]])
    {
      AggregateIs(func, Bucket(facts, (ivs[i], cvs[j]), |facts|));
    }
  }

  // Conservation

  /** What a row adds to a total: its number for "sum", one for each number for "count". */
  function Weight(number: Option<real>, func: string): real {
    match number
    case None => 0.0
    case Some(x) => if func == "sum" then x else 1.0
  }

  function Weights(facts: seq<Fact>, func: string): (w: seq<real>)
    ensures |w| == |facts|
    ensures forall i :: 0 <= i < |facts| ==> w[i] == Weight(facts[i].number, func)
  {
    seq(|facts|, i requires 0 <= i < |facts| => Weight(facts[i].number, func))
  }

  function CellValue(row: map<string, Entry>, key: string): real {
    if key !in row then 0.0
    else match row[key]
      case Number(x) => x
      case Count(n) => n as real
      case _ => 0.0
  }

  function RowTotal(row: map<string, Entry>, cvs: seq<string>, m: nat): real
    requires m <= |cvs|
  {
    if m == 0 then 0.0 else RowTotal(row, cvs, m - 1) + CellValue(row, cvs[m - 1])
  }

  function GridTotal(table: seq<map<string, Entry>>, cvs: seq<string>, k: nat): real
    requires k <= |table|
  {
    if k == 0 then 0.0 else GridTotal(table, cvs, k - 1) + RowTotal(table[k - 1], cvs, |cvs|)
  }

  predicate Additive(func: string) {
    func == "sum" || func == "count"
  }

  lemma SumAppend(s: seq<real>, x: real)
    ensures Sum(s + [x]) == Sum(s) + x
  {
    SumPrefix(s, s + [x], |s|);
  }

  lemma {:induction false} SumPrefix(s: seq<real>, t: seq<real>, n: nat)
    requires n <= |s| && s <= t
    ensures SumTo(s, n) == SumTo(t, n)
  {
    if n > 0 {
      SumPrefix(s, t, n - 1);
    }
  }

  /** The total of a bucket is its share of the column within the rows of its index value. */
  lemma {:induction false} BucketShare(facts: seq<Fact>, func: string, iv: string, cv: string, n: nat)
    requires n <= |facts| && Additive(func)
    ensures BucketTotal(func, Bucket(facts, (iv, cv), n))
      == Share(ColumnLabels(facts), Masked(IndexLabels(facts), Weights(facts, func), iv), cv, n)
  {
    if n > 0 {
      BucketShare(facts, func, iv, cv, n - 1);
      var f, w := facts[n - 1], Masked(IndexLabels(facts), Weights(facts, func), iv);
      var b := Bucket(facts, (iv, cv), n - 1);
      BucketGrows(func, b, f.number);
      assert w[n - 1] == if f.index == iv then Weight(f.number, func) else 0.0;
    }
  }

  function BucketTotal(func: string, b: seq<real>): real {
    if func == "sum" then Sum(b) else |b| as real
  }

  lemma BucketGrows(func: string, b: seq<real>, number: Option<real>)
    requires Additive(func)
    ensures BucketTotal(func, if number.Some? then b + [number.value] else b)
      == BucketTotal(func, b) + Weight(number, func)
  {
    if number.Some? {
      SumAppend(b, number.value);
    }
  }

  lemma CellIsShare(facts: seq<Fact>, func: string, row: map<string, Entry>, iv: string, cv: string)
    requires Additive(func) && cv in row
    requires Done(row[cv]) == Aggregate(func, Bucket(facts, (iv, cv), |facts|))
    ensures CellValue(row, cv)
      == Share(ColumnLabels(facts), Masked(IndexLabels(facts), Weights(facts, func), iv), cv, |facts|)
  {
    BucketShare(facts, func, iv, cv, |facts|);
  }

  lemma {:induction false} RowIsShares(facts: seq<Fact>, func: string, row: map<string, Entry>, iv: string,
      cvs: seq<string>, m: nat)
    requires Additive(func) && m <= |cvs|
    requires forall j :: 0 <= j < |cvs| ==>
      && cvs[j] in row
      && Done(row[cvs[j]]) == Aggregate(func, Bucket(facts, (iv, cvs[j]), |facts|))
    ensures RowTotal(row, cvs, m)
      == Shares(ColumnLabels(facts), Masked(IndexLabels(facts), Weights(facts, func), iv), cvs, m, |facts|)
  {
    hide Share, Bucket, Aggregate, CellValue;
    if m > 0 {
      RowIsShares(facts, func, row, iv, cvs, m - 1);
      CellIsShare(facts, func, row, iv, cvs[m - 1]);
    }
  }

  /** The total of a pivot row is the total of the rows with its index value. */
  lemma RowTotalIsShare(facts: seq<Fact>, func: string, index: string, i: nat)
    requires Additive(func) && Table(facts, func, index).Done? && i < |IndexValues(facts)|
    ensures |Table(facts, func, index).value| == |IndexValues(facts)|
    ensures RowTotal(Table(facts, func, index).value[i], ColumnValues(facts), |ColumnValues(facts)|)
      == Share(IndexLabels(facts), Weights(facts, func), IndexValues(facts)[i], |facts|)
  {
    var iv, cvs, n := IndexValues(facts)[i], ColumnValues(facts), |facts|;
    var w := Masked(IndexLabels(facts), Weights(facts, func), iv);
    SortedSetSorts(ColumnLabels(facts));
    PivotCells(facts, func, index);
    hide *;
    var row := Table(facts, func, index).value[i];
    RowIsShares(facts, func, row, iv, cvs, |cvs|);
    SharesConserve(ColumnLabels(facts), w, cvs, n);
    MaskedWeight(IndexLabels(facts), Weights(facts, func), iv, n);
  }

  lemma {:induction false} GridIsShares(facts: seq<Fact>, func: string, index: string, k: nat)
    requires Additive(func) && Table(facts, func, index).Done? && k <= |IndexValues(facts)|
    ensures |Table(facts, func, index).value| == |IndexValues(facts)|
    ensures GridTotal(Table(facts, func, index).value, ColumnValues(facts), k)
      == Shares(IndexLabels(facts), Weights(facts, func), IndexValues(facts), k, |facts|)
  {
    hide Share, Table, IndexValues, ColumnValues, RowTotal;
    if k > 0 {
      GridIsShares(facts, func, index, k - 1);
      RowTotalIsShare(facts, func, index, k - 1);
    } else {
      PivotCells(facts, func, index);
    }
  }

  /** "sum" conserves the total of all numbers, "count" the number of rows that have one. */
  lemma PivotConserves(facts: seq<Fact>, func: string, index: string)
    requires Additive(func)
    ensures Table(facts, func, index).Done?
    ensures var table := Table(facts, func, index).value;
      GridTotal(table, ColumnValues(facts), |table|) == SumTo(Weights(facts, func), |facts|)
  {
    PivotRaisesIff(facts, func, index);
    GridIsShares(facts, func, index, |IndexValues(facts)|);
    SortedSetSorts(IndexLabels(facts));
    hide Share, Table, SortedSet;
    SharesConserve(IndexLabels(facts), Weights(facts, func), IndexValues(facts), |facts|);
  }

  // Inputs

  /** Two rows that share neither label leave two cells empty: the pivot by mean raises. */
  lemma MeanRaisesOnEmptyCell()
    ensures var facts := [Fact("a", "x", Some(1.0)), Fact("b", "y", Some(2.0))];
      Table(facts, "mean", "kind").Raised?
  {
    var facts := [Fact("a", "x", Some(1.0)), Fact("b", "y", Some(2.0))];
    assert Bucket(facts, ("a", "y"), 0) == [] && Bucket(facts, ("a", "y"), 1) == [];
    assert Bucket(facts, (facts[0].index, facts[1].column), |facts|) == [];
    PivotRaisesIff(facts, "mean", "kind");
  }

  /** A column value named like the index overwrites the label of the row. */
  lemma IndexNameLosesLabel()
    ensures var facts := [Fact("a", "kind", Some(1.0))];
      && IndexValues(facts) == ["a"] && Table(facts, "sum", "kind").Done?
      && var table := Table(facts, "sum", "kind").value;
        |table| == 1 && "kind" in table[0] && table[0]["kind"] == Number(1.0)
  {
    var facts := [Fact("a", "kind", Some(1.0))];
    TotalOfOne(facts[0]);
    assert !NeedsValues("sum");
    hide *;
    ValuesOfOne(facts);
    PivotRaisesIff(facts, "sum", "kind");
    PivotCells(facts, "sum", "kind");
    assert ColumnValues(facts)[0] == "kind";
  }

  lemma TotalOfOne(f: Fact)
    requires f.number.Some?
    ensures Aggregate("sum", Bucket([f], (f.index, f.column), 1)) == Done(Number(f.number.value))
  {
    var x := f.number.value;
    assert Bucket([f], (f.index, f.column), 0) == [];
    assert Bucket([f], (f.index, f.column), 1) == [] + [x] == [x];
    assert SumTo([x], 1) == SumTo([x], 0) + x == x;
  }

  lemma ValuesOfOne(facts: seq<Fact>)
    requires |facts| == 1
    ensures IndexValues(facts) == [facts[0].index] && ColumnValues(facts) == [facts[0].column]
  {
    assert IndexLabels(facts) == [facts[0].index] && ColumnLabels(facts) == [facts[0].column];
    SingletonSet(facts[0].index);
    SingletonSet(facts[0].column);
  }
}
