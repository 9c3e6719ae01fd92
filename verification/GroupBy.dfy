/** Grouping rows by a column, and its agreement with pivot tables. */
module GroupBy {
  import opened Grouping
  import opened Options
  import opened PivotTable
  import opened Sorting
  import opened Statistics
  import opened Tables

  /** The dictionary of a group; later entries overwrite earlier ones of the same name. */
  type Group = map<string, Entry>

  const COUNT := "count"

  /** The name of the aggregate's entry. */
  function AggregateKey(func: string, aggCol: string): string {
    func + "_" + aggCol
  }

  predicate NonNull(row: Row, col: string) {
    col in row && row[col] != Null
  }

  /** The rows among the first n with the given key. */
  function Members(rows: seq<Row>, groupCol: string, key: string, n: nat): seq<Row>
    requires n <= |rows|
  {
    if n == 0 then []
    else
      var before := Members(rows, groupCol, key, n - 1);
      if Label(rows[n - 1], groupCol) == key then before + [rows[n - 1]] else before
  }

  /** What `_to_float` makes of the values that are not null. */
  function Vals(rows: seq<Row>, col: string): seq<Option<real>> {
    if rows == [] then []
    else
      var before, r := Vals(rows[..|rows| - 1], col), rows[|rows| - 1];
      if NonNull(r, col) then before + [ToFloat(r, col)] else before
  }

  function Unwrap(vals: seq<Option<real>>): (r: seq<real>)
    requires None !in vals
    ensures |r| == |vals| && forall i :: 0 <= i < |vals| ==> vals[i] == Some(r[i])
  {
    assert forall i :: 0 <= i < |vals| ==> vals[i] in vals && vals[i].Some?;
    seq(|vals|, i requires 0 <= i < |vals| => vals[i].value)
  }

  /** All five aggregates are computed before one is chosen, and an unknown name means the sum: a
      value that is no number makes every choice raise. */
  function AggregateAll(func: string, vals: seq<Option<real>>): (r: Attempt<Entry>)
    requires vals != []
    ensures r.Raised? <==> None in vals
    ensures r.Done? ==> !r.value.Name?
  {
    if None in vals then Raised
    else if Additive(func) || NeedsValues(func) then Aggregate(func, Unwrap(vals))
    else Done(Number(Sum(Unwrap(vals))))
  }

  /** The group's column and its number of rows. */
  function Head(groupCol: string, key: string, n: nat): Group {
    map[groupCol := Name(key)][COUNT := Count(n)]
  }

  function GroupOf(groupCol: string, key: string, members: seq<Row>, aggCol: string, func: string): Attempt<Group> {
    var head := Head(groupCol, key, |members|);
    if aggCol == "" || Vals(members, aggCol) == [] then Done(head)
    else
      match AggregateAll(func, Vals(members, aggCol))
      case Raised => Raised
      case Done(e) => Done(head[AggregateKey(func, aggCol) := e])
  }

  function GroupsTo(rows: seq<Row>, groupCol: string, aggCol: string, func: string, keys: seq<string>, k: nat)
      : Attempt<seq<Group>>
    requires k <= |keys|
  {
    if k == 0 then Done([])
    else
      match GroupsTo(rows, groupCol, aggCol, func, keys, k - 1)
      case Raised => Raised
      case Done(groups) =>
        match GroupOf(groupCol, keys[k - 1], Members(rows, groupCol, keys[k - 1], |rows|), aggCol, func)
        case Raised => Raised
        case Done(g) => Done(groups + [g])
  }

  function Groups(rows: seq<Row>, groupCol: string, aggCol: string, func: string): Attempt<seq<Group>> {
    var keys := SortedSet(Labels(rows, groupCol));
    GroupsTo(rows, groupCol, aggCol, func, keys, |keys|)
  }

  function LookupGroup(groups: map<string, seq<Row>>, key: string): seq<Row> {
    if key in groups then groups[key] else []
  }

  /** The dictionary of groups: its keys in order of insertion, and the rows of each. */
  method FillGroups(rows: seq<Row>, groupCol: string) returns (keys: seq<string>, groups: map<string, seq<Row>>)
    ensures keys == FirstsTo(Labels(rows, groupCol), |rows|)
    ensures forall key :: LookupGroup(groups, key) == Members(rows, groupCol, key, |rows|)
  {
    hide Label;
    ghost var labels := Labels(rows, groupCol);
    keys, groups := [], map[];
    for i := 0 to |rows|
      invariant keys == FirstsTo(labels, i)
      invariant forall key :: key in groups <==> key in keys
      invariant forall key :: LookupGroup(groups, key) == Members(rows, groupCol, key, i)
    {
      var key := Label(rows[i], groupCol);
      if key !in groups {
        keys := keys + [key];
      }
      groups := groups[key := LookupGroup(groups, key) + [rows[i]]];
    }
  }

  lemma {:induction false} GroupsStayRaised(rows: seq<Row>, groupCol: string, aggCol: string, func: string,
      keys: seq<string>, k: nat, n: nat)
    requires k <= n <= |keys| && GroupsTo(rows, groupCol, aggCol, func, keys, k).Raised?
    ensures GroupsTo(rows, groupCol, aggCol, func, keys, n).Raised?
  {
    if k < n {
      GroupsStayRaised(rows, groupCol, aggCol, func, keys, k, n - 1);
    }
  }

  /** `group_by`; an empty `aggCol` stands for none. */
  method GroupRows(rows: seq<Row>, groupCol: string, aggCol: string, func: string) returns (r: Attempt<seq<Group>>)
    ensures r == Groups(rows, groupCol, aggCol, func)
  {
    var firsts, groups := FillGroups(rows, groupCol);
    var keys := Sort(StringLeq, firsts);
    assert keys == SortedSet(Labels(rows, groupCol));
    hide Members, GroupOf, SortedSet;
    var result: seq<Group> := [];
    for k := 0 to |keys|
      invariant Done(result) == GroupsTo(rows, groupCol, aggCol, func, keys, k)
    {
      var g := GroupOf(groupCol, keys[k], LookupGroup(groups, keys[k]), aggCol, func);
      if g.Raised? {
        GroupsStayRaised(rows, groupCol, aggCol, func, keys, k + 1, |keys|);
        return Raised;
      }
      result := result + [g.value];
    }
    return Done(result);
  }

  // Errors

  /** A value that is neither null nor a number. */
  predicate IsText(row: Row, col: string) {
    NonNull(row, col) && ToFloat(row, col).None?
  }

  lemma {:induction false} ValsHoldNone(rows: seq<Row>, col: string)
    ensures None in Vals(rows, col) <==> exists i :: 0 <= i < |rows| && IsText(rows[i], col)
  {
    if rows != [] {
      var init, last := rows[..|rows| - 1], rows[|rows| - 1];
      ValsHoldNone(init, col);
      if IsText(last, col) {
        assert Vals(rows, col)[|Vals(rows, col)| - 1] == None;
      }
      if i :| 0 <= i < |rows| && IsText(rows[i], col) {
        assert i < |init| ==> IsText(init[i], col);
      }
    }
  }

  lemma {:induction false} MembersHold(rows: seq<Row>, groupCol: string, key: string, n: nat, r: Row)
    requires n <= |rows|
    ensures r in Members(rows, groupCol, key, n) <==> r in rows[..n] && Label(r, groupCol) == key
  {
    if n > 0 {
      MembersHold(rows, groupCol, key, n - 1, r);
      assert rows[..n] == rows[..n - 1] + [rows[n - 1]];
    }
  }

  lemma GroupRaises(groupCol: string, key: string, members: seq<Row>, aggCol: string, func: string)
    ensures GroupOf(groupCol, key, members, aggCol, func).Raised?
      <==> aggCol != "" && exists i :: 0 <= i < |members| && IsText(members[i], aggCol)
  {
    ValsHoldNone(members, aggCol);
  }

  lemma {:induction false} GroupsRaise(rows: seq<Row>, groupCol: string, aggCol: string, func: string,
      keys: seq<string>, k: nat)
    requires k <= |keys|
    ensures GroupsTo(rows, groupCol, aggCol, func, keys, k).Raised?
      <==> exists i ::
        0 <= i < k && GroupOf(groupCol, keys[i], Members(rows, groupCol, keys[i], |rows|), aggCol, func).Raised?
  {
    hide Members, GroupOf;
    if k > 0 {
      GroupsRaise(rows, groupCol, aggCol, func, keys, k - 1);
    }
  }

  /** Grouping raises if and only if an aggregated column holds text, whatever the aggregate. */
  lemma GroupByRaisesIff(rows: seq<Row>, groupCol: string, aggCol: string, func: string)
    ensures Groups(rows, groupCol, aggCol, func).Raised?
      <==> aggCol != "" && exists i :: 0 <= i < |rows| && IsText(rows[i], aggCol)
  {
    var labels := Labels(rows, groupCol);
    var keys := SortedSet(labels);
    SortedSetSorts(labels);
    GroupsRaise(rows, groupCol, aggCol, func, keys, |keys|);
    assert rows[..|rows|] == rows;
    hide GroupOf, Members, SortedSet, IsText;
    if Groups(rows, groupCol, aggCol, func).Raised? {
      var k :| 0 <= k < |keys|
        && GroupOf(groupCol, keys[k], Members(rows, groupCol, keys[k], |rows|), aggCol, func).Raised?;
      var members := Members(rows, groupCol, keys[k], |rows|);
      GroupRaises(groupCol, keys[k], members, aggCol, func);
      var j :| 0 <= j < |members| && IsText(members[j], aggCol);
      MembersHold(rows, groupCol, keys[k], |rows|, members[j]);
    }
    if aggCol != "" && exists i :: 0 <= i < |rows| && IsText(rows[i], aggCol) {
      var i :| 0 <= i < |rows| && IsText(rows[i], aggCol);
      assert labels[i] in keys;
      var k := LabelIndex(keys, labels[i]);
      MembersHold(rows, groupCol, keys[k], |rows|, rows[i]);
      GroupRaises(groupCol, keys[k], Members(rows, groupCol, keys[k], |rows|), aggCol, func);
    }
  }

  /** A missing value and null are different labels. */
  lemma MissingIsNotNull(col: string)
    ensures Labels([map[], map[col := Null]], col) == ["", "None"]
  {
  }

  // Counts

  lemma {:induction false} GroupEntries(rows: seq<Row>, groupCol: string, aggCol: string, func: string,
      keys: seq<string>, k: nat)
    requires k <= |keys| && GroupsTo(rows, groupCol, aggCol, func, keys, k).Done?
    ensures var groups := GroupsTo(rows, groupCol, aggCol, func, keys, k).value;
      && |groups| == k
      && forall i :: 0 <= i < k ==>
        Done(groups[i]) == GroupOf(groupCol, keys[i], Members(rows, groupCol, keys[i], |rows|), aggCol, func)
  {
    hide Members, GroupOf;
    if k > 0 {
      GroupEntries(rows, groupCol, aggCol, func, keys, k - 1);
    }
  }

  function Ones(n: nat): (r: seq<real>)
    ensures |r| == n && forall i :: 0 <= i < n ==> r[i] == 1.0
  {
    seq(n, _ => 1.0)
  }

  lemma {:induction false} MembersShare(rows: seq<Row>, groupCol: string, key: string, n: nat)
    requires n <= |rows|
    ensures |Members(rows, groupCol, key, n)| as real == Share(Labels(rows, groupCol), Ones(|rows|), key, n)
  {
    if n > 0 {
      MembersShare(rows, groupCol, key, n - 1);
    }
  }

  lemma {:induction false} OnesSum(n: nat, m: nat)
    requires n <= m
    ensures SumTo(Ones(m), n) == n as real
  {
    if n > 0 {
      OnesSum(n - 1, m);
    }
  }

  /** The sum of the "count" entries of the first k groups. */
  function CountSum(groups: seq<Group>, k: nat): real
    requires k <= |groups|
  {
    if k == 0 then 0.0 else CountSum(groups, k - 1) + CellValue(groups[k - 1], COUNT)
  }

  lemma {:induction false} CountsAreShares(rows: seq<Row>, groupCol: string, keys: seq<string>, groups: seq<Group>,
      k: nat)
    requires k <= |groups| == |keys|
    requires forall i :: 0 <= i < |keys| ==>
      COUNT in groups[i] && groups[i][COUNT] == Count(|Members(rows, groupCol, keys[i], |rows|)|)
    ensures CountSum(groups, k) == Shares(Labels(rows, groupCol), Ones(|rows|), keys, k, |rows|)
  {
    hide Share, Members;
    if k > 0 {
      CountsAreShares(rows, groupCol, keys, groups, k - 1);
      MembersShare(rows, groupCol, keys[k - 1], |rows|);
    }
  }

  /** The group gets an aggregate. */
  predicate Aggregated(members: seq<Row>, aggCol: string) {
    aggCol != "" && Vals(members, aggCol) != []
  }

  lemma AggregateKeyIsNoCount(func: string, aggCol: string)
    ensures AggregateKey(func, aggCol) != COUNT
  {
    assert AggregateKey(func, aggCol)[|func|] == '_';
    assert forall i :: 0 <= i < |COUNT| ==> COUNT[i] != '_';
  }

  lemma GroupEntry(groupCol: string, key: string, members: seq<Row>, aggCol: string, func: string)
    requires GroupOf(groupCol, key, members, aggCol, func).Done?
    ensures var g := GroupOf(groupCol, key, members, aggCol, func).value;
      && COUNT in g && g[COUNT] == Count(|members|) && groupCol in g
      && (g[groupCol] == Name(key) <==>
          groupCol != COUNT && !(Aggregated(members, aggCol) && groupCol == AggregateKey(func, aggCol)))
  {
    AggregateKeyIsNoCount(func, aggCol);
    hide Vals, AggregateAll, AggregateKey;
  }

  /** The aggregate of a group; a name that is none means the sum. */
  ghost predicate IsGroupAggregate(func: string, vals: seq<real>, e: Entry) {
    if func in {"sum", "mean", "min", "max", "count"} then IsAggregate(func, vals, e) else e == Number(Sum(vals))
  }

  /** The group's dictionary, with all its entries. */
  ghost predicate IsGroup(g: Group, groupCol: string, key: string, members: seq<Row>, aggCol: string, func: string) {
    var aggregated := aggCol != "" && exists i :: 0 <= i < |members| && NonNull(members[i], aggCol);
    var name := func + "_" + aggCol;
    && g.Keys == {groupCol, "count"} + (if aggregated then {name} else {})
    && g["count"] == Count(|members|)
    && (groupCol != "count" && !(aggregated && groupCol == name) ==> g[groupCol] == Name(key))
    && (aggregated ==>
          None !in Vals(members, aggCol) && IsGroupAggregate(func, Unwrap(Vals(members, aggCol)), g[name]))
  }

  lemma {:induction false} ValsEmptyIff(rows: seq<Row>, col: string)
    ensures Vals(rows, col) == [] <==> forall i :: 0 <= i < |rows| ==> !NonNull(rows[i], col)
  {
    if rows != [] {
      ValsEmptyIff(rows[..|rows| - 1], col);
      assert forall i :: 0 <= i < |rows| - 1 ==> rows[..|rows| - 1][i] == rows[i];
    }
  }

  lemma AggregateAllIs(func: string, vals: seq<Option<real>>)
    requires vals != [] && None !in vals
    ensures AggregateAll(func, vals).Done? && IsGroupAggregate(func, Unwrap(vals), AggregateAll(func, vals).value)
  {
    if Additive(func) || NeedsValues(func) {
      AggregateIs(func, Unwrap(vals));
    }
    hide Aggregate, IsAggregate, Sum;
  }

  lemma GroupIs(groupCol: string, key: string, members: seq<Row>, aggCol: string, func: string)
    requires GroupOf(groupCol, key, members, aggCol, func).Done?
    ensures IsGroup(GroupOf(groupCol, key, members, aggCol, func).value, groupCol, key, members, aggCol, func)
  {
    AggregateKeyIsNoCount(func, aggCol);
    ValsEmptyIff(members, aggCol);
    if Aggregated(members, aggCol) {
      AggregateAllIs(func, Vals(members, aggCol));
    }
    hide Vals, AggregateAll, IsGroupAggregate, NonNull;
  }

  /** Every group is the dictionary of its key and its rows, in ascending order of the keys. */
  lemma GroupsAre(rows: seq<Row>, groupCol: string, aggCol: string, func: string)
    requires Groups(rows, groupCol, aggCol, func).Done?
    ensures var groups, keys := Groups(rows, groupCol, aggCol, func).value, SortedSet(Labels(rows, groupCol));
      |groups| == |keys| && forall i :: 0 <= i < |keys| ==>
        IsGroup(groups[i], groupCol, keys[i], Members(rows, groupCol, keys[i], |rows|), aggCol, func)
  {
    var groups, keys := Groups(rows, groupCol, aggCol, func).value, SortedSet(Labels(rows, groupCol));
    GroupEntries(rows, groupCol, aggCol, func, keys, |keys|);
    hide Groups, SortedSet, Members, GroupOf, IsGroup;
    forall i | 0 <= i < |keys|
      ensures IsGroup(groups[i], groupCol, keys[i], Members(rows, groupCol, keys[i], |rows|), aggCol, func)
    {
      GroupIs(groupCol, keys[i], Members(rows, groupCol, keys[i], |rows|), aggCol, func);
    }
  }

  /** There is one group per distinct key in ascending order, each counts its own rows, and together
      they count every row once. A group keeps its key if and only if its column is named neither
      "count" nor like the group's aggregate. */
  lemma GroupCounts(rows: seq<Row>, groupCol: string, aggCol: string, func: string)
    requires Groups(rows, groupCol, aggCol, func).Done?
    ensures var groups, keys := Groups(rows, groupCol, aggCol, func).value, SortedSet(Labels(rows, groupCol));
      && |groups| == |keys|
      && (forall i :: 0 <= i < |keys| ==>
        var members := Members(rows, groupCol, keys[i], |rows|);
        && COUNT in groups[i] && groups[i][COUNT] == Count(|members|) && groupCol in groups[i]
        && (groups[i][groupCol] == Name(keys[i]) <==>
            groupCol != COUNT && !(Aggregated(members, aggCol) && groupCol == AggregateKey(func, aggCol))))
      && CountSum(groups, |groups|) == |rows| as real
  {
    var groups, keys := Groups(rows, groupCol, aggCol, func).value, SortedSet(Labels(rows, groupCol));
    SortedSetSorts(Labels(rows, groupCol));
    GroupEntries(rows, groupCol, aggCol, func, keys, |keys|);
    hide Members, Share, SortedSet, Vals, GroupOf, Aggregated, AggregateKey;
    forall i | 0 <= i < |keys|
      ensures var members := Members(rows, groupCol, keys[i], |rows|);
        && COUNT in groups[i] && groups[i][COUNT] == Count(|members|) && groupCol in groups[i]
        && (groups[i][groupCol] == Name(keys[i]) <==>
            groupCol != COUNT && !(Aggregated(members, aggCol) && groupCol == AggregateKey(func, aggCol)))
    {
      GroupEntry(groupCol, keys[i], Members(rows, groupCol, keys[i], |rows|), aggCol, func);
    }
    CountsAreShares(rows, groupCol, keys, groups, |keys|);
    SharesConserve(Labels(rows, groupCol), Ones(|rows|), keys, |rows|);
    OnesSum(|rows|, |rows|);
  }

  // Agreement with pivot tables

  lemma ValsAppend(rows: seq<Row>, r: Row, col: string)
    ensures Vals(rows + [r], col) == if NonNull(r, col) then Vals(rows, col) + [ToFloat(r, col)] else Vals(rows, col)
  {
    assert (rows + [r])[..|rows|] == rows;
  }

  lemma {:induction false} NumericVals(rows: seq<Row>, groupCol: string, col: string, key: string, n: nat)
    requires n <= |rows| && forall i :: 0 <= i < |rows| ==> !IsText(rows[i], col)
    ensures None !in Vals(Members(rows, groupCol, key, n), col)
  {
    if n > 0 {
      NumericVals(rows, groupCol, col, key, n - 1);
      ValsAppend(Members(rows, groupCol, key, n - 1), rows[n - 1], col);
    }
  }

  lemma TotalAppend(func: string, vals: seq<Option<real>>, v: Option<real>)
    requires Additive(func) && None !in vals && v.Some?
    ensures BucketTotal(func, Unwrap(vals + [v])) == BucketTotal(func, Unwrap(vals)) + Weight(v, func)
  {
    assert Unwrap(vals + [v]) == Unwrap(vals) + [v.value];
    BucketGrows(func, Unwrap(vals), v);
  }

  /** Without text in the column, the values of a group add up to its share. */
  lemma {:induction false} GroupShare(rows: seq<Row>, groupCol: string, column: string, col: string, func: string,
      key: string, n: nat)
    requires n <= |rows| && Additive(func) && forall i :: 0 <= i < |rows| ==> !IsText(rows[i], col)
    ensures var vals, facts := Vals(Members(rows, groupCol, key, n), col), Facts(rows, groupCol, column, col);
      && None !in vals
      && BucketTotal(func, Unwrap(vals)) == Share(IndexLabels(facts), Weights(facts, func), key, n)
  {
    hide BucketTotal, Weight, Vals, Unwrap;
    NumericVals(rows, groupCol, col, key, n);
    if n == 0 {
      NothingTotals(func, col);
    } else {
      GroupShare(rows, groupCol, column, col, func, key, n - 1);
      var r, facts := rows[n - 1], Facts(rows, groupCol, column, col);
      assert facts[n - 1] == FactOf(r, groupCol, column, col);
      if Label(r, groupCol) == key {
        var members := Members(rows, groupCol, key, n - 1);
        ValsAppend(members, r, col);
        if NonNull(r, col) {
          TotalAppend(func, Vals(members, col), ToFloat(r, col));
        } else {
          NoWeight(func);
        }
      }
    }
  }

  lemma NoWeight(func: string)
    ensures Weight(None, func) == 0.0
  {
  }

  lemma NothingTotals(func: string, col: string)
    ensures Vals([], col) == [] && BucketTotal(func, Unwrap(Vals([], col))) == 0.0
  {
  }

  /** One group's aggregate is its share of the rows; a group without numbers has none. */
  lemma GroupAggregate(rows: seq<Row>, groupCol: string, column: string, col: string, func: string, key: string)
    requires Additive(func) && col != "" && forall j :: 0 <= j < |rows| ==> !IsText(rows[j], col)
    ensures var facts := Facts(rows, groupCol, column, col);
      var g := GroupOf(groupCol, key, Members(rows, groupCol, key, |rows|), col, func);
      && g.Done?
      && CellValue(g.value, AggregateKey(func, col)) == Share(IndexLabels(facts), Weights(facts, func), key, |rows|)
  {
    hide Members, Share, Vals, Weights, IsText, AggregateKey;
    GroupShare(rows, groupCol, column, col, func, key, |rows|);
    AggregateKeyIsNoCount(func, col);
    assert Unwrap([]) == [];
  }

  /** Whenever grouping by the index column does not raise, it gives for each key the total of the
      pivot row with that key. */
  lemma PivotRowsAgreeWithGroups(rows: seq<Row>, index: string, column: string, col: string, func: string, k: nat)
    requires Additive(func) && col != "" && Groups(rows, index, col, func).Done?
    requires k < |IndexValues(Facts(rows, index, column, col))|
    ensures var facts, groups := Facts(rows, index, column, col), Groups(rows, index, col, func).value;
      && Table(facts, func, index).Done?
      && k < |groups| == |Table(facts, func, index).value|
      && SortedSet(Labels(rows, index)) == IndexValues(facts)
      && CellValue(groups[k], AggregateKey(func, col))
         == RowTotal(Table(facts, func, index).value[k], ColumnValues(facts), |ColumnValues(facts)|)
  {
    var facts := Facts(rows, index, column, col);
    var keys := IndexValues(facts);
    LabelsOfFacts(rows, index, column, col);
    PivotConserves(facts, func, index);
    GroupByRaisesIff(rows, index, col, func);
    GroupCounts(rows, index, col, func);
    GroupEntries(rows, index, col, func, keys, |keys|);
    RowTotalIsShare(facts, func, index, k);
    hide *;
    GroupAggregate(rows, index, column, col, func, keys[k]);
  }

  // Inputs

  /** Counting the rows of a group raises when the counted column holds a text. */
  lemma CountRaisesOnText()
    ensures var row := map["kind" := Value("a", None), "size" := Value("large", None)];
      Groups([row], "kind", "size", "count").Raised?
  {
    var row: Row := map["kind" := Value("a", None), "size" := Value("large", None)];
    GroupByRaisesIff([row], "kind", "size", "count");
    assert IsText([row][0], "size");
  }

  /** Grouped by a column named "count", a group loses its key. */
  lemma CountColumnLosesKey()
    ensures var row := map["count" := Value("7", Some(7.0))];
      Groups([row], "count", "", "count") == Done([map["count" := Count(1)]])
  {
    var row: Row := map["count" := Value("7", Some(7.0))];
    var rows := [row];
    var key := Label(row, "count");
    assert Labels(rows, "count") == [key];
    SingletonSet(key);
    assert Members(rows, "count", key, 0) == [] && Members(rows, "count", key, 1) == [row];
    assert SortedSet(Labels(rows, "count")) == [key];
    assert GroupsTo(rows, "count", "", "count", [key], 0) == Done([]);
    assert GroupOf("count", key, [row], "", "count") == Done(Head("count", key, 1));
    assert Head("count", key, 1) == map["count" := Count(1)];
    assert GroupsTo(rows, "count", "", "count", [key], 1) == Done([] + [Head("count", key, 1)]);
    assert Groups(rows, "count", "", "count") == GroupsTo(rows, "count", "", "count", [key], 1);
    assert [] + [Head("count", key, 1)] == [map["count" := Count(1)]];
  }
}
