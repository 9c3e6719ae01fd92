/** What traversing a JSON value finds, by positions: keys of dictionaries and indices of lists. */
module JsonPositions {
  import opened FlattenJson
  import opened Splitting

  datatype Step = Key(key: string) | Index(i: nat)

  /** The steps lead from data to v. */
  ghost predicate Leads(data: Json, steps: seq<Step>, v: Json)
    decreases |steps|
  {
    if steps == [] then v == data
    else
      match steps[0]
      case Key(k) => data.Dict? && exists j ::
        0 <= j < |data.fields| && data.fields[j].key == k && Leads(data.fields[j].value, steps[1..], v)
      case Index(i) => data.List? && i < |data.items| && Leads(data.items[i], steps[1..], v)
  }

  /** No dictionary has a key twice. */
  ghost predicate Distinct(data: Json)
    decreases data
  {
    match data
    case Leaf(_) => true
    case Dict(fields) =>
      && (forall i, j :: 0 <= i < j < |fields| ==> fields[i].key != fields[j].key)
      && forall i :: 0 <= i < |fields| ==> Distinct(fields[i].value)
    case List(items) => forall i :: 0 <= i < |items| ==> Distinct(items[i])
  }

  /** The part is a key, or the digits of an index. */
  ghost predicate ReadsPart(step: Step, part: string, digit: char -> Digit) {
    match step
    case Key(k) => part == k
    case Index(i) =>
      part != "" && (forall j :: 0 <= j < |part| ==> digit(part[j]).Valued?) && ToNat(part, digit) == i
  }

  ghost predicate Reads(steps: seq<Step>, parts: seq<string>, digit: char -> Digit) {
    |steps| == |parts| && forall i :: 0 <= i < |steps| ==> ReadsPart(steps[i], parts[i], digit)
  }

  lemma {:induction false} GetIs(fields: seq<Field>, n: nat, i: nat)
    requires i < n <= |fields| && forall i, j :: 0 <= i < j < |fields| ==> fields[i].key != fields[j].key
    ensures Get(fields, n, fields[i].key) == fields[i].value
  {
    if i < n - 1 {
      GetIs(fields, n - 1, i);
    }
  }

  lemma {:induction false} GetFinds(fields: seq<Field>, n: nat, key: string)
    requires n <= |fields|
    ensures Get(fields, n, key) == Leaf(Nothing)
      || exists j :: 0 <= j < n && fields[j].key == key && Get(fields, n, key) == fields[j].value
  {
    if n > 0 && fields[n - 1].key != key {
      GetFinds(fields, n - 1, key);
    }
  }

  /** One step is one part. */
  lemma PartOfStep(data: Json, step: Step, v: Json, part: string, digit: char -> Digit)
    requires Distinct(data) && ReadsPart(step, part, digit) && Leads(data, [step], v)
    ensures !data.Leaf? && Part(data, part, digit) == Found(v) && Distinct(v)
  {
    assert [step][1..] == [];
    match step
    case Key(k) =>
      var j :| 0 <= j < |data.fields| && data.fields[j].key == k && Leads(data.fields[j].value, [], v);
      GetIs(data.fields, |data.fields|, j);
    case Index(i) =>
      assert Leads(data.items[i], [], v);
  }

  lemma LeadsFirst(data: Json, steps: seq<Step>, v: Json) returns (next: Json)
    requires steps != [] && Leads(data, steps, v)
    ensures Leads(data, [steps[0]], next) && Leads(next, steps[1..], v)
  {
    assert [steps[0]][1..] == [];
    match steps[0]
    case Key(k) =>
      var j :| 0 <= j < |data.fields| && data.fields[j].key == k && Leads(data.fields[j].value, steps[1..], v);
      next := data.fields[j].value;
      assert Leads(next, [], next);
    case Index(i) =>
      next := data.items[i];
      assert Leads(next, [], next);
  }

  /** Steps that lead to a value find it. */
  lemma {:induction false} LeadsFinds(data: Json, steps: seq<Step>, v: Json, parts: seq<string>, digit: char -> Digit)
    requires Distinct(data) && Leads(data, steps, v) && Reads(steps, parts, digit)
    ensures Follow(data, parts, digit) == Found(v)
    decreases |steps|
  {
    if steps != [] {
      var next := LeadsFirst(data, steps, v);
      PartOfStep(data, steps[0], next, parts[0], digit);
      LeadsFinds(next, steps[1..], v, parts[1..], digit);
    }
  }

  /** A part that finds something is a step. */
  lemma StepOfPart(data: Json, part: string, digit: char -> Digit) returns (step: Step)
    requires !data.Leaf? && Part(data, part, digit).Found? && Part(data, part, digit).value != Leaf(Nothing)
    ensures ReadsPart(step, part, digit) && Leads(data, [step], Part(data, part, digit).value)
  {
    var v := Part(data, part, digit).value;
    if data.Dict? {
      step := Key(part);
      GetFinds(data.fields, |data.fields|, part);
      var j :| 0 <= j < |data.fields| && data.fields[j].key == part && v == data.fields[j].value;
      assert [step][1..] == [] && Leads(data.fields[j].value, [], v);
    } else {
      step := Index(ToNat(part, digit));
      assert [step][1..] == [] && Leads(v, [], v);
    }
  }

  lemma LeadsCons(data: Json, step: Step, next: Json, rest: seq<Step>, v: Json)
    requires Leads(data, [step], next) && Leads(next, rest, v)
    ensures Leads(data, [step] + rest, v)
  {
    assert [step][1..] == [] && ([step] + rest)[1..] == rest;
    match step
    case Key(k) =>
      var j :| 0 <= j < |data.fields| && data.fields[j].key == k && Leads(data.fields[j].value, [], next);
    case Index(i) =>
      assert Leads(data.items[i], [], next);
  }

  lemma {:induction false} NothingFollows(parts: seq<string>, digit: char -> Digit)
    ensures Follow(Leaf(Nothing), parts, digit) == Found(Leaf(Nothing))
  {
  }

  lemma {:induction false} FindsLeads(data: Json, parts: seq<string>, digit: char -> Digit, v: Json)
    returns (steps: seq<Step>)
    requires Follow(data, parts, digit) == Found(v) && v != Leaf(Nothing)
    ensures Leads(data, steps, v) && Reads(steps, parts, digit)
    decreases |parts|
  {
    if parts == [] {
      steps := [];
    } else {
      var next := Part(data, parts[0], digit).value;
      if next == Leaf(Nothing) {
        NothingFollows(parts[1..], digit);
      }
      var step := StepOfPart(data, parts[0], digit);
      var rest := FindsLeads(next, parts[1..], digit, v);
      LeadsCons(data, step, next, rest, v);
      steps := [step] + rest;
    }
  }

  /** For every value without repeated keys, every path and every digit classification: traversing
      finds a value other than null, if and only if the parts of the path read steps that lead to it. */
  lemma TraversalFindsIff(data: Json, path: string, digit: char -> Digit, v: Json)
    requires Distinct(data) && v != Leaf(Nothing)
    ensures Follow(data, Split(path, '.'), digit) == Found(v)
       <==> exists steps :: Leads(data, steps, v) && Reads(steps, Split(path, '.'), digit)
  {
    var parts := Split(path, '.');
    if Follow(data, parts, digit) == Found(v) {
      var steps := FindsLeads(data, parts, digit, v);
    }
    if steps :| Leads(data, steps, v) && Reads(steps, parts, digit) {
      LeadsFinds(data, steps, v, parts, digit);
    }
  }

  // Written positions

  function Written(step: Step): string {
    match step
    case Key(k) => k
    case Index(i) => Decimal(i)
  }

  function WrittenAll(steps: seq<Step>): (r: seq<string>)
    ensures |r| == |steps| && forall i :: 0 <= i < |steps| ==> r[i] == Written(steps[i])
  {
    seq(|steps|, i requires 0 <= i < |steps| => Written(steps[i]))
  }

  /** The ASCII digits have their values. */
  ghost predicate Standard(digit: char -> Digit) {
    forall c :: '0' <= c <= '9' ==> digit(c) == Valued(c as nat - '0' as nat)
  }

  lemma {:induction false} SameReading(p: string, digit: char -> Digit)
    requires Standard(digit) && forall i :: 0 <= i < |p| ==> '0' <= p[i] <= '9'
    ensures !Unreadable(p, digit) && !Unreadable(p, AsciiDigit) && ToNat(p, digit) == ToNat(p, AsciiDigit)
  {
    if p != "" {
      SameReading(p[..|p| - 1], digit);
    }
  }

  lemma WrittenReads(step: Step, digit: char -> Digit)
    requires Standard(digit)
    ensures ReadsPart(step, Written(step), digit)
    ensures step.Index? ==> '.' !in Written(step)
  {
    if step.Index? {
      ReadDecimal(step.i);
      SameReading(Decimal(step.i), digit);
    }
  }

  /** Joining the written steps to a value gives a path to it: keys may be any that hold no dot. */
  lemma TraverseFindsPosition(data: Json, steps: seq<Step>, v: Json, digit: char -> Digit)
    requires Distinct(data) && steps != [] && Leads(data, steps, v) && Standard(digit)
    requires forall i :: 0 <= i < |steps| && steps[i].Key? ==> '.' !in steps[i].key
    ensures Follow(data, Split(Join(WrittenAll(steps), '.'), '.'), digit) == Found(v)
  {
    var parts := WrittenAll(steps);
    forall i | 0 <= i < |steps| ensures ReadsPart(steps[i], parts[i], digit) && '.' !in parts[i] {
      WrittenReads(steps[i], digit);
    }
    SplitJoin(parts, '.');
    LeadsFinds(data, steps, v, parts, digit);
  }

  // Exceptions

  /** The part before k lead to a list, and the part at k is all digits. */
  ghost predicate IndexesAt(data: Json, parts: seq<string>, digit: char -> Digit, steps: seq<Step>,
      items: seq<Json>)
  {
    && |steps| < |parts| && Leads(data, steps, List(items)) && Reads(steps, parts[..|steps|], digit)
    && parts[|steps|] != "" && forall j :: 0 <= j < |parts[|steps|]| ==> digit(parts[|steps|][j]) != NoDigit
  }

  /** The digits have values that give an index behind the end. */
  ghost predicate OutOfRange(part: string, items: seq<Json>, digit: char -> Digit) {
    (forall j :: 0 <= j < |part| ==> digit(part[j]).Valued?) && ToNat(part, digit) >= |items|
  }

  lemma {:induction false} ErrorComesFrom(data: Json, parts: seq<string>, digit: char -> Digit)
    returns (steps: seq<Step>, items: seq<Json>)
    requires !Follow(data, parts, digit).Found?
    ensures IndexesAt(data, parts, digit, steps, items)
    ensures Follow(data, parts, digit).IndexError? <==> OutOfRange(parts[|steps|], items, digit)
    ensures Follow(data, parts, digit).ValueError? <==> Unreadable(parts[|steps|], digit)
    decreases |parts|
  {
    var next := Part(data, parts[0], digit);
    if next.Found? {
      if next.value == Leaf(Nothing) {
        NothingFollows(parts[1..], digit);
      }
      var step := StepOfPart(data, parts[0], digit);
      var rest;
      rest, items := ErrorComesFrom(next.value, parts[1..], digit);
      steps := [step] + rest;
      LeadsCons(data, step, next.value, rest, List(items));
      assert parts[..|steps|][1..] == parts[1..][..|rest|];
      assert forall i :: 0 < i < |steps| ==> steps[i] == rest[i - 1] && parts[i] == parts[1..][i - 1];
    } else {
      steps, items := [], data.items;
      assert Leads(data, [], List(items)) && parts[..0] == [];
    }
  }

  lemma {:induction false} ErrorArises(data: Json, parts: seq<string>, digit: char -> Digit, steps: seq<Step>,
      items: seq<Json>)
    requires Distinct(data) && IndexesAt(data, parts, digit, steps, items)
    ensures OutOfRange(parts[|steps|], items, digit) ==> Follow(data, parts, digit) == IndexError
    ensures Unreadable(parts[|steps|], digit) ==> Follow(data, parts, digit) == ValueError
    decreases |steps|
  {
    if steps == [] {
      assert data == List(items);
    } else {
      var next := LeadsFirst(data, steps, List(items));
      assert parts[..|steps|][0] == parts[0];
      PartOfStep(data, steps[0], next, parts[0], digit);
      assert parts[..|steps|][1..] == parts[1..][..|steps| - 1];
      assert parts[1..][|steps| - 1] == parts[|steps|];
      ErrorArises(next, parts[1..], digit, steps[1..], items);
    }
  }

  /** Traversing raises IndexError, if and only if some part reads an index behind the end of the list
      to which the parts before it lead. */
  lemma IndexErrorIff(data: Json, path: string, digit: char -> Digit)
    requires Distinct(data)
    ensures var parts := Split(path, '.');
      Follow(data, parts, digit) == IndexError <==> exists steps, items ::
        IndexesAt(data, parts, digit, steps, items) && OutOfRange(parts[|steps|], items, digit)
  {
    var parts := Split(path, '.');
    if Follow(data, parts, digit) == IndexError {
      var steps, items := ErrorComesFrom(data, parts, digit);
    }
    if steps, items :| IndexesAt(data, parts, digit, steps, items) && OutOfRange(parts[|steps|], items, digit) {
      ErrorArises(data, parts, digit, steps, items);
    }
  }

  /** It raises ValueError, if and only if such a part has a digit without value. */
  lemma ValueErrorIff(data: Json, path: string, digit: char -> Digit)
    requires Distinct(data)
    ensures var parts := Split(path, '.');
      Follow(data, parts, digit) == ValueError <==> exists steps, items ::
        IndexesAt(data, parts, digit, steps, items) && Unreadable(parts[|steps|], digit)
  {
    var parts := Split(path, '.');
    if Follow(data, parts, digit) == ValueError {
      var steps, items := ErrorComesFrom(data, parts, digit);
    }
    if steps, items :| IndexesAt(data, parts, digit, steps, items) && Unreadable(parts[|steps|], digit) {
      ErrorArises(data, parts, digit, steps, items);
    }
  }
}
