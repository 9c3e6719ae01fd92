/** Flattening nested dictionaries to dotted keys, and traversing them by a dotted path. */
module FlattenJson {
  import opened Splitting

  datatype Scalar = Nothing | Text(text: string) | Num(value: real) | Flag(on: bool)

  /** A parsed JSON value. A dictionary lists its fields in insertion order. */
  datatype Json = Leaf(scalar: Scalar) | Dict(fields: seq<Field>) | List(items: seq<Json>)

  datatype Field = Field(key: string, value: Json)

  /** `str(n)` of a list index. */
  function Decimal(n: nat): string {
    var digit := ['0', '1', '2', '3', '4', '5', '6', '7', '8', '9'][n % 10];
    if n < 10 then [digit] else Decimal(n / 10) + [digit]
  }

  function NewKey(parent: string, sep: string, key: string): string {
    if parent != "" then parent + sep + key else key
  }

  function ItemKey(key: string, i: nat): string {
    key + "[" + Decimal(i) + "]"
  }

  // What flattening computes, over the first n fields or items

  function FlatFields(fields: seq<Field>, n: nat, parent: string, sep: string): map<string, Json>
    requires n <= |fields|
    decreases fields, n
  {
    if n == 0 then map[]
    else FlatFields(fields, n - 1, parent, sep) + FlatField(fields[n - 1], parent, sep)
  }

  function FlatField(f: Field, parent: string, sep: string): map<string, Json>
    decreases f, 0
  {
    var key := NewKey(parent, sep, f.key);
    match f.value
    case Dict(fields) => FlatFields(fields, |fields|, key, sep)
    case List(items) => FlatItems(items, |items|, key, sep)
    case Leaf(_) => map[key := f.value]
  }

  function FlatItems(items: seq<Json>, n: nat, key: string, sep: string): map<string, Json>
    requires n <= |items|
    decreases items, n
  {
    if n == 0 then map[]
    else FlatItems(items, n - 1, key, sep) + FlatItem(items[n - 1], ItemKey(key, n - 1), sep)
  }

  function FlatItem(item: Json, key: string, sep: string): map<string, Json>
    decreases item, 1
  {
    match item
    case Dict(fields) => FlatFields(fields, |fields|, key, sep)
    case _ => map[key := item]
  }

  lemma MergeAssociates<K, V>(a: map<K, V>, b: map<K, V>, c: map<K, V>)
    ensures a + b + c == a + (b + c)
  {
  }

  lemma AddOne<K, V>(m: map<K, V>, k: K, v: V)
    ensures m[k := v] == m + map[k := v]
  {
  }

  method FlattenDict(d: seq<Field>, parentKey: string, sep: string) returns (items: map<string, Json>)
    ensures items == FlatFields(d, |d|, parentKey, sep)
    decreases d
  {
    items := map[];
    var j := 0;
    while j < |d|
      invariant 0 <= j <= |d|
      invariant items == FlatFields(d, j, parentKey, sep)
    {
      var newKey := NewKey(parentKey, sep, d[j].key);
      match d[j].value {
        case Dict(fields) =>
          var inner := FlattenDict(fields, newKey, sep);
          items := items + inner;
        case List(elements) =>
          items := FlattenItems(elements, newKey, sep, items);
        case Leaf(_) =>
          items := items[newKey := d[j].value];
      }
      j := j + 1;
    }
  }

  /** The inner loop over the items of a list. */
  method FlattenItems(elements: seq<Json>, newKey: string, sep: string, before: map<string, Json>)
    returns (items: map<string, Json>)
    ensures items == before + FlatItems(elements, |elements|, newKey, sep)
    decreases elements
  {
    hide FlatFields, FlatField, NewKey, ItemKey;
    items := before;
    var i := 0;
    while i < |elements|
      invariant 0 <= i <= |elements|
      invariant items == before + FlatItems(elements, i, newKey, sep)
    {
      ghost var last := FlatItem(elements[i], ItemKey(newKey, i), sep);
      MergeAssociates(before, FlatItems(elements, i, newKey, sep), last);
      match elements[i] {
        case Dict(fields) =>
          var inner := FlattenDict(fields, ItemKey(newKey, i), sep);
          items := items + inner;
        case _ =>
          AddOne(items, ItemKey(newKey, i), elements[i]);
          items := items[ItemKey(newKey, i) := elements[i]];
      }
      i := i + 1;
    }
  }

  /** The last field that produces a key gives its value, whatever the keys are. */
  lemma {:induction false} LastFieldWins(fields: seq<Field>, n: nat, parent: string, sep: string, k: string, i: nat)
    requires i < n <= |fields| && k in FlatField(fields[i], parent, sep)
    requires forall j :: i < j < n ==> k !in FlatField(fields[j], parent, sep)
    ensures k in FlatFields(fields, n, parent, sep)
    ensures FlatFields(fields, n, parent, sep)[k] == FlatField(fields[i], parent, sep)[k]
  {
    if i < n - 1 {
      LastFieldWins(fields, n - 1, parent, sep, k, i);
    }
    hide FlatField;
  }

  // Traversal

  /** What Python makes of a character: no digit, a digit with a decimal value, or a digit that `int`
      does not take. */
  datatype Digit = NoDigit | Valued(value: nat) | Unvalued

  /** `p.isdigit()`. */
  predicate IsDigits(p: string, digit: char -> Digit) {
    p != "" && forall i :: 0 <= i < |p| ==> !digit(p[i]).NoDigit?
  }

  /** `int(p)` raises. */
  predicate Unreadable(p: string, digit: char -> Digit) {
    exists i :: 0 <= i < |p| && !digit(p[i]).Valued?
  }

  function ToNat(p: string, digit: char -> Digit): nat
    requires !Unreadable(p, digit)
  {
    if p == "" then 0
    else
      assert digit(p[|p| - 1]).Valued?;
      10 * ToNat(p[..|p| - 1], digit) + digit(p[|p| - 1]).value
  }

  /** A traversal returns a value or raises. */
  datatype Outcome = Found(value: Json) | IndexError | ValueError

  function Get(fields: seq<Field>, n: nat, key: string): Json
    requires n <= |fields|
  {
    if n == 0 then Leaf(Nothing)
    else if fields[n - 1].key == key then fields[n - 1].value
    else Get(fields, n - 1, key)
  }

  function Part(data: Json, part: string, digit: char -> Digit): Outcome {
    match data
    case Dict(fields) => Found(Get(fields, |fields|, part))
    case List(items) =>
      if !IsDigits(part, digit) then Found(Leaf(Nothing))
      else if Unreadable(part, digit) then ValueError
      else if ToNat(part, digit) < |items| then Found(items[ToNat(part, digit)]) else IndexError
    case Leaf(_) => Found(Leaf(Nothing))
  }

  function Follow(data: Json, parts: seq<string>, digit: char -> Digit): Outcome
    decreases |parts|
  {
    if parts == [] then Found(data)
    else if data.Leaf? then Found(Leaf(Nothing))
    else
      var next := Part(data, parts[0], digit);
      if next.Found? then Follow(next.value, parts[1..], digit) else next
  }

  method TraverseJson(data: Json, path: string, digit: char -> Digit) returns (r: Outcome)
    ensures r == Follow(data, Split(path, '.'), digit)
  {
    var parts := Split(path, '.');
    var cursor := data;
    var i := 0;
    while i < |parts|
      invariant 0 <= i <= |parts|
      invariant Follow(data, parts, digit) == Follow(cursor, parts[i..], digit)
    {
      if cursor.Leaf? {
        return Found(Leaf(Nothing));
      }
      var next := Part(cursor, parts[i], digit);
      if !next.Found? {
        return next;
      }
      cursor := next.value;
      i := i + 1;
    }
    return Found(cursor);
  }

  // Keys and paths

  ghost predicate ProperKey(k: string, lists: bool) {
    k != "" && '.' !in k && (lists ==> '[' !in k)
  }

  /** Distinct keys in every dictionary, all non-empty and free of the separator; lists only where
      allowed, and then no key has an opening bracket. */
  ghost predicate Tidy(fields: seq<Field>, n: nat, lists: bool)
    requires n <= |fields|
    decreases fields, n
  {
    n == 0 ||
    (&& Tidy(fields, n - 1, lists)
     && ProperKey(fields[n - 1].key, lists)
     && (forall i :: 0 <= i < n - 1 ==> fields[i].key != fields[n - 1].key)
     && TidyValue(fields[n - 1].value, lists))
  }

  ghost predicate TidyValue(value: Json, lists: bool)
    decreases value, 0
  {
    match value
    case Dict(inner) => Tidy(inner, |inner|, lists)
    case List(items) => lists && TidyItems(items, |items|)
    case Leaf(_) => true
  }

  /** The dictionaries among the first n items are tidy. */
  ghost predicate TidyItems(items: seq<Json>, n: nat)
    requires n <= |items|
    decreases items, n
  {
    n == 0 ||
    (&& TidyItems(items, n - 1)
     && match items[n - 1]
        case Dict(inner) => Tidy(inner, |inner|, true)
        case _ => true)
  }

  // List indices

  function AsciiDigit(c: char): Digit {
    if '0' <= c <= '9' then Valued(c as nat - '0' as nat) else NoDigit
  }

  /** Reading undoes writing. */
  lemma {:induction false} ReadDecimal(n: nat)
    ensures forall i :: 0 <= i < |Decimal(n)| ==> '0' <= Decimal(n)[i] <= '9'
    ensures !Unreadable(Decimal(n), AsciiDigit) && ToNat(Decimal(n), AsciiDigit) == n
  {
    var p := Decimal(n);
    if n >= 10 {
      ReadDecimal(n / 10);
      assert p[..|p| - 1] == Decimal(n / 10);
    } else {
      assert p[..0] == "";
    }
    assert p[|p| - 1] == ['0', '1', '2', '3', '4', '5', '6', '7', '8', '9'][n % 10];
    assert AsciiDigit(p[|p| - 1]) == Valued(n % 10);
    forall i | 0 <= i < |p| ensures '0' <= p[i] <= '9' && AsciiDigit(p[i]).Valued? {
      assert i < |p| - 1 ==> p[i] == p[..|p| - 1][i];
    }
  }

  /** What stands before the first delimiter is determined by the whole. */
  lemma DelimitedEqual(x: string, r: string, y: string, s: string, delimiters: set<char>)
    requires x + r == y + s
    requires forall c :: c in delimiters ==> c !in x && c !in y
    requires r == "" || r[0] in delimiters
    requires s == "" || s[0] in delimiters
    ensures x == y && r == s
  {
    NotShorter(x, r, y, s, delimiters);
    NotShorter(y, s, x, r, delimiters);
    assert (x + r)[..|x|] == x && (y + s)[..|y|] == y;
    assert (x + r)[|x|..] == r && (y + s)[|y|..] == s;
  }

  lemma NotShorter(x: string, r: string, y: string, s: string, delimiters: set<char>)
    requires x + r == y + s
    requires forall c :: c in delimiters ==> c !in y
    requires r == "" || r[0] in delimiters
    ensures |x| >= |y|
  {
    assert forall i :: 0 <= i < |y| ==> y[i] in y && (x + r)[i] == y[i];
    assert forall i :: |x| <= i < |x| + |r| ==> (x + r)[i] == r[i - |x|];
    assert |x| + |r| == |y| + |s|;
    assert r != "" ==> (x + r)[|x|] == r[0];
  }

  lemma ItemKeySplit(key: string, i: nat, rest: string)
    ensures ItemKey(key, i) + rest == key + ("[" + Decimal(i) + "]" + rest)
  {
  }

  lemma SamePrefix(p: string, a: string, b: string)
    requires p + a == p + b
    ensures a == b
  {
    assert (p + a)[|p|..] == a && (p + b)[|p|..] == b;
  }

  lemma ItemKeyIndex(key: string, i: nat, rest: string)
    ensures ItemKey(key, i) + rest == (key + "[") + (Decimal(i) + ("]" + rest))
  {
  }

  lemma ItemKeysDiffer(key: string, i: nat, r: string, j: nat, s: string)
    requires ItemKey(key, i) + r == ItemKey(key, j) + s
    ensures i == j
  {
    ItemKeyIndex(key, i, r);
    ItemKeyIndex(key, j, s);
    ReadDecimal(i);
    ReadDecimal(j);
    hide ItemKey, Decimal, ToNat, Unreadable;
    SamePrefix(key + "[", Decimal(i) + ("]" + r), Decimal(j) + ("]" + s));
    DelimitedEqual(Decimal(i), "]" + r, Decimal(j), "]" + s, {']'});
  }

  // Shapes of flattened keys

  ghost predicate Continues(rest: string, lists: bool) {
    rest == "" || rest[0] == '.' || (lists && rest[0] == '[')
  }

  /** A flattened key extends its parent by a separator and more. */
  lemma {:induction false} FieldsShape(fields: seq<Field>, n: nat, parent: string, k: string, lists: bool)
    returns (i: nat, rest: string)
    requires n <= |fields| && Tidy(fields, n, lists) && k in FlatFields(fields, n, parent, ".")
    ensures i < n && k in FlatField(fields[i], parent, ".")
    ensures k == NewKey(parent, ".", fields[i].key) + rest && Continues(rest, lists)
    decreases fields, n
  {
    if k in FlatField(fields[n - 1], parent, ".") {
      i := n - 1;
      rest := FieldShape(fields[i], parent, k, lists);
    } else {
      i, rest := FieldsShape(fields, n - 1, parent, k, lists);
    }
  }

  lemma {:induction false} FieldShape(f: Field, parent: string, k: string, lists: bool) returns (rest: string)
    requires f.key != "" && TidyValue(f.value, lists) && k in FlatField(f, parent, ".")
    ensures k == NewKey(parent, ".", f.key) + rest && Continues(rest, lists)
    ensures f.value.Leaf? ==> rest == ""
    ensures f.value.List? ==> rest != "" && rest[0] == '['
    decreases f, 0
  {
    var key := NewKey(parent, ".", f.key);
    match f.value
    case Dict(inner) =>
      var i, more := FieldsShape(inner, |inner|, key, k, lists);
      ShapeBelow(key, inner[i].key, more);
      rest := "." + inner[i].key + more;
    case List(items) =>
      var i, more := ItemsShape(items, |items|, key, k);
      ItemKeySplit(key, i, more);
      rest := "[" + Decimal(i) + "]" + more;
    case Leaf(_) =>
      rest := "";
  }

  lemma ShapeBelow(parent: string, key: string, more: string)
    requires parent != ""
    ensures NewKey(parent, ".", key) + more == parent + ("." + key + more)
  {
  }

  lemma {:induction false} ItemsShape(items: seq<Json>, n: nat, key: string, k: string) returns (i: nat, rest: string)
    requires n <= |items| && TidyItems(items, n) && key != "" && k in FlatItems(items, n, key, ".")
    ensures i < n && k in FlatItem(items[i], ItemKey(key, i), ".")
    ensures k == ItemKey(key, i) + rest && (rest == "" || rest[0] == '.')
    decreases items, n
  {
    if k in FlatItem(items[n - 1], ItemKey(key, n - 1), ".") {
      i := n - 1;
      if items[i].Dict? {
        var inner := items[i].fields;
        var j, more := FieldsShape(inner, |inner|, ItemKey(key, i), k, true);
        hide FlatFields, FlatItems, ItemKey;
        ShapeBelow(ItemKey(key, i), inner[j].key, more);
        rest := "." + inner[j].key + more;
      } else {
        rest := "";
      }
    } else {
      i, rest := ItemsShape(items, n - 1, key, k);
    }
  }

  lemma {:induction false} TidyAt(fields: seq<Field>, n: nat, i: nat, lists: bool)
    requires i < n <= |fields| && Tidy(fields, n, lists)
    ensures ProperKey(fields[i].key, lists) && TidyValue(fields[i].value, lists)
    ensures forall j :: 0 <= j < n && j != i ==> fields[j].key != fields[i].key
  {
    if i < n - 1 {
      TidyAt(fields, n - 1, i, lists);
    }
  }

  lemma NewKeysEqual(parent: string, x: string, r: string, y: string, s: string)
    requires NewKey(parent, ".", x) + r == NewKey(parent, ".", y) + s
    ensures x + r == y + s
  {
    if parent != "" {
      assert (parent + "." + x + r)[|parent| + 1..] == x + r;
      assert (parent + "." + y + s)[|parent| + 1..] == y + s;
    }
  }

  /** Different fields never produce the same key. */
  lemma FieldsDoNotCollide(fields: seq<Field>, n: nat, parent: string, i: nat, j: nat, k: string, lists: bool)
    requires i < n <= |fields| && j < n && Tidy(fields, n, lists)
    requires k in FlatField(fields[i], parent, ".") && k in FlatField(fields[j], parent, ".")
    ensures i == j
  {
    TidyAt(fields, n, i, lists);
    TidyAt(fields, n, j, lists);
    var r := FieldShape(fields[i], parent, k, lists);
    var s := FieldShape(fields[j], parent, k, lists);
    NewKeysEqual(parent, fields[i].key, r, fields[j].key, s);
    DelimitedEqual(fields[i].key, r, fields[j].key, s, if lists then {'.', '['} else {'.'});
  }

  /** Different items never produce the same key. */
  lemma ItemsDoNotCollide(items: seq<Json>, n: nat, key: string, k: string)
    requires 0 < n <= |items| && TidyItems(items, n) && key != ""
    requires k in FlatItem(items[n - 1], ItemKey(key, n - 1), ".")
    ensures k !in FlatItems(items, n - 1, key, ".")
  {
    if k in FlatItems(items, n - 1, key, ".") {
      var i, r := ItemsShape(items, n - 1, key, k);
      var s := ItemShape(items, n, key, k);
      ItemKeysDiffer(key, i, r, n - 1, s);
    }
  }

  lemma ItemShape(items: seq<Json>, n: nat, key: string, k: string) returns (rest: string)
    requires 0 < n <= |items| && TidyItems(items, n) && key != ""
    requires k in FlatItem(items[n - 1], ItemKey(key, n - 1), ".")
    ensures k == ItemKey(key, n - 1) + rest
  {
    if items[n - 1].Dict? {
      var inner := items[n - 1].fields;
      var j, more := FieldsShape(inner, |inner|, ItemKey(key, n - 1), k, true);
      ShapeBelow(ItemKey(key, n - 1), inner[j].key, more);
      rest := "." + inner[j].key + more;
    } else {
      rest := "";
    }
  }

  // Counting

  /** The leaves of the first n fields; an item of a list that is no dictionary is one. */
  ghost function Leaves(fields: seq<Field>, n: nat): nat
    requires n <= |fields|
    decreases fields, n
  {
    if n == 0 then 0
    else
      Leaves(fields, n - 1) +
      match fields[n - 1].value
      case Dict(inner) => Leaves(inner, |inner|)
      case List(items) => ItemLeaves(items, |items|)
      case Leaf(_) => 1
  }

  ghost function ItemLeaves(items: seq<Json>, n: nat): nat
    requires n <= |items|
    decreases items, n
  {
    if n == 0 then 0
    else
      ItemLeaves(items, n - 1) +
      match items[n - 1]
      case Dict(inner) => Leaves(inner, |inner|)
      case _ => 1
  }

  lemma LastFieldIsNew(fields: seq<Field>, n: nat, parent: string, lists: bool)
    requires 0 < n <= |fields| && Tidy(fields, n, lists)
    ensures var before, last := FlatFields(fields, n - 1, parent, "."), FlatField(fields[n - 1], parent, ".");
      forall k :: k in last ==> k !in before
  {
    var before, last := FlatFields(fields, n - 1, parent, "."), FlatField(fields[n - 1], parent, ".");
    forall k | k in last ensures k !in before {
      if k in before {
        var i, rest := FieldsShape(fields, n - 1, parent, k, lists);
        FieldsDoNotCollide(fields, n, parent, i, n - 1, k, lists);
      }
    }
  }

  /** No leaf is overwritten: there are as many flattened keys as leaves. */
  lemma {:induction false} FlatCountsLeaves(fields: seq<Field>, n: nat, parent: string, lists: bool)
    requires n <= |fields| && Tidy(fields, n, lists)
    ensures |FlatFields(fields, n, parent, ".").Keys| == Leaves(fields, n)
    decreases fields, n
  {
    if n > 0 {
      FlatCountsLeaves(fields, n - 1, parent, lists);
      var f := fields[n - 1];
      var last := FlatField(f, parent, ".");
      LastFieldIsNew(fields, n, parent, lists);
      match f.value
      case Dict(inner) => FlatCountsLeaves(inner, |inner|, NewKey(parent, ".", f.key), lists);
      case List(items) => FlatCountsItems(items, |items|, NewKey(parent, ".", f.key));
      case Leaf(_) => assert last.Keys == {NewKey(parent, ".", f.key)};
    }
  }

  lemma {:induction false} FlatCountsItems(items: seq<Json>, n: nat, key: string)
    requires n <= |items| && TidyItems(items, n) && key != ""
    ensures |FlatItems(items, n, key, ".").Keys| == ItemLeaves(items, n)
    decreases items, n
  {
    if n > 0 {
      FlatCountsItems(items, n - 1, key);
      var last := FlatItem(items[n - 1], ItemKey(key, n - 1), ".");
      forall k | k in last ensures k !in FlatItems(items, n - 1, key, ".") {
        ItemsDoNotCollide(items, n, key, k);
      }
      match items[n - 1]
      case Dict(inner) => FlatCountsLeaves(inner, |inner|, ItemKey(key, n - 1), true);
      case _ => assert last.Keys == {ItemKey(key, n - 1)};
    }
  }

  // Leaves and their paths

  /** Following path from the first n fields ends at the leaf v. A list and an index are one step,
      written like the flattened key. */
  ghost predicate LeafAt(fields: seq<Field>, n: nat, path: seq<string>, v: Json)
    requires n <= |fields|
    decreases fields, n, 0
  {
    n > 0 && path != [] && (LeafOf(fields[n - 1], path, v) || LeafAt(fields, n - 1, path, v))
  }

  ghost predicate LeafOf(f: Field, path: seq<string>, v: Json)
    requires path != []
    decreases f, 0
  {
    match f.value
    case Dict(inner) => path[0] == f.key && LeafAt(inner, |inner|, path[1..], v)
    case List(items) => ItemAt(items, |items|, f.key, path, v)
    case Leaf(_) => path == [f.key] && v == f.value
  }

  ghost predicate ItemAt(items: seq<Json>, n: nat, key: string, path: seq<string>, v: Json)
    requires n <= |items| && path != []
    decreases items, n
  {
    n > 0 &&
    (|| ItemAt(items, n - 1, key, path, v)
     || (path[0] == ItemKey(key, n - 1)
         && match items[n - 1]
            case Dict(inner) => LeafAt(inner, |inner|, path[1..], v)
            case _ => |path| == 1 && v == items[n - 1]))
  }

  function DottedKey(parent: string, path: seq<string>): string {
    NewKey(parent, ".", Join(path, '.'))
  }

  lemma DottedKeyStep(parent: string, path: seq<string>)
    requires |path| > 1 && path[0] != ""
    ensures DottedKey(NewKey(parent, ".", path[0]), path[1..]) == DottedKey(parent, path)
  {
    var rest := Join(path[1..], '.');
    assert Join(path, '.') == path[0] + "." + rest;
    if parent != "" {
      assert parent + "." + path[0] + "." + rest == parent + "." + (path[0] + "." + rest);
    }
  }

  /** The key of a list's item, as a step below the parent. */
  lemma ItemStep(parent: string, key: string, i: nat)
    ensures ItemKey(NewKey(parent, ".", key), i) == NewKey(parent, ".", ItemKey(key, i))
  {
    if parent != "" {
      assert parent + "." + key + "[" + Decimal(i) + "]" == parent + "." + (key + "[" + Decimal(i) + "]");
    }
  }

  /** Every flattened key is the dotted path of a leaf, and carries that leaf. */
  lemma {:induction false} FlatSound(fields: seq<Field>, n: nat, parent: string, k: string, lists: bool)
    returns (path: seq<string>)
    requires n <= |fields| && Tidy(fields, n, lists) && k in FlatFields(fields, n, parent, ".")
    ensures LeafAt(fields, n, path, FlatFields(fields, n, parent, ".")[k]) && k == DottedKey(parent, path)
    decreases fields, n
  {
    var f := fields[n - 1];
    if k in FlatField(f, parent, ".") {
      match f.value {
        case Dict(inner) =>
          var rest := FlatSound(inner, |inner|, NewKey(parent, ".", f.key), k, lists);
          path := [f.key] + rest;
          assert path[1..] == rest;
          DottedKeyStep(parent, path);
        case List(items) =>
          path := ItemsSound(items, |items|, parent, f.key, k);
        case Leaf(_) =>
          path := [f.key];
      }
    } else {
      path := FlatSound(fields, n - 1, parent, k, lists);
    }
  }

  lemma {:induction false} ItemsSound(items: seq<Json>, n: nat, parent: string, key: string, k: string)
    returns (path: seq<string>)
    requires n <= |items| && TidyItems(items, n) && key != ""
    requires k in FlatItems(items, n, NewKey(parent, ".", key), ".")
    ensures path != [] && ItemAt(items, n, key, path, FlatItems(items, n, NewKey(parent, ".", key), ".")[k])
    ensures k == DottedKey(parent, path)
    decreases items, n
  {
    var full := ItemKey(NewKey(parent, ".", key), n - 1);
    if k in FlatItem(items[n - 1], full, ".") {
      ItemStep(parent, key, n - 1);
      match items[n - 1] {
        case Dict(inner) =>
          var rest := FlatSound(inner, |inner|, full, k, true);
          path := [ItemKey(key, n - 1)] + rest;
          assert path[1..] == rest;
          DottedKeyStep(parent, path);
        case _ =>
          path := [ItemKey(key, n - 1)];
      }
    } else {
      path := ItemsSound(items, n - 1, parent, key, k);
    }
  }

  /** The dotted path of every leaf is a flattened key and carries the leaf. */
  lemma {:induction false} FlatComplete(fields: seq<Field>, n: nat, parent: string, path: seq<string>, v: Json,
      lists: bool)
    requires n <= |fields| && Tidy(fields, n, lists) && LeafAt(fields, n, path, v)
    ensures DottedKey(parent, path) in FlatFields(fields, n, parent, ".")
    ensures FlatFields(fields, n, parent, ".")[DottedKey(parent, path)] == v
    decreases fields, n
  {
    var f := fields[n - 1];
    if LeafOf(f, path, v) {
      match f.value {
        case Dict(inner) =>
          FlatComplete(inner, |inner|, NewKey(parent, ".", f.key), path[1..], v, lists);
          DottedKeyStep(parent, path);
        case List(items) =>
          ItemsComplete(items, |items|, parent, f.key, path, v);
        case Leaf(_) =>
      }
    } else {
      FlatComplete(fields, n - 1, parent, path, v, lists);
      LastFieldIsNew(fields, n, parent, lists);
    }
  }

  lemma {:induction false} ItemsComplete(items: seq<Json>, n: nat, parent: string, key: string, path: seq<string>,
      v: Json)
    requires n <= |items| && TidyItems(items, n) && key != "" && path != [] && ItemAt(items, n, key, path, v)
    ensures var flat := FlatItems(items, n, NewKey(parent, ".", key), ".");
      DottedKey(parent, path) in flat && flat[DottedKey(parent, path)] == v
    decreases items, n
  {
    var full := NewKey(parent, ".", key);
    if ItemAt(items, n - 1, key, path, v) {
      ItemsComplete(items, n - 1, parent, key, path, v);
      var k := DottedKey(parent, path);
      if k in FlatItem(items[n - 1], ItemKey(full, n - 1), ".") {
        ItemsDoNotCollide(items, n, full, k);
      }
    } else {
      ItemStep(parent, key, n - 1);
      if items[n - 1].Dict? {
        var inner := items[n - 1].fields;
        FlatComplete(inner, |inner|, ItemKey(full, n - 1), path[1..], v, true);
        DottedKeyStep(parent, path);
      }
    }
  }

  // The round trip

  lemma {:induction false} GetIsUnique(fields: seq<Field>, n: nat, i: nat, lists: bool)
    requires i < n <= |fields| && Tidy(fields, n, lists)
    ensures Get(fields, n, fields[i].key) == fields[i].value
    decreases n
  {
    if i < n - 1 {
      GetIsUnique(fields, n - 1, i, lists);
    }
  }

  lemma {:induction false} GetMisses(fields: seq<Field>, n: nat, part: string)
    requires n <= |fields| && Tidy(fields, n, true) && '[' in part
    ensures Get(fields, n, part) == Leaf(Nothing)
  {
    if n > 0 {
      GetMisses(fields, n - 1, part);
    }
  }

  /** A step with a bracket leads nowhere. */
  lemma BracketMisses(fields: seq<Field>, key: string, more: string, digit: char -> Digit)
    requires Tidy(fields, |fields|, true) && '.' !in key
    ensures Follow(Dict(fields), Split(key + "[" + more, '.'), digit) == Found(Leaf(Nothing))
  {
    var parts := Split(key + "[" + more, '.');
    FirstPart(key + "[", more);
    assert (key + "[")[|key|] == '[';
    GetMisses(fields, |fields|, parts[0]);
    if |parts| > 1 {
      assert parts[1..] != [];
    }
  }

  lemma {:induction false} FirstPart(start: string, more: string)
    requires '.' !in start
    ensures start <= Split(start + more, '.')[0]
  {
    if start != "" {
      assert (start + more)[1..] == start[1..] + more;
      FirstPart(start[1..], more);
      assert start == [start[0]] + start[1..];
    }
  }

  /** A key before a dot leads to the field's value, and a key alone is the end. */
  lemma FollowKey(fields: seq<Field>, i: nat, more: string, lists: bool, digit: char -> Digit)
    requires i < |fields| && Tidy(fields, |fields|, lists) && '.' !in fields[i].key
    ensures Follow(Dict(fields), Split(fields[i].key + "." + more, '.'), digit)
         == Follow(fields[i].value, Split(more, '.'), digit)
    ensures Follow(Dict(fields), Split(fields[i].key, '.'), digit) == Found(fields[i].value)
  {
    var key := fields[i].key;
    GetIsUnique(fields, |fields|, i, lists);
    SplitConcat(key, more, '.');
    SplitSolid(key, '.');
    hide Split, Tidy;
    var parts := [key] + Split(more, '.');
    assert parts[1..] == Split(more, '.');
    assert [key][1..] == [];
  }

  /** A flattened key is followed to its value, unless it leads through a list: then to nothing. */
  lemma {:induction false} FollowFlatKey(fields: seq<Field>, n: nat, parent: string, k: string, lists: bool,
      digit: char -> Digit) returns (rest: string)
    requires n <= |fields| && Tidy(fields, |fields|, lists) && Tidy(fields, n, lists)
    requires k in FlatFields(fields, n, parent, ".")
    ensures k == NewKey(parent, ".", rest)
    ensures Follow(Dict(fields), Split(rest, '.'), digit) ==
      if lists && '[' in rest then Found(Leaf(Nothing)) else Found(FlatFields(fields, n, parent, ".")[k])
    decreases fields, n
  {
    hide Split, Follow;
    var f := fields[n - 1];
    if k in FlatField(f, parent, ".") {
      match f.value {
        case Dict(inner) =>
          var more := FollowFlatKey(inner, |inner|, NewKey(parent, ".", f.key), k, lists, digit);
          rest := f.key + "." + more;
          FollowKey(fields, n - 1, more, lists, digit);
          NestedKey(parent, f.key, more);
        case List(items) =>
          var shape := FieldShape(f, parent, k, lists);
          rest := f.key + shape;
          assert rest == f.key + "[" + shape[1..];
          assert rest[|f.key|] == '[';
          BracketMisses(fields, f.key, shape[1..], digit);
        case Leaf(_) =>
          rest := f.key;
          FollowKey(fields, n - 1, "", lists, digit);
      }
    } else {
      rest := FollowFlatKey(fields, n - 1, parent, k, lists, digit);
    }
  }

  lemma NestedKey(parent: string, key: string, more: string)
    requires key != ""
    ensures NewKey(NewKey(parent, ".", key), ".", more) == NewKey(parent, ".", key + "." + more)
  {
    if parent != "" {
      assert parent + "." + key + "." + more == parent + "." + (key + "." + more);
    }
  }

  /** Traversing with a flattened key returns the flattened value, if and only if the key leads
      through no list or the value is null anyway. */
  lemma TraverseUndoesFlatten(d: seq<Field>, key: string, lists: bool, digit: char -> Digit)
    requires Tidy(d, |d|, lists) && key in FlatFields(d, |d|, "", ".")
    ensures Follow(Dict(d), Split(key, '.'), digit) == Found(FlatFields(d, |d|, "", ".")[key]) <==>
      !lists || '[' !in key || FlatFields(d, |d|, "", ".")[key] == Leaf(Nothing)
  {
    var rest := FollowFlatKey(d, |d|, "", key, lists, digit);
  }

  // Inputs

  /** A separator inside a key breaks the round trip: the flattened key is taken apart. */
  lemma DottedKeyIsTakenApart(digit: char -> Digit)
    ensures var d := [Field("a.b", Leaf(Flag(true)))];
      && FlatFields(d, 1, "", ".") == map["a.b" := Leaf(Flag(true))]
      && Follow(Dict(d), Split("a.b", '.'), digit) == Found(Leaf(Nothing))
  {
    var d := [Field("a.b", Leaf(Flag(true)))];
    assert FlatFields(d, 0, "", ".") == map[];
    SplitConcat("a", "b", '.');
    SplitSolid("a", '.');
    SplitSolid("b", '.');
    assert "a" + "." + "b" == "a.b";
    assert Get(d, 1, "a") == Get(d, 0, "a");
    assert Follow(Leaf(Nothing), ["b"], digit) == Found(Leaf(Nothing));
  }

  /** So does an empty key, which leaves no trace in the flattened one. */
  lemma EmptyKeyIsLost(x: Scalar, digit: char -> Digit)
    ensures var d := [Field("", Dict([Field("a", Leaf(x))]))];
      && FlatFields(d, 1, "", ".") == map["a" := Leaf(x)]
      && Follow(Dict(d), Split("a", '.'), digit) == Found(Leaf(Nothing))
  {
    var inner := [Field("a", Leaf(x))];
    var d := [Field("", Dict(inner))];
    assert FlatFields(d, 0, "", ".") == map[] && FlatFields(inner, 0, "", ".") == map[];
    assert FlatFields(inner, 1, "", ".") == map["a" := Leaf(x)];
    SplitSolid("a", '.');
    assert Get(d, 1, "a") == Get(d, 0, "a");
    assert ["a"][1..] == [];
  }

  /** So does a list: the flattened key of an item is no path to it. */
  lemma ListItemIsNotTraversed(x: Scalar, digit: char -> Digit)
    ensures var d := [Field("a", List([Leaf(x)]))];
      && FlatFields(d, 1, "", ".") == map["a[0]" := Leaf(x)]
      && Follow(Dict(d), Split("a[0]", '.'), digit) == Found(Leaf(Nothing))
  {
    var items := [Leaf(x)];
    var d := [Field("a", List(items))];
    assert FlatFields(d, 0, "", ".") == map[] && FlatItems(items, 0, "a", ".") == map[];
    assert ItemKey("a", 0) == "a[0]";
    assert FlatItems(items, 1, "a", ".") == map["a[0]" := Leaf(x)];
    SplitSolid("a[0]", '.');
    assert Get(d, 1, "a[0]") == Get(d, 0, "a[0]");
    assert ["a[0]"][1..] == [];
  }
}
