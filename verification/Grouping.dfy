/** Sorted distinct labels, and sums shared out over them. */
module Grouping {
  import opened Sorting
  import opened Statistics

  // `sorted(set(labels))`

  ghost predicate Distinct<T(!new)>(s: seq<T>) {
    forall i, j :: 0 <= i < j < |s| ==> s[i] != s[j]
  }

  /** The first occurrences among the first n labels, in order. */
  function FirstsTo<T(==)>(labels: seq<T>, n: nat): seq<T>
    requires n <= |labels|
  {
    if n == 0 then []
    else
      var r := FirstsTo(labels, n - 1);
      if labels[n - 1] in r then r else r + [labels[n - 1]]
  }

  lemma {:induction false} FirstsOnce<T(!new)>(labels: seq<T>, n: nat)
    requires n <= |labels|
    ensures Distinct(FirstsTo(labels, n)) && forall x :: x in FirstsTo(labels, n) <==> x in labels[..n]
  {
    if n > 0 {
      FirstsOnce(labels, n - 1);
      assert labels[..n] == labels[..n - 1] + [labels[n - 1]];
    }
  }

  function SortedSet(labels: seq<string>): seq<string> {
    Sort(StringLeq, FirstsTo(labels, |labels|))
  }

  lemma {:induction false} DistinctCounts<T(!new)>(s: seq<T>, x: T)
    requires Distinct(s)
    ensures multiset(s)[x] == if x in s then 1 else 0
  {
    if s != [] {
      var t := s[..|s| - 1];
      DropLast(s);
      DistinctCounts(t, x);
    }
  }

  lemma SamePermutation<T(!new)>(s: seq<T>, t: seq<T>)
    requires multiset(s) == multiset(t) && Distinct(s)
    ensures Distinct(t) && forall x :: x in t <==> x in s
  {
    forall x ensures x in t <==> x in s {
      assert x in t <==> x in multiset(t);
    }
    forall i, j | 0 <= i < j < |t| ensures t[i] != t[j] {
      if t[i] == t[j] {
        RepeatCounts(t, i, j);
        DistinctCounts(s, t[i]);
        assert false;
      }
    }
  }

  /** Each label occurs once, in ascending order. */
  lemma SortedSetSorts(labels: seq<string>)
    ensures SortedBy(StringLeq, SortedSet(labels)) && Distinct(SortedSet(labels))
    ensures forall x :: x in SortedSet(labels) <==> x in labels
  {
    var firsts := FirstsTo(labels, |labels|);
    FirstsOnce(labels, |labels|);
    assert labels[..|labels|] == labels;
    StringOrder();
    SortSorts(StringLeq, firsts);
    SortPermutes(StringLeq, firsts);
    SamePermutation(firsts, SortedSet(labels));
  }

  /** The order in which a set is enumerated does not matter to `sorted`. */
  lemma SortedSetUnique(labels: seq<string>, s: seq<string>)
    requires SortedBy(StringLeq, s) && Distinct(s) && forall x :: x in s <==> x in labels
    ensures s == SortedSet(labels)
  {
    hide StringLeq;
    var t := SortedSet(labels);
    SortedSetSorts(labels);
    forall x ensures multiset(s)[x] == multiset(t)[x] {
      DistinctCounts(s, x);
      DistinctCounts(t, x);
    }
    assert multiset(s) == multiset(t);
    StringOrder();
    forall x, y | x in s && y in s && StringLeq(x, y) && StringLeq(y, x) ensures x == y {
      StringTotal(x, y);
    }
    SortedUnique(StringLeq, s, t);
  }

  lemma SingletonSet(x: string)
    ensures SortedSet([x]) == [x]
  {
    assert FirstsTo([x], 0) == [] && FirstsTo([x], 1) == [x];
    assert SortTo(StringLeq, [x], 0) == [];
    assert Insert(StringLeq, [], x) == [x];
  }

  // Shares

  /** The weight of the first n items labelled k. */
  function Share<K(==)>(labels: seq<K>, w: seq<real>, k: K, n: nat): real
    requires n <= |labels| && n <= |w|
  {
    if n == 0 then 0.0 else Share(labels, w, k, n - 1) + if labels[n - 1] == k then w[n - 1] else 0.0
  }

  /** The shares of the first m keys. */
  function Shares<K(==)>(labels: seq<K>, w: seq<real>, keys: seq<K>, m: nat, n: nat): real
    requires n <= |labels| && n <= |w| && m <= |keys|
  {
    if m == 0 then 0.0 else Shares(labels, w, keys, m - 1, n) + Share(labels, w, keys[m - 1], n)
  }

  lemma {:induction false} SharesOfNothing<K>(labels: seq<K>, w: seq<real>, keys: seq<K>, m: nat)
    requires m <= |keys|
    ensures Shares(labels, w, keys, m, 0) == 0.0
  {
    if m > 0 {
      SharesOfNothing(labels, w, keys, m - 1);
    }
  }

  lemma {:induction false} SharesGrow<K(!new)>(labels: seq<K>, w: seq<real>, keys: seq<K>, m: nat, n: nat)
    requires 0 < n <= |labels| && n <= |w| && m <= |keys| && Distinct(keys)
    ensures Shares(labels, w, keys, m, n)
      == Shares(labels, w, keys, m, n - 1) + if labels[n - 1] in keys[..m] then w[n - 1] else 0.0
  {
    if m > 0 {
      SharesGrow(labels, w, keys, m - 1, n);
      assert keys[..m] == keys[..m - 1] + [keys[m - 1]];
    }
  }

  /** Sharing out over distinct keys that cover all labels loses nothing. */
  lemma {:induction false} SharesConserve<K(!new)>(labels: seq<K>, w: seq<real>, keys: seq<K>, n: nat)
    requires n <= |labels| && n <= |w| && Distinct(keys) && forall i :: 0 <= i < n ==> labels[i] in keys
    ensures Shares(labels, w, keys, |keys|, n) == SumTo(w, n)
  {
    if n == 0 {
      SharesOfNothing(labels, w, keys, |keys|);
    } else {
      SharesConserve(labels, w, keys, n - 1);
      SharesGrow(labels, w, keys, |keys|, n);
      assert keys[..|keys|] == keys;
    }
  }

  /** The weights of the items labelled k; the others count nothing. */
  function Masked<K(==)>(labels: seq<K>, w: seq<real>, k: K): (r: seq<real>)
    requires |labels| == |w|
    ensures |r| == |w| && forall i :: 0 <= i < |w| ==> r[i] == if labels[i] == k then w[i] else 0.0
  {
    seq(|w|, i requires 0 <= i < |w| => if labels[i] == k then w[i] else 0.0)
  }

  lemma {:induction false} MaskedWeight<K>(labels: seq<K>, w: seq<real>, k: K, n: nat)
    requires n <= |labels| == |w|
    ensures SumTo(Masked(labels, w, k), n) == Share(labels, w, k, n)
  {
    if n > 0 {
      MaskedWeight(labels, w, k, n - 1);
    }
  }
}
