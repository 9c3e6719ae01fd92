/** Python's `sorted`: a stable sort by a total preorder. Stable insertion sort is
    its functional description; the lemmas fix the result without naming the body. */
module Sorting {

  ghost predicate TotalPreorder<T(!new)>(leq: (T, T) -> bool) {
    && (forall x, y :: leq(x, y) || leq(y, x))
    && (forall x, y, z :: leq(x, y) && leq(y, z) ==> leq(x, z))
  }

  ghost predicate SortedBy<T>(leq: (T, T) -> bool, s: seq<T>) {
    forall i, j :: 0 <= i < j < |s| ==> leq(s[i], s[j])
  }

  /** Elements that compare equal are the same element. */
  ghost predicate Separates<T>(leq: (T, T) -> bool, s: seq<T>) {
    forall x, y :: x in s && y in s && leq(x, y) && leq(y, x) ==> x == y
  }

  /** The place behind the last of the first n elements that does not exceed x. */
  function Place<T>(leq: (T, T) -> bool, s: seq<T>, x: T, n: nat): (k: nat)
    requires n <= |s|
    ensures k <= n
  {
    if n == 0 || leq(s[n - 1], x) then n else Place(leq, s, x, n - 1)
  }

  /** Insertion behind all elements that do not exceed x, so x stays behind its equals. */
  function Insert<T>(leq: (T, T) -> bool, s: seq<T>, x: T): seq<T> {
    var k := Place(leq, s, x, |s|);
    s[..k] + [x] + s[k..]
  }

  function SortTo<T>(leq: (T, T) -> bool, s: seq<T>, n: nat): seq<T>
    requires n <= |s|
  {
    if n == 0 then [] else Insert(leq, SortTo(leq, s, n - 1), s[n - 1])
  }

  function Sort<T>(leq: (T, T) -> bool, s: seq<T>): seq<T> {
    SortTo(leq, s, |s|)
  }

  lemma InsertPermutes<T>(leq: (T, T) -> bool, s: seq<T>, x: T)
    ensures multiset(Insert(leq, s, x)) == multiset(s) + multiset{x}
  {
    var k := Place(leq, s, x, |s|);
    assert s == s[..k] + s[k..];
  }

  lemma {:induction false} SortToPermutes<T>(leq: (T, T) -> bool, s: seq<T>, n: nat)
    requires n <= |s|
    ensures multiset(SortTo(leq, s, n)) == multiset(s[..n])
  {
    hide Insert;
    if n > 0 {
      SortToPermutes(leq, s, n - 1);
      InsertPermutes(leq, SortTo(leq, s, n - 1), s[n - 1]);
      assert s[..n] == s[..n - 1] + [s[n - 1]];
    }
  }

  /** Sorting rearranges. */
  lemma SortPermutes<T>(leq: (T, T) -> bool, s: seq<T>)
    ensures multiset(Sort(leq, s)) == multiset(s)
    ensures |Sort(leq, s)| == |s|
  {
    SortToPermutes(leq, s, |s|);
    assert s[..|s|] == s;
    assert |multiset(Sort(leq, s))| == |multiset(s)|;
  }

  lemma {:induction false} PlaceSplits<T(!new)>(leq: (T, T) -> bool, s: seq<T>, x: T, n: nat)
    requires TotalPreorder(leq) && SortedBy(leq, s) && n <= |s|
    ensures var k := Place(leq, s, x, n);
      && (forall i :: 0 <= i < k ==> leq(s[i], x))
      && (forall i :: k <= i < n ==> leq(x, s[i]) && !leq(s[i], x))
  {
    if n > 0 {
      if leq(s[n - 1], x) {
        forall i | 0 <= i < n ensures leq(s[i], x) {
          assert leq(s[i], s[n - 1]);
        }
      } else {
        PlaceSplits(leq, s, x, n - 1);
      }
    }
  }

  lemma {:induction false} SortToSorts<T(!new)>(leq: (T, T) -> bool, s: seq<T>, n: nat)
    requires TotalPreorder(leq) && n <= |s|
    ensures SortedBy(leq, SortTo(leq, s, n))
  {
    if n > 0 {
      SortToSorts(leq, s, n - 1);
      PlaceSplits(leq, SortTo(leq, s, n - 1), s[n - 1], |SortTo(leq, s, n - 1)|);
    }
  }

  lemma SortSorts<T(!new)>(leq: (T, T) -> bool, s: seq<T>)
    requires TotalPreorder(leq)
    ensures SortedBy(leq, Sort(leq, s))
  {
    SortToSorts(leq, s, |s|);
  }

  lemma SortedLast<T(!new)>(leq: (T, T) -> bool, a: seq<T>, b: seq<T>)
    requires SortedBy(leq, a) && SortedBy(leq, b) && Separates(leq, a)
    requires a != [] && b != [] && multiset(a) == multiset(b)
    requires forall x :: leq(x, x)
    ensures a[|a| - 1] == b[|b| - 1]
  {
    var x, y := a[|a| - 1], b[|b| - 1];
    assert x in multiset(b) && y in multiset(a);
    var i :| 0 <= i < |b| && b[i] == x;
    var j :| 0 <= j < |a| && a[j] == y;
    assert leq(x, y) && leq(y, x);
  }

  lemma SameLength<T>(a: seq<T>, b: seq<T>)
    requires multiset(a) == multiset(b)
    ensures |a| == |b|
  {
    assert |a| == |multiset(a)| && |b| == |multiset(b)|;
  }

  lemma DropLast<T>(s: seq<T>)
    requires s != []
    ensures multiset(s[..|s| - 1]) == multiset(s) - multiset{s[|s| - 1]}
    ensures s == s[..|s| - 1] + [s[|s| - 1]]
  {
    assert s == s[..|s| - 1] + [s[|s| - 1]];
  }

  /** When equal-comparing elements are identical, the sorted arrangement of a multiset is unique. */
  lemma {:induction false} SortedUnique<T(!new)>(leq: (T, T) -> bool, a: seq<T>, b: seq<T>)
    requires SortedBy(leq, a) && SortedBy(leq, b) && Separates(leq, a)
    requires multiset(a) == multiset(b)
    requires forall x :: leq(x, x)
    ensures a == b
  {
    hide SortedBy, Separates;
    SameLength(a, b);
    if a != [] {
      var n := |a| - 1;
      DropLast(a);
      DropLast(b);
      SortedLast(leq, a, b);
      InitSorted(leq, a);
      InitSorted(leq, b);
      SortedUnique(leq, a[..n], b[..n]);
    }
  }

  lemma InitSorted<T(!new)>(leq: (T, T) -> bool, a: seq<T>)
    requires SortedBy(leq, a) && a != []
    ensures SortedBy(leq, a[..|a| - 1])
    ensures Separates(leq, a) ==> Separates(leq, a[..|a| - 1])
  {
    assert forall y :: y in a[..|a| - 1] ==> y in a;
  }

  lemma RepeatCounts<T(!new)>(s: seq<T>, i: nat, j: nat)
    requires i < j < |s| && s[i] == s[j]
    ensures multiset(s)[s[i]] >= 2
  {
    assert s == s[..j] + s[j..];
    assert s[i] in s[..j] && s[i] in s[j..];
  }

  // Strings

  /** Python's order on strings, by code points. */
  predicate StringLeq(a: string, b: string) {
    if a == [] then true
    else if b == [] then false
    else if a[0] != b[0] then a[0] < b[0]
    else StringLeq(a[1..], b[1..])
  }

  /** At the first difference the smaller character decides, and a prefix comes first. */
  lemma {:induction false} StringLeqIff(a: string, b: string)
    ensures StringLeq(a, b) <==> a <= b || exists i :: 0 <= i < |a| && i < |b| && a[..i] == b[..i] && a[i] < b[i]
  {
    if a != [] && b != [] {
      var s, t := a[1..], b[1..];
      StringLeqIff(s, t);
      if a[0] == b[0] {
        assert a == [a[0]] + s && b == [b[0]] + t;
        if i :| 0 <= i < |s| && i < |t| && s[..i] == t[..i] && s[i] < t[i] {
          assert a[..i + 1] == [a[0]] + s[..i] && b[..i + 1] == [b[0]] + t[..i] && a[i + 1] == s[i] && b[i + 1] == t[i];
        }
        if i :| 0 <= i < |a| && i < |b| && a[..i] == b[..i] && a[i] < b[i] {
          assert i > 0 && s[..i - 1] == a[..i][1..] && t[..i - 1] == b[..i][1..] && s[i - 1] < t[i - 1];
        }
      } else {
        assert a[..0] == b[..0];
        forall i | 0 < i < |a| && i < |b| ensures a[..i] != b[..i] {
          assert a[..i][0] == a[0] && b[..i][0] == b[0];
        }
      }
    }
  }

  lemma {:induction false} StringTotal(a: string, b: string)
    ensures StringLeq(a, b) || StringLeq(b, a)
    ensures StringLeq(a, b) && StringLeq(b, a) ==> a == b
  {
    if a != [] && b != [] {
      StringTotal(a[1..], b[1..]);
      if a[0] == b[0] {
        assert a == [a[0]] + a[1..] && b == [b[0]] + b[1..];
      }
    }
  }

  lemma {:induction false} StringTransitive(a: string, b: string, c: string)
    requires StringLeq(a, b) && StringLeq(b, c)
    ensures StringLeq(a, c)
  {
    if a != [] && b != [] && c != [] && a[0] == b[0] == c[0] {
      StringTransitive(a[1..], b[1..], c[1..]);
    }
  }

  lemma StringOrder()
    ensures TotalPreorder(StringLeq)
  {
    forall x, y ensures StringLeq(x, y) || StringLeq(y, x) {
      StringTotal(x, y);
    }
    forall x, y, z | StringLeq(x, y) && StringLeq(y, z) ensures StringLeq(x, z) {
      StringTransitive(x, y, z);
    }
  }
}
