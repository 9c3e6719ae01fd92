/** Strings cut at a separator character and joined again: `split` and `join`. */
module Splitting {

  function Join(parts: seq<string>, sep: char): string {
    if parts == [] then ""
    else if |parts| == 1 then parts[0]
    else parts[0] + [sep] + Join(parts[1..], sep)
  }

  function Split(s: string, sep: char): (parts: seq<string>)
    ensures parts != []
  {
    if s == "" then [""]
    else
      var rest := Split(s[1..], sep);
      if s[0] == sep then [""] + rest else [[s[0]] + rest[0]] + rest[1..]
  }

  lemma {:induction false} JoinSplit(s: string, sep: char)
    ensures Join(Split(s, sep), sep) == s
  {
    if s != "" {
      var rest := Split(s[1..], sep);
      JoinSplit(s[1..], sep);
      var parts := Split(s, sep);
      assert parts[1..] == if s[0] == sep then rest else rest[1..];
      assert s == [s[0]] + s[1..];
    }
  }

  lemma SplitPrepend(c: char, s: string, sep: char)
    ensures var rest := Split(s, sep);
      Split([c] + s, sep) == if c == sep then [""] + rest else [[c] + rest[0]] + rest[1..]
  {
    assert ([c] + s)[1..] == s;
  }

  lemma SplitPrependConcat(c: char, tail: string, whole: string, more: seq<string>, sep: char)
    requires Split(whole, sep) == Split(tail, sep) + more
    ensures Split([c] + whole, sep) == Split([c] + tail, sep) + more
  {
    hide Split;
    SplitPrepend(c, whole, sep);
    SplitPrepend(c, tail, sep);
  }

  lemma {:induction false} SplitConcat(r: string, u: string, sep: char)
    ensures Split(r + [sep] + u, sep) == Split(r, sep) + Split(u, sep)
  {
    if r == "" {
      assert r + [sep] + u == [sep] + u && ([sep] + u)[1..] == u;
    } else {
      hide Split;
      var tail := r[1..];
      SplitConcat(tail, u, sep);
      SplitPrependConcat(r[0], tail, tail + [sep] + u, Split(u, sep), sep);
      assert r == [r[0]] + tail && r + [sep] + u == [r[0]] + (tail + [sep] + u);
    }
  }

  lemma {:induction false} JoinConcat(a: seq<string>, b: seq<string>, sep: char)
    requires a != [] && b != []
    ensures Join(a + b, sep) == Join(a, sep) + [sep] + Join(b, sep)
    decreases |a|
  {
    if |a| == 1 {
      assert (a + b)[1..] == b;
    } else {
      JoinConcat(a[1..], b, sep);
      assert (a + b)[1..] == a[1..] + b;
      assert a[0] + [sep] + (Join(a[1..], sep) + [sep] + Join(b, sep))
          == a[0] + [sep] + Join(a[1..], sep) + [sep] + Join(b, sep);
    }
  }

  /** Beginning with r and a separator is having the parts of r as a proper prefix. */
  lemma StartsWithIffParts(r: string, t: string, sep: char)
    ensures r + [sep] <= t <==> Split(r, sep) < Split(t, sep)
  {
    if r + [sep] <= t {
      var u := t[|r| + 1..];
      assert t == r + [sep] + u;
      SplitConcat(r, u, sep);
    }
    if Split(r, sep) < Split(t, sep) {
      var rest := Split(t, sep)[|Split(r, sep)|..];
      assert Split(t, sep) == Split(r, sep) + rest;
      JoinConcat(Split(r, sep), rest, sep);
      JoinSplit(r, sep);
      JoinSplit(t, sep);
    }
  }

  lemma {:induction false} SplitSolid(c: string, sep: char)
    requires sep !in c
    ensures Split(c, sep) == [c]
  {
    if c != "" {
      assert c == [c[0]] + c[1..];
      SplitSolid(c[1..], sep);
    }
  }

  /** Splitting undoes joining. */
  lemma {:induction false} SplitJoin(parts: seq<string>, sep: char)
    requires parts != [] && forall c :: c in parts ==> sep !in c
    ensures Split(Join(parts, sep), sep) == parts
    decreases |parts|
  {
    SplitSolid(parts[0], sep);
    if |parts| > 1 {
      SplitJoin(parts[1..], sep);
      SplitConcat(parts[0], Join(parts[1..], sep), sep);
    }
    assert parts == [parts[0]] + parts[1..];
  }
}
