/** The lease path check at the worker boundary: a prefix test on normalised path strings, against
    a prefix test on path components (POSIX separators). */
module LeasePath {
  import opened Splitting

  /** A normalised path: none, one or two leading slashes, and its components. */
  datatype NormPath = NormPath(lead: nat, comps: seq<string>) {
    ghost predicate Valid() {
      && lead <= 2
      && forall c :: c in comps ==> c != "" && c != "." && '/' !in c
    }

    /** The string `os.path.normpath` returns. */
    function Render(): string {
      if lead == 0 && comps == [] then "." else Slashes(lead) + Join(comps, '/')
    }
  }

  function Slashes(n: nat): string {
    if n == 0 then "" else Slashes(n - 1) + "/"
  }

  /** `norm_target == norm_allowed or norm_target.startswith(norm_allowed + os.sep)`. */
  predicate Matches(allowed: NormPath, target: NormPath) {
    target.Render() == allowed.Render() || allowed.Render() + "/" <= target.Render()
  }

  /** The loop over the allowed paths. */
  method PathAllowed(target: NormPath, allowedPaths: seq<NormPath>) returns (pathOk: bool)
    requires target.Valid() && forall a :: a in allowedPaths ==> a.Valid()
    ensures pathOk <==> exists a :: a in allowedPaths && Covers(a, target)
  {
    hide Covers, Matches, NormPath.Valid;
    pathOk := false;
    var i := 0;
    while i < |allowedPaths|
      invariant 0 <= i <= |allowedPaths|
      invariant !pathOk && forall k :: 0 <= k < i ==> !Covers(allowedPaths[k], target)
    {
      assert allowedPaths[i] in allowedPaths;
      MatchesIffCovers(allowedPaths[i], target);
      if Matches(allowedPaths[i], target) {
        pathOk := true;
        break;
      }
      i := i + 1;
    }
  }

  /** The components of the allowed path begin those of the target. Without components, an allowed
      path covers itself only, and the root also covers the paths with two leading slashes. */
  ghost predicate Covers(allowed: NormPath, target: NormPath) {
    || allowed == target
    || (allowed.comps != [] && allowed.lead == target.lead && allowed.comps <= target.comps)
    || (allowed == NormPath(1, []) && target.lead == 2)
  }

  /** The parts of a rendered path: an empty part per leading slash, then the components. */
  function Parts(p: NormPath): seq<string> {
    if p.comps != [] then Blanks(p.lead) + p.comps
    else if p.lead == 0 then ["."] else Blanks(p.lead + 1)
  }

  function Blanks(n: nat): (r: seq<string>)
    ensures |r| == n && forall i :: 0 <= i < n ==> r[i] == ""
  {
    if n == 0 then [] else Blanks(n - 1) + [""]
  }

  lemma SplitLead(n: nat, s: string)
    ensures Split(Slashes(n) + s, '/') == Blanks(n) + Split(s, '/')
    decreases n
  {
    if n == 0 {
      assert Slashes(0) + s == s;
    } else {
      assert Slashes(n) + s == Slashes(n - 1) + ("/" + s);
      SplitLead(n - 1, "/" + s);
      assert ("/" + s)[1..] == s;
    }
  }

  lemma SplitRender(p: NormPath)
    requires p.Valid()
    ensures Split(p.Render(), '/') == Parts(p)
  {
    if p.comps != [] {
      SplitLead(p.lead, Join(p.comps, '/'));
      SplitJoin(p.comps, '/');
    } else if p.lead > 0 {
      SplitLead(p.lead, "");
      assert Blanks(p.lead) + [""] == Blanks(p.lead + 1);
    } else {
      SplitSolid(".", '/');
    }
  }

  lemma PartsFacts(p: NormPath)
    requires p.Valid()
    ensures |Parts(p)| == if p.comps != [] then p.lead + |p.comps| else if p.lead == 0 then 1 else p.lead + 1
    ensures forall i :: 0 <= i < p.lead ==> Parts(p)[i] == ""
    ensures p.comps != [] ==> Parts(p)[p.lead..] == p.comps && Parts(p)[p.lead] != "" && Parts(p)[p.lead] != "."
    ensures p.comps == [] ==> Parts(p)[p.lead] == if p.lead == 0 then "." else ""
  {
    if p.comps != [] {
      assert p.comps[0] in p.comps;
      assert Parts(p)[p.lead] == p.comps[0];
    }
  }

  lemma FewerSlashesDiffer(a: NormPath, t: NormPath)
    requires a.Valid() && t.Valid() && a.lead < t.lead
    ensures Parts(a) != Parts(t)
  {
    PartsFacts(a);
    PartsFacts(t);
    assert Parts(t)[a.lead] == "";
  }

  lemma PartsInjective(a: NormPath, t: NormPath)
    requires a.Valid() && t.Valid() && Parts(a) == Parts(t)
    ensures a == t
  {
    PartsFacts(a);
    PartsFacts(t);
    if a.lead < t.lead {
      FewerSlashesDiffer(a, t);
    } else if t.lead < a.lead {
      FewerSlashesDiffer(t, a);
    }
  }

  lemma PrefixedPartsSameLead(a: NormPath, t: NormPath)
    requires a.Valid() && t.Valid() && a.comps != [] && a.lead != t.lead
    ensures !(Parts(a) < Parts(t))
  {
    PartsFacts(a);
    PartsFacts(t);
    if a.lead < t.lead {
      assert Parts(t)[a.lead] != Parts(a)[a.lead];
    } else {
      assert Parts(a)[t.lead] == "";
      assert t.comps == [] ==> |Parts(t)| <= |Parts(a)|;
    }
  }

  lemma SamePrefixedParts(a: NormPath, t: NormPath)
    requires a.Valid() && t.Valid() && a.comps != []
    ensures Parts(a) < Parts(t) <==> a.lead == t.lead && a.comps < t.comps
  {
    PartsFacts(a);
    PartsFacts(t);
    var x, y := Parts(a), Parts(t);
    if a.lead != t.lead {
      PrefixedPartsSameLead(a, t);
    } else {
      assert x == Blanks(a.lead) + a.comps;
      if x < y {
        assert a.comps == x[a.lead..] && |y| > a.lead + 1;
        assert y[a.lead] == x[a.lead];
        assert t.comps == y[a.lead..];
      }
      if a.comps < t.comps {
        assert y == Blanks(a.lead) + t.comps;
      }
    }
  }

  lemma BarePrefixedParts(a: NormPath, t: NormPath)
    requires a.Valid() && t.Valid() && a.comps == []
    ensures Parts(a) < Parts(t) <==> a.lead == 1 && t.lead == 2
  {
    PartsFacts(a);
    PartsFacts(t);
    var x, y := Parts(a), Parts(t);
    if x < y {
      assert forall i :: 0 <= i < |x| ==> y[i] == x[i];
      assert y[a.lead] == x[a.lead];
      assert t.lead >= a.lead;
    }
    if a.lead == 1 && t.lead == 2 {
      assert x == ["", ""] && |y| >= 3 && y[0] == "" && y[1] == "";
    }
  }

  /** For all normalised paths the string test accepts exactly the covered targets. */
  lemma MatchesIffCovers(allowed: NormPath, target: NormPath)
    requires allowed.Valid() && target.Valid()
    ensures Matches(allowed, target) <==> Covers(allowed, target)
  {
    SplitRender(allowed);
    SplitRender(target);
    StartsWithIffParts(allowed.Render(), target.Render(), '/');
    if target.Render() == allowed.Render() {
      PartsInjective(allowed, target);
    }
    if allowed.comps != [] {
      SamePrefixedParts(allowed, target);
      assert allowed.comps <= target.comps <==> allowed.comps < target.comps || allowed.comps == target.comps;
    } else {
      BarePrefixedParts(allowed, target);
    }
  }

  /** For an absolute allowed path below the root the test is a component prefix test; a sibling
      whose name merely begins with the allowed name is rejected. */
  lemma BelowRootIsComponentPrefix(allowed: NormPath, target: NormPath)
    requires allowed.Valid() && target.Valid() && allowed.lead == 1 && target.lead == 1 && allowed.comps != []
    ensures Matches(allowed, target) <==> allowed.comps <= target.comps
    ensures Matches(allowed, target) ==> target.comps[|allowed.comps| - 1] == allowed.comps[|allowed.comps| - 1]
  {
    MatchesIffCovers(allowed, target);
  }

  /** A lease on the root directory does not cover what lies below it. */
  lemma RootCoversItselfOnly(target: NormPath)
    requires target.Valid() && target.lead == 1
    ensures Matches(NormPath(1, []), target) <==> target == NormPath(1, [])
  {
    MatchesIffCovers(NormPath(1, []), target);
  }

  // What lies below a path

  /** How many ".." begin the components. */
  function Ups(comps: seq<string>): (n: nat)
    ensures n <= |comps|
  {
    if comps == [] || comps[0] != ".." then 0 else 1 + Ups(comps[1..])
  }

  /** A path as `os.path.normpath` leaves it: ".." occurs only at the head of a relative path. */
  ghost predicate Normal(p: NormPath) {
    && p.Valid()
    && (p.lead > 0 ==> Ups(p.comps) == 0)
    && forall i :: Ups(p.comps) <= i < |p.comps| ==> p.comps[i] != ".."
  }

  function Names(p: NormPath): seq<string> {
    p.comps[Ups(p.comps)..]
  }

  /** The target lies below the path, as far as the two texts tell: it goes up equally far and further
      down, or the path only goes up, and further than the target. */
  ghost predicate LiesBelow(p: NormPath, target: NormPath) {
    && p.lead == target.lead
    && if Ups(p.comps) == Ups(target.comps) then Names(p) < Names(target)
       else Ups(target.comps) < Ups(p.comps) && Names(p) == []
  }

  lemma {:induction false} UpsOfPrefix(a: seq<string>, t: seq<string>)
    requires a <= t && Ups(a) < |a|
    ensures Ups(t) == Ups(a)
  {
    if a[0] == ".." {
      assert a[1..] <= t[1..];
      UpsOfPrefix(a[1..], t[1..]);
    }
  }

  lemma {:induction false} UpsAreEqual(a: seq<string>, t: seq<string>, i: nat)
    requires i < Ups(a) <= Ups(t)
    ensures a[i] == t[i] == ".."
  {
    if i > 0 {
      UpsAreEqual(a[1..], t[1..], i - 1);
    }
  }

  /** For a path that ends in a name, what lies below it extends its components. */
  lemma BelowNameIff(allowed: NormPath, t: NormPath)
    requires Normal(allowed) && Normal(t) && Names(allowed) != []
    ensures LiesBelow(allowed, t) <==> allowed.lead == t.lead && allowed.comps < t.comps
  {
    var a, u := allowed.comps, Ups(allowed.comps);
    if allowed.comps < t.comps {
      UpsOfPrefix(a, t.comps);
      assert Names(t)[..|a| - u] == Names(allowed);
    }
    if LiesBelow(allowed, t) {
      assert Ups(t.comps) == u;
      forall i | 0 <= i < |a| ensures a[i] == t.comps[i] {
        if i < u {
          UpsAreEqual(a, t.comps, i);
        } else {
          assert Names(allowed)[i - u] == a[i] && Names(t)[i - u] == t.comps[i];
        }
      }
    }
  }

  /** A lease accepts exactly its path and what lies below it. */
  ghost predicate Contains(allowed: NormPath) {
    forall t | Normal(t) :: Matches(allowed, t) <==> t == allowed || LiesBelow(allowed, t)
  }

  /** It does, if and only if its path ends in a name: a lease on the root, on the working directory
      or on a directory above it does not. */
  lemma ContainsIff(allowed: NormPath)
    requires Normal(allowed)
    ensures Contains(allowed) <==> allowed.comps != [] && allowed.comps[|allowed.comps| - 1] != ".."
  {
    NamesIff(allowed);
    if Names(allowed) != [] {
      forall t | Normal(t) ensures Matches(allowed, t) <==> t == allowed || LiesBelow(allowed, t) {
        MatchesIffCovers(allowed, t);
        BelowNameIff(allowed, t);
      }
    } else {
      var t := if allowed.comps == [] then NormPath(allowed.lead, ["a"]) else NormPath(allowed.lead, []);
      assert Ups(t.comps) == 0 && Normal(t) && LiesBelow(allowed, t);
      MatchesIffCovers(allowed, t);
    }
  }

  lemma NamesIff(p: NormPath)
    requires Normal(p)
    ensures Names(p) != [] <==> p.comps != [] && p.comps[|p.comps| - 1] != ".."
  {
    if Names(p) == [] && p.comps != [] {
      UpsAreEqual(p.comps, p.comps, |p.comps| - 1);
    }
  }

  /** A lease on ".." rejects "a", which lies below it, and accepts "../..", which lies above it. */
  lemma ParentLeaseIsMisread()
    ensures var up, file, above := NormPath(0, [".."]), NormPath(0, ["a"]), NormPath(0, ["..", ".."]);
      && Normal(up) && Normal(file) && Normal(above)
      && LiesBelow(up, file) && !Matches(up, file)
      && LiesBelow(above, up) && Matches(up, above)
  {
    var up, file, above := NormPath(0, [".."]), NormPath(0, ["a"]), NormPath(0, ["..", ".."]);
    assert up.comps[1..] == [] && Ups(up.comps) == 1;
    assert above.comps[1..] == [".."] && Ups(above.comps) == 2;
    MatchesIffCovers(up, file);
    MatchesIffCovers(up, above);
  }

  /** Leases on "/" and on "." reject "/a" and "a". */
  lemma RootLeaseRejectsFile()
    ensures var root, below := NormPath(1, []), NormPath(1, ["a"]);
      root.Valid() && below.Valid() && root.Render() == "/" && below.Render() == "/a" && !Matches(root, below)
    ensures var here, below := NormPath(0, []), NormPath(0, ["a"]);
      here.Valid() && below.Valid() && here.Render() == "." && below.Render() == "a" && !Matches(here, below)
  {
    assert Slashes(1) == "/" + Slashes(0) == "/";
    assert NormPath(1, []).Render() == "/" && NormPath(1, ["a"]).Render() == "/a";
    assert "//"[1] != "/a"[1];
  }
}
