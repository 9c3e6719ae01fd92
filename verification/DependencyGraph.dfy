/** The import-cycle finder: a depth-first search with a persistent visited set, a path
    stack, a list of recorded cycles, and a deduplication pass over sorted node lists. */
module DependencyGraph {
  import opened Sorting

  /** A dotted module name. */
  datatype Name = Name(text: string)

  /** A Python dict from module name to imported names: `order` is its insertion order.
      A name may occur as a neighbour without being a key. */
  datatype Graph = Graph(order: seq<Name>, adj: map<Name, seq<Name>>) {
    ghost predicate Valid() {
      forall n :: n in order <==> n in adj
    }

    function Neighbours(n: Name): seq<Name> {
      if n in adj then adj[n] else []
    }

    ghost function Nodes(): set<Name> {
      (set n | n in order) + (set k, v | k in adj && v in adj[k] :: v)
    }
  }

  ghost predicate Edge(g: Graph, u: Name, v: Name) {
    v in g.Neighbours(u)
  }

  ghost predicate Walk(g: Graph, w: seq<Name>) {
    forall i, j :: 0 <= i && j == i + 1 && j < |w| ==> Edge(g, w[i], w[j])
  }

  ghost predicate ClosedWalk(g: Graph, w: seq<Name>) {
    |w| >= 2 && w[0] == w[|w| - 1] && Walk(g, w)
  }

  ghost predicate Acyclic(g: Graph) {
    forall w :: !ClosedWalk(g, w)
  }

  /** A closed walk whose nodes are distinct apart from the repeated end. */
  ghost predicate SimpleCycle(g: Graph, c: seq<Name>) {
    ClosedWalk(g, c) && forall i, j :: 0 <= i < j < |c| - 1 ==> c[i] != c[j]
  }

  /** The last edge of every listed cycle. */
  ghost function ClosingEdges(cycles: seq<seq<Name>>): set<(Name, Name)> {
    if cycles == [] then {}
    else
      var c := cycles[|cycles| - 1];
      ClosingEdges(cycles[..|cycles| - 1]) + if |c| >= 2 then {(c[|c| - 2], c[|c| - 1])} else {}
  }

  /** Every closed walk of the graph runs through the closing edge of a listed cycle:
      deleting those edges leaves no directed cycle. */
  ghost predicate BreaksAllCycles(g: Graph, cycles: seq<seq<Name>>) {
    forall w :: ClosedWalk(g, w) ==> exists i :: 0 <= i < |w| - 1 && (w[i], w[i + 1]) in ClosingEdges(cycles)
  }

  /** `list.index`, or the length when x is absent. */
  function Index(s: seq<Name>, x: Name): (r: nat)
    ensures r <= |s|
    ensures r < |s| ==> s[r] == x
    ensures forall k :: 0 <= k < r ==> s[k] != x
    ensures r < |s| <==> x in s
  {
    if s == [] then 0
    else if s[0] == x then 0
    else
      var r := 1 + Index(s[1..], x);
      assert forall k :: 1 <= k < r ==> s[k] == s[1..][k - 1];
      r
  }

  /** The nodes of s are numbered, in strictly increasing order. */
  ghost predicate Increasing(s: seq<Name>, number: map<Name, nat>) {
    && (forall i :: 0 <= i < |s| ==> s[i] in number)
    && (forall i, j :: 0 <= i < j < |s| ==> number[s[i]] < number[s[j]])
  }

  /** All numbers handed out so far are below the clock. */
  ghost predicate Before(number: map<Name, nat>, clock: nat) {
    forall n :: n in number ==> number[n] < clock
  }

  /** Every edge out of a finished node leads to a node finished earlier or was recorded. */
  ghost predicate FinishedEdges(g: Graph, post: map<Name, nat>, closing: set<(Name, Name)>) {
    forall u, v {:trigger Edge(g, u, v)} :: u in post && Edge(g, u, v) ==>
      (v in post && post[v] < post[u]) || (u, v) in closing
  }

  /** A recorded cycle: a closed walk that visits its nodes in the order of their first visits. */
  ghost predicate Recorded(g: Graph, c: seq<Name>, pre: map<Name, nat>) {
    ClosedWalk(g, c) && Increasing(c[..|c| - 1], pre)
  }

  ghost predicate AllRecorded(g: Graph, cycles: seq<seq<Name>>, pre: map<Name, nat>) {
    cycles == [] || (Recorded(g, cycles[|cycles| - 1], pre) && AllRecorded(g, cycles[..|cycles| - 1], pre))
  }

  lemma {:induction false} AllRecordedMember(g: Graph, cycles: seq<seq<Name>>, pre: map<Name, nat>, c: seq<Name>)
    requires AllRecorded(g, cycles, pre) && c in cycles
    ensures Recorded(g, c, pre)
  {
    assert cycles == cycles[..|cycles| - 1] + [cycles[|cycles| - 1]];
    if c != cycles[|cycles| - 1] {
      AllRecordedMember(g, cycles[..|cycles| - 1], pre, c);
    }
  }

  lemma {:induction false} AllRecordedExtend(g: Graph, cycles: seq<seq<Name>>, pre: map<Name, nat>, n: Name, k: nat)
    requires AllRecorded(g, cycles, pre) && n !in pre
    ensures AllRecorded(g, cycles, pre[n := k])
  {
    if cycles != [] {
      AllRecordedExtend(g, cycles[..|cycles| - 1], pre, n, k);
    }
  }

  /** The path stack: consecutive nodes are linked by edges and numbered upwards. */
  ghost predicate Stack(g: Graph, path: seq<Name>, pre: map<Name, nat>) {
    if path == [] then true
    else
      var n := |path| - 1;
      && path[n] in pre && Stack(g, path[..n], pre)
      && (n > 0 ==> path[n - 1] in pre && Edge(g, path[n - 1], path[n]) && pre[path[n - 1]] < pre[path[n]])
  }

  ghost function Elements(path: seq<Name>): set<Name> {
    if path == [] then {} else Elements(path[..|path| - 1]) + {path[|path| - 1]}
  }

  lemma {:induction false} ElementsIn(path: seq<Name>, n: Name)
    ensures n in Elements(path) <==> n in path
  {
    if path != [] {
      ElementsIn(path[..|path| - 1], n);
      assert path == path[..|path| - 1] + [path[|path| - 1]];
    }
  }

  lemma {:induction false} StackIncreasing(g: Graph, path: seq<Name>, pre: map<Name, nat>)
    requires Stack(g, path, pre)
    ensures Walk(g, path) && Increasing(path, pre)
  {
    if path != [] {
      var n := |path| - 1;
      StackIncreasing(g, path[..n], pre);
      if n > 0 {
        assert path[..n][n - 1] == path[n - 1];
      }
      forall i | 0 <= i < n ensures path[i] in pre && pre[path[i]] < pre[path[n]] {
        assert path[..n][i] == path[i];
      }
      forall i, j | 0 <= i && j == i + 1 && j < |path| ensures Edge(g, path[i], path[j]) {
        if j < n { assert Edge(g, path[..n][i], path[..n][j]); }
      }
      forall i, j | 0 <= i < j < |path| ensures pre[path[i]] < pre[path[j]] {
        if j < n { assert pre[path[..n][i]] < pre[path[..n][j]]; }
      }
    }
  }

  lemma {:induction false} StackExtend(g: Graph, path: seq<Name>, pre: map<Name, nat>, n: Name, k: nat)
    requires Stack(g, path, pre) && n !in pre
    ensures Stack(g, path, pre[n := k])
  {
    if path != [] {
      StackExtend(g, path[..|path| - 1], pre, n, k);
    }
  }

  lemma StackPush(g: Graph, path: seq<Name>, pre: map<Name, nat>, n: Name, clock: nat)
    requires Stack(g, path, pre) && n !in pre && Before(pre, clock)
    requires path != [] ==> Edge(g, path[|path| - 1], n)
    ensures Stack(g, path + [n], pre[n := clock]) && Elements(path + [n]) == Elements(path) + {n}
  {
    StackExtend(g, path, pre, n, clock);
    assert (path + [n])[..|path|] == path;
    hide Edge;
  }

  lemma StackTopFresh(g: Graph, path: seq<Name>, pre: map<Name, nat>)
    requires path != [] && Stack(g, path, pre)
    ensures path[|path| - 1] !in Elements(path[..|path| - 1])
  {
    StackIncreasing(g, path, pre);
    var n := |path| - 1;
    ElementsIn(path[..n], path[n]);
    assert forall i :: 0 <= i < n ==> path[..n][i] == path[i] && pre[path[i]] < pre[path[n]];
  }

  ghost predicate EndsWith(c: seq<Name>, u: Name, v: Name) {
    |c| >= 2 && c[|c| - 2] == u && c[|c| - 1] == v
  }

  lemma {:induction false} ClosingEdgeHasCycle(cycles: seq<seq<Name>>, u: Name, v: Name)
    ensures (u, v) in ClosingEdges(cycles) <==> exists c :: c in cycles && EndsWith(c, u, v)
  {
    if cycles != [] {
      var init, last := cycles[..|cycles| - 1], cycles[|cycles| - 1];
      ClosingEdgeHasCycle(init, u, v);
      assert (u, v) in ClosingEdges(cycles) <==> (u, v) in ClosingEdges(init) || EndsWith(last, u, v);
      hide ClosingEdges, EndsWith;
      assert cycles == init + [last];
      assert forall c :: c in cycles <==> c in init || c == last;
    }
  }

  lemma SuffixKeeps(g: Graph, path: seq<Name>, pre: map<Name, nat>, k: nat)
    requires k <= |path| && Walk(g, path) && Increasing(path, pre)
    ensures Walk(g, path[k..]) && Increasing(path[k..], pre)
  {
    var tail := path[k..];
    forall i, j | 0 <= i && j == i + 1 && j < |tail| ensures Edge(g, tail[i], tail[j]) {
      assert tail[i] == path[k + i] && tail[j] == path[k + j];
    }
  }

  lemma WalkAppend(g: Graph, w: seq<Name>, n: Name)
    requires w != [] && Walk(g, w) && Edge(g, w[|w| - 1], n)
    ensures Walk(g, w + [n])
  {
  }

  /** `path[cycle_start:] + [node]` when node is on the path. */
  lemma PathTailIsCycle(g: Graph, path: seq<Name>, node: Name, pre: map<Name, nat>)
    requires path != [] && node in path && Stack(g, path, pre) && Edge(g, path[|path| - 1], node)
    ensures var c := path[Index(path, node)..] + [node];
      Recorded(g, c, pre) && c[|c| - 2] == path[|path| - 1] && c[|c| - 1] == node
  {
    StackIncreasing(g, path, pre);
    var tail := path[Index(path, node)..];
    SuffixKeeps(g, path, pre, Index(path, node));
    WalkAppend(g, tail, node);
    assert (tail + [node])[..|tail|] == tail;
  }

  lemma RecordKeeps(g: Graph, cycles: seq<seq<Name>>, c: seq<Name>, pre: map<Name, nat>, post: map<Name, nat>)
    requires AllRecorded(g, cycles, pre) && FinishedEdges(g, post, ClosingEdges(cycles))
    requires Recorded(g, c, pre) && |c| >= 2
    ensures AllRecorded(g, cycles + [c], pre) && FinishedEdges(g, post, ClosingEdges(cycles + [c]))
    ensures (c[|c| - 2], c[|c| - 1]) in ClosingEdges(cycles + [c])
  {
    assert (cycles + [c])[..|cycles|] == cycles;
    hide Recorded, Edge;
  }

  /** The search state: the three variables shared by the nested function, and two ghost
      numberings, of first visits and of returns. */
  class CycleFinder {
    const graph: Graph
    var visited: set<Name>
    var path: seq<Name>
    var cycles: seq<seq<Name>>
    ghost var pre: map<Name, nat>
    ghost var post: map<Name, nat>
    ghost var clock: nat

    ghost predicate Valid()
      reads this
    {
      && visited == pre.Keys == Elements(path) + post.Keys
      && Elements(path) !! post.Keys
      && Before(pre, clock) && Before(post, clock)
      && Stack(graph, path, pre)
      && FinishedEdges(graph, post, ClosingEdges(cycles))
      && AllRecorded(graph, cycles, pre)
    }

    /** What every call of the search keeps: the path, and everything recorded so far. */
    twostate predicate Extends()
      reads this
    {
      && old(visited) <= visited && old(post.Keys) <= post.Keys
      && old(ClosingEdges(cycles)) <= ClosingEdges(cycles)
    }

    constructor (g: Graph)
      ensures Valid() && graph == g && path == [] && visited == {} && cycles == []
    {
      graph := g;
      visited, path, cycles := {}, [], [];
      pre, post, clock := map[], map[], 0;
    }

    method Dfs(node: Name)
      requires Valid() && node in graph.Nodes()
      requires path != [] ==> Edge(graph, path[|path| - 1], node)
      modifies this
      ensures Valid() && path == old(path) && Extends()
      ensures node in post || (path != [] && (path[|path| - 1], node) in ClosingEdges(cycles))
      decreases graph.Nodes() - visited, 0
    {
      ElementsIn(path, node);
      if node in path {
        Record(node);
        return;
      }
      if node in visited {
        return;
      }
      Enter(node);
      VisitNeighbours(node);
      Leave(node);
    }

    method VisitNeighbours(node: Name)
      requires Valid() && path != [] && path[|path| - 1] == node
      modifies this
      ensures Valid() && path == old(path) && Extends()
      ensures forall v :: Edge(graph, node, v) ==> v in post || (node, v) in ClosingEdges(cycles)
      decreases graph.Nodes() - visited, 1
    {
      hide Stack, Elements, Before, FinishedEdges, AllRecorded, ClosingEdges;
      var neighbours := graph.Neighbours(node);
      var i := 0;
      while i < |neighbours|
        invariant 0 <= i <= |neighbours|
        invariant Valid() && path == old(path) && Extends()
        invariant forall k :: 0 <= k < i ==> neighbours[k] in post || (node, neighbours[k]) in ClosingEdges(cycles)
      {
        assert Edge(graph, node, neighbours[i]);
        Dfs(neighbours[i]);
        i := i + 1;
      }
    }

    /** `cycles.append(path[cycle_start:] + [node])`. */
    method Record(node: Name)
      requires Valid() && node in path && Edge(graph, path[|path| - 1], node)
      modifies this`cycles
      ensures Valid() && cycles == old(cycles) + [path[Index(path, node)..] + [node]]
      ensures (path[|path| - 1], node) in ClosingEdges(cycles)
    {
      hide AllRecorded, Recorded, FinishedEdges, ClosingEdges, Stack, Elements, Before, Edge, Index;
      var cycleStart := Index(path, node);
      PathTailIsCycle(graph, path, node, pre);
      RecordKeeps(graph, cycles, path[cycleStart..] + [node], pre, post);
      cycles := cycles + [path[cycleStart..] + [node]];
    }

    /** `visited.add(node)` and `path.append(node)`. */
    method Enter(node: Name)
      requires Valid() && node !in visited
      requires path != [] ==> Edge(graph, path[|path| - 1], node)
      modifies this`visited, this`path, this`pre, this`clock
      ensures Valid() && path == old(path) + [node] && visited == old(visited) + {node}
    {
      hide AllRecorded, FinishedEdges, ClosingEdges, Edge, Stack, Elements;
      AllRecordedExtend(graph, cycles, pre, node, clock);
      StackPush(graph, path, pre, node, clock);
      pre, clock := pre[node := clock], clock + 1;
      visited := visited + {node};
      path := path + [node];
    }

    /** `path.pop()`. */
    method Leave(node: Name)
      requires Valid() && path != [] && path[|path| - 1] == node
      requires forall v :: Edge(graph, node, v) ==> v in post || (node, v) in ClosingEdges(cycles)
      modifies this`path, this`post, this`clock
      ensures Valid() && path == old(path)[..|old(path)| - 1] && post.Keys == old(post.Keys) + {node}
    {
      hide AllRecorded, ClosingEdges, Edge;
      StackTopFresh(graph, path, pre);
      post, clock := post[node := clock], clock + 1;
      path := path[..|path| - 1];
    }

    /** `for node in graph.keys(): dfs(node)`. */
    method Search()
      requires graph.Valid() && Valid() && path == []
      modifies this
      ensures Valid() && path == []
      ensures forall n :: n in graph.order ==> n in post
    {
      hide Stack, Elements, Before, FinishedEdges, AllRecorded, ClosingEdges;
      var i := 0;
      while i < |graph.order|
        invariant 0 <= i <= |graph.order|
        invariant Valid() && path == []
        invariant forall k :: 0 <= k < i ==> graph.order[k] in post
      {
        Dfs(graph.order[i]);
        i := i + 1;
      }
    }
  }

  // Completeness of the search

  lemma {:induction false} PostDescends(g: Graph, post: map<Name, nat>, cycles: seq<seq<Name>>, w: seq<Name>, k: nat)
    requires g.Valid() && FinishedEdges(g, post, ClosingEdges(cycles)) && (forall n :: n in g.order ==> n in post)
    requires Walk(g, w) && 1 <= k < |w|
    requires forall i :: 0 <= i < |w| - 1 ==> (w[i], w[i + 1]) !in ClosingEdges(cycles)
    ensures w[k] in post && w[0] in post && post[w[k]] < post[w[0]]
  {
    assert Edge(g, w[k - 1], w[k]) && (w[k - 1], w[k - 1 + 1]) !in ClosingEdges(cycles);
    assert w[k - 1] in g.order;
    if k > 1 {
      PostDescends(g, post, cycles, w, k - 1);
    }
  }

  lemma SearchBreaksAllCycles(g: Graph, post: map<Name, nat>, cycles: seq<seq<Name>>)
    requires g.Valid() && FinishedEdges(g, post, ClosingEdges(cycles)) && (forall n :: n in g.order ==> n in post)
    ensures BreaksAllCycles(g, cycles)
  {
    forall w | ClosedWalk(g, w)
      ensures exists i :: 0 <= i < |w| - 1 && (w[i], w[i + 1]) in ClosingEdges(cycles)
    {
      if forall i :: 0 <= i < |w| - 1 ==> (w[i], w[i + 1]) !in ClosingEdges(cycles) {
        PostDescends(g, post, cycles, w, |w| - 1);
      }
    }
  }

  // Deduplication

  /** `tuple(sorted(cycle))`. */
  function Key(cycle: seq<Name>): seq<Name> {
    Sort((a: Name, b: Name) => StringLeq(a.text, b.text), cycle)
  }

  ghost function NodeSet(c: seq<Name>): set<Name> {
    set n | n in c
  }

  ghost predicate SameNodes(s: seq<Name>, t: seq<Name>) {
    forall n :: n in s <==> n in t
  }

  lemma IncreasingLast(s: seq<Name>, t: seq<Name>, number: map<Name, nat>)
    requires Increasing(s, number) && Increasing(t, number)
    requires s != [] && t != [] && SameNodes(s, t)
    ensures s[|s| - 1] == t[|t| - 1]
  {
    assert s[|s| - 1] in t && t[|t| - 1] in s;
  }

  lemma IncreasingInit(s: seq<Name>, number: map<Name, nat>, x: Name)
    requires Increasing(s, number) && s != []
    ensures Increasing(s[..|s| - 1], number)
    ensures x in s[..|s| - 1] <==> x in s && x != s[|s| - 1]
  {
    assert s == s[..|s| - 1] + [s[|s| - 1]];
    if x in s[..|s| - 1] {
      var k :| 0 <= k < |s| - 1 && s[k] == x;
      assert number[s[k]] < number[s[|s| - 1]];
    }
  }

  lemma SameEmptiness(s: seq<Name>, t: seq<Name>)
    requires SameNodes(s, t)
    ensures s == [] <==> t == []
  {
    assert s == [] || s[0] in s;
    assert t == [] || t[0] in t;
  }

  lemma SameInit(s: seq<Name>, t: seq<Name>, number: map<Name, nat>)
    requires Increasing(s, number) && Increasing(t, number)
    requires s != [] && t != [] && SameNodes(s, t)
    ensures s[|s| - 1] == t[|t| - 1]
    ensures Increasing(s[..|s| - 1], number) && Increasing(t[..|t| - 1], number)
    ensures SameNodes(s[..|s| - 1], t[..|t| - 1])
  {
    IncreasingLast(s, t, number);
    IncreasingInit(s, number, s[0]);
    IncreasingInit(t, number, s[0]);
    hide Increasing;
    var s', t' := s[..|s| - 1], t[..|t| - 1];
    forall x ensures x in s' <==> x in t' {
      IncreasingInit(s, number, x);
      IncreasingInit(t, number, x);
    }
  }

  /** Two sequences that list the same nodes in increasing order are equal. */
  lemma {:induction false} IncreasingUnique(s: seq<Name>, t: seq<Name>, number: map<Name, nat>)
    requires Increasing(s, number) && Increasing(t, number) && SameNodes(s, t)
    ensures s == t
  {
    hide *;
    SameEmptiness(s, t);
    if s != [] {
      SameInit(s, t, number);
      IncreasingUnique(s[..|s| - 1], t[..|t| - 1], number);
      assert s == s[..|s| - 1] + [s[|s| - 1]] && t == t[..|t| - 1] + [t[|t| - 1]];
    }
  }

  lemma NodesOfCycle(g: Graph, c: seq<Name>, n: Name)
    requires ClosedWalk(g, c)
    ensures n in c <==> n in c[..|c| - 1]
  {
    if n in c {
      var k :| 0 <= k < |c| && c[k] == n;
      assert c[..|c| - 1][if k == |c| - 1 then 0 else k] == n;
    }
  }

  /** The search never records one node set in two rotations: cycles over the same nodes are equal. */
  lemma SameNodesSameCycle(g: Graph, cycles: seq<seq<Name>>, pre: map<Name, nat>, c: seq<Name>, d: seq<Name>)
    requires AllRecorded(g, cycles, pre) && c in cycles && d in cycles
    requires NodeSet(c) == NodeSet(d)
    ensures c == d
  {
    AllRecordedMember(g, cycles, pre, c);
    AllRecordedMember(g, cycles, pre, d);
    var c', d' := c[..|c| - 1], d[..|d| - 1];
    forall n | n in c' || n in d' ensures n in c' && n in d' {
      NodesOfCycle(g, c, n);
      NodesOfCycle(g, d, n);
      assert n in c <==> n in NodeSet(c);
      assert n in d <==> n in NodeSet(d);
    }
    IncreasingUnique(c', d', pre);
    assert c'[0] == c[0] && d'[0] == d[0];
    assert c == c' + [c[0]] && d == d' + [d[0]];
  }

  ghost predicate Subsequence<T>(s: seq<T>, t: seq<T>)
    decreases |t|
  {
    if s == [] then true
    else if t == [] then false
    else if s[|s| - 1] == t[|t| - 1] then Subsequence(s[..|s| - 1], t[..|t| - 1])
    else Subsequence(s, t[..|t| - 1])
  }

  ghost function Keys<T, K>(key: T -> K, items: seq<T>): set<K> {
    if items == [] then {} else Keys(key, items[..|items| - 1]) + {key(items[|items| - 1])}
  }

  /** r lists, in order, the first item of each key. */
  ghost predicate FirstOfEachKey<T, K>(key: T -> K, r: seq<T>, items: seq<T>)
    decreases |items|
  {
    if items == [] then r == []
    else
      var init, last := items[..|items| - 1], items[|items| - 1];
      if key(last) in Keys(key, init) then FirstOfEachKey(key, r, init)
      else r != [] && r[|r| - 1] == last && FirstOfEachKey(key, r[..|r| - 1], init)
  }

  /** The deduplication loop; it is run with `tuple(sorted(cycle))` as the key of a cycle. */
  method Deduplicate<T, K(==)>(key: T -> K, items: seq<T>) returns (unique: seq<T>)
    ensures FirstOfEachKey(key, unique, items)
  {
    unique := [];
    var seen: set<K> := {};
    var i := 0;
    while i < |items|
      invariant 0 <= i <= |items|
      invariant seen == Keys(key, items[..i])
      invariant FirstOfEachKey(key, unique, items[..i])
    {
      var k := key(items[i]);
      assert items[..i + 1][..i] == items[..i];
      if k !in seen {
        seen := seen + {k};
        ghost var before := unique;
        unique := unique + [items[i]];
        assert unique[..|before|] == before;
      }
      i := i + 1;
    }
    assert items[..|items|] == items;
  }

  lemma {:induction false} KeyInKeys<T, K>(key: T -> K, items: seq<T>, x: T)
    requires x in items
    ensures key(x) in Keys(key, items)
  {
    assert items == items[..|items| - 1] + [items[|items| - 1]];
    if x != items[|items| - 1] {
      KeyInKeys(key, items[..|items| - 1], x);
    }
  }

  lemma {:induction false} KeyHasItem<T, K>(key: T -> K, items: seq<T>, k: K) returns (x: T)
    requires k in Keys(key, items)
    ensures x in items && key(x) == k
  {
    x := items[|items| - 1];
    if key(x) != k {
      x := KeyHasItem(key, items[..|items| - 1], k);
    }
  }

  lemma {:induction false} SubsequenceDropLast<T>(s: seq<T>, t: seq<T>)
    requires s != [] && Subsequence(s, t)
    ensures Subsequence(s[..|s| - 1], t)
    decreases |t|, 0
  {
    var init := t[..|t| - 1];
    if s[|s| - 1] == t[|t| - 1] {
      SubsequenceOfLonger(s[..|s| - 1], init, t[|t| - 1]);
      assert t == init + [t[|t| - 1]];
    } else {
      SubsequenceDropLast(s, init);
      SubsequenceOfLonger(s[..|s| - 1], init, t[|t| - 1]);
      assert t == init + [t[|t| - 1]];
    }
  }

  lemma {:induction false} SubsequenceOfLonger<T>(s: seq<T>, t: seq<T>, x: T)
    requires Subsequence(s, t)
    ensures Subsequence(s, t + [x])
    decreases |t|, 1
  {
    assert (t + [x])[..|t|] == t;
    if s != [] && s[|s| - 1] == x {
      SubsequenceDropLast(s, t);
    }
  }

  /** Exactly one representative per key, in the order of the list, and nothing that was not listed. */
  lemma {:induction false} RepresentativesOfKeys<T, K>(key: T -> K, r: seq<T>, items: seq<T>)
    requires FirstOfEachKey(key, r, items)
    ensures Keys(key, r) == Keys(key, items)
    ensures forall x :: x in r ==> x in items
    ensures forall i, j :: 0 <= i < j < |r| ==> key(r[i]) != key(r[j])
    ensures Subsequence(r, items)
    decreases |items|
  {
    if items != [] {
      var init, last := items[..|items| - 1], items[|items| - 1];
      assert items == init + [last];
      if key(last) in Keys(key, init) {
        RepresentativesOfKeys(key, r, init);
        SubsequenceOfLonger(r, init, last);
      } else {
        var r' := r[..|r| - 1];
        RepresentativesOfKeys(key, r', init);
        assert r == r' + [last];
        forall i | 0 <= i < |r'| ensures key(r[i]) != key(last) {
          KeyInKeys(key, r', r'[i]);
        }
      }
    }
  }

  /** The whole function. Every listed cycle is a simple closed walk; their closing edges meet every
      directed cycle of the graph; the list is empty exactly for an acyclic graph; and no two
      listed cycles visit the same set of modules. */
  method FindCycles(g: Graph) returns (r: seq<seq<Name>>)
    requires g.Valid()
    ensures forall c :: c in r ==> SimpleCycle(g, c)
    ensures BreaksAllCycles(g, r)
    ensures r == [] <==> Acyclic(g)
    ensures forall i, j :: 0 <= i < j < |r| ==> NodeSet(r[i]) != NodeSet(r[j])
  {
    var finder := new CycleFinder(g);
    finder.Search();
    r := Deduplicate(Key, finder.cycles);
    DeduplicationLosesNothing(g, finder.cycles, finder.pre, r);
    SearchBreaksAllCycles(g, finder.post, finder.cycles);
    BreaksAllCyclesOfSame(g, finder.cycles, r);
    AllSimple(g, finder.cycles, finder.pre, r);
    EmptyIffAcyclic(g, r);
  }

  lemma AllSimple(g: Graph, cycles: seq<seq<Name>>, pre: map<Name, nat>, r: seq<seq<Name>>)
    requires AllRecorded(g, cycles, pre) && forall c :: c in r ==> c in cycles
    ensures forall c :: c in r ==> SimpleCycle(g, c)
  {
    forall c | c in r ensures SimpleCycle(g, c) {
      AllRecordedMember(g, cycles, pre, c);
    }
  }

  lemma EmptyIffAcyclic(g: Graph, r: seq<seq<Name>>)
    requires BreaksAllCycles(g, r) && forall c :: c in r ==> SimpleCycle(g, c)
    ensures r == [] <==> Acyclic(g)
  {
    if r != [] {
      assert r[0] in r;
    } else {
      assert ClosingEdges(r) == {};
    }
  }

  lemma BreaksAllCyclesOfSame(g: Graph, cycles: seq<seq<Name>>, r: seq<seq<Name>>)
    requires BreaksAllCycles(g, cycles) && forall c :: c in cycles ==> c in r
    ensures BreaksAllCycles(g, r)
  {
    forall w | ClosedWalk(g, w)
      ensures exists i :: 0 <= i < |w| - 1 && (w[i], w[i + 1]) in ClosingEdges(r)
    {
      var i :| 0 <= i < |w| - 1 && (w[i], w[i + 1]) in ClosingEdges(cycles);
      ClosingEdgeHasCycle(cycles, w[i], w[i + 1]);
      ClosingEdgeHasCycle(r, w[i], w[i + 1]);
    }
  }

  lemma SameKeySameNodes(c: seq<Name>, d: seq<Name>)
    requires Key(c) == Key(d)
    ensures NodeSet(c) == NodeSet(d)
  {
    SortPermutes((a: Name, b: Name) => StringLeq(a.text, b.text), c);
    SortPermutes((a: Name, b: Name) => StringLeq(a.text, b.text), d);
    assert multiset(c) == multiset(d);
    forall n ensures n in NodeSet(c) <==> n in NodeSet(d) {
      assert n in c <==> n in multiset(c);
      assert n in d <==> n in multiset(d);
    }
  }

  /** On the cycles of one search, deduplication drops only literal repeats. */
  lemma DeduplicationLosesNothing(g: Graph, cycles: seq<seq<Name>>, pre: map<Name, nat>, r: seq<seq<Name>>)
    requires AllRecorded(g, cycles, pre) && FirstOfEachKey(Key, r, cycles)
    ensures forall c :: c in cycles <==> c in r
    ensures forall i, j :: 0 <= i < j < |r| ==> NodeSet(r[i]) != NodeSet(r[j])
  {
    RepresentativesOfKeys(Key, r, cycles);
    forall c | c in cycles ensures c in r {
      KeyInKeys(Key, cycles, c);
      var d := KeyHasItem(Key, r, Key(c));
      SameKeySameNodes(c, d);
      SameNodesSameCycle(g, cycles, pre, c, d);
    }
    forall i, j | 0 <= i < j < |r| ensures NodeSet(r[i]) != NodeSet(r[j]) {
      if NodeSet(r[i]) == NodeSet(r[j]) {
        assert r[i] in cycles && r[j] in cycles;
        SameNodesSameCycle(g, cycles, pre, r[i], r[j]);
      }
    }
  }
}
