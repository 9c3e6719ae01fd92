/** The two syntax-tree visitors of the code agent: cyclomatic and cognitive complexity, and the
    maximum nesting depth. */
module ComplexityVisitors {

  /** Node classes, as far as a visitor tells them apart. `operands` is `len(node.values)`. */
  datatype Kind =
    | If | While | For | ExceptHandler | BoolOp(operands: nat) | Comprehension
    | With | Try | TryStar | FunctionDef | AsyncFunctionDef | ClassDef | Other

  datatype Node = Node(kind: Kind, children: seq<Node>)

  /** visit_If, visit_While and visit_For raise the nesting level. */
  predicate Nests(k: Kind) {
    k == If || k == While || k == For
  }

  predicate Decides(k: Kind) {
    Nests(k) || k == ExceptHandler
  }

  /** The classes MaxDepthVisitor hooks. */
  predicate Deepens(k: Kind) {
    Nests(k) || k == With || k == Try || k == FunctionDef || k == AsyncFunctionDef || k == ClassDef
  }

  function Level(b: bool): nat {
    if b then 1 else 0
  }

  function Max(a: int, b: int): int {
    if a < b then b else a
  }

  function OwnCyclomatic(k: Kind): int {
    if Decides(k) || k == Comprehension then 1 else if k.BoolOp? then k.operands - 1 else 0
  }

  // What a visit adds

  function Cyclomatic(n: Node): int
    decreases n, 0
  {
    OwnCyclomatic(n.kind) + CyclomaticTo(n.children, |n.children|)
  }

  function CyclomaticTo(s: seq<Node>, k: nat): int
    requires k <= |s|
    decreases s, k
  {
    if k == 0 then 0 else CyclomaticTo(s, k - 1) + Cyclomatic(s[k - 1])
  }

  function Cognitive(n: Node, nesting: int): int
    decreases n, 0
  {
    (if Decides(n.kind) then 1 + nesting else 0)
    + CognitiveTo(n.children, |n.children|, nesting + Level(Nests(n.kind)))
  }

  function CognitiveTo(s: seq<Node>, k: nat, nesting: int): int
    requires k <= |s|
    decreases s, k
  {
    if k == 0 then 0 else CognitiveTo(s, k - 1, nesting) + Cognitive(s[k - 1], nesting)
  }

  /** The deepest level entered below depth d, at least `floor`. */
  function Deepest(n: Node, d: int, floor: int): int
    decreases n, 0
  {
    if Deepens(n.kind) then DeepestTo(n.children, |n.children|, d + 1, Max(floor, d + 1))
    else DeepestTo(n.children, |n.children|, d, floor)
  }

  function DeepestTo(s: seq<Node>, k: nat, d: int, floor: int): int
    requires k <= |s|
    decreases s, k
  {
    if k == 0 then floor else Deepest(s[k - 1], d, DeepestTo(s, k - 1, d, floor))
  }

  class ComplexityVisitor {
    var cyclomatic: int
    var cognitive: int
    var nesting: int

    constructor ()
      ensures cyclomatic == 1 && cognitive == 0 && nesting == 0
    {
      cyclomatic, cognitive, nesting := 1, 0, 0;
    }

    /** The dispatch of NodeVisitor.visit. */
    method Visit(node: Node)
      modifies this
      ensures cyclomatic == old(cyclomatic) + Cyclomatic(node)
      ensures cognitive == old(cognitive) + Cognitive(node, old(nesting))
      ensures nesting == old(nesting)
      decreases node, 2
    {
      match node.kind {
        case If | While | For => VisitNested(node);
        case ExceptHandler =>
          cyclomatic := cyclomatic + 1;
          cognitive := cognitive + 1 + nesting;
          GenericVisit(node);
        case BoolOp(operands) =>
          cyclomatic := cyclomatic + operands - 1;
          GenericVisit(node);
        case Comprehension =>
          cyclomatic := cyclomatic + 1;
          GenericVisit(node);
        case _ => GenericVisit(node);
      }
    }

    /** visit_If, visit_While, visit_For. */
    method VisitNested(node: Node)
      requires Nests(node.kind)
      modifies this
      ensures cyclomatic == old(cyclomatic) + Cyclomatic(node)
      ensures cognitive == old(cognitive) + Cognitive(node, old(nesting))
      ensures nesting == old(nesting)
      decreases node, 1
    {
      cyclomatic := cyclomatic + 1;
      cognitive := cognitive + 1 + nesting;
      nesting := nesting + 1;
      GenericVisit(node);
      nesting := nesting - 1;
    }

    method GenericVisit(node: Node)
      modifies this
      ensures cyclomatic == old(cyclomatic) + CyclomaticTo(node.children, |node.children|)
      ensures cognitive == old(cognitive) + CognitiveTo(node.children, |node.children|, old(nesting))
      ensures nesting == old(nesting)
      decreases node, 0
    {
      var i := 0;
      while i < |node.children|
        invariant 0 <= i <= |node.children|
        invariant cyclomatic == old(cyclomatic) + CyclomaticTo(node.children, i)
        invariant cognitive == old(cognitive) + CognitiveTo(node.children, i, old(nesting))
        invariant nesting == old(nesting)
      {
        Visit(node.children[i]);
        i := i + 1;
      }
    }
  }

  class MaxDepthVisitor {
    var maxDepth: int
    var depth: int

    constructor ()
      ensures maxDepth == 0 && depth == 0
    {
      maxDepth, depth := 0, 0;
    }

    method Visit(node: Node)
      modifies this
      ensures maxDepth == Deepest(node, old(depth), old(maxDepth)) && depth == old(depth)
      decreases node, 1
    {
      if Deepens(node.kind) {
        depth := depth + 1;
        maxDepth := Max(maxDepth, depth);
        GenericVisit(node);
        depth := depth - 1;
      } else {
        GenericVisit(node);
      }
    }

    method GenericVisit(node: Node)
      modifies this
      ensures maxDepth == DeepestTo(node.children, |node.children|, old(depth), old(maxDepth)) && depth == old(depth)
      decreases node, 0
    {
      var i := 0;
      while i < |node.children|
        invariant 0 <= i <= |node.children|
        invariant maxDepth == DeepestTo(node.children, i, old(depth), old(maxDepth)) && depth == old(depth)
      {
        Visit(node.children[i]);
        i := i + 1;
      }
    }
  }

  // Closed forms: every node with the kinds of its ancestors

  datatype Occurrence = Occurrence(kind: Kind, above: seq<Kind>)

  function Occurrences(n: Node, above: seq<Kind>): seq<Occurrence>
    decreases n, 0
  {
    [Occurrence(n.kind, above)] + OccurrencesTo(n.children, |n.children|, above + [n.kind])
  }

  function OccurrencesTo(s: seq<Node>, k: nat, above: seq<Kind>): seq<Occurrence>
    requires k <= |s|
    decreases s, k
  {
    if k == 0 then [] else OccurrencesTo(s, k - 1, above) + Occurrences(s[k - 1], above)
  }

  /** The number of enclosing loops and conditionals. */
  function NestingAbove(above: seq<Kind>): nat {
    if above == [] then 0 else NestingAbove(above[..|above| - 1]) + Level(above[|above| - 1] in {If, While, For})
  }

  const HOOKED: set<Kind> := {If, While, For, With, Try, FunctionDef, AsyncFunctionDef, ClassDef}

  function DepthAbove(above: seq<Kind>): nat {
    if above == [] then 0 else DepthAbove(above[..|above| - 1]) + Level(above[|above| - 1] in HOOKED)
  }

  function CyclomaticWeight(o: Occurrence): int {
    match o.kind
    case If | While | For | ExceptHandler | Comprehension => 1
    case BoolOp(operands) => operands - 1
    case _ => 0
  }

  /** One plus the number of enclosing loops and conditionals. */
  function CognitiveWeight(o: Occurrence): int {
    if o.kind in {If, While, For, ExceptHandler} then 1 + NestingAbove(o.above) else 0
  }

  function DecisionWeight(o: Occurrence): int {
    if o.kind in {If, While, For, ExceptHandler} then 1 else 0
  }

  /** The number of hooked nodes on the way down to this one. */
  function DepthWeight(o: Occurrence): int {
    if o.kind in HOOKED then DepthAbove(o.above) + 1 else 0
  }

  function Total(w: Occurrence -> int, s: seq<Occurrence>): int {
    if s == [] then 0 else Total(w, s[..|s| - 1]) + w(s[|s| - 1])
  }

  function Highest(w: Occurrence -> int, s: seq<Occurrence>, floor: int): int {
    if s == [] then floor else Max(Highest(w, s[..|s| - 1], floor), w(s[|s| - 1]))
  }

  lemma {:induction false} TotalConcat(w: Occurrence -> int, a: seq<Occurrence>, b: seq<Occurrence>)
    ensures Total(w, a + b) == Total(w, a) + Total(w, b)
  {
    if b == [] {
      assert a + b == a;
    } else {
      TotalConcat(w, a, b[..|b| - 1]);
      assert (a + b)[..|a + b| - 1] == a + b[..|b| - 1];
    }
  }

  lemma {:induction false} HighestConcat(w: Occurrence -> int, a: seq<Occurrence>, b: seq<Occurrence>, floor: int)
    ensures Highest(w, a + b, floor) == Highest(w, b, Highest(w, a, floor))
  {
    if b == [] {
      assert a + b == a;
    } else {
      HighestConcat(w, a, b[..|b| - 1], floor);
      assert (a + b)[..|a + b| - 1] == a + b[..|b| - 1];
    }
  }

  lemma OneOccurrence(w: Occurrence -> int, o: Occurrence, floor: int)
    ensures Total(w, [o]) == w(o) && Highest(w, [o], floor) == Max(floor, w(o))
  {
    assert [o][..0] == [];
  }

  lemma AboveAppend(above: seq<Kind>, k: Kind)
    ensures NestingAbove(above + [k]) == NestingAbove(above) + Level(Nests(k))
    ensures DepthAbove(above + [k]) == DepthAbove(above) + Level(Deepens(k))
  {
    assert (above + [k])[..|above|] == above;
  }

  /** The node at the end of a path of child numbers, with its ancestors, is o. */
  ghost predicate At(n: Node, above: seq<Kind>, path: seq<int>, o: Occurrence)
    decreases |path|
  {
    if path == [] then o == Occurrence(n.kind, above)
    else 0 <= path[0] < |n.children| && At(n.children[path[0]], above + [n.kind], path[1..], o)
  }

  lemma {:induction false} ChildOccurs(s: seq<Node>, k: nat, above: seq<Kind>, i: nat, o: Occurrence)
    requires i < k <= |s| && o in Occurrences(s[i], above)
    ensures o in OccurrencesTo(s, k, above)
    decreases k
  {
    if i < k - 1 {
      ChildOccurs(s, k - 1, above, i, o);
    }
  }

  lemma {:induction false} NodeOccurs(n: Node, above: seq<Kind>, path: seq<int>, o: Occurrence)
    requires At(n, above, path, o)
    ensures o in Occurrences(n, above)
    decreases |path|
  {
    if path != [] {
      NodeOccurs(n.children[path[0]], above + [n.kind], path[1..], o);
      ChildOccurs(n.children, |n.children|, above + [n.kind], path[0], o);
    }
  }

  lemma {:induction false} PathOf(n: Node, above: seq<Kind>, o: Occurrence) returns (path: seq<int>)
    requires o in Occurrences(n, above)
    ensures At(n, above, path, o)
    decreases n, 0
  {
    if o == Occurrence(n.kind, above) {
      path := [];
    } else {
      var i, rest := PathBelow(n.children, |n.children|, above + [n.kind], o);
      path := [i] + rest;
      assert path[1..] == rest;
    }
  }

  lemma {:induction false} PathBelow(s: seq<Node>, k: nat, above: seq<Kind>, o: Occurrence)
    returns (i: int, path: seq<int>)
    requires k <= |s| && o in OccurrencesTo(s, k, above)
    ensures 0 <= i < k && At(s[i], above, path, o)
    decreases s, k
  {
    if o in OccurrencesTo(s, k - 1, above) {
      i, path := PathBelow(s, k - 1, above, o);
    } else {
      i := k - 1;
      path := PathOf(s[i], above, o);
    }
  }

  ghost predicate IsNode(n: Node, above: seq<Kind>, o: Occurrence) {
    exists path :: At(n, above, path, o)
  }

  /** Exactly the nodes of the tree occur, with their ancestors. */
  lemma OccurrencesIff(n: Node, above: seq<Kind>, o: Occurrence)
    ensures o in Occurrences(n, above) <==> IsNode(n, above, o)
  {
    if o in Occurrences(n, above) {
      var path := PathOf(n, above, o);
    }
    if IsNode(n, above, o) {
      var path :| At(n, above, path, o);
      NodeOccurs(n, above, path, o);
    }
  }

  function Size(n: Node): nat
    decreases n, 0
  {
    1 + SizeTo(n.children, |n.children|)
  }

  function SizeTo(s: seq<Node>, k: nat): nat
    requires k <= |s|
    decreases s, k
  {
    if k == 0 then 0 else SizeTo(s, k - 1) + Size(s[k - 1])
  }

  /** Each node occurs once. */
  lemma {:induction false} OccurrencesCount(n: Node, above: seq<Kind>)
    ensures |Occurrences(n, above)| == Size(n)
    decreases n, 0
  {
    OccurrencesToCount(n.children, |n.children|, above + [n.kind]);
  }

  lemma {:induction false} OccurrencesToCount(s: seq<Node>, k: nat, above: seq<Kind>)
    requires k <= |s|
    ensures |OccurrencesTo(s, k, above)| == SizeTo(s, k)
    decreases s, k
  {
    if k > 0 {
      OccurrencesToCount(s, k - 1, above);
      OccurrencesCount(s[k - 1], above);
    }
  }

  /** Both complexities are sums over the nodes, each weighed by its own ancestors. */
  lemma {:induction false} ComplexityIsTotal(n: Node, above: seq<Kind>)
    ensures Cyclomatic(n) == Total(CyclomaticWeight, Occurrences(n, above))
    ensures Cognitive(n, NestingAbove(above)) == Total(CognitiveWeight, Occurrences(n, above))
    decreases n, 0
  {
    hide Total, Occurrences, OccurrencesTo, NestingAbove, DepthAbove;
    var o := Occurrence(n.kind, above);
    AboveAppend(above, n.kind);
    ComplexityIsTotalTo(n.children, |n.children|, above + [n.kind]);
    TotalOfNode(CyclomaticWeight, n, above);
    TotalOfNode(CognitiveWeight, n, above);
    assert CyclomaticWeight(o) == OwnCyclomatic(n.kind);
    assert CognitiveWeight(o) == if Decides(n.kind) then 1 + NestingAbove(above) else 0;
  }

  lemma TotalOfNode(w: Occurrence -> int, n: Node, above: seq<Kind>)
    ensures Total(w, Occurrences(n, above))
         == w(Occurrence(n.kind, above)) + Total(w, OccurrencesTo(n.children, |n.children|, above + [n.kind]))
  {
    var o := Occurrence(n.kind, above);
    TotalConcat(w, [o], OccurrencesTo(n.children, |n.children|, above + [n.kind]));
    OneOccurrence(w, o, 0);
  }

  lemma {:induction false} ComplexityIsTotalTo(s: seq<Node>, k: nat, above: seq<Kind>)
    requires k <= |s|
    ensures CyclomaticTo(s, k) == Total(CyclomaticWeight, OccurrencesTo(s, k, above))
    ensures CognitiveTo(s, k, NestingAbove(above)) == Total(CognitiveWeight, OccurrencesTo(s, k, above))
    decreases s, k
  {
    if k > 0 {
      ComplexityIsTotalTo(s, k - 1, above);
      ComplexityIsTotal(s[k - 1], above);
      TotalConcat(CyclomaticWeight, OccurrencesTo(s, k - 1, above), Occurrences(s[k - 1], above));
      TotalConcat(CognitiveWeight, OccurrencesTo(s, k - 1, above), Occurrences(s[k - 1], above));
    }
  }

  /** The maximum depth is the largest number of hooked nodes on a path from the root. */
  lemma {:induction false} DepthIsHighest(n: Node, above: seq<Kind>, floor: int)
    requires floor >= 0
    ensures Deepest(n, DepthAbove(above), floor) == Highest(DepthWeight, Occurrences(n, above), floor)
    ensures Deepest(n, DepthAbove(above), floor) >= floor
    decreases n, 0
  {
    var o, rest := Occurrence(n.kind, above), OccurrencesTo(n.children, |n.children|, above + [n.kind]);
    AboveAppend(above, n.kind);
    OneOccurrence(DepthWeight, o, floor);
    HighestConcat(DepthWeight, [o], rest, floor);
    DepthIsHighestTo(n.children, |n.children|, above + [n.kind], Max(floor, DepthWeight(o)));
  }

  lemma {:induction false} DepthIsHighestTo(s: seq<Node>, k: nat, above: seq<Kind>, floor: int)
    requires k <= |s| && floor >= 0
    ensures DeepestTo(s, k, DepthAbove(above), floor) == Highest(DepthWeight, OccurrencesTo(s, k, above), floor)
    ensures DeepestTo(s, k, DepthAbove(above), floor) >= floor
    decreases s, k
  {
    if k > 0 {
      DepthIsHighestTo(s, k - 1, above, floor);
      var lower := DeepestTo(s, k - 1, DepthAbove(above), floor);
      DepthIsHighest(s[k - 1], above, lower);
      HighestConcat(DepthWeight, OccurrencesTo(s, k - 1, above), Occurrences(s[k - 1], above), floor);
    }
  }

  /** Cognitive complexity counts every decision node at least once, and exactly once if and only
      if no decision node lies under a loop or conditional. */
  lemma CognitiveCountsDecisions(n: Node)
    ensures var os := Occurrences(n, []);
      && Cognitive(n, 0) >= Total(DecisionWeight, os)
      && (Cognitive(n, 0) == Total(DecisionWeight, os) <==>
           forall o :: o in os && Decides(o.kind) ==> NestingAbove(o.above) == 0)
  {
    ComplexityIsTotal(n, []);
    WeightsAgree(Occurrences(n, []));
  }

  lemma {:induction false} WeightsAgree(os: seq<Occurrence>)
    ensures Total(CognitiveWeight, os) >= Total(DecisionWeight, os)
    ensures Total(CognitiveWeight, os) == Total(DecisionWeight, os) <==>
      forall o :: o in os && Decides(o.kind) ==> NestingAbove(o.above) == 0
  {
    if os != [] {
      WeightsAgree(os[..|os| - 1]);
      assert os == os[..|os| - 1] + [os[|os| - 1]];
    }
  }

  // Cognitive complexity against cyclomatic complexity and depth

  /** Boolean operators have operands. */
  ghost predicate Parsed(n: Node) {
    forall o :: o in Occurrences(n, []) && o.kind.BoolOp? ==> o.kind.operands >= 1
  }

  predicate OnlyDeepens(k: Kind) {
    k in {With, Try, FunctionDef, AsyncFunctionDef, ClassDef}
  }

  /** The node lies under a class that counts for the depth, but not for the nesting: a plain try, a
      with statement, a function or a class. */
  ghost predicate Hooked(o: Occurrence) {
    exists k :: k in o.above && OnlyDeepens(k)
  }

  lemma {:induction false} NestingAtMostDepth(above: seq<Kind>)
    ensures NestingAbove(above) <= DepthAbove(above)
    ensures NestingAbove(above) < DepthAbove(above) <==>
      exists k :: k in above && OnlyDeepens(k)
  {
    if above != [] {
      var init, last := above[..|above| - 1], above[|above| - 1];
      NestingAtMostDepth(init);
      assert last in HOOKED <==> last in {If, While, For} || OnlyDeepens(last);
      assert above == init + [last];
      assert forall k :: k in above <==> k in init || k == last;
      assert OnlyDeepens(last) ==> last !in {If, While, For};
      hide OnlyDeepens;
    }
  }

  /** The visitor enters the depth of every node it passes. */
  lemma {:induction false} DepthIsEntered(n: Node, above: seq<Kind>, floor: int, o: Occurrence)
    requires o in Occurrences(n, above) && floor >= DepthAbove(above)
    ensures DepthAbove(o.above) + Level(Deepens(o.kind)) <= Deepest(n, DepthAbove(above), floor)
    decreases n, 0
  {
    AboveAppend(above, n.kind);
    var floor' := if Deepens(n.kind) then Max(floor, DepthAbove(above) + 1) else floor;
    DeepestGrowsTo(n.children, |n.children|, DepthAbove(above + [n.kind]), floor');
    if o != Occurrence(n.kind, above) {
      DepthIsEnteredTo(n.children, |n.children|, above + [n.kind], floor', o);
    }
  }

  lemma {:induction false} DepthIsEnteredTo(s: seq<Node>, k: nat, above: seq<Kind>, floor: int, o: Occurrence)
    requires k <= |s| && o in OccurrencesTo(s, k, above) && floor >= DepthAbove(above)
    ensures DepthAbove(o.above) + Level(Deepens(o.kind)) <= DeepestTo(s, k, DepthAbove(above), floor)
    decreases s, k
  {
    var floor' := DeepestTo(s, k - 1, DepthAbove(above), floor);
    DeepestGrowsTo(s, k - 1, DepthAbove(above), floor);
    DeepestGrows(s[k - 1], DepthAbove(above), floor');
    if o in OccurrencesTo(s, k - 1, above) {
      DepthIsEnteredTo(s, k - 1, above, floor, o);
    } else {
      DepthIsEntered(s[k - 1], above, floor', o);
    }
  }

  lemma {:induction false} DeepestGrows(n: Node, d: int, floor: int)
    ensures Deepest(n, d, floor) >= floor
    decreases n, 0
  {
    if Deepens(n.kind) {
      DeepestGrowsTo(n.children, |n.children|, d + 1, Max(floor, d + 1));
    } else {
      DeepestGrowsTo(n.children, |n.children|, d, floor);
    }
  }

  lemma {:induction false} DeepestGrowsTo(s: seq<Node>, k: nat, d: int, floor: int)
    requires k <= |s|
    ensures DeepestTo(s, k, d, floor) >= floor
    decreases s, k
  {
    if k > 0 {
      DeepestGrowsTo(s, k - 1, d, floor);
      DeepestGrows(s[k - 1], d, DeepestTo(s, k - 1, d, floor));
    }
  }

  ghost predicate WeighsAtMost(o: Occurrence, bound: int) {
    CognitiveWeight(o) <= CyclomaticWeight(o) * bound
  }

  lemma {:induction false} TotalAtMost(os: seq<Occurrence>, bound: int)
    requires forall o :: o in os ==> WeighsAtMost(o, bound)
    ensures Total(CognitiveWeight, os) <= Total(CyclomaticWeight, os) * bound
  {
    if os != [] {
      var init, last := os[..|os| - 1], os[|os| - 1];
      assert os == init + [last];
      TotalAtMost(init, bound);
      assert WeighsAtMost(last, bound);
      Distribute(Total(CyclomaticWeight, init), CyclomaticWeight(last), bound);
    }
  }

  lemma Distribute(a: int, b: int, m: int)
    ensures (a + b) * m == a * m + b * m
  {
  }

  lemma WeightAtMost(o: Occurrence, bound: nat)
    requires o.kind.BoolOp? ==> o.kind.operands >= 1
    requires Decides(o.kind) ==> NestingAbove(o.above) < bound
    ensures WeighsAtMost(o, bound)
  {
    if o.kind.BoolOp? {
      assert (o.kind.operands - 1) * bound >= 0;
    }
  }

  /** Every loop and conditional lies at a nesting below the bound when the bound covers the depth. */
  lemma ComplexityAtMost(n: Node, bound: nat)
    requires Parsed(n) && bound >= Deepest(n, 0, 0)
    requires forall o :: o in Occurrences(n, []) && o.kind == ExceptHandler ==> NestingAbove(o.above) < bound
    ensures Cognitive(n, 0) <= Cyclomatic(n) * bound
  {
    var os := Occurrences(n, []);
    ComplexityIsTotal(n, []);
    forall o | o in os ensures WeighsAtMost(o, bound) {
      DepthIsEntered(n, [], 0, o);
      NestingAtMostDepth(o.above);
      WeightAtMost(o, bound);
    }
    hide *;
    TotalAtMost(os, bound);
  }

  /** For every tree whose except handlers all lie at a nesting below the maximum depth: cognitive
      complexity is at most (cyclomatic complexity - 1) times the maximum depth. */
  lemma CognitiveAtMostCyclomaticTimesDepth(n: Node)
    requires Parsed(n)
    requires forall o :: o in Occurrences(n, []) && o.kind == ExceptHandler ==> NestingAbove(o.above) < Deepest(n, 0, 0)
    ensures Cognitive(n, 0) <= Cyclomatic(n) * Deepest(n, 0, 0)
  {
    DeepestGrows(n, 0, 0);
    ComplexityAtMost(n, Deepest(n, 0, 0));
  }

  /** A handler of a plain try does, and so does any handler in a with statement, a function or a class. */
  lemma HookedHandlersAreBelowDepth(n: Node, o: Occurrence)
    requires o in Occurrences(n, []) && Hooked(o)
    ensures NestingAbove(o.above) < Deepest(n, 0, 0)
  {
    DepthIsEntered(n, [], 0, o);
    NestingAtMostDepth(o.above);
  }

  /** For every tree at all one more level is enough: `except*`, whose class the depth visitor does
      not hook, costs no more. */
  lemma CognitiveBoundWithTryStar(n: Node)
    requires Parsed(n)
    ensures Cognitive(n, 0) <= Cyclomatic(n) * (Deepest(n, 0, 0) + 1)
  {
    DeepestGrows(n, 0, 0);
    forall o | o in Occurrences(n, []) ensures NestingAbove(o.above) <= Deepest(n, 0, 0) {
      DepthIsEntered(n, [], 0, o);
      NestingAtMostDepth(o.above);
    }
    ComplexityAtMost(n, Deepest(n, 0, 0) + 1);
  }

  /** The extra one is needed: a lone `except*` handler has cognitive complexity 1 at depth 0. */
  lemma TryStarExceedsDepth()
    ensures var n := Node(TryStar, [Node(ExceptHandler, [])]);
      Cognitive(n, 0) == 1 && Cyclomatic(n) == 1 && Deepest(n, 0, 0) == 0
  {
    var h := Node(ExceptHandler, []);
    assert Cognitive(h, 0) == 1 && Cyclomatic(h) == 1;
    assert CognitiveTo([h], 1, 0) == CognitiveTo([h], 0, 0) + Cognitive(h, 0);
    assert CyclomaticTo([h], 1) == CyclomaticTo([h], 0) + Cyclomatic(h);
    assert DeepestTo([h], 1, 0, 0) == Deepest(h, 0, DeepestTo([h], 0, 0, 0));
  }
}
