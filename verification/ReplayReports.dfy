/** Which lines the reports of layers 1 and 2 hold, and in which order: that determines both reports. */
module ReplayReports {
  import opened ReplayTheorems
  import opened ReplayValidator

  /** The latest lifecycle event of the agent before event i is a creation. */
  ghost predicate CreatedBefore(events: seq<Event>, i: nat, a: Value)
    requires i <= |events|
  {
    exists k :: 0 <= k < i && IsAgentEvent(events[k], a) && events[k].kind == AgentCreated
      && forall j :: k < j < i ==> !IsAgentEvent(events[j], a)
  }

  lemma {:induction false} CreatedBeforeIff(events: seq<Event>, i: nat, a: Value)
    requires i <= |events| && Truthy(a)
    ensures Alive(AgentFlags(events, i), a) <==> CreatedBefore(events, i, a)
  {
    if i > 0 {
      CreatedBeforeIff(events, i - 1, a);
      CreatedBeforeStep(events, i, a);
    }
  }

  lemma CreatedBeforeStep(events: seq<Event>, i: nat, a: Value)
    requires 0 < i <= |events|
    ensures CreatedBefore(events, i, a) <==>
      if IsAgentEvent(events[i - 1], a) then events[i - 1].kind == AgentCreated else CreatedBefore(events, i - 1, a)
  {
    hide IsAgentEvent;
    if CreatedBefore(events, i - 1, a) && !IsAgentEvent(events[i - 1], a) {
      var k :| 0 <= k < i - 1 && IsAgentEvent(events[k], a) && events[k].kind == AgentCreated
        && forall j :: k < j < i - 1 ==> !IsAgentEvent(events[j], a);
      assert forall j :: k < j < i ==> !IsAgentEvent(events[j], a);
    }
  }

  // Layer 2

  /** The line belongs into the report of layer 2. */
  ghost predicate TemporalLine(events: seq<Event>, x: Issue)
    requires x.i < |events|
  {
    var e := events[x.i];
    match x
    case UnseenParent(i) => Truthy(e.parent) && forall j :: 0 <= j <= i ==> events[j].msgId != e.parent
    case CreatedTwice(i, a) => e.agent == a && Truthy(a) && e.kind == AgentCreated && CreatedBefore(events, i, a)
    case DestroyedWithoutCreated(i, a) =>
      e.agent == a && Truthy(a) && e.kind == AgentDestroyed && !CreatedBefore(events, i, a)
    case IllegalTransition(i, t) => IsTaskEvent(e, t) && e.kind !in Allowed(Machine(TaskTrace(events, i, t)))
    case _ => false
  }

  lemma ParentLines(events: seq<Event>, i: nat, x: Issue)
    requires i < |events|
    ensures x in ParentIssues(events, i) <==> x.i == i && x.UnseenParent? && TemporalLine(events, x)
  {
    SeenBeforeIds(events, i + 1, events[i].parent);
    hide SeenBefore, CreatedBefore, Allowed, Machine, TaskTrace, IsTaskEvent;
  }

  lemma AgentLines(events: seq<Event>, i: nat, x: Issue)
    requires i < |events|
    ensures x in AgentIssues(events, i) <==>
      x.i == i && (x.CreatedTwice? || x.DestroyedWithoutCreated?) && TemporalLine(events, x)
  {
    if Truthy(events[i].agent) {
      CreatedBeforeIff(events, i, events[i].agent);
    }
    hide AgentFlags, CreatedBefore, Allowed, Machine, TaskTrace, IsTaskEvent, Alive;
  }

  lemma TaskLines(events: seq<Event>, i: nat, x: Issue)
    requires i < |events|
    ensures x in TaskIssues(events, i) <==> x.i == i && x.IllegalTransition? && TemporalLine(events, x)
  {
    if Truthy(events[i].task) {
      TaskJudgedByOwnEvents(events, i, events[i].task);
    }
    hide GuardedStates, CreatedBefore, Allowed, Machine, TaskTrace, Count, StateOf, Lookup;
  }

  lemma LinesOfEvent(events: seq<Event>, i: nat, x: Issue)
    requires i < |events|
    ensures x in ParentIssues(events, i) + AgentIssues(events, i) + TaskIssues(events, i) <==>
      x.i == i && TemporalLine(events, x)
  {
    ParentLines(events, i, x);
    AgentLines(events, i, x);
    TaskLines(events, i, x);
    hide ParentIssues, AgentIssues, TaskIssues, IsTaskEvent, CreatedBefore, Truthy;
  }

  /** Layer 2 reports exactly the lines that belong into its report, for all events. */
  lemma {:induction false} TemporalReportIff(events: seq<Event>, n: nat, x: Issue)
    requires n <= |events|
    ensures x in Temporal(events, n) <==> x.i < n && TemporalLine(events, x)
  {
    hide ParentIssues, AgentIssues, TaskIssues, TemporalLine;
    if n > 0 {
      TemporalReportIff(events, n - 1, x);
      LinesOfEvent(events, n - 1, x);
      TemporalStep(events, n - 1);
    }
  }

  // Layer 1

  /** The line belongs into the report of layer 1. */
  ghost predicate StructuralLine(events: seq<Event>, x: Issue)
    requires x.i < |events|
  {
    var e := events[x.i];
    match x
    case MissingFields(_) => !(REQUIRED_FIELDS <= e.fields)
    case InvalidId(_) => !ProperId(e.msgId)
    case DuplicateId(i) => ProperId(e.msgId) && exists j :: 0 <= j < i && events[j].msgId == e.msgId
    case _ => false
  }

  lemma LinesOfFields(events: seq<Event>, i: nat, x: Issue)
    requires i < |events|
    ensures x in FieldIssues(events[i], i) + IdIssues(events[i].msgId, ValidIds(events, i), i) <==>
      x.i == i && StructuralLine(events, x)
  {
    var e := events[i];
    FieldIssueCount(e, i);
    CountShort(MissingFields(i), Fields);
    if e.msgId.Text? {
      ValidIdsSeen(events, i, e.msgId.text);
    }
    hide ValidIds, Count;
  }

  /** Layer 1 reports exactly the lines that belong into its report. */
  lemma {:induction false} StructuralReportIff(events: seq<Event>, n: nat, x: Issue)
    requires n <= |events|
    ensures x in Structural(events, n) <==> x.i < n && StructuralLine(events, x)
  {
    hide FieldIssues, IdIssues, StructuralLine, ValidIds;
    if n > 0 {
      StructuralReportIff(events, n - 1, x);
      LinesOfFields(events, n - 1, x);
    }
  }

  // Order

  /** The order of the checks on one event. */
  function Rank(x: Issue): nat {
    match x
    case MissingFields(_) => 0
    case InvalidId(_) => 1
    case DuplicateId(_) => 1
    case UnseenParent(_) => 2
    case CreatedTwice(_, _) => 3
    case DestroyedWithoutCreated(_, _) => 3
    case IllegalTransition(_, _) => 4
  }

  predicate Precedes(x: Issue, y: Issue) {
    x.i < y.i || (x.i == y.i && Rank(x) < Rank(y))
  }

  ghost predicate Ordered(errors: seq<Issue>) {
    forall a, b :: 0 <= a < b < |errors| ==> Precedes(errors[a], errors[b])
  }

  ghost predicate Below(errors: seq<Issue>, n: nat) {
    forall x :: x in errors ==> x.i < n
  }

  /** The lines about event i follow those about earlier events. */
  lemma OrderedAppend(errors: seq<Issue>, i: nat, more: seq<Issue>)
    requires Ordered(errors) && Below(errors, i) && Ordered(more) && forall x :: x in more ==> x.i == i
    ensures Ordered(errors + more) && Below(errors + more, i + 1)
  {
    forall a, b | 0 <= a < b < |errors + more| ensures Precedes((errors + more)[a], (errors + more)[b]) {
      assert a < |errors| ==> errors[a] in errors;
      assert b >= |errors| ==> more[b - |errors|] in more;
    }
  }

  lemma TemporalOfEvent(events: seq<Event>, i: nat)
    requires i < |events|
    ensures var more := ParentIssues(events, i) + AgentIssues(events, i) + TaskIssues(events, i);
      Ordered(more) && forall x :: x in more ==> x.i == i
  {
    hide Alive, AgentFlags, GuardedStates, SeenBefore, Allowed, Lookup, IsTaskEvent, IsAgentEvent, Truthy;
  }

  lemma StructuralOfEvent(events: seq<Event>, i: nat)
    requires i < |events|
    ensures var more := FieldIssues(events[i], i) + IdIssues(events[i].msgId, ValidIds(events, i), i);
      Ordered(more) && forall x :: x in more ==> x.i == i
  {
    hide ValidIds;
  }

  /** Both reports go by event and then by check, each line once. */
  lemma {:induction false} TemporalIsOrdered(events: seq<Event>, n: nat)
    requires n <= |events|
    ensures Ordered(Temporal(events, n)) && Below(Temporal(events, n), n)
  {
    hide Temporal, ParentIssues, AgentIssues, TaskIssues, Ordered, Below;
    if n == 0 {
      TemporalNone(events);
      NothingOrdered();
    } else {
      var i := n - 1;
      TemporalIsOrdered(events, i);
      TemporalOfEvent(events, i);
      var p, a, k := ParentIssues(events, i), AgentIssues(events, i), TaskIssues(events, i);
      OrderedAppend(Temporal(events, i), i, p + a + k);
      TemporalStep(events, i);
      assert Temporal(events, n) == Temporal(events, i) + (p + a + k);
    }
  }

  lemma {:induction false} StructuralIsOrdered(events: seq<Event>, n: nat)
    requires n <= |events|
    ensures Ordered(Structural(events, n)) && Below(Structural(events, n), n)
  {
    hide FieldIssues, IdIssues, ValidIds, Ordered, Below;
    if n == 0 {
      StructuralNone(events);
      NothingOrdered();
    } else {
      var i := n - 1;
      StructuralIsOrdered(events, i);
      StructuralOfEvent(events, i);
      var f, d := FieldIssues(events[i], i), IdIssues(events[i].msgId, ValidIds(events, i), i);
      OrderedAppend(Structural(events, i), i, f + d);
      assert Structural(events, n) == Structural(events, i) + (f + d);
    }
  }

  lemma NothingOrdered()
    ensures Ordered([]) && Below([], 0)
  {
  }
}
