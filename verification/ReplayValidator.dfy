/** The session-log validator: layer 1 checks ids, layer 2 runs the interleaved task and agent
    state machines and the causal-parent check, layer 3 rebuilds the task states on its own. */
module ReplayValidator {
  import opened Options

  /** A JSON value in an id position: absent or null, a string, or a number. */
  datatype Value = Null | Text(text: string) | Number(n: int)

  /** Python truthiness. */
  predicate Truthy(v: Value) {
    match v
    case Null => false
    case Text(t) => t != ""
    case Number(n) => n != 0
  }

  datatype Kind =
    | AgentCreated | AgentDestroyed
    | TaskStarted | TaskCompleted | TaskFailed
    | Heartbeat | Other(name: string)

  datatype TaskState = CREATED | STARTED | COMPLETED | FAILED

  /** A log line: its field names, its id, its event type, and the payload fields the layers read.
      `auth` is the list of active tasks of an authoritative state. */
  datatype Event = Event(
    fields: set<string>, msgId: Value, kind: Kind,
    task: Value, agent: Value, parent: Value, auth: Option<set<Value>>)

  datatype Issue =
    | MissingFields(i: nat)
    | InvalidId(i: nat)
    | DuplicateId(i: nat)
    | UnseenParent(i: nat)
    | CreatedTwice(i: nat, agent: Value)
    | DestroyedWithoutCreated(i: nat, agent: Value)
    | IllegalTransition(i: nat, task: Value)

  const REQUIRED_FIELDS: set<string> :=
    {"timestamp", "event_type", "source_runtime", "severity", "correlation_id", "msg_id", "payload"}

  /** EVENT_TO_STATE. */
  function StateOf(k: Kind): Option<TaskState> {
    match k
    case AgentCreated => Some(CREATED)
    case TaskStarted => Some(STARTED)
    case TaskCompleted => Some(COMPLETED)
    case TaskFailed => Some(FAILED)
    case _ => None
  }

  /** TASK_TRANSITIONS. */
  function Allowed(current: Option<TaskState>): set<Kind> {
    match current
    case None => {AgentCreated, TaskStarted}
    case Some(CREATED) => {TaskStarted}
    case Some(STARTED) => {TaskCompleted, TaskFailed}
    case Some(COMPLETED) => {}
    case Some(FAILED) => {}
  }

  function Lookup(states: map<Value, TaskState>, t: Value): Option<TaskState> {
    if t in states then Some(states[t]) else None
  }

  /** An event of task t: it names the task and has a task state. */
  predicate IsTaskEvent(e: Event, t: Value) {
    e.task == t && Truthy(t) && StateOf(e.kind).Some?
  }

  predicate IsAgentEvent(e: Event, a: Value) {
    e.agent == a && Truthy(a) && (e.kind == AgentCreated || e.kind == AgentDestroyed)
  }

  // What the layers compute after n events

  ghost function SeenBefore(events: seq<Event>, n: nat): set<Value>
    requires n <= |events|
  {
    if n == 0 then {}
    else SeenBefore(events, n - 1) + if Truthy(events[n - 1].msgId) then {events[n - 1].msgId} else {}
  }

  /** The guarded task map of layer 2. */
  ghost function GuardedStates(events: seq<Event>, n: nat): map<Value, TaskState>
    requires n <= |events|
  {
    if n == 0 then map[]
    else
      var states, e := GuardedStates(events, n - 1), events[n - 1];
      if IsTaskEvent(e, e.task) && e.kind in Allowed(Lookup(states, e.task))
      then states[e.task := StateOf(e.kind).value] else states
  }

  /** The unguarded task map of layer 3. */
  ghost function ReplayedStates(events: seq<Event>, n: nat): map<Value, TaskState>
    requires n <= |events|
  {
    if n == 0 then map[]
    else
      var states, e := ReplayedStates(events, n - 1), events[n - 1];
      if IsTaskEvent(e, e.task) then states[e.task := StateOf(e.kind).value] else states
  }

  ghost function AgentFlags(events: seq<Event>, n: nat): map<Value, bool>
    requires n <= |events|
  {
    if n == 0 then map[]
    else
      var flags, e := AgentFlags(events, n - 1), events[n - 1];
      if IsAgentEvent(e, e.agent) then flags[e.agent := e.kind == AgentCreated] else flags
  }

  predicate Alive(flags: map<Value, bool>, a: Value) {
    a in flags && flags[a]
  }

  ghost function ParentIssues(events: seq<Event>, i: nat): seq<Issue>
    requires i < |events|
  {
    if Truthy(events[i].parent) && events[i].parent !in SeenBefore(events, i + 1) then [UnseenParent(i)] else []
  }

  ghost function AgentIssues(events: seq<Event>, i: nat): seq<Issue>
    requires i < |events|
  {
    var e := events[i];
    if !IsAgentEvent(e, e.agent) then []
    else if Alive(AgentFlags(events, i), e.agent) then
      if e.kind == AgentCreated then [CreatedTwice(i, e.agent)] else []
    else
      if e.kind == AgentCreated then [] else [DestroyedWithoutCreated(i, e.agent)]
  }

  ghost function TaskIssues(events: seq<Event>, i: nat): seq<Issue>
    requires i < |events|
  {
    var e := events[i];
    if IsTaskEvent(e, e.task) && e.kind !in Allowed(Lookup(GuardedStates(events, i), e.task))
    then [IllegalTransition(i, e.task)] else []
  }

  /** The layer 2 report on the first n events. */
  ghost function Temporal(events: seq<Event>, n: nat): seq<Issue>
    requires n <= |events|
  {
    if n == 0 then []
    else Temporal(events, n - 1) + ParentIssues(events, n - 1) + AgentIssues(events, n - 1) + TaskIssues(events, n - 1)
  }

  ghost function ValidIds(events: seq<Event>, n: nat): set<string>
    requires n <= |events|
  {
    if n == 0 then {}
    else
      ValidIds(events, n - 1)
      + if events[n - 1].msgId.Text? && events[n - 1].msgId.text != "" then {events[n - 1].msgId.text} else {}
  }

  ghost function FieldIssues(e: Event, i: nat): seq<Issue> {
    if REQUIRED_FIELDS - e.fields == {} then [] else [MissingFields(i)]
  }

  ghost function IdIssues(v: Value, seen: set<string>, i: nat): seq<Issue> {
    if !v.Text? || v.text == "" then [InvalidId(i)] else if v.text in seen then [DuplicateId(i)] else []
  }

  /** The layer 1 report on the first n events. */
  ghost function Structural(events: seq<Event>, n: nat): seq<Issue>
    requires n <= |events|
  {
    if n == 0 then []
    else
      Structural(events, n - 1) + FieldIssues(events[n - 1], n - 1)
      + IdIssues(events[n - 1].msgId, ValidIds(events, n - 1), n - 1)
  }

  // The layers

  lemma StructuralNone(events: seq<Event>)
    ensures Structural(events, 0) == [] && ValidIds(events, 0) == {}
  {
  }

  lemma StructuralStep(events: seq<Event>, i: nat, seen: set<string>)
    requires i < |events|
    requires var before, id := ValidIds(events, i), events[i].msgId;
      seen == if id.Text? && id.text != "" && id.text !in before then before + {id.text} else before
    ensures seen == ValidIds(events, i + 1)
    ensures Structural(events, i + 1)
         == Structural(events, i) + FieldIssues(events[i], i) + IdIssues(events[i].msgId, ValidIds(events, i), i)
  {
  }

  method Layer1Structural(events: seq<Event>) returns (errors: seq<Issue>)
    ensures errors == Structural(events, |events|)
  {
    hide Structural, ValidIds;
    errors := [];
    var seenMsgIds: set<string> := {};
    StructuralNone(events);
    var i := 0;
    while i < |events|
      invariant 0 <= i <= |events|
      invariant errors == Structural(events, i)
      invariant seenMsgIds == ValidIds(events, i)
    {
      var e := events[i];
      ghost var before := errors;
      var missing := REQUIRED_FIELDS - e.fields;
      if missing != {} {
        errors := errors + [MissingFields(i)];
      }
      assert errors == before + FieldIssues(e, i);
      if !e.msgId.Text? || e.msgId.text == "" {
        errors := errors + [InvalidId(i)];
      } else if e.msgId.text in seenMsgIds {
        errors := errors + [DuplicateId(i)];
      } else {
        seenMsgIds := seenMsgIds + {e.msgId.text};
      }
      StructuralStep(events, i, seenMsgIds);
      i := i + 1;
    }
  }

  lemma TemporalNone(events: seq<Event>)
    ensures Temporal(events, 0) == [] && GuardedStates(events, 0) == map[]
    ensures SeenBefore(events, 0) == {} && AgentFlags(events, 0) == map[]
  {
  }

  lemma SeenStep(events: seq<Event>, i: nat, seen: set<Value>)
    requires i < |events|
    requires var before, id := SeenBefore(events, i), events[i].msgId;
      seen == if Truthy(id) then before + {id} else before
    ensures seen == SeenBefore(events, i + 1)
    ensures ParentIssues(events, i) ==
      if Truthy(events[i].parent) && events[i].parent !in seen then [UnseenParent(i)] else []
  {
  }

  lemma FlagsStep(events: seq<Event>, i: nat, flags: map<Value, bool>)
    requires i < |events|
    requires var before, e := AgentFlags(events, i), events[i];
      flags == if IsAgentEvent(e, e.agent) then before[e.agent := e.kind == AgentCreated] else before
    ensures flags == AgentFlags(events, i + 1)
  {
  }

  lemma StatesStep(events: seq<Event>, i: nat, states: map<Value, TaskState>)
    requires i < |events|
    requires var before, e := GuardedStates(events, i), events[i];
      states == if IsTaskEvent(e, e.task) && e.kind in Allowed(Lookup(before, e.task))
        then before[e.task := StateOf(e.kind).value] else before
    ensures states == GuardedStates(events, i + 1)
  {
  }

  lemma TemporalStep(events: seq<Event>, i: nat)
    requires i < |events|
    ensures Temporal(events, i + 1)
         == Temporal(events, i) + ParentIssues(events, i) + AgentIssues(events, i) + TaskIssues(events, i)
  {
  }

  lemma TaskEventHasState(e: Event)
    requires IsTaskEvent(e, e.task)
    ensures StateOf(e.kind).Some?
  {
  }

  method Layer2Temporal(events: seq<Event>) returns (errors: seq<Issue>)
    ensures errors == Temporal(events, |events|)
  {
    hide Allowed, Truthy, Lookup, Alive, IsTaskEvent, Temporal, GuardedStates, SeenBefore, AgentFlags, StateOf;
    errors := [];
    var taskStates: map<Value, TaskState> := map[];
    var seenMsgIds: set<Value> := {};
    var agentAlive: map<Value, bool> := map[];
    TemporalNone(events);
    var i := 0;
    while i < |events|
      invariant 0 <= i <= |events|
      invariant errors == Temporal(events, i)
      invariant taskStates == GuardedStates(events, i)
      invariant seenMsgIds == SeenBefore(events, i)
      invariant agentAlive == AgentFlags(events, i)
    {
      var e := events[i];
      ghost var before := errors;
      ghost var p, a, t := ParentIssues(events, i), AgentIssues(events, i), TaskIssues(events, i);
      if Truthy(e.msgId) {
        seenMsgIds := seenMsgIds + {e.msgId};
      }
      SeenStep(events, i, seenMsgIds);
      if Truthy(e.parent) && e.parent !in seenMsgIds {
        errors := errors + [UnseenParent(i)];
      }
      assert errors == before + p;
      if e.kind == AgentCreated && Truthy(e.agent) {
        if Alive(agentAlive, e.agent) {
          errors := errors + [CreatedTwice(i, e.agent)];
        }
        agentAlive := agentAlive[e.agent := true];
      } else if e.kind == AgentDestroyed && Truthy(e.agent) {
        if !Alive(agentAlive, e.agent) {
          errors := errors + [DestroyedWithoutCreated(i, e.agent)];
        }
        agentAlive := agentAlive[e.agent := false];
      }
      FlagsStep(events, i, agentAlive);
      assert errors == before + p + a;
      if IsTaskEvent(e, e.task) {
        TaskEventHasState(e);
        var current := Lookup(taskStates, e.task);
        if e.kind !in Allowed(current) {
          errors := errors + [IllegalTransition(i, e.task)];
        } else {
          taskStates := taskStates[e.task := StateOf(e.kind).value];
        }
      }
      StatesStep(events, i, taskStates);
      TemporalStep(events, i);
      assert errors == before + p + a + t;
      i := i + 1;
    }
  }

  ghost function ActiveTasks(states: map<Value, TaskState>): set<Value> {
    set t | t in states && (states[t] == CREATED || states[t] == STARTED)
  }

  datatype SemanticReport = NoHeartbeat | Mismatch(replayed: set<Value>, auth: set<Value>) | Agree

  /** A heartbeat that carries a list of active tasks. */
  predicate IsReport(e: Event) {
    e.kind == Heartbeat && e.auth.Some?
  }

  /** The last event of t among the first n leaves it created or started. */
  ghost predicate ActiveAfter(events: seq<Event>, n: nat, t: Value)
    requires n <= |events|
  {
    exists i :: 0 <= i < n && IsTaskEvent(events[i], t)
      && (events[i].kind == AgentCreated || events[i].kind == TaskStarted)
      && forall j :: i < j < n ==> !IsTaskEvent(events[j], t)
  }

  lemma {:induction false} ActiveIff(events: seq<Event>, n: nat, t: Value)
    requires n <= |events|
    ensures t in ActiveTasks(ReplayedStates(events, n)) <==> ActiveAfter(events, n, t)
  {
    if n > 0 {
      ActiveIff(events, n - 1, t);
      ActiveStep(events, n, t);
    }
  }

  lemma ActiveStep(events: seq<Event>, n: nat, t: Value)
    requires 0 < n <= |events|
    ensures ActiveAfter(events, n, t) <==>
      if IsTaskEvent(events[n - 1], t) then events[n - 1].kind == AgentCreated || events[n - 1].kind == TaskStarted
      else ActiveAfter(events, n - 1, t)
  {
    hide IsTaskEvent;
    if ActiveAfter(events, n - 1, t) && !IsTaskEvent(events[n - 1], t) {
      var i :| 0 <= i < n - 1 && IsTaskEvent(events[i], t)
        && (events[i].kind == AgentCreated || events[i].kind == TaskStarted)
        && forall j :: i < j < n - 1 ==> !IsTaskEvent(events[j], t);
      assert forall j :: i < j < n ==> !IsTaskEvent(events[j], t);
    }
  }

  ghost predicate LastReport(events: seq<Event>, n: nat, i: nat)
    requires n <= |events|
  {
    i < n && IsReport(events[i]) && forall j :: i < j < n ==> !IsReport(events[j])
  }

  /** The verdict against the list that event i carries. */
  ghost predicate Compares(report: SemanticReport, events: seq<Event>, i: nat)
    requires i < |events| && IsReport(events[i])
  {
    var auth := events[i].auth.value;
    match report
    case NoHeartbeat => false
    case Agree => forall t :: t in auth <==> ActiveAfter(events, |events|, t)
    case Mismatch(replayed, listed) =>
      && listed == auth && replayed != auth
      && forall t :: t in replayed <==> ActiveAfter(events, |events|, t)
  }

  /** The replayed active tasks are compared with the list of the last heartbeat that carries one. */
  method Layer3Semantic(events: seq<Event>) returns (report: SemanticReport)
    ensures report.NoHeartbeat? <==> forall i :: 0 <= i < |events| ==> !IsReport(events[i])
    ensures !report.NoHeartbeat? ==> exists i :: LastReport(events, |events|, i) && Compares(report, events, i)
  {
    var last: Option<set<Value>> := None;
    var i := 0;
    ghost var at := 0;
    while i < |events|
      invariant 0 <= i <= |events|
      invariant last.None? ==> forall j :: 0 <= j < i ==> !IsReport(events[j])
      invariant last.Some? ==> LastReport(events, i, at) && last == events[at].auth
    {
      if events[i].kind == Heartbeat && events[i].auth.Some? {
        last := events[i].auth;
        at := i;
      }
      i := i + 1;
    }
    if last.None? {
      return NoHeartbeat;
    }
    var taskStates: map<Value, TaskState> := map[];
    i := 0;
    while i < |events|
      invariant 0 <= i <= |events|
      invariant taskStates == ReplayedStates(events, i)
    {
      var e := events[i];
      if Truthy(e.task) && StateOf(e.kind).Some? {
        taskStates := taskStates[e.task := StateOf(e.kind).value];
      }
      i := i + 1;
    }
    var replayActive := set t | t in taskStates && (taskStates[t] == CREATED || taskStates[t] == STARTED);
    assert replayActive == ActiveTasks(taskStates);
    forall t ensures t in replayActive <==> ActiveAfter(events, |events|, t) {
      ActiveIff(events, |events|, t);
    }
    hide ActiveAfter, ActiveTasks, ReplayedStates;
    report := if replayActive == last.value then Agree else Mismatch(replayActive, last.value);
    assert Compares(report, events, at);
  }
}
