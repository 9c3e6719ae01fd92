/** What the validator's verdicts mean: each task and each agent is judged by its own events only,
    the accepted words are a fixed language, and accepted logs have a well-founded causal order. */
module ReplayTheorems {
  import opened Options
  import opened ReplayValidator

  /** What a report line is about. */
  datatype Subject = Task(t: Value) | Agent(a: Value) | Parents | Ids | Fields

  predicate Concerns(x: Issue, s: Subject) {
    match x
    case IllegalTransition(_, t) => s == Task(t)
    case CreatedTwice(_, a) => s == Agent(a)
    case DestroyedWithoutCreated(_, a) => s == Agent(a)
    case UnseenParent(_) => s == Parents
    case InvalidId(_) => s == Ids
    case DuplicateId(_) => s == Ids
    case MissingFields(_) => s == Fields
  }

  /** How many of the first n report lines are about s. */
  ghost function CountTo(errors: seq<Issue>, s: Subject, n: nat): nat
    requires n <= |errors|
  {
    if n == 0 then 0 else CountTo(errors, s, n - 1) + if Concerns(errors[n - 1], s) then 1 else 0
  }

  ghost function Count(errors: seq<Issue>, s: Subject): nat {
    CountTo(errors, s, |errors|)
  }

  lemma {:induction false} CountConcatTo(a: seq<Issue>, b: seq<Issue>, s: Subject, n: nat)
    requires n <= |b|
    ensures CountTo(a + b, s, |a| + n) == Count(a, s) + CountTo(b, s, n)
  {
    if n > 0 {
      CountConcatTo(a, b, s, n - 1);
    } else {
      CountPrefix(a, b, s, |a|);
    }
  }

  lemma {:induction false} CountPrefix(a: seq<Issue>, b: seq<Issue>, s: Subject, n: nat)
    requires n <= |a|
    ensures CountTo(a + b, s, n) == CountTo(a, s, n)
  {
    if n > 0 {
      CountPrefix(a, b, s, n - 1);
    }
  }

  lemma CountConcat(a: seq<Issue>, b: seq<Issue>, s: Subject)
    ensures Count(a + b, s) == Count(a, s) + Count(b, s)
  {
    CountConcatTo(a, b, s, |b|);
  }

  lemma CountShort(x: Issue, s: Subject)
    ensures Count([x], s) == if Concerns(x, s) then 1 else 0
    ensures Count([], s) == 0
  {
    assert CountTo([x], s, 0) == 0;
  }

  lemma TemporalEmpty(events: seq<Event>, s: Subject)
    ensures Count(Temporal(events, 0), s) == 0
  {
    CountShort(InvalidId(0), s);
  }

  lemma TemporalCountStep(events: seq<Event>, n: nat, s: Subject)
    requires 0 < n <= |events|
    ensures Count(Temporal(events, n), s) == Count(Temporal(events, n - 1), s)
      + Count(ParentIssues(events, n - 1), s) + Count(AgentIssues(events, n - 1), s)
      + Count(TaskIssues(events, n - 1), s)
  {
    hide Count;
    var t, p := Temporal(events, n - 1), ParentIssues(events, n - 1);
    var a, k := AgentIssues(events, n - 1), TaskIssues(events, n - 1);
    CountConcat(t, p, s);
    CountConcat(t + p, a, s);
    CountConcat(t + p + a, k, s);
  }

  // Tasks

  /** The kinds of the task events of t among the first n events. */
  ghost function TaskTrace(events: seq<Event>, n: nat, t: Value): seq<Kind>
    requires n <= |events|
  {
    if n == 0 then []
    else if IsTaskEvent(events[n - 1], t) then TaskTrace(events, n - 1, t) + [events[n - 1].kind]
    else TaskTrace(events, n - 1, t)
  }

  /** The transition table run on one word: an event outside the table is rejected and changes nothing. */
  ghost function Machine(w: seq<Kind>): Option<TaskState> {
    if w == [] then None
    else
      var s, k := Machine(w[..|w| - 1]), w[|w| - 1];
      if k in Allowed(s) then StateOf(k) else s
  }

  ghost function Rejections(w: seq<Kind>): nat {
    if w == [] then 0
    else Rejections(w[..|w| - 1]) + if w[|w| - 1] in Allowed(Machine(w[..|w| - 1])) then 0 else 1
  }

  lemma TaskIssueCount(events: seq<Event>, i: nat, t: Value)
    requires i < |events| && Truthy(t)
    ensures Count(TaskIssues(events, i), Task(t)) ==
      if IsTaskEvent(events[i], t) && events[i].kind !in Allowed(Lookup(GuardedStates(events, i), t)) then 1 else 0
    ensures Count(ParentIssues(events, i), Task(t)) == 0 && Count(AgentIssues(events, i), Task(t)) == 0
  {
    hide Allowed;
    CountShort(IllegalTransition(i, events[i].task), Task(t));
    CountShort(UnseenParent(i), Task(t));
    CountShort(CreatedTwice(i, events[i].agent), Task(t));
    CountShort(DestroyedWithoutCreated(i, events[i].agent), Task(t));
  }

  /** In the interleaved log, layer 2 judges each task exactly by the word of its own events. */
  lemma {:induction false} TaskJudgedByOwnEvents(events: seq<Event>, n: nat, t: Value)
    requires n <= |events| && Truthy(t)
    ensures Lookup(GuardedStates(events, n), t) == Machine(TaskTrace(events, n, t))
    ensures Count(Temporal(events, n), Task(t)) == Rejections(TaskTrace(events, n, t))
  {
    hide Count, Allowed, Temporal, GuardedStates, Machine, Rejections, Lookup, ParentIssues, AgentIssues, TaskIssues,
      IsTaskEvent, StateOf, Truthy;
    if n == 0 {
      TemporalEmpty(events, Task(t));
      NoTaskEvents(events, t);
    } else {
      TaskJudgedByOwnEvents(events, n - 1, t);
      TemporalCountStep(events, n, Task(t));
      TaskIssueCount(events, n - 1, t);
      GuardedStep(events, n, t);
      MachineStep(TaskTrace(events, n - 1, t), events[n - 1].kind);
    }
  }

  lemma NoTaskEvents(events: seq<Event>, t: Value)
    ensures Lookup(GuardedStates(events, 0), t) == None == Machine(TaskTrace(events, 0, t))
    ensures Rejections(TaskTrace(events, 0, t)) == 0
  {
  }

  lemma GuardedStep(events: seq<Event>, n: nat, t: Value)
    requires 0 < n <= |events| && Truthy(t)
    ensures var before, e := Lookup(GuardedStates(events, n - 1), t), events[n - 1];
      Lookup(GuardedStates(events, n), t) ==
        if IsTaskEvent(e, t) && e.kind in Allowed(before) then StateOf(e.kind) else before
  {
    hide Allowed;
  }

  lemma MachineStep(w: seq<Kind>, k: Kind)
    ensures Machine(w + [k]) == if k in Allowed(Machine(w)) then StateOf(k) else Machine(w)
    ensures Rejections(w + [k]) == Rejections(w) + if k in Allowed(Machine(w)) then 0 else 1
  {
    assert (w + [k])[..|w|] == w;
  }

  ghost function LastState(w: seq<Kind>): Option<TaskState> {
    if w == [] then None else StateOf(w[|w| - 1])
  }

  lemma {:induction false} ReplayedByOwnEvents(events: seq<Event>, n: nat, t: Value)
    requires n <= |events| && Truthy(t)
    ensures Lookup(ReplayedStates(events, n), t) == LastState(TaskTrace(events, n, t))
  {
    if n > 0 {
      ReplayedByOwnEvents(events, n - 1, t);
    }
  }

  lemma {:induction false} StatesAreTruthy(events: seq<Event>, n: nat)
    requires n <= |events|
    ensures forall t :: t in GuardedStates(events, n) || t in ReplayedStates(events, n) ==> Truthy(t)
  {
    if n > 0 {
      StatesAreTruthy(events, n - 1);
    }
  }

  ghost predicate SameTraces(a: seq<Event>, b: seq<Event>) {
    forall t :: Truthy(t) ==> TaskTrace(a, |a|, t) == TaskTrace(b, |b|, t)
  }

  /** Any two logs in which each task has the same events in the same order, however the tasks are
      interleaved with each other and with other events, get the same final task maps, the same
      number of illegal transitions per task, and the same active set. */
  lemma InterleavingDoesNotMatter(a: seq<Event>, b: seq<Event>)
    requires SameTraces(a, b)
    ensures GuardedStates(a, |a|) == GuardedStates(b, |b|)
    ensures ReplayedStates(a, |a|) == ReplayedStates(b, |b|)
    ensures ActiveTasks(ReplayedStates(a, |a|)) == ActiveTasks(ReplayedStates(b, |b|))
    ensures forall t :: Truthy(t) ==>
      Count(Temporal(a, |a|), Task(t)) == Count(Temporal(b, |b|), Task(t))
  {
    StatesAreTruthy(a, |a|);
    StatesAreTruthy(b, |b|);
    forall t | Truthy(t)
      ensures Lookup(GuardedStates(a, |a|), t) == Lookup(GuardedStates(b, |b|), t)
      ensures Lookup(ReplayedStates(a, |a|), t) == Lookup(ReplayedStates(b, |b|), t)
      ensures Count(Temporal(a, |a|), Task(t)) == Count(Temporal(b, |b|), Task(t))
    {
      TaskJudgedByOwnEvents(a, |a|, t);
      TaskJudgedByOwnEvents(b, |b|, t);
      ReplayedByOwnEvents(a, |a|, t);
      ReplayedByOwnEvents(b, |b|, t);
    }
    SameLookups(GuardedStates(a, |a|), GuardedStates(b, |b|));
    SameLookups(ReplayedStates(a, |a|), ReplayedStates(b, |b|));
  }

  lemma SameLookups(m: map<Value, TaskState>, n: map<Value, TaskState>)
    requires forall t :: t in m || t in n ==> Truthy(t)
    requires forall t :: Truthy(t) ==> Lookup(m, t) == Lookup(n, t)
    ensures m == n
  {
    forall t | t in m || t in n ensures t in m && t in n && m[t] == n[t] {
      assert Lookup(m, t) == Lookup(n, t);
    }
  }

  /** A prefix of [CREATED] STARTED (COMPLETED | FAILED), CREATED being optional. */
  ghost predicate Legal(w: seq<Kind>) {
    || w <= [AgentCreated, TaskStarted, TaskCompleted]
    || w <= [AgentCreated, TaskStarted, TaskFailed]
    || w <= [TaskStarted, TaskCompleted]
    || w <= [TaskStarted, TaskFailed]
  }

  lemma LegalStep(w: seq<Kind>, k: Kind)
    requires Legal(w)
    ensures Machine(w) == LastState(w)
    ensures k in Allowed(Machine(w)) <==> Legal(w + [k])
  {
    MachineOfLegal(w);
    var v := w + [k];
    assert v[..|w|] == w && v[|w|] == k;
    if |w| == 0 {
      assert w == [];
    } else if |w| == 1 {
      assert w == [w[0]] && v == [w[0], k];
    } else if |w| == 2 {
      assert w == [w[0], w[1]] && v == [w[0], w[1], k];
    } else {
      assert w == [w[0], w[1], w[2]];
    }
  }

  lemma {:induction false} MachineOfLegal(w: seq<Kind>)
    requires Legal(w)
    ensures Machine(w) == LastState(w)
  {
    if |w| > 0 {
      var u := w[..|w| - 1];
      assert Legal(u);
      MachineOfLegal(u);
      if |w| == 2 {
        assert w == [w[0], w[1]];
      } else if |w| == 3 {
        assert w == [w[0], w[1], w[2]];
      }
    }
  }

  /** The accepted words are exactly the legal ones. */
  lemma {:induction false} AcceptedIffLegal(w: seq<Kind>)
    ensures Rejections(w) == 0 <==> Legal(w)
  {
    if w != [] {
      var u, k := w[..|w| - 1], w[|w| - 1];
      AcceptedIffLegal(u);
      assert w == u + [k];
      if Legal(u) {
        LegalStep(u, k);
      }
    }
  }

  /** Layer 2 reports no illegal transition if and only if every task's events form a legal word. */
  lemma NoIllegalTransitionIffLegal(events: seq<Event>)
    ensures (forall t :: Truthy(t) ==> Count(Temporal(events, |events|), Task(t)) == 0)
       <==> (forall t :: Truthy(t) ==> Legal(TaskTrace(events, |events|, t)))
  {
    forall t | Truthy(t)
      ensures Count(Temporal(events, |events|), Task(t)) == 0 <==> Legal(TaskTrace(events, |events|, t))
    {
      TaskJudgedByOwnEvents(events, |events|, t);
      AcceptedIffLegal(TaskTrace(events, |events|, t));
    }
  }

  /** In a legal word a terminal event is the last event. */
  lemma NothingAfterTerminal(w: seq<Kind>, i: nat)
    requires Legal(w) && i < |w| && (w[i] == TaskCompleted || w[i] == TaskFailed)
    ensures i == |w| - 1
  {
  }

  // Layer 3 against layer 2

  ghost predicate NoIllegalTransition(events: seq<Event>, n: nat)
    requires n <= |events|
  {
    forall t :: Truthy(t) ==> Count(Temporal(events, n), Task(t)) == 0
  }

  lemma EarlierNoIllegalTransition(events: seq<Event>, n: nat)
    requires 0 < n <= |events| && NoIllegalTransition(events, n)
    ensures NoIllegalTransition(events, n - 1)
  {
    forall t | Truthy(t) ensures Count(Temporal(events, n - 1), Task(t)) == 0 {
      TemporalCountStep(events, n, Task(t));
    }
  }

  /** Without illegal transitions the unguarded reconstruction of layer 3 is layer 2's task map. */
  lemma ReconstructionsAgree(events: seq<Event>)
    requires NoIllegalTransition(events, |events|)
    ensures ReplayedStates(events, |events|) == GuardedStates(events, |events|)
  {
    var n := |events|;
    StatesAreTruthy(events, n);
    NoIllegalTransitionIffLegal(events);
    forall t | Truthy(t)
      ensures Lookup(ReplayedStates(events, n), t) == Lookup(GuardedStates(events, n), t)
    {
      TaskJudgedByOwnEvents(events, n, t);
      ReplayedByOwnEvents(events, n, t);
      MachineOfLegal(TaskTrace(events, n, t));
    }
    SameLookups(ReplayedStates(events, n), GuardedStates(events, n));
  }

  /** A task's last event is accepted, or repeats the state already held. */
  ghost predicate LastHolds(w: seq<Kind>) {
    w != [] ==>
      var before, k := Machine(w[..|w| - 1]), w[|w| - 1];
      k in Allowed(before) || StateOf(k) == before
  }

  /** The two reconstructions agree if and only if every task's last event is accepted by layer 2 or
      repeats the state the task already has. */
  lemma ReconstructionsAgreeIff(events: seq<Event>)
    ensures ReplayedStates(events, |events|) == GuardedStates(events, |events|) <==>
      forall t :: Truthy(t) ==> LastHolds(TaskTrace(events, |events|, t))
  {
    var n := |events|;
    StatesAreTruthy(events, n);
    forall t | Truthy(t)
      ensures Lookup(ReplayedStates(events, n), t) == Lookup(GuardedStates(events, n), t)
        <==> LastHolds(TaskTrace(events, n, t))
    {
      TaskJudgedByOwnEvents(events, n, t);
      ReplayedByOwnEvents(events, n, t);
    }
    if forall t :: Truthy(t) ==> LastHolds(TaskTrace(events, n, t)) {
      SameLookups(ReplayedStates(events, n), GuardedStates(events, n));
    }
  }

  /** With an illegal transition they can differ: a restart after completion is illegal for layer 2 and makes the
      task active again for layer 3. */
  lemma ReconstructionsDiffer(t: Value)
    requires Truthy(t)
    ensures var started := Event({}, Null, TaskStarted, t, Null, Null, None);
      var log := [started, started.(kind := TaskCompleted), started];
      GuardedStates(log, 3) == map[t := COMPLETED] && ReplayedStates(log, 3) == map[t := STARTED]
  {
    var started := Event({}, Null, TaskStarted, t, Null, Null, None);
    var log := [started, started.(kind := TaskCompleted), started];
    assert GuardedStates(log, 1) == GuardedStates(log, 0)[t := STARTED];
    assert GuardedStates(log, 2) == GuardedStates(log, 1)[t := COMPLETED];
    assert ReplayedStates(log, 1) == ReplayedStates(log, 0)[t := STARTED];
    assert ReplayedStates(log, 2) == ReplayedStates(log, 1)[t := COMPLETED];
    assert ReplayedStates(log, 3) == ReplayedStates(log, 2)[t := STARTED];
  }

  /** The task events of the given kind among the first n events, whatever their task. */
  ghost function KindCount(events: seq<Event>, n: nat, k: Kind): nat
    requires n <= |events|
  {
    if n == 0 then 0
    else
      var e := events[n - 1];
      KindCount(events, n - 1, k) + if e.kind == k && IsTaskEvent(e, e.task) then 1 else 0
  }

  lemma AcceptedEvent(events: seq<Event>, n: nat)
    requires 0 < n <= |events| && NoIllegalTransition(events, n)
    requires IsTaskEvent(events[n - 1], events[n - 1].task)
    ensures events[n - 1].kind in Allowed(Lookup(GuardedStates(events, n - 1), events[n - 1].task))
  {
    hide Count, Allowed;
    var t := events[n - 1].task;
    assert Count(Temporal(events, n), Task(t)) == 0;
    TemporalCountStep(events, n, Task(t));
    TaskIssueCount(events, n - 1, t);
  }

  lemma NoTasksNoActive()
    ensures ActiveTasks(map[]) == {}
  {
  }

  predicate IsActive(s: Option<TaskState>) {
    s == Some(CREATED) || s == Some(STARTED)
  }

  lemma ActiveSet(states: map<Value, TaskState>, t: Value, s: TaskState)
    ensures ActiveTasks(states[t := s])
         == if IsActive(Some(s)) then ActiveTasks(states) + {t} else ActiveTasks(states) - {t}
    ensures t in ActiveTasks(states) <==> IsActive(Lookup(states, t))
  {
  }

  lemma ActiveUpdate(states: map<Value, TaskState>, t: Value, s: TaskState)
    ensures |ActiveTasks(states[t := s])| == |ActiveTasks(states)|
      + (if IsActive(Some(s)) then 1 else 0) - if IsActive(Lookup(states, t)) then 1 else 0
    ensures |states[t := s].Keys| == |states.Keys| + if t in states then 0 else 1
  {
    hide ActiveTasks;
    ActiveSet(states, t, s);
    SizeWith(ActiveTasks(states), t);
    SizeWith(states.Keys, t);
    assert states[t := s].Keys == states.Keys + {t};
  }

  lemma SizeWith<T>(s: set<T>, t: T)
    ensures |s + {t}| == |s| + if t in s then 0 else 1
    ensures |s - {t}| == |s| - if t in s then 1 else 0
  {
    if t in s {
      assert s + {t} == s;
      assert (s - {t}) + {t} == s;
    } else {
      assert s - {t} == s;
    }
  }

  /** Without illegal transitions the map holds exactly the tasks that have an event. */
  lemma {:induction false} TasksOfMap(events: seq<Event>, n: nat, t: Value)
    requires n <= |events| && NoIllegalTransition(events, n)
    ensures t in GuardedStates(events, n) <==> exists i :: 0 <= i < n && IsTaskEvent(events[i], t)
  {
    hide NoIllegalTransition, Allowed, StateOf;
    if n > 0 {
      EarlierNoIllegalTransition(events, n);
      TasksOfMap(events, n - 1, t);
      if IsTaskEvent(events[n - 1], events[n - 1].task) {
        AcceptedEvent(events, n);
      }
    }
  }

  /** Conservation: in a log without illegal transitions every task seen is active or has exactly
      one terminal event. */
  lemma {:induction false} TasksAreConserved(events: seq<Event>, n: nat)
    requires n <= |events| && NoIllegalTransition(events, n)
    ensures |ActiveTasks(GuardedStates(events, n))|
         + KindCount(events, n, TaskCompleted) + KindCount(events, n, TaskFailed)
         == |GuardedStates(events, n).Keys|
  {
    hide NoIllegalTransition, ActiveTasks;
    if n == 0 {
      assert ActiveTasks(map[]) == {} by { NoTasksNoActive(); }
    } else {
      EarlierNoIllegalTransition(events, n);
      TasksAreConserved(events, n - 1);
      var e, states := events[n - 1], GuardedStates(events, n - 1);
      if IsTaskEvent(e, e.task) {
        AcceptedEvent(events, n);
        ActiveUpdate(states, e.task, StateOf(e.kind).value);
      }
    }
  }

  // Agents

  ghost function AgentTrace(events: seq<Event>, n: nat, a: Value): seq<Kind>
    requires n <= |events|
  {
    if n == 0 then []
    else if IsAgentEvent(events[n - 1], a) then AgentTrace(events, n - 1, a) + [events[n - 1].kind]
    else AgentTrace(events, n - 1, a)
  }

  /** The last lifecycle event, a virtual destruction at the start. */
  ghost function Latest(w: seq<Kind>): Kind {
    if w == [] then AgentDestroyed else w[|w| - 1]
  }

  /** Equal neighbours in a word that starts after a virtual destruction. */
  ghost function Repeats(w: seq<Kind>): nat {
    if w == [] then 0
    else Repeats(w[..|w| - 1]) + if Latest(w[..|w| - 1]) == w[|w| - 1] then 1 else 0
  }

  lemma RepeatsAppend(w: seq<Kind>, k: Kind)
    ensures Repeats(w + [k]) == Repeats(w) + if Latest(w) == k then 1 else 0
  {
    assert (w + [k])[..|w|] == w;
  }

  lemma AgentIssueCount(events: seq<Event>, i: nat, a: Value)
    requires i < |events| && Truthy(a)
    ensures Count(AgentIssues(events, i), Agent(a)) ==
      if IsAgentEvent(events[i], a) && Alive(AgentFlags(events, i), a) == (events[i].kind == AgentCreated) then 1 else 0
    ensures Count(ParentIssues(events, i), Agent(a)) == 0 && Count(TaskIssues(events, i), Agent(a)) == 0
  {
    hide Allowed;
    CountShort(IllegalTransition(i, events[i].task), Agent(a));
    CountShort(UnseenParent(i), Agent(a));
    CountShort(CreatedTwice(i, events[i].agent), Agent(a));
    CountShort(DestroyedWithoutCreated(i, events[i].agent), Agent(a));
  }

  /** An agent is alive exactly when the latest letter of its own word is its creation. */
  lemma {:induction false} AliveIsLatest(events: seq<Event>, n: nat, a: Value)
    requires n <= |events| && Truthy(a)
    ensures Alive(AgentFlags(events, n), a) <==> Latest(AgentTrace(events, n, a)) == AgentCreated
    ensures Latest(AgentTrace(events, n, a)) in {AgentCreated, AgentDestroyed}
  {
    hide Truthy;
    if n > 0 {
      AliveIsLatest(events, n - 1, a);
    }
  }

  /** An agent's lifecycle errors are the repeated neighbours of its own word. */
  lemma {:induction false} AgentJudgedByOwnEvents(events: seq<Event>, n: nat, a: Value)
    requires n <= |events| && Truthy(a)
    ensures Count(Temporal(events, n), Agent(a)) == Repeats(AgentTrace(events, n, a))
  {
    hide Count, Temporal, ParentIssues, AgentIssues, TaskIssues, AgentFlags, Latest, Alive, Truthy;
    if n == 0 {
      TemporalEmpty(events, Agent(a));
    } else {
      AgentJudgedByOwnEvents(events, n - 1, a);
      AliveIsLatest(events, n - 1, a);
      TemporalCountStep(events, n, Agent(a));
      AgentIssueCount(events, n - 1, a);
      hide Repeats;
      RepeatsAppend(AgentTrace(events, n - 1, a), events[n - 1].kind);
    }
  }

  /** Creations minus destructions in the first n letters. */
  ghost function Balance(w: seq<Kind>, n: nat): int
    requires n <= |w|
  {
    if n == 0 then 0
    else Balance(w, n - 1) + if w[n - 1] == AgentCreated then 1 else if w[n - 1] == AgentDestroyed then -1 else 0
  }

  ghost predicate Lifecycle(w: seq<Kind>) {
    forall i :: 0 <= i < |w| ==> w[i] == AgentCreated || w[i] == AgentDestroyed
  }

  lemma {:induction false} BalancePrefix(u: seq<Kind>, w: seq<Kind>, n: nat)
    requires u <= w && n <= |u|
    ensures Balance(u, n) == Balance(w, n)
  {
    if n > 0 {
      BalancePrefix(u, w, n - 1);
    }
  }

  /** An agent has no lifecycle error if and only if at every moment it has been created once more
      than destroyed, or as often. */
  lemma {:induction false} NoRepeatsIffBalanced(w: seq<Kind>)
    requires Lifecycle(w)
    ensures Repeats(w) == 0 <==> forall n :: 0 <= n <= |w| ==> 0 <= Balance(w, n) <= 1
    ensures Repeats(w) == 0 ==> Balance(w, |w|) == if Latest(w) == AgentCreated then 1 else 0
  {
    if w != [] {
      var m := |w| - 1;
      var u := w[..m];
      NoRepeatsIffBalanced(u);
      forall n | 0 <= n <= m ensures Balance(u, n) == Balance(w, n) {
        BalancePrefix(u, w, n);
      }
      assert Lifecycle(u);
      assert Balance(w, |w|) == Balance(w, m) + if w[m] == AgentCreated then 1 else -1;
      if Repeats(u) == 0 {
        assert Balance(u, m) == Balance(w, m) == if Latest(u) == AgentCreated then 1 else 0;
        assert Latest(u) == AgentCreated || Latest(u) == AgentDestroyed;
        forall n | 0 <= n <= m ensures 0 <= Balance(w, n) <= 1 {
          assert Balance(u, n) == Balance(w, n);
        }
      } else {
        var n :| 0 <= n <= m && !(0 <= Balance(u, n) <= 1);
        assert !(0 <= Balance(w, n) <= 1);
      }
    }
  }

  lemma {:induction false} AgentTraceIsLifecycle(events: seq<Event>, n: nat, a: Value)
    requires n <= |events|
    ensures Lifecycle(AgentTrace(events, n, a))
  {
    if n > 0 {
      AgentTraceIsLifecycle(events, n - 1, a);
    }
  }

  /** Layer 2 reports no lifecycle error for an agent if and only if, at every moment of its own
      events, it has been created as often as destroyed or once more. */
  lemma AgentCleanIffBalanced(events: seq<Event>, a: Value)
    requires Truthy(a)
    ensures var w := AgentTrace(events, |events|, a);
      Count(Temporal(events, |events|), Agent(a)) == 0 <==> forall n :: 0 <= n <= |w| ==> 0 <= Balance(w, n) <= 1
  {
    AgentTraceIsLifecycle(events, |events|, a);
    AgentJudgedByOwnEvents(events, |events|, a);
    NoRepeatsIffBalanced(AgentTrace(events, |events|, a));
  }

  // Causal parents

  lemma {:induction false} SeenBeforeIds(events: seq<Event>, n: nat, v: Value)
    requires n <= |events|
    ensures v in SeenBefore(events, n) <==> Truthy(v) && exists j :: 0 <= j < n && events[j].msgId == v
  {
    if n > 0 {
      SeenBeforeIds(events, n - 1, v);
    }
  }

  lemma ParentIssueCount(events: seq<Event>, i: nat)
    requires i < |events|
    ensures Count(ParentIssues(events, i), Parents) ==
      if Truthy(events[i].parent) && events[i].parent !in SeenBefore(events, i + 1) then 1 else 0
    ensures Count(AgentIssues(events, i), Parents) == 0 && Count(TaskIssues(events, i), Parents) == 0
  {
    hide Allowed;
    CountShort(IllegalTransition(i, events[i].task), Parents);
    CountShort(UnseenParent(i), Parents);
    CountShort(CreatedTwice(i, events[i].agent), Parents);
    CountShort(DestroyedWithoutCreated(i, events[i].agent), Parents);
  }

  /** Layer 2 reports no causal error exactly when every named parent is the id of an event at or
      before the child. */
  lemma {:induction false} NoCausalErrorIff(events: seq<Event>, n: nat)
    requires n <= |events|
    ensures Count(Temporal(events, n), Parents) == 0 <==>
      forall i :: 0 <= i < n && Truthy(events[i].parent) ==>
        exists j :: 0 <= j <= i && events[j].msgId == events[i].parent
  {
    hide Count, Temporal, ParentIssues, AgentIssues, TaskIssues;
    if n == 0 {
      TemporalEmpty(events, Parents);
    } else {
      NoCausalErrorIff(events, n - 1);
      TemporalCountStep(events, n, Parents);
      ParentIssueCount(events, n - 1);
      SeenBeforeIds(events, n, events[n - 1].parent);
    }
  }

  ghost predicate ProperId(v: Value) {
    v.Text? && v.text != ""
  }

  lemma {:induction false} ValidIdsSeen(events: seq<Event>, n: nat, t: string)
    requires n <= |events|
    ensures t in ValidIds(events, n) <==> t != "" && exists j :: 0 <= j < n && events[j].msgId == Text(t)
  {
    if n > 0 {
      ValidIdsSeen(events, n - 1, t);
    }
  }

  /** Layer 1 reports no id error exactly when all ids are non-empty strings and distinct. */
  lemma {:induction false} NoIdErrorIff(events: seq<Event>, n: nat)
    requires n <= |events|
    ensures Count(Structural(events, n), Ids) == 0 <==>
      (forall i :: 0 <= i < n ==> ProperId(events[i].msgId))
      && (forall i, j :: 0 <= i < j < n ==> events[i].msgId != events[j].msgId)
  {
    hide Count;
    if n == 0 {
      CountShort(InvalidId(0), Ids);
    } else {
      var i, mid := n - 1, events[n - 1].msgId;
      NoIdErrorIff(events, i);
      if mid.Text? {
        ValidIdsSeen(events, i, mid.text);
      }
      StructuralCountStep(events, i);
    }
  }

  lemma StructuralCount(events: seq<Event>, i: nat, s: Subject)
    requires i < |events|
    ensures Count(Structural(events, i + 1), s) == Count(Structural(events, i), s)
      + Count(FieldIssues(events[i], i), s) + Count(IdIssues(events[i].msgId, ValidIds(events, i), i), s)
  {
    hide Count;
    var a, b := Structural(events, i), FieldIssues(events[i], i);
    CountConcat(a, b, s);
    CountConcat(a + b, IdIssues(events[i].msgId, ValidIds(events, i), i), s);
  }

  lemma StructuralCountStep(events: seq<Event>, i: nat)
    requires i < |events|
    ensures Count(Structural(events, i + 1), Ids) == Count(Structural(events, i), Ids)
      + if !ProperId(events[i].msgId) || events[i].msgId.text in ValidIds(events, i) then 1 else 0
    ensures Count(Structural(events, i + 1), Fields) == Count(Structural(events, i), Fields)
      + if REQUIRED_FIELDS <= events[i].fields then 0 else 1
  {
    hide Count, Structural, FieldIssues;
    StructuralCount(events, i, Ids);
    StructuralCount(events, i, Fields);
    FieldIssueCount(events[i], i);
    CountShort(InvalidId(i), Ids);
    CountShort(DuplicateId(i), Ids);
    CountShort(InvalidId(i), Fields);
    CountShort(DuplicateId(i), Fields);
  }

  lemma FieldIssueCount(e: Event, i: nat)
    ensures Count(FieldIssues(e, i), Ids) == 0
    ensures Count(FieldIssues(e, i), Fields) == if REQUIRED_FIELDS <= e.fields then 0 else 1
  {
    CountShort(MissingFields(i), Ids);
    CountShort(MissingFields(i), Fields);
    hide Count;
    if REQUIRED_FIELDS - e.fields == {} {
      forall f | f in REQUIRED_FIELDS ensures f in e.fields {
        assert f !in REQUIRED_FIELDS - e.fields;
      }
    }
  }

  /** Layer 1 reports no missing field exactly when every event has all the required ones. */
  lemma {:induction false} NoFieldErrorIff(events: seq<Event>, n: nat)
    requires n <= |events|
    ensures Count(Structural(events, n), Fields) == 0 <==>
      forall i :: 0 <= i < n ==> REQUIRED_FIELDS <= events[i].fields
  {
    hide Count, Structural;
    if n == 0 {
      StructuralNone(events);
      CountShort(InvalidId(0), Fields);
    } else {
      NoFieldErrorIff(events, n - 1);
      StructuralCountStep(events, n - 1);
    }
  }

  /** Event i names event j as its causal parent. */
  ghost predicate IsParent(events: seq<Event>, i: nat, j: nat) {
    i < |events| && j < |events| && Truthy(events[i].parent) && events[j].msgId == events[i].parent
  }

  ghost predicate Validated(events: seq<Event>) {
    Count(Structural(events, |events|), Ids) == 0 && Count(Temporal(events, |events|), Parents) == 0
  }

  /** In a validated log every named parent is exactly one event, at or before the child. */
  lemma ParentIsUnique(events: seq<Event>, i: nat) returns (j: nat)
    requires Validated(events) && i < |events| && Truthy(events[i].parent)
    ensures IsParent(events, i, j) && j <= i
    ensures forall k :: IsParent(events, i, k) ==> k == j
  {
    NoCausalErrorIff(events, |events|);
    NoIdErrorIff(events, |events|);
    j :| 0 <= j <= i && events[j].msgId == events[i].parent;
    forall k: nat | IsParent(events, i, k) ensures k == j {
      assert events[k].msgId == events[j].msgId;
    }
  }

  /** A chain from child to parent, self-references left out. */
  ghost predicate AncestorChain(events: seq<Event>, w: seq<nat>) {
    forall k, l :: 0 <= k && l == k + 1 && l < |w| ==> IsParent(events, w[k], w[l]) && w[k] != w[l]
  }

  lemma {:induction false} ChainDescends(events: seq<Event>, w: seq<nat>, k: nat)
    requires Validated(events) && AncestorChain(events, w) && k < |w|
    ensures w[k] + k <= w[0]
  {
    if k > 0 {
      ChainDescends(events, w, k - 1);
      assert IsParent(events, w[k - 1], w[k]) && w[k - 1] != w[k];
      var j := ParentIsUnique(events, w[k - 1]);
    }
  }

  /** The causal order of a validated log is well founded: apart from self-references no chain of
      parents returns to an event, and a chain from event i has at most i + 1 events. */
  lemma CausalOrderWellFounded(events: seq<Event>, w: seq<nat>)
    requires Validated(events) && AncestorChain(events, w) && w != []
    ensures |w| <= w[0] + 1
    ensures |w| > 1 ==> w[|w| - 1] != w[0]
  {
    ChainDescends(events, w, |w| - 1);
  }

  /** Parents strictly precede their children if and only if no event names itself. */
  lemma StrictlyBeforeIffNoSelfParent(events: seq<Event>)
    requires Validated(events)
    ensures (forall i, j :: IsParent(events, i, j) ==> j < i) <==> (forall i :: !IsParent(events, i, i))
  {
    if forall i :: !IsParent(events, i, i) {
      forall i, j | IsParent(events, i, j) ensures j < i {
        var k := ParentIsUnique(events, i);
        assert k == j && !IsParent(events, i, i);
      }
    }
    if forall i, j :: IsParent(events, i, j) ==> j < i {
      forall i ensures !IsParent(events, i, i) {
      }
    }
  }

  /** A log whose only event is its own parent passes both layers. */
  lemma SelfParentAccepted()
    ensures var e := Event(REQUIRED_FIELDS, Text("a"), Other("x"), Null, Null, Text("a"), None);
      Temporal([e], 1) == [] && Structural([e], 1) == [] && IsParent([e], 0, 0)
  {
    var e := Event(REQUIRED_FIELDS, Text("a"), Other("x"), Null, Null, Text("a"), None);
    assert SeenBefore([e], 1) == SeenBefore([e], 0) + {Text("a")};
    assert Temporal([e], 0) == [] && Structural([e], 0) == [];
    assert REQUIRED_FIELDS - e.fields == {};
    assert ValidIds([e], 0) == {};
  }
}
