/** When a frozen gate of the snapshot barrier can be opened again. */
module BarrierRelease {
  import opened SnapshotBarrier

  ghost predicate NoCancel(run: seq<Action>) {
    forall i :: 0 <= i < |run| ==> !run[i].Cancel?
  }

  /** The gate is frozen for nobody. */
  ghost predicate Orphaned(s: State) {
    s.frozen && !Active(s)
  }

  /** In an exclusive run without cancellation the gate is frozen exactly while a snapshot is active. */
  lemma {:induction false} FrozenOnlyForSnapshots(s: State, run: seq<Action>)
    requires Invariant(s) && !Orphaned(s) && Executes(s, run) && Exclusive(s, run) && NoCancel(run)
    ensures After(s, run).frozen <==> Active(After(s, run))
    decreases |run|
  {
    if run != [] {
      assert !run[0].Cancel?;
      assert forall i :: 0 <= i < |run[1..]| ==> run[1..][i] == run[i + 1];
      InvariantStep(s, run[0]);
      FrozenOnlyForSnapshots(Next(s, run[0]), run[1..]);
    }
  }

  // Over all runs without cancellation

  /** The run opens the gate without cancelling anything. */
  ghost predicate Opens(s: State, run: seq<Action>) {
    Executes(s, run) && NoCancel(run) && !After(s, run).frozen
  }

  /** A coroutine that holds a mutation window waits at the barrier. */
  ghost predicate MutationWaits(s: State) {
    exists p :: !Running(s, p) && Holds(s.tickets, p)
  }

  /** A mutation window waits, and nobody can leave a snapshot window. */
  ghost predicate Stuck(s: State) {
    MutationWaits(s) && forall q :: Holds(s.windows, q) ==> !Running(s, q)
  }

  lemma StuckStep(s: State, a: Action)
    requires s.count == |s.tickets| && s.frozen && Stuck(s) && Enabled(s, a) && !a.Cancel?
    ensures Next(s, a).frozen && Stuck(Next(s, a))
  {
    var t := Next(s, a);
    var p :| !Running(s, p) && Holds(s.tickets, p);
    assert s.count > 0;
    TicketStays(s, a, p);
    assert !Running(t, p);
  }

  lemma {:induction false} StuckStays(s: State, run: seq<Action>)
    requires s.count == |s.tickets| && s.frozen && Stuck(s) && Executes(s, run) && NoCancel(run)
    ensures After(s, run).frozen
    decreases |run|
  {
    if run != [] {
      assert !run[0].Cancel?;
      assert forall i :: 0 <= i < |run[1..]| ==> run[1..][i] == run[i + 1];
      CountStep(s, run[0]);
      StuckStep(s, run[0]);
      StuckStays(Next(s, run[0]), run[1..]);
    }
  }

  lemma OpensCons(s: State, a: Action, rest: seq<Action>)
    requires Enabled(s, a) && !a.Cancel? && Opens(Next(s, a), rest)
    ensures Opens(s, [a] + rest)
  {
    assert ([a] + rest)[0] == a && ([a] + rest)[1..] == rest;
  }

  /** A window that is left opens the gate for everybody. */
  lemma LeavingOpens(s: State, q: Proc) returns (run: seq<Action>)
    requires Running(s, q) && Holds(s.windows, q)
    ensures Opens(s, run)
  {
    assert Opens(Next(s, Commit(q)), []);
    OpensCons(s, Commit(q), []);
    run := [Commit(q)] + [];
  }

  /** When no mutation window waits, all are left, and a bare window of a further coroutine opens the
      gate. */
  lemma {:induction false} OpeningRun(s: State) returns (run: seq<Action>)
    requires s.count == |s.tickets| && !MutationWaits(s)
    ensures Opens(s, run)
    decreases |s.tickets|
  {
    var a;
    if s.tickets == [] {
      var q := FreshProc(s.entering + s.draining.Keys);
      a := Request(q);
      assert Next(s, a).windows[|s.windows|].p == q;
      run := LeavingOpens(Next(s, a), q);
    } else {
      var p := s.tickets[0].p;
      assert Holds(s.tickets, p);
      a := ExitMutation(p);
      WithoutFacts(s.tickets, p);
      forall q | Holds(Next(s, a).tickets, q) ensures Holds(s.tickets, q) {
      }
      run := OpeningRun(Next(s, a));
    }
    OpensCons(s, a, run);
    run := [a] + run;
  }

  /** In every state a run can reach, whatever overlaps, is aborted or has been cancelled before: a
      frozen gate can be opened without cancelling anything, if and only if no mutation window waits
      at the barrier itself, or some snapshot window can be left. While the invariant holds, that is
      if and only if no mutation window waits. */
  lemma GateCanBeOpenedIff(s: State)
    requires s.count == |s.tickets| && s.frozen
    ensures (exists run :: Opens(s, run)) <==> !Stuck(s)
    ensures Invariant(s) ==> (Stuck(s) <==> MutationWaits(s))
  {
    if Stuck(s) {
      forall run | Executes(s, run) && NoCancel(run) ensures After(s, run).frozen {
        StuckStays(s, run);
      }
    } else if MutationWaits(s) {
      var q :| Holds(s.windows, q) && Running(s, q);
      var run := LeavingOpens(s, q);
    } else {
      var run := OpeningRun(s);
    }
  }

  /** The same for a run from the start. */
  lemma ReachedGateCanBeOpenedIff(run: seq<Action>)
    requires Executes(INITIAL, run) && After(INITIAL, run).frozen
    ensures (exists more :: Opens(After(INITIAL, run), more)) <==> !Stuck(After(INITIAL, run))
  {
    CountRun(INITIAL, run);
    GateCanBeOpenedIff(After(INITIAL, run));
  }

  // Over exclusive runs

  /** A coroutine that holds a window of either kind waits at the barrier. */
  ghost predicate HolderWaits(s: State) {
    exists p :: !Running(s, p) && (Holds(s.tickets, p) || Holds(s.windows, p))
  }

  ghost predicate Releases(s: State, run: seq<Action>) {
    Opens(s, run) && Exclusive(s, run)
  }

  /** When no holder waits, the mutations in flight exit, a snapshot is entered and left. */
  lemma {:induction false} ReleaseRun(s: State) returns (run: seq<Action>)
    requires Invariant(s) && s.frozen && !HolderWaits(s)
    ensures Releases(s, run)
    decreases |s.tickets|, if s.windows == [] then if s.draining == map[] then 2 else 1 else 0
  {
    var a;
    if s.windows != [] {
      var q := s.windows[0].p;
      assert Holds(s.windows, q);
      a := Commit(q);
      assert Executes(Next(s, a), []) && Exclusive(Next(s, a), []);
      RunCons(s, a, []);
      run := [a] + [];
      return;
    } else if s.tickets != [] {
      var p := s.tickets[0].p;
      assert Holds(s.tickets, p);
      a := ExitMutation(p);
      WithoutFacts(s.tickets, p);
      forall q | Holds(Next(s, a).tickets, q) ensures Holds(s.tickets, q) {
      }
    } else if s.draining != map[] {
      var q :| q in s.draining;
      a := Seal(q);
      assert Hopeful(s, q);
    } else {
      var q := FreshProc(s.entering);
      a := Request(q);
    }
    InvariantStep(s, a);
    var rest := ReleaseRun(Next(s, a));
    RunCons(s, a, rest);
    run := [a] + rest;
  }

  /** A waiting holder keeps the gate frozen through every exclusive run without cancellation. */
  lemma {:induction false} WaitingHolderBlocks(s: State, run: seq<Action>, p: Proc)
    requires Invariant(s) && s.frozen && !Running(s, p) && (Holds(s.tickets, p) || Holds(s.windows, p))
    requires Executes(s, run) && Exclusive(s, run) && NoCancel(run)
    ensures After(s, run).frozen
    decreases |run|
  {
    if run != [] {
      var a := run[0];
      assert !a.Cancel?;
      assert forall i :: 0 <= i < |run[1..]| ==> run[1..][i] == run[i + 1];
      InvariantStep(s, a);
      WaitingHolderStays(s, a, p);
      WaitingHolderBlocks(Next(s, a), run[1..], p);
    }
  }

  lemma WaitingHolderStays(s: State, a: Action, p: Proc)
    requires Invariant(s) && s.frozen && !Running(s, p) && (Holds(s.tickets, p) || Holds(s.windows, p))
    requires Enabled(s, a) && !Overlaps(s, a) && !a.Cancel?
    ensures var t := Next(s, a); t.frozen && !Running(t, p) && (Holds(t.tickets, p) || Holds(t.windows, p))
  {
    if Holds(s.tickets, p) {
      assert s.windows == [] && s.count > 0 && forall q :: !Holds(s.windows, q);
      TicketStays(s, a, p);
    } else {
      assert |s.windows| == 1 && s.tickets == [] && s.windows[0].p == p;
      assert forall q :: !Holds(s.tickets, q) && (Holds(s.windows, q) ==> q == p);
      assert forall q :: q in s.draining ==> Hopeful(s, q);
    }
  }

  /** A frozen gate can be opened by an exclusive run without cancelling anything, orphaned or not, if
      and only if no coroutine that holds a window of either kind waits at the barrier itself. */
  lemma GateCanBeReleasedIff(s: State)
    requires Invariant(s) && s.frozen
    ensures (exists run :: Releases(s, run)) <==> !HolderWaits(s)
  {
    if HolderWaits(s) {
      var p :| !Running(s, p) && (Holds(s.tickets, p) || Holds(s.windows, p));
      forall run | Executes(s, run) && Exclusive(s, run) && NoCancel(run) ensures After(s, run).frozen {
        WaitingHolderBlocks(s, run, p);
      }
    } else {
      var run := ReleaseRun(s);
    }
  }

  // Inputs

  /** A snapshot triggered inside a mutation window waits for that very window: whatever the other
      coroutines do, unless something is cancelled. */
  lemma TriggerInsideMutationDeadlocks()
    ensures var run := [EnterMutation(0), Trigger(0)];
      Executes(INITIAL, run) && !exists more :: Opens(After(INITIAL, run), more)
  {
    TwoSteps(INITIAL, EnterMutation(0), Trigger(0));
    var t := Next(Next(INITIAL, EnterMutation(0)), Trigger(0));
    assert t.tickets[0].p == 0 && Holds(t.tickets, 0) && !Running(t, 0) && MutationWaits(t);
    assert t.count == |t.tickets| && t.frozen && t.windows == [] && Stuck(t);
    hide *;
    GateCanBeOpenedIff(t);
  }

  /** So does a second mutation window opened inside the first after a freeze. */
  lemma NestedMutationDeadlocks()
    ensures var run := [EnterMutation(0), Trigger(1), EnterMutation(0)];
      Executes(INITIAL, run) && !exists more :: Opens(After(INITIAL, run), more)
  {
    TwoSteps(INITIAL, EnterMutation(0), Trigger(1));
    var t := Next(Next(INITIAL, EnterMutation(0)), Trigger(1));
    var u := Next(t, EnterMutation(0));
    OneStep(t, EnterMutation(0));
    RunConcat(INITIAL, [EnterMutation(0), Trigger(1)], [EnterMutation(0)]);
    assert [EnterMutation(0), Trigger(1)] + [EnterMutation(0)] == [EnterMutation(0), Trigger(1), EnterMutation(0)];
    assert u.tickets[0].p == 0 && Holds(u.tickets, 0) && !Running(u, 0) && MutationWaits(u);
    assert u.count == |u.tickets| && u.frozen && u.windows == [] && Stuck(u);
    hide *;
    GateCanBeOpenedIff(u);
  }

  /** A mutation opened inside an own bare window waits for that window; only an overlapping bare
      window of another coroutine can open the gate. */
  lemma MutationInsideSnapshotNeedsOverlap()
    ensures var run := [Request(0), EnterMutation(0)];
      && Executes(INITIAL, run)
      && (exists more :: Opens(After(INITIAL, run), more))
      && !exists more :: Releases(After(INITIAL, run), more)
  {
    TwoSteps(INITIAL, Request(0), EnterMutation(0));
    var s := Next(INITIAL, Request(0));
    var t := Next(s, EnterMutation(0));
    assert t.windows[0].p == 0 && Holds(t.windows, 0) && !Running(t, 0) && HolderWaits(t);
    assert t.count == |t.tickets| && t.frozen && t.tickets == [] && !MutationWaits(t) && !Stuck(t);
    InitialInvariant();
    InvariantStep(INITIAL, Request(0));
    InvariantStep(s, EnterMutation(0));
    hide *;
    GateCanBeOpenedIff(t);
    GateCanBeReleasedIff(t);
  }

  /** Cancelling a coordinator that waits for the drain leaves the gate frozen for nobody if and only
      if no other snapshot is active. */
  lemma CancelOrphansTheGate(s: State, q: Proc)
    requires Invariant(s) && q in s.draining
    ensures Orphaned(Next(s, Cancel(q))) <==> s.windows == [] && s.draining.Keys == {q}
  {
    var t := Next(s, Cancel(q));
    assert t.draining.Keys == s.draining.Keys - {q};
    if t.draining == map[] {
      assert t.draining.Keys == {};
      assert s.draining.Keys == {q};
    }
  }

  /** The only snapshot, triggered beside a mutation in flight, is cancelled while it waits. */
  lemma CancelledTriggerOrphansTheGate()
    ensures var run := [EnterMutation(0), Trigger(1), Cancel(1)];
      Executes(INITIAL, run) && Orphaned(After(INITIAL, run))
  {
    TwoSteps(INITIAL, EnterMutation(0), Trigger(1));
    var t := State(1, true, 0, 0, [Held(0, 0, 0)], [], {}, map[1 := 0]);
    assert t == After(INITIAL, [EnterMutation(0), Trigger(1)]);
    assert Next(t, Cancel(1)).draining == map[];
    OneStep(t, Cancel(1));
    RunConcat(INITIAL, [EnterMutation(0), Trigger(1)], [Cancel(1)]);
    assert [EnterMutation(0), Trigger(1)] + [Cancel(1)] == [EnterMutation(0), Trigger(1), Cancel(1)];
  }

  /** From then on triggers are refused and mutations wait: without a bare window, nothing starts and
      the gate never opens again. */
  lemma {:induction false} OrphanedGateStaysClosed(s: State, run: seq<Action>)
    requires Orphaned(s) && Executes(s, run) && forall i :: 0 <= i < |run| ==> !run[i].Request?
    ensures Orphaned(After(s, run)) && |After(s, run).tickets| <= |s.tickets|
    decreases |run|
  {
    if run != [] {
      assert !run[0].Request?;
      assert forall i :: 0 <= i < |run[1..]| ==> run[1..][i] == run[i + 1];
      if run[0].ExitMutation? {
        WithoutFacts(s.tickets, run[0].p);
      }
      OrphanedGateStaysClosed(Next(s, run[0]), run[1..]);
    }
  }
}
