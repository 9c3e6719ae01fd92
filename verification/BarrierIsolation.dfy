/** Exactly which runs of the snapshot barrier keep snapshots isolated. */
module BarrierIsolation {
  import opened SnapshotBarrier

  /** Isolation holds now and after every exclusive continuation. */
  ghost predicate Secure(s: State) {
    forall run :: Executes(s, run) && Exclusive(s, run) ==> Isolated(After(s, run))
  }

  lemma InvariantSecure(s: State)
    requires Invariant(s)
    ensures Secure(s)
  {
    forall run | Executes(s, run) && Exclusive(s, run) ensures Isolated(After(s, run)) {
      ExclusiveRunsKeepInvariant(s, run);
    }
  }

  /** With two windows open, leaving the one and entering a mutation breaks the other. */
  lemma TwoWindowsBreak(s: State, q: Proc) returns (run: seq<Action>)
    requires |s.windows| >= 2 && Holds(s.windows, q) && Running(s, q)
    ensures Executes(s, run) && Exclusive(s, run) && !Isolated(After(s, run))
  {
    var p := FreshProc(s.entering + s.draining.Keys);
    WithoutFacts(s.windows, q);
    var t := Next(s, Abort(q));
    run := [];
    RunCons(t, EnterMutation(p), run);
    run := [EnterMutation(p)] + run;
    RunCons(s, Abort(q), run);
    run := [Abort(q)] + run;
  }

  /** A coroutine has a snapshot window open, or waits for the drain and not for itself. */
  ghost predicate Engaged(s: State, p: Proc) {
    Hopeful(s, p) || (Running(s, p) && Holds(s.windows, p) && s.tickets == [])
  }

  /** Of two engaged snapshots both come to be open: mutations in flight are cancelled where they
      wait and exit. The second is left as soon as it is entered, and the first is broken. */
  lemma {:induction false} OverlapBreaks(s: State, p: Proc, q: Proc) returns (run: seq<Action>)
    requires s.count == |s.tickets| && p != q && p !in s.entering && q !in s.entering
    requires Engaged(s, p) && Engaged(s, q)
    ensures Executes(s, run) && Exclusive(s, run) && !Isolated(After(s, run))
    decreases |s.tickets|, |s.entering + s.draining.Keys|
  {
    var a;
    if s.tickets != [] {
      var x := s.tickets[0].p;
      assert Holds(s.tickets, x);
      if Running(s, x) {
        a := ExitMutation(x);
        WithoutFacts(s.tickets, x);
      } else {
        a := Cancel(x);
        var t := Next(s, a);
        assert t.entering + t.draining.Keys < s.entering + s.draining.Keys;
        SmallerSet(t.entering + t.draining.Keys, s.entering + s.draining.Keys);
      }
    } else if p in s.draining || q in s.draining {
      a := Seal(if p in s.draining then p else q);
      SealEngages(s, a.p, p);
      SealEngages(s, a.p, q);
      var t := Next(s, a);
      assert t.entering + t.draining.Keys < s.entering + s.draining.Keys;
      SmallerSet(t.entering + t.draining.Keys, s.entering + s.draining.Keys);
    } else {
      TwoHolders(s, p, q);
      run := TwoWindowsBreak(s, q);
      return;
    }
    var rest := OverlapBreaks(Next(s, a), p, q);
    RunCons(s, a, rest);
    run := [a] + rest;
  }

  lemma SealEngages(s: State, p: Proc, q: Proc)
    requires s.count == 0 && s.tickets == [] && p in s.draining && p !in s.entering && Engaged(s, q)
    ensures Engaged(Next(s, Seal(p)), q)
  {
    HoldsAppend(s.windows, Held(p, s.draining[p], s.version), q);
  }

  lemma TwoHolders(s: State, p: Proc, q: Proc)
    requires Holds(s.windows, p) && Holds(s.windows, q) && p != q
    ensures |s.windows| >= 2
  {
  }

  lemma SmallerSet(a: set<Proc>, b: set<Proc>)
    requires a < b
    ensures |a| < |b|
  {
    var x :| x in b && x !in a;
    assert a <= b - {x};
    SubsetSize(a, b - {x});
  }

  lemma {:induction false} SubsetSize(a: set<Proc>, b: set<Proc>)
    requires a <= b
    ensures |a| <= |b|
    decreases a
  {
    if a != {} {
      var x :| x in a;
      SubsetSize(a - {x}, b - {x});
    }
  }

  lemma OverlapIsInsecure(s: State, a: Action)
    requires Invariant(s) && Enabled(s, a) && Overlaps(s, a)
    ensures !Secure(Next(s, a))
  {
    var t := Next(s, a);
    HoldsAppend(s.windows, Held(a.p, s.epoch, s.version), a.p);
    var run;
    if s.windows != [] {
      run := TwoWindowsBreak(t, a.p);
    } else {
      var q :| Hopeful(s, q);
      run := OverlapBreaks(t, a.p, q);
    }
    assert Executes(t, run) && Exclusive(t, run) && !Isolated(After(t, run));
  }

  /** Isolation survives all continuations of a step if and only if the step is no overlapping request. */
  lemma StepIsSecureIff(s: State, a: Action)
    requires Invariant(s) && Enabled(s, a)
    ensures Secure(Next(s, a)) <==> !Overlaps(s, a)
  {
    InvariantStep(s, a);
    if Overlaps(s, a) {
      OverlapIsInsecure(s, a);
    } else {
      InvariantSecure(Next(s, a));
    }
  }

  /** Isolation is secure in every state the run passes. */
  ghost predicate SecureThroughout(s: State, run: seq<Action>)
    requires Executes(s, run)
    decreases |run|
  {
    Secure(s) && (run != [] ==> SecureThroughout(Next(s, run[0]), run[1..]))
  }

  lemma {:induction false} SecureIffExclusive(s: State, run: seq<Action>)
    requires Invariant(s) && Executes(s, run)
    ensures SecureThroughout(s, run) <==> Exclusive(s, run)
    decreases |run|
  {
    hide Invariant, Secure, Overlaps;
    InvariantSecure(s);
    if run != [] {
      StepIsSecureIff(s, run[0]);
      InvariantStep(s, run[0]);
      if !Overlaps(s, run[0]) {
        SecureIffExclusive(Next(s, run[0]), run[1..]);
      }
    }
  }

  /** Over every run from the start, with any cancellations and aborts: no mutation is in flight in
      an open snapshot window, nothing changes under it, it carries the epoch it seals, and all this
      is safe from then on, exactly as long as no bare window is requested beside another snapshot. */
  lemma RunsAreIsolatedIff(run: seq<Action>)
    requires Executes(INITIAL, run)
    ensures SecureThroughout(INITIAL, run) <==> Exclusive(INITIAL, run)
    ensures Exclusive(INITIAL, run) ==> Invariant(After(INITIAL, run))
  {
    InitialInvariant();
    SecureIffExclusive(INITIAL, run);
    if Exclusive(INITIAL, run) {
      ExclusiveRunsKeepInvariant(INITIAL, run);
    }
  }

  /** Runs whose snapshots all come from trigger_snapshot are exclusive. */
  lemma {:induction false} TriggersAreExclusive(s: State, run: seq<Action>)
    requires Executes(s, run) && forall i :: 0 <= i < |run| ==> !run[i].Request?
    ensures Exclusive(s, run)
    decreases |run|
  {
    if run != [] {
      assert !run[0].Request?;
      assert forall i :: 0 <= i < |run[1..]| ==> run[1..][i] == run[i + 1];
      TriggersAreExclusive(Next(s, run[0]), run[1..]);
    }
  }

  // Overlapping windows

  /** Two bare windows, one inside the other's lifetime, are both open. */
  lemma BareWindowsOverlap()
    ensures var run := [Request(0), Request(1)];
      && Executes(INITIAL, run) && !Exclusive(INITIAL, run)
      && |After(INITIAL, run).windows| == 2
  {
    var s := Next(INITIAL, Request(0));
    assert s.windows[0].p == 0 && Holds(s.windows, 0);
    TwoSteps(INITIAL, Request(0), Request(1));
  }

  /** A bare window overtakes a triggered snapshot that is still draining. The exit of one of two
      mutations wakes the trigger too early, and it queues again behind the bare window: it is sealed
      in epoch 1 under the tag of epoch 0, with the gate open. */
  lemma OvertakenTriggerGoesStale()
    ensures var run := [EnterMutation(2), EnterMutation(3), Trigger(0), ExitMutation(2), Request(1), ExitMutation(3),
                        Seal(1), Commit(1), Seal(0)];
      && Executes(INITIAL, run)
      && var s := After(INITIAL, run);
        s.windows == [Held(0, 0, 0)] && s.epoch == 1 && !s.frozen
  {
    var t := State(0, true, 0, 0, [], [], {}, map[0 := 0, 1 := 0]);
    var u := State(0, false, 1, 0, [], [], {}, map[0 := 0]);
    DrainTwo(t);
    SealAndCommit(t, 1, map[0 := 0]);
    hide *;
    TwoSteps(t, Seal(1), Commit(1));
    OneStep(u, Seal(0));
    RunConcat(t, [Seal(1), Commit(1)], [Seal(0)]);
    var drain := [EnterMutation(2), EnterMutation(3)] + [Trigger(0), ExitMutation(2)] + [Request(1), ExitMutation(3)];
    RunConcat(INITIAL, drain, [Seal(1), Commit(1)] + [Seal(0)]);
    assert drain + ([Seal(1), Commit(1)] + [Seal(0)])
        == [EnterMutation(2), EnterMutation(3), Trigger(0), ExitMutation(2), Request(1), ExitMutation(3),
            Seal(1), Commit(1), Seal(0)];
  }

  lemma DrainTwo(t: State)
    requires t == State(0, true, 0, 0, [], [], {}, map[0 := 0, 1 := 0])
    ensures var run := [EnterMutation(2), EnterMutation(3)] + [Trigger(0), ExitMutation(2)]
                     + [Request(1), ExitMutation(3)];
      Executes(INITIAL, run) && After(INITIAL, run) == t
  {
    var s := State(2, false, 0, 0, [Held(2, 0, 0), Held(3, 0, 0)], [], {}, map[]);
    var u := State(1, true, 0, 0, [Held(3, 0, 0)], [], {}, map[0 := 0]);
    hide *;
    EnterTwo(s);
    FirstExit(s, u);
    SecondExit(u, t);
    RunConcat(INITIAL, [EnterMutation(2), EnterMutation(3)], [Trigger(0), ExitMutation(2)]);
    RunConcat(INITIAL, [EnterMutation(2), EnterMutation(3)] + [Trigger(0), ExitMutation(2)],
      [Request(1), ExitMutation(3)]);
  }

  lemma EnterTwo(s: State)
    requires s == State(2, false, 0, 0, [Held(2, 0, 0), Held(3, 0, 0)], [], {}, map[])
    ensures Executes(INITIAL, [EnterMutation(2), EnterMutation(3)])
    ensures After(INITIAL, [EnterMutation(2), EnterMutation(3)]) == s
  {
    TwoSteps(INITIAL, EnterMutation(2), EnterMutation(3));
  }

  lemma FirstExit(s: State, u: State)
    requires s == State(2, false, 0, 0, [Held(2, 0, 0), Held(3, 0, 0)], [], {}, map[])
    requires u == State(1, true, 0, 0, [Held(3, 0, 0)], [], {}, map[0 := 0])
    ensures Executes(s, [Trigger(0), ExitMutation(2)]) && After(s, [Trigger(0), ExitMutation(2)]) == u
  {
    assert s.tickets[0].p == 2;
    assert s.tickets[..1] == [Held(2, 0, 0)] && Without(s.tickets[..1], 2) == [];
    assert Without(s.tickets, 2) == [Held(3, 0, 0)];
    TwoSteps(s, Trigger(0), ExitMutation(2));
  }

  lemma SecondExit(u: State, t: State)
    requires u == State(1, true, 0, 0, [Held(3, 0, 0)], [], {}, map[0 := 0])
    requires t == State(0, true, 0, 0, [], [], {}, map[0 := 0, 1 := 0])
    ensures Executes(u, [Request(1), ExitMutation(3)]) && After(u, [Request(1), ExitMutation(3)]) == t
  {
    assert u.tickets[0].p == 3;
    assert Without(u.tickets, 3) == [];
    TwoSteps(u, Request(1), ExitMutation(3));
  }

  lemma SealAndCommit(s: State, p: Proc, others: map<Proc, nat>)
    requires s.count == 0 && s.windows == [] && p in s.draining && s.draining - {p} == others && p !in s.entering
    ensures Enabled(s, Seal(p)) && Enabled(Next(s, Seal(p)), Commit(p))
    ensures Next(Next(s, Seal(p)), Commit(p)) == s.(frozen := false, epoch := s.epoch + 1, draining := others)
  {
    var t := Next(s, Seal(p));
    assert t.windows[0].p == p && Without(t.windows, p) == t.windows[..0];
  }
}
