/** What the state of the snapshot barrier is, told by the history of the run alone. */
module BarrierHistory {
  import opened SnapshotBarrier

  // The history

  /** The last step that freezes the gate or leaves a snapshot window is one that freezes. */
  ghost predicate Closed(run: seq<Action>) {
    exists i :: 0 <= i < |run| && Freezes(run[i]) && forall j :: i < j < |run| ==> !Leaves(run[j])
  }

  predicate Freezes(a: Action) {
    a.Trigger? || a.Request?
  }

  predicate Leaves(a: Action) {
    a.Commit? || a.Abort?
  }

  /** A mutation enters through the open gate, at once or after waiting. */
  ghost predicate Enters(before: seq<Action>, a: Action) {
    a.Resume? || (a.EnterMutation? && !Closed(before))
  }

  /** The mutation windows of p: its entries less its exits. */
  ghost function Inside(run: seq<Action>, p: Proc): int {
    if run == [] then 0
    else
      var before, a := run[..|run| - 1], run[|run| - 1];
      Inside(before, p)
      + (if a.p == p && Enters(before, a) then 1 else 0) - (if a == ExitMutation(p) then 1 else 0)
  }

  /** The mutations in flight: all entries less all exits. */
  ghost function InFlight(run: seq<Action>): int {
    if run == [] then 0
    else
      var before, a := run[..|run| - 1], run[|run| - 1];
      InFlight(before) + (if Enters(before, a) then 1 else 0) - (if a.ExitMutation? then 1 else 0)
  }

  /** A snapshot is asked for, and not refused. */
  ghost predicate Asks(before: seq<Action>, a: Action) {
    a.Request? || (a.Trigger? && !Closed(before))
  }

  /** The snapshot windows of p: entered when nothing is in flight, at once or after waiting, less
      those left. */
  ghost function Holding(run: seq<Action>, p: Proc): int {
    if run == [] then 0
    else
      var before, a := run[..|run| - 1], run[|run| - 1];
      Holding(before, p)
      + (if a.p == p && (a.Seal? || (Asks(before, a) && InFlight(before) == 0)) then 1 else 0)
      - (if a.p == p && Leaves(a) then 1 else 0)
  }

  /** p came to the closed gate and has since been neither let in nor cancelled. */
  ghost predicate AtGate(run: seq<Action>, p: Proc) {
    if run == [] then false
    else
      var before, a := run[..|run| - 1], run[|run| - 1];
      || (a == EnterMutation(p) && Closed(before))
      || (AtGate(before, p) && a != Resume(p) && a != Cancel(p))
  }

  /** p asked for a snapshot in epoch e while mutations were in flight, and has since been neither let
      in nor cancelled. */
  ghost predicate AtDrain(run: seq<Action>, p: Proc, e: nat) {
    if run == [] then false
    else
      var before, a := run[..|run| - 1], run[|run| - 1];
      || (a.p == p && Asks(before, a) && InFlight(before) > 0 && Commits(before) == e)
      || (AtDrain(before, p, e) && a != Seal(p) && a != Cancel(p))
  }

  ghost predicate Waits(run: seq<Action>, p: Proc) {
    AtGate(run, p) || exists e :: AtDrain(run, p, e)
  }

  function Writes(run: seq<Action>): nat {
    if run == [] then 0 else Writes(run[..|run| - 1]) + if run[|run| - 1].Write? then 1 else 0
  }

  /** Which steps can follow. */
  ghost predicate CanFollow(run: seq<Action>, a: Action) {
    match a
    case EnterMutation(p) => !Waits(run, p)
    case Resume(p) => AtGate(run, p) && !Closed(run)
    case Write(p) => !Waits(run, p) && Inside(run, p) > 0
    case ExitMutation(p) => !Waits(run, p) && Inside(run, p) > 0
    case Trigger(p) => !Waits(run, p)
    case Request(p) => !Waits(run, p)
    case Seal(p) => (exists e :: AtDrain(run, p, e)) && InFlight(run) == 0
    case Commit(p) => !Waits(run, p) && Holding(run, p) > 0
    case Abort(p) => !Waits(run, p) && Holding(run, p) > 0
    case Cancel(p) => Waits(run, p)
  }

  // The machine agrees with the history

  ghost function Windows(s: seq<Held>, p: Proc): nat {
    if s == [] then 0 else Windows(s[..|s| - 1], p) + if s[|s| - 1].p == p then 1 else 0
  }

  lemma WindowsAppend(s: seq<Held>, h: Held, p: Proc)
    ensures Windows(s + [h], p) == Windows(s, p) + if h.p == p then 1 else 0
  {
    assert (s + [h])[..|s|] == s;
  }

  lemma {:induction false} WindowsHeld(s: seq<Held>, p: Proc)
    ensures Windows(s, p) > 0 <==> Holds(s, p)
  {
    if s != [] {
      var init, last := s[..|s| - 1], s[|s| - 1];
      WindowsHeld(init, p);
      assert s == init + [last];
      HoldsAppend(init, last, p);
    }
  }

  lemma {:induction false} WindowsWithout(s: seq<Held>, p: Proc, q: Proc)
    requires Holds(s, p)
    ensures Windows(Without(s, p), q) == Windows(s, q) - if q == p then 1 else 0
  {
    var init, last := s[..|s| - 1], s[|s| - 1];
    if last.p != p {
      assert s == init + [last];
      HoldsAppend(init, last, p);
      WindowsWithout(init, p, q);
      WindowsAppend(Without(init, p), last, q);
    }
  }

  /** The state that the history tells. */
  ghost predicate Tells(run: seq<Action>, s: State) {
    && (s.frozen <==> Closed(run)) && s.count == InFlight(run) == |s.tickets|
    && s.epoch == Commits(run) && s.version == Writes(run)
    && forall p :: TellsOf(run, s, p)
  }

  ghost predicate TellsOf(run: seq<Action>, s: State, p: Proc) {
    && Windows(s.tickets, p) == Inside(run, p) && Windows(s.windows, p) == Holding(run, p)
    && (p in s.entering <==> AtGate(run, p))
    && (forall e :: AtDrain(run, p, e) <==> p in s.draining && s.draining[p] == e)
    && !(p in s.entering && p in s.draining)
  }

  lemma ClosedSnoc(run: seq<Action>, a: Action)
    ensures Closed(run + [a]) <==> Freezes(a) || (Closed(run) && !Leaves(a))
  {
    var r := run + [a];
    if Freezes(a) {
      assert r[|run|] == a;
    } else if Closed(run) && !Leaves(a) {
      var i :| 0 <= i < |run| && Freezes(run[i]) && forall j :: i < j < |run| ==> !Leaves(run[j]);
      assert r[i] == run[i] && forall j :: i < j < |r| ==> !Leaves(r[j]);
    }
    if Closed(r) && !Freezes(a) {
      var i :| 0 <= i < |r| && Freezes(r[i]) && forall j :: i < j < |r| ==> !Leaves(r[j]);
      assert i < |run| && r[|run|] == a;
      assert forall j :: i < j < |run| ==> r[j] == run[j];
    }
  }

  lemma {:induction false} CommitsSnoc(run: seq<Action>, a: Action)
    ensures Commits(run + [a]) == Commits(run) + if a.Commit? then 1 else 0
  {
    if run == [] {
      assert [a][1..] == [] && run + [a] == [a];
    } else {
      CommitsSnoc(run[1..], a);
      assert (run + [a])[1..] == run[1..] + [a];
    }
  }

  lemma {:induction false} RunSnoc(s: State, run: seq<Action>, a: Action)
    ensures Executes(s, run + [a]) <==> Executes(s, run) && Enabled(After(s, run), a)
    ensures Executes(s, run + [a]) ==> After(s, run + [a]) == Next(After(s, run), a)
    decreases |run|
  {
    if run == [] {
      assert run + [a] == [a] && [a][1..] == [];
      assert Enabled(s, a) ==> Executes(Next(s, a), []);
    } else {
      assert (run + [a])[1..] == run[1..] + [a];
      if Enabled(s, run[0]) {
        RunSnoc(Next(s, run[0]), run[1..], a);
      }
    }
  }

  lemma CountsSnoc(run: seq<Action>, a: Action, p: Proc)
    ensures Inside(run + [a], p) == Inside(run, p)
      + (if a.p == p && Enters(run, a) then 1 else 0) - (if a == ExitMutation(p) then 1 else 0)
    ensures InFlight(run + [a]) == InFlight(run)
      + (if Enters(run, a) then 1 else 0) - (if a.ExitMutation? then 1 else 0)
    ensures Holding(run + [a], p) == Holding(run, p)
      + (if a.p == p && (a.Seal? || (Asks(run, a) && InFlight(run) == 0)) then 1 else 0)
      - (if a.p == p && Leaves(a) then 1 else 0)
    ensures Writes(run + [a]) == Writes(run) + if a.Write? then 1 else 0
  {
    assert (run + [a])[..|run|] == run;
  }

  lemma WaitingSnoc(run: seq<Action>, a: Action, p: Proc, e: nat)
    ensures AtGate(run + [a], p) <==>
      (a == EnterMutation(p) && Closed(run)) || (AtGate(run, p) && a != Resume(p) && a != Cancel(p))
    ensures AtDrain(run + [a], p, e) <==>
      || (a.p == p && Asks(run, a) && InFlight(run) > 0 && Commits(run) == e)
      || (AtDrain(run, p, e) && a != Seal(p) && a != Cancel(p))
  {
    assert (run + [a])[..|run|] == run;
  }

  lemma TellsGate(run: seq<Action>, s: State, a: Action)
    requires Tells(run, s) && Enabled(s, a)
    ensures var t := Next(s, a);
      && (t.frozen <==> Closed(run + [a])) && t.count == InFlight(run + [a]) == |t.tickets|
      && t.epoch == Commits(run + [a]) && t.version == Writes(run + [a])
  {
    hide Closed, InFlight, Commits, Writes, Inside, Holding, AtGate, AtDrain;
    ClosedSnoc(run, a);
    CountsSnoc(run, a, 0);
    CommitsSnoc(run, a);
    CountStep(s, a);
  }

  lemma TellsTickets(run: seq<Action>, s: State, a: Action, p: Proc)
    requires Tells(run, s) && Enabled(s, a)
    ensures Windows(Next(s, a).tickets, p) == Inside(run + [a], p)
  {
    assert TellsOf(run, s, p);
    hide Closed, InFlight, Commits, Writes, Inside, Holding, AtGate, AtDrain, Windows, TellsOf, Without, Asks;
    CountsSnoc(run, a, p);
    WindowsAppend(s.tickets, Held(a.p, s.epoch, s.version), p);
    if a.ExitMutation? {
      WindowsWithout(s.tickets, a.p, p);
    }
  }

  lemma TellsSnapshots(run: seq<Action>, s: State, a: Action, p: Proc)
    requires Tells(run, s) && Enabled(s, a)
    ensures Windows(Next(s, a).windows, p) == Holding(run + [a], p)
  {
    assert TellsOf(run, s, p);
    hide Closed, InFlight, Commits, Writes, Inside, Holding, AtGate, AtDrain, Windows, TellsOf, Without, Enters;
    CountsSnoc(run, a, p);
    WindowsAppend(s.windows, Held(a.p, s.epoch, s.version), p);
    if a.Seal? {
      WindowsAppend(s.windows, Held(a.p, s.draining[a.p], s.version), p);
    } else if Leaves(a) {
      WindowsWithout(s.windows, a.p, p);
    }
  }

  lemma TellsWaiting(run: seq<Action>, s: State, a: Action, p: Proc, e: nat)
    requires Tells(run, s) && Enabled(s, a)
    ensures var t := Next(s, a);
      && (p in t.entering <==> AtGate(run + [a], p))
      && (AtDrain(run + [a], p, e) <==> p in t.draining && t.draining[p] == e)
      && !(p in t.entering && p in t.draining)
  {
    assert TellsOf(run, s, p);
    hide Closed, InFlight, Commits, Writes, Inside, Holding, AtGate, AtDrain, Windows;
    WaitingSnoc(run, a, p, e);
  }

  lemma TellsStep(run: seq<Action>, s: State, a: Action)
    requires Tells(run, s) && Enabled(s, a)
    ensures Tells(run + [a], Next(s, a))
  {
    TellsGate(run, s, a);
    forall p ensures TellsOf(run + [a], Next(s, a), p) {
      TellsTickets(run, s, a, p);
      TellsSnapshots(run, s, a, p);
      TellsWaiting(run, s, a, p, 0);
      forall e ensures AtDrain(run + [a], p, e) <==> p in Next(s, a).draining && Next(s, a).draining[p] == e {
        TellsWaiting(run, s, a, p, e);
      }
      hide Closed, InFlight, Commits, Writes, Inside, Holding, AtGate, AtDrain, Windows, Next, Enabled, Tells;
    }
    hide Closed, InFlight, Commits, Writes, TellsOf, Next, Enabled;
  }

  /** After every run from the start, whatever overlaps, is aborted or is cancelled: the gate, the
      counter, the epoch, the version, the open windows of every coroutine, and who waits where and
      with which tag, are what the history tells. */
  lemma {:induction false} HistoryTells(run: seq<Action>)
    requires Executes(INITIAL, run)
    ensures Tells(run, After(INITIAL, run))
    decreases |run|
  {
    if run != [] {
      var before, a := run[..|run| - 1], run[|run| - 1];
      assert run == before + [a];
      RunSnoc(INITIAL, before, a);
      HistoryTells(before);
      TellsStep(before, After(INITIAL, before), a);
    }
  }

  /** A run can go on with a step if and only if the history says so. */
  lemma RunContinuesIff(run: seq<Action>, a: Action)
    requires Executes(INITIAL, run)
    ensures Executes(INITIAL, run + [a]) <==> CanFollow(run, a)
  {
    RunSnoc(INITIAL, run, a);
    HistoryTells(run);
    var s := After(INITIAL, run);
    assert TellsOf(run, s, a.p);
    WindowsHeld(s.tickets, a.p);
    WindowsHeld(s.windows, a.p);
    hide Executes, After, Closed, InFlight, Inside, Holding, AtGate, AtDrain, Windows, Commits, Writes, Holds;
    assert a.p in s.draining ==> AtDrain(run, a.p, s.draining[a.p]);
  }

  /** While a coroutine has entered more mutation windows than it has left, at once or after waiting,
      no run without an overlapping request has a snapshot window open. */
  lemma MutationKeepsSnapshotsOut(run: seq<Action>, p: Proc)
    requires Executes(INITIAL, run) && Exclusive(INITIAL, run) && Inside(run, p) > 0
    ensures After(INITIAL, run).windows == [] && forall q :: Holding(run, q) == 0
  {
    HistoryTells(run);
    InitialInvariant();
    ExclusiveRunsKeepInvariant(INITIAL, run);
    var s := After(INITIAL, run);
    assert TellsOf(run, s, p);
    WindowsHeld(s.tickets, p);
    forall q ensures s.windows == [] ==> Holding(run, q) == 0 {
      assert TellsOf(run, s, q);
    }
  }
}
