/** The snapshot barrier as a state machine. Any number of coroutines open mutation windows and
    snapshot windows, nested as they like. A coroutine runs from one suspension point to the next;
    the condition's lock is never held across one, so the checks and updates of one entry or exit
    are a single step. The only suspension points are the two waits: for the gate, and for the
    drain.

    A coroutine that meets no suspension point between two steps takes them in one stretch:
    `trigger_snapshot` leaves its window in the stretch in which it enters it. The model lets other
    steps come between, so its runs include those of the code, and what holds of all runs holds of
    the code. The runs that show an overlapping request to break isolation (`OverlapBreaks`,
    `OverlapIsInsecure` in BarrierIsolation.dfy) leave one window as soon as it is entered and break
    the other, which is a bare one: no other stays open across a suspension point. */
module SnapshotBarrier {

  type Proc = nat

  /** A window held by a coroutine, with the epoch id read before it was entered, and the version of
      the state when it was entered. For a snapshot they are its tag and what it captures. */
  datatype Held = Held(p: Proc, epoch: nat, seen: nat)

  /** `count`, `frozen` and `epoch` are the fields of the barrier and of the epoch manager, and
      `version` counts the writes done. `tickets` are the open mutation windows with the epochs in
      which they were entered, `windows` the open snapshot windows; `entering` are the coroutines
      waiting for the gate, `draining` those waiting for the drain, with their tags. */
  datatype State = State(
    count: int, frozen: bool, epoch: nat, version: nat,
    tickets: seq<Held>, windows: seq<Held>,
    entering: set<Proc>, draining: map<Proc, nat>)

  const INITIAL := State(0, false, 0, 0, [], [], {}, map[])

  datatype Action =
    | EnterMutation(p: Proc)    // enters, or starts to wait for the gate
    | Resume(p: Proc)           // the awaited gate is open: enters
    | Write(p: Proc)
    | ExitMutation(p: Proc)
    | Trigger(p: Proc)          // trigger_snapshot: refused while frozen, otherwise a request
    | Request(p: Proc)          // a bare snapshot_window: freezes, and enters or starts to wait
    | Seal(p: Proc)             // the awaited drain is complete: enters
    | Commit(p: Proc)           // leaves the snapshot window and opens the next epoch
    | Abort(p: Proc)            // leaves it by an exception, or without an epoch manager
    | Cancel(p: Proc)           // is cancelled while it waits

  predicate Holds(s: seq<Held>, p: Proc) {
    exists i :: 0 <= i < |s| && s[i].p == p
  }

  /** The innermost window of p is left. */
  function Without(s: seq<Held>, p: Proc): seq<Held> {
    if s == [] then []
    else if s[|s| - 1].p == p then s[..|s| - 1]
    else Without(s[..|s| - 1], p) + [s[|s| - 1]]
  }

  /** Not suspended at the barrier. */
  predicate Running(s: State, p: Proc) {
    p !in s.entering && p !in s.draining
  }

  predicate Enabled(s: State, a: Action) {
    match a
    case EnterMutation(p) => Running(s, p)
    case Resume(p) => p in s.entering && !s.frozen
    case Write(p) => Running(s, p) && Holds(s.tickets, p)
    case ExitMutation(p) => Running(s, p) && Holds(s.tickets, p)
    case Trigger(p) => Running(s, p)
    case Request(p) => Running(s, p)
    case Seal(p) => p in s.draining && s.count == 0
    case Commit(p) => Running(s, p) && Holds(s.windows, p)
    case Abort(p) => Running(s, p) && Holds(s.windows, p)
    case Cancel(p) => !Running(s, p)
  }

  function Admit(s: State, p: Proc): State {
    s.(count := s.count + 1, tickets := s.tickets + [Held(p, s.epoch, s.version)])
  }

  function Freeze(s: State, p: Proc): State {
    if s.count == 0 then s.(frozen := true, windows := s.windows + [Held(p, s.epoch, s.version)])
    else s.(frozen := true, draining := s.draining[p := s.epoch])
  }

  function Next(s: State, a: Action): State
    requires Enabled(s, a)
  {
    match a
    case EnterMutation(p) => if s.frozen then s.(entering := s.entering + {p}) else Admit(s, p)
    case Resume(p) => Admit(s.(entering := s.entering - {p}), p)
    case Write(p) => s.(version := s.version + 1)
    case ExitMutation(p) => s.(count := s.count - 1, tickets := Without(s.tickets, p))
    case Trigger(p) => if s.frozen then s else Freeze(s, p)
    case Request(p) => Freeze(s, p)
    case Seal(p) =>
      s.(windows := s.windows + [Held(p, s.draining[p], s.version)], draining := s.draining - {p})
    case Commit(p) => s.(frozen := false, epoch := s.epoch + 1, windows := Without(s.windows, p))
    case Abort(p) => s.(frozen := false, windows := Without(s.windows, p))
    case Cancel(p) => s.(entering := s.entering - {p}, draining := s.draining - {p})
  }

  ghost predicate Executes(s: State, run: seq<Action>)
    decreases |run|
  {
    run == [] || (Enabled(s, run[0]) && Executes(Next(s, run[0]), run[1..]))
  }

  function After(s: State, run: seq<Action>): State
    requires Executes(s, run)
    decreases |run|
  {
    if run == [] then s else After(Next(s, run[0]), run[1..])
  }

  // What a snapshot relies on

  /** While a snapshot window is open no mutation is in flight, the captured version is the current
      one, and the snapshot carries the id of the epoch it seals. */
  ghost predicate Isolated(s: State) {
    s.windows != [] ==>
      && s.tickets == []
      && forall i :: 0 <= i < |s.windows| ==> s.windows[i].epoch == s.epoch && s.windows[i].seen == s.version
  }

  /** Every mutation in flight belongs to the current epoch. */
  ghost predicate Unsplit(s: State) {
    forall i :: 0 <= i < |s.tickets| ==> s.tickets[i].epoch == s.epoch
  }

  ghost predicate Active(s: State) {
    s.windows != [] || s.draining != map[]
  }

  /** The freeze flag covers every active snapshot. */
  ghost predicate Covered(s: State) {
    Active(s) ==> s.frozen
  }

  /** A coroutine waits for the drain and holds no mutation window, which would make it wait for itself. */
  ghost predicate Hopeful(s: State, p: Proc) {
    p in s.draining && !Holds(s.tickets, p)
  }

  /** At most one snapshot is open or hopeful. */
  ghost predicate Single(s: State) {
    && |s.windows| <= 1
    && (forall p :: Hopeful(s, p) ==> s.windows == [])
    && (forall p, q :: Hopeful(s, p) && Hopeful(s, q) ==> p == q)
  }

  ghost predicate Tagged(s: State) {
    forall p :: p in s.draining ==> s.draining[p] == s.epoch
  }

  ghost predicate Invariant(s: State) {
    && s.count == |s.tickets| && Isolated(s) && Unsplit(s)
    && Covered(s) && Single(s) && Tagged(s) && s.draining.Keys !! s.entering
  }

  lemma InitialInvariant()
    ensures Invariant(INITIAL)
  {
  }

  /** A bare window is requested by a coroutine without a mutation window, while another snapshot is
      open or hopeful. */
  ghost predicate Overlaps(s: State, a: Action) {
    a.Request? && !Holds(s.tickets, a.p) && (s.windows != [] || exists q :: Hopeful(s, q))
  }

  lemma {:induction false} WithoutFacts(s: seq<Held>, p: Proc)
    requires Holds(s, p)
    ensures |Without(s, p)| == |s| - 1
    ensures forall i :: 0 <= i < |Without(s, p)| ==> Without(s, p)[i] in s
    ensures forall q :: q != p ==> (Holds(Without(s, p), q) <==> Holds(s, q))
  {
    var last := s[|s| - 1];
    var init := s[..|s| - 1];
    assert s == init + [last];
    forall q ensures Holds(s, q) <==> Holds(init, q) || q == last.p {
      HoldsAppend(init, last, q);
    }
    if last.p != p {
      WithoutFacts(init, p);
      forall q ensures Holds(Without(s, p), q) <==> Holds(Without(init, p), q) || q == last.p {
        HoldsAppend(Without(init, p), last, q);
      }
    }
  }

  lemma HoldsAppend(s: seq<Held>, h: Held, q: Proc)
    ensures Holds(s + [h], q) <==> Holds(s, q) || q == h.p
  {
    assert (s + [h])[|s|] == h;
    if Holds(s, q) {
      var i :| 0 <= i < |s| && s[i].p == q;
      assert (s + [h])[i].p == q;
    }
  }

  // One step

  lemma AdmitKeeps(s: State, p: Proc)
    requires Invariant(s) && !s.frozen
    ensures Invariant(Admit(s, p))
  {
    var t := Admit(s, p);
    forall q | Hopeful(t, q) ensures Hopeful(s, q) {
      HoldsAppend(s.tickets, Held(p, s.epoch, s.version), q);
    }
  }

  lemma FreezeKeeps(s: State, p: Proc)
    requires Invariant(s) && Running(s, p)
    ensures Invariant(Freeze(s, p)) <==> !Overlaps(s, Request(p))
  {
    var t := Freeze(s, p);
    if s.count == 0 {
      assert s.tickets == [] && t.windows[|s.windows|].p == p;
      assert forall q :: Hopeful(t, q) <==> Hopeful(s, q);
      if Overlaps(s, Request(p)) && s.windows == [] {
        var q :| Hopeful(s, q);
        assert Hopeful(t, q) && t.windows != [];
      }
    } else {
      assert forall q :: q != p ==> (Hopeful(t, q) <==> Hopeful(s, q));
      if Overlaps(s, Request(p)) {
        var q :| Hopeful(s, q);
        assert Hopeful(t, q) && Hopeful(t, p);
      }
    }
  }

  lemma ExitKeeps(s: State, p: Proc)
    requires Invariant(s) && Enabled(s, ExitMutation(p))
    ensures Invariant(Next(s, ExitMutation(p)))
  {
    WithoutFacts(s.tickets, p);
    var t := Next(s, ExitMutation(p));
    forall q ensures Hopeful(t, q) <==> Hopeful(s, q) {
    }
    forall i | 0 <= i < |t.tickets| ensures t.tickets[i].epoch == s.epoch {
      assert t.tickets[i] in s.tickets;
    }
  }

  lemma SealKeeps(s: State, p: Proc)
    requires Invariant(s) && Enabled(s, Seal(p))
    ensures Invariant(Next(s, Seal(p)))
  {
    assert s.tickets == [] && Hopeful(s, p);
    var t := Next(s, Seal(p));
    assert forall q :: Hopeful(t, q) ==> Hopeful(s, q) && q != p;
  }

  lemma LeaveKeeps(s: State, a: Action)
    requires Invariant(s) && (a.Commit? || a.Abort?) && Enabled(s, a)
    ensures Invariant(Next(s, a)) && !Active(Next(s, a))
  {
    WithoutFacts(s.windows, a.p);
    assert s.tickets == [];
    forall q ensures q !in s.draining {
      assert !Hopeful(s, q);
    }
    assert s.draining == map[];
  }

  lemma CancelKeeps(s: State, p: Proc)
    requires Invariant(s) && Enabled(s, Cancel(p))
    ensures Invariant(Next(s, Cancel(p)))
  {
    var t := Next(s, Cancel(p));
    assert forall q :: Hopeful(t, q) ==> Hopeful(s, q);
    if s.windows == [] && t.draining != map[] {
      var q :| q in t.draining;
      assert q in s.draining;
    }
  }

  /** Whatever is cancelled or aborted, every step keeps the invariant, except for exactly the
      overlapping requests. */
  lemma InvariantStep(s: State, a: Action)
    requires Invariant(s) && Enabled(s, a)
    ensures Invariant(Next(s, a)) <==> !Overlaps(s, a)
  {
    match a
    case EnterMutation(p) =>
      if s.frozen {
        assert forall q :: Hopeful(Next(s, a), q) <==> Hopeful(s, q);
      } else {
        AdmitKeeps(s, p);
      }
    case Resume(p) => AdmitKeeps(s.(entering := s.entering - {p}), p);
    case Write(p) =>
      assert s.tickets != [] && s.windows == [];
      assert forall q :: Hopeful(Next(s, a), q) <==> Hopeful(s, q);
    case ExitMutation(p) => ExitKeeps(s, p);
    case Trigger(p) =>
      if !s.frozen {
        assert forall q :: !Hopeful(s, q);
        FreezeKeeps(s, p);
      }
    case Request(p) => FreezeKeeps(s, p);
    case Seal(p) => SealKeeps(s, p);
    case Commit(p) => LeaveKeeps(s, a);
    case Abort(p) => LeaveKeeps(s, a);
    case Cancel(p) => CancelKeeps(s, p);
  }

  // Runs

  /** No request of the run overlaps. */
  ghost predicate Exclusive(s: State, run: seq<Action>)
    requires Executes(s, run)
    decreases |run|
  {
    run == [] || (!Overlaps(s, run[0]) && Exclusive(Next(s, run[0]), run[1..]))
  }

  lemma {:induction false} ExclusiveRunsKeepInvariant(s: State, run: seq<Action>)
    requires Invariant(s) && Executes(s, run) && Exclusive(s, run)
    ensures Invariant(After(s, run))
    decreases |run|
  {
    if run != [] {
      InvariantStep(s, run[0]);
      ExclusiveRunsKeepInvariant(Next(s, run[0]), run[1..]);
    }
  }

  /** The counter counts the open mutation windows, whatever the coroutines do. */
  lemma CountStep(s: State, a: Action)
    requires s.count == |s.tickets| && Enabled(s, a)
    ensures Next(s, a).count == |Next(s, a).tickets|
  {
    if a.ExitMutation? {
      WithoutFacts(s.tickets, a.p);
    }
  }

  lemma {:induction false} CountRun(s: State, run: seq<Action>)
    requires s.count == |s.tickets| && Executes(s, run)
    ensures After(s, run).count == |After(s, run).tickets|
    decreases |run|
  {
    if run != [] {
      CountStep(s, run[0]);
      CountRun(Next(s, run[0]), run[1..]);
    }
  }

  lemma FreshProc(used: set<Proc>) returns (p: Proc)
    ensures p !in used
  {
    p := Bound(used);
    assert p in used ==> p < p;
  }

  lemma {:induction false} Bound(used: set<Proc>) returns (b: nat)
    ensures forall p :: p in used ==> p < b
    decreases |used|
  {
    b := 0;
    if used != {} {
      var q :| q in used;
      b := Bound(used - {q});
      b := if q < b then b else q + 1;
      assert forall p :: p in used ==> p == q || p in used - {q};
    }
  }

  lemma RunCons(s: State, a: Action, rest: seq<Action>)
    requires Enabled(s, a) && Executes(Next(s, a), rest) && Exclusive(Next(s, a), rest) && !Overlaps(s, a)
    ensures Executes(s, [a] + rest) && Exclusive(s, [a] + rest)
    ensures After(s, [a] + rest) == After(Next(s, a), rest)
  {
    assert ([a] + rest)[0] == a && ([a] + rest)[1..] == rest;
  }

  // Epochs

  function Commits(run: seq<Action>): nat {
    if run == [] then 0 else (if run[0].Commit? then 1 else 0) + Commits(run[1..])
  }

  /** The epoch counts the committed snapshots: aborted and cancelled ones leave it alone. */
  lemma {:induction false} EpochCountsCommits(s: State, run: seq<Action>)
    requires Executes(s, run)
    ensures After(s, run).epoch == s.epoch + Commits(run)
    decreases |run|
  {
    if run != [] {
      EpochCountsCommits(Next(s, run[0]), run[1..]);
    }
  }

  lemma TicketStays(s: State, a: Action, p: Proc)
    requires Enabled(s, a) && Holds(s.tickets, p) && a != ExitMutation(p)
    ensures Holds(Next(s, a).tickets, p)
  {
    match a
    case EnterMutation(q) => HoldsAppend(s.tickets, Held(q, s.epoch, s.version), p);
    case Resume(q) => HoldsAppend(s.tickets, Held(q, s.epoch, s.version), p);
    case ExitMutation(q) => WithoutFacts(s.tickets, q);
    case _ =>
  }

  /** A mutation window that stays open over an exclusive run has seen no commit and no other epoch. */
  lemma {:induction false} MutationSeesNoCommit(s: State, run: seq<Action>, p: Proc)
    requires Invariant(s) && Executes(s, run) && Exclusive(s, run)
    requires Holds(s.tickets, p) && forall i :: 0 <= i < |run| ==> run[i] != ExitMutation(p)
    ensures Commits(run) == 0 && Holds(After(s, run).tickets, p) && After(s, run).epoch == s.epoch
    decreases |run|
  {
    EpochCountsCommits(s, run);
    if run != [] {
      assert run[0] != ExitMutation(p);
      assert s.tickets != [] && s.windows == [];
      assert forall i :: 0 <= i < |run[1..]| ==> run[1..][i] == run[i + 1];
      InvariantStep(s, run[0]);
      TicketStays(s, run[0], p);
      MutationSeesNoCommit(Next(s, run[0]), run[1..], p);
    }
  }

  // Building runs

  lemma OneStep(s: State, a: Action)
    requires Enabled(s, a)
    ensures Executes(s, [a]) && After(s, [a]) == Next(s, a)
  {
    assert [a][1..] == [];
    assert Executes(Next(s, a), []);
  }

  lemma TwoSteps(s: State, a: Action, b: Action)
    requires Enabled(s, a) && Enabled(Next(s, a), b)
    ensures Executes(s, [a, b]) && After(s, [a, b]) == Next(Next(s, a), b)
    ensures Exclusive(s, [a, b]) <==> !Overlaps(s, a) && !Overlaps(Next(s, a), b)
  {
    var t := Next(Next(s, a), b);
    assert [a, b][1..] == [b] && [b][1..] == [];
    assert Executes(t, []) && Executes(Next(s, a), [b]);
    assert After(s, [a, b]) == After(Next(s, a), [b]) == After(t, []);
    assert Exclusive(t, []);
    assert Exclusive(Next(s, a), [b]) <==> !Overlaps(Next(s, a), b);
  }

  lemma {:induction false} RunConcat(s: State, a: seq<Action>, b: seq<Action>)
    requires Executes(s, a) && Executes(After(s, a), b)
    ensures Executes(s, a + b) && After(s, a + b) == After(After(s, a), b)
    decreases |a|
  {
    if a == [] {
      assert a + b == b;
    } else {
      RunConcat(Next(s, a[0]), a[1..], b);
      assert (a + b)[1..] == a[1..] + b;
    }
  }

}
