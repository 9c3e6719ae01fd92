/** Replaying the tail of a log with a fresh scheduler, and inputs on which a run loses events. */
module CausalReplay {
  import opened CausalLevels
  import opened CausalScheduler
  import opened CausalSchedules
  import opened Sorting

  // Snapshot and delta

  /** All parents of the delta's events are events of the delta. */
  ghost predicate ClosedUnderParents(delta: seq<Event>) {
    forall e, q :: e in delta && q in e.parents ==> q in Ids(delta)
  }

  lemma {:induction false} SuffixCausal(prefix: seq<Event>, delta: seq<Event>)
    requires CausalOrder(prefix + delta, {}) && UniqueIds(prefix + delta) && ClosedUnderParents(delta)
    ensures CausalOrder(delta, {})
  {
    var l := prefix + delta;
    forall i | 0 <= i < |delta| ensures IsReady(delta[i], {} + IdsTo(delta, i)) {
      IdsToMembers(l, |prefix| + i);
      IdsToMembers(delta, i);
      assert l[|prefix| + i] == delta[i] && delta[i] in delta;
      assert IsReady(l[|prefix| + i], {} + IdsTo(l, |prefix| + i));
      forall q | q in delta[i].parents ensures q in IdsTo(delta, i) {
        ParentInDelta(prefix, delta, i, q);
      }
    }
  }

  lemma ParentInDelta(prefix: seq<Event>, delta: seq<Event>, i: nat, q: EventId)
    requires UniqueIds(prefix + delta) && i < |delta|
    requires q in Ids(delta) && q in IdsTo(prefix + delta, |prefix| + i)
    ensures q in IdsTo(delta, i)
  {
    var l := prefix + delta;
    IdsToMembers(l, |prefix| + i);
    IdsToMembers(delta, i);
    var k :| 0 <= k < |prefix| + i && l[k].id == q;
    var e :| e in delta && e.id == q;
    var j :| 0 <= j < |delta| && delta[j] == e;
    assert l[|prefix| + j].id == q;
    assert k == |prefix| + j;
    assert delta[j].id == q;
  }

  lemma LinearizableIsClosed(delta: seq<Event>, e: Event, q: EventId)
    requires Linearizable(delta, {}) && e in delta && q in e.parents
    ensures q in Ids(delta)
  {
    var l: seq<Event> :| multiset(l) == multiset(delta) && CausalOrder(l, {});
    assert e in multiset(delta);
    var i :| 0 <= i < |l| && l[i] == e;
    assert IsReady(l[i], {} + IdsTo(l, i));
    IdsToMembers(l, i);
    var k :| 0 <= k < i && l[k].id == q;
    assert l[k] in multiset(l);
    assert l[k] in delta;
  }

  /** A causally ordered log is cut into a snapshot prefix and a delta, and a fresh scheduler
      replays the delta alone, whatever raises. Everything is dispatched if and only if no event of
      the delta has a parent before the cut, no level of the delta reaches the cycle budget, and
      below each event some event of each level returns: the events of the snapshot never count as
      completed. */
  lemma DeltaReplayDispatchesAll(d: map<EventId, nat>, fails: set<EventId>, prefix: seq<Event>, delta: seq<Event>,
      budget: nat)
    requires UniqueIds(prefix + delta) && CausalOrder(prefix + delta, {}) && Levels(d, delta, {}, 0)
    ensures multiset(Order(fails, delta, {}, budget)) == multiset(delta) <==>
      && ClosedUnderParents(delta)
      && forall e :: e in delta && e.id in d ==> Reached(d, fails, delta, 0, budget, e)
  {
    UniqueSuffix(prefix, delta);
    AllDispatchedIff(d, fails, delta, {}, budget);
    LinearizableIffLevels(d, delta, {});
    ClosedIffLinearizable(prefix, delta);
  }

  lemma UniqueSuffix(prefix: seq<Event>, delta: seq<Event>)
    requires UniqueIds(prefix + delta)
    ensures UniqueIds(delta)
  {
    forall i, j | 0 <= i < j < |delta| ensures delta[i].id != delta[j].id {
      assert (prefix + delta)[|prefix| + i].id != (prefix + delta)[|prefix| + j].id;
    }
  }

  lemma ClosedIffLinearizable(prefix: seq<Event>, delta: seq<Event>)
    requires UniqueIds(prefix + delta) && CausalOrder(prefix + delta, {})
    ensures ClosedUnderParents(delta) <==> Linearizable(delta, {})
  {
    if ClosedUnderParents(delta) {
      SuffixCausal(prefix, delta);
    }
    if Linearizable(delta, {}) {
      forall e, q | e in delta && q in e.parents ensures q in Ids(delta) {
        LinearizableIsClosed(delta, e, q);
      }
    }
  }

  // The verdict of a recovery

  /** Every event has a level, below the cycle budget. */
  ghost predicate Replayable(log: seq<Event>, budget: nat) {
    exists d: map<EventId, nat> ::
      Levels(d, log, {}, 0) && forall e :: e in log ==> e.id in d && d[e.id] < budget
  }

  lemma ReplayableIff(d: map<EventId, nat>, log: seq<Event>, budget: nat)
    requires Levels(d, log, {}, 0) && UniqueIds(log)
    ensures Replayable(log, budget) <==> forall e :: e in log ==> e.id in d && d[e.id] < budget
  {
    if Replayable(log, budget) {
      var c: map<EventId, nat> :|
        Levels(c, log, {}, 0) && forall e :: e in log ==> e.id in c && c[e.id] < budget;
      forall e | e in log ensures e.id in d && d[e.id] < budget {
        LevelsUnique(c, d, log, {}, e);
      }
    }
  }

  ghost predicate NoneRaises(fails: set<EventId>, log: seq<Event>) {
    forall e :: e in log ==> e.id !in fails
  }

  lemma ReachedIfNoneRaises(d: map<EventId, nat>, fails: set<EventId>, log: seq<Event>, budget: nat, e: Event)
    requires Levels(d, log, {}, 0) && NoneRaises(fails, log)
    ensures Reached(d, fails, log, 0, budget, e) <==> e in log && e.id in d && d[e.id] < budget
  {
    ReachedWithoutFailures(d, log, {}, 0, budget, e);
    forall m ensures Alive(d, fails, log, m) <==> Alive(d, {}, log, m) {
    }
  }

  /** As many dispatches return as there are pending events, if and only if none raises and every
      event has a level within the budget. */
  lemma AllReturnIff(fails: set<EventId>, log: seq<Event>, budget: nat)
    requires UniqueIds(log)
    ensures Successes(fails, Order(fails, log, {}, budget)) <= |log|
    ensures Successes(fails, Order(fails, log, {}, budget)) == |log| <==>
      NoneRaises(fails, log) && Replayable(log, budget)
  {
    var order := Order(fails, log, {}, budget);
    var d := LevelsExist(log, {});
    RunConserves(fails, log, {}, budget);
    SuccessesBound(fails, order, |order|);
    AllDispatchedIff(d, fails, log, {}, budget);
    ReplayableIff(d, log, budget);
    SizeDecides(order, log);
    hide Replayable, Levels, Order, UniqueIds;
    if NoneRaises(fails, log) {
      forall e ensures Reached(d, fails, log, 0, budget, e) <==> e in log && e.id in d && d[e.id] < budget {
        ReachedIfNoneRaises(d, fails, log, budget, e);
      }
    }
    if multiset(order) == multiset(log) {
      SameElements(order, log);
    }
  }

  lemma SizeDecides(part: seq<Event>, whole: seq<Event>)
    requires multiset(part) <= multiset(whole)
    ensures |part| <= |whole|
    ensures |part| == |whole| <==> multiset(part) == multiset(whole)
  {
    var rest := multiset(whole) - multiset(part);
    assert multiset(whole) == multiset(part) + rest;
    assert |multiset(whole)| == |whole| && |multiset(part)| == |part|;
  }

  lemma SameElements(s: seq<Event>, t: seq<Event>)
    requires multiset(s) == multiset(t)
    ensures forall e :: e in s <==> e in t
  {
    forall e ensures e in s <==> e in t {
      assert e in s <==> e in multiset(s);
      assert e in t <==> e in multiset(t);
    }
  }

  /** `_submit_to_scheduler`: events with one id share one place in the pending dict, but each
      submission counts. */
  method SubmitAll(scheduler: Scheduler, log: seq<Event>) returns (submitted: nat)
    requires scheduler.Valid() && scheduler.pending == []
    modifies scheduler`pending
    ensures scheduler.Valid() && submitted == |log|
    ensures UniqueIds(log) ==> scheduler.pending == log
    ensures !UniqueIds(log) ==> |scheduler.pending| < |log|
  {
    submitted := 0;
    while submitted < |log|
      invariant 0 <= submitted <= |log| && scheduler.Valid()
      invariant UniqueIds(log[..submitted]) ==> scheduler.pending == log[..submitted]
      invariant !UniqueIds(log[..submitted]) ==> |scheduler.pending| < submitted
    {
      NextUnique(log, submitted);
      scheduler.Submit(log[submitted]);
      submitted := submitted + 1;
    }
    assert log[..|log|] == log;
  }

  lemma NextUnique(log: seq<Event>, n: nat)
    requires n < |log|
    ensures UniqueIds(log[..n + 1]) <==> UniqueIds(log[..n]) && log[n].id !in Ids(log[..n])
    ensures log[..n + 1] == log[..n] + [log[n]]
  {
  }

  /** `execute_recovery` on the events read after the snapshot: in strict mode it succeeds if and
      only if the ids are distinct, no dispatch raises, and every event has a level within the
      cycle budget. */
  method ExecuteRecovery(fails: set<EventId>, log: seq<Event>, strict: bool) returns (recovered: bool)
    ensures recovered <==> (strict ==> UniqueIds(log) && NoneRaises(fails, log) && Replayable(log, MAX_CYCLES))
  {
    if log == [] {
      NothingToReplay();
      return true;
    }
    var scheduler := new Scheduler(fails);
    var submitted := SubmitAll(scheduler, log);
    AllReturnIff(fails, scheduler.pending, MAX_CYCLES);
    var dispatched := scheduler.RunUntilEmpty(MAX_CYCLES);
    if dispatched < submitted && strict {
      return false;
    }
    return true;
  }

  lemma NothingToReplay()
    ensures Replayable([], MAX_CYCLES)
  {
    assert Levels(map[], [], {}, 0);
  }

  /** A strict recovery of the tail of a causal log succeeds if and only if no event of the tail has
      a parent before the cut, none raises, and no level of the tail reaches the cycle budget. */
  lemma DeltaReplayableIff(d: map<EventId, nat>, prefix: seq<Event>, delta: seq<Event>, budget: nat)
    requires UniqueIds(prefix + delta) && CausalOrder(prefix + delta, {}) && Levels(d, delta, {}, 0)
    ensures UniqueIds(delta)
    ensures Replayable(delta, budget) <==>
      ClosedUnderParents(delta) && forall e :: e in delta && e.id in d ==> d[e.id] < budget
  {
    UniqueSuffix(prefix, delta);
    ReplayableIff(d, delta, budget);
    LinearizableIffLevels(d, delta, {});
    ClosedIffLinearizable(prefix, delta);
  }

  // Inputs

  /** A log that names one event twice is refused, although it can be replayed: the repeated event is
      counted twice and dispatched once. */
  lemma RepeatedIdIsRefused()
    ensures var e := Event(EventId("create"), [], 1, 0);
      var log := [e, e];
      && NoneRaises({}, log) && Replayable(log, MAX_CYCLES) && !UniqueIds(log)
  {
    var e := Event(EventId("create"), [], 1, 0);
    var d := map[e.id := 0];
    var log := [e, e];
    assert log[0].id == log[1].id;
    assert forall f :: f in log <==> f == e;
    assert LevelAt(d, log, {}, 0, e);
    hide LevelAt;
    assert Levels(d, log, {}, 0) && d[e.id] < MAX_CYCLES;
  }

  /** The replay of a log cut between a creation and its completion loses the completion. */
  lemma CutBetweenParentAndChild()
    ensures var created := Event(EventId("create"), [], 1, 0);
      var completed := Event(EventId("complete"), [created.id], 2, 0);
      && CausalOrder([created] + [completed], {})
      && Order({}, [completed], {}, MAX_CYCLES) == []
      && Dropped({}, [completed], {}, MAX_CYCLES) == [completed]
  {
    var created := Event(EventId("create"), [], 1, 0);
    var completed := Event(EventId("complete"), [created.id], 2, 0);
    var l := [created] + [completed];
    assert l[0] == created && l[1] == completed;
    assert IdsTo(l, 1) == IdsTo(l, 0) + {created.id};
    assert created.id in completed.parents;
    assert !IsReady(completed, {});
    assert ReadyTo([completed], {}, 1) == ReadyTo([completed], {}, 0) == [];
    assert BlockedTo([completed], {}, 1) == BlockedTo([completed], {}, 0) + [completed];
    assert Wave([completed], {}) == [];
    assert Halts({}, [completed], {});
  }

  /** A creation whose dispatch raises takes its ready child down with it: the cycle reports no
      progress, and the child is dropped as deadlocked although its only parent has completed. */
  lemma RaisingCycleDropsReadyChild()
    ensures var parent := Event(EventId("parent"), [], 1, 0);
      var child := Event(EventId("child"), [parent.id], 2, 0);
      && Dropped({parent.id}, [parent, child], {}, MAX_CYCLES) == [child]
      && IsReady(child, {parent.id})
      && WipedOut({parent.id}, [parent, child], {}, MAX_CYCLES)
  {
    var parent := Event(EventId("parent"), [], 1, 0);
    var child := Event(EventId("child"), [parent.id], 2, 0);
    var p := [parent, child];
    assert parent.id in child.parents;
    assert !IsReady(child, {}) && IsReady(parent, {}) && IsReady(child, {parent.id});
    assert ReadyTo(p, {}, 1) == ReadyTo(p, {}, 0) + [parent];
    assert ReadyTo(p, {}, 2) == [parent];
    assert BlockedTo(p, {}, 1) == BlockedTo(p, {}, 0);
    assert BlockedTo(p, {}, 2) == [child];
    assert SortTo(ClockLeq, [parent], 1) == Insert(ClockLeq, SortTo(ClockLeq, [parent], 0), parent) == [parent];
    assert Wave(p, {}) == [parent];
    assert Ids([parent]) == {parent.id} by {
      assert parent in [parent];
    }
    assert SuccessesTo({parent.id}, [parent], 1) == SuccessesTo({parent.id}, [parent], 0);
    assert child in BlockedOf(p, {});
  }
}
