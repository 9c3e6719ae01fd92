/** What a run of the causal scheduler achieves: it respects causality, loses nothing, and
    dispatches everything that any causal schedule could dispatch. */
module CausalSchedules {
  import opened Sorting
  import opened CausalScheduler

  /** Executed one event at a time, every event of l finds all its parents completed. */
  ghost predicate CausalOrder(l: seq<Event>, done: set<EventId>) {
    forall i :: 0 <= i < |l| ==> IsReady(l[i], done + IdsTo(l, i))
  }

  /** Some causal schedule of the pending events contains e. */
  ghost predicate Schedulable(e: Event, pending: seq<Event>, done: set<EventId>) {
    exists l :: e in l && CausalOrder(l, done) && multiset(l) <= multiset(pending)
  }

  /** All pending events can be put into one causal schedule. */
  ghost predicate Linearizable(pending: seq<Event>, done: set<EventId>) {
    exists l :: multiset(l) == multiset(pending) && CausalOrder(l, done)
  }

  // Causality

  lemma {:induction false} IdsToConcat(a: seq<Event>, b: seq<Event>, n: nat)
    requires n <= |b|
    ensures IdsTo(a + b, |a| + n) == IdsTo(a, |a|) + IdsTo(b, n)
  {
    if n > 0 {
      IdsToConcat(a, b, n - 1);
    } else {
      IdsToPrefix(a, b, |a|);
    }
  }

  lemma {:induction false} IdsToPrefix(a: seq<Event>, b: seq<Event>, n: nat)
    requires n <= |a|
    ensures IdsTo(a + b, n) == IdsTo(a, n)
  {
    if n > 0 {
      IdsToPrefix(a, b, n - 1);
    }
  }

  lemma CausalConcatAt(a: seq<Event>, b: seq<Event>, done: set<EventId>, i: nat)
    requires CausalOrder(a, done) && CausalOrder(b, done + Ids(a)) && i < |a + b|
    ensures IsReady((a + b)[i], done + IdsTo(a + b, i))
  {
    hide Ids;
    if i < |a| {
      IdsToPrefix(a, b, i);
    } else {
      var k := i - |a|;
      IdsToConcat(a, b, k);
      IdsToAll(a);
      assert IsReady(b[k], done + Ids(a) + IdsTo(b, k));
      assert done + Ids(a) + IdsTo(b, k) == done + IdsTo(a + b, i);
    }
  }

  lemma CausalConcat(a: seq<Event>, b: seq<Event>, done: set<EventId>)
    requires CausalOrder(a, done) && CausalOrder(b, done + Ids(a))
    ensures CausalOrder(a + b, done)
  {
    forall i | 0 <= i < |a + b| ensures IsReady((a + b)[i], done + IdsTo(a + b, i)) {
      CausalConcatAt(a, b, done, i);
    }
  }

  lemma EmptyCausal(done: set<EventId>)
    ensures CausalOrder([], done)
  {
  }

  lemma WaveCausal(pending: seq<Event>, done: set<EventId>)
    ensures CausalOrder(Wave(pending, done), done)
  {
    WaveMembers(pending, done);
    var wave := Wave(pending, done);
    forall i | 0 <= i < |wave| ensures IsReady(wave[i], done + IdsTo(wave, i)) {
      assert wave[i] in wave;
    }
  }

  /** Every event is handed to the dispatch function only after all its parents have been
      completed, whatever dispatches raise. */
  lemma {:induction false} RunIsCausal(fails: set<EventId>, pending: seq<Event>, done: set<EventId>, budget: nat)
    ensures CausalOrder(Order(fails, pending, done, budget), done)
    decreases budget
  {
    hide Wave, BlockedOf, Ids, CausalOrder;
    EmptyCausal(done);
    if budget > 0 && pending != [] {
      var wave := Wave(pending, done);
      WaveCausal(pending, done);
      if !Halts(fails, pending, done) {
        RunIsCausal(fails, BlockedOf(pending, done), done + Ids(wave), budget - 1);
        CausalConcat(wave, Order(fails, BlockedOf(pending, done), done + Ids(wave), budget - 1), done);
      }
    }
  }

  // Conservation

  lemma SplitStep(pending: seq<Event>, done: set<EventId>, n: nat)
    requires 0 < n <= |pending|
    ensures var r, b, x := ReadyTo(pending, done, n - 1), BlockedTo(pending, done, n - 1), pending[n - 1];
      || (ReadyTo(pending, done, n) == r + [x] && BlockedTo(pending, done, n) == b)
      || (ReadyTo(pending, done, n) == r && BlockedTo(pending, done, n) == b + [x])
  {
  }

  lemma NothingSplit(pending: seq<Event>, done: set<EventId>)
    ensures ReadyTo(pending, done, 0) == [] && BlockedTo(pending, done, 0) == [] && pending[..0] == []
  {
  }

  lemma Regrouped(r: seq<Event>, b: seq<Event>, s: seq<Event>, x: Event, newR: seq<Event>, newB: seq<Event>)
    requires multiset(r) + multiset(b) == multiset(s)
    requires (newR == r + [x] && newB == b) || (newR == r && newB == b + [x])
    ensures multiset(newR) + multiset(newB) == multiset(s + [x])
  {
  }

  lemma {:induction false} SplitTo(pending: seq<Event>, done: set<EventId>, n: nat)
    requires n <= |pending|
    ensures multiset(ReadyTo(pending, done, n)) + multiset(BlockedTo(pending, done, n)) == multiset(pending[..n])
  {
    hide ReadyTo, BlockedTo;
    if n == 0 {
      NothingSplit(pending, done);
    } else {
      SplitTo(pending, done, n - 1);
      SplitStep(pending, done, n);
      assert pending[..n] == pending[..n - 1] + [pending[n - 1]];
      Regrouped(ReadyTo(pending, done, n - 1), BlockedTo(pending, done, n - 1), pending[..n - 1], pending[n - 1],
        ReadyTo(pending, done, n), BlockedTo(pending, done, n));
    }
  }

  lemma {:induction false} SplitSizes(pending: seq<Event>, done: set<EventId>, n: nat)
    requires n <= |pending|
    ensures |ReadyTo(pending, done, n)| + |BlockedTo(pending, done, n)| == n
  {
    if n > 0 {
      SplitSizes(pending, done, n - 1);
    }
  }

  lemma CycleSplits(pending: seq<Event>, done: set<EventId>)
    ensures multiset(Wave(pending, done)) + multiset(BlockedOf(pending, done)) == multiset(pending)
    ensures |Wave(pending, done)| + |BlockedOf(pending, done)| == |pending|
  {
    SplitTo(pending, done, |pending|);
    SplitSizes(pending, done, |pending|);
    SortPermutes(ClockLeq, ReadyOf(pending, done));
    assert pending[..|pending|] == pending;
  }

  /** Every submitted event is dispatched, dropped or left, exactly as often as it was submitted. */
  lemma {:induction false} RunConserves(fails: set<EventId>, pending: seq<Event>, done: set<EventId>, budget: nat)
    ensures multiset(Order(fails, pending, done, budget)) + multiset(Dropped(fails, pending, done, budget))
          + multiset(Left(fails, pending, done, budget)) == multiset(pending)
    decreases budget
  {
    hide Wave, BlockedOf, Ids;
    if budget > 0 && pending != [] {
      CycleSplits(pending, done);
      if !Halts(fails, pending, done) {
        RunConserves(fails, BlockedOf(pending, done), done + Ids(Wave(pending, done)), budget - 1);
      }
    }
  }

  lemma {:induction false} SuccessesBound(fails: set<EventId>, s: seq<Event>, n: nat)
    requires n <= |s|
    ensures SuccessesTo(fails, s, n) <= n
    ensures SuccessesTo(fails, s, n) == n <==> forall k :: 0 <= k < n ==> s[k].id !in fails
  {
    if n > 0 {
      SuccessesBound(fails, s, n - 1);
    }
  }

  /** A budget of one cycle per event always empties the pending dict. */
  lemma {:induction false} RunDrains(fails: set<EventId>, pending: seq<Event>, done: set<EventId>, budget: nat)
    requires |pending| <= budget
    ensures Left(fails, pending, done, budget) == []
    decreases budget
  {
    hide Wave, BlockedOf, Ids;
    if pending != [] && !Halts(fails, pending, done) {
      CycleSplits(pending, done);
      var blocked := BlockedOf(pending, done);
      SuccessesBound(fails, Wave(pending, done), |Wave(pending, done)|);
      RunDrains(fails, blocked, done + Ids(Wave(pending, done)), budget - 1);
    }
  }

  lemma {:induction false} MembersCount(s: seq<Event>, e: Event)
    requires UniqueIds(s) && e in s
    ensures multiset(s)[e] == 1
  {
    var n := |s| - 1;
    var init := s[..n];
    assert s == init + [s[n]];
    if e == s[n] {
      assert forall k :: 0 <= k < n ==> init[k].id != s[n].id;
      assert multiset(init)[e] == 0;
    } else {
      MembersCount(init, e);
    }
  }

  lemma SubmultisetMember(l: seq<Event>, p: seq<Event>, e: Event)
    requires multiset(l) <= multiset(p) && e in l
    ensures e in p
  {
    assert e in multiset(l);
    assert e in multiset(p);
  }

  lemma DispatchedSchedulable(fails: set<EventId>, pending: seq<Event>, done: set<EventId>, budget: nat, e: Event)
    requires e in Order(fails, pending, done, budget)
    ensures Schedulable(e, pending, done)
  {
    RunIsCausal(fails, pending, done, budget);
    RunConserves(fails, pending, done, budget);
    assert multiset(Order(fails, pending, done, budget)) <= multiset(pending);
  }
}
