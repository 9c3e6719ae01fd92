/** What a raising dispatch means for the events that wait for it. */
module CausalFailures {
  import opened CausalDeterminism
  import opened CausalLevels
  import opened CausalScheduler
  import opened CausalSchedules

  /** Every parent of a dispatched event that was not completed before the run has itself been
      dispatched by it, and has returned. */
  ghost predicate ParentsReturned(order: seq<Event>, fails: set<EventId>, done: set<EventId>) {
    forall e, q :: e in order && q in e.parents && q !in done ==> q in Ids(order) && q !in fails
  }

  /** A reached event has a reached parent whose dispatch raises. */
  ghost predicate RaisingParent(d: map<EventId, nat>, fails: set<EventId>, pending: seq<Event>, done: set<EventId>,
      budget: nat, e: Event, f: Event)
  {
    && Reached(d, fails, pending, 0, budget, e) && Reached(d, fails, pending, 0, budget, f)
    && f.id in e.parents && f.id !in done && f.id in fails
  }

  /** The parents of a reached event are reached. */
  lemma ParentIsReached(d: map<EventId, nat>, fails: set<EventId>, pending: seq<Event>, done: set<EventId>,
      budget: nat, e: Event, q: EventId) returns (f: Event)
    requires Levels(d, pending, done, 0) && Reached(d, fails, pending, 0, budget, e) && q in e.parents && q !in done
    ensures f.id == q && Reached(d, fails, pending, 0, budget, f)
  {
    assert LevelAt(d, pending, done, 0, e);
    f :| f in pending && f.id == q;
  }

  /** A parent of a dispatched event is dispatched, and raises only if that is seen in the levels. */
  lemma ParentIsDispatched(d: map<EventId, nat>, fails: set<EventId>, pending: seq<Event>, done: set<EventId>,
      budget: nat, e: Event, q: EventId)
    requires Levels(d, pending, done, 0) && UniqueIds(pending)
    requires e in Order(fails, pending, done, budget) && q in e.parents && q !in done
    ensures q in Ids(Order(fails, pending, done, budget))
    ensures q in fails ==> exists f :: RaisingParent(d, fails, pending, done, budget, e, f)
  {
    DispatchedIffReached(d, fails, pending, done, budget);
    hide Levels, Reached, Order, UniqueIds;
    var f := ParentIsReached(d, fails, pending, done, budget, e, q);
    assert f in Order(fails, pending, done, budget);
    assert q in fails ==> RaisingParent(d, fails, pending, done, budget, e, f);
  }

  lemma RaisingParentShows(d: map<EventId, nat>, fails: set<EventId>, pending: seq<Event>, done: set<EventId>,
      budget: nat, e: Event, f: Event)
    requires Levels(d, pending, done, 0) && UniqueIds(pending)
    requires RaisingParent(d, fails, pending, done, budget, e, f)
    ensures e in Order(fails, pending, done, budget) && f.id in e.parents && f.id !in done && f.id in fails
  {
    DispatchedIffReached(d, fails, pending, done, budget);
    hide Levels, Reached, Order, UniqueIds;
  }

  /** A dispatched event waits for its parents to be completed, not to return: all of them have
      returned when it is dispatched, if and only if no reached event has a reached parent that raises. */
  lemma ParentsReturnedIff(d: map<EventId, nat>, fails: set<EventId>, pending: seq<Event>, done: set<EventId>,
      budget: nat)
    requires Levels(d, pending, done, 0) && UniqueIds(pending)
    ensures ParentsReturned(Order(fails, pending, done, budget), fails, done) <==>
      !exists e, f :: RaisingParent(d, fails, pending, done, budget, e, f)
  {
    hide Levels, Order, UniqueIds, Ids, RaisingParent;
    var order := Order(fails, pending, done, budget);
    if exists e, f :: RaisingParent(d, fails, pending, done, budget, e, f) {
      var e, f :| RaisingParent(d, fails, pending, done, budget, e, f);
      RaisingParentShows(d, fails, pending, done, budget, e, f);
    } else {
      forall e, q | e in order && q in e.parents && q !in done ensures q in Ids(order) && q !in fails {
        ParentIsDispatched(d, fails, pending, done, budget, e, q);
      }
    }
  }

  /** The dispatch of `create` raises, and `complete` is dispatched all the same, since an unrelated
      event of the first cycle returns. */
  lemma ChildOfRaisingParentIsDispatched()
    ensures var a := Event(EventId("create"), [], 1, 0);
      var b := Event(EventId("complete"), [a.id], 2, 0);
      var c := Event(EventId("other"), [], 3, 0);
      b in Order({a.id}, [a, b, c], {}, MAX_CYCLES)
  {
    var a := Event(EventId("create"), [], 1, 0);
    var b := Event(EventId("complete"), [a.id], 2, 0);
    var c := Event(EventId("other"), [], 3, 0);
    ChildIsDispatched(map[a.id := 0, b.id := 1, c.id := 0], a, b, c);
  }

  lemma ChildIsDispatched(d: map<EventId, nat>, a: Event, b: Event, c: Event)
    requires a.id != b.id && b.id != c.id && a.id != c.id
    requires a.parents == [] && b.parents == [a.id] && c.parents == []
    requires {a.id, b.id, c.id} <= d.Keys && d[a.id] == 0 && d[b.id] == 1 && d[c.id] == 0
    ensures b in Order({a.id}, [a, b, c], {}, MAX_CYCLES)
  {
    var p := [a, b, c];
    assert forall e :: e in p <==> e == a || e == b || e == c;
    RootLevel(d, p, a);
    ChildLevel(d, p, b, a);
    RootLevel(d, p, c);
    hide LevelAt;
    assert Levels(d, p, {}, 0);
    assert UniqueIds(p);
    assert Alive(d, {a.id}, p, 0);
    assert Reached(d, {a.id}, p, 0, MAX_CYCLES, b);
    hide *;
    DispatchedIffReached(d, {a.id}, p, {}, MAX_CYCLES);
  }
}
