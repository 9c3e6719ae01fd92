/** When the dispatch order of the causal scheduler is independent of the order of submission, when
    it ascends by logical clock, and what epochs have to do with it. */
module CausalDeterminism {
  import opened CausalLevels
  import opened CausalScheduler
  import opened CausalSchedules
  import opened Sorting

  // Order of submission

  lemma InOrderInit(d: map<EventId, nat>, at: map<EventId, nat>, l: seq<Event>, x: Event)
    requires InOrder(d, at, l) && l != []
    ensures InOrder(d, at, l[..|l| - 1])
    ensures x in l[..|l| - 1] <==> x in l && x != l[|l| - 1]
  {
  }

  lemma InOrderLast(d: map<EventId, nat>, at: map<EventId, nat>, a: seq<Event>, b: seq<Event>)
    requires InOrder(d, at, a) && InOrder(d, at, b) && a != [] && b != []
    requires forall e :: e in a <==> e in b
    ensures a[|a| - 1] == b[|b| - 1]
  {
    var x, y := a[|a| - 1], b[|b| - 1];
    assert x in b && y in a;
    var i :| 0 <= i < |b| && b[i] == x;
    var j :| 0 <= j < |a| && a[j] == y;
    assert i < |b| - 1 ==> Sooner(d, at, b[i], b[|b| - 1]);
    assert j < |a| - 1 ==> Sooner(d, at, a[j], a[|a| - 1]);
  }

  /** The order determines the sequence from its members. */
  lemma {:induction false} InOrderUnique(d: map<EventId, nat>, at: map<EventId, nat>, a: seq<Event>, b: seq<Event>)
    requires InOrder(d, at, a) && InOrder(d, at, b) && forall e :: e in a <==> e in b
    ensures a == b
  {
    hide InOrder;
    assert a == [] || a[0] in a;
    assert b == [] || b[0] in b;
    if a != [] {
      InOrderLast(d, at, a, b);
      var init, rest := a[..|a| - 1], b[..|b| - 1];
      forall e ensures e in init <==> e in rest {
        InOrderInit(d, at, a, e);
        InOrderInit(d, at, b, e);
      }
      InOrderInit(d, at, a, a[0]);
      InOrderInit(d, at, b, a[0]);
      InOrderUnique(d, at, init, rest);
      assert a == init + [a[|a| - 1]] && b == rest + [b[|b| - 1]];
    }
  }

  /** No two reached events of one level carry the same logical clock. */
  ghost predicate TieFree(d: map<EventId, nat>, fails: set<EventId>, pending: seq<Event>, budget: nat) {
    forall e, f :: (&& Reached(d, fails, pending, 0, budget, e) && Reached(d, fails, pending, 0, budget, f)
                    && e != f && d[e.id] == d[f.id]) ==> e.clock != f.clock
  }

  lemma TieFreeOrder(d: map<EventId, nat>, at: map<EventId, nat>, there: map<EventId, nat>, l: seq<Event>)
    requires InOrder(d, at, l) && forall e :: e in l ==> e.id in there
    requires forall e, f :: e in l && f in l && e != f && e.id in d && f.id in d && d[e.id] == d[f.id] ==>
      e.clock != f.clock
    ensures InOrder(d, there, l)
  {
  }

  lemma SameSubmissions(d: map<EventId, nat>, p: seq<Event>, q: seq<Event>, done: set<EventId>)
    requires UniqueIds(p) && multiset(p) == multiset(q)
    ensures UniqueIds(q) && forall e :: e in p <==> e in q
    ensures Levels(d, p, done, 0) ==> Levels(d, q, done, 0)
  {
    forall e ensures e in p <==> e in q {
      assert e in p <==> e in multiset(p);
      assert e in q <==> e in multiset(q);
    }
    forall i, j | 0 <= i < j < |q| ensures q[i].id != q[j].id {
      if q[i].id == q[j].id {
        UniqueIdsEqual(p, q[i], q[j]);
        MembersCount(p, q[i]);
        RepeatCounts(q, i, j);
      }
    }
    assert Ids(p) == Ids(q);
  }

  lemma SameReached(d: map<EventId, nat>, fails: set<EventId>, p: seq<Event>, q: seq<Event>, budget: nat, e: Event)
    requires forall f :: f in p <==> f in q
    ensures Reached(d, fails, p, 0, budget, e) <==> Reached(d, fails, q, 0, budget, e)
  {
    forall m ensures Alive(d, fails, p, m) <==> Alive(d, fails, q, m) {
    }
  }

  lemma TieFreeIsDeterministic(d: map<EventId, nat>, fails: set<EventId>, p: seq<Event>, q: seq<Event>,
      done: set<EventId>, budget: nat)
    requires Levels(d, p, done, 0) && UniqueIds(p) && multiset(p) == multiset(q) && TieFree(d, fails, p, budget)
    ensures Order(fails, q, done, budget) == Order(fails, p, done, budget)
  {
    SameSubmissions(d, p, q, done);
    PlacesExist(p);
    PlacesExist(q);
    DispatchedIffReached(d, fails, p, done, budget);
    DispatchedIffReached(d, fails, q, done, budget);
    hide Levels, UniqueIds, Order;
    var a, b := Order(fails, p, done, budget), Order(fails, q, done, budget);
    forall e ensures e in a <==> e in b {
      SameReached(d, fails, p, q, budget, e);
    }
    PlacedMembers(PlaceMap(p), p);
    hide InOrder;
    TieFreeOrder(d, PlaceMap(q), PlaceMap(p), b);
    InOrderUnique(d, PlaceMap(p), a, b);
  }

  function Reversed<T>(s: seq<T>): (r: seq<T>)
    ensures |r| == |s| && forall i :: 0 <= i < |s| ==> r[i] == s[|s| - 1 - i]
  {
    seq(|s|, i requires 0 <= i < |s| => s[|s| - 1 - i])
  }

  lemma {:induction false} ReversedPermutes<T>(s: seq<T>)
    ensures multiset(Reversed(s)) == multiset(s)
  {
    if s != [] {
      var n := |s| - 1;
      ReversedPermutes(s[..n]);
      assert s == s[..n] + [s[n]];
      assert Reversed(s) == [s[n]] + Reversed(s[..n]);
    }
  }

  /** Submitted the other way round, two tied events are dispatched the other way round. */
  lemma TieShows(d: map<EventId, nat>, fails: set<EventId>, p: seq<Event>, done: set<EventId>, budget: nat, e: Event,
      f: Event)
    requires Levels(d, p, done, 0) && UniqueIds(p)
    requires Reached(d, fails, p, 0, budget, e) && Reached(d, fails, p, 0, budget, f)
    requires e != f && d[e.id] == d[f.id] && e.clock == f.clock
    ensures Order(fails, Reversed(p), done, budget) != Order(fails, p, done, budget)
  {
    var q := Reversed(p);
    assert e in p && f in p;
    hide Levels, UniqueIds, Order, PlaceMap, Reversed, Reached, InOrder;
    ReversedPermutes(p);
    SameSubmissions(d, p, q, done);
    DispatchedIffReached(d, fails, p, done, budget);
    DispatchedIffReached(d, fails, q, done, budget);
    PlacesReversed(p, e, f);
    var l := Order(fails, p, done, budget);
    var i :| 0 <= i < |l| && l[i] == e;
    var j :| 0 <= j < |l| && l[j] == f;
    SoonerIffBefore(d, PlaceMap(p), l, i, j);
    if Order(fails, q, done, budget) == l {
      SoonerIffBefore(d, PlaceMap(q), l, i, j);
    }
  }

  lemma SoonerIffBefore(d: map<EventId, nat>, at: map<EventId, nat>, l: seq<Event>, i: nat, j: nat)
    requires InOrder(d, at, l) && i < |l| && j < |l|
    ensures Sooner(d, at, l[i], l[j]) <==> i < j
  {
  }

  lemma PlacesReversed(p: seq<Event>, e: Event, f: Event)
    requires UniqueIds(p) && UniqueIds(Reversed(p)) && e in p && f in p
    ensures var at, there := PlaceMap(p), PlaceMap(Reversed(p));
      && e.id in at && f.id in at && e.id in there && f.id in there
      && (at[e.id] < at[f.id] <==> there[f.id] < there[e.id])
  {
    PlacesExist(p);
    PlacesExist(Reversed(p));
    var i :| 0 <= i < |p| && p[i] == e;
    var j :| 0 <= j < |p| && p[j] == f;
    assert Reversed(p)[|p| - 1 - i] == e && Reversed(p)[|p| - 1 - j] == f;
  }

  /** The dispatch order is the same for every order of submission if and only if no two reached
      events of one level carry the same logical clock. */
  lemma RunIsDeterministic(d: map<EventId, nat>, fails: set<EventId>, pending: seq<Event>, done: set<EventId>,
      budget: nat)
    requires Levels(d, pending, done, 0) && UniqueIds(pending)
    ensures (forall q :: multiset(q) == multiset(pending) ==>
               Order(fails, q, done, budget) == Order(fails, pending, done, budget))
       <==> TieFree(d, fails, pending, budget)
  {
    if TieFree(d, fails, pending, budget) {
      forall q | multiset(q) == multiset(pending)
        ensures Order(fails, q, done, budget) == Order(fails, pending, done, budget)
      {
        TieFreeIsDeterministic(d, fails, pending, q, done, budget);
      }
    } else {
      var e, f :| Reached(d, fails, pending, 0, budget, e) && Reached(d, fails, pending, 0, budget, f) && e != f
        && d[e.id] == d[f.id] && e.clock == f.clock;
      TieShows(d, fails, pending, done, budget, e, f);
      ReversedPermutes(pending);
    }
  }

  // Clocks

  /** A sequence in order is sorted by any relation if and only if the relation holds of all members
      the one of which comes sooner. */
  lemma SortedIffSooner(d: map<EventId, nat>, at: map<EventId, nat>, l: seq<Event>, leq: (Event, Event) -> bool)
    requires InOrder(d, at, l)
    ensures SortedBy(leq, l) <==> forall e, f :: e in l && f in l && Sooner(d, at, e, f) ==> leq(e, f)
  {
  }

  lemma SortedByClockIff(d: map<EventId, nat>, at: map<EventId, nat>, l: seq<Event>)
    requires InOrder(d, at, l) && forall e :: e in l ==> e.id in d && e.id in at
    ensures SortedBy(ClockLeq, l) <==>
      forall e, f :: e in l && f in l && d[e.id] < d[f.id] ==> e.clock <= f.clock
  {
    SortedIffSooner(d, at, l, ClockLeq);
  }

  /** The whole dispatch order is by ascending logical clock if and only if no reached event has a
      smaller clock than a reached event of smaller level. */
  lemma ClockOrderCondition(d: map<EventId, nat>, fails: set<EventId>, pending: seq<Event>, done: set<EventId>,
      budget: nat)
    requires Levels(d, pending, done, 0) && UniqueIds(pending)
    ensures SortedBy(ClockLeq, Order(fails, pending, done, budget)) <==>
      forall e, f :: (&& Reached(d, fails, pending, 0, budget, e) && Reached(d, fails, pending, 0, budget, f)
                      && d[e.id] < d[f.id]) ==> e.clock <= f.clock
  {
    var at := PlaceMap(pending);
    PlacesExist(pending);
    PlacedMembers(at, pending);
    DispatchedIffReached(d, fails, pending, done, budget);
    assert forall e :: Reached(d, fails, pending, 0, budget, e) ==> e.id in d && e.id in at;
    hide *;
    SortedByClockIff(d, at, Order(fails, pending, done, budget));
  }

  // Epochs

  predicate EpochLeq(a: Event, b: Event) {
    a.epoch <= b.epoch
  }

  /** Dispatch never goes back to an older epoch if and only if no reached event is of a smaller epoch
      than one that comes sooner by level, clock and place. */
  lemma EpochOrderCondition(d: map<EventId, nat>, at: map<EventId, nat>, fails: set<EventId>, pending: seq<Event>,
      done: set<EventId>, budget: nat)
    requires Levels(d, pending, done, 0) && Placed(at, pending)
    ensures SortedBy(EpochLeq, Order(fails, pending, done, budget)) <==>
      forall e, f :: (&& Reached(d, fails, pending, 0, budget, e) && Reached(d, fails, pending, 0, budget, f)
                      && Sooner(d, at, e, f)) ==> e.epoch <= f.epoch
  {
    RunInOrder(d, at, fails, pending, done, 0, budget);
    hide *;
    SortedIffSooner(d, at, Order(fails, pending, done, budget), EpochLeq);
  }

  /** The events with other epochs. */
  function Stamped(s: seq<Event>, epochs: EventId -> int): (r: seq<Event>)
    ensures |r| == |s| && forall i :: 0 <= i < |s| ==> r[i] == s[i].(epoch := epochs(s[i].id))
  {
    seq(|s|, i requires 0 <= i < |s| => s[i].(epoch := epochs(s[i].id)))
  }

  lemma StampedConcat(a: seq<Event>, b: seq<Event>, epochs: EventId -> int)
    ensures Stamped(a + b, epochs) == Stamped(a, epochs) + Stamped(b, epochs)
  {
  }

  lemma {:induction false} StampedSplit(s: seq<Event>, done: set<EventId>, epochs: EventId -> int, n: nat)
    requires n <= |s|
    ensures ReadyTo(Stamped(s, epochs), done, n) == Stamped(ReadyTo(s, done, n), epochs)
    ensures BlockedTo(Stamped(s, epochs), done, n) == Stamped(BlockedTo(s, done, n), epochs)
  {
    if n > 0 {
      StampedSplit(s, done, epochs, n - 1);
      StampedConcat(ReadyTo(s, done, n - 1), [s[n - 1]], epochs);
      StampedConcat(BlockedTo(s, done, n - 1), [s[n - 1]], epochs);
      assert Stamped([s[n - 1]], epochs) == [Stamped(s, epochs)[n - 1]];
      assert IsReady(Stamped(s, epochs)[n - 1], done) <==> IsReady(s[n - 1], done);
    }
  }

  lemma {:induction false} StampedPlace(s: seq<Event>, x: Event, epochs: EventId -> int, n: nat)
    requires n <= |s|
    ensures Place(ClockLeq, Stamped(s, epochs), x.(epoch := epochs(x.id)), n) == Place(ClockLeq, s, x, n)
  {
    if n > 0 {
      StampedPlace(s, x, epochs, n - 1);
    }
  }

  lemma StampedInsert(s: seq<Event>, x: Event, epochs: EventId -> int)
    ensures Insert(ClockLeq, Stamped(s, epochs), x.(epoch := epochs(x.id))) == Stamped(Insert(ClockLeq, s, x), epochs)
  {
    StampedPlace(s, x, epochs, |s|);
    var k := Place(ClockLeq, s, x, |s|);
    var l := Insert(ClockLeq, Stamped(s, epochs), x.(epoch := epochs(x.id)));
    var r := Stamped(Insert(ClockLeq, s, x), epochs);
    hide Place;
    assert |l| == |r| == |s| + 1;
    forall i | 0 <= i < |l| ensures l[i] == r[i] {
    }
  }

  lemma {:induction false} StampedSort(s: seq<Event>, epochs: EventId -> int, n: nat)
    requires n <= |s|
    ensures SortTo(ClockLeq, Stamped(s, epochs), n) == Stamped(SortTo(ClockLeq, s, n), epochs)
  {
    if n > 0 {
      StampedSort(s, epochs, n - 1);
      var r, x := SortTo(ClockLeq, s, n - 1), s[n - 1];
      StampedInsert(r, x, epochs);
    }
    hide *;
  }

  lemma StampedIds(s: seq<Event>, epochs: EventId -> int)
    ensures Ids(Stamped(s, epochs)) == Ids(s)
  {
  }

  lemma {:induction false} StampedSuccesses(fails: set<EventId>, s: seq<Event>, epochs: EventId -> int, n: nat)
    requires n <= |s|
    ensures SuccessesTo(fails, Stamped(s, epochs), n) == SuccessesTo(fails, s, n)
  {
    if n > 0 {
      StampedSuccesses(fails, s, epochs, n - 1);
    }
  }

  lemma StampedCycle(fails: set<EventId>, s: seq<Event>, done: set<EventId>, epochs: EventId -> int)
    ensures Wave(Stamped(s, epochs), done) == Stamped(Wave(s, done), epochs)
    ensures BlockedOf(Stamped(s, epochs), done) == Stamped(BlockedOf(s, done), epochs)
    ensures Ids(Wave(Stamped(s, epochs), done)) == Ids(Wave(s, done))
    ensures Halts(fails, Stamped(s, epochs), done) <==> Halts(fails, s, done)
  {
    StampedSplit(s, done, epochs, |s|);
    StampedSort(ReadyOf(s, done), epochs, |ReadyOf(s, done)|);
    StampedIds(Wave(s, done), epochs);
    StampedSuccesses(fails, Wave(s, done), epochs, |Wave(s, done)|);
  }

  /** No scheduling decision reads the epoch: with other epochs the same events are dispatched in the
      same order, dropped and left. */
  lemma {:induction false} EpochsAreIgnored(fails: set<EventId>, pending: seq<Event>, done: set<EventId>, budget: nat,
      epochs: EventId -> int)
    ensures Order(fails, Stamped(pending, epochs), done, budget) == Stamped(Order(fails, pending, done, budget), epochs)
    ensures Dropped(fails, Stamped(pending, epochs), done, budget)
         == Stamped(Dropped(fails, pending, done, budget), epochs)
    ensures Left(fails, Stamped(pending, epochs), done, budget) == Stamped(Left(fails, pending, done, budget), epochs)
    decreases budget
  {
    hide Wave, BlockedOf, Ids, Halts;
    if budget > 0 && pending != [] {
      StampedCycle(fails, pending, done, epochs);
      if !Halts(fails, pending, done) {
        var wave, next := Wave(pending, done), done + Ids(Wave(pending, done));
        EpochsAreIgnored(fails, BlockedOf(pending, done), next, budget - 1, epochs);
        StampedConcat(wave, Order(fails, BlockedOf(pending, done), next, budget - 1), epochs);
      }
    }
  }

  // Inputs

  /** When nothing raises, the whole order is the arrangement of the events by level, clock and place. */
  lemma OrderIs(d: map<EventId, nat>, at: map<EventId, nat>, pending: seq<Event>, l: seq<Event>)
    requires Levels(d, pending, {}, 0) && Placed(at, pending) && InOrder(d, at, l)
    requires forall e :: e in l <==> e in pending
    requires forall e :: e in pending ==> e.id in d && d[e.id] < MAX_CYCLES
    ensures Order({}, pending, {}, MAX_CYCLES) == l
  {
    RunInOrder(d, at, {}, pending, {}, 0, MAX_CYCLES);
    hide *;
    var o := Order({}, pending, {}, MAX_CYCLES);
    forall e ensures e in o <==> e in l {
      ReachedWithoutFailures(d, pending, {}, 0, MAX_CYCLES, e);
    }
    InOrderUnique(d, at, o, l);
  }

  lemma RootLevel(d: map<EventId, nat>, p: seq<Event>, e: Event)
    requires e.parents == [] && e.id in d && d[e.id] == 0
    ensures LevelAt(d, p, {}, 0, e)
  {
  }

  lemma ChildLevel(d: map<EventId, nat>, p: seq<Event>, e: Event, f: Event)
    requires e.parents == [f.id] && f in p && f.id in d && d[f.id] == 0 && e.id in d && d[e.id] == 1
    ensures LevelAt(d, p, {}, 0, e)
  {
  }

  /** Two independent events, submitted either way, are dispatched by clock, then by place. */
  lemma PairByClock(x: Event, y: Event, p: seq<Event>)
    requires x.parents == [] && y.parents == [] && x.id != y.id
    requires (p == [x, y] && x.clock <= y.clock) || (p == [y, x] && x.clock < y.clock)
    ensures Order({}, p, {}, MAX_CYCLES) == [x, y]
  {
    var d, at := map[x.id := 0, y.id := 0], map[p[0].id := 0, p[1].id := 1];
    RootLevel(d, p, x);
    RootLevel(d, p, y);
    assert Placed(at, p) && Sooner(d, at, x, y);
    hide LevelAt, Placed, Sooner;
    assert Levels(d, p, {}, 0) && InOrder(d, at, [x, y]);
    assert forall e :: e in p <==> e == x || e == y;
    assert forall e :: e in [x, y] <==> e == x || e == y;
    hide *;
    OrderIs(d, at, p, [x, y]);
  }

  /** Two events with one clock are dispatched as they were submitted, either way. */
  lemma EqualClocksFollowSubmission()
    ensures var a, b := Event(EventId("a"), [], 1, 0), Event(EventId("b"), [], 1, 0);
      && Order({}, [a, b], {}, MAX_CYCLES) == [a, b]
      && Order({}, [b, a], {}, MAX_CYCLES) == [b, a]
  {
    var a, b := Event(EventId("a"), [], 1, 0), Event(EventId("b"), [], 1, 0);
    PairByClock(a, b, [a, b]);
    PairByClock(b, a, [b, a]);
  }

  /** An event of epoch 0 that was submitted first is dispatched after one of epoch 1. */
  lemma OlderEpochAfterNewer()
    ensures var a, b := Event(EventId("a"), [], 2, 0), Event(EventId("b"), [], 1, 1);
      Order({}, [a, b], {}, MAX_CYCLES) == [b, a]
  {
    var a, b := Event(EventId("a"), [], 2, 0), Event(EventId("b"), [], 1, 1);
    PairByClock(b, a, [a, b]);
  }

  /** Two concurrent events out of clock order: the child with clock 2 is dispatched after the
      unrelated event with clock 3. */
  lemma ConcurrentEventsOutOfClockOrder()
    ensures var a := Event(EventId("a"), [], 1, 0);
      var b := Event(EventId("b"), [a.id], 2, 0);
      var c := Event(EventId("c"), [], 3, 0);
      Order({}, [a, b, c], {}, MAX_CYCLES) == [a, c, b]
  {
    var a := Event(EventId("a"), [], 1, 0);
    var b := Event(EventId("b"), [a.id], 2, 0);
    var c := Event(EventId("c"), [], 3, 0);
    ChildAfterUnrelated(a, b, c);
  }

  lemma ChildAfterUnrelated(a: Event, b: Event, c: Event)
    requires a.id != b.id && b.id != c.id && a.id != c.id && a.clock < c.clock
    requires a.parents == [] && b.parents == [a.id] && c.parents == []
    ensures Order({}, [a, b, c], {}, MAX_CYCLES) == [a, c, b]
  {
    ChildLast(map[a.id := 0, b.id := 1, c.id := 0], map[a.id := 0, b.id := 1, c.id := 2], a, b, c);
  }

  lemma ChildLast(d: map<EventId, nat>, at: map<EventId, nat>, a: Event, b: Event, c: Event)
    requires a.clock < c.clock && a.parents == [] && b.parents == [a.id] && c.parents == []
    requires {a.id, b.id, c.id} <= d.Keys && d[a.id] == 0 && d[b.id] == 1 && d[c.id] == 0
    requires {a.id, b.id, c.id} <= at.Keys && at[a.id] == 0 && at[b.id] == 1 && at[c.id] == 2
    ensures Order({}, [a, b, c], {}, MAX_CYCLES) == [a, c, b]
  {
    var p, l := [a, b, c], [a, c, b];
    assert forall e :: e in p <==> e == a || e == b || e == c;
    assert forall e :: e in l <==> e == a || e == b || e == c;
    RootLevel(d, p, a);
    ChildLevel(d, p, b, a);
    RootLevel(d, p, c);
    assert Placed(at, p) && Sooner(d, at, a, c) && Sooner(d, at, a, b) && Sooner(d, at, c, b);
    hide LevelAt, Placed, Sooner;
    assert Levels(d, p, {}, 0) && InOrder(d, at, l);
    hide *;
    OrderIs(d, at, p, l);
  }
}
