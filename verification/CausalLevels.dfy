/** The dispatch order of the causal scheduler in closed form. An event's level is the length of the
    longest causal chain below it; which events are dispatched, and in which order, follows from
    levels, clocks and places in the pending dict, whatever raises and whatever the cycle budget. */
module CausalLevels {
  import opened Sorting
  import opened CausalScheduler
  import opened CausalSchedules

  // Levels

  /** d gives the levels, from k upwards, of the events that can become ready: parents outside `done`
      are pending events of smaller level, and one of them lies exactly one level below. An event
      without a level has a parent that is neither done nor pending with a level. */
  ghost predicate Levels(d: map<EventId, nat>, pending: seq<Event>, done: set<EventId>, k: nat) {
    forall e :: e in pending ==> LevelAt(d, pending, done, k, e)
  }

  ghost predicate LevelAt(d: map<EventId, nat>, pending: seq<Event>, done: set<EventId>, k: nat, e: Event) {
    if e.id in d then
      && k <= d[e.id]
      && (forall q :: q in e.parents && q !in done ==> q in Ids(pending) && q in d && d[q] < d[e.id])
      && (d[e.id] > k ==> exists q :: q in e.parents && q !in done && q in d && d[q] + 1 == d[e.id])
    else
      exists q :: q in e.parents && q !in done && (q !in Ids(pending) || q !in d)
  }

  lemma PendingLevel(d: map<EventId, nat>, pending: seq<Event>, done: set<EventId>, k: nat, q: EventId)
    requires Levels(d, pending, done, k) && q in Ids(pending) && q in d
    ensures k <= d[q]
  {
    var f :| f in pending && f.id == q;
  }

  /** The ready events are those of the least level. */
  lemma ReadyIffLeast(d: map<EventId, nat>, pending: seq<Event>, done: set<EventId>, k: nat, e: Event)
    requires Levels(d, pending, done, k) && e in pending
    ensures IsReady(e, done) <==> e.id in d && d[e.id] == k
  {
    if e.id in d && d[e.id] == k {
      forall q | q in e.parents ensures q in done {
        if q in Ids(pending) && q in d {
          PendingLevel(d, pending, done, k, q);
        }
      }
    }
  }

  lemma WaveIsLeast(d: map<EventId, nat>, pending: seq<Event>, done: set<EventId>, k: nat)
    requires Levels(d, pending, done, k)
    ensures forall e :: e in Wave(pending, done) <==> e in pending && e.id in d && d[e.id] == k
    ensures forall e :: e in BlockedOf(pending, done) <==> e in pending && !(e.id in d && d[e.id] == k)
  {
    WaveMembers(pending, done);
    forall e | e in pending ensures IsReady(e, done) <==> e.id in d && d[e.id] == k {
      ReadyIffLeast(d, pending, done, k, e);
    }
  }

  lemma LevelsAfterCycle(d: map<EventId, nat>, pending: seq<Event>, done: set<EventId>, k: nat)
    requires Levels(d, pending, done, k) && UniqueIds(pending)
    ensures Levels(d, BlockedOf(pending, done), done + Ids(Wave(pending, done)), k + 1)
  {
    WaveIsLeast(d, pending, done, k);
    var wave, blocked := Wave(pending, done), BlockedOf(pending, done);
    forall e | e in blocked ensures LevelAt(d, blocked, done + Ids(wave), k + 1, e) {
      NextLevelAt(d, pending, wave, blocked, done, k, e);
    }
    hide *;
  }

  lemma NextLevelAt(d: map<EventId, nat>, pending: seq<Event>, wave: seq<Event>, blocked: seq<Event>,
      done: set<EventId>, k: nat, e: Event)
    requires Levels(d, pending, done, k) && e in blocked
    requires forall f :: f in wave <==> f in pending && f.id in d && d[f.id] == k
    requires forall f :: f in blocked <==> f in pending && !(f.id in d && d[f.id] == k)
    ensures LevelAt(d, blocked, done + Ids(wave), k + 1, e)
  {
    assert LevelAt(d, pending, done, k, e);
    var next := done + Ids(wave);
    SplitIds(d, pending, wave, blocked, k);
    hide Levels, Ids;
    if e.id in d {
      forall q | q in e.parents && q !in next ensures q in Ids(blocked) && q in d && d[q] < d[e.id] {
        assert q in Ids(pending);
      }
      if d[e.id] > k + 1 {
        var q :| q in e.parents && q !in done && q in d && d[q] + 1 == d[e.id];
        assert q !in next;
      }
    } else {
      var q :| q in e.parents && q !in done && (q !in Ids(pending) || q !in d);
      assert q !in next;
    }
  }

  lemma SplitIds(d: map<EventId, nat>, pending: seq<Event>, wave: seq<Event>, blocked: seq<Event>, k: nat)
    requires forall f :: f in wave <==> f in pending && f.id in d && d[f.id] == k
    requires forall f :: f in blocked <==> f in pending && !(f.id in d && d[f.id] == k)
    ensures forall q :: q in Ids(wave) <==> q in Ids(pending) && q in d && d[q] == k
    ensures forall q :: q in Ids(blocked) <==> q in Ids(pending) && !(q in d && d[q] == k)
  {
    forall q | q in Ids(pending) ensures q in if q in d && d[q] == k then Ids(wave) else Ids(blocked) {
      var f :| f in pending && f.id == q;
      assert f in if q in d && d[q] == k then wave else blocked;
    }
    SubsetIds(pending, wave);
    SubsetIds(pending, blocked);
  }

  lemma SubsetIds(s: seq<Event>, part: seq<Event>)
    requires forall f :: f in part ==> f in s
    ensures Ids(part) <= Ids(s)
  {
    forall q | q in Ids(part) ensures q in Ids(s) {
      var f :| f in part && f.id == q;
      assert f in s;
    }
  }

  // Which events are dispatched

  /** Some event of level m does not raise. */
  ghost predicate Alive(d: map<EventId, nat>, fails: set<EventId>, pending: seq<Event>, m: nat) {
    exists f :: f in pending && f.id in d && d[f.id] == m && f.id !in fails
  }

  /** e has a level within the budget, and on every level below some event does not raise. */
  ghost predicate Reached(d: map<EventId, nat>, fails: set<EventId>, pending: seq<Event>, k: nat, budget: nat,
      e: Event)
  {
    && e in pending && e.id in d && d[e.id] < k + budget
    && forall m :: k <= m < d[e.id] ==> Alive(d, fails, pending, m)
  }

  /** The places of the pending events, ascending. */
  ghost predicate Placed(at: map<EventId, nat>, pending: seq<Event>) {
    && (forall i :: 0 <= i < |pending| ==> pending[i].id in at)
    && (forall i, j :: 0 <= i < j < |pending| ==> at[pending[i].id] < at[pending[j].id])
  }

  /** By level, then by clock, then by place. */
  ghost predicate Sooner(d: map<EventId, nat>, at: map<EventId, nat>, e: Event, f: Event) {
    && e.id in d && f.id in d && e.id in at && f.id in at
    && (d[e.id] < d[f.id] || (d[e.id] == d[f.id]
        && (e.clock < f.clock || (e.clock == f.clock && at[e.id] < at[f.id]))))
  }

  ghost predicate InOrder(d: map<EventId, nat>, at: map<EventId, nat>, l: seq<Event>) {
    forall i, j :: 0 <= i < j < |l| ==> Sooner(d, at, l[i], l[j])
  }

  lemma PlacedUnique(at: map<EventId, nat>, pending: seq<Event>)
    requires Placed(at, pending)
    ensures UniqueIds(pending)
  {
  }

  lemma {:induction false} PlacedSplit(at: map<EventId, nat>, pending: seq<Event>, done: set<EventId>, n: nat)
    requires n <= |pending| && Placed(at, pending)
    ensures Placed(at, ReadyTo(pending, done, n)) && Placed(at, BlockedTo(pending, done, n))
  {
    hide ReadyTo, BlockedTo, Placed;
    if n == 0 {
      NothingSplit(pending, done);
      PlacedNone(at);
    } else {
      PlacedSplit(at, pending, done, n - 1);
      SplitStep(pending, done, n);
      var r, b, x := ReadyTo(pending, done, n - 1), BlockedTo(pending, done, n - 1), pending[n - 1];
      LastPlace(at, pending, n - 1);
      forall e | e in r || e in b ensures e in pending[..n - 1] {
        ReadyToMembers(pending, done, n - 1, e);
      }
      PlacedAppend(at, r, x);
      PlacedAppend(at, b, x);
    }
  }

  lemma LastPlace(at: map<EventId, nat>, pending: seq<Event>, n: nat)
    requires n < |pending| && Placed(at, pending)
    ensures pending[n].id in at
    ensures forall e :: e in pending[..n] ==> e.id in at && at[e.id] < at[pending[n].id]
  {
  }

  lemma PlacedNone(at: map<EventId, nat>)
    ensures Placed(at, [])
  {
  }

  lemma PlacedAppend(at: map<EventId, nat>, s: seq<Event>, x: Event)
    requires Placed(at, s) && x.id in at && forall e :: e in s ==> e.id in at && at[e.id] < at[x.id]
    ensures Placed(at, s + [x])
  {
    forall i | 0 <= i < |s| ensures at[s[i].id] < at[x.id] {
      assert s[i] in s;
    }
  }

  /** Sorted by clock, then by place. */
  ghost predicate ClockThenPlace(at: map<EventId, nat>, s: seq<Event>) {
    && (forall i :: 0 <= i < |s| ==> s[i].id in at)
    && (forall i, j :: 0 <= i < j < |s| ==>
         s[i].clock < s[j].clock || (s[i].clock == s[j].clock && at[s[i].id] < at[s[j].id]))
  }

  lemma InsertKeepsPlaces(at: map<EventId, nat>, s: seq<Event>, x: Event)
    requires ClockThenPlace(at, s) && x.id in at && forall i :: 0 <= i < |s| ==> at[s[i].id] < at[x.id]
    ensures ClockThenPlace(at, Insert(ClockLeq, s, x))
  {
    assert SortedBy(ClockLeq, s);
    PlaceSplits(ClockLeq, s, x, |s|);
  }

  /** Sorting by clock is stable: equal clocks keep their places. */
  lemma {:induction false} SortKeepsPlaces(at: map<EventId, nat>, s: seq<Event>, n: nat)
    requires Placed(at, s) && n <= |s|
    ensures ClockThenPlace(at, SortTo(ClockLeq, s, n))
  {
    hide Insert;
    if n > 0 {
      SortKeepsPlaces(at, s, n - 1);
      var r := SortTo(ClockLeq, s, n - 1);
      SortToPermutes(ClockLeq, s, n - 1);
      forall i | 0 <= i < |r| ensures at[r[i].id] < at[s[n - 1].id] {
        assert r[i] in multiset(r);
        assert r[i] in s[..n - 1];
      }
      InsertKeepsPlaces(at, r, s[n - 1]);
    }
  }

  lemma WaveInOrder(d: map<EventId, nat>, at: map<EventId, nat>, pending: seq<Event>, done: set<EventId>, k: nat)
    requires Levels(d, pending, done, k) && Placed(at, pending)
    ensures InOrder(d, at, Wave(pending, done))
  {
    WaveIsLeast(d, pending, done, k);
    PlacedSplit(at, pending, done, |pending|);
    SortKeepsPlaces(at, ReadyOf(pending, done), |ReadyOf(pending, done)|);
    var wave := Wave(pending, done);
    forall i | 0 <= i < |wave| ensures wave[i].id in d && d[wave[i].id] == k {
      assert wave[i] in wave;
    }
  }

  lemma {:induction false} SuccessesZero(fails: set<EventId>, s: seq<Event>, n: nat)
    requires n <= |s|
    ensures SuccessesTo(fails, s, n) == 0 <==> forall i :: 0 <= i < n ==> s[i].id in fails
  {
    if n > 0 {
      SuccessesZero(fails, s, n - 1);
    }
  }

  /** A cycle halts the run exactly when its level is not alive and something stays blocked. */
  lemma HaltsIffDead(d: map<EventId, nat>, fails: set<EventId>, pending: seq<Event>, done: set<EventId>, k: nat)
    requires Levels(d, pending, done, k)
    ensures Halts(fails, pending, done) <==> !Alive(d, fails, pending, k) && BlockedOf(pending, done) != []
  {
    WaveIsLeast(d, pending, done, k);
    var wave := Wave(pending, done);
    SuccessesZero(fails, wave, |wave|);
    if Alive(d, fails, pending, k) {
      var f :| f in pending && f.id in d && d[f.id] == k && f.id !in fails;
      assert f in wave;
    } else {
      forall i | 0 <= i < |wave| ensures wave[i].id in fails {
        assert wave[i] in wave;
      }
    }
  }

  lemma AliveAfterCycle(d: map<EventId, nat>, fails: set<EventId>, pending: seq<Event>, done: set<EventId>, k: nat,
      m: nat)
    requires Levels(d, pending, done, k) && m > k
    ensures Alive(d, fails, BlockedOf(pending, done), m) <==> Alive(d, fails, pending, m)
  {
    WaveIsLeast(d, pending, done, k);
  }

  lemma ReachedAfterCycle(d: map<EventId, nat>, fails: set<EventId>, pending: seq<Event>, done: set<EventId>, k: nat,
      budget: nat, e: Event)
    requires Levels(d, pending, done, k) && budget > 0 && e.id in d && d[e.id] > k
    ensures Reached(d, fails, pending, k, budget, e) <==>
      Alive(d, fails, pending, k) && Reached(d, fails, BlockedOf(pending, done), k + 1, budget - 1, e)
  {
    WaveIsLeast(d, pending, done, k);
    forall m | m > k ensures Alive(d, fails, BlockedOf(pending, done), m) <==> Alive(d, fails, pending, m) {
      AliveAfterCycle(d, fails, pending, done, k, m);
    }
  }

  lemma ConcatInOrder(d: map<EventId, nat>, at: map<EventId, nat>, a: seq<Event>, b: seq<Event>, k: nat)
    requires InOrder(d, at, a) && InOrder(d, at, b)
    requires forall e :: e in a ==> e.id in d && e.id in at && d[e.id] == k
    requires forall e :: e in b ==> e.id in d && e.id in at && d[e.id] > k
    ensures InOrder(d, at, a + b)
  {
    forall i | 0 <= i < |a| ensures a[i].id in d && a[i].id in at && d[a[i].id] == k {
      assert a[i] in a;
    }
    forall i | 0 <= i < |b| ensures b[i].id in d && b[i].id in at && d[b[i].id] > k {
      assert b[i] in b;
    }
  }

  lemma PlacedMembers(at: map<EventId, nat>, s: seq<Event>)
    requires Placed(at, s)
    ensures forall e :: e in s ==> e.id in at
  {
  }

  /** For all pending events, all raising dispatches and all budgets: exactly the reached events are
      dispatched, each once, by level, clock and place. */
  lemma {:induction false} RunInOrder(d: map<EventId, nat>, at: map<EventId, nat>, fails: set<EventId>,
      pending: seq<Event>,
      done: set<EventId>, k: nat, budget: nat)
    requires Levels(d, pending, done, k) && Placed(at, pending)
    ensures InOrder(d, at, Order(fails, pending, done, budget))
    ensures forall e :: e in Order(fails, pending, done, budget) <==> Reached(d, fails, pending, k, budget, e)
    decreases budget
  {
    hide Wave, BlockedOf, Ids, Levels, Placed, UniqueIds, InOrder, Halts, Alive, Reached;
    var wave, blocked := Wave(pending, done), BlockedOf(pending, done);
    if budget == 0 || pending == [] {
      NothingReached(d, fails, pending, done, k, budget);
      EmptyInOrder(d, at);
    } else {
      WaveIsLeast(d, pending, done, k);
      WaveInOrder(d, at, pending, done, k);
      HaltsIffDead(d, fails, pending, done, k);
      PlacedUnique(at, pending);
      PlacedMembers(at, pending);
      LevelsAfterCycle(d, pending, done, k);
      BlockedPlaced(at, pending, done);
      LeastReached(d, fails, pending, done, k, budget);
      forall e: Event | e.id in d && d[e.id] > k
        ensures Reached(d, fails, pending, k, budget, e) <==>
          Alive(d, fails, pending, k) && Reached(d, fails, blocked, k + 1, budget - 1, e)
      {
        ReachedAfterCycle(d, fails, pending, done, k, budget, e);
      }
      if Halts(fails, pending, done) {
        forall e ensures e in wave <==> Reached(d, fails, pending, k, budget, e) {
          ReachedHasLevel(d, fails, pending, done, k, budget, e);
        }
      } else {
        var rest := Order(fails, blocked, done + Ids(wave), budget - 1);
        RunInOrder(d, at, fails, blocked, done + Ids(wave), k + 1, budget - 1);
        forall e ensures e in wave + rest <==> Reached(d, fails, pending, k, budget, e) {
          ReachedHasLevel(d, fails, pending, done, k, budget, e);
          ReachedHasLevel(d, fails, blocked, done + Ids(wave), k + 1, budget - 1, e);
        }
        forall e | e in rest ensures e.id in d && e.id in at && d[e.id] > k {
          ReachedHasLevel(d, fails, blocked, done + Ids(wave), k + 1, budget - 1, e);
        }
        ConcatInOrder(d, at, wave, rest, k);
      }
    }
  }

  lemma NothingReached(d: map<EventId, nat>, fails: set<EventId>, pending: seq<Event>, done: set<EventId>, k: nat,
      budget: nat)
    requires Levels(d, pending, done, k) && (budget == 0 || pending == [])
    ensures forall e :: !Reached(d, fails, pending, k, budget, e)
  {
  }

  lemma EmptyInOrder(d: map<EventId, nat>, at: map<EventId, nat>)
    ensures InOrder(d, at, [])
  {
  }

  lemma BlockedPlaced(at: map<EventId, nat>, pending: seq<Event>, done: set<EventId>)
    requires Placed(at, pending)
    ensures Placed(at, BlockedOf(pending, done))
  {
    PlacedSplit(at, pending, done, |pending|);
  }

  lemma LeastReached(d: map<EventId, nat>, fails: set<EventId>, pending: seq<Event>, done: set<EventId>, k: nat,
      budget: nat)
    requires Levels(d, pending, done, k) && budget > 0
    ensures forall e :: e in pending && e.id in d && d[e.id] == k ==> Reached(d, fails, pending, k, budget, e)
  {
  }

  lemma ReachedHasLevel(d: map<EventId, nat>, fails: set<EventId>, pending: seq<Event>, done: set<EventId>, k: nat,
      budget: nat, e: Event)
    requires Levels(d, pending, done, k)
    ensures Reached(d, fails, pending, k, budget, e) ==> e in pending && e.id in d && d[e.id] >= k
  {
  }

  // Every set of pending events has levels

  ghost function Extended(d: map<EventId, nat>, ids: set<EventId>, k: nat): (all: map<EventId, nat>)
    ensures forall q :: q in all <==> q in d || q in ids
    ensures forall q :: q in all ==> all[q] == if q in ids then k else d[q]
  {
    d + map q | q in ids :: k
  }

  ghost function LevelMap(pending: seq<Event>, done: set<EventId>, k: nat): map<EventId, nat>
    decreases |pending|
  {
    CycleSplits(pending, done);
    var wave := Wave(pending, done);
    if wave == [] then map[]
    else Extended(LevelMap(BlockedOf(pending, done), done + Ids(wave), k + 1), Ids(wave), k)
  }

  /** d gives levels from k + 1 upwards of the events that are blocked while the wave is ready. */
  ghost predicate Above(d: map<EventId, nat>, pending: seq<Event>, wave: seq<Event>, blocked: seq<Event>,
      done: set<EventId>, k: nat)
  {
    && (forall e :: e in pending <==> e in wave || e in blocked)
    && (forall e :: e in wave ==> IsReady(e, done))
    && (forall e :: e in blocked ==> !IsReady(e, done) && e.id !in Ids(wave))
    && Levels(d, blocked, done + Ids(wave), k + 1) && d.Keys <= Ids(blocked)
  }

  lemma IdsOfSplit(pending: seq<Event>, wave: seq<Event>, blocked: seq<Event>)
    requires forall e :: e in pending <==> e in wave || e in blocked
    ensures Ids(pending) == Ids(wave) + Ids(blocked)
  {
    forall q | q in Ids(pending) ensures q in Ids(wave) + Ids(blocked) {
      var f :| f in pending && f.id == q;
    }
    forall q | q in Ids(wave) + Ids(blocked) ensures q in Ids(pending) {
      var f :| (f in wave || f in blocked) && f.id == q;
      assert f in pending;
    }
  }

  lemma ExtendedParents(d: map<EventId, nat>, pending: seq<Event>, wave: seq<Event>, blocked: seq<Event>,
      done: set<EventId>, k: nat, e: Event, q: EventId)
    requires Above(d, pending, wave, blocked, done, k) && e in blocked && e.id in d && q in e.parents && q !in done
    ensures var all := Extended(d, Ids(wave), k);
      q in Ids(pending) && q in all && all[q] < d[e.id]
  {
    IdsOfSplit(pending, wave, blocked);
    hide Ids;
    if q in Ids(wave) {
      assert d[e.id] >= k + 1;
    }
  }

  lemma ExtendedWitness(d: map<EventId, nat>, pending: seq<Event>, wave: seq<Event>, blocked: seq<Event>,
      done: set<EventId>, k: nat, e: Event) returns (q: EventId)
    requires Above(d, pending, wave, blocked, done, k) && e in blocked && e.id in d
    ensures var all := Extended(d, Ids(wave), k);
      q in e.parents && q !in done && q in all && all[q] + 1 == d[e.id]
  {
    var next := done + Ids(wave);
    ReadyIffLeast(d, blocked, next, k + 1, e);
    PendingLevel(d, blocked, next, k + 1, e.id);
    hide Ids, Levels, Above, Extended;
    if d[e.id] > k + 1 {
      q := ParentBelow(d, blocked, next, k + 1, e);
      assert q !in Ids(wave);
    } else {
      q :| q in e.parents && q !in done;
      assert q in Ids(wave);
    }
  }

  lemma ParentBelow(d: map<EventId, nat>, pending: seq<Event>, done: set<EventId>, k: nat, e: Event)
    returns (q: EventId)
    requires Levels(d, pending, done, k) && e in pending && e.id in d && d[e.id] > k
    ensures q in e.parents && q !in done && q in d && d[q] + 1 == d[e.id]
  {
    q :| q in e.parents && q !in done && q in d && d[q] + 1 == d[e.id];
  }

  lemma ExtendedMissing(d: map<EventId, nat>, pending: seq<Event>, wave: seq<Event>, blocked: seq<Event>,
      done: set<EventId>, k: nat, e: Event) returns (q: EventId)
    requires Above(d, pending, wave, blocked, done, k) && e in blocked && e.id !in d
    ensures var all := Extended(d, Ids(wave), k);
      q in e.parents && q !in done && (q !in Ids(pending) || q !in all)
  {
    IdsOfSplit(pending, wave, blocked);
    hide Ids;
    q :| q in e.parents && q !in done + Ids(wave) && (q !in Ids(blocked) || q !in d);
  }

  lemma ExtendedWave(d: map<EventId, nat>, pending: seq<Event>, wave: seq<Event>, blocked: seq<Event>,
      done: set<EventId>, k: nat, e: Event)
    requires Above(d, pending, wave, blocked, done, k) && e in wave
    ensures LevelAt(Extended(d, Ids(wave), k), pending, done, k, e)
  {
    hide Levels;
    assert e.id in Ids(wave);
    assert e.id !in Ids(blocked);
  }

  lemma ExtendedBlocked(d: map<EventId, nat>, pending: seq<Event>, wave: seq<Event>, blocked: seq<Event>,
      done: set<EventId>, k: nat, e: Event)
    requires Above(d, pending, wave, blocked, done, k) && e in blocked
    ensures LevelAt(Extended(d, Ids(wave), k), pending, done, k, e)
  {
    var all := Extended(d, Ids(wave), k);
    assert e.id !in Ids(wave);
    if e.id in d {
      PendingLevel(d, blocked, done + Ids(wave), k + 1, e.id);
      hide Levels, Ids;
      forall q | q in e.parents && q !in done ensures q in Ids(pending) && q in all && all[q] < d[e.id] {
        ExtendedParents(d, pending, wave, blocked, done, k, e, q);
      }
      var q := ExtendedWitness(d, pending, wave, blocked, done, k, e);
    } else {
      hide Levels, Ids;
      var q := ExtendedMissing(d, pending, wave, blocked, done, k, e);
    }
  }

  /** The levels of the blocked events, extended by the ready ones. */
  lemma LevelsExtend(d: map<EventId, nat>, pending: seq<Event>, wave: seq<Event>, blocked: seq<Event>,
      done: set<EventId>, k: nat)
    requires Above(d, pending, wave, blocked, done, k)
    ensures Levels(Extended(d, Ids(wave), k), pending, done, k)
  {
    var all := Extended(d, Ids(wave), k);
    forall e | e in pending ensures LevelAt(all, pending, done, k, e) {
      if e in wave {
        ExtendedWave(d, pending, wave, blocked, done, k, e);
      } else {
        ExtendedBlocked(d, pending, wave, blocked, done, k, e);
      }
    }
    hide *;
  }

  lemma SplitAbove(d: map<EventId, nat>, pending: seq<Event>, done: set<EventId>, k: nat)
    requires UniqueIds(pending) && d.Keys <= Ids(BlockedOf(pending, done))
    requires Levels(d, BlockedOf(pending, done), done + Ids(Wave(pending, done)), k + 1)
    ensures Above(d, pending, Wave(pending, done), BlockedOf(pending, done), done, k)
  {
    hide Wave, BlockedOf, Levels;
    WaveMembers(pending, done);
    forall e, f | e in BlockedOf(pending, done) && f in Wave(pending, done) ensures e.id != f.id {
      if e.id == f.id {
        UniqueIdsEqual(pending, e, f);
      }
    }
  }

  lemma {:induction false} LevelMapIs(pending: seq<Event>, done: set<EventId>, k: nat)
    requires UniqueIds(pending)
    ensures Levels(LevelMap(pending, done, k), pending, done, k)
    ensures LevelMap(pending, done, k).Keys <= Ids(pending)
    ensures forall q :: q in LevelMap(pending, done, k) ==> LevelMap(pending, done, k)[q] < k + |pending|
    decreases |pending|
  {
    hide Wave, BlockedOf, Levels, Ids;
    CycleSplits(pending, done);
    WaveMembers(pending, done);
    var wave, blocked := Wave(pending, done), BlockedOf(pending, done);
    if wave == [] {
      NoneReady(pending, done, k);
    } else {
      BlockedUnique(pending, done, |pending|);
      BlockedIs(pending, done);
      var d := LevelMap(blocked, done + Ids(wave), k + 1);
      LevelMapIs(blocked, done + Ids(wave), k + 1);
      SplitAbove(d, pending, done, k);
      LevelsExtend(d, pending, wave, blocked, done, k);
      IdsOfSplit(pending, wave, blocked);
    }
  }

  lemma NoneReady(pending: seq<Event>, done: set<EventId>, k: nat)
    requires Wave(pending, done) == []
    ensures Levels(map[], pending, done, k)
  {
    WaveMembers(pending, done);
    forall e | e in pending ensures exists q :: q in e.parents && q !in done {
      assert !IsReady(e, done);
    }
  }

  lemma LevelsExist(pending: seq<Event>, done: set<EventId>) returns (d: map<EventId, nat>)
    requires UniqueIds(pending)
    ensures Levels(d, pending, done, 0) && forall q :: q in d ==> d[q] < |pending|
  {
    d := LevelMap(pending, done, 0);
    LevelMapIs(pending, done, 0);
  }

  ghost function PlaceMap(pending: seq<Event>): map<EventId, nat> {
    if pending == [] then map[]
    else PlaceMap(pending[..|pending| - 1])[pending[|pending| - 1].id := |pending| - 1]
  }

  lemma {:induction false} PlacesExist(pending: seq<Event>)
    requires UniqueIds(pending)
    ensures Placed(PlaceMap(pending), pending)
    ensures forall i :: 0 <= i < |pending| ==>
      pending[i].id in PlaceMap(pending) && PlaceMap(pending)[pending[i].id] == i
  {
    if pending != [] {
      var n := |pending| - 1;
      PlacesExist(pending[..n]);
      forall i | 0 <= i < n ensures pending[i].id != pending[n].id && pending[..n][i] == pending[i] {
      }
    }
  }

  /** Below an event of some level lies an event of every smaller level. */
  lemma {:induction false} LevelBelow(d: map<EventId, nat>, pending: seq<Event>, done: set<EventId>, k: nat,
      e: Event, m: nat)
    requires Levels(d, pending, done, k) && e in pending && e.id in d && k <= m <= d[e.id]
    ensures exists f :: f in pending && f.id in d && d[f.id] == m
    decreases d[e.id]
  {
    if m < d[e.id] {
      var q :| q in e.parents && q !in done && q in d && d[q] + 1 == d[e.id];
      var f :| f in pending && f.id == q;
      LevelBelow(d, pending, done, k, f, m);
    }
  }

  /** When nothing raises, exactly the events with a level within the budget are reached. */
  lemma ReachedWithoutFailures(d: map<EventId, nat>, pending: seq<Event>, done: set<EventId>, k: nat, budget: nat,
      e: Event)
    requires Levels(d, pending, done, k)
    ensures Reached(d, {}, pending, k, budget, e) <==> e in pending && e.id in d && d[e.id] < k + budget
  {
    if e in pending && e.id in d {
      forall m | k <= m < d[e.id] ensures Alive(d, {}, pending, m) {
        LevelBelow(d, pending, done, k, e, m);
      }
    }
  }

  lemma DispatchedIffReached(d: map<EventId, nat>, fails: set<EventId>, pending: seq<Event>, done: set<EventId>,
      budget: nat)
    requires Levels(d, pending, done, 0) && UniqueIds(pending)
    ensures forall e :: e in Order(fails, pending, done, budget) <==> Reached(d, fails, pending, 0, budget, e)
    ensures InOrder(d, PlaceMap(pending), Order(fails, pending, done, budget))
  {
    PlacesExist(pending);
    RunInOrder(d, PlaceMap(pending), fails, pending, done, 0, budget);
  }

  lemma LevelAtMost(d: map<EventId, nat>, c: map<EventId, nat>, pending: seq<Event>, done: set<EventId>, e: Event)
    requires UniqueIds(pending) && Levels(d, pending, done, 0) && Levels(c, pending, done, 0)
    requires e in pending && e.id in d
    ensures e.id in c && c[e.id] <= d[e.id]
  {
    hide Levels, UniqueIds, Reached;
    var budget := d[e.id] + 1;
    DispatchedIffReached(d, {}, pending, done, budget);
    DispatchedIffReached(c, {}, pending, done, budget);
    ReachedWithoutFailures(d, pending, done, 0, budget, e);
    ReachedWithoutFailures(c, pending, done, 0, budget, e);
  }

  /** The levels of the pending events are unique. */
  lemma LevelsUnique(d: map<EventId, nat>, c: map<EventId, nat>, pending: seq<Event>, done: set<EventId>, e: Event)
    requires UniqueIds(pending) && Levels(d, pending, done, 0) && Levels(c, pending, done, 0) && e in pending
    ensures e.id in d <==> e.id in c
    ensures e.id in d ==> d[e.id] == c[e.id]
  {
    if e.id in d {
      LevelAtMost(d, c, pending, done, e);
    }
    if e.id in c {
      LevelAtMost(c, d, pending, done, e);
    }
  }

  // Completeness

  lemma {:induction false} ScheduledHasLevel(d: map<EventId, nat>, pending: seq<Event>, done: set<EventId>, k: nat,
      l: seq<Event>, i: nat)
    requires Levels(d, pending, done, k) && CausalOrder(l, done) && multiset(l) <= multiset(pending) && i < |l|
    ensures l[i] in pending && l[i].id in d
  {
    assert l[i] in l;
    SubmultisetMember(l, pending, l[i]);
    if l[i].id !in d {
      var q :| q in l[i].parents && q !in done && (q !in Ids(pending) || q !in d);
      assert IsReady(l[i], done + IdsTo(l, i));
      IdsToMembers(l, i);
      var j :| 0 <= j < i && l[j].id == q;
      ScheduledHasLevel(d, pending, done, k, l, j);
    }
  }

  /** Some causal schedule contains an event if and only if it has a level. */
  lemma SchedulableIffLevel(d: map<EventId, nat>, pending: seq<Event>, done: set<EventId>, e: Event)
    requires Levels(d, pending, done, 0) && UniqueIds(pending)
    ensures Schedulable(e, pending, done) <==> e in pending && e.id in d
  {
    if Schedulable(e, pending, done) {
      var l :| e in l && CausalOrder(l, done) && multiset(l) <= multiset(pending);
      var i :| 0 <= i < |l| && l[i] == e;
      ScheduledHasLevel(d, pending, done, 0, l, i);
    }
    if e in pending && e.id in d {
      var budget := d[e.id] + 1;
      DispatchedIffReached(d, {}, pending, done, budget);
      ReachedWithoutFailures(d, pending, done, 0, budget, e);
      DispatchedSchedulable({}, pending, done, budget, e);
    }
  }

  /** The run dispatches exactly the events that some causal schedule contains, if and only if every
      event with a level has it within the budget, and below it some event of each level returns. */
  lemma RunIsComplete(d: map<EventId, nat>, fails: set<EventId>, pending: seq<Event>, done: set<EventId>, budget: nat)
    requires Levels(d, pending, done, 0) && UniqueIds(pending)
    ensures (forall e :: e in Order(fails, pending, done, budget) <==> Schedulable(e, pending, done))
       <==> (forall e :: e in pending && e.id in d ==>
              d[e.id] < budget && forall m :: 0 <= m < d[e.id] ==> Alive(d, fails, pending, m))
  {
    DispatchedIffReached(d, fails, pending, done, budget);
    forall e ensures Schedulable(e, pending, done) <==> e in pending && e.id in d {
      SchedulableIffLevel(d, pending, done, e);
    }
    hide Levels, UniqueIds, Schedulable, Order, Alive;
  }

  lemma SameMembers(s: seq<Event>, t: seq<Event>)
    requires UniqueIds(s) && multiset(t) <= multiset(s)
    ensures multiset(t) == multiset(s) <==> forall e :: e in s ==> e in t
  {
    if forall e :: e in s ==> e in t {
      forall e ensures multiset(t)[e] == multiset(s)[e] {
        assert e in s <==> e in multiset(s);
        assert e in t <==> e in multiset(t);
        if e in s {
          MembersCount(s, e);
        }
      }
    }
    if multiset(t) == multiset(s) {
      forall e | e in s ensures e in t {
        assert e in multiset(t);
      }
    }
  }

  /** Everything is dispatched if and only if every event has a level within the budget, and below
      it some event of each level returns. */
  lemma AllDispatchedIff(d: map<EventId, nat>, fails: set<EventId>, pending: seq<Event>, done: set<EventId>,
      budget: nat)
    requires Levels(d, pending, done, 0) && UniqueIds(pending)
    ensures multiset(Order(fails, pending, done, budget)) == multiset(pending) <==>
      forall e :: e in pending ==> Reached(d, fails, pending, 0, budget, e)
  {
    DispatchedIffReached(d, fails, pending, done, budget);
    RunConserves(fails, pending, done, budget);
    SameMembers(pending, Order(fails, pending, done, budget));
  }

  /** All events have levels if and only if they can be put into one causal schedule. */
  lemma LinearizableIffLevels(d: map<EventId, nat>, pending: seq<Event>, done: set<EventId>)
    requires Levels(d, pending, done, 0) && UniqueIds(pending)
    ensures Linearizable(pending, done) <==> forall e :: e in pending ==> e.id in d
  {
    if Linearizable(pending, done) {
      var l :| multiset(l) == multiset(pending) && CausalOrder(l, done);
      forall e | e in pending ensures e.id in d {
        assert e in multiset(l);
        var i :| 0 <= i < |l| && l[i] == e;
        ScheduledHasLevel(d, pending, done, 0, l, i);
      }
    }
    if forall e :: e in pending ==> e.id in d {
      var c := LevelsExist(pending, done);
      forall e | e in pending ensures Reached(d, {}, pending, 0, |pending|, e) {
        LevelsUnique(d, c, pending, done, e);
        ReachedWithoutFailures(d, pending, done, 0, |pending|, e);
      }
      AllDispatchedIff(d, {}, pending, done, |pending|);
      RunIsCausal({}, pending, done, |pending|);
    }
  }

  /** Without raising dispatches, everything is dispatched if and only if the events can be put into
      one causal schedule and no level reaches the budget. */
  lemma AllDispatchedIffLinearizable(d: map<EventId, nat>, pending: seq<Event>, done: set<EventId>, budget: nat)
    requires Levels(d, pending, done, 0) && UniqueIds(pending)
    ensures multiset(Order({}, pending, done, budget)) == multiset(pending) <==>
      Linearizable(pending, done) && forall e :: e in pending && e.id in d ==> d[e.id] < budget
  {
    AllDispatchedIff(d, {}, pending, done, budget);
    LinearizableIffLevels(d, pending, done);
    forall e ensures Reached(d, {}, pending, 0, budget, e) <==> e in pending && e.id in d && d[e.id] < budget {
      ReachedWithoutFailures(d, pending, done, 0, budget, e);
    }
  }

  /** With one cycle per event, nothing is dropped exactly when the events can be linearised. */
  lemma NothingDroppedIffLinearizable(pending: seq<Event>, done: set<EventId>, budget: nat)
    requires UniqueIds(pending) && |pending| <= budget
    ensures Dropped({}, pending, done, budget) == [] <==> Linearizable(pending, done)
  {
    var d := LevelsExist(pending, done);
    AllDispatchedIffLinearizable(d, pending, done, budget);
    RunConserves({}, pending, done, budget);
    RunDrains({}, pending, done, budget);
    var dropped := Dropped({}, pending, done, budget);
    assert |multiset(dropped)| == |dropped|;
  }

  // Premature deadlocks and leftovers

  /** The run is declared deadlocked after a cycle whose ready events all raised, although a
      remaining event is ready now. */
  ghost predicate WipedOut(fails: set<EventId>, pending: seq<Event>, done: set<EventId>, budget: nat)
    decreases budget
  {
    if budget == 0 || pending == [] then false
    else
      var next := done + Ids(Wave(pending, done));
      if Halts(fails, pending, done) then exists e :: e in BlockedOf(pending, done) && IsReady(e, next)
      else WipedOut(fails, BlockedOf(pending, done), next, budget - 1)
  }

  /** All events one level below e raise, and the run gets to that level. */
  ghost predicate LosesLevel(d: map<EventId, nat>, fails: set<EventId>, pending: seq<Event>, k: nat, budget: nat,
      e: Event)
  {
    e in pending && e.id in d && k < d[e.id] <= k + budget && !Alive(d, fails, pending, d[e.id] - 1)
  }

  lemma LosesLevelAfterCycle(d: map<EventId, nat>, fails: set<EventId>, pending: seq<Event>, done: set<EventId>, k: nat,
      budget: nat, e: Event)
    requires Levels(d, pending, done, k) && budget > 0
    requires Alive(d, fails, pending, k) || BlockedOf(pending, done) == []
    ensures LosesLevel(d, fails, pending, k, budget, e) <==>
      LosesLevel(d, fails, BlockedOf(pending, done), k + 1, budget - 1, e)
  {
    WaveIsLeast(d, pending, done, k);
    hide Wave, BlockedOf, Levels;
    if e.id in d && d[e.id] > k + 1 {
      AliveAfterCycle(d, fails, pending, done, k, d[e.id] - 1);
    }
  }

  lemma NextLevelReady(d: map<EventId, nat>, pending: seq<Event>, done: set<EventId>, k: nat)
    requires Levels(d, pending, done, k) && UniqueIds(pending)
    ensures (exists e :: e in BlockedOf(pending, done) && IsReady(e, done + Ids(Wave(pending, done))))
       <==> exists e :: e in pending && e.id in d && d[e.id] == k + 1
  {
    LevelsAfterCycle(d, pending, done, k);
    WaveIsLeast(d, pending, done, k);
    forall e | e in BlockedOf(pending, done)
      ensures IsReady(e, done + Ids(Wave(pending, done))) <==> e.id in d && d[e.id] == k + 1
    {
      ReadyIffLeast(d, BlockedOf(pending, done), done + Ids(Wave(pending, done)), k + 1, e);
    }
  }

  /** A run is wiped out if and only if within the budget some event has all events one level below
      it raising. */
  lemma {:induction false} WipedOutIff(d: map<EventId, nat>, fails: set<EventId>, pending: seq<Event>,
      done: set<EventId>,
      k: nat, budget: nat)
    requires Levels(d, pending, done, k) && UniqueIds(pending)
    ensures WipedOut(fails, pending, done, budget) <==> exists e :: LosesLevel(d, fails, pending, k, budget, e)
    decreases budget
  {
    hide Wave, BlockedOf, Ids, Levels, UniqueIds, Halts, IsReady;
    if budget > 0 && pending != [] {
      var wave, blocked := Wave(pending, done), BlockedOf(pending, done);
      HaltsIffDead(d, fails, pending, done, k);
      NextLevelReady(d, pending, done, k);
      WaveIsLeast(d, pending, done, k);
      if Halts(fails, pending, done) {
        if e :| LosesLevel(d, fails, pending, k, budget, e) {
          LevelBelow(d, pending, done, k, e, k + 1);
        }
        if e :| e in pending && e.id in d && d[e.id] == k + 1 {
          assert LosesLevel(d, fails, pending, k, budget, e);
        }
      } else {
        LevelsAfterCycle(d, pending, done, k);
        BlockedUnique(pending, done, |pending|);
        BlockedIs(pending, done);
        WipedOutIff(d, fails, blocked, done + Ids(wave), k + 1, budget - 1);
        assert WipedOut(fails, pending, done, budget) == WipedOut(fails, blocked, done + Ids(wave), budget - 1);
        if e :| LosesLevel(d, fails, pending, k, budget, e) {
          LosesLevelAfterCycle(d, fails, pending, done, k, budget, e);
          assert LosesLevel(d, fails, blocked, k + 1, budget - 1, e);
        }
        var k', budget' := k + 1, budget - 1;
        if e :| LosesLevel(d, fails, blocked, k', budget', e) {
          LosesLevelAfterCycle(d, fails, pending, done, k, budget, e);
          assert LosesLevel(d, fails, pending, k, budget, e);
        }
      }
    }
  }

  lemma BlockedIs(pending: seq<Event>, done: set<EventId>)
    ensures BlockedTo(pending, done, |pending|) == BlockedOf(pending, done)
  {
  }

  /** When no dispatch raises, no run is cut short. */
  lemma {:induction false} NoFailuresNoWipeOut(pending: seq<Event>, done: set<EventId>, budget: nat)
    ensures !WipedOut({}, pending, done, budget)
    decreases budget
  {
    if budget > 0 && pending != [] {
      var wave := Wave(pending, done);
      if Halts({}, pending, done) {
        SuccessesBound({}, wave, |wave|);
        assert Ids(wave) == {};
        assert done + Ids(wave) == done;
        WaveMembers(pending, done);
      } else {
        NoFailuresNoWipeOut(BlockedOf(pending, done), done + Ids(wave), budget - 1);
      }
    }
  }

  /** The run ends at level m: all its events raise, or nothing lies above it. */
  ghost predicate EndsAt(d: map<EventId, nat>, fails: set<EventId>, pending: seq<Event>, m: nat) {
    !Alive(d, fails, pending, m) || forall e :: e in pending ==> e.id in d && d[e.id] <= m
  }

  /** Nothing is left over if and only if the run ends at some level within the budget. */
  lemma {:induction false} RunDrainsIff(d: map<EventId, nat>, fails: set<EventId>, pending: seq<Event>,
      done: set<EventId>,
      k: nat, budget: nat)
    requires Levels(d, pending, done, k) && UniqueIds(pending)
    ensures Left(fails, pending, done, budget) == [] <==>
      pending == [] || exists m :: k <= m < k + budget && EndsAt(d, fails, pending, m)
    decreases budget
  {
    hide Wave, BlockedOf, Ids, Levels, UniqueIds, Halts, EndsAt;
    if budget > 0 && pending != [] {
      HaltsIffDead(d, fails, pending, done, k);
      EndsAfterCycle(d, fails, pending, done, k);
      var wave, blocked := Wave(pending, done), BlockedOf(pending, done);
      if Halts(fails, pending, done) {
        assert EndsAt(d, fails, pending, k);
      } else {
        LevelsAfterCycle(d, pending, done, k);
        BlockedUnique(pending, done, |pending|);
        BlockedIs(pending, done);
        RunDrainsIff(d, fails, blocked, done + Ids(wave), k + 1, budget - 1);
        if blocked == [] {
          assert EndsAt(d, fails, pending, k);
        }
      }
    }
  }

  lemma EndsAfterCycle(d: map<EventId, nat>, fails: set<EventId>, pending: seq<Event>, done: set<EventId>, k: nat)
    requires Levels(d, pending, done, k)
    ensures EndsAt(d, fails, pending, k) <==> !Alive(d, fails, pending, k) || BlockedOf(pending, done) == []
    ensures forall m :: m > k ==> (EndsAt(d, fails, BlockedOf(pending, done), m) <==> EndsAt(d, fails, pending, m))
  {
    WaveIsLeast(d, pending, done, k);
    var blocked := BlockedOf(pending, done);
    hide BlockedOf, Wave;
    if blocked != [] {
      assert blocked[0] in blocked;
    }
    forall m | m > k ensures Alive(d, fails, blocked, m) <==> Alive(d, fails, pending, m) {
      AliveAfterCycle(d, fails, pending, done, k, m);
    }
  }

  /** What is dropped or left keeps its places, and it is either dropped or left. */
  lemma {:induction false} RestKeepsPlaces(at: map<EventId, nat>, fails: set<EventId>, pending: seq<Event>,
      done: set<EventId>, budget: nat)
    requires Placed(at, pending)
    ensures Placed(at, Dropped(fails, pending, done, budget)) && Placed(at, Left(fails, pending, done, budget))
    ensures Dropped(fails, pending, done, budget) == [] || Left(fails, pending, done, budget) == []
    decreases budget
  {
    hide Wave, BlockedOf, Ids, Halts, Placed;
    PlacedNone(at);
    if budget > 0 && pending != [] {
      BlockedPlaced(at, pending, done);
      if !Halts(fails, pending, done) {
        RestKeepsPlaces(at, fails, BlockedOf(pending, done), done + Ids(Wave(pending, done)), budget - 1);
      }
    }
  }

  /** Dropped or left are exactly the events that are not reached, in order of submission. */
  lemma RestIsUnreached(d: map<EventId, nat>, at: map<EventId, nat>, fails: set<EventId>, pending: seq<Event>,
      done: set<EventId>, budget: nat)
    requires Levels(d, pending, done, 0) && UniqueIds(pending) && Placed(at, pending)
    ensures var rest := Dropped(fails, pending, done, budget) + Left(fails, pending, done, budget);
      Placed(at, rest) && forall e :: e in rest <==> e in pending && !Reached(d, fails, pending, 0, budget, e)
  {
    RestKeepsPlaces(at, fails, pending, done, budget);
    RunConserves(fails, pending, done, budget);
    DispatchedIffReached(d, fails, pending, done, budget);
    var order, dropped, left := Order(fails, pending, done, budget), Dropped(fails, pending, done, budget),
      Left(fails, pending, done, budget);
    assert dropped == [] ==> dropped + left == left;
    assert left == [] ==> dropped + left == dropped;
    hide Order, Dropped, Left, Reached, Levels, Placed, InOrder;
    forall e ensures e in dropped + left <==> e in pending && e !in order {
      SplitMember(order, dropped, left, pending, e);
    }
  }

  lemma SplitMember(a: seq<Event>, b: seq<Event>, c: seq<Event>, s: seq<Event>, e: Event)
    requires UniqueIds(s) && multiset(a) + multiset(b) + multiset(c) == multiset(s)
    ensures e in b + c <==> e in s && e !in a
  {
    assert e in s <==> multiset(s)[e] > 0;
    assert e in a <==> multiset(a)[e] > 0;
    assert e in b <==> multiset(b)[e] > 0;
    assert e in c <==> multiset(c)[e] > 0;
    if e in s {
      MembersCount(s, e);
    }
  }
}
