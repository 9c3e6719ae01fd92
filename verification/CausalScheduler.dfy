/** The causal scheduler: events wait until every declared parent has completed; the ready
    ones are dispatched cycle by cycle, each cycle in ascending logical clock. */
module CausalScheduler {
  import opened Sorting

  datatype EventId = EventId(text: string)

  /** A submitted event. `epoch` is carried along; no scheduling decision reads it. */
  datatype Event = Event(id: EventId, parents: seq<EventId>, clock: int, epoch: int)

  const MAX_CYCLES: nat := 10000

  predicate ClockLeq(a: Event, b: Event) {
    a.clock <= b.clock
  }

  predicate IsReady(e: Event, done: set<EventId>) {
    forall q :: q in e.parents ==> q in done
  }

  function Ids(s: seq<Event>): set<EventId> {
    set e | e in s :: e.id
  }

  ghost predicate UniqueIds(s: seq<Event>) {
    forall i, j :: 0 <= i < j < |s| ==> s[i].id != s[j].id
  }

  /** Of the first n pending events, those whose parents have all completed, in submission order. */
  function ReadyTo(pending: seq<Event>, done: set<EventId>, n: nat): seq<Event>
    requires n <= |pending|
  {
    if n == 0 then []
    else if IsReady(pending[n - 1], done) then ReadyTo(pending, done, n - 1) + [pending[n - 1]]
    else ReadyTo(pending, done, n - 1)
  }

  function BlockedTo(pending: seq<Event>, done: set<EventId>, n: nat): seq<Event>
    requires n <= |pending|
  {
    if n == 0 then []
    else if IsReady(pending[n - 1], done) then BlockedTo(pending, done, n - 1)
    else BlockedTo(pending, done, n - 1) + [pending[n - 1]]
  }

  function ReadyOf(pending: seq<Event>, done: set<EventId>): seq<Event> {
    ReadyTo(pending, done, |pending|)
  }

  function BlockedOf(pending: seq<Event>, done: set<EventId>): seq<Event> {
    BlockedTo(pending, done, |pending|)
  }

  /** One cycle's dispatch list: `sorted(ready)`. */
  function Wave(pending: seq<Event>, done: set<EventId>): seq<Event> {
    Sort(ClockLeq, ReadyOf(pending, done))
  }

  /** How many of the first n dispatches return normally. */
  function SuccessesTo(fails: set<EventId>, s: seq<Event>, n: nat): nat
    requires n <= |s|
  {
    if n == 0 then 0 else SuccessesTo(fails, s, n - 1) + if s[n - 1].id in fails then 0 else 1
  }

  function Successes(fails: set<EventId>, s: seq<Event>): nat {
    SuccessesTo(fails, s, |s|)
  }

  /** `n == 0 and self._pending` after a cycle: the run is declared deadlocked. */
  predicate Halts(fails: set<EventId>, pending: seq<Event>, done: set<EventId>) {
    Successes(fails, Wave(pending, done)) == 0 && BlockedOf(pending, done) != []
  }

  /** All events handed to the dispatch function by a run of at most `budget` cycles, in order. */
  function Order(fails: set<EventId>, pending: seq<Event>, done: set<EventId>, budget: nat): seq<Event>
    decreases budget
  {
    if budget == 0 || pending == [] then []
    else
      var wave := Wave(pending, done);
      if Halts(fails, pending, done) then wave
      else wave + Order(fails, BlockedOf(pending, done), done + Ids(wave), budget - 1)
  }

  /** The events the deadlock resolution drops. */
  function Dropped(fails: set<EventId>, pending: seq<Event>, done: set<EventId>, budget: nat): seq<Event>
    decreases budget
  {
    if budget == 0 || pending == [] then []
    else if Halts(fails, pending, done) then BlockedOf(pending, done)
    else Dropped(fails, BlockedOf(pending, done), done + Ids(Wave(pending, done)), budget - 1)
  }

  /** The events still pending when the cycle budget is used up. */
  function Left(fails: set<EventId>, pending: seq<Event>, done: set<EventId>, budget: nat): seq<Event>
    decreases budget
  {
    if budget == 0 || pending == [] then pending
    else if Halts(fails, pending, done) then []
    else Left(fails, BlockedOf(pending, done), done + Ids(Wave(pending, done)), budget - 1)
  }

  /** Deletion of a key from the first n nodes of the insertion-ordered pending dict. */
  function WithoutTo(s: seq<Event>, id: EventId, n: nat): seq<Event>
    requires n <= |s|
  {
    if n == 0 then []
    else if s[n - 1].id == id then WithoutTo(s, id, n - 1)
    else WithoutTo(s, id, n - 1) + [s[n - 1]]
  }

  function Without(s: seq<Event>, id: EventId): seq<Event> {
    WithoutTo(s, id, |s|)
  }

  class Scheduler {
    /** The events on which the dispatch function raises. */
    const fails: set<EventId>
    /** The pending dict in insertion order, and the ids dispatched or dropped. */
    var pending: seq<Event>
    var completed: set<EventId>
    /** The events handed to the dispatch function so far, and those dropped as deadlocked. */
    var calls: seq<Event>
    var abandoned: seq<Event>

    ghost predicate Valid()
      reads this
    {
      UniqueIds(pending)
    }

    constructor (fails: set<EventId>)
      ensures Valid() && pending == [] && completed == {} && calls == [] && abandoned == [] && this.fails == fails
    {
      this.fails := fails;
      pending, completed, calls, abandoned := [], {}, [], [];
    }

    /** A second submission under a pending id replaces the node and keeps its place. */
    method Submit(event: Event)
      requires Valid()
      modifies this`pending
      ensures Valid()
      ensures event.id !in Ids(old(pending)) ==> pending == old(pending) + [event]
      ensures forall k :: 0 <= k < |old(pending)| && old(pending)[k].id == event.id ==>
        pending == old(pending)[k := event]
    {
      var i := 0;
      while i < |pending| && pending[i].id != event.id
        invariant 0 <= i <= |pending|
        invariant forall k :: 0 <= k < i ==> pending[k].id != event.id
      {
        i := i + 1;
      }
      if i < |pending| {
        assert pending[i] in pending && pending[i].id == event.id;
        pending := pending[i := event];
      } else {
        pending := pending + [event];
      }
    }

    /** The ready list of one cycle. */
    method GetReadyEvents() returns (ready: seq<Event>)
      ensures ready == Wave(pending, completed)
    {
      ready := [];
      var i := 0;
      while i < |pending|
        invariant 0 <= i <= |pending|
        invariant ready == ReadyTo(pending, completed, i)
      {
        if IsReady(pending[i], completed) {
          ready := ready + [pending[i]];
        }
        i := i + 1;
      }
      ready := Sort(ClockLeq, ready);
    }

    method RunCycle() returns (dispatched: nat)
      requires Valid()
      modifies this
      ensures Valid()
      ensures pending == BlockedOf(old(pending), old(completed))
      ensures completed == old(completed) + Ids(Wave(old(pending), old(completed)))
      ensures calls == old(calls) + Wave(old(pending), old(completed)) && abandoned == old(abandoned)
      ensures dispatched == Successes(fails, Wave(old(pending), old(completed)))
    {
      hide Wave, BlockedOf, Without, Successes, Ids, UniqueIds;
      var ready := GetReadyEvents();
      dispatched := 0;
      var i := 0;
      while i < |ready|
        invariant 0 <= i <= |ready|
        invariant pending == RemovedTo(old(pending), ready, i)
        invariant completed == old(completed) + IdsTo(ready, i)
        invariant calls == old(calls) + ready[..i] && abandoned == old(abandoned)
        invariant dispatched == SuccessesTo(fails, ready, i)
      {
        var node := ready[i];
        calls := calls + [node];
        if node.id !in fails {
          dispatched := dispatched + 1;
        }
        completed := completed + {node.id};
        pending := Without(pending, node.id);
        i := i + 1;
      }
      IdsToAll(ready);
      AllSuccesses(fails, ready);
      CycleLeavesBlocked(old(pending), old(completed), ready);
    }

    method RunUntilEmpty(maxCycles: nat) returns (total: nat)
      requires Valid()
      modifies this
      ensures Valid()
      ensures calls == old(calls) + Order(fails, old(pending), old(completed), maxCycles)
      ensures abandoned == old(abandoned) + Dropped(fails, old(pending), old(completed), maxCycles)
      ensures pending == Left(fails, old(pending), old(completed), maxCycles)
      ensures completed == old(completed) + Ids(Order(fails, old(pending), old(completed), maxCycles))
                         + Ids(Dropped(fails, old(pending), old(completed), maxCycles))
      ensures total == Successes(fails, Order(fails, old(pending), old(completed), maxCycles))
    {
      hide Wave, BlockedOf, Ids, UniqueIds, Successes;
      NoSuccesses(fails);
      NoIds();
      total := 0;
      var cycle := 0;
      ghost var log: seq<Event> := [];
      while cycle < maxCycles && pending != []
        invariant 0 <= cycle <= maxCycles
        invariant Valid() && total == Successes(fails, log)
        invariant calls == old(calls) + log && abandoned == old(abandoned)
        invariant completed == old(completed) + Ids(log)
        invariant Order(fails, old(pending), old(completed), maxCycles)
               == log + Order(fails, pending, completed, maxCycles - cycle)
        invariant Dropped(fails, old(pending), old(completed), maxCycles)
               == Dropped(fails, pending, completed, maxCycles - cycle)
        invariant Left(fails, old(pending), old(completed), maxCycles)
               == Left(fails, pending, completed, maxCycles - cycle)
      {
        ghost var wave := Wave(pending, completed);
        SuccessesAdd(fails, log, wave);
        IdsConcat(log, wave);
        var n := RunCycle();
        total := total + n;
        log := log + wave;
        if n == 0 && pending != [] {
          AbandonPending();
          return;
        }
        cycle := cycle + 1;
      }
      assert log + [] == log;
    }

    /** The forced completion of stuck events. */
    method AbandonPending()
      modifies this
      ensures Valid() && pending == [] && completed == old(completed) + Ids(old(pending))
      ensures abandoned == old(abandoned) + old(pending) && calls == old(calls)
    {
      ghost var all := pending;
      ghost var k := 0;
      while pending != []
        invariant 0 <= k <= |all| && pending == all[k..]
        invariant completed == old(completed) + IdsTo(all, k)
        invariant abandoned == old(abandoned) + all[..k] && calls == old(calls)
        decreases |pending|
      {
        completed := completed + {pending[0].id};
        abandoned := abandoned + [pending[0]];
        pending := pending[1..];
        k := k + 1;
      }
      IdsToAll(all);
    }
  }

  ghost function IdsTo(s: seq<Event>, n: nat): set<EventId>
    requires n <= |s|
  {
    if n == 0 then {} else IdsTo(s, n - 1) + {s[n - 1].id}
  }

  lemma {:induction false} IdsToMembers(s: seq<Event>, n: nat)
    requires n <= |s|
    ensures forall i :: i in IdsTo(s, n) <==> exists k :: 0 <= k < n && s[k].id == i
  {
    if n > 0 {
      IdsToMembers(s, n - 1);
    }
  }

  lemma IdsToAll(s: seq<Event>)
    ensures IdsTo(s, |s|) == Ids(s)
  {
    IdsToMembers(s, |s|);
    forall k | 0 <= k < |s| ensures s[k].id in Ids(s) {
      assert s[k] in s;
    }
  }

  lemma {:induction false} ReadyToMembers(pending: seq<Event>, done: set<EventId>, n: nat, e: Event)
    requires n <= |pending|
    ensures e in ReadyTo(pending, done, n) <==> e in pending[..n] && IsReady(e, done)
    ensures e in BlockedTo(pending, done, n) <==> e in pending[..n] && !IsReady(e, done)
  {
    if n > 0 {
      ReadyToMembers(pending, done, n - 1, e);
      assert pending[..n] == pending[..n - 1] + [pending[n - 1]];
    }
  }

  lemma WaveMembers(pending: seq<Event>, done: set<EventId>)
    ensures forall e :: e in Wave(pending, done) <==> e in pending && IsReady(e, done)
    ensures forall e :: e in BlockedOf(pending, done) <==> e in pending && !IsReady(e, done)
  {
    var ready := ReadyOf(pending, done);
    SortPermutes(ClockLeq, ready);
    assert pending[..|pending|] == pending;
    forall e
      ensures e in Wave(pending, done) <==> e in pending && IsReady(e, done)
      ensures e in BlockedOf(pending, done) <==> e in pending && !IsReady(e, done)
    {
      ReadyToMembers(pending, done, |pending|, e);
      assert e in Wave(pending, done) <==> e in multiset(Wave(pending, done));
      assert e in ready <==> e in multiset(ready);
    }
  }

  lemma UniqueIdsEqual(s: seq<Event>, e: Event, f: Event)
    requires UniqueIds(s) && e in s && f in s && e.id == f.id
    ensures e == f
  {
    var i :| 0 <= i < |s| && s[i] == e;
    var j :| 0 <= j < |s| && s[j] == f;
    assert i == j;
  }

  /** The pending list after deleting the ids of the first n listed nodes one by one. */
  ghost function RemovedTo(pending: seq<Event>, nodes: seq<Event>, n: nat): seq<Event>
    requires n <= |nodes|
  {
    if n == 0 then pending else Without(RemovedTo(pending, nodes, n - 1), nodes[n - 1].id)
  }

  lemma {:induction false} WithoutPrefix(s: seq<Event>, t: seq<Event>, id: EventId, n: nat)
    requires n <= |s| && s <= t
    ensures WithoutTo(t, id, n) == WithoutTo(s, id, n)
  {
    if n > 0 {
      WithoutPrefix(s, t, id, n - 1);
    }
  }

  lemma {:induction false} RemovedLast(init: seq<Event>, last: Event, nodes: seq<Event>, n: nat)
    requires n <= |nodes|
    ensures RemovedTo(init + [last], nodes, n)
         == RemovedTo(init, nodes, n) + if last.id in IdsTo(nodes, n) then [] else [last]
  {
    if n > 0 {
      RemovedLast(init, last, nodes, n - 1);
      var r, id := RemovedTo(init, nodes, n - 1), nodes[n - 1].id;
      if last.id in IdsTo(nodes, n - 1) {
        assert RemovedTo(init + [last], nodes, n - 1) == r;
      } else {
        WithoutPrefix(r, r + [last], id, |r|);
      }
    }
  }

  lemma {:induction false} RemovedNothing(nodes: seq<Event>, n: nat)
    requires n <= |nodes|
    ensures RemovedTo([], nodes, n) == []
  {
    if n > 0 {
      RemovedNothing(nodes, n - 1);
    }
  }

  /** Deleting the whole wave leaves exactly the blocked events. */
  lemma {:induction false} RemovedBlocked(pending: seq<Event>, done: set<EventId>, wave: seq<Event>, n: nat)
    requires n <= |pending| && UniqueIds(pending)
    requires forall e :: e in wave <==> e in pending && IsReady(e, done)
    ensures RemovedTo(pending[..n], wave, |wave|) == BlockedTo(pending, done, n)
  {
    if n == 0 {
      RemovedNothing(wave, |wave|);
    } else {
      var last := pending[n - 1];
      RemovedBlocked(pending, done, wave, n - 1);
      assert pending[..n] == pending[..n - 1] + [last];
      RemovedLast(pending[..n - 1], last, wave, |wave|);
      IdsToMembers(wave, |wave|);
      assert last in pending;
      if last.id in IdsTo(wave, |wave|) {
        var k :| 0 <= k < |wave| && wave[k].id == last.id;
        assert wave[k] in wave;
        UniqueIdsEqual(pending, wave[k], last);
      } else {
        assert last !in wave;
      }
    }
  }

  lemma {:induction false} BlockedUnique(pending: seq<Event>, done: set<EventId>, n: nat)
    requires n <= |pending| && UniqueIds(pending)
    ensures UniqueIds(BlockedTo(pending, done, n))
  {
    if n > 0 {
      BlockedUnique(pending, done, n - 1);
      var b := BlockedTo(pending, done, n - 1);
      forall k | 0 <= k < |b| ensures b[k].id != pending[n - 1].id {
        ReadyToMembers(pending, done, n - 1, b[k]);
        var j :| 0 <= j < n - 1 && pending[..n - 1][j] == b[k];
      }
    }
  }

  lemma CycleLeavesBlocked(pending: seq<Event>, done: set<EventId>, wave: seq<Event>)
    requires UniqueIds(pending) && wave == Wave(pending, done)
    ensures RemovedTo(pending, wave, |wave|) == BlockedOf(pending, done)
    ensures UniqueIds(BlockedOf(pending, done))
  {
    WaveMembers(pending, done);
    RemovedBlocked(pending, done, wave, |pending|);
    assert pending[..|pending|] == pending;
    BlockedUnique(pending, done, |pending|);
  }

  lemma NoIds()
    ensures Ids([]) == {}
  {
  }

  lemma IdsConcat(a: seq<Event>, b: seq<Event>)
    ensures Ids(a + b) == Ids(a) + Ids(b)
  {
    assert forall e :: e in a + b <==> e in a || e in b;
  }

  /** The number of those that do not raise. */
  lemma {:induction false} SuccessesCount(fails: set<EventId>, s: seq<Event>, n: nat)
    requires n <= |s|
    ensures SuccessesTo(fails, s, n) == |set i | 0 <= i < n && s[i].id !in fails|
  {
    if n > 0 {
      SuccessesCount(fails, s, n - 1);
      var before := set i | 0 <= i < n - 1 && s[i].id !in fails;
      var all := set i | 0 <= i < n && s[i].id !in fails;
      assert all == if s[n - 1].id in fails then before else before + {n - 1};
    }
  }

  lemma AllSuccesses(fails: set<EventId>, s: seq<Event>)
    ensures SuccessesTo(fails, s, |s|) == Successes(fails, s)
  {
  }

  lemma NoSuccesses(fails: set<EventId>)
    ensures Successes(fails, []) == 0
  {
  }

  lemma SuccessesAdd(fails: set<EventId>, a: seq<Event>, b: seq<Event>)
    ensures Successes(fails, a + b) == Successes(fails, a) + Successes(fails, b)
  {
    SuccessesConcat(fails, a, b, |b|);
  }

  lemma {:induction false} SuccessesConcat(fails: set<EventId>, a: seq<Event>, b: seq<Event>, n: nat)
    requires n <= |b|
    ensures SuccessesTo(fails, a + b, |a| + n) == SuccessesTo(fails, a, |a|) + SuccessesTo(fails, b, n)
  {
    if n > 0 {
      SuccessesConcat(fails, a, b, n - 1);
    } else {
      SuccessesPrefix(fails, a, b, |a|);
    }
  }

  lemma {:induction false} SuccessesPrefix(fails: set<EventId>, a: seq<Event>, b: seq<Event>, n: nat)
    requires n <= |a|
    ensures SuccessesTo(fails, a + b, n) == SuccessesTo(fails, a, n)
  {
    if n > 0 {
      SuccessesPrefix(fails, a, b, n - 1);
    }
  }
}
