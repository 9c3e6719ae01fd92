/** The polling watcher: a journal of created, modified and deleted paths, computed by comparing
    consecutive snapshots of a directory tree. */
module FileWatcher {

  datatype Path = Path(text: string)

  /** A dict from path to modification time; `paths` is its insertion order. */
  datatype Snapshot = Snapshot(paths: seq<Path>, mtime: map<Path, real>) {
    ghost predicate Valid() {
      && (forall p :: p in paths <==> p in mtime)
      && (forall i, j :: 0 <= i < j < |paths| ==> paths[i] != paths[j])
    }
  }

  datatype Change = Created(path: Path) | Modified(path: Path) | Deleted(path: Path)

  const TOLERANCE: real := 0.001

  function Distance(a: real, b: real): real {
    if a < b then b - a else a - b
  }

  /** What the comparison reports for the first n current paths. */
  function AppearedTo(prev: Snapshot, curr: Snapshot, n: nat): seq<Change>
    requires curr.Valid() && n <= |curr.paths|
  {
    if n == 0 then []
    else
      var p := curr.paths[n - 1];
      assert p in curr.paths;
      AppearedTo(prev, curr, n - 1)
      + if p !in prev.mtime then [Created(p)]
        else if Distance(curr.mtime[p], prev.mtime[p]) > TOLERANCE then [Modified(p)] else []
  }

  /** What it reports for the first n previous paths. */
  function VanishedTo(prev: Snapshot, curr: Snapshot, n: nat): seq<Change>
    requires n <= |prev.paths|
  {
    if n == 0 then []
    else VanishedTo(prev, curr, n - 1) + if prev.paths[n - 1] !in curr.mtime then [Deleted(prev.paths[n - 1])] else []
  }

  function Poll(prev: Snapshot, curr: Snapshot): seq<Change>
    requires curr.Valid()
  {
    AppearedTo(prev, curr, |curr.paths|) + VanishedTo(prev, curr, |prev.paths|)
  }

  ghost predicate AllValid(snaps: seq<Snapshot>) {
    snaps != [] && forall i :: 0 <= i < |snaps| ==> snaps[i].Valid()
  }

  /** The journal after n polls. */
  function Journal(snaps: seq<Snapshot>, n: nat): seq<Change>
    requires AllValid(snaps) && n < |snaps|
  {
    if n == 0 then [] else Journal(snaps, n - 1) + Poll(snaps[n - 1], snaps[n])
  }

  /** The watching loop over the snapshots it takes: the initial one and one per poll. The requested
      kinds of events are not looked at. */
  method StartWatching(snaps: seq<Snapshot>, events: seq<string>) returns (changes: seq<Change>)
    requires AllValid(snaps)
    ensures changes == Journal(snaps, |snaps| - 1)
  {
    changes := [];
    var prev := snaps[0];
    var k := 1;
    while k < |snaps|
      invariant 1 <= k <= |snaps|
      invariant prev == snaps[k - 1] && changes == Journal(snaps, k - 1)
    {
      changes := RecordPoll(changes, prev, snaps[k]);
      prev := snaps[k];
      k := k + 1;
    }
  }

  /** The body of the loop: one pass over the current paths and one over the previous ones. */
  method RecordPoll(before: seq<Change>, prev: Snapshot, curr: Snapshot) returns (changes: seq<Change>)
    requires curr.Valid()
    ensures changes == before + Poll(prev, curr)
  {
    changes := before;
    var i := 0;
    while i < |curr.paths|
      invariant 0 <= i <= |curr.paths|
      invariant changes == before + AppearedTo(prev, curr, i)
    {
      var path := curr.paths[i];
      assert path in curr.paths;
      var isNew := path !in prev.mtime;
      var isMod := !isNew && Distance(curr.mtime[path], prev.mtime[path]) > TOLERANCE;
      if isNew {
        changes := changes + [Created(path)];
      }
      if isMod {
        changes := changes + [Modified(path)];
      }
      i := i + 1;
    }
    i := 0;
    while i < |prev.paths|
      invariant 0 <= i <= |prev.paths|
      invariant changes == before + AppearedTo(prev, curr, |curr.paths|) + VanishedTo(prev, curr, i)
    {
      if prev.paths[i] !in curr.mtime {
        changes := changes + [Deleted(prev.paths[i])];
      }
      i := i + 1;
    }
  }

  // Replaying the journal

  /** A change can happen to a set of files: one creates what is missing, and modifies or deletes
      what is there. */
  predicate Possible(c: Change, files: set<Path>) {
    match c
    case Created(p) => p !in files
    case Modified(p) => p in files
    case Deleted(p) => p in files
  }

  function Apply(c: Change, files: set<Path>): set<Path> {
    match c
    case Created(p) => files + {p}
    case Modified(_) => files
    case Deleted(p) => files - {p}
  }

  function Files(start: set<Path>, changes: seq<Change>, n: nat): set<Path>
    requires n <= |changes|
  {
    if n == 0 then start else Apply(changes[n - 1], Files(start, changes, n - 1))
  }

  /** The first n changes are each possible when their turn comes. */
  ghost predicate ConsistentTo(start: set<Path>, changes: seq<Change>, n: nat)
    requires n <= |changes|
  {
    n == 0 || (ConsistentTo(start, changes, n - 1) && Possible(changes[n - 1], Files(start, changes, n - 1)))
  }

  ghost predicate Consistent(start: set<Path>, changes: seq<Change>) {
    ConsistentTo(start, changes, |changes|)
  }

  lemma {:induction false} PossibleAt(start: set<Path>, c: seq<Change>, n: nat, i: nat)
    requires i < n <= |c| && ConsistentTo(start, c, n)
    ensures Possible(c[i], Files(start, c, i))
  {
    if i < n - 1 {
      PossibleAt(start, c, n - 1, i);
    }
  }

  lemma {:induction false} FilesConcat(start: set<Path>, a: seq<Change>, b: seq<Change>, n: nat)
    requires n <= |b|
    ensures Files(start, a + b, |a| + n) == Files(Files(start, a, |a|), b, n)
  {
    if n > 0 {
      FilesConcat(start, a, b, n - 1);
    } else {
      FilesPrefix(start, a, b, |a|);
    }
  }

  lemma {:induction false} FilesPrefix(start: set<Path>, a: seq<Change>, b: seq<Change>, n: nat)
    requires n <= |a|
    ensures Files(start, a + b, n) == Files(start, a, n)
  {
    if n > 0 {
      FilesPrefix(start, a, b, n - 1);
    }
  }

  lemma {:induction false} ConsistentPrefix(start: set<Path>, a: seq<Change>, b: seq<Change>, n: nat)
    requires n <= |a| && ConsistentTo(start, a, n)
    ensures ConsistentTo(start, a + b, n)
  {
    if n > 0 {
      ConsistentPrefix(start, a, b, n - 1);
      FilesPrefix(start, a, b, n - 1);
    }
  }

  lemma {:induction false} ConsistentSuffix(start: set<Path>, a: seq<Change>, b: seq<Change>, n: nat)
    requires Consistent(start, a) && n <= |b| && ConsistentTo(Files(start, a, |a|), b, n)
    ensures ConsistentTo(start, a + b, |a| + n)
  {
    if n == 0 {
      ConsistentPrefix(start, a, b, |a|);
    } else {
      ConsistentSuffix(start, a, b, n - 1);
      FilesConcat(start, a, b, n - 1);
    }
  }

  lemma ConsistentConcat(start: set<Path>, a: seq<Change>, b: seq<Change>)
    requires Consistent(start, a) && Consistent(Files(start, a, |a|), b)
    ensures Consistent(start, a + b) && Files(start, a + b, |a + b|) == Files(Files(start, a, |a|), b, |b|)
  {
    ConsistentSuffix(start, a, b, |b|);
    FilesConcat(start, a, b, |b|);
  }

  lemma ConsistentOne(start: set<Path>, c: Change)
    requires Possible(c, start)
    ensures Consistent(start, [c]) && Files(start, [c], 1) == Apply(c, start)
  {
    assert Files(start, [c], 0) == start && ConsistentTo(start, [c], 0);
  }

  lemma ConsistentNone(start: set<Path>)
    ensures Consistent(start, []) && Files(start, [], 0) == start
  {
  }

  ghost function PathsTo(s: seq<Path>, n: nat): set<Path>
    requires n <= |s|
  {
    set i | 0 <= i < n :: s[i]
  }

  lemma PathsAll(s: Snapshot)
    requires s.Valid()
    ensures PathsTo(s.paths, |s.paths|) == s.mtime.Keys
  {
    forall p ensures p in PathsTo(s.paths, |s.paths|) <==> p in s.mtime.Keys {
      assert p in s.paths <==> p in s.mtime;
    }
  }

  lemma {:induction false} AppearedReplays(prev: Snapshot, curr: Snapshot, n: nat)
    requires curr.Valid() && n <= |curr.paths|
    ensures var a := AppearedTo(prev, curr, n);
      Consistent(prev.mtime.Keys, a) && Files(prev.mtime.Keys, a, |a|) == prev.mtime.Keys + PathsTo(curr.paths, n)
  {
    hide Consistent, Distance;
    var start := prev.mtime.Keys;
    if n == 0 {
      ConsistentNone(start);
    } else {
      AppearedReplays(prev, curr, n - 1);
      var a, p := AppearedTo(prev, curr, n - 1), curr.paths[n - 1];
      assert p in curr.paths;
      assert PathsTo(curr.paths, n) == PathsTo(curr.paths, n - 1) + {p};
      if p !in prev.mtime {
        ConsistentOne(Files(start, a, |a|), Created(p));
        ConsistentConcat(start, a, [Created(p)]);
      } else if Distance(curr.mtime[p], prev.mtime[p]) > TOLERANCE {
        ConsistentOne(Files(start, a, |a|), Modified(p));
        ConsistentConcat(start, a, [Modified(p)]);
      } else {
        assert AppearedTo(prev, curr, n) == a;
      }
    }
  }

  lemma {:induction false} VanishedReplays(prev: Snapshot, curr: Snapshot, n: nat)
    requires prev.Valid() && curr.Valid() && n <= |prev.paths|
    ensures var start, v := prev.mtime.Keys + curr.mtime.Keys, VanishedTo(prev, curr, n);
      Consistent(start, v) && Files(start, v, |v|) == start - (PathsTo(prev.paths, n) - curr.mtime.Keys)
  {
    hide Consistent;
    var start := prev.mtime.Keys + curr.mtime.Keys;
    if n == 0 {
      ConsistentNone(start);
    } else {
      VanishedReplays(prev, curr, n - 1);
      var v, p := VanishedTo(prev, curr, n - 1), prev.paths[n - 1];
      assert p in prev.paths;
      assert PathsTo(prev.paths, n) == PathsTo(prev.paths, n - 1) + {p};
      if p !in curr.mtime {
        assert p !in PathsTo(prev.paths, n - 1);
        ConsistentOne(Files(start, v, |v|), Deleted(p));
        ConsistentConcat(start, v, [Deleted(p)]);
      } else {
        assert VanishedTo(prev, curr, n) == v;
      }
    }
  }

  lemma PollReplays(prev: Snapshot, curr: Snapshot)
    requires prev.Valid() && curr.Valid()
    ensures var c := Poll(prev, curr);
      Consistent(prev.mtime.Keys, c) && Files(prev.mtime.Keys, c, |c|) == curr.mtime.Keys
  {
    AppearedReplays(prev, curr, |curr.paths|);
    VanishedReplays(prev, curr, |prev.paths|);
    PathsAll(curr);
    PathsAll(prev);
    ConsistentConcat(prev.mtime.Keys, AppearedTo(prev, curr, |curr.paths|), VanishedTo(prev, curr, |prev.paths|));
  }

  /** Every entry of the journal is possible when its turn comes, and replaying the journal on the
      first snapshot's paths gives exactly the last snapshot's paths. */
  lemma {:induction false} JournalReplays(snaps: seq<Snapshot>, n: nat)
    requires AllValid(snaps) && n < |snaps|
    ensures var c := Journal(snaps, n);
      Consistent(snaps[0].mtime.Keys, c) && Files(snaps[0].mtime.Keys, c, |c|) == snaps[n].mtime.Keys
  {
    hide Consistent, Poll;
    if n == 0 {
      ConsistentNone(snaps[0].mtime.Keys);
    } else {
      JournalReplays(snaps, n - 1);
      PollReplays(snaps[n - 1], snaps[n]);
      ConsistentConcat(snaps[0].mtime.Keys, Journal(snaps, n - 1), Poll(snaps[n - 1], snaps[n]));
    }
  }

  lemma {:induction false} Persists(start: set<Path>, c: seq<Change>, p: Path, i: nat, j: nat)
    requires i <= j <= |c|
    ensures p in Files(start, c, i) && (forall k :: i <= k < j ==> c[k] != Deleted(p)) ==> p in Files(start, c, j)
    ensures p !in Files(start, c, i) && (forall k :: i <= k < j ==> c[k] != Created(p)) ==> p !in Files(start, c, j)
    decreases j - i
  {
    if i < j {
      Persists(start, c, p, i, j - 1);
    }
  }

  /** Creations and deletions of a path alternate in the journal. */
  lemma CreatedAndDeletedAlternate(snaps: seq<Snapshot>, n: nat, p: Path, i: nat, j: nat)
    requires AllValid(snaps) && n < |snaps| && i < j < |Journal(snaps, n)|
    ensures var c := Journal(snaps, n);
      && (c[i] == Created(p) && c[j] == Created(p) ==> exists k :: i < k < j && c[k] == Deleted(p))
      && (c[i] == Deleted(p) && c[j] == Deleted(p) ==> exists k :: i < k < j && c[k] == Created(p))
  {
    JournalReplays(snaps, n);
    ConsistentAlternates(snaps[0].mtime.Keys, Journal(snaps, n), p, i, j);
  }

  lemma ConsistentAlternates(start: set<Path>, c: seq<Change>, p: Path, i: nat, j: nat)
    requires Consistent(start, c) && i < j < |c|
    ensures c[i] == Created(p) && c[j] == Created(p) ==> exists k :: i < k < j && c[k] == Deleted(p)
    ensures c[i] == Deleted(p) && c[j] == Deleted(p) ==> exists k :: i < k < j && c[k] == Created(p)
  {
    Persists(start, c, p, i + 1, j);
    PossibleAt(start, c, |c|, i);
    PossibleAt(start, c, |c|, j);
    assert Files(start, c, i + 1) == Apply(c[i], Files(start, c, i));
  }

  // Silent drift

  lemma {:induction false} AppearedIff(prev: Snapshot, curr: Snapshot, n: nat, c: Change)
    requires curr.Valid() && n <= |curr.paths|
    ensures c in AppearedTo(prev, curr, n) <==>
      c.path in curr.paths[..n] &&
      match c
      case Created(p) => p !in prev.mtime
      case Modified(p) => p in prev.mtime && p in curr.mtime && Distance(curr.mtime[p], prev.mtime[p]) > TOLERANCE
      case Deleted(_) => false
  {
    if n > 0 {
      AppearedIff(prev, curr, n - 1, c);
      assert curr.paths[..n] == curr.paths[..n - 1] + [curr.paths[n - 1]];
      assert curr.paths[n - 1] in curr.paths;
    }
  }

  lemma {:induction false} VanishedIff(prev: Snapshot, curr: Snapshot, n: nat, c: Change)
    requires n <= |prev.paths|
    ensures c in VanishedTo(prev, curr, n) <==> c.Deleted? && c.path in prev.paths[..n] && c.path !in curr.mtime
  {
    if n > 0 {
      VanishedIff(prev, curr, n - 1, c);
      assert prev.paths[..n] == prev.paths[..n - 1] + [prev.paths[n - 1]];
    }
  }

  /** What happened to a path between two snapshots. */
  predicate Happened(prev: Snapshot, curr: Snapshot, c: Change) {
    match c
    case Created(p) => p in curr.mtime && p !in prev.mtime
    case Modified(p) => p in prev.mtime && p in curr.mtime &&
      (curr.mtime[p] - prev.mtime[p] > TOLERANCE || prev.mtime[p] - curr.mtime[p] > TOLERANCE)
    case Deleted(p) => p in prev.mtime && p !in curr.mtime
  }

  /** A poll reports exactly what happened, of every kind. */
  lemma PollIff(prev: Snapshot, curr: Snapshot, c: Change)
    requires prev.Valid() && curr.Valid()
    ensures c in Poll(prev, curr) <==> Happened(prev, curr, c)
  {
    AppearedIff(prev, curr, |curr.paths|, c);
    VanishedIff(prev, curr, |prev.paths|, c);
    assert curr.paths[..|curr.paths|] == curr.paths && prev.paths[..|prev.paths|] == prev.paths;
  }

  /** p comes before q. */
  ghost predicate Before(s: seq<Path>, p: Path, q: Path) {
    exists i, j :: 0 <= i < j < |s| && s[i] == p && s[j] == q
  }

  /** Current paths come first, in their order, then the vanished ones in theirs. */
  ghost predicate Precedes(prev: Snapshot, curr: Snapshot, c: Change, d: Change) {
    if c.Deleted? then d.Deleted? && Before(prev.paths, c.path, d.path)
    else d.Deleted? || Before(curr.paths, c.path, d.path)
  }

  ghost predicate InOrder(prev: Snapshot, curr: Snapshot, changes: seq<Change>) {
    forall i, j :: 0 <= i < j < |changes| ==> Precedes(prev, curr, changes[i], changes[j])
  }

  lemma PathBefore(s: seq<Path>, n: nat, p: Path)
    requires 0 < n <= |s| && p in s[..n - 1]
    ensures Before(s, p, s[n - 1]) && p in s[..n]
  {
    var i :| 0 <= i < n - 1 && s[..n - 1][i] == p;
    assert s[i] == p && s[..n][i] == p;
  }

  lemma InOrderAppend(prev: Snapshot, curr: Snapshot, changes: seq<Change>, d: Change)
    requires InOrder(prev, curr, changes) && forall c :: c in changes ==> Precedes(prev, curr, c, d)
    ensures InOrder(prev, curr, changes + [d])
  {
    hide Precedes;
  }

  lemma {:induction false} AppearedInOrder(prev: Snapshot, curr: Snapshot, n: nat)
    requires curr.Valid() && n <= |curr.paths|
    ensures InOrder(prev, curr, AppearedTo(prev, curr, n))
    ensures forall c :: c in AppearedTo(prev, curr, n) ==> !c.Deleted? && c.path in curr.paths[..n]
  {
    hide Snapshot.Valid, Distance, InOrder, Before;
    if n == 0 {
      NothingInOrder(prev, curr);
    } else {
      AppearedInOrder(prev, curr, n - 1);
      var a, p := AppearedTo(prev, curr, n - 1), curr.paths[n - 1];
      forall c | c in a ensures Before(curr.paths, c.path, p) && c.path in curr.paths[..n] {
        PathBefore(curr.paths, n, c.path);
      }
      assert curr.paths[..n][n - 1] == p;
      InOrderAppend(prev, curr, a, Created(p));
      InOrderAppend(prev, curr, a, Modified(p));
      assert a + [] == a;
    }
  }

  lemma {:induction false} VanishedInOrder(prev: Snapshot, curr: Snapshot, n: nat)
    requires n <= |prev.paths|
    ensures InOrder(prev, curr, VanishedTo(prev, curr, n))
    ensures forall c :: c in VanishedTo(prev, curr, n) ==> c.Deleted? && c.path in prev.paths[..n]
  {
    hide InOrder, Before;
    if n == 0 {
      NothingInOrder(prev, curr);
    } else {
      VanishedInOrder(prev, curr, n - 1);
      var v, p := VanishedTo(prev, curr, n - 1), prev.paths[n - 1];
      forall c | c in v ensures Before(prev.paths, c.path, p) && c.path in prev.paths[..n] {
        PathBefore(prev.paths, n, c.path);
      }
      assert prev.paths[..n][n - 1] == p;
      InOrderAppend(prev, curr, v, Deleted(p));
      assert v + [] == v;
    }
  }

  lemma NothingInOrder(prev: Snapshot, curr: Snapshot)
    ensures InOrder(prev, curr, [])
  {
  }

  lemma InOrderConcat(prev: Snapshot, curr: Snapshot, a: seq<Change>, v: seq<Change>)
    requires InOrder(prev, curr, a) && InOrder(prev, curr, v)
    requires (forall c :: c in a ==> !c.Deleted?) && forall c :: c in v ==> c.Deleted?
    ensures InOrder(prev, curr, a + v)
  {
    forall i, j | 0 <= i < j < |a + v| ensures Precedes(prev, curr, (a + v)[i], (a + v)[j]) {
      if i < |a| <= j {
        assert a[i] in a && v[j - |a|] in v;
      }
    }
    hide Precedes;
  }

  /** A poll lists each change once: with `PollIff`, that determines it. */
  lemma PollInOrder(prev: Snapshot, curr: Snapshot)
    requires prev.Valid() && curr.Valid()
    ensures InOrder(prev, curr, Poll(prev, curr))
    ensures forall i, j :: 0 <= i < j < |Poll(prev, curr)| ==> Poll(prev, curr)[i].path != Poll(prev, curr)[j].path
  {
    AppearedInOrder(prev, curr, |curr.paths|);
    VanishedInOrder(prev, curr, |prev.paths|);
    InOrderConcat(prev, curr, AppearedTo(prev, curr, |curr.paths|), VanishedTo(prev, curr, |prev.paths|));
    var c := Poll(prev, curr);
    hide AppearedTo, VanishedTo, Snapshot.Valid, Precedes, Poll;
    forall i, j | 0 <= i < j < |c| ensures c[i].path != c[j].path {
      assert c[i] in c && c[j] in c;
      PathsDiffer(prev, curr, c[i], c[j]);
    }
  }

  lemma PathsDiffer(prev: Snapshot, curr: Snapshot, c: Change, d: Change)
    requires prev.Valid() && curr.Valid() && c in Poll(prev, curr) && d in Poll(prev, curr)
    requires Precedes(prev, curr, c, d)
    ensures c.path != d.path
  {
    PollIff(prev, curr, c);
    PollIff(prev, curr, d);
    hide Poll, Distance;
  }

  lemma SilentPoll(prev: Snapshot, curr: Snapshot, p: Path)
    requires prev.Valid() && curr.Valid() && p in prev.mtime
    requires Deleted(p) !in Poll(prev, curr) && Modified(p) !in Poll(prev, curr)
    ensures p in curr.mtime && -TOLERANCE <= curr.mtime[p] - prev.mtime[p] <= TOLERANCE
  {
    PollIff(prev, curr, Deleted(p));
    PollIff(prev, curr, Modified(p));
  }

  /** A path without deletion or modification in n polls is still there, and its modification time
      has moved by at most n tolerances. */
  lemma {:induction false} SilentDriftIsBounded(snaps: seq<Snapshot>, n: nat, p: Path)
    requires AllValid(snaps) && n < |snaps| && p in snaps[0].mtime
    requires Deleted(p) !in Journal(snaps, n) && Modified(p) !in Journal(snaps, n)
    ensures p in snaps[n].mtime
    ensures -(n as real * TOLERANCE) <= snaps[n].mtime[p] - snaps[0].mtime[p] <= n as real * TOLERANCE
  {
    if n > 0 {
      SilentDriftIsBounded(snaps, n - 1, p);
      SilentPoll(snaps[n - 1], snaps[n], p);
    }
  }

  /** The bound is reached: a file that moves by exactly the tolerance at every poll is never
      reported. */
  lemma DriftUnnoticed(p: Path)
    ensures var snaps := [Snapshot([p], map[p := 0.0]), Snapshot([p], map[p := 0.001]), Snapshot([p], map[p := 0.002])];
      AllValid(snaps) && Journal(snaps, 2) == [] && snaps[2].mtime[p] - snaps[0].mtime[p] == 2.0 * TOLERANCE
  {
    var a, b, c := Snapshot([p], map[p := 0.0]), Snapshot([p], map[p := 0.001]), Snapshot([p], map[p := 0.002]);
    var snaps := [a, b, c];
    assert a.Valid() && b.Valid() && c.Valid();
    assert AppearedTo(a, b, 0) == [] && AppearedTo(b, c, 0) == [];
    assert VanishedTo(a, b, 0) == [] && VanishedTo(b, c, 0) == [];
    assert Journal(snaps, 1) == Journal(snaps, 0) + Poll(a, b);
  }

  // The requested kinds of events

  function KindOf(c: Change): string {
    match c
    case Created(_) => "created"
    case Modified(_) => "modified"
    case Deleted(_) => "deleted"
  }

  /** `events or ["created", "modified", "deleted"]`. */
  function Requested(events: seq<string>): seq<string> {
    if events == [] then ["created", "modified", "deleted"] else events
  }

  lemma {:induction false} JournalIff(snaps: seq<Snapshot>, n: nat, c: Change)
    requires AllValid(snaps) && n < |snaps|
    ensures c in Journal(snaps, n) <==> exists i, j :: 0 <= i < n && j == i + 1 && Happened(snaps[i], snaps[j], c)
  {
    hide Happened, Poll, Snapshot.Valid;
    if n > 0 {
      JournalIff(snaps, n - 1, c);
      PollIff(snaps[n - 1], snaps[n], c);
    }
  }

  /** Every entry of the journal is of a requested kind. */
  ghost predicate RequestKept(snaps: seq<Snapshot>, events: seq<string>)
    requires AllValid(snaps)
  {
    forall c :: c in Journal(snaps, |snaps| - 1) ==> KindOf(c) in Requested(events)
  }

  /** Two snapshots between which exactly this change happens. */
  lemma WitnessOf(c: Change) returns (snaps: seq<Snapshot>)
    ensures AllValid(snaps) && |snaps| == 2 && c in Journal(snaps, 1)
  {
    var p := c.path;
    var none, early, late := Snapshot([], map[]), Snapshot([p], map[p := 0.0]), Snapshot([p], map[p := 1.0]);
    assert none.Valid() && early.Valid() && late.Valid();
    snaps := match c
      case Created(_) => [none, early]
      case Modified(_) => [early, late]
      case Deleted(_) => [early, none];
    assert Happened(snaps[0], snaps[1], c);
    JournalIff(snaps, 1, c);
  }

  /** Requested kinds only are reported, whatever happens to the files, if and only if all three
      kinds are requested: the request itself has no effect. */
  lemma RequestKeptIff(events: seq<string>)
    ensures (forall snaps | AllValid(snaps) :: RequestKept(snaps, events)) <==>
      "created" in Requested(events) && "modified" in Requested(events) && "deleted" in Requested(events)
  {
    hide Requested, AllValid;
    if forall snaps | AllValid(snaps) :: RequestKept(snaps, events) {
      var p := Path("");
      forall c | c == Created(p) || c == Modified(p) || c == Deleted(p) ensures KindOf(c) in Requested(events) {
        var snaps := WitnessOf(c);
        assert RequestKept(snaps, events);
      }
      assert KindOf(Created(p)) in Requested(events);
      assert KindOf(Modified(p)) in Requested(events);
      assert KindOf(Deleted(p)) in Requested(events);
    }
  }

  /** A creation is reported to a caller who asked for deletions. */
  lemma UnrequestedIsReported(p: Path)
    ensures var snaps := [Snapshot([], map[]), Snapshot([p], map[p := 0.0])];
      && AllValid(snaps) && Journal(snaps, 1) == [Created(p)]
      && KindOf(Created(p)) == "created" && KindOf(Created(p)) !in Requested(["deleted"])
      && KindOf(Modified(p)) == "modified" && KindOf(Deleted(p)) == "deleted"
  {
    var a, b := Snapshot([], map[]), Snapshot([p], map[p := 0.0]);
    var snaps := [a, b];
    assert a.Valid() && b.Valid();
    assert AppearedTo(a, b, 0) == [] && AppearedTo(a, b, 1) == [Created(p)];
    assert VanishedTo(a, b, 0) == [];
    assert Poll(a, b) == [Created(p)];
    assert Journal(snaps, 0) == [];
  }
}
