/** What the update protocol promises, over every state, every mirror and every run. */
module ManifestRuns {
  import opened ManifestModel
  import opened Results

  // --------------------------------------------------------------- root chain

  /** One step of trust: the mirror serves the next number, signed by the old root's keys, expiring no earlier. */
  ghost predicate Succeeds(w: World, roots: map<nat, RootAnswer>, prev: Root, next: Root) {
    && next.version == prev.version + 1
    && next.version in roots && roots[next.version] == Served(next)
    && w.accepts(prev, next) && ExpiresAfter(next, prev) && next.goodKeys
  }

  ghost predicate Chain(w: World, roots: map<nat, RootAnswer>, chain: seq<Root>) {
    chain != [] && forall i :: 0 <= i < |chain| - 1 ==> Succeeds(w, roots, chain[i], chain[i + 1])
  }

  function Last(chain: seq<Root>): Root
    requires chain != []
  {
    chain[|chain| - 1]
  }

  ghost function NumberedFiles(files: map<nat, Root>, chain: seq<Root>): map<nat, Root>
    requires chain != []
    decreases |chain|
  {
    if |chain| == 1 then files else NumberedFiles(files[chain[1].version := chain[1]], chain[1..])
  }

  lemma PrependRoot(w: World, roots: map<nat, RootAnswer>, root: Root, chain: seq<Root>)
    requires Chain(w, roots, chain) && Succeeds(w, roots, root, chain[0])
    ensures Chain(w, roots, [root] + chain) && Last([root] + chain) == Last(chain)
  {
    var longer := [root] + chain;
    forall i | 0 <= i < |longer| - 1 ensures Succeeds(w, roots, longer[i], longer[i + 1]) {
      if i > 0 {
        assert longer[i] == chain[i - 1] && longer[i + 1] == chain[i];
      }
    }
  }

  lemma {:induction false} WalkIsChain(w: World, walk: RootWalk, root: Root, numbered: map<nat, Root>)
    returns (chain: seq<Root>)
    ensures Chain(w, walk.roots, chain) && chain[0] == root && Last(chain).version == root.version + |chain| - 1
    ensures var x := Walk(w, walk, root, numbered);
      x.root == Last(chain) && (x.error.None? ==>
        IsLast(walk.roots, x.root) && x.numbered == NumberedFiles(numbered, chain))
    decreases |Ahead(walk.roots, root.version)|
  {
    if !IsLast(walk.roots, root) && Objection(w, walk, root).None? && walk.roots[root.version + 1].root.goodKeys {
      var next := walk.roots[root.version + 1].root;
      AheadShrinks(walk.roots, root.version);
      var rest := WalkIsChain(w, walk, next, numbered[next.version := next]);
      PrependRoot(w, walk.roots, root, rest);
      chain := [root] + rest;
      assert chain[1..] == rest;
    } else {
      chain := [root];
    }
  }

  /**
   On success the trusted root is the last of a consecutive chain of accepted roots, ending where the mirror has no
   next one; on any error the trusted root is the old one. Nothing but root files changes.
   */
  lemma RootIsLastOfChain(w: World, l: Local, walk: RootWalk) returns (chain: seq<Root>)
    ensures var (l', err) := UpdateRoot(w, l, walk);
      && l' == l.(root := l'.root, numberedRoots := l'.numberedRoots)
      && (err.Some? ==> l'.root == l.root)
      && (err.None? ==>
            && l.root.Some? && Chain(w, walk.roots, chain) && chain[0] == l.root.value
            && l'.root == Some(Last(chain)) && IsLast(walk.roots, Last(chain))
            && l'.numberedRoots == NumberedFiles(l.numberedRoots, chain)
            && (|chain| > 1 ==> Last(chain).expires.Some? && Last(chain).expires.value >= walk.now))
  {
    chain := [];
    if l.root.Some? {
      chain := WalkIsChain(w, walk, l.root.value, l.numberedRoots);
    }
  }

  /** Where the mirror has no next root, the update changes nothing and succeeds. */
  lemma LastRootStays(w: World, l: Local, walk: RootWalk)
    requires walk.loads == Loads && l.root.Some? && IsLast(walk.roots, l.root.value)
    ensures UpdateRoot(w, l, walk) == (l, None)
  {
  }

  // ---------------------------------------------------------- decoding in place

  /** The decoded value is the served one exactly when no entry is left over. */
  lemma DecodeExact(held: Snapshot, served: Snapshot)
    ensures Decode(held, served) == served <==> held.meta.Keys <= served.meta.Keys
    ensures Decode(held, served).meta.Keys == held.meta.Keys + served.meta.Keys
  {
    if held.meta.Keys <= served.meta.Keys {
      assert held.meta + served.meta == served.meta;
    }
  }

  /** A component that was dropped from the mirror's snapshot stays in the stored one. */
  lemma LeftOverEntry()
    ensures var held := Snapshot("s1", map["/old.json" := 3, ROOT_URL := 1]);
            var served := Snapshot("s2", map[ROOT_URL := 1]);
            Decode(held, served) != served && "/old.json" in Decode(held, served).meta
  {
    assert "/old.json" in map["/old.json" := 3, ROOT_URL := 1].Keys;
    DecodeExact(Snapshot("s1", map["/old.json" := 3, ROOT_URL := 1]), Snapshot("s2", map[ROOT_URL := 1]));
  }

  /** Served snapshots serialise to the bytes they were read from, and hashing does not collide. */
  ghost predicate Canonical(w: World) {
    && (forall d, s :: w.parse(d) == Some(s) ==> w.marshal(s) == d)
    && (forall s, s' :: w.sha(w.marshal(s)) == w.sha(w.marshal(s')) ==> s == s')
  }

  /** The hash names a snapshot: some document with that hash reads as it. */
  ghost predicate Names(w: World, hash: Hash, s: Snapshot) {
    exists d :: w.sha(d) == hash && w.parse(d) == Some(s)
  }

  /** The stored snapshot serialises to bytes with the hash. */
  ghost predicate Stores(w: World, l: Local, hash: Hash) {
    l.snapshot.Some? && w.sha(w.marshal(l.snapshot.value)) == hash
  }

  /** Every entry of the stored snapshot is also in the named one. */
  ghost predicate NothingDropped(l: Local, named: Snapshot) {
    Held(l).meta.Keys <= named.meta.Keys
  }

  lemma NamedOnce(w: World, hash: Hash, a: Snapshot, b: Snapshot)
    requires Canonical(w) && Names(w, hash, a) && (Names(w, hash, b) || w.sha(w.marshal(b)) == hash)
    ensures a == b && w.sha(w.marshal(a)) == hash
  {
    var d :| w.sha(d) == hash && w.parse(d) == Some(a);
    assert w.marshal(a) == d;
    if Names(w, hash, b) {
      var d' :| w.sha(d') == hash && w.parse(d') == Some(b);
      assert w.marshal(b) == d';
    }
  }

  /** One refresh: what is stored afterwards has the hash exactly when nothing was dropped, and keeps that condition. */
  lemma RefreshIsExact(w: World, l: Local, hash: Hash, a: Attempt, named: Snapshot)
    requires Canonical(w) && Names(w, hash, named) && Refresh(w, l, hash, a).1.Ok?
    ensures var (l', r) := Refresh(w, l, hash, a);
      && l'.snapshot == Some(r.value.1)
      && (Stores(w, l', hash) <==> NothingDropped(l, named))
      && (NothingDropped(l', named) <==> NothingDropped(l, named))
      && (r.value.0 ==> r.value.1 == Decode(Held(l), named))
  {
    var (l', r) := Refresh(w, l, hash, a);
    if r.value.0 {
      var served := FetchSnapshot(w, hash, a).value;
      assert Names(w, hash, served);
      NamedOnce(w, hash, named, served);
      DecodeExact(Held(l), named);
      if Stores(w, l', hash) {
        NamedOnce(w, hash, named, l'.snapshot.value);
      }
    } else {
      NamedOnce(w, hash, named, Held(l));
    }
  }

  // -------------------------------------------------- what one round leaves alone

  lemma TrustedKeeps(w: World, s: Repo, a: Attempt)
    ensures var (s', r) := Trusted(w, s, a);
      && s'.local == s.local.(root := s'.local.root, numberedRoots := s'.local.numberedRoots)
      && (r.Ok? ==> s'.cache == Some(r.value.1)) && (r.Err? ==> s'.cache == None)
      && (s.cache.Some? ==> s' == s && r == Ok((false, s.cache.value)))
      && (r.Ok? && s.cache.None? && Outcome(a.timestampLoads, s.local.timestamp.Some?) == Loads ==>
            && s.local.timestamp.value.version <= r.value.1.version
            && (r.value.0 <==> r.value.1.hash != s.local.timestamp.value.hash))
      && (r.Ok? && s.cache.None? && Outcome(a.timestampLoads, s.local.timestamp.Some?) == Ignored ==> r.value.0)
      && (r.Ok? && s.cache.None? ==> Outcome(a.timestampLoads, s.local.timestamp.Some?) != Broken)
  {
    var c := RootIsLastOfChain(w, s.local, a.walk);
  }

  /** The round fetches a snapshot that announces a newer root, and so restarts. */
  ghost predicate Restarts(w: World, s: Repo, a: Attempt) {
    var (s1, got) := Trusted(w, s, a);
    got.Ok? &&
    var (l, refreshed) := Refresh(w, s1.local, got.value.1.hash, a);
    && refreshed.Ok? && refreshed.value.0
    && Outcome(a.rootLoads, l.root.Some?) != Broken && Entry(refreshed.value.1.meta, ROOT_URL) > RootVersion(l)
  }

  /** The state in which the next round begins. */
  ghost function Rotated(w: World, s: Repo, a: Attempt): (Repo, Option<RepoError>)
    requires Restarts(w, s, a)
  {
    var (s1, got) := Trusted(w, s, a);
    var l := Refresh(w, s1.local, got.value.1.hash, a).0;
    var (l', err) := UpdateRoot(w, l, a.rotation);
    (s1.(local := l'), err)
  }

  lemma RestartUnfolds(w: World, s: Repo, attempts: seq<Attempt>)
    requires attempts != [] && Restarts(w, s, attempts[0])
    ensures var (s', err) := Rotated(w, s, attempts[0]);
      UpdateSnapshot(w, s, attempts) ==
        if err.Some? then (s', Finished(Err(err.value))) else UpdateSnapshot(w, s', attempts[1..])
  {
  }

  /** A restart keeps the fetched timestamp, and changes nothing but the snapshot and the root files. */
  lemma RotatedKeeps(w: World, s: Repo, a: Attempt)
    requires Restarts(w, s, a)
    ensures var s' := Rotated(w, s, a).0;
      && s'.cache == Trusted(w, s, a).0.cache && s'.cache.Some? && (s.cache.Some? ==> s'.cache == s.cache)
      && s'.local.timestamp == s.local.timestamp && s'.local.index == s.local.index
      && s'.local.components == s.local.components && s'.local.snapshot.Some?
  {
    TrustedKeeps(w, s, a);
    var (s1, got) := Trusted(w, s, a);
    var c := RootIsLastOfChain(w, Refresh(w, s1.local, got.value.1.hash, a).0, a.rotation);
  }

  lemma RotatedSnapshot(w: World, s: Repo, a: Attempt, named: Snapshot)
    requires Canonical(w) && Restarts(w, s, a) && Names(w, Rotated(w, s, a).0.cache.value.hash, named)
    ensures var s' := Rotated(w, s, a).0;
      && s'.local.snapshot == Some(Decode(Held(s.local), named))
      && (Stores(w, s'.local, s'.cache.value.hash) <==> NothingDropped(s.local, named))
      && (NothingDropped(s'.local, named) <==> NothingDropped(s.local, named))
  {
    TrustedKeeps(w, s, a);
    var (s1, got) := Trusted(w, s, a);
    RefreshIsExact(w, s1.local, got.value.1.hash, a, named);
    var l := Refresh(w, s1.local, got.value.1.hash, a).0;
    var c := RootIsLastOfChain(w, l, a.rotation);
    assert Held(s1.local) == Held(s.local) && Rotated(w, s, a).0.local.snapshot == l.snapshot;
  }

  /** Index and component files are not touched, and a cached timestamp stays. */
  lemma {:induction false} UpdateKeeps(w: World, s: Repo, attempts: seq<Attempt>)
    ensures var (s', u) := UpdateSnapshot(w, s, attempts);
      && s'.local.index == s.local.index && s'.local.components == s.local.components
      && (s.cache.Some? ==> s'.cache == s.cache && s'.local.timestamp == s.local.timestamp)
      && (u.Finished? && u.r.Ok? ==> s'.cache.Some? && s'.local.snapshot == Some(u.r.value))
      && (u == Unfinished && attempts != [] ==> s'.cache.Some?)
    decreases |attempts|
  {
    if attempts != [] {
      TrustedKeeps(w, s, attempts[0]);
      if Restarts(w, s, attempts[0]) {
        RestartUnfolds(w, s, attempts);
        RotatedKeeps(w, s, attempts[0]);
        var (s', err) := Rotated(w, s, attempts[0]);
        UpdateKeeps(w, s', attempts[1..]);
      }
    }
  }

  // ------------------------------------------------------------- the snapshot

  /**
   However often the update restarts, and from any local state: what a successful update leaves stored is the snapshot
   that the accepted timestamp names exactly when the snapshot stored before has no entry that the named one lacks.
   */
  lemma {:induction false} StoredIsNamed(w: World, s: Repo, attempts: seq<Attempt>, named: Snapshot)
    requires Canonical(w)
    requires var (s', u) := UpdateSnapshot(w, s, attempts);
      u.Finished? && u.r.Ok? && s'.cache.Some? && Names(w, s'.cache.value.hash, named)
    ensures var s' := UpdateSnapshot(w, s, attempts).0;
      && (Stores(w, s'.local, s'.cache.value.hash) <==> NothingDropped(s.local, named))
      && (s'.local.snapshot == Some(named) <==> NothingDropped(s.local, named))
    decreases |attempts|
  {
    var a := attempts[0];
    var s' := UpdateSnapshot(w, s, attempts).0;
    UpdateKeeps(w, s, attempts);
    TrustedKeeps(w, s, a);
    if Restarts(w, s, a) {
      RestartUnfolds(w, s, attempts);
      var s1 := Rotated(w, s, a).0;
      RotatedKeeps(w, s, a);
      UpdateKeeps(w, s1, attempts[1..]);
      RotatedSnapshot(w, s, a, named);
      StoredIsNamed(w, s1, attempts[1..], named);
    } else {
      var (s1, got) := Trusted(w, s, a);
      RefreshIsExact(w, s1.local, got.value.1.hash, a, named);
      if Stores(w, s'.local, s'.cache.value.hash) {
        NamedOnce(w, s'.cache.value.hash, named, s'.local.snapshot.value);
      } else if s'.local.snapshot == Some(named) {
        NamedOnce(w, s'.cache.value.hash, named, named);
      }
    }
  }

  /** The recursion nests at most once when nothing was dropped and the snapshot just saved loads back. */
  lemma NestsOnce(w: World, s: Repo, attempts: seq<Attempt>, named: Snapshot)
    requires Canonical(w) && |attempts| >= 2 && attempts[1].snapshotLoads == Loads
    requires var s' := UpdateSnapshot(w, s, attempts).0; s'.cache.Some? ==> Names(w, s'.cache.value.hash, named)
    requires NothingDropped(s.local, named)
    ensures UpdateSnapshot(w, s, attempts).1.Finished?
  {
    var a := attempts[0];
    if Restarts(w, s, a) {
      RestartUnfolds(w, s, attempts);
      RotatedKeeps(w, s, a);
      var (s1, err) := Rotated(w, s, a);
      if err.None? {
        UpdateKeeps(w, s1, attempts[1..]);
        RotatedSnapshot(w, s, a, named);
        SettledRound(w, s1, attempts[1..]);
      }
    }
  }

  /** With the timestamp cached and its snapshot stored, a round does not restart. */
  lemma SettledRound(w: World, s: Repo, attempts: seq<Attempt>)
    requires attempts != [] && attempts[0].snapshotLoads == Loads && s.cache.Some? &&
      Stores(w, s.local, s.cache.value.hash)
    ensures UpdateSnapshot(w, s, attempts) == (s, Finished(Ok(s.local.snapshot.value)))
  {
  }

  // ------------------------------------------------------- a mirror that stands still

  /**
   The round meets no error: everything is served as named, and is written. The stored snapshot may load or be ignored:
   once an entry was dropped, what is stored carries signatures of another document.
   */
  ghost predicate Smooth(w: World, a: Attempt, ts: Timestamp, named: Snapshot) {
    && a.snapshotLoads != Broken && a.rootLoads != Broken && a.rotation.loads == Loads && a.snapshotWrites
    && a.document.Ok? && w.sha(a.document.value) == ts.hash && a.refused.None? &&
      w.parse(a.document.value) == Some(named)
  }

  /** The trusted root can be brought to the mirror's last one. */
  ghost predicate Reaches(w: World, l: Local, walk: RootWalk, last: Root) {
    l.root.Some? && UpdateRoot(w, l, walk).1.None? && UpdateRoot(w, l, walk).0.root == Some(last)
  }

  /** The round begins with this timestamp, cached or fetched, without a root update. */
  ghost predicate Accepts(w: World, s: Repo, a: Attempt, ts: Timestamp) {
    var (s', got) := Trusted(w, s, a);
    s' == s.(cache := Some(ts)) && got.Ok? && got.value.1 == ts
  }

  /** The version of the root that the decoded snapshot announces. */
  function Announced(l: Local, named: Snapshot): nat {
    Entry(Decode(Held(l), named).meta, ROOT_URL)
  }

  /** The stored snapshot loads and has the hash, so that nothing is fetched. */
  ghost predicate AtHand(w: World, l: Local, hash: Hash, a: Attempt) {
    a.snapshotLoads == Loads && Stores(w, l, hash)
  }

  /** A later round begins with what an earlier one saved; that has the hash exactly when nothing was dropped. */
  ghost predicate FetchesAgain(l: Local, named: Snapshot, a: Attempt) {
    a.snapshotLoads == Loads ==> !NothingDropped(l, named)
  }

  lemma SmoothRefresh(w: World, l: Local, a: Attempt, ts: Timestamp, named: Snapshot)
    requires Canonical(w) && Smooth(w, a, ts, named)
    ensures AtHand(w, l, ts.hash, a) ==> Refresh(w, l, ts.hash, a) == (l, Ok((false, Held(l))))
    ensures !AtHand(w, l, ts.hash, a) ==>
      Refresh(w, l, ts.hash, a) == (l.(snapshot := Some(Decode(Held(l), named))), Ok((true, Decode(Held(l), named))))
    ensures !NothingDropped(l, named) ==> !Stores(w, l, ts.hash)
  {
    assert Names(w, ts.hash, named);
    if Stores(w, l, ts.hash) {
      NamedOnce(w, ts.hash, named, Held(l));
    }
  }

  /** Decoding the same document again changes nothing. */
  lemma DecodeAgain(held: Snapshot, named: Snapshot)
    ensures Decode(Decode(held, named), named) == Decode(held, named)
  {
    assert held.meta + named.meta + named.meta == held.meta + named.meta;
  }

  /** The state that every later round begins in: the timestamp cached, the last root trusted, the document decoded. */
  ghost predicate Circles(w: World, s: Repo, ts: Timestamp, named: Snapshot, last: Root) {
    && s.cache == Some(ts) && s.local.root == Some(last) && s.local.snapshot.Some?
    && Decode(Held(s.local), named) == Held(s.local)
    && (Stores(w, s.local, ts.hash) <==> NothingDropped(s.local, named))
  }

  /** One such round: it ends at once, or leaves everything as it was. */
  lemma CircleRound(w: World, s: Repo, attempts: seq<Attempt>, ts: Timestamp, named: Snapshot, last: Root)
    requires Canonical(w) && Circles(w, s, ts, named, last) && attempts != [] && Smooth(w, attempts[0], ts, named)
    requires IsLast(attempts[0].rotation.roots, last)
    ensures var (s', u) := UpdateSnapshot(w, s, attempts);
      if FetchesAgain(s.local, named, attempts[0]) && Announced(s.local, named) > last.version
      then (s', u) == UpdateSnapshot(w, s, attempts[1..]) else u.Finished?
  {
    var a := attempts[0];
    SmoothRefresh(w, s.local, a, ts, named);
    if Restarts(w, s, a) {
      assert s.local.(snapshot := Some(Held(s.local))) == s.local;
      LastRootStays(w, s.local, a.rotation);
      RestartUnfolds(w, s, attempts);
    }
  }

  /** In such a state the update does not end exactly when the announced root is missing and each round fetches. */
  lemma {:induction false} CirclesExactly(w: World, s: Repo, attempts: seq<Attempt>, ts: Timestamp, named: Snapshot,
                                          last: Root)
    requires Canonical(w) && Circles(w, s, ts, named, last)
    requires forall a :: a in attempts ==> Smooth(w, a, ts, named) && IsLast(a.rotation.roots, last)
    ensures UpdateSnapshot(w, s, attempts).1 == Unfinished <==>
      attempts == [] || (Announced(s.local, named) > last.version &&
                         forall a :: a in attempts ==> FetchesAgain(s.local, named, a))
    decreases |attempts|
  {
    if attempts != [] {
      assert attempts[0] in attempts && attempts == [attempts[0]] + attempts[1..];
      CircleRound(w, s, attempts, ts, named, last);
      CirclesExactly(w, s, attempts[1..], ts, named, last);
    }
  }

  lemma RootOnlyGrows(w: World, l: Local, walk: RootWalk)
    requires l.root.Some?
    ensures RootVersion(l) <= RootVersion(UpdateRoot(w, l, walk).0)
  {
    var chain := WalkIsChain(w, walk, l.root.value, l.numberedRoots);
  }

  /** The root files alone decide what updateLocalRoot does. */
  lemma RotationIgnoresSnapshot(w: World, l: Local, snapshot: Option<Snapshot>, walk: RootWalk)
    ensures var l0 := l.(snapshot := snapshot);
      && UpdateRoot(w, l0, walk).1 == UpdateRoot(w, l, walk).1
      && UpdateRoot(w, l0, walk).0.root == UpdateRoot(w, l, walk).0.root
  {
  }

  /** A first restart leads into the circle, with the same announcement and the same dropped entries. */
  lemma FirstRestart(w: World, s: Repo, a: Attempt, ts: Timestamp, named: Snapshot, last: Root)
    requires Canonical(w) && Accepts(w, s, a, ts) && Smooth(w, a, ts, named) && Restarts(w, s, a)
    requires Reaches(w, s.local, a.rotation, last)
    ensures var (s', err) := Rotated(w, s, a);
      && err.None? && Circles(w, s', ts, named, last) && Announced(s'.local, named) == Announced(s.local, named)
      && (NothingDropped(s'.local, named) <==> NothingDropped(s.local, named))
  {
    assert Names(w, ts.hash, named);
    SmoothRefresh(w, s.local, a, ts, named);
    RotationIgnoresSnapshot(w, s.local, Refresh(w, s.local, ts.hash, a).0.snapshot, a.rotation);
    RotatedKeeps(w, s, a);
    RotatedSnapshot(w, s, a, named);
    DecodeAgain(Held(s.local), named);
  }

  /**
   Against a mirror that stands still and makes no error, whether the update restarts in every round: the announced root
   is beyond the mirror's last one, the first round finds no snapshot at hand, and each later one finds none because an
   entry was dropped or the load ignores what was saved. So after a drop the update is endless exactly when that root is
   missing, whatever the loads say; and without one, two rounds are enough when what was saved loads back.
   */
  lemma EndlessExactly(w: World, s: Repo, attempts: seq<Attempt>, ts: Timestamp, named: Snapshot, last: Root)
    requires Canonical(w) && |attempts| >= 2 && Accepts(w, s, attempts[0], ts)
    requires forall a :: a in attempts ==> Smooth(w, a, ts, named) && IsLast(a.rotation.roots, last)
    requires Reaches(w, s.local, attempts[0].rotation, last)
    ensures UpdateSnapshot(w, s, attempts).1 == Unfinished <==>
      && Announced(s.local, named) > last.version && !AtHand(w, s.local, ts.hash, attempts[0])
      && forall a :: a in attempts[1..] ==> FetchesAgain(s.local, named, a)
    ensures !NothingDropped(s.local, named) ==>
      (UpdateSnapshot(w, s, attempts).1 == Unfinished <==> Announced(s.local, named) > last.version)
    ensures NothingDropped(s.local, named) && attempts[1].snapshotLoads == Loads ==>
      UpdateSnapshot(w, s, attempts).1.Finished?
  {
    var a, rest := attempts[0], attempts[1..];
    assert a in attempts && attempts[1] in rest && forall b :: b in rest ==> b in attempts;
    SmoothRefresh(w, s.local, a, ts, named);
    RootOnlyGrows(w, s.local, a.rotation);
    if Restarts(w, s, a) {
      RestartUnfolds(w, s, attempts);
      FirstRestart(w, s, a, ts, named, last);
      CirclesExactly(w, Rotated(w, s, a).0, rest, ts, named, last);
    }
  }

  /** An update that is not finished after all rounds was not finished after fewer. */
  lemma {:induction false} FewerRounds(w: World, s: Repo, attempts: seq<Attempt>, n: nat)
    requires n <= |attempts| && UpdateSnapshot(w, s, attempts).1 == Unfinished
    ensures UpdateSnapshot(w, s, attempts[..n]).1 == Unfinished
    decreases n
  {
    if n > 0 {
      assert Restarts(w, s, attempts[0]);
      RestartUnfolds(w, s, attempts);
      RestartUnfolds(w, s, attempts[..n]);
      assert attempts[..n][1..] == attempts[1..][..n - 1];
      FewerRounds(w, Rotated(w, s, attempts[0]).0, attempts[1..], n - 1);
    }
  }

  /** With an entry dropped and a root announced that is beyond the last one, every round restarts. */
  lemma InsistsForever(w: World, s: Repo, attempts: seq<Attempt>, ts: Timestamp, named: Snapshot, last: Root)
    requires Canonical(w) && s.cache == Some(ts) && s.local.root == Some(last)
    requires !NothingDropped(s.local, named) && Announced(s.local, named) > last.version
    requires forall a :: a in attempts ==> Smooth(w, a, ts, named) && IsLast(a.rotation.roots, last)
    ensures UpdateSnapshot(w, s, attempts).1 == Unfinished
  {
    if attempts != [] {
      var twice := attempts + attempts;
      assert attempts[0] in attempts && twice[..|attempts|] == attempts;
      LastRootStays(w, s.local, attempts[0].rotation);
      EndlessExactly(w, s, twice, ts, named, last);
      FewerRounds(w, s, twice, |attempts|);
    }
  }

  /** Rounds against such a mirror: the snapshot loads at first; what the first round saves no longer verifies. */
  function StandingStill(a: Attempt, n: nat): seq<Attempt> {
    seq(n, i => a.(snapshotLoads := if i == 0 then Loads else Ignored))
  }

  /** An input that restarts forever, in every world: `/old.json` was dropped and root 2 is announced but not served. */
  lemma NeverFinishes(w: World, d: Document, named: Snapshot, a: Attempt, n: nat)
    requires Canonical(w) && w.parse(d) == Some(named) && named.meta == map[ROOT_URL := 2]
    requires a.document == Ok(d) && a.refused.None? && a.snapshotWrites && a.rotation.roots == map[]
    requires a.rootLoads == a.rotation.loads == Loads
    ensures var root := Root(1, None, true, INDEX_URL);
      var local := Local(Some(root), map[], None, Some(Snapshot("s1", map["/old.json" := 3])), None, map[]);
      UpdateSnapshot(w, Repo(Some(Timestamp(1, w.sha(d))), local), StandingStill(a, n)).1 == Unfinished
  {
    var root, ts := Root(1, None, true, INDEX_URL), Timestamp(1, w.sha(d));
    var local := Local(Some(root), map[], None, Some(Snapshot("s1", map["/old.json" := 3])), None, map[]);
    assert "/old.json" in Held(local).meta.Keys && "/old.json" !in named.meta.Keys;
    assert ROOT_URL in (Held(local).meta + named.meta) && (Held(local).meta + named.meta)[ROOT_URL] == 2;
    InsistsForever(w, Repo(Some(ts), local), StandingStill(a, n), ts, named, root);
  }

  // ---------------------------------------------------------- the stored timestamp

  /** Without a restart the stored timestamp has the accepted hash afterwards; with one it stays as it was. */
  lemma TimestampIsCurrentUnlessRestarted(w: World, s: Repo, attempts: seq<Attempt>)
    requires attempts != [] && s.cache.None?
    requires var u := UpdateSnapshot(w, s, attempts).1; u.Finished? && u.r.Ok?
    ensures var s' := UpdateSnapshot(w, s, attempts).0;
      if Restarts(w, s, attempts[0]) then s'.local.timestamp == s.local.timestamp
      else s'.cache.Some? && s'.local.timestamp.Some? && s'.local.timestamp.value.hash == s'.cache.value.hash
  {
    TrustedKeeps(w, s, attempts[0]);
    if Restarts(w, s, attempts[0]) {
      RestartUnfolds(w, s, attempts);
      RotatedKeeps(w, s, attempts[0]);
      UpdateKeeps(w, Rotated(w, s, attempts[0]).0, attempts[1..]);
    }
  }

  // ------------------------------------------------------------------- versions

  /** The mirror refuses the first request in a way that calls for a root update, and the root can be updated. */
  ghost predicate RootFirst(w: World, l: Local, a: Attempt) {
    a.served in {Err(BadSignature), Err(Expired)} && UpdateRoot(w, l, a.walk).1.None?
  }

  /** The answer to the request for the timestamp: the first one, or the one after a root update. */
  ghost function Answer(w: World, l: Local, a: Attempt): Result<Timestamp, RepoError> {
    if RootFirst(w, l, a) then a.again else a.served
  }

  /** The files once the timestamp is there. */
  ghost function Updated(w: World, l: Local, a: Attempt): Local {
    if RootFirst(w, l, a) then UpdateRoot(w, l, a.walk).0 else l
  }

  /** The snapshot of that hash is at hand, or is fetched, written, and announces no newer root. */
  ghost predicate Concludes(w: World, l: Local, hash: Hash, a: Attempt) {
    || AtHand(w, l, hash, a)
    || (&& a.snapshotLoads != Broken && FetchSnapshot(w, hash, a).Ok? && a.snapshotWrites && a.rootLoads != Broken
        && Announced(l, FetchSnapshot(w, hash, a).value) <= RootVersion(l))
  }

  /** What the mirror, the loads and the disk have to answer for the stored timestamp to go back. */
  ghost predicate RollsBack(w: World, s: Repo, a: Attempt) {
    && s.cache.None? && a.timestampLoads == Ignored && a.timestampWrites
    && Answer(w, s.local, a).Ok? && Answer(w, s.local, a).value.version < VersionIn(s.local, TimestampFile)
    && Concludes(w, Updated(w, s.local, a), Answer(w, s.local, a).value.hash, a)
  }

  /** With the stored timestamp ignored, whatever the mirror answers is accepted. */
  lemma AnswerIsTrusted(w: World, s: Repo, a: Attempt)
    requires s.cache.None? && a.timestampLoads == Ignored
    ensures var (s', r) := Trusted(w, s, a);
      && (r.Ok? <==> Answer(w, s.local, a).Ok?)
      && (r.Ok? ==> s'.local == Updated(w, s.local, a) && r.value == (true, Answer(w, s.local, a).value))
  {
  }

  /**
   The stored timestamp goes back exactly when the load ignored it, the mirror serves an older one, and the first round
   gets as far as saving it.
   */
  lemma TimestampGoesBackExactly(w: World, s: Repo, attempts: seq<Attempt>)
    ensures VersionIn(UpdateSnapshot(w, s, attempts).0.local, TimestampFile) < VersionIn(s.local, TimestampFile) <==>
      attempts != [] && RollsBack(w, s, attempts[0])
  {
    UpdateKeeps(w, s, attempts);
    if attempts != [] {
      TrustedKeeps(w, s, attempts[0]);
      if s.cache.None? && attempts[0].timestampLoads == Ignored {
        AnswerIsTrusted(w, s, attempts[0]);
      }
      if Restarts(w, s, attempts[0]) {
        RestartUnfolds(w, s, attempts);
        RotatedKeeps(w, s, attempts[0]);
        UpdateKeeps(w, Rotated(w, s, attempts[0]).0, attempts[1..]);
      }
    }
  }

  /** updateLocalIndex gets as far as comparing the served index. */
  ghost predicate AsksForIndex(l: Local, snapshot: Snapshot, x: IndexInput) {
    && Outcome(x.rootLoads, l.root.Some?) == Loads && l.root.value.indexURL in snapshot.meta && x.served.Ok? && x.writes
  }

  /** The stored index goes back exactly when the load ignored it and an older one was served. */
  lemma IndexGoesBackExactly(l: Local, snapshot: Snapshot, x: IndexInput)
    ensures var l' := UpdateIndex(l, snapshot, x).0;
      && l' == l.(index := l'.index)
      && (VersionIn(l', IndexManifest) < VersionIn(l, IndexManifest) <==>
            x.loads == Ignored && AsksForIndex(l, snapshot, x) && x.served.value.version < VersionIn(l, IndexManifest))
  {
  }

  /** Success without a new file means that the stored index has the version the snapshot names. */
  lemma IndexIsNamedOrServed(l: Local, snapshot: Snapshot, x: IndexInput)
    requires UpdateIndex(l, snapshot, x).1.None?
    ensures var l' := UpdateIndex(l, snapshot, x).0;
      l'.index.Some? && (l'.index.value.version == Entry(snapshot.meta, INDEX_URL) || x.served == Ok(l'.index.value))
  {
  }

  /** updateComponentManifest stores what was served. */
  ghost predicate StoresComponent(l: Local, id: string, withYanked: bool, x: ComponentInput) {
    && NotAsked(l, id, withYanked, x).None? && !UpToDate(l, id) && x.writes
    && !x.served.Failed? && x.served.component.version >= VersionOf(l.components, id)
  }

  /** A stored component goes back exactly when an expired manifest is stored over it, and then to zero. */
  lemma ComponentGoesBackExactly(l: Local, id: string, withYanked: bool, x: ComponentInput)
    ensures var (l', component, err) := UpdateComponent(l, id, withYanked, x);
      && l' == l.(components := l'.components)
      && (forall other :: other != id ==> VersionOf(l'.components, other) == VersionOf(l.components, other))
      && (VersionOf(l'.components, id) < VersionOf(l.components, id) <==>
            StoresComponent(l, id, withYanked, x) && x.served.Outdated? && VersionOf(l.components, id) > 0)
      && (x.served.Outdated? && StoresComponent(l, id, withYanked, x) ==>
            VersionOf(l'.components, id) == 0 && component == Some(x.served.component) && err == Some(Expired))
      && (err.None? ==> component.Some? && VersionOf(l'.components, id) == component.value.version)
  {
  }

  /** Nothing that the operation meets in this state lets the version of the file go back. */
  ghost predicate Keeps(s: Repo, op: Op, f: File) {
    match f
    case TimestampFile =>
      op.Ensuring? && s.cache.None? && op.attempts != [] ==> op.attempts[0].timestampLoads != Ignored
    case IndexManifest => op.Ensuring? ==> op.index.loads != Ignored
    case ComponentManifest(id) => op.Updating? && op.id == id ==> !op.input.served.Outdated?
  }

  lemma HandleKeepsVersion(w: World, s: Repo, op: Op, f: File)
    requires Keeps(s, op, f)
    ensures VersionIn(s.local, f) <= VersionIn(Handle(w, s, op).local, f)
  {
    match op {
      case Ensuring(attempts, x) =>
        var (s', u) := UpdateSnapshot(w, s, attempts);
        UpdateKeeps(w, s, attempts);
        if f == TimestampFile {
          TimestampGoesBackExactly(w, s, attempts);
        }
        if u.Finished? && u.r.Ok? {
          IndexGoesBackExactly(s'.local, u.r.value, x);
        }
      case Updating(id, withYanked, x) => ComponentGoesBackExactly(s.local, id, withYanked, x);
      case Purging =>
    }
  }

  /**
   Over any run against any mirror, no version goes back while the earlier record loads whenever it is read and no
   expired component comes.
   */
  lemma {:induction false} NeverGoesBack(w: World, s: Repo, ops: seq<Op>, f: File)
    requires forall i :: 0 <= i < |ops| ==> Keeps(Run(w, s, ops[..i]), ops[i], f)
    ensures VersionIn(s.local, f) <= VersionIn(Run(w, s, ops).local, f)
    decreases |ops|
  {
    if ops != [] {
      assert ops[..0] == [] && Keeps(Run(w, s, ops[..0]), ops[0], f);
      HandleKeepsVersion(w, s, ops[0], f);
      var s', rest := Handle(w, s, ops[0]), ops[1..];
      forall i | 0 <= i < |rest| ensures Keeps(Run(w, s', rest[..i]), rest[i], f) {
        assert ops[..i + 1][1..] == rest[..i] && Keeps(Run(w, s, ops[..i + 1]), ops[i + 1], f);
      }
      NeverGoesBack(w, s', rest, f);
    }
  }

  /** An input with a rollback: the stored timestamp is ignored, so an older one is accepted and stored. */
  lemma IgnoredTimestampGoesBack(w: World, a: Attempt, snapshot: Snapshot)
    requires a.served == Ok(Timestamp(1, w.sha(w.marshal(snapshot)))) && a.timestampLoads == Ignored &&
      a.timestampWrites
    requires a.snapshotLoads == Loads
    ensures var root := Root(1, None, true, INDEX_URL);
      var local := Local(Some(root), map[], Some(Timestamp(2, "")), Some(snapshot), None, map[]);
      UpdateSnapshot(w, Repo(None, local), [a]).0.local.timestamp == Some(a.served.value)
  {
  }
}
