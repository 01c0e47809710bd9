/**
 The manifest update protocol of V1Repository, statement by statement. What the mirror, the loads and the disk answer
 comes in as a parameter of each operation; ManifestModel says what the operation then does.
 */
module Manifests {
  import opened ManifestModel
  import opened Results

  class Repository {
    const world: World
    var timestamp: Option<Timestamp>
    var local: Local

    function View(): Repo
      reads this
    {
      Repo(timestamp, local)
    }

    constructor (world: World, local: Local)
      ensures this.world == world && View() == Repo(None, local)
    {
      this.world, this.local, timestamp := world, local, None;
    }

    /** updateLocalRoot. */
    method UpdateLocalRoot(walk: RootWalk) returns (err: Option<RepoError>)
      modifies this`local
      ensures (local, err) == UpdateRoot(world, old(local), walk)
    {
      var loading := Outcome(walk.loads, local.root.Some?);
      if loading != Loads {
        return Some(if loading == Broken then Other else NoRoot);
      }
      var oldRoot := local.root.value;
      var startVersion := oldRoot.version;
      while true
        invariant local == old(local).(numberedRoots := local.numberedRoots)
        invariant Walk(world, walk, oldRoot, local.numberedRoots) ==
                  Walk(world, walk, old(local).root.value, old(local).numberedRoots)
        decreases |Ahead(walk.roots, oldRoot.version)|
      {
        var next := oldRoot.version + 1;
        if next !in walk.roots || walk.roots[next] == Refused(NotFound) {
          break;
        }
        if walk.roots[next].Refused? {
          return Some(walk.roots[next].error);
        }
        var newRoot := walk.roots[next].root;
        if !world.accepts(oldRoot, newRoot) {
          return Some(BadSignature);
        }
        if newRoot.version != next {
          return Some(WrongVersion);
        }
        if !ExpiresAfter(newRoot, oldRoot) {
          return Some(Other);
        }
        if next in walk.unwritable {
          return Some(WriteFailed);
        }
        local := local.(numberedRoots := local.numberedRoots[next := newRoot]);
        if !newRoot.goodKeys {
          return Some(BadKeys);
        }
        AheadShrinks(walk.roots, oldRoot.version);
        oldRoot := newRoot;
      }
      if startVersion == oldRoot.version {
        return None;
      }
      if oldRoot.expires.None? || oldRoot.expires.value < walk.now {
        return Some(Expired);
      }
      if !walk.writes {
        return Some(WriteFailed);
      }
      local := local.(root := Some(oldRoot));
      return None;
    }

    /** fetchTimestamp. */
    method FetchTimestamp(served: Result<Timestamp, RepoError>, verdict: Loading)
      returns (r: Result<(bool, Timestamp), RepoError>)
      modifies this`timestamp
      ensures (timestamp, r) == Fetch(old(View()), served, verdict)
    {
      if timestamp.Some? {
        return Ok((false, timestamp.value));
      }
      if served.Err? {
        return Err(served.error);
      }
      var ts := served.value;
      var loading := Outcome(verdict, local.timestamp.Some?);
      if loading == Broken {
        return Err(Other);
      }
      var changed := false;
      if loading == Ignored {
        changed := true;
      } else if ts.version < local.timestamp.value.version {
        return Err(OldVersion);
      } else if ts.hash != local.timestamp.value.hash {
        changed := true;
      }
      timestamp := Some(ts);
      return Ok((changed, ts));
    }

    /** The first part of updateLocalSnapshot: the timestamp, with a root update in between if need be. */
    method TrustedTimestamp(a: Attempt) returns (r: Result<(bool, Timestamp), RepoError>)
      modifies this
      ensures (View(), r) == Trusted(world, old(View()), a)
    {
      r := FetchTimestamp(a.served, a.timestampLoads);
      if r.Err? && (r.error == BadSignature || r.error == Expired) {
        var err := UpdateLocalRoot(a.walk);
        if err.Some? {
          return Err(err.value);
        }
        r := FetchTimestamp(a.again, a.timestampLoads);
      }
    }

    /**
     The middle part: unless the stored snapshot is the named one, fetch it into the value just loaded and save it.
     */
    method RefreshSnapshot(hash: Hash, a: Attempt) returns (r: Result<(bool, Snapshot), RepoError>)
      modifies this`local
      ensures (local, r) == Refresh(world, old(local), hash, a)
    {
      var loading := Outcome(a.snapshotLoads, local.snapshot.Some?);
      if loading == Broken {
        return Err(Other);
      }
      var snapshot := Held(local);
      if loading == Loads && world.sha(world.marshal(snapshot)) == hash {
        return Ok((false, snapshot));
      }
      var fetched := ManifestModel.FetchSnapshot(world, hash, a);
      if fetched.Err? {
        return Err(fetched.error);
      }
      snapshot := Decode(snapshot, fetched.value);
      if !a.snapshotWrites {
        return Err(WriteFailed);
      }
      local := local.(snapshot := Some(snapshot));
      return Ok((true, snapshot));
    }

    /** updateLocalSnapshot. */
    method UpdateLocalSnapshot(attempts: seq<Attempt>) returns (u: Update)
      modifies this
      ensures (View(), u) == UpdateSnapshot(world, old(View()), attempts)
      decreases |attempts|
    {
      if attempts == [] {
        return Unfinished;
      }
      var a := attempts[0];
      var got := TrustedTimestamp(a);
      if got.Err? {
        return Finished(Err(got.error));
      }
      var (timestampChanged, ts) := got.value;
      var refreshed := RefreshSnapshot(ts.hash, a);
      if refreshed.Err? {
        return Finished(Err(refreshed.error));
      }
      var (snapshotChanged, snapshot) := refreshed.value;
      if snapshotChanged {
        if Outcome(a.rootLoads, local.root.Some?) == Broken {
          return Finished(Err(Other));
        }
        if Entry(snapshot.meta, ROOT_URL) > RootVersion(local) {
          var err := UpdateLocalRoot(a.rotation);
          if err.Some? {
            return Finished(Err(err.value));
          }
          u := UpdateLocalSnapshot(attempts[1..]);
          return;
        }
      }
      if timestampChanged {
        if !a.timestampWrites {
          return Finished(Err(WriteFailed));
        }
        local := local.(timestamp := Some(ts));
      }
      return Finished(Ok(snapshot));
    }

    /** updateLocalIndex. */
    method UpdateLocalIndex(snapshot: Snapshot, x: IndexInput) returns (err: Option<RepoError>)
      modifies this`local
      ensures (local, err) == UpdateIndex(old(local), snapshot, x)
    {
      var loading := Outcome(x.loads, local.index.Some?);
      if loading == Broken {
        return Some(Other);
      }
      var known := loading == Loads;
      if known && local.index.value.version == Entry(snapshot.meta, INDEX_URL) {
        return None;
      }
      var rootLoading := Outcome(x.rootLoads, local.root.Some?);
      if rootLoading != Loads {
        return Some(if rootLoading == Broken then Other else NoRoot);
      }
      if local.root.value.indexURL !in snapshot.meta {
        return Some(NoEntry);
      }
      if x.served.Err? {
        return Some(x.served.error);
      }
      var index := x.served.value;
      if known && index.version < local.index.value.version {
        return Some(OldVersion);
      }
      if !x.writes {
        return Some(WriteFailed);
      }
      local := local.(index := Some(index));
      return if index.goodKeys then None else Some(BadKeys);
    }

    /** updateComponentManifest. */
    method UpdateComponentManifest(id: string, withYanked: bool, x: ComponentInput)
      returns (component: Option<Component>, err: Option<RepoError>)
      modifies this`local
      ensures (local, component, err) == UpdateComponent(old(local), id, withYanked, x)
    {
      if Outcome(x.indexLoads, local.index.Some?) == Broken {
        return None, Some(Other);
      }
      var items := Items(local);
      if id !in items || (items[id].yanked && !withYanked) {
        return None, Some(UnknownComponent);
      }
      if Outcome(x.snapshotLoads, local.snapshot.Some?) == Broken {
        return None, Some(Other);
      }
      var meta := Held(local).meta;
      if items[id].url !in meta {
        return None, Some(NoEntry);
      }
      var oldVersion := VersionOf(local.components, id);
      if oldVersion != 0 && oldVersion == meta[items[id].url] {
        if x.loads == Loads {
          return Some(local.components[id].component), None;
        }
        return None, Some(Other);
      }
      if x.served.Failed? {
        return None, Some(x.served.error);
      }
      if oldVersion != 0 && x.served.component.version < oldVersion {
        return None, Some(OldVersion);
      }
      if !x.writes {
        return None, Some(WriteFailed);
      }
      var file := if x.served.Fetched? then Manifest(x.served.component) else Null;
      local := local.(components := local.components[id := file]);
      return Some(x.served.component), if x.served.Fetched? then None else Some(Expired);
    }

    /** ensureManifests. */
    method EnsureManifests(attempts: seq<Attempt>, x: IndexInput) returns (u: Update, err: Option<RepoError>)
      modifies this
      ensures (View(), u, err) == Ensure(world, old(View()), attempts, x)
    {
      u := UpdateLocalSnapshot(attempts);
      err := IndexAfter(u, x);
    }

    method IndexAfter(u: Update, x: IndexInput) returns (err: Option<RepoError>)
      modifies this`local
      ensures (View(), u, err) == ThenIndex((old(View()), u), x)
    {
      if u == Unfinished || u.r.Err? {
        return None;
      }
      err := UpdateLocalIndex(u.r.value, x);
    }

    /** PurgeTimestamp. */
    method PurgeTimestamp()
      modifies this`timestamp
      ensures View() == Handle(world, old(View()), Purging)
    {
      timestamp := None;
    }

    /** Any sequence of the operations of one process. */
    method Session(ops: seq<Op>)
      modifies this
      ensures View() == Run(world, old(View()), ops)
    {
      for k := 0 to |ops|
        invariant Run(world, View(), ops[k..]) == Run(world, old(View()), ops)
      {
        assert ops[k..][1..] == ops[k + 1..];
        match ops[k] {
          case Ensuring(attempts, x) =>
            var u, err := EnsureManifests(attempts, x);
          case Updating(id, withYanked, x) =>
            var component, err := UpdateComponentManifest(id, withYanked, x);
          case Purging =>
            PurgeTimestamp();
        }
      }
    }
  }
}
