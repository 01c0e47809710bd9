/**
 What one update of the local manifests does, as a function of the state and of everything the outside answers:
 the mirror, the verdict of each load (signature and expiry), and the disk.
 */
module ManifestModel {
  import opened Results

  type Hash = string

  type Document = string

  /** `expires` is None when the date does not parse; `goodKeys`: every role declares usable keys. */
  datatype Root = Root(version: nat, expires: Option<int>, goodKeys: bool, indexURL: string)

  datatype Timestamp = Timestamp(version: nat, hash: Hash)

  datatype Snapshot = Snapshot(signatures: string, meta: map<string, nat>)

  datatype ComponentItem = ComponentItem(url: string, yanked: bool)

  datatype IndexFile = IndexFile(version: nat, goodKeys: bool, components: map<string, ComponentItem>)

  datatype Component = Component(version: nat)

  /** A component file is a manifest, or the document `null`. */
  datatype ComponentFile = Manifest(component: Component) | Null

  const ROOT_URL := "/root.json"
  const INDEX_URL := "/index.json"

  /** The local manifest files. */
  datatype Local = Local(
    root: Option<Root>,
    numberedRoots: map<nat, Root>,
    timestamp: Option<Timestamp>,
    snapshot: Option<Snapshot>,
    index: Option<IndexFile>,
    components: map<string, ComponentFile>)

  /** The files, and the timestamp that this process has fetched. */
  datatype Repo = Repo(cache: Option<Timestamp>, local: Local)

  datatype RepoError = NotFound | BadSignature | Expired | HashMismatch | OldVersion | WrongVersion | NoRoot |
                       NoEntry | UnknownComponent | WriteFailed | BadKeys | Other

  /** Hashing, encoding, and which root's keys accept which root. */
  datatype World = World(
    sha: Document -> Hash,
    marshal: Snapshot -> Document,
    parse: Document -> Option<Snapshot>,
    accepts: (Root, Root) -> bool)

  // ------------------------------------------------------ what the outside answers

  /** The verdict on a stored record: valid; expired or badly signed, which counts as absent; or an error. */
  datatype Loading = Loads | Ignored | Broken

  function Outcome(verdict: Loading, present: bool): Loading {
    if verdict == Loads && !present then Ignored else verdict
  }

  /** What a numbered root URL answers; a missing number answers not-found. */
  datatype RootAnswer = Served(root: Root) | Refused(error: RepoError)

  /** One call of updateLocalRoot: each number is asked for at most once. */
  datatype RootWalk = RootWalk(loads: Loading, roots: map<nat, RootAnswer>, unwritable: set<nat>, writes: bool,
                               now: int)

  /** One round of updateLocalSnapshot; `again` answers the request that follows a root update. */
  datatype Attempt = Attempt(
    served: Result<Timestamp, RepoError>,
    walk: RootWalk,
    again: Result<Timestamp, RepoError>,
    timestampLoads: Loading,
    snapshotLoads: Loading,
    document: Result<Document, RepoError>,
    refused: Option<RepoError>,
    snapshotWrites: bool,
    rootLoads: Loading,
    rotation: RootWalk,
    timestampWrites: bool)

  datatype IndexInput = IndexInput(loads: Loading, rootLoads: Loading, served: Result<IndexFile, RepoError>,
                                   writes: bool)

  /** An expired component manifest is decoded all the same. */
  datatype ComponentAnswer = Fetched(component: Component) | Outdated(component: Component) | Failed(error: RepoError)

  datatype ComponentInput = ComponentInput(
    indexLoads: Loading,
    snapshotLoads: Loading,
    loads: Loading,
    served: ComponentAnswer,
    writes: bool)

  // ----------------------------------------------------------------- versions

  /** The files whose version must not go back. */
  datatype File = TimestampFile | IndexManifest | ComponentManifest(id: string)

  function Entry(meta: map<string, nat>, url: string): nat {
    if url in meta then meta[url] else 0
  }

  function RootVersion(l: Local): nat {
    if l.root.Some? then l.root.value.version else 0
  }

  /** ManifestVersion: zero for a missing file and for `null`. */
  function VersionOf(files: map<string, ComponentFile>, id: string): nat {
    if id in files && files[id].Manifest? then files[id].component.version else 0
  }

  function VersionIn(l: Local, f: File): nat {
    match f
    case TimestampFile => if l.timestamp.Some? then l.timestamp.value.version else 0
    case IndexManifest => if l.index.Some? then l.index.value.version else 0
    case ComponentManifest(id) => VersionOf(l.components, id)
  }

  // --------------------------------------------------------------------- root

  predicate ExpiresAfter(a: Root, b: Root) {
    a.expires.Some? && b.expires.Some? && a.expires.value >= b.expires.value
  }

  /** The numbers the walk has still to visit. */
  ghost function Ahead(roots: map<nat, RootAnswer>, version: nat): set<nat> {
    set v | v in roots && v > version
  }

  lemma AheadShrinks(roots: map<nat, RootAnswer>, version: nat)
    requires version + 1 in roots
    ensures |Ahead(roots, version + 1)| < |Ahead(roots, version)|
  {
    assert Ahead(roots, version) == Ahead(roots, version + 1) + {version + 1};
  }

  /** The mirror has no root after this one. */
  predicate IsLast(roots: map<nat, RootAnswer>, root: Root) {
    root.version + 1 !in roots || roots[root.version + 1] == Refused(NotFound)
  }

  /** What is wrong with the answer to the request for the next root, if anything. */
  function Objection(w: World, walk: RootWalk, root: Root): Option<RepoError>
    requires !IsLast(walk.roots, root)
  {
    match walk.roots[root.version + 1]
    case Refused(error) => Some(error)
    case Served(next) =>
      if !w.accepts(root, next) then Some(BadSignature)
      else if next.version != root.version + 1 then Some(WrongVersion)
      else if !ExpiresAfter(next, root) then Some(Other)
      else if next.version in walk.unwritable then Some(WriteFailed)
      else None
  }

  datatype Walked = Walked(root: Root, numbered: map<nat, Root>, error: Option<RepoError>)

  ghost function Walk(w: World, walk: RootWalk, root: Root, numbered: map<nat, Root>): Walked
    decreases |Ahead(walk.roots, root.version)|
  {
    if IsLast(walk.roots, root) then Walked(root, numbered, None)
    else if Objection(w, walk, root).Some? then Walked(root, numbered, Objection(w, walk, root))
    else
      var next := walk.roots[root.version + 1].root;
      if !next.goodKeys then Walked(root, numbered[next.version := next], Some(BadKeys))
      else
        AheadShrinks(walk.roots, root.version);
        Walk(w, walk, next, numbered[next.version := next])
  }

  /** updateLocalRoot. */
  ghost function UpdateRoot(w: World, l: Local, walk: RootWalk): (Local, Option<RepoError>) {
    match Outcome(walk.loads, l.root.Some?)
    case Broken => (l, Some(Other))
    case Ignored => (l, Some(NoRoot))
    case Loads =>
      var x := Walk(w, walk, l.root.value, l.numberedRoots);
      var l' := l.(numberedRoots := x.numbered);
      if x.error.Some? || x.root.version == l.root.value.version then (l', x.error)
      else if x.root.expires.None? || x.root.expires.value < walk.now then (l', Some(Expired))
      else if !walk.writes then (l', Some(WriteFailed))
      else (l'.(root := Some(x.root)), None)
  }

  // ---------------------------------------------------------------- timestamp

  /** fetchTimestamp: the cache afterwards, whether the snapshot hash is new, and the timestamp. */
  function Fetch(s: Repo, served: Result<Timestamp, RepoError>, verdict: Loading)
    : (Option<Timestamp>, Result<(bool, Timestamp), RepoError>)
  {
    if s.cache.Some? then (s.cache, Ok((false, s.cache.value)))
    else if served.Err? then (None, Err(served.error))
    else
      var ts := served.value;
      match Outcome(verdict, s.local.timestamp.Some?)
      case Broken => (None, Err(Other))
      case Ignored => (Some(ts), Ok((true, ts)))
      case Loads =>
        if ts.version < s.local.timestamp.value.version then (None, Err(OldVersion))
        else (Some(ts), Ok((ts.hash != s.local.timestamp.value.hash, ts)))
  }

  /** The timestamp, after bringing the root up to date when its signature or date was refused. */
  ghost function Trusted(w: World, s: Repo, a: Attempt): (Repo, Result<(bool, Timestamp), RepoError>) {
    var (cache, r) := Fetch(s, a.served, a.timestampLoads);
    if r.Err? && (r.error == BadSignature || r.error == Expired) then
      var (l, err) := UpdateRoot(w, s.local, a.walk);
      if err.Some? then (Repo(cache, l), Err(err.value))
      else
        var (cache', r') := Fetch(Repo(cache, l), a.again, a.timestampLoads);
        (Repo(cache', l), r')
    else (Repo(cache, s.local), r)
  }

  // ----------------------------------------------------------------- snapshot

  /** Decoding a snapshot into a value that holds an older one keeps the entries the new document lacks. */
  function Decode(held: Snapshot, served: Snapshot): Snapshot {
    Snapshot(served.signatures, held.meta + served.meta)
  }

  /** The value that the load leaves behind, also when the record is then ignored. */
  function Held(l: Local): Snapshot {
    if l.snapshot.Some? then l.snapshot.value else Snapshot("", map[])
  }

  /** fetchManifestWithHash: the bytes are checked before they are read. */
  function FetchSnapshot(w: World, hash: Hash, a: Attempt): Result<Snapshot, RepoError> {
    if a.document.Err? then Err(a.document.error)
    else if w.sha(a.document.value) != hash then Err(HashMismatch)
    else if a.refused.Some? then Err(a.refused.value)
    else match w.parse(a.document.value)
      case None => Err(Other)
      case Some(s) => Ok(s)
  }

  /** Unless the stored snapshot loads and has the hash, the named one is fetched and saved. */
  function Refresh(w: World, l: Local, hash: Hash, a: Attempt): (Local, Result<(bool, Snapshot), RepoError>) {
    var verdict := Outcome(a.snapshotLoads, l.snapshot.Some?);
    if verdict == Broken then (l, Err(Other))
    else if verdict == Loads && w.sha(w.marshal(Held(l))) == hash then (l, Ok((false, Held(l))))
    else
      var fetched := FetchSnapshot(w, hash, a);
      if fetched.Err? then (l, Err(fetched.error))
      else if !a.snapshotWrites then (l, Err(WriteFailed))
      else
        var snapshot := Decode(Held(l), fetched.value);
        (l.(snapshot := Some(snapshot)), Ok((true, snapshot)))
  }

  /** Unfinished: the update restarted once more than there were rounds to answer. */
  datatype Update = Finished(r: Result<Snapshot, RepoError>) | Unfinished

  /** updateLocalSnapshot; each restart after a root rotation takes the next round of answers. */
  ghost function UpdateSnapshot(w: World, s: Repo, attempts: seq<Attempt>): (Repo, Update)
    decreases |attempts|
  {
    if attempts == [] then (s, Unfinished)
    else
      var a := attempts[0];
      var (s1, got) := Trusted(w, s, a);
      if got.Err? then (s1, Finished(Err(got.error)))
      else
        var (l, refreshed) := Refresh(w, s1.local, got.value.1.hash, a);
        var s2 := s1.(local := l);
        if refreshed.Err? then (s2, Finished(Err(refreshed.error)))
        else if !refreshed.value.0 then Conclude(s2, a, got.value, refreshed.value.1)
        else if Outcome(a.rootLoads, l.root.Some?) == Broken then (s2, Finished(Err(Other)))
        else if Entry(refreshed.value.1.meta, ROOT_URL) <= RootVersion(l) then Conclude(s2, a, got.value,
          refreshed.value.1)
        else
          var (l', err) := UpdateRoot(w, l, a.rotation);
          if err.Some? then (s2.(local := l'), Finished(Err(err.value)))
          else UpdateSnapshot(w, s2.(local := l'), attempts[1..])
  }

  /** The end of a round that does not restart: a changed timestamp is saved last. */
  function Conclude(s: Repo, a: Attempt, got: (bool, Timestamp), snapshot: Snapshot): (Repo, Update) {
    if !got.0 then (s, Finished(Ok(snapshot)))
    else if !a.timestampWrites then (s, Finished(Err(WriteFailed)))
    else (s.(local := s.local.(timestamp := Some(got.1))), Finished(Ok(snapshot)))
  }

  // --------------------------------------------------------- index, components

  /** updateLocalIndex. */
  function UpdateIndex(l: Local, snapshot: Snapshot, x: IndexInput): (Local, Option<RepoError>) {
    var verdict := Outcome(x.loads, l.index.Some?);
    if verdict == Broken then (l, Some(Other))
    else if verdict == Loads && l.index.value.version == Entry(snapshot.meta, INDEX_URL) then (l, None)
    else if Outcome(x.rootLoads, l.root.Some?) == Broken then (l, Some(Other))
    else if Outcome(x.rootLoads, l.root.Some?) == Ignored then (l, Some(NoRoot))
    else if l.root.value.indexURL !in snapshot.meta then (l, Some(NoEntry))
    else if x.served.Err? then (l, Some(x.served.error))
    else if verdict == Loads && x.served.value.version < l.index.value.version then (l, Some(OldVersion))
    else if !x.writes then (l, Some(WriteFailed))
    else (l.(index := Some(x.served.value)), if x.served.value.goodKeys then None else Some(BadKeys))
  }

  /** The components that the index offers. */
  function Items(l: Local): map<string, ComponentItem> {
    if l.index.Some? then l.index.value.components else map[]
  }

  /** The stored component has the version that the snapshot names. */
  predicate UpToDate(l: Local, id: string)
    requires id in Items(l)
  {
    VersionOf(l.components, id) != 0 && VersionOf(l.components, id) == Entry(Held(l).meta, Items(l)[id].url)
  }

  /** Why the component is not even asked for, if so. */
  function NotAsked(l: Local, id: string, withYanked: bool, x: ComponentInput): Option<RepoError> {
    if Outcome(x.indexLoads, l.index.Some?) == Broken then Some(Other)
    else if id !in Items(l) || (Items(l)[id].yanked && !withYanked) then Some(UnknownComponent)
    else if Outcome(x.snapshotLoads, l.snapshot.Some?) == Broken then Some(Other)
    else if Items(l)[id].url !in Held(l).meta then Some(NoEntry)
    else None
  }

  /** updateComponentManifest: the component and the error can come together. */
  function UpdateComponent(l: Local, id: string, withYanked: bool, x: ComponentInput)
    : (Local, Option<Component>, Option<RepoError>)
  {
    var objection := NotAsked(l, id, withYanked, x);
    if objection.Some? then (l, None, objection)
    else if UpToDate(l, id) then
      if x.loads == Loads then (l, Some(l.components[id].component), None) else (l, None, Some(Other))
    else if x.served.Failed? then (l, None, Some(x.served.error))
    else if x.served.component.version < VersionOf(l.components, id) then (l, None, Some(OldVersion))
    else if !x.writes then (l, None, Some(WriteFailed))
    else
      var file := if x.served.Fetched? then Manifest(x.served.component) else Null;
      (l.(components := l.components[id := file]), Some(x.served.component),
       if x.served.Fetched? then None else Some(Expired))
  }

  // --------------------------------------------------------------------- runs

  /** ensureManifests: the index follows a successful snapshot update. */
  ghost function Ensure(w: World, s: Repo, attempts: seq<Attempt>, x: IndexInput): (Repo, Update, Option<RepoError>) {
    ThenIndex(UpdateSnapshot(w, s, attempts), x)
  }

  function ThenIndex(done: (Repo, Update), x: IndexInput): (Repo, Update, Option<RepoError>) {
    if done.1 == Unfinished || done.1.r.Err? then (done.0, done.1, None)
    else
      var (l, err) := UpdateIndex(done.0.local, done.1.r.value, x);
      (done.0.(local := l), done.1, err)
  }

  datatype Op =
    | Ensuring(attempts: seq<Attempt>, index: IndexInput)
    | Updating(id: string, withYanked: bool, input: ComponentInput)
    | Purging

  ghost function Handle(w: World, s: Repo, op: Op): Repo {
    match op
    case Ensuring(attempts, x) => Ensure(w, s, attempts, x).0
    case Updating(id, withYanked, x) => s.(local := UpdateComponent(s.local, id, withYanked, x).0)
    case Purging => s.(cache := None)
  }

  ghost function Run(w: World, s: Repo, ops: seq<Op>): Repo
    decreases |ops|
  {
    if ops == [] then s else Run(w, Handle(w, s, ops[0]), ops[1..])
  }
}
