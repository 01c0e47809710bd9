/** The controller's state as a value, and its handlers as functions of it. */
module ControllerModel {
  import opened Results
  import opened ServiceGraph
  import opened ProcIndex

  type Lists = map<ServiceID, seq<Instance>>

  type Numbers = map<ServiceID, int>

  type Counters = map<ServiceID, nat>

  /** The operating system's side: the PIDs of started instances, and the instances whose process has exited. */
  datatype Processes = Processes(pids: map<Instance, int>, exited: set<Instance>)

  datatype State<R> = State(
    procs: Lists,
    nextId: Counters,
    required: Numbers,
    running: Numbers,
    expected: set<int>,
    index: Index<R>,
    stopping: bool,
    // the records at the moment shutdown began
    atStop: Option<map<int, Record>>,
    os: Processes,
    // history: PIDs ever announced to exit
    announced: set<int>)

  ghost function Initial<R>(): State<R> {
    State(map[], map[], map[], map[], {}, Index(map[], map[], map[]), false, None, Processes(map[], {}), {})
  }

  function Listed(procs: Lists, service: ServiceID): seq<Instance> {
    if service in procs then procs[service] else []
  }

  /** Reading a Go map of integers. */
  function Number(m: Numbers, service: ServiceID): int {
    if service in m then m[service] else 0
  }

  function NextOf(nextId: Counters, service: ServiceID): nat {
    if service in nextId then nextId[service] else 0
  }

  function PidOf(pids: map<Instance, int>, i: Instance): int {
    if i in pids then pids[i] else 0
  }

  // ------------------------------------------------------------------ lists

  ghost function AllocID<R>(s: State<R>, service: ServiceID): State<R> {
    if service == "" then s else s.(nextId := s.nextId[service := NextOf(s.nextId, service) + 1])
  }

  ghost function AppendProc<R>(s: State<R>, i: Instance): State<R> {
    if i.service == "" then s else s.(procs := s.procs[i.service := Listed(s.procs, i.service) + [i]])
  }

  function NewInstance(nextId: Counters, service: ServiceID): Instance {
    Instance(service, NextOf(nextId, service))
  }

  /** A new instance gets the next number of its service; creating it may fail after that. */
  ghost function Add<R>(s: State<R>, service: ServiceID, created: bool): State<R> {
    if created then AppendProc(AllocID(s, service), NewInstance(s.nextId, service)) else AllocID(s, service)
  }

  /** The index of the first instance in the list with the PID, or the length. */
  ghost function FirstWithPid(list: seq<Instance>, pids: map<Instance, int>, pid: int): (k: nat)
    ensures k <= |list|
    ensures k < |list| ==> PidOf(pids, list[k]) == pid
    ensures forall j :: 0 <= j < k ==> PidOf(pids, list[j]) != pid
  {
    if list == [] || PidOf(pids, list[0]) == pid then 0 else 1 + FirstWithPid(list[1..], pids, pid)
  }

  /** The index of the first occurrence in the list, or the length. */
  ghost function FirstOf(list: seq<Instance>, inst: Instance): (k: nat)
    ensures k <= |list|
    ensures k < |list| ==> list[k] == inst
    ensures forall j :: 0 <= j < k ==> list[j] != inst
  {
    if list == [] || list[0] == inst then 0 else 1 + FirstOf(list[1..], inst)
  }

  function Without(list: seq<Instance>, k: nat): seq<Instance>
    requires k < |list|
  {
    list[..k] + list[k + 1..]
  }

  /** Takes the k-th instance out of a service's list and marks its record. */
  ghost function RemoveAt<R>(s: State<R>, service: ServiceID, k: nat, pid: int): State<R>
    requires k < |Listed(s.procs, service)|
  {
    var p := if pid <= 0 then PidOf(s.os.pids, Listed(s.procs, service)[k]) else pid;
    s.(procs := s.procs[service := Without(Listed(s.procs, service), k)], index := Mark(s.index, p))
  }

  ghost function RemoveProcByPID<R>(s: State<R>, service: ServiceID, pid: int): (State<R>, Option<Instance>) {
    var k := FirstWithPid(Listed(s.procs, service), s.os.pids, pid);
    if pid <= 0 || service == "" || k == |Listed(s.procs, service)| then (s, None)
    else (RemoveAt(s, service, k, pid), Some(Listed(s.procs, service)[k]))
  }

  ghost function RemoveProc<R>(s: State<R>, service: ServiceID, inst: Instance): (State<R>, bool) {
    var k := FirstOf(Listed(s.procs, service), inst);
    if service == "" || k == |Listed(s.procs, service)| then (s, false) else (RemoveAt(s, service, k, 0), true)
  }

  // --------------------------------------------------------------- handlers

  /** ExpectExitPID. */
  ghost function Expect<R>(s: State<R>, pid: int): State<R> {
    if pid <= 0 then s else s.(expected := s.expected + {pid}, announced := s.announced + {pid})
  }

  ghost function SetRequired<R>(s: State<R>, required: map<ServiceID, int>): State<R> {
    s.(required := map k | k in required && k != "" && required[k] > 0 :: required[k], running := map[])
  }

  ghost function Snapshot<R>(x: Index<R>): map<int, Record> {
    map p | p in x.byPID && p > 0 && Has(x, p) :: At(x, p)
  }

  /** Shutdown starts once; later requests change nothing. */
  ghost function Stop<R>(s: State<R>): State<R> {
    if s.stopping then s else s.(stopping := true, atStop := Some(Snapshot(s.index)))
  }

  ghost function CountUp<R>(s: State<R>, service: ServiceID): State<R> {
    if Number(s.required, service) <= 0 then s else s.(running := s.running[service := Number(s.running, service) + 1])
  }

  ghost function CountDown<R>(s: State<R>, service: ServiceID): State<R> {
    if Number(s.required, service) > 0 && Number(s.running, service) > 0
    then s.(running := s.running[service := Number(s.running, service) - 1]) else s
  }

  /** The instance's process has been started under `pid`; then handleProcStarted. */
  ghost function Start<R>(s: State<R>, i: Instance, pid: int, unused: R): State<R> {
    CountUp(s.(os := s.os.(pids := s.os.pids[i := pid]), index := Upsert(s.index, i, pid, unused)), i.service)
  }

  /** handleProcExited up to the decision whether to stop. */
  ghost function Forget<R>(s: State<R>, i: Instance, pid: int): State<R> {
    CountDown(s.(expected := if pid > 0 then s.expected - {pid} else s.expected,
                 os := s.os.(exited := s.os.exited + {i}),
                 index := Delete(s.index, pid, Name(i))), i.service)
  }

  /** The exit was not announced and leaves too few processes of a required service. */
  ghost predicate TooFew<R>(s: State<R>, i: Instance, pid: int) {
    && Number(s.required, i.service) > 0
    && Number(Forget(s, i, pid).running, i.service) < Number(s.required, i.service)
    && !(pid > 0 && pid in s.expected)
  }

  /** handleProcExited. */
  ghost function Exit<R>(s: State<R>, i: Instance, pid: int): State<R> {
    if TooFew(s, i, pid) then Stop(Forget(s, i, pid)) else Forget(s, i, pid)
  }

  // --------------------------------------------------------------- scale-in

  datatype Request = Request(name: string, pid: int)

  /** What the service's hook does before the generic removal, and whether the service is known at all. */
  datatype Hook =
    | UnknownService
    | HookFails(announces: bool)
    | Asynchronous(announces: bool)
    | Synchronous(announces: bool, signalled: bool)

  datatype Reply =
    | Rejected
    | BadRequest
    | AlreadyRemoved
    | NotFound
    | NotRunning
    | Unknown
    | HookFailed
    | Pending
    | SignalFailed(inst: Instance)
    | Success(inst: Instance)

  /** The reply comes after the instance was taken off its list, whether or not the signal then went through. */
  predicate Removes(r: Reply, i: Instance) {
    r == Success(i) || r == SignalFailed(i)
  }

  /** A listed instance with the service it is listed under. */
  datatype Place = Place(service: ServiceID, inst: Instance)

  ghost predicate Matches<R>(s: State<R>, req: Request, p: Place) {
    && p.inst in Listed(s.procs, p.service)
    && (if req.pid > 0 then PidOf(s.os.pids, p.inst) == req.pid else Name(p.inst) == req.name)
  }

  /** A walk over all lists returns a match when there is one. */
  ghost predicate WalkAnswer<R>(s: State<R>, req: Request, found: Option<Place>) {
    match found
    case Some(p) => Matches(s, req, p)
    case None => forall p: Place :: !Matches(s, req, p)
  }

  /** The record a request names through the indexes. */
  ghost function Indexed<R>(x: Index<R>, req: Request): Option<Record> {
    if req.pid > 0 then (if Has(x, req.pid) then Some(At(x, req.pid)) else None)
    else if req.name in x.byName && x.byName[req.name] in x.records then Some(x.records[x.byName[req.name]]) else None
  }

  /** The lookup of handleScaleIn: the index first, the walk when the index knows nothing. */
  datatype Lookup = Gone | Nothing | Found(place: Place, pid: int)

  ghost function Find<R>(s: State<R>, req: Request, walked: Option<Place>): Lookup {
    match Indexed(s.index, req)
    case Some(r) =>
      if r.removed then Gone else Found(Place(r.service, r.inst), if req.pid > 0 then req.pid else r.pid)
    case None =>
      if walked.None? then Nothing
      else Found(walked.value, if req.pid > 0 then req.pid else PidOf(s.os.pids, walked.value.inst))
  }

  ghost function AfterHook<R>(s: State<R>, hook: Hook, service: ServiceID, pid: int): (State<R>, Reply) {
    var s1 := if !hook.UnknownService? && hook.announces then Expect(s, pid) else s;
    match hook
    case UnknownService => (s, Unknown)
    case HookFails(_) => (s1, HookFailed)
    case Asynchronous(_) => (s1, Pending)
    case Synchronous(_, signalled) =>
      var (s2, removed) := RemoveProcByPID(s1, service, pid);
      if removed.None? then (s1, AlreadyRemoved)
      else (Expect(s2, pid), if signalled then Success(removed.value) else SignalFailed(removed.value))
  }

  /** handleScaleIn, given the answer that walking the lists would return. */
  ghost function ScaleIn<R>(s: State<R>, req: Request, hook: Hook, walked: Option<Place>): (State<R>, Reply) {
    if s.stopping then (s, Rejected)
    else if (req.name != "" && req.pid > 0) || (req.name == "" && req.pid <= 0) then (s, BadRequest)
    else match Find(s, req, walked)
      case Gone => (s, AlreadyRemoved)
      case Nothing => (s, NotFound)
      case Found(place, pid) => if pid <= 0 then (s, NotRunning) else AfterHook(s, hook, place.service, pid)
  }

  /** asyncScaleInStopEvent. */
  ghost function AsyncStop<R>(s: State<R>, service: ServiceID, inst: Instance): State<R> {
    var (s', removed) := RemoveProc(s, service, inst);
    if removed then Expect(s', PidOf(s'.os.pids, inst)) else s'
  }
}
