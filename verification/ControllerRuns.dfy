/**
 What every run of the controller keeps: the record indexes are bijections of the processes that run, the
 removed flag tells whether an instance is listed, the running counts are exact, and an exit stops the
 playground exactly when it should.
 */
module ControllerRuns {
  import opened ControllerModel
  import opened ProcIndex
  import opened Orders
  import opened Results
  import opened ServiceGraph

  // -------------------------------------------------------------- invariant

  /** A service's list holds instances of that service, once each, with numbers given out before. */
  ghost predicate ListFits(procs: Lists, nextId: Counters, service: ServiceID) {
    && Distinct(Listed(procs, service))
    && forall i :: i in Listed(procs, service) ==>
         i.service == service && service != "" && i.id < NextOf(nextId, service)
  }

  ghost predicate ListsFit(procs: Lists, nextId: Counters) {
    forall t :: ListFits(procs, nextId, t)
  }

  ghost predicate Live(os: Processes, i: Instance) {
    i in os.pids && i !in os.exited
  }

  /** PIDs are positive and never used twice. */
  ghost predicate PidsFit(os: Processes, nextId: Counters) {
    && (forall i :: i in os.pids ==> os.pids[i] > 0 && i.id < NextOf(nextId, i.service))
    && (forall i, j :: i in os.pids && j in os.pids && os.pids[i] == os.pids[j] ==> i == j)
    && os.exited <= os.pids.Keys
  }

  /** The record under a PID describes the live instance with that PID. */
  ghost predicate RecordFits<R>(x: Index<R>, os: Processes, procs: Lists, p: int) {
    && Has(x, p)
    && var r := At(x, p);
       && Live(os, r.inst) && os.pids[r.inst] == p
       && r.service == r.inst.service && r.name == Name(r.inst)
       && (r.removed <==> r.inst !in Listed(procs, r.inst.service))
  }

  ghost predicate HasRecord<R>(x: Index<R>, os: Processes, i: Instance)
    requires Live(os, i)
  {
    Has(x, os.pids[i]) && At(x, os.pids[i]).inst == i
  }

  ghost predicate RecordsFit<R>(x: Index<R>, os: Processes, procs: Lists) {
    && Bijective(x)
    && (forall p :: p in x.byPID ==> RecordFits(x, os, procs, p))
    && (forall i :: Live(os, i) ==> HasRecord(x, os, i))
  }

  ghost function LiveOf(os: Processes, service: ServiceID): set<Instance> {
    set i | i in os.pids && Live(os, i) && i.service == service
  }

  ghost predicate CountsFit(required: Numbers, running: Numbers, os: Processes) {
    forall t :: Number(required, t) > 0 ==> Number(running, t) == |LiveOf(os, t)|
  }

  /** An exit is still expected for a live process exactly when it has been announced. */
  ghost predicate ExpectedFit(expected: set<int>, announced: set<int>, os: Processes) {
    && expected <= announced <= os.pids.Values
    && (forall i :: Live(os, i) && os.pids[i] in announced ==> os.pids[i] in expected)
  }

  ghost predicate Inv<R>(s: State<R>) {
    && ListsFit(s.procs, s.nextId)
    && PidsFit(s.os, s.nextId)
    && RecordsFit(s.index, s.os, s.procs)
    && CountsFit(s.required, s.running, s.os)
    && ExpectedFit(s.expected, s.announced, s.os)
  }

  // ------------------------------------------------------------- adding

  lemma AddLists(procs: Lists, nextId: Counters, service: ServiceID)
    requires ListsFit(procs, nextId) && service != ""
    ensures var nextId' := nextId[service := NextOf(nextId, service) + 1];
      && ListsFit(procs, nextId')
      && ListsFit(procs[service := Listed(procs, service) + [NewInstance(nextId, service)]], nextId')
  {
    var nextId' := nextId[service := NextOf(nextId, service) + 1];
    var procs' := procs[service := Listed(procs, service) + [NewInstance(nextId, service)]];
    forall t ensures ListFits(procs, nextId', t) && ListFits(procs', nextId', t) {
      assert ListFits(procs, nextId, t);
    }
  }

  /** Listing an instance that was never started changes no record's flag. */
  lemma AddRecords<R>(x: Index<R>, os: Processes, procs: Lists, i: Instance)
    requires RecordsFit(x, os, procs) && i !in os.pids
    ensures RecordsFit(x, os, procs[i.service := Listed(procs, i.service) + [i]])
  {
  }

  lemma AddKeeps<R>(s: State<R>, service: ServiceID, created: bool)
    requires Inv(s)
    ensures Inv(Add(s, service, created))
  {
    if service != "" {
      AddLists(s.procs, s.nextId, service);
      AddRecords(s.index, s.os, s.procs, NewInstance(s.nextId, service));
    }
  }

  // ------------------------------------------------------------ starting

  /** What the surroundings guarantee of a start: an unused PID for a listed instance that was not started before. */
  ghost predicate MayStart<R>(s: State<R>, i: Instance, pid: int, unused: R) {
    && i in Listed(s.procs, i.service) && i !in s.os.pids
    && pid > 0 && pid !in s.os.pids.Values && unused !in s.index.records
  }

  lemma StartIndex<R>(x: Index<R>, os: Processes, procs: Lists, i: Instance, pid: int, unused: R)
    requires RecordsFit(x, os, procs) && i !in os.pids && pid > 0 && pid !in os.pids.Values && unused !in x.records
    ensures pid !in x.byPID && Bijective(Upsert(x, i, pid, unused))
  {
    forall p | p in x.byPID ensures p in os.pids.Values {
      assert RecordFits(x, os, procs, p);
    }
    UpsertBijective(x, i, pid, unused);
    forall p | Has(x, p) ensures At(x, p).name != Name(i) {
      assert RecordFits(x, os, procs, p);
      if At(x, p).name == Name(i) {
        NameInjective(At(x, p).inst, i);
      }
    }
  }

  lemma StartRecords<R>(x: Index<R>, os: Processes, procs: Lists, i: Instance, pid: int, unused: R)
    requires RecordsFit(x, os, procs) && i in Listed(procs, i.service) && i !in os.pids && os.exited <= os.pids.Keys
    requires pid > 0 && pid !in os.pids.Values && unused !in x.records
    ensures RecordsFit(Upsert(x, i, pid, unused), os.(pids := os.pids[i := pid]), procs)
  {
    var os', x' := os.(pids := os.pids[i := pid]), Upsert(x, i, pid, unused);
    StartIndex(x, os, procs, i, pid, unused);
    UpsertHere(x, i, pid, unused);
    forall p | p in x'.byPID ensures RecordFits(x', os', procs, p) {
      if p != pid {
        UpsertElsewhere(x, i, pid, unused, p);
        assert RecordFits(x, os, procs, p);
      }
    }
    forall j | Live(os', j) ensures HasRecord(x', os', j) {
      if j != i {
        assert Live(os, j) && HasRecord(x, os, j) && os.pids[j] in os.pids.Values;
        UpsertElsewhere(x, i, pid, unused, os.pids[j]);
      }
    }
  }

  lemma StartLive(os: Processes, i: Instance, pid: int, t: ServiceID)
    requires i !in os.pids && os.exited <= os.pids.Keys
    ensures |LiveOf(os.(pids := os.pids[i := pid]), t)| == |LiveOf(os, t)| + if t == i.service then 1 else 0
  {
    var os' := os.(pids := os.pids[i := pid]);
    assert LiveOf(os', t) == LiveOf(os, t) + if t == i.service then {i} else {};
  }

  lemma StartCounts(required: Numbers, running: Numbers, os: Processes, i: Instance, pid: int)
    requires CountsFit(required, running, os) && i !in os.pids && os.exited <= os.pids.Keys
    ensures var os' := os.(pids := os.pids[i := pid]);
      && (Number(required, i.service) <= 0 ==> CountsFit(required, running, os'))
      && (Number(required, i.service) > 0 ==>
            CountsFit(required, running[i.service := Number(running, i.service) + 1], os'))
  {
    forall t ensures |LiveOf(os.(pids := os.pids[i := pid]), t)| == |LiveOf(os, t)| + if t == i.service then 1 else 0 {
      StartLive(os, i, pid, t);
    }
  }

  lemma StartExpected(expected: set<int>, announced: set<int>, os: Processes, i: Instance, pid: int)
    requires ExpectedFit(expected, announced, os) && i !in os.pids && pid !in os.pids.Values
    ensures ExpectedFit(expected, announced, os.(pids := os.pids[i := pid]))
  {
    var os' := os.(pids := os.pids[i := pid]);
    forall p | p in announced ensures p in os'.pids.Values {
      var j :| j in os.pids && os.pids[j] == p;
      assert os'.pids[j] == p;
    }
    forall j | Live(os', j) && os'.pids[j] in announced ensures os'.pids[j] in expected {
      assert j != i;
      assert Live(os, j);
    }
  }

  lemma StartPids(os: Processes, nextId: Counters, i: Instance, pid: int)
    requires PidsFit(os, nextId) && i !in os.pids && pid > 0 && pid !in os.pids.Values &&
      i.id < NextOf(nextId, i.service)
    ensures PidsFit(os.(pids := os.pids[i := pid]), nextId)
  {
  }

  lemma StartKeeps<R>(s: State<R>, i: Instance, pid: int, unused: R)
    requires Inv(s) && MayStart(s, i, pid, unused)
    ensures Inv(Start(s, i, pid, unused))
  {
    StartRecords(s.index, s.os, s.procs, i, pid, unused);
    StartCounts(s.required, s.running, s.os, i, pid);
    StartExpected(s.expected, s.announced, s.os, i, pid);
    assert ListFits(s.procs, s.nextId, i.service);
    StartPids(s.os, s.nextId, i, pid);
  }

  // ------------------------------------------------------------- exiting

  lemma ExitRecords<R>(x: Index<R>, os: Processes, nextId: Counters, procs: Lists, i: Instance)
    requires RecordsFit(x, os, procs) && PidsFit(os, nextId) && Live(os, i)
    ensures RecordsFit(Delete(x, os.pids[i], Name(i)), os.(exited := os.exited + {i}), procs)
  {
    var pid := os.pids[i];
    var os', x' := os.(exited := os.exited + {i}), Delete(x, pid, Name(i));
    assert HasRecord(x, os, i) && RecordFits(x, os, procs, pid);
    DeleteBijective(x, pid, Name(i));
    forall p | p in x'.byPID ensures RecordFits(x', os', procs, p) {
      assert RecordFits(x, os, procs, p);
    }
    forall j | Live(os', j) ensures HasRecord(x', os', j) {
      assert Live(os, j) && HasRecord(x, os, j);
      assert os.pids[j] != pid;
    }
  }

  lemma ExitLive(os: Processes, i: Instance, t: ServiceID)
    requires Live(os, i)
    ensures |LiveOf(os.(exited := os.exited + {i}), t)| == |LiveOf(os, t)| - if t == i.service then 1 else 0
  {
    var os' := os.(exited := os.exited + {i});
    assert LiveOf(os', t) == LiveOf(os, t) - if t == i.service then {i} else {};
    assert i in LiveOf(os, i.service);
  }

  lemma ExitCounts(required: Numbers, running: Numbers, os: Processes, i: Instance)
    requires CountsFit(required, running, os) && Live(os, i)
    ensures var os' := os.(exited := os.exited + {i});
      && (Number(required, i.service) <= 0 ==> CountsFit(required, running, os'))
      && (Number(required, i.service) > 0 ==>
            Number(running, i.service) > 0 &&
              CountsFit(required, running[i.service := Number(running, i.service) - 1], os'))
  {
    forall t ensures |LiveOf(os.(exited := os.exited + {i}), t)| == |LiveOf(os, t)| - if t == i.service then 1 else 0 {
      ExitLive(os, i, t);
    }
  }

  lemma ExitExpected(expected: set<int>, announced: set<int>, os: Processes, nextId: Counters, i: Instance)
    requires ExpectedFit(expected, announced, os) && PidsFit(os, nextId) && Live(os, i)
    ensures ExpectedFit(expected - {os.pids[i]}, announced, os.(exited := os.exited + {i}))
  {
  }

  lemma ForgetKeeps<R>(s: State<R>, i: Instance, pid: int)
    requires Inv(s) && Live(s.os, i) && s.os.pids[i] == pid
    ensures Inv(Forget(s, i, pid))
  {
    ExitRecords(s.index, s.os, s.nextId, s.procs, i);
    ExitCounts(s.required, s.running, s.os, i);
    ExitExpected(s.expected, s.announced, s.os, s.nextId, i);
  }

  // ------------------------------------------------------------ removing

  lemma WithoutMembers(list: seq<Instance>, k: nat)
    requires k < |list| && Distinct(list)
    ensures Distinct(Without(list, k))
    ensures forall j :: j in Without(list, k) <==> j in list && j != list[k]
  {
  }

  lemma RemoveLists(procs: Lists, nextId: Counters, service: ServiceID, k: nat)
    requires ListsFit(procs, nextId) && k < |Listed(procs, service)|
    ensures ListsFit(procs[service := Without(Listed(procs, service), k)], nextId)
  {
    var procs' := procs[service := Without(Listed(procs, service), k)];
    assert ListFits(procs, nextId, service);
    WithoutMembers(Listed(procs, service), k);
    forall t ensures ListFits(procs', nextId, t) {
      assert ListFits(procs, nextId, t);
    }
  }

  lemma RemoveRecords<R>(x: Index<R>, os: Processes, procs: Lists, nextId: Counters, service: ServiceID, k: nat)
    requires RecordsFit(x, os, procs) && PidsFit(os, nextId) && ListsFit(procs, nextId) && k < |Listed(procs, service)|
    ensures RecordsFit(Mark(x, PidOf(os.pids, Listed(procs, service)[k])), os,
                       procs[service := Without(Listed(procs, service), k)])
  {
    var i := Listed(procs, service)[k];
    var pid := PidOf(os.pids, i);
    var x', procs' := Mark(x, pid), procs[service := Without(Listed(procs, service), k)];
    MarkBijective(x, pid);
    assert ListFits(procs, nextId, service) && i.service == service;
    WithoutMembers(Listed(procs, service), k);
    forall p | p in x'.byPID ensures RecordFits(x', os, procs', p) {
      assert RecordFits(x, os, procs, p);
      MarkAt(x, pid, p);
    }
    forall j | Live(os, j) ensures HasRecord(x', os, j) {
      assert HasRecord(x, os, j);
      MarkAt(x, pid, os.pids[j]);
    }
  }

  lemma MarkAt<R>(x: Index<R>, pid: int, p: int)
    requires Coherent(x) && p in x.byPID && Has(x, p)
    ensures Has(Mark(x, pid), p) && At(Mark(x, pid), p) == if p == pid then At(x, p).(removed := true) else At(x, p)
  {
  }

  lemma RemoveKeeps<R>(s: State<R>, service: ServiceID, k: nat, pid: int)
    requires Inv(s) && k < |Listed(s.procs, service)|
    requires pid <= 0 || pid == PidOf(s.os.pids, Listed(s.procs, service)[k])
    ensures Inv(RemoveAt(s, service, k, pid))
  {
    RemoveLists(s.procs, s.nextId, service, k);
    RemoveRecords(s.index, s.os, s.procs, s.nextId, service, k);
  }

  lemma ExpectKeeps<R>(s: State<R>, pid: int)
    requires Inv(s) && (pid > 0 ==> pid in s.os.pids.Values)
    ensures Inv(Expect(s, pid))
  {
  }

  lemma AsyncStopKeeps<R>(s: State<R>, service: ServiceID, inst: Instance)
    requires Inv(s)
    ensures Inv(AsyncStop(s, service, inst))
  {
    var k := FirstOf(Listed(s.procs, service), inst);
    if service != "" && k < |Listed(s.procs, service)| {
      RemoveKeeps(s, service, k, 0);
      ExpectKeeps(RemoveAt(s, service, k, 0), PidOf(s.os.pids, inst));
    }
  }

  /** The PID that a lookup settles on belongs to the instance it settles on. */
  lemma FindsOwnPid<R>(s: State<R>, req: Request, walked: Option<Place>)
    requires Inv(s) && WalkAnswer(s, req, walked)
    ensures var f := Find(s, req, walked);
      f.Found? && f.pid > 0 ==> f.pid == PidOf(s.os.pids, f.place.inst) && f.pid in s.os.pids.Values
  {
  }

  lemma RemoveByPIDKeeps<R>(s: State<R>, service: ServiceID, pid: int)
    requires Inv(s)
    ensures Inv(RemoveProcByPID(s, service, pid).0) && RemoveProcByPID(s, service, pid).0.os == s.os
  {
    var k := FirstWithPid(Listed(s.procs, service), s.os.pids, pid);
    if pid > 0 && service != "" && k < |Listed(s.procs, service)| {
      RemoveKeeps(s, service, k, pid);
    }
  }

  lemma HookKeeps<R>(s: State<R>, hook: Hook, service: ServiceID, pid: int)
    requires Inv(s) && pid > 0 && pid in s.os.pids.Values
    ensures Inv(AfterHook(s, hook, service, pid).0)
  {
    ExpectKeeps(s, pid);
    if hook.Synchronous? {
      var s1 := if hook.announces then Expect(s, pid) else s;
      RemoveByPIDKeeps(s1, service, pid);
      ExpectKeeps(RemoveProcByPID(s1, service, pid).0, pid);
    }
  }

  lemma ScaleInKeeps<R>(s: State<R>, req: Request, hook: Hook, walked: Option<Place>)
    requires Inv(s) && WalkAnswer(s, req, walked)
    ensures Inv(ScaleIn(s, req, hook, walked).0)
  {
    var f := Find(s, req, walked);
    if f.Found? && f.pid > 0 {
      FindsOwnPid(s, req, walked);
      HookKeeps(s, hook, f.place.service, f.pid);
    }
  }

  // ----------------------------------------------------------------- runs

  datatype Event<R> =
    | Adding(service: ServiceID, created: bool)
    | Starting(inst: Instance, pid: int, unused: R)
    | Exiting(inst: Instance, pid: int)
    | Requiring(required: Numbers)
    | ScalingIn(req: Request, hook: Hook, walked: Option<Place>)
    | Removing(service: ServiceID, inst: Instance)
    | StopRequest

  /** The surroundings: PIDs are not reused, a process exits once, the required set comes before the first start. */
  ghost predicate Legal<R>(s: State<R>, e: Event<R>) {
    match e
    case Starting(i, pid, unused) => MayStart(s, i, pid, unused)
    case Exiting(i, pid) => Live(s.os, i) && s.os.pids[i] == pid
    case Requiring(_) => s.os.pids == map[]
    case ScalingIn(req, _, walked) => WalkAnswer(s, req, walked)
    case _ => true
  }

  ghost function Handle<R>(s: State<R>, e: Event<R>): State<R> {
    match e
    case Adding(service, created) => Add(s, service, created)
    case Starting(i, pid, unused) => Start(s, i, pid, unused)
    case Exiting(i, pid) => Exit(s, i, pid)
    case Requiring(required) => SetRequired(s, required)
    case ScalingIn(req, hook, walked) => ScaleIn(s, req, hook, walked).0
    case Removing(service, inst) => AsyncStop(s, service, inst)
    case StopRequest => Stop(s)
  }

  ghost predicate LegalRun<R>(s: State<R>, es: seq<Event<R>>)
    decreases |es|
  {
    es == [] || (Legal(s, es[0]) && LegalRun(Handle(s, es[0]), es[1..]))
  }

  ghost function Run<R>(s: State<R>, es: seq<Event<R>>): State<R>
    decreases |es|
  {
    if es == [] then s else Run(Handle(s, es[0]), es[1..])
  }

  lemma RequireKeeps<R>(s: State<R>, required: Numbers)
    requires Inv(s) && s.os.pids == map[]
    ensures Inv(SetRequired(s, required))
  {
  }

  lemma HandleKeeps<R>(s: State<R>, e: Event<R>)
    requires Inv(s) && Legal(s, e)
    ensures Inv(Handle(s, e))
  {
    match e {
      case Adding(service, created) => AddKeeps(s, service, created);
      case Starting(i, pid, unused) => StartKeeps(s, i, pid, unused);
      case Exiting(i, pid) => ForgetKeeps(s, i, pid);
      case Requiring(required) => RequireKeeps(s, required);
      case ScalingIn(req, hook, walked) => ScaleInKeeps(s, req, hook, walked);
      case Removing(service, inst) => AsyncStopKeeps(s, service, inst);
      case StopRequest =>
    }
  }

  lemma InitialFits<R>()
    ensures Inv<R>(Initial())
  {
  }

  /** The invariant holds in every reachable state. */
  lemma {:induction false} RunKeeps<R>(s: State<R>, es: seq<Event<R>>)
    requires Inv(s) && LegalRun(s, es)
    ensures Inv(Run(s, es))
    decreases |es|
  {
    if es != [] {
      HandleKeeps(s, es[0]);
      RunKeeps(Handle(s, es[0]), es[1..]);
    }
  }

  // ------------------------------------------------- counts and auto-stop

  ghost function IsStart<R>(e: Event<R>, t: ServiceID): nat {
    if e.Starting? && e.inst.service == t then 1 else 0
  }

  ghost function IsExit<R>(e: Event<R>, t: ServiceID): nat {
    if e.Exiting? && e.inst.service == t then 1 else 0
  }

  ghost function StartsOf<R>(es: seq<Event<R>>, t: ServiceID): nat {
    if es == [] then 0 else IsStart(es[0], t) + StartsOf(es[1..], t)
  }

  ghost function ExitsOf<R>(es: seq<Event<R>>, t: ServiceID): nat {
    if es == [] then 0 else IsExit(es[0], t) + ExitsOf(es[1..], t)
  }

  lemma HookFrame<R>(s: State<R>, hook: Hook, service: ServiceID, pid: int)
    ensures AfterHook(s, hook, service, pid).0.os == s.os && AfterHook(s, hook, service, pid).0.nextId == s.nextId
  {
    var s1 := if !hook.UnknownService? && hook.announces then Expect(s, pid) else s;
    assert s1.os == s.os && s1.nextId == s.nextId;
    var s2 := RemoveProcByPID(s1, service, pid).0;
    assert s2.os == s.os && s2.nextId == s.nextId;
  }

  lemma ScaleInFrame<R>(s: State<R>, req: Request, hook: Hook, walked: Option<Place>)
    ensures ScaleIn(s, req, hook, walked).0.os == s.os && ScaleIn(s, req, hook, walked).0.nextId == s.nextId
  {
    var f := Find(s, req, walked);
    if f.Found? {
      HookFrame(s, hook, f.place.service, f.pid);
    }
  }

  lemma StepCount<R>(s: State<R>, e: Event<R>, t: ServiceID)
    requires PidsFit(s.os, s.nextId) && Legal(s, e)
    ensures |LiveOf(Handle(s, e).os, t)| == |LiveOf(s.os, t)| + IsStart(e, t) - IsExit(e, t)
  {
    match e {
      case Starting(i, pid, unused) => StartLive(s.os, i, pid, t);
      case Exiting(i, pid) => ExitLive(s.os, i, t);
      case ScalingIn(req, hook, walked) => ScaleInFrame(s, req, hook, walked);
      case _ =>
    }
  }

  lemma {:induction false} RunCount<R>(s: State<R>, es: seq<Event<R>>, t: ServiceID)
    requires Inv(s) && LegalRun(s, es)
    ensures |LiveOf(Run(s, es).os, t)| == |LiveOf(s.os, t)| + StartsOf(es, t) - ExitsOf(es, t)
    decreases |es|
  {
    if es != [] {
      HandleKeeps(s, es[0]);
      StepCount(s, es[0], t);
      RunCount(Handle(s, es[0]), es[1..], t);
    }
  }

  /** In every run, the running count of a required service is its starts minus its exits. */
  lemma CountIsStartsMinusExits<R>(es: seq<Event<R>>, t: ServiceID)
    requires LegalRun(Initial<R>(), es) && Number(Run(Initial<R>(), es).required, t) > 0
    ensures Number(Run(Initial<R>(), es).running, t) == StartsOf(es, t) - ExitsOf(es, t)
  {
    InitialFits<R>();
    RunKeeps(Initial<R>(), es);
    RunCount(Initial<R>(), es, t);
    assert LiveOf(Processes(map[], {}), t) == {};
  }

  /**
   After every run, an exit moves a running playground to stopping exactly when the service is required, the exit
   was not announced, and fewer processes than the minimum are left.
   */
  lemma ExitStopsExactly<R>(es: seq<Event<R>>, i: Instance, pid: int)
    requires LegalRun(Initial<R>(), es)
    requires var s := Run(Initial<R>(), es); Legal(s, Exiting(i, pid)) && !s.stopping
    ensures var s := Run(Initial<R>(), es);
      Exit(s, i, pid).stopping <==>
        && Number(s.required, i.service) > 0
        && pid !in s.announced
        && StartsOf(es, i.service) - ExitsOf(es, i.service) - 1 < Number(s.required, i.service)
  {
    InitialFits<R>();
    RunKeeps(Initial<R>(), es);
    var s := Run(Initial<R>(), es);
    if Number(s.required, i.service) > 0 {
      CountIsStartsMinusExits(es, i.service);
      ExitCounts(s.required, s.running, s.os, i);
    }
  }

  // ---------------------------------------------------------------- lookups

  /** In a reachable state a match of a request is the instance of the indexed record. */
  lemma MatchIsIndexed<R>(s: State<R>, req: Request, p: Place, r: Record)
    requires Inv(s) && Matches(s, req, p) && Indexed(s.index, req) == Some(r)
    ensures p == Place(r.service, r.inst) && !r.removed
  {
    var x := s.index;
    assert ListFits(s.procs, s.nextId, p.service);
    if req.pid > 0 {
      assert RecordFits(x, s.os, s.procs, req.pid);
    } else {
      assert NameFits(x, req.name);
      assert RecordFits(x, s.os, s.procs, r.pid);
      NameInjective(p.inst, r.inst);
    }
  }

  /** A record that is not marked removed is listed where the record says. */
  lemma UnmarkedIsListed<R>(s: State<R>, req: Request, r: Record)
    requires Inv(s) && Indexed(s.index, req) == Some(r) && !r.removed
    ensures Matches(s, req, Place(r.service, r.inst))
  {
  }

  /** The index answers what walking the lists answers, whichever way the instance is named. */
  lemma LookupsAgree<R>(s: State<R>, req: Request, walked: Option<Place>)
    requires Inv(s) && WalkAnswer(s, req, walked)
    ensures match Find(s, req, walked)
      case Gone => walked == None
      case Nothing => walked == None
      case Found(place, pid) => walked == Some(place) && pid == PidOf(s.os.pids, place.inst)
  {
    var ix := Indexed(s.index, req);
    if ix.Some? {
      if walked.Some? {
        MatchIsIndexed(s, req, walked.value, ix.value);
      } else if !ix.value.removed {
        UnmarkedIsListed(s, req, ix.value);
      }
      if !ix.value.removed {
        FindsOwnPid(s, req, walked);
        UnmarkedIsListed(s, req, ix.value);
      }
    }
  }

  /** A live process is found under its PID and under its name as the same record. */
  lemma PidAndNameAgree<R>(s: State<R>, i: Instance)
    requires Inv(s) && Live(s.os, i)
    ensures var r := Indexed(s.index, Request("", s.os.pids[i]));
      && r.Some? && r.value.inst == i && r == Indexed(s.index, Request(Name(i), 0))
      && (r.value.removed <==> i !in Listed(s.procs, i.service))
  {
  }

  // ------------------------------------------------------ no second scale-in

  /** The instance had its number given out and is not listed. */
  ghost predicate Retired<R>(s: State<R>, i: Instance) {
    i.id < NextOf(s.nextId, i.service) && i !in Listed(s.procs, i.service)
  }

  lemma RemoveAtRetires<R>(s: State<R>, service: ServiceID, k: nat, pid: int)
    requires Inv(s) && k < |Listed(s.procs, service)|
    ensures Retired(RemoveAt(s, service, k, pid), Listed(s.procs, service)[k])
    ensures forall i :: Retired(s, i) ==> Retired(RemoveAt(s, service, k, pid), i)
  {
    assert ListFits(s.procs, s.nextId, service);
    WithoutMembers(Listed(s.procs, service), k);
  }

  lemma AddRetires<R>(s: State<R>, service: ServiceID, created: bool, i: Instance)
    requires Retired(s, i)
    ensures Retired(Add(s, service, created), i)
  {
  }

  lemma AsyncRetires<R>(s: State<R>, service: ServiceID, inst: Instance, i: Instance)
    requires Inv(s) && Retired(s, i)
    ensures Retired(AsyncStop(s, service, inst), i)
  {
    var k := FirstOf(Listed(s.procs, service), inst);
    if k < |Listed(s.procs, service)| {
      RemoveAtRetires(s, service, k, 0);
    }
  }

  /** A scale-in either leaves the state alone and removes nothing, or is what its hook does. */
  lemma ScaleInIsHook<R>(s: State<R>, req: Request, hook: Hook, walked: Option<Place>)
    ensures var f, r := Find(s, req, walked), ScaleIn(s, req, hook, walked);
      || (r.0 == s && forall i :: !Removes(r.1, i))
      || (f.Found? && f.pid > 0 && r == AfterHook(s, hook, f.place.service, f.pid))
  {
  }

  lemma ScaleInRetires<R>(s: State<R>, req: Request, hook: Hook, walked: Option<Place>, i: Instance)
    requires Inv(s) && WalkAnswer(s, req, walked)
    ensures Retired(s, i) ==> Retired(ScaleIn(s, req, hook, walked).0, i)
    ensures Removes(ScaleIn(s, req, hook, walked).1, i) ==>
      Retired(ScaleIn(s, req, hook, walked).0, i) && !Retired(s, i)
  {
    var f := Find(s, req, walked);
    ScaleInIsHook(s, req, hook, walked);
    if f.Found? && f.pid > 0 && hook.Synchronous? {
      FindsOwnPid(s, req, walked);
      HookRetires(s, hook, f.place.service, f.pid, i);
    }
  }

  lemma RetiredStays<R>(s: State<R>, e: Event<R>, i: Instance)
    requires Inv(s) && Legal(s, e) && Retired(s, i)
    ensures Retired(Handle(s, e), i)
  {
    match e {
      case Adding(service, created) => AddRetires(s, service, created, i);
      case ScalingIn(req, hook, walked) => ScaleInRetires(s, req, hook, walked, i);
      case Removing(service, inst) => AsyncRetires(s, service, inst, i);
      case _ =>
    }
  }

  lemma RemoveByPIDRetires<R>(s: State<R>, service: ServiceID, pid: int, i: Instance)
    requires Inv(s)
    ensures var (s', removed) := RemoveProcByPID(s, service, pid);
      (Retired(s, i) || removed == Some(i) ==> Retired(s', i)) && (Retired(s, i) ==> removed != Some(i))
  {
    var k := FirstWithPid(Listed(s.procs, service), s.os.pids, pid);
    if k < |Listed(s.procs, service)| {
      RemoveAtRetires(s, service, k, pid);
      assert ListFits(s.procs, s.nextId, service);
    }
  }

  lemma ExpectRetires<R>(s: State<R>, pid: int, i: Instance)
    ensures Retired(Expect(s, pid), i) <==> Retired(s, i)
  {
  }

  lemma HookRetires<R>(s: State<R>, hook: Hook, service: ServiceID, pid: int, i: Instance)
    requires Inv(s) && pid > 0 && pid in s.os.pids.Values && hook.Synchronous?
    ensures Retired(s, i) || Removes(AfterHook(s, hook, service, pid).1, i) ==>
      Retired(AfterHook(s, hook, service, pid).0, i)
    ensures Retired(s, i) ==> !Removes(AfterHook(s, hook, service, pid).1, i)
  {
    ExpectKeeps(s, pid);
    ExpectRetires(s, pid, i);
    var s1 := if hook.announces then Expect(s, pid) else s;
    RemoveByPIDRetires(s1, service, pid, i);
    ExpectRetires(RemoveProcByPID(s1, service, pid).0, pid, i);
  }

  lemma {:induction false} RetiredForGood<R>(s: State<R>, es: seq<Event<R>>, i: Instance)
    requires Inv(s) && LegalRun(s, es) && Retired(s, i)
    ensures Retired(Run(s, es), i)
    decreases |es|
  {
    if es != [] {
      HandleKeeps(s, es[0]);
      RetiredStays(s, es[0], i);
      RetiredForGood(Handle(s, es[0]), es[1..], i);
    }
  }

  /** An instance that was scaled in is never scaled in again, whatever happens in between. */
  lemma NoSecondScaleIn<R>(s: State<R>, req: Request, hook: Hook, walked: Option<Place>, i: Instance, es: seq<Event<R>>,
                           req': Request, hook': Hook, walked': Option<Place>)
    requires Inv(s) && WalkAnswer(s, req, walked) && Removes(ScaleIn(s, req, hook, walked).1, i)
    requires var s1 := ScaleIn(s, req, hook, walked).0; LegalRun(s1, es) && WalkAnswer(Run(s1, es), req', walked')
    ensures var s2 := Run(ScaleIn(s, req, hook, walked).0, es); !Removes(ScaleIn(s2, req', hook', walked').1, i)
  {
    ScaleInKeeps(s, req, hook, walked);
    ScaleInRetires(s, req, hook, walked, i);
    var s1 := ScaleIn(s, req, hook, walked).0;
    RunKeeps(s1, es);
    RetiredForGood(s1, es, i);
    ScaleInRetires(Run(s1, es), req', hook', walked', i);
  }

  // ---------------------------------------------------------------- shutdown

  /** Shutdown begins once: from then on the state stays stopping, with the records of that moment. */
  lemma {:induction false} StopsOnce<R>(s: State<R>, es: seq<Event<R>>)
    requires s.stopping && LegalRun(s, es)
    ensures Run(s, es).stopping && Run(s, es).atStop == s.atStop
    decreases |es|
  {
    if es != [] {
      StopsOnce(Handle(s, es[0]), es[1..]);
    }
  }

  /** What shutdown signals: the snapshot holds the live processes, each under its own PID, and no others. */
  lemma SnapshotIsLive<R>(es: seq<Event<R>>)
    requires LegalRun(Initial<R>(), es)
    ensures var s := Run(Initial<R>(), es);
      && (forall p :: p in Snapshot(s.index) ==> var i := Snapshot(s.index)[p].inst; Live(s.os, i) && s.os.pids[i] == p)
      && (forall i :: Live(s.os, i) ==> s.os.pids[i] in Snapshot(s.index) && Snapshot(s.index)[s.os.pids[i]].inst == i)
  {
    InitialFits<R>();
    RunKeeps(Initial<R>(), es);
    var s := Run(Initial<R>(), es);
    forall p | p in Snapshot(s.index) ensures var i := Snapshot(s.index)[p].inst; Live(s.os, i) && s.os.pids[i] == p {
      assert RecordFits(s.index, s.os, s.procs, p);
    }
    forall i | Live(s.os, i) ensures s.os.pids[i] in Snapshot(s.index) && Snapshot(s.index)[s.os.pids[i]].inst == i {
      assert HasRecord(s.index, s.os, i);
    }
  }
}
