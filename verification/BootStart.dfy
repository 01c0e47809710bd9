/**
 bootStarter: services start in plan order, each waiting until some instance of every planned dependency has reported
 ready. The environment fixes what each instance eventually reports, if anything; the reports arrive during the waits,
 as early or late as they like and in any order.
 */
module BootStart {
  import opened BootFates
  import opened BootPlan
  import opened Orders
  import opened Results
  import opened ServiceGraph

  type Future = nat

  /** What happened during a boot, in order. */
  datatype Event =
    | Attempted(service: ServiceID)
    | Started(service: ServiceID, instance: nat, future: Future)
    | Refused(service: ServiceID, instance: nat)
    | Skipped(service: ServiceID)
    | Reported(future: Future, report: Report)

  /** Some instance of the service was started and later reported ready. */
  ghost predicate HasReady(log: seq<Event>, service: ServiceID) {
    exists i, j :: 0 <= i < j < |log| && log[i].Started? && log[i].service == service &&
      log[j] == Reported(log[i].future, Ready)
  }

  ghost predicate WasAttempted(log: seq<Event>, service: ServiceID) {
    exists i :: 0 <= i < |log| && log[i] == Attempted(service)
  }

  /** The dependencies that have to be ready before a service starts. */
  ghost predicate MustPrecede(plans: seq<PlannedService>, planned: map<ServiceID, seq<nat>>, service: ServiceID,
                              dep: ServiceID) {
    exists p :: p in plans && p.service == service && dep in p.startAfter && dep != "" && HasInstances(planned, dep)
  }

  /** No instance starts before every planned dependency has an instance that reported ready. */
  ghost predicate StartsSafe(log: seq<Event>, plans: seq<PlannedService>, planned: map<ServiceID, seq<nat>>) {
    forall k, d :: 0 <= k < |log| && log[k].Started? && MustPrecede(plans, planned, log[k].service, d) ==>
      HasReady(log[..k], d)
  }

  /** When a service is reached, its dependencies in the plan have been reached before. */
  ghost predicate AttemptsOrdered(log: seq<Event>, plans: seq<PlannedService>) {
    forall k, p, d :: 0 <= k < |log| && p in plans && log[k] == Attempted(p.service) && d in p.startAfter ==>
      WasAttempted(log[..k], d)
  }

  /** A service is skipped only when some planned dependency has no instance that reported ready. */
  ghost predicate SkipsJustified(log: seq<Event>, plans: seq<PlannedService>, planned: map<ServiceID, seq<nat>>) {
    forall k :: 0 <= k < |log| && log[k].Skipped? ==> Lacks(log[..k], plans, planned, log[k].service)
  }

  ghost predicate Lacks(log: seq<Event>, plans: seq<PlannedService>, planned: map<ServiceID, seq<nat>>,
                        service: ServiceID) {
    exists d :: MustPrecede(plans, planned, service, d) && !HasReady(log, d)
  }

  /** The event settles one instance: it was started, or the controller refused it. */
  predicate Settles(e: Event, service: ServiceID, instance: nat) {
    (e.Started? || e.Refused?) && e.service == service && e.instance == instance
  }

  ghost predicate Dealt(log: seq<Event>, service: ServiceID, instance: nat) {
    exists k :: 0 <= k < |log| && Settles(log[k], service, instance)
  }

  ghost predicate WasSkipped(log: seq<Event>, service: ServiceID) {
    exists k :: 0 <= k < |log| && log[k] == Skipped(service)
  }

  /** The service was skipped, or each of its instances was started or refused. */
  ghost predicate Settled(log: seq<Event>, planned: map<ServiceID, seq<nat>>, service: ServiceID) {
    WasSkipped(log, service) || forall i :: service in planned && i in planned[service] ==> Dealt(log, service, i)
  }

  /** Events concern planned services, and settle planned instances only. */
  ghost predicate FromPlan(e: Event, plans: seq<PlannedService>, planned: map<ServiceID, seq<nat>>) {
    match e
    case Reported(_, _) => true
    case Attempted(s) => s in Services(plans)
    case Skipped(s) => s in Services(plans)
    case Started(s, i, _) => s in Services(plans) && s in planned && i in planned[s]
    case Refused(s, i) => s in Services(plans) && s in planned && i in planned[s]
  }

  /** No instance is started or refused twice. */
  ghost predicate SettlesOnce(log: seq<Event>) {
    forall j, k :: 0 <= j < k < |log| && (log[k].Started? || log[k].Refused?) ==>
      !Settles(log[j], log[k].service, log[k].instance)
  }

  /** Every start has its future on the list, and every logged report is on record. */
  ghost predicate Known(log: seq<Event>, readyMap: map<ServiceID, seq<Future>>, reports: map<Future, Report>) {
    forall k :: 0 <= k < |log| ==> KnownEvent(log[k], readyMap, reports)
  }

  predicate KnownEvent(e: Event, readyMap: map<ServiceID, seq<Future>>, reports: map<Future, Report>) {
    match e
    case Started(s, _, f) => s in readyMap && f in readyMap[s]
    case Reported(f, report) => f in reports && reports[f] == report
    case _ => true
  }

  // ------------------------------------------------------ logs only grow

  /** Only reports arrived in between. */
  ghost predicate OnlyReports(log: seq<Event>, log': seq<Event>) {
    log <= log' && forall k :: |log| <= k < |log'| ==> log'[k].Reported?
  }

  lemma OnlyReportsChain(a: seq<Event>, b: seq<Event>, c: seq<Event>)
    requires OnlyReports(a, b) && OnlyReports(b, c)
    ensures OnlyReports(a, c)
  {
  }

  /** No instance of the service has been started or refused. */
  ghost predicate Untouched(log: seq<Event>, service: ServiceID) {
    forall k :: 0 <= k < |log| && (log[k].Started? || log[k].Refused?) ==> log[k].service != service
  }

  lemma KnownExtends(log: seq<Event>, e: Event, readyMap: map<ServiceID, seq<Future>>,
                     readyMap': map<ServiceID, seq<Future>>, reports: map<Future, Report>,
                     reports': map<Future, Report>)
    requires Known(log, readyMap, reports) && KnownEvent(e, readyMap', reports')
    requires forall s, f :: s in readyMap && f in readyMap[s] ==> s in readyMap' && f in readyMap'[s]
    requires forall f :: f in reports ==> f in reports' && reports'[f] == reports[f]
    ensures Known(log + [e], readyMap', reports')
  {
  }

  lemma SkipsExtend(log: seq<Event>, e: Event, plans: seq<PlannedService>, planned: map<ServiceID, seq<nat>>)
    requires SkipsJustified(log, plans, planned) && (e.Skipped? ==> Lacks(log, plans, planned, e.service))
    ensures SkipsJustified(log + [e], plans, planned)
  {
  }

  lemma OnceExtends(log: seq<Event>, e: Event)
    requires SettlesOnce(log) && (e.Started? || e.Refused? ==> !Dealt(log, e.service, e.instance))
    ensures SettlesOnce(log + [e])
  {
  }

  lemma DealtGrows(log: seq<Event>, log': seq<Event>, service: ServiceID, instance: nat)
    requires log <= log' && Dealt(log, service, instance)
    ensures Dealt(log', service, instance)
  {
  }

  lemma DealtOne(log: seq<Event>, e: Event, service: ServiceID, instance: nat)
    ensures Dealt(log + [e], service, instance) <==> Dealt(log, service, instance) || Settles(e, service, instance)
  {
    var log' := log + [e];
    if Dealt(log, service, instance) {
      DealtGrows(log, log', service, instance);
    }
    if Settles(e, service, instance) {
      assert log'[|log|] == e;
    }
    if Dealt(log', service, instance) && !Settles(e, service, instance) {
      var k :| 0 <= k < |log'| && Settles(log'[k], service, instance);
      assert log'[k] == log[k];
    }
  }

  lemma SettledGrows(log: seq<Event>, log': seq<Event>, planned: map<ServiceID, seq<nat>>, service: ServiceID)
    requires log <= log' && Settled(log, planned, service)
    ensures Settled(log', planned, service)
  {
  }

  lemma HasReadyGrows(log: seq<Event>, log': seq<Event>, service: ServiceID)
    requires log <= log' && HasReady(log, service)
    ensures HasReady(log', service)
  {
  }

  lemma AttemptsGrow(log: seq<Event>, log': seq<Event>, service: ServiceID)
    requires log <= log' && WasAttempted(log, service)
    ensures WasAttempted(log', service)
  {
  }

  ghost predicate DistinctServices(plans: seq<PlannedService>) {
    forall i, j :: 0 <= i < j < |plans| ==> plans[i].service != plans[j].service
  }

  lemma SafeExtends(log: seq<Event>, e: Event, plans: seq<PlannedService>, planned: map<ServiceID, seq<nat>>)
    requires StartsSafe(log, plans, planned)
    requires e.Started? ==> forall d :: MustPrecede(plans, planned, e.service, d) ==> HasReady(log, d)
    ensures StartsSafe(log + [e], plans, planned)
  {
    var log' := log + [e];
    forall k, d | 0 <= k < |log'| && log'[k].Started? && MustPrecede(plans, planned, log'[k].service, d)
      ensures HasReady(log'[..k], d)
    {
      assert log'[..k] == log[..k];
      assert k == |log| ==> log[..k] == log;
    }
  }

  lemma AttemptsExtend(log: seq<Event>, e: Event, plans: seq<PlannedService>)
    requires AttemptsOrdered(log, plans)
    requires e.Attempted? ==>
      forall p, d :: p in plans && p.service == e.service && d in p.startAfter ==> WasAttempted(log, d)
    ensures AttemptsOrdered(log + [e], plans)
  {
    var log' := log + [e];
    forall k, p, d | 0 <= k < |log'| && p in plans && log'[k] == Attempted(p.service) && d in p.startAfter
      ensures WasAttempted(log'[..k], d)
    {
      assert log'[..k] == log[..k];
      assert k == |log| ==> log[..k] == log;
    }
  }

  /** A future belongs to a start of the service in the log, and its report follows that start. */
  ghost predicate Tracked(log: seq<Event>, reports: map<Future, Report>, service: ServiceID, f: Future) {
    exists i :: 0 <= i < |log| && log[i].Started? && log[i].service == service && log[i].future == f &&
      (f in reports ==> ReportedAfter(log, i, f, reports[f]))
  }

  ghost predicate ReportedAfter(log: seq<Event>, i: int, f: Future, report: Report) {
    exists j :: 0 <= i < j < |log| && log[j] == Reported(f, report)
  }

  /** Tracking survives more events, and the arrival of the report itself. */
  lemma TrackedGrows(log: seq<Event>, e: Event, reports: map<Future, Report>, reports': map<Future, Report>,
                     s: ServiceID, f: Future)
    requires Tracked(log, reports, s, f)
    requires reports' == reports || (e.Reported? && e.future !in reports && reports' == reports[e.future := e.report])
    ensures Tracked(log + [e], reports', s, f)
  {
    var i :| 0 <= i < |log| && log[i].Started? && log[i].service == s && log[i].future == f &&
      (f in reports ==> ReportedAfter(log, i, f, reports[f]));
    var log' := log + [e];
    assert log'[i] == log[i];
    if f in reports {
      var j :| 0 <= i < j < |log| && log[j] == Reported(f, reports[f]);
      assert log'[j] == log[j];
      assert ReportedAfter(log', i, f, reports'[f]);
    } else if f in reports' {
      assert log'[|log|] == Reported(f, reports'[f]);
      assert ReportedAfter(log', i, f, reports'[f]);
    }
  }

  // ------------------------------------------------------------- the starter

  /** waitAnyReady's answer; Blocked when the wait never ends. */
  datatype WaitResult = AnyReady | AllFailed(error: string) | NoInstance | Blocked

  datatype StartError =
    | NotStarted(service: ServiceID, dep: ServiceID)
    | WaitFailed(error: string)
    | StartFailed(service: ServiceID)
    | NeverReady

  /** The error reports the trouble; a failed wait carries a text instead of the names. */
  predicate Agrees(e: StartError, v: Verdict) {
    match v
    case Missing(s, d) => e == NotStarted(s, d) || e.WaitFailed?
    case Hanging(_, _) => e == NeverReady
    case StartRefused(s) => e == StartFailed(s)
  }

  /** The instances that were started, by future. */
  type Issued = seq<(ServiceID, nat)>

  function Eventually(env: Env, issued: Issued, f: Future): Option<Report>
    requires f < |issued|
  {
    env.report(issued[f].0, issued[f].1)
  }

  ghost predicate SomeEnds(env: Env, issued: Issued, futures: seq<Future>, report: Option<Report>) {
    exists f :: f in futures && f < |issued| && Eventually(env, issued, f) == report
  }

  ghost function StatusFrom(env: Env, issued: Issued, futures: seq<Future>): Status {
    if SomeEnds(env, issued, futures, Some(Ready)) then Up
    else if SomeEnds(env, issued, futures, None) then Hangs
    else Down
  }

  /** The futures are those of the started instances in the list: all but the refused ones. */
  ghost predicate Covers(env: Env, issued: Issued, service: ServiceID, futures: seq<Future>, list: seq<nat>) {
    && (forall f :: f in futures ==>
          f < |issued| && issued[f].0 == service && issued[f].1 in list && !env.refuses(service, issued[f].1))
    && (forall i :: i in list && !env.refuses(service, i) ==> HasFuture(issued, service, futures, i))
  }

  ghost predicate HasFuture(issued: Issued, service: ServiceID, futures: seq<Future>, i: nat) {
    exists f :: f in futures && f < |issued| && issued[f] == (service, i)
  }

  lemma EndsOfCovered(env: Env, issued: Issued, service: ServiceID, futures: seq<Future>, list: seq<nat>,
                      report: Option<Report>)
    requires Covers(env, issued, service, futures, list)
    ensures SomeEnds(env, issued, futures, report) <==> exists i :: i in list && EndsUp(env, service, i, report)
  {
    if i :| i in list && EndsUp(env, service, i, report) {
      assert HasFuture(issued, service, futures, i);
    }
    if SomeEnds(env, issued, futures, report) {
      var f :| f in futures && f < |issued| && Eventually(env, issued, f) == report;
      assert EndsUp(env, service, issued[f].1, report);
    }
  }

  lemma StatusIsFate(env: Env, issued: Issued, service: ServiceID, futures: seq<Future>, list: seq<nat>)
    requires Covers(env, issued, service, futures, list)
    ensures StatusFrom(env, issued, futures) == Fate(env, service, list)
  {
    EndsOfCovered(env, issued, service, futures, list, Some(Ready));
    EndsOfCovered(env, issued, service, futures, list, None);
  }

  /** One more instance of the list, started with a new future or refused. */
  lemma CoversOne(env: Env, issued: Issued, service: ServiceID, futures: seq<Future>, list: seq<nat>, i: nat)
    requires Covers(env, issued, service, futures, list)
    ensures env.refuses(service, i) ==> Covers(env, issued, service, futures, list + [i])
    ensures !env.refuses(service, i) ==>
      Covers(env, issued + [(service, i)], service, futures + [|issued|], list + [i])
  {
    var issued', futures' := issued + [(service, i)], futures + [|issued|];
    assert HasFuture(issued', service, futures', i) by {
      assert |issued| in futures' && issued'[|issued|] == (service, i);
    }
    forall j | j in list && !env.refuses(service, j)
      ensures HasFuture(issued, service, futures, j) && HasFuture(issued', service, futures', j)
    {
      var f :| f in futures && f < |issued| && issued[f] == (service, j);
      assert f in futures' && issued'[f] == (service, j);
    }
  }

  lemma StatusKept(env: Env, issued: Issued, issued': Issued, futures: seq<Future>)
    requires issued <= issued' && forall f :: f in futures ==> f < |issued|
    ensures StatusFrom(env, issued', futures) == StatusFrom(env, issued, futures)
  {
    assert forall f :: f in futures ==> issued'[f] == issued[f];
    forall report ensures SomeEnds(env, issued', futures, report) <==> SomeEnds(env, issued, futures, report) {
      if SomeEnds(env, issued', futures, report) {
        var f :| f in futures && f < |issued'| && Eventually(env, issued', f) == report;
        assert Eventually(env, issued, f) == report;
      }
      if SomeEnds(env, issued, futures, report) {
        var f :| f in futures && f < |issued| && Eventually(env, issued, f) == report;
        assert Eventually(env, issued', f) == report;
      }
    }
  }

  lemma SomeMember(futures: seq<Future>)
    ensures futures == [] || exists f :: f in futures
  {
    if futures != [] {
      assert futures[0] in futures;
    }
  }

  /** More starts do not change which instances the futures stand for. */
  lemma CoversKept(env: Env, issued: Issued, issued': Issued, service: ServiceID, futures: seq<Future>, list: seq<nat>)
    requires issued <= issued' && Covers(env, issued, service, futures, list)
    ensures Covers(env, issued', service, futures, list)
  {
    forall i | i in list && !env.refuses(service, i) ensures HasFuture(issued', service, futures, i) {
      assert HasFuture(issued, service, futures, i);
      var f :| f in futures && f < |issued| && issued[f] == (service, i);
      assert issued'[f] == (service, i);
    }
  }

  // -------------------------------------------------------------- addresses

  /** A started instance with an address; `ready` is None when there is nothing to wait for. */
  datatype ReadyAddr = ReadyAddr(addr: string, ready: Option<Future>)

  function AddrOf(env: Env, issued: Issued, f: Future): string {
    if f < |issued| then env.addr(issued[f].0, issued[f].1) else ""
  }

  /** The futures whose instances have an address, in the order of the starts. */
  function Addressed(env: Env, issued: Issued, futures: seq<Future>): seq<ReadyAddr> {
    if futures == [] then []
    else
      var f := futures[|futures| - 1];
      Addressed(env, issued, futures[..|futures| - 1]) +
      if AddrOf(env, issued, f) == "" then [] else [ReadyAddr(AddrOf(env, issued, f), Some(f))]
  }

  lemma AddressedOne(env: Env, issued: Issued, futures: seq<Future>, f: Future)
    ensures Addressed(env, issued, futures + [f]) == Addressed(env, issued, futures) +
            if AddrOf(env, issued, f) == "" then [] else [ReadyAddr(AddrOf(env, issued, f), Some(f))]
  {
    assert (futures + [f])[..|futures|] == futures;
  }

  lemma {:induction false} AddressedKept(env: Env, issued: Issued, issued': Issued, futures: seq<Future>)
    requires issued <= issued' && forall f :: f in futures ==> f < |issued|
    ensures Addressed(env, issued', futures) == Addressed(env, issued, futures)
  {
    if futures != [] {
      var front, last := futures[..|futures| - 1], futures[|futures| - 1];
      assert last in futures && forall f :: f in front ==> f in futures;
      AddressedKept(env, issued, issued', front);
    }
  }

  lemma {:induction false} AddressedMembers(env: Env, issued: Issued, futures: seq<Future>, r: ReadyAddr)
    ensures r in Addressed(env, issued, futures) <==>
      r.ready.Some? && r.ready.value in futures && r.addr == AddrOf(env, issued, r.ready.value) && r.addr != ""
  {
    if futures != [] {
      AddressedMembers(env, issued, futures[..|futures| - 1], r);
      assert futures == futures[..|futures| - 1] + [futures[|futures| - 1]];
    }
  }

  function FuturesIn(readyMap: map<ServiceID, seq<Future>>, service: ServiceID): seq<Future> {
    if service in readyMap then readyMap[service] else []
  }

  function AddrsIn(readySet: map<ServiceID, seq<ReadyAddr>>, service: ServiceID): seq<ReadyAddr> {
    if service in readySet then readySet[service] else []
  }

  /** The addresses on the list are those of the futures on the list. */
  ghost predicate ListsAddresses(env: Env, issued: Issued, readyMap: map<ServiceID, seq<Future>>,
                                 readySet: map<ServiceID, seq<ReadyAddr>>) {
    forall s {:trigger AddrsIn(readySet, s)} :: AddrsIn(readySet, s) == Addressed(env, issued, FuturesIn(readyMap, s))
  }

  /** The entry that a start adds, if the instance has an address. */
  function File(readySet: map<ServiceID, seq<ReadyAddr>>, service: ServiceID, addr: string, f: Future)
    : map<ServiceID, seq<ReadyAddr>>
  {
    if addr == "" then readySet else readySet[service := AddrsIn(readySet, service) + [ReadyAddr(addr, Some(f))]]
  }

  /** What a start changes in the lists of addresses. */
  lemma AddressedStart(env: Env, issued: Issued, futures: seq<Future>, service: ServiceID, instance: nat)
    requires forall f :: f in futures ==> f < |issued|
    ensures var issued' := issued + [(service, instance)];
      var entry := ReadyAddr(env.addr(service, instance), Some(|issued|));
      && Addressed(env, issued', futures) == Addressed(env, issued, futures)
      && Addressed(env, issued', futures + [|issued|]) ==
         Addressed(env, issued, futures) + if entry.addr == "" then [] else [entry]
  {
    AddressedKept(env, issued, issued + [(service, instance)], futures);
    AddressedOne(env, issued + [(service, instance)], futures, |issued|);
  }

  lemma AddressesExtend(env: Env, issued: Issued, readyMap: map<ServiceID, seq<Future>>,
                        readySet: map<ServiceID, seq<ReadyAddr>>, service: ServiceID, instance: nat)
    requires ListsAddresses(env, issued, readyMap, readySet)
    requires forall s, f :: s in readyMap && f in readyMap[s] ==> f < |issued|
    ensures ListsAddresses(env, issued + [(service, instance)],
                           readyMap[service := FuturesIn(readyMap, service) + [|issued|]],
                           File(readySet, service, env.addr(service, instance), |issued|))
  {
    forall s
      ensures AddrsIn(File(readySet, service, env.addr(service, instance), |issued|), s) ==
              Addressed(env, issued + [(service, instance)],
                        FuturesIn(readyMap[service := FuturesIn(readyMap, service) + [|issued|]], s))
    {
      assert AddrsIn(readySet, s) == Addressed(env, issued, FuturesIn(readyMap, s));
      AddressedStart(env, issued, FuturesIn(readyMap, s), service, instance);
    }
  }

  predicate EndsReady(env: Env, issued: Issued, r: ReadyAddr) {
    r.ready.Some? && r.ready.value < |issued| ==> Eventually(env, issued, r.ready.value) == Some(Ready)
  }

  /** The addresses that get ready, in order. */
  function ReadyAddrs(env: Env, issued: Issued, rs: seq<ReadyAddr>): seq<string> {
    if rs == [] then []
    else
      var r := rs[|rs| - 1];
      ReadyAddrs(env, issued, rs[..|rs| - 1]) + if EndsReady(env, issued, r) then [r.addr] else []
  }

  lemma {:induction false} ReadyAddrsMembers(env: Env, issued: Issued, rs: seq<ReadyAddr>, addr: string)
    ensures addr in ReadyAddrs(env, issued, rs) <==> exists r :: r in rs && r.addr == addr && EndsReady(env, issued, r)
  {
    if rs != [] {
      ReadyAddrsMembers(env, issued, rs[..|rs| - 1], addr);
      assert rs == rs[..|rs| - 1] + [rs[|rs| - 1]];
    }
  }

  /** At this address some instance of the list was started, and ends up with this report. */
  lemma AddressesCovered(env: Env, issued: Issued, service: ServiceID, futures: seq<Future>, list: seq<nat>,
                         addr: string, report: Option<Report>)
    requires Covers(env, issued, service, futures, list)
    ensures (exists i :: i in list && EndsUpAt(env, service, i, addr, report)) <==>
      (exists r :: r in Addressed(env, issued, futures) && r.addr == addr && EndsWith(env, issued, r, report))
  {
    if i :| i in list && EndsUpAt(env, service, i, addr, report) {
      assert HasFuture(issued, service, futures, i);
      var f :| f in futures && f < |issued| && issued[f] == (service, i);
      AddressedMembers(env, issued, futures, ReadyAddr(addr, Some(f)));
      assert EndsWith(env, issued, ReadyAddr(addr, Some(f)), report);
    }
    if r :| r in Addressed(env, issued, futures) && r.addr == addr && EndsWith(env, issued, r, report) {
      AddressedMembers(env, issued, futures, r);
      assert EndsUpAt(env, service, issued[r.ready.value].1, addr, report);
    }
  }

  predicate EndsWith(env: Env, issued: Issued, r: ReadyAddr, report: Option<Report>) {
    r.ready.Some? && r.ready.value < |issued| && Eventually(env, issued, r.ready.value) == report
  }

  class BootStarter {
    const env: Env
    const planned: map<ServiceID, seq<nat>>
    const required: map<ServiceID, int>
    const plans: seq<PlannedService>
    var readyMap: map<ServiceID, seq<Future>>
    var readySet: map<ServiceID, seq<ReadyAddr>>
    // the reports that have arrived, and the instances behind the futures
    var reports: map<Future, Report>
    var issued: Issued
    ghost var log: seq<Event>

    ghost predicate Valid()
      reads this
    {
      && (forall s, f :: s in readyMap && f in readyMap[s] ==> f < |issued| && Tracked(log, reports, s, f))
      && (forall f :: f in reports ==> f < |issued| && Eventually(env, issued, f) == Some(reports[f]))
      && StartsSafe(log, plans, planned)
      && (forall k :: 0 <= k < |log| ==> FromPlan(log[k], plans, planned))
      && (StartOrder(plans) ==> AttemptsOrdered(log, plans))
      && Known(log, readyMap, reports) && SkipsJustified(log, plans, planned) && SettlesOnce(log)
    }

    ghost predicate AddressesListed()
      reads this`readySet, this`readyMap, this`issued
    {
      ListsAddresses(env, issued, readyMap, readySet)
    }

    function Addrs(service: ServiceID): seq<ReadyAddr>
      reads this`readySet
    {
      AddrsIn(readySet, service)
    }

    ghost function StatusOf(service: ServiceID): Status
      reads this`readyMap, this`issued
    {
      StatusFrom(env, issued, FuturesIn(readyMap, service))
    }

    /** So far every service has come to what the fates say. */
    ghost predicate Matches(fates: Fates)
      reads this`readyMap, this`issued
    {
      forall s :: StatusOf(s) == FateIn(fates, s)
    }

    /** Appending an event keeps what does not depend on the service it names. */
    lemma Extends(e: Event)
      requires Valid() && !e.Started? && !e.Reported? && FromPlan(e, plans, planned)
      requires e.Attempted? && StartOrder(plans) ==>
        forall p, d :: p in plans && p.service == e.service && d in p.startAfter ==> WasAttempted(log, d)
      requires e.Skipped? ==> Lacks(log, plans, planned, e.service)
      requires e.Refused? ==> !Dealt(log, e.service, e.instance)
      ensures StartsSafe(log + [e], plans, planned) && (StartOrder(plans) ==> AttemptsOrdered(log + [e], plans))
      ensures forall s, g :: s in readyMap && g in readyMap[s] ==> Tracked(log + [e], reports, s, g)
      ensures Known(log + [e], readyMap, reports) && SkipsJustified(log + [e], plans, planned) && SettlesOnce(log + [e])
    {
      SafeExtends(log, e, plans, planned);
      if StartOrder(plans) {
        AttemptsExtend(log, e, plans);
      }
      forall s, g | s in readyMap && g in readyMap[s] ensures Tracked(log + [e], reports, s, g) {
        TrackedGrows(log, e, reports, reports, s, g);
      }
      KnownExtends(log, e, readyMap, readyMap, reports, reports);
      SkipsExtend(log, e, plans, planned);
      OnceExtends(log, e);
    }

    constructor (env: Env, planned: map<ServiceID, seq<nat>>, required: map<ServiceID, int>, plans: seq<PlannedService>)
      ensures Valid() && this.env == env && this.planned == planned && this.required == required && this.plans == plans
      ensures log == [] && readyMap == map[] && Matches(map[]) && AddressesListed()
    {
      this.env, this.planned, this.required, this.plans := env, planned, required, plans;
      readyMap, readySet, reports, issued, log := map[], map[], map[], [], [];
    }

    function Futures(service: ServiceID): seq<Future>
      reads this`readyMap
    {
      FuturesIn(readyMap, service)
    }

    /** The report of a future arrives. */
    method Resolve(f: Future)
      requires Valid() && f < |issued| && f !in reports && Eventually(env, issued, f).Some?
      modifies this`reports, this`log
      ensures var report := Eventually(env, issued, f).value;
        Valid() && reports == old(reports)[f := report] && log == old(log) + [Reported(f, report)]
    {
      var e := Reported(f, Eventually(env, issued, f).value);
      SafeExtends(log, e, plans, planned);
      if StartOrder(plans) {
        AttemptsExtend(log, e, plans);
      }
      KnownExtends(log, e, readyMap, readyMap, reports, reports[f := e.report]);
      SkipsExtend(log, e, plans, planned);
      OnceExtends(log, e);
      forall s, g | s in readyMap && g in readyMap[s] ensures Tracked(log + [e], reports[f := e.report], s, g) {
        TrackedGrows(log, e, reports, reports[f := e.report], s, g);
      }
      reports := reports[f := e.report];
      log := log + [e];
    }

    /** Time passes: any reports that are to come may arrive, in any order. */
    method Pass()
      requires Valid()
      modifies this`reports, this`log
      ensures Valid() && OnlyReports(old(log), log) && old(reports).Keys <= reports.Keys
    {
      var n: nat :| n >= 0;
      for k := 0 to n
        invariant Valid() && OnlyReports(old(log), log) && old(reports).Keys <= reports.Keys
      {
        var f: Future :| f >= 0;
        if f < |issued| && f !in reports && Eventually(env, issued, f).Some? {
          Resolve(f);
        }
      }
    }

    /** The select: time passes until one of the cases has reported, whichever that is. */
    method Await(cases: seq<Future>) returns (i: nat)
      requires Valid() && forall k :: 0 <= k < |cases| ==> cases[k] < |issued|
      requires exists k :: 0 <= k < |cases| && Eventually(env, issued, cases[k]).Some?
      modifies this`reports, this`log
      ensures Valid() && OnlyReports(old(log), log) && old(reports).Keys <= reports.Keys
      ensures i < |cases| && cases[i] in reports
    {
      Pass();
      if j :| 0 <= j < |cases| && cases[j] in reports {
        return j;
      }
      i :| 0 <= i < |cases| && Eventually(env, issued, cases[i]).Some?;
      Resolve(cases[i]);
    }

    predicate IssuedAll(fs: seq<Option<Future>>)
      reads this`issued
    {
      forall k :: 0 <= k < |fs| && fs[k].Some? ==> fs[k].value < |issued|
    }

    ghost predicate ReadyAmong(fs: seq<Option<Future>>)
      reads this
    {
      None in fs || exists f :: Some(f) in fs && f in reports && reports[f] == Ready
    }

    ghost predicate AllFailedAmong(fs: seq<Option<Future>>, error: string)
      reads this
    {
      && (forall o :: o in fs ==> o.Some? && o.value in reports && reports[o.value].NotReady?)
      && (exists o :: o in fs && o.Some? && o.value in reports && reports[o.value] == NotReady(error))
    }

    /** Nothing gets ready, and something never reports. */
    ghost predicate HangsAmong(fs: seq<Option<Future>>)
      reads this
    {
      && (forall o :: o in fs ==> o.Some? && o.value < |issued| && Eventually(env, issued, o.value) != Some(Ready))
      && (exists o :: o in fs && o.Some? && o.value < |issued| && Eventually(env, issued, o.value).None?)
    }

    /** The first loop of waitAnyReady: what has reported already, and what to wait for. */
    method Poll(fs: seq<Option<Future>>)
      returns (done: bool, lastErr: Option<string>, pending: seq<Future>, cases: seq<Future>)
      requires Valid()
      modifies this`reports, this`log
      ensures Valid() && OnlyReports(old(log), log)
      ensures done ==> ReadyAmong(fs)
      ensures !done ==> Waiting(fs, lastErr, pending, cases)
    {
      done, lastErr, pending, cases := false, None, [], [];
      for k := 0 to |fs|
        invariant Valid() && OnlyReports(old(log), log)
        invariant Waiting(fs[..k], lastErr, pending, cases)
      {
        assert fs[..k + 1] == fs[..k] + [fs[k]];
        if fs[k].None? {
          done := true;
          return;
        }
        ghost var before := reports;
        Pass();
        WaitingKept(fs[..k], lastErr, pending, cases, before);
        var f := fs[k].value;
        if f in reports {
          if reports[f] == Ready {
            done := true;
            assert Some(f) in fs;
            return;
          }
          lastErr := Some(reports[f].error);
        } else {
          pending := pending + [f];
          cases := cases + [f];
        }
      }
      assert fs[..|fs|] == fs;
    }

    /** Everything examined has failed or is still pending; the last error is one of the failures. */
    ghost predicate Waiting(fs: seq<Option<Future>>, lastErr: Option<string>, pending: seq<Future>, cases: seq<Future>)
      reads this`reports
    {
      WaitingWith(reports, fs, lastErr, pending, cases)
    }

    static ghost predicate WaitingWith(reports: map<Future, Report>, fs: seq<Option<Future>>, lastErr: Option<string>,
                                       pending: seq<Future>, cases: seq<Future>) {
      && cases == pending
      && (forall o :: o in fs ==> o.Some? && (o.value in pending || (o.value in reports && reports[o.value].NotReady?)))
      && (forall f :: f in pending ==> Some(f) in fs)
      && (lastErr.None? ==> |fs| == |pending|)
      && (lastErr.Some? ==>
            exists o :: o in fs && o.Some? && o.value in reports && reports[o.value] == NotReady(lastErr.value))
    }

    /** A report never changes. */
    lemma WaitingKept(fs: seq<Option<Future>>, lastErr: Option<string>, pending: seq<Future>, cases: seq<Future>,
                      before: map<Future, Report>)
      requires Valid() && before.Keys <= reports.Keys && WaitingWith(before, fs, lastErr, pending, cases)
      requires forall f :: f in before ==> f < |issued| && Eventually(env, issued, f) == Some(before[f])
      ensures Waiting(fs, lastErr, pending, cases)
    {
    }

    /** One round of the second loop of waitAnyReady. */
    method WaitOnce(fs: seq<Option<Future>>, lastErr0: Option<string>, pending0: seq<Future>, cases0: seq<Future>,
                    ghost since: seq<Event>)
      returns (ended: Option<WaitResult>, lastErr: Option<string>, pending: seq<Future>, cases: seq<Future>)
      requires Valid() && IssuedAll(fs) && Waiting(fs, lastErr0, pending0, cases0) && cases0 != []
      requires OnlyReports(since, log)
      modifies this`reports, this`log
      ensures Valid() && OnlyReports(since, log)
      ensures ended.None? ==> Waiting(fs, lastErr, pending, cases) && |cases| < |cases0|
      ensures ended.Some? ==>
        (ended.value == AnyReady && ReadyAmong(fs)) || (ended.value == Blocked && HangsAmong(fs))
    {
      lastErr, pending, cases := lastErr0, pending0, cases0;
      PendingIssued(fs, lastErr, pending, cases);
      if forall k :: 0 <= k < |cases| ==> Eventually(env, issued, cases[k]).None? {
        BlockedHangs(fs, lastErr, pending, cases);
        return Some(Blocked), lastErr, pending, cases;
      }
      ghost var before := reports;
      var i := Await(cases);
      WaitingKept(fs, lastErr, pending, cases, before);
      var f := pending[i];
      if reports[f] == Ready {
        assert Some(f) in fs;
        return Some(AnyReady), lastErr, pending, cases;
      }
      OneFailed(fs, lastErr, pending, cases, i);
      lastErr := Some(reports[f].error);
      pending := pending[i := pending[|pending| - 1]];
      cases := cases[i := cases[|cases| - 1]];
      pending := pending[..|pending| - 1];
      cases := cases[..|cases| - 1];
      ended := None;
    }

    /**
     For every order of reports: ready when some future gets ready, failed when all fail, else the wait never ends.
     */
    method WaitAnyReady(fs: seq<Option<Future>>) returns (r: WaitResult)
      requires Valid() && IssuedAll(fs)
      modifies this`reports, this`log
      ensures Valid() && OnlyReports(old(log), log)
      ensures r == NoInstance <==> fs == []
      ensures r == AnyReady ==> ReadyAmong(fs)
      ensures r.AllFailed? ==> AllFailedAmong(fs, r.error)
      ensures r == Blocked ==> HangsAmong(fs)
    {
      if |fs| == 0 {
        return NoInstance;
      }
      var done, lastErr, pending, cases := Poll(fs);
      if done {
        return AnyReady;
      }
      while |cases| > 0
        invariant Valid() && OnlyReports(old(log), log)
        invariant Waiting(fs, lastErr, pending, cases)
        decreases |cases|
      {
        var ended;
        ended, lastErr, pending, cases := WaitOnce(fs, lastErr, pending, cases, old(log));
        if ended.Some? {
          return ended.value;
        }
      }
      assert fs[0] in fs;
      return AllFailed(lastErr.value);
    }

    /** A future that failed leaves the two lists by a swap with their last entries. */
    lemma OneFailed(fs: seq<Option<Future>>, lastErr: Option<string>, pending: seq<Future>, cases: seq<Future>, i: nat)
      requires Waiting(fs, lastErr, pending, cases) && i < |pending|
      requires pending[i] in reports && reports[pending[i]].NotReady?
      ensures Waiting(fs, Some(reports[pending[i]].error), pending[i := pending[|pending| - 1]][..|pending| - 1],
                      cases[i := cases[|cases| - 1]][..|cases| - 1])
    {
      SwapRemoveKeeps(pending, i);
      assert pending[i] in pending && Some(pending[i]) in fs;
    }

    lemma PendingIssued(fs: seq<Option<Future>>, lastErr: Option<string>, pending: seq<Future>, cases: seq<Future>)
      requires Waiting(fs, lastErr, pending, cases) && IssuedAll(fs)
      ensures forall k :: 0 <= k < |cases| ==> cases[k] < |issued|
    {
      forall k | 0 <= k < |cases| ensures cases[k] < |issued| {
        assert cases[k] in pending && Some(cases[k]) in fs;
      }
    }

    lemma BlockedHangs(fs: seq<Option<Future>>, lastErr: Option<string>, pending: seq<Future>, cases: seq<Future>)
      requires Valid() && Waiting(fs, lastErr, pending, cases) && IssuedAll(fs) && cases != []
      requires forall k :: 0 <= k < |cases| ==> cases[k] < |issued| && Eventually(env, issued, cases[k]).None?
      ensures HangsAmong(fs)
    {
      assert cases[0] in pending && Some(cases[0]) in fs;
      forall o | o in fs ensures o.Some? && o.value < |issued| && Eventually(env, issued, o.value) != Some(Ready) {
        if o.value in pending {
          var k :| 0 <= k < |pending| && pending[k] == o.value;
          assert cases[k] == o.value;
        }
      }
    }

    static lemma SwapRemoveKeeps(s: seq<Future>, i: nat)
      requires i < |s|
      ensures var t := s[i := s[|s| - 1]][..|s| - 1];
        forall f :: (f in t ==> f in s) && (f in s && f != s[i] ==> f in t)
    {
      var t := s[i := s[|s| - 1]][..|s| - 1];
      forall f | f in s && f != s[i] ensures f in t {
        var k :| 0 <= k < |s| && s[k] == f;
        if k == |s| - 1 {
          assert t[i] == f;
        } else {
          assert t[k] == f;
        }
      }
    }

    /** A ready future of a service means that the log shows a ready instance. */
    lemma ReadyIsLogged(service: ServiceID, f: Future)
      requires Valid() && f in Futures(service) && f in reports && reports[f] == Ready
      ensures HasReady(log, service)
    {
    }

    /** When nothing started of a service gets ready, the log shows no ready instance. */
    lemma NothingReady(service: ServiceID)
      requires Valid() && StatusOf(service) != Up
      ensures !HasReady(log, service)
    {
      forall i, j | 0 <= i < j < |log| && log[i].Started? && log[i].service == service
        ensures log[j] != Reported(log[i].future, Ready)
      {
        assert KnownEvent(log[i], readyMap, reports) && KnownEvent(log[j], readyMap, reports);
        var f := log[i].future;
        assert f in Futures(service) && f < |issued|;
      }
    }

    /** Waits for any instance of one service. */
    method WaitService(service: ServiceID) returns (r: WaitResult)
      requires Valid()
      modifies this`reports, this`log
      ensures Valid() && OnlyReports(old(log), log)
      ensures r == NoInstance <==> Futures(service) == []
      ensures r == AnyReady ==> HasReady(log, service) && StatusOf(service) == Up
      ensures r.AllFailed? ==> StatusOf(service) == Down
      ensures r == Blocked ==> StatusOf(service) == Hangs
    {
      var fs := Futures(service);
      var refs := seq(|fs|, i requires 0 <= i < |fs| => Some(fs[i]));
      assert IssuedAll(refs) by {
        assert forall i :: 0 <= i < |fs| ==> fs[i] in fs;
      }
      r := WaitAnyReady(refs);
      StatusFromWait(fs, refs, r);
      if r == AnyReady {
        ghost var f :| Some(f) in refs && f in reports && reports[f] == Ready;
        ReadyIsLogged(service, f);
      }
    }

    lemma StatusFromWait(fs: seq<Future>, refs: seq<Option<Future>>, r: WaitResult)
      requires Valid() && |refs| == |fs| && forall i :: 0 <= i < |fs| ==> refs[i] == Some(fs[i])
      requires r == AnyReady ==> ReadyAmong(refs)
      requires r.AllFailed? ==> AllFailedAmong(refs, r.error)
      requires r == Blocked ==> HangsAmong(refs)
      ensures r == AnyReady ==> StatusFrom(env, issued, fs) == Up
      ensures r.AllFailed? ==> StatusFrom(env, issued, fs) == Down
      ensures r == Blocked ==> StatusFrom(env, issued, fs) == Hangs
    {
      assert forall f :: f in fs <==> Some(f) in refs by {
        forall f | f in fs ensures Some(f) in refs {
          var i :| 0 <= i < |fs| && fs[i] == f;
          assert refs[i] == Some(f);
        }
      }
    }

    /** Waits for a dependency of which something was started. */
    method WaitFor(service: ServiceID, dep: ServiceID) returns (err: Option<StartError>)
      requires Valid()
      modifies this`reports, this`log
      ensures Valid() && OnlyReports(old(log), log)
      ensures err.None? ==> HasReady(log, dep) && StatusOf(dep) == Up
      ensures err.Some? ==> DependencyFailed(service, dep, err.value) && !HasReady(log, dep)
    {
      if |Futures(dep)| == 0 {
        NothingReady(dep);
        return Some(NotStarted(service, dep));
      }
      var r := WaitService(dep);
      if r.AllFailed? {
        NothingReady(dep);
        return Some(WaitFailed(r.error));
      }
      if r == Blocked {
        NothingReady(dep);
        return Some(NeverReady);
      }
      return None;
    }

    /** Why a wait on a dependency gave up: it is down, with or without a start, or it hangs. */
    ghost predicate DependencyFailed(service: ServiceID, dep: ServiceID, e: StartError)
      reads this`readyMap, this`issued
    {
      match e
      case NotStarted(s, d) => s == service && d == dep && Futures(dep) == [] && StatusOf(dep) == Down
      case WaitFailed(_) => Futures(dep) != [] && StatusOf(dep) == Down
      case NeverReady => StatusOf(dep) == Hangs
      case StartFailed(_) => false
    }

    /** The k-th dependency is the first that fails. */
    ghost predicate FailsFirst(service: ServiceID, deps: seq<ServiceID>, k: nat, e: StartError)
      reads this
    {
      && k < |deps| && Awaited(planned, deps[k]) && DependencyFailed(service, deps[k], e) && !HasReady(log, deps[k])
      && forall j :: 0 <= j < k && Awaited(planned, deps[j]) ==> StatusOf(deps[j]) == Up
    }

    /** waitStartAfter. None means that the service may start. */
    method WaitStartAfter(service: ServiceID, deps: seq<ServiceID>) returns (err: Option<StartError>, ghost at: nat)
      requires Valid()
      modifies this`reports, this`log
      ensures Valid() && OnlyReports(old(log), log)
      ensures err.None? ==> forall d :: d in deps && Awaited(planned, d) ==> HasReady(log, d) && StatusOf(d) == Up
      ensures err.Some? ==> FailsFirst(service, deps, at, err.value)
    {
      at := 0;
      for k := 0 to |deps|
        invariant Valid() && OnlyReports(old(log), log)
        invariant forall i :: 0 <= i < k && Awaited(planned, deps[i]) ==>
          HasReady(log, deps[i]) && StatusOf(deps[i]) == Up
      {
        var dep := deps[k];
        if dep == "" {
          continue;
        }
        if !HasInstances(planned, dep) {
          continue;
        }
        ghost var before := log;
        err := WaitFor(service, dep);
        if err.Some? {
          at := k;
          return;
        }
        forall i | 0 <= i < k && Awaited(planned, deps[i]) ensures HasReady(log, deps[i]) {
          HasReadyGrows(before, log, deps[i]);
        }
      }
      return None, 0;
    }

    /** startProc: the controller may refuse the start. */
    method StartProc(service: ServiceID, instance: nat) returns (started: bool, err: Option<StartError>)
      requires Valid() && AddressesListed() && service in Services(plans) && !Dealt(log, service, instance)
      requires service in planned && instance in planned[service]
      requires forall d :: MustPrecede(plans, planned, service, d) ==> HasReady(log, d)
      modifies this`readyMap, this`readySet, this`issued, this`log
      ensures Valid() && AddressesListed() && started == !env.refuses(service, instance)
      ensures log ==
        old(log) + [if started then Started(service, instance, |old(issued)|) else Refused(service, instance)]
      ensures readyMap ==
        if started then old(readyMap)[service := old(Futures(service)) + [|old(issued)|]] else old(readyMap)
      ensures issued == if started then old(issued) + [(service, instance)] else old(issued)
      ensures err == if !started && IsRequired(required, service) then Some(StartFailed(service)) else None
    {
      if env.refuses(service, instance) {
        Extends(Refused(service, instance));
        log := log + [Refused(service, instance)];
        return false, if IsRequired(required, service) then Some(StartFailed(service)) else None;
      }
      var f := |issued|;
      var readyMap' := readyMap[service := Futures(service) + [f]];
      StartExtends(Started(service, instance, f), readyMap');
      AddressesExtend(env, issued, readyMap, readySet, service, instance);
      readySet := File(readySet, service, env.addr(service, instance), f);
      issued := issued + [(service, instance)];
      log := log + [Started(service, instance, f)];
      readyMap := readyMap';
      return true, None;
    }

    lemma StartExtends(e: Event, readyMap': map<ServiceID, seq<Future>>)
      requires Valid() && e.Started? && FromPlan(e, plans, planned) && !Dealt(log, e.service, e.instance)
      requires forall d :: MustPrecede(plans, planned, e.service, d) ==> HasReady(log, d)
      requires e.future == |issued| && readyMap' == readyMap[e.service := Futures(e.service) + [|issued|]]
      ensures StartsSafe(log + [e], plans, planned) && (StartOrder(plans) ==> AttemptsOrdered(log + [e], plans))
      ensures forall s, g :: s in readyMap' && g in readyMap'[s] ==> Tracked(log + [e], reports, s, g)
      ensures Known(log + [e], readyMap', reports) && SkipsJustified(log + [e], plans, planned) &&
        SettlesOnce(log + [e])
    {
      SafeExtends(log, e, plans, planned);
      if StartOrder(plans) {
        AttemptsExtend(log, e, plans);
      }
      KnownExtends(log, e, readyMap, readyMap', reports, reports);
      SkipsExtend(log, e, plans, planned);
      OnceExtends(log, e);
      assert (log + [e])[|log|] == e;
      assert Tracked(log + [e], reports, e.service, |issued|);
      forall s, g | s in readyMap' && g in readyMap'[s] ensures Tracked(log + [e], reports, s, g) {
        if g in Futures(s) {
          TrackedGrows(log, e, reports, reports, s, g);
        }
      }
    }

    /** Notes that the plan has reached a service. */
    ghost method Reach(n: nat)
      requires Valid() && n < |plans| && DistinctServices(plans)
      requires forall i :: 0 <= i < n ==> WasAttempted(log, plans[i].service)
      modifies this`log
      ensures Valid() && log == old(log) + [Attempted(plans[n].service)]
      ensures WasAttempted(log, plans[n].service)
    {
      var e := Attempted(plans[n].service);
      assert plans[n] in plans;
      if StartOrder(plans) {
        forall p, d | p in plans && p.service == e.service && d in p.startAfter ensures WasAttempted(log, d) {
          assert p == plans[n];
          assert d in Services(plans[..n]);
        }
      }
      Extends(e);
      log := log + [e];
      assert log[|log| - 1] == e;
    }

    /** Notes that a service was skipped, its starting tasks marked with the error. */
    ghost method Skip(service: ServiceID)
      requires Valid() && service in Services(plans) && Lacks(log, plans, planned, service)
      modifies this`log
      ensures Valid() && log == old(log) + [Skipped(service)] && Settled(log, planned, service)
    {
      Extends(Skipped(service));
      log := log + [Skipped(service)];
      assert log[|log| - 1] == Skipped(service);
    }

    /** What starting a service changes: its own futures, and events of its own. */
    ghost predicate OnlyStarted(service: ServiceID, log0: seq<Event>, issued0: Issued,
                                readyMap0: map<ServiceID, seq<Future>>)
      reads this
    {
      && log0 <= log && (forall k :: |log0| <= k < |log| ==> !log[k].Reported? && log[k].service == service)
      && OthersKept(service, issued0, readyMap0)
    }

    /** Only futures of this service were added. */
    ghost predicate OthersKept(service: ServiceID, issued0: Issued, readyMap0: map<ServiceID, seq<Future>>)
      reads this`readyMap, this`issued
    {
      issued0 <= issued && forall s :: s != service ==> Futures(s) == FuturesIn(readyMap0, s)
    }

    /** Nothing started means no futures. */
    lemma UntouchedIsEmpty(service: ServiceID)
      requires Valid() && Untouched(log, service)
      ensures Futures(service) == []
    {
      SomeMember(Futures(service));
    }

    /** What the loop over the instances keeps. */
    ghost predicate Starting(service: ServiceID, i: nat)
      reads this
    {
      var instances := Instances(planned, service);
      && i <= |instances| && FirstDealt(service, instances, i, log)
      && Covers(env, issued, service, Futures(service), instances[..i])
      && (IsRequired(required, service) ==> forall j :: 0 <= j < i ==> !env.refuses(service, instances[j]))
    }

    /** One instance of the service. */
    method StartNext(service: ServiceID, i: nat, ghost log0: seq<Event>, ghost issued0: Issued,
                     ghost readyMap0: map<ServiceID, seq<Future>>)
      returns (err: Option<StartError>)
      requires Valid() && AddressesListed() && service in Services(plans) && i < |Instances(planned, service)|
      requires Distinct(Instances(planned, service)) && Starting(service, i) &&
        OnlyStarted(service, log0, issued0, readyMap0)
      modifies this`readyMap, this`readySet, this`issued, this`log
      ensures Valid() && AddressesListed() && OnlyStarted(service, log0, issued0, readyMap0)
      ensures err.None? ==> Starting(service, i + 1)
      ensures err.Some? ==>
        err.value == StartFailed(service) && IsRequired(required, service) && SomeRefused(env, planned, service)
    {
      var instances := Instances(planned, service);
      ghost var before := log;
      CoversOne(env, issued, service, Futures(service), instances[..i], instances[i]);
      assert instances[..i + 1] == instances[..i] + [instances[i]];
      var started;
      started, err := StartProc(service, instances[i]);
      assert OthersKept(service, issued0, readyMap0) && log == before + [log[|before|]];
      if err.None? {
        InstanceDone(service, instances, i, before);
      }
    }

    /** The instances of one service, once its dependencies are ready. */
    method StartInstances(service: ServiceID) returns (err: Option<StartError>)
      requires Valid() && AddressesListed() && service in Services(plans) && Untouched(log, service)
      requires Distinct(Instances(planned, service))
      requires forall d :: MustPrecede(plans, planned, service, d) ==> HasReady(log, d)
      modifies this`readyMap, this`readySet, this`issued, this`log
      ensures Valid() && AddressesListed() && OnlyStarted(service, old(log), old(issued), old(readyMap))
      ensures err.None? ==> Settled(log, planned, service)
      ensures err.None? ==> Covers(env, issued, service, Futures(service), Instances(planned, service))
      ensures err.Some? <==> IsRequired(required, service) && SomeRefused(env, planned, service)
      ensures err.Some? ==> err.value == StartFailed(service)
    {
      var instances := Instances(planned, service);
      UntouchedIsEmpty(service);
      for i := 0 to |instances|
        invariant Valid() && AddressesListed() && Starting(service, i)
        invariant OnlyStarted(service, old(log), old(issued), old(readyMap))
      {
        err := StartNext(service, i, old(log), old(issued), old(readyMap));
        if err.Some? {
          return;
        }
      }
      assert instances[..|instances|] == instances;
      return None;
    }

    /** The dependencies are ready, and of the instances exactly the first i were dealt with. */
    ghost predicate FirstDealt(service: ServiceID, instances: seq<nat>, i: nat, log: seq<Event>) {
      && (forall d :: MustPrecede(plans, planned, service, d) ==> HasReady(log, d))
      && forall j :: 0 <= j < |instances| ==> (Dealt(log, service, instances[j]) <==> j < i)
    }

    lemma InstanceDone(service: ServiceID, instances: seq<nat>, i: nat, before: seq<Event>)
      requires i < |instances| && Distinct(instances) && before < log && log == before + [log[|before|]]
      requires Settles(log[|before|], service, instances[i]) && FirstDealt(service, instances, i, before)
      ensures FirstDealt(service, instances, i + 1, log)
    {
      forall d | MustPrecede(plans, planned, service, d) ensures HasReady(log, d) {
        HasReadyGrows(before, log, d);
      }
      forall j | 0 <= j < |instances| ensures Dealt(log, service, instances[j]) <==> j <= i {
        DealtOne(before, log[|before|], service, instances[j]);
      }
    }

    /** What the log shows once startPlanned has passed the first n plans. */
    ghost predicate PassedPlans(log: seq<Event>, n: nat)
      requires n <= |plans|
    {
      && (forall i :: 0 <= i < n ==> WasAttempted(log, plans[i].service) && Settled(log, planned, plans[i].service))
      && (forall i :: n <= i < |plans| ==> Untouched(log, plans[i].service))
    }

    lemma PassOne(n: nat, before: seq<Event>, reached: seq<Event>, after: seq<Event>)
      requires n < |plans| && DistinctServices(plans) && PassedPlans(before, n)
      requires reached == before + [Attempted(plans[n].service)] && OnlyConcerns(reached, after, plans[n].service)
      requires Settled(after, planned, plans[n].service)
      ensures PassedPlans(after, n + 1)
    {
      assert reached[|before|] == Attempted(plans[n].service);
      AttemptsGrow(reached, after, plans[n].service);
      forall i | 0 <= i < n ensures WasAttempted(after, plans[i].service) && Settled(after, planned, plans[i].service) {
        AttemptsGrow(before, after, plans[i].service);
        SettledGrows(before, after, planned, plans[i].service);
      }
    }

    /** Only reports and events of one service happened in between. */
    static ghost predicate OnlyConcerns(before: seq<Event>, after: seq<Event>, service: ServiceID) {
      before <= after && forall k :: |before| <= k < |after| ==> after[k].Reported? || after[k].service == service
    }

    lemma DependenciesReady(n: nat)
      requires n < |plans| && DistinctServices(plans)
      requires forall d :: d in plans[n].startAfter && Awaited(planned, d) ==> HasReady(log, d)
      ensures forall d :: MustPrecede(plans, planned, plans[n].service, d) ==> HasReady(log, d)
    {
      forall d | MustPrecede(plans, planned, plans[n].service, d) ensures HasReady(log, d) {
        var p :| p in plans && p.service == plans[n].service && d in p.startAfter && d != "" &&
          HasInstances(planned, d);
        assert p == plans[n];
      }
    }

    lemma MissingDependency(n: nat, k: nat, e: StartError, fates: Fates)
      requires n < |plans| && FailsFirst(plans[n].service, plans[n].startAfter, k, e) && Matches(fates)
      ensures Lacks(log, plans, planned, plans[n].service)
      ensures FirstMissing(plans[n].startAfter, planned, fates) == Some(plans[n].startAfter[k])
      ensures FateIn(fates, plans[n].startAfter[k]) == StatusOf(plans[n].startAfter[k])
    {
      assert plans[n] in plans;
      assert MustPrecede(plans, planned, plans[n].service, plans[n].startAfter[k]);
      FirstMissingAt(plans[n].startAfter, planned, fates, k);
    }

    /** After the instances of a service were started, the fates of all are known once more. */
    lemma MatchesNext(service: ServiceID, fates: Fates, issued0: Issued, readyMap0: map<ServiceID, seq<Future>>)
      requires forall s :: StatusFrom(env, issued0, FuturesIn(readyMap0, s)) == FateIn(fates, s)
      requires forall s, f :: s in readyMap0 && f in readyMap0[s] ==> f < |issued0|
      requires issued0 <= issued && forall s :: s != service ==> Futures(s) == FuturesIn(readyMap0, s)
      requires Covers(env, issued, service, Futures(service), Instances(planned, service))
      ensures Matches(fates[service := Fate(env, service, Instances(planned, service))])
    {
      StatusIsFate(env, issued, service, Futures(service), Instances(planned, service));
      forall s | s != service ensures StatusOf(s) == FateIn(fates, s) {
        StatusKept(env, issued0, issued, FuturesIn(readyMap0, s));
      }
    }

    /** Starts the instances, keeping track of the fates. */
    method StartMatched(service: ServiceID, ghost fates: Fates) returns (err: Option<StartError>)
      requires Valid() && AddressesListed() && service in Services(plans) && Untouched(log, service)
      requires Distinct(Instances(planned, service))
      requires (forall d :: MustPrecede(plans, planned, service, d) ==> HasReady(log, d)) && Matches(fates)
      modifies this`readyMap, this`readySet, this`issued, this`log
      ensures Valid() && AddressesListed() && OnlyConcerns(old(log), log, service)
      ensures err.Some? <==> IsRequired(required, service) && SomeRefused(env, planned, service)
      ensures err.Some? ==> err.value == StartFailed(service)
      ensures err.None? ==> Settled(log, planned, service)
      ensures err.None? ==> Matches(fates[service := Fate(env, service, Instances(planned, service))])
      ensures OthersKept(service, old(issued), old(readyMap))
      ensures err.None? ==> Covers(env, issued, service, Futures(service), Instances(planned, service))
    {
      ghost var issued0, readyMap0 := issued, readyMap;
      err := StartInstances(service);
      if err.None? {
        MatchesNext(service, fates, issued0, readyMap0);
      }
    }

    /** The error reports the trouble that the fates foretell for the n-th service; without trouble there is none. */
    ghost predicate Foretold(n: nat, fates: Fates, err: Option<StartError>)
      requires n < |plans|
    {
      match Trouble(env, planned, required, plans[n], fates)
      case None => err.None?
      case Some(v) => err.Some? && Agrees(err.value, v)
    }

    /** Of the n-th service exactly those instances were started that are not refused, or none if it was skipped. */
    ghost predicate StartedAs(n: nat, fates: Fates)
      requires n < |plans|
      reads this`readyMap, this`issued
    {
      Covers(env, issued, plans[n].service, Futures(plans[n].service), Tried(planned, plans[n], fates))
    }

    /** The same of the first n services. */
    ghost predicate Launched(n: nat)
      requires n <= |plans|
      reads this`readyMap, this`issued
    {
      forall i: nat :: i < n ==> StartedAs(i, FatesOf(env, planned, plans, i))
    }

    lemma LaunchedNext(n: nat, issued0: Issued, readyMap0: map<ServiceID, seq<Future>>)
      requires n < |plans| && DistinctServices(plans) && OthersKept(plans[n].service, issued0, readyMap0)
      requires forall i: nat :: i < n ==>
        Covers(env, issued0, plans[i].service, FuturesIn(readyMap0, plans[i].service),
               Tried(planned, plans[i], FatesOf(env, planned, plans, i)))
      requires StartedAs(n, FatesOf(env, planned, plans, n))
      ensures Launched(n + 1)
    {
      forall i: nat | i < n ensures StartedAs(i, FatesOf(env, planned, plans, i)) {
        CoversKept(env, issued0, issued, plans[i].service, Futures(plans[i].service),
                   Tried(planned, plans[i], FatesOf(env, planned, plans, i)));
      }
    }

    /** A service that waits in vain ends the boot when it is required or waits forever; else it is skipped. */
    method GiveUp(n: nat, e: StartError, ghost at: nat, ghost fates: Fates) returns (err: Option<StartError>)
      requires Valid() && n < |plans| && Untouched(log, plans[n].service) && Matches(fates)
      requires FailsFirst(plans[n].service, plans[n].startAfter, at, e)
      modifies this`log
      ensures Valid() && OnlyConcerns(old(log), log, plans[n].service)
      ensures Foretold(n, fates, err)
      ensures err.None? ==>
        Settled(log, planned, plans[n].service) &&
          Matches(fates[plans[n].service := NextFate(env, planned, plans[n], fates)])
      ensures err.None? ==> Futures(plans[n].service) == [] == Tried(planned, plans[n], fates)
    {
      var service := plans[n].service;
      assert plans[n] in plans;
      MissingDependency(n, at, e, fates);
      if e == NeverReady || IsRequired(required, service) {
        return Some(e);
      }
      UntouchedIsEmpty(service);
      Skip(service);
      return None;
    }

    /** Waits for the dependencies of the n-th plan, then starts its instances or gives it up. */
    method StartOrSkip(n: nat, ghost fates: Fates) returns (err: Option<StartError>)
      requires Valid() && AddressesListed() && n < |plans| && DistinctServices(plans)
      requires Untouched(log, plans[n].service) && Matches(fates)
      requires Distinct(Instances(planned, plans[n].service))
      modifies this
      ensures Valid() && AddressesListed() && OnlyConcerns(old(log), log, plans[n].service)
      ensures Foretold(n, fates, err)
      ensures err.None? ==>
        Settled(log, planned, plans[n].service) &&
          Matches(fates[plans[n].service := NextFate(env, planned, plans[n], fates)])
      ensures OthersKept(plans[n].service, old(issued), old(readyMap))
      ensures err.None? ==> StartedAs(n, fates)
    {
      assert plans[n] in plans;
      ghost var at;
      err, at := WaitStartAfter(plans[n].service, plans[n].startAfter);
      ghost var waited := log;
      if err.None? {
        DependenciesReady(n);
        AllAwaitedUp(n, fates);
        err := StartMatched(plans[n].service, fates);
      } else {
        err := GiveUp(n, err.value, at, fates);
      }
      ConcernsAfterReports(old(log), waited, log, plans[n].service);
    }

    lemma AllAwaitedUp(n: nat, fates: Fates)
      requires n < |plans| && Matches(fates)
      requires forall d :: d in plans[n].startAfter && Awaited(planned, d) ==> StatusOf(d) == Up
      ensures FirstMissing(plans[n].startAfter, planned, fates).None?
    {
    }

    static lemma ConcernsAfterReports(a: seq<Event>, b: seq<Event>, c: seq<Event>, service: ServiceID)
      requires OnlyReports(a, b) && OnlyConcerns(b, c, service)
      ensures OnlyConcerns(a, c, service)
    {
    }

    /** The boot ends in the first trouble of the plan, and otherwise passes every service. */
    ghost predicate PlanOutcome(err: Option<StartError>) {
      match err
      case None => NoTrouble(env, planned, required, plans, |plans|)
      case Some(e) => exists n, v :: FirstTrouble(env, planned, required, plans, n, v) && Agrees(e, v)
    }

    lemma TroubleStep(n: nat, err: Option<StartError>)
      requires n < |plans| && NoTrouble(env, planned, required, plans, n)
      requires Foretold(n, FatesOf(env, planned, plans, n), err)
      ensures err.None? ==> NoTrouble(env, planned, required, plans, n + 1)
      ensures err.Some? ==> PlanOutcome(err)
    {
      if err.Some? {
        var v := Trouble(env, planned, required, plans[n], FatesOf(env, planned, plans, n)).value;
        assert FirstTrouble(env, planned, required, plans, n, v);
      }
    }

    /** What startPlanned's loop keeps. */
    ghost predicate OnCourse(n: nat)
      requires n <= |plans|
      reads this
    {
      && PassedPlans(log, n) && Matches(FatesOf(env, planned, plans, n)) && Launched(n)
      && NoTrouble(env, planned, required, plans, n)
    }

    /** One round of startPlanned's loop. */
    method StartService(n: nat) returns (err: Option<StartError>)
      requires Valid() && AddressesListed() && n < |plans| && DistinctServices(plans) && OnCourse(n)
      requires Distinct(Instances(planned, plans[n].service))
      modifies this
      ensures Valid() && AddressesListed()
      ensures err.None? ==> OnCourse(n + 1)
      ensures err.Some? ==> PlanOutcome(err)
    {
      ghost var before, issued0, readyMap0 := log, issued, readyMap;
      Reach(n);
      ghost var reached := log;
      err := StartOrSkip(n, FatesOf(env, planned, plans, n));
      TroubleStep(n, err);
      if err.None? {
        PassOne(n, before, reached, log);
        LaunchedNext(n, issued0, readyMap0);
      }
    }

    /** startPlanned. A required service that cannot start ends the boot; any other is skipped. */
    method StartPlanned() returns (err: Option<StartError>)
      requires Valid() && AddressesListed() && DistinctServices(plans) && log == [] && Matches(map[])
      requires forall s :: Distinct(Instances(planned, s))
      modifies this
      ensures Valid() && AddressesListed() && PlanOutcome(err)
      ensures err.None? ==> OnCourse(|plans|)
    {
      for n := 0 to |plans|
        invariant Valid() && AddressesListed() && OnCourse(n)
      {
        err := StartService(n);
        if err.Some? {
          return;
        }
      }
      return None;
    }

    /** The required services in a fixed order. */
    method RequiredList() returns (list: seq<ServiceID>)
      ensures (forall s :: s in list <==> IsRequired(required, s)) && Sorted(list, CompareStrings)
    {
      list := [];
      var rest := required.Keys;
      while rest != {}
        invariant rest <= required.Keys
        invariant forall s :: s in list <==> IsRequired(required, s) && s !in rest
        decreases rest
      {
        var s :| s in rest;
        rest := rest - {s};
        if s == "" || required[s] <= 0 {
          continue;
        }
        list := list + [s];
      }
      SameMembers(list, StableSort(list, CompareStrings));
      CompareStringsTotal();
      StableSortSorted(list, CompareStrings);
      list := StableSort(list, CompareStrings);
    }

    /** One more service of the list. */
    method WaitNext(list: seq<ServiceID>, k: nat, ghost since: seq<Event>) returns (err: Option<StartError>)
      requires Valid() && OnlyReports(since, log) && k < |list| && AllReady(log, list[..k]) && AllUp(list[..k])
      modifies this`reports, this`log
      ensures Valid() && OnlyReports(since, log)
      ensures err.None? ==> AllReady(log, list[..k + 1]) && AllUp(list[..k + 1])
      ensures err.Some? ==> DependencyFailed(list[k], list[k], err.value)
    {
      ghost var before := log;
      err := WaitFor(list[k], list[k]);
      OnlyReportsChain(since, before, log);
      AllReadyGrow(before, log, list[..k]);
      assert list[..k + 1] == list[..k] + [list[k]];
    }

    /** Waits for each of the listed services in turn. */
    method WaitEach(list: seq<ServiceID>) returns (err: Option<StartError>, ghost at: nat)
      requires Valid()
      modifies this`reports, this`log
      ensures Valid() && OnlyReports(old(log), log)
      ensures err.None? ==> AllReady(log, list) && AllUp(list)
      ensures err.Some? ==> at < |list| && DependencyFailed(list[at], list[at], err.value) && AllUp(list[..at])
    {
      at := 0;
      for k := 0 to |list|
        invariant Valid() && OnlyReports(old(log), log)
        invariant AllReady(log, list[..k]) && AllUp(list[..k])
      {
        at := k;
        err := WaitNext(list, k, old(log));
        if err.Some? {
          return;
        }
      }
      assert list[..|list|] == list;
      return None, 0;
    }

    static ghost predicate AllReady(log: seq<Event>, list: seq<ServiceID>) {
      forall s :: s in list ==> HasReady(log, s)
    }

    ghost predicate AllUp(list: seq<ServiceID>)
      reads this`readyMap, this`issued
    {
      forall s :: s in list ==> StatusOf(s) == Up
    }

    static lemma AllReadyGrow(log: seq<Event>, log': seq<Event>, list: seq<ServiceID>)
      requires log <= log' && AllReady(log, list)
      ensures AllReady(log', list)
    {
      forall s | s in list ensures HasReady(log', s) {
        HasReadyGrows(log, log', s);
      }
    }

    /** The required service of least name that is not up, if any, decides. */
    ghost predicate RequiredOutcome(err: Option<StartError>)
      reads this`readyMap, this`issued
    {
      match err
      case None => forall s :: IsRequired(required, s) ==> StatusOf(s) == Up
      case Some(e) => exists s :: IsRequired(required, s) && LeastNotUp(s) && DependencyFailed(s, s, e)
    }

    ghost predicate LeastNotUp(s: ServiceID)
      reads this`readyMap, this`issued
    {
      StatusOf(s) != Up && forall x :: IsRequired(required, x) && CompareStrings(x, s) < 0 ==> StatusOf(x) == Up
    }

    /** waitRequiredReady. */
    method WaitRequiredReady() returns (err: Option<StartError>)
      requires Valid()
      modifies this`reports, this`log
      ensures Valid() && OnlyReports(old(log), log) && RequiredOutcome(err)
      ensures err.None? ==> forall s :: IsRequired(required, s) ==> HasReady(log, s)
    {
      var list := RequiredList();
      ghost var at;
      err, at := WaitEach(list);
      if err.Some? {
        FirstIsLeast(list, at);
        assert IsRequired(required, list[at]);
      }
    }

    lemma FirstIsLeast(list: seq<ServiceID>, at: nat)
      requires (forall s :: s in list <==> IsRequired(required, s)) && Sorted(list, CompareStrings)
      requires at < |list| && StatusOf(list[at]) != Up && AllUp(list[..at])
      ensures LeastNotUp(list[at])
    {
      forall x | IsRequired(required, x) && CompareStrings(x, list[at]) < 0 ensures StatusOf(x) == Up {
        var j :| 0 <= j < |list| && list[j] == x;
        if j > at {
          CompareStringsAntisymmetric(list[at], x);
        } else if j < at {
          assert list[..at][j] == x;
        }
      }
    }

    /** waitReadyAddrs; None when one of the waits never ends. */
    method WaitReadyAddrs(rs: seq<ReadyAddr>) returns (succ: Option<seq<string>>)
      requires Valid() && forall r :: r in rs && r.ready.Some? ==> r.ready.value < |issued|
      modifies this`reports, this`log
      ensures Valid() && OnlyReports(old(log), log)
      ensures succ.None? <==> exists r :: r in rs && EndsWith(env, issued, r, None)
      ensures succ.Some? ==> succ.value == ReadyAddrs(env, issued, rs)
    {
      var addrs: seq<string> := [];
      for k := 0 to |rs|
        invariant Valid() && OnlyReports(old(log), log)
        invariant forall r :: r in rs[..k] ==> !EndsWith(env, issued, r, None)
        invariant addrs == ReadyAddrs(env, issued, rs[..k])
      {
        var r := rs[k];
        assert r in rs && rs[..k + 1] == rs[..k] + [r];
        if r.ready.Some? {
          var f := r.ready.value;
          if Eventually(env, issued, f).None? {
            assert EndsWith(env, issued, r, None);
            return None;
          }
          assert Eventually(env, issued, [f][0]).Some?;
          var i := Await([f]);
          if reports[f] == Ready {
            addrs := addrs + [r.addr];
          }
          continue;
        }
        addrs := addrs + [r.addr];
      }
      assert rs[..|rs|] == rs;
      return Some(addrs);
    }
  }
}
