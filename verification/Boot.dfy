/** A whole boot, from the enabled services to the ready cluster (bootCluster). */
module Boot {
  import opened BootFates
  import opened BootOutcome
  import opened BootPlan
  import opened BootStart
  import opened Orders
  import opened Results
  import opened ServiceGraph
  import opened TopoSort

  /** What a boot leaves: the futures of the started instances, and the addresses that are shown. */
  datatype Booted = Booted(ready: map<ServiceID, seq<Future>>, tidb: seq<string>, tiproxy: seq<string>)

  datatype BootError = Cycle(services: seq<ServiceID>) | Plan(plan: PlanError) | Start(start: StartError)

  /** The whole-run promise, in terms of the declared dependencies alone. */
  ghost predicate DependenciesReadyFirst(log: seq<Event>, specs: Specs, starting: set<ServiceID>) {
    forall k, d :: 0 <= k < |log| && log[k].Started? && DependsOn(specs, starting, log[k].service, d) && d != "" ==>
      HasReady(log[..k], d)
  }

  /** When a service is reached, every dependency that starts at all has been reached. */
  ghost predicate DependenciesReachedFirst(log: seq<Event>, specs: Specs, starting: set<ServiceID>) {
    forall k, d :: 0 <= k < |log| && log[k].Attempted? && DependsOn(specs, starting, log[k].service, d) && d != "" ==>
      WasAttempted(log[..k], d)
  }

  /** A service is given up only when a declared dependency that starts has no ready instance. */
  ghost predicate SkippedForCause(log: seq<Event>, specs: Specs, starting: set<ServiceID>) {
    forall k :: 0 <= k < |log| && log[k].Skipped? ==> LacksDeclared(log[..k], specs, starting, log[k].service)
  }

  ghost predicate LacksDeclared(log: seq<Event>, specs: Specs, starting: set<ServiceID>, service: ServiceID) {
    exists d :: DependsOn(specs, starting, service, d) && !HasReady(log, d)
  }

  /** Every instance of every starting service was started or refused, unless its service was given up. */
  ghost predicate AllSettled(log: seq<Event>, ids: set<ServiceID>, configs: map<ServiceID, Config>) {
    forall id, i :: id in ids && id != "" && 0 <= i < Num(configs, id) ==> WasSkipped(log, id) || Dealt(log, id, i)
  }

  /** Only instances that the configuration asks for are started. */
  ghost predicate StartsConfigured(log: seq<Event>, configs: map<ServiceID, Config>) {
    forall k :: 0 <= k < |log| && log[k].Started? ==> log[k].instance < Num(configs, log[k].service)
  }

  /** The futures handed back for a service are exactly those of its starts in the log. */
  ghost predicate FuturesOf(ready: map<ServiceID, seq<Future>>, log: seq<Event>) {
    && (forall s, f :: s in ready && f in ready[s] ==> StartedWith(log, s, f))
    && (forall k :: 0 <= k < |log| && log[k].Started? ==>
          log[k].service in ready && log[k].future in ready[log[k].service])
  }

  ghost predicate StartedWith(log: seq<Event>, service: ServiceID, f: Future) {
    exists k :: 0 <= k < |log| && log[k].Started? && log[k].service == service && log[k].future == f
  }

  lemma FuturesTracked(ready: map<ServiceID, seq<Future>>, log: seq<Event>, reports: map<Future, Report>)
    requires Known(log, ready, reports)
    requires forall s, f :: s in ready && f in ready[s] ==> Tracked(log, reports, s, f)
    ensures FuturesOf(ready, log)
  {
    forall k | 0 <= k < |log| && log[k].Started?
      ensures log[k].service in ready && log[k].future in ready[log[k].service]
    {
      assert KnownEvent(log[k], ready, reports);
    }
    forall s, f | s in ready && f in ready[s] ensures StartedWith(log, s, f) {
      assert Tracked(log, reports, s, f);
    }
  }

  /** No identifier of the registry changes when it is trimmed. */
  ghost predicate CleanIds(specs: Specs, trim: string -> string) {
    forall id :: id in specs ==> trim(id) == id && forall d :: d in specs[id] ==> trim(d) == d
  }

  predicate Holds(planned: map<ServiceID, seq<nat>>, service: ServiceID, i: nat) {
    service in planned && i in planned[service]
  }

  /** What AddProcs leaves in the controller: exactly the planned instances, each once. */
  ghost predicate InstancesOf(planned: map<ServiceID, seq<nat>>, plans: seq<ServicePlan>) {
    && (forall s, i: nat :: Holds(planned, s, i) <==> HasPlan(plans, s, i))
    && (forall s :: s in planned ==> planned[s] != [] && Distinct(planned[s]))
  }

  ghost predicate DistinctPlans(plans: seq<ServicePlan>) {
    forall k, k' :: 0 <= k < k' < |plans| ==> plans[k].service != plans[k'].service || plans[k].index != plans[k'].index
  }

  method AddProcs(plans: seq<ServicePlan>) returns (planned: map<ServiceID, seq<nat>>)
    requires DistinctPlans(plans)
    ensures InstancesOf(planned, plans)
  {
    planned := map[];
    for k := 0 to |plans|
      invariant InstancesOf(planned, plans[..k])
    {
      AddOne(planned, plans, k);
      var s := plans[k].service;
      planned := planned[s := (if s in planned then planned[s] else []) + [plans[k].index]];
    }
    assert plans[..|plans|] == plans;
  }

  lemma HasPlanOne(plans: seq<ServicePlan>, p: ServicePlan, s: ServiceID, i: nat)
    ensures HasPlan(plans + [p], s, i) <==> HasPlan(plans, s, i) || (p.service == s && p.index == i)
  {
    var plans' := plans + [p];
    if HasPlan(plans, s, i) {
      var k :| 0 <= k < |plans| && plans[k].service == s && plans[k].index == i;
      assert plans'[k] == plans[k];
    }
    assert plans'[|plans|] == p;
  }

  lemma AddOne(planned: map<ServiceID, seq<nat>>, plans: seq<ServicePlan>, k: nat)
    requires k < |plans| && DistinctPlans(plans) && InstancesOf(planned, plans[..k])
    ensures var s := plans[k].service;
      InstancesOf(planned[s := (if s in planned then planned[s] else []) + [plans[k].index]], plans[..k + 1])
  {
    var p := plans[k];
    var planned' := planned[p.service := (if p.service in planned then planned[p.service] else []) + [p.index]];
    assert plans[..k + 1] == plans[..k] + [p];
    assert !Holds(planned, p.service, p.index);
    forall s, i: nat ensures Holds(planned', s, i) <==> HasPlan(plans[..k + 1], s, i) {
      HasPlanOne(plans[..k], p, s, i);
    }
  }

  lemma PlanExact(all: seq<Candidate>, ids: seq<ServiceID>, keys: map<ServiceID, StartKey>,
                  configs: map<ServiceID, Config>, ordered: seq<ServiceID>)
    requires Gathered(all, ids, keys, configs) && ToSet(ordered) == StartingIds(all)
    ensures PlannedExactly(ordered, configs)
  {
    forall d ensures d in ordered <==> Num(configs, d) > 0 {
      assert d in ordered <==> d in StartingIds(all);
      if d in StartingIds(all) {
        var c :| c in all && Starts(c) && c.id == d;
      }
      if Num(configs, d) > 0 {
        var c :| c in all && c.enabled && c.id == d;
        assert Starts(c);
      }
    }
  }

  lemma PlansTrimmed(plans: seq<ServicePlan>, ordered: seq<ServiceID>, specs: Specs, configs: map<ServiceID, Config>,
                     trim: string -> string)
    requires PlansOf(plans, ordered, specs, configs) && CleanIds(specs, trim)
    ensures Trimmed(plans, trim)
  {
  }

  /** A declared dependency between starting services is one the starter waits for. */
  lemma DeclaredIsWaitedFor(services: seq<PlannedService>, plans: seq<ServicePlan>, ordered: seq<ServiceID>,
                            specs: Specs, configs: map<ServiceID, Config>, trim: string -> string,
                            planned: map<ServiceID, seq<nat>>, s: ServiceID, d: ServiceID)
    requires PlansOf(plans, ordered, specs, configs) && Trimmed(plans, trim) && Summarises(services, plans, trim)
    requires PlannedExactly(ordered, configs) && InstancesOf(planned, plans)
    requires s in Services(services) && DependsOn(specs, ToSet(ordered), s, d) && d != ""
    ensures MustPrecede(services, planned, s, d)
  {
    var q :| q in services && q.service == s;
    var p :| p in plans && q == PlannedService(trim(p.service), TrimAll(p.startAfter, trim));
    var k :| 0 <= k < |plans| && plans[k] == p;
    assert WellPlanned(p, specs, configs);
    assert d in p.startAfter;
    assert trim(d) == d;
    assert HasPlan(plans, d, 0);
    assert Holds(planned, d, 0);
  }

  /** What the starter waits for is declared. */
  lemma WaitedForIsDeclared(services: seq<PlannedService>, plans: seq<ServicePlan>, ordered: seq<ServiceID>,
                            specs: Specs, configs: map<ServiceID, Config>, trim: string -> string,
                            planned: map<ServiceID, seq<nat>>, s: ServiceID, d: ServiceID)
    requires PlansOf(plans, ordered, specs, configs) && Trimmed(plans, trim) && Summarises(services, plans, trim)
    requires PlannedExactly(ordered, configs) && MustPrecede(services, planned, s, d)
    ensures DependsOn(specs, ToSet(ordered), s, d)
  {
  }

  lemma SkipsInDeclaredTerms(log: seq<Event>, services: seq<PlannedService>, plans: seq<ServicePlan>,
                             ordered: seq<ServiceID>, specs: Specs, configs: map<ServiceID, Config>,
                             trim: string -> string, planned: map<ServiceID, seq<nat>>)
    requires PlansOf(plans, ordered, specs, configs) && Trimmed(plans, trim) && Summarises(services, plans, trim)
    requires PlannedExactly(ordered, configs) && SkipsJustified(log, services, planned)
    ensures SkippedForCause(log, specs, ToSet(ordered))
  {
  }

  lemma SettlesEverything(log: seq<Event>, services: seq<PlannedService>, plans: seq<ServicePlan>,
                          ordered: seq<ServiceID>, specs: Specs, configs: map<ServiceID, Config>,
                          trim: string -> string, planned: map<ServiceID, seq<nat>>)
    requires PlansOf(plans, ordered, specs, configs) && Trimmed(plans, trim) && Summarises(services, plans, trim)
    requires InstancesOf(planned, plans) && forall p :: p in services ==> Settled(log, planned, p.service)
    ensures AllSettled(log, ToSet(ordered), configs)
  {
    forall id, i | id in ToSet(ordered) && id != "" && 0 <= i < Num(configs, id)
      ensures WasSkipped(log, id) || Dealt(log, id, i)
    {
      assert HasPlan(plans, id, i);
      var k :| 0 <= k < |plans| && plans[k].service == id && plans[k].index == i;
      assert plans[k] in plans && trim(plans[k].service) == id;
      assert id in Services(services);
      assert Holds(planned, id, i);
    }
  }

  lemma StartsArePlanned(log: seq<Event>, services: seq<PlannedService>, plans: seq<ServicePlan>,
                         ordered: seq<ServiceID>, specs: Specs, configs: map<ServiceID, Config>,
                         planned: map<ServiceID, seq<nat>>)
    requires PlansOf(plans, ordered, specs, configs) && InstancesOf(planned, plans)
    requires forall k :: 0 <= k < |log| ==> FromPlan(log[k], services, planned)
    ensures StartsConfigured(log, configs)
  {
    forall k | 0 <= k < |log| && log[k].Started? ensures log[k].instance < Num(configs, log[k].service) {
      assert FromPlan(log[k], services, planned);
      assert Holds(planned, log[k].service, log[k].instance);
      var j :| 0 <= j < |plans| && plans[j].service == log[k].service && plans[j].index == log[k].instance;
      assert WellPlanned(plans[j], specs, configs);
    }
  }

  lemma SafeInDeclaredTerms(log: seq<Event>, services: seq<PlannedService>, plans: seq<ServicePlan>,
                            ordered: seq<ServiceID>, specs: Specs, configs: map<ServiceID, Config>,
                            trim: string -> string, planned: map<ServiceID, seq<nat>>)
    requires PlansOf(plans, ordered, specs, configs) && Trimmed(plans, trim) && Summarises(services, plans, trim)
    requires PlannedExactly(ordered, configs) && InstancesOf(planned, plans)
    requires StartsSafe(log, services, planned)
    requires forall k :: 0 <= k < |log| ==> FromPlan(log[k], services, planned)
    requires AttemptsOrdered(log, services)
    ensures DependenciesReadyFirst(log, specs, ToSet(ordered))
    ensures DependenciesReachedFirst(log, specs, ToSet(ordered))
  {
    forall k, d | 0 <= k < |log| && log[k].Started? && DependsOn(specs, ToSet(ordered), log[k].service, d) && d != ""
      ensures HasReady(log[..k], d)
    {
      DeclaredIsWaitedFor(services, plans, ordered, specs, configs, trim, planned, log[k].service, d);
    }
    forall k, d | 0 <= k < |log| && log[k].Attempted? && DependsOn(specs, ToSet(ordered), log[k].service, d) && d != ""
      ensures WasAttempted(log[..k], d)
    {
      DeclaredIsWaitedFor(services, plans, ordered, specs, configs, trim, planned, log[k].service, d);
      var p :| p in services && p.service == log[k].service && d in p.startAfter;
    }
  }

  lemma {:induction false} TrimAllSame(names: seq<string>, trim: string -> string)
    requires forall x :: x in names ==> trim(x) == x && x != ""
    ensures TrimAll(names, trim) == names
  {
    if names != [] {
      var front, last := names[..|names| - 1], names[|names| - 1];
      assert names == front + [last] && last in names;
      assert forall x :: x in front ==> x in names;
      TrimAllSame(front, trim);
    }
  }

  /** A planned service is what one of its plans says. */
  lemma PlanBehind(plans: seq<ServicePlan>, ordered: seq<ServiceID>, specs: Specs, configs: map<ServiceID, Config>,
                   trim: string -> string, services: seq<PlannedService>, q: PlannedService)
    returns (p: ServicePlan)
    requires PlansOf(plans, ordered, specs, configs) && Trimmed(plans, trim) && Summarises(services, plans, trim)
    requires q in services
    ensures WellPlanned(p, specs, configs) && p.service in ordered
    ensures q.service == p.service && q.startAfter == p.startAfter
  {
    p :| p in plans && q == PlannedService(trim(p.service), TrimAll(p.startAfter, trim));
    var k :| 0 <= k < |plans| && plans[k] == p;
    assert WellPlanned(plans[k], specs, configs) && trim(plans[k].service) == p.service;
    TrimAllSame(p.startAfter, trim);
  }

  lemma WaitsRendered(plans: seq<ServicePlan>, ordered: seq<ServiceID>, specs: Specs, configs: map<ServiceID, Config>,
                      trim: string -> string, services: seq<PlannedService>, q: PlannedService)
    requires PlansOf(plans, ordered, specs, configs) && Trimmed(plans, trim) && Summarises(services, plans, trim)
    requires PlannedExactly(ordered, configs) && q in services
    ensures WaitsDeclared(specs, ToSet(ordered) - {""}, q)
  {
    var p := PlanBehind(plans, ordered, specs, configs, trim, services, q);
    FilterIsDeclared(q, ordered, specs, configs);
  }

  lemma FilterIsDeclared(q: PlannedService, ordered: seq<ServiceID>, specs: Specs, configs: map<ServiceID, Config>)
    requires PlannedAfter(q.startAfter, specs, configs, q.service) && PlannedExactly(ordered, configs)
    requires q.service in ordered && q.service != ""
    ensures WaitsDeclared(specs, ToSet(ordered) - {""}, q)
  {
    forall d ensures d in q.startAfter <==> DependsOn(specs, ToSet(ordered) - {""}, q.service, d) {
      assert d in ordered <==> Num(configs, d) > 0;
    }
  }

  lemma InstancesRendered(plans: seq<ServicePlan>, ordered: seq<ServiceID>, specs: Specs,
                          configs: map<ServiceID, Config>, planned: map<ServiceID, seq<nat>>, s: ServiceID)
    requires PlansOf(plans, ordered, specs, configs) && InstancesOf(planned, plans) && PlannedExactly(ordered, configs)
    ensures s in ordered && s != "" ==> InstancesDeclared(planned, configs, s)
    ensures HasInstances(planned, s) ==> s in ordered && s != ""
  {
    forall i: nat ensures i in Instances(planned, s) <==> HasPlan(plans, s, i) {
      assert Holds(planned, s, i) <==> HasPlan(plans, s, i);
    }
    forall i: nat | HasPlan(plans, s, i) ensures s in ordered && s != "" && i < Num(configs, s) {
      var k :| 0 <= k < |plans| && plans[k].service == s && plans[k].index == i;
      assert WellPlanned(plans[k], specs, configs);
    }
    if HasInstances(planned, s) {
      assert planned[s][0] in Instances(planned, s);
    }
  }

  lemma ServicesRendered(plans: seq<ServicePlan>, ordered: seq<ServiceID>, specs: Specs,
                         configs: map<ServiceID, Config>, trim: string -> string, services: seq<PlannedService>)
    requires PlansOf(plans, ordered, specs, configs) && Trimmed(plans, trim) && Summarises(services, plans, trim)
    requires PlannedExactly(ordered, configs)
    ensures Services(services) == ToSet(ordered) - {""}
  {
    forall s ensures s in TrimmedServices(plans, trim) <==> s in ordered && s != "" {
      if s in ordered && s != "" {
        assert HasPlan(plans, s, 0);
        var k :| 0 <= k < |plans| && plans[k].service == s && plans[k].index == 0;
        assert plans[k] in plans && trim(plans[k].service) == s;
      }
      if s in TrimmedServices(plans, trim) {
        var p :| p in plans && trim(p.service) == s;
        var k :| 0 <= k < |plans| && plans[k] == p;
        assert WellPlanned(plans[k], specs, configs);
      }
    }
  }

  /** The plan renders what is declared, and nothing else. */
  lemma PlanRenders(plans: seq<ServicePlan>, ordered: seq<ServiceID>, specs: Specs, configs: map<ServiceID, Config>,
                    trim: string -> string, services: seq<PlannedService>, planned: map<ServiceID, seq<nat>>)
    requires PlansOf(plans, ordered, specs, configs) && Trimmed(plans, trim) && Summarises(services, plans, trim)
    requires PlannedExactly(ordered, configs) && InstancesOf(planned, plans) && StartOrder(services)
    ensures Renders(services, planned, specs, ToSet(ordered) - {""}, configs)
  {
    ServicesRendered(plans, ordered, specs, configs, trim, services);
    forall q | q in services ensures WaitsDeclared(specs, ToSet(ordered) - {""}, q) {
      WaitsRendered(plans, ordered, specs, configs, trim, services, q);
    }
    forall s
      ensures s in ordered && s != "" ==> InstancesDeclared(planned, configs, s)
      ensures HasInstances(planned, s) ==> s in ordered && s != ""
    {
      InstancesRendered(plans, ordered, specs, configs, planned, s);
    }
  }

  /** The services whose absence ends the boot: the critical ones that have instances and are registered. */
  method Required(configs: map<ServiceID, Config>, specs: Specs, critical: set<ServiceID>)
    returns (required: map<ServiceID, int>)
    ensures RequiredAre(required, set s | s in configs && s != "" && Num(configs, s) > 0 && s in specs && s in critical)
  {
    required := map[];
    var rest := configs.Keys;
    while rest != {}
      invariant rest <= configs.Keys
      invariant forall s :: IsRequired(required, s) <==>
        s in configs && s !in rest && s != "" && Num(configs, s) > 0 && s in specs && s in critical
      decreases rest
    {
      var s :| s in rest;
      rest := rest - {s};
      if s == "" || Num(configs, s) <= 0 {
        continue;
      }
      if s !in specs || s !in critical {
        continue;
      }
      required := required[s := 1];
    }
  }

  /** What the error says about the environment. */
  ghost predicate Explains(env: Env, specs: Specs, named: set<ServiceID>, configs: map<ServiceID, Config>,
                           critical: set<ServiceID>, fates: Fates, e: StartError) {
    match e
    case NotStarted(s, d) =>
      s in critical && FateIn(fates, d) == Down && (d == s || DependsOn(specs, named, s, d))
    case WaitFailed(_) => exists s :: s in critical && FateIn(fates, s) == Down
    case StartFailed(s) => s in critical && !NoneRefused(env, configs, s)
    case NeverReady =>
      || (exists d :: d in named && FateIn(fates, d) == Hangs)
      || !AllReport(env, specs, named, configs, fates, TIDB) || !AllReport(env, specs, named, configs, fates, TIPROXY)
  }

  lemma MissingExplains(env: Env, services: seq<PlannedService>, planned: map<ServiceID, seq<nat>>, specs: Specs,
                        named: set<ServiceID>, configs: map<ServiceID, Config>, n: nat, d: ServiceID)
    requires Renders(services, planned, specs, named, configs) && n < |services|
    requires FirstMissing(services[n].startAfter, planned, FatesOf(env, planned, services, n)) == Some(d)
    ensures var fates := FatesOf(env, planned, services, |services|);
      && DependsOn(specs, named, services[n].service, d) && FateIn(fates, services[n].service) == Down
      && FateIn(fates, d) == FateIn(FatesOf(env, planned, services, n), d) != Up
  {
    var fates := FatesOf(env, planned, services, |services|);
    FailsAtTheEnd(env, services, planned, specs, named, configs, n, d);
    DependencySettled(env, planned, services, n, d);
    FateSettled(env, planned, services, n, |services|);
  }

  ghost predicate VerdictHolds(env: Env, specs: Specs, named: set<ServiceID>, configs: map<ServiceID, Config>,
                               critical: set<ServiceID>, fates: Fates, v: Verdict) {
    match v
    case Missing(s, d) =>
      s in critical && DependsOn(specs, named, s, d) && FateIn(fates, d) == Down && FateIn(fates, s) == Down
    case Hanging(s, d) => DependsOn(specs, named, s, d) && FateIn(fates, d) == Hangs
    case StartRefused(s) => s in critical && !NoneRefused(env, configs, s)
  }

  lemma TroubleHolds(env: Env, services: seq<PlannedService>, planned: map<ServiceID, seq<nat>>, specs: Specs,
                     named: set<ServiceID>, configs: map<ServiceID, Config>, required: map<ServiceID, int>,
                     critical: set<ServiceID>, n: nat, v: Verdict)
    requires Renders(services, planned, specs, named, configs) && RequiredAre(required, critical) && n < |services|
    requires Trouble(env, planned, required, services[n], FatesOf(env, planned, services, n)) == Some(v)
    ensures VerdictHolds(env, specs, named, configs, critical, FatesOf(env, planned, services, |services|), v)
  {
    if v.StartRefused? {
      assert services[n] in services && InstancesDeclared(planned, configs, services[n].service);
      RefusedIsDeclared(env, planned, configs, services[n].service);
    } else {
      MissingExplains(env, services, planned, specs, named, configs, n, v.dep);
    }
  }

  lemma VerdictExplains(env: Env, specs: Specs, named: set<ServiceID>, configs: map<ServiceID, Config>,
                        critical: set<ServiceID>, fates: Fates, v: Verdict, e: StartError)
    requires VerdictHolds(env, specs, named, configs, critical, fates, v) && Agrees(e, v)
    ensures Explains(env, specs, named, configs, critical, fates, e)
  {
  }

  /** Only planned services are started. */
  lemma StartedIsPlanned(starter: BootStarter, s: ServiceID)
    requires starter.Valid()
    ensures starter.Futures(s) == [] || s in Services(starter.plans)
  {
    if starter.Futures(s) != [] {
      assert Tracked(starter.log, starter.reports, s, starter.Futures(s)[0]);
      var k :| 0 <= k < |starter.log| && starter.log[k].Started? && starter.log[k].service == s;
      assert FromPlan(starter.log[k], starter.plans, starter.planned);
    }
  }

  /** The addresses on the list, and what becomes of them, are those of the declared instances. */
  lemma ListedIsOffered(starter: BootStarter, specs: Specs, named: set<ServiceID>, configs: map<ServiceID, Config>,
                        s: ServiceID, addr: string, report: Option<Report>)
    requires starter.Valid() && starter.Launched(|starter.plans|)
    requires Renders(starter.plans, starter.planned, specs, named, configs)
    ensures var fates := FatesOf(starter.env, starter.planned, starter.plans, |starter.plans|);
      Offers(starter.env, specs, named, configs, fates, s, addr, report) <==>
      exists r :: r in Addressed(starter.env, starter.issued, starter.Futures(s)) && r.addr == addr &&
                  EndsWith(starter.env, starter.issued, r, report)
  {
    if s in named {
      var q :| q in starter.plans && q.service == s;
      var n :| 0 <= n < |starter.plans| && starter.plans[n] == q;
      var fates := FatesOf(starter.env, starter.planned, starter.plans, n);
      assert starter.StartedAs(n, fates);
      TriedIsOffered(starter.env, starter.plans, starter.planned, specs, named, configs, n, addr, report);
      AddressesCovered(starter.env, starter.issued, s, starter.Futures(s), Tried(starter.planned, q, fates), addr,
                       report);
    } else {
      StartedIsPlanned(starter, s);
    }
  }

  /** The addresses are exactly those at which an instance of the service gets ready. */
  ghost predicate Shown(env: Env, specs: Specs, named: set<ServiceID>, configs: map<ServiceID, Config>, fates: Fates,
                        s: ServiceID, addrs: seq<string>) {
    forall addr :: addr in addrs <==> Offers(env, specs, named, configs, fates, s, addr, Some(Ready))
  }

  lemma AddressesExact(env: Env, issued: Issued, rs: seq<ReadyAddr>, specs: Specs, named: set<ServiceID>,
                       configs: map<ServiceID, Config>, fates: Fates, s: ServiceID, addrs: Option<seq<string>>)
    requires forall addr, report :: Offers(env, specs, named, configs, fates, s, addr, report) <==>
      exists r :: r in rs && r.addr == addr && EndsWith(env, issued, r, report)
    requires forall r :: r in rs ==> r.ready.Some? && r.ready.value < |issued|
    requires addrs.None? <==> exists r :: r in rs && EndsWith(env, issued, r, None)
    requires addrs.Some? ==> addrs.value == ReadyAddrs(env, issued, rs)
    ensures addrs.Some? <==> AllReport(env, specs, named, configs, fates, s)
    ensures addrs.Some? ==> Shown(env, specs, named, configs, fates, s, addrs.value)
  {
    if addrs.None? {
      var r :| r in rs && EndsWith(env, issued, r, None);
      assert Offers(env, specs, named, configs, fates, s, r.addr, None);
    } else {
      forall addr ensures addr in addrs.value <==> Offers(env, specs, named, configs, fates, s, addr, Some(Ready)) {
        ReadyAddrsMembers(env, issued, rs, addr);
        assert forall r :: r in rs ==> (EndsReady(env, issued, r) <==> EndsWith(env, issued, r, Some(Ready)));
      }
    }
  }

  /** Waits for the addresses of one service; None when an instance at one of them never reports. */
  method WaitAddresses(starter: BootStarter, s: ServiceID, ghost specs: Specs, ghost named: set<ServiceID>,
                       ghost configs: map<ServiceID, Config>)
    returns (addrs: Option<seq<string>>)
    requires starter.Valid() && starter.AddressesListed() && starter.Launched(|starter.plans|)
    requires Renders(starter.plans, starter.planned, specs, named, configs)
    modifies starter`reports, starter`log
    ensures starter.Valid() && OnlyReports(old(starter.log), starter.log)
    ensures var fates := FatesOf(starter.env, starter.planned, starter.plans, |starter.plans|);
      && (addrs.Some? <==> AllReport(starter.env, specs, named, configs, fates, s))
      && (addrs.Some? ==> Shown(starter.env, specs, named, configs, fates, s, addrs.value))
  {
    var rs := starter.Addrs(s);
    ghost var fates := FatesOf(starter.env, starter.planned, starter.plans, |starter.plans|);
    assert rs == Addressed(starter.env, starter.issued, starter.Futures(s));
    forall r | r in rs ensures r.ready.Some? && r.ready.value < |starter.issued| {
      AddressedMembers(starter.env, starter.issued, starter.Futures(s), r);
    }
    forall addr, report
      ensures Offers(starter.env, specs, named, configs, fates, s, addr, report) <==>
        exists r :: r in rs && r.addr == addr && EndsWith(starter.env, starter.issued, r, report)
    {
      ListedIsOffered(starter, specs, named, configs, s, addr, report);
    }
    addrs := starter.WaitReadyAddrs(rs);
    AddressesExact(starter.env, starter.issued, rs, specs, named, configs, fates, s, addrs);
  }

  /** The addresses shown for TiDB and for TiProxy are those that got ready. */
  ghost predicate Shows(env: Env, specs: Specs, named: set<ServiceID>, configs: map<ServiceID, Config>, fates: Fates,
                        booted: Booted) {
    && Shown(env, specs, named, configs, fates, TIDB, booted.tidb)
    && Shown(env, specs, named, configs, fates, TIPROXY, booted.tiproxy)
  }

  ghost predicate AllPlansSettled(log: seq<Event>, plans: seq<PlannedService>, planned: map<ServiceID, seq<nat>>) {
    forall p :: p in plans ==> Settled(log, planned, p.service)
  }

  lemma PlansSettled(plans: seq<PlannedService>, planned: map<ServiceID, seq<nat>>, log: seq<Event>)
    requires forall i :: 0 <= i < |plans| ==> Settled(log, planned, plans[i].service)
    ensures AllPlansSettled(log, plans, planned)
  {
    forall p | p in plans ensures Settled(log, planned, p.service) {
      var i :| 0 <= i < |plans| && plans[i] == p;
    }
  }

  lemma AllStaySettled(plans: seq<PlannedService>, planned: map<ServiceID, seq<nat>>, log: seq<Event>, log': seq<Event>)
    requires log <= log' && AllPlansSettled(log, plans, planned)
    ensures AllPlansSettled(log', plans, planned)
  {
    forall p | p in plans ensures Settled(log', planned, p.service) {
      SettledGrows(log, log', planned, p.service);
    }
  }

  /** Starting the plan, and waiting for the required services. */
  method RunPlan(starter: BootStarter, ghost specs: Specs, ghost named: set<ServiceID>,
                 ghost configs: map<ServiceID, Config>, ghost critical: set<ServiceID>)
    returns (e: Option<StartError>)
    requires starter.Valid() && starter.AddressesListed() && starter.log == [] && starter.Matches(map[])
    requires forall s :: Distinct(Instances(starter.planned, s))
    requires Renders(starter.plans, starter.planned, specs, named, configs)
    requires RequiredAre(starter.required, critical) && critical <= named
    modifies starter
    ensures starter.Valid() && starter.AddressesListed()
    ensures var fates := FatesOf(starter.env, starter.planned, starter.plans, |starter.plans|);
      && (e.None? <==> Boots(starter.env, specs, named, configs, critical, fates))
      && (e.Some? ==> Explains(starter.env, specs, named, configs, critical, fates, e.value))
    ensures e.None? ==> forall s :: s in critical ==> HasReady(starter.log, s)
    ensures e.None? ==> AllPlansSettled(starter.log, starter.plans, starter.planned)
    ensures e.None? ==> starter.Launched(|starter.plans|)
  {
    BootsExactly(starter.env, starter.plans, starter.planned, specs, named, configs, starter.required, critical);
    e := starter.StartPlanned();
    if e.Some? {
      ghost var n, v :| FirstTrouble(starter.env, starter.planned, starter.required, starter.plans, n, v) &&
        Agrees(e.value, v);
      TroubleHolds(starter.env, starter.plans, starter.planned, specs, named, configs, starter.required, critical,
                   n, v);
      VerdictExplains(starter.env, specs, named, configs, critical,
                      FatesOf(starter.env, starter.planned, starter.plans, |starter.plans|), v, e.value);
      return;
    }
    ghost var before := starter.log;
    PlansSettled(starter.plans, starter.planned, before);
    e := starter.WaitRequiredReady();
    AllStaySettled(starter.plans, starter.planned, before, starter.log);
  }

  /** The waits of bootCluster: for the plan, for the required services, and for the addresses to show. */
  method RunStarter(starter: BootStarter, ghost specs: Specs, ghost named: set<ServiceID>,
                    ghost configs: map<ServiceID, Config>, ghost critical: set<ServiceID>)
    returns (r: Result<(seq<string>, seq<string>), StartError>)
    requires starter.Valid() && starter.AddressesListed() && starter.log == [] && starter.Matches(map[])
    requires forall s :: Distinct(Instances(starter.planned, s))
    requires Renders(starter.plans, starter.planned, specs, named, configs)
    requires RequiredAre(starter.required, critical) && critical <= named
    modifies starter
    ensures starter.Valid()
    ensures var fates := FatesOf(starter.env, starter.planned, starter.plans, |starter.plans|);
      && (r.Ok? <==> Completes(starter.env, specs, named, configs, critical, fates))
      && (r.Err? ==> Explains(starter.env, specs, named, configs, critical, fates, r.error))
      && (r.Ok? ==> Shown(starter.env, specs, named, configs, fates, TIDB, r.value.0))
      && (r.Ok? ==> Shown(starter.env, specs, named, configs, fates, TIPROXY, r.value.1))
    ensures r.Ok? ==> forall s :: s in critical ==> HasReady(starter.log, s)
    ensures r.Ok? ==> AllPlansSettled(starter.log, starter.plans, starter.planned)
  {
    var e := RunPlan(starter, specs, named, configs, critical);
    if e.Some? {
      return Err(e.value);
    }
    ghost var before := starter.log;
    var tidb := WaitAddresses(starter, TIDB, specs, named, configs);
    if tidb.None? {
      return Err(NeverReady);
    }
    ghost var between := starter.log;
    var tiproxy := WaitAddresses(starter, TIPROXY, specs, named, configs);
    if tiproxy.None? {
      return Err(NeverReady);
    }
    OnlyReportsChain(before, between, starter.log);
    AllStaySettled(starter.plans, starter.planned, before, starter.log);
    forall s | s in critical ensures HasReady(starter.log, s) {
      HasReadyGrows(before, starter.log, s);
    }
    return Ok((tidb.value, tiproxy.value));
  }

  /** Starting what was planned, and all waits of bootCluster. */
  method StartAll(env: Env, plans: seq<ServicePlan>, required: map<ServiceID, int>, trim: string -> string,
                  ghost ordered: seq<ServiceID>, ghost specs: Specs, ghost configs: map<ServiceID, Config>,
                  ghost critical: set<ServiceID>)
    returns (r: Result<Booted, StartError>, ghost log: seq<Event>, ghost fates: Fates)
    requires PlansOf(plans, ordered, specs, configs) && Trimmed(plans, trim) && PlannedExactly(ordered, configs)
    requires DependenciesFirst(plans) && RequiredAre(required, critical) && critical <= ToSet(ordered) - {""}
    ensures DependenciesReadyFirst(log, specs, ToSet(ordered)) && DependenciesReachedFirst(log, specs, ToSet(ordered))
    ensures SkippedForCause(log, specs, ToSet(ordered)) && StartsConfigured(log, configs) && SettlesOnce(log)
    ensures Solves(env, specs, ToSet(ordered) - {""}, configs, fates)
    ensures r.Ok? <==> Completes(env, specs, ToSet(ordered) - {""}, configs, critical, fates)
    ensures r.Err? ==> Explains(env, specs, ToSet(ordered) - {""}, configs, critical, fates, r.error)
    ensures r.Ok? ==> forall s :: s in critical ==> HasReady(log, s)
    ensures r.Ok? ==> AllSettled(log, ToSet(ordered), configs) && FuturesOf(r.value.ready, log)
    ensures r.Ok? ==> Shows(env, specs, ToSet(ordered) - {""}, configs, fates, r.value)
  {
    var services := PlannedServices(plans, trim);
    var planned := AddProcs(plans);
    ghost var named := ToSet(ordered) - {""};
    PlanRenders(plans, ordered, specs, configs, trim, services, planned);
    fates := FatesOf(env, planned, services, |services|);
    PlanSolves(env, services, planned, specs, named, configs);
    var starter := new BootStarter(env, planned, required, services);
    var shown := RunStarter(starter, specs, named, configs, critical);
    log := starter.log;
    SkipsInDeclaredTerms(log, services, plans, ordered, specs, configs, trim, planned);
    StartsArePlanned(log, services, plans, ordered, specs, configs, planned);
    SafeInDeclaredTerms(log, services, plans, ordered, specs, configs, trim, planned);
    if shown.Err? {
      r := Err(shown.error);
    } else {
      SettlesEverything(log, services, plans, ordered, specs, configs, trim, planned);
      FuturesTracked(starter.readyMap, log, starter.reports);
      r := Ok(Booted(starter.readyMap, shown.value.0, shown.value.1));
    }
  }

  /** The configurations planProcs returns are those of the candidates. */
  ghost predicate ConfigsOf(all: seq<Candidate>, configs: map<ServiceID, Config>) {
    && configs.Keys == (set c | c in all && c.enabled :: c.id)
    && forall c :: c in all && c.enabled ==> configs[c.id] == c.config
  }

  lemma ConfigsGathered(all: seq<Candidate>, keys: map<ServiceID, StartKey>, configs: map<ServiceID, Config>,
                        ordered: seq<ServiceID>)
    requires exists ids :: Gathered(all, ids, keys, configs)
    ensures ConfigsOf(all, configs)
    ensures ToSet(ordered) == StartingIds(all) ==> PlannedExactly(ordered, configs)
  {
    var ids :| Gathered(all, ids, keys, configs);
    if ToSet(ordered) == StartingIds(all) {
      PlanExact(all, ids, keys, configs, ordered);
    }
  }

  /** The services that start, have a name, and are critical. */
  ghost function CriticalIds(all: seq<Candidate>): set<ServiceID> {
    set c | c in all && Starts(c) && c.critical && c.id != "" :: c.id
  }

  ghost predicate Registered(all: seq<Candidate>, specs: Specs) {
    forall s :: s in StartingIds(all) && s != "" ==> s in specs
  }

  lemma RequiredAreCritical(all: seq<Candidate>, configs: map<ServiceID, Config>, specs: Specs,
                            critical: set<ServiceID>)
    requires DistinctIds(all) && ConfigsOf(all, configs) && Registered(all, specs)
    requires critical == set c | c in all && c.critical :: c.id
    ensures (set s | s in configs && s != "" && Num(configs, s) > 0 && s in specs && s in critical) == CriticalIds(all)
  {
    forall s | s in configs && s != "" && Num(configs, s) > 0 && s in critical ensures s in CriticalIds(all) {
      var c :| c in all && c.enabled && c.id == s;
      var c' :| c' in all && c'.critical && c'.id == s;
      assert c == c';
      assert Starts(c);
    }
  }

  /** The plan was built exactly when every starting service is registered. */
  lemma BuiltIsRegistered(all: seq<Candidate>, ordered: seq<ServiceID>, specs: Specs, configs: map<ServiceID, Config>,
                          plans: seq<ServicePlan>)
    requires PlansOf(plans, ordered, specs, configs) && ToSet(ordered) == StartingIds(all) &&
      PlannedExactly(ordered, configs)
    ensures Registered(all, specs)
  {
    forall s | s in StartingIds(all) && s != "" ensures s in specs {
      assert s in ToSet(ordered) && HasPlan(plans, s, 0);
      var k :| 0 <= k < |plans| && plans[k].service == s && plans[k].index == 0;
      assert WellPlanned(plans[k], specs, configs);
    }
  }

  /** The boot can be planned: there is no cycle, and every service is registered. */
  ghost predicate Plannable(all: seq<Candidate>, specs: Specs) {
    Acyclic(specs, StartingIds(all)) && Registered(all, specs)
  }

  /** Whether a boot succeeds, from the registry, the configurations and the environment alone. */
  ghost predicate SucceedsExactly(env: Env, all: seq<Candidate>, specs: Specs, ok: bool) {
    && (ok ==> Plannable(all, specs))
    && (Plannable(all, specs) ==>
          forall configs, fates ::
            ConfigsOf(all, configs) && Solves(env, specs, StartingIds(all) - {""}, configs, fates) ==>
            (ok <==> Completes(env, specs, StartingIds(all) - {""}, configs, CriticalIds(all), fates)))
  }

  /** There is one way to read the configurations and one solution, so that one of each decides. */
  lemma OutcomeDetermined(env: Env, all: seq<Candidate>, specs: Specs, ordered: seq<ServiceID>,
                          configs: map<ServiceID, Config>, fates: Fates, ok: bool)
    requires Plannable(all, specs)
    requires Topological(specs, StartingIds(all), ordered) && ToSet(ordered) == StartingIds(all)
    requires ConfigsOf(all, configs) && Solves(env, specs, StartingIds(all) - {""}, configs, fates)
    requires ok <==> Completes(env, specs, StartingIds(all) - {""}, configs, CriticalIds(all), fates)
    ensures SucceedsExactly(env, all, specs, ok)
  {
    forall c, f | ConfigsOf(all, c) && Solves(env, specs, StartingIds(all) - {""}, c, f)
      ensures c == configs && f == fates
    {
      assert c == configs by {
        forall s | s in configs ensures c[s] == configs[s] {
          var a :| a in all && a.enabled && a.id == s;
        }
      }
      SolutionUnique(env, specs, StartingIds(all), StartingIds(all) - {""}, configs, ordered, f, fates);
    }
  }

  /** A whole boot. Success does not depend on the order in which reports arrive. */
  method BootCluster(env: Env, all: seq<Candidate>, specs: Specs, trim: string -> string)
    returns (r: Result<Booted, BootError>, ghost log: seq<Event>, ghost configs: map<ServiceID, Config>,
             ghost fates: Fates)
    requires DistinctIds(all) && CleanIds(specs, trim)
    ensures ConfigsOf(all, configs)
    ensures DependenciesReadyFirst(log, specs, StartingIds(all)) &&
      DependenciesReachedFirst(log, specs, StartingIds(all))
    ensures SkippedForCause(log, specs, StartingIds(all)) && StartsConfigured(log, configs) && SettlesOnce(log)
    ensures SucceedsExactly(env, all, specs, r.Ok?)
    ensures Plannable(all, specs) ==> Solves(env, specs, StartingIds(all) - {""}, configs, fates)
    ensures r.Ok? ==> AllSettled(log, StartingIds(all), configs) && FuturesOf(r.value.ready, log)
    ensures r.Ok? ==> Shows(env, specs, StartingIds(all) - {""}, configs, fates, r.value)
    ensures r.Ok? ==> forall s :: s in CriticalIds(all) ==> HasReady(log, s)
    ensures r.Err? ==> match r.error
      case Cycle(services) => ReportsStuck(specs, StartingIds(all), services) && log == []
      case Plan(UnknownService(id)) => id != "" && id in StartingIds(all) && id !in specs && log == []
      case Start(e) => Explains(env, specs, StartingIds(all) - {""}, configs, CriticalIds(all), fates, e)
  {
    log, fates := [], map[];
    var sorted, keys, gathered := PlanProcs(all, specs);
    configs := gathered;
    ConfigsGathered(all, keys, gathered, if sorted.Ok? then sorted.value else []);
    if sorted.Err? {
      return Err(Cycle(sorted.error)), [], gathered, map[];
    }
    var ordered := sorted.value;
    TopologicalDistinct(specs, StartingIds(all), ordered);
    var built := BuildServicePlans(ordered, specs, gathered);
    if built.Err? {
      return Err(Plan(built.error)), [], gathered, map[];
    }
    PlansTrimmed(built.value, ordered, specs, gathered, trim);
    BuiltIsRegistered(all, ordered, specs, gathered, built.value);
    var critical := set c | c in all && c.critical :: c.id;
    var required := Required(gathered, specs, critical);
    RequiredAreCritical(all, gathered, specs, critical);
    var started;
    started, log, fates := StartAll(env, built.value, required, trim, ordered, specs, gathered, CriticalIds(all));
    OutcomeDetermined(env, all, specs, ordered, gathered, fates, started.Ok?);
    if started.Err? {
      return Err(Start(started.error)), log, gathered, fates;
    }
    return Ok(started.value), log, gathered, fates;
  }
}
