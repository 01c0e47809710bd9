/**
 What becomes of each planned service, told from the plan and from the environment alone: which starts the controller
 refuses, and what each instance eventually reports, if anything. Nothing here depends on when reports arrive.
 */
module BootFates {
  import opened BootPlan
  import opened Results
  import opened ServiceGraph

  datatype Report = Ready | NotReady(error: string)

  /** `report` is None for an instance that never reports, `addr` is empty for one without an address. */
  datatype Env = Env(
    refuses: (ServiceID, nat) -> bool,
    report: (ServiceID, nat) -> Option<Report>,
    addr: (ServiceID, nat) -> string)

  /** Some instance gets ready; none does, but one never reports; or everything started fails. */
  datatype Status = Up | Hangs | Down

  type Fates = map<ServiceID, Status>

  predicate HasInstances(planned: map<ServiceID, seq<nat>>, service: ServiceID) {
    service in planned && planned[service] != []
  }

  function Instances(planned: map<ServiceID, seq<nat>>, service: ServiceID): seq<nat> {
    if service in planned then planned[service] else []
  }

  /** The instance is started and ends up with this report. */
  predicate EndsUp(env: Env, service: ServiceID, i: nat, report: Option<Report>) {
    !env.refuses(service, i) && env.report(service, i) == report
  }

  /** The instance is started at this address, and ends up with this report. */
  predicate EndsUpAt(env: Env, service: ServiceID, i: nat, addr: string, report: Option<Report>) {
    EndsUp(env, service, i, report) && env.addr(service, i) == addr && addr != ""
  }

  ghost function Fate(env: Env, service: ServiceID, instances: seq<nat>): Status {
    if exists i :: i in instances && EndsUp(env, service, i, Some(Ready)) then Up
    else if exists i :: i in instances && EndsUp(env, service, i, None) then Hangs
    else Down
  }

  /** A service that was not reached, or was skipped, has started nothing. */
  function FateIn(fates: Fates, service: ServiceID): Status {
    if service in fates then fates[service] else Down
  }

  /** The dependencies that are waited for. */
  predicate Awaited(planned: map<ServiceID, seq<nat>>, d: ServiceID) {
    d != "" && HasInstances(planned, d)
  }

  predicate Fails(planned: map<ServiceID, seq<nat>>, fates: Fates, d: ServiceID) {
    Awaited(planned, d) && FateIn(fates, d) != Up
  }

  /** The first dependency in the list that does not get ready. */
  function FirstMissing(deps: seq<ServiceID>, planned: map<ServiceID, seq<nat>>, fates: Fates): (r: Option<ServiceID>)
    ensures r.Some? ==> r.value in deps && Fails(planned, fates, r.value)
    ensures r.None? <==> forall d :: d in deps ==> !Fails(planned, fates, d)
  {
    if deps == [] then None
    else if Fails(planned, fates, deps[0]) then Some(deps[0])
    else FirstMissing(deps[1..], planned, fates)
  }

  lemma {:induction false} FirstMissingAt(deps: seq<ServiceID>, planned: map<ServiceID, seq<nat>>, fates: Fates, k: nat)
    requires k < |deps| && Fails(planned, fates, deps[k])
    requires forall j :: 0 <= j < k ==> !Fails(planned, fates, deps[j])
    ensures FirstMissing(deps, planned, fates) == Some(deps[k])
    decreases k
  {
    if k > 0 {
      FirstMissingAt(deps[1..], planned, fates, k - 1);
    }
  }

  /** The fate of a planned service, given those of the services before it. */
  ghost function NextFate(env: Env, planned: map<ServiceID, seq<nat>>, p: PlannedService, fates: Fates): Status {
    if FirstMissing(p.startAfter, planned, fates).Some? then Down
    else Fate(env, p.service, Instances(planned, p.service))
  }

  /** The instances that are started or refused: none when a dependency is missing. */
  function Tried(planned: map<ServiceID, seq<nat>>, p: PlannedService, fates: Fates): seq<nat> {
    if FirstMissing(p.startAfter, planned, fates).Some? then [] else Instances(planned, p.service)
  }

  ghost function FatesOf(env: Env, planned: map<ServiceID, seq<nat>>, plans: seq<PlannedService>, n: nat): Fates
    requires n <= |plans|
  {
    if n == 0 then map[]
    else
      var fates := FatesOf(env, planned, plans, n - 1);
      fates[plans[n - 1].service := NextFate(env, planned, plans[n - 1], fates)]
  }

  // ------------------------------------------------------------ what ends a boot

  predicate IsRequired(required: map<ServiceID, int>, service: ServiceID) {
    service != "" && service in required && required[service] > 0
  }

  ghost predicate SomeRefused(env: Env, planned: map<ServiceID, seq<nat>>, service: ServiceID) {
    exists i :: i in Instances(planned, service) && env.refuses(service, i)
  }

  /** A required service lacks a dependency; some service waits for one forever; or a required start is refused. */
  datatype Verdict = Missing(service: ServiceID, dep: ServiceID) | Hanging(service: ServiceID, dep: ServiceID) |
                     StartRefused(service: ServiceID)

  ghost function Trouble(env: Env, planned: map<ServiceID, seq<nat>>, required: map<ServiceID, int>, p: PlannedService,
                         fates: Fates): Option<Verdict> {
    match FirstMissing(p.startAfter, planned, fates)
    case Some(d) =>
      if FateIn(fates, d) == Hangs then Some(Hanging(p.service, d))
      else if IsRequired(required, p.service) then Some(Missing(p.service, d))
      else None
    case None =>
      if IsRequired(required, p.service) && SomeRefused(env, planned, p.service) then Some(StartRefused(p.service))
      else None
  }

  /** The plan runs into its first trouble at the n-th service. */
  ghost predicate FirstTrouble(env: Env, planned: map<ServiceID, seq<nat>>, required: map<ServiceID, int>,
                               plans: seq<PlannedService>, n: nat, v: Verdict) {
    && n < |plans| && Trouble(env, planned, required, plans[n], FatesOf(env, planned, plans, n)) == Some(v)
    && NoTrouble(env, planned, required, plans, n)
  }

  ghost predicate NoTrouble(env: Env, planned: map<ServiceID, seq<nat>>, required: map<ServiceID, int>,
                            plans: seq<PlannedService>, n: nat)
    requires n <= |plans|
  {
    forall j: nat :: j < n ==> Trouble(env, planned, required, plans[j], FatesOf(env, planned, plans, j)).None?
  }
}
