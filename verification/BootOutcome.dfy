/**
 The outcome of a boot in terms of what is declared: the dependencies between the starting services, the configured
 instances and the environment.
 */
module BootOutcome {
  import opened BootFates
  import opened BootPlan
  import opened Orders
  import opened Results
  import opened ServiceGraph

  ghost predicate Lists(instances: seq<nat>, n: int) {
    forall i: nat :: i in instances <==> i < n
  }

  /** The services, instances and waits of a plan are exactly the declared ones; `named` are the starting services. */
  ghost predicate Renders(services: seq<PlannedService>, planned: map<ServiceID, seq<nat>>, specs: Specs,
                          named: set<ServiceID>, configs: map<ServiceID, Config>) {
    && StartOrder(services) && Services(services) == named && "" !in named
    && (forall q :: q in services ==> WaitsDeclared(specs, named, q))
    && (forall s :: s in named ==> InstancesDeclared(planned, configs, s))
    && (forall s :: HasInstances(planned, s) ==> s in named)
  }

  /** The service waits for its declared dependencies, in the order of their names. */
  ghost predicate WaitsDeclared(specs: Specs, named: set<ServiceID>, q: PlannedService) {
    StrictlyAscending(q.startAfter) && forall d :: d in q.startAfter <==> DependsOn(specs, named, q.service, d)
  }

  ghost predicate InstancesDeclared(planned: map<ServiceID, seq<nat>>, configs: map<ServiceID, Config>, s: ServiceID) {
    Num(configs, s) > 0 && Lists(Instances(planned, s), Num(configs, s))
  }

  /** Some configured instance is started and ends up with this report. */
  ghost predicate SomeEndsUp(env: Env, configs: map<ServiceID, Config>, s: ServiceID, report: Option<Report>) {
    exists i: nat :: i < Num(configs, s) && EndsUp(env, s, i, report)
  }

  ghost function OwnFate(env: Env, configs: map<ServiceID, Config>, s: ServiceID): Status {
    if SomeEndsUp(env, configs, s, Some(Ready)) then Up
    else if SomeEndsUp(env, configs, s, None) then Hangs
    else Down
  }

  ghost predicate LacksDependency(specs: Specs, named: set<ServiceID>, fates: Fates, s: ServiceID) {
    exists d :: DependsOn(specs, named, s, d) && FateIn(fates, d) != Up
  }

  /** A service is what its own instances make of it when all its dependencies are up, and down otherwise. */
  ghost predicate Solves(env: Env, specs: Specs, named: set<ServiceID>, configs: map<ServiceID, Config>, fates: Fates) {
    && fates.Keys == named
    && forall s :: s in named ==>
         fates[s] == if LacksDependency(specs, named, fates, s) then Down else OwnFate(env, configs, s)
  }

  /** Without a cycle these equations have one solution. */
  lemma SolutionUnique(env: Env, specs: Specs, present: set<ServiceID>, named: set<ServiceID>,
                       configs: map<ServiceID, Config>, ordered: seq<ServiceID>, f: Fates, g: Fates)
    requires Topological(specs, present, ordered) && ToSet(ordered) == present && named <= present
    requires Solves(env, specs, named, configs, f) && Solves(env, specs, named, configs, g)
    ensures f == g
  {
    forall s | s in named ensures f[s] == g[s] {
      assert s in ToSet(ordered);
      var k :| 0 <= k < |ordered| && ordered[k] == s;
      SolutionAt(env, specs, present, named, configs, ordered, f, g, k);
    }
  }

  lemma {:induction false} SolutionAt(env: Env, specs: Specs, present: set<ServiceID>, named: set<ServiceID>,
                                      configs: map<ServiceID, Config>, ordered: seq<ServiceID>, f: Fates, g: Fates,
                                      k: nat)
    requires Topological(specs, present, ordered) && named <= present && k < |ordered| && ordered[k] in named
    requires Solves(env, specs, named, configs, f) && Solves(env, specs, named, configs, g)
    ensures f[ordered[k]] == g[ordered[k]]
  {
    forall d | DependsOn(specs, named, ordered[k], d) ensures FateIn(f, d) == FateIn(g, d) {
      assert DependsOn(specs, present, ordered[k], d);
      var i := TopologicalOrders(specs, present, ordered, k, d);
      SolutionAt(env, specs, present, named, configs, ordered, f, g, i);
    }
    assert LacksDependency(specs, named, f, ordered[k]) <==> LacksDependency(specs, named, g, ordered[k]);
  }

  // ---------------------------------------------------- the plan solves the equations

  lemma FateIsOwn(env: Env, configs: map<ServiceID, Config>, s: ServiceID, instances: seq<nat>)
    requires Lists(instances, Num(configs, s))
    ensures Fate(env, s, instances) == OwnFate(env, configs, s)
  {
    forall report
      ensures SomeEndsUp(env, configs, s, report) <==> exists i :: i in instances && EndsUp(env, s, i, report)
    {
      if SomeEndsUp(env, configs, s, report) {
        var i: nat :| i < Num(configs, s) && EndsUp(env, s, i, report);
        assert i in instances;
      }
    }
  }

  /** The fate of a service is settled when it is reached. */
  lemma {:induction false} FateSettled(env: Env, planned: map<ServiceID, seq<nat>>, services: seq<PlannedService>,
                                       n: nat, m: nat)
    requires n < m <= |services| &&
      forall i, j :: 0 <= i < j < |services| ==> services[i].service != services[j].service
    ensures FateIn(FatesOf(env, planned, services, m), services[n].service) ==
            NextFate(env, planned, services[n], FatesOf(env, planned, services, n))
    decreases m
  {
    if n < m - 1 {
      FateSettled(env, planned, services, n, m - 1);
      assert services[n].service != services[m - 1].service;
    }
  }

  lemma {:induction false} FatesKeys(env: Env, planned: map<ServiceID, seq<nat>>, services: seq<PlannedService>, m: nat)
    requires m <= |services|
    ensures FatesOf(env, planned, services, m).Keys == Services(services[..m])
  {
    if m > 0 {
      FatesKeys(env, planned, services, m - 1);
      assert services[..m] == services[..m - 1] + [services[m - 1]];
    }
  }

  /** A dependency has the same fate when it is waited for as at the end. */
  lemma DependencySettled(env: Env, planned: map<ServiceID, seq<nat>>, services: seq<PlannedService>, n: nat,
                          d: ServiceID)
    requires n < |services| && StartOrder(services) && d in services[n].startAfter
    ensures FateIn(FatesOf(env, planned, services, n), d) == FateIn(FatesOf(env, planned, services, |services|), d)
  {
    assert d in Services(services[..n]);
    var p :| p in services[..n] && p.service == d;
    var i :| 0 <= i < n && services[..n][i] == p;
    FateSettled(env, planned, services, i, n);
    FateSettled(env, planned, services, i, |services|);
  }

  /** Of the dependencies of a planned service, those that fail are those that are not up in the end. */
  lemma FailsAtTheEnd(env: Env, services: seq<PlannedService>, planned: map<ServiceID, seq<nat>>, specs: Specs,
                      named: set<ServiceID>, configs: map<ServiceID, Config>, n: nat, d: ServiceID)
    requires Renders(services, planned, specs, named, configs) && n < |services| && d in services[n].startAfter
    ensures DependsOn(specs, named, services[n].service, d)
    ensures Fails(planned, FatesOf(env, planned, services, n), d) <==>
            FateIn(FatesOf(env, planned, services, |services|), d) != Up
  {
    assert services[n] in services && WaitsDeclared(specs, named, services[n]);
    DependencySettled(env, planned, services, n, d);
    assert InstancesDeclared(planned, configs, d);
    assert 0 in Instances(planned, d);
  }

  lemma MissingIsLacking(env: Env, services: seq<PlannedService>, planned: map<ServiceID, seq<nat>>, specs: Specs,
                         named: set<ServiceID>, configs: map<ServiceID, Config>, n: nat)
    requires Renders(services, planned, specs, named, configs) && n < |services|
    ensures FirstMissing(services[n].startAfter, planned, FatesOf(env, planned, services, n)).Some? <==>
            LacksDependency(specs, named, FatesOf(env, planned, services, |services|), services[n].service)
  {
    assert services[n] in services && WaitsDeclared(specs, named, services[n]);
    forall d | d in services[n].startAfter
      ensures Fails(planned, FatesOf(env, planned, services, n), d) <==>
              FateIn(FatesOf(env, planned, services, |services|), d) != Up
    {
      FailsAtTheEnd(env, services, planned, specs, named, configs, n, d);
    }
  }

  lemma PlanSolves(env: Env, services: seq<PlannedService>, planned: map<ServiceID, seq<nat>>, specs: Specs,
                   named: set<ServiceID>, configs: map<ServiceID, Config>)
    requires Renders(services, planned, specs, named, configs)
    ensures Solves(env, specs, named, configs, FatesOf(env, planned, services, |services|))
  {
    var fates := FatesOf(env, planned, services, |services|);
    FatesKeys(env, planned, services, |services|);
    assert services[..|services|] == services;
    forall s | s in named
      ensures fates[s] == if LacksDependency(specs, named, fates, s) then Down else OwnFate(env, configs, s)
    {
      var q :| q in services && q.service == s;
      var n :| 0 <= n < |services| && services[n] == q;
      FateSettled(env, planned, services, n, |services|);
      MissingIsLacking(env, services, planned, specs, named, configs, n);
      assert InstancesDeclared(planned, configs, s);
      FateIsOwn(env, configs, s, Instances(planned, s));
    }
  }

  // --------------------------------------------------------------- when a boot succeeds

  /** Before a service waits for a dependency that hangs, it meets one that is down. */
  ghost predicate NoEndlessWait(specs: Specs, named: set<ServiceID>, fates: Fates, s: ServiceID) {
    forall d :: DependsOn(specs, named, s, d) && FateIn(fates, d) == Hangs ==> DownBefore(specs, named, fates, s, d)
  }

  ghost predicate DownBefore(specs: Specs, named: set<ServiceID>, fates: Fates, s: ServiceID, d: ServiceID) {
    exists e :: DependsOn(specs, named, s, e) && CompareStrings(e, d) < 0 && FateIn(fates, e) == Down
  }

  ghost predicate NoneRefused(env: Env, configs: map<ServiceID, Config>, s: ServiceID) {
    forall i: nat :: i < Num(configs, s) ==> !env.refuses(s, i)
  }

  /** No service waits forever, and every critical service is started in full and comes up. */
  ghost predicate Boots(env: Env, specs: Specs, named: set<ServiceID>, configs: map<ServiceID, Config>,
                        critical: set<ServiceID>, fates: Fates) {
    && (forall s :: s in named ==> NoEndlessWait(specs, named, fates, s))
    && (forall s :: s in critical ==> FateIn(fates, s) == Up && NoneRefused(env, configs, s))
  }

  ghost predicate RequiredAre(required: map<ServiceID, int>, critical: set<ServiceID>) {
    forall s :: IsRequired(required, s) <==> s in critical
  }

  /** In an ascending list the first failing dependency is the least one. */
  lemma {:induction false} FirstIsLeast(deps: seq<ServiceID>, planned: map<ServiceID, seq<nat>>, fates: Fates,
                                        d: ServiceID)
    requires StrictlyAscending(deps) && d in deps && Fails(planned, fates, d)
    ensures var m := FirstMissing(deps, planned, fates); m.Some? && (m.value == d || CompareStrings(m.value, d) < 0)
    decreases |deps|
  {
    if !Fails(planned, fates, deps[0]) {
      assert forall i, j :: 0 <= i < j < |deps[1..]| ==> CompareStrings(deps[1..][i], deps[1..][j]) < 0;
      FirstIsLeast(deps[1..], planned, fates, d);
    } else if d != deps[0] {
      var k :| 0 <= k < |deps| && deps[k] == d;
    }
  }

  /**
   The n-th service is passed without trouble exactly when it neither waits forever nor is a critical one that fails.
   */
  lemma NoTroubleAt(env: Env, services: seq<PlannedService>, planned: map<ServiceID, seq<nat>>, specs: Specs,
                    named: set<ServiceID>, configs: map<ServiceID, Config>, required: map<ServiceID, int>, n: nat)
    requires Renders(services, planned, specs, named, configs) && n < |services|
    ensures var fates, s := FatesOf(env, planned, services, |services|), services[n].service;
      Trouble(env, planned, required, services[n], FatesOf(env, planned, services, n)).None? <==>
        Passes(env, specs, named, configs, required, fates, s)
  {
    var fates, before := FatesOf(env, planned, services, |services|), FatesOf(env, planned, services, n);
    var p := services[n];
    assert p in services && InstancesDeclared(planned, configs, p.service);
    MissingIsLacking(env, services, planned, specs, named, configs, n);
    RefusedIsDeclared(env, planned, configs, p.service);
    var m := FirstMissing(p.startAfter, planned, before);
    if m.Some? {
      FailsAtTheEnd(env, services, planned, specs, named, configs, n, m.value);
      DependencySettled(env, planned, services, n, m.value);
      WaitEnds(env, services, planned, specs, named, configs, n, m.value);
    }
  }

  lemma RefusedIsDeclared(env: Env, planned: map<ServiceID, seq<nat>>, configs: map<ServiceID, Config>, s: ServiceID)
    requires Lists(Instances(planned, s), Num(configs, s))
    ensures SomeRefused(env, planned, s) <==> !NoneRefused(env, configs, s)
  {
    if !NoneRefused(env, configs, s) {
      var i: nat :| i < Num(configs, s) && env.refuses(s, i);
      assert i in Instances(planned, s);
    }
  }

  /** The least dependency that is not up decides whether the wait ends. */
  lemma LeastDecides(specs: Specs, named: set<ServiceID>, fates: Fates, s: ServiceID, first: ServiceID)
    requires DependsOn(specs, named, s, first) && FateIn(fates, first) != Up
    requires forall d :: DependsOn(specs, named, s, d) && FateIn(fates, d) != Up ==>
      first == d || CompareStrings(first, d) < 0
    ensures NoEndlessWait(specs, named, fates, s) <==> FateIn(fates, first) == Down
  {
    if FateIn(fates, first) == Hangs && DownBefore(specs, named, fates, s, first) {
      var e :| DependsOn(specs, named, s, e) && CompareStrings(e, first) < 0 && FateIn(fates, e) == Down;
      CompareStringsAntisymmetric(e, first);
    }
  }

  lemma WaitEnds(env: Env, services: seq<PlannedService>, planned: map<ServiceID, seq<nat>>, specs: Specs,
                 named: set<ServiceID>, configs: map<ServiceID, Config>, n: nat, first: ServiceID)
    requires Renders(services, planned, specs, named, configs) && n < |services|
    requires FirstMissing(services[n].startAfter, planned, FatesOf(env, planned, services, n)) == Some(first)
    ensures var fates := FatesOf(env, planned, services, |services|);
      NoEndlessWait(specs, named, fates, services[n].service) <==> FateIn(fates, first) == Down
  {
    var fates, p := FatesOf(env, planned, services, |services|), services[n];
    FailsAtTheEnd(env, services, planned, specs, named, configs, n, first);
    forall d | DependsOn(specs, named, p.service, d) && FateIn(fates, d) != Up
      ensures first == d || CompareStrings(first, d) < 0
    {
      assert p in services && WaitsDeclared(specs, named, p);
      FailsAtTheEnd(env, services, planned, specs, named, configs, n, d);
      FirstIsLeast(p.startAfter, planned, FatesOf(env, planned, services, n), d);
    }
    LeastDecides(specs, named, fates, p.service, first);
  }

  /** The service does not wait forever and, when it is required, starts in full. */
  ghost predicate Passes(env: Env, specs: Specs, named: set<ServiceID>, configs: map<ServiceID, Config>,
                         required: map<ServiceID, int>, fates: Fates, s: ServiceID) {
    && NoEndlessWait(specs, named, fates, s)
    && (IsRequired(required, s) ==> !LacksDependency(specs, named, fates, s) && NoneRefused(env, configs, s))
  }

  lemma AllPass(env: Env, services: seq<PlannedService>, planned: map<ServiceID, seq<nat>>, specs: Specs,
                named: set<ServiceID>, configs: map<ServiceID, Config>, required: map<ServiceID, int>)
    requires Renders(services, planned, specs, named, configs)
    ensures NoTrouble(env, planned, required, services, |services|) <==>
      forall s :: s in named ==>
        Passes(env, specs, named, configs, required, FatesOf(env, planned, services, |services|), s)
  {
    forall n: nat | n < |services|
      ensures services[n].service in named
      ensures Trouble(env, planned, required, services[n], FatesOf(env, planned, services, n)).None? <==>
        Passes(env, specs, named, configs, required, FatesOf(env, planned, services, |services|), services[n].service)
    {
      assert services[n] in services;
      NoTroubleAt(env, services, planned, specs, named, configs, required, n);
    }
    forall s | s in named ensures exists n: nat :: n < |services| && services[n].service == s {
      var q :| q in services && q.service == s;
      var n :| 0 <= n < |services| && services[n] == q;
    }
  }

  lemma BootsWhenAllPass(env: Env, specs: Specs, named: set<ServiceID>, configs: map<ServiceID, Config>,
                         required: map<ServiceID, int>, critical: set<ServiceID>, fates: Fates)
    requires Solves(env, specs, named, configs, fates) && RequiredAre(required, critical) && critical <= named
    ensures Boots(env, specs, named, configs, critical, fates) <==>
      && (forall s :: s in named ==> Passes(env, specs, named, configs, required, fates, s))
      && forall s :: IsRequired(required, s) ==> FateIn(fates, s) == Up
  {
  }

  /** The whole plan passes and every required service comes up exactly when the boot can succeed. */
  lemma BootsExactly(env: Env, services: seq<PlannedService>, planned: map<ServiceID, seq<nat>>, specs: Specs,
                     named: set<ServiceID>, configs: map<ServiceID, Config>, required: map<ServiceID, int>,
                     critical: set<ServiceID>)
    requires Renders(services, planned, specs, named, configs) && RequiredAre(required, critical) && critical <= named
    ensures var fates := FatesOf(env, planned, services, |services|);
      Boots(env, specs, named, configs, critical, fates) <==>
        && NoTrouble(env, planned, required, services, |services|)
        && forall s :: IsRequired(required, s) ==> FateIn(fates, s) == Up
  {
    PlanSolves(env, services, planned, specs, named, configs);
    AllPass(env, services, planned, specs, named, configs, required);
    BootsWhenAllPass(env, specs, named, configs, required, critical, FatesOf(env, planned, services, |services|));
  }

  // ------------------------------------------------------ the addresses waited for

  const TIDB: ServiceID := "tidb"
  const TIPROXY: ServiceID := "tiproxy"

  /** The service is started, and some instance of it at this address ends up with this report. */
  ghost predicate Offers(env: Env, specs: Specs, named: set<ServiceID>, configs: map<ServiceID, Config>, fates: Fates,
                         s: ServiceID, addr: string, report: Option<Report>) {
    && s in named && !LacksDependency(specs, named, fates, s)
    && exists i: nat :: i < Num(configs, s) && EndsUpAt(env, s, i, addr, report)
  }

  /** Every instance of the service that is started and has an address reports some day. */
  ghost predicate AllReport(env: Env, specs: Specs, named: set<ServiceID>, configs: map<ServiceID, Config>,
                            fates: Fates, s: ServiceID) {
    forall addr :: !Offers(env, specs, named, configs, fates, s, addr, None)
  }

  /** The boot passes, and no address of TiDB or TiProxy is waited for forever. */
  ghost predicate Completes(env: Env, specs: Specs, named: set<ServiceID>, configs: map<ServiceID, Config>,
                            critical: set<ServiceID>, fates: Fates) {
    && Boots(env, specs, named, configs, critical, fates)
    && AllReport(env, specs, named, configs, fates, TIDB) && AllReport(env, specs, named, configs, fates, TIPROXY)
  }

  /** What the starter tries of a planned service is what its declaration offers. */
  lemma TriedIsOffered(env: Env, services: seq<PlannedService>, planned: map<ServiceID, seq<nat>>, specs: Specs,
                       named: set<ServiceID>, configs: map<ServiceID, Config>, n: nat, addr: string,
                       report: Option<Report>)
    requires Renders(services, planned, specs, named, configs) && n < |services|
    ensures var s, fates := services[n].service, FatesOf(env, planned, services, |services|);
      Offers(env, specs, named, configs, fates, s, addr, report) <==>
      exists i :: i in Tried(planned, services[n], FatesOf(env, planned, services, n)) &&
                  EndsUpAt(env, s, i, addr, report)
  {
    var s, fates := services[n].service, FatesOf(env, planned, services, |services|);
    var tried := Tried(planned, services[n], FatesOf(env, planned, services, n));
    assert services[n] in services && InstancesDeclared(planned, configs, s);
    MissingIsLacking(env, services, planned, specs, named, configs, n);
    if Offers(env, specs, named, configs, fates, s, addr, report) {
      var i: nat :| i < Num(configs, s) && EndsUpAt(env, s, i, addr, report);
      assert i in tried;
    }
  }
}
