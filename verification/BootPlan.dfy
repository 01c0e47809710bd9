/**
 Planning a boot: which services start, in which priority order, after which others
 (planProcs, the service part of buildBootPlanWithProcs, plannedServicesFromBootPlan).
 */
module BootPlan {
  import opened Orders
  import opened Results
  import opened ServiceGraph
  import opened TopoSort

  datatype Config = Config(num: int, binPath: string)

  /** A registered service as the options see it. */
  datatype Candidate = Candidate(id: ServiceID, enabled: bool, config: Config, critical: bool)

  // ---------------------------------------------------------- priority order

  datatype StartKey = StartKey(hasUserBin: bool, critical: bool, id: string)

  function KeyFor(keys: map<ServiceID, StartKey>, a: ServiceID): StartKey {
    var k := if a in keys then keys[a] else StartKey(false, false, "");
    if k.id == "" then k.(id := a) else k
  }

  function CompareKeys(a: StartKey, b: StartKey): int {
    if a.hasUserBin != b.hasUserBin then (if a.hasUserBin then -1 else 1)
    else if a.critical != b.critical then (if a.critical then -1 else 1)
    else CompareStrings(a.id, b.id)
  }

  function ByPriority(keys: map<ServiceID, StartKey>): Compare<ServiceID> {
    (a, b) => CompareKeys(KeyFor(keys, a), KeyFor(keys, b))
  }

  /** Keys that carry their own service's name order all services strictly. */
  lemma ByPriorityIsTotal(keys: map<ServiceID, StartKey>)
    requires forall a :: a in keys ==> keys[a].id == a
    ensures TotalOrder(ByPriority(keys))
  {
    CompareStringsTotal();
    var cmp := ByPriority(keys);
    assert forall a :: KeyFor(keys, a).id == a;
    forall a, b, c | cmp(a, b) <= 0 && cmp(b, c) <= 0 ensures cmp(a, c) <= 0 {
      CompareKeysTransitive(KeyFor(keys, a), KeyFor(keys, b), KeyFor(keys, c));
    }
  }

  lemma CompareKeysTransitive(a: StartKey, b: StartKey, c: StartKey)
    requires CompareKeys(a, b) <= 0 && CompareKeys(b, c) <= 0
    ensures CompareKeys(a, c) <= 0
  {
    if CompareStrings(a.id, b.id) <= 0 && CompareStrings(b.id, c.id) <= 0 {
      CompareStringsTransitive(a.id, b.id, c.id);
    }
  }

  // --------------------------------------------------------------- planProcs

  ghost predicate DistinctIds(all: seq<Candidate>) {
    forall i, j :: 0 <= i < j < |all| ==> all[i].id != all[j].id
  }

  predicate Starts(c: Candidate) {
    c.enabled && c.config.num > 0
  }

  ghost function StartingIds(all: seq<Candidate>): set<ServiceID> {
    set c | c in all && Starts(c) :: c.id
  }

  function KeyOf(c: Candidate): StartKey {
    StartKey(c.config.binPath != "", c.critical, c.id)
  }

  /** The ids, keys and configurations hold what the candidates say, and nothing else. */
  ghost predicate Gathered(all: seq<Candidate>, ids: seq<ServiceID>, keys: map<ServiceID, StartKey>,
                           configs: map<ServiceID, Config>) {
    && Distinct(ids) && ToSet(ids) == StartingIds(all) == keys.Keys
    && (forall c :: c in all && Starts(c) ==> c.id in keys && keys[c.id] == KeyOf(c))
    && configs.Keys == (set c | c in all && c.enabled :: c.id)
    && (forall c :: c in all && c.enabled ==> configs[c.id] == c.config)
  }

  method Gather(all: seq<Candidate>)
    returns (ids: seq<ServiceID>, keys: map<ServiceID, StartKey>, configs: map<ServiceID, Config>)
    requires DistinctIds(all)
    ensures Gathered(all, ids, keys, configs)
  {
    ids, keys, configs := [], map[], map[];
    for i := 0 to |all|
      invariant Gathered(all[..i], ids, keys, configs)
    {
      var c := all[i];
      assert all[..i + 1] == all[..i] + [c];
      assert forall d :: d in all[..i] ==> d.id != c.id;
      GatherOne(all[..i], c, ids, keys, configs);
      if !c.enabled {
        continue;
      }
      configs := configs[c.id := c.config];
      if c.config.num > 0 {
        ids := ids + [c.id];
        keys := keys[c.id := KeyOf(c)];
      }
    }
    assert all[..|all|] == all;
  }

  lemma GatherOne(all: seq<Candidate>, c: Candidate, ids: seq<ServiceID>, keys: map<ServiceID, StartKey>,
                  configs: map<ServiceID, Config>)
    requires Gathered(all, ids, keys, configs) && forall d :: d in all ==> d.id != c.id
    ensures !c.enabled ==> Gathered(all + [c], ids, keys, configs)
    ensures c.enabled && c.config.num <= 0 ==> Gathered(all + [c], ids, keys, configs[c.id := c.config])
    ensures Starts(c) ==> Gathered(all + [c], ids + [c.id], keys[c.id := KeyOf(c)], configs[c.id := c.config])
  {
    var all' := all + [c];
    assert forall d :: d in all' <==> d in all || d == c;
    assert StartingIds(all') == StartingIds(all) + if Starts(c) then {c.id} else {};
    assert c.id !in StartingIds(all);
    assert ToSet(ids + [c.id]) == ToSet(ids) + {c.id};
    assert c.id !in ToSet(ids);
  }

  method PlanProcs(all: seq<Candidate>, specs: Specs)
    returns (r: Result<seq<ServiceID>, seq<ServiceID>>, keys: map<ServiceID, StartKey>, configs: map<ServiceID, Config>)
    requires DistinctIds(all)
    ensures SortOutcome(specs, StartingIds(all), ByPriority(keys), r)
    ensures TotalOrder(ByPriority(keys))
    ensures exists ids :: Gathered(all, ids, keys, configs)
  {
    var ids;
    ids, keys, configs := Gather(all);
    KeysNamed(all, ids, keys, configs);
    ByPriorityIsTotal(keys);
    r := SortWithCompare(ids, specs, ByPriority(keys));
  }

  /**
   However the registry lists the services and their dependencies, the plan is the same: the same order,
   or the same report of a cycle.
   */
  lemma PlanIsCanonical(all: seq<Candidate>, all': seq<Candidate>, specs: Specs, specs': Specs,
                        r: Result<seq<ServiceID>, seq<ServiceID>>, r': Result<seq<ServiceID>, seq<ServiceID>>,
                        keys: map<ServiceID, StartKey>, keys': map<ServiceID, StartKey>, ids: seq<ServiceID>,
                        ids': seq<ServiceID>, configs: map<ServiceID, Config>, configs': map<ServiceID, Config>)
    requires multiset(all) == multiset(all')
    requires SameDependencies(specs, specs', StartingIds(all))
    requires Gathered(all, ids, keys, configs) && Gathered(all', ids', keys', configs')
    requires SortOutcome(specs, StartingIds(all), ByPriority(keys), r)
    requires SortOutcome(specs', StartingIds(all'), ByPriority(keys'), r')
    ensures r.Ok? <==> Acyclic(specs, StartingIds(all))
    ensures r == r'
  {
    SameStarting(all, all');
    SameKeys(all, all', ids, ids', keys, keys', configs, configs');
    KeysNamed(all, ids, keys, configs);
    ByPriorityIsTotal(keys);
    SortIsCanonical(specs, specs', StartingIds(all), ByPriority(keys), r, r');
  }

  /** Among the services that could come next, user binaries go first, then critical services, then names. */
  lemma ChosenByPriority(specs: Specs, present: set<ServiceID>, keys: map<ServiceID, StartKey>, out: seq<ServiceID>,
                         i: nat, y: ServiceID)
    requires SortOutcome(specs, present, ByPriority(keys), Ok(out)) && TotalOrder(ByPriority(keys))
    requires forall a :: a in keys ==> keys[a].id == a
    requires i < |out| && Eligible(specs, present, ToSet(out[..i]), y) && out[i] in keys && y in keys && y != out[i]
    ensures keys[y].hasUserBin ==> keys[out[i]].hasUserBin
    ensures keys[y].hasUserBin == keys[out[i]].hasUserBin ==> (keys[y].critical ==> keys[out[i]].critical)
    ensures keys[y].hasUserBin == keys[out[i]].hasUserBin && keys[y].critical == keys[out[i]].critical ==>
      CompareStrings(out[i], y) < 0
  {
    assert KeyFor(keys, out[i]) == keys[out[i]] && KeyFor(keys, y) == keys[y];
    assert ByPriority(keys)(out[i], y) <= 0;
  }

  lemma SameStarting(all: seq<Candidate>, all': seq<Candidate>)
    requires multiset(all) == multiset(all')
    ensures (forall c :: c in all <==> c in all') && StartingIds(all) == StartingIds(all')
  {
    SameMembers(all, all');
  }

  lemma KeysNamed(all: seq<Candidate>, ids: seq<ServiceID>, keys: map<ServiceID, StartKey>,
                  configs: map<ServiceID, Config>)
    requires Gathered(all, ids, keys, configs)
    ensures forall a :: a in keys ==> keys[a].id == a
  {
  }

  lemma SameKeys(all: seq<Candidate>, all': seq<Candidate>, ids: seq<ServiceID>, ids': seq<ServiceID>,
                 keys: map<ServiceID, StartKey>, keys': map<ServiceID, StartKey>, configs: map<ServiceID, Config>,
                 configs': map<ServiceID, Config>)
    requires (forall c :: c in all <==> c in all') && StartingIds(all) == StartingIds(all')
    requires Gathered(all, ids, keys, configs) && Gathered(all', ids', keys', configs')
    ensures keys == keys'
  {
  }

  // ------------------------------------------------------- the service plans

  /** One planned instance. */
  datatype ServicePlan = ServicePlan(service: ServiceID, index: nat, startAfter: seq<ServiceID>)

  function Num(configs: map<ServiceID, Config>, id: ServiceID): int {
    if id in configs then configs[id].num else 0
  }

  /** slices.Compact: drops each element equal to the one before it. */
  function Compact(s: seq<string>): (r: seq<string>)
    ensures forall x :: x in r <==> x in s
    ensures s != [] ==> r != [] && r[0] == s[0]
  {
    if |s| < 2 then s
    else if s[0] == s[1] then Compact(s[1..])
    else [s[0]] + Compact(s[1..])
  }

  ghost predicate StrictlyAscending(s: seq<string>) {
    forall i, j :: 0 <= i < j < |s| ==> CompareStrings(s[i], s[j]) < 0
  }

  lemma {:induction false} CompactAscending(s: seq<string>)
    requires Sorted(s, CompareStrings)
    ensures StrictlyAscending(Compact(s))
  {
    if |s| >= 2 {
      CompactAscending(s[1..]);
      var r := Compact(s[1..]);
      if s[0] != s[1] {
        forall j | 0 <= j < |r| ensures CompareStrings(s[0], r[j]) < 0 {
          assert r[j] in s[1..];
          var k :| 0 <= k < |s[1..]| && s[1..][k] == r[j];
          assert CompareStrings(s[0], s[k + 1]) <= 0;
          if s[0] == s[k + 1] {
            assert CompareStrings(s[1], s[k + 1]) <= 0 && CompareStrings(s[0], s[1]) <= 0;
            CompareStringsAntisymmetric(s[0], s[1]);
          }
        }
      }
    }
  }

  /** The dependencies of a service that are themselves planned, sorted and without repetition. */
  ghost predicate PlannedAfter(after: seq<ServiceID>, specs: Specs, configs: map<ServiceID, Config>, id: ServiceID) {
    && StrictlyAscending(after)
    && forall d :: d in after <==> d in StartAfter(specs, id) && d != "" && Num(configs, d) > 0
  }

  method FilterStartAfter(specs: Specs, configs: map<ServiceID, Config>, id: ServiceID) returns (after: seq<ServiceID>)
    ensures PlannedAfter(after, specs, configs, id)
  {
    var declared := StartAfter(specs, id);
    after := [];
    for j := 0 to |declared|
      invariant forall d :: d in after <==> d in declared[..j] && d != "" && Num(configs, d) > 0
    {
      assert declared[..j + 1] == declared[..j] + [declared[j]];
      if declared[j] == "" || Num(configs, declared[j]) <= 0 {
        continue;
      }
      after := after + [declared[j]];
    }
    assert declared[..|declared|] == declared;
    var sorted := StableSort(after, CompareStrings);
    SameMembers(after, sorted);
    CompareStringsTotal();
    StableSortSorted(after, CompareStrings);
    CompactAscending(sorted);
    after := Compact(sorted);
  }

  /** Plan `p` is an instance of a planned service, with that service's planned dependencies. */
  ghost predicate WellPlanned(p: ServicePlan, specs: Specs, configs: map<ServiceID, Config>) {
    && p.service != "" && p.service in specs && p.index < Num(configs, p.service)
    && PlannedAfter(p.startAfter, specs, configs, p.service)
  }

  ghost predicate HasPlan(plans: seq<ServicePlan>, id: ServiceID, i: int) {
    exists k :: 0 <= k < |plans| && plans[k].service == id && plans[k].index == i
  }

  /** Every instance of the listed services has exactly one plan, and plans follow the list's order. */
  ghost predicate PlansOf(plans: seq<ServicePlan>, ids: seq<ServiceID>, specs: Specs, configs: map<ServiceID, Config>) {
    && (forall k :: 0 <= k < |plans| ==> WellPlanned(plans[k], specs, configs) && plans[k].service in ids)
    && (forall id, i :: id in ids && id != "" && 0 <= i < Num(configs, id) ==> HasPlan(plans, id, i))
    && (forall k, k' :: 0 <= k < k' < |plans| ==>
          plans[k].service != plans[k'].service || plans[k].index != plans[k'].index)
  }

  /** Each planned dependency of a plan has a plan before it. */
  ghost predicate DependenciesFirst(plans: seq<ServicePlan>) {
    forall k, d :: 0 <= k < |plans| && d in plans[k].startAfter ==> PlannedBefore(plans, k, d)
  }

  ghost predicate PlannedBefore(plans: seq<ServicePlan>, k: int, d: ServiceID)
    requires k <= |plans|
  {
    exists k' :: 0 <= k' < k && plans[k'].service == d
  }

  /** Appends the plans of one service. */
  method ExpandService(id: ServiceID, n: nat, after: seq<ServiceID>, plans0: seq<ServicePlan>)
    returns (plans: seq<ServicePlan>)
    ensures |plans| == |plans0| + n && plans[..|plans0|] == plans0
    ensures forall k :: |plans0| <= k < |plans| ==> plans[k] == ServicePlan(id, k - |plans0|, after)
  {
    plans := plans0;
    for i := 0 to n
      invariant |plans| == |plans0| + i && plans[..|plans0|] == plans0
      invariant forall k :: |plans0| <= k < |plans| ==> plans[k] == ServicePlan(id, k - |plans0|, after)
    {
      plans := plans + [ServicePlan(id, i, after)];
    }
  }

  lemma PlansExtend(plans0: seq<ServicePlan>, plans: seq<ServicePlan>, ids: seq<ServiceID>, id: ServiceID,
                    after: seq<ServiceID>, specs: Specs, configs: map<ServiceID, Config>)
    requires PlansOf(plans0, ids, specs, configs) && id !in ids && id != "" && id in specs && Num(configs, id) > 0
    requires PlannedAfter(after, specs, configs, id)
    requires |plans| == |plans0| + Num(configs, id) && plans[..|plans0|] == plans0
    requires forall k :: |plans0| <= k < |plans| ==> plans[k] == ServicePlan(id, k - |plans0|, after)
    ensures PlansOf(plans, ids + [id], specs, configs)
  {
    var n := |plans0|;
    assert forall k :: 0 <= k < n ==> plans[k] == plans0[k];
    forall k | 0 <= k < |plans| ensures WellPlanned(plans[k], specs, configs) && plans[k].service in ids + [id] {
    }
    forall x, i | x in ids + [id] && x != "" && 0 <= i < Num(configs, x) ensures HasPlan(plans, x, i) {
      if x == id {
        assert plans[n + i].service == x;
      } else {
        assert HasPlan(plans0, x, i);
        var k :| 0 <= k < n && plans0[k].service == x && plans0[k].index == i;
        assert plans[k].service == x;
      }
    }
  }

  lemma DependenciesExtend(plans0: seq<ServicePlan>, plans: seq<ServicePlan>, after: seq<ServiceID>)
    requires DependenciesFirst(plans0) && |plans0| <= |plans| && plans[..|plans0|] == plans0
    requires forall k :: |plans0| <= k < |plans| ==> plans[k].startAfter == after
    requires forall d :: d in after ==> PlannedBefore(plans0, |plans0|, d)
    ensures DependenciesFirst(plans)
  {
  }

  datatype PlanError = UnknownService(id: ServiceID)

  /** The service loop of buildBootPlanWithProcs, for the order planProcs produced. */
  method BuildServicePlans(ordered: seq<ServiceID>, specs: Specs, configs: map<ServiceID, Config>)
    returns (r: Result<seq<ServicePlan>, PlanError>)
    requires Distinct(ordered)
    ensures r.Ok? ==> PlansOf(r.value, ordered, specs, configs)
    ensures r.Err? ==> r.error.id != "" && r.error.id in ordered && r.error.id !in specs && Num(configs, r.error.id) > 0
    ensures r.Ok? && Topological(specs, ToSet(ordered), ordered) && PlannedExactly(ordered, configs) ==>
      DependenciesFirst(r.value)
  {
    var plans: seq<ServicePlan> := [];
    ghost var topological := Topological(specs, ToSet(ordered), ordered) && PlannedExactly(ordered, configs);
    for n := 0 to |ordered|
      invariant PlansOf(plans, ordered[..n], specs, configs)
      invariant topological ==> DependenciesFirst(plans)
    {
      var id := ordered[n];
      assert ordered[..n + 1] == ordered[..n] + [id] && id !in ordered[..n];
      if id == "" || Num(configs, id) <= 0 {
        SkipService(plans, ordered[..n], id, specs, configs);
        continue;
      }
      if id !in specs {
        return Err(UnknownService(id));
      }
      var after := FilterStartAfter(specs, configs, id);
      if topological {
        AfterIsPlanned(plans, ordered, n, after, specs, configs);
      }
      ghost var plans0 := plans;
      plans := ExpandService(id, Num(configs, id), after, plans);
      PlansExtend(plans0, plans, ordered[..n], id, after, specs, configs);
      if topological {
        DependenciesExtend(plans0, plans, after);
      }
    }
    assert ordered[..|ordered|] == ordered;
    return Ok(plans);
  }

  /** The planned services are those with instances, as planProcs leaves them. */
  ghost predicate PlannedExactly(ordered: seq<ServiceID>, configs: map<ServiceID, Config>) {
    forall d :: d in ordered <==> Num(configs, d) > 0
  }

  lemma SkipService(plans: seq<ServicePlan>, ids: seq<ServiceID>, id: ServiceID, specs: Specs,
                    configs: map<ServiceID, Config>)
    requires PlansOf(plans, ids, specs, configs) && (id == "" || Num(configs, id) <= 0)
    ensures PlansOf(plans, ids + [id], specs, configs)
  {
  }

  lemma AfterIsPlanned(plans: seq<ServicePlan>, ordered: seq<ServiceID>, n: nat, after: seq<ServiceID>, specs: Specs,
                       configs: map<ServiceID, Config>)
    requires n < |ordered| && Topological(specs, ToSet(ordered), ordered) && PlannedExactly(ordered, configs)
    requires PlansOf(plans, ordered[..n], specs, configs) && PlannedAfter(after, specs, configs, ordered[n])
    ensures forall d :: d in after ==> PlannedBefore(plans, |plans|, d)
  {
    forall d | d in after ensures PlannedBefore(plans, |plans|, d) {
      assert DependsOn(specs, ToSet(ordered), ordered[n], d);
      var i := TopologicalOrders(specs, ToSet(ordered), ordered, n, d);
      assert ordered[..n][i] == d;
      assert HasPlan(plans, d, 0);
    }
  }

  // ------------------------------------------------- plannedServicesFromBootPlan

  datatype PlannedService = PlannedService(service: ServiceID, startAfter: seq<ServiceID>)

  function TrimAll(names: seq<string>, trim: string -> string): (r: seq<string>)
    ensures forall x :: x in r ==> x != "" && exists y :: y in names && trim(y) == x
    ensures forall y :: y in names && trim(y) != "" ==> trim(y) in r
  {
    if names == [] then []
    else
      var front := TrimAll(names[..|names| - 1], trim);
      var x := trim(names[|names| - 1]);
      assert names == names[..|names| - 1] + [names[|names| - 1]];
      if x == "" then front else front + [x]
  }

  ghost function Services(planned: seq<PlannedService>): set<ServiceID> {
    set p | p in planned :: p.service
  }

  /** Services are listed once, each after every service it starts after. */
  ghost predicate StartOrder(planned: seq<PlannedService>) {
    && (forall i, j :: 0 <= i < j < |planned| ==> planned[i].service != planned[j].service)
    && (forall i, d :: 0 <= i < |planned| && d in planned[i].startAfter ==> d in Services(planned[..i]))
  }

  /** Trimming changes no identifier that the plans mention. */
  ghost predicate Trimmed(plans: seq<ServicePlan>, trim: string -> string) {
    forall k :: 0 <= k < |plans| ==>
      trim(plans[k].service) == plans[k].service && forall d :: d in plans[k].startAfter ==> trim(d) == d
  }

  ghost function TrimmedServices(plans: seq<ServicePlan>, trim: string -> string): set<ServiceID> {
    set p | p in plans && trim(p.service) != "" :: trim(p.service)
  }

  /** The services of a list of plans, in order of first appearance. */
  ghost predicate Summarises(planned: seq<PlannedService>, plans: seq<ServicePlan>, trim: string -> string) {
    && Services(planned) == TrimmedServices(plans, trim)
    && (forall q :: q in planned ==>
          exists p :: p in plans && q == PlannedService(trim(p.service), TrimAll(p.startAfter, trim)))
  }

  method PlannedServices(plans: seq<ServicePlan>, trim: string -> string) returns (out: seq<PlannedService>)
    ensures Summarises(out, plans, trim)
    ensures forall i, j :: 0 <= i < j < |out| ==> out[i].service != out[j].service
    ensures DependenciesFirst(plans) && Trimmed(plans, trim) ==> StartOrder(out)
  {
    var seen: set<ServiceID> := {};
    out := [];
    ghost var ordered := DependenciesFirst(plans) && Trimmed(plans, trim);
    for k := 0 to |plans|
      invariant seen == Services(out)
      invariant Summarises(out, plans[..k], trim)
      invariant forall i, j :: 0 <= i < j < |out| ==> out[i].service != out[j].service
      invariant ordered ==> StartOrder(out)
    {
      var id := trim(plans[k].service);
      assert plans[..k + 1] == plans[..k] + [plans[k]];
      if id == "" || id in seen {
        SummaryKept(out, plans[..k], plans[k], trim);
        continue;
      }
      seen := seen + {id};
      var next := PlannedService(id, TrimAll(plans[k].startAfter, trim));
      SummaryExtended(out, plans[..k], plans[k], trim);
      if ordered {
        DependenciesSummarised(out, plans, k, trim);
        StartOrderExtend(out, next);
      }
      out := out + [next];
    }
    assert plans[..|plans|] == plans;
  }

  lemma SummaryKept(out: seq<PlannedService>, plans: seq<ServicePlan>, p: ServicePlan, trim: string -> string)
    requires Summarises(out, plans, trim) && (trim(p.service) == "" || trim(p.service) in Services(out))
    ensures Summarises(out, plans + [p], trim)
  {
  }

  lemma SummaryExtended(out: seq<PlannedService>, plans: seq<ServicePlan>, p: ServicePlan, trim: string -> string)
    requires Summarises(out, plans, trim) && trim(p.service) != ""
    ensures var next := PlannedService(trim(p.service), TrimAll(p.startAfter, trim));
      Summarises(out + [next], plans + [p], trim) && Services(out + [next]) == Services(out) + {trim(p.service)}
  {
    var next := PlannedService(trim(p.service), TrimAll(p.startAfter, trim));
    assert forall q :: q in plans + [p] <==> q in plans || q == p;
    assert forall q :: q in out + [next] <==> q in out || q == next;
    assert Services(out + [next]) == Services(out) + {trim(p.service)};
    assert TrimmedServices(plans + [p], trim) == TrimmedServices(plans, trim) + {trim(p.service)};
  }

  lemma DependenciesSummarised(out: seq<PlannedService>, plans: seq<ServicePlan>, k: nat, trim: string -> string)
    requires k < |plans| && DependenciesFirst(plans) && Trimmed(plans, trim) && Summarises(out, plans[..k], trim)
    ensures forall d :: d in TrimAll(plans[k].startAfter, trim) ==> d in Services(out)
  {
  }

  lemma StartOrderExtend(out: seq<PlannedService>, next: PlannedService)
    requires StartOrder(out) && next.service !in Services(out)
    requires forall d :: d in next.startAfter ==> d in Services(out)
    ensures StartOrder(out + [next])
  {
    var out' := out + [next];
    forall i, d | 0 <= i < |out'| && d in out'[i].startAfter ensures d in Services(out'[..i]) {
      assert out'[..i] == out[..i];
      assert i == |out| ==> out[..i] == out;
    }
  }
}
