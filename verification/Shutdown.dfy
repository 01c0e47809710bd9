/** The order in which terminateGracefully signals the recorded processes. */
module Shutdown {
  import opened Orders
  import opened Results
  import opened ServiceGraph
  import opened TopoSort

  /** `hasProcess`: the command exists and was started. */
  datatype OsProcess = OsProcess(hasProcess: bool, pid: int)

  datatype Info = Info(service: ServiceID, process: Option<OsProcess>)

  datatype Instance = Instance(title: string, info: Option<Info>)

  datatype Record = Record(service: ServiceID, pid: int, inst: Option<Instance>)

  datatype Target = Target(service: ServiceID, title: string, pid: int)

  /** The record's target, when there is a process to signal. */
  function TargetOf(r: Record): Option<Target> {
    if r.inst.None? || r.inst.value.info.None? then None
    else
      var info := r.inst.value.info.value;
      if info.process.None? || !info.process.value.hasProcess then None
      else
        var pid := if r.pid <= 0 then info.process.value.pid else r.pid;
        var service := if r.service == "" then info.service else r.service;
        if pid <= 0 || service == "" then None else Some(Target(service, r.inst.value.title, pid))
  }

  function Targets(records: seq<Record>): seq<Target> {
    if records == [] then []
    else
      var front := Targets(records[..|records| - 1]);
      match TargetOf(records[|records| - 1])
      case None => front
      case Some(t) => front + [t]
  }

  /** The targets of one service, in order. */
  function Of(ts: seq<Target>, service: ServiceID): seq<Target> {
    if ts == [] then []
    else
      var front := Of(ts[..|ts| - 1], service);
      if ts[|ts| - 1].service == service then front + [ts[|ts| - 1]] else front
  }

  lemma {:induction false} OfService(ts: seq<Target>, service: ServiceID)
    ensures forall t :: t in Of(ts, service) ==> t.service == service
  {
    if ts != [] {
      OfService(ts[..|ts| - 1], service);
    }
  }

  lemma {:induction false} OfAppend(a: seq<Target>, b: seq<Target>, service: ServiceID)
    ensures Of(a + b, service) == Of(a, service) + Of(b, service)
    decreases |b|
  {
    if b == [] {
      assert a + b == a;
    } else {
      OfAppend(a, b[..|b| - 1], service);
      assert (a + b)[..|a + b| - 1] == a + b[..|b| - 1];
    }
  }

  lemma {:induction false} OfUniform(ts: seq<Target>, s: ServiceID, service: ServiceID)
    requires forall t :: t in ts ==> t.service == s
    ensures Of(ts, service) == if s == service then ts else []
  {
    if ts != [] {
      assert ts == ts[..|ts| - 1] + [ts[|ts| - 1]];
      OfUniform(ts[..|ts| - 1], s, service);
    }
  }

  function ByTitle(a: Target, b: Target): int {
    CompareStrings(a.title, b.title)
  }

  ghost function ServicesOf(ts: seq<Target>): set<ServiceID> {
    set t | t in ts :: t.service
  }

  // ------------------------------------------------------------ service order

  function Reversed(s: seq<ServiceID>): (r: seq<ServiceID>)
    ensures |r| == |s| && forall i :: 0 <= i < |s| ==> r[i] == s[|s| - 1 - i]
  {
    seq(|s|, i requires 0 <= i < |s| => s[|s| - 1 - i])
  }

  /** Before the reversal: the topological order, or the order of names when there is a cycle. */
  ghost predicate StartLike(specs: Specs, present: set<ServiceID>, ordered: seq<ServiceID>) {
    && ToSet(ordered) == present && Distinct(ordered)
    && (if Acyclic(specs, present) then
          Topological(specs, present, ordered) && LeastFirst(specs, present, CompareStrings, ordered)
        else Sorted(ordered, CompareStrings))
  }

  /** The order of services depends on the set of services alone, not on how the snapshot listed the records. */
  lemma StopOrderCanonical(specs: Specs, present: set<ServiceID>, a: seq<ServiceID>, b: seq<ServiceID>)
    requires StartLike(specs, present, a) && StartLike(specs, present, b)
    ensures a == b
  {
    if Acyclic(specs, present) {
      CompareStringsTotal();
      CanonicalOrder(specs, specs, present, CompareStrings, a, b);
    } else {
      CompareStringsTotal();
      SortedUnique(a, b, CompareStrings);
    }
  }

  method OrderServices(ids: seq<ServiceID>, specs: Specs) returns (ordered: seq<ServiceID>)
    requires Distinct(ids)
    ensures StartLike(specs, ToSet(ids), ordered)
  {
    CompareStringsTotal();
    var sorted := Sort(ids, specs);
    if sorted.Ok? {
      ordered := sorted.value;
      TopologicalDistinct(specs, ToSet(ids), ordered);
    } else {
      ordered := StableSort(ids, CompareStrings);
      SameMembers(ids, ordered);
      PermutationDistinct(ids, ordered);
      StableSortSorted(ids, CompareStrings);
    }
  }

  // --------------------------------------------------------------- the targets

  /** `byService` holds the targets of each service in order, and `ids` its keys. */
  ghost predicate Grouping(ids: seq<ServiceID>, byService: map<ServiceID, seq<Target>>, ts: seq<Target>) {
    Distinct(ids) && ToSet(ids) == byService.Keys == ServicesOf(ts) && Filed(byService, ts)
  }

  ghost predicate Filed(byService: map<ServiceID, seq<Target>>, ts: seq<Target>) {
    forall s :: s in byService ==> byService[s] == Of(ts, s)
  }

  /** Appends a target to its service's list, opening the list when it is the first. */
  method Enter(ids0: seq<ServiceID>, byService0: map<ServiceID, seq<Target>>, t: Target, ghost ts: seq<Target>)
    returns (ids: seq<ServiceID>, byService: map<ServiceID, seq<Target>>)
    requires Grouping(ids0, byService0, ts)
    ensures Grouping(ids, byService, ts + [t])
  {
    var s := t.service;
    if s !in byService0 {
      GroupNew(ids0, byService0, ts, t);
      byService := byService0[s := []];
      byService := byService[s := byService[s] + [t]];
      assert byService == byService0[s := [] + [t]];
      return ids0 + [s], byService;
    }
    GroupOld(ids0, byService0, ts, t);
    return ids0, byService0[s := byService0[s] + [t]];
  }

  lemma TargetsOne(records: seq<Record>, k: nat)
    requires k < |records|
    ensures Targets(records[..k + 1]) == match TargetOf(records[k])
      case None => Targets(records[..k])
      case Some(t) => Targets(records[..k]) + [t]
  {
    assert records[..k + 1][..k] == records[..k];
  }

  /** Groups the targets by service, services in order of first appearance. */
  method Group(records: seq<Record>) returns (ids: seq<ServiceID>, byService: map<ServiceID, seq<Target>>)
    ensures Grouping(ids, byService, Targets(records))
  {
    ids, byService := [], map[];
    assert Targets([]) == [];
    for k := 0 to |records|
      invariant Grouping(ids, byService, Targets(records[..k]))
    {
      TargetsOne(records, k);
      var t := TargetOf(records[k]);
      if t.None? {
        continue;
      }
      ids, byService := Enter(ids, byService, t.value, Targets(records[..k]));
    }
    assert records[..|records|] == records;
  }

  lemma {:induction false} OfNone(ts: seq<Target>, s: ServiceID)
    requires forall t :: t in ts ==> t.service != s
    ensures Of(ts, s) == []
  {
    if ts != [] {
      OfNone(ts[..|ts| - 1], s);
    }
  }

  lemma ServicesOfOne(ts: seq<Target>, t: Target)
    ensures ServicesOf(ts + [t]) == ServicesOf(ts) + {t.service}
  {
  }

  lemma FiledOne(byService: map<ServiceID, seq<Target>>, ts: seq<Target>, t: Target)
    requires Filed(byService, ts)
    ensures Filed(byService[t.service := Of(ts, t.service) + [t]], ts + [t])
  {
  }

  lemma GroupOld(ids: seq<ServiceID>, byService: map<ServiceID, seq<Target>>, ts: seq<Target>, t: Target)
    requires Grouping(ids, byService, ts) && t.service in byService
    ensures Grouping(ids, byService[t.service := byService[t.service] + [t]], ts + [t])
  {
  }

  lemma GroupNew(ids: seq<ServiceID>, byService: map<ServiceID, seq<Target>>, ts: seq<Target>, t: Target)
    requires Grouping(ids, byService, ts) && t.service !in byService
    ensures Grouping(ids + [t.service], byService[t.service := [] + [t]], ts + [t])
  {
    ServicesOfOne(ts, t);
    assert Of(ts, t.service) == [] by {
      OfNone(ts, t.service);
    }
    FiledOne(byService, ts, t);
    assert ToSet(ids + [t.service]) == ToSet(ids) + {t.service};
    DistinctAppend(ids, [t.service]);
  }

  /** Each target is placed at the position of its service, and positions never go back. */
  ghost predicate Placed(out: seq<Target>, order: seq<ServiceID>, pos: seq<nat>) {
    && |pos| == |out|
    && (forall k :: 0 <= k < |out| ==> pos[k] < |order| && out[k].service == order[pos[k]])
    && (forall i, j :: 0 <= i < j < |out| ==> pos[i] <= pos[j])
  }

  /** What the list of targets is, service by service. */
  ghost predicate Lists(out: seq<Target>, ts: seq<Target>, services: set<ServiceID>) {
    forall s :: Of(out, s) == if s in services then StableSort(Of(ts, s), ByTitle) else []
  }

  method Flatten(order: seq<ServiceID>, byService: map<ServiceID, seq<Target>>, ghost ts: seq<Target>)
    returns (out: seq<Target>, ghost pos: seq<nat>)
    requires Distinct(order) && ToSet(order) == byService.Keys
    requires Filed(byService, ts)
    ensures Lists(out, ts, ToSet(order)) && Placed(out, order, pos)
  {
    out, pos := [], [];
    for n := 0 to |order|
      invariant Lists(out, ts, ToSet(order[..n])) && Placed(out, order, pos)
      invariant forall k :: 0 <= k < |pos| ==> pos[k] < n
    {
      var s := order[n];
      assert s in ToSet(order);
      var items := StableSort(byService[s], ByTitle);
      FlattenOne(out, items, s, ts, order, n);
      PlacedExtend(out, items, order, pos, n);
      pos := pos + seq(|items|, k => n);
      out := out + items;
    }
    assert order[..|order|] == order;
  }

  lemma PlacedExtend(out: seq<Target>, items: seq<Target>, order: seq<ServiceID>, pos: seq<nat>, n: nat)
    requires Placed(out, order, pos) && n < |order| && forall k :: 0 <= k < |pos| ==> pos[k] < n
    requires forall k :: 0 <= k < |items| ==> items[k].service == order[n]
    ensures Placed(out + items, order, pos + seq(|items|, k => n))
  {
  }

  lemma SortedOf(ts: seq<Target>, s: ServiceID)
    ensures forall t :: t in StableSort(Of(ts, s), ByTitle) ==> t.service == s
  {
    OfService(ts, s);
    SameMembers(Of(ts, s), StableSort(Of(ts, s), ByTitle));
  }

  lemma FlattenOne(out: seq<Target>, items: seq<Target>, s: ServiceID, ts: seq<Target>, order: seq<ServiceID>, n: nat)
    requires Distinct(order) && n < |order| && order[n] == s
    requires Lists(out, ts, ToSet(order[..n])) && items == StableSort(Of(ts, s), ByTitle)
    ensures Lists(out + items, ts, ToSet(order[..n + 1]))
    ensures forall k :: 0 <= k < |items| ==> items[k].service == s
  {
    SortedOf(ts, s);
    assert forall k :: 0 <= k < |items| ==> items[k] in items;
    PrefixGrows(order, n);
    FlattenLists(out, items, s, ts, ToSet(order[..n]));
  }

  lemma PrefixGrows(order: seq<ServiceID>, n: nat)
    requires Distinct(order) && n < |order|
    ensures ToSet(order[..n + 1]) == ToSet(order[..n]) + {order[n]} && order[n] !in ToSet(order[..n])
  {
  }

  lemma FlattenLists(out: seq<Target>, items: seq<Target>, s: ServiceID, ts: seq<Target>, services: set<ServiceID>)
    requires Lists(out, ts, services) && s !in services
    requires items == StableSort(Of(ts, s), ByTitle) && forall t :: t in items ==> t.service == s
    ensures Lists(out + items, ts, services + {s})
  {
    forall x ensures Of(out + items, x) == if x in services + {s} then StableSort(Of(ts, x), ByTitle) else [] {
      OfAppend(out, items, x);
      OfUniform(items, s, x);
      assert Of(out, x) == if x in services then StableSort(Of(ts, x), ByTitle) else [];
    }
  }

  /** The processes of one service are signalled together. */
  ghost predicate Grouped(out: seq<Target>) {
    forall i, j, k :: 0 <= i < j < k < |out| && out[i].service == out[k].service ==> out[j].service == out[i].service
  }

  /** A service's processes are signalled before those of everything it starts after. */
  ghost predicate DependentsFirst(specs: Specs, present: set<ServiceID>, out: seq<Target>) {
    forall i, j :: 0 <= i < |out| && 0 <= j < |out| && DependsOn(specs, present, out[i].service, out[j].service) ==>
      i < j
  }

  method StopList(records: seq<Record>, specs: Specs)
    returns (out: seq<Target>, ghost ordered: seq<ServiceID>, ghost pos: seq<nat>)
    ensures Lists(out, Targets(records), ServicesOf(Targets(records)))
    ensures StartLike(specs, ServicesOf(Targets(records)), ordered)
    ensures Placed(out, Reversed(ordered), pos)
    ensures multiset(out) == multiset(Targets(records))
    ensures Grouped(out)
    ensures Acyclic(specs, ServicesOf(Targets(records))) ==> DependentsFirst(specs, ServicesOf(Targets(records)), out)
  {
    var ids, byService := Group(records);
    var start := OrderServices(ids, specs);
    ordered := start;
    var order := Reversed(start);
    assert ToSet(order) == ToSet(start) by {
      forall x | x in start ensures x in order {
        var i :| 0 <= i < |start| && start[i] == x;
        assert order[|start| - 1 - i] == x;
      }
    }
    out, pos := Flatten(order, byService, Targets(records));
    StopsEachOnce(out, Targets(records));
    StopsTogether(out, order, pos);
    if Acyclic(specs, ServicesOf(Targets(records))) {
      StopsDependentsFirst(specs, ServicesOf(Targets(records)), out, ordered, pos);
    }
  }

  // -------------------------------------------------------------- properties

  lemma {:induction false} OfCount(ts: seq<Target>, t: Target)
    ensures multiset(ts)[t] == multiset(Of(ts, t.service))[t]
  {
    if ts != [] {
      OfCount(ts[..|ts| - 1], t);
      assert ts == ts[..|ts| - 1] + [ts[|ts| - 1]];
    }
  }

  /** Every eligible record is stopped exactly once, and nothing else is. */
  lemma StopsEachOnce(out: seq<Target>, ts: seq<Target>)
    requires Lists(out, ts, ServicesOf(ts))
    ensures multiset(out) == multiset(ts)
  {
    forall t ensures multiset(out)[t] == multiset(ts)[t] {
      OfCount(out, t);
      OfCount(ts, t);
      if t.service !in ServicesOf(ts) {
        assert t !in ts;
      }
    }
  }

  lemma StopsTogether(out: seq<Target>, order: seq<ServiceID>, pos: seq<nat>)
    requires Placed(out, order, pos) && Distinct(order)
    ensures Grouped(out)
  {
  }

  lemma StopsDependentsFirst(specs: Specs, present: set<ServiceID>, out: seq<Target>, ordered: seq<ServiceID>,
                             pos: seq<nat>)
    requires StartLike(specs, present, ordered) && Placed(out, Reversed(ordered), pos) && Acyclic(specs, present)
    ensures DependentsFirst(specs, present, out)
  {
  }
}
