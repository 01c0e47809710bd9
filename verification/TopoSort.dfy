/**
 topoSortServiceIDsWithCompare: Kahn's algorithm with a priority comparison.
 Maps, the ready list and the output list are updated step by step as in the source.
 */
module TopoSort {
  import opened Listings
  import opened Orders
  import opened Results
  import opened ServiceGraph

  function Lookup(deps: map<ServiceID, seq<ServiceID>>, id: ServiceID): seq<ServiceID> {
    if id in deps then deps[id] else []
  }

  /** How often `x` is listed under dependency `d`. */
  ghost function Listed(deps: map<ServiceID, seq<ServiceID>>, d: ServiceID, x: ServiceID): nat {
    multiset(Lookup(deps, d))[x]
  }

  /** `deps` is the reversed relation of the services in `done`, with the multiplicity of services and entries. */
  ghost predicate Reversed(deps: map<ServiceID, seq<ServiceID>>, specs: Specs, present: set<ServiceID>,
                           done: multiset<ServiceID>) {
    forall d, x :: d in present ==> ReversedAt(deps, specs, done, d, x)
  }

  ghost predicate ReversedAt(deps: map<ServiceID, seq<ServiceID>>, specs: Specs, done: multiset<ServiceID>,
                             d: ServiceID, x: ServiceID) {
    Listed(deps, d, x) == Times(done[x], multiset(StartAfter(specs, x))[d])
  }

  lemma ListOne(deps: map<ServiceID, seq<ServiceID>>, dep: ServiceID, id: ServiceID, d: ServiceID, x: ServiceID)
    ensures Listed(deps[dep := Lookup(deps, dep) + [id]], d, x) ==
            Listed(deps, d, x) + if d == dep && x == id then 1 else 0
  {
  }

  /** `deps` lists what `deps0` does and `id` once more for each entry of `after`. */
  ghost predicate Adds(deps: map<ServiceID, seq<ServiceID>>, deps0: map<ServiceID, seq<ServiceID>>,
                       present: set<ServiceID>, id: ServiceID, after: seq<ServiceID>) {
    forall d, x :: d in present ==>
      Listed(deps, d, x) == Listed(deps0, d, x) + if x == id then multiset(after)[d] else 0
  }

  lemma AddOne(deps: map<ServiceID, seq<ServiceID>>, deps0: map<ServiceID, seq<ServiceID>>, present: set<ServiceID>,
               id: ServiceID, after: seq<ServiceID>, dep: ServiceID)
    requires Adds(deps, deps0, present, id, after)
    ensures dep in present ==> Adds(deps[dep := Lookup(deps, dep) + [id]], deps0, present, id, after + [dep])
    ensures dep !in present ==> Adds(deps, deps0, present, id, after + [dep])
  {
    forall d, x | d in present && dep in present
      ensures Listed(deps[dep := Lookup(deps, dep) + [id]], d, x) ==
              Listed(deps0, d, x) + if x == id then multiset(after + [dep])[d] else 0
    {
      ListOne(deps, dep, id, d, x);
    }
  }

  lemma PendingOne(after: seq<ServiceID>, dep: ServiceID, present: set<ServiceID>)
    ensures Pending(after + [dep], present) == Pending(after, present) + if dep in present then 1 else 0
  {
    assert (after + [dep])[..|after|] == after;
  }

  lemma SetTwice(m: map<ServiceID, int>, id: ServiceID, a: int, b: int)
    ensures m[id := a][id := b] == m[id := b]
  {
  }

  /** One entry of a StartAfter list. */
  method AddEdge(id: ServiceID, dep: ServiceID, present: set<ServiceID>, indegree0: map<ServiceID, int>,
                 deps0: map<ServiceID, seq<ServiceID>>)
    returns (indegree: map<ServiceID, int>, deps: map<ServiceID, seq<ServiceID>>)
    requires id in indegree0
    ensures indegree == indegree0[id := indegree0[id] + if dep in present then 1 else 0]
    ensures deps == if dep in present then deps0[dep := Lookup(deps0, dep) + [id]] else deps0
  {
    if dep !in present {
      assert indegree0[id := indegree0[id]] == indegree0;
      return indegree0, deps0;
    }
    deps := deps0[dep := Lookup(deps0, dep) + [id]];
    indegree := indegree0[id := indegree0[id] + 1];
  }

  /** Registers one service: its indegree and its entry under each present dependency. */
  method AddEdges(id: ServiceID, after: seq<ServiceID>, present: set<ServiceID>, indegree0: map<ServiceID, int>,
                  deps0: map<ServiceID, seq<ServiceID>>)
    returns (indegree: map<ServiceID, int>, deps: map<ServiceID, seq<ServiceID>>)
    requires id in indegree0
    ensures indegree == indegree0[id := indegree0[id] + Pending(after, present)]
    ensures Adds(deps, deps0, present, id, after)
  {
    indegree, deps := indegree0, deps0;
    assert indegree0[id := indegree0[id]] == indegree0;
    for j := 0 to |after|
      invariant indegree == indegree0[id := indegree0[id] + Pending(after[..j], present)]
      invariant Adds(deps, deps0, present, id, after[..j])
    {
      assert after[..j + 1] == after[..j] + [after[j]];
      AddOne(deps, deps0, present, id, after[..j], after[j]);
      PendingOne(after[..j], after[j], present);
      SetTwice(indegree0, id, indegree0[id] + Pending(after[..j], present),
               indegree0[id] + Pending(after[..j + 1], present));
      indegree, deps := AddEdge(id, after[j], present, indegree, deps);
    }
    assert after[..|after|] == after;
  }

  lemma ReversedExtend(deps0: map<ServiceID, seq<ServiceID>>, deps: map<ServiceID, seq<ServiceID>>, specs: Specs,
                       present: set<ServiceID>, done: multiset<ServiceID>, id: ServiceID)
    requires Reversed(deps0, specs, present, done)
    requires Adds(deps, deps0, present, id, StartAfter(specs, id))
    ensures Reversed(deps, specs, present, done + multiset{id})
  {
    forall d, x | d in present ensures ReversedAt(deps, specs, done + multiset{id}, d, x) {
      assert ReversedAt(deps0, specs, done, d, x);
    }
  }

  /** The indegrees count, for each listing in `done`, the present dependencies of the service. */
  ghost predicate Counts(indegree: map<ServiceID, int>, specs: Specs, ids: seq<ServiceID>, done: multiset<ServiceID>) {
    indegree.Keys == ToSet(ids) && forall x :: x in ids ==> CountsOne(indegree, specs, ids, done, x)
  }

  ghost predicate CountsOne(indegree: map<ServiceID, int>, specs: Specs, ids: seq<ServiceID>, done: multiset<ServiceID>,
                            x: ServiceID) {
    x in indegree && indegree[x] == Times(done[x], Wants(specs, ids, x))
  }

  lemma CountsExtend(indegree0: map<ServiceID, int>, indegree: map<ServiceID, int>, specs: Specs, ids: seq<ServiceID>,
                     done: multiset<ServiceID>, id: ServiceID)
    requires Counts(indegree0, specs, ids, done) && id in ids
    requires indegree == indegree0[id := indegree0[id] + Wants(specs, ids, id)]
    ensures Counts(indegree, specs, ids, done + multiset{id})
  {
    forall x | x in ids ensures CountsOne(indegree, specs, ids, done + multiset{id}, x) {
      assert CountsOne(indegree0, specs, ids, done, x);
    }
  }

  lemma NothingCounted(indegree: map<ServiceID, int>, specs: Specs, ids: seq<ServiceID>)
    requires indegree.Keys == ToSet(ids) && forall x :: x in indegree ==> indegree[x] == 0
    ensures Counts(indegree, specs, ids, multiset{}) && Reversed(map[], specs, ToSet(ids), multiset{})
  {
    forall x | x in ids ensures CountsOne(indegree, specs, ids, multiset{}, x) {
    }
  }

  /** One listing of a service. */
  method AddService(id: ServiceID, specs: Specs, ghost ids: seq<ServiceID>, present: set<ServiceID>,
                    indegree0: map<ServiceID, int>, deps0: map<ServiceID, seq<ServiceID>>,
                    ghost done: multiset<ServiceID>)
    returns (indegree: map<ServiceID, int>, deps: map<ServiceID, seq<ServiceID>>)
    requires id in ids && present == ToSet(ids)
    requires Counts(indegree0, specs, ids, done) && Reversed(deps0, specs, present, done)
    ensures Counts(indegree, specs, ids, done + multiset{id}) && Reversed(deps, specs, present, done + multiset{id})
  {
    indegree, deps := AddEdges(id, StartAfter(specs, id), present, indegree0, deps0);
    CountsExtend(indegree0, indegree, specs, ids, done, id);
    ReversedExtend(deps0, deps, specs, present, done, id);
  }

  method BuildGraph(ids: seq<ServiceID>, specs: Specs)
    returns (indegree: map<ServiceID, int>, deps: map<ServiceID, seq<ServiceID>>)
    ensures Counts(indegree, specs, ids, multiset(ids))
    ensures Reversed(deps, specs, ToSet(ids), multiset(ids))
  {
    var present := set id | id in ids;
    assert present == ToSet(ids);
    indegree := map id | id in present :: 0;
    deps := map[];
    NothingCounted(indegree, specs, ids);
    ghost var done := multiset{};
    for i := 0 to |ids|
      invariant done == multiset(ids[..i])
      invariant Counts(indegree, specs, ids, done) && Reversed(deps, specs, present, done)
    {
      indegree, deps := AddService(ids[i], specs, ids, present, indegree, deps, done);
      assert ids[..i + 1] == ids[..i] + [ids[i]];
      done := done + multiset{ids[i]};
    }
    assert ids[..|ids|] == ids;
  }

  lemma TakeOne(s: seq<ServiceID>, k: nat)
    requires k < |s|
    ensures s[..k + 1] == s[..k] + [s[k]]
    ensures multiset(s[..k + 1]) == multiset(s[..k])[s[k] := multiset(s[..k])[s[k]] + 1]
  {
    assert s[..k + 1] == s[..k] + [s[k]];
  }

  /** Decrements the dependents of an emitted service; those that reach zero join the ready list. */
  method Release(dependents: seq<ServiceID>, indegree0: map<ServiceID, int>, ready0: seq<ServiceID>)
    returns (indegree: map<ServiceID, int>, ready: seq<ServiceID>, ghost released: seq<ServiceID>)
    requires forall x :: x in dependents ==> x in indegree0
    ensures indegree.Keys == indegree0.Keys
    ensures forall x :: x in indegree ==> indegree[x] == indegree0[x] - multiset(dependents)[x]
    ensures ready == ready0 + released && Distinct(released)
    ensures forall x :: x in released <==> x in indegree && indegree0[x] > 0 >= indegree[x]
  {
    indegree, ready, released := indegree0, ready0, [];
    for k := 0 to |dependents|
      invariant indegree.Keys == indegree0.Keys
      invariant forall x :: x in indegree ==> indegree[x] == indegree0[x] - multiset(dependents[..k])[x]
      invariant ready == ready0 + released && Distinct(released)
      invariant forall x :: x in released <==> x in indegree && indegree0[x] > 0 >= indegree[x]
    {
      var next := dependents[k];
      TakeOne(dependents, k);
      indegree := indegree[next := indegree[next] - 1];
      if indegree[next] == 0 {
        ready := ready + [next];
        released := released + [next];
      }
    }
    assert dependents[..|dependents|] == dependents;
  }

  // ------------------------------------------------------- any list of services

  /** The indegree is what the service still wants, as often as it is listed. */
  ghost predicate OwedAt(specs: Specs, ids: seq<ServiceID>, indegree: map<ServiceID, int>, out: seq<ServiceID>,
                         x: ServiceID) {
    && x in indegree
    && indegree[x] == Times(multiset(ids)[x], Wants(specs, ids, x) - Hits(StartAfter(specs, x), multiset(out)))
  }

  ghost predicate DueAt(specs: Specs, ids: seq<ServiceID>, ready: seq<ServiceID>, out: seq<ServiceID>, x: ServiceID) {
    multiset(ready)[x] + multiset(out)[x] == Due(specs, ids, multiset(out), x)
  }

  /** What the main loop keeps for every list: indegrees tell what is missing, and who has enough is or was ready. */
  ghost predicate Balanced(specs: Specs, ids: seq<ServiceID>, indegree: map<ServiceID, int>, ready: seq<ServiceID>,
                           out: seq<ServiceID>) {
    && indegree.Keys == ToSet(ids)
    && (forall x :: x in ids ==> OwedAt(specs, ids, indegree, out, x))
    && (forall x :: DueAt(specs, ids, ready, out, x))
  }

  /** A service is short of emissions exactly when its indegree is positive. */
  lemma PositiveIsShort(specs: Specs, ids: seq<ServiceID>, indegree: map<ServiceID, int>, out: seq<ServiceID>,
                        x: ServiceID)
    requires OwedAt(specs, ids, indegree, out, x) && x in ids
    ensures indegree[x] > 0 <==> Hits(StartAfter(specs, x), multiset(out)) < Wants(specs, ids, x)
  {
    assert x in multiset(ids);
    TimesSign(multiset(ids)[x], Wants(specs, ids, x) - Hits(StartAfter(specs, x), multiset(out)));
  }

  lemma BalancedStart(specs: Specs, ids: seq<ServiceID>, indegree: map<ServiceID, int>, ready: seq<ServiceID>)
    requires Counts(indegree, specs, ids, multiset(ids))
    requires forall x :: multiset(ready)[x] == if x in ids && indegree[x] == 0 then multiset(ids)[x] else 0
    ensures Balanced(specs, ids, indegree, ready, [])
  {
    forall x
      ensures DueAt(specs, ids, ready, [], x)
      ensures x in ids ==> OwedAt(specs, ids, indegree, [], x)
    {
      HitsNothing(StartAfter(specs, x));
      if x in ids {
        assert x in multiset(ids) && CountsOne(indegree, specs, ids, multiset(ids), x);
        TimesSign(multiset(ids)[x], Wants(specs, ids, x));
      }
    }
  }

  /** What a service is owed, before and after `id` is emitted. */
  lemma OwedStep(specs: Specs, ids: seq<ServiceID>, deps: map<ServiceID, seq<ServiceID>>,
                 indegree: map<ServiceID, int>, out: seq<ServiceID>, id: ServiceID, indegree': map<ServiceID, int>,
                 x: ServiceID)
    requires OwedAt(specs, ids, indegree, out, x) && id in ids && x in indegree'
    requires Reversed(deps, specs, ToSet(ids), multiset(ids))
    requires indegree'[x] == indegree[x] - multiset(Lookup(deps, id))[x]
    ensures OwedAt(specs, ids, indegree', out + [id], x)
  {
    var after := StartAfter(specs, x);
    assert multiset(out + [id]) == multiset(out) + multiset{id};
    HitsOne(after, multiset(out), id);
    assert ReversedAt(deps, specs, multiset(ids), id, x);
    TimesDifference(multiset(ids)[x], Wants(specs, ids, x) - Hits(after, multiset(out)), multiset(after)[id]);
  }

  /** A service becomes due exactly when its indegree is used up. */
  lemma DueStep(specs: Specs, ids: seq<ServiceID>, indegree: map<ServiceID, int>, out: seq<ServiceID>, id: ServiceID,
                indegree': map<ServiceID, int>, x: ServiceID)
    requires OwedAt(specs, ids, indegree, out, x) && OwedAt(specs, ids, indegree', out + [id], x) && x in ids
    requires indegree'[x] <= indegree[x]
    ensures Due(specs, ids, multiset(out + [id]), x) ==
            Due(specs, ids, multiset(out), x) + if indegree[x] > 0 >= indegree'[x] then 1 else 0
  {
    PositiveIsShort(specs, ids, indegree, out, x);
    PositiveIsShort(specs, ids, indegree', out + [id], x);
    assert multiset(out + [id]) == multiset(out) + multiset{id};
    HitsOne(StartAfter(specs, x), multiset(out), id);
  }

  lemma HeadIsListed(specs: Specs, ids: seq<ServiceID>, indegree: map<ServiceID, int>, ready: seq<ServiceID>,
                     out: seq<ServiceID>)
    requires Balanced(specs, ids, indegree, ready, out) && ready != []
    ensures ready[0] in ids && Open(specs, ids, out, ready[0])
  {
    assert ready[0] in multiset(ready) && DueAt(specs, ids, ready, out, ready[0]);
  }

  /** The head moves to the output, and those that were released join the ready list. */
  lemma MoveOne(ready: seq<ServiceID>, out: seq<ServiceID>, released: seq<ServiceID>, x: ServiceID)
    requires ready != [] && Distinct(released)
    ensures multiset(ready[1..] + released)[x] + multiset(out + [ready[0]])[x] ==
            multiset(ready)[x] + multiset(out)[x] + if x in released then 1 else 0
  {
    assert ready == [ready[0]] + ready[1..];
    DistinctCount(released);
    assert x in multiset(released) <==> x in released;
  }

  /** Emitting the head keeps the balance. */
  lemma BalancedStep(specs: Specs, ids: seq<ServiceID>, deps: map<ServiceID, seq<ServiceID>>,
                     indegree: map<ServiceID, int>, ready: seq<ServiceID>, out: seq<ServiceID>,
                     indegree': map<ServiceID, int>, released: seq<ServiceID>)
    requires Balanced(specs, ids, indegree, ready, out) && ready != []
    requires Reversed(deps, specs, ToSet(ids), multiset(ids))
    requires indegree'.Keys == ToSet(ids) && Distinct(released)
    requires forall x :: x in ids ==> indegree'[x] == indegree[x] - multiset(Lookup(deps, ready[0]))[x]
    requires forall x :: x in released <==> x in ids && indegree[x] > 0 >= indegree'[x]
    ensures Balanced(specs, ids, indegree', ready[1..] + released, out + [ready[0]])
  {
    var id := ready[0];
    HeadIsListed(specs, ids, indegree, ready, out);
    forall x
      ensures x in ids ==> OwedAt(specs, ids, indegree', out + [id], x)
      ensures DueAt(specs, ids, ready[1..] + released, out + [id], x)
    {
      assert DueAt(specs, ids, ready, out, x);
      MoveOne(ready, out, released, x);
      if x in ids {
        assert OwedAt(specs, ids, indegree, out, x);
        OwedStep(specs, ids, deps, indegree, out, id, indegree', x);
        DueStep(specs, ids, indegree, out, id, indegree', x);
      }
    }
  }

  lemma BalancedSorted(specs: Specs, ids: seq<ServiceID>, cmp: Compare<ServiceID>, indegree: map<ServiceID, int>,
                       ready: seq<ServiceID>, out: seq<ServiceID>)
    requires Balanced(specs, ids, indegree, ready, out)
    ensures Balanced(specs, ids, indegree, StableSort(ready, cmp), out)
    ensures TotalPreorder(cmp) ==> Sorted(StableSort(ready, cmp), cmp)
  {
    forall x ensures DueAt(specs, ids, StableSort(ready, cmp), out, x) {
      assert DueAt(specs, ids, ready, out, x);
    }
    if TotalPreorder(cmp) {
      StableSortSorted(ready, cmp);
    }
  }

  /** The services that are short when the ready list runs dry are starved. */
  lemma LeftoverIsStarved(specs: Specs, ids: seq<ServiceID>, indegree: map<ServiceID, int>, out: seq<ServiceID>,
                          left: set<ServiceID>)
    requires Balanced(specs, ids, indegree, [], out) && left == set x | x in ids && indegree[x] > 0
    ensures left == {} || Starved(specs, ids, left)
  {
    forall d ensures multiset(out)[d] >= if d in left then 0 else Weight(specs, ids, d) {
      assert DueAt(specs, ids, [], out, d);
      if d in ids {
        assert OwedAt(specs, ids, indegree, out, d);
        PositiveIsShort(specs, ids, indegree, out, d);
      }
    }
    forall x | x in left ensures Lacking(specs, ids, left, x) {
      assert OwedAt(specs, ids, indegree, out, x);
      PositiveIsShort(specs, ids, indegree, out, x);
      HitsAll(specs, ids, left, StartAfter(specs, x), multiset(out));
    }
  }

  lemma StarvedIsLeft(specs: Specs, ids: seq<ServiceID>, indegree: map<ServiceID, int>, out: seq<ServiceID>,
                      w: set<ServiceID>, x: ServiceID)
    requires Balanced(specs, ids, indegree, [], out) && Steps(specs, ids, out) && Starved(specs, ids, w) && x in w
    ensures x in ids && indegree[x] > 0
  {
    assert Lacking(specs, ids, w, x);
    assert x !in multiset(out) by {
      if x in out {
        var i :| 0 <= i < |out| && out[i] == x;
        StarvedNeverEmitted(specs, ids, out, w, i);
      }
    }
    assert DueAt(specs, ids, [], out, x) && OwedAt(specs, ids, indegree, out, x);
    PositiveIsShort(specs, ids, indegree, out, x);
  }

  lemma SameSize(a: multiset<ServiceID>, b: multiset<ServiceID>)
    requires a <= b && |a| == |b|
    ensures a == b
  {
    assert b == a + (b - a);
  }

  lemma EmittedWithin(specs: Specs, ids: seq<ServiceID>, indegree: map<ServiceID, int>, ready: seq<ServiceID>,
                      out: seq<ServiceID>)
    requires Balanced(specs, ids, indegree, ready, out)
    ensures multiset(ready) + multiset(out) <= multiset(ids)
    ensures |ready| + |out| <= |ids|
  {
    var emitted := multiset(ready) + multiset(out);
    forall x ensures emitted[x] <= multiset(ids)[x] {
      assert DueAt(specs, ids, ready, out, x) && (x in ids <==> x in multiset(ids));
    }
    assert multiset(ids) == emitted + (multiset(ids) - emitted);
  }

  /** The service is emitted as often as it is listed. */
  lemma FullyEmitted(specs: Specs, ids: seq<ServiceID>, indegree: map<ServiceID, int>, out: seq<ServiceID>,
                     x: ServiceID)
    requires Balanced(specs, ids, indegree, [], out) && x in ids
    ensures multiset(out)[x] == multiset(ids)[x] <==>
            indegree[x] <= 0 && (Wants(specs, ids, x) > 0 ==> multiset(ids)[x] == 1)
  {
    assert DueAt(specs, ids, [], out, x) && OwedAt(specs, ids, indegree, out, x) && x in multiset(ids);
    PositiveIsShort(specs, ids, indegree, out, x);
  }

  /** As many services are emitted as listed exactly when none is short and no dependent is repeated. */
  lemma FullOutput(specs: Specs, ids: seq<ServiceID>, indegree: map<ServiceID, int>, out: seq<ServiceID>)
    requires Balanced(specs, ids, indegree, [], out)
    ensures |out| == |ids| <==> DependentsOnce(specs, ids) && forall x :: x in ids ==> indegree[x] <= 0
    ensures |out| == |ids| ==> multiset(out) == multiset(ids)
  {
    EmittedWithin(specs, ids, indegree, [], out);
    forall x | x in ids
      ensures multiset(out)[x] == multiset(ids)[x] <==>
              indegree[x] <= 0 && (Wants(specs, ids, x) > 0 ==> multiset(ids)[x] == 1)
    {
      FullyEmitted(specs, ids, indegree, out, x);
    }
    if |out| == |ids| {
      SameSize(multiset(out), multiset(ids));
    }
    if DependentsOnce(specs, ids) && forall x :: x in ids ==> indegree[x] <= 0 {
      assert multiset(out) == multiset(ids) by {
        forall x ensures multiset(out)[x] == multiset(ids)[x] {
          assert x in ids <==> x in multiset(ids);
        }
      }
    }
  }

  ghost predicate ContainsCycle(specs: Specs, present: set<ServiceID>, x: set<ServiceID>) {
    exists c :: IsCycle(specs, present, c) && ToSet(c) <= x
  }

  ghost predicate LargestStuck(specs: Specs, present: set<ServiceID>, x: set<ServiceID>) {
    && x <= present && Stuck(specs, present, x)
    && forall y: set<ServiceID> :: y <= present && Stuck(specs, present, y) ==> y <= x
  }

  /** The services a failed sort reports: exactly those that can never start, a real cycle among them. */
  ghost predicate ReportsStuck(specs: Specs, present: set<ServiceID>, reported: seq<ServiceID>) {
    && Distinct(reported)
    && LargestStuck(specs, present, ToSet(reported))
    && ContainsCycle(specs, present, ToSet(reported))
  }

  /** What a caller may rely on, in terms of the set of services and the relation only. */
  ghost predicate SortOutcome(specs: Specs, present: set<ServiceID>, cmp: Compare<ServiceID>,
                              r: Result<seq<ServiceID>, seq<ServiceID>>) {
    match r
    case Ok(out) =>
      && Topological(specs, present, out) && ToSet(out) == present && Acyclic(specs, present)
      && (TotalPreorder(cmp) ==> LeastFirst(specs, present, cmp, out))
    case Err(reported) =>
      && ReportsStuck(specs, present, reported) && !Acyclic(specs, present)
      && (TotalPreorder(cmp) ==> Sorted(reported, cmp))
  }

  predicate Picks(ids: seq<ServiceID>, indegree: map<ServiceID, int>, positive: bool, x: ServiceID)
    requires forall x :: x in ids ==> x in indegree
  {
    x in ids && if positive then indegree[x] > 0 else indegree[x] == 0
  }

  /** `ids` in input order, keeping those whose indegree satisfies the test. */
  method Select(ids: seq<ServiceID>, indegree: map<ServiceID, int>, positive: bool) returns (picked: seq<ServiceID>)
    requires forall x :: x in ids ==> x in indegree
    ensures forall x :: multiset(picked)[x] == if Picks(ids, indegree, positive, x) then multiset(ids)[x] else 0
  {
    picked := [];
    for i := 0 to |ids|
      invariant forall x ::
        multiset(picked)[x] == if Picks(ids, indegree, positive, x) then multiset(ids[..i])[x] else 0
    {
      if Picks(ids, indegree, positive, ids[i]) {
        picked := picked + [ids[i]];
      }
      assert ids[..i + 1] == ids[..i] + [ids[i]];
    }
    assert ids[..|ids|] == ids;
  }

  lemma PickedMembers(ids: seq<ServiceID>, indegree: map<ServiceID, int>, positive: bool, picked: seq<ServiceID>)
    requires forall x :: x in ids ==> x in indegree
    requires forall x :: multiset(picked)[x] == if Picks(ids, indegree, positive, x) then multiset(ids)[x] else 0
    ensures forall x :: x in picked <==> Picks(ids, indegree, positive, x)
    ensures Distinct(ids) ==> Distinct(picked)
  {
    forall x ensures x in picked <==> Picks(ids, indegree, positive, x) {
      assert (x in picked <==> x in multiset(picked)) && (x in ids <==> x in multiset(ids));
    }
    if Distinct(ids) {
      DistinctCount(ids);
      CountDistinct(picked);
    }
  }

  /** The loop's invariant, with the ready list in priority order. */
  ghost predicate InProgress(specs: Specs, ids: seq<ServiceID>, cmp: Compare<ServiceID>, indegree: map<ServiceID, int>,
                             ready: seq<ServiceID>, out: seq<ServiceID>) {
    && Balanced(specs, ids, indegree, ready, out) && Steps(specs, ids, out)
    && (TotalPreorder(cmp) ==> Sorted(ready, cmp) && LeastSteps(specs, ids, cmp, out))
  }

  /** The ready list holds the open services, its head the least of them. */
  lemma HeadIsLeast(specs: Specs, ids: seq<ServiceID>, cmp: Compare<ServiceID>, indegree: map<ServiceID, int>,
                    ready: seq<ServiceID>, out: seq<ServiceID>)
    requires InProgress(specs, ids, cmp, indegree, ready, out) && ready != []
    ensures ready[0] in ids && Steps(specs, ids, out + [ready[0]])
    ensures TotalPreorder(cmp) ==> LeastSteps(specs, ids, cmp, out + [ready[0]])
  {
    HeadIsListed(specs, ids, indegree, ready, out);
    forall y | Open(specs, ids, out, y) ensures y in ready {
      assert DueAt(specs, ids, ready, out, y) && y in multiset(ready);
    }
    StepsExtend(specs, ids, cmp, out, ready[0]);
  }

  lemma DependentsListed(specs: Specs, ids: seq<ServiceID>, deps: map<ServiceID, seq<ServiceID>>, id: ServiceID)
    requires Reversed(deps, specs, ToSet(ids), multiset(ids)) && id in ids
    ensures forall x :: x in Lookup(deps, id) ==> x in ids
  {
    forall x | x in Lookup(deps, id) ensures x in ids {
      assert x in multiset(Lookup(deps, id)) && ReversedAt(deps, specs, multiset(ids), id, x);
      assert x in multiset(ids);
    }
  }

  /** One round of the worklist: emit the head, release its dependents, sort again. */
  method EmitHead(specs: Specs, ghost ids: seq<ServiceID>, cmp: Compare<ServiceID>,
                  deps: map<ServiceID, seq<ServiceID>>, indegree0: map<ServiceID, int>, ready0: seq<ServiceID>,
                  out0: seq<ServiceID>)
    returns (indegree: map<ServiceID, int>, ready: seq<ServiceID>, out: seq<ServiceID>)
    requires InProgress(specs, ids, cmp, indegree0, ready0, out0) && ready0 != []
    requires Reversed(deps, specs, ToSet(ids), multiset(ids))
    ensures InProgress(specs, ids, cmp, indegree, ready, out)
    ensures out == out0 + [ready0[0]]
  {
    var id := ready0[0];
    out := out0 + [id];
    HeadIsLeast(specs, ids, cmp, indegree0, ready0, out0);
    DependentsListed(specs, ids, deps, id);
    ghost var released;
    indegree, ready, released := Release(Lookup(deps, id), indegree0, ready0[1..]);
    BalancedStep(specs, ids, deps, indegree0, ready0, out0, indegree, released);
    BalancedSorted(specs, ids, cmp, indegree, ready, out);
    if |ready| > 1 {
      ready := StableSort(ready, cmp);
    }
  }

  /**
   For every list: success exactly when no dependent is repeated and nothing is starved, and then with the listed
   services, each emitted when it is open and least among those; else the report is the largest starved set, each
   service as often as it is listed.
   */
  ghost predicate ListingOutcome(specs: Specs, ids: seq<ServiceID>, cmp: Compare<ServiceID>,
                                 r: Result<seq<ServiceID>, seq<ServiceID>>) {
    && (r.Ok? <==> DependentsOnce(specs, ids) && NoneStarved(specs, ids))
    && match r
       case Ok(out) =>
         && multiset(out) == multiset(ids) && Steps(specs, ids, out)
         && (TotalPreorder(cmp) ==> LeastSteps(specs, ids, cmp, out))
       case Err(reported) => ReportsStarved(specs, ids, reported) && (TotalPreorder(cmp) ==> Sorted(reported, cmp))
  }

  ghost predicate ReportsStarved(specs: Specs, ids: seq<ServiceID>, reported: seq<ServiceID>) {
    && (reported == [] || Starved(specs, ids, ToSet(reported)))
    && (forall w :: Starved(specs, ids, w) ==> w <= ToSet(reported))
    && (forall x :: x in reported ==> multiset(reported)[x] == multiset(ids)[x])
  }

  lemma ReportIsStarved(specs: Specs, ids: seq<ServiceID>, indegree: map<ServiceID, int>, out: seq<ServiceID>,
                        picked: seq<ServiceID>, reported: seq<ServiceID>)
    requires Balanced(specs, ids, indegree, [], out) && Steps(specs, ids, out)
    requires forall x :: multiset(picked)[x] == if Picks(ids, indegree, true, x) then multiset(ids)[x] else 0
    requires multiset(reported) == multiset(picked)
    ensures ReportsStarved(specs, ids, reported)
    ensures reported == [] <==> forall x :: x in ids ==> indegree[x] <= 0
  {
    PickedMembers(ids, indegree, true, picked);
    SameMembers(picked, reported);
    var left := set x | x in ids && indegree[x] > 0;
    assert ToSet(reported) == left;
    LeftoverIsStarved(specs, ids, indegree, out, left);
    forall w | Starved(specs, ids, w) ensures w <= left {
      forall x | x in w ensures x in left {
        StarvedIsLeft(specs, ids, indegree, out, w, x);
      }
    }
    if reported != [] {
      assert reported[0] in ToSet(reported);
    }
  }

  /** Every positive indegree makes a starved set, and every starved set has one. */
  lemma NoneLeft(specs: Specs, ids: seq<ServiceID>, indegree: map<ServiceID, int>, out: seq<ServiceID>)
    requires Balanced(specs, ids, indegree, [], out) && Steps(specs, ids, out)
    ensures NoneStarved(specs, ids) <==> forall x :: x in ids ==> indegree[x] <= 0
  {
    var left := set x | x in ids && indegree[x] > 0;
    LeftoverIsStarved(specs, ids, indegree, out, left);
    if w :| Starved(specs, ids, w) {
      var x :| x in w;
      StarvedIsLeft(specs, ids, indegree, out, w, x);
    }
    if x :| x in ids && indegree[x] > 0 {
      assert x in left;
    }
  }

  /** On a list without repetition, only the services and the relation count. */
  lemma OutcomeWithoutRepetition(specs: Specs, ids: seq<ServiceID>, cmp: Compare<ServiceID>,
                                 r: Result<seq<ServiceID>, seq<ServiceID>>)
    requires Distinct(ids) && ListingOutcome(specs, ids, cmp, r)
    ensures SortOutcome(specs, ToSet(ids), cmp, r)
  {
    DistinctCount(ids);
    if r.Ok? {
      SameMembers(r.value, ids);
      StepsWithoutRepetition(specs, ids, cmp, r.value);
      TopologicalAcyclic(specs, ToSet(ids), r.value);
    } else {
      assert r.error != [] && Starved(specs, ids, ToSet(r.error)) by {
        assert DependentsOnce(specs, ids);
        var w :| Starved(specs, ids, w);
        var x :| x in w;
        assert x in ToSet(r.error);
      }
      ReportWithoutRepetition(specs, ids, r.error);
    }
  }

  lemma ReportWithoutRepetition(specs: Specs, ids: seq<ServiceID>, reported: seq<ServiceID>)
    requires Distinct(ids) && ReportsStarved(specs, ids, reported) && reported != []
    ensures ReportsStuck(specs, ToSet(ids), reported) && !Acyclic(specs, ToSet(ids))
  {
    StarvedIsStuck(specs, ids, ToSet(reported));
    DistinctCount(ids);
    CountDistinct(reported);
    assert reported[0] in ToSet(reported);
    var c := StuckHasCycle(specs, ToSet(ids), ToSet(reported));
    forall y: set<ServiceID> | y <= ToSet(ids) && Stuck(specs, ToSet(ids), y) ensures y <= ToSet(reported) {
      if y != {} {
        StuckIsStarved(specs, ids, y);
      }
    }
  }

  method SortWithCompare(ids: seq<ServiceID>, specs: Specs, cmp: Compare<ServiceID>)
    returns (r: Result<seq<ServiceID>, seq<ServiceID>>)
    ensures ListingOutcome(specs, ids, cmp, r)
    ensures Distinct(ids) ==> SortOutcome(specs, ToSet(ids), cmp, r)
  {
    var indegree, deps := BuildGraph(ids, specs);
    var ready := Select(ids, indegree, false);
    var out: seq<ServiceID> := [];
    BalancedStart(specs, ids, indegree, ready);
    BalancedSorted(specs, ids, cmp, indegree, ready, out);
    ready := StableSort(ready, cmp);

    while |ready| > 0
      invariant InProgress(specs, ids, cmp, indegree, ready, out)
      decreases |ids| - |out|
    {
      EmittedWithin(specs, ids, indegree, ready, out);
      indegree, ready, out := EmitHead(specs, ids, cmp, deps, indegree, ready, out);
    }

    FullOutput(specs, ids, indegree, out);
    NoneLeft(specs, ids, indegree, out);
    if |out| != |ids| {
      var cycle := Select(ids, indegree, true);
      ReportIsStarved(specs, ids, indegree, out, cycle, StableSort(cycle, cmp));
      if TotalPreorder(cmp) {
        StableSortSorted(cycle, cmp);
      }
      r := Err(StableSort(cycle, cmp));
    } else {
      r := Ok(out);
    }
    if Distinct(ids) {
      OutcomeWithoutRepetition(specs, ids, cmp, r);
    }
  }

  /** topoSortServiceIDs: ties are broken by name. */
  method Sort(ids: seq<ServiceID>, specs: Specs) returns (r: Result<seq<ServiceID>, seq<ServiceID>>)
    ensures ListingOutcome(specs, ids, CompareStrings, r)
    ensures Distinct(ids) ==> SortOutcome(specs, ToSet(ids), CompareStrings, r)
  {
    r := SortWithCompare(ids, specs, CompareStrings);
  }

  /** Without a cycle a list is sorted exactly when no service that waits for another is repeated. */
  lemma AcyclicListing(specs: Specs, ids: seq<ServiceID>, cmp: Compare<ServiceID>,
                       r: Result<seq<ServiceID>, seq<ServiceID>>)
    requires Acyclic(specs, ToSet(ids)) && ListingOutcome(specs, ids, cmp, r)
    ensures r.Ok? <==> DependentsOnce(specs, ids)
    ensures r.Err? ==> r.error == []
  {
    AcyclicStarvesNone(specs, ids);
  }

  lemma SupplyOfTwo(specs: Specs, ids: seq<ServiceID>, w: set<ServiceID>, x: ServiceID, y: ServiceID)
    ensures Supply(specs, ids, w, [x, y]) ==
      (if x in w then 0 else Weight(specs, ids, x)) + if y in w then 0 else Weight(specs, ids, y)
    ensures Pending([x, y], ToSet(ids)) == (if x in ids then 1 else 0) + if y in ids then 1 else 0
  {
    assert [x, y][..1] == [x] && [x][..0] == [];
    assert Supply(specs, ids, w, [x]) == if x in w then 0 else Weight(specs, ids, x);
    assert Pending([x], ToSet(ids)) == if x in ids then 1 else 0;
  }

  /** `x` and `y` wait for each other and for `r`, which waits for nothing. */
  ghost predicate WaitForEachOther(specs: Specs, r: ServiceID, x: ServiceID, y: ServiceID) {
    && r != x && r != y && x != y
    && StartAfter(specs, r) == [] && StartAfter(specs, x) == [r, y] && StartAfter(specs, y) == [r, x]
  }

  lemma NobodyLacks(specs: Specs, r: ServiceID, x: ServiceID, y: ServiceID, w: set<ServiceID>)
    requires WaitForEachOther(specs, r, x, y)
    ensures !Starved(specs, [r, r, x, y], w)
  {
    var ids := [r, r, x, y];
    SupplyOfTwo(specs, ids, w, r, y);
    SupplyOfTwo(specs, ids, w, r, x);
    assert ids[0] == r && ids[2] == x && ids[3] == y && Weight(specs, ids, r) == 2;
    assert !Lacking(specs, ids, w, r) && (r !in w ==> !Lacking(specs, ids, w, x) && !Lacking(specs, ids, w, y));
  }

  /** A repeated service hides a cycle: `r` counts twice for both, so that neither has to wait for the other. */
  lemma RepetitionHidesCycle(specs: Specs, r: ServiceID, x: ServiceID, y: ServiceID, cmp: Compare<ServiceID>,
                             sorted: Result<seq<ServiceID>, seq<ServiceID>>)
    requires WaitForEachOther(specs, r, x, y) && ListingOutcome(specs, [r, r, x, y], cmp, sorted)
    ensures sorted.Ok? && !Acyclic(specs, ToSet([r, r, x, y]))
  {
    var ids := [r, r, x, y];
    assert ids[0] == r && ids[2] == x && ids[3] == y && multiset(ids)[x] == multiset(ids)[y] == 1;
    assert IsCycle(specs, ToSet(ids), [x, y]);
    forall w ensures !Starved(specs, ids, w) {
      NobodyLacks(specs, r, x, y, w);
    }
    assert DependentsOnce(specs, ids);
  }

  /** Listing the same services and dependencies differently changes neither the order nor the report. */
  lemma SortIsCanonical(specs: Specs, specs': Specs, present: set<ServiceID>, cmp: Compare<ServiceID>,
                        r: Result<seq<ServiceID>, seq<ServiceID>>, r': Result<seq<ServiceID>, seq<ServiceID>>)
    requires TotalOrder(cmp) && SameDependencies(specs, specs', present)
    requires SortOutcome(specs, present, cmp, r) && SortOutcome(specs', present, cmp, r')
    ensures r.Ok? <==> Acyclic(specs, present)
    ensures r == r'
  {
    AcyclicSameDependencies(specs, specs', present);
    if r.Ok? {
      CanonicalOrder(specs, specs', present, cmp, r.value, r'.value);
    } else {
      StuckSameDependencies(specs, specs', present, ToSet(r.error));
      StuckSameDependencies(specs, specs', present, ToSet(r'.error));
      SortedUnique(r.error, r'.error, cmp);
    }
  }
}
