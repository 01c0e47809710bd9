/**
 Lists of services that may name a service more than once. Every emission of a service counts towards those that wait
 for it, so that a repeated one counts more than once.
 */
module Listings {
  import opened Orders
  import opened ServiceGraph

  /** How many entries of a StartAfter list name a service that is still waiting. */
  ghost function Pending(after: seq<ServiceID>, waiting: set<ServiceID>): (n: nat)
    ensures n == 0 <==> forall d :: d in after ==> d !in waiting
  {
    if after == [] then 0
    else
      assert after == after[..|after| - 1] + [after[|after| - 1]];
      Pending(after[..|after| - 1], waiting) + (if after[|after| - 1] in waiting then 1 else 0)
  }

  /** How many emissions a listed service waits for. */
  ghost function Wants(specs: Specs, ids: seq<ServiceID>, x: ServiceID): nat {
    Pending(StartAfter(specs, x), ToSet(ids))
  }

  /** How often what was emitted is named in a StartAfter list. */
  ghost function Hits(after: seq<ServiceID>, given: multiset<ServiceID>): nat {
    if after == [] then 0 else Hits(after[..|after| - 1], given) + given[after[|after| - 1]]
  }

  /** How often a service can be emitted: a repeated one only when it waits for nothing. */
  ghost function Weight(specs: Specs, ids: seq<ServiceID>, d: ServiceID): nat {
    if d !in ids then 0 else if Wants(specs, ids, d) == 0 then multiset(ids)[d] else 1
  }

  /** What the services outside of `w` contribute to a StartAfter list. */
  ghost function Supply(specs: Specs, ids: seq<ServiceID>, w: set<ServiceID>, after: seq<ServiceID>): nat {
    if after == [] then 0
    else
      var d := after[|after| - 1];
      Supply(specs, ids, w, after[..|after| - 1]) + if d in w then 0 else Weight(specs, ids, d)
  }

  ghost predicate Lacking(specs: Specs, ids: seq<ServiceID>, w: set<ServiceID>, x: ServiceID) {
    x in ids && Supply(specs, ids, w, StartAfter(specs, x)) < Wants(specs, ids, x)
  }

  /** Whatever is emitted outside of `w`, no service in `w` gets enough. */
  ghost predicate Starved(specs: Specs, ids: seq<ServiceID>, w: set<ServiceID>) {
    w != {} && forall x :: x in w ==> Lacking(specs, ids, w, x)
  }

  ghost predicate NoneStarved(specs: Specs, ids: seq<ServiceID>) {
    forall w :: !Starved(specs, ids, w)
  }

  /** No service that waits for another is repeated. */
  ghost predicate DependentsOnce(specs: Specs, ids: seq<ServiceID>) {
    forall x :: x in ids && Wants(specs, ids, x) > 0 ==> multiset(ids)[x] == 1
  }

  /** How often a service has become ready, when these were emitted. */
  ghost function Due(specs: Specs, ids: seq<ServiceID>, given: multiset<ServiceID>, x: ServiceID): nat {
    if x !in ids then 0
    else if Wants(specs, ids, x) == 0 then multiset(ids)[x]
    else if Hits(StartAfter(specs, x), given) >= Wants(specs, ids, x) then 1
    else 0
  }

  /** The service has become ready more often than it was emitted. */
  ghost predicate Open(specs: Specs, ids: seq<ServiceID>, out: seq<ServiceID>, x: ServiceID) {
    multiset(out)[x] < Due(specs, ids, multiset(out), x)
  }

  /** Each service is emitted when it is open. */
  ghost predicate Steps(specs: Specs, ids: seq<ServiceID>, out: seq<ServiceID>) {
    forall i :: 0 <= i < |out| ==> StepAt(specs, ids, out, i)
  }

  ghost predicate StepAt(specs: Specs, ids: seq<ServiceID>, out: seq<ServiceID>, i: nat)
    requires i < |out|
  {
    Open(specs, ids, out[..i], out[i])
  }

  /** No open service comes before the chosen one under `cmp`. */
  ghost predicate LeastSteps(specs: Specs, ids: seq<ServiceID>, cmp: Compare<ServiceID>, out: seq<ServiceID>) {
    forall i :: 0 <= i < |out| ==> LeastAt(specs, ids, cmp, out, i)
  }

  ghost predicate LeastAt(specs: Specs, ids: seq<ServiceID>, cmp: Compare<ServiceID>, out: seq<ServiceID>, i: nat)
    requires i < |out|
  {
    forall y :: Open(specs, ids, out[..i], y) ==> cmp(out[i], y) <= 0
  }

  // ---------------------------------------------------------------- counting

  /** Adding a number k times. */
  ghost function Times(k: nat, a: int): int {
    if k == 0 then 0 else Times(k - 1, a) + a
  }

  lemma {:induction false} TimesSign(k: nat, a: int)
    requires k > 0
    ensures Times(k, a) > 0 <==> a > 0
    ensures Times(k, a) == 0 <==> a == 0
  {
    if k > 1 {
      TimesSign(k - 1, a);
    }
  }

  lemma {:induction false} TimesDifference(k: nat, a: int, b: int)
    ensures Times(k, a - b) == Times(k, a) - Times(k, b)
  {
    if k > 0 {
      TimesDifference(k - 1, a, b);
    }
  }

  lemma {:induction false} HitsOne(after: seq<ServiceID>, given: multiset<ServiceID>, id: ServiceID)
    ensures Hits(after, given + multiset{id}) == Hits(after, given) + multiset(after)[id]
  {
    if after != [] {
      HitsOne(after[..|after| - 1], given, id);
      assert after == after[..|after| - 1] + [after[|after| - 1]];
    }
  }

  lemma {:induction false} HitsNothing(after: seq<ServiceID>)
    ensures Hits(after, multiset{}) == 0
  {
    if after != [] {
      HitsNothing(after[..|after| - 1]);
    }
  }

  /** Emissions outside of `w`, none of them too often, give no more than the supply. */
  lemma {:induction false} HitsWithin(specs: Specs, ids: seq<ServiceID>, w: set<ServiceID>, after: seq<ServiceID>,
                                      given: multiset<ServiceID>)
    requires forall d :: given[d] <= if d in w then 0 else Weight(specs, ids, d)
    ensures Hits(after, given) <= Supply(specs, ids, w, after)
  {
    if after != [] {
      HitsWithin(specs, ids, w, after[..|after| - 1], given);
    }
  }

  /** When everything outside of `w` was emitted as often as it can be, they give no less. */
  lemma {:induction false} HitsAll(specs: Specs, ids: seq<ServiceID>, w: set<ServiceID>, after: seq<ServiceID>,
                                   given: multiset<ServiceID>)
    requires forall d :: given[d] >= if d in w then 0 else Weight(specs, ids, d)
    ensures Hits(after, given) >= Supply(specs, ids, w, after)
  {
    if after != [] {
      HitsAll(specs, ids, w, after[..|after| - 1], given);
    }
  }

  /** Emitting each service at most once takes from the waiting ones what it gives. */
  lemma {:induction false} HitsDistinct(after: seq<ServiceID>, present: set<ServiceID>, out: seq<ServiceID>)
    requires Distinct(out) && ToSet(out) <= present
    ensures Hits(after, multiset(out)) + Pending(after, present - ToSet(out)) == Pending(after, present)
  {
    if after != [] {
      var last := after[|after| - 1];
      HitsDistinct(after[..|after| - 1], present, out);
      DistinctCount(out);
      assert last in out <==> last in ToSet(out);
      assert last in multiset(out) <==> last in out;
    }
  }

  /** Without a present dependency in `w`, a service gets enough from outside. */
  lemma {:induction false} SupplyEnough(specs: Specs, ids: seq<ServiceID>, w: set<ServiceID>, after: seq<ServiceID>)
    requires forall d :: d in after && d in ids ==> d !in w
    ensures Supply(specs, ids, w, after) >= Pending(after, ToSet(ids))
  {
    if after != [] {
      var front, last := after[..|after| - 1], after[|after| - 1];
      assert last in after && forall d :: d in front ==> d in after;
      assert last in multiset(ids) <==> last in ids;
      SupplyEnough(specs, ids, w, front);
    }
  }

  /** When no service is repeated, each gives at most one, and nothing from inside `w`. */
  lemma {:induction false} SupplyDistinct(specs: Specs, ids: seq<ServiceID>, w: set<ServiceID>, after: seq<ServiceID>)
    requires Distinct(ids) && w <= ToSet(ids)
    ensures Supply(specs, ids, w, after) + Pending(after, w) == Pending(after, ToSet(ids))
  {
    if after != [] {
      SupplyDistinct(specs, ids, w, after[..|after| - 1]);
      DistinctCount(ids);
    }
  }

  lemma StepsExtend(specs: Specs, ids: seq<ServiceID>, cmp: Compare<ServiceID>, out: seq<ServiceID>, id: ServiceID)
    requires Steps(specs, ids, out) && Open(specs, ids, out, id)
    ensures Steps(specs, ids, out + [id])
    ensures LeastSteps(specs, ids, cmp, out) && (forall y :: Open(specs, ids, out, y) ==> cmp(id, y) <= 0) ==>
      LeastSteps(specs, ids, cmp, out + [id])
  {
    var out' := out + [id];
    assert out'[..|out|] == out;
    forall i | 0 <= i < |out| ensures StepAt(specs, ids, out', i) {
      assert out'[..i] == out[..i] && StepAt(specs, ids, out, i);
    }
    if LeastSteps(specs, ids, cmp, out) && forall y :: Open(specs, ids, out, y) ==> cmp(id, y) <= 0 {
      forall i | 0 <= i < |out| ensures LeastAt(specs, ids, cmp, out', i) {
        assert out'[..i] == out[..i] && LeastAt(specs, ids, cmp, out, i);
      }
      assert LeastAt(specs, ids, cmp, out', |out|);
    }
  }

  /** No service is emitted too often. */
  lemma {:induction false} StepsWithin(specs: Specs, ids: seq<ServiceID>, out: seq<ServiceID>, n: nat, d: ServiceID)
    requires Steps(specs, ids, out) && n <= |out|
    ensures multiset(out[..n])[d] <= Weight(specs, ids, d)
  {
    if n > 0 {
      StepsWithin(specs, ids, out, n - 1, d);
      assert out[..n] == out[..n - 1] + [out[n - 1]];
      assert StepAt(specs, ids, out, n - 1);
    }
  }

  /** Nothing of a starved set is ever emitted. */
  lemma {:induction false} StarvedNeverEmitted(specs: Specs, ids: seq<ServiceID>, out: seq<ServiceID>,
                                               w: set<ServiceID>, i: nat)
    requires Steps(specs, ids, out) && Starved(specs, ids, w) && i < |out|
    ensures out[i] !in w
  {
    if out[i] in w {
      var given := multiset(out[..i]);
      forall d ensures given[d] <= if d in w then 0 else Weight(specs, ids, d) {
        StepsWithin(specs, ids, out, i, d);
        if d in w && d in given {
          var j :| 0 <= j < i && out[..i][j] == d;
          StarvedNeverEmitted(specs, ids, out, w, j);
        }
      }
      assert Lacking(specs, ids, w, out[i]) && StepAt(specs, ids, out, i);
      HitsWithin(specs, ids, w, StartAfter(specs, out[i]), given);
    }
  }

  /** Starved services wait for one another. */
  lemma StarvedIsStuck(specs: Specs, ids: seq<ServiceID>, w: set<ServiceID>)
    requires Starved(specs, ids, w)
    ensures w <= ToSet(ids) && Stuck(specs, ToSet(ids), w)
  {
    forall a | a in w ensures a in ids && WaitsFor(specs, ToSet(ids), w, a) {
      assert Lacking(specs, ids, w, a);
      if forall d :: d in StartAfter(specs, a) && d in ids ==> d !in w {
        SupplyEnough(specs, ids, w, StartAfter(specs, a));
      }
      var b :| b in StartAfter(specs, a) && b in ids && b in w;
      assert DependsOn(specs, ToSet(ids), a, b);
    }
  }

  /** When no service is repeated, services that wait for one another are starved. */
  lemma StuckIsStarved(specs: Specs, ids: seq<ServiceID>, w: set<ServiceID>)
    requires Distinct(ids) && w != {} && w <= ToSet(ids) && Stuck(specs, ToSet(ids), w)
    ensures Starved(specs, ids, w)
  {
    forall x | x in w ensures Lacking(specs, ids, w, x) {
      assert WaitsFor(specs, ToSet(ids), w, x);
      SupplyDistinct(specs, ids, w, StartAfter(specs, x));
    }
  }

  /** Without a cycle nothing is starved, however often services are listed. */
  lemma AcyclicStarvesNone(specs: Specs, ids: seq<ServiceID>)
    requires Acyclic(specs, ToSet(ids))
    ensures NoneStarved(specs, ids)
  {
    forall w ensures !Starved(specs, ids, w) {
      if Starved(specs, ids, w) {
        StarvedIsStuck(specs, ids, w);
        var c := StuckHasCycle(specs, ToSet(ids), w);
      }
    }
  }

  // -------------------------------------------------- lists without repetition

  lemma OpenIsEligible(specs: Specs, ids: seq<ServiceID>, out: seq<ServiceID>, x: ServiceID)
    requires Distinct(ids) && Topological(specs, ToSet(ids), out)
    ensures Open(specs, ids, out, x) <==> Eligible(specs, ToSet(ids), ToSet(out), x)
  {
    TopologicalDistinct(specs, ToSet(ids), out);
    DistinctCount(ids);
    DistinctCount(out);
    HitsDistinct(StartAfter(specs, x), ToSet(ids), out);
    assert x in multiset(out) <==> x in ToSet(out);
  }

  lemma {:induction false} StepsTopological(specs: Specs, ids: seq<ServiceID>, out: seq<ServiceID>, n: nat)
    requires Distinct(ids) && Steps(specs, ids, out) && n <= |out|
    ensures Topological(specs, ToSet(ids), out[..n])
  {
    if n > 0 {
      StepsTopological(specs, ids, out, n - 1);
      assert StepAt(specs, ids, out, n - 1);
      OpenIsEligible(specs, ids, out[..n - 1], out[n - 1]);
      TopologicalExtend(specs, ToSet(ids), out[..n - 1], out[n - 1]);
      assert out[..n] == out[..n - 1] + [out[n - 1]];
    }
  }

  /** The steps are those of a topological order, least first. */
  lemma StepsWithoutRepetition(specs: Specs, ids: seq<ServiceID>, cmp: Compare<ServiceID>, out: seq<ServiceID>)
    requires Distinct(ids) && Steps(specs, ids, out)
    ensures Topological(specs, ToSet(ids), out)
    ensures LeastSteps(specs, ids, cmp, out) ==> LeastFirst(specs, ToSet(ids), cmp, out)
  {
    StepsTopological(specs, ids, out, |out|);
    assert out[..|out|] == out;
    if LeastSteps(specs, ids, cmp, out) {
      forall i, y | 0 <= i < |out| && Eligible(specs, ToSet(ids), ToSet(out[..i]), y) ensures cmp(out[i], y) <= 0 {
        assert LeastAt(specs, ids, cmp, out, i);
        StepsTopological(specs, ids, out, i);
        OpenIsEligible(specs, ids, out[..i], y);
      }
    }
  }
}
