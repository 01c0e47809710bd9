/**
 The start-after relation between services, restricted to the services that
 are present, and the facts about it that scheduling depends on.
 */
module ServiceGraph {
  import opened Orders

  type ServiceID = string

  /** The StartAfter list of every service that has a spec. */
  type Specs = map<ServiceID, seq<ServiceID>>

  function StartAfter(specs: Specs, id: ServiceID): seq<ServiceID> {
    if id in specs then specs[id] else []
  }

  /** `a` has to start after `b`, and both are present. */
  ghost predicate DependsOn(specs: Specs, present: set<ServiceID>, a: ServiceID, b: ServiceID) {
    a in present && b in present && b in StartAfter(specs, a)
  }

  // --------------------------------------------------------- cycles

  ghost predicate IsWalk(specs: Specs, present: set<ServiceID>, c: seq<ServiceID>) {
    forall i :: 0 <= i < |c| - 1 ==> DependsOn(specs, present, c[i], c[i + 1])
  }

  /** Each service in `c` starts after the next one, and the last after the first. */
  ghost predicate IsCycle(specs: Specs, present: set<ServiceID>, c: seq<ServiceID>) {
    |c| > 0 && IsWalk(specs, present, c) && DependsOn(specs, present, c[|c| - 1], c[0])
  }

  ghost predicate Acyclic(specs: Specs, present: set<ServiceID>) {
    forall c: seq<ServiceID> :: !IsCycle(specs, present, c)
  }

  ghost predicate WaitsFor(specs: Specs, present: set<ServiceID>, x: set<ServiceID>, a: ServiceID) {
    exists b :: b in x && DependsOn(specs, present, a, b)
  }

  /** Every service in `x` waits for one in `x`. */
  ghost predicate Stuck(specs: Specs, present: set<ServiceID>, x: set<ServiceID>) {
    forall a {:trigger WaitsFor(specs, present, x, a)} :: a in x ==> WaitsFor(specs, present, x, a)
  }

  lemma SubsetCardinality<T>(a: set<T>, b: set<T>)
    requires a <= b
    ensures |a| <= |b|
  {
    assert b == a + (b - a);
  }

  lemma LongerWalk(specs: Specs, present: set<ServiceID>, x: set<ServiceID>, path: seq<ServiceID>, b: ServiceID)
    requires path != [] && Distinct(path) && ToSet(path) <= x && IsWalk(specs, present, path)
    requires b in x && b !in path && DependsOn(specs, present, path[|path| - 1], b)
    ensures Distinct(path + [b]) && ToSet(path + [b]) <= x && IsWalk(specs, present, path + [b])
    ensures |path| < |x|
  {
    var longer := path + [b];
    assert ToSet(longer) == ToSet(path) + {b};
    DistinctLength(longer);
    SubsetCardinality(ToSet(longer), x);
  }

  /** Extends a walk inside a stuck set until it meets itself. */
  lemma {:induction false} WalkIntoCycle(specs: Specs, present: set<ServiceID>, x: set<ServiceID>, path: seq<ServiceID>)
    returns (c: seq<ServiceID>)
    requires Stuck(specs, present, x)
    requires path != [] && Distinct(path) && ToSet(path) <= x && IsWalk(specs, present, path)
    ensures IsCycle(specs, present, c) && ToSet(c) <= x
    decreases |x| - |path|
  {
    var last := path[|path| - 1];
    assert last in ToSet(path);
    assert WaitsFor(specs, present, x, last);
    var b :| b in x && DependsOn(specs, present, last, b);
    if b in path {
      var k :| 0 <= k < |path| && path[k] == b;
      c := path[k..];
    } else {
      LongerWalk(specs, present, x, path, b);
      c := WalkIntoCycle(specs, present, x, path + [b]);
    }
  }

  lemma StuckHasCycle(specs: Specs, present: set<ServiceID>, x: set<ServiceID>) returns (c: seq<ServiceID>)
    requires Stuck(specs, present, x) && x != {}
    ensures IsCycle(specs, present, c) && ToSet(c) <= x
  {
    var a :| a in x;
    c := WalkIntoCycle(specs, present, x, [a]);
  }

  lemma CycleIsStuck(specs: Specs, present: set<ServiceID>, c: seq<ServiceID>)
    requires IsCycle(specs, present, c)
    ensures Stuck(specs, present, ToSet(c))
  {
    forall a | a in ToSet(c) ensures WaitsFor(specs, present, ToSet(c), a) {
      var i :| 0 <= i < |c| && c[i] == a;
      var b := if i == |c| - 1 then c[0] else c[i + 1];
      assert b in ToSet(c) && DependsOn(specs, present, a, b);
    }
  }

  // --------------------------------------------------------- orders

  /** `y` is present, not emitted yet, and everything present it starts after has been emitted. */
  ghost predicate Eligible(specs: Specs, present: set<ServiceID>, emitted: set<ServiceID>, y: ServiceID) {
    && y in present && y !in emitted
    && forall d :: d in StartAfter(specs, y) && d in present ==> d in emitted
  }

  /** `out` lists services of `present` once each, every dependency before its dependents. */
  ghost predicate Topological(specs: Specs, present: set<ServiceID>, out: seq<ServiceID>) {
    forall i :: 0 <= i < |out| ==> Eligible(specs, present, ToSet(out[..i]), out[i])
  }

  /** No service that could have been emitted instead comes before the chosen one under `cmp`. */
  ghost predicate LeastFirst(specs: Specs, present: set<ServiceID>, cmp: Compare<ServiceID>, out: seq<ServiceID>) {
    forall i, y :: 0 <= i < |out| && Eligible(specs, present, ToSet(out[..i]), y) ==> cmp(out[i], y) <= 0
  }

  lemma TopologicalDistinct(specs: Specs, present: set<ServiceID>, out: seq<ServiceID>)
    requires Topological(specs, present, out)
    ensures Distinct(out) && ToSet(out) <= present
  {
  }

  /** In pairwise form: a present dependency sits at an earlier index. */
  lemma TopologicalOrders(specs: Specs, present: set<ServiceID>, out: seq<ServiceID>, j: int, d: ServiceID)
    returns (i: int)
    requires Topological(specs, present, out) && 0 <= j < |out| && DependsOn(specs, present, out[j], d)
    ensures 0 <= i < j && out[i] == d
  {
    assert Eligible(specs, present, ToSet(out[..j]), out[j]);
    assert d in out[..j];
    i :| 0 <= i < j && out[..j][i] == d;
  }

  lemma TopologicalExtend(specs: Specs, present: set<ServiceID>, out: seq<ServiceID>, id: ServiceID)
    requires Topological(specs, present, out) && Eligible(specs, present, ToSet(out), id)
    ensures Topological(specs, present, out + [id])
  {
    var out' := out + [id];
    forall i | 0 <= i < |out'| ensures Eligible(specs, present, ToSet(out'[..i]), out'[i]) {
      assert out'[..i] == out[..i];
      assert i == |out| ==> out[..i] == out;
    }
  }

  /** Nothing of a stuck set is ever emitted. */
  lemma {:induction false} StuckNeverEmitted(specs: Specs, present: set<ServiceID>, out: seq<ServiceID>,
                                             x: set<ServiceID>, i: nat)
    requires Topological(specs, present, out) && Stuck(specs, present, x) && i < |out|
    ensures out[i] !in x
  {
    if out[i] in x {
      assert WaitsFor(specs, present, x, out[i]);
      var b :| b in x && DependsOn(specs, present, out[i], b);
      var j := TopologicalOrders(specs, present, out, i, b);
      StuckNeverEmitted(specs, present, out, x, j);
    }
  }

  /** A complete topological order exists only when there is no cycle. */
  lemma TopologicalAcyclic(specs: Specs, present: set<ServiceID>, out: seq<ServiceID>)
    requires Topological(specs, present, out) && ToSet(out) == present
    ensures Acyclic(specs, present)
  {
    forall c: seq<ServiceID> ensures !IsCycle(specs, present, c) {
      if IsCycle(specs, present, c) {
        CycleIsStuck(specs, present, c);
        assert c[|c| - 1] in ToSet(out);
        var i :| 0 <= i < |out| && out[i] == c[|c| - 1];
        StuckNeverEmitted(specs, present, out, ToSet(c), i);
      }
    }
  }

  /** `specs` and `specs'` declare the same dependencies, in whatever list order and multiplicity. */
  ghost predicate SameDependencies(specs: Specs, specs': Specs, present: set<ServiceID>) {
    forall a, d :: a in present && d in present ==> (d in StartAfter(specs, a) <==> d in StartAfter(specs', a))
  }

  /**
   The emitted order is canonical: two least-first orders of the same services under
   the same dependencies agree, however the inputs were listed.
   */
  lemma {:induction false} CanonicalPrefix(specs: Specs, specs': Specs, present: set<ServiceID>,
                                           cmp: Compare<ServiceID>, out: seq<ServiceID>, out': seq<ServiceID>, n: nat)
    requires TotalOrder(cmp) && SameDependencies(specs, specs', present)
    requires Topological(specs, present, out) && LeastFirst(specs, present, cmp, out)
    requires Topological(specs', present, out') && LeastFirst(specs', present, cmp, out')
    requires n <= |out| && n <= |out'|
    ensures out[..n] == out'[..n]
  {
    if n > 0 {
      CanonicalPrefix(specs, specs', present, cmp, out, out', n - 1);
      var emitted := ToSet(out[..n - 1]);
      assert Eligible(specs, present, emitted, out[n - 1]) && Eligible(specs', present, emitted, out'[n - 1]);
      assert Eligible(specs', present, emitted, out[n - 1]) && Eligible(specs, present, emitted, out'[n - 1]);
      assert cmp(out[n - 1], out'[n - 1]) == 0;
      assert out[..n] == out[..n - 1] + [out[n - 1]];
      assert out'[..n] == out'[..n - 1] + [out'[n - 1]];
    }
  }

  lemma CanonicalOrder(specs: Specs, specs': Specs, present: set<ServiceID>, cmp: Compare<ServiceID>,
                       out: seq<ServiceID>, out': seq<ServiceID>)
    requires TotalOrder(cmp) && SameDependencies(specs, specs', present)
    requires Topological(specs, present, out) && LeastFirst(specs, present, cmp, out) && ToSet(out) == present
    requires Topological(specs', present, out') && LeastFirst(specs', present, cmp, out') && ToSet(out') == present
    ensures out == out'
  {
    TopologicalDistinct(specs, present, out);
    TopologicalDistinct(specs', present, out');
    DistinctLength(out);
    DistinctLength(out');
    CanonicalPrefix(specs, specs', present, cmp, out, out', |out|);
    assert out[..|out|] == out && out'[..|out|] == out';
  }

  /** Whether a cycle exists does not depend on how the dependencies are listed. */
  lemma AcyclicSameDependencies(specs: Specs, specs': Specs, present: set<ServiceID>)
    requires SameDependencies(specs, specs', present)
    ensures Acyclic(specs, present) <==> Acyclic(specs', present)
  {
    forall c: seq<ServiceID> ensures IsCycle(specs, present, c) <==> IsCycle(specs', present, c) {
      assert forall a, b :: DependsOn(specs, present, a, b) <==> DependsOn(specs', present, a, b);
    }
  }

  lemma StuckSameDependencies(specs: Specs, specs': Specs, present: set<ServiceID>, x: set<ServiceID>)
    requires SameDependencies(specs, specs', present)
    ensures Stuck(specs, present, x) <==> Stuck(specs', present, x)
  {
    forall a ensures WaitsFor(specs, present, x, a) <==> WaitsFor(specs', present, x, a) {
      assert forall b :: DependsOn(specs, present, a, b) <==> DependsOn(specs', present, a, b);
    }
  }
}
