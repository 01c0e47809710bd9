/** findVersionFromManifest: the newest listed version that a constraint accepts. */
module Resolve {
  import opened Orders
  import opened Results

  datatype ResolveError = UnknownVersion

  /** A greatest accepted version under `order`, or none when nothing is accepted. */
  ghost predicate Newest(versions: set<string>, order: Compare<string>, accepts: string -> bool,
                         r: Result<string, ResolveError>) {
    match r
    case Ok(v) => v in versions && accepts(v) && forall w :: w in versions && accepts(w) ==> order(w, v) <= 0
    case Err(_) => forall w :: w in versions ==> !accepts(w)
  }

  /** The map's keys in whatever order the iteration yields them. */
  method Keys(versions: set<string>) returns (list: seq<string>)
    ensures forall v :: v in list <==> v in versions
  {
    list := [];
    var rest := versions;
    while rest != {}
      invariant rest <= versions && forall v :: v in list <==> v in versions - rest
      decreases rest
    {
      var v :| v in rest;
      list := list + [v];
      rest := rest - {v};
    }
  }

  /** sort.Slice with the comparison turned round: newest first. */
  method SortDescending(list: seq<string>, order: Compare<string>) returns (sorted: seq<string>)
    requires TotalPreorder(order)
    ensures forall v :: v in sorted <==> v in list
    ensures forall i, j :: 0 <= i < j < |sorted| ==> order(sorted[j], sorted[i]) <= 0
  {
    var descending: Compare<string> := (a, b) => order(b, a);
    assert TotalPreorder(descending);
    StableSortSorted(list, descending);
    sorted := StableSort(list, descending);
    SameMembers(list, sorted);
    assert forall i, j :: 0 <= i < j < |sorted| ==> descending(sorted[i], sorted[j]) <= 0;
  }

  /** `accepts` is the constraint's Check, `order` is semver.Compare. */
  method FindVersion(versions: set<string>, order: Compare<string>, accepts: string -> bool)
    returns (r: Result<string, ResolveError>)
    requires TotalPreorder(order)
    ensures Newest(versions, order, accepts, r)
  {
    var list := Keys(versions);
    list := SortDescending(list, order);
    for i := 0 to |list|
      invariant forall k :: 0 <= k < i ==> !accepts(list[k])
    {
      if accepts(list[i]) {
        forall w | w in versions && accepts(w) ensures order(w, list[i]) <= 0 {
          var k :| 0 <= k < |list| && list[k] == w;
          assert k == i ==> order(w, w) <= 0;
        }
        return Ok(list[i]);
      }
    }
    return Err(UnknownVersion);
  }
}
