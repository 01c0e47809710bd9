/**
 portPlanner: ports are handed out per host, except that the wildcard host conflicts
 with every other one.
 */
module Ports {
  import opened Results

  const WILDCARD := "0.0.0.0"

  datatype Policy = AllocFree | Deterministic | OtherPolicy(name: string)

  datatype PortError = InvalidBase | InvalidPort | UnknownPolicy

  datatype Binding = Binding(host: string, port: int)

  /** Both addresses cannot be listened on at once. */
  predicate Conflict(a: Binding, b: Binding) {
    a.port == b.port && (a.host == b.host || a.host == WILDCARD || b.host == WILDCARD)
  }

  predicate Taken(past: seq<Binding>, b: Binding) {
    exists k :: 0 <= k < |past| && Conflict(past[k], b)
  }

  ghost predicate ConflictFree(past: seq<Binding>) {
    forall i, j :: 0 <= i < j < |past| ==> !Conflict(past[i], past[j])
  }

  /** `port` is the least one from `want` on that conflicts with nothing handed out before. */
  ghost predicate LeastFree(past: seq<Binding>, host: string, want: int, port: int) {
    && want <= port
    && !Taken(past, Binding(host, port))
    && forall q :: want <= q < port ==> Taken(past, Binding(host, q))
  }

  ghost predicate AllTaken(past: seq<Binding>, host: string, want: int, port: int) {
    forall q :: want <= q < port ==> Taken(past, Binding(host, q))
  }

  /** Each skipped port is blocked by an allocation of its own, so no more are skipped than were made. */
  lemma {:induction false} SkipsAtMost(past: seq<Binding>, host: string, want: int, port: int)
    requires want <= port && AllTaken(past, host, want, port)
    ensures port - want <= |past|
    decreases port - want
  {
    if want < port {
      var last := port - 1;
      assert Taken(past, Binding(host, last));
      var k :| 0 <= k < |past| && Conflict(past[k], Binding(host, last));
      var rest := past[..k] + past[k + 1..];
      forall q | want <= q < last ensures Taken(rest, Binding(host, q)) {
        assert Taken(past, Binding(host, q));
        var m :| 0 <= m < |past| && Conflict(past[m], Binding(host, q));
        assert rest[if m < k then m else m - 1] == past[m];
      }
      SkipsAtMost(rest, host, want, last);
    }
  }

  class PortPlanner {
    const policy: Policy
    var used: map<string, set<int>>
    /** Everything handed out so far, oldest first. */
    ghost var past: seq<Binding>

    ghost predicate Valid()
      reads this
    {
      && ConflictFree(past)
      && (forall b :: b in past ==> b.host in used && b.port in used[b.host])
      && (forall h, p :: h in used && p in used[h] ==> Binding(h, p) in past)
    }

    constructor (policy: Policy)
      ensures Valid() && past == [] && this.policy == policy
    {
      this.policy := policy;
      used := map[];
      past := [];
    }

    /** The scan over all hosts for the wildcard. */
    method UsedOnAnyHost(port: int) returns (conflict: bool)
      requires Valid()
      ensures conflict <==> Taken(past, Binding(WILDCARD, port))
    {
      conflict := false;
      var hosts := used.Keys;
      while hosts != {} && !conflict
        invariant hosts <= used.Keys
        invariant !conflict ==> forall h :: h in used && port in used[h] ==> h in hosts
        invariant conflict ==> Taken(past, Binding(WILDCARD, port))
        decreases hosts
      {
        var h :| h in hosts;
        hosts := hosts - {h};
        if port in used[h] {
          conflict := true;
          assert Binding(h, port) in past;
          ghost var k :| 0 <= k < |past| && past[k] == Binding(h, port);
        }
      }
    }

    predicate UsedOnHost(host: string, port: int)
      reads this
    {
      (host in used && port in used[host]) || (WILDCARD in used && port in used[WILDCARD])
    }

    lemma UsedOnHostExact(host: string, port: int)
      requires Valid() && host != WILDCARD
      ensures UsedOnHost(host, port) <==> Taken(past, Binding(host, port))
    {
    }

    /** The search loop. It ends because it can skip at most as many ports as were handed out. */
    method FindFree(host: string, want: int) returns (port: int)
      requires Valid()
      ensures LeastFree(past, host, want, port) && port <= want + |past|
    {
      port := want;
      while true
        invariant want <= port && AllTaken(past, host, want, port)
        decreases want + |past| - port
      {
        SkipsAtMost(past, host, want, port);
        var conflict;
        if host == WILDCARD {
          conflict := UsedOnAnyHost(port);
        } else {
          conflict := UsedOnHost(host, port);
          UsedOnHostExact(host, port);
        }
        if !conflict {
          return;
        }
        assert AllTaken(past, host, want, port + 1);
        SkipsAtMost(past, host, want, port + 1);
        port := port + 1;
      }
    }

    /** `probed` is the port the operating system probe would answer. */
    method Alloc(host: string, base: int, offset: int, probed: int) returns (r: Result<int, PortError>)
      requires Valid()
      modifies this
      ensures Valid()
      ensures base <= 0 ==> r == Err(InvalidBase)
      ensures base > 0 && policy == AllocFree ==> r == Ok(probed)
      ensures base > 0 && policy.OtherPolicy? ==> r == Err(UnknownPolicy)
      ensures base > 0 && policy == Deterministic && base + offset <= 0 ==> r == Err(InvalidPort)
      ensures base > 0 && policy == Deterministic && base + offset > 0 ==>
        r.Ok? && LeastFree(old(past), host, base + offset, r.value) && r.value <= base + offset + |old(past)|
      ensures past == if r.Ok? && policy == Deterministic then old(past) + [Binding(host, r.value)] else old(past)
    {
      if base <= 0 {
        return Err(InvalidBase);
      }
      if policy == AllocFree {
        return Ok(probed);
      }
      if policy.OtherPolicy? {
        return Err(UnknownPolicy);
      }
      var want := base + offset;
      if want <= 0 {
        return Err(InvalidPort);
      }
      if host !in used {
        used := used[host := {}];
      }
      var port := FindFree(host, want);
      used := used[host := used[host] + {port}];
      ghost var b := Binding(host, port);
      forall k | 0 <= k < |past| ensures !Conflict(past[k], b) {
        assert !Taken(past, b);
      }
      past := past + [b];
      return Ok(port);
    }
  }

  datatype Request = Request(host: string, base: int, offset: int)

  /** Any sequence of deterministic allocations, in one planner. */
  method AllocAll(requests: seq<Request>) returns (granted: seq<Binding>)
    ensures ConflictFree(granted) && |granted| <= |requests|
    ensures (forall i :: 0 <= i < |requests| ==> requests[i].base > 0 && requests[i].base + requests[i].offset > 0) ==>
      |granted| == |requests| &&
      forall i :: 0 <= i < |requests| ==>
        && granted[i].host == requests[i].host
        && LeastFree(granted[..i], granted[i].host, requests[i].base + requests[i].offset, granted[i].port)
        && granted[i].port <= requests[i].base + requests[i].offset + i
  {
    var planner := new PortPlanner(Deterministic);
    ghost var good := forall i :: 0 <= i < |requests| ==>
      requests[i].base > 0 && requests[i].base + requests[i].offset > 0;
    granted := [];
    for n := 0 to |requests|
      invariant planner.Valid() && planner.policy == Deterministic && planner.past == granted
      invariant |granted| <= n && fresh(planner)
      invariant good ==> |granted| == n
      invariant good ==> forall i :: 0 <= i < n ==>
        && granted[i].host == requests[i].host
        && LeastFree(granted[..i], granted[i].host, requests[i].base + requests[i].offset, granted[i].port)
        && granted[i].port <= requests[i].base + requests[i].offset + i
    {
      var q := requests[n];
      ghost var before := granted;
      var r := planner.Alloc(q.host, q.base, q.offset, 0);
      if r.Ok? {
        granted := granted + [Binding(q.host, r.value)];
        assert forall i :: 0 <= i <= |before| ==> granted[..i] == before[..i];
        assert before[..|before|] == before;
      }
    }
  }
}
