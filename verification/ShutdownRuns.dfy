/** What shutdown signals after any run of the controller. */
module ShutdownRuns {
  import opened ControllerModel
  import opened ControllerRuns
  import opened Orders
  import opened ProcIndex
  import opened Results
  import opened ServiceGraph
  import Shutdown

  /** A snapshot record as terminateGracefully reads it; every recorded process was started. */
  function Seen(r: Record, title: Instance -> string): Shutdown.Record {
    var info := Shutdown.Info(r.inst.service, Some(Shutdown.OsProcess(true, r.pid)));
    Shutdown.Record(r.service, r.pid, Some(Shutdown.Instance(title(r.inst), Some(info))))
  }

  function TargetFor(r: Record, title: Instance -> string): Shutdown.Target {
    Shutdown.Target(r.service, title(r.inst), r.pid)
  }

  // ------------------------------------------------------- every service has a name

  lemma HandleNames<R>(s: State<R>, e: Event<R>)
    requires "" !in s.nextId
    ensures "" !in Handle(s, e).nextId
  {
    if e.ScalingIn? {
      ScaleInFrame(s, e.req, e.hook, e.walked);
    }
  }

  lemma {:induction false} RunNames<R>(s: State<R>, es: seq<Event<R>>)
    requires "" !in s.nextId
    ensures "" !in Run(s, es).nextId
    decreases |es|
  {
    if es != [] {
      HandleNames(s, es[0]);
      RunNames(Handle(s, es[0]), es[1..]);
    }
  }

  // ------------------------------------------------------------------ the snapshot

  /** A record of the snapshot is the live process under its PID, with the data that a target needs. */
  ghost predicate IsProcess(os: Processes, p: int, r: Record) {
    p > 0 && r.pid == p && r.service == r.inst.service != "" && Live(os, r.inst) && os.pids[r.inst] == p
  }

  /** The snapshot holds the live processes, each under its PID, and nothing else. */
  ghost predicate Describes(snapshot: map<int, Record>, os: Processes) {
    && (forall p :: p in snapshot ==> IsProcess(os, p, snapshot[p]))
    && (forall i :: Live(os, i) ==> os.pids[i] in snapshot && snapshot[os.pids[i]].inst == i)
  }

  lemma SnapshotDescribes<R>(es: seq<Event<R>>)
    requires LegalRun(Initial<R>(), es)
    ensures var s := Run(Initial<R>(), es); Describes(Snapshot(s.index), s.os)
  {
    var s := Run(Initial<R>(), es);
    InitialFits<R>();
    RunKeeps(Initial<R>(), es);
    RunNames(Initial<R>(), es);
    forall p | p in Snapshot(s.index) ensures IsProcess(s.os, p, Snapshot(s.index)[p]) {
      assert RecordFits(s.index, s.os, s.procs, p) && PIDFits(s.index, p);
    }
    SnapshotIsLive(es);
  }

  lemma {:induction false} AllTargeted(records: seq<Shutdown.Record>, ts: seq<Shutdown.Target>)
    requires |records| == |ts| && forall k :: 0 <= k < |ts| ==> Shutdown.TargetOf(records[k]) == Some(ts[k])
    ensures Shutdown.Targets(records) == ts
  {
    if ts != [] {
      AllTargeted(records[..|ts| - 1], ts[..|ts| - 1]);
    }
  }

  /** The targets carry the listed PIDs, each once. */
  lemma PidsOnce(out: seq<Shutdown.Target>, ts: seq<Shutdown.Target>, pids: seq<int>)
    requires multiset(out) == multiset(ts) && |ts| == |pids| && Distinct(pids)
    requires forall k :: 0 <= k < |ts| ==> ts[k].pid == pids[k]
    ensures forall t :: t in out <==> t in ts
    ensures forall j, k :: 0 <= j < k < |out| ==> out[j].pid != out[k].pid
  {
    SameMembers(out, ts);
    PermutationDistinct(ts, out);
    forall j, k | 0 <= j < k < |out| ensures out[j].pid != out[k].pid {
      assert out[j] in ts && out[k] in ts;
      var a :| 0 <= a < |ts| && ts[a] == out[j];
      var b :| 0 <= b < |ts| && ts[b] == out[k];
    }
  }

  /** The target is a live process of its service. */
  ghost predicate IsLive(os: Processes, t: Shutdown.Target) {
    exists i :: Live(os, i) && os.pids[i] == t.pid && i.service == t.service
  }

  ghost predicate Signals(out: seq<Shutdown.Target>, pid: int, service: ServiceID) {
    exists t :: t in out && t.pid == pid && t.service == service
  }

  /** The services that have a live process. */
  ghost function LiveServices(os: Processes): set<ServiceID> {
    set i | i in os.pids && Live(os, i) :: i.service
  }

  /** What terminateGracefully signals, in order: every live process once, nothing else, dependents first. */
  ghost predicate SignalsLive(os: Processes, specs: Specs, out: seq<Shutdown.Target>) {
    && (forall t :: t in out ==> IsLive(os, t))
    && (forall i :: Live(os, i) ==> Signals(out, os.pids[i], i.service))
    && (forall j, k :: 0 <= j < k < |out| ==> out[j].pid != out[k].pid)
    && Shutdown.Grouped(out)
    && (Acyclic(specs, LiveServices(os)) ==> Shutdown.DependentsFirst(specs, LiveServices(os), out))
  }

  /** The targets made from a snapshot are the live processes. */
  lemma TargetsAreLive(os: Processes, snapshot: map<int, Record>, pids: seq<int>, title: Instance -> string,
                       ts: seq<Shutdown.Target>)
    requires Describes(snapshot, os) && ToSet(pids) == snapshot.Keys && |ts| == |pids|
    requires forall k :: 0 <= k < |pids| ==> pids[k] in snapshot && ts[k] == TargetFor(snapshot[pids[k]], title)
    ensures forall t :: t in ts ==> IsLive(os, t)
    ensures forall i :: Live(os, i) ==> Signals(ts, os.pids[i], i.service)
    ensures Shutdown.ServicesOf(ts) == LiveServices(os)
  {
    forall t | t in ts ensures IsLive(os, t) && t.service in LiveServices(os) {
      var a :| 0 <= a < |ts| && ts[a] == t;
      assert IsProcess(os, pids[a], snapshot[pids[a]]);
    }
    forall i | Live(os, i) ensures Signals(ts, os.pids[i], i.service) && i.service in Shutdown.ServicesOf(ts) {
      assert os.pids[i] in ToSet(pids);
      var a :| 0 <= a < |pids| && pids[a] == os.pids[i];
      assert IsProcess(os, pids[a], snapshot[pids[a]]) && ts[a] in ts;
    }
  }

  lemma TargetOfSeen(os: Processes, p: int, r: Record, title: Instance -> string)
    requires IsProcess(os, p, r)
    ensures Shutdown.TargetOf(Seen(r, title)) == Some(TargetFor(r, title))
  {
  }

  /** The stop list of a snapshot, whatever order its PIDs are listed in. */
  method SignalSnapshot(ghost os: Processes, snapshot: map<int, Record>, pids: seq<int>, title: Instance -> string,
                        specs: Specs)
    returns (out: seq<Shutdown.Target>)
    requires Describes(snapshot, os) && Distinct(pids) && ToSet(pids) == snapshot.Keys
    ensures SignalsLive(os, specs, out)
  {
    assert forall k :: 0 <= k < |pids| ==> pids[k] in ToSet(pids);
    var records := seq(|pids|, k requires 0 <= k < |pids| => Seen(snapshot[pids[k]], title));
    ghost var ts := seq(|pids|, k requires 0 <= k < |pids| => TargetFor(snapshot[pids[k]], title));
    forall k | 0 <= k < |pids| ensures Shutdown.TargetOf(records[k]) == Some(ts[k]) && ts[k].pid == pids[k] {
      TargetOfSeen(os, pids[k], snapshot[pids[k]], title);
    }
    AllTargeted(records, ts);
    TargetsAreLive(os, snapshot, pids, title, ts);
    ghost var ordered, pos;
    out, ordered, pos := Shutdown.StopList(records, specs);
    PidsOnce(out, ts, pids);
    SignalsMoved(ts, out, os);
  }

  lemma SignalsMoved(ts: seq<Shutdown.Target>, out: seq<Shutdown.Target>, os: Processes)
    requires (forall t :: t in out <==> t in ts) && forall i :: Live(os, i) ==> Signals(ts, os.pids[i], i.service)
    ensures forall i :: Live(os, i) ==> Signals(out, os.pids[i], i.service)
  {
    forall i | Live(os, i) ensures Signals(out, os.pids[i], i.service) {
      var t :| t in ts && t.pid == os.pids[i] && t.service == i.service;
    }
  }

  /** After every run of the controller, shutdown signals exactly the live processes, dependents first. */
  method SignalAll<R>(ghost es: seq<Event<R>>, snapshot: map<int, Record>, pids: seq<int>, title: Instance -> string,
                      specs: Specs)
    returns (out: seq<Shutdown.Target>)
    requires LegalRun(Initial<R>(), es) && snapshot == Snapshot(Run(Initial<R>(), es).index)
    requires Distinct(pids) && ToSet(pids) == snapshot.Keys
    ensures SignalsLive(Run(Initial<R>(), es).os, specs, out)
  {
    SnapshotDescribes(es);
    out := SignalSnapshot(Run(Initial<R>(), es).os, snapshot, pids, title, specs);
  }
}
