/** controllerState as an object: records are shared by reference between the two indexes. */
module Controller {
  import opened ControllerModel
  import opened Orders
  import opened ProcIndex
  import opened Results
  import opened ServiceGraph

  class ProcRecord {
    var inst: Instance
    var service: ServiceID
    var name: string
    var pid: int
    var removed: bool

    constructor (inst: Instance, pid: int)
      ensures Value() == Record(inst, inst.service, Name(inst), pid, false)
    {
      this.inst, this.service, this.name, this.pid, this.removed := inst, inst.service, Name(inst), pid, false;
    }

    function Value(): Record
      reads this
    {
      Record(inst, service, name, pid, removed)
    }
  }

  class ControllerState {
    var procs: Lists
    var idAlloc: Counters
    var requiredServices: Numbers
    var criticalRunning: Numbers
    var expectedExit: set<int>
    var procByPID: map<int, ProcRecord>
    var procByName: map<string, ProcRecord>
    var stopping: bool
    var shutdownRecords: Option<map<int, Record>>
    // what Info().Proc.Pid() answers for each instance, and which processes are gone
    var os: Processes
    ghost var announced: set<int>
    ghost var repr: set<ProcRecord>

    ghost predicate Valid()
      reads this
    {
      procByPID.Values <= repr && procByName.Values <= repr
    }

    ghost function Records(): map<ProcRecord, Record>
      reads this`repr, repr
    {
      map r | r in repr :: r.Value()
    }

    ghost function IndexView(): Index<ProcRecord>
      reads this`procByPID, this`procByName, this`repr, repr
    {
      Index(procByPID, procByName, Records())
    }

    ghost function View(): State<ProcRecord>
      reads this, repr
    {
      State(procs, idAlloc, requiredServices, criticalRunning, expectedExit, IndexView(), stopping, shutdownRecords,
            os, announced)
    }

    constructor ()
      ensures Valid() && View() == Initial()
    {
      procs, idAlloc, requiredServices, criticalRunning, expectedExit := map[], map[], map[], map[], {};
      procByPID, procByName, stopping, shutdownRecords, os := map[], map[], false, None, Processes(map[], {});
      announced, repr := {}, {};
    }

    // ---------------------------------------------------------------- lists

    method AllocId(service: ServiceID) returns (id: nat)
      requires Valid()
      modifies this`idAlloc
      ensures Valid() && View() == AllocID(old(View()), service)
      ensures id == if service == "" then 0 else old(NextOf(idAlloc, service))
    {
      if service == "" {
        return 0;
      }
      id := NextOf(idAlloc, service);
      idAlloc := idAlloc[service := id + 1];
    }

    /** The source panics when the instance belongs to another service. */
    method Append(service: ServiceID, inst: Instance)
      requires Valid() && inst.service == service
      modifies this`procs
      ensures Valid() && View() == AppendProc(old(View()), inst)
    {
      if service == "" {
        return;
      }
      procs := procs[service := Listed(procs, service) + [inst]];
    }

    method MarkProcRemoved(inst: Instance, pid0: int)
      requires Valid()
      modifies repr
      ensures Valid() && IndexView() == Mark(old(IndexView()), if pid0 <= 0 then PidOf(os.pids, inst) else pid0)
    {
      var pid := if pid0 <= 0 then PidOf(os.pids, inst) else pid0;
      if pid <= 0 {
        return;
      }
      if pid in procByPID {
        assert procByPID[pid] in procByPID.Values;
        procByPID[pid].removed := true;
      }
    }

    method RemoveByPID(service: ServiceID, pid: int) returns (inst: Option<Instance>)
      requires Valid()
      modifies this`procs, repr
      ensures Valid() && (View(), inst) == RemoveProcByPID(old(View()), service, pid)
    {
      if pid <= 0 || service == "" {
        return None;
      }
      var list := Listed(procs, service);
      for k := 0 to |list|
        invariant forall j :: 0 <= j < k ==> PidOf(os.pids, list[j]) != pid
        invariant View() == old(View())
      {
        if PidOf(os.pids, list[k]) != pid {
          continue;
        }
        ghost var before := View();
        assert FirstWithPid(list, os.pids, pid) == k;
        procs := procs[service := Without(list, k)];
        MarkProcRemoved(list[k], pid);
        assert View() == RemoveAt(before, service, k, pid);
        return Some(list[k]);
      }
      return None;
    }

    method Remove(service: ServiceID, inst: Instance) returns (found: bool)
      requires Valid()
      modifies this`procs, repr
      ensures Valid() && (View(), found) == RemoveProc(old(View()), service, inst)
    {
      if service == "" {
        return false;
      }
      var list := Listed(procs, service);
      for k := 0 to |list|
        invariant forall j :: 0 <= j < k ==> list[j] != inst
        invariant View() == old(View())
      {
        if list[k] != inst {
          continue;
        }
        ghost var before := View();
        assert FirstOf(list, inst) == k;
        procs := procs[service := Without(list, k)];
        MarkProcRemoved(inst, 0);
        assert View() == RemoveAt(before, service, k, 0);
        return true;
      }
      return false;
    }

    // -------------------------------------------------------------- indexes

    method EnterRecord(inst: Instance, pid: int) returns (rec: ProcRecord)
      requires Valid() && pid !in procByPID
      modifies this`procByPID, this`procByName, this`repr
      ensures Valid() && repr == old(repr) + {rec} && fresh(rec)
      ensures IndexView() == Enter(old(IndexView()), inst, pid, rec)
    {
      rec := new ProcRecord(inst, pid);
      procByPID := procByPID[pid := rec];
      procByName := procByName[Name(inst) := rec];
      repr := repr + {rec};
    }

    /** Overwrites a record in place, except for its removed flag. */
    method Rewrite(rec: ProcRecord, inst: Instance, pid: int)
      requires rec in repr
      modifies repr
      ensures IndexView() == old(IndexView()).(records :=
        old(IndexView()).records[rec := Record(inst, inst.service, Name(inst), pid, old(rec.removed))])
    {
      rec.inst, rec.service, rec.name, rec.pid := inst, inst.service, Name(inst), pid;
    }

    method RefreshRecord(inst: Instance, pid: int)
      requires Valid() && pid in procByPID
      modifies this`procByName, repr
      ensures Valid() && Has(old(IndexView()), pid) && IndexView() == Refresh(old(IndexView()), inst, pid)
    {
      var rec := procByPID[pid];
      assert rec in procByPID.Values;
      var oldName, name := rec.name, Name(inst);
      Rewrite(rec, inst, pid);
      ghost var names := procByName;
      if oldName != "" && oldName != name {
        if oldName in procByName && procByName[oldName] == rec {
          procByName := procByName - {oldName};
        }
      }
      assert procByName.Values <= names.Values;
      procByName := procByName[name := rec];
    }

    /** An upsert that makes no record: nothing to index, or a known PID. */
    static ghost predicate Unentered(x: Index<ProcRecord>, inst: Instance, pid: int, x': Index<ProcRecord>) {
      if pid <= 0 then x' == x else Has(x, pid) && x' == Refresh(x, inst, pid)
    }

    /** `made` is the record that a new PID gets. */
    method UpsertProcRecord(inst: Instance) returns (ghost made: Option<ProcRecord>)
      requires Valid()
      modifies this`procByPID, this`procByName, this`repr, repr
      ensures Valid() && repr == old(repr) + (if made.Some? then {made.value} else {})
      ensures made.Some? ==> fresh(made.value)
      ensures made.Some? ==> IndexView() == Upsert(old(IndexView()), inst, PidOf(os.pids, inst), made.value)
      ensures made.None? ==> Unentered(old(IndexView()), inst, PidOf(os.pids, inst), IndexView())
    {
      made := None;
      var pid := PidOf(os.pids, inst);
      if pid <= 0 {
        return;
      }
      if pid !in procByPID {
        var rec := EnterRecord(inst, pid);
        made := Some(rec);
      } else {
        RefreshRecord(inst, pid);
      }
    }

    method DeleteProcRecord(pid: int, name0: string)
      requires Valid()
      modifies this`procByPID, this`procByName
      ensures Valid() && IndexView() == Delete(old(IndexView()), pid, name0)
    {
      if pid <= 0 && name0 == "" {
        return;
      }
      var name := name0;
      if pid > 0 && pid in procByPID {
        var rec := procByPID[pid];
        assert rec in procByPID.Values;
        procByPID := procByPID - {pid};
        if name == "" {
          name := rec.name;
        }
        if name == "" {
          return;
        }
        if name in procByName && procByName[name] == rec {
          procByName := procByName - {name};
        }
        return;
      }
      if name == "" {
        return;
      }
      if name in procByName {
        var rec := procByName[name];
        assert rec in procByName.Values;
        procByName := procByName - {name};
        if rec.pid > 0 && rec.pid in procByPID && procByPID[rec.pid] == rec {
          procByPID := procByPID - {rec.pid};
        }
      }
    }

    // ------------------------------------------------------------- handlers

    method ExpectExitPID(pid: int)
      requires Valid()
      modifies this`expectedExit, this`announced
      ensures Valid() && View() == Expect(old(View()), pid)
    {
      if pid <= 0 {
        return;
      }
      expectedExit := expectedExit + {pid};
      announced := announced + {pid};
    }

    method SetRequiredServices(required: Numbers)
      requires Valid()
      modifies this`requiredServices, this`criticalRunning
      ensures Valid() && View() == SetRequired(old(View()), required)
    {
      requiredServices := map[];
      var rest := required.Keys;
      while rest != {}
        invariant rest <= required.Keys
        invariant requiredServices == map k | k in required && k != "" && required[k] > 0 && k !in rest :: required[k]
        decreases rest
      {
        var k :| k in rest;
        rest := rest - {k};
        if k != "" && required[k] > 0 {
          requiredServices := requiredServices[k := required[k]];
        }
      }
      criticalRunning := map[];
    }

    /** The records with a positive PID; the source lists them in no particular order. */
    method SnapshotProcRecords() returns (out: map<int, Record>)
      requires Valid()
      ensures out == Snapshot(IndexView())
    {
      assert forall p :: p in procByPID ==> procByPID[p] in procByPID.Values;
      out := map p | p in procByPID && p > 0 :: procByPID[p].Value();
    }

    method StartShutdown()
      requires Valid()
      modifies this`stopping, this`shutdownRecords
      ensures Valid() && View() == Stop(old(View()))
    {
      if stopping {
        return;
      }
      var records := SnapshotProcRecords();
      stopping, shutdownRecords := true, Some(records);
    }

    /** The process of the instance runs under `pid`; the rest is handleProcStarted. */
    method HandleProcStarted(inst: Instance, pid: int) returns (ghost made: Option<ProcRecord>)
      requires Valid()
      modifies this`os, this`procByPID, this`procByName, this`repr, this`criticalRunning, repr
      ensures Valid() && repr == old(repr) + (if made.Some? then {made.value} else {})
      ensures made.Some? ==> fresh(made.value) && View() == Start(old(View()), inst, pid, made.value)
      ensures made.None? ==> Unentered(old(IndexView()), inst, pid, IndexView())
      ensures View() ==
        CountUp(old(View()).(os := old(os).(pids := old(os.pids)[inst := pid]), index := IndexView()), inst.service)
    {
      os := os.(pids := os.pids[inst := pid]);
      made := UpsertProcRecord(inst);
      CountStart(inst.service);
    }

    method CountStart(service: ServiceID)
      requires Valid()
      modifies this`criticalRunning
      ensures Valid() && View() == CountUp(old(View()), service)
    {
      if Number(requiredServices, service) <= 0 {
        return;
      }
      criticalRunning := criticalRunning[service := Number(criticalRunning, service) + 1];
    }

    method CountExit(service: ServiceID) returns (remaining: int)
      requires Valid()
      modifies this`criticalRunning
      ensures Valid() && View() == CountDown(old(View()), service) && remaining == Number(criticalRunning, service)
    {
      if Number(requiredServices, service) > 0 {
        if Number(criticalRunning, service) > 0 {
          criticalRunning := criticalRunning[service := Number(criticalRunning, service) - 1];
        }
      }
      remaining := Number(criticalRunning, service);
    }

    method TakeExpected(pid: int) returns (expected: bool)
      requires Valid()
      modifies this`expectedExit
      ensures Valid() && (expected <==> pid > 0 && pid in old(expectedExit))
      ensures View() == old(View()).(expected := if pid > 0 then old(expectedExit) - {pid} else old(expectedExit))
    {
      expected := false;
      if pid > 0 {
        if pid in expectedExit {
          expected := true;
          expectedExit := expectedExit - {pid};
        }
      }
    }

    method ForgetProc(inst: Instance, pid: int) returns (expected: bool, remaining: int)
      requires Valid()
      modifies this`expectedExit, this`os, this`procByPID, this`procByName, this`criticalRunning
      ensures Valid() && View() == Forget(old(View()), inst, pid)
      ensures expected <==> pid > 0 && pid in old(expectedExit)
      ensures remaining == Number(criticalRunning, inst.service)
    {
      expected := TakeExpected(pid);
      os := os.(exited := os.exited + {inst});
      DeleteProcRecord(pid, Name(inst));
      remaining := CountExit(inst.service);
    }

    method HandleProcExited(inst: Instance, pid: int) returns (expected: bool)
      requires Valid()
      modifies this
      ensures Valid() && repr == old(repr) && View() == Exit(old(View()), inst, pid)
      ensures expected <==> pid > 0 && pid in old(expectedExit)
    {
      var remaining;
      expected, remaining := ForgetProc(inst, pid);
      var min := Number(requiredServices, inst.service);
      var triggerAutoStop := min > 0 && remaining < min && !expected;
      if stopping {
        return;
      }
      if triggerAutoStop {
        StartShutdown();
      }
    }

    // ------------------------------------------------------------- scale-in

    method SortedServices() returns (ids: seq<ServiceID>)
      ensures (forall t :: t in ids <==> t in procs) && Sorted(ids, CompareStrings)
    {
      ids := [];
      var rest := procs.Keys;
      while rest != {}
        invariant rest <= procs.Keys && forall t :: t in ids <==> t in procs && t !in rest
        decreases rest
      {
        var t :| t in rest;
        rest := rest - {t};
        ids := ids + [t];
      }
      SameMembers(ids, StableSort(ids, CompareStrings));
      CompareStringsTotal();
      StableSortSorted(ids, CompareStrings);
      ids := StableSort(ids, CompareStrings);
    }

    /** walkProcs with the callback of a lookup: the last match stands. */
    method Walk(req: Request) returns (found: Option<Place>)
      ensures WalkAnswer(View(), req, found)
    {
      found := None;
      var ids := SortedServices();
      for n := 0 to |ids|
        invariant found.Some? ==> Matches(View(), req, found.value)
        invariant found.None? ==> forall p: Place :: p.service in ids[..n] ==> !Matches(View(), req, p)
      {
        var list := procs[ids[n]];
        for k := 0 to |list|
          invariant found.Some? ==> Matches(View(), req, found.value)
          invariant found.None? ==> forall p: Place :: p.service in ids[..n] ==> !Matches(View(), req, p)
          invariant found.None? ==> forall j :: 0 <= j < k ==> !Matches(View(), req, Place(ids[n], list[j]))
        {
          if if req.pid > 0 then PidOf(os.pids, list[k]) == req.pid else Name(list[k]) == req.name {
            found := Some(Place(ids[n], list[k]));
          }
        }
        assert ids[..n + 1] == ids[..n] + [ids[n]];
      }
      assert ids[..|ids|] == ids;
    }

    method LookUp(req: Request) returns (f: Lookup, ghost walked: Option<Place>)
      requires Valid()
      ensures WalkAnswer(View(), req, walked) && f == Find(View(), req, walked)
    {
      var found := Walk(req);
      walked := found;
      var rec: Option<ProcRecord> :=
        if req.pid > 0 then (if req.pid in procByPID then Some(procByPID[req.pid]) else None)
        else if req.name in procByName then Some(procByName[req.name]) else None;
      if rec.Some? {
        assert rec.value in procByPID.Values + procByName.Values;
        if rec.value.removed {
          return Gone, walked;
        }
        return Found(Place(rec.value.service, rec.value.inst), if req.pid > 0 then req.pid else rec.value.pid), walked;
      }
      if found.None? {
        return Nothing, walked;
      }
      return Found(found.value, if req.pid > 0 then req.pid else PidOf(os.pids, found.value.inst)), walked;
    }

    method RunHook(hook: Hook, service: ServiceID, pid: int) returns (reply: Reply)
      requires Valid()
      modifies this`expectedExit, this`announced, this`procs, repr
      ensures Valid() && (View(), reply) == AfterHook(old(View()), hook, service, pid)
    {
      if hook.UnknownService? {
        return Unknown;
      }
      if hook.announces {
        ExpectExitPID(pid);
      }
      match hook {
        case HookFails(_) => return HookFailed;
        case Asynchronous(_) => return Pending;
        case Synchronous(_, signalled) =>
          var removed := RemoveByPID(service, pid);
          if removed.None? {
            return AlreadyRemoved;
          }
          ExpectExitPID(pid);
          return if signalled then Success(removed.value) else SignalFailed(removed.value);
      }
    }

    method HandleScaleIn(req: Request, hook: Hook) returns (reply: Reply, ghost walked: Option<Place>)
      requires Valid()
      modifies this`expectedExit, this`announced, this`procs, repr
      ensures Valid() && WalkAnswer(old(View()), req, walked)
      ensures (View(), reply) == ScaleIn(old(View()), req, hook, walked)
    {
      var f;
      f, walked := LookUp(req);
      if stopping {
        return Rejected, walked;
      }
      if (req.name != "" && req.pid > 0) || (req.name == "" && req.pid <= 0) {
        return BadRequest, walked;
      }
      match f {
        case Gone => return AlreadyRemoved, walked;
        case Nothing => return NotFound, walked;
        case Found(place, pid) =>
          if pid <= 0 {
            return NotRunning, walked;
          }
          reply := RunHook(hook, place.service, pid);
      }
    }

    method HandleAsyncStop(service: ServiceID, inst: Instance)
      requires Valid()
      modifies this`expectedExit, this`announced, this`procs, repr
      ensures Valid() && View() == AsyncStop(old(View()), service, inst)
    {
      var removed := Remove(service, inst);
      if !removed {
        return;
      }
      ExpectExitPID(PidOf(os.pids, inst));
    }
  }
}
