/**
 The controller's two indexes over process records, by PID and by name. Both lead to shared records, so a
 record has an identity of its own: `R` is the type of those identities.
 */
module ProcIndex {
  import opened Numerals
  import opened ServiceGraph

  /** An instance is identified by its service and the number the controller gave it. */
  datatype Instance = Instance(service: ServiceID, id: nat)

  /** ProcessInfo.Name. */
  function Name(i: Instance): (name: string)
    ensures name != ""
  {
    i.service + "-" + Decimal(i.id)
  }

  datatype Record = Record(inst: Instance, service: ServiceID, name: string, pid: int, removed: bool)

  datatype Index<R> = Index(byPID: map<int, R>, byName: map<string, R>, records: map<R, Record>)

  ghost predicate Has<R>(x: Index<R>, pid: int) {
    pid in x.byPID && x.byPID[pid] in x.records
  }

  ghost function At<R>(x: Index<R>, pid: int): Record
    requires Has(x, pid)
  {
    x.records[x.byPID[pid]]
  }

  // -------------------------------------------------------------- operations

  /** upsertProcRecord on a known PID: the record changes in place, and its old name is forgotten. */
  ghost function Refresh<R>(x: Index<R>, i: Instance, pid: int): Index<R>
    requires Has(x, pid)
  {
    var rec, was := x.byPID[pid], At(x, pid);
    var stale := was.name != "" && was.name != Name(i) && was.name in x.byName && x.byName[was.name] == rec;
    var names := if stale then x.byName - {was.name} else x.byName;
    Index(x.byPID, names[Name(i) := rec], x.records[rec := Record(i, i.service, Name(i), pid, was.removed)])
  }

  /** upsertProcRecord on a new PID. */
  ghost function Enter<R>(x: Index<R>, i: Instance, pid: int, unused: R): Index<R> {
    Index(x.byPID[pid := unused], x.byName[Name(i) := unused],
          x.records[unused := Record(i, i.service, Name(i), pid, false)])
  }

  /** upsertProcRecord of an instance with its PID; `unused` is the identity a new record would get. */
  ghost function Upsert<R>(x: Index<R>, i: Instance, pid: int, unused: R): Index<R> {
    if pid <= 0 then x else if Has(x, pid) then Refresh(x, i, pid) else Enter(x, i, pid, unused)
  }

  /** deleteProcRecord when the PID has a record. */
  ghost function DeleteByPID<R>(x: Index<R>, pid: int, name: string): Index<R>
    requires Has(x, pid)
  {
    var key := if name == "" then At(x, pid).name else name;
    x.(byPID := x.byPID - {pid},
       byName := if key != "" && key in x.byName && x.byName[key] == x.byPID[pid] then x.byName - {key} else x.byName)
  }

  /** deleteProcRecord when only the name may lead to a record. */
  ghost function DeleteByName<R>(x: Index<R>, name: string): Index<R> {
    if name == "" || name !in x.byName then x
    else
      var rec := x.byName[name];
      var p := if rec in x.records then x.records[rec].pid else 0;
      x.(byName := x.byName - {name},
         byPID := if p > 0 && p in x.byPID && x.byPID[p] == rec then x.byPID - {p} else x.byPID)
  }

  /** deleteProcRecord. */
  ghost function Delete<R>(x: Index<R>, pid: int, name: string): Index<R> {
    if pid > 0 && Has(x, pid) then DeleteByPID(x, pid, name) else DeleteByName(x, name)
  }

  /** markProcRemoved with a resolved PID. */
  ghost function Mark<R>(x: Index<R>, pid: int): Index<R> {
    if pid > 0 && Has(x, pid) then x.(records := x.records[x.byPID[pid] := At(x, pid).(removed := true)]) else x
  }

  // -------------------------------------------------------------- coherence

  ghost predicate PIDFits<R>(x: Index<R>, p: int) {
    p > 0 && Has(x, p) && At(x, p).pid == p
  }

  ghost predicate NameFits<R>(x: Index<R>, n: string) {
    && n != "" && n in x.byName && x.byName[n] in x.records
    && var r := x.records[x.byName[n]];
       r.name == n && r.pid in x.byPID && x.byPID[r.pid] == x.byName[n]
  }

  /** Keys match record fields, and a name leads to the very record its PID leads to. */
  ghost predicate Coherent<R>(x: Index<R>) {
    && (forall p :: p in x.byPID ==> PIDFits(x, p))
    && (forall n :: n in x.byName ==> NameFits(x, n))
  }

  /** The record under the PID is also the one under its name. */
  ghost predicate Named<R>(x: Index<R>, p: int) {
    Has(x, p) && At(x, p).name in x.byName && x.byName[At(x, p).name] == x.byPID[p]
  }

  /** The indexes are inverse bijections. */
  ghost predicate Bijective<R>(x: Index<R>) {
    Coherent(x) && forall p :: p in x.byPID ==> Named(x, p)
  }

  /** Another live record has the name. */
  ghost predicate NameTaken<R>(x: Index<R>, name: string, pid: int) {
    exists p :: Has(x, p) && p != pid && At(x, p).name == name
  }

  lemma RefreshCoherent<R>(x: Index<R>, i: Instance, pid: int)
    requires Coherent(x) && pid in x.byPID
    ensures Coherent(Refresh(x, i, pid))
  {
  }

  lemma EnterCoherent<R>(x: Index<R>, i: Instance, pid: int, unused: R)
    requires Coherent(x) && unused !in x.records && pid > 0 && pid !in x.byPID
    ensures Coherent(Enter(x, i, pid, unused))
  {
  }

  /** An upsert keeps the indexes coherent, whatever the instance and its PID. */
  lemma UpsertCoherent<R>(x: Index<R>, i: Instance, pid: int, unused: R)
    requires Coherent(x) && unused !in x.records
    ensures Coherent(Upsert(x, i, pid, unused))
  {
    if pid > 0 {
      if pid in x.byPID {
        assert PIDFits(x, pid);
        RefreshCoherent(x, i, pid);
      } else {
        EnterCoherent(x, i, pid, unused);
      }
    }
  }

  /** A record under another PID is untouched by an upsert. */
  lemma UpsertElsewhere<R>(x: Index<R>, i: Instance, pid: int, unused: R, p: int)
    requires Coherent(x) && unused !in x.records && p in x.byPID && p != pid
    ensures var x' := Upsert(x, i, pid, unused); Has(x', p) && x'.byPID[p] == x.byPID[p] && At(x', p) == At(x, p)
  {
  }

  lemma UpsertHere<R>(x: Index<R>, i: Instance, pid: int, unused: R)
    requires pid > 0 && Coherent(x)
    ensures var x' := Upsert(x, i, pid, unused);
      && x'.byPID.Keys == x.byPID.Keys + {pid} && Has(x', pid)
      && At(x', pid) == Record(i, i.service, Name(i), pid, pid in x.byPID && At(x, pid).removed)
      && Name(i) in x'.byName && x'.byName[Name(i)] == x'.byPID[pid]
  {
  }

  /** Between bijective indexes, an upsert keeps the bijection exactly when no other live record has the name. */
  lemma UpsertBijective<R>(x: Index<R>, i: Instance, pid: int, unused: R)
    requires Bijective(x) && unused !in x.records && pid > 0
    ensures Bijective(Upsert(x, i, pid, unused)) <==> !NameTaken(x, Name(i), pid)
  {
    UpsertCoherent(x, i, pid, unused);
    UpsertHere(x, i, pid, unused);
    var x' := Upsert(x, i, pid, unused);
    if NameTaken(x, Name(i), pid) {
      var p :| Has(x, p) && p != pid && At(x, p).name == Name(i);
      UpsertElsewhere(x, i, pid, unused, p);
      assert PIDFits(x', p) && PIDFits(x', pid);
      assert !Named(x', p);
    } else {
      forall p | p in x'.byPID ensures Named(x', p) {
        if p != pid {
          UpsertElsewhere(x, i, pid, unused, p);
          assert Named(x, p);
          UpsertKeepsName(x, i, pid, unused, p);
        }
      }
    }
  }

  lemma UpsertKeepsName<R>(x: Index<R>, i: Instance, pid: int, unused: R, p: int)
    requires Coherent(x) && Named(x, p) && p != pid && At(x, p).name != Name(i) && pid > 0
    ensures var n, x' := At(x, p).name, Upsert(x, i, pid, unused); n in x'.byName && x'.byName[n] == x.byName[n]
  {
  }

  /** A deletion that names another record than the one under the PID, which is still indexed by name. */
  ghost predicate Mismatched<R>(x: Index<R>, pid: int, name: string) {
    Named(x, pid) && name != "" && name != At(x, pid).name
  }

  /** A deletion keeps the indexes coherent exactly when it is not mismatched. */
  lemma DeleteCoherent<R>(x: Index<R>, pid: int, name: string)
    requires Coherent(x)
    ensures Coherent(Delete(x, pid, name)) <==> !Mismatched(x, pid, name)
  {
  }

  /** Deleting a record under its own name removes it from both indexes and keeps the bijection. */
  lemma DeleteBijective<R>(x: Index<R>, pid: int, name: string)
    requires Bijective(x) && Has(x, pid) && (name == "" || name == At(x, pid).name)
    ensures Bijective(Delete(x, pid, name))
    ensures Delete(x, pid, name) == x.(byPID := x.byPID - {pid}, byName := x.byName - {At(x, pid).name})
  {
  }

  lemma MarkBijective<R>(x: Index<R>, pid: int)
    requires Bijective(x)
    ensures Bijective(Mark(x, pid))
  {
  }

  // -------------------------------------------------- any sequence of changes

  datatype Change<R> = Put(inst: Instance, pid: int, unused: R) | Drop(pid: int, name: string) | Flag(pid: int)

  ghost function Apply<R>(x: Index<R>, c: Change<R>): Index<R> {
    match c
    case Put(i, pid, unused) => Upsert(x, i, pid, unused)
    case Drop(pid, name) => Delete(x, pid, name)
    case Flag(pid) => Mark(x, pid)
  }

  /** New records get new identities, and deletions are not mismatched. */
  ghost predicate Fitting<R>(x: Index<R>, c: Change<R>) {
    (c.Put? ==> c.unused !in x.records) && (c.Drop? ==> !Mismatched(x, c.pid, c.name))
  }

  ghost predicate AllFitting<R>(x: Index<R>, cs: seq<Change<R>>)
    decreases |cs|
  {
    cs == [] || (Fitting(x, cs[0]) && AllFitting(Apply(x, cs[0]), cs[1..]))
  }

  ghost function ApplyAll<R>(x: Index<R>, cs: seq<Change<R>>): Index<R>
    decreases |cs|
  {
    if cs == [] then x else ApplyAll(Apply(x, cs[0]), cs[1..])
  }

  lemma MarkCoherent<R>(x: Index<R>, pid: int)
    requires Coherent(x)
    ensures Coherent(Mark(x, pid))
  {
  }

  /** After any sequence of fitting changes, from empty indexes, the indexes are coherent. */
  lemma {:induction false} AlwaysCoherent<R>(x: Index<R>, cs: seq<Change<R>>)
    requires Coherent(x) && AllFitting(x, cs)
    ensures Coherent(ApplyAll(x, cs))
    decreases |cs|
  {
    if cs != [] {
      match cs[0] {
        case Put(i, pid, unused) => UpsertCoherent(x, i, pid, unused);
        case Drop(pid, name) => DeleteCoherent(x, pid, name);
        case Flag(pid) => MarkCoherent(x, pid);
      }
      AlwaysCoherent(Apply(x, cs[0]), cs[1..]);
    }
  }

  // -------------------------------------------------- when the bijection is kept

  lemma DeleteBijectiveExactly<R>(x: Index<R>, pid: int, name: string)
    requires Bijective(x)
    ensures Bijective(Delete(x, pid, name)) <==> !Mismatched(x, pid, name)
  {
    DeleteCoherent(x, pid, name);
  }

  /** The change takes no name that another PID holds, and deletes no record under a foreign name. */
  ghost predicate Proper<R>(x: Index<R>, c: Change<R>) {
    match c
    case Put(i, pid, _) => pid > 0 ==> !NameTaken(x, Name(i), pid)
    case Drop(pid, name) => !Mismatched(x, pid, name)
    case Flag(_) => true
  }

  ghost predicate AllProper<R>(x: Index<R>, cs: seq<Change<R>>)
    decreases |cs|
  {
    cs == [] || (Proper(x, cs[0]) && AllProper(Apply(x, cs[0]), cs[1..]))
  }

  /** New records get new identities. */
  ghost predicate AllFresh<R>(x: Index<R>, cs: seq<Change<R>>)
    decreases |cs|
  {
    cs == [] || ((cs[0].Put? ==> cs[0].unused !in x.records) && AllFresh(Apply(x, cs[0]), cs[1..]))
  }

  /** The indexes are inverse to each other before, between and after the changes. */
  ghost predicate StaysBijective<R>(x: Index<R>, cs: seq<Change<R>>)
    decreases |cs|
  {
    Bijective(x) && (cs == [] || StaysBijective(Apply(x, cs[0]), cs[1..]))
  }

  /** Over any sequence of changes the indexes stay inverse to each other exactly when every change is proper. */
  lemma {:induction false} AlwaysBijective<R>(x: Index<R>, cs: seq<Change<R>>)
    requires Bijective(x) && AllFresh(x, cs)
    ensures StaysBijective(x, cs) <==> AllProper(x, cs)
    decreases |cs|
  {
    if cs != [] {
      match cs[0] {
        case Put(i, pid, unused) =>
          if pid > 0 {
            UpsertBijective(x, i, pid, unused);
          }
        case Drop(pid, name) => DeleteBijectiveExactly(x, pid, name);
        case Flag(pid) => MarkBijective(x, pid);
      }
      if Bijective(Apply(x, cs[0])) {
        AlwaysBijective(Apply(x, cs[0]), cs[1..]);
      }
    }
  }

  /** Distinct live names at the end are not enough: PID 1 is left without its name. */
  lemma NameLostToAnotherPID(i: Instance)
    ensures var cs := [Put(i, 1, 10), Put(i, 2, 20), Drop(2, "")];
      var x := ApplyAll(Index(map[], map[], map[]), cs);
      AllFitting(Index(map[], map[], map[]), cs) && x.byPID.Keys == {1} && x.byName == map[] && !Bijective(x)
  {
    var c1, c2, c3 := Put(i, 1, 10), Put(i, 2, 20), Drop(2, "");
    var x0: Index<int> := Index(map[], map[], map[]);
    var x1 := Apply(x0, c1);
    var x2 := Apply(x1, c2);
    var x3 := Apply(x2, c3);
    assert x2.byName == map[Name(i) := 20] && x2.byPID == map[1 := 10, 2 := 20];
    assert x3.byPID == map[1 := 10] && x3.byName == map[] && 1 in x3.byPID && !Named(x3, 1);
    assert [c1, c2, c3][1..] == [c2, c3] && [c2, c3][1..] == [c3] && [c3][1..] == [];
    assert AllFitting(x2, [c3]) && ApplyAll(x2, [c3]) == x3;
    assert AllFitting(x1, [c2, c3]) && ApplyAll(x1, [c2, c3]) == x3;
  }

  /** A deletion under a foreign name leaves the record's own name behind without its PID. */
  lemma NameLeftBehind(i: Instance, name: string)
    requires name != "" && name != Name(i)
    ensures var x := Apply(Index(map[], map[], map[]), Put(i, 1, 10));
      Coherent(x) && Delete(x, 1, name).byPID == map[] && Name(i) in Delete(x, 1, name).byName
      && !Coherent(Delete(x, 1, name))
  {
    var x := Apply(Index(map[], map[], map[]), Put(i, 1, 10));
    assert x.byPID == map[1 := 10] && x.byName == map[Name(i) := 10];
    assert !NameFits(Delete(x, 1, name), Name(i));
  }

  // ------------------------------------------------------------------ names

  /** Two instances never share a name. */
  lemma NameInjective(a: Instance, b: Instance)
    requires Name(a) == Name(b)
    ensures a == b
  {
    DecimalChars(a.id);
    DecimalChars(b.id);
    var n := Name(a);
    var da, db := |a.service|, |b.service|;
    assert n[da] == '-' && n[db] == '-';
    assert forall k :: da < k < |n| ==> n[k] == Decimal(a.id)[k - da - 1];
    assert forall k :: db < k < |n| ==> n[k] == Decimal(b.id)[k - db - 1];
    assert da == db;
    assert a.service == n[..da] && b.service == n[..db];
    assert Decimal(a.id) == n[da + 1..] && Decimal(b.id) == n[db + 1..];
    DecimalInjective(a.id, b.id);
  }
}
