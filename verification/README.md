# TiUP: boot scheduling, controller, manifest updates and version arithmetic, verified

This project models the parts of TiUP that hold state machines, orderings and bounded arithmetic, and proves
what they promise. `dafny verify dfyconfig.toml` checks all of it. Nothing was executed.

- **Boot and shutdown of playground-ng.** `ServiceGraph` defines dependency cycles and orders without reference to
  any algorithm, `Listings` what a list with repeated services amounts to. `TopoSort` is Kahn's algorithm with a
  priority comparison, loop by loop. `BootPlan` plans which services start and after which others. `BootFates` and
  `BootOutcome` say what becomes of each service, from the declared dependencies and from what each instance eventually
  reports. `BootStart` is the starter, with reports that arrive in any order or never, and with a log of events. `Boot`
  joins them: when a boot succeeds, why it fails, and what its log promises. `Shutdown` is the stop list,
  `ShutdownRuns` what it holds after any run of the controller, `Ports` the port planner.
- **The controller of playground-ng.** `ProcIndex` is the pair of indexes over shared records, `ControllerModel` the
  meaning of each step, `ControllerRuns` the invariants over every run of events, and `Controller` the mutable object
  whose methods are proved equal to those steps. `ProcessGroups` is the concurrent process group as interleaved steps.
- **The manifest update protocol of V1Repository.** `ManifestModel` is each operation as a function of the state and
  of everything the outside answers: the mirror at each request, the verdict of each load, the disk. `ManifestRuns`
  proves what it promises, `Manifests` is the object whose methods are proved equal to it. `Resolve` picks a version.
- **Ordering and arithmetic.** `Semver` (precedence and constraints), `ParseUint`, `Base51`, `TailLog`, over `Numerals`
  and `Orders`.

Integers are unbounded in Dafny. The 64-bit wrap-around of the parser, of the base-51 decoder and of a raised version
component is written out where the code depends on it.

## What the code does not promise, and the exact condition

- A pre-release identifier such as `-5` is read as a negative number, so `2.0.0--5` satisfies `^1.2.3`.
  `Semver.CheckExact` states exactly which versions slip in, and when a raised component overflows.
- Two spellings of one number, such as `-5` and `-05`, each compare below the other, and Compare is not transitive
  through them (`Semver.EachBelowTheOther`, `Semver.NotTransitive`). `Semver.CompareAntisymmetric` and
  `Semver.CompareTransitive` are if-and-only-ifs; `Semver.AgreementIsExact` says which identifiers follow section 11 of
  Semantic Versioning 2.0.0.
- `deleteProcRecord` with a name other than the record's own leaves that record's name entry dangling, and only then
  (`ProcIndex.DeleteCoherent`, `ProcIndex.NameLeftBehind`). Inserting a record breaks the bijection exactly when another
  PID holds the name (`ProcIndex.UpsertBijective`); that the live names are distinct later does not repair it
  (`ProcIndex.NameLostToAnotherPID`).
- `updateComponentManifest` stores `null` for a fetched manifest that has expired, so the stored version drops to zero
  then, and only then (`ManifestRuns.ComponentGoesBackExactly`). A stored timestamp or index that no longer loads counts
  as absent, so an older one can replace it (`ManifestRuns.TimestampGoesBackExactly`,
  `ManifestRuns.IndexGoesBackExactly`).
- `updateLocalSnapshot` decodes the fetched snapshot into the variable that already holds the old one. Entries that the
  new document no longer has survive, and then the stored snapshot is not the one the timestamp names
  (`ManifestRuns.StoredIsNamed`). If the snapshot also announces a root that the mirror does not serve, the update never
  ends (`ManifestRuns.EndlessExactly`, `ManifestRuns.NeverFinishes`). What is stored then carries the signatures of
  another document and counts as absent when it is loaded; its entries are decoded all the same.
- With a repeated service the sort does not report every cycle, and a repeated service that waits for another makes it
  fail with an empty report (`TopoSort.RepetitionHidesCycle`, `TopoSort.AcyclicListing`). `TopoSort.SortWithCompare`
  states for any list when it succeeds; both callers pass lists without repetition.
- After a root rotation the stored timestamp stays the old one, because the repeated call takes the cached timestamp
  (`ManifestRuns.TimestampIsCurrentUnlessRestarted`).

## Model

| member | source | states |
|---|---|---|
| ServiceGraph.WalkIntoCycle | components/playground-ng/boot.go:715-730 | a set in which everyone waits for someone contains a real cycle, found by extending any walk |
| ServiceGraph.StuckHasCycle | components/playground-ng/boot.go:715-730 | every nonempty set of services that all wait for one another contains a dependency cycle |
| ServiceGraph.CycleIsStuck | components/playground-ng/boot.go:715-730 | the members of a cycle form such a set |
| ServiceGraph.StuckNeverEmitted | components/playground-ng/boot.go:694-713 | no dependency-respecting order can list a service of such a set |
| ServiceGraph.TopologicalOrders | components/playground-ng/boot.go:694-713 | in a sorted list each present dependency has an earlier index than its dependent |
| ServiceGraph.TopologicalAcyclic | components/playground-ng/boot.go:715-732 | if all services can be listed, the induced dependencies have no cycle |
| ServiceGraph.CanonicalOrder | components/playground-ng/boot.go:686-713 | under a total order there is one list in which each entry is the least service whose dependencies are listed |
| TopoSort.AddEdges | components/playground-ng/boot.go:675-683 | one service's indegree counts its present dependencies, and it joins each one's list with the same multiplicity |
| TopoSort.BuildGraph | components/playground-ng/boot.go:661-684 | for any list, indegrees count the present dependencies and `deps` is the reversed relation, each with the multiplicity of services and entries |
| TopoSort.Release | components/playground-ng/boot.go:700-705 | every dependent loses as many as it is listed, and exactly those whose indegree is used up become ready, once each |
| TopoSort.Select | components/playground-ng/boot.go:686-691 | exactly the services with zero (or positive) indegree are picked, each as often as it is listed |
| TopoSort.BalancedStep | components/playground-ng/boot.go:694-706 | for any list, emitting the head keeps: indegrees tell what each service still wants, and a service has become ready as often as that allows |
| Listings.StarvedNeverEmitted | components/playground-ng/boot.go:694-713 | a set of services whose members get too little from outside is never emitted |
| Listings.StarvedIsStuck | components/playground-ng/boot.go:694-713 | the members of such a set wait for one another |
| Listings.StuckIsStarved | components/playground-ng/boot.go:694-713 | without repetition, services that wait for one another are such a set |
| Listings.StepsWithoutRepetition | components/playground-ng/boot.go:694-713 | without repetition, the steps of the loop make a topological order, least first |
| TopoSort.LeftoverIsStarved | components/playground-ng/boot.go:715-721 | when nothing is ready, the services with positive indegree are starved |
| TopoSort.ReportIsStarved | components/playground-ng/boot.go:715-730 | the reported services are the largest starved set, each as often as it is listed |
| TopoSort.FullOutput | components/playground-ng/boot.go:715 | the output is complete exactly when no indegree is positive and no dependent is repeated |
| TopoSort.OutcomeWithoutRepetition | components/playground-ng/boot.go:650-733 | without repetition: success exactly without a cycle, and a report that is the largest mutually waiting set with a real cycle in it |
| TopoSort.EmitHead | components/playground-ng/boot.go:694-713 | one round keeps the loop invariant, with the ready list sorted and the least open service emitted |
| TopoSort.SortWithCompare | components/playground-ng/boot.go:650-733 | for any list: success exactly when no dependent is repeated and no set is starved, with the listed services, each emitted when it has enough and least among those; else the exact sorted report. Without repetition: success exactly when there is no cycle, every service once, dependencies first |
| TopoSort.Sort | components/playground-ng/boot.go:644-646 | the same, with ties broken by name |
| TopoSort.AcyclicListing | components/playground-ng/boot.go:650-733 | without a cycle, any list is sorted exactly when no service that waits for another is repeated; the report is empty otherwise |
| TopoSort.RepetitionHidesCycle | components/playground-ng/boot.go:650-733 | lists with a cycle that are sorted all the same, because a repeated service counts twice |
| TopoSort.SortIsCanonical | components/playground-ng/boot.go:650-733 | under a total order the outcome is the same for every listing of the services and of their dependencies |
| BootPlan.ByPriorityIsTotal | components/playground-ng/boot.go:323-363 | the priority comparison orders all services strictly |
| BootPlan.Gather | components/playground-ng/boot.go:302-344 | the gathered ids, keys and configurations are those of the enabled candidates with instances, and nothing else |
| BootPlan.PlanProcs | components/playground-ng/boot.go:296-368 | the start order is the sort outcome for the starting services under the priority order |
| BootPlan.PlanIsCanonical | components/playground-ng/boot.go:296-368 | the plan does not depend on how the registry lists services or dependencies |
| BootPlan.ChosenByPriority | components/playground-ng/boot.go:340-363 | of the services that could come next, those with a user binary go first, then critical ones, then by name |
| BootPlan.CompactAscending | components/playground-ng/plan.go:506-507 | sorting and compacting yields strictly ascending names |
| BootPlan.FilterStartAfter | components/playground-ng/plan.go:492-507 | the filtered list is strictly ascending and holds exactly the declared, nonempty dependencies with instances |
| BootPlan.ExpandService | components/playground-ng/plan.go:514-570 | a service's plans are appended in index order and nothing else changes |
| BootPlan.BuildServicePlans | components/playground-ng/plan.go:476-571 | exactly one plan per configured instance, with the planned dependencies; a dependency has a plan before its dependents; the error names a planned service that is not registered |
| BootPlan.PlannedServices | components/playground-ng/boot_startup.go:259-285 | each planned service once, with its trimmed dependencies, after every service it starts after |
| BootStart.BootStarter.constructor | components/playground-ng/boot_startup.go:72-83 | the starter begins with nothing started |
| BootStart.BootStarter.WaitAnyReady | components/playground-ng/boot_startup.go:119-164 | for every order of reports: success means some future is ready, failure that every one has failed with one of their errors, and an endless wait that none gets ready and one never reports |
| BootStart.BootStarter.Await | components/playground-ng/boot_startup.go:146-147 | the select returns a case that has reported, whichever that is |
| BootStart.BootStarter.Poll | components/playground-ng/boot_startup.go:129-145 | what is still waited for, and the last failure, account for every future examined |
| BootStart.BootStarter.NothingReady | components/playground-ng/boot_startup.go:119-164 | when nothing started of a service gets ready, the log shows no ready instance of it |
| BootStart.BootStarter.WaitFor | components/playground-ng/boot_startup.go:108-114 | one dependency: up, and ready in the log, on success; on error down or hanging, as the error says, and not ready in the log |
| BootStart.BootStarter.WaitStartAfter | components/playground-ng/boot_startup.go:93-117 | success means every awaited dependency is up and ready in the log; an error that the first one in the list that is not up is down or hangs, as the error says |
| BootStart.BootStarter.StartProc | components/playground-ng/boot_startup.go:166-191 | one start or refusal is logged, the future joins its service's list, its address the list of addresses, and only a required service reports the refusal |
| BootStart.BootStarter.StartInstances | components/playground-ng/boot_startup.go:244-252 | every planned instance is started or refused, once, and the futures are those of the instances not refused; an error exactly when a required service has a refused instance |
| BootStart.BootStarter.StartOrSkip | components/playground-ng/boot_startup.go:232-253 | the error is the one that the fates of the services before foretell, and without one the fate of this service is the foretold one |
| BootStart.BootStarter.StartPlanned | components/playground-ng/boot_startup.go:227-257 | the boot ends in the first trouble of the plan and with its error, and otherwise passes every service with the foretold fates |
| BootStart.BootStarter.LaunchedNext | components/playground-ng/boot_startup.go:244-252 | one more planned service keeps: the futures of each service so far are those of its instances that are not refused, and none if it was skipped |
| BootStart.BootStarter.RequiredList | components/playground-ng/boot_startup.go:198-213 | exactly the required services, in the order of their names |
| BootStart.BootStarter.WaitEach | components/playground-ng/boot_startup.go:215-223 | each listed service is up and ready in the log, or the first that is not decides the error |
| BootStart.BootStarter.WaitRequiredReady | components/playground-ng/boot_startup.go:193-225 | success exactly when every required service is up; otherwise the one of least name that is not decides the error |
| BootStart.BootStarter.WaitReadyAddrs | components/playground-ng/boot_startup.go:287-299 | the wait ends exactly when every instance at a listed address reports some day, and yields the addresses that got ready, in order |
| BootStart.SafeExtends | components/playground-ng/boot_startup.go:227-257 | no event breaks: an instance starts only after each planned dependency reported ready |
| BootStart.AttemptsExtend | components/playground-ng/boot_startup.go:227-257 | no event breaks: a service is reached only after its dependencies were |
| BootFates.FirstMissingAt | components/playground-ng/boot_startup.go:101-115 | the wait ends at the first dependency in the list that is not up |
| BootOutcome.SolutionUnique | components/playground-ng/boot_startup.go:227-257 | without a cycle, dependencies and environment leave one fate to each service |
| BootOutcome.PlanSolves | components/playground-ng/boot_startup.go:227-257 | in the order of the plan each service comes to that fate: what its own instances make of it when its dependencies are up, down otherwise |
| BootOutcome.NoTroubleAt | components/playground-ng/boot_startup.go:232-253 | a service is passed exactly when it does not wait forever and, if required, lacks no dependency and has no refused instance |
| BootOutcome.BootsExactly | components/playground-ng/boot_startup.go:193-257 | the plan passes and the required services come up exactly when no service waits forever and every critical one is started in full and comes up |
| BootOutcome.TriedIsOffered | components/playground-ng/boot_startup.go:227-257 | what the starter tries of a service, and at which address, is what dependencies, configurations and environment offer |
| Boot.AddProcs | components/playground-ng/boot_executor.go:226-270 | the instances kept for each service are exactly its plans, once each |
| Boot.DeclaredIsWaitedFor | components/playground-ng/plan.go:476-507 | every declared dependency between starting services is waited for |
| Boot.WaitedForIsDeclared | components/playground-ng/plan.go:492-507 | and nothing else is |
| Boot.SafeInDeclaredTerms | components/playground-ng/boot_startup.go:227-257 | the log is safe in terms of the declared dependencies alone |
| Boot.SkipsInDeclaredTerms | components/playground-ng/boot_startup.go:235-242 | a service is given up only when a declared starting dependency has no ready instance |
| Boot.SettlesEverything | components/playground-ng/boot_startup.go:227-257 | every configured instance was started or refused, unless its service was given up |
| Boot.StartsArePlanned | components/playground-ng/boot_startup.go:244-252 | only configured instances are started |
| Boot.PlanRenders | components/playground-ng/plan.go:476-571 | services, instances and waits of the plan are exactly the declared ones, dependencies in the order of their names |
| Boot.TroubleHolds | components/playground-ng/boot_startup.go:232-253 | the reason of an error holds of the declared dependencies and the environment |
| Boot.WaitAddresses | components/playground-ng/boot.go:576-577 | the wait for the addresses of a service ends exactly when each started instance with an address reports some day; the addresses are exactly those at which one gets ready |
| Boot.Required | components/playground-ng/plan.go:439-451 | the loop over the configurations finds exactly the registered critical services that have instances |
| Boot.OutcomeDetermined | components/playground-ng/boot.go:482-577 | registry and environment leave one configuration and one fate to each service, so that they alone decide about success |
| Boot.StartAll | components/playground-ng/boot.go:556-577 | all promises about the log and the outcome, from the plans to the addresses that are shown |
| Boot.BootCluster | components/playground-ng/boot.go:482-577 | for every registry, environment and order of reports: success exactly when there is no cycle, all services are registered, none waits forever, the critical ones come up in full, and every started TiDB and TiProxy instance reports; every error has its reason; dependencies ready first, reached first, skips only for cause, each instance settled once, exactly the started futures returned and exactly the ready addresses shown |
| Shutdown.Enter | components/playground-ng/shutdown.go:264-273 | a target joins its service's list, which is opened when it is the first |
| Shutdown.Group | components/playground-ng/shutdown.go:236-278 | targets are filed under their services in order, and the service list holds each service once |
| Shutdown.OrderServices | components/playground-ng/shutdown.go:280-286 | the sort's order when there is no cycle, the order of names otherwise |
| Shutdown.Flatten | components/playground-ng/shutdown.go:289-302 | each service's targets sorted by title, services in the given order |
| Shutdown.StopList | components/playground-ng/shutdown.go:236-304 | exactly the eligible records, grouped by service, dependents before what they start after when there is no cycle |
| Shutdown.StopsEachOnce | components/playground-ng/shutdown.go:236-304 | the stop list is a permutation of the eligible targets |
| Shutdown.StopsTogether | components/playground-ng/shutdown.go:289-302 | targets of one service are adjacent |
| Shutdown.StopsDependentsFirst | components/playground-ng/shutdown.go:280-287 | without a cycle every process of a service is signalled before every process of what it starts after |
| Shutdown.StopOrderCanonical | components/playground-ng/shutdown.go:280-287 | the order of services does not depend on how the records were listed |
| ShutdownRuns.SnapshotDescribes | components/playground-ng/controller_state.go:240-259 | after every run the snapshot holds exactly the live processes, with a named service and a positive PID |
| ShutdownRuns.SignalAll | components/playground-ng/shutdown.go:217-331 | after every run, shutdown signals every live process once and nothing else, grouped, dependents first when there is no cycle |
| Ports.SkipsAtMost | components/playground-ng/plan.go:348-377 | a run of taken ports is no longer than the number of earlier allocations |
| Ports.PortPlanner.constructor | components/playground-ng/plan.go:320-322 | nothing is used at first |
| Ports.PortPlanner.UsedOnAnyHost | components/playground-ng/plan.go:350-359 | on the wildcard host a port is taken exactly when any host uses it |
| Ports.PortPlanner.UsedOnHostExact | components/playground-ng/plan.go:367-375 | on another host a port is taken exactly when that host or the wildcard host uses it |
| Ports.PortPlanner.FindFree | components/playground-ng/plan.go:347-378 | the least port without a conflict, at most as far away as there were allocations |
| Ports.PortPlanner.Alloc | components/playground-ng/plan.go:324-383 | every policy and error case; the deterministic result is the least free port, and allocations stay free of conflicts |
| Ports.AllocAll | components/playground-ng/plan.go:324-383 | over any sequence of requests no two results conflict and each is the least free one at its time |
| ProcIndex.UpsertCoherent | components/playground-ng/controller_state.go:123-177 | inserting or refreshing keeps each name entry the very record that the PID index holds |
| ProcIndex.UpsertBijective | components/playground-ng/controller_state.go:123-177 | it keeps the indexes inverse to each other exactly when no other PID holds the name |
| ProcIndex.UpsertHere | components/playground-ng/controller_state.go:123-177 | afterwards the PID and the name lead to one record with the instance's data, and the removal flag is kept |
| ProcIndex.DeleteCoherent | components/playground-ng/controller_state.go:200-238 | deletion keeps the indexes coherent exactly when the name given is empty, or is that of the record |
| ProcIndex.DeleteBijective | components/playground-ng/controller_state.go:200-238 | a matching deletion removes exactly the PID and its name |
| ProcIndex.MarkBijective | components/playground-ng/controller_state.go:179-198 | flagging a record keeps both indexes |
| ProcIndex.AlwaysCoherent | components/playground-ng/controller_state.go:123-238 | after any sequence of upserts, flags and matching deletions the indexes are coherent |
| ProcIndex.DeleteBijectiveExactly | components/playground-ng/controller_state.go:200-238 | deletion keeps the indexes inverse to each other exactly when it is not under a foreign name |
| ProcIndex.AlwaysBijective | components/playground-ng/controller_state.go:123-238 | over any sequence of changes the indexes stay inverse to each other exactly when none takes a held name or deletes under a foreign one |
| ProcIndex.NameLostToAnotherPID | components/playground-ng/controller_state.go:123-238 | an input whose live names are distinct in the end and whose indexes are not inverse |
| ProcIndex.NameLeftBehind | components/playground-ng/controller_state.go:200-238 | an input where a deletion under a foreign name leaves a dangling entry |
| ProcIndex.NameInjective | components/playground-ng/proc/proc.go:471-482 | two instances never share a name |
| ControllerRuns.StartKeeps | components/playground-ng/controller.go:370-398 | a start keeps lists, counters, index, counts and expected exits consistent |
| ControllerRuns.ForgetKeeps | components/playground-ng/controller.go:411-437 | so does an exit |
| ControllerRuns.RemoveKeeps | components/playground-ng/controller_state.go:41-78 | so does a removal from the lists with its flag |
| ControllerRuns.AsyncStopKeeps | components/playground-ng/service/service.go:574-600 | so does the delayed stop of an asynchronous scale-in |
| ControllerRuns.ScaleInKeeps | components/playground-ng/scale.go:16-146 | so does every scale-in request, whatever its hook does |
| ControllerRuns.HandleKeeps | components/playground-ng/controller.go:188-204 | so does every event |
| ControllerRuns.RunKeeps | components/playground-ng/controller.go:188-480 | in every reachable state the invariant holds, among others: a record is flagged exactly when its instance left its list |
| ControllerRuns.CountIsStartsMinusExits | components/playground-ng/controller.go:370-437 | over every run the running count of a required service is its starts minus its exits |
| ControllerRuns.ExitStopsExactly | components/playground-ng/controller.go:401-480 | an exit begins shutdown exactly when it was not announced and leaves fewer than required |
| ControllerRuns.LookupsAgree | components/playground-ng/scale.go:39-116 | the index and the walk over the lists select the same instance |
| ControllerRuns.PidAndNameAgree | components/playground-ng/scale.go:39-116 | PID and name select the same record of every live instance |
| ControllerRuns.NoSecondScaleIn | components/playground-ng/scale.go:118-140 | an instance that was scaled in, even if its signal failed, is never scaled in again, whatever happens in between |
| ControllerRuns.StopsOnce | components/playground-ng/shutdown.go:31-50 | once shutdown has begun, its record snapshot never changes |
| ControllerRuns.SnapshotIsLive | components/playground-ng/controller_state.go:240-259 | in every reachable state the snapshot that shutdown takes holds exactly the live processes, each under its PID |
| Controller.ControllerState.constructor | components/playground-ng/controller.go:146-157 | a new controller is in the initial state of the model |
| Controller.ControllerState.AllocId | components/playground-ng/controller_state.go:12-22 | numbers are given out in sequence per service |
| Controller.ControllerState.Append | components/playground-ng/controller_state.go:24-39 | the instance joins the end of its service's list |
| Controller.ControllerState.RemoveByPID | components/playground-ng/controller_state.go:41-61 | the first instance with the PID leaves the list and its record is flagged |
| Controller.ControllerState.Remove | components/playground-ng/controller_state.go:63-78 | the same by identity |
| Controller.ControllerState.SortedServices | components/playground-ng/controller_state.go:85-91 | the walk visits exactly the services that have a list, in the order of their names |
| Controller.ControllerState.Walk | components/playground-ng/controller_state.go:80-101 | the walk finds a matching instance exactly when one is listed |
| Controller.ControllerState.EnterRecord | components/playground-ng/controller_state.go:148-157 | a new record enters both indexes and shares nothing with earlier ones |
| Controller.ControllerState.RefreshRecord | components/playground-ng/controller_state.go:158-176 | an existing record is updated in place, and its stale name entry goes |
| Controller.ControllerState.UpsertProcRecord | components/playground-ng/controller_state.go:123-177 | the index afterwards is the model's, whichever case applied |
| Controller.ControllerState.MarkProcRemoved | components/playground-ng/controller_state.go:179-198 | exactly one record is flagged, through the shared object |
| Controller.ControllerState.DeleteProcRecord | components/playground-ng/controller_state.go:200-238 | both indexes afterwards are the model's, by PID or by name |
| Controller.ControllerState.SnapshotProcRecords | components/playground-ng/controller_state.go:240-259 | the snapshot holds the value of every record under its PID |
| Controller.ControllerState.ExpectExitPID | components/playground-ng/playground.go:385-393 | a positive PID joins the expected exits |
| Controller.ControllerState.SetRequiredServices | components/playground-ng/controller.go:196-204 | only positive minimums of named services are kept, and counting starts over |
| Controller.ControllerState.StartShutdown | components/playground-ng/shutdown.go:31-50 | the first call takes the snapshot, later ones change nothing |
| Controller.ControllerState.HandleProcStarted | components/playground-ng/controller.go:370-398 | the state afterwards is the model's start step |
| Controller.ControllerState.ForgetProc | components/playground-ng/controller.go:411-437 | the expected-exit mark is consumed, the record deleted and the count lowered |
| Controller.ControllerState.HandleProcExited | components/playground-ng/controller.go:401-480 | the state afterwards is the model's exit step, shutdown included |
| Controller.ControllerState.LookUp | components/playground-ng/scale.go:39-116 | the index first, then the walk, with the same answer as the model |
| Controller.ControllerState.RunHook | components/playground-ng/scale.go:118-136 | the hook's outcome, then removal and the announced exit |
| Controller.ControllerState.HandleScaleIn | components/playground-ng/scale.go:16-146 | the state and the reply are those of the model in every error case, a failed signal included, and on success |
| Controller.ControllerState.HandleAsyncStop | components/playground-ng/service/service.go:574-600 | removal by identity, and an announced exit only if something was removed |
| ProcessGroups.StepKeeps | components/playground-ng/playground.go:150-217 | every interleaved step keeps the group's invariant |
| ProcessGroups.RunKeeps | components/playground-ng/playground.go:150-217 | so does every interleaving |
| ProcessGroups.ClosedForGood | components/playground-ng/playground.go:184-199 | after closing no task is accepted and no answer of Wait changes |
| ProcessGroups.WaitReturnsLast | components/playground-ng/playground.go:202-217 | when Wait returns, the group is closed, all tasks finished, none is accepted later, and the result is nil exactly when all returned nil |
| ProcessGroups.CounterIsSafe | components/playground-ng/playground.go:150-217 | the wait counter never goes below zero and is not raised once a waiter passed the channel |
| ProcessGroups.ChannelClosedOnce | components/playground-ng/playground.go:184-199 | the channel is never closed twice |
| ProcessGroups.ProcessGroup.constructor | components/playground-ng/playground.go:143-147 | a new group is open and empty |
| ProcessGroups.ProcessGroup.AddSection | components/playground-ng/playground.go:158-164 | the locked section of Add is the model's step |
| ProcessGroups.ProcessGroup.CloseSection | components/playground-ng/playground.go:188-192 | the locked section of Close is the model's step |
| ProcessGroups.ProcessGroup.CloseChannel | components/playground-ng/playground.go:193-198 | closing the channel is the model's step |
| ProcessGroups.ProcessGroup.RecordSection | components/playground-ng/playground.go:168-178 | the locked section after a failure keeps the first failure |
| ProcessGroups.ProcessGroup.DoneSection | components/playground-ng/playground.go:166-167 | a finished task lowers the counter |
| ProcessGroups.ProcessGroup.ReadSection | components/playground-ng/playground.go:213-216 | Wait's answer is the first failure |
| ManifestRuns.WalkIsChain | pkg/repository/v1_repository.go:315-354 | the walk yields a consecutive chain of accepted roots; without an error it ends where the mirror has no next one and every step is on disk |
| ManifestRuns.RootIsLastOfChain | pkg/repository/v1_repository.go:315-376 | on success the trusted root is the last of that chain and has not expired; on any error it is the old one; nothing but root files changes |
| ManifestRuns.DecodeExact | pkg/repository/v1_repository.go:249-268 | decoding into the old snapshot gives the served one exactly when it drops no entry |
| ManifestRuns.LeftOverEntry | pkg/repository/v1_repository.go:249-268 | an input where a dropped entry survives |
| ManifestRuns.RefreshIsExact | pkg/repository/v1_repository.go:249-277 | one refresh leaves the named snapshot stored exactly when the stored one had no entry that the named one lacks |
| ManifestRuns.UpdateKeeps | pkg/repository/v1_repository.go:229-304 | however often the update restarts, index and components are untouched and a cached timestamp stays |
| ManifestRuns.StoredIsNamed | pkg/repository/v1_repository.go:229-304 | from any local state and over any number of restarts, success leaves the named snapshot stored exactly when the snapshot stored before has no entry that the named one lacks |
| ManifestRuns.NestsOnce | pkg/repository/v1_repository.go:287-293 | the recursion nests at most once when nothing was dropped and the saved snapshot loads back |
| ManifestRuns.CirclesExactly | pkg/repository/v1_repository.go:229-304 | after a restart against a mirror that stands still, the update does not end exactly when the announced root is missing and each round fetches the snapshot again |
| ManifestRuns.InsistsForever | pkg/repository/v1_repository.go:287-293 | with a dropped entry and an announced root beyond the last one, every round restarts, whether the stored snapshot still verifies or not |
| ManifestRuns.EndlessExactly | pkg/repository/v1_repository.go:229-304 | against a mirror that stands still, for all verdicts of the loads: the update restarts in every round exactly when the announced root is beyond the last one, the first round finds no snapshot at hand, and in each later one an entry was dropped or the load ignores what was saved. After a drop: exactly when that root is missing |
| ManifestRuns.NeverFinishes | pkg/repository/v1_repository.go:229-304 | an input that restarts forever: the snapshot loads at first, and the merged one no longer verifies |
| ManifestRuns.TimestampIsCurrentUnlessRestarted | pkg/repository/v1_repository.go:296-301 | without a restart the stored timestamp has the accepted hash; with one it stays as it was |
| ManifestRuns.TimestampGoesBackExactly | pkg/repository/v1_repository.go:229-304 | the stored timestamp goes back exactly when the load ignored it, the mirror serves an older one, at once or after a root update, the snapshot it names is at hand or is fetched, written and announces no newer root, and the timestamp is written |
| ManifestRuns.IgnoredTimestampGoesBack | pkg/repository/v1_repository.go:540-575 | an input with such a rollback |
| ManifestRuns.IndexGoesBackExactly | pkg/repository/v1_repository.go:379-418 | the stored index goes back exactly when the load ignored it and an older one was served; no other file changes |
| ManifestRuns.IndexIsNamedOrServed | pkg/repository/v1_repository.go:379-418 | success leaves an index that has the version the snapshot names, or is the one served |
| ManifestRuns.ComponentGoesBackExactly | pkg/repository/v1_repository.go:421-487 | a stored component goes back exactly when an expired manifest is stored over it, and then to zero; other components keep their versions |
| ManifestRuns.NeverGoesBack | pkg/repository/v1_repository.go:214-487 | over any run against any mirror, no version goes back while the earlier record loads whenever it is read and no expired component manifest comes |
| Manifests.Repository.constructor | pkg/repository/v1_repository.go:540-544 | a new repository has no cached timestamp |
| Manifests.Repository.UpdateLocalRoot | pkg/repository/v1_repository.go:315-376 | the loop does what the model says, and terminates on every mirror with finitely many roots |
| Manifests.Repository.FetchTimestamp | pkg/repository/v1_repository.go:540-575 | cache, rollback test and hash test as in the model |
| Manifests.Repository.TrustedTimestamp | pkg/repository/v1_repository.go:234-247 | the root update and the second request as in the model |
| Manifests.Repository.RefreshSnapshot | pkg/repository/v1_repository.go:249-277 | load, hash test, fetch into the loaded value and save as in the model |
| Manifests.Repository.UpdateLocalSnapshot | pkg/repository/v1_repository.go:229-304 | the whole update with its recursion as in the model |
| Manifests.Repository.UpdateLocalIndex | pkg/repository/v1_repository.go:379-418 | every branch and error as in the model |
| Manifests.Repository.UpdateComponentManifest | pkg/repository/v1_repository.go:421-487 | every branch and error as in the model |
| Manifests.Repository.EnsureManifests | pkg/repository/v1_repository.go:214-226 | the index follows a successful snapshot update |
| Manifests.Repository.Session | pkg/repository/v1_repository.go:214-535 | any sequence of operations is a run of the model |
| Resolve.Keys | pkg/repository/v1_repository.go:823-827 | the list holds exactly the versions |
| Resolve.SortDescending | pkg/repository/v1_repository.go:828-830 | the same versions, newest first |
| Resolve.FindVersion | pkg/repository/v1_repository.go:818-837 | the newest version that satisfies the constraint, or an error exactly when none does |
| Semver.AlphaNumAntisymmetric | pkg/utils/semver.go:253-276 | the comparison of identifiers is antisymmetric exactly when they are not two spellings of one number |
| Semver.CompareAntisymmetric | pkg/utils/semver.go:92-104 | Compare ties only equal versions, and is antisymmetric exactly on pairs that do not first differ in two spellings of one number |
| Semver.CompareTransitive | pkg/utils/semver.go:92-104 | Compare is transitive from `u` through `v`, whatever follows, exactly when `u` does not go on after an identifier that `v` spells differently |
| Semver.CanonicalOrder | pkg/utils/semver.go:92-104 | without respellings Compare is antisymmetric and transitive |
| Semver.AlphaNumPreorder | pkg/utils/semver.go:253-276 | as a relation, "not above" is transitive on identifiers |
| Semver.EachBelowTheOther | pkg/utils/semver.go:253-276 | `1.0.0--5` and `1.0.0--05` are each below the other |
| Semver.NotTransitive | pkg/utils/semver.go:226-251 | `1.0.0--5.b`, `1.0.0--05`, `1.0.0--5.a`: each not above the next, the first above the last |
| Semver.PlainIdentifiersAgree | pkg/utils/semver.go:253-276 | on in-range numerals and text the comparison is that of section 11.4 of Semantic Versioning 2.0.0 |
| Semver.AgreementIsExact | pkg/utils/semver.go:253-276 | an identifier agrees with all of those exactly when it is one of them |
| Semver.CompareIsPrecedence | pkg/utils/semver.go:226-251 | Compare is the precedence of section 11 of Semantic Versioning 2.0.0 |
| Semver.NewConstraint | pkg/utils/semver.go:125-191 | the successive assignments and the deferred fix-up compute the bounds |
| Semver.CheckExact | pkg/utils/semver.go:194-213 | exactly the promised set, plus negative identifiers at the upper bound, and nothing on overflow |
| Semver.CheckIsPromised | pkg/utils/semver.go:194-213 | for plain identifiers exactly the promised set of each operator and wildcard |
| Semver.NegativeIdentifierSlipsIn | pkg/utils/semver.go:194-213 | a concrete version that is accepted and should not be |
| Semver.CheckPrerelease | pkg/utils/semver.go:184-185 | a plain constraint whose pre-release ends in text accepts that version and its dotted extensions, nothing else |
| Semver.CheckConvex | pkg/utils/semver.go:194-213 | the accepted versions form an interval |
| ParseUint.CutoffExact | pkg/checkpoint/gotrack.go:165-171 | the cutoff is the first number whose product with the base no longer fits 64 bits |
| ParseUint.RangeTestsExact | pkg/checkpoint/gotrack.go:141-156 | the two tests together fail exactly when the true value exceeds the limit; the product never wraps |
| ParseUint.AppendDigit | pkg/checkpoint/gotrack.go:141-156 | one digit in wrapping arithmetic: the exact value, or the range error exactly when it exceeds the limit |
| ParseUint.Scan | pkg/checkpoint/gotrack.go:120-157 | the value of the numeral, or the error of the first byte that is no digit or overflows |
| ParseUint.ParseUintBytes | pkg/checkpoint/gotrack.go:79-163 | the specified outcome for every byte string, base and bit size |
| ParseUint.WellFormedNumeral | pkg/checkpoint/gotrack.go:79-163 | a numeral yields its exact value up to the maximum of the bit size, and the range error above |
| ParseUint.OutcomeUnique | pkg/checkpoint/gotrack.go:79-163 | the specification leaves one outcome |
| ParseUint.ParseFormat | pkg/checkpoint/gotrack.go:79-163 | parsing what formatting wrote gives the number back, in every base and bit size |
| Base51.SpaceIsAlphabet | pkg/base52/base52.go:21-24 | the alphabet has 51 distinct single-byte characters and starts with zero |
| Base51.Encode | pkg/base52/base52.go:27-38 | the digits of the number, most significant first; nothing for zero and below |
| Base51.ReverseInPlace | pkg/base52/base52.go:34-36 | the buffer is reversed |
| Base51.Decode | pkg/base52/base52.go:42-55 | the value in 64-bit arithmetic, or the error for valid multi-byte sequences and then for foreign bytes |
| Base51.StrayByte | pkg/base52/base52.go:43-51 | a byte that begins no valid sequence counts as one rune and gets the other error |
| Base51.NoIntermediateOverflow | pkg/base52/base52.go:46-53 | no prefix of a numeral that fits overflows on the way |
| Base51.DecodeEncode | pkg/base52/base52.go:27-55 | decoding an encoded number gives it back |
| Base51.EncodeDecode | pkg/base52/base52.go:27-55 | encoding a decoded text gives it back exactly when it has no leading zero and fits 63 bits |
| TailLog.SplitUnique | components/playground-ng/daemon_mode.go:248-261 | bytes split into terminated lines and a rest in one way |
| TailLog.Drain | components/playground-ng/daemon_mode.go:248-261 | the inner loop delivers the trimmed, nonblank lines and keeps the unterminated rest |
| TailLog.RestEmpty | components/playground-ng/daemon_mode.go:267-270 | no partial line is pending exactly when the bytes consumed end in a newline |
| TailLog.TakeRound | components/playground-ng/daemon_mode.go:234-275 | one round keeps the lines, rest and position those of all bytes consumed, and how it goes on is told from bytes and marks alone |
| TailLog.TailEventLog | components/playground-ng/daemon_mode.go:221-276 | what is delivered is that of all bytes consumed; the loop ends in the first round that is cancelled, fails, or meets the end of file past the mark without a partial line, and in no other |
| TailLog.ChunkingIrrelevant | components/playground-ng/daemon_mode.go:221-276 | the same bytes in other chunks give the same lines, rest and position |

## Left out

- BootPlan.BuildServicePlans: version resolution, ports, downloads and the errors of those steps; an unregistered service is the only error.
- Boot.BootCluster: identifiers of the registry are unchanged by trimming; option checks, downloads, preflight, cancellation, the progress display and what follows the waits for addresses are not modelled.
- Boot.AddProcs: binary lookup, name checks and their errors; each plan becomes one instance.
- BootStart.BootStarter.WaitAnyReady: a wait that never ends is the outcome Blocked instead of divergence.
- BootStart.BootStarter.StartPlanned: the marking of starting tasks.
- BootStart.BootStarter.WaitReadyAddrs: a wait that never ends is the outcome None instead of divergence.
- Ports.PortPlanner.Alloc: the operating system's free-port probe is a parameter.
- ProcIndex.NameInjective: instances have a service name; the fallback prefixes for an unnamed service are not modelled.
- Controller.ControllerState.HandleScaleIn: hooks are reduced to their outcomes, and a signal to whether it failed.
- ControllerRuns.RunKeeps: legal runs start each listed instance once, do not reuse PIDs, and install the required set before the first start.
- Controller.ControllerState.HandleProcStarted: log files and start times of records.
- ShutdownRuns.SignalAll: every recorded process has a started command, and titles are any function of the instance.
- ProcessGroups.WaitReturnsLast: nil receivers and nil functions, which Add rejects before its locked section.
- Manifests.Repository.UpdateLocalSnapshot: the outside answers a given number of rounds, and a further restart is the outcome Unfinished instead of divergence.
- Manifests.Repository.UpdateLocalRoot: signatures are an arbitrary relation between roots, and a failed write leaves a file as it was.
- Manifests.Repository.UpdateLocalIndex: the served index is arbitrary; its version is not tied to the one the snapshot names, as in the code.
- Semver.CheckExact: tilde and caret constraints that carry a pre-release, and plain ones whose last identifier is a number, have no clean set.
- Semver.NewConstraint: the regular expressions; the model starts at their groups.
- Resolve.FindVersion: the library's version comparison is any total preorder, and the constraint any predicate.
- TailLog.TailEventLog: trimming is any function on lines, and reads are a given sequence of chunks.
- Deadlock freedom of shutdown, and queued starts that are handled while the controller drains.
- Asynchronous scale-in probes, scale-out, and the display commands.
- Process spawning, signals, HTTP, file locks, PID files, downloads, archives, SSH and key handling.
- The older playground component, the cluster commands and pkg/insight.
