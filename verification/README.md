# MachineDeck control plane: a verified model

MachineDeck keeps persisted state, files and running workloads in step while any external command may
fail. These Dafny modules model the parts of it where that is hard, and prove what the code promises
there for every input, every run or every interleaving.

| file | models |
|---|---|
| `Lifecycle.dfy`, `LifecycleProofs.dfy`, `LifecycleTheorems.dfy`, `LifecycleOutcomes.dfy` | actions, status requests and registry changes as asyncio tasks that switch only at awaits; the invariant of every run; the theorems over runs; how each request ends |
| `LifecycleService.dfy` | the same service as a class whose fields are updated in place, proved step by step equal to the protocol |
| `Runtime.dfy` | the status table and the status mappings of the two adapters |
| `Ports.dfy` | port reconciliation and the port conflict gate |
| `Deploy.dfy` | the install and upgrade transaction with its exception handler |
| `UserUnits.dfy`, `UnitValidation.dfy` | the systemd unit printer, its inverse, and the validator of printed units |
| `UnitInstall.dfy` | installing a unit, rolling it back, and the action around it |
| `AuditPages.dfy`, `CursorCodec.dfy` | keyset pagination of the audit log and its cursor text |
| `BoundedLines.dfy`, `LogRelay.dfy` | the chunked line splitter, and the log WebSocket with its drop-oldest queue |
| `Dashboard.dfy` | the one-slot dashboard broadcast |
| `LoginWindow.dfy` | the sliding-window login limiter |
| `Forwarding.dfy`, `ForwardedPrinter.dfy` | client resolution behind trusted proxies, and a printer for the Forwarded header |
| `IpLiterals.dfy`, `ForwardedExamples.dfy` | an address library that obeys the laws asked of it, and concrete headers |
| `Common.dfy`, `Text.dfy` | shared vocabulary |

`dafny verify dfyconfig.toml` checks everything.

## How the outside is modelled

What the code cannot decide is an argument: the answer to a port scan, the result of an adapter
action, a runtime reading, which step of a deployment raises, the outcome of every systemd command,
the tables at each request of a client, the order in which tasks run, the clock. Settings are arguments too: the
hop limit, the login policy, the page size, the queue size of the log WebSocket (1000 in the code, any positive size here). One process and one
event loop are assumed. A task of the lifecycle runs without interruption from one await to the next,
and each such stretch is one step. Any task waiting for a free lock may take it, which is more than the
first-come order of `asyncio.Lock` allows. A database commit is one assignment. An ORM row is the copy loaded
into the session: an assignment is written to the row with that id only when it differs from the loaded value
(`expire_on_commit=False`, `backend/app/database/session.py`), which is why a status request works on
the row it loaded before it waited for the lock.

## What the proofs turned up

* `DISABLED` can outlive an update that enables the application
  (`LifecycleTheorems.EnabledApplicationStaysDisabled`). With free ports it is exactly the status from which
  every action is refused (`LifecycleTheorems.OnlyDisabledRefusesEveryAction`).
* Of two overlapping status requests the later may lose its observation
  (`LifecycleTheorems.StatusPersistsObservationIff` says exactly when it is kept).
* A failed upgrade restores all files, but a step that fails before this run has stopped the old
  service leaves that service stopped (`Deploy.Host.Deploy` says from the inputs alone exactly when it runs).
* A unit whose values hold a line boundary other than the newline is printed faithfully, but may be refused
  by the validator (`UnitValidation.ValidatesExactly`).
* When the directory sync after the rename fails, an install raises with the new unit in place and nothing
  is rolled back (`UnitInstall.FailedSyncLeavesTheNewUnit`); it is the only failure that changes the directory
  (`UnitInstall.Manager.InstallAndAct`).
* An absent pair, and a quoted pair in `for` or in the first element's proto or host, all admitted by section 4 of
  RFC 7239, are refused (`ForwardedExamples.AbsentPairIsRefused`, `ForwardedExamples.QuotedPairInForIsRefused`,
  `ForwardedExamples.QuotedPairInProtoIsRefused`). `ForwardedPrinter.HeaderRoundTrip` says exactly which headers
  without a comma or semicolon inside a quoted string are read.
* Prepended Forwarded elements cannot change the client, but may change the reported scheme and host
  (`ForwardedExamples.PrefixMayChangeTheScheme`); `Forwarding.SpoofedContextIff` says exactly when they do not.
  With X-Forwarded-For the whole context is unaffected exactly when the prefix can be read and fits in the hop
  limit (`Forwarding.SpoofedHopsIff`). Either header is refused with a prefix that does not.

## Model

| member | source | states |
|---|---|---|
| `LifecycleTheorems.FlightSeesStoredState` | backend/app/orchestration/lifecycle_service.py:234-359 | In every reachable state, from the creation of its execution until it ends, an action's captured manifest is the stored one, the record exists and is enabled, its loaded row is the persisted row, and it holds the application's lock |
| `LifecycleTheorems.FlightIsUndisturbed` | backend/app/orchestration/lifecycle_service.py:210-219 | No step of any other action, status, update, delete or create task writes the record, the instance row, the execution or the locals of an action in flight |
| `LifecycleTheorems.FlightIsUndisturbedOverRuns` | backend/app/api/applications.py:128-171 | The same over any stretch of a run in which the action itself does not step, so no update or delete slips between its awaits |
| `LifecycleTheorems.EveryExecutionIsAccounted` | backend/app/orchestration/lifecycle_service.py:156-208 | Every execution either runs under a live action holding its application's lock and has no audit event, or has ended SUCCEEDED or FAILED with exactly one audit event, which repeats its application, action and result |
| `LifecycleTheorems.FreeLockNoRunningExecution` | backend/app/orchestration/lifecycle_service.py:48-56 | Whenever an application's lock is free it has no RUNNING execution |
| `LifecycleTheorems.FlightEnds` | backend/app/orchestration/lifecycle_service.py:255-359 | In any run an action takes at most three steps after it got the lock, and stops being in flight only by returning or raising |
| `LifecycleTheorems.CapturedLocalsStay` | backend/app/orchestration/lifecycle_service.py:238-256 | Application, action, manifest, status on entry and execution of an action never change while it is in flight |
| `LifecycleTheorems.RefusedActionHasNoEffect` | backend/app/orchestration/lifecycle_service.py:235-312 | An action that raises LifecycleError leaves registry and persisted status unchanged and never called start, stop or restart on the adapter |
| `LifecycleTheorems.RefusedActionLeavesNoTrace` | backend/app/orchestration/lifecycle_service.py:234-312 | Over whole runs: an action that is refused after its port scan leaves the record and the row exactly as they were before it got the lock, whatever other tasks did meanwhile, and never reached the adapter |
| `LifecycleTheorems.UnenforcedFailureIsLegal` | backend/app/orchestration/lifecycle_service.py:314-321 | The FAILED write that skips the transition check is always a legal edge of the table, and it takes effect on the persisted row |
| `LifecycleTheorems.NeverCheckingOrQueued` | backend/app/orchestration/lifecycle_service.py:298-306 | CHECKING and QUEUED are never the persisted status at an await point of any run from an empty database |
| `LifecycleTheorems.StateRecordNeverInserts` | backend/app/orchestration/lifecycle_service.py:88-105 | Every application has exactly one instance row, so the insert of _state_record is never reached |
| `LifecycleTheorems.GateGuardsTheAdapter` | backend/app/orchestration/lifecycle_service.py:257-290 | start and restart are issued only in the step that answers the action's own port scan, and only when no attributed listener blocks any port of the stored manifest; any other adapter action is a stop |
| `LifecycleTheorems.ScanIssuesThroughGate` | backend/app/orchestration/lifecycle_service.py:257-290 | The step that answers a port scan issues the call of its own action, for the stored manifest, only through an open gate |
| `LifecycleTheorems.ActionReachesAdapterIff` | backend/app/orchestration/lifecycle_service.py:234-314 | An action that gets the lock and whose port scan, if it makes one, is answered reaches its adapter if and only if the record exists with valid paths and is enabled, the persisted status is one that admits the action (start: STOPPED, FAILED, UNKNOWN; stop: RUNNING, UNHEALTHY, STOPPING, FAILED, UNKNOWN; restart: STARTING, RUNNING, UNHEALTHY), and a start or restart finds its ports free; otherwise it is refused and no adapter is called |
| `LifecycleTheorems.OnlyDisabledRefusesEveryAction` | backend/app/orchestration/lifecycle_service.py:241-305 | For an enabled application with valid paths and free ports, start, stop and restart are all refused if and only if the persisted status is DISABLED |
| `LifecycleOutcomes.RefusalNamesItsCause` | backend/app/orchestration/lifecycle_service.py:234-305 | A refused action reports the first of its causes: no record, invalid paths, disabled, already running, not running, scan failed, port conflict, transition not allowed |
| `LifecycleOutcomes.ReadingDecidesAction` | backend/app/orchestration/lifecycle_service.py:325-359 | After a successful adapter call the status read is persisted and decides: a stop succeeded if and only if it is STOPPED, a start or restart if and only if it is STARTING, RUNNING or UNHEALTHY; execution, audit event, task and lock end together |
| `LifecycleOutcomes.FailedCallFailsAction` | backend/app/orchestration/lifecycle_service.py:314-323 | A failed adapter call persists FAILED and ends execution and audit event as failed |
| `LifecycleOutcomes.StatusWhileCalling` | backend/app/orchestration/lifecycle_service.py:292-325 | From the adapter call to the reading of the status, STOPPING is persisted for a stop and STARTING for a start or restart; a successful call changes no table |
| `LifecycleOutcomes.ActionNames` | backend/app/orchestration/lifecycle_service.py:156-208 | The path name of an action is the end of its audit name |
| `LifecycleOutcomes.UpdateAccepted` | backend/app/services/applications.py:161-192 | In a reachable state an update is accepted exactly for a known application of the same id that is STOPPED, FAILED, UNKNOWN or DISABLED, and replaces record and enabled flag and nothing else |
| `LifecycleOutcomes.DeleteAccepted` | backend/app/services/applications.py:195-217 | So is a delete, which removes record and row together |
| `LifecycleOutcomes.CreateAccepted` | backend/app/services/applications.py:112-158 | A new application starts STOPPED or DISABLED under a row id never used |
| `LifecycleOutcomes.ConsistencyRunsAlone` | backend/app/api/applications.py:237-246 | A unit-consistency request runs only while no action on its application is in flight, fails exactly for an unknown application and changes no table |
| `LifecycleOutcomes.StatusRequestArrives` | backend/app/orchestration/lifecycle_service.py:210-216 | A status request marks a disabled application at once, and of an enabled one loads the persisted row and writes nothing |
| `LifecycleOutcomes.StatusFailsIffRowGone` | backend/app/orchestration/lifecycle_service.py:217-219 | A status request fails if and only if the row it had loaded is gone, and frees its lock in any case |
| `LifecycleTheorems.EnabledApplicationStaysDisabled` | backend/app/services/applications.py:161-192 | A finding: such a state is reachable. Create a disabled application, update it to enabled, and its row still says DISABLED |
| `LifecycleTheorems.StatusPersistsObservationIff` | backend/app/orchestration/lifecycle_service.py:210-219 | A status request leaves the observed status persisted if and only if the row it had loaded is still there and differed from the observation or the table already agrees |
| `LifecycleTheorems.StatusMayLoseItsObservation` | backend/app/orchestration/lifecycle_service.py:210-219 | The condition fails in a reachable state, in an order the lock allows: a second status request loads its row while the first holds the lock, the first persists RUNNING, and the second's later reading of STOPPED is not written |
| `LifecycleTheorems.EndedTakesNoStep` | backend/app/orchestration/lifecycle_service.py:234-359 | A finished task never steps again and its outcome never changes |
| `LifecycleProofs.StepKeeps` | backend/app/orchestration/lifecycle_service.py:210-359 | Every step of every task keeps the invariant: locks agree with tasks, one row per application, flights see stored state, no CHECKING or QUEUED, executions match audit events, adapter calls match task states |
| `LifecycleProofs.RunKeeps` | backend/app/orchestration/lifecycle_service.py:210-359 | The invariant holds after every run from an empty database |
| `LifecycleProofs.IssueCallKeeps` | backend/app/orchestration/lifecycle_service.py:292-314 | The transitions before the adapter call keep the invariant, or end the action as refused |
| `LifecycleProofs.LandKeeps` | backend/app/orchestration/lifecycle_service.py:169-208 | Finishing the execution, writing its audit event and releasing the lock together keep the invariant, whatever status was written |
| `LifecycleService.ControlPlane.Transition` | backend/app/orchestration/lifecycle_service.py:120-138 | A transition is made exactly when the table allows it, and then the row is assigned and committed |
| `LifecycleService.ControlPlane.CommitStatus` | backend/app/orchestration/lifecycle_service.py:140-154 | Assigning to a loaded row and committing updates the row with that id only if it exists and the value differs from the loaded one |
| `LifecycleService.ControlPlane.LoadRow` | backend/app/orchestration/lifecycle_service.py:88-105 | The row of the application, inserted as STOPPED when it is missing |
| `LifecycleService.ControlPlane.NewExecution` | backend/app/orchestration/lifecycle_service.py:156-167 | The execution starts RUNNING under the lock, with the action's locals captured |
| `LifecycleService.ControlPlane.TransitionsBeforeCall` | backend/app/orchestration/lifecycle_service.py:292-305 | CHECKING and STARTING, STOPPING, or STARTING are committed exactly when each step is legal; otherwise nothing is written |
| `LifecycleService.ControlPlane.CallAdapter` | backend/app/orchestration/lifecycle_service.py:292-314 | The step from the open gate to the adapter call equals the protocol step |
| `LifecycleService.ControlPlane.Action` | backend/app/orchestration/lifecycle_service.py:234-256 | An action from the lock to its first await equals the protocol step |
| `LifecycleService.ControlPlane.PortsScanned` | backend/app/orchestration/lifecycle_service.py:257-290 | The handling of the port scan equals the protocol step: discovery failure and conflicts end the action |
| `LifecycleService.ControlPlane.AdapterReturned` | backend/app/orchestration/lifecycle_service.py:314-337 | A failed adapter action persists FAILED, finishes the execution as failed and returns |
| `LifecycleService.ControlPlane.Confirm` | backend/app/orchestration/lifecycle_service.py:339-359 | After a successful action the runtime status is applied and decides whether the execution succeeded |
| `LifecycleService.ControlPlane.Status` | backend/app/orchestration/lifecycle_service.py:210-216 | The part of a status request before its lock: a disabled application is marked without taking it |
| `LifecycleService.ControlPlane.StatusAnswered` | backend/app/orchestration/lifecycle_service.py:217-219 | The part after the adapter answered: the observation is applied to the row loaded before the lock |
| `LifecycleService.ControlPlane.CreateApplication` | backend/app/services/applications.py:112-158 | Create refuses an existing id, and otherwise inserts record, row and audit event together |
| `LifecycleService.ControlPlane.UpdateApplication` | backend/app/services/applications.py:161-192 | Update refuses a foreign id, a missing record and an active status, and otherwise replaces manifest and enabled flag and nothing else |
| `LifecycleService.ControlPlane.DeleteApplication` | backend/app/services/applications.py:195-217 | Delete refuses a missing record and an active status, and otherwise removes record and row |
| `LifecycleService.ControlPlane.Turn` | backend/app/orchestration/lifecycle_service.py:210-359 | One scheduler turn of the imperative service is exactly one step of the protocol, so every theorem about runs holds of any schedule of these methods |
| `Runtime.Classify` | backend/app/adapters/runtime.py:111-217 | Neither adapter ever reports CHECKING, QUEUED or DISABLED |
| `Runtime.ReportedStatuses` | backend/app/adapters/runtime.py:111-217 | For each status exactly the systemd states and container lists that are reported as it |
| `Ports.ConflictIffOverlap` | backend/app/orchestration/ports.py:43-57 | On canonical addresses the test holds exactly when the covered address sets intersect: 0.0.0.0 covers all IPv4, :: covers everything |
| `Ports.ConflictExactness` | backend/app/orchestration/ports.py:43-57 | For any two IP literals, canonical or not, the test is right if and only if a wildcard that covers the other address is spelled canonically |
| `Ports.BlocksIffMeets` | backend/app/orchestration/ports.py:245-270 | The schema validator (`backend/app/schemas/applications.py:90-96`) and the normaliser of observations (`backend/app/orchestration/port_discovery.py:22-28`) admit only canonical literals and text that is none, so a listener, as attribution returns it, blocks a declaration if and only if transport and port are equal, the covered address sets intersect, and its owner is another application or nobody |
| `Ports.ClaimsIffOverlap` | backend/app/orchestration/ports.py:220-243 | A managed observation claims a listener by process, or by transport, port and intersecting addresses |
| `Ports.RemovalHitsTheMatch` | backend/app/orchestration/ports.py:140-155 | Removing the matched observation by equality deletes the matched position, even when equal observations repeat |
| `Ports.RemovalKeepsOtherMatches` | backend/app/orchestration/ports.py:140-155 | Removing it leaves the search for every other declaration as it was |
| `Ports.ReconcileOne` | backend/app/orchestration/ports.py:146-171 | One turn of the loop: the view of the declaration, and every observation either shown or left for the rest |
| `Ports.ReconcileDeclared` | backend/app/orchestration/ports.py:140-171 | Because host ports are unique, the greedy loop shows each declaration as LISTENING exactly when the original observations hold an equal transport, port and address, and otherwise as CONFLICTED, UNKNOWN, NOT_LISTENING or DECLARED from the scans and the stored status |
| `Ports.ReconcilePorts` | backend/app/orchestration/ports.py:130-190 | One view per declaration in manifest order, then UNDECLARED views; every observation is shown exactly once |
| `Ports.AppendUndeclared` | backend/app/orchestration/ports.py:172-190 | The loop over the rest appends one UNDECLARED view per observation that no declaration took |
| `Ports.SystemPorts` | backend/app/orchestration/ports.py:220-243 | Every listener gets the owner recorded on the first managed observation that claims it, by process or by endpoint; nothing else of it changes, and an unclaimed one stays as it is |
| `Ports.OwnerIsFirstClaimer` | backend/app/orchestration/ports.py:222-242 | The owner of an attributed listener is that of the first observation that claims it |
| `Ports.OwnListenerNeverBlocks` | backend/app/orchestration/ports.py:220-270 | A scanned listener whose first claimer belongs to the application itself never blocks it; one claimed first by another blocks exactly when transport, port and addresses meet |
| `Ports.UnclaimedListenerBlocks` | backend/app/orchestration/ports.py:220-270 | A scanned listener no one claims blocks exactly when transport, port and addresses meet |
| `Ports.ConflictsAreExact` | backend/app/orchestration/ports.py:245-270 | The conflict list holds exactly the pairs of a declaration and an attributed listener with equal transport and port, overlapping addresses, and another or no owner |
| `Ports.PairsAreCounted` | backend/app/orchestration/ports.py:251-269 | The list has one entry for each pair of a declaration and a listener that blocks it |
| `Ports.GateOpensIffNothingBlocks` | backend/app/orchestration/ports.py:245-270 | The list is empty if and only if no attributed listener blocks any declaration |
| `Ports.GateOpensIffNoOverlap` | backend/app/orchestration/ports.py:245-270 | On everything the code can be given, the gate opens if and only if no unowned or foreign listener of a declared transport and port covers an address in common with the declaration, with no condition on spelling |
| `Ports.FindConflictsOfPort` | backend/app/orchestration/ports.py:251-269 | The inner loop with its early exits collects exactly the blocking listeners of one declaration, in order |
| `Ports.FindConflicts` | backend/app/orchestration/ports.py:245-270 | The two loops compute that list, empty without a scan when nothing is declared |
| `Deploy.Host.Deploy` | scripts/machinedeck_deploy.py:769-916 | For every choice of failing steps: a run that is neither refused nor already installed (both exactly stated) is rolled back from its first failing step, or installs if no step fails. A running old service is stopped exactly when its stop is reached, by the first command, over the database and the backups as they were on entry; systemd then reloads and starts over the new files; after a failure the service goes down, and over the restored files comes a reload and, exactly if this run had stopped it, the start of the old service. A rolled-back run leaves pointer, unit bytes, configuration, database contents and the set of releases as on entry; the pointer is absent or names a finished release in every intermediate state; an installed run is the new version throughout, with the old database backed up |
| `Deploy.Host.Replace` | scripts/machinedeck_deploy.py:846-884 | The try block once the release is built: stop, backup and migration, then pointer, unit and launch, with the first failing step, the commands in order and what the handler needs |
| `Deploy.Host.Transact` | scripts/machinedeck_deploy.py:813-916 | The try block with its handler: rolled back from the first failing step with everything restored, or installed, with the service commands in order and each over the right files |
| `Deploy.FirstFailingIsFirst` | scripts/machinedeck_deploy.py:826-884 | The step at which a run raises is the first, in the order of the 23 steps, of those that are taken and fail |
| `Deploy.StopIsReachedIff` | scripts/machinedeck_deploy.py:826-848 | The stop is reached if and only if there is a running old service and no taken step up to its stop fails |
| `Deploy.Host.Forward` | scripts/machinedeck_deploy.py:826-884 | The try block raises at its first failing step and leaves a state the handler can undo; the old service is stopped exactly when the stop is reached, before database and backups are touched; no failure issues anything but a reload and the new service's start after that |
| `Deploy.Host.RollBack` | scripts/machinedeck_deploy.py:885-916 | From every such state the handler takes the service down first, restores all five parts, keeps the pointer sound, then reloads and, exactly when this run had stopped it, starts the service, both over the restored files |
| `Deploy.Host.BuildRelease` | scripts/machinedeck_deploy.py:827-845 | Building keeps the other releases, an existing configuration and the pointer, raises at its first failing step, and otherwise leaves the copied files, the marker and VERSION without the verification unit |
| `Deploy.Host.Migrate` | scripts/machinedeck_deploy.py:846-864 | The old service is stopped if and only if there is an old release, its probe passes and finds it active, and the stop passes; the stop is the first command, over the files as on entry, and nothing runs after it; the backup holds what a reader of the database saw, write-ahead log included; without one the database is untouched |
| `Deploy.Host.Publish` | scripts/machinedeck_deploy.py:865-867 | The marker goes before the pointer moves, so the pointer never names an unfinished release |
| `Deploy.Host.Activate` | scripts/machinedeck_deploy.py:865-884 | From the marker to the health check: the first failing step, and whether the pointer had moved by then; the other releases are left alone and the pointer stays sound |
| `Deploy.Host.StartService` | scripts/machinedeck_deploy.py:868-883 | The new unit is written before systemd reloads and the service is enabled over it; the first failing step; the database is the served one exactly when the service is started |
| `Deploy.Host.PointCurrent` | scripts/machinedeck_deploy.py:701-704 | The pointer moves in one step and stays sound if the release is finished |
| `Deploy.Host.RestoreDatabase` | scripts/machinedeck_deploy.py:661-669 | Removing the log files and then replacing the main file brings the backed-up contents back, and no state shows the restored file beside the log of the migrated one |
| `Deploy.Host.RestorePointer` | scripts/machinedeck_deploy.py:888-892 | The pointer goes back to the old release, or away, before anything else is undone |
| `Deploy.Host.RestoreData` | scripts/machinedeck_deploy.py:903-908 | Database and configuration are put back, or removed where there was none |
| `Deploy.AllSoundMeansEach` | scripts/machinedeck_deploy.py:813-916 | Soundness of the recorded history is soundness of every single state in it |
| `Deploy.PipFailureLeavesServiceStopped` | scripts/machinedeck_deploy.py:885-916 | A finding: when an upgrade fails in pip the handler stops a running old service and nothing starts it again |
| `UserUnits.ChainIsOnePass` | backend/app/systemd/user_units.py:62-67 | The chain of replaces never escapes its own output: it equals a single pass over the characters |
| `UserUnits.UnquoteInverts` | backend/app/systemd/user_units.py:62-67 | Reading a quoted value returns it, and finds its closing quote whatever follows |
| `UserUnits.ParseCommandInverts` | backend/app/systemd/user_units.py:94-94 | Reading the ExecStart text returns the argument vector |
| `UserUnits.EscapePath` | backend/app/systemd/user_units.py:70-82 | The byte loop computes the escaped path, or refuses control characters |
| `UserUnits.ParsePathInverts` | backend/app/systemd/user_units.py:70-82 | Reading an escaped path returns its bytes |
| `UserUnits.EscapedPathIsSafe` | backend/app/systemd/user_units.py:70-82 | An escaped path holds only letters, digits, slashes, dots, underscores, hyphens and the two escape characters |
| `UserUnits.SortItemsSorts` | backend/app/systemd/user_units.py:107-109 | The environment is printed sorted by name, with nothing lost or repeated |
| `UserUnits.EnvMapIgnoresOrder` | backend/app/systemd/user_units.py:107-109 | The printed order does not change the mapping the items denote |
| `UserUnits.EnvironmentLinesInvert` | backend/app/systemd/user_units.py:107-109 | Reading the Environment lines returns the items in printed order |
| `UserUnits.RenderLines` | backend/app/systemd/user_units.py:85-122 | The renderer with its environment loop produces the lines, or fails where an id, a path, an argument or a value is refused |
| `UserUnits.PrintsIff` | backend/app/systemd/user_units.py:85-122 | A manifest prints if and only if its id is safe and no newline, carriage return or null is in path, arguments, names or values |
| `UserUnits.ParseUnitInverts` | backend/app/systemd/user_units.py:85-124 | For every process manifest that prints, splitting the unit at newlines and inverting the escapes returns exactly the id, the working-directory bytes, the command vector and the environment items |
| `UserUnits.EqualUnitsEqualManifests` | backend/app/systemd/user_units.py:291-309 | Equal unit text, which is what MATCH compares, forces equal id, command vector, environment mapping and working directory |
| `UserUnits.OrderOfEnvironmentIsIrrelevant` | backend/app/systemd/user_units.py:107-109 | Manifests that differ only in the insertion order of the environment print the same unit |
| `UnitValidation.ValidateRenderedUnit` | backend/app/systemd/user_units.py:127-164 | The validator with its size and character checks accepts exactly the texts whose lines it should |
| `UnitValidation.CheckLines` | backend/app/systemd/user_units.py:149-164 | The loop that lists sections and counts directives accepts exactly when every line is supported, the three sections come in order and the three required directives occur once |
| `UnitValidation.AcceptsIff` | backend/app/systemd/user_units.py:127-164 | A text is accepted if and only if it is at most 64 KiB, ends with a newline, has no carriage return or null, every line is blank, a comment, bracketed or sets an allowed key, the bracketed lines are the three sections in order, and each of the three required keys is set on exactly one line |
| `UnitValidation.ValidatesExactly` | backend/app/systemd/user_units.py:122-164 | A printed unit passes the validator if and only if it is small enough and whatever the further line boundaries of splitlines() split off its lines is blank, a comment or an allowed directive that is not counted |
| `UnitValidation.SizeDecides` | backend/app/systemd/user_units.py:122-164 | Without such characters in arguments and environment, a printed unit passes if and only if it is at most 64 KiB |
| `UnitValidation.VerticalTabIsRefused` | backend/app/systemd/user_units.py:122-164 | A vertical tab in an environment value is printable but refused by the validator |
| `UnitInstall.Manager.Stage` | backend/app/systemd/user_units.py:263-280 | The exact bytes are checked beside the target; whatever fails, the staged file is gone and the directory is as before |
| `UnitInstall.Manager.AtomicReplace` | backend/app/systemd/user_units.py:226-248 | The target gets exactly the new bytes when no step fails or only the directory sync after the rename does; any other failing step leaves the directory as before; the temporary file is gone in every case |
| `UnitInstall.Manager.Install` | backend/app/systemd/user_units.py:250-289 | There is a receipt if and only if the bytes are there already, or no file step fails and systemd accepts the bytes beside the target and reloads; the exact commands, each with the files it runs over; every failure but the directory sync leaves the directory as it was, staged file included; that one leaves the new bytes, no receipt and the old definitions loaded |
| `UnitInstall.Manager.InstallAndAct` | backend/app/adapters/runtime.py:90-109 | For every sequence of command outcomes and failing file steps the result is the first thing that went wrong, and success if and only if nothing did and the status read after the action is running or starting; a failed start or restart leaves the directory exactly as before if and only if what failed is not the directory sync after the rename; the exact commands, each over the right files; systemd's loaded definitions equal the files whenever its reloads worked, that sync excepted |
| `UnitInstall.FirstFailingIsFirst` | backend/app/systemd/user_units.py:226-280 | An install raises at the first of its file steps that fails |
| `UnitInstall.FailedSyncLeavesTheNewUnit` | backend/app/systemd/user_units.py:240-248 | A finding: an install whose directory sync fails raises with the new unit in place and the old one loaded, and nothing is rolled back |
| `UnitInstall.Manager.Act` | backend/app/adapters/runtime.py:97-109 | The action succeeds exactly when the command succeeds and the status then read is running or starting |
| `UnitInstall.Manager.Status` | backend/app/adapters/runtime.py:111-146 | The status is the classification of what systemctl show printed, or of its failure |
| `UnitInstall.Manager.Undo` | backend/app/adapters/runtime.py:97-109 | The receipt is rolled back, systemd reloads, and a restart that had replaced an older unit restarts over that older unit |
| `UnitInstall.Manager.ActOrUndo` | backend/app/adapters/runtime.py:95-109 | The action over an installed unit, kept exactly when the command succeeds and the status confirms it, and undone otherwise |
| `UnitInstall.Receipt.RollBack` | backend/app/systemd/user_units.py:312-327 | Rollback puts the previous bytes back, or nothing where there was nothing, and at most once |
| `UnitInstall.Receipt.RollBackTwice` | backend/app/systemd/user_units.py:319-327 | A repeated rollback changes nothing and issues at most one reload |
| `AuditPages.NewestFirstSorts` | backend/app/audit/service.py:192-201 | The order is strictly newest first by (created_at, id), with every selected row once |
| `AuditPages.PageCuts` | backend/app/audit/service.py:187-212 | A page is the newest limit rows; has_more is set exactly when rows remain, and the cursor separates the page from what remains |
| `AuditPages.NothingTwice` | backend/app/audit/service.py:187-212 | With arbitrary inserts between requests the events read are strictly newest first, so none is returned twice |
| `AuditPages.NothingMissed` | backend/app/audit/service.py:187-212 | With arbitrary inserts, a client that reads to the end has every matching event that was present at its first request |
| `AuditPages.NothingForeign` | backend/app/audit/service.py:115-212 | Every event read was in the table of its own request and matched the filter |
| `AuditPages.QuietTraversal` | backend/app/audit/service.py:187-212 | With no inserts the pages concatenate to the filtered table sorted by (created_at, id) descending |
| `AuditPages.QuietPages` | backend/app/audit/service.py:202-212 | With no inserts the traversal ends, after exactly PageCount requests |
| `AuditPages.PageCountIsCeiling` | backend/app/audit/service.py:202-212 | PageCount is ceil(n / limit) for non-empty n |
| `CursorCodec.DecodeInverts` | backend/app/audit/service.py:51-71 | base64url (section 5 of RFC 4648) decodes what it encodes |
| `CursorCodec.StandardVectors` | backend/app/audit/service.py:51-56 | Test vectors of section 10 of RFC 4648, and the two characters of the URL-safe alphabet |
| `CursorCodec.EncodingShape` | backend/app/audit/service.py:51-71 | Encoded text is whole groups of four, and padding computed from the stripped length restores it |
| `CursorCodec.OnlyPaddingIsStripped` | backend/app/audit/service.py:51-56 | Stripping removes the padding completely and nothing else |
| `CursorCodec.CursorRoundTrip` | backend/app/audit/service.py:51-71 | Every payload survives the stripped cursor text |
| `BoundedLines.PiecesAreTheSplit` | backend/app/logging/adapters.py:46-69 | The pieces hold no newline and rejoin to the stream |
| `BoundedLines.Split` | backend/app/logging/adapters.py:46-69 | For any division of a stream into non-empty chunks the generator yields the lines of the whole stream, a final empty segment omitted: of each the first max_bytes bytes, its exact original size, and truncated exactly when that exceeds max_bytes |
| `LogRelay.Connection.EnqueueBounded` | backend/app/api/log_websocket.py:90-99 | A full queue gives up its oldest entry and counts it; the queue never exceeds its size |
| `LogRelay.Connection.Produce` | backend/app/api/log_websocket.py:144-149 | An event of the source is enqueued last, under every invariant |
| `LogRelay.Connection.EndSource` | backend/app/api/log_websocket.py:150-166 | One terminal envelope is enqueued last, and nothing after it |
| `LogRelay.Connection.SendHistory` | backend/app/api/log_websocket.py:121-133 | The connected status, then the history in order, numbered from one |
| `LogRelay.Connection.Take` | backend/app/api/log_websocket.py:173-177 | The consumer gets the oldest queued entry |
| `LogRelay.Connection.Resume` | backend/app/api/log_websocket.py:191-208 | Pending drops are reported and reset before the entry is delivered |
| `LogRelay.Connection.DeliverLog` | backend/app/api/log_websocket.py:201-205 | A log is sent with the next number |
| `LogRelay.Connection.DeliverTerminal` | backend/app/api/log_websocket.py:206-209 | The terminal envelope is sent last and ends the loop |
| `LogRelay.Connection.PerformProducer` | backend/app/api/log_websocket.py:144-166 | A producer step keeps the invariants and enqueues exactly its event or terminal envelope, giving up the oldest entry exactly when the queue is full, unless the producer is done |
| `LogRelay.Connection.PerformConsumer` | backend/app/api/log_websocket.py:171-211 | A consumer step, a disconnect or an expiry keeps the invariants; what each does to queue, held entry, drop counter and sent envelopes, exactly, and nothing when it is not possible |
| `LogRelay.Connection.Serve` | backend/app/api/log_websocket.py:141-211 | Every interleaving of them keeps the invariants, and what was enqueued depends on the producer's steps alone: the events up to the end of the source or the stop |
| `LogRelay.Connection.Drain` | backend/app/api/log_websocket.py:171-209 | Once the source has ended the consumer alone delivers everything queued and then the terminal envelope |
| `LogRelay.FollowIsConserved` | backend/app/api/log_websocket.py:141-208 | At every moment logs sent plus the held entry plus the queue plus the drops are what was enqueued; logs went out in order, before everything queued; the queue is the newest part |
| `LogRelay.NumbersAreGapless` | backend/app/api/log_websocket.py:124-133 | Sequence numbers are gapless across history and follow |
| `LogRelay.TerminalIsNeverDropped` | backend/app/api/log_websocket.py:150-166 | The terminal envelope is queued last, held, or delivered, unless the connection was stopped |
| `LogRelay.DeliveredIsAccounted` | backend/app/api/log_websocket.py:191-209 | Once the terminal envelope is delivered the warning counts sum exactly to the drops, and every event was sent or counted |
| `Dashboard.Slot.Put` | backend/app/dashboard/service.py:74-83 | A put into the one-slot queue needs an empty slot: it never overflows |
| `Dashboard.Slot.Replace` | backend/app/dashboard/service.py:78-82 | An unread message is replaced |
| `Dashboard.MetricsService.Complete` | backend/app/dashboard/service.py:74-83 | A completed collection becomes the latest snapshot and the only message in every subscriber's slot |
| `Dashboard.MetricsService.Subscribe` | backend/app/dashboard/service.py:92-97 | A subscriber starts with the latest snapshot and the service stays valid |
| `Dashboard.MetricsService.Receive` | backend/app/dashboard/service.py:98-104 | A received snapshot is the newest published one and newer than all received before |
| `Dashboard.MetricsService.Stop` | backend/app/dashboard/service.py:52-63 | Every slot then holds only the end marker |
| `Dashboard.PerformCollector` | backend/app/dashboard/service.py:52-83 | A completed collection and the stop reach every subscriber; no other step of the collector reaches any |
| `Dashboard.PerformSubscriber` | backend/app/dashboard/service.py:92-106 | A subscriber's step gives exactly that subscriber what waits for it, and ends it with the end marker or by leaving |
| `Dashboard.Serve` | backend/app/dashboard/service.py:74-106 | In every run each slot holds at most one message, an unread snapshot is the newest, each subscriber's snapshots strictly increase in collection order, and the latest snapshot is the last collection that completed |
| `LoginWindow.Limiter.RateLimited` | backend/app/security/auth.py:386-397 | Old rows of every client are purged, then the client is limited exactly when max_failures of its rows lie in the window |
| `LoginWindow.Limiter.Handle` | backend/app/api/auth.py:95-143 | A login is limited, recorded as a failure, or accepted with the client's rows cleared |
| `LoginWindow.PurgeKeepsAgreement` | backend/app/security/auth.py:386-416 | With a clock that never goes backwards the purged table and an unpurged ledger count the same for every client and every cutoff still to come |
| `LoginWindow.PurgeIsInvisible` | backend/app/security/auth.py:386-397 | So the purge never changes any limiting decision |
| `LoginWindow.OutcomeFromHistory` | backend/app/api/auth.py:95-143 | Every outcome follows from the earlier ones alone: a login is limited if and only if max_failures failures of its client within the window are recorded since its last accepted login; otherwise the credentials decide |
| `LoginWindow.LedgerHoldsStreak` | backend/app/security/auth.py:400-416 | The ledger holds a row for every failure since the client's last accepted login |
| `LoginWindow.FailuresSpanTheWindow` | backend/app/api/auth.py:95-143 | Any max_failures + 1 recorded failures of one client with no accepted login of it between the first and the last span strictly more than the window |
| `Forwarding.ReadForwarded` | backend/app/security/auth.py:160-185 | The loops over elements and parameters compute the chain, or fail on a malformed, duplicate or missing parameter |
| `Forwarding.ReadElements` | backend/app/security/auth.py:164-177 | The addresses of all elements in order, with the parameters of the first |
| `Forwarding.ReadElement` | backend/app/security/auth.py:165-175 | One element: its parameters and the address in its for parameter |
| `Forwarding.ReadParameters` | backend/app/security/auth.py:166-172 | The parameters of one element, refusing a missing separator, an empty name or value and a repeated name |
| `Forwarding.ForwardedChain` | backend/app/security/auth.py:160-185 | A chain has at least one and at most limit addresses |
| `Forwarding.XForwardedChain` | backend/app/security/auth.py:188-210 | So has the chain of the X-Forwarded headers |
| `Forwarding.FindClient` | backend/app/security/auth.py:242-248 | The loop from the right finds the client |
| `Forwarding.RightmostIsClient` | backend/app/security/auth.py:242-248 | The client is the rightmost hop outside the trusted proxies |
| `Forwarding.PrependedHopsAreIgnored` | backend/app/security/auth.py:242-248 | Prepending hops never changes the client when an untrusted hop exists |
| `Forwarding.ResolveRequest` | backend/app/security/auth.py:220-268 | The function with its loops and early returns computes the context, or refuses the request |
| `Forwarding.TrustedPeerIsHeard` | backend/app/security/auth.py:220-268 | For a trusted peer with forwarding headers the request is refused exactly when both kinds are mixed or the chain is malformed; otherwise peer, scheme and host are as they should be and the client is the rightmost hop outside the trusted proxies, or the leftmost when all are trusted |
| `Forwarding.DirectPeerIsClient` | backend/app/security/auth.py:226-236 | A peer that is no trusted proxy, or a trusted one without forwarding headers, is its own client, with the scheme and host of the connection |
| `Forwarding.UnreadablePeerIsClient` | backend/app/security/auth.py:221-225 | A peer that is no address is taken as it is, without a host |
| `Forwarding.UntrustedPeerIsNotHeard` | backend/app/security/auth.py:220-236 | For an untrusted peer the whole context is independent of all forwarding headers |
| `Forwarding.ChainsConcatenate` | backend/app/security/auth.py:160-185 | Two well-formed header values joined by a comma are read one after the other, with proto and host of the first |
| `Forwarding.SpoofedElementsAreIgnored` | backend/app/security/auth.py:220-268 | A request whose Forwarded header a client has prefixed with elements of its own, within the hop limit, resolves to the same client and peer |
| `Forwarding.PrefixIsReadIff` | backend/app/security/auth.py:160-185 | A header with a prefix is read if and only if the prefix alone is and the two fit in the hop limit |
| `Forwarding.SpoofedContextIff` | backend/app/security/auth.py:220-268 | For any prefix at all: the request resolves to the same context altogether if and only if the prefix can be read, fits in the hop limit with the rest, and leads to the same scheme and the same host as the proxies' part, each its own proto or host or else that of the connection |
| `ForwardedExamples.PrefixMayChangeTheScheme` | backend/app/security/auth.py:160-185 | A finding: behind one proxy, a prefixed element with proto=https keeps the client and turns http into https |
| `Forwarding.XPrefixIsReadIff` | backend/app/security/auth.py:188-210 | A prefixed X-Forwarded-For is read if and only if the prefix alone is and the two fit in the hop limit |
| `Forwarding.SpoofedHopsIff` | backend/app/security/auth.py:188-268 | With X-Forwarded-For, for any prefix at all: the whole context is the same if and only if the prefix can be read and fits in the hop limit with the rest; otherwise the request is refused |
| `ForwardedPrinter.NodeRoundTrip` | backend/app/security/auth.py:127-146 | A node of section 6 of RFC 7239, quoted or not, is read if and only if it is an address with no port or a numeric one, and then as that address; unknown, obfuscated identifiers and obfuscated ports are refused |
| `IpLiterals.LibraryIsLawful` | backend/app/security/auth.py:127-146 | The laws asked of the address library can be met: dotted quads, and eight groups of hexadecimal digits, are read back for every address, no IPv4 text with a port appended is an address, and nothing with other characters is |
| `ForwardedPrinter.PairsRoundTrip` | backend/app/security/auth.py:166-172 | Printed pairs, any of which may be absent, are read if and only if none is absent, as the same names in lower case with the same printed values |
| `ForwardedPrinter.ElementRoundTrip` | backend/app/security/auth.py:164-175 | An element of section 4 of RFC 7239 yields its parameters if and only if no pair is absent, and its address if and only if one pair is also a `for` that holds an address without quoted pairs |
| `ForwardedPrinter.ProtoRoundTrip` | backend/app/security/auth.py:178-185 | The proto of a printed element is read if and only if it holds no quoted pair and is http or https in any case |
| `ForwardedPrinter.HostRoundTrip` | backend/app/security/auth.py:178-185 | The host of a printed element is read if and only if it holds no quoted pair, has 1 to 255 characters and none that a host may not hold |
| `ForwardedPrinter.HeaderRoundTrip` | backend/app/security/auth.py:160-185 | For any list of elements, with optional pairs, quoted pairs anywhere and any node in `for`: the printed header is read if and only if there are at most limit elements, no pair is absent, every element has a `for` that holds an address without quoted pairs, and the first element's proto and host can be read; what is read is the addresses in order and that proto and host |
| `ForwardedPrinter.XHeadersRoundTrip` | backend/app/security/auth.py:188-210 | X-Forwarded-For with any hops, X-Forwarded-Proto with any token and X-Forwarded-Host with any value: read if and only if there are at most limit hops, each is an address, the proto is http or https and the host is one; what is read is the addresses in order, that proto and that host |
| `ForwardedPrinter.EmptyPairIsRefused` | backend/app/security/auth.py:164-171 | On any text, an empty part between semicolons in any element makes the whole header refused |
| `ForwardedExamples.AbsentPairIsRefused` | backend/app/security/auth.py:166-171 | A finding: an element that section 4 of RFC 7239 admits, `for` and then nothing after a semicolon, is refused |
| `ForwardedExamples.QuotedPairInProtoIsRefused` | backend/app/security/auth.py:178-185 | A finding: proto as a quoted string whose first character is a quoted pair means http and is refused |
| `ForwardedExamples.QuotedPairInForIsRefused` | backend/app/security/auth.py:127-146 | A finding: any node in `for` whose first character is written as a quoted pair means that node and is refused |

## Left out

- Cancellation of a lifecycle task at an await, and adapters that raise instead of returning (as the OSError of a unit file step would): in the lifecycle every step is taken to complete.
- Timestamps, runtime identifiers, metadata and error texts of rows and executions, the actor and details of audit events, and response bodies.
- The logs endpoint and the port refresh, which take an application lock but write no status.
- LifecycleService.ControlPlane.CallAdapter: asks that the loaded row is the persisted one, which `LifecycleTheorems.FlightSeesStoredState` proves of every run; so do PortsScanned and TransitionsBeforeCall.
- LifecycleService.ControlPlane.StatusAnswered: a row that has gone is one error outcome; the ORM exception behind it is not modelled.
- `_reject_active_application` with concurrent writers outside the process, and external changes to files or database during a deployment.
- Deploy.Host.RollBack: the handler's own file operations and its best-effort commands are assumed to succeed.
- Deploy.Host.Migrate: the database is main file and write-ahead log as two values; SQLite's backup interface is taken to copy what a reader sees.
- UnitInstall.Manager.Install: file modes, ownership, symlink and size checks of the unit directory are one preparation outcome; removing a temporary file is taken to work.
- UnitInstall.Receipt.RollBack: the file steps of the rollback itself are taken to succeed.
- UserUnits.RenderLines: `validate_manifest_paths` is not part of this model; paths enter as UTF-8 bytes.
- `sorted` of the environment is given as insertion by name; Python's sort itself is not modelled.
- AuditPages.NothingForeign: the filter is an arbitrary predicate; the SQL conditions, `category_for` and the mapping of rows to responses are not modelled.
- CursorCodec.CursorRoundTrip: the payload is bytes; its JSON form, the length limit and the date parsing are not modelled. Decoding of text the encoder does not produce is only as strict as the four-digit groups.
- Forwarding.ReadForwarded: the `ipaddress` library is a parameter, and IpLiterals gives one instance, without compressed or mixed IPv6 spellings; `str.lower()` and `str.isdigit()` are those of ASCII; IPv6 scope identifiers are not modelled.
- ForwardedPrinter.HeaderRoundTrip: commas and semicolons inside quoted strings are not printed; the reader splits at them first.
- LogRelay.Connection.Stop: expiry of the session, a disconnect and a failed send are one event; exceptions of the producer other than a log source error are not modelled.
- LogRelay.Connection.SendHistory: the query parameters and the reading of the history are not modelled; the history is an argument.
- Dashboard.MetricsService.Complete: which task starts a collection, and the freshness label, are not modelled; snapshots are numbered by the order in which collections complete.
- LoginWindow.Limiter.Handle: origin checks, password hashing, audit events and session creation are not modelled; a client is its remote digest.
- Parsing of `systemctl`, `docker compose`, `journalctl` and `ss` output; the readings enter already split into fields.
- `endpoint_url`, `_public_host`, `doctor`, the UFW text parser, TOML and environment configuration, uninstall, routing, cookies, regex redaction and the frontend: host diagnostics, wrappers or single-branch code that would add only easy members.
