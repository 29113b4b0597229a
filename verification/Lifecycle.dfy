/** The lifecycle protocol of backend/app/orchestration/lifecycle_service.py, with the
    registry operations of backend/app/services/applications.py, as one process in which
    tasks switch only where the source awaits.

    A World holds the committed tables, the lock registry and the tasks. An Event lets one
    task run from an await point to its next one; what the outside answers (path checks,
    port scans, adapter results, runtime readings) is part of the event. */
module Lifecycle {
  import opened Common
  import opened Runtime
  import Ports

  type AppId = string
  type TaskId = nat

  datatype Action = Start | Stop | Restart

  datatype Manifest = Manifest(id: AppId, enabled: bool, ports: seq<Ports.PortDefinition>, body: string)

  datatype Record = Record(manifest: Manifest, enabled: bool)

  /** A row of application_instances. A recreated application gets a new row id. */
  datatype Row = Row(id: nat, status: Status)

  datatype ExecutionStatus = ExecutionRunning | ExecutionSucceeded | ExecutionFailed

  /** A row of executions, with the task that inserted it. */
  datatype Execution = Execution(app: AppId, action: Action, status: ExecutionStatus, task: TaskId)

  datatype AuditEvent = AuditEvent(app: AppId, name: string, success: bool, execution: Option<nat>)

  datatype Code =
    | ActionInvalid | AppNotFound | ConfigInvalid | AppDisabled | AppAlreadyRunning | AppNotRunning
    | PortDiscoveryUnavailable | PortConflictFound | StateTransitionInvalid
    | IdMismatch | ApplicationActive | ApplicationExists | RowVanished

  /** The locals of an action between the creation of its execution and its end. */
  datatype Flight = Flight(app: AppId, action: Action, manifest: Manifest, current: Status, row: Row, execution: nat)

  datatype Stage = Scanning | Calling | Confirming

  datatype Request =
    | ActionRequest(action: Action)
    | UpdateRequest(manifest: Manifest)
    | DeleteRequest
    | ConsistencyRequest

  datatype Task =
    | Waiting(app: AppId, request: Request)                // before `async with locks.get(app)`
    | InFlight(stage: Stage, flight: Flight)               // an action holding the lock
    | StatusWaiting(app: AppId, row: Row)                  // status: row loaded, lock not yet held
    | StatusReading(app: AppId, row: Row)                  // status: lock held, adapter asked
    | Refused(code: Code)                                  // ended by an exception
    | Completed(execution: Option<nat>)                    // ended by a return; actions report their execution

  datatype World = World(
    apps: map<AppId, Record>,
    rows: map<AppId, Row>,
    executions: map<nat, Execution>,
    audit: seq<AuditEvent>,
    locks: map<AppId, TaskId>,
    tasks: map<TaskId, Task>,
    calls: seq<(TaskId, Action)>,      // start/stop/restart issued to adapters
    nextId: nat)

  /** The answer to the port scan of an action. */
  datatype Scan =
    | DiscoveryFailed
    | Scanned(listeners: seq<Ports.ObservedPort>, managed: seq<Ports.ObservedPort>)

  datatype Event =
    | Arrive(task: TaskId, app: AppId, name: string)                     // POST .../{start,stop,restart}
    | ArriveRegistry(task: TaskId, app: AppId, request: Request)         // PUT, DELETE, unit-consistency
    | ArriveStatus(task: TaskId, app: AppId, pathsValid: bool)
    | Create(task: TaskId, manifest: Manifest)
    | Acquire(task: TaskId, pathsValid: bool)
    | ScanAnswered(task: TaskId, scan: Scan)
    | CallAnswered(task: TaskId, succeeded: bool)
    | ReadingAnswered(task: TaskId, reading: Reading)

  const EMPTY := World(map[], map[], map[], [], map[], map[], [], 0)

  // ---------------------------------------------------------------- pieces of the service

  function ParseAction(name: string): Option<Action> {
    if name == "start" then Some(Start)
    else if name == "stop" then Some(Stop)
    else if name == "restart" then Some(Restart)
    else None
  }

  function ActionName(action: Action): string {
    match action
    case Start => "application.start"
    case Stop => "application.stop"
    case Restart => "application.restart"
  }

  /** ACTIVE_STATUSES of the registry service. */
  predicate Active(status: Status) {
    status in {Checking, Starting, Running, Unhealthy, Stopping}
  }

  function End(w: World, t: TaskId, outcome: Task): World {
    w.(tasks := w.tasks[t := outcome])
  }

  function Release(w: World, app: AppId): World {
    w.(locks := w.locks - {app})
  }

  /** _state_record: the row, inserted as STOPPED when missing. */
  function StateRecord(w: World, app: AppId): World {
    if app in w.rows then w
    else w.(rows := w.rows[app := Row(w.nextId, Stopped)], nextId := w.nextId + 1)
  }

  /** The lock-time refusals of `action`, before any execution exists. */
  function ActionRefusal(w: World, app: AppId, action: Action, pathsValid: bool): Option<Code> {
    if app !in w.apps then Some(AppNotFound)
    else if !pathsValid then Some(ConfigInvalid)
    else if !w.apps[app].enabled then Some(AppDisabled)
    else
      var current := if app in w.rows then w.rows[app].status else Stopped;
      if action == Start && current in {Running, Starting, Checking} then Some(AppAlreadyRunning)
      else if action != Start && current in {Stopped, Disabled} then Some(AppNotRunning)
      else None
  }

  /** The commits of _transition before the adapter call: CHECKING then STARTING, STOPPING, or
      STARTING. None is the InvalidStateTransitionError of the first illegal step. */
  function BeforeCall(current: Status, action: Action): Option<Status> {
    match action
    case Start =>
      if !MayTransition(current, Checking) then None
      else if !MayTransition(Checking, Starting) then None
      else Some(Starting)
    case Stop => if MayTransition(current, Stopping) then Some(Stopping) else None
    case Restart => if MayTransition(current, Starting) then Some(Starting) else None
  }

  /** Assigning to a loaded row and committing: SQL updates the row with that id, if it still
      exists, and only a value that differs from the loaded one is sent. */
  function WriteStatus(w: World, app: AppId, cached: Row, status: Status): World {
    if app in w.rows && w.rows[app].id == cached.id && status != cached.status
    then w.(rows := w.rows[app := w.rows[app].(status := status)])
    else w
  }

  /** _finish_execution: the final status and its audit event in one commit. */
  function FinishExecution(w: World, f: Flight, succeeded: bool): World {
    if f.execution !in w.executions then w
    else
      w.(executions := w.executions[f.execution := w.executions[f.execution].(
             status := if succeeded then ExecutionSucceeded else ExecutionFailed)],
         audit := w.audit + [AuditEvent(f.app, ActionName(f.action), succeeded, Some(f.execution))])
  }

  /** Finish, leave `async with`, end the task. */
  function Land(w: World, t: TaskId, f: Flight, succeeded: bool, outcome: Task): World {
    End(Release(FinishExecution(w, f, succeeded), f.app), t, outcome)
  }

  /** From the cleared port gate to the adapter call. */
  function IssueCall(w: World, t: TaskId, f: Flight): World {
    match BeforeCall(f.row.status, f.action)
    case None => Land(w, t, f, false, Refused(StateTransitionInvalid))
    case Some(status) =>
      var w' := WriteStatus(w, f.app, f.row, status);
      w'.(tasks := w'.tasks[t := InFlight(Calling, f.(row := f.row.(status := status)))],
          calls := w'.calls + [(t, f.action)])
  }

  predicate Expected(action: Action, status: Status) {
    if action == Stop then status == Stopped else status in {Starting, Running, Unhealthy}
  }

  // ---------------------------------------------------------------- steps

  /** `action` once it holds the lock, up to its first await. */
  function ActionAcquired(w: World, t: TaskId, app: AppId, action: Action, pathsValid: bool): World {
    match ActionRefusal(w, app, action, pathsValid)
    case Some(code) => End(w, t, Refused(code))
    case None =>
      var w' := StateRecord(w, app);
      var f := Flight(app, action, w.apps[app].manifest, w'.rows[app].status, w'.rows[app], w'.nextId);
      var entered := Enter(w', t, f);
      if action == Stop then IssueCall(entered, t, f) else entered
  }

  /** _new_execution under the lock. */
  function Enter(w: World, t: TaskId, f: Flight): World {
    w.(executions := w.executions[w.nextId := Execution(f.app, f.action, ExecutionRunning, t)],
       nextId := w.nextId + 1,
       locks := w.locks[f.app := t],
       tasks := w.tasks[t := InFlight(Scanning, f)])
  }

  function UpdateAcquired(w: World, t: TaskId, app: AppId, manifest: Manifest): World {
    if app != manifest.id then End(w, t, Refused(IdMismatch))
    else if app !in w.apps then End(w, t, Refused(AppNotFound))
    else if app in w.rows && Active(w.rows[app].status) then End(w, t, Refused(ApplicationActive))
    else
      End(w.(apps := w.apps[app := Record(manifest, manifest.enabled)],
             audit := w.audit + [AuditEvent(app, "application.update", true, None)]), t, Completed(None))
  }

  /** The instance row goes by ON DELETE CASCADE; executions and audit rows stay. */
  function DeleteAcquired(w: World, t: TaskId, app: AppId): World {
    if app !in w.apps then End(w, t, Refused(AppNotFound))
    else if app in w.rows && Active(w.rows[app].status) then End(w, t, Refused(ApplicationActive))
    else
      End(w.(apps := w.apps - {app}, rows := w.rows - {app},
             audit := w.audit + [AuditEvent(app, "application.delete", true, None)]), t, Completed(None))
  }

  /** What runs when a waiting task gets the lock. */
  function Acquired(w: World, t: TaskId, pathsValid: bool): World
    requires t in w.tasks && (w.tasks[t].Waiting? || w.tasks[t].StatusWaiting?)
  {
    match w.tasks[t]
    case StatusWaiting(app, row) =>
      w.(locks := w.locks[app := t], tasks := w.tasks[t := StatusReading(app, row)])
    case Waiting(app, ActionRequest(action)) => ActionAcquired(w, t, app, action, pathsValid)
    case Waiting(app, UpdateRequest(manifest)) => UpdateAcquired(w, t, app, manifest)
    case Waiting(app, DeleteRequest) => DeleteAcquired(w, t, app)
    case Waiting(app, ConsistencyRequest) =>
      // Writes only the metadata column of the row.
      End(w, t, if app in w.apps then Completed(None) else Refused(AppNotFound))
  }

  /** The synchronous prefix of `status`. A disabled application is marked without taking the lock. */
  function StatusArrived(w: World, t: TaskId, app: AppId, pathsValid: bool): World {
    if app !in w.apps then End(w, t, Refused(AppNotFound))
    else if !pathsValid then End(w, t, Refused(ConfigInvalid))
    else
      var w' := StateRecord(w, app);
      var row := w'.rows[app];
      if !w.apps[app].enabled then End(WriteStatus(w', app, row, Disabled), t, Completed(None))
      else End(w', t, StatusWaiting(app, row))
  }

  /** create_application takes no lock and never awaits. */
  function Created(w: World, t: TaskId, manifest: Manifest): World {
    if manifest.id in w.apps then End(w, t, Refused(ApplicationExists))
    else
      End(w.(apps := w.apps[manifest.id := Record(manifest, manifest.enabled)],
             rows := w.rows[manifest.id := Row(w.nextId, if manifest.enabled then Stopped else Disabled)],
             audit := w.audit + [AuditEvent(manifest.id, "application.create", true, None)],
             nextId := w.nextId + 1), t, Completed(None))
  }

  /** The port gate. conflicts() returns [] before scanning when nothing is declared. */
  function ScanReceived(w: World, t: TaskId, f: Flight, scan: Scan): World {
    if f.manifest.ports == [] then IssueCall(w, t, f)
    else if scan.DiscoveryFailed? then Land(w, t, f, false, Refused(PortDiscoveryUnavailable))
    else if Ports.Conflicts(f.app, f.manifest.ports, scan.listeners, scan.managed) != []
    then Land(w, t, f, false, Refused(PortConflictFound))
    else IssueCall(w, t, f)
  }

  /** The adapter action returned. */
  function CallReturned(w: World, t: TaskId, f: Flight, succeeded: bool): World {
    if succeeded then w.(tasks := w.tasks[t := InFlight(Confirming, f)])
    else Land(WriteStatus(w, f.app, f.row, Failed), t, f, false, Completed(Some(f.execution)))
  }

  /** _apply_runtime_state; session.refresh reads the committed row back, so the response carries that status. */
  function StateConfirmed(w: World, t: TaskId, f: Flight, observed: Status): World {
    var w' := WriteStatus(w, f.app, f.row, observed);
    var confirmed := if f.app in w'.rows then w'.rows[f.app].status else observed;
    Land(w', t, f, Expected(f.action, confirmed), Completed(Some(f.execution)))
  }

  /** `status` after the adapter answered. The row may have gone while the request waited for the lock. */
  function StatusRead(w: World, t: TaskId, app: AppId, row: Row, observed: Status): World {
    if app in w.rows && w.rows[app].id == row.id
    then End(Release(WriteStatus(w, app, row, observed), app), t, Completed(None))
    else End(Release(w, app), t, Refused(RowVanished))
  }

  predicate Enabled(w: World, e: Event) {
    match e
    case Arrive(t, _, _) => t !in w.tasks
    case ArriveRegistry(t, _, request) => t !in w.tasks && !request.ActionRequest?
    case ArriveStatus(t, _, _) => t !in w.tasks
    case Create(t, _) => t !in w.tasks
    case Acquire(t, _) =>
      && t in w.tasks
      && (w.tasks[t].Waiting? || w.tasks[t].StatusWaiting?)
      && w.tasks[t].app !in w.locks
    case ScanAnswered(t, _) => t in w.tasks && w.tasks[t].InFlight? && w.tasks[t].stage == Scanning
    case CallAnswered(t, _) => t in w.tasks && w.tasks[t].InFlight? && w.tasks[t].stage == Calling
    case ReadingAnswered(t, _) =>
      t in w.tasks && (w.tasks[t].StatusReading? || (w.tasks[t].InFlight? && w.tasks[t].stage == Confirming))
  }

  function Next(w: World, e: Event): World
    requires Enabled(w, e)
  {
    match e
    case Arrive(t, app, name) =>
      (match ParseAction(name)
       case None => End(w, t, Refused(ActionInvalid))
       case Some(action) => End(w, t, Waiting(app, ActionRequest(action))))
    case ArriveRegistry(t, app, request) => End(w, t, Waiting(app, request))
    case ArriveStatus(t, app, pathsValid) => StatusArrived(w, t, app, pathsValid)
    case Create(t, manifest) => Created(w, t, manifest)
    case Acquire(t, pathsValid) => Acquired(w, t, pathsValid)
    case ScanAnswered(t, scan) => ScanReceived(w, t, w.tasks[t].flight, scan)
    case CallAnswered(t, succeeded) => CallReturned(w, t, w.tasks[t].flight, succeeded)
    case ReadingAnswered(t, reading) =>
      if w.tasks[t].InFlight? then StateConfirmed(w, t, w.tasks[t].flight, Classify(reading))
      else StatusRead(w, t, w.tasks[t].app, w.tasks[t].row, Classify(reading))
  }

  /** The task an event belongs to. */
  function Subject(e: Event): TaskId {
    e.task
  }

  // ---------------------------------------------------------------- runs

  /** The world after a sequence of events, or None when some event was not enabled. */
  ghost function Run(w: World, events: seq<Event>): Option<World> {
    if events == [] then Some(w)
    else
      match Run(w, events[..|events| - 1])
      case None => None
      case Some(v) =>
        var e := events[|events| - 1];
        if Enabled(v, e) then Some(Next(v, e)) else None
  }

  /** Reachable from an empty database. */
  ghost predicate Reachable(w: World) {
    exists events :: Run(EMPTY, events) == Some(w)
  }
}
