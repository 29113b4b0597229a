/** LifecycleService and the registry operations as the source runs them: fields updated in place
    between awaits. Each method is one stretch between two awaits and is proved to take exactly the
    protocol step of module Lifecycle, so what LifecycleTheorems proves of every run holds of any
    schedule of these methods. */
module LifecycleService {
  import opened Common
  import opened Runtime
  import opened Lifecycle
  import opened LifecycleProofs
  import Ports

  class ControlPlane {
    var apps: map<AppId, Record>
    var rows: map<AppId, Row>
    var executions: map<nat, Execution>
    var audit: seq<AuditEvent>
    var locks: map<AppId, TaskId>
    var tasks: map<TaskId, Task>
    var calls: seq<(TaskId, Action)>
    var nextId: nat

    ghost function State(): World
      reads this
    {
      World(apps, rows, executions, audit, locks, tasks, calls, nextId)
    }

    constructor ()
      ensures State() == EMPTY
    {
      apps, rows, executions, audit := map[], map[], map[], [];
      locks, tasks, calls, nextId := map[], map[], [], 0;
    }

    /** `state.status = status` on a loaded row, then commit. */
    method CommitStatus(app: AppId, cached: Row, status: Status)
      modifies this
      ensures State() == WriteStatus(old(State()), app, cached, status)
    {
      if status != cached.status && app in rows && rows[app].id == cached.id {
        rows := rows[app := rows[app].(status := status)];
      }
    }

    /** _transition; `row` is the loaded object, returned as it is after the assignment. */
    method Transition(app: AppId, row: Row, target: Status) returns (ok: bool, row': Row)
      modifies this
      ensures ok <==> MayTransition(row.status, target)
      ensures row' == if ok then row.(status := target) else row
      ensures State() == if ok then WriteStatus(old(State()), app, row, target) else old(State())
    {
      if row.status != target && target !in AllowedTransitions(row.status) {
        return false, row;
      }
      CommitStatus(app, row, target);
      return true, row.(status := target);
    }

    method FinishExecution(f: Flight, succeeded: bool)
      requires f.execution in executions
      modifies this
      ensures State() == Lifecycle.FinishExecution(old(State()), f, succeeded)
    {
      var status := if succeeded then ExecutionSucceeded else ExecutionFailed;
      executions := executions[f.execution := executions[f.execution].(status := status)];
      audit := audit + [AuditEvent(f.app, ActionName(f.action), succeeded, Some(f.execution))];
    }

    /** Finish the execution, leave the lock, end the task. */
    method Finish(t: TaskId, f: Flight, succeeded: bool, outcome: Task)
      requires f.execution in executions
      modifies this
      ensures State() == Land(old(State()), t, f, succeeded, outcome)
    {
      FinishExecution(f, succeeded);
      locks := locks - {f.app};
      tasks := tasks[t := outcome];
    }

    /** The transitions before the adapter call. The row is the persisted one. */
    method TransitionsBeforeCall(f: Flight) returns (ok: bool, row: Row)
      requires f.app in rows && rows[f.app] == f.row
      modifies this
      ensures ok <==> BeforeCall(f.row.status, f.action).Some?
      ensures ok ==> row == f.row.(status := BeforeCall(f.row.status, f.action).value)
      ensures State() == if ok then WriteStatus(old(State()), f.app, f.row, row.status) else old(State())
    {
      match f.action {
        case Start =>
          ok, row := Transition(f.app, f.row, Checking);
          if ok {
            ok, row := Transition(f.app, row, Starting);
          }
        case Stop =>
          ok, row := Transition(f.app, f.row, Stopping);
        case Restart =>
          ok, row := Transition(f.app, f.row, Starting);
      }
    }

    /** From the first transition to the adapter call. */
    method CallAdapter(t: TaskId, f: Flight)
      requires f.execution in executions && f.app in rows && rows[f.app] == f.row
      modifies this
      ensures State() == IssueCall(old(State()), t, f)
    {
      var ok, row := TransitionsBeforeCall(f);
      if !ok {
        Finish(t, f, false, Refused(StateTransitionInvalid));
        return;
      }
      tasks := tasks[t := InFlight(Calling, f.(row := row))];
      calls := calls + [(t, f.action)];
    }

    /** _state_record: the row, inserted as STOPPED when missing. */
    method LoadRow(app: AppId) returns (row: Row)
      modifies this
      ensures State() == StateRecord(old(State()), app)
      ensures app in rows && row == rows[app]
    {
      if app !in rows {
        rows := rows[app := Row(nextId, Stopped)];
        nextId := nextId + 1;
      }
      row := rows[app];
    }

    /** The checks under the lock. */
    method Refusal(app: AppId, action: Action, pathsValid: bool) returns (code: Option<Code>)
      ensures code == ActionRefusal(State(), app, action, pathsValid)
    {
      if app !in apps {
        return Some(AppNotFound);
      }
      if !pathsValid {
        return Some(ConfigInvalid);
      }
      if !apps[app].enabled {
        return Some(AppDisabled);
      }
      var status := if app in rows then rows[app].status else Stopped;
      if action == Start && (status == Running || status == Starting || status == Checking) {
        return Some(AppAlreadyRunning);
      }
      if action != Start && (status == Stopped || status == Disabled) {
        return Some(AppNotRunning);
      }
      return None;
    }

    /** _new_execution, under the lock. */
    method NewExecution(t: TaskId, app: AppId, action: Action, row: Row) returns (f: Flight)
      requires app in apps
      modifies this
      ensures f == Flight(app, action, old(apps[app].manifest), row.status, row, old(nextId))
      ensures State() == Enter(old(State()), t, f)
      ensures f.execution in executions
    {
      f := Flight(app, action, apps[app].manifest, row.status, row, nextId);
      locks := locks[app := t];
      executions := executions[nextId := Execution(app, action, ExecutionRunning, t)];
      nextId := nextId + 1;
      tasks := tasks[t := InFlight(Scanning, f)];
    }

    /** `action` from the lock to its first await. */
    method Action(t: TaskId, app: AppId, action: Action, pathsValid: bool)
      modifies this
      ensures State() == ActionAcquired(old(State()), t, app, action, pathsValid)
    {
      var code := Refusal(app, action, pathsValid);
      if code.Some? {
        tasks := tasks[t := Refused(code.value)];
        return;
      }
      var row := LoadRow(app);
      var f := NewExecution(t, app, action, row);
      if action == Stop {
        CallAdapter(t, f);
      }
    }

    /** The port scan came back. */
    method PortsScanned(t: TaskId, f: Flight, scan: Scan)
      requires f.execution in executions && f.app in rows && rows[f.app] == f.row
      modifies this
      ensures State() == ScanReceived(old(State()), t, f, scan)
    {
      if f.manifest.ports != [] {
        if scan.DiscoveryFailed? {
          Finish(t, f, false, Refused(PortDiscoveryUnavailable));
          return;
        }
        var conflicts := Ports.FindConflicts(f.app, f.manifest.ports, scan.listeners, scan.managed);
        if conflicts != [] {
          Finish(t, f, false, Refused(PortConflictFound));
          return;
        }
      }
      CallAdapter(t, f);
    }

    /** start, stop or restart of the adapter returned. */
    method AdapterReturned(t: TaskId, f: Flight, succeeded: bool)
      requires f.execution in executions
      modifies this
      ensures State() == CallReturned(old(State()), t, f, succeeded)
    {
      if !succeeded {
        CommitStatus(f.app, f.row, Failed);
        Finish(t, f, false, Completed(Some(f.execution)));
        return;
      }
      tasks := tasks[t := InFlight(Confirming, f)];
    }

    /** The adapter's status after a successful action. */
    method Confirm(t: TaskId, f: Flight, reading: Reading)
      requires f.execution in executions && f.app in rows
      modifies this
      ensures State() == StateConfirmed(old(State()), t, f, Classify(reading))
    {
      CommitStatus(f.app, f.row, Classify(reading));
      var confirmed := rows[f.app].status;
      Finish(t, f, Expected(f.action, confirmed), Completed(Some(f.execution)));
    }

    /** `status` up to its lock. */
    method Status(t: TaskId, app: AppId, pathsValid: bool)
      modifies this
      ensures State() == StatusArrived(old(State()), t, app, pathsValid)
    {
      if app !in apps {
        tasks := tasks[t := Refused(AppNotFound)];
        return;
      }
      if !pathsValid {
        tasks := tasks[t := Refused(ConfigInvalid)];
        return;
      }
      var row := LoadRow(app);
      if !apps[app].enabled {
        CommitStatus(app, row, Disabled);
        tasks := tasks[t := Completed(None)];
        return;
      }
      tasks := tasks[t := StatusWaiting(app, row)];
    }

    /** `status` after the adapter answered. */
    method StatusAnswered(t: TaskId, app: AppId, row: Row, reading: Reading)
      modifies this
      ensures State() == StatusRead(old(State()), t, app, row, Classify(reading))
    {
      var present := app in rows && rows[app].id == row.id;
      CommitStatus(app, row, Classify(reading));
      locks := locks - {app};
      tasks := tasks[t := if present then Completed(None) else Refused(RowVanished)];
    }

    method CreateApplication(t: TaskId, manifest: Manifest)
      modifies this
      ensures State() == Created(old(State()), t, manifest)
    {
      if manifest.id in apps {
        tasks := tasks[t := Refused(ApplicationExists)];
        return;
      }
      apps := apps[manifest.id := Record(manifest, manifest.enabled)];
      rows := rows[manifest.id := Row(nextId, if manifest.enabled then Stopped else Disabled)];
      nextId := nextId + 1;
      audit := audit + [AuditEvent(manifest.id, "application.create", true, None)];
      tasks := tasks[t := Completed(None)];
    }

    method UpdateApplication(t: TaskId, app: AppId, manifest: Manifest)
      modifies this
      ensures State() == UpdateAcquired(old(State()), t, app, manifest)
    {
      if app != manifest.id {
        tasks := tasks[t := Refused(IdMismatch)];
        return;
      }
      if app !in apps {
        tasks := tasks[t := Refused(AppNotFound)];
        return;
      }
      if app in rows && Active(rows[app].status) {
        tasks := tasks[t := Refused(ApplicationActive)];
        return;
      }
      apps := apps[app := Record(manifest, manifest.enabled)];
      audit := audit + [AuditEvent(app, "application.update", true, None)];
      tasks := tasks[t := Completed(None)];
    }

    method DeleteApplication(t: TaskId, app: AppId)
      modifies this
      ensures State() == DeleteAcquired(old(State()), t, app)
    {
      if app !in apps {
        tasks := tasks[t := Refused(AppNotFound)];
        return;
      }
      if app in rows && Active(rows[app].status) {
        tasks := tasks[t := Refused(ApplicationActive)];
        return;
      }
      apps, rows := apps - {app}, rows - {app};
      audit := audit + [AuditEvent(app, "application.delete", true, None)];
      tasks := tasks[t := Completed(None)];
    }

    /** One scheduler turn: the task of e runs to its next await. */
    method Turn(e: Event)
      requires Inv(State()) && Enabled(State(), e)
      modifies this
      ensures State() == Next(old(State()), e) && Inv(State())
    {
      ghost var before := State();
      StepKeeps(State(), e);
      match e {
        case Arrive(t, app, name) =>
          var action := ParseAction(name);
          tasks := tasks[t := if action.Some? then Waiting(app, ActionRequest(action.value)) else Refused(ActionInvalid)];
        case ArriveRegistry(t, app, request) =>
          tasks := tasks[t := Waiting(app, request)];
        case ArriveStatus(t, app, pathsValid) =>
          Status(t, app, pathsValid);
        case Create(t, manifest) =>
          CreateApplication(t, manifest);
        case Acquire(t, pathsValid) =>
          LockGranted(t, pathsValid);
        case ScanAnswered(t, scan) =>
          assert FlightOk(before, t, Scanning, before.tasks[t].flight);
          PortsScanned(t, tasks[t].flight, scan);
        case CallAnswered(t, succeeded) =>
          assert FlightOk(before, t, Calling, before.tasks[t].flight);
          AdapterReturned(t, tasks[t].flight, succeeded);
        case ReadingAnswered(t, reading) =>
          if tasks[t].InFlight? {
            assert FlightOk(before, t, Confirming, before.tasks[t].flight);
            Confirm(t, tasks[t].flight, reading);
          } else {
            StatusAnswered(t, tasks[t].app, tasks[t].row, reading);
          }
      }
    }

    /** A waiting task enters its `async with`. */
    method LockGranted(t: TaskId, pathsValid: bool)
      requires Enabled(State(), Acquire(t, pathsValid))
      modifies this
      ensures State() == Acquired(old(State()), t, pathsValid)
    {
      match tasks[t] {
        case StatusWaiting(app, row) =>
          locks := locks[app := t];
          tasks := tasks[t := StatusReading(app, row)];
        case Waiting(app, ActionRequest(action)) => Action(t, app, action, pathsValid);
        case Waiting(app, UpdateRequest(manifest)) => UpdateApplication(t, app, manifest);
        case Waiting(app, DeleteRequest) => DeleteApplication(t, app);
        case Waiting(app, ConsistencyRequest) =>
          tasks := tasks[t := if app in apps then Completed(None) else Refused(AppNotFound)];
      }
    }
  }
}
