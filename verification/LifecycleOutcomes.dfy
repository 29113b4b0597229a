/** How requests end: what each last step of an action, a status request or a registry request leaves
    behind, in every reachable state. */
module LifecycleOutcomes {
  import opened Common
  import opened Runtime
  import opened Lifecycle
  import opened LifecycleProofs
  import opened LifecycleTheorems
  import Ports

  // ---------------------------------------------------------------- the end of an action

  /** What ends an action: execution and audit event say the same, the lock is free, and the status is
      persisted. */
  ghost predicate EndsAction(w: World, w': World, t: TaskId, f: Flight, status: Status, succeeded: bool)
    requires f.app in w.rows && f.execution in w.executions
  {
    var name := if f.action == Start then "application.start"
                else if f.action == Stop then "application.stop" else "application.restart";
    && w'.rows == w.rows[f.app := Row(w.rows[f.app].id, status)]
    && w'.executions == w.executions[f.execution := Execution(f.app, f.action, if succeeded then ExecutionSucceeded else ExecutionFailed, t)]
    && w'.audit == w.audit + [AuditEvent(f.app, name, succeeded, Some(f.execution))]
    && w'.tasks == w.tasks[t := Completed(Some(f.execution))]
    && w'.locks == w.locks - {f.app} && w'.apps == w.apps && w'.calls == w.calls
  }

  lemma FlightInReachable(w: World, t: TaskId)
    requires Reachable(w) && Flying(w, t)
    ensures FlightOk(w, t, w.tasks[t].stage, w.tasks[t].flight)
  {
    ReachableInv(w);
  }

  lemma LandEnds(w: World, t: TaskId, f: Flight, status: Status, succeeded: bool)
    requires f.app in w.rows && f.execution in w.executions
    requires w.executions[f.execution] == Execution(f.app, f.action, ExecutionRunning, t)
    ensures EndsAction(w, Land(SetStatus(w, f.app, status), t, f, succeeded, Completed(Some(f.execution))), t, f, status, succeeded)
  {
  }

  /** After a successful adapter call the status read back is persisted and decides: a stop has succeeded if
      the application is stopped, a start or restart if it is starting, running or unhealthy. */
  lemma ReadingDecidesAction(w: World, t: TaskId, reading: Reading)
    requires Reachable(w) && Enabled(w, ReadingAnswered(t, reading)) && w.tasks[t].InFlight?
    ensures var f, status := w.tasks[t].flight, Classify(reading);
            && f.app in w.rows && f.execution in w.executions
            && EndsAction(w, Next(w, ReadingAnswered(t, reading)), t, f, status,
                          if f.action == Stop then status == Stopped else status in {Starting, Running, Unhealthy})
  {
    var f, status := w.tasks[t].flight, Classify(reading);
    FlightInReachable(w, t);
    CurrentRowWrites(w, f.app, status);
    assert Expected(f.action, status) == if f.action == Stop then status == Stopped else status in {Starting, Running, Unhealthy};
    LandEnds(w, t, f, status, Expected(f.action, status));
  }

  /** A failed adapter call persists FAILED and ends the execution as failed. */
  lemma FailedCallFailsAction(w: World, t: TaskId)
    requires Reachable(w) && Enabled(w, CallAnswered(t, false))
    ensures var f := w.tasks[t].flight;
            && f.app in w.rows && f.execution in w.executions
            && EndsAction(w, Next(w, CallAnswered(t, false)), t, f, Failed, false)
  {
    var f := w.tasks[t].flight;
    FlightInReachable(w, t);
    CurrentRowWrites(w, f.app, Failed);
    LandEnds(w, t, f, Failed, false);
  }

  /** While its adapter works, and until its status is read, the persisted status of an application is STOPPING
      for a stop and STARTING for a start or a restart; a successful call changes nothing else. */
  lemma StatusWhileCalling(w: World, t: TaskId)
    requires Reachable(w) && Flying(w, t) && w.tasks[t].stage != Scanning
    ensures var f := w.tasks[t].flight;
            && f.app in w.rows && w.rows[f.app].status == (if f.action == Stop then Stopping else Starting)
            && (w.tasks[t].stage == Calling ==>
                  Next(w, CallAnswered(t, true)) == w.(tasks := w.tasks[t := InFlight(Confirming, f)]))
  {
    FlightInReachable(w, t);
  }

  // ---------------------------------------------------------------- how an action is refused

  /** The code of a refusal before there is an execution. */
  lemma LockCodes(w: World, t: TaskId, app: AppId, action: Action, pathsValid: bool, scan: Scan)
    requires Inv(w) && ActionRefusal(w, app, action, pathsValid).Some?
    ensures var after := AfterGate(w, t, app, action, pathsValid, scan);
            t in after.tasks
            && after.tasks[t] == Refused(
                 if app !in w.apps then AppNotFound
                 else if !pathsValid then ConfigInvalid
                 else if !w.apps[app].enabled then AppDisabled
                 else if action == Start then AppAlreadyRunning
                 else AppNotRunning)
  {
    RefusalIff(w, app, action, pathsValid);
    RefusedOutright(w, t, app, action, pathsValid, scan);
    assert AfterGate(w, t, app, action, pathsValid, scan) == End(w, t, Refused(ActionRefusal(w, app, action, pathsValid).value));
  }

  lemma CallCodes(w: World, t: TaskId, f: Flight)
    requires BeforeCall(f.row.status, f.action).None?
    ensures t in IssueCall(w, t, f).tasks && IssueCall(w, t, f).tasks[t] == Refused(StateTransitionInvalid)
  {
    LandFrame(w, t, f, false, Refused(StateTransitionInvalid));
  }

  lemma ScanCodes(w: World, t: TaskId, f: Flight, scan: Scan)
    requires f.manifest.ports != [] && (scan.Scanned? ==> !NothingBlocks(f.app, f.manifest, scan))
    ensures t in ScanReceived(w, t, f, scan).tasks
    ensures ScanReceived(w, t, f, scan).tasks[t]
            == Refused(if scan.DiscoveryFailed? then PortDiscoveryUnavailable else PortConflictFound)
  {
    GateIff(w, t, f, scan);
    LandFrame(w, t, f, false, Refused(PortDiscoveryUnavailable));
    LandFrame(w, t, f, false, Refused(PortConflictFound));
    if scan.Scanned? {
      Ports.GateOpensIffNothingBlocks(f.app, f.manifest.ports, scan.listeners, scan.managed);
    }
  }

  /** From the entry on: the ports are looked at before the status decides. */
  lemma EntryCodes(w: World, t: TaskId, f: Flight, scan: Scan)
    requires f.row.status != Checking && f.row.status != Queued
    requires f.action == Start ==> f.row.status !in {Running, Starting}
    requires f.action != Start ==> f.row.status !in {Stopped, Disabled}
    ensures var w' := if f.action == Stop then IssueCall(w, t, f) else ScanReceived(w, t, f, scan);
            && t in w'.tasks
            && (if f.action != Stop && !GateOpen(f.app, f.manifest, scan)
                then w'.tasks[t] == Refused(if scan.DiscoveryFailed? then PortDiscoveryUnavailable else PortConflictFound)
                else f.row.status !in Accepting(f.action) ==> w'.tasks[t] == Refused(StateTransitionInvalid))
  {
    CallFrame(w, t, f);
    if f.action != Stop && !GateOpen(f.app, f.manifest, scan) {
      ScanCodes(w, t, f, scan);
    } else {
      GateIff(w, t, f, scan);
      if f.row.status !in Accepting(f.action) {
        assert BeforeCall(f.row.status, f.action).None?;
        CallCodes(w, t, f);
      }
    }
  }

  lemma GateCodes(w: World, t: TaskId, app: AppId, action: Action, pathsValid: bool, scan: Scan)
    requires Inv(w) && ActionRefusal(w, app, action, pathsValid).None?
    ensures app in w.apps && app in w.rows && t in AfterGate(w, t, app, action, pathsValid, scan).tasks
    ensures var outcome := AfterGate(w, t, app, action, pathsValid, scan).tasks[t];
            if action != Stop && !GateOpen(app, w.apps[app].manifest, scan)
            then outcome == Refused(if scan.DiscoveryFailed? then PortDiscoveryUnavailable else PortConflictFound)
            else w.rows[app].status !in Accepting(action) ==> outcome == Refused(StateTransitionInvalid)
  {
    RefusalIff(w, app, action, pathsValid);
    AfterGateShape(w, t, app, action, pathsValid, scan);
    assert w.rows[app].status != Checking && w.rows[app].status != Queued;
    EntryCodes(Enter(w, t, NewFlight(w, app, action)), t, NewFlight(w, app, action), scan);
  }

  /** Every refused action names the first of its causes. */
  lemma RefusalNamesItsCause(w: World, t: TaskId, app: AppId, action: Action, pathsValid: bool, scan: Scan)
    requires Inv(w) && IsRefused(w, t, app, action, pathsValid, scan)
    ensures app in w.apps ==> app in w.rows
    ensures AfterGate(w, t, app, action, pathsValid, scan).tasks[t] == Refused(
              if app !in w.apps then AppNotFound
              else if !pathsValid then ConfigInvalid
              else if !w.apps[app].enabled then AppDisabled
              else if action == Start && w.rows[app].status in {Running, Starting} then AppAlreadyRunning
              else if action != Start && w.rows[app].status in {Stopped, Disabled} then AppNotRunning
              else if action != Stop && w.apps[app].manifest.ports != [] && scan.DiscoveryFailed? then PortDiscoveryUnavailable
              else if action != Stop && !GateOpen(app, w.apps[app].manifest, scan) then PortConflictFound
              else StateTransitionInvalid)
  {
    RefusalIff(w, app, action, pathsValid);
    ActionReachesAdapterIff(w, t, app, action, pathsValid, scan);
    if ActionRefusal(w, app, action, pathsValid).Some? {
      LockCodes(w, t, app, action, pathsValid, scan);
    } else {
      GateCodes(w, t, app, action, pathsValid, scan);
    }
  }

  /** The path names of the actions are the ends of their audit names. */
  lemma ActionNames(name: string, action: Action)
    ensures ParseAction(name) == Some(action) <==> "application." + name == ActionName(action)
    ensures ActionName(Start) == "application.start" && ActionName(Stop) == "application.stop"
    ensures ActionName(Restart) == "application.restart"
  {
    var prefix := "application.";
    assert (prefix + name)[|prefix|..] == name;
    assert (prefix + "start")[|prefix|..] == "start";
    assert (prefix + "stop")[|prefix|..] == "stop";
    assert (prefix + "restart")[|prefix|..] == "restart";
    assert prefix + "start" == "application.start";
    assert prefix + "stop" == "application.stop";
    assert prefix + "restart" == "application.restart";
  }

  // ---------------------------------------------------------------- registry and status requests

  /** In a reachable state an update is accepted exactly for a known application of the same id that is
      stopped, failed, unknown or disabled, and then replaces manifest and enabled flag and nothing else. */
  lemma UpdateAccepted(w: World, t: TaskId, app: AppId, manifest: Manifest)
    requires Reachable(w)
    ensures app in w.apps ==> app in w.rows
    ensures var w' := UpdateAcquired(w, t, app, manifest);
            if app != manifest.id then w' == w.(tasks := w.tasks[t := Refused(IdMismatch)])
            else if app !in w.apps then w' == w.(tasks := w.tasks[t := Refused(AppNotFound)])
            else if w.rows[app].status in {Stopped, Failed, Unknown, Disabled} then
              w' == w.(apps := w.apps[app := Record(manifest, manifest.enabled)],
                       audit := w.audit + [AuditEvent(app, "application.update", true, None)],
                       tasks := w.tasks[t := Completed(None)])
            else w' == w.(tasks := w.tasks[t := Refused(ApplicationActive)])
  {
    ReachableInv(w);
  }

  /** So is a delete, which removes record and row together. */
  lemma DeleteAccepted(w: World, t: TaskId, app: AppId)
    requires Reachable(w)
    ensures app in w.apps ==> app in w.rows
    ensures var w' := DeleteAcquired(w, t, app);
            if app !in w.apps then w' == w.(tasks := w.tasks[t := Refused(AppNotFound)])
            else if w.rows[app].status in {Stopped, Failed, Unknown, Disabled} then
              w' == w.(apps := w.apps - {app}, rows := w.rows - {app},
                       audit := w.audit + [AuditEvent(app, "application.delete", true, None)],
                       tasks := w.tasks[t := Completed(None)])
            else w' == w.(tasks := w.tasks[t := Refused(ApplicationActive)])
  {
    ReachableInv(w);
  }

  /** A new application starts out stopped or, if its manifest says so, disabled, under a row id never used. */
  lemma CreateAccepted(w: World, t: TaskId, manifest: Manifest)
    requires Reachable(w)
    ensures var id, w' := manifest.id, Created(w, t, manifest);
            if id in w.apps then w' == w.(tasks := w.tasks[t := Refused(ApplicationExists)])
            else
              && w'.apps == w.apps[id := Record(manifest, manifest.enabled)]
              && id !in w.rows && id in w'.rows && w'.rows == w.rows[id := w'.rows[id]]
              && w'.rows[id].status == (if manifest.enabled then Stopped else Disabled)
              && (forall a :: a in w.rows ==> w.rows[a].id != w'.rows[id].id)
              && w'.audit == w.audit + [AuditEvent(id, "application.create", true, None)]
              && w'.tasks == w.tasks[t := Completed(None)]
              && w'.executions == w.executions && w'.locks == w.locks && w'.calls == w.calls
  {
    ReachableInv(w);
  }

  /** A status request marks a disabled application at once; of an enabled one it loads the persisted row and
      waits. Neither writes anything else. */
  lemma StatusRequestArrives(w: World, t: TaskId, app: AppId, pathsValid: bool)
    requires Reachable(w)
    ensures app in w.apps ==> app in w.rows
    ensures var w' := StatusArrived(w, t, app, pathsValid);
            if app !in w.apps then w' == w.(tasks := w.tasks[t := Refused(AppNotFound)])
            else if !pathsValid then w' == w.(tasks := w.tasks[t := Refused(ConfigInvalid)])
            else if w.apps[app].enabled then w' == w.(tasks := w.tasks[t := StatusWaiting(app, w.rows[app])])
            else w' == w.(rows := w.rows[app := Row(w.rows[app].id, Disabled)], tasks := w.tasks[t := Completed(None)])
  {
    ReachableInv(w);
    if app in w.apps {
      CurrentRowWrites(w, app, Disabled);
    }
  }

  /** A unit-consistency request runs while no action on its application is in flight, fails exactly for an
      unknown application, and changes no table. */
  lemma ConsistencyRunsAlone(w: World, t: TaskId, pathsValid: bool)
    requires Reachable(w) && Enabled(w, Acquire(t, pathsValid))
    requires w.tasks[t].Waiting? && w.tasks[t].request.ConsistencyRequest?
    ensures var app := w.tasks[t].app;
            && (forall u :: Flying(w, u) ==> w.tasks[u].flight.app != app)
            && Next(w, Acquire(t, pathsValid))
               == w.(tasks := w.tasks[t := if app in w.apps then Completed(None) else Refused(AppNotFound)])
  {
    ReachableInv(w);
    FreeLockNoFlight(w, w.tasks[t].app);
  }

  /** A status request fails exactly when the row it had loaded is gone; either way its lock is free again. */
  lemma StatusFailsIffRowGone(w: World, t: TaskId, reading: Reading)
    requires Reachable(w) && Enabled(w, ReadingAnswered(t, reading)) && w.tasks[t].StatusReading?
    ensures var app, row, w' := w.tasks[t].app, w.tasks[t].row, Next(w, ReadingAnswered(t, reading));
            && w'.tasks == w.tasks[t := if app in w.rows && w.rows[app].id == row.id then Completed(None) else Refused(RowVanished)]
            && w'.locks == w.locks - {app}
            && w'.apps == w.apps && w'.executions == w.executions && w'.audit == w.audit && w'.calls == w.calls
            && (forall a :: a in w.rows && a != app ==> a in w'.rows && w'.rows[a] == w.rows[a])
  {
  }
}
