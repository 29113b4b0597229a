/** The promises of the lifecycle protocol, for every run from an empty database. */
module LifecycleTheorems {
  import opened Common
  import opened Runtime
  import opened Lifecycle
  import opened LifecycleProofs
  import Ports

  ghost predicate Flying(w: World, t: TaskId) {
    t in w.tasks && w.tasks[t].InFlight?
  }

  // ---------------------------------------------------------------- isolation of an action

  /** From the creation of its execution until it ends, an action's captured manifest is the stored
      one, the record exists and is enabled, its cached row is the persisted row, and it holds the lock. */
  lemma FlightSeesStoredState(w: World, t: TaskId)
    requires Reachable(w) && Flying(w, t)
    ensures var f := w.tasks[t].flight;
            && f.app in w.apps && w.apps[f.app] == Record(f.manifest, true)
            && f.app in w.rows && w.rows[f.app] == f.row
            && f.app in w.locks && w.locks[f.app] == t
  {
    ReachableInv(w);
    assert FlightOk(w, t, w.tasks[t].stage, w.tasks[t].flight);
  }

  /** What no step of another task may touch. */
  ghost predicate FlightUntouched(w: World, w': World, t: TaskId)
    requires Flying(w, t)
  {
    var f := w.tasks[t].flight;
    && t in w'.tasks && w'.tasks[t] == w.tasks[t]
    && f.app in w.apps && f.app in w'.apps && w'.apps[f.app] == w.apps[f.app]
    && f.app in w.rows && f.app in w'.rows && w'.rows[f.app] == w.rows[f.app]
    && f.execution in w.executions && f.execution in w'.executions
    && w'.executions[f.execution] == w.executions[f.execution]
  }

  lemma OtherLandsApart(w: World, t: TaskId, u: TaskId, status: Status, succeeded: bool, outcome: Task)
    requires Inv(w) && Flying(w, t) && Flying(w, u) && t != u && w.tasks[u].flight.app in w.rows
    ensures FlightUntouched(w, Land(SetStatus(w, w.tasks[u].flight.app, status), u, w.tasks[u].flight, succeeded, outcome), t)
  {
    FlightsApart(w, t, u);
    assert FlightOk(w, t, w.tasks[t].stage, w.tasks[t].flight);
    assert FlightOk(w, u, w.tasks[u].stage, w.tasks[u].flight);
  }

  lemma OtherCallsApart(w: World, t: TaskId, u: TaskId)
    requires Inv(w) && Flying(w, t) && Flying(w, u) && t != u
    ensures FlightUntouched(w, IssueCall(w, u, w.tasks[u].flight), t)
  {
    var f := w.tasks[u].flight;
    assert FlightOk(w, u, w.tasks[u].stage, f);
    assert FlightOk(w, t, w.tasks[t].stage, w.tasks[t].flight);
    FlightsApart(w, t, u);
    assert SetStatus(w, f.app, f.row.status).rows == w.rows;
    OtherLandsApart(w, t, u, f.row.status, false, Refused(StateTransitionInvalid));
  }

  lemma OtherScanAnswered(w: World, u: TaskId, scan: Scan, t: TaskId)
    requires Inv(w) && Flying(w, t) && Flying(w, u) && u != t
    ensures FlightUntouched(w, ScanReceived(w, u, w.tasks[u].flight, scan), t)
  {
    var f := w.tasks[u].flight;
    assert FlightOk(w, u, w.tasks[u].stage, f);
    assert SetStatus(w, f.app, f.row.status).rows == w.rows;
    OtherCallsApart(w, t, u);
    OtherLandsApart(w, t, u, f.row.status, false, Refused(PortDiscoveryUnavailable));
    OtherLandsApart(w, t, u, f.row.status, false, Refused(PortConflictFound));
  }

  lemma OtherCallAnswered(w: World, u: TaskId, succeeded: bool, t: TaskId)
    requires Inv(w) && Flying(w, t) && Flying(w, u) && u != t
    ensures FlightUntouched(w, CallReturned(w, u, w.tasks[u].flight, succeeded), t)
  {
    var f := w.tasks[u].flight;
    assert FlightOk(w, u, w.tasks[u].stage, f);
    assert FlightOk(w, t, w.tasks[t].stage, w.tasks[t].flight);
    CurrentRowWrites(w, f.app, Failed);
    OtherLandsApart(w, t, u, Failed, false, Completed(Some(f.execution)));
  }

  lemma OtherConfirms(w: World, u: TaskId, observed: Status, t: TaskId)
    requires Inv(w) && Flying(w, t) && Flying(w, u) && u != t
    ensures FlightUntouched(w, StateConfirmed(w, u, w.tasks[u].flight, observed), t)
  {
    var f := w.tasks[u].flight;
    assert FlightOk(w, u, w.tasks[u].stage, f);
    CurrentRowWrites(w, f.app, observed);
    OtherLandsApart(w, t, u, observed, Expected(f.action, observed), Completed(Some(f.execution)));
  }

  lemma StatusReadElsewhere(w: World, u: TaskId, app: AppId, row: Row, observed: Status, t: TaskId)
    requires Flying(w, t) && FlightOk(w, t, w.tasks[t].stage, w.tasks[t].flight)
    requires u != t && app != w.tasks[t].flight.app
    ensures FlightUntouched(w, StatusRead(w, u, app, row, observed), t)
  {
  }

  lemma OtherStatusRead(w: World, u: TaskId, observed: Status, t: TaskId)
    requires Inv(w) && Flying(w, t) && u in w.tasks && w.tasks[u].StatusReading?
    ensures FlightUntouched(w, StatusRead(w, u, w.tasks[u].app, w.tasks[u].row, observed), t)
  {
    ReaderNoFlight(w, u);
    StatusReadElsewhere(w, u, w.tasks[u].app, w.tasks[u].row, observed, t);
  }

  lemma OtherActionAcquires(w: World, u: TaskId, app: AppId, action: Action, pathsValid: bool, t: TaskId)
    requires Inv(w) && Flying(w, t) && u in w.tasks && w.tasks[u].Waiting? && app !in w.locks
    ensures FlightUntouched(w, ActionAcquired(w, u, app, action, pathsValid), t)
  {
    assert FlightOk(w, t, w.tasks[t].stage, w.tasks[t].flight);
    if ActionRefusal(w, app, action, pathsValid).None? {
      var f := Flight(app, action, w.apps[app].manifest, w.rows[app].status, w.rows[app], w.nextId);
      assert FlightUntouched(w, Enter(w, u, f), t);
      if action == Stop {
        EnterKeeps(w, u, f);
        OtherCallsApart(Enter(w, u, f), t, u);
      }
    }
  }

  lemma RegistryElsewhere(w: World, u: TaskId, app: AppId, manifest: Manifest, t: TaskId)
    requires Flying(w, t) && FlightOk(w, t, w.tasks[t].stage, w.tasks[t].flight)
    requires u != t && app != w.tasks[t].flight.app
    ensures FlightUntouched(w, UpdateAcquired(w, u, app, manifest), t)
    ensures FlightUntouched(w, DeleteAcquired(w, u, app), t)
  {
  }

  lemma OtherRegistry(w: World, u: TaskId, app: AppId, manifest: Manifest, t: TaskId)
    requires Inv(w) && Flying(w, t) && u != t && app !in w.locks
    ensures FlightUntouched(w, UpdateAcquired(w, u, app, manifest), t)
    ensures FlightUntouched(w, DeleteAcquired(w, u, app), t)
  {
    FreeLockNoFlight(w, app);
    RegistryElsewhere(w, u, app, manifest, t);
  }

  lemma OtherAcquires(w: World, u: TaskId, pathsValid: bool, t: TaskId)
    requires Inv(w) && Flying(w, t) && u in w.tasks && (w.tasks[u].Waiting? || w.tasks[u].StatusWaiting?)
    requires w.tasks[u].app !in w.locks
    ensures FlightUntouched(w, Acquired(w, u, pathsValid), t)
  {
    assert FlightOk(w, t, w.tasks[t].stage, w.tasks[t].flight);
    match w.tasks[u]
    case Waiting(app, ActionRequest(action)) => OtherActionAcquires(w, u, app, action, pathsValid, t);
    case Waiting(app, UpdateRequest(manifest)) => OtherRegistry(w, u, app, manifest, t);
    case Waiting(app, DeleteRequest) => OtherRegistry(w, u, app, w.tasks[t].flight.manifest, t);
    case Waiting(app, ConsistencyRequest) => OtherEnds(w, u, if app in w.apps then Completed(None) else Refused(AppNotFound), t);
    case StatusWaiting(app, row) => OtherReads(w, u, app, row, t);
  }

  lemma OtherEnds(w: World, u: TaskId, outcome: Task, t: TaskId)
    requires Flying(w, t) && FlightOk(w, t, w.tasks[t].stage, w.tasks[t].flight) && u != t
    ensures FlightUntouched(w, End(w, u, outcome), t)
  {
  }

  lemma OtherReads(w: World, u: TaskId, app: AppId, row: Row, t: TaskId)
    requires Flying(w, t) && FlightOk(w, t, w.tasks[t].stage, w.tasks[t].flight) && u != t
    ensures FlightUntouched(w, w.(locks := w.locks[app := u], tasks := w.tasks[u := StatusReading(app, row)]), t)
  {
  }

  lemma StatusArrivesElsewhere(w: World, u: TaskId, app: AppId, pathsValid: bool, t: TaskId)
    requires Flying(w, t) && FlightOk(w, t, w.tasks[t].stage, w.tasks[t].flight) && u != t
    requires app in w.apps ==> app in w.rows
    ensures FlightUntouched(w, StatusArrived(w, u, app, pathsValid), t)
  {
  }

  lemma OtherStatusArrives(w: World, u: TaskId, app: AppId, pathsValid: bool, t: TaskId)
    requires Inv(w) && Flying(w, t) && u !in w.tasks
    ensures FlightUntouched(w, StatusArrived(w, u, app, pathsValid), t)
  {
    assert FlightOk(w, t, w.tasks[t].stage, w.tasks[t].flight);
    assert app in w.apps ==> app in w.rows;
    StatusArrivesElsewhere(w, u, app, pathsValid, t);
  }

  lemma OtherCreates(w: World, u: TaskId, manifest: Manifest, t: TaskId)
    requires Inv(w) && Flying(w, t) && u !in w.tasks
    ensures FlightUntouched(w, Created(w, u, manifest), t)
  {
    assert FlightOk(w, t, w.tasks[t].stage, w.tasks[t].flight);
  }

  /** No step of another task writes the record, the instance row or the execution of an action in flight. */
  lemma FlightIsUndisturbed(w: World, e: Event, t: TaskId)
    requires Inv(w) && Enabled(w, e) && Flying(w, t) && Subject(e) != t
    ensures FlightUntouched(w, Next(w, e), t)
  {
    match e
    case Arrive(_, _, _) => assert FlightOk(w, t, w.tasks[t].stage, w.tasks[t].flight);
    case ArriveRegistry(_, _, _) => assert FlightOk(w, t, w.tasks[t].stage, w.tasks[t].flight);
    case ArriveStatus(u, app, pathsValid) => OtherStatusArrives(w, u, app, pathsValid, t);
    case Create(u, manifest) => OtherCreates(w, u, manifest, t);
    case Acquire(u, pathsValid) => OtherAcquires(w, u, pathsValid, t);
    case ScanAnswered(u, scan) => OtherScanAnswered(w, u, scan, t);
    case CallAnswered(u, succeeded) => OtherCallAnswered(w, u, succeeded, t);
    case ReadingAnswered(u, reading) =>
      if w.tasks[u].InFlight? {
        OtherConfirms(w, u, Classify(reading), t);
      } else {
        OtherStatusRead(w, u, Classify(reading), t);
      }
  }

  /** The step of task t led from w to w' and changed no other task. */
  ghost predicate OnlyTask(w: World, w': World, t: TaskId) {
    t in w'.tasks && w'.tasks == w.tasks[t := w'.tasks[t]]
  }

  lemma CallFrame(w: World, t: TaskId, f: Flight)
    ensures var w' := IssueCall(w, t, f);
            && OnlyTask(w, w', t)
            && (w'.tasks[t].Refused? || (w'.tasks[t].InFlight? && w'.tasks[t].stage == Calling
                                         && w'.tasks[t].flight.(row := f.row) == f))
            && (w'.tasks[t].Refused? ==> w'.rows == w.rows && w'.apps == w.apps && w'.calls == w.calls)
            && (w'.tasks[t].InFlight? ==> w'.calls == w.calls + [(t, f.action)])
  {
  }

  /** ActionAcquired when the invariant holds: refused outright, resting at the scan, or stopping. */
  lemma AcquireShape(w: World, t: TaskId, app: AppId, action: Action, pathsValid: bool)
    requires Inv(w)
    ensures var w' := ActionAcquired(w, t, app, action, pathsValid);
            match ActionRefusal(w, app, action, pathsValid)
            case Some(code) => w' == End(w, t, Refused(code))
            case None =>
              && app in w.apps && app in w.rows
              && var f := Flight(app, action, w.apps[app].manifest, w.rows[app].status, w.rows[app], w.nextId);
                 w' == if action == Stop then IssueCall(Enter(w, t, f), t, f) else Enter(w, t, f)
  {
  }

  lemma ActionFrame(w: World, t: TaskId, app: AppId, action: Action, pathsValid: bool)
    requires Inv(w)
    ensures OnlyTask(w, ActionAcquired(w, t, app, action, pathsValid), t)
  {
    AcquireShape(w, t, app, action, pathsValid);
    if ActionRefusal(w, app, action, pathsValid).None? {
      var f := Flight(app, action, w.apps[app].manifest, w.rows[app].status, w.rows[app], w.nextId);
      CallFrame(Enter(w, t, f), t, f);
    }
  }

  lemma LandFrame(w: World, t: TaskId, f: Flight, succeeded: bool, outcome: Task)
    ensures var w' := Land(w, t, f, succeeded, outcome);
            OnlyTask(w, w', t) && w'.tasks[t] == outcome && w'.rows == w.rows && w'.apps == w.apps && w'.calls == w.calls
  {
  }

  // Steps that end or move their own task without touching the call log.

  lemma StatusReadFrame(w: World, t: TaskId, app: AppId, row: Row, observed: Status)
    ensures var w' := StatusRead(w, t, app, row, observed); OnlyTask(w, w', t) && w'.calls == w.calls
  {
  }

  lemma StatusArrivedFrame(w: World, t: TaskId, app: AppId, pathsValid: bool)
    ensures var w' := StatusArrived(w, t, app, pathsValid); OnlyTask(w, w', t) && w'.calls == w.calls
  {
  }

  lemma UpdateFrame(w: World, t: TaskId, app: AppId, manifest: Manifest)
    ensures OnlyTask(w, UpdateAcquired(w, t, app, manifest), t)
  {
  }

  lemma DeleteFrame(w: World, t: TaskId, app: AppId)
    ensures OnlyTask(w, DeleteAcquired(w, t, app), t)
  {
  }

  lemma CallReturnedFrame(w: World, t: TaskId, f: Flight, succeeded: bool)
    ensures var w' := CallReturned(w, t, f, succeeded);
            && OnlyTask(w, w', t) && w'.calls == w.calls
            && w'.tasks[t] == if succeeded then InFlight(Confirming, f) else Completed(Some(f.execution))
  {
  }

  lemma AcquireFrame(w: World, t: TaskId, pathsValid: bool)
    requires Inv(w) && Enabled(w, Acquire(t, pathsValid))
    ensures OnlyTask(w, Acquired(w, t, pathsValid), t)
  {
    match w.tasks[t]
    case Waiting(app, ActionRequest(action)) => ActionFrame(w, t, app, action, pathsValid);
    case Waiting(app, UpdateRequest(manifest)) => UpdateFrame(w, t, app, manifest);
    case Waiting(app, DeleteRequest) => DeleteFrame(w, t, app);
    case _ =>
  }

  lemma EndFrame(w: World, t: TaskId, outcome: Task)
    ensures OnlyTask(w, End(w, t, outcome), t)
  {
  }

  lemma ArriveFrame(w: World, t: TaskId, app: AppId, name: string)
    requires t !in w.tasks
    ensures OnlyTask(w, Next(w, Arrive(t, app, name)), t)
  {
  }

  lemma CreateFrame(w: World, t: TaskId, manifest: Manifest)
    ensures OnlyTask(w, Created(w, t, manifest), t)
  {
  }

  /** A step changes the entry of its own task only. */
  lemma StepFrame(w: World, e: Event)
    requires Inv(w) && Enabled(w, e)
    ensures OnlyTask(w, Next(w, e), Subject(e))
  {
    match e
    case Arrive(t, app, name) => ArriveFrame(w, t, app, name);
    case ArriveRegistry(t, app, request) => EndFrame(w, t, Waiting(app, request));
    case Create(t, manifest) => CreateFrame(w, t, manifest);
    case ArriveStatus(t, app, pathsValid) => StatusArrivedFrame(w, t, app, pathsValid);
    case Acquire(t, pathsValid) => AcquireFrame(w, t, pathsValid);
    case ScanAnswered(t, scan) => ScanFrame(w, t, w.tasks[t].flight, scan);
    case CallAnswered(t, succeeded) => CallReturnedFrame(w, t, w.tasks[t].flight, succeeded);
    case ReadingAnswered(t, reading) =>
      if w.tasks[t].InFlight? {
        ConfirmFrame(w, t, w.tasks[t].flight, Classify(reading));
      } else {
        StatusReadFrame(w, t, w.tasks[t].app, w.tasks[t].row, Classify(reading));
      }
  }

  lemma ScanFrame(w: World, t: TaskId, f: Flight, scan: Scan)
    ensures var w' := ScanReceived(w, t, f, scan);
            && OnlyTask(w, w', t)
            && (w'.tasks[t].Refused? || (w'.tasks[t].InFlight? && w'.tasks[t].stage == Calling
                                         && w'.tasks[t].flight.(row := f.row) == f))
            && (w'.tasks[t].Refused? ==> w'.rows == w.rows && w'.apps == w.apps && w'.calls == w.calls)
  {
    CallFrame(w, t, f);
    LandFrame(w, t, f, false, Refused(PortDiscoveryUnavailable));
    LandFrame(w, t, f, false, Refused(PortConflictFound));
  }

  lemma ConfirmFrame(w: World, t: TaskId, f: Flight, observed: Status)
    ensures var w' := StateConfirmed(w, t, f, observed); OnlyTask(w, w', t) && w'.tasks[t].Completed? && w'.calls == w.calls
  {
  }

  /** Run keeps Inv from any world that has it. */
  lemma {:induction false} RunKeepsFrom(w: World, events: seq<Event>)
    requires Inv(w)
    ensures Run(w, events).Some? ==> Inv(Run(w, events).value)
  {
    if events == [] {
    } else {
      RunKeepsFrom(w, events[..|events| - 1]);
      var before := Run(w, events[..|events| - 1]);
      if before.Some? && Enabled(before.value, events[|events| - 1]) {
        StepKeeps(before.value, events[|events| - 1]);
      }
    }
  }

  lemma ReachesNext(w: World, e: Event)
    requires Reachable(w) && Enabled(w, e)
    ensures Reachable(Next(w, e))
  {
    var events :| Run(EMPTY, events) == Some(w);
    assert (events + [e])[..|events|] == events;
    assert Run(EMPTY, events + [e]) == Some(Next(w, e));
  }

  lemma {:induction false} ReachesRun(w: World, events: seq<Event>)
    requires Reachable(w) && Run(w, events).Some?
    ensures Reachable(Run(w, events).value)
  {
    if events == [] {
    } else {
      var front := events[..|events| - 1];
      ReachesRun(w, front);
      ReachesNext(Run(w, front).value, events[|events| - 1]);
    }
  }

  /** Over any stretch of a run in which the action itself does not step, nothing of it changes. */
  lemma {:induction false} FlightIsUndisturbedOverRuns(w: World, t: TaskId, events: seq<Event>)
    requires Reachable(w) && Flying(w, t)
    requires Run(w, events).Some?
    requires forall i :: 0 <= i < |events| ==> Subject(events[i]) != t
    ensures FlightUntouched(w, Run(w, events).value, t)
  {
    ReachableInv(w);
    if events == [] {
      assert FlightOk(w, t, w.tasks[t].stage, w.tasks[t].flight);
    } else {
      var front, last := events[..|events| - 1], events[|events| - 1];
      FlightIsUndisturbedOverRuns(w, t, front);
      RunKeepsFrom(w, front);
      assert last == events[|events| - 1];
      FlightIsUndisturbed(Run(w, front).value, last, t);
    }
  }

  // ---------------------------------------------------------------- executions and audit

  /** Every execution is running under a live action that holds its application's lock, or it has
      ended with exactly one audit event, which repeats its application, action and result. */
  lemma EveryExecutionIsAccounted(w: World, x: nat)
    requires Reachable(w) && x in w.executions
    ensures var ex := w.executions[x];
            if ex.status == ExecutionRunning
            then ex.app in w.locks && w.locks[ex.app] == ex.task && Flying(w, ex.task)
                 && w.tasks[ex.task].flight.execution == x && EventsOf(w.audit, x) == []
            else EventsOf(w.audit, x)
                 == [AuditEvent(ex.app, ActionName(ex.action), ex.status == ExecutionSucceeded, Some(x))]
  {
    ReachableInv(w);
    assert ExecutionOk(w, x);
    if w.executions[x].status == ExecutionRunning {
      var u := w.executions[x].task;
      assert FlightOk(w, u, w.tasks[u].stage, w.tasks[u].flight);
    }
  }

  /** A free lock means no running execution for that application. */
  lemma FreeLockNoRunningExecution(w: World, app: AppId)
    requires Reachable(w) && app !in w.locks
    ensures forall x :: x in w.executions && w.executions[x].app == app ==> w.executions[x].status != ExecutionRunning
  {
    forall x | x in w.executions && w.executions[x].app == app
      ensures w.executions[x].status != ExecutionRunning
    {
      EveryExecutionIsAccounted(w, x);
    }
  }

  function Rank(w: World, t: TaskId): nat {
    if t !in w.tasks || !w.tasks[t].InFlight? then 0
    else
      match w.tasks[t].stage
      case Scanning => 3
      case Calling => 2
      case Confirming => 1
  }

  /** The steps of t in a run. */
  ghost function StepsOf(events: seq<Event>, t: TaskId): seq<Event> {
    Filter(events, (e: Event) => Subject(e) == t)
  }

  lemma OwnStepDescends(w: World, e: Event)
    requires Enabled(w, e) && Flying(w, Subject(e))
    ensures Rank(Next(w, e), Subject(e)) < Rank(w, Subject(e))
    ensures Flying(Next(w, e), Subject(e)) || Ended(Next(w, e), Subject(e))
  {
    match e
    case ScanAnswered(t, scan) => ScanFrame(w, t, w.tasks[t].flight, scan);
    case CallAnswered(t, succeeded) => CallReturnedFrame(w, t, w.tasks[t].flight, succeeded);
    case ReadingAnswered(t, reading) => ConfirmFrame(w, t, w.tasks[t].flight, Classify(reading));
    case _ =>
  }

  /** One more event uses up rank exactly when it is a step of t. */
  lemma RankBudget(v: World, last: Event, t: TaskId)
    requires Inv(v) && Enabled(v, last) && (Flying(v, t) || Ended(v, t))
    ensures Rank(Next(v, last), t) + (if Subject(last) == t then 1 else 0) <= Rank(v, t)
    ensures Flying(Next(v, last), t) || Ended(Next(v, last), t)
  {
    if Ended(v, t) {
      EndedTakesNoStep(v, last, t);
    } else if Subject(last) == t {
      OwnStepDescends(v, last);
    } else {
      FlightIsUndisturbed(v, last, t);
    }
  }

  /** An action is over after at most three of its own steps, and leaves the air only by ending. */
  lemma {:induction false} FlightEnds(w: World, t: TaskId, events: seq<Event>)
    requires Reachable(w) && Flying(w, t) && Run(w, events).Some?
    ensures |StepsOf(events, t)| + Rank(Run(w, events).value, t) <= Rank(w, t) <= 3
    ensures Flying(Run(w, events).value, t) || Ended(Run(w, events).value, t)
  {
    if events == [] {
    } else {
      var front, last := events[..|events| - 1], events[|events| - 1];
      FlightEnds(w, t, front);
      ReachableInv(w);
      RunKeepsFrom(w, front);
      StepsGrow(front, last, t);
      assert events == front + [last];
      RankBudget(Run(w, front).value, last, t);
    }
  }

  lemma StepsGrow(events: seq<Event>, e: Event, t: TaskId)
    ensures |StepsOf(events + [e], t)| == |StepsOf(events, t)| + (if Subject(e) == t then 1 else 0)
  {
    FilterSnoc(events, e, (e: Event) => Subject(e) == t);
  }

  ghost predicate Ended(w: World, t: TaskId) {
    t in w.tasks && (w.tasks[t].Refused? || w.tasks[t].Completed?)
  }

  lemma EndedTakesNoStep(w: World, e: Event, t: TaskId)
    requires Inv(w) && Enabled(w, e) && Ended(w, t)
    ensures Subject(e) != t && Ended(Next(w, e), t) && Next(w, e).tasks[t] == w.tasks[t]
  {
    StepFrame(w, e);
  }

  // ---------------------------------------------------------------- refusals, status writes and the gate

  /** The locals an action captured under the lock stay what they were: its status on entry included. */
  lemma CapturedLocalsStay(w: World, e: Event, t: TaskId)
    requires Inv(w) && Enabled(w, e) && Flying(w, t) && Flying(Next(w, e), t)
    ensures var f, g := w.tasks[t].flight, Next(w, e).tasks[t].flight;
            g.(row := f.row) == f
  {
    if Subject(e) != t {
      FlightIsUndisturbed(w, e, t);
    } else if e.ScanAnswered? {
      ScanFrame(w, t, w.tasks[t].flight, e.scan);
    }
  }

  lemma RefusedAtLock(w: World, t: TaskId, app: AppId, action: Action, pathsValid: bool)
    requires Inv(w) && t in w.tasks && w.tasks[t].Waiting?
    requires t in ActionAcquired(w, t, app, action, pathsValid).tasks
    requires ActionAcquired(w, t, app, action, pathsValid).tasks[t].Refused?
    ensures var w' := ActionAcquired(w, t, app, action, pathsValid);
            w'.rows == w.rows && w'.apps == w.apps && w'.calls == w.calls
  {
    AcquireShape(w, t, app, action, pathsValid);
    if ActionRefusal(w, app, action, pathsValid).None? {
      var f := Flight(app, action, w.apps[app].manifest, w.rows[app].status, w.rows[app], w.nextId);
      CallFrame(Enter(w, t, f), t, f);
    }
  }

  /** After the adapter call an action can no longer be refused. */
  lemma OwnStepsLandSafely(w: World, e: Event)
    requires Enabled(w, e) && Flying(w, Subject(e)) && !e.ScanAnswered?
    ensures Subject(e) in Next(w, e).tasks && !Next(w, e).tasks[Subject(e)].Refused?
  {
    if e.CallAnswered? {
      CallReturnedFrame(w, e.task, w.tasks[e.task].flight, e.succeeded);
    } else {
      ConfirmFrame(w, e.task, w.tasks[e.task].flight, Classify(e.reading));
    }
  }

  /** An action that ends in a LifecycleError changed neither registry nor status in its last step,
      the persisted status is the one found under the lock, and no adapter action was ever issued. */
  lemma RefusedActionHasNoEffect(w: World, e: Event)
    requires Reachable(w) && Enabled(w, e)
    requires Flying(w, Subject(e))
             || (Subject(e) in w.tasks && w.tasks[Subject(e)].Waiting? && w.tasks[Subject(e)].request.ActionRequest?)
    requires Subject(e) in Next(w, e).tasks && Next(w, e).tasks[Subject(e)].Refused?
    ensures var t, w' := Subject(e), Next(w, e);
            && w'.rows == w.rows && w'.apps == w.apps
            && CallsOf(w'.calls, t) == []
            && (Flying(w, t) ==> var f := w.tasks[t].flight; f.app in w'.rows && w'.rows[f.app].status == f.current)
  {
    ReachableInv(w);
    var t := Subject(e);
    assert TaskCalls(w, t);
    if e.Acquire? {
      RefusedAtLock(w, t, w.tasks[t].app, w.tasks[t].request.action, e.pathsValid);
    } else if e.ScanAnswered? {
      assert FlightOk(w, t, Scanning, w.tasks[t].flight);
      ScanFrame(w, t, w.tasks[t].flight, e.scan);
    } else {
      OwnStepsLandSafely(w, e);
    }
  }

  /** An action whose port scan is still out has taken no step since it got the lock. */
  lemma ScanningHasNotStepped(w: World, t: TaskId, events: seq<Event>)
    requires Reachable(w) && Flying(w, t) && Run(w, events).Some?
    requires Flying(Run(w, events).value, t) && Run(w, events).value.tasks[t].stage == Scanning
    ensures w.tasks[t].stage == Scanning && forall i :: 0 <= i < |events| ==> Subject(events[i]) != t
  {
    FlightEnds(w, t, events);
    forall i | 0 <= i < |events| ensures Subject(events[i]) != t {
      assert events[i] in events;
    }
  }

  lemma ScanningAtEntry(w: World, t: TaskId, app: AppId, action: Action, pathsValid: bool)
    requires Inv(w) && t in w.tasks && w.tasks[t].Waiting?
    requires Flying(ActionAcquired(w, t, app, action, pathsValid), t)
    requires ActionAcquired(w, t, app, action, pathsValid).tasks[t].stage == Scanning
    ensures var w' := ActionAcquired(w, t, app, action, pathsValid);
            w'.rows == w.rows && w'.apps == w.apps && w'.tasks[t].flight.app == app
  {
    AcquireShape(w, t, app, action, pathsValid);
    if ActionRefusal(w, app, action, pathsValid).None? {
      var f := Flight(app, action, w.apps[app].manifest, w.rows[app].status, w.rows[app], w.nextId);
      CallFrame(Enter(w, t, f), t, f);
    }
  }

  /** Only the answer to the port scan can still refuse an action in flight. */
  lemma RefusedAfterScan(w: World, e: Event)
    requires Enabled(w, e) && Flying(w, Subject(e))
    requires Subject(e) in Next(w, e).tasks && Next(w, e).tasks[Subject(e)].Refused?
    ensures w.tasks[Subject(e)].stage == Scanning
  {
    if !e.ScanAnswered? {
      OwnStepsLandSafely(w, e);
    }
  }

  /** Whatever the other tasks did meanwhile: an action that is refused after its port scan leaves the
      record and the row exactly as they were before it got the lock, and never reached the adapter. */
  lemma RefusedActionLeavesNoTrace(w: World, t: TaskId, pathsValid: bool, events: seq<Event>, e: Event)
    requires Reachable(w) && Enabled(w, Acquire(t, pathsValid))
    requires w.tasks[t].Waiting? && w.tasks[t].request.ActionRequest?
    requires Flying(Next(w, Acquire(t, pathsValid)), t)
    requires Run(Next(w, Acquire(t, pathsValid)), events).Some?
    requires var v := Run(Next(w, Acquire(t, pathsValid)), events).value;
             Flying(v, t) && Enabled(v, e) && Subject(e) == t && t in Next(v, e).tasks && Next(v, e).tasks[t].Refused?
    ensures var app, last := w.tasks[t].app, Next(Run(Next(w, Acquire(t, pathsValid)), events).value, e);
            && app in w.apps && app in last.apps && last.apps[app] == w.apps[app]
            && app in w.rows && app in last.rows && last.rows[app] == w.rows[app]
            && CallsOf(last.calls, t) == []
  {
    var entered := Next(w, Acquire(t, pathsValid));
    var v := Run(entered, events).value;
    ReachesNext(w, Acquire(t, pathsValid));
    ReachesRun(entered, events);
    RefusedAfterScan(v, e);
    ScanningHasNotStepped(entered, t, events);
    FlightIsUndisturbedOverRuns(entered, t, events);
    ReachableInv(w);
    ScanningAtEntry(w, t, w.tasks[t].app, w.tasks[t].request.action, pathsValid);
    RefusedActionHasNoEffect(v, e);
  }

  /** The FAILED write that skips require_transition is a legal edge of the table, and takes effect. */
  lemma UnenforcedFailureIsLegal(w: World, t: TaskId)
    requires Reachable(w) && Enabled(w, CallAnswered(t, false))
    ensures var app := w.tasks[t].flight.app;
            && app in w.rows && MayTransition(w.rows[app].status, Failed)
            && Next(w, CallAnswered(t, false)).rows == w.rows[app := Row(w.rows[app].id, Failed)]
  {
    CallingSeesRow(w, t);
    FailureIsWritten(w, t, w.tasks[t].flight);
  }

  lemma CallingSeesRow(w: World, t: TaskId)
    requires Reachable(w) && t in w.tasks && w.tasks[t].InFlight? && w.tasks[t].stage == Calling
    ensures var f := w.tasks[t].flight; FlightOk(w, t, Calling, f)
  {
    ReachableInv(w);
    assert FlightOk(w, t, w.tasks[t].stage, w.tasks[t].flight);
  }

  lemma FailureIsWritten(w: World, t: TaskId, f: Flight)
    requires f.app in w.rows && w.rows[f.app] == f.row
    ensures CallReturned(w, t, f, false).rows == w.rows[f.app := Row(f.row.id, Failed)]
  {
    CurrentRowWrites(w, f.app, Failed);
    LandFrame(SetStatus(w, f.app, Failed), t, f, false, Completed(Some(f.execution)));
  }

  /** CHECKING is committed before STARTING, but never at an await point; QUEUED is never written. */
  lemma NeverCheckingOrQueued(w: World, app: AppId)
    requires Reachable(w) && app in w.rows
    ensures w.rows[app].status != Checking && w.rows[app].status != Queued
  {
    ReachableInv(w);
  }

  /** _state_record always finds a row: its insert never runs. */
  lemma StateRecordNeverInserts(w: World, app: AppId)
    requires Reachable(w)
    ensures app in w.apps <==> app in w.rows
    ensures app in w.apps ==> StateRecord(w, app) == w
  {
    ReachableInv(w);
  }

  /** The step that answers a port scan issues the call only through an open gate. */
  lemma ScanIssuesThroughGate(w: World, t: TaskId, scan: Scan)
    requires Inv(w) && Enabled(w, ScanAnswered(t, scan)) && Next(w, ScanAnswered(t, scan)).calls != w.calls
    ensures var f := w.tasks[t].flight;
            && Next(w, ScanAnswered(t, scan)).calls == w.calls + [(t, f.action)]
            && f.app in w.apps && w.apps[f.app].manifest == f.manifest
            && (f.manifest.ports == [] || (scan.Scanned? && NothingBlocks(f.app, f.manifest, scan)))
  {
    var f := w.tasks[t].flight;
    assert FlightOk(w, t, Scanning, f);
    if scan.Scanned? {
      Ports.GateOpensIffNothingBlocks(f.app, f.manifest.ports, scan.listeners, scan.managed);
    }
  }

  ghost predicate NothingBlocks(app: AppId, m: Manifest, scan: Scan)
    requires scan.Scanned?
  {
    forall d, l :: d in m.ports && l in Ports.AttributedScan(scan.listeners, scan.managed) ==> !Ports.Blocks(l, d, app)
  }

  lemma LockIssuesOnlyStop(w: World, t: TaskId, app: AppId, action: Action, pathsValid: bool)
    requires Inv(w) && ActionAcquired(w, t, app, action, pathsValid).calls != w.calls
    ensures ActionAcquired(w, t, app, action, pathsValid).calls == w.calls + [(t, Stop)]
  {
    AcquireShape(w, t, app, action, pathsValid);
    if ActionRefusal(w, app, action, pathsValid).None? {
      var f := Flight(app, action, w.apps[app].manifest, w.rows[app].status, w.rows[app], w.nextId);
      CallFrame(Enter(w, t, f), t, f);
    }
  }

  /** start and restart reach the adapter only in the step that answers their own port scan, and only
      when no attributed listener blocks any port of the stored manifest. */
  lemma GateGuardsTheAdapter(w: World, e: Event)
    requires Reachable(w) && Enabled(w, e) && Next(w, e).calls != w.calls
    ensures var w', t := Next(w, e), Subject(e);
            || w'.calls == w.calls + [(t, Stop)]
            || (&& e.ScanAnswered? && Flying(w, t)
                && w'.calls == w.calls + [(t, w.tasks[t].flight.action)]
                && var app := w.tasks[t].flight.app;
                   app in w.apps && (w.apps[app].manifest.ports == []
                                     || (e.scan.Scanned? && NothingBlocks(app, w.apps[app].manifest, e.scan))))
  {
    ReachableInv(w);
    if e.Acquire? {
      LockIssues(w, e.task, e.pathsValid);
    } else if e.ScanAnswered? {
      ScanIssuesThroughGate(w, e.task, e.scan);
    } else {
      OthersIssueNothing(w, e);
    }
  }

  lemma LockIssues(w: World, t: TaskId, pathsValid: bool)
    requires Inv(w) && Enabled(w, Acquire(t, pathsValid)) && Acquired(w, t, pathsValid).calls != w.calls
    ensures Acquired(w, t, pathsValid).calls == w.calls + [(t, Stop)]
  {
    match w.tasks[t]
    case Waiting(app, ActionRequest(action)) => LockIssuesOnlyStop(w, t, app, action, pathsValid);
    case Waiting(app, UpdateRequest(manifest)) => RegistryIssuesNothing(w, t, app, manifest);
    case Waiting(app, DeleteRequest) => RegistryIssuesNothing(w, t, app, Manifest(app, true, [], ""));
    case _ =>
  }

  lemma RegistryIssuesNothing(w: World, t: TaskId, app: AppId, manifest: Manifest)
    ensures UpdateAcquired(w, t, app, manifest).calls == w.calls && DeleteAcquired(w, t, app).calls == w.calls
  {
  }

  lemma OthersIssueNothing(w: World, e: Event)
    requires Enabled(w, e) && !e.Acquire? && !e.ScanAnswered?
    ensures Next(w, e).calls == w.calls
  {
    match e
    case ArriveStatus(t, app, pathsValid) => StatusArrivedFrame(w, t, app, pathsValid);
    case CallAnswered(t, succeeded) => CallReturnedFrame(w, t, w.tasks[t].flight, succeeded);
    case ReadingAnswered(t, reading) =>
      if w.tasks[t].InFlight? {
        ConfirmFrame(w, t, w.tasks[t].flight, Classify(reading));
      } else {
        StatusReadFrame(w, t, w.tasks[t].app, w.tasks[t].row, Classify(reading));
      }
    case _ =>
  }

  // ---------------------------------------------------------------- which statuses admit which action

  /** The statuses from which an action gets to its adapter call. */
  function Accepting(action: Action): set<Status> {
    match action
    case Start => {Stopped, Failed, Unknown}
    case Stop => {Running, Unhealthy, Stopping, Failed, Unknown}
    case Restart => {Starting, Running, Unhealthy}
  }

  /** An action that gets the lock now and whose port scan, if it makes one, answers `scan`. */
  function AfterGate(w: World, t: TaskId, app: AppId, action: Action, pathsValid: bool, scan: Scan): World {
    var entered := ActionAcquired(w, t, app, action, pathsValid);
    if t in entered.tasks && entered.tasks[t].InFlight? && entered.tasks[t].stage == Scanning
    then ScanReceived(entered, t, entered.tasks[t].flight, scan)
    else entered
  }

  predicate ReachesAdapter(w: World, t: TaskId, app: AppId, action: Action, pathsValid: bool, scan: Scan) {
    AfterGate(w, t, app, action, pathsValid, scan).calls == w.calls + [(t, action)]
  }

  predicate IsRefused(w: World, t: TaskId, app: AppId, action: Action, pathsValid: bool, scan: Scan) {
    var after := AfterGate(w, t, app, action, pathsValid, scan);
    t in after.tasks && after.tasks[t].Refused? && after.calls == w.calls
  }

  ghost predicate GateOpen(app: AppId, m: Manifest, scan: Scan) {
    m.ports == [] || (scan.Scanned? && NothingBlocks(app, m, scan))
  }

  /** Under the lock, the status decides between a refusal and the rest of the action. */
  lemma RefusalIff(w: World, app: AppId, action: Action, pathsValid: bool)
    requires Inv(w)
    ensures ActionRefusal(w, app, action, pathsValid).None? <==>
            && app in w.apps && app in w.rows && pathsValid && w.apps[app].enabled
            && (action == Start ==> w.rows[app].status !in {Running, Starting})
            && (action != Start ==> w.rows[app].status !in {Stopped, Disabled})
  {
    if app in w.apps {
      assert app in w.rows && w.rows[app].status != Checking;
    }
  }

  lemma CallIffAccepting(w: World, t: TaskId, f: Flight)
    requires f.row.status != Checking && f.row.status != Queued
    requires f.action == Start ==> f.row.status !in {Running, Starting}
    requires f.action != Start ==> f.row.status !in {Stopped, Disabled}
    ensures var w' := IssueCall(w, t, f);
            && t in w'.tasks
            && (if f.row.status in Accepting(f.action) then w'.calls == w.calls + [(t, f.action)]
                else w'.tasks[t].Refused? && w'.calls == w.calls)
  {
    CallFrame(w, t, f);
    assert BeforeCall(f.row.status, f.action).Some? <==> f.row.status in Accepting(f.action);
  }

  lemma GateIff(w: World, t: TaskId, f: Flight, scan: Scan)
    ensures var w' := ScanReceived(w, t, f, scan);
            if GateOpen(f.app, f.manifest, scan) then w' == IssueCall(w, t, f)
            else t in w'.tasks && w'.tasks[t].Refused? && w'.calls == w.calls
  {
    if scan.Scanned? {
      Ports.GateOpensIffNothingBlocks(f.app, f.manifest.ports, scan.listeners, scan.managed);
    }
    LandFrame(w, t, f, false, Refused(PortDiscoveryUnavailable));
    LandFrame(w, t, f, false, Refused(PortConflictFound));
  }

  /** When an action may go on: the record exists, is valid and enabled, the status admits the action,
      and a start or restart finds its ports free. */
  ghost predicate Admitted(w: World, app: AppId, action: Action, pathsValid: bool, scan: Scan) {
    && app in w.apps && app in w.rows && pathsValid && w.apps[app].enabled
    && w.rows[app].status in Accepting(action)
    && (action != Stop ==> GateOpen(app, w.apps[app].manifest, scan))
  }

  /** The flight of an action that no check refuses. */
  function NewFlight(w: World, app: AppId, action: Action): Flight
    requires app in w.apps && app in w.rows
  {
    Flight(app, action, w.apps[app].manifest, w.rows[app].status, w.rows[app], w.nextId)
  }

  lemma AfterGateShape(w: World, t: TaskId, app: AppId, action: Action, pathsValid: bool, scan: Scan)
    requires Inv(w) && ActionRefusal(w, app, action, pathsValid).None?
    ensures app in w.apps && app in w.rows
    ensures var f := NewFlight(w, app, action);
            AfterGate(w, t, app, action, pathsValid, scan)
            == if action == Stop then IssueCall(Enter(w, t, f), t, f) else ScanReceived(Enter(w, t, f), t, f, scan)
  {
    AcquireShape(w, t, app, action, pathsValid);
    var f := NewFlight(w, app, action);
    CallFrame(Enter(w, t, f), t, f);
  }

  /** From the entry on, the status and the gate decide. */
  lemma EntryDecides(w: World, t: TaskId, f: Flight, scan: Scan)
    requires f.row.status != Checking && f.row.status != Queued
    requires f.action == Start ==> f.row.status !in {Running, Starting}
    requires f.action != Start ==> f.row.status !in {Stopped, Disabled}
    ensures var w' := if f.action == Stop then IssueCall(w, t, f) else ScanReceived(w, t, f, scan);
            && t in w'.tasks
            && (if f.row.status in Accepting(f.action) && (f.action == Stop || GateOpen(f.app, f.manifest, scan))
                then w'.calls == w.calls + [(t, f.action)] && !w'.tasks[t].Refused?
                else w'.tasks[t].Refused? && w'.calls == w.calls)
  {
    CallIffAccepting(w, t, f);
    CallFrame(w, t, f);
    GateIff(w, t, f, scan);
  }

  lemma RefusedOutright(w: World, t: TaskId, app: AppId, action: Action, pathsValid: bool, scan: Scan)
    requires ActionRefusal(w, app, action, pathsValid).Some?
    ensures IsRefused(w, t, app, action, pathsValid, scan) && !ReachesAdapter(w, t, app, action, pathsValid, scan)
  {
    var code := ActionRefusal(w, app, action, pathsValid).value;
    var ended := End(w, t, Refused(code));
    assert ActionAcquired(w, t, app, action, pathsValid) == ended;
    assert ended.tasks[t] == Refused(code) && ended.calls == w.calls;
    assert AfterGate(w, t, app, action, pathsValid, scan) == ended;
  }

  lemma EnteredIff(w: World, t: TaskId, app: AppId, action: Action, pathsValid: bool, scan: Scan)
    requires Inv(w) && ActionRefusal(w, app, action, pathsValid).None?
    ensures app in w.rows && app in w.apps
    ensures var admitted := w.rows[app].status in Accepting(action) && (action == Stop || GateOpen(app, w.apps[app].manifest, scan));
            && (ReachesAdapter(w, t, app, action, pathsValid, scan) <==> admitted)
            && (IsRefused(w, t, app, action, pathsValid, scan) <==> !admitted)
  {
    RefusalIff(w, app, action, pathsValid);
    AfterGateShape(w, t, app, action, pathsValid, scan);
    assert w.rows[app].status != Checking && w.rows[app].status != Queued;
    EntryDecides(Enter(w, t, NewFlight(w, app, action)), t, NewFlight(w, app, action), scan);
  }

  /** An action reaches its adapter exactly when it is admitted, and is refused otherwise. */
  lemma ActionReachesAdapterIff(w: World, t: TaskId, app: AppId, action: Action, pathsValid: bool, scan: Scan)
    requires Inv(w)
    ensures ReachesAdapter(w, t, app, action, pathsValid, scan) <==> Admitted(w, app, action, pathsValid, scan)
    ensures IsRefused(w, t, app, action, pathsValid, scan) <==> !Admitted(w, app, action, pathsValid, scan)
  {
    RefusalIff(w, app, action, pathsValid);
    if ActionRefusal(w, app, action, pathsValid).None? {
      EnteredIff(w, t, app, action, pathsValid, scan);
    } else {
      RefusedOutright(w, t, app, action, pathsValid, scan);
    }
  }

  // ---------------------------------------------------------------- two findings

  /** Of the persisted statuses only DISABLED admits no action. */
  lemma OnlyDisabledAdmitsNone(status: Status)
    requires status != Checking && status != Queued
    ensures (forall action :: status !in Accepting(action)) <==> status == Disabled
  {
    if status != Disabled {
      var action := if status in {Stopped, Failed, Unknown} then Start else if status == Stopping then Stop else Restart;
      assert status in Accepting(action);
    }
  }

  /** With nothing listening, valid paths and an enabled application, the status alone decides. */
  lemma StatusDecides(w: World, t: TaskId, app: AppId, action: Action, scan: Scan)
    requires Inv(w) && app in w.apps && w.apps[app].enabled && scan == Scanned([], [])
    ensures app in w.rows && w.rows[app].status != Checking && w.rows[app].status != Queued
    ensures IsRefused(w, t, app, action, true, scan) <==> w.rows[app].status !in Accepting(action)
  {
    ActionReachesAdapterIff(w, t, app, action, true, scan);
    assert NothingBlocks(app, w.apps[app].manifest, scan);
  }

  /** For an enabled application with valid paths and free ports: every action is refused if and only if
      its persisted status is DISABLED. */
  lemma OnlyDisabledRefusesEveryAction(w: World, t: TaskId, app: AppId)
    requires Inv(w) && app in w.apps && w.apps[app].enabled
    ensures app in w.rows
    ensures (forall action :: IsRefused(w, t, app, action, true, Scanned([], []))) <==> w.rows[app].status == Disabled
  {
    forall action
      ensures app in w.rows && w.rows[app].status != Checking && w.rows[app].status != Queued
      ensures IsRefused(w, t, app, action, true, Scanned([], [])) <==> w.rows[app].status !in Accepting(action)
    {
      StatusDecides(w, t, app, action, Scanned([], []));
    }
    StatusDecides(w, t, app, Start, Scanned([], []));
    OnlyDisabledAdmitsNone(w.rows[app].status);
  }

  /** Such an application exists in a reachable state: created disabled, then enabled by an update. */
  lemma EnabledApplicationStaysDisabled()
    ensures var m := Manifest("a", true, [], "");
            exists w :: Reachable(w) && w.locks == map[] && w.apps == map["a" := Record(m, true)]
                        && w.rows == map["a" := Row(0, Disabled)]
  {
    var off, m := Manifest("a", false, [], ""), Manifest("a", true, [], "");
    assert Run(EMPTY, []) == Some(EMPTY);
    ReachesNext(EMPTY, Create(0, off));
    var w1 := Next(EMPTY, Create(0, off));
    ReachesNext(w1, ArriveRegistry(1, "a", UpdateRequest(m)));
    var w2 := Next(w1, ArriveRegistry(1, "a", UpdateRequest(m)));
    ReachesNext(w2, Acquire(1, true));
    var w3 := Next(w2, Acquire(1, true));
    assert w3.apps == map["a" := Record(m, true)] && w3.rows == map["a" := Row(0, Disabled)];
  }

  /** A status request ends with the observed status persisted exactly when the row it loaded before
      waiting is still there and either differed from the observation or the table already agrees. */
  lemma StatusPersistsObservationIff(w: World, t: TaskId, reading: Reading)
    requires Inv(w) && t in w.tasks && w.tasks[t].StatusReading?
    ensures var app, row, w' := w.tasks[t].app, w.tasks[t].row, Next(w, ReadingAnswered(t, reading));
            (w'.tasks[t] == Completed(None) && app in w'.rows && w'.rows[app].status == Classify(reading))
            <==> (app in w.rows && w.rows[app].id == row.id
                  && (row.status != Classify(reading) || w.rows[app].status == Classify(reading)))
  {
  }

  /** One enabled application "a" with this status, and status requests in these states. */
  ghost function Requests(status: Status, locks: map<AppId, TaskId>, requests: map<TaskId, Task>): World {
    World(map["a" := Record(Manifest("a", true, [], ""), true)], map["a" := Row(0, status)], map[],
          [AuditEvent("a", "application.create", true, None)], locks, map[0 := Completed(None)] + requests, [], 1)
  }

  const LOADED := Row(0, Stopped)

  lemma FirstRequestArrives()
    ensures Reachable(Requests(Stopped, map[], map[1 := StatusWaiting("a", LOADED)]))
  {
    var m := Manifest("a", true, [], "");
    assert Run(EMPTY, []) == Some(EMPTY);
    ReachesNext(EMPTY, Create(0, m));
    var w := Next(EMPTY, Create(0, m));
    ReachesNext(w, ArriveStatus(1, "a", true));
    assert Next(w, ArriveStatus(1, "a", true)) == Requests(Stopped, map[], map[1 := StatusWaiting("a", LOADED)]);
  }

  /** It finds the lock free and takes it at once. */
  lemma FirstRequestAsks()
    ensures Reachable(Requests(Stopped, map["a" := 1], map[1 := StatusReading("a", LOADED)]))
  {
    FirstRequestArrives();
    var w := Requests(Stopped, map[], map[1 := StatusWaiting("a", LOADED)]);
    ReachesNext(w, Acquire(1, true));
    assert Next(w, Acquire(1, true)) == Requests(Stopped, map["a" := 1], map[1 := StatusReading("a", LOADED)]);
  }

  lemma SecondRequestWaits()
    ensures Reachable(Requests(Stopped, map["a" := 1], map[1 := StatusReading("a", LOADED), 2 := StatusWaiting("a", LOADED)]))
  {
    FirstRequestAsks();
    var w := Requests(Stopped, map["a" := 1], map[1 := StatusReading("a", LOADED)]);
    ReachesNext(w, ArriveStatus(2, "a", true));
    assert Next(w, ArriveStatus(2, "a", true))
        == Requests(Stopped, map["a" := 1], map[1 := StatusReading("a", LOADED), 2 := StatusWaiting("a", LOADED)]);
  }

  lemma FirstRequestPersistsRunning()
    ensures Reachable(Requests(Running, map[], map[1 := Completed(None), 2 := StatusWaiting("a", LOADED)]))
  {
    SecondRequestWaits();
    var w := Requests(Stopped, map["a" := 1], map[1 := StatusReading("a", LOADED), 2 := StatusWaiting("a", LOADED)]);
    var e := ReadingAnswered(1, Systemd(Some("active")));
    ReachesNext(w, e);
    assert Next(w, e).rows == map["a" := Row(0, Running)];
    assert Next(w, e).locks == map[];
    assert Next(w, e) == Requests(Running, map[], map[1 := Completed(None), 2 := StatusWaiting("a", LOADED)]);
  }

  lemma SecondRequestAsks()
    ensures Reachable(Requests(Running, map["a" := 2], map[1 := Completed(None), 2 := StatusReading("a", LOADED)]))
  {
    FirstRequestPersistsRunning();
    var w := Requests(Running, map[], map[1 := Completed(None), 2 := StatusWaiting("a", LOADED)]);
    ReachesNext(w, Acquire(2, true));
    assert Next(w, Acquire(2, true))
        == Requests(Running, map["a" := 2], map[1 := Completed(None), 2 := StatusReading("a", LOADED)]);
  }

  /** The condition can fail, in an order the lock allows: the second of two overlapping status requests
      has loaded STOPPED before the first persists RUNNING. It then reads "inactive", which equals what it
      had loaded, so no status is sent and RUNNING stays. */
  lemma StatusMayLoseItsObservation()
    ensures var w := Requests(Running, map["a" := 2], map[1 := Completed(None), 2 := StatusReading("a", LOADED)]);
            var e := ReadingAnswered(2, Systemd(Some("inactive")));
            && Reachable(w) && Enabled(w, e) && Classify(e.reading) == Stopped
            && Next(w, e).tasks[2] == Completed(None) && Next(w, e).rows == map["a" := Row(0, Running)]
  {
    SecondRequestAsks();
  }
}
