/** What every run of the lifecycle protocol keeps. */
module LifecycleProofs {
  import opened Common
  import opened Runtime
  import opened Lifecycle

  // ---------------------------------------------------------------- the invariant

  /** The application whose lock a task is inside. */
  function LockOf(task: Task): Option<AppId> {
    if task.InFlight? then Some(task.flight.app)
    else if task.StatusReading? then Some(task.app)
    else None
  }

  /** The lock registry and the tasks agree on who is inside which `async with`. */
  ghost predicate Locking(w: World) {
    && (forall a :: a in w.locks ==> w.locks[a] in w.tasks && LockOf(w.tasks[w.locks[a]]) == Some(a))
    && (forall t :: t in w.tasks && LockOf(w.tasks[t]).Some? ==>
          LockOf(w.tasks[t]).value in w.locks && w.locks[LockOf(w.tasks[t]).value] == t)
  }

  /** Every application has exactly one instance row; issued ids are below nextId. */
  ghost predicate Identity(w: World) {
    && w.apps.Keys == w.rows.Keys
    && (forall a :: a in w.rows ==> w.rows[a].id < w.nextId)
    && (forall x :: x in w.executions ==> x < w.nextId)
    && (forall t :: t in w.tasks && (w.tasks[t].StatusWaiting? || w.tasks[t].StatusReading?) ==> w.tasks[t].row.id < w.nextId)
  }

  function StatusDuringCall(action: Action): Status {
    if action == Stop then Stopping else Starting
  }

  /** What an action may rely on from the creation of its execution until it ends. */
  ghost predicate FlightOk(w: World, t: TaskId, stage: Stage, f: Flight) {
    && f.app in w.apps
    && w.apps[f.app] == Record(f.manifest, true)
    && f.app in w.rows
    && w.rows[f.app] == f.row
    && f.execution in w.executions
    && w.executions[f.execution] == Execution(f.app, f.action, ExecutionRunning, t)
    && (stage == Scanning ==> f.row.status == f.current)
    && (stage != Scanning ==> f.row.status == StatusDuringCall(f.action))
  }

  ghost predicate Flights(w: World) {
    forall t :: t in w.tasks && w.tasks[t].InFlight? ==> FlightOk(w, t, w.tasks[t].stage, w.tasks[t].flight)
  }

  /** CHECKING and QUEUED are never seen between two steps. */
  ghost predicate Persisted(w: World) {
    forall a :: a in w.rows ==> w.rows[a].status != Checking && w.rows[a].status != Queued
  }

  ghost function EventsOf(audit: seq<AuditEvent>, x: nat): seq<AuditEvent> {
    Filter(audit, (e: AuditEvent) => e.execution == Some(x))
  }

  /** A running execution belongs to a live action and has no audit event; a finished one has
      exactly one, and it says what the execution says. */
  ghost predicate ExecutionOk(w: World, x: nat)
    requires x in w.executions
  {
    var ex := w.executions[x];
    if ex.status == ExecutionRunning then
      && ex.task in w.tasks
      && w.tasks[ex.task].InFlight?
      && w.tasks[ex.task].flight.execution == x
      && EventsOf(w.audit, x) == []
    else
      EventsOf(w.audit, x) == [AuditEvent(ex.app, ActionName(ex.action), ex.status == ExecutionSucceeded, Some(x))]
  }

  ghost predicate Books(w: World) {
    && (forall x :: x in w.executions ==> ExecutionOk(w, x))
    && (forall x: nat :: x !in w.executions ==> EventsOf(w.audit, x) == [])
  }

  ghost function CallsOf(calls: seq<(TaskId, Action)>, t: TaskId): seq<(TaskId, Action)> {
    Filter(calls, (c: (TaskId, Action)) => c.0 == t)
  }

  /** Which adapter calls a task has issued, by its state. */
  ghost predicate TaskCalls(w: World, t: TaskId) {
    var issued := CallsOf(w.calls, t);
    if t !in w.tasks then issued == []
    else
      match w.tasks[t]
      case InFlight(stage, f) => issued == (if stage == Scanning then [] else [(t, f.action)])
      case Completed(Some(x)) =>
        && x in w.executions
        && w.executions[x].task == t
        && w.executions[x].status != ExecutionRunning
        && issued == [(t, w.executions[x].action)]
      case _ => issued == []
  }

  ghost predicate Calls(w: World) {
    forall t: TaskId :: TaskCalls(w, t)
  }

  ghost predicate Inv(w: World) {
    Locking(w) && Identity(w) && Flights(w) && Persisted(w) && Books(w) && Calls(w)
  }

  // ---------------------------------------------------------------- bookkeeping lemmas

  lemma AuditGrows(audit: seq<AuditEvent>, e: AuditEvent, x: nat)
    ensures EventsOf(audit + [e], x) == EventsOf(audit, x) + (if e.execution == Some(x) then [e] else [])
  {
    FilterSnoc(audit, e, (e: AuditEvent) => e.execution == Some(x));
  }

  lemma CallsGrow(calls: seq<(TaskId, Action)>, c: (TaskId, Action), t: TaskId)
    ensures CallsOf(calls + [c], t) == CallsOf(calls, t) + (if c.0 == t then [c] else [])
  {
    FilterSnoc(calls, c, (c: (TaskId, Action)) => c.0 == t);
  }

  /** An audit event of a registry operation is no execution's event. */
  lemma RegistryAudit(audit: seq<AuditEvent>, e: AuditEvent)
    requires e.execution == None
    ensures forall x: nat :: EventsOf(audit + [e], x) == EventsOf(audit, x)
  {
    forall x: nat ensures EventsOf(audit + [e], x) == EventsOf(audit, x) {
      AuditGrows(audit, e, x);
    }
  }

  // ---------------------------------------------------------------- preservation, piece by piece

  /** Books and calls are kept by a step of t that adds no execution, audit event or call and leaves
      the flights of others as they are. */
  ghost predicate OnlyMoves(w: World, w': World, t: TaskId) {
    && w'.executions == w.executions && w'.audit == w.audit && w'.calls == w.calls
    && t in w'.tasks && w'.tasks == w.tasks[t := w'.tasks[t]]
  }

  lemma MoveKeepsBooks(w: World, w': World, t: TaskId)
    requires Books(w) && OnlyMoves(w, w', t)
    requires t in w.tasks && w.tasks[t].InFlight? ==>
      w'.tasks[t].InFlight? && w'.tasks[t].flight.execution == w.tasks[t].flight.execution
    ensures Books(w')
  {
    forall x | x in w'.executions ensures ExecutionOk(w', x) {
      assert ExecutionOk(w, x);
    }
  }

  lemma MoveKeepsCalls(w: World, w': World, t: TaskId)
    requires Calls(w) && OnlyMoves(w, w', t) && TaskCalls(w', t)
    ensures Calls(w')
  {
    forall u: TaskId ensures TaskCalls(w', u) {
      assert TaskCalls(w, u);
    }
  }

  /** A task that holds no lock may end in any way that claims no execution. */
  lemma EndKeeps(w: World, t: TaskId, outcome: Task)
    requires Inv(w)
    requires t in w.tasks ==> w.tasks[t].Waiting? || w.tasks[t].StatusWaiting?
    requires outcome.Waiting? || outcome.Refused? || outcome == Completed(None)
             || (outcome.StatusWaiting? && outcome.row.id < w.nextId)
    ensures Inv(End(w, t, outcome))
  {
    var w' := End(w, t, outcome);
    assert TaskCalls(w, t);
    MoveKeepsBooks(w, w', t);
    MoveKeepsCalls(w, w', t);
    EndKeepsTables(w, t, outcome);
  }

  lemma EndKeepsTables(w: World, t: TaskId, outcome: Task)
    requires Locking(w) && Identity(w) && Flights(w) && Persisted(w)
    requires t in w.tasks ==> LockOf(w.tasks[t]).None?
    requires LockOf(outcome).None? && (outcome.StatusWaiting? ==> outcome.row.id < w.nextId)
    ensures var w' := End(w, t, outcome); Locking(w') && Identity(w') && Flights(w') && Persisted(w')
  {
    var w' := End(w, t, outcome);
    forall u | u in w'.tasks && w'.tasks[u].InFlight?
      ensures FlightOk(w', u, w'.tasks[u].stage, w'.tasks[u].flight)
    {
      assert FlightOk(w, u, w.tasks[u].stage, w.tasks[u].flight);
    }
  }

  /** The world with the persisted status of app replaced. */
  ghost function SetStatus(w: World, app: AppId, status: Status): World
    requires app in w.rows
  {
    w.(rows := w.rows[app := w.rows[app].(status := status)])
  }

  /** A write through an up-to-date cached row always reaches the table. */
  lemma CurrentRowWrites(w: World, app: AppId, status: Status)
    requires app in w.rows
    ensures WriteStatus(w, app, w.rows[app], status) == SetStatus(w, app, status)
  {
    if status == w.rows[app].status {
      assert w.rows[app := w.rows[app].(status := status)] == w.rows;
    }
  }

  /** Status may change when no action is in flight for the application. */
  lemma SetStatusKeeps(w: World, app: AppId, status: Status)
    requires Inv(w)
    requires app in w.rows && status != Checking && status != Queued
    requires forall t :: t in w.tasks && w.tasks[t].InFlight? ==> w.tasks[t].flight.app != app
    ensures Inv(SetStatus(w, app, status))
  {
    var w' := SetStatus(w, app, status);
    forall u: TaskId ensures TaskCalls(w', u) {
      assert TaskCalls(w, u);
    }
    forall x | x in w'.executions ensures ExecutionOk(w', x) {
      assert ExecutionOk(w, x);
    }
  }

  /** A registry change to an application without a flight. */
  lemma RegistryKeeps(w: World, w': World, app: AppId, e: AuditEvent)
    requires Inv(w)
    requires e.execution == None
    requires w' == w.(apps := w'.apps, rows := w'.rows, audit := w.audit + [e], nextId := w'.nextId)
    requires w.nextId <= w'.nextId
    requires w'.apps.Keys == w'.rows.Keys
    requires forall a :: a in w'.rows && a != app ==> a in w.rows && w'.rows[a] == w.rows[a] && w'.apps[a] == w.apps[a]
    requires forall a :: a in w.rows && a != app ==> a in w'.rows
    requires app in w'.rows ==> w'.rows[app].id < w'.nextId && w'.rows[app].status != Checking && w'.rows[app].status != Queued
    requires forall t :: t in w.tasks && w.tasks[t].InFlight? ==> w.tasks[t].flight.app != app
    ensures Inv(w')
  {
    RegistryAudit(w.audit, e);
    forall u: TaskId ensures TaskCalls(w', u) {
      assert TaskCalls(w, u);
    }
    forall x | x in w'.executions ensures ExecutionOk(w', x) {
      assert ExecutionOk(w, x);
    }
    forall t | t in w'.tasks && w'.tasks[t].InFlight?
      ensures FlightOk(w', t, w'.tasks[t].stage, w'.tasks[t].flight)
    {
      assert FlightOk(w, t, w.tasks[t].stage, w.tasks[t].flight);
    }
  }

  /** Taking a free lock leaves no action in flight for that application. */
  lemma FreeLockNoFlight(w: World, app: AppId)
    requires Inv(w) && app !in w.locks
    ensures forall t :: t in w.tasks && w.tasks[t].InFlight? ==> w.tasks[t].flight.app != app
  {
    forall t | t in w.tasks && w.tasks[t].InFlight?
      ensures w.tasks[t].flight.app != app
    {
    }
  }

  /** Two actions in flight are on different applications. */
  lemma FlightsApart(w: World, t: TaskId, u: TaskId)
    requires Locking(w)
    requires t in w.tasks && w.tasks[t].InFlight? && u in w.tasks && w.tasks[u].InFlight? && t != u
    ensures w.tasks[t].flight.app != w.tasks[u].flight.app
  {
  }

  // Entering the flight: the execution and the lock appear together.

  ghost predicate MayEnter(w: World, t: TaskId, f: Flight) {
    && t in w.tasks && w.tasks[t].Waiting? && f.app !in w.locks
    && f.app in w.apps && w.apps[f.app] == Record(f.manifest, true)
    && f.app in w.rows && w.rows[f.app] == f.row && f.current == f.row.status && f.execution == w.nextId
  }

  lemma EnterKeepsTables(w: World, t: TaskId, f: Flight)
    requires Inv(w) && MayEnter(w, t, f)
    ensures var w' := Enter(w, t, f); Locking(w') && Identity(w') && Persisted(w')
  {
  }

  lemma EnterKeepsFlights(w: World, t: TaskId, f: Flight)
    requires Inv(w) && MayEnter(w, t, f)
    ensures Flights(Enter(w, t, f))
  {
    var w' := Enter(w, t, f);
    forall u | u in w'.tasks && w'.tasks[u].InFlight?
      ensures FlightOk(w', u, w'.tasks[u].stage, w'.tasks[u].flight)
    {
      if u != t {
        assert FlightOk(w, u, w.tasks[u].stage, w.tasks[u].flight);
      }
    }
  }

  lemma EnterKeepsBooks(w: World, t: TaskId, f: Flight)
    requires Inv(w) && MayEnter(w, t, f)
    ensures Books(Enter(w, t, f)) && Calls(Enter(w, t, f))
  {
    var w' := Enter(w, t, f);
    assert w.nextId !in w.executions;
    forall x | x in w'.executions ensures ExecutionOk(w', x) {
      if x != w.nextId {
        assert ExecutionOk(w, x);
      }
    }
    forall u: TaskId ensures TaskCalls(w', u) {
      assert TaskCalls(w, u);
    }
  }

  lemma EnterKeeps(w: World, t: TaskId, f: Flight)
    requires Inv(w) && MayEnter(w, t, f)
    ensures Inv(Enter(w, t, f))
  {
    EnterKeepsTables(w, t, f);
    EnterKeepsFlights(w, t, f);
    EnterKeepsBooks(w, t, f);
  }

  // Issuing the adapter call: status, cached row, stage and call log move together.

  ghost function Called(w: World, t: TaskId, f: Flight): World
    requires f.app in w.rows
  {
    var row := w.rows[f.app].(status := StatusDuringCall(f.action));
    w.(rows := w.rows[f.app := row],
       tasks := w.tasks[t := InFlight(Calling, f.(row := row))],
       calls := w.calls + [(t, f.action)])
  }

  lemma CallKeepsFlights(w: World, t: TaskId, f: Flight)
    requires Inv(w) && t in w.tasks && w.tasks[t] == InFlight(Scanning, f) && f.app in w.rows
    ensures Flights(Called(w, t, f))
  {
    var w' := Called(w, t, f);
    assert FlightOk(w, t, Scanning, f);
    forall u | u in w'.tasks && w'.tasks[u].InFlight?
      ensures FlightOk(w', u, w'.tasks[u].stage, w'.tasks[u].flight)
    {
      if u != t {
        assert FlightOk(w, u, w.tasks[u].stage, w.tasks[u].flight);
        FlightsApart(w, t, u);
      }
    }
  }

  lemma CallKeepsBooks(w: World, t: TaskId, f: Flight)
    requires Inv(w) && t in w.tasks && w.tasks[t] == InFlight(Scanning, f) && f.app in w.rows
    ensures Books(Called(w, t, f)) && Calls(Called(w, t, f))
  {
    var w' := Called(w, t, f);
    forall x | x in w'.executions ensures ExecutionOk(w', x) {
      assert ExecutionOk(w, x);
    }
    forall u: TaskId ensures TaskCalls(w', u) {
      assert TaskCalls(w, u);
      CallsGrow(w.calls, (t, f.action), u);
    }
  }

  lemma CallKeeps(w: World, t: TaskId, f: Flight)
    requires Inv(w) && t in w.tasks && w.tasks[t] == InFlight(Scanning, f) && f.app in w.rows
    ensures Inv(Called(w, t, f))
  {
    CallKeepsFlights(w, t, f);
    CallKeepsBooks(w, t, f);
  }

  // Landing: execution, audit event, lock and task close together, whatever status was written.

  ghost predicate MayLand(w: World, t: TaskId, stage: Stage, f: Flight, status: Status, outcome: Task) {
    && t in w.tasks && w.tasks[t] == InFlight(stage, f) && f.app in w.rows && f.execution in w.executions
    && status != Checking && status != Queued
    && if stage == Scanning then outcome.Refused? else outcome == Completed(Some(f.execution))
  }

  lemma LandKeepsTables(w: World, t: TaskId, stage: Stage, f: Flight, status: Status, succeeded: bool, outcome: Task)
    requires Inv(w) && MayLand(w, t, stage, f, status, outcome)
    ensures var w' := Land(SetStatus(w, f.app, status), t, f, succeeded, outcome);
            Locking(w') && Identity(w') && Persisted(w')
  {
    LandKeepsLocking(w, t, stage, f, status, succeeded, outcome);
    LandKeepsRows(w, t, stage, f, status, succeeded, outcome);
  }

  lemma LandKeepsLocking(w: World, t: TaskId, stage: Stage, f: Flight, status: Status, succeeded: bool, outcome: Task)
    requires Locking(w) && Flights(w) && MayLand(w, t, stage, f, status, outcome)
    ensures Locking(Land(SetStatus(w, f.app, status), t, f, succeeded, outcome))
  {
    assert FlightOk(w, t, stage, f);
  }

  lemma LandKeepsRows(w: World, t: TaskId, stage: Stage, f: Flight, status: Status, succeeded: bool, outcome: Task)
    requires Identity(w) && Persisted(w) && MayLand(w, t, stage, f, status, outcome)
    ensures var w' := Land(SetStatus(w, f.app, status), t, f, succeeded, outcome); Identity(w') && Persisted(w')
  {
  }

  lemma LandKeepsFlights(w: World, t: TaskId, stage: Stage, f: Flight, status: Status, succeeded: bool, outcome: Task)
    requires Inv(w) && MayLand(w, t, stage, f, status, outcome)
    ensures Flights(Land(SetStatus(w, f.app, status), t, f, succeeded, outcome))
  {
    var w' := Land(SetStatus(w, f.app, status), t, f, succeeded, outcome);
    forall u | u in w'.tasks && w'.tasks[u].InFlight?
      ensures FlightOk(w', u, w'.tasks[u].stage, w'.tasks[u].flight)
    {
      assert FlightOk(w, u, w.tasks[u].stage, w.tasks[u].flight);
      assert FlightOk(w, t, stage, f);
      FlightsApart(w, t, u);
    }
  }

  /** Landing closes its own execution with one event and leaves every other as it was. */
  lemma LandKeepsExecution(w: World, t: TaskId, stage: Stage, f: Flight, status: Status, succeeded: bool, outcome: Task, x: nat)
    requires Books(w) && FlightOk(w, t, stage, f) && MayLand(w, t, stage, f, status, outcome)
    ensures var w' := Land(SetStatus(w, f.app, status), t, f, succeeded, outcome);
            && (x in w'.executions ==> ExecutionOk(w', x))
            && (x !in w'.executions ==> EventsOf(w'.audit, x) == [])
  {
    AuditGrows(w.audit, AuditEvent(f.app, ActionName(f.action), succeeded, Some(f.execution)), x);
    if x in w.executions {
      assert ExecutionOk(w, x);
    }
  }

  lemma LandKeepsBooks(w: World, t: TaskId, stage: Stage, f: Flight, status: Status, succeeded: bool, outcome: Task)
    requires Inv(w) && MayLand(w, t, stage, f, status, outcome)
    ensures Books(Land(SetStatus(w, f.app, status), t, f, succeeded, outcome))
  {
    var w' := Land(SetStatus(w, f.app, status), t, f, succeeded, outcome);
    assert FlightOk(w, t, stage, f);
    forall x: nat
      ensures x in w'.executions ==> ExecutionOk(w', x)
      ensures x !in w'.executions ==> EventsOf(w'.audit, x) == []
    {
      LandKeepsExecution(w, t, stage, f, status, succeeded, outcome, x);
    }
  }

  lemma LandKeepsCalls(w: World, t: TaskId, stage: Stage, f: Flight, status: Status, succeeded: bool, outcome: Task)
    requires Inv(w) && MayLand(w, t, stage, f, status, outcome)
    ensures Calls(Land(SetStatus(w, f.app, status), t, f, succeeded, outcome))
  {
    var w' := Land(SetStatus(w, f.app, status), t, f, succeeded, outcome);
    assert FlightOk(w, t, stage, f);
    forall u: TaskId ensures TaskCalls(w', u) {
      assert TaskCalls(w, u);
    }
  }

  lemma LandKeeps(w: World, t: TaskId, stage: Stage, f: Flight, status: Status, succeeded: bool, outcome: Task)
    requires Inv(w) && MayLand(w, t, stage, f, status, outcome)
    ensures Inv(Land(SetStatus(w, f.app, status), t, f, succeeded, outcome))
  {
    LandKeepsTables(w, t, stage, f, status, succeeded, outcome);
    LandKeepsFlights(w, t, stage, f, status, succeeded, outcome);
    LandKeepsBooks(w, t, stage, f, status, succeeded, outcome);
    LandKeepsCalls(w, t, stage, f, status, succeeded, outcome);
  }

  // ---------------------------------------------------------------- every step keeps the invariant

  lemma IssueCallKeeps(w: World, t: TaskId, f: Flight)
    requires Inv(w) && t in w.tasks && w.tasks[t] == InFlight(Scanning, f)
    ensures Inv(IssueCall(w, t, f))
  {
    assert FlightOk(w, t, Scanning, f);
    match BeforeCall(f.row.status, f.action)
    case None =>
      assert SetStatus(w, f.app, f.row.status).rows == w.rows;
      LandKeeps(w, t, Scanning, f, f.row.status, false, Refused(StateTransitionInvalid));
    case Some(status) =>
      CurrentRowWrites(w, f.app, status);
      assert status == StatusDuringCall(f.action);
      CallKeeps(w, t, f);
  }

  lemma ScanKeeps(w: World, t: TaskId, scan: Scan)
    requires Inv(w) && Enabled(w, ScanAnswered(t, scan))
    ensures Inv(Next(w, ScanAnswered(t, scan)))
  {
    var f := w.tasks[t].flight;
    assert FlightOk(w, t, Scanning, f);
    assert SetStatus(w, f.app, f.row.status).rows == w.rows;
    IssueCallKeeps(w, t, f);
    LandKeeps(w, t, Scanning, f, f.row.status, false, Refused(PortDiscoveryUnavailable));
    LandKeeps(w, t, Scanning, f, f.row.status, false, Refused(PortConflictFound));
  }

  lemma ConfirmingKeepsTables(w: World, t: TaskId, f: Flight)
    requires Locking(w) && Identity(w) && Flights(w) && Persisted(w)
    requires t in w.tasks && w.tasks[t] == InFlight(Calling, f)
    ensures var w' := w.(tasks := w.tasks[t := InFlight(Confirming, f)]);
            Locking(w') && Identity(w') && Flights(w') && Persisted(w')
  {
    var w' := w.(tasks := w.tasks[t := InFlight(Confirming, f)]);
    forall u | u in w'.tasks && w'.tasks[u].InFlight?
      ensures FlightOk(w', u, w'.tasks[u].stage, w'.tasks[u].flight)
    {
      assert FlightOk(w, u, w.tasks[u].stage, w.tasks[u].flight);
    }
  }

  lemma ConfirmingKeeps(w: World, t: TaskId, f: Flight)
    requires Inv(w) && t in w.tasks && w.tasks[t] == InFlight(Calling, f)
    ensures Inv(w.(tasks := w.tasks[t := InFlight(Confirming, f)]))
  {
    var w' := w.(tasks := w.tasks[t := InFlight(Confirming, f)]);
    assert TaskCalls(w, t);
    ConfirmingKeepsTables(w, t, f);
    MoveKeepsBooks(w, w', t);
    MoveKeepsCalls(w, w', t);
  }

  lemma CallAnsweredKeeps(w: World, t: TaskId, succeeded: bool)
    requires Inv(w) && Enabled(w, CallAnswered(t, succeeded))
    ensures Inv(Next(w, CallAnswered(t, succeeded)))
  {
    var f := w.tasks[t].flight;
    assert FlightOk(w, t, Calling, f);
    if succeeded {
      ConfirmingKeeps(w, t, f);
    } else {
      CurrentRowWrites(w, f.app, Failed);
      LandKeeps(w, t, Calling, f, Failed, false, Completed(Some(f.execution)));
    }
  }

  /** status leaves its `async with`, with or without a write. */
  lemma StatusEndKeeps(w: World, t: TaskId, outcome: Task)
    requires Inv(w) && t in w.tasks && w.tasks[t].StatusReading?
    requires outcome.Refused? || outcome == Completed(None)
    ensures Inv(End(Release(w, w.tasks[t].app), t, outcome))
  {
    var w' := End(Release(w, w.tasks[t].app), t, outcome);
    assert TaskCalls(w, t);
    MoveKeepsBooks(w, w', t);
    MoveKeepsCalls(w, w', t);
    StatusEndKeepsTables(w, t, outcome);
  }

  lemma StatusEndKeepsTables(w: World, t: TaskId, outcome: Task)
    requires Locking(w) && Identity(w) && Flights(w) && Persisted(w)
    requires t in w.tasks && w.tasks[t].StatusReading?
    requires outcome.Refused? || outcome == Completed(None)
    ensures var w' := End(Release(w, w.tasks[t].app), t, outcome);
            Locking(w') && Identity(w') && Flights(w') && Persisted(w')
  {
    var w' := End(Release(w, w.tasks[t].app), t, outcome);
    forall u | u in w'.tasks && w'.tasks[u].InFlight?
      ensures FlightOk(w', u, w'.tasks[u].stage, w'.tasks[u].flight)
    {
      assert FlightOk(w, u, w.tasks[u].stage, w.tasks[u].flight);
    }
  }

  /** While status holds the lock, no action is in flight for its application. */
  lemma ReaderNoFlight(w: World, t: TaskId)
    requires Inv(w) && t in w.tasks && w.tasks[t].StatusReading?
    ensures forall u :: u in w.tasks && w.tasks[u].InFlight? ==> w.tasks[u].flight.app != w.tasks[t].app
  {
    forall u | u in w.tasks && w.tasks[u].InFlight?
      ensures w.tasks[u].flight.app != w.tasks[t].app
    {
    }
  }

  lemma ReadingKeeps(w: World, t: TaskId, reading: Reading)
    requires Inv(w) && Enabled(w, ReadingAnswered(t, reading))
    ensures Inv(Next(w, ReadingAnswered(t, reading)))
  {
    var observed := Classify(reading);
    if w.tasks[t].InFlight? {
      var f := w.tasks[t].flight;
      assert FlightOk(w, t, Confirming, f);
      CurrentRowWrites(w, f.app, observed);
      LandKeeps(w, t, Confirming, f, observed, Expected(f.action, observed), Completed(Some(f.execution)));
    } else {
      var app, row := w.tasks[t].app, w.tasks[t].row;
      if app in w.rows && w.rows[app].id == row.id {
        ReaderNoFlight(w, t);
        var status := if observed != row.status then observed else w.rows[app].status;
        SetStatusKeeps(w, app, status);
        assert SetStatus(w, app, status).rows == WriteStatus(w, app, row, observed).rows;
        StatusEndKeeps(SetStatus(w, app, status), t, Completed(None));
      } else {
        StatusEndKeeps(w, t, Refused(RowVanished));
      }
    }
  }

  lemma ArrivalKeeps(w: World, e: Event)
    requires Inv(w) && Enabled(w, e) && (e.Arrive? || e.ArriveRegistry? || e.ArriveStatus?)
    ensures Inv(Next(w, e))
  {
    match e
    case Arrive(t, app, name) =>
      EndKeeps(w, t, match ParseAction(name) case None => Refused(ActionInvalid) case Some(action) => Waiting(app, ActionRequest(action)));
    case ArriveRegistry(t, app, request) =>
      EndKeeps(w, t, Waiting(app, request));
    case ArriveStatus(t, app, pathsValid) =>
      if app !in w.apps {
        EndKeeps(w, t, Refused(AppNotFound));
      } else if !pathsValid {
        EndKeeps(w, t, Refused(ConfigInvalid));
      } else if w.apps[app].enabled {
        EndKeeps(w, t, StatusWaiting(app, w.rows[app]));
      } else {
        forall u | u in w.tasks && w.tasks[u].InFlight?
          ensures w.tasks[u].flight.app != app
        {
          assert FlightOk(w, u, w.tasks[u].stage, w.tasks[u].flight);
        }
        CurrentRowWrites(w, app, Disabled);
        SetStatusKeeps(w, app, Disabled);
        EndKeeps(SetStatus(w, app, Disabled), t, Completed(None));
      }
  }

  lemma CreateKeeps(w: World, t: TaskId, manifest: Manifest)
    requires Inv(w) && Enabled(w, Create(t, manifest))
    ensures Inv(Next(w, Create(t, manifest)))
  {
    if manifest.id in w.apps {
      EndKeeps(w, t, Refused(ApplicationExists));
    } else {
      CreatedKeeps(w, manifest);
      EndKeeps(CreatedTables(w, manifest), t, Completed(None));
    }
  }

  ghost function CreatedTables(w: World, manifest: Manifest): World {
    w.(apps := w.apps[manifest.id := Record(manifest, manifest.enabled)],
       rows := w.rows[manifest.id := Row(w.nextId, if manifest.enabled then Stopped else Disabled)],
       audit := w.audit + [AuditEvent(manifest.id, "application.create", true, None)],
       nextId := w.nextId + 1)
  }

  lemma NoRecordNoFlight(w: World, app: AppId)
    requires Flights(w) && app !in w.apps
    ensures forall u :: u in w.tasks && w.tasks[u].InFlight? ==> w.tasks[u].flight.app != app
  {
    forall u | u in w.tasks && w.tasks[u].InFlight?
      ensures w.tasks[u].flight.app != app
    {
      assert FlightOk(w, u, w.tasks[u].stage, w.tasks[u].flight);
    }
  }

  lemma CreatedKeeps(w: World, manifest: Manifest)
    requires Inv(w) && manifest.id !in w.apps
    ensures Inv(CreatedTables(w, manifest))
  {
    NoRecordNoFlight(w, manifest.id);
    RegistryKeeps(w, CreatedTables(w, manifest), manifest.id, AuditEvent(manifest.id, "application.create", true, None));
  }

  lemma UpdateKeeps(w: World, t: TaskId, manifest: Manifest)
    requires Inv(w) && t in w.tasks && w.tasks[t].Waiting? && w.tasks[t].request == UpdateRequest(manifest)
    requires w.tasks[t].app !in w.locks
    ensures Inv(Acquired(w, t, true)) && Inv(Acquired(w, t, false))
  {
    var app := w.tasks[t].app;
    EndKeeps(w, t, Refused(IdMismatch));
    EndKeeps(w, t, Refused(AppNotFound));
    EndKeeps(w, t, Refused(ApplicationActive));
    if app in w.apps {
      FreeLockNoFlight(w, app);
      var e := AuditEvent(app, "application.update", true, None);
      var w1 := w.(apps := w.apps[app := Record(manifest, manifest.enabled)], audit := w.audit + [e]);
      RegistryKeeps(w, w1, app, e);
      EndKeeps(w1, t, Completed(None));
    }
  }

  lemma DeleteKeeps(w: World, t: TaskId)
    requires Inv(w) && t in w.tasks && w.tasks[t].Waiting? && w.tasks[t].request == DeleteRequest
    requires w.tasks[t].app !in w.locks
    ensures Inv(Acquired(w, t, true)) && Inv(Acquired(w, t, false))
  {
    var app := w.tasks[t].app;
    EndKeeps(w, t, Refused(AppNotFound));
    EndKeeps(w, t, Refused(ApplicationActive));
    if app in w.apps {
      FreeLockNoFlight(w, app);
      var e := AuditEvent(app, "application.delete", true, None);
      var w1 := w.(apps := w.apps - {app}, rows := w.rows - {app}, audit := w.audit + [e]);
      RegistryKeeps(w, w1, app, e);
      EndKeeps(w1, t, Completed(None));
    }
  }

  lemma ActionKeeps(w: World, t: TaskId, action: Action, pathsValid: bool)
    requires Inv(w) && t in w.tasks && w.tasks[t].Waiting? && w.tasks[t].request == ActionRequest(action)
    requires w.tasks[t].app !in w.locks
    ensures Inv(Acquired(w, t, pathsValid))
  {
    var app := w.tasks[t].app;
    match ActionRefusal(w, app, action, pathsValid)
    case Some(code) => EndKeeps(w, t, Refused(code));
    case None =>
      var f := Flight(app, action, w.apps[app].manifest, w.rows[app].status, w.rows[app], w.nextId);
      EnterKeeps(w, t, f);
      if action == Stop {
        IssueCallKeeps(Enter(w, t, f), t, f);
      }
  }

  lemma StatusAcquireKeeps(w: World, t: TaskId)
    requires Inv(w) && t in w.tasks && w.tasks[t].StatusWaiting? && w.tasks[t].app !in w.locks
    ensures Inv(Acquired(w, t, true)) && Inv(Acquired(w, t, false))
  {
    StatusAcquireKeepsTables(w, t);
    StatusAcquireKeepsFlights(w, t);
    var w' := Acquired(w, t, true);
    assert TaskCalls(w, t);
    MoveKeepsBooks(w, w', t);
    MoveKeepsCalls(w, w', t);
  }

  lemma StatusAcquireKeepsTables(w: World, t: TaskId)
    requires Inv(w) && t in w.tasks && w.tasks[t].StatusWaiting? && w.tasks[t].app !in w.locks
    ensures Locking(Acquired(w, t, true)) && Identity(Acquired(w, t, true)) && Persisted(Acquired(w, t, true))
  {
  }

  lemma StatusAcquireKeepsFlights(w: World, t: TaskId)
    requires Inv(w) && t in w.tasks && w.tasks[t].StatusWaiting? && w.tasks[t].app !in w.locks
    ensures Flights(Acquired(w, t, true))
  {
    var w' := Acquired(w, t, true);
    forall u | u in w'.tasks && w'.tasks[u].InFlight?
      ensures FlightOk(w', u, w'.tasks[u].stage, w'.tasks[u].flight)
    {
      assert FlightOk(w, u, w.tasks[u].stage, w.tasks[u].flight);
    }
  }

  lemma AcquireKeeps(w: World, t: TaskId, pathsValid: bool)
    requires Inv(w) && Enabled(w, Acquire(t, pathsValid))
    ensures Inv(Next(w, Acquire(t, pathsValid)))
  {
    match w.tasks[t]
    case StatusWaiting(_, _) => StatusAcquireKeeps(w, t);
    case Waiting(_, ActionRequest(action)) => ActionKeeps(w, t, action, pathsValid);
    case Waiting(_, UpdateRequest(manifest)) => UpdateKeeps(w, t, manifest);
    case Waiting(_, DeleteRequest) => DeleteKeeps(w, t);
    case Waiting(app, ConsistencyRequest) =>
      EndKeeps(w, t, if app in w.apps then Completed(None) else Refused(AppNotFound));
  }

  lemma StepKeeps(w: World, e: Event)
    requires Inv(w) && Enabled(w, e)
    ensures Inv(Next(w, e))
  {
    match e
    case Arrive(_, _, _) => ArrivalKeeps(w, e);
    case ArriveRegistry(_, _, _) => ArrivalKeeps(w, e);
    case ArriveStatus(_, _, _) => ArrivalKeeps(w, e);
    case Create(t, manifest) => CreateKeeps(w, t, manifest);
    case Acquire(t, pathsValid) => AcquireKeeps(w, t, pathsValid);
    case ScanAnswered(t, scan) => ScanKeeps(w, t, scan);
    case CallAnswered(t, succeeded) => CallAnsweredKeeps(w, t, succeeded);
    case ReadingAnswered(t, reading) => ReadingKeeps(w, t, reading);
  }

  lemma {:induction false} RunKeeps(events: seq<Event>)
    ensures Run(EMPTY, events).Some? ==> Inv(Run(EMPTY, events).value)
  {
    if events == [] {
    } else {
      RunKeeps(events[..|events| - 1]);
      var before := Run(EMPTY, events[..|events| - 1]);
      if before.Some? && Enabled(before.value, events[|events| - 1]) {
        StepKeeps(before.value, events[|events| - 1]);
      }
    }
  }

  /** The invariant holds in every world reachable from an empty database. */
  lemma ReachableInv(w: World)
    requires Reachable(w)
    ensures Inv(w)
  {
    var events :| Run(EMPTY, events) == Some(w);
    RunKeeps(events);
  }
}
