/** The status table of backend/app/orchestration/state_machine.py and the status
    mappings of the two adapters in backend/app/adapters/runtime.py. */
module Runtime {
  import opened Common

  datatype Status =
    | Stopped | Queued | Checking | Starting | Running | Unhealthy | Stopping | Failed | Unknown | Disabled

  function AllowedTransitions(from: Status): set<Status> {
    match from
    case Stopped => {Checking, Disabled}
    case Checking => {Starting, Queued, Failed, Stopped}
    case Queued => {Checking, Stopped}
    case Starting => {Running, Unhealthy, Failed, Stopped}
    case Running => {Starting, Stopping, Unhealthy, Failed, Unknown}
    case Unhealthy => {Running, Starting, Stopping, Failed}
    case Stopping => {Stopped, Failed}
    case Failed => {Checking, Stopping, Stopped}
    case Unknown => {Checking, Running, Stopping, Stopped, Failed}
    case Disabled => {Stopped}
  }

  /** require_transition returns instead of raising. */
  predicate MayTransition(current: Status, target: Status) {
    current == target || target in AllowedTransitions(current)
  }

  datatype Container = Container(state: string, health: string, exitCode: int)

  /** What `systemctl show` or `docker compose ps` told the adapter. */
  datatype Reading =
    | CommandFailed
    | Systemd(activeState: Option<string>)
    | ComposeSilent
    | ComposeGarbled
    | Compose(containers: seq<Container>)

  /** No adapter ever reports one of the statuses only the service writes. */
  function Classify(reading: Reading): (status: Status)
    ensures status !in {Checking, Queued, Disabled}
  {
    match reading
    case CommandFailed => Unknown
    case Systemd(active) =>
      if active == Some("active") then Running
      else if active == Some("deactivating") then Stopping
      else if active == Some("activating") then Starting
      else if active == Some("inactive") then Stopped
      else if active == Some("failed") then Failed
      else Unknown
    case ComposeSilent => Stopped
    case ComposeGarbled => Unknown
    case Compose(containers) =>
      var states := set c | c in containers :: c.state;
      var healths := set c | c in containers :: c.health;
      if exists c :: c in containers && (c.state == "dead" || c.state == "failed" || c.exitCode != 0) then Failed
      else if "unhealthy" in healths then Unhealthy
      else if states != {} && states <= {"running"} then Running
      else if states <= {"exited", "created", "stopped"} then Stopped
      else Unknown
  }

  predicate Broken(c: Container) {
    c.state == "dead" || c.state == "failed" || c.exitCode != 0
  }

  /** What makes an adapter report each status; everything else is UNKNOWN. */
  lemma ReportedStatuses(reading: Reading)
    ensures Classify(reading) == Starting <==> reading == Systemd(Some("activating"))
    ensures Classify(reading) == Stopping <==> reading == Systemd(Some("deactivating"))
    ensures Classify(reading) == Running <==>
            || reading == Systemd(Some("active"))
            || (reading.Compose? && reading.containers != []
                && forall c :: c in reading.containers ==> c.state == "running" && c.exitCode == 0 && c.health != "unhealthy")
    ensures Classify(reading) == Failed <==>
            reading == Systemd(Some("failed")) || (reading.Compose? && exists c :: c in reading.containers && Broken(c))
    ensures Classify(reading) == Unhealthy <==>
            && reading.Compose? && (forall c :: c in reading.containers ==> !Broken(c))
            && exists c :: c in reading.containers && c.health == "unhealthy"
    ensures Classify(reading) == Stopped <==>
            || reading == Systemd(Some("inactive")) || reading == ComposeSilent
            || (reading.Compose? && forall c :: c in reading.containers ==>
                  !Broken(c) && c.health != "unhealthy" && c.state in {"exited", "created", "stopped"})
  {
    if reading.Compose? {
      ReportedByCompose(reading.containers);
    }
  }

  lemma ReportedByCompose(containers: seq<Container>)
    ensures var status := Classify(Compose(containers));
            && status !in {Starting, Stopping}
            && (status == Failed <==> exists c :: c in containers && Broken(c))
            && (status == Unhealthy <==> (forall c :: c in containers ==> !Broken(c)) && exists c :: c in containers && c.health == "unhealthy")
            && (status == Running <==> containers != [] && forall c :: c in containers ==>
                  c.state == "running" && c.exitCode == 0 && c.health != "unhealthy")
            && (status == Stopped <==> forall c :: c in containers ==>
                  !Broken(c) && c.health != "unhealthy" && c.state in {"exited", "created", "stopped"})
  {
    var states := set c | c in containers :: c.state;
    var healths := set c | c in containers :: c.health;
    assert "unhealthy" in healths <==> exists c :: c in containers && c.health == "unhealthy";
    assert forall c :: c in containers ==> c.state in states;
    if containers != [] {
      assert containers[0].state in states;
    }
  }
}
