/** The install and upgrade transaction of scripts/machinedeck_deploy.py: `deploy` with its
    exception handler, over a file system in which any forward step may fail. */
module Deploy {
  import opened Common

  type Name = string      // a directory under releases/
  type Bytes = string

  /** The SQLite files. Pages still in the write-ahead log override the main file. */
  datatype Database = Database(main: Option<Bytes>, wal: Option<Bytes>)

  /** What a reader of the database sees. */
  function Content(db: Database): Option<Bytes> {
    if db.main.Some? && db.wal.Some? then db.wal else db.main
  }

  const MARKER := ".installing"
  const VERSION := "VERSION"
  const VERIFICATION_UNIT := "machinedeck.service"

  /** The files of one installation. `current` is the symlink, as the release it names. */
  datatype Files = Files(
    current: Option<Name>,
    unit: Option<Bytes>,
    config: Option<Bytes>,
    database: Database,
    releases: map<Name, set<string>>,     // directory entries of each release
    backups: seq<Bytes>)

  /** `current` is absent or names an existing release whose installation completed. */
  predicate PointerOk(f: Files) {
    f.current.Some? ==> f.current.value in f.releases && MARKER !in f.releases[f.current.value]
  }

  /** Everything the rollback owes: pointer, unit, configuration, database contents, releases. */
  predicate Restored(entry: Files, now: Files) {
    && now.current == entry.current
    && now.unit == entry.unit
    && now.config == entry.config
    && Content(now.database) == Content(entry.database)
    && now.releases == entry.releases
  }

  /** The forward steps that may raise, in order. */
  datatype Step =
    | MakeDirectory | WriteMarker | CopySource | CreateVenv | PipInstall | WriteVersion
    | WriteVerificationUnit | VerifyUnit | DropVerificationUnit | WriteConfig
    | ProbeService | StopService | BackupDatabase | MigrateDatabase | ProtectDatabase
    | DropMarker | SwitchCurrent | ReadConfig | WriteUnit | ReloadDaemon | EnableLinger | EnableService | WaitForHealth

  datatype Command = Stop | DisableNow | Reload | Start | EnableNow

  /** What the outside answers: which steps raise, and what foreign commands leave behind. */
  datatype Outside = Outside(
    fails: Step -> bool,
    preflight: bool,           // platform, source, paths, port and environment checks
    active: bool,              // systemctl is-active
    copied: set<string>,       // what copying and pip put into the release, complete or not
    migrated: Database,        // the database after alembic, complete or not
    served: Database)          // the database after the new service ran

  datatype Result =
    | Refused                                  // raised before the transaction began
    | AlreadyInstalled(release: Name)
    | Installed(release: Name)
    | RolledBack(failed: Step)

  /** The flags the handler reads. */
  datatype Progress = Progress(stopped: bool, switched: bool, backup: Option<nat>)

  // Where a run fails first, phase by phase.

  function BuildFailure(o: Outside): Option<Step> {
    if o.fails(MakeDirectory) then Some(MakeDirectory)
    else if o.fails(WriteMarker) then Some(WriteMarker)
    else if o.fails(CopySource) then Some(CopySource)
    else if o.fails(CreateVenv) then Some(CreateVenv)
    else if o.fails(PipInstall) then Some(PipInstall)
    else None
  }

  function DescribeFailure(o: Outside): Option<Step> {
    if o.fails(WriteVersion) then Some(WriteVersion)
    else if o.fails(WriteVerificationUnit) then Some(WriteVerificationUnit)
    else if o.fails(VerifyUnit) then Some(VerifyUnit)
    else if o.fails(DropVerificationUnit) then Some(DropVerificationUnit)
    else None
  }

  function ConfigFailure(o: Outside, configured: bool): Option<Step> {
    if !configured && o.fails(WriteConfig) then Some(WriteConfig) else None
  }

  function MigrateFailure(o: Outside, hadRelease: bool): Option<Step> {
    if hadRelease && o.fails(ProbeService) then Some(ProbeService)
    else if hadRelease && o.active && o.fails(StopService) then Some(StopService)
    else if o.fails(BackupDatabase) then Some(BackupDatabase)
    else if o.fails(MigrateDatabase) then Some(MigrateDatabase)
    else if o.fails(ProtectDatabase) then Some(ProtectDatabase)
    else None
  }

  function PublishFailure(o: Outside): Option<Step> {
    if o.fails(DropMarker) then Some(DropMarker)
    else if o.fails(SwitchCurrent) then Some(SwitchCurrent)
    else None
  }

  function StartFailure(o: Outside, enableLinger: bool, start: bool): Option<Step> {
    if o.fails(ReadConfig) then Some(ReadConfig)
    else if o.fails(WriteUnit) then Some(WriteUnit)
    else if o.fails(ReloadDaemon) then Some(ReloadDaemon)
    else if enableLinger && o.fails(EnableLinger) then Some(EnableLinger)
    else if start && o.fails(EnableService) then Some(EnableService)
    else if start && o.fails(WaitForHealth) then Some(WaitForHealth)
    else None
  }

  function Earlier(first: Option<Step>, later: Option<Step>): Option<Step> {
    if first.Some? then first else later
  }

  function PreparationFailure(o: Outside, configured: bool): Option<Step> {
    Earlier(BuildFailure(o), Earlier(DescribeFailure(o), ConfigFailure(o, configured)))
  }

  function ActivationFailure(o: Outside, enableLinger: bool, start: bool): Option<Step> {
    Earlier(PublishFailure(o), StartFailure(o, enableLinger, start))
  }

  /** The step at which the transaction raises, if any. */
  function FirstFailing(o: Outside, configured: bool, hadRelease: bool, enableLinger: bool, start: bool): (r: Option<Step>)
    ensures r.Some? ==> o.fails(r.value)
  {
    Earlier(PreparationFailure(o, configured),
            Earlier(MigrateFailure(o, hadRelease), ActivationFailure(o, enableLinger, start)))
  }

  /** Does the transaction get so far as to stop a running old service? */
  predicate ReachesStop(o: Outside, configured: bool, hadRelease: bool) {
    && PreparationFailure(o, configured).None?
    && hadRelease && !o.fails(ProbeService) && o.active && !o.fails(StopService)
  }

  // The steps in the order in which the transaction comes to them.
  const BUILD := [MakeDirectory, WriteMarker, CopySource, CreateVenv, PipInstall]
  const DESCRIBE := [WriteVersion, WriteVerificationUnit, VerifyUnit, DropVerificationUnit]
  const STOP_AND_MIGRATE := [ProbeService, StopService, BackupDatabase, MigrateDatabase, ProtectDatabase]
  const PUBLISH := [DropMarker, SwitchCurrent]
  const START := [ReadConfig, WriteUnit, ReloadDaemon, EnableLinger, EnableService, WaitForHealth]
  const PREPARE := BUILD + (DESCRIBE + [WriteConfig])
  const UP_TO_STOP := PREPARE + [ProbeService, StopService]
  const ALL_STEPS := PREPARE + (STOP_AND_MIGRATE + (PUBLISH + START))

  /** Is the step taken at all? */
  predicate Taken(step: Step, o: Outside, configured: bool, hadRelease: bool, enableLinger: bool, start: bool) {
    && (step.WriteConfig? ==> !configured)
    && (step.ProbeService? ==> hadRelease)
    && (step.StopService? ==> hadRelease && o.active)
    && (step.EnableLinger? ==> enableLinger)
    && (step.EnableService? || step.WaitForHealth? ==> start)
  }

  /** Does the run raise at this step when it comes to it? */
  function Raises(o: Outside, configured: bool, hadRelease: bool, enableLinger: bool, start: bool): Step -> bool {
    step => Taken(step, o, configured, hadRelease, enableLinger, start) && o.fails(step)
  }

  /** r is the first of the steps that raises, or None when none of them does. */
  ghost predicate IsFirst(r: Option<Step>, steps: seq<Step>, raises: Step -> bool) {
    match r
    case Some(first) =>
      exists k :: 0 <= k < |steps| && steps[k] == first && raises(first) && forall i :: 0 <= i < k ==> !raises(steps[i])
    case None => forall i :: 0 <= i < |steps| ==> !raises(steps[i])
  }

  lemma IsFirstAt(r: Option<Step>, steps: seq<Step>, raises: Step -> bool, k: nat)
    requires k < |steps| && r == Some(steps[k]) && raises(steps[k]) && forall i :: 0 <= i < k ==> !raises(steps[i])
    ensures IsFirst(r, steps, raises)
  {
  }

  lemma EarlierIsFirst(a: Option<Step>, b: Option<Step>, front: seq<Step>, rest: seq<Step>, raises: Step -> bool)
    requires IsFirst(a, front, raises) && IsFirst(b, rest, raises)
    ensures IsFirst(Earlier(a, b), front + rest, raises)
  {
    if a.Some? {
      var k :| 0 <= k < |front| && front[k] == a.value && raises(a.value) && forall i :: 0 <= i < k ==> !raises(front[i]);
      IsFirstAt(a, front + rest, raises, k);
    } else if b.Some? {
      var k :| 0 <= k < |rest| && rest[k] == b.value && raises(b.value) && forall i :: 0 <= i < k ==> !raises(rest[i]);
      IsFirstAt(b, front + rest, raises, |front| + k);
    }
  }

  lemma BuildIsFirst(o: Outside, raises: Step -> bool)
    requires forall i :: 0 <= i < |BUILD| ==> (raises(BUILD[i]) <==> o.fails(BUILD[i]))
    ensures IsFirst(BuildFailure(o), BUILD, raises)
  {
    var r := BuildFailure(o);
    assert r == None || r == Some(BUILD[0]) || r == Some(BUILD[1])
        || r == Some(BUILD[2]) || r == Some(BUILD[3]) || r == Some(BUILD[4]);
    if r.Some? {
      var k :| 0 <= k < |BUILD| && BUILD[k] == r.value;
      IsFirstAt(r, BUILD, raises, k);
    }
  }

  lemma DescribeIsFirst(o: Outside, raises: Step -> bool)
    requires forall i :: 0 <= i < |DESCRIBE| ==> (raises(DESCRIBE[i]) <==> o.fails(DESCRIBE[i]))
    ensures IsFirst(DescribeFailure(o), DESCRIBE, raises)
  {
    var r := DescribeFailure(o);
    assert r == None || r == Some(DESCRIBE[0]) || r == Some(DESCRIBE[1])
        || r == Some(DESCRIBE[2]) || r == Some(DESCRIBE[3]);
    if r.Some? {
      var k :| 0 <= k < |DESCRIBE| && DESCRIBE[k] == r.value;
      IsFirstAt(r, DESCRIBE, raises, k);
    }
  }

  lemma PublishIsFirst(o: Outside, raises: Step -> bool)
    requires forall i :: 0 <= i < |PUBLISH| ==> (raises(PUBLISH[i]) <==> o.fails(PUBLISH[i]))
    ensures IsFirst(PublishFailure(o), PUBLISH, raises)
  {
    var r := PublishFailure(o);
    assert r == None || r == Some(PUBLISH[0]) || r == Some(PUBLISH[1]);
    if r.Some? {
      var k :| 0 <= k < |PUBLISH| && PUBLISH[k] == r.value;
      IsFirstAt(r, PUBLISH, raises, k);
    }
  }

  lemma MigrateIsFirst(o: Outside, configured: bool, hadRelease: bool, enableLinger: bool, start: bool, raises: Step -> bool)
    requires forall i :: 0 <= i < |STOP_AND_MIGRATE| ==> (raises(STOP_AND_MIGRATE[i]) <==> Taken(STOP_AND_MIGRATE[i], o, configured, hadRelease, enableLinger, start) && o.fails(STOP_AND_MIGRATE[i]))
    ensures IsFirst(MigrateFailure(o, hadRelease), STOP_AND_MIGRATE, raises)
  {
    var r := MigrateFailure(o, hadRelease);
    assert r == None || r == Some(STOP_AND_MIGRATE[0]) || r == Some(STOP_AND_MIGRATE[1])
        || r == Some(STOP_AND_MIGRATE[2]) || r == Some(STOP_AND_MIGRATE[3]) || r == Some(STOP_AND_MIGRATE[4]);
    if r.Some? {
      var k :| 0 <= k < |STOP_AND_MIGRATE| && STOP_AND_MIGRATE[k] == r.value;
      IsFirstAt(r, STOP_AND_MIGRATE, raises, k);
    }
  }

  lemma StartIsFirst(o: Outside, configured: bool, hadRelease: bool, enableLinger: bool, start: bool, raises: Step -> bool)
    requires forall i :: 0 <= i < |START| ==> (raises(START[i]) <==> Taken(START[i], o, configured, hadRelease, enableLinger, start) && o.fails(START[i]))
    ensures IsFirst(StartFailure(o, enableLinger, start), START, raises)
  {
    var r := StartFailure(o, enableLinger, start);
    assert r == None || r == Some(START[0]) || r == Some(START[1]) || r == Some(START[2])
        || r == Some(START[3]) || r == Some(START[4]) || r == Some(START[5]);
    if r.Some? {
      var k :| 0 <= k < |START| && START[k] == r.value;
      IsFirstAt(r, START, raises, k);
    }
  }

  lemma PreparationIsFirst(o: Outside, configured: bool, hadRelease: bool, enableLinger: bool, start: bool)
    ensures IsFirst(PreparationFailure(o, configured), PREPARE, Raises(o, configured, hadRelease, enableLinger, start))
  {
    var raises := Raises(o, configured, hadRelease, enableLinger, start);
    BuildIsFirst(o, raises);
    DescribeIsFirst(o, raises);
    assert [WriteConfig][0] == WriteConfig;
    EarlierIsFirst(DescribeFailure(o), ConfigFailure(o, configured), DESCRIBE, [WriteConfig], raises);
    EarlierIsFirst(BuildFailure(o), Earlier(DescribeFailure(o), ConfigFailure(o, configured)), BUILD, DESCRIBE + [WriteConfig], raises);
  }

  /** The step at which the transaction raises is the first of the taken steps that fails. */
  lemma FirstFailingIsFirst(o: Outside, configured: bool, hadRelease: bool, enableLinger: bool, start: bool)
    ensures IsFirst(FirstFailing(o, configured, hadRelease, enableLinger, start), ALL_STEPS,
                    Raises(o, configured, hadRelease, enableLinger, start))
  {
    var raises := Raises(o, configured, hadRelease, enableLinger, start);
    PreparationIsFirst(o, configured, hadRelease, enableLinger, start);
    MigrateIsFirst(o, configured, hadRelease, enableLinger, start, raises);
    PublishIsFirst(o, raises);
    StartIsFirst(o, configured, hadRelease, enableLinger, start, raises);
    var activate := Earlier(PublishFailure(o), StartFailure(o, enableLinger, start));
    EarlierIsFirst(PublishFailure(o), StartFailure(o, enableLinger, start), PUBLISH, START, raises);
    EarlierIsFirst(MigrateFailure(o, hadRelease), activate, STOP_AND_MIGRATE, PUBLISH + START, raises);
    EarlierIsFirst(PreparationFailure(o, configured), Earlier(MigrateFailure(o, hadRelease), activate), PREPARE,
                   STOP_AND_MIGRATE + (PUBLISH + START), raises);
  }

  /** The stop is reached exactly when there is a running old service and no taken step up to its stop fails. */
  lemma StopIsReachedIff(o: Outside, configured: bool, hadRelease: bool, enableLinger: bool, start: bool)
    ensures ReachesStop(o, configured, hadRelease) <==>
            hadRelease && o.active
            && forall i :: 0 <= i < |UP_TO_STOP| ==> !Raises(o, configured, hadRelease, enableLinger, start)(UP_TO_STOP[i])
  {
    var raises := Raises(o, configured, hadRelease, enableLinger, start);
    PreparationIsFirst(o, configured, hadRelease, enableLinger, start);
    assert UP_TO_STOP == PREPARE + [ProbeService, StopService];
    assert Taken(ProbeService, o, configured, hadRelease, enableLinger, start) <==> hadRelease;
    assert Taken(StopService, o, configured, hadRelease, enableLinger, start) <==> hadRelease && o.active;
    assert UP_TO_STOP[|PREPARE|] == ProbeService && UP_TO_STOP[|PREPARE| + 1] == StopService;
    assert forall i :: 0 <= i < |PREPARE| ==> UP_TO_STOP[i] == PREPARE[i];
  }

  /** What every forward step keeps true, so that the handler can undo it. */
  ghost predicate Recoverable(entry: Files, now: Files, p: Progress, release: Name) {
    && release !in entry.releases
    && now.current == (if p.switched then Some(release) else entry.current)
    && now.releases - {release} == entry.releases
    && (entry.config.Some? ==> now.config == entry.config)
    && entry.backups <= now.backups
    && (match p.backup
        case Some(b) => b < |now.backups| && entry.database.main.Some? && Some(now.backups[b]) == Content(entry.database)
        case None => entry.database.main.Some? ==> now.database == entry.database)
  }

  /** The pointer was sound in each of these states. */
  ghost predicate AllSound(states: seq<Files>) {
    states == [] || (AllSound(states[..|states| - 1]) && PointerOk(states[|states| - 1]))
  }

  lemma {:induction false} AllSoundMeansEach(states: seq<Files>, i: nat)
    requires AllSound(states) && i < |states|
    ensures PointerOk(states[i])
  {
    if i == |states| - 1 {
    } else {
      AllSoundMeansEach(states[..|states| - 1], i);
    }
  }

  /** The preflight fails, an upgrade finds nothing to upgrade, or the name belongs to a finished or current release. */
  predicate IsRefused(upgrade: bool, release: Name, o: Outside, f: Files) {
    || !o.preflight
    || (upgrade && f.current.None?)
    || (upgrade == f.current.Some? && release in f.releases && (MARKER !in f.releases[release] || Some(release) == f.current))
  }

  /** The service commands of an installation that succeeds, over its files. */
  ghost function Launch(f: Files, start: bool): seq<(Command, Files)> {
    [(Reload, f)] + (if start then [(EnableNow, f)] else [])
  }

  /** From position `first` on: whatever the new release issued, then the service down, and over the restored
      files a reload and, if this run had stopped it, the start of the old service. */
  ghost predicate Undone(commands: seq<(Command, Files)>, first: nat, firstInstall: bool, stopped: bool, restored: Files) {
    var last := |commands| - (if stopped then 3 else 2);
    && first <= last && (forall i :: first <= i < last ==> commands[i].0 in {Reload, EnableNow})
    && commands[last].0 == (if firstInstall then DisableNow else Stop)
    && commands[last + 1] == (Reload, restored)
    && (stopped ==> commands[last + 2] == (Start, restored))
  }

  /** Files that differ from these only in what building a release changes. */
  predicate OnlyBuilt(entry: Files, f: Files) {
    f == entry.(releases := f.releases, config := f.config)
  }

  /** A running old service is stopped before database and backups are touched, exactly when the stop is
      reached; a new version is launched over its files; a failed one is undone. */
  ghost predicate InOrder(before: seq<(Command, Files)>, after: seq<(Command, Files)>, entry: Files, now: Files,
                          stops: bool, o: Outside, start: bool, r: Result)
  {
    var first := |before| + (if stops then 1 else 0);
    && before <= after && first <= |after|
    && (stops ==> after[|before|].0 == Stop && OnlyBuilt(entry, after[|before|].1))
    && (r.Installed? ==> after[first..] == Launch(now.(database := o.migrated), start))
    && (r.RolledBack? ==> Undone(after, first, entry.current.None?, stops, now))
  }

  /** The commands of the try block: the stop, if it is reached, over the files as they were but for the built
      release; then, up to a failure, those of the launch. */
  ghost predicate Issued(before: seq<(Command, Files)>, after: seq<(Command, Files)>, entry: Files, now: Files,
                         stops: bool, o: Outside, start: bool, failed: Option<Step>)
  {
    var first := |before| + (if stops then 1 else 0);
    && before <= after && first <= |after|
    && (stops ==> after[|before|].0 == Stop && OnlyBuilt(entry, after[|before|].1))
    && (failed.Some? ==> forall i :: first <= i < |after| ==> after[i].0 in {Reload, EnableNow})
    && (failed.None? ==> after[first..] == Launch(now.(database := o.migrated), start))
  }

  /** Everything is the new version, and what the database held is backed up. */
  ghost predicate NewVersion(entry: Files, now: Files, release: Name, o: Outside, newConfig: Bytes, newUnit: Bytes, start: bool) {
    && now.current == Some(release)
    && release in now.releases && now.releases - {release} == entry.releases
    && now.releases[release] == o.copied + {VERSION} - {MARKER, VERIFICATION_UNIT}
    && now.unit == Some(newUnit)
    && now.config == (if entry.config.Some? then entry.config else Some(newConfig))
    && now.database == (if start then o.served else o.migrated)
    && now.backups == entry.backups + (if entry.database.main.Some? then [Content(entry.database).value] else [])
  }

  class Host {
    var current: Option<Name>
    var unit: Option<Bytes>
    var config: Option<Bytes>
    var database: Database
    var releases: map<Name, set<string>>
    var backups: seq<Bytes>
    var running: bool                              // the machinedeck service
    ghost var history: seq<Files>                  // every state the files went through
    ghost var commands: seq<(Command, Files)>      // service commands, with the files they ran over

    ghost function Now(): Files
      reads this
    {
      Files(current, unit, config, database, releases, backups)
    }

    /** The pointer was sound in every state so far, the present one included. */
    ghost predicate Sound()
      reads this
    {
      PointerOk(Now()) && AllSound(history)
    }

    ghost method Record()
      modifies this`history
      ensures history == old(history) + [Now()]
      ensures AllSound(history) <==> AllSound(old(history)) && PointerOk(Now())
    {
      assert (history + [Now()])[..|history|] == history;
      history := history + [Now()];
    }

    /** Change entries of a release that is being built. */
    method Fill(release: Name, entries: set<string>)
      modifies this`releases, this`history
      ensures releases == old(releases)[release := entries]
      ensures old(Sound()) && (current != Some(release) || MARKER !in entries) ==> Sound()
    {
      releases := releases[release := entries];
      Record();
    }

    /** _switch_current: a temporary symlink renamed over the pointer. */
    method PointCurrent(release: Name)
      modifies this`current, this`history
      ensures current == Some(release)
      ensures old(Sound()) && release in releases && MARKER !in releases[release] ==> Sound()
    {
      current := Some(release);
      Record();
    }

    /** Run a service command; its effect on the service is taken as asked. */
    method Command(c: Command)
      modifies this`running, this`commands
      ensures running == (c == Start || c == EnableNow || (c == Reload && old(running)))
      ensures commands == old(commands) + [(c, Now())]
    {
      commands := commands + [(c, Now())];
      running := if c == Start || c == EnableNow then true else if c == Reload then running else false;
    }

    // ------------------------------------------------------------ the forward steps

    /** From mkdir to pip: the marker keeps the directory recognisable as unfinished. */
    method Populate(release: Name, o: Outside) returns (failed: Option<Step>)
      requires release !in releases
      modifies this`releases, this`history
      ensures old(Sound()) ==> Sound()
      ensures releases - {release} == old(releases)
      ensures failed.None? ==> release in releases && releases[release] == {MARKER} + o.copied
      ensures failed == BuildFailure(o)
    {
      if o.fails(MakeDirectory) { return Some(MakeDirectory); }
      Fill(release, {});
      if o.fails(WriteMarker) { return Some(WriteMarker); }
      Fill(release, {MARKER});
      // A copy that fails part-way leaves what it had copied.
      Fill(release, {MARKER} + o.copied);
      if o.fails(CopySource) { return Some(CopySource); }
      if o.fails(CreateVenv) { return Some(CreateVenv); }
      if o.fails(PipInstall) { return Some(PipInstall); }
      return None;
    }

    /** VERSION, and the unit text that systemd verifies before it is thrown away. */
    method Describe(release: Name, o: Outside) returns (failed: Option<Step>)
      requires release in releases
      modifies this`releases, this`history
      ensures old(Sound()) && current != Some(release) ==> Sound()
      ensures release in releases && releases - {release} == old(releases) - {release}
      ensures failed.None? ==> releases[release] == old(releases)[release] + {VERSION} - {VERIFICATION_UNIT}
      ensures failed == DescribeFailure(o)
    {
      if o.fails(WriteVersion) { return Some(WriteVersion); }
      Fill(release, releases[release] + {VERSION});
      if o.fails(WriteVerificationUnit) { return Some(WriteVerificationUnit); }
      Fill(release, releases[release] + {VERIFICATION_UNIT});
      if o.fails(VerifyUnit) { return Some(VerifyUnit); }
      if o.fails(DropVerificationUnit) { return Some(DropVerificationUnit); }
      Fill(release, releases[release] - {VERIFICATION_UNIT});
      return None;
    }

    /** From mkdir to the configuration file: builds the release beside the running one. */
    method BuildRelease(release: Name, o: Outside, newConfig: Bytes) returns (failed: Option<Step>)
      requires release !in releases
      modifies this`releases, this`config, this`history
      ensures old(Sound()) ==> Sound()
      ensures releases - {release} == old(releases)
      ensures old(config).Some? ==> config == old(config)
      ensures failed.None? ==> release in releases && config == (if old(config).Some? then old(config) else Some(newConfig))
      ensures failed.None? ==> releases[release] == {MARKER} + o.copied + {VERSION} - {VERIFICATION_UNIT}
      ensures failed == PreparationFailure(o, old(config).Some?)
    {
      failed := Populate(release, o);
      if failed.Some? { return; }
      failed := Describe(release, o);
      if failed.Some? { return; }
      if config.None? {
        if o.fails(WriteConfig) { return Some(WriteConfig); }
        config := Some(newConfig);
        Record();
      }
    }

    /** Stop the old service, back the database up, migrate it. */
    method Migrate(hadRelease: bool, o: Outside) returns (failed: Option<Step>, stopped: bool, backup: Option<nat>)
      modifies this`running, this`database, this`backups, this`history, this`commands
      ensures old(Sound()) ==> Sound()
      // The stop comes first: over the files as they were on entry, and then nothing of the old service runs.
      ensures stopped ==> !running && commands == old(commands) + [(Stop, old(Now()))]
      ensures !stopped ==> running == old(running) && commands == old(commands)
      ensures old(backups) <= backups
      ensures failed.None? ==>
        backups == old(backups) + (if old(database).main.Some? then [Content(old(database)).value] else [])
      ensures stopped <==> hadRelease && !o.fails(ProbeService) && o.active && !o.fails(StopService)
      ensures failed.None? ==> database == o.migrated
      ensures failed.None? ==> (backup.Some? <==> old(database).main.Some?)
      // The backup is what a reader saw: the pages of the log before those of the main file.
      ensures match backup
              case Some(b) =>
                && b < |backups| && old(database).main.Some? && Some(backups[b]) == Content(old(database))
                && backups[b] == if old(database).wal.Some? then old(database).wal.value else old(database).main.value
              case None => old(database).main.Some? ==> database == old(database)
      ensures failed == MigrateFailure(o, hadRelease)
    {
      stopped, backup := false, None;
      if hadRelease && o.fails(ProbeService) { return Some(ProbeService), stopped, backup; }
      if hadRelease && o.active {
        if o.fails(StopService) { return Some(StopService), stopped, backup; }
        Command(Stop);
        stopped := true;
      }
      if o.fails(BackupDatabase) { return Some(BackupDatabase), stopped, backup; }
      if database.main.Some? {
        backups := backups + [Content(database).value];
        backup := Some(|backups| - 1);
        Record();
      }
      // A migration that fails may have changed the database already.
      database := o.migrated;
      Record();
      if o.fails(MigrateDatabase) { return Some(MigrateDatabase), stopped, backup; }
      if o.fails(ProtectDatabase) { return Some(ProtectDatabase), stopped, backup; }
      return None, stopped, backup;
    }

    /** Drop the marker, then move the pointer. */
    method Publish(release: Name, o: Outside) returns (failed: Option<Step>, switched: bool)
      requires release in releases
      modifies this`current, this`releases, this`history
      ensures old(Sound()) ==> Sound()
      ensures release in releases && releases - {release} == old(releases) - {release}
      ensures current == if switched then Some(release) else old(current)
      ensures failed.None? ==> releases[release] == old(releases)[release] - {MARKER}
      ensures failed == PublishFailure(o) && switched == failed.None?
    {
      if o.fails(DropMarker) { return Some(DropMarker), false; }
      Fill(release, releases[release] - {MARKER});
      if o.fails(SwitchCurrent) { return Some(SwitchCurrent), false; }
      PointCurrent(release);
      return None, true;
    }

    /** From the unit file to the health check. */
    method StartService(o: Outside, newUnit: Bytes, enableLinger: bool, start: bool) returns (failed: Option<Step>)
      modifies this`unit, this`database, this`running, this`history, this`commands
      ensures old(Sound()) ==> Sound()
      // systemd reloads, and starts the service, over the new unit.
      ensures old(commands) <= commands <= old(commands) + Launch(old(Now()).(unit := Some(newUnit)), start)
      ensures failed.None? ==> commands == old(commands) + Launch(old(Now()).(unit := Some(newUnit)), start)
      ensures failed.None? ==> running == (start || old(running))
      ensures failed.None? ==> unit == Some(newUnit) && database == if start then o.served else old(database)
      ensures failed == StartFailure(o, enableLinger, start)
    {
      if o.fails(ReadConfig) { return Some(ReadConfig); }
      if o.fails(WriteUnit) { return Some(WriteUnit); }
      unit := Some(newUnit);
      Record();
      if o.fails(ReloadDaemon) { return Some(ReloadDaemon); }
      Command(Reload);
      if enableLinger {
        // Asking for confirmation or enabling linger may raise.
        if o.fails(EnableLinger) { return Some(EnableLinger); }
      }
      if start {
        failed := EnableAndWait(o);
        return;
      }
      return None;
    }

    /** systemctl enable --now, then the health check; the service writes its database. */
    method EnableAndWait(o: Outside) returns (failed: Option<Step>)
      modifies this`database, this`running, this`history, this`commands
      ensures old(Sound()) ==> Sound()
      ensures running && database == o.served && commands == old(commands) + [(EnableNow, old(Now()))]
      ensures failed == if o.fails(EnableService) then Some(EnableService)
                        else if o.fails(WaitForHealth) then Some(WaitForHealth) else None
    {
      Command(EnableNow);
      database := o.served;
      Record();
      if o.fails(EnableService) { return Some(EnableService); }
      if o.fails(WaitForHealth) { return Some(WaitForHealth); }
      return None;
    }

    // ------------------------------------------------------------ the exception handler

    /** _restore_database: the logs go before the backup replaces the main file. */
    method RestoreDatabase(backup: nat)
      requires backup < |backups|
      modifies this`database, this`history
      ensures database == Database(Some(backups[backup]), None)
      // No state shows the restored main file beside a log of the migrated one.
      ensures old(history) < history && forall i :: |old(history)| <= i < |history| ==> history[i].database.wal.None?
      ensures old(Sound()) ==> Sound()
    {
      database := database.(wal := None);
      Record();
      database := database.(main := Some(backups[backup]));
      Record();
    }

    /** Put pointer, unit, database and configuration back, then remove the new release. */
    method RestoreFiles(ghost entry: Files, release: Name, p: Progress,
                        oldRelease: Option<Name>, oldUnit: Option<Bytes>, databaseExisted: bool, configExisted: bool)
      requires Recoverable(entry, Now(), p, release)
      requires oldRelease == entry.current && oldUnit == entry.unit
      requires databaseExisted == entry.database.main.Some? && configExisted == entry.config.Some?
      modifies this`current, this`unit, this`database, this`config, this`releases, this`history
      ensures Restored(entry, Now())
      ensures old(Sound()) && PointerOk(entry) ==> Sound()
    {
      RestorePointer(entry, release, p, oldRelease);
      unit := oldUnit;
      Record();
      RestoreData(p.backup, databaseExisted, configExisted);
      RemoveRelease(release);
    }

    /** Database and configuration: the backup back, or nothing where there was nothing. */
    method RestoreData(backup: Option<nat>, databaseExisted: bool, configExisted: bool)
      requires backup.Some? ==> backup.value < |backups|
      modifies this`database, this`config, this`history
      ensures database == if backup.Some? then Database(Some(backups[backup.value]), None)
                          else if !databaseExisted then Database(None, None) else old(database)
      ensures config == if configExisted then old(config) else None
      ensures old(Sound()) ==> Sound()
    {
      if backup.Some? {
        RestoreDatabase(backup.value);
      } else if !databaseExisted {
        database := Database(None, None);
        Record();
      }
      if !configExisted {
        config := None;
        Record();
      }
    }

    /** Both rmtree branches of the handler name the same directory. */
    method RemoveRelease(release: Name)
      modifies this`releases, this`history
      ensures releases == old(releases) - {release}
      ensures old(Sound()) && current != Some(release) ==> Sound()
    {
      if release in releases {
        releases := releases - {release};
        Record();
      }
    }

    /** The pointer leaves the new release before anything else is undone. */
    method RestorePointer(ghost entry: Files, release: Name, p: Progress, oldRelease: Option<Name>)
      requires oldRelease == entry.current && entry.releases == releases - {release} && release !in entry.releases
      requires current == if p.switched then Some(release) else entry.current
      modifies this`current, this`history
      ensures current == entry.current
      ensures old(Sound()) && PointerOk(entry) ==> Sound()
    {
      if p.switched {
        if oldRelease.Some? {
          PointCurrent(oldRelease.value);
        } else {
          current := None;
          Record();
        }
      }
    }

    /** The `except` block. */
    method RollBack(ghost entry: Files, release: Name, p: Progress,
                    oldRelease: Option<Name>, oldUnit: Option<Bytes>, databaseExisted: bool, configExisted: bool)
      requires Recoverable(entry, Now(), p, release)
      requires oldRelease == entry.current && oldUnit == entry.unit
      requires databaseExisted == entry.database.main.Some? && configExisted == entry.config.Some?
      modifies this
      ensures Restored(entry, Now()) && backups == old(backups)
      ensures old(Sound()) && PointerOk(entry) ==> Sound()
      ensures running == p.stopped
      // The service goes down first; systemd reloads and starts over what has been restored.
      ensures commands == old(commands) + [(if oldRelease.None? then DisableNow else Stop, old(Now())), (Reload, Now())]
                          + (if p.stopped then [(Start, Now())] else [])
    {
      Command(if oldRelease.None? then DisableNow else Stop);
      RestoreFiles(entry, release, p, oldRelease, oldUnit, databaseExisted, configExisted);
      Command(Reload);
      if p.stopped {
        Command(Start);
      }
    }

    // ------------------------------------------------------------ the transaction

    /** From dropping the marker to the health check. */
    method Activate(release: Name, o: Outside, newUnit: Bytes, enableLinger: bool, start: bool)
      returns (failed: Option<Step>, switched: bool)
      requires release in releases
      modifies this`current, this`releases, this`unit, this`database, this`running, this`history, this`commands
      ensures old(Sound()) ==> Sound()
      ensures release in releases && releases - {release} == old(releases) - {release}
      ensures current == if switched then Some(release) else old(current)
      ensures old(commands) <= commands
      ensures failed.Some? ==> forall i :: |old(commands)| <= i < |commands| ==> commands[i].0 in {Reload, EnableNow}
      ensures failed.None? ==> unit == Some(newUnit) && running == (start || old(running))
      ensures failed.None? ==> releases[release] == old(releases)[release] - {MARKER}
      ensures failed.None? ==> database == if start then o.served else old(database)
      ensures failed.None? ==>
        commands == old(commands) + Launch(old(Now()).(releases := releases, current := Some(release), unit := Some(newUnit)), start)
      ensures failed == ActivationFailure(o, enableLinger, start) && switched == PublishFailure(o).None?
    {
      failed, switched := Publish(release, o);
      if failed.Some? { return; }
      failed := StartService(o, newUnit, enableLinger, start);
    }

    /** The try block. */
    method Forward(release: Name, o: Outside, newConfig: Bytes, newUnit: Bytes, enableLinger: bool, start: bool)
      returns (failed: Option<Step>, p: Progress)
      requires release !in releases
      modifies this
      ensures old(Sound()) ==> Sound()
      ensures Recoverable(old(Now()), Now(), p, release)
      // The old service is stopped exactly when the stop is reached, before database and backups are touched.
      ensures p.stopped == ReachesStop(o, old(config).Some?, old(current).Some?)
      ensures Issued(old(commands), commands, old(Now()), Now(), p.stopped, o, start, failed)
      ensures failed.None? ==> running == (start || (old(running) && !p.stopped))
      ensures failed.None? ==> NewVersion(old(Now()), Now(), release, o, newConfig, newUnit, start)
      ensures failed == FirstFailing(o, old(config).Some?, old(current).Some?, enableLinger, start)
    {
      p := Progress(false, false, None);
      failed := BuildRelease(release, o, newConfig);
      if failed.None? {
        failed, p := Replace(release, o, newUnit, enableLinger, start);
      }
    }

    /** The try block once the release is built. */
    method Replace(release: Name, o: Outside, newUnit: Bytes, enableLinger: bool, start: bool)
      returns (failed: Option<Step>, p: Progress)
      requires release in releases
      modifies this`current, this`releases, this`unit, this`database, this`backups, this`running, this`history, this`commands
      ensures old(Sound()) ==> Sound()
      ensures release in releases && releases - {release} == old(releases) - {release}
      ensures current == (if p.switched then Some(release) else old(current)) && old(backups) <= backups
      ensures match p.backup
              case Some(b) => b < |backups| && old(database).main.Some? && Some(backups[b]) == Content(old(database))
              case None => old(database).main.Some? ==> database == old(database)
      ensures p.stopped <==> old(current).Some? && !o.fails(ProbeService) && o.active && !o.fails(StopService)
      ensures Issued(old(commands), commands, old(Now()), Now(), p.stopped, o, start, failed)
      ensures failed.None? ==> running == (start || (old(running) && !p.stopped))
      ensures failed.None? ==>
        && p.switched && releases[release] == old(releases)[release] - {MARKER} && unit == Some(newUnit)
        && database == (if start then o.served else o.migrated)
        && backups == old(backups) + (if old(database).main.Some? then [Content(old(database)).value] else [])
      ensures failed == Earlier(MigrateFailure(o, old(current).Some?), ActivationFailure(o, enableLinger, start))
    {
      var stopped, backup;
      failed, stopped, backup := Migrate(current.Some?, o);
      p := Progress(stopped, false, backup);
      if failed.Some? { return; }
      var switched;
      failed, switched := Activate(release, o, newUnit, enableLinger, start);
      p := Progress(stopped, switched, backup);
    }

    /** The try block with its handler: it installs, or rolls back from the first step that raises. */
    method Transact(release: Name, o: Outside, newConfig: Bytes, newUnit: Bytes, enableLinger: bool, start: bool)
      returns (r: Result)
      requires release !in releases
      modifies this
      ensures old(Sound()) ==> Sound()
      ensures var failed := FirstFailing(o, old(config).Some?, old(current).Some?, enableLinger, start);
              r == if failed.Some? then RolledBack(failed.value) else Installed(release)
      ensures r.RolledBack? ==> Restored(old(Now()), Now()) && old(backups) <= backups
      ensures var stops := ReachesStop(o, old(config).Some?, old(current).Some?);
              && InOrder(old(commands), commands, old(Now()), Now(), stops, o, start, r)
              && running == if r.RolledBack? then stops else start || (old(running) && !stops)
      ensures r.Installed? ==> NewVersion(old(Now()), Now(), release, o, newConfig, newUnit, start)
    {
      ghost var entry := Now();
      var oldRelease, oldUnit, databaseExisted, configExisted := current, unit, database.main.Some?, config.Some?;
      var failed, p := Forward(release, o, newConfig, newUnit, enableLinger, start);
      if failed.None? {
        return Installed(release);
      }
      RollBack(entry, release, p, oldRelease, oldUnit, databaseExisted, configExisted);
      return RolledBack(failed.value);
    }

    /** deploy(): `release` is the name chosen for the new release directory. */
    method Deploy(upgrade: bool, release: Name, o: Outside, newConfig: Bytes, newUnit: Bytes, enableLinger: bool, start: bool)
      returns (r: Result, ghost entry: Files)
      modifies this
      // In every intermediate state the pointer is absent or names a finished release.
      ensures old(Sound()) ==> Sound()
      // A failed step leaves everything as it was on entry to the transaction.
      ensures r.RolledBack? ==> Restored(entry, Now()) && entry.backups <= backups
      // The service commands in order; the old service runs after a rollback exactly when this run had stopped it.
      ensures r.Refused? || r.AlreadyInstalled? ==> commands == old(commands) && running == old(running)
      ensures r.Installed? || r.RolledBack? ==>
        var stops := ReachesStop(o, old(config).Some?, old(current).Some?);
        && InOrder(old(commands), commands, entry, Now(), stops, o, start, r)
        && running == if r.RolledBack? then stops else start || (old(running) && !stops)
      // Entry to the transaction differs from the call only by a discarded unfinished release.
      ensures entry == old(Now()).(releases := entry.releases)
      ensures entry.releases == if r.Refused? || r.AlreadyInstalled? then old(releases) else old(releases) - {release}
      ensures r.Refused? || r.AlreadyInstalled? ==> Now() == old(Now())
      ensures r.Refused? <==>
        || !o.preflight
        || (upgrade && old(current).None?)
        || (!(!upgrade && old(current).Some?) && release in old(releases)
            && (MARKER !in old(releases)[release] || Some(release) == old(current)))
      ensures r.AlreadyInstalled? <==> o.preflight && !upgrade && old(current).Some?
      ensures r.AlreadyInstalled? ==> old(current) == Some(r.release)
      // What is neither refused nor installed already raises at its first failing step, or installs.
      ensures r.Installed? || r.RolledBack? ==>
        var failed := FirstFailing(o, old(config).Some?, old(current).Some?, enableLinger, start);
        r == if failed.Some? then RolledBack(failed.value) else Installed(release)
      ensures r.Installed? ==> NewVersion(entry, Now(), release, o, newConfig, newUnit, start)
    {
      r := Admit(upgrade, release, o);
      entry := Now();
      if r.Installed? {
        r := Transact(release, o, newConfig, newUnit, enableLinger, start);
      }
    }

    /** The checks before the transaction; Installed stands for going on. An unfinished release of the same
        name is discarded. */
    method Admit(upgrade: bool, release: Name, o: Outside) returns (r: Result)
      modifies this`releases, this`history
      ensures old(Sound()) ==> Sound()
      ensures r == if IsRefused(upgrade, release, o, old(Now())) then Refused
                   else if !upgrade && old(current).Some? then AlreadyInstalled(old(current).value)
                   else Installed(release)
      ensures releases == if r.Installed? then old(releases) - {release} else old(releases)
    {
      if !o.preflight { return Refused; }
      if upgrade && current.None? { return Refused; }
      if !upgrade && current.Some? { return AlreadyInstalled(current.value); }
      if release in releases {
        if MARKER in releases[release] && Some(release) != current {
          releases := releases - {release};
          Record();
        } else {
          return Refused;
        }
      }
      return Installed(release);
    }
  }

  /** A rolled-back upgrade need not leave the service as it was: when pip fails the old service is
      stopped by the handler, and nothing starts it again. Deploy says exactly when it runs at the end. */
  method PipFailureLeavesServiceStopped(h: Host, release: Name, copied: set<string>, db: Database)
    requires h.running && h.current.Some? && release !in h.releases
    modifies h
    ensures !h.running
  {
    var o := Outside(step => step == PipInstall, true, true, copied, db, db);
    var r, entry := h.Deploy(true, release, o, "", "", false, true);
    assert r.RolledBack? && r.failed == PipInstall;
  }
}
