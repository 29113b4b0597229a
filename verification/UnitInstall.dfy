/** The unit transaction: UserUnitManager.install and UnitInstallReceipt.rollback of
    backend/app/systemd/user_units.py, and UserSystemdAdapter._install_and_action of
    backend/app/adapters/runtime.py. Files are a map; every external command and every file step of
    an install may fail. */
module UnitInstall {
  import opened Common
  import opened Runtime

  type Path = string
  type Bytes = string
  type Directory = map<Path, Bytes>

  datatype Action = StartAction | RestartAction

  datatype Command = Verify(content: Bytes) | DaemonReload | Systemctl(action: Action) | Show

  /** The file steps of an install that may raise OSError, in order. */
  datatype FileStep = CreateStaged | WriteStaged | CreateTemporary | WriteTemporary | Rename | SyncDirectory

  /** AdapterResult, by what decided it, or the OSError that no one catches. */
  datatype Result = Succeeded | InstallFailed | ActionFailed | StartFailed | Escaped(step: FileStep)

  /** The file step at which an install raises, given whether systemd accepts the staged bytes. */
  function FirstFailing(fails: FileStep -> bool, verified: bool): Option<FileStep> {
    if fails(CreateStaged) then Some(CreateStaged)
    else if fails(WriteStaged) then Some(WriteStaged)
    else if !verified then None
    else if fails(CreateTemporary) then Some(CreateTemporary)
    else if fails(WriteTemporary) then Some(WriteTemporary)
    else if fails(Rename) then Some(Rename)
    else if fails(SyncDirectory) then Some(SyncDirectory)
    else None
  }

  lemma NothingFails(fails: FileStep -> bool)
    ensures FirstFailing(fails, true).None? <==> forall step :: !fails(step)
  {
    if FirstFailing(fails, true).None? {
      forall step ensures !fails(step) {
        match step {
          case CreateStaged =>
          case _ =>
        }
      }
    }
  }

  const FILE_STEPS := [CreateStaged, WriteStaged, CreateTemporary, WriteTemporary, Rename, SyncDirectory]

  /** An accepted install raises at the first file step that fails, a refused one at the first of the two before
      systemd is asked. */
  lemma FirstFailingIsFirst(fails: FileStep -> bool, verified: bool)
    ensures var r, taken := FirstFailing(fails, verified), if verified then 6 else 2;
            if r.None? then forall i :: 0 <= i < taken ==> !fails(FILE_STEPS[i])
            else exists k :: 0 <= k < taken && r == Some(FILE_STEPS[k]) && fails(FILE_STEPS[k])
                             && forall i :: 0 <= i < k ==> !fails(FILE_STEPS[i])
  {
    var r := FirstFailing(fails, verified);
    assert r == None || r == Some(FILE_STEPS[0]) || r == Some(FILE_STEPS[1]) || r == Some(FILE_STEPS[2])
        || r == Some(FILE_STEPS[3]) || r == Some(FILE_STEPS[4]) || r == Some(FILE_STEPS[5]);
  }

  /** No file step fails. */
  predicate Never(step: FileStep) {
    false
  }

  /** What the render, the path checks and the read of the old unit may raise before anything changes. */
  datatype Preparation = Raises | Prepared(rendered: Bytes)

  function Lookup(files: Directory, path: Path): Option<Bytes> {
    if path in files then Some(files[path]) else None
  }

  /** Put back what a path held: its bytes, or nothing. */
  function PutBack(files: Directory, path: Path, previous: Option<Bytes>): Directory {
    if previous.Some? then files[path := previous.value] else files - {path}
  }

  lemma PutBackUndoes(files: Directory, path: Path, content: Bytes)
    ensures PutBack(files[path := content], path, Lookup(files, path)) == files
  {
  }

  lemma FailedSyncChanges(files: Directory, target: Path, content: Bytes)
    ensures Lookup(files, target) != Some(content) ==> files[target := content] != files
  {
    assert files[target := content][target] == content;
  }

  /** The status read after the action, if it could be read, is one that confirms it. */
  predicate Confirms(reading: Reading, read: bool) {
    read && Classify(reading) in {Running, Starting}
  }

  /** The commands of an install, each with the files it runs over. */
  ghost function Installing(preparation: Preparation, files: Directory, target: Path, staged: Path, fails: FileStep -> bool,
                            verified: bool, reloaded: bool): seq<(Command, Directory)>
  {
    if preparation.Raises? || Lookup(files, target) == Some(preparation.rendered) || fails(CreateStaged) || fails(WriteStaged) then []
    else
      var verify := (Verify(preparation.rendered), files[staged := preparation.rendered]);
      var reload := (DaemonReload, files[target := preparation.rendered]);
      if !verified || FirstFailing(fails, true).Some? then [verify]
      else if reloaded then [verify, reload]
      else [verify, reload, (DaemonReload, files)]
  }

  /** The commands that undo an install. */
  ghost function Undoing(action: Action, restored: Directory, changes: bool, replaced: bool): seq<(Command, Directory)> {
    if !changes then []
    else if action == RestartAction && replaced then [(DaemonReload, restored), (Systemctl(RestartAction), restored)]
    else [(DaemonReload, restored)]
  }

  /** The commands of the action and, if it fails, of its undoing. */
  ghost function Acting(action: Action, installed: Directory, restored: Directory, changes: bool, replaced: bool, r: Result)
    : seq<(Command, Directory)>
  {
    [(Systemctl(action), installed)]
    + (if r != ActionFailed then [(Show, installed)] else [])
    + (if r != Succeeded then Undoing(action, restored, changes, replaced) else [])
  }

  /** The user's systemd manager and its unit directory. */
  class Manager {
    var files: Directory
    var loaded: Directory                                // the definitions systemd has read
    const script: nat -> bool                            // outcome of the n-th command
    var issued: seq<(Command, Directory)>                // commands, with the files they ran over

    constructor (files: Directory, script: nat -> bool)
      ensures this.files == files && this.loaded == files && this.script == script && issued == []
    {
      this.files, this.loaded, this.script, this.issued := files, files, script, [];
    }

    /** Every reload from command n on succeeded. */
    ghost predicate ReloadsSucceeded(n: nat)
      reads this
    {
      forall i :: n <= i < |issued| && issued[i].0 == DaemonReload ==> script(i)
    }

    /** run_command: the script decides; a successful reload reads every file. */
    method Run(c: Command) returns (ok: bool)
      modifies this`issued, this`loaded
      ensures issued == old(issued) + [(c, files)] && ok == script(|old(issued)|)
      ensures loaded == if c == DaemonReload && ok then files else old(loaded)
    {
      ok := script(|issued|);
      issued := issued + [(c, files)];
      if c == DaemonReload && ok {
        loaded := files;
      }
    }

    /** _atomic_replace: a temporary file beside the target, renamed over it, then the directory synced.
        A failure before the rename removes the temporary file; one after it comes too late. */
    method AtomicReplace(target: Path, content: Bytes, temporary: Path, fails: FileStep -> bool) returns (failed: Option<FileStep>)
      requires temporary !in files && temporary != target
      modifies this`files
      ensures files == if failed.None? || failed == Some(SyncDirectory) then old(files)[target := content] else old(files)
      ensures !fails(CreateStaged) && !fails(WriteStaged) ==> failed == FirstFailing(fails, true)
      ensures failed.Some? ==> fails(failed.value) && failed != Some(CreateStaged) && failed != Some(WriteStaged)
      ensures failed.None? <==> !fails(CreateTemporary) && !fails(WriteTemporary) && !fails(Rename) && !fails(SyncDirectory)
    {
      if fails(CreateTemporary) {
        return Some(CreateTemporary);
      }
      files := files[temporary := ""];
      if fails(WriteTemporary) {
        files := files - {temporary};
        return Some(WriteTemporary);
      }
      files := files[temporary := content];
      if fails(Rename) {
        files := files - {temporary};
        return Some(Rename);
      }
      var moved := files[temporary];
      files := files - {temporary};
      files := files[target := moved];
      return if fails(SyncDirectory) then Some(SyncDirectory) else None;
    }

    /** The part of install before the replacement: the exact bytes are verified beside the target. */
    method Stage(content: Bytes, staged: Path, fails: FileStep -> bool) returns (verified: bool, raised: Option<FileStep>)
      requires staged !in files
      modifies this`files, this`issued, this`loaded
      ensures files == old(files) && loaded == old(loaded)
      ensures raised.Some? ==> raised == FirstFailing(fails, verified) && issued == old(issued) && raised != Some(SyncDirectory)
      ensures raised.None? ==>
        issued == old(issued) + [(Verify(content), old(files)[staged := content])] && verified == script(|old(issued)|)
      ensures raised.None? <==> !fails(CreateStaged) && !fails(WriteStaged)
    {
      if fails(CreateStaged) {
        return false, Some(CreateStaged);
      }
      files := files[staged := ""];
      if fails(WriteStaged) {
        files := files - {staged};
        return false, Some(WriteStaged);
      }
      files := files[staged := content];
      assert files == old(files)[staged := content];
      verified := Run(Verify(files[staged]));
      files := files - {staged};
      assert files == old(files);
      return verified, None;
    }

    /** install. `staged` is the name mkstemp picks. Without a receipt it raised: the OSError of a file
        step, or else a UnitError. */
    method Install(preparation: Preparation, target: Path, staged: Path, fails: FileStep -> bool)
      returns (receipt: Receipt?, raised: Option<FileStep>)
      requires staged !in files && staged != target
      modifies this
      ensures raised.Some? ==> receipt == null
      ensures raised == if preparation.Prepared? && Lookup(old(files), target) != Some(preparation.rendered)
                        then FirstFailing(fails, script(|old(issued)|)) else None
      // There is a receipt if and only if the bytes were there already, or no file step fails and systemd
      // accepts them and reloads.
      ensures receipt != null <==>
        && preparation.Prepared?
        && (Lookup(old(files), target) == Some(preparation.rendered)
            || ((forall step :: !fails(step)) && script(|old(issued)|) && script(|old(issued)| + 1)))
      ensures receipt == null && raised != Some(SyncDirectory) ==> files == old(files)
      ensures raised == Some(SyncDirectory) ==> files == old(files)[target := preparation.rendered] && loaded == old(loaded)
      ensures receipt != null ==>
        && files == old(files)[target := preparation.rendered]
        && receipt.target == target && receipt.previous == Lookup(old(files), target)
        && receipt.changed == (receipt.previous != Some(preparation.rendered))
        && !receipt.rolledBack && fresh(receipt)
      ensures receipt != null ==> loaded == if receipt.changed then files else old(loaded)
      // Only bytes that systemd accepted beside the target replace it; then it reloads, and again after a rollback.
      ensures issued == old(issued) + Installing(preparation, old(files), target, staged, fails, script(|old(issued)|), script(|old(issued)| + 1))
      ensures raised != Some(SyncDirectory) && old(loaded) == old(files) && ReloadsSucceeded(|old(issued)|) ==> loaded == files
    {
      NothingFails(fails);
      raised := None;
      if preparation.Raises? {
        return null, None;
      }
      var content := preparation.rendered;
      var previous := Lookup(files, target);
      if previous == Some(content) {
        receipt := new Receipt(target, previous, false);
        assert files == old(files)[target := content];
        return;
      }
      var verified;
      verified, raised := Stage(content, staged, fails);
      if raised.Some? || !verified {
        return null, raised;
      }
      raised := AtomicReplace(target, content, staged, fails);
      if raised.Some? {
        return null, raised;
      }
      receipt := new Receipt(target, previous, true);
      var reloaded := Run(DaemonReload);
      if !reloaded {
        receipt.RollBack(this, staged);
        PutBackUndoes(old(files), target, content);
        assert issued[|old(issued)| + 1].0 == DaemonReload;
        return null, None;
      }
    }

    /** systemctl show, classified. */
    method Status(reading: Reading) returns (status: Runtime.Status)
      modifies this`issued, this`loaded
      ensures issued == old(issued) + [(Show, files)] && loaded == old(loaded)
      ensures status == Classify(if script(|old(issued)|) then reading else CommandFailed)
    {
      var ok := Run(Show);
      return Classify(if ok then reading else CommandFailed);
    }

    /** The action, then the confirmation. */
    method Act(action: Action, reading: Reading) returns (r: Result)
      modifies this`issued, this`loaded
      ensures loaded == old(loaded)
      ensures issued == old(issued) + [(Systemctl(action), files)] + (if script(|old(issued)|) then [(Show, files)] else [])
      ensures r == if !script(|old(issued)|) then ActionFailed
                   else if Confirms(reading, script(|old(issued)| + 1)) then Succeeded else StartFailed
    {
      var acted := Run(Systemctl(action));
      if !acted {
        return ActionFailed;
      }
      var confirmed := Status(reading);
      return if confirmed == Running || confirmed == Starting then Succeeded else StartFailed;
    }

    /** Roll the receipt back, and restart a replaced unit over its old definition. */
    method Undo(receipt: Receipt, action: Action, temporary: Path)
      requires !receipt.rolledBack && temporary !in files && temporary != receipt.target
      modifies this, receipt
      ensures files == if receipt.changed then PutBack(old(files), receipt.target, receipt.previous) else old(files)
      ensures loaded == if receipt.changed && script(|old(issued)|) then files else old(loaded)
      ensures issued == old(issued) + Undoing(action, files, receipt.changed, receipt.previous.Some?)
    {
      receipt.RollBack(this, temporary);
      if action == RestartAction && receipt.changed && receipt.previous.Some? {
        var again := Run(Systemctl(RestartAction));
      }
    }

    /** The action over an installed unit, undone when it fails. */
    method ActOrUndo(receipt: Receipt, action: Action, staged: Path, reading: Reading) returns (r: Result)
      requires !receipt.rolledBack && staged !in files && staged != receipt.target
      modifies this, receipt
      ensures r == if !script(|old(issued)|) then ActionFailed
                   else if Confirms(reading, script(|old(issued)| + 1)) then Succeeded else StartFailed
      ensures files == if r != Succeeded && receipt.changed then PutBack(old(files), receipt.target, receipt.previous) else old(files)
      ensures issued == old(issued) + Acting(action, old(files), files, receipt.changed, receipt.previous.Some?, r)
      ensures old(loaded) == old(files) && ReloadsSucceeded(|old(issued)|) ==> loaded == files
    {
      r := Act(action, reading);
      if r != Succeeded {
        ghost var acted := |issued|;
        Undo(receipt, action, staged);
        assert receipt.changed ==> issued[acted] == (DaemonReload, files);
      }
    }

    /** _install_and_action. */
    method InstallAndAct(action: Action, preparation: Preparation, target: Path, staged: Path, reading: Reading,
                         fails: FileStep -> bool)
      returns (r: Result)
      requires staged !in files && staged != target
      modifies this
      // When it succeeds: the unit is there or gets there, the action succeeds and the status confirms it. Each
      // other result is the first thing that went wrong; n counts the commands before the action.
      ensures var changes := preparation.Prepared? && Lookup(old(files), target) != Some(preparation.rendered);
              var m := |old(issued)|;
              var n := if changes then m + 2 else m;
              r == if preparation.Raises? then InstallFailed
                   else if changes && FirstFailing(fails, script(m)).Some? then Escaped(FirstFailing(fails, script(m)).value)
                   else if changes && !(script(m) && script(m + 1)) then InstallFailed
                   else if !script(n) then ActionFailed
                   else if script(n + 1) && Classify(reading) in {Running, Starting} then Succeeded
                   else StartFailed
      // Success leaves the rendered bytes. A failed run leaves the directory as it was, staged files included,
      // if and only if what failed is not the directory sync after the rename.
      ensures r == Succeeded ==> files == old(files)[target := preparation.rendered]
      ensures r != Succeeded ==> (files == old(files) <==> r != Escaped(SyncDirectory))
      ensures r == Escaped(SyncDirectory) ==> files == old(files)[target := preparation.rendered]
      // Checks and reloads, then the action over the rendered bytes. A failed action is undone by a reload over
      // the old files, and a restart that had replaced an older unit restarts over it.
      ensures issued == old(issued)
        + Installing(preparation, old(files), target, staged, fails, script(|old(issued)|), script(|old(issued)| + 1))
        + (if r == InstallFailed || r.Escaped? then []
           else Acting(action, old(files)[target := preparation.rendered], old(files),
                       Lookup(old(files), target) != Some(preparation.rendered), target in old(files), r))
      // systemd ends up with the definitions on disk whenever its reloads worked, but for that sync.
      ensures r != Escaped(SyncDirectory) && old(loaded) == old(files) && ReloadsSucceeded(|old(issued)|) ==> loaded == files
      ensures r == Escaped(SyncDirectory) ==> loaded == old(loaded)
    {
      NothingFails(fails);
      var receipt, raised := Install(preparation, target, staged, fails);
      if raised.Some? {
        FailedSyncChanges(old(files), target, preparation.rendered);
        return Escaped(raised.value);
      }
      if receipt == null {
        return InstallFailed;
      }
      PutBackUndoes(old(files), target, preparation.rendered);
      r := ActOrUndo(receipt, action, staged, reading);
    }
  }

  /** UnitInstallReceipt. */
  class Receipt {
    const target: Path
    const previous: Option<Bytes>
    const changed: bool
    var rolledBack: bool

    constructor (target: Path, previous: Option<Bytes>, changed: bool)
      ensures this.target == target && this.previous == previous && this.changed == changed && !rolledBack
    {
      this.target, this.previous, this.changed, this.rolledBack := target, previous, changed, false;
    }

    /** rollback: at most once, and only if the install changed the target. */
    method RollBack(m: Manager, temporary: Path)
      requires temporary !in m.files && temporary != target
      modifies this, m
      ensures rolledBack == (old(rolledBack) || changed)
      ensures if changed && !old(rolledBack) then
                && m.files == PutBack(old(m.files), target, previous)
                && m.issued == old(m.issued) + [(DaemonReload, m.files)]
                && m.loaded == (if m.script(|old(m.issued)|) then m.files else old(m.loaded))
              else
                m.files == old(m.files) && m.issued == old(m.issued) && m.loaded == old(m.loaded)
    {
      if !changed || rolledBack {
        return;
      }
      if previous.None? {
        m.files := m.files - {target};
      } else {
        var failed := m.AtomicReplace(target, previous.value, temporary, Never);
      }
      rolledBack := true;
      var reloaded := m.Run(DaemonReload);
    }

    /** Repeating a rollback changes nothing. */
    method RollBackTwice(m: Manager, temporary: Path)
      requires temporary !in m.files && temporary != target
      modifies this, m
      ensures changed && !old(rolledBack) ==> m.files == PutBack(old(m.files), target, previous)
      ensures !changed || old(rolledBack) ==> m.files == old(m.files)
      ensures |m.issued| <= |old(m.issued)| + 1
    {
      RollBack(m, temporary);
      RollBack(m, temporary);
    }
  }

  /** The sync can fail: the new unit then stays, nothing rolls it back, and systemd has not read it. */
  method FailedSyncLeavesTheNewUnit(m: Manager, target: Path, staged: Path, content: Bytes, reading: Reading)
    returns (r: Result)
    requires staged !in m.files && staged != target && target !in m.files
    requires m.loaded == m.files && forall n :: m.script(n)
    modifies m
    ensures r == Escaped(SyncDirectory)
    ensures m.files == old(m.files)[target := content] && m.loaded == old(m.files) && m.files != m.loaded
  {
    r := m.InstallAndAct(StartAction, Prepared(content), target, staged, reading, step => step == SyncDirectory);
  }
}
