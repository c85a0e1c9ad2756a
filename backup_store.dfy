/** The command sequences of `util/backup_manager.py` over the machine: the
    timestamped copies under `/var/backups/nfs-manager`, their listing, the
    restore of one of them over `/etc/exports`, their deletion and the report
    on one of them.  `BackupManager` probes for its privilege tool on every
    call.  Each method is proved against a function of the machine it starts
    from; the lemmas state what those functions promise. */
module BackupStore {
  import opened Common
  import opened Text
  import opened Host
  import Exports
  import opened Backups

  /** Why an operation raised `BackupError`. */
  datatype BackupFailure =
    | NoPrivilegeTool
    | DirectoryFailed
    | CopyFailed
    | BackupMissing
    | RestoreFailed
    | ReloadFailed
    | RemoveFailed
    | SidecarWriteFailed

  /** The steps of `create_backup` that fail for reasons the machine state
      does not show: the privileged commands, and the unprivileged write of
      the sidecar's temporary file (`tempWrite`). */
  datatype CreateFaults = CreateFaults(mkdir: bool, copy: bool, tempWrite: bool, move: bool)

  const AutoDescription: string := "Auto-backup antes de restaurar"

  /** Where `create_backup` puts the copy made at `ts`. */
  function BackupPathAt(ts: string): string {
    InBackupDir(BackupFilename(ts))
  }

  /** `create_backup(description)` at the clock reading `ts`; `tmp` is the
      file `mkstemp` makes for the sidecar. */
  function CreateSpec(s: World, w: Which, ts: string, description: string, tmp: string, f: CreateFaults)
    : (Result<string, BackupFailure>, World)
  {
    var (r1, s1) := ExecProbed(s, w, MakeDirs(BackupDir), f.mkdir);
    if r1.NoTool? then (Err(NoPrivilegeTool), s1)
    else if !r1.ok then (Err(DirectoryFailed), s1)
    else
      var name := BackupFilename(ts);
      var path := InBackupDir(name);
      var (r2, s2) := ExecProbed(s1, w, Copy(ExportsPath, path), f.copy);
      if r2.NoTool? then (Err(NoPrivilegeTool), s2)
      else if !r2.ok then (Err(CopyFailed), s2)
      else if description == "" then (Ok(name), s2)
      else SidecarSpec(s2, w, name, path + ".info", InfoContent(ts, description), tmp, f.tempWrite, f.move)
  }

  /** The sidecar step of `create_backup`: the description is written to the
      temporary file, which a privileged `mv` puts next to the backup; a
      failed move only removes the temporary file.  When the write itself
      raises, the call fails, after the copy, leaving the empty file
      `mkstemp` made. */
  function SidecarSpec(s: World, w: Which, name: string, info: string, content: string, tmp: string,
                       tempWriteFails: bool, moveFails: bool)
    : (Result<string, BackupFailure>, World)
  {
    if tempWriteFails then (Err(SidecarWriteFailed), WriteFile(s, tmp, ""))
    else
    var s1 := WriteFile(s, tmp, content);
    var (r, s2) := ExecProbed(s1, w, Move(tmp, info), moveFails);
    if r.NoTool? then (Err(NoPrivilegeTool), s2)
    else if !r.ok then (Ok(name), RemoveFile(s2, tmp))
    else (Ok(name), s2)
  }

  /** One record of `list_backups`. */
  datatype BackupRecord = BackupRecord(
    filename: string, timestamp: string, size: string, date: string, description: string, fullPath: string)

  /** The record of a listed file whose sidecar read gave `info` (or failed). */
  function RecordOf(l: Listed, infoRead: Ran): BackupRecord {
    var description := if infoRead.Exited? && infoRead.ok then DescriptionIn(SplitOn(infoRead.out, '\n')) else "";
    BackupRecord(l.filename, TimestampOf(l.filename), l.size, l.date, description, InBackupDir(l.filename))
  }

  /** The loop of `list_backups` over the lines of the listing: every listed
      backup gives one record, after a privileged `cat` of its sidecar; the
      `cat` fails for the files named in `sidecarFails`. */
  function RecordsFrom(s: World, w: Which, lines: seq<string>, sidecarFails: set<string>)
    : (Result<seq<BackupRecord>, BackupFailure>, World)
    decreases |lines|
  {
    if lines == [] then (Ok([]), s)
    else
      var (prev, s1) := RecordsFrom(s, w, lines[..|lines| - 1], sidecarFails);
      if prev.Err? then (prev, s1)
      else
        match ListedOf(lines[|lines| - 1])
        case None => (prev, s1)
        case Some(l) =>
          var (r, s2) := ExecProbed(s1, w, Cat(InBackupDir(l.filename + ".info")), l.filename in sidecarFails);
          if r.NoTool? then (Err(NoPrivilegeTool), s2)
          else (Ok(prev.value + [RecordOf(l, r)]), s2)
  }

  /** Once a `cat` of a sidecar finds no tool, the rest of the listing is not read. */
  lemma {:induction false} RecordsStopAtError(s: World, w: Which, lines: seq<string>, sidecarFails: set<string>, k: nat)
    requires k <= |lines| && RecordsFrom(s, w, lines[..k], sidecarFails).0.Err?
    ensures RecordsFrom(s, w, lines, sidecarFails) == RecordsFrom(s, w, lines[..k], sidecarFails)
    decreases |lines|
  {
    if k < |lines| {
      var pre := lines[..|lines| - 1];
      assert pre[..k] == lines[..k];
      RecordsStopAtError(s, w, pre, sidecarFails, k);
    } else {
      assert lines[..k] == lines;
    }
  }

  /** `list_backups()`; `listing` is what `ls -lt` prints when it succeeds,
      and the `cat` of the sidecars of the files in `sidecarFails` fails. */
  function ListSpec(s: World, w: Which, listing: string, testFails: bool, lsFails: bool, sidecarFails: set<string>)
    : (Result<seq<BackupRecord>, BackupFailure>, World)
  {
    var (r1, s1) := ExecProbed(s, w, TestDir(BackupDir), testFails);
    if r1.NoTool? then (Err(NoPrivilegeTool), s1)
    else if !r1.ok then (Ok([]), s1)
    else
      var (r2, s2) := ExecProbed(s1, w, ListByTime(BackupDir), lsFails);
      if r2.NoTool? then (Err(NoPrivilegeTool), s2)
      else if !r2.ok then (Ok([]), s2)
      else RecordsFrom(s2, w, SplitOn(listing, '\n'), sidecarFails)
  }

  datatype RestoreFaults = RestoreFaults(test: bool, create: CreateFaults, copy: bool, reload: bool)

  /** `restore_backup(backup_filename)` at the clock reading `ts`. */
  function RestoreSpec(s: World, w: Which, name: string, ts: string, tmp: string, f: RestoreFaults)
    : (Outcome<BackupFailure>, World)
  {
    var path := InBackupDir(name);
    var (r1, s1) := ExecProbed(s, w, TestFile(path), f.test);
    if r1.NoTool? then (Fail(NoPrivilegeTool), s1)
    else if !r1.ok then (Fail(BackupMissing), s1)
    else
      var (c, s2) := CreateSpec(s1, w, ts, AutoDescription, tmp, f.create);
      if c.Err? then (Fail(c.error), s2)
      else InstallSpec(s2, w, path, f.copy, f.reload)
  }

  /** The last two steps of `restore_backup`: the privileged `cp` of the
      backup over the table, then `exportfs -ra`. */
  function InstallSpec(s: World, w: Which, path: string, copyFails: bool, reloadFails: bool)
    : (Outcome<BackupFailure>, World)
  {
    var (r1, s1) := ExecProbed(s, w, Copy(path, ExportsPath), copyFails);
    if r1.NoTool? then (Fail(NoPrivilegeTool), s1)
    else if !r1.ok then (Fail(RestoreFailed), s1)
    else
      var (r2, s2) := ExecProbed(s1, w, ReloadExports, reloadFails);
      if r2.NoTool? then (Fail(NoPrivilegeTool), s2)
      else if !r2.ok then (Fail(ReloadFailed), s2)
      else (Pass, s2)
  }

  /** `delete_backup(backup_filename)`: the exit code of the sidecar's removal is ignored. */
  function DeleteSpec(s: World, w: Which, name: string, rmFails: bool, rmInfoFails: bool)
    : (Outcome<BackupFailure>, World)
  {
    var path := InBackupDir(name);
    var (r1, s1) := ExecProbed(s, w, RemoveForce(path), rmFails);
    if r1.NoTool? then (Fail(NoPrivilegeTool), s1)
    else if !r1.ok then (Fail(RemoveFailed), s1)
    else
      var (r2, s2) := ExecProbed(s1, w, RemoveForce(path + ".info"), rmInfoFails);
      if r2.NoTool? then (Fail(NoPrivilegeTool), s2)
      else (Pass, s2)
  }

  /** What `get_backup_info` reports. */
  datatype BackupInfo = BackupInfo(filename: string, fullPath: string, exportsCount: nat, content: string)

  datatype InfoFaults = InfoFaults(test: bool, stat: bool, cat: bool)

  /** `get_backup_info(backup_filename)`: `None` when `test -f` or `stat`
      fails; an unreadable content counts as empty. */
  function InfoSpec(s: World, w: Which, name: string, f: InfoFaults)
    : (Result<Option<BackupInfo>, BackupFailure>, World)
  {
    var path := InBackupDir(name);
    var (r1, s1) := ExecProbed(s, w, TestFile(path), f.test);
    if r1.NoTool? then (Err(NoPrivilegeTool), s1)
    else if !r1.ok then (Ok(None), s1)
    else
      var (r2, s2) := ExecProbed(s1, w, Stat(path), f.stat);
      if r2.NoTool? then (Err(NoPrivilegeTool), s2)
      else if !r2.ok then (Ok(None), s2)
      else
        var (r3, s3) := ExecProbed(s2, w, Cat(path), f.cat);
        if r3.NoTool? then (Err(NoPrivilegeTool), s3)
        else
          var content := if r3.ok then r3.out else "";
          (Ok(Some(BackupInfo(name, path, ExportCount(SplitOn(content, '\n')), content))), s3)
  }

  // ---------------------------------------------------------------------
  // What the specifications promise

  /** Backup names never start with `/`, so they land in the backup directory. */
  lemma BackupPathShape(ts: string)
    ensures BackupPathAt(ts) == BackupDir + "/" + BackupFilename(ts)
  {
    assert BackupFilename(ts)[0] == 'e';
  }

  /** With a privilege tool, the sidecar step puts the content next to the
      backup unless the move fails, and leaves no temporary file behind; a
      failed temporary write fails the call and leaves that file. */
  lemma SidecarFacts(s: World, w: Which, name: string, info: string, content: string, tmp: string,
                     tempWriteFails: bool, moveFails: bool)
    requires tmp !in s.disk.files && tmp != info
    ensures var (r, s') := SidecarSpec(s, w, name, info, content, tmp, tempWriteFails, moveFails);
            && s'.disk.exported == s.disk.exported
            && (tempWriteFails ==> r == Err(SidecarWriteFailed) && s'.disk.files == s.disk.files[tmp := ""])
            && (!tempWriteFails && Probe(w).Some? ==>
                  r == Ok(name) && s'.disk.files == if moveFails then s.disk.files else s.disk.files[info := content])
            && (!tempWriteFails && Probe(w).None? ==> r == Err(NoPrivilegeTool))
  {
    if tempWriteFails {
      return;
    }
    var s1 := WriteFile(s, tmp, content);
    ExecProbedFacts(s1, w, Move(tmp, info), moveFails);
    assert s1.disk.files - {tmp} == s.disk.files;
  }

  /** The paths `create_backup` writes, none of them the temporary file. */
  lemma CreatePaths(ts: string, tmp: string)
    requires IsTempPath(tmp)
    ensures BackupPathAt(ts) == BackupDir + "/" + BackupFilename(ts)
    ensures tmp != BackupPathAt(ts) && tmp != BackupPathAt(ts) + ".info"
    ensures BackupPathAt(ts) != ExportsPath && BackupPathAt(ts) + ".info" != ExportsPath
  {
    BackupPathShape(ts);
    var path := BackupPathAt(ts);
    assert path[1] == 'v' && (path + ".info")[1] == 'v';
    assert tmp[1] == 't' && ExportsPath[1] == 'e';
  }

  /** The files after `create_backup` ran all its steps (or stopped after the copy). */
  function Created(files: map<string, string>, ts: string, description: string, tmp: string, f: CreateFaults)
    : map<string, string>
    requires ExportsPath in files
  {
    var path := BackupPathAt(ts);
    var copied := files[path := files[ExportsPath]];
    if description == "" then copied
    else if f.tempWrite then copied[tmp := ""]
    else if f.move then copied
    else copied[path + ".info" := InfoContent(ts, description)]
  }

  /** The outcome of `create_backup`, step by step. */
  lemma CreateSteps(s: World, w: Which, ts: string, description: string, tmp: string, f: CreateFaults)
    requires IsTempPath(tmp) && tmp !in s.disk.files
    ensures var (r, s') := CreateSpec(s, w, ts, description, tmp, f);
            && s'.disk.exported == s.disk.exported
            && (Probe(w).None? ==> r == Err(NoPrivilegeTool) && s' == s)
            && (Probe(w).Some? && f.mkdir ==> r == Err(DirectoryFailed) && s'.disk == s.disk)
            && (Probe(w).Some? && !f.mkdir && (f.copy || ExportsPath !in s.disk.files) ==>
                  r == Err(CopyFailed) && s'.disk.files == s.disk.files)
            && (Probe(w).Some? && !f.mkdir && !f.copy && ExportsPath in s.disk.files ==>
                  s'.disk.files == Created(s.disk.files, ts, description, tmp, f)
                  && r == if description != "" && f.tempWrite then Err(SidecarWriteFailed) else Ok(BackupFilename(ts)))
  {
    CreatePaths(ts, tmp);
    var path := BackupPathAt(ts);
    var (r1, s1) := ExecProbed(s, w, MakeDirs(BackupDir), f.mkdir);
    ExecProbedFacts(s, w, MakeDirs(BackupDir), f.mkdir);
    if r1.Exited? && r1.ok {
      var (r2, s2) := ExecProbed(s1, w, Copy(ExportsPath, path), f.copy);
      ExecProbedFacts(s1, w, Copy(ExportsPath, path), f.copy);
      if r2.Exited? && r2.ok && description != "" {
        SidecarFacts(s2, w, BackupFilename(ts), path + ".info", InfoContent(ts, description), tmp, f.tempWrite, f.move);
      }
    }
  }

  /** A created backup holds the live table under the returned name, whose
      timestamp reads back as `ts`; no temporary file is left behind; the
      call fails without a privilege tool, when a command fails, when there
      is no table to copy, or when the sidecar's temporary write raises (the
      copy then already exists), and without a privilege tool nothing changes. */
  lemma CreateEffect(s: World, w: Which, ts: string, description: string, tmp: string, f: CreateFaults)
    requires IsStamp(ts) && IsTempPath(tmp) && tmp !in s.disk.files
    ensures var (r, s') := CreateSpec(s, w, ts, description, tmp, f);
            var path := BackupPathAt(ts);
            && (r.Ok? ==> r.value == BackupFilename(ts) && TimestampOf(r.value) == ts
                          && ExportsPath in s.disk.files && path in s'.disk.files
                          && s'.disk.files[path] == s.disk.files[ExportsPath]
                          && tmp !in s'.disk.files)
            && (r.Ok? <==> Probe(w).Some? && !f.mkdir && !f.copy && ExportsPath in s.disk.files
                           && !(description != "" && f.tempWrite))
            && (r == Err(NoPrivilegeTool) <==> Probe(w).None?)
            && (r == Err(NoPrivilegeTool) ==> s' == s)
            && (r == Err(SidecarWriteFailed) ==> ExportsPath in s.disk.files && path in s'.disk.files
                                                 && s'.disk.files[path] == s.disk.files[ExportsPath]
                                                 && tmp in s'.disk.files)
            && (r.Err? ==> r.error in {NoPrivilegeTool, DirectoryFailed, CopyFailed, SidecarWriteFailed})
            && s'.disk.exported == s.disk.exported
  {
    TimestampRoundTrip(ts);
    CreatePaths(ts, tmp);
    CreateSteps(s, w, ts, description, tmp, f);
  }

  /** When a description was given and the move succeeded, the sidecar reads
      back as that description (as `list_backups` cleans it up). */
  lemma CreateSidecar(s: World, w: Which, ts: string, description: string, tmp: string, f: CreateFaults)
    requires IsStamp(ts) && IsTempPath(tmp) && tmp !in s.disk.files
    requires description != "" && '\n' !in description && !f.move
    ensures var (r, s') := CreateSpec(s, w, ts, description, tmp, f);
            var info := BackupPathAt(ts) + ".info";
            r.Ok? ==> info in s'.disk.files
                      && DescriptionIn(SplitOn(s'.disk.files[info], '\n'))
                         == Strip(RemoveAll(description, "Description:"))
  {
    assert '\n' !in ts by {
      assert forall i :: 0 <= i < |ts| ==> ts[i] == '_' || IsDigit(ts[i]);
    }
    DescriptionRoundTrip(ts, description);
    CreateSteps(s, w, ts, description, tmp, f);
  }

  /** `create_backup` touches only the new backup, its sidecar and the
      temporary file, which stays only when its write failed. */
  lemma CreateKeepsOthers(s: World, w: Which, ts: string, description: string, tmp: string, f: CreateFaults, p: string)
    requires IsTempPath(tmp) && tmp !in s.disk.files
    requires p != BackupPathAt(ts) && p != BackupPathAt(ts) + ".info"
    ensures var (r, s') := CreateSpec(s, w, ts, description, tmp, f);
            (p != tmp || r != Err(SidecarWriteFailed)) ==>
            (p in s'.disk.files <==> p in s.disk.files)
            && (p in s.disk.files ==> s'.disk.files[p] == s.disk.files[p])
  {
    CreateSteps(s, w, ts, description, tmp, f);
  }

  /** Installing a backup puts its content in `/etc/exports` and nothing
      else; the server serves it only when the reload succeeded. */
  lemma InstallFacts(s: World, w: Which, path: string, copyFails: bool, reloadFails: bool)
    ensures var (r, s') := InstallSpec(s, w, path, copyFails, reloadFails);
            && ((r == Pass || r == Fail(ReloadFailed)) ==>
                  path in s.disk.files && s'.disk.files == s.disk.files[ExportsPath := s.disk.files[path]])
            && (r == Pass ==> s'.disk.exported == s.disk.files[path])
            && (r != Pass ==> s'.disk.exported == s.disk.exported)
            && (r.Fail? ==> r.error == NoPrivilegeTool || r.error == RestoreFailed || r.error == ReloadFailed)
            && (r == Fail(NoPrivilegeTool) <==> Probe(w).None?)
  {
    var (r1, s1) := ExecProbed(s, w, Copy(path, ExportsPath), copyFails);
    ExecProbedFacts(s, w, Copy(path, ExportsPath), copyFails);
    if r1.Exited? && r1.ok {
      ExecProbedFacts(s1, w, ReloadExports, reloadFails);
    }
  }

  /** `restore_backup` refuses a missing backup before running anything
      else; on success the live table holds the restored backup as it was
      before the call and the server serves it, while the table it replaced is
      kept as a new backup.  A failed reload leaves the restored table in
      place, with no rollback. */
  lemma RestoreEffect(s: World, w: Which, name: string, ts: string, tmp: string, f: RestoreFaults)
    requires IsStamp(ts) && IsTempPath(tmp) && tmp !in s.disk.files
    requires InBackupDir(name) != BackupPathAt(ts) && InBackupDir(name) != BackupPathAt(ts) + ".info"
    ensures var (r, s') := RestoreSpec(s, w, name, ts, tmp, f);
            var path := InBackupDir(name);
            && (r == Fail(BackupMissing) ==> s'.disk == s.disk && |s'.trace| == |s.trace| + 1)
            && (r == Fail(BackupMissing) <==> Probe(w).Some? && (f.test || path !in s.disk.files))
            && ((r == Pass || r == Fail(ReloadFailed)) ==>
                  path in s.disk.files && ExportsPath in s.disk.files
                  && ExportsPath in s'.disk.files && BackupPathAt(ts) in s'.disk.files
                  && s'.disk.files[ExportsPath] == s.disk.files[path]
                  && s'.disk.files[BackupPathAt(ts)] == s.disk.files[ExportsPath])
            && (r == Pass ==> s'.disk.exported == s.disk.files[path])
            && (r == Fail(ReloadFailed) ==> s'.disk.exported == s.disk.exported)
  {
    var path := InBackupDir(name);
    var (r1, s1) := ExecProbed(s, w, TestFile(path), f.test);
    ExecProbedFacts(s, w, TestFile(path), f.test);
    if r1.Exited? && r1.ok {
      var (c, s2) := CreateSpec(s1, w, ts, AutoDescription, tmp, f.create);
      assert RestoreSpec(s, w, name, ts, tmp, f)
             == if c.Err? then (Fail(c.error), s2) else InstallSpec(s2, w, path, f.copy, f.reload);
      assert && (c.Err? ==> c.error != BackupMissing && c.error != ReloadFailed)
             && s2.disk.exported == s.disk.exported
             && (c.Ok? ==> && path in s2.disk.files && s2.disk.files[path] == s.disk.files[path]
                           && ExportsPath in s.disk.files && BackupPathAt(ts) in s2.disk.files
                           && s2.disk.files[BackupPathAt(ts)] == s.disk.files[ExportsPath]) by {
        CreateEffect(s1, w, ts, AutoDescription, tmp, f.create);
        CreateKeepsOthers(s1, w, ts, AutoDescription, tmp, f.create, path);
      }
      if c.Ok? {
        InstallFacts(s2, w, path, f.copy, f.reload);
        CreatePaths(ts, tmp);
      }
    }
  }

  /** A restore of the backup the automatic backup overwrites (one taken in
      the same second) puts back the table that was live, not the chosen one. */
  lemma RestoreSameSecond(s: World, w: Which, ts: string, tmp: string, f: RestoreFaults)
    requires IsStamp(ts) && IsTempPath(tmp) && tmp !in s.disk.files
    requires RestoreSpec(s, w, BackupFilename(ts), ts, tmp, f).0 == Pass
    ensures var s' := RestoreSpec(s, w, BackupFilename(ts), ts, tmp, f).1;
            && ExportsPath in s.disk.files && ExportsPath in s'.disk.files
            && s'.disk.files[ExportsPath] == s.disk.files[ExportsPath]
            && s'.disk.exported == s.disk.files[ExportsPath]
  {
    var path := InBackupDir(BackupFilename(ts));
    var (r1, s1) := ExecProbed(s, w, TestFile(path), f.test);
    ExecProbedFacts(s, w, TestFile(path), f.test);
    var (c, s2) := CreateSpec(s1, w, ts, AutoDescription, tmp, f.create);
    assert c.Ok? && RestoreSpec(s, w, BackupFilename(ts), ts, tmp, f) == InstallSpec(s2, w, path, f.copy, f.reload);
    assert ExportsPath in s.disk.files && path in s2.disk.files && s2.disk.files[path] == s.disk.files[ExportsPath] by {
      CreateEffect(s1, w, ts, AutoDescription, tmp, f.create);
    }
    InstallFacts(s2, w, path, f.copy, f.reload);
  }

  /** A deleted backup is gone, its sidecar too unless that removal failed,
      and no other file changes; a failed deletion changes nothing. */
  lemma DeleteEffect(s: World, w: Which, name: string, rmFails: bool, rmInfoFails: bool)
    ensures var (r, s') := DeleteSpec(s, w, name, rmFails, rmInfoFails);
            var path := InBackupDir(name);
            && (r == Pass <==> Probe(w).Some? && !rmFails)
            && (r == Pass ==> s'.disk.files == if rmInfoFails then s.disk.files - {path}
                                               else s.disk.files - {path} - {path + ".info"})
            && (r.Fail? ==> s'.disk == s.disk)
  {
  }

  /** The export count of a backup is the number of entries the exports
      parser finds in it; the content reported is the backup's own. */
  lemma InfoEffect(s: World, w: Which, name: string, f: InfoFaults)
    ensures var (r, s') := InfoSpec(s, w, name, f);
            && s'.disk == s.disk
            && (r.Ok? && r.value.Some? ==>
                  var info := r.value.value;
                  && InBackupDir(name) in s.disk.files
                  && info.fullPath == InBackupDir(name)
                  && info.exportsCount == |Exports.Parsed(SplitOn(info.content, '\n'))|
                  && info.content == if f.cat then "" else s.disk.files[InBackupDir(name)])
            && (r == Ok(None) <==> Probe(w).Some? && (f.test || f.stat || InBackupDir(name) !in s.disk.files))
  {
    var path := InBackupDir(name);
    var (r1, s1) := ExecProbed(s, w, TestFile(path), f.test);
    ExecProbedFacts(s, w, TestFile(path), f.test);
    if r1.Exited? && r1.ok {
      var (r2, s2) := ExecProbed(s1, w, Stat(path), f.stat);
      ExecProbedFacts(s1, w, Stat(path), f.stat);
      if r2.Exited? && r2.ok {
        var (r3, s3) := ExecProbed(s2, w, Cat(path), f.cat);
        ExecProbedFacts(s2, w, Cat(path), f.cat);
        var content := if r3.ok then r3.out else "";
        ExportCountIsParsed(SplitOn(content, '\n'), 0);
      }
    }
  }

  /** The files the lines of `ls -lt` list, in order. */
  function ListedIn(lines: seq<string>): seq<Listed>
    decreases |lines|
  {
    if lines == [] then []
    else
      var last := ListedOf(lines[|lines| - 1]);
      ListedIn(lines[..|lines| - 1]) + if last.Some? then [last.value] else []
  }

  /** The description of a listed file: the one its sidecar holds, or `""`
      when it has no sidecar or the sidecar cannot be read. */
  function SidecarDescription(files: map<string, string>, filename: string, unreadable: bool): string {
    var info := InBackupDir(filename + ".info");
    if info in files && !unreadable then DescriptionIn(SplitOn(files[info], '\n')) else ""
  }

  /** The record `list_backups` promises for a listed file on a machine
      whose files are `files`, when the sidecars of `sidecarFails` cannot
      be read. */
  function RecordFor(l: Listed, files: map<string, string>, sidecarFails: set<string>): BackupRecord {
    BackupRecord(l.filename, TimestampOf(l.filename), l.size, l.date,
                 SidecarDescription(files, l.filename, l.filename in sidecarFails), InBackupDir(l.filename))
  }

  /** The loop over the listing changes no file.  With a privilege tool it
      gives one record per listed file, in order, each with the name, size
      and date of its line, the timestamp read from its name, its full path
      and the description its sidecar holds (or `""` when the sidecar is
      missing or its `cat` fails). */
  lemma {:induction false} RecordsShape(s: World, w: Which, lines: seq<string>, sidecarFails: set<string>)
    ensures var (r, s') := RecordsFrom(s, w, lines, sidecarFails);
            && s'.disk == s.disk
            && (r.Ok? ==> (|r.value| <= |lines|
                 && forall k :: 0 <= k < |r.value| ==>
                      r.value[k].fullPath == InBackupDir(r.value[k].filename)
                      && r.value[k].timestamp == TimestampOf(r.value[k].filename)))
            && (Probe(w).Some? ==>
                  var listed := ListedIn(lines);
                  && r.Ok? && |r.value| == |listed|
                  && forall k :: 0 <= k < |listed| ==> r.value[k] == RecordFor(listed[k], s.disk.files, sidecarFails))
    decreases |lines|
  {
    if lines != [] {
      var pre := lines[..|lines| - 1];
      RecordsShape(s, w, pre, sidecarFails);
      var (prev, s1) := RecordsFrom(s, w, pre, sidecarFails);
      var l := ListedOf(lines[|lines| - 1]);
      if prev.Ok? && l.Some? {
        var info := InBackupDir(l.value.filename + ".info");
        var fails := l.value.filename in sidecarFails;
        ExecProbedFacts(s1, w, Cat(info), fails);
        var ran := ExecProbed(s1, w, Cat(info), fails).0;
        var r := RecordOf(l.value, ran);
        assert r.fullPath == InBackupDir(r.filename) && r.timestamp == TimestampOf(r.filename);
        if Probe(w).Some? {
          assert r == RecordFor(l.value, s.disk.files, sidecarFails);
          var listed := ListedIn(lines);
          assert listed == ListedIn(pre) + [l.value];
          var all := prev.value + [r];
          forall k | 0 <= k < |listed| ensures all[k] == RecordFor(listed[k], s.disk.files, sidecarFails) {
            if k < |ListedIn(pre)| {
              assert all[k] == prev.value[k] && listed[k] == ListedIn(pre)[k];
            }
          }
        }
      }
    }
  }

  /** `list_backups` changes no file.  It raises only without a privilege
      tool; with one, a missing backup directory, a failed `test -d` or a
      failed `ls` give the empty list, not an error, and otherwise the
      records are those of the listed files (`RecordsShape`). */
  lemma ListEffect(s: World, w: Which, listing: string, testFails: bool, lsFails: bool, sidecarFails: set<string>)
    ensures var (r, s') := ListSpec(s, w, listing, testFails, lsFails, sidecarFails);
            && s'.disk == s.disk
            && (r == Err(NoPrivilegeTool) <==> Probe(w).None?)
            && (Probe(w).Some? && (testFails || BackupDir !in s.disk.dirs || lsFails) ==> r == Ok([]))
            && (Probe(w).Some? && !testFails && BackupDir in s.disk.dirs && !lsFails ==>
                  var listed := ListedIn(SplitOn(listing, '\n'));
                  && r.Ok? && |r.value| == |listed|
                  && forall k :: 0 <= k < |listed| ==> r.value[k] == RecordFor(listed[k], s.disk.files, sidecarFails))
  {
    var (r1, s1) := ExecProbed(s, w, TestDir(BackupDir), testFails);
    ExecProbedFacts(s, w, TestDir(BackupDir), testFails);
    if r1.Exited? && r1.ok {
      var (r2, s2) := ExecProbed(s1, w, ListByTime(BackupDir), lsFails);
      ExecProbedFacts(s1, w, ListByTime(BackupDir), lsFails);
      if r2.Exited? && r2.ok {
        RecordsShape(s2, w, SplitOn(listing, '\n'), sidecarFails);
      }
    }
  }

  // ---------------------------------------------------------------------
  // The manager

  /** `BackupManager`, working on one machine. */
  class BackupManager {
    const fs: FileSystem

    constructor (fs0: FileSystem)
      ensures fs == fs0
    {
      fs := fs0;
    }

    function Now(): World
      reads fs
    {
      World(fs.State(), None, fs.trace)
    }

    /** `create_backup(description)` */
    method CreateBackup(w: Which, ts: string, description: string, tmp: string, f: CreateFaults)
      returns (r: Result<string, BackupFailure>)
      modifies fs
      ensures (r, Now()) == CreateSpec(old(Now()), w, ts, description, tmp, f)
    {
      var r1 := RunProbed(fs, w, MakeDirs(BackupDir), f.mkdir);
      if r1.NoTool? {
        return Err(NoPrivilegeTool);
      }
      if !r1.ok {
        return Err(DirectoryFailed);
      }
      var name := BackupFilename(ts);
      var path := InBackupDir(name);
      var r2 := RunProbed(fs, w, Copy(ExportsPath, path), f.copy);
      if r2.NoTool? {
        return Err(NoPrivilegeTool);
      }
      if !r2.ok {
        return Err(CopyFailed);
      }
      if description == "" {
        return Ok(name);
      }
      r := WriteSidecar(w, name, path + ".info", InfoContent(ts, description), tmp, f.tempWrite, f.move);
    }

    /** The sidecar step of `create_backup`. */
    method WriteSidecar(w: Which, name: string, info: string, content: string, tmp: string,
                        tempWriteFails: bool, moveFails: bool)
      returns (r: Result<string, BackupFailure>)
      modifies fs
      ensures (r, Now()) == SidecarSpec(old(Now()), w, name, info, content, tmp, tempWriteFails, moveFails)
    {
      if tempWriteFails {
        fs.WriteLocal(tmp, "");
        return Err(SidecarWriteFailed);
      }
      fs.WriteLocal(tmp, content);
      var ran := RunProbed(fs, w, Move(tmp, info), moveFails);
      if ran.NoTool? {
        return Err(NoPrivilegeTool);
      }
      if !ran.ok {
        fs.RemoveLocal(tmp);
      }
      r := Ok(name);
    }

    /** `list_backups()` */
    method ListBackups(w: Which, listing: string, testFails: bool, lsFails: bool, sidecarFails: set<string>)
      returns (r: Result<seq<BackupRecord>, BackupFailure>)
      modifies fs
      ensures (r, Now()) == ListSpec(old(Now()), w, listing, testFails, lsFails, sidecarFails)
    {
      var r1 := RunProbed(fs, w, TestDir(BackupDir), testFails);
      if r1.NoTool? {
        return Err(NoPrivilegeTool);
      }
      if !r1.ok {
        return Ok([]);
      }
      var r2 := RunProbed(fs, w, ListByTime(BackupDir), lsFails);
      if r2.NoTool? {
        return Err(NoPrivilegeTool);
      }
      if !r2.ok {
        return Ok([]);
      }
      r := CollectRecords(w, SplitOn(listing, '\n'), sidecarFails);
    }

    /** The loop of `list_backups` over the lines of the listing. */
    method CollectRecords(w: Which, lines: seq<string>, sidecarFails: set<string>)
      returns (r: Result<seq<BackupRecord>, BackupFailure>)
      modifies fs
      ensures (r, Now()) == RecordsFrom(old(Now()), w, lines, sidecarFails)
    {
      ghost var s0 := Now();
      var backups: seq<BackupRecord> := [];
      for i := 0 to |lines|
        invariant (Ok(backups), Now()) == RecordsFrom(s0, w, lines[..i], sidecarFails)
      {
        assert lines[..i + 1][..i] == lines[..i];
        var listed := ListedOf(lines[i]);
        if listed.Some? {
          var info := RunProbed(fs, w, Cat(InBackupDir(listed.value.filename + ".info")),
                                listed.value.filename in sidecarFails);
          if info.NoTool? {
            RecordsStopAtError(s0, w, lines, sidecarFails, i + 1);
            return Err(NoPrivilegeTool);
          }
          backups := backups + [RecordOf(listed.value, info)];
        }
      }
      assert lines[..|lines|] == lines;
      r := Ok(backups);
    }

    /** `restore_backup(backup_filename)` */
    method RestoreBackup(w: Which, name: string, ts: string, tmp: string, f: RestoreFaults)
      returns (r: Outcome<BackupFailure>)
      modifies fs
      ensures (r, Now()) == RestoreSpec(old(Now()), w, name, ts, tmp, f)
    {
      var path := InBackupDir(name);
      var r1 := RunProbed(fs, w, TestFile(path), f.test);
      if r1.NoTool? {
        return Fail(NoPrivilegeTool);
      }
      if !r1.ok {
        return Fail(BackupMissing);
      }
      var c := CreateBackup(w, ts, AutoDescription, tmp, f.create);
      if c.Err? {
        return Fail(c.error);
      }
      r := Install(w, path, f.copy, f.reload);
    }

    /** The copy over `/etc/exports` and the reload that end `restore_backup`. */
    method Install(w: Which, path: string, copyFails: bool, reloadFails: bool) returns (r: Outcome<BackupFailure>)
      modifies fs
      ensures (r, Now()) == InstallSpec(old(Now()), w, path, copyFails, reloadFails)
    {
      var r1 := RunProbed(fs, w, Copy(path, ExportsPath), copyFails);
      if r1.NoTool? {
        return Fail(NoPrivilegeTool);
      }
      if !r1.ok {
        return Fail(RestoreFailed);
      }
      var r2 := RunProbed(fs, w, ReloadExports, reloadFails);
      if r2.NoTool? {
        return Fail(NoPrivilegeTool);
      }
      if !r2.ok {
        return Fail(ReloadFailed);
      }
      r := Pass;
    }

    /** `delete_backup(backup_filename)` */
    method DeleteBackup(w: Which, name: string, rmFails: bool, rmInfoFails: bool) returns (r: Outcome<BackupFailure>)
      modifies fs
      ensures (r, Now()) == DeleteSpec(old(Now()), w, name, rmFails, rmInfoFails)
    {
      var path := InBackupDir(name);
      var r1 := RunProbed(fs, w, RemoveForce(path), rmFails);
      if r1.NoTool? {
        return Fail(NoPrivilegeTool);
      }
      if !r1.ok {
        return Fail(RemoveFailed);
      }
      var r2 := RunProbed(fs, w, RemoveForce(path + ".info"), rmInfoFails);
      if r2.NoTool? {
        return Fail(NoPrivilegeTool);
      }
      r := Pass;
    }

    /** `get_backup_info(backup_filename)` */
    method GetBackupInfo(w: Which, name: string, f: InfoFaults) returns (r: Result<Option<BackupInfo>, BackupFailure>)
      modifies fs
      ensures (r, Now()) == InfoSpec(old(Now()), w, name, f)
    {
      var path := InBackupDir(name);
      var r1 := RunProbed(fs, w, TestFile(path), f.test);
      if r1.NoTool? {
        return Err(NoPrivilegeTool);
      }
      if !r1.ok {
        return Ok(None);
      }
      var r2 := RunProbed(fs, w, Stat(path), f.stat);
      if r2.NoTool? {
        return Err(NoPrivilegeTool);
      }
      if !r2.ok {
        return Ok(None);
      }
      var r3 := RunProbed(fs, w, Cat(path), f.cat);
      if r3.NoTool? {
        return Err(NoPrivilegeTool);
      }
      var content := if r3.ok then r3.out else "";
      var count := CountExportLines(content);
      r := Ok(Some(BackupInfo(name, path, count, content)));
    }
  }
}
