/** The file side of `util/exports_manager.py`: reading `/etc/exports` with a
    privileged `cat` as fallback, the backup to `/etc/exports.bak`, the
    temp-file-then-`mv` replacement followed by `exportfs -ra` with a rollback
    when the reload fails, the three editing operations built on it, and the
    restore of a backup.  Each method is proved against a function on the
    `World` it starts from; the lemmas state what those functions promise. */
module ExportsWriter {
  import opened Common
  import opened Text
  import opened Host
  import opened Exports

  const BackupPath: string := ExportsPath + ".bak"

  /** The failures of one write that the machine state does not decide:
      the temporary file cannot be written, the unprivileged backup copy is
      refused (so `cp` runs privileged), or a privileged command fails. */
  datatype WriteFaults = WriteFaults(
    tempWrite: bool, copyDenied: bool, backupCopy: bool, move: bool, reload: bool, rollback: bool)

  /** How the read of the table goes: the unprivileged open is refused (so
      `cat` runs privileged), and whether that `cat` fails. */
  datatype ReadFaults = ReadFaults(denied: bool, cat: bool)

  /** `mkstemp` paths never name the table or its backup. */
  lemma TempIsNotTable(tmp: string)
    requires IsTempPath(tmp)
    ensures tmp != ExportsPath && tmp != BackupPath
  {
    assert tmp[1] == 't';
    assert ExportsPath[1] == 'e' && BackupPath[1] == 'e';
  }

  // ---------------------------------------------------------------------
  // Specification functions

  /** `_read_file_as_root(EXPORTS_PATH)`: a missing file raises; a refused
      open falls back to a privileged `cat`. */
  function ReadSpec(s: World, w: Which, f: ReadFaults): (Result<string, ExportsError>, World) {
    if ExportsPath !in s.disk.files then (Err(OsError), s)
    else if !f.denied then (Ok(s.disk.files[ExportsPath]), s)
    else
      var (r, s1) := Exec(s, w, Cat(ExportsPath), f.cat);
      if r.NoTool? then (Err(NoPrivilegeTool), s1)
      else if !r.ok then (Err(ReadFailed), s1)
      else (Ok(r.out), s1)
  }

  /** `backup(path)`: `shutil.copyfile`, which refuses to copy a file onto
      itself, onto a directory or from a missing file, and falls back to a
      privileged `cp` when refused permission. */
  function BackupSpec(s: World, w: Which, path: string, copyDenied: bool, cpFails: bool)
    : (Result<string, ExportsError>, World)
  {
    if path == ExportsPath || ExportsPath !in s.disk.files || path in s.disk.dirs then (Err(OsError), s)
    else if !copyDenied then (Ok(path), WriteFile(s, path, s.disk.files[ExportsPath]))
    else
      var (r, s1) := Exec(s, w, Copy(ExportsPath, path), cpFails);
      if r.NoTool? then (Err(NoPrivilegeTool), s1)
      else if !r.ok then (Err(BackupFailed), s1)
      else (Ok(path), s1)
  }

  /** `_write_temp_and_move(new_text)` (and `apply_new_content`, which only calls it). */
  function WriteSpec(s: World, w: Which, newText: string, tmp: string, f: WriteFaults)
    : (Outcome<ExportsError>, World)
  {
    if f.tempWrite then (Fail(OsError), s)
    else
      var s1 := WriteFile(s, tmp, newText);
      var (b, s2) := BackupSpec(s1, w, BackupPath, f.copyDenied, f.backupCopy);
      if b.Err? then (Fail(b.error), RemoveFile(s2, tmp))
      else MoveAndReload(s2, w, tmp, f)
  }

  /** The second half of `_write_temp_and_move`, once the backup is taken:
      `mv` of the temporary file over the table, then `exportfs -ra`, and the
      copy back from the backup when the reload fails. */
  function MoveAndReload(s: World, w: Which, tmp: string, f: WriteFaults): (Outcome<ExportsError>, World) {
    var (m, s1) := Exec(s, w, Move(tmp, ExportsPath), f.move);
    if m.NoTool? then (Fail(NoPrivilegeTool), RemoveFile(s1, tmp))
    else if !m.ok then (Fail(MoveFailed), RemoveFile(s1, tmp))
    else
      var (x, s2) := Exec(s1, w, ReloadExports, f.reload);
      if x.NoTool? then (Fail(NoPrivilegeTool), s2)
      else if !x.ok then (Fail(ReloadFailed), Exec(s2, w, Copy(BackupPath, ExportsPath), f.rollback).1)
      else (Pass, s2)
  }

  /** What the move and the reload do to the staged files: on success the
      temporary file has become the table and is served; a failed move only
      removes the temporary file; a failed reload leaves the new text in place
      unless the copy back from the backup succeeded. */
  lemma MoveAndReloadFacts(s: World, w: Which, tmp: string, f: WriteFaults)
    requires tmp in s.disk.files && BackupPath in s.disk.files && tmp != ExportsPath && tmp != BackupPath
    ensures var (r, s') := MoveAndReload(s, w, tmp, f);
            && s'.disk.dirs == s.disk.dirs
            && (r == Pass ==> s'.disk.files == (s.disk.files - {tmp})[ExportsPath := s.disk.files[tmp]]
                              && s'.disk.exported == s.disk.files[tmp]
                              && |s'.trace| == |s.trace| + 2
                              && s'.trace[..|s.trace|] == s.trace
                              && s'.trace[|s.trace|].command == Move(tmp, ExportsPath)
                              && s'.trace[|s.trace| + 1].command == ReloadExports)
            && (r.Fail? ==> s'.disk.exported == s.disk.exported)
            && (r.Fail? && r != Fail(ReloadFailed) ==> s'.disk.files == s.disk.files - {tmp})
            && (r == Fail(ReloadFailed) ==>
                  && !f.move && f.reload
                  && s'.disk.files - {ExportsPath} == (s.disk.files - {tmp}) - {ExportsPath}
                  && ExportsPath in s'.disk.files
                  && s'.disk.files[ExportsPath] == if f.rollback then s.disk.files[tmp] else s.disk.files[BackupPath])
            && (r.Fail? ==> r.error == NoPrivilegeTool || r.error == MoveFailed || r.error == ReloadFailed)
            && (r == Fail(MoveFailed) ==> f.move)
            && (r == Fail(NoPrivilegeTool) ==> s.cached.None? && Probe(w).None?)
  {
    var (m, s1) := Exec(s, w, Move(tmp, ExportsPath), f.move);
    ExecFacts(s, w, Move(tmp, ExportsPath), f.move);
    if m.Exited? && m.ok {
      var (x, s2) := Exec(s1, w, ReloadExports, f.reload);
      ExecFacts(s1, w, ReloadExports, f.reload);
      ExecFacts(s2, w, Copy(BackupPath, ExportsPath), f.rollback);
    }
  }

  /** `add_entry(path, hosts_expr)`. */
  function AddSpec(s: World, w: Which, path: string, hostsExpr: string, rf: ReadFaults, tmp: string, f: WriteFaults)
    : (Outcome<ExportsError>, World)
  {
    if path == "" || hostsExpr == "" then (Fail(InvalidArgument), s)
    else
      var (c, s1) := ReadSpec(s, w, rf);
      if c.Err? then (Fail(c.error), s1)
      else
        match AddEntry(SplitLines(c.value), path, hostsExpr)
        case Err(e) => (Fail(e), s1)
        case Ok(text) => WriteSpec(s1, w, text, tmp, f)
  }

  /** `remove_entry(match_path)`. */
  function RemoveSpec(s: World, w: Which, matchPath: string, rf: ReadFaults, tmp: string, f: WriteFaults)
    : (Outcome<ExportsError>, World)
  {
    var (c, s1) := ReadSpec(s, w, rf);
    if c.Err? then (Fail(c.error), s1)
    else
      match RemoveEntry(SplitLines(c.value), matchPath)
      case Err(e) => (Fail(e), s1)
      case Ok(text) => WriteSpec(s1, w, text, tmp, f)
  }

  /** `edit_entry(match_path, new_hosts_expr)`. */
  function EditSpec(s: World, w: Which, matchPath: string, newHostsExpr: string, rf: ReadFaults, tmp: string, f: WriteFaults)
    : (Outcome<ExportsError>, World)
  {
    var (c, s1) := ReadSpec(s, w, rf);
    if c.Err? then (Fail(c.error), s1)
    else
      match Edit(SplitLines(c.value), matchPath, newHostsExpr)
      case Err(e) => (Fail(e), s1)
      case Ok(text) => WriteSpec(s1, w, text, tmp, f)
  }

  /** The backup `restore_backup` copies from: the argument unless it is
      missing or empty (Python's `or`). */
  function RestoreSource(backupPath: Option<string>): string {
    if backupPath.Some? && backupPath.value != "" then backupPath.value else BackupPath
  }

  /** `restore_backup(backup_path)`: no rollback when the reload fails. */
  function RestoreSpec(s: World, w: Which, backupPath: Option<string>, cpFails: bool, reloadFails: bool)
    : (Outcome<ExportsError>, World)
  {
    var src := RestoreSource(backupPath);
    if src !in s.disk.files && src !in s.disk.dirs then (Fail(BackupMissing), s)
    else
      var (r, s1) := Exec(s, w, Copy(src, ExportsPath), cpFails);
      if r.NoTool? then (Fail(NoPrivilegeTool), s1)
      else if !r.ok then (Fail(RestoreCopyFailed), s1)
      else
        var (x, s2) := Exec(s1, w, ReloadExports, reloadFails);
        if x.NoTool? then (Fail(NoPrivilegeTool), s2)
        else if !x.ok then (Fail(ReloadFailed), s2)
        else (Pass, s2)
  }

  // ---------------------------------------------------------------------
  // What the specifications promise

  /** The commands of the invocations recorded after `before`. */
  function RanSince(before: World, after: World): seq<Command>
    requires |before.trace| <= |after.trace|
  {
    Commands(after.trace[|before.trace|..])
  }

  /** The backup copies the live table and touches nothing else; it fails
      without changing the machine. */
  lemma BackupCopiesTable(s: World, w: Which, path: string, copyDenied: bool, cpFails: bool)
    ensures var (r, s') := BackupSpec(s, w, path, copyDenied, cpFails);
            && (r.Ok? ==> (r.value == path && ExportsPath in s.disk.files
                           && s'.disk == s.disk.(files := s.disk.files[path := s.disk.files[ExportsPath]])))
            && (r.Err? ==> s'.disk == s.disk)
            && (r.Ok? <==> path != ExportsPath && ExportsPath in s.disk.files && path !in s.disk.dirs
                           && (!copyDenied || (Lookup(s.cached, w).Some? && !cpFails)))
  {
  }

  /** A write that succeeds leaves the new text in `/etc/exports`, the old
      table in `/etc/exports.bak`, no temporary file, every other file as it
      was, and the server serving the new text; it ran `mv` then `exportfs -ra`
      (after a privileged `cp` when the plain copy was refused). */
  lemma {:induction false} WriteSuccess(s: World, w: Which, newText: string, tmp: string, f: WriteFaults)
    requires IsTempPath(tmp) && tmp !in s.disk.files
    requires WriteSpec(s, w, newText, tmp, f).0 == Pass
    ensures var s' := WriteSpec(s, w, newText, tmp, f).1;
            && ExportsPath in s.disk.files
            && s'.disk.files == s.disk.files[BackupPath := s.disk.files[ExportsPath]][ExportsPath := newText]
            && s'.disk.exported == newText
            && s'.disk.dirs == s.disk.dirs
            && |s.trace| <= |s'.trace|
            && RanSince(s, s') == (if f.copyDenied then [Copy(ExportsPath, BackupPath)] else [])
                                  + [Move(tmp, ExportsPath), ReloadExports]
  {
    TempIsNotTable(tmp);
    var s1 := WriteFile(s, tmp, newText);
    var (b, s2) := BackupSpec(s1, w, BackupPath, f.copyDenied, f.backupCopy);
    assert !f.tempWrite && b.Ok? && WriteSpec(s, w, newText, tmp, f) == MoveAndReload(s2, w, tmp, f);
    BackupStep(s1, w, f.copyDenied, f.backupCopy);
    StagedWrite(s, s2, w, newText, tmp, f);
  }

  /** The move and the reload after the temporary file is written and the
      backup is taken. */
  lemma StagedWrite(s: World, s2: World, w: Which, newText: string, tmp: string, f: WriteFaults)
    requires tmp !in s.disk.files && tmp != ExportsPath && tmp != BackupPath && ExportsPath in s.disk.files
    requires s2.disk == s.disk.(files := s.disk.files[tmp := newText][BackupPath := s.disk.files[ExportsPath]])
    requires |s.trace| <= |s2.trace|
    requires Commands(s2.trace[|s.trace|..]) == if f.copyDenied then [Copy(ExportsPath, BackupPath)] else []
    requires MoveAndReload(s2, w, tmp, f).0 == Pass
    ensures var s' := MoveAndReload(s2, w, tmp, f).1;
            && s'.disk.files == s.disk.files[BackupPath := s.disk.files[ExportsPath]][ExportsPath := newText]
            && s'.disk.exported == newText
            && s'.disk.dirs == s.disk.dirs
            && |s.trace| <= |s'.trace|
            && RanSince(s, s') == (if f.copyDenied then [Copy(ExportsPath, BackupPath)] else [])
                                  + [Move(tmp, ExportsPath), ReloadExports]
  {
    MoveAndReloadFacts(s2, w, tmp, f);
    var s4 := MoveAndReload(s2, w, tmp, f).1;
    MoveTemp(s.disk.files, tmp, s.disk.files[ExportsPath], newText);
    var n := |s2.trace|;
    assert s4.trace == s2.trace + [s4.trace[n], s4.trace[n + 1]];
    CommandsSince(s.trace, s2.trace, s4.trace[n], s4.trace[n + 1]);
  }

  /** A backup that succeeds adds the copy of the live table and, when the
      plain copy was refused, records one privileged `cp`. */
  lemma BackupStep(s: World, w: Which, copyDenied: bool, cpFails: bool)
    requires BackupSpec(s, w, BackupPath, copyDenied, cpFails).0.Ok?
    ensures var s' := BackupSpec(s, w, BackupPath, copyDenied, cpFails).1;
            && ExportsPath in s.disk.files
            && s'.disk == s.disk.(files := s.disk.files[BackupPath := s.disk.files[ExportsPath]])
            && |s.trace| <= |s'.trace|
            && Commands(s'.trace[|s.trace|..]) == if copyDenied then [Copy(ExportsPath, BackupPath)] else []
  {
    BackupCopiesTable(s, w, BackupPath, copyDenied, cpFails);
    var s' := BackupSpec(s, w, BackupPath, copyDenied, cpFails).1;
    if copyDenied {
      ExecFacts(s, w, Copy(ExportsPath, BackupPath), cpFails);
      assert s'.trace[|s.trace|..] == [s'.trace[|s.trace|]];
    } else {
      assert s'.trace[|s.trace|..] == [];
    }
  }

  /** The files after the temporary file is written, the backup is taken and
      the temporary file is moved over the table. */
  lemma MoveTemp(files: map<string, string>, tmp: string, live: string, newText: string)
    requires tmp !in files && tmp != ExportsPath && tmp != BackupPath
    ensures var staged := files[tmp := newText][BackupPath := live];
            (staged - {tmp})[ExportsPath := staged[tmp]] == files[BackupPath := live][ExportsPath := newText]
  {
  }

  /** The commands run since `t` when two more runs follow the trace `u`. */
  lemma CommandsSince(t: seq<Invocation>, u: seq<Invocation>, i: Invocation, j: Invocation)
    requires |t| <= |u|
    ensures (u + [i, j])[|t|..] == u[|t|..] + [i, j]
    ensures Commands(u[|t|..] + [i, j]) == Commands(u[|t|..]) + [i.command, j.command]
  {
  }

  /** Whatever happens, no temporary file is left behind. */
  lemma WriteLeavesNoTemp(s: World, w: Which, newText: string, tmp: string, f: WriteFaults)
    requires IsTempPath(tmp) && tmp !in s.disk.files
    ensures tmp !in WriteSpec(s, w, newText, tmp, f).1.disk.files
  {
    TempIsNotTable(tmp);
  }

  /** A failed write never changes what the server serves, and leaves the old
      table in place, except when the reload failed and so did the copy back
      from the backup: then the new text stays in `/etc/exports`. */
  lemma WriteFailure(s: World, w: Which, newText: string, tmp: string, f: WriteFaults)
    requires IsTempPath(tmp) && tmp !in s.disk.files
    requires WriteSpec(s, w, newText, tmp, f).0.Fail?
    ensures var (r, s') := WriteSpec(s, w, newText, tmp, f);
            && s'.disk.exported == s.disk.exported
            && (ExportsPath in s'.disk.files <==> ExportsPath in s.disk.files)
            && (ExportsPath in s.disk.files ==>
                  s'.disk.files[ExportsPath]
                  == if r == Fail(ReloadFailed) && f.rollback then newText else s.disk.files[ExportsPath])
  {
    TempIsNotTable(tmp);
    if !f.tempWrite {
      var s1 := WriteFile(s, tmp, newText);
      var (b, s2) := BackupSpec(s1, w, BackupPath, f.copyDenied, f.backupCopy);
      if b.Err? {
        assert WriteSpec(s, w, newText, tmp, f) == (Fail(b.error), RemoveFile(s2, tmp));
        assert b.error != ReloadFailed && s2.disk == s1.disk by {
          BackupCopiesTable(s1, w, BackupPath, f.copyDenied, f.backupCopy);
        }
        assert s1.disk.files - {tmp} == s.disk.files;
      } else {
        assert WriteSpec(s, w, newText, tmp, f) == MoveAndReload(s2, w, tmp, f);
        BackupStep(s1, w, f.copyDenied, f.backupCopy);
        MoveAndReloadFacts(s2, w, tmp, f);
        var (r, s') := MoveAndReload(s2, w, tmp, f);
        if r == Fail(ReloadFailed) {
          assert s2.disk.files[tmp] == newText;
          assert s2.disk.files[BackupPath] == s.disk.files[ExportsPath];
        } else {
          assert s'.disk.files == s2.disk.files - {tmp};
          assert s'.disk.files[ExportsPath] == s2.disk.files[ExportsPath] == s.disk.files[ExportsPath];
        }
      }
    }
  }

  /** The exception a write raises names the first step that failed. */
  lemma WriteFailureCause(s: World, w: Which, newText: string, tmp: string, f: WriteFaults)
    requires IsTempPath(tmp) && tmp !in s.disk.files
    ensures var r := WriteSpec(s, w, newText, tmp, f).0;
            && (r == Fail(OsError) <==>
                  f.tempWrite || ExportsPath !in s.disk.files || BackupPath in s.disk.dirs)
            && (r == Fail(MoveFailed) ==> !f.tempWrite && f.move)
            && (r == Fail(ReloadFailed) ==> !f.tempWrite && !f.move && f.reload)
            && (r == Fail(BackupFailed) ==> !f.tempWrite && f.copyDenied && f.backupCopy)
  {
    TempIsNotTable(tmp);
    if !f.tempWrite {
      var s1 := WriteFile(s, tmp, newText);
      var (b, s2) := BackupSpec(s1, w, BackupPath, f.copyDenied, f.backupCopy);
      BackupCopiesTable(s1, w, BackupPath, f.copyDenied, f.backupCopy);
      if b.Ok? {
        assert WriteSpec(s, w, newText, tmp, f) == MoveAndReload(s2, w, tmp, f);
        BackupStep(s1, w, f.copyDenied, f.backupCopy);
        MoveAndReloadFacts(s2, w, tmp, f);
      }
    }
  }

  /** An added entry is what the next `list_parsed` finds last, exactly once,
      and the server serves the new table. */
  lemma {:induction false} AddThenList(s: World, w: Which, path: string, hostsExpr: string,
                                       rf: ReadFaults, tmp: string, f: WriteFaults)
    requires IsTempPath(tmp) && tmp !in s.disk.files
    requires NoSpace(path) && path != "" && path[0] != '#' && NoBreak(hostsExpr)
    requires AddSpec(s, w, path, hostsExpr, rf, tmp, f).0 == Pass
    ensures var s' := AddSpec(s, w, path, hostsExpr, rf, tmp, f).1;
            && ExportsPath in s'.disk.files && s'.disk.exported == s'.disk.files[ExportsPath]
            && var p := Parsed(SplitLines(s'.disk.files[ExportsPath]));
            && p != [] && p[|p| - 1].path == path
            && p[|p| - 1].hosts == HostRules(Split(hostsExpr))
            && forall k :: 0 <= k < |p| - 1 ==> p[k].path != path
  {
    var (c, s1) := ReadSpec(s, w, rf);
    var lines := SplitLines(c.value);
    var text := AddEntry(lines, path, hostsExpr).value;
    WriteSuccess(s1, w, text, tmp, f);
    AddThenParse(lines, path, hostsExpr);
  }

  /** After a successful `remove_entry(p)` the table has no entry whose path
      starts with `p`, and the server serves that table. */
  lemma RemoveThenList(s: World, w: Which, matchPath: string, rf: ReadFaults, tmp: string, f: WriteFaults)
    requires IsTempPath(tmp) && tmp !in s.disk.files && matchPath != ""
    requires RemoveSpec(s, w, matchPath, rf, tmp, f).0 == Pass
    ensures var s' := RemoveSpec(s, w, matchPath, rf, tmp, f).1;
            && ExportsPath in s'.disk.files && s'.disk.exported == s'.disk.files[ExportsPath]
            && forall e :: e in Parsed(SplitLines(s'.disk.files[ExportsPath])) ==> !StartsWith(e.path, matchPath)
  {
    ReadReturnsTable(s, w, rf);
    var (c, s1) := ReadSpec(s, w, rf);
    assert c.Ok?;
    var lines := SplitLines(c.value);
    assert RemoveEntry(lines, matchPath).Ok?;
    var text := RemoveEntry(lines, matchPath).value;
    assert RemoveSpec(s, w, matchPath, rf, tmp, f) == WriteSpec(s1, w, text, tmp, f);
    assert tmp !in s1.disk.files;
    WriteSuccess(s1, w, text, tmp, f);
    var s' := WriteSpec(s1, w, text, tmp, f).1;
    assert s'.disk.files[ExportsPath] == text;
    RemoveThenParse(lines, matchPath);
  }

  /** A read returns the table as it is on disk, whichever way it was read,
      and changes no file. */
  lemma ReadReturnsTable(s: World, w: Which, f: ReadFaults)
    ensures var (r, s') := ReadSpec(s, w, f);
            && s'.disk == s.disk
            && (r.Ok? ==> ExportsPath in s.disk.files && r.value == s.disk.files[ExportsPath])
            && (r == Err(OsError) <==> ExportsPath !in s.disk.files)
            && (r.Err? && ExportsPath in s.disk.files ==> f.denied)
  {
  }

  /** After a successful `edit_entry(p, e)` the table read back holds as many
      entries as before, all unchanged but one, which now has path `p` and the
      host rules of `e`; the server serves that table. */
  lemma {:induction false} EditThenList(s: World, w: Which, matchPath: string, newHostsExpr: string,
                                        rf: ReadFaults, tmp: string, f: WriteFaults)
    requires IsTempPath(tmp) && tmp !in s.disk.files
    requires NoSpace(matchPath) && matchPath != "" && matchPath[0] != '#' && NoBreak(newHostsExpr)
    requires EditSpec(s, w, matchPath, newHostsExpr, rf, tmp, f).0 == Pass
    ensures var s' := EditSpec(s, w, matchPath, newHostsExpr, rf, tmp, f).1;
            && ExportsPath in s.disk.files && ExportsPath in s'.disk.files
            && s'.disk.exported == s'.disk.files[ExportsPath]
            && var before := Parsed(SplitLines(s.disk.files[ExportsPath]));
               var after := Parsed(SplitLines(s'.disk.files[ExportsPath]));
            && |after| == |before|
            && exists j :: 0 <= j < |before|
                 && after[j].path == matchPath && after[j].hosts == HostRules(Split(newHostsExpr))
                 && forall i :: 0 <= i < |before| && i != j ==> after[i] == before[i]
  {
    ReadReturnsTable(s, w, rf);
    var (c, s1) := ReadSpec(s, w, rf);
    assert c.Ok?;
    var lines := SplitLines(c.value);
    assert Edit(lines, matchPath, newHostsExpr).Ok?;
    var text := Edit(lines, matchPath, newHostsExpr).value;
    assert EditSpec(s, w, matchPath, newHostsExpr, rf, tmp, f) == WriteSpec(s1, w, text, tmp, f);
    assert tmp !in s1.disk.files;
    WriteSuccess(s1, w, text, tmp, f);
    var s' := WriteSpec(s1, w, text, tmp, f).1;
    assert s'.disk.files[ExportsPath] == text;
    EditThenReparse(lines, matchPath, newHostsExpr);
  }

  /** An example: adding `/export 192.168.1.0/24(ro,sync)` to a
      table holding the line `/data *(rw)` writes a blank separator line first. */
  lemma AddExample()
    ensures AddEntry(["/data *(rw)"], "/export", "192.168.1.0/24(ro,sync)")
            == Ok("/data *(rw)" + "\n\n" + "/export" + " " + "192.168.1.0/24(ro,sync)" + "\n")
  {
    var line := "/data *(rw)";
    var t := Strip(line);
    assert StartsWith(t, "/data") by {
      assert line == "/data" + " *(rw)";
      assert NoSpace("/data");
      StripKeepsWord("/data", " *(rw)");
    }
    assert t[1] == 'd';
    assert !Matches(line, "/export");
    assert !AnyMatch([line], "/export");
    assert t != "";
    var added := [line, "", "/export" + " " + "192.168.1.0/24(ro,sync)"];
    assert AddedLines([line], "/export", "192.168.1.0/24(ro,sync)") == added;
    assert Join(added[2..], "\n") == added[2];
    assert Join(added[1..], "\n") == "\n" + added[2];
    assert Join(added, "\n") == added[0] + "\n\n" + added[2];
    var text := added[0] + "\n\n" + added[2] + "\n";
    assert LinesText(added) == text;
    assert text == "/data *(rw)" + "\n\n" + "/export" + " " + "192.168.1.0/24(ro,sync)" + "\n";
  }

  /** Restoring fails before running anything when the backup is missing;
      on success `/etc/exports` holds the backup's content and is served. */
  lemma RestoreEffect(s: World, w: Which, backupPath: Option<string>, cpFails: bool, reloadFails: bool)
    ensures var (r, s') := RestoreSpec(s, w, backupPath, cpFails, reloadFails);
            var src := RestoreSource(backupPath);
            && (r == Fail(BackupMissing) <==> src !in s.disk.files && src !in s.disk.dirs)
            && (r == Fail(BackupMissing) ==> s' == s)
            && (r == Pass ==> (src in s.disk.files
                                && s'.disk.files == s.disk.files[ExportsPath := s.disk.files[src]]
                                && s'.disk.exported == s.disk.files[src]))
            && (r == Fail(ReloadFailed) ==> (src in s.disk.files
                                             && s'.disk.files == s.disk.files[ExportsPath := s.disk.files[src]]
                                             && s'.disk.exported == s.disk.exported))
            && (r == Fail(RestoreCopyFailed) ==> s'.disk == s.disk)
  {
  }

  // ---------------------------------------------------------------------
  // The manager

  /** `ExportsManager`: its class-level tool cache and the machine it works on. */
  class ExportsManager {
    const cache: PrivilegeCache
    const fs: FileSystem

    constructor (fs0: FileSystem)
      ensures fs == fs0 && fresh(cache) && cache.cached.None?
    {
      fs := fs0;
      cache := new PrivilegeCache();
    }

    function Now(): World
      reads fs, cache
    {
      World(fs.State(), cache.cached, fs.trace)
    }

    method ReadTable(w: Which, f: ReadFaults) returns (r: Result<string, ExportsError>)
      modifies fs, cache
      ensures (r, Now()) == ReadSpec(old(Now()), w, f)
    {
      if ExportsPath !in fs.files {
        return Err(OsError);
      }
      if !f.denied {
        return Ok(fs.files[ExportsPath]);
      }
      var ran := RunCached(cache, fs, w, Cat(ExportsPath), f.cat);
      if ran.NoTool? {
        return Err(NoPrivilegeTool);
      }
      if !ran.ok {
        return Err(ReadFailed);
      }
      r := Ok(ran.out);
    }

    /** `list_raw` */
    method ListRaw(w: Which, f: ReadFaults) returns (r: Result<seq<string>, ExportsError>)
      modifies fs, cache
      ensures var (c, s') := ReadSpec(old(Now()), w, f);
              && Now() == s'
              && r == (if c.Ok? then Ok(SplitLines(c.value)) else Err(c.error))
    {
      var c := ReadTable(w, f);
      if c.Err? {
        return Err(c.error);
      }
      r := Ok(SplitLines(c.value));
    }

    /** `list_parsed` */
    method ListParsed(w: Which, f: ReadFaults) returns (r: Result<seq<ExportEntry>, ExportsError>)
      modifies fs, cache
      ensures var (c, s') := ReadSpec(old(Now()), w, f);
              && Now() == s'
              && r == (if c.Ok? then Ok(Parsed(SplitLines(c.value))) else Err(c.error))
    {
      var lines := ListRaw(w, f);
      if lines.Err? {
        return Err(lines.error);
      }
      var parsed := ParseLines(lines.value);
      r := Ok(parsed);
    }

    /** `backup(backup_path)` */
    method Backup(w: Which, path: string, copyDenied: bool, cpFails: bool) returns (r: Result<string, ExportsError>)
      modifies fs, cache
      ensures (r, Now()) == BackupSpec(old(Now()), w, path, copyDenied, cpFails)
    {
      if path == ExportsPath || ExportsPath !in fs.files || path in fs.dirs {
        return Err(OsError);
      }
      if !copyDenied {
        fs.WriteLocal(path, fs.files[ExportsPath]);
        return Ok(path);
      }
      var ran := RunCached(cache, fs, w, Copy(ExportsPath, path), cpFails);
      if ran.NoTool? {
        return Err(NoPrivilegeTool);
      }
      if !ran.ok {
        return Err(BackupFailed);
      }
      r := Ok(path);
    }

    /** `_write_temp_and_move(new_text)`; `tmp` is the fresh file `mkstemp` made. */
    method WriteTempAndMove(w: Which, newText: string, tmp: string, f: WriteFaults) returns (r: Outcome<ExportsError>)
      requires IsTempPath(tmp) && tmp !in fs.files
      modifies fs, cache
      ensures (r, Now()) == WriteSpec(old(Now()), w, newText, tmp, f)
    {
      TempIsNotTable(tmp);
      if f.tempWrite {
        return Fail(OsError);
      }
      fs.WriteLocal(tmp, newText);
      var b := Backup(w, BackupPath, f.copyDenied, f.backupCopy);
      if b.Err? {
        fs.RemoveLocal(tmp);
        return Fail(b.error);
      }
      r := MoveAndReloadRun(w, tmp, f);
    }

    /** The `mv` and `exportfs -ra` steps of `_write_temp_and_move`, with the rollback. */
    method MoveAndReloadRun(w: Which, tmp: string, f: WriteFaults) returns (r: Outcome<ExportsError>)
      modifies fs, cache
      ensures (r, Now()) == MoveAndReload(old(Now()), w, tmp, f)
    {
      var m := RunCached(cache, fs, w, Move(tmp, ExportsPath), f.move);
      if m.NoTool? {
        fs.RemoveLocal(tmp);
        return Fail(NoPrivilegeTool);
      }
      if !m.ok {
        fs.RemoveLocal(tmp);
        return Fail(MoveFailed);
      }
      var x := RunCached(cache, fs, w, ReloadExports, f.reload);
      if x.NoTool? {
        return Fail(NoPrivilegeTool);
      }
      if !x.ok {
        var _ := RunCached(cache, fs, w, Copy(BackupPath, ExportsPath), f.rollback);
        return Fail(ReloadFailed);
      }
      r := Pass;
    }

    /** `add_entry(path, hosts_expr)` */
    method AddEntryOp(w: Which, path: string, hostsExpr: string, rf: ReadFaults, tmp: string, f: WriteFaults)
      returns (r: Outcome<ExportsError>)
      requires IsTempPath(tmp) && tmp !in fs.files
      modifies fs, cache
      ensures (r, Now()) == AddSpec(old(Now()), w, path, hostsExpr, rf, tmp, f)
    {
      if path == "" || hostsExpr == "" {
        return Fail(InvalidArgument);
      }
      ReadReturnsTable(Now(), w, rf);
      var lines := ListRaw(w, rf);
      if lines.Err? {
        return Fail(lines.error);
      }
      var text := AddEntry(lines.value, path, hostsExpr);
      if text.Err? {
        return Fail(text.error);
      }
      r := WriteTempAndMove(w, text.value, tmp, f);
    }

    /** `remove_entry(match_path)` */
    method RemoveEntryOp(w: Which, matchPath: string, rf: ReadFaults, tmp: string, f: WriteFaults)
      returns (r: Outcome<ExportsError>)
      requires IsTempPath(tmp) && tmp !in fs.files
      modifies fs, cache
      ensures (r, Now()) == RemoveSpec(old(Now()), w, matchPath, rf, tmp, f)
    {
      ReadReturnsTable(Now(), w, rf);
      var lines := ListRaw(w, rf);
      if lines.Err? {
        return Fail(lines.error);
      }
      var text := RemoveEntry(lines.value, matchPath);
      if text.Err? {
        return Fail(text.error);
      }
      r := WriteTempAndMove(w, text.value, tmp, f);
    }

    /** `edit_entry(match_path, new_hosts_expr)` */
    method EditEntryOp(w: Which, matchPath: string, newHostsExpr: string, rf: ReadFaults, tmp: string, f: WriteFaults)
      returns (r: Outcome<ExportsError>)
      requires IsTempPath(tmp) && tmp !in fs.files
      modifies fs, cache
      ensures (r, Now()) == EditSpec(old(Now()), w, matchPath, newHostsExpr, rf, tmp, f)
    {
      ReadReturnsTable(Now(), w, rf);
      var lines := ListRaw(w, rf);
      if lines.Err? {
        return Fail(lines.error);
      }
      var text := EditEntry(lines.value, matchPath, newHostsExpr);
      if text.Err? {
        return Fail(text.error);
      }
      r := WriteTempAndMove(w, text.value, tmp, f);
    }

    /** `restore_backup(backup_path)` */
    method RestoreBackup(w: Which, backupPath: Option<string>, cpFails: bool, reloadFails: bool)
      returns (r: Outcome<ExportsError>)
      modifies fs, cache
      ensures (r, Now()) == RestoreSpec(old(Now()), w, backupPath, cpFails, reloadFails)
    {
      var src := RestoreSource(backupPath);
      if src !in fs.files && src !in fs.dirs {
        return Fail(BackupMissing);
      }
      var ran := RunCached(cache, fs, w, Copy(src, ExportsPath), cpFails);
      if ran.NoTool? {
        return Fail(NoPrivilegeTool);
      }
      if !ran.ok {
        return Fail(RestoreCopyFailed);
      }
      var x := RunCached(cache, fs, w, ReloadExports, reloadFails);
      if x.NoTool? {
        return Fail(NoPrivilegeTool);
      }
      if !x.ok {
        return Fail(ReloadFailed);
      }
      r := Pass;
    }
  }
}
