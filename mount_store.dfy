/** The command sequences of `util/mount_manager.py` over the machine:
    mounting and unmounting NFS shares, and adding and removing their
    `/etc/fstab` entries through a temporary file moved into place.
    `MountManager` probes for its privilege tool on every call.  Each method
    is proved against a function of the machine it starts from; the lemmas
    state what those functions promise. */
module MountStore {
  import opened Common
  import opened Text
  import opened Host
  import opened Mounts
  import opened Fstab

  const FstabBackupPath: string := FstabPath + ".bak"

  // ---------------------------------------------------------------------
  // mount_nfs and unmount_nfs

  /** The privileged commands of `mount_nfs` that fail for reasons the
      machine state does not show. */
  datatype MountFaults = MountFaults(mkdir: bool, mount: bool)

  /** `os.path.exists`: a file or a directory. */
  predicate Exists(d: Disk, p: string) {
    p in d.files || p in d.dirs
  }

  /** `mount_nfs(server, remote_path, mount_point, options)`; `stderr` is
      what `mount` prints when it fails. */
  function MountSpec(s: World, w: Which, server: string, remotePath: string, mountPoint: string,
                     options: string, f: MountFaults, stderr: string): (Outcome<MountFailure>, World)
  {
    var (r1, s1) :=
      if Exists(s.disk, mountPoint) then (Exited(true, ""), s)
      else ExecProbed(s, w, MakeDirs(mountPoint), f.mkdir);
    if r1.NoTool? then (Fail(NoPrivilegeTool), s1)
    else if !r1.ok then (Fail(MountPointFailed), s1)
    else
      var (r2, s2) := ExecProbed(s1, w, Mount(EffectiveOptions(options), server + ":" + remotePath, mountPoint), f.mount);
      if r2.NoTool? then (Fail(NoPrivilegeTool), s2)
      else if !r2.ok then (Fail(ClassifyMountError(stderr)), s2)
      else (Pass, s2)
  }

  /** `unmount_nfs(mount_point, force)` */
  function UnmountSpec(s: World, w: Which, mountPoint: string, force: bool, fails: bool)
    : (Outcome<MountFailure>, World)
  {
    var (r, s1) := ExecProbed(s, w, Unmount(force, mountPoint), fails);
    if r.NoTool? then (Fail(NoPrivilegeTool), s1)
    else if !r.ok then (Fail(UnmountFailed), s1)
    else (Pass, s1)
  }

  /** A mount succeeds exactly when a privilege tool is found, the mount point
      is a directory or can be created as one, and `mount` does not fail; it
      then records the share with the effective options on the mount point.
      A failing `mount` is reported by the class of its error output, and no
      failure changes the mount table. */
  lemma MountEffect(s: World, w: Which, server: string, remotePath: string, mountPoint: string,
                    options: string, f: MountFaults, stderr: string)
    ensures var (r, s') := MountSpec(s, w, server, remotePath, mountPoint, options, f, stderr);
            && (r.Pass? <==> Probe(w).Some? && !f.mount
                             && (mountPoint in s.disk.dirs || (mountPoint !in s.disk.files && !f.mkdir)))
            && (r.Pass? ==> s'.disk.mounts == s.disk.mounts[mountPoint := Attached(server + ":" + remotePath, EffectiveOptions(options))]
                            && mountPoint in s'.disk.dirs)
            && (r.Fail? ==> s'.disk.mounts == s.disk.mounts)
            && (r == Fail(NoPrivilegeTool) <==> Probe(w).None?)
            && (Probe(w).None? ==> s' == s)
            && (Probe(w).Some? && !f.mount && mountPoint in s.disk.dirs ==> r.Pass?)
            && (Probe(w).Some? && f.mount && Exists(s.disk, mountPoint) ==> r == Fail(ClassifyMountError(stderr)))
            && s'.disk.files == s.disk.files && s'.disk.exported == s.disk.exported
  {
    var c := Mount(EffectiveOptions(options), server + ":" + remotePath, mountPoint);
    if Exists(s.disk, mountPoint) {
      ExecProbedFacts(s, w, c, f.mount);
    } else {
      ExecProbedFacts(s, w, MakeDirs(mountPoint), f.mkdir);
      var (r1, s1) := ExecProbed(s, w, MakeDirs(mountPoint), f.mkdir);
      if r1.Exited? && r1.ok {
        ExecProbedFacts(s1, w, c, f.mount);
      }
    }
  }

  /** An unmount succeeds exactly when a privilege tool is found, something
      is mounted on the mount point and `umount` does not fail; it then
      drops that mount and nothing else. */
  lemma UnmountEffect(s: World, w: Which, mountPoint: string, force: bool, fails: bool)
    ensures var (r, s') := UnmountSpec(s, w, mountPoint, force, fails);
            && (r.Pass? <==> Probe(w).Some? && !fails && mountPoint in s.disk.mounts)
            && (r.Pass? ==> s'.disk.mounts == s.disk.mounts - {mountPoint})
            && (r.Fail? ==> s'.disk == s.disk)
            && (r.Fail? ==> r.error == (if Probe(w).None? then NoPrivilegeTool else UnmountFailed))
            && s'.disk.files == s.disk.files && s'.disk.dirs == s.disk.dirs
  {
    ExecProbedFacts(s, w, Unmount(force, mountPoint), fails);
  }

  /** Unmounting what was just mounted succeeds, and leaves the mount table
      as it was apart from the mount point, which is now free. */
  lemma MountThenUnmount(s: World, w: Which, server: string, remotePath: string, mountPoint: string,
                         options: string, f: MountFaults, stderr: string, force: bool)
    requires MountSpec(s, w, server, remotePath, mountPoint, options, f, stderr).0.Pass?
    ensures var s1 := MountSpec(s, w, server, remotePath, mountPoint, options, f, stderr).1;
            var (r, s2) := UnmountSpec(s1, w, mountPoint, force, false);
            && r.Pass?
            && s2.disk.mounts == s.disk.mounts - {mountPoint}
            && (mountPoint !in s.disk.mounts ==> s2.disk.mounts == s.disk.mounts)
  {
    MountEffect(s, w, server, remotePath, mountPoint, options, f, stderr);
    var s1 := MountSpec(s, w, server, remotePath, mountPoint, options, f, stderr).1;
    UnmountEffect(s1, w, mountPoint, force, false);
    var s2 := UnmountSpec(s1, w, mountPoint, force, false).1;
    assert s2.disk.mounts == s.disk.mounts - {mountPoint} by {
      var m := s.disk.mounts[mountPoint := Attached(server + ":" + remotePath, EffectiveOptions(options))];
      assert s1.disk.mounts == m;
      assert m - {mountPoint} == s.disk.mounts - {mountPoint};
    }
  }

  // ---------------------------------------------------------------------
  // The steps add_to_fstab and remove_from_fstab share

  /** The privileged commands of the fstab edits that fail for reasons the
      machine state does not show. */
  datatype FstabFaults = FstabFaults(copy: bool, cat: bool, tempWrite: bool, move: bool)

  /** The optional `cp /etc/fstab /etc/fstab.bak`: its failure is only a
      warning, but not finding a privilege tool ends the call. */
  function BackupFstabSpec(s: World, w: Which, backup: bool, copyFails: bool): (Outcome<MountFailure>, World) {
    if !backup then (Pass, s)
    else
      var (r, s1) := ExecProbed(s, w, Copy(FstabPath, FstabBackupPath), copyFails);
      if r.NoTool? then (Fail(NoPrivilegeTool), s1) else (Pass, s1)
  }

  /** Reading the table: directly, or through a privileged `cat` when the
      read is denied (`readDenied`); a missing file fails either way. */
  function ReadFstabSpec(s: World, w: Which, readDenied: bool, catFails: bool): (Result<string, MountFailure>, World) {
    if !readDenied then
      (if FstabPath in s.disk.files then Ok(s.disk.files[FstabPath]) else Err(FstabUnreadable), s)
    else
      var (r, s1) := ExecProbed(s, w, Cat(FstabPath), catFails);
      if r.NoTool? then (Err(NoPrivilegeTool), s1)
      else if !r.ok then (Err(FstabUnreadable), s1)
      else (Ok(r.out), s1)
  }

  /** Writing the new table to the temporary file `tmp` and moving it over
      `/etc/fstab`; when the move fails the temporary file is removed.  When
      the unprivileged write raises (`tempWriteFails`), the call fails and
      leaves the empty file `mkstemp` made. */
  function ReplaceFstabSpec(s: World, w: Which, tmp: string, text: string, tempWriteFails: bool, moveFails: bool)
    : (Outcome<MountFailure>, World)
  {
    if tempWriteFails then (Fail(FstabTempWriteFailed), WriteFile(s, tmp, ""))
    else
    var s1 := WriteFile(s, tmp, text);
    var (r, s2) := ExecProbed(s1, w, Move(tmp, FstabPath), moveFails);
    if r.NoTool? then (Fail(NoPrivilegeTool), s2)
    else if !r.ok then (Fail(FstabUpdateFailed), RemoveFile(s2, tmp))
    else (Pass, s2)
  }

  lemma TempIsNotFstab(tmp: string)
    requires IsTempPath(tmp)
    ensures tmp != FstabPath && tmp != FstabBackupPath
  {
    assert tmp[1] == 't' && FstabPath[1] == 'e' && FstabBackupPath[1] == 'e';
  }

  /** The backup step touches nothing but `/etc/fstab.bak`, where it puts a
      copy of the table when it succeeds. */
  lemma BackupFstabFacts(s: World, w: Which, backup: bool, copyFails: bool)
    ensures var (b, s1) := BackupFstabSpec(s, w, backup, copyFails);
            && (b.Fail? <==> backup && Probe(w).None?)
            && (b.Fail? ==> b.error == NoPrivilegeTool && s1 == s)
            && s1.disk.files - {FstabBackupPath} == s.disk.files - {FstabBackupPath}
            && s1.disk.dirs == s.disk.dirs && s1.disk.exported == s.disk.exported && s1.disk.mounts == s.disk.mounts
            && (backup && Probe(w).Some? && !copyFails && FstabPath in s.disk.files
                ==> FstabBackupPath in s1.disk.files && s1.disk.files[FstabBackupPath] == s.disk.files[FstabPath])
  {
    if backup {
      ExecProbedFacts(s, w, Copy(FstabPath, FstabBackupPath), copyFails);
    }
  }

  /** Reading changes no file, and gives the table's content when it succeeds. */
  lemma ReadFstabFacts(s: World, w: Which, readDenied: bool, catFails: bool)
    ensures var (c, s1) := ReadFstabSpec(s, w, readDenied, catFails);
            && s1.disk == s.disk
            && (c.Ok? <==> FstabPath in s.disk.files && (readDenied ==> Probe(w).Some? && !catFails))
            && (c.Ok? ==> c.value == s.disk.files[FstabPath])
            && (c.Err? ==> c.error == (if readDenied && Probe(w).None? then NoPrivilegeTool else FstabUnreadable))
  {
    if readDenied {
      ExecProbedFacts(s, w, Cat(FstabPath), catFails);
    }
  }

  /** Replacing puts the new text in place and leaves no temporary file when
      the move succeeds or fails; a failed temporary write or a missing
      privilege tool leaves the temporary file behind.  `/etc/fstab`
      changes only on success. */
  lemma ReplaceFstabFacts(s: World, w: Which, tmp: string, text: string, tempWriteFails: bool, moveFails: bool)
    requires IsTempPath(tmp) && tmp !in s.disk.files
    ensures var (o, s1) := ReplaceFstabSpec(s, w, tmp, text, tempWriteFails, moveFails);
            && (o.Pass? <==> Probe(w).Some? && !tempWriteFails && !moveFails)
            && (o.Pass? ==> s1.disk.files == s.disk.files[FstabPath := text])
            && (o == Fail(FstabTempWriteFailed) ==> s1.disk.files == s.disk.files[tmp := ""])
            && (o == Fail(FstabUpdateFailed) ==> s1.disk.files == s.disk.files)
            && (o == Fail(NoPrivilegeTool) ==> s1.disk.files == s.disk.files[tmp := text])
            && (o.Fail? ==> o.error == if tempWriteFails then FstabTempWriteFailed
                                       else if Probe(w).None? then NoPrivilegeTool else FstabUpdateFailed)
            && s1.disk.dirs == s.disk.dirs && s1.disk.exported == s.disk.exported && s1.disk.mounts == s.disk.mounts
  {
    TempIsNotFstab(tmp);
    if tempWriteFails {
      return;
    }
    var s1 := WriteFile(s, tmp, text);
    ExecProbedFacts(s1, w, Move(tmp, FstabPath), moveFails);
    var (r, s2) := ExecProbed(s1, w, Move(tmp, FstabPath), moveFails);
    if r.Exited? && r.ok {
      assert (s1.disk.files - {tmp})[FstabPath := text] == s.disk.files[FstabPath := text];
    } else if r.Exited? {
      assert s1.disk.files - {tmp} == s.disk.files;
    }
  }

  /** The backup step seen from the table: it changes neither `/etc/fstab`
      nor the temporary file, and fails only for want of a privilege tool. */
  lemma BackupStep(s: World, w: Which, backup: bool, copyFails: bool, tmp: string)
    requires IsTempPath(tmp) && tmp !in s.disk.files
    ensures var (b, s1) := BackupFstabSpec(s, w, backup, copyFails);
            && (b.Fail? <==> backup && Probe(w).None?)
            && (b.Fail? ==> b == Fail(NoPrivilegeTool) && s1 == s)
            && FstabIn(s1) == FstabIn(s) && tmp !in s1.disk.files
            && s1.disk.dirs == s.disk.dirs && s1.disk.exported == s.disk.exported && s1.disk.mounts == s.disk.mounts
  {
    TempIsNotFstab(tmp);
    BackupFstabFacts(s, w, backup, copyFails);
  }

  /** The read step after the backup: it returns the table `s` held, or
      fails without a tool (only when the read is denied) or when the table
      cannot be read. */
  lemma ReadStep(s: World, s1: World, w: Which, readDenied: bool, catFails: bool)
    requires FstabIn(s1) == FstabIn(s)
    ensures var (c, s2) := ReadFstabSpec(s1, w, readDenied, catFails);
            && s2.disk == s1.disk
            && (c.Ok? <==> FstabIn(s).Some? && (readDenied ==> Probe(w).Some? && !catFails))
            && (c.Ok? ==> c.value == FstabIn(s).value)
            && (c.Err? ==> c.error == NoPrivilegeTool || c.error == FstabUnreadable)
            && (c.Err? && c.error == NoPrivilegeTool ==> readDenied && Probe(w).None?)
  {
    ReadFstabFacts(s1, w, readDenied, catFails);
  }

  // ---------------------------------------------------------------------
  // add_to_fstab

  /** `add_to_fstab(server, remote_path, mount_point, options, backup)`;
      `tmp` is the file `mkstemp` makes. */
  function AddFstabSpec(s: World, w: Which, server: string, remotePath: string, mountPoint: string,
                        options: string, backup: bool, readDenied: bool, tmp: string, f: FstabFaults)
    : (Outcome<MountFailure>, World)
  {
    var (b, s1) := BackupFstabSpec(s, w, backup, f.copy);
    if b.Fail? then (b, s1)
    else
      var (c, s2) := ReadFstabSpec(s1, w, readDenied, f.cat);
      if c.Err? then (Fail(c.error), s2)
      else
        match AddToFstab(c.value, server, remotePath, mountPoint, options)
        case Err(e) => (Fail(e), s2)
        case Ok(text) => ReplaceFstabSpec(s2, w, tmp, text, f.tempWrite, f.move)
  }

  /** The table `/etc/fstab` holds in a state, if any. */
  function FstabIn(s: World): Option<string> {
    if FstabPath in s.disk.files then Some(s.disk.files[FstabPath]) else None
  }

  /** The calls get as far as the table's content: a privilege tool is
      found for the commands before it, and the table exists and is read. */
  predicate ReadsFstab(s: World, w: Which, backup: bool, readDenied: bool, catFails: bool) {
    (backup || readDenied ==> Probe(w).Some?) && FstabIn(s).Some? && !(readDenied && catFails)
  }

  /** An addition succeeds exactly when a privilege tool is found, the table
      can be read, has no entry for the mount point yet and the move does
      not fail; the table then holds the old content and the new entry line.
      A failed addition leaves the table as it was, and is a duplicate
      exactly when the table already had an entry for the mount point. */
  lemma AddFstabEffect(s: World, w: Which, server: string, remotePath: string, mountPoint: string,
                       options: string, backup: bool, readDenied: bool, tmp: string, f: FstabFaults)
    requires IsTempPath(tmp) && tmp !in s.disk.files
    ensures var (r, s') := AddFstabSpec(s, w, server, remotePath, mountPoint, options, backup, readDenied, tmp, f);
            && (r.Pass? <==> Probe(w).Some? && FstabIn(s).Some? && !(readDenied && f.cat)
                             && !HasEntryFor(SplitOn(FstabIn(s).value, '\n'), mountPoint)
                             && !f.tempWrite && !f.move)
            && (r.Pass? ==> FstabIn(s').Some?
                            && FstabIn(s').value == AddedText(FstabIn(s).value, EntryLine(server, remotePath, mountPoint, options) + "\n")
                            && tmp !in s'.disk.files)
            && (r.Fail? ==> FstabIn(s') == FstabIn(s))
            && (r == Fail(FstabDuplicate) <==> ReadsFstab(s, w, backup, readDenied, f.cat)
                                               && HasEntryFor(SplitOn(FstabIn(s).value, '\n'), mountPoint))
            && (Probe(w).None? ==> r.Fail?)
            && s'.disk.dirs == s.disk.dirs && s'.disk.exported == s.disk.exported && s'.disk.mounts == s.disk.mounts
  {
    var res := AddFstabSpec(s, w, server, remotePath, mountPoint, options, backup, readDenied, tmp, f);
    var (b, s1) := BackupFstabSpec(s, w, backup, f.copy);
    BackupStep(s, w, backup, f.copy, tmp);
    if b.Fail? {
      assert res == (b, s1);
    } else {
      var (c, s2) := ReadFstabSpec(s1, w, readDenied, f.cat);
      ReadStep(s, s1, w, readDenied, f.cat);
      if c.Err? {
        assert res == (Fail(c.error), s2);
      } else {
        assert c.value == FstabIn(s).value && FstabIn(s2) == FstabIn(s);
        if HasEntryFor(SplitOn(c.value, '\n'), mountPoint) {
          assert res == (Fail(FstabDuplicate), s2);
        } else {
          var text := AddedText(c.value, EntryLine(server, remotePath, mountPoint, options) + "\n");
          assert res == ReplaceFstabSpec(s2, w, tmp, text, f.tempWrite, f.move);
          ReplaceFstabFacts(s2, w, tmp, text, f.tempWrite, f.move);
        }
      }
    }
  }

  /** After a successful addition, adding the same mount point again — with
      any server, share, options or backup choice, reading the file directly
      or through a `cat` that succeeds — fails as a duplicate and leaves the table as it is. */
  lemma AddFstabTwice(s: World, w: Which, server: string, remotePath: string, mountPoint: string,
                      options: string, backup: bool, readDenied: bool, tmp: string, f: FstabFaults,
                      server2: string, remotePath2: string, options2: string, backup2: bool, readDenied2: bool,
                      tmp2: string, f2: FstabFaults)
    requires IsTempPath(tmp) && tmp !in s.disk.files
    requires readDenied2 ==> !f2.cat
    requires NoSpace(server) && NoSpace(remotePath) && mountPoint != "" && NoSpace(mountPoint) && '\n' !in options
    requires (server + ":" + remotePath)[0] != '#'
    requires AddFstabSpec(s, w, server, remotePath, mountPoint, options, backup, readDenied, tmp, f).0.Pass?
    ensures var s1 := AddFstabSpec(s, w, server, remotePath, mountPoint, options, backup, readDenied, tmp, f).1;
            IsTempPath(tmp2) && tmp2 !in s1.disk.files ==>
            var (r, s2) := AddFstabSpec(s1, w, server2, remotePath2, mountPoint, options2, backup2, readDenied2, tmp2, f2);
            r == Fail(FstabDuplicate) && FstabIn(s2) == FstabIn(s1)
  {
    AddFstabEffect(s, w, server, remotePath, mountPoint, options, backup, readDenied, tmp, f);
    var s1 := AddFstabSpec(s, w, server, remotePath, mountPoint, options, backup, readDenied, tmp, f).1;
    AddThenDuplicate(FstabIn(s).value, server, remotePath, mountPoint, options);
    if IsTempPath(tmp2) && tmp2 !in s1.disk.files {
      AddFstabEffect(s1, w, server2, remotePath2, mountPoint, options2, backup2, readDenied2, tmp2, f2);
    }
  }

  // ---------------------------------------------------------------------
  // remove_from_fstab

  /** The lines `remove_from_fstab` reads: those of `readlines`, or of
      `split('\n')` on the output of the privileged `cat`. */
  function LinesRead(text: string, readDenied: bool): seq<string> {
    if readDenied then SplitOn(text, '\n') else ReadLines(text)
  }

  /** The text the fallback evidently means to write: the lines of
      `split('\n')` joined by the line breaks the split removed
      (`FallbackText`); the ordinary path is written as it is. */
  function IntendedText(kept: seq<string>, readDenied: bool): string {
    if readDenied then FallbackText(kept) else Concat(kept)
  }

  /** `remove_from_fstab(mount_point, backup)`, writing the kept lines with
      `writelines` (`Concat`) as the source does, or, when `corrected`, as
      `IntendedText`; `tmp` is the file `mkstemp` makes. */
  function RemoveFstabWith(s: World, w: Which, mountPoint: string, backup: bool, readDenied: bool,
                           tmp: string, f: FstabFaults, corrected: bool)
    : (Outcome<MountFailure>, World)
  {
    var (b, s1) := BackupFstabSpec(s, w, backup, f.copy);
    if b.Fail? then (b, s1)
    else
      var (c, s2) := ReadFstabSpec(s1, w, readDenied, f.cat);
      if c.Err? then (Fail(c.error), s2)
      else
        match RemoveEntries(LinesRead(c.value, readDenied), mountPoint)
        case Err(e) => (Fail(e), s2)
        case Ok(kept) =>
          var text := if corrected then IntendedText(kept, readDenied) else Concat(kept);
          ReplaceFstabSpec(s2, w, tmp, text, f.tempWrite, f.move)
  }

  /** `remove_from_fstab(mount_point, backup)` as written: both ways of
      reading end in `writelines` of the kept lines. */
  function RemoveFstabSpec(s: World, w: Which, mountPoint: string, backup: bool, readDenied: bool,
                           tmp: string, f: FstabFaults)
    : (Outcome<MountFailure>, World)
  {
    RemoveFstabWith(s, w, mountPoint, backup, readDenied, tmp, f, false)
  }

  /** `remove_from_fstab` with the fallback's evidently intended write. */
  function RemoveFstabSpecIntended(s: World, w: Which, mountPoint: string, backup: bool, readDenied: bool,
                                   tmp: string, f: FstabFaults)
    : (Outcome<MountFailure>, World)
  {
    RemoveFstabWith(s, w, mountPoint, backup, readDenied, tmp, f, true)
  }

  /** Either way of writing, a removal succeeds exactly when a privilege
      tool is found, the table can be read, has an entry for the mount point
      and neither the temporary write nor the move fails; the table then
      holds the text written for the kept lines.  A failed removal leaves
      the table as it was. */
  lemma RemoveFstabSteps(s: World, w: Which, mountPoint: string, backup: bool, readDenied: bool,
                         tmp: string, f: FstabFaults, corrected: bool)
    requires IsTempPath(tmp) && tmp !in s.disk.files
    ensures var (r, s') := RemoveFstabWith(s, w, mountPoint, backup, readDenied, tmp, f, corrected);
            && (r.Pass? <==> Probe(w).Some? && FstabIn(s).Some? && !(readDenied && f.cat)
                             && HasEntryFor(LinesRead(FstabIn(s).value, readDenied), mountPoint)
                             && !f.tempWrite && !f.move)
            && (r.Pass? ==> var kept := KeptFstab(LinesRead(FstabIn(s).value, readDenied), mountPoint);
                            && FstabIn(s').Some? && tmp !in s'.disk.files
                            && FstabIn(s').value == if corrected then IntendedText(kept, readDenied) else Concat(kept))
            && (r.Fail? ==> FstabIn(s') == FstabIn(s))
            && (r == Fail(FstabMissingEntry) <==> ReadsFstab(s, w, backup, readDenied, f.cat)
                                                  && !HasEntryFor(LinesRead(FstabIn(s).value, readDenied), mountPoint))
            && s'.disk.dirs == s.disk.dirs && s'.disk.exported == s.disk.exported && s'.disk.mounts == s.disk.mounts
  {
    var res := RemoveFstabWith(s, w, mountPoint, backup, readDenied, tmp, f, corrected);
    var (b, s1) := BackupFstabSpec(s, w, backup, f.copy);
    BackupStep(s, w, backup, f.copy, tmp);
    if b.Fail? {
      assert res == (b, s1);
    } else {
      var (c, s2) := ReadFstabSpec(s1, w, readDenied, f.cat);
      ReadStep(s, s1, w, readDenied, f.cat);
      if c.Err? {
        assert res == (Fail(c.error), s2);
      } else {
        var lines := LinesRead(FstabIn(s).value, readDenied);
        assert c.value == FstabIn(s).value && FstabIn(s2) == FstabIn(s);
        if !HasEntryFor(lines, mountPoint) {
          assert res == (Fail(FstabMissingEntry), s2);
        } else {
          var kept := KeptFstab(lines, mountPoint);
          var text := if corrected then IntendedText(kept, readDenied) else Concat(kept);
          assert res == ReplaceFstabSpec(s2, w, tmp, text, f.tempWrite, f.move);
          ReplaceFstabFacts(s2, w, tmp, text, f.tempWrite, f.move);
        }
      }
    }
  }

  /** A removal as written succeeds under the conditions of
      `RemoveFstabSteps` and writes the kept lines with `writelines`.  On the
      ordinary path the table then reads back as the kept lines, with no
      entry for the mount point; on the `cat` fallback the lines have lost
      their breaks, so the table becomes a single line.  A failed removal
      leaves the table as it was. */
  lemma RemoveFstabEffect(s: World, w: Which, mountPoint: string, backup: bool, readDenied: bool,
                          tmp: string, f: FstabFaults)
    requires IsTempPath(tmp) && tmp !in s.disk.files
    ensures var (r, s') := RemoveFstabSpec(s, w, mountPoint, backup, readDenied, tmp, f);
            && (r.Pass? <==> Probe(w).Some? && FstabIn(s).Some? && !(readDenied && f.cat)
                             && HasEntryFor(LinesRead(FstabIn(s).value, readDenied), mountPoint)
                             && !f.tempWrite && !f.move)
            && (r.Pass? ==> var kept := KeptFstab(LinesRead(FstabIn(s).value, readDenied), mountPoint);
                            && FstabIn(s').Some? && tmp !in s'.disk.files
                            && FstabIn(s').value == Concat(kept)
                            && (!readDenied ==> ReadLines(FstabIn(s').value) == kept
                                                && !HasEntryFor(ReadLines(FstabIn(s').value), mountPoint))
                            && (readDenied ==> SplitOn(FstabIn(s').value, '\n') == [FstabIn(s').value]))
            && (r.Fail? ==> FstabIn(s') == FstabIn(s))
            && (r == Fail(FstabMissingEntry) <==> ReadsFstab(s, w, backup, readDenied, f.cat)
                                                  && !HasEntryFor(LinesRead(FstabIn(s).value, readDenied), mountPoint))
            && s'.disk.dirs == s.disk.dirs && s'.disk.exported == s.disk.exported && s'.disk.mounts == s.disk.mounts
  {
    RemoveFstabSteps(s, w, mountPoint, backup, readDenied, tmp, f, false);
    var r := RemoveFstabSpec(s, w, mountPoint, backup, readDenied, tmp, f).0;
    if r.Pass? {
      RemovedText(FstabIn(s).value, readDenied, mountPoint);
    }
  }

  /** The text a removal as written puts in place: on the ordinary path it
      reads back as the kept lines and holds no entry for the mount point;
      on the fallback it is one single line. */
  lemma RemovedText(content: string, readDenied: bool, mountPoint: string)
    requires RemoveEntries(LinesRead(content, readDenied), mountPoint).Ok?
    ensures var kept := RemoveEntries(LinesRead(content, readDenied), mountPoint).value;
            var text := Concat(kept);
            && kept == KeptFstab(LinesRead(content, readDenied), mountPoint)
            && (!readDenied ==> ReadLines(text) == kept && !HasEntryFor(ReadLines(text), mountPoint))
            && (readDenied ==> SplitOn(text, '\n') == [text])
  {
    if readDenied {
      FallbackAsWrittenOneLine(content, mountPoint);
    } else {
      RemoveThenReadBack(content, mountPoint);
    }
  }

  /** After a successful removal as written, removing the same mount point
      again, read the same way: on the ordinary path it finds no entry and
      leaves the table; on the fallback it finds an entry exactly when the
      single line left behind is one. */
  lemma RemoveFstabTwice(s: World, w: Which, mountPoint: string, backup: bool, readDenied: bool,
                         tmp: string, f: FstabFaults, backup2: bool, tmp2: string, f2: FstabFaults)
    requires IsTempPath(tmp) && tmp !in s.disk.files
    requires RemoveFstabSpec(s, w, mountPoint, backup, readDenied, tmp, f).0.Pass?
    requires readDenied ==> !f2.cat
    ensures var s1 := RemoveFstabSpec(s, w, mountPoint, backup, readDenied, tmp, f).1;
            IsTempPath(tmp2) && tmp2 !in s1.disk.files ==>
            var (r, s2) := RemoveFstabSpec(s1, w, mountPoint, backup2, readDenied, tmp2, f2);
            && (!readDenied ==> r == Fail(FstabMissingEntry) && FstabIn(s2) == FstabIn(s1))
            && (readDenied ==> (r == Fail(FstabMissingEntry)
                                <==> FstabIn(s1).Some? && !IsEntryFor(FstabIn(s1).value, mountPoint)))
  {
    RemoveFstabEffect(s, w, mountPoint, backup, readDenied, tmp, f);
    var s1 := RemoveFstabSpec(s, w, mountPoint, backup, readDenied, tmp, f).1;
    if IsTempPath(tmp2) && tmp2 !in s1.disk.files {
      RemoveFstabEffect(s1, w, mountPoint, backup2, readDenied, tmp2, f2);
      if readDenied {
        var t := FstabIn(s1).value;
        assert LinesRead(t, true) == [t];
        assert HasEntryFor([t], mountPoint) <==> IsEntryFor(t, mountPoint) by {
          if IsEntryFor(t, mountPoint) {
            assert [t][0] == t;
          }
        }
      }
    }
  }

  /** With the intended write, the table after a removal reads back, either
      way, as the kept lines (unless the fallback kept nothing) and holds no
      entry for the mount point.  Success and failure are as in
      `RemoveFstabSteps`. */
  lemma RemoveFstabIntendedEffect(s: World, w: Which, mountPoint: string, backup: bool, readDenied: bool,
                                  tmp: string, f: FstabFaults)
    requires IsTempPath(tmp) && tmp !in s.disk.files
    ensures var (r, s') := RemoveFstabSpecIntended(s, w, mountPoint, backup, readDenied, tmp, f);
            && (r.Pass? <==> Probe(w).Some? && FstabIn(s).Some? && !(readDenied && f.cat)
                             && HasEntryFor(LinesRead(FstabIn(s).value, readDenied), mountPoint)
                             && !f.tempWrite && !f.move)
            && (r.Pass? ==> var kept := KeptFstab(LinesRead(FstabIn(s).value, readDenied), mountPoint);
                            && FstabIn(s').Some? && tmp !in s'.disk.files
                            && FstabIn(s').value == IntendedText(kept, readDenied)
                            && (!readDenied || kept != [] ==> LinesRead(FstabIn(s').value, readDenied) == kept)
                            && !HasEntryFor(LinesRead(FstabIn(s').value, readDenied), mountPoint))
            && (r.Fail? ==> FstabIn(s') == FstabIn(s))
  {
    RemoveFstabSteps(s, w, mountPoint, backup, readDenied, tmp, f, true);
    var r := RemoveFstabSpecIntended(s, w, mountPoint, backup, readDenied, tmp, f).0;
    if r.Pass? {
      RemovedTextIntended(FstabIn(s).value, readDenied, mountPoint);
    }
  }

  /** The intended text, whichever way the table was read, reads back as the
      kept lines (unless the fallback kept nothing) and holds no entry for
      the mount point. */
  lemma RemovedTextIntended(content: string, readDenied: bool, mountPoint: string)
    requires RemoveEntries(LinesRead(content, readDenied), mountPoint).Ok?
    ensures var kept := RemoveEntries(LinesRead(content, readDenied), mountPoint).value;
            var text := IntendedText(kept, readDenied);
            && kept == KeptFstab(LinesRead(content, readDenied), mountPoint)
            && (!readDenied || kept != [] ==> LinesRead(text, readDenied) == kept)
            && !HasEntryFor(LinesRead(text, readDenied), mountPoint)
  {
    var kept := RemoveEntries(LinesRead(content, readDenied), mountPoint).value;
    var text := IntendedText(kept, readDenied);
    if readDenied {
      FallbackThenReadBack(content, mountPoint);
      assert RemoveEntries(LinesRead(text, readDenied), mountPoint).Err?;
    } else {
      RemoveThenReadBack(content, mountPoint);
      assert RemoveEntries(LinesRead(text, readDenied), mountPoint).Err?;
    }
  }

  /** With the intended write, after a successful removal, removing the same
      mount point again, read the same way, finds no entry and leaves the
      table as it is. */
  lemma RemoveFstabTwiceIntended(s: World, w: Which, mountPoint: string, backup: bool, readDenied: bool,
                                 tmp: string, f: FstabFaults, backup2: bool, tmp2: string, f2: FstabFaults)
    requires IsTempPath(tmp) && tmp !in s.disk.files
    requires RemoveFstabSpecIntended(s, w, mountPoint, backup, readDenied, tmp, f).0.Pass?
    requires readDenied ==> !f2.cat
    ensures var s1 := RemoveFstabSpecIntended(s, w, mountPoint, backup, readDenied, tmp, f).1;
            IsTempPath(tmp2) && tmp2 !in s1.disk.files ==>
            var (r, s2) := RemoveFstabSpecIntended(s1, w, mountPoint, backup2, readDenied, tmp2, f2);
            r == Fail(FstabMissingEntry) && FstabIn(s2) == FstabIn(s1)
  {
    RemoveFstabIntendedEffect(s, w, mountPoint, backup, readDenied, tmp, f);
    var s1 := RemoveFstabSpecIntended(s, w, mountPoint, backup, readDenied, tmp, f).1;
    if IsTempPath(tmp2) && tmp2 !in s1.disk.files {
      RemoveFstabSteps(s1, w, mountPoint, backup2, readDenied, tmp2, f2, true);
    }
  }

  // ---------------------------------------------------------------------

  /** `MountManager`, working on one machine. */
  class MountManager {
    const fs: FileSystem

    constructor (fs0: FileSystem)
      ensures fs == fs0
    {
      fs := fs0;
    }

    function Now(): World
      reads fs
    {
      World(fs.State(), None, fs.trace)
    }

    /** `mount_nfs(server, remote_path, mount_point, options)` */
    method MountNfs(w: Which, server: string, remotePath: string, mountPoint: string, options: string,
                    f: MountFaults, stderr: string) returns (r: Outcome<MountFailure>)
      modifies fs
      ensures (r, Now()) == MountSpec(old(Now()), w, server, remotePath, mountPoint, options, f, stderr)
    {
      if !(mountPoint in fs.files || mountPoint in fs.dirs) {
        var r1 := RunProbed(fs, w, MakeDirs(mountPoint), f.mkdir);
        if r1.NoTool? {
          return Fail(NoPrivilegeTool);
        }
        if !r1.ok {
          return Fail(MountPointFailed);
        }
      }
      var cmd := Mount(EffectiveOptions(options), server + ":" + remotePath, mountPoint);
      var r2 := RunProbed(fs, w, cmd, f.mount);
      if r2.NoTool? {
        return Fail(NoPrivilegeTool);
      }
      if !r2.ok {
        return Fail(ClassifyMountError(stderr));
      }
      r := Pass;
    }

    /** `unmount_nfs(mount_point, force)` */
    method UnmountNfs(w: Which, mountPoint: string, force: bool, fails: bool) returns (r: Outcome<MountFailure>)
      modifies fs
      ensures (r, Now()) == UnmountSpec(old(Now()), w, mountPoint, force, fails)
    {
      var res := RunProbed(fs, w, Unmount(force, mountPoint), fails);
      if res.NoTool? {
        return Fail(NoPrivilegeTool);
      }
      if !res.ok {
        return Fail(UnmountFailed);
      }
      r := Pass;
    }

    method BackupFstab(w: Which, backup: bool, copyFails: bool) returns (r: Outcome<MountFailure>)
      modifies fs
      ensures (r, Now()) == BackupFstabSpec(old(Now()), w, backup, copyFails)
    {
      r := Pass;
      if backup {
        var res := RunProbed(fs, w, Copy(FstabPath, FstabBackupPath), copyFails);
        if res.NoTool? {
          r := Fail(NoPrivilegeTool);
        }
      }
    }

    method ReadFstab(w: Which, readDenied: bool, catFails: bool) returns (r: Result<string, MountFailure>)
      modifies fs
      ensures (r, Now()) == ReadFstabSpec(old(Now()), w, readDenied, catFails)
    {
      if !readDenied {
        if FstabPath in fs.files {
          return Ok(fs.files[FstabPath]);
        }
        return Err(FstabUnreadable);
      }
      var res := RunProbed(fs, w, Cat(FstabPath), catFails);
      if res.NoTool? {
        return Err(NoPrivilegeTool);
      }
      if !res.ok {
        return Err(FstabUnreadable);
      }
      r := Ok(res.out);
    }

    method ReplaceFstab(w: Which, tmp: string, text: string, tempWriteFails: bool, moveFails: bool)
      returns (r: Outcome<MountFailure>)
      modifies fs
      ensures (r, Now()) == ReplaceFstabSpec(old(Now()), w, tmp, text, tempWriteFails, moveFails)
    {
      if tempWriteFails {
        fs.WriteLocal(tmp, "");
        return Fail(FstabTempWriteFailed);
      }
      fs.WriteLocal(tmp, text);
      var res := RunProbed(fs, w, Move(tmp, FstabPath), moveFails);
      if res.NoTool? {
        return Fail(NoPrivilegeTool);
      }
      if !res.ok {
        fs.RemoveLocal(tmp);
        return Fail(FstabUpdateFailed);
      }
      r := Pass;
    }

    /** `add_to_fstab(server, remote_path, mount_point, options, backup)` */
    method AddFstabEntry(w: Which, server: string, remotePath: string, mountPoint: string, options: string,
                         backup: bool, readDenied: bool, tmp: string, f: FstabFaults)
      returns (r: Outcome<MountFailure>)
      modifies fs
      ensures (r, Now()) == AddFstabSpec(old(Now()), w, server, remotePath, mountPoint, options, backup, readDenied, tmp, f)
    {
      r := BackupFstab(w, backup, f.copy);
      if r.Fail? {
        return;
      }
      var content := ReadFstab(w, readDenied, f.cat);
      if content.Err? {
        return Fail(content.error);
      }
      var duplicate := FindEntry(content.value, mountPoint);
      if duplicate {
        return Fail(FstabDuplicate);
      }
      var text := AddedText(content.value, EntryLine(server, remotePath, mountPoint, options) + "\n");
      r := ReplaceFstab(w, tmp, text, f.tempWrite, f.move);
    }

    /** `remove_from_fstab(mount_point, backup)` */
    method RemoveFstabEntry(w: Which, mountPoint: string, backup: bool, readDenied: bool, tmp: string, f: FstabFaults)
      returns (r: Outcome<MountFailure>)
      modifies fs
      ensures (r, Now()) == RemoveFstabSpec(old(Now()), w, mountPoint, backup, readDenied, tmp, f)
    {
      r := BackupFstab(w, backup, f.copy);
      if r.Fail? {
        return;
      }
      var content := ReadFstab(w, readDenied, f.cat);
      if content.Err? {
        return Fail(content.error);
      }
      var lines := if readDenied then SplitOn(content.value, '\n') else ReadLines(content.value);
      var newLines, found := FilterFstab(lines, mountPoint);
      if !found {
        return Fail(FstabMissingEntry);
      }
      r := ReplaceFstab(w, tmp, Concat(newLines), f.tempWrite, f.move);
    }
  }
}
