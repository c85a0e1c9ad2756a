# NFS manager core, modelled in Dafny

This project models the non-GUI core of a desktop NFS manager written in
Python. The manager edits the server's export table `/etc/exports`,
keeps timestamped backups of it, mounts and unmounts remote shares on
the client side, edits `/etc/fstab`, and drives the `nfs-server` unit.
Every privileged step runs as `pkexec <cmd>` or `sudo <cmd>`. The four
managers are modelled module by module:

- `util/exports_manager.py` is modelled by `Exports` and `ExportsWriter`.
  - `Exports` holds the pure engine: the parser behind `list_parsed`, the
    host-token split, and the three line rewriters `add_entry`,
    `remove_entry` and `edit_entry`.
  - `ExportsWriter` holds the file steps: reading the table, the
    single-slot `.bak` backup, the temp-file write with move, reload and
    rollback, and `restore_backup`. These are specification functions
    over a `World`, plus the class `ExportsManager` whose methods run them
    step by step.
- `util/backup_manager.py` is modelled by `Backups` and `BackupStore`.
  - `Backups` holds the pure string side: backup names and timestamps,
    the `.info` sidecar, one line of `ls -lt`, and the export count.
  - `BackupStore` holds the command sequences of create, list, restore,
    delete and info, plus the class `BackupManager`.
- `util/mount_manager.py` is modelled by `Mounts`, `MountPresets`, `Fstab`
  and `MountStore`.
  - `Mounts` covers the `mount` listing parser, the `mount` and `umount`
    command vectors, the error classification and `test_mount`.
  - `MountPresets` holds the table of mount-option presets.
  - `Fstab` covers the duplicate check, the appended entry and the
    filtering of `remove_from_fstab`, including both ways the file is
    read and written.
  - `MountStore` covers the command sequences of the four operations and
    the class `MountManager`.
- `util/service_manager.py` is modelled by `Service`: the five `systemctl`
  actions, `status`, and the parsers of `exportfs -v` and `showmount -a`,
  plus the class `ServiceManager`.

Three supporting modules:

- `Text` restates the few Python string operations the code relies on:
  `strip`, `split()`, `split(c)`, `join`, `splitlines`, `startswith`,
  `replace(p, "")` and ASCII `lower`.
- `Host` is the machine.
  - The privilege-tool probe and the class-level tool cache (`PrivilegeCache`).
  - The exact argument vector of every privileged command.
  - A `FileSystem` class holding files, directories, what the NFS server
    last loaded, the mount table, and the trace of privileged invocations.
  - `Exec` and `ExecProbed`, one privileged run for a manager that caches
    its tool (exports, service) and for one that probes on every call
    (backup, mount).
- `Common` holds `Option`, `Result`, `Outcome` and a few small sequence lemmas.

What the outside world decides is a parameter of each operation:

- which privilege tools `shutil.which` finds (`Which`);
- whether each privileged command, and each unprivileged write of a
  temporary file, fails for a reason the state does not decide (a
  `...Faults` record or a `fails` flag; for the `cat` of each sidecar in
  `list_backups`, the set `sidecarFails` of the backup names whose read fails);
- the path `tempfile.mkstemp` returns (`tmp`, assumed fresh and under `/tmp/`);
- the clock reading (`ts`);
- the text a command prints where the model does not derive it (`stderr`,
  `listing`, `out`);
- whether the unprivileged `open` raised `PermissionError` (`readDenied`, `denied`).

Where a behaviour is surprising it is modelled as written and stated by a
lemma:

- Prefix matching in the exports rewriters: `remove_entry("")` empties
  the table (`Exports.RemoveEmptyPathClears`).
- `list_backups` also lists `.bak.info` sidecars, because the test is
  `'.bak' in line` (`Backups.SidecarListed`).
- A restore of a backup taken in the same second as the automatic backup
  first overwrites that backup, so it restores the live table
  (`BackupStore.RestoreSameSecond`).
- When the plain `open` of `/etc/fstab` is refused, `remove_from_fstab`
  writes the kept lines back as one single line. That line can even be an
  entry for the mount point it removed (`MountStore.RemoveFstabEffect`,
  `Fstab.FallbackAsWrittenKeepsEntry`; see "## Findings").
- `test_mount` answers `False` when the `showmount` output has a blank
  line before a hit. Because the output ends with a line break, it also
  answers `False` when nothing matches (`Mounts.ScanExportListMeaning`,
  `Mounts.TestMountMissFails`).
- A failed rollback after a failed reload raises the same error as a
  clean rollback, because the rollback's exit code is never read
  (`ExportsWriter.MoveAndReloadFacts`).
- Backup sizes are kept as the text `ls` prints, not as numbers
  (`Backups.ListedFields`).

## Model

| member | source | states |
|---|---|---|
| Host.Probe | util/exports_manager.py:33-38 | `pkexec` is chosen exactly when it is on the PATH, `sudo` exactly when only `sudo` is, and nothing exactly when neither is |
| Host.LookupsKeepCached | util/exports_manager.py:32-39 | once the class slot holds a tool, every later call returns that tool whatever the PATH holds |
| Host.LookupsSettle | util/service_manager.py:24-31 | the first call that finds a tool fixes the answer of every later call |
| Host.PrivilegeCache.constructor | util/exports_manager.py:23 | the class-level slot starts empty |
| Host.PrivilegeCache.Resolve | util/exports_manager.py:32-39 | returns the cached tool or the probe's answer and stores it; a filled slot never changes |
| Host.FileSystem.constructor | util/exports_manager.py:42-51 | the machine starts from the given files, directories, loaded table and mounts, with an empty trace |
| Host.FileSystem.Run | util/exports_manager.py:42-51 | one privileged command is appended to the trace; it succeeds exactly when it is possible in the state and not failed from outside, and then applies its effect; otherwise nothing changes |
| Host.FileSystem.WriteLocal | util/exports_manager.py:144-145 | an unprivileged whole-file write changes that file only |
| Host.FileSystem.RemoveLocal | util/exports_manager.py:165-167 | an unprivileged removal drops that file only |
| Host.ExecFacts | util/exports_manager.py:42-51 | a run raises exactly when no tool is cached or found, and then changes nothing; otherwise it records one invocation with the tool, caches it, and changes the disk exactly when the command succeeds |
| Host.ExecProbedFacts | util/backup_manager.py:33-43 | a probing run raises exactly when the probe finds no tool, never touches the cache, records one invocation with the probed tool, and changes the disk only on success |
| Host.RunCached | util/exports_manager.py:42-51 | resolving the tool through the cache and running the command has exactly the effect of `Exec` |
| Host.RunProbed | util/mount_manager.py:28-38 | probing and running the command has exactly the effect of `ExecProbed` |
| Text.StripEmptyIffBlank | util/exports_manager.py:94-95 | `s.strip() == ""` exactly for all-whitespace strings |
| Text.SplitStrip | util/exports_manager.py:94-98 | splitting the stripped line gives the same tokens as splitting the line |
| Text.LinesTextRoundTrip | util/exports_manager.py:72 | `splitlines` of the text a rewriter writes (`"\n".join(lines) + "\n"`) gives back the lines |
| Text.SplitJoinWords | util/service_manager.py:144 | whitespace-free words joined by single spaces split back into the words |
| Text.SplitOnJoin | util/service_manager.py:163 | separator-free parts joined with `c` split on `c` back into the parts |
| Text.JoinSplitOn | util/mount_manager.py:349 | joining the parts of `split(c)` with `c` gives back the string |
| Exports.SplitHostRejoins | util/exports_manager.py:105-113 | a host token is its name followed by its options; with both parentheses the options start with `(` and the name holds none, otherwise the options are empty |
| Exports.HostRules | util/exports_manager.py:102-113 | one host rule per token, in order, each the split of its token |
| Exports.ParseHosts | util/exports_manager.py:102-113 | the inner loop of `list_parsed` yields the host rules of the tokens |
| Exports.ParseLines | util/exports_manager.py:90-122 | the loop of `list_parsed` yields exactly the parse of the raw lines |
| Exports.ParsedAppend | util/exports_manager.py:93-120 | parsing a concatenation parses each part, the second numbered on from the first |
| Exports.ParsedSound | util/exports_manager.py:93-96 | every entry's line number lies in range, its `raw` is the raw line at that 1-based number, that line is significant, and the entry is the one that line gives |
| Exports.ParsedOrdered | util/exports_manager.py:93-120 | entries come in strictly increasing line order |
| Exports.ParsedComplete | util/exports_manager.py:93-120 | every significant line has its entry in the parse |
| Exports.EntryShape | util/exports_manager.py:98-113 | the path is the first whitespace token, is not empty and is not a comment; the path followed by the host tokens is the line's token list |
| Exports.EntryPathMatches | util/exports_manager.py:98-99 | an entry with path `p` comes from a line whose stripped text starts with `p` |
| Exports.AddEntry | util/exports_manager.py:183-193 | `ValueError` exactly when the path or the host expression is empty; duplicate exactly when a stripped line starts with the path; otherwise new text |
| Exports.AddKeepsLines | util/exports_manager.py:190-193 | the written text reads back as the old lines in place, a blank separator exactly when the table is empty or ends in a non-blank line, then `path + " " + hosts_expr` |
| Exports.NewLineEntry | util/exports_manager.py:192 | the added line parses to an entry with the given path and the host rules of the expression |
| Exports.NoEntryWithoutMatch | util/exports_manager.py:187-189 | a table with no line matching `p` has no entry whose path starts with or equals `p` |
| Exports.AddedParse | util/exports_manager.py:190-192 | the lines after an addition parse as the old entries followed by the new one |
| Exports.AddThenParse | util/exports_manager.py:177-194 | after an addition, reading back gives the old entries unchanged and then exactly one new last entry for the path, with the given hosts |
| Exports.Kept | util/exports_manager.py:203 | the kept lines are exactly the non-matching ones; it keeps everything exactly when nothing matches |
| Exports.KeptAppend | util/exports_manager.py:203 | the filter distributes over concatenation, so kept lines stay in their order |
| Exports.RemoveEntry | util/exports_manager.py:202-206 | fails with `NotFound` exactly when no line matches |
| Exports.RemoveThenParse | util/exports_manager.py:197-207 | after a removal no entry's path starts with the match path, and a second removal finds nothing |
| Exports.RemoveEmptyPathClears | util/exports_manager.py:203-206 | removing the empty path matches every line and writes an empty table |
| Exports.FirstMatch | util/exports_manager.py:217-220 | the index of the first matching line, or none when no line matches |
| Exports.FirstMatchUnique | util/exports_manager.py:218-220 | at most one line is the first match |
| Exports.EditEntry | util/exports_manager.py:214-225 | the loop with its `replaced` flag fails exactly when no line matches; otherwise it replaces the first matching line by `match_path + " " + new_hosts_expr` and leaves the rest |
| Exports.EditThenParse | util/exports_manager.py:217-222 | editing line `k` changes exactly one entry of the parse, into the new path with the new host rules |
| Exports.ParsedReplace | util/exports_manager.py:93-120 | replacing one significant line by another replaces exactly its entry |
| Exports.EditThenReparse | util/exports_manager.py:210-226 | after an edit the table reads back with as many entries, exactly one of them changed, to the path and the new hosts |
| Exports.MatchedLineCounts | util/exports_manager.py:188 | a line matching a non-comment path is a significant line |
| ExportsWriter.TempIsNotTable | util/exports_manager.py:141 | a temporary file never names the table or its backup |
| ExportsWriter.ReadReturnsTable | util/exports_manager.py:54-66 | a read changes no file and returns the table on disk; a missing table raises; any other error comes from the privileged `cat` after a refused open |
| ExportsWriter.BackupCopiesTable | util/exports_manager.py:125-136 | a backup succeeds exactly when the table exists, the target is neither the table nor a directory, and a refused copy is retried with a tool that succeeds; it then copies the table there and changes nothing else |
| ExportsWriter.BackupStep | util/exports_manager.py:148 | the backup step adds the copy of the table and runs a privileged `cp` exactly when the plain copy was refused |
| ExportsWriter.MoveAndReloadFacts | util/exports_manager.py:151-162 | on success the staged file replaces the table and is loaded, after `mv` then `exportfs -ra`; a failed move drops the temporary file; a failed reload leaves the table as the backup (or the new text if the rollback copy failed) and the loaded table unchanged |
| ExportsWriter.WriteSuccess | util/exports_manager.py:139-167 | a successful write leaves the new text in the table and loaded, the old text in `.bak`, and runs the backup copy if needed, `mv`, then `exportfs -ra` |
| ExportsWriter.WriteLeavesNoTemp | util/exports_manager.py:164-167 | no temporary file survives, whatever fails |
| ExportsWriter.WriteFailure | util/exports_manager.py:151-162 | a failed write never changes what the server serves and leaves the table as it was, except after a failed reload whose rollback copy failed |
| ExportsWriter.WriteFailureCause | util/exports_manager.py:143-162 | the error names the first step that failed |
| ExportsWriter.AddThenList | util/exports_manager.py:177-194 | after a successful `add_entry` the served table is the file, and `list_parsed` ends with exactly one entry for the path, with the given hosts |
| ExportsWriter.RemoveThenList | util/exports_manager.py:197-207 | after a successful `remove_entry(p)` the served table is the file and no listed entry's path starts with `p` |
| ExportsWriter.EditThenList | util/exports_manager.py:210-226 | after a successful `edit_entry` the listing has as many entries as before, one of them changed to the path and the new hosts |
| ExportsWriter.AddExample | util/exports_manager.py:190-193 | an example: `/data *(rw)` plus `/export 192.168.1.0/24(ro,sync)` gives a blank separator line, then the new line |
| ExportsWriter.RestoreEffect | util/exports_manager.py:229-241 | a missing backup fails before any command; a successful copy puts the backup in the table, and the served table changes only when the reload succeeds (no rollback) |
| ExportsWriter.ExportsManager.constructor | util/exports_manager.py:22-23 | a manager on a machine, with an empty tool slot |
| ExportsWriter.ExportsManager.ReadTable | util/exports_manager.py:54-66 | performs `ReadSpec` |
| ExportsWriter.ExportsManager.ListRaw | util/exports_manager.py:69-72 | the `splitlines` of what the read returned, or its error |
| ExportsWriter.ExportsManager.ListParsed | util/exports_manager.py:75-122 | the parse of the raw lines, or the read's error |
| ExportsWriter.ExportsManager.Backup | util/exports_manager.py:125-136 | performs `BackupSpec` |
| ExportsWriter.ExportsManager.WriteTempAndMove | util/exports_manager.py:139-167 | performs `WriteSpec`: temp write, backup, move, reload, rollback, cleanup |
| ExportsWriter.ExportsManager.MoveAndReloadRun | util/exports_manager.py:151-162 | performs `MoveAndReload` |
| ExportsWriter.ExportsManager.AddEntryOp | util/exports_manager.py:177-194 | performs `AddSpec`: read, `add_entry` checks, write |
| ExportsWriter.ExportsManager.RemoveEntryOp | util/exports_manager.py:197-207 | performs `RemoveSpec` |
| ExportsWriter.ExportsManager.EditEntryOp | util/exports_manager.py:210-226 | performs `EditSpec` |
| ExportsWriter.ExportsManager.RestoreBackup | util/exports_manager.py:229-241 | performs `RestoreSpec` |
| Backups.InBackupDir | util/backup_manager.py:151 | `os.path.join` with the backup directory: an absolute name replaces it, any other name lands under it |
| Backups.NameSegments | util/backup_manager.py:117 | a backup name splits at `_` into `exports`, `backup`, the date and the time with the suffix |
| Backups.TimestampRoundTrip | util/backup_manager.py:58-59 | the timestamp `list_backups` reads out of a created name is the one it was made with |
| Backups.ReadDescription | util/backup_manager.py:126-128 | the loop over the sidecar lines yields the description of the last `Description:` line |
| Backups.InfoLines | util/backup_manager.py:70 | the sidecar splits into its two labelled lines and a trailing empty one |
| Backups.DescriptionRoundTrip | util/backup_manager.py:70 | a written description reads back stripped and with any `Description:` inside it removed |
| Backups.ListedFields | util/backup_manager.py:107-113 | a listing line of nine fields gives the last as the name, the fifth as the size and the sixth to eighth as the date |
| Backups.SidecarListed | util/backup_manager.py:108-119 | a sidecar's listing line is listed too, with the timestamp `ts + ".info"` |
| Backups.SidecarTimestamp | util/backup_manager.py:116-119 | the timestamp read out of a sidecar's name keeps the `.info` |
| Backups.CountExportLines | util/backup_manager.py:216-220 | the counting loop yields the number of non-blank, non-comment lines |
| Backups.ExportCountIsParsed | util/backup_manager.py:218-220 | that count equals the number of entries the exports parser finds in the same lines |
| BackupStore.BackupPathShape | util/backup_manager.py:60 | a backup lands directly in the backup directory |
| BackupStore.CreatePaths | util/backup_manager.py:60-69 | the backup and its sidecar are neither the temporary file nor `/etc/exports` |
| BackupStore.SidecarFacts | util/backup_manager.py:68-83 | a raising temporary write fails the call and leaves the empty temporary file; otherwise, with a tool, the sidecar step returns the name and installs the content unless the move failed, which removes the temporary file; the served table is untouched |
| BackupStore.CreateSteps | util/backup_manager.py:51-87 | the outcome step by step: no tool, failed `mkdir`, failed or impossible `cp`, then the new files, with `BackupError` when the sidecar's temporary write raised |
| BackupStore.CreateEffect | util/backup_manager.py:45-87 | success exactly when a tool is found, `mkdir` and `cp` succeed and no sidecar write raises; it returns the file name (not the path) whose timestamp reads back, holding the live table; a raising sidecar write fails after the copy exists; errors are only these four |
| BackupStore.CreateSidecar | util/backup_manager.py:68-80 | with a description and a successful move, the sidecar text parses back, by the rule `list_backups` applies, to the description stripped and with any embedded label removed |
| BackupStore.CreateKeepsOthers | util/backup_manager.py:45-87 | no file but the backup, its sidecar and (after a raising write) the temporary file changes |
| BackupStore.RecordsShape | util/backup_manager.py:106-138 | the loop changes no file; with a tool it gives one record per listed line, in order, with that line's name, size and date, the timestamp read from the name, the path in the backup directory, and the description of the sidecar's last `Description:` line, or `""` when the sidecar is missing or its `cat` fails |
| BackupStore.ListEffect | util/backup_manager.py:89-143 | no file changes; it raises exactly when no tool is found; a failed `test -d` (or no directory) or a failed `ls` gives the empty list, not an error; otherwise the records of the listed files as in `RecordsShape`, with `""` as the description of a backup whose sidecar is missing or unreadable |
| BackupStore.RecordsStopAtError | util/backup_manager.py:123-125 | once a sidecar read finds no tool, the listing fails and reads nothing more |
| BackupStore.InstallFacts | util/backup_manager.py:161-169 | after the copy the table holds the backup, and the server serves it exactly when the reload succeeds |
| BackupStore.RestoreEffect | util/backup_manager.py:145-174 | a missing backup fails after one `test`; otherwise the table holds the chosen backup and the automatic backup holds the old table; the served table changes only when the reload succeeds |
| BackupStore.RestoreSameSecond | util/backup_manager.py:158-162 | restoring the backup the automatic backup overwrites leaves the table as it was |
| BackupStore.DeleteEffect | util/backup_manager.py:176-194 | success exactly when a tool is found and `rm` succeeds; the backup is gone, and the sidecar too unless its removal failed; a failure changes nothing |
| BackupStore.InfoEffect | util/backup_manager.py:196-227 | no file changes; `None` exactly when `test -f` or `stat` fails; otherwise the count is the number of parsed exports of the content read, or of `""` when `cat` failed |
| BackupStore.BackupManager.constructor | util/backup_manager.py:20 | a manager on a machine |
| BackupStore.BackupManager.CreateBackup | util/backup_manager.py:45-87 | performs `CreateSpec` |
| BackupStore.BackupManager.WriteSidecar | util/backup_manager.py:68-83 | performs `SidecarSpec` |
| BackupStore.BackupManager.ListBackups | util/backup_manager.py:89-143 | performs `ListSpec`, whose promises `ListEffect` proves |
| BackupStore.BackupManager.CollectRecords | util/backup_manager.py:106-138 | performs `RecordsFrom`, running each sidecar's `cat` with its fault from `sidecarFails`; `RecordsShape` states the records |
| BackupStore.BackupManager.RestoreBackup | util/backup_manager.py:145-174 | performs `RestoreSpec` |
| BackupStore.BackupManager.Install | util/backup_manager.py:161-169 | performs `InstallSpec` |
| BackupStore.BackupManager.DeleteBackup | util/backup_manager.py:176-194 | performs `DeleteSpec` |
| BackupStore.BackupManager.GetBackupInfo | util/backup_manager.py:196-230 | performs `InfoSpec` |
| Mounts.TrimParensStart | util/mount_manager.py:78 | the result is a suffix of the input that does not start with a parenthesis |
| Mounts.TrimParensEnd | util/mount_manager.py:78 | the result is a prefix of the input that does not end with a parenthesis |
| Mounts.StripParensWrapped | util/mount_manager.py:78 | options printed in parentheses come back without them |
| Mounts.SplitServerRejoins | util/mount_manager.py:67-68 | a source with `:` is its server, a `:` and its remote path, and the server holds no `:` |
| Mounts.SplitServerOf | util/mount_manager.py:67-68 | a `server:path` source splits back into its server and its path |
| Mounts.GetMountedNfs | util/mount_manager.py:46-84 | fails exactly when running `mount` raised; otherwise the loop yields the records of the output lines |
| Mounts.MountRecordFields | util/mount_manager.py:59-71 | a record's mount point is the third field and its type the fifth; the source splits at its first `:`, or is the server with `/` |
| Mounts.MountLineRoundTrip | util/mount_manager.py:56-79 | the line `mount` prints for a share reads back as that share's record |
| Mounts.MountedSound | util/mount_manager.py:56-79 | every record comes from a line of the listing |
| Mounts.MountedComplete | util/mount_manager.py:56-79 | every line that describes a mount gives a record |
| Mounts.EffectiveOptions | util/mount_manager.py:118-119 | the options are never empty, and are the given ones when those are not empty |
| Mounts.MountCommand | util/mount_manager.py:114-122 | the step-by-step build yields the `mount` vector with the effective options |
| Mounts.MountArgvShape | util/mount_manager.py:114-122 | seven words: `mount -t nfs -o`, the effective options, `server:path` (which splits back) and the mount point |
| Mounts.UnmountCommand | util/mount_manager.py:181-184 | the step-by-step build yields the `umount` vector |
| Mounts.UnmountArgvShape | util/mount_manager.py:181-184 | `-f` appears, right before the mount point, exactly when forced |
| Mounts.ClassifyMountError | util/mount_manager.py:135-158 | one of the five failures, carrying the stripped error text |
| Mounts.ClassifyFirstPhrase | util/mount_manager.py:137-158 | the first phrase of the fixed list that the lower-cased message holds decides the failure; the generic failure exactly when none does |
| Mounts.ClassifyByLowered | util/mount_manager.py:137-152 | messages with the same stripped, lower-cased text are classified alike |
| Mounts.ClassifyIgnoresCase | util/mount_manager.py:137-152 | messages that differ only in letter case are classified alike |
| Mounts.TestMount | util/mount_manager.py:210-235 | accessible exactly when `showmount` ran, exited with 0, and the scan of its lines answers true |
| Mounts.ScanExportListMeaning | util/mount_manager.py:222-227 | the scan answers true exactly when the list has no blank line or a hit comes before the first blank line |
| Mounts.TestMountMissFails | util/mount_manager.py:220-229 | output ending with a line break and holding no hit gives `False` |
| MountPresets.MountOptionsPresets | util/mount_manager.py:242-250 | seven presets, `Default` is `rw,sync`, none empty |
| Fstab.FindEntry | util/mount_manager.py:288-292 | the duplicate check finds an entry exactly when some line is an entry for the mount point |
| Fstab.AddToFstab | util/mount_manager.py:287-307 | the only refusal is the duplicate |
| Fstab.AddedLines | util/mount_manager.py:303-307 | the written text keeps the old lines in order and adds the entry as the last line |
| Fstab.EntryLineIsEntry | util/mount_manager.py:295-296 | the added line is an entry for its mount point |
| Fstab.NoBreakEntryLine | util/mount_manager.py:296 | the added line holds no line break of its own |
| Fstab.AddThenDuplicate | util/mount_manager.py:288-307 | after an addition the file has an entry for the mount point, keeps every earlier entry, and any second addition for it is refused |
| Fstab.HasEntryForSnoc | util/mount_manager.py:354-360 | one more line adds an entry exactly when it is one, and is kept exactly when it is not |
| Fstab.FilterFstab | util/mount_manager.py:352-360 | the loop yields the kept lines, and `found` exactly when some line was an entry |
| Fstab.KeptFstabAppend | util/mount_manager.py:352-360 | the filter distributes over concatenation, so the order is kept |
| Fstab.KeptFstabNoEntry | util/mount_manager.py:352-360 | no entry for the mount point is kept, and every kept line is an original line |
| Fstab.RemoveEntries | util/mount_manager.py:362-363 | the only refusal is the missing entry |
| Fstab.ConcatReadLines | util/mount_manager.py:344 | `writelines` of what `readlines` read gives the same text |
| Fstab.ReadLinesWellSplit | util/mount_manager.py:344 | `readlines` gives non-empty lines, all but the last terminated |
| Fstab.ReadLinesConcat | util/mount_manager.py:371 | `readlines` of what `writelines` wrote gives back well-split lines |
| Fstab.KeptTerminated | util/mount_manager.py:352-360 | filtering terminated lines leaves terminated lines |
| Fstab.KeptWellSplit | util/mount_manager.py:352-360 | filtering lines as `readlines` gives them leaves lines as `readlines` gives them |
| Fstab.RemoveThenReadBack | util/mount_manager.py:343-371 | on the ordinary read, the written file reads back as exactly the kept lines, and a second removal finds no entry |
| Fstab.TwoWordEntry | util/mount_manager.py:355-357 | a two-word line is an entry for its second word and nothing else |
| Fstab.MergedLines | util/mount_manager.py:349-371 | as written, the fallback runs two kept lines `a b` and `c d` into `a bc d`, an entry for `bc` and no longer for `b` |
| Fstab.FallbackAsWrittenLosesEntry | util/mount_manager.py:346-371 | as written, removing the middle of three entries through the fallback loses the first entry too |
| Fstab.FallbackAsWrittenMergesLines | util/mount_manager.py:346-371 | the smallest such file, `x /a`, `s:/r /m`, `y /b`: removing `/m` loses `/a` |
| Fstab.FallbackAsWrittenKeepsEntry | util/mount_manager.py:346-371 | as written, removing `/m` from `x /`, `s:/r /m`, `m y` through the fallback writes `x /m y`, which is again an entry for `/m` |
| Fstab.FallbackAsWrittenOneLine | util/mount_manager.py:349-371 | as written, the fallback's output has no line break, so `split('\n')` reads it back as one line |
| Fstab.FallbackThenReadBack | util/mount_manager.py:346-349 | the corrected fallback writes the kept lines so that `split('\n')` reads them back, and a second removal finds no entry |
| MountStore.TempIsNotFstab | util/mount_manager.py:300 | a temporary file is neither `/etc/fstab` nor its backup |
| MountStore.MountEffect | util/mount_manager.py:86-166 | success exactly when a tool is found, the mount point is or can be made a directory and `mount` succeeds; it records the share with the effective options; a failing `mount` is classified; no failure changes the mount table |
| MountStore.UnmountEffect | util/mount_manager.py:168-195 | success exactly when a tool is found, something is mounted there and `umount` succeeds; it drops that mount only; a failure changes nothing |
| MountStore.MountThenUnmount | util/mount_manager.py:86-195 | unmounting what was just mounted succeeds and frees the mount point |
| MountStore.BackupFstabFacts | util/mount_manager.py:272-275 | the optional backup touches only `/etc/fstab.bak`, and a failed copy is only a warning |
| MountStore.ReadFstabFacts | util/mount_manager.py:278-285 | reading changes no file and gives the table, directly or through `cat` |
| MountStore.ReplaceFstabFacts | util/mount_manager.py:300-313 | the new text replaces the table when the temporary write and the move succeed; a failed move leaves no temporary file; a raising temporary write fails and leaves the empty temporary file; the table changes only on success |
| MountStore.AddFstabEffect | util/mount_manager.py:252-318 | success exactly when a tool is found, the table is read, has no entry for the mount point and the temporary write and the move succeed; the table then holds the old content and the entry line; a failure leaves the table as it was, and is a duplicate exactly when an entry existed |
| MountStore.AddFstabTwice | util/mount_manager.py:287-292 | after a successful addition, a second one for the same mount point, reading the file directly or through a `cat` that succeeds, is a duplicate and leaves the table |
| MountStore.RemoveFstabEffect | util/mount_manager.py:320-382 | success exactly when a tool is found, the table is read, has an entry and the temporary write and the move succeed; the table then holds the kept lines written by `writelines`; read directly, they read back as the kept lines with no entry for the mount point; read through `cat`, the table becomes one single line; a failure leaves the table |
| MountStore.RemoveFstabSteps | util/mount_manager.py:320-382 | for the text as written and the corrected one alike: when the removal succeeds, what it writes, and that a failure leaves the table and is a missing entry exactly when the read table has none |
| MountStore.RemovedText | util/mount_manager.py:343-371 | the text written as `writelines` writes it: on the ordinary path it reads back as the kept lines and holds no entry; on the fallback it is one line |
| MountStore.RemoveFstabTwice | util/mount_manager.py:352-363 | after a successful removal, a second one read the same way: read directly it finds no entry and leaves the table; through `cat` it finds an entry exactly when the one line left behind is one |
| MountStore.RemoveFstabIntendedEffect | util/mount_manager.py:346-371 | with the fallback's kept lines joined by line breaks, the table after a removal reads back either way as the kept lines (unless the fallback kept nothing) and holds no entry for the mount point |
| MountStore.RemovedTextIntended | util/mount_manager.py:343-371 | the corrected text, whichever way the table was read, reads back as the kept lines and holds no entry |
| MountStore.RemoveFstabTwiceIntended | util/mount_manager.py:352-363 | with the corrected fallback, a second removal read the same way finds no entry and leaves the table |
| MountStore.MountManager.constructor | util/mount_manager.py:15 | a manager on a machine |
| MountStore.MountManager.MountNfs | util/mount_manager.py:86-166 | performs `MountSpec` |
| MountStore.MountManager.UnmountNfs | util/mount_manager.py:168-195 | performs `UnmountSpec` |
| MountStore.MountManager.BackupFstab | util/mount_manager.py:272-275 | performs `BackupFstabSpec` |
| MountStore.MountManager.ReadFstab | util/mount_manager.py:278-285 | performs `ReadFstabSpec` |
| MountStore.MountManager.ReplaceFstab | util/mount_manager.py:300-313 | performs `ReplaceFstabSpec`, including the raising temporary write |
| MountStore.MountManager.AddFstabEntry | util/mount_manager.py:252-318 | performs `AddFstabSpec` |
| MountStore.MountManager.RemoveFstabEntry | util/mount_manager.py:320-382 | performs `RemoveFstabSpec`: both ways of reading end in `writelines` of the kept lines |
| Service.ActionEffect | util/service_manager.py:45-98 | an action succeeds exactly when a tool is known or found and `systemctl` exits with 0; a failure names the action; it runs one `systemctl <action> nfs-server` with that tool, which stays cached; no file changes |
| Service.ActionKeepsTool | util/service_manager.py:24-31 | after one call found a tool, the next call uses it whatever the PATH holds |
| Service.StatusEffect | util/service_manager.py:100-127 | `running` exactly when a tool is found and the stripped `is-active` output is `active`; without a tool both states are `unknown` and nothing runs; with one the three queries run in order |
| Service.ParseActiveExports | util/service_manager.py:136-146 | the loop yields the records of the output lines |
| Service.ActiveExportOfMeaning | util/service_manager.py:137-146 | a line gives a record exactly when it is not a comment and has two tokens; path, client and the rest joined by spaces |
| Service.ActiveExportLine | util/service_manager.py:136-146 | a line of two or more words reads back as its path, client and options |
| Service.ActiveExportsSound | util/service_manager.py:136-146 | every record comes from a line of the output |
| Service.ActiveExportsComplete | util/service_manager.py:136-146 | every line that describes an export gives a record |
| Service.ParseClients | util/service_manager.py:159-170 | the loop yields the records of the output lines |
| Service.ClientRejoins | util/service_manager.py:161-168 | a record's two parts rejoined with `:` give the stripped line |
| Service.ClientLine | util/service_manager.py:161-168 | `host:path` without whitespace or another `:` gives that record |
| Service.ClientsSound | util/service_manager.py:159-170 | every record comes from a line of the output |
| Service.ClientsComplete | util/service_manager.py:159-170 | every line that describes a client gives a record |
| Service.ServiceManager.constructor | util/service_manager.py:19 | a manager with an empty class-level tool slot |
| Service.ServiceManager.RunAction | util/service_manager.py:33-43 | performs `ActionSpec` through the cached tool |
| Service.ServiceManager.Start | util/service_manager.py:45-54 | performs `ActionSpec` for `start` |
| Service.ServiceManager.Stop | util/service_manager.py:56-65 | performs `ActionSpec` for `stop` |
| Service.ServiceManager.Restart | util/service_manager.py:67-76 | performs `ActionSpec` for `restart` |
| Service.ServiceManager.Enable | util/service_manager.py:78-87 | performs `ActionSpec` for `enable` |
| Service.ServiceManager.Disable | util/service_manager.py:89-98 | performs `ActionSpec` for `disable` |
| Service.ServiceManager.Status | util/service_manager.py:100-127 | performs `StatusSpec` |
| Service.ServiceManager.GetExportsActive | util/service_manager.py:129-150 | performs `ExportsActiveSpec` |
| Service.ServiceManager.GetConnectedClients | util/service_manager.py:152-174 | performs `ClientsSpec` |

## Left out

- Running processes, `shutil.which`, `tempfile.mkstemp`, `os.path.exists` on the temporary file, and `datetime.now()` are parameters, not behaviour. The model takes whether each command failed from outside, the PATH, a fresh `/tmp/` path and a clock string.
- Subprocess timeouts are not modelled: every privileged command either exits or finds no tool. `TimeoutExpired` takes other paths in the source (for example, a timed-out reload skips the rollback), and those paths are not covered.
- Exit codes are reduced to zero or non-zero, because the source only compares them with 0. The standard-error text carried by the exceptions is dropped, except for the text `mount_nfs` classifies.
- Error messages are dropped. Each exception is a constructor naming its cause; `status` keeps the no-tool message because it returns it as `status_output`.
- Whitespace follows `str.isspace()` over the characters listed in `Text.IsSpace`. `splitlines` boundaries follow `Text.IsLineBreak`. `lower()` folds ASCII letters only.
- The `[INFO]`/`[DEBUG]` printing in `mount_nfs` and the fstab backup warning are left out: output to the terminal only.
- The GUI (`forms/`), `index.py` and `util/add_directory.py` are not part of this model.
- Concurrent edits of `/etc/exports` or `/etc/fstab` by other processes are not modelled: the source takes no locks.
- Host.FileSystem.Run: a privileged command's effect is given by `Host.Apply` for the commands the managers issue (copy, move, remove, mkdir, mount, umount, reload). Queries print only what the model reads (`cat`), and the output of `ls`, `mount`, `showmount`, `exportfs -v` and `systemctl` is a parameter.
- ExportsWriter.WriteFailureCause: the step that raised is stated as a necessary condition for each error other than the temp-file error, not as an exact characterisation.
- `add_to_fstab`'s default `options="defaults,_netdev"` is not modelled: the model always takes the options as a parameter.
- Text-mode `open()` turns `\r\n` into `\n` when it reads `/etc/fstab`. The model reads the file's text unchanged, so it does not capture this.
- Mounts.TestMount: the `IndexError` a blank line raises and the `TimeoutExpired` of `showmount` both appear as "raised, so `False`" (`ShowmountRaised` or the scan answering false); the exception's kind is not kept.

## Findings

| source | as written | input that shows it | evidently intended | confidence | as-written member | corrected member |
|---|---|---|---|---|---|---|
| util/mount_manager.py:349-371 | When the plain `open` of `/etc/fstab` is refused, `remove_from_fstab` reads the lines with `cat` and `split('\n')`, which drops the line breaks. It then writes the kept lines with `writelines`, which adds none, so all kept lines run together into one | `/etc/fstab` holding `x /a`, `s:/r /m`, `y /b`; `remove_from_fstab("/m")` with the open refused writes `x /ay /b`, which has no entry for `/a` (or `/b`). From `x /`, `s:/r /m`, `m y` it writes `x /m y`, which is still an entry for `/m` | the kept lines written back one per line, separated by `'\n'` | not executed | Fstab.FallbackAsWrittenMergesLines and Fstab.FallbackAsWrittenKeepsEntry (with Fstab.MergedLines, Fstab.FallbackAsWrittenLosesEntry over Fstab.FallbackTextAsWritten), which MountStore.RemoveFstabSpec writes (MountStore.RemoveFstabEffect) | Fstab.FallbackThenReadBack over Fstab.FallbackText, which MountStore.RemoveFstabSpecIntended writes (MountStore.RemoveFstabIntendedEffect) |
