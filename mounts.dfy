/** The text side of `util/mount_manager.py`: reading the NFS lines of the
    `mount` listing, building the `mount` and `umount` command lines,
    classifying what a failed `mount` printed, the `showmount -e` probe of
    `test_mount`, and the presets of mount options. */
module Mounts {
  import opened Common
  import opened Text
  import opened Host

  /** Why an operation raised `MountError`; `detail` is the stripped
      standard error of a failed `mount`. */
  datatype MountFailure =
    | ListFailed
    | NoPrivilegeTool
    | MountPointFailed
    | AccessDenied(detail: string)
    | HostUnreachable(detail: string)
    | ConnectionTimedOut(detail: string)
    | ServiceNotRunning(detail: string)
    | MountFailed(detail: string)
    | UnmountFailed
    | FstabUnreadable
    | FstabDuplicate
    | FstabMissingEntry
    | FstabTempWriteFailed
    | FstabUpdateFailed

  // ---------------------------------------------------------------------
  // get_mounted_nfs

  /** One record of `get_mounted_nfs`. */
  datatype MountRecord = MountRecord(
    server: string, remotePath: string, mountPoint: string, fsType: string, options: string)

  predicate IsParen(c: char) {
    c == '(' || c == ')'
  }

  /** `s.lstrip("()")` */
  function TrimParensStart(s: string): (r: string)
    ensures |r| <= |s| && r == s[|s| - |r|..]
    ensures r == [] || !IsParen(r[0])
  {
    if s != [] && IsParen(s[0]) then TrimParensStart(s[1..]) else s
  }

  /** `s.rstrip("()")` */
  function TrimParensEnd(s: string): (r: string)
    ensures |r| <= |s| && r == s[..|r|]
    ensures r == [] || !IsParen(r[|r| - 1])
  {
    if s != [] && IsParen(s[|s| - 1]) then TrimParensEnd(s[..|s| - 1]) else s
  }

  /** `s.strip("()")` */
  function StripParens(s: string): string {
    TrimParensEnd(TrimParensStart(s))
  }

  lemma TrimParensStartWrapped(o: string)
    requires o == [] || !IsParen(o[0])
    ensures TrimParensStart("(" + o + ")") == if o == [] then "" else o + ")"
  {
    assert "(" + o + ")" == "(" + (o + ")");
    TrimParenFirst(o + ")");
    TrimParensStartClosed(o);
  }

  /** Trimming stops at the first character of `o`, or empties a lone `)`. */
  lemma TrimParensStartClosed(o: string)
    requires o == [] || !IsParen(o[0])
    ensures TrimParensStart(o + ")") == if o == [] then "" else o + ")"
  {
    if o == [] {
      assert o + ")" == ")" && ")"[1..] == "";
    } else {
      HeadTail(o, ")");
    }
  }

  /** A leading parenthesis is trimmed. */
  lemma TrimParenFirst(t: string)
    ensures TrimParensStart("(" + t) == TrimParensStart(t)
  {
    HeadTail("(", t);
    assert "" + t == t;
  }

  lemma TrimParensEndClosed(o: string)
    requires o == [] || !IsParen(o[|o| - 1])
    ensures TrimParensEnd(o + ")") == o
  {
    var t := o + ")";
    assert t[|t| - 1] == ')' && t[..|t| - 1] == o;
  }

  /** Options the way `mount` prints them, in parentheses, come back without them. */
  lemma StripParensWrapped(o: string)
    requires o == [] || (!IsParen(o[0]) && !IsParen(o[|o| - 1]))
    ensures StripParens("(" + o + ")") == o
  {
    TrimParensStartWrapped(o);
    if o != [] {
      TrimParensEndClosed(o);
    }
  }

  /** `token.split(':', 1)` when the token holds a `:`, else the token and `/`. */
  function SplitServer(token: string): (string, string) {
    if ':' in token then
      var i := IndexOf(token, ':');
      (token[..i], token[i + 1..])
    else (token, "/")
  }

  /** A token with a `:` is its server, a `:`, and its remote path; the
      server holds no `:`. */
  lemma SplitServerRejoins(token: string)
    requires ':' in token
    ensures SplitServer(token).0 + ":" + SplitServer(token).1 == token
    ensures ':' !in SplitServer(token).0
  {
    var i := IndexOf(token, ':');
    assert token == token[..i] + [token[i]] + token[i + 1..];
  }

  /** A server name without `:` is split back off its source. */
  lemma SplitServerOf(server: string, remotePath: string)
    requires ':' !in server
    ensures SplitServer(server + ":" + remotePath) == (server, remotePath)
  {
    var token := server + ":" + remotePath;
    assert token[|server|] == ':';
    assert token[..|server|] == server;
    assert token[|server| + 1..] == remotePath;
    assert IndexOf(token, ':') == |server|;
  }

  /** The record a line of the `mount` listing gives, if any: a non-blank line
      holding a `:` somewhere, with at least six fields. */
  function MountRecordOf(line: string): Option<MountRecord> {
    var parts := Split(line);
    if Strip(line) != "" && ':' in line && |parts| >= 6 then
      var (server, remotePath) := SplitServer(parts[0]);
      Some(MountRecord(server, remotePath, parts[2], parts[4], StripParens(parts[5])))
    else None
  }

  /** The records of the lines, in order. */
  function MountedFrom(lines: seq<string>): (r: seq<MountRecord>)
    ensures |r| <= |lines|
    decreases |lines|
  {
    if lines == [] then []
    else
      var prev := MountedFrom(lines[..|lines| - 1]);
      match MountRecordOf(lines[|lines| - 1])
      case None => prev
      case Some(m) => prev + [m]
  }

  /** `get_mounted_nfs()`; `stdout` is `None` when running `mount` raised,
      else its standard output, whatever its exit code. */
  method GetMountedNfs(stdout: Option<string>) returns (r: Result<seq<MountRecord>, MountFailure>)
    ensures r.Err? <==> stdout.None?
    ensures stdout.Some? ==> r == Ok(MountedFrom(SplitOn(stdout.value, '\n')))
  {
    if stdout.None? {
      return Err(ListFailed);
    }
    var lines := SplitOn(stdout.value, '\n');
    var mounted: seq<MountRecord> := [];
    for i := 0 to |lines|
      invariant mounted == MountedFrom(lines[..i])
    {
      assert lines[..i + 1][..i] == lines[..i];
      var line := lines[i];
      if Strip(line) != "" && ':' in line {
        var parts := Split(line);
        if |parts| >= 6 {
          var serverPath := parts[0];
          var mountPoint := parts[2];
          var mountType := parts[4];
          var options := parts[5];
          var server, remotePath;
          if ':' in serverPath {
            var k := IndexOf(serverPath, ':');
            server, remotePath := serverPath[..k], serverPath[k + 1..];
          } else {
            server, remotePath := serverPath, "/";
          }
          mounted := mounted + [MountRecord(server, remotePath, mountPoint, mountType, StripParens(options))];
        }
      }
    }
    assert lines[..|lines|] == lines;
    r := Ok(mounted);
  }

  /** A record's fields are the line's fields: the mount point is the third,
      the type the fifth, and the first is the server and remote path joined
      by the server's only `:` (or the server alone, with remote path `/`). */
  lemma MountRecordFields(line: string)
    requires MountRecordOf(line).Some?
    ensures var m, parts := MountRecordOf(line).value, Split(line);
            && |parts| >= 6 && m.mountPoint == parts[2] && m.fsType == parts[4]
            && (':' in parts[0] ==> m.server + ":" + m.remotePath == parts[0] && ':' !in m.server)
            && (':' !in parts[0] ==> m.server == parts[0] && m.remotePath == "/")
  {
    var parts := Split(line);
    if ':' in parts[0] {
      SplitServerRejoins(parts[0]);
    }
  }

  /** The line `mount` prints for an NFS mount reads back as the record it
      describes. */
  lemma MountLineRoundTrip(server: string, remotePath: string, mountPoint: string, fsType: string, options: string)
    requires NoSpace(server) && ':' !in server && NoSpace(remotePath)
    requires mountPoint != "" && NoSpace(mountPoint) && fsType != "" && NoSpace(fsType)
    requires NoSpace(options) && (options == [] || (!IsParen(options[0]) && !IsParen(options[|options| - 1])))
    ensures var source := server + ":" + remotePath;
            MountRecordOf(Join([source, "on", mountPoint, "type", fsType, "(" + options + ")"], " "))
            == Some(MountRecord(server, remotePath, mountPoint, fsType, options))
  {
    MountLineWords(server, remotePath, mountPoint, fsType, options);
    SplitServerOf(server, remotePath);
    StripParensWrapped(options);
  }

  /** The printed line is not blank, holds a `:` and splits into its six words. */
  lemma MountLineWords(server: string, remotePath: string, mountPoint: string, fsType: string, options: string)
    requires NoSpace(server) && NoSpace(remotePath)
    requires mountPoint != "" && NoSpace(mountPoint) && fsType != "" && NoSpace(fsType) && NoSpace(options)
    ensures var words := [server + ":" + remotePath, "on", mountPoint, "type", fsType, "(" + options + ")"];
            var line := Join(words, " ");
            Split(line) == words && Strip(line) != "" && ':' in line
  {
    var source := server + ":" + remotePath;
    var words := [source, "on", mountPoint, "type", fsType, "(" + options + ")"];
    var line := Join(words, " ");
    assert Split(line) == words by {
      NoSpaceJoin3(server, ":", remotePath);
      NoSpaceJoin3("(", options, ")");
      assert NoSpace("on") && NoSpace("type");
      SplitJoinWords(words);
    }
    var rest := " " + Join(words[1..], " ");
    assert line == source + rest;
    StripKeepsWord(source, rest);
    assert line[|server|] == ':';
  }

  /** Every record comes from a line of the listing. */
  lemma {:induction false} MountedSound(lines: seq<string>)
    ensures forall k :: 0 <= k < |MountedFrom(lines)| ==>
              exists j :: 0 <= j < |lines| && MountRecordOf(lines[j]) == Some(MountedFrom(lines)[k])
    decreases |lines|
  {
    if lines != [] {
      var init := lines[..|lines| - 1];
      MountedSound(init);
      var prev, all := MountedFrom(init), MountedFrom(lines);
      var last := MountRecordOf(lines[|lines| - 1]);
      assert all == if last.Some? then prev + [last.value] else prev;
      forall k | 0 <= k < |all|
        ensures exists j :: 0 <= j < |lines| && MountRecordOf(lines[j]) == Some(all[k])
      {
        SnocIndex(prev, all, last, k);
        if k < |prev| {
          var j :| 0 <= j < |init| && MountRecordOf(init[j]) == Some(prev[k]);
          assert lines[j] == init[j];
        }
      }
    } else {
      assert MountedFrom(lines) == [];
    }
  }

  /** Every line that describes a mount gives a record. */
  lemma {:induction false} MountedComplete(lines: seq<string>)
    ensures forall j :: 0 <= j < |lines| && MountRecordOf(lines[j]).Some? ==>
              MountRecordOf(lines[j]).value in MountedFrom(lines)
    decreases |lines|
  {
    if lines != [] {
      var init := lines[..|lines| - 1];
      MountedComplete(init);
      var prev, all := MountedFrom(init), MountedFrom(lines);
      var last := MountRecordOf(lines[|lines| - 1]);
      assert all == if last.Some? then prev + [last.value] else prev;
      assert forall j :: 0 <= j < |lines| - 1 && MountRecordOf(lines[j]).Some? ==> MountRecordOf(lines[j]).value in prev by {
        forall j | 0 <= j < |lines| - 1 ensures lines[j] == init[j] { }
      }
      MountedCompleteStep(lines, prev, all);
    }
  }

  lemma MountedCompleteStep(lines: seq<string>, prev: seq<MountRecord>, all: seq<MountRecord>)
    requires lines != []
    requires var last := MountRecordOf(lines[|lines| - 1]);
             all == if last.Some? then prev + [last.value] else prev
    requires forall j :: 0 <= j < |lines| - 1 && MountRecordOf(lines[j]).Some? ==> MountRecordOf(lines[j]).value in prev
    ensures forall j :: 0 <= j < |lines| && MountRecordOf(lines[j]).Some? ==> MountRecordOf(lines[j]).value in all
  {
    var last := MountRecordOf(lines[|lines| - 1]);
    forall j | 0 <= j < |lines| && MountRecordOf(lines[j]).Some?
      ensures MountRecordOf(lines[j]).value in all
    {
      SnocMember(prev, all, last, MountRecordOf(lines[j]).value);
    }
  }

  // ---------------------------------------------------------------------
  // mount_nfs and unmount_nfs

  const DefaultMountOptions: string := "rw,sync"

  /** The options `mount_nfs` passes: the given ones, or the default when none were given. */
  function EffectiveOptions(options: string): (r: string)
    ensures r != ""
    ensures options != "" ==> r == options
  {
    if options == "" then DefaultMountOptions else options
  }

  /** The command `mount_nfs` builds, step by step as the source does. */
  method MountCommand(server: string, remotePath: string, mountPoint: string, options: string)
    returns (cmd: seq<string>)
    ensures cmd == Argv(Mount(EffectiveOptions(options), server + ":" + remotePath, mountPoint))
  {
    var serverPath := server + ":" + remotePath;
    cmd := ["mount", "-t", "nfs"];
    var opts := options;
    if opts == "" {
      opts := DefaultMountOptions;
    }
    cmd := cmd + ["-o", opts];
    cmd := cmd + [serverPath, mountPoint];
  }

  /** The `mount` command names the NFS type, passes the effective options
      after `-o`, then the source (whose server and remote path split back
      off it) and the mount point last. */
  lemma MountArgvShape(server: string, remotePath: string, mountPoint: string, options: string)
    requires ':' !in server
    ensures var cmd := Argv(Mount(EffectiveOptions(options), server + ":" + remotePath, mountPoint));
            && |cmd| == 7 && cmd[..4] == ["mount", "-t", "nfs", "-o"]
            && cmd[4] != "" && (options != "" ==> cmd[4] == options)
            && SplitServer(cmd[5]) == (server, remotePath)
            && cmd[6] == mountPoint
  {
    SplitServerOf(server, remotePath);
  }

  /** The command `unmount_nfs` builds, step by step as the source does. */
  method UnmountCommand(mountPoint: string, force: bool) returns (cmd: seq<string>)
    ensures cmd == Argv(Unmount(force, mountPoint))
  {
    cmd := ["umount"];
    if force {
      cmd := cmd + ["-f"];
    }
    cmd := cmd + [mountPoint];
  }

  /** `-f` appears, right before the mount point, exactly when forced. */
  lemma UnmountArgvShape(mountPoint: string, force: bool)
    requires mountPoint != "-f"
    ensures var cmd := Argv(Unmount(force, mountPoint));
            && cmd[0] == "umount" && cmd[|cmd| - 1] == mountPoint
            && ("-f" in cmd <==> force)
            && (force ==> cmd == ["umount", "-f", mountPoint])
  {
    var cmd := Argv(Unmount(force, mountPoint));
    if !force {
      assert cmd == ["umount", mountPoint];
    }
  }

  /** The phrases `mount_nfs` looks for, in the order it looks. */
  const Phrases: seq<string> := ["access denied", "no route to host", "connection timed out", "program not registered"]

  /** The failure a phrase stands for. */
  function PhraseFailure(i: nat, detail: string): MountFailure
    requires i < |Phrases|
  {
    if i == 0 then AccessDenied(detail)
    else if i == 1 then HostUnreachable(detail)
    else if i == 2 then ConnectionTimedOut(detail)
    else ServiceNotRunning(detail)
  }

  /** Which phrase a lower-cased message holds, asking in order: the
      position of the first one it holds, or `|Phrases|` for none. */
  function PhraseIndex(low: string): (i: nat)
    ensures i <= |Phrases|
  {
    if Contains(low, "access denied") then 0
    else if Contains(low, "no route to host") then 1
    else if Contains(low, "connection timed out") then 2
    else if Contains(low, "program not registered") then 3
    else 4
  }

  /** The classification of a failed `mount` from its standard error. */
  function ClassifyMountError(stderr: string): (r: MountFailure)
    ensures r.AccessDenied? || r.HostUnreachable? || r.ConnectionTimedOut? || r.ServiceNotRunning? || r.MountFailed?
    ensures r.detail == Strip(stderr)
  {
    var errorMsg := Strip(stderr);
    var i := PhraseIndex(Lower(errorMsg));
    if i < |Phrases| then PhraseFailure(i, errorMsg) else MountFailed(errorMsg)
  }

  /** The first phrase of the list that the lower-cased message holds decides
      the failure; a message holding none of them is a generic failure. */
  lemma ClassifyFirstPhrase(stderr: string)
    ensures var low := Lower(Strip(stderr));
            && (forall i :: (0 <= i < |Phrases| && Contains(low, Phrases[i])
                              && (forall j :: 0 <= j < i ==> !Contains(low, Phrases[j]))) ==>
                   ClassifyMountError(stderr) == PhraseFailure(i, Strip(stderr)))
            && ((forall i :: 0 <= i < |Phrases| ==> !Contains(low, Phrases[i]))
                  <==> ClassifyMountError(stderr) == MountFailed(Strip(stderr)))
  {
    var low := Lower(Strip(stderr));
    assert Phrases[0] == "access denied" && Phrases[1] == "no route to host";
    assert Phrases[2] == "connection timed out" && Phrases[3] == "program not registered";
    forall i | 0 <= i < |Phrases| && Contains(low, Phrases[i])
               && (forall j :: 0 <= j < i ==> !Contains(low, Phrases[j]))
      ensures ClassifyMountError(stderr) == PhraseFailure(i, Strip(stderr))
    {
      if i == 1 {
        assert !Contains(low, Phrases[0]);
      } else if i == 2 {
        assert !Contains(low, Phrases[0]) && !Contains(low, Phrases[1]);
      } else if i == 3 {
        assert !Contains(low, Phrases[0]) && !Contains(low, Phrases[1]) && !Contains(low, Phrases[2]);
      }
    }
  }

  /** Messages with the same stripped, lower-cased text fail the same way. */
  lemma ClassifyByLowered(a: string, b: string)
    requires Lower(Strip(a)) == Lower(Strip(b))
    ensures ClassifyMountError(a).AccessDenied? == ClassifyMountError(b).AccessDenied?
    ensures ClassifyMountError(a).HostUnreachable? == ClassifyMountError(b).HostUnreachable?
    ensures ClassifyMountError(a).ConnectionTimedOut? == ClassifyMountError(b).ConnectionTimedOut?
    ensures ClassifyMountError(a).ServiceNotRunning? == ClassifyMountError(b).ServiceNotRunning?
  {
  }

  /** The classification ignores letter case: messages that differ only in
      the case of their letters fail the same way. */
  lemma ClassifyIgnoresCase(a: string, b: string)
    requires Lower(a) == Lower(b)
    ensures ClassifyMountError(a).AccessDenied? == ClassifyMountError(b).AccessDenied?
    ensures ClassifyMountError(a).HostUnreachable? == ClassifyMountError(b).HostUnreachable?
    ensures ClassifyMountError(a).ConnectionTimedOut? == ClassifyMountError(b).ConnectionTimedOut?
    ensures ClassifyMountError(a).ServiceNotRunning? == ClassifyMountError(b).ServiceNotRunning?
  {
    StripLower(a);
    StripLower(b);
    ClassifyByLowered(a, b);
  }

  // ---------------------------------------------------------------------
  // test_mount

  /** How `showmount -e server` went: it raised (a timeout, a missing
      binary), or it exited, successfully or not, with its standard output. */
  datatype Showmount = ShowmountRaised | ShowmountExited(ok: bool, out: string)

  /** The loop of `test_mount` over the lines of the export list: a line
      whose first field holds the remote path answers true; a blank line makes
      `line.split()[0]` raise, which answers false; running out of lines answers true. */
  function ScanExportList(lines: seq<string>, remotePath: string): bool
    decreases |lines|
  {
    if lines == [] then true
    else if Split(lines[0]) == [] then false
    else if Contains(Split(lines[0])[0], remotePath) then true
    else ScanExportList(lines[1..], remotePath)
  }

  /** `test_mount(server, remote_path)` */
  method TestMount(run: Showmount, remotePath: string) returns (accessible: bool)
    ensures accessible == (run.ShowmountExited? && run.ok && ScanExportList(SplitOn(run.out, '\n'), remotePath))
  {
    if run.ShowmountRaised? || !run.ok {
      return false;
    }
    var lines := SplitOn(run.out, '\n');
    var i := 0;
    while i < |lines|
      invariant 0 <= i <= |lines|
      invariant ScanExportList(lines[i..], remotePath) == ScanExportList(lines, remotePath)
    {
      assert lines[i..][1..] == lines[i + 1..];
      var parts := Split(lines[i]);
      if parts == [] {
        return false;
      }
      if Contains(parts[0], remotePath) {
        return true;
      }
      i := i + 1;
    }
    accessible := true;
  }

  /** No line of the list is blank. */
  predicate NoBlankLine(lines: seq<string>) {
    forall k :: 0 <= k < |lines| ==> Split(lines[k]) != []
  }

  /** A line whose first field holds the remote path comes before any blank line. */
  predicate HitBeforeBlank(lines: seq<string>, remotePath: string) {
    exists k :: 0 <= k < |lines| && NoBlankLine(lines[..k]) && Split(lines[k]) != []
                && Contains(Split(lines[k])[0], remotePath)
  }

  lemma NoBlankLineCons(lines: seq<string>)
    requires lines != []
    ensures NoBlankLine(lines) <==> Split(lines[0]) != [] && NoBlankLine(lines[1..])
  {
    if Split(lines[0]) != [] && NoBlankLine(lines[1..]) {
      forall k | 0 <= k < |lines| ensures Split(lines[k]) != [] {
        if k > 0 { assert lines[k] == lines[1..][k - 1]; }
      }
    }
    if NoBlankLine(lines) {
      forall k | 0 <= k < |lines[1..]| ensures Split(lines[1..][k]) != [] {
        assert lines[1..][k] == lines[k + 1];
      }
    }
  }

  lemma HitBeforeBlankCons(lines: seq<string>, remotePath: string)
    requires lines != [] && Split(lines[0]) != []
    ensures HitBeforeBlank(lines, remotePath) <==>
              Contains(Split(lines[0])[0], remotePath) || HitBeforeBlank(lines[1..], remotePath)
  {
    var rest := lines[1..];
    if HitBeforeBlank(lines, remotePath) && !Contains(Split(lines[0])[0], remotePath) {
      var k :| 0 <= k < |lines| && NoBlankLine(lines[..k]) && Split(lines[k]) != []
               && Contains(Split(lines[k])[0], remotePath);
      assert k > 0;
      assert NoBlankLine(rest[..k - 1]) by {
        NoBlankLineCons(lines[..k]);
        PrefixTail(lines, k);
      }
      assert rest[k - 1] == lines[k];
      assert HitBeforeBlank(rest, remotePath);
    }
    if Contains(Split(lines[0])[0], remotePath) {
      assert NoBlankLine(lines[..0]);
      assert HitBeforeBlank(lines, remotePath);
    }
    if HitBeforeBlank(rest, remotePath) {
      var k :| 0 <= k < |rest| && NoBlankLine(rest[..k]) && Split(rest[k]) != []
               && Contains(Split(rest[k])[0], remotePath);
      assert NoBlankLine(lines[..k + 1]) by {
        NoBlankLineCons(lines[..k + 1]);
        PrefixTail(lines, k + 1);
      }
      assert lines[k + 1] == rest[k];
      assert HitBeforeBlank(lines, remotePath);
    }
  }

  /** The scan answers true exactly when a line whose first field holds the
      remote path comes before any blank line, or when there is no blank line. */
  lemma {:induction false} ScanExportListMeaning(lines: seq<string>, remotePath: string)
    ensures ScanExportList(lines, remotePath) <==> NoBlankLine(lines) || HitBeforeBlank(lines, remotePath)
    decreases |lines|
  {
    if lines != [] {
      ScanExportListMeaning(lines[1..], remotePath);
      NoBlankLineCons(lines);
      if Split(lines[0]) != [] {
        HitBeforeBlankCons(lines, remotePath);
      } else {
        forall k | 0 < k < |lines| ensures !NoBlankLine(lines[..k]) {
          assert lines[..k][0] == lines[0];
        }
      }
    }
  }

  /** `showmount` ends its list with a line break, so its output always has a
      blank last line: when no line's first field holds the remote path, the
      probe answers false although `showmount` succeeded. */
  lemma TestMountMissFails(out: string, remotePath: string)
    requires EndsWith(out, "\n")
    requires forall k :: 0 <= k < |SplitOn(out, '\n')| && Split(SplitOn(out, '\n')[k]) != [] ==>
               !Contains(Split(SplitOn(out, '\n')[k])[0], remotePath)
    ensures !ScanExportList(SplitOn(out, '\n'), remotePath)
  {
    var lines := SplitOn(out, '\n');
    var body := out[..|out| - 1];
    assert out == body + ['\n'] + "";
    SplitOnAppend(body, "", '\n');
    assert lines[|lines| - 1] == "";
    assert Split(lines[|lines| - 1]) == [];
    ScanExportListMeaning(lines, remotePath);
    assert !NoBlankLine(lines);
  }
}
