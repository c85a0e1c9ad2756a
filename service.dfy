/** `util/service_manager.py`: the `nfs-server` unit driven through
    `systemctl`, its status report, and the parsers of `exportfs -v` and
    `showmount -a`.  `ServiceManager` keeps the privilege tool it finds first
    for the rest of the process.  The standard output of `systemctl`,
    `exportfs` and `showmount` is a parameter. */
module Service {
  import opened Common
  import opened Text
  import opened Host

  /** Why an operation raised `ServiceError`. */
  datatype ServiceFailure = NoPrivilegeTool | ActionFailed(action: string)

  // ---------------------------------------------------------------------
  // start, stop, restart, enable, disable

  /** `systemctl <action> nfs-server`, succeeding exactly on exit code 0. */
  function ActionSpec(s: World, w: Which, action: string, fails: bool): (Outcome<ServiceFailure>, World) {
    var (r, s1) := Exec(s, w, Systemctl(action), fails);
    if r.NoTool? then (Fail(NoPrivilegeTool), s1)
    else if !r.ok then (Fail(ActionFailed(action)), s1)
    else (Pass, s1)
  }

  /** An action succeeds exactly when a privilege tool is known or found and
      `systemctl` exits with 0; a failure names the action.  With a tool it
      runs one `systemctl` command with that tool, which stays cached; without
      one nothing happens.  No file changes. */
  lemma ActionEffect(s: World, w: Which, action: string, fails: bool)
    ensures var (r, s') := ActionSpec(s, w, action, fails);
            && (r.Pass? <==> Lookup(s.cached, w).Some? && !fails)
            && (r.Fail? ==> r.error == (if Lookup(s.cached, w).None? then NoPrivilegeTool else ActionFailed(action)))
            && (Lookup(s.cached, w).None? ==> s' == s)
            && (Lookup(s.cached, w).Some? ==>
                  && s'.cached == Lookup(s.cached, w)
                  && s'.trace == s.trace + [Invocation(Lookup(s.cached, w).value, Systemctl(action))]
                  && CommandLine(s'.trace[|s.trace|]) == [ToolName(Lookup(s.cached, w).value), "systemctl", action, "nfs-server"])
            && s'.disk == s.disk
  {
    ExecFacts(s, w, Systemctl(action), fails);
  }

  /** Once a call has found a tool, every later call uses that same tool, even
      when neither `pkexec` nor `sudo` can be found any more. */
  lemma ActionKeepsTool(s: World, w: Which, action: string, fails: bool, w2: Which, action2: string, fails2: bool)
    requires Lookup(s.cached, w).Some?
    ensures var s1 := ActionSpec(s, w, action, fails).1;
            var (r2, s2) := ActionSpec(s1, w2, action2, fails2);
            && s2.trace == s1.trace + [Invocation(Lookup(s.cached, w).value, Systemctl(action2))]
            && (r2.Pass? <==> !fails2)
  {
    ActionEffect(s, w, action, fails);
    var s1 := ActionSpec(s, w, action, fails).1;
    ActionEffect(s1, w2, action2, fails2);
  }

  // ---------------------------------------------------------------------
  // status

  /** What `status()` returns. */
  datatype ServiceStatus = ServiceStatus(active: string, enabled: string, statusOutput: string, running: bool)

  /** The text of the error raised when no privilege tool is found, which
      `status` reports as its output. */
  const NoToolMessage: string := "No se encontró pkexec ni sudo en el sistema"

  /** What the three queries print: `systemctl is-active`, `is-enabled` and `status`. */
  datatype StatusOutputs = StatusOutputs(active: string, enabled: string, status: string)

  /** `status()`: the exit codes of the three queries are not read. */
  function StatusSpec(s: World, w: Which, outs: StatusOutputs): (ServiceStatus, World) {
    var unknown := ServiceStatus("unknown", "unknown", NoToolMessage, false);
    var (r1, s1) := Exec(s, w, Systemctl("is-active"), false);
    if r1.NoTool? then (unknown, s1)
    else
      var (r2, s2) := Exec(s1, w, Systemctl("is-enabled"), false);
      if r2.NoTool? then (unknown, s2)
      else
        var (r3, s3) := Exec(s2, w, Systemctl("status"), false);
        if r3.NoTool? then (unknown, s3)
        else
          var active := Strip(outs.active);
          (ServiceStatus(active, Strip(outs.enabled), outs.status, active == "active"), s3)
  }

  /** The service counts as running exactly when a tool is found and the
      stripped `is-active` output is `active`.  Without a tool both states
      are `unknown` and nothing is run; with one, the three queries run in
      order with that tool.  No file changes. */
  lemma StatusEffect(s: World, w: Which, outs: StatusOutputs)
    ensures var (st, s') := StatusSpec(s, w, outs);
            && (st.running <==> Lookup(s.cached, w).Some? && Strip(outs.active) == "active")
            && (st.running ==> st.active == "active")
            && (Lookup(s.cached, w).None? ==>
                  st.active == "unknown" && st.enabled == "unknown" && st.statusOutput == NoToolMessage && s' == s)
            && (Lookup(s.cached, w).Some? ==>
                  var t := Lookup(s.cached, w).value;
                  && st.active == Strip(outs.active) && st.enabled == Strip(outs.enabled)
                  && st.statusOutput == outs.status
                  && s'.cached == Some(t)
                  && s'.trace == s.trace + [Invocation(t, Systemctl("is-active")), Invocation(t, Systemctl("is-enabled")),
                                            Invocation(t, Systemctl("status"))])
            && s'.disk == s.disk
  {
    ExecFacts(s, w, Systemctl("is-active"), false);
    var (r1, s1) := Exec(s, w, Systemctl("is-active"), false);
    if r1.Exited? {
      ExecFacts(s1, w, Systemctl("is-enabled"), false);
      var (r2, s2) := Exec(s1, w, Systemctl("is-enabled"), false);
      ExecFacts(s2, w, Systemctl("status"), false);
    }
  }

  // ---------------------------------------------------------------------
  // get_exports_active

  /** One record of `get_exports_active`. */
  datatype ActiveExport = ActiveExport(path: string, client: string, options: string)

  /** The record a line of `exportfs -v` gives: blank lines, comments and
      lines of a single token give none. */
  function ActiveExportOf(line: string): Option<ActiveExport> {
    var t := Strip(line);
    var parts := Split(t);
    if t != "" && !StartsWith(t, "#") && |parts| >= 2 then
      Some(ActiveExport(parts[0], parts[1], Join(parts[2..], " ")))
    else None
  }

  function ActiveExportsFrom(lines: seq<string>): (r: seq<ActiveExport>)
    ensures |r| <= |lines|
    decreases |lines|
  {
    if lines == [] then []
    else
      var prev := ActiveExportsFrom(lines[..|lines| - 1]);
      match ActiveExportOf(lines[|lines| - 1])
      case None => prev
      case Some(e) => prev + [e]
  }

  /** `get_exports_active()`: `exportfs -v` is read whatever its exit code. */
  function ExportsActiveSpec(s: World, w: Which, out: string, fails: bool)
    : (Result<seq<ActiveExport>, ServiceFailure>, World)
  {
    var (r, s1) := Exec(s, w, ListExports, fails);
    if r.NoTool? then (Err(NoPrivilegeTool), s1)
    else (Ok(ActiveExportsFrom(SplitOn(out, '\n'))), s1)
  }

  /** The loop of `get_exports_active` over the lines of the output. */
  method ParseActiveExports(out: string) returns (exports: seq<ActiveExport>)
    ensures exports == ActiveExportsFrom(SplitOn(out, '\n'))
  {
    var lines := SplitOn(out, '\n');
    exports := [];
    for i := 0 to |lines|
      invariant exports == ActiveExportsFrom(lines[..i])
    {
      assert lines[..i + 1][..i] == lines[..i];
      var line := Strip(lines[i]);
      if line != "" && !StartsWith(line, "#") {
        var parts := Split(line);
        if |parts| >= 2 {
          var options := if |parts| > 2 then Join(parts[2..], " ") else "";
          assert options == Join(parts[2..], " ");
          exports := exports + [ActiveExport(parts[0], parts[1], options)];
        }
      }
    }
    assert lines[..|lines|] == lines;
  }

  /** A line of at least two whitespace-free words that does not start like
      a comment gives the record of its first word, its second word (the
      client, so the `*` default never applies) and the rest joined by single
      spaces, which splits back into those words. */
  lemma ActiveExportLine(path: string, client: string, options: seq<string>)
    requires path != "" && NoSpace(path) && path[0] != '#' && client != "" && NoSpace(client)
    requires forall k :: 0 <= k < |options| ==> options[k] != "" && NoSpace(options[k])
    ensures ActiveExportOf(Join([path, client] + options, " ")) == Some(ActiveExport(path, client, Join(options, " ")))
    ensures Split(Join(options, " ")) == options
  {
    var words := [path, client] + options;
    assert forall k :: 0 <= k < |words| ==> words[k] != "" && NoSpace(words[k]) by {
      forall k | 0 <= k < |words| ensures words[k] != "" && NoSpace(words[k]) {
        if k >= 2 { assert words[k] == options[k - 2]; }
      }
    }
    var t := Strip(Join(words, " "));
    assert t != "" && !StartsWith(t, "#") && Split(t) == words by {
      JoinedWords(words);
      FirstCharNotPrefix(t, '#');
    }
    assert words[0] == path && words[1] == client && words[2..] == options;
    SplitJoinWords(options);
  }

  /** Words joined by single spaces strip to a text that starts with the
      first word and splits back into the words. */
  lemma JoinedWords(words: seq<string>)
    requires |words| >= 1
    requires forall k :: 0 <= k < |words| ==> words[k] != "" && NoSpace(words[k])
    ensures var t := Strip(Join(words, " "));
            t != "" && t[0] == words[0][0] && Split(t) == words
  {
    JoinedWordsSplit(words);
    JoinedWordsStart(words[0], words[1..]);
    assert [words[0]] + words[1..] == words;
  }

  lemma JoinedWordsSplit(words: seq<string>)
    requires forall k :: 0 <= k < |words| ==> words[k] != "" && NoSpace(words[k])
    ensures Split(Strip(Join(words, " "))) == words
  {
    SplitJoinWords(words);
    SplitStrip(Join(words, " "));
  }

  lemma JoinedWordsStart(first: string, others: seq<string>)
    requires first != "" && NoSpace(first)
    ensures var t := Strip(Join([first] + others, " "));
            t != "" && t[0] == first[0]
  {
    var words := [first] + others;
    var rest := if others == [] then "" else " " + Join(others, " ");
    assert words[1..] == others;
    assert Join(words, " ") == first + rest;
    StripKeepsWord(first, rest);
  }

  /** A line gives a record exactly when, once stripped, it is not a comment
      and has at least two tokens; the record holds the line's tokens. */
  lemma ActiveExportOfMeaning(line: string)
    ensures ActiveExportOf(line).Some? <==> !StartsWith(Strip(line), "#") && |Split(line)| >= 2
    ensures ActiveExportOf(line).Some? ==>
              var e := ActiveExportOf(line).value;
              e.path == Split(line)[0] && e.client == Split(line)[1] && e.options == Join(Split(line)[2..], " ")
  {
    SplitStrip(line);
    if Strip(line) == "" {
      assert Split("") == [];
    }
  }

  /** Every record comes from a line of the output. */
  lemma {:induction false} ActiveExportsSound(lines: seq<string>)
    ensures forall k :: 0 <= k < |ActiveExportsFrom(lines)| ==>
              exists j :: 0 <= j < |lines| && ActiveExportOf(lines[j]) == Some(ActiveExportsFrom(lines)[k])
    decreases |lines|
  {
    if lines != [] {
      var init := lines[..|lines| - 1];
      ActiveExportsSound(init);
      var prev, all := ActiveExportsFrom(init), ActiveExportsFrom(lines);
      var last := ActiveExportOf(lines[|lines| - 1]);
      assert all == if last.Some? then prev + [last.value] else prev;
      forall k | 0 <= k < |all|
        ensures exists j :: 0 <= j < |lines| && ActiveExportOf(lines[j]) == Some(all[k])
      {
        SnocIndex(prev, all, last, k);
        if k < |prev| {
          var j :| 0 <= j < |init| && ActiveExportOf(init[j]) == Some(prev[k]);
          assert lines[j] == init[j];
        }
      }
    } else {
      assert ActiveExportsFrom(lines) == [];
    }
  }

  /** Every line that describes an export gives a record. */
  lemma {:induction false} ActiveExportsComplete(lines: seq<string>)
    ensures forall j :: 0 <= j < |lines| && ActiveExportOf(lines[j]).Some? ==>
              ActiveExportOf(lines[j]).value in ActiveExportsFrom(lines)
    decreases |lines|
  {
    if lines != [] {
      var init := lines[..|lines| - 1];
      ActiveExportsComplete(init);
      var prev, all := ActiveExportsFrom(init), ActiveExportsFrom(lines);
      var last := ActiveExportOf(lines[|lines| - 1]);
      assert all == if last.Some? then prev + [last.value] else prev;
      forall j | 0 <= j < |lines| && ActiveExportOf(lines[j]).Some?
        ensures ActiveExportOf(lines[j]).value in all
      {
        if j < |init| {
          assert lines[j] == init[j];
        }
        SnocMember(prev, all, last, ActiveExportOf(lines[j]).value);
      }
    }
  }

  // ---------------------------------------------------------------------
  // get_connected_clients

  /** One record of `get_connected_clients`. */
  datatype Client = Client(hostname: string, mountPath: string)

  /** The record a line of `showmount -a` gives: a stripped line with exactly
      one `:` in it, split at that `:`. */
  function ClientOf(line: string): Option<Client> {
    var t := Strip(line);
    var parts := SplitOn(t, ':');
    if t != "" && ':' in t && |parts| == 2 then Some(Client(parts[0], parts[1])) else None
  }

  function ClientsFrom(lines: seq<string>): (r: seq<Client>)
    ensures |r| <= |lines|
    decreases |lines|
  {
    if lines == [] then []
    else
      var prev := ClientsFrom(lines[..|lines| - 1]);
      match ClientOf(lines[|lines| - 1])
      case None => prev
      case Some(c) => prev + [c]
  }

  /** `get_connected_clients()`: any exception gives no clients, and the exit
      code of `showmount` is not read. */
  function ClientsSpec(s: World, w: Which, out: string, fails: bool): (seq<Client>, World) {
    var (r, s1) := Exec(s, w, ListClients, fails);
    if r.NoTool? then ([], s1) else (ClientsFrom(SplitOn(out, '\n')), s1)
  }

  /** The loop of `get_connected_clients` over the lines of the output. */
  method ParseClients(out: string) returns (clients: seq<Client>)
    ensures clients == ClientsFrom(SplitOn(out, '\n'))
  {
    var lines := SplitOn(out, '\n');
    clients := [];
    for i := 0 to |lines|
      invariant clients == ClientsFrom(lines[..i])
    {
      assert lines[..i + 1][..i] == lines[..i];
      var line := Strip(lines[i]);
      if line != "" && ':' in line {
        var parts := SplitOn(line, ':');
        if |parts| == 2 {
          clients := clients + [Client(parts[0], parts[1])];
        }
      }
    }
    assert lines[..|lines|] == lines;
  }

  /** A record's two parts, which hold no `:`, rejoined with `:` give the stripped line. */
  lemma ClientRejoins(line: string)
    requires ClientOf(line).Some?
    ensures var c := ClientOf(line).value;
            && c.hostname + ":" + c.mountPath == Strip(line)
            && ':' !in c.hostname && ':' !in c.mountPath
  {
    var t := Strip(line);
    var parts := SplitOn(t, ':');
    JoinSplitOn(t, ':');
    assert parts[1..] == [parts[1]];
    assert Join(parts, ":") == parts[0] + ":" + Join([parts[1]], ":");
  }

  /** `host:path`, with no whitespace and no other `:`, gives the record of
      `host` and `path`. */
  lemma ClientLine(host: string, path: string)
    requires NoSpace(host) && NoSpace(path) && ':' !in host && ':' !in path
    ensures ClientOf(host + ":" + path) == Some(Client(host, path))
  {
    var line := host + ":" + path;
    NoSpaceJoin3(host, ":", path);
    StripNoSpace(line);
    assert line[|host|] == ':';
    assert Join([host, path], [':']) == line by {
      assert [host, path][1..] == [path];
    }
    SplitOnJoin([host, path], ':');
  }

  /** Every record comes from a line of the output. */
  lemma {:induction false} ClientsSound(lines: seq<string>)
    ensures forall k :: 0 <= k < |ClientsFrom(lines)| ==>
              exists j :: 0 <= j < |lines| && ClientOf(lines[j]) == Some(ClientsFrom(lines)[k])
    decreases |lines|
  {
    if lines != [] {
      var init := lines[..|lines| - 1];
      ClientsSound(init);
      var prev, all := ClientsFrom(init), ClientsFrom(lines);
      var last := ClientOf(lines[|lines| - 1]);
      assert all == if last.Some? then prev + [last.value] else prev;
      forall k | 0 <= k < |all|
        ensures exists j :: 0 <= j < |lines| && ClientOf(lines[j]) == Some(all[k])
      {
        SnocIndex(prev, all, last, k);
        if k < |prev| {
          var j :| 0 <= j < |init| && ClientOf(init[j]) == Some(prev[k]);
          assert lines[j] == init[j];
        }
      }
    } else {
      assert ClientsFrom(lines) == [];
    }
  }

  /** Every line that describes a client gives a record. */
  lemma {:induction false} ClientsComplete(lines: seq<string>)
    ensures forall j :: 0 <= j < |lines| && ClientOf(lines[j]).Some? ==> ClientOf(lines[j]).value in ClientsFrom(lines)
    decreases |lines|
  {
    if lines != [] {
      var init := lines[..|lines| - 1];
      ClientsComplete(init);
      var prev, all := ClientsFrom(init), ClientsFrom(lines);
      var last := ClientOf(lines[|lines| - 1]);
      assert all == if last.Some? then prev + [last.value] else prev;
      forall j | 0 <= j < |lines| && ClientOf(lines[j]).Some?
        ensures ClientOf(lines[j]).value in all
      {
        if j < |init| {
          assert lines[j] == init[j];
        }
        SnocMember(prev, all, last, ClientOf(lines[j]).value);
      }
    }
  }

  // ---------------------------------------------------------------------

  /** `ServiceManager`, with its class-level privilege tool slot. */
  class ServiceManager {
    const cache: PrivilegeCache
    const fs: FileSystem

    constructor (fs0: FileSystem)
      ensures fs == fs0 && fresh(cache) && cache.cached.None?
    {
      fs := fs0;
      cache := new PrivilegeCache();
    }

    function Now(): World
      reads fs, cache
    {
      World(fs.State(), cache.cached, fs.trace)
    }

    method RunAction(w: Which, action: string, fails: bool) returns (r: Outcome<ServiceFailure>)
      modifies fs, cache
      ensures (r, Now()) == ActionSpec(old(Now()), w, action, fails)
    {
      var res := RunCached(cache, fs, w, Systemctl(action), fails);
      if res.NoTool? {
        return Fail(NoPrivilegeTool);
      }
      if !res.ok {
        return Fail(ActionFailed(action));
      }
      r := Pass;
    }

    /** `start()` */
    method Start(w: Which, fails: bool) returns (r: Outcome<ServiceFailure>)
      modifies fs, cache
      ensures (r, Now()) == ActionSpec(old(Now()), w, "start", fails)
    {
      r := RunAction(w, "start", fails);
    }

    /** `stop()` */
    method Stop(w: Which, fails: bool) returns (r: Outcome<ServiceFailure>)
      modifies fs, cache
      ensures (r, Now()) == ActionSpec(old(Now()), w, "stop", fails)
    {
      r := RunAction(w, "stop", fails);
    }

    /** `restart()` */
    method Restart(w: Which, fails: bool) returns (r: Outcome<ServiceFailure>)
      modifies fs, cache
      ensures (r, Now()) == ActionSpec(old(Now()), w, "restart", fails)
    {
      r := RunAction(w, "restart", fails);
    }

    /** `enable()` */
    method Enable(w: Which, fails: bool) returns (r: Outcome<ServiceFailure>)
      modifies fs, cache
      ensures (r, Now()) == ActionSpec(old(Now()), w, "enable", fails)
    {
      r := RunAction(w, "enable", fails);
    }

    /** `disable()` */
    method Disable(w: Which, fails: bool) returns (r: Outcome<ServiceFailure>)
      modifies fs, cache
      ensures (r, Now()) == ActionSpec(old(Now()), w, "disable", fails)
    {
      r := RunAction(w, "disable", fails);
    }

    /** `status()` */
    method Status(w: Which, outs: StatusOutputs) returns (st: ServiceStatus)
      modifies fs, cache
      ensures (st, Now()) == StatusSpec(old(Now()), w, outs)
    {
      var unknown := ServiceStatus("unknown", "unknown", NoToolMessage, false);
      var resActive := RunCached(cache, fs, w, Systemctl("is-active"), false);
      if resActive.NoTool? {
        return unknown;
      }
      var active := Strip(outs.active);
      var resEnabled := RunCached(cache, fs, w, Systemctl("is-enabled"), false);
      if resEnabled.NoTool? {
        return unknown;
      }
      var enabled := Strip(outs.enabled);
      var resStatus := RunCached(cache, fs, w, Systemctl("status"), false);
      if resStatus.NoTool? {
        return unknown;
      }
      st := ServiceStatus(active, enabled, outs.status, active == "active");
    }

    /** `get_exports_active()`; `out` is what `exportfs -v` prints. */
    method GetExportsActive(w: Which, out: string, fails: bool) returns (r: Result<seq<ActiveExport>, ServiceFailure>)
      modifies fs, cache
      ensures (r, Now()) == ExportsActiveSpec(old(Now()), w, out, fails)
    {
      var res := RunCached(cache, fs, w, ListExports, fails);
      if res.NoTool? {
        return Err(NoPrivilegeTool);
      }
      var exports := ParseActiveExports(out);
      r := Ok(exports);
    }

    /** `get_connected_clients()`; `out` is what `showmount -a` prints. */
    method GetConnectedClients(w: Which, out: string, fails: bool) returns (clients: seq<Client>)
      modifies fs, cache
      ensures (clients, Now()) == ClientsSpec(old(Now()), w, out, fails)
    {
      var res := RunCached(cache, fs, w, ListClients, fails);
      if res.NoTool? {
        return [];
      }
      clients := ParseClients(out);
    }
  }
}
