/** The machine the NFS manager runs on, as far as the managers can observe it:
    the files they read and write, the directories they test, the export table
    the NFS server is serving, and the privileged commands they run through
    `pkexec` or `sudo`.  A privileged command either succeeds with its ordinary
    meaning or fails; a failure that the file state does not explain (a
    declined authorisation, a full disk, a timeout) is a parameter. */
module Host {
  import opened Common
  import opened Text

  const ExportsPath: string := "/etc/exports"

  /** The directory `tempfile.mkstemp` creates its files in. */
  predicate IsTempPath(p: string) {
    StartsWith(p, "/tmp/")
  }

  // ---------------------------------------------------------------------
  // Privilege tools

  datatype Tool = Pkexec | Sudo

  function ToolName(t: Tool): string {
    match t
    case Pkexec => "pkexec"
    case Sudo => "sudo"
  }

  /** What `shutil.which` finds on the PATH at the moment of the probe. */
  datatype Which = Which(pkexec: bool, sudo: bool)

  /** The probe of `_get_privilege_command`: `pkexec` if present, else `sudo`,
      else nothing (the caller raises). */
  function Probe(w: Which): (r: Option<Tool>)
    ensures r == Some(Pkexec) <==> w.pkexec
    ensures r == Some(Sudo) <==> !w.pkexec && w.sudo
    ensures r.None? <==> !w.pkexec && !w.sudo
  {
    if w.pkexec then Some(Pkexec)
    else if w.sudo then Some(Sudo)
    else None
  }

  /** One call of the caching `_get_privilege_command`: the cached tool if there
      is one, else the probe's answer, which is also what the cache holds afterwards. */
  function Lookup(cached: Option<Tool>, w: Which): Option<Tool> {
    if cached.Some? then cached else Probe(w)
  }

  /** The answers of successive calls, each seeing the PATH of its own moment. */
  function Lookups(cached: Option<Tool>, ws: seq<Which>): (r: seq<Option<Tool>>)
    ensures |r| == |ws|
    decreases |ws|
  {
    if ws == [] then []
    else
      var first := Lookup(cached, ws[0]);
      [first] + Lookups(first, ws[1..])
  }

  /** With a tool cached, every later call returns it, whatever the PATH holds. */
  lemma {:induction false} LookupsKeepCached(cached: Option<Tool>, ws: seq<Which>)
    requires cached.Some?
    ensures forall k :: 0 <= k < |ws| ==> Lookups(cached, ws)[k] == cached
    decreases |ws|
  {
    if ws != [] {
      LookupsKeepCached(cached, ws[1..]);
    }
  }

  /** The first successful lookup settles the tool for every call after it. */
  lemma {:induction false} LookupsSettle(cached: Option<Tool>, ws: seq<Which>, i: nat)
    requires i < |ws| && Lookups(cached, ws)[i].Some?
    ensures forall j :: i <= j < |ws| ==> Lookups(cached, ws)[j] == Lookups(cached, ws)[i]
    decreases i
  {
    var first := Lookup(cached, ws[0]);
    if i == 0 {
      LookupsKeepCached(first, ws[1..]);
    } else {
      LookupsSettle(first, ws[1..], i - 1);
    }
  }

  /** The class-level `_privilege_cmd` slot: empty until the first successful probe,
      then fixed for the rest of the process. */
  class PrivilegeCache {
    var cached: Option<Tool>

    constructor ()
      ensures cached == None
    {
      cached := None;
    }

    method Resolve(w: Which) returns (r: Option<Tool>)
      modifies this
      ensures r == Lookup(old(cached), w) && cached == r
      ensures old(cached).Some? ==> cached == old(cached)
    {
      if cached.None? {
        cached := Probe(w);
      }
      r := cached;
    }
  }

  // ---------------------------------------------------------------------
  // Commands

  /** The privileged commands the managers issue. */
  datatype Command =
    | Copy(src: string, dst: string)
    | Move(src: string, dst: string)
    | RemoveForce(path: string)
    | MakeDirs(path: string)
    | TestFile(path: string)
    | TestDir(path: string)
    | Cat(path: string)
    | Stat(path: string)
    | ListByTime(path: string)
    | ReloadExports
    | Mount(options: string, source: string, target: string)
    | Unmount(force: bool, target: string)
    | Systemctl(action: string)
    | ListExports
    | ListClients

  /** The argument vector passed after the privilege tool. */
  function Argv(c: Command): seq<string> {
    match c
    case Copy(s, d) => ["cp", s, d]
    case Move(s, d) => ["mv", s, d]
    case RemoveForce(p) => ["rm", "-f", p]
    case MakeDirs(p) => ["mkdir", "-p", p]
    case TestFile(p) => ["test", "-f", p]
    case TestDir(p) => ["test", "-d", p]
    case Cat(p) => ["cat", p]
    case Stat(p) => ["stat", p]
    case ListByTime(p) => ["ls", "-lt", p]
    case ReloadExports => ["exportfs", "-ra"]
    case Mount(o, src, t) => ["mount", "-t", "nfs", "-o", o, src, t]
    case Unmount(force, t) => ["umount"] + (if force then ["-f"] else []) + [t]
    case Systemctl(a) => ["systemctl", a, "nfs-server"]
    case ListExports => ["exportfs", "-v"]
    case ListClients => ["showmount", "-a"]
  }

  datatype Invocation = Invocation(tool: Tool, command: Command)

  /** The complete command line of an invocation, `[priv_cmd] + cmd`. */
  function CommandLine(i: Invocation): seq<string> {
    [ToolName(i.tool)] + Argv(i.command)
  }

  function Commands(t: seq<Invocation>): (r: seq<Command>)
    ensures |r| == |t| && forall k :: 0 <= k < |t| ==> r[k] == t[k].command
  {
    if t == [] then [] else [t[0].command] + Commands(t[1..])
  }

  // ---------------------------------------------------------------------
  // Machine state

  /** What is mounted on a mount point: the remote source and the options given. */
  datatype Attached = Attached(source: string, options: string)

  /** Files (path to content), directories, the export table the NFS server
      serves, and the mount table (mount point to what is mounted there). */
  datatype Disk = Disk(files: map<string, string>, dirs: set<string>, exported: string,
                       mounts: map<string, Attached>)

  /** Whether a command can succeed in a state; it still fails when hit by an external failure. */
  predicate Possible(d: Disk, c: Command) {
    match c
    case Copy(s, _) => s in d.files
    case Move(s, _) => s in d.files
    case RemoveForce(_) => true
    case MakeDirs(_) => true
    case TestFile(p) => p in d.files
    case TestDir(p) => p in d.dirs
    case Cat(p) => p in d.files
    case Stat(p) => p in d.files || p in d.dirs
    case ListByTime(p) => p in d.dirs
    case ReloadExports => ExportsPath in d.files
    case Mount(_, _, t) => t in d.dirs
    case Unmount(_, t) => t in d.mounts
    case _ => true
  }

  /** The state after a command succeeded. */
  function Apply(d: Disk, c: Command): Disk
    requires Possible(d, c)
  {
    match c
    case Copy(s, t) => d.(files := d.files[t := d.files[s]])
    case Move(s, t) => d.(files := (d.files - {s})[t := d.files[s]])
    case RemoveForce(p) => d.(files := d.files - {p})
    case MakeDirs(p) => d.(dirs := d.dirs + {p})
    case ReloadExports => d.(exported := d.files[ExportsPath])
    case Mount(o, src, t) => d.(mounts := d.mounts[t := Attached(src, o)])
    case Unmount(_, t) => d.(mounts := d.mounts - {t})
    case _ => d
  }

  /** Standard output of a successful command the managers read. */
  function Output(d: Disk, c: Command): string
    requires Possible(d, c)
  {
    if c.Cat? then d.files[c.path] else ""
  }

  class FileSystem {
    var files: map<string, string>
    var dirs: set<string>
    /** What the last successful `exportfs -ra` loaded. */
    var exported: string
    var mounts: map<string, Attached>
    /** Every privileged command run so far, in order. */
    var trace: seq<Invocation>

    constructor (files0: map<string, string>, dirs0: set<string>, exported0: string, mounts0: map<string, Attached>)
      ensures files == files0 && dirs == dirs0 && exported == exported0 && mounts == mounts0 && trace == []
    {
      files, dirs, exported, mounts, trace := files0, dirs0, exported0, mounts0, [];
    }

    function State(): Disk
      reads this
    {
      Disk(files, dirs, exported, mounts)
    }

    /** Runs one privileged command with the given tool. */
    method Run(tool: Tool, c: Command, fails: bool) returns (ok: bool, out: string)
      modifies this
      ensures trace == old(trace) + [Invocation(tool, c)]
      ensures ok == (!fails && Possible(old(State()), c))
      ensures ok ==> State() == Apply(old(State()), c) && out == Output(old(State()), c)
      ensures !ok ==> State() == old(State()) && out == ""
    {
      trace := trace + [Invocation(tool, c)];
      ok := !fails && Possible(State(), c);
      out := "";
      if ok {
        out := Output(State(), c);
        var d := Apply(State(), c);
        files, dirs, exported, mounts := d.files, d.dirs, d.exported, d.mounts;
      }
    }

    /** An unprivileged write of a whole file (`open(p, "w").write(content)`). */
    method WriteLocal(p: string, content: string)
      modifies this
      ensures files == old(files)[p := content]
      ensures dirs == old(dirs) && exported == old(exported) && mounts == old(mounts) && trace == old(trace)
    {
      files := files[p := content];
    }

    /** An unprivileged `os.remove(p)`, done only on a file that exists. */
    method RemoveLocal(p: string)
      modifies this
      ensures files == old(files) - {p}
      ensures dirs == old(dirs) && exported == old(exported) && mounts == old(mounts) && trace == old(trace)
    {
      files := files - {p};
    }
  }

  /** Result of a privileged run: the tool lookup raised, or the command exited. */
  datatype Ran = NoTool | Exited(ok: bool, out: string)

  /** Everything a manager's operation can change: the machine, its cached
      privilege tool, and the privileged commands run so far. */
  datatype World = World(disk: Disk, cached: Option<Tool>, trace: seq<Invocation>)

  /** One privileged run (`_run_pkexec` / `_run_privileged`) as a step of the world. */
  function Exec(s: World, w: Which, c: Command, fails: bool): (Ran, World) {
    var tool := Lookup(s.cached, w);
    if tool.None? then (NoTool, s)
    else
      var t := s.trace + [Invocation(tool.value, c)];
      if !fails && Possible(s.disk, c) then (Exited(true, Output(s.disk, c)), World(Apply(s.disk, c), tool, t))
      else (Exited(false, ""), World(s.disk, tool, t))
  }

  /** A privileged run records exactly one invocation when a tool is found and
      none otherwise; the machine changes only when the command succeeds; a
      tool once cached is kept and used. */
  lemma ExecFacts(s: World, w: Which, c: Command, fails: bool)
    ensures var (r, s') := Exec(s, w, c, fails);
            && (r.NoTool? <==> s.cached.None? && Probe(w).None?)
            && (r.NoTool? ==> s' == s)
            && (r.Exited? ==> s'.cached.Some? && s'.trace == s.trace + [Invocation(s'.cached.value, c)])
            && (s.cached.Some? ==> s'.cached == s.cached)
            && (r.Exited? && r.ok <==> Lookup(s.cached, w).Some? && !fails && Possible(s.disk, c))
            && (r.Exited? && r.ok ==> s'.disk == Apply(s.disk, c))
            && (!(r.Exited? && r.ok) ==> s'.disk == s.disk)
  {
  }

  /** One privileged run of a manager that probes for its tool on every call
      (`BackupManager`, `MountManager`): the run of `Exec` from an empty
      cache, which is not kept. */
  function ExecProbed(s: World, w: Which, c: Command, fails: bool): (Ran, World) {
    var (r, s') := Exec(s.(cached := None), w, c, fails);
    (r, s'.(cached := s.cached))
  }

  /** A probing run finds a tool exactly when the probe does, leaves the
      cache as it was, and changes the machine only when the command succeeds. */
  lemma ExecProbedFacts(s: World, w: Which, c: Command, fails: bool)
    ensures var (r, s') := ExecProbed(s, w, c, fails);
            && (r.NoTool? <==> Probe(w).None?)
            && (r.NoTool? ==> s' == s)
            && s'.cached == s.cached
            && (r.Exited? ==> s'.trace == s.trace + [Invocation(Probe(w).value, c)])
            && (r.Exited? && r.ok <==> Probe(w).Some? && !fails && Possible(s.disk, c))
            && (r.Exited? && r.ok ==> s'.disk == Apply(s.disk, c) && r.out == Output(s.disk, c))
            && (!(r.Exited? && r.ok) ==> s'.disk == s.disk && (r.Exited? ==> r.out == ""))
  {
  }

  /** An unprivileged whole-file write. */
  function WriteFile(s: World, p: string, content: string): World {
    s.(disk := s.disk.(files := s.disk.files[p := content]))
  }

  /** An unprivileged removal of a file, a no-op when it does not exist. */
  function RemoveFile(s: World, p: string): World {
    s.(disk := s.disk.(files := s.disk.files - {p}))
  }

  /** `_run_pkexec` / `_run_privileged` of a manager that caches its tool. */
  method RunCached(cache: PrivilegeCache, fs: FileSystem, w: Which, c: Command, fails: bool)
    returns (r: Ran)
    modifies cache, fs
    ensures (r, World(fs.State(), cache.cached, fs.trace))
            == Exec(World(old(fs.State()), old(cache.cached), old(fs.trace)), w, c, fails)
  {
    var tool := cache.Resolve(w);
    if tool.None? {
      return NoTool;
    }
    var ok, out := fs.Run(tool.value, c, fails);
    r := Exited(ok, out);
  }

  /** `_run_privileged` of a manager that probes for its tool on every call. */
  method RunProbed(fs: FileSystem, w: Which, c: Command, fails: bool) returns (r: Ran)
    modifies fs
    ensures (r, World(fs.State(), None, fs.trace)) == ExecProbed(World(old(fs.State()), None, old(fs.trace)), w, c, fails)
  {
    var tool := Probe(w);
    if tool.None? {
      return NoTool;
    }
    var ok, out := fs.Run(tool.value, c, fails);
    r := Exited(ok, out);
  }
}
