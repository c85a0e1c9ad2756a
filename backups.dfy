/** The string side of `util/backup_manager.py`: the name of a timestamped
    backup, the `.info` sidecar that carries its description, the reading of
    one `ls -lt` line, and the count of export lines in a backup. */
module Backups {
  import opened Common
  import opened Text
  import Exports

  const BackupDir: string := "/var/backups/nfs-manager"

  /** `os.path.join(BACKUP_DIR, name)`: an absolute name replaces the directory. */
  function InBackupDir(name: string): (r: string)
    ensures StartsWith(name, "/") ==> r == name
    ensures !StartsWith(name, "/") ==> StartsWith(r, BackupDir + "/") && r[|BackupDir| + 1..] == name
  {
    if StartsWith(name, "/") then name else BackupDir + "/" + name
  }

  predicate IsDigit(c: char) {
    '0' <= c <= '9'
  }

  /** What `datetime.now().strftime("%Y%m%d_%H%M%S")` produces: eight digits,
      `_`, six digits. */
  predicate IsStamp(ts: string) {
    && |ts| == 15
    && ts[8] == '_'
    && (forall i :: 0 <= i < 8 ==> IsDigit(ts[i]))
    && (forall i :: 9 <= i < 15 ==> IsDigit(ts[i]))
  }

  /** The name `create_backup` gives the copy and returns to its caller. */
  function BackupFilename(ts: string): string {
    "exports_backup_" + ts + ".bak"
  }

  /** The timestamp `list_backups` reads back out of a file name: `_`-segments
      2 and 3, the latter without `.bak`; `"unknown"` when there are fewer
      than four segments (the `IndexError` the bare `except` catches). */
  function TimestampOf(filename: string): string {
    var parts := SplitOn(filename, '_');
    if |parts| < 4 then "unknown" else parts[2] + "_" + RemoveAll(parts[3], ".bak")
  }

  /** The segments of a backup name (or of a name extending it) split at `_`. */
  lemma NameSegments(ts: string, suffix: string)
    requires IsStamp(ts) && '_' !in suffix
    ensures SplitOn("exports_backup_" + ts + suffix, '_') == ["exports", "backup", ts[..8], ts[9..] + suffix]
  {
    var parts := ["exports", "backup", ts[..8], ts[9..] + suffix];
    assert ts == ts[..8] + "_" + ts[9..];
    assert Join(parts[3..], "_") == parts[3];
    assert Join(parts[2..], "_") == parts[2] + "_" + parts[3];
    assert Join(parts[1..], "_") == parts[1] + "_" + parts[2] + "_" + parts[3];
    assert Join(parts, "_") == "exports_backup_" + ts + suffix;
    forall k | 0 <= k < 4 ensures '_' !in parts[k] {
      if k == 2 {
        assert forall i :: 0 <= i < 8 ==> parts[2][i] == ts[i];
      } else if k == 3 {
        assert forall i :: 0 <= i < |parts[3]| ==> parts[3][i] == if i < 6 then ts[9 + i] else suffix[i - 6];
      }
    }
    SplitOnJoin(parts, '_');
  }

  /** The timestamp read back from a backup's name is the one it was made with. */
  lemma TimestampRoundTrip(ts: string)
    requires IsStamp(ts)
    ensures TimestampOf(BackupFilename(ts)) == ts
  {
    NameSegments(ts, ".bak");
    var t := ts[9..];
    assert forall i :: 0 <= i < |t| ==> t[i] == ts[9 + i];
    RemoveAllBeforeSuffix(t, ".bak");
    assert ts == ts[..8] + "_" + t;
  }

  // ---------------------------------------------------------------------
  // The `.info` sidecar

  /** The content `create_backup` writes next to a backup with a description. */
  function InfoContent(ts: string, description: string): string {
    "Timestamp: " + ts + "\nDescription: " + description + "\n"
  }

  /** The description in the sidecar's lines: taken from the last line that
      starts with `Description:`, with every occurrence of that tag removed
      and the rest stripped; `""` when no line carries it. */
  function DescriptionIn(lines: seq<string>): string
    decreases |lines|
  {
    if lines == [] then ""
    else
      var last := lines[|lines| - 1];
      if StartsWith(last, "Description:") then Strip(RemoveAll(last, "Description:"))
      else DescriptionIn(lines[..|lines| - 1])
  }

  /** The loop of `list_backups` over the sidecar's lines, overwriting
      `description` at each labelled line. */
  method ReadDescription(info: string) returns (description: string)
    ensures description == DescriptionIn(SplitOn(info, '\n'))
  {
    var lines := SplitOn(info, '\n');
    description := "";
    for i := 0 to |lines|
      invariant description == DescriptionIn(lines[..i])
    {
      assert lines[..i + 1][..i] == lines[..i];
      if StartsWith(lines[i], "Description:") {
        description := Strip(RemoveAll(lines[i], "Description:"));
      }
    }
    assert lines[..|lines|] == lines;
  }

  /** A description written by `create_backup` reads back stripped, with any
      `Description:` inside it removed; one line long and already trimmed, it
      reads back unchanged. */
  lemma DescriptionRoundTrip(ts: string, d: string)
    requires '\n' !in ts && '\n' !in d
    ensures DescriptionIn(SplitOn(InfoContent(ts, d), '\n')) == Strip(RemoveAll(d, "Description:"))
  {
    InfoLines(ts, d);
    var lines := ["Timestamp: " + ts, "Description: " + d, ""];
    assert !StartsWith("", "Description:");
    assert lines[..2] == ["Timestamp: " + ts, "Description: " + d];
    DescriptionTagRemoved(d);
    StripSpaceBefore(RemoveAll(d, "Description:"));
  }

  /** The sidecar splits into its two labelled lines and a trailing empty one. */
  lemma InfoLines(ts: string, d: string)
    requires '\n' !in ts && '\n' !in d
    ensures SplitOn(InfoContent(ts, d), '\n') == ["Timestamp: " + ts, "Description: " + d, ""]
  {
    var l1 := "Timestamp: " + ts;
    var l2 := "Description: " + d;
    var lines := [l1, l2, ""];
    assert Join(lines, "\n") == InfoContent(ts, d) by {
      assert Join(lines[2..], "\n") == "";
      assert Join(lines[1..], "\n") == l2 + "\n" + "";
    }
    assert '\n' !in l1 by {
      assert forall i :: 11 <= i < |l1| ==> l1[i] == ts[i - 11];
    }
    assert '\n' !in l2 by {
      assert forall i :: 13 <= i < |l2| ==> l2[i] == d[i - 13];
    }
    SplitOnJoin(lines, '\n');
  }

  /** Removing the tag from the description line leaves the separating space
      and the description with its own tags removed. */
  lemma DescriptionTagRemoved(d: string)
    ensures RemoveAll("Description: " + d, "Description:") == " " + RemoveAll(d, "Description:")
  {
    var tag := "Description:";
    var l2 := "Description: " + d;
    assert l2[..|tag|] == tag;
    assert l2[|tag|..] == " " + d;
    if |" " + d| >= |tag| {
      assert (" " + d)[..|tag|][0] == ' ' && tag[0] == 'D';
      assert (" " + d)[1..] == d;
    }
  }

  // ---------------------------------------------------------------------
  // One line of `ls -lt`

  /** What `list_backups` keeps of a listed file: its name (the last field),
      its size (field 4) and its date (fields 5 to 7). */
  datatype Listed = Listed(filename: string, size: string, date: string)

  /** A line mentioning `.bak` with at least nine fields is a backup. */
  function ListedOf(line: string): Option<Listed> {
    var parts := Split(line);
    if Contains(line, ".bak") && |parts| >= 9 then
      Some(Listed(parts[|parts| - 1], parts[4], Join(parts[5..8], " ")))
    else None
  }

  lemma {:induction false} ContainsAfter(a: string, b: string, p: string)
    requires Contains(b, p)
    ensures Contains(a + b, p)
    decreases |a|
  {
    if a != [] {
      assert (a + b)[1..] == a[1..] + b;
      ContainsAfter(a[1..], b, p);
    } else {
      assert a + b == b;
    }
  }

  lemma {:induction false} ContainsSuffix(a: string, p: string)
    ensures Contains(a + p, p)
  {
    assert StartsWith(p, p);
    ContainsAfter(a, p, p);
  }

  /** A long-format line whose nine fields are given reads back as the name,
      size and date in those fields whenever the name mentions `.bak`; the
      date's fields split back out of it. */
  lemma ListedFields(fields: seq<string>)
    requires |fields| == 9
    requires forall k :: 0 <= k < 9 ==> fields[k] != [] && NoSpace(fields[k])
    requires Contains(fields[8], ".bak")
    ensures var r := ListedOf(Join(fields, " "));
            && r == Some(Listed(fields[8], fields[4], fields[5] + " " + fields[6] + " " + fields[7]))
            && Split(r.value.date) == fields[5..8]
  {
    ListedLine(fields);
    var date := fields[5..8];
    assert date == [fields[5], fields[6], fields[7]];
    JoinThree(fields[5], fields[6], fields[7]);
    SplitJoinWords(date);
  }

  /** A listing line of nine words splits back into them and mentions `.bak`
      when its last word does. */
  lemma ListedLine(fields: seq<string>)
    requires |fields| == 9
    requires forall k :: 0 <= k < 9 ==> fields[k] != [] && NoSpace(fields[k])
    requires Contains(fields[8], ".bak")
    ensures Split(Join(fields, " ")) == fields && Contains(Join(fields, " "), ".bak")
  {
    SplitJoinWords(fields);
    JoinSnoc(fields[..8], fields[8], " ");
    assert fields[..8] + [fields[8]] == fields;
    ContainsAfter(Join(fields[..8], " ") + " ", fields[8], ".bak");
  }

  lemma JoinThree(a: string, b: string, c: string)
    ensures Join([a, b, c], " ") == a + " " + b + " " + c
  {
    assert [a, b, c][1..] == [b, c] && [b, c][1..] == [c];
    assert Join([c], " ") == c;
  }

  /** The sidecar of a backup mentions `.bak` too: its line is listed as a
      backup of its own, whose timestamp ends in `.info`. */
  lemma SidecarListed(fields: seq<string>, ts: string)
    requires |fields| == 9 && IsStamp(ts)
    requires fields[8] == BackupFilename(ts) + ".info"
    requires forall k :: 0 <= k < 8 ==> fields[k] != [] && NoSpace(fields[k])
    ensures ListedOf(Join(fields, " ")).Some?
    ensures ListedOf(Join(fields, " ")).value.filename == BackupFilename(ts) + ".info"
    ensures TimestampOf(BackupFilename(ts) + ".info") == ts + ".info"
  {
    SidecarName(ts);
    ListedFields(fields);
    SidecarTimestamp(ts);
  }

  /** A sidecar's name is one field and mentions `.bak`. */
  lemma SidecarName(ts: string)
    requires IsStamp(ts)
    ensures var name := BackupFilename(ts) + ".info";
            name != [] && NoSpace(name) && Contains(name, ".bak")
  {
    var name := BackupFilename(ts) + ".info";
    assert name == "exports_backup_" + ts + ".bak" + ".info";
    assert NoSpace(name) by {
      forall i | 0 <= i < |name| ensures !IsSpace(name[i]) {
        if 15 <= i < 30 {
          assert name[i] == ts[i - 15];
        }
      }
    }
    ContainsSuffix("exports_backup_" + ts, ".bak");
    ContainsAfter2("exports_backup_" + ts + ".bak", ".info", ".bak");
  }

  /** The timestamp read out of a sidecar's name keeps the `.info`. */
  lemma SidecarTimestamp(ts: string)
    requires IsStamp(ts)
    ensures TimestampOf(BackupFilename(ts) + ".info") == ts + ".info"
  {
    var t := ts[9..];
    assert forall i :: 0 <= i < |t| ==> t[i] == ts[9 + i];
    assert BackupFilename(ts) + ".info" == "exports_backup_" + ts + ".bak.info";
    NameSegments(ts, ".bak.info");
    assert t + ".bak.info" == t + ".bak" + ".info";
    assert ".info"[..4][1] == 'i' && ".bak"[1] == 'b';
    assert ".info"[1..] == "info";
    RemoveAllAbsentStart("info", ".bak");
    assert RemoveAll(".info", ".bak") == ".info";
    RemoveAllBeforeSuffixThen(t, ".bak", ".info");
    assert ts + ".info" == ts[..8] + "_" + (t + ".info");
  }

  lemma {:induction false} ContainsAfter2(a: string, b: string, p: string)
    requires Contains(a, p)
    ensures Contains(a + b, p)
    decreases |a|
  {
    if StartsWith(a, p) {
      assert (a + b)[..|p|] == a[..|p|];
    } else {
      assert (a + b)[1..] == a[1..] + b;
      ContainsAfter2(a[1..], b, p);
    }
  }

  /** Removing `p` from `t + p + u` when nothing in `t` can start `p` and `u` holds no `p`. */
  lemma {:induction false} RemoveAllBeforeSuffixThen(t: string, p: string, u: string)
    requires p != [] && p[0] !in t && RemoveAll(u, p) == u
    ensures RemoveAll(t + p + u, p) == t + u
    decreases |t|
  {
    var s := t + p + u;
    if t == [] {
      assert s[..|p|] == p && s[|p|..] == u;
    } else {
      assert RemoveAll(s, p) == [t[0]] + RemoveAll(t[1..] + p + u, p) by {
        assert s == t + (p + u);
        HeadTail(t, p + u);
        assert t[1..] + (p + u) == t[1..] + p + u;
        assert s[..|p|][0] == t[0] != p[0];
      }
      RemoveAllBeforeSuffixThen(t[1..], p, u);
      HeadTail(t, u);
    }
  }

  lemma {:induction false} RemoveAllAbsentStart(u: string, p: string)
    requires p != [] && p[0] !in u
    ensures RemoveAll(u, p) == u
    decreases |u|
  {
    if |u| >= |p| {
      assert u[0] != p[0];
      assert u[..|p|] != p;
      RemoveAllAbsentStart(u[1..], p);
      assert [u[0]] + u[1..] == u;
    }
  }

  // ---------------------------------------------------------------------
  // Counting export lines

  /** The number of lines that are neither blank nor comments after stripping. */
  function ExportCount(lines: seq<string>): (n: nat)
    ensures n <= |lines|
    decreases |lines|
  {
    if lines == [] then 0
    else ExportCount(lines[..|lines| - 1]) + (if Exports.Skipped(lines[|lines| - 1]) then 0 else 1)
  }

  /** The counting loop of `get_backup_info`. */
  method CountExportLines(content: string) returns (count: nat)
    ensures count == ExportCount(SplitOn(content, '\n'))
  {
    var lines := SplitOn(content, '\n');
    count := 0;
    for i := 0 to |lines|
      invariant count == ExportCount(lines[..i])
    {
      assert lines[..i + 1][..i] == lines[..i];
      var s := Strip(lines[i]);
      if s != "" && !StartsWith(s, "#") {
        count := count + 1;
      }
    }
    assert lines[..|lines|] == lines;
  }

  /** The count equals the number of entries the exports parser finds in the
      same lines: both skip exactly the blank and comment lines. */
  lemma {:induction false} ExportCountIsParsed(lines: seq<string>, base: nat)
    ensures ExportCount(lines) == |Exports.ParsedFrom(lines, base)|
    decreases |lines|
  {
    if lines != [] {
      ExportCountIsParsed(lines[..|lines| - 1], base);
    }
  }
}
