/** The export-table engine of `util/exports_manager.py`, without its file I/O:
    parsing `/etc/exports` lines into entries (`list_parsed`) and the three
    rewriters of the raw line list (`add_entry`, `remove_entry`,
    `edit_entry`).  Rewriters match a path by `startswith` on the stripped
    line, keep comment and blank lines verbatim, and serialise with
    `"\n".join(lines) + "\n"`. */
module Exports {
  import opened Common
  import opened Text

  /** One client of an export line: `192.168.1.0/24(rw,sync)` is name
      `192.168.1.0/24` with options `(rw,sync)`. */
  datatype HostRule = HostRule(name: string, options: string)

  /** One significant line of the table, with its 1-based position. */
  datatype ExportEntry = ExportEntry(path: string, hosts: seq<HostRule>, raw: string, lineno: nat)

  /** The exceptions the module raises (`ValueError`, `ExportsError` and the
      `OSError`s of unprivileged file access), by cause. */
  datatype ExportsError =
    | InvalidArgument
    | DuplicateEntry
    | NotFound
    | NoPrivilegeTool
    | ReadFailed
    | OsError
    | BackupFailed
    | MoveFailed
    | ReloadFailed
    | BackupMissing
    | RestoreCopyFailed

  // ---------------------------------------------------------------------
  // Parser

  /** Lines the parser passes over: blank after stripping, or a comment. */
  predicate Skipped(line: string) {
    var s := Strip(line);
    s == "" || StartsWith(s, "#")
  }

  /** The host-token split: at the first `(` when the token holds both
      parentheses, otherwise the whole token is the name. */
  function SplitHost(h: string): HostRule {
    if '(' in h && ')' in h then
      var i := IndexOf(h, '(');
      HostRule(Strip(h[..i]), Strip("(" + h[i + 1..]))
    else
      HostRule(Strip(h), "")
  }

  /** A host token (which never holds whitespace) splits into a name and an
      option list that re-join to the token; the options start at the first
      `(` when both parentheses are present and are empty otherwise. */
  lemma SplitHostRejoins(h: string)
    requires NoSpace(h)
    ensures SplitHost(h).name + SplitHost(h).options == h
    ensures '(' in h && ')' in h ==>
              '(' !in SplitHost(h).name && SplitHost(h).options != "" && SplitHost(h).options[0] == '('
    ensures !('(' in h && ')' in h) ==> SplitHost(h) == HostRule(h, "")
  {
    if '(' in h && ')' in h {
      var i := IndexOf(h, '(');
      var name := h[..i];
      var options := "(" + h[i + 1..];
      NoSpaceAround(h, i);
      StripNoSpace(name);
      StripNoSpace(options);
      SplitAround(h, i);
    } else {
      StripNoSpace(h);
    }
  }

  lemma SplitAround(h: string, i: nat)
    requires i < |h| && h[i] == '('
    ensures h == h[..i] + ("(" + h[i + 1..])
  {
    assert h == h[..i] + [h[i]] + h[i + 1..];
  }

  /** Both halves of a host token split at position `i` are free of whitespace. */
  lemma NoSpaceAround(h: string, i: nat)
    requires NoSpace(h) && i < |h|
    ensures NoSpace(h[..i]) && NoSpace("(" + h[i + 1..])
  {
    var b := "(" + h[i + 1..];
    forall j | 0 <= j < |b| ensures !IsSpace(b[j]) {
      if j > 0 { assert b[j] == h[i + j]; }
    }
  }

  function HostRules(tokens: seq<string>): (r: seq<HostRule>)
    ensures |r| == |tokens|
    ensures forall k :: 0 <= k < |r| ==> r[k] == SplitHost(tokens[k])
  {
    if tokens == [] then [] else [SplitHost(tokens[0])] + HostRules(tokens[1..])
  }

  /** The token each host rule was split from. */
  function HostTokens(hosts: seq<HostRule>): (r: seq<string>)
    ensures |r| == |hosts|
    ensures forall k :: 0 <= k < |r| ==> r[k] == hosts[k].name + hosts[k].options
  {
    if hosts == [] then [] else [hosts[0].name + hosts[0].options] + HostTokens(hosts[1..])
  }

  /** The entry of a significant line at 1-based position `lineno`. */
  function EntryOf(line: string, lineno: nat): ExportEntry
    requires !Skipped(line)
  {
    var s := Strip(line);
    StripEdges(line);
    SplitFirstIsPrefix(s);
    var parts := Split(s);
    ExportEntry(parts[0], HostRules(parts[1..]), line, lineno)
  }

  /** The loop body of `list_parsed` for one line: nothing for a skipped line, else its entry. */
  function ParseLine(line: string, lineno: nat): Option<ExportEntry> {
    if Skipped(line) then None else Some(EntryOf(line, lineno))
  }

  /** The loop of `list_parsed`: `lines` numbered from `base + 1`, each passed
      through `parse`, keeping what it returns in order. */
  function Collect(lines: seq<string>, base: nat, parse: (string, nat) -> Option<ExportEntry>): seq<ExportEntry>
    decreases |lines|
  {
    if lines == [] then []
    else
      var n := |lines|;
      var prev := Collect(lines[..n - 1], base, parse);
      match parse(lines[n - 1], base + n)
      case None => prev
      case Some(e) => prev + [e]
  }

  /** The entries of `lines`, numbered from `base + 1`. */
  function ParsedFrom(lines: seq<string>, base: nat): seq<ExportEntry> {
    Collect(lines, base, ParseLine)
  }

  /** What `list_parsed` returns for the raw lines of the table. */
  function Parsed(lines: seq<string>): seq<ExportEntry> {
    ParsedFrom(lines, 0)
  }

  /** `list_parsed` after `list_raw`: one pass over the lines, appending an
      entry for every significant line. */
  method ParseLines(lines: seq<string>) returns (parsed: seq<ExportEntry>)
    ensures parsed == Parsed(lines)
  {
    parsed := [];
    for i := 0 to |lines|
      invariant parsed == Parsed(lines[..i])
    {
      assert Parsed(lines[..i + 1])
             == Parsed(lines[..i]) + if Skipped(lines[i]) then [] else [EntryOf(lines[i], i + 1)] by {
        assert lines[..i + 1] == lines[..i] + [lines[i]];
        ParsedSingle(lines[i], i);
        ParsedAppend(lines[..i], [lines[i]], 0);
      }
      var s := Strip(lines[i]);
      if s != "" && !StartsWith(s, "#") {
        StripEdges(lines[i]);
        SplitFirstIsPrefix(s);
        var parts := Split(s);
        var hostEntries := ParseHosts(parts[1..]);
        parsed := parsed + [ExportEntry(parts[0], hostEntries, lines[i], i + 1)];
      }
    }
    assert lines[..|lines|] == lines;
  }

  /** The inner loop of `list_parsed`, splitting each host token of a line. */
  method ParseHosts(tokens: seq<string>) returns (hosts: seq<HostRule>)
    ensures hosts == HostRules(tokens)
  {
    hosts := [];
    for j := 0 to |tokens|
      invariant |hosts| == j
      invariant forall k :: 0 <= k < j ==> hosts[k] == SplitHost(tokens[k])
    {
      hosts := hosts + [SplitHost(tokens[j])];
    }
  }

  /** Collecting over a concatenation collects each part, the second numbered on from the first. */
  lemma {:induction false} CollectAppend(a: seq<string>, b: seq<string>, base: nat, parse: (string, nat) -> Option<ExportEntry>)
    ensures Collect(a + b, base, parse) == Collect(a, base, parse) + Collect(b, base + |a|, parse)
    decreases |b|
  {
    if b == [] {
      assert a + b == a;
    } else {
      var n := |b|;
      assert (a + b)[..|a + b| - 1] == a + b[..n - 1];
      assert (a + b)[|a + b| - 1] == b[n - 1];
      CollectAppend(a, b[..n - 1], base, parse);
    }
  }

  /** Parsing a concatenation parses each part, the second numbered on from the first. */
  lemma ParsedAppend(a: seq<string>, b: seq<string>, base: nat)
    ensures ParsedFrom(a + b, base) == ParsedFrom(a, base) + ParsedFrom(b, base + |a|)
  {
    CollectAppend(a, b, base, ParseLine);
  }

  lemma {:induction false} ParsedSingle(line: string, base: nat)
    ensures ParsedFrom([line], base) == if Skipped(line) then [] else [EntryOf(line, base + 1)]
  {
    assert [line][..0] == [];
    assert Collect([line][..0], base, ParseLine) == [];
    assert ParseLine(line, base + 1) == if Skipped(line) then None else Some(EntryOf(line, base + 1));
  }

  /** Every parsed entry comes from the significant raw line at its 1-based
      number, and is that line's entry. */
  lemma {:induction false} ParsedSound(lines: seq<string>, base: nat)
    ensures forall e :: e in ParsedFrom(lines, base) ==>
              && base < e.lineno <= base + |lines|
              && e.raw == lines[e.lineno - base - 1]
              && !Skipped(e.raw)
              && e == EntryOf(e.raw, e.lineno)
    decreases |lines|
  {
    if lines != [] {
      var n := |lines|;
      var init := lines[..n - 1];
      ParsedSound(init, base);
      forall e | e in ParsedFrom(init, base)
        ensures e.raw == lines[e.lineno - base - 1]
      {
        assert init[e.lineno - base - 1] == lines[e.lineno - base - 1];
      }
    }
  }

  /** Entries come in file order. */
  lemma {:induction false} ParsedOrdered(lines: seq<string>, base: nat)
    ensures forall j, k :: 0 <= j < k < |ParsedFrom(lines, base)| ==>
              ParsedFrom(lines, base)[j].lineno < ParsedFrom(lines, base)[k].lineno
    decreases |lines|
  {
    if lines != [] {
      var n := |lines|;
      var init := lines[..n - 1];
      ParsedOrdered(init, base);
      var prev := ParsedFrom(init, base);
      assert forall j :: 0 <= j < |prev| ==> prev[j].lineno < base + n by {
        ParsedSound(init, base);
        forall j | 0 <= j < |prev| ensures prev[j].lineno < base + n {
          assert prev[j] in prev;
        }
      }
      ParsedLast(lines, base);
      OrderedSnoc(prev, ParsedFrom(lines, base), base + n);
    }
  }

  /** The entries of some lines are those of all but the last, then the last
      line's entry if it is significant. */
  lemma ParsedLast(lines: seq<string>, base: nat)
    requires lines != []
    ensures var n := |lines|;
            ParsedFrom(lines, base)
            == ParsedFrom(lines[..n - 1], base) + if Skipped(lines[n - 1]) then [] else [EntryOf(lines[n - 1], base + n)]
  {
    var n := |lines|;
    assert ParseLine(lines[n - 1], base + n)
           == if Skipped(lines[n - 1]) then None else Some(EntryOf(lines[n - 1], base + n));
  }

  /** Appending at most one entry numbered after every earlier one keeps the
      entries in order. */
  lemma OrderedSnoc(prev: seq<ExportEntry>, p: seq<ExportEntry>, lineno: nat)
    requires forall j, k :: 0 <= j < k < |prev| ==> prev[j].lineno < prev[k].lineno
    requires forall j :: 0 <= j < |prev| ==> prev[j].lineno < lineno
    requires p == prev || (|p| == |prev| + 1 && p[..|prev|] == prev && p[|prev|].lineno == lineno)
    ensures forall j, k :: 0 <= j < k < |p| ==> p[j].lineno < p[k].lineno
  {
    if p != prev {
      forall j, k | 0 <= j < k < |p| ensures p[j].lineno < p[k].lineno {
        assert p[j] == prev[j];
        if k < |prev| {
          assert p[k] == prev[k];
        }
      }
    }
  }

  /** Every significant line has its entry in the parse. */
  lemma {:induction false} ParsedComplete(lines: seq<string>, base: nat)
    ensures forall i :: 0 <= i < |lines| && !Skipped(lines[i]) ==>
              EntryOf(lines[i], base + i + 1) in ParsedFrom(lines, base)
    decreases |lines|
  {
    if lines != [] {
      var n := |lines|;
      var init := lines[..n - 1];
      ParsedComplete(init, base);
      var prev := ParsedFrom(init, base);
      assert forall i :: 0 <= i < n - 1 && !Skipped(lines[i]) ==> EntryOf(lines[i], base + i + 1) in prev by {
        forall i | 0 <= i < n - 1 ensures lines[i] == init[i] { }
      }
      ParsedLast(lines, base);
      ParsedCompleteStep(lines, base, prev, ParsedFrom(lines, base));
    }
  }

  lemma ParsedCompleteStep(lines: seq<string>, base: nat, prev: seq<ExportEntry>, p: seq<ExportEntry>)
    requires lines != []
    requires var n := |lines|;
             p == prev + if Skipped(lines[n - 1]) then [] else [EntryOf(lines[n - 1], base + n)]
    requires forall i :: 0 <= i < |lines| - 1 && !Skipped(lines[i]) ==> EntryOf(lines[i], base + i + 1) in prev
    ensures forall i :: 0 <= i < |lines| && !Skipped(lines[i]) ==> EntryOf(lines[i], base + i + 1) in p
  {
    forall i | 0 <= i < |lines| && !Skipped(lines[i]) ensures EntryOf(lines[i], base + i + 1) in p {
      if i < |lines| - 1 {
        assert EntryOf(lines[i], base + i + 1) in prev;
      } else {
        assert p[|p| - 1] == EntryOf(lines[i], base + i + 1);
      }
    }
  }

  /** The shape of a parsed entry: its path is the first whitespace token of
      the line (non-empty, without whitespace, not a comment, a prefix of the
      stripped line), and its host rules re-join to the remaining tokens in order. */
  lemma {:induction false} EntryShape(line: string, lineno: nat)
    requires !Skipped(line)
    ensures var e := EntryOf(line, lineno);
            && e.path != "" && NoSpace(e.path) && e.path[0] != '#'
            && StartsWith(Strip(line), e.path)
            && [e.path] + HostTokens(e.hosts) == Split(line)
            && e.raw == line && e.lineno == lineno
  {
    var s := Strip(line);
    StripEdges(line);
    SplitFirstIsPrefix(s);
    SplitStrip(line);
    var parts := Split(s);
    var e := EntryOf(line, lineno);
    assert e.path == parts[0] && e.hosts == HostRules(parts[1..]);
    assert s[0] == parts[0][0];
    assert s[..1] != "#";
    var tokens := HostTokens(e.hosts);
    forall k | 0 <= k < |tokens| ensures tokens[k] == parts[k + 1] {
      assert parts[1..][k] == parts[k + 1];
      SplitHostRejoins(parts[k + 1]);
    }
    assert [e.path] + tokens == parts;
  }

  /** An entry whose path is `p` comes from a line that starts with `p`. */
  lemma EntryPathMatches(line: string, lineno: nat, p: string)
    requires !Skipped(line) && EntryOf(line, lineno).path == p
    ensures StartsWith(Strip(line), p)
  {
    EntryShape(line, lineno);
  }

  // ---------------------------------------------------------------------
  // Rewriters

  /** The match test of all three rewriters: the stripped line starts with the path. */
  predicate Matches(line: string, p: string) {
    StartsWith(Strip(line), p)
  }

  predicate AnyMatch(lines: seq<string>, p: string) {
    exists i :: 0 <= i < |lines| && Matches(lines[i], p)
  }

  /** The lines `add_entry` writes: a blank separator unless the table already
      ends in a blank line (an empty table gets one too), then the new line. */
  function AddedLines(lines: seq<string>, path: string, hostsExpr: string): seq<string> {
    var sep := if lines == [] || Strip(lines[|lines| - 1]) != "" then [""] else [];
    lines + sep + [path + " " + hostsExpr]
  }

  /** `add_entry`: the new table text, or the exception raised before anything is written. */
  function AddEntry(lines: seq<string>, path: string, hostsExpr: string): (r: Result<string, ExportsError>)
    ensures r == Err(InvalidArgument) <==> path == "" || hostsExpr == ""
    ensures r == Err(DuplicateEntry) <==> path != "" && hostsExpr != "" && AnyMatch(lines, path)
    ensures r.Ok? <==> path != "" && hostsExpr != "" && !AnyMatch(lines, path)
  {
    if path == "" || hostsExpr == "" then Err(InvalidArgument)
    else if AnyMatch(lines, path) then Err(DuplicateEntry)
    else Ok(LinesText(AddedLines(lines, path, hostsExpr)))
  }

  /** The lines of a table contain no line boundary, as the lines `splitlines` returns. */
  predicate SingleLines(lines: seq<string>) {
    forall k :: 0 <= k < |lines| ==> NoBreak(lines[k])
  }

  /** `add_entry` keeps every existing line byte for byte and in place, adds
      at most one blank separator, and puts the new line last. */
  lemma {:induction false} AddKeepsLines(lines: seq<string>, path: string, hostsExpr: string)
    requires SingleLines(lines) && NoBreak(path) && NoBreak(hostsExpr)
    requires AddEntry(lines, path, hostsExpr).Ok?
    ensures SplitLines(AddEntry(lines, path, hostsExpr).value) == AddedLines(lines, path, hostsExpr)
    ensures var out := SplitLines(AddEntry(lines, path, hostsExpr).value);
            && |lines| + 1 <= |out| <= |lines| + 2
            && out[..|lines|] == lines
            && out[|out| - 1] == path + " " + hostsExpr
            && (|out| == |lines| + 2 <==> lines == [] || Strip(lines[|lines| - 1]) != "")
            && (|out| == |lines| + 2 ==> out[|lines|] == "")
  {
    var added := AddedLines(lines, path, hostsExpr);
    var x := path + " " + hostsExpr;
    assert NoBreak(x) by {
      forall i | 0 <= i < |x| ensures !IsLineBreak(x[i]) {
        if i < |path| { assert x[i] == path[i]; }
        else if i > |path| { assert x[i] == hostsExpr[i - |path| - 1]; }
      }
    }
    assert SingleLines(added);
    LinesTextRoundTrip(added);
    assert added[..|lines|] == lines;
  }

  /** The line a rewriter writes for a path and a host expression is
      significant and parses to that path with the expression's host rules. */
  lemma NewLineEntry(path: string, hostsExpr: string, lineno: nat)
    requires NoSpace(path) && path != "" && path[0] != '#'
    ensures !Skipped(path + " " + hostsExpr)
    ensures var e := EntryOf(path + " " + hostsExpr, lineno);
            && e.path == path && e.hosts == HostRules(Split(hostsExpr))
            && e.raw == path + " " + hostsExpr && e.lineno == lineno
  {
    var x := path + " " + hostsExpr;
    assert x == path + (" " + hostsExpr);
    assert !Skipped(x) by {
      StripKeepsWord(path, " " + hostsExpr);
      FirstCharNotPrefix(Strip(x), '#');
    }
    assert Split(Strip(x)) == [path] + Split(hostsExpr) by {
      SplitStrip(x);
      SplitWord(path, " " + hostsExpr);
      SplitLeadingSpace(" ", hostsExpr);
    }
    assert ([path] + Split(hostsExpr))[1..] == Split(hostsExpr);
  }

  /** A table with no line matching `p` has no entry for `p`. */
  lemma NoEntryWithoutMatch(lines: seq<string>, p: string)
    requires !AnyMatch(lines, p)
    ensures forall e :: e in Parsed(lines) ==> !StartsWith(e.path, p) && e.path != p
  {
    ParsedSound(lines, 0);
    forall e | e in Parsed(lines) ensures !StartsWith(e.path, p) && e.path != p {
      EntryShape(e.raw, e.lineno);
      assert Matches(lines[e.lineno - 1], e.path);
      StartsWithTrans(Strip(e.raw), e.path, p);
      assert StartsWith(e.path, e.path);
    }
  }

  /** Adding a path the table does not hold yet and reading the table back
      gives exactly one entry for that path: the last one, whose host rules
      are those of the host expression.  The earlier entries are unchanged. */
  lemma {:induction false} AddThenParse(lines: seq<string>, path: string, hostsExpr: string)
    requires SingleLines(lines) && NoBreak(hostsExpr)
    requires NoSpace(path) && path != "" && path[0] != '#'
    requires AddEntry(lines, path, hostsExpr).Ok?
    ensures var p := Parsed(SplitLines(AddEntry(lines, path, hostsExpr).value));
            && |p| == |Parsed(lines)| + 1
            && p[..|p| - 1] == Parsed(lines)
            && p[|p| - 1].path == path
            && p[|p| - 1].hosts == HostRules(Split(hostsExpr))
            && p[|p| - 1].raw == path + " " + hostsExpr
            && forall k :: 0 <= k < |p| - 1 ==> p[k].path != path
  {
    var x := path + " " + hostsExpr;
    var n := |AddedLines(lines, path, hostsExpr)|;
    AddedParse(lines, path, hostsExpr);
    NoSpaceNoBreak(path);
    AddKeepsLines(lines, path, hostsExpr);
    NewLineEntry(path, hostsExpr, n);
    var p := Parsed(SplitLines(AddEntry(lines, path, hostsExpr).value));
    assert p == Parsed(lines) + [EntryOf(x, n)];
    assert forall k :: 0 <= k < |p| - 1 ==> p[k].path != path by {
      NoEntryWithoutMatch(lines, path);
      forall k | 0 <= k < |p| - 1 ensures p[k].path != path {
        assert p[k] == Parsed(lines)[k] && p[k] in Parsed(lines);
      }
    }
  }

  /** A significant line appended to a table adds exactly its own entry. */
  lemma ParsedSnoc(pre: seq<string>, x: string)
    requires !Skipped(x)
    ensures Parsed(pre + [x]) == Parsed(pre) + [EntryOf(x, |pre| + 1)]
  {
    ParsedSingle(x, |pre|);
    ParsedAppend(pre, [x], 0);
  }

  /** A blank line appended to a table adds nothing. */
  lemma ParsedBlank(pre: seq<string>)
    ensures Parsed(pre + [""]) == Parsed(pre)
  {
    assert Strip("") == "";
    ParsedSingle("", |pre|);
    ParsedAppend(pre, [""], 0);
  }

  /** The lines after an addition parse as the old entries followed by the
      entry of the new line, which is the last line. */
  lemma AddedParse(lines: seq<string>, path: string, hostsExpr: string)
    requires NoSpace(path) && path != "" && path[0] != '#'
    ensures !Skipped(path + " " + hostsExpr)
    ensures Parsed(AddedLines(lines, path, hostsExpr))
            == Parsed(lines) + [EntryOf(path + " " + hostsExpr, |AddedLines(lines, path, hostsExpr)|)]
  {
    var x := path + " " + hostsExpr;
    var added := AddedLines(lines, path, hostsExpr);
    NewLineEntry(path, hostsExpr, |added|);
    var pre := added[..|added| - 1];
    assert added == pre + [x];
    assert Parsed(pre) == Parsed(lines) by {
      if pre != lines {
        assert pre == lines + [""];
        ParsedBlank(lines);
      }
    }
    ParsedSnoc(pre, x);
  }

  /** The lines `remove_entry` keeps: those that do not match, in order. */
  function Kept(lines: seq<string>, p: string): (r: seq<string>)
    ensures |r| <= |lines|
    ensures forall k :: 0 <= k < |r| ==> !Matches(r[k], p) && r[k] in lines
    ensures forall k :: 0 <= k < |lines| && !Matches(lines[k], p) ==> lines[k] in r
    ensures |r| == |lines| <==> !AnyMatch(lines, p)
  {
    if lines == [] then []
    else
      var rest := Kept(lines[1..], p);
      assert forall k :: 1 <= k < |lines| ==> lines[k] == lines[1..][k - 1];
      assert AnyMatch(lines[1..], p) ==> AnyMatch(lines, p);
      if Matches(lines[0], p) then rest else [lines[0]] + rest
  }

  /** Filtering distributes over concatenation, so the kept lines stay in their original order. */
  lemma {:induction false} KeptAppend(a: seq<string>, b: seq<string>, p: string)
    ensures Kept(a + b, p) == Kept(a, p) + Kept(b, p)
    decreases |a|
  {
    if a == [] {
      assert a + b == b;
    } else {
      assert (a + b)[0] == a[0];
      assert (a + b)[1..] == a[1..] + b;
      KeptAppend(a[1..], b, p);
    }
  }

  /** `remove_entry`: the new table text, or `NotFound` when no line would be removed. */
  function RemoveEntry(lines: seq<string>, matchPath: string): (r: Result<string, ExportsError>)
    ensures r.Err? <==> !AnyMatch(lines, matchPath)
    ensures r.Err? ==> r.error == NotFound
  {
    var kept := Kept(lines, matchPath);
    if |kept| == |lines| then Err(NotFound) else Ok(LinesText(kept))
  }

  /** After `remove_entry(p)` succeeds for a non-empty `p`, reading the table
      back finds no entry whose path starts with `p`, and a second
      `remove_entry(p)` raises `NotFound`. */
  lemma {:induction false} RemoveThenParse(lines: seq<string>, p: string)
    requires SingleLines(lines) && p != ""
    requires RemoveEntry(lines, p).Ok?
    ensures var after := SplitLines(RemoveEntry(lines, p).value);
            && (forall e :: e in Parsed(after) ==> !StartsWith(e.path, p))
            && RemoveEntry(after, p) == Err(NotFound)
  {
    var kept := Kept(lines, p);
    var after := SplitLines(LinesText(kept));
    if kept == [] {
      EmptyLinesText();
      ParsedSingle("", 0);
      assert Strip("") == "";
      assert !Matches(after[0], p);
    } else {
      assert SingleLines(kept);
      LinesTextRoundTrip(kept);
      NoEntryWithoutMatch(kept, p);
    }
  }

  /** `remove_entry("")` matches every line: it empties any non-empty table,
      which is then written as a single line break. */
  lemma RemoveEmptyPathClears(lines: seq<string>)
    requires lines != []
    ensures RemoveEntry(lines, "") == Ok("\n")
  {
    KeptNothing(lines);
    EmptyLinesText();
  }

  lemma {:induction false} KeptNothing(lines: seq<string>)
    ensures Kept(lines, "") == []
    decreases |lines|
  {
    if lines != [] {
      assert Matches(lines[0], "");
      KeptNothing(lines[1..]);
    }
  }

  /** `k` is the first line that matches `p`. */
  predicate FirstMatchAt(lines: seq<string>, p: string, k: int) {
    && 0 <= k < |lines|
    && Matches(lines[k], p)
    && forall j :: 0 <= j < k ==> !Matches(lines[j], p)
  }

  /** The first line that matches `p`, if any. */
  function FirstMatch(lines: seq<string>, p: string): (r: Option<nat>)
    ensures r.Some? ==> FirstMatchAt(lines, p, r.value)
    ensures r.None? ==> forall j :: 0 <= j < |lines| ==> !Matches(lines[j], p)
  {
    if lines == [] then None
    else if Matches(lines[0], p) then Some(0)
    else match FirstMatch(lines[1..], p)
      case None => None
      case Some(k) => Some(k + 1)
  }

  /** At most one line is the first match. */
  lemma FirstMatchUnique(lines: seq<string>, p: string, k: int, k': int)
    requires FirstMatchAt(lines, p, k) && FirstMatchAt(lines, p, k')
    ensures k == k'
  {
  }

  /** The table `edit_entry` writes: the first matching line becomes
      `matchPath + " " + newHostsExpr`; `NotFound` when none matches. */
  function Edit(lines: seq<string>, matchPath: string, newHostsExpr: string): Result<string, ExportsError> {
    match FirstMatch(lines, matchPath)
    case None => Err(NotFound)
    case Some(k) => Ok(LinesText(lines[k := matchPath + " " + newHostsExpr]))
  }

  /** `edit_entry`: walks the lines once, replacing the first line that
      matches with `matchPath + " " + newHostsExpr`; raises `NotFound` if no
      line matched. */
  method EditEntry(lines: seq<string>, matchPath: string, newHostsExpr: string)
    returns (r: Result<string, ExportsError>)
    ensures r.Err? <==> !AnyMatch(lines, matchPath)
    ensures r.Err? ==> r.error == NotFound
    ensures r.Ok? ==> exists k :: FirstMatchAt(lines, matchPath, k) &&
                        r.value == LinesText(lines[k := matchPath + " " + newHostsExpr])
    ensures r == Edit(lines, matchPath, newHostsExpr)
  {
    var newLines: seq<string> := [];
    var replaced := false;
    ghost var at := 0;
    var line := matchPath + " " + newHostsExpr;
    for i := 0 to |lines|
      invariant |newLines| == i
      invariant !replaced ==> forall j :: 0 <= j < i ==> !Matches(lines[j], matchPath) && newLines[j] == lines[j]
      invariant replaced ==> FirstMatchAt(lines, matchPath, at) && at < i && newLines == lines[..i][at := line]
    {
      if !replaced && Matches(lines[i], matchPath) {
        newLines := newLines + [line];
        replaced := true;
        at := i;
      } else {
        newLines := newLines + [lines[i]];
      }
    }
    if !replaced {
      return Err(NotFound);
    }
    assert lines[..|lines|] == lines;
    FirstMatchUnique(lines, matchPath, at, FirstMatch(lines, matchPath).value);
    r := Ok(LinesText(newLines));
  }

  /** Editing line `k` to `p + " " + e` changes exactly one entry of the parse,
      the one of line `k`, into an entry for `p` with the host rules of `e`;
      the line count and every other entry stay as they were. */
  lemma {:induction false} EditThenParse(lines: seq<string>, k: nat, p: string, e: string)
    requires k < |lines| && Matches(lines[k], p)
    requires NoSpace(p) && p != "" && p[0] != '#'
    ensures !Skipped(p + " " + e)
    ensures var j := |Parsed(lines[..k])|;
            && j < |Parsed(lines)|
            && Parsed(lines[k := p + " " + e]) == Parsed(lines)[j := EntryOf(p + " " + e, k + 1)]
            && EntryOf(p + " " + e, k + 1).path == p
            && EntryOf(p + " " + e, k + 1).hosts == HostRules(Split(e))
  {
    var x := p + " " + e;
    assert !Skipped(lines[k]) by { MatchedLineCounts(lines[k], p); }
    assert !Skipped(x) by { NewLineEntry(p, e, k + 1); }
    ParsedReplace(lines, k, x);
    NewLineEntry(p, e, k + 1);
  }

  /** Replacing one significant line by another replaces exactly its entry. */
  lemma ParsedReplace(lines: seq<string>, k: nat, x: string)
    requires k < |lines| && !Skipped(lines[k]) && !Skipped(x)
    ensures var j := |Parsed(lines[..k])|;
            && j < |Parsed(lines)|
            && Parsed(lines[k := x]) == Parsed(lines)[j := EntryOf(x, k + 1)]
  {
    assert ParseLine(lines[k], k + 1) == Some(EntryOf(lines[k], k + 1));
    assert ParseLine(x, k + 1) == Some(EntryOf(x, k + 1));
    CollectReplace(lines, k, x, EntryOf(x, k + 1), 0, ParseLine);
  }

  /** Reading back the table `edit_entry` wrote gives the same entries in the
      same order except one, which now has path `p` and the host rules of `e`. */
  lemma EditThenReparse(lines: seq<string>, p: string, e: string)
    requires SingleLines(lines) && NoBreak(e)
    requires NoSpace(p) && p != "" && p[0] != '#'
    requires Edit(lines, p, e).Ok?
    ensures var before := Parsed(lines);
            var after := Parsed(SplitLines(Edit(lines, p, e).value));
            && |after| == |before|
            && exists j :: 0 <= j < |before|
                 && after[j].path == p && after[j].hosts == HostRules(Split(e))
                 && forall i :: 0 <= i < |before| && i != j ==> after[i] == before[i]
  {
    var k := FirstMatch(lines, p).value;
    var x := p + " " + e;
    var edited := lines[k := x];
    assert SplitLines(Edit(lines, p, e).value) == edited by {
      NoSpaceNoBreak(p);
      NoBreakSpaced(p, e);
      assert forall i :: 0 <= i < |edited| ==> NoBreak(edited[i]);
      LinesTextRoundTrip(edited);
    }
    EditThenParse(lines, k, p, e);
    var j := |Parsed(lines[..k])|;
    var before := Parsed(lines);
    assert j < |before|;
    var after := before[j := EntryOf(x, k + 1)];
    assert Parsed(edited) == after;
    assert after[j].path == p && after[j].hosts == HostRules(Split(e));
    assert forall i :: 0 <= i < |before| && i != j ==> after[i] == before[i];
  }

  /** Replacing one line that `parse` keeps by another it keeps replaces one
      collected entry, the one at the number of entries before that line. */
  lemma CollectReplace(lines: seq<string>, k: nat, x: string, v: ExportEntry, base: nat, parse: (string, nat) -> Option<ExportEntry>)
    requires k < |lines|
    requires parse(lines[k], base + k + 1).Some? && parse(x, base + k + 1) == Some(v)
    ensures var j := |Collect(lines[..k], base, parse)|;
            && j < |Collect(lines, base, parse)|
            && Collect(lines[k := x], base, parse) == Collect(lines, base, parse)[j := v]
  {
    var pre := lines[..k];
    var post := lines[k + 1..];
    assert lines == pre + [lines[k]] + post;
    assert lines[k := x] == pre + [x] + post;
    CollectAround(pre, lines[k], post, base, parse);
    CollectAround(pre, x, post, base, parse);
    UpdateMiddle(Collect(pre, base, parse), parse(lines[k], base + k + 1).value,
                 parse(x, base + k + 1).value, Collect(post, base + k + 1, parse));
  }

  /** Collecting around one line that `parse` keeps. */
  lemma CollectAround(pre: seq<string>, line: string, post: seq<string>, base: nat, parse: (string, nat) -> Option<ExportEntry>)
    requires parse(line, base + |pre| + 1).Some?
    ensures Collect(pre + [line] + post, base, parse)
            == Collect(pre, base, parse) + [parse(line, base + |pre| + 1).value] + Collect(post, base + |pre| + 1, parse)
  {
    CollectAppend(pre + [line], post, base, parse);
    CollectAppend(pre, [line], base, parse);
    assert [line][..0] == [];
  }

  lemma UpdateMiddle<T>(a: seq<T>, y: T, z: T, c: seq<T>)
    ensures (a + [y] + c)[|a| := z] == a + [z] + c
  {
  }

  /** A line that matches a path which is not a comment is significant. */
  lemma MatchedLineCounts(line: string, p: string)
    requires Matches(line, p) && p != "" && p[0] != '#'
    ensures !Skipped(line)
  {
    assert Strip(line)[0] == p[0];
  }
}
