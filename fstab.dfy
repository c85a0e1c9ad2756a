/** The `/etc/fstab` editing of `util/mount_manager.py`: the entry
    `add_to_fstab` appends after checking for a duplicate, and the filter
    `remove_from_fstab` applies, with the two ways it reads the file back in.
    An entry for a mount point is a non-blank, non-comment line whose second
    field is exactly that mount point. */
module Fstab {
  import opened Common
  import opened Text
  import opened Mounts

  const FstabPath: string := "/etc/fstab"

  /** A line the duplicate check and the removal take as the entry for `mountPoint`. */
  predicate IsEntryFor(line: string, mountPoint: string) {
    var parts := Split(line);
    Strip(line) != "" && !StartsWith(Strip(line), "#") && |parts| >= 2 && parts[1] == mountPoint
  }

  predicate HasEntryFor(lines: seq<string>, mountPoint: string) {
    exists k :: 0 <= k < |lines| && IsEntryFor(lines[k], mountPoint)
  }

  // ---------------------------------------------------------------------
  // add_to_fstab

  /** The duplicate check of `add_to_fstab`: it stops at the first entry for
      the mount point among the lines of the file. */
  method FindEntry(content: string, mountPoint: string) returns (found: bool)
    ensures found == HasEntryFor(SplitOn(content, '\n'), mountPoint)
  {
    var lines := SplitOn(content, '\n');
    var i := 0;
    while i < |lines|
      invariant 0 <= i <= |lines|
      invariant forall k :: 0 <= k < i ==> !IsEntryFor(lines[k], mountPoint)
    {
      var line := lines[i];
      if Strip(line) != "" && !StartsWith(Strip(line), "#") {
        var parts := Split(line);
        if |parts| >= 2 && parts[1] == mountPoint {
          return true;
        }
      }
      i := i + 1;
    }
    found := false;
  }

  /** The line `add_to_fstab` adds, without its line break. */
  function EntryLine(server: string, remotePath: string, mountPoint: string, options: string): string {
    server + ":" + remotePath + "\t" + mountPoint + "\tnfs\t" + options + "\t0 0"
  }

  /** The content followed by the new entry, with a line break between them
      when the content does not already end with one. */
  function AddedText(content: string, entry: string): string {
    (if EndsWith(content, "\n") then content else content + "\n") + entry
  }

  /** The new content of the file `add_to_fstab` writes, or the duplicate it refuses. */
  function AddToFstab(content: string, server: string, remotePath: string, mountPoint: string, options: string)
    : (r: Result<string, MountFailure>)
    ensures r.Err? ==> r.error == FstabDuplicate
  {
    if HasEntryFor(SplitOn(content, '\n'), mountPoint) then Err(FstabDuplicate)
    else Ok(AddedText(content, EntryLine(server, remotePath, mountPoint, options) + "\n"))
  }

  /** The content without its final line break, if it has one. */
  function Unterminated(content: string): string {
    if EndsWith(content, "\n") then content[..|content| - 1] else content
  }

  /** Appending keeps the old lines, in order, and adds the entry as the last
      line, followed by the empty text after the final line break. */
  lemma AddedLines(content: string, line: string)
    requires '\n' !in line
    ensures SplitOn(AddedText(content, line + "\n"), '\n') == SplitOn(Unterminated(content), '\n') + [line, ""]
    ensures SplitOn(content, '\n')
            == SplitOn(Unterminated(content), '\n') + (if EndsWith(content, "\n") then [""] else [])
  {
    var b := Unterminated(content);
    if EndsWith(content, "\n") {
      assert content == b + ['\n'] + "";
      SplitOnAppend(b, "", '\n');
    }
    assert AddedText(content, line + "\n") == b + ['\n'] + (line + ['\n'] + "");
    SplitOnAppend(b, line + ['\n'] + "", '\n');
    SplitOnAppend(line, "", '\n');
    SplitOnNoSeparator(line, '\n');
  }

  /** The added line is an entry for its mount point when the fields hold no
      whitespace and the line does not start like a comment. */
  lemma EntryLineIsEntry(server: string, remotePath: string, mountPoint: string, options: string)
    requires NoSpace(server) && NoSpace(remotePath) && mountPoint != "" && NoSpace(mountPoint)
    requires (server + ":" + remotePath)[0] != '#'
    ensures IsEntryFor(EntryLine(server, remotePath, mountPoint, options), mountPoint)
  {
    var source := server + ":" + remotePath;
    var tail := "\tnfs\t" + options + "\t0 0";
    var rest := "\t" + (mountPoint + tail);
    var line := EntryLine(server, remotePath, mountPoint, options);
    assert line == source + rest;
    assert NoSpace(source) by {
      NoSpaceJoin3(server, ":", remotePath);
    }
    assert Split(line) == [source, mountPoint] + Split(tail) by {
      assert IsSpace(tail[0]);
      TabbedWords(source, mountPoint, tail);
    }
    var t := Strip(line);
    assert StartsWith(t, source) by {
      StripKeepsWord(source, rest);
    }
    FirstCharNotPrefix(t, '#');
  }

  /** Two words, each followed by a tab, then a text that starts with whitespace. */
  lemma TabbedWords(a: string, b: string, tail: string)
    requires a != "" && NoSpace(a) && b != "" && NoSpace(b)
    requires tail == [] || IsSpace(tail[0])
    ensures Split(a + ("\t" + (b + tail))) == [a, b] + Split(tail)
  {
    var t := "\t" + (b + tail);
    assert Split(a + t) == [a] + Split(t) by {
      assert t[0] == '\t' && IsSpace('\t');
      SplitWord(a, t);
    }
    assert Split(t) == Split(b + tail) by {
      assert AllSpace("\t") by { assert IsSpace("\t"[0]); }
      SplitLeadingSpace("\t", b + tail);
    }
    assert Split(b + tail) == [b] + Split(tail) by { SplitWord(b, tail); }
  }

  lemma NoBreakEntryLine(server: string, remotePath: string, mountPoint: string, options: string)
    requires NoSpace(server) && NoSpace(remotePath) && NoSpace(mountPoint) && '\n' !in options
    ensures '\n' !in EntryLine(server, remotePath, mountPoint, options)
  {
    var line := EntryLine(server, remotePath, mountPoint, options);
    forall i | 0 <= i < |line| ensures line[i] != '\n' {
      var a := server + ":" + remotePath + "\t" + mountPoint + "\tnfs\t";
      if i < |server| { assert line[i] == server[i]; }
      else if i == |server| { assert line[i] == ':'; }
      else if i < |server| + 1 + |remotePath| { assert line[i] == remotePath[i - |server| - 1]; }
      else if i == |server| + 1 + |remotePath| { assert line[i] == '\t'; }
      else if i < |server| + 2 + |remotePath| + |mountPoint| {
        assert line[i] == mountPoint[i - |server| - 2 - |remotePath|];
      } else if i < |a| {
        assert line[i] == a[i];
      } else if i < |a| + |options| {
        assert line[i] == options[i - |a|];
      } else {
        assert line[i] == "\t0 0"[i - |a| - |options|];
      }
    }
  }

  /** After a successful addition the file has an entry for the mount point,
      so adding the same mount point again is refused as a duplicate; every
      entry the file had before is still there. */
  lemma AddThenDuplicate(content: string, server: string, remotePath: string, mountPoint: string, options: string)
    requires NoSpace(server) && NoSpace(remotePath) && mountPoint != "" && NoSpace(mountPoint) && '\n' !in options
    requires (server + ":" + remotePath)[0] != '#'
    requires AddToFstab(content, server, remotePath, mountPoint, options).Ok?
    ensures var after := AddToFstab(content, server, remotePath, mountPoint, options).value;
            && HasEntryFor(SplitOn(after, '\n'), mountPoint)
            && (forall q :: HasEntryFor(SplitOn(content, '\n'), q) ==> HasEntryFor(SplitOn(after, '\n'), q))
            && forall s2, r2, o2 :: AddToFstab(after, s2, r2, mountPoint, o2) == Err(FstabDuplicate)
  {
    var line := EntryLine(server, remotePath, mountPoint, options);
    NoBreakEntryLine(server, remotePath, mountPoint, options);
    AddedLines(content, line);
    EntryLineIsEntry(server, remotePath, mountPoint, options);
    var after := AddToFstab(content, server, remotePath, mountPoint, options).value;
    var base := SplitOn(Unterminated(content), '\n');
    assert SplitOn(after, '\n')[|base|] == line;
    forall q | HasEntryFor(SplitOn(content, '\n'), q) ensures HasEntryFor(SplitOn(after, '\n'), q) {
      var k :| 0 <= k < |SplitOn(content, '\n')| && IsEntryFor(SplitOn(content, '\n')[k], q);
      if k < |base| {
        assert SplitOn(after, '\n')[k] == base[k];
      } else {
        assert false;
      }
    }
  }

  // ---------------------------------------------------------------------
  // remove_from_fstab

  /** The lines `remove_from_fstab` keeps: all but the entries for the mount point, in order. */
  function KeptFstab(lines: seq<string>, mountPoint: string): (r: seq<string>)
    ensures |r| <= |lines|
    decreases |lines|
  {
    if lines == [] then []
    else
      var prev := KeptFstab(lines[..|lines| - 1], mountPoint);
      if IsEntryFor(lines[|lines| - 1], mountPoint) then prev else prev + [lines[|lines| - 1]]
  }

  lemma HasEntryForSnoc(a: seq<string>, x: string, mountPoint: string)
    ensures HasEntryFor(a + [x], mountPoint) <==> HasEntryFor(a, mountPoint) || IsEntryFor(x, mountPoint)
    ensures KeptFstab(a + [x], mountPoint) == if IsEntryFor(x, mountPoint) then KeptFstab(a, mountPoint) else KeptFstab(a, mountPoint) + [x]
  {
    assert (a + [x])[..|a|] == a;
    if HasEntryFor(a, mountPoint) {
      var k :| 0 <= k < |a| && IsEntryFor(a[k], mountPoint);
      assert (a + [x])[k] == a[k];
    }
    if HasEntryFor(a + [x], mountPoint) {
      var k :| 0 <= k < |a + [x]| && IsEntryFor((a + [x])[k], mountPoint);
      if k < |a| { assert (a + [x])[k] == a[k]; }
    }
  }

  /** The loop of `remove_from_fstab`, with its `found` flag. */
  method FilterFstab(lines: seq<string>, mountPoint: string) returns (newLines: seq<string>, found: bool)
    ensures newLines == KeptFstab(lines, mountPoint)
    ensures found == HasEntryFor(lines, mountPoint)
  {
    newLines := [];
    found := false;
    for i := 0 to |lines|
      invariant newLines == KeptFstab(lines[..i], mountPoint)
      invariant found == HasEntryFor(lines[..i], mountPoint)
    {
      var line := lines[i];
      assert lines[..i + 1] == lines[..i] + [line];
      HasEntryForSnoc(lines[..i], line, mountPoint);
      var isEntry := false;
      if Strip(line) != "" && !StartsWith(Strip(line), "#") {
        var parts := Split(line);
        isEntry := |parts| >= 2 && parts[1] == mountPoint;
      }
      if isEntry {
        found := true;
      } else {
        newLines := newLines + [line];
      }
    }
    assert lines[..|lines|] == lines;
  }

  /** Keeping distributes over concatenation: the filter keeps the order of the lines. */
  lemma {:induction false} KeptFstabAppend(a: seq<string>, b: seq<string>, mountPoint: string)
    ensures KeptFstab(a + b, mountPoint) == KeptFstab(a, mountPoint) + KeptFstab(b, mountPoint)
    decreases |b|
  {
    if b == [] {
      assert a + b == a;
    } else {
      var b' := b[..|b| - 1];
      assert (a + b)[..|a + b| - 1] == a + b';
      assert (a + b)[|a + b| - 1] == b[|b| - 1];
      KeptFstabAppend(a, b', mountPoint);
    }
  }

  /** No entry for the mount point is kept, and every kept line is one of the lines. */
  lemma {:induction false} KeptFstabNoEntry(lines: seq<string>, mountPoint: string)
    ensures !HasEntryFor(KeptFstab(lines, mountPoint), mountPoint)
    ensures forall x :: x in KeptFstab(lines, mountPoint) ==> x in lines
    decreases |lines|
  {
    if lines != [] {
      var init := lines[..|lines| - 1];
      KeptFstabNoEntry(init, mountPoint);
      var prev := KeptFstab(init, mountPoint);
      var last := lines[|lines| - 1];
      if !IsEntryFor(last, mountPoint) {
        var r := prev + [last];
        forall k | 0 <= k < |r| ensures !IsEntryFor(r[k], mountPoint) {
          if k < |prev| {
            assert r[k] == prev[k];
          }
        }
      }
      forall x | x in KeptFstab(lines, mountPoint) ensures x in lines {
        if x in init {
          var j :| 0 <= j < |init| && init[j] == x;
          assert lines[j] == x;
        }
      }
    }
  }

  /** `f.readlines()`: the lines of the text, each with its `'\n'`; the last
      one lacks it when the text does not end with one. */
  function ReadLines(s: string): seq<string>
    decreases |s|
  {
    if s == [] then []
    else if '\n' in s then
      var i := IndexOf(s, '\n');
      [s[..i + 1]] + ReadLines(s[i + 1..])
    else [s]
  }

  /** `f.writelines(lines)`: the lines written one after the other, with nothing between them. */
  function Concat(lines: seq<string>): string {
    if lines == [] then "" else lines[0] + Concat(lines[1..])
  }

  /** Writing back what `readlines` read gives the same text. */
  lemma {:induction false} ConcatReadLines(s: string)
    ensures Concat(ReadLines(s)) == s
    decreases |s|
  {
    if s != [] && '\n' in s {
      var i := IndexOf(s, '\n');
      ConcatReadLines(s[i + 1..]);
      assert s == s[..i + 1] + s[i + 1..];
    }
  }

  /** A line of `readlines`: not empty, and holding a `'\n'` at most as its last character. */
  predicate OneLine(x: string) {
    x != [] && '\n' !in x[..|x| - 1]
  }

  /** A line that ends with its line break. */
  predicate Terminated(x: string) {
    OneLine(x) && x[|x| - 1] == '\n'
  }

  /** What `readlines` gives: lines, all but the last terminated. */
  predicate WellSplit(ls: seq<string>) {
    && (forall k :: 0 <= k < |ls| ==> OneLine(ls[k]))
    && (forall k :: 0 <= k < |ls| - 1 ==> Terminated(ls[k]))
  }

  lemma {:induction false} ReadLinesWellSplit(s: string)
    ensures WellSplit(ReadLines(s))
    decreases |s|
  {
    if s != [] && '\n' in s {
      var i := IndexOf(s, '\n');
      ReadLinesWellSplit(s[i + 1..]);
      var x := s[..i + 1];
      assert Terminated(x) by {
        assert x[..|x| - 1] == s[..i];
      }
      WellSplitCons(x, ReadLines(s[i + 1..]));
    } else if s != [] {
      assert OneLine(s) by {
        var t := s[..|s| - 1];
        forall j | 0 <= j < |t| ensures t[j] != '\n' {
          assert t[j] == s[j];
        }
      }
      WellSplitCons(s, []);
      assert [s] + [] == [s];
    }
  }

  /** A line in front of well-split lines keeps them well split when it is
      terminated, or when it is the only one. */
  lemma WellSplitCons(x: string, rest: seq<string>)
    requires OneLine(x) && (rest != [] ==> Terminated(x)) && WellSplit(rest)
    ensures WellSplit([x] + rest)
  {
    var r := [x] + rest;
    forall k | 0 <= k < |r| ensures OneLine(r[k]) {
      if k > 0 { assert r[k] == rest[k - 1]; }
    }
    forall k | 0 <= k < |r| - 1 ensures Terminated(r[k]) {
      if k > 0 { assert r[k] == rest[k - 1]; }
    }
  }

  /** The first of well-split lines is one line, terminated unless it is the
      last, and the others are well split. */
  lemma WellSplitTail(ls: seq<string>)
    requires ls != [] && WellSplit(ls)
    ensures OneLine(ls[0]) && (|ls| > 1 ==> Terminated(ls[0])) && WellSplit(ls[1..])
  {
    forall k | 0 <= k < |ls[1..]| ensures OneLine(ls[1..][k]) { assert ls[1..][k] == ls[k + 1]; }
    forall k | 0 <= k < |ls[1..]| - 1 ensures Terminated(ls[1..][k]) { assert ls[1..][k] == ls[k + 1]; }
  }

  /** `readlines` of what `writelines` wrote gives back lines that were
      themselves as `readlines` gives them. */
  lemma {:induction false} ReadLinesConcat(ls: seq<string>)
    requires WellSplit(ls)
    ensures ReadLines(Concat(ls)) == ls
    decreases |ls|
  {
    if ls != [] {
      var x, tail := ls[0], ls[1..];
      WellSplitTail(ls);
      ReadLinesConcat(tail);
      var text := Concat(tail);
      assert Concat(ls) == x + text;
      if Terminated(x) {
        ReadLinesFront(x, text);
        assert ReadLines(x + text) == [x] + tail;
      } else {
        assert tail == [] && text == "";
        ReadLinesLast(x);
        assert x + text == x;
      }
      assert ls == [x] + tail;
    }
  }

  /** A terminated line in front of a text is the first line `readlines` gives. */
  lemma ReadLinesFront(x: string, rest: string)
    requires Terminated(x)
    ensures ReadLines(x + rest) == [x] + ReadLines(rest)
  {
    var s := x + rest;
    assert s[|x| - 1] == '\n';
    assert s[..|x| - 1] == x[..|x| - 1];
    assert IndexOf(s, '\n') == |x| - 1;
    assert s[..|x|] == x && s[|x|..] == rest;
  }

  /** An unterminated line is the only line `readlines` gives. */
  lemma ReadLinesLast(x: string)
    requires OneLine(x) && x[|x| - 1] != '\n'
    ensures ReadLines(x) == [x]
  {
    forall j | 0 <= j < |x| ensures x[j] != '\n' {
      if j < |x| - 1 { assert x[..|x| - 1][j] == x[j]; }
    }
    assert '\n' !in x;
  }

  /** Every kept line is terminated when every line is. */
  lemma {:induction false} KeptTerminated(lines: seq<string>, mountPoint: string)
    requires forall k :: 0 <= k < |lines| ==> Terminated(lines[k])
    ensures forall k :: 0 <= k < |KeptFstab(lines, mountPoint)| ==> Terminated(KeptFstab(lines, mountPoint)[k])
  {
    KeptFstabNoEntry(lines, mountPoint);
    forall k | 0 <= k < |KeptFstab(lines, mountPoint)| ensures Terminated(KeptFstab(lines, mountPoint)[k]) {
      var x := KeptFstab(lines, mountPoint)[k];
      assert x in KeptFstab(lines, mountPoint);
      var j :| 0 <= j < |lines| && lines[j] == x;
    }
  }

  /** Filtering lines as `readlines` gives them leaves lines as `readlines` gives them. */
  lemma KeptWellSplit(lines: seq<string>, mountPoint: string)
    requires WellSplit(lines)
    ensures WellSplit(KeptFstab(lines, mountPoint))
  {
    if lines != [] {
      var init := lines[..|lines| - 1];
      var last := lines[|lines| - 1];
      assert forall k :: 0 <= k < |init| ==> Terminated(init[k]);
      KeptTerminated(init, mountPoint);
      KeptFstabNoEntry(init, mountPoint);
      var prev := KeptFstab(init, mountPoint);
      assert forall k :: 0 <= k < |prev| ==> OneLine(prev[k]);
      if !IsEntryFor(last, mountPoint) {
        var r := prev + [last];
        forall k | 0 <= k < |r| ensures OneLine(r[k]) {
          if k < |prev| { assert r[k] == prev[k]; }
        }
        forall k | 0 <= k < |r| - 1 ensures Terminated(r[k]) {
          assert r[k] == prev[k];
        }
      }
    }
  }

  /** The entries `remove_from_fstab` keeps, or `FstabMissingEntry` when none was an entry. */
  function RemoveEntries(lines: seq<string>, mountPoint: string): (r: Result<seq<string>, MountFailure>)
    ensures r.Err? ==> r.error == FstabMissingEntry
  {
    if HasEntryFor(lines, mountPoint) then Ok(KeptFstab(lines, mountPoint)) else Err(FstabMissingEntry)
  }

  /** On the ordinary read, the file written back reads as exactly the kept
      lines, so it holds no entry for the mount point and a second removal
      finds none. */
  lemma RemoveThenReadBack(content: string, mountPoint: string)
    requires RemoveEntries(ReadLines(content), mountPoint).Ok?
    ensures var kept := RemoveEntries(ReadLines(content), mountPoint).value;
            && ReadLines(Concat(kept)) == kept
            && RemoveEntries(ReadLines(Concat(kept)), mountPoint) == Err(FstabMissingEntry)
  {
    var lines := ReadLines(content);
    ReadLinesWellSplit(content);
    KeptWellSplit(lines, mountPoint);
    var kept := KeptFstab(lines, mountPoint);
    ReadLinesConcat(kept);
    KeptFstabNoEntry(lines, mountPoint);
  }

  /** The text the privileged-`cat` fallback writes, as the source writes it:
      the lines of `split('\n')`, which have lost their line breaks, written
      with `writelines`. */
  function FallbackTextAsWritten(kept: seq<string>): string {
    Concat(kept)
  }

  /** The text the fallback evidently means to write: the kept lines joined
      by the line breaks `split('\n')` removed. */
  function FallbackText(kept: seq<string>): string {
    Join(kept, "\n")
  }

  /** A line of two words is an entry for its second word, and for nothing else. */
  lemma TwoWordEntry(a: string, b: string, q: string)
    requires a != [] && NoSpace(a) && a[0] != '#' && b != [] && NoSpace(b)
    ensures IsEntryFor(a + " " + b, q) <==> q == b
  {
    var line := a + " " + b;
    assert Split(line) == [a, b] by {
      assert Join([a, b], " ") == line;
      SplitJoinWords([a, b]);
    }
    LeadingWordShown(a, " " + b);
    assert a + (" " + b) == line;
  }

  /** A line that starts with a word not beginning with `#` is neither blank
      nor a comment. */
  lemma LeadingWordShown(a: string, rest: string)
    requires a != [] && NoSpace(a) && a[0] != '#'
    ensures Strip(a + rest) != [] && !StartsWith(Strip(a + rest), "#")
  {
    StripKeepsWord(a, rest);
    FirstCharNotPrefix(Strip(a + rest), '#');
  }

  /** Three words joined by single spaces split back into the three. */
  lemma ThreeWordSplit(a: string, m: string, d: string)
    requires a != [] && NoSpace(a) && m != [] && NoSpace(m) && d != [] && NoSpace(d)
    ensures Split(a + " " + m + " " + d) == [a, m, d]
  {
    assert [a, m, d][1..] == [m, d] && [m, d][1..] == [d];
    assert Join([d], " ") == d;
    assert Join([a, m, d], " ") == a + " " + (m + " " + d) == a + " " + m + " " + d;
    SplitJoinWords([a, m, d]);
  }

  /** A line of three words is an entry for its middle word, and for nothing else. */
  lemma ThreeWordEntry(a: string, m: string, d: string, q: string)
    requires a != [] && NoSpace(a) && a[0] != '#' && m != [] && NoSpace(m) && d != [] && NoSpace(d)
    ensures IsEntryFor(a + " " + m + " " + d, q) <==> q == m
  {
    ThreeWordSplit(a, m, d);
    LeadingWordShown(a, " " + m + " " + d);
    assert a + (" " + m + " " + d) == a + " " + m + " " + d;
  }

  /** As written, the fallback runs two kept two-word lines `a b` and `c d`
      together into the one line `a bc d`, which is an entry for `bc` and no
      longer for `b`. */
  lemma MergedLines(a: string, b: string, c: string, d: string)
    requires a != [] && NoSpace(a) && a[0] != '#' && b != [] && NoSpace(b)
    requires c != [] && NoSpace(c) && d != [] && NoSpace(d)
    requires '\n' !in a + " " + b + c + " " + d
    ensures SplitOn(FallbackTextAsWritten([a + " " + b, c + " " + d]), '\n') == [a + " " + (b + c) + " " + d]
    ensures IsEntryFor(a + " " + (b + c) + " " + d, b + c)
    ensures !IsEntryFor(a + " " + (b + c) + " " + d, b)
  {
    var text := FallbackTextAsWritten([a + " " + b, c + " " + d]);
    var p, q := a + " " + b, c + " " + d;
    assert [p, q][1..] == [q] && [q][1..] == [];
    assert Concat([q]) == q + Concat([]);
    assert Concat([p, q]) == p + Concat([q]);
    assert text == a + " " + (b + c) + " " + d;
    SplitOnNoSeparator(text, '\n');
    NoSpaceJoin3(b, c, "");
    assert b + c + "" == b + c;
    ThreeWordEntry(a, b + c, d, b + c);
    ThreeWordEntry(a, b + c, d, b);
    assert |b + c| > |b|;
  }

  /** Keeping three lines of which only the middle one is an entry. */
  lemma KeptAroundEntry(l0: string, l1: string, l2: string, mountPoint: string)
    requires !IsEntryFor(l0, mountPoint) && IsEntryFor(l1, mountPoint) && !IsEntryFor(l2, mountPoint)
    ensures KeptFstab([l0, l1, l2], mountPoint) == [l0, l2]
  {
    assert KeptFstab([l0], mountPoint) == [l0] by {
      assert [l0][..0] == [];
    }
    assert KeptFstab([l0, l1], mountPoint) == [l0] by {
      assert [l0, l1][..1] == [l0];
    }
    assert [l0, l1, l2][..2] == [l0, l1];
  }

  /** Removing `m` from a file whose lines are `a b`, `src m` and `c d`
      through the fallback as written: the entries for `b` and `d` are kept,
      but the file written back has no entry for `b`. */
  lemma FallbackAsWrittenLosesEntry(a: string, b: string, src: string, m: string, c: string, d: string)
    requires a != [] && NoSpace(a) && a[0] != '#' && b != [] && NoSpace(b)
    requires src != [] && NoSpace(src) && src[0] != '#' && m != [] && NoSpace(m)
    requires c != [] && NoSpace(c) && c[0] != '#' && d != [] && NoSpace(d)
    requires b != m && d != m
    requires '\n' !in a + " " + b + c + " " + d
    ensures var lines := [a + " " + b, src + " " + m, c + " " + d];
            && IsEntryFor(lines[0], b) && IsEntryFor(lines[1], m) && IsEntryFor(lines[2], d)
            && KeptFstab(lines, m) == [lines[0], lines[2]]
            && !HasEntryFor(SplitOn(FallbackTextAsWritten(KeptFstab(lines, m)), '\n'), b)
  {
    var l0, l1, l2 := a + " " + b, src + " " + m, c + " " + d;
    TwoWordEntry(a, b, b);
    TwoWordEntry(a, b, m);
    TwoWordEntry(src, m, m);
    TwoWordEntry(c, d, m);
    TwoWordEntry(c, d, d);
    KeptAroundEntry(l0, l1, l2, m);
    MergedLines(a, b, c, d);
  }

  /** The smallest such file: `x /a`, `s:/r /m`, `y /b`, removing `/m`. */
  lemma FallbackAsWrittenMergesLines()
    ensures var lines := ["x" + " " + "/a", "s:/r" + " " + "/m", "y" + " " + "/b"];
            && KeptFstab(lines, "/m") == [lines[0], lines[2]]
            && !HasEntryFor(SplitOn(FallbackTextAsWritten(KeptFstab(lines, "/m")), '\n'), "/a")
  {
    var x, y, src, ma, mm, mb := "x", "y", "s:/r", "/a", "/m", "/b";
    assert NoSpace(x) && NoSpace(ma) && NoSpace(src) && NoSpace(mm) && NoSpace(y) && NoSpace(mb);
    assert ma != mm && mb != mm by { assert ma[1] != mm[1] && mb[1] != mm[1]; }
    assert '\n' !in x + " " + ma + y + " " + mb by {
      var t := x + " " + ma + y + " " + mb;
      assert |t| == 8;
      assert t[0] == 'x' && t[1] == ' ' && t[2] == '/' && t[3] == 'a' && t[4] == 'y' && t[5] == ' ' && t[6] == '/' && t[7] == 'b';
    }
    FallbackAsWrittenLosesEntry(x, ma, src, mm, y, mb);
  }

  /** Removing `/m` from `x /`, `s:/r /m`, `m y` through the fallback as
      written keeps `x /` and `m y`, which run together into `x /m y`: an
      entry for `/m` again, so the removal leaves what it removed. */
  lemma FallbackAsWrittenKeepsEntry()
    ensures var lines := ["x" + " " + "/", "s:/r" + " " + "/m", "m" + " " + "y"];
            && IsEntryFor(lines[1], "/m")
            && KeptFstab(lines, "/m") == [lines[0], lines[2]]
            && HasEntryFor(SplitOn(FallbackTextAsWritten(KeptFstab(lines, "/m")), '\n'), "/m")
  {
    var x, sl, src, mm, m, y := "x", "/", "s:/r", "/m", "m", "y";
    assert NoSpace(x) && NoSpace(sl) && NoSpace(src) && NoSpace(mm) && NoSpace(m) && NoSpace(y);
    assert sl != mm && y != mm;
    assert sl + m == mm;
    assert '\n' !in x + " " + sl + m + " " + y by {
      var t := x + " " + sl + m + " " + y;
      assert |t| == 6;
      assert t[0] == 'x' && t[1] == ' ' && t[2] == '/' && t[3] == 'm' && t[4] == ' ' && t[5] == 'y';
    }
    TwoWordEntry(x, sl, mm);
    TwoWordEntry(src, mm, mm);
    TwoWordEntry(m, y, mm);
    KeptAroundEntry(x + " " + sl, src + " " + mm, m + " " + y, mm);
    MergedLines(x, sl, m, y);
    var written := SplitOn(FallbackTextAsWritten([x + " " + sl, m + " " + y]), '\n');
    assert IsEntryFor(written[0], mm);
  }

  /** A `writelines` of lines without line breaks holds none. */
  lemma {:induction false} ConcatNoBreak(lines: seq<string>)
    requires forall k :: 0 <= k < |lines| ==> '\n' !in lines[k]
    ensures '\n' !in Concat(lines)
    decreases |lines|
  {
    if lines != [] {
      ConcatNoBreak(lines[1..]);
    }
  }

  /** As written, the fallback writes the kept lines back as one single
      line: read again through `split('\n')`, the table is that one line. */
  lemma FallbackAsWrittenOneLine(out: string, mountPoint: string)
    ensures var text := FallbackTextAsWritten(KeptFstab(SplitOn(out, '\n'), mountPoint));
            SplitOn(text, '\n') == [text]
  {
    var lines := SplitOn(out, '\n');
    var kept := KeptFstab(lines, mountPoint);
    KeptFstabNoEntry(lines, mountPoint);
    forall k | 0 <= k < |kept| ensures '\n' !in kept[k] {
      assert kept[k] in kept;
    }
    ConcatNoBreak(kept);
    SplitOnNoSeparator(FallbackTextAsWritten(kept), '\n');
  }

  /** The corrected fallback writes the kept lines so that `split('\n')` reads
      them back, and no entry for the mount point is left. */
  lemma FallbackThenReadBack(out: string, mountPoint: string)
    requires RemoveEntries(SplitOn(out, '\n'), mountPoint).Ok?
    ensures var kept := RemoveEntries(SplitOn(out, '\n'), mountPoint).value;
            && (kept != [] ==> SplitOn(FallbackText(kept), '\n') == kept)
            && RemoveEntries(SplitOn(FallbackText(kept), '\n'), mountPoint) == Err(FstabMissingEntry)
  {
    var lines := SplitOn(out, '\n');
    var kept := KeptFstab(lines, mountPoint);
    KeptFstabNoEntry(lines, mountPoint);
    if kept != [] {
      forall k | 0 <= k < |kept| ensures '\n' !in kept[k] {
        assert kept[k] in kept;
      }
      SplitOnJoin(kept, '\n');
    } else {
      assert FallbackText(kept) == "";
      assert SplitOn("", '\n') == [""];
      assert Strip("") == "";
      assert !IsEntryFor("", mountPoint);
    }
  }
}
