/** The few Python string operations the NFS manager relies on, restated over
    `string` (a `seq<char>`).  Whitespace is that of `str.isspace()`; line
    boundaries are those of `str.splitlines()`; `str.lower()` folds only
    ASCII letters. */
module Text {

  /** `c.isspace()`: the characters Python's `str.split()` and `str.strip()`
      treat as whitespace. */
  predicate IsSpace(c: char) {
    || c == ' ' || '\t' <= c <= '\r' || '\U{001C}' <= c <= '\U{001F}'
    || c == '\U{0085}' || c == '\U{00A0}' || c == '\U{1680}'
    || '\U{2000}' <= c <= '\U{200A}' || c == '\U{2028}' || c == '\U{2029}'
    || c == '\U{202F}' || c == '\U{205F}' || c == '\U{3000}'
  }

  predicate NoSpace(s: string) {
    forall i :: 0 <= i < |s| ==> !IsSpace(s[i])
  }

  predicate AllSpace(s: string) {
    forall i :: 0 <= i < |s| ==> IsSpace(s[i])
  }

  /** `s.startswith(p)` */
  predicate StartsWith(s: string, p: string) {
    |p| <= |s| && s[..|p|] == p
  }

  /** A prefix of a prefix is a prefix. */
  lemma StartsWithTrans(s: string, q: string, p: string)
    ensures StartsWith(s, q) && StartsWith(q, p) ==> StartsWith(s, p)
  {
    if |q| <= |s| && |p| <= |q| {
      assert s[..|p|] == s[..|q|][..|p|];
    }
  }

  /** `s.endswith(p)` */
  predicate EndsWith(s: string, p: string) {
    |p| <= |s| && s[|s| - |p|..] == p
  }

  /** `p in s` for a substring `p` */
  predicate Contains(s: string, p: string)
    decreases |s|
  {
    StartsWith(s, p) || (s != [] && Contains(s[1..], p))
  }

  /** End of the whitespace run that starts at `i`. */
  function LeadFrom(s: string, i: nat): (n: nat)
    requires i <= |s|
    ensures i <= n <= |s| && (n < |s| ==> !IsSpace(s[n]))
    ensures forall k :: i <= k < n ==> IsSpace(s[k])
    decreases |s| - i
  {
    if i < |s| && IsSpace(s[i]) then LeadFrom(s, i + 1) else i
  }

  /** Start of the whitespace run that ends at `j`, not going below `lo`. */
  function TrailFrom(s: string, lo: nat, j: nat): (n: nat)
    requires lo <= j <= |s|
    ensures lo <= n <= j && (n > lo ==> !IsSpace(s[n - 1]))
    ensures forall k :: n <= k < j ==> IsSpace(s[k])
    decreases j
  {
    if j > lo && IsSpace(s[j - 1]) then TrailFrom(s, lo, j - 1) else j
  }

  /** Where `s.strip()` starts and ends in `s`. */
  function StripStart(s: string): nat {
    LeadFrom(s, 0)
  }

  function StripEnd(s: string): nat {
    TrailFrom(s, LeadFrom(s, 0), |s|)
  }

  /** `s.strip()`: `s` without its leading and trailing whitespace. */
  function Strip(s: string): (r: string)
    ensures |r| <= |s|
  {
    s[StripStart(s)..StripEnd(s)]
  }

  /** The strip neither starts nor ends with whitespace. */
  lemma StripEdges(s: string)
    ensures Strip(s) == [] || (!IsSpace(Strip(s)[0]) && !IsSpace(Strip(s)[|Strip(s)| - 1]))
  {
  }

  /** `s` is its leading whitespace, its strip, then its trailing whitespace. */
  lemma StripParts(s: string)
    ensures StripStart(s) <= StripEnd(s) <= |s|
    ensures s == s[..StripStart(s)] + Strip(s) + s[StripEnd(s)..]
    ensures AllSpace(s[..StripStart(s)]) && AllSpace(s[StripEnd(s)..])
    ensures StripStart(s) == StripEnd(s) ==> StripEnd(s) == |s|
  {
    var lo, hi := StripStart(s), StripEnd(s);
    assert s == s[..lo] + s[lo..hi] + s[hi..];
  }

  /** A string without whitespace is its own strip. */
  lemma {:induction false} StripNoSpace(s: string)
    ensures NoSpace(s) ==> Strip(s) == s
  {
    if NoSpace(s) {
      StripParts(s);
      if s != [] {
        assert !IsSpace(s[0]) && !IsSpace(s[|s| - 1]);
      }
    }
  }

  /** Stripping keeps a leading word that has no whitespace in it. */
  lemma {:induction false} StripKeepsWord(a: string, b: string)
    requires a != [] && NoSpace(a)
    ensures StartsWith(Strip(a + b), a)
  {
    var s := a + b;
    assert s[0] == a[0];
    assert s[|a| - 1] == a[|a| - 1];
    var lo, hi := StripStart(s), StripEnd(s);
    assert lo == 0;
    assert hi >= |a|;
    assert s[lo..hi][..|a|] == s[..|a|] == a;
  }

  lemma AllSpaceConcat(a: string, b: string)
    requires AllSpace(a) && AllSpace(b)
    ensures AllSpace(a + b)
  {
    forall i | 0 <= i < |a + b| ensures IsSpace((a + b)[i]) {
      if i < |a| { assert (a + b)[i] == a[i]; } else { assert (a + b)[i] == b[i - |a|]; }
    }
  }

  /** `s.strip() == ""` holds exactly for the all-whitespace strings. */
  lemma {:induction false} StripEmptyIffBlank(s: string)
    ensures Strip(s) == "" <==> AllSpace(s)
  {
    StripParts(s);
    if Strip(s) == "" {
      AllSpaceConcat(s[..StripStart(s)], s[StripEnd(s)..]);
      assert s == s[..StripStart(s)] + s[StripEnd(s)..];
    }
    if AllSpace(s) && s != [] {
      assert IsSpace(s[0]);
    }
  }

  lemma {:induction false} LeadFromShift(x: string, i: nat)
    requires i <= |x|
    ensures LeadFrom(" " + x, i + 1) == LeadFrom(x, i) + 1
    decreases |x| - i
  {
    var s := " " + x;
    if i < |x| {
      assert s[i + 1] == x[i];
      if IsSpace(x[i]) {
        LeadFromShift(x, i + 1);
      }
    }
  }

  lemma {:induction false} TrailFromShift(x: string, lo: nat, j: nat)
    requires lo <= j <= |x|
    ensures TrailFrom(" " + x, lo + 1, j + 1) == TrailFrom(x, lo, j) + 1
    decreases j
  {
    var s := " " + x;
    if j > lo {
      assert s[j] == x[j - 1];
      if IsSpace(x[j - 1]) {
        TrailFromShift(x, lo, j - 1);
      }
    }
  }

  lemma StripBoundsShift(x: string)
    ensures StripStart(" " + x) == StripStart(x) + 1
    ensures StripEnd(" " + x) == StripEnd(x) + 1
  {
    var s := " " + x;
    assert IsSpace(s[0]);
    assert LeadFrom(s, 0) == LeadFrom(s, 1);
    LeadFromShift(x, 0);
    TrailFromShift(x, StripStart(x), |x|);
  }

  /** Leading whitespace does not change the strip. */
  lemma StripSpaceBefore(x: string)
    ensures Strip(" " + x) == Strip(x)
  {
    var s := " " + x;
    StripBoundsShift(x);
    var a, b := StripStart(x), StripEnd(x);
    assert s[a + 1..b + 1] == x[a..b];
  }

  /** Length of the leading run of non-whitespace characters. */
  function WordLen(s: string): (n: nat)
    ensures n <= |s| && NoSpace(s[..n]) && (n < |s| ==> IsSpace(s[n]))
  {
    if s == [] || IsSpace(s[0]) then 0 else 1 + WordLen(s[1..])
  }

  /** `s.split()` with no separator: the maximal runs of non-whitespace, in order. */
  function Split(s: string): (r: seq<string>)
    ensures forall k :: 0 <= k < |r| ==> r[k] != [] && NoSpace(r[k])
    decreases |s|
  {
    if s == [] then []
    else if IsSpace(s[0]) then Split(s[1..])
    else
      var n := WordLen(s);
      [s[..n]] + Split(s[n..])
  }

  lemma {:induction false} SplitLeadingSpace(w: string, s: string)
    requires AllSpace(w)
    ensures Split(w + s) == Split(s)
    decreases |w|
  {
    if w == [] {
      assert w + s == s;
    } else {
      assert (w + s)[0] == w[0];
      assert (w + s)[1..] == w[1..] + s;
      SplitLeadingSpace(w[1..], s);
    }
  }

  lemma {:induction false} SplitAllSpace(w: string)
    requires AllSpace(w)
    ensures Split(w) == []
  {
    SplitLeadingSpace(w, "");
    assert w + "" == w;
  }

  lemma {:induction false} WordLenConcat(a: string, b: string)
    requires NoSpace(a)
    requires b == [] || IsSpace(b[0])
    ensures WordLen(a + b) == |a|
    decreases |a|
  {
    if a != [] {
      assert (a + b)[1..] == a[1..] + b;
      WordLenConcat(a[1..], b);
    } else {
      assert a + b == b;
    }
  }

  /** A whitespace-free word followed by whitespace (or nothing) is the first token. */
  lemma {:induction false} SplitWord(a: string, b: string)
    requires a != [] && NoSpace(a)
    requires b == [] || IsSpace(b[0])
    ensures Split(a + b) == [a] + Split(b)
  {
    WordLenConcat(a, b);
    assert (a + b)[..|a|] == a;
    assert (a + b)[|a|..] == b;
  }

  lemma {:induction false} SplitTrailingSpace(s: string, w: string)
    requires AllSpace(w)
    ensures Split(s + w) == Split(s)
    decreases |s|
  {
    if s == [] {
      assert s + w == w;
      SplitAllSpace(w);
    } else if IsSpace(s[0]) {
      assert (s + w)[1..] == s[1..] + w;
      SplitTrailingSpace(s[1..], w);
    } else {
      var n := WordLen(s);
      var a := s[..n];
      assert s == a + s[n..];
      if n < |s| {
        WordLenConcat(a, s[n..] + w);
        assert s + w == a + (s[n..] + w);
      } else {
        WordLenConcat(a, w);
        assert s + w == a + w;
      }
      assert (s + w)[..n] == a;
      assert (s + w)[n..] == s[n..] + w;
      SplitTrailingSpace(s[n..], w);
    }
  }

  /** `s.strip().split() == s.split()` */
  lemma {:induction false} SplitStrip(s: string)
    ensures Split(Strip(s)) == Split(s)
  {
    StripParts(s);
    var w1 := s[..StripStart(s)];
    var t := Strip(s);
    var w2 := s[StripEnd(s)..];
    assert s == w1 + (t + w2);
    SplitLeadingSpace(w1, t + w2);
    SplitTrailingSpace(t, w2);
  }

  /** Words joined by single spaces split back into the words. */
  lemma {:induction false} SplitJoinWords(words: seq<string>)
    requires forall k :: 0 <= k < |words| ==> words[k] != [] && NoSpace(words[k])
    ensures Split(Join(words, " ")) == words
    decreases |words|
  {
    if |words| == 1 {
      SplitWord(words[0], "");
      assert words[0] + "" == words[0];
    } else if |words| > 1 {
      var rest := Join(words[1..], " ");
      SplitJoinWords(words[1..]);
      SplitLeadingSpace(" ", rest);
      SplitWord(words[0], " " + rest);
      assert Join(words, " ") == words[0] + (" " + rest);
      assert [words[0]] + words[1..] == words;
    }
  }

  /** The first token of a string that does not start with whitespace is a prefix of it. */
  lemma {:induction false} SplitFirstIsPrefix(s: string)
    requires s != [] && !IsSpace(s[0])
    ensures Split(s) != [] && StartsWith(s, Split(s)[0])
  {
  }

  /** `s.index(c)`: the position of the first `c`. */
  function IndexOf(s: string, c: char): (i: nat)
    requires c in s
    ensures i < |s| && s[i] == c && c !in s[..i]
  {
    if s[0] == c then 0
    else
      assert c in s[1..];
      var j := IndexOf(s[1..], c);
      assert s[..j + 1] == [s[0]] + s[1..][..j];
      j + 1
  }

  /** `s.split(c)` for a one-character separator: never empty, no part holds `c`. */
  function SplitOn(s: string, c: char): (r: seq<string>)
    ensures |r| >= 1
    ensures forall k :: 0 <= k < |r| ==> c !in r[k]
  {
    if s == [] then [""]
    else
      var t := SplitOn(s[1..], c);
      if s[0] == c then [""] + t
      else [[s[0]] + t[0]] + t[1..]
  }

  /** `sep.join(parts)` */
  function Join(parts: seq<string>, sep: string): string {
    if |parts| == 0 then ""
    else if |parts| == 1 then parts[0]
    else parts[0] + sep + Join(parts[1..], sep)
  }

  lemma {:induction false} JoinCons(x: char, t: seq<string>, sep: string)
    requires |t| >= 1
    ensures Join([[x] + t[0]] + t[1..], sep) == [x] + Join(t, sep)
  {
    var p := [[x] + t[0]] + t[1..];
    if |t| > 1 {
      assert p[1..] == t[1..];
    }
  }

  /** Splitting on `c` and joining with `c` gives back the string. */
  lemma {:induction false} JoinSplitOn(s: string, c: char)
    ensures Join(SplitOn(s, c), [c]) == s
  {
    if s != [] {
      var t := SplitOn(s[1..], c);
      JoinSplitOn(s[1..], c);
      if s[0] == c {
        assert ([""] + t)[1..] == t;
        assert s == [c] + s[1..];
      } else {
        JoinCons(s[0], t, [c]);
        assert s == [s[0]] + s[1..];
      }
    }
  }

  lemma {:induction false} SplitOnSeparated(a: string, t: string, c: char)
    requires c !in a
    ensures SplitOn(a + [c] + t, c) == [a] + SplitOn(t, c)
    decreases |a|
  {
    var s := a + [c] + t;
    if a == [] {
      assert s[1..] == t;
    } else {
      assert s[1..] == a[1..] + [c] + t;
      SplitOnSeparated(a[1..], t, c);
      assert [a[0]] + a[1..] == a;
    }
  }

  lemma {:induction false} SplitOnNoSeparator(a: string, c: char)
    requires c !in a
    ensures SplitOn(a, c) == [a]
    decreases |a|
  {
    if a != [] {
      SplitOnNoSeparator(a[1..], c);
      assert [a[0]] + a[1..] == a;
    }
  }

  /** Joining separator-free parts with `c` and splitting on `c` gives back the parts. */
  lemma {:induction false} SplitOnJoin(parts: seq<string>, c: char)
    requires |parts| >= 1
    requires forall k :: 0 <= k < |parts| ==> c !in parts[k]
    ensures SplitOn(Join(parts, [c]), c) == parts
  {
    if |parts| == 1 {
      SplitOnNoSeparator(parts[0], c);
    } else {
      SplitOnJoin(parts[1..], c);
      SplitOnSeparated(parts[0], Join(parts[1..], [c]), c);
      assert [parts[0]] + parts[1..] == parts;
    }
  }

  /** Splitting on `c` around an occurrence of `c` splits each side apart. */
  lemma {:induction false} SplitOnAppend(x: string, y: string, c: char)
    ensures SplitOn(x + [c] + y, c) == SplitOn(x, c) + SplitOn(y, c)
    decreases |x|
  {
    if x == [] {
      assert x + [c] + y == [c] + y;
      SplitOnSep(y, c);
      assert SplitOn(x, c) == [""];
    } else {
      var t := x[1..];
      assert SplitOn(x + [c] + y, c) == SplitOn([x[0]] + (t + [c] + y), c) by {
        assert x + [c] + y == [x[0]] + (t + [c] + y);
      }
      assert SplitOn(x, c) == SplitOn([x[0]] + t, c) by {
        assert x == [x[0]] + t;
      }
      SplitOnAppend(t, y, c);
      SplitOnConsAppend(x[0], t + [c] + y, t, y, c);
    }
  }

  /** The inductive step of `SplitOnAppend`: one more character in front. */
  lemma SplitOnConsAppend(ch: char, w: string, t: string, y: string, c: char)
    requires SplitOn(w, c) == SplitOn(t, c) + SplitOn(y, c)
    ensures SplitOn([ch] + w, c) == SplitOn([ch] + t, c) + SplitOn(y, c)
  {
    if ch == c {
      SplitOnSep(w, c);
      SplitOnSep(t, c);
      ConsAssoc("", SplitOn(t, c), SplitOn(y, c));
    } else {
      SplitOnOther(ch, w, c);
      SplitOnOther(ch, t, c);
      MergeFirst([ch], SplitOn(t, c), SplitOn(y, c));
    }
  }

  lemma ConsAssoc(h: string, u: seq<string>, v: seq<string>)
    ensures [h] + (u + v) == ([h] + u) + v
  {
  }

  lemma MergeFirst(p: string, u: seq<string>, v: seq<string>)
    requires u != []
    ensures [p + (u + v)[0]] + (u + v)[1..] == ([p + u[0]] + u[1..]) + v
  {
    assert (u + v)[0] == u[0];
    assert (u + v)[1..] == u[1..] + v;
  }

  /** A separator in front starts a new, empty part. */
  lemma SplitOnSep(t: string, c: char)
    ensures SplitOn([c] + t, c) == [""] + SplitOn(t, c)
  {
    assert ([c] + t)[0] == c && ([c] + t)[1..] == t;
  }

  /** Any other character in front joins the first part. */
  lemma SplitOnOther(ch: char, t: string, c: char)
    requires ch != c
    ensures SplitOn([ch] + t, c) == [[ch] + SplitOn(t, c)[0]] + SplitOn(t, c)[1..]
  {
    assert ([ch] + t)[0] == ch && ([ch] + t)[1..] == t;
  }

  lemma {:induction false} JoinSnoc(parts: seq<string>, x: string, sep: string)
    requires |parts| >= 1
    ensures Join(parts + [x], sep) == Join(parts, sep) + sep + x
  {
    if |parts| > 1 {
      assert (parts + [x])[1..] == parts[1..] + [x];
      JoinSnoc(parts[1..], x, sep);
    }
  }

  /** The line boundaries of `str.splitlines()`. */
  predicate IsLineBreak(c: char) {
    || c == '\n' || c == '\r' || c == '\U{000B}' || c == '\U{000C}'
    || c == '\U{001C}' || c == '\U{001D}' || c == '\U{001E}'
    || c == '\U{0085}' || c == '\U{2028}' || c == '\U{2029}'
  }

  predicate NoBreak(s: string) {
    forall i :: 0 <= i < |s| ==> !IsLineBreak(s[i])
  }

  /** Two single lines joined by a space are one line. */
  lemma NoBreakSpaced(a: string, b: string)
    requires NoBreak(a) && NoBreak(b)
    ensures NoBreak(a + " " + b)
  {
    var x := a + " " + b;
    forall i | 0 <= i < |x| ensures !IsLineBreak(x[i]) {
      if i < |a| { assert x[i] == a[i]; }
      else if i > |a| { assert x[i] == b[i - |a| - 1]; }
    }
  }

  /** Every line boundary is whitespace, so a word has no line boundary in it. */
  lemma NoSpaceNoBreak(s: string)
    requires NoSpace(s)
    ensures NoBreak(s)
  {
  }

  /** Length of the text before the first line boundary. */
  function LineLen(s: string): (n: nat)
    ensures n <= |s| && NoBreak(s[..n])
    ensures n < |s| ==> IsLineBreak(s[n])
  {
    if s == [] || IsLineBreak(s[0]) then 0 else 1 + LineLen(s[1..])
  }

  /** Length of the boundary at the start of `s`: `"\r\n"` counts as one. */
  function BreakLen(s: string): nat
    requires s != []
  {
    if |s| >= 2 && s[0] == '\r' && s[1] == '\n' then 2 else 1
  }

  /** `s.splitlines()`: the lines of `s` without their boundaries; a final
      boundary does not open an empty last line. */
  function SplitLines(s: string): (r: seq<string>)
    ensures forall k :: 0 <= k < |r| ==> NoBreak(r[k])
    decreases |s|
  {
    if s == [] then []
    else
      var n := LineLen(s);
      if n == |s| then [s]
      else [s[..n]] + SplitLines(s[n + BreakLen(s[n..])..])
  }

  /** `"\n".join(lines) + "\n"`, the way every rewriter serialises its lines. */
  function LinesText(lines: seq<string>): string {
    Join(lines, "\n") + "\n"
  }

  /** A line followed by `'\n'` and more text splits off as the first line. */
  lemma {:induction false} SplitLinesFirst(line: string, rest: string)
    requires NoBreak(line)
    ensures SplitLines(line + "\n" + rest) == [line] + SplitLines(rest)
  {
    var s := line + "\n" + rest;
    LineLenConcat(line, "\n" + rest);
    assert s == line + ("\n" + rest);
    assert s[|line|..] == "\n" + rest;
    assert s[..|line|] == line;
    assert s[|line| + 1..] == rest;
  }

  lemma {:induction false} LineLenConcat(a: string, b: string)
    requires NoBreak(a)
    requires b != [] && IsLineBreak(b[0])
    ensures LineLen(a + b) == |a|
    decreases |a|
  {
    if a != [] {
      assert (a + b)[1..] == a[1..] + b;
      LineLenConcat(a[1..], b);
    } else {
      assert a + b == b;
    }
  }

  /** Reading back what `LinesText` wrote gives the same lines. */
  lemma {:induction false} LinesTextRoundTrip(lines: seq<string>)
    requires |lines| >= 1
    requires forall k :: 0 <= k < |lines| ==> NoBreak(lines[k])
    ensures SplitLines(LinesText(lines)) == lines
    decreases |lines|
  {
    if |lines| == 1 {
      assert LinesText(lines) == lines[0] + "\n" + "" by {
        assert Join(lines, "\n") == lines[0];
      }
      SplitLinesFirst(lines[0], "");
      assert [lines[0]] + SplitLines("") == lines;
    } else {
      var tail := lines[1..];
      assert LinesText(lines) == lines[0] + "\n" + LinesText(tail) by {
        LinesTextCons(lines[0], tail);
        assert [lines[0]] + tail == lines;
      }
      assert SplitLines(LinesText(tail)) == tail by {
        LinesTextRoundTrip(tail);
      }
      SplitLinesFirst(lines[0], LinesText(tail));
      assert [lines[0]] + tail == lines;
    }
  }

  /** A table of more than one line is its first line, a line break, then the rest. */
  lemma LinesTextCons(line: string, tail: seq<string>)
    requires tail != []
    ensures LinesText([line] + tail) == line + "\n" + LinesText(tail)
  {
    assert ([line] + tail)[1..] == tail;
  }

  /** The empty table is written as a single line break, which reads back as one empty line. */
  lemma EmptyLinesText()
    ensures LinesText([]) == "\n" && SplitLines(LinesText([])) == [""]
  {
    assert LineLen("\n") == 0;
    assert "\n"[1..] == "";
  }

  /** `s.replace(p, "")`: every non-overlapping occurrence of `p`, scanned left to right, removed. */
  function RemoveAll(s: string, p: string): string
    decreases |s|
  {
    if p == [] || |s| < |p| then s
    else if s[..|p|] == p then RemoveAll(s[|p|..], p)
    else [s[0]] + RemoveAll(s[1..], p)
  }

  /** Removal stops at a string whose characters cannot start `p`. */
  lemma {:induction false} RemoveAllBeforeSuffix(t: string, p: string)
    requires p != [] && p[0] !in t
    ensures RemoveAll(t + p, p) == t
    decreases |t|
  {
    var s := t + p;
    if t == [] {
      assert s[..|p|] == p && s[|p|..] == [];
    } else {
      assert s[0] == t[0];
      assert s[..|p|] != p;
      assert s[1..] == t[1..] + p;
      RemoveAllBeforeSuffix(t[1..], p);
      assert [t[0]] + t[1..] == t;
    }
  }

  /** Lower-casing keeps whitespace where it was. */
  lemma {:induction false} LeadFromLower(s: string, i: nat)
    requires i <= |s|
    ensures LeadFrom(Lower(s), i) == LeadFrom(s, i)
    decreases |s| - i
  {
    if i < |s| {
      assert IsSpace(Lower(s)[i]) == IsSpace(s[i]);
      LeadFromLower(s, i + 1);
    }
  }

  lemma {:induction false} TrailFromLower(s: string, lo: nat, j: nat)
    requires lo <= j <= |s|
    ensures TrailFrom(Lower(s), lo, j) == TrailFrom(s, lo, j)
    decreases j
  {
    if j > lo {
      assert IsSpace(Lower(s)[j - 1]) == IsSpace(s[j - 1]);
      TrailFromLower(s, lo, j - 1);
    }
  }

  lemma StripBoundsLower(s: string)
    ensures StripStart(Lower(s)) == StripStart(s) && StripEnd(Lower(s)) == StripEnd(s)
  {
    LeadFromLower(s, 0);
    TrailFromLower(s, LeadFrom(s, 0), |s|);
  }

  /** Lower-casing commutes with taking a slice. */
  lemma LowerSlice(s: string, lo: nat, hi: nat)
    requires lo <= hi <= |s|
    ensures Lower(s[lo..hi]) == Lower(s)[lo..hi]
  {
    var a, b := Lower(s[lo..hi]), Lower(s)[lo..hi];
    forall i | 0 <= i < |a| ensures a[i] == b[i] {
      assert a[i] == LowerChar(s[lo + i]);
    }
  }

  /** `s.strip().lower() == s.lower().strip()` */
  lemma StripLower(s: string)
    ensures Lower(Strip(s)) == Strip(Lower(s))
  {
    var l := Lower(s);
    StripBoundsLower(s);
    StripParts(s);
    var lo, hi := StripStart(s), StripEnd(s);
    assert Strip(l) == l[lo..hi];
    LowerSlice(s, lo, hi);
  }

  /** `c.lower()` for ASCII letters. */
  function LowerChar(c: char): char {
    if 'A' <= c <= 'Z' then (c as int + 32) as char else c
  }

  /** `s.lower()` for ASCII text. */
  function Lower(s: string): (r: string)
    ensures |r| == |s| && forall i :: 0 <= i < |s| ==> r[i] == LowerChar(s[i])
  {
    seq(|s|, i requires 0 <= i < |s| => LowerChar(s[i]))
  }

  /** Three whitespace-free strings run together hold no whitespace. */
  lemma NoSpaceJoin3(a: string, b: string, c: string)
    requires NoSpace(a) && NoSpace(b) && NoSpace(c)
    ensures NoSpace(a + b + c)
  {
    var s := a + b + c;
    forall i | 0 <= i < |s| ensures !IsSpace(s[i]) {
      if i < |a| { assert s[i] == a[i]; }
      else if i < |a| + |b| { assert s[i] == b[i - |a|]; }
      else { assert s[i] == c[i - |a| - |b|]; }
    }
  }

  /** A text whose first character is not `c` does not start with `c`. */
  lemma FirstCharNotPrefix(t: string, c: char)
    ensures t != "" && t[0] != c ==> !StartsWith(t, [c])
  {
    if t != "" {
      assert t[..1][0] == t[0];
    }
  }
}
