/**
 * The Python string and path built-ins the core relies on, written out:
 * `str.isspace`/`str.strip`, `str.splitlines`, `str.split("\n")`, `sep.join`,
 * `str.startswith`/`endswith`, the `in` substring test, `str.replace(p, "")`,
 * `str.lower` (ASCII letters only), and `os.path.join`/`os.path.basename`
 * for POSIX paths.
 */
module Text {

  // ---------------------------------------------------------------------------
  // Whitespace and stripping
  // ---------------------------------------------------------------------------

  /** The characters Python's `str.isspace` accepts. */
  predicate IsSpace(c: char) {
    || ('\t' <= c <= '\r')
    || ('\U{1C}' <= c <= '\U{1F}')
    || c == ' '
    || c == '\U{85}'
    || c == '\U{A0}'
    || c == '\U{1680}'
    || ('\U{2000}' <= c <= '\U{200A}')
    || c == '\U{2028}'
    || c == '\U{2029}'
    || c == '\U{202F}'
    || c == '\U{205F}'
    || c == '\U{3000}'
  }

  /** Neither end of `s` is whitespace: `s.strip()` leaves it alone. */
  predicate IsStripped(s: string) {
    s == [] || (!IsSpace(s[0]) && !IsSpace(s[|s| - 1]))
  }

  function StripLeft(s: string): (r: string)
    ensures |r| <= |s| && r == s[|s| - |r|..]
    ensures r == [] || !IsSpace(r[0])
    ensures forall i :: 0 <= i < |s| - |r| ==> IsSpace(s[i])
    decreases |s|
  {
    if s != [] && IsSpace(s[0]) then StripLeft(s[1..]) else s
  }

  function StripRight(s: string): (r: string)
    ensures |r| <= |s| && r == s[..|r|]
    ensures r == [] || !IsSpace(r[|r| - 1])
    ensures forall i :: |r| <= i < |s| ==> IsSpace(s[i])
    decreases |s|
  {
    if s != [] && IsSpace(s[|s| - 1]) then StripRight(s[..|s| - 1]) else s
  }

  /** `s.strip()`: the longest middle slice of `s` with no whitespace at either end. */
  function Strip(s: string): (r: string)
    ensures IsStripped(r)
    ensures |r| <= |s|
  {
    var l := StripLeft(s);
    var r := StripRight(l);
    assert r != [] ==> r[0] == l[0];
    r
  }

  /** Stripping changes a string exactly when one of its ends is whitespace. */
  lemma StripIdentity(s: string)
    ensures Strip(s) == s <==> IsStripped(s)
  {
    if IsStripped(s) && s != [] {
      assert StripLeft(s) == s;
      assert StripRight(s) == s;
    }
  }

  /** Stripping twice is stripping once. */
  lemma StripIdempotent(s: string)
    ensures Strip(Strip(s)) == Strip(s)
  {
    StripIdentity(Strip(s));
  }

  /** Strip(s) is blank exactly when every character of s is whitespace. */
  lemma StripBlank(s: string)
    ensures Strip(s) == [] <==> forall i :: 0 <= i < |s| ==> IsSpace(s[i])
  {
    var l := StripLeft(s);
    if Strip(s) == [] {
    } else {
      assert !IsSpace(l[0]);
      assert s[|s| - |l|] == l[0];
    }
  }

  // ---------------------------------------------------------------------------
  // Case folding
  // ---------------------------------------------------------------------------

  function LowerChar(c: char): char {
    if 'A' <= c <= 'Z' then (c as int + 32) as char else c
  }

  /** `s.lower()` restricted to ASCII letters. */
  function Lower(s: string): (r: string)
    ensures |r| == |s|
    ensures forall i :: 0 <= i < |s| ==> r[i] == LowerChar(s[i])
  {
    seq(|s|, i requires 0 <= i < |s| => LowerChar(s[i]))
  }

  // ---------------------------------------------------------------------------
  // Prefixes, suffixes, substrings
  // ---------------------------------------------------------------------------

  predicate StartsWith(s: string, p: string) {
    |p| <= |s| && s[..|p|] == p
  }

  predicate EndsWith(s: string, p: string) {
    |p| <= |s| && s[|s| - |p|..] == p
  }

  /** Python's `p in s`: `p` occurs somewhere in `s` (the empty string occurs everywhere). */
  predicate Contains(s: string, p: string)
    decreases |s|
  {
    StartsWith(s, p) || (s != [] && Contains(s[1..], p))
  }

  lemma ContainsEmpty(s: string)
    ensures Contains(s, [])
  {
    assert StartsWith(s, []);
  }

  /** `s.replace(p, "")`: every non-overlapping occurrence of `p`, scanned left to right, removed. */
  function RemoveAll(s: string, p: string): (r: string)
    ensures |r| <= |s|
    decreases |s|
  {
    if p == [] then s
    else if s == [] then []
    else if StartsWith(s, p) then RemoveAll(s[|p|..], p)
    else [s[0]] + RemoveAll(s[1..], p)
  }

  /** Removing a pattern that does not occur leaves the string unchanged. */
  lemma {:induction false} RemoveAllAbsent(s: string, p: string)
    requires !Contains(s, p)
    ensures RemoveAll(s, p) == s
    decreases |s|
  {
    if p == [] {
    } else if s == [] {
    } else {
      assert !StartsWith(s, p);
      RemoveAllAbsent(s[1..], p);
      assert s == [s[0]] + s[1..];
    }
  }

  /** A marker line `p + u` loses exactly its marker when `u` does not contain `p`. */
  lemma RemoveMarker(p: string, u: string)
    requires !Contains(u, p)
    ensures RemoveAll(p + u, p) == u
  {
    if p == [] {
      ContainsEmpty(u);
    } else {
      assert StartsWith(p + u, p);
      assert (p + u)[|p|..] == u;
      RemoveAllAbsent(u, p);
    }
  }

  // ---------------------------------------------------------------------------
  // Lines
  // ---------------------------------------------------------------------------

  /** The line boundaries of Python's `str.splitlines` (`\r\n` counts as one). */
  predicate IsLineBreak(c: char) {
    || c == '\n' || c == '\r' || c == '\U{0B}' || c == '\U{0C}'
    || c == '\U{1C}' || c == '\U{1D}' || c == '\U{1E}' || c == '\U{85}'
    || c == '\U{2028}' || c == '\U{2029}'
  }

  predicate NoLineBreak(s: string) {
    forall i :: 0 <= i < |s| ==> !IsLineBreak(s[i])
  }

  /** The only line boundaries in `s` are `\n`. */
  predicate OnlyNewlines(s: string) {
    forall i :: 0 <= i < |s| ==> IsLineBreak(s[i]) ==> s[i] == '\n'
  }

  /** Index of the first line boundary in `s`, or `|s|`. */
  function FirstBreak(s: string): (i: nat)
    ensures i <= |s|
    ensures NoLineBreak(s[..i])
    ensures i < |s| ==> IsLineBreak(s[i])
    decreases |s|
  {
    if s == [] || IsLineBreak(s[0]) then 0
    else
      var j := FirstBreak(s[1..]);
      assert s[..j + 1] == [s[0]] + s[1..][..j];
      j + 1
  }

  /** `s.splitlines()`: no trailing empty line after a final boundary. */
  function SplitLines(s: string): (lines: seq<string>)
    ensures forall k :: 0 <= k < |lines| ==> NoLineBreak(lines[k])
    decreases |s|
  {
    if s == [] then []
    else
      var i := FirstBreak(s);
      if i == |s| then [s]
      else
        var width := if s[i] == '\r' && i + 1 < |s| && s[i + 1] == '\n' then 2 else 1;
        [s[..i]] + SplitLines(s[i + width..])
  }

  lemma FirstBreakAt(x: string, rest: string)
    requires NoLineBreak(x)
    ensures FirstBreak(x + "\n" + rest) == |x|
    decreases |x|
  {
    if x != [] {
      assert (x + "\n" + rest)[1..] == x[1..] + "\n" + rest;
      FirstBreakAt(x[1..], rest);
    }
  }

  /** A line without boundaries followed by `\n` is split off as one line. */
  lemma SplitLinesCons(x: string, rest: string)
    requires NoLineBreak(x)
    ensures SplitLines(x + "\n" + rest) == [x] + SplitLines(rest)
  {
    var s := x + "\n" + rest;
    FirstBreakAt(x, rest);
    assert s[..|x|] == x;
    assert s[|x| + 1..] == rest;
  }

  /** Index of the first `c` in `s`, or `|s|`. */
  function IndexOf(s: string, c: char): (i: nat)
    ensures i <= |s|
    ensures forall j :: 0 <= j < i ==> s[j] != c
    ensures i < |s| ==> s[i] == c
    decreases |s|
  {
    if s == [] then 0
    else if s[0] == c then 0
    else IndexOf(s[1..], c) + 1
  }

  /** `s.split(sep)` for a one-character separator. */
  function SplitOn(s: string, sep: char): (parts: seq<string>)
    ensures |parts| >= 1
    decreases |s|
  {
    var i := IndexOf(s, sep);
    if i == |s| then [s] else [s[..i]] + SplitOn(s[i + 1..], sep)
  }

  /** `sep.join(parts)`. */
  function Join(sep: string, parts: seq<string>): string
    decreases |parts|
  {
    if parts == [] then ""
    else if |parts| == 1 then parts[0]
    else parts[0] + sep + Join(sep, parts[1..])
  }

  /** Joining one more part appends the separator and the part. */
  lemma {:induction false} JoinSnoc(sep: string, parts: seq<string>, x: string)
    ensures Join(sep, parts + [x]) == if parts == [] then x else Join(sep, parts) + sep + x
    decreases |parts|
  {
    if |parts| > 1 {
      assert (parts + [x])[1..] == parts[1..] + [x];
      JoinSnoc(sep, parts[1..], x);
    }
  }

  /** A join starts with its first part. */
  lemma {:induction false} JoinStartsWithFirst(sep: string, parts: seq<string>)
    requires parts != []
    ensures StartsWith(Join(sep, parts), parts[0])
  {
    if |parts| > 1 {
      assert Join(sep, parts) == parts[0] + (sep + Join(sep, parts[1..]));
    }
  }

  /** Splitting on `\n` and joining with `\n` gives the text back. */
  lemma {:induction false} JoinSplit(s: string)
    ensures Join("\n", SplitOn(s, '\n')) == s
    decreases |s|
  {
    var i := IndexOf(s, '\n');
    if i < |s| {
      JoinSplit(s[i + 1..]);
      assert s == s[..i] + "\n" + s[i + 1..];
    }
  }

  /** A block whose only boundaries are `\n`, closed by one more `\n`, splits like `split("\n")`. */
  lemma {:induction false} SplitLinesBlock(c: string)
    requires OnlyNewlines(c)
    ensures SplitLines(c + "\n") == SplitOn(c, '\n')
    decreases |c|
  {
    var i := IndexOf(c, '\n');
    var line := c[..i];
    NoBreakBeforeNewline(c, i);
    if i == |c| {
      assert c + "\n" == line + "\n" + "";
      SplitLinesCons(line, "");
    } else {
      var rest := c[i + 1..];
      assert c + "\n" == line + "\n" + (rest + "\n");
      SplitLinesCons(line, rest + "\n");
      OnlyNewlinesSuffix(c, i + 1);
      SplitLinesBlock(rest);
    }
  }

  /** Before its first `\n`, a block whose only boundaries are `\n` has no boundary. */
  lemma NoBreakBeforeNewline(c: string, i: nat)
    requires OnlyNewlines(c) && i <= |c|
    requires forall j :: 0 <= j < i ==> c[j] != '\n'
    ensures NoLineBreak(c[..i])
  {
    forall j | 0 <= j < i ensures !IsLineBreak(c[..i][j]) {
      assert c[..i][j] == c[j];
    }
  }

  /** A suffix keeps the property that the only boundaries are `\n`. */
  lemma OnlyNewlinesSuffix(c: string, k: nat)
    requires OnlyNewlines(c) && k <= |c|
    ensures OnlyNewlines(c[k..])
  {
    forall j | 0 <= j < |c| - k ensures IsLineBreak(c[k..][j]) ==> c[k..][j] == '\n' {
      assert c[k..][j] == c[k + j];
    }
  }

  // ---------------------------------------------------------------------------
  // POSIX paths
  // ---------------------------------------------------------------------------

  /** `os.path.join(a, b)`: an absolute `b` replaces `a`; otherwise one `/` separates them. */
  function PathJoin(a: string, b: string): (r: string)
    ensures EndsWith(r, b)
  {
    if StartsWith(b, "/") then b
    else if a == [] || EndsWith(a, "/") then
      assert (a + b)[|a + b| - |b|..] == b;
      a + b
    else
      assert (a + "/" + b)[|a + "/" + b| - |b|..] == b;
      a + "/" + b
  }

  /** `os.path.basename(p)`: the part after the last `/`. */
  function Basename(p: string): (r: string)
    ensures EndsWith(p, r)
    ensures forall i :: 0 <= i < |r| ==> r[i] != '/'
    decreases |p|
  {
    if p == [] || p[|p| - 1] == '/' then []
    else
      var r := Basename(p[..|p| - 1]) + [p[|p| - 1]];
      assert p[|p| - |r|..] == p[..|p| - 1][|p| - 1 - (|r| - 1)..] + [p[|p| - 1]];
      r
  }
}
