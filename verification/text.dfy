/**
 The JavaScript string primitives the cpuinfo parser relies on, with their
 ECMAScript semantics: `indexOf`, `split` on the pattern /\r\n|\n/, `split`
 on a one-character separator, and `trim`.
 */
module Text {

  /** `pat` occurs in `s` starting at index `i`. */
  predicate OccursAt(s: string, pat: string, i: nat) {
    i + |pat| <= |s| && s[i..i + |pat|] == pat
  }

  /** `pat` occurs somewhere in `s`. */
  ghost predicate Contains(s: string, pat: string) {
    exists i: nat :: OccursAt(s, pat, i)
  }

  /** `s.indexOf(pat)`: the first index at which `pat` occurs, or -1. */
  function IndexOf(s: string, pat: string): (r: int)
    ensures -1 <= r
    ensures r >= 0 ==> OccursAt(s, pat, r) && forall j: nat :: j < r ==> !OccursAt(s, pat, j)
    ensures r == -1 <==> !Contains(s, pat)
  {
    IndexFrom(s, pat, 0)
  }

  /** The first occurrence of `pat` in `s` at or after `from`, or -1. */
  function IndexFrom(s: string, pat: string, from: nat): (r: int)
    ensures r == -1 || (from <= r && OccursAt(s, pat, r))
    ensures forall j: nat :: from <= j && (r == -1 || j < r) ==> !OccursAt(s, pat, j)
    decreases |s| - from
  {
    if from + |pat| > |s| then -1
    else if s[from..from + |pat|] == pat then from
    else IndexFrom(s, pat, from + 1)
  }

  // ---------------------------------------------------------------------------
  // Splitting a file into lines: contents.split(/\r\n|\n/)
  // ---------------------------------------------------------------------------

  /**
   Splits `s` at every match of /\r\n|\n/, scanning left to right: at each
   position "\r\n" is tried before "\n", so a carriage return is a separator
   only when a line feed follows it.
   */
  function SplitLines(s: string): (lines: seq<string>)
    ensures |lines| >= 1
    ensures forall i :: 0 <= i < |lines| ==> '\n' !in lines[i]
    decreases |s|
  {
    if |s| == 0 then [""]
    else if s[0] == '\n' then [""] + SplitLines(s[1..])
    else if |s| >= 2 && s[0] == '\r' && s[1] == '\n' then [""] + SplitLines(s[2..])
    else
      var rest := SplitLines(s[1..]);
      [[s[0]] + rest[0]] + rest[1..]
  }

  /** The separator matched between consecutive lines of `SplitLines(s)`. */
  function LineSeparators(s: string): (seps: seq<string>)
    ensures |seps| == |SplitLines(s)| - 1
    ensures forall i :: 0 <= i < |seps| ==> seps[i] == "\n" || seps[i] == "\r\n"
    decreases |s|
  {
    if |s| == 0 then []
    else if s[0] == '\n' then ["\n"] + LineSeparators(s[1..])
    else if |s| >= 2 && s[0] == '\r' && s[1] == '\n' then ["\r\n"] + LineSeparators(s[2..])
    else LineSeparators(s[1..])
  }

  /** Lines glued back together, `seps[i]` between `lines[i]` and `lines[i + 1]`. */
  function JoinLines(lines: seq<string>, seps: seq<string>): string
    requires |lines| >= 1 && |seps| == |lines| - 1
  {
    if |lines| == 1 then lines[0]
    else lines[0] + seps[0] + JoinLines(lines[1..], seps[1..])
  }

  /** Putting one more character in front of the first line. */
  lemma JoinLinesCons(c: char, lines: seq<string>, seps: seq<string>)
    requires |lines| >= 1 && |seps| == |lines| - 1
    ensures JoinLines([[c] + lines[0]] + lines[1..], seps) == [c] + JoinLines(lines, seps)
  {
    var lines' := [[c] + lines[0]] + lines[1..];
    assert lines'[1..] == lines[1..];
  }

  /** Joining a line and a separator in front of more lines. */
  lemma JoinLinesFront(x: string, sep: string, lines: seq<string>, seps: seq<string>)
    requires |lines| >= 1 && |seps| == |lines| - 1
    ensures JoinLines([x] + lines, [sep] + seps) == x + sep + JoinLines(lines, seps)
  {
    assert ([x] + lines)[1..] == lines && ([sep] + seps)[1..] == seps;
  }

  /** Splitting loses nothing: the lines and the matched separators rebuild the file. */
  lemma {:induction false} SplitLinesJoin(s: string)
    ensures JoinLines(SplitLines(s), LineSeparators(s)) == s
    decreases |s|
  {
    if |s| == 0 {
    } else if s[0] == '\n' {
      SplitLinesJoin(s[1..]);
      JoinLinesFront("", "\n", SplitLines(s[1..]), LineSeparators(s[1..]));
      assert "" + "\n" + s[1..] == s;
    } else if |s| >= 2 && s[0] == '\r' && s[1] == '\n' {
      SplitLinesJoin(s[2..]);
      JoinLinesFront("", "\r\n", SplitLines(s[2..]), LineSeparators(s[2..]));
      assert "" + "\r\n" + s[2..] == s;
    } else {
      SplitLinesJoin(s[1..]);
      JoinLinesCons(s[0], SplitLines(s[1..]), LineSeparators(s[1..]));
      assert [s[0]] + s[1..] == s;
    }
  }

  /** Line `x` sits in front of `t` without creating or swallowing a separator. */
  lemma {:induction false} SplitLinesPrefix(x: string, t: string)
    requires '\n' !in x
    requires !(|x| > 0 && x[|x| - 1] == '\r' && |t| > 0 && t[0] == '\n')
    ensures SplitLines(x + t) == [x + SplitLines(t)[0]] + SplitLines(t)[1..]
    decreases |x|
  {
    if |x| == 0 {
      assert x + t == t;
      assert x + SplitLines(t)[0] == SplitLines(t)[0];
      assert SplitLines(t) == [SplitLines(t)[0]] + SplitLines(t)[1..];
    } else {
      var s := x + t;
      assert s[0] == x[0];
      assert s[1..] == x[1..] + t;
      SplitLinesPrefix(x[1..], t);
      if |x| == 1 {
        assert s[1..] == t;
      } else {
        assert s[1] == x[1];
      }
      assert [x[0]] + (x[1..] + SplitLines(t)[0]) == x + SplitLines(t)[0];
    }
  }

  /**
   The converse round trip: joining lines that hold no line feed, with a bare
   "\n" never placed after a line ending in a carriage return, splits back
   into exactly those lines.
   */
  lemma {:induction false} JoinLinesSplit(lines: seq<string>, seps: seq<string>)
    requires |lines| >= 1 && |seps| == |lines| - 1
    requires forall i :: 0 <= i < |lines| ==> '\n' !in lines[i]
    requires forall i :: 0 <= i < |seps| ==> seps[i] == "\n" || seps[i] == "\r\n"
    requires forall i :: 0 <= i < |seps| && seps[i] == "\n" && |lines[i]| > 0 ==> lines[i][|lines[i]| - 1] != '\r'
    ensures SplitLines(JoinLines(lines, seps)) == lines
    decreases |lines|
  {
    if |lines| == 1 {
      SplitLinesPrefix(lines[0], "");
      assert lines[0] + "" == lines[0];
    } else {
      var rest := JoinLines(lines[1..], seps[1..]);
      JoinLinesSplit(lines[1..], seps[1..]);
      SplitAfterSeparator(seps[0], rest);
      var t := seps[0] + rest;
      assert lines[0] + seps[0] + rest == lines[0] + t;
      assert t[0] == seps[0][0];
      SplitLinesPrefix(lines[0], t);
      assert lines[0] + "" == lines[0];
    }
  }

  /** A separator at the front of a text starts it with an empty line. */
  lemma SplitAfterSeparator(sep: string, rest: string)
    requires sep == "\n" || sep == "\r\n"
    ensures SplitLines(sep + rest) == [""] + SplitLines(rest)
  {
    var t := sep + rest;
    if sep == "\n" {
      assert t[0] == '\n' && t[1..] == rest;
    } else {
      assert t[0] == '\r' && t[1] == '\n' && t[2..] == rest;
    }
  }

  /** Text without a line feed is a single line. */
  lemma OneLine(x: string)
    requires '\n' !in x
    ensures SplitLines(x) == [x]
  {
    SplitLinesPrefix(x, "");
    assert x + "" == x;
  }

  /** A line and a separator in front of a text add exactly that line in front of its lines. */
  lemma SplitFront(x: string, sep: string, rest: string)
    requires '\n' !in x
    requires sep == "\r\n" || (sep == "\n" && (|x| > 0 ==> x[|x| - 1] != '\r'))
    ensures SplitLines(x + sep + rest) == [x] + SplitLines(rest)
  {
    SplitAfterSeparator(sep, rest);
    var t := sep + rest;
    assert t[0] == sep[0];
    SplitLinesPrefix(x, t);
    assert x + sep + rest == x + t;
    assert x + "" == x;
  }

  // ---------------------------------------------------------------------------
  // Splitting a line at a separator character: line.split(':')
  // ---------------------------------------------------------------------------

  /** `s.split(c)` for a one-character separator: every occurrence of `c` cuts. */
  function SplitOn(s: string, c: char): (parts: seq<string>)
    ensures |parts| >= 1
    ensures forall i :: 0 <= i < |parts| ==> c !in parts[i]
    ensures |parts| == 1 <==> c !in s
    decreases |s|
  {
    if |s| == 0 then [""]
    else
      var rest := SplitOn(s[1..], c);
      if s[0] == c then [""] + rest
      else [[s[0]] + rest[0]] + rest[1..]
  }

  /** `parts.join(c)`. */
  function JoinOn(parts: seq<string>, c: char): string
    requires |parts| >= 1
  {
    if |parts| == 1 then parts[0] else parts[0] + [c] + JoinOn(parts[1..], c)
  }

  /** Splitting at `c` and joining with `c` gives the line back. */
  lemma {:induction false} SplitOnJoin(s: string, c: char)
    ensures JoinOn(SplitOn(s, c), c) == s
    decreases |s|
  {
    if |s| > 0 {
      var rest := SplitOn(s[1..], c);
      SplitOnJoin(s[1..], c);
      if s[0] == c {
        assert [s[0]] + s[1..] == s;
      } else {
        var parts := [[s[0]] + rest[0]] + rest[1..];
        assert parts[1..] == rest[1..];
        assert [s[0]] + s[1..] == s;
      }
    }
  }

  /**
   The pieces of `s.split(c)` read off the text: the first piece is the text
   before the first `c`, and the remaining pieces are those of the text after it.
   */
  lemma {:induction false} SplitOnFirst(s: string, c: char, k: nat)
    requires k <= |s| && c !in s[..k]
    requires k == |s| || s[k] == c
    ensures SplitOn(s, c)[0] == s[..k]
    ensures k < |s| ==> SplitOn(s, c)[1..] == SplitOn(s[k + 1..], c)
    decreases k
  {
    if k > 0 {
      assert s[0] in s[..k];
      assert s[1..][..k - 1] == s[1..k];
      assert c !in s[1..k] by {
        forall j | 0 <= j < k - 1 ensures s[1..k][j] != c {
          assert s[1..k][j] == s[..k][j + 1];
        }
      }
      SplitOnFirst(s[1..], c, k - 1);
      assert [s[0]] + s[1..k] == s[..k];
      if k < |s| {
        assert s[1..][k..] == s[k + 1..];
      }
    }
  }

  // ---------------------------------------------------------------------------
  // Trimming: String.prototype.trim
  // ---------------------------------------------------------------------------

  /** ECMAScript WhiteSpace or LineTerminator: what `trim` removes. */
  predicate IsWhiteSpace(c: char) {
    || c == '\t' || c == '\n' || c == '\U{000B}' || c == '\U{000C}' || c == '\r'
    || c == ' ' || c == '\U{00A0}' || c == '\U{1680}'
    || ('\U{2000}' <= c <= '\U{200A}')
    || c == '\U{2028}' || c == '\U{2029}' || c == '\U{202F}' || c == '\U{205F}'
    || c == '\U{3000}' || c == '\U{FEFF}'
  }

  /** Every character of `s` from `from` up to `to` is white space. */
  predicate AllWhiteSpace(s: string, from: nat, to: nat)
    requires from <= to <= |s|
  {
    forall i :: from <= i < to ==> IsWhiteSpace(s[i])
  }

  /** Removes leading white space. */
  function TrimStart(s: string): (r: string)
    ensures |r| <= |s| && r == s[|s| - |r|..]
    ensures AllWhiteSpace(s, 0, |s| - |r|)
    ensures |r| > 0 ==> !IsWhiteSpace(r[0])
    decreases |s|
  {
    if |s| > 0 && IsWhiteSpace(s[0]) then TrimStart(s[1..]) else s
  }

  /** Removes trailing white space. */
  function TrimEnd(s: string): (r: string)
    ensures |r| <= |s| && r == s[..|r|]
    ensures AllWhiteSpace(s, |r|, |s|)
    ensures |r| > 0 ==> !IsWhiteSpace(r[|r| - 1])
    decreases |s|
  {
    if |s| > 0 && IsWhiteSpace(s[|s| - 1]) then TrimEnd(s[..|s| - 1]) else s
  }

  /**
   `r` is `s` with white space removed at both ends, `lo` characters at the
   front: `r` is the slice of `s` starting at `lo`, and everything outside
   that slice is white space.
   */
  predicate TrimmedAt(s: string, r: string, lo: nat) {
    && lo + |r| <= |s| && r == s[lo..lo + |r|]
    && AllWhiteSpace(s, 0, lo) && AllWhiteSpace(s, lo + |r|, |s|)
  }

  /**
   `s.trim()`: the slice of `s` left after removing white space at both ends.
   The result neither starts nor ends with white space, and only white space
   was removed.
   */
  function Trim(s: string): (r: string)
    ensures exists lo: nat :: TrimmedAt(s, r, lo)
    ensures |r| > 0 ==> !IsWhiteSpace(r[0]) && !IsWhiteSpace(r[|r| - 1])
  {
    TrimBothEnds(s);
    TrimStart(TrimEnd(s))
  }

  /** Trimming the back and then the front removes white space at both ends only. */
  lemma TrimBothEnds(s: string)
    ensures TrimmedAt(s, TrimStart(TrimEnd(s)), |TrimEnd(s)| - |TrimStart(TrimEnd(s))|)
  {
    var e := TrimEnd(s);
    var r := TrimStart(e);
    var lo := |e| - |r|;
    assert r == s[lo..lo + |r|] by {
      TrimSlice(s, e, r);
    }
    assert AllWhiteSpace(s, 0, lo) by {
      TrimFront(s, e, lo);
    }
  }

  /** The front of a prefix is the front of the whole. */
  lemma TrimSlice(s: string, e: string, r: string)
    requires |e| <= |s| && e == s[..|e|]
    requires |r| <= |e| && r == e[|e| - |r|..]
    ensures r == s[|e| - |r|..|e|]
  {
  }

  /** White space at the front of a prefix is white space at the front of the whole. */
  lemma TrimFront(s: string, e: string, lo: nat)
    requires lo <= |e| <= |s| && e == s[..|e|]
    requires AllWhiteSpace(e, 0, lo)
    ensures AllWhiteSpace(s, 0, lo)
  {
    forall i | 0 <= i < lo ensures IsWhiteSpace(s[i]) {
      assert e[i] == s[i];
    }
  }
}
