/**
 The parser on files of a known shape: the three labels in either
 line-ending convention, an empty file, a repeated label, a value followed
 by a second colon, a label line without a colon, and a lone carriage return.
 Values are arbitrary strings subject to the stated conditions, so each
 lemma covers every file of its shape.
 */
module CpuInfoExamples {
  import opened Base
  import opened Text
  import opened CpuInfo

  /** A value that survives `trim` unchanged and stays on one line without a colon. */
  predicate PlainValue(v: string) {
    && ':' !in v && '\n' !in v
    && (|v| > 0 ==> !IsWhiteSpace(v[0]) && !IsWhiteSpace(v[|v| - 1]))
  }

  /** A pattern whose first character is missing from `pre` cannot start inside `pre`. */
  lemma NotContainedAfter(pre: string, y: string, pat: string)
    requires |pat| > 0 && pat[0] !in pre && !Contains(y, pat)
    ensures !Contains(pre + y, pat)
  {
    var s := pre + y;
    forall i: nat | i + |pat| <= |s| ensures !OccursAt(s, pat, i) {
      if i < |pre| {
        assert s[i..i + |pat|][0] == pre[i];
      } else {
        assert s[i..i + |pat|] == y[i - |pre|..i - |pre| + |pat|];
        assert !OccursAt(y, pat, i - |pre|);
      }
    }
  }

  /** A pattern without `c` cannot straddle a `c` placed between two texts that lack it. */
  lemma NotContainedAround(a: string, c: char, b: string, pat: string)
    requires c !in pat && !Contains(a, pat) && !Contains(b, pat)
    ensures !Contains(a + [c] + b, pat)
  {
    var s := a + [c] + b;
    forall i: nat | i + |pat| <= |s| ensures !OccursAt(s, pat, i) {
      if i + |pat| <= |a| {
        assert s[i..i + |pat|] == a[i..i + |pat|];
        assert !OccursAt(a, pat, i);
      } else if i > |a| {
        assert s[i..i + |pat|] == b[i - |a| - 1..i - |a| - 1 + |pat|];
        assert !OccursAt(b, pat, i - |a| - 1);
      } else {
        assert s[i..i + |pat|][|a| - i] == c;
      }
    }
  }

  /** One space before a plain value is all that `trim` removes. */
  lemma TrimPadded(v: string)
    requires PlainValue(v)
    ensures Trim(" " + v) == v
  {
    var padded := " " + v;
    assert padded[1..] == v;
    if |v| == 0 {
      assert TrimEnd(padded) == TrimEnd(padded[..0]);
    } else {
      assert padded[|padded| - 1] == v[|v| - 1];
      assert TrimEnd(padded) == padded;
      assert TrimStart(v) == v;
    }
  }

  /** A labelled line `pre: v` assigns the plain value `v` to the label's field. */
  lemma AssignsFromLine(info: SysInfo, line: string, l: Label, pre: string, v: string)
    requires line == pre + ": " + v
    requires Classify(line) == Some(l)
    requires ':' !in pre && PlainValue(v)
    ensures ApplyLine(info, line) == Ok(Assign(info, l, v))
  {
    PaddedValue(line, pre, v);
  }

  /** The value of a line `pre: v` is the plain value `v`. */
  lemma PaddedValue(line: string, pre: string, v: string)
    requires line == pre + ": " + v
    requires ':' !in pre && PlainValue(v)
    ensures FieldValue(line) == Some(v)
  {
    assert line == pre + ":" + (" " + v) + "";
    ValueBetweenColons(line, pre, " " + v, "");
    TrimPadded(v);
  }

  /** A line starting with "model name\t: " sets the processor type. */
  lemma ProcessorTypeLine(info: SysInfo, x: string)
    requires PlainValue(x)
    ensures ApplyLine(info, "model name\t: " + x) == Ok(info.(processorType := Some(x)))
  {
    var line := "model name\t: " + x;
    assert OccursAt(line, "model name", 0);
    AssignsFromLine(info, line, ProcessorType, "model name\t", x);
  }

  /** A line starting with "Model\t: " sets the platform, unless its value names "model name". */
  lemma PlatformLine(info: SysInfo, y: string)
    requires PlainValue(y) && !Contains(y, "model name")
    ensures ApplyLine(info, "Model\t: " + y) == Ok(info.(platform := Some(y)))
  {
    var line := "Model\t: " + y;
    NotContainedAfter("Model\t: ", y, "model name");
    assert OccursAt(line, "Model", 0);
    AssignsFromLine(info, line, Platform, "Model\t", y);
  }

  /** A line starting with "Hardware\t: " sets the processor model when its value names neither other label. */
  lemma ProcessorModelLine(info: SysInfo, z: string)
    requires PlainValue(z) && !Contains(z, "model name") && !Contains(z, "Model")
    ensures ApplyLine(info, "Hardware\t: " + z) == Ok(info.(processorModel := Some(z)))
  {
    var line := "Hardware\t: " + z;
    NotContainedAfter("Hardware\t: ", z, "model name");
    NotContainedAfter("Hardware\t: ", z, "Model");
    assert OccursAt(line, "Hardware", 0);
    AssignsFromLine(info, line, ProcessorModel, "Hardware\t", z);
  }

  /** Splitting three separator-free lines joined by one separator convention. */
  lemma SplitThree(a: string, b: string, c: string, sep: string)
    requires '\n' !in a && '\n' !in b && '\n' !in c
    requires sep == "\r\n" || (sep == "\n" && (|a| > 0 ==> a[|a| - 1] != '\r') && (|b| > 0 ==> b[|b| - 1] != '\r'))
    ensures SplitLines(a + sep + b + sep + c) == [a, b, c]
  {
    SplitTwo(b, c, sep);
    SplitFront(a, sep, b + sep + c);
    Regroup(a, sep, b, c);
  }

  /** Regrouping a file of three lines as its first line and the rest. */
  lemma Regroup(a: string, sep: string, b: string, c: string)
    ensures a + sep + b + sep + c == a + sep + (b + sep + c)
  {
  }

  /** Walking three lines is walking them one after another. */
  lemma ApplyThree(info: SysInfo, a: string, b: string, c: string, ra: SysInfo, rb: SysInfo, rc: SysInfo)
    requires ApplyLine(info, a) == Ok(ra) && ApplyLine(ra, b) == Ok(rb) && ApplyLine(rb, c) == Ok(rc)
    ensures ApplyLines(info, [a, b, c]) == Ok(rc)
  {
    assert [a, b, c][1..] == [b, c] && [b, c][1..] == [c] && |[c][1..]| == 0;
    assert ApplyLines(rb, [c]) == Ok(rc);
    assert ApplyLines(ra, [b, c]) == Ok(rc);
  }

  /**
   The "model name", "Model" and "Hardware" lines, separated by "\n" or by
   "\r\n", fill the processor type, platform and processor model with their
   values.
   */
  lemma ThreeLabels(x: string, y: string, z: string, sep: string)
    requires sep == "\n" || sep == "\r\n"
    requires PlainValue(x) && PlainValue(y) && PlainValue(z)
    requires !Contains(y, "model name") && !Contains(z, "model name") && !Contains(z, "Model")
    ensures GetSystemInfo("model name\t: " + x + sep + "Model\t: " + y + sep + "Hardware\t: " + z)
         == Ok(SysInfo(Some(x), Some(y), Some(z)))
  {
    var a, b, c := "model name\t: " + x, "Model\t: " + y, "Hardware\t: " + z;
    assert a + sep + b + sep + c == "model name\t: " + x + sep + "Model\t: " + y + sep + "Hardware\t: " + z;
    assert |a| > 0 && a[|a| - 1] != '\r' && |b| > 0 && b[|b| - 1] != '\r' by {
      if |x| > 0 { assert a[|a| - 1] == x[|x| - 1]; }
      if |y| > 0 { assert b[|b| - 1] == y[|y| - 1]; }
    }
    assert '\n' !in a && '\n' !in b && '\n' !in c;
    SplitThree(a, b, c, sep);
    var ra := NoInfo.(processorType := Some(x));
    var rb := ra.(platform := Some(y));
    ProcessorTypeLine(NoInfo, x);
    PlatformLine(ra, y);
    ProcessorModelLine(rb, z);
    ApplyThree(NoInfo, a, b, c, ra, rb, rb.(processorModel := Some(z)));
  }

  /** An empty file is one empty line and leaves every field absent. */
  lemma EmptyFile()
    ensures SplitLines("") == [""]
    ensures GetSystemInfo("") == Ok(NoInfo)
  {
    assert !Contains("", "model name") && !Contains("", "Model") && !Contains("", "Hardware");
    assert |[""][1..]| == 0;
  }

  /** Splitting two separator-free lines joined by one separator. */
  lemma SplitTwo(a: string, b: string, sep: string)
    requires '\n' !in a && '\n' !in b
    requires sep == "\r\n" || (sep == "\n" && (|a| > 0 ==> a[|a| - 1] != '\r'))
    ensures SplitLines(a + sep + b) == [a, b]
  {
    SplitFront(a, sep, b);
    OneLine(b);
  }

  /** Of two "Model" lines, the second one's value is kept. */
  lemma LaterLineWins(y1: string, y2: string)
    requires PlainValue(y1) && PlainValue(y2) && !Contains(y1, "model name") && !Contains(y2, "model name")
    ensures GetSystemInfo("Model\t: " + y1 + "\n" + "Model\t: " + y2) == Ok(SysInfo(None, Some(y2), None))
  {
    var a, b := "Model\t: " + y1, "Model\t: " + y2;
    assert a[|a| - 1] != '\r' by {
      if |y1| > 0 { assert a[|a| - 1] == y1[|y1| - 1]; }
    }
    assert a + "\n" + b == "Model\t: " + y1 + "\n" + "Model\t: " + y2;
    SplitTwo(a, b, "\n");
    var ra := NoInfo.(platform := Some(y1));
    PlatformLine(NoInfo, y1);
    PlatformLine(ra, y2);
    ApplyTwo(NoInfo, a, b, ra, ra.(platform := Some(y2)));
  }

  /** Walking two lines is walking them one after another. */
  lemma ApplyTwo(info: SysInfo, a: string, b: string, ra: SysInfo, rb: SysInfo)
    requires ApplyLine(info, a) == Ok(ra) && ApplyLine(ra, b) == Ok(rb)
    ensures ApplyLines(info, [a, b]) == Ok(rb)
  {
    assert [a, b][1..] == [b] && |[b][1..]| == 0;
    assert ApplyLines(rb, [b][1..]) == Ok(rb);
    assert ApplyLines(ra, [b]) == Ok(rb);
  }

  /** The line `Model\t: y:rest` stores `y`: the text after the second colon is dropped. */
  lemma SecondColonLine(y: string, rest: string)
    requires PlainValue(y) && !Contains(y, "model name") && !Contains(rest, "model name")
    ensures ApplyLine(NoInfo, "Model\t: " + y + ":" + rest) == Ok(SysInfo(None, Some(y), None))
  {
    var line := "Model\t: " + y + ":" + rest;
    SecondColonClassified(y, rest);
    SecondColonValue(y, rest);
    assert ApplyLine(NoInfo, line) == Ok(Assign(NoInfo, Platform, y));
  }

  /** The line `Model\t: y:rest` takes the "Model" branch. */
  lemma SecondColonClassified(y: string, rest: string)
    requires !Contains(y, "model name") && !Contains(rest, "model name")
    ensures Classify("Model\t: " + y + ":" + rest) == Some(Platform)
  {
    var line := "Model\t: " + y + ":" + rest;
    assert line == "Model\t: " + (y + [':'] + rest);
    NotContainedAround(y, ':', rest, "model name");
    NotContainedAfter("Model\t: ", y + [':'] + rest, "model name");
    assert OccursAt(line, "Model", 0);
  }

  /** The value of the line `Model\t: y:rest` is `y`. */
  lemma SecondColonValue(y: string, rest: string)
    requires PlainValue(y)
    ensures FieldValue("Model\t: " + y + ":" + rest) == Some(y)
  {
    var line := "Model\t: " + y + ":" + rest;
    assert line == "Model\t" + ":" + (" " + y) + (":" + rest);
    ValueBetweenColons(line, "Model\t", " " + y, ":" + rest);
    TrimPadded(y);
  }

  /** Text after a second colon is dropped, not kept as part of the value. */
  lemma SecondColonDropsRest(y: string, rest: string)
    requires PlainValue(y) && !Contains(y, "model name") && '\n' !in rest
    requires !Contains(rest, "model name")
    ensures GetSystemInfo("Model\t: " + y + ":" + rest) == Ok(SysInfo(None, Some(y), None))
  {
    var line := "Model\t: " + y + ":" + rest;
    assert ApplyLines(NoInfo, SplitLines(line)) == ApplyLine(NoInfo, line) by {
      NoLineFeed("Model\t: " + y + ":", rest);
      SingleLine(NoInfo, line);
    }
    SecondColonLine(y, rest);
  }

  /** A "model name" line without a colon makes the whole parse throw at that line. */
  lemma MissingColonThrows(w: string)
    requires ':' !in w && '\n' !in w
    ensures GetSystemInfo("model name " + w) == Err(MissingColon("model name " + w))
  {
    var line := "model name " + w;
    assert OccursAt(line, "model name", 0);
    assert ':' !in line && '\n' !in line;
    SingleLine(NoInfo, line);
  }

  /** Joining two texts without a line feed gives none. */
  lemma NoLineFeed(a: string, b: string)
    requires '\n' !in a && '\n' !in b
    ensures '\n' !in a + b
  {
  }

  /** A file of one line is walked as that line alone. */
  lemma SingleLine(info: SysInfo, line: string)
    requires '\n' !in line
    ensures SplitLines(line) == [line]
    ensures ApplyLines(info, SplitLines(line)) == ApplyLine(info, line)
  {
    JoinLinesSplit([line], []);
    assert |[line][1..]| == 0;
  }

  /** A carriage return without a line feed after it stays inside its line. */
  lemma LoneCarriageReturn()
    ensures SplitLines("a\rb\r\nc") == ["a\rb", "c"]
  {
    JoinLinesSplit(["a\rb", "c"], ["\r\n"]);
    assert ["a\rb", "c"][1..] == ["c"];
    assert JoinLines(["a\rb", "c"], ["\r\n"]) == "a\rb" + "\r\n" + "c";
    assert "a\rb" + "\r\n" + "c" == "a\rb\r\nc";
  }
}
