/**
 The host-fact collector: `getSystemInfo` applied to the text of
 /proc/cpuinfo. Each line is matched against three labels in priority order and a
 matching line stores the text between its first and second colon, trimmed,
 in the field the label names. Later matches overwrite earlier ones, fields
 never matched stay absent, and a matching line without a colon throws.
 */
module CpuInfo {
  import opened Base
  import opened Text

  /** The `sysinfo` object; a field is `None` when the property was never assigned. */
  datatype SysInfo = SysInfo(processorType: Option<string>, platform: Option<string>, processorModel: Option<string>)

  /** The starting object `{}`. */
  const NoInfo := SysInfo(None, None, None)

  /** The three properties a line can assign. */
  datatype Label = ProcessorType | Platform | ProcessorModel

  /**
   The TypeError raised by `segs[1].trim()` when the line has no colon. The
   program's error names no line; `line` is the model's record of the line
   the walk stopped at.
   */
  datatype ParseError = MissingColon(line: string)

  /** The substring each label is recognised by (case-sensitive). */
  function Needle(l: Label): string {
    match l
    case ProcessorType => "model name"
    case Platform => "Model"
    case ProcessorModel => "Hardware"
  }

  /** The property of `info` that label `l` assigns. */
  function Field(info: SysInfo, l: Label): Option<string> {
    match l
    case ProcessorType => info.processorType
    case Platform => info.platform
    case ProcessorModel => info.processorModel
  }

  /** Assigns the property named by `l`; the other two are untouched. */
  function Assign(info: SysInfo, l: Label, v: string): (r: SysInfo)
    ensures Field(r, l) == Some(v)
    ensures forall l' :: l' != l ==> Field(r, l') == Field(info, l')
  {
    match l
    case ProcessorType => info.(processorType := Some(v))
    case Platform => info.(platform := Some(v))
    case ProcessorModel => info.(processorModel := Some(v))
  }

  /**
   The branch of the if / else-if chain a line takes: the first label, in the
   order "model name", "Model", "Hardware", whose text occurs in the line.
   */
  function Classify(line: string): (r: Option<Label>)
    ensures r == Some(ProcessorType) <==> Contains(line, "model name")
    ensures r == Some(Platform) <==> !Contains(line, "model name") && Contains(line, "Model")
    ensures r == Some(ProcessorModel) <==>
              !Contains(line, "model name") && !Contains(line, "Model") && Contains(line, "Hardware")
    ensures r == None <==>
              !Contains(line, "model name") && !Contains(line, "Model") && !Contains(line, "Hardware")
  {
    if IndexOf(line, Needle(ProcessorType)) >= 0 then Some(ProcessorType)
    else if IndexOf(line, Needle(Platform)) >= 0 then Some(Platform)
    else if IndexOf(line, Needle(ProcessorModel)) >= 0 then Some(ProcessorModel)
    else None
  }

  /**
   `i` is the first colon of `line` and `j` the next colon after it, or the
   end of the line when there is none.
   */
  predicate ColonBounds(line: string, i: nat, j: nat) {
    && i < j <= |line| && line[i] == ':' && ':' !in line[..i]
    && ':' !in line[i + 1..j] && (j == |line| || line[j] == ':')
  }

  /**
   `line.split(':')[1].trim()`: absent when the line has no colon (the
   element is undefined), otherwise the text strictly between the first colon
   and the next colon (or the end of the line), with white space trimmed.
   */
  function FieldValue(line: string): (r: Option<string>)
    ensures r.Some? <==> ':' in line
    ensures r.Some? ==> exists i: nat, j: nat :: ColonBounds(line, i, j) && r.value == Trim(line[i + 1..j])
  {
    var segs := SplitOn(line, ':');
    if |segs| < 2 then None
    else
      assert exists i: nat, j: nat :: ColonBounds(line, i, j) && segs[1] == line[i + 1..j] by {
        var i, j := SegmentBetweenColons(line);
      }
      Some(Trim(segs[1]))
  }

  /** Locates the second piece of `line.split(':')` in the line. */
  lemma SegmentBetweenColons(line: string) returns (i: nat, j: nat)
    requires ':' in line
    ensures ColonBounds(line, i, j) && SplitOn(line, ':')[1] == line[i + 1..j]
  {
    assert line[..0] == [];
    i := FirstIndex(line, ':', 0);
    assert i < |line| by {
      assert line[..|line|] == line;
    }
    var tail := line[i + 1..];
    assert tail[..0] == [];
    var k := FirstIndex(tail, ':', 0);
    j := i + 1 + k;
    assert SplitOn(line, ':')[1..] == SplitOn(tail, ':') by {
      SplitOnFirst(line, ':', i);
    }
    assert SplitOn(tail, ':')[0] == tail[..k] by {
      SplitOnFirst(tail, ':', k);
    }
    assert tail[..k] == line[i + 1..j];
    assert j == |line| || line[j] == tail[k];
  }

  /** The index of the first `c` in `s` at or after `from`, or `|s|`. */
  function FirstIndex(s: string, c: char, from: nat): (k: nat)
    requires from <= |s| && c !in s[..from]
    ensures from <= k <= |s| && c !in s[..k] && (k == |s| || s[k] == c)
    decreases |s| - from
  {
    if from == |s| || s[from] == c then from
    else
      assert s[..from + 1] == s[..from] + [s[from]];
      FirstIndex(s, c, from + 1)
  }

  /** The first colon and the one after it are determined by the line. */
  lemma ColonBoundsUnique(line: string, i: nat, j: nat, i': nat, j': nat)
    requires ColonBounds(line, i, j) && ColonBounds(line, i', j')
    ensures i == i' && j == j'
  {
    assert forall k :: 0 <= k < i ==> line[..i][k] == line[k];
    assert forall k :: 0 <= k < i' ==> line[..i'][k] == line[k];
    assert i == i';
    assert forall k :: i + 1 <= k < j ==> line[i + 1..j][k - i - 1] == line[k];
    assert forall k :: i + 1 <= k < j' ==> line[i + 1..j'][k - i - 1] == line[k];
  }

  /**
   A line read as `pre`, a colon, `mid`, then either nothing or text starting
   with another colon, where `pre` and `mid` hold no colon: its value is
   `mid` trimmed, whatever follows the second colon.
   */
  lemma ValueBetweenColons(line: string, pre: string, mid: string, post: string)
    requires line == pre + ":" + mid + post
    requires ':' !in pre && ':' !in mid && (post == "" || post[0] == ':')
    ensures FieldValue(line) == Some(Trim(mid))
  {
    var i, j := |pre|, |pre| + 1 + |mid|;
    assert line[..i] == pre && line[i + 1..j] == mid;
    assert ColonBounds(line, i, j);
    assert ':' in line;
    var i': nat, j': nat :| ColonBounds(line, i', j') && FieldValue(line).value == Trim(line[i' + 1..j']);
    ColonBoundsUnique(line, i, j, i', j');
  }

  /** One call of the `forEach` callback. */
  function ApplyLine(info: SysInfo, line: string): (r: Result<SysInfo, ParseError>)
    ensures Classify(line).None? ==> r == Ok(info)
    ensures Classify(line).Some? && ':' !in line ==> r == Err(MissingColon(line))
    ensures Classify(line).Some? && ':' in line ==>
              r == Ok(Assign(info, Classify(line).value, FieldValue(line).value))
  {
    match Classify(line)
    case None => Ok(info)
    case Some(l) =>
      match FieldValue(line)
      case None => Err(MissingColon(line))
      case Some(v) => Ok(Assign(info, l, v))
  }

  /**
   `allLines.forEach(...)`: lines in order; the first throw stops the walk. A
   throw comes from a labelled line without a colon, and a property once
   assigned is never removed.
   */
  function ApplyLines(info: SysInfo, lines: seq<string>): (r: Result<SysInfo, ParseError>)
    ensures r.Err? ==> r.error.line in lines && !Readable(r.error.line)
    ensures r.Ok? ==> forall l :: Field(info, l).Some? ==> Field(r.value, l).Some?
    decreases |lines|
  {
    if |lines| == 0 then Ok(info)
    else
      match ApplyLine(info, lines[0])
      case Err(e) => Err(e)
      case Ok(next) => ApplyLines(next, lines[1..])
  }

  /**
   `getSystemInfo` after the file has been read: `contents` is the text of
   /proc/cpuinfo. It throws only at a line of the file that takes a branch
   of the chain and has no colon.
   */
  function GetSystemInfo(contents: string): (r: Result<SysInfo, ParseError>)
    ensures r.Err? ==> r.error.line in SplitLines(contents) && !Readable(r.error.line)
  {
    ApplyLines(NoInfo, SplitLines(contents))
  }

  // ---------------------------------------------------------------------------
  // Reference description: what each field ends up holding
  // ---------------------------------------------------------------------------

  /** A line that takes a branch of the chain must contain a colon. */
  predicate Readable(line: string) {
    Classify(line).Some? ==> ':' in line
  }

  /** The value of the last line taking the branch for `l`, if any line does. */
  function LastValue(lines: seq<string>, l: Label): Option<string>
    decreases |lines|
  {
    if |lines| == 0 then None
    else
      var last := lines[|lines| - 1];
      if Classify(last) == Some(l) && ':' in last then FieldValue(last)
      else LastValue(lines[..|lines| - 1], l)
  }

  /** `LastValue` seen from the front: a later match hides an earlier one. */
  lemma {:induction false} LastValueFront(lines: seq<string>, l: Label)
    requires |lines| > 0
    ensures LastValue(lines, l) ==
              if LastValue(lines[1..], l).Some? then LastValue(lines[1..], l)
              else if Classify(lines[0]) == Some(l) && ':' in lines[0] then FieldValue(lines[0])
              else None
    decreases |lines|
  {
    if |lines| > 1 {
      var init := lines[..|lines| - 1];
      assert lines[1..][..|lines[1..]| - 1] == init[1..];
      assert init[0] == lines[0];
      LastValueFront(init, l);
    } else {
      assert lines[..0] == [];
    }
  }

  /** Line `k` is the first line that takes a branch of the chain without a colon. */
  predicate FirstUnreadable(lines: seq<string>, k: nat) {
    k < |lines| && !Readable(lines[k]) && forall i :: 0 <= i < k ==> Readable(lines[i])
  }

  /**
   The walk throws exactly when some line takes a branch and has no colon,
   and then stops at the first such line.
   */
  lemma {:induction false} ApplyLinesErrors(info: SysInfo, lines: seq<string>)
    ensures ApplyLines(info, lines).Ok? <==> forall i :: 0 <= i < |lines| ==> Readable(lines[i])
    ensures ApplyLines(info, lines).Err? ==>
              exists k: nat :: FirstUnreadable(lines, k) && ApplyLines(info, lines).error == MissingColon(lines[k])
    decreases |lines|
  {
    if |lines| > 0 {
      match ApplyLine(info, lines[0])
      case Err(e) =>
        assert FirstUnreadable(lines, 0);
      case Ok(next) =>
        var rest := lines[1..];
        ApplyLinesErrors(next, rest);
        assert Readable(lines[0]);
        assert (forall i :: 0 <= i < |lines| ==> Readable(lines[i])) <==>
               (forall i :: 0 <= i < |rest| ==> Readable(rest[i])) by {
          if forall i :: 0 <= i < |rest| ==> Readable(rest[i]) {
            forall i | 1 <= i < |lines| ensures Readable(lines[i]) {
              assert lines[i] == rest[i - 1];
            }
          }
        }
        if ApplyLines(next, rest).Err? {
          var k': nat :| FirstUnreadable(rest, k') && ApplyLines(next, rest).error == MissingColon(rest[k']);
          assert FirstUnreadable(lines, k' + 1) by {
            forall i | 1 <= i < k' + 1 ensures Readable(lines[i]) {
              assert lines[i] == rest[i - 1];
            }
          }
        }
    }
  }

  /**
   A walk that does not throw leaves in each field the value of the last line
   for its label, or the field's value in `info` when no line has that label.
   */
  lemma {:induction false} ApplyLinesFields(info: SysInfo, lines: seq<string>)
    requires ApplyLines(info, lines).Ok?
    ensures forall l :: Field(ApplyLines(info, lines).value, l) ==
              if LastValue(lines, l).Some? then LastValue(lines, l) else Field(info, l)
    decreases |lines|
  {
    if |lines| > 0 {
      var next := ApplyLine(info, lines[0]).value;
      ApplyLinesFields(next, lines[1..]);
      forall l ensures Field(ApplyLines(info, lines).value, l) ==
                         if LastValue(lines, l).Some? then LastValue(lines, l) else Field(info, l) {
        LastValueFront(lines, l);
      }
    }
  }

  /**
   Walking the lines from `info`: the walk throws exactly when some line takes
   a branch and has no colon, and then stops at the first such line; otherwise
   each field holds the value of the last line for its label, or keeps its
   value in `info` when no line has that label.
   */
  lemma ApplyLinesMeaning(info: SysInfo, lines: seq<string>)
    ensures ApplyLines(info, lines).Ok? <==> forall i :: 0 <= i < |lines| ==> Readable(lines[i])
    ensures ApplyLines(info, lines).Err? ==>
              exists k: nat :: FirstUnreadable(lines, k) && ApplyLines(info, lines).error == MissingColon(lines[k])
    ensures ApplyLines(info, lines).Ok? ==> forall l ::
              Field(ApplyLines(info, lines).value, l) ==
                if LastValue(lines, l).Some? then LastValue(lines, l) else Field(info, l)
  {
    ApplyLinesErrors(info, lines);
    if ApplyLines(info, lines).Ok? {
      ApplyLinesFields(info, lines);
    }
  }

  /**
   The whole parse. `getSystemInfo` throws exactly when a line naming a label
   has no colon, and then stops at the first such line; otherwise each field holds
   the value of the LAST line carrying its label and a field with no such
   line is absent.
   */
  lemma GetSystemInfoMeaning(contents: string)
    ensures GetSystemInfo(contents).Ok? <==>
              forall i :: 0 <= i < |SplitLines(contents)| ==> Readable(SplitLines(contents)[i])
    ensures GetSystemInfo(contents).Err? ==>
              exists k: nat :: FirstUnreadable(SplitLines(contents), k)
                && GetSystemInfo(contents).error == MissingColon(SplitLines(contents)[k])
    ensures GetSystemInfo(contents).Ok? ==> forall l ::
              Field(GetSystemInfo(contents).value, l) == LastValue(SplitLines(contents), l)
  {
    var lines := SplitLines(contents);
    ApplyLinesMeaning(NoInfo, lines);
    assert GetSystemInfo(contents) == ApplyLines(NoInfo, lines);
    if GetSystemInfo(contents).Ok? {
      forall l ensures Field(GetSystemInfo(contents).value, l) == LastValue(lines, l) {
        assert Field(NoInfo, l) == None;
      }
    } else {
      var k: nat :| FirstUnreadable(lines, k) && GetSystemInfo(contents).error == MissingColon(lines[k]);
      assert !Readable(SplitLines(contents)[k]);
    }
  }

  /** A line naming "model name" sets the processor type, whatever else it names. */
  lemma ModelNameFirst(info: SysInfo, line: string)
    requires Contains(line, "model name") && ':' in line
    ensures ApplyLine(info, line).Ok?
    ensures var r := ApplyLine(info, line).value;
            && Field(r, ProcessorType) == FieldValue(line)
            && Field(r, Platform) == info.platform
            && Field(r, ProcessorModel) == info.processorModel
  {
  }

  /** "Model" takes precedence over "Hardware": a line naming both sets only the platform. */
  lemma ModelBeforeHardware(info: SysInfo, line: string)
    requires !Contains(line, "model name") && Contains(line, "Model") && Contains(line, "Hardware")
    requires ':' in line
    ensures ApplyLine(info, line).Ok?
    ensures var r := ApplyLine(info, line).value;
            && Field(r, Platform) == FieldValue(line)
            && Field(r, ProcessorType) == info.processorType
            && Field(r, ProcessorModel) == info.processorModel
  {
  }
}
