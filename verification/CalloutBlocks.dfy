/**
  Extraction of callout blocks from the lines of a Markdown section: a callout
  marker with the quote lines that follow it stays one block.
 */
module CalloutBlocks {
  import opened Text
  import opened SentencePacking

  datatype Kind = Plain | Quote | Callout

  datatype Line = Line(text: string, kind: Kind)

  predicate StartsWith(s: string, prefix: string) {
    prefix <= s
  }

  /** How a line is classified; nothing where the slice behind the quote sign fails. */
  function Classify(line: string): Option<Kind> {
    var t := Trim(line);
    if !StartsWith(t, ">") then Some(Plain)
    else if Size(t) <= 2 then Some(Quote)
    else
      match SliceFrom(t, 2)
      case None => None
      case Some(rest) => if StartsWith(TrimStart(rest), "[!") then Some(Callout) else Some(Quote)
  }

  /** The slice at byte 2 misses a boundary exactly when a character of more than one byte follows the quote sign. */
  lemma ClassifyFailsExactlyWhen(line: string)
    ensures Classify(line).None? <==> var t := Trim(line); |t| >= 2 && t[0] == '>' && Width(t[1]) > 1
  {
    var t := Trim(line);
    if StartsWith(t, ">") {
      assert t[0] == ">"[0] == '>';
      var rest := t[1..];
      assert Size(t) == 1 + Size(rest);
      assert SliceFrom(t, 2) == SliceFrom(rest, 1);
      if rest != "" {
        assert rest[0] == t[1];
        assert Width(rest[0]) == 1 ==> SliceFrom(rest, 1) == SliceFrom(rest[1..], 0);
      }
    }
  }

  /** `t` is a quote sign, any one-byte character, whitespace, and a callout mark. */
  ghost predicate CalloutShape(t: string) {
    exists gap: string, rest: string :: HasShape(t, gap, rest)
  }

  predicate HasShape(t: string, gap: string, rest: string) {
    |t| >= 2 && t[0] == '>' && Width(t[1]) == 1 && Blank(gap) && t[2..] == gap + "[!" + rest
  }

  lemma {:induction false} TrimStartSplits(s: string) returns (gap: string)
    ensures Blank(gap) && s == gap + TrimStart(s)
  {
    if s != "" && IsWhitespace(s[0]) {
      var rest := TrimStartSplits(s[1..]);
      gap := [s[0]] + rest;
      assert s == [s[0]] + s[1..];
    } else {
      gap := "";
    }
  }

  lemma {:induction false} TrimStartOfGap(gap: string, s: string)
    requires Blank(gap) && s != "" && !IsWhitespace(s[0])
    ensures TrimStart(gap + s) == s
  {
    if gap == "" {
      assert gap + s == s;
    } else {
      assert (gap + s)[0] == gap[0] && (gap + s)[1..] == gap[1..] + s;
      TrimStartOfGap(gap[1..], s);
    }
  }

  lemma SliceBehindSign(t: string)
    requires |t| >= 2 && t[0] == '>' && Width(t[1]) == 1
    ensures SliceFrom(t, 2) == Some(t[2..]) && Size(t) == 2 + Size(t[2..])
  {
    var rest := t[1..];
    assert rest[0] == t[1] && rest[1..] == t[2..];
    assert Size(t) == 1 + Size(rest) && Size(rest) == 1 + Size(rest[1..]);
    assert SliceFrom(t, 2) == SliceFrom(rest, 1);
    assert SliceFrom(rest, 1) == SliceFrom(rest[1..], 0);
  }

  /** Whether what follows, without leading whitespace, starts with the mark. */
  lemma MarkExactlyWhen(s: string)
    ensures StartsWith(TrimStart(s), "[!") <==> exists gap: string, rest: string :: Blank(gap) && s == gap + "[!" + rest
  {
    if StartsWith(TrimStart(s), "[!") {
      var gap := TrimStartSplits(s);
      var t := TrimStart(s);
      assert t == "[!" + t[2..];
      assert s == gap + "[!" + t[2..];
    }
    forall gap: string, rest: string | Blank(gap) && s == gap + "[!" + rest ensures StartsWith(TrimStart(s), "[!") {
      var t := "[!" + rest;
      assert t[0] == '[';
      assert s == gap + t;
      TrimStartOfGap(gap, t);
      assert t[..2] == "[!";
    }
  }

  /**
    A line is plain exactly when it does not start with a quote sign, and a callout
    exactly when it has the shape above, whitespace around it aside.
   */
  lemma ClassifyExactlyWhen(line: string)
    ensures Classify(line) == Some(Plain) <==> var t := Trim(line); t == "" || t[0] != '>'
    ensures Classify(line) == Some(Callout) <==> CalloutShape(Trim(line))
  {
    var t := Trim(line);
    ClassifyFailsExactlyWhen(line);
    assert StartsWith(t, ">") <==> t != "" && t[0] == '>' by { assert t != "" && t[0] == '>' ==> t[..1] == ">"; }
    if |t| >= 2 && t[0] == '>' && Width(t[1]) == 1 {
      SliceBehindSign(t);
      MarkExactlyWhen(t[2..]);
      if Classify(line) == Some(Callout) {
        var gap: string, rest: string :| Blank(gap) && t[2..] == gap + "[!" + rest;
        assert HasShape(t, gap, rest);
      }
    }
  }

  /** All lines classified, or nothing when one of them fails. */
  function ClassifyAll(lines: seq<string>): Option<seq<Line>> {
    if lines == [] then Some([])
    else
      var n := |lines| - 1;
      match ClassifyAll(lines[..n])
      case None => None
      case Some(before) =>
        match Classify(lines[n])
        case None => None
        case Some(kind) => Some(before + [Line(lines[n], kind)])
  }

  lemma {:induction false} ClassifyAllExactlyWhen(lines: seq<string>)
    ensures ClassifyAll(lines).Some? <==> forall i :: 0 <= i < |lines| ==> Classify(lines[i]).Some?
    ensures ClassifyAll(lines).Some? ==>
              && |ClassifyAll(lines).value| == |lines|
              && forall i :: 0 <= i < |lines| ==> ClassifyAll(lines).value[i].text == lines[i]
  {
    if lines != [] {
      var n := |lines| - 1;
      ClassifyAllExactlyWhen(lines[..n]);
      assert forall i :: 0 <= i < n ==> lines[..n][i] == lines[i];
    }
  }

  /** Whether each line belongs to a callout: a marker, or a quote line right after a callout line. */
  function Flags(lines: seq<Line>): (fs: seq<bool>)
    ensures |fs| == |lines|
  {
    if lines == [] then []
    else
      var before, last := Flags(lines[..|lines| - 1]), lines[|lines| - 1];
      before + [last.kind == Callout || (last.kind == Quote && before != [] && before[|before| - 1])]
  }

  function Repeat(b: bool, n: nat): (r: seq<bool>)
    ensures |r| == n
  {
    seq(n, _ => b)
  }

  /** One flag per line when each block has one flag. */
  function Expand(blocks: seq<seq<Line>>, callout: seq<bool>): seq<bool>
    requires |blocks| == |callout|
  {
    if blocks == [] then []
    else
      var n := |blocks| - 1;
      Expand(blocks[..n], callout[..n]) + Repeat(callout[n], |blocks[n]|)
  }

  ghost predicate Alternates(callout: seq<bool>) {
    forall i, j :: 0 <= i && j == i + 1 && j < |callout| ==> callout[i] != callout[j]
  }

  /**
    The blocks are the maximal runs of the flags: they concatenate to the lines in
    order, none is empty, and a block ends exactly where the flag changes. So a
    marker and its quote lines are never separated.
   */
  ghost predicate MaximalRuns(blocks: seq<seq<Line>>, callout: seq<bool>, lines: seq<Line>) {
    && |blocks| == |callout|
    && Flatten(blocks) == lines
    && (forall i :: 0 <= i < |blocks| ==> blocks[i] != [])
    && Expand(blocks, callout) == Flags(lines)
    && Alternates(callout)
  }

  /** The state of the extraction loop: finished blocks and the pending lines of one flag. */
  ghost predicate Extracting(blocks: seq<seq<Line>>, callout: seq<bool>, pending: seq<Line>, inCallout: bool, taken: seq<Line>) {
    && |blocks| == |callout|
    && Flatten(blocks) + pending == taken
    && (forall i :: 0 <= i < |blocks| ==> blocks[i] != [])
    && Expand(blocks, callout) + Repeat(inCallout, |pending|) == Flags(taken)
    && Alternates(callout)
    && (pending == [] ==> blocks == [] && !inCallout)
    && (callout != [] ==> callout[|callout| - 1] != inCallout)
  }

  /** The flag the loop gives the next line. */
  predicate NextFlag(inCallout: bool, line: Line) {
    line.kind == Callout || (inCallout && line.kind == Quote)
  }

  lemma FlagsSnoc(taken: seq<Line>, line: Line, inCallout: bool, blocks: seq<seq<Line>>, callout: seq<bool>, pending: seq<Line>)
    requires Extracting(blocks, callout, pending, inCallout, taken)
    ensures Flags(taken + [line]) == Flags(taken) + [NextFlag(inCallout, line)]
  {
    assert (taken + [line])[..|taken|] == taken;
    var fs := Flags(taken);
    if pending != [] {
      assert fs[|fs| - 1] == Repeat(inCallout, |pending|)[|pending| - 1];
    } else {
      assert Flatten(blocks) == [] && taken == [];
    }
  }

  /** The line has the flag of the pending lines, or there are none yet. */
  lemma Push(blocks: seq<seq<Line>>, callout: seq<bool>, pending: seq<Line>, inCallout: bool, taken: seq<Line>, line: Line)
    requires Extracting(blocks, callout, pending, inCallout, taken)
    requires pending == [] || NextFlag(inCallout, line) == inCallout
    ensures Extracting(blocks, callout, pending + [line], NextFlag(inCallout, line), taken + [line])
  {
    FlagsSnoc(taken, line, inCallout, blocks, callout, pending);
    var flag := NextFlag(inCallout, line);
    assert Repeat(flag, |pending| + 1) == Repeat(flag, |pending|) + [flag];
    assert Flatten(blocks) + (pending + [line]) == (Flatten(blocks) + pending) + [line];
    if pending == [] {
      assert Repeat(inCallout, 0) == Repeat(flag, 0) == [];
    }
  }

  /** The flag changes: the pending lines become a block. */
  lemma Flush(blocks: seq<seq<Line>>, callout: seq<bool>, pending: seq<Line>, inCallout: bool, taken: seq<Line>, line: Line)
    requires Extracting(blocks, callout, pending, inCallout, taken)
    requires pending != [] && NextFlag(inCallout, line) != inCallout
    ensures Extracting(blocks + [pending], callout + [inCallout], [line], NextFlag(inCallout, line), taken + [line])
  {
    FlagsSnoc(taken, line, inCallout, blocks, callout, pending);
    var flag := NextFlag(inCallout, line);
    FlattenSnoc(blocks, pending);
    ExpandSnoc(blocks, callout, pending, inCallout);
    assert Repeat(flag, 1) == [flag];
    assert Alternates(callout + [inCallout]);
  }

  lemma ExpandSnoc(blocks: seq<seq<Line>>, callout: seq<bool>, block: seq<Line>, flag: bool)
    requires |blocks| == |callout|
    ensures Expand(blocks + [block], callout + [flag]) == Expand(blocks, callout) + Repeat(flag, |block|)
  {
    assert (blocks + [block])[..|blocks|] == blocks && (callout + [flag])[..|callout|] == callout;
  }

  lemma Finish(blocks: seq<seq<Line>>, callout: seq<bool>, pending: seq<Line>, inCallout: bool, lines: seq<Line>)
    requires Extracting(blocks, callout, pending, inCallout, lines)
    ensures pending == [] ==> MaximalRuns(blocks, callout, lines)
    ensures pending != [] ==> MaximalRuns(blocks + [pending], callout + [inCallout], lines)
  {
    if pending == [] {
      assert Flatten(blocks) + [] == Flatten(blocks);
      assert Expand(blocks, callout) + [] == Expand(blocks, callout);
    } else {
      FlattenSnoc(blocks, pending);
      ExpandSnoc(blocks, callout, pending, inCallout);
    }
  }

  datatype Extraction = Extraction(blocks: seq<seq<Line>>, callout: seq<bool>, pending: seq<Line>, inCallout: bool)

  /** What one more line does to the blocks and the pending lines. */
  function ExtractNext(x: Extraction, line: Line): Extraction {
    var flag := NextFlag(x.inCallout, line);
    if x.pending == [] || flag == x.inCallout then Extraction(x.blocks, x.callout, x.pending + [line], flag)
    else Extraction(x.blocks + [x.pending], x.callout + [x.inCallout], [line], flag)
  }

  function Extracted(lines: seq<Line>): Extraction {
    if lines == [] then Extraction([], [], [], false)
    else ExtractNext(Extracted(lines[..|lines| - 1]), lines[|lines| - 1])
  }

  lemma ExtractNextKeeps(x: Extraction, y: Extraction, taken: seq<Line>, line: Line, all: seq<Line>)
    requires Extracting(x.blocks, x.callout, x.pending, x.inCallout, taken) && y == ExtractNext(x, line) && all == taken + [line]
    ensures Extracting(y.blocks, y.callout, y.pending, y.inCallout, all)
  {
    if x.pending == [] || NextFlag(x.inCallout, line) == x.inCallout {
      Push(x.blocks, x.callout, x.pending, x.inCallout, taken, line);
    } else {
      Flush(x.blocks, x.callout, x.pending, x.inCallout, taken, line);
    }
  }

  lemma {:induction false} ExtractedKeeps(lines: seq<Line>)
    ensures var x := Extracted(lines); Extracting(x.blocks, x.callout, x.pending, x.inCallout, lines)
  {
    if lines != [] {
      var n := |lines| - 1;
      InitLast(lines);
      ExtractedKeeps(lines[..n]);
      ExtractNextKeeps(Extracted(lines[..n]), Extracted(lines), lines[..n], lines[n], lines);
    }
  }

  /** The blocks of classified lines. */
  function BlocksOf(lines: seq<Line>): seq<seq<Line>> {
    var x := Extracted(lines);
    if x.pending == [] then x.blocks else x.blocks + [x.pending]
  }

  /** For every list of lines, extraction yields the maximal runs of callout and ordinary lines. */
  lemma ExtractionIsMaximalRuns(lines: seq<Line>)
    ensures Blocks(BlocksOf(lines), lines)
  {
    var x := Extracted(lines);
    ExtractedKeeps(lines);
    FinishIsBlocks(x, lines);
  }

  lemma FinishIsBlocks(x: Extraction, lines: seq<Line>)
    requires Extracting(x.blocks, x.callout, x.pending, x.inCallout, lines)
    ensures Blocks(if x.pending == [] then x.blocks else x.blocks + [x.pending], lines)
  {
    Finish(x.blocks, x.callout, x.pending, x.inCallout, lines);
    var callout := if x.pending == [] then x.callout else x.callout + [x.inCallout];
    assert MaximalRuns(if x.pending == [] then x.blocks else x.blocks + [x.pending], callout, lines);
  }

  /** `extract_callout_blocks` on the lines of a text, or nothing where a slice fails. */
  function ExtractBlocks(lines: seq<string>): Option<seq<seq<Line>>> {
    match ClassifyAll(lines)
    case None => None
    case Some(classified) => Some(BlocksOf(classified))
  }

  /** Extraction succeeds exactly when no line has a multi-byte character right behind its quote sign; it keeps every line. */
  lemma ExtractSucceedsExactlyWhen(lines: seq<string>)
    ensures ExtractBlocks(lines).Some? <==>
            forall i :: 0 <= i < |lines| ==> var t := Trim(lines[i]); !(|t| >= 2 && t[0] == '>' && Width(t[1]) > 1)
    ensures ExtractBlocks(lines).Some? ==> Blocks(ExtractBlocks(lines).value, ClassifyAll(lines).value)
  {
    ClassifyAllExactlyWhen(lines);
    forall i | 0 <= i < |lines| ensures Classify(lines[i]).None? <==> var t := Trim(lines[i]); |t| >= 2 && t[0] == '>' && Width(t[1]) > 1 {
      ClassifyFailsExactlyWhen(lines[i]);
    }
    if ClassifyAll(lines).Some? {
      ExtractionIsMaximalRuns(ClassifyAll(lines).value);
    }
  }

  /**
    The extraction loop over two pending lists; inside a callout no normal lines are
    pending and outside no callout lines. A failing slice ends it.
   */
  method Extract(lines: seq<string>) returns (r: Option<seq<seq<Line>>>)
    ensures r == ExtractBlocks(lines)
  {
    var blocks: seq<seq<Line>> := [];
    var normal: seq<Line> := [];
    var quoted: seq<Line> := [];
    var inCallout := false;
    ghost var taken: seq<Line> := [];
    for i := 0 to |lines|
      invariant ClassifyAll(lines[..i]) == Some(taken)
      invariant blocks == Extracted(taken).blocks && inCallout == Extracted(taken).inCallout
      invariant inCallout ==> normal == [] && quoted == Extracted(taken).pending && quoted != []
      invariant !inCallout ==> quoted == [] && normal == Extracted(taken).pending
    {
      var kind := Classify(lines[i]);
      ClassifyNext(lines, i);
      if kind.None? {
        ErrorStays(lines, i + 1);
        return None;
      }
      var line := Line(lines[i], kind.value);
      assert (taken + [line])[..|taken|] == taken;
      taken := taken + [line];
      if line.kind == Callout {
        if normal != [] {
          blocks := blocks + [normal];
          normal := [];
        }
        inCallout := true;
        quoted := quoted + [line];
      } else if inCallout && line.kind == Quote {
        quoted := quoted + [line];
      } else {
        if inCallout {
          blocks := blocks + [quoted];
          quoted := [];
          inCallout := false;
        }
        normal := normal + [line];
      }
    }
    assert lines[..|lines|] == lines;
    if inCallout && quoted != [] {
      blocks := blocks + [quoted];
    }
    if normal != [] {
      blocks := blocks + [normal];
    }
    r := Some(blocks);
  }

  lemma ClassifyNext(lines: seq<string>, i: nat)
    requires i < |lines|
    ensures ClassifyAll(lines[..i + 1]) ==
            if ClassifyAll(lines[..i]).None? || Classify(lines[i]).None? then None
            else Some(ClassifyAll(lines[..i]).value + [Line(lines[i], Classify(lines[i]).value)])
  {
    assert lines[..i + 1][..i] == lines[..i];
  }

  lemma {:induction false} ErrorStays(lines: seq<string>, i: nat)
    requires i <= |lines| && ClassifyAll(lines[..i]).None?
    ensures ClassifyAll(lines).None?
    decreases |lines| - i
  {
    if i == |lines| {
      assert lines[..i] == lines;
    } else {
      ClassifyNext(lines, i);
      ErrorStays(lines, i + 1);
    }
  }

  /** The blocks of a section, whatever their flags. */
  ghost predicate Blocks(blocks: seq<seq<Line>>, lines: seq<Line>) {
    exists callout :: MaximalRuns(blocks, callout, lines)
  }
}
