/**
  Splitting a Markdown body at its heading lines. Content before the first heading
  gets an empty heading.
 */
module MarkdownSections {
  import opened Text
  import opened SentencePacking

  datatype Section = Section(heading: string, lines: seq<string>)

  predicate IsHeading(line: string) {
    var t := TrimStart(line);
    |t| >= 2 && t[0] == '#' && (t[1] == '#' || t[1] == ' ')
  }

  function WithoutHashes(s: string): string {
    if s != "" && s[0] == '#' then WithoutHashes(s[1..]) else s
  }

  function HeadingText(line: string): string {
    Trim(WithoutHashes(line))
  }

  /** Finished sections, and the heading and lines of the one being collected. */
  datatype Splitting = Splitting(sections: seq<Section>, heading: string, lines: seq<string>)

  /** The section being collected is finished unless it has neither heading nor lines. */
  function Finished(x: Splitting): seq<Section> {
    if x.lines != [] || x.heading != "" then x.sections + [Section(x.heading, x.lines)] else x.sections
  }

  function SplitNext(x: Splitting, line: string): Splitting {
    if IsHeading(line) then Splitting(Finished(x), HeadingText(line), []) else x.(lines := x.lines + [line])
  }

  function SplitAt(lines: seq<string>): Splitting {
    if lines == [] then Splitting([], "", [])
    else SplitNext(SplitAt(lines[..|lines| - 1]), lines[|lines| - 1])
  }

  function Sections(lines: seq<string>): seq<Section> {
    Finished(SplitAt(lines))
  }

  /** `split_by_headings` */
  method SplitByHeadings(lines: seq<string>) returns (sections: seq<Section>)
    ensures sections == Sections(lines)
  {
    sections := [];
    var heading := "";
    var current: seq<string> := [];
    for i := 0 to |lines|
      invariant Splitting(sections, heading, current) == SplitAt(lines[..i])
    {
      var line := lines[i];
      assert lines[..i + 1][..i] == lines[..i];
      if IsHeading(line) {
        if current != [] || heading != "" {
          sections := sections + [Section(heading, current)];
          current := [];
        }
        heading := HeadingText(line);
      } else {
        current := current + [line];
      }
    }
    assert lines[..|lines|] == lines;
    if current != [] || heading != "" {
      sections := sections + [Section(heading, current)];
    }
  }

  /** The lines that are not headings, in order. */
  function BodyLines(lines: seq<string>): seq<string> {
    if lines == [] then []
    else
      var n := |lines| - 1;
      BodyLines(lines[..n]) + if IsHeading(lines[n]) then [] else [lines[n]]
  }

  function LinesOf(sections: seq<Section>): (ls: seq<seq<string>>)
    ensures |ls| == |sections|
  {
    seq(|sections|, i requires 0 <= i < |sections| => sections[i].lines)
  }

  lemma LinesOfSnoc(sections: seq<Section>, s: Section)
    ensures Flatten(LinesOf(sections + [s])) == Flatten(LinesOf(sections)) + s.lines
  {
    assert LinesOf(sections + [s]) == LinesOf(sections) + [s.lines];
    FlattenSnoc(LinesOf(sections), s.lines);
  }

  lemma FinishedLines(x: Splitting)
    ensures Flatten(LinesOf(Finished(x))) == Flatten(LinesOf(x.sections)) + x.lines
  {
    LinesOfSnoc(x.sections, Section(x.heading, x.lines));
    assert Flatten(LinesOf(x.sections)) + [] == Flatten(LinesOf(x.sections));
  }

  lemma {:induction false} SplitAtKeepsLines(lines: seq<string>)
    ensures var x := SplitAt(lines); Flatten(LinesOf(x.sections)) + x.lines == BodyLines(lines)
  {
    if lines != [] {
      var n := |lines| - 1;
      var x := SplitAt(lines[..n]);
      SplitAtKeepsLines(lines[..n]);
      FinishedLines(x);
      Associate(Flatten(LinesOf(x.sections)), x.lines, [lines[n]]);
    }
  }

  /** The sections hold exactly the lines that are not headings, in order. */
  lemma SectionsKeepLines(lines: seq<string>)
    ensures Flatten(LinesOf(Sections(lines))) == BodyLines(lines)
  {
    SplitAtKeepsLines(lines);
    FinishedLines(SplitAt(lines));
  }

  // ----- where sections begin and end -----

  /** Index of the first heading line, or the number of lines. */
  function FirstHeading(lines: seq<string>): (i: nat)
    ensures i <= |lines| && (i < |lines| ==> IsHeading(lines[i]))
    ensures forall k :: 0 <= k < i ==> !IsHeading(lines[k])
  {
    if lines == [] || IsHeading(lines[0]) then 0 else 1 + FirstHeading(lines[1..])
  }

  /** A heading owns the lines up to the next heading. */
  function Cuts(heading: string, lines: seq<string>): seq<Section>
    decreases |lines|
  {
    var i := FirstHeading(lines);
    [Section(heading, lines[..i])] + if i == |lines| then [] else Cuts(HeadingText(lines[i]), lines[i + 1..])
  }

  /** Without the sections that have neither heading text nor lines. */
  function NonEmpty(sections: seq<Section>): seq<Section> {
    if sections == [] then []
    else (if sections[0].heading != "" || sections[0].lines != [] then [sections[0]] else []) + NonEmpty(sections[1..])
  }

  /** The splitting loop from a given state on. */
  function SplitFrom(x: Splitting, lines: seq<string>): Splitting
    decreases |lines|
  {
    if lines == [] then x else SplitFrom(SplitNext(x, lines[0]), lines[1..])
  }

  lemma {:induction false} SplitFromSnoc(x: Splitting, lines: seq<string>, line: string)
    ensures SplitFrom(x, lines + [line]) == SplitNext(SplitFrom(x, lines), line)
    decreases |lines|
  {
    var all := lines + [line];
    if lines == [] {
      assert all == [line];
      assert SplitFrom(SplitNext(x, line), []) == SplitNext(x, line);
    } else {
      assert all[0] == lines[0] && all[1..] == lines[1..] + [line];
      SplitFromSnoc(SplitNext(x, lines[0]), lines[1..], line);
    }
  }

  lemma {:induction false} SplitAtIsSplitFrom(lines: seq<string>)
    ensures SplitAt(lines) == SplitFrom(Splitting([], "", []), lines)
  {
    if lines != [] {
      var n := |lines| - 1;
      SplitAtIsSplitFrom(lines[..n]);
      SplitFromSnoc(Splitting([], "", []), lines[..n], lines[n]);
      InitLast(lines);
    }
  }

  /** The cuts of lines of which some are collected already. */
  function CutsAfter(heading: string, taken: seq<string>, lines: seq<string>): seq<Section> {
    var i := FirstHeading(lines);
    [Section(heading, taken + lines[..i])] + if i == |lines| then [] else Cuts(HeadingText(lines[i]), lines[i + 1..])
  }

  lemma CutsAfterLine(heading: string, taken: seq<string>, lines: seq<string>)
    requires lines != [] && !IsHeading(lines[0])
    ensures CutsAfter(heading, taken, lines) == CutsAfter(heading, taken + [lines[0]], lines[1..])
  {
    var i, rest := FirstHeading(lines), lines[1..];
    assert FirstHeading(rest) == i - 1;
    assert lines[..i] == [lines[0]] + rest[..i - 1];
    Associate(taken, [lines[0]], rest[..i - 1]);
    if i < |lines| {
      assert rest[i - 1] == lines[i] && rest[i - 1 + 1..] == lines[i + 1..];
    }
  }

  lemma CutsAfterHeading(heading: string, taken: seq<string>, lines: seq<string>)
    requires lines != [] && IsHeading(lines[0])
    ensures CutsAfter(heading, taken, lines) == [Section(heading, taken)] + CutsAfter(HeadingText(lines[0]), [], lines[1..])
  {
    assert taken + lines[..0] == taken;
    var rest := lines[1..];
    assert [] + rest[..FirstHeading(rest)] == rest[..FirstHeading(rest)];
  }

  lemma NonEmptyCons(s: Section, rest: seq<Section>)
    ensures NonEmpty([s] + rest) == (if s.heading != "" || s.lines != [] then [s] else []) + NonEmpty(rest)
  {
    assert ([s] + rest)[0] == s && ([s] + rest)[1..] == rest;
  }

  lemma CutsAtEnd(x: Splitting)
    ensures Finished(x) == x.sections + NonEmpty(CutsAfter(x.heading, x.lines, []))
  {
    var one := Section(x.heading, x.lines);
    var none: seq<string> := [];
    assert x.lines + none[..0] == x.lines;
    assert CutsAfter(x.heading, x.lines, none) == [one] + [];
    NonEmptyCons(one, []);
    assert x.sections + [] == x.sections;
  }

  lemma FinishedThen(x: Splitting, rest: seq<Section>)
    ensures Finished(x) + NonEmpty(rest) == x.sections + NonEmpty([Section(x.heading, x.lines)] + rest)
  {
    NonEmptyCons(Section(x.heading, x.lines), rest);
    Associate(x.sections, [Section(x.heading, x.lines)], NonEmpty(rest));
    assert [] + NonEmpty(rest) == NonEmpty(rest);
  }

  lemma {:induction false} SplitFromCuts(x: Splitting, lines: seq<string>)
    ensures Finished(SplitFrom(x, lines)) == x.sections + NonEmpty(CutsAfter(x.heading, x.lines, lines))
    decreases |lines|
  {
    if lines == [] {
      CutsAtEnd(x);
    } else if IsHeading(lines[0]) {
      CutsAfterHeading(x.heading, x.lines, lines);
      FinishedThen(x, CutsAfter(HeadingText(lines[0]), [], lines[1..]));
      SplitFromCuts(SplitNext(x, lines[0]), lines[1..]);
    } else {
      CutsAfterLine(x.heading, x.lines, lines);
      SplitFromCuts(SplitNext(x, lines[0]), lines[1..]);
    }
  }

  /** The sections are exactly the stretches between headings, each under its own heading, empty ones left out. */
  lemma SectionsAreCuts(lines: seq<string>)
    ensures Sections(lines) == NonEmpty(Cuts("", lines))
  {
    SplitAtIsSplitFrom(lines);
    SplitFromCuts(Splitting([], "", []), lines);
    var i := FirstHeading(lines);
    assert [] + lines[..i] == lines[..i];
  }
}
