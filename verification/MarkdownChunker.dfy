/**
  The Markdown chunker on a body without frontmatter: sections at heading lines,
  blocks that keep callouts whole, blocks within the limits as chunks, larger ones
  packed sentence by sentence, and chunks below the minimum merged with their
  successor. Heading metadata is not part of this model.
 */
module MarkdownChunker {
  import opened Text
  import opened SentencePacking
  import opened CalloutBlocks
  import opened MarkdownSections

  const SPACE := " "
  const BREAK := "\n\n"

  /** The non-whitespace characters of a text, in order: what chunking must not lose. */
  function Ink(s: string): string {
    if s == "" then "" else if IsWhitespace(s[0]) then Ink(s[1..]) else [s[0]] + Ink(s[1..])
  }

  lemma {:induction false} InkConcat(a: string, b: string)
    ensures Ink(a + b) == Ink(a) + Ink(b)
  {
    if a == "" {
      assert a + b == b;
    } else {
      InkConcat(a[1..], b);
      assert (a + b)[0] == a[0] && (a + b)[1..] == a[1..] + b;
      Associate([a[0]], Ink(a[1..]), Ink(b));
    }
  }

  lemma {:induction false} InkOfBlank(s: string)
    requires Blank(s)
    ensures Ink(s) == ""
  {
    if s != "" {
      InkOfBlank(s[1..]);
    }
  }

  lemma {:induction false} InkTrimStart(s: string)
    ensures Ink(TrimStart(s)) == Ink(s)
  {
    if s != "" && IsWhitespace(s[0]) {
      InkTrimStart(s[1..]);
    }
  }

  lemma {:induction false} InkTrimEnd(s: string)
    ensures Ink(TrimEnd(s)) == Ink(s)
  {
    if s != "" && IsWhitespace(s[|s| - 1]) {
      var n := |s| - 1;
      InkTrimEnd(s[..n]);
      InkConcat(s[..n], [s[n]]);
      assert s == s[..n] + [s[n]];
      InkOfBlank([s[n]]);
    }
  }

  lemma InkTrim(s: string)
    ensures Ink(Trim(s)) == Ink(s)
  {
    InkTrimStart(s);
    InkTrimEnd(TrimStart(s));
  }

  /** Glue made of whitespace adds no ink. */
  lemma {:induction false} InkGlue(g: Group, glue: string)
    requires Blank(glue)
    ensures Ink(Glue(g, glue)) == Ink(Concat(g))
  {
    if |g| > 1 {
      var n := |g| - 1;
      assert g == g[..n] + [g[n]];
      InkGlue(g[..n], glue);
      GlueSnoc(g[..n], g[n], glue);
      ConcatSnoc(g[..n], g[n]);
      InkConcat(Glue(g[..n], glue) + glue, g[n]);
      InkConcat(Glue(g[..n], glue), glue);
      InkOfBlank(glue);
      InkConcat(Concat(g[..n]), g[n]);
    }
  }

  lemma {:induction false} InkRender(groups: seq<Group>, glue: string)
    requires Blank(glue)
    ensures Ink(Concat(Render(groups, glue))) == Ink(Concat(Flatten(groups)))
    decreases |groups|
  {
    if groups != [] {
      var n := |groups| - 1;
      var init, last := groups[..n], groups[n];
      assert groups == init + [last];
      InkRender(init, glue);
      assert Render(groups, glue) == Render(init, glue) + [Glue(last, glue)];
      ConcatSnoc(Render(init, glue), Glue(last, glue));
      InkConcat(Concat(Render(init, glue)), Glue(last, glue));
      InkGlue(last, glue);
      FlattenSnoc(init, last);
      ConcatConcat(Flatten(init), last);
      InkConcat(Concat(Flatten(init)), Concat(last));
    }
  }

  /** `split_trimmed`: every piece trimmed, empty ones dropped. */
  function Trimmed(pieces: seq<string>): (r: seq<string>)
    ensures forall i :: 0 <= i < |r| ==> IsTrimmed(r[i])
  {
    if pieces == [] then []
    else
      var n := |pieces| - 1;
      Trimmed(pieces[..n]) + if Trim(pieces[n]) == "" then [] else [Trim(pieces[n])]
  }

  lemma {:induction false} InkTrimmed(pieces: seq<string>)
    ensures Ink(Concat(Trimmed(pieces))) == Ink(Concat(pieces))
  {
    if pieces != [] {
      var n := |pieces| - 1;
      var init, last := pieces[..n], pieces[n];
      assert pieces == init + [last];
      InkTrimmed(init);
      InkTrim(last);
      ConcatSnoc(init, last);
      InkConcat(Concat(init), last);
      ConcatSnoc(Trimmed(init), Trim(last));
      InkConcat(Concat(Trimmed(init)), Trim(last));
      if Trim(last) == "" {
        assert Trimmed(pieces) == Trimmed(init);
      }
    }
  }

  // ----- packing the sentences of a large text -----

  /** The pieces of a text above the maximum: the greedy cut of its trimmed sentences. */
  function SplitText(text: string, split: string -> seq<string>, max: nat): seq<string> {
    Render(Pack(Trimmed(split(text)), SPACE, max), SPACE)
  }

  lemma JoinTrimmed(a: string, b: string)
    requires IsTrimmed(a) && IsTrimmed(b)
    ensures IsTrimmed(a + SPACE + b)
  {
  }

  lemma SpaceIsOneByte()
    ensures Size(SPACE) == 1
  {
    assert SPACE[0] == ' ';
  }

  /** The text being collected never has whitespace at its ends, so trimming it changes nothing. */
  lemma {:induction false} PendingTrimmed(sentences: seq<string>, max: nat, n: nat)
    requires 0 < n <= |sentences| && forall i :: 0 <= i < |sentences| ==> IsTrimmed(sentences[i])
    ensures IsTrimmed(Pending(sentences, SPACE, max, n)) && Trim(Pending(sentences, SPACE, max, n)) == Pending(sentences, SPACE, max, n)
  {
    PackStep(sentences, SPACE, max, n - 1);
    if n > 1 {
      PendingTrimmed(sentences, max, n - 1);
      JoinTrimmed(Pending(sentences, SPACE, max, n - 1), sentences[n - 1]);
    }
    TrimOfTrimmed(Pending(sentences, SPACE, max, n));
  }

  /** The loop of `split_large_text`. */
  method PackSentences(sentences: seq<string>, max: nat) returns (pieces: seq<string>)
    requires forall i :: 0 <= i < |sentences| ==> IsTrimmed(sentences[i])
    ensures pieces == Render(Pack(sentences, SPACE, max), SPACE)
  {
    pieces := [];
    var current := "";
    PackStart(sentences, SPACE, max);
    SpaceIsOneByte();
    for i := 0 to |sentences|
      invariant pieces == Emitted(sentences, SPACE, max, i) && current == Pending(sentences, SPACE, max, i)
      invariant i > 0 <==> current != ""
    {
      var sentence := sentences[i];
      PackStep(sentences, SPACE, max, i);
      if i > 0 { PendingTrimmed(sentences, max, i); }
      if Size(current) + Size(sentence) + 1 > max && current != "" {
        pieces := pieces + [Trim(current)];
        current := "";
      }
      if current != "" {
        current := current + SPACE;
      }
      current := current + sentence;
    }
    PackEnd(sentences, SPACE, max);
    if |sentences| > 0 { PendingTrimmed(sentences, max, |sentences|); }
    if Trim(current) != "" {
      pieces := pieces + [Trim(current)];
    }
  }

  method SplitLargeText(text: string, split: string -> seq<string>, max: nat) returns (pieces: seq<string>)
    ensures pieces == SplitText(text, split, max)
  {
    pieces := PackSentences(Trimmed(split(text)), max);
  }

  lemma SplitTextKeepsInk(text: string, split: string -> seq<string>, max: nat)
    requires LawfulSplit(split)
    ensures Ink(Concat(SplitText(text, split, max))) == Ink(text)
  {
    PackIsFewest(Trimmed(split(text)), SPACE, max);
    InkRender(Pack(Trimmed(split(text)), SPACE, max), SPACE);
    InkTrimmed(split(text));
  }

  // ----- the size guarantee -----

  predicate IsBlock(text: string, blocks: seq<string>, i: nat) {
    i < |blocks| && text == Trim(blocks[i])
  }

  predicate IsRun(text: string, chunks: seq<string>, a: nat, b: nat) {
    a < b <= |chunks| && text == Glue(chunks[a..b], BREAK)
  }

  /** The texts that are split: trimmed blocks, and neighbouring chunks of the second pass merged by a blank line. */
  ghost predicate SplitSource(text: string, blocks: seq<string>, chunks: seq<string>) {
    || (exists i: nat :: IsBlock(text, blocks, i))
    || (exists a: nat, b: nat :: IsRun(text, chunks, a, b))
  }

  /** A chunk fits, or it is one trimmed sentence of a split text that did not fit. */
  ghost predicate FitsOrSentence(c: string, blocks: seq<string>, chunks: seq<string>, split: string -> seq<string>, max: nat) {
    Size(c) <= max ||
    exists text: string :: SplitSource(text, blocks, chunks) && Size(text) > max && c in Trimmed(split(text))
  }

  ghost predicate AllFit(cs: seq<string>, blocks: seq<string>, chunks: seq<string>, split: string -> seq<string>, max: nat) {
    forall i :: 0 <= i < |cs| ==> FitsOrSentence(cs[i], blocks, chunks, split, max)
  }

  lemma FitTogether(a: seq<string>, b: seq<string>, blocks: seq<string>, chunks: seq<string>, split: string -> seq<string>, max: nat)
    requires AllFit(a, blocks, chunks, split, max) && AllFit(b, blocks, chunks, split, max)
    ensures AllFit(a + b, blocks, chunks, split, max)
  {
  }

  lemma PieceFits(groups: seq<Group>, text: string, blocks: seq<string>, chunks: seq<string>, split: string -> seq<string>, max: nat, i: nat)
    requires SplitSource(text, blocks, chunks) && Size(text) > max
    requires Cut(groups, Trimmed(split(text)), SPACE, max) && i < |groups|
    ensures FitsOrSentence(Glue(groups[i], SPACE), blocks, chunks, split, max)
  {
    var g := groups[i];
    EmittableMeansFits(g, SPACE, max);
    if |g| == 1 {
      Member(groups, i);
      assert g[0] in Trimmed(split(text));
    }
  }

  lemma {:induction false} Member(groups: seq<Group>, i: nat)
    requires i < |groups| && groups[i] != []
    ensures groups[i][0] in Flatten(groups)
    decreases |groups|
  {
    if i > 0 {
      Member(groups[1..], i - 1);
    }
  }

  lemma SplitTextFits(text: string, blocks: seq<string>, chunks: seq<string>, split: string -> seq<string>, max: nat)
    requires SplitSource(text, blocks, chunks) && Size(text) > max
    ensures AllFit(SplitText(text, split, max), blocks, chunks, split, max)
  {
    var groups := Pack(Trimmed(split(text)), SPACE, max);
    PackIsFewest(Trimmed(split(text)), SPACE, max);
    forall i | 0 <= i < |groups| ensures FitsOrSentence(Render(groups, SPACE)[i], blocks, chunks, split, max) {
      PieceFits(groups, text, blocks, chunks, split, max, i);
    }
  }

  // ----- second pass: blocks to chunks -----

  /** The trimmed text of a block that reaches the output: one of at least `min` bytes, or above `max`. */
  function KeptText(block: string, min: nat, max: nat): string {
    var t := Trim(block);
    if Size(t) >= min || Size(t) > max then t else ""
  }

  /** The ink of the blocks that reach the output. */
  function KeptInk(blocks: seq<string>, min: nat, max: nat): string {
    if blocks == [] then ""
    else KeptInk(blocks[..|blocks| - 1], min, max) + Ink(KeptText(blocks[|blocks| - 1], min, max))
  }

  function BlockChunks(block: string, min: nat, max: nat, split: string -> seq<string>): seq<string> {
    var text := Trim(block);
    if text == "" then []
    else if Size(text) <= max then (if Size(text) >= min then [text] else [])
    else SplitText(text, split, max)
  }

  function SecondPass(blocks: seq<string>, min: nat, max: nat, split: string -> seq<string>): seq<string> {
    if blocks == [] then []
    else SecondPass(blocks[..|blocks| - 1], min, max, split) + BlockChunks(blocks[|blocks| - 1], min, max, split)
  }

  method ChunkBlocks(blocks: seq<string>, min: nat, max: nat, split: string -> seq<string>) returns (chunks: seq<string>)
    ensures chunks == SecondPass(blocks, min, max, split)
  {
    chunks := [];
    for i := 0 to |blocks|
      invariant chunks == SecondPass(blocks[..i], min, max, split)
    {
      assert blocks[..i + 1][..i] == blocks[..i];
      var text := Trim(blocks[i]);
      if text != "" {
        if Size(text) <= max {
          if Size(text) >= min {
            chunks := chunks + [text];
          }
        } else {
          var pieces := SplitLargeText(text, split, max);
          chunks := chunks + pieces;
        }
      }
    }
    assert blocks[..|blocks|] == blocks;
  }

  lemma InkAppend(a: seq<string>, b: seq<string>)
    ensures Ink(Concat(a + b)) == Ink(Concat(a)) + Ink(Concat(b))
  {
    ConcatConcat(a, b);
    InkConcat(Concat(a), Concat(b));
  }

  lemma InkSingle(s: string)
    ensures Ink(Concat([s])) == Ink(s)
  {
  }

  lemma BlockKeepsInk(block: string, min: nat, max: nat, split: string -> seq<string>)
    requires LawfulSplit(split)
    ensures Ink(Concat(BlockChunks(block, min, max, split))) == Ink(KeptText(block, min, max))
  {
    var text := Trim(block);
    if text != "" && Size(text) > max {
      SplitTextKeepsInk(text, split, max);
    } else {
      InkSingle(text);
    }
  }

  lemma {:induction false} SecondPassKeepsInk(blocks: seq<string>, min: nat, max: nat, split: string -> seq<string>)
    requires LawfulSplit(split)
    ensures Ink(Concat(SecondPass(blocks, min, max, split))) == KeptInk(blocks, min, max)
  {
    if blocks != [] {
      var n := |blocks| - 1;
      SecondPassKeepsInk(blocks[..n], min, max, split);
      BlockKeepsInk(blocks[n], min, max, split);
      InkAppend(SecondPass(blocks[..n], min, max, split), BlockChunks(blocks[n], min, max, split));
    }
  }

  lemma BlockFits(blocks: seq<string>, i: nat, chunks: seq<string>, min: nat, max: nat, split: string -> seq<string>)
    requires i < |blocks|
    ensures AllFit(BlockChunks(blocks[i], min, max, split), blocks, chunks, split, max)
  {
    var text := Trim(blocks[i]);
    if text != "" && Size(text) > max {
      assert IsBlock(text, blocks, i);
      SplitTextFits(text, blocks, chunks, split, max);
    }
  }

  lemma {:induction false} SecondPassFits(blocks: seq<string>, n: nat, chunks: seq<string>, min: nat, max: nat, split: string -> seq<string>)
    requires n <= |blocks|
    ensures AllFit(SecondPass(blocks[..n], min, max, split), blocks, chunks, split, max)
  {
    if n > 0 {
      assert blocks[..n][..n - 1] == blocks[..n - 1] && blocks[..n][n - 1] == blocks[n - 1];
      SecondPassFits(blocks, n - 1, chunks, min, max, split);
      BlockFits(blocks, n - 1, chunks, min, max, split);
      FitTogether(SecondPass(blocks[..n - 1], min, max, split), BlockChunks(blocks[n - 1], min, max, split), blocks, chunks, split, max);
    }
  }

  /** The second pass loses only the blocks below the minimum, and every chunk fits or is one sentence of a block. */
  lemma SecondPassLaw(blocks: seq<string>, chunks: seq<string>, min: nat, max: nat, split: string -> seq<string>)
    requires LawfulSplit(split)
    ensures Ink(Concat(SecondPass(blocks, min, max, split))) == KeptInk(blocks, min, max)
    ensures AllFit(SecondPass(blocks, min, max, split), blocks, chunks, split, max)
  {
    SecondPassKeepsInk(blocks, min, max, split);
    SecondPassFits(blocks, |blocks|, chunks, min, max, split);
    assert blocks[..|blocks|] == blocks;
  }

  predicate Reaches(block: string, min: nat, max: nat) {
    var t := Trim(block);
    t == "" || Size(t) >= min || Size(t) > max
  }

  lemma {:induction false} InkOfText(s: string)
    requires s != "" && !IsWhitespace(s[0])
    ensures Ink(s) != ""
  {
  }

  lemma {:induction false} KeptInkLength(blocks: seq<string>, min: nat, max: nat)
    ensures |KeptInk(blocks, min, max)| <= |Ink(Concat(blocks))|
    ensures KeptInk(blocks, min, max) == Ink(Concat(blocks)) <==> forall i :: 0 <= i < |blocks| ==> Reaches(blocks[i], min, max)
    ensures |KeptInk(blocks, min, max)| == |Ink(Concat(blocks))| ==> KeptInk(blocks, min, max) == Ink(Concat(blocks))
  {
    if blocks != [] {
      var n := |blocks| - 1;
      var init, last := blocks[..n], blocks[n];
      KeptInkLength(init, min, max);
      InitLast(blocks);
      InkAppend(init, [last]);
      InkSingle(last);
      InkTrim(last);
      if !Reaches(last, min, max) {
        InkOfText(Trim(last));
      }
      assert forall i :: 0 <= i < n ==> init[i] == blocks[i];
    }
  }

  /** The output has all the ink of the blocks exactly when every block that is not blank reaches the minimum or exceeds the maximum. */
  lemma NothingDroppedExactlyWhen(blocks: seq<string>, min: nat, max: nat)
    ensures KeptInk(blocks, min, max) == Ink(Concat(blocks)) <==> forall i :: 0 <= i < |blocks| ==> Reaches(blocks[i], min, max)
  {
    KeptInkLength(blocks, min, max);
  }

  // ----- third pass: chunks below the minimum join their successor -----

  /** Output so far and the chunk waiting to be merged. */
  datatype Merging = Merging(result: seq<string>, pending: Option<string>)

  function MergeNext(m: Merging, chunk: string, min: nat, max: nat, split: string -> seq<string>): Merging {
    match m.pending
    case None => Merging(m.result, Some(chunk))
    case Some(prev) =>
      if Size(prev) >= min then Merging(m.result + [prev], Some(chunk))
      else
        var merged := prev + BREAK + chunk;
        if Size(merged) <= max then Merging(m.result, Some(merged))
        else Merging(m.result + SplitText(merged, split, max), None)
  }

  function MergeTo(chunks: seq<string>, min: nat, max: nat, split: string -> seq<string>, n: nat): Merging
    requires n <= |chunks|
  {
    if n == 0 then Merging([], None)
    else MergeNext(MergeTo(chunks, min, max, split, n - 1), chunks[n - 1], min, max, split)
  }

  function Finish(m: Merging): seq<string> {
    match m.pending
    case None => m.result
    case Some(last) => m.result + [last]
  }

  method MergeSmallChunks(chunks: seq<string>, min: nat, max: nat, split: string -> seq<string>) returns (result: seq<string>)
    ensures result == Finish(MergeTo(chunks, min, max, split, |chunks|))
  {
    result := [];
    var pending: Option<string> := None;
    for i := 0 to |chunks|
      invariant Merging(result, pending) == MergeTo(chunks, min, max, split, i)
    {
      var chunk := chunks[i];
      match pending {
        case Some(prev) =>
          pending := None;
          if Size(prev) < min {
            var merged := prev + BREAK + chunk;
            if Size(merged) <= max {
              pending := Some(merged);
            } else {
              var pieces := SplitLargeText(merged, split, max);
              result := result + pieces;
            }
          } else {
            result := result + [prev];
            pending := Some(chunk);
          }
        case None =>
          pending := Some(chunk);
      }
    }
    match pending {
      case Some(last) => result := result + [last];
      case None =>
    }
  }

  function PendingInk(p: Option<string>): string {
    if p.None? then "" else Ink(p.value)
  }

  function InkOf(m: Merging): string {
    Ink(Concat(m.result)) + PendingInk(m.pending)
  }

  /** The chunk waiting is a run of the chunks taken, ending with the last one. */
  ghost predicate Waiting(p: Option<string>, chunks: seq<string>, n: nat) {
    p.Some? ==> exists a: nat :: IsRun(p.value, chunks, a, n)
  }

  ghost predicate MergingFits(m: Merging, blocks: seq<string>, chunks: seq<string>, split: string -> seq<string>, max: nat) {
    && AllFit(m.result, blocks, chunks, split, max)
    && (m.pending.Some? ==> FitsOrSentence(m.pending.value, blocks, chunks, split, max))
  }

  lemma InkOfMerge(prev: string, chunk: string)
    ensures Ink(prev + BREAK + chunk) == Ink(prev) + Ink(chunk)
  {
    assert Blank(BREAK);
    InkOfBlank(BREAK);
    InkConcat(prev + BREAK, chunk);
    InkConcat(prev, BREAK);
  }

  lemma MergeNextKeepsInk(m: Merging, chunk: string, min: nat, max: nat, split: string -> seq<string>)
    requires LawfulSplit(split)
    ensures InkOf(MergeNext(m, chunk, min, max, split)) == InkOf(m) + Ink(chunk)
  {
    match m.pending
    case None =>
      assert InkOf(m) == Ink(Concat(m.result));
    case Some(prev) =>
      var merged := prev + BREAK + chunk;
      if Size(prev) >= min {
        InkSingle(prev);
        InkAppend(m.result, [prev]);
      } else {
        Associate(Ink(Concat(m.result)), Ink(prev), Ink(chunk));
        InkOfMerge(prev, chunk);
        SplitKeepsInkAfter(m.result, merged, max, split);
      }
  }

  lemma SplitKeepsInkAfter(result: seq<string>, text: string, max: nat, split: string -> seq<string>)
    requires LawfulSplit(split)
    ensures Ink(Concat(result + SplitText(text, split, max))) + "" == Ink(Concat(result)) + Ink(text)
  {
    SplitTextKeepsInk(text, split, max);
    InkAppend(result, SplitText(text, split, max));
  }

  lemma RunGrows(prev: string, chunks: seq<string>, a: nat, n: nat)
    requires n < |chunks| && IsRun(prev, chunks, a, n)
    ensures IsRun(prev + BREAK + chunks[n], chunks, a, n + 1)
  {
    assert chunks[a..n + 1] == chunks[a..n] + [chunks[n]];
    GlueSnoc(chunks[a..n], chunks[n], BREAK);
  }

  lemma RunStarts(chunks: seq<string>, n: nat)
    requires n < |chunks|
    ensures IsRun(chunks[n], chunks, n, n + 1)
  {
    assert chunks[n..n + 1] == [chunks[n]];
  }

  /** What is merged is a run of neighbouring chunks, so an oversized merge splits into pieces that fit. */
  lemma MergeNextFits(m: Merging, next: Merging, blocks: seq<string>, chunks: seq<string>, n: nat, min: nat, max: nat, split: string -> seq<string>)
    requires n < |chunks| && MergingFits(m, blocks, chunks, split, max) && FitsOrSentence(chunks[n], blocks, chunks, split, max)
    requires Waiting(m.pending, chunks, n) && next == MergeNext(m, chunks[n], min, max, split)
    ensures MergingFits(next, blocks, chunks, split, max) && Waiting(next.pending, chunks, n + 1)
  {
    RunStarts(chunks, n);
    if m.pending.Some? {
      var prev := m.pending.value;
      var merged := prev + BREAK + chunks[n];
      var a: nat :| IsRun(prev, chunks, a, n);
      RunGrows(prev, chunks, a, n);
      if Size(prev) >= min {
        FitTogether(m.result, [prev], blocks, chunks, split, max);
      } else if Size(merged) > max {
        SplitTextFits(merged, blocks, chunks, split, max);
        FitTogether(m.result, SplitText(merged, split, max), blocks, chunks, split, max);
      }
    }
  }

  lemma {:induction false} MergeToKeepsInk(chunks: seq<string>, min: nat, max: nat, split: string -> seq<string>, n: nat)
    requires LawfulSplit(split) && n <= |chunks|
    ensures InkOf(MergeTo(chunks, min, max, split, n)) == Ink(Concat(chunks[..n]))
  {
    if n > 0 {
      MergeToKeepsInk(chunks, min, max, split, n - 1);
      DocumentAt(chunks, n);
      MergeNextKeepsInk(MergeTo(chunks, min, max, split, n - 1), chunks[n - 1], min, max, split);
    }
  }

  /** Output and waiting chunk after `n` chunks. */
  ghost predicate MergeOk(m: Merging, blocks: seq<string>, chunks: seq<string>, n: nat, split: string -> seq<string>, max: nat) {
    MergingFits(m, blocks, chunks, split, max) && Waiting(m.pending, chunks, n)
  }

  lemma MergeStarts(blocks: seq<string>, chunks: seq<string>, split: string -> seq<string>, max: nat)
    ensures MergeOk(Merging([], None), blocks, chunks, 0, split, max)
  {
  }

  lemma MergeStep(m: Merging, next: Merging, blocks: seq<string>, chunks: seq<string>, n: nat, min: nat, max: nat, split: string -> seq<string>)
    requires n < |chunks| && AllFit(chunks, blocks, chunks, split, max) && MergeOk(m, blocks, chunks, n, split, max)
    requires next == MergeNext(m, chunks[n], min, max, split)
    ensures MergeOk(next, blocks, chunks, n + 1, split, max)
  {
    MergeNextFits(m, next, blocks, chunks, n, min, max, split);
  }

  lemma {:induction false} MergeToFits(chunks: seq<string>, blocks: seq<string>, min: nat, max: nat, split: string -> seq<string>, n: nat)
    requires n <= |chunks| && AllFit(chunks, blocks, chunks, split, max)
    ensures MergeOk(MergeTo(chunks, min, max, split, n), blocks, chunks, n, split, max)
  {
    if n == 0 {
      MergeStarts(blocks, chunks, split, max);
    } else {
      MergeToFits(chunks, blocks, min, max, split, n - 1);
      MergeStep(MergeTo(chunks, min, max, split, n - 1), MergeTo(chunks, min, max, split, n), blocks, chunks, n - 1, min, max, split);
    }
  }

  lemma DocumentAt(chunks: seq<string>, n: nat)
    requires 0 < n <= |chunks|
    ensures Ink(Concat(chunks[..n])) == Ink(Concat(chunks[..n - 1])) + Ink(chunks[n - 1])
  {
    PrefixSnoc(chunks, n);
    InkAppend(chunks[..n - 1], [chunks[n - 1]]);
    InkSingle(chunks[n - 1]);
  }

  /** The third pass loses no ink, and every chunk fits or is one sentence of a block or of merged neighbours. */
  lemma ThirdPassLaw(chunks: seq<string>, blocks: seq<string>, min: nat, max: nat, split: string -> seq<string>)
    requires LawfulSplit(split) && AllFit(chunks, blocks, chunks, split, max)
    ensures var out := Finish(MergeTo(chunks, min, max, split, |chunks|));
            Ink(Concat(out)) == Ink(Concat(chunks)) && AllFit(out, blocks, chunks, split, max)
  {
    MergeToKeepsInk(chunks, min, max, split, |chunks|);
    MergeToFits(chunks, blocks, min, max, split, |chunks|);
    assert chunks[..|chunks|] == chunks;
    var m := MergeTo(chunks, min, max, split, |chunks|);
    if m.pending.Some? {
      InkAppend(m.result, [m.pending.value]);
      InkSingle(m.pending.value);
      FitTogether(m.result, [m.pending.value], blocks, chunks, split, max);
    }
  }

  // ----- first pass: sections to blocks -----

  const NEWLINE := "\n"

  function LineTexts(block: seq<Line>): (ts: seq<string>)
    ensures |ts| == |block|
  {
    seq(|block|, i requires 0 <= i < |block| => block[i].text)
  }

  function AllLineTexts(blocks: seq<seq<Line>>): (ts: seq<seq<string>>)
    ensures |ts| == |blocks|
  {
    seq(|blocks|, i requires 0 <= i < |blocks| => LineTexts(blocks[i]))
  }

  /** The lines of every block joined by newlines. */
  function Texts(blocks: seq<seq<Line>>): seq<string> {
    Render(AllLineTexts(blocks), NEWLINE)
  }

  function SectionText(section: Section): string {
    Glue(section.lines, NEWLINE)
  }

  /** The block texts of all sections in order, or nothing where a slice fails. */
  function BlockTexts(sections: seq<Section>): Option<seq<string>> {
    if sections == [] then Some([])
    else
      var n := |sections| - 1;
      match BlockTexts(sections[..n])
      case None => None
      case Some(before) =>
        match ExtractBlocks(Lines(SectionText(sections[n])))
        case None => None
        case Some(blocks) => Some(before + Texts(blocks))
  }

  /** A line with a multi-byte character right behind its quote sign. */
  predicate Unsliceable(line: string) {
    var t := Trim(line);
    |t| >= 2 && t[0] == '>' && Width(t[1]) > 1
  }

  predicate SectionFails(section: Section) {
    exists i :: 0 <= i < |Lines(SectionText(section))| && Unsliceable(Lines(SectionText(section))[i])
  }

  predicate SomeSectionFails(sections: seq<Section>) {
    exists j :: 0 <= j < |sections| && SectionFails(sections[j])
  }

  lemma SectionExtracts(section: Section)
    ensures ExtractBlocks(Lines(SectionText(section))).None? <==> SectionFails(section)
  {
    ExtractSucceedsExactlyWhen(Lines(SectionText(section)));
  }

  /** All sections are extracted exactly when no line of any of them is unsliceable. */
  lemma {:induction false} BlockTextsExactlyWhen(sections: seq<Section>)
    ensures BlockTexts(sections).None? <==> SomeSectionFails(sections)
  {
    if sections != [] {
      var n := |sections| - 1;
      InitLast(sections);
      SomeFailsSnoc(sections[..n], sections[n]);
      BlockTextsExactlyWhen(sections[..n]);
      SectionExtracts(sections[n]);
    }
  }

  lemma SomeFailsSnoc(before: seq<Section>, last: Section)
    ensures SomeSectionFails(before + [last]) <==> SomeSectionFails(before) || SectionFails(last)
  {
    var all := before + [last];
    assert all[|before|] == last;
    assert forall j :: 0 <= j < |before| ==> all[j] == before[j];
  }

  method ExtractAll(sections: seq<Section>) returns (r: Option<seq<string>>)
    ensures r == BlockTexts(sections)
  {
    var texts: seq<string> := [];
    for i := 0 to |sections|
      invariant BlockTexts(sections[..i]) == Some(texts)
    {
      assert sections[..i + 1][..i] == sections[..i];
      var blocks := Extract(Lines(SectionText(sections[i])));
      if blocks.None? {
        FailureStays(sections, i + 1);
        return None;
      }
      texts := texts + Texts(blocks.value);
    }
    assert sections[..|sections|] == sections;
    r := Some(texts);
  }

  lemma {:induction false} FailureStays(sections: seq<Section>, i: nat)
    requires i <= |sections| && BlockTexts(sections[..i]).None?
    ensures BlockTexts(sections).None?
    decreases |sections| - i
  {
    if i == |sections| {
      assert sections[..i] == sections;
    } else {
      assert sections[..i + 1][..i] == sections[..i];
      FailureStays(sections, i + 1);
    }
  }

  // ----- blocks keep the ink of the body -----

  lemma InkOfNewline(s: string)
    ensures Ink(s + NEWLINE) == Ink(s)
  {
    InkConcat(s, NEWLINE);
    InkOfBlank(NEWLINE);
  }

  lemma InkWithoutReturn(line: string)
    ensures Ink(WithoutReturn(line)) == Ink(line)
  {
    if line != "" && line[|line| - 1] == '\r' {
      var n := |line| - 1;
      InitLast(line);
      InkConcat(line[..n], [line[n]]);
      InkOfBlank([line[n]]);
    }
  }

  lemma {:induction false} InkLines(text: string)
    ensures Ink(Concat(Lines(text))) == Ink(text)
  {
    if text != "" {
      var n := LineEnd(text);
      if n == |text| {
        InkSingle(text);
      } else {
        var line, rest := text[..n], text[n + 1..];
        InkLines(rest);
        InkAppend([WithoutReturn(line)], Lines(rest));
        InkSingle(WithoutReturn(line));
        InkWithoutReturn(line);
        assert text == (line + NEWLINE) + rest;
        InkConcat(line + NEWLINE, rest);
        InkOfNewline(line);
      }
    }
  }

  lemma {:induction false} FlattenLineTexts(blocks: seq<seq<Line>>)
    ensures Flatten(AllLineTexts(blocks)) == LineTexts(Flatten(blocks))
    decreases |blocks|
  {
    if blocks != [] {
      FlattenLineTexts(blocks[1..]);
      assert AllLineTexts(blocks)[1..] == AllLineTexts(blocks[1..]);
      assert LineTexts(blocks[0] + Flatten(blocks[1..])) == LineTexts(blocks[0]) + LineTexts(Flatten(blocks[1..]));
    }
  }

  /** The blocks of a section have exactly its ink. */
  lemma SectionKeepsInk(section: Section)
    requires ExtractBlocks(Lines(SectionText(section))).Some?
    ensures Ink(Concat(Texts(ExtractBlocks(Lines(SectionText(section))).value))) == Ink(Concat(section.lines))
  {
    var lines := Lines(SectionText(section));
    var blocks := ExtractBlocks(lines).value;
    assert Blank(NEWLINE);
    ExtractSucceedsExactlyWhen(lines);
    ClassifyAllExactlyWhen(lines);
    InkRender(AllLineTexts(blocks), NEWLINE);
    FlattenLineTexts(blocks);
    FlattenOfBlocks(blocks, ClassifyAll(lines).value);
    assert LineTexts(Flatten(blocks)) == lines;
    InkLines(SectionText(section));
    InkGlue(section.lines, NEWLINE);
  }

  lemma FlattenOfBlocks(blocks: seq<seq<Line>>, lines: seq<Line>)
    requires Blocks(blocks, lines)
    ensures Flatten(blocks) == lines
  {
  }

  lemma {:induction false} BlocksKeepInk(sections: seq<Section>)
    requires BlockTexts(sections).Some?
    ensures Ink(Concat(BlockTexts(sections).value)) == Ink(Concat(Flatten(LinesOf(sections))))
  {
    if sections != [] {
      var n := |sections| - 1;
      var before := sections[..n];
      BlocksKeepInk(before);
      SectionKeepsInk(sections[n]);
      InkAppend(BlockTexts(before).value, Texts(ExtractBlocks(Lines(SectionText(sections[n]))).value));
      InitLast(sections);
      LinesOfSnoc(before, sections[n]);
      InkAppend(Flatten(LinesOf(before)), sections[n].lines);
    }
  }

  /** The blocks of a body have exactly the ink of its lines that are not headings. */
  lemma BodyKeepsInk(body: string)
    requires BlockTexts(Sections(Lines(body))).Some?
    ensures Ink(Concat(BlockTexts(Sections(Lines(body))).value)) == Ink(Concat(BodyLines(Lines(body))))
  {
    BlocksKeepInk(Sections(Lines(body)));
    SectionsKeepLines(Lines(body));
  }

  /** `SliceFailed` is the panic of a string slice off a character boundary. */
  datatype Result = Chunks(chunks: seq<string>) | EmptyContent | SliceFailed

  /**
    `chunk` on a body without frontmatter: blank content is an error and an
    unsliceable line a panic; otherwise every chunk fits the maximum or is a single
    sentence of a block or of merged neighbours that did not fit, for every minimum and
    maximum, and the output has exactly the ink of the blocks that reach the minimum,
    out of blocks that have the ink of all lines but the headings.
   */
  method Chunk(body: string, min: nat, max: nat, split: string -> seq<string>) returns (r: Result)
    requires LawfulSplit(split)
    ensures r.EmptyContent? <==> Blank(body)
    ensures r.SliceFailed? <==> !Blank(body) && SomeSectionFails(Sections(Lines(body)))
    ensures r.Chunks? ==>
              && BlockTexts(Sections(Lines(body))).Some?
              && var blocks := BlockTexts(Sections(Lines(body))).value;
              && Ink(Concat(blocks)) == Ink(Concat(BodyLines(Lines(body))))
              && (var second := SecondPass(blocks, min, max, split); r.chunks == Finish(MergeTo(second, min, max, split, |second|)))
              && Ink(Concat(r.chunks)) == KeptInk(blocks, min, max)
              && AllFit(r.chunks, blocks, SecondPass(blocks, min, max, split), split, max)
  {
    if Blank(body) {
      return EmptyContent;
    }
    var sections := SplitByHeadings(Lines(body));
    var extracted := ExtractAll(sections);
    BlockTextsExactlyWhen(sections);
    if extracted.None? {
      return SliceFailed;
    }
    var blocks := extracted.value;
    BodyKeepsInk(body);
    var chunks := ChunkBlocks(blocks, min, max, split);
    SecondPassLaw(blocks, chunks, min, max, split);
    var merged := MergeSmallChunks(chunks, min, max, split);
    ThirdPassLaw(chunks, blocks, min, max, split);
    r := Chunks(merged);
  }
}
