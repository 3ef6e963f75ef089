/**
  The HTML chunker after tag stripping: paragraphs are trimmed and filtered,
  adjacent ones are merged while their sizes add up to at most the maximum, and
  what is still too large is split at sentence boundaries.
 */
module HtmlChunker {
  import opened Text
  import opened SentencePacking

  const SPACE := " "

  /** The paragraphs that survive the first pass. */
  function FirstPass(paragraphs: seq<string>, min: nat): (kept: seq<string>)
    ensures forall i :: 0 <= i < |kept| ==> kept[i] != "" && Size(kept[i]) >= min
  {
    if paragraphs == [] then []
    else
      var t := Trim(paragraphs[|paragraphs| - 1]);
      FirstPass(paragraphs[..|paragraphs| - 1], min) + if t == "" || Size(t) < min then [] else [t]
  }

  lemma FirstPassSnoc(ps: seq<string>, p: string, min: nat)
    ensures FirstPass(ps + [p], min) == FirstPass(ps, min) + FirstPass([p], min)
  {
    assert (ps + [p])[..|ps|] == ps && [p][..0] == [];
  }

  /** Paragraphs are kept or dropped one by one, whatever surrounds them. */
  lemma {:induction false} FirstPassConcat(a: seq<string>, b: seq<string>, min: nat)
    ensures FirstPass(a + b, min) == FirstPass(a, min) + FirstPass(b, min)
    decreases |b|
  {
    if b == [] {
      assert a + b == a;
    } else {
      var n := |b| - 1;
      var init, last := b[..n], b[n];
      FirstPassConcat(a, init, min);
      FirstPassSnoc(a + init, last, min);
      FirstPassSnoc(init, last, min);
      InitLast(b);
      Associate(a, init, [last]);
      Associate(FirstPass(a, min), FirstPass(init, min), FirstPass([last], min));
    }
  }

  /** A paragraph is kept, trimmed, exactly when it is not blank and reaches the minimum. */
  lemma FirstPassOne(p: string, min: nat)
    ensures FirstPass([p], min) == if Blank(p) || Size(Trim(p)) < min then [] else [Trim(p)]
  {
    assert [p][..0] == [];
    TrimIsEmptyExactlyWhen(p);
  }

  method Filter(paragraphs: seq<string>, min: nat) returns (kept: seq<string>)
    ensures kept == FirstPass(paragraphs, min)
  {
    kept := [];
    for i := 0 to |paragraphs|
      invariant kept == FirstPass(paragraphs[..i], min)
    {
      var trimmed := Trim(paragraphs[i]);
      assert paragraphs[..i + 1][..i] == paragraphs[..i];
      if trimmed != "" && Size(trimmed) >= min {
        kept := kept + [trimmed];
      }
    }
    assert paragraphs[..|paragraphs|] == paragraphs;
  }

  /** A merged group: one paragraph, or one whose last paragraph passed the size test when it joined. */
  predicate Mergeable(g: Group, max: nat) {
    g != [] && (|g| == 1 || JoinSize(g) <= max)
  }

  /** What the merge compares with the maximum before the last paragraph joins: the separating space is not counted. */
  function JoinSize(g: Group): nat
    requires |g| > 1
  {
    Size(Glue(g[..|g| - 1], SPACE)) + Size(g[|g| - 1])
  }

  /** What the merge does with the next paragraph. */
  function MergeNext(p: Packed, c: string, max: nat): Packed {
    if p.open == [] then Packed(p.done, [c])
    else if Size(Glue(p.open, SPACE)) + Size(c) <= max then Packed(p.done, p.open + [c])
    else Packed(p.done + [p.open], [c])
  }

  /** Merging the first `n` paragraphs: finished groups and the open one. */
  function MergeTo(chunks: seq<string>, max: nat, n: nat): Packed
    requires n <= |chunks|
  {
    if n == 0 then Packed([], []) else MergeNext(MergeTo(chunks, max, n - 1), chunks[n - 1], max)
  }

  function Merge(chunks: seq<string>, max: nat): seq<Group> {
    var p := MergeTo(chunks, max, |chunks|);
    WithOpen(p.done, p.open)
  }

  /** Finished groups and the open one are mergeable; only the start has no open group. */
  predicate Grouped(p: Packed, max: nat) {
    && (forall i :: 0 <= i < |p.done| ==> Mergeable(p.done[i], max))
    && (if p.open == [] then p.done == [] else Mergeable(p.open, max))
  }

  lemma MergeNextGrouped(p: Packed, c: string, max: nat)
    requires Grouped(p, max)
    ensures Grouped(MergeNext(p, c, max), max) && MergeNext(p, c, max).open != []
  {
    if p.open != [] {
      assert (p.open + [c])[..|p.open|] == p.open;
    }
  }

  lemma MergeNextTakes(p: Packed, c: string, max: nat)
    requires p.open == [] ==> p.done == []
    ensures var q := MergeNext(p, c, max); Flatten(WithOpen(q.done, q.open)) == Flatten(WithOpen(p.done, p.open)) + [c]
  {
    FlattenSnoc(p.done, [c]);
    FlattenSnoc(p.done, p.open);
    FlattenSnoc(p.done, p.open + [c]);
    FlattenSnoc(p.done + [p.open], [c]);
    Associate(Flatten(p.done), p.open, [c]);
  }

  lemma {:induction false} MergeToGrouped(chunks: seq<string>, max: nat, n: nat)
    requires n <= |chunks|
    ensures Grouped(MergeTo(chunks, max, n), max) && (n > 0 <==> MergeTo(chunks, max, n).open != [])
  {
    if n > 0 {
      MergeToGrouped(chunks, max, n - 1);
      MergeNextGrouped(MergeTo(chunks, max, n - 1), chunks[n - 1], max);
    }
  }

  /** Every paragraph lands in exactly one group, in order, alone or after passing the size test. */
  lemma MergeToGroups(chunks: seq<string>, max: nat, n: nat)
    requires n <= |chunks|
    ensures Taken(MergeTo(chunks, max, n)) == chunks[..n] && Grouped(MergeTo(chunks, max, n), max)
  {
    MergeToGrouped(chunks, max, n);
    MergeToTakes(chunks, max, n);
  }

  function Taken(p: Packed): seq<string> {
    Flatten(WithOpen(p.done, p.open))
  }

  lemma {:induction false} MergeToTakes(chunks: seq<string>, max: nat, n: nat)
    requires n <= |chunks|
    ensures Taken(MergeTo(chunks, max, n)) == chunks[..n]
  {
    if n == 0 {
      NothingTaken(chunks);
    } else {
      PrefixSnoc(chunks, n);
      MergeToTakes(chunks, max, n - 1);
      OnlyStartIsEmpty(chunks, max, n - 1);
      NextTaken(MergeTo(chunks, max, n - 1), MergeTo(chunks, max, n), chunks[..n - 1], chunks[n - 1], chunks[..n], max);
    }
  }

  lemma NothingTaken(chunks: seq<string>)
    ensures Taken(Packed([], [])) == chunks[..0]
  {
  }

  lemma OnlyStartIsEmpty(chunks: seq<string>, max: nat, n: nat)
    requires n <= |chunks|
    ensures var p := MergeTo(chunks, max, n); p.open == [] ==> p.done == []
  {
  }

  lemma NextTaken(p: Packed, q: Packed, taken: seq<string>, c: string, all: seq<string>, max: nat)
    requires (p.open == [] ==> p.done == []) && q == MergeNext(p, c, max) && Taken(p) == taken && all == taken + [c]
    ensures Taken(q) == all
  {
    MergeNextTakes(p, c, max);
  }

  lemma JoinedSize(g: Group, c: string)
    requires g != []
    ensures Size(Glue(g + [c], SPACE)) == Size(Glue(g, SPACE)) + 1 + Size(c)
  {
    GlueSnoc(g, c, SPACE);
    SizeConcat(Glue(g, SPACE), SPACE);
    SizeConcat(Glue(g, SPACE) + SPACE, c);
    assert SPACE[0] == ' ' && Size(SPACE) == 1;
  }

  /** Merged text is never shorter than its first paragraph. */
  lemma {:induction false} MergedAtLeast(g: Group, min: nat)
    requires g != [] && forall i :: 0 <= i < |g| ==> Size(g[i]) >= min
    ensures Size(Glue(g, SPACE)) >= min
  {
    if |g| > 1 {
      var n := |g| - 1;
      SizeConcat(Glue(g[..n], SPACE), SPACE);
      SizeConcat(Glue(g[..n], SPACE) + SPACE, g[n]);
    }
  }

  lemma OpenIsLarge(chunks: seq<string>, max: nat, n: nat, min: nat)
    requires n <= |chunks| && forall i :: 0 <= i < |chunks| ==> chunks[i] != "" && Size(chunks[i]) >= min
    ensures var open := MergeTo(chunks, max, n).open;
            (open == [] <==> n == 0) && (open != [] ==> Size(Glue(open, SPACE)) >= min && Glue(open, SPACE) != "")
  {
    if n > 0 {
      MergeToGroups(chunks, max, n);
      var p := MergeTo(chunks, max, n);
      FlattenSnoc(p.done, p.open);
      forall i | 0 <= i < |p.open| ensures Size(p.open[i]) >= min && Size(p.open[i]) >= 1 {
        assert p.open[i] == (Flatten(p.done) + p.open)[|Flatten(p.done)| + i];
      }
      MergedAtLeast(p.open, min);
      MergedAtLeast(p.open, 1);
    }
  }

  /** The merge loop; with paragraphs of at least `min` bytes its size checks drop nothing. */
  method MergeSmallChunks(chunks: seq<string>, min: nat, max: nat) returns (merged: seq<string>)
    requires forall i :: 0 <= i < |chunks| ==> chunks[i] != "" && Size(chunks[i]) >= min
    ensures merged == Render(Merge(chunks, max), SPACE)
  {
    merged := [];
    var current := "";
    for i := 0 to |chunks|
      invariant current == Glue(MergeTo(chunks, max, i).open, SPACE)
      invariant merged == Render(MergeTo(chunks, max, i).done, SPACE)
    {
      var chunk := chunks[i];
      ghost var p := MergeTo(chunks, max, i);
      OpenIsLarge(chunks, max, i, min);
      GlueSnoc(p.open, chunk, SPACE);
      RenderSnoc(p.done, p.open, SPACE);
      if current == "" {
        current := chunk;
      } else if Size(current) + Size(chunk) <= max {
        current := current + SPACE + chunk;
      } else {
        if Size(current) >= min {
          merged := merged + [current];
        }
        current := chunk;
      }
    }
    OpenIsLarge(chunks, max, |chunks|, min);
    ghost var p := MergeTo(chunks, max, |chunks|);
    RenderSnoc(p.done, p.open, SPACE);
    MergeToGroups(chunks, max, |chunks|);
    if current != "" && Size(current) >= min {
      merged := merged + [current];
    }
  }

  lemma LastJoin(init: Group, last: string)
    requires init != []
    ensures Size(Glue(init + [last], SPACE)) == JoinSize(init + [last]) + 1
  {
    JoinedSize(init, last);
    assert (init + [last])[..|init|] == init;
  }

  /** A rendered group is one byte longer than what was compared when its last paragraph joined. */
  lemma RenderedSize(g: Group)
    requires |g| > 1
    ensures Size(Glue(g, SPACE)) == JoinSize(g) + 1
  {
    var init, last := g[..|g| - 1], g[|g| - 1];
    LastJoin(init, last);
    assert init + [last] == g;
  }

  /**
    For every input, what the merge pass emits exceeds the maximum exactly when it is
    one paragraph that already did, or when the sizes at its last join added up to
    exactly the maximum; then it is one byte too long.
   */
  lemma MergeExceedsExactlyWhen(chunks: seq<string>, max: nat, i: nat)
    requires i < |Merge(chunks, max)|
    ensures var g := Merge(chunks, max)[i];
            && g != []
            && (Size(Glue(g, SPACE)) > max <==> if |g| == 1 then Size(g[0]) > max else JoinSize(g) == max)
            && (|g| > 1 ==> Size(Glue(g, SPACE)) <= max + 1)
  {
    MergeToGroups(chunks, max, |chunks|);
    var g := Merge(chunks, max)[i];
    assert Mergeable(g, max);
    if |g| > 1 { RenderedSize(g); }
  }

  /** No finished group could have taken the first paragraph of the next one. */
  ghost predicate Separate(groups: seq<Group>, max: nat) {
    forall i, j :: 0 <= i && j == i + 1 && j < |groups| ==> TooLargeTogether(groups[i], groups[j], max)
  }

  predicate TooLargeTogether(g: Group, h: Group, max: nat) {
    h != [] && Size(Glue(g, SPACE)) + Size(h[0]) > max
  }

  lemma MergeNextSeparate(p: Packed, q: Packed, c: string, max: nat)
    requires Separate(WithOpen(p.done, p.open), max) && (p.open == [] ==> p.done == []) && q == MergeNext(p, c, max)
    ensures Separate(WithOpen(q.done, q.open), max)
  {
    var before, after := WithOpen(p.done, p.open), WithOpen(q.done, q.open);
    forall i, j | 0 <= i && j == i + 1 && j < |after| ensures TooLargeTogether(after[i], after[j], max) {
      if j < |before| {
        assert TooLargeTogether(before[i], before[j], max);
        assert after[i] == before[i] && after[j][0] == before[j][0];
      }
    }
  }

  lemma {:induction false} MergeToSeparate(chunks: seq<string>, max: nat, n: nat)
    requires n <= |chunks|
    ensures var p := MergeTo(chunks, max, n); Separate(WithOpen(p.done, p.open), max)
  {
    if n > 0 {
      MergeToSeparate(chunks, max, n - 1);
      OnlyStartIsEmpty(chunks, max, n - 1);
      MergeNextSeparate(MergeTo(chunks, max, n - 1), MergeTo(chunks, max, n), chunks[n - 1], max);
    }
  }

  /** The merge joins whenever it may: neighbouring groups are together too large at their border. */
  lemma MergeIsMaximal(chunks: seq<string>, max: nat)
    ensures Separate(Merge(chunks, max), max)
  {
    MergeToSeparate(chunks, max, |chunks|);
  }

  /** Two paragraphs that add up to exactly the maximum do merge, into one byte more. */
  lemma MergeCanExceedMax(a: string, b: string, max: nat)
    requires Size(a) + Size(b) == max
    ensures Merge([a, b], max) == [[a, b]]
    ensures Size(Render(Merge([a, b], max), SPACE)[0]) == max + 1
  {
    var cs := [a, b];
    assert MergeTo(cs, max, 1) == Packed([], [a]);
    assert MergeTo(cs, max, 2) == MergeNext(MergeTo(cs, max, 1), b, max);
    assert [a] + [b] == cs;
    JoinedSize([a], b);
  }

  /** One more sentence, appended to the text held without anything in between. */
  lemma PackStepPlain(sentences: seq<string>, glue: string, max: nat, n: nat, done: seq<string>, current: string)
    requires glue == "" && n < |sentences| && done == Emitted(sentences, glue, max, n) && current == Pending(sentences, glue, max, n)
    requires n > 0 <==> current != ""
    ensures var s := sentences[n];
            if current != "" && Size(current) + Size(s) > max then
              Emitted(sentences, glue, max, n + 1) == done + [current] && Pending(sentences, glue, max, n + 1) == s
            else
              Emitted(sentences, glue, max, n + 1) == done && Pending(sentences, glue, max, n + 1) == current + s
  {
    PackStep(sentences, glue, max, n);
    WithoutGlue(current, glue, sentences[n]);
  }

  lemma WithoutGlue(a: string, glue: string, b: string)
    requires glue == ""
    ensures a + glue + b == a + b && Size(glue) == 0 && glue + b == b
  {
  }

  /** The packing loop over non-empty sentences: the pieces are those of the greedy cut. */
  method PackSentences(sentences: seq<string>, max: nat) returns (pieces: seq<string>)
    requires forall i :: 0 <= i < |sentences| ==> sentences[i] != ""
    ensures pieces == Render(Pack(sentences, "", max), "")
  {
    pieces := [];
    var current := "";
    PackStart(sentences, "", max);
    for i := 0 to |sentences|
      invariant pieces == Emitted(sentences, "", max, i) && current == Pending(sentences, "", max, i)
      invariant i > 0 <==> current != ""
    {
      var sentence := sentences[i];
      PackStepPlain(sentences, "", max, i, pieces, current);
      assert "" + sentence == sentence;
      if Size(current) + Size(sentence) > max {
        if current != "" {
          pieces := pieces + [current];
          current := "";
        }
      }
      current := current + sentence;
    }
    PackEnd(sentences, "", max);
    if current != "" {
      pieces := pieces + [current];
    }
  }

  /** A chunk fits, or it is one whole sentence of one of the given texts that did not fit. */
  predicate FitsOrSentence(c: string, texts: seq<string>, split: string -> seq<string>, max: nat) {
    Size(c) <= max || exists text: string :: text in texts && Size(text) > max && c in split(text)
  }

  lemma PiecesFit(text: string, texts: seq<string>, split: string -> seq<string>, max: nat, i: nat)
    requires text in texts && Size(text) > max && i < |Pack(split(text), "", max)|
    ensures FitsOrSentence(Glue(Pack(split(text), "", max)[i], ""), texts, split, max)
  {
    var groups := Pack(split(text), "", max);
    PackIsFewest(split(text), "", max);
    var g := groups[i];
    EmittableMeansFits(g, "", max);
    if |g| == 1 {
      FlattenMember(groups, i, 0);
      assert g[0] in split(text);
    }
  }

  lemma {:induction false} FlattenMember(groups: seq<Group>, i: nat, j: nat)
    requires i < |groups| && j < |groups[i]|
    ensures groups[i][j] in Flatten(groups)
    decreases |groups|
  {
    if i > 0 {
      FlattenMember(groups[1..], i - 1, j);
    }
  }

  lemma PiecesKeepText(text: string, split: string -> seq<string>, max: nat)
    requires LawfulSplit(split)
    ensures Concat(Render(Pack(split(text), "", max), "")) == text
  {
    PackIsFewest(split(text), "", max);
    ConcatOfRender(Pack(split(text), "", max));
  }

  predicate AllFit(cs: seq<string>, texts: seq<string>, split: string -> seq<string>, max: nat) {
    forall i :: 0 <= i < |cs| ==> FitsOrSentence(cs[i], texts, split, max)
  }

  /** What becomes of one merged text. */
  function Pieces(text: string, split: string -> seq<string>, max: nat): seq<string> {
    if Size(text) <= max then [text] else Render(Pack(split(text), "", max), "")
  }

  function AllPieces(texts: seq<string>, split: string -> seq<string>, max: nat): (ps: seq<seq<string>>)
    ensures |ps| == |texts|
  {
    seq(|texts|, i requires 0 <= i < |texts| => Pieces(texts[i], split, max))
  }

  /** The groups cut the sentences of the text, and no other cut has fewer. */
  ghost predicate FewestCut(groups: seq<Group>, text: string, split: string -> seq<string>, max: nat) {
    && Cut(groups, split(text), "", max)
    && forall other: seq<Group> :: Cut(other, split(text), "", max) ==> |groups| <= |other|
  }

  /** A text that fits stays as it is; a larger one becomes the fewest pieces of whole sentences that fit or are one sentence. */
  ghost predicate BestSplit(pieces: seq<string>, text: string, split: string -> seq<string>, max: nat) {
    if Size(text) <= max then pieces == [text]
    else exists groups: seq<Group> :: pieces == Render(groups, "") && FewestCut(groups, text, split, max)
  }

  lemma PiecesAreBest(text: string, split: string -> seq<string>, max: nat)
    ensures BestSplit(Pieces(text, split, max), text, split, max)
  {
    if Size(text) > max {
      PackIsFewest(split(text), "", max);
      assert FewestCut(Pack(split(text), "", max), text, split, max);
    }
  }

  lemma OnePieceLaw(text: string, texts: seq<string>, split: string -> seq<string>, max: nat)
    requires LawfulSplit(split) && text in texts
    ensures Concat(Pieces(text, split, max)) == text && AllFit(Pieces(text, split, max), texts, split, max)
  {
    if Size(text) > max {
      PiecesKeepText(text, split, max);
      var out := Pieces(text, split, max);
      forall k | 0 <= k < |out| ensures FitsOrSentence(out[k], texts, split, max) {
        PiecesFit(text, texts, split, max, k);
      }
    }
  }

  lemma AllPiecesSnoc(texts: seq<string>, n: nat, split: string -> seq<string>, max: nat)
    requires 0 < n <= |texts|
    ensures Flatten(AllPieces(texts[..n], split, max)) ==
            Flatten(AllPieces(texts[..n - 1], split, max)) + Pieces(texts[n - 1], split, max)
  {
    assert AllPieces(texts[..n], split, max) == AllPieces(texts[..n - 1], split, max) + [Pieces(texts[n - 1], split, max)];
    FlattenSnoc(AllPieces(texts[..n - 1], split, max), Pieces(texts[n - 1], split, max));
  }

  lemma FitTogether(a: seq<string>, b: seq<string>, texts: seq<string>, split: string -> seq<string>, max: nat)
    requires AllFit(a, texts, split, max) && AllFit(b, texts, split, max)
    ensures AllFit(a + b, texts, split, max)
  {
  }

  /** Splitting keeps the text, and every piece fits or is a single sentence. */
  lemma {:induction false} AllPiecesLaw(texts: seq<string>, n: nat, split: string -> seq<string>, max: nat)
    requires LawfulSplit(split) && n <= |texts|
    ensures Concat(Flatten(AllPieces(texts[..n], split, max))) == Concat(texts[..n])
    ensures AllFit(Flatten(AllPieces(texts[..n], split, max)), texts, split, max)
  {
    if n == 0 {
      assert texts[..0] == [];
    } else {
      var before, last := Flatten(AllPieces(texts[..n - 1], split, max)), Pieces(texts[n - 1], split, max);
      AllPiecesSnoc(texts, n, split, max);
      AllPiecesLaw(texts, n - 1, split, max);
      OnePieceLaw(texts[n - 1], texts, split, max);
      ConcatConcat(before, last);
      FitTogether(before, last, texts, split, max);
      PrefixSnoc(texts, n);
      ConcatSnoc(texts[..n - 1], texts[n - 1]);
    }
  }

  /** The split pass, text by text. */
  method SplitLargeChunks(chunks: seq<string>, split: string -> seq<string>, max: nat) returns (out: seq<string>)
    requires LawfulSplit(split)
    ensures out == Flatten(AllPieces(chunks, split, max))
    ensures forall i :: 0 <= i < |chunks| ==> BestSplit(AllPieces(chunks, split, max)[i], chunks[i], split, max)
    ensures Concat(out) == Concat(chunks)
    ensures AllFit(out, chunks, split, max)
  {
    out := [];
    for i := 0 to |chunks|
      invariant out == Flatten(AllPieces(chunks[..i], split, max))
    {
      AllPiecesSnoc(chunks, i + 1, split, max);
      if Size(chunks[i]) <= max {
        out := out + [chunks[i]];
      } else {
        var pieces := PackSentences(split(chunks[i]), max);
        out := out + pieces;
      }
    }
    assert chunks[..|chunks|] == chunks;
    AllPiecesLaw(chunks, |chunks|, split, max);
    forall i | 0 <= i < |chunks| ensures BestSplit(AllPieces(chunks, split, max)[i], chunks[i], split, max) {
      PiecesAreBest(chunks[i], split, max);
    }
  }

  /** The merged texts of the paragraphs. */
  function MergedTexts(paragraphs: seq<string>, min: nat, max: nat): (ts: seq<string>)
    ensures |ts| == |Merge(FirstPass(paragraphs, min), max)|
  {
    Render(Merge(FirstPass(paragraphs, min), max), SPACE)
  }

  /**
    `chunk` on the paragraphs of the stripped text: after the first filter no
    paragraph is lost (the merged groups are consecutive and hold every kept one), the
    output is that of the merged texts one after the other, each unchanged when it fits
    and otherwise cut into the fewest pieces of whole sentences, and every chunk fits the
    maximum or is a single sentence of one of them, for every minimum and maximum.
   */
  method Chunk(paragraphs: seq<string>, min: nat, max: nat, split: string -> seq<string>) returns (out: seq<string>)
    requires LawfulSplit(split)
    ensures Flatten(Merge(FirstPass(paragraphs, min), max)) == FirstPass(paragraphs, min)
    ensures var texts := MergedTexts(paragraphs, min, max);
            && out == Flatten(AllPieces(texts, split, max))
            && (forall i :: 0 <= i < |texts| ==> BestSplit(AllPieces(texts, split, max)[i], texts[i], split, max))
            && Concat(out) == Concat(texts)
            && AllFit(out, texts, split, max)
  {
    var kept := Filter(paragraphs, min);
    var merged := MergeSmallChunks(kept, min, max);
    MergeToGroups(kept, max, |kept|);
    assert kept[..|kept|] == kept;
    out := SplitLargeChunks(merged, split, max);
  }
}
