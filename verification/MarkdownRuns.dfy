/**
  Which chunks the Markdown chunker's passes produce: a block that fits is one chunk and
  a larger one the fewest pieces of its sentences; then neighbouring chunks are gathered
  into runs that grow exactly as long as they are below the minimum.
 */
module MarkdownRuns {
  import opened Text
  import opened SentencePacking
  import opened MarkdownChunker

  /** The pieces are a cut of the trimmed sentences of the text, and no other cut has fewer. */
  ghost predicate FewestPieces(pieces: seq<string>, text: string, split: string -> seq<string>, max: nat) {
    exists groups: seq<Group> :: pieces == Render(groups, SPACE) && FewestCut(groups, text, split, max)
  }

  ghost predicate FewestCut(groups: seq<Group>, text: string, split: string -> seq<string>, max: nat) {
    && Cut(groups, Trimmed(split(text)), SPACE, max)
    && forall other: seq<Group> :: Cut(other, Trimmed(split(text)), SPACE, max) ==> |groups| <= |other|
  }

  lemma SplitTextIsFewest(text: string, split: string -> seq<string>, max: nat)
    ensures FewestPieces(SplitText(text, split, max), text, split, max)
  {
    PackIsFewest(Trimmed(split(text)), SPACE, max);
    assert FewestCut(Pack(Trimmed(split(text)), SPACE, max), text, split, max);
  }

  /** A block below both limits is dropped, one that fits is one chunk, a larger one becomes the fewest pieces. */
  lemma BlockChunksAreBest(block: string, min: nat, max: nat, split: string -> seq<string>)
    ensures var text, out := Trim(block), BlockChunks(block, min, max, split);
            && (out == [text] <== text != "" && min <= Size(text) <= max)
            && (out == [] <== Size(text) <= max && (text == "" || Size(text) < min))
            && (Size(text) > max ==> FewestPieces(out, text, split, max))
  {
    SplitTextIsFewest(Trim(block), split, max);
  }

  // ----- runs of the merge pass -----

  type Run = seq<string>

  /** The text of a run: its chunks with a blank line between them. */
  function RunText(run: Run): string {
    Glue(run, BREAK)
  }

  /** Each time another chunk joined, the run was below the minimum, and within the maximum if it had joined before. */
  ghost predicate GrewWhileSmall(run: Run, min: nat, max: nat) {
    forall k :: 1 <= k < |run| ==> StillSmall(run[..k], min, max)
  }

  predicate StillSmall(run: Run, min: nat, max: nat) {
    Size(RunText(run)) < min && (|run| > 1 ==> Size(RunText(run)) <= max)
  }

  /** The run takes no further chunk: it reaches the minimum, or joining made it too large. */
  predicate Complete(run: Run, min: nat, max: nat) {
    Size(RunText(run)) >= min || (|run| > 1 && Size(RunText(run)) > max)
  }

  /** A run is emitted whole unless joining made it too large; then it is split again. */
  function Emit(run: Run, max: nat, split: string -> seq<string>): seq<string> {
    if |run| > 1 && Size(RunText(run)) > max then SplitText(RunText(run), split, max) else [RunText(run)]
  }

  function EmitAll(runs: seq<Run>, max: nat, split: string -> seq<string>): seq<string> {
    if runs == [] then []
    else EmitAll(runs[..|runs| - 1], max, split) + Emit(runs[|runs| - 1], max, split)
  }

  lemma EmitAllSnoc(runs: seq<Run>, run: Run, max: nat, split: string -> seq<string>)
    ensures EmitAll(runs + [run], max, split) == EmitAll(runs, max, split) + Emit(run, max, split)
  {
    assert (runs + [run])[..|runs|] == runs;
  }

  /** Complete runs and the one still growing, if any. */
  datatype Gathering = Gathering(done: seq<Run>, open: Run)

  function GatherNext(g: Gathering, chunk: string, min: nat, max: nat): Gathering {
    if g.open == [] then Gathering(g.done, [chunk])
    else if Size(RunText(g.open)) >= min then Gathering(g.done + [g.open], [chunk])
    else
      var run := g.open + [chunk];
      if Size(RunText(run)) <= max then Gathering(g.done, run) else Gathering(g.done + [run], [])
  }

  function Gather(chunks: seq<string>, min: nat, max: nat, n: nat): Gathering
    requires n <= |chunks|
  {
    if n == 0 then Gathering([], []) else GatherNext(Gather(chunks, min, max, n - 1), chunks[n - 1], min, max)
  }

  ghost predicate GatheringOk(g: Gathering, min: nat, max: nat) {
    && (forall i :: 0 <= i < |g.done| ==> RunOk(g.done[i], min, max) && Complete(g.done[i], min, max))
    && (g.open != [] ==> RunOk(g.open, min, max) && (|g.open| > 1 ==> Size(RunText(g.open)) <= max))
  }

  ghost predicate RunOk(run: Run, min: nat, max: nat) {
    run != [] && GrewWhileSmall(run, min, max)
  }

  lemma JoinKeepsRunOk(run: Run, chunk: string, min: nat, max: nat)
    requires RunOk(run, min, max) && Size(RunText(run)) < min && (|run| > 1 ==> Size(RunText(run)) <= max)
    ensures RunOk(run + [chunk], min, max)
  {
    var grown := run + [chunk];
    forall k | 1 <= k < |grown| ensures StillSmall(grown[..k], min, max) {
      if k < |run| {
        assert grown[..k] == run[..k];
      } else {
        assert grown[..k] == run;
      }
    }
  }

  lemma GatherNextOk(g: Gathering, next: Gathering, chunk: string, min: nat, max: nat)
    requires GatheringOk(g, min, max) && next == GatherNext(g, chunk, min, max)
    ensures GatheringOk(next, min, max)
  {
    if g.open != [] && Size(RunText(g.open)) < min {
      JoinKeepsRunOk(g.open, chunk, min, max);
    }
  }

  /** The merge pass holds the rendered form of the gathering. */
  predicate Shows(m: Merging, g: Gathering, max: nat, split: string -> seq<string>) {
    && m.result == EmitAll(g.done, max, split)
    && m.pending == if g.open == [] then None else Some(RunText(g.open))
  }

  lemma GatherNextShown(m: Merging, g: Gathering, chunk: string, min: nat, max: nat, split: string -> seq<string>)
    requires Shows(m, g, max, split) && (g.open != [] && |g.open| > 1 ==> Size(RunText(g.open)) <= max)
    ensures Shows(MergeNext(m, chunk, min, max, split), GatherNext(g, chunk, min, max), max, split)
  {
    if g.open != [] {
      EmitAllSnoc(g.done, g.open, max, split);
      EmitAllSnoc(g.done, g.open + [chunk], max, split);
      GlueSnoc(g.open, chunk, BREAK);
    }
  }

  function GatheredChunks(g: Gathering): seq<string> {
    Flatten(g.done) + g.open
  }

  lemma GatherNextTakes(g: Gathering, chunk: string, min: nat, max: nat)
    ensures GatheredChunks(GatherNext(g, chunk, min, max)) == GatheredChunks(g) + [chunk]
  {
    if g.open == [] {
      assert Flatten(g.done) + [] == Flatten(g.done);
    } else {
      FlattenSnoc(g.done, g.open);
      FlattenSnoc(g.done, g.open + [chunk]);
      Associate(Flatten(g.done), g.open, [chunk]);
      assert (Flatten(g.done) + (g.open + [chunk])) + [] == Flatten(g.done) + (g.open + [chunk]);
    }
  }

  lemma {:induction false} GatherOk(chunks: seq<string>, min: nat, max: nat, n: nat)
    requires n <= |chunks|
    ensures GatheringOk(Gather(chunks, min, max, n), min, max)
  {
    if n > 0 {
      GatherOk(chunks, min, max, n - 1);
      GatherNextOk(Gather(chunks, min, max, n - 1), Gather(chunks, min, max, n), chunks[n - 1], min, max);
    }
  }

  lemma {:induction false} GatherTakes(chunks: seq<string>, min: nat, max: nat, n: nat)
    requires n <= |chunks|
    ensures GatheredChunks(Gather(chunks, min, max, n)) == chunks[..n]
  {
    if n > 0 {
      PrefixSnoc(chunks, n);
      GatherTakes(chunks, min, max, n - 1);
      GatherNextTakes(Gather(chunks, min, max, n - 1), chunks[n - 1], min, max);
    }
  }

  lemma {:induction false} GatherShown(chunks: seq<string>, min: nat, max: nat, split: string -> seq<string>, n: nat)
    requires n <= |chunks|
    ensures Shows(MergeTo(chunks, min, max, split, n), Gather(chunks, min, max, n), max, split)
  {
    if n > 0 {
      GatherShown(chunks, min, max, split, n - 1);
      GatherOk(chunks, min, max, n - 1);
      GatherNextShown(MergeTo(chunks, min, max, split, n - 1), Gather(chunks, min, max, n - 1), chunks[n - 1], min, max, split);
    }
  }

  /** The runs of all chunks. */
  function Runs(chunks: seq<string>, min: nat, max: nat): seq<Run> {
    var g := Gather(chunks, min, max, |chunks|);
    if g.open == [] then g.done else g.done + [g.open]
  }

  /**
    The merge pass cuts the chunks into consecutive runs. A run grows exactly while it is
    below the minimum: it was below it whenever a chunk joined, and every run but the last
    ends because it reaches the minimum or has become too large. Its text is emitted as
    one chunk, or as the fewest pieces if joining made it too large.
   */
  lemma MergeGathersRuns(chunks: seq<string>, min: nat, max: nat, split: string -> seq<string>)
    ensures var runs := Runs(chunks, min, max);
            && Flatten(runs) == chunks
            && (forall i :: 0 <= i < |runs| ==> RunOk(runs[i], min, max))
            && (forall i :: 0 <= i < |runs| - 1 ==> Complete(runs[i], min, max))
            && Finish(MergeTo(chunks, min, max, split, |chunks|)) == EmitAll(runs, max, split)
  {
    var n := |chunks|;
    var g := Gather(chunks, min, max, n);
    GatherOk(chunks, min, max, n);
    GatherTakes(chunks, min, max, n);
    GatherShown(chunks, min, max, split, n);
    assert chunks[..n] == chunks;
    if g.open == [] {
      assert Flatten(g.done) + [] == Flatten(g.done);
    } else {
      FlattenSnoc(g.done, g.open);
      EmitAllSnoc(g.done, g.open, max, split);
    }
  }

  lemma EmitIsBest(run: Run, max: nat, split: string -> seq<string>)
    ensures if |run| > 1 && Size(RunText(run)) > max then FewestPieces(Emit(run, max, split), RunText(run), split, max)
            else Emit(run, max, split) == [RunText(run)]
  {
    SplitTextIsFewest(RunText(run), split, max);
  }
}
