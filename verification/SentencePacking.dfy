/**
  Packing a list of sentences into consecutive groups. A group is rendered by
  gluing its sentences together; it may exceed the maximum only when it is one
  single sentence. Both chunkers pack greedily: a group is closed exactly when the
  next sentence would not fit.
 */
module SentencePacking {
  import opened Text

  type Group = seq<string>

  function Flatten<T>(groups: seq<seq<T>>): seq<T> {
    if groups == [] then [] else groups[0] + Flatten(groups[1..])
  }

  lemma {:induction false} FlattenConcat<T>(a: seq<seq<T>>, b: seq<seq<T>>)
    ensures Flatten(a + b) == Flatten(a) + Flatten(b)
  {
    if a == [] {
      assert a + b == b;
    } else {
      FlattenConcat(a[1..], b);
      assert (a + b)[0] == a[0] && (a + b)[1..] == a[1..] + b;
      Associate(a[0], Flatten(a[1..]), Flatten(b));
    }
  }

  lemma Associate<T>(a: seq<T>, b: seq<T>, c: seq<T>)
    ensures (a + b) + c == a + (b + c)
  {
  }

  lemma PrefixSnoc<T>(s: seq<T>, n: nat)
    requires 0 < n <= |s|
    ensures s[..n] == s[..n - 1] + [s[n - 1]]
  {
  }

  lemma InitLast<T>(s: seq<T>)
    requires s != []
    ensures s[..|s| - 1] + [s[|s| - 1]] == s
  {
  }

  lemma FlattenSnoc<T>(a: seq<seq<T>>, g: seq<T>)
    ensures Flatten(a + [g]) == Flatten(a) + g
  {
    FlattenConcat(a, [g]);
    assert Flatten([g]) == g + [];
  }

  /** The sentences of a group with `glue` between them. */
  function Glue(g: Group, glue: string): string {
    if g == [] then "" else if |g| == 1 then g[0] else Glue(g[..|g| - 1], glue) + glue + g[|g| - 1]
  }

  lemma GlueSnoc(g: Group, s: string, glue: string)
    ensures Glue(g + [s], glue) == if g == [] then s else Glue(g, glue) + glue + s
  {
    assert (g + [s])[..|g|] == g;
  }

  /** Every sentence counted with one glue; a rendered group is one glue shorter. */
  function Weight(g: Group, glue: string): nat {
    if g == [] then 0 else Weight(g[..|g| - 1], glue) + Size(g[|g| - 1]) + Size(glue)
  }

  lemma WeightSnoc(g: Group, s: string, glue: string)
    ensures Weight(g + [s], glue) == Weight(g, glue) + Size(s) + Size(glue)
  {
    assert (g + [s])[..|g|] == g;
  }

  lemma {:induction false} WeightConcat(g: Group, h: Group, glue: string)
    ensures Weight(g + h, glue) == Weight(g, glue) + Weight(h, glue)
    decreases |h|
  {
    if h == [] {
      assert g + h == g;
    } else {
      var n := |h| - 1;
      WeightConcat(g, h[..n], glue);
      assert (g + h)[..|g + h| - 1] == g + h[..n];
    }
  }

  lemma {:induction false} GlueSize(g: Group, glue: string)
    requires g != []
    ensures Size(Glue(g, glue)) + Size(glue) == Weight(g, glue)
  {
    if |g| == 1 {
      assert g[..0] == [];
    } else {
      var n := |g| - 1;
      GlueSize(g[..n], glue);
      SizeConcat(Glue(g[..n], glue), glue);
      SizeConcat(Glue(g[..n], glue) + glue, g[n]);
    }
  }

  /** A group that may be emitted: it fits, or it is one sentence. */
  predicate Emittable(g: Group, glue: string, max: nat) {
    g != [] && (|g| == 1 || Weight(g, glue) <= max + Size(glue))
  }

  lemma EmittableMeansFits(g: Group, glue: string, max: nat)
    requires g != []
    ensures Emittable(g, glue, max) <==> |g| == 1 || Size(Glue(g, glue)) <= max
  {
    GlueSize(g, glue);
  }

  /** A cut of a sentence list into consecutive emittable groups. */
  predicate Cut(groups: seq<Group>, sentences: Group, glue: string, max: nat) {
    Flatten(groups) == sentences && forall i :: 0 <= i < |groups| ==> Emittable(groups[i], glue, max)
  }

  /** No group could have taken the first sentence of the next one. */
  predicate Greedy(groups: seq<Group>, glue: string, max: nat) {
    forall i :: 0 <= i < |groups| - 1 ==> Closed(groups, i, glue, max)
  }

  predicate Closed(groups: seq<Group>, i: nat, glue: string, max: nat)
    requires i < |groups| - 1
  {
    groups[i + 1] != [] && Overflows(groups[i], groups[i + 1][0], glue, max)
  }

  predicate Overflows(g: Group, s: string, glue: string, max: nat) {
    Weight(g, glue) + Size(s) > max
  }

  predicate IsSuffix(s: Group, t: Group) {
    |s| <= |t| && t[|t| - |s|..] == s
  }

  /** A group that reaches past a greedy group and its successor's first sentence cannot be emitted. */
  lemma CannotReachFurther(h: Group, before: Group, g: Group, next: string, glue: string, max: nat)
    requires g != [] && Overflows(g, next, glue, max)
    requires before + g + [next] <= h
    ensures !Emittable(h, glue, max)
  {
    var core := before + g + [next];
    var rest := h[|core|..];
    assert h == core + rest;
    WeightConcat(core, rest, glue);
    WeightConcat(before + g, [next], glue);
    WeightConcat(before, g, glue);
    assert Weight([next], glue) == Size(next) + Size(glue) by { WeightSnoc([], next, glue); assert [] + [next] == [next]; }
  }

  lemma SuffixTail(s: Group, t: Group, g: Group, h: Group, s': Group, t': Group)
    requires IsSuffix(s, t) && s == g + s' && t == h + t'
    requires |s'| <= |t'|
    ensures IsSuffix(s', t')
  {
    var k := |t'| - |s'|;
    forall i | 0 <= i < |s'| ensures t'[k..][i] == s'[i] {
      assert t'[k + i] == t[|h| + k + i];
      assert s'[i] == s[|g| + i];
      assert t[|t| - |s|..][|g| + i] == s[|g| + i];
    }
  }

  /**
    A greedy cut of a suffix never needs more groups than any cut of the whole
    list: group by group, it stays ahead.
   */
  lemma {:induction false} GreedyStaysAhead(gs: seq<Group>, s: Group, hs: seq<Group>, t: Group, glue: string, max: nat)
    requires Cut(gs, s, glue, max) && Greedy(gs, glue, max) && Cut(hs, t, glue, max)
    requires IsSuffix(s, t)
    ensures |gs| <= |hs|
    decreases |hs|
  {
    if gs != [] {
      var g, s' := gs[0], Flatten(gs[1..]);
      assert s == g + s' && g != [];
      assert |t| > 0;
      var h, t' := hs[0], Flatten(hs[1..]);
      assert t == h + t';
      assert Cut(hs[1..], t', glue, max);
      if |s| <= |t'| {
        SuffixTail(s, t, [], h, s, t');
        GreedyStaysAhead(gs, s, hs[1..], t', glue, max);
      } else {
        GreedyReachesAsFar(gs, s, s', hs, t, t', glue, max);
        SuffixTail(s, t, g, h, s', t');
        assert Cut(gs[1..], s', glue, max);
        GreedyTail(gs, glue, max);
        GreedyStaysAhead(gs[1..], s', hs[1..], t', glue, max);
      }
    }
  }

  /** When a cut's first group reaches into the suffix, the greedy first group reaches at least as far. */
  lemma GreedyReachesAsFar(gs: seq<Group>, s: Group, s': Group, hs: seq<Group>, t: Group, t': Group, glue: string, max: nat)
    requires gs != [] && hs != [] && s == gs[0] + s' && t == hs[0] + t' && s' == Flatten(gs[1..])
    requires Cut(gs, s, glue, max) && Greedy(gs, glue, max) && Emittable(hs[0], glue, max)
    requires IsSuffix(s, t) && |t'| < |s|
    ensures |s'| <= |t'|
  {
    if |t'| < |s'| {
      var g, h := gs[0], hs[0];
      var k := |t| - |s|;
      assert |gs| > 1;
      assert Closed(gs, 0, glue, max);
      var next := gs[1][0];
      assert gs[1..][0] == gs[1];
      assert s'[0] == next;
      var core := t[..k] + g + [next];
      assert core == t[..k + |g| + 1] by {
        assert t == t[..k] + s;
        assert s[..|g| + 1] == g + [next];
      }
      assert core <= h by { assert |core| <= |h|; assert t[..|core|] == h[..|core|]; }
      CannotReachFurther(h, t[..k], g, next, glue, max);
    }
  }

  lemma GreedyTail(gs: seq<Group>, glue: string, max: nat)
    requires gs != [] && Greedy(gs, glue, max)
    ensures Greedy(gs[1..], glue, max)
  {
    forall i | 0 <= i < |gs[1..]| - 1 ensures Closed(gs[1..], i, glue, max) {
      assert Closed(gs, i + 1, glue, max);
    }
  }

  /** A greedy cut has the fewest groups of all cuts of the same sentences. */
  lemma GreedyIsFewest(gs: seq<Group>, hs: seq<Group>, sentences: Group, glue: string, max: nat)
    requires Cut(gs, sentences, glue, max) && Greedy(gs, glue, max) && Cut(hs, sentences, glue, max)
    ensures |gs| <= |hs|
  {
    GreedyStaysAhead(gs, sentences, hs, sentences, glue, max);
  }

  // ----- growing a greedy cut one sentence at a time -----

  /** The finished groups with the open one, if any. */
  function WithOpen(done: seq<Group>, open: Group): seq<Group> {
    if open == [] then done else done + [open]
  }

  /** The next sentence fits: the open group takes it. */
  lemma ExtendOpen(done: seq<Group>, open: Group, sentences: Group, s: string, glue: string, max: nat)
    requires Cut(WithOpen(done, open), sentences, glue, max) && Greedy(WithOpen(done, open), glue, max)
    requires (open == [] ==> done == []) && (open != [] ==> !Overflows(open, s, glue, max))
    ensures Cut(WithOpen(done, open + [s]), sentences + [s], glue, max) && Greedy(WithOpen(done, open + [s]), glue, max)
  {
    if open == [] {
      assert done == [] && open + [s] == [s];
      assert WithOpen(done, open + [s]) == [[s]];
      FlattenSnoc([], [s]);
    } else {
      ExtendLast(done, open, sentences, s, glue, max);
    }
  }

  lemma ExtendLast(done: seq<Group>, open: Group, sentences: Group, s: string, glue: string, max: nat)
    requires open != [] && Cut(done + [open], sentences, glue, max) && Greedy(done + [open], glue, max)
    requires !Overflows(open, s, glue, max)
    ensures Cut(done + [open + [s]], sentences + [s], glue, max) && Greedy(done + [open + [s]], glue, max)
  {
    WeightSnoc(open, s, glue);
    FlattenSnoc(done, open);
    FlattenSnoc(done, open + [s]);
    var before, after := done + [open], done + [open + [s]];
    assert Flatten(after) == (Flatten(done) + open) + [s];
    forall i | 0 <= i < |after| ensures Emittable(after[i], glue, max) {
      if i < |done| { assert after[i] == before[i]; }
    }
    forall i | 0 <= i < |after| - 1 ensures Closed(after, i, glue, max) {
      assert Closed(before, i, glue, max);
      assert after[i] == before[i] && after[i + 1][0] == before[i + 1][0];
    }
  }

  /** The next sentence does not fit: the open group is closed and a new one starts with it. */
  lemma CloseOpen(done: seq<Group>, open: Group, sentences: Group, s: string, glue: string, max: nat)
    requires open != [] && Cut(done + [open], sentences, glue, max) && Greedy(done + [open], glue, max)
    requires Overflows(open, s, glue, max)
    ensures Cut(done + [open] + [[s]], sentences + [s], glue, max) && Greedy(done + [open] + [[s]], glue, max)
  {
    FlattenSnoc(done + [open], [s]);
    var before, after := done + [open], done + [open] + [[s]];
    forall i | 0 <= i < |after| ensures Emittable(after[i], glue, max) {
      if i < |before| { assert after[i] == before[i]; }
    }
    forall i | 0 <= i < |after| - 1 ensures Closed(after, i, glue, max) {
      if i < |done| {
        assert Closed(before, i, glue, max);
        assert after[i] == before[i] && after[i + 1] == before[i + 1];
      }
    }
  }

  datatype Packed = Packed(done: seq<Group>, open: Group)

  /** The open group takes the next sentence, or is closed when the sentence would not fit. */
  function PackNext(p: Packed, s: string, glue: string, max: nat): Packed {
    if p.open != [] && Overflows(p.open, s, glue, max) then Packed(p.done + [p.open], [s])
    else Packed(p.done, p.open + [s])
  }

  /** Greedy packing of the first `n` sentences. */
  function PackTo(sentences: Group, glue: string, max: nat, n: nat): Packed
    requires n <= |sentences|
  {
    if n == 0 then Packed([], []) else PackNext(PackTo(sentences, glue, max, n - 1), sentences[n - 1], glue, max)
  }

  /** Greedy packing: the groups of all sentences. */
  function Pack(sentences: Group, glue: string, max: nat): seq<Group> {
    var p := PackTo(sentences, glue, max, |sentences|);
    WithOpen(p.done, p.open)
  }

  predicate GreedyCut(p: Packed, taken: Group, glue: string, max: nat) {
    && Cut(WithOpen(p.done, p.open), taken, glue, max)
    && Greedy(WithOpen(p.done, p.open), glue, max)
    && (p.open == [] ==> p.done == [])
  }

  lemma PackNextIsGreedyCut(p: Packed, taken: Group, s: string, glue: string, max: nat)
    requires GreedyCut(p, taken, glue, max)
    ensures GreedyCut(PackNext(p, s, glue, max), taken + [s], glue, max)
  {
    if p.open != [] && Overflows(p.open, s, glue, max) {
      CloseOpen(p.done, p.open, taken, s, glue, max);
    } else {
      ExtendOpen(p.done, p.open, taken, s, glue, max);
    }
  }

  lemma {:induction false} PackToIsGreedyCut(sentences: Group, glue: string, max: nat, n: nat)
    requires n <= |sentences|
    ensures GreedyCut(PackTo(sentences, glue, max, n), sentences[..n], glue, max)
  {
    if n > 0 {
      PackToIsGreedyCut(sentences, glue, max, n - 1);
      assert sentences[..n] == sentences[..n - 1] + [sentences[n - 1]];
      PackNextIsGreedyCut(PackTo(sentences, glue, max, n - 1), sentences[..n - 1], sentences[n - 1], glue, max);
    }
  }

  /**
    Greedy packing loses and reorders no sentence, every group fits or is one
    single sentence, and no other cut of the list has fewer groups.
   */
  lemma PackIsFewest(sentences: Group, glue: string, max: nat)
    ensures Cut(Pack(sentences, glue, max), sentences, glue, max)
    ensures forall other: seq<Group> :: Cut(other, sentences, glue, max) ==> |Pack(sentences, glue, max)| <= |other|
  {
    PackToIsGreedyCut(sentences, glue, max, |sentences|);
    assert sentences[..|sentences|] == sentences;
    forall other: seq<Group> | Cut(other, sentences, glue, max) ensures |Pack(sentences, glue, max)| <= |other| {
      GreedyIsFewest(Pack(sentences, glue, max), other, sentences, glue, max);
    }
  }

  // ----- the packing loops, which keep rendered text instead of groups -----

  /** The loop tests sizes of the rendered text; that is the same test. */
  lemma OverflowBySize(open: Group, s: string, glue: string, max: nat)
    requires open != []
    ensures Overflows(open, s, glue, max) <==> Size(Glue(open, glue)) + Size(glue) + Size(s) > max
  {
    GlueSize(open, glue);
  }

  lemma RenderSnoc(groups: seq<Group>, g: Group, glue: string)
    ensures Render(groups + [g], glue) == Render(groups, glue) + [Glue(g, glue)]
  {
  }

  /** Rendered finished groups after `n` sentences. */
  function Emitted(sentences: Group, glue: string, max: nat, n: nat): seq<string>
    requires n <= |sentences|
  {
    Render(PackTo(sentences, glue, max, n).done, glue)
  }

  /** Rendered open group after `n` sentences. */
  function Pending(sentences: Group, glue: string, max: nat, n: nat): string
    requires n <= |sentences|
  {
    Glue(PackTo(sentences, glue, max, n).open, glue)
  }

  lemma PackStart(sentences: Group, glue: string, max: nat)
    ensures Emitted(sentences, glue, max, 0) == [] && Pending(sentences, glue, max, 0) == ""
  {
  }

  /** One more sentence, told by the sizes of the texts the loop holds. */
  lemma PackStep(sentences: Group, glue: string, max: nat, n: nat)
    requires n < |sentences|
    ensures var done, current, s := Emitted(sentences, glue, max, n), Pending(sentences, glue, max, n), sentences[n];
            if n > 0 && Size(current) + Size(glue) + Size(s) > max then
              Emitted(sentences, glue, max, n + 1) == done + [current] && Pending(sentences, glue, max, n + 1) == s
            else
              Emitted(sentences, glue, max, n + 1) == done && Pending(sentences, glue, max, n + 1) == if n > 0 then current + glue + s else s
  {
    var p, s := PackTo(sentences, glue, max, n), sentences[n];
    if n > 0 {
      OverflowBySize(p.open, s, glue, max);
    }
    GlueSnoc(p.open, s, glue);
    GlueSnoc([], s, glue);
    RenderSnoc(p.done, p.open, glue);
  }

  lemma PackEnd(sentences: Group, glue: string, max: nat)
    ensures var n := |sentences|;
            Render(Pack(sentences, glue, max), glue) ==
            if n > 0 then Emitted(sentences, glue, max, n) + [Pending(sentences, glue, max, n)] else []
  {
    var p := PackTo(sentences, glue, max, |sentences|);
    RenderSnoc(p.done, p.open, glue);
  }

  // ----- splitting text into sentences -----

  function Concat(pieces: seq<string>): string {
    Glue(pieces, "")
  }

  /** Section 5 of Unicode Standard Annex #29: non-empty pieces that concatenate to the text. */
  ghost predicate LawfulSplit(split: string -> seq<string>) {
    forall t: string :: Concat(split(t)) == t && forall i :: 0 <= i < |split(t)| ==> split(t)[i] != ""
  }

  lemma {:induction false} ConcatConcat(a: seq<string>, b: seq<string>)
    ensures Concat(a + b) == Concat(a) + Concat(b)
    decreases |b|
  {
    if b == [] {
      assert a + b == a;
    } else {
      var n := |b| - 1;
      ConcatConcat(a, b[..n]);
      assert a + b == (a + b[..n]) + [b[n]];
      assert b == b[..n] + [b[n]];
      ConcatSnoc(a + b[..n], b[n]);
      ConcatSnoc(b[..n], b[n]);
    }
  }

  lemma ConcatSnoc(a: seq<string>, s: string)
    ensures Concat(a + [s]) == Concat(a) + s
  {
    GlueSnoc(a, s, "");
    assert a != [] ==> Glue(a, "") + "" + s == Glue(a, "") + s;
  }

  function Render(groups: seq<Group>, glue: string): (r: seq<string>)
    ensures |r| == |groups|
  {
    seq(|groups|, i requires 0 <= i < |groups| => Glue(groups[i], glue))
  }

  lemma {:induction false} ConcatOfRender(groups: seq<Group>)
    ensures Concat(Render(groups, "")) == Concat(Flatten(groups))
    decreases |groups|
  {
    if groups == [] {
    } else {
      var n := |groups| - 1;
      ConcatOfRender(groups[..n]);
      assert groups == groups[..n] + [groups[n]];
      assert Render(groups, "") == Render(groups[..n], "") + [Concat(groups[n])];
      ConcatSnoc(Render(groups[..n], ""), Concat(groups[n]));
      FlattenSnoc(groups[..n], groups[n]);
      ConcatConcat(Flatten(groups[..n]), groups[n]);
    }
  }
}
