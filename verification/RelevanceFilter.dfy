/**
  The z-score relevance filter: distances of chunk embeddings from their
  centroid, mean and standard deviation of the distances, and the chunks whose
  z-score stays within `3 (1 - threshold)`.
 */
module RelevanceFilter {
  import opened VectorOps

  function SumTo(ds: Vector, n: nat): real
    requires n <= |ds|
  {
    if n == 0 then 0.0 else SumTo(ds, n - 1) + ds[n - 1]
  }

  function Mean(ds: Vector): real
    requires ds != []
  {
    SumTo(ds, |ds|) / |ds| as real
  }

  function Squared(x: real): real {
    x * x
  }

  function Deviations(ds: Vector, m: real): (sq: Vector)
    ensures |sq| == |ds|
  {
    seq(|ds|, i requires 0 <= i < |ds| => Squared(ds[i] - m))
  }

  function Variance(ds: Vector): real
    requires ds != []
  {
    SumTo(Deviations(ds, Mean(ds)), |ds|) / |ds| as real
  }

  function Abs(x: real): real {
    if x >= 0.0 then x else -x
  }

  const FLOOR: real := 0.000001

  /** The standard deviation with its floor. */
  function Scale(ds: Vector, sqrt: real -> real): real
    requires ds != []
  {
    var sd := sqrt(Variance(ds));
    if sd >= FLOOR then sd else FLOOR
  }

  function ZLimit(threshold: real): real {
    3.0 * (1.0 - threshold)
  }

  function ZScore(d: real, mean: real, scale: real): real
    requires scale > 0.0
  {
    Abs(d - mean) / scale
  }

  predicate Keeps(d: real, mean: real, scale: real, limit: real)
    requires scale > 0.0
  {
    ZScore(d, mean, scale) <= limit
  }

  /** Which distances the filter keeps. */
  function Verdicts(ds: Vector, mean: real, scale: real, limit: real): (keep: seq<bool>)
    requires scale > 0.0
    ensures |keep| == |ds|
  {
    seq(|ds|, i requires 0 <= i < |ds| => Keeps(ds[i], mean, scale, limit))
  }

  /** How many of the first `n` verdicts are negative. */
  function RejectedTo(keep: seq<bool>, n: nat): (k: nat)
    requires n <= |keep|
    ensures k <= n
  {
    if n == 0 then 0 else RejectedTo(keep, n - 1) + if keep[n - 1] then 0 else 1
  }

  function VerdictsAt(ds: Vector, threshold: real, sqrt: real -> real): (keep: seq<bool>)
    requires ds != []
    ensures |keep| == |ds|
  {
    Verdicts(ds, Mean(ds), Scale(ds, sqrt), ZLimit(threshold))
  }

  function Dropped(ds: Vector, threshold: real, sqrt: real -> real): (k: nat)
    requires ds != []
    ensures k <= |ds|
  {
    RejectedTo(VerdictsAt(ds, threshold, sqrt), |ds|)
  }

  // ----- Chebyshev -----

  /** `k` times `x` by repeated addition. */
  function Times(k: nat, x: real): real {
    if k == 0 then 0.0 else Times(k - 1, x) + x
  }

  lemma {:induction false} TimesIsProduct(k: nat, x: real)
    ensures Times(k, x) == k as real * x
  {
    if k == 0 {
      assert 0.0 * x == 0.0;
    } else {
      TimesIsProduct(k - 1, x);
      assert k as real == (k - 1) as real + 1.0;
      assert ((k - 1) as real + 1.0) * x == (k - 1) as real * x + x;
    }
  }

  /** If every rejected entry exceeds `far`, the entries sum to more than `far` times the rejections. */
  lemma {:induction false} RejectedSum(sq: Vector, keep: seq<bool>, far: real, n: nat)
    requires n <= |sq| == |keep|
    requires forall i :: 0 <= i < |sq| ==> sq[i] >= 0.0 && (!keep[i] ==> sq[i] > far)
    ensures SumTo(sq, n) >= 0.0
    ensures Times(RejectedTo(keep, n), far) <= SumTo(sq, n)
    ensures RejectedTo(keep, n) > 0 ==> Times(RejectedTo(keep, n), far) < SumTo(sq, n)
  {
    if n > 0 {
      RejectedSum(sq, keep, far, n - 1);
    }
  }

  lemma SquareNonNegative(x: real)
    ensures Squared(x) >= 0.0
  {
  }

  lemma SquarePositive(x: real)
    requires x > 0.0
    ensures Squared(x) > 0.0
  {
    SquareOrder(0.0, x);
  }

  lemma DeviationsNonNegative(ds: Vector, m: real)
    ensures forall i :: 0 <= i < |ds| ==> Deviations(ds, m)[i] >= 0.0
  {
    forall i | 0 <= i < |ds| ensures Deviations(ds, m)[i] >= 0.0 { SquareNonNegative(ds[i] - m); }
  }

  lemma {:induction false} TimesMonotone(k: nat, x: real, y: real)
    requires x <= y
    ensures Times(k, x) <= Times(k, y)
  {
    if k > 0 {
      TimesMonotone(k - 1, x, y);
    }
  }

  lemma TimesOfQuotient(n: nat, total: real)
    requires n > 0
    ensures Times(n, total / n as real) == total
    ensures total >= 0.0 ==> total / n as real >= 0.0
  {
    var v := total / n as real;
    assert v * n as real == total;
    TimesIsProduct(n, v);
    if v < 0.0 { StrictMul(v, 0.0, n as real); }
  }

  lemma VarianceFacts(ds: Vector)
    requires ds != []
    ensures Variance(ds) >= 0.0
    ensures Times(|ds|, Variance(ds)) == SumTo(Deviations(ds, Mean(ds)), |ds|)
  {
    var sq := Deviations(ds, Mean(ds));
    DeviationsNonNegative(ds, Mean(ds));
    RejectedSum(sq, seq(|ds|, _ => true), 0.0, |ds|);
    TimesOfQuotient(|ds|, SumTo(sq, |ds|));
  }

  lemma FlooredRoot(sd: real, v: real, s: real)
    requires IsRoot(sd, v) && s == if sd >= FLOOR then sd else FLOOR
    ensures s > 0.0 && v <= Squared(s)
  {
    if sd < s { SquareOrder(sd, s); }
  }

  /** The squared scale covers the spread of the distances. */
  lemma ScaleCovers(ds: Vector, sqrt: real -> real)
    requires ds != [] && LawfulSqrt(sqrt)
    ensures Scale(ds, sqrt) > 0.0
    ensures SumTo(Deviations(ds, Mean(ds)), |ds|) <= Times(|ds|, Squared(Scale(ds, sqrt)))
  {
    var v := Variance(ds);
    VarianceFacts(ds);
    assert IsRoot(sqrt(v), v);
    FlooredRoot(sqrt(v), v, Scale(ds, sqrt));
    TimesMonotone(|ds|, v, Squared(Scale(ds, sqrt)));
  }

  /** A dropped distance lies further from the mean than the limit allows. */
  lemma DroppedIsFar(d: real, mean: real, scale: real, limit: real, far: real)
    requires scale > 0.0 && limit >= 0.0 && !Keeps(d, mean, scale, limit) && far == Squared(limit) * Squared(scale)
    ensures Squared(d - mean) > far
  {
    var x, z := Abs(d - mean), ZScore(d, mean, scale);
    assert z * scale == x;
    StrictMul(limit, z, scale);
    NonNegativeProduct(limit, scale);
    SquareOrder(limit * scale, x);
    SquareOfProduct(limit, scale);
    assert x * x == (d - mean) * (d - mean);
  }

  lemma RejectedAreFar(ds: Vector, mean: real, scale: real, limit: real, far: real)
    requires scale > 0.0 && limit >= 0.0 && far == Squared(limit) * Squared(scale)
    ensures var sq, keep := Deviations(ds, mean), Verdicts(ds, mean, scale, limit);
            forall i :: 0 <= i < |sq| ==> sq[i] >= 0.0 && (!keep[i] ==> sq[i] > far)
  {
    var sq, keep := Deviations(ds, mean), Verdicts(ds, mean, scale, limit);
    forall i | 0 <= i < |sq| ensures sq[i] >= 0.0 && (!keep[i] ==> sq[i] > far) {
      SquareNonNegative(ds[i] - mean);
      if !Keeps(ds[i], mean, scale, limit) { DroppedIsFar(ds[i], mean, scale, limit, far); }
    }
  }

  lemma {:induction false} TimesFactors(k: nat, l2: real, s2: real)
    ensures Times(k, l2 * s2) == Times(k, l2) * s2
  {
    if k == 0 {
      assert 0.0 * s2 == 0.0;
    } else {
      TimesFactors(k - 1, l2, s2);
      Distribute(s2, Times(k - 1, l2), l2);
    }
  }

  lemma CancelTimes(t: real, n: nat, s2: real)
    requires s2 > 0.0 && t * s2 < Times(n, s2)
    ensures t < n as real
  {
    TimesIsProduct(n, s2);
    if t > n as real { StrictMul(n as real, t, s2); }
  }

  /** Rejections against the spread: when `k` terms beyond `l2 * s2` fit below `n` terms of `s2`, `k` times `l2` fits below `n`. */
  lemma FitsBelow(k: nat, n: nat, l2: real, s2: real)
    requires s2 > 0.0 && Times(k, l2 * s2) < Times(n, s2)
    ensures Times(k, l2) < n as real
  {
    TimesFactors(k, l2, s2);
    CancelTimes(Times(k, l2), n, s2);
  }

  /** The squared deviations and verdicts of a page, with what matters about them. */
  lemma Measured(ds: Vector, mean: real, scale: real, limit: real, far: real) returns (sq: Vector, keep: seq<bool>)
    requires scale > 0.0 && limit >= 0.0 && far == Squared(limit) * Squared(scale)
    ensures |sq| == |keep| == |ds|
    ensures forall i :: 0 <= i < |sq| ==> sq[i] >= 0.0 && (!keep[i] ==> sq[i] > far)
    ensures SumTo(sq, |ds|) == SumTo(Deviations(ds, mean), |ds|)
    ensures RejectedTo(keep, |ds|) == RejectedTo(Verdicts(ds, mean, scale, limit), |ds|)
  {
    sq, keep := Deviations(ds, mean), Verdicts(ds, mean, scale, limit);
    RejectedAreFar(ds, mean, scale, limit, far);
  }

  lemma RejectedFit(ds: Vector, mean: real, scale: real, limit: real, far: real, room: real)
    requires scale > 0.0 && limit >= 0.0 && far == Squared(limit) * Squared(scale)
    requires SumTo(Deviations(ds, mean), |ds|) <= room
    ensures var k := RejectedTo(Verdicts(ds, mean, scale, limit), |ds|);
            k > 0 ==> Times(k, far) < room
  {
    var sq, keep := Measured(ds, mean, scale, limit, far);
    RejectedSum(sq, keep, far, |ds|);
  }

  /** Chebyshev's bound with the product written as repeated addition. */
  lemma Chebyshev(ds: Vector, mean: real, scale: real, limit: real, l2: real, s2: real)
    requires scale > 0.0 && limit >= 0.0 && l2 == Squared(limit) && s2 == Squared(scale)
    requires SumTo(Deviations(ds, mean), |ds|) <= Times(|ds|, s2)
    ensures var k := RejectedTo(Verdicts(ds, mean, scale, limit), |ds|);
            k > 0 ==> Times(k, l2) < |ds| as real
  {
    RejectedFit(ds, mean, scale, limit, l2 * s2, Times(|ds|, s2));
    SquarePositive(scale);
    var k := RejectedTo(Verdicts(ds, mean, scale, limit), |ds|);
    if k > 0 {
      FitsBelow(k, |ds|, l2, s2);
    }
  }

  lemma DroppedFit(ds: Vector, threshold: real, sqrt: real -> real)
    requires ds != [] && LawfulSqrt(sqrt) && 0.0 <= threshold <= 1.0
    ensures Dropped(ds, threshold, sqrt) > 0 ==>
              Times(Dropped(ds, threshold, sqrt), Squared(ZLimit(threshold))) < |ds| as real
  {
    ScaleCovers(ds, sqrt);
    var l, s := ZLimit(threshold), Scale(ds, sqrt);
    Chebyshev(ds, Mean(ds), s, l, Squared(l), Squared(s));
  }

  /**
    For every page and threshold in [0, 1], chunks dropped times the squared limit
    never exceeds the number of chunks, and falls short of it when any is dropped.
   */
  lemma DroppedBound(ds: Vector, threshold: real, sqrt: real -> real)
    requires ds != [] && LawfulSqrt(sqrt) && 0.0 <= threshold <= 1.0
    ensures var k, l, n := Dropped(ds, threshold, sqrt), ZLimit(threshold), |ds| as real;
            k as real * Squared(l) <= n && (k > 0 ==> k as real * Squared(l) < n)
  {
    DroppedFit(ds, threshold, sqrt);
    TimesIsProduct(Dropped(ds, threshold, sqrt), Squared(ZLimit(threshold)));
  }

  /** With a threshold of at most two thirds at least one chunk survives on every page. */
  lemma SurvivorBelowTwoThirds(ds: Vector, threshold: real, sqrt: real -> real)
    requires ds != [] && LawfulSqrt(sqrt) && 0.0 <= threshold <= 2.0 / 3.0
    ensures Dropped(ds, threshold, sqrt) < |ds|
  {
    DroppedBound(ds, threshold, sqrt);
    var k, l := Dropped(ds, threshold, sqrt), ZLimit(threshold);
    if k > 0 {
      SquareAtLeastOne(l);
      GrowByFactor(k as real, Squared(l));
    }
  }

  lemma SquareAtLeastOne(l: real)
    requires l >= 1.0
    ensures Squared(l) >= 1.0
  {
    NonNegativeProduct(l - 1.0, l);
  }

  lemma GrowByFactor(k: real, f: real)
    requires k >= 0.0 && f >= 1.0
    ensures k * f >= k
  {
    NonNegativeProduct(k, f - 1.0);
  }

  /** A page with the two distances 0 and 1. */
  const TwoPoints: Vector := [0.0, 1.0]

  lemma TwoPointsShape(sqrt: real -> real)
    requires LawfulSqrt(sqrt)
    ensures Mean(TwoPoints) == 0.5 && Scale(TwoPoints, sqrt) == 0.5
  {
    assert SumTo(TwoPoints, 2) == SumTo(TwoPoints, 1) + 1.0 && SumTo(TwoPoints, 1) == 0.0;
    var sq := Deviations(TwoPoints, 0.5);
    assert sq[0] == 0.25 && sq[1] == 0.25;
    assert SumTo(sq, 2) == SumTo(sq, 1) + sq[1] && SumTo(sq, 1) == SumTo(sq, 0) + sq[0];
    var v := Variance(TwoPoints);
    assert v == 0.25;
    Root(sqrt, v);
    RootUnique(sqrt(v), 0.5);
  }

  /** The input the filter does not reject as having no embeddings. */
  predicate Filterable(es: seq<Vector>) {
    es != [] && es[0] != []
  }

  /** A page of two one-dimensional embeddings with the distances 0 and 1. */
  const TwoEmbeddings: seq<Vector> := [[1.0], [0.0]]

  lemma TwoEmbeddingsApart(sqrt: real -> real)
    requires LawfulSqrt(sqrt)
    ensures Distances(TwoEmbeddings, sqrt) == TwoPoints
  {
    var es := TwoEmbeddings;
    assert ColumnTo(es, 0, 1) == 1.0 && ColumnTo(es, 0, 2) == 1.0;
    assert Centroid(es) == [0.5];
    SignCosine(1.0, 0.5, sqrt);
    SignCosine(0.0, 0.5, sqrt);
    assert DistancesTo(es, [0.5], sqrt, 1) == DistancesTo(es, [0.5], sqrt, 0) + [0.0];
    assert DistancesTo(es, [0.5], sqrt, 2) == DistancesTo(es, [0.5], sqrt, 1) + [1.0];
  }

  ghost predicate AlwaysKeepsOne(threshold: real, sqrt: real -> real) {
    forall es: seq<Vector> :: Filterable(es) ==> Dropped(Distances(es, sqrt), threshold, sqrt) < |es|
  }

  /** Some chunk survives on every page of embeddings exactly when the threshold is at most two thirds. */
  lemma SurvivorExactlyWhen(threshold: real, sqrt: real -> real)
    requires LawfulSqrt(sqrt) && 0.0 <= threshold <= 1.0
    ensures AlwaysKeepsOne(threshold, sqrt) <==> threshold <= 2.0 / 3.0
  {
    if threshold <= 2.0 / 3.0 {
      forall es: seq<Vector> | Filterable(es) ensures Dropped(Distances(es, sqrt), threshold, sqrt) < |es| {
        SurvivorBelowTwoThirds(Distances(es, sqrt), threshold, sqrt);
      }
    } else {
      TwoPointsDropped(threshold, sqrt);
      TwoEmbeddingsApart(sqrt);
      assert Filterable(TwoEmbeddings) && !(Dropped(Distances(TwoEmbeddings, sqrt), threshold, sqrt) < |TwoEmbeddings|);
    }
  }

  lemma TwoPointsDropped(threshold: real, sqrt: real -> real)
    requires LawfulSqrt(sqrt) && threshold > 2.0 / 3.0
    ensures Dropped(TwoPoints, threshold, sqrt) == 2
  {
    TwoPointsShape(sqrt);
    var l := ZLimit(threshold);
    assert !Keeps(0.0, 0.5, 0.5, l) && !Keeps(1.0, 0.5, 0.5, l);
    var keep := VerdictsAt(TwoPoints, threshold, sqrt);
    assert !keep[0] && !keep[1];
    assert RejectedTo(keep, 1) == 1 && RejectedTo(keep, 2) == 2;
  }

  /** The warning fires when more than half of the chunks are dropped. */
  predicate Warns(dropped: nat, before: nat) {
    before > 0 && 2 * dropped > before
  }

  /** The warning cannot fire while the squared limit is at least two, as at the default threshold 0.3. */
  lemma WarningCannotFire(ds: Vector, threshold: real, sqrt: real -> real)
    requires ds != [] && LawfulSqrt(sqrt) && 0.0 <= threshold <= 1.0
    requires Squared(ZLimit(threshold)) >= 2.0
    ensures !Warns(Dropped(ds, threshold, sqrt), |ds|)
  {
    DroppedBound(ds, threshold, sqrt);
    var k, f := Dropped(ds, threshold, sqrt) as real, Squared(ZLimit(threshold));
    NonNegativeProduct(k, f - 2.0);
    assert k * (f - 2.0) == k * f - 2.0 * k;
  }

  lemma DefaultThresholdNeverWarns(ds: Vector, sqrt: real -> real)
    requires ds != [] && LawfulSqrt(sqrt)
    ensures !Warns(Dropped(ds, 0.3, sqrt), |ds|)
  {
    assert ZLimit(0.3) == 2.1;
    assert Squared(2.1) == 4.41;
    WarningCannotFire(ds, 0.3, sqrt);
  }

  // ----- the selection -----

  /** Ascending indices of the positive verdicts among the first `n`. */
  function KeptTo(keep: seq<bool>, n: nat): (ks: seq<nat>)
    requires n <= |keep|
    ensures forall i :: 0 <= i < |ks| ==> ks[i] < n
  {
    if n == 0 then [] else KeptTo(keep, n - 1) + if keep[n - 1] then [n - 1] else []
  }

  function Kept(ds: Vector, threshold: real, sqrt: real -> real): (ks: seq<nat>)
    requires ds != []
    ensures forall i :: 0 <= i < |ks| ==> ks[i] < |ds|
  {
    KeptTo(VerdictsAt(ds, threshold, sqrt), |ds|)
  }

  predicate Ascending(ks: seq<nat>) {
    forall i, j :: 0 <= i < j < |ks| ==> ks[i] < ks[j]
  }

  lemma {:induction false} KeptSelects(keep: seq<bool>, n: nat)
    requires n <= |keep|
    ensures |KeptTo(keep, n)| + RejectedTo(keep, n) == n && Ascending(KeptTo(keep, n))
  {
    if n > 0 {
      KeptSelects(keep, n - 1);
    }
  }

  lemma {:induction false} KeptMembers(keep: seq<bool>, n: nat, i: nat)
    requires n <= |keep|
    ensures i in KeptTo(keep, n) <==> i < n && keep[i]
  {
    if n > 0 {
      KeptMembers(keep, n - 1, i);
    }
  }

  /** The filter keeps an order-preserving selection, and raising the threshold only ever removes chunks from it. */
  lemma StricterKeepsFewer(ds: Vector, loose: real, strict: real, sqrt: real -> real)
    requires ds != [] && loose <= strict
    ensures var ks := Kept(ds, strict, sqrt);
            && Ascending(ks)
            && (forall i :: i in ks ==> i in Kept(ds, loose, sqrt))
            && |ks| + Dropped(ds, strict, sqrt) == |ds|
  {
    var tight, wide := VerdictsAt(ds, strict, sqrt), VerdictsAt(ds, loose, sqrt);
    KeptSelects(tight, |ds|);
    forall i | i in KeptTo(tight, |ds|) ensures i in KeptTo(wide, |ds|) {
      KeptMembers(tight, |ds|, i);
      KeptMembers(wide, |ds|, i);
    }
  }

  // ----- the whole filter -----

  datatype Outcome<+C> = Filtered(kept: seq<(C, Vector)>, warned: bool) | LengthMismatch | NoEmbeddings

  /** Column sum over the embeddings that are long enough to have the column. */
  function ColumnTo(es: seq<Vector>, j: nat, n: nat): real
    requires n <= |es|
  {
    if n == 0 then 0.0 else ColumnTo(es, j, n - 1) + if j < |es[n - 1]| then es[n - 1][j] else 0.0
  }

  function Centroid(es: seq<Vector>): (c: Vector)
    requires es != []
    ensures |c| == |es[0]|
  {
    seq(|es[0]|, j requires 0 <= j < |es[0]| => ColumnTo(es, j, |es|) / |es| as real)
  }

  function Distances(es: seq<Vector>, sqrt: real -> real): (ds: Vector)
    requires es != []
    ensures |ds| == |es|
  {
    DistancesTo(es, Centroid(es), sqrt, |es|)
  }

  function DistancesTo(es: seq<Vector>, centroid: Vector, sqrt: real -> real, n: nat): (ds: Vector)
    requires n <= |es|
    ensures |ds| == n
  {
    if n == 0 then [] else DistancesTo(es, centroid, sqrt, n - 1) + [1.0 - Cosine(es[n - 1], centroid, sqrt)]
  }

  method ComputeCentroid(es: seq<Vector>) returns (c: Vector)
    requires es != []
    ensures c == Centroid(es)
  {
    var dim := |es[0]|;
    var buffer := new real[dim](_ => 0.0);
    for e := 0 to |es|
      invariant forall j :: 0 <= j < dim ==> buffer[j] == ColumnTo(es, j, e)
    {
      for i := 0 to |es[e]|
        invariant forall j :: 0 <= j < dim ==> buffer[j] == if j < i then ColumnTo(es, j, e + 1) else ColumnTo(es, j, e)
      {
        if i < dim {
          buffer[i] := buffer[i] + es[e][i];
        }
      }
    }
    for j := 0 to dim
      invariant forall k :: 0 <= k < dim ==> buffer[k] == if k < j then Centroid(es)[k] else ColumnTo(es, k, |es|)
    {
      buffer[j] := buffer[j] / |es| as real;
    }
    c := buffer[..];
  }

  function Pick<C>(chunks: seq<C>, es: seq<Vector>, ks: seq<nat>): seq<(C, Vector)>
    requires |chunks| == |es| && forall i :: 0 <= i < |ks| ==> ks[i] < |es|
  {
    seq(|ks|, i requires 0 <= i < |ks| => (chunks[ks[i]], es[ks[i]]))
  }

  method ComputeDistances(es: seq<Vector>, centroid: Vector, sqrt: real -> real) returns (ds: Vector)
    requires LawfulSqrt(sqrt)
    ensures ds == DistancesTo(es, centroid, sqrt, |es|)
  {
    ds := [];
    for i := 0 to |es|
      invariant ds == DistancesTo(es, centroid, sqrt, i)
    {
      var c := CosineSimilarity(es[i], centroid, sqrt);
      ds := ds + [1.0 - c];
    }
  }

  /** Keep the pairs whose z-score is within the limit, in order. */
  method Select<C>(chunks: seq<C>, es: seq<Vector>, ds: Vector, mean: real, scale: real, limit: real) returns (kept: seq<(C, Vector)>)
    requires |chunks| == |es| == |ds| && scale > 0.0
    ensures kept == Pick(chunks, es, KeptTo(Verdicts(ds, mean, scale, limit), |ds|))
  {
    kept := [];
    ghost var keep := Verdicts(ds, mean, scale, limit);
    ghost var ks: seq<nat> := [];
    for i := 0 to |es|
      invariant forall k :: 0 <= k < |ks| ==> ks[k] < |es|
      invariant ks == KeptTo(keep, i)
      invariant kept == Pick(chunks, es, ks)
    {
      if Keeps(ds[i], mean, scale, limit) {
        ks := ks + [i];
        kept := kept + [(chunks[i], es[i])];
      }
    }
  }

  /** A mismatch or missing embeddings is an error; otherwise the kept chunks in order, each with its embedding. */
  method FilterByRelevance<C>(chunks: seq<C>, es: seq<Vector>, threshold: real, sqrt: real -> real) returns (r: Outcome<C>)
    requires LawfulSqrt(sqrt)
    ensures r.LengthMismatch? <==> |chunks| != |es|
    ensures r.NoEmbeddings? <==> |chunks| == |es| && (es == [] || es[0] == [])
    ensures r.Filtered? ==>
              var ds := Distances(es, sqrt);
              && r.kept == Pick(chunks, es, Kept(ds, threshold, sqrt))
              && |r.kept| + Dropped(ds, threshold, sqrt) == |chunks|
              && r.warned == Warns(|chunks| - |r.kept|, |chunks|)
  {
    if |chunks| != |es| {
      return LengthMismatch;
    }
    if es == [] || es[0] == [] {
      return NoEmbeddings;
    }
    var centroid := ComputeCentroid(es);
    var ds := ComputeDistances(es, centroid, sqrt);
    ScaleCovers(ds, sqrt);
    var mean, scale, limit := Mean(ds), Scale(ds, sqrt), ZLimit(threshold);
    var kept := Select(chunks, es, ds, mean, scale, limit);
    KeptSelects(Verdicts(ds, mean, scale, limit), |ds|);
    return Filtered(kept, Warns(|chunks| - |kept|, |chunks|));
  }
}
