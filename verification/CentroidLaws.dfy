/**
  What the centroid of the relevance filter is, for embeddings of every dimension: the
  mean of each column, from which the columns deviate by nothing in sum; a page of equal
  embeddings is its own centroid and lies at distance zero.
 */
module CentroidLaws {
  import opened VectorOps
  import opened RelevanceFilter

  /** Column `j` of the embeddings; one that is too short counts as zero. */
  function Column(es: seq<Vector>, j: nat): (c: Vector)
    ensures |c| == |es|
  {
    seq(|es|, i requires 0 <= i < |es| => if j < |es[i]| then es[i][j] else 0.0)
  }

  lemma {:induction false} ColumnSums(es: seq<Vector>, j: nat, n: nat)
    requires n <= |es|
    ensures ColumnTo(es, j, n) == SumTo(Column(es, j), n)
  {
    if n > 0 {
      ColumnSums(es, j, n - 1);
    }
  }

  /** Every coordinate of the centroid is the mean of its own column. */
  lemma CentroidIsColumnMean(es: seq<Vector>, j: nat)
    requires es != [] && j < |es[0]|
    ensures Centroid(es)[j] == Mean(Column(es, j))
  {
    ColumnSums(es, j, |es|);
  }

  function Shifted(c: Vector, m: real): (r: Vector)
    ensures |r| == |c|
  {
    seq(|c|, i requires 0 <= i < |c| => c[i] - m)
  }

  lemma {:induction false} ShiftedSum(c: Vector, m: real, n: nat)
    requires n <= |c|
    ensures SumTo(Shifted(c, m), n) == SumTo(c, n) - Times(n, m)
  {
    if n > 0 {
      ShiftedSum(c, m, n - 1);
    }
  }

  /** In each coordinate the deviations of the embeddings from the centroid sum to zero. */
  lemma DeviationsCancel(es: seq<Vector>, j: nat)
    requires es != [] && j < |es[0]|
    ensures SumTo(Shifted(Column(es, j), Centroid(es)[j]), |es|) == 0.0
  {
    var c := Column(es, j);
    CentroidIsColumnMean(es, j);
    ShiftedSum(c, Mean(c), |es|);
    TimesOfQuotient(|c|, SumTo(c, |c|));
  }

  /** Conversely, a value from which a column deviates by nothing in sum is its coordinate of the centroid. */
  lemma CentroidIsTheBalance(es: seq<Vector>, j: nat, m: real)
    requires es != [] && j < |es[0]|
    requires SumTo(Shifted(Column(es, j), m), |es|) == 0.0
    ensures m == Centroid(es)[j]
  {
    var c, n := Column(es, j), |es|;
    CentroidIsColumnMean(es, j);
    ShiftedSum(c, m, n);
    TimesIsProduct(n, m);
    ProductThenQuotient(SumTo(c, n), n as real, m);
  }

  lemma ProductThenQuotient(total: real, n: real, m: real)
    requires n > 0.0 && total == n * m
    ensures total / n == m
  {
  }

  // ----- a page of equal embeddings -----

  predicate AllEqual(es: seq<Vector>, v: Vector) {
    forall i :: 0 <= i < |es| ==> es[i] == v
  }

  lemma {:induction false} EqualColumn(es: seq<Vector>, v: Vector, j: nat, n: nat)
    requires AllEqual(es, v) && n <= |es| && j < |v|
    ensures ColumnTo(es, j, n) == Times(n, v[j])
  {
    if n > 0 {
      EqualColumn(es, v, j, n - 1);
    }
  }

  lemma EqualCentroid(es: seq<Vector>, v: Vector)
    requires es != [] && AllEqual(es, v)
    ensures Centroid(es) == v
  {
    forall j | 0 <= j < |v| ensures Centroid(es)[j] == v[j] {
      EqualColumn(es, v, j, |es|);
      TimesIsProduct(|es|, v[j]);
      ProductThenQuotient(ColumnTo(es, j, |es|), |es| as real, v[j]);
    }
  }

  lemma SelfRatio(d: real, m: real)
    requires m > 0.0 && d > 0.0 && m * m == d
    ensures Ratio(d, m, m) == 1.0
  {
    SelfQuotient(d);
  }

  lemma SelfQuotient(d: real)
    requires d > 0.0
    ensures d / d == 1.0
  {
  }

  /** A vector that is not zero has cosine one with itself. */
  lemma SelfCosine(v: Vector, sqrt: real -> real)
    requires LawfulSqrt(sqrt) && Dot(v, v) != 0.0
    ensures Cosine(v, v, sqrt) == 1.0
  {
    var d := DotTo(v, v, |v|);
    SquaresNonNegative(v, |v|);
    Root(sqrt, d);
    assert sqrt(d) != 0.0;
    SelfRatio(d, sqrt(d));
  }

  lemma {:induction false} EqualDistances(es: seq<Vector>, v: Vector, sqrt: real -> real, n: nat)
    requires LawfulSqrt(sqrt) && AllEqual(es, v) && Dot(v, v) != 0.0 && n <= |es|
    ensures forall i :: 0 <= i < n ==> DistancesTo(es, v, sqrt, n)[i] == 0.0
  {
    if n > 0 {
      EqualDistances(es, v, sqrt, n - 1);
      SelfCosine(v, sqrt);
    }
  }

  lemma {:induction false} ZeroSum(ds: Vector, n: nat)
    requires n <= |ds| && forall i :: 0 <= i < |ds| ==> ds[i] == 0.0
    ensures SumTo(ds, n) == 0.0
  {
    if n > 0 {
      ZeroSum(ds, n - 1);
    }
  }

  /** Copies of one vector that is not zero, in any dimension: it is their centroid, all distances are zero, and none is dropped. */
  lemma EqualPageIsKept(es: seq<Vector>, v: Vector, threshold: real, sqrt: real -> real)
    requires es != [] && AllEqual(es, v) && Dot(v, v) != 0.0 && LawfulSqrt(sqrt) && threshold <= 1.0
    ensures Centroid(es) == v
    ensures forall i :: 0 <= i < |es| ==> Distances(es, sqrt)[i] == 0.0
    ensures Dropped(Distances(es, sqrt), threshold, sqrt) == 0
  {
    EqualCentroid(es, v);
    EqualDistances(es, v, sqrt, |es|);
    var ds := Distances(es, sqrt);
    ZeroSum(ds, |ds|);
    assert Mean(ds) == 0.0;
    ScaleCovers(ds, sqrt);
    var keep := VerdictsAt(ds, threshold, sqrt);
    forall i | 0 <= i < |keep| ensures keep[i] {
      assert ZScore(ds[i], 0.0, Scale(ds, sqrt)) == 0.0;
    }
    NothingRejected(keep, |keep|);
  }

  lemma {:induction false} NothingRejected(keep: seq<bool>, n: nat)
    requires n <= |keep| && forall i :: 0 <= i < |keep| ==> keep[i]
    ensures RejectedTo(keep, n) == 0
  {
    if n > 0 {
      NothingRejected(keep, n - 1);
    }
  }
}
