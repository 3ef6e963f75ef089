/**
  The threshold from which the filter can discard more than half of a page: for
  every squared z-limit below two there is a page on which the warning fires.
 */
module WarningThreshold {
  import opened VectorOps
  import opened RelevanceFilter

  /** `j` distances of 2, `j` of 0 and one less than `2 j` in the middle. */
  function Spread(j: nat): (ds: Vector)
    requires j > 0
    ensures |ds| == 4 * j - 1
  {
    seq(4 * j - 1, i requires 0 <= i < 4 * j - 1 => if i < j then 2.0 else if i < 2 * j then 0.0 else 1.0)
  }

  lemma {:induction false} SpreadSum(j: nat, n: nat)
    requires j > 0 && n <= 4 * j - 1
    ensures SumTo(Spread(j), n) == if n <= j then (2 * n) as real else if n <= 2 * j then (2 * j) as real else n as real
  {
    if n > 0 {
      SpreadSum(j, n - 1);
    }
  }

  lemma {:induction false} SumOfOnes(sq: Vector, m: nat, n: nat)
    requires n <= |sq| && forall i :: 0 <= i < |sq| ==> sq[i] == if i < m then 1.0 else 0.0
    ensures SumTo(sq, n) == Min(n, m) as real
  {
    if n > 0 {
      SumOfOnes(sq, m, n - 1);
    }
  }

  lemma {:induction false} RejectedAtLeast(keep: seq<bool>, m: nat, n: nat)
    requires n <= |keep| && forall i :: 0 <= i < m && i < n ==> !keep[i]
    ensures RejectedTo(keep, n) >= Min(n, m)
  {
    if n > 0 {
      RejectedAtLeast(keep, m, n - 1);
    }
  }

  lemma QuotientOfSelf(x: real)
    requires x > 0.0
    ensures x / x == 1.0
  {
  }

  lemma SpreadShape(j: nat)
    requires j > 0
    ensures Mean(Spread(j)) == 1.0
    ensures Variance(Spread(j)) == (2 * j) as real / (4 * j - 1) as real
  {
    var ds, n := Spread(j), 4 * j - 1;
    SpreadSum(j, n);
    QuotientOfSelf(n as real);
    assert Mean(ds) == 1.0;
    var sq := Deviations(ds, 1.0);
    forall i | 0 <= i < |sq| ensures sq[i] == if i < 2 * j then 1.0 else 0.0 {
      assert sq[i] == Squared(ds[i] - 1.0);
    }
    SumOfOnes(sq, 2 * j, n);
  }

  /** The scale of a variance of at least one half is its root. */
  lemma RootAboveFloor(sd: real, v: real)
    requires IsRoot(sd, v) && v >= 0.5
    ensures sd >= FLOOR
  {
    assert FLOOR * FLOOR < 0.5;
    if sd < FLOOR {
      SquareOrder(sd, FLOOR);
    }
  }

  lemma SameFactor(a: real, b: real, c: real)
    requires b == c
    ensures a * b == a * c
  {
  }

  lemma Quotient(k: real, n: real) returns (r: real)
    requires n > 0.0
    ensures r == k / n && r * n == k
  {
    r := k / n;
  }

  lemma Product(a: real, b: real) returns (p: real)
    ensures p == a * b
  {
    p := a * b;
  }

  lemma SquareBelowOne(p: real)
    requires p >= 0.0 && p * p < 1.0
    ensures p < 1.0
  {
    if p >= 1.0 {
      GrowByFactor(p, p);
    }
  }

  lemma SquareSplits(sd: real, v: real, l: real, f: real, p: real)
    requires sd * sd == v && f == l * l && p == l * sd
    ensures p * p == f * v
  {
    SquareOfProduct(l, sd);
    assert (l * l) * (sd * sd) == f * v by {
      SameFactor(l * l, sd * sd, v);
      SameFactor(v, l * l, f);
    }
  }

  /** A deviation of one is beyond the limit when the squared limit times the variance is below one. */
  lemma OneIsFar(sd: real, v: real, l: real, f: real)
    requires IsRoot(sd, v) && sd > 0.0 && l >= 0.0 && f == l * l && f * v < 1.0
    ensures 1.0 / sd > l
  {
    var p := Product(l, sd);
    SquareSplits(sd, v, l, f, p);
    NonNegativeProduct(l, sd);
    SquareBelowOne(p);
    var q := Quotient(1.0, sd);
    if q < l {
      StrictMul(q, l, sd);
    }
  }

  lemma ProductBelowOne(f: real, k: real, n: real, v: real, x: real)
    requires n > 0.0 && v * n == k && f * k < n && x == f * v
    ensures x < 1.0
  {
    if x >= 1.0 {
      GrowByFactor(n, x);
      calc {
        n * x;
        { SameFactor(n, x, f * v); }
        n * (f * v);
        f * (v * n);
        { SameFactor(f, v * n, k); }
        f * k;
      }
    }
  }

  lemma AtLeastHalf(k: real, n: real, v: real)
    requires n > 0.0 && v * n == k && 2.0 * k >= n
    ensures v >= 0.5
  {
    if v < 0.5 {
      StrictMul(v, 0.5, n);
    }
  }

  /** On the spread page both outer groups are beyond the limit. */
  lemma SpreadIsFar(j: nat, l: real, f: real, sqrt: real -> real)
    requires j > 0 && LawfulSqrt(sqrt) && l >= 0.0 && f == l * l && f * (2 * j) as real < (4 * j - 1) as real
    ensures var ds := Spread(j);
            var scale := Scale(ds, sqrt);
            Mean(ds) == 1.0 && scale > 0.0 && 1.0 / scale > l
  {
    var k, n := (2 * j) as real, (4 * j - 1) as real;
    SpreadShape(j);
    var v := Quotient(k, n);
    assert v == Variance(Spread(j));
    AtLeastHalf(k, n, v);
    var x := Product(f, v);
    ProductBelowOne(f, k, n, v, x);
    Root(sqrt, v);
    RootAboveFloor(sqrt(v), v);
    OneIsFar(sqrt(v), v, l, f);
  }

  /** So more than half of the page is dropped. */
  lemma SpreadWarns(j: nat, threshold: real, l: real, f: real, sqrt: real -> real)
    requires j > 0 && LawfulSqrt(sqrt) && l == ZLimit(threshold) && l >= 0.0 && f == l * l
    requires f * (2 * j) as real < (4 * j - 1) as real
    ensures Warns(Dropped(Spread(j), threshold, sqrt), |Spread(j)|)
  {
    var ds, n := Spread(j), 4 * j - 1;
    SpreadIsFar(j, l, f, sqrt);
    var keep := VerdictsAt(ds, threshold, sqrt);
    forall i | 0 <= i < 2 * j && i < n ensures !keep[i] {
      assert Abs(ds[i] - 1.0) == 1.0;
    }
    RejectedAtLeast(keep, 2 * j, n);
  }

  /** A page large enough for a squared limit below two. */
  lemma LargeEnough(f: real) returns (j: nat)
    requires 0.0 <= f < 2.0
    ensures j > 0 && f * (2 * j) as real < (4 * j - 1) as real
  {
    var g := 2.0 - f;
    var q := 1.0 / g;
    assert q * g == 1.0;
    if q < 0.0 { StrictMul(q, 0.0, g); }
    j := q.Floor + 1;
    var x := j as real;
    assert x > q;
    StrictMul(q, x, g);
    assert x * g == 2.0 * x - f * x;
    assert f * (2.0 * x) == 2.0 * (f * x);
  }

  // ----- the spread page as embeddings -----

  function Coordinate(j: nat, i: nat): real {
    if i < j then -1.0 else if i < 2 * j then 2.0 else 0.0
  }

  /** One-dimensional embeddings whose distances from their centroid are the spread page. */
  function SpreadEmbeddings(j: nat): (es: seq<Vector>)
    requires j > 0
    ensures |es| == 4 * j - 1
  {
    seq(4 * j - 1, i requires 0 <= i < 4 * j - 1 => [Coordinate(j, i)])
  }

  lemma {:induction false} SpreadColumn(j: nat, n: nat)
    requires j > 0 && n <= 4 * j - 1
    ensures ColumnTo(SpreadEmbeddings(j), 0, n) ==
            if n <= j then -(n as real) else if n <= 2 * j then (2 * n - 3 * j) as real else j as real
  {
    if n > 0 {
      SpreadColumn(j, n - 1);
    }
  }

  lemma PositiveQuotient(k: real, n: real)
    requires k > 0.0 && n > 0.0
    ensures k / n > 0.0
  {
  }

  lemma SpreadCentroid(j: nat) returns (c: real)
    requires j > 0
    ensures c > 0.0 && Centroid(SpreadEmbeddings(j)) == [c]
  {
    var es := SpreadEmbeddings(j);
    SpreadColumn(j, |es|);
    c := j as real / |es| as real;
    PositiveQuotient(j as real, |es| as real);
    assert |es[0]| == 1;
  }

  lemma {:induction false} SpreadDistances(j: nat, c: real, sqrt: real -> real, n: nat)
    requires j > 0 && c > 0.0 && LawfulSqrt(sqrt) && n <= 4 * j - 1
    ensures DistancesTo(SpreadEmbeddings(j), [c], sqrt, n) == Spread(j)[..n]
  {
    if n > 0 {
      SpreadDistances(j, c, sqrt, n - 1);
      SignCosine(Coordinate(j, n - 1), c, sqrt);
      assert SpreadEmbeddings(j)[n - 1] == [Coordinate(j, n - 1)];
      assert Spread(j)[..n] == Spread(j)[..n - 1] + [Spread(j)[n - 1]];
    }
  }

  lemma SpreadIsReached(j: nat, sqrt: real -> real)
    requires j > 0 && LawfulSqrt(sqrt)
    ensures Filterable(SpreadEmbeddings(j)) && Distances(SpreadEmbeddings(j), sqrt) == Spread(j)
  {
    var c := SpreadCentroid(j);
    SpreadDistances(j, c, sqrt, 4 * j - 1);
    assert Spread(j)[..4 * j - 1] == Spread(j);
    assert SpreadEmbeddings(j)[0] == [Coordinate(j, 0)];
  }

  ghost predicate NeverWarns(threshold: real, sqrt: real -> real) {
    forall es: seq<Vector> :: Filterable(es) ==> !Warns(Dropped(Distances(es, sqrt), threshold, sqrt), |es|)
  }

  /** No page of embeddings ever triggers the warning exactly when the squared z-limit is at least two. */
  lemma NeverWarnsExactlyWhen(threshold: real, sqrt: real -> real)
    requires LawfulSqrt(sqrt) && 0.0 <= threshold <= 1.0
    ensures NeverWarns(threshold, sqrt) <==> Squared(ZLimit(threshold)) >= 2.0
  {
    if Squared(ZLimit(threshold)) >= 2.0 {
      forall es: seq<Vector> | Filterable(es) ensures !Warns(Dropped(Distances(es, sqrt), threshold, sqrt), |es|) {
        WarningCannotFire(Distances(es, sqrt), threshold, sqrt);
      }
    } else {
      var l := ZLimit(threshold);
      SquareNonNegative(l);
      var f := Product(l, l);
      var j := LargeEnough(f);
      SpreadWarns(j, threshold, l, f, sqrt);
      SpreadIsReached(j, sqrt);
      assert Filterable(SpreadEmbeddings(j));
    }
  }
}
