/**
  Embedding arithmetic over exact reals (rounding, NaN and lane order inside the
  hardware reduction are not modelled). The square root is a parameter that is
  only assumed to be the non-negative root of non-negative numbers.
 */
module VectorOps {

  type Vector = seq<real>

  predicate IsRoot(r: real, x: real) {
    r >= 0.0 && r * r == x
  }

  ghost predicate LawfulSqrt(sqrt: real -> real) {
    forall x: real {:trigger IsRoot(sqrt(x), x)} :: x >= 0.0 ==> IsRoot(sqrt(x), x)
  }

  lemma Root(sqrt: real -> real, x: real)
    requires LawfulSqrt(sqrt) && x >= 0.0
    ensures sqrt(x) >= 0.0 && sqrt(x) * sqrt(x) == x
  {
    assert IsRoot(sqrt(x), x);
  }

  function Min(a: nat, b: nat): nat {
    if a <= b then a else b
  }

  /** Sum of the first `n` products. */
  function DotTo(a: Vector, b: Vector, n: nat): real
    requires n <= |a| && n <= |b|
  {
    if n == 0 then 0.0 else DotTo(a, b, n - 1) + a[n - 1] * b[n - 1]
  }

  /** The scalar dot product over the common prefix. */
  function Dot(a: Vector, b: Vector): real {
    DotTo(a, b, Min(|a|, |b|))
  }

  /** `A.B / (|A| |B|)` over the common prefix, 0 for empty input or a zero magnitude. */
  function Cosine(a: Vector, b: Vector, sqrt: real -> real): real {
    var n := Min(|a|, |b|);
    var magA, magB := sqrt(DotTo(a, a, n)), sqrt(DotTo(b, b, n));
    if n == 0 then 0.0 else Ratio(DotTo(a, b, n), magA, magB)
  }

  function Ratio(dot: real, magA: real, magB: real): real {
    if magA == 0.0 || magB == 0.0 || magA * magB == 0.0 then 0.0 else dot / (magA * magB)
  }

  // ----- Cauchy-Schwarz -----

  lemma {:induction false} SquaresNonNegative(a: Vector, n: nat)
    requires n <= |a|
    ensures DotTo(a, a, n) >= 0.0
  {
    if n > 0 {
      SquaresNonNegative(a, n - 1);
      assert a[n - 1] * a[n - 1] >= 0.0;
    }
  }

  /** The squared length of `a - t b`, expanded. */
  lemma {:induction false} Residual(a: Vector, b: Vector, n: nat, t: real)
    requires n <= |a| && n <= |b|
    ensures Quadratic(DotTo(a, a, n), DotTo(a, b, n), DotTo(b, b, n), t) >= 0.0
  {
    if n == 0 {
      QuadraticAtZero(t);
    } else {
      var p, d, q := DotTo(a, a, n - 1), DotTo(a, b, n - 1), DotTo(b, b, n - 1);
      Residual(a, b, n - 1, t);
      ResidualStep(p, d, q, a[n - 1], b[n - 1], t, DotTo(a, a, n), DotTo(a, b, n), DotTo(b, b, n));
    }
  }

  lemma QuadraticAtZero(t: real)
    ensures Quadratic(0.0, 0.0, 0.0, t) == 0.0
  {
    assert 2.0 * t * 0.0 == 0.0 && t * t * 0.0 == 0.0;
  }

  lemma ResidualStep(p: real, d: real, q: real, x: real, y: real, t: real, p': real, d': real, q': real)
    requires Quadratic(p, d, q, t) >= 0.0
    requires p' == p + x * x && d' == d + x * y && q' == q + y * y
    ensures Quadratic(p', d', q', t) >= 0.0
  {
    SquareExpands(x, y, t);
    QuadraticAdds(p, d, q, x * x, x * y, y * y, t);
  }

  lemma QuadraticAdds(p: real, d: real, q: real, a: real, b: real, c: real, t: real)
    ensures Quadratic(p + a, d + b, q + c, t) == Quadratic(p, d, q, t) + Quadratic(a, b, c, t)
  {
    Distribute(2.0 * t, d, b);
    Distribute(t * t, q, c);
  }

  lemma Distribute(k: real, x: real, y: real)
    ensures k * (x + y) == k * x + k * y
  {
  }

  lemma SquareExpands(x: real, y: real, t: real)
    ensures Quadratic(x * x, x * y, y * y, t) >= 0.0
  {
    var z := x - t * y;
    assert z * z >= 0.0;
    assert z * z == x * x - 2.0 * t * (x * y) + t * t * (y * y);
  }

  function Quadratic(p: real, d: real, q: real, t: real): real {
    p - 2.0 * t * d + t * t * q
  }

  /** The point at which a non-negative quadratic bounds its discriminant. */
  lemma Discriminant(p: real, d: real, q: real) returns (t: real)
    requires q >= 0.0
    ensures Quadratic(p, d, q, t) >= 0.0 ==> d * d <= p * q
  {
    if q == 0.0 {
      if d == 0.0 {
        t := 0.0;
      } else {
        t := (p + 1.0) / (2.0 * d);
        assert 2.0 * t * d == p + 1.0;
        assert t * t * 0.0 == 0.0;
      }
    } else {
      t := d / q;
      assert t * q == d;
      assert t * t * q == t * d;
      if p - t * d >= 0.0 {
        NonNegativeProduct(p - t * d, q);
        assert (p - t * d) * q == p * q - t * d * q;
        assert t * d * q == d * d;
      }
    }
  }

  lemma CauchySchwarz(a: Vector, b: Vector, n: nat)
    requires n <= |a| && n <= |b|
    ensures DotTo(a, b, n) * DotTo(a, b, n) <= DotTo(a, a, n) * DotTo(b, b, n)
  {
    SquaresNonNegative(b, n);
    var t := Discriminant(DotTo(a, a, n), DotTo(a, b, n), DotTo(b, b, n));
    Residual(a, b, n, t);
  }

  lemma StrictMul(x: real, y: real, z: real)
    requires x < y && z > 0.0
    ensures x * z < y * z
  {
    assert (y - x) * z > 0.0;
  }

  lemma SquareOrder(x: real, y: real)
    requires 0.0 <= x < y
    ensures x * x < y * y
  {
    PositiveProduct(y - x, y + x);
    assert (y - x) * (y + x) == y * y - x * x;
  }

  lemma RootOrder(d: real, m: real)
    requires m > 0.0 && d * d <= m * m
    ensures -m <= d <= m
  {
    if d > m {
      SquareOrder(m, d);
    } else if d < -m {
      SquareOrder(m, -d);
    }
  }

  /** The cosine always lies between -1 and 1. */
  lemma CosineInRange(a: Vector, b: Vector, sqrt: real -> real)
    requires LawfulSqrt(sqrt)
    ensures -1.0 <= Cosine(a, b, sqrt) <= 1.0
  {
    var n := Min(|a|, |b|);
    var p, d, q := DotTo(a, a, n), DotTo(a, b, n), DotTo(b, b, n);
    SquaresNonNegative(a, n);
    SquaresNonNegative(b, n);
    var x, y := sqrt(p), sqrt(q);
    Root(sqrt, p);
    Root(sqrt, q);
    if n != 0 && x > 0.0 && y > 0.0 {
      CauchySchwarz(a, b, n);
      var m := x * y;
      PositiveProduct(x, y);
      SquareOfProduct(x, y);
      RootOrder(d, m);
      Bounded(d, m);
      assert Cosine(a, b, sqrt) == d / m;
    } else {
      assert Cosine(a, b, sqrt) == 0.0;
    }
  }

  lemma PositiveProduct(x: real, y: real)
    requires x > 0.0 && y > 0.0
    ensures x * y > 0.0
  {
  }

  lemma SquareOfProduct(x: real, y: real)
    ensures (x * y) * (x * y) == (x * x) * (y * y)
  {
    assert (x * y) * (x * y) == x * (y * (x * y)) == x * (x * (y * y));
  }

  lemma Bounded(d: real, m: real)
    requires m > 0.0 && -m <= d <= m
    ensures -1.0 <= d / m <= 1.0
  {
    var r := d / m;
    assert r * m == d;
    if r > 1.0 {
      StrictMul(1.0, r, m);
    } else if r < -1.0 {
      StrictMul(r, -1.0, m);
    }
  }

  // ----- the blocked accumulation -----

  /** `reduce_add` over the eight lanes. */
  function Reduce(lanes: Vector): real
    requires |lanes| == 8
  {
    lanes[0] + lanes[1] + lanes[2] + lanes[3] + lanes[4] + lanes[5] + lanes[6] + lanes[7]
  }

  lemma EightMore(a: Vector, b: Vector, k: nat)
    requires k + 8 <= |a| && k + 8 <= |b|
    ensures DotTo(a, b, k + 8) == DotTo(a, b, k)
      + a[k] * b[k] + a[k + 1] * b[k + 1] + a[k + 2] * b[k + 2] + a[k + 3] * b[k + 3]
      + a[k + 4] * b[k + 4] + a[k + 5] * b[k + 5] + a[k + 6] * b[k + 6] + a[k + 7] * b[k + 7]
  {
    assert DotTo(a, b, k + 2) == DotTo(a, b, k) + a[k] * b[k] + a[k + 1] * b[k + 1];
    assert DotTo(a, b, k + 4) == DotTo(a, b, k + 2) + a[k + 2] * b[k + 2] + a[k + 3] * b[k + 3];
    assert DotTo(a, b, k + 6) == DotTo(a, b, k + 4) + a[k + 4] * b[k + 4] + a[k + 5] * b[k + 5];
  }

  /** Eight lanes accumulate blocks of eight products; the remainder is added one by one. */
  method BlockedDot(a: Vector, b: Vector) returns (dot: real)
    ensures dot == Dot(a, b)
  {
    var len := Min(|a|, |b|);
    var sum: Vector := [0.0, 0.0, 0.0, 0.0, 0.0, 0.0, 0.0, 0.0];
    for i := 0 to len / 8
      invariant |sum| == 8
      invariant Reduce(sum) == DotTo(a, b, 8 * i)
    {
      var offset := i * 8;
      EightMore(a, b, offset);
      sum := [sum[0] + a[offset] * b[offset], sum[1] + a[offset + 1] * b[offset + 1],
              sum[2] + a[offset + 2] * b[offset + 2], sum[3] + a[offset + 3] * b[offset + 3],
              sum[4] + a[offset + 4] * b[offset + 4], sum[5] + a[offset + 5] * b[offset + 5],
              sum[6] + a[offset + 6] * b[offset + 6], sum[7] + a[offset + 7] * b[offset + 7]];
    }
    dot := Reduce(sum);
    for i := len / 8 * 8 to len
      invariant dot == DotTo(a, b, i)
    {
      dot := dot + a[i] * b[i];
    }
  }

  /** The blocked dot product divided by both magnitudes of the common prefix. */
  method CosineSimilarity(a: Vector, b: Vector, sqrt: real -> real) returns (r: real)
    requires LawfulSqrt(sqrt)
    ensures r == Cosine(a, b, sqrt)
    ensures -1.0 <= r <= 1.0
  {
    CosineInRange(a, b, sqrt);
    var len := Min(|a|, |b|);
    if len == 0 {
      return 0.0;
    }
    var dot := BlockedDot(a, b);
    var squaresA := SumOfSquares(a[..len]);
    var squaresB := SumOfSquares(b[..len]);
    PrefixDot(a, a, len);
    PrefixDot(b, b, len);
    var magA, magB := sqrt(squaresA), sqrt(squaresB);
    if magA == 0.0 || magB == 0.0 {
      return 0.0;
    }
    SquaresNonNegative(a, len);
    SquaresNonNegative(b, len);
    Root(sqrt, squaresA);
    Root(sqrt, squaresB);
    PositiveProduct(magA, magB);
    return dot / (magA * magB);
  }

  lemma {:induction false} PrefixDot(a: Vector, b: Vector, n: nat)
    requires n <= |a| && n <= |b|
    ensures DotTo(a[..n], b[..n], n) == DotTo(a, b, n)
  {
    PrefixDotTo(a, b, n, n);
  }

  lemma {:induction false} PrefixDotTo(a: Vector, b: Vector, n: nat, k: nat)
    requires k <= n <= |a| && n <= |b|
    ensures DotTo(a[..n], b[..n], k) == DotTo(a, b, k)
  {
    if k > 0 {
      PrefixDotTo(a, b, n, k - 1);
    }
  }

  method SumOfSquares(v: Vector) returns (s: real)
    ensures s == DotTo(v, v, |v|)
  {
    s := 0.0;
    for i := 0 to |v|
      invariant s == DotTo(v, v, i)
    {
      s := s + v[i] * v[i];
    }
  }

  // ----- scaling and normalisation -----

  function Scaled(v: Vector, k: real): (r: Vector)
    ensures |r| == |v|
  {
    seq(|v|, i requires 0 <= i < |v| => k * v[i])
  }

  lemma {:induction false} DotOfScaled(a: Vector, b: Vector, j: real, k: real, n: nat)
    requires n <= |a| && n <= |b|
    ensures DotTo(Scaled(a, j), Scaled(b, k), n) == j * k * DotTo(a, b, n)
  {
    if n > 0 {
      DotOfScaled(a, b, j, k, n - 1);
      var x, y := a[n - 1], b[n - 1];
      assert (j * x) * (k * y) == j * k * (x * y) by { ProductsCommute(j, x, k, y); }
      Distribute(j * k, DotTo(a, b, n - 1), x * y);
    }
  }

  lemma ProductsCommute(j: real, x: real, k: real, y: real)
    ensures (j * x) * (k * y) == j * k * (x * y)
  {
    assert (j * x) * (k * y) == j * (x * (k * y)) == j * (k * (x * y));
  }

  const EPSILON: real := 1.0 / 8388608.0

  /** `l2_normalize_safe` */
  function Normalized(v: Vector, sqrt: real -> real): (r: Vector)
    ensures |r| == |v|
  {
    var magnitude := sqrt(DotTo(v, v, |v|));
    if magnitude < EPSILON then v
    else seq(|v|, i requires 0 <= i < |v| => v[i] / magnitude)
  }

  lemma DivideAsMultiply(x: real, m: real)
    requires m > 0.0
    ensures x / m == (1.0 / m) * x
  {
    var q, k := x / m, 1.0 / m;
    assert q * m == x && k * m == 1.0;
    assert q * (k * m) == k * (q * m);
  }

  lemma NormalizedIsScaled(v: Vector, sqrt: real -> real)
    requires sqrt(DotTo(v, v, |v|)) >= EPSILON
    ensures Normalized(v, sqrt) == Scaled(v, 1.0 / sqrt(DotTo(v, v, |v|)))
  {
    var m := sqrt(DotTo(v, v, |v|));
    var r := Normalized(v, sqrt);
    assert EPSILON > 0.0;
    forall i | 0 <= i < |v| ensures r[i] == Scaled(v, 1.0 / m)[i] {
      DivideAsMultiply(v[i], m);
    }
  }

  lemma UnitSquare(m: real, p: real)
    requires m > 0.0 && m * m == p
    ensures (1.0 / m) * (1.0 / m) * p == 1.0
  {
    var k := 1.0 / m;
    assert k * m == 1.0;
    SquareOfProduct(k, m);
  }

  /** The normalised vector has unit length exactly when the magnitude reaches epsilon. */
  lemma UnitLengthExactlyWhen(v: Vector, sqrt: real -> real)
    requires LawfulSqrt(sqrt)
    ensures var r := Normalized(v, sqrt);
            DotTo(r, r, |r|) == 1.0 <==> sqrt(DotTo(v, v, |v|)) >= EPSILON
  {
    SquaresNonNegative(v, |v|);
    var p := DotTo(v, v, |v|);
    var m := sqrt(p);
    Root(sqrt, p);
    if m < EPSILON {
      SquareOrder(m, 1.0);
    } else {
      NormalizedIsScaled(v, sqrt);
      DotOfScaled(v, v, 1.0 / m, 1.0 / m, |v|);
      UnitSquare(m, p);
    }
  }

  lemma RootUnique(x: real, y: real)
    requires x >= 0.0 && y >= 0.0 && x * x == y * y
    ensures x == y
  {
    if x > y {
      SquareOrder(y, x);
    } else if x < y {
      SquareOrder(x, y);
    }
  }

  /** Magnitudes do not matter: scaling either vector by a positive factor leaves the cosine unchanged. */
  lemma CosineIgnoresScale(a: Vector, b: Vector, k: real, sqrt: real -> real)
    requires LawfulSqrt(sqrt) && k > 0.0
    ensures Cosine(Scaled(a, k), b, sqrt) == Cosine(a, b, sqrt)
  {
    var n := Min(|a|, |b|);
    var p, d, q := DotTo(a, a, n), DotTo(a, b, n), DotTo(b, b, n);
    SquaresNonNegative(a, n);
    SquaresNonNegative(b, n);
    var s := Scaled(a, k);
    DotOfScaled(a, a, k, k, n);
    DotOfScaled(a, b, k, 1.0, n);
    assert Scaled(b, 1.0) == b;
    assert DotTo(s, b, n) == k * d;
    var x, y := sqrt(p), sqrt(q);
    var x' := sqrt(DotTo(s, s, n));
    assert DotTo(s, s, n) == k * k * p;
    SquaresNonNegative(s, n);
    Root(sqrt, p);
    Root(sqrt, q);
    Root(sqrt, DotTo(s, s, n));
    assert x' == k * x by {
      SquareOfProduct(k, x);
      NonNegativeProduct(k, x);
      RootUnique(x', k * x);
    }
    RatioIgnoresScale(k, d, x, y);
  }

  lemma RatioIgnoresScale(k: real, d: real, x: real, y: real)
    requires k > 0.0 && x >= 0.0 && y >= 0.0
    ensures Ratio(k * d, k * x, y) == Ratio(d, x, y)
  {
    if x > 0.0 && y > 0.0 {
      PositiveProduct(x, y);
      PositiveProduct(k, x);
      PositiveProduct(k * x, y);
      CancelFactor(k, d, x * y);
      assert (k * x) * y == k * (x * y);
    }
  }

  /** In one dimension the cosine with a positive number is the sign. */
  lemma SignCosine(x: real, c: real, sqrt: real -> real)
    requires LawfulSqrt(sqrt) && c > 0.0
    ensures Cosine([x], [c], sqrt) == if x > 0.0 then 1.0 else if x < 0.0 then -1.0 else 0.0
  {
    assert DotTo([x], [c], 1) == DotTo([x], [c], 0) + x * c;
    assert DotTo([x], [x], 1) == DotTo([x], [x], 0) + x * x;
    assert DotTo([c], [c], 1) == DotTo([c], [c], 0) + c * c;
    var m := if x >= 0.0 then x else -x;
    RootOfSquare(m, x, sqrt);
    RootOfSquare(c, c, sqrt);
    SignRatio(x, m, c);
  }

  lemma RootOfSquare(m: real, x: real, sqrt: real -> real)
    requires LawfulSqrt(sqrt) && m >= 0.0 && (m == x || m == -x)
    ensures sqrt(x * x) == m
  {
    assert m * m == x * x;
    Root(sqrt, x * x);
    RootUnique(sqrt(x * x), m);
  }

  lemma SignRatio(x: real, m: real, c: real)
    requires c > 0.0 && m >= 0.0 && (m == x || m == -x)
    ensures Ratio(x * c, m, c) == if x > 0.0 then 1.0 else if x < 0.0 then -1.0 else 0.0
  {
    if x != 0.0 {
      PositiveProduct(m, c);
      var d := m * c;
      assert x * c == d || x * c == -d;
      assert d / d == 1.0 && -d / d == -1.0;
    }
  }

  lemma NonNegativeProduct(x: real, y: real)
    requires x >= 0.0 && y >= 0.0
    ensures x * y >= 0.0
  {
  }

  lemma CancelFactor(k: real, d: real, m: real)
    requires k > 0.0 && m > 0.0
    ensures k * m > 0.0 && (k * d) / (k * m) == d / m
  {
    PositiveProduct(k, m);
    var r := d / m;
    assert r * m == d;
    assert r * (k * m) == k * d;
  }
}
