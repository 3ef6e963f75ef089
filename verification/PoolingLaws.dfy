/**
  Masked pooling against a plain definition: a row with mask entry `k` counts `k` times,
  and the pooled value is the ordinary mean of the column so repeated.
 */
module PoolingLaws {
  import opened VectorOps
  import opened MeanPooling
  import opened RelevanceFilter

  function Copies(x: real, k: nat): (c: Vector)
    ensures |c| == k
  {
    seq(k, _ => x)
  }

  function Count(m: int): nat {
    if m > 0 then m else 0
  }

  /** Column `j` of the flat buffer. */
  function ColumnOf(tokens: Vector, rows: nat, dim: nat, j: nat): (c: Vector)
    requires Shaped(tokens, rows, dim) && j < dim
    ensures |c| == rows
  {
    seq(rows, i requires 0 <= i < rows => Cell(tokens, rows, dim, i, j))
  }

  /** The first `n` values, each as often as its mask entry says. */
  function Repeated(column: Vector, mask: seq<int>, n: nat): Vector
    requires n <= |column| == |mask|
  {
    if n == 0 then [] else Repeated(column, mask, n - 1) + Copies(column[n - 1], Count(mask[n - 1]))
  }

  lemma {:induction false} SumOfPrefix(a: Vector, b: Vector, n: nat)
    requires n <= |a|
    ensures SumTo(a + b, n) == SumTo(a, n)
  {
    if n > 0 {
      SumOfPrefix(a, b, n - 1);
    }
  }

  lemma {:induction false} SumWithCopies(a: Vector, x: real, k: nat)
    ensures SumTo(a + Copies(x, k), |a| + k) == SumTo(a, |a|) + Times(k, x)
  {
    if k == 0 {
      assert a + Copies(x, 0) == a;
    } else {
      SumWithCopies(a, x, k - 1);
      assert a + Copies(x, k) == (a + Copies(x, k - 1)) + [x];
      SumOfPrefix(a + Copies(x, k - 1), [x], |a| + k - 1);
    }
  }

  lemma CopiesWeigh(x: real, m: int)
    ensures Times(Count(m), x) == x * Weight(m) && Count(m) as real == Weight(m)
  {
    TimesIsProduct(Count(m), x);
  }

  /** The values sum to `c`, and there are `w` of them. */
  predicate Summed(r: Vector, c: real, w: real) {
    SumTo(r, |r|) == c && |r| as real == w
  }

  /** One more row. */
  lemma RepeatStep(before: Vector, after: Vector, x: real, m: int, c: real, c': real, w: real, w': real)
    requires Summed(before, c, w) && after == before + Copies(x, Count(m))
    requires c' == c + x * Weight(m) && w' == w + Weight(m)
    ensures Summed(after, c', w')
  {
    SumWithCopies(before, x, Count(m));
    CopiesWeigh(x, m);
  }

  function WeightedSum(column: Vector, mask: seq<int>, n: nat): real
    requires n <= |column| == |mask|
  {
    if n == 0 then 0.0 else WeightedSum(column, mask, n - 1) + column[n - 1] * Weight(mask[n - 1])
  }

  lemma {:induction false} ColumnSumOf(tokens: Vector, rows: nat, dim: nat, mask: seq<int>, j: nat, n: nat)
    requires Shaped(tokens, rows, dim) && |mask| == rows && j < dim && n <= rows
    ensures ColumnSum(tokens, rows, dim, mask, j, n) == WeightedSum(ColumnOf(tokens, rows, dim, j), mask, n)
    decreases n
  {
    if n > 0 {
      ColumnSumOf(tokens, rows, dim, mask, j, n - 1);
    }
  }

  lemma {:induction false} RepeatedSums(column: Vector, mask: seq<int>, n: nat)
    requires n <= |column| == |mask|
    ensures Summed(Repeated(column, mask, n), WeightedSum(column, mask, n), MaskSum(mask, n))
  {
    if n == 0 {
      NothingSummed();
    } else {
      RepeatedSums(column, mask, n - 1);
      RepeatStep(Repeated(column, mask, n - 1), Repeated(column, mask, n), column[n - 1], mask[n - 1],
                 WeightedSum(column, mask, n - 1), WeightedSum(column, mask, n), MaskSum(mask, n - 1), MaskSum(mask, n));
    }
  }

  lemma NothingSummed()
    ensures Summed([], 0.0, 0.0)
  {
  }

  /** The pooled value is the mean of the repeated column, and zero where nothing is unmasked. */
  lemma PooledIsMean(tokens: Vector, rows: nat, dim: nat, mask: seq<int>, j: nat)
    requires Shaped(tokens, rows, dim) && |mask| == rows && j < dim
    ensures var r := Repeated(ColumnOf(tokens, rows, dim, j), mask, rows);
            Pooled(tokens, rows, dim, mask, j) == if r == [] then 0.0 else Mean(r)
  {
    ColumnSumOf(tokens, rows, dim, mask, j, rows);
    RepeatedSums(ColumnOf(tokens, rows, dim, j), mask, rows);
    MaskSumCounts(mask, rows);
  }
}
