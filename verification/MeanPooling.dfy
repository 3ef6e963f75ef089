/**
  Attention-mask weighted mean pooling over the flattened token buffer, followed
  by truncation and normalisation: the tail of one inference.
 */
module MeanPooling {
  import opened VectorOps

  /** The weight a mask entry contributes; zero and negative entries contribute none. */
  function Weight(m: int): real {
    if m > 0 then m as real else 0.0
  }

  function MaskSum(mask: seq<int>, n: nat): real
    requires n <= |mask|
  {
    if n == 0 then 0.0 else MaskSum(mask, n - 1) + Weight(mask[n - 1])
  }

  /** Rows of `dim` values, one per token, in one flat buffer. */
  predicate Shaped(tokens: Vector, rows: nat, dim: nat) {
    |tokens| == rows * dim
  }

  lemma CellInside(rows: nat, dim: nat, i: nat, j: nat)
    requires i < rows && j < dim
    ensures 0 <= i * dim + j < rows * dim
  {
    assert (i + 1) * dim <= rows * dim by { MulOrder(i + 1, rows, dim); }
    assert (i + 1) * dim == i * dim + dim;
  }

  lemma MulOrder(a: nat, b: nat, k: nat)
    requires a <= b
    ensures a * k <= b * k
  {
    assert (b - a) * k >= 0;
  }

  function Cell(tokens: Vector, rows: nat, dim: nat, i: nat, j: nat): real
    requires Shaped(tokens, rows, dim) && i < rows && j < dim
  {
    CellInside(rows, dim, i, j);
    tokens[i * dim + j]
  }

  /** Weighted sum of column `j` over the first `n` rows. */
  function ColumnSum(tokens: Vector, rows: nat, dim: nat, mask: seq<int>, j: nat, n: nat): real
    requires Shaped(tokens, rows, dim) && |mask| == rows && j < dim && n <= rows
    decreases n
  {
    if n == 0 then 0.0
    else ColumnSum(tokens, rows, dim, mask, j, n - 1) + Cell(tokens, rows, dim, n - 1, j) * Weight(mask[n - 1])
  }

  /** The mask-weighted average of column `j`; zero when nothing is unmasked. */
  function Pooled(tokens: Vector, rows: nat, dim: nat, mask: seq<int>, j: nat): real
    requires Shaped(tokens, rows, dim) && |mask| == rows && j < dim
  {
    var total := MaskSum(mask, rows);
    if total > EPSILON then ColumnSum(tokens, rows, dim, mask, j, rows) / total else 0.0
  }

  lemma {:induction false} MaskSumCounts(mask: seq<int>, n: nat)
    requires n <= |mask|
    ensures MaskSum(mask, n) >= 0.0
    ensures (exists i :: 0 <= i < n && mask[i] > 0) ==> MaskSum(mask, n) >= 1.0
    ensures !(exists i :: 0 <= i < n && mask[i] > 0) ==> MaskSum(mask, n) == 0.0
  {
    if n > 0 {
      MaskSumCounts(mask, n - 1);
    }
  }

  /** `mean_pool`: accumulate weighted rows into one buffer, then divide by the mask sum. */
  method MeanPool(tokens: Vector, rows: nat, dim: nat, mask: seq<int>) returns (pooled: Vector)
    requires Shaped(tokens, rows, dim) && |mask| == rows
    ensures |pooled| == dim
    ensures forall j :: 0 <= j < dim ==> pooled[j] == Pooled(tokens, rows, dim, mask, j)
  {
    var buffer := new real[dim](_ => 0.0);
    var maskSum := 0.0;
    for i := 0 to rows
      invariant maskSum == MaskSum(mask, i)
      invariant forall j :: 0 <= j < dim ==> buffer[j] == ColumnSum(tokens, rows, dim, mask, j, i)
    {
      var weight := mask[i] as real;
      if weight > 0.0 {
        maskSum := maskSum + weight;
        AddRow(buffer, tokens, rows, dim, mask, i);
      }
    }
    MaskSumCounts(mask, rows);
    if maskSum > EPSILON {
      DivideAll(buffer, maskSum);
    } else {
      forall j | 0 <= j < dim ensures buffer[j] == 0.0 {
        NothingUnmasked(tokens, rows, dim, mask, j, rows);
      }
    }
    pooled := buffer[..];
  }

  /** Multiply the buffer by the inverse of a positive total. */
  method DivideAll(buffer: array<real>, total: real)
    requires total > 0.0
    modifies buffer
    ensures forall k :: 0 <= k < buffer.Length ==> buffer[k] == old(buffer[k]) / total
  {
    var inverse := 1.0 / total;
    for j := 0 to buffer.Length
      invariant forall k :: 0 <= k < j ==> buffer[k] == old(buffer[k]) / total
      invariant forall k :: j <= k < buffer.Length ==> buffer[k] == old(buffer[k])
    {
      DivideAsMultiply(buffer[j], total);
      buffer[j] := buffer[j] * inverse;
    }
  }

  /** Add row `i`, weighted, to the running column sums. */
  method AddRow(buffer: array<real>, tokens: Vector, rows: nat, dim: nat, mask: seq<int>, i: nat)
    requires Shaped(tokens, rows, dim) && |mask| == rows && i < rows && buffer.Length == dim && mask[i] > 0
    requires forall j :: 0 <= j < dim ==> buffer[j] == ColumnSum(tokens, rows, dim, mask, j, i)
    modifies buffer
    ensures forall j :: 0 <= j < dim ==> buffer[j] == ColumnSum(tokens, rows, dim, mask, j, i + 1)
  {
    var offset := i * dim;
    for j := 0 to dim
      invariant forall k :: 0 <= k < j ==> buffer[k] == ColumnSum(tokens, rows, dim, mask, k, i + 1)
      invariant forall k :: j <= k < dim ==> buffer[k] == ColumnSum(tokens, rows, dim, mask, k, i)
    {
      CellInside(rows, dim, i, j);
      buffer[j] := buffer[j] + tokens[offset + j] * mask[i] as real;
    }
  }

  lemma {:induction false} NothingUnmasked(tokens: Vector, rows: nat, dim: nat, mask: seq<int>, j: nat, n: nat)
    requires Shaped(tokens, rows, dim) && |mask| == rows && j < dim && n <= rows
    requires MaskSum(mask, n) < 1.0
    ensures ColumnSum(tokens, rows, dim, mask, j, n) == 0.0
  {
    if n > 0 {
      MaskSumCounts(mask, n);
      MaskSumCounts(mask, n - 1);
      NothingUnmasked(tokens, rows, dim, mask, j, n - 1);
      assert Weight(mask[n - 1]) == 0.0;
      assert Cell(tokens, rows, dim, n - 1, j) * 0.0 == 0.0;
    }
  }

  /** Two buffers that agree on the unmasked rows, possibly with rows of different width. */
  ghost predicate AgreeUnmasked(a: Vector, b: Vector, rows: nat, dimA: nat, dimB: nat, mask: seq<int>, j: nat)
    requires Shaped(a, rows, dimA) && Shaped(b, rows, dimB) && |mask| == rows && j < dimA && j < dimB
  {
    forall i :: 0 <= i < rows && mask[i] > 0 ==> Cell(a, rows, dimA, i, j) == Cell(b, rows, dimB, i, j)
  }

  lemma {:induction false} ColumnsAgree(a: Vector, b: Vector, rows: nat, dimA: nat, dimB: nat, mask: seq<int>, j: nat, n: nat)
    requires Shaped(a, rows, dimA) && Shaped(b, rows, dimB) && |mask| == rows && j < dimA && j < dimB && n <= rows
    requires AgreeUnmasked(a, b, rows, dimA, dimB, mask, j)
    ensures ColumnSum(a, rows, dimA, mask, j, n) == ColumnSum(b, rows, dimB, mask, j, n)
  {
    if n > 0 {
      ColumnsAgree(a, b, rows, dimA, dimB, mask, j, n - 1);
      var x, y, w := Cell(a, rows, dimA, n - 1, j), Cell(b, rows, dimB, n - 1, j), Weight(mask[n - 1]);
      if mask[n - 1] <= 0 {
        assert x * w == 0.0 == y * w;
      }
    }
  }

  /** Masked-out rows never matter. */
  lemma MaskedRowsIgnored(a: Vector, b: Vector, rows: nat, dim: nat, mask: seq<int>, j: nat)
    requires Shaped(a, rows, dim) && Shaped(b, rows, dim) && |mask| == rows && j < dim
    requires AgreeUnmasked(a, b, rows, dim, dim, mask, j)
    ensures Pooled(a, rows, dim, mask, j) == Pooled(b, rows, dim, mask, j)
  {
    ColumnsAgree(a, b, rows, dim, dim, mask, j, rows);
  }

  /** The column's unmasked values lie between the bounds. */
  ghost predicate Bounded(tokens: Vector, rows: nat, dim: nat, mask: seq<int>, j: nat, lo: real, hi: real)
    requires Shaped(tokens, rows, dim) && |mask| == rows && j < dim
  {
    forall i :: 0 <= i < rows && mask[i] > 0 ==> lo <= Cell(tokens, rows, dim, i, j) <= hi
  }

  /** One more row, with what it contributes. */
  lemma ColumnStep(tokens: Vector, rows: nat, dim: nat, mask: seq<int>, j: nat, n: nat, lo: real, hi: real)
    returns (x: real, w: real)
    requires Shaped(tokens, rows, dim) && |mask| == rows && j < dim && 0 < n <= rows
    requires Bounded(tokens, rows, dim, mask, j, lo, hi)
    ensures ColumnSum(tokens, rows, dim, mask, j, n) == ColumnSum(tokens, rows, dim, mask, j, n - 1) + x * w
    ensures MaskSum(mask, n) == MaskSum(mask, n - 1) + w
    ensures w >= 0.0 && (w > 0.0 ==> lo <= x <= hi)
  {
    x, w := Cell(tokens, rows, dim, n - 1, j), Weight(mask[n - 1]);
  }

  lemma {:induction false} ColumnBetween(tokens: Vector, rows: nat, dim: nat, mask: seq<int>, j: nat, n: nat, lo: real, hi: real)
    requires Shaped(tokens, rows, dim) && |mask| == rows && j < dim && n <= rows
    requires Bounded(tokens, rows, dim, mask, j, lo, hi)
    ensures Within(lo, hi, MaskSum(mask, n), ColumnSum(tokens, rows, dim, mask, j, n))
  {
    if n == 0 {
      WithinAtZero(lo, hi);
    } else {
      ColumnBetween(tokens, rows, dim, mask, j, n - 1, lo, hi);
      var x, w := ColumnStep(tokens, rows, dim, mask, j, n, lo, hi);
      BetweenStep(lo, hi, MaskSum(mask, n - 1), ColumnSum(tokens, rows, dim, mask, j, n - 1), x, w);
    }
  }

  predicate Within(lo: real, hi: real, m: real, c: real) {
    lo * m <= c <= hi * m
  }

  lemma WithinAtZero(lo: real, hi: real)
    ensures Within(lo, hi, 0.0, 0.0)
  {
  }

  lemma BetweenStep(lo: real, hi: real, m: real, c: real, x: real, w: real)
    requires Within(lo, hi, m, c) && w >= 0.0 && (w > 0.0 ==> lo <= x <= hi)
    ensures Within(lo, hi, m + w, c + x * w)
  {
    Distribute(lo, m, w);
    Distribute(hi, m, w);
    if w > 0.0 {
      Squeeze(lo, x, hi, w);
    } else {
      assert m + w == m && x * w == 0.0;
    }
  }

  lemma Squeeze(lo: real, x: real, hi: real, w: real)
    requires lo <= x <= hi && w >= 0.0
    ensures lo * w <= x * w <= hi * w
  {
    assert (x - lo) * w >= 0.0;
    assert (hi - x) * w >= 0.0;
  }

  /** The pooled value stays between any bounds on the unmasked values of its column. */
  lemma PooledBetween(tokens: Vector, rows: nat, dim: nat, mask: seq<int>, j: nat, lo: real, hi: real)
    requires Shaped(tokens, rows, dim) && |mask| == rows && j < dim
    requires forall i :: 0 <= i < rows && mask[i] > 0 ==> lo <= Cell(tokens, rows, dim, i, j) <= hi
    requires exists i :: 0 <= i < rows && mask[i] > 0
    ensures lo <= Pooled(tokens, rows, dim, mask, j) <= hi
  {
    ColumnBetween(tokens, rows, dim, mask, j, rows, lo, hi);
    MaskSumCounts(mask, rows);
    QuotientBetween(ColumnSum(tokens, rows, dim, mask, j, rows), MaskSum(mask, rows), lo, hi);
  }

  lemma QuotientBetween(s: real, w: real, lo: real, hi: real)
    requires w > 0.0 && lo * w <= s <= hi * w
    ensures lo <= s / w <= hi
  {
    var q := s / w;
    assert q * w == s;
    if q < lo { StrictMul(q, lo, w); }
    if q > hi { StrictMul(hi, q, w); }
  }

  /** Every row cut to its first `width` values, flattened again. */
  function TruncateRows(tokens: Vector, rows: nat, dim: nat, width: nat): (t: Vector)
    requires Shaped(tokens, rows, dim) && width <= dim
    ensures Shaped(t, rows, width)
    decreases rows
  {
    if rows == 0 then []
    else
      MulOrder(rows - 1, rows, dim);
      assert rows * dim == (rows - 1) * dim + dim;
      assert rows * width == (rows - 1) * width + width;
      TruncateRows(tokens[..(rows - 1) * dim], rows - 1, dim, width)
      + tokens[(rows - 1) * dim..(rows - 1) * dim + width]
  }

  lemma {:induction false} TruncatedCell(tokens: Vector, rows: nat, dim: nat, width: nat, i: nat, j: nat)
    requires Shaped(tokens, rows, dim) && width <= dim && i < rows && j < width
    ensures Cell(TruncateRows(tokens, rows, dim, width), rows, width, i, j) == Cell(tokens, rows, dim, i, j)
    decreases rows
  {
    var n := rows - 1;
    MulOrder(n, rows, dim);
    assert rows * dim == n * dim + dim && rows * width == n * width + width;
    var init := TruncateRows(tokens[..n * dim], n, dim, width);
    var all := TruncateRows(tokens, rows, dim, width);
    CellInside(rows, width, i, j);
    CellInside(rows, dim, i, j);
    if i < n {
      CellInside(n, width, i, j);
      CellInside(n, dim, i, j);
      TruncatedCell(tokens[..n * dim], n, dim, width, i, j);
      assert all[i * width + j] == init[i * width + j];
    } else {
      assert all[n * width + j] == tokens[n * dim..n * dim + width][j];
    }
  }

  /** Pooling and then truncating equals truncating every row and then pooling. */
  lemma TruncationCommutes(tokens: Vector, rows: nat, dim: nat, mask: seq<int>, width: nat, j: nat)
    requires Shaped(tokens, rows, dim) && |mask| == rows && j < width <= dim
    ensures Pooled(TruncateRows(tokens, rows, dim, width), rows, width, mask, j) == Pooled(tokens, rows, dim, mask, j)
  {
    var t := TruncateRows(tokens, rows, dim, width);
    forall i | 0 <= i < rows && mask[i] > 0 ensures Cell(t, rows, width, i, j) == Cell(tokens, rows, dim, i, j) {
      TruncatedCell(tokens, rows, dim, width, i, j);
    }
    ColumnsAgree(t, tokens, rows, width, dim, mask, j, rows);
  }

  /**
    The tail of one inference: pool over the native dimension, keep the first
    `width` values, normalise. The result has `width` values (fewer only if the
    model is narrower) and unit length exactly when the truncated mean reaches epsilon.
   */
  method Embed(tokens: Vector, rows: nat, dim: nat, mask: seq<int>, width: nat, sqrt: real -> real) returns (embedding: Vector)
    requires Shaped(tokens, rows, dim) && |mask| == rows && LawfulSqrt(sqrt)
    ensures |embedding| == Min(width, dim)
    ensures var mean := seq(Min(width, dim), j requires 0 <= j < Min(width, dim) => Pooled(tokens, rows, dim, mask, j));
            && embedding == Normalized(mean, sqrt)
            && (DotTo(embedding, embedding, |embedding|) == 1.0 <==> sqrt(DotTo(mean, mean, |mean|)) >= EPSILON)
  {
    var pooled := MeanPool(tokens, rows, dim, mask);
    var truncated := pooled[..Min(width, dim)];
    ghost var mean := seq(Min(width, dim), j requires 0 <= j < Min(width, dim) => Pooled(tokens, rows, dim, mask, j));
    assert truncated == mean;
    embedding := Normalized(truncated, sqrt);
    UnitLengthExactlyWhen(truncated, sqrt);
  }
}
