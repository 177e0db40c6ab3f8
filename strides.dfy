/** Strided addressing of a flat buffer, shared by both matrix revisions:
    entry `(i, j)` of a matrix lives at `i * step[0] + j * step[1]`. */
module Strides {
  import opened Seqs

  /** The buffer position of entry `(i, j)`. */
  function Slot(step: seq<nat>, i: nat, j: nat): nat
    requires |step| >= 2
  {
    i * step[0] + j * step[1]
  }

  /** Every entry of a `rows` by `cols` view lands inside a buffer of length `n`. */
  predicate SlotsInBounds(n: nat, step: seq<nat>, rows: nat, cols: nat)
    requires |step| >= 2
  {
    forall i: nat, j: nat :: i < rows && j < cols ==> Slot(step, i, j) < n
  }

  /** The row-major step of a fresh `rows` by `cols` matrix, or the step of a
      transposed view of a row-major matrix. */
  predicate RowMajorOrTransposed(step: seq<nat>, rows: nat, cols: nat)
  {
    step == [cols, 1] || step == [1, rows]
  }

  /** Entry `(i, j)` read through the strides. */
  function At(data: seq<real>, step: seq<nat>, i: nat, j: nat): real
    requires |step| >= 2 && Slot(step, i, j) < |data|
  {
    data[Slot(step, i, j)]
  }

  /** A major index `a < limit` and a minor index `b < w` fit below `limit * w`. */
  lemma MajorMinorBound(a: nat, b: nat, w: nat, limit: nat)
    requires a < limit && b < w
    ensures a * w + b < limit * w
  {
    MultiplyMonotone(a + 1, limit, w);
  }

  /** Distinct pairs of a major index and a minor index below `w` give
      distinct values of `a * w + b`. */
  lemma MajorMinorDistinct(a: nat, b: nat, a': nat, b': nat, w: nat)
    requires b < w && b' < w
    requires a != a' || b != b'
    ensures a * w + b != a' * w + b'
  {
    if a < a' {
      MultiplyMonotone(a + 1, a', w);
    } else if a' < a {
      MultiplyMonotone(a' + 1, a, w);
    }
  }

  /** For row-major and transposed steps, every in-range entry is inside a
      buffer of `rows * cols` values. */
  lemma StridedSlotsInBounds(step: seq<nat>, rows: nat, cols: nat)
    requires RowMajorOrTransposed(step, rows, cols)
    ensures SlotsInBounds(rows * cols, step, rows, cols)
  {
    forall i: nat, j: nat | i < rows && j < cols
      ensures Slot(step, i, j) < rows * cols
    {
      if step == [cols, 1] {
        MajorMinorBound(i, j, cols, rows);
      } else {
        MajorMinorBound(j, i, rows, cols);
      }
    }
  }

  /** For row-major and transposed steps, distinct in-range entries occupy
      distinct slots. */
  lemma StridedSlotsDistinct(step: seq<nat>, rows: nat, cols: nat, i: nat, j: nat, i': nat, j': nat)
    requires RowMajorOrTransposed(step, rows, cols)
    requires i < rows && j < cols && i' < rows && j' < cols
    requires i != i' || j != j'
    ensures Slot(step, i, j) != Slot(step, i', j')
  {
    if step == [cols, 1] {
      MajorMinorDistinct(i, j, i', j', cols);
    } else {
      MajorMinorDistinct(j, i, j', i', rows);
    }
  }

  /** Swapping the two steps swaps the roles of row and column. */
  lemma SwappedSlot(step: seq<nat>, i: nat, j: nat)
    requires |step| >= 2
    ensures Slot([step[1], step[0]], i, j) == Slot(step, j, i)
  {
  }

  /** `sum_{j < n} at(i, j) * vec[j]`, accumulated left to right as the loops do. */
  function RowSum(data: seq<real>, step: seq<nat>, i: nat, vec: seq<real>, n: nat): real
    requires |step| >= 2 && n <= |vec|
    requires forall j: nat :: j < n ==> Slot(step, i, j) < |data|
  {
    if n == 0 then 0.0 else RowSum(data, step, i, vec, n - 1) + At(data, step, i, n - 1) * vec[n - 1]
  }

  /** `sum_{j < n} at(j, i) * vec[j]`: the same sum taken down column `i`. */
  function ColumnSum(data: seq<real>, step: seq<nat>, i: nat, vec: seq<real>, n: nat): real
    requires |step| >= 2 && n <= |vec|
    requires forall j: nat :: j < n ==> Slot(step, j, i) < |data|
  {
    if n == 0 then 0.0 else ColumnSum(data, step, i, vec, n - 1) + At(data, step, n - 1, i) * vec[n - 1]
  }

  /** Row `i` of the swapped-step view is column `i` of the original. */
  lemma {:induction false} SwappedRowSum(data: seq<real>, step: seq<nat>, i: nat, vec: seq<real>, n: nat)
    requires |step| >= 2 && n <= |vec|
    requires forall j: nat :: j < n ==> Slot(step, j, i) < |data|
    ensures forall j: nat :: j < n ==> Slot([step[1], step[0]], i, j) < |data|
    ensures RowSum(data, [step[1], step[0]], i, vec, n) == ColumnSum(data, step, i, vec, n)
  {
    forall j: nat | j < n
      ensures Slot([step[1], step[0]], i, j) < |data|
    {
      SwappedSlot(step, i, j);
    }
    if n > 0 {
      SwappedRowSum(data, step, i, vec, n - 1);
      SwappedSlot(step, i, n - 1);
    }
  }

  /** The matrix-vector product read through the strides: entry `i` is row `i`
      of the view against `vec`. */
  function MatVec(data: seq<real>, step: seq<nat>, rows: nat, cols: nat, vec: seq<real>): (r: seq<real>)
    requires |step| >= 2 && cols <= |vec|
    requires SlotsInBounds(|data|, step, rows, cols)
    ensures |r| == rows
  {
    seq(rows, i requires 0 <= i < rows => RowSum(data, step, i, vec, cols))
  }

  /** A grid of `rows` rows of `cols` values each. */
  predicate IsGrid(grid: seq<seq<real>>, rows: nat, cols: nat)
  {
    |grid| == rows && forall k :: 0 <= k < rows ==> |grid[k]| == cols
  }

  /** The entries before `(i, j)` in row-major visiting order hold their grid
      values at their strided slots: what a nested fill loop has done so far. */
  predicate Filled(b: seq<real>, step: seq<nat>, grid: seq<seq<real>>, rows: nat, cols: nat, i: nat, j: nat)
    requires |step| >= 2 && IsGrid(grid, rows, cols) && SlotsInBounds(|b|, step, rows, cols)
  {
    forall i': nat, j': nat :: i' < rows && j' < cols && (i' < i || (i' == i && j' < j)) ==>
      b[Slot(step, i', j')] == grid[i'][j']
  }

  /** Writing entry `(i, j)` extends the filled part by one entry and, the
      slots being distinct, disturbs none of the earlier ones. */
  lemma FillStep(b: seq<real>, step: seq<nat>, grid: seq<seq<real>>, rows: nat, cols: nat, i: nat, j: nat)
    requires RowMajorOrTransposed(step, rows, cols) && IsGrid(grid, rows, cols)
    requires SlotsInBounds(|b|, step, rows, cols)
    requires i < rows && j < cols
    requires Filled(b, step, grid, rows, cols, i, j)
    ensures Filled(b[Slot(step, i, j) := grid[i][j]], step, grid, rows, cols, i, j + 1)
  {
    var b' := b[Slot(step, i, j) := grid[i][j]];
    forall i': nat, j': nat | i' < rows && j' < cols && (i' < i || (i' == i && j' < j + 1))
      ensures b'[Slot(step, i', j')] == grid[i'][j']
    {
      if i' != i || j' != j {
        StridedSlotsDistinct(step, rows, cols, i', j', i, j);
      }
    }
  }
}
