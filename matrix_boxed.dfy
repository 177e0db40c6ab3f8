/** The strided matrix of src/matrix.rs: a flat buffer with `dims` and `step`
    vectors, a transpose that copies the buffer under swapped dims and steps,
    and three operations that fill a fresh row-major result in nested loops. */
module MatrixBoxed {
  import opened Results
  import opened Seqs
  import opened Strides

  datatype Matrix = Matrix(data: seq<real>, dims: seq<nat>, step: seq<nat>, size: nat)

  /** What `empty`, `new` and `transpose` establish: at least two dims, `size`
      is `dims[0] * dims[1]` and counts the buffer, the step is row-major or
      that of a transposed row-major matrix, and so every entry's slot is
      inside the buffer. */
  predicate Valid(m: Matrix)
  {
    && |m.dims| >= 2
    && m.size == m.dims[0] * m.dims[1]
    && |m.data| == m.size
    && RowMajorOrTransposed(m.step, m.dims[0], m.dims[1])
    && SlotsInBounds(|m.data|, m.step, m.dims[0], m.dims[1])
  }

  /** Entry `(i, j)` of a valid matrix, read through its steps. */
  function Entry(m: Matrix, i: nat, j: nat): real
    requires Valid(m) && i < m.dims[0] && j < m.dims[1]
  {
    At(m.data, m.step, i, j)
  }

  /** The product the loops of `multiply` accumulate. */
  function Product(m: Matrix, vec: seq<real>): seq<real>
    requires Valid(m) && m.dims[1] <= |vec|
  {
    MatVec(m.data, m.step, m.dims[0], m.dims[1], vec)
  }

  /** `empty`: `dims[0] * dims[1]` zeros with row-major step `[dims[1], 1]`;
      reading `dims[1]` panics when fewer than two dims are given. */
  function Empty(dims: seq<nat>): (r: Result<Matrix>)
    ensures r.Ok? <==> |dims| >= 2
    ensures r.Err? ==> r.error == IndexOutOfBounds
    ensures r.Ok? ==> Valid(r.value) && r.value.dims == dims && r.value.step == [dims[1], 1]
    ensures r.Ok? ==> |r.value.data| == dims[0] * dims[1] && forall k :: 0 <= k < |r.value.data| ==> r.value.data[k] == 0.0
  {
    if |dims| < 2 then Err(IndexOutOfBounds)
    else
      var size := dims[0] * dims[1];
      StridedSlotsInBounds([dims[1], 1], dims[0], dims[1]);
      Ok(Matrix(seq(size, _ => 0.0), dims, [dims[1], 1], size))
  }

  /** `new`: the rows, concatenated, replace the zeros; the total count must be
      `dims[0] * dims[1]`, while the rows' own lengths are never checked. */
  function New(dims: seq<nat>, rows: seq<seq<real>>): (r: Result<Matrix>)
    ensures r.Ok? <==> |dims| >= 2 && |Concat(rows)| == dims[0] * dims[1]
    ensures |dims| < 2 ==> r == Err(IndexOutOfBounds)
    ensures |dims| >= 2 && r.Err? ==> r.error == ShapeMismatch
    ensures r.Ok? ==> Valid(r.value) && r.value.data == Concat(rows) && r.value.dims == dims && r.value.step == [dims[1], 1]
  {
    match Empty(dims)
    case Err(e) => Err(e)
    case Ok(m) =>
      var data := Concat(rows);
      if |data| == m.size then Ok(m.(data := data)) else Err(ShapeMismatch)
  }

  /** Rows of equal length `dims[1]` are stored one after another: entry
      `(i, j)` of the matrix is `rows[i][j]`. */
  lemma NewStoresRowByRow(dims: seq<nat>, rows: seq<seq<real>>, i: nat, j: nat)
    requires |dims| >= 2 && |rows| == dims[0]
    requires forall k :: 0 <= k < |rows| ==> |rows[k]| == dims[1]
    requires i < dims[0] && j < dims[1]
    ensures New(dims, rows).Ok?
    ensures Entry(New(dims, rows).value, i, j) == rows[i][j]
  {
    ConcatUniformAt(rows, dims[1], i, j);
  }

  /** Row lengths are not checked: two ragged rows supplying four values in all
      make a 2 by 2 matrix. */
  lemma NewAcceptsRaggedRows()
    ensures New([2, 2], [[1.0, 2.0, 3.0], [4.0]]).Ok?
  {
    assert Concat([[1.0, 2.0, 3.0], [4.0]]) == [1.0, 2.0, 3.0, 4.0];
  }

  /** `transpose`: a copy of the buffer under swapped dims and steps, with the
      same size; only the first two dims survive. */
  function Transpose(m: Matrix): (t: Matrix)
    requires |m.dims| >= 2 && |m.step| >= 2
    ensures t.data == m.data && t.size == m.size
  {
    Matrix(m.data, [m.dims[1], m.dims[0]], [m.step[1], m.step[0]], m.size)
  }

  /** Transposing keeps a matrix valid. */
  lemma TransposeValid(m: Matrix)
    requires Valid(m)
    ensures Valid(Transpose(m))
  {
    var t := Transpose(m);
    StridedSlotsInBounds(t.step, t.dims[0], t.dims[1]);
  }

  /** Entry `(i, j)` of the transpose is entry `(j, i)` of the original. */
  lemma TransposeEntry(m: Matrix, i: nat, j: nat)
    requires Valid(m) && i < m.dims[1] && j < m.dims[0]
    ensures Valid(Transpose(m))
    ensures Entry(Transpose(m), i, j) == Entry(m, j, i)
  {
    TransposeValid(m);
    SwappedSlot(m.step, i, j);
  }

  /** For a two-dimensional matrix, transposing twice gives back the original. */
  lemma TransposeTwice(m: Matrix)
    requires |m.dims| == 2 && |m.step| == 2
    ensures Transpose(Transpose(m)) == m
  {
  }

  /** `new` and `empty` accept more than two dims, but transposing keeps only
      the first two: a double transpose drops every dim after the second. */
  lemma TransposeTwiceDropsDims(m: Matrix)
    requires |m.dims| >= 2 && |m.step| >= 2
    ensures Transpose(Transpose(m)).dims == m.dims[..2]
    ensures Transpose(Transpose(m)).step == m.step[..2]
    ensures |m.dims| > 2 ==> Transpose(Transpose(m)) != m
  {
  }

  /** `multiply`: the matrix-vector product read through the steps, so a
      transposed matrix multiplies by the transpose. Panics unless the
      vector's length is the column count. */
  method Multiply(m: Matrix, vec: seq<real>) returns (r: Result<seq<real>>)
    requires Valid(m)
    ensures r.Ok? <==> m.dims[1] == |vec|
    ensures r.Err? ==> r.error == ShapeMismatch
    ensures r.Ok? ==> r.value == Product(m, vec)
  {
    if m.dims[1] != |vec| {
      return Err(ShapeMismatch);
    }
    var rows, cols := m.dims[0], m.dims[1];
    var result := new real[rows](_ => 0.0);
    for i := 0 to rows
      invariant forall k :: 0 <= k < i ==> result[k] == RowSum(m.data, m.step, k, vec, cols)
      invariant forall k :: i <= k < rows ==> result[k] == 0.0
    {
      for j := 0 to cols
        invariant forall k :: 0 <= k < i ==> result[k] == RowSum(m.data, m.step, k, vec, cols)
        invariant forall k :: i < k < rows ==> result[k] == 0.0
        invariant result[i] == RowSum(m.data, m.step, i, vec, j)
      {
        result[i] := result[i] + m.data[Slot(m.step, i, j)] * vec[j];
      }
    }
    r := Ok(result[..]);
  }

  /** Entry `i` of the product is `sum_j entry(i, j) * vec[j]`; on a transposed
      matrix it is `sum_j W(j, i) * vec[j]`, the product by the transpose of the
      original `W`. */
  lemma MultiplyTransposed(w: Matrix, vec: seq<real>, i: nat)
    requires Valid(w) && w.dims[0] == |vec| && i < w.dims[1]
    ensures Valid(Transpose(w))
    ensures Product(Transpose(w), vec)[i] == ColumnSum(w.data, w.step, i, vec, |vec|)
  {
    TransposeValid(w);
    SwappedRowSum(w.data, w.step, i, vec, |vec|);
  }

  /** The 2 by 2 matrix `[[1, 2], [3, 4]]`, as `new` builds it. */
  const Square := Matrix([1.0, 2.0, 3.0, 4.0], [2, 2], [2, 1], 4)

  lemma SquareIsNew()
    ensures New([2, 2], [[1.0, 2.0], [3.0, 4.0]]) == Ok(Square)
  {
    assert Concat([[1.0, 2.0], [3.0, 4.0]]) == [1.0, 2.0, 3.0, 4.0];
  }

  /** The products `[[1, 2, 3], [3, 4, 5]] * [1, 2, 3] == [14, 26]` and
      `transpose([[1, 2, 3], [2, 3, 4]]) * [1, 2] == [5, 8, 11]`. */
  lemma MultiplyExamples()
    ensures New([2, 3], [[1.0, 2.0, 3.0], [3.0, 4.0, 5.0]]).Ok?
    ensures Product(New([2, 3], [[1.0, 2.0, 3.0], [3.0, 4.0, 5.0]]).value, [1.0, 2.0, 3.0]) == [14.0, 26.0]
    ensures New([2, 3], [[1.0, 2.0, 3.0], [2.0, 3.0, 4.0]]).Ok?
    ensures Valid(Transpose(New([2, 3], [[1.0, 2.0, 3.0], [2.0, 3.0, 4.0]]).value))
    ensures Product(Transpose(New([2, 3], [[1.0, 2.0, 3.0], [2.0, 3.0, 4.0]]).value), [1.0, 2.0]) == [5.0, 8.0, 11.0]
  {
    assert Concat([[1.0, 2.0, 3.0], [3.0, 4.0, 5.0]]) == [1.0, 2.0, 3.0, 3.0, 4.0, 5.0];
    assert Concat([[1.0, 2.0, 3.0], [2.0, 3.0, 4.0]]) == [1.0, 2.0, 3.0, 2.0, 3.0, 4.0];
    var m := New([2, 3], [[1.0, 2.0, 3.0], [2.0, 3.0, 4.0]]).value;
    TransposeValid(m);
  }

  // ---------------------------------------------------------------------
  // dot
  // ---------------------------------------------------------------------

  /** `m(i, j) * vec[i]`, the values `dot` computes, laid out as rows. */
  function ScaledRows(m: Matrix, vec: seq<real>): (g: seq<seq<real>>)
    requires Valid(m) && m.dims[0] <= |vec|
    ensures IsGrid(g, m.dims[0], m.dims[1])
  {
    seq(m.dims[0], i requires 0 <= i < m.dims[0] =>
      seq(m.dims[1], j requires 0 <= j < m.dims[1] => Entry(m, i, j) * vec[i]))
  }

  /** `m(i, j) - other(i, j)`, the entry-wise difference, laid out as rows. */
  function DifferenceRows(m: Matrix, other: Matrix): (g: seq<seq<real>>)
    requires Valid(m) && Valid(other) && m.dims[0] == other.dims[0] && m.dims[1] == other.dims[1]
    ensures IsGrid(g, m.dims[0], m.dims[1])
  {
    seq(m.dims[0], i requires 0 <= i < m.dims[0] =>
      seq(m.dims[1], j requires 0 <= j < m.dims[1] => Entry(m, i, j) - Entry(other, i, j)))
  }

  /** What `dot` leaves in its result: `m`'s dims, a fresh row-major step and
      size, and, at the slot entry `(i, j)` has under `m`'s own steps, that
      entry times `vec[i]`. */
  predicate DotWritten(m: Matrix, vec: seq<real>, r: Matrix)
    requires Valid(m) && m.dims[0] <= |vec|
  {
    && r.dims == m.dims && r.step == [m.dims[1], 1] && r.size == m.size && |r.data| == m.size
    && forall i: nat, j: nat :: i < m.dims[0] && j < m.dims[1] ==>
         r.data[Slot(m.step, i, j)] == Entry(m, i, j) * vec[i]
  }

  /** `dot`: scale row `i` by `vec[i]`, writing each product through `m`'s
      steps into a zeroed row-major matrix of the same dims. Panics unless
      the vector's length is the row count. */
  method Dot(m: Matrix, vec: seq<real>) returns (r: Result<Matrix>)
    requires Valid(m)
    ensures r.Ok? <==> m.dims[0] == |vec|
    ensures r.Err? ==> r.error == ShapeMismatch
    ensures r.Ok? ==> Valid(r.value) && DotWritten(m, vec, r.value)
  {
    if m.dims[0] != |vec| {
      return Err(ShapeMismatch);
    }
    var rows, cols := m.dims[0], m.dims[1];
    ghost var grid := ScaledRows(m, vec);
    var buffer := new real[m.size](_ => 0.0);
    for i := 0 to rows
      invariant Filled(buffer[..], m.step, grid, rows, cols, i, 0)
    {
      for j := 0 to cols
        invariant Filled(buffer[..], m.step, grid, rows, cols, i, j)
      {
        var s := Slot(m.step, i, j);
        ghost var before := buffer[..];
        FillStep(before, m.step, grid, rows, cols, i, j);
        assert grid[i][j] == m.data[s] * vec[i];
        buffer[s] := m.data[s] * vec[i];
        assert buffer[..] == before[s := grid[i][j]];
      }
    }
    StridedSlotsInBounds([cols, 1], rows, cols);
    r := Ok(Matrix(buffer[..], m.dims, [cols, 1], m.size));
  }

  /** On a row-major matrix `dot` scales the rows: entry `(i, j)` of the
      result is `m(i, j) * vec[i]`. */
  lemma DotRowMajor(m: Matrix, vec: seq<real>, r: Matrix, i: nat, j: nat)
    requires Valid(m) && m.step == [m.dims[1], 1] && m.dims[0] == |vec|
    requires Valid(r) && DotWritten(m, vec, r)
    requires i < m.dims[0] && j < m.dims[1]
    ensures Entry(r, i, j) == Entry(m, i, j) * vec[i]
  {
  }

  /** On the transpose of `[[1, 2], [3, 4]]`, `dot` by `[1, 10]` leaves 20 where
      the row-major result should hold entry `(0, 1)` times `vec[0]`, which is 3. */
  lemma DotMislabelsTransposed(r: Matrix)
    requires Valid(Transpose(Square)) && DotWritten(Transpose(Square), [1.0, 10.0], r)
    ensures Valid(r)
    ensures Entry(r, 0, 1) == 20.0
    ensures Entry(Transpose(Square), 0, 1) * 1.0 == 3.0
  {
    StridedSlotsInBounds(r.step, 2, 2);
    assert Slot(Transpose(Square).step, 1, 0) == 1;
  }

  /** `dot` as intended: read each entry through `m`'s steps and write it at
      its row-major slot, so the result's entries are the scaled rows whatever
      `m`'s layout. */
  method DotCorrected(m: Matrix, vec: seq<real>) returns (r: Result<Matrix>)
    requires Valid(m)
    ensures r.Ok? <==> m.dims[0] == |vec|
    ensures r.Err? ==> r.error == ShapeMismatch
    ensures r.Ok? ==> Valid(r.value) && r.value.dims == m.dims && r.value.step == [m.dims[1], 1]
    ensures r.Ok? ==> forall i: nat, j: nat :: i < m.dims[0] && j < m.dims[1] ==>
      Entry(r.value, i, j) == Entry(m, i, j) * vec[i]
  {
    if m.dims[0] != |vec| {
      return Err(ShapeMismatch);
    }
    var rows, cols := m.dims[0], m.dims[1];
    var out := [cols, 1];
    StridedSlotsInBounds(out, rows, cols);
    ghost var grid := ScaledRows(m, vec);
    var buffer := new real[m.size](_ => 0.0);
    for i := 0 to rows
      invariant Filled(buffer[..], out, grid, rows, cols, i, 0)
    {
      for j := 0 to cols
        invariant Filled(buffer[..], out, grid, rows, cols, i, j)
      {
        var s := Slot(out, i, j);
        ghost var before := buffer[..];
        FillStep(before, out, grid, rows, cols, i, j);
        assert grid[i][j] == m.data[Slot(m.step, i, j)] * vec[i];
        buffer[s] := m.data[Slot(m.step, i, j)] * vec[i];
        assert buffer[..] == before[s := grid[i][j]];
      }
    }
    r := Ok(Matrix(buffer[..], m.dims, out, m.size));
  }

  // ---------------------------------------------------------------------
  // subtract
  // ---------------------------------------------------------------------

  /** What `subtract` leaves in its result: `m`'s dims, a fresh row-major step
      and size, and buffer slot `k` holding `m.data[k] - other.data[k]`. */
  predicate BufferDifference(m: Matrix, other: Matrix, r: Matrix)
    requires Valid(m) && Valid(other) && m.size == other.size
  {
    && r.dims == m.dims && r.step == [m.dims[1], 1] && r.size == m.size && |r.data| == m.size
    && forall k :: 0 <= k < m.size ==> r.data[k] == m.data[k] - other.data[k]
  }

  /** `subtract`: slot-by-slot difference of the two buffers, whatever their
      steps, into a fresh row-major matrix. Panics unless the dims agree. */
  method Subtract(m: Matrix, other: Matrix) returns (r: Result<Matrix>)
    requires Valid(m) && Valid(other)
    ensures r.Ok? <==> m.dims == other.dims
    ensures r.Err? ==> r.error == ShapeMismatch
    ensures r.Ok? ==> Valid(r.value) && BufferDifference(m, other, r.value)
  {
    if m.dims != other.dims {
      return Err(ShapeMismatch);
    }
    var buffer := new real[m.size](_ => 0.0);
    for k := 0 to m.size
      invariant forall k' :: 0 <= k' < k ==> buffer[k'] == m.data[k'] - other.data[k']
    {
      buffer[k] := m.data[k] - other.data[k];
    }
    StridedSlotsInBounds([m.dims[1], 1], m.dims[0], m.dims[1]);
    r := Ok(Matrix(buffer[..], m.dims, [m.dims[1], 1], m.size));
  }

  /** When both operands are row-major, the buffer difference is the
      entry-wise difference. */
  lemma SubtractRowMajor(m: Matrix, other: Matrix, r: Matrix, i: nat, j: nat)
    requires Valid(m) && Valid(other) && m.dims == other.dims
    requires m.step == [m.dims[1], 1] && other.step == [m.dims[1], 1]
    requires Valid(r) && BufferDifference(m, other, r)
    requires i < m.dims[0] && j < m.dims[1]
    ensures Entry(r, i, j) == Entry(m, i, j) - Entry(other, i, j)
  {
  }

  /** Subtracting the 2 by 2 zero matrix from the transpose of `[[1, 2], [3, 4]]`
      leaves 2 at entry `(0, 1)`, where the transpose holds 3. */
  lemma SubtractIgnoresSteps(zero: Matrix, r: Matrix)
    requires Empty([2, 2]) == Ok(zero)
    requires Valid(Transpose(Square)) && BufferDifference(Transpose(Square), zero, r)
    ensures Valid(r)
    ensures Entry(r, 0, 1) == 2.0
    ensures Entry(Transpose(Square), 0, 1) - Entry(zero, 0, 1) == 3.0
  {
    StridedSlotsInBounds(r.step, 2, 2);
  }

  /** `subtract` as intended: read both operands through their steps, so the
      result is the entry-wise difference whatever their layouts. */
  method SubtractCorrected(m: Matrix, other: Matrix) returns (r: Result<Matrix>)
    requires Valid(m) && Valid(other)
    ensures r.Ok? <==> m.dims == other.dims
    ensures r.Err? ==> r.error == ShapeMismatch
    ensures r.Ok? ==> Valid(r.value) && r.value.dims == m.dims && r.value.step == [m.dims[1], 1]
    ensures r.Ok? ==> forall i: nat, j: nat :: i < m.dims[0] && j < m.dims[1] ==>
      Entry(r.value, i, j) == Entry(m, i, j) - Entry(other, i, j)
  {
    if m.dims != other.dims {
      return Err(ShapeMismatch);
    }
    var rows, cols := m.dims[0], m.dims[1];
    var out := [cols, 1];
    StridedSlotsInBounds(out, rows, cols);
    ghost var grid := DifferenceRows(m, other);
    var buffer := new real[m.size](_ => 0.0);
    for i := 0 to rows
      invariant Filled(buffer[..], out, grid, rows, cols, i, 0)
    {
      for j := 0 to cols
        invariant Filled(buffer[..], out, grid, rows, cols, i, j)
      {
        var s := Slot(out, i, j);
        ghost var before := buffer[..];
        FillStep(before, out, grid, rows, cols, i, j);
        assert grid[i][j] == m.data[Slot(m.step, i, j)] - other.data[Slot(other.step, i, j)];
        buffer[s] := m.data[Slot(m.step, i, j)] - other.data[Slot(other.step, i, j)];
        assert buffer[..] == before[s := grid[i][j]];
      }
    }
    r := Ok(Matrix(buffer[..], m.dims, out, m.size));
  }
}
