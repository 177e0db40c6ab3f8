/** The later matrix revision of src/matrix/mod.rs: private fields, a
    transpose that consumes the matrix and reverses its dims and steps in
    place, and a `multiply` whose buffer reads are all bounds-checked. */
module MatrixOwned {
  import opened Results
  import opened Seqs
  import opened Strides

  datatype Matrix = Matrix(data: seq<real>, dims: seq<nat>, step: seq<nat>, size: nat)

  /** The layout `empty` and `new` produce: step `[dims[1], 1]` and `size`
      counting `dims[0] * dims[1]` values. */
  predicate Fresh(m: Matrix)
    requires |m.dims| >= 2
  {
    m.step == [m.dims[1], 1] && m.size == m.dims[0] * m.dims[1]
  }

  /** What every matrix reachable through `empty`, `new` and `transpose`
      satisfies, the fields being private: at least two dims, two steps, a
      buffer of `size` values, and a fresh layout either as it stands or once
      transposed back. */
  predicate Reachable(m: Matrix)
  {
    && |m.dims| >= 2 && |m.step| == 2 && |m.data| == m.size
    && (Fresh(m) || Fresh(Transpose(m)))
  }

  /** `empty`: zeros under a fresh layout; indexing `dims[1]` panics when
      fewer than two dims are given. */
  function Empty(dims: seq<nat>): (r: Result<Matrix>)
    ensures r.Ok? <==> |dims| >= 2
    ensures r.Err? ==> r.error == IndexOutOfBounds
    ensures r.Ok? ==> Reachable(r.value) && Fresh(r.value) && r.value.dims == dims
    ensures r.Ok? ==> forall k :: 0 <= k < |r.value.data| ==> r.value.data[k] == 0.0
  {
    if |dims| < 2 then Err(IndexOutOfBounds)
    else
      var size := dims[0] * dims[1];
      Ok(Matrix(seq(size, _ => 0.0), dims, [dims[1], 1], size))
  }

  /** `new`: the concatenated rows replace the zeros and must number
      `dims[0] * dims[1]`. */
  function New(dims: seq<nat>, rows: seq<seq<real>>): (r: Result<Matrix>)
    ensures r.Ok? <==> |dims| >= 2 && |Concat(rows)| == dims[0] * dims[1]
    ensures |dims| < 2 ==> r == Err(IndexOutOfBounds)
    ensures |dims| >= 2 && r.Err? ==> r.error == ShapeMismatch
    ensures r.Ok? ==> Reachable(r.value) && Fresh(r.value) && r.value.dims == dims && r.value.data == Concat(rows)
  {
    match Empty(dims)
    case Err(e) => Err(e)
    case Ok(m) =>
      var data := Concat(rows);
      if |data| == m.size then Ok(m.(data := data)) else Err(ShapeMismatch)
  }

  /** `transpose`: every dim and both steps reversed; the buffer and size stay. */
  function Transpose(m: Matrix): (t: Matrix)
    ensures t.data == m.data && t.size == m.size
    ensures |t.dims| == |m.dims| && |t.step| == |m.step|
  {
    m.(dims := Reverse(m.dims), step := Reverse(m.step))
  }

  /** Transposing twice gives back the matrix, whatever its number of dims. */
  lemma TransposeTwice(m: Matrix)
    ensures Transpose(Transpose(m)) == m
  {
    ReverseReverse(m.dims);
    ReverseReverse(m.step);
  }

  /** Transposing keeps a matrix reachable. */
  lemma TransposeReachable(m: Matrix)
    requires Reachable(m)
    ensures Reachable(Transpose(m))
  {
    TransposeTwice(m);
  }

  /** On two dims and two steps, transposing swaps them. */
  lemma TransposeSwaps(m: Matrix)
    requires |m.dims| == 2 && |m.step| == 2
    ensures Transpose(m).dims == [m.dims[1], m.dims[0]]
    ensures Transpose(m).step == [m.step[1], m.step[0]]
  {
    ReverseAt(m.dims, 0);
    ReverseAt(m.dims, 1);
    ReverseAt(m.step, 0);
    ReverseAt(m.step, 1);
  }

  /** What `multiply` returns: a panic on a length mismatch, else a panic as
      soon as one of the slots it reads is outside the buffer, else the
      product read through the steps. */
  function MultiplyOutcome(m: Matrix, vec: seq<real>): (r: Result<seq<real>>)
    requires |m.dims| >= 2 && |m.step| >= 2
    ensures r.Ok? ==> |r.value| == m.dims[0]
    ensures m.dims[1] != |vec| ==> r == Err(ShapeMismatch)
  {
    if m.dims[1] != |vec| then Err(ShapeMismatch)
    else if !SlotsInBounds(|m.data|, m.step, m.dims[0], m.dims[1]) then Err(IndexOutOfBounds)
    else Ok(MatVec(m.data, m.step, m.dims[0], m.dims[1], vec))
  }

  /** `multiply`: accumulate row `i` of the view against `vec`, reading
      `data[i * step[0] + j * step[1]]` with a bounds check. */
  method Multiply(m: Matrix, vec: seq<real>) returns (r: Result<seq<real>>)
    requires |m.dims| >= 2 && |m.step| >= 2
    ensures r == MultiplyOutcome(m, vec)
  {
    if m.dims[1] != |vec| {
      return Err(ShapeMismatch);
    }
    var rows, cols := m.dims[0], m.dims[1];
    var result := new real[rows](_ => 0.0);
    for i := 0 to rows
      invariant forall i': nat, j': nat :: i' < i && j' < cols ==> Slot(m.step, i', j') < |m.data|
      invariant forall k :: 0 <= k < i ==> result[k] == RowSum(m.data, m.step, k, vec, cols)
    {
      result[i] := 0.0;
      for j := 0 to cols
        invariant forall i': nat, j': nat :: i' < i && j' < cols ==> Slot(m.step, i', j') < |m.data|
        invariant forall j': nat :: j' < j ==> Slot(m.step, i, j') < |m.data|
        invariant forall k :: 0 <= k < i ==> result[k] == RowSum(m.data, m.step, k, vec, cols)
        invariant result[i] == RowSum(m.data, m.step, i, vec, j)
      {
        var s := Slot(m.step, i, j);
        if s >= |m.data| {
          assert !SlotsInBounds(|m.data|, m.step, rows, cols);
          return Err(IndexOutOfBounds);
        }
        result[i] := result[i] + m.data[s] * vec[j];
      }
    }
    assert SlotsInBounds(|m.data|, m.step, rows, cols);
    assert result[..] == MatVec(m.data, m.step, rows, cols, vec);
    r := Ok(result[..]);
  }

  /** A two-dimensional reachable matrix never reads outside its buffer:
      `multiply` fails exactly on a length mismatch, and otherwise returns
      one value per row. */
  lemma MultiplyTwoDimensional(m: Matrix, vec: seq<real>)
    requires Reachable(m) && |m.dims| == 2
    ensures MultiplyOutcome(m, vec).Ok? <==> m.dims[1] == |vec|
    ensures MultiplyOutcome(m, vec).Err? ==> MultiplyOutcome(m, vec).error == ShapeMismatch
    ensures MultiplyOutcome(m, vec).Ok? ==> |MultiplyOutcome(m, vec).value| == m.dims[0]
  {
    if Fresh(m) {
      StridedSlotsInBounds(m.step, m.dims[0], m.dims[1]);
    } else {
      var t := Transpose(m);
      TransposeSwaps(m);
      TransposeSwaps(t);
      TransposeTwice(m);
      StridedSlotsInBounds(m.step, m.dims[0], m.dims[1]);
    }
  }

  /** A transposed matrix multiplies by the transpose: row `i` of the
      transposed view is column `i` of the original. */
  lemma MultiplyTransposed(w: Matrix, vec: seq<real>, i: nat)
    requires |w.dims| == 2 && |w.step| == 2 && w.dims[0] == |vec|
    requires SlotsInBounds(|w.data|, w.step, w.dims[0], w.dims[1])
    requires i < w.dims[1]
    ensures Transpose(w).dims == [w.dims[1], w.dims[0]]
    ensures MultiplyOutcome(Transpose(w), vec).Ok?
    ensures MultiplyOutcome(Transpose(w), vec).value[i] == ColumnSum(w.data, w.step, i, vec, |vec|)
  {
    TransposeSwaps(w);
    var t := Transpose(w);
    forall a: nat, b: nat | a < t.dims[0] && b < t.dims[1]
      ensures Slot(t.step, a, b) < |t.data|
    {
      SwappedSlot(w.step, a, b);
    }
    SwappedRowSum(w.data, w.step, i, vec, |vec|);
  }

  /** With three dims, transposing reverses all of them: the transpose of a
      1 by 1 by 5 matrix claims 5 rows over a single stored value, and
      `multiply` reads past the buffer. */
  lemma MultiplyThreeDimsOutOfBounds()
    ensures Empty([1, 1, 5]).Ok?
    ensures Transpose(Empty([1, 1, 5]).value).dims == [5, 1, 1]
    ensures MultiplyOutcome(Transpose(Empty([1, 1, 5]).value), [0.0]) == Err(IndexOutOfBounds)
  {
    var m := Empty([1, 1, 5]).value;
    var t := Transpose(m);
    assert Reverse([1, 1, 5]) == [5, 1, 1];
    assert Reverse([1, 1]) == [1, 1];
    assert Slot(t.step, 1, 0) == 1;
  }
}
