/** The `Vector` of src/vector.rs: a public `size` field beside the buffer,
    element-wise arithmetic built by zipping the two buffers, the two
    scalings, indexing, and comparison with a plain list of values. */
module Vectors {
  import opened Results
  import opened Seqs

  datatype Vector = Vector(size: nat, data: seq<real>)

  /** Every constructor records the buffer length as `size`; the field being
      public, a caller could break this, so operations do not rely on it. */
  predicate Valid(v: Vector)
  {
    v.size == |v.data|
  }

  /** `zero`: `size` zeros. */
  function Zero(size: nat): (r: Vector)
    ensures Valid(r) && r.size == size
    ensures forall i :: 0 <= i < size ==> r.data[i] == 0.0
  {
    Vector(size, seq(size, _ => 0.0))
  }

  /** `From<Vec<f64>>`: wrap the values, recording their count. */
  function FromSeq(data: seq<real>): (r: Vector)
    ensures Valid(r) && r.data == data
  {
    Vector(|data|, data)
  }

  /** `len`: the recorded size, not the buffer length. */
  function Len(v: Vector): (r: nat)
    ensures Valid(v) ==> r == |v.data|
  {
    v.size
  }

  /** `subtract`: the sizes must agree; the buffers are zipped, so the result
      is as long as the shorter buffer. */
  function Subtract(a: Vector, b: Vector): (r: Result<Vector>)
    ensures r.Ok? <==> a.size == b.size
    ensures r.Err? ==> r.error == ShapeMismatch
    ensures r.Ok? ==> Valid(r.value) && |r.value.data| == Min(|a.data|, |b.data|)
    ensures r.Ok? ==> forall i :: 0 <= i < |r.value.data| ==> r.value.data[i] == a.data[i] - b.data[i]
  {
    if a.size != b.size then Err(ShapeMismatch)
    else
      var n := Min(|a.data|, |b.data|);
      Ok(FromSeq(seq(n, i requires 0 <= i < n => a.data[i] - b.data[i])))
  }

  /** `add`: as `subtract`, with the sum. */
  function Add(a: Vector, b: Vector): (r: Result<Vector>)
    ensures r.Ok? <==> a.size == b.size
    ensures r.Err? ==> r.error == ShapeMismatch
    ensures r.Ok? ==> Valid(r.value) && |r.value.data| == Min(|a.data|, |b.data|)
    ensures r.Ok? ==> forall i :: 0 <= i < |r.value.data| ==> r.value.data[i] == a.data[i] + b.data[i]
  {
    if a.size != b.size then Err(ShapeMismatch)
    else
      var n := Min(|a.data|, |b.data|);
      Ok(FromSeq(seq(n, i requires 0 <= i < n => a.data[i] + b.data[i])))
  }

  /** `Scale<&Vector>`: the element-wise product of two vectors of equal size. */
  function ScaleByVector(a: Vector, b: Vector): (r: Result<Vector>)
    ensures r.Ok? <==> a.size == b.size
    ensures r.Err? ==> r.error == ShapeMismatch
    ensures r.Ok? ==> Valid(r.value) && |r.value.data| == Min(|a.data|, |b.data|)
    ensures r.Ok? ==> forall i :: 0 <= i < |r.value.data| ==> r.value.data[i] == a.data[i] * b.data[i]
  {
    if a.size != b.size then Err(ShapeMismatch)
    else
      var n := Min(|a.data|, |b.data|);
      Ok(FromSeq(seq(n, i requires 0 <= i < n => a.data[i] * b.data[i])))
  }

  /** `Scale<f64>`: every element times `c`. */
  function ScaleByConstant(v: Vector, c: real): (r: Vector)
    ensures Valid(r) && |r.data| == |v.data|
    ensures forall i :: 0 <= i < |v.data| ==> r.data[i] == v.data[i] * c
  {
    FromSeq(seq(|v.data|, i requires 0 <= i < |v.data| => v.data[i] * c))
  }

  /** `Index<usize>`: the element at `index`, panicking past the buffer. */
  function Index(v: Vector, index: nat): (r: Result<real>)
    ensures r.Ok? <==> index < |v.data|
    ensures r.Err? ==> r.error == IndexOutOfBounds
  {
    if index < |v.data| then Ok(v.data[index]) else Err(IndexOutOfBounds)
  }

  /** `PartialEq<Vec<f64>>`: the recorded size matches the list's length and
      the zipped pairs are all equal. */
  predicate EqualsSeq(v: Vector, s: seq<real>)
  {
    v.size == |s| && forall i :: 0 <= i < Min(|v.data|, |s|) ==> v.data[i] == s[i]
  }

  /** For a vector whose size is its buffer length, equality with a list is
      exactly equality of the buffer with the list. */
  lemma EqualsSeqExactly(v: Vector, s: seq<real>)
    requires Valid(v)
    ensures EqualsSeq(v, s) <==> v.data == s
  {
  }

  /** Only the recorded size is compared with the list's length, so a vector
      whose public `size` disagrees with its buffer can equal a shorter list. */
  lemma EqualsSeqComparesSizeField()
    ensures EqualsSeq(Vector(1, [1.0, 2.0]), [1.0])
    ensures Vector(1, [1.0, 2.0]).data != [1.0]
  {
  }

  /** `len` reports the element count of every constructed vector. */
  lemma LenOfConstructed(n: nat, data: seq<real>)
    ensures Len(Zero(n)) == n
    ensures Len(FromSeq(data)) == |data|
  {
  }

  /** Indexing a constructed vector returns the stored value in range and
      panics beyond it. */
  lemma IndexFromSeq(data: seq<real>, index: nat)
    ensures index < |data| ==> Index(FromSeq(data), index) == Ok(data[index])
    ensures index >= |data| ==> Index(FromSeq(data), index) == Err(IndexOutOfBounds)
  {
  }

  /** Adding back what was subtracted restores the vector. */
  lemma AddUndoesSubtract(a: Vector, b: Vector)
    requires Valid(a) && Valid(b) && a.size == b.size
    ensures Subtract(a, b).Ok?
    ensures Add(Subtract(a, b).value, b) == Ok(a)
  {
    var d := Subtract(a, b).value;
    assert Add(d, b).value.data == a.data;
  }

  /** Subtracting a vector from itself gives the zero vector of its size. */
  lemma SubtractSelf(a: Vector)
    requires Valid(a)
    ensures Subtract(a, a) == Ok(Zero(a.size))
  {
    assert Subtract(a, a).value.data == Zero(a.size).data;
  }

  /** Addition and the element-wise product do not depend on operand order. */
  lemma Commutative(a: Vector, b: Vector)
    ensures Add(a, b) == Add(b, a)
    ensures ScaleByVector(a, b) == ScaleByVector(b, a)
  {
    if a.size == b.size {
      assert Add(a, b).value.data == Add(b, a).value.data;
      assert ScaleByVector(a, b).value.data == ScaleByVector(b, a).value.data;
    }
  }

  /** Scaling twice scales by the product; scaling by 1 only re-records the
      size. */
  lemma ScaleByConstantComposes(v: Vector, c: real, d: real)
    ensures ScaleByConstant(ScaleByConstant(v, c), d) == ScaleByConstant(v, c * d)
    ensures ScaleByConstant(v, 1.0) == FromSeq(v.data)
  {
    forall i | 0 <= i < |v.data|
      ensures ScaleByConstant(ScaleByConstant(v, c), d).data[i] == ScaleByConstant(v, c * d).data[i]
    {
      assert (v.data[i] * c) * d == v.data[i] * (c * d);
    }
    assert ScaleByConstant(v, 1.0).data == v.data;
  }

  /** Scaling by a vector of `c`s is scaling by the constant `c`. */
  lemma ScaleByUniformVector(v: Vector, c: real)
    requires Valid(v)
    ensures ScaleByVector(v, FromSeq(seq(v.size, _ => c))) == Ok(ScaleByConstant(v, c))
  {
    var cs := FromSeq(seq(v.size, _ => c));
    forall i | 0 <= i < |v.data|
      ensures ScaleByVector(v, cs).value.data[i] == ScaleByConstant(v, c).data[i]
    {
      assert cs.data[i] == c;
    }
    assert ScaleByVector(v, cs).value.data == ScaleByConstant(v, c).data;
  }

  /** The expectations of the module's tests, exact over the reals. */
  lemma TestExpectations()
    ensures Subtract(FromSeq([2.0, 1.0, 2.0]), FromSeq([1.2, -2.5, 3.0])) == Ok(FromSeq([0.8, 3.5, -1.0]))
    ensures Add(FromSeq([2.0, 3.0, -2.0]), FromSeq([1.2, -2.5, -3.1])) == Ok(FromSeq([3.2, 0.5, -5.1]))
    ensures ScaleByConstant(FromSeq([2.0, 3.0, -1.5]), 0.3) == FromSeq([0.6, 0.9, -0.45])
    ensures ScaleByVector(FromSeq([1.0, 3.0, -1.5]), FromSeq([-0.5, 4.0, -0.6])) == Ok(FromSeq([-0.5, 12.0, 0.9]))
  {
    assert Subtract(FromSeq([2.0, 1.0, 2.0]), FromSeq([1.2, -2.5, 3.0])).value.data == [0.8, 3.5, -1.0];
    assert Add(FromSeq([2.0, 3.0, -2.0]), FromSeq([1.2, -2.5, -3.1])).value.data == [3.2, 0.5, -5.1];
    assert ScaleByConstant(FromSeq([2.0, 3.0, -1.5]), 0.3).data == [0.6, 0.9, -0.45];
    assert ScaleByVector(FromSeq([1.0, 3.0, -1.5]), FromSeq([-0.5, 4.0, -0.6])).value.data == [-0.5, 12.0, 0.9];
  }
}
