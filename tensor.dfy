/** `Tensor::new` of src/tensor/mod.rs: the element count as the product of
    the dimensions, the row-major strides ("skips") computed by a scan that
    divides the count by each dimension in turn, and the length check. */
module Tensor {
  import opened Results
  import opened Seqs

  datatype Tensor = Tensor(data: seq<real>, dims: seq<nat>, skips: seq<nat>)

  /** `dims.iter().product()`; the empty product is 1. */
  function Product(dims: seq<nat>): (r: nat)
    ensures r == 0 <==> exists k :: 0 <= k < |dims| && dims[k] == 0
  {
    if dims == [] then 1 else dims[0] * Product(dims[1..])
  }

  /** The scan: starting from `acc`, divide by each dimension and emit the
      quotient. Integer division by a zero dimension panics. */
  function Skips(acc: nat, dims: seq<nat>): (r: Result<seq<nat>>)
    ensures r.Ok? ==> |r.value| == |dims|
    decreases |dims|
  {
    if dims == [] then Ok([])
    else if dims[0] == 0 then Err(DivisionByZero)
    else
      var next := acc / dims[0];
      match Skips(next, dims[1..])
      case Ok(rest) => Ok([next] + rest)
      case Err(e) => Err(e)
  }

  /** `Tensor::new`: size, then skips, then the assertion on the data length. */
  function New(dims: seq<nat>, data: seq<real>): (r: Result<Tensor>)
    ensures r.Ok? ==> |r.value.data| == Product(r.value.dims) && |r.value.skips| == |r.value.dims|
  {
    var size := Product(dims);
    match Skips(size, dims)
    case Err(e) => Err(e)
    case Ok(skips) =>
      if |data| == size then Ok(Tensor(data, dims, skips)) else Err(ShapeMismatch)
  }

  predicate AllPositive(dims: seq<nat>)
  {
    forall k :: 0 <= k < |dims| ==> dims[k] > 0
  }

  lemma DivideProduct(d: nat, p: nat)
    requires d > 0
    ensures (d * p) / d == p
  {
    var q, r := (d * p) / d, (d * p) % d;
    assert d * p == d * q + r;
    assert d * (p - q) == r;
    assert p - q >= 0;
    if p - q >= 1 {
      MultiplyMonotone(1, p - q, d);
    }
  }

  /** With every dimension positive the scan succeeds and the `k`-th skip is
      the product of the dimensions after `k`: the row-major stride. */
  lemma {:induction false} SkipsAreRowMajor(dims: seq<nat>)
    requires AllPositive(dims)
    ensures Skips(Product(dims), dims).Ok?
    ensures forall k :: 0 <= k < |dims| ==> Skips(Product(dims), dims).value[k] == Product(dims[k + 1..])
  {
    if dims != [] {
      var rest := dims[1..];
      DivideProduct(dims[0], Product(rest));
      SkipsAreRowMajor(rest);
      var s := Skips(Product(dims), dims).value;
      forall k | 0 <= k < |dims|
        ensures s[k] == Product(dims[k + 1..])
      {
        if k > 0 {
          assert rest[k - 1 + 1..] == dims[k + 1..];
        }
      }
    }
  }

  /** Any zero dimension makes the scan divide by zero, whatever the accumulator. */
  lemma {:induction false} ZeroDimensionDividesByZero(acc: nat, dims: seq<nat>)
    requires !AllPositive(dims)
    ensures Skips(acc, dims) == Err(DivisionByZero)
    decreases |dims|
  {
    if dims[0] != 0 {
      assert !AllPositive(dims[1..]) by {
        var k :| 0 <= k < |dims| && dims[k] == 0;
        assert dims[1..][k - 1] == 0;
      }
      ZeroDimensionDividesByZero(acc / dims[0], dims[1..]);
    }
  }

  /** `Tensor::new` panics on a zero dimension before checking the data, and
      otherwise succeeds exactly when the data holds the product of the
      dimensions; it keeps data and dims, with one skip per dimension, each
      the row-major stride. */
  lemma NewOutcome(dims: seq<nat>, data: seq<real>)
    ensures !AllPositive(dims) ==> New(dims, data) == Err(DivisionByZero)
    ensures AllPositive(dims) ==> (New(dims, data).Ok? <==> |data| == Product(dims))
    ensures AllPositive(dims) && |data| != Product(dims) ==> New(dims, data) == Err(ShapeMismatch)
    ensures New(dims, data).Ok? ==>
      var t := New(dims, data).value;
      && t.data == data && t.dims == dims && |t.skips| == |dims|
      && forall k :: 0 <= k < |dims| ==> t.skips[k] == Product(dims[k + 1..])
  {
    if AllPositive(dims) {
      SkipsAreRowMajor(dims);
    } else {
      ZeroDimensionDividesByZero(Product(dims), dims);
    }
  }

  /** The stride relations: the last skip is 1, each skip is the next skip
      times the next dimension, and the first skip times the first dimension
      is the element count. */
  lemma SkipRelations(dims: seq<nat>, data: seq<real>)
    requires New(dims, data).Ok?
    requires |dims| > 0
    ensures var t := New(dims, data).value;
      && t.skips[|dims| - 1] == 1
      && (forall k :: 0 <= k < |dims| - 1 ==> t.skips[k] == t.skips[k + 1] * dims[k + 1])
      && t.skips[0] * dims[0] == |data|
  {
    NewOutcome(dims, data);
    var t := New(dims, data).value;
    assert dims[|dims|..] == [];
    forall k | 0 <= k < |dims| - 1
      ensures t.skips[k] == t.skips[k + 1] * dims[k + 1]
    {
      assert dims[k + 1..][1..] == dims[k + 2..];
    }
    assert dims[0..][1..] == dims[1..];
    assert dims[0..] == dims;
  }

  /** With no dimensions the tensor is a scalar: it needs exactly one value
      and has no skips. */
  lemma ScalarTensor(data: seq<real>)
    ensures New([], data).Ok? <==> |data| == 1
    ensures New([], data).Ok? ==> New([], data).value.skips == []
  {
  }

  /** The offset of a multi-index under the skips. */
  function Offset(index: seq<nat>, dims: seq<nat>): nat
    requires |index| == |dims|
  {
    if dims == [] then 0 else index[0] * Product(dims[1..]) + Offset(index[1..], dims[1..])
  }

  /** Every in-range multi-index lands inside the data: the skips address
      exactly the buffer `Tensor::new` checked. */
  lemma {:induction false} OffsetInBounds(index: seq<nat>, dims: seq<nat>)
    requires |index| == |dims|
    requires forall k :: 0 <= k < |dims| ==> index[k] < dims[k]
    ensures Offset(index, dims) < Product(dims)
  {
    if dims != [] {
      var p := Product(dims[1..]);
      OffsetInBounds(index[1..], dims[1..]);
      assert index[0] * p + p == (index[0] + 1) * p;
      assert (index[0] + 1) * p <= dims[0] * p by {
        MultiplyMonotone(index[0] + 1, dims[0], p);
      }
    }
  }
}
