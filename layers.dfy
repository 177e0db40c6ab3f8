/** The layers of src/lib.rs: a `NeuronLayer` holding activations and a
    `WeightLayer` holding one weight row and one bias per output, whose
    `forward` is the affine map `biases + W x`. */
module Layers {
  import opened Results
  import opened Seqs

  /** A layer of neuron values; `dim` records the count (private fields). */
  datatype NeuronLayer = NeuronLayer(dim: nat, vals: seq<real>)

  /** What `new` and `from_vec` establish and nothing else can break. */
  predicate NeuronValid(n: NeuronLayer)
  {
    n.dim == |n.vals|
  }

  /** `NeuronLayer::new`: `dim` zeros. */
  function NewNeuronLayer(dim: nat): (r: NeuronLayer)
    ensures NeuronValid(r) && r.dim == dim
    ensures forall i :: 0 <= i < dim ==> r.vals[i] == 0.0
  {
    NeuronLayer(dim, seq(dim, _ => 0.0))
  }

  /** `NeuronLayer::from_vec`: the values, with their count as `dim`. */
  function FromVec(vals: seq<real>): (r: NeuronLayer)
    ensures NeuronValid(r) && r.vals == vals
  {
    NeuronLayer(|vals|, vals)
  }

  /** `dim` is `(inputs, outputs)`: the row length and the row count. */
  datatype WeightLayer = WeightLayer(dim: (nat, nat), weights: seq<seq<real>>, biases: seq<real>)

  /** What `WeightLayer::new` establishes: at least one row, one bias per
      row, every row `dim.0` long, and `dim.1` rows. */
  predicate WeightValid(l: WeightLayer)
  {
    && 0 < |l.weights| == |l.biases| == l.dim.1
    && forall k :: 0 <= k < |l.weights| ==> |l.weights[k]| == l.dim.0
  }

  /** `WeightLayer::new`: panics without rows, on a bias count other than
      the row count, and on a row shorter or longer than the first. */
  function NewWeightLayer(weights: seq<seq<real>>, biases: seq<real>): (r: Result<WeightLayer>)
    ensures r.Ok? <==> |weights| > 0 && |biases| == |weights| &&
                       forall k :: 0 <= k < |weights| ==> |weights[k]| == |weights[0]|
    ensures r.Err? ==> r.error == ShapeMismatch
    ensures r.Ok? ==> WeightValid(r.value) && r.value.weights == weights && r.value.biases == biases
    ensures r.Ok? ==> r.value.dim == (|weights[0]|, |weights|)
  {
    if |weights| == 0 then Err(ShapeMismatch)
    else if |biases| != |weights| then Err(ShapeMismatch)
    else
      var dimIn := |weights[0]|;
      if forall k :: 0 <= k < |weights| ==> |weights[k]| == dimIn
      then Ok(WeightLayer((dimIn, |weights|), weights, biases))
      else Err(ShapeMismatch)
  }

  /** `row.iter().zip(x.iter()).map(|(w, x)| w * x).sum()`: the sum over the
      zipped pairs, which stops at the shorter list. */
  function ZipDot(row: seq<real>, x: seq<real>): real
  {
    if row == [] || x == [] then 0.0 else row[0] * x[0] + ZipDot(row[1..], x[1..])
  }

  /** The affine map `forward` computes: output `i` is `biases[i]` plus row
      `i` of the weights against the input. */
  function Affine(l: WeightLayer, x: seq<real>): (r: seq<real>)
    requires WeightValid(l)
    ensures |r| == l.dim.1
  {
    seq(l.dim.1, i requires 0 <= i < l.dim.1 => l.biases[i] + ZipDot(l.weights[i], x))
  }

  /** `forward`: panics unless the input has `dim.0` values, then writes each
      output neuron in turn. */
  method Forward(l: WeightLayer, input: NeuronLayer) returns (r: Result<NeuronLayer>)
    requires WeightValid(l) && NeuronValid(input)
    ensures r.Ok? <==> input.dim == l.dim.0
    ensures r.Err? ==> r.error == ShapeMismatch
    ensures r.Ok? ==> NeuronValid(r.value) && r.value.dim == l.dim.1 && r.value.vals == Affine(l, input.vals)
  {
    if input.dim != l.dim.0 {
      return Err(ShapeMismatch);
    }
    var output := new real[l.dim.1](_ => 0.0);
    for i := 0 to l.dim.1
      invariant forall k :: 0 <= k < i ==> output[k] == l.biases[k] + ZipDot(l.weights[k], input.vals)
    {
      output[i] := l.biases[i] + ZipDot(l.weights[i], input.vals);
    }
    r := Ok(NeuronLayer(l.dim.1, output[..]));
  }

  /** Element-wise sum of two inputs of equal length. */
  function Plus(x: seq<real>, x': seq<real>): (r: seq<real>)
    requires |x| == |x'|
    ensures |r| == |x|
  {
    seq(|x|, i requires 0 <= i < |x| => x[i] + x'[i])
  }

  /** An input scaled by `c`. */
  function Times(c: real, x: seq<real>): (r: seq<real>)
    ensures |r| == |x|
  {
    seq(|x|, i requires 0 <= i < |x| => c * x[i])
  }

  /** The zipped dot product is linear in the input. */
  lemma {:induction false} ZipDotLinear(row: seq<real>, x: seq<real>, x': seq<real>, c: real)
    requires |x| == |x'|
    ensures ZipDot(row, Plus(x, x')) == ZipDot(row, x) + ZipDot(row, x')
    ensures ZipDot(row, Times(c, x)) == c * ZipDot(row, x)
  {
    if row != [] && x != [] {
      ZipDotLinear(row[1..], x[1..], x'[1..], c);
      assert Plus(x, x')[1..] == Plus(x[1..], x'[1..]);
      assert Times(c, x)[1..] == Times(c, x[1..]) by {
        forall k | 0 <= k < |x| - 1
          ensures Times(c, x)[1..][k] == Times(c, x[1..])[k]
        {
          assert x[1..][k] == x[k + 1];
        }
      }
      assert row[0] * (x[0] + x'[0]) == row[0] * x[0] + row[0] * x'[0];
      assert row[0] * (c * x[0]) == c * (row[0] * x[0]);
    }
  }

  /** Against the zero input every output is its bias. */
  lemma {:induction false} ZipDotZero(row: seq<real>, n: nat)
    ensures ZipDot(row, seq(n, _ => 0.0)) == 0.0
  {
    if row != [] && n > 0 {
      assert seq(n, _ => 0.0)[1..] == seq(n - 1, _ => 0.0);
      ZipDotZero(row[1..], n - 1);
    }
  }

  /** `forward` of the zero input returns the biases, and `forward` is
      affine: the outputs for `x + x'` exceed those for `x` by the outputs
      for `x'` less the biases. */
  lemma AffineProperties(l: WeightLayer, x: seq<real>, x': seq<real>, i: nat)
    requires WeightValid(l) && |x| == |x'| && i < l.dim.1
    ensures Affine(l, seq(|x|, _ => 0.0))[i] == l.biases[i]
    ensures Affine(l, Plus(x, x'))[i] == Affine(l, x)[i] + Affine(l, x')[i] - l.biases[i]
  {
    ZipDotZero(l.weights[i], |x|);
    ZipDotLinear(l.weights[i], x, x', 1.0);
  }

  /** The layer of examples/main.rs: weights `[[0, 1, 2], [3, 4, 5]]`, biases
      `[5, 0]`, input `[0, 1, 2]` give `[10, 14]`. */
  lemma ForwardExample()
    ensures NewWeightLayer([[0.0, 1.0, 2.0], [3.0, 4.0, 5.0]], [5.0, 0.0]).Ok?
    ensures var l := NewWeightLayer([[0.0, 1.0, 2.0], [3.0, 4.0, 5.0]], [5.0, 0.0]).value;
      l.dim == (3, 2) && Affine(l, [0.0, 1.0, 2.0]) == [10.0, 14.0]
  {
    var l := NewWeightLayer([[0.0, 1.0, 2.0], [3.0, 4.0, 5.0]], [5.0, 0.0]).value;
    assert ZipDot([0.0, 1.0, 2.0], [0.0, 1.0, 2.0]) == 5.0 by {
      assert [0.0, 1.0, 2.0][1..] == [1.0, 2.0];
      assert [1.0, 2.0][1..] == [2.0];
      assert [2.0][1..] == [];
    }
    assert ZipDot([3.0, 4.0, 5.0], [0.0, 1.0, 2.0]) == 14.0 by {
      assert [3.0, 4.0, 5.0][1..] == [4.0, 5.0];
      assert [0.0, 1.0, 2.0][1..] == [1.0, 2.0];
      assert [4.0, 5.0][1..] == [5.0];
      assert [1.0, 2.0][1..] == [2.0];
      assert [5.0][1..] == [];
      assert [2.0][1..] == [];
    }
  }
}
