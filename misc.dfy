/** The free function `subtract` of src/misc.rs over plain lists of values. */
module Misc {
  import opened Results
  import opened Seqs
  import Vectors

  /** `subtract`: the lengths must agree; then the element-wise difference,
      in order. */
  function Subtract(a: seq<real>, b: seq<real>): (r: Result<seq<real>>)
    ensures r.Ok? <==> |a| == |b|
    ensures r.Err? ==> r.error == ShapeMismatch
    ensures r.Ok? ==> |r.value| == |a|
    ensures r.Ok? ==> forall i :: 0 <= i < |a| ==> r.value[i] == a[i] - b[i]
  {
    if |a| != |b| then Err(ShapeMismatch)
    else Ok(seq(|a|, i requires 0 <= i < |a| => a[i] - b[i]))
  }

  /** Adding `b` back element by element restores `a`. */
  lemma SubtractThenAdd(a: seq<real>, b: seq<real>, i: nat)
    requires |a| == |b| && i < |a|
    ensures Subtract(a, b).Ok? && Subtract(a, b).value[i] + b[i] == a[i]
  {
  }

  /** On the buffers of two vectors built from lists, the free function
      agrees with `Vector::subtract`: same panics, same values. */
  lemma AgreesWithVectorSubtract(a: seq<real>, b: seq<real>)
    ensures Subtract(a, b).Ok? <==> Vectors.Subtract(Vectors.FromSeq(a), Vectors.FromSeq(b)).Ok?
    ensures Subtract(a, b).Ok? ==>
      Vectors.Subtract(Vectors.FromSeq(a), Vectors.FromSeq(b)).value == Vectors.FromSeq(Subtract(a, b).value)
  {
    if |a| == |b| {
      assert Vectors.Subtract(Vectors.FromSeq(a), Vectors.FromSeq(b)).value.data == Subtract(a, b).value;
    }
  }
}
