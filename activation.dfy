/** The activations of src/activation.rs: a pair of plain functions, the
    forward map and the backward rule, applied element-wise to vectors; and
    the two constants RELU and LELU. */
module Activations {
  import opened Results
  import opened Seqs
  import opened Vectors

  /** The forward map is the source's `function` field. The backward rule
      receives `dl/dz` and, optionally, the operands `y` and `z`; a rule
      missing the operand it needs panics. */
  datatype Activation = Activation(
    forward: real -> real,
    derivative: (real, Option<real>, Option<real>) -> Result<real>)

  /** `apply`: the forward map on every element, collected into a vector. */
  function Apply(act: Activation, v: Vector): (r: Vector)
    ensures Valid(r) && |r.data| == |v.data|
    ensures forall i :: 0 <= i < |v.data| ==> r.data[i] == act.forward(v.data[i])
  {
    FromSeq(seq(|v.data|, i requires 0 <= i < |v.data| => act.forward(v.data[i])))
  }

  /** The backward rule on one pair, the operand passed as `y` when
      `useY` and as `z` otherwise. */
  function Rule(act: Activation, dl: real, operand: real, useY: bool): Result<real>
  {
    act.derivative(dl, if useY then Some(operand) else None, if useY then None else Some(operand))
  }

  /** The backward rule on the zipped pairs `(dl[i], operand[i])`; the first
      panic ends the collection. */
  function Derivatives(act: Activation, dl: seq<real>, operand: seq<real>, useY: bool): (r: Result<seq<real>>)
    ensures r.Ok? ==> |r.value| == Min(|dl|, |operand|)
    ensures r.Ok? ==> forall i :: 0 <= i < |r.value| ==> Rule(act, dl[i], operand[i], useY) == Ok(r.value[i])
    ensures r.Err? ==> exists i :: 0 <= i < Min(|dl|, |operand|) && Rule(act, dl[i], operand[i], useY).Err?
  {
    if dl == [] || operand == [] then Ok([])
    else
      match Rule(act, dl[0], operand[0], useY)
      case Err(e) => Err(e)
      case Ok(d) =>
        match Derivatives(act, dl[1..], operand[1..], useY)
        case Err(e) =>
          var i :| 0 <= i < Min(|dl[1..]|, |operand[1..]|) && Rule(act, dl[1..][i], operand[1..][i], useY).Err?;
          assert Rule(act, dl[i + 1], operand[i + 1], useY).Err?;
          Err(e)
        case Ok(rest) => Ok([d] + rest)
  }

  /** `backpropagate`: use `y` if given, else `z`, else panic. */
  function Backpropagate(act: Activation, dl: Vector, y: Option<Vector>, z: Option<Vector>): (r: Result<Vector>)
    ensures y.None? && z.None? ==> r == Err(MissingDerivativeInput)
    ensures r.Ok? ==> Valid(r.value)
    ensures y.Some? ==> (r.Ok? <==> Derivatives(act, dl.data, y.value.data, true).Ok?)
    ensures y.Some? && r.Ok? ==> r.value.data == Derivatives(act, dl.data, y.value.data, true).value
    ensures y.None? && z.Some? ==> (r.Ok? <==> Derivatives(act, dl.data, z.value.data, false).Ok?)
    ensures y.None? && z.Some? && r.Ok? ==> r.value.data == Derivatives(act, dl.data, z.value.data, false).value
  {
    if y.Some? then
      match Derivatives(act, dl.data, y.value.data, true)
      case Err(e) => Err(e)
      case Ok(ds) => Ok(FromSeq(ds))
    else if z.Some? then
      match Derivatives(act, dl.data, z.value.data, false)
      case Err(e) => Err(e)
      case Ok(ds) => Ok(FromSeq(ds))
    else Err(MissingDerivativeInput)
  }

  /** When both operands are given, `z` is ignored. */
  lemma BackpropagatePrefersY(act: Activation, dl: Vector, y: Vector, z: Option<Vector>)
    ensures Backpropagate(act, dl, Some(y), z) == Backpropagate(act, dl, Some(y), None)
  {
  }

  /** A successful backward pass has one value per zipped pair: the shorter
      of `dl/dz` and the chosen operand. */
  lemma BackpropagateLength(act: Activation, dl: Vector, y: Option<Vector>, z: Option<Vector>)
    requires Backpropagate(act, dl, y, z).Ok?
    ensures y.Some? ==> |Backpropagate(act, dl, y, z).value.data| == Min(|dl.data|, |y.value.data|)
    ensures y.None? ==> z.Some? && |Backpropagate(act, dl, y, z).value.data| == Min(|dl.data|, |z.value.data|)
  {
  }

  // ---------------------------------------------------------------------
  // RELU
  // ---------------------------------------------------------------------

  function ReluFunction(x: real): real
  {
    if x > 0.0 then x else 0.0
  }

  /** Passes `dl/dz` where `z > 0`, else 0; panics without `z`. */
  function ReluDerivative(dl: real, y: Option<real>, z: Option<real>): Result<real>
  {
    match z
    case Some(z) => Ok(if z > 0.0 then dl else 0.0)
    case None => Err(MissingDerivativeInput)
  }

  const Relu := Activation(ReluFunction, ReluDerivative)

  /** ReLU is never negative, fixes the positive reals and is idempotent. */
  lemma ReluProperties(x: real)
    ensures Relu.forward(x) >= 0.0
    ensures x > 0.0 ==> Relu.forward(x) == x
    ensures x <= 0.0 ==> Relu.forward(x) == 0.0
    ensures Relu.forward(Relu.forward(x)) == Relu.forward(x)
  {
  }

  /** Applying ReLU twice is applying it once. */
  lemma ReluApplyIdempotent(v: Vector)
    ensures Apply(Relu, Apply(Relu, v)) == Apply(Relu, v)
  {
    var once := Apply(Relu, v);
    forall i | 0 <= i < |v.data|
      ensures Apply(Relu, once).data[i] == once.data[i]
    {
      ReluProperties(v.data[i]);
    }
  }

  /** The ReLU rule gates `dl/dz` on `z > 0` and panics without `z`. */
  lemma ReluDerivativeRule(dl: real, y: Option<real>, z: real)
    ensures Relu.derivative(dl, y, Some(z)) == Ok(if z > 0.0 then dl else 0.0)
    ensures Relu.derivative(dl, y, None).Err?
  {
  }

  /** Backpropagating ReLU through `y` passes `z = None` to the rule, so it
      panics exactly when there is at least one zipped pair. */
  lemma ReluThroughYPanics(dl: Vector, y: Vector, z: Option<Vector>)
    ensures Backpropagate(Relu, dl, Some(y), z).Err? <==> Min(|dl.data|, |y.data|) > 0
  {
    if Min(|dl.data|, |y.data|) > 0 {
      assert Relu.derivative(dl.data[0], Some(y.data[0]), None).Err?;
    }
  }

  /** Backpropagating ReLU through `z` gates each `dl/dz` on `z > 0`. */
  lemma ReluThroughZ(dl: Vector, z: Vector, i: nat)
    requires i < Min(|dl.data|, |z.data|)
    ensures Backpropagate(Relu, dl, None, Some(z)).Ok?
    ensures Backpropagate(Relu, dl, None, Some(z)).value.data[i] == if z.data[i] > 0.0 then dl.data[i] else 0.0
  {
  }

  // ---------------------------------------------------------------------
  // LELU
  // ---------------------------------------------------------------------

  function LeluFunction(x: real): real
  {
    if x > 0.0 then x else x / 10.0
  }

  /** Passes `dl/dz` where `z > 0`, else a tenth of it; panics without `z`. */
  function LeluDerivative(dl: real, y: Option<real>, z: Option<real>): Result<real>
  {
    match z
    case Some(z) => Ok(if z > 0.0 then dl else dl / 10.0)
    case None => Err(MissingDerivativeInput)
  }

  const Lelu := Activation(LeluFunction, LeluDerivative)

  /** Leaky ReLU keeps the sign of its input, is the identity on the
      positive reals and shrinks the rest tenfold; it is strictly increasing. */
  lemma LeluProperties(x: real, x': real)
    ensures Lelu.forward(x) > 0.0 <==> x > 0.0
    ensures Lelu.forward(x) < 0.0 <==> x < 0.0
    ensures Lelu.forward(x) == 0.0 <==> x == 0.0
    ensures x <= 0.0 ==> Lelu.forward(x) * 10.0 == x
    ensures x < x' ==> Lelu.forward(x) < Lelu.forward(x')
  {
  }

  /** The leaky rule scales `dl/dz` by a tenth where `z <= 0` and panics
      without `z`; on positive `z` it agrees with ReLU's. */
  lemma LeluDerivativeRule(dl: real, y: Option<real>, z: real)
    ensures Lelu.derivative(dl, y, Some(z)) == Ok(if z > 0.0 then dl else dl / 10.0)
    ensures Lelu.derivative(dl, y, None).Err?
    ensures z > 0.0 ==> Lelu.derivative(dl, y, Some(z)) == Relu.derivative(dl, y, Some(z))
  {
  }

  /** Backpropagating LELU through `y` passes `z = None` to the rule, so it
      panics exactly when there is at least one zipped pair. */
  lemma LeluThroughYPanics(dl: Vector, y: Vector, z: Option<Vector>)
    ensures Backpropagate(Lelu, dl, Some(y), z).Err? <==> Min(|dl.data|, |y.data|) > 0
  {
    if Min(|dl.data|, |y.data|) > 0 {
      assert Lelu.derivative(dl.data[0], Some(y.data[0]), None).Err?;
    }
  }
}
