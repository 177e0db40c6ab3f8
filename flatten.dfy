/** The rose tree of src/tensor/flatten.rs and its in-order flattening. */
module Flatten {
  import opened Seqs

  /** A node is a leaf value or a list of child nodes. */
  datatype Node<T> = Children(children: seq<Node<T>>) | Leaf(value: T)

  /** `Node::from(Vec<Node<T>>)`: the children, wrapped unchanged. */
  function FromNodes<T>(nodes: seq<Node<T>>): Node<T>
  {
    Children(nodes)
  }

  /** `Node::from(Vec<T>)`: one leaf per value, in order. */
  function FromValues<T>(values: seq<T>): Node<T>
  {
    Children(seq(|values|, i requires 0 <= i < |values| => Leaf(values[i])))
  }

  /** `flatten`: a leaf gives its value; children give the concatenation of
      their own flattenings, in order. */
  function Flatten<T>(n: Node<T>): seq<T>
  {
    match n
    case Leaf(x) => [x]
    case Children(cs) => Concat(seq(|cs|, i requires 0 <= i < |cs| => Flatten(cs[i])))
  }

  /** Number of leaves, an independent measure of a tree. */
  function LeafCount<T>(n: Node<T>): nat
  {
    match n
    case Leaf(_) => 1
    case Children(cs) => ChildrenLeafCount(cs)
  }

  function ChildrenLeafCount<T>(cs: seq<Node<T>>): nat
  {
    if cs == [] then 0 else LeafCount(cs[0]) + ChildrenLeafCount(cs[1..])
  }

  /** A node without children flattens to nothing. */
  lemma FlattenNoChildren<T>()
    ensures Flatten(Node<T>.Children([])) == []
  {
    var cs: seq<Node<T>> := [];
    assert seq(|cs|, i requires 0 <= i < |cs| => Flatten(cs[i])) == [];
  }

  /** The two base cases: a leaf flattens to its value, no children to nothing. */
  lemma FlattenBaseCases<T>(x: T)
    ensures Flatten(Leaf(x)) == [x]
    ensures Flatten(Node<T>.Children([])) == []
  {
    FlattenNoChildren<T>();
  }

  /** Flattening a node with children `a ++ b` concatenates the flattenings of
      a node with children `a` and one with children `b`. */
  lemma FlattenChildrenAppend<T>(a: seq<Node<T>>, b: seq<Node<T>>)
    ensures Flatten(Children(a + b)) == Flatten(Children(a)) + Flatten(Children(b))
  {
    var fa := seq(|a|, i requires 0 <= i < |a| => Flatten(a[i]));
    var fb := seq(|b|, i requires 0 <= i < |b| => Flatten(b[i]));
    var ab := a + b;
    assert seq(|ab|, i requires 0 <= i < |ab| => Flatten(ab[i])) == fa + fb;
    ConcatAppend(fa, fb);
  }

  /** Wrapping a single node as the only child does not change its flattening. */
  lemma FlattenSingleChild<T>(n: Node<T>)
    ensures Flatten(FromNodes([n])) == Flatten(n)
  {
    var f := seq(1, i requires 0 <= i < 1 => Flatten([n][i]));
    assert f == [Flatten(n)];
    assert Concat(f) == Flatten(n) + Concat<T>([]);
  }

  /** Round trip: flattening the node built from a flat list gives the list back. */
  lemma {:induction false} FlattenFromValues<T>(values: seq<T>)
    ensures Flatten(FromValues(values)) == values
  {
    if values == [] {
      FlattenNoChildren<T>();
      assert FromValues(values) == Children([]);
    } else {
      var rest := values[1..];
      FlattenFromValues(rest);
      var leaves := seq(|values|, i requires 0 <= i < |values| => Leaf(values[i]));
      var restLeaves := seq(|rest|, i requires 0 <= i < |rest| => Leaf(rest[i]));
      assert leaves == [Leaf(values[0])] + restLeaves;
      FlattenChildrenAppend([Leaf(values[0])], restLeaves);
      FlattenSingleChild(Leaf(values[0]));
      assert values == [values[0]] + rest;
    }
  }

  /** The flattenings of a list of nodes, joined front to back one node at a time. */
  function FlattenList<T>(nodes: seq<Node<T>>): seq<T>
  {
    if nodes == [] then [] else Flatten(nodes[0]) + FlattenList(nodes[1..])
  }

  /** Flattening the node built from a list of nodes joins the nodes'
      flattenings in list order. */
  lemma {:induction false} FlattenFromNodes<T>(nodes: seq<Node<T>>)
    ensures Flatten(FromNodes(nodes)) == FlattenList(nodes)
  {
    if nodes == [] {
      FlattenNoChildren<T>();
    } else {
      assert nodes == [nodes[0]] + nodes[1..];
      FlattenChildrenAppend([nodes[0]], nodes[1..]);
      FlattenSingleChild(nodes[0]);
      FlattenFromNodes(nodes[1..]);
    }
  }

  /** The length of a flattening is the number of leaves. */
  lemma {:induction false} FlattenLength<T>(n: Node<T>)
    ensures |Flatten(n)| == LeafCount(n)
    decreases n, 1
  {
    match n
    case Leaf(_) =>
    case Children(cs) => ChildrenFlattenLength(cs);
  }

  lemma {:induction false} ChildrenFlattenLength<T>(cs: seq<Node<T>>)
    ensures |Flatten(Children(cs))| == ChildrenLeafCount(cs)
    decreases cs, 0
  {
    if cs == [] {
      FlattenNoChildren<T>();
    } else {
      assert cs == [cs[0]] + cs[1..];
      FlattenChildrenAppend([cs[0]], cs[1..]);
      FlattenSingleChild(cs[0]);
      FlattenLength(cs[0]);
      ChildrenFlattenLength(cs[1..]);
    }
  }

  /** The tree built in examples/main.rs flattens to its four values in order. */
  lemma FlattenNestedExample()
    ensures Flatten(FromNodes([FromValues([1.0, 2.0]), FromValues([3.0, 4.0])])) == [1.0, 2.0, 3.0, 4.0]
  {
    var a, b := FromValues([1.0, 2.0]), FromValues([3.0, 4.0]);
    FlattenFromValues([1.0, 2.0]);
    FlattenFromValues([3.0, 4.0]);
    assert [a, b] == [a] + [b];
    FlattenChildrenAppend([a], [b]);
    FlattenSingleChild(a);
    FlattenSingleChild(b);
  }
}
