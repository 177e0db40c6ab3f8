/** Sequence helpers shared by several modules. */
module Seqs {

  /** Concatenation of a sequence of sequences, in order (Rust's `flatten().collect()`). */
  function Concat<T>(ss: seq<seq<T>>): seq<T>
  {
    if ss == [] then [] else ss[0] + Concat(ss[1..])
  }

  /** Concatenation distributes over appending the outer sequences. */
  lemma {:induction false} ConcatAppend<T>(a: seq<seq<T>>, b: seq<seq<T>>)
    ensures Concat(a + b) == Concat(a) + Concat(b)
  {
    if a == [] {
      assert a + b == b;
    } else {
      assert (a + b)[1..] == a[1..] + b;
      ConcatAppend(a[1..], b);
    }
  }

  /** When every inner sequence has length `w`, element `j` of inner sequence `i`
      sits at position `i * w + j` of the concatenation. */
  lemma {:induction false} ConcatUniformAt<T>(ss: seq<seq<T>>, w: nat, i: nat, j: nat)
    requires forall k :: 0 <= k < |ss| ==> |ss[k]| == w
    requires i < |ss| && j < w
    ensures |Concat(ss)| == |ss| * w
    ensures i * w + j < |Concat(ss)| && Concat(ss)[i * w + j] == ss[i][j]
  {
    if i == 0 {
      ConcatUniformLength(ss, w);
    } else {
      ConcatUniformAt(ss[1..], w, i - 1, j);
      assert (i - 1) * w + j + w == i * w + j;
      ConcatUniformLength(ss, w);
    }
  }

  lemma {:induction false} ConcatUniformLength<T>(ss: seq<seq<T>>, w: nat)
    requires forall k :: 0 <= k < |ss| ==> |ss[k]| == w
    ensures |Concat(ss)| == |ss| * w
  {
    if ss != [] {
      ConcatUniformLength(ss[1..], w);
      assert |ss| * w == w + (|ss| - 1) * w;
    }
  }

  /** Multiplying by the same factor keeps the order. */
  lemma MultiplyMonotone(a: nat, b: nat, c: nat)
    requires a <= b
    ensures a * c <= b * c
  {
  }

  function Min(a: nat, b: nat): nat
  {
    if a <= b then a else b
  }

  /** Rust's in-place `reverse`, as a value: the last element comes first. */
  function Reverse<T>(s: seq<T>): (r: seq<T>)
    ensures |r| == |s|
  {
    if s == [] then [] else Reverse(s[1..]) + [s[0]]
  }

  /** Element `k` of the reversal is element `|s| - 1 - k` of the original. */
  lemma {:induction false} ReverseAt<T>(s: seq<T>, k: nat)
    requires k < |s|
    ensures Reverse(s)[k] == s[|s| - 1 - k]
  {
    if k < |s| - 1 {
      ReverseAt(s[1..], k);
    }
  }

  /** Reversing twice gives the sequence back. */
  lemma ReverseReverse<T>(s: seq<T>)
    ensures Reverse(Reverse(s)) == s
  {
    forall k | 0 <= k < |s|
      ensures Reverse(Reverse(s))[k] == s[k]
    {
      ReverseAt(Reverse(s), k);
      ReverseAt(s, |s| - 1 - k);
    }
  }
}
