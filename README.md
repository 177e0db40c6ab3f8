# A verified model of bamf's numeric and text core

bamf is a small neural-network library in Rust. This project models the
deterministic pieces of its core in Dafny and proves what they promise:

- the text front end of `src/language.rs`: `clean`, whitespace splitting,
  `tokenize`, `one_hot`, and the `EmbeddingBuilder` bookkeeping with the
  index arithmetic of `random_pairing`;
- the rose tree `Node<T>` and its `flatten` (`src/tensor/flatten.rs`);
- the row-major stride scan of `Tensor::new` (`src/tensor/mod.rs`);
- the strided matrix in both of its revisions: `src/matrix.rs` (module
  `MatrixBoxed`) and `src/matrix/mod.rs` (module `MatrixOwned`);
- `Vector` arithmetic (`src/vector.rs`) and the free `subtract` (`src/misc.rs`);
- the activations RELU and LELU and their `apply`/`backpropagate`
  (`src/activation.rs`);
- `NeuronLayer` and `WeightLayer` with the affine `forward` (`src/lib.rs`).

Conventions:

- Every panic becomes an `Err` of `Results.Result`, with an error kind:
  - `ShapeMismatch` for a failed `assert!`;
  - `IndexOutOfBounds` for an out-of-range index;
  - `DivisionByZero` for an integer division by zero;
  - `EmptyRange` for `gen_range` on an empty range;
  - `MissingDerivativeInput` for the activations' `panic!`.
- `f64` is modelled as `real` and `usize` as `nat`.
- Loops in the source are methods with loop invariants. Each method is
  proved against a specification function such as `Strides.MatVec`,
  `Layers.Affine` or `Language.Tokens`, and the properties are proved
  about those functions.
- `EmbeddingBuilder` is a class, and `set_window` updates one field.

Facts about the code that the model keeps:

- `WeightLayer::forward` computes `biases + W x` with one weight row per
  output.
- The `src/matrix.rs` transpose clones the buffer. Nothing in the core
  writes through either copy, so the model uses equal values.
- The vector operations check the public `size` fields and then zip the
  buffers, which truncates silently when a `size` field disagrees with
  its buffer.

## Model

| member | source | states |
|---|---|---|
| Language.StripPunctuation | src/language.rs:51-52 | the first pass leaves none of `. , : ; ?` or the range `!`..`"`, and never lengthens the text |
| Language.HyphensToSpaces | src/language.rs:53-54 | the second pass keeps the length, leaves no hyphen and keeps every other character in place |
| Language.Lowercase | src/language.rs:54 | lower-casing keeps the length, leaves no upper-case ASCII letter and keeps every other character in place |
| Language.Clean | src/language.rs:50-55 | `clean` is the three passes in order (strip, hyphen to space, lower-case) and never lengthens the text |
| Language.CleanIsClean | src/language.rs:50-55 | cleaned text has no stripped punctuation, no hyphen and no upper-case ASCII letter |
| Language.CleanIdempotent | src/language.rs:50-55 | cleaning twice is cleaning once |
| Language.CleanAppend | src/language.rs:50-55 | cleaning distributes over concatenation (it works character by character) |
| Language.CleanWithoutPunctuation | src/language.rs:50-55 | on text without punctuation, the length is kept, hyphens become spaces and letters are lower-cased in place |
| Language.CleanExample | src/language.rs:50-55 | `"Re-Do!"` cleans to `"re do"`: the `!` is deleted, while the hyphen survives the first pass and becomes a space |
| Language.WordEnd | src/language.rs:58 | the leading word ends at the first whitespace character or at the end of the text |
| Language.Words | src/language.rs:58 | every piece `split_whitespace` yields is non-empty and free of whitespace |
| Language.WordsOfJoin | src/language.rs:58 | splitting space-joined words gives back exactly those words |
| Language.Tokens | src/language.rs:59-70 | one id per word |
| Language.TokensKeepInvariant | src/language.rs:59-71 | the loop keeps each word's id equal to its map entry; the map's keys are the words seen; the word with id `k` is the `k`-th distinct word |
| Language.TokensProperties | src/language.rs:62-68 | ids are exactly `0 .. vocab.len() - 1` in first-occurrence order; the map is injective; every id is below the vocabulary size; decoding the ids gives back the words |
| Language.SameWordSameId | src/language.rs:62-68 | two positions get the same id if and only if they hold the same word |
| Language.TokensPrefix | src/language.rs:61-70 | the ids emitted for a prefix of the words are a prefix of all the ids |
| Language.NewWordGetsNextId | src/language.rs:64-67 | an unseen word gets the vocabulary size at that point as its id |
| Language.Tokenize | src/language.rs:57-72 | the loop's output equals the reference tokenisation of the split words; each id is its word's map entry and below the map size |
| Language.EmbeddingBuilder.constructor | src/language.rs:15-26 | the codex and vocabulary are the tokenisation of the cleaned input, the sizes are cached, and the window is 1 |
| Language.EmbeddingBuilder.SetWindow | src/language.rs:28-30 | only the window changes, and the builder stays consistent |
| Language.EmbeddingBuilder.OneHot | src/language.rs:43-47 | a one-hot vector of the vocabulary size with 1 at `num`; it fails if and only if `num` is not below the vocabulary size |
| Language.EmbeddingBuilder.RandomPairing | src/language.rs:32-41 | given draws in their ranges, it fails exactly when a range is empty; both codex reads are in bounds; it returns the one-hot pair of `codex[index]` and `codex[index + offset]` in the order the coin picks |
| Flatten.FromNodes | src/tensor/flatten.rs:6-10 | `Node::from(Vec<Node<T>>)` wraps the nodes unchanged as children; `FlattenFromNodes` gives its flattening |
| Flatten.FromValues | src/tensor/flatten.rs:12-16 | `Node::from(Vec<T>)` makes one leaf per value, in order; `FlattenFromValues` proves the round trip |
| Flatten.Flatten | src/tensor/flatten.rs:18-23 | a leaf gives `[x]`; a node gives its children's flattenings joined in order; its laws are the lemmas below |
| Flatten.FlattenBaseCases | src/tensor/flatten.rs:18-23 | a leaf flattens to its value; a node without children flattens to nothing |
| Flatten.FlattenNoChildren | src/tensor/flatten.rs:20 | a node without children flattens to the empty list |
| Flatten.FlattenChildrenAppend | src/tensor/flatten.rs:20 | the flattening of children `a ++ b` is the flattening of `a` followed by that of `b` |
| Flatten.FlattenSingleChild | src/tensor/flatten.rs:6-10 | wrapping one node as the only child keeps its flattening |
| Flatten.FlattenFromValues | src/tensor/flatten.rs:12-16 | round trip: flattening the node built from a flat list gives the list back |
| Flatten.FlattenFromNodes | src/tensor/flatten.rs:6-10 | the node built from a list of nodes flattens to their flattenings joined in order |
| Flatten.FlattenLength | src/tensor/flatten.rs:18-23 | the length of a flattening is the number of leaves |
| Flatten.ChildrenFlattenLength | src/tensor/flatten.rs:18-23 | the flattening of a list of children has the total leaf count as its length |
| Flatten.FlattenNestedExample | src/tensor/flatten.rs:6-16 | the nested tree built from `[1, 2]` and `[3, 4]` flattens to `[1, 2, 3, 4]` |
| Tensor.Product | src/tensor/mod.rs:10 | the element count is 0 if and only if some dimension is 0 (the empty product is 1) |
| Tensor.New | src/tensor/mod.rs:9-21 | a tensor it returns holds exactly the product of its dims in values and has one skip per dim; `NewOutcome` gives its outcome in full |
| Tensor.Skips | src/tensor/mod.rs:11-17 | when the scan succeeds it has one skip per dimension |
| Tensor.SkipsAreRowMajor | src/tensor/mod.rs:13-16 | with every dimension positive, the scan succeeds and skip `k` is the product of the dimensions after `k` |
| Tensor.ZeroDimensionDividesByZero | src/tensor/mod.rs:14 | any zero dimension makes the scan divide by zero |
| Tensor.NewOutcome | src/tensor/mod.rs:9-21 | a zero dimension panics before the length check; otherwise it succeeds if and only if the data has the product of the dimensions as its length, and it keeps data and dims with row-major skips |
| Tensor.SkipRelations | src/tensor/mod.rs:13-16 | the last skip is 1, each skip is the next one times the next dimension, and the first skip times the first dimension is the size |
| Tensor.ScalarTensor | src/tensor/mod.rs:10-19 | with no dimensions, exactly one value is required and there are no skips |
| Tensor.OffsetInBounds | src/tensor/mod.rs:10-17 | every in-range multi-index addressed by the row-major strides lies inside the checked buffer |
| Strides.StridedSlotsInBounds | src/matrix.rs:48-49 | for a row-major step or a transposed one, every slot `i*step[0] + j*step[1]` of an in-range entry is below `rows*cols` |
| Strides.StridedSlotsDistinct | src/matrix.rs:48 | for those steps, distinct entries occupy distinct slots |
| Strides.SwappedRowSum | src/matrix.rs:69 | a row sum under swapped steps is the column sum under the original steps |
| Strides.FillStep | src/matrix.rs:46-51 | writing the next entry of a nested fill loop extends the filled part and disturbs none of the earlier entries |
| Strides.MatVec | src/matrix.rs:64-73 | the strided product has one value per row |
| MatrixBoxed.Empty | src/matrix.rs:21-32 | fails if and only if fewer than two dims are given; otherwise `dims[0]*dims[1]` zeros with step `[dims[1], 1]`, and the result is valid |
| MatrixBoxed.New | src/matrix.rs:14-19 | succeeds if and only if the rows supply `dims[0]*dims[1]` values in all; it stores their concatenation under a row-major step |
| MatrixBoxed.NewStoresRowByRow | src/matrix.rs:14-19 | with rows of equal length, entry `(i, j)` is `rows[i][j]` |
| MatrixBoxed.NewAcceptsRaggedRows | src/matrix.rs:14-19 | row lengths are not checked: rows of lengths 3 and 1 make a 2 by 2 matrix |
| MatrixBoxed.SquareIsNew | src/matrix.rs:14-19 | `new([2, 2], [[1, 2], [3, 4]])` is the row-major buffer `[1, 2, 3, 4]` |
| MatrixBoxed.Transpose | src/matrix.rs:34-41 | the transpose keeps an equal buffer and the same size |
| MatrixBoxed.TransposeValid | src/matrix.rs:34-41 | transposing keeps a matrix valid |
| MatrixBoxed.TransposeEntry | src/matrix.rs:34-41 | entry `(i, j)` of the transpose is entry `(j, i)` of the original |
| MatrixBoxed.TransposeTwice | src/matrix.rs:34-41 | for a two-dim matrix, transposing twice restores dims, step, data and size |
| MatrixBoxed.TransposeTwiceDropsDims | src/matrix.rs:21-24 | a double transpose keeps only the first two dims and steps, so a matrix with more than two dims does not come back |
| MatrixBoxed.Multiply | src/matrix.rs:64-73 | fails if and only if `dims[1] != vec.len()`; otherwise each result value is a row of the matrix, read through its steps, against `vec` |
| MatrixBoxed.MultiplyTransposed | src/matrix.rs:64-73 | on a transpose of `W`, value `i` is `Σ_j W(j, i)*vec[j]` |
| MatrixBoxed.MultiplyExamples | src/matrix.rs:64-73 | `[[1, 2, 3], [3, 4, 5]]` times `[1, 2, 3]` is `[14, 26]`; the transpose of `[[1, 2, 3], [2, 3, 4]]` times `[1, 2]` is `[5, 8, 11]` |
| MatrixBoxed.ScaledRows | src/matrix.rs:43-53 | the intended values of `dot` form a `dims[0]` by `dims[1]` grid |
| MatrixBoxed.Dot | src/matrix.rs:43-53 | fails if and only if `dims[0] != vec.len()`; otherwise a fresh row-major result holds `self(i, j)*vec[i]` at slot `i*self.step[0] + j*self.step[1]` |
| MatrixBoxed.DotRowMajor | src/matrix.rs:43-53 | on a row-major matrix the result's entry `(i, j)` is `self(i, j)*vec[i]` |
| MatrixBoxed.DotMislabelsTransposed | src/matrix.rs:43-53 | counterexample: on a transposed matrix a result entry holds another entry's product |
| MatrixBoxed.DotCorrected | src/matrix.rs:43-53 | for every layout, the result's entry `(i, j)` is `self(i, j)*vec[i]` |
| MatrixBoxed.DifferenceRows | src/matrix.rs:55-62 | the intended entry-wise differences form a grid of the operands' shape |
| MatrixBoxed.Subtract | src/matrix.rs:55-62 | fails if and only if the dims differ; otherwise slot `k` is `self.data[k] - other.data[k]` under a fresh row-major step |
| MatrixBoxed.SubtractRowMajor | src/matrix.rs:55-62 | for row-major operands this is the entry-wise difference |
| MatrixBoxed.SubtractIgnoresSteps | src/matrix.rs:55-62 | counterexample: with a transposed operand, an entry of the result is not the difference of the entries |
| MatrixBoxed.SubtractCorrected | src/matrix.rs:55-62 | for every layout, entry `(i, j)` of the result is `self(i, j) - other(i, j)` |
| MatrixOwned.Empty | src/matrix/mod.rs:17-28 | fails if and only if fewer than two dims are given; otherwise zeros under a fresh layout |
| MatrixOwned.New | src/matrix/mod.rs:10-15 | succeeds if and only if the rows supply `dims[0]*dims[1]` values; it stores their concatenation |
| MatrixOwned.Transpose | src/matrix/mod.rs:30-34 | the buffer and size are untouched; dims and step keep their lengths |
| MatrixOwned.TransposeTwice | src/matrix/mod.rs:30-34 | reversing twice restores dims and step, whatever the number of dims |
| MatrixOwned.TransposeReachable | src/matrix/mod.rs:30-34 | transposing keeps a matrix among those `new`, `empty` and `transpose` can build |
| MatrixOwned.TransposeSwaps | src/matrix/mod.rs:30-34 | with two dims, reversing swaps dims and steps |
| MatrixOwned.MultiplyOutcome | src/matrix/mod.rs:41-51 | the reference outcome of `multiply`: a length panic exactly when `dims[1] != vec.len()`, else an out-of-bounds panic when a read slot is past the buffer, else `dims[0]` strided row sums |
| MatrixOwned.Multiply | src/matrix/mod.rs:41-51 | the result is a length panic, an out-of-bounds panic when some read slot is past the buffer, or the strided product |
| MatrixOwned.MultiplyTwoDimensional | src/matrix/mod.rs:43-49 | for a buildable two-dim matrix, all reads are in bounds: it fails if and only if `dims[1] != vec.len()` and otherwise returns `dims[0]` values |
| MatrixOwned.MultiplyTransposed | src/matrix/mod.rs:43-49 | on a transposed two-dim matrix, value `i` is the column sum `Σ_j W(j, i)*vec[j]` |
| MatrixOwned.MultiplyThreeDimsOutOfBounds | src/matrix/mod.rs:30-49 | reversing three dims can claim more rows than stored: the transpose of a 1 by 1 by 5 matrix reads past its buffer |
| Layers.NewNeuronLayer | src/lib.rs:8-13 | `dim` zeros, with `dim` recorded |
| Layers.FromVec | src/lib.rs:15-18 | keeps the values and records their count |
| Layers.NewWeightLayer | src/lib.rs:29-40 | succeeds if and only if there is a row, one bias per row, and all rows have the first row's length; `dim` is (row length, row count) |
| Layers.Affine | src/lib.rs:44-52 | the affine map has one output per row |
| Layers.ZipDot | src/lib.rs:47-51 | the sum of the products of the zipped pairs, stopping at the shorter list; its laws are `ZipDotLinear` and `ZipDotZero` |
| Layers.Forward | src/lib.rs:42-54 | fails if and only if `input.dim != dim.0`; otherwise output `i` is `biases[i] + Σ_j weights[i][j]*input[j]` |
| Layers.ZipDotLinear | src/lib.rs:47-51 | the zipped row sum is linear in the input |
| Layers.ZipDotZero | src/lib.rs:47-51 | the zipped row sum against zeros is 0 |
| Layers.AffineProperties | src/lib.rs:44-52 | the zero input yields the biases, and `forward` is affine in its input |
| Layers.ForwardExample | src/lib.rs:42-54 | weights `[[0, 1, 2], [3, 4, 5]]` with biases `[5, 0]` map `[0, 1, 2]` to `[10, 14]` |
| Vectors.Zero | src/vector.rs:13-18 | `size` zeros, with the size recorded |
| Vectors.FromSeq | src/vector.rs:92-97 | keeps the values and records their count |
| Vectors.Subtract | src/vector.rs:51-60 | fails if and only if the sizes differ; otherwise the element-wise difference over the zipped buffers |
| Vectors.Add | src/vector.rs:62-71 | fails if and only if the sizes differ; otherwise the element-wise sum |
| Vectors.ScaleByVector | src/vector.rs:108-119 | fails if and only if the sizes differ; otherwise the element-wise product |
| Vectors.ScaleByConstant | src/vector.rs:121-126 | every element times `c`, with the length kept |
| Vectors.Len | src/vector.rs:29-31 | `len` returns the recorded size, which for a consistent vector is the buffer length |
| Vectors.Index | src/vector.rs:78-84 | fails if and only if the index is past the buffer |
| Vectors.IndexFromSeq | src/vector.rs:78-84 | indexing a built vector returns the stored value in range and fails beyond it |
| Vectors.LenOfConstructed | src/vector.rs:29-31 | `len` is the element count of every built vector |
| Vectors.EqualsSeq | src/vector.rs:86-90 | equality with a list compares the `size` field with the list's length and then the zipped pairs |
| Vectors.EqualsSeqExactly | src/vector.rs:86-90 | for a consistent vector, equality with a list holds if and only if the buffer is that list |
| Vectors.EqualsSeqComparesSizeField | src/vector.rs:86-90 | only the `size` field is compared with the list's length, so an inconsistent vector can equal a shorter list |
| Vectors.AddUndoesSubtract | src/vector.rs:51-71 | adding back what was subtracted restores the vector |
| Vectors.SubtractSelf | src/vector.rs:51-60 | a vector minus itself is the zero vector of its size |
| Vectors.Commutative | src/vector.rs:62-119 | addition and the element-wise product do not depend on operand order |
| Vectors.ScaleByConstantComposes | src/vector.rs:121-126 | scaling by `c` then `d` is scaling by `c*d`; scaling by 1 keeps the values |
| Vectors.ScaleByUniformVector | src/vector.rs:108-126 | scaling by a vector of `c`s is scaling by `c` |
| Vectors.TestExpectations | src/vector.rs:135-170 | the expected results of the subtract, add and both scale tests hold exactly |
| Misc.Subtract | src/misc.rs:1-4 | fails if and only if the lengths differ; otherwise `a[i] - b[i]` in order, with length `a.len()` |
| Misc.SubtractThenAdd | src/misc.rs:1-4 | adding `b[i]` back restores `a[i]` |
| Misc.AgreesWithVectorSubtract | src/misc.rs:1-4 | agrees with `Vector::subtract` on built vectors: same panics and same values |
| Activations.Apply | src/activation.rs:10-16 | keeps the length and maps every element through the forward function |
| Activations.Rule | src/activation.rs:18-36 | the operand goes to the rule as `Some(y), None` on the `y` branch and as `None, Some(z)` on the `z` branch |
| Activations.Derivatives | src/activation.rs:18-36 | a successful pass has one value per zipped pair, each the rule's result; a failure means the rule panicked on some pair |
| Activations.Backpropagate | src/activation.rs:18-36 | panics when neither `y` nor `z` is given; with `y` it succeeds exactly when the rule succeeds on every zipped `(dl_dz, y)` pair and returns those values, and otherwise likewise with `z` |
| Activations.BackpropagatePrefersY | src/activation.rs:18-36 | when both operands are given, `z` is ignored |
| Activations.BackpropagateLength | src/activation.rs:18-36 | the output is as long as the shorter of `dl_dz` and the chosen operand |
| Activations.ReluFunction | src/activation.rs:40-46 | the forward map of `RELU`: `x` above 0, else 0; `ReluProperties` states its laws |
| Activations.ReluDerivative | src/activation.rs:47-57 | the backward rule of `RELU`: `dl_dz` where `z > 0`, else 0, and a panic without `z`; `ReluDerivativeRule` states it |
| Activations.ReluProperties | src/activation.rs:39-46 | ReLU is `x` above 0 and 0 otherwise; it is never negative and idempotent |
| Activations.ReluApplyIdempotent | src/activation.rs:10-46 | applying ReLU to a vector twice is applying it once |
| Activations.ReluDerivativeRule | src/activation.rs:47-57 | the rule passes `dl_dz` where `z > 0` and 0 otherwise; it panics without `z` |
| Activations.ReluThroughYPanics | src/activation.rs:18-57 | backpropagating through `y` panics if and only if there is at least one pair |
| Activations.ReluThroughZ | src/activation.rs:27-57 | backpropagating through `z` gates each `dl_dz` on `z > 0` |
| Activations.LeluFunction | src/activation.rs:61-67 | the forward map of `LELU`: `x` above 0, else `x / 10`; `LeluProperties` states its laws |
| Activations.LeluDerivative | src/activation.rs:68-78 | the backward rule of `LELU`: `dl_dz` where `z > 0`, else a tenth of it, and a panic without `z`; `LeluDerivativeRule` states it |
| Activations.LeluProperties | src/activation.rs:60-67 | leaky ReLU keeps the sign of its input, divides non-positive inputs by 10 and is strictly increasing |
| Activations.LeluDerivativeRule | src/activation.rs:68-78 | the rule passes `dl_dz` where `z > 0` and a tenth of it otherwise; it panics without `z`; on positive `z` it agrees with ReLU's rule |
| Activations.LeluThroughYPanics | src/activation.rs:18-78 | backpropagating leaky ReLU through `y` panics if and only if there is at least one pair |

## Left out

- Randomness: `Vector::random` and the `thread_rng` draws of `random_pairing` are left out. The three draws of `random_pairing` are parameters whose ranges are preconditions.
- `Vector::softmax` and `Vector::cross_entropy_loss` are left out, because they rest on `exp` and `ln` over floating point.
- IEEE-754 behaviour is not modelled: `real` has no rounding, NaN or infinity. The tests' tolerance comparisons become exact equalities.
- Language.Clean: the regex engine is not modelled; its two patterns are written as character maps. Unicode `to_lowercase` is modelled on ASCII letters only.
- Language.Words: `split_whitespace` uses the Unicode White_Space set written out by hand, not the standard library's table.
- Language.EmbeddingBuilder.RandomPairing: when `offset` exceeds `codex_size`, the `usize` subtraction overflows. The model reports this as the same `EmptyRange` panic as `offset == codex_size`, and does not model a release build's wrap-around.
- Integer overflow of `usize` is not modelled: `dims[0] * dims[1]`, the product of the tensor dims, and the ids all use unbounded `nat`.
- Iterator plumbing is not modelled: `iter`, `IntoIterator`, `Debug`, the unused `Multiply` trait declarations, the `crate::ops::Scale` trait (its two impls are plain functions), and the `Box`/`clone` ownership of `src/matrix.rs`. Buffers are value sequences.
- MatrixBoxed: the fields `data`, `dims` and `step` of `src/matrix.rs` are public, so a caller could replace them. The operations require the `Valid` layout that `new`, `empty` and `transpose` establish. A matrix whose fields were tampered with is not modelled.
- MatrixOwned.Multiply: when several reads are past the buffer, the model does not record which one panics first, only that it panics.
- MatrixOwned.Transpose: the in-place reversal of `mut self` is modelled as a function on the moved value. Nothing else can observe the old value.
- The `examples/` programs are not part of this model: their file I/O, printing, training loops and the types they use that the core does not define. Two of their values appear only as worked examples.
- Panic messages are not modelled; only the error kind is kept.

## Findings

| source | as written | input that shows it | evidently intended | confidence | as-written member | corrected member |
|---|---|---|---|---|---|---|
| src/matrix.rs:43-53 | `dot` writes `self(i, j)*vec[i]` at slot `i*self.step[0] + j*self.step[1]` of a result that is labelled row-major | the transpose of `[[1, 2], [3, 4]]` dotted with `[1, 10]`: the result's entry `(0, 1)` is 20 | entry `(0, 1)` is `self(0, 1)*vec[0]`, which is 3; each product is written at the result's own row-major slot | not executed | MatrixBoxed.DotMislabelsTransposed | MatrixBoxed.DotCorrected |
| src/matrix.rs:55-62 | `subtract` takes the difference of the two buffers slot by slot, ignoring both operands' steps | the transpose of `[[1, 2], [3, 4]]` minus the 2 by 2 zero matrix: the result's entry `(0, 1)` is 2 | the entry-wise difference read through each operand's steps gives 3 | not executed | MatrixBoxed.SubtractIgnoresSteps | MatrixBoxed.SubtractCorrected |
