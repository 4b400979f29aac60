/** Concatenation of contiguous tensors along one dimension by nested block copies. Memories are
    sequences of bytes of any type `T`; inputs are not modified and do not alias the output. */
module Concat {
  import opened Arithmetic
  import opened Layout
  import opened Memory
  import opened Options

  // ---------------------------------------------------------------------------
  // The shape check
  // ---------------------------------------------------------------------------

  /** The length of the first `n` inputs along dimension `dim`. */
  function LengthOf(shapes: seq<Shape>, dim: nat, n: nat): nat
    requires n <= |shapes| && forall t :: 0 <= t < |shapes| ==> dim < |shapes[t]|
  {
    if n == 0 then 0 else LengthOf(shapes, dim, n - 1) + shapes[n - 1][dim]
  }

  /** The `torch.cat` shape contract for at least two inputs. */
  predicate ShapesOk(shapes: seq<Shape>, dim: nat, outShape: Shape) {
    && |shapes| >= 2 && dim < |outShape|
    && (forall t :: 0 <= t < |shapes| ==> |shapes[t]| == |outShape|)
    && (forall t, i :: 0 <= t < |shapes| && 0 <= i < |outShape| && i != dim ==> shapes[t][i] == shapes[0][i])
    && outShape == shapes[0][dim := LengthOf(shapes, dim, |shapes|)]
  }

  function Sum(lengths: seq<nat>): nat {
    if lengths == [] then 0 else Sum(Init(lengths)) + Last(lengths)
  }

  /** The parts of a tensor cut along dimension `dim` into pieces of the given lengths. */
  function Cut(shape: Shape, dim: nat, lengths: seq<nat>): (parts: seq<Shape>)
    requires dim < |shape|
    ensures |parts| == |lengths|
  {
    seq(|lengths|, t requires 0 <= t < |lengths| => shape[dim := lengths[t]])
  }

  lemma {:induction false} LengthOfCut(shape: Shape, dim: nat, lengths: seq<nat>, n: nat)
    requires dim < |shape| && n <= |lengths|
    ensures LengthOf(Cut(shape, dim, lengths), dim, n) == Sum(lengths[..n])
    decreases n
  {
    if n > 0 {
      LengthOfCut(shape, dim, lengths, n - 1);
      assert Init(lengths[..n]) == lengths[..n - 1];
    }
  }

  /** The accepted shapes are exactly those of the pieces of the output, two or more, however it is cut
      along the dimension. */
  lemma AcceptsExactlyCuts(shapes: seq<Shape>, dim: nat, outShape: Shape)
    ensures ShapesOk(shapes, dim, outShape) <==>
      |shapes| >= 2 && dim < |outShape|
      && exists lengths :: Sum(lengths) == outShape[dim] && shapes == Cut(outShape, dim, lengths)
  {
    if ShapesOk(shapes, dim, outShape) {
      var lengths: seq<nat> := seq(|shapes|, t requires 0 <= t < |shapes| => shapes[t][dim]);
      forall t | 0 <= t < |shapes| ensures shapes[t] == outShape[dim := lengths[t]] {
      }
      assert shapes == Cut(outShape, dim, lengths);
      LengthOfCut(outShape, dim, lengths, |lengths|);
      assert lengths[..|lengths|] == lengths;
    }
    if |shapes| >= 2 && dim < |outShape| {
      forall lengths | Sum(lengths) == outShape[dim] && shapes == Cut(outShape, dim, lengths)
        ensures ShapesOk(shapes, dim, outShape)
      {
        LengthOfCut(outShape, dim, lengths, |lengths|);
        assert lengths[..|lengths|] == lengths;
      }
    }
  }

  /** The checks of the `Cat` constructor; the result is the normalised dimension, or nothing when
      an assertion fails. */
  method Construct(shapes: seq<Shape>, dim: int, outShape: Shape) returns (r: Option<nat>)
    requires |shapes| >= 1
    ensures r.Some? ==> r.value == (if dim < 0 then dim + |outShape| else dim) && ShapesOk(shapes, r.value, outShape)
    ensures r.None? ==> var d := if dim < 0 then dim + |outShape| else dim; d < 0 || !ShapesOk(shapes, d, outShape)
  {
    var ndim := |outShape|;
    var d := if dim < 0 then dim + ndim else dim;
    if |shapes| < 2 || d < 0 || d >= ndim || |shapes[0]| != ndim {
      return None;
    }
    var expected := shapes[0];
    for t := 1 to |shapes|
      invariant forall s :: 0 <= s < t ==> |shapes[s]| == ndim
      invariant forall s, i :: 0 <= s < t && 0 <= i < ndim && i != d ==> shapes[s][i] == shapes[0][i]
      invariant |expected| == ndim && expected == shapes[0][d := LengthOf(shapes[..t], d, t)]
    {
      if |shapes[t]| != ndim {
        return None;
      }
      for i := 0 to ndim
        invariant forall j :: 0 <= j < i && j != d ==> shapes[t][j] == shapes[0][j]
      {
        if i != d && shapes[t][i] != expected[i] {
          return None;
        }
      }
      LengthOfPrefix(shapes[..t + 1], d, t, shapes[..t]);
      expected := expected[d := expected[d] + shapes[t][d]];
    }
    assert shapes[..|shapes|] == shapes;
    if outShape != expected {
      return None;
    }
    return Some(d);
  }

  lemma {:induction false} LengthOfPrefix(shapes: seq<Shape>, dim: nat, n: nat, others: seq<Shape>)
    requires n <= |shapes| && n <= |others|
    requires forall t :: 0 <= t < |shapes| ==> dim < |shapes[t]|
    requires forall t :: 0 <= t < |others| ==> dim < |others[t]|
    requires shapes[..n] == others[..n]
    ensures LengthOf(shapes, dim, n) == LengthOf(others, dim, n)
    decreases n
  {
    if n > 0 {
      assert shapes[..n - 1] == shapes[..n][..n - 1] && others[..n - 1] == others[..n][..n - 1];
      assert shapes[n - 1] == shapes[..n][n - 1] && others[n - 1] == others[..n][n - 1];
      LengthOfPrefix(shapes, dim, n - 1, others);
    }
  }

  // ---------------------------------------------------------------------------
  // What the copies build
  // ---------------------------------------------------------------------------

  /** The operands and the sizes the copy loops use: `inner` counts the bytes of one step along the
      concatenated dimension, the elements below it times the element size. */
  datatype Job<T> = Job(inputs: seq<seq<T>>, shapes: seq<Shape>, dim: nat, outShape: Shape, elemSize: nat) {
    ghost predicate Valid() {
      && ShapesOk(shapes, dim, outShape) && |inputs| == |shapes| && elemSize > 0
      && forall t :: 0 <= t < |inputs| ==> |inputs[t]| == Volume(shapes[t]) * elemSize
    }

    function Outer(): nat
      requires dim < |outShape|
    {
      Volume(outShape[..dim])
    }

    function Inner(): nat
      requires dim < |outShape|
    {
      Volume(outShape[dim + 1..]) * elemSize
    }

    function Offset(t: nat): nat
      requires t <= |shapes| && forall s :: 0 <= s < |shapes| ==> dim < |shapes[s]|
    {
      LengthOf(shapes, dim, t)
    }
  }

  lemma InputSize<T>(j: Job<T>, t: nat)
    requires j.Valid() && t < |j.shapes|
    ensures |j.inputs[t]| == (j.Outer() * j.shapes[t][j.dim]) * j.Inner()
  {
    var s, d := j.shapes[t], j.dim;
    assert s[..d] == j.outShape[..d] && s[d + 1..] == j.outShape[d + 1..];
    VolumeAround(s, d);
    MulAssociate(j.Outer() * s[d], Volume(s[d + 1..]), j.elemSize);
  }

  /** Where block (`o`, `t`) starts in input `t`. */
  function Source<T>(j: Job<T>, o: nat, t: nat): nat
    requires j.Valid() && t < |j.shapes|
  {
    MulNonNeg(o, j.shapes[t][j.dim]);
    MulNonNeg(o * j.shapes[t][j.dim], j.Inner());
    (o * j.shapes[t][j.dim]) * j.Inner()
  }

  function BlockSize<T>(j: Job<T>, t: nat): nat
    requires j.Valid() && t < |j.shapes|
  {
    j.shapes[t][j.dim] * j.Inner()
  }

  lemma BlockInInput<T>(j: Job<T>, o: nat, t: nat)
    requires j.Valid() && t < |j.shapes| && o < j.Outer()
    ensures Source(j, o, t) + BlockSize(j, t) <= |j.inputs[t]|
  {
    InputSize(j, t);
    RowEnd(o, j.Outer(), j.shapes[t][j.dim], j.Inner());
  }

  /** The slice of input `t` copied for outer index `o`. */
  function Block<T>(j: Job<T>, o: nat, t: nat): (block: seq<T>)
    requires j.Valid() && t < |j.shapes| && o < j.Outer()
    ensures |block| == BlockSize(j, t)
  {
    BlockInInput(j, o, t);
    j.inputs[t][Source(j, o, t)..Source(j, o, t) + BlockSize(j, t)]
  }

  /** The destination of block (`o`, `t`). */
  function Start<T>(j: Job<T>, o: nat, t: nat): nat
    requires j.Valid() && t <= |j.shapes|
  {
    MulNonNeg(o, j.outShape[j.dim]);
    MulNonNeg(o * j.outShape[j.dim] + j.Offset(t), j.Inner());
    (o * j.outShape[j.dim] + j.Offset(t)) * j.Inner()
  }

  /** Blocks follow each other without gap or overlap. */
  lemma Abutting<T>(j: Job<T>, o: nat, t: nat)
    requires j.Valid() && t <= |j.shapes|
    ensures t < |j.shapes| ==> Start(j, o, t + 1) == Start(j, o, t) + BlockSize(j, t)
    ensures t == |j.shapes| ==> Start(j, o + 1, 0) == Start(j, o, t)
    ensures Start(j, 0, 0) == 0
  {
    var i, x := j.Inner(), o * j.outShape[j.dim] + j.Offset(t);
    if t < |j.shapes| {
      assert (x + j.shapes[t][j.dim]) * i == x * i + j.shapes[t][j.dim] * i;
    } else {
      assert (o + 1) * j.outShape[j.dim] == o * j.outShape[j.dim] + j.outShape[j.dim];
    }
  }

  /** The output bytes written when the loops reach (`o`, `t`). */
  ghost function Built<T>(j: Job<T>, o: nat, t: nat): (bytes: seq<T>)
    requires j.Valid() && t <= |j.shapes| && (o < j.Outer() || (o == j.Outer() && t == 0))
    ensures |bytes| == Start(j, o, t)
    decreases o, t
  {
    if t > 0 then
      Abutting(j, o, t - 1);
      Built(j, o, t - 1) + Block(j, o, t - 1)
    else if o > 0 then
      Abutting(j, o - 1, |j.shapes|);
      Built(j, o - 1, |j.shapes|)
    else
      Abutting(j, 0, 0);
      []
  }

  // ---------------------------------------------------------------------------
  // The copy loops
  // ---------------------------------------------------------------------------

  /** The loops leave exactly the built bytes, followed by whatever the output held before. */
  method Compute<T>(j: Job<T>, out: array<T>)
    requires j.Valid() && out.Length == Volume(j.outShape) * j.elemSize
    modifies out
    ensures Start(j, j.Outer(), 0) == out.Length
    ensures out[..] == Built(j, j.Outer(), 0)
  {
    var outer := Numel(j.outShape[..j.dim]);
    var below := Numel(j.outShape[j.dim + 1..]);
    var inner := below * j.elemSize;
    TotalSize(j);
    Abutting(j, 0, 0);
    for o := 0 to outer
      invariant Start(j, o, 0) <= out.Length
      invariant out[..Start(j, o, 0)] == Built(j, o, 0)
    {
      CopySlices(j, out, o, inner);
      Abutting(j, o, |j.shapes|);
    }
    assert out[..out.Length] == out[..];
  }

  lemma BuiltNext<T>(j: Job<T>, o: nat, t: nat)
    requires j.Valid() && t < |j.shapes| && o < j.Outer()
    ensures Built(j, o, t + 1) == Built(j, o, t) + Block(j, o, t)
    ensures Source(j, o, t) + BlockSize(j, t) <= |j.inputs[t]|
    ensures Block(j, o, t) == j.inputs[t][Source(j, o, t)..Source(j, o, t) + BlockSize(j, t)]
  {
    hide Source, BlockSize;
    BlockInInput(j, o, t);
  }

  /** The inner loop: one slice of every input. */
  method CopySlices<T>(j: Job<T>, out: array<T>, o: nat, inner: nat)
    requires j.Valid() && out.Length == Start(j, j.Outer(), 0) && o < j.Outer() && inner == j.Inner()
    requires Start(j, o, 0) <= out.Length && out[..Start(j, o, 0)] == Built(j, o, 0)
    modifies out
    ensures Start(j, o, |j.shapes|) <= out.Length && out[..Start(j, o, |j.shapes|)] == Built(j, o, |j.shapes|)
  {
    var outDimSize := j.outShape[j.dim];
    var offsetInDim := 0;
    for t := 0 to |j.inputs|
      invariant offsetInDim == j.Offset(t)
      invariant Start(j, o, t) <= out.Length
      invariant out[..Start(j, o, t)] == Built(j, o, t)
    {
      var inDim := j.shapes[t][j.dim];
      var srcOffset := (o * inDim) * inner;
      var dstOffset := (o * outDimSize + offsetInDim) * inner;
      var copySize := inDim * inner;
      assert srcOffset == Source(j, o, t) && dstOffset == Start(j, o, t) && copySize == BlockSize(j, t);
      Abutting(j, o, t);
      StartBelowEnd(j, o, t + 1);
      BlockInInput(j, o, t);
      BuiltNext(j, o, t);
      ghost var before := out[..];
      Memcpy(out, dstOffset, j.inputs[t], srcOffset, copySize);
      assert out[..dstOffset + copySize] == before[..dstOffset] + Block(j, o, t);
      offsetInDim := offsetInDim + inDim;
    }
  }

  lemma TotalSize<T>(j: Job<T>)
    requires j.Valid()
    ensures Start(j, j.Outer(), 0) == Volume(j.outShape) * j.elemSize
  {
    VolumeAround(j.outShape, j.dim);
    MulAssociate(j.Outer() * j.outShape[j.dim], Volume(j.outShape[j.dim + 1..]), j.elemSize);
  }

  lemma {:induction false} OffsetMonotone<T>(j: Job<T>, s: nat, t: nat)
    requires j.Valid() && s <= t <= |j.shapes|
    ensures j.Offset(s) <= j.Offset(t)
    decreases t
  {
    if s < t {
      OffsetMonotone(j, s, t - 1);
    }
  }

  lemma StartBelowEnd<T>(j: Job<T>, o: nat, t: nat)
    requires j.Valid() && t <= |j.shapes| && o < j.Outer()
    ensures Start(j, o, t) <= Start(j, j.Outer(), 0)
  {
    OffsetMonotone(j, t, |j.shapes|);
    var d := j.outShape[j.dim];
    MulLe(o + 1, j.Outer(), d);
    assert (o + 1) * d == o * d + d;
    MulLe(o * d + j.Offset(t), j.Outer() * d, j.Inner());
  }

  // ---------------------------------------------------------------------------
  // Element by element
  // ---------------------------------------------------------------------------

  /** Byte `k` of block (`o`, `t`) is at its place in everything built later. */
  lemma {:induction false} BuiltAt<T>(j: Job<T>, o: nat, t: nat, o0: nat, t0: nat, k: nat)
    requires j.Valid() && t <= |j.shapes| && (o < j.Outer() || (o == j.Outer() && t == 0))
    requires t0 < |j.shapes| && (o0 < o || (o0 == o && t0 < t)) && o0 < j.Outer()
    requires k < |Block(j, o0, t0)|
    ensures Start(j, o0, t0) + k < |Built(j, o, t)|
    ensures Built(j, o, t)[Start(j, o0, t0) + k] == Block(j, o0, t0)[k]
    decreases o, t
  {
    hide Start, BlockSize, Block;
    if t > 0 {
      Abutting(j, o, t - 1);
      if !(o0 == o && t0 == t - 1) {
        BuiltAt(j, o, t - 1, o0, t0, k);
      }
    } else {
      Abutting(j, o - 1, |j.shapes|);
      BuiltAt(j, o - 1, |j.shapes|, o0, t0, k);
    }
  }

  /** Every position along the concatenated dimension belongs to exactly one input. */
  lemma {:induction false} OwnerExists<T>(j: Job<T>, x: nat, n: nat) returns (t: nat)
    requires j.Valid() && n <= |j.shapes| && x < j.Offset(n)
    ensures t < n && j.Offset(t) <= x < j.Offset(t + 1)
    ensures forall s: nat :: s < |j.shapes| && j.Offset(s) <= x < j.Offset(s + 1) ==> s == t
    decreases n
  {
    if j.Offset(n - 1) <= x {
      t := n - 1;
      forall s: nat | s < |j.shapes| && j.Offset(s) <= x < j.Offset(s + 1) ensures s == t {
        if s < t {
          OffsetMonotone(j, s + 1, t);
        } else if t < s {
          OffsetMonotone(j, t + 1, s);
        }
      }
    } else {
      t := OwnerExists(j, x, n - 1);
    }
  }

  /** The tuple of input `t` that lands at output tuple `c`. */
  function Shifted<T>(j: Job<T>, c: Coords, t: nat): Coords
    requires j.Valid() && InBounds(c, j.outShape) && t < |j.shapes| && j.Offset(t) <= c[j.dim] < j.Offset(t + 1)
  {
    c[j.dim := c[j.dim] - j.Offset(t)]
  }

  /** The bytes below dimension `d` that precede byte `b` of the element, `x` steps into the block. */
  function Within(c: Coords, shape: Shape, d: nat, x: nat, elemSize: nat, b: nat): int
    requires |c| == |shape| && d < |shape|
  {
    (x * Volume(shape[d + 1..]) + Flatten(c[d + 1..], shape[d + 1..])) * elemSize + b
  }

  /** The byte position of an element whose coordinate along `d` is `x` past `from`. */
  lemma PositionSplit(c: Coords, shape: Shape, d: nat, from: nat, x: nat, elemSize: nat, b: nat)
    requires |c| == |shape| && d < |shape| && c[d] == from + x
    ensures Flatten(c, shape) * elemSize + b
         == (Flatten(c[..d], shape[..d]) * shape[d] + from) * (Volume(shape[d + 1..]) * elemSize)
            + Within(c, shape, d, x, elemSize, b)
  {
    hide Volume, Flatten;
    FlattenAround(c, shape, d);
    Regroup(Flatten(c, shape), Flatten(c[..d], shape[..d]) * shape[d] + from, x, Volume(shape[d + 1..]),
      Flatten(c[d + 1..], shape[d + 1..]), elemSize, b);
  }

  lemma WithinBound(c: Coords, shape: Shape, d: nat, x: nat, n: nat, elemSize: nat, b: nat)
    requires InBounds(c, shape) && d < |shape| && x < n && b < elemSize
    ensures 0 <= Within(c, shape, d, x, elemSize, b) < n * (Volume(shape[d + 1..]) * elemSize)
    ensures Flatten(c[..d], shape[..d]) < Volume(shape[..d])
  {
    hide Volume, Flatten;
    DecodeFlatten(c[..d], shape[..d]);
    DecodeFlatten(c[d + 1..], shape[d + 1..]);
    NestedBound(x, n, Flatten(c[d + 1..], shape[d + 1..]), Volume(shape[d + 1..]), b, elemSize);
  }

  lemma SameAround<T>(j: Job<T>, c: Coords, t: nat)
    requires j.Valid() && InBounds(c, j.outShape)
    requires t < |j.shapes| && j.Offset(t) <= c[j.dim] < j.Offset(t + 1)
    ensures InBounds(Shifted(j, c, t), j.shapes[t])
    ensures j.shapes[t][..j.dim] == j.outShape[..j.dim] && j.shapes[t][j.dim + 1..] == j.outShape[j.dim + 1..]
    ensures Shifted(j, c, t)[..j.dim] == c[..j.dim] && Shifted(j, c, t)[j.dim + 1..] == c[j.dim + 1..]
  {
  }

  /** Where byte `b` of an element is, in the output and in the owning input. */
  lemma Positions<T>(j: Job<T>, c: Coords, t: nat, b: nat) returns (o: nat, within: nat)
    requires j.Valid() && InBounds(c, j.outShape) && b < j.elemSize
    requires t < |j.shapes| && j.Offset(t) <= c[j.dim] < j.Offset(t + 1)
    ensures InBounds(Shifted(j, c, t), j.shapes[t])
    ensures o < j.Outer() && within < BlockSize(j, t)
    ensures Flatten(c, j.outShape) * j.elemSize + b == Start(j, o, t) + within
    ensures Flatten(Shifted(j, c, t), j.shapes[t]) * j.elemSize + b == Source(j, o, t) + within
  {
    hide Volume, Flatten;
    var d, x := j.dim, c[j.dim] - j.Offset(t);
    o := Flatten(c[..d], j.outShape[..d]);
    WithinBound(c, j.outShape, d, x, j.shapes[t][d], j.elemSize, b);
    within := Within(c, j.outShape, d, x, j.elemSize, b);
    PositionSplit(c, j.outShape, d, j.Offset(t), x, j.elemSize, b);
    SameAround(j, c, t);
    PositionSplit(Shifted(j, c, t), j.shapes[t], d, 0, x, j.elemSize, b);
  }

  /** Concatenation, element by element and for tensors of any rank: byte `b` of output element
      `c` is byte `b` of the element of the owning input, shifted along `dim`. */
  lemma ConcatenatesByCoordinates<T>(j: Job<T>, c: Coords, t: nat, b: nat)
    requires j.Valid() && InBounds(c, j.outShape) && b < j.elemSize
    requires t < |j.shapes| && j.Offset(t) <= c[j.dim] < j.Offset(t + 1)
    ensures InBounds(Shifted(j, c, t), j.shapes[t])
    ensures Flatten(c, j.outShape) * j.elemSize + b < |Built(j, j.Outer(), 0)|
    ensures Flatten(Shifted(j, c, t), j.shapes[t]) * j.elemSize + b < |j.inputs[t]|
    ensures Built(j, j.Outer(), 0)[Flatten(c, j.outShape) * j.elemSize + b]
         == j.inputs[t][Flatten(Shifted(j, c, t), j.shapes[t]) * j.elemSize + b]
  {
    var o, within := Positions(j, c, t, b);
    BuiltAt(j, j.Outer(), 0, o, t, within);
    BlockInInput(j, o, t);
  }
}
