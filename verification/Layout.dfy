/** Strided addressing: the mixed-radix decoding of flat indices, contiguity and its fast path,
    the storage a strided view needs, and when two indices can share a cell.

    Sizes and offsets are mathematical integers; a shape lists sizes from the outermost
    dimension to the innermost one. */
module Layout {
  import opened Arithmetic

  type Shape = seq<nat>
  type Strides = seq<int>
  type Coords = seq<nat>

  function Init<T>(s: seq<T>): seq<T>
    requires s != []
  {
    s[..|s| - 1]
  }

  function Last<T>(s: seq<T>): T
    requires s != []
  {
    s[|s| - 1]
  }

  predicate Positive(shape: Shape) {
    forall k :: 0 <= k < |shape| ==> shape[k] > 0
  }

  predicate InBounds(c: Coords, shape: Shape) {
    |c| == |shape| && forall k :: 0 <= k < |c| ==> c[k] < shape[k]
  }

  /** The number of elements of a tensor. */
  function Volume(shape: Shape): nat {
    if shape == [] then 1 else Volume(Init(shape)) * Last(shape)
  }

  /** The element offset of a coordinate tuple. */
  function Dot(c: Coords, strides: Strides): int
    requires |c| == |strides|
  {
    if c == [] then 0 else Dot(Init(c), Init(strides)) + Last(c) * Last(strides)
  }

  /** The row-major rank of a coordinate tuple. */
  function Flatten(c: Coords, shape: Shape): nat
    requires |c| == |shape|
  {
    if c == [] then 0 else Flatten(Init(c), Init(shape)) * Last(shape) + Last(c)
  }

  /** The coordinate tuple of a flat index. */
  function Decode(i: nat, shape: Shape): (c: Coords)
    requires Positive(shape)
    ensures |c| == |shape|
    decreases |shape|
  {
    if shape == [] then [] else Decode(i / Last(shape), Init(shape)) + [i % Last(shape)]
  }

  lemma {:induction false} DecodeInBounds(i: nat, shape: Shape)
    requires Positive(shape)
    ensures InBounds(Decode(i, shape), shape)
    decreases |shape|
  {
    if shape != [] {
      DecodeInBounds(i / Last(shape), Init(shape));
    }
  }

  function Offset(i: nat, shape: Shape, strides: Strides): int
    requires Positive(shape) && |shape| == |strides|
  {
    Dot(Decode(i, shape), strides)
  }

  // ---------------------------------------------------------------------------
  // Decoding is a bijection
  // ---------------------------------------------------------------------------

  lemma {:induction false} FlattenDecode(i: nat, shape: Shape)
    requires Positive(shape) && i < Volume(shape)
    ensures Flatten(Decode(i, shape), shape) == i
    decreases |shape|
  {
    if shape != [] {
      var d := Last(shape);
      DivBelow(i, Volume(Init(shape)), d);
      FlattenDecode(i / d, Init(shape));
      var c := Decode(i, shape);
      assert Init(c) == Decode(i / d, Init(shape));
      assert Last(c) == i % d;
      assert (i / d) * d + i % d == i;
    }
  }

  lemma {:induction false} DecodeFlatten(c: Coords, shape: Shape)
    requires InBounds(c, shape)
    ensures Flatten(c, shape) < Volume(shape)
    ensures Positive(shape) && Decode(Flatten(c, shape), shape) == c
  {
    assert Positive(shape);
    if shape != [] {
      var d := Last(shape);
      DecodeFlatten(Init(c), Init(shape));
      var q := Flatten(Init(c), Init(shape));
      BlockBound(q, Volume(Init(shape)), Last(c), d);
      DivModUnique(q, Last(c), d);
      assert c == Init(c) + [Last(c)];
    }
  }

  lemma {:induction false} VolumePositive(shape: Shape)
    ensures Positive(shape) <==> Volume(shape) > 0
  {
    if shape != [] {
      VolumePositive(Init(shape));
      if Positive(shape) {
        MulLe(1, Volume(Init(shape)), Last(shape));
      } else if Positive(Init(shape)) {
        assert Last(shape) == 0;
      } else {
        var k :| 0 <= k < |Init(shape)| && Init(shape)[k] == 0;
        assert shape[k] == 0;
        assert Volume(Init(shape)) == 0;
      }
    }
  }

  // ---------------------------------------------------------------------------
  // Algebra of volumes, ranks and offsets
  // ---------------------------------------------------------------------------

  lemma {:induction false} VolumeSplit(a: Shape, b: Shape)
    ensures Volume(a + b) == Volume(a) * Volume(b)
  {
    if b == [] {
      assert a + b == a;
    } else {
      assert Init(a + b) == a + Init(b);
      VolumeSplit(a, Init(b));
      var x, y, z := Volume(a), Volume(Init(b)), Last(b);
      assert (x * y) * z == x * (y * z);
    }
  }

  lemma {:induction false} FlattenSplit(c1: Coords, c2: Coords, s1: Shape, s2: Shape)
    requires |c1| == |s1| && |c2| == |s2|
    ensures Flatten(c1 + c2, s1 + s2) == Flatten(c1, s1) * Volume(s2) + Flatten(c2, s2)
  {
    if c2 == [] {
      assert c1 + c2 == c1 && s1 + s2 == s1;
    } else {
      assert Init(c1 + c2) == c1 + Init(c2) && Init(s1 + s2) == s1 + Init(s2);
      FlattenSplit(c1, Init(c2), s1, Init(s2));
      var x, y, f, z := Flatten(c1, s1), Volume(Init(s2)), Flatten(Init(c2), Init(s2)), Last(s2);
      Distribute(x, y, f, z);
      assert Last(c1 + c2) == Last(c2) && Last(s1 + s2) == Last(s2);
    }
  }

  lemma {:induction false} DotSplit(c1: Coords, c2: Coords, s1: Strides, s2: Strides)
    requires |c1| == |s1| && |c2| == |s2|
    ensures Dot(c1 + c2, s1 + s2) == Dot(c1, s1) + Dot(c2, s2)
  {
    if c2 == [] {
      assert c1 + c2 == c1 && s1 + s2 == s1;
    } else {
      assert Init(c1 + c2) == c1 + Init(c2) && Init(s1 + s2) == s1 + Init(s2);
      DotSplit(c1, Init(c2), s1, Init(s2));
    }
  }

  lemma DotHead(c: Coords, strides: Strides)
    requires |c| == |strides| && c != []
    ensures Dot(c, strides) == c[0] * strides[0] + Dot(c[1..], strides[1..])
  {
    DotSplit([c[0]], c[1..], [strides[0]], strides[1..]);
    assert [c[0]] + c[1..] == c && [strides[0]] + strides[1..] == strides;
    assert Init([c[0]]) == [] && Init([strides[0]]) == [];
  }

  lemma Cut<T>(s: seq<T>, m: nat)
    requires m < |s|
    ensures s[..m] + s[m..] == s && s[m..][0] == s[m] && s[m..][1..] == s[m + 1..]
  {
  }

  lemma DotWithout(c: Coords, strides: Strides, m: nat)
    requires |c| == |strides| && m < |c|
    ensures Dot(c, strides) == Dot(c[..m] + c[m + 1..], strides[..m] + strides[m + 1..]) + c[m] * strides[m]
  {
    Cut(c, m);
    Cut(strides, m);
    DotSplit(c[..m], c[m..], strides[..m], strides[m..]);
    DotHead(c[m..], strides[m..]);
    DotSplit(c[..m], c[m + 1..], strides[..m], strides[m + 1..]);
  }

  // ---------------------------------------------------------------------------
  // The decoding loop
  // ---------------------------------------------------------------------------

  /** The loop peels dimensions from the innermost one; its result is the stride dot product of
      the decoded coordinates. The caller must not pass a zero size (division by zero). */
  method IndexToOffset(flatIndex: nat, shape: Shape, strides: Strides) returns (res: int)
    requires Positive(shape) && |shape| == |strides|
    ensures res == Offset(flatIndex, shape, strides)
  {
    res := 0;
    var flat: nat := flatIndex;
    var i := |shape|;
    assert shape[..i] == shape && strides[..i] == strides;
    while i > 0
      invariant 0 <= i <= |shape|
      invariant res + Offset(flat, shape[..i], strides[..i]) == Offset(flatIndex, shape, strides)
    {
      i := i - 1;
      OffsetPeel(flat, shape[..i + 1], strides[..i + 1]);
      assert Init(shape[..i + 1]) == shape[..i] && Init(strides[..i + 1]) == strides[..i];
      res := res + (flat % shape[i]) * strides[i];
      flat := flat / shape[i];
    }
  }

  lemma OffsetPeel(i: nat, shape: Shape, strides: Strides)
    requires Positive(shape) && |shape| == |strides| && shape != []
    ensures Offset(i, shape, strides)
         == Offset(i / Last(shape), Init(shape), Init(strides)) + (i % Last(shape)) * Last(strides)
  {
    var c := Decode(i, shape);
    assert Init(c) == Decode(i / Last(shape), Init(shape));
  }

  method Numel(shape: Shape) returns (n: nat)
    ensures n == Volume(shape)
  {
    n := 1;
    for i := 0 to |shape|
      invariant n == Volume(shape[..i])
    {
      assert Init(shape[..i + 1]) == shape[..i];
      n := n * shape[i];
    }
    assert shape[..|shape|] == shape;
  }

  // ---------------------------------------------------------------------------
  // Contiguity
  // ---------------------------------------------------------------------------

  /** Row-major strides, stated position by position. */
  function RowMajor(shape: Shape): (strides: Strides)
    ensures |strides| == |shape|
  {
    seq(|shape|, k requires 0 <= k < |shape| => Volume(shape[k + 1..]))
  }

  lemma VolumeHead(shape: Shape, k: nat)
    requires k < |shape|
    ensures Volume(shape[k..]) == shape[k] * Volume(shape[k + 1..])
  {
    VolumeSplit([shape[k]], shape[k + 1..]);
    assert [shape[k]] + shape[k + 1..] == shape[k..];
    assert Init([shape[k]]) == [];
    assert Volume([shape[k]]) == Volume([]) * shape[k];
  }

  /** The volume split around dimension `d`. */
  lemma VolumeAround(shape: Shape, d: nat)
    requires d < |shape|
    ensures Volume(shape) == Volume(shape[..d]) * shape[d] * Volume(shape[d + 1..])
  {
    assert shape == shape[..d + 1] + shape[d + 1..];
    VolumeSplit(shape[..d + 1], shape[d + 1..]);
    assert Init(shape[..d + 1]) == shape[..d];
  }

  lemma FlattenPrefix(c: Coords, shape: Shape, d: nat)
    requires |c| == |shape| && d < |shape|
    ensures Flatten(c[..d + 1], shape[..d + 1]) == Flatten(c[..d], shape[..d]) * shape[d] + c[d]
  {
    assert Init(c[..d + 1]) == c[..d] && Init(shape[..d + 1]) == shape[..d];
  }

  /** The rank of a tuple split around dimension `d`. */
  lemma FlattenAround(c: Coords, shape: Shape, d: nat)
    requires |c| == |shape| && d < |shape|
    ensures Flatten(c, shape)
         == (Flatten(c[..d], shape[..d]) * shape[d] + c[d]) * Volume(shape[d + 1..]) + Flatten(c[d + 1..], shape[d + 1..])
  {
    hide Flatten, Volume;
    assert c == c[..d + 1] + c[d + 1..] && shape == shape[..d + 1] + shape[d + 1..];
    FlattenSplit(c[..d + 1], c[d + 1..], shape[..d + 1], shape[d + 1..]);
    FlattenPrefix(c, shape, d);
  }

  /** `Tensor::DefaultStrides`. */
  method DefaultStrides(shape: Shape) returns (strides: array<int>)
    ensures fresh(strides) && strides[..] == RowMajor(shape)
  {
    strides := new int[|shape|];
    if |shape| == 0 {
      return;
    }
    strides[|shape| - 1] := 1;
    var i := |shape| - 2;
    assert shape[|shape|..] == [];
    while i != -1
      invariant -1 <= i <= |shape| - 2
      invariant forall k :: i < k < |shape| ==> strides[k] == Volume(shape[k + 1..])
    {
      VolumeHead(shape, i + 1);
      strides[i] := strides[i + 1] * shape[i + 1];
      i := i - 1;
    }
  }

  /** The contiguous-stride constructor of `AclTensorCache`, with its storage shape. */
  method ContiguousCache(shape: Shape) returns (strides: array<int>, storage: int)
    ensures fresh(strides) && strides[..] == RowMajor(shape)
    ensures storage == Volume(shape)
  {
    strides := new int[|shape|];
    var stride := 1;
    var i := |shape| - 1;
    assert shape[|shape|..] == [];
    while i >= 0
      invariant -1 <= i < |shape|
      invariant stride == Volume(shape[i + 1..])
      invariant forall k :: i < k < |shape| ==> strides[k] == Volume(shape[k + 1..])
    {
      VolumeHead(shape, i);
      strides[i] := stride;
      stride := stride * shape[i];
      i := i - 1;
    }
    assert shape[0..] == shape;
    storage := stride;
  }

  /** The test on dimension `i` made by `Tensor::IsMergeable`. */
  predicate MergesWithNext(shape: Shape, strides: Strides, i: nat)
    requires |shape| == |strides| && i + 1 < |shape|
  {
    !(shape[i] == 1 && strides[i] == 0) && strides[i] == shape[i + 1] * strides[i + 1]
  }

  predicate Mergeable(shape: Shape, strides: Strides, dimStart: nat, dimEnd: nat)
    requires |shape| == |strides| && dimEnd < |shape|
  {
    forall i: nat :: dimStart <= i < dimEnd ==> MergesWithNext(shape, strides, i)
  }

  method IsMergeable(shape: Shape, strides: Strides, dimStart: nat, dimEnd: nat) returns (r: bool)
    requires |shape| == |strides| && dimStart <= dimEnd < |shape|
    ensures r <==> Mergeable(shape, strides, dimStart, dimEnd)
  {
    if dimStart == dimEnd {
      return true;
    }
    for i := dimStart to dimEnd
      invariant forall k :: dimStart <= k < i ==> MergesWithNext(shape, strides, k)
    {
      if shape[i] == 1 && strides[i] == 0 {
        assert !MergesWithNext(shape, strides, i);
        return false;
      }
      if strides[i] != shape[i + 1] * strides[i + 1] {
        assert !MergesWithNext(shape, strides, i);
        return false;
      }
    }
    return true;
  }

  /** A size-1 dimension, other than the last, whose stride is zero. */
  predicate HasFrozenUnitDim(shape: Shape, strides: Strides)
    requires |shape| == |strides|
  {
    exists i :: 0 <= i < |shape| - 1 && shape[i] == 1 && strides[i] == 0
  }

  /** `Tensor::IsContiguous`, characterised on every shape, zero sizes included. */
  method IsContiguous(shape: Shape, strides: Strides) returns (r: bool)
    requires |shape| == |strides|
    ensures r <==> strides == RowMajor(shape) && !HasFrozenUnitDim(shape, strides)
    ensures Positive(shape) ==> (r <==> strides == RowMajor(shape))
  {
    if |shape| == 0 {
      return true;
    }
    var mergeable := IsMergeable(shape, strides, 0, |shape| - 1);
    ContiguityCharacterised(shape, strides);
    if !mergeable {
      return false;
    }
    return strides[|shape| - 1] == 1;
  }

  lemma VolumeOfNone()
    ensures Volume([]) == 1
  {
  }

  lemma ContiguityCharacterised(shape: Shape, strides: Strides)
    requires |shape| == |strides| && shape != []
    ensures Mergeable(shape, strides, 0, |shape| - 1) && Last(strides) == 1
       <==> strides == RowMajor(shape) && !HasFrozenUnitDim(shape, strides)
    ensures Positive(shape) && strides == RowMajor(shape) ==> !HasFrozenUnitDim(shape, strides)
  {
    hide Volume;
    var n := |shape|;
    VolumeOfNone();
    assert shape[n..] == [];
    if Mergeable(shape, strides, 0, n - 1) && Last(strides) == 1 {
      RecurrenceIsRowMajor(shape, strides, 0);
      assert strides == RowMajor(shape);
      forall i | 0 <= i < n - 1 ensures !(shape[i] == 1 && strides[i] == 0) {
        assert MergesWithNext(shape, strides, i);
      }
    }
    if strides == RowMajor(shape) && !HasFrozenUnitDim(shape, strides) {
      assert Last(strides) == Volume([]);
      forall i: nat | i < n - 1 ensures MergesWithNext(shape, strides, i) {
        VolumeHead(shape, i + 1);
      }
    }
    if Positive(shape) && strides == RowMajor(shape) {
      forall i | 0 <= i < n - 1 ensures strides[i] != 0 {
        VolumePositive(shape[i + 1..]);
      }
    }
  }

  lemma {:induction false} RecurrenceIsRowMajor(shape: Shape, strides: Strides, from: nat)
    requires |shape| == |strides| && from < |shape| && Last(strides) == 1
    requires Mergeable(shape, strides, 0, |shape| - 1)
    ensures forall k :: from <= k < |shape| ==> strides[k] == Volume(shape[k + 1..])
    decreases |shape| - from
  {
    if from + 1 == |shape| {
      assert shape[from + 1..] == [];
    } else {
      RecurrenceIsRowMajor(shape, strides, from + 1);
      assert MergesWithNext(shape, strides, from);
      VolumeHead(shape, from + 1);
    }
  }

  /** With a zero size the documented reading of contiguity fails: default strides are rejected. */
  lemma EmptyTensorNotContiguous()
    ensures RowMajor([1, 0]) == [0, 1]
    ensures HasFrozenUnitDim([1, 0], RowMajor([1, 0]))
  {
    assert [1, 0][1..] == [0] && [1, 0][2..] == [];
    assert Init([0]) == [];
    assert Volume([0]) == Volume([]) * 0;
    var s := RowMajor([1, 0]);
    assert s[0] == 0 && s[1] == 1;
  }

  lemma {:induction false} DotScaled(c: Coords, strides: Strides, k: int)
    requires |c| == |strides|
    ensures Dot(c, Scaled(strides, k)) == Dot(c, strides) * k
  {
    if c != [] {
      assert Init(Scaled(strides, k)) == Scaled(Init(strides), k);
      DotScaled(Init(c), Init(strides), k);
      var x, y, z := Dot(Init(c), Init(strides)), Last(c), Last(strides);
      assert (x + y * z) * k == x * k + y * (z * k);
    }
  }

  function Scaled(strides: Strides, k: int): (r: Strides)
    ensures |r| == |strides|
  {
    seq(|strides|, i requires 0 <= i < |strides| => strides[i] * k)
  }

  /** Row-major strides turn the rank of a tuple into its offset. */
  lemma {:induction false} RowMajorDot(c: Coords, shape: Shape)
    requires |c| == |shape|
    ensures Dot(c, RowMajor(shape)) == Flatten(c, shape)
  {
    if c != [] {
      RowMajorDot(Init(c), Init(shape));
      RowMajorInit(shape);
      DotScaled(Init(c), RowMajor(Init(shape)), Last(shape));
    }
  }

  lemma RowMajorInit(shape: Shape)
    requires shape != []
    ensures Init(RowMajor(shape)) == Scaled(RowMajor(Init(shape)), Last(shape)) && Last(RowMajor(shape)) == 1
  {
    forall k | 0 <= k < |shape| - 1
      ensures Init(RowMajor(shape))[k] == Scaled(RowMajor(Init(shape)), Last(shape))[k]
    {
      assert Init(shape[k + 1..]) == Init(shape)[k + 1..];
    }
    assert shape[|shape|..] == [];
  }

  /** The fast path refines the slow one: on a contiguous tensor decoding is the identity. */
  lemma ContiguousOffset(i: nat, shape: Shape)
    requires Positive(shape) && i < Volume(shape)
    ensures Offset(i, shape, RowMajor(shape)) == i
  {
    RowMajorDot(Decode(i, shape), shape);
    FlattenDecode(i, shape);
  }

  // ---------------------------------------------------------------------------
  // Broadcast detection
  // ---------------------------------------------------------------------------

  predicate BroadcastAt(shape: Shape, strides: Strides, k: nat)
    requires |shape| == |strides| && k < |shape|
  {
    shape[k] != 1 && strides[k] == 0
  }

  /** Two elements that differ in coordinate `k` alone. */
  predicate ApartAt(x: Coords, y: Coords, k: nat) {
    |x| == |y| && k < |x| && x[k] != y[k] && forall d :: 0 <= d < |x| && d != k ==> x[d] == y[d]
  }

  /** Moving along one dimension moves the offset by its stride. */
  lemma {:induction false} DotApart(x: Coords, y: Coords, strides: Strides, k: nat)
    requires |x| == |strides| && ApartAt(x, y, k)
    ensures Dot(x, strides) - Dot(y, strides) == (x[k] - y[k]) * strides[k]
    decreases |x|
  {
    if k == |x| - 1 {
      assert Init(x) == Init(y);
      assert x[k] * strides[k] - y[k] * strides[k] == (x[k] - y[k]) * strides[k];
    } else {
      DotApart(Init(x), Init(y), Init(strides), k);
    }
  }

  lemma ZeroProduct(a: int, b: int)
    requires a != 0
    ensures a * b == 0 <==> b == 0
  {
  }

  /** What a broadcast dimension is: one along which there are different elements, all in one cell. */
  lemma BroadcastSharesCells(shape: Shape, strides: Strides, k: nat)
    requires |shape| == |strides| && k < |shape| && Positive(shape)
    ensures BroadcastAt(shape, strides, k) <==>
      exists x, y :: InBounds(x, shape) && InBounds(y, shape) && ApartAt(x, y, k) && Dot(x, strides) == Dot(y, strides)
    ensures BroadcastAt(shape, strides, k) ==>
      forall x, y :: InBounds(x, shape) && InBounds(y, shape) && ApartAt(x, y, k) ==> Dot(x, strides) == Dot(y, strides)
  {
    forall x, y | InBounds(x, shape) && InBounds(y, shape) && ApartAt(x, y, k)
      ensures shape[k] != 1 && (Dot(x, strides) == Dot(y, strides) <==> strides[k] == 0)
    {
      DotApart(x, y, strides, k);
      ZeroProduct(x[k] - y[k], strides[k]);
    }
    if BroadcastAt(shape, strides, k) {
      var x := seq(|shape|, d => 0);
      var y := x[k := 1];
      assert InBounds(x, shape) && InBounds(y, shape) && ApartAt(x, y, k);
    }
  }

  predicate AnyBroadcast(shape: Shape, strides: Strides)
    requires |shape| == |strides|
  {
    exists k: nat :: k < |shape| && BroadcastAt(shape, strides, k)
  }

  /** A broadcast dimension with no size-1 dimension before it. */
  predicate BroadcastBeforeUnit(shape: Shape, strides: Strides)
    requires |shape| == |strides|
  {
    exists k: nat :: k < |shape| && BroadcastAt(shape, strides, k) && 1 !in shape[..k]
  }

  /** `Tensor::HasBroadcastDim`. The counter `i` moves only when the size at `i` is not 1, so the
      scan never looks past the first size-1 dimension. */
  method HasBroadcastDim(shape: Shape, strides: Strides) returns (r: bool)
    requires |shape| == |strides|
    ensures r <==> BroadcastBeforeUnit(shape, strides)
  {
    var i := 0;
    for step := 0 to |shape|
      invariant i <= step
      invariant 1 !in shape[..i]
      invariant i == step || shape[i] == 1
      invariant forall k: nat :: k < i ==> !BroadcastAt(shape, strides, k)
    {
      if shape[i] != 1 {
        var hit := strides[i] == 0;
        if hit {
          assert BroadcastAt(shape, strides, i);
          return true;
        }
        assert shape[..i + 1] == shape[..i] + [shape[i]];
        i := i + 1;
      }
    }
    forall k: nat | k < |shape| && BroadcastAt(shape, strides, k)
      ensures 1 in shape[..k]
    {
      assert i < |shape|;
      assert shape[..k][i] == 1;
    }
    return false;
  }

  /** Some size-1 dimension has no broadcast dimension before it. */
  predicate UnitComesFirst(shape: Shape, strides: Strides)
    requires |shape| == |strides|
  {
    exists u: nat :: u < |shape| && shape[u] == 1 && forall k: nat :: k < u ==> !BroadcastAt(shape, strides, k)
  }

  /** A size-1 dimension hides the broadcast dimension after it. */
  lemma HiddenBroadcast()
    ensures AnyBroadcast([1, 2], [1, 0]) && !BroadcastBeforeUnit([1, 2], [1, 0])
  {
    var shape: Shape, strides := [1, 2], [1, 0];
    assert BroadcastAt(shape, strides, 1);
    forall k: nat | k < 2 && BroadcastAt(shape, strides, k) ensures 1 in shape[..k] {
      assert shape[..k][0] == 1;
    }
  }

  /** The scan answers the question its name asks exactly when the tensor has no broadcast
      dimension or some broadcast dimension comes before every size-1 dimension. */
  lemma BroadcastScanExact(shape: Shape, strides: Strides)
    requires |shape| == |strides|
    ensures (BroadcastBeforeUnit(shape, strides) <==> AnyBroadcast(shape, strides))
       <==> (AnyBroadcast(shape, strides) ==> !UnitComesFirst(shape, strides))
  {
    if UnitComesFirst(shape, strides) {
      var u: nat :| u < |shape| && shape[u] == 1 && forall k: nat :: k < u ==> !BroadcastAt(shape, strides, k);
      forall k: nat | k < |shape| && BroadcastAt(shape, strides, k) ensures 1 in shape[..k] {
        assert k != u;
        assert shape[..k][u] == 1;
      }
    } else if AnyBroadcast(shape, strides) {
      var k := FirstBroadcast(shape, strides, 0);
      forall u: nat | u < k ensures shape[u] != 1 {
      }
    }
  }

  lemma {:induction false} FirstBroadcast(shape: Shape, strides: Strides, from: nat) returns (k: nat)
    requires |shape| == |strides| && AnyBroadcast(shape, strides) && from <= |shape|
    requires forall j: nat :: j < from ==> !BroadcastAt(shape, strides, j)
    ensures k < |shape| && BroadcastAt(shape, strides, k)
    ensures forall j: nat :: j < k ==> !BroadcastAt(shape, strides, j)
    decreases |shape| - from
  {
    if from < |shape| && BroadcastAt(shape, strides, from) {
      k := from;
    } else {
      k := FirstBroadcast(shape, strides, from + 1);
    }
  }

  // ---------------------------------------------------------------------------
  // Storage of a strided view
  // ---------------------------------------------------------------------------

  /** One past the largest offset a view of positive sizes reaches. */
  function Extent(shape: Shape, strides: Strides): int
    requires |shape| == |strides|
  {
    if shape == [] then 1
    else
      Extent(Init(shape), Init(strides))
      + if Last(strides) > 0 && Last(shape) > 1 then (Last(shape) - 1) * Last(strides) else 0
  }

  function SwapLastTwo<T>(s: seq<T>): (r: seq<T>)
    ensures |r| == |s|
  {
    if |s| >= 2 then s[..|s| - 2] + [s[|s| - 1], s[|s| - 2]] else s
  }

  lemma ExtentStep(shape: Shape, strides: Strides, i: nat)
    requires |shape| == |strides| && i < |shape|
    ensures Extent(shape[..i + 1], strides[..i + 1])
         == Extent(shape[..i], strides[..i]) + if strides[i] > 0 && shape[i] > 1 then (shape[i] - 1) * strides[i] else 0
  {
    assert Init(shape[..i + 1]) == shape[..i] && Init(strides[..i + 1]) == strides[..i];
  }

  /** The storage size computed by `BuildAclTensor` and by `AclTensorCache`. */
  method StorageElems(shape: Shape, strides: Strides, transposeLast2: bool) returns (storage: int)
    requires |shape| == |strides|
    ensures storage == if Positive(shape) then Extent(shape, strides) else 0
  {
    var sh, st := shape, strides;
    if transposeLast2 && |shape| >= 2 {
      sh, st := SwapLastTwo(shape), SwapLastTwo(strides);
      ExtentSwap(shape, strides);
    }
    storage := 1;
    var zero := false;
    for i := 0 to |sh|
      invariant !zero && Positive(sh[..i])
      invariant storage == Extent(sh[..i], st[..i])
    {
      if sh[i] == 0 {
        storage := 0;
        zero := true;
        break;
      }
      ExtentStep(sh, st, i);
      if st[i] > 0 && sh[i] > 1 {
        storage := storage + (sh[i] - 1) * st[i];
      }
    }
    if zero {
      assert !Positive(sh);
    } else {
      assert sh[..|sh|] == sh && st[..|st|] == st;
    }
  }

  /** Transposing the last two dimensions changes neither the storage nor its emptiness. */
  lemma ExtentSwap(shape: Shape, strides: Strides)
    requires |shape| == |strides| >= 2
    ensures Extent(SwapLastTwo(shape), SwapLastTwo(strides)) == Extent(shape, strides)
    ensures Positive(SwapLastTwo(shape)) <==> Positive(shape)
  {
    var n := |shape|;
    var sh, st := SwapLastTwo(shape), SwapLastTwo(strides);
    assert Init(Init(sh)) == Init(Init(shape)) && Init(Init(st)) == Init(Init(strides));
    assert Last(sh) == shape[n - 2] && Last(st) == strides[n - 2];
    assert Last(Init(sh)) == shape[n - 1] && Last(Init(st)) == strides[n - 1];
    assert Last(Init(shape)) == shape[n - 2] && Last(Init(strides)) == strides[n - 2];
    assert forall k :: 0 <= k < n ==> sh[k] == if k == n - 1 then shape[n - 2] else if k == n - 2 then shape[n - 1] else shape[k];
    if Positive(sh) {
      forall k | 0 <= k < n ensures shape[k] > 0 {
        assert sh[if k == n - 1 then n - 2 else if k == n - 2 then n - 1 else k] > 0;
      }
    }
  }

  /** The tuple of largest offset: the end of every rising dimension, the start of the others. */
  function Farthest(shape: Shape, strides: Strides): (c: Coords)
    requires |shape| == |strides| && Positive(shape)
    ensures InBounds(c, shape)
  {
    seq(|shape|, k requires 0 <= k < |shape| => if strides[k] > 0 then shape[k] - 1 else 0)
  }

  lemma TermBound(x: nat, n: nat, s: int)
    requires x < n
    ensures x * s <= if s > 0 && n > 1 then (n - 1) * s else 0
  {
    if s > 0 {
      MulLe(x, n - 1, s);
    } else {
      MulLe(0, -s, x);
      assert x * s == -((-s) * x);
    }
  }

  lemma {:induction false} DotBelowExtent(c: Coords, shape: Shape, strides: Strides)
    requires |shape| == |strides| && InBounds(c, shape)
    ensures Positive(shape)
    ensures Dot(c, strides) <= Extent(shape, strides) - 1
    ensures Dot(Farthest(shape, strides), strides) == Extent(shape, strides) - 1
  {
    assert Positive(shape);
    if shape != [] {
      DotBelowExtent(Init(c), Init(shape), Init(strides));
      TermBound(Last(c), Last(shape), Last(strides));
      assert Init(Farthest(shape, strides)) == Farthest(Init(shape), Init(strides));
    }
  }

  /** For strides of any sign the storage size less one is the largest offset the view reaches,
      and some element reaches it. */
  lemma StorageIsTight(shape: Shape, strides: Strides)
    requires |shape| == |strides| && Positive(shape)
    ensures forall i: nat :: i < Volume(shape) ==> Offset(i, shape, strides) < Extent(shape, strides)
    ensures exists i: nat :: i < Volume(shape) && Offset(i, shape, strides) == Extent(shape, strides) - 1
  {
    forall i: nat | i < Volume(shape)
      ensures Offset(i, shape, strides) < Extent(shape, strides)
    {
      DecodeInBounds(i, shape);
      DotBelowExtent(Decode(i, shape), shape, strides);
    }
    var far := Farthest(shape, strides);
    DotBelowExtent(far, shape, strides);
    DecodeFlatten(far, shape);
    assert Offset(Flatten(far, shape), shape, strides) == Extent(shape, strides) - 1;
  }

  /** The buffer of that size, starting at the data pointer, holds every element exactly when no
      dimension of two or more elements runs backwards. */
  lemma StorageCoversView(shape: Shape, strides: Strides)
    requires |shape| == |strides| && Positive(shape)
    ensures (forall i: nat :: i < Volume(shape) ==> 0 <= Offset(i, shape, strides) < Extent(shape, strides))
       <==> (forall k :: 0 <= k < |shape| && shape[k] > 1 ==> strides[k] >= 0)
  {
    StorageIsTight(shape, strides);
    if forall k :: 0 <= k < |shape| && shape[k] > 1 ==> strides[k] >= 0 {
      forall i: nat | i < Volume(shape) ensures 0 <= Offset(i, shape, strides) {
        DecodeInBounds(i, shape);
        DotNonNegative(Decode(i, shape), shape, strides);
      }
    } else {
      var k :| 0 <= k < |shape| && shape[k] > 1 && strides[k] < 0;
      var c := Unit(|shape|, k);
      assert InBounds(c, shape);
      DotUnit(|shape|, k, strides);
      DecodeFlatten(c, shape);
      assert Offset(Flatten(c, shape), shape, strides) < 0;
    }
  }

  lemma {:induction false} DotNonNegative(c: Coords, shape: Shape, strides: Strides)
    requires |shape| == |strides| && InBounds(c, shape)
    requires forall k :: 0 <= k < |shape| && shape[k] > 1 ==> strides[k] >= 0
    ensures Dot(c, strides) >= 0
  {
    if c != [] {
      DotNonNegative(Init(c), Init(shape), Init(strides));
      if Last(shape) > 1 {
        MulNonNeg(Last(c), Last(strides));
      } else {
        assert Last(c) == 0;
      }
    }
  }

  /** The tuple with a single 1, at position `k`. */
  function Unit(n: nat, k: nat): (c: Coords)
    ensures |c| == n
  {
    seq(n, j => if j == k then 1 else 0)
  }

  lemma {:induction false} DotUnit(n: nat, k: nat, strides: Strides)
    requires |strides| == n
    ensures Dot(Unit(n, k), strides) == if k < n then strides[k] else 0
  {
    if n > 0 {
      assert Init(Unit(n, k)) == Unit(n - 1, k);
      DotUnit(n - 1, k, Init(strides));
    }
  }

  // ---------------------------------------------------------------------------
  // Non-overlapping views
  // ---------------------------------------------------------------------------

  /** The largest distance two elements can be apart. */
  function Reach(shape: Shape, strides: Strides): (r: nat)
    requires |shape| == |strides| && Positive(shape)
  {
    if shape == [] then 0
    else
      MulNonNeg(Last(shape) - 1, Abs(Last(strides)));
      Reach(Init(shape), Init(strides)) + (Last(shape) - 1) * Abs(Last(strides))
  }

  /** Every stride (of a dimension of at least two elements) clears all later dimensions. */
  predicate Nested(shape: Shape, strides: Strides)
    requires |shape| == |strides| && Positive(shape)
  {
    forall k :: 0 <= k < |shape| && shape[k] > 1 ==> Abs(strides[k]) > Reach(shape[k + 1..], strides[k + 1..])
  }

  lemma TermGap(x: nat, y: nat, n: nat, s: int)
    requires x < n && y < n
    ensures Abs(x * s - y * s) <= (n - 1) * Abs(s)
  {
    var e: int := x as int - y;
    assert x * s - y * s == e * s;
    AbsMul(e, s);
    MulLe(Abs(e), n - 1, Abs(s));
  }

  lemma {:induction false} DotGap(c: Coords, d: Coords, shape: Shape, strides: Strides)
    requires |shape| == |strides| && Positive(shape) && InBounds(c, shape) && InBounds(d, shape)
    ensures Abs(Dot(c, strides) - Dot(d, strides)) <= Reach(shape, strides)
  {
    if c != [] {
      DotGap(Init(c), Init(d), Init(shape), Init(strides));
      TermGap(Last(c), Last(d), Last(shape), Last(strides));
    }
  }

  lemma NestedTail(shape: Shape, strides: Strides)
    requires |shape| == |strides| && shape != [] && Positive(shape) && Nested(shape, strides)
    ensures Positive(shape[1..]) && Nested(shape[1..], strides[1..])
  {
    var sh, st := shape[1..], strides[1..];
    forall k | 0 <= k < |sh| && sh[k] > 1
      ensures Abs(st[k]) > Reach(sh[k + 1..], st[k + 1..])
    {
      assert sh[k + 1..] == shape[k + 2..] && st[k + 1..] == strides[k + 2..];
      assert shape[k + 1] == sh[k];
    }
  }

  /** Equal offsets of a nested view agree in the first coordinate and in the rest of the offset. */
  lemma NestedHead(c: Coords, d: Coords, shape: Shape, strides: Strides)
    requires |shape| == |strides| && shape != [] && Positive(shape) && Nested(shape, strides)
    requires InBounds(c, shape) && InBounds(d, shape) && Dot(c, strides) == Dot(d, strides)
    ensures c[0] == d[0] && Dot(c[1..], strides[1..]) == Dot(d[1..], strides[1..])
  {
    hide Dot, Reach;
    DotHead(c, strides);
    DotHead(d, strides);
    DotGap(c[1..], d[1..], shape[1..], strides[1..]);
    HeadForced(c[0], d[0], shape[0], strides[0], Dot(c[1..], strides[1..]), Dot(d[1..], strides[1..]),
      Reach(shape[1..], strides[1..]));
  }

  lemma {:induction false} NestedDotInjective(c: Coords, d: Coords, shape: Shape, strides: Strides)
    requires |shape| == |strides| && Positive(shape) && Nested(shape, strides)
    requires InBounds(c, shape) && InBounds(d, shape) && Dot(c, strides) == Dot(d, strides)
    ensures c == d
    decreases |shape|
  {
    if shape != [] {
      NestedHead(c, d, shape, strides);
      NestedTail(shape, strides);
      NestedDotInjective(c[1..], d[1..], shape[1..], strides[1..]);
      assert c == [c[0]] + c[1..] && d == [d[0]] + d[1..];
    }
  }

  /** `order` lists every dimension below `n` once. */
  predicate IsOrder(order: seq<nat>, n: nat) {
    && |order| == n
    && (forall k :: 0 <= k < n ==> order[k] < n)
    && (forall j, k :: 0 <= j < k < n ==> order[j] != order[k])
    && (forall d: nat :: d < n ==> d in order)
  }

  function Permuted<T>(s: seq<T>, order: seq<nat>): (r: seq<T>)
    requires forall k :: 0 <= k < |order| ==> order[k] < |s|
    ensures |r| == |order|
  {
    seq(|order|, k requires 0 <= k < |order| => s[order[k]])
  }

  /** Offsets do not depend on the order in which dimensions are listed. */
  lemma {:induction false} DotPermuted(c: Coords, strides: Strides, order: seq<nat>)
    requires |c| == |strides| && IsOrder(order, |c|)
    ensures Dot(Permuted(c, order), Permuted(strides, order)) == Dot(c, strides)
    decreases |c|
  {
    if c != [] {
      var m := LastPosition(order, |c|);
      var rest := order[..m] + order[m + 1..];
      OrderWithoutLast(order, |c|, m);
      DotPermuted(Init(c), Init(strides), rest);
      DotPermutedStep(c, strides, order, m);
    }
  }

  lemma LastPosition(order: seq<nat>, n: nat) returns (m: nat)
    requires IsOrder(order, n) && n > 0
    ensures m < n && order[m] == n - 1
  {
    assert n - 1 in order;
    m :| 0 <= m < n && order[m] == n - 1;
  }

  lemma DotPermutedStep(c: Coords, strides: Strides, order: seq<nat>, m: nat)
    requires c != [] && |c| == |strides| && IsOrder(order, |c|) && m < |c| && order[m] == |c| - 1
    requires IsOrder(order[..m] + order[m + 1..], |c| - 1)
    ensures Dot(Permuted(c, order), Permuted(strides, order))
         == Dot(Permuted(Init(c), order[..m] + order[m + 1..]), Permuted(Init(strides), order[..m] + order[m + 1..]))
            + Last(c) * Last(strides)
  {
    PermutedWithout(c, order, m);
    PermutedWithout(strides, order, m);
    DotWithout(Permuted(c, order), Permuted(strides, order), m);
  }

  lemma OrderWithoutLast(order: seq<nat>, n: nat, m: nat)
    requires IsOrder(order, n) && m < n && order[m] == n - 1
    ensures IsOrder(order[..m] + order[m + 1..], n - 1)
  {
    var rest := order[..m] + order[m + 1..];
    assert forall k :: 0 <= k < n - 1 ==> rest[k] == order[if k < m then k else k + 1];
    forall d: nat | d < n - 1 ensures d in rest {
      assert d in order;
      var k :| 0 <= k < n && order[k] == d;
      assert rest[if k < m then k else k - 1] == d;
    }
  }

  /** Leaving out position `m` of the order leaves out that element of the permuted sequence. */
  lemma PermutedWithout<T>(s: seq<T>, order: seq<nat>, m: nat)
    requires s != [] && IsOrder(order, |s|) && m < |s| && order[m] == |s| - 1
    requires IsOrder(order[..m] + order[m + 1..], |s| - 1)
    ensures Permuted(Init(s), order[..m] + order[m + 1..]) == Permuted(s, order)[..m] + Permuted(s, order)[m + 1..]
  {
    var rest := order[..m] + order[m + 1..];
    assert forall k :: 0 <= k < |rest| ==> rest[k] == order[if k < m then k else k + 1];
  }

  /** No two elements of the view share a cell. */
  predicate Injective(shape: Shape, strides: Strides)
    requires |shape| == |strides| && Positive(shape)
  {
    forall i: nat, j: nat :: i < Volume(shape) && j < Volume(shape) && i != j
      ==> Offset(i, shape, strides) != Offset(j, shape, strides)
  }

  /** Strides nested in some order of the dimensions (so also any transposed view of such a
      tensor) address every element at its own cell. */
  lemma NestedInjective(shape: Shape, strides: Strides, order: seq<nat>)
    requires |shape| == |strides| && Positive(shape) && IsOrder(order, |shape|)
    requires Positive(Permuted(shape, order)) && Nested(Permuted(shape, order), Permuted(strides, order))
    ensures Injective(shape, strides)
  {
    forall i: nat, j: nat | i < Volume(shape) && j < Volume(shape) && i != j
      ensures Offset(i, shape, strides) != Offset(j, shape, strides)
    {
      if Offset(i, shape, strides) == Offset(j, shape, strides) {
        DecodeInBounds(i, shape);
        DecodeInBounds(j, shape);
        SameOffsetSameCoords(Decode(i, shape), Decode(j, shape), shape, strides, order);
        FlattenDecode(i, shape);
        FlattenDecode(j, shape);
      }
    }
  }

  lemma SameOffsetSameCoords(c: Coords, d: Coords, shape: Shape, strides: Strides, order: seq<nat>)
    requires |shape| == |strides| && Positive(shape) && IsOrder(order, |shape|)
    requires Positive(Permuted(shape, order)) && Nested(Permuted(shape, order), Permuted(strides, order))
    requires InBounds(c, shape) && InBounds(d, shape) && Dot(c, strides) == Dot(d, strides)
    ensures c == d
  {
    DotPermuted(c, strides, order);
    DotPermuted(d, strides, order);
    NestedDotInjective(Permuted(c, order), Permuted(d, order), Permuted(shape, order), Permuted(strides, order));
    forall k | 0 <= k < |c| ensures c[k] == d[k] {
      assert k in order;
      var p :| 0 <= p < |order| && order[p] == k;
      assert Permuted(c, order)[p] == Permuted(d, order)[p];
    }
  }

  // ---------------------------------------------------------------------------
  // Views of a memory
  // ---------------------------------------------------------------------------

  /** A tensor's data pointer, as a cell number, and its strides. */
  datatype View = View(base: int, strides: Strides)

  /** Every element of the view lies in a memory of `size` cells. */
  predicate Fits(v: View, shape: Shape, size: nat) {
    && |v.strides| == |shape|
    && (Positive(shape) ==> forall i: nat :: i < Volume(shape) ==> 0 <= v.base + Offset(i, shape, v.strides) < size)
  }

  /** The memory cell of every element, in flat order. */
  function Cells(v: View, shape: Shape, size: nat): (cells: seq<nat>)
    requires Fits(v, shape, size)
    ensures |cells| == Volume(shape)
    ensures forall i :: 0 <= i < |cells| ==> cells[i] < size
  {
    VolumePositive(shape);
    if Positive(shape) then
      seq(Volume(shape), i requires 0 <= i < Volume(shape) => v.base + Offset(i, shape, v.strides))
    else []
  }

  lemma CellsAt(v: View, shape: Shape, size: nat, c: Coords)
    requires Fits(v, shape, size) && InBounds(c, shape)
    ensures Flatten(c, shape) < Volume(shape)
    ensures Cells(v, shape, size)[Flatten(c, shape)] == v.base + Dot(c, v.strides)
  {
    DecodeFlatten(c, shape);
  }
}
