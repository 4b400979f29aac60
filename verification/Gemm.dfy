/** Matrix multiplication: what the base class derives from the tensors, and the strided, batched CPU
    loops. Entries are exact reals. */
module Gemm {
  import opened Arithmetic
  import opened Layout
  import opened Options

  /** The last two dimensions and the batch stride of a tensor. */
  datatype Operand = Operand(base: int, rows: nat, cols: nat, rowStride: int, colStride: int, batchStride: int) {
    /** The leading dimension the base class derives. */
    function Ld(): int {
      if rowStride < colStride then colStride else rowStride
    }

    /** The view with the last two sizes and strides exchanged. */
    function Swapped(): Operand {
      Operand(base, cols, rows, colStride, rowStride, batchStride)
    }

    /** The cell of entry (`r`, `c`) of batch `b`. */
    function At(b: nat, r: nat, c: nat): int {
      base + b * batchStride + r * rowStride + c * colStride
    }
  }

  /** A tensor of two or more dimensions. */
  datatype Tensor = Tensor(base: int, shape: Shape, strides: Strides) {
    predicate Valid() {
      |shape| == |strides| >= 2
    }

    /** The cell of the element at `coords`. */
    function CellAt(coords: Coords): int
      requires Valid() && |coords| == |shape|
    {
      base + Dot(coords, strides)
    }
  }

  /** What the base class takes from a tensor; the batch stride is that of dimension -3, if any. */
  function OperandOf(t: Tensor): Operand
    requires t.Valid()
  {
    var n := |t.shape|;
    Operand(t.base, t.shape[n - 2], t.shape[n - 1], t.strides[n - 2], t.strides[n - 1], if n > 2 then t.strides[n - 3] else 0)
  }

  function BatchCount(c: Tensor): nat
    requires c.Valid()
  {
    if |c.shape| > 2 then c.shape[|c.shape| - 3] else 1
  }

  /** The fields of the `Gemm` base class. */
  datatype Fields = Fields(alpha: real, beta: real, transA: bool, transB: bool, m: nat, n: nat, k: nat, batchCount: nat,
                           a: Operand, b: Operand, c: Operand)

  function Construct(a: Operand, b: Operand, alpha: Option<real>, beta: Option<real>, transA: Option<int>,
      transB: Option<int>, c: Operand, batchCount: nat): Fields
  {
    var ta := transA.GetOr(0) != 0;
    Fields(alpha.GetOr(1.0), beta.GetOr(1.0), ta, transB.GetOr(0) != 0, c.rows, c.cols,
           if ta then a.rows else a.cols, batchCount, a, b, c)
  }

  /** The constructor of the base class. */
  function ConstructFrom(a: Tensor, b: Tensor, alpha: Option<real>, beta: Option<real>, transA: Option<int>,
      transB: Option<int>, c: Tensor): Fields
    requires a.Valid() && b.Valid() && c.Valid()
  {
    Construct(OperandOf(a), OperandOf(b), alpha, beta, transA, transB, OperandOf(c), BatchCount(c))
  }

  /** The scalars and flags one call runs with: its own arguments, or the fields. */
  datatype Scalars = Scalars(alpha: real, beta: real, ta: int, tb: int)

  function CallScalars(f: Fields, alpha: Option<real>, beta: Option<real>, transA: Option<int>, transB: Option<int>): Scalars {
    Scalars(alpha.GetOr(f.alpha), beta.GetOr(f.beta), transA.GetOr(if f.transA then 1 else 0),
            transB.GetOr(if f.transB then 1 else 0))
  }

  /** Entry (`i`, `l`) of op(A): any non-zero flag exchanges the strides. */
  function AddrA(f: Fields, s: Scalars, b: nat, i: nat, l: nat): int {
    if s.ta != 0 then f.a.At(b, l, i) else f.a.At(b, i, l)
  }

  function AddrB(f: Fields, s: Scalars, b: nat, l: nat, j: nat): int {
    if s.tb != 0 then f.b.At(b, j, l) else f.b.At(b, l, j)
  }

  /** The operand sizes match the product. The code does not check this; a caller must. */
  predicate ShapesMatch(f: Fields, s: Scalars) {
    && (if s.ta != 0 then f.a.rows == f.k && f.a.cols == f.m else f.a.rows == f.m && f.a.cols == f.k)
    && (if s.tb != 0 then f.b.rows == f.n && f.b.cols == f.k else f.b.rows == f.k && f.b.cols == f.n)
    && f.c.rows == f.m && f.c.cols == f.n
  }

  /** Every entry of the operand lies in a memory of `size` cells. */
  predicate InMemory(o: Operand, batchCount: nat, size: nat) {
    forall b: nat, r: nat, c: nat :: b < batchCount && r < o.rows && c < o.cols ==> 0 <= o.At(b, r, c) < size
  }

  predicate Callable(f: Fields, s: Scalars, sizeA: nat, sizeB: nat, sizeC: nat) {
    ShapesMatch(f, s) && InMemory(f.a, f.batchCount, sizeA) && InMemory(f.b, f.batchCount, sizeB)
    && InMemory(f.c, f.batchCount, sizeC)
  }

  /** No two entries of the operand share a cell. */
  predicate Separate(o: Operand, batchCount: nat) {
    forall b: nat, r: nat, c: nat, b': nat, r': nat, c': nat ::
      (b < batchCount && r < o.rows && c < o.cols && b' < batchCount && r' < o.rows && c' < o.cols
       && o.At(b, r, c) == o.At(b', r', c')) ==> b == b' && r == r' && c == c'
  }

  function SumProducts(xs: seq<real>, ys: seq<real>): real
    requires |xs| == |ys|
  {
    if xs == [] then 0.0 else SumProducts(Init(xs), Init(ys)) + Last(xs) * Last(ys)
  }

  lemma {:induction false} SumProductsCommutes(xs: seq<real>, ys: seq<real>)
    requires |xs| == |ys|
    ensures SumProducts(xs, ys) == SumProducts(ys, xs)
  {
    if xs != [] {
      SumProductsCommutes(Init(xs), Init(ys));
    }
  }

  /** Row `i` of op(A). */
  function RowA(f: Fields, s: Scalars, A: seq<real>, b: nat, i: nat): (row: seq<real>)
    requires ShapesMatch(f, s) && InMemory(f.a, f.batchCount, |A|) && b < f.batchCount && i < f.m
    ensures |row| == f.k
  {
    seq(f.k, l requires 0 <= l < f.k => A[AddrA(f, s, b, i, l)])
  }

  /** Column `j` of op(B). */
  function ColumnB(f: Fields, s: Scalars, B: seq<real>, b: nat, j: nat): (column: seq<real>)
    requires ShapesMatch(f, s) && InMemory(f.b, f.batchCount, |B|) && b < f.batchCount && j < f.n
    ensures |column| == f.k
  {
    seq(f.k, l requires 0 <= l < f.k => B[AddrB(f, s, b, l, j)])
  }

  function Combine(alpha: real, product: real, beta: real, old': real): real {
    alpha * product + beta * old'
  }

  /** The new value of C(b, i, j). */
  function Entry(f: Fields, s: Scalars, A: seq<real>, B: seq<real>, before: seq<real>, b: nat, i: nat, j: nat): real
    requires Callable(f, s, |A|, |B|, |before|) && b < f.batchCount && i < f.m && j < f.n
  {
    Combine(s.alpha, SumProducts(RowA(f, s, A, b, i), ColumnB(f, s, B, b, j)), s.beta, before[f.c.At(b, i, j)])
  }

  predicate Addresses(o: Operand, batchCount: nat, p: int) {
    exists b: nat, r: nat, c: nat :: b < batchCount && r < o.rows && c < o.cols && o.At(b, r, c) == p
  }

  /** C holds alpha op(A) op(B) + beta C, and every cell outside C is untouched. */
  predicate IsGemm(f: Fields, s: Scalars, A: seq<real>, B: seq<real>, before: seq<real>, after: seq<real>)
    requires Callable(f, s, |A|, |B|, |before|)
  {
    && |after| == |before|
    && (forall b: nat, i: nat, j: nat :: b < f.batchCount && i < f.m && j < f.n ==>
          after[f.c.At(b, i, j)] == Entry(f, s, A, B, before, b, i, j))
    && (forall p :: 0 <= p < |before| && !Addresses(f.c, f.batchCount, p) ==> after[p] == before[p])
  }

  // ---------------------------------------------------------------------------
  // The CPU loops
  // ---------------------------------------------------------------------------

  /** (b, i, j) comes before (b0, i0, j0) in the order of the loops. */
  predicate Earlier(b: nat, i: nat, j: nat, b0: nat, i0: nat, j0: nat) {
    b < b0 || (b == b0 && (i < i0 || (i == i0 && j < j0)))
  }

  predicate AddressesEarlier(f: Fields, p: int, b0: nat, i0: nat, j0: nat) {
    exists b: nat, i: nat, j: nat :: b < f.batchCount && i < f.m && j < f.n && Earlier(b, i, j, b0, i0, j0)
      && f.c.At(b, i, j) == p
  }

  /** The memory of C when the loops reach (b0, i0, j0). */
  predicate Progress(f: Fields, s: Scalars, A: seq<real>, B: seq<real>, before: seq<real>, now: seq<real>,
      b0: nat, i0: nat, j0: nat)
    requires Callable(f, s, |A|, |B|, |before|)
  {
    && |now| == |before|
    && (forall b: nat, i: nat, j: nat :: b < f.batchCount && i < f.m && j < f.n && Earlier(b, i, j, b0, i0, j0) ==>
          now[f.c.At(b, i, j)] == Entry(f, s, A, B, before, b, i, j))
    && (forall p :: 0 <= p < |before| && !AddressesEarlier(f, p, b0, i0, j0) ==> now[p] == before[p])
  }

  lemma AddressesMove(f: Fields, p: int, b0: nat, i0: nat, j0: nat, b1: nat, i1: nat, j1: nat)
    requires forall b: nat, i: nat, j: nat :: b < f.batchCount && i < f.m && j < f.n && Earlier(b, i, j, b0, i0, j0)
               ==> Earlier(b, i, j, b1, i1, j1)
    ensures AddressesEarlier(f, p, b0, i0, j0) ==> AddressesEarlier(f, p, b1, i1, j1)
  {
  }

  lemma ProgressStep(f: Fields, s: Scalars, A: seq<real>, B: seq<real>, before: seq<real>, now: seq<real>,
      b0: nat, i0: nat, j0: nat)
    requires Callable(f, s, |A|, |B|, |before|) && Separate(f.c, f.batchCount)
    requires b0 < f.batchCount && i0 < f.m && j0 < f.n && Progress(f, s, A, B, before, now, b0, i0, j0)
    ensures now[f.c.At(b0, i0, j0)] == before[f.c.At(b0, i0, j0)]
    ensures Progress(f, s, A, B, before, now[f.c.At(b0, i0, j0) := Entry(f, s, A, B, before, b0, i0, j0)], b0, i0, j0 + 1)
  {
    var p0 := f.c.At(b0, i0, j0);
    assert !AddressesEarlier(f, p0, b0, i0, j0);
    var after := now[p0 := Entry(f, s, A, B, before, b0, i0, j0)];
    forall b: nat, i: nat, j: nat | b < f.batchCount && i < f.m && j < f.n && Earlier(b, i, j, b0, i0, j0 + 1)
      ensures after[f.c.At(b, i, j)] == Entry(f, s, A, B, before, b, i, j)
    {
      if !Earlier(b, i, j, b0, i0, j0) {
        assert b == b0 && i == i0 && j == j0;
      }
    }
    forall p | 0 <= p < |before| && !AddressesEarlier(f, p, b0, i0, j0 + 1) ensures after[p] == before[p] {
      assert Earlier(b0, i0, j0, b0, i0, j0 + 1);
      AddressesMove(f, p, b0, i0, j0, b0, i0, j0 + 1);
    }
  }

  /** Moving to a loop position with the same predecessors keeps the progress. */
  lemma ProgressMove(f: Fields, s: Scalars, A: seq<real>, B: seq<real>, before: seq<real>, now: seq<real>,
      b0: nat, i0: nat, j0: nat, b1: nat, i1: nat, j1: nat)
    requires Callable(f, s, |A|, |B|, |before|)
    requires forall b: nat, i: nat, j: nat :: b < f.batchCount && i < f.m && j < f.n ==>
               (Earlier(b, i, j, b0, i0, j0) <==> Earlier(b, i, j, b1, i1, j1))
    requires Progress(f, s, A, B, before, now, b0, i0, j0)
    ensures Progress(f, s, A, B, before, now, b1, i1, j1)
  {
    forall p | 0 <= p < |before| && !AddressesEarlier(f, p, b1, i1, j1) ensures now[p] == before[p] {
      AddressesMove(f, p, b0, i0, j0, b1, i1, j1);
    }
  }

  lemma StridesReachA(f: Fields, s: Scalars, b: nat, i: nat, l: nat)
    ensures AddrA(f, s, b, i, l)
         == f.a.base + b * f.a.batchStride
            + (i * (if s.ta != 0 then f.a.colStride else f.a.rowStride)
               + l * (if s.ta != 0 then f.a.rowStride else f.a.colStride))
  {
  }

  lemma StridesReachB(f: Fields, s: Scalars, b: nat, l: nat, j: nat)
    ensures AddrB(f, s, b, l, j)
         == f.b.base + b * f.b.batchStride
            + (l * (if s.tb != 0 then f.b.colStride else f.b.rowStride)
               + j * (if s.tb != 0 then f.b.rowStride else f.b.colStride))
  {
  }

  lemma NextTerm(row: seq<real>, column: seq<real>, l: nat)
    requires |row| == |column| && l < |row|
    ensures SumProducts(row[..l + 1], column[..l + 1]) == SumProducts(row[..l], column[..l]) + row[l] * column[l]
  {
    assert Init(row[..l + 1]) == row[..l] && Init(column[..l + 1]) == column[..l];
  }

  /** The cells the loop body reads at step `l`, from the strides chosen by the flags. */
  method FactorCells(f: Fields, s: Scalars, b: nat, i: nat, j: nat, l: nat) returns (idxA: int, idxB: int)
    ensures idxA == AddrA(f, s, b, i, l) && idxB == AddrB(f, s, b, l, j)
  {
    var strideAM := if s.ta != 0 then f.a.colStride else f.a.rowStride;
    var strideAK := if s.ta != 0 then f.a.rowStride else f.a.colStride;
    var strideBK := if s.tb != 0 then f.b.colStride else f.b.rowStride;
    var strideBN := if s.tb != 0 then f.b.rowStride else f.b.colStride;
    idxA := f.a.base + b * f.a.batchStride + (i * strideAM + l * strideAK);
    idxB := f.b.base + b * f.b.batchStride + (l * strideBK + j * strideBN);
    StridesReachA(f, s, b, i, l);
    StridesReachB(f, s, b, l, j);
  }

  /** The innermost loop. */
  method SumTerms(A: array<real>, B: array<real>, f: Fields, s: Scalars, b: nat, i: nat, j: nat) returns (sum: real)
    requires ShapesMatch(f, s) && InMemory(f.a, f.batchCount, A.Length) && InMemory(f.b, f.batchCount, B.Length)
    requires b < f.batchCount && i < f.m && j < f.n
    ensures sum == SumProducts(RowA(f, s, A[..], b, i), ColumnB(f, s, B[..], b, j))
  {
    ghost var row, column := RowA(f, s, A[..], b, i), ColumnB(f, s, B[..], b, j);
    sum := 0.0;
    for l := 0 to f.k
      invariant sum == SumProducts(row[..l], column[..l])
    {
      NextTerm(row, column, l);
      var idxA, idxB := FactorCells(f, s, b, i, j, l);
      assert row[l] == A[AddrA(f, s, b, i, l)] && column[l] == B[AddrB(f, s, b, l, j)];
      var aVal, bVal := A[idxA], B[idxB];
      sum := sum + aVal * bVal;
    }
    assert row[..f.k] == row && column[..f.k] == column;
  }

  method UpdateEntry(A: array<real>, B: array<real>, C: array<real>, f: Fields, s: Scalars, b: nat, i: nat, j: nat)
    requires C != A && C != B && Callable(f, s, A.Length, B.Length, C.Length)
    requires b < f.batchCount && i < f.m && j < f.n
    modifies C
    ensures C[..] == old(C[..])[f.c.At(b, i, j) := Entry(f, s, A[..], B[..], old(C[..]), b, i, j)]
  {
    ghost var a, x, before := A[..], B[..], C[..];
    var sum := SumTerms(A, B, f, s, b, i, j);
    var idx := f.c.base + b * f.c.batchStride + (i * f.c.rowStride + j * f.c.colStride);
    assert idx == f.c.At(b, i, j);
    var cVal := if s.beta == 0.0 then 0.0 else C[idx];
    assert s.beta * cVal == s.beta * C[idx];
    assert before[idx] == C[idx];
    assert s.beta * cVal == s.beta * before[idx];
    var value := s.alpha * sum + s.beta * cVal;
    assert value == Entry(f, s, a, x, before, b, i, j);
    C[idx] := value;
    assert A[..] == a && B[..] == x;
    assert C[..] == before[idx := Entry(f, s, a, x, before, b, i, j)];
  }

  method ComputeRow(A: array<real>, B: array<real>, C: array<real>, f: Fields, s: Scalars, b: nat, i: nat,
      ghost before: seq<real>)
    requires C != A && C != B && Callable(f, s, A.Length, B.Length, C.Length) && Separate(f.c, f.batchCount)
    requires |before| == C.Length && b < f.batchCount && i < f.m
    requires Progress(f, s, A[..], B[..], before, C[..], b, i, 0)
    modifies C
    ensures Progress(f, s, A[..], B[..], before, C[..], b, i + 1, 0)
  {
    for j := 0 to f.n
      invariant Progress(f, s, A[..], B[..], before, C[..], b, i, j)
    {
      ProgressStep(f, s, A[..], B[..], before, C[..], b, i, j);
      EntryReadsItsCell(f, s, A[..], B[..], before, C[..], b, i, j);
      UpdateEntry(A, B, C, f, s, b, i, j);
    }
    ProgressMove(f, s, A[..], B[..], before, C[..], b, i, f.n, b, i + 1, 0);
  }

  lemma EntryReadsItsCell(f: Fields, s: Scalars, A: seq<real>, B: seq<real>, before: seq<real>, now: seq<real>,
      b: nat, i: nat, j: nat)
    requires Callable(f, s, |A|, |B|, |before|) && |now| == |before| && b < f.batchCount && i < f.m && j < f.n
    requires now[f.c.At(b, i, j)] == before[f.c.At(b, i, j)]
    ensures Entry(f, s, A, B, now, b, i, j) == Entry(f, s, A, B, before, b, i, j)
  {
  }

  method ComputeBatch(A: array<real>, B: array<real>, C: array<real>, f: Fields, s: Scalars, b: nat,
      ghost before: seq<real>)
    requires C != A && C != B && Callable(f, s, A.Length, B.Length, C.Length) && Separate(f.c, f.batchCount)
    requires |before| == C.Length && b < f.batchCount && Progress(f, s, A[..], B[..], before, C[..], b, 0, 0)
    modifies C
    ensures Progress(f, s, A[..], B[..], before, C[..], b + 1, 0, 0)
  {
    for i := 0 to f.m
      invariant Progress(f, s, A[..], B[..], before, C[..], b, i, 0)
    {
      ComputeRow(A, B, C, f, s, b, i, before);
    }
    ProgressMove(f, s, A[..], B[..], before, C[..], b, f.m, 0, b + 1, 0, 0);
  }

  /** The triple loop over every batch. `C` must not alias the inputs. */
  method Compute(A: array<real>, B: array<real>, C: array<real>, f: Fields, s: Scalars)
    requires C != A && C != B && Callable(f, s, A.Length, B.Length, C.Length) && Separate(f.c, f.batchCount)
    modifies C
    ensures IsGemm(f, s, A[..], B[..], old(C[..]), C[..])
  {
    ghost var before := C[..];
    for b := 0 to f.batchCount
      invariant Progress(f, s, A[..], B[..], before, C[..], b, 0, 0)
    {
      ComputeBatch(A, B, C, f, s, b, before);
    }
    ProgressComplete(f, s, A[..], B[..], before, C[..]);
  }

  lemma ProgressComplete(f: Fields, s: Scalars, A: seq<real>, B: seq<real>, before: seq<real>, now: seq<real>)
    requires Callable(f, s, |A|, |B|, |before|) && Progress(f, s, A, B, before, now, f.batchCount, 0, 0)
    ensures IsGemm(f, s, A, B, before, now)
  {
    forall b: nat, i: nat, j: nat | b < f.batchCount && i < f.m && j < f.n
      ensures now[f.c.At(b, i, j)] == Entry(f, s, A, B, before, b, i, j)
    {
      assert Earlier(b, i, j, f.batchCount, 0, 0);
    }
    forall p | 0 <= p < |before| && !Addresses(f.c, f.batchCount, p) ensures now[p] == before[p] {
      assert !AddressesEarlier(f, p, f.batchCount, 0, 0);
    }
  }

  // ---------------------------------------------------------------------------
  // What an outcome is
  // ---------------------------------------------------------------------------

  /** The part of the product over the terms from `lo` on, `count` of them. */
  function Terms(f: Fields, s: Scalars, lo: nat, count: nat): Fields {
    var a := if s.ta != 0 then f.a.(base := f.a.base + lo * f.a.rowStride, rows := count)
             else f.a.(base := f.a.base + lo * f.a.colStride, cols := count);
    var b := if s.tb != 0 then f.b.(base := f.b.base + lo * f.b.colStride, cols := count)
             else f.b.(base := f.b.base + lo * f.b.rowStride, rows := count);
    f.(k := count, a := a, b := b)
  }

  lemma TermsCells(f: Fields, s: Scalars, lo: nat, count: nat, b: nat, i: nat, j: nat, l: nat)
    ensures AddrA(Terms(f, s, lo, count), s, b, i, l) == AddrA(f, s, b, i, lo + l)
    ensures AddrB(Terms(f, s, lo, count), s, b, l, j) == AddrB(f, s, b, lo + l, j)
  {
    assert lo * f.a.rowStride + l * f.a.rowStride == (lo + l) * f.a.rowStride;
    assert lo * f.a.colStride + l * f.a.colStride == (lo + l) * f.a.colStride;
    assert lo * f.b.rowStride + l * f.b.rowStride == (lo + l) * f.b.rowStride;
    assert lo * f.b.colStride + l * f.b.colStride == (lo + l) * f.b.colStride;
  }

  lemma TermsCallable(f: Fields, s: Scalars, lo: nat, count: nat, sizeA: nat, sizeB: nat, sizeC: nat)
    requires Callable(f, s, sizeA, sizeB, sizeC) && lo + count <= f.k
    ensures Callable(Terms(f, s, lo, count), s, sizeA, sizeB, sizeC)
  {
    var g := Terms(f, s, lo, count);
    forall b: nat, r: nat, c: nat | b < g.batchCount && r < g.a.rows && c < g.a.cols ensures 0 <= g.a.At(b, r, c) < sizeA {
      var i, l := if s.ta != 0 then c else r, if s.ta != 0 then r else c;
      TermsCells(f, s, lo, count, b, i, 0, l);
      assert AddrA(g, s, b, i, l) == g.a.At(b, r, c);
      assert f.a.At(b, if s.ta != 0 then lo + l else i, if s.ta != 0 then i else lo + l) == AddrA(f, s, b, i, lo + l);
    }
    forall b: nat, r: nat, c: nat | b < g.batchCount && r < g.b.rows && c < g.b.cols ensures 0 <= g.b.At(b, r, c) < sizeB {
      var l, j := if s.tb != 0 then c else r, if s.tb != 0 then r else c;
      TermsCells(f, s, lo, count, b, 0, j, l);
      assert AddrB(g, s, b, l, j) == g.b.At(b, r, c);
      assert f.b.At(b, if s.tb != 0 then j else lo + l, if s.tb != 0 then lo + l else j) == AddrB(f, s, b, lo + l, j);
    }
  }

  lemma {:induction false} SumProductsAppend(xs: seq<real>, ys: seq<real>, us: seq<real>, vs: seq<real>)
    requires |xs| == |ys| && |us| == |vs|
    ensures SumProducts(xs + us, ys + vs) == SumProducts(xs, ys) + SumProducts(us, vs)
    decreases |us|
  {
    if us == [] {
      assert xs + us == xs && ys + vs == ys;
    } else {
      SumProductsAppend(xs, ys, Init(us), Init(vs));
      assert Init(xs + us) == xs + Init(us) && Init(ys + vs) == ys + Init(vs);
    }
  }

  lemma TermsKeep(f: Fields, s: Scalars, lo: nat, count: nat)
    ensures var g := Terms(f, s, lo, count);
      g.c == f.c && g.batchCount == f.batchCount && g.m == f.m && g.n == f.n && g.k == count
  {
  }

  lemma CallableParts(f: Fields, s: Scalars, sizeA: nat, sizeB: nat, sizeC: nat)
    requires Callable(f, s, sizeA, sizeB, sizeC)
    ensures ShapesMatch(f, s) && InMemory(f.a, f.batchCount, sizeA) && InMemory(f.b, f.batchCount, sizeB)
  {
  }

  lemma TermsElements(f: Fields, s: Scalars, A: seq<real>, B: seq<real>, sizeC: nat, lo: nat, count: nat,
      b: nat, i: nat, j: nat, l: nat)
    requires Callable(f, s, |A|, |B|, sizeC) && Callable(Terms(f, s, lo, count), s, |A|, |B|, sizeC)
    requires b < f.batchCount && i < f.m && j < f.n && lo + count <= f.k && l < count
    ensures var g := Terms(f, s, lo, count);
      && RowA(g, s, A, b, i)[l] == RowA(f, s, A, b, i)[lo + l]
      && ColumnB(g, s, B, b, j)[l] == ColumnB(f, s, B, b, j)[lo + l]
  {
    hide AddrA, AddrB, InMemory;
    TermsCells(f, s, lo, count, b, i, j, l);
  }

  lemma TermsSplit(f: Fields, s: Scalars, A: seq<real>, B: seq<real>, sizeC: nat, first: nat, b: nat, i: nat, j: nat)
    requires Callable(f, s, |A|, |B|, sizeC) && first <= f.k && b < f.batchCount && i < f.m && j < f.n
    requires Callable(Terms(f, s, 0, first), s, |A|, |B|, sizeC)
    requires Callable(Terms(f, s, first, f.k - first), s, |A|, |B|, sizeC)
    ensures var g, h := Terms(f, s, 0, first), Terms(f, s, first, f.k - first);
      SumProducts(RowA(f, s, A, b, i), ColumnB(f, s, B, b, j))
      == SumProducts(RowA(g, s, A, b, i), ColumnB(g, s, B, b, j)) + SumProducts(RowA(h, s, A, b, i), ColumnB(h, s, B, b, j))
  {
    hide *;
    var g, h := Terms(f, s, 0, first), Terms(f, s, first, f.k - first);
    TermsKeep(f, s, 0, first);
    TermsKeep(f, s, first, f.k - first);
    CallableParts(f, s, |A|, |B|, sizeC);
    CallableParts(g, s, |A|, |B|, sizeC);
    CallableParts(h, s, |A|, |B|, sizeC);
    var row, column := RowA(f, s, A, b, i), ColumnB(f, s, B, b, j);
    forall l: nat | l < first ensures RowA(g, s, A, b, i)[l] == row[l] && ColumnB(g, s, B, b, j)[l] == column[l] {
      TermsElements(f, s, A, B, sizeC, 0, first, b, i, j, l);
    }
    forall l: nat | l < f.k - first
      ensures RowA(h, s, A, b, i)[l] == row[first + l] && ColumnB(h, s, B, b, j)[l] == column[first + l]
    {
      TermsElements(f, s, A, B, sizeC, first, f.k - first, b, i, j, l);
    }
    assert row == RowA(g, s, A, b, i) + RowA(h, s, A, b, i);
    assert column == ColumnB(g, s, B, b, j) + ColumnB(h, s, B, b, j);
    SumProductsAppend(RowA(g, s, A, b, i), ColumnB(g, s, B, b, j), RowA(h, s, A, b, i), ColumnB(h, s, B, b, j));
  }

  lemma CombineTwice(alpha: real, x: real, y: real, beta: real, old': real)
    ensures Combine(alpha, y, 1.0, Combine(alpha, x, beta, old')) == Combine(alpha, x + y, beta, old')
  {
  }

  lemma OutcomeEntry(f: Fields, s: Scalars, A: seq<real>, B: seq<real>, before: seq<real>, after: seq<real>, b: nat, i: nat, j: nat)
    requires Callable(f, s, |A|, |B|, |before|) && IsGemm(f, s, A, B, before, after)
    requires b < f.batchCount && i < f.m && j < f.n
    ensures 0 <= f.c.At(b, i, j) < |before| == |after|
    ensures after[f.c.At(b, i, j)]
         == Combine(s.alpha, SumProducts(RowA(f, s, A, b, i), ColumnB(f, s, B, b, j)), s.beta, before[f.c.At(b, i, j)])
  {
    hide Combine, SumProducts, RowA, ColumnB;
  }

  lemma FlagsDecide(f: Fields, s: Scalars, t: Scalars, A: seq<real>, B: seq<real>, sizeC: nat, b: nat, i: nat, j: nat)
    requires s.ta == t.ta && s.tb == t.tb && Callable(f, s, |A|, |B|, sizeC)
    requires b < f.batchCount && i < f.m && j < f.n
    ensures Callable(f, t, |A|, |B|, sizeC)
    ensures RowA(f, t, A, b, i) == RowA(f, s, A, b, i) && ColumnB(f, t, B, b, j) == ColumnB(f, s, B, b, j)
  {
  }

  /** The product may be accumulated in two calls: an outcome over the last terms with beta 1, started
      from an outcome over the first ones, is an outcome over all of them. */
  lemma SplitProduct(f: Fields, s: Scalars, A: seq<real>, B: seq<real>, before: seq<real>, first: nat,
      middle: seq<real>, after: seq<real>)
    requires Callable(f, s, |A|, |B|, |before|) && first <= f.k
    ensures Callable(Terms(f, s, 0, first), s, |A|, |B|, |before|)
    ensures Callable(Terms(f, s, first, f.k - first), s.(beta := 1.0), |A|, |B|, |before|)
    ensures IsGemm(Terms(f, s, 0, first), s, A, B, before, middle)
            && IsGemm(Terms(f, s, first, f.k - first), s.(beta := 1.0), A, B, middle, after)
            ==> IsGemm(f, s, A, B, before, after)
  {
    var g, h, t := Terms(f, s, 0, first), Terms(f, s, first, f.k - first), s.(beta := 1.0);
    TermsCallable(f, s, 0, first, |A|, |B|, |before|);
    TermsCallable(f, s, first, f.k - first, |A|, |B|, |before|);
    if IsGemm(g, s, A, B, before, middle) && IsGemm(h, t, A, B, middle, after) {
      hide Terms, Callable, Entry, RowA, ColumnB;
      TermsKeep(f, s, 0, first);
      TermsKeep(f, s, first, f.k - first);
      forall b: nat, i: nat, j: nat | b < f.batchCount && i < f.m && j < f.n
        ensures after[f.c.At(b, i, j)] == Entry(f, s, A, B, before, b, i, j)
      {
        SplitEntry(f, s, A, B, before, first, middle, after, b, i, j);
      }
    }
  }

  lemma EntryIs(f: Fields, s: Scalars, A: seq<real>, B: seq<real>, before: seq<real>, b: nat, i: nat, j: nat)
    requires Callable(f, s, |A|, |B|, |before|) && b < f.batchCount && i < f.m && j < f.n
    ensures 0 <= f.c.At(b, i, j) < |before|
    ensures Entry(f, s, A, B, before, b, i, j)
         == Combine(s.alpha, SumProducts(RowA(f, s, A, b, i), ColumnB(f, s, B, b, j)), s.beta, before[f.c.At(b, i, j)])
  {
    hide Combine, SumProducts, RowA, ColumnB;
  }

  lemma SplitEntry(f: Fields, s: Scalars, A: seq<real>, B: seq<real>, before: seq<real>, first: nat,
      middle: seq<real>, after: seq<real>, b: nat, i: nat, j: nat)
    requires Callable(f, s, |A|, |B|, |before|) && first <= f.k && b < f.batchCount && i < f.m && j < f.n
    requires Callable(Terms(f, s, 0, first), s, |A|, |B|, |before|)
    requires Callable(Terms(f, s, first, f.k - first), s.(beta := 1.0), |A|, |B|, |before|) && |middle| == |before|
    requires IsGemm(Terms(f, s, 0, first), s, A, B, before, middle)
    requires IsGemm(Terms(f, s, first, f.k - first), s.(beta := 1.0), A, B, middle, after)
    ensures 0 <= f.c.At(b, i, j) < |after| && after[f.c.At(b, i, j)] == Entry(f, s, A, B, before, b, i, j)
  {
    hide *;
    var g, h, t := Terms(f, s, 0, first), Terms(f, s, first, f.k - first), s.(beta := 1.0);
    TermsKeep(f, s, 0, first);
    TermsKeep(f, s, first, f.k - first);
    FlagsDecide(h, t, s, A, B, |before|, b, i, j);
    CallableParts(g, s, |A|, |B|, |before|);
    CallableParts(h, s, |A|, |B|, |before|);
    TermsSplit(f, s, A, B, |before|, first, b, i, j);
    OutcomeEntry(g, s, A, B, before, middle, b, i, j);
    OutcomeEntry(h, t, A, B, middle, after, b, i, j);
    EntryIs(f, s, A, B, before, b, i, j);
    CombineTwice(s.alpha, SumProducts(RowA(g, s, A, b, i), ColumnB(g, s, B, b, j)),
                 SumProducts(RowA(h, s, A, b, i), ColumnB(h, s, B, b, j)), s.beta, before[f.c.At(b, i, j)]);
  }

  lemma ShortProductSum(row: seq<real>, column: seq<real>)
    requires |row| == |column| <= 1
    ensures SumProducts(row, column) == if |row| == 0 then 0.0 else row[0] * column[0]
  {
    if |row| == 1 {
      assert Init(row) == [] && Init(column) == [];
    }
  }

  lemma FirstTerm(f: Fields, s: Scalars, A: seq<real>, B: seq<real>, sizeC: nat, b: nat, i: nat, j: nat)
    requires Callable(f, s, |A|, |B|, sizeC) && b < f.batchCount && i < f.m && j < f.n && f.k > 0
    ensures 0 <= AddrA(f, s, b, i, 0) < |A| && 0 <= AddrB(f, s, b, 0, j) < |B|
    ensures RowA(f, s, A, b, i)[0] == A[AddrA(f, s, b, i, 0)] && ColumnB(f, s, B, b, j)[0] == B[AddrB(f, s, b, 0, j)]
  {
  }

  lemma CombineIs(alpha: real, product: real, beta: real, old': real)
    ensures Combine(alpha, product, beta, old') == alpha * product + beta * old'
    ensures product == 0.0 ==> Combine(alpha, product, beta, old') == beta * old'
  {
  }

  /** With no terms C is scaled by beta, with one the entry is alpha times that term plus beta times
      the old value. `SplitProduct` leads every product back to these. */
  lemma ShortProducts(f: Fields, s: Scalars, A: seq<real>, B: seq<real>, before: seq<real>, after: seq<real>,
      b: nat, i: nat, j: nat)
    requires Callable(f, s, |A|, |B|, |before|) && IsGemm(f, s, A, B, before, after)
    requires b < f.batchCount && i < f.m && j < f.n
    ensures 0 <= f.c.At(b, i, j) < |before| == |after|
    ensures f.k > 0 ==> 0 <= AddrA(f, s, b, i, 0) < |A| && 0 <= AddrB(f, s, b, 0, j) < |B|
    ensures var p := f.c.At(b, i, j);
      && (f.k == 0 ==> after[p] == s.beta * before[p])
      && (f.k == 1 ==> after[p] == s.alpha * (A[AddrA(f, s, b, i, 0)] * B[AddrB(f, s, b, 0, j)]) + s.beta * before[p])
  {
    hide *;
    OutcomeEntry(f, s, A, B, before, after, b, i, j);
    if f.k > 0 {
      FirstTerm(f, s, A, B, |before|, b, i, j);
    }
    if f.k <= 1 {
      CallableParts(f, s, |A|, |B|, |before|);
      ShortProductSum(RowA(f, s, A, b, i), ColumnB(f, s, B, b, j));
      CombineIs(s.alpha, SumProducts(RowA(f, s, A, b, i), ColumnB(f, s, B, b, j)), s.beta, before[f.c.At(b, i, j)]);
    }
  }

  lemma CombineApart(alpha: real, product: real, beta: real, x: real, y: real)
    ensures Combine(alpha, product, beta, x) - Combine(alpha, product, beta, y) == beta * (x - y)
  {
  }

  /** What C held before counts beta times, whatever the product. */
  lemma OldValueCountsBeta(f: Fields, s: Scalars, A: seq<real>, B: seq<real>, x: seq<real>, x': seq<real>,
      y: seq<real>, y': seq<real>, b: nat, i: nat, j: nat)
    requires |x| == |y| && Callable(f, s, |A|, |B|, |x|) && IsGemm(f, s, A, B, x, x') && IsGemm(f, s, A, B, y, y')
    requires b < f.batchCount && i < f.m && j < f.n
    ensures 0 <= f.c.At(b, i, j) < |x| == |x'| == |y'|
    ensures var p := f.c.At(b, i, j); x'[p] - y'[p] == s.beta * (x[p] - y[p])
  {
    hide *;
    OutcomeEntry(f, s, A, B, x, x', b, i, j);
    OutcomeEntry(f, s, A, B, y, y', b, i, j);
    CallableParts(f, s, |A|, |B|, |x|);
    CombineApart(s.alpha, SumProducts(RowA(f, s, A, b, i), ColumnB(f, s, B, b, j)), s.beta,
                 x[f.c.At(b, i, j)], y[f.c.At(b, i, j)]);
  }

  /** The value a cell holds after the loops. */
  ghost function CellValue(f: Fields, s: Scalars, A: seq<real>, B: seq<real>, before: seq<real>, p: nat): real
    requires Callable(f, s, |A|, |B|, |before|) && p < |before|
  {
    if Addresses(f.c, f.batchCount, p) then
      var b: nat, i: nat, j: nat :| b < f.batchCount && i < f.c.rows && j < f.c.cols && f.c.At(b, i, j) == p;
      Entry(f, s, A, B, before, b, i, j)
    else before[p]
  }

  /** If the entries of C have cells of their own, there is an outcome. */
  lemma OutcomeExists(f: Fields, s: Scalars, A: seq<real>, B: seq<real>, before: seq<real>) returns (after: seq<real>)
    requires Callable(f, s, |A|, |B|, |before|) && Separate(f.c, f.batchCount)
    ensures IsGemm(f, s, A, B, before, after)
  {
    after := seq(|before|, p requires 0 <= p < |before| => CellValue(f, s, A, B, before, p));
    hide Entry;
    forall b: nat, i: nat, j: nat | b < f.batchCount && i < f.m && j < f.n
      ensures after[f.c.At(b, i, j)] == Entry(f, s, A, B, before, b, i, j)
    {
      assert Addresses(f.c, f.batchCount, f.c.At(b, i, j));
    }
  }

  /** The view a transpose flag stands for. */
  function Flagged(o: Operand, flag: int): Operand {
    if flag != 0 then o.Swapped() else o
  }

  /** Setting transpose flags is the same as passing unflagged views with the last two sizes and
      strides swapped: same derived sizes, same outcomes. */
  lemma TransposeIsSwappedView(a: Operand, b: Operand, c: Operand, alpha: Option<real>, beta: Option<real>, fa: int, fb: int,
      batchCount: nat, A: seq<real>, B: seq<real>, before: seq<real>, after: seq<real>)
    requires var f := Construct(a, b, alpha, beta, Some(fa), Some(fb), c, batchCount);
             Callable(f, CallScalars(f, None, None, Some(fa), Some(fb)), |A|, |B|, |before|)
    ensures var f := Construct(a, b, alpha, beta, Some(fa), Some(fb), c, batchCount);
            var g := Construct(Flagged(a, fa), Flagged(b, fb), alpha, beta, Some(0), Some(0), c, batchCount);
            var s := CallScalars(f, None, None, Some(fa), Some(fb));
            var t := CallScalars(g, None, None, None, None);
            Callable(g, t, |A|, |B|, |before|)
            && (IsGemm(f, s, A, B, before, after) <==> IsGemm(g, t, A, B, before, after))
  {
    var f := Construct(a, b, alpha, beta, Some(fa), Some(fb), c, batchCount);
    var g := Construct(Flagged(a, fa), Flagged(b, fb), alpha, beta, Some(0), Some(0), c, batchCount);
    var s := CallScalars(f, None, None, Some(fa), Some(fb));
    var t := CallScalars(g, None, None, None, None);
    FlaggedInMemory(a, fa, batchCount, |A|);
    FlaggedInMemory(b, fb, batchCount, |B|);
    forall x: nat, i: nat, j: nat | x < batchCount && i < f.m && j < f.n
      ensures Entry(f, s, A, B, before, x, i, j) == Entry(g, t, A, B, before, x, i, j)
    {
      SameEntryFromSameCells(f, s, g, t, A, B, before, x, i, j);
    }
  }

  lemma SameEntryFromSameCells(f: Fields, s: Scalars, g: Fields, t: Scalars, A: seq<real>, B: seq<real>, before: seq<real>,
      b: nat, i: nat, j: nat)
    requires Callable(f, s, |A|, |B|, |before|) && Callable(g, t, |A|, |B|, |before|)
    requires f.m == g.m && f.n == g.n && f.k == g.k && f.batchCount == g.batchCount && f.c == g.c
    requires s.alpha == t.alpha && s.beta == t.beta && b < f.batchCount && i < f.m && j < f.n
    requires forall l: nat :: l < f.k ==> AddrA(f, s, b, i, l) == AddrA(g, t, b, i, l)
    requires forall l: nat :: l < f.k ==> AddrB(f, s, b, l, j) == AddrB(g, t, b, l, j)
    ensures Entry(f, s, A, B, before, b, i, j) == Entry(g, t, A, B, before, b, i, j)
  {
    assert RowA(f, s, A, b, i) == RowA(g, t, A, b, i);
    assert ColumnB(f, s, B, b, j) == ColumnB(g, t, B, b, j);
  }

  lemma FlaggedInMemory(o: Operand, flag: int, batchCount: nat, size: nat)
    requires InMemory(o, batchCount, size)
    ensures InMemory(Flagged(o, flag), batchCount, size)
  {
    forall b: nat, r: nat, c: nat | b < batchCount && r < Flagged(o, flag).rows && c < Flagged(o, flag).cols
      ensures 0 <= Flagged(o, flag).At(b, r, c) < size
    {
      if flag != 0 {
        assert o.Swapped().At(b, r, c) == o.At(b, c, r);
      }
    }
  }

  // ---------------------------------------------------------------------------
  // Tensors
  // ---------------------------------------------------------------------------

  function FlaggedTensor(t: Tensor, flag: int): (r: Tensor)
    requires t.Valid()
    ensures r.Valid() && OperandOf(r) == Flagged(OperandOf(t), flag)
  {
    if flag != 0 then Tensor(t.base, SwapLastTwo(t.shape), SwapLastTwo(t.strides)) else t
  }

  /** The same for tensors: transpose flags stand for views with the last two sizes and strides swapped,
      from the constructor on. */
  lemma TransposeIsSwappedTensor(a: Tensor, b: Tensor, c: Tensor, alpha: Option<real>, beta: Option<real>, fa: int, fb: int,
      A: seq<real>, B: seq<real>, before: seq<real>, after: seq<real>)
    requires a.Valid() && b.Valid() && c.Valid()
    requires var f := ConstructFrom(a, b, alpha, beta, Some(fa), Some(fb), c);
             Callable(f, CallScalars(f, None, None, Some(fa), Some(fb)), |A|, |B|, |before|)
    ensures var f := ConstructFrom(a, b, alpha, beta, Some(fa), Some(fb), c);
            var g := ConstructFrom(FlaggedTensor(a, fa), FlaggedTensor(b, fb), alpha, beta, Some(0), Some(0), c);
            var s := CallScalars(f, None, None, Some(fa), Some(fb));
            var t := CallScalars(g, None, None, None, None);
            Callable(g, t, |A|, |B|, |before|)
            && (IsGemm(f, s, A, B, before, after) <==> IsGemm(g, t, A, B, before, after))
  {
    TransposeIsSwappedView(OperandOf(a), OperandOf(b), OperandOf(c), alpha, beta, fa, fb, BatchCount(c), A, B, before, after);
    hide *;
  }

  /** Which scalars a call runs with: its own where given, else the constructor's where given, else alpha
      and beta 1 and no transposition; a flag from the constructor only counts as set or not. */
  lemma CallArgumentsWin(a: Tensor, b: Tensor, c: Tensor, alpha: Option<real>, beta: Option<real>,
      transA: Option<int>, transB: Option<int>, callAlpha: Option<real>, callBeta: Option<real>,
      callA: Option<int>, callB: Option<int>)
    requires a.Valid() && b.Valid() && c.Valid()
    ensures var s := CallScalars(ConstructFrom(a, b, alpha, beta, transA, transB, c), callAlpha, callBeta, callA, callB);
      && (callAlpha.Some? ==> s.alpha == callAlpha.value) && (callBeta.Some? ==> s.beta == callBeta.value)
      && (callAlpha.None? && alpha.Some? ==> s.alpha == alpha.value)
      && (callBeta.None? && beta.Some? ==> s.beta == beta.value)
      && (callAlpha.None? && alpha.None? ==> s.alpha == 1.0) && (callBeta.None? && beta.None? ==> s.beta == 1.0)
      && (callA.Some? ==> s.ta == callA.value) && (callB.Some? ==> s.tb == callB.value)
      && (callA.None? ==> (s.ta != 0 <==> transA.Some? && transA.value != 0))
      && (callB.None? ==> (s.tb != 0 <==> transB.Some? && transB.value != 0))
  {
  }

  /** Scalars and flags given to the constructor have the outcomes they have when given to the call. */
  lemma ConstructedOrCalled(a: Tensor, b: Tensor, c: Tensor, alpha: real, beta: real, fa: int, fb: int,
      A: seq<real>, B: seq<real>, before: seq<real>, after: seq<real>)
    requires a.Valid() && b.Valid() && c.Valid()
    requires var f := ConstructFrom(a, b, Some(alpha), Some(beta), Some(fa), Some(fb), c);
             Callable(f, CallScalars(f, None, None, None, None), |A|, |B|, |before|)
    ensures var f := ConstructFrom(a, b, Some(alpha), Some(beta), Some(fa), Some(fb), c);
            var g := ConstructFrom(a, b, None, None, Some(fa), None, c);
            var s := CallScalars(f, None, None, None, None);
            var t := CallScalars(g, Some(alpha), Some(beta), Some(fa), Some(fb));
            Callable(g, t, |A|, |B|, |before|)
            && (IsGemm(f, s, A, B, before, after) <==> IsGemm(g, t, A, B, before, after))
  {
    var f := ConstructFrom(a, b, Some(alpha), Some(beta), Some(fa), Some(fb), c);
    var g := ConstructFrom(a, b, None, None, Some(fa), None, c);
    var s, t := CallScalars(f, None, None, None, None), CallScalars(g, Some(alpha), Some(beta), Some(fa), Some(fb));
    forall bb: nat, i: nat, j: nat | bb < f.batchCount && i < f.m && j < f.n
      ensures Entry(f, s, A, B, before, bb, i, j) == Entry(g, t, A, B, before, bb, i, j)
    {
      assert RowA(f, s, A, bb, i) == RowA(g, t, A, bb, i) && ColumnB(f, s, B, bb, j) == ColumnB(g, t, B, bb, j);
    }
    hide Entry, Addresses;
  }

  /** The dimensions before the last three. */
  function Leading(shape: Shape): Shape {
    if |shape| <= 3 then [] else shape[..|shape| - 3]
  }

  /** The loops reach the elements whose leading coordinates are all zero. */
  lemma ReachedByLoops(c: Tensor, coords: Coords)
    requires c.Valid() && InBounds(coords, c.shape) && forall d :: 0 <= d < |coords| - 3 ==> coords[d] == 0
    ensures Addresses(OperandOf(c), BatchCount(c), c.CellAt(coords))
  {
    var n, o := |coords|, OperandOf(c);
    var b := if n > 2 then coords[n - 3] else 0;
    LastThree(c, coords);
    assert o.At(b, coords[n - 2], coords[n - 1]) == c.CellAt(coords);
  }

  /** The last three dimensions of an offset. */
  lemma LastThree(c: Tensor, coords: Coords)
    requires c.Valid() && |coords| == |c.shape| && forall d :: 0 <= d < |coords| - 3 ==> coords[d] == 0
    ensures var n := |coords|;
      OperandOf(c).At(if n > 2 then coords[n - 3] else 0, coords[n - 2], coords[n - 1]) == c.CellAt(coords)
  {
    var n := |coords|;
    var c1, s1 := Init(coords), Init(c.strides);
    var c2, s2 := Init(c1), Init(s1);
    assert Dot(coords, c.strides) == Dot(c2, s2) + coords[n - 2] * c.strides[n - 2] + coords[n - 1] * c.strides[n - 1];
    if n > 2 {
      DotZeros(Init(c2), Init(s2));
      assert Dot(c2, s2) == coords[n - 3] * c.strides[n - 3];
    } else {
      assert c2 == [];
    }
  }

  lemma {:induction false} DotZeros(coords: Coords, strides: Strides)
    requires |coords| == |strides| && forall d :: 0 <= d < |coords| ==> coords[d] == 0
    ensures Dot(coords, strides) == 0
    decreases |coords|
  {
    if coords != [] {
      DotZeros(Init(coords), Init(strides));
    }
  }

  /** Different elements of the tensor have different cells. */
  ghost predicate ElementsApart(c: Tensor)
    requires c.Valid()
  {
    forall x, y :: InBounds(x, c.shape) && InBounds(y, c.shape) && c.CellAt(x) == c.CellAt(y) ==> x == y
  }

  /** The element an entry (`b`, `i`, `j`) of the loops is. */
  function ElementOf(c: Tensor, b: nat, i: nat, j: nat): (coords: Coords)
    requires c.Valid()
    ensures |coords| == |c.shape|
  {
    var n := |c.shape|;
    seq(n, d requires 0 <= d < n => if d == n - 1 then j else if d == n - 2 then i else if d == n - 3 then b else 0)
  }

  /** The batch loop runs over dimension -3 only: it reaches every element of C if and only if the
      dimensions before the last three have product 1. */
  lemma LoopsCoverExactly(c: Tensor)
    requires c.Valid() && Positive(c.shape) && ElementsApart(c)
    ensures (forall coords :: InBounds(coords, c.shape) ==> Addresses(OperandOf(c), BatchCount(c), c.CellAt(coords)))
       <==> Volume(Leading(c.shape)) == 1
  {
    UnitVolume(Leading(c.shape));
    if Volume(Leading(c.shape)) == 1 {
      forall coords | InBounds(coords, c.shape) ensures Addresses(OperandOf(c), BatchCount(c), c.CellAt(coords)) {
        forall d | 0 <= d < |coords| - 3 ensures coords[d] == 0 {
          assert Leading(c.shape)[d] == 1;
        }
        ReachedByLoops(c, coords);
      }
    } else {
      var d :| 0 <= d < |Leading(c.shape)| && Leading(c.shape)[d] != 1;
      NotReached(c, Unit(|c.shape|, d), d);
    }
  }

  /** An element with a leading coordinate other than 0 is not reached. */
  lemma NotReached(c: Tensor, coords: Coords, d: nat)
    requires c.Valid() && Positive(c.shape) && ElementsApart(c) && InBounds(coords, c.shape)
    requires d < |coords| - 3 && coords[d] != 0
    ensures !Addresses(OperandOf(c), BatchCount(c), c.CellAt(coords))
  {
    forall b: nat, i: nat, j: nat | b < BatchCount(c) && i < OperandOf(c).rows && j < OperandOf(c).cols
      ensures OperandOf(c).At(b, i, j) != c.CellAt(coords)
    {
      var x := ElementOf(c, b, i, j);
      LastThree(c, x);
      assert InBounds(x, c.shape) && x[d] != coords[d];
    }
  }

  lemma {:induction false} UnitVolume(shape: Shape)
    requires Positive(shape)
    ensures Volume(shape) == 1 <==> forall d :: 0 <= d < |shape| ==> shape[d] == 1
    decreases |shape|
  {
    if shape != [] {
      var v, x := Volume(Init(shape)), Last(shape);
      UnitVolume(Init(shape));
      VolumePositive(Init(shape));
      UnitProduct(v, x);
      assert forall d :: 0 <= d < |shape| - 1 ==> shape[d] == Init(shape)[d];
    }
  }

  lemma UnitProduct(v: nat, x: nat)
    requires v > 0 && x > 0
    ensures v * x == 1 <==> v == 1 && x == 1
  {
    MulLe(1, v, x);
    MulLe(1, x, v);
  }

  /** Two batches in dimension -4. */
  const OUTER_BATCHES: Tensor := Tensor(0, [2, 1, 1, 1], [1, 1, 1, 1])

  /** The second of them keeps what it had. */
  lemma SecondBatchNeverSet(a: Tensor, b: Tensor, s: Scalars, A: seq<real>, B: seq<real>, before: seq<real>, after: seq<real>)
    requires a.Valid() && b.Valid()
    requires var f := ConstructFrom(a, b, None, None, None, None, OUTER_BATCHES);
             Callable(f, s, |A|, |B|, |before|) && IsGemm(f, s, A, B, before, after)
    requires |before| >= 2
    ensures InBounds([1, 0, 0, 0], OUTER_BATCHES.shape) && OUTER_BATCHES.CellAt([1, 0, 0, 0]) == 1
    ensures after[1] == before[1]
  {
    var c: Coords := [1, 0, 0, 0];
    var f := ConstructFrom(a, b, None, None, None, None, OUTER_BATCHES);
    DotFirst(c);
    assert !Addresses(f.c, f.batchCount, 1);
  }

  lemma DotFirst(c: Coords)
    requires c == [1, 0, 0, 0]
    ensures Dot(c, [1, 1, 1, 1]) == 1
  {
    var ones: Strides := [1, 1, 1, 1];
    assert Init(c) == [1, 0, 0] && Init([1, 0, 0]) == [1, 0] && Init([1, 0]) == [1] && Init([1]) == [];
    assert Init(ones) == [1, 1, 1] && Init([1, 1, 1]) == [1, 1] && Init([1, 1]) == [1];
    assert Dot([1], [1]) == 1;
    assert Dot([1, 0], [1, 1]) == 1;
    assert Dot([1, 0, 0], [1, 1, 1]) == 1;
  }
}
