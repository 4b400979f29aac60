/** The BLAS path of matrix multiplication. BLAS is given by its column-major specification; the
    call built by the operator is shown to mean the same as the CPU loops exactly when each
    operand's strides fit one leading dimension. */
module BlasGemm {
  import Layout
  import opened Gemm

  datatype Op = NoTrans | Trans

  /** A column-major matrix argument: pointer, leading dimension and batch stride. */
  datatype Argument = Argument(base: int, ld: int, batchStride: int) {
    /** The cell of entry (`r`, `c`) of op(X). */
    function At(op: Op, b: nat, r: nat, c: nat): int {
      base + b * batchStride + if op.NoTrans? then r + c * ld else c + r * ld
    }
  }

  /** The arguments of one strided batched gemm call. */
  datatype Call = Call(opX: Op, opY: Op, m: nat, n: nat, k: nat, alpha: real, x: Argument, y: Argument, beta: real,
                       c: Argument, batchCount: nat)

  function AtLeastOne(x: nat): nat {
    if x == 0 then 1 else x
  }

  /** The argument check BLAS makes: leading dimensions span the stored columns. */
  predicate Accepts(q: Call) {
    && q.x.ld >= AtLeastOne(if q.opX.NoTrans? then q.m else q.k)
    && q.y.ld >= AtLeastOne(if q.opY.NoTrans? then q.k else q.n)
    && q.c.ld >= AtLeastOne(q.m)
  }

  predicate Ready(q: Call, sizeX: nat, sizeY: nat, sizeC: nat) {
    && (forall b: nat, i: nat, l: nat :: b < q.batchCount && i < q.m && l < q.k ==> 0 <= q.x.At(q.opX, b, i, l) < sizeX)
    && (forall b: nat, l: nat, j: nat :: b < q.batchCount && l < q.k && j < q.n ==> 0 <= q.y.At(q.opY, b, l, j) < sizeY)
    && (forall b: nat, i: nat, j: nat :: b < q.batchCount && i < q.m && j < q.n ==> 0 <= q.c.At(NoTrans, b, i, j) < sizeC)
  }

  /** Row `i` of op(X). */
  function RowX(q: Call, X: seq<real>, b: nat, i: nat): (row: seq<real>)
    requires forall l: nat :: l < q.k ==> 0 <= q.x.At(q.opX, b, i, l) < |X|
    ensures |row| == q.k
  {
    seq(q.k, l requires 0 <= l < q.k => X[q.x.At(q.opX, b, i, l)])
  }

  /** Column `j` of op(Y). */
  function ColumnY(q: Call, Y: seq<real>, b: nat, j: nat): (column: seq<real>)
    requires forall l: nat :: l < q.k ==> 0 <= q.y.At(q.opY, b, l, j) < |Y|
    ensures |column| == q.k
  {
    seq(q.k, l requires 0 <= l < q.k => Y[q.y.At(q.opY, b, l, j)])
  }

  function ColumnEntry(q: Call, X: seq<real>, Y: seq<real>, before: seq<real>, b: nat, i: nat, j: nat): real
    requires Ready(q, |X|, |Y|, |before|) && b < q.batchCount && i < q.m && j < q.n
  {
    Combine(q.alpha, SumProducts(RowX(q, X, b, i), ColumnY(q, Y, b, j)), q.beta, before[q.c.At(NoTrans, b, i, j)])
  }

  /** What BLAS promises: C := alpha op(X) op(Y) + beta C, column-major, for every batch; a call it
      rejects leaves C alone. */
  predicate BlasResult(q: Call, X: seq<real>, Y: seq<real>, before: seq<real>, after: seq<real>)
    requires Accepts(q) ==> Ready(q, |X|, |Y|, |before|)
  {
    if !Accepts(q) then after == before
    else
      && |after| == |before|
      && (forall b: nat, i: nat, j: nat :: b < q.batchCount && i < q.m && j < q.n ==>
            after[q.c.At(NoTrans, b, i, j)] == ColumnEntry(q, X, Y, before, b, i, j))
      && (forall p :: 0 <= p < |before| && !Touches(q, p) ==> after[p] == before[p])
  }

  predicate Touches(q: Call, p: int) {
    exists b: nat, i: nat, j: nat :: b < q.batchCount && i < q.m && j < q.n && q.c.At(NoTrans, b, i, j) == p
  }

  // ---------------------------------------------------------------------------
  // The call the operator builds
  // ---------------------------------------------------------------------------

  /** C++ compares the `bool` member with the `int` flag after promotion. */
  function Promote(x: bool): int {
    if x then 1 else 0
  }

  /** The members named `*_is_col_major_` test for a unit last stride. */
  predicate UnitColumns(o: Operand) {
    o.colStride == 1
  }

  predicate SwapsOperands(f: Fields) {
    UnitColumns(f.c)
  }

  function GetOpA(f: Fields, s: Scalars): Op {
    if SwapsOperands(f) then (if Promote(UnitColumns(f.b)) == s.tb then Trans else NoTrans)
    else if Promote(UnitColumns(f.a)) != s.ta then Trans else NoTrans
  }

  function GetOpB(f: Fields, s: Scalars): Op {
    if SwapsOperands(f) then (if Promote(UnitColumns(f.a)) == s.ta then Trans else NoTrans)
    else if Promote(UnitColumns(f.b)) != s.tb then Trans else NoTrans
  }

  function ArgumentOf(o: Operand): Argument {
    Argument(o.base, o.Ld(), o.batchStride)
  }

  function CallOf(f: Fields, s: Scalars): Call {
    var swap := SwapsOperands(f);
    Call(GetOpA(f, s), GetOpB(f, s), if swap then f.n else f.m, if swap then f.m else f.n, f.k, s.alpha,
         ArgumentOf(if swap then f.b else f.a), ArgumentOf(if swap then f.a else f.b), s.beta, ArgumentOf(f.c),
         f.batchCount)
  }

  // ---------------------------------------------------------------------------
  // Which operands the call addresses correctly
  // ---------------------------------------------------------------------------

  /** The call treats the operand as rows of consecutive cells (rather than columns). */
  predicate ByRows(o: Operand, flag: int) {
    UnitColumns(o) && (flag == 0 || flag == 1)
  }

  /** The cell the call uses for the stored entry (`r`, `c`). */
  function BlasCell(o: Operand, flag: int, b: nat, r: nat, c: nat): int {
    o.base + b * o.batchStride + if ByRows(o, flag) then c + r * o.Ld() else r + c * o.Ld()
  }

  /** Every stored entry is where the loops find it. */
  ghost predicate OperandAgrees(o: Operand, flag: int) {
    forall b: nat, r: nat, c: nat :: r < o.rows && c < o.cols ==> BlasCell(o, flag, b, r, c) == o.At(b, r, c)
  }

  /** The strides follow one leading dimension, wherever there are two entries to tell apart. */
  predicate StridesFit(o: Operand, flag: int) {
    && (o.rows <= 1 || o.cols == 0 || o.rowStride == if ByRows(o, flag) then o.Ld() else 1)
    && (o.cols <= 1 || o.rows == 0 || o.colStride == if ByRows(o, flag) then 1 else o.Ld())
  }

  /** A condition on sizes, strides and flag alone. */
  predicate LayoutOk(o: Operand, flag: int) {
    o.Ld() >= AtLeastOne(if ByRows(o, flag) then o.cols else o.rows) && StridesFit(o, flag)
  }

  lemma OperandAgreesExactly(o: Operand, flag: int)
    ensures OperandAgrees(o, flag) <==> StridesFit(o, flag)
  {
    if OperandAgrees(o, flag) {
      if o.rows > 1 && o.cols > 0 {
        assert BlasCell(o, flag, 0, 1, 0) == o.At(0, 1, 0);
        assert BlasCell(o, flag, 0, 0, 0) == o.At(0, 0, 0);
      }
      if o.cols > 1 && o.rows > 0 {
        assert BlasCell(o, flag, 0, 0, 1) == o.At(0, 0, 1);
        assert BlasCell(o, flag, 0, 0, 0) == o.At(0, 0, 0);
      }
    }
    if StridesFit(o, flag) {
      forall b: nat, r: nat, c: nat | r < o.rows && c < o.cols
        ensures BlasCell(o, flag, b, r, c) == o.At(b, r, c)
      {
        assert r == 0 || o.rowStride == if ByRows(o, flag) then o.Ld() else 1;
        assert c == 0 || o.colStride == if ByRows(o, flag) then 1 else o.Ld();
      }
    }
  }

  /** A unit stride in one of the last two dimensions and a pitch covering the other suffices. */
  lemma UnitStrideLayoutOk(o: Operand, flag: int)
    requires flag == 0 || flag == 1
    requires if o.colStride == 1 then o.rowStride >= AtLeastOne(o.cols)
             else o.rowStride == 1 && o.colStride >= AtLeastOne(o.rows)
    ensures LayoutOk(o, flag)
  {
  }

  /** The cell the call reads for entry (`i`, `l`) of op(A). */
  function CallA(f: Fields, s: Scalars, b: nat, i: nat, l: nat): int {
    if s.ta != 0 then BlasCell(f.a, s.ta, b, l, i) else BlasCell(f.a, s.ta, b, i, l)
  }

  function CallB(f: Fields, s: Scalars, b: nat, l: nat, j: nat): int {
    if s.tb != 0 then BlasCell(f.b, s.tb, b, j, l) else BlasCell(f.b, s.tb, b, l, j)
  }

  /** The call's view of op(A), op(B) and C, entry by entry. */
  lemma CallCells(f: Fields, s: Scalars, b: nat, i: nat, j: nat, l: nat)
    ensures var q := CallOf(f, s);
      if SwapsOperands(f) then
        q.x.At(q.opX, b, j, l) == CallB(f, s, b, l, j) && q.y.At(q.opY, b, l, i) == CallA(f, s, b, i, l)
        && q.c.At(NoTrans, b, j, i) == BlasCell(f.c, 0, b, i, j)
      else
        q.x.At(q.opX, b, i, l) == CallA(f, s, b, i, l) && q.y.At(q.opY, b, l, j) == CallB(f, s, b, l, j)
        && q.c.At(NoTrans, b, i, j) == BlasCell(f.c, 0, b, i, j)
  {
  }

  /** Every entry of op(A), op(B) and C is where the loops find it. */
  ghost predicate CellsAgree(f: Fields, s: Scalars) {
    OperandAgrees(f.a, s.ta) && OperandAgrees(f.b, s.tb) && OperandAgrees(f.c, 0)
  }

  /** BLAS accepts the call and addresses every entry as the loops do if and only if the strides of
      all three operands fit. */
  lemma CallAgreesExactly(f: Fields, s: Scalars)
    requires ShapesMatch(f, s)
    ensures Accepts(CallOf(f, s)) && CellsAgree(f, s)
       <==> LayoutOk(f.a, s.ta) && LayoutOk(f.b, s.tb) && LayoutOk(f.c, 0)
  {
    OperandAgreesExactly(f.a, s.ta);
    OperandAgreesExactly(f.b, s.tb);
    OperandAgreesExactly(f.c, 0);
  }

  // ---------------------------------------------------------------------------
  // What the call computes, in the loops' terms
  // ---------------------------------------------------------------------------

  /** The memories passed as the call's first and second operand. */
  function First(f: Fields, A: seq<real>, B: seq<real>): seq<real> {
    if SwapsOperands(f) then B else A
  }

  function Second(f: Fields, A: seq<real>, B: seq<real>): seq<real> {
    if SwapsOperands(f) then A else B
  }

  /** If BLAS accepts the call, all cells it reads and writes lie in memories of these sizes. */
  predicate InRange(f: Fields, s: Scalars, sizeA: nat, sizeB: nat, sizeC: nat) {
    Accepts(CallOf(f, s)) ==>
      Ready(CallOf(f, s), if SwapsOperands(f) then sizeB else sizeA, if SwapsOperands(f) then sizeA else sizeB, sizeC)
  }

  /** The call stays inside memories in which every cell it reads exists. */
  lemma CallStaysInside(f: Fields, s: Scalars, sizeA: nat, sizeB: nat, sizeC: nat, b: nat, i: nat, j: nat, l: nat)
    requires InRange(f, s, sizeA, sizeB, sizeC) && Accepts(CallOf(f, s))
    requires b < f.batchCount && i < f.m && j < f.n
    ensures l < f.k ==> 0 <= CallA(f, s, b, i, l) < sizeA && 0 <= CallB(f, s, b, l, j) < sizeB
    ensures 0 <= BlasCell(f.c, 0, b, i, j) < sizeC
  {
    CallCells(f, s, b, i, j, l);
    hide CallA, CallB, BlasCell, Accepts;
  }

  /** Row `i` of op(A) as the call reads it. */
  function CallRow(f: Fields, s: Scalars, A: seq<real>, b: nat, i: nat): (row: seq<real>)
    requires forall l: nat :: l < f.k ==> 0 <= CallA(f, s, b, i, l) < |A|
    ensures |row| == f.k
  {
    seq(f.k, l requires 0 <= l < f.k => A[CallA(f, s, b, i, l)])
  }

  function CallColumn(f: Fields, s: Scalars, B: seq<real>, b: nat, j: nat): (column: seq<real>)
    requires forall l: nat :: l < f.k ==> 0 <= CallB(f, s, b, l, j) < |B|
    ensures |column| == f.k
  {
    seq(f.k, l requires 0 <= l < f.k => B[CallB(f, s, b, l, j)])
  }

  lemma CallReads(f: Fields, s: Scalars, A: seq<real>, B: seq<real>, sizeC: nat, b: nat, i: nat, j: nat)
    requires InRange(f, s, |A|, |B|, sizeC) && Accepts(CallOf(f, s))
    requires b < f.batchCount && i < f.m && j < f.n
    ensures forall l: nat :: l < f.k ==> 0 <= CallA(f, s, b, i, l) < |A|
    ensures forall l: nat :: l < f.k ==> 0 <= CallB(f, s, b, l, j) < |B|
    ensures 0 <= BlasCell(f.c, 0, b, i, j) < sizeC
  {
    hide CallA, CallB, BlasCell, InRange, Accepts;
    CallStaysInside(f, s, |A|, |B|, sizeC, b, i, j, 0);
    forall l: nat | l < f.k ensures 0 <= CallA(f, s, b, i, l) < |A| && 0 <= CallB(f, s, b, l, j) < |B| {
      CallStaysInside(f, s, |A|, |B|, sizeC, b, i, j, l);
    }
  }

  /** The value the call computes for C(b, i, j). */
  function CallEntry(f: Fields, s: Scalars, A: seq<real>, B: seq<real>, before: seq<real>, b: nat, i: nat, j: nat): real
    requires InRange(f, s, |A|, |B|, |before|) && Accepts(CallOf(f, s))
    requires b < f.batchCount && i < f.m && j < f.n
  {
    CallReads(f, s, A, B, |before|, b, i, j);
    Combine(s.alpha, SumProducts(CallRow(f, s, A, b, i), CallColumn(f, s, B, b, j)), s.beta,
            before[BlasCell(f.c, 0, b, i, j)])
  }

  /** Whether or not the operands are swapped, that is the value BLAS stores for the entry. */
  lemma CallEntryIsStored(f: Fields, s: Scalars, A: seq<real>, B: seq<real>, before: seq<real>, b: nat, i: nat, j: nat)
    requires InRange(f, s, |A|, |B|, |before|) && Accepts(CallOf(f, s))
    requires b < f.batchCount && i < f.m && j < f.n
    ensures var i', j' := if SwapsOperands(f) then j else i, if SwapsOperands(f) then i else j;
      && CallOf(f, s).c.At(NoTrans, b, i', j') == BlasCell(f.c, 0, b, i, j)
      && ColumnEntry(CallOf(f, s), First(f, A, B), Second(f, A, B), before, b, i', j')
         == CallEntry(f, s, A, B, before, b, i, j)
  {
    CallReads(f, s, A, B, |before|, b, i, j);
    CallCells(f, s, b, i, j, 0);
    var q, row, column := CallOf(f, s), CallRow(f, s, A, b, i), CallColumn(f, s, B, b, j);
    if SwapsOperands(f) {
      forall l: nat | l < f.k ensures RowX(q, B, b, j)[l] == column[l] && ColumnY(q, A, b, i)[l] == row[l] {
        CallCells(f, s, b, i, j, l);
      }
      assert RowX(q, B, b, j) == column && ColumnY(q, A, b, i) == row;
      SumProductsCommutes(row, column);
    } else {
      forall l: nat | l < f.k ensures RowX(q, A, b, i)[l] == row[l] && ColumnY(q, B, b, j)[l] == column[l] {
        CallCells(f, s, b, i, j, l);
      }
      assert RowX(q, A, b, i) == row && ColumnY(q, B, b, j) == column;
    }
  }

  // ---------------------------------------------------------------------------
  // When the two paths leave the same C
  // ---------------------------------------------------------------------------

  /** For all contents of memories of these sizes, a memory is an outcome of the BLAS call if and only
      if it is an outcome of the loops. */
  ghost predicate PathsAgree(f: Fields, s: Scalars, sizeA: nat, sizeB: nat, sizeC: nat)
    requires Callable(f, s, sizeA, sizeB, sizeC) && InRange(f, s, sizeA, sizeB, sizeC)
  {
    forall A: seq<real>, B: seq<real>, before: seq<real>, after: seq<real> ::
      |A| == sizeA && |B| == sizeB && |before| == sizeC ==> SameOutcome(f, s, A, B, before, after)
  }

  predicate SameOutcome(f: Fields, s: Scalars, A: seq<real>, B: seq<real>, before: seq<real>, after: seq<real>)
    requires Callable(f, s, |A|, |B|, |before|) && InRange(f, s, |A|, |B|, |before|)
  {
    BlasResult(CallOf(f, s), First(f, A, B), Second(f, A, B), before, after) <==> IsGemm(f, s, A, B, before, after)
  }

  /** With C addressed as the loops do, equal entries are equal outcomes. */
  lemma EntriesDecide(f: Fields, s: Scalars, A: seq<real>, B: seq<real>, before: seq<real>, after: seq<real>)
    requires Callable(f, s, |A|, |B|, |before|) && InRange(f, s, |A|, |B|, |before|)
    requires Accepts(CallOf(f, s)) && OperandAgrees(f.c, 0)
    requires forall b: nat, i: nat, j: nat :: b < f.batchCount && i < f.m && j < f.n ==>
               CallEntry(f, s, A, B, before, b, i, j) == Entry(f, s, A, B, before, b, i, j)
    ensures SameOutcome(f, s, A, B, before, after)
  {
    var q := CallOf(f, s);
    if BlasResult(q, First(f, A, B), Second(f, A, B), before, after) {
      BlasGivesGemm(f, s, A, B, before, after);
    }
    if IsGemm(f, s, A, B, before, after) {
      GemmGivesBlas(f, s, A, B, before, after);
    }
  }

  lemma BlasGivesGemm(f: Fields, s: Scalars, A: seq<real>, B: seq<real>, before: seq<real>, after: seq<real>)
    requires Callable(f, s, |A|, |B|, |before|) && InRange(f, s, |A|, |B|, |before|)
    requires Accepts(CallOf(f, s)) && OperandAgrees(f.c, 0)
    requires forall b: nat, i: nat, j: nat :: b < f.batchCount && i < f.m && j < f.n ==>
               CallEntry(f, s, A, B, before, b, i, j) == Entry(f, s, A, B, before, b, i, j)
    requires BlasResult(CallOf(f, s), First(f, A, B), Second(f, A, B), before, after)
    ensures IsGemm(f, s, A, B, before, after)
  {
    hide CallEntry, Entry, ColumnEntry, OperandAgrees, Accepts, InRange;
    forall b: nat, i: nat, j: nat | b < f.batchCount && i < f.m && j < f.n
      ensures after[f.c.At(b, i, j)] == Entry(f, s, A, B, before, b, i, j)
    {
      TargetCell(f, b, i, j);
      CallEntryIsStored(f, s, A, B, before, b, i, j);
    }
    forall p | 0 <= p < |before| && !Addresses(f.c, f.batchCount, p) ensures after[p] == before[p] {
      SameTargets(f, s, p);
    }
  }

  lemma GemmGivesBlas(f: Fields, s: Scalars, A: seq<real>, B: seq<real>, before: seq<real>, after: seq<real>)
    requires Callable(f, s, |A|, |B|, |before|) && InRange(f, s, |A|, |B|, |before|)
    requires Accepts(CallOf(f, s)) && OperandAgrees(f.c, 0)
    requires forall b: nat, i: nat, j: nat :: b < f.batchCount && i < f.m && j < f.n ==>
               CallEntry(f, s, A, B, before, b, i, j) == Entry(f, s, A, B, before, b, i, j)
    requires IsGemm(f, s, A, B, before, after)
    ensures BlasResult(CallOf(f, s), First(f, A, B), Second(f, A, B), before, after)
  {
    hide CallEntry, Entry, ColumnEntry, OperandAgrees, Accepts;
    var q := CallOf(f, s);
    forall b: nat, i': nat, j': nat | b < q.batchCount && i' < q.m && j' < q.n
      ensures after[q.c.At(NoTrans, b, i', j')] == ColumnEntry(q, First(f, A, B), Second(f, A, B), before, b, i', j')
    {
      var i, j := if SwapsOperands(f) then j' else i', if SwapsOperands(f) then i' else j';
      TargetCell(f, b, i, j);
      CallEntryIsStored(f, s, A, B, before, b, i, j);
      assert after[f.c.At(b, i, j)] == Entry(f, s, A, B, before, b, i, j);
    }
    forall p | 0 <= p < |before| && !Touches(q, p) ensures after[p] == before[p] {
      SameTargets(f, s, p);
    }
  }

  lemma TargetCell(f: Fields, b: nat, i: nat, j: nat)
    requires OperandAgrees(f.c, 0) && i < f.c.rows && j < f.c.cols
    ensures BlasCell(f.c, 0, b, i, j) == f.c.At(b, i, j)
  {
  }

  lemma SameTargets(f: Fields, s: Scalars, p: int)
    requires ShapesMatch(f, s) && OperandAgrees(f.c, 0)
    ensures Touches(CallOf(f, s), p) <==> Addresses(f.c, f.batchCount, p)
  {
    var q := CallOf(f, s);
    if Touches(q, p) {
      var b: nat, i: nat, j: nat :| b < q.batchCount && i < q.m && j < q.n && q.c.At(NoTrans, b, i, j) == p;
      if SwapsOperands(f) {
        CallCells(f, s, b, j, i, 0);
        assert f.c.At(b, j, i) == p;
      } else {
        CallCells(f, s, b, i, j, 0);
        assert f.c.At(b, i, j) == p;
      }
    }
    if Addresses(f.c, f.batchCount, p) {
      var b: nat, i: nat, j: nat :| b < f.batchCount && i < f.c.rows && j < f.c.cols && f.c.At(b, i, j) == p;
      CallCells(f, s, b, i, j, 0);
      if SwapsOperands(f) {
        assert q.c.At(NoTrans, b, j, i) == p;
      } else {
        assert q.c.At(NoTrans, b, i, j) == p;
      }
    }
  }

  lemma CallReady(f: Fields, s: Scalars, sizeA: nat, sizeB: nat, sizeC: nat)
    requires Callable(f, s, sizeA, sizeB, sizeC) && CellsAgree(f, s)
    ensures InRange(f, s, sizeA, sizeB, sizeC)
  {
    var q := CallOf(f, s);
    forall b: nat, i: nat, l: nat | b < q.batchCount && i < q.m && l < q.k
      ensures 0 <= q.x.At(q.opX, b, i, l) < if SwapsOperands(f) then sizeB else sizeA
    {
      CallCells(f, s, b, i, i, l);
    }
    forall b: nat, l: nat, j: nat | b < q.batchCount && l < q.k && j < q.n
      ensures 0 <= q.y.At(q.opY, b, l, j) < if SwapsOperands(f) then sizeA else sizeB
    {
      CallCells(f, s, b, j, j, l);
    }
    forall b: nat, i: nat, j: nat | b < q.batchCount && i < q.m && j < q.n
      ensures 0 <= q.c.At(NoTrans, b, i, j) < sizeC
    {
      if SwapsOperands(f) {
        CallCells(f, s, b, j, i, 0);
      } else {
        CallCells(f, s, b, i, j, 0);
      }
    }
  }

  lemma AgreedEntry(f: Fields, s: Scalars, A: seq<real>, B: seq<real>, before: seq<real>, b: nat, i: nat, j: nat)
    requires Callable(f, s, |A|, |B|, |before|) && InRange(f, s, |A|, |B|, |before|)
    requires Accepts(CallOf(f, s)) && CellsAgree(f, s) && b < f.batchCount && i < f.m && j < f.n
    ensures CallEntry(f, s, A, B, before, b, i, j) == Entry(f, s, A, B, before, b, i, j)
  {
    CallReads(f, s, A, B, |before|, b, i, j);
    assert CallRow(f, s, A, b, i) == RowA(f, s, A, b, i);
    assert CallColumn(f, s, B, b, j) == ColumnB(f, s, B, b, j);
  }

  /** With fitting strides the BLAS call and the CPU loops have the same meaning: a memory is the
      outcome of the one if and only if it is the outcome of the other. */
  lemma BlasMatchesLoops(f: Fields, s: Scalars, A: seq<real>, B: seq<real>, before: seq<real>, after: seq<real>)
    requires Callable(f, s, |A|, |B|, |before|)
    requires LayoutOk(f.a, s.ta) && LayoutOk(f.b, s.tb) && LayoutOk(f.c, 0)
    ensures InRange(f, s, |A|, |B|, |before|) && Accepts(CallOf(f, s)) && SameOutcome(f, s, A, B, before, after)
  {
    CallAgreesExactly(f, s);
    CallReady(f, s, |A|, |B|, |before|);
    hide InRange, Accepts, LayoutOk, Entry, CallEntry, OperandAgrees;
    forall b: nat, i: nat, j: nat | b < f.batchCount && i < f.m && j < f.n
      ensures CallEntry(f, s, A, B, before, b, i, j) == Entry(f, s, A, B, before, b, i, j)
    {
      AgreedEntry(f, s, A, B, before, b, i, j);
    }
    EntriesDecide(f, s, A, B, before, after);
  }

  /** Both outcomes are determined, so the two paths leave C equal. */
  lemma BlasEqualsLoops(f: Fields, s: Scalars, A: seq<real>, B: seq<real>, before: seq<real>, loops: seq<real>, blas: seq<real>)
    requires Callable(f, s, |A|, |B|, |before|) && InRange(f, s, |A|, |B|, |before|)
    requires LayoutOk(f.a, s.ta) && LayoutOk(f.b, s.tb) && LayoutOk(f.c, 0)
    requires IsGemm(f, s, A, B, before, loops)
    requires BlasResult(CallOf(f, s), First(f, A, B), Second(f, A, B), before, blas)
    ensures loops == blas
  {
    BlasMatchesLoops(f, s, A, B, before, blas);
    OutcomeUnique(f, s, A, B, before, loops, blas);
  }

  lemma OutcomeUnique(f: Fields, s: Scalars, A: seq<real>, B: seq<real>, before: seq<real>, x: seq<real>, y: seq<real>)
    requires Callable(f, s, |A|, |B|, |before|) && IsGemm(f, s, A, B, before, x) && IsGemm(f, s, A, B, before, y)
    ensures x == y
  {
    forall p | 0 <= p < |before| ensures x[p] == y[p] {
      if Addresses(f.c, f.batchCount, p) {
        var b: nat, i: nat, j: nat :| b < f.batchCount && i < f.c.rows && j < f.c.cols && f.c.At(b, i, j) == p;
        assert x[f.c.At(b, i, j)] == y[f.c.At(b, i, j)];
      }
    }
  }
}
