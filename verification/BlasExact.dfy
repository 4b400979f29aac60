/** When the BLAS path of matrix multiplication leaves the same C as the CPU loops: the exact condition
    on sizes, strides, flags and scalars. Where it fails, memories are given that tell them apart. */
module BlasExact {
  import opened Arithmetic
  import opened BlasGemm
  import opened Counting
  import opened Gemm
  import opened Layout
  import opened Options

  // ---------------------------------------------------------------------------
  // The cells of C
  // ---------------------------------------------------------------------------

  /** The call writes cell `p` for some entry of C. */
  predicate Targets(o: Operand, batchCount: nat, p: int) {
    exists b: nat, r: nat, c: nat :: b < batchCount && r < o.rows && c < o.cols && BlasCell(o, 0, b, r, c) == p
  }

  ghost predicate SameTargetCells(o: Operand, batchCount: nat) {
    forall p :: Addresses(o, batchCount, p) <==> Targets(o, batchCount, p)
  }

  /** What C must satisfy for the comparison of its cells. */
  predicate Comparable(o: Operand, batchCount: nat) {
    && batchCount > 0 && o.rows > 0 && o.cols > 0 && Separate(o, batchCount) && o.Ld() > 0
  }

  /** The batch that starts lowest, and the one that starts highest. */
  function Lowest(o: Operand, batchCount: nat): (b: nat)
    requires batchCount > 0
    ensures b < batchCount
  {
    if o.batchStride >= 0 then 0 else batchCount - 1
  }

  function Highest(o: Operand, batchCount: nat): (b: nat)
    requires batchCount > 0
    ensures b < batchCount
  {
    if o.batchStride >= 0 then batchCount - 1 else 0
  }

  lemma BatchOrder(o: Operand, batchCount: nat, b: nat)
    requires b < batchCount
    ensures Lowest(o, batchCount) * o.batchStride <= b * o.batchStride <= Highest(o, batchCount) * o.batchStride
  {
    if o.batchStride >= 0 {
      MulLe(b, batchCount - 1, o.batchStride);
      MulNonNeg(b, o.batchStride);
    } else {
      MulLe(b, batchCount - 1, -o.batchStride);
      MulNonNeg(b, -o.batchStride);
      assert b * o.batchStride == -(b * -o.batchStride);
      assert (batchCount - 1) * o.batchStride == -((batchCount - 1) * -o.batchStride);
    }
  }

  /** An entry the loops write is one the call writes, for some entry of its own. */
  lemma FoundByCall(o: Operand, batchCount: nat, b: nat, r: nat, c: nat) returns (b': nat, r': nat, c': nat)
    requires SameTargetCells(o, batchCount) && b < batchCount && r < o.rows && c < o.cols
    ensures b' < batchCount && r' < o.rows && c' < o.cols && BlasCell(o, 0, b', r', c') == o.At(b, r, c)
  {
    assert Addresses(o, batchCount, o.At(b, r, c));
    b', r', c' :| b' < batchCount && r' < o.rows && c' < o.cols && BlasCell(o, 0, b', r', c') == o.At(b, r, c);
  }

  lemma FoundByLoops(o: Operand, batchCount: nat, b: nat, r: nat, c: nat) returns (b': nat, r': nat, c': nat)
    requires SameTargetCells(o, batchCount) && b < batchCount && r < o.rows && c < o.cols
    ensures b' < batchCount && r' < o.rows && c' < o.cols && o.At(b', r', c') == BlasCell(o, 0, b, r, c)
  {
    assert Targets(o, batchCount, BlasCell(o, 0, b, r, c));
    b', r', c' :| b' < batchCount && r' < o.rows && c' < o.cols && o.At(b', r', c') == BlasCell(o, 0, b, r, c);
  }

  /** Inside a batch the call never writes below its first cell. */
  lemma CallAboveStart(o: Operand, b: nat, r: nat, c: nat)
    requires o.Ld() > 0
    ensures BlasCell(o, 0, b, r, c) >= o.base + b * o.batchStride
  {
    MulNonNeg(r, o.Ld());
    MulNonNeg(c, o.Ld());
  }

  /** So both strides of C are positive where they matter. */
  lemma StridesPositive(o: Operand, batchCount: nat)
    requires Comparable(o, batchCount) && SameTargetCells(o, batchCount)
    ensures (o.rows > 1 ==> o.rowStride >= 1) && (o.cols > 1 ==> o.colStride >= 1)
  {
    var low := Lowest(o, batchCount);
    if o.rows > 1 {
      var b, r, c := FoundByCall(o, batchCount, low, 1, 0);
      BatchOrder(o, batchCount, b);
      CallAboveStart(o, b, r, c);
      assert o.At(low, 1, 0) != o.At(low, 0, 0);
    }
    if o.cols > 1 {
      var b, r, c := FoundByCall(o, batchCount, low, 0, 1);
      BatchOrder(o, batchCount, b);
      CallAboveStart(o, b, r, c);
      assert o.At(low, 0, 1) != o.At(low, 0, 0);
    }
  }

  /** A single row that is not stored by rows: its last cell is as far away in both addressings. */
  lemma SingleRowFits(o: Operand, batchCount: nat)
    requires Comparable(o, batchCount) && SameTargetCells(o, batchCount)
    requires !UnitColumns(o) && o.rows == 1 && o.cols > 1
    ensures o.colStride == o.Ld()
  {
    StridesPositive(o, batchCount);
    var high, last := Highest(o, batchCount), o.cols - 1;
    var b, r, c := FoundByLoops(o, batchCount, high, 0, last);
    BatchOrder(o, batchCount, b);
    MulLe(c, last, o.colStride);
    FactorOrder(last, o.Ld(), o.colStride);
  }

  lemma FactorOrder(k: nat, x: int, y: int)
    requires k > 0 && k * x <= k * y
    ensures x <= y
  {
    assert k * x == k * y + (x - y) * k;
    if x > y {
      MulLe(1, x - y, k);
    }
  }

  /** Neighbouring batches one cell apart would make the call write too few cells. */
  lemma BatchesNotAdjacent(o: Operand, batchCount: nat)
    requires Comparable(o, batchCount) && SameTargetCells(o, batchCount) && !UnitColumns(o)
    requires o.batchStride == 1 || o.batchStride == -1
    ensures batchCount == 1 || o.rows == 1
  {
    var shape, n := [batchCount, o.rows, o.cols], batchCount * o.rows * o.cols;
    ThreeSizes(batchCount, o.rows, o.cols);
    hide Volume;
    var codes := seq(n, t requires 0 <= t < n => Code(o, batchCount, t));
    forall t | 0 <= t < n ensures codes[t] < (batchCount + o.rows - 1) * o.cols {
      CodeBound(o, batchCount, t);
    }
    forall t, u | 0 <= t < u < n ensures codes[t] != codes[u] {
      CodesDiffer(o, batchCount, t, u);
    }
    Pigeonhole(codes, (batchCount + o.rows - 1) * o.cols);
    FewerCells(batchCount, o.rows, o.cols);
  }

  lemma FewerCells(n: nat, r: nat, c: nat)
    requires n > 0 && r > 0 && c > 0 && n * r * c <= (n + r - 1) * c
    ensures n == 1 || r == 1
  {
    assert c * (n * r) == n * r * c && c * (n + r - 1) == (n + r - 1) * c;
    FactorOrder(c, n * r, n + r - 1);
    assert (n - 1) * (r - 1) == n * r - n - r + 1;
    if n > 1 && r > 1 {
      MulLe(1, n - 1, r - 1);
    }
  }

  /** The entry the `t`-th element of C is. */
  function EntryAt(o: Operand, batchCount: nat, t: nat): (e: Coords)
    requires batchCount > 0 && o.rows > 0 && o.cols > 0
    ensures |e| == 3 && e[0] < batchCount && e[1] < o.rows && e[2] < o.cols
  {
    DecodeInBounds(t, [batchCount, o.rows, o.cols]);
    Decode(t, [batchCount, o.rows, o.cols])
  }

  /** The entry of the call that lands in the same cell. */
  ghost function CallEntryAt(o: Operand, batchCount: nat, t: nat): (e: (nat, nat, nat))
    requires Comparable(o, batchCount) && SameTargetCells(o, batchCount)
    ensures var x := EntryAt(o, batchCount, t);
      e.0 < batchCount && e.1 < o.rows && e.2 < o.cols && BlasCell(o, 0, e.0, e.1, e.2) == o.At(x[0], x[1], x[2])
  {
    var x := EntryAt(o, batchCount, t);
    assert Addresses(o, batchCount, o.At(x[0], x[1], x[2]));
    var b: nat, r: nat, c: nat :| b < batchCount && r < o.rows && c < o.cols
                                  && BlasCell(o, 0, b, r, c) == o.At(x[0], x[1], x[2]);
    (b, r, c)
  }

  /** Steps above the lowest batch, with batches one cell apart. */
  function Above(o: Operand, batchCount: nat, b: nat): (d: nat)
    requires b < batchCount
    ensures d < batchCount
  {
    if o.batchStride >= 0 then b else batchCount - 1 - b
  }

  ghost function Code(o: Operand, batchCount: nat, t: nat): nat
    requires Comparable(o, batchCount) && SameTargetCells(o, batchCount)
  {
    var e := CallEntryAt(o, batchCount, t);
    (Above(o, batchCount, e.0) + e.1) * o.cols + e.2
  }

  lemma CodeBound(o: Operand, batchCount: nat, t: nat)
    requires Comparable(o, batchCount) && SameTargetCells(o, batchCount)
    ensures Code(o, batchCount, t) < (batchCount + o.rows - 1) * o.cols
  {
    var e := CallEntryAt(o, batchCount, t);
    BlockBound(Above(o, batchCount, e.0) + e.1, batchCount + o.rows - 1, e.2, o.cols);
  }

  /** The code determines the cell. */
  lemma CodesDiffer(o: Operand, batchCount: nat, t: nat, u: nat)
    requires Comparable(o, batchCount) && SameTargetCells(o, batchCount) && !UnitColumns(o)
    requires o.batchStride == 1 || o.batchStride == -1
    requires t < u < batchCount * o.rows * o.cols
    ensures Code(o, batchCount, t) != Code(o, batchCount, u)
  {
    var shape := [batchCount, o.rows, o.cols];
    ThreeSizes(batchCount, o.rows, o.cols);
    var x, y := EntryAt(o, batchCount, t), EntryAt(o, batchCount, u);
    FlattenDecode(t, shape);
    FlattenDecode(u, shape);
    assert x != y;
    assert x == [x[0], x[1], x[2]] && y == [y[0], y[1], y[2]];
    assert o.At(x[0], x[1], x[2]) != o.At(y[0], y[1], y[2]);
    var e, g := CallEntryAt(o, batchCount, t), CallEntryAt(o, batchCount, u);
    hide CallEntryAt, EntryAt, Separate, SameTargetCells, Volume, Decode;
    var p, q := Above(o, batchCount, e.0) + e.1, Above(o, batchCount, g.0) + g.1;
    CodeGivesCell(o, batchCount, e.0, e.1, e.2);
    CodeGivesCell(o, batchCount, g.0, g.1, g.2);
    assert p * o.cols + e.2 == q * o.cols + g.2 ==> p == q && e.2 == g.2 by {
      DivModUnique(p, e.2, o.cols);
      DivModUnique(q, g.2, o.cols);
    }
  }

  lemma CodeGivesCell(o: Operand, batchCount: nat, b: nat, r: nat, c: nat)
    requires !UnitColumns(o) && (o.batchStride == 1 || o.batchStride == -1) && b < batchCount
    ensures BlasCell(o, 0, b, r, c)
         == o.base + Lowest(o, batchCount) * o.batchStride + (Above(o, batchCount, b) + r) + c * o.Ld()
  {
  }

  lemma ThreeSizes(a: nat, b: nat, c: nat)
    ensures Volume([a, b, c]) == a * b * c
    ensures a > 0 && b > 0 && c > 0 ==> Positive([a, b, c])
  {
    assert Init([a, b, c]) == [a, b] && Init([a, b]) == [a] && Init([a]) == [];
    assert Volume([]) == 1;
    assert Volume([a]) == Volume([]) * a;
    assert Volume([a, b]) == Volume([a]) * b;
    assert Volume([a, b, c]) == Volume([a, b]) * c;
  }

  /** If the call and the loops write the same cells, with the entries of C in cells of their own, then
      the strides of C fit the call. */
  lemma SameTargetsFit(o: Operand, batchCount: nat)
    requires Comparable(o, batchCount) && SameTargetCells(o, batchCount)
    ensures StridesFit(o, 0)
  {
    StridesPositive(o, batchCount);
    if !UnitColumns(o) {
      if o.rows == 1 && o.cols > 1 {
        SingleRowFits(o, batchCount);
      }
      if o.rows > 1 {
        SecondRowFits(o, batchCount);
      }
    }
  }

  lemma SecondRowFits(o: Operand, batchCount: nat)
    requires Comparable(o, batchCount) && SameTargetCells(o, batchCount) && !UnitColumns(o) && o.rows > 1
    ensures o.rowStride == 1
  {
    StridesPositive(o, batchCount);
    var low := Lowest(o, batchCount);
    var b, r, c := FoundByLoops(o, batchCount, low, 1, 0);
    BatchOrder(o, batchCount, b);
    var gap := b * o.batchStride - low * o.batchStride;
    assert gap == (b - low) * o.batchStride;
    assert gap + r * o.rowStride + c * o.colStride == 1;
    SmallSum(gap, r, o.rowStride, c, o.colStride, o.cols);
    if o.rowStride != 1 {
      UnitFactor(b - low, o.batchStride);
      BatchesNotAdjacent(o, batchCount);
    }
  }

  /** One is the gap alone, unless the row stride is one. */
  lemma SmallSum(gap: nat, r: nat, rowStride: int, c: nat, colStride: int, cols: nat)
    requires gap + r * rowStride + c * colStride == 1 && rowStride >= 1
    requires c < cols && (cols > 1 ==> colStride >= 1) && colStride != 1
    ensures rowStride == 1 || gap == 1
  {
    MulNonNeg(r, rowStride);
    if c > 0 {
      MulLe(1, c, colStride);
    }
    if r > 0 {
      MulLe(1, r, rowStride);
    }
  }

  lemma UnitFactor(x: int, y: int)
    requires x * y == 1
    ensures y == 1 || y == -1
  {
    AbsMul(x, y);
    if Abs(y) > 1 && Abs(x) >= 1 {
      MulLe(1, Abs(x), Abs(y));
    }
  }

  // ---------------------------------------------------------------------------
  // The converse: memories that tell the paths apart
  // ---------------------------------------------------------------------------

  function Constant(size: nat, x: real): (memory: seq<real>)
    ensures |memory| == size && forall p :: 0 <= p < size ==> memory[p] == x
  {
    seq(size, _ => x)
  }

  /** Every cell holds its own number. */
  function CellNumbers(size: nat): (memory: seq<real>)
    ensures |memory| == size && forall p :: 0 <= p < size ==> memory[p] == p as real
  {
    seq(size, p => p as real)
  }

  /** 0 + 1 + ... + (k - 1). */
  function Triangle(k: nat): nat {
    if k == 0 then 0 else Triangle(k - 1) + (k - 1)
  }

  lemma {:induction false} TrianglePositive(k: nat)
    requires k > 1
    ensures Triangle(k) > 0
  {
  }

  lemma NextMultiple(n: int, c: int, d: int, t: int)
    ensures n * c + d * t + (c + n * d) == (n + 1) * c + d * (t + n)
  {
    assert d * (t + n) == d * t + d * n;
    assert (n + 1) * c == n * c + c;
  }

  /** The terms of an arithmetic progression times ones. */
  lemma {:induction false} ProgressionSum(xs: seq<real>, ones: seq<real>, c: int, d: int)
    requires |xs| == |ones| && forall l :: 0 <= l < |xs| ==> xs[l] == (c + l * d) as real && ones[l] == 1.0
    ensures SumProducts(xs, ones) == (|xs| * c + d * Triangle(|xs|)) as real
    decreases |xs|
  {
    if xs != [] {
      var n := |xs| - 1;
      ProgressionSum(xs[..n], ones[..n], c, d);
      NextMultiple(n, c, d, Triangle(n));
      assert Init(xs) == xs[..n] && Init(ones) == ones[..n];
      assert Last(xs) == (c + n * d) as real && Last(ones) == 1.0;
    }
  }

  /** Two progressions with equal sums for the first two rows have equal steps, wherever there are two
      terms, or two rows, to tell apart. */
  lemma ProgressionsCompared(k: nat, m: nat, base: int, ri: int, rl: int, ri': int, rl': int)
    requires k > 0 && m > 0
    requires k * base + rl * Triangle(k) == k * base + rl' * Triangle(k)
    requires m > 1 ==> k * (base + ri) + rl * Triangle(k) == k * (base + ri') + rl' * Triangle(k)
    ensures (k > 1 ==> rl == rl') && (m > 1 ==> ri == ri')
  {
    var t := Triangle(k);
    if k > 1 {
      TrianglePositive(k);
      Cancel(t, rl, rl');
    }
    if m > 1 {
      assert k * (base + ri) == k * base + k * ri && k * (base + ri') == k * base + k * ri';
      Cancel(k, ri, ri');
    }
  }

  lemma Cancel(t: nat, x: int, y: int)
    requires t > 0 && (x * t == y * t || t * x == t * y)
    ensures x == y
  {
    var e := x - y;
    assert e * t == 0;
  }

  /** The steps of the loops through op(A), and those of the call. */
  function LoopSteps(o: Operand, flag: int): (int, int) {
    if flag != 0 then (o.colStride, o.rowStride) else (o.rowStride, o.colStride)
  }

  function CallSteps(o: Operand, flag: int): (int, int) {
    var byRow, byColumn := if ByRows(o, flag) then o.Ld() else 1, if ByRows(o, flag) then 1 else o.Ld();
    if flag != 0 then (byColumn, byRow) else (byRow, byColumn)
  }

  lemma StepsA(f: Fields, s: Scalars, i: nat, l: nat)
    ensures AddrA(f, s, 0, i, l) == f.a.base + i * LoopSteps(f.a, s.ta).0 + l * LoopSteps(f.a, s.ta).1
    ensures CallA(f, s, 0, i, l) == f.a.base + i * CallSteps(f.a, s.ta).0 + l * CallSteps(f.a, s.ta).1
  {
  }

  lemma StepsB(f: Fields, s: Scalars, l: nat, j: nat)
    ensures AddrB(f, s, 0, l, j) == f.b.base + l * LoopSteps(f.b, s.tb).0 + j * LoopSteps(f.b, s.tb).1
    ensures CallB(f, s, 0, l, j) == f.b.base + l * CallSteps(f.b, s.tb).0 + j * CallSteps(f.b, s.tb).1
  {
  }

  /** Both paths give the same products for C(0, i, j). */
  ghost predicate SameProduct(f: Fields, s: Scalars, A: seq<real>, B: seq<real>, sizeC: nat, i: nat, j: nat)
    requires Callable(f, s, |A|, |B|, sizeC) && InRange(f, s, |A|, |B|, sizeC) && Accepts(CallOf(f, s))
    requires f.batchCount > 0 && i < f.m && j < f.n
  {
    CallReads(f, s, A, B, sizeC, 0, i, j);
    SumProducts(CallRow(f, s, A, 0, i), CallColumn(f, s, B, 0, j))
      == SumProducts(RowA(f, s, A, 0, i), ColumnB(f, s, B, 0, j))
  }

  lemma StoredEntry(f: Fields, s: Scalars, A: seq<real>, B: seq<real>, before: seq<real>, after: seq<real>,
      b: nat, i: nat, j: nat)
    requires Callable(f, s, |A|, |B|, |before|) && InRange(f, s, |A|, |B|, |before|)
    requires Accepts(CallOf(f, s)) && OperandAgrees(f.c, 0) && b < f.batchCount && i < f.m && j < f.n
    requires IsGemm(f, s, A, B, before, after)
    requires BlasResult(CallOf(f, s), First(f, A, B), Second(f, A, B), before, after)
    ensures CallEntry(f, s, A, B, before, b, i, j) == Entry(f, s, A, B, before, b, i, j)
  {
    hide CallEntry, Entry, ColumnEntry, OperandAgrees, Accepts, InRange;
    TargetCell(f, b, i, j);
    CallEntryIsStored(f, s, A, B, before, b, i, j);
  }

  lemma EqualEntriesEqualProducts(f: Fields, s: Scalars, A: seq<real>, B: seq<real>, before: seq<real>, i: nat, j: nat)
    requires Callable(f, s, |A|, |B|, |before|) && InRange(f, s, |A|, |B|, |before|) && Accepts(CallOf(f, s))
    requires f.batchCount > 0 && i < f.m && j < f.n && s.alpha != 0.0
    requires forall p :: 0 <= p < |before| ==> before[p] == 0.0
    requires CallEntry(f, s, A, B, before, 0, i, j) == Entry(f, s, A, B, before, 0, i, j)
    ensures SameProduct(f, s, A, B, |before|, i, j)
  {
    CallReads(f, s, A, B, |before|, 0, i, j);
    hide SumProducts, InRange, Accepts, CallA, CallB, AddrA, AddrB, BlasCell;
    var x := SumProducts(CallRow(f, s, A, 0, i), CallColumn(f, s, B, 0, j));
    var y := SumProducts(RowA(f, s, A, 0, i), ColumnB(f, s, B, 0, j));
    assert CallEntry(f, s, A, B, before, 0, i, j) == Combine(s.alpha, x, s.beta, 0.0);
    assert Entry(f, s, A, B, before, 0, i, j) == Combine(s.alpha, y, s.beta, 0.0);
    hide *;
    CombineCancel(s.alpha, x, y, s.beta);
  }

  lemma CombineCancel(alpha: real, x: real, y: real, beta: real)
    requires alpha != 0.0 && Combine(alpha, x, beta, 0.0) == Combine(alpha, y, beta, 0.0)
    ensures x == y
  {
    CancelReal(alpha, x, y);
  }

  lemma CancelReal(a: real, x: real, y: real)
    requires a != 0.0 && a * x == a * y
    ensures x == y
  {
    assert a * (x - y) == 0.0;
  }

  /** What the converse supposes: paths that agree on a call with work to do that BLAS accepts. */
  ghost predicate Agreeing(f: Fields, s: Scalars, sizeA: nat, sizeB: nat, sizeC: nat) {
    && Callable(f, s, sizeA, sizeB, sizeC) && InRange(f, s, sizeA, sizeB, sizeC) && PathsAgree(f, s, sizeA, sizeB, sizeC)
    && Accepts(CallOf(f, s)) && OperandAgrees(f.c, 0) && Separate(f.c, f.batchCount)
    && s.alpha != 0.0 && f.batchCount > 0 && f.m > 0 && f.n > 0 && f.k > 0
  }

  /** Paths that agree compute the same products. */
  lemma AgreementGivesProducts(f: Fields, s: Scalars, A: seq<real>, B: seq<real>, sizeC: nat, i: nat, j: nat)
    requires Agreeing(f, s, |A|, |B|, sizeC) && i < f.m && j < f.n
    ensures SameProduct(f, s, A, B, sizeC, i, j)
  {
    hide Callable, InRange, Separate, OperandAgrees, Accepts, IsGemm, BlasResult, SameProduct, Entry, CallEntry;
    var before := Constant(sizeC, 0.0);
    var after := OutcomeExists(f, s, A, B, before);
    assert SameOutcome(f, s, A, B, before, after);
    StoredEntry(f, s, A, B, before, after, 0, i, j);
    EqualEntriesEqualProducts(f, s, A, B, before, i, j);
  }

  /** Row `i` of op(A), each cell holding its number, as the loops and as the call read it. */
  lemma NumbersInRow(f: Fields, s: Scalars, A: seq<real>, i: nat)
    requires ShapesMatch(f, s) && InMemory(f.a, f.batchCount, |A|) && 0 < f.batchCount && i < f.m
    requires forall l: nat :: l < f.k ==> 0 <= CallA(f, s, 0, i, l) < |A|
    requires forall p :: 0 <= p < |A| ==> A[p] == p as real
    ensures forall l :: 0 <= l < f.k ==>
              RowA(f, s, A, 0, i)[l] == (f.a.base + i * LoopSteps(f.a, s.ta).0 + l * LoopSteps(f.a, s.ta).1) as real
    ensures forall l :: 0 <= l < f.k ==>
              CallRow(f, s, A, 0, i)[l] == (f.a.base + i * CallSteps(f.a, s.ta).0 + l * CallSteps(f.a, s.ta).1) as real
  {
    hide LoopSteps, CallSteps, CallA;
    forall l: nat | l < f.k
      ensures RowA(f, s, A, 0, i)[l] == (f.a.base + i * LoopSteps(f.a, s.ta).0 + l * LoopSteps(f.a, s.ta).1) as real
      ensures CallRow(f, s, A, 0, i)[l] == (f.a.base + i * CallSteps(f.a, s.ta).0 + l * CallSteps(f.a, s.ta).1) as real
    {
      StepsA(f, s, i, l);
    }
  }

  lemma NumbersInColumn(f: Fields, s: Scalars, B: seq<real>, j: nat)
    requires ShapesMatch(f, s) && InMemory(f.b, f.batchCount, |B|) && 0 < f.batchCount && j < f.n
    requires forall l: nat :: l < f.k ==> 0 <= CallB(f, s, 0, l, j) < |B|
    requires forall p :: 0 <= p < |B| ==> B[p] == p as real
    ensures forall l :: 0 <= l < f.k ==>
              ColumnB(f, s, B, 0, j)[l] == (f.b.base + j * LoopSteps(f.b, s.tb).1 + l * LoopSteps(f.b, s.tb).0) as real
    ensures forall l :: 0 <= l < f.k ==>
              CallColumn(f, s, B, 0, j)[l] == (f.b.base + j * CallSteps(f.b, s.tb).1 + l * CallSteps(f.b, s.tb).0) as real
  {
    hide LoopSteps, CallSteps, CallB;
    forall l: nat | l < f.k
      ensures ColumnB(f, s, B, 0, j)[l] == (f.b.base + j * LoopSteps(f.b, s.tb).1 + l * LoopSteps(f.b, s.tb).0) as real
      ensures CallColumn(f, s, B, 0, j)[l] == (f.b.base + j * CallSteps(f.b, s.tb).1 + l * CallSteps(f.b, s.tb).0) as real
    {
      StepsB(f, s, l, j);
    }
  }

  /** The sums over row `i` of op(A), each cell holding its number, against ones. */
  lemma NumberedRow(f: Fields, s: Scalars, sizeA: nat, sizeB: nat, sizeC: nat, i: nat)
    requires Agreeing(f, s, sizeA, sizeB, sizeC) && i < f.m
    ensures var loop, call, t := LoopSteps(f.a, s.ta), CallSteps(f.a, s.ta), Triangle(f.k);
      f.k * (f.a.base + i * loop.0) + loop.1 * t == f.k * (f.a.base + i * call.0) + call.1 * t
  {
    hide SumProducts, LoopSteps, CallSteps, CallA, CallB, InRange, Accepts, PathsAgree;
    var A, B := CellNumbers(sizeA), Constant(sizeB, 1.0);
    AgreementGivesProducts(f, s, A, B, sizeC, i, 0);
    CallReads(f, s, A, B, sizeC, 0, i, 0);
    var loop, call := LoopSteps(f.a, s.ta), CallSteps(f.a, s.ta);
    NumbersInRow(f, s, A, i);
    ProgressionSum(RowA(f, s, A, 0, i), ColumnB(f, s, B, 0, 0), f.a.base + i * loop.0, loop.1);
    ProgressionSum(CallRow(f, s, A, 0, i), CallColumn(f, s, B, 0, 0), f.a.base + i * call.0, call.1);
  }

  lemma NumberedColumn(f: Fields, s: Scalars, sizeA: nat, sizeB: nat, sizeC: nat, j: nat)
    requires Agreeing(f, s, sizeA, sizeB, sizeC) && j < f.n
    ensures var loop, call, t := LoopSteps(f.b, s.tb), CallSteps(f.b, s.tb), Triangle(f.k);
      f.k * (f.b.base + j * loop.1) + loop.0 * t == f.k * (f.b.base + j * call.1) + call.0 * t
  {
    hide SumProducts, LoopSteps, CallSteps, CallA, CallB, InRange, Accepts, PathsAgree;
    var A, B := Constant(sizeA, 1.0), CellNumbers(sizeB);
    AgreementGivesProducts(f, s, A, B, sizeC, 0, j);
    CallReads(f, s, A, B, sizeC, 0, 0, j);
    var loop, call := LoopSteps(f.b, s.tb), CallSteps(f.b, s.tb);
    NumbersInColumn(f, s, B, j);
    ProgressionSum(ColumnB(f, s, B, 0, j), RowA(f, s, A, 0, 0), f.b.base + j * loop.1, loop.0);
    ProgressionSum(CallColumn(f, s, B, 0, j), CallRow(f, s, A, 0, 0), f.b.base + j * call.1, call.0);
    SumProductsCommutes(ColumnB(f, s, B, 0, j), RowA(f, s, A, 0, 0));
    SumProductsCommutes(CallColumn(f, s, B, 0, j), CallRow(f, s, A, 0, 0));
  }

  /** Paths that agree on C address both inputs alike. */
  lemma AgreementFits(f: Fields, s: Scalars, sizeA: nat, sizeB: nat, sizeC: nat)
    requires Agreeing(f, s, sizeA, sizeB, sizeC)
    ensures StridesFit(f.a, s.ta) && StridesFit(f.b, s.tb)
  {
    hide PathsAgree, InRange, Accepts, InMemory, OperandAgrees, LoopSteps, CallSteps, StridesFit;
    NumberedRow(f, s, sizeA, sizeB, sizeC, 0);
    NumberedColumn(f, s, sizeA, sizeB, sizeC, 0);
    if f.m > 1 {
      NumberedRow(f, s, sizeA, sizeB, sizeC, 1);
    }
    if f.n > 1 {
      NumberedColumn(f, s, sizeA, sizeB, sizeC, 1);
    }
    assert ShapesMatch(f, s);
    var la, ca, lb, cb := LoopSteps(f.a, s.ta), CallSteps(f.a, s.ta), LoopSteps(f.b, s.tb), CallSteps(f.b, s.tb);
    hide Agreeing, ShapesMatch;
    ProgressionsCompared(f.k, f.m, f.a.base, la.0, la.1, ca.0, ca.1);
    ProgressionsCompared(f.k, f.n, f.b.base, lb.1, lb.0, cb.1, cb.0);
    assert (f.k > 1 ==> la.1 == ca.1) && (f.m > 1 ==> la.0 == ca.0);
    assert (f.k > 1 ==> lb.0 == cb.0) && (f.n > 1 ==> lb.1 == cb.1);
    StepsDecide(f, s);
  }

  lemma StepsDecide(f: Fields, s: Scalars)
    requires ShapesMatch(f, s)
    requires f.m > 1 ==> LoopSteps(f.a, s.ta).0 == CallSteps(f.a, s.ta).0
    requires f.k > 1 ==> LoopSteps(f.a, s.ta).1 == CallSteps(f.a, s.ta).1
    requires f.k > 1 ==> LoopSteps(f.b, s.tb).0 == CallSteps(f.b, s.tb).0
    requires f.n > 1 ==> LoopSteps(f.b, s.tb).1 == CallSteps(f.b, s.tb).1
    ensures StridesFit(f.a, s.ta) && StridesFit(f.b, s.tb)
  {
  }

  // ---------------------------------------------------------------------------
  // Uniform memories: which cells are written, and whether any is
  // ---------------------------------------------------------------------------

  /** Both paths give every entry of C the value `v`, and C held `w` everywhere. */
  ghost predicate Uniform(f: Fields, s: Scalars, A: seq<real>, B: seq<real>, before: seq<real>, v: real, w: real)
    requires Callable(f, s, |A|, |B|, |before|) && InRange(f, s, |A|, |B|, |before|)
  {
    && (forall p :: 0 <= p < |before| ==> before[p] == w)
    && (forall b: nat, i: nat, j: nat :: b < f.batchCount && i < f.m && j < f.n ==>
          Entry(f, s, A, B, before, b, i, j) == v)
    && (Accepts(CallOf(f, s)) ==> forall b: nat, i: nat, j: nat :: b < f.batchCount && i < f.m && j < f.n ==>
          CallEntry(f, s, A, B, before, b, i, j) == v)
  }

  lemma TouchesAreTargets(f: Fields, s: Scalars, p: int)
    requires f.c.rows == f.m && f.c.cols == f.n
    ensures Touches(CallOf(f, s), p) <==> Targets(f.c, f.batchCount, p)
  {
    var q := CallOf(f, s);
    if Touches(q, p) {
      var b: nat, i: nat, j: nat :| b < q.batchCount && i < q.m && j < q.n && q.c.At(NoTrans, b, i, j) == p;
      if SwapsOperands(f) {
        CallCells(f, s, b, j, i, 0);
        assert BlasCell(f.c, 0, b, j, i) == p;
      } else {
        CallCells(f, s, b, i, j, 0);
        assert BlasCell(f.c, 0, b, i, j) == p;
      }
    }
    if Targets(f.c, f.batchCount, p) {
      var b: nat, i: nat, j: nat :| b < f.batchCount && i < f.c.rows && j < f.c.cols && BlasCell(f.c, 0, b, i, j) == p;
      CallCells(f, s, b, i, j, 0);
      if SwapsOperands(f) {
        assert q.c.At(NoTrans, b, j, i) == p;
      } else {
        assert q.c.At(NoTrans, b, i, j) == p;
      }
    }
  }

  /** The outcome of the call on uniform memories. */
  lemma UniformOutcome(f: Fields, s: Scalars, A: seq<real>, B: seq<real>, before: seq<real>, v: real, w: real)
      returns (after: seq<real>)
    requires Callable(f, s, |A|, |B|, |before|) && InRange(f, s, |A|, |B|, |before|) && Accepts(CallOf(f, s))
    requires Uniform(f, s, A, B, before, v, w)
    ensures BlasResult(CallOf(f, s), First(f, A, B), Second(f, A, B), before, after)
    ensures forall p :: 0 <= p < |after| ==> after[p] == if Touches(CallOf(f, s), p) then v else w
  {
    var q := CallOf(f, s);
    after := seq(|before|, p requires 0 <= p < |before| => if Touches(q, p) then v else w);
    hide CallEntry, Entry, ColumnEntry, Accepts;
    forall b: nat, i': nat, j': nat | b < q.batchCount && i' < q.m && j' < q.n
      ensures after[q.c.At(NoTrans, b, i', j')] == ColumnEntry(q, First(f, A, B), Second(f, A, B), before, b, i', j')
    {
      var i, j := if SwapsOperands(f) then j' else i', if SwapsOperands(f) then i' else j';
      CallEntryIsStored(f, s, A, B, before, b, i, j);
      assert Touches(q, q.c.At(NoTrans, b, i', j'));
    }
  }

  /** If the paths agree on uniform memories that change, they write the same cells. */
  lemma UniformSupport(f: Fields, s: Scalars, A: seq<real>, B: seq<real>, before: seq<real>, v: real, w: real)
    requires Callable(f, s, |A|, |B|, |before|) && InRange(f, s, |A|, |B|, |before|)
    requires PathsAgree(f, s, |A|, |B|, |before|) && Uniform(f, s, A, B, before, v, w) && v != w
    ensures Accepts(CallOf(f, s)) ==> SameTargetCells(f.c, f.batchCount)
    ensures !Accepts(CallOf(f, s)) ==> !HasEntries(f)
  {
    if Accepts(CallOf(f, s)) {
      var after := UniformOutcome(f, s, A, B, before, v, w);
      assert SameOutcome(f, s, A, B, before, after);
      forall p ensures Addresses(f.c, f.batchCount, p) <==> Targets(f.c, f.batchCount, p) {
        TargetsInside(f, s, |A|, |B|, |before|, p);
        TouchesAreTargets(f, s, p);
        WrittenByLoops(f, s, A, B, before, after, v, w, p);
      }
    } else {
      assert SameOutcome(f, s, A, B, before, before);
      UniformChanges(f, s, A, B, before, v, w);
    }
  }

  lemma UniformChanges(f: Fields, s: Scalars, A: seq<real>, B: seq<real>, before: seq<real>, v: real, w: real)
    requires Callable(f, s, |A|, |B|, |before|) && InRange(f, s, |A|, |B|, |before|)
    requires Uniform(f, s, A, B, before, v, w) && v != w
    ensures HasEntries(f) ==> !IsGemm(f, s, A, B, before, before)
  {
    if HasEntries(f) {
      assert Entry(f, s, A, B, before, 0, 0, 0) == v;
      assert before[f.c.At(0, 0, 0)] == w;
    }
  }

  lemma TargetsInside(f: Fields, s: Scalars, sizeA: nat, sizeB: nat, sizeC: nat, p: int)
    requires Callable(f, s, sizeA, sizeB, sizeC) && InRange(f, s, sizeA, sizeB, sizeC) && Accepts(CallOf(f, s))
    ensures Addresses(f.c, f.batchCount, p) || Targets(f.c, f.batchCount, p) ==> 0 <= p < sizeC
  {
    if Targets(f.c, f.batchCount, p) {
      var b: nat, i: nat, j: nat :| b < f.batchCount && i < f.c.rows && j < f.c.cols && BlasCell(f.c, 0, b, i, j) == p;
      hide CallA, CallB, BlasCell, InRange, Accepts;
      CallStaysInside(f, s, sizeA, sizeB, sizeC, b, i, j, 0);
    }
  }

  lemma WrittenByLoops(f: Fields, s: Scalars, A: seq<real>, B: seq<real>, before: seq<real>, after: seq<real>,
      v: real, w: real, p: int)
    requires Callable(f, s, |A|, |B|, |before|) && InRange(f, s, |A|, |B|, |before|)
    requires Uniform(f, s, A, B, before, v, w) && v != w && IsGemm(f, s, A, B, before, after)
    ensures 0 <= p < |before| ==> (Addresses(f.c, f.batchCount, p) <==> after[p] == v)
  {
    hide Entry, CallEntry, InRange, Accepts;
    if Addresses(f.c, f.batchCount, p) {
      var b: nat, i: nat, j: nat :| b < f.batchCount && i < f.c.rows && j < f.c.cols && f.c.At(b, i, j) == p;
      assert after[f.c.At(b, i, j)] == Entry(f, s, A, B, before, b, i, j);
    }
  }

  /** C has an entry, and the product counts. */
  predicate HasEntries(f: Fields) {
    f.batchCount > 0 && f.m > 0 && f.n > 0
  }

  predicate HasProducts(f: Fields, s: Scalars) {
    f.k > 0 && s.alpha != 0.0
  }

  lemma OnesTimesOnes(xs: seq<real>, ys: seq<real>)
    requires |xs| == |ys| && forall l :: 0 <= l < |xs| ==> xs[l] == 1.0 && ys[l] == 1.0
    ensures SumProducts(xs, ys) == |xs| as real
  {
    ProgressionSum(xs, ys, 1, 0);
  }

  lemma OnesEntry(f: Fields, s: Scalars, A: seq<real>, B: seq<real>, before: seq<real>, b: nat, i: nat, j: nat)
    requires Callable(f, s, |A|, |B|, |before|) && b < f.batchCount && i < f.m && j < f.n
    requires (forall p :: 0 <= p < |A| ==> A[p] == 1.0) && (forall p :: 0 <= p < |B| ==> B[p] == 1.0)
    requires forall p :: 0 <= p < |before| ==> before[p] == 0.0
    ensures Entry(f, s, A, B, before, b, i, j) == s.alpha * f.k as real
  {
    OnesTimesOnes(RowA(f, s, A, b, i), ColumnB(f, s, B, b, j));
    hide SumProducts;
  }

  lemma OnesCallEntry(f: Fields, s: Scalars, A: seq<real>, B: seq<real>, before: seq<real>, b: nat, i: nat, j: nat)
    requires InRange(f, s, |A|, |B|, |before|) && Accepts(CallOf(f, s)) && b < f.batchCount && i < f.m && j < f.n
    requires (forall p :: 0 <= p < |A| ==> A[p] == 1.0) && (forall p :: 0 <= p < |B| ==> B[p] == 1.0)
    requires forall p :: 0 <= p < |before| ==> before[p] == 0.0
    ensures CallEntry(f, s, A, B, before, b, i, j) == s.alpha * f.k as real
  {
    hide SumProducts, Accepts, InRange, CallA, CallB, BlasCell;
    CallReads(f, s, A, B, |before|, b, i, j);
    OnesTimesOnes(CallRow(f, s, A, b, i), CallColumn(f, s, B, b, j));
  }

  /** All ones times all ones, onto zeros. */
  lemma OnesAreUniform(f: Fields, s: Scalars, A: seq<real>, B: seq<real>, before: seq<real>)
    requires Callable(f, s, |A|, |B|, |before|) && InRange(f, s, |A|, |B|, |before|)
    requires (forall p :: 0 <= p < |A| ==> A[p] == 1.0) && (forall p :: 0 <= p < |B| ==> B[p] == 1.0)
    requires forall p :: 0 <= p < |before| ==> before[p] == 0.0
    ensures Uniform(f, s, A, B, before, s.alpha * f.k as real, 0.0)
  {
    hide Callable, InRange, Accepts, Entry, CallEntry;
    forall b: nat, i: nat, j: nat | b < f.batchCount && i < f.m && j < f.n
      ensures Entry(f, s, A, B, before, b, i, j) == s.alpha * f.k as real
      ensures Accepts(CallOf(f, s)) ==> CallEntry(f, s, A, B, before, b, i, j) == s.alpha * f.k as real
    {
      OnesEntry(f, s, A, B, before, b, i, j);
      if Accepts(CallOf(f, s)) {
        OnesCallEntry(f, s, A, B, before, b, i, j);
      }
    }
  }

  lemma NoProductsEntry(f: Fields, s: Scalars, A: seq<real>, B: seq<real>, before: seq<real>, b: nat, i: nat, j: nat)
    requires Callable(f, s, |A|, |B|, |before|) && InRange(f, s, |A|, |B|, |before|) && !HasProducts(f, s)
    requires b < f.batchCount && i < f.m && j < f.n
    ensures Entry(f, s, A, B, before, b, i, j) == s.beta * before[f.c.At(b, i, j)]
    ensures Accepts(CallOf(f, s)) ==>
              && 0 <= BlasCell(f.c, 0, b, i, j) < |before|
              && CallEntry(f, s, A, B, before, b, i, j) == s.beta * before[BlasCell(f.c, 0, b, i, j)]
  {
    assert SumProducts([], []) == 0.0;
    if Accepts(CallOf(f, s)) {
      CallReads(f, s, A, B, |before|, b, i, j);
    }
  }

  // ---------------------------------------------------------------------------
  // The exact condition
  // ---------------------------------------------------------------------------

  /** When the two paths leave the same C: always if C is empty; if the product does not count, when
      C is to stay as it is or the call scales the right cells; otherwise when the strides of all three
      operands fit. */
  predicate AgreementCondition(f: Fields, s: Scalars) {
    if !HasEntries(f) then true
    else if !HasProducts(f, s) then s.beta == 1.0 || (Accepts(CallOf(f, s)) && StridesFit(f.c, 0))
    else LayoutOk(f.a, s.ta) && LayoutOk(f.b, s.tb) && LayoutOk(f.c, 0)
  }

  /** With the entries of C in cells of their own, the BLAS call and the CPU loops have the same
      outcomes, for all contents of A, B and C, if and only if that condition holds. */
  lemma PathsAgreeExactly(f: Fields, s: Scalars, sizeA: nat, sizeB: nat, sizeC: nat)
    requires Callable(f, s, sizeA, sizeB, sizeC) && InRange(f, s, sizeA, sizeB, sizeC) && Separate(f.c, f.batchCount)
    ensures PathsAgree(f, s, sizeA, sizeB, sizeC) <==> AgreementCondition(f, s)
  {
    hide Callable, InRange, Accepts, Separate, StridesFit, LayoutOk;
    if !HasEntries(f) {
      NoEntriesAgree(f, s, sizeA, sizeB, sizeC);
    } else if HasProducts(f, s) {
      ProductsAgree(f, s, sizeA, sizeB, sizeC);
    } else {
      NoProductsAgree(f, s, sizeA, sizeB, sizeC);
    }
  }

  lemma TargetsFit(f: Fields, s: Scalars, sizeA: nat, sizeB: nat, sizeC: nat)
    requires Callable(f, s, sizeA, sizeB, sizeC) && HasEntries(f) && Separate(f.c, f.batchCount)
    requires Accepts(CallOf(f, s)) && SameTargetCells(f.c, f.batchCount)
    ensures StridesFit(f.c, 0) && OperandAgrees(f.c, 0)
  {
    SameTargetsFit(f.c, f.batchCount);
    OperandAgreesExactly(f.c, 0);
  }

  lemma ProductsAgree(f: Fields, s: Scalars, sizeA: nat, sizeB: nat, sizeC: nat)
    requires Callable(f, s, sizeA, sizeB, sizeC) && InRange(f, s, sizeA, sizeB, sizeC) && Separate(f.c, f.batchCount)
    requires HasEntries(f) && HasProducts(f, s)
    ensures PathsAgree(f, s, sizeA, sizeB, sizeC)
       <==> LayoutOk(f.a, s.ta) && LayoutOk(f.b, s.tb) && LayoutOk(f.c, 0)
  {
    if PathsAgree(f, s, sizeA, sizeB, sizeC) {
      var A, B, before := Constant(sizeA, 1.0), Constant(sizeB, 1.0), Constant(sizeC, 0.0);
      OnesAreUniform(f, s, A, B, before);
      assert s.alpha * f.k as real != 0.0;
      UniformSupport(f, s, A, B, before, s.alpha * f.k as real, 0.0);
      TargetsFit(f, s, sizeA, sizeB, sizeC);
      AgreementFits(f, s, sizeA, sizeB, sizeC);
      hide *;
      AgreementLayout(f, s);
    } else if LayoutOk(f.a, s.ta) && LayoutOk(f.b, s.tb) && LayoutOk(f.c, 0) {
      FittingPathsAgree(f, s, sizeA, sizeB, sizeC);
    }
  }

  lemma AgreementLayout(f: Fields, s: Scalars)
    requires ShapesMatch(f, s) && Accepts(CallOf(f, s))
    requires StridesFit(f.a, s.ta) && StridesFit(f.b, s.tb) && StridesFit(f.c, 0)
    ensures LayoutOk(f.a, s.ta) && LayoutOk(f.b, s.tb) && LayoutOk(f.c, 0)
  {
    OperandAgreesExactly(f.a, s.ta);
    OperandAgreesExactly(f.b, s.tb);
    OperandAgreesExactly(f.c, 0);
    CallAgreesExactly(f, s);
  }

  lemma FittingPathsAgree(f: Fields, s: Scalars, sizeA: nat, sizeB: nat, sizeC: nat)
    requires Callable(f, s, sizeA, sizeB, sizeC) && InRange(f, s, sizeA, sizeB, sizeC)
    requires LayoutOk(f.a, s.ta) && LayoutOk(f.b, s.tb) && LayoutOk(f.c, 0)
    ensures PathsAgree(f, s, sizeA, sizeB, sizeC)
  {
    hide Callable, InRange, LayoutOk, SameOutcome;
    forall A: seq<real>, B: seq<real>, before: seq<real>, after: seq<real> | |A| == sizeA && |B| == sizeB && |before| == sizeC
      ensures SameOutcome(f, s, A, B, before, after)
    {
      BlasMatchesLoops(f, s, A, B, before, after);
    }
  }

  lemma NoEntriesAgree(f: Fields, s: Scalars, sizeA: nat, sizeB: nat, sizeC: nat)
    requires Callable(f, s, sizeA, sizeB, sizeC) && InRange(f, s, sizeA, sizeB, sizeC) && !HasEntries(f)
    ensures PathsAgree(f, s, sizeA, sizeB, sizeC)
  {
    forall A: seq<real>, B: seq<real>, before: seq<real>, after: seq<real> | |A| == sizeA && |B| == sizeB && |before| == sizeC
      ensures SameOutcome(f, s, A, B, before, after)
    {
      assert forall p :: !Addresses(f.c, f.batchCount, p) && !Touches(CallOf(f, s), p);
    }
  }

  lemma NoProductsAgree(f: Fields, s: Scalars, sizeA: nat, sizeB: nat, sizeC: nat)
    requires Callable(f, s, sizeA, sizeB, sizeC) && InRange(f, s, sizeA, sizeB, sizeC) && Separate(f.c, f.batchCount)
    requires HasEntries(f) && !HasProducts(f, s)
    ensures PathsAgree(f, s, sizeA, sizeB, sizeC) <==> s.beta == 1.0 || (Accepts(CallOf(f, s)) && StridesFit(f.c, 0))
  {
    OperandAgreesExactly(f.c, 0);
    hide Callable, InRange, Accepts, Separate, StridesFit, OperandAgrees, SameOutcome;
    if s.beta == 1.0 {
      forall A: seq<real>, B: seq<real>, before: seq<real>, after: seq<real> | |A| == sizeA && |B| == sizeB && |before| == sizeC
        ensures SameOutcome(f, s, A, B, before, after)
      {
        NothingChanges(f, s, A, B, before, after);
      }
    } else if Accepts(CallOf(f, s)) && StridesFit(f.c, 0) {
      forall A: seq<real>, B: seq<real>, before: seq<real>, after: seq<real> | |A| == sizeA && |B| == sizeB && |before| == sizeC
        ensures SameOutcome(f, s, A, B, before, after)
      {
        NoProductsAccepted(f, s, A, B, before, after);
      }
    } else if PathsAgree(f, s, sizeA, sizeB, sizeC) {
      ScalingShows(f, s, sizeA, sizeB, sizeC);
    }
  }

  /** Scaling a C of ones shows which cells are scaled. */
  lemma ScalingShows(f: Fields, s: Scalars, sizeA: nat, sizeB: nat, sizeC: nat)
    requires Callable(f, s, sizeA, sizeB, sizeC) && InRange(f, s, sizeA, sizeB, sizeC) && Separate(f.c, f.batchCount)
    requires HasEntries(f) && !HasProducts(f, s) && s.beta != 1.0 && PathsAgree(f, s, sizeA, sizeB, sizeC)
    ensures Accepts(CallOf(f, s)) && StridesFit(f.c, 0)
  {
    var A, B, before := Constant(sizeA, 1.0), Constant(sizeB, 1.0), Constant(sizeC, 1.0);
    hide Callable, InRange, Accepts, Separate, StridesFit, OperandAgrees, Entry, CallEntry, BlasCell, PathsAgree;
    assert Uniform(f, s, A, B, before, s.beta, 1.0) by {
      forall b: nat, i: nat, j: nat | b < f.batchCount && i < f.m && j < f.n
        ensures Entry(f, s, A, B, before, b, i, j) == s.beta
        ensures Accepts(CallOf(f, s)) ==> CallEntry(f, s, A, B, before, b, i, j) == s.beta
      {
        NoProductsEntry(f, s, A, B, before, b, i, j);
        EntryInside(f, s, sizeA, sizeB, sizeC, b, i, j);
      }
    }
    UniformSupport(f, s, A, B, before, s.beta, 1.0);
    TargetsFit(f, s, sizeA, sizeB, sizeC);
  }

  lemma EntryInside(f: Fields, s: Scalars, sizeA: nat, sizeB: nat, sizeC: nat, b: nat, i: nat, j: nat)
    requires Callable(f, s, sizeA, sizeB, sizeC) && b < f.batchCount && i < f.m && j < f.n
    ensures 0 <= f.c.At(b, i, j) < sizeC
  {
  }

  lemma NoProductsAccepted(f: Fields, s: Scalars, A: seq<real>, B: seq<real>, before: seq<real>, after: seq<real>)
    requires Callable(f, s, |A|, |B|, |before|) && InRange(f, s, |A|, |B|, |before|) && Accepts(CallOf(f, s))
    requires !HasProducts(f, s) && OperandAgrees(f.c, 0)
    ensures SameOutcome(f, s, A, B, before, after)
  {
    hide InRange, Accepts, OperandAgrees, Entry, CallEntry, SameOutcome;
    forall b: nat, i: nat, j: nat | b < f.batchCount && i < f.m && j < f.n
      ensures CallEntry(f, s, A, B, before, b, i, j) == Entry(f, s, A, B, before, b, i, j)
    {
      TargetCell(f, b, i, j);
      NoProductsEntry(f, s, A, B, before, b, i, j);
    }
    EntriesDecide(f, s, A, B, before, after);
  }

  /** With beta 1 and no product, both paths mean that C stays as it is. */
  lemma NothingChanges(f: Fields, s: Scalars, A: seq<real>, B: seq<real>, before: seq<real>, after: seq<real>)
    requires Callable(f, s, |A|, |B|, |before|) && InRange(f, s, |A|, |B|, |before|)
    requires !HasProducts(f, s) && s.beta == 1.0
    ensures SameOutcome(f, s, A, B, before, after)
  {
    forall b: nat, i: nat, j: nat | b < f.batchCount && i < f.m && j < f.n
      ensures Entry(f, s, A, B, before, b, i, j) == before[f.c.At(b, i, j)]
    {
      NoProductsEntry(f, s, A, B, before, b, i, j);
    }
    if IsGemm(f, s, A, B, before, after) {
      OutcomeUnique(f, s, A, B, before, before, after);
    }
    BlasChangesNothing(f, s, A, B, before, after);
  }

  lemma BlasChangesNothing(f: Fields, s: Scalars, A: seq<real>, B: seq<real>, before: seq<real>, after: seq<real>)
    requires Callable(f, s, |A|, |B|, |before|) && InRange(f, s, |A|, |B|, |before|)
    requires !HasProducts(f, s) && s.beta == 1.0
    ensures BlasResult(CallOf(f, s), First(f, A, B), Second(f, A, B), before, after) <==> after == before
  {
    var q := CallOf(f, s);
    if Accepts(q) {
      hide Accepts, Entry, CallEntry, ColumnEntry;
      forall b: nat, i': nat, j': nat | b < q.batchCount && i' < q.m && j' < q.n
        ensures ColumnEntry(q, First(f, A, B), Second(f, A, B), before, b, i', j') == before[q.c.At(NoTrans, b, i', j')]
      {
        var i, j := if SwapsOperands(f) then j' else i', if SwapsOperands(f) then i' else j';
        CallEntryIsStored(f, s, A, B, before, b, i, j);
        NoProductsEntry(f, s, A, B, before, b, i, j);
      }
      if BlasResult(q, First(f, A, B), Second(f, A, B), before, after) {
        forall p | 0 <= p < |before| ensures after[p] == before[p] {
          assert Touches(q, p) ==> exists b: nat, i: nat, j: nat ::
            b < q.batchCount && i < q.m && j < q.n && q.c.At(NoTrans, b, i, j) == p;
        }
      }
    }
  }

  // ---------------------------------------------------------------------------
  // Two calls on which the paths differ
  // ---------------------------------------------------------------------------

  lemma ShortSums(x: real, y: real, u: real, v: real)
    ensures SumProducts([x], [u]) == x * u && SumProducts([x, y], [u, v]) == x * u + y * v
  {
    assert Init([x]) == [] && Init([x, y]) == [x] && Init([u]) == [] && Init([u, v]) == [u];
    assert SumProducts([], []) == 0.0;
  }

  /** A call whose C has two rows of one cell. */
  predicate TwoRows(f: Fields) {
    f.c == Operand(0, 2, 1, 1, 1, 0) && f.batchCount == 1 && f.m == 2 && f.n == 1
  }

  /** A legal call with contents of the memories for which the loops leave `loops`, BLAS leaves `blas`,
      and the second cells differ. */
  predicate Differs(f: Fields, s: Scalars, A: seq<real>, B: seq<real>, before: seq<real>, loops: seq<real>, blas: seq<real>) {
    && Callable(f, s, |A|, |B|, |before|) && InRange(f, s, |A|, |B|, |before|)
    && Accepts(CallOf(f, s)) && Separate(f.c, f.batchCount)
    && IsGemm(f, s, A, B, before, loops)
    && BlasResult(CallOf(f, s), First(f, A, B), Second(f, A, B), before, blas)
    && |loops| == |blas| == 2 && loops[1] != blas[1]
  }

  lemma Assembled(f: Fields, s: Scalars, A: seq<real>, B: seq<real>, before: seq<real>, loops: seq<real>, blas: seq<real>)
    requires Callable(f, s, |A|, |B|, |before|) && InRange(f, s, |A|, |B|, |before|)
    requires Accepts(CallOf(f, s)) && Separate(f.c, f.batchCount)
    requires IsGemm(f, s, A, B, before, loops)
    requires BlasResult(CallOf(f, s), First(f, A, B), Second(f, A, B), before, blas)
    requires |loops| == |blas| == 2 && loops[1] != blas[1]
    ensures Differs(f, s, A, B, before, loops, blas)
  {
    hide Callable, InRange, Accepts, Separate, IsGemm, BlasResult, CallOf, First, Second;
  }

  /** The outcomes, given the values of the two entries. */
  lemma LoopRows(f: Fields, s: Scalars, A: seq<real>, B: seq<real>, before: seq<real>, loops: seq<real>)
    requires TwoRows(f) && |before| == |loops| == 2 && Callable(f, s, |A|, |B|, |before|)
    requires forall i: nat :: i < 2 ==> Entry(f, s, A, B, before, 0, i, 0) == loops[i]
    ensures IsGemm(f, s, A, B, before, loops)
  {
    hide Entry, Callable;
    BothRowsWritten(f, s);
    forall b: nat, i: nat, j: nat | b < f.batchCount && i < f.m && j < f.n
      ensures loops[f.c.At(b, i, j)] == Entry(f, s, A, B, before, b, i, j)
    {
      assert f.c.At(b, i, j) == i;
    }
  }

  lemma CallRows(f: Fields, s: Scalars, A: seq<real>, B: seq<real>, before: seq<real>, blas: seq<real>)
    requires TwoRows(f) && |before| == |blas| == 2 && InRange(f, s, |A|, |B|, |before|) && Accepts(CallOf(f, s))
    requires forall i: nat :: i < 2 ==> CallEntry(f, s, A, B, before, 0, i, 0) == blas[i]
    ensures BlasResult(CallOf(f, s), First(f, A, B), Second(f, A, B), before, blas)
  {
    var q := CallOf(f, s);
    hide CallEntry, ColumnEntry, Accepts;
    BothRowsWritten(f, s);
    forall b: nat, i: nat, j: nat | b < q.batchCount && i < q.m && j < q.n
      ensures blas[q.c.At(NoTrans, b, i, j)] == ColumnEntry(q, First(f, A, B), Second(f, A, B), before, b, i, j)
    {
      CallEntryIsStored(f, s, A, B, before, b, j, i);
      assert q.c.At(NoTrans, b, i, j) == j;
    }
  }

  /** Both paths write both cells. */
  lemma BothRowsWritten(f: Fields, s: Scalars)
    requires TwoRows(f)
    ensures forall p :: 0 <= p < 2 ==> Addresses(f.c, 1, p) && Touches(CallOf(f, s), p)
  {
    forall p | 0 <= p < 2 ensures Addresses(f.c, 1, p) && Touches(CallOf(f, s), p) {
      assert f.c.At(0, p, 0) == p;
      assert CallOf(f, s).c.At(NoTrans, 0, 0, p) == p;
    }
  }

  /** One term, the second factor being one: the entry is a cell of A. */
  lemma OneTerm(f: Fields, s: Scalars, A: seq<real>, B: seq<real>, before: seq<real>, i: nat)
    requires Callable(f, s, |A|, |B|, |before|) && InRange(f, s, |A|, |B|, |before|) && Accepts(CallOf(f, s))
    requires f.k == 1 && f.batchCount > 0 && i < f.m && f.n > 0 && s.alpha == 1.0 && s.beta == 1.0
    requires forall p :: 0 <= p < |before| ==> before[p] == 0.0
    requires |B| == 1 && B[0] == 1.0 && AddrB(f, s, 0, 0, 0) == 0 && CallB(f, s, 0, 0, 0) == 0
    ensures 0 <= AddrA(f, s, 0, i, 0) < |A| && 0 <= CallA(f, s, 0, i, 0) < |A|
    ensures Entry(f, s, A, B, before, 0, i, 0) == A[AddrA(f, s, 0, i, 0)]
    ensures CallEntry(f, s, A, B, before, 0, i, 0) == A[CallA(f, s, 0, i, 0)]
  {
    hide InRange, Accepts, SumProducts, CallA, CallB, BlasCell;
    CallReads(f, s, A, B, |before|, 0, i, 0);
    var x, y := RowA(f, s, A, 0, i), ColumnB(f, s, B, 0, 0);
    assert x == [x[0]] && y == [1.0];
    ShortSums(x[0], 0.0, 1.0, 0.0);
    var u, v := CallRow(f, s, A, 0, i), CallColumn(f, s, B, 0, 0);
    assert u == [u[0]] && v == [1.0];
    ShortSums(u[0], 0.0, 1.0, 0.0);
  }

  /** Two terms, the second factors being one and zero: again a cell of A. */
  lemma TwoTerms(f: Fields, s: Scalars, A: seq<real>, B: seq<real>, before: seq<real>, i: nat)
    requires Callable(f, s, |A|, |B|, |before|) && InRange(f, s, |A|, |B|, |before|) && Accepts(CallOf(f, s))
    requires f.k == 2 && f.batchCount > 0 && i < f.m && f.n > 0 && s.alpha == 1.0 && s.beta == 1.0
    requires forall p :: 0 <= p < |before| ==> before[p] == 0.0
    requires |B| == 2 && B[0] == 1.0 && B[1] == 0.0
    requires forall l: nat :: l < 2 ==> AddrB(f, s, 0, l, 0) == l && CallB(f, s, 0, l, 0) == l
    ensures 0 <= AddrA(f, s, 0, i, 0) < |A| && 0 <= CallA(f, s, 0, i, 0) < |A|
    ensures Entry(f, s, A, B, before, 0, i, 0) == A[AddrA(f, s, 0, i, 0)]
    ensures CallEntry(f, s, A, B, before, 0, i, 0) == A[CallA(f, s, 0, i, 0)]
  {
    hide InRange, Accepts, SumProducts, CallA, CallB, BlasCell;
    CallReads(f, s, A, B, |before|, 0, i, 0);
    var x, y := RowA(f, s, A, 0, i), ColumnB(f, s, B, 0, 0);
    assert x == [x[0], x[1]] && y == [1.0, 0.0];
    ShortSums(x[0], x[1], 1.0, 0.0);
    var u, v := CallRow(f, s, A, 0, i), CallColumn(f, s, B, 0, 0);
    assert u == [u[0], u[1]] && v == [1.0, 0.0];
    ShortSums(u[0], u[1], 1.0, 0.0);
  }

  /** A 2 x 1 column broadcast over its rows with stride 0, times a 1 x 1 matrix. */
  function BroadcastCall(): Fields {
    Construct(Operand(0, 2, 1, 0, 1, 0), Operand(0, 1, 1, 1, 1, 0), None, None, None, None, Operand(0, 2, 1, 1, 1, 0), 1)
  }

  lemma BroadcastCallIsLegal(f: Fields, s: Scalars)
    requires f == BroadcastCall() && s == CallScalars(f, None, None, None, None)
    ensures Callable(f, s, 2, 1, 2) && InRange(f, s, 2, 1, 2) && Accepts(CallOf(f, s)) && Separate(f.c, f.batchCount)
  {
    assert Ready(CallOf(f, s), 1, 2, 2);
  }

  lemma BroadcastColumn(i: nat)
    ensures var o := Operand(0, 2, 1, 0, 1, 0);
      o.At(0, i, 0) == 0 && BlasCell(o, 0, 0, i, 0) == i
  {
  }

  lemma FirstCell(o: Operand, flag: int)
    ensures o.At(0, 0, 0) == o.base && BlasCell(o, flag, 0, 0, 0) == o.base
  {
  }

  lemma BroadcastParts(f: Fields, s: Scalars)
    requires f == BroadcastCall() && s == CallScalars(f, None, None, None, None)
    ensures f.a == Operand(0, 2, 1, 0, 1, 0) && f.b == Operand(0, 1, 1, 1, 1, 0) && s == Scalars(1.0, 1.0, 0, 0)
    ensures TwoRows(f) && f.m == 2 && f.n == 1 && f.batchCount == 1 && f.k == 1
  {
  }

  lemma BroadcastCells(f: Fields, s: Scalars, i: nat)
    requires f == BroadcastCall() && s == CallScalars(f, None, None, None, None)
    ensures TwoRows(f) && f.m == 2 && f.n == 1 && f.batchCount == 1 && f.k == 1 && s.alpha == 1.0 && s.beta == 1.0
    ensures AddrA(f, s, 0, i, 0) == 0 && CallA(f, s, 0, i, 0) == i
    ensures AddrB(f, s, 0, 0, 0) == 0 && CallB(f, s, 0, 0, 0) == 0
  {
    hide Operand.At, BlasCell, BroadcastCall, CallScalars, TwoRows;
    BroadcastParts(f, s);
    BroadcastColumn(i);
    FirstCell(f.b, 0);
  }

  /** The second row of C gets 1 from the loops and 2 from BLAS. */
  lemma BroadcastRowsDiffer(f: Fields, s: Scalars)
    requires f == BroadcastCall() && s == CallScalars(f, None, None, None, None)
    ensures Differs(f, s, [1.0, 2.0], [1.0], [0.0, 0.0], [1.0, 1.0], [1.0, 2.0])
  {
    hide *;
    BroadcastCallIsLegal(f, s);
    BroadcastCells(f, s, 0);
    BroadcastCells(f, s, 1);
    BroadcastCase(f, s, [1.0, 2.0], [1.0], [0.0, 0.0], [1.0, 1.0], [1.0, 2.0]);
  }

  lemma BroadcastCase(f: Fields, s: Scalars, A: seq<real>, B: seq<real>, before: seq<real>, loops: seq<real>, blas: seq<real>)
    requires Callable(f, s, 2, 1, 2) && InRange(f, s, 2, 1, 2) && Accepts(CallOf(f, s)) && Separate(f.c, f.batchCount)
    requires TwoRows(f) && f.m == 2 && f.n == 1 && f.batchCount == 1 && f.k == 1 && s.alpha == 1.0 && s.beta == 1.0
    requires AddrA(f, s, 0, 0, 0) == 0 && CallA(f, s, 0, 0, 0) == 0 && AddrA(f, s, 0, 1, 0) == 0 && CallA(f, s, 0, 1, 0) == 1
    requires AddrB(f, s, 0, 0, 0) == 0 && CallB(f, s, 0, 0, 0) == 0
    requires |A| == |before| == |loops| == |blas| == 2 && |B| == 1
    requires B[0] == 1.0 && before[0] == 0.0 && before[1] == 0.0
    requires loops[0] == A[0] && loops[1] == A[0] && blas[0] == A[0] && blas[1] == A[1] && loops[1] != blas[1]
    ensures Differs(f, s, A, B, before, loops, blas)
  {
    hide *;
    forall i: nat | i < 2
      ensures Entry(f, s, A, B, before, 0, i, 0) == loops[i] && CallEntry(f, s, A, B, before, 0, i, 0) == blas[i]
    {
      OneTerm(f, s, A, B, before, i);
    }
    LoopRows(f, s, A, B, before, loops);
    CallRows(f, s, A, B, before, blas);
    Assembled(f, s, A, B, before, loops, blas);
  }

  /** A row-major 2 x 2 matrix flagged 2, times a column: the loops transpose it, the call does not. */
  function FlagTwoCall(): Fields {
    Construct(Operand(0, 2, 2, 2, 1, 0), Operand(0, 2, 1, 1, 1, 0), None, None, Some(2), None, Operand(0, 2, 1, 1, 1, 0), 1)
  }

  lemma FlagTwoCallIsLegal(f: Fields, s: Scalars)
    requires f == FlagTwoCall() && s == CallScalars(f, None, None, Some(2), None)
    ensures Callable(f, s, 4, 2, 2) && InRange(f, s, 4, 2, 2) && Accepts(CallOf(f, s)) && Separate(f.c, f.batchCount)
  {
    assert Ready(CallOf(f, s), 2, 4, 2);
  }

  lemma FlagTwoCells(f: Fields, s: Scalars, i: nat)
    requires f == FlagTwoCall() && s == CallScalars(f, None, None, Some(2), None)
    ensures TwoRows(f) && f.m == 2 && f.n == 1 && f.batchCount == 1 && f.k == 2 && s.alpha == 1.0 && s.beta == 1.0
    ensures AddrA(f, s, 0, i, 0) == i && CallA(f, s, 0, i, 0) == 2 * i
    ensures forall l: nat :: AddrB(f, s, 0, l, 0) == l && CallB(f, s, 0, l, 0) == l
  {
  }

  /** The second row of C gets 2 from the loops and 3 from BLAS. */
  lemma FlagTwoDiffers(f: Fields, s: Scalars)
    requires f == FlagTwoCall() && s == CallScalars(f, None, None, Some(2), None)
    ensures Differs(f, s, [1.0, 2.0, 3.0, 4.0], [1.0, 0.0], [0.0, 0.0], [1.0, 2.0], [1.0, 3.0])
  {
    hide *;
    FlagTwoCallIsLegal(f, s);
    FlagTwoCells(f, s, 0);
    FlagTwoCells(f, s, 1);
    FlagTwoCase(f, s, [1.0, 2.0, 3.0, 4.0], [1.0, 0.0], [0.0, 0.0], [1.0, 2.0], [1.0, 3.0]);
  }

  lemma FlagTwoCase(f: Fields, s: Scalars, A: seq<real>, B: seq<real>, before: seq<real>, loops: seq<real>, blas: seq<real>)
    requires Callable(f, s, 4, 2, 2) && InRange(f, s, 4, 2, 2) && Accepts(CallOf(f, s)) && Separate(f.c, f.batchCount)
    requires TwoRows(f) && f.m == 2 && f.n == 1 && f.batchCount == 1 && f.k == 2 && s.alpha == 1.0 && s.beta == 1.0
    requires AddrA(f, s, 0, 0, 0) == 0 && CallA(f, s, 0, 0, 0) == 0 && AddrA(f, s, 0, 1, 0) == 1 && CallA(f, s, 0, 1, 0) == 2
    requires forall l: nat :: AddrB(f, s, 0, l, 0) == l && CallB(f, s, 0, l, 0) == l
    requires |A| == 4 && |B| == |before| == |loops| == |blas| == 2
    requires B[0] == 1.0 && B[1] == 0.0 && before[0] == 0.0 && before[1] == 0.0
    requires loops[0] == A[0] && loops[1] == A[1] && blas[0] == A[0] && blas[1] == A[2] && loops[1] != blas[1]
    ensures Differs(f, s, A, B, before, loops, blas)
  {
    hide *;
    forall i: nat | i < 2
      ensures Entry(f, s, A, B, before, 0, i, 0) == loops[i] && CallEntry(f, s, A, B, before, 0, i, 0) == blas[i]
    {
      TwoTerms(f, s, A, B, before, i);
    }
    LoopRows(f, s, A, B, before, loops);
    CallRows(f, s, A, B, before, blas);
    Assembled(f, s, A, B, before, loops, blas);
  }
}
