/** The Ascend RmsNorm kernel over row-contiguous data: each block normalises the rows of its range. */
module AscendRmsNorm {
  import opened Arithmetic
  import opened Layout
  import opened Memory
  import opened RowNorm
  import opened Scatter
  import opened Tiling

  /** Row `k` of a memory of rows of `d` elements. */
  function Row<T>(memory: seq<T>, d: nat, k: nat): (row: seq<T>)
    requires k * d + d <= |memory|
    ensures |row| == d
  {
    memory[k * d..k * d + d]
  }

  lemma RowInside(k: nat, d: nat, total: nat)
    requires k < total
    ensures k * d + d <= total * d
  {
    MulLe(k + 1, total, d);
    assert (k + 1) * d == k * d + d;
  }

  /** Writing one row leaves the others alone. */
  lemma RowsApart<T>(before: seq<T>, after: seq<T>, d: nat, total: nat, k: nat, other: nat)
    requires |before| == |after| == total * d && k < total && other < total && k != other
    requires k * d + d <= total * d && other * d + d <= total * d
    requires after[..k * d] == before[..k * d] && after[k * d + d..] == before[k * d + d..]
    ensures Row(after, d, other) == Row(before, d, other)
  {
    if other < k {
      RowInside(other, d, k);
      assert Row(after, d, other) == after[..k * d][other * d..other * d + d];
      assert Row(before, d, other) == before[..k * d][other * d..other * d + d];
    } else {
      RowInside(k, d, other);
      forall x | 0 <= x < d ensures Row(after, d, other)[x] == Row(before, d, other)[x] {
        assert after[k * d + d..][other * d + x - (k * d + d)] == after[other * d + x];
        assert before[k * d + d..][other * d + x - (k * d + d)] == before[other * d + x];
      }
    }
  }

  /** Row `k` of the output is the normalised row `k` of the input. */
  ghost predicate Normalised(input: seq<real>, out: seq<real>, d: nat, total: nat, rms: Rms, k: nat)
    requires |input| == |out| == total * d && k < total && rms.Valid() && d <= |rms.weight|
  {
    RowInside(k, d, total);
    Row(out, d, k) == rms.Norm(Row(input, d, k))
  }

  ghost predicate SameRow(before: seq<real>, after: seq<real>, d: nat, total: nat, k: nat)
    requires |before| == |after| == total * d && k < total
  {
    RowInside(k, d, total);
    Row(before, d, k) == Row(after, d, k)
  }

  // The vector operations, element by element.

  function Mul(a: seq<real>, b: seq<real>): (r: seq<real>)
    requires |a| <= |b|
    ensures |r| == |a|
  {
    seq(|a|, p requires 0 <= p < |a| => a[p] * b[p])
  }

  function Muls(a: seq<real>, scale: real): (r: seq<real>)
    ensures |r| == |a|
  {
    seq(|a|, p requires 0 <= p < |a| => a[p] * scale)
  }

  method ReduceSum(a: seq<real>) returns (sum: real)
    ensures sum == Total(a)
  {
    sum := 0.0;
    for i := 0 to |a|
      invariant sum == Total(a[..i])
    {
      assert Init(a[..i + 1]) == a[..i];
      sum := sum + a[i];
    }
    assert a[..|a|] == a;
  }

  function Total(xs: seq<real>): real {
    if xs == [] then 0.0 else Total(Init(xs)) + Last(xs)
  }

  lemma {:induction false} TotalOfSquares(xs: seq<real>)
    ensures Total(Mul(xs, xs)) == SquareSum(xs)
    decreases |xs|
  {
    if xs != [] {
      TotalOfSquares(Init(xs));
      var n := |xs| - 1;
      assert forall p :: 0 <= p < n ==> Mul(xs, xs)[p] == Mul(xs[..n], xs[..n])[p];
      assert Mul(xs, xs)[..n] == Mul(xs[..n], xs[..n]);
    }
  }

  lemma ScaledThenWeighted(x: real, scale: real, weight: real)
    ensures x * scale * weight == x * weight * scale
  {
  }

  class KernelRmsNorm {
    var rms: Rms
    var dimLength: nat
    var dimLengthAlign: nat
    var blockRows: int
    var rowOffset: int

    constructor (rms: Rms)
      ensures this.rms == rms && blockRows == 0
    {
      this.rms, dimLength, dimLengthAlign, blockRows, rowOffset := rms, 0, 0, 0, 0;
    }

    /** The row range and buffer windows of this block. */
    method Init(blockIdx: nat, dimLength: nat, dimLengthAlign: nat, t: HostTiling)
      modifies this
      ensures Range(rowOffset, blockRows) == BlockRange(blockIdx, t)
      ensures this.dimLength == dimLength && this.dimLengthAlign == dimLengthAlign && rms == old(rms)
    {
      this.dimLength := dimLength;
      this.dimLengthAlign := dimLengthAlign;
      if blockIdx < t.formerNum {
        blockRows := t.formerLength;
        rowOffset := t.formerLength * blockIdx;
      } else {
        blockRows := t.tailLength;
        var tailIdx := blockIdx - t.formerNum;
        rowOffset := t.formerLength * t.formerNum + t.tailLength * tailIdx;
      }
    }

    /** One row, by vector operations; the launcher demands an aligned row length. */
    method Compute(inputLocal: seq<real>) returns (outLocal: seq<real>)
      requires rms.Valid() && |inputLocal| == dimLength == dimLengthAlign <= |rms.weight|
      ensures outLocal == rms.Norm(inputLocal)
    {
      outLocal := Mul(inputLocal, inputLocal);
      var sumVal := ReduceSum(outLocal);
      TotalOfSquares(inputLocal);
      var scale := rms.InverseOf(sumVal, dimLength, inputLocal);
      outLocal := Muls(inputLocal, scale);
      outLocal := Mul(outLocal, rms.weight);
      forall p | 0 <= p < |inputLocal| ensures outLocal[p] == rms.Norm(inputLocal)[p] {
        ScaledThenWeighted(inputLocal[p], scale, rms.weight[p]);
      }
    }

    /** One row: in, compute, out. */
    method ProcessRow(input: seq<real>, out: array<real>, total: nat, k: nat)
      requires rms.Valid() && dimLength == dimLengthAlign <= |rms.weight| && k < total
      requires |input| == out.Length == total * dimLengthAlign
      modifies out
      ensures var d := dimLengthAlign;
        && k * d + d <= total * d
        && out[..] == old(out[..k * d]) + rms.Norm(Row(input, d, k)) + old(out[k * d + d..])
    {
      hide Rms.Norm;
      var d := dimLengthAlign;
      RowInside(k, d, total);
      var outLocal := Compute(Row(input, d, k));
      Memcpy(out, k * d, outLocal, 0, d);
    }

    /** Normalises the rows of the range and no others. */
    method Process(input: seq<real>, out: array<real>, total: nat)
      requires rms.Valid() && dimLength == dimLengthAlign <= |rms.weight|
      requires |input| == out.Length == total * dimLengthAlign
      requires rowOffset >= 0 && blockRows >= 0 && rowOffset + blockRows <= total
      modifies out
      ensures forall k: nat :: k < total ==>
                if Range(rowOffset, blockRows).Contains(k) then Normalised(input, out[..], dimLengthAlign, total, rms, k)
                else SameRow(old(out[..]), out[..], dimLengthAlign, total, k)
    {
      hide Normalised, SameRow, Rms.Norm;
      var d := dimLengthAlign;
      ghost var before := out[..];
      AllRowsSame(before, d, total);
      for row := 0 to blockRows
        invariant forall k: nat :: k < total ==>
                    if Range(rowOffset, row).Contains(k) then Normalised(input, out[..], d, total, rms, k)
                    else SameRow(before, out[..], d, total, k)
      {
        var k := rowOffset + row;
        ghost var now := out[..];
        ProcessRow(input, out, total, k);
        WroteRow(input, before, now, out[..], d, total, rms, k);
      }
    }
  }

  lemma AllRowsSame(memory: seq<real>, d: nat, total: nat)
    requires |memory| == total * d
    ensures forall k: nat :: k < total ==> SameRow(memory, memory, d, total, k)
  {
  }

  lemma WroteRow(input: seq<real>, before: seq<real>, now: seq<real>, after: seq<real>, d: nat, total: nat, rms: Rms, k: nat)
    requires |input| == |before| == |now| == |after| == total * d && k < total && k * d + d <= total * d
    requires rms.Valid() && d <= |rms.weight|
    requires after == now[..k * d] + rms.Norm(Row(input, d, k)) + now[k * d + d..]
    ensures Normalised(input, after, d, total, rms, k)
    ensures forall i: nat :: i < total && i != k ==>
              && (Normalised(input, now, d, total, rms, i) ==> Normalised(input, after, d, total, rms, i))
              && (SameRow(before, now, d, total, i) ==> SameRow(before, after, d, total, i))
  {
    assert after[..k * d] == now[..k * d] && after[k * d + d..] == now[k * d + d..];
    assert Row(after, d, k) == rms.Norm(Row(input, d, k));
    forall i: nat | i < total && i != k ensures i * d + d <= total * d && Row(after, d, i) == Row(now, d, i) {
      RowInside(i, d, total);
      RowsApart(now, after, d, total, k, i);
    }
  }

  /** A launch: every block runs once, in any order, and together they normalise every row. */
  method Launch(input: seq<real>, out: array<real>, totalRows: nat, maxBlocks: nat, d: nat, rms: Rms, order: seq<nat>)
    requires totalRows > 0 && maxBlocks > 0 && |input| == out.Length == totalRows * d
    requires rms.Valid() && d <= |rms.weight|
    requires IsOrder(order, if totalRows < maxBlocks then totalRows else maxBlocks)
    modifies out
    ensures forall k: nat :: k < totalRows ==> Normalised(input, out[..], d, totalRows, rms, k)
  {
    var t := TileRows(totalRows, maxBlocks);
    ghost var ranges := BlockRanges(t);
    BlocksTile(totalRows, maxBlocks);
    for step := 0 to |order|
      invariant forall s, k: nat :: 0 <= s < step && k < totalRows && ranges[order[s]].Contains(k) ==>
                  Normalised(input, out[..], d, totalRows, rms, k)
    {
      ghost var now := out[..];
      RunBlock(input, out, totalRows, d, rms, t, order[step]);
      forall s, k: nat | 0 <= s < step && k < totalRows && ranges[order[s]].Contains(k)
        ensures Normalised(input, out[..], d, totalRows, rms, k)
      {
        TilesExactly(ranges, totalRows, k);
        assert !ranges[order[step]].Contains(k);
        assert Normalised(input, now, d, totalRows, rms, k) && SameRow(now, out[..], d, totalRows, k);
      }
    }
    forall k: nat | k < totalRows ensures Normalised(input, out[..], d, totalRows, rms, k) {
      TilesExactly(ranges, totalRows, k);
      var i :| 0 <= i < |ranges| && ranges[i].Contains(k);
      assert i in order;
      var s :| 0 <= s < |order| && order[s] == i;
    }
  }

  /** One block of a launch normalises its rows and no others. */
  method RunBlock(input: seq<real>, out: array<real>, totalRows: nat, d: nat, rms: Rms, t: HostTiling, blockIdx: nat)
    requires |input| == out.Length == totalRows * d && 0 <= blockIdx < t.usedCores && Tiles(BlockRanges(t), totalRows)
    requires rms.Valid() && d <= |rms.weight|
    modifies out
    ensures forall k: nat :: k < totalRows && BlockRanges(t)[blockIdx].Contains(k) ==>
              Normalised(input, out[..], d, totalRows, rms, k)
    ensures forall k: nat :: k < totalRows && !BlockRanges(t)[blockIdx].Contains(k) ==>
              SameRow(old(out[..]), out[..], d, totalRows, k)
  {
    var op := new KernelRmsNorm(rms);
    op.Init(blockIdx, d, d, t);
    TilesInside(BlockRanges(t), totalRows, blockIdx);
    assert BlockRanges(t)[blockIdx] == Range(op.rowOffset, op.blockRows);
    op.Process(input, out, totalRows);
  }

  /** What that says of a row, in its squares: with a true square root each row of the output is the input
      row times the weights and the factor of a root mean square normalisation. */
  lemma LaunchedRow(input: seq<real>, out: seq<real>, d: nat, total: nat, rms: Rms, k: nat)
    requires |input| == |out| == total * d && k < total && 0 < d <= |rms.weight|
    requires rms.Valid() && IsRoot(rms.sqrt) && Normalised(input, out, d, total, rms, k)
    ensures k * d + d <= total * d
    ensures exists factor :: IsRmsNorm(rms.weight, rms.epsilon, Row(input, d, k), Row(out, d, k), factor)
  {
    RowInside(k, d, total);
    NormalisedRow(rms, Row(input, d, k));
  }

  // ---------------------------------------------------------------------------
  // Blocks at the same time
  // ---------------------------------------------------------------------------

  /** A block stores element `p` of row `row` of its range; the input is only read. */
  datatype StoreEvent = StoreEvent(block: nat, row: nat, p: nat)

  predicate Happens(t: HostTiling, d: nat, e: StoreEvent)
    requires t.usedCores >= 0
  {
    e.block < t.usedCores && e.row < BlockRanges(t)[e.block].count && e.p < d
  }

  /** The row of an event, in the whole output. */
  function RowOf(t: HostTiling, total: nat, e: StoreEvent): (k: nat)
    requires t.usedCores >= 0 && Tiles(BlockRanges(t), total) && e.block < t.usedCores
    requires e.row < BlockRanges(t)[e.block].count
    ensures k < total && BlockRanges(t)[e.block].Contains(k)
  {
    TilesInside(BlockRanges(t), total, e.block);
    BlockRanges(t)[e.block].start + e.row
  }

  lemma CellInside(k: nat, p: nat, d: nat, total: nat)
    requires k < total && p < d
    ensures k * d + p < total * d
  {
    BlockBound(k, total, p, d);
  }

  function StoreOf(input: seq<real>, t: HostTiling, d: nat, total: nat, rms: Rms, e: StoreEvent): (st: Store<real>)
    requires t.usedCores >= 0 && Tiles(BlockRanges(t), total) && Happens(t, d, e)
    requires |input| == total * d && rms.Valid() && d <= |rms.weight|
    ensures st.cell < total * d
  {
    var k := RowOf(t, total, e);
    RowInside(k, d, total);
    CellInside(k, e.p, d, total);
    Store(k * d + e.p, rms.Norm(Row(input, d, k))[e.p])
  }

  function StoresOf(input: seq<real>, t: HostTiling, d: nat, total: nat, rms: Rms, events: seq<StoreEvent>)
    : (stores: seq<Store<real>>)
    requires t.usedCores >= 0 && Tiles(BlockRanges(t), total)
    requires |input| == total * d && rms.Valid() && d <= |rms.weight|
    requires forall i :: 0 <= i < |events| ==> Happens(t, d, events[i])
    ensures |stores| == |events| && StoresInside(stores, total * d)
  {
    seq(|events|, i requires 0 <= i < |events| => StoreOf(input, t, d, total, rms, events[i]))
  }

  lemma SameCellSameStore(input: seq<real>, t: HostTiling, d: nat, total: nat, rms: Rms, e: StoreEvent, f: StoreEvent)
    requires t.usedCores >= 0 && Tiles(BlockRanges(t), total) && Happens(t, d, e) && Happens(t, d, f)
    requires |input| == total * d && rms.Valid() && d <= |rms.weight|
    requires StoreOf(input, t, d, total, rms, e).cell == StoreOf(input, t, d, total, rms, f).cell
    ensures StoreOf(input, t, d, total, rms, e) == StoreOf(input, t, d, total, rms, f)
  {
    DivModUnique(RowOf(t, total, e), e.p, d);
    DivModUnique(RowOf(t, total, f), f.p, d);
    assert RowOf(t, total, e) == RowOf(t, total, f) && e.p == f.p;
  }

  lemma EventsAgree(input: seq<real>, t: HostTiling, d: nat, total: nat, rms: Rms, events: seq<StoreEvent>)
    requires t.usedCores >= 0 && Tiles(BlockRanges(t), total)
    requires |input| == total * d && rms.Valid() && d <= |rms.weight|
    requires forall i :: 0 <= i < |events| ==> Happens(t, d, events[i])
    ensures StoresAgree(StoresOf(input, t, d, total, rms, events))
  {
    hide StoreOf, Happens, Rms.Valid, Tiles, BlockRanges;
    var stores := StoresOf(input, t, d, total, rms, events);
    forall i, j | 0 <= i < j < |stores| && stores[i].cell == stores[j].cell ensures stores[i].value == stores[j].value {
      SameCellSameStore(input, t, d, total, rms, events[i], events[j]);
    }
  }

  /** Whatever the interleaving of all blocks' element stores, every row ends normalised. */
  lemma AnyInterleavingNormalises(input: seq<real>, before: seq<real>, totalRows: nat, maxBlocks: nat, d: nat, rms: Rms,
      events: seq<StoreEvent>)
    requires totalRows > 0 && maxBlocks > 0 && |input| == |before| == totalRows * d && rms.Valid() && d <= |rms.weight|
    requires var t := TileRows(totalRows, maxBlocks);
             && t.usedCores >= 0
             && (forall i :: 0 <= i < |events| ==> Happens(t, d, events[i]))
             && (forall e :: Happens(t, d, e) ==> e in events)
    ensures var t := TileRows(totalRows, maxBlocks);
      && Tiles(BlockRanges(t), totalRows)
      && var after := StoreAll(before, StoresOf(input, t, d, totalRows, rms, events));
         forall k: nat :: k < totalRows ==> Normalised(input, after, d, totalRows, rms, k)
  {
    hide *;
    var t := TileRows(totalRows, maxBlocks);
    BlocksTile(totalRows, maxBlocks);
    EventsAgree(input, t, d, totalRows, rms, events);
    var stores := StoresOf(input, t, d, totalRows, rms, events);
    StoresSettle(before, stores);
    forall k: nat | k < totalRows ensures Normalised(input, StoreAll(before, stores), d, totalRows, rms, k) {
      StoresComplete(input, StoreAll(before, stores), t, d, totalRows, rms, events, k);
    }
  }

  lemma StoresComplete(input: seq<real>, after: seq<real>, t: HostTiling, d: nat, total: nat, rms: Rms,
      events: seq<StoreEvent>, k: nat)
    requires t.usedCores >= 0 && Tiles(BlockRanges(t), total) && k < total
    requires |input| == |after| == total * d && rms.Valid() && d <= |rms.weight|
    requires (forall i :: 0 <= i < |events| ==> Happens(t, d, events[i])) && (forall e :: Happens(t, d, e) ==> e in events)
    requires var stores := StoresOf(input, t, d, total, rms, events);
             forall i :: 0 <= i < |stores| ==> after[stores[i].cell] == stores[i].value
    ensures Normalised(input, after, d, total, rms, k)
  {
    RowInside(k, d, total);
    TilesExactly(BlockRanges(t), total, k);
    var b :| 0 <= b < |BlockRanges(t)| && BlockRanges(t)[b].Contains(k);
    forall p | 0 <= p < d ensures Row(after, d, k)[p] == rms.Norm(Row(input, d, k))[p] {
      var e := StoreEvent(b, k - BlockRanges(t)[b].start, p);
      ElementStored(input, after, t, d, total, rms, events, e, k);
    }
  }

  lemma ElementStored(input: seq<real>, after: seq<real>, t: HostTiling, d: nat, total: nat, rms: Rms, events: seq<StoreEvent>,
      e: StoreEvent, k: nat)
    requires t.usedCores >= 0 && Tiles(BlockRanges(t), total)
    requires |input| == |after| == total * d && rms.Valid() && d <= |rms.weight|
    requires (forall i :: 0 <= i < |events| ==> Happens(t, d, events[i])) && e in events
    requires Happens(t, d, e) && RowOf(t, total, e) == k
    requires var stores := StoresOf(input, t, d, total, rms, events);
             forall i :: 0 <= i < |stores| ==> after[stores[i].cell] == stores[i].value
    requires k * d + d <= total * d
    ensures Row(after, d, k)[e.p] == rms.Norm(Row(input, d, k))[e.p]
  {
    hide Rms.Valid, Tiles, BlockRanges;
    var i :| 0 <= i < |events| && events[i] == e;
    var store := StoresOf(input, t, d, total, rms, events)[i];
    assert store == StoreOf(input, t, d, total, rms, e);
    assert after[store.cell] == store.value && store.cell == k * d + e.p;
    assert Row(after, d, k)[e.p] == after[k * d + e.p];
  }
}
