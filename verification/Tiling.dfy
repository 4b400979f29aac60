/** How the RmsNorm kernels share rows among cores: the Ascend host tiling with the row ranges of
    its device kernel, and the Cambricon task split. */
module Tiling {
  import opened Arithmetic

  datatype Range = Range(start: int, count: int) {
    predicate Contains(row: int) {
      start <= row < start + count
    }
  }

  /** The ranges, in order, follow each other without gap or overlap and end at `total`. */
  predicate Tiles(ranges: seq<Range>, total: nat) {
    && ranges != [] && ranges[0].start == 0
    && (forall i :: 0 <= i < |ranges| ==> ranges[i].count >= 0)
    && (forall i :: 0 <= i < |ranges| - 1 ==> ranges[i].start + ranges[i].count == ranges[i + 1].start)
    && ranges[|ranges| - 1].start + ranges[|ranges| - 1].count == total
  }

  lemma {:induction false} TilesOrdered(ranges: seq<Range>, total: nat, i: nat, j: nat)
    requires Tiles(ranges, total) && i < j < |ranges|
    ensures ranges[i].start + ranges[i].count <= ranges[j].start
    decreases j
  {
    if i < j - 1 {
      TilesOrdered(ranges, total, i, j - 1);
    }
    assert ranges[j - 1].start + ranges[j - 1].count == ranges[j - 1 + 1].start;
  }

  /** Every range lies inside the total. */
  lemma TilesInside(ranges: seq<Range>, total: nat, i: nat)
    requires Tiles(ranges, total) && i < |ranges|
    ensures 0 <= ranges[i].start && 0 <= ranges[i].count && ranges[i].start + ranges[i].count <= total
  {
    if i > 0 {
      TilesOrdered(ranges, total, 0, i);
    }
    if i < |ranges| - 1 {
      TilesOrdered(ranges, total, i, |ranges| - 1);
    }
  }

  /** Exact cover: every row below `total` belongs to exactly one range, and no other row to any. */
  lemma TilesExactly(ranges: seq<Range>, total: nat, row: int)
    requires Tiles(ranges, total)
    ensures 0 <= row < total <==> exists i :: 0 <= i < |ranges| && ranges[i].Contains(row)
    ensures forall i, j :: 0 <= i < |ranges| && 0 <= j < |ranges| && ranges[i].Contains(row) && ranges[j].Contains(row) ==> i == j
  {
    if 0 <= row < total {
      var i := Owner(ranges, total, row, |ranges| - 1);
    }
    forall i | 0 <= i < |ranges| && ranges[i].Contains(row) ensures 0 <= row < total {
      TilesInside(ranges, total, i);
    }
    forall i, j | 0 <= i < |ranges| && 0 <= j < |ranges| && ranges[i].Contains(row) && ranges[j].Contains(row)
      ensures i == j
    {
      if i < j {
        TilesOrdered(ranges, total, i, j);
      } else if j < i {
        TilesOrdered(ranges, total, j, i);
      }
    }
  }

  lemma {:induction false} Owner(ranges: seq<Range>, total: nat, row: nat, last: nat) returns (i: nat)
    requires Tiles(ranges, total) && last < |ranges| && row < ranges[last].start + ranges[last].count
    ensures i <= last && ranges[i].Contains(row)
    decreases last
  {
    if ranges[last].start <= row {
      i := last;
    } else {
      assert ranges[last - 1].start + ranges[last - 1].count == ranges[last - 1 + 1].start;
      i := Owner(ranges, total, row, last - 1);
    }
  }

  // ---------------------------------------------------------------------------
  // Cambricon: quotient and remainder
  // ---------------------------------------------------------------------------

  /** The tasks of core `taskId` of `taskDim`. */
  function TaskRange(taskId: nat, taskDim: nat, total: nat): Range
    requires taskDim > 0
  {
    var remaining := total % taskDim;
    var base := total / taskDim;
    Range(if taskId < remaining then taskId * (base + 1) else remaining * (base + 1) + (taskId - remaining) * base,
          base + if taskId < remaining then 1 else 0)
  }

  function TaskRanges(taskDim: nat, total: nat): (ranges: seq<Range>)
    requires taskDim > 0
    ensures |ranges| == taskDim
  {
    seq(taskDim, i requires 0 <= i < taskDim => TaskRange(i, taskDim, total))
  }

  /** The first `i` cores take `i` whole shares and one more task each while the remainder lasts. */
  lemma TaskStart(i: nat, taskDim: nat, total: nat)
    requires taskDim > 0 && i <= taskDim
    ensures var remaining := total % taskDim;
      TaskRange(i, taskDim, total).start == i * (total / taskDim) + if i < remaining then i else remaining
  {
    var remaining, base := total % taskDim, total / taskDim;
    if i < remaining {
      assert i * (base + 1) == i * base + i;
    } else {
      assert remaining * (base + 1) + (i - remaining) * base == i * base + remaining by {
        assert remaining * (base + 1) == remaining * base + remaining;
        assert remaining * base + (i - remaining) * base == i * base;
      }
    }
  }

  /** The cores' tasks partition all tasks, and no two cores' shares differ by more than one. */
  lemma TasksTile(taskDim: nat, total: nat)
    requires taskDim > 0
    ensures Tiles(TaskRanges(taskDim, total), total)
    ensures forall i, j :: 0 <= i < taskDim && 0 <= j < taskDim ==>
              TaskRanges(taskDim, total)[i].count - TaskRanges(taskDim, total)[j].count <= 1
  {
    hide TaskRange;
    var ranges := TaskRanges(taskDim, total);
    TaskEnds(taskDim, total);
    TaskCounts(taskDim, total);
    forall i | 0 <= i < taskDim ensures ranges[i].start + ranges[i].count == TaskRange(i + 1, taskDim, total).start {
      TaskAbuts(i, taskDim, total);
    }
  }

  lemma TaskAbuts(i: nat, taskDim: nat, total: nat)
    requires taskDim > 0 && i < taskDim
    ensures TaskRange(i, taskDim, total).start + TaskRange(i, taskDim, total).count
         == TaskRange(i + 1, taskDim, total).start
  {
    TaskStart(i, taskDim, total);
    TaskStart(i + 1, taskDim, total);
    var base := total / taskDim;
    assert (i + 1) * base == i * base + base;
  }

  lemma TaskEnds(taskDim: nat, total: nat)
    requires taskDim > 0
    ensures TaskRange(0, taskDim, total).start == 0 && TaskRange(taskDim, taskDim, total).start == total
  {
    TaskStart(0, taskDim, total);
    TaskStart(taskDim, taskDim, total);
    assert taskDim * (total / taskDim) + total % taskDim == total;
  }

  lemma TaskCounts(taskDim: nat, total: nat)
    requires taskDim > 0
    ensures forall i: nat, j: nat :: i < taskDim && j < taskDim ==>
              0 <= TaskRange(i, taskDim, total).count <= TaskRange(j, taskDim, total).count + 1
  {
    DivNonNeg(total, taskDim);
  }

  // ---------------------------------------------------------------------------
  // Ascend: former and tail blocks
  // ---------------------------------------------------------------------------

  datatype HostTiling = HostTiling(usedCores: int, formerNum: int, formerLength: int, tailLength: int)

  /** The tiling the launcher computes; `maxBlocks` is its core limit. Zero rows would divide by
      zero, so the caller must have at least one. */
  function TileRows(totalRows: nat, maxBlocks: nat): HostTiling
    requires totalRows > 0 && maxBlocks > 0
  {
    var usedCores := if totalRows < maxBlocks then totalRows else maxBlocks;
    var formerLength := (totalRows + usedCores - 1) / usedCores;
    var tailLength := formerLength - 1;
    HostTiling(usedCores, totalRows - tailLength * usedCores, formerLength, tailLength)
  }

  /** The rows the device kernel assigns to a block. */
  function BlockRange(blockIdx: nat, t: HostTiling): Range {
    if blockIdx < t.formerNum then Range(t.formerLength * blockIdx, t.formerLength)
    else Range(t.formerLength * t.formerNum + t.tailLength * (blockIdx - t.formerNum), t.tailLength)
  }

  function BlockRanges(t: HostTiling): (ranges: seq<Range>)
    requires t.usedCores >= 0
    ensures |ranges| == t.usedCores
  {
    seq(t.usedCores, i requires 0 <= i < t.usedCores => BlockRange(i, t))
  }

  /** Rounding the share up and subtracting one leaves the quotient, or the quotient less one when
      the division is exact. */
  lemma CeilingShare(total: nat, used: nat)
    requires 0 < used
    ensures total % used == 0 ==> (total + used - 1) / used == total / used
    ensures total % used != 0 ==> (total + used - 1) / used == total / used + 1
  {
    var q, r := total / used, total % used;
    assert total == q * used + r;
    if r == 0 {
      DivModUnique(q, used - 1, used);
    } else {
      assert (q + 1) * used == q * used + used;
      DivModUnique(q + 1, r - 1, used);
    }
  }

  lemma BlockIsTask(i: nat, used: nat, totalRows: nat, q: nat, r: nat, t: HostTiling)
    requires i < used && q == totalRows / used && r == totalRows % used
    requires r == 0 ==> t.formerNum == used && t.formerLength == q
    requires r != 0 ==> t.formerNum == r && t.formerLength == q + 1 && t.tailLength == q
    ensures BlockRange(i, t) == TaskRange(i, used, totalRows)
  {
    if r == 0 {
      assert q * i == i * q;
    } else {
      assert (q + 1) * i == i * (q + 1) && (q + 1) * r == r * (q + 1);
    }
  }

  lemma FormerBlocks(total: nat, used: nat, share: nat)
    requires 0 < used && share == total / used
    ensures total % used == 0 ==> total - (share - 1) * used == used
    ensures total - share * used == total % used
  {
    assert total == share * used + total % used;
    assert (share - 1) * used == share * used - used;
  }

  lemma TilingParts(totalRows: nat, maxBlocks: nat)
    requires totalRows > 0 && maxBlocks > 0
    ensures var t := TileRows(totalRows, maxBlocks);
      && 0 < t.usedCores <= maxBlocks
      && var q, r := totalRows / t.usedCores, totalRows % t.usedCores;
         && (r == 0 ==> t.formerNum == t.usedCores && t.formerLength == q)
         && (r != 0 ==> t.formerNum == r && t.formerLength == q + 1 && t.tailLength == q)
  {
    var used := if totalRows < maxBlocks then totalRows else maxBlocks;
    CeilingShare(totalRows, used);
    FormerBlocks(totalRows, used, totalRows / used);
  }

  /** The two kernels hand every core the same rows. */
  lemma BlocksAreTasks(totalRows: nat, maxBlocks: nat)
    requires totalRows > 0 && maxBlocks > 0
    ensures var t := TileRows(totalRows, maxBlocks);
      && 1 <= t.formerNum <= t.usedCores <= maxBlocks
      && BlockRanges(t) == TaskRanges(t.usedCores, totalRows)
  {
    var t := TileRows(totalRows, maxBlocks);
    TilingParts(totalRows, maxBlocks);
    hide TileRows, BlockRange, TaskRange;
    forall i | 0 <= i < t.usedCores ensures BlockRange(i, t) == TaskRange(i, t.usedCores, totalRows) {
      BlockIsTask(i, t.usedCores, totalRows, totalRows / t.usedCores, totalRows % t.usedCores, t);
    }
  }

  /** The blocks partition the rows, and the device shares differ by at most one row. */
  lemma BlocksTile(totalRows: nat, maxBlocks: nat)
    requires totalRows > 0 && maxBlocks > 0
    ensures var ranges := BlockRanges(TileRows(totalRows, maxBlocks));
      && Tiles(ranges, totalRows)
      && forall i, j :: 0 <= i < |ranges| && 0 <= j < |ranges| ==> ranges[i].count - ranges[j].count <= 1
  {
    BlocksAreTasks(totalRows, maxBlocks);
    TasksTile(TileRows(totalRows, maxBlocks).usedCores, totalRows);
  }
}
