/** The Cambricon RmsNorm kernel: tasks are rows, decoded with the first dimension fastest, and each
    row is read and written in chunks. */
module CambriconRmsNorm {
  import opened Arithmetic
  import opened Layout
  import opened RowNorm
  import opened Scatter
  import opened Tiling

  // ---------------------------------------------------------------------------
  // Decoding a task index
  // ---------------------------------------------------------------------------

  /** The coordinates of a task: the first dimension varies fastest. */
  function DecodeFirst(i: nat, shape: Shape): (c: Coords)
    requires Positive(shape)
    ensures |c| == |shape|
    decreases |shape|
  {
    if shape == [] then []
    else
      DivNonNeg(i, shape[0]);
      [i % shape[0]] + DecodeFirst(i / shape[0], shape[1..])
  }

  function RankFirst(c: Coords, shape: Shape): nat
    requires |c| == |shape|
  {
    if c == [] then 0 else c[0] + RankFirst(c[1..], shape[1..]) * shape[0]
  }

  lemma VolumeTail(shape: Shape)
    requires shape != []
    ensures Volume(shape) == Volume(shape[1..]) * shape[0]
  {
    hide Volume;
    VolumeHead(shape, 0);
    assert shape[0..] == shape;
  }

  lemma {:induction false} DecodeRank(c: Coords, shape: Shape)
    requires InBounds(c, shape)
    ensures RankFirst(c, shape) < Volume(shape)
    ensures Positive(shape) && DecodeFirst(RankFirst(c, shape), shape) == c
    decreases |shape|
  {
    assert Positive(shape);
    if shape != [] {
      DecodeRank(c[1..], shape[1..]);
      VolumeTail(shape);
      var q := RankFirst(c[1..], shape[1..]);
      BlockBound(q, Volume(shape[1..]), c[0], shape[0]);
      DivModUnique(q, c[0], shape[0]);
    }
  }

  lemma FirstDigit(i: nat, shape: Shape)
    requires Positive(shape) && shape != [] && i < Volume(shape)
    ensures 0 <= i / shape[0] < Volume(shape[1..]) && i == i / shape[0] * shape[0] + i % shape[0]
  {
    hide Volume;
    VolumeTail(shape);
    DivNonNeg(i, shape[0]);
    DivBelow(i, Volume(shape[1..]), shape[0]);
  }

  lemma {:induction false} RankDecode(i: nat, shape: Shape)
    requires Positive(shape) && i < Volume(shape)
    ensures InBounds(DecodeFirst(i, shape), shape) && RankFirst(DecodeFirst(i, shape), shape) == i
    decreases |shape|
  {
    if shape != [] {
      FirstDigit(i, shape);
      RankDecode(i / shape[0], shape[1..]);
      var c := DecodeFirst(i, shape);
      assert c[1..] == DecodeFirst(i / shape[0], shape[1..]);
      hide Volume;
    }
  }

  /** Over all cores together every batch coordinate tuple is visited exactly once: it is the
      decoding of exactly one task index, and that index belongs to exactly one core. */
  lemma EveryRowVisitedOnce(c: Coords, batchShape: Shape, taskDim: nat)
    requires InBounds(c, batchShape) && taskDim > 0
    ensures Positive(batchShape)
    ensures exists core: nat, task: nat :: core < taskDim && VisitedBy(c, batchShape, taskDim, core, task)
    ensures forall core: nat, task: nat, core': nat, task': nat ::
              (core < taskDim && core' < taskDim && VisitedBy(c, batchShape, taskDim, core, task)
               && VisitedBy(c, batchShape, taskDim, core', task')) ==> core == core' && task == task'
  {
    DecodeRank(c, batchShape);
    var total, i := Volume(batchShape), RankFirst(c, batchShape);
    var ranges := TaskRanges(taskDim, total);
    TasksTile(taskDim, total);
    TilesExactly(ranges, total, i);
    var core :| 0 <= core < |ranges| && ranges[core].Contains(i);
    assert VisitedBy(c, batchShape, taskDim, core, i - ranges[core].start);
    forall core1: nat, task1: nat | core1 < taskDim && VisitedBy(c, batchShape, taskDim, core1, task1)
      ensures core1 == core && task1 == i - ranges[core].start
    {
      VisitIsRank(c, batchShape, taskDim, core1, task1);
      assert ranges[core1].Contains(i);
    }
  }

  /** Core `core` decodes its `task`-th index to the tuple `c`. */
  predicate VisitedBy(c: Coords, batchShape: Shape, taskDim: nat, core: nat, task: nat)
    requires Positive(batchShape) && taskDim > 0
  {
    var r := TaskRange(core, taskDim, Volume(batchShape));
    task < r.count && r.start + task >= 0 && DecodeFirst(r.start + task, batchShape) == c
  }

  lemma VisitIsRank(c: Coords, batchShape: Shape, taskDim: nat, core: nat, task: nat)
    requires InBounds(c, batchShape) && Positive(batchShape) && taskDim > 0 && core < taskDim
    requires VisitedBy(c, batchShape, taskDim, core, task)
    ensures TaskRange(core, taskDim, Volume(batchShape)).start + task == RankFirst(c, batchShape)
  {
    var total := Volume(batchShape);
    var ranges := TaskRanges(taskDim, total);
    TasksTile(taskDim, total);
    TilesInside(ranges, total, core);
    RankDecode(ranges[core].start + task, batchShape);
  }

  /** The offset loop: both offsets are stride dot products of the same tuple. */
  method TaskOffsets(index: nat, batchShape: Shape, inputStrides: Strides, outputStrides: Strides)
      returns (inputOffset: int, outputOffset: int)
    requires Positive(batchShape) && |inputStrides| == |outputStrides| == |batchShape|
    ensures inputOffset == Dot(DecodeFirst(index, batchShape), inputStrides)
    ensures outputOffset == Dot(DecodeFirst(index, batchShape), outputStrides)
  {
    ghost var c := DecodeFirst(index, batchShape);
    inputOffset, outputOffset := 0, 0;
    var temp: nat := index;
    assert batchShape[0..] == batchShape && c[0..] == c;
    for dim := 0 to |batchShape|
      invariant Positive(batchShape[dim..]) && DecodeFirst(temp, batchShape[dim..]) == c[dim..]
      invariant inputOffset == Dot(c[..dim], inputStrides[..dim])
      invariant outputOffset == Dot(c[..dim], outputStrides[..dim])
    {
      var dimCoord := temp % batchShape[dim];
      assert c[dim] == c[dim..][0] == dimCoord;
      assert batchShape[dim..][1..] == batchShape[dim + 1..] && c[dim..][1..] == c[dim + 1..];
      DotNext(c, inputStrides, dim);
      DotNext(c, outputStrides, dim);
      inputOffset := inputOffset + dimCoord * inputStrides[dim];
      outputOffset := outputOffset + dimCoord * outputStrides[dim];
      DivNonNeg(temp, batchShape[dim]);
      temp := temp / batchShape[dim];
    }
    assert c[..|c|] == c && inputStrides[..|c|] == inputStrides && outputStrides[..|c|] == outputStrides;
  }

  lemma DotNext(c: Coords, strides: Strides, dim: nat)
    requires |c| == |strides| && dim < |c|
    ensures Dot(c[..dim + 1], strides[..dim + 1]) == Dot(c[..dim], strides[..dim]) + c[dim] * strides[dim]
  {
    assert Init(c[..dim + 1]) == c[..dim] && Init(strides[..dim + 1]) == strides[..dim];
  }

  // ---------------------------------------------------------------------------
  // Chunks of a row
  // ---------------------------------------------------------------------------

  const NRAM_MAX_SIZE: nat := 240 * 1024

  /** The chunk length, from the row length and the sizes of the data and weight types. */
  function MaxBatchSize(vectorSize: nat, sizeT: nat, sizeTW: nat): nat {
    if vectorSize <= 64 then vectorSize
    else
      var capacity := (NRAM_MAX_SIZE - 256) / (2 * sizeT + sizeTW + 4);
      var bounded := if capacity < vectorSize then capacity else vectorSize;
      bounded / 64 * 64
  }

  /** For 2- and 4-byte types a chunk is never empty, so the chunk loops advance, and never shorter
      than two elements of a row that has two. */
  lemma MaxBatchBounds(vectorSize: nat, sizeT: nat, sizeTW: nat)
    requires 2 <= sizeT <= 4 && 2 <= sizeTW <= 4
    ensures MaxBatchSize(vectorSize, sizeT, sizeTW) <= vectorSize
    ensures vectorSize > 0 ==> MaxBatchSize(vectorSize, sizeT, sizeTW) > 0
    ensures vectorSize > 1 ==> MaxBatchSize(vectorSize, sizeT, sizeTW) > 1
  {
    assert (NRAM_MAX_SIZE - 256) / (2 * sizeT + sizeTW + 4) >= 64 by {
      DivAtLeast(NRAM_MAX_SIZE - 256, 64, 2 * sizeT + sizeTW + 4);
    }
  }

  /** The cell the kernel uses for element `p` of a row: the chunk start moves by the stride of the
      last dimension, and the elements of a chunk are consecutive. */
  function ChunkCell(offset: int, stride: int, chunk: nat, p: nat): int
    requires chunk > 0
  {
    offset + p / chunk * chunk * stride + p % chunk
  }

  /** That is the strided element for every `p` exactly when the last dimension has stride 1 or a
      single element. */
  lemma ChunksFollowStrideExactly(offset: int, stride: int, chunk: nat, vectorSize: nat)
    requires (vectorSize > 0 ==> chunk > 0) && (vectorSize > 1 ==> chunk > 1)
    ensures (forall p: nat :: p < vectorSize ==> ChunkCell(offset, stride, chunk, p) == offset + p * stride)
       <==> (stride == 1 || vectorSize <= 1)
  {
    if stride == 1 || vectorSize <= 1 {
      forall p: nat | p < vectorSize ensures ChunkCell(offset, stride, chunk, p) == offset + p * stride {
        assert p == p / chunk * chunk + p % chunk;
        if vectorSize <= 1 {
          assert p == 0;
          DivModUnique(0, 0, chunk);
        }
      }
    } else {
      DivModUnique(0, 1, chunk);
      assert ChunkCell(offset, stride, chunk, 1) == offset + 1;
    }
  }

  /** With 4-byte types, a row of 130 elements of stride 2 has chunks of 128: its second element is read
      from cell 1 instead of cell 2. */
  lemma StridedRowMisread()
    ensures MaxBatchSize(130, 4, 4) == 128 && SumChunk(130, 128) == 128
    ensures ChunkCell(0, 2, 128, 1) == 1 && 0 + 1 * 2 == 2
  {
  }

  /** Every element of the row, read in chunks, lies in a memory of `size` cells. */
  predicate RowFits(offset: int, stride: int, chunk: nat, vectorSize: nat, size: nat) {
    && (vectorSize > 0 ==> chunk > 0)
    && forall p: nat :: p < vectorSize ==> 0 <= ChunkCell(offset, stride, chunk, p) < size
  }

  function RowCells(offset: int, stride: int, chunk: nat, vectorSize: nat, size: nat): (cells: seq<nat>)
    requires RowFits(offset, stride, chunk, vectorSize, size)
    ensures |cells| == vectorSize && InRange(cells, size)
  {
    seq(vectorSize, p requires 0 <= p < vectorSize => ChunkCell(offset, stride, chunk, p))
  }

  function Gather(memory: seq<real>, cells: seq<nat>): (xs: seq<real>)
    requires InRange(cells, |memory|)
    ensures |xs| == |cells|
  {
    seq(|cells|, p requires 0 <= p < |cells| => memory[cells[p]])
  }

  /** `count` consecutive elements. */
  function Load(memory: seq<real>, start: int, count: nat): (xs: seq<real>)
    requires count > 0 ==> 0 <= start && start + count <= |memory|
    ensures |xs| == count
  {
    if count == 0 then [] else memory[start..start + count]
  }

  /** Where a chunk starts in memory. */
  function ChunkStart(offset: int, stride: int, processed: nat): int {
    offset + processed * stride
  }

  predicate AtChunk(q: nat, chunk: nat, processed: nat) {
    processed == q * chunk
  }

  lemma NextChunk(q: nat, chunk: nat, processed: nat)
    requires AtChunk(q, chunk, processed)
    ensures AtChunk(q + 1, chunk, processed + chunk)
  {
  }

  /** The `q`-th chunk, `batch` elements long, occupies consecutive cells. */
  lemma ChunkIsConsecutive(offset: int, stride: int, chunk: nat, vectorSize: nat, size: nat, q: nat, processed: nat, batch: nat)
    requires RowFits(offset, stride, chunk, vectorSize, size)
    requires AtChunk(q, chunk, processed) && batch <= chunk && processed + batch <= vectorSize
    ensures batch > 0 ==> 0 <= ChunkStart(offset, stride, processed) && ChunkStart(offset, stride, processed) + batch <= size
    ensures forall s :: processed <= s < processed + batch ==>
              RowCells(offset, stride, chunk, vectorSize, size)[s] == ChunkStart(offset, stride, processed) + (s - processed)
  {
    forall s | processed <= s < processed + batch
      ensures ChunkCell(offset, stride, chunk, s) == ChunkStart(offset, stride, processed) + (s - processed)
    {
      DivModUnique(q, s - processed, chunk);
      assert q * chunk * stride == processed * stride;
    }
    if batch > 0 {
      assert 0 <= ChunkCell(offset, stride, chunk, processed) && ChunkCell(offset, stride, chunk, processed + batch - 1) < size;
    }
  }

  /** Rows of up to 128 elements are summed in one piece. */
  function SumChunk(vectorSize: nat, maxBatch: nat): nat {
    if vectorSize <= 128 then vectorSize else maxBatch
  }

  /** A loaded chunk is that part of the row, and extends the sum over the elements before it. */
  lemma SumNext(input: seq<real>, offset: int, stride: int, chunk: nat, vectorSize: nat, q: nat, processed: nat, batch: nat)
    requires RowFits(offset, stride, chunk, vectorSize, |input|)
    requires AtChunk(q, chunk, processed) && batch <= chunk && processed + batch <= vectorSize
    ensures batch > 0 ==> 0 <= ChunkStart(offset, stride, processed) && ChunkStart(offset, stride, processed) + batch <= |input|
    ensures var row := Gather(input, RowCells(offset, stride, chunk, vectorSize, |input|));
      SquareSum(row[..processed]) + SquareSum(Load(input, ChunkStart(offset, stride, processed), batch))
        == SquareSum(row[..processed + batch])
  {
    var cells := RowCells(offset, stride, chunk, vectorSize, |input|);
    hide RowCells, RowFits, SquareSum;
    ChunkIsConsecutive(offset, stride, chunk, vectorSize, |input|, q, processed, batch);
    var row := Gather(input, cells);
    var buffer := Load(input, ChunkStart(offset, stride, processed), batch);
    assert forall s :: processed <= s < processed + batch ==> row[s] == buffer[s - processed];
    assert buffer == row[processed..processed + batch];
    assert row[..processed] + row[processed..processed + batch] == row[..processed + batch];
    SquareSumAppend(row[..processed], buffer);
  }

  /** The chunk loop of the sum. */
  method SumChunks(input: seq<real>, offset: int, stride: int, vectorSize: nat, maxBatch: nat) returns (sumSquared: real)
    requires maxBatch > 0 && RowFits(offset, stride, maxBatch, vectorSize, |input|)
    ensures sumSquared == SquareSum(Gather(input, RowCells(offset, stride, maxBatch, vectorSize, |input|)))
  {
    ghost var row := Gather(input, RowCells(offset, stride, maxBatch, vectorSize, |input|));
    assert row[..0] == [] && SquareSum([]) == 0.0;
    assert AtChunk(0, maxBatch, 0);
    hide RowFits, RowCells, Load, Gather, SquareSum, ChunkStart, AtChunk;
    sumSquared := 0.0;
    var processed: nat := 0;
    ghost var q: nat := 0;
    while processed < vectorSize
      invariant processed <= vectorSize && (AtChunk(q, maxBatch, processed) || processed == vectorSize)
      invariant sumSquared == SquareSum(row[..processed])
    {
      var currentBatch := if maxBatch < vectorSize - processed then maxBatch else vectorSize - processed;
      SumNext(input, offset, stride, maxBatch, vectorSize, q, processed, currentBatch);
      var batchSum := SumBuffer(Load(input, ChunkStart(offset, stride, processed), currentBatch));
      sumSquared := sumSquared + batchSum;
      if currentBatch == maxBatch {
        NextChunk(q, maxBatch, processed);
      }
      processed := processed + currentBatch;
      q := q + 1;
    }
    assert row[..vectorSize] == row;
  }

  /** The sum of squares is that of the whole row, each element taken once. */
  method SumOfSquares(input: seq<real>, offset: int, stride: int, vectorSize: nat, maxBatch: nat) returns (sumSquared: real)
    requires RowFits(offset, stride, SumChunk(vectorSize, maxBatch), vectorSize, |input|)
    ensures sumSquared
         == SquareSum(Gather(input, RowCells(offset, stride, SumChunk(vectorSize, maxBatch), vectorSize, |input|)))
  {
    if vectorSize <= 128 {
      ghost var row := Gather(input, RowCells(offset, stride, vectorSize, vectorSize, |input|));
      SumNext(input, offset, stride, vectorSize, vectorSize, 0, 0, vectorSize);
      sumSquared := SumBuffer(Load(input, offset, vectorSize));
      assert row[..0] == [] && row[..vectorSize] == row;
    } else {
      sumSquared := SumChunks(input, offset, stride, vectorSize, maxBatch);
    }
  }

  // ---------------------------------------------------------------------------
  // Writing a row
  // ---------------------------------------------------------------------------

  /** Loaded elements times the weights times the scale. */
  function Scale(xs: seq<real>, weight: seq<real>, invRms: real): (ys: seq<real>)
    requires |xs| <= |weight|
    ensures |ys| == |xs|
  {
    seq(|xs|, p requires 0 <= p < |xs| => xs[p] * weight[p] * invRms)
  }

  method StoreChunk(output: array<real>, start: int, buffer: seq<real>)
    requires |buffer| > 0 ==> 0 <= start && start + |buffer| <= output.Length
    modifies output
    ensures forall k :: 0 <= k < output.Length ==>
              output[k] == if start <= k < start + |buffer| then buffer[k - start] else old(output[k])
  {
    for r := 0 to |buffer|
      invariant forall k :: 0 <= k < output.Length ==>
                  output[k] == if start <= k < start + r then buffer[k - start] else old(output[k])
    {
      output[start + r] := buffer[r];
    }
  }

  /** A cell inside a chunk is one of the chunk's cells. */
  lemma ChunkHolds(cells: seq<nat>, processed: nat, start: int, batch: nat, k: nat)
    requires processed + batch <= |cells|
    requires forall s :: processed <= s < processed + batch ==> cells[s] == start + (s - processed)
    ensures start <= k < start + batch ==> k in cells[..processed + batch] && k in cells[processed..processed + batch]
  {
    if start <= k < start + batch {
      assert cells[..processed + batch][processed + (k - start)] == k;
      assert cells[processed..processed + batch][k - start] == k;
    }
  }

  lemma ScatterChunk(before: seq<real>, now: seq<real>, after: seq<real>, cells: seq<nat>, values: seq<real>,
      processed: nat, start: int, buffer: seq<real>)
    requires |before| == |now| == |after| && InRange(cells, |before|) && Distinct(cells) && |values| == |cells|
    requires processed + |buffer| <= |cells| && Scattered(before, now, cells, values, processed)
    requires forall s :: processed <= s < processed + |buffer| ==>
               cells[s] == start + (s - processed) && values[s] == buffer[s - processed]
    requires forall k :: 0 <= k < |now| ==> after[k] == if start <= k < start + |buffer| then buffer[k - start] else now[k]
    ensures Scattered(before, after, cells, values, processed + |buffer|)
  {
    var done := processed + |buffer|;
    forall s | 0 <= s < done ensures after[cells[s]] == values[s] {
      if s < processed {
        ChunkHolds(cells, processed, start, |buffer|, cells[s]);
      } else {
        assert cells[processed + (s - processed)] == start + (s - processed);
      }
    }
    forall k | 0 <= k < |before| && k !in cells[..done] ensures after[k] == before[k] {
      assert cells[..done][..processed] == cells[..processed];
      ChunkHolds(cells, processed, start, |buffer|, k);
    }
  }

  /** The writing half: each chunk is read, scaled and stored. */
  method WriteRow(input: seq<real>, weight: seq<real>, output: array<real>, inputOffset: int, outputOffset: int,
      inputStride: int, outputStride: int, vectorSize: nat, maxBatch: nat, invRms: real)
    requires maxBatch <= vectorSize <= |weight|
    requires RowFits(inputOffset, inputStride, maxBatch, vectorSize, |input|)
    requires RowFits(outputOffset, outputStride, maxBatch, vectorSize, output.Length)
    requires Distinct(RowCells(outputOffset, outputStride, maxBatch, vectorSize, output.Length))
    modifies output
    ensures Scattered(old(output[..]), output[..], RowCells(outputOffset, outputStride, maxBatch, vectorSize, output.Length),
              Scale(Gather(input, RowCells(inputOffset, inputStride, maxBatch, vectorSize, |input|)), weight, invRms), vectorSize)
  {
    ghost var before := output[..];
    ghost var cells := RowCells(outputOffset, outputStride, maxBatch, vectorSize, output.Length);
    ghost var values := Scale(Gather(input, RowCells(inputOffset, inputStride, maxBatch, vectorSize, |input|)), weight, invRms);
    var processed: nat := 0;
    if vectorSize <= maxBatch {
      WriteChunk(input, weight, output, inputOffset, outputOffset, inputStride, outputStride, vectorSize, maxBatch, invRms,
        0, 0, vectorSize, before);
    } else {
      ghost var q: nat := 0;
      while processed < vectorSize
        invariant processed <= vectorSize && (AtChunk(q, maxBatch, processed) || processed == vectorSize)
        invariant Scattered(before, output[..], cells, values, processed)
      {
        var currentBatch := if maxBatch < vectorSize - processed then maxBatch else vectorSize - processed;
        WriteChunk(input, weight, output, inputOffset, outputOffset, inputStride, outputStride, vectorSize, maxBatch, invRms,
          q, processed, currentBatch, before);
        NextChunk(q, maxBatch, processed);
        processed := processed + currentBatch;
        q := q + 1;
      }
    }
  }

  /** One chunk: load, multiply, store. */
  method WriteChunk(input: seq<real>, weight: seq<real>, output: array<real>, inputOffset: int, outputOffset: int,
      inputStride: int, outputStride: int, vectorSize: nat, maxBatch: nat, invRms: real,
      ghost q: nat, processed: nat, currentBatch: nat, ghost before: seq<real>)
    requires maxBatch <= vectorSize <= |weight|
    requires AtChunk(q, maxBatch, processed) && currentBatch <= maxBatch && processed + currentBatch <= vectorSize
    requires RowFits(inputOffset, inputStride, maxBatch, vectorSize, |input|)
    requires RowFits(outputOffset, outputStride, maxBatch, vectorSize, output.Length)
    requires Distinct(RowCells(outputOffset, outputStride, maxBatch, vectorSize, output.Length)) && |before| == output.Length
    requires Scattered(before, output[..], RowCells(outputOffset, outputStride, maxBatch, vectorSize, output.Length),
              Scale(Gather(input, RowCells(inputOffset, inputStride, maxBatch, vectorSize, |input|)), weight, invRms), processed)
    modifies output
    ensures Scattered(before, output[..], RowCells(outputOffset, outputStride, maxBatch, vectorSize, output.Length),
              Scale(Gather(input, RowCells(inputOffset, inputStride, maxBatch, vectorSize, |input|)), weight, invRms),
              processed + currentBatch)
  {
    ghost var now := output[..];
    ghost var cells := RowCells(outputOffset, outputStride, maxBatch, vectorSize, output.Length);
    ghost var values := Scale(Gather(input, RowCells(inputOffset, inputStride, maxBatch, vectorSize, |input|)), weight, invRms);
    ChunkIsConsecutive(outputOffset, outputStride, maxBatch, vectorSize, output.Length, q, processed, currentBatch);
    ChunkValues(input, weight, inputOffset, inputStride, vectorSize, maxBatch, invRms, q, processed, currentBatch);
    hide RowCells, RowFits, ChunkStart, AtChunk, Scattered, Gather, Scale, Load;
    var start := ChunkStart(outputOffset, outputStride, processed);
    var buffer := Scale(Load(input, ChunkStart(inputOffset, inputStride, processed), currentBatch),
                        weight[processed..processed + currentBatch], invRms);
    StoreChunk(output, start, buffer);
    ScatterChunk(before, now, output[..], cells, values, processed, start, buffer);
  }

  /** Scaling a loaded chunk gives that part of the scaled row. */
  lemma ChunkValues(input: seq<real>, weight: seq<real>, offset: int, stride: int, vectorSize: nat, chunk: nat, invRms: real,
      q: nat, processed: nat, batch: nat)
    requires vectorSize <= |weight| && RowFits(offset, stride, chunk, vectorSize, |input|)
    requires AtChunk(q, chunk, processed) && batch <= chunk && processed + batch <= vectorSize
    ensures batch > 0 ==> 0 <= ChunkStart(offset, stride, processed) && ChunkStart(offset, stride, processed) + batch <= |input|
    ensures var buffer := Scale(Load(input, ChunkStart(offset, stride, processed), batch),
                                weight[processed..processed + batch], invRms);
      forall s :: processed <= s < processed + batch ==>
        Scale(Gather(input, RowCells(offset, stride, chunk, vectorSize, |input|)), weight, invRms)[s] == buffer[s - processed]
  {
    ChunkIsConsecutive(offset, stride, chunk, vectorSize, |input|, q, processed, batch);
    hide RowCells, RowFits, ChunkStart, AtChunk;
  }

  // ---------------------------------------------------------------------------
  // The whole launch
  // ---------------------------------------------------------------------------

  /** Element `p` of the row at `c`, by the strides of all dimensions. */
  function Cell(c: Coords, strides: Strides, p: nat): int
    requires |strides| == |c| + 1
  {
    Dot(c, Init(strides)) + p * Last(strides)
  }

  /** A launch: the last dimension is normalised, the others are the batch. Strides cover all
      dimensions. */
  datatype Problem = Problem(batchShape: Shape, vectorSize: nat, inputStrides: Strides, outputStrides: Strides,
                             input: seq<real>, rms: Rms, sizeT: nat, sizeTW: nat)
  {
    ghost predicate Valid(size: nat) {
      && |inputStrides| == |outputStrides| == |batchShape| + 1
      && 2 <= sizeT <= 4 && 2 <= sizeTW <= 4
      && vectorSize <= |rms.weight| && rms.Valid()
      && ((Last(inputStrides) == 1 && Last(outputStrides) == 1) || vectorSize <= 1)
      && InputInside()
      && OutputInside(size)
      && OutputApart()
    }

    ghost predicate InputInside()
      requires |inputStrides| == |batchShape| + 1
    {
      forall c: Coords, p: nat :: InBounds(c, batchShape) && p < vectorSize ==> 0 <= Cell(c, inputStrides, p) < |input|
    }

    ghost predicate OutputInside(size: nat)
      requires |outputStrides| == |batchShape| + 1
    {
      forall c: Coords, p: nat :: InBounds(c, batchShape) && p < vectorSize ==> 0 <= Cell(c, outputStrides, p) < size
    }

    /** No two elements of the output share a cell. */
    ghost predicate OutputApart()
      requires |outputStrides| == |batchShape| + 1
    {
      forall c: Coords, p: nat, c': Coords, p': nat ::
        (InBounds(c, batchShape) && InBounds(c', batchShape) && p < vectorSize && p' < vectorSize
         && Cell(c, outputStrides, p) == Cell(c', outputStrides, p')) ==> c == c' && p == p'
    }

    function MaxBatch(): nat {
      MaxBatchSize(vectorSize, sizeT, sizeTW)
    }

    /** The input row at `c`. */
    ghost function Row(c: Coords): (xs: seq<real>)
      requires |inputStrides| == |batchShape| + 1 && InputInside() && InBounds(c, batchShape)
      ensures |xs| == vectorSize
    {
      seq(vectorSize, p requires 0 <= p < vectorSize => input[Cell(c, inputStrides, p)])
    }

    /** Element `p` of the normalised row at `c`. */
    ghost function Value(c: Coords, p: nat): real
      requires |inputStrides| == |batchShape| + 1 && InputInside() && InBounds(c, batchShape)
      requires p < vectorSize <= |rms.weight| && rms.Valid()
    {
      rms.Norm(Row(c))[p]
    }

    /** The output holds the normalised row at `c`. */
    ghost predicate RowDone(out: seq<real>, c: Coords)
      requires Valid(|out|) && InBounds(c, batchShape)
    {
      forall p: nat :: p < vectorSize ==> out[Cell(c, outputStrides, p)] == Value(c, p)
    }
  }

  /** Long enough for the chunk loops: not empty unless the row is, and longer than one element if
      the row is. */
  predicate Enough(chunk: nat, vectorSize: nat) {
    (vectorSize > 0 ==> chunk > 0) && (vectorSize > 1 ==> chunk > 1)
  }

  lemma ChunkBounds(prob: Problem)
    requires 2 <= prob.sizeT <= 4 && 2 <= prob.sizeTW <= 4
    ensures prob.MaxBatch() <= prob.vectorSize
    ensures Enough(prob.MaxBatch(), prob.vectorSize) && Enough(SumChunk(prob.vectorSize, prob.MaxBatch()), prob.vectorSize)
  {
    MaxBatchBounds(prob.vectorSize, prob.sizeT, prob.sizeTW);
  }

  /** With a unit last stride the chunked row is the strided row. */
  lemma ChunkedRow(c: Coords, strides: Strides, chunk: nat, vectorSize: nat, size: nat)
    requires |strides| == |c| + 1 && Enough(chunk, vectorSize) && (Last(strides) == 1 || vectorSize <= 1)
    requires forall p: nat :: p < vectorSize ==> 0 <= Cell(c, strides, p) < size
    ensures RowFits(Dot(c, Init(strides)), Last(strides), chunk, vectorSize, size)
    ensures forall p: nat :: p < vectorSize ==>
              RowCells(Dot(c, Init(strides)), Last(strides), chunk, vectorSize, size)[p] == Cell(c, strides, p)
  {
    var offset := Dot(c, Init(strides));
    ChunksFollowStrideExactly(offset, Last(strides), chunk, vectorSize);
    hide ChunkCell, Dot;
    forall p: nat | p < vectorSize ensures ChunkCell(offset, Last(strides), chunk, p) == Cell(c, strides, p) {
    }
  }

  /** Gathering a row in chunks gives the strided row. */
  lemma GatheredRow(prob: Problem, size: nat, c: Coords, chunk: nat)
    requires prob.Valid(size) && InBounds(c, prob.batchShape) && Enough(chunk, prob.vectorSize)
    ensures var offset, stride := Dot(c, Init(prob.inputStrides)), Last(prob.inputStrides);
      && RowFits(offset, stride, chunk, prob.vectorSize, |prob.input|)
      && Gather(prob.input, RowCells(offset, stride, chunk, prob.vectorSize, |prob.input|)) == prob.Row(c)
  {
    hide Cell, Dot, RowFits, RowCells;
    ChunkedRow(c, prob.inputStrides, chunk, prob.vectorSize, |prob.input|);
  }

  /** The cells written for a row are its strided cells, all different. */
  lemma WrittenCells(prob: Problem, size: nat, c: Coords, chunk: nat)
    requires prob.Valid(size) && InBounds(c, prob.batchShape) && Enough(chunk, prob.vectorSize)
    ensures var offset, stride := Dot(c, Init(prob.outputStrides)), Last(prob.outputStrides);
      && RowFits(offset, stride, chunk, prob.vectorSize, size)
      && Distinct(RowCells(offset, stride, chunk, prob.vectorSize, size))
      && forall p: nat :: p < prob.vectorSize ==>
           RowCells(offset, stride, chunk, prob.vectorSize, size)[p] == Cell(c, prob.outputStrides, p)
  {
    hide Cell, Dot, RowFits, RowCells;
    ChunkedRow(c, prob.outputStrides, chunk, prob.vectorSize, size);
  }

  /** Cell `k` belongs to the output row at `c`. */
  ghost predicate Touches(prob: Problem, c: Coords, k: int)
    requires |prob.outputStrides| == |c| + 1
  {
    exists p: nat :: p < prob.vectorSize && Cell(c, prob.outputStrides, p) == k
  }

  /** `after` has the row at `c` and every row `before` had; no other cell differs. */
  ghost predicate Advanced(prob: Problem, before: seq<real>, after: seq<real>, c: Coords)
    requires |before| == |after| && prob.Valid(|before|) && InBounds(c, prob.batchShape)
  {
    && prob.RowDone(after, c)
    && (forall c' :: InBounds(c', prob.batchShape) && prob.RowDone(before, c') ==> prob.RowDone(after, c'))
    && (forall k :: 0 <= k < |before| && !Touches(prob, c, k) ==> after[k] == before[k])
  }

  /** Storing the row's values in its cells completes it. */
  lemma RowCompleted(prob: Problem, before: seq<real>, after: seq<real>, c: Coords, cells: seq<nat>, values: seq<real>)
    requires |before| == |after| && prob.Valid(|before|) && InBounds(c, prob.batchShape)
    requires |cells| == |values| == prob.vectorSize && InRange(cells, |before|)
    requires forall p: nat :: p < prob.vectorSize ==> cells[p] == Cell(c, prob.outputStrides, p)
    requires forall p: nat :: p < prob.vectorSize ==> values[p] == prob.Value(c, p)
    requires Scattered(before, after, cells, values, |cells|)
    ensures prob.RowDone(after, c)
  {
    hide Cell, Problem.Value, Problem.OutputApart;
    forall p: nat | p < prob.vectorSize ensures after[Cell(c, prob.outputStrides, p)] == prob.Value(c, p) {
      assert after[cells[p]] == values[p];
    }
  }

  lemma OthersUntouched(prob: Problem, before: seq<real>, after: seq<real>, c: Coords, cells: seq<nat>, values: seq<real>)
    requires |before| == |after| && |prob.outputStrides| == |c| + 1
    requires |cells| == |values| == prob.vectorSize && InRange(cells, |before|)
    requires forall p: nat :: p < prob.vectorSize ==> cells[p] == Cell(c, prob.outputStrides, p)
    requires Scattered(before, after, cells, values, |cells|)
    ensures forall k :: 0 <= k < |before| && !Touches(prob, c, k) ==> after[k] == before[k]
  {
    assert cells[..|cells|] == cells;
    forall k | 0 <= k < |before| && !Touches(prob, c, k) ensures after[k] == before[k] {
      assert k !in cells;
    }
  }

  /** Rows do not share cells, so a completed row stays complete. */
  lemma RowsKept(prob: Problem, before: seq<real>, after: seq<real>, c: Coords, c': Coords)
    requires |before| == |after| && prob.Valid(|before|) && InBounds(c, prob.batchShape)
    requires InBounds(c', prob.batchShape) && c' != c && prob.RowDone(before, c')
    requires forall k :: 0 <= k < |before| && !Touches(prob, c, k) ==> after[k] == before[k]
    ensures prob.RowDone(after, c')
  {
    hide Cell, Problem.Value;
    forall p: nat | p < prob.vectorSize
      ensures after[Cell(c', prob.outputStrides, p)] == before[Cell(c', prob.outputStrides, p)]
    {
      assert !Touches(prob, c, Cell(c', prob.outputStrides, p));
    }
  }

  lemma RowWritten(prob: Problem, before: seq<real>, after: seq<real>, c: Coords, cells: seq<nat>, values: seq<real>)
    requires |before| == |after| && prob.Valid(|before|) && InBounds(c, prob.batchShape)
    requires |cells| == |values| == prob.vectorSize && InRange(cells, |before|)
    requires forall p: nat :: p < prob.vectorSize ==> cells[p] == Cell(c, prob.outputStrides, p)
    requires forall p: nat :: p < prob.vectorSize ==> values[p] == prob.Value(c, p)
    requires Scattered(before, after, cells, values, |cells|)
    ensures Advanced(prob, before, after, c)
  {
    hide Cell, Scattered, Touches, Problem.RowDone, Problem.Value;
    RowCompleted(prob, before, after, c, cells, values);
    OthersUntouched(prob, before, after, c, cells, values);
    forall c' | InBounds(c', prob.batchShape) && prob.RowDone(before, c') ensures prob.RowDone(after, c') {
      if c' != c {
        RowsKept(prob, before, after, c, c');
      }
    }
  }

  lemma ScaledRow(prob: Problem, size: nat, c: Coords, invRms: real)
    requires prob.Valid(size) && InBounds(c, prob.batchShape)
    requires prob.Row(c) != [] ==> invRms == prob.rms.Inverse(prob.Row(c))
    ensures forall p: nat :: p < prob.vectorSize ==> Scale(prob.Row(c), prob.rms.weight, invRms)[p] == prob.Value(c, p)
  {
  }

  /** The row at `c`, given its offsets. */
  method NormaliseRow(prob: Problem, output: array<real>, ghost c: Coords, inputOffset: int, outputOffset: int)
    requires prob.Valid(output.Length) && InBounds(c, prob.batchShape)
    requires inputOffset == Dot(c, Init(prob.inputStrides)) && outputOffset == Dot(c, Init(prob.outputStrides))
    modifies output
    ensures Advanced(prob, old(output[..]), output[..], c)
  {
    ghost var before := output[..];
    var n, maxBatch := prob.vectorSize, prob.MaxBatch();
    ChunkBounds(prob);
    GatheredRow(prob, output.Length, c, maxBatch);
    GatheredRow(prob, output.Length, c, SumChunk(n, maxBatch));
    WrittenCells(prob, output.Length, c, maxBatch);
    var sumSquared := SumOfSquares(prob.input, inputOffset, Last(prob.inputStrides), n, maxBatch);
    ghost var row := prob.Row(c);
    var invRms := prob.rms.InverseOf(sumSquared, n, row);
    ghost var cells := RowCells(outputOffset, Last(prob.outputStrides), maxBatch, n, output.Length);
    ghost var values := Scale(row, prob.rms.weight, invRms);
    ScaledRow(prob, output.Length, c, invRms);
    hide *;
    WriteRow(prob.input, prob.rms.weight, output, inputOffset, outputOffset, Last(prob.inputStrides), Last(prob.outputStrides),
      n, maxBatch, invRms);
    RowWritten(prob, before, output[..], c, cells, values);
  }

  /** One task normalises the row its index decodes to. */
  method RunTask(prob: Problem, output: array<real>, index: nat)
    requires prob.Valid(output.Length) && Positive(prob.batchShape) && index < Volume(prob.batchShape)
    modifies output
    ensures InBounds(DecodeFirst(index, prob.batchShape), prob.batchShape)
    ensures Advanced(prob, old(output[..]), output[..], DecodeFirst(index, prob.batchShape))
  {
    RankDecode(index, prob.batchShape);
    var inputOffset, outputOffset := TaskOffsets(index, prob.batchShape, Init(prob.inputStrides), Init(prob.outputStrides));
    NormaliseRow(prob, output, DecodeFirst(index, prob.batchShape), inputOffset, outputOffset);
  }

  /** The output row at `c`. */
  ghost function OutputRow(prob: Problem, out: seq<real>, c: Coords): (ys: seq<real>)
    requires prob.Valid(|out|) && InBounds(c, prob.batchShape)
    ensures |ys| == prob.vectorSize
  {
    seq(prob.vectorSize, p requires 0 <= p < prob.vectorSize => out[Cell(c, prob.outputStrides, p)])
  }

  /** What a completed row is, in its squares: with a true square root, the input row times the weights
      and the factor of a root mean square normalisation. */
  lemma CompletedRow(prob: Problem, out: seq<real>, c: Coords)
    requires prob.Valid(|out|) && InBounds(c, prob.batchShape) && prob.RowDone(out, c)
    requires IsRoot(prob.rms.sqrt) && prob.vectorSize > 0
    ensures exists factor ::
              IsRmsNorm(prob.rms.weight, prob.rms.epsilon, prob.Row(c), OutputRow(prob, out, c), factor)
  {
    hide Rms.Norm, Cell;
    NormalisedRow(prob.rms, prob.Row(c));
    forall p | 0 <= p < prob.vectorSize ensures OutputRow(prob, out, c)[p] == prob.rms.Norm(prob.Row(c))[p] {
      assert out[Cell(c, prob.outputStrides, p)] == prob.Value(c, p);
    }
    assert OutputRow(prob, out, c) == prob.rms.Norm(prob.Row(c));
  }

  /** The tasks of one core. */
  method RunCore(prob: Problem, output: array<real>, taskId: nat, taskDim: nat)
    requires prob.Valid(output.Length) && Positive(prob.batchShape) && taskId < taskDim
    modifies output
    ensures forall c :: InBounds(c, prob.batchShape) ==>
              (prob.RowDone(old(output[..]), c) ==> prob.RowDone(output[..], c))
    ensures forall i: nat :: TaskRange(taskId, taskDim, Volume(prob.batchShape)).Contains(i) ==>
              && InBounds(DecodeFirst(i, prob.batchShape), prob.batchShape)
              && prob.RowDone(output[..], DecodeFirst(i, prob.batchShape))
    ensures forall k :: 0 <= k < output.Length && Unaddressed(prob, k) ==> output[k] == old(output[k])
  {
    ghost var before := output[..];
    var range := TaskRange(taskId, taskDim, Volume(prob.batchShape));
    TasksTile(taskDim, Volume(prob.batchShape));
    TilesInside(TaskRanges(taskDim, Volume(prob.batchShape)), Volume(prob.batchShape), taskId);
    assert TaskRanges(taskDim, Volume(prob.batchShape))[taskId] == range;
    hide TaskRange, Volume;
    for task := 0 to range.count
      invariant forall c :: InBounds(c, prob.batchShape) ==> (prob.RowDone(before, c) ==> prob.RowDone(output[..], c))
      invariant forall i: nat :: range.start <= i < range.start + task ==>
                  && InBounds(DecodeFirst(i, prob.batchShape), prob.batchShape)
                  && prob.RowDone(output[..], DecodeFirst(i, prob.batchShape))
      invariant forall k :: 0 <= k < output.Length && Unaddressed(prob, k) ==> output[k] == before[k]
    {
      RunTask(prob, output, range.start + task);
    }
  }

  /** No element of the output lives in cell `k`. */
  ghost predicate Unaddressed(prob: Problem, k: int)
    requires |prob.outputStrides| == |prob.batchShape| + 1
  {
    forall c :: InBounds(c, prob.batchShape) ==> !Touches(prob, c, k)
  }

  /** A launch: the cores run in any order, and together they normalise every row of the output and
      leave every other cell alone. */
  method Launch(prob: Problem, output: array<real>, taskDim: nat, order: seq<nat>)
    requires prob.Valid(output.Length) && taskDim > 0 && IsOrder(order, taskDim)
    modifies output
    ensures forall c :: InBounds(c, prob.batchShape) ==> prob.RowDone(output[..], c)
    ensures forall k :: 0 <= k < output.Length && Unaddressed(prob, k) ==> output[k] == old(output[k])
  {
    ghost var before := output[..];
    VolumePositive(prob.batchShape);
    if Volume(prob.batchShape) == 0 {
      return;
    }
    for step := 0 to |order|
      invariant forall s, i: nat :: 0 <= s < step && TaskRange(order[s], taskDim, Volume(prob.batchShape)).Contains(i) ==>
                  && InBounds(DecodeFirst(i, prob.batchShape), prob.batchShape)
                  && prob.RowDone(output[..], DecodeFirst(i, prob.batchShape))
      invariant forall k :: 0 <= k < output.Length && Unaddressed(prob, k) ==> output[k] == before[k]
    {
      RunCore(prob, output, order[step], taskDim);
    }
    forall c | InBounds(c, prob.batchShape) ensures prob.RowDone(output[..], c) {
      EveryRowVisitedOnce(c, prob.batchShape, taskDim);
      var core: nat, task: nat :| core < taskDim && VisitedBy(c, prob.batchShape, taskDim, core, task);
      assert core in order;
      var s :| 0 <= s < |order| && order[s] == core;
      var i := TaskRange(core, taskDim, Volume(prob.batchShape)).start + task;
      assert TaskRange(order[s], taskDim, Volume(prob.batchShape)).Contains(i);
    }
  }

  // ---------------------------------------------------------------------------
  // Cores at the same time
  // ---------------------------------------------------------------------------

  /** A core stores element `p` of its `task`-th row. The input is only read, so the value stored does
      not depend on when that happens. */
  datatype StoreEvent = StoreEvent(core: nat, task: nat, p: nat)

  predicate Happens(prob: Problem, taskDim: nat, e: StoreEvent)
    requires taskDim > 0
  {
    e.core < taskDim && e.task < TaskRange(e.core, taskDim, Volume(prob.batchShape)).count && e.p < prob.vectorSize
  }

  lemma EventRow(prob: Problem, taskDim: nat, e: StoreEvent)
    requires taskDim > 0 && Positive(prob.batchShape) && Happens(prob, taskDim, e)
    ensures TaskRange(e.core, taskDim, Volume(prob.batchShape)).start >= 0
    ensures InBounds(DecodeFirst(TaskRange(e.core, taskDim, Volume(prob.batchShape)).start + e.task, prob.batchShape),
                     prob.batchShape)
  {
    var total := Volume(prob.batchShape);
    TasksTile(taskDim, total);
    TilesInside(TaskRanges(taskDim, total), total, e.core);
    assert TaskRanges(taskDim, total)[e.core] == TaskRange(e.core, taskDim, total);
    RankDecode(TaskRange(e.core, taskDim, total).start + e.task, prob.batchShape);
  }

  /** The row of an event. */
  ghost function RowOf(prob: Problem, taskDim: nat, e: StoreEvent): (c: Coords)
    requires taskDim > 0 && Positive(prob.batchShape) && Happens(prob, taskDim, e)
    ensures InBounds(c, prob.batchShape)
  {
    EventRow(prob, taskDim, e);
    DecodeFirst(TaskRange(e.core, taskDim, Volume(prob.batchShape)).start + e.task, prob.batchShape)
  }

  ghost function StoreOf(prob: Problem, size: nat, taskDim: nat, e: StoreEvent): (st: Store<real>)
    requires prob.Valid(size) && taskDim > 0 && Positive(prob.batchShape) && Happens(prob, taskDim, e)
    ensures st.cell < size
  {
    var c := RowOf(prob, taskDim, e);
    Store(Cell(c, prob.outputStrides, e.p), prob.Value(c, e.p))
  }

  ghost function StoresOf(prob: Problem, size: nat, taskDim: nat, events: seq<StoreEvent>): (stores: seq<Store<real>>)
    requires prob.Valid(size) && taskDim > 0 && Positive(prob.batchShape)
    requires forall i :: 0 <= i < |events| ==> Happens(prob, taskDim, events[i])
    ensures |stores| == |events| && StoresInside(stores, size)
  {
    seq(|events|, i requires 0 <= i < |events| => StoreOf(prob, size, taskDim, events[i]))
  }

  lemma SameCellSameValue(prob: Problem, size: nat, taskDim: nat, e: StoreEvent, f: StoreEvent)
    requires prob.Valid(size) && taskDim > 0 && Positive(prob.batchShape)
    requires Happens(prob, taskDim, e) && Happens(prob, taskDim, f)
    requires StoreOf(prob, size, taskDim, e).cell == StoreOf(prob, size, taskDim, f).cell
    ensures StoreOf(prob, size, taskDim, e) == StoreOf(prob, size, taskDim, f)
  {
    hide Cell, Problem.Value, RowOf, Problem.InputInside;
    assert RowOf(prob, taskDim, e) == RowOf(prob, taskDim, f) && e.p == f.p;
  }

  lemma EventsAgree(prob: Problem, size: nat, taskDim: nat, events: seq<StoreEvent>)
    requires prob.Valid(size) && taskDim > 0 && Positive(prob.batchShape)
    requires forall i :: 0 <= i < |events| ==> Happens(prob, taskDim, events[i])
    ensures StoresAgree(StoresOf(prob, size, taskDim, events))
  {
    hide StoreOf, Happens, Problem.Valid;
    var stores := StoresOf(prob, size, taskDim, events);
    forall i, j | 0 <= i < j < |stores| && stores[i].cell == stores[j].cell ensures stores[i].value == stores[j].value {
      SameCellSameValue(prob, size, taskDim, events[i], events[j]);
    }
  }

  /** Some event stores element `p` of the row at `c`. */
  lemma EventFor(prob: Problem, taskDim: nat, c: Coords, p: nat) returns (e: StoreEvent)
    requires taskDim > 0 && InBounds(c, prob.batchShape) && p < prob.vectorSize
    ensures Positive(prob.batchShape) && Happens(prob, taskDim, e) && e.p == p && RowOf(prob, taskDim, e) == c
  {
    EveryRowVisitedOnce(c, prob.batchShape, taskDim);
    var core: nat, task: nat :| core < taskDim && VisitedBy(c, prob.batchShape, taskDim, core, task);
    e := StoreEvent(core, task, p);
  }

  /** Whatever the interleaving of all cores' element stores, every output element ends with its value
      and the cells that the output does not address are unchanged. */
  lemma AnyInterleavingNormalises(prob: Problem, before: seq<real>, taskDim: nat, events: seq<StoreEvent>)
    requires prob.Valid(|before|) && taskDim > 0 && Positive(prob.batchShape)
    requires forall i :: 0 <= i < |events| ==> Happens(prob, taskDim, events[i])
    requires forall e :: Happens(prob, taskDim, e) ==> e in events
    ensures var after := StoreAll(before, StoresOf(prob, |before|, taskDim, events));
      && (forall c :: InBounds(c, prob.batchShape) ==> prob.RowDone(after, c))
      && (forall k :: 0 <= k < |before| && Unaddressed(prob, k) ==> after[k] == before[k])
  {
    hide *;
    EventsAgree(prob, |before|, taskDim, events);
    StoresSettle(before, StoresOf(prob, |before|, taskDim, events));
    forall c | InBounds(c, prob.batchShape)
      ensures prob.RowDone(StoreAll(before, StoresOf(prob, |before|, taskDim, events)), c)
    {
      StoresComplete(prob, before, StoreAll(before, StoresOf(prob, |before|, taskDim, events)), taskDim, events, c);
    }
    StoresAddressed(prob, |before|, taskDim, events);
  }

  /** Once all stores have happened, the row at `c` is complete. */
  lemma StoresComplete(prob: Problem, before: seq<real>, after: seq<real>, taskDim: nat, events: seq<StoreEvent>, c: Coords)
    requires |before| == |after| && prob.Valid(|before|) && taskDim > 0 && Positive(prob.batchShape)
    requires forall i :: 0 <= i < |events| ==> Happens(prob, taskDim, events[i])
    requires forall e :: Happens(prob, taskDim, e) ==> e in events
    requires var stores := StoresOf(prob, |before|, taskDim, events);
             forall i :: 0 <= i < |stores| ==> after[stores[i].cell] == stores[i].value
    requires InBounds(c, prob.batchShape)
    ensures prob.RowDone(after, c)
  {
    var stores := StoresOf(prob, |before|, taskDim, events);
    hide Cell, Problem.Value, RowOf, Happens, Problem.InputInside, Problem.OutputInside, Problem.OutputApart;
    forall p: nat | p < prob.vectorSize ensures after[Cell(c, prob.outputStrides, p)] == prob.Value(c, p) {
      var e := EventFor(prob, taskDim, c, p);
      var i :| 0 <= i < |events| && events[i] == e;
      assert stores[i].cell == Cell(c, prob.outputStrides, p) && stores[i].value == prob.Value(c, p);
    }
  }

  /** Stores go to addressed cells only. */
  lemma StoresAddressed(prob: Problem, size: nat, taskDim: nat, events: seq<StoreEvent>)
    requires prob.Valid(size) && taskDim > 0 && Positive(prob.batchShape)
    requires forall i :: 0 <= i < |events| ==> Happens(prob, taskDim, events[i])
    ensures var stores := StoresOf(prob, size, taskDim, events);
      forall k, i :: Unaddressed(prob, k) && 0 <= i < |stores| ==> stores[i].cell != k
  {
    var stores := StoresOf(prob, size, taskDim, events);
    hide Cell, Problem.Value, RowOf, Problem.InputInside, Problem.OutputInside, Problem.OutputApart;
    forall k, i | Unaddressed(prob, k) && 0 <= i < |stores| ensures stores[i].cell != k {
      var c := RowOf(prob, taskDim, events[i]);
      assert !Touches(prob, c, k);
    }
  }
}
