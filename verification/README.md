# InfiniOps: a Dafny model of its addressing, numerics and stateful services

InfiniOps wraps vendor kernels behind one tensor operator interface. This project models the parts of
it that InfiniOps computes itself and proves what they promise: index arithmetic over strided tensors,
the CPU loops and the BLAS call behind `Gemm`, the work split and chunk loops of the RmsNorm kernels,
nested block copies, the 16-bit float conversions, three services that keep state across calls, and the
sampler's filters. `dafny verify dfyconfig.toml` checks all of it.

| file | what it models |
|---|---|
| `Layout.dfy` | decoding of flat indices, contiguity and its fast path, storage sizes, overlap |
| `Elementwise.dfy` | the parallel loop of `Add` |
| `Gemm.dfy`, `BlasGemm.dfy`, `BlasExact.dfy` | the CPU triple loop, and the column-major call, against one meaning; exactly when the two agree |
| `Concat.dfy` | shape check and nested copies of `Cat` |
| `Tiling.dfy`, `RowNorm.dfy`, `AscendRmsNorm.dfy`, `CambriconRmsNorm.dfy` | rows shared among cores, the arithmetic on a row, and the kernels that use both |
| `HalfFloat.dfy` | `Float16` and `BFloat16`, bit pattern to bit pattern |
| `WorkspacePool.dfy`, `PoolObjects.dfy` | the workspace pool as interleaved steps, and as an object updated in place |
| `PoolGrowth.dfy` | the pool again, with the growth of an arena in separate steps |
| `CacheKeys.dfy`, `OperatorCache.dfy` | cache keys, and the cache with its lazy invalidation |
| `GraphCleanup.dfy`, `CleanupOrder.dfy` | deferred cleanup scopes as a machine, as nested calls and as an object; the order in which cleanups run |
| `Sampler.dfy` | top-k and top-p filtering |
| `Arithmetic.dfy`, `Counting.dfy`, `Options.dfy`, `Memory.dfy`, `Scatter.dfy` | shared helpers |

Code that works in place is a method with loops over arrays or object fields, proved against a
specification function; the properties are lemmas about that function. Services that several threads
enter are state machines whose events are the source's atomic sections, and every property of them is
about all runs; the object form of each is proved equal to a run of those sections.

## Where the code and its promises part

The model follows the code. Each of these has a lemma with the exact condition and a concrete input.

- `Tensor::HasBroadcastDim` advances its counter only past sizes other than 1, so it never looks beyond
  the first size-1 dimension (`Layout.BroadcastScanExact`; shape [1, 2] with strides [1, 0] in
  `Layout.HiddenBroadcast`). Non-overlap of an output is therefore a precondition here and is not
  derived from it.
- `Tensor::IsContiguous` rejects the default strides of some tensors with a zero size
  (`Layout.EmptyTensorNotContiguous`; `Layout.IsContiguous` covers every shape).
- `Gemm` takes its number of batches from dimension -3 alone, so the loops reach every element of C exactly
  when the dimensions before the last three have product 1 (`Gemm.LoopsCoverExactly`; shape
  [2, 1, 1, 1] in `Gemm.SecondBatchNeverSet`).
- The BLAS path derives the leading dimension as the larger of two strides and compares a `bool` with an
  `int` flag. Where C has entries and products contribute to them, it leaves the same C as the CPU loops,
  for all contents of the memories, exactly when `BlasGemm.LayoutOk` holds for all three operands; an empty
  C, or one that is only scaled, asks for less (`BlasExact.PathsAgreeExactly`). A stride-0 broadcast
  (`BlasExact.BroadcastRowsDiffer`) and a flag other than 0 and 1 (`BlasExact.FlagTwoDiffers`) leave
  different entries in C.
- The Cambricon kernel moves the chunk start by the last stride but treats the elements inside a chunk as
  consecutive (`CambriconRmsNorm.ChunksFollowStrideExactly`; a stride of 2 in
  `CambriconRmsNorm.StridedRowMisread`).
- `BFloat16::FromFloat` has no NaN case (`HalfFloat.BF16NaNExact`; two lost NaNs in
  `HalfFloat.BF16LosesNaNs`).
- The workspace pool checks for graph capture before the map lookup, so a thread already past the check
  still allocates while a graph is captured (`WorkspacePool.CaptureExactly`; such a run in
  `WorkspacePool.CaptureCanBeUnquiet`).
- The pool's fast path takes no mutex. Between the free of an arena's old buffer and the allocation of the
  new one a hit returns the arena with the freed buffer, and at no other time
  (`PoolGrowth.HitIsLiveExactly`; a run of ten steps in `PoolGrowth.HitOnFreedBuffer`).
- Key equality ignores where one tensor vector ends and the next begins (`CacheKeys.SignatureExactly`, whose
  proof gives two such calls for every signature with two vectors), while the hash mixes in each vector's
  length: with a hash free of collisions, equal keys with unequal hashes exist exactly for those signatures
  (`CacheKeys.HashContractExactly`).

## Model

| member | source | states |
|---|---|---|
| Layout.IndexToOffset | src/common/generic_utils.h:8-17 | the peeling loop returns the dot product of the strides with the coordinates the index decodes to |
| Layout.FlattenDecode | src/common/generic_utils.h:8-17 | the row-major rank of the decoded coordinates is the index |
| Layout.DecodeFlatten | src/common/generic_utils.h:8-17 | every coordinate tuple in bounds is the decoding of its rank, which is below the number of elements |
| Layout.NestedInjective | src/common/generic_utils.h:8-17 | if, in some order of the dimensions, each stride exceeds the reach of the later ones (any sign), two indices never share an offset |
| Layout.Numel | src/tensor.cc:54-58 | the fold is the number of elements |
| Layout.DefaultStrides | src/tensor.cc:97-111 | the backward loop fills in the row-major strides, each the volume of the dimensions after it |
| Layout.IsMergeable | src/tensor.cc:137-152 | true exactly when no dimension of the range is a size-1 dimension of stride 0 and each stride is the next size times the next stride |
| Layout.IsContiguous | src/tensor.cc:81-91 | on every shape, true exactly when the strides are the default ones and no size-1 dimension but the last has stride 0; on positive sizes, exactly when they are the default ones |
| Layout.ContiguityCharacterised | src/tensor.cc:81-152 | the local test on neighbouring strides is equivalent to the global one against the default strides |
| Layout.EmptyTensorNotContiguous | src/tensor.cc:81-111 | shape [1, 0] with its default strides is rejected |
| Layout.ContiguousOffset | src/native/cpu/ops/add/add.h:43-46 | with default strides every index is its own offset, so skipping the decoding changes nothing |
| Layout.HasBroadcastDim | src/tensor.cc:74-79 | true exactly when a broadcast dimension has no size-1 dimension before it |
| Layout.BroadcastSharesCells | src/tensor.cc:74-79 | on positive shapes a broadcast dimension is one along which there are different elements in one cell, and then all of them are in one cell |
| Layout.BroadcastScanExact | src/tensor.cc:74-79 | the scan's answer is right if and only if a tensor with a broadcast dimension has one before all its size-1 dimensions |
| Layout.HiddenBroadcast | src/tensor.cc:74-79 | shape [1, 2] with strides [1, 0] has a broadcast dimension behind a size-1 dimension, where the scan does not look |
| Layout.StorageElems | src/native/ascend/common.h:31-57 | the loop, after the optional swap, returns one past the largest reachable offset, or 0 for an empty tensor |
| Layout.ExtentSwap | src/native/ascend/common.h:36-40 | swapping the last two sizes and strides changes neither the extent nor whether the tensor is empty |
| Layout.StorageIsTight | src/native/ascend/common.h:42-57 | for strides of any sign the storage size less one is the maximum of the offsets, and is attained |
| Layout.StorageCoversView | src/native/ascend/common.h:42-63 | every element lies inside that storage if and only if no dimension of two or more elements has a negative stride |
| Layout.ContiguousCache | src/native/ascend/common.h:78-86 | the loop gives row-major strides and the number of elements as storage |
| Elementwise.GetIdx | src/native/cpu/ops/add/add.h:43-46 | with or without the fast path, the offset of the element |
| Elementwise.Iterate | src/native/cpu/ops/add/add.h:49-59 | one iteration stores the sum of its two inputs in its output cell and changes nothing else |
| Elementwise.Compute | src/native/cpu/ops/add/add.h:48-60 | in every order of the iterations, the output cells hold the sums of the initial values and every other cell is unchanged |
| Elementwise.SumUnique | src/native/cpu/ops/add/add.h:48-60 | only one memory meets that description, so all orders agree |
| Elementwise.SumByCoordinates | src/native/cpu/ops/add/add.h:48-60 | tuple by tuple, the output element is the sum of the two input elements at the same tuple, whatever the strides (broadcast inputs included) |
| Elementwise.AnyInterleavingSums | src/native/cpu/ops/add/add.h:48-60 | every interleaving of the iterations' loads of the one input, loads of the other and stores, that completes them all, gives that memory |
| Elementwise.DisjointViewsDoNotInterfere | src/native/cpu/ops/add/add.h:48-60 | nested output strides and cells disjoint from the inputs' rule out that an iteration writes a cell another one reads or writes |
| Gemm.FactorCells | src/native/cpu/ops/gemm/gemm.h:57-83 | the strides chosen by the flags lead to entry (i, l) of op(A) and (l, j) of op(B) |
| Gemm.SumTerms | src/native/cpu/ops/gemm/gemm.h:79-85 | the accumulation is the dot product of row i of op(A) and column j of op(B) |
| Gemm.UpdateEntry | src/native/cpu/ops/gemm/gemm.h:79-89 | one entry becomes alpha times the product plus beta times its old value, not read when beta is 0; no other cell changes |
| Gemm.Compute | src/native/cpu/ops/gemm/gemm.h:45-93 | all batches: each entry of C is updated once, from its initial value, and every cell outside C is unchanged |
| Gemm.SplitProduct | src/native/cpu/ops/gemm/gemm.h:79-89 | the product may be accumulated in two calls: an outcome over the later terms with beta 1, started from an outcome over the first ones, is an outcome over all |
| Gemm.ShortProducts | src/native/cpu/ops/gemm/gemm.h:79-89 | without terms an entry becomes beta times its old value, with one term alpha times that product plus beta times its old value |
| Gemm.OldValueCountsBeta | src/native/cpu/ops/gemm/gemm.h:88-89 | from two initial memories the results differ, entry by entry, by beta times the difference of the old values |
| Gemm.CallArgumentsWin | src/native/cpu/ops/gemm/gemm.h:52-55 | a scalar or flag of the call wins over the constructor's, which wins over alpha = beta = 1 and no transposition |
| Gemm.ConstructedOrCalled | src/native/cpu/ops/gemm/gemm.h:52-55 | scalars and flags given to the constructor have the outcomes they have when given to the call |
| Gemm.TransposeIsSwappedView | src/native/cpu/ops/gemm/gemm.h:54-68 | a call with flags has the same outcomes as the unflagged call on views with the last two sizes and strides swapped, from construction on (src/base/gemm.h) |
| Gemm.TransposeIsSwappedTensor | src/base/gemm.h:13-36 | the same from the tensors' shapes and strides on |
| Gemm.LoopsCoverExactly | src/base/gemm.h:32-35 | with elements in cells of their own, the loops set every element of C if and only if the dimensions before the last three have product 1 |
| Gemm.SecondBatchNeverSet | src/base/gemm.h:32-35 | a C of shape [2, 1, 1, 1]: the loops leave the second element as it was |
| BlasGemm.CallCells | src/native/cuda/ops/gemm/blas.h:48-64 | what the column-major call addresses as op(X), op(Y) and C, entry by entry, with and without the operand swap |
| BlasGemm.OperandAgreesExactly | src/native/cuda/ops/gemm/blas.h:76-93 | the call finds every stored entry of an operand where the loops do if and only if its strides follow the one leading dimension, wherever there are two entries to tell apart |
| BlasGemm.CallAgreesExactly | src/native/cuda/ops/gemm/blas.h:32-93 | BLAS accepts the call and addresses all of op(A), op(B) and C as the loops do if and only if the layout condition holds of the three operands, for every size, stride and flag |
| BlasGemm.UnitStrideLayoutOk | src/base/gemm.h:29-31 | a unit stride in one of the last two dimensions, the other stride at least the size it spans, and a flag of 0 or 1 meet the condition |
| BlasGemm.BlasMatchesLoops | src/native/cuda/ops/gemm/blas.h:32-65 | under it a memory is an outcome of the BLAS call if and only if it is an outcome of the CPU loops |
| BlasGemm.BlasEqualsLoops | src/native/cuda/ops/gemm/blas.h:32-65 | the two paths leave the same C |
| BlasExact.SameTargetsFit | src/native/cuda/ops/gemm/blas.h:60-62 | if the call and the loops write the same set of cells, with C's entries in cells of their own, C's strides follow the call's leading dimension |
| BlasExact.AgreementFits | src/native/cuda/ops/gemm/blas.h:32-65 | paths that leave the same C for all contents address both inputs alike |
| BlasExact.PathsAgreeExactly | src/native/cuda/ops/gemm/blas.h:32-65 | the two paths have the same outcomes for all contents of A, B and C if and only if the agreement condition holds: always for an empty C; if nothing is summed, when beta is 1 or the call is accepted and C's strides fit; otherwise the layout condition of all three operands |
| BlasExact.BroadcastRowsDiffer | src/base/gemm.h:29-31 | a 2 x 1 operand with row stride 0, [1, 2] in memory, times [1]: the call is accepted, and the loops leave [1, 1] in C, BLAS [1, 2] |
| BlasExact.FlagTwoDiffers | src/native/cuda/ops/gemm/blas.h:77-93 | the matrix [1, 2; 3, 4] with flag 2 times [1; 0]: the loops leave [1, 2] in C, BLAS [1, 3] |
| Concat.Construct | src/base/cat.h:14-50 | accepts exactly the shapes `torch.cat` does, for at least two inputs, and returns the normalised dimension |
| Concat.AcceptsExactlyCuts | src/base/cat.h:14-50 | the accepted shapes are exactly those of the pieces of the output, two or more, however it is cut along the dimension |
| Concat.CopySlices | src/native/cpu/ops/cat/cat.h:51-64 | the inner loop appends one slice of every input to what is built |
| Concat.Compute | src/native/cpu/ops/cat/cat.h:35-65 | the nested copies leave exactly the concatenated blocks, filling the whole output |
| Concat.Abutting | src/native/cpu/ops/cat/cat.h:57-63 | destination blocks follow each other without gap or overlap, across inputs and across outer indices |
| Concat.TotalSize | src/native/cpu/ops/cat/cat.h:35-65 | the blocks end where the output ends |
| Concat.BuiltAt | src/native/cpu/ops/cat/cat.h:50-64 | byte k of a block is at its place in everything built later |
| Concat.OwnerExists | src/native/cpu/ops/cat/cat.h:51-63 | every position along the dimension belongs to exactly one input |
| Concat.ConcatenatesByCoordinates | src/native/cpu/ops/cat/cat.h:35-65 | for any rank, dimension and number of inputs, each byte of each output element is that of the owning input's element, shifted along the dimension |
| Tiling.TilesExactly | src/native/ascend/custom/rms_norm/op_kernel/rms_norm.cpp:19-30 | ranges that follow each other cover every row exactly once and no other row |
| Tiling.TaskStart | src/native/cambricon/ops/rms_norm/kernel.mlu:19-27 | where a core's tasks start, by quotient and remainder |
| Tiling.TasksTile | src/native/cambricon/ops/rms_norm/kernel.mlu:19-27 | the cores' tasks partition all tasks and their numbers differ by at most one |
| Tiling.TilingParts | src/native/ascend/ops/rms_norm/kernel_custom.h:118-124 | the host tiling in terms of quotient and remainder: with a remainder that many former blocks of one row more, without one all blocks former |
| Tiling.BlocksAreTasks | src/native/ascend/ops/rms_norm/kernel_custom.h:118-124 | 1 <= former_num <= used_cores, and the device kernel's ranges are those of the Cambricon kernel for the same number of cores |
| Tiling.BlocksTile | src/native/ascend/custom/rms_norm/op_kernel/rms_norm.cpp:19-30 | the blocks partition the rows and their lengths differ by at most one |
| RowNorm.SquareSumAppend | src/native/cambricon/ops/rms_norm/kernel.mlu:65-127 | sums of squares add up over pieces; with `RowNorm.SquareSumOne`, one square for every element |
| RowNorm.SquareSumOne | src/native/cambricon/ops/rms_norm/kernel.mlu:65-127 | the sum of squares of one element |
| RowNorm.NormalisedRow | src/native/cambricon/ops/rms_norm/kernel.mlu:130-131 | for a true square root, a normalised row is the row times the weights and one positive factor whose square times (sum of squares + length times epsilon) is the length |
| RowNorm.UnitMeanSquare | src/native/cambricon/ops/rms_norm/kernel.mlu:130-131 | so with unit weights the mean squares m' of the result and m of the row satisfy m' (m + epsilon) = m |
| AscendRmsNorm.KernelRmsNorm.Init | src/native/ascend/custom/rms_norm/op_kernel/rms_norm.cpp:11-37 | the fields are set to the row length and the block's range of rows |
| AscendRmsNorm.KernelRmsNorm.Compute | src/native/ascend/custom/rms_norm/op_kernel/rms_norm.cpp:103-135 | the vector operations give each element times its weight over the root of the row's mean square plus epsilon |
| AscendRmsNorm.KernelRmsNorm.Process | src/native/ascend/custom/rms_norm/op_kernel/rms_norm.cpp:84-90 | the rows of the range are normalised and every other row is unchanged |
| AscendRmsNorm.Launch | src/native/ascend/ops/rms_norm/kernel_custom.h:118-132 | with the blocks run one after another, in any order, every row of the output is the normalised row of the input |
| AscendRmsNorm.LaunchedRow | src/native/ascend/custom/rms_norm/op_kernel/rms_norm.cpp:114-135 | of the row a launch leaves: it is the input row times the weights and that factor |
| AscendRmsNorm.AnyInterleavingNormalises | src/native/ascend/ops/rms_norm/kernel_custom.h:118-132 | the same for every interleaving of the element stores of blocks that run at the same time |
| CambriconRmsNorm.DecodeRank | src/native/cambricon/ops/rms_norm/kernel.mlu:58-63 | every batch coordinate tuple is the decoding, first dimension fastest, of one task index in range |
| CambriconRmsNorm.RankDecode | src/native/cambricon/ops/rms_norm/kernel.mlu:58-63 | every task index in range decodes to coordinates in bounds whose rank it is |
| CambriconRmsNorm.EveryRowVisitedOnce | src/native/cambricon/ops/rms_norm/kernel.mlu:12-63 | over all cores, each coordinate tuple is decoded by exactly one task of exactly one core |
| CambriconRmsNorm.TaskOffsets | src/native/cambricon/ops/rms_norm/kernel.mlu:53-63 | both offsets are stride dot products of the same decoded tuple |
| CambriconRmsNorm.MaxBatchBounds | src/native/cambricon/ops/rms_norm/kernel.mlu:29-38 | for 2- and 4-byte types the chunk length is at most the row, positive for a non-empty row and above 1 for a longer one |
| CambriconRmsNorm.ChunksFollowStrideExactly | src/native/cambricon/ops/rms_norm/kernel.mlu:92-99 | the chunk loop reads the strided elements of a row if and only if the last stride is 1 or the row has at most one element |
| CambriconRmsNorm.StridedRowMisread | src/native/cambricon/ops/rms_norm/kernel.mlu:92-99 | a row of 130 with stride 2 in chunks of 128: its second element is at 2, the kernel reads 1 |
| CambriconRmsNorm.SumOfSquares | src/native/cambricon/ops/rms_norm/kernel.mlu:65-127 | both branches sum the squares of the whole row as it is read, each element once |
| CambriconRmsNorm.WriteRow | src/native/cambricon/ops/rms_norm/kernel.mlu:133-232 | both branches store each element times its weight and the scale in its cell and change no other cell |
| CambriconRmsNorm.RunTask | src/native/cambricon/ops/rms_norm/kernel.mlu:50-233 | a task completes the row its index decodes to, keeps completed rows, and changes no cell outside the row |
| CambriconRmsNorm.Launch | src/native/cambricon/ops/rms_norm/kernel.mlu:8-234 | with the cores run one after another, in any order, every output element is the input element times its weight over the root mean square of its row, and cells the output does not address are unchanged |
| CambriconRmsNorm.CompletedRow | src/native/cambricon/ops/rms_norm/kernel.mlu:130-232 | of a completed row of the output: it is the input row times the weights and the factor of `RowNorm.NormalisedRow` |
| CambriconRmsNorm.AnyInterleavingNormalises | src/native/cambricon/ops/rms_norm/kernel.mlu:8-234 | the same for every interleaving of the element stores of cores that run at the same time |
| HalfFloat.F16Truncates | src/data_type.h:84-108 | below 65536 the result has the sign of the argument and the greatest binary16 magnitude not above its (roundTowardZero, section 4.3.2 of IEEE 754-2019), through normal, subnormal and zero cases |
| HalfFloat.F16Overflows | src/data_type.h:91-97 | from 65536 on the result is infinity, and a NaN the quiet NaN, of the same sign |
| HalfFloat.F16Monotone | src/data_type.h:84-108 | order is kept on all non-NaN values, infinities included |
| HalfFloat.Normalize | src/data_type.h:122-126 | the loop shifts a subnormal mantissa to the implicit bit and lowers the exponent as often |
| HalfFloat.F16ToFloat | src/data_type.h:110-137 | widening keeps sign and exact value, infinities, and NaNs with their payload |
| HalfFloat.F16RoundTrip | src/data_type.h:84-137 | narrowing undoes widening on all patterns but NaNs, which become the quiet NaN |
| HalfFloat.F16Idempotent | src/data_type.h:84-137 | narrowing, widening and narrowing again gives the first result |
| HalfFloat.BF16Nearest | src/data_type.h:143-151 | for every non-NaN value no bfloat16 magnitude is nearer than the result, ties go to the even pattern, and the sign is kept (section 4.3.1 of IEEE 754-2019) |
| HalfFloat.BF16Overflows | src/data_type.h:143-151 | the result is infinite exactly from 2^127 (2 - 2^-8) on |
| HalfFloat.BF16Monotone | src/data_type.h:143-151 | order is kept on all non-NaN values |
| HalfFloat.BF16RoundTrip | src/data_type.h:143-158 | narrowing undoes widening on every pattern, and widening is exact |
| HalfFloat.BF16NaNExact | src/data_type.h:143-151 | a NaN stays a NaN of its sign if and only if its unsigned pattern lies strictly between 0x7F808000 and 0x7FFF8000 |
| HalfFloat.BF16LosesNaNs | src/data_type.h:143-151 | the NaN 0x7F800001 becomes infinity and the NaN 0x7FFF8000 becomes negative zero |
| HalfFloat.StandardPatterns | src/data_type.h:84-151 | one, the largest finite and the smallest binary16 values and minus two have the patterns of section 3.4 of IEEE 754-2019 |
| WorkspacePool.CallKeeps | src/native/ascend/workspace_pool_.h:47-61 | the scan and the capture check change nothing that threads share, so the fast path never allocates, and a hit hands out an arena that meets the invariant |
| WorkspacePool.NextKeeps | src/native/ascend/workspace_pool_.h:47-99 | every section of every thread keeps the invariant, keeps every arena under its key and never lowers a capacity |
| WorkspacePool.RunExtends | src/native/ascend/workspace_pool_.h:77-91 | over every interleaving arenas stay under their keys, capacities never decrease and freed buffers stay freed |
| WorkspacePool.CachesAgreeWithMap | src/native/ascend/workspace_pool_.h:47-99 | in every reachable state no two keys share an arena and every thread's cache entries refer to the arena the map owns for their key |
| WorkspacePool.HitEqualsSlowPath | src/native/ascend/workspace_pool_.h:47-91 | what a fast-path hit returns is what the map lookup would return, and the slow path would create and allocate nothing |
| WorkspacePool.GrantsCoverForever | src/native/ascend/workspace_pool_.h:53-99 | every arena ever returned belongs to its key and covers the request, then and at every later moment |
| WorkspacePool.BuffersExact | src/native/ascend/workspace_pool_.h:79-91 | live buffers are exactly those of arenas with positive capacity, and every buffer ever allocated is live or was freed exactly once |
| WorkspacePool.SupersededIsFreed | src/native/ascend/workspace_pool_.h:79-91 | a buffer stays with its arena until it is freed |
| WorkspacePool.CapacityIsLargestRequest | src/native/ascend/workspace_pool_.h:79-91 | over every run an arena's capacity is the largest size a completed `Ensure` asked for |
| WorkspacePool.AbortsExactly | src/native/ascend/workspace_pool_.h:47-88 | the process ends exactly when a call finds no entry large enough during capture, or needed memory is refused |
| WorkspacePool.NoFaultNoAbort | src/native/ascend/workspace_pool_.h:47-88 | without capture and refusals no run ends that way |
| WorkspacePool.CaptureExactly | src/native/ascend/workspace_pool_.h:57-91 | during capture no run allocates if and only if no thread was already past the check with a request its arena does not cover |
| WorkspacePool.CaptureCanBeUnquiet | src/native/ascend/workspace_pool_.h:57-61 | a first call past the check and then the switch: capture is on, and the call is yet to allocate |
| WorkspacePool.WarmUpSuffices | src/native/ascend/workspace_pool_.h:47-55 | an arena used on the slow path is found again by any call that needs no more, as long as fewer than four later slow paths of the same thread complete, whatever others do |
| WorkspacePool.FinishWarms | src/native/ascend/workspace_pool_.h:93-97 | a completed slow path leaves the requested arena in the first cache slot |
| WorkspacePool.EnsureIsThreeSections | src/native/ascend/workspace_pool_.h:33-100 | an uninterrupted `Ensure` is the run of its three sections |
| PoolGrowth.GrowIsItsSteps | src/native/ascend/workspace_pool_.h:79-91 | free, allocate and store with nothing in between are the arena section |
| PoolGrowth.AdvanceKeeps | src/native/ascend/workspace_pool_.h:47-99 | with those steps interleaved too, every step of every thread keeps the invariant: each buffer is held by one arena or was freed once, never both, and caches agree with the map |
| PoolGrowth.NoGrowthIsCoarse | src/native/ascend/workspace_pool_.h:77-91 | whenever no growth is under way the invariant of the coarser steps holds |
| PoolGrowth.HitIsLiveExactly | src/native/ascend/workspace_pool_.h:47-91 | in every reachable state a hit for a positive size returns an allocated buffer if and only if that arena is not between the free and the allocation of a growth |
| PoolGrowth.LargerRequestUndermines | src/native/ascend/workspace_pool_.h:47-91 | for any hit, a larger request of an idle thread has a run after which the same scan returns the arena with its buffer freed |
| PoolGrowth.HitOnFreedBuffer | src/native/ascend/workspace_pool_.h:47-91 | a run from the start that ends in such a hit |
| PoolObjects.Pool.Find | src/native/ascend/workspace_pool_.h:47-55 | the loop over the cache array is the scan of the model |
| PoolObjects.Pool.Lookup | src/native/ascend/workspace_pool_.h:63-75 | the map section, in place, is that of the model and keeps the invariant |
| PoolObjects.Pool.Reserve | src/native/ascend/workspace_pool_.h:77-91 | free, allocate and resize, in place, is the arena section of the model; it fails exactly when memory is needed and the device has none |
| PoolObjects.Pool.Remember | src/native/ascend/workspace_pool_.h:93-97 | the shifting loop inserts in front and evicts the oldest entry |
| PoolObjects.Pool.Ensure | src/native/ascend/workspace_pool_.h:33-100 | the whole call, in place, is the uninterrupted `Ensure` of the model, for hits, capture failures, allocation failures and growth |
| PoolObjects.Pool.Destroy | src/native/ascend/workspace_pool_.h:108-127 | afterwards exactly the buffers of arenas for which the device did not answer remain allocated, and none was freed twice |
| CacheKeys.CacheKey.AbsorbTensors | src/operator.h:40-46 | the loop appends the tensors and mixes their number and hashes into the hash, leaving the scalar hash |
| CacheKeys.Build | src/operator.h:25-53 | the key built in place is the left-to-right absorption of the arguments |
| CacheKeys.EqualTo | src/operator.h:79-91 | the loop decides equality of scalar hashes and of the tensors' metadata, one by one |
| CacheKeys.KeyParts | src/operator.h:34-53 | a key holds all tensors of the call in one row and the hash of its scalars in order |
| CacheKeys.EqualKeysExactly | src/operator.h:25-91 | with at most one tensor vector, and no collision between the two calls' scalar hashes, keys are equal if and only if all arguments agree in metadata and scalars |
| CacheKeys.SignatureExactly | src/operator.h:40-46 | calls with the same scalars that differ but have equal keys exist if and only if the parameter types include two or more tensor vectors |
| CacheKeys.IdealKeysExactly | src/operator.h:25-91 | with a hash free of collisions and at most one tensor vector, keys are equal if and only if all arguments agree: every scalar and every tensor counts |
| CacheKeys.HashContractExactly | src/operator.h:40-46 | with such a hash, calls whose keys are equal and whose hashes differ exist if and only if the parameter types include two or more tensor vectors |
| CacheKeys.EqualKeysEqualHashes | src/operator.h:71-91 | equal keys have equal hashes |
| CacheKeys.SameArgsSameHash | src/operator.h:34-53 | arguments that agree give equal hashes, whatever the data pointers |
| CacheKeys.EqualKeysSameCanonical | src/operator.h:194-205 | a hit was built from the same arguments, up to data pointers, as a new operator would be |
| OperatorCache.NextKeeps | src/operator.h:183-208 | every step of every thread, and every clear, keeps the invariant relating generations, cached operators and past uses |
| OperatorCache.NothingStaleIsUsed | src/operator.h:183-208 | over every run each operator used was built for the call's key, and its construction began after the counter reached the value the call read |
| OperatorCache.OneInstancePerKey | src/operator.h:189-205 | calls of a thread with one key that read the same counter value use one instance |
| OperatorCache.ClearTakesEffect | src/operator.h:132-141 | a thread outside `Call` when the cache is cleared never again uses an operator that existed then |
| OperatorCache.CallIsItsSteps | src/operator.h:183-208 | an uninterrupted `Call` is the run of its steps |
| OperatorCache.ThreadLocal.Call | src/operator.h:183-208 | the call, updating the thread-local variables in place, is the uninterrupted `Call` of the model |
| GraphCleanup.StepShrinks | src/native/ascend/ops/graph_cleanup_.h:18-59 | every step leaves less to do, so every program ends, whatever cleanups submit |
| GraphCleanup.StepKeeps | src/native/ascend/ops/graph_cleanup_.h:18-59 | every step keeps the books balanced and the open scopes distinct |
| GraphCleanup.EverySubmissionAccounted | src/native/ascend/ops/graph_cleanup_.h:25-59 | at every moment, for each scope and for submissions outside any, what was submitted is, in that order, what was released, has run, waits in the scope's destructor and waits in the scope |
| GraphCleanup.OpenScopesMatchEnds | src/native/ascend/ops/graph_cleanup_.h:20-31 | the open scopes, outermost first, are those whose end is ahead, last to end first; with none open nothing is pending |
| GraphCleanup.Nested | src/native/ascend/ops/graph_cleanup_.h:20-28 | at every moment the numbers of the open scopes increase from the outermost to the innermost |
| GraphCleanup.ScopeOpens | src/native/ascend/ops/graph_cleanup_.h:20-23 | a new scope is empty and newer than all open ones, and its own end follows its body |
| GraphCleanup.SubmissionJoinsNewest | src/native/ascend/ops/graph_cleanup_.h:51-55 | while scopes are open a submission waits in the one constructed last |
| GraphCleanup.EndClosesItsScope | src/native/ascend/ops/graph_cleanup_.h:25-31 | the end of a scope finds that scope the newest, takes it out and runs what waited in it |
| GraphCleanup.ReleaseNamesScope | src/native/ascend/ops/graph_cleanup_.h:41-43 | a release hands out what waits in the scope that has as many newer ones as it says, and leaves the others alone |
| GraphCleanup.TextAccounted | src/native/ascend/ops/graph_cleanup_.h:18-59 | at every moment the submissions in the program text, bodies included, are those made and those ahead in commands and bodies |
| GraphCleanup.TextSettled | src/native/ascend/ops/graph_cleanup_.h:18-59 | at the end every submission in the text has run or was released, as often as the text says, but for those in bodies of released ones |
| GraphCleanup.EveryCleanupSettled | src/native/ascend/ops/graph_cleanup_.h:18-59 | when a program ends every submitted cleanup was released or has run, once, in submission order within its scope |
| GraphCleanup.MachineIsExecution | src/native/ascend/ops/graph_cleanup_.h:18-59 | the step machine and the nested constructor, destructor and call structure compute the same |
| CleanupOrder.RunsInOrder | src/native/ascend/ops/graph_cleanup_.h:18-59 | without releases, cleanups run in the order given by the program text alone: a scope's at its end, in order, each followed by what it submits unless an outer scope takes that |
| CleanupOrder.InnerScopeFirst | src/native/ascend/ops/graph_cleanup_.h:20-31 | of two nested scopes with one cleanup each, the inner one's runs first |
| GraphCleanup.CleanupThread.OpenScope | src/native/ascend/ops/graph_cleanup_.h:20-23 | the new scope is the active one, empty, above the others |
| GraphCleanup.CleanupThread.CloseScope | src/native/ascend/ops/graph_cleanup_.h:25-31 | the scope is popped first and its callbacks then run in order, with what they submit going to the scope outside |
| GraphCleanup.CleanupThread.DeferOrRun | src/native/ascend/ops/graph_cleanup_.h:51-59 | deferred to the active scope if there is one, run at once otherwise |
| GraphCleanup.CleanupThread.ReleaseScope | src/native/ascend/ops/graph_cleanup_.h:41-43 | hands out the scope's callbacks and leaves it empty |
| GraphCleanup.CleanupThread.Perform | src/native/ascend/ops/graph_cleanup_.h:18-59 | a thread's program, executed in place, has the nested meaning |
| Sampler.SortIndices | src/native/cpu/ops/top_k_top_p_sampler/top_k_top_p_sampler.h:59-63 | every token once, larger logits first, ties in any order |
| Sampler.NormalizeTopK | src/native/cpu/ops/top_k_top_p_sampler/top_k_top_p_sampler.h:118-124 | k where it lies between 1 and the vocabulary size, otherwise the vocabulary size |
| Sampler.MaxOfPrefix | src/native/cpu/ops/top_k_top_p_sampler/top_k_top_p_sampler.h:94-98 | the scan from minus infinity finds the first token's logit |
| Sampler.ApplyTopP | src/native/cpu/ops/top_k_top_p_sampler/top_k_top_p_sampler.h:91-116 | for 0 < p < 1, the least number of top-k tokens for which the sum of exp(l - l0) is at least p times that of all k; the loop always returns from inside |
| Sampler.PrefixIsNucleus | src/native/cpu/ops/top_k_top_p_sampler/top_k_top_p_sampler.h:100-113 | that is the shortest prefix whose share of the weights reaches p, as the loop accumulates it |
| Sampler.OneTokenKept | src/native/cpu/ops/top_k_top_p_sampler/top_k_top_p_sampler.h:100-113 | one token is kept exactly when exp(0) is at least p times the sum |
| Sampler.NucleusIsSmallest | src/native/cpu/ops/top_k_top_p_sampler/top_k_top_p_sampler.h:107-113 | no choice of fewer top-k tokens, whichever they are, reaches p times the sum |
| Sampler.KeptAreTop | src/native/cpu/ops/top_k_top_p_sampler/top_k_top_p_sampler.h:65-72 | fewer than `keep` tokens have a larger logit than a kept one, and no dropped one has |
| Sampler.SampleRow | src/native/cpu/ops/top_k_top_p_sampler/top_k_top_p_sampler.h:57-88 | without top-p, k tokens are kept if k is between 1 and the vocabulary size and all otherwise; with top-p the nucleus of those; the token returned is a kept one, and fewer tokens than are kept have a larger logit |

## Left out

- Vendor calls (aclnn, ATB, cuBLAS, cuBLASLt, cnnl, the runtimes): foreign code. BLAS is its column-major specification, the device allocator hands out numbered buffers.
- Floating-point rounding in `Gemm`, RmsNorm and the sampler: exact reals. Rounding is modelled bit by bit in `HalfFloat` only.
- Machine-integer overflow of sizes, strides, offsets and hashes, and wrap-around of the generation counter: mathematical integers, except for the 32-bit addition in `BFloat16::FromFloat`.
- HalfFloat.F16Truncates: bit operations are written as quotients, remainders and sums on natural numbers, equal to them because the fields do not overlap.
- HalfFloat.F16Idempotent: leaves out NaN arguments, whose payload is lost; their images are stated by `HalfFloat.F16Overflows` and `HalfFloat.F16RoundTrip`.
- Elementwise.Compute: the three operands share one shape, as the operator requires of materialised tensors; data-type casts are part of the parameter `plus`.
- Gemm.Compute: C must not alias A or B and its entries must have cells of their own, which the source leaves to its caller, as it does that the operands' sizes match and all operands have C's batches; casts between data types are left out.
- Concat.Construct: the checks on data types and devices are left out.
- AscendRmsNorm.KernelRmsNorm.Compute: the row length is aligned, which the host asserts; the casts of the 16-bit path, queues, DMA and the weight buffer are left out.
- CambriconRmsNorm.Launch: the last strides are 1, or rows have at most one element, which `CambriconRmsNorm.ChunksFollowStrideExactly` shows to be needed; the input does not alias the output; NRAM placement and the vectorised reduction are hardware.
- AscendRmsNorm.AnyInterleavingNormalises: stores carry the values of a finished row computation, here and in `CambriconRmsNorm.AnyInterleavingNormalises`; inputs are only read, so when they are loaded does not matter.
- PoolObjects.Pool.Ensure: each of the three sections is atomic; `PoolGrowth` splits the third, and leaves out the capture switch. The scan reads each capacity whole, and a cached slot name is its contents.
- WorkspacePool.CaptureExactly: with assertions compiled out neither the capture check nor the allocation check exists; the model has both.
- OperatorCache.ThreadLocal.Call: running the operator, its handle and its workspace are left out, as are calls made from inside a constructor.
- CacheKeys.EqualKeysExactly: optional tensors and integer vectors count as single scalar values, compared by hash as in the source; the combination formula of src/hash.h is a parameter.
- GraphCleanup.EverySubmissionAccounted: cleanups reach scopes through the thread's active scope only, not through a captured reference; a released vector is empty afterwards; one thread.
- CleanupOrder.RunsInOrder: programs with releases are left out; `GraphCleanup.TextSettled` covers them.
- RowNorm.NormalisedRow: the device's square root is taken to be exact; an empty row has no mean.
- Sampler.SampleRow: the draw is any kept token; the row's stride, the data types of k and p and the per-row lookup of both are left out. An empty vocabulary is the caller's error.
- `Tensor::T`, indexing and printing, `CeilDiv`, the remaining members of `AclTensorCache`, dispatch and traits, the generated bindings, the attention operators and the other kernels: easy members or plumbing around fused calls.
