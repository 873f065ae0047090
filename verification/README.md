# CNN accelerator reference path in Dafny

A model of the integer software path of the `accelerator` benchmark firmware: the
Q20.12 fixed-point kernel, the bump allocator that carves matrices out of a fixed
DDR region, the matrix library, the reference CNN stages (convolution, ReLU, max
pooling and the `cnn_forward` pipeline), the driver that arms the 3 x 3 kernel in
the accelerator's register file and hands buffers to the DMA engine, and the
two's-complement helper of the Python hardware model.

Modules, one per source component:

- `CInt` (`cint.dfy`): C's 32-bit signed and unsigned ranges, unsigned wrap-around
  and truncating division and remainder.
- `Results` (`results.dfy`): the `status_t` codes and the `Result`/`Option` wrappers
  standing for the status-plus-out-pointer convention and for NULL.
- `Config` (`config.dfy`): the build-time constants of `config.h`.
- `FixedPoint` (`fixed.dfy`): `int_to_fixed`, `fixed_to_int`, `fixed_multiply`,
  `fixed_add` and the integer/fraction split of `fixed_print`. Values are `int`
  restricted to the `int32_t` range; every operation computes exactly and
  range-checks, as the source does through 64-bit intermediates. The right shift
  by 12 is floor division by 4096.
- `TwosComplement` (`twos.dfy`): `twos_complement` of the Python model on strings
  of '0'/'1' characters.
- `BumpAllocator` (`allocator.dfy`): the allocator as a class whose fields are
  updated in place, each method proved against a pure step function on an
  `AllocatorState` value, plus lemmas on runs of allocations.
- `Matrices` (`matrix.dfy`): a matrix is a class over an `array` of fixed-point
  values whose row-major contents are read as a `Grid` value; `matrix_get` and
  `matrix_set` are specified by `Get`/`Put` on grids.
- `Cnn` (`cnn.dfy`): every stage is a nested loop that writes output cells in
  row-major order and stops at the first failing cell. All three are specified by
  one function, `Fill`, parameterised by the stage's per-cell result
  (`CellsOf(stage)`); the lemmas about `Fill` (frame, success condition, values,
  failure point) are proved once and specialised per stage.
- `Accel` (`accelerator.dfy`): the register file is an array of 32-bit words; the
  DMA engine is a channel object that records each request and reports a status
  chosen by its environment.

`cnn_forward` sizes its intermediates with its `stride` argument
(`sw/cnn/cnn.c:178-179`) but runs the convolution with the constant `STRIDE`
(`sw/cnn/cnn.c:196`) and the pooling with the constant `POOL_SIZE`
(`sw/cnn/cnn.c:214`). The model keeps this as written: `Cnn.Forward` runs
`Cnn.Pipeline`, which is `Cnn.PipelineWith` at the constants, and its `pool_size`
argument is only checked to be positive. See "Findings".

## Model

| member | source | states |
|---|---|---|
| CInt.Wrap32 | sw/hal/bump_allocator.c:17-19 | conversion to `uint32_t` is reduction modulo 2^32 and is the identity on the unsigned range |
| CInt.TruncDiv | sw/cnn/cnn.c:40-41 | C division truncates toward zero: bounds of the quotient for either sign of the dividend |
| CInt.TruncRem | sw/common/fixed.c:108-109 | C remainder: dividend = quotient * divisor + remainder, the remainder taking the dividend's sign |
| FixedPoint.ShiftRight | sw/common/fixed.c:65 | the arithmetic shift by 12 is the floor of division by 4096 |
| FixedPoint.IntToFixed | sw/common/fixed.c:42-57 | succeeds iff -524288 <= n <= 524287 and then yields n * 4096; otherwise Overflow |
| FixedPoint.FixedToInt | sw/common/fixed.c:59-67 | the result is floor(v / 4096) |
| FixedPoint.IntRoundTrip | sw/common/fixed.c:42-67 | `fixed_to_int(int_to_fixed(n)) == n` on the whole accepted range |
| FixedPoint.ProductFitsInt64 | sw/common/fixed.c:75-76 | the product of two `fixed_point_t` always fits the `int64_t` intermediate |
| FixedPoint.Multiply | sw/common/fixed.c:69-86 | Ok iff floor(a*b / 4096) lies in the 32-bit range, and then equals it; otherwise Overflow |
| FixedPoint.MultiplyCommutes | sw/common/fixed.c:69-86 | `fixed_multiply` is symmetric, results and errors alike |
| FixedPoint.MultiplyByOne | sw/common/fixed.c:69-86 | 4096 (fixed-point one) is a two-sided unit of `fixed_multiply` |
| FixedPoint.Add | sw/common/fixed.c:88-105 | Ok iff the exact sum is in the 32-bit range, and then equals it; never wraps; otherwise Overflow |
| FixedPoint.AddCommutes | sw/common/fixed.c:88-105 | `fixed_add` is symmetric |
| FixedPoint.PrintedParts | sw/common/fixed.c:107-116 | the sign flag and integer part of `fixed_print` bound the magnitude; the fraction is within 0..999 for non-negative values; for negative ones it is the magnitude's three decimals rounded up, so it reaches 1000 |
| FixedPoint.PrintedFractionReaches1000 | sw/common/fixed.c:108-114 | -4095 is rendered with fraction 1000 |
| FixedPoint.PrintedFractionRoundsUp | sw/common/fixed.c:108-114 | -1 is rendered as "-0.001", where the truncated decimals are 000 |
| FixedPoint.DecimalParts | sw/common/fixed.c:107-116 | integer part and first three decimals of the magnitude, fraction always 0..999 |
| FixedPoint.DecimalPartsMatchesSource | sw/common/fixed.c:107-116 | agrees with the source on non-negative values and is symmetric in the sign |
| TwosComplement.Invert | hw/model/fixed_point_model.py:5 | same length, binary, and digit i is '1' exactly where the input's is '0' |
| TwosComplement.Binary | hw/model/fixed_point_model.py:7 | a binary string with no leading zero whose value is v |
| TwosComplement.PadLeft | hw/model/fixed_point_model.py:7 | zero padding to at least `width` characters, never truncating |
| TwosComplement.Complement | hw/model/fixed_point_model.py:3-7 | None exactly for the empty string (`int('', 2)` raises); otherwise a binary string of at least `total_bits` characters |
| TwosComplement.ComplementValue | hw/model/fixed_point_model.py:5-7 | the output's value is the inverted input's value plus one |
| TwosComplement.InvertValue | hw/model/fixed_point_model.py:5 | val(invert(s)) + val(s) = 2^n - 1 |
| TwosComplement.ValueInjective | hw/model/fixed_point_model.py:6 | equal-length binary strings with equal values are equal |
| TwosComplement.ComplementOfNonZero | hw/model/fixed_point_model.py:5-7 | for a non-zero n-bit string and total_bits = n: n characters, value 2^n - val(s) |
| TwosComplement.ComplementInvolution | hw/model/fixed_point_model.py:3-7 | applying it twice with total_bits = n gives back any non-zero n-bit string |
| TwosComplement.ComplementOfZero | hw/model/fixed_point_model.py:6-7 | n zeros give '1' followed by n zeros: n + 1 characters |
| BumpAllocator.AlignUp | sw/hal/bump_allocator.c:17-19 | a multiple of 64, the least not below the size, except that the top 63 sizes wrap to 0 |
| BumpAllocator.AllocStep | sw/hal/bump_allocator.c:38-68 | NULL iff uninitialised, zero size, alignment overflow or out of memory, state unchanged then; else the cursor is returned and both counters advance by the aligned size; the invariant is kept and the block is aligned and inside the region |
| BumpAllocator.AllocAsWritten | sw/hal/bump_allocator.c:56-63 | with 32-bit sums; agrees with AllocStep whenever the usage sum does not wrap |
| BumpAllocator.OutOfMemoryCheckWraps | sw/hal/bump_allocator.c:56-63 | after a 64-byte allocation a 2^32 - 64 byte request passes the wrapped test and rewinds the cursor |
| BumpAllocator.Run | sw/hal/bump_allocator.c:38-68 | a sequence of allocations yields one result per request |
| BumpAllocator.RunRegionsDisjoint | sw/hal/bump_allocator.c:38-68 | every block of a run is aligned, lies between the start and end cursors, and blocks of earlier calls end before blocks of later ones |
| BumpAllocator.RunFinalState | sw/hal/bump_allocator.c:61-63 | when all requests are valid and fit, every call succeeds and the cursor and the usage both end advanced by the aligned total |
| BumpAllocator.RunAddressAt | sw/hal/bump_allocator.c:61-63 | when all requests are valid and fit, the k-th block starts at the cursor plus the aligned sizes of the requests before it |
| BumpAllocator.ReplayAfterReset | sw/hal/bump_allocator.c:74-77 | after a reset the same requests get the same addresses as after `allocator_init`, none below the base |
| BumpAllocator.Allocator.Init | sw/hal/bump_allocator.c:25-36 | InvalidParam for a misaligned base, else the cursor at the base and usage 0 |
| BumpAllocator.Allocator.Alloc | sw/hal/bump_allocator.c:38-68 | new state and pointer are those of AllocStep |
| BumpAllocator.Allocator.Free | sw/hal/bump_allocator.c:70-72 | no state changes |
| BumpAllocator.Allocator.Reset | sw/hal/bump_allocator.c:74-77 | cursor back to the base, usage 0, `initialized` kept |
| BumpAllocator.Allocator.GetUsed | sw/hal/bump_allocator.c:79-81 | the bytes in use, a multiple of 64 |
| BumpAllocator.Allocator.GetAvailable | sw/hal/bump_allocator.c:83-85 | used + available is the region size |
| Matrices.OffsetInjective | sw/common/matrix.c:53 | distinct in-bounds positions have distinct row-major offsets |
| Matrices.Get | sw/common/matrix.c:57-70 | Ok iff the position is in bounds, with the row-major element; otherwise InvalidParam |
| Matrices.Put | sw/common/matrix.c:42-55 | Ok iff in bounds, with the shape kept and the new value read back; otherwise InvalidParam |
| Matrices.PutKeepsOthers | sw/common/matrix.c:53 | every other position reads the same after a write |
| Matrices.Matrix.Set | sw/common/matrix.c:42-55 | status and new contents are those of Put; a rejected write changes nothing |
| Matrices.Matrix.Initialize | sw/common/matrix.c:72-95 | element k becomes k * 4096; Overflow when an index exceeds 524287, the cells from there on untouched |
| Matrices.DataBytesAsWritten | sw/common/matrix.c:21 | the 32-bit byte count, exact when the product fits |
| Matrices.DataBytesWrap | sw/common/matrix.c:21 | a 1073741825 x 1 matrix asks for 4 bytes |
| Matrices.DataBytes | sw/common/matrix.c:21 | the exact byte count, or None when it exceeds a 32-bit `size_t` |
| Matrices.CreateStep | sw/common/matrix.c:7-31 | succeeds iff the shape is positive, the structure allocation succeeds, the byte count fits and the data allocation succeeds; NULL for a non-positive shape or a failed structure allocation with the state unchanged; a failed data allocation keeps the structure's bytes consumed; on success the structure and data addresses and the state after both allocations |
| Matrices.CreateLeaksStructure | sw/common/matrix.c:20-26 | a failed data allocation leaves the 64 structure bytes used |
| Matrices.Create | sw/common/matrix.c:7-31 | allocator state and addresses are those of CreateStep; a fresh, live matrix of the requested shape on success |
| Matrices.Destroy | sw/common/matrix.c:33-40 | safe on NULL; the allocator is unchanged; the matrix is marked destroyed |
| Matrices.Matrix.constructor | sw/common/matrix.c:28-30 | shape and addresses recorded, a live matrix |
| Matrices.Compare | sw/common/matrix.c:150-187 | InvalidParam iff the shapes differ; otherwise 0 iff all elements are equal, else 1 |
| Matrices.RowsEqual | sw/common/matrix.c:166-181 | the inner loop reports a row equal iff every element of that row agrees in both matrices |
| Cnn.Relu | sw/cnn/cnn.c:8-26 | non-negative, at least x, and either x or 0 |
| Cnn.ConvDim | sw/cnn/cnn.c:40-41 | with truncating division: the number of stride steps that fit when the kernel fits; 1 when the kernel overhangs by less than the stride; at most 0 otherwise; within `int` |
| Cnn.ConvSumExact | sw/cnn/cnn.c:52-79 | a successful window sum is the exact sum of the shifted products, and every window position lies in the input |
| Cnn.BlockMaxBounds | sw/cnn/cnn.c:142-153 | the pooled maximum is at least the seed and every block element, all of them in bounds |
| Cnn.BlockMaxAttained | sw/cnn/cnn.c:142-153 | the pooled maximum is the seed or an element of the block |
| Cnn.BlockMaxInside | sw/cnn/cnn.c:143-150 | a block inside the input never fails |
| Cnn.FillFrame | sw/cnn/cnn.c:43-87 | a stage keeps the output's shape and leaves cells it does not visit unchanged |
| Cnn.FillSucceeds | sw/cnn/cnn.c:43-87 | a stage succeeds iff every visited cell computes and lies in the output |
| Cnn.FillValues | sw/cnn/cnn.c:43-87 | after success every visited cell holds its computed value |
| Cnn.FillFailure | sw/cnn/cnn.c:43-87 | a failing stage stops at one cell with that cell's status; cells before it are written, all others unchanged |
| Cnn.FillStatusShapeOnly | sw/cnn/cnn.c:43-87 | a stage's status depends on the output's shape, not its contents |
| Cnn.FillCoversOutput | sw/cnn/cnn.c:43-87 | a successful stage over the whole output determines all of it |
| Cnn.ReluSucceeds | sw/cnn/cnn.c:92-123 | ReLU succeeds iff the output is at least as large as the input |
| Cnn.ReluValues | sw/cnn/cnn.c:101-119 | after success each cell is ReLU of the input's cell |
| Cnn.ConvolveValues | sw/cnn/cnn.c:28-90 | after success cell (a, b) is the exact sum of shifted products of the window at (a*stride, b*stride), which lies in the input |
| Cnn.MaxPoolSucceeds | sw/cnn/cnn.c:125-162 | pooling succeeds iff there is nothing to pool or the output covers the pooled shape |
| Cnn.MaxPoolValues | sw/cnn/cnn.c:140-158 | after success each cell is an element of its block and at least every element of it |
| Cnn.RampBlock | sw/cnn/cnn.c:140-153 | each 2 x 2 block of the 4 x 4 ramp pools to its bottom-right element |
| Cnn.RampPoolExample | sw/cnn/cnn.c:125-162 | 2 x 2 pooling of the 4 x 4 ramp gives 5, 7, 13, 15 |
| Cnn.ConvolveCell | sw/cnn/cnn.c:46-79 | the window loop returns the window's ConvSum from a zero sum |
| Cnn.Convolve | sw/cnn/cnn.c:28-90 | InvalidParam and no change for stride <= 0; else status and output are those of Fill over the ConvDim shape |
| Cnn.ReluActivate | sw/cnn/cnn.c:92-123 | status and output are those of Fill over the input's shape |
| Cnn.PoolCell | sw/cnn/cnn.c:142-153 | the block loop returns the block's BlockMax seeded with FIXED_POINT_MIN |
| Cnn.MaxPool | sw/cnn/cnn.c:125-162 | InvalidParam and no change for pool_size <= 0; else status and output are those of Fill over the truncated pooled shape |
| Cnn.ConvolutionFitsIntermediate | sw/cnn/cnn.c:178-182 | run with the `stride` argument, the convolution fails only when a window fails, never for lack of room |
| Cnn.StrideMismatchFails | sw/cnn/cnn.c:178-196 | with stride > STRIDE and an input at least stride rows taller than the kernel, `cnn_forward` never succeeds |
| Cnn.PipelineIgnoresScratch | sw/cnn/cnn.c:182-214 | with intermediates of the STRIDE shape, the result does not depend on their initial contents |
| Cnn.Intermediates | sw/cnn/cnn.c:182-193 | at least one intermediate exactly when the first `matrix_create` succeeds, two exactly when the second does too; the allocator state is that after the calls made; the allocator invariant is kept |
| Cnn.Forward | sw/cnn/cnn.c:164-227 | InvalidParam for non-positive arguments; MemoryError when an intermediate cannot be created; otherwise the outcome of the stage pipeline; every created intermediate is destroyed |
| Cnn.ForwardSized | sw/cnn/cnn.c:181-226 | given the intermediate shape: MemoryError with the output untouched unless both intermediates are created; otherwise the pipeline's outcome on intermediates of that shape; the allocator ends in the state `Intermediates` gives |
| Cnn.CreateIntermediates | sw/cnn/cnn.c:181-193 | two fresh, live, distinct matrices of the given shape, or the first destroyed when the second cannot be created, or none |
| Cnn.RunStages | sw/cnn/cnn.c:195-226 | the stages run in order, stop at the first failure, and both intermediates are destroyed on every exit |
| Accel.RegisterFile.Write | sw/hal/registers.c:6-9 | the one register takes the value, the write is logged, and it always succeeds |
| Accel.AsSigned | sw/hal/accelerator.c:37 | the inverse of the `fixed_point_t` to `u32` conversion at the register write |
| Accel.AsSignedWrap | sw/hal/accelerator.c:37 | converting a weight to a register word loses nothing |
| Accel.KernelImage | sw/hal/accelerator.c:28-43 | nine words, weight (i, j) in word i*3+j |
| Accel.KernelImageInjective | sw/hal/accelerator.c:28-43 | two kernels that arm the same register words are equal |
| Accel.SetKernel | sw/hal/accelerator.c:16-45 | Success iff the kernel is non-NULL and 3 x 3; otherwise InvalidParam with no register written; on success registers 0..8 hold the kernel, written once each in row-major order, all others unchanged |
| Accel.DmaChannel.Transfer | sw/hal/accelerator.c:51-54 | the request is recorded and the engine's status returned |
| Accel.BufferBytes | sw/hal/accelerator.c:52 | four bytes per element of the matrix |
| Accel.Compute | sw/hal/accelerator.c:47-61 | exactly one transfer of the input's and output's data buffers with their byte lengths; the transfer's status is returned unchanged |

## Left out

- Float code: `float_to_fixed`, `fixed_to_float`, `fixed_random`, the xorshift generator, `matrix_randomize`, and the float helpers of the Python model.
- Printing: `matrix_print` and the output of `fixed_print`; only its integer/fraction arithmetic is modelled.
- The NULL result-pointer checks of the fixed-point, matrix and CNN functions: Dafny returns results by value, so those branches cannot arise.
- The NULL matrix-argument checks of `matrix_set`, `matrix_get`, `matrix_initialize`, `matrix_compare`, `cnn_convolve`, `cnn_relu_activate`, `cnn_max_pool` and `cnn_forward` (each returns InvalidParam for a NULL matrix): these members take a non-null `Matrix`, so the model does not capture that InvalidParam branch; every caller in the firmware passes matrices it has just created and checked. Only `accelerator_set_kernel` and `matrix_destroy` model their NULL case.
- BumpAllocator.Allocator.Alloc: follows the exact capacity test of AllocStep, not the 32-bit test of `sw/hal/bump_allocator.c:56`; on the inputs of the allocator finding (64 bytes used, then a 2^32 - 64 byte request) it returns NULL where the source grants the request and wraps the cursor. AllocAsWritten models the source's test and agrees whenever the usage sum does not wrap.
- Matrices.Create: sizes the data block with DataBytes, which refuses byte counts above 32 bits, not with the 32-bit product of `sw/common/matrix.c:21`; for a 1073741825 x 1 matrix it returns NULL where the source allocates 4 bytes. The same holds for Matrices.CreateStep and for the intermediates of Cnn.Forward. DataBytesAsWritten models the source's product and agrees whenever it fits.
- `sw/hal/dma.c` (interrupt handlers, Xilinx DMA and interrupt-controller drivers, cache flushes, polling with timeouts): the DMA engine is a channel object whose reply status is a field its environment sets.
- Accel.Compute: does not model the data the DMA engine writes into the output buffer; only the request and the returned status are modelled.
- `registers_read` and the memory-mapped I/O of `registers_write`: the register file is an array; `ACCELERATOR_BASEADDR` and `REG_OFFSET` address arithmetic is not modelled.
- `accelerator_init` and `accelerator_cleanup`: thin wrappers over DMA setup and teardown.
- The cache invalidation inside `allocator_alloc`: a foreign cache-maintenance call.
- `MATRIX_MEM_BASE` comes from the board's address map: the allocator takes its base address as a constructor parameter.
- The initial contents of a freshly allocated matrix are whatever memory held; the model promises nothing about them, and Cnn.Forward exposes them as the ghost results `convInit` and `reluInit`.
- Matrices whose data buffers alias: the CNN stages require the output buffer to differ from the inputs.
- Matrices.Destroy: freeing is a no-op in the source; the model only marks the matrix destroyed so that Cnn.Forward can state that every intermediate is released.
- Cnn.Forward: only the `pool_size > 0` check uses its `pool_size` argument, as in the source.
- `sw/utils/benchmark.c` (timer reads and doubles), `sw/main.c` (orchestration), `hw/model/model.py`, `hw/model/convolution_model.py` and `hw/model/check_sizes.py` are not part of this model.
- Negative `total_bits` in the Python helper: the model takes a natural number.

## Findings

| source | as written | input that shows it | evidently intended | confidence | as-written member | corrected member |
|---|---|---|---|---|---|---|
| sw/common/fixed.c:108-114 | the fraction is the floor shift of a truncated remainder, negated for negative values, so negative values have their decimals rounded up | v = -4095 prints fraction 1000; v = -1 prints "-0.001" | the magnitude's first three decimals, truncated as for non-negative values, always 0..999 | not executed | FixedPoint.PrintedFractionReaches1000 | FixedPoint.DecimalParts |
| sw/hal/bump_allocator.c:56 | the out-of-memory test adds in 32 bits | 64 bytes used, then a request of 2^32 - 64 bytes is granted and the cursor wraps to the base | an exact comparison that refuses the request | not executed | BumpAllocator.OutOfMemoryCheckWraps | BumpAllocator.AllocStep |
| sw/common/matrix.c:21 | the data byte count is a 32-bit product | rows = 1073741825, cols = 1 asks for 4 bytes | refuse shapes whose byte count exceeds `size_t` | not executed | Matrices.DataBytesWrap | Matrices.DataBytes |
| sw/cnn/cnn.c:178-196 | intermediates are sized with `stride` but the convolution runs with `STRIDE` | stride = 2, a 5 x 5 input and a 3 x 3 kernel: a 2 x 2 intermediate receives a 3 x 3 convolution, so the call fails | the convolution run with the `stride` argument | not executed | Cnn.StrideMismatchFails | Cnn.ConvolutionFitsIntermediate |
