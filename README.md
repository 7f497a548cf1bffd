# fft3d_calc analysis step, modelled in Dafny

The brusselator tutorial's analysis program reads two complex 3-D fields, u and v, one step at a time from an input stream. Each field arrives as a real and an imaginary part. The program Fourier-transforms both fields and writes the four transformed arrays to an output stream. It can also pass the four original parts through to the output.

This project models the integer and array logic of that program's `main`:

- **Geometry** (`geometry.dfy`): row-major flattening `i*d1*d2 + j*d2 + k` as used by the staging loops.
  - `x_dim = alloc_local / d1 / d2`.
  - `x_off`, computed as an inclusive prefix scan over the ranks minus the rank's own `x_dim`. The model proves it is the exclusive prefix sum.
- **Cli** (`cli.dfy`): argument handling. Fewer than three argv entries abort. An optional fourth entry equal to `"0"` turns passthrough on.
- **Layout** (`layout.dfy`): output variables on the first step.
  - The four FFT outputs are 1-D of length `d0*d1*d2`, start at `x_off*d1*d2` and have count `alloc_local`.
  - The four passthrough copies are 3-D, start at `(x_off, 0, 0)` and have count `(x_dim, d1, d2)`.
  - Which variables each step writes: 4 or 8.
  - How the ranks' FFT output ranges fit together: they tile `[0, Sum(alloc_local))` when every rank except possibly the last holds a whole number of `d1*d2` planes, and a padded rank that has a successor overlaps it.
  - The first-step reconciliation check between `alloc_local` and an even split of the field.
- **Staging** (`staging.dfy`): one step on one rank, as methods over arrays.
  - Staging a field pair into the interleaved complex input buffer.
  - Executing the transform, which is an opaque, length-preserving function parameter.
  - Splitting the output buffer back into a real and an imaginary array.
  - All of this done for u and then for v.
- **StepLoop** (`steploop.dfy`): the `while(true)` loop over the statuses `BeginStep` returns.
  - `NotReady` retries.
  - `OK` counts the step, runs the setup once on the first step, and processes the step.
  - Any other status leaves the loop.
  - `Drive` is the loop as a method with `step_num` and the `firstStep` latch. `Run` is its reference definition, and the lemmas state what the loop guarantees.

All source paths below are in `Tutorial/brusselator/src/analysis/fft3d_calc.cpp`.

Four behaviours of the code that are easy to miss:

- The passthrough copies are placed with the transform library's geometry (`x_off`, `x_dim`), not with the slab that the decomposition routine chose for reading.
- The v field is staged, and its passthrough count is defined, with u's `d1` and `d2`.
- A failed reconciliation check only prints a message; the abort is commented out. The model computes the check as a boolean that nothing acts on.
- The input data of the transform is the whole buffer `in`. Both staging loops write only the cells below `x_dim*d1*d2`, the same cells on every step, so the cells past that point are never staged: they keep whatever `fftw_alloc_complex` left there (provided the transform does not write `in`, see `Staging.Execute` under "## Left out"). The transform is collective: the plan is built on the world communicator (line 198), so what one rank gets back depends on every rank's `in`. `ProcessStep` gives one rank's view: exactly what that rank puts into the transform, and that what it gets back is split into its outputs.

## Model

| member | source | states |
|---|---|---|
| Geometry.FlatIndex | Tutorial/brusselator/src/analysis/fft3d_calc.cpp:276 | defines the row-major index i*d1*d2 + j*d2 + k of cell (i, j, k) |
| Geometry.XDim | Tutorial/brusselator/src/analysis/fft3d_calc.cpp:200 | defines x_dim as alloc_local / d1 / d2 in integer division |
| Geometry.ScanFrom | Tutorial/brusselator/src/analysis/fft3d_calc.cpp:201 | defines the running sum of a sequence started from an accumulator, one entry per value |
| Geometry.InclusiveScan | Tutorial/brusselator/src/analysis/fft3d_calc.cpp:201 | defines the inclusive sum scan over the ranks' values, one entry per rank, as MPI_Scan with MPI_SUM computes it |
| Geometry.FlatIndexBound | Tutorial/brusselator/src/analysis/fft3d_calc.cpp:270-276 | for i < x_dim, j < d1, k < d2 the flattened index is below x_dim*d1*d2, and below (i+1)*d1*d2 |
| Geometry.FlatIndexInjective | Tutorial/brusselator/src/analysis/fft3d_calc.cpp:270-276 | two triples with j, k in range that flatten to the same index are the same triple |
| Geometry.FlatIndexOnto | Tutorial/brusselator/src/analysis/fft3d_calc.cpp:270-281 | every position below x_dim*d1*d2 is reached by exactly the in-range triple obtained by division and remainder, so the loops visit every cell of the slab |
| Geometry.XDimBounds | Tutorial/brusselator/src/analysis/fft3d_calc.cpp:200 | x_dim whole planes of d1*d2 cells fit in alloc_local and x_dim+1 do not |
| Geometry.XDimExact | Tutorial/brusselator/src/analysis/fft3d_calc.cpp:200 | x_dim*d1*d2 equals alloc_local if and only if alloc_local is a multiple of d1*d2 |
| Geometry.SlabFits | Tutorial/brusselator/src/analysis/fft3d_calc.cpp:200 | the x_dim*d1*d2 cells the staging loops write fit in alloc_local and leave less than one plane of it unwritten, so the first step's x_dim meets the buffer-size precondition of ProcessStep |
| Geometry.InclusiveScanIsPrefixSum | Tutorial/brusselator/src/analysis/fft3d_calc.cpp:201 | entry r of the inclusive sum scan is the sum of the first r+1 values and is at least value r, so subtracting the own value never underflows |
| Geometry.XOff | Tutorial/brusselator/src/analysis/fft3d_calc.cpp:201-202 | the inclusive scan minus the rank's own x_dim is the sum of x_dim over all lower ranks |
| Geometry.XOffAdjacent | Tutorial/brusselator/src/analysis/fft3d_calc.cpp:201-202 | the next rank's x_off is this rank's x_off plus its x_dim: no gap and no overlap |
| Geometry.XOffMonotone | Tutorial/brusselator/src/analysis/fft3d_calc.cpp:201-202 | a lower rank's row interval ends at or before a higher rank's x_off |
| Geometry.XOffDisjoint | Tutorial/brusselator/src/analysis/fft3d_calc.cpp:201-202 | a row in one rank's interval [x_off, x_off+x_dim) is in no other rank's interval |
| Geometry.XOffCovers | Tutorial/brusselator/src/analysis/fft3d_calc.cpp:201-202 | rank 0 starts at row 0 and the last rank's interval ends at the sum of all x_dim |
| Cli.ParseArgs | Tutorial/brusselator/src/analysis/fft3d_calc.cpp:59-77 | abort if and only if fewer than three argv entries; the names are argv[1] and argv[2]; passthrough on if and only if there is a fourth entry and it is exactly "0" |
| Layout.StepPuts | Tutorial/brusselator/src/analysis/fft3d_calc.cpp:320-329 | each step puts the four FFT outputs first, then the four original parts only when passthrough is on: 4 names or 8 |
| Layout.PutsPerStep | Tutorial/brusselator/src/analysis/fft3d_calc.cpp:320-329 | from the arguments: 8 puts per step if and only if argv[3] is "0", else 4 |
| Layout.XDims | Tutorial/brusselator/src/analysis/fft3d_calc.cpp:200 | the per-rank x_dim values the scan runs over, one per rank: x_dim whole d1*d2 planes fit in the rank's alloc_local and x_dim+1 do not |
| Layout.LayoutOf | Tutorial/brusselator/src/analysis/fft3d_calc.cpp:200-202 | a rank's alloc_local, its x_dim, and its x_off as the sum of the lower ranks' x_dim |
| Layout.FftStart | Tutorial/brusselator/src/analysis/fft3d_calc.cpp:207 | defines the flattened start x_off*d1*d2 of a rank in each FFT output variable |
| Layout.DefineOutputs | Tutorial/brusselator/src/analysis/fft3d_calc.cpp:205-240 | the defined names are the put names in order; FFT outputs have shape [d0*d1*d2], start [x_off*d1*d2] and count [alloc_local]; passthrough copies have start (x_off,0,0), count (x_dim,d1,d2) with u's d1,d2, and their own field's shape |
| Layout.FftStartIsLowerCells | Tutorial/brusselator/src/analysis/fft3d_calc.cpp:205-221 | the flattened FFT start x_off*d1*d2 is the sum over lower ranks of x_dim*d1*d2 |
| Layout.FftRangesAdjacent | Tutorial/brusselator/src/analysis/fft3d_calc.cpp:205-221 | when a rank's alloc_local is whole planes, its FFT range ends exactly where the next rank's begins |
| Layout.FftRangesTile | Tutorial/brusselator/src/analysis/fft3d_calc.cpp:205-221 | when every alloc_local but possibly the last is whole planes, the ranks' FFT ranges start at 0, follow each other without gap or overlap, and end at the sum of all alloc_local |
| Layout.FftRangesOverlapWhenPadded | Tutorial/brusselator/src/analysis/fft3d_calc.cpp:200-221 | when a rank's alloc_local is not whole planes, its FFT range runs past the start of the next rank's |
| Layout.Reconciled | Tutorial/brusselator/src/analysis/fft3d_calc.cpp:181 | defines the check: alloc_local equals the field size d0*d1*d2 divided by the number of ranks |
| Layout.ReconciledCoversField | Tutorial/brusselator/src/analysis/fft3d_calc.cpp:181-185 | if every rank passes the check and the split is exact, the ranks' alloc_local add up to d0*d1*d2; if the even share is also whole planes, the x_dim add up to d0 |
| Layout.PlanesCoverField | Tutorial/brusselator/src/analysis/fft3d_calc.cpp:200-202 | whole-plane allocations that add up to the field give x_dim values that add up to d0 |
| Staging.Staged | Tutorial/brusselator/src/analysis/fft3d_calc.cpp:270-281 | defines the buffer after staging n cells: cell t < n holds (re[t], im[t]) and every other cell keeps its contents; same length as the buffer |
| Staging.Reals | Tutorial/brusselator/src/analysis/fft3d_calc.cpp:287-291 | defines the real parts of an interleaved buffer, one per cell |
| Staging.Imags | Tutorial/brusselator/src/analysis/fft3d_calc.cpp:287-291 | defines the imaginary parts of an interleaved buffer, one per cell |
| Staging.StageIn | Tutorial/brusselator/src/analysis/fft3d_calc.cpp:270-281 | after the triple loop, cell t < x_dim*d1*d2 of the buffer holds (re[t], im[t]) and every other cell is unchanged |
| Staging.StageOut | Tutorial/brusselator/src/analysis/fft3d_calc.cpp:287-291 | for i < alloc_local the real and imaginary arrays hold the two parts of out[i]; out and the arrays' tails are unchanged |
| Staging.Execute | Tutorial/brusselator/src/analysis/fft3d_calc.cpp:284 | the output buffer becomes the transform of the whole input buffer; the input buffer is unchanged |
| Staging.StageRoundTrip | Tutorial/brusselator/src/analysis/fft3d_calc.cpp:270-291 | splitting a staged buffer gives back the staged real and imaginary values on the staged cells and the old contents elsewhere |
| Staging.StageOverwrites | Tutorial/brusselator/src/analysis/fft3d_calc.cpp:295-306 | staging v over the buffer that held u is the same as staging v over the buffer before u, so no u data reaches the v transform |
| Staging.StagingKeepsPadding | Tutorial/brusselator/src/analysis/fft3d_calc.cpp:270-306 | staging leaves the cells at and past x_dim*d1*d2 exactly as they were, so those cells reach the transform unchanged for u and for v |
| Staging.ProcessStep | Tutorial/brusselator/src/analysis/fft3d_calc.cpp:268-316 | the u outputs are the parts of the transform of u staged over the old buffer, the v outputs are the same for v, and the buffers end holding v's staged input and its transform |
| StepLoop.Iterate | Tutorial/brusselator/src/analysis/fft3d_calc.cpp:122-241 | defines one pass round the loop: NotReady records a retry, OK adds one to step_num, clears the latch, runs setup if the latch was set and processes the step, any other status leaves the loop |
| StepLoop.Run | Tutorial/brusselator/src/analysis/fft3d_calc.cpp:120-133 | defines the loop over a sequence of statuses: passes until the loop is left or the statuses run out |
| StepLoop.FirstStop | Tutorial/brusselator/src/analysis/fft3d_calc.cpp:130-133 | the position of the first status that is neither NotReady nor OK, or the length if there is none |
| StepLoop.IteratePreservesWf | Tutorial/brusselator/src/analysis/fft3d_calc.cpp:120-241 | one pass round the loop keeps the latch, step numbering, setup-once and put-names invariant |
| StepLoop.RunPreservesWf | Tutorial/brusselator/src/analysis/fft3d_calc.cpp:120-241 | any number of passes keep that invariant |
| StepLoop.RunClosed | Tutorial/brusselator/src/analysis/fft3d_calc.cpp:130-133 | the loop is left if and only if some status is neither NotReady nor OK |
| StepLoop.RunStepNum | Tutorial/brusselator/src/analysis/fft3d_calc.cpp:124-135 | step_num rises by the number of OK statuses before the loop is left |
| StepLoop.RunRetries | Tutorial/brusselator/src/analysis/fft3d_calc.cpp:124-129 | one retry is recorded per NotReady status before the loop is left |
| StepLoop.RunStopsAtFirstStop | Tutorial/brusselator/src/analysis/fft3d_calc.cpp:130-133 | statuses after the one that ends the loop have no effect |
| StepLoop.RunFromStart | Tutorial/brusselator/src/analysis/fft3d_calc.cpp:83-241 | from the initial state: step_num counts the OK statuses before the loop is left; steps are processed as 1..step_num in order; firstStep is true exactly while no step has been seen; setup runs once, right before step 1, or never; every step puts the same names; one retry per NotReady |
| StepLoop.RunWithoutStepKeepsLatch | Tutorial/brusselator/src/analysis/fft3d_calc.cpp:83-241 | a run with no OK status before the loop is left keeps firstStep set and never runs setup, so the buffers and plan freed at lines 338-340 were never assigned |
| StepLoop.ScenarioRetriesThenStep | Tutorial/brusselator/src/analysis/fft3d_calc.cpp:120-241 | three NotReady then OK: three retries, setup, step 1, latch cleared, loop still running |
| StepLoop.ScenarioEndAfterFourSteps | Tutorial/brusselator/src/analysis/fft3d_calc.cpp:120-135 | four OK then an end status: steps 1 to 4, then the loop is left whatever follows |
| StepLoop.Drive | Tutorial/brusselator/src/analysis/fft3d_calc.cpp:120-331 | the while loop with continue and break ends in the state Run gives; step_num counts the OK statuses, the loop is left if and only if an ending status occurs, steps are 1..step_num and setup ran once if and only if a step ran |

## Left out

- StepLoop.Drive: takes a finite sequence of statuses. If the sequence runs out before an ending status, it returns the state reached, where the program would go on asking.
- Staging.ProcessStep: does not model the abort when the transform buffers cannot be allocated. It takes the buffers as given arrays.
- Staging.ProcessStep: requires the four read slabs to hold at least x_dim*d1*d2 values and x_dim*d1*d2 to fit in the buffer. In the program the slabs are sized by the decomposition's counts, not by alloc_local, and a mismatch at line 181 is only logged; the program then reads past the vectors, which is undefined behaviour and is not modelled.
- Staging.ProcessStep: takes x_dim (computed once on the first step, line 200) and this step's d1, d2 (re-read every step, lines 148 and 272-274) as separate inputs. Only under the program's assumption that the shapes do not change across steps (lines 139-140) is x_dim*d1*d2 the whole-plane part of alloc_local that Geometry.SlabFits describes.
- Staging.Execute: assumes the transform plan writes only `out` and leaves `in` as it was (its `modifies` names only the output buffer). That is an assumption about the transform library, which may use its input as scratch space; if it does, the cells past the slab hold whatever the plan left there.
- Staging.StageIn: the loop counters are `int` while the bounds and index are `size_t`. The model uses unbounded naturals and does not capture overflow of `i*d1*d2`. `x_dim`, `x_off` and the products in the output definitions are likewise unbounded, and so is `step_num`, a C `int` (line 40) modelled as a `nat` in StepLoop.Loop whose overflow is not captured.
- Staging.StageOut: `u_fft_*` and `v_fft_*` are only `reserve()`d to `alloc_local` and then indexed. The model treats them as arrays of length `alloc_local`.
- Layout.ReconciledCoversField: states what a passing check implies. A failing check only prints a message in the program, so the model does not act on it.
- MPI (initialisation, communicator split, abort, finalisation) is process messaging and is not modelled. `MPI_Scan` is modelled only as the prefix-sum function `InclusiveScan` over the per-rank values. The scan and the transform run on the world communicator while `comm_size` comes from the split communicator; the model treats them as the same set of ranks.
- ADIOS2 engines (opening, `InquireVariable`, `Shape`, `SetSelection`, `Get`, `Put`, `BeginStep`/`EndStep`, `Close`) are foreign I/O. Only the status `BeginStep` returns is kept, and the variables each step puts are recorded by name.
- The read selections of lines 154-169 come from `get_starts_counts_3d_decomp`, defined in `decompose_utils.h`. That file is not part of this model, so the selections are not modelled.
- FFTW's local-size query, planning, execution and freeing are foreign floating-point numerics. `alloc_local` is an input, and the transform is an opaque length-preserving function from this rank's input buffer to its output buffer. The real transform is collective over all ranks; the model gives one rank's view and does not relate the ranks' outputs to each other.
- Geometry.XDim: requires positive d1 and d2 because line 200 divides `alloc_local` by them. A u field with an empty fast dimension makes that a `size_t` division by zero on the first OK step, which is undefined behaviour (a crash) and is not modelled. XDimBounds, XDimExact, SlabFits, Layout.XDims and Layout.LayoutOf carry the same requirement for the same reason.
- Freeing at the end (lines 338-340) is not modelled. If the stream ends before the first OK status, `in`, `out` and `plan` are freed although they were never assigned (they are only set inside the first-step block); StepLoop.RunWithoutStepKeepsLatch states that such a run leaves the latch set and never runs setup.
- The one-second sleep before a retry is time, so only the retry is recorded.
- Console and error printing is left out, as is the usage text.
