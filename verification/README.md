# Akita algebra: verified models

Akita's verifier and prover spend their time in algebraic fast paths, each of which is meant to equal a short
mathematical sum. This project models those fast paths in Dafny, in the form the sources have (in-place array
loops, workspaces and state machines as classes and methods; expressions as functions), and proves them equal
to the sums for all inputs.

What is covered, by module:

- **Offset-equality contraction** (`AffineSpec`, `AffineLow`, `AffineGeometric`, `AffineHigh`, `AffineBuckets`,
  `AffineGroup`, `AffineRows`, `AffineAligned`, `PreparedTables`, `PreparedDigits`, `AffineEval`,
  `OffsetWindow`, `Buckets`). One triple sum over an affine address lattice is evaluated through carry
  summaries (dense, unit, or by a geometric prefix scan), a direct or a carry-bucketed high contraction, a
  bit-aligned specialization, prepared row tables with a lane recurrence, and a prefix/full/suffix row cut. The
  main theorem says when the evaluator accepts its arguments and that every path then returns the triple sum.
- **Mixed-radix FFT** (`FftSpec`, `FftKernels`, `FftPlan`, `FftTransform`, `FftDomain`, `NumberTheory`,
  `Powers`, `Polynomials`, `Goldilocks`). Digit reversal, in-place stages and the radix-3/5/7 kernels compute
  the naive transform; inversion, coset evaluation and Reed-Solomon extension follow from it.
- **Equality tables and multilinear evaluation** (`EqPoly`, `Poly`). Five ways of building one table, prefix
  sums, folding, and the oracles.
- **Gruen split equality and sumcheck** (`SplitEq`, `Sumcheck`). The state machine over every run of binds,
  its relation to the folded full table, the sumcheck identities over a whole run, and claim-based recovery.
- **Certified trigonometric tables** (`Intervals`, `TrigSeries`, `Machin`, `TrigTables`). Integer enclosures of
  arctan, pi, cosine and sine over the reals, up to the error bound of every table entry.
- **Supporting cores** (`Mersenne`, `Crt`, `RowBatch`, `Sparse`, `Challenges`).

Shared foundations: `Arith` (integers, powers of two, mixed radix), `Field` (an arbitrary field, so every
result holds in every field the sources instantiate), `PrimeField` (integers modulo any prime are one),
`Sums`.

Modelling conventions. Field elements are elements of one arbitrary field `K`; weights of the affine kernels
are scalars. Machine integers are mathematical integers with their bounds written out: `usize` is 64 bits,
`i128`, `u64`, `u128` and `u32` bounds appear where the sources check or rely on them. Error values are a bare
`Err`; their texts are not modelled. A product or shift that leaves its machine type is a failure too. Ghost
parameters of class methods (the initial scalar and the challenges bound so far, the rows pushed so far) name
the history the state stands for.

Where the code does less than its documentation says, the exact condition is proved: `factorize` overflows on
the primes from (2^32 - 1)^2 on and on nothing else, and the oracle's index weight is defined for points of at
most 64 coordinates (the fuzz profile enables overflow checks, fuzz/Cargo.toml lines 88 to 91).

Two places where code and comments differ: the comment on `evals_cached` (crates/akita-algebra/src/eq_poly.rs
lines 319 to 320) says layer j covers a prefix of the point, while the loop takes coordinates from the end and
`GruenSplitEq` relies on that, so the model's layer j covers the last j coordinates. The comment on
`try_gruen_poly_from_coeffs_except_linear` says it returns `None` when l(1) = 0, while the code first returns
the zero polynomial for an empty list or a zero line; the model follows the code.

## Model

| member | source | states |
|---|---|---|
| `AffineEval.EvalAffineDigitIntervals` | crates/akita-algebra/src/offset_eq.rs:61-288 | succeeds exactly on the geometries that AcceptedMeans spells out in the arguments, and then returns the triple sum over bases, outer positions and digits of scale, outer weight, digit weight and eq, on the bit-aligned, the prepared and the general path |
| `AffineEval.AcceptedMeans` | crates/akita-algebra/src/offset_eq.rs:61-209 | which geometries succeed, in the arguments alone: scales empty or one per base, a power-of-two low length inside the point, a stride past the digit span, a window ending at most at the capacity (equality included), every last address a `usize` inside the domain, and the charged work at most 2^28, written out for the bit-aligned and for the general path |
| `AffineEval.WorkMeans` | crates/akita-algebra/src/offset_eq.rs:162-203 | the charge in closed form: rows and full rows counted from the two ends of the window by quotients |
| `AffineEval.CountedRows` | crates/akita-algebra/src/offset_eq.rs:162-192 | the cut's full rows and its row count are quotients of the window's ends, for every start, end and row length |
| `AffineEval.EvalFullWindow` | crates/akita-algebra/src/offset_eq.rs:113-127 | a window over all of its weights, ending exactly at the capacity, succeeds exactly when (digits * Q + rows * (stride + 1)) * bases, or bases * (2 * rows + digits) on the bit-aligned path, is at most 2^28, and then returns the triple sum |
| `AffineSpec.TripleSumMeans` | crates/akita-algebra/src/offset_eq.rs:26-40 | the summands of the triple sum in the documented formula: base scale or one, high[i / Q] times low[i % Q] or high[i] alone, digit weight times eq at base + outer_stride * (i - outer_start) + digit_stride * d |
| `AffineEval.CutCovers` | crates/akita-algebra/src/offset_eq.rs:162-184 | prefix, full rows and suffix follow each other, start on row boundaries where they must, and end with the window, for every start, end and row length |
| `AffineEval.SegmentExtends` | crates/akita-algebra/src/offset_eq.rs:229-286 | accumulating a segment that starts where the running total stops extends the total by exactly the segment's outer positions, for all bases |
| `AffineEval.SegmentFits` | crates/akita-algebra/src/offset_eq.rs:135-145 | no address a segment reaches passes the last address that was checked |
| `AffineEval.SegmentReady` | crates/akita-algebra/src/offset_eq.rs:193-209 | the single work check before dispatch implies every bound the three accumulations rely on |
| `AffineEval.EvalRows` | crates/akita-algebra/src/offset_eq.rs:227-287 | the prefix, full-row and suffix accumulations add up to the triple sum |
| `AffineEval.CheckAddresses` | crates/akita-algebra/src/offset_eq.rs:135-145 | accepts exactly when every base keeps its last address inside `usize` and inside the point's domain |
| `AffineEval.TryPrepared` | crates/akita-algebra/src/offset_eq/prepared_digits.rs:282-338 | taken exactly on the tests that PreparedPathMeans spells out, and then returns the triple sum |
| `AffineEval.PreparedPathMeans` | crates/akita-algebra/src/offset_eq/prepared_digits.rs:282-338 | when the prepared path is taken: adjacent digits filling the stride, a row-aligned window, rows of at most 512 entries, a point of at most 63 coordinates holding a row, and less charged work |
| `AffineEval.PreparedRowsCapped` | crates/akita-algebra/src/offset_eq/prepared_digits.rs:201-206 | the prepared accumulation's own row cap cannot fire once the general work check has passed, so the path never changes which inputs are accepted |
| `AffineEval.PreparedFits` | crates/akita-algebra/src/offset_eq/prepared_digits.rs:213-221 | every prepared base ends inside the point's domain, so with the row cap `accumulate` never rejects what the evaluator accepted |
| `AffineSpec.SegCovers` | crates/akita-algebra/src/offset_eq.rs:229-286 | any run of consecutive outer positions from a segment's first one sums to the segment's row-by-row sum |
| `AffineAligned.EvalAligned` | crates/akita-algebra/src/offset_eq.rs:307-402 | the bit-aligned specialization returns the triple sum |
| `AffineAligned.TwoClasses` | crates/akita-algebra/src/offset_eq.rs:360-372 | with a digit span shorter than the stride every digit falls in carry class 0 or 1, for every base residue |
| `AffineAligned.BaseByClass` | crates/akita-algebra/src/offset_eq.rs:292-302 | a base's whole window is two digit classes times two consecutive outer contractions |
| `AffineAligned.ClassFits` | crates/akita-algebra/src/offset_eq.rs:383-389 | a carry class that is not skipped only reaches high indices that are `usize`s |
| `AffineAligned.DigitClasses` | crates/akita-algebra/src/offset_eq.rs:358-372 | the two digit evaluations are the digit sums of the two carry classes |
| `AffineAligned.OuterEvaluation` | crates/akita-algebra/src/offset_eq.rs:381-397 | skipping zero equality values, the window's weights against consecutive eq entries |
| `AffineAligned.AddBase` | crates/akita-algebra/src/offset_eq.rs:357-400 | one base adds its scale times its window sum, also when a zero class is skipped |
| `AffineRows.AccumulateRows` | crates/akita-algebra/src/offset_eq.rs:411-608 | one segment adds, for every base, scale times the segment's sum, through one address or through sorted residue groups |
| `AffineRows.SortByResidue` | crates/akita-algebra/src/offset_eq.rs:595-595 | a permutation of the addresses, non-decreasing in the low residue |
| `AffineRows.GroupEnd` | crates/akita-algebra/src/offset_eq.rs:599-603 | the end of the run of equal residues: all before it equal, none after it |
| `AffineRows.AccumulateGroups` | crates/akita-algebra/src/offset_eq.rs:596-606 | the residue groups together add every address once |
| `AffineGroup.AccumulateGroup` | crates/akita-algebra/src/offset_eq.rs:461-572 | summaries, then the bucketed or the direct contraction: the group's addresses' segment sums either way, with no internal failure |
| `AffineGroup.AddressOrder` | crates/akita-algebra/src/offset_eq.rs:585-606 | the sum over addresses does not depend on their order |
| `AffineGroup.HighTotalIsGroup` | crates/akita-algebra/src/offset_eq.rs:528-569 | contracting carry summaries with eq of the high point gives the group's segment sums |
| `AffineGroup.CarryCountBound` | crates/akita-algebra/src/offset_eq.rs:471-494 | a group allocates at most outer stride + 1 carry summaries |
| `AffineGroup.RowFits` | crates/akita-algebra/src/offset_eq.rs:533-552 | every high index a row reaches, with its largest carry, is a `usize` |
| `AffineGroup.NextBlockFits` | crates/akita-algebra/src/offset_eq.rs:1013-1017 | the block after any block a bucketed row reaches is still a `usize`, so the checked increment in the bucket loop never fails |
| `AffineLow.CarryInside` | crates/akita-algebra/src/offset_eq.rs:471-494 | no carry index leaves the allocated carry support |
| `AffineLow.RowFactors` | crates/akita-algebra/src/offset_eq.rs:553-562 | a row of low positions and digits is the contraction of its carry summaries with eq of the high point |
| `AffineLow.EqCarry` | crates/akita-algebra/src/offset_eq.rs:685-690 | eq at an address whose low part overflows is eq of the remainder times eq of the carried high index |
| `AffineLow.BuildDense` | crates/akita-algebra/src/offset_eq.rs:673-703 | the dense loop fills summary c with exactly the low terms that carry c, with or without a table |
| `AffineLow.BuildIdentity` | crates/akita-algebra/src/offset_eq.rs:629-651 | for the unit low factor digit d lands in summary digit_stride * d |
| `AffineLow.WindowFromPrefix` | crates/akita-algebra/src/offset_eq.rs:806-813 | a geometric digit window inside one block from two prefix values and one inverse power |
| `AffineLow.WrapFromPrefix` | crates/akita-algebra/src/offset_eq.rs:814-826 | the wrapped remainder of a geometric window from one prefix value |
| `AffineGeometric.BuildGeometric` | crates/akita-algebra/src/offset_eq.rs:724-829 | applies exactly to nonzero geometric digits that fit one block over a long enough span, and then equals the dense summaries entry for entry |
| `AffineGeometric.GeometricMeans` | crates/akita-algebra/src/offset_eq.rs:749-776 | the test by the ratio of the first two digits finds a nonzero ratio exactly when some nonzero ratio makes all digits geometric |
| `AffineGeometric.GeometricBlock` | crates/akita-algebra/src/offset_eq.rs:798-826 | one low position's digits touch its carry and at most the next one, with the two prefix-scan values |
| `AffineGeometric.ScanStep` | crates/akita-algebra/src/offset_eq.rs:793-827 | one step of the scan adds one low position's digits to every summary |
| `AffineGeometric.BuildSummaries` | crates/akita-algebra/src/offset_eq.rs:611-704 | all three builders give the same carry summaries |
| `AffineHigh.Direct` | crates/akita-algebra/src/offset_eq.rs:528-569 | the row-by-carry double loop adds the contraction over addresses, rows and carries |
| `AffineHigh.DirectRow` | crates/akita-algebra/src/offset_eq.rs:553-562 | one row, with zero equality values skipped |
| `AffineBuckets.AccumulateBucketed` | crates/akita-algebra/src/offset_eq.rs:917-1058 | declines exactly when the plan does, and otherwise adds exactly what the direct double loop adds, for every row count, carry count, stride, address group and reduction tree of tasks |
| `AffineBuckets.NextLogIsLeast` | crates/akita-algebra/src/offset_eq.rs:851-853 | the window is the least power of two holding the carries |
| `AffineBuckets.BucketPlanFits` | crates/akita-algebra/src/offset_eq.rs:843-896 | a chosen window holds every carry and leaves at most 32 high bits; within the work cap the plan never fails |
| `AffineBuckets.BucketPlanMeans` | crates/akita-algebra/src/offset_eq.rs:843-896 | the plan in numbers: declined below 8 rows, above 16 window bits or 32 remaining ones or when not cheaper than rows times carries; failing exactly above 2^28 |
| `AffineBuckets.BuildBuckets` | crates/akita-algebra/src/offset_eq.rs:971-1045 | any consecutive ranges of the addresses, reduced in any bracketing, give the buckets of all addresses |
| `AffineBuckets.BucketTask` | crates/akita-algebra/src/offset_eq.rs:995-1030 | one task's private buckets hold its rows by window position |
| `AffineBuckets.MergeBuckets` | crates/akita-algebra/src/offset_eq.rs:1034-1044 | buckets of consecutive address ranges add to the buckets of the whole |
| `AffineBuckets.Phi` | crates/akita-algebra/src/offset_eq.rs:1049-1055 | the two slices of a carry are the bucket entries against the window entries it reaches, in the block and wrapped |
| `AffineBuckets.PhiIsItems` | crates/akita-algebra/src/offset_eq.rs:1048-1057 | a carry's weight is the sum over rows of weight times eq at the row's index plus the carry |
| `AffineBuckets.EqWindow` | crates/akita-algebra/src/offset_eq.rs:905-910 | a carry window straddles at most two blocks: eq at index plus carry from the window table and two block values |
| `AffineBuckets.EvalHighIsEq` | crates/akita-algebra/src/offset_eq.rs:956-962 | the split high table is eq inside the domain and zero past it |
| `PreparedTables.RowByBlock` | crates/akita-algebra/src/offset_eq/prepared_digits.rs:30-36 | a full row at any address is two table entries times eq of its block and of the next |
| `PreparedTables.RatioStep` | crates/akita-algebra/src/offset_eq/prepared_digits.rs:112-133 | the lane recurrence: front entry plus beta times the shifted lane minus beta^D times the entry behind |
| `PreparedTables.LaneByRatio` | crates/akita-algebra/src/offset_eq/prepared_digits.rs:142-153 | interleaved geometric digits against any window are one recurrence value per period position |
| `PreparedTables.FindPeriod` | crates/akita-algebra/src/offset_eq/prepared_digits.rs:104-110 | the smallest of 1, 2, 4, 8, 16 for which every interleaved lane is geometric, and None exactly when there is none |
| `PreparedTables.InterleavedMeans` | crates/akita-algebra/src/offset_eq/prepared_digits.rs:104-110 | the test with the digit at the period finds a common lane ratio exactly when there is one |
| `PreparedTables.BuildRatios` | crates/akita-algebra/src/offset_eq/prepared_digits.rs:111-133 | the array filled from the back holds the lane sum at every offset from -prefix to the block's end |
| `PreparedTables.RatioLane` | crates/akita-algebra/src/offset_eq/prepared_digits.rs:134-152 | from the recurrence, a lane's part in its block and in the next |
| `PreparedTables.DenseLane` | crates/akita-algebra/src/offset_eq/prepared_digits.rs:155-169 | digit by digit, the same two parts |
| `PreparedDigits.Prepare` | crates/akita-algebra/src/offset_eq/prepared_digits.rs:66-180 | declines exactly on rows above the bound and on points too short or too long; otherwise both tables hold one full row per residue, whichever way lanes are summed |
| `PreparedDigits.NextBlock` | crates/akita-algebra/src/offset_eq/prepared_digits.rs:257-262 | the next row lies in the same block or the next one, so one cached value moves over |
| `PreparedDigits.AccumulateBase` | crates/akita-algebra/src/offset_eq/prepared_digits.rs:193-270 | fails exactly on its own row cap, weight range and domain checks; otherwise the base's segment sum |
| `PreparedDigits.Walk` | crates/akita-algebra/src/offset_eq/prepared_digits.rs:243-270 | two cached high values, one new evaluation at most per row, give the base's segment sum |
| `PreparedDigits.AccumulateBases` | crates/akita-algebra/src/offset_eq/prepared_digits.rs:327-337 | all bases with their scales; fails exactly when one base does |
| `OffsetWindow.WithLowBits` | crates/akita-algebra/src/offset_eq.rs:1193-1218 | the tables of the point split at the chosen bit, the high one up to its cap |
| `OffsetWindow.WindowEvalIsEq` | crates/akita-algebra/src/offset_eq.rs:1231-1259 | agrees with eq at every index, inside the domain or not, with or without a high table |
| `OffsetWindow.SplitIsMinimal` | crates/akita-algebra/src/offset_eq.rs:1136-1146 | whenever both sides can fit their caps the chosen split has the smallest total table size |
| `OffsetWindow.FillBounded` | crates/akita-algebra/src/offset_eq.rs:1301-1346 | run by run, exactly the eq values of consecutive indices, and nothing outside the slice |
| `OffsetWindow.FillInterval` | crates/akita-algebra/src/offset_eq.rs:1265-1299 | fails only on index overflow; otherwise slot i is eq at start + i, for every start and length, chunked or not |
| `OffsetWindow.MaterializedLenCounts` | crates/akita-algebra/src/offset_eq.rs:1150-1163 | the charged table size is the number of entries the window holds |
| `OffsetWindow.DefaultSplit` | crates/akita-algebra/src/offset_eq.rs:1136-1163 | the default window in numbers: up to 32 coordinates split in halves and both tabled, past 32 the 16 low ones only, 2^16 entries |
| `OffsetWindow.AmortizedEq.Prepare` | crates/akita-algebra/src/offset_eq.rs:1089-1101 | tabulates exactly once the evaluations pay for the tables, and keeps the evaluator valid |
| `OffsetWindow.AmortizedEq.EvalAtIsEq` | crates/akita-algebra/src/offset_eq.rs:1104-1109 | the amortized evaluator is eq with and without its window |
| `EqPoly.EqEvalAtIndexIsEq` | crates/akita-algebra/src/offset_eq.rs:1350-1366 | the bit loop is the little-endian product, zero past the domain, also for points longer than a word |
| `EqPoly.EqAtIsMle` | crates/akita-algebra/src/eq_poly.rs:96-107 | a table entry is the multilinear equality polynomial at the index's Boolean point |
| `EqPoly.TableEntries` | crates/akita-algebra/src/eq_poly.rs:96-107 | every entry of the scaled and of the plain table is the scale times the multilinear equality polynomial at the index's bits |
| `EqPoly.SplitParentIsFactor` | crates/akita-algebra/src/eq_poly.rs:41-50 | the two children of a parent value are its products with 1 - r and r |
| `EqPoly.FillSerial` | crates/akita-algebra/src/eq_poly.rs:290-315 | the in-place descending recurrence leaves the mapped eq table in its slice and nothing else changed |
| `EqPoly.EvalsSerial` | crates/akita-algebra/src/eq_poly.rs:266-273 | the serial builder gives the scaled eq table and fails exactly on table overflow |
| `EqPoly.EvalsMappedSerial` | crates/akita-algebra/src/eq_poly.rs:133-164 | the mapped builder applies the map to every entry |
| `EqPoly.EvalsMappedSlabs` | crates/akita-algebra/src/eq_poly.rs:167-195 | slab by slab the same mapped table, for every slab width |
| `EqPoly.EvalsParallel` | crates/akita-algebra/src/eq_poly.rs:369-389 | forward doubling gives the same scaled table |
| `EqPoly.EvalsCached` | crates/akita-algebra/src/eq_poly.rs:325-361 | layer j is the scaled table of the last j coordinates; the last layer is the whole table |
| `EqPoly.SplitTables` | crates/akita-algebra/src/eq_poly.rs:423-428 | the two half tables of the split form |
| `EqPoly.SplitTablesAreEq` | crates/akita-algebra/src/eq_poly.rs:457-466 | the split product is the table entry inside the domain and an error outside |
| `EqPoly.PrefixSum` | crates/akita-algebra/src/eq_poly.rs:219-243 | the bit scan is the sum of the first len entries, for every len up to the table's size, and an error past it |
| `EqPoly.EvalsPrefix` | crates/akita-algebra/src/eq_poly.rs:202-211 | the first len entries of the table |
| `EqPoly.TotalIsOne` | crates/akita-algebra/src/eq_poly.rs:219-243 | a full table sums to one |
| `Poly.FoldEvalsInPlace` | crates/akita-algebra/src/poly.rs:85-123 | overwriting in place folds every pair, a missing last entry counting as zero |
| `Poly.FoldAllIsOpening` | crates/akita-algebra/src/poly.rs:85-123 | folding any live prefix by all coordinates leaves one entry, the weighted sum over the hypercube |
| `Poly.FoldAllIsRef` | crates/akita-algebra/src/poly.rs:62-75 | that entry is the recursive multilinear evaluation of the zero-padded table |
| `Poly.RefIsOpening` | crates/akita-algebra/src/poly.rs:62-75 | the recursive evaluation is the sum of eq weights times entries |
| `Poly.MultilinearEval` | crates/akita-algebra/src/poly.rs:18-59 | fails exactly on a length mismatch; both paths give the evaluation |
| `Poly.OracleFold` | fuzz/src/oracle.rs:10-34 | the oracle's fold is the sum of Lagrange or monomial index weights times entries |
| `Poly.IndexWeightIsWeight` | fuzz/src/oracle.rs:37-46 | defined exactly for points of at most 64 coordinates, past which the shift of the index overflows; then the basis weight of the index modulo the domain |
| `Poly.LongPointFails` | fuzz/src/oracle.rs:37-62 | a point of 65 coordinates on which both the index weight and the one-hot opening panic |
| `Poly.OneHotIsHotTable` | fuzz/src/oracle.rs:49-62 | for every input: defined exactly when no mark is evaluated past 64 coordinates or past `usize`, and then the dense opening of the table counting the marks |
| `Poly.LagrangeWeightIsEq` | fuzz/src/oracle.rs:37-46 | the Lagrange weight is eq |
| `Poly.WeightAppends` | fuzz/src/oracle.rs:37-46 | both bases from the other end: a new highest coordinate multiplies by itself where its bit is set, and where it is clear by 1 - y or, in the monomial basis, by nothing |
| `Poly.OneHotDefined` | fuzz/src/oracle.rs:49-62 | defined exactly when every mark has at most 64 coordinates and an index i * chunk + position of at most 2^64 - 1 |
| `Poly.OneHotIsDense` | fuzz/src/oracle.rs:49-62 | with positions inside their chunks, chunks inside the domain and at most 64 coordinates, the dense opening of the indicator table, in both bases |
| `Powers.FieldPow` | crates/akita-algebra/src/fft.rs:89-100 | repeated squaring is the power |
| `FftPlan.SmallestPrimeFactor` | crates/akita-algebra/src/fft.rs:118-135 | the least divisor above one, a prime; the trial square leaves `usize` exactly when n is a prime from (2^32 - 1)^2 on |
| `FftPlan.Factorize` | crates/akita-algebra/src/fft.rs:142-150 | fails exactly on the primes from (2^32 - 1)^2 on; otherwise primes in non-decreasing order whose product is n, for every n at least one |
| `FftPlan.LargePrimeFails` | crates/akita-algebra/src/fft.rs:128-133 | an input on which the trial square overflows: the prime 2^64 - 2^32 + 1 |
| `Goldilocks.GoldilocksIsPrime` | crates/akita-algebra/src/fft.rs:128-133 | that number is prime, by an element whose 2^31-th power is -1 |
| `FftPlan.DistinctPrimeFactors` | crates/akita-algebra/src/fft.rs:799-804 | fails exactly where factorization does; otherwise exactly the prime divisors of n, increasing |
| `FftPlan.IsPrimitiveNthRoot` | crates/akita-algebra/src/fft.rs:808-815 | holds exactly for elements of multiplicative order n |
| `FftPlan.RevUnrev` | crates/akita-algebra/src/fft.rs:161-178 | digit reversal is a permutation of the indices below n, with an explicit two-sided inverse |
| `FftPlan.DigitReversal` | crates/akita-algebra/src/fft.rs:161-178 | the digit and Horner loops compute the reversal |
| `FftPlan.PrecomputeStages` | crates/akita-algebra/src/fft.rs:224-260 | every stage's twiddles and roots are the powers of omega its factor needs |
| `FftKernels.Kernel3IsDft` | crates/akita-algebra/src/fft.rs:450-461 | the two-multiplication radix-3 kernel is the naive size-3 transform, given its precomputed constants |
| `FftKernels.Kernel5IsDft` | crates/akita-algebra/src/fft.rs:462-502 | the six-multiplication radix-5 kernel is the naive size-5 transform |
| `FftKernels.Kernel7IsDft` | crates/akita-algebra/src/fft.rs:503-543 | the eighteen-multiplication radix-7 kernel is the naive size-7 transform |
| `FftKernels.KernelIsDft` | crates/akita-algebra/src/fft.rs:444-556 | every kernel, specialized or fallback, is the naive transform of its lanes |
| `FftSpec.Decimation` | crates/akita-algebra/src/fft.rs:371-376 | a transform part is the twiddled small transform of its sub-parts: the Cooley-Tukey step |
| `FftTransform.ButterflyStage` | crates/akita-algebra/src/fft.rs:377-560 | one in-place stage writes every slot its kernel's output on the lanes as they were before the stage |
| `FftTransform.StageAdvances` | crates/akita-algebra/src/fft.rs:377-560 | a stage turns partial transforms of block size b into ones of size b r |
| `FftTransform.FftWorkspace.ButterflyStages` | crates/akita-algebra/src/fft.rs:377-560 | the sweep over all stages leaves the naive transform in the buffer |
| `FftTransform.FftWorkspace.Execute` | crates/akita-algebra/src/fft.rs:345-355 | the naive transform of the input, whatever the buffers held before |
| `FftTransform.FftWorkspace.ExecuteFromB` | crates/akita-algebra/src/fft.rs:360-369 | the same for the contents of the second buffer |
| `FftDomain.NewDomain` | crates/akita-algebra/src/fft.rs:597-615 | for every root of order n with n smooth, a domain whose plans fit omega and its inverse |
| `Polynomials.OrderIsNonzero` | crates/akita-algebra/src/fft.rs:597-606 | an element of order n exists only where n is invertible, so the domain's 1/n always exists |
| `FftDomain.Forward` | crates/akita-algebra/src/fft.rs:621-626 | Y[k] = sum of x[j] omega^(jk) |
| `FftDomain.ForwardInto` | crates/akita-algebra/src/fft.rs:648-653 | the same into caller buffers with any prior contents |
| `FftDomain.InverseOfDft` | crates/akita-algebra/src/fft.rs:628-642 | transforming back with the inverse root and scaling recovers every entry |
| `FftDomain.InterpolantPasses` | crates/akita-algebra/src/fft.rs:628-642 | the inverse transform's coefficients pass through the given values |
| `FftDomain.InterpolantUnique` | crates/akita-algebra/src/fft.rs:628-642 | and are the only ones of degree below n that do |
| `FftDomain.Inverse` | crates/akita-algebra/src/fft.rs:632-642 | returns the interpolating coefficients |
| `FftDomain.InverseWith` | crates/akita-algebra/src/fft.rs:659-667 | the same in a caller's workspace, whatever it holds |
| `FftDomain.RoundTrip` | crates/akita-algebra/src/fft.rs:621-642 | inverse after forward is the identity |
| `FftDomain.CosetForward` | crates/akita-algebra/src/fft.rs:681-695 | the polynomial's values on the shifted coset, for short coefficient lists too |
| `FftDomain.RsExtendBatch` | crates/akita-algebra/src/fft.rs:711-737 | coset by coset, the values at omega_n^j omega^i of the unique polynomial of degree below k through the input |
| `SplitEq.GruenSplitEq.WithInitialScalar` | crates/akita-algebra/src/split_eq.rs:94-115 | succeeds exactly on points of 1 to 125 coordinates; then the state reached by no challenges |
| `SplitEq.GruenSplitEq.Bind` | crates/akita-algebra/src/split_eq.rs:173-182 | takes the state reached by rs to the state reached by rs followed by r: scalar, round and both layer stacks |
| `SplitEq.GruenSplitEq.RemainingEqTables` | crates/akita-algebra/src/split_eq.rs:140-145 | the two table tops of the round, which no challenge influences |
| `SplitEq.GruenSplitEq.RemainingEqTablesAfter` | crates/akita-algebra/src/split_eq.rs:153-167 | the tables after any further binds, and None exactly when fewer variables follow the current one |
| `SplitEq.GruenSplitEq.BindAll` | crates/akita-algebra/src/split_eq.rs:147-182 | over any run of binds the tables foreseen before the run are the ones it ends with, whatever the challenges |
| `SplitEq.GruenSplitEq.LinearFactorEvals` | crates/akita-algebra/src/split_eq.rs:186-190 | l(0) and l(1) of scalar times eq(current tau, X) |
| `SplitEq.TablesFactorEq` | crates/akita-algebra/src/split_eq.rs:128-145 | the two tops factor eq over exactly the unbound, non-current variables |
| `SplitEq.FoldedTableIs` | crates/akita-algebra/src/split_eq.rs:169-182 | folding the full scaled table by any challenges is scalar times eq over the unbound variables |
| `SplitEq.StateIsFoldedTable` | crates/akita-algebra/src/split_eq.rs:30-46 | at every reachable state each entry of the folded full table is the linear factor at its low bit times the two split entries |
| `Sumcheck.MulLinear` | crates/akita-algebra/src/split_eq.rs:310-317 | the coefficients of the product of a line and a polynomial, at every point |
| `Sumcheck.GruenMul` | crates/akita-algebra/src/split_eq.rs:218-221 | the round polynomial l q of the reached state |
| `Sumcheck.GruenMulIsCorrect` | crates/akita-algebra/src/split_eq.rs:211-221 | multiplying coefficients of the inner polynomial gives a correct round polynomial of the reached state |
| `Sumcheck.InnerPolynomial` | crates/akita-algebra/src/split_eq.rs:211-221 | for any tables the inner polynomial has coefficients, one more than there are tables |
| `Sumcheck.CorrectRoundExists` | crates/akita-algebra/src/split_eq.rs:211-221 | so at every reachable state a correct round polynomial exists for any tables |
| `Sumcheck.RoundKeepsClaim` | crates/akita-algebra/src/split_eq.rs:218-221 | in every round s(0) + s(1) is the claim before it and s(r) the claim after binding r, for any number of tables multiplied together |
| `Sumcheck.SumcheckRun` | crates/akita-algebra/src/split_eq.rs:173-221 | over every run each round's ends sum to the previous round at its challenge, ending at the final scalar times the product of the tables' multilinear evaluations |
| `Sumcheck.InnerFromTops` | crates/akita-algebra/src/split_eq.rs:126-145 | one table's inner coefficients, computed from the two table tops of the round |
| `Sumcheck.RunSumcheck` | crates/akita-algebra/src/split_eq.rs:173-221 | a whole run for one table with tops, gruen_mul, bind and one fold a round: the first round's ends sum to c times the table's multilinear evaluation at tau, the rounds chain, and the last value is the final scalar times its evaluation at the challenges |
| `Sumcheck.InitialClaim` | crates/akita-algebra/src/split_eq.rs:173-221 | before any round the claim is the scalar times the table's multilinear evaluation at tau |
| `Sumcheck.CanRecover` | crates/akita-algebra/src/split_eq.rs:193-210 | true exactly before the last bind with l(1) nonzero |
| `Sumcheck.LinearTermUnique` | crates/akita-algebra/src/split_eq.rs:277-279 | with l(1) nonzero the recovered coefficient is the only one whose l q meets the claim |
| `Sumcheck.NotRecoverable` | crates/akita-algebra/src/split_eq.rs:223-228 | with l(1) zero every linear coefficient gives the same claim, so None is the only sound answer |
| `Sumcheck.TryRecover` | crates/akita-algebra/src/split_eq.rs:229-248 | the zero polynomial, which is then l q for every q, None, or the one l q that meets the claim, in exactly the stated cases |
| `Intervals.ImulEncloses` | crates/akita-challenges/scripts/gen_op_norm_static_base.py:52-54 | products of enclosed non-negative values are enclosed |
| `Intervals.IdivEncloses` | crates/akita-challenges/scripts/gen_op_norm_static_base.py:36-41 | outward division encloses the quotient |
| `Intervals.Tail` | crates/akita-challenges/scripts/gen_op_norm_static_base.py:65-69 | every longer partial sum of a decreasing alternating series lies within the first omitted term, on its side |
| `TrigSeries.Taylor` | crates/akita-challenges/scripts/gen_op_norm_static_base.py:72-93 | never overflows 128 bits on [0, 1]; encloses every longer partial sum of the cosine or sine series at every angle of the input interval within [0, 1], at most 169 w + 170 units wide for an input of width w |
| `TrigSeries.SeriesTerms` | crates/akita-challenges/scripts/gen_op_norm_static_base.py:72-93 | the series itself: first terms 1 and x, each next term x^2 over the next two factors, alternating signs |
| `TrigSeries.NextTermTracks` | crates/akita-challenges/scripts/gen_op_norm_static_base.py:75-80 | one loop step keeps power, factorial and partial sum enclosed for all angles at once |
| `TrigSeries.RemainderEncloses` | crates/akita-challenges/scripts/gen_op_norm_static_base.py:65-69 | widening by the rounded-up next term covers every longer series |
| `Machin.ArctanInv` | crates/akita-challenges/scripts/gen_op_norm_static_base.py:96-113 | for every x at least one, whichever exit ends the loop, the enclosure holds every partial sum of at least the counted terms |
| `Machin.ArctanSeries` | crates/akita-challenges/scripts/gen_op_norm_static_base.py:96-113 | the series itself: term n is one over (2n + 1) x^(2n + 1), alternating signs |
| `Machin.SlackCovers` | crates/akita-challenges/scripts/gen_op_norm_static_base.py:112-113 | a slack of one per truncated term plus one covers truncation and tail |
| `Machin.PiEnclosure` | crates/akita-challenges/scripts/gen_op_norm_static_base.py:116-118 | holds 16 arctan(1/5) - 4 arctan(1/239) for every pair of long enough partial sums, lies within [0, 4] and is at most 1280 units wide |
| `TrigTables.RoundingError` | crates/akita-challenges/scripts/gen_op_norm_static_base.py:140-143 | from scale 2^61 to scale 2^q: the error bounds the distance of the entry from 2^q times every enclosed value |
| `Intervals.ScaleIsPower` | crates/akita-challenges/scripts/gen_op_norm_static_base.py:25-26 | one at the fixed-point scale is 2^61 |
| `TrigTables.ApplySignEncloses` | crates/akita-challenges/scripts/gen_op_norm_static_base.py:136-137 | negation encloses the negated value |
| `TrigTables.OctantPosition` | crates/akita-challenges/scripts/gen_op_norm_static_base.py:121-133 | signs, swap and row say exactly which mirror image of the first octant the index is, and the row is always within the table |
| `TrigTables.FirstOctantIs` | crates/akita-challenges/scripts/gen_op_norm_static_base.py:121-133 | indices up to d / 4 are their own rows with plain cosine and sine series |
| `TrigTables.ComplementSwaps` | crates/akita-challenges/scripts/gen_op_norm_static_base.py:121-133 | the complement in the first quadrant has the same row with cosine and sine exchanged |
| `TrigTables.SupplementNegates` | crates/akita-challenges/scripts/gen_op_norm_static_base.py:121-133 | the supplement has the same row with cosine negated |
| `TrigTables.MirrorNegates` | crates/akita-challenges/scripts/gen_op_norm_static_base.py:121-133 | the mirror image at the full turn has the same row with sine negated |
| `TrigTables.BuildTables` | crates/akita-challenges/scripts/gen_op_norm_static_base.py:146-162 | for every ring degree and scale 2^q no step overflows; every entry of both tables is within eps_root of 2^q times its row's signed series for every enclosed angle; cos[0], cos[d], sin[0], sin[d] are 2^q, -2^q, 0, 0 within eps_root; 2 eps_root 2^(61-q) < 54419 + 3 2^(61-q) |
| `TrigTables.HalfTurns` | crates/akita-challenges/scripts/gen_op_norm_static_base.py:146-162 | every certified table pair has cosine 2^q and -2^q and sine 0 at the start and at the half turn, within eps_root |
| `TrigTables.QuarterTurn` | crates/akita-challenges/scripts/gen_op_norm_static_base.py:146-162 | and cosine 0 and sine 2^q at the quarter turn |
| `TrigTables.ProductionEps` | crates/akita-challenges/scripts/gen_op_norm_static_base.py:146-162 | at the production scale 2^48 that bound is four units |
| `TrigTables.TableAtPi` | crates/akita-challenges/scripts/gen_op_norm_static_base.py:146-162 | read at the angle r/d of any enclosed Machin partial sum and any series of more than 12 terms: entry within eps_root of 2^q times the reduced series |
| `Mersenne.Red` | specs/packed-accumulator-microbench.rs:34-43 | the canonical residue modulo 2^31 - 1 of every 64-bit word |
| `Mersenne.Parameters` | specs/packed-accumulator-microbench.rs:28-31 | the modulus is 2^31 - 1, operands come four at a time and below it, and a chunk length k is allowed exactly when k (2^31 - 2)^2 is below 2^64 |
| `Mersenne.Eager` | specs/packed-accumulator-microbench.rs:119-132 | the sum of products modulo P, with no word overflow |
| `Mersenne.ChunkedAcc` | specs/packed-accumulator-microbench.rs:61-84 | the same for every chunk length k with k (P-1)^2 below 2^64 |
| `Mersenne.Deferred` | specs/packed-accumulator-microbench.rs:87-100 | the same whenever the lane sums are 64-bit words |
| `Mersenne.WideAcc` | specs/packed-accumulator-microbench.rs:103-116 | the same in 128-bit lanes, which never overflow |
| `Mersenne.LanesAreDot` | specs/packed-accumulator-microbench.rs:119-132 | the four lanes together are the whole sum |
| `Mersenne.DotStep` | specs/packed-accumulator-microbench.rs:119-132 | the whole sum adds one product at a time from zero |
| `Crt.ProductOf` | scripts/gen_crt_capacity_profile.py:110-114 | the product of the list |
| `Crt.SafeWidthIsLargest` | scripts/gen_crt_capacity_profile.py:117-121 | 2 * width * D * floor(q / 2) * bound < product exactly when the width is at most the safe one |
| `Crt.LiftIsUnique` | scripts/gen_crt_capacity_profile.py:189-193 | up to the safe width an accumulated sum of bounded products is the only integer of its range with its residues modulo distinct primes |
| `Crt.LiftIsAmbiguous` | scripts/gen_crt_capacity_profile.py:189-193 | above the safe width two different integers of the range [-T, T], T = width * D * floor(q / 2) * bound, have the same residues: -T and -T plus the product of the primes |
| `Crt.SafeWidthIsExact` | scripts/gen_crt_capacity_profile.py:189-193 | residues modulo distinct primes determine every integer of [-T, T] exactly for the widths up to the safe one |
| `Crt.DotAppends` | scripts/gen_crt_capacity_profile.py:189-193 | the accumulated sum adds one product at a time from zero |
| `RowBatch.WeightedRowBatch.Push` | crates/akita-algebra/src/row_batch.rs:48-55 | adds the row; fewer than ROW_BATCH rows stay staged, and sum and stage together hold every pushed row |
| `RowBatch.WeightedRowBatch.Flush` | crates/akita-algebra/src/row_batch.rs:63-72 | moves the stage into the sum, which is then exact |
| `RowBatch.WeightedRowBatch.Finish` | crates/akita-algebra/src/row_batch.rs:58-61 | the exact weighted sum of every pushed row |
| `RowBatch.SumPushed` | crates/akita-algebra/src/row_batch.rs:37-72 | any sequence of pushes then finish |
| `RowBatch.DotAppends` | crates/akita-algebra/src/row_batch.rs:17-22 | a row's value adds one product at a time from zero |
| `RowBatch.WeightedSnoc` | crates/akita-algebra/src/row_batch.rs:17-22 | the weighted sum adds weight times row value, one row at a time from zero |
| `RowBatch.DotRowsBatched` | crates/akita-algebra/src/row_batch.rs:83-110 | one value per row in order with none dropped at a batch boundary; an error exactly when some row is one |
| `Sparse.ValidateDyn` | crates/akita-challenges/src/challenge.rs:89-135 | the bitmap accepts exactly equal-length, in-range, distinct, non-zero terms |
| `Sparse.WithBitSets` | crates/akita-challenges/src/challenge.rs:121-132 | marking a position changes that bit of the word and no other |
| `Sparse.EvalAtPows` | crates/akita-challenges/src/challenge.rs:149-203 | fails exactly on mismatched, out-of-range or zero terms; otherwise the sparse evaluation, on the signed and on the general path |
| `Sparse.EvaluationIsPoly` | crates/akita-challenges/src/challenge.rs:149-203 | at the powers of a, a well-formed challenge evaluates to the dense polynomial with its coefficients at the (strided) positions and zero elsewhere, at a |
| `Sparse.EvaluationAppends` | crates/akita-challenges/src/challenge.rs:180-194 | for any terms: none evaluate to zero, one more adds coefficient times power |
| `Sparse.FromIntCounts` | crates/akita-challenges/src/challenge.rs:180-194 | coefficients enter the field as integers: zero is zero and adding one adds one, for both signs |
| `Challenges.Embed` | crates/akita-challenges/src/challenges.rs:312-421 | unchanged, with a longer stride, or challenge by challenge; a batch not sampled in the sub-ring succeeds only if every challenge is valid there, and then every result is valid in the ambient ring with the same coefficients at s times the positions |
| `Challenges.EmbeddableMeans` | crates/akita-challenges/src/challenges.rs:312-421 | when an embedding succeeds, for every batch: consistent non-zero dimensions within `usize`, valid challenges unless sampled here, and then no stride, a stride product within `usize`, or every scaled position inside the ambient ring and 32 bits with a matching layout |
| `Challenges.StepEmbeds` | crates/akita-challenges/src/challenges.rs:312-421 | from its own dimension a sampled batch embeds by s exactly when the dimension fits `usize` and every scaled position fits 32 bits |
| `Challenges.EmbedScales` | crates/akita-challenges/src/challenges.rs:312-421 | on all three paths what a sampled batch materializes is scaled by the stride |
| `Challenges.EmbedKeepsSampled` | crates/akita-challenges/src/challenges.rs:337-421 | on all three paths an embedding from the family's dimension keeps the batch sampled |
| `Challenges.EmbedChain` | crates/akita-challenges/src/challenges.rs:312-421 | any chain of embeddings goes through exactly when the single one by the product does; the result is sampled, scaled by the product, and every challenge passes the validator |
| `Challenges.ChainIsOneEmbed` | crates/akita-challenges/src/challenges.rs:312-421 | the chain and the single embedding succeed together and materialize the same challenges |
| `Challenges.MaterializedValid` | crates/akita-challenges/src/challenges.rs:99-123 | narrowing to 32 bits never changes a sampled batch's positions, and each materialized challenge is valid |
| `Challenges.AsSliceMeans` | crates/akita-challenges/src/challenges.rs:99-123 | materialized positions are the stored ones times the stride modulo 2^32, with the stored coefficients |
| `Challenges.EvalsAtPows` | crates/akita-challenges/src/challenges.rs:179-269 | lazy strided evaluation of a sampled batch is the evaluation of what it materializes; other batches succeed exactly when every challenge evaluates |
| `Challenges.BatchIsPoly` | crates/akita-challenges/src/challenges.rs:179-269 | at the powers of a, challenge i of a sampled batch is the dense polynomial with its stored coefficients at stride times the stored positions |
| `Challenges.SelectClaims` | crates/akita-challenges/src/challenges.rs:276-301 | whole claims in the requested order, failing exactly on an index past the batch or on overflow |

## Left out

- Allocation budgets, `try_reserve` failures and error texts: only which inputs are accepted for arithmetic reasons is modelled.
- Rayon scheduling and thresholds: the consecutive tasks of the bucketed contraction are modelled in any bracketing, the slab expansion for any slab width.
- Weights other than scalars (`AffineWeight` over extension or ring elements, crates/akita-algebra/src/offset_eq/weights.rs) and the base-versus-extension distinction of the batched kernels: one field stands for both.
- The tensor-pair evaluator of the offset-equality module is not part of this model.
- `sort_unstable_by_key` and `partition_point` are library calls; the model sorts by insertion and scans for the group's end, with the contracts those calls promise.
- Builds without overflow checks, where an overflowing product or shift wraps instead of stopping the program.
- `primitive_nth_root`, `find_primitive_nth_root` and the table of fixed roots: searches and constants of concrete fields.
- `try_gruen_poly_deg_3` is the recovery with two known coefficients followed by trimming; trimming is not modelled.
- `materialized` in `Challenges` is a write-once memo of `as_slice`; the model has the memoized value only. The shared-storage shortcut of `eq` is left out for the same reason.
- The callers that multiply several tables into one inner polynomial: the sumcheck results hold for any coefficients of that polynomial, and are computed here for one table.
- The limits of the series: table entries are related to partial sums of the cosine and sine series of the first octant and to their mirror images, not to the real functions.
- Work and table-size thresholds that only choose between equal results (parallel slabs, fill chunks) are kept as constants or arbitrary parameters.
- The NTT and ring modules, the sampler, the transcript, the configuration crates, the benchmarks, the fuzz entry points and the reporting scripts.
