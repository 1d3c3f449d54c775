# tlapack core in Dafny

This project models a slice of <T>LAPACK, the C++ template linear algebra
library:

- **`her2k`**: the Hermitian rank-2k update
  `C := alpha A B^H + conj(alpha) B A^H + beta C`, or its `ConjTrans` form.
  The model covers argument validation and the rewrite of a row-major call
  into a column-major one. It also covers the alpha = 0 branches, the
  NoTrans and ConjTrans triangle updates, and the mirroring of the strict
  lower triangle for `Uplo::General`.
- **Three blocked LAPACK drivers:**
  - `gelqf` (LQ factorization);
  - `gerqf` (RQ factorization);
  - `gehrd` (reduction to upper Hessenberg form).
  For each driver the model covers its argument checks, its block-size
  arithmetic (with `size_t` wrap-around where the code relies on it), its
  panel schedule and the slices of A, tau and the workspace matrices that
  each step touches.
- **`FrancisOpts`**: the shift and deflation-window recommenders of the
  multishift QR options, with their default field values.
- **The test suite's helpers:**
  - the 64-bit linear congruential random number generator, with the
    reference sequence the tests expect;
  - the matrix fills of `MatrixMarket`: dense random, triangular random
    with a sentinel, Hessenberg random with a sentinel, Hilbert and
    constant.

Scalars are exact: `Complex(re, im)` over Dafny's `real`. Matrices are
column-major buffers (`seq<Complex>` / `array<Complex>` with a leading
dimension) for `her2k`, and `array2<Complex>` for the drivers and fills.
Kernels whose source is not part of this model are methods that may write
their slice arbitrarily and promise that nothing else changes:
`gelq2`, `gerq2`, `larft`, `larfb`, `lahr2`, `gemm`, `trmm`, `gehd2`.
`axpy` has an exact contract.
The drivers are proved against their schedule, a pure function:
- the panels or blocks visited;
- the slices each kernel call receives;
- where the scalar factors and the finished rows or columns end up;
- which entries are never touched.

Modules: `Scalars`, `Optional`, `ColumnMajor`, `Her2kSpec`, `Her2k`,
`Her2kProperties`, `Blocking`, `Slices`, `Gelqf`, `Gerqf`, `Gehrd`, `RandGen`,
`MatrixMarket`, `FrancisOpts`.

`her2k` follows the code where its documentation says otherwise:
- With alpha = 0, `uplo != Upper` clears or scales the triangle `i <= j`
  (the upper one, diagonal included). `Upper` treats `i >= j`, so the two
  triangles are swapped relative to the names.
- The third branch (intended for `General`) is unreachable, so `General`
  with alpha = 0 also treats only `i <= j`.
- With alpha = 0 and beta = 1 nothing is written: the diagonal is not made
  real.
- The `General` mirroring after the update does not happen when alpha = 0,
  because that branch returns first.
- `Op::Trans` is rejected.

## Model

| member | source | states |
|---|---|---|
| Her2kSpec.Normalize | include/blas/her2k.hpp:112-158 | the call is accepted exactly when layout, uplo and trans are valid and lda, ldb, ldc reach their extents; an accepted row-major call has uplo swapped Lower/Upper, NoTrans/ConjTrans swapped and alpha conjugated, and only NoTrans or ConjTrans survive |
| Her2kSpec.NormalizedFits | include/blas/her2k.hpp:136-158 | buffers that fit the call as given fit its column-major form: C holds ldc * n entries, and when n > 0 and alpha != 0 (the only case that reads them) A and B cover the shape the computation indexes |
| Her2kSpec.ZeroAlphaResult | include/blas/her2k.hpp:164-211 | the alpha = 0 phase keeps the length of C and touches no position outside the n-by-n block |
| Her2kSpec.TriangleResult | include/blas/her2k.hpp:213-298 | the update phase keeps the length of C and touches nothing outside the n-by-n block |
| Her2kSpec.MirrorResult | include/blas/her2k.hpp:300-305 | the General mirroring keeps the length of C and touches nothing outside the block |
| Her2kSpec.Apply | include/blas/her2k.hpp:160-305 | the whole computation after validation writes only inside the n-by-n block of C |
| Her2k.Her2k | include/blas/her2k.hpp:89-310 | returns false and leaves C alone on invalid arguments; otherwise C ends as the specification result of the normalised call; A and B need to cover their matrices only when n > 0 and alpha != 0, since they are not read otherwise |
| Her2k.CheckArguments | include/blas/her2k.hpp:112-158 | the checks and the row-major rewrite compute exactly Normalize |
| Her2k.Run | include/blas/her2k.hpp:160-305 | the three phases (quick return, alpha = 0, triangle update then mirroring) leave C equal to Apply of the old C |
| Her2k.ZeroAlpha | include/blas/her2k.hpp:164-211 | the alpha = 0 loops leave C equal to ZeroAlphaResult |
| Her2k.ZeroAlphaColumn | include/blas/her2k.hpp:165-209 | column j of the block gets the alpha = 0 entry value, every other position is unchanged |
| Her2k.ZeroRange | include/blas/her2k.hpp:169-170 | positions [lo, hi) become zero and nothing else changes |
| Her2k.ScaleRange | include/blas/her2k.hpp:188-189 | positions [lo, hi) are multiplied by beta and nothing else changes |
| Her2k.Triangle | include/blas/her2k.hpp:213-298 | the alpha != 0 loops leave C equal to TriangleResult |
| Her2k.NoTransColumn | include/blas/her2k.hpp:214-256 | in column j, every entry of the selected triangle becomes its updated value and the rest is unchanged |
| Her2k.NoTransUpdate | include/blas/her2k.hpp:217-253 | one NoTrans column: entries in the triangle become NoTransEntry of their old value, nothing else changes |
| Her2k.BetaScaleColumn | include/blas/her2k.hpp:219-221 | the off-diagonal range is scaled by beta, the diagonal becomes beta * real(C(j,j)), nothing else changes |
| Her2k.AccumulateNoTrans | include/blas/her2k.hpp:223-233 | after the l loop each off-diagonal entry holds its start plus the k accumulated rank-2 terms and the diagonal the accumulated real terms |
| Her2k.NoTransStep | include/blas/her2k.hpp:225-232 | one l step adds A(i,l) alpha conj(B(j,l)) + B(i,l) conj(alpha A(j,l)) off the diagonal and 2 real(A(j,l) alpha conj(B(j,l))) on it |
| Her2k.AddTerms | include/blas/her2k.hpp:228-231 | the inner i loop adds the two products to every position of the range and nothing else |
| Her2k.ConjTransColumn | include/blas/her2k.hpp:257-298 | in column j every entry of the selected triangle becomes its ConjTrans value, the rest is unchanged |
| Her2k.ConjTransCell | include/blas/her2k.hpp:261-274 | one target entry becomes alpha sum1 + conj(alpha) sum2 + beta C off the diagonal, or its real counterpart on it |
| Her2k.ConjDots | include/blas/her2k.hpp:263-268 | the l loop computes sum1 = sum conj(A(l,i)) B(l,j) and sum2 = sum conj(B(l,i)) A(l,j) |
| Her2k.Mirror | include/blas/her2k.hpp:300-305 | the mirroring loops leave C equal to MirrorResult |
| Her2k.MirrorColumn | include/blas/her2k.hpp:301-304 | below the diagonal of column j each entry becomes the conjugate of its transpose; nothing else changes |
| Her2kProperties.ProductSumConj | include/blas/her2k.hpp:15-25 | swapping the operands of the product sum and its indices conjugates it |
| Her2kProperties.Rank2kHermitian | include/blas/her2k.hpp:15-25 | the rank-2k term alpha A B^H + conj(alpha) B A^H is Hermitian: entry (j,i) is the conjugate of entry (i,j) |
| Her2kProperties.Rank2kDiagonal | include/blas/her2k.hpp:15-25 | the diagonal of the rank-2k term is real, 2 re(alpha (A B^H)(j,j)) |
| Her2kProperties.ConjTransSum | include/blas/her2k.hpp:263-268 | the ConjTrans dot product loop computes the (i,j) entry of A^H B |
| Her2kProperties.NoTransAccIsRank2k | include/blas/her2k.hpp:223-231 | the column-oriented NoTrans accumulation equals the start value plus the (i,j) entry of the rank-2k term |
| Her2kProperties.NoTransDiagAccIsRank2k | include/blas/her2k.hpp:232 | the real diagonal accumulation equals the start plus the real diagonal of the rank-2k term |
| Her2kProperties.UpdatedEntryIsReference | include/blas/her2k.hpp:213-298 | every updated entry, NoTrans or ConjTrans, equals the documented formula alpha op(A) op(B)^H + conj(alpha) op(B) op(A)^H + beta C, real on the diagonal |
| Her2kProperties.InvalidArgumentsRaise | include/blas/her2k.hpp:112-158 | the call fails exactly when the arguments are invalid |
| Her2kProperties.RowMajorIsSwappedColMajor | include/blas/her2k.hpp:136-150 | a row-major call has the same result as the column-major call with uplo and trans swapped and alpha conjugated |
| Her2kProperties.EmptyLeavesC | include/blas/her2k.hpp:161-162 | with n = 0 a valid call leaves C as it was |
| Her2kProperties.OutsideBlockUnchanged | include/blas/her2k.hpp:103-105 | no position of C outside the n-by-n block changes |
| Her2kProperties.ZeroAlphaEntries | include/blas/her2k.hpp:164-211 | with alpha = 0 the visited triangle (i <= j unless uplo is Upper) becomes zero for beta = 0, beta C (real diagonal) for other beta != 1, and is unchanged for beta = 1; the other triangle is unchanged |
| Her2kProperties.ZeroAlphaUnitBeta | include/blas/her2k.hpp:185 | alpha = 0 and beta = 1 leave C unchanged, diagonal included |
| Her2kProperties.TriangleEntries | include/blas/her2k.hpp:213-298 | with alpha != 0 every entry of the selected triangle equals the reference formula on its old value |
| Her2kProperties.DiagonalReal | include/blas/her2k.hpp:221-298 | with alpha != 0 every diagonal entry of C is real afterwards |
| Her2kProperties.OtherTriangleUnchanged | include/blas/her2k.hpp:213-298 | for Lower or Upper, entries outside the selected triangle keep their values |
| Her2kProperties.GeneralIsHermitian | include/blas/her2k.hpp:300-305 | with General and alpha != 0 the result is Hermitian: C(i,j) = conj(C(j,i)) for i > j |
| Her2kProperties.ReferenceEntryConj | include/blas/her2k.hpp:15-25 | the reference formula commutes with conjugation under transposition off the diagonal |
| Her2kProperties.GeneralIsFullUpdate | include/blas/her2k.hpp:300-305 | for a Hermitian C, General with alpha != 0 gives the reference formula at every entry of the block, lower triangle included |
| Her2kProperties.Her2kExample | include/blas/her2k.hpp:15-25 | for n = 2, k = 1, A = [1, i], B = [1, 1], alpha = 1, beta = 0, Upper, C becomes [[2, 1 - i], [C(1,0), 0]] |
| Blocking.BlocksShape | include/lapack/gelqf.hpp:84-87 | the loop j = from, from + nb, ... below k visits blocks starting at from + t nb of width min(nb, k - j), each between 1 and nb and inside [from, k); none exactly when from >= k; the last ends at k |
| Blocking.BlocksDisjoint | include/lapack/gelqf.hpp:84-87 | the blocks come in increasing order and do not overlap |
| Blocking.BlocksCover | include/lapack/gelqf.hpp:84-87 | every index in [from, k) lies in some block |
| Blocking.BlocksPartition | include/lapack/gelqf.hpp:84-87 | every index below k lies in exactly one block |
| Blocking.OffsetInBlock | include/lapack/gelqf.hpp:90-92 | the q-th entry of block t has remainder q modulo nb, the column of the diagonal of TT1 that holds it |
| Gelqf.ErrorCode | include/lapack/gelqf.hpp:80-82 | 0 exactly when A is writable, TT has at least m rows and nb columns and work at least m entries; -1 exactly when A is not writable; -2 exactly when A is writable and TT is short; -3 exactly when A is writable, TT is large enough and work is short |
| Gelqf.UpdateSkipsOnlyLastPanel | include/lapack/gelqf.hpp:96 | with the test j + ib < k, every panel but the last updates the rows below it and the last never does |
| Gelqf.LastPanelMissesLowerRows | include/lapack/gelqf.hpp:91-111 | when 0 < k < m, row k is neither in the last panel nor reached by its trailing update |
| Gelqf.CorrectedPanelsReachAllRows | include/lapack/gelqf.hpp:96-110 | with the test j + ib < m, every panel's reflectors reach every row from its first row to the last row of A |
| Gelqf.Gelq2 | include/lapack/gelqf.hpp:91-94 | writes only A11 = A(j..j+ib, j..n), the diagonal of TT1 and the workspace |
| Gelqf.Larft | include/lapack/gelqf.hpp:99 | writes only the strict upper triangle of TT1, keeping its diagonal of scalar factors |
| Gelqf.Larfb | include/lapack/gelqf.hpp:102-110 | writes only A12 = A(j+ib..m, j..n) and work1 = TT(j+ib..m, 0..ib) |
| Gelqf.Panel | include/lapack/gelqf.hpp:86-111 | one iteration leaves rows and columns before j of A unchanged, leaves the rows below the panel unchanged when no update runs, and writes TT only in rows j.. of columns 0..ib; it reports the diagonal of TT1 as the panel's factors |
| Gelqf.Step | include/lapack/gelqf.hpp:84-111 | one iteration appends min(nb, k - j) factors and rows to the recorded ones, which it keeps unchanged both in the record and in TT and A: later panels never touch finished rows or stored factors |
| Gelqf.Factor | include/lapack/gelqf.hpp:84-112 | records the panels visited, Blocks(k, nb, 0), and k factors and rows that sit at TT(r, r mod nb) and in the first k rows of A; TT outside rows 0..m and columns 0..nb is untouched |
| Gelqf.Gelqf | include/lapack/gelqf.hpp:69-115 | returns the error code of the checks and changes nothing when it is not 0; otherwise runs Factor, with its record and its frame on TT |
| Gerqf.PanelsPartitionRows | include/tlapack/lapack/gerqf.hpp:143-151 | the panels visited bottom-up partition the rows [m - k, m), and with m = k the slices of tau |
| Gerqf.PanelsShape | include/tlapack/lapack/gerqf.hpp:143-151 | each panel is 1 to nb rows high, lies within [m - k, m), starts at t nb from the bottom and spans n - t nb columns |
| Gerqf.UpdateIffRowsAbove | include/tlapack/lapack/gerqf.hpp:153 | the block reflector is formed and applied exactly when rows remain above the panel: always when m > n, otherwise for every panel but the last |
| Gerqf.Gerq2 | include/tlapack/lapack/gerqf.hpp:147-151 | writes only A11 = A(m-j2-ib..m-j2, 0..n-j2) and the ib entries of tau for the panel |
| Gerqf.Larft | include/tlapack/lapack/gerqf.hpp:155-156 | writes only the leading ib-by-ib block of TT |
| Gerqf.Larfb | include/tlapack/lapack/gerqf.hpp:158-161 | writes only A12 = A(0..m-j2-ib, 0..n-j2) |
| Gerqf.Panel | include/tlapack/lapack/gerqf.hpp:144-162 | one loop body changes A only in A(0..m-j2, 0..n-j2): rows below the panel and columns from n - j2 on are kept, and so is tau outside the panel's slice |
| Gerqf.Step | include/tlapack/lapack/gerqf.hpp:143-163 | one iteration prepends the panel's ib factors and rows to the recorded ones, which it keeps unchanged both in the record and in tau and A, and keeps tau beyond k unchanged |
| Gerqf.Factor | include/tlapack/lapack/gerqf.hpp:143-163 | records the panels visited, Blocks(k, nb, 0), and k factors and rows that sit in tau[0..k) and the last k rows of A; tau beyond k is untouched |
| Gerqf.Gerqf | include/tlapack/lapack/gerqf.hpp:111-166 | succeeds exactly when tau has at least k entries and changes nothing otherwise; on success runs Factor, with its record and its frame on tau |
| Gehrd.SizeSub | include/tlapack/lapack/gehrd.hpp:135 | size_t subtraction: the plain difference when no wrap occurs, 2^64 minus the deficit otherwise |
| Gehrd.BlockSizeCases | include/tlapack/lapack/gehrd.hpp:135-138 | nb = min(opts.nb, ihi - ilo - 1) when ilo < ihi and opts.nb when ihi <= ilo (the subtraction wraps); nx = max(nb, nx_switch) is at least both |
| Gehrd.WorksizeHoldsYAndT | include/tlapack/lapack/gehrd.hpp:56-70 | the workspace query asks for exactly the bytes of the n-by-nb matrix Y and the nb-by-nb matrix T, with the driver's nb |
| Gehrd.LoopTestsAgree | include/tlapack/lapack/gehrd.hpp:169 | for ihi >= 1 the size_t test i + nx < ihi - 1 is the integer test i + nx + 1 < ihi |
| Gehrd.ZeroIhiEntersLoop | include/tlapack/lapack/gehrd.hpp:141-169 | ilo = ihi = 0 with n = 1 passes the checks and the wrapped test enters the loop with ilo + 1 > ihi |
| Gehrd.IntendedTestKeepsRangesOrdered | include/tlapack/lapack/gehrd.hpp:169-170 | under the integer test every iteration has i + 1 < ihi and 1 <= nb2 |
| Gehrd.HessBlocksShape | include/tlapack/lapack/gehrd.hpp:168-178 | since nx >= nb every block is exactly nb wide, starts at ilo + t nb and leaves a row below it (the gemm branch always runs); the unblocked start is the first column failing the test |
| Gehrd.Lahr2 | include/tlapack/lapack/gehrd.hpp:171-177 | writes only A2 = A(0..ihi, i..ihi), tau[i..i+nb2), T_s and the first nb2 columns of Y |
| Gehrd.Gemm | include/tlapack/lapack/gehrd.hpp:181-189 | writes only A3 = A(0..ihi, i+nb2..ihi) |
| Gehrd.ApplyRight | include/tlapack/lapack/gehrd.hpp:178-191 | saves A(i+nb2, i+nb2-1), sets it to one for gemm and restores it; nothing outside A3 and that entry changes |
| Gehrd.Trmm | include/tlapack/lapack/gehrd.hpp:193-194 | writes only the first nb2 columns of Y |
| Gehrd.Axpy | include/tlapack/lapack/gehrd.hpp:195-198 | column dst of the first rows of A gets minus column src of Y added, nothing else changes |
| Gehrd.UpdateTopRows | include/tlapack/lapack/gehrd.hpp:195-198 | for each j < nb2 - 1, A(0..i+1, i+j+1) gets minus Y(0..i+1, j) added; nothing else changes |
| Gehrd.Larfb | include/tlapack/lapack/gehrd.hpp:200-203 | writes only A5 = A(i+1..ihi, i+nb2..n) |
| Gehrd.Gehd2 | include/tlapack/lapack/gehrd.hpp:206 | writes only A(0..ihi, i..n) and tau[i..ihi-1) |
| Gehrd.TauSliceOverrunsVector | include/tlapack/lapack/gehrd.hpp:144-177 | n = 3, ilo = 0, ihi = 3 and a tau of 2 entries pass the checks, yet the loop is entered with the slice tau(i..ihi) reaching past the vector |
| Gehrd.BlockTauSlotsFit | include/tlapack/lapack/gehrd.hpp:144-177 | the nb2 factors a block stores, tau[i..i+nb2), fit in the n - 1 entries the check guarantees |
| Gehrd.ReduceBlock | include/tlapack/lapack/gehrd.hpp:170-203 | one block writes A only in columns i.. of rows 0..ihi, and tau only in [i, i + nb2) |
| Gehrd.Advance | include/tlapack/lapack/gehrd.hpp:169-204 | one iteration appends nb factors and columns to the recorded ones, which it keeps unchanged both in the record and in tau and A, and keeps what lies outside the active part |
| Gehrd.Reduce | include/tlapack/lapack/gehrd.hpp:168-206 | records the blocks visited, HessBlocks, and the unblocked start handed to gehd2, with the factors in tau[ilo..start) and the columns ilo..start; columns before ilo, rows from ihi, and tau before ilo and from ihi - 1 on, are untouched |
| Gehrd.Gehrd | include/tlapack/lapack/gehrd.hpp:113-209 | succeeds exactly when the checks pass and changes nothing otherwise; on success runs Reduce with nb and nx from the options, with its record and its frames, so tau outside [ilo, ihi - 1) keeps its values |
| RandGen.Next | test/include/MatrixMarket.hpp:46-49 | one step of state * 6364136223846793005 + 1442695040888963407 on uint64 stays below 2^64 |
| RandGen.DrawInRange | test/include/MatrixMarket.hpp:41-50 | every returned value lies in [min(), max()] = [0, 2^32 - 1] |
| RandGen.RandGenerator.constructor | test/include/MatrixMarket.hpp:38 | the initial state is 1302 |
| RandGen.RandGenerator.Seed | test/include/MatrixMarket.hpp:43 | seed sets the state |
| RandGen.RandGenerator.Call | test/include/MatrixMarket.hpp:46-50 | a call advances the state once and returns its upper 32 bits, a value in [min(), max()] |
| RandGen.SeedStates | test/src/test_utils.cpp:18-30 | from seed 6845315 the states after 1 to 7 calls are the given 64-bit values |
| RandGen.SeededSequence | test/src/test_utils.cpp:18-30 | seeded with 6845315, the first seven calls return 1225581775, 1985311242, 300629471, 2636314308, 1603395911, 393807335, 3641191292 |
| MatrixMarket.TriangleFill | test/include/MatrixMarket.hpp:160-175 | the upper triangle is filled for Upper and the lower one for every other uplo |
| MatrixMarket.DenseColumnDraws | test/include/MatrixMarket.hpp:129-141 | a dense fill draws for all i rows of a column: per i draws |
| MatrixMarket.UpperColumnDraws | test/include/MatrixMarket.hpp:160-167 | the upper triangle draws for rows 0..j of column j only: per min(i, j + 1) draws for the first i rows |
| MatrixMarket.LowerColumnDraws | test/include/MatrixMarket.hpp:168-175 | the lower triangle draws for rows j.. of column j only: per max(0, i - j) draws for the first i rows |
| MatrixMarket.HessenbergColumnDraws | test/include/MatrixMarket.hpp:185-200 | a Hessenberg fill draws for rows 0..j+1 of column j only: per min(i, j + 2) draws for the first i rows |
| MatrixMarket.DenseDrawOrder | test/include/MatrixMarket.hpp:129-141 | in a dense fill entry (i, j) starts at draw per (i + j m), its column-major position |
| MatrixMarket.DenseColumnsBefore | test/include/MatrixMarket.hpp:129-141 | the first j columns of a dense fill take per j m draws |
| MatrixMarket.UpperTriangleDraws | test/include/MatrixMarket.hpp:160-167 | the upper triangle of an n-by-n matrix takes per n(n+1)/2 draws |
| MatrixMarket.LowerTriangleDraws | test/include/MatrixMarket.hpp:168-175 | the lower triangle of an n-by-n matrix takes per n(n+1)/2 draws as well |
| MatrixMarket.HilbertProperties | test/include/MatrixMarket.hpp:213-225 | Hilbert entries are symmetric, lie in (0, 1] and equal 1 only at (0, 0) |
| MatrixMarket.DrawAfter | test/include/MatrixMarket.hpp:46-50 | a call made after t calls returns draw t |
| MatrixMarket.Generator.constructor | test/include/MatrixMarket.hpp:247 | a fresh generator starts from the default seed |
| MatrixMarket.Generator.FillRandom | test/include/MatrixMarket.hpp:129-200 | column-major double loop: each entry gets its random value from the draws before it, or the sentinel; the generator advances by exactly the draws used |
| MatrixMarket.Generator.FillColumn | test/include/MatrixMarket.hpp:138-140 | the inner loop finishes column j and advances the generator past the column's draws, earlier columns keeping their values |
| MatrixMarket.Generator.FillEntry | test/include/MatrixMarket.hpp:135-138 | one iteration finishes entry (i, j) and advances past its draws |
| MatrixMarket.Generator.DrawValue | test/include/MatrixMarket.hpp:57-94 | one random entry takes one draw for a real type and two for a complex one, real part first |
| MatrixMarket.Generator.Random | test/include/MatrixMarket.hpp:129-141 | every entry (i, j) is the random value starting at draw per (i + j m); the generator advances per m n times |
| MatrixMarket.Generator.RandomTriangle | test/include/MatrixMarket.hpp:151-176 | random values in the chosen triangle, float(0xCAFEBABE) in the other one |
| MatrixMarket.Generator.Hessenberg | test/include/MatrixMarket.hpp:185-200 | random values where i <= j + 1, float(0xFA57C0DE) below the first subdiagonal |
| MatrixMarket.Generator.Hilbert | test/include/MatrixMarket.hpp:213-225 | A(i, j) = 1 / (i + j + 1) everywhere |
| MatrixMarket.Generator.SingleValue | test/include/MatrixMarket.hpp:233-244 | every entry becomes the given value |
| FrancisOpts.Default | include/tlapack/lapack/FrancisOpts.hpp:21-58 | the defaults: n_aed = n_sweep = n_shifts_total = 0, nmin = 75, nibble = 14, and the two recommender lambdas |
| FrancisOpts.NShiftBands | include/tlapack/lapack/FrancisOpts.hpp:24-33 | 2 shifts below 30, 4 below 60, 10 below 150, 64 from 590 below 3000, 128 below 6000, 256 from 6000 on |
| FrancisOpts.WindowMatchesShifts | include/tlapack/lapack/FrancisOpts.hpp:37-46 | the deflation window equals the shift count below 590 and is one and a half times it from 590 on (96, 192, 384) |
| FrancisOpts.IgnoresActiveSize | include/tlapack/lapack/FrancisOpts.hpp:25-38 | neither recommender depends on nh |
| FrancisOpts.WindowCoversShifts | include/tlapack/lapack/FrancisOpts.hpp:24-46 | the deflation window is never smaller than the shift count |
| FrancisOpts.RecommendersMonotone | include/tlapack/lapack/FrancisOpts.hpp:24-46 | both recommenders are at least 2 and nondecreasing in n when the log2 band is nondecreasing and within [10, 64] |

## Left out

- Floating point. Scalars are exact reals, so rounding, NaN and the
  `float` conversions of the fills are not modelled. The two sentinels are
  written as the exact single-precision values of 0xCAFEBABE and
  0xFA57C0DE.
- The kernels `gelq2`, `gerq2`, `larft`, `larfb`, `lahr2`, `gemm`, `trmm`,
  `gehd2` and `laset` are not part of this model. Each is a method that may
  write anything in the slice it is given and nothing outside it.
  - Gelqf.Larft is assumed to keep the diagonal of TT1, where `gelq2` left
    the scalar factors.
  - Gehrd.Lahr2 is assumed to write, besides A2, T_s and the first nb2
    columns of Y, only the nb2 leading factors tau[i..i+nb2) of the slice
    tau(i..ihi) it is handed. This narrower frame is what keeps the model
    clear of the overrun in the third Findings row.
  - Gehrd.Gehd2 is given the frame its call site implies:
    A(0..ihi, i..n) and tau[i..ihi-1).
  - What the kernels compute (the factorizations themselves, orthogonality
    of Q, the Hessenberg shape) is out of scope.
- Gelqf.Panel, Gelqf.Factor, Gelqf.Gelqf, Gerqf.Factor, Gerqf.Gerqf,
  Gehrd.Reduce and Gehrd.Gehrd: the factors, rows, columns and schedule
  they return are ghost records read from the arrays as the loop goes, so
  on their own they constrain only the frames. Because the kernels are
  unmodelled, the values cannot be pinned down. What the record does carry
  is in Gelqf.Step, Gerqf.Step and Gehrd.Advance: each iteration keeps
  every earlier entry of the record, and every recorded value in place.
- Workspace plumbing: `alloc_workspace`, `new_matrix`, `WorkspaceOpts` and
  the local work buffers. `gerqf` allocates its nb-by-nb TT fresh. In
  `gehrd`, Gehrd.Reduce allocates Y as an n-by-nb array and T as an
  nb-by-nb array itself.
- `gerqf_worksize`: it combines the worksize queries of `gerq2` and
  `larfb`, which are not part of this model.
- Gehrd.WorksizeHoldsYAndT reads `WorkInfo(m, n)` as an m-by-n block of
  bytes.
- Gelqf.ErrorCode models `access_denied(dense, write_policy(A))` as a
  boolean parameter.
- The conversion of a random draw to a scalar (`rand_helper`'s division by
  `max()`) is the parameter `scale`. `colmajor_read` reads a file and is not
  modelled.
- The `n / log2(n)` band of both recommenders (150 <= n < 590) is the
  parameter `band`.
- The commented-out `Op::Trans` handling of `her2k`. `Op::Trans` is
  rejected, as the code does.
- Index widths: `her2k`, `gelqf`, `gerqf` and the fills use unbounded
  naturals. `gehrd` models `size_t` wrap-around for `ihi - ilo - 1` and
  `ihi - 1` only, assuming n < 2^64 and no overflow of `i + nx`.
- Gehrd.Gehrd requires ihi >= 1 whenever the checks pass. With ihi = 0 the
  code's loop runs on inverted ranges (see Findings), and what the kernels
  would then do is not defined here.
- Gelqf.Gelqf and Gerqf.Gerqf require nb >= 1 when there is work to do,
  because with nb = 0 the code's loops do not terminate.
- Gehrd.Gehrd requires, when the checks pass and the block size
  min(opts.nb, ihi - ilo - 1) is 0, that the blocked loop is not entered,
  because with nb = 0 its `i += nb` never ends.
- Her2k: the code is followed where the library's specification text
  differs:
  - alpha = 0 treats the triangle named by the opposite uplo;
  - General with alpha = 0 does not touch the whole matrix;
  - alpha = 0 with beta = 1 does not make the diagonal real;
  - there is no mirroring after alpha = 0.
- Concurrency and exceptions: an error is a `false` or non-zero result,
  not a thrown exception.

## Findings

| source | as written | input that shows it | evidently intended | confidence | as-written member | corrected member |
|---|---|---|---|---|---|---|
| include/lapack/gelqf.hpp:96 | the trailing update runs only when `j + ib < k`, so for m > n the rows below k never receive the last panel's reflectors | m = 3, n = 2, nb = 2: one panel (rows 0..2); row 2 is not in it and the update is skipped | `j + ib < m`, as in LAPACK's xGELQF, so every panel reaches every row below it | not executed; medium | Gelqf.LastPanelMissesLowerRows | Gelqf.CorrectedPanelsReachAllRows |
| include/tlapack/lapack/gehrd.hpp:142-169 | `ihi = 0` passes the checks, and the test `i + nx < ihi - 1` wraps `ihi - 1` in size_t | ilo = ihi = 0, n = 1, default options: the loop is entered with ilo + 1 > ihi | reject ihi < 1 (LAPACK demands ilo >= 1 one-based, here 0 <= ilo < ihi in effect), or test `i + nx + 1 < ihi` | not executed; medium | Gehrd.ZeroIhiEntersLoop | Gehrd.IntendedTestKeepsRangesOrdered |
| include/tlapack/lapack/gehrd.hpp:144-177 | the check only demands n - 1 entries of tau, but the loop slices `tau(i..ihi)`, up to index ihi - 1 = n - 1 | n = 3, ilo = 0, ihi = 3, size(tau) = 2, opts nb = 1, nx_switch = 0: the first block slices tau(0..3) from a vector of 2 | slice only the nb2 factors the block stores, tau[i..i+nb2), which fit in n - 1 entries | not executed; low to medium | Gehrd.TauSliceOverrunsVector | Gehrd.BlockTauSlotsFit |
