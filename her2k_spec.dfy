/** The Hermitian rank-2k update `her2k` (include/blas/her2k.hpp) as pure
    functions: argument validation, the rewrite of a row-major call into the
    equivalent column-major call, and the value that every position of the
    buffer C holds when the call returns. Every branch follows the code as
    written, including where it departs from its own doc comment. */
module Her2kSpec {
  import opened Scalars
  import opened ColumnMajor
  import opened Optional

  /** The enumerations carry a constructor for any other stored value, which
      the argument checks reject. */
  datatype Layout = ColMajor | RowMajor | UnknownLayout
  datatype Uplo = Lower | Upper | General | UnknownUplo
  datatype Op = NoTrans | Trans | ConjTrans | UnknownOp

  /** A call after row-major normalisation: the column-major triangle,
      operation and alpha that the computation runs with. */
  datatype Call = Call(uplo: Uplo, trans: Op, alpha: Complex)

  /** The extent that lda and ldb must reach: n for a column-major NoTrans
      call and k otherwise, the other way round for row-major. */
  function LeadingExtent(layout: Layout, trans: Op, n: nat, k: nat): nat
  {
    if layout == RowMajor then (if trans == NoTrans then k else n)
    else (if trans == NoTrans then n else k)
  }

  predicate ValidArguments(layout: Layout, uplo: Uplo, trans: Op, n: nat, k: nat, lda: nat, ldb: nat, ldc: nat)
  {
    && (layout == ColMajor || layout == RowMajor)
    && (uplo == Lower || uplo == Upper || uplo == General)
    && (trans == NoTrans || trans == ConjTrans)
    && lda >= LeadingExtent(layout, trans, n, k)
    && ldb >= LeadingExtent(layout, trans, n, k)
    && ldc >= n
  }

  /** The buffers are as large as the matrices the call reads: C is an
      ldc-by-n array, and A and B, which are read only when n > 0 and
      alpha != 0, are then lda-by-cols and ldb-by-cols arrays, with
      cols = k when the column-major form of the call is NoTrans and n
      otherwise. */
  predicate BuffersFit(layout: Layout, trans: Op, n: nat, k: nat, alpha: Complex,
                       lenA: nat, lda: nat, lenB: nat, ldb: nat, lenC: nat, ldc: nat)
  {
    var cols := if (layout == RowMajor) == (trans == NoTrans) then n else k;
    && lenC >= ldc * n
    && (n > 0 && alpha != Zero ==> lenA >= lda * cols && lenB >= ldb * cols)
  }

  /** The sizes the column-major form of the call reads A and B with: A and
      B are n-by-k for NoTrans and k-by-n for ConjTrans. */
  predicate OperandsFit(trans: Op, n: nat, k: nat, lenA: nat, lda: nat, lenB: nat, ldb: nat)
  {
    if trans == NoTrans then n <= lda && n <= ldb && lenA >= lda * k && lenB >= ldb * k
    else k <= lda && k <= ldb && lenA >= lda * n && lenB >= ldb * n
  }

  function SwapUplo(uplo: Uplo): Uplo
  {
    match uplo
    case Lower => Upper
    case Upper => Lower
    case _ => uplo
  }

  function SwapOp(trans: Op): Op
  {
    if trans == NoTrans then ConjTrans else NoTrans
  }

  /** Argument checks in the order of the code, then the row-major rewrite
      (Lower and Upper swapped, General kept, NoTrans and ConjTrans swapped,
      alpha conjugated). None is the error the checks raise. */
  function Normalize(layout: Layout, uplo: Uplo, trans: Op, n: nat, k: nat, alpha: Complex, lda: nat, ldb: nat, ldc: nat): (r: Option<Call>)
    ensures r.Some? <==> ValidArguments(layout, uplo, trans, n, k, lda, ldb, ldc)
    ensures r.Some? ==> r.value.uplo != UnknownUplo && (r.value.trans == NoTrans || r.value.trans == ConjTrans)
  {
    if layout != ColMajor && layout != RowMajor then None
    else if uplo != Lower && uplo != Upper && uplo != General then None
    else if trans != NoTrans && trans != ConjTrans then None
    else if lda < LeadingExtent(layout, trans, n, k) then None
    else if ldb < LeadingExtent(layout, trans, n, k) then None
    else if ldc < n then None
    else if layout == RowMajor then Some(Call(SwapUplo(uplo), SwapOp(trans), Conj(alpha)))
    else Some(Call(uplo, trans, alpha))
  }

  /** Entry (i, j) is in the triangle the alpha != 0 code computes: i <= j
      for Upper and General, i >= j for Lower. */
  predicate InTriangle(uplo: Uplo, i: nat, j: nat)
  {
    if uplo != Lower then i <= j else j <= i
  }

  /** New value of entry (i, j), holding c, when alpha is zero. For any uplo
      other than Upper the code visits i <= j, for Upper i >= j; beta == 1
      leaves the entry alone. */
  function ZeroAlphaEntry(uplo: Uplo, beta: real, i: nat, j: nat, c: Complex): Complex
  {
    var visited := if uplo != Upper then i <= j else j <= i;
    if !visited || beta == 1.0 then c
    else if beta == 0.0 then Zero
    else BetaStart(beta, i, j, c)
  }

  /** One term of the NoTrans accumulation into an off-diagonal entry:
      A(i,l) * (alpha conj(B(j,l))) + B(i,l) * conj(alpha A(j,l)). */
  function NoTransTerm(A: seq<Complex>, lda: nat, B: seq<Complex>, ldb: nat, alpha: Complex, i: nat, j: nat, l: nat): Complex
  {
    Add(Mul(Elem(A, lda, i, l), Mul(alpha, Conj(Elem(B, ldb, j, l)))),
        Mul(Elem(B, ldb, i, l), Conj(Mul(alpha, Elem(A, lda, j, l)))))
  }

  /** `start` with the NoTrans terms for l = 0 .. len-1 added to it one at a
      time, in the order of the l loop. */
  function NoTransAcc(start: Complex, A: seq<Complex>, lda: nat, B: seq<Complex>, ldb: nat, alpha: Complex,
                      i: nat, j: nat, len: nat): Complex
  {
    if len == 0 then start
    else Add(NoTransAcc(start, A, lda, B, ldb, alpha, i, j, len - 1), NoTransTerm(A, lda, B, ldb, alpha, i, j, len - 1))
  }

  /** One term of the NoTrans accumulation into the diagonal entry (j, j):
      2 re(A(j,l) * (alpha conj(B(j,l)))). */
  function NoTransDiagTerm(A: seq<Complex>, lda: nat, B: seq<Complex>, ldb: nat, alpha: Complex, j: nat, l: nat): real
  {
    2.0 * Mul(Elem(A, lda, j, l), Mul(alpha, Conj(Elem(B, ldb, j, l)))).re
  }

  /** `start` with the diagonal terms for l = 0 .. len-1 added to its real
      part one at a time. */
  function NoTransDiagAcc(start: Complex, A: seq<Complex>, lda: nat, B: seq<Complex>, ldb: nat, alpha: Complex,
                          j: nat, len: nat): Complex
  {
    if len == 0 then start
    else AddReal(NoTransDiagAcc(start, A, lda, B, ldb, alpha, j, len - 1), NoTransDiagTerm(A, lda, B, ldb, alpha, j, len - 1))
  }

  /** sum over l < len of conj(X(l,i)) * Y(l,j): entry (i, j) of X^H Y, the
      `sum1`/`sum2` accumulators of the ConjTrans code. */
  function ConjDot(X: seq<Complex>, ldx: nat, Y: seq<Complex>, ldy: nat, i: nat, j: nat, len: nat): Complex
  {
    if len == 0 then Zero
    else Add(ConjDot(X, ldx, Y, ldy, i, j, len - 1), Mul(Conj(Elem(X, ldx, len - 1, i)), Elem(Y, ldy, len - 1, j)))
  }

  /** New value of a NoTrans triangle entry (i, j) that held c. */
  function NoTransEntry(alpha: Complex, A: seq<Complex>, lda: nat, B: seq<Complex>, ldb: nat, k: nat, beta: real,
                        i: nat, j: nat, c: Complex): Complex
  {
    if i == j then NoTransDiagAcc(BetaStart(beta, i, j, c), A, lda, B, ldb, alpha, j, k)
    else NoTransAcc(BetaStart(beta, i, j, c), A, lda, B, ldb, alpha, i, j, k)
  }

  /** The value a NoTrans triangle entry holds after the beta scaling that
      opens its column: beta re(c) on the diagonal, beta c elsewhere. */
  function BetaStart(beta: real, i: nat, j: nat, c: Complex): Complex
  {
    if i == j then OfReal(beta * c.re) else Scale(beta, c)
  }

  /** New value of a ConjTrans triangle entry (i, j) that held c. */
  function ConjTransEntry(alpha: Complex, A: seq<Complex>, lda: nat, B: seq<Complex>, ldb: nat, k: nat, beta: real,
                          i: nat, j: nat, c: Complex): Complex
  {
    var s := Add(Mul(alpha, ConjDot(A, lda, B, ldb, i, j, k)), Mul(Conj(alpha), ConjDot(B, ldb, A, lda, i, j, k)));
    if i == j then OfReal(s.re + beta * c.re)
    else Add(s, Scale(beta, c))
  }

  /** New value of a triangle entry (i, j), holding c, when alpha != 0, for
      the column-major form of the call. */
  function UpdatedEntry(call: Call, A: seq<Complex>, lda: nat, B: seq<Complex>, ldb: nat, k: nat, beta: real, i: nat, j: nat, c: Complex): Complex
  {
    if call.trans == NoTrans then NoTransEntry(call.alpha, A, lda, B, ldb, k, beta, i, j, c)
    else ConjTransEntry(call.alpha, A, lda, B, ldb, k, beta, i, j, c)
  }

  /** The buffer after the alpha == 0 branch. */
  function ZeroAlphaResult(uplo: Uplo, beta: real, C: seq<Complex>, n: nat, ldc: nat): (r: seq<Complex>)
    ensures |r| == |C|
    ensures forall p | 0 <= p < |C| && !InMatrix(p, n, ldc) :: r[p] == C[p]
  {
    seq(|C|, p requires 0 <= p < |C| =>
      if InMatrix(p, n, ldc) then ZeroAlphaEntry(uplo, beta, p % ldc, p / ldc, C[p]) else C[p])
  }

  /** The buffer after the NoTrans or ConjTrans triangle update. */
  function TriangleResult(call: Call, A: seq<Complex>, lda: nat, B: seq<Complex>, ldb: nat, k: nat, beta: real, C: seq<Complex>, n: nat, ldc: nat): (r: seq<Complex>)
    ensures |r| == |C|
    ensures forall p | 0 <= p < |C| && !InMatrix(p, n, ldc) :: r[p] == C[p]
  {
    seq(|C|, p requires 0 <= p < |C| =>
      if InMatrix(p, n, ldc) && InTriangle(call.uplo, p % ldc, p / ldc)
      then UpdatedEntry(call, A, lda, B, ldb, k, beta, p % ldc, p / ldc, C[p])
      else C[p])
  }

  /** The buffer after the General-mode mirroring C(i,j) = conj(C(j,i)), i > j. */
  function MirrorResult(C: seq<Complex>, n: nat, ldc: nat): (r: seq<Complex>)
    ensures |r| == |C|
    ensures forall p | 0 <= p < |C| && !InMatrix(p, n, ldc) :: r[p] == C[p]
  {
    seq(|C|, p requires 0 <= p < |C| =>
      if InMatrix(p, n, ldc) && p / ldc < p % ldc then Conj(Elem(C, ldc, p / ldc, p % ldc)) else C[p])
  }

  /** What the computation leaves in C for a call that passed the checks. */
  function Apply(call: Call, A: seq<Complex>, lda: nat, B: seq<Complex>, ldb: nat, k: nat, beta: real,
                 C: seq<Complex>, n: nat, ldc: nat): (r: seq<Complex>)
    ensures |r| == |C|
    ensures forall p | 0 <= p < |C| && !InMatrix(p, n, ldc) :: r[p] == C[p]
  {
    if n == 0 then C
    else if call.alpha == Zero then ZeroAlphaResult(call.uplo, beta, C, n, ldc)
    else
      var T := TriangleResult(call, A, lda, B, ldb, k, beta, C, n, ldc);
      if call.uplo == General then MirrorResult(T, n, ldc) else T
  }

  /** What `her2k` leaves in C, or None when an argument check raises. */
  function Her2kResult(layout: Layout, uplo: Uplo, trans: Op, n: nat, k: nat, alpha: Complex,
                       A: seq<Complex>, lda: nat, B: seq<Complex>, ldb: nat, beta: real,
                       C: seq<Complex>, ldc: nat): Option<seq<Complex>>
  {
    match Normalize(layout, uplo, trans, n, k, alpha, lda, ldb, ldc)
    case None => None
    case Some(call) => Some(Apply(call, A, lda, B, ldb, k, beta, C, n, ldc))
  }

  /** Buffers that fit the call as given fit its column-major form. */
  lemma NormalizedFits(layout: Layout, uplo: Uplo, trans: Op, n: nat, k: nat, alpha: Complex,
                       lenA: nat, lda: nat, lenB: nat, ldb: nat, lenC: nat, ldc: nat, call: Call)
    requires ValidArguments(layout, uplo, trans, n, k, lda, ldb, ldc) ==>
      BuffersFit(layout, trans, n, k, alpha, lenA, lda, lenB, ldb, lenC, ldc)
    requires Normalize(layout, uplo, trans, n, k, alpha, lda, ldb, ldc) == Some(call)
    ensures n > 0 && call.alpha != Zero ==> OperandsFit(call.trans, n, k, lenA, lda, lenB, ldb)
    ensures n <= ldc && ldc * n <= lenC
  {
  }
}
