/** What `her2k` computes, stated against the textbook definition of the
    Hermitian rank-2k update: for a column-major call, the triangle entries
    become alpha op(A) op(B)^H + conj(alpha) op(B) op(A)^H + beta C, with the
    diagonal kept real, and the rest of the buffer keeps its values. */
module Her2kProperties {
  import opened Scalars
  import opened ColumnMajor
  import opened Optional
  import opened Her2kSpec

  /** op(X)(i, l): X(i, l) for NoTrans and conj(X(l, i)) for ConjTrans. */
  function OpElem(trans: Op, X: seq<Complex>, ldx: nat, i: nat, l: nat): Complex
  {
    if trans == NoTrans then Elem(X, ldx, i, l) else Conj(Elem(X, ldx, l, i))
  }

  /** sum over l < len of op(X)(i,l) conj(op(Y)(j,l)): entry (i, j) of op(X) op(Y)^H. */
  function ProductSum(trans: Op, X: seq<Complex>, ldx: nat, Y: seq<Complex>, ldy: nat, i: nat, j: nat, len: nat): Complex
  {
    if len == 0 then Zero
    else Add(ProductSum(trans, X, ldx, Y, ldy, i, j, len - 1),
             Mul(OpElem(trans, X, ldx, i, len - 1), Conj(OpElem(trans, Y, ldy, j, len - 1))))
  }

  /** Entry (i, j) of alpha op(A) op(B)^H + conj(alpha) op(B) op(A)^H. */
  function Rank2k(trans: Op, alpha: Complex, A: seq<Complex>, lda: nat, B: seq<Complex>, ldb: nat, k: nat, i: nat, j: nat): Complex
  {
    Add(Mul(alpha, ProductSum(trans, A, lda, B, ldb, i, j, k)),
        Mul(Conj(alpha), ProductSum(trans, B, ldb, A, lda, i, j, k)))
  }

  /** The reference value of a triangle entry that held c: the rank-2k term
      plus beta c, where the diagonal takes only real parts. */
  function ReferenceEntry(trans: Op, alpha: Complex, A: seq<Complex>, lda: nat, B: seq<Complex>, ldb: nat, k: nat,
                          beta: real, i: nat, j: nat, c: Complex): Complex
  {
    var s := Rank2k(trans, alpha, A, lda, B, ldb, k, i, j);
    if i == j then OfReal(s.re + beta * c.re) else Add(s, Scale(beta, c))
  }

  // ---------------------------------------------------------------------
  // Algebra of the sums

  /** Swapping the factors of op(X) op(Y)^H conjugates it. */
  lemma {:induction false} ProductSumConj(trans: Op, X: seq<Complex>, ldx: nat, Y: seq<Complex>, ldy: nat, i: nat, j: nat, len: nat)
    ensures ProductSum(trans, Y, ldy, X, ldx, j, i, len) == Conj(ProductSum(trans, X, ldx, Y, ldy, i, j, len))
  {
    if len > 0 {
      ProductSumConj(trans, X, ldx, Y, ldy, i, j, len - 1);
      var x, y := OpElem(trans, X, ldx, i, len - 1), OpElem(trans, Y, ldy, j, len - 1);
      ConjOfMul(x, Conj(y));
      ConjConj(y);
      MulComm(y, Conj(x));
    }
  }

  /** The rank-2k matrix is Hermitian. */
  lemma Rank2kHermitian(trans: Op, alpha: Complex, A: seq<Complex>, lda: nat, B: seq<Complex>, ldb: nat, k: nat, i: nat, j: nat)
    ensures Rank2k(trans, alpha, A, lda, B, ldb, k, j, i) == Conj(Rank2k(trans, alpha, A, lda, B, ldb, k, i, j))
  {
    var P, Q := ProductSum(trans, A, lda, B, ldb, i, j, k), ProductSum(trans, B, ldb, A, lda, i, j, k);
    ProductSumConj(trans, A, lda, B, ldb, i, j, k);
    ProductSumConj(trans, B, ldb, A, lda, i, j, k);
    ConjOfMul(alpha, P);
    ConjOfMul(Conj(alpha), Q);
    ConjConj(alpha);
  }

  /** On the diagonal the rank-2k term is 2 re(alpha op(A) op(B)^H), a real number. */
  lemma Rank2kDiagonal(trans: Op, alpha: Complex, A: seq<Complex>, lda: nat, B: seq<Complex>, ldb: nat, k: nat, j: nat)
    ensures Rank2k(trans, alpha, A, lda, B, ldb, k, j, j) == OfReal(2.0 * Mul(alpha, ProductSum(trans, A, lda, B, ldb, j, j, k)).re)
  {
    var P := ProductSum(trans, A, lda, B, ldb, j, j, k);
    ProductSumConj(trans, A, lda, B, ldb, j, j, k);
    ConjOfMul(alpha, P);
    AddConjIsReal(Mul(alpha, P));
  }

  /** For ConjTrans, op(X) op(Y)^H is the `sum1`/`sum2` accumulator X^H Y. */
  lemma {:induction false} ConjTransSum(X: seq<Complex>, ldx: nat, Y: seq<Complex>, ldy: nat, i: nat, j: nat, len: nat)
    ensures ProductSum(ConjTrans, X, ldx, Y, ldy, i, j, len) == ConjDot(X, ldx, Y, ldy, i, j, len)
  {
    if len > 0 {
      ConjTransSum(X, ldx, Y, ldy, i, j, len - 1);
      ConjConj(Elem(Y, ldy, len - 1, j));
    }
  }

  /** One NoTrans term of the code, A(i,l) (alpha conj B(j,l)) + B(i,l) conj(alpha A(j,l)),
      is alpha A(i,l) conj B(j,l) + conj(alpha) B(i,l) conj A(j,l). */
  lemma NoTransTermSplit(alpha: Complex, ail: Complex, bjl: Complex, bil: Complex, ajl: Complex)
    ensures Add(Mul(ail, Mul(alpha, Conj(bjl))), Mul(bil, Conj(Mul(alpha, ajl))))
         == Add(Mul(alpha, Mul(ail, Conj(bjl))), Mul(Conj(alpha), Mul(bil, Conj(ajl))))
  {
    MulAssoc(ail, alpha, Conj(bjl));
    MulComm(ail, alpha);
    MulAssoc(alpha, ail, Conj(bjl));
    ConjOfMul(alpha, ajl);
    MulAssoc(bil, Conj(alpha), Conj(ajl));
    MulComm(bil, Conj(alpha));
    MulAssoc(Conj(alpha), bil, Conj(ajl));
  }

  /** The NoTrans accumulation of the code adds the rank-2k term to its start. */
  lemma {:induction false} NoTransAccIsRank2k(start: Complex, A: seq<Complex>, lda: nat, B: seq<Complex>, ldb: nat,
                                              alpha: Complex, i: nat, j: nat, len: nat)
    ensures NoTransAcc(start, A, lda, B, ldb, alpha, i, j, len) == Add(start, Rank2k(NoTrans, alpha, A, lda, B, ldb, len, i, j))
  {
    if len > 0 {
      NoTransAccIsRank2k(start, A, lda, B, ldb, alpha, i, j, len - 1);
      var l := len - 1;
      var ail, bjl, bil, ajl := Elem(A, lda, i, l), Elem(B, ldb, j, l), Elem(B, ldb, i, l), Elem(A, lda, j, l);
      NoTransTermSplit(alpha, ail, bjl, bil, ajl);
      MulDistributes(alpha, ProductSum(NoTrans, A, lda, B, ldb, i, j, l), Mul(ail, Conj(bjl)));
      MulDistributes(Conj(alpha), ProductSum(NoTrans, B, ldb, A, lda, i, j, l), Mul(bil, Conj(ajl)));
    }
  }

  /** The diagonal term of the code, 2 re(A(j,l) (alpha conj B(j,l))), is
      2 re(alpha A(j,l) conj B(j,l)). */
  lemma DiagTermSplit(alpha: Complex, ajl: Complex, bjl: Complex)
    ensures Mul(ajl, Mul(alpha, Conj(bjl))).re == Mul(alpha, Mul(ajl, Conj(bjl))).re
  {
    MulAssoc(ajl, alpha, Conj(bjl));
    MulComm(ajl, alpha);
    MulAssoc(alpha, ajl, Conj(bjl));
  }

  /** The NoTrans diagonal accumulation adds 2 re(alpha op(A) op(B)^H)(j,j) to the real part of its start. */
  lemma {:induction false} NoTransDiagAccIsRank2k(start: Complex, A: seq<Complex>, lda: nat, B: seq<Complex>, ldb: nat,
                                                  alpha: Complex, j: nat, len: nat)
    ensures NoTransDiagAcc(start, A, lda, B, ldb, alpha, j, len)
         == AddReal(start, 2.0 * Mul(alpha, ProductSum(NoTrans, A, lda, B, ldb, j, j, len)).re)
  {
    if len > 0 {
      NoTransDiagAccIsRank2k(start, A, lda, B, ldb, alpha, j, len - 1);
      var l := len - 1;
      var ajl, bjl := Elem(A, lda, j, l), Elem(B, ldb, j, l);
      DiagTermSplit(alpha, ajl, bjl);
      MulDistributes(alpha, ProductSum(NoTrans, A, lda, B, ldb, j, j, l), Mul(ajl, Conj(bjl)));
    }
  }

  /** The value the code gives a triangle entry is the reference value, for
      both operations. */
  lemma UpdatedEntryIsReference(call: Call, A: seq<Complex>, lda: nat, B: seq<Complex>, ldb: nat, k: nat, beta: real,
                                i: nat, j: nat, c: Complex)
    requires call.trans == NoTrans || call.trans == ConjTrans
    ensures UpdatedEntry(call, A, lda, B, ldb, k, beta, i, j, c)
         == ReferenceEntry(call.trans, call.alpha, A, lda, B, ldb, k, beta, i, j, c)
  {
    if call.trans == NoTrans {
      if i == j {
        NoTransDiagAccIsRank2k(BetaStart(beta, i, j, c), A, lda, B, ldb, call.alpha, j, k);
        Rank2kDiagonal(NoTrans, call.alpha, A, lda, B, ldb, k, j);
      } else {
        NoTransAccIsRank2k(BetaStart(beta, i, j, c), A, lda, B, ldb, call.alpha, i, j, k);
      }
    } else {
      ConjTransSum(A, lda, B, ldb, i, j, k);
      ConjTransSum(B, ldb, A, lda, i, j, k);
    }
  }

  // ---------------------------------------------------------------------
  // The whole call

  /** The argument checks raise exactly on invalid arguments, and then C is
      not written. */
  lemma InvalidArgumentsRaise(layout: Layout, uplo: Uplo, trans: Op, n: nat, k: nat, alpha: Complex,
                              A: seq<Complex>, lda: nat, B: seq<Complex>, ldb: nat, beta: real, C: seq<Complex>, ldc: nat)
    ensures Her2kResult(layout, uplo, trans, n, k, alpha, A, lda, B, ldb, beta, C, ldc).None?
        <==> !ValidArguments(layout, uplo, trans, n, k, lda, ldb, ldc)
  {
  }

  /** A row-major call is the column-major call with Lower and Upper swapped,
      NoTrans and ConjTrans swapped and alpha conjugated. */
  lemma RowMajorIsSwappedColMajor(uplo: Uplo, trans: Op, n: nat, k: nat, alpha: Complex,
                                  A: seq<Complex>, lda: nat, B: seq<Complex>, ldb: nat, beta: real, C: seq<Complex>, ldc: nat)
    requires trans == NoTrans || trans == ConjTrans
    ensures Her2kResult(RowMajor, uplo, trans, n, k, alpha, A, lda, B, ldb, beta, C, ldc)
         == Her2kResult(ColMajor, SwapUplo(uplo), SwapOp(trans), n, k, Conj(alpha), A, lda, B, ldb, beta, C, ldc)
  {
  }

  /** With n == 0 the call returns before touching C. */
  lemma EmptyLeavesC(layout: Layout, uplo: Uplo, trans: Op, k: nat, alpha: Complex,
                     A: seq<Complex>, lda: nat, B: seq<Complex>, ldb: nat, beta: real, C: seq<Complex>, ldc: nat)
    requires ValidArguments(layout, uplo, trans, 0, k, lda, ldb, ldc)
    ensures Her2kResult(layout, uplo, trans, 0, k, alpha, A, lda, B, ldb, beta, C, ldc) == Some(C)
  {
  }

  /** Positions outside the n-by-n block are never written. */
  lemma OutsideBlockUnchanged(call: Call, A: seq<Complex>, lda: nat, B: seq<Complex>, ldb: nat, k: nat, beta: real,
                              C: seq<Complex>, n: nat, ldc: nat, p: nat)
    requires p < |C| && !InMatrix(p, n, ldc)
    ensures |Apply(call, A, lda, B, ldb, k, beta, C, n, ldc)| == |C|
    ensures Apply(call, A, lda, B, ldb, k, beta, C, n, ldc)[p] == C[p]
  {
  }

  /** With alpha == 0: beta == 0 clears, and any other beta but 1 scales,
      the entries with i <= j unless uplo is Upper, with i >= j if it is,
      the diagonal becoming beta re(C(j,j)); beta == 1 changes nothing. */
  lemma ZeroAlphaEntries(call: Call, A: seq<Complex>, lda: nat, B: seq<Complex>, ldb: nat, k: nat, beta: real,
                         C: seq<Complex>, n: nat, ldc: nat, i: nat, j: nat)
    requires call.alpha == Zero && i < n && j < n && n <= ldc && ldc * n <= |C|
    ensures i + j * ldc < |C|
    ensures var c, r := C[i + j * ldc], Apply(call, A, lda, B, ldb, k, beta, C, n, ldc)[i + j * ldc];
            var visited := if call.uplo != Upper then i <= j else j <= i;
            && (!visited || beta == 1.0 ==> r == c)
            && (visited && beta == 0.0 ==> r == Zero)
            && (visited && beta != 0.0 && beta != 1.0 ==> r == if i == j then OfReal(beta * c.re) else Scale(beta, c))
  {
    EntryInBuffer(i, j, ldc, n, |C|);
    PositionOf(i, j, ldc);
  }

  /** With alpha == 0 and beta == 1 the call leaves C as it was. */
  lemma ZeroAlphaUnitBeta(call: Call, A: seq<Complex>, lda: nat, B: seq<Complex>, ldb: nat, k: nat,
                          C: seq<Complex>, n: nat, ldc: nat)
    requires call.alpha == Zero
    ensures Apply(call, A, lda, B, ldb, k, 1.0, C, n, ldc) == C
  {
    if n > 0 {
      var R := Apply(call, A, lda, B, ldb, k, 1.0, C, n, ldc);
      forall p | 0 <= p < |C|
        ensures R[p] == C[p]
      {
      }
    }
  }

  /** With alpha != 0, every entry of the triangle takes its reference value. */
  lemma TriangleEntries(call: Call, A: seq<Complex>, lda: nat, B: seq<Complex>, ldb: nat, k: nat, beta: real,
                        C: seq<Complex>, n: nat, ldc: nat, i: nat, j: nat)
    requires call.alpha != Zero && (call.trans == NoTrans || call.trans == ConjTrans)
    requires i < n && j < n && n <= ldc && ldc * n <= |C| && InTriangle(call.uplo, i, j)
    ensures i + j * ldc < |C|
    ensures Apply(call, A, lda, B, ldb, k, beta, C, n, ldc)[i + j * ldc]
         == ReferenceEntry(call.trans, call.alpha, A, lda, B, ldb, k, beta, i, j, C[i + j * ldc])
  {
    EntryInBuffer(i, j, ldc, n, |C|);
    PositionOf(i, j, ldc);
    UpdatedEntryIsReference(call, A, lda, B, ldb, k, beta, i, j, C[i + j * ldc]);
  }

  /** With alpha != 0 the diagonal comes out real. */
  lemma DiagonalReal(call: Call, A: seq<Complex>, lda: nat, B: seq<Complex>, ldb: nat, k: nat, beta: real,
                     C: seq<Complex>, n: nat, ldc: nat, j: nat)
    requires call.alpha != Zero && (call.trans == NoTrans || call.trans == ConjTrans)
    requires j < n <= ldc && ldc * n <= |C|
    ensures j + j * ldc < |C|
    ensures IsReal(Apply(call, A, lda, B, ldb, k, beta, C, n, ldc)[j + j * ldc])
  {
    TriangleEntries(call, A, lda, B, ldb, k, beta, C, n, ldc, j, j);
  }

  /** With alpha != 0 and uplo Lower or Upper, the other strict triangle keeps its values. */
  lemma OtherTriangleUnchanged(call: Call, A: seq<Complex>, lda: nat, B: seq<Complex>, ldb: nat, k: nat, beta: real,
                               C: seq<Complex>, n: nat, ldc: nat, i: nat, j: nat)
    requires call.alpha != Zero && (call.uplo == Lower || call.uplo == Upper)
    requires i < n && j < n && n <= ldc && ldc * n <= |C| && !InTriangle(call.uplo, i, j)
    ensures i + j * ldc < |C|
    ensures Apply(call, A, lda, B, ldb, k, beta, C, n, ldc)[i + j * ldc] == C[i + j * ldc]
  {
    EntryInBuffer(i, j, ldc, n, |C|);
    PositionOf(i, j, ldc);
  }

  /** With uplo General and alpha != 0 the strict lower triangle is the
      conjugate of the upper one: C comes out Hermitian. */
  lemma GeneralIsHermitian(call: Call, A: seq<Complex>, lda: nat, B: seq<Complex>, ldb: nat, k: nat, beta: real,
                           C: seq<Complex>, n: nat, ldc: nat, i: nat, j: nat)
    requires call.alpha != Zero && call.uplo == General
    requires j < i < n <= ldc && ldc * n <= |C|
    ensures i + j * ldc < |C| && j + i * ldc < |C|
    ensures var R := Apply(call, A, lda, B, ldb, k, beta, C, n, ldc);
            R[i + j * ldc] == Conj(R[j + i * ldc])
  {
    EntryInBuffer(i, j, ldc, n, |C|);
    EntryInBuffer(j, i, ldc, n, |C|);
    PositionOf(i, j, ldc);
    PositionOf(j, i, ldc);
  }

  /** The n-by-n block of C is Hermitian. */
  ghost predicate HermitianBlock(C: seq<Complex>, n: nat, ldc: nat)
  {
    forall r: nat, s: nat | r < n && s < n :: Elem(C, ldc, r, s) == Conj(Elem(C, ldc, s, r))
  }

  /** Off the diagonal, the reference value of (j, i) for c is the conjugate
      of the reference value of (i, j) for conj(c). */
  lemma ReferenceEntryConj(trans: Op, alpha: Complex, A: seq<Complex>, lda: nat, B: seq<Complex>, ldb: nat, k: nat,
                           beta: real, i: nat, j: nat, c: Complex)
    requires i != j
    ensures Conj(ReferenceEntry(trans, alpha, A, lda, B, ldb, k, beta, j, i, c))
         == ReferenceEntry(trans, alpha, A, lda, B, ldb, k, beta, i, j, Conj(c))
  {
    Rank2kHermitian(trans, alpha, A, lda, B, ldb, k, j, i);
    var s := Rank2k(trans, alpha, A, lda, B, ldb, k, j, i);
    ConjOfAdd(s, Scale(beta, c));
    ConjOfScale(beta, c);
  }

  /** For a Hermitian C, uplo General performs the full update: every entry
      of the block, lower triangle included, takes its reference value. */
  lemma GeneralIsFullUpdate(call: Call, A: seq<Complex>, lda: nat, B: seq<Complex>, ldb: nat, k: nat, beta: real,
                            C: seq<Complex>, n: nat, ldc: nat, i: nat, j: nat)
    requires call.alpha != Zero && call.uplo == General && (call.trans == NoTrans || call.trans == ConjTrans)
    requires i < n && j < n && n <= ldc && ldc * n <= |C| && HermitianBlock(C, n, ldc)
    ensures i + j * ldc < |C|
    ensures Apply(call, A, lda, B, ldb, k, beta, C, n, ldc)[i + j * ldc]
         == ReferenceEntry(call.trans, call.alpha, A, lda, B, ldb, k, beta, i, j, C[i + j * ldc])
  {
    EntryInBuffer(i, j, ldc, n, |C|);
    if j < i {
      EntryInBuffer(j, i, ldc, n, |C|);
      GeneralIsHermitian(call, A, lda, B, ldb, k, beta, C, n, ldc, i, j);
      TriangleEntries(call, A, lda, B, ldb, k, beta, C, n, ldc, j, i);
      ReferenceEntryConj(call.trans, call.alpha, A, lda, B, ldb, k, beta, i, j, C[j + i * ldc]);
      assert Elem(C, ldc, i, j) == Conj(Elem(C, ldc, j, i));
    } else {
      TriangleEntries(call, A, lda, B, ldb, k, beta, C, n, ldc, i, j);
    }
  }

  /** A worked call: n = 2, k = 1, A = (1, i)^T, B = (1, 1)^T, alpha = 1,
      beta = 0, Upper. C(0,0) = 2, C(0,1) = 1 - i, C(1,1) = 0, and C(1,0)
      keeps its value. */
  lemma Her2kExample(A: seq<Complex>, B: seq<Complex>, C: seq<Complex>, n: nat, k: nat, ld: nat, beta: real)
    requires A == [One, Complex(0.0, 1.0)] && B == [One, One] && |C| == 4
    requires n == 2 && k == 1 && ld == 2 && beta == 0.0
    ensures Her2kResult(ColMajor, Upper, NoTrans, n, k, One, A, ld, B, ld, beta, C, ld)
         == Some([Complex(2.0, 0.0), C[1], Complex(1.0, -1.0), Zero])
  {
    var R := Apply(Call(Upper, NoTrans, One), A, ld, B, ld, k, beta, C, n, ld);
    ExampleEntry(A, B, C, n, k, ld, beta, 0, 0);
    ExampleEntry(A, B, C, n, k, ld, beta, 1, 0);
    ExampleEntry(A, B, C, n, k, ld, beta, 0, 1);
    ExampleEntry(A, B, C, n, k, ld, beta, 1, 1);
    assert R == [Complex(2.0, 0.0), C[1], Complex(1.0, -1.0), Zero];
  }

  /** Entry (i, j) of the worked call: A(i) + conj(A(j)) on the upper triangle. */
  lemma ExampleEntry(A: seq<Complex>, B: seq<Complex>, C: seq<Complex>, n: nat, k: nat, ld: nat, beta: real, i: nat, j: nat)
    requires A == [One, Complex(0.0, 1.0)] && B == [One, One] && |C| == 4
    requires n == 2 && k == 1 && ld == 2 && beta == 0.0 && i < 2 && j < 2
    ensures Apply(Call(Upper, NoTrans, One), A, ld, B, ld, k, beta, C, n, ld)[i + j * ld]
         == if i > j then C[i + j * ld] else Add(A[i], Conj(A[j]))
  {
    ExampleTriangle(Call(Upper, NoTrans, One), A, B, k, beta, C, n, ld, i, j);
    if i <= j {
      ExampleRank2k(A, B, i, j);
    }
  }

  /** With beta == 0, the upper triangle of an Upper NoTrans call holds the rank-2k term. */
  lemma ExampleTriangle(call: Call, A: seq<Complex>, B: seq<Complex>, k: nat, beta: real, C: seq<Complex>, n: nat, ld: nat, i: nat, j: nat)
    requires call.uplo == Upper && call.trans == NoTrans && call.alpha != Zero && beta == 0.0
    requires i < n && j < n && n <= ld && ld * n <= |C|
    ensures i + j * ld < |C|
    ensures Apply(call, A, ld, B, ld, k, beta, C, n, ld)[i + j * ld]
         == if i > j then C[i + j * ld] else Rank2k(NoTrans, call.alpha, A, ld, B, ld, k, i, j)
  {
    if i > j {
      OtherTriangleUnchanged(call, A, ld, B, ld, k, beta, C, n, ld, i, j);
    } else {
      TriangleEntries(call, A, ld, B, ld, k, beta, C, n, ld, i, j);
      if i == j {
        Rank2kDiagonal(NoTrans, call.alpha, A, ld, B, ld, k, j);
      }
    }
  }

  /** The rank-2k term of the worked call: A(i) + conj(A(j)). */
  lemma ExampleRank2k(A: seq<Complex>, B: seq<Complex>, i: nat, j: nat)
    requires A == [One, Complex(0.0, 1.0)] && B == [One, One] && i < 2 && j < 2
    ensures Rank2k(NoTrans, One, A, 2, B, 2, 1, i, j) == Add(A[i], Conj(A[j]))
  {
    ExampleSums(A, B, i, j);
    var x, y := A[i], Conj(A[j]);
    assert Mul(One, x) == x && Mul(Conj(One), y) == y;
  }

  /** The two sums of the worked call: (A B^H)(i,j) = A(i) and (B A^H)(i,j) = conj(A(j)). */
  lemma ExampleSums(A: seq<Complex>, B: seq<Complex>, i: nat, j: nat)
    requires A == [One, Complex(0.0, 1.0)] && B == [One, One] && i < 2 && j < 2
    ensures ProductSum(NoTrans, A, 2, B, 2, i, j, 1) == A[i]
    ensures ProductSum(NoTrans, B, 2, A, 2, i, j, 1) == Conj(A[j])
  {
    assert Elem(A, 2, i, 0) == A[i] && Elem(A, 2, j, 0) == A[j];
    assert Elem(B, 2, i, 0) == One && Elem(B, 2, j, 0) == One;
  }
}
