/** The `her2k` routine of include/blas/her2k.hpp on a column-major buffer C,
    proved to leave in C exactly what Her2kSpec.Her2kResult describes. The
    argument checks raise by returning false with C untouched. */
module Her2k {
  import opened Scalars
  import opened ColumnMajor
  import opened Optional
  import opened Her2kSpec

  /** C <- alpha A B^H + conj(alpha) B A^H + beta C on the triangle `uplo`
      (NoTrans), or with A^H B and B^H A (ConjTrans), for C n-by-n. */
  method Her2k(layout: Layout, uplo: Uplo, trans: Op, n: nat, k: nat, alpha: Complex,
               A: seq<Complex>, lda: nat, B: seq<Complex>, ldb: nat, beta: real,
               C: array<Complex>, ldc: nat) returns (ok: bool)
    requires ValidArguments(layout, uplo, trans, n, k, lda, ldb, ldc) ==>
      BuffersFit(layout, trans, n, k, alpha, |A|, lda, |B|, ldb, C.Length, ldc)
    modifies C
    ensures var r := Her2kResult(layout, uplo, trans, n, k, alpha, A, lda, B, ldb, beta, old(C[..]), ldc);
            ok == r.Some? && C[..] == (if ok then r.value else old(C[..]))
  {
    var call := CheckArguments(layout, uplo, trans, n, k, alpha, lda, ldb, ldc);
    if call.None? {
      return false;
    }
    ghost var expected := Apply(call.value, A, lda, B, ldb, k, beta, C[..], n, ldc);
    assert Her2kResult(layout, uplo, trans, n, k, alpha, A, lda, B, ldb, beta, C[..], ldc) == Some(expected);
    NormalizedFits(layout, uplo, trans, n, k, alpha, |A|, lda, |B|, ldb, C.Length, ldc, call.value);
    Run(call.value, A, lda, B, ldb, k, beta, C, n, ldc);
    ok := true;
  }

  /** The argument checks and the row-major rewrite, in the order of the code. */
  method CheckArguments(layout: Layout, uplo: Uplo, trans: Op, n: nat, k: nat, alpha: Complex,
                        lda: nat, ldb: nat, ldc: nat) returns (call: Option<Call>)
    ensures call == Normalize(layout, uplo, trans, n, k, alpha, lda, ldb, ldc)
  {
    if layout != ColMajor && layout != RowMajor {
      return None;
    }
    if uplo != Lower && uplo != Upper && uplo != General {
      return None;
    }
    if trans != NoTrans && trans != ConjTrans {
      return None;
    }
    var u, t, a := uplo, trans, alpha;
    if layout == RowMajor {
      if lda < (if trans == NoTrans then k else n) || ldb < (if trans == NoTrans then k else n) {
        return None;
      }
      if u == Lower {
        u := Upper;
      } else if u == Upper {
        u := Lower;
      }
      t := if t == NoTrans then ConjTrans else NoTrans;
      a := Conj(a);
    } else {
      if lda < (if trans == NoTrans then n else k) || ldb < (if trans == NoTrans then n else k) {
        return None;
      }
    }
    if ldc < n {
      return None;
    }
    return Some(Call(u, t, a));
  }

  /** The computation for a column-major call that passed the checks: quick
      return for n == 0, the alpha == 0 branch, or the triangle update
      followed, for General, by the mirroring. */
  method Run(call: Call, A: seq<Complex>, lda: nat, B: seq<Complex>, ldb: nat, k: nat, beta: real,
             C: array<Complex>, n: nat, ldc: nat)
    requires call.uplo != UnknownUplo && (call.trans == NoTrans || call.trans == ConjTrans)
    requires n > 0 && call.alpha != Zero ==> OperandsFit(call.trans, n, k, |A|, lda, |B|, ldb)
    requires n <= ldc && ldc * n <= C.Length
    modifies C
    ensures C[..] == Apply(call, A, lda, B, ldb, k, beta, old(C[..]), n, ldc)
  {
    if n == 0 {
      return;
    }
    if call.alpha == Zero {
      ZeroAlpha(call.uplo, beta, C, n, ldc);
      return;
    }
    Triangle(call, A, lda, B, ldb, k, beta, C, n, ldc);
    if call.uplo == General {
      Mirror(C, n, ldc);
    }
  }

  /** The alpha == 0 branch: columns j = 0 .. n-1 in turn. */
  method ZeroAlpha(uplo: Uplo, beta: real, C: array<Complex>, n: nat, ldc: nat)
    requires 0 < n <= ldc && ldc * n <= C.Length
    modifies C
    ensures C[..] == ZeroAlphaResult(uplo, beta, old(C[..]), n, ldc)
  {
    ghost var C0 := C[..];
    ghost var final := ZeroAlphaResult(uplo, beta, C0, n, ldc);
    StartColumns(C0, final, n, ldc);
    for j := 0 to n
      invariant C[..] == ColumnsDone(C0, final, j, n, ldc)
    {
      ghost var before := C[..];
      ZeroAlphaColumn(uplo, beta, C, n, ldc, j);
      ZeroAlphaAdvance(uplo, beta, C0, before, C[..], n, ldc, j);
    }
    FinishColumns(C0, final, n, ldc);
  }

  /** Column j done as ZeroAlphaColumn does it extends the finished columns by one. */
  lemma ZeroAlphaAdvance(uplo: Uplo, beta: real, C0: seq<Complex>, before: seq<Complex>, after: seq<Complex>,
                         n: nat, ldc: nat, j: nat)
    requires j < n <= ldc && |after| == |C0|
    requires before == ColumnsDone(C0, ZeroAlphaResult(uplo, beta, C0, n, ldc), j, n, ldc)
    requires forall p | 0 <= p < |C0| && InColumn(p, j, n, ldc) ::
               after[p] == ZeroAlphaEntry(uplo, beta, p - j * ldc, j, before[p])
    requires forall p | 0 <= p < |C0| && !InColumn(p, j, n, ldc) :: after[p] == before[p]
    ensures after == ColumnsDone(C0, ZeroAlphaResult(uplo, beta, C0, n, ldc), j + 1, n, ldc)
  {
    var final := ZeroAlphaResult(uplo, beta, C0, n, ldc);
    forall p | 0 <= p < |C0| && InColumn(p, j, n, ldc)
      ensures after[p] == final[p]
    {
      ColumnWindow(p, j, n, ldc);
    }
    AdvanceColumn(C0, before, after, final, n, ldc, j);
  }

  /** Column j of the alpha == 0 branch. The code tests `uplo != Upper` and
      then `uplo != Lower`, so its third branch cannot be reached. */
  method ZeroAlphaColumn(uplo: Uplo, beta: real, C: array<Complex>, n: nat, ldc: nat, j: nat)
    requires j < n <= ldc && ldc * n <= C.Length
    modifies C
    ensures forall p | 0 <= p < C.Length && InColumn(p, j, n, ldc) ::
              C[p] == ZeroAlphaEntry(uplo, beta, p - j * ldc, j, old(C[p]))
    ensures forall p | 0 <= p < C.Length && !InColumn(p, j, n, ldc) :: C[p] == old(C[p])
  {
    var base := j * ldc;
    ColumnInBuffer(j, n, ldc, C.Length);
    if beta == 0.0 {
      if uplo != Upper {
        ZeroRange(C, base, base + j + 1);
      } else if uplo != Lower {
        ZeroRange(C, base + j, base + n);
      } else {
        assert false;
      }
    } else if beta != 1.0 {
      if uplo != Upper {
        ScaleRange(C, beta, base, base + j);
        C[base + j] := OfReal(beta * C[base + j].re);
      } else if uplo != Lower {
        C[base + j] := OfReal(beta * C[base + j].re);
        ScaleRange(C, beta, base + j + 1, base + n);
      } else {
        assert false;
      }
    }
  }

  /** `C(i,j) = zero` for the rows of one column: positions lo .. hi-1. */
  method ZeroRange(C: array<Complex>, lo: nat, hi: nat)
    requires lo <= hi <= C.Length
    modifies C
    ensures forall p | 0 <= p < C.Length :: C[p] == if lo <= p < hi then Zero else old(C[p])
  {
    for p := lo to hi
      invariant forall q | 0 <= q < C.Length :: C[q] == if lo <= q < p then Zero else old(C[q])
    {
      C[p] := Zero;
    }
  }

  /** `C(i,j) *= beta` for the rows of one column: positions lo .. hi-1. */
  method ScaleRange(C: array<Complex>, beta: real, lo: nat, hi: nat)
    requires lo <= hi <= C.Length
    modifies C
    ensures forall p | 0 <= p < C.Length :: C[p] == if lo <= p < hi then Scale(beta, old(C[p])) else old(C[p])
  {
    for p := lo to hi
      invariant forall q | 0 <= q < C.Length :: C[q] == if lo <= q < p then Scale(beta, old(C[q])) else old(C[q])
    {
      C[p] := Scale(beta, C[p]);
    }
  }

  /** The alpha != 0 update of the triangle, column by column. */
  method Triangle(call: Call, A: seq<Complex>, lda: nat, B: seq<Complex>, ldb: nat, k: nat, beta: real,
                  C: array<Complex>, n: nat, ldc: nat)
    requires call.trans == NoTrans || call.trans == ConjTrans
    requires OperandsFit(call.trans, n, k, |A|, lda, |B|, ldb)
    requires 0 < n <= ldc && ldc * n <= C.Length
    modifies C
    ensures C[..] == TriangleResult(call, A, lda, B, ldb, k, beta, old(C[..]), n, ldc)
  {
    ghost var C0 := C[..];
    ghost var final := TriangleResult(call, A, lda, B, ldb, k, beta, C0, n, ldc);
    StartColumns(C0, final, n, ldc);
    for j := 0 to n
      invariant C[..] == ColumnsDone(C0, final, j, n, ldc)
    {
      ghost var before := C[..];
      if call.trans == NoTrans {
        NoTransColumn(call, A, lda, B, ldb, k, beta, C, n, ldc, j);
      } else {
        ConjTransColumn(call, A, lda, B, ldb, k, beta, C, n, ldc, j);
      }
      TriangleAdvance(call, A, lda, B, ldb, k, beta, C0, before, C[..], n, ldc, j);
    }
    FinishColumns(C0, final, n, ldc);
  }

  /** Column j updated on its triangle rows extends the finished columns by one. */
  lemma TriangleAdvance(call: Call, A: seq<Complex>, lda: nat, B: seq<Complex>, ldb: nat, k: nat, beta: real,
                        C0: seq<Complex>, before: seq<Complex>, after: seq<Complex>, n: nat, ldc: nat, j: nat)
    requires j < n <= ldc && |after| == |C0|
    requires before == ColumnsDone(C0, TriangleResult(call, A, lda, B, ldb, k, beta, C0, n, ldc), j, n, ldc)
    requires forall p | 0 <= p < |C0| && InColumn(p, j, n, ldc) ::
               after[p] == if InTriangle(call.uplo, p - j * ldc, j)
                           then UpdatedEntry(call, A, lda, B, ldb, k, beta, p - j * ldc, j, before[p])
                           else before[p]
    requires forall p | 0 <= p < |C0| && !InColumn(p, j, n, ldc) :: after[p] == before[p]
    ensures after == ColumnsDone(C0, TriangleResult(call, A, lda, B, ldb, k, beta, C0, n, ldc), j + 1, n, ldc)
  {
    var final := TriangleResult(call, A, lda, B, ldb, k, beta, C0, n, ldc);
    forall p | 0 <= p < |C0| && InColumn(p, j, n, ldc)
      ensures after[p] == final[p]
    {
      ColumnWindow(p, j, n, ldc);
    }
    AdvanceColumn(C0, before, after, final, n, ldc, j);
  }

  /** Column j of the NoTrans update. */
  method NoTransColumn(call: Call, A: seq<Complex>, lda: nat, B: seq<Complex>, ldb: nat, k: nat, beta: real,
                       C: array<Complex>, n: nat, ldc: nat, j: nat)
    requires call.trans == NoTrans
    requires OperandsFit(NoTrans, n, k, |A|, lda, |B|, ldb)
    requires j < n <= ldc && ldc * n <= C.Length
    modifies C
    ensures forall p | 0 <= p < C.Length && InColumn(p, j, n, ldc) ::
              C[p] == if InTriangle(call.uplo, p - j * ldc, j)
                      then UpdatedEntry(call, A, lda, B, ldb, k, beta, p - j * ldc, j, old(C[p]))
                      else old(C[p])
    ensures forall p | 0 <= p < C.Length && !InColumn(p, j, n, ldc) :: C[p] == old(C[p])
  {
    var base := j * ldc;
    ColumnInBuffer(j, n, ldc, C.Length);
    NoTransUpdate(call, A, lda, B, ldb, k, beta, C, n, base, j);
  }

  /** The body of the NoTrans column loop for the column stored from `base`. */
  method NoTransUpdate(call: Call, A: seq<Complex>, lda: nat, B: seq<Complex>, ldb: nat, k: nat, beta: real,
                       C: array<Complex>, n: nat, base: nat, j: nat)
    requires call.trans == NoTrans
    requires OperandsFit(NoTrans, n, k, |A|, lda, |B|, ldb)
    requires j < n && base + n <= C.Length
    modifies C
    ensures forall p | 0 <= p < C.Length && base <= p < base + n ::
              C[p] == if InTriangle(call.uplo, p - base, j)
                      then NoTransEntry(call.alpha, A, lda, B, ldb, k, beta, p - base, j, old(C[p]))
                      else old(C[p])
    ensures forall p | 0 <= p < C.Length && !(base <= p < base + n) :: C[p] == old(C[p])
  {
    // off-diagonal rows lo .. hi-1 of the triangle in this column
    var upper := call.uplo != Lower;
    var lo, hi := if upper then 0 else j + 1, if upper then j else n;
    BetaScaleColumn(C, beta, base, j, lo, hi, upper);
    ghost var scaled := C[..];
    AccumulateNoTrans(call.alpha, A, lda, B, ldb, k, C, base, j, lo, hi, upper);
    forall p | 0 <= p < C.Length && base <= p < base + n
      ensures C[p] == if InTriangle(call.uplo, p - base, j)
                      then NoTransEntry(call.alpha, A, lda, B, ldb, k, beta, p - base, j, old(C[p]))
                      else old(C[p])
    {
      if p == base + j {
        assert scaled[p] == BetaStart(beta, j, j, old(C[p]));
      } else if base + lo <= p < base + hi {
        assert scaled[p] == BetaStart(beta, p - base, j, old(C[p]));
      }
    }
  }

  /** The beta scaling that opens a NoTrans column: `C(i,j) *= beta` on the
      off-diagonal rows lo .. hi-1 and `C(j,j) = beta * real(C(j,j))`, in
      the code's order for the upper (rows first) and lower (diagonal first)
      triangle. */
  method BetaScaleColumn(C: array<Complex>, beta: real, base: nat, j: nat, lo: nat, hi: nat, upper: bool)
    requires lo <= hi && base + hi <= C.Length && base + j < C.Length && (hi <= j || j < lo)
    modifies C
    ensures forall p | 0 <= p < C.Length && base + lo <= p < base + hi :: C[p] == BetaStart(beta, p - base, j, old(C[p]))
    ensures C[base + j] == BetaStart(beta, j, j, old(C[base + j]))
    ensures forall p | 0 <= p < C.Length && !(base + lo <= p < base + hi) && p != base + j :: C[p] == old(C[p])
  {
    if upper {
      ScaleRange(C, beta, base + lo, base + hi);
      C[base + j] := OfReal(beta * C[base + j].re);
    } else {
      C[base + j] := OfReal(beta * C[base + j].re);
      ScaleRange(C, beta, base + lo, base + hi);
    }
  }

  /** The l loop of the NoTrans code for one column: off-diagonal rows
      lo .. hi-1 receive the k terms of NoTransAcc, the diagonal those of
      NoTransDiagAcc. */
  method AccumulateNoTrans(alpha: Complex, A: seq<Complex>, lda: nat, B: seq<Complex>, ldb: nat, k: nat,
                           C: array<Complex>, base: nat, j: nat, lo: nat, hi: nat, upper: bool)
    requires lo <= hi <= lda && hi <= ldb && j < lda && j < ldb && |A| >= lda * k && |B| >= ldb * k
    requires base + hi <= C.Length && base + j < C.Length && (hi <= j || j < lo)
    modifies C
    ensures forall p | 0 <= p < C.Length && base + lo <= p < base + hi ::
              C[p] == NoTransAcc(old(C[p]), A, lda, B, ldb, alpha, p - base, j, k)
    ensures C[base + j] == NoTransDiagAcc(old(C[base + j]), A, lda, B, ldb, alpha, j, k)
    ensures forall p | 0 <= p < C.Length && !(base + lo <= p < base + hi) && p != base + j :: C[p] == old(C[p])
  {
    for l := 0 to k
      invariant forall p | 0 <= p < C.Length && base + lo <= p < base + hi ::
                  C[p] == NoTransAcc(old(C[p]), A, lda, B, ldb, alpha, p - base, j, l)
      invariant C[base + j] == NoTransDiagAcc(old(C[base + j]), A, lda, B, ldb, alpha, j, l)
      invariant forall p | 0 <= p < C.Length && !(base + lo <= p < base + hi) && p != base + j :: C[p] == old(C[p])
    {
      NoTransStep(alpha, A, lda, B, ldb, k, C, base, j, lo, hi, l, upper);
    }
  }

  /** One pass of the l loop: the two scalars of the code, then the updates
      of the off-diagonal rows and of the diagonal, in the code's order. */
  method NoTransStep(alpha: Complex, A: seq<Complex>, lda: nat, B: seq<Complex>, ldb: nat, k: nat,
                     C: array<Complex>, base: nat, j: nat, lo: nat, hi: nat, l: nat, upper: bool)
    requires lo <= hi <= lda && hi <= ldb && j < lda && j < ldb && l < k && |A| >= lda * k && |B| >= ldb * k
    requires base + hi <= C.Length && base + j < C.Length && (hi <= j || j < lo)
    modifies C
    ensures forall p | 0 <= p < C.Length && base + lo <= p < base + hi ::
              C[p] == Add(old(C[p]), NoTransTerm(A, lda, B, ldb, alpha, p - base, j, l))
    ensures C[base + j] == AddReal(old(C[base + j]), NoTransDiagTerm(A, lda, B, ldb, alpha, j, l))
    ensures forall p | 0 <= p < C.Length && !(base + lo <= p < base + hi) && p != base + j :: C[p] == old(C[p])
  {
    EntryInBuffer(j, l, lda, k, |A|);
    EntryInBuffer(j, l, ldb, k, |B|);
    var alphaConjBjl := Mul(alpha, Conj(B[j + l * ldb]));
    var conjAlphaAjl := Conj(Mul(alpha, A[j + l * lda]));
    if upper {
      AddTerms(C, base, lo, hi, A, lda, B, ldb, k, l, alphaConjBjl, conjAlphaAjl);
      C[base + j] := AddReal(C[base + j], 2.0 * Mul(A[j + l * lda], alphaConjBjl).re);
    } else {
      C[base + j] := AddReal(C[base + j], 2.0 * Mul(A[j + l * lda], alphaConjBjl).re);
      AddTerms(C, base, lo, hi, A, lda, B, ldb, k, l, alphaConjBjl, conjAlphaAjl);
    }
  }

  /** The innermost NoTrans loop: for rows lo .. hi-1 of the column starting
      at `base`, C(i,j) += A(i,l) * aB + B(i,l) * cA. */
  method AddTerms(C: array<Complex>, base: nat, lo: nat, hi: nat, A: seq<Complex>, lda: nat,
                  B: seq<Complex>, ldb: nat, k: nat, l: nat, aB: Complex, cA: Complex)
    requires lo <= hi <= lda && hi <= ldb && l < k && |A| >= lda * k && |B| >= ldb * k
    requires base + hi <= C.Length
    modifies C
    ensures forall p | 0 <= p < C.Length ::
              C[p] == if base + lo <= p < base + hi
                      then Add(old(C[p]), Add(Mul(Elem(A, lda, p - base, l), aB), Mul(Elem(B, ldb, p - base, l), cA)))
                      else old(C[p])
  {
    for i := lo to hi
      invariant forall p | 0 <= p < C.Length ::
                  C[p] == if base + lo <= p < base + i
                          then Add(old(C[p]), Add(Mul(Elem(A, lda, p - base, l), aB), Mul(Elem(B, ldb, p - base, l), cA)))
                          else old(C[p])
    {
      EntryInBuffer(i, l, lda, k, |A|);
      EntryInBuffer(i, l, ldb, k, |B|);
      C[base + i] := Add(C[base + i], Add(Mul(A[i + l * lda], aB), Mul(B[i + l * ldb], cA)));
    }
  }

  /** Column j of the ConjTrans update, rows lo .. hi-1 of the triangle. */
  method ConjTransColumn(call: Call, A: seq<Complex>, lda: nat, B: seq<Complex>, ldb: nat, k: nat, beta: real,
                         C: array<Complex>, n: nat, ldc: nat, j: nat)
    requires call.trans == ConjTrans
    requires OperandsFit(ConjTrans, n, k, |A|, lda, |B|, ldb)
    requires j < n <= ldc && ldc * n <= C.Length
    modifies C
    ensures forall p | 0 <= p < C.Length && InColumn(p, j, n, ldc) ::
              C[p] == if InTriangle(call.uplo, p - j * ldc, j)
                      then UpdatedEntry(call, A, lda, B, ldb, k, beta, p - j * ldc, j, old(C[p]))
                      else old(C[p])
    ensures forall p | 0 <= p < C.Length && !InColumn(p, j, n, ldc) :: C[p] == old(C[p])
  {
    var base := j * ldc;
    ColumnInBuffer(j, n, ldc, C.Length);
    // rows lo .. hi-1 of the triangle in this column, diagonal included
    var lo, hi := if call.uplo != Lower then 0 else j, if call.uplo != Lower then j + 1 else n;
    for i := lo to hi
      invariant forall p | 0 <= p < C.Length ::
                  C[p] == if base + lo <= p < base + i
                          then UpdatedEntry(call, A, lda, B, ldb, k, beta, p - base, j, old(C[p]))
                          else old(C[p])
    {
      ConjTransCell(call, A, lda, B, ldb, k, beta, C, n, base, i, j);
    }
  }

  /** Entry (i, j) of the ConjTrans update, stored at base + i: alpha sum1 +
      conj(alpha) sum2 + beta C(i,j) off the diagonal, and the real part of
      the first two terms plus beta re(C(j,j)) on it. */
  method ConjTransCell(call: Call, A: seq<Complex>, lda: nat, B: seq<Complex>, ldb: nat, k: nat, beta: real,
                        C: array<Complex>, n: nat, base: nat, i: nat, j: nat)
    requires call.trans == ConjTrans && InTriangle(call.uplo, i, j)
    requires OperandsFit(ConjTrans, n, k, |A|, lda, |B|, ldb)
    requires i < n && j < n && base + i < C.Length
    modifies C
    ensures C[base + i] == UpdatedEntry(call, A, lda, B, ldb, k, beta, i, j, old(C[base + i]))
    ensures forall p | 0 <= p < C.Length && p != base + i :: C[p] == old(C[p])
  {
    var sum1, sum2 := ConjDots(A, lda, B, ldb, k, n, i, j);
    var s := Add(Mul(call.alpha, sum1), Mul(Conj(call.alpha), sum2));
    var offDiagonal := if call.uplo != Lower then i < j else i > j;
    C[base + i] := if offDiagonal then Add(s, Scale(beta, C[base + i]))
                   else OfReal(s.re + beta * C[base + i].re);
  }

  /** The l loop of the ConjTrans code: sum1 = (A^H B)(i,j), sum2 = (B^H A)(i,j). */
  method ConjDots(A: seq<Complex>, lda: nat, B: seq<Complex>, ldb: nat, k: nat, n: nat, i: nat, j: nat)
    returns (sum1: Complex, sum2: Complex)
    requires i < n && j < n && k <= lda && k <= ldb && |A| >= lda * n && |B| >= ldb * n
    ensures sum1 == ConjDot(A, lda, B, ldb, i, j, k)
    ensures sum2 == ConjDot(B, ldb, A, lda, i, j, k)
  {
    sum1, sum2 := Zero, Zero;
    for l := 0 to k
      invariant sum1 == ConjDot(A, lda, B, ldb, i, j, l)
      invariant sum2 == ConjDot(B, ldb, A, lda, i, j, l)
    {
      EntryInBuffer(l, i, lda, n, |A|);
      EntryInBuffer(l, j, lda, n, |A|);
      EntryInBuffer(l, i, ldb, n, |B|);
      EntryInBuffer(l, j, ldb, n, |B|);
      sum1 := Add(sum1, Mul(Conj(A[l + i * lda]), B[l + j * ldb]));
      sum2 := Add(sum2, Mul(Conj(B[l + i * ldb]), A[l + j * lda]));
    }
  }

  /** The General-mode completion: C(i,j) = conj(C(j,i)) for i > j. */
  method Mirror(C: array<Complex>, n: nat, ldc: nat)
    requires 0 < n <= ldc && ldc * n <= C.Length
    modifies C
    ensures C[..] == MirrorResult(old(C[..]), n, ldc)
  {
    ghost var C0 := C[..];
    ghost var final := MirrorResult(C0, n, ldc);
    StartColumns(C0, final, n, ldc);
    for j := 0 to n
      invariant C[..] == ColumnsDone(C0, final, j, n, ldc)
    {
      ghost var before := C[..];
      MirrorColumn(C, n, ldc, j);
      MirrorAdvance(C0, before, C[..], n, ldc, j);
    }
    FinishColumns(C0, final, n, ldc);
  }

  /** Column j mirrored from row j extends the finished columns by one: the
      entries it reads, row j of the later columns, still hold their values
      from C0. */
  lemma MirrorAdvance(C0: seq<Complex>, before: seq<Complex>, after: seq<Complex>, n: nat, ld: nat, j: nat)
    requires j < n <= ld && ld * n <= |C0| && |after| == |C0|
    requires before == ColumnsDone(C0, MirrorResult(C0, n, ld), j, n, ld)
    requires forall p | 0 <= p < |C0| && InColumn(p, j, n, ld) ::
               after[p] == if j < p - j * ld then Conj(RowOf(before, ld, j, n)[p - j * ld]) else before[p]
    requires forall p | 0 <= p < |C0| && !InColumn(p, j, n, ld) :: after[p] == before[p]
    ensures after == ColumnsDone(C0, MirrorResult(C0, n, ld), j + 1, n, ld)
  {
    var final := MirrorResult(C0, n, ld);
    forall p | 0 <= p < |C0| && InColumn(p, j, n, ld)
      ensures after[p] == final[p]
    {
      ColumnWindow(p, j, n, ld);
      var i := p - j * ld;
      if j < i {
        // the entry read, (j, i), lies in the later column i
        LaterColumnEntry(j, i, n, ld, |C0|);
        PositionOf(j, i, ld);
        assert !BeforeColumn(j + i * ld, j, n, ld);
      }
    }
    AdvanceColumn(C0, before, after, final, n, ld, j);
  }

  /** Column j of the mirroring: rows j+1 .. n-1 read row j of later columns. */
  method MirrorColumn(C: array<Complex>, n: nat, ldc: nat, j: nat)
    requires j < n <= ldc && ldc * n <= C.Length
    modifies C
    ensures forall p | 0 <= p < C.Length && InColumn(p, j, n, ldc) ::
              C[p] == if j < p - j * ldc then Conj(RowOf(old(C[..]), ldc, j, n)[p - j * ldc]) else old(C[p])
    ensures forall p | 0 <= p < C.Length && !InColumn(p, j, n, ldc) :: C[p] == old(C[p])
  {
    ghost var C0 := C[..];
    ghost var S := RowOf(C0, ldc, j, n);
    var base := j * ldc;
    ColumnInBuffer(j, n, ldc, C.Length);
    for i := j + 1 to n
      invariant forall p | 0 <= p < C.Length ::
                  C[p] == if base + j + 1 <= p < base + i then Conj(S[p - base]) else C0[p]
    {
      LaterColumnEntry(j, i, n, ldc, C.Length);
      C[base + i] := Conj(C[j + i * ldc]);
    }
  }

}
