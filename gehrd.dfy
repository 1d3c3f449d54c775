/** Blocked reduction of a square matrix to upper Hessenberg form, `gehrd`,
    on the active rows and columns [ilo, ihi). While more than nx columns
    remain, it reduces nb columns at a time: `lahr2` reduces the block and
    forms the matrices T and Y, `gemm` applies the block reflector from the
    right to the columns after the block, `trmm` and a loop of `axpy`
    update the top rows of the block's columns, and `larfb` applies the
    reflector from the left to the rows below. The remaining columns are
    reduced by the unblocked `gehd2`. Index arithmetic is on `size_t`, which
    wraps modulo 2^64. */
module Gehrd {
  import opened Scalars
  import opened Blocking
  import opened Slices

  /** `size_t` subtraction a - b, modulo 2^64. */
  const SizeModulus: nat := 0x1_0000_0000_0000_0000

  function SizeSub(a: nat, b: nat): (d: nat)
    ensures d < SizeModulus
    ensures b <= a < b + SizeModulus ==> d == a - b
    ensures a < b && b - a <= SizeModulus ==> d == SizeModulus - (b - a)
  {
    (a - b) % SizeModulus
  }

  /** The options: block size nb and crossover nx_switch to unblocked code. */
  datatype GehrdOpts = GehrdOpts(nb: nat, nxSwitch: nat)

  const DefaultOpts: GehrdOpts := GehrdOpts(32, 128)

  /** nb = min(opts.nb, ihi - ilo - 1), the subtraction in size_t. */
  function BlockSize(opts: GehrdOpts, ilo: nat, ihi: nat): nat
  {
    Min(opts.nb, SizeSub(SizeSub(ihi, ilo), 1))
  }

  /** nx = max(nb, opts.nx_switch). */
  function Crossover(opts: GehrdOpts, ilo: nat, ihi: nat): nat
  {
    Max(BlockSize(opts, ilo, ihi), opts.nxSwitch)
  }

  /** The block size is opts.nb capped by the ihi - ilo - 1 columns after
      the first active one; when ihi <= ilo the subtraction wraps to a huge
      value and the block size is opts.nb itself. The crossover is never
      below the block size. */
  lemma BlockSizeCases(opts: GehrdOpts, ilo: nat, ihi: nat)
    requires ihi < SizeModulus && ilo + opts.nb < SizeModulus - 1
    ensures ilo < ihi ==> BlockSize(opts, ilo, ihi) == Min(opts.nb, ihi - ilo - 1)
    ensures ihi <= ilo ==> BlockSize(opts, ilo, ihi) == opts.nb
    ensures BlockSize(opts, ilo, ihi) <= Crossover(opts, ilo, ihi)
    ensures opts.nxSwitch <= Crossover(opts, ilo, ihi)
  {
    if ihi < ilo {
      assert SizeSub(ihi, ilo) == SizeModulus - (ilo - ihi);
      assert SizeSub(SizeSub(ihi, ilo), 1) == SizeModulus - (ilo - ihi) - 1;
    } else if ihi == ilo {
      assert SizeSub(SizeSub(ihi, ilo), 1) == SizeModulus - 1;
    }
  }

  /** A workspace request: an m-by-n block of bytes. */
  datatype WorkInfo = WorkInfo(m: nat, n: nat)

  /** The workspace query `gehrd_worksize` for an n-by-n matrix, with
      elements of `elemBytes` bytes. */
  function Worksize(opts: GehrdOpts, ilo: nat, ihi: nat, n: nat, elemBytes: nat): WorkInfo
  {
    var nb := BlockSize(opts, ilo, ihi);
    WorkInfo(elemBytes * (n + nb), nb)
  }

  /** The query asks for exactly the bytes of the n-by-nb matrix Y and the
      nb-by-nb matrix T that the driver carves out of the workspace, with the
      same nb as the driver. */
  lemma WorksizeHoldsYAndT(opts: GehrdOpts, ilo: nat, ihi: nat, n: nat, elemBytes: nat)
    ensures var w := Worksize(opts, ilo, ihi, n, elemBytes); var nb := BlockSize(opts, ilo, ihi);
      w.n == nb && w.m * w.n == elemBytes * (n * nb) + elemBytes * (nb * nb)
  {
    var nb := BlockSize(opts, ilo, ihi);
    calc {
      elemBytes * (n + nb) * nb;
      elemBytes * (n * nb + nb * nb);
      elemBytes * (n * nb) + elemBytes * (nb * nb);
    }
  }

  /** The argument checks: ilo < n, ihi <= n, A square, and at least n - 1
      entries in tau (all of them pass or the call fails). */
  predicate ChecksPass(ilo: nat, ihi: nat, rows: nat, n: nat, tauLen: nat)
  {
    !(ilo >= n) && !(ihi > n) && rows == n && !(tauLen < SizeSub(n, 1))
  }

  /** The loop condition `i + nx < ihi - 1` as written, in size_t. */
  predicate LoopTestAsWritten(i: nat, nx: nat, ihi: nat)
  {
    i + nx < SizeSub(ihi, 1)
  }

  /** The loop condition as evidently intended: more than nx + 1 columns
      remain before ihi. */
  predicate LoopTest(i: nat, nx: nat, ihi: nat)
  {
    i + nx + 1 < ihi
  }

  /** With ihi >= 1 the two conditions agree. */
  lemma LoopTestsAgree(i: nat, nx: nat, ihi: nat)
    requires 1 <= ihi < SizeModulus
    ensures LoopTestAsWritten(i, nx, ihi) <==> LoopTest(i, nx, ihi)
  {
  }

  /** The checks accept ihi == 0 (for instance ilo = ihi = 0 with n = 1),
      and then `ihi - 1` wraps to 2^64 - 1: the blocked loop is entered with
      the default options, and its first block V = A(i+1..ihi, i..i+nb2)
      has the inverted row range [1, 0). */
  lemma ZeroIhiEntersLoop(ilo: nat, ihi: nat, n: nat, tauLen: nat, opts: GehrdOpts)
    requires ilo == 0 && ihi == 0 && n == 1 && tauLen == 0 && opts == DefaultOpts
    ensures ChecksPass(ilo, ihi, n, n, tauLen)
    ensures LoopTestAsWritten(ilo, Crossover(opts, ilo, ihi), ihi)
    ensures ilo + 1 > ihi
  {
  }

  /** With the intended test the loop is never entered with an empty or
      inverted row range: every block found by the test has i + 1 < ihi
      and at least one column. */
  lemma IntendedTestKeepsRangesOrdered(i: nat, nx: nat, ihi: nat, nb: nat)
    requires LoopTest(i, nx, ihi) && nb >= 1
    ensures i + 1 < ihi && 1 <= Min(nb, ihi - i - 1)
  {
  }

  /** The blocks visited from column i: block width nb2 = min(nb, ihi - i - 1). */
  function HessBlocks(i: nat, ihi: nat, nb: nat, nx: nat): seq<Block>
    requires nb >= 1 || !LoopTest(i, nx, ihi)
    decreases ihi - i
  {
    if LoopTest(i, nx, ihi) then [Block(i, Min(nb, ihi - i - 1))] + HessBlocks(i + nb, ihi, nb, nx) else []
  }

  /** The column at which the unblocked `gehd2` starts. */
  function UnblockedStart(i: nat, ihi: nat, nb: nat, nx: nat): nat
    requires nb >= 1 || !LoopTest(i, nx, ihi)
    decreases ihi - i
  {
    if LoopTest(i, nx, ihi) then UnblockedStart(i + nb, ihi, nb, nx) else i
  }

  /** Since nx >= nb, every block is exactly nb columns wide; block t
      starts at from + t * nb; each block leaves at least one row below it
      (i + nb2 < ihi, so the `gemm` branch is always taken); the blocks are
      followed by the unblocked start, which is the first column where the
      test fails and, when some block ran, still lies before ihi - 1. */
  lemma {:induction false} HessBlocksShape(from: nat, ihi: nat, nb: nat, nx: nat)
    requires 1 <= nb <= nx
    ensures var bs := HessBlocks(from, ihi, nb, nx); var u := UnblockedStart(from, ihi, nb, nx);
      && (forall t | 0 <= t < |bs| ::
            && bs[t].start == from + t * nb
            && bs[t].width == nb
            && LoopTest(bs[t].start, nx, ihi)
            && bs[t].start + bs[t].width < ihi)
      && u == from + |bs| * nb
      && !LoopTest(u, nx, ihi)
      && (|bs| > 0 ==> u + 1 < ihi)
    decreases ihi - from
  {
    if LoopTest(from, nx, ihi) {
      var bs := HessBlocks(from, ihi, nb, nx);
      var rest := HessBlocks(from + nb, ihi, nb, nx);
      HessBlocksShape(from + nb, ihi, nb, nx);
      assert bs == [Block(from, nb)] + rest;
      forall t | 1 <= t < |bs|
        ensures bs[t].start == from + t * nb
      {
        assert bs[t] == rest[t - 1];
        assert (from + nb) + (t - 1) * nb == from + t * nb;
      }
      assert (from + nb) + |rest| * nb == from + |bs| * nb;
    }
  }

  /** `lahr2` on A2 = A(0..ihi, i..ihi): it writes A2, the nb2 scalar
      factors of the block to tau[i .. i + nb2), T_s = T(0..nb2, 0..nb2)
      and Y_s = Y(0..n, 0..nb2). */
  method Lahr2(A: array2<Complex>, tau: array<Complex>, T: array2<Complex>, Y: array2<Complex>, i: nat, nb2: nat, ihi: nat)
    requires ihi <= A.Length0 && ihi <= A.Length1 && i + nb2 <= tau.Length
    requires nb2 <= T.Length0 && nb2 <= T.Length1 && nb2 <= Y.Length1
    requires A != T && A != Y && T != Y
    modifies A, tau, T, Y
    ensures forall r, c | 0 <= r < A.Length0 && 0 <= c < A.Length1 && !InBlock(r, c, 0, ihi, i, ihi) ::
      A[r, c] == old(A[r, c])
    ensures forall p | 0 <= p < tau.Length && !(i <= p < i + nb2) :: tau[p] == old(tau[p])
    ensures forall r, c | 0 <= r < T.Length0 && 0 <= c < T.Length1 && !InBlock(r, c, 0, nb2, 0, nb2) ::
      T[r, c] == old(T[r, c])
    ensures forall r, c | 0 <= r < Y.Length0 && 0 <= c < Y.Length1 && !(c < nb2) :: Y[r, c] == old(Y[r, c])
  {
    WriteBlock(A, 0, ihi, i, ihi);
    WriteRange(tau, i, i + nb2);
    WriteBlock(T, 0, nb2, 0, nb2);
    WriteBlock(Y, 0, Y.Length0, 0, nb2);
  }

  /** `gemm` computing A3 := A3 - Y_2 * V2^H on A3 = A(0..ihi, i+nb2..ihi).
      It needs the entry V(nb2-1, nb2-1) = A(i+nb2, i+nb2-1) to read 1. */
  method Gemm(A: array2<Complex>, i: nat, nb2: nat, ihi: nat)
    requires 1 <= nb2 && i + nb2 < ihi <= A.Length0 && ihi <= A.Length1
    requires A[i + nb2, i + nb2 - 1] == One
    modifies A
    ensures forall r, c | 0 <= r < A.Length0 && 0 <= c < A.Length1 && !InBlock(r, c, 0, ihi, i + nb2, ihi) ::
      A[r, c] == old(A[r, c])
  {
    WriteBlock(A, 0, ihi, i + nb2, ihi);
  }

  /** Lines applying the block reflector from the right to the columns after
      the block: the entry A(i+nb2, i+nb2-1) is saved, set to 1 for `gemm`,
      and restored, so it ends with its value from before, and only
      A(0..ihi, i+nb2..ihi) changes. */
  method ApplyRight(A: array2<Complex>, i: nat, nb2: nat, ihi: nat)
    requires 1 <= nb2 && i + nb2 < ihi <= A.Length0 && ihi <= A.Length1
    modifies A
    ensures A[i + nb2, i + nb2 - 1] == old(A[i + nb2, i + nb2 - 1])
    ensures forall r, c | 0 <= r < A.Length0 && 0 <= c < A.Length1 && !InBlock(r, c, 0, ihi, i + nb2, ihi) ::
      A[r, c] == old(A[r, c])
  {
    var ei := A[i + nb2, i + nb2 - 1];
    A[i + nb2, i + nb2 - 1] := One;
    Gemm(A, i, nb2, ihi);
    A[i + nb2, i + nb2 - 1] := ei;
  }

  /** `trmm` computing Y_s := Y_s * V1^H in place on Y(0..n, 0..nb2). */
  method Trmm(Y: array2<Complex>, nb2: nat)
    requires nb2 <= Y.Length1
    modifies Y
    ensures forall r, c | 0 <= r < Y.Length0 && 0 <= c < Y.Length1 && !(c < nb2) :: Y[r, c] == old(Y[r, c])
  {
    WriteBlock(Y, 0, Y.Length0, 0, nb2);
  }

  /** `axpy(-1, Y(0..rows, src), A(0..rows, dst))`: column dst of A loses
      column src of Y in its first `rows` entries. */
  method Axpy(A: array2<Complex>, Y: array2<Complex>, rows: nat, src: nat, dst: nat)
    requires A != Y
    requires rows <= A.Length0 && rows <= Y.Length0 && src < Y.Length1 && dst < A.Length1
    modifies A
    ensures forall r | 0 <= r < rows :: A[r, dst] == Add(Scale(-1.0, Y[r, src]), old(A[r, dst]))
    ensures forall r, c | 0 <= r < A.Length0 && 0 <= c < A.Length1 && !(r < rows && c == dst) :: A[r, c] == old(A[r, c])
  {
    forall r | 0 <= r < rows {
      A[r, dst] := Add(Scale(-1.0, Y[r, src]), A[r, dst]);
    }
  }

  /** The axpy loop: for j < nb2 - 1, column i+j+1 of A loses column j of Y
      in rows 0..i+1; exactly the columns i+1 .. i+nb2-1 of the top i + 1
      rows change. */
  method UpdateTopRows(A: array2<Complex>, Y: array2<Complex>, i: nat, nb2: nat)
    requires A != Y
    requires 1 <= nb2 && i + nb2 <= A.Length1 && i + 1 <= A.Length0 && i + 1 <= Y.Length0 && nb2 <= Y.Length1
    modifies A
    ensures forall r, c | 0 <= r < i + 1 && i + 1 <= c < i + nb2 ::
      A[r, c] == Add(Scale(-1.0, Y[r, c - i - 1]), old(A[r, c]))
    ensures forall r, c | 0 <= r < A.Length0 && 0 <= c < A.Length1 && !InBlock(r, c, 0, i + 1, i + 1, i + nb2) ::
      A[r, c] == old(A[r, c])
  {
    for j := 0 to nb2 - 1
      invariant forall r, c | 0 <= r < i + 1 && i + 1 <= c < i + 1 + j ::
        A[r, c] == Add(Scale(-1.0, Y[r, c - i - 1]), old(A[r, c]))
      invariant forall r, c | 0 <= r < A.Length0 && 0 <= c < A.Length1 && !InBlock(r, c, 0, i + 1, i + 1, i + 1 + j) ::
        A[r, c] == old(A[r, c])
    {
      Axpy(A, Y, i + 1, j, i + j + 1);
    }
  }

  /** `larfb` (Left, ConjTrans, Forward, Columnwise) on A5 = A(i+1..ihi, i+nb2..n). */
  method Larfb(A: array2<Complex>, i: nat, nb2: nat, ihi: nat)
    requires ihi <= A.Length0
    modifies A
    ensures forall r, c | 0 <= r < A.Length0 && 0 <= c < A.Length1 && !InBlock(r, c, i + 1, ihi, i + nb2, A.Length1) ::
      A[r, c] == old(A[r, c])
  {
    WriteBlock(A, i + 1, ihi, i + nb2, A.Length1);
  }

  /** `gehd2(i, ihi, A, tau)`, the unblocked reduction of the columns from
      i on: it writes A(0..ihi, i..n) and the scalar factors tau[i .. ihi - 1). */
  method Gehd2(A: array2<Complex>, tau: array<Complex>, i: nat, ihi: nat)
    requires 1 <= ihi <= A.Length0 && ihi - 1 <= tau.Length
    modifies A, tau
    ensures forall r, c | 0 <= r < A.Length0 && 0 <= c < A.Length1 && !InBlock(r, c, 0, ihi, i, A.Length1) ::
      A[r, c] == old(A[r, c])
    ensures forall p | 0 <= p < tau.Length && !(i <= p < ihi - 1) :: tau[p] == old(tau[p])
  {
    WriteBlock(A, 0, ihi, i, A.Length1);
    WriteRange(tau, i, ihi - 1);
  }

  /** One pass of the blocked loop on the block of columns [i, i + nb2):
      nothing changes left of column i or from row ihi down, and tau
      changes only in the block's slots [i, i + nb2). */
  method ReduceBlock(A: array2<Complex>, tau: array<Complex>, T: array2<Complex>, Y: array2<Complex>, i: nat, nb: nat, ihi: nat)
    requires A != T && A != Y && T != Y
    requires A.Length0 == A.Length1 == Y.Length0 && ihi <= A.Length0 && ihi - 1 <= tau.Length
    requires 1 <= nb && nb <= T.Length0 && nb <= T.Length1 && nb <= Y.Length1
    requires LoopTest(i, nb, ihi)
    modifies A, tau, T, Y
    ensures forall r, c | 0 <= r < A.Length0 && 0 <= c < A.Length1 && !InBlock(r, c, 0, ihi, i, A.Length1) ::
      A[r, c] == old(A[r, c])
    ensures forall p | 0 <= p < tau.Length && !(i <= p < i + Min(nb, ihi - i - 1)) :: tau[p] == old(tau[p])
  {
    var nb2 := Min(nb, ihi - i - 1);
    Lahr2(A, tau, T, Y, i, nb2, ihi);
    if i + nb2 < ihi {
      ApplyRight(A, i, nb2, ihi);
    }
    Trmm(Y, nb2);
    UpdateTopRows(A, Y, i, nb2);
    Larfb(A, i, nb2, ihi);
  }

  /** As written, lahr2 receives tau2 = tau(i..ihi), but the checks accept
      a tau of n - 1 entries: with n = 3, ilo = 0, ihi = 3, a tau of 2
      entries and options nb = 1, nx_switch = 0, the checks pass, the loop
      is entered at i = 0, and the slice [0, 3) runs past the end of tau. */
  lemma TauSliceOverrunsVector(ilo: nat, ihi: nat, n: nat, tauLen: nat, opts: GehrdOpts)
    requires n == 3 && ilo == 0 && ihi == 3 && tauLen == 2 && opts == GehrdOpts(1, 0)
    ensures ChecksPass(ilo, ihi, n, n, tauLen)
    ensures LoopTestAsWritten(ilo, Crossover(opts, ilo, ihi), ihi)
    ensures ihi > tauLen
  {
  }

  /** The slots a block's scalar factors actually need, tau[i .. i + nb2),
      always fit in a tau accepted by the checks: i + nb2 <= ihi - 1 <= n - 1. */
  lemma BlockTauSlotsFit(ilo: nat, ihi: nat, n: nat, tauLen: nat, i: nat, nb: nat, nx: nat)
    requires n < SizeModulus && ChecksPass(ilo, ihi, n, n, tauLen) && LoopTest(i, nx, ihi)
    ensures i + Min(nb, ihi - i - 1) <= ihi - 1 <= tauLen
  {
  }

  /** Columns [lo, lo + |cols|) of A hold `cols`, entry by entry. */
  predicate ColumnsHold(A: array2<Complex>, cols: seq<seq<Complex>>, lo: nat)
    reads A
  {
    lo + |cols| <= A.Length1 &&
    forall q | 0 <= q < |cols| :: |cols[q]| == A.Length0 && forall r | 0 <= r < A.Length0 :: A[r, lo + q] == cols[q][r]
  }

  /** The current values of columns [lo, lo + count) of A. */
  function Columns(A: array2<Complex>, lo: nat, count: nat): (cols: seq<seq<Complex>>)
    requires lo + count <= A.Length1
    reads A
    ensures |cols| == count
  {
    seq(count, q requires 0 <= q < count reads A =>
      seq(A.Length0, r requires 0 <= r < A.Length0 reads A => A[r, lo + q]))
  }

  /** A agrees with A0 left of column ilo and from row ihi down; tau agrees
      with tau0 before ilo and from ihi - 1 on. */
  predicate OutsideKept(A: array2<Complex>, A0: seq<seq<Complex>>, tau: array<Complex>, tau0: seq<Complex>, ilo: nat, ihi: nat)
    reads A, tau
  {
    && |A0| == A.Length0 && |tau0| == tau.Length
    && (forall r, c | 0 <= r < A.Length0 && 0 <= c < A.Length1 && (c < ilo || r >= ihi) :: c < |A0[r]| && A[r, c] == A0[r][c])
    && (forall p | 0 <= p < tau.Length && (p < ilo || p >= ihi - 1) :: tau[p] == tau0[p])
  }

  /** One iteration of the blocked loop with its bookkeeping: the block at
      column i is reduced, its scalar factors and columns are appended to
      those of the earlier blocks, which keep their values, and nothing left
      of ilo, below ihi or in tau outside [ilo, ihi - 1) changes. */
  method Advance(A: array2<Complex>, tau: array<Complex>, T: array2<Complex>, Y: array2<Complex>,
                 ilo: nat, ihi: nat, nb: nat, nx: nat, i: nat,
                 ghost taus: seq<Complex>, ghost cols: seq<seq<Complex>>, ghost A0: seq<seq<Complex>>, ghost tau0: seq<Complex>)
    returns (ghost taus': seq<Complex>, ghost cols': seq<seq<Complex>>)
    requires A != T && A != Y && T != Y
    requires A.Length0 == A.Length1 == Y.Length0 && ihi <= A.Length0 && ihi - 1 <= tau.Length
    requires 1 <= nb <= nx && nb <= T.Length0 && nb <= T.Length1 && nb <= Y.Length1
    requires LoopTest(i, nx, ihi) && ilo <= i && |taus| == |cols| == i - ilo
    requires SlotsHold(tau, taus, ilo) && ColumnsHold(A, cols, ilo) && OutsideKept(A, A0, tau, tau0, ilo, ihi)
    modifies A, tau, T, Y
    ensures |taus'| == |cols'| == i + nb - ilo
    ensures taus'[..|taus|] == taus && cols'[..|cols|] == cols
    ensures SlotsHold(tau, taus', ilo) && ColumnsHold(A, cols', ilo) && OutsideKept(A, A0, tau, tau0, ilo, ihi)
  {
    assert Min(nb, ihi - i - 1) == nb;
    ReduceBlock(A, tau, T, Y, i, nb, ihi);
    taus' := taus + tau[i .. i + nb];
    cols' := cols + Columns(A, i, nb);
  }

  /** The driver. It fails, writing nothing, when a check fails. Otherwise
      it reduces the blocks HessBlocks(ilo, ihi, nb, nx) in order, hands the
      columns from UnblockedStart(ilo, ihi, nb, nx) on to `gehd2`, and
      returns 0: each block's columns and scalar factors are final once the
      block is done, and nothing left of column ilo, from row ihi down, or
      in tau outside [ilo, ihi - 1) changes. */
  method Gehrd(ilo: nat, ihi: nat, A: array2<Complex>, tau: array<Complex>, opts: GehrdOpts)
    returns (ok: bool, ghost blocks: seq<Block>, ghost start: nat, ghost taus: seq<Complex>, ghost cols: seq<seq<Complex>>)
    requires A.Length1 < SizeModulus
    requires ChecksPass(ilo, ihi, A.Length0, A.Length1, tau.Length) ==> 1 <= ihi
    requires ChecksPass(ilo, ihi, A.Length0, A.Length1, tau.Length) && BlockSize(opts, ilo, ihi) == 0 ==>
      !LoopTest(ilo, Crossover(opts, ilo, ihi), ihi)
    modifies A, tau
    ensures ok == ChecksPass(ilo, ihi, A.Length0, A.Length1, tau.Length)
    ensures !ok ==> unchanged(A) && unchanged(tau)
    ensures ok && BlockSize(opts, ilo, ihi) >= 1 ==>
      && blocks == HessBlocks(ilo, ihi, BlockSize(opts, ilo, ihi), Crossover(opts, ilo, ihi))
      && start == UnblockedStart(ilo, ihi, BlockSize(opts, ilo, ihi), Crossover(opts, ilo, ihi))
    ensures ok ==> ilo <= start && |taus| == |cols| == start - ilo
    ensures ok ==> SlotsHold(tau, taus, ilo) && ColumnsHold(A, cols, ilo)
    ensures ok ==> forall r, c | 0 <= r < A.Length0 && 0 <= c < A.Length1 && (c < ilo || r >= ihi) :: A[r, c] == old(A[r, c])
    ensures ok ==> forall p | 0 <= p < tau.Length && (p < ilo || p >= ihi - 1) :: tau[p] == old(tau[p])
  {
    var n := A.Length1;
    blocks, start, taus, cols := [], ilo, [], [];
    if ilo >= n || ihi > n || A.Length0 != n || tau.Length < SizeSub(n, 1) {
      return false, blocks, start, taus, cols;
    }
    ok := true;
    // n >= 1 here, since ilo < n: the quick return for n <= 0 is never taken.
    ghost var A0, tau0 := Entries(A), tau[..];
    blocks, start, taus, cols := Reduce(ilo, ihi, A, tau, BlockSize(opts, ilo, ihi), Max(BlockSize(opts, ilo, ihi), opts.nxSwitch), A0, tau0);
  }

  /** The blocked loop and the hand-off to `gehd2`, once the checks have
      passed, with block size nb and crossover nx. */
  method Reduce(ilo: nat, ihi: nat, A: array2<Complex>, tau: array<Complex>, nb: nat, nx: nat,
                ghost A0: seq<seq<Complex>>, ghost tau0: seq<Complex>)
    returns (ghost blocks: seq<Block>, ghost start: nat, ghost taus: seq<Complex>, ghost cols: seq<seq<Complex>>)
    requires A.Length0 == A.Length1 && ilo < A.Length1 && 1 <= ihi <= A.Length1 && A.Length1 - 1 <= tau.Length
    requires nb <= nx && (nb == 0 ==> !LoopTest(ilo, nx, ihi))
    requires A0 == Entries(A) && tau0 == tau[..]
    modifies A, tau
    ensures nb >= 1 ==> blocks == HessBlocks(ilo, ihi, nb, nx) && start == UnblockedStart(ilo, ihi, nb, nx)
    ensures ilo <= start && |taus| == |cols| == start - ilo
    ensures SlotsHold(tau, taus, ilo) && ColumnsHold(A, cols, ilo) && OutsideKept(A, A0, tau, tau0, ilo, ihi)
  {
    var n := A.Length1;
    blocks, taus, cols := [], [], [];
    var Y := new Complex[n, nb]((r, c) => Zero);
    var T := new Complex[nb, nb];
    var i := ilo;
    while i + nx < ihi - 1
      invariant ilo <= i && |taus| == |cols| == i - ilo
      invariant nb >= 1 ==> i == ilo + |blocks| * nb && blocks + HessBlocks(i, ihi, nb, nx) == HessBlocks(ilo, ihi, nb, nx)
      invariant nb >= 1 ==> UnblockedStart(i, ihi, nb, nx) == UnblockedStart(ilo, ihi, nb, nx)
      invariant SlotsHold(tau, taus, ilo) && ColumnsHold(A, cols, ilo) && OutsideKept(A, A0, tau, tau0, ilo, ihi)
      decreases ihi - i
    {
      taus, cols := Advance(A, tau, T, Y, ilo, ihi, nb, nx, i, taus, cols, A0, tau0);
      assert HessBlocks(i, ihi, nb, nx) == [Block(i, Min(nb, ihi - i - 1))] + HessBlocks(i + nb, ihi, nb, nx);
      assert (blocks + [Block(i, Min(nb, ihi - i - 1))]) + HessBlocks(i + nb, ihi, nb, nx) == blocks + HessBlocks(i, ihi, nb, nx);
      NextMultiple(|blocks|, nb);
      blocks := blocks + [Block(i, Min(nb, ihi - i - 1))];
      i := i + nb;
    }
    start := i;
    Gehd2(A, tau, i, ihi);
  }
}
