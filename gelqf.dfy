/** Blocked LQ factorization driver `gelqf` of an m-by-n matrix A, with
    k = min(m, n) reflectors. The loop factors one panel of at most nb rows
    at a time with `gelq2`, and, when the panel is not the last one, forms
    its block reflector with `larft` and applies it to the rows below with
    `larfb`. The scalar factor of reflector r is kept in TT(r, r mod nb). */
module Gelqf {
  import opened Scalars
  import opened Blocking
  import opened Slices

  /** The argument checks, in the order they are made: -1 when A may not be
      written densely, -2 when TT has fewer than m rows or fewer than nb
      columns, -3 when the workspace has fewer than m entries, 0 when all
      pass. */
  function ErrorCode(denseWritable: bool, m: nat, ttRows: nat, ttCols: nat, nb: nat, workLen: nat): (info: int)
    ensures info in {-3, -2, -1, 0}
    ensures info == 0 <==> denseWritable && m <= ttRows && nb <= ttCols && m <= workLen
    ensures info == -1 <==> !denseWritable
    ensures info == -2 <==> denseWritable && (ttRows < m || ttCols < nb)
    ensures info == -3 <==> denseWritable && m <= ttRows && nb <= ttCols && workLen < m
  {
    if !denseWritable then -1
    else if ttRows < m || ttCols < nb then -2
    else if workLen < m then -3
    else 0
  }

  /** The panel's block reflector is formed and applied to the rows below it
      exactly when the panel ends before `bound`; the loop as written uses
      bound = k. */
  predicate UpdatesBelow(b: Block, bound: nat)
  {
    b.start + b.width < bound
  }

  /** The reflectors of panel b act on row r of an m-row matrix: r is one of
      the panel's own rows, or it lies below the panel and the trailing
      update runs. */
  predicate Reaches(b: Block, r: nat, m: nat, bound: nat)
  {
    Holds(b, r) || (UpdatesBelow(b, bound) && b.start + b.width <= r < m)
  }

  /** With the condition `j + ib < k`, every panel but the last one updates
      the rows below it, and the last one never does. */
  lemma UpdateSkipsOnlyLastPanel(k: nat, nb: nat)
    requires nb >= 1
    ensures var bs := Blocks(k, nb, 0);
      forall t | 0 <= t < |bs| :: UpdatesBelow(bs[t], k) <==> t < |bs| - 1
  {
    var bs := Blocks(k, nb, 0);
    BlocksShape(k, nb, 0);
    BlocksDisjoint(k, nb, 0);
    forall t | 0 <= t < |bs|
      ensures UpdatesBelow(bs[t], k) <==> t < |bs| - 1
    {
      if t < |bs| - 1 {
        assert bs[t].start + bs[t].width <= bs[t + 1].start;
      }
    }
  }

  /** When m > n the loop as written leaves row k out of the last panel's
      transformation: the row lies below that panel, is none of its rows,
      and the trailing update is skipped. */
  lemma LastPanelMissesLowerRows(m: nat, k: nat, nb: nat)
    requires nb >= 1 && 0 < k < m
    ensures var bs := Blocks(k, nb, 0);
      |bs| > 0 && bs[|bs| - 1].start < k && !Reaches(bs[|bs| - 1], k, m, k)
  {
    BlocksShape(k, nb, 0);
  }

  /** With the trailing update run whenever rows remain below the panel
      (`j + ib < m`, as in LAPACK's xGELQF), the reflectors of every panel
      act on every row from the panel's first row to the last row of A. */
  lemma CorrectedPanelsReachAllRows(m: nat, k: nat, nb: nat)
    requires nb >= 1 && k <= m
    ensures var bs := Blocks(k, nb, 0);
      forall t, r | 0 <= t < |bs| && bs[t].start <= r < m :: Reaches(bs[t], r, m, m)
  {
  }

  /** `gelq2` on A11 = A(j..j+ib, j..n), writing the scalar factors on the
      diagonal of TT1 = TT(j..j+ib, 0..ib) and using the workspace. */
  method Gelq2(A: array2<Complex>, TT: array2<Complex>, work: array<Complex>, j: nat, ib: nat, n: nat)
    requires A != TT
    requires j + ib <= A.Length0 && n <= A.Length1 && j + ib <= TT.Length0 && ib <= TT.Length1
    modifies A, TT, work
    ensures forall r, c | 0 <= r < A.Length0 && 0 <= c < A.Length1 && !InBlock(r, c, j, j + ib, j, n) ::
      A[r, c] == old(A[r, c])
    ensures forall r, c | 0 <= r < TT.Length0 && 0 <= c < TT.Length1 && !(InBlock(r, c, j, j + ib, 0, ib) && r - j == c) ::
      TT[r, c] == old(TT[r, c])
  {
    WriteBlock(A, j, j + ib, j, n);
    WriteDiagonal(TT, j, 0, ib);
    WriteRange(work, 0, work.Length);
  }

  /** `larft` (Forward, Rowwise) forms the upper triangular factor TT1 from
      A11 and the scalar factors. The factors it reads are the diagonal of
      TT1 itself, and it stores each factor back on that diagonal, so only
      the entries strictly above the diagonal change. */
  method Larft(TT: array2<Complex>, j: nat, ib: nat)
    requires j + ib <= TT.Length0 && ib <= TT.Length1
    modifies TT
    ensures forall r, c | 0 <= r < TT.Length0 && 0 <= c < TT.Length1 && !(InBlock(r, c, j, j + ib, 0, ib) && r - j < c) ::
      TT[r, c] == old(TT[r, c])
  {
    WriteStrictUpper(TT, j, 0, ib);
  }

  /** `larfb` (Right, NoTrans, Forward, Rowwise) applies the block reflector
      to A12 = A(j+ib..m, j..n), with work1 = TT(j+ib..m, 0..ib) as its
      workspace. */
  method Larfb(A: array2<Complex>, TT: array2<Complex>, j: nat, ib: nat, m: nat, n: nat)
    requires A != TT
    requires j + ib <= m <= A.Length0 && n <= A.Length1 && m <= TT.Length0 && ib <= TT.Length1
    modifies A, TT
    ensures forall r, c | 0 <= r < A.Length0 && 0 <= c < A.Length1 && !InBlock(r, c, j + ib, m, j, n) ::
      A[r, c] == old(A[r, c])
    ensures forall r, c | 0 <= r < TT.Length0 && 0 <= c < TT.Length1 && !InBlock(r, c, j + ib, m, 0, ib) ::
      TT[r, c] == old(TT[r, c])
  {
    WriteBlock(A, j + ib, m, j, n);
    WriteBlock(TT, j + ib, m, 0, ib);
  }

  /** One pass of the loop body on the panel of rows [j, j + ib). The
      scalar factors of its reflectors end on the diagonal of TT1 and are
      returned; rows and columns before j are left alone, and so are the
      rows below the panel when the trailing update is skipped; TT changes
      only in rows [j, m) and columns [0, ib). */
  method Panel(A: array2<Complex>, TT: array2<Complex>, work: array<Complex>, k: nat, j: nat, ib: nat)
    returns (ghost tau: seq<Complex>)
    requires A != TT
    requires A.Length0 <= TT.Length0 && ib <= TT.Length1
    requires j < k && ib <= k - j && k <= A.Length0 && k <= A.Length1
    modifies A, TT, work
    ensures |tau| == ib && forall q | 0 <= q < ib :: TT[j + q, q] == tau[q]
    ensures forall r, c | 0 <= r < A.Length0 && 0 <= c < A.Length1 && (r < j || c < j) :: A[r, c] == old(A[r, c])
    ensures !UpdatesBelow(Block(j, ib), k) ==>
      forall r, c | j + ib <= r < A.Length0 && 0 <= c < A.Length1 :: A[r, c] == old(A[r, c])
    ensures forall r, c | 0 <= r < TT.Length0 && 0 <= c < TT.Length1 && !InBlock(r, c, j, A.Length0, 0, ib) ::
      TT[r, c] == old(TT[r, c])
  {
    var m, n := A.Length0, A.Length1;
    Gelq2(A, TT, work, j, ib, n);
    tau := seq(ib, q requires 0 <= q < ib reads TT => TT[j + q, q]);
    if j + ib < k {
      Larft(TT, j, ib);
      Larfb(A, TT, j, ib, m, n);
    }
  }

  /** The driver. On a failed check it returns the check's code and writes
      nothing. Otherwise it visits the panels Blocks(k, nb, 0) in order,
      each row's values are final once its panel is done (later panels never
      touch it), the scalar factor of reflector r sits at TT(r, r mod nb),
      TT changes only in its leading m-by-nb block, and the result is 0. */
  method Gelqf(A: array2<Complex>, TT: array2<Complex>, work: array<Complex>, nb: nat, denseWritable: bool)
    returns (info: int, ghost panels: seq<Block>, ghost taus: seq<Complex>, ghost rows: seq<seq<Complex>>)
    requires A != TT
    requires ErrorCode(denseWritable, A.Length0, TT.Length0, TT.Length1, nb, work.Length) == 0 && Min(A.Length0, A.Length1) > 0 ==> nb >= 1
    modifies A, TT, work
    ensures info == ErrorCode(denseWritable, A.Length0, TT.Length0, TT.Length1, nb, work.Length)
    ensures info != 0 ==> unchanged(A) && unchanged(TT) && unchanged(work)
    ensures info == 0 && Min(A.Length0, A.Length1) > 0 ==> panels == Blocks(Min(A.Length0, A.Length1), nb, 0)
    ensures info == 0 ==> |taus| == Min(A.Length0, A.Length1)
    ensures info == 0 ==> forall r | 0 <= r < |taus| :: TT[r, r % nb] == taus[r]
    ensures info == 0 ==> |rows| == Min(A.Length0, A.Length1)
    ensures info == 0 ==> RowsHold(A, rows, 0)
    ensures forall r, c | 0 <= r < TT.Length0 && 0 <= c < TT.Length1 && (r >= A.Length0 || c >= nb) ::
      TT[r, c] == old(TT[r, c])
  {
    var m, n := A.Length0, A.Length1;
    var k := Min(m, n);
    panels, taus, rows := [], [], [];
    if !denseWritable {
      return -1, panels, taus, rows;
    }
    if TT.Length0 < m || TT.Length1 < nb {
      return -2, panels, taus, rows;
    }
    if work.Length < m {
      return -3, panels, taus, rows;
    }
    info := 0;
    panels, taus, rows := Factor(A, TT, work, nb);
  }

  /** The scalar factor of reflector r, for each r < |taus|, is at TT(r, r mod nb). */
  predicate TausStored(TT: array2<Complex>, taus: seq<Complex>, nb: nat)
    reads TT
  {
    nb >= 1 && |taus| <= TT.Length0 && nb <= TT.Length1 &&
    forall r | 0 <= r < |taus| :: TT[r, r % nb] == taus[r]
  }

  /** TT agrees with TT0 outside its leading m-by-nb block. */
  predicate OutsideKept(TT: array2<Complex>, TT0: seq<seq<Complex>>, m: nat, nb: nat)
    reads TT
  {
    |TT0| == TT.Length0 &&
    forall r, c | 0 <= r < TT.Length0 && 0 <= c < TT.Length1 && (r >= m || c >= nb) ::
      c < |TT0[r]| && TT[r, c] == TT0[r][c]
  }

  /** One iteration of the panel loop with its bookkeeping: the panel
      starting at j = t * nb is factored, its scalar factors and its rows are
      appended to the ones of the earlier panels, and what was true of the
      earlier panels stays true. */
  method Step(A: array2<Complex>, TT: array2<Complex>, work: array<Complex>, k: nat, nb: nat, j: nat,
              ghost t: nat, ghost taus: seq<Complex>, ghost rows: seq<seq<Complex>>, ghost TT0: seq<seq<Complex>>)
    returns (ghost taus': seq<Complex>, ghost rows': seq<seq<Complex>>)
    requires A != TT
    requires A.Length0 <= TT.Length0 && nb <= TT.Length1 && nb >= 1
    requires j < k && k <= A.Length0 && k <= A.Length1 && j == t * nb
    requires |taus| == |rows| == j
    requires TausStored(TT, taus, nb) && RowsHold(A, rows, 0) && OutsideKept(TT, TT0, A.Length0, nb)
    modifies A, TT, work
    ensures |taus'| == |rows'| == j + Min(nb, k - j)
    ensures taus'[..|taus|] == taus && rows'[..|rows|] == rows
    ensures TausStored(TT, taus', nb) && RowsHold(A, rows', 0) && OutsideKept(TT, TT0, A.Length0, nb)
  {
    var ib := Min(nb, k - j);
    var m := A.Length0;
    ghost var tau := Panel(A, TT, work, k, j, ib);
    taus' := taus + tau;
    assert TausStored(TT, taus', nb) by {
      forall r | 0 <= r < |taus'|
        ensures TT[r, r % nb] == taus'[r]
      {
        if r >= j {
          OffsetInBlock(t, nb, r - j);
        } else {
          assert TT[r, r % nb] == old(TT[r, r % nb]);
        }
      }
    }
    assert OutsideKept(TT, TT0, m, nb) by {
      forall r, c | 0 <= r < TT.Length0 && 0 <= c < TT.Length1 && (r >= m || c >= nb)
        ensures TT[r, c] == old(TT[r, c])
      {
        assert !InBlock(r, c, j, m, 0, ib);
      }
    }
    RowsAppend(A, rows, 0, ib);
    rows' := rows + Rows(A, j, ib);
  }

  /** The panel loop, once the checks have passed. */
  method Factor(A: array2<Complex>, TT: array2<Complex>, work: array<Complex>, nb: nat)
    returns (ghost panels: seq<Block>, ghost taus: seq<Complex>, ghost rows: seq<seq<Complex>>)
    requires A != TT
    requires A.Length0 <= TT.Length0 && nb <= TT.Length1
    requires Min(A.Length0, A.Length1) > 0 ==> nb >= 1
    modifies A, TT, work
    ensures Min(A.Length0, A.Length1) > 0 ==> panels == Blocks(Min(A.Length0, A.Length1), nb, 0)
    ensures |taus| == Min(A.Length0, A.Length1)
    ensures forall r | 0 <= r < |taus| :: TT[r, r % nb] == taus[r]
    ensures |rows| == Min(A.Length0, A.Length1)
    ensures RowsHold(A, rows, 0)
    ensures forall r, c | 0 <= r < TT.Length0 && 0 <= c < TT.Length1 && (r >= A.Length0 || c >= nb) ::
      TT[r, c] == old(TT[r, c])
  {
    var m, n := A.Length0, A.Length1;
    var k := Min(m, n);
    panels, taus, rows := [], [], [];
    if k == 0 {
      // The loop below runs no iteration.
      return;
    }
    ghost var TT0 := Entries(TT);
    var j := 0;
    while j < k
      invariant j == |panels| * nb
      invariant panels + Blocks(k, nb, j) == Blocks(k, nb, 0)
      invariant |taus| == |rows| == Min(j, k)
      invariant TausStored(TT, taus, nb) && RowsHold(A, rows, 0) && OutsideKept(TT, TT0, m, nb)
      decreases k - j
    {
      taus, rows := Step(A, TT, work, k, nb, j, |panels|, taus, rows, TT0);
      BlocksAdvance(panels, k, nb, j);
      NextMultiple(|panels|, nb);
      panels := panels + [Block(j, Min(nb, k - j))];
      j := j + nb;
    }
  }
}
