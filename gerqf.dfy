/** Blocked RQ factorization driver `gerqf` of an m-by-n matrix A, with
    k = min(m, n) reflectors. The loop runs j2 = 0, nb, 2nb, ... and factors,
    bottom-up, the panel of rows [m - j2 - ib, m - j2) restricted to columns
    [0, n - j2) with `gerq2`; while rows remain above the panel it forms the
    block reflector in the leading ib-by-ib block of an nb-by-nb workspace
    matrix TT with `larft` and applies it to those rows with `larfb`. */
module Gerqf {
  import opened Scalars
  import opened Blocking
  import opened Slices

  /** Rows of the panel visited for block b of the loop over j2: the row
      range [m - j2 - ib, m - j2). */
  function PanelTop(b: Block, m: nat): int
  {
    m - b.start - b.width
  }

  /** Row r lies in the panel of block b. */
  predicate InPanel(b: Block, m: nat, r: nat)
  {
    PanelTop(b, m) <= r < m - b.start
  }

  /** The panels visited from the bottom partition rows [m - k, m): each of
      these rows lies in exactly one panel, and every panel lies inside
      [m - k, m). Taking m = k gives the same fact for the slices
      [k - j2 - ib, k - j2) of tau that receive the panels' scalar factors. */
  lemma PanelsPartitionRows(m: nat, k: nat, nb: nat, r: nat)
    requires nb >= 1 && k <= m && m - k <= r < m
    ensures var bs := Blocks(k, nb, 0);
      && (exists t | 0 <= t < |bs| :: InPanel(bs[t], m, r))
      && (forall t1, t2 | 0 <= t1 < |bs| && 0 <= t2 < |bs| && InPanel(bs[t1], m, r) && InPanel(bs[t2], m, r) :: t1 == t2)
  {
    var bs := Blocks(k, nb, 0);
    BlocksPartition(k, nb, m - 1 - r);
    forall t | 0 <= t < |bs|
      ensures InPanel(bs[t], m, r) <==> Holds(bs[t], m - 1 - r)
    {
    }
  }

  /** Every panel is between 1 and nb rows high and lies inside
      [m - k, m); panel t spans columns [0, n - t * nb), so each panel is
      nb columns narrower than the one before it. */
  lemma PanelsShape(m: nat, n: nat, nb: nat)
    requires nb >= 1
    ensures var k := Min(m, n); var bs := Blocks(k, nb, 0);
      forall t | 0 <= t < |bs| ::
        && 1 <= bs[t].width <= nb
        && m - k <= PanelTop(bs[t], m)
        && bs[t].start == t * nb
        && n - bs[t].start >= bs[t].width
  {
    BlocksShape(Min(m, n), nb, 0);
  }

  /** `larft`/`larfb` run exactly when rows remain above the panel: for
      every panel when m > n, and for every panel but the top one (the last
      visited) when m <= n. */
  lemma UpdateIffRowsAbove(m: nat, n: nat, nb: nat)
    requires nb >= 1
    ensures var k := Min(m, n); var bs := Blocks(k, nb, 0);
      forall t | 0 <= t < |bs| :: PanelTop(bs[t], m) > 0 <==> (m > n || t < |bs| - 1)
  {
    var k := Min(m, n);
    var bs := Blocks(k, nb, 0);
    BlocksShape(k, nb, 0);
    BlocksDisjoint(k, nb, 0);
    forall t | 0 <= t < |bs|
      ensures PanelTop(bs[t], m) > 0 <==> (m > n || t < |bs| - 1)
    {
      if t < |bs| - 1 {
        assert bs[t].start + bs[t].width <= bs[t + 1].start;
      }
    }
  }

  /** `gerq2` on A11 = A(j..j+ib, 0..cols), writing the scalar factors to
      tau[lo .. lo + ib). */
  method Gerq2(A: array2<Complex>, tau: array<Complex>, j: nat, ib: nat, cols: nat, lo: nat)
    requires j + ib <= A.Length0 && cols <= A.Length1 && lo + ib <= tau.Length
    modifies A, tau
    ensures forall r, c | 0 <= r < A.Length0 && 0 <= c < A.Length1 && !InBlock(r, c, j, j + ib, 0, cols) ::
      A[r, c] == old(A[r, c])
    ensures forall p | 0 <= p < tau.Length && !(lo <= p < lo + ib) :: tau[p] == old(tau[p])
  {
    WriteBlock(A, j, j + ib, 0, cols);
    WriteRange(tau, lo, lo + ib);
  }

  /** `larft` (Backward, Rowwise) into TT1 = TT(0..ib, 0..ib). */
  method Larft(TT: array2<Complex>, ib: nat)
    requires ib <= TT.Length0 && ib <= TT.Length1
    modifies TT
    ensures forall r, c | 0 <= r < TT.Length0 && 0 <= c < TT.Length1 && !InBlock(r, c, 0, ib, 0, ib) ::
      TT[r, c] == old(TT[r, c])
  {
    WriteBlock(TT, 0, ib, 0, ib);
  }

  /** `larfb` (Right, NoTrans, Backward, Rowwise) on A12 = A(0..j, 0..cols). */
  method Larfb(A: array2<Complex>, j: nat, cols: nat)
    requires j <= A.Length0 && cols <= A.Length1
    modifies A
    ensures forall r, c | 0 <= r < A.Length0 && 0 <= c < A.Length1 && !InBlock(r, c, 0, j, 0, cols) ::
      A[r, c] == old(A[r, c])
  {
    WriteBlock(A, 0, j, 0, cols);
  }

  /** The loop body for the panel of block Block(j2, ib): `gerq2` on the
      panel, then, while rows remain above it, `larft` and `larfb`. A changes
      only in A(0..m-j2, 0..n-j2), whose columns shrink by nb per panel: the
      rows below the panel, the columns from n - j2 on and the entries of
      tau outside the panel's slice keep their values. */
  method Panel(A: array2<Complex>, tau: array<Complex>, TT: array2<Complex>, k: nat, j2: nat, ib: nat)
    requires TT.Length0 >= ib && TT.Length1 >= ib
    requires j2 + ib <= k && k == Min(A.Length0, A.Length1) && k <= tau.Length
    modifies A, tau, TT
    ensures forall r, c | A.Length0 - j2 <= r < A.Length0 && 0 <= c < A.Length1 :: A[r, c] == old(A[r, c])
    ensures forall r, c | 0 <= r < A.Length0 && 0 <= c < A.Length1 && !InBlock(r, c, 0, A.Length0 - j2, 0, A.Length1 - j2) ::
      A[r, c] == old(A[r, c])
    ensures forall p | 0 <= p < tau.Length && !(k - j2 - ib <= p < k - j2) :: tau[p] == old(tau[p])
  {
    var m, n := A.Length0, A.Length1;
    var j := m - j2 - ib;
    Gerq2(A, tau, j, ib, n - j2, k - j2 - ib);
    if j > 0 {
      Larft(TT, ib);
      Larfb(A, j, n - j2);
    }
  }

  /** One iteration of the loop with its bookkeeping: the panel's scalar
      factors and rows are prepended to those of the panels below it, which
      keep their values; entries of tau from k on are never written. */
  method Step(A: array2<Complex>, tau: array<Complex>, TT: array2<Complex>, k: nat, nb: nat, j2: nat,
              ghost taus: seq<Complex>, ghost rows: seq<seq<Complex>>, ghost tau0: seq<Complex>)
    returns (ghost taus': seq<Complex>, ghost rows': seq<seq<Complex>>)
    requires TT.Length0 == nb && TT.Length1 == nb
    requires j2 < k && k == Min(A.Length0, A.Length1) && k <= tau.Length
    requires |taus| == |rows| == j2
    requires SlotsHold(tau, taus, k - j2) && RowsHold(A, rows, A.Length0 - j2) && TailKept(tau, tau0, k)
    modifies A, tau, TT
    ensures var ib := Min(nb, k - j2);
      |taus'| == |rows'| == j2 + ib && SlotsHold(tau, taus', k - j2 - ib) && RowsHold(A, rows', A.Length0 - j2 - ib)
    ensures taus'[Min(nb, k - j2)..] == taus && rows'[Min(nb, k - j2)..] == rows
    ensures TailKept(tau, tau0, k)
  {
    var m := A.Length0;
    var ib := Min(nb, k - j2);
    Panel(A, tau, TT, k, j2, ib);
    assert SlotsHold(tau, taus, k - j2) by {
      forall p | 0 <= p < |taus| ensures tau[k - j2 + p] == taus[p] {
        assert tau[k - j2 + p] == old(tau[k - j2 + p]);
      }
    }
    assert RowsHold(A, rows, m - j2) by {
      forall r, c | m - j2 <= r < m - j2 + |rows| && 0 <= c < A.Length1 ensures A[r, c] == rows[r - (m - j2)][c] {
        assert A[r, c] == old(A[r, c]);
      }
    }
    SlotsPrepend(tau, taus, k - j2, ib);
    RowsPrepend(A, rows, m - j2, ib);
    taus' := tau[k - j2 - ib .. k - j2] + taus;
    rows' := Rows(A, m - j2 - ib, ib) + rows;
  }

  /** Entries of tau from k on hold the values of the snapshot tau0. */
  predicate TailKept(tau: array<Complex>, tau0: seq<Complex>, k: nat)
    reads tau
  {
    |tau0| == tau.Length && forall p | k <= p < tau.Length :: tau[p] == tau0[p]
  }

  /** The panel loop, once the check on tau has passed. */
  method Factor(A: array2<Complex>, tau: array<Complex>, nb: nat)
    returns (ghost panels: seq<Block>, ghost taus: seq<Complex>, ghost rows: seq<seq<Complex>>)
    requires tau.Length >= Min(A.Length0, A.Length1)
    requires Min(A.Length0, A.Length1) > 0 ==> nb >= 1
    modifies A, tau
    ensures Min(A.Length0, A.Length1) > 0 ==> panels == Blocks(Min(A.Length0, A.Length1), nb, 0)
    ensures |taus| == |rows| == Min(A.Length0, A.Length1)
    ensures forall p | 0 <= p < |taus| :: tau[p] == taus[p]
    ensures RowsHold(A, rows, A.Length0 - Min(A.Length0, A.Length1))
    ensures forall p | Min(A.Length0, A.Length1) <= p < tau.Length :: tau[p] == old(tau[p])
  {
    var m, n := A.Length0, A.Length1;
    var k := Min(m, n);
    panels, taus, rows := [], [], [];
    if k == 0 {
      // The loop below runs no iteration.
      return;
    }
    ghost var tau0 := tau[..];
    var TT := new Complex[nb, nb];
    var j2 := 0;
    while j2 < k
      invariant panels + Blocks(k, nb, j2) == Blocks(k, nb, 0)
      invariant |taus| == |rows| == Min(j2, k)
      invariant SlotsHold(tau, taus, k - Min(j2, k)) && RowsHold(A, rows, m - Min(j2, k))
      invariant TailKept(tau, tau0, k)
      decreases k - j2
    {
      taus, rows := Step(A, tau, TT, k, nb, j2, taus, rows, tau0);
      BlocksAdvance(panels, k, nb, j2);
      panels := panels + [Block(j2, Min(nb, k - j2))];
      j2 := j2 + nb;
    }
    assert SlotsHold(tau, taus, 0);
  }

  /** The driver. It fails, writing nothing, when tau has fewer than
      k = min(m, n) entries. Otherwise it visits Blocks(k, nb, 0) in order,
      each panel's rows and scalar factors are final once it is done (later
      panels never touch them), the scalar factors fill tau[0 .. k) and the
      rest of tau is left alone, and it returns 0. */
  method Gerqf(A: array2<Complex>, tau: array<Complex>, nb: nat)
    returns (ok: bool, ghost panels: seq<Block>, ghost taus: seq<Complex>, ghost rows: seq<seq<Complex>>)
    requires tau.Length >= Min(A.Length0, A.Length1) && Min(A.Length0, A.Length1) > 0 ==> nb >= 1
    modifies A, tau
    ensures ok <==> tau.Length >= Min(A.Length0, A.Length1)
    ensures !ok ==> unchanged(A) && unchanged(tau)
    ensures ok && Min(A.Length0, A.Length1) > 0 ==> panels == Blocks(Min(A.Length0, A.Length1), nb, 0)
    ensures ok ==> |taus| == |rows| == Min(A.Length0, A.Length1)
    ensures ok ==> forall p | 0 <= p < |taus| :: tau[p] == taus[p]
    ensures ok ==> RowsHold(A, rows, A.Length0 - Min(A.Length0, A.Length1))
    ensures forall p | Min(A.Length0, A.Length1) <= p < tau.Length :: tau[p] == old(tau[p])
  {
    panels, taus, rows := [], [], [];
    if tau.Length < Min(A.Length0, A.Length1) {
      return false, panels, taus, rows;
    }
    ok := true;
    panels, taus, rows := Factor(A, tau, nb);
  }
}
