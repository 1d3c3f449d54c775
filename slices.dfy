/** Rectangular slices of a matrix (`slice(A, range(r0, r1), range(c0, c1))`)
    and the numerical kernels whose code is not part of this model. Such a
    kernel is modelled by its frame alone: it may leave any value in the
    entries of the slices it writes, and it leaves every other entry as it
    was. */
module Slices {
  import opened Scalars

  /** Entry (r, c) lies in rows [r0, r1) and columns [c0, c1). */
  predicate InBlock(r: nat, c: nat, r0: nat, r1: nat, c0: nat, c1: nat)
  {
    r0 <= r < r1 && c0 <= c < c1
  }

  /** Any values in the block rows [r0, r1) x columns [c0, c1) of M. */
  method WriteBlock(M: array2<Complex>, r0: nat, r1: nat, c0: nat, c1: nat)
    requires r1 <= M.Length0 && c1 <= M.Length1
    modifies M
    ensures forall r, c | 0 <= r < M.Length0 && 0 <= c < M.Length1 && !InBlock(r, c, r0, r1, c0, c1) ::
      M[r, c] == old(M[r, c])
  {
    var values: (int, int) -> Complex := *;
    forall r, c | r0 <= r < r1 && c0 <= c < c1 {
      M[r, c] := values(r, c);
    }
  }

  /** Any values on the diagonal of the size-by-size block at (r0, c0). */
  method WriteDiagonal(M: array2<Complex>, r0: nat, c0: nat, size: nat)
    requires r0 + size <= M.Length0 && c0 + size <= M.Length1
    modifies M
    ensures forall r, c | 0 <= r < M.Length0 && 0 <= c < M.Length1 && !(InBlock(r, c, r0, r0 + size, c0, c0 + size) && r - r0 == c - c0) ::
      M[r, c] == old(M[r, c])
  {
    var values: int -> Complex := *;
    forall q | 0 <= q < size {
      M[r0 + q, c0 + q] := values(q);
    }
  }

  /** Any values strictly above the diagonal of the size-by-size block at (r0, c0). */
  method WriteStrictUpper(M: array2<Complex>, r0: nat, c0: nat, size: nat)
    requires r0 + size <= M.Length0 && c0 + size <= M.Length1
    modifies M
    ensures forall r, c | 0 <= r < M.Length0 && 0 <= c < M.Length1 && !(InBlock(r, c, r0, r0 + size, c0, c0 + size) && r - r0 < c - c0) ::
      M[r, c] == old(M[r, c])
  {
    var values: (int, int) -> Complex := *;
    forall r, c | r0 <= r < r0 + size && c0 <= c < c0 + size && r - r0 < c - c0 {
      M[r, c] := values(r, c);
    }
  }

  /** Any values in positions [lo, hi) of v. */
  method WriteRange(v: array<Complex>, lo: nat, hi: nat)
    requires hi <= v.Length
    modifies v
    ensures forall p | 0 <= p < v.Length && !(lo <= p < hi) :: v[p] == old(v[p])
  {
    var values: int -> Complex := *;
    forall p | lo <= p < hi {
      v[p] := values(p);
    }
  }

  /** The values `vals` fill v[lo .. lo + |vals|). */
  predicate SlotsHold(v: array<Complex>, vals: seq<Complex>, lo: nat)
    reads v
  {
    lo + |vals| <= v.Length && forall p | 0 <= p < |vals| :: v[lo + p] == vals[p]
  }

  /** Rows [top, top + |rows|) of A hold `rows`, entry by entry. */
  predicate RowsHold(A: array2<Complex>, rows: seq<seq<Complex>>, top: nat)
    reads A
  {
    top + |rows| <= A.Length0 &&
    (forall p | 0 <= p < |rows| :: |rows[p]| == A.Length1) &&
    forall r, c | top <= r < top + |rows| && 0 <= c < A.Length1 :: A[r, c] == rows[r - top][c]
  }

  /** The current values of rows [top, top + count) of A. */
  function Rows(A: array2<Complex>, top: nat, count: nat): (rows: seq<seq<Complex>>)
    requires top + count <= A.Length0
    reads A
    ensures |rows| == count
    ensures forall p | 0 <= p < count :: |rows[p]| == A.Length1
    ensures forall r, c | top <= r < top + count && 0 <= c < A.Length1 :: rows[r - top][c] == A[r, c]
  {
    seq(count, p requires 0 <= p < count reads A =>
      seq(A.Length1, c requires 0 <= c < A.Length1 reads A => A[top + p, c]))
  }

  /** All entries of M, row by row. */
  function Entries(M: array2<Complex>): (e: seq<seq<Complex>>)
    reads M
    ensures |e| == M.Length0
    ensures forall r | 0 <= r < M.Length0 :: |e[r]| == M.Length1 && forall c | 0 <= c < M.Length1 :: e[r][c] == M[r, c]
  {
    seq(M.Length0, r requires 0 <= r < M.Length0 reads M =>
      seq(M.Length1, c requires 0 <= c < M.Length1 reads M => M[r, c]))
  }

  /** Rows read from just above rows that already hold their values extend
      them upwards. */
  lemma RowsPrepend(A: array2<Complex>, rows: seq<seq<Complex>>, top: nat, count: nat)
    requires count <= top && RowsHold(A, rows, top)
    ensures RowsHold(A, Rows(A, top - count, count) + rows, top - count)
  {
    var all := Rows(A, top - count, count) + rows;
    forall r, c | top <= r < top + |rows| && 0 <= c < A.Length1
      ensures A[r, c] == all[r - (top - count)][c]
    {
      assert all[r - (top - count)] == rows[r - top];
    }
  }

  /** A slice read from just below slots that already hold their values
      extends them downwards. */
  lemma SlotsPrepend(v: array<Complex>, vals: seq<Complex>, lo: nat, count: nat)
    requires count <= lo && SlotsHold(v, vals, lo)
    ensures SlotsHold(v, v[lo - count .. lo] + vals, lo - count)
  {
    var all := v[lo - count .. lo] + vals;
    forall p | count <= p < |all|
      ensures v[lo - count + p] == all[p]
    {
      assert all[p] == vals[p - count];
    }
  }

  /** Rows read from just below rows that already hold their values extend
      them downwards. */
  lemma RowsAppend(A: array2<Complex>, rows: seq<seq<Complex>>, top: nat, count: nat)
    requires RowsHold(A, rows, top) && top + |rows| + count <= A.Length0
    ensures RowsHold(A, rows + Rows(A, top + |rows|, count), top)
  {
    var all := rows + Rows(A, top + |rows|, count);
    forall r, c | top + |rows| <= r < top + |all| && 0 <= c < A.Length1
      ensures A[r, c] == all[r - top][c]
    {
      assert all[r - top] == Rows(A, top + |rows|, count)[r - (top + |rows|)];
    }
  }
}
