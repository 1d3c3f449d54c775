/** Column-major storage: entry (i, j) of a matrix with leading dimension `ld`
    lives at buffer position `i + j * ld`, and a position `p` of an n-by-n
    matrix is the entry (p % ld, p / ld) when both are below n. */
module ColumnMajor {
  import opened Scalars

  /** Entry (i, j) of a column-major buffer. Positions past the end of the
      buffer read as Zero; a call that meets its preconditions never reaches
      them, which the methods prove at each read. */
  function Elem(M: seq<Complex>, ld: nat, i: nat, j: nat): Complex
  {
    if i + j * ld < |M| then M[i + j * ld] else Zero
  }

  /** Buffer position p holds an entry of the leading n-by-n block. */
  predicate InMatrix(p: nat, n: nat, ld: nat)
  {
    ld > 0 && p % ld < n && p / ld < n
  }

  /** The row and column of the entry stored at position p. */
  function Row(p: nat, ld: nat): nat
    requires ld > 0
  {
    p % ld
  }

  function Col(p: nat, ld: nat): nat
    requires ld > 0
  {
    p / ld
  }

  /** Writing entry (i, j) at i + j * ld is undone by `%` and `/`. */
  lemma PositionOf(i: nat, j: nat, ld: nat)
    requires i < ld
    ensures (i + j * ld) % ld == i && (i + j * ld) / ld == j
  {
    var p := i + j * ld;
    var q, r := p / ld, p % ld;
    assert q * ld + r == j * ld + i;
    if q > j {
      MulLe(j + 1, q, ld);
      assert false;
    } else if q < j {
      MulLe(q + 1, j, ld);
      assert false;
    }
  }

  lemma MulLe(a: nat, b: nat, c: nat)
    requires a <= b
    ensures a * c <= b * c
  {
  }

  /** Every entry of a rows-by-cols block with leading dimension ld >= rows
      lies inside a buffer of ld * cols elements. */
  lemma IndexBound(i: nat, j: nat, ld: nat, cols: nat)
    requires i < ld && j < cols
    ensures i + j * ld < ld * cols
    ensures j * ld + ld <= ld * cols
  {
    MulLe(j + 1, cols, ld);
  }

  /** Entry (i, j) of an ld-by-cols block lies inside a buffer of len >= ld * cols elements. */
  lemma EntryInBuffer(i: nat, j: nat, ld: nat, cols: nat, len: nat)
    requires i < ld && j < cols && ld * cols <= len
    ensures i + j * ld < len
  {
    IndexBound(i, j, ld, cols);
  }

  /** The n entries of column j of an n-by-n block lie inside the buffer. */
  lemma ColumnInBuffer(j: nat, n: nat, ld: nat, len: nat)
    requires j < n <= ld && ld * n <= len
    ensures j * ld + n <= len
  {
    IndexBound(0, j, ld, n);
  }

  /** Entry (j, i) of the upper triangle, i > j, lies past column j. */
  lemma LaterColumnEntry(j: nat, i: nat, n: nat, ld: nat, len: nat)
    requires j < i < n <= ld && ld * n <= len
    ensures j * ld + n <= j + i * ld < len
  {
    IndexBound(j, i, ld, n);
    MulLe(j + 1, i, ld);
  }

  /** Row j of the n-by-n block, read across the columns: entry (j, i) at index i. */
  function RowOf(M: seq<Complex>, ld: nat, j: nat, n: nat): (r: seq<Complex>)
    ensures |r| == n
    ensures forall i | 0 <= i < n :: r[i] == Elem(M, ld, j, i)
  {
    seq(n, i requires 0 <= i < n => Elem(M, ld, j, i))
  }

  /** Positions [j * ld, j * ld + n) of the buffer: column j of an n-by-n matrix. */
  predicate InColumn(p: nat, j: nat, n: nat, ld: nat)
  {
    j * ld <= p < j * ld + n
  }

  /** Position p holds an entry of one of the columns 0 .. j-1. */
  predicate BeforeColumn(p: nat, j: nat, n: nat, ld: nat)
  {
    InMatrix(p, n, ld) && p / ld < j
  }

  /** A position is in the window of column j exactly when it holds an entry
      of column j, and its row is then its offset in the window. */
  lemma ColumnWindow(p: nat, j: nat, n: nat, ld: nat)
    requires j < n <= ld
    ensures j * ld + n <= ld * n
    ensures InColumn(p, j, n, ld) <==> InMatrix(p, n, ld) && p / ld == j
    ensures InColumn(p, j, n, ld) ==> p % ld == p - j * ld
    ensures BeforeColumn(p, j + 1, n, ld) <==> BeforeColumn(p, j, n, ld) || InColumn(p, j, n, ld)
  {
    IndexBound(0, j, ld, n);
    if j * ld <= p < j * ld + n {
      PositionOf(p - j * ld, j, ld);
    }
  }

  /** The buffer part-way through a column sweep from C0 towards `final`:
      the columns before j already hold their final values. */
  function ColumnsDone<T>(C0: seq<T>, final: seq<T>, j: nat, n: nat, ld: nat): (r: seq<T>)
    requires |final| == |C0|
    ensures |r| == |C0|
    ensures forall p | 0 <= p < |C0| && !InMatrix(p, n, ld) :: r[p] == C0[p]
  {
    seq(|C0|, p requires 0 <= p < |C0| => if BeforeColumn(p, j, n, ld) then final[p] else C0[p])
  }

  /** Before the sweep nothing has changed. */
  lemma StartColumns<T>(C0: seq<T>, final: seq<T>, n: nat, ld: nat)
    requires |final| == |C0|
    ensures ColumnsDone(C0, final, 0, n, ld) == C0
  {
  }

  /** A buffer that has been brought, column by column, to `final` on the
      columns before j, and that then receives column j, agrees with `final`
      on the columns before j + 1 and with `C0` everywhere else. */
  lemma AdvanceColumn<T>(C0: seq<T>, before: seq<T>, after: seq<T>, final: seq<T>, n: nat, ld: nat, j: nat)
    requires j < n <= ld
    requires |final| == |C0| && before == ColumnsDone(C0, final, j, n, ld) && |after| == |C0|
    requires forall p | 0 <= p < |C0| && InColumn(p, j, n, ld) :: after[p] == final[p]
    requires forall p | 0 <= p < |C0| && !InColumn(p, j, n, ld) :: after[p] == before[p]
    ensures after == ColumnsDone(C0, final, j + 1, n, ld)
  {
    forall p | 0 <= p < |C0|
      ensures after[p] == ColumnsDone(C0, final, j + 1, n, ld)[p]
    {
      ColumnWindow(p, j, n, ld);
    }
  }

  /** Once every column of the n-by-n block has been brought to `final`, the
      whole buffer equals `final`, provided `final` keeps the positions
      outside the block. */
  lemma FinishColumns<T>(C0: seq<T>, final: seq<T>, n: nat, ld: nat)
    requires |final| == |C0|
    requires forall p | 0 <= p < |C0| && !InMatrix(p, n, ld) :: final[p] == C0[p]
    ensures ColumnsDone(C0, final, n, n, ld) == final
  {
  }
}
