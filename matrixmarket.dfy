/** The test suite's matrix generators. The random fills visit the entries
    in column-major order and give each entry of its random pattern a value
    made from the next draws of the generator (one draw for a real element
    type, two for a complex one, real part first); the other entries get a
    fixed sentinel. The conversion of a draw to a real number (a
    single-precision division by max()) is a parameter `scale`. */
module MatrixMarket {
  import opened Scalars
  import opened RandGen

  /** float(0xCAFEBABE): 3405691582 rounded to the nearest single-precision
      value. */
  const TriangleSentinel: real := 3405691648.0

  /** float(0xFA57C0DE): 4200055006 rounded to the nearest single-precision
      value. */
  const HessenbergSentinel: real := 4200055040.0

  /** The shape of a random fill. */
  datatype Fill = Dense | UpperTriangle | LowerTriangle | UpperHessenberg

  datatype Uplo = Upper | Lower | General

  /** `random(uplo, A)` fills the upper triangle for Upper and the lower one
      for any other uplo. */
  function TriangleFill(uplo: Uplo): (f: Fill)
    ensures f == UpperTriangle <==> uplo == Upper
    ensures f == LowerTriangle <==> uplo != Upper
  {
    if uplo == Upper then UpperTriangle else LowerTriangle
  }

  /** Entry (i, j) receives random draws under the fill. */
  predicate IsRandom(fill: Fill, i: nat, j: nat)
  {
    match fill
    case Dense => true
    case UpperTriangle => i <= j
    case LowerTriangle => i >= j
    case UpperHessenberg => i <= j + 1
  }

  /** The value put where the fill draws nothing. */
  function Sentinel(fill: Fill): real
  {
    if fill == UpperHessenberg then HessenbergSentinel else TriangleSentinel
  }

  /** Draws consumed by one random entry: two for complex elements. */
  function DrawsPerEntry(complexEntries: bool): nat
  {
    if complexEntries then 2 else 1
  }

  /** Draws consumed by rows [0, i) of column j. */
  function ColumnDraws(fill: Fill, per: nat, j: nat, i: nat): nat
  {
    if i == 0 then 0 else ColumnDraws(fill, per, j, i - 1) + (if IsRandom(fill, i - 1, j) then per else 0)
  }

  /** Draws consumed by columns [0, j) of an m-row matrix. */
  function DrawsBefore(fill: Fill, per: nat, m: nat, j: nat): nat
  {
    if j == 0 then 0 else DrawsBefore(fill, per, m, j - 1) + ColumnDraws(fill, per, j - 1, m)
  }

  /** The value of a random entry whose draws are calls t, t + 1, ... after
      the state s0. */
  function RandomValue(s0: nat, t: nat, complexEntries: bool, scale: nat -> real): Complex
  {
    if complexEntries then Complex(scale(Draw(s0, t)), scale(Draw(s0, t + 1)))
    else OfReal(scale(Draw(s0, t)))
  }

  /** Entry (i, j) of an m-row matrix filled from the state s0. */
  function Expected(fill: Fill, m: nat, complexEntries: bool, scale: nat -> real, s0: nat, i: nat, j: nat): Complex
  {
    var per := DrawsPerEntry(complexEntries);
    if IsRandom(fill, i, j) then RandomValue(s0, DrawsBefore(fill, per, m, j) + ColumnDraws(fill, per, j, i), complexEntries, scale)
    else OfReal(Sentinel(fill))
  }

  /** A dense fill draws for every row of a column. */
  lemma {:induction false} DenseColumnDraws(per: nat, j: nat, i: nat)
    ensures ColumnDraws(Dense, per, j, i) == per * i
  {
    if i > 0 {
      DenseColumnDraws(per, j, i - 1);
    }
  }

  /** The upper triangle draws for rows up to the diagonal. */
  lemma {:induction false} UpperColumnDraws(per: nat, j: nat, i: nat)
    ensures ColumnDraws(UpperTriangle, per, j, i) == per * (if i <= j + 1 then i else j + 1)
  {
    if i > 0 {
      UpperColumnDraws(per, j, i - 1);
    }
  }

  /** The lower triangle draws for rows from the diagonal on. */
  lemma {:induction false} LowerColumnDraws(per: nat, j: nat, i: nat)
    ensures ColumnDraws(LowerTriangle, per, j, i) == per * (if i <= j then 0 else i - j)
  {
    if i > 0 {
      LowerColumnDraws(per, j, i - 1);
    }
  }

  /** A Hessenberg fill draws for rows up to the first subdiagonal. */
  lemma {:induction false} HessenbergColumnDraws(per: nat, j: nat, i: nat)
    ensures ColumnDraws(UpperHessenberg, per, j, i) == per * (if i <= j + 2 then i else j + 2)
  {
    if i > 0 {
      HessenbergColumnDraws(per, j, i - 1);
    }
  }

  /** In a dense fill of an m-row matrix, entry (i, j), which is number
      i + j * m in column-major order, starts at draw per * (i + j * m). */
  lemma {:induction false} DenseDrawOrder(per: nat, m: nat, j: nat, i: nat)
    ensures DrawsBefore(Dense, per, m, j) + ColumnDraws(Dense, per, j, i) == per * (i + j * m)
  {
    DenseColumnDraws(per, j, i);
    DenseColumnsBefore(per, m, j);
  }

  lemma {:induction false} DenseColumnsBefore(per: nat, m: nat, j: nat)
    ensures DrawsBefore(Dense, per, m, j) == per * (j * m)
  {
    if j > 0 {
      DenseColumnsBefore(per, m, j - 1);
      DenseColumnDraws(per, j - 1, m);
      MulStep(per, j - 1, m);
    }
  }

  /** Filling the first j columns of an n-by-n matrix's upper triangle
      draws per * j(j+1)/2 times; for j = n that is per * n(n+1)/2. */
  lemma {:induction false} UpperTriangleDraws(per: nat, n: nat, j: nat)
    requires j <= n
    ensures 2 * DrawsBefore(UpperTriangle, per, n, j) == per * (j * (j + 1))
  {
    if j > 0 {
      UpperTriangleDraws(per, n, j - 1);
      UpperColumnDraws(per, j - 1, n);
      UpperAlgebra(per, n, j, DrawsBefore(UpperTriangle, per, n, j - 1), ColumnDraws(UpperTriangle, per, j - 1, n));
    }
  }

  /** The lower triangle of the first j columns of an n-by-n matrix draws
      per * j(2n-j+1)/2 times; for j = n that is per * n(n+1)/2 as well. */
  lemma {:induction false} LowerTriangleDraws(per: nat, n: nat, j: nat)
    requires j <= n
    ensures 2 * DrawsBefore(LowerTriangle, per, n, j) == per * (j * (2 * n - j + 1))
  {
    if j > 0 {
      LowerTriangleDraws(per, n, j - 1);
      LowerColumnDraws(per, j - 1, n);
      LowerAlgebra(per, n, j, DrawsBefore(LowerTriangle, per, n, j - 1), ColumnDraws(LowerTriangle, per, j - 1, n));
    }
  }

  lemma UpperAlgebra(per: int, n: int, j: int, before: int, column: int)
    requires 1 <= j <= n
    requires 2 * before == per * ((j - 1) * (j - 1 + 1))
    requires column == per * (if n <= j - 1 + 1 then n else j - 1 + 1)
    ensures 2 * (before + column) == per * (j * (j + 1))
  {
    assert column == per * j;
    assert (j - 1) * j + 2 * j == j * (j + 1);
    assert per * ((j - 1) * j) + per * (2 * j) == per * ((j - 1) * j + 2 * j);
    assert 2 * (per * j) == per * (2 * j);
  }

  lemma LowerAlgebra(per: int, n: int, j: int, before: int, column: int)
    requires 1 <= j <= n
    requires 2 * before == per * ((j - 1) * (2 * n - (j - 1) + 1))
    requires column == per * (if n <= j - 1 then 0 else n - (j - 1))
    ensures 2 * (before + column) == per * (j * (2 * n - j + 1))
  {
    var x := (j - 1) * (2 * n - j + 2);
    var y := n - j + 1;
    assert (j - 1) * (2 * n - (j - 1) + 1) == x;
    assert column == per * y;
    assert x + 2 * y == j * (2 * n - j + 1);
    assert per * x + per * (2 * y) == per * (x + 2 * y);
    assert 2 * (per * y) == per * (2 * y);
  }

  lemma MulStep(per: nat, a: nat, m: nat)
    ensures per * (a * m) + per * m == per * ((a + 1) * m)
  {
    assert (a + 1) * m == a * m + m;
  }

  /** The Hilbert matrix entry 1 / (i + j + 1), computed exactly. */
  function HilbertEntry(i: nat, j: nat): real
  {
    1.0 / (i + j + 1) as real
  }

  /** Hilbert entries are symmetric in i and j, lie in (0, 1], and equal 1
      only at (0, 0). */
  lemma HilbertProperties(i: nat, j: nat)
    ensures HilbertEntry(i, j) == HilbertEntry(j, i)
    ensures 0.0 < HilbertEntry(i, j) <= 1.0
    ensures HilbertEntry(i, j) == 1.0 <==> i == 0 && j == 0
  {
    var d := (i + j + 1) as real;
    assert d >= 1.0;
    assert HilbertEntry(i, j) * d == 1.0;
  }

  /** Columns [0, j) hold their final values. */
  ghost predicate ColumnsFilled(A: array2<Complex>, fill: Fill, complexEntries: bool, scale: nat -> real, s0: nat, j: nat)
    reads A
  {
    forall r, c | 0 <= r < A.Length0 && 0 <= c < j && c < A.Length1 ::
      A[r, c] == Expected(fill, A.Length0, complexEntries, scale, s0, r, c)
  }

  /** Rows [0, i) of column j hold their final values. */
  ghost predicate RowsFilled(A: array2<Complex>, fill: Fill, complexEntries: bool, scale: nat -> real, s0: nat, j: nat, i: nat)
    reads A
  {
    forall r | 0 <= r < i && r < A.Length0 && j < A.Length1 ::
      A[r, j] == Expected(fill, A.Length0, complexEntries, scale, s0, r, j)
  }

  lemma ColumnDone(A: array2<Complex>, fill: Fill, complexEntries: bool, scale: nat -> real, s0: nat, j: nat)
    requires j < A.Length1
    requires ColumnsFilled(A, fill, complexEntries, scale, s0, j)
    requires RowsFilled(A, fill, complexEntries, scale, s0, j, A.Length0)
    ensures ColumnsFilled(A, fill, complexEntries, scale, s0, j + 1)
  {
  }

  /** The generator object with its private random number generator. */
  class Generator {
    var gen: RandGenerator

    ghost predicate Valid()
      reads this, gen
    {
      gen.Valid()
    }

    constructor()
      ensures Valid() && fresh(gen) && gen.state == DefaultSeed
    {
      gen := new RandGenerator();
    }

    /** The double loop shared by the random fills: columns in order, rows
        in order within a column, a random value where the fill draws and the
        sentinel elsewhere. Each entry ends as Expected(...) from the state
        at entry, and the generator has advanced past exactly the draws the
        fill consumed. */
    method FillRandom(fill: Fill, A: array2<Complex>, complexEntries: bool, scale: nat -> real)
      requires Valid()
      modifies A, gen
      ensures Valid() && gen == old(gen)
      ensures forall i, j | 0 <= i < A.Length0 && 0 <= j < A.Length1 ::
        A[i, j] == Expected(fill, A.Length0, complexEntries, scale, old(gen.state), i, j)
      ensures gen.state == Advance(old(gen.state), DrawsBefore(fill, DrawsPerEntry(complexEntries), A.Length0, A.Length1))
    {
      var n := A.Length1;
      ghost var s0 := gen.state;
      for j := 0 to n
        invariant Valid() && gen == old(gen)
        invariant ColumnsFilled(A, fill, complexEntries, scale, s0, j)
        invariant gen.state == Advance(s0, DrawsBefore(fill, DrawsPerEntry(complexEntries), A.Length0, j))
      {
        FillColumn(fill, A, complexEntries, scale, s0, j);
      }
    }

    /** One pass of the outer loop: column j is filled top to bottom. */
    method FillColumn(fill: Fill, A: array2<Complex>, complexEntries: bool, scale: nat -> real, ghost s0: nat, j: nat)
      requires Valid() && j < A.Length1
      requires ColumnsFilled(A, fill, complexEntries, scale, s0, j)
      requires gen.state == Advance(s0, DrawsBefore(fill, DrawsPerEntry(complexEntries), A.Length0, j))
      modifies A, gen
      ensures Valid() && gen == old(gen)
      ensures ColumnsFilled(A, fill, complexEntries, scale, s0, j + 1)
      ensures gen.state == Advance(s0, DrawsBefore(fill, DrawsPerEntry(complexEntries), A.Length0, j + 1))
    {
      var m := A.Length0;
      ghost var per := DrawsPerEntry(complexEntries);
      for i := 0 to m
        invariant Valid() && gen == old(gen)
        invariant ColumnsFilled(A, fill, complexEntries, scale, s0, j)
        invariant RowsFilled(A, fill, complexEntries, scale, s0, j, i)
        invariant gen.state == Advance(s0, DrawsBefore(fill, per, m, j) + ColumnDraws(fill, per, j, i))
      {
        FillEntry(fill, A, complexEntries, scale, s0, i, j);
      }
      assert DrawsBefore(fill, per, m, j + 1) == DrawsBefore(fill, per, m, j) + ColumnDraws(fill, per, j, m);
      ColumnDone(A, fill, complexEntries, scale, s0, j);
    }

    /** One iteration of the fill: entry (i, j) gets its value and the
        generator moves past the entry's draws; nothing else changes. */
    method FillEntry(fill: Fill, A: array2<Complex>, complexEntries: bool, scale: nat -> real, ghost s0: nat, i: nat, j: nat)
      requires Valid() && i < A.Length0 && j < A.Length1
      requires ColumnsFilled(A, fill, complexEntries, scale, s0, j)
      requires RowsFilled(A, fill, complexEntries, scale, s0, j, i)
      requires gen.state == Advance(s0, DrawsBefore(fill, DrawsPerEntry(complexEntries), A.Length0, j)
        + ColumnDraws(fill, DrawsPerEntry(complexEntries), j, i))
      modifies A, gen
      ensures Valid() && gen == old(gen)
      ensures ColumnsFilled(A, fill, complexEntries, scale, s0, j)
      ensures RowsFilled(A, fill, complexEntries, scale, s0, j, i + 1)
      ensures gen.state == Advance(s0, DrawsBefore(fill, DrawsPerEntry(complexEntries), A.Length0, j)
        + ColumnDraws(fill, DrawsPerEntry(complexEntries), j, i + 1))
    {
      ghost var per := DrawsPerEntry(complexEntries);
      ghost var t := DrawsBefore(fill, per, A.Length0, j) + ColumnDraws(fill, per, j, i);
      var v;
      if IsRandom(fill, i, j) {
        v := DrawValue(complexEntries, scale, s0, t);
      } else {
        v := OfReal(Sentinel(fill));
      }
      assert ColumnDraws(fill, per, j, i + 1) == ColumnDraws(fill, per, j, i) + (if IsRandom(fill, i, j) then per else 0);
      assert v == Expected(fill, A.Length0, complexEntries, scale, s0, i, j);
      A[i, j] := v;
      assert ColumnsFilled(A, fill, complexEntries, scale, s0, j) by {
        forall r, c | 0 <= r < A.Length0 && 0 <= c < j && c < A.Length1
          ensures A[r, c] == Expected(fill, A.Length0, complexEntries, scale, s0, r, c)
        {
          assert A[r, c] == old(A[r, c]);
        }
      }
      assert RowsFilled(A, fill, complexEntries, scale, s0, j, i + 1) by {
        forall r | 0 <= r < i + 1 && r < A.Length0
          ensures A[r, j] == Expected(fill, A.Length0, complexEntries, scale, s0, r, j)
        {
          if r < i { assert A[r, j] == old(A[r, j]); }
        }
      }
    }

    /** The value of one random entry: the next draw, or the next two for a
        complex element (real part first). */
    method DrawValue(complexEntries: bool, scale: nat -> real, ghost s0: nat, ghost t: nat) returns (v: Complex)
      requires Valid() && gen.state == Advance(s0, t)
      modifies gen
      ensures Valid()
      ensures v == RandomValue(s0, t, complexEntries, scale)
      ensures gen.state == Advance(s0, t + DrawsPerEntry(complexEntries))
    {
      var x1 := gen.Call();
      DrawAfter(s0, t);
      if complexEntries {
        var x2 := gen.Call();
        DrawAfter(s0, t + 1);
        v := Complex(scale(x1), scale(x2));
      } else {
        v := OfReal(scale(x1));
      }
    }

    /** `random(A)`: every entry random. */
    method Random(A: array2<Complex>, complexEntries: bool, scale: nat -> real)
      requires Valid()
      modifies A, gen
      ensures Valid() && gen == old(gen)
      ensures forall i, j | 0 <= i < A.Length0 && 0 <= j < A.Length1 ::
        A[i, j] == RandomValue(old(gen.state), DrawsPerEntry(complexEntries) * (i + j * A.Length0), complexEntries, scale)
      ensures gen.state == Advance(old(gen.state), DrawsPerEntry(complexEntries) * (A.Length1 * A.Length0))
    {
      FillRandom(Dense, A, complexEntries, scale);
      forall i, j | 0 <= i < A.Length0 && 0 <= j < A.Length1
        ensures DrawsBefore(Dense, DrawsPerEntry(complexEntries), A.Length0, j) + ColumnDraws(Dense, DrawsPerEntry(complexEntries), j, i)
          == DrawsPerEntry(complexEntries) * (i + j * A.Length0)
      {
        DenseDrawOrder(DrawsPerEntry(complexEntries), A.Length0, j, i);
      }
      DenseColumnsBefore(DrawsPerEntry(complexEntries), A.Length0, A.Length1);
    }

    /** `random(uplo, A)`: random values in the triangle chosen by uplo
        (i <= j for Upper, i >= j otherwise), the sentinel
        float(0xCAFEBABE) in the other one. */
    method RandomTriangle(uplo: Uplo, A: array2<Complex>, complexEntries: bool, scale: nat -> real)
      requires Valid()
      modifies A, gen
      ensures Valid() && gen == old(gen)
      ensures forall i, j | 0 <= i < A.Length0 && 0 <= j < A.Length1 ::
        A[i, j] == Expected(TriangleFill(uplo), A.Length0, complexEntries, scale, old(gen.state), i, j)
      ensures forall i, j | 0 <= i < A.Length0 && 0 <= j < A.Length1 && !(if uplo == Upper then i <= j else i >= j) ::
        A[i, j] == OfReal(TriangleSentinel)
      ensures gen.state == Advance(old(gen.state), DrawsBefore(TriangleFill(uplo), DrawsPerEntry(complexEntries), A.Length0, A.Length1))
    {
      FillRandom(TriangleFill(uplo), A, complexEntries, scale);
    }

    /** `hessenberg(A)`: random values on and above the first subdiagonal
        (i <= j + 1), the sentinel float(0xFA57C0DE) below it. */
    method Hessenberg(A: array2<Complex>, complexEntries: bool, scale: nat -> real)
      requires Valid()
      modifies A, gen
      ensures Valid() && gen == old(gen)
      ensures forall i, j | 0 <= i < A.Length0 && 0 <= j < A.Length1 ::
        A[i, j] == Expected(UpperHessenberg, A.Length0, complexEntries, scale, old(gen.state), i, j)
      ensures forall i, j | 0 <= i < A.Length0 && 0 <= j < A.Length1 && i > j + 1 ::
        A[i, j] == OfReal(HessenbergSentinel)
      ensures gen.state == Advance(old(gen.state), DrawsBefore(UpperHessenberg, DrawsPerEntry(complexEntries), A.Length0, A.Length1))
    {
      FillRandom(UpperHessenberg, A, complexEntries, scale);
    }

    /** `hilbert(A)`: A(i, j) = 1 / (i + j + 1); the generator is not used. */
    method Hilbert(A: array2<Complex>)
      modifies A
      ensures forall i, j | 0 <= i < A.Length0 && 0 <= j < A.Length1 :: A[i, j] == OfReal(HilbertEntry(i, j))
    {
      var m, n := A.Length0, A.Length1;
      for j := 0 to n
        invariant forall r, c | 0 <= r < m && 0 <= c < j :: A[r, c] == OfReal(HilbertEntry(r, c))
      {
        for i := 0 to m
          invariant forall r, c | 0 <= r < m && 0 <= c < j :: A[r, c] == OfReal(HilbertEntry(r, c))
          invariant forall r | 0 <= r < i :: A[r, j] == OfReal(HilbertEntry(r, j))
        {
          A[i, j] := OfReal(1.0 / (i + j + 1) as real);
        }
      }
    }

    /** `single_value(A, val)`: every entry becomes val. */
    method SingleValue(A: array2<Complex>, val: Complex)
      modifies A
      ensures forall i, j | 0 <= i < A.Length0 && 0 <= j < A.Length1 :: A[i, j] == val
    {
      var m, n := A.Length0, A.Length1;
      for j := 0 to n
        invariant forall r, c | 0 <= r < m && 0 <= c < j :: A[r, c] == val
      {
        for i := 0 to m
          invariant forall r, c | 0 <= r < m && 0 <= c < j :: A[r, c] == val
          invariant forall r | 0 <= r < i :: A[r, j] == val
        {
          A[i, j] := val;
        }
      }
    }
  }

  /** A call made in state Advance(s0, t) returns draw t after s0. */
  lemma DrawAfter(s0: nat, t: nat)
    ensures Draw(Advance(s0, t), 0) == Draw(s0, t)
    ensures Next(Advance(s0, t)) == Advance(s0, t + 1)
  {
    var s := Advance(s0, t);
    assert Advance(s, 0) == s;
    assert Advance(s, 1) == Next(s);
    assert Advance(s0, t + 1) == Next(s);
  }
}
