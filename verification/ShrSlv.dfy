/** The in-place solver for the triangular Sylvester equation: it walks over the pairs of
    diagonal blocks, columns outermost, subtracts what is already known and solves what is left. */
module ShrSlv {
  import opened Matrices
  import opened Sylvester
  import opened SmallSystems
  import opened SylvesterSingularity

  /** Where the code stands: c holds y, the cells before (k, l) are final and uniquely determined,
      the rest of the current columns has lost the contribution of the final columns, and later
      columns are untouched. */
  ghost predicate Progress(a: Matrix, b: Matrix, y: Matrix, c: Matrix, k: nat, l: nat, le: nat, m: nat, n: nat) {
    && k <= m && l <= le <= n && Shape(y, m, n)
    && RowCut(a, k, m) && ColCut(b, l, n) && ColCut(b, le, n)
    && SolvedBefore(a, b, y, c, k, l, le, m, n)
    && (forall i, j | k <= i < m && l <= j < le :: At(y, i, j) == At(c, i, j) - Dot(y, b, i, j, l))
    && (forall i, j | 0 <= i < m && le <= j < n :: At(y, i, j) == At(c, i, j))
    && Unique(a, b, y, c, k, l, le, m, n)
  }

  ghost predicate Unique(a: Matrix, b: Matrix, y: Matrix, c: Matrix, k: nat, l: nat, le: nat, m: nat, n: nat) {
    forall z: Matrix | SolvesSylvester(a, b, z, c, m, n) :: AgreeBefore(y, z, k, l, le, m, n)
  }

  lemma Start(a: Matrix, b: Matrix, c: Matrix, m: nat, n: nat)
    requires Shape(c, m, n)
    ensures Progress(a, b, c, c, 0, 0, 0, m, n)
  {
  }

  /** The columns of the next block lose the contribution of the finished columns. */
  ghost predicate ColumnsReduced(b: Matrix, y: Matrix, z: Matrix, l: nat, le: nat, m: nat, n: nat) {
    && Shape(z, m, n)
    && (forall i, j | 0 <= i < m && 0 <= j < n && !(l <= j < le) :: At(z, i, j) == At(y, i, j))
    && (forall i, j | 0 <= i < m && l <= j < le :: At(z, i, j) == At(y, i, j) - Dot(y, b, i, j, l))
  }

  lemma ColumnsReducedProgress(a: Matrix, b: Matrix, y: Matrix, z: Matrix, c: Matrix, l: nat, le: nat, m: nat, n: nat)
    requires Progress(a, b, y, c, 0, l, l, m, n) && l <= le <= n && ColCut(b, le, n)
    requires ColumnsReduced(b, y, z, l, le, m, n)
    ensures Progress(a, b, z, c, 0, l, le, m, n)
  {
    SolvedBeforeKept(a, b, y, z, c, 0, l, l, m, n);
    forall i, j | 0 <= i < m && l <= j < le
      ensures At(z, i, j) == At(c, i, j) - Dot(z, b, i, j, l)
    {
      DotAgree(y, b, z, b, i, j, l);
    }
    assert Unique(a, b, z, c, 0, l, le, m, n) by {
      forall s: Matrix | SolvesSylvester(a, b, s, c, m, n)
        ensures AgreeBefore(z, s, 0, l, le, m, n)
      {
        assert AgreeBefore(y, s, 0, l, l, m, n);
      }
    }
  }

  /** When the row cursor reaches the end, the columns of the block are finished. */
  lemma ColumnsFinished(a: Matrix, b: Matrix, y: Matrix, c: Matrix, l: nat, le: nat, m: nat, n: nat)
    requires Progress(a, b, y, c, m, l, le, m, n)
    ensures Progress(a, b, y, c, 0, le, le, m, n)
  {
    assert Unique(a, b, y, c, 0, le, le, m, n) by {
      forall s: Matrix | SolvesSylvester(a, b, s, c, m, n)
        ensures AgreeBefore(y, s, 0, le, le, m, n)
      {
        assert AgreeBefore(y, s, m, l, le, m, n);
      }
    }
  }

  /** The rows of the next block lose the contribution of the finished rows. */
  ghost predicate RowsReduced(a: Matrix, y: Matrix, r: Matrix, k: nat, ke: nat, l: nat, le: nat, m: nat, n: nat) {
    && Shape(r, m, n)
    && (forall i, j | 0 <= i < m && 0 <= j < n && !(k <= i < ke && l <= j < le) :: At(r, i, j) == At(y, i, j))
    && (forall i, j | k <= i < ke && l <= j < le :: At(r, i, j) == At(y, i, j) - Dot(a, y, i, j, k))
  }

  lemma BlockUnique(a: Matrix, b: Matrix, y: Matrix, r: Matrix, z: Matrix, c: Matrix,
                    k: nat, ke: nat, l: nat, le: nat, m: nat, n: nat)
    requires IsBlock(k, ke) && IsBlock(l, le) && RowCut(a, ke, m) && ColCut(b, le, n)
    requires Unique(a, b, y, c, k, l, le, m, n) && AgreeBefore(y, z, k, l, le, m, n)
    requires Remainder(a, b, y, c, r, k, ke, l, le) && BlockDone(a, b, r, z, k, ke, l, le, m, n)
    ensures Unique(a, b, z, c, ke, l, le, m, n)
  {
    forall s: Matrix | SolvesSylvester(a, b, s, c, m, n)
      ensures AgreeBefore(z, s, ke, l, le, m, n)
    {
      assert AgreeBefore(y, s, k, l, le, m, n);
      SolutionSolvesBlock(a, b, y, s, c, r, k, ke, l, le, m, n);
      assert BlockAgrees(s, z, k, ke, l, le);
    }
  }

  lemma BlockProgress(a: Matrix, b: Matrix, y: Matrix, r: Matrix, z: Matrix, c: Matrix,
                      k: nat, ke: nat, l: nat, le: nat, m: nat, n: nat)
    requires Progress(a, b, y, c, k, l, le, m, n)
    requires IsBlock(k, ke) && IsBlock(l, le) && ke <= m && RowCut(a, ke, m) && Shape(z, m, n)
    requires RowsReduced(a, y, r, k, ke, l, le, m, n) && BlockDone(a, b, r, z, k, ke, l, le, m, n)
    ensures Progress(a, b, z, c, ke, l, le, m, n)
  {
    assert AgreeBefore(y, z, k, l, le, m, n);
    assert Remainder(a, b, y, c, r, k, ke, l, le);
    assert BlockAgrees(z, z, k, ke, l, le);
    assert BlockSolves(a, b, z, r, k, ke, l, le);
    BlockFinishes(a, b, y, z, c, r, k, ke, l, le, m, n);
    BlockUnique(a, b, y, r, z, c, k, ke, l, le, m, n);
    forall i, j | ke <= i < m && l <= j < le
      ensures At(z, i, j) == At(c, i, j) - Dot(z, b, i, j, l)
    {
      DotAgree(y, b, z, b, i, j, l);
    }
  }

  // ---------- the code ----------

  method SubtractColumnTerms(b: array2<real>, c: array2<real>, i: nat, j: nat, l: nat, ghost b0: Matrix, ghost y: Matrix, ghost m: nat, ghost n: nat)
    requires b != c && HoldsUpper(b, b0, n) && i < m && l <= j < n && m <= c.Length0 && n <= c.Length1
    requires forall q | 0 <= q < l :: c[i, q] == At(y, i, q)
    modifies c
    ensures c[i, j] == old(c[i, j]) - Dot(y, b0, i, j, l)
    ensures forall p, q | 0 <= p < m && 0 <= q < n && (p != i || q != j) :: c[p, q] == old(c[p, q])
  {
    var ib := 0;
    while ib < l
      invariant 0 <= ib <= l
      invariant c[i, j] == old(c[i, j]) - Dot(y, b0, i, j, ib)
      invariant forall p, q | 0 <= p < m && 0 <= q < n && (p != i || q != j) :: c[p, q] == old(c[p, q])
    {
      c[i, j] := c[i, j] - c[i, ib] * b[ib, j];
      ib := ib + 1;
    }
  }

  method SubtractColumns(b: array2<real>, c: array2<real>, l: nat, le: nat, ghost b0: Matrix, ghost y: Matrix, m: nat, n: nat)
    returns (ghost z: Matrix)
    requires b != c && HoldsUpper(b, b0, n) && Holds(c, y, m, n) && l <= le <= n
    modifies c
    ensures Holds(c, z, m, n) && ColumnsReduced(b0, y, z, l, le, m, n)
  {
    var j := l;
    while j < le
      invariant l <= j <= le
      invariant forall p, q | 0 <= p < m && 0 <= q < n && !(l <= q < j) :: c[p, q] == At(y, p, q)
      invariant forall p, q | 0 <= p < m && l <= q < j :: c[p, q] == At(y, p, q) - Dot(y, b0, p, q, l)
    {
      var i := 0;
      while i < m
        invariant 0 <= i <= m
        invariant forall p, q | 0 <= p < m && 0 <= q < n && !(l <= q < j) && (q != j || p >= i) :: c[p, q] == At(y, p, q)
        invariant forall p, q | 0 <= p < m && l <= q < j :: c[p, q] == At(y, p, q) - Dot(y, b0, p, q, l)
        invariant forall p | 0 <= p < i :: c[p, j] == At(y, p, j) - Dot(y, b0, p, j, l)
      {
        SubtractColumnTerms(b, c, i, j, l, b0, y, m, n);
        i := i + 1;
      }
      j := j + 1;
    }
    z := View(c, m, n);
  }

  method SubtractRowTerms(a: array2<real>, c: array2<real>, i: nat, j: nat, k: nat, ghost a0: Matrix, ghost y: Matrix, ghost m: nat, ghost n: nat)
    requires a != c && HoldsLower(a, a0, m) && k <= i < m && j < n && m <= c.Length0 && n <= c.Length1
    requires forall p | 0 <= p < k :: c[p, j] == At(y, p, j)
    modifies c
    ensures c[i, j] == old(c[i, j]) - Dot(a0, y, i, j, k)
    ensures forall p, q | 0 <= p < m && 0 <= q < n && (p != i || q != j) :: c[p, q] == old(c[p, q])
  {
    var ja := 0;
    while ja < k
      invariant 0 <= ja <= k
      invariant c[i, j] == old(c[i, j]) - Dot(a0, y, i, j, ja)
      invariant forall p, q | 0 <= p < m && 0 <= q < n && (p != i || q != j) :: c[p, q] == old(c[p, q])
    {
      c[i, j] := c[i, j] - a[i, ja] * c[ja, j];
      ja := ja + 1;
    }
  }

  method SubtractRows(a: array2<real>, c: array2<real>, k: nat, ke: nat, l: nat, le: nat, ghost a0: Matrix, ghost y: Matrix, m: nat, n: nat)
    returns (ghost z: Matrix)
    requires a != c && HoldsLower(a, a0, m) && Holds(c, y, m, n) && k <= ke <= m && l <= le <= n
    modifies c
    ensures Holds(c, z, m, n) && RowsReduced(a0, y, z, k, ke, l, le, m, n)
  {
    var i := k;
    while i < ke
      invariant k <= i <= ke
      invariant forall p, q | 0 <= p < m && 0 <= q < n && !(k <= p < i && l <= q < le) :: c[p, q] == At(y, p, q)
      invariant forall p, q | k <= p < i && l <= q < le :: c[p, q] == At(y, p, q) - Dot(a0, y, p, q, k)
    {
      var j := l;
      while j < le
        invariant l <= j <= le
        invariant forall p, q | 0 <= p < m && 0 <= q < n && !(k <= p < i && l <= q < le) && !(p == i && l <= q < j) :: c[p, q] == At(y, p, q)
        invariant forall p, q | k <= p < i && l <= q < le :: c[p, q] == At(y, p, q) - Dot(a0, y, p, q, k)
        invariant forall q | l <= q < j :: c[i, q] == At(y, i, q) - Dot(a0, y, i, q, k)
      {
        SubtractRowTerms(a, c, i, j, k, a0, y, m, n);
        j := j + 1;
      }
      i := i + 1;
    }
    z := View(c, m, n);
  }

  /** One pair of diagonal blocks. */
  method SolveCell(m: nat, n: nat, a: array2<real>, b: array2<real>, c: array2<real>, k: nat, dk: nat, l: nat, dl: nat,
                   ghost a0: Matrix, ghost b0: Matrix, ghost c0: Matrix, ghost y: Matrix)
    returns (ok: bool, ghost z: Matrix)
    requires c != a && c != b && HoldsLower(a, a0, m) && HoldsUpper(b, b0, n) && Holds(c, y, m, n)
    requires 1 <= dk <= 2 && 1 <= dl <= 2 && k + dk <= m && l + dl <= n && RowCut(a0, k + dk, m)
    requires Progress(a0, b0, y, c0, k, l, l + dl, m, n)
    modifies c
    ensures ok ==> Holds(c, z, m, n) && Progress(a0, b0, z, c0, k + dk, l, l + dl, m, n)
    ensures !ok ==> BlockSingular(a0, b0, k, k + dk, l, l + dl)
  {
    ghost var r := SubtractRows(a, c, k, k + dk, l, l + dl, a0, y, m, n);
    ok, z := SolveBlock(a, b, c, k, dk, l, dl, a0, b0, r, m, n);
    if ok {
      BlockProgress(a0, b0, y, r, z, c0, k, k + dk, l, l + dl, m, n);
    }
  }

  /** All row blocks of one column block.  The bounds m and n are inclusive, as in the source. */
  method SolveColumns(m: nat, n: nat, a: array2<real>, b: array2<real>, c: array2<real>, l: nat, dl: nat,
                      ghost a0: Matrix, ghost b0: Matrix, ghost c0: Matrix, ghost y: Matrix)
    returns (ok: bool, ghost z: Matrix)
    requires c != a && c != b && HoldsLower(a, a0, m + 1) && HoldsUpper(b, b0, n + 1) && Holds(c, y, m + 1, n + 1)
    requires LowerQuasi(a0, m + 1) && UpperQuasi(b0, n + 1) && l <= n && dl == ColBlock(b0, l, n + 1)
    requires Progress(a0, b0, y, c0, 0, l, l + dl, m + 1, n + 1)
    modifies c
    ensures ok ==> Holds(c, z, m + 1, n + 1) && Progress(a0, b0, z, c0, m + 1, l, l + dl, m + 1, n + 1)
    ensures !ok ==> SylvesterSingular(a0, b0, m + 1, n + 1)
  {
    z := y;
    var k := 0;
    while k <= m
      invariant 0 <= k <= m + 1 && Holds(c, z, m + 1, n + 1)
      invariant Progress(a0, b0, z, c0, k, l, l + dl, m + 1, n + 1)
    {
      var dk := 1;
      if k != m && a[k, k + 1] != 0.0 {
        dk := 2;
      }
      assert dk == RowBlock(a0, k, m + 1);
      NextRowCut(a0, k, m + 1);
      ok, z := SolveCell(m + 1, n + 1, a, b, c, k, dk, l, dl, a0, b0, c0, z);
      if !ok {
        SingularBlockSingular(a0, b0, k, l, m + 1, n + 1);
        return;
      }
      k := k + dk;
    }
    ok := true;
  }

  /** The columns of a block lose the contribution of the finished columns. */
  method ReduceBlock(b: array2<real>, c: array2<real>, l: nat, le: nat, ghost a0: Matrix, ghost b0: Matrix, ghost c0: Matrix,
                     ghost y: Matrix, m: nat, n: nat) returns (ghost v: Matrix)
    requires c != b && HoldsUpper(b, b0, n) && Holds(c, y, m, n) && l <= le <= n && ColCut(b0, le, n)
    requires Progress(a0, b0, y, c0, 0, l, l, m, n)
    modifies c
    ensures Holds(c, v, m, n) && Progress(a0, b0, v, c0, 0, l, le, m, n)
  {
    v := SubtractColumns(b, c, l, le, b0, y, m, n);
    ColumnsReducedProgress(a0, b0, y, v, c0, l, le, m, n);
  }

  /** One block of columns, from the subtraction of the finished columns to its last row. */
  method SolveColumnBlock(m: nat, n: nat, a: array2<real>, b: array2<real>, c: array2<real>, l: nat, dl: nat,
                          ghost a0: Matrix, ghost b0: Matrix, ghost c0: Matrix, ghost y: Matrix)
    returns (ok: bool, ghost z: Matrix)
    requires c != a && c != b && HoldsLower(a, a0, m + 1) && HoldsUpper(b, b0, n + 1) && Holds(c, y, m + 1, n + 1)
    requires LowerQuasi(a0, m + 1) && UpperQuasi(b0, n + 1) && l <= n && dl == ColBlock(b0, l, n + 1)
    requires Progress(a0, b0, y, c0, 0, l, l, m + 1, n + 1)
    modifies c
    ensures ok ==> Holds(c, z, m + 1, n + 1) && Progress(a0, b0, z, c0, 0, l + dl, l + dl, m + 1, n + 1)
    ensures !ok ==> SylvesterSingular(a0, b0, m + 1, n + 1)
  {
    NextColCut(b0, l, n + 1);
    ghost var v := ReduceBlock(b, c, l, l + dl, a0, b0, c0, y, m + 1, n + 1);
    ok, z := SolveColumns(m, n, a, b, c, l, dl, a0, b0, c0, v);
    if ok {
      ColumnsFinished(a0, b0, z, c0, l, l + dl, m + 1, n + 1);
    }
  }

  /** When it returns, c holds the one and only solution of A Y + Y B = C; it gives up exactly
      when the equation is singular, so that no method could have done better. */
  method Shrslv(m: nat, n: nat, a: array2<real>, b: array2<real>, c: array2<real>,
                ghost a0: Matrix, ghost b0: Matrix, ghost c0: Matrix) returns (ok: bool, ghost z: Matrix)
    requires c != a && c != b && HoldsLower(a, a0, m + 1) && HoldsUpper(b, b0, n + 1) && Holds(c, c0, m + 1, n + 1)
    requires LowerQuasi(a0, m + 1) && UpperQuasi(b0, n + 1)
    modifies c
    ensures ok ==> Holds(c, z, m + 1, n + 1) && OnlySolution(a0, b0, z, c0, m + 1, n + 1)
    ensures ok <==> !SylvesterSingular(a0, b0, m + 1, n + 1)
  {
    z := c0;
    Start(a0, b0, c0, m + 1, n + 1);
    var l := 0;
    while l <= n
      invariant 0 <= l <= n + 1 && Holds(c, z, m + 1, n + 1)
      invariant Progress(a0, b0, z, c0, 0, l, l, m + 1, n + 1)
    {
      var dl := 1;
      if l != n && b[l + 1, l] != 0.0 {
        dl := 2;
      }
      assert dl == ColBlock(b0, l, n + 1);
      ok, z := SolveColumnBlock(m, n, a, b, c, l, dl, a0, b0, c0, z);
      if !ok {
        return;
      }
      l := l + dl;
    }
    ok := true;
    AllDone(a0, b0, z, c0, m + 1, n + 1);
  }

  lemma AllDone(a: Matrix, b: Matrix, y: Matrix, c: Matrix, m: nat, n: nat)
    requires Progress(a, b, y, c, 0, n, n, m, n)
    ensures OnlySolution(a, b, y, c, m, n)
    ensures !SylvesterSingular(a, b, m, n)
  {
    assert SolvesSylvester(a, b, y, c, m, n);
    forall z: Matrix | SolvesSylvester(a, b, z, c, m, n)
      ensures z == y
    {
      assert AgreeBefore(y, z, 0, n, n, m, n);
      SameEntries(y, z, m, n);
    }
    UniqueNotSingular(a, b, y, c, m, n);
  }
}
