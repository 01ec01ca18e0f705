/** The equation A Y + Y B = C for a lower quasi-triangular A and an upper quasi-triangular B,
    and how it splits into small systems. */
module Sylvester {
  import opened Matrices

  /** Zero above the first superdiagonal, and no two neighbours on it are both non-zero. */
  ghost predicate LowerQuasi(a: Matrix, m: nat) {
    && (forall i, p | 0 <= i && i + 1 < p < m :: At(a, i, p) == 0.0)
    && (forall i, p, q | 0 <= i && p == i + 1 && q == p + 1 < m :: At(a, i, p) == 0.0 || At(a, p, q) == 0.0)
  }

  ghost predicate UpperQuasi(b: Matrix, n: nat) {
    && (forall q, j | 0 <= j && j + 1 < q < n :: At(b, q, j) == 0.0)
    && (forall j, p, q | 0 <= j && p == j + 1 && q == p + 1 < n :: At(b, p, j) == 0.0 || At(b, q, p) == 0.0)
  }

  /** The array holds the entries on and below the first superdiagonal; what lies above is not read. */
  ghost predicate HoldsLower(a: array2<real>, y: Matrix, m: nat)
    reads a
  {
    m <= a.Length0 && m <= a.Length1 && Shape(y, m, m) &&
    forall i, j | 0 <= i < m && 0 <= j < m && j <= i + 1 :: a[i, j] == At(y, i, j)
  }

  /** The array holds the entries on and above the first subdiagonal; what lies below is not read. */
  ghost predicate HoldsUpper(a: array2<real>, y: Matrix, m: nat)
    reads a
  {
    m <= a.Length0 && m <= a.Length1 && Shape(y, m, m) &&
    forall i, j | 0 <= i < m && 0 <= j < m && i <= j + 1 :: a[i, j] == At(y, i, j)
  }

  /** Entry (i, j) of A Y + Y B. */
  ghost function Lhs(a: Matrix, b: Matrix, y: Matrix, i: int, j: int, m: nat, n: nat): real {
    Dot(a, y, i, j, m) + Dot(y, b, i, j, n)
  }

  ghost predicate SolvesSylvester(a: Matrix, b: Matrix, y: Matrix, c: Matrix, m: nat, n: nat) {
    Shape(y, m, n) && forall i, j | 0 <= i < m && 0 <= j < n :: Lhs(a, b, y, i, j, m, n) == At(c, i, j)
  }

  /** Some non-zero Y has A Y + Y B = 0. */
  ghost predicate SylvesterSingular(a: Matrix, b: Matrix, m: nat, n: nat) {
    exists y: Matrix :: SolvesSylvester(a, b, y, Zero(m, n), m, n) && y != Zero(m, n)
  }

  ghost function Zero(m: nat, n: nat): (z: Matrix)
    ensures Shape(z, m, n) && forall i, j :: At(z, i, j) == 0.0
  {
    seq(m, i requires 0 <= i < m => seq(n, j requires 0 <= j < n => 0.0))
  }

  /** z is the one and only solution. */
  ghost predicate OnlySolution(a: Matrix, b: Matrix, z: Matrix, c: Matrix, m: nat, n: nat) {
    forall y: Matrix :: SolvesSylvester(a, b, y, c, m, n) <==> y == z
  }

  // ---------- cuts between diagonal blocks ----------

  ghost predicate RowCut(a: Matrix, k: nat, m: nat) {
    k <= m && forall i, p | 0 <= i < k <= p < m :: At(a, i, p) == 0.0
  }

  ghost predicate ColCut(b: Matrix, l: nat, n: nat) {
    l <= n && forall q, j | 0 <= j < l <= q < n :: At(b, q, j) == 0.0
  }

  /** The size the code gives the diagonal block at k. */
  function RowBlock(a: Matrix, k: nat, m: nat): nat {
    if k + 1 < m && At(a, k, k + 1) != 0.0 then 2 else 1
  }

  function ColBlock(b: Matrix, l: nat, n: nat): nat {
    if l + 1 < n && At(b, l + 1, l) != 0.0 then 2 else 1
  }

  /** The row cursor never stops inside a block. */
  lemma NextRowCut(a: Matrix, k: nat, m: nat)
    requires LowerQuasi(a, m) && k < m
    ensures RowCut(a, k + RowBlock(a, k, m), m)
  {
    var kk := k + RowBlock(a, k, m);
    if kk < m {
      assert At(a, kk - 1, kk) == 0.0;
    }
  }

  lemma NextColCut(b: Matrix, l: nat, n: nat)
    requires UpperQuasi(b, n) && l < n
    ensures ColCut(b, l + ColBlock(b, l, n), n)
  {
    var ll := l + ColBlock(b, l, n);
    if ll < n {
      assert At(b, ll, ll - 1) == 0.0;
    }
  }

  // ---------- one small system ----------

  /** The part of A Y + Y B at (i, j) that comes from rows k .. ke - 1 and columns l .. le - 1. */
  ghost function BlockSum(a: Matrix, b: Matrix, y: Matrix, i: int, j: int, k: nat, ke: nat, l: nat, le: nat): real {
    At(a, i, k) * At(y, k, j) + (if ke == k + 2 then At(a, i, k + 1) * At(y, k + 1, j) else 0.0) +
    At(y, i, l) * At(b, l, j) + (if le == l + 2 then At(y, i, l + 1) * At(b, l + 1, j) else 0.0)
  }

  ghost predicate IsBlock(k: nat, ke: nat) {
    ke == k + 1 || ke == k + 2
  }

  ghost predicate BlockSolves(a: Matrix, b: Matrix, y: Matrix, r: Matrix, k: nat, ke: nat, l: nat, le: nat) {
    forall i, j | k <= i < ke && l <= j < le :: BlockSum(a, b, y, i, j, k, ke, l, le) == At(r, i, j)
  }

  ghost predicate BlockAgrees(y: Matrix, z: Matrix, k: nat, ke: nat, l: nat, le: nat) {
    forall i, j | k <= i < ke && l <= j < le :: At(y, i, j) == At(z, i, j)
  }

  ghost predicate BlockSingular(a: Matrix, b: Matrix, k: nat, ke: nat, l: nat, le: nat) {
    exists y: Matrix :: BlockSolves(a, b, y, [], k, ke, l, le) && !BlockAgrees(y, [], k, ke, l, le)
  }

  lemma DotBlock(a: Matrix, b: Matrix, i: int, j: int, k: nat, ke: nat, m: nat)
    requires IsBlock(k, ke) && ke <= m
    requires forall p | ke <= p < m :: At(a, i, p) == 0.0 || At(b, p, j) == 0.0
    ensures Dot(a, b, i, j, m) == Dot(a, b, i, j, k) + At(a, i, k) * At(b, k, j)
                                  + (if ke == k + 2 then At(a, i, k + 1) * At(b, k + 1, j) else 0.0)
  {
    DotZero(a, b, i, j, ke, m);
    if ke == k + 2 {
      assert Dot(a, b, i, j, k + 2) == Dot(a, b, i, j, k + 1) + At(a, i, k + 1) * At(b, k + 1, j);
    }
    assert Dot(a, b, i, j, k + 1) == Dot(a, b, i, j, k) + At(a, i, k) * At(b, k, j);
  }

  /** At a cell of the block, A Y + Y B only sees earlier cells and the block itself. */
  lemma LhsSplits(a: Matrix, b: Matrix, y: Matrix, i: nat, j: nat, k: nat, ke: nat, l: nat, le: nat, m: nat, n: nat)
    requires IsBlock(k, ke) && IsBlock(l, le) && RowCut(a, ke, m) && ColCut(b, le, n)
    requires k <= i < ke && l <= j < le
    ensures Lhs(a, b, y, i, j, m, n) ==
            Dot(a, y, i, j, k) + Dot(y, b, i, j, l) + BlockSum(a, b, y, i, j, k, ke, l, le)
  {
    DotBlock(a, y, i, j, k, ke, m);
    DotBlock(y, b, i, j, l, le, n);
  }

  lemma {:induction false} DotAgree(a: Matrix, b: Matrix, c: Matrix, d: Matrix, i: int, j: int, k: nat)
    requires forall p | 0 <= p < k :: At(a, i, p) == At(c, i, p) || (At(b, p, j) == 0.0 && At(d, p, j) == 0.0)
    requires forall p | 0 <= p < k :: At(b, p, j) == At(d, p, j) || (At(a, i, p) == 0.0 && At(c, i, p) == 0.0)
    ensures Dot(a, b, i, j, k) == Dot(c, d, i, j, k)
  {
    if k > 0 {
      DotAgree(a, b, c, d, i, j, k - 1);
    }
  }

  // ---------- the order in which cells are finished ----------

  /** Cell (i, j) is finished when the column cursor stands at block l .. le - 1 and the row
      cursor at k. */
  predicate Before(i: int, j: int, k: nat, l: nat, le: nat) {
    j < l || (j < le && i < k)
  }

  ghost predicate AgreeBefore(y: Matrix, z: Matrix, k: nat, l: nat, le: nat, m: nat, n: nat) {
    forall i, j | 0 <= i < m && 0 <= j < n && Before(i, j, k, l, le) :: At(y, i, j) == At(z, i, j)
  }

  ghost predicate SolvedBefore(a: Matrix, b: Matrix, y: Matrix, c: Matrix, k: nat, l: nat, le: nat, m: nat, n: nat) {
    forall i, j | 0 <= i < m && 0 <= j < n && Before(i, j, k, l, le) :: Lhs(a, b, y, i, j, m, n) == At(c, i, j)
  }

  /** Later cells do not enter the equations of earlier ones. */
  lemma SolvedBeforeKept(a: Matrix, b: Matrix, y: Matrix, z: Matrix, c: Matrix, k: nat, l: nat, le: nat, m: nat, n: nat)
    requires RowCut(a, k, m) && ColCut(b, l, n) && ColCut(b, le, n) && l <= le
    requires SolvedBefore(a, b, y, c, k, l, le, m, n) && AgreeBefore(y, z, k, l, le, m, n)
    requires Shape(y, m, n) && Shape(z, m, n)
    ensures SolvedBefore(a, b, z, c, k, l, le, m, n)
  {
    forall i, j | 0 <= i < m && 0 <= j < n && Before(i, j, k, l, le)
      ensures Lhs(a, b, z, i, j, m, n) == At(c, i, j)
    {
      DotAgree(a, y, a, z, i, j, m);
      DotAgree(y, b, z, b, i, j, n);
      assert Lhs(a, b, y, i, j, m, n) == At(c, i, j);
    }
  }

  /** What the earlier cells leave for the block: C - (known part of A Y + Y B). */
  ghost predicate Remainder(a: Matrix, b: Matrix, y: Matrix, c: Matrix, r: Matrix, k: nat, ke: nat, l: nat, le: nat) {
    forall i, j | k <= i < ke && l <= j < le :: At(r, i, j) == At(c, i, j) - Dot(y, b, i, j, l) - Dot(a, y, i, j, k)
  }

  /** Solving the small system of the block finishes its cells. */
  lemma BlockFinishes(a: Matrix, b: Matrix, y: Matrix, z: Matrix, c: Matrix, r: Matrix,
                      k: nat, ke: nat, l: nat, le: nat, m: nat, n: nat)
    requires IsBlock(k, ke) && IsBlock(l, le)
    requires RowCut(a, k, m) && ColCut(b, l, n) && RowCut(a, ke, m) && ColCut(b, le, n)
    requires Shape(y, m, n) && Shape(z, m, n)
    requires SolvedBefore(a, b, y, c, k, l, le, m, n) && AgreeBefore(y, z, k, l, le, m, n)
    requires Remainder(a, b, y, c, r, k, ke, l, le) && BlockSolves(a, b, z, r, k, ke, l, le)
    ensures SolvedBefore(a, b, z, c, ke, l, le, m, n)
  {
    SolvedBeforeKept(a, b, y, z, c, k, l, le, m, n);
    forall i, j | 0 <= i < m && 0 <= j < n && Before(i, j, ke, l, le)
      ensures Lhs(a, b, z, i, j, m, n) == At(c, i, j)
    {
      if !Before(i, j, k, l, le) {
        LhsSplits(a, b, z, i, j, k, ke, l, le, m, n);
        DotAgree(a, y, a, z, i, j, k);
        DotAgree(y, b, z, b, i, j, l);
        assert BlockSum(a, b, z, i, j, k, ke, l, le) == At(r, i, j);
      }
    }
  }

  /** Conversely every full solution solves the small system, with the same right-hand side. */
  lemma SolutionSolvesBlock(a: Matrix, b: Matrix, y: Matrix, z: Matrix, c: Matrix, r: Matrix,
                            k: nat, ke: nat, l: nat, le: nat, m: nat, n: nat)
    requires IsBlock(k, ke) && IsBlock(l, le) && RowCut(a, ke, m) && ColCut(b, le, n)
    requires SolvesSylvester(a, b, z, c, m, n) && AgreeBefore(y, z, k, l, le, m, n)
    requires Remainder(a, b, y, c, r, k, ke, l, le)
    ensures BlockSolves(a, b, z, r, k, ke, l, le)
  {
    forall i, j | k <= i < ke && l <= j < le
      ensures BlockSum(a, b, z, i, j, k, ke, l, le) == At(r, i, j)
    {
      LhsSplits(a, b, z, i, j, k, ke, l, le, m, n);
      DotAgree(a, y, a, z, i, j, k);
      DotAgree(y, b, z, b, i, j, l);
      assert Lhs(a, b, z, i, j, m, n) == At(c, i, j);
    }
  }
}
