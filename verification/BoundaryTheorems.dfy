/** What the boundary passes achieve: all parity sums vanish, so the series vanishes on the four
    edges; the free coefficients stay; doing it twice changes nothing; and all of this needs an
    even number of intervals in both directions. */
module BoundaryTheorems {
  import opened Matrices
  import opened Chebyshev
  import opened BoundaryConditions

  // ---------- sums ----------

  lemma {:induction false} RowSumSame(d: Matrix, e: Matrix, i: int, r: nat, k: nat)
    requires forall j | 0 <= j < k :: At(d, i, j) == At(e, i, j)
    ensures RowSum(d, i, r, k) == RowSum(e, i, r, k)
  {
    if k > 0 {
      RowSumSame(d, e, i, r, k - 1);
    }
  }

  lemma {:induction false} ColSumSame(d: Matrix, e: Matrix, j: int, r: nat, k: nat)
    requires forall i | 0 <= i < k :: At(d, i, j) == At(e, i, j)
    ensures ColSum(d, j, r, k) == ColSum(e, j, r, k)
  {
    if k > 0 {
      ColSumSame(d, e, j, r, k - 1);
    }
  }

  /** sum over i < k, i % 2 = r, of the row sums of parity s up to l */
  ghost function Grid(e: Matrix, r: nat, k: nat, s: nat, l: nat): real {
    if k == 0 then 0.0 else Grid(e, r, k - 1, s, l) + if (k - 1) % 2 == r then RowSum(e, k - 1, s, l) else 0.0
  }

  lemma {:induction false} GridLastColumn(e: Matrix, r: nat, k: nat, s: nat, l: nat)
    requires l > 0
    ensures Grid(e, r, k, s, l) == Grid(e, r, k, s, l - 1) + if (l - 1) % 2 == s then ColSum(e, l - 1, r, k) else 0.0
  {
    if k > 0 {
      GridLastColumn(e, r, k - 1, s, l);
    }
  }

  lemma {:induction false} GridEmpty(e: Matrix, r: nat, k: nat, s: nat)
    ensures Grid(e, r, k, s, 0) == 0.0
  {
    if k > 0 {
      GridEmpty(e, r, k - 1, s);
    }
  }

  /** A row whose cells of one parity are minus the column sums above them sums to minus the grid:
      the double sum is exchanged. */
  lemma {:induction false} RowOfColumnSums(e: Matrix, i: nat, r: nat, k: nat, s: nat, l: nat)
    requires forall j | 0 <= j < l && j % 2 == s :: At(e, i, j) == -ColSum(e, j, r, k)
    ensures RowSum(e, i, s, l) == -Grid(e, r, k, s, l)
  {
    if l == 0 {
      GridEmpty(e, r, k, s);
    } else {
      RowOfColumnSums(e, i, r, k, s, l - 1);
      GridLastColumn(e, r, k, s, l);
    }
  }

  lemma {:induction false} ColumnOfRowSums(e: Matrix, j: nat, r: nat, k: nat, s: nat, l: nat)
    requires forall i | 0 <= i < k && i % 2 == r :: At(e, i, j) == -RowSum(e, i, s, l)
    ensures ColSum(e, j, r, k) == -Grid(e, r, k, s, l)
  {
    if k > 0 {
      ColumnOfRowSums(e, j, r, k - 1, s, l);
    }
  }

  // ---------- the result, cell by cell ----------

  /** The last two cells of a row (resp. column) balance the cells before them. */
  ghost predicate RowBalanced(e: Matrix, i: nat, n: nat)
    requires n >= 2
  {
    At(e, i, n - 1) == -RowSum(e, i, 1, n - 1) && At(e, i, n) == -RowSum(e, i, 0, n - 1)
  }

  ghost predicate ColBalanced(e: Matrix, j: nat, m: nat)
    requires m >= 2
  {
    At(e, m - 1, j) == -ColSum(e, j, 1, m - 1) && At(e, m, j) == -ColSum(e, j, 0, m - 1)
  }

  ghost predicate Balanced(e: Matrix, m: nat, n: nat)
    requires m >= 2 && n >= 2
  {
    && (forall i | 0 <= i < m :: RowBalanced(e, i, n))
    && (forall j | 0 <= j && j + 1 < n :: ColBalanced(e, j, m))
    && At(e, m, n - 1) == -ColSum(e, n - 1, 0, m)
    && At(e, m, n) == -ColSum(e, n, 0, m)
  }

  lemma FirstRows(d: Matrix, m: nat, n: nat, i: nat)
    requires m >= 2 && n >= 2 && n % 2 == 0 && i + 1 < m
    ensures var e := Homogenized(d, m, n);
      RowBalanced(e, i, n) && forall j | 0 <= j && j + 1 < n :: At(e, i, j) == At(d, i, j)
  {
    var f := Pass(d, m, n, 1);
    var e := Homogenized(d, m, n);
    forall j | 0 <= j <= n
      ensures At(e, i, j) == At(f, i, j)
    {
      assert At(Pass(f, m, n, 2), i, j) == At(f, i, j);
      assert At(Pass(Pass(f, m, n, 2), m, n, 3), i, j) == At(f, i, j);
    }
    RowSumSame(d, e, i, 1, n - 1);
    RowSumSame(d, e, i, 0, n - 1);
    assert RowSum(d, i, 0, n) == RowSum(d, i, 0, n - 1);
  }

  lemma FirstColumns(d: Matrix, m: nat, n: nat, j: nat)
    requires m >= 2 && n >= 2 && m % 2 == 0 && j + 1 < n
    ensures ColBalanced(Homogenized(d, m, n), j, m)
  {
    var f := Pass(d, m, n, 1);
    var g := Pass(f, m, n, 2);
    var e := Homogenized(d, m, n);
    forall i | 0 <= i <= m
      ensures At(e, i, j) == At(g, i, j)
    {
      assert At(Pass(g, m, n, 3), i, j) == At(g, i, j);
    }
    ColSumSame(f, e, j, 1, m - 1);
    ColSumSame(f, e, j, 0, m - 1);
    assert ColSum(f, j, 1, m - 1) == ColSum(f, j, 1, m - 2);
  }

  lemma Corners(d: Matrix, m: nat, n: nat)
    requires m >= 2 && n >= 2 && n % 2 == 0
    ensures var e := Homogenized(d, m, n);
      RowBalanced(e, m - 1, n) && At(e, m, n - 1) == -ColSum(e, n - 1, 0, m) && At(e, m, n) == -ColSum(e, n, 0, m)
  {
    var g := Pass(Pass(d, m, n, 1), m, n, 2);
    var h := Pass(g, m, n, 3);
    var e := Homogenized(d, m, n);
    forall i, j | 0 <= i < m && 0 <= j <= n
      ensures At(e, i, j) == At(h, i, j)
    {
    }
    var p := m - 1;
    forall j | 0 <= j < n - 1
      ensures At(g, p, j) == At(e, p, j)
    {
      assert At(h, p, j) == At(g, p, j);
    }
    RowSumSame(g, e, m - 1, 1, n - 1);
    RowSumSame(g, e, m - 1, 0, n - 1);
    assert RowSum(g, m - 1, 1, n - 1) == RowSum(g, m - 1, 1, n - 2);
    ColSumSame(h, e, n - 1, 0, m);
    ColSumSame(h, e, n, 0, m);
  }

  lemma ResultBalanced(d: Matrix, m: nat, n: nat)
    requires m >= 2 && n >= 2 && m % 2 == 0 && n % 2 == 0
    ensures Balanced(Homogenized(d, m, n), m, n)
  {
    var e := Homogenized(d, m, n);
    forall i | 0 <= i < m
      ensures RowBalanced(e, i, n)
    {
      if i + 1 < m {
        FirstRows(d, m, n, i);
      } else {
        Corners(d, m, n);
      }
    }
    forall j | 0 <= j && j + 1 < n
      ensures ColBalanced(e, j, m)
    {
      FirstColumns(d, m, n, j);
    }
    Corners(d, m, n);
  }

  // ---------- balanced means homogeneous ----------

  lemma BalancedRowZero(e: Matrix, i: nat, n: nat)
    requires n >= 2 && n % 2 == 0
    ensures RowBalanced(e, i, n) <==> RowZero(e, i, n)
  {
    assert RowSum(e, i, 0, n) == RowSum(e, i, 0, n - 1);
    assert RowSum(e, i, 1, n + 1) == RowSum(e, i, 1, n);
  }

  lemma BalancedColZero(e: Matrix, j: nat, m: nat)
    requires m >= 2 && m % 2 == 0
    ensures ColBalanced(e, j, m) <==> ColZero(e, j, m)
  {
    assert ColSum(e, j, 0, m) == ColSum(e, j, 0, m - 1);
    assert ColSum(e, j, 1, m + 1) == ColSum(e, j, 1, m);
  }

  /** The corner cell of column q = n - s balances row m: the grid below it is summed by rows on
      one side and by columns on the other. */
  lemma LastRowCell(e: Matrix, m: nat, n: nat, s: nat, q: nat)
    requires m >= 2 && n >= 2 && m % 2 == 0 && n % 2 == 0 && Balanced(e, m, n) && s < 2 && q == n - s
    ensures At(e, m, q) == -RowSum(e, m, s, n - 1)
  {
    forall j | 0 <= j < n - 1
      ensures At(e, m, j) == -ColSum(e, j, 0, m - 1)
    {
      assert ColBalanced(e, j, m);
    }
    RowOfColumnSums(e, m, 0, m - 1, s, n - 1);
    forall i | 0 <= i < m - 1
      ensures At(e, i, q) == -RowSum(e, i, s, n - 1)
    {
      assert RowBalanced(e, i, n);
    }
    ColumnOfRowSums(e, q, 0, m - 1, s, n - 1);
    assert ColSum(e, q, 0, m) == ColSum(e, q, 0, m - 1);
  }

  /** The last row was never written as a whole, yet it balances. */
  lemma LastRowBalanced(e: Matrix, m: nat, n: nat)
    requires m >= 2 && n >= 2 && m % 2 == 0 && n % 2 == 0 && Balanced(e, m, n)
    ensures RowBalanced(e, m, n)
  {
    LastRowCell(e, m, n, 0, n);
    LastRowCell(e, m, n, 1, n - 1);
  }

  /** Nor were the last two columns. */
  lemma LastColumnBalanced(e: Matrix, m: nat, n: nat, s: nat, q: nat, p: nat)
    requires m >= 2 && n >= 2 && m % 2 == 0 && n % 2 == 0 && Balanced(e, m, n) && s < 2 && q == n - s && p == m - 1
    ensures ColBalanced(e, q, m)
  {
    assert ColSum(e, q, 0, m) == ColSum(e, q, 0, m - 1);
    forall j | 0 <= j < n - 1
      ensures At(e, p, j) == -ColSum(e, j, 1, p)
    {
      assert ColBalanced(e, j, m);
    }
    RowOfColumnSums(e, p, 1, p, s, n - 1);
    forall i | 0 <= i < m
      ensures At(e, i, q) == -RowSum(e, i, s, n - 1)
    {
      assert RowBalanced(e, i, n);
    }
    ColumnOfRowSums(e, q, 1, p, s, n - 1);
  }

  lemma BalancedHomogeneous(e: Matrix, m: nat, n: nat)
    requires m >= 2 && n >= 2 && m % 2 == 0 && n % 2 == 0 && Balanced(e, m, n)
    ensures Homogeneous(e, m, n)
  {
    LastRowBalanced(e, m, n);
    forall i | 0 <= i <= m
      ensures RowZero(e, i, n)
    {
      BalancedRowZero(e, i, n);
    }
    LastColumnBalanced(e, m, n, 0, n, m - 1);
    LastColumnBalanced(e, m, n, 1, n - 1, m - 1);
    forall j | 0 <= j <= n
      ensures ColZero(e, j, m)
    {
      BalancedColZero(e, j, m);
    }
  }

  /** For even m and n every parity sum of every row and column of the result is zero, and the
      free coefficients are those of the input. */
  lemma ResultHomogeneous(d: Matrix, m: nat, n: nat)
    requires m >= 2 && n >= 2 && m % 2 == 0 && n % 2 == 0
    ensures Homogeneous(Homogenized(d, m, n), m, n)
    ensures forall i, j | 0 <= i && i + 1 < m && 0 <= j && j + 1 < n :: At(Homogenized(d, m, n), i, j) == At(d, i, j)
  {
    ResultBalanced(d, m, n);
    BalancedHomogeneous(Homogenized(d, m, n), m, n);
    forall i, j | 0 <= i && i + 1 < m && 0 <= j && j + 1 < n
      ensures At(Homogenized(d, m, n), i, j) == At(d, i, j)
    {
      FirstRows(d, m, n, i);
    }
  }

  // ---------- a second application changes nothing ----------

  lemma PassIdentity(e: Matrix, m: nat, n: nat, which: nat)
    requires m >= 2 && n >= 2 && m % 2 == 0 && n % 2 == 0 && Shape(e, m + 1, n + 1) && Homogeneous(e, m, n)
    ensures Pass(e, m, n, which) == e
  {
    forall i, j | 0 <= i <= m && 0 <= j <= n
      ensures Cell(e, i, j, m, n, which) == At(e, i, j)
    {
      BalancedRowZero(e, i, n);
      BalancedColZero(e, j, m);
      assert RowZero(e, i, n) && ColZero(e, j, m);
      assert RowSum(e, i, 0, n) == RowSum(e, i, 0, n - 1);
      assert RowSum(e, i, 1, n - 1) == RowSum(e, i, 1, n - 2);
      assert ColSum(e, j, 0, m) == ColSum(e, j, 0, m - 1);
      assert ColSum(e, j, 1, m - 1) == ColSum(e, j, 1, m - 2);
    }
    SameEntries(Pass(e, m, n, which), e, m + 1, n + 1);
  }

  /** The fixed points are exactly the homogeneous matrices. */
  lemma FixedPoints(e: Matrix, m: nat, n: nat)
    requires m >= 2 && n >= 2 && m % 2 == 0 && n % 2 == 0 && Shape(e, m + 1, n + 1)
    ensures Homogenized(e, m, n) == e <==> Homogeneous(e, m, n)
  {
    if Homogeneous(e, m, n) {
      PassIdentity(e, m, n, 1);
      PassIdentity(e, m, n, 2);
      PassIdentity(e, m, n, 3);
      PassIdentity(e, m, n, 4);
    }
    ResultHomogeneous(e, m, n);
  }

  lemma Idempotent(d: Matrix, m: nat, n: nat)
    requires m >= 2 && n >= 2 && m % 2 == 0 && n % 2 == 0
    ensures Homogenized(Homogenized(d, m, n), m, n) == Homogenized(d, m, n)
  {
    ResultHomogeneous(d, m, n);
    FixedPoints(Homogenized(d, m, n), m, n);
  }

  // ---------- odd sizes ----------

  ghost function Unit(a: nat, b: nat, m: nat, n: nat): (d: Matrix)
    ensures Shape(d, m + 1, n + 1)
    ensures forall i, j | 0 <= i <= m && 0 <= j <= n :: At(d, i, j) == if i == a && j == b then 1.0 else 0.0
  {
    seq(m + 1, i requires 0 <= i <= m => seq(n + 1, j requires 0 <= j <= n => if i == a && j == b then 1.0 else 0.0))
  }

  lemma {:induction false} RowSumOne(d: Matrix, i: int, r: nat, k: nat, q: nat)
    requires forall j | 0 <= j < k && j % 2 == r && j != q :: At(d, i, j) == 0.0
    ensures RowSum(d, i, r, k) == if q < k && q % 2 == r then At(d, i, q) else 0.0
  {
    if k > 0 {
      RowSumOne(d, i, r, k - 1, q);
    }
  }

  lemma {:induction false} ColSumOne(d: Matrix, j: int, r: nat, k: nat, q: nat)
    requires forall i | 0 <= i < k && i % 2 == r && i != q :: At(d, i, j) == 0.0
    ensures ColSum(d, j, r, k) == if q < k && q % 2 == r then At(d, q, j) else 0.0
  {
    if k > 0 {
      ColSumOne(d, j, r, k - 1, q);
    }
  }

  /** With an odd n the single coefficient (0, 1) already leaves row 0 unbalanced. */
  lemma OddColumnsFail(m: nat, n: nat)
    requires m >= 2 && n >= 3 && n % 2 == 1
    ensures !RowZero(Homogenized(Unit(0, 1, m, n), m, n), 0, n)
  {
    var d := Unit(0, 1, m, n);
    var f := Pass(d, m, n, 1);
    var g := Pass(f, m, n, 2);
    var h := Pass(g, m, n, 3);
    var e := Pass(h, m, n, 4);
    var q := n - 1;
    RowSumOne(d, 0, 1, n - 1, 1);
    forall j | 0 <= j <= n
      ensures At(e, 0, j) == At(f, 0, j)
    {
      assert At(h, 0, j) == At(g, 0, j) == At(f, 0, j);
    }
    assert At(e, 0, q) == -1.0;
    RowSumOne(e, 0, 0, n + 1, q);
  }

  /** Column 0 of the result is the one that the second pass writes. */
  lemma ColumnZero(d: Matrix, m: nat, n: nat, i: nat)
    requires m >= 2 && n >= 2 && i <= m
    ensures At(Homogenized(d, m, n), i, 0) == ColumnEnds(Pass(d, m, n, 1), i, 0, m, n)
    ensures At(Pass(d, m, n, 1), i, 0) == At(d, i, 0)
  {
    var f := Pass(d, m, n, 1);
    var g := Pass(f, m, n, 2);
    var h := Pass(g, m, n, 3);
    assert At(Homogenized(d, m, n), i, 0) == At(h, i, 0) == At(g, i, 0);
  }

  /** With an odd m the single coefficient (1, 0) leaves column 0 unbalanced. */
  lemma OddRowsFail(m: nat, n: nat)
    requires m >= 3 && n >= 2 && m % 2 == 1
    ensures !ColZero(Homogenized(Unit(1, 0, m, n), m, n), 0, m)
  {
    var d := Unit(1, 0, m, n);
    var f, e := Pass(d, m, n, 1), Homogenized(d, m, n);
    forall i | 0 <= i <= m
      ensures At(f, i, 0) == At(d, i, 0) && At(e, i, 0) == ColumnEnds(f, i, 0, m, n)
    {
      ColumnZero(d, m, n, i);
    }
    OddColumn(f, e, m, n);
  }

  /** A single 1 at the odd position 1 of column 0. */
  lemma OddColumn(f: Matrix, e: Matrix, m: nat, n: nat)
    requires m >= 3 && n >= 2 && m % 2 == 1
    requires forall i | 0 <= i <= m :: At(f, i, 0) == if i == 1 then 1.0 else 0.0
    requires forall i | 0 <= i <= m :: At(e, i, 0) == ColumnEnds(f, i, 0, m, n)
    ensures !ColZero(e, 0, m)
  {
    ColSumOne(f, 0, 1, m - 2, 1);
    ColSumOne(f, 0, 0, m - 1, m);
    if m == 3 {
      ColSumOne(e, 0, 1, m + 1, 1);
    } else {
      ColSumOne(e, 0, 0, m + 1, m - 1);
    }
  }

  /** The boundary conditions are met for all inputs exactly when both sizes are even. */
  lemma HomogeneousForAllInputs(m: nat, n: nat)
    requires m >= 2 && n >= 2
    ensures (forall d: Matrix | Shape(d, m + 1, n + 1) :: Homogeneous(Homogenized(d, m, n), m, n)) <==> m % 2 == 0 && n % 2 == 0
  {
    if m % 2 == 0 && n % 2 == 0 {
      forall d: Matrix | Shape(d, m + 1, n + 1)
        ensures Homogeneous(Homogenized(d, m, n), m, n)
      {
        ResultHomogeneous(d, m, n);
      }
    } else if n % 2 == 1 {
      OddColumnsFail(m, n);
      assert !Homogeneous(Homogenized(Unit(0, 1, m, n), m, n), m, n);
    } else {
      OddRowsFail(m, n);
      assert !Homogeneous(Homogenized(Unit(1, 0, m, n), m, n), m, n);
    }
  }

  // ---------- the edges ----------

  lemma {:induction false} RowParity(e: Matrix, i: nat, r: nat, k: nat)
    requires i < |e| && k <= |e[i]|
    ensures ParitySum(e[i], r, k) == RowSum(e, i, r, k)
  {
    if k > 0 {
      RowParity(e, i, r, k - 1);
    }
  }

  ghost function Column(e: Matrix, j: nat, m: nat): (c: seq<real>)
    ensures |c| == m + 1 && forall i | 0 <= i <= m :: c[i] == At(e, i, j)
  {
    seq(m + 1, i requires 0 <= i <= m => At(e, i, j))
  }

  lemma {:induction false} ColumnParity(e: Matrix, j: nat, m: nat, r: nat, k: nat)
    requires k <= m + 1
    ensures ParitySum(Column(e, j, m), r, k) == ColSum(e, j, r, k)
  {
    if k > 0 {
      ColumnParity(e, j, m, r, k - 1);
    }
  }

  /** Homogeneous is the same as: every row series and every column series vanishes at both ends
      of [-1, 1]. */
  lemma HomogeneousVanishes(e: Matrix, m: nat, n: nat)
    requires Shape(e, m + 1, n + 1)
    ensures Homogeneous(e, m, n) <==>
            && (forall i | 0 <= i <= m :: SeriesAt(e[i], n + 1, 1.0) == 0.0 && SeriesAt(e[i], n + 1, -1.0) == 0.0)
            && (forall j | 0 <= j <= n :: SeriesAt(Column(e, j, m), m + 1, 1.0) == 0.0 && SeriesAt(Column(e, j, m), m + 1, -1.0) == 0.0)
  {
    forall i | 0 <= i <= m
      ensures RowZero(e, i, n) <==> SeriesAt(e[i], n + 1, 1.0) == 0.0 && SeriesAt(e[i], n + 1, -1.0) == 0.0
    {
      RowParity(e, i, 0, n + 1);
      RowParity(e, i, 1, n + 1);
      EndPoints(e[i], n + 1);
    }
    forall j | 0 <= j <= n
      ensures ColZero(e, j, m) <==> SeriesAt(Column(e, j, m), m + 1, 1.0) == 0.0 && SeriesAt(Column(e, j, m), m + 1, -1.0) == 0.0
    {
      ColumnParity(e, j, m, 0, m + 1);
      ColumnParity(e, j, m, 1, m + 1);
      EndPoints(Column(e, j, m), m + 1);
    }
  }

  /** sum over i < p, j <= n of e(i, j) T_i(x) T_j(y), summed row by row */
  ghost function DoubleSeriesAt(e: Matrix, p: nat, n: nat, x: real, y: real): real
    requires p <= |e| && forall i | 0 <= i < |e| :: |e[i]| == n + 1
  {
    if p == 0 then 0.0 else DoubleSeriesAt(e, p - 1, n, x, y) + Prod(TAt(p - 1, x), SeriesAt(e[p - 1], n + 1, y))
  }

  /** The same sum, column by column. */
  ghost function ColumnsAt(e: Matrix, m: nat, q: nat, x: real, y: real): real
    requires m < |e|
  {
    if q == 0 then 0.0 else ColumnsAt(e, m, q - 1, x, y) + Prod(SeriesAt(Column(e, q - 1, m), m + 1, x), TAt(q - 1, y))
  }

  /** The part of the sum with i < p and j < q, by rows. */
  ghost function RowsAt(e: Matrix, p: nat, q: nat, x: real, y: real): real
    requires p <= |e| && forall i | 0 <= i < |e| :: q <= |e[i]|
  {
    if p == 0 then 0.0 else RowsAt(e, p - 1, q, x, y) + Prod(TAt(p - 1, x), SeriesAt(e[p - 1], q, y))
  }

  lemma {:induction false} PartEmpty(e: Matrix, p: nat, x: real, y: real)
    requires p <= |e|
    ensures RowsAt(e, p, 0, x, y) == 0.0
  {
    if p > 0 {
      PartEmpty(e, p - 1, x, y);
    }
  }

  lemma OneMoreCell(a: real, b: real, t: real, s: real, c: real, u: real)
    ensures a + Prod(b, u) + Prod(t, s + Prod(c, u)) == (a + Prod(t, s)) + Prod(b + Prod(c, t), u)
  {
  }

  /** Adding column q to the part adds its column series. */
  lemma {:induction false} PartMore(e: Matrix, m: nat, p: nat, q: nat, x: real, y: real)
    requires p <= m + 1 == |e| && forall i | 0 <= i < |e| :: q < |e[i]|
    ensures RowsAt(e, p, q + 1, x, y) == RowsAt(e, p, q, x, y) + Prod(SeriesAt(Column(e, q, m), p, x), TAt(q, y))
  {
    if p > 0 {
      PartMore(e, m, p - 1, q, x, y);
      var c := Column(e, q, m);
      assert c[p - 1] == At(e, p - 1, q) == e[p - 1][q];
      OneMoreCell(RowsAt(e, p - 1, q, x, y), SeriesAt(c, p - 1, x), TAt(p - 1, x), SeriesAt(e[p - 1], q, y), e[p - 1][q], TAt(q, y));
    }
  }

  lemma {:induction false} PartIsColumns(e: Matrix, m: nat, q: nat, x: real, y: real)
    requires |e| == m + 1 && forall i | 0 <= i < |e| :: q <= |e[i]|
    ensures RowsAt(e, m + 1, q, x, y) == ColumnsAt(e, m, q, x, y)
  {
    if q == 0 {
      PartEmpty(e, m + 1, x, y);
    } else {
      PartIsColumns(e, m, q - 1, x, y);
      PartMore(e, m, m + 1, q - 1, x, y);
    }
  }

  lemma {:induction false} PartIsDoubleSeries(e: Matrix, p: nat, n: nat, x: real, y: real)
    requires p <= |e| && forall i | 0 <= i < |e| :: |e[i]| == n + 1
    ensures RowsAt(e, p, n + 1, x, y) == DoubleSeriesAt(e, p, n, x, y)
  {
    if p > 0 {
      PartIsDoubleSeries(e, p - 1, n, x, y);
    }
  }

  lemma {:induction false} RowsVanish(e: Matrix, p: nat, n: nat, x: real, y: real)
    requires p <= |e| && forall i | 0 <= i < |e| :: |e[i]| == n + 1
    requires forall i | 0 <= i < |e| :: SeriesAt(e[i], n + 1, y) == 0.0
    ensures DoubleSeriesAt(e, p, n, x, y) == 0.0
  {
    if p > 0 {
      RowsVanish(e, p - 1, n, x, y);
    }
  }

  lemma {:induction false} ColumnsVanish(e: Matrix, m: nat, q: nat, x: real, y: real)
    requires m < |e| && forall j | 0 <= j < q :: SeriesAt(Column(e, j, m), m + 1, x) == 0.0
    ensures ColumnsAt(e, m, q, x, y) == 0.0
  {
    if q > 0 {
      ColumnsVanish(e, m, q - 1, x, y);
    }
  }

  /** The double series of a homogeneous matrix vanishes on the four edges of the square. */
  lemma EdgesVanish(e: Matrix, m: nat, n: nat, x: real, y: real)
    requires Shape(e, m + 1, n + 1) && Homogeneous(e, m, n)
    ensures x == 1.0 || x == -1.0 || y == 1.0 || y == -1.0 ==> DoubleSeriesAt(e, m + 1, n, x, y) == 0.0
  {
    HomogeneousVanishes(e, m, n);
    if y == 1.0 || y == -1.0 {
      RowsVanish(e, m + 1, n, x, y);
    } else if x == 1.0 || x == -1.0 {
      PartIsDoubleSeries(e, m + 1, n, x, y);
      PartIsColumns(e, m, n + 1, x, y);
      ColumnsVanish(e, m, n + 1, x, y);
    }
  }

  /** So for even sizes the boundary passes make the double series vanish on all four edges, whatever
      the input was. */
  lemma BoundaryIsHomogeneous(d: Matrix, m: nat, n: nat, x: real, y: real)
    requires m >= 2 && n >= 2 && m % 2 == 0 && n % 2 == 0
    requires x == 1.0 || x == -1.0 || y == 1.0 || y == -1.0
    ensures Shape(Homogenized(d, m, n), m + 1, n + 1) && DoubleSeriesAt(Homogenized(d, m, n), m + 1, n, x, y) == 0.0
  {
    ResultHomogeneous(d, m, n);
    EdgesVanish(Homogenized(d, m, n), m, n, x, y);
  }
}
