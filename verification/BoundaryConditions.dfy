/** The four passes that overwrite the last two rows and columns so that a double Chebyshev series
    vanishes on the boundary.  Bounds m and n are inclusive: d is (m + 1) x (n + 1). */
module BoundaryConditions {
  import opened Matrices

  /** sum of d(i, j) over j < k with j % 2 = r */
  ghost function RowSum(d: Matrix, i: int, r: nat, k: nat): real {
    if k == 0 then 0.0 else RowSum(d, i, r, k - 1) + if (k - 1) % 2 == r then At(d, i, k - 1) else 0.0
  }

  /** sum of d(i, j) over i < k with i % 2 = r */
  ghost function ColSum(d: Matrix, j: int, r: nat, k: nat): real {
    if k == 0 then 0.0 else ColSum(d, j, r, k - 1) + if (k - 1) % 2 == r then At(d, k - 1, j) else 0.0
  }

  // ---------- the passes on matrices ----------

  /** Rows up to m - 2 get new last two cells. */
  ghost function RowEnds(d: Matrix, i: nat, j: nat, m: nat, n: nat): real
    requires n >= 2
  {
    if i + 1 < m && j == n - 1 then -RowSum(d, i, 1, n - 1)
    else if i + 1 < m && j == n then -RowSum(d, i, 0, n)
    else At(d, i, j)
  }

  /** Columns up to n - 2 get new last two cells. */
  ghost function ColumnEnds(d: Matrix, i: nat, j: nat, m: nat, n: nat): real
    requires m >= 2
  {
    if j + 1 < n && i == m - 1 then -ColSum(d, j, 1, m - 2)
    else if j + 1 < n && i == m then -ColSum(d, j, 0, m - 1)
    else At(d, i, j)
  }

  /** Row m - 1 gets its last two cells. */
  ghost function UpperCorner(d: Matrix, i: nat, j: nat, m: nat, n: nat): real
    requires m >= 2 && n >= 2
  {
    if i == m - 1 && j == n - 1 then -RowSum(d, m - 1, 1, n - 2)
    else if i == m - 1 && j == n then -RowSum(d, m - 1, 0, n - 1)
    else At(d, i, j)
  }

  /** Row m gets its last two cells, from the columns above them. */
  ghost function LowerCorner(d: Matrix, i: nat, j: nat, m: nat, n: nat): real
    requires m >= 2 && n >= 2
  {
    if i == m && j + 1 >= n then -ColSum(d, j, 0, m) else At(d, i, j)
  }

  ghost function Pass(d: Matrix, m: nat, n: nat, which: nat): (e: Matrix)
    requires m >= 2 && n >= 2
    ensures Shape(e, m + 1, n + 1)
    ensures forall i, j {:trigger At(e, i, j)} | 0 <= i <= m && 0 <= j <= n :: At(e, i, j) == Cell(d, i, j, m, n, which)
  {
    seq(m + 1, i requires 0 <= i <= m => seq(n + 1, j requires 0 <= j <= n => Cell(d, i, j, m, n, which)))
  }

  ghost function Cell(d: Matrix, i: nat, j: nat, m: nat, n: nat, which: nat): real
    requires m >= 2 && n >= 2
  {
    if which == 1 then RowEnds(d, i, j, m, n)
    else if which == 2 then ColumnEnds(d, i, j, m, n)
    else if which == 3 then UpperCorner(d, i, j, m, n)
    else LowerCorner(d, i, j, m, n)
  }

  /** The effect of the whole function. */
  ghost function Homogenized(d: Matrix, m: nat, n: nat): (e: Matrix)
    requires m >= 2 && n >= 2
    ensures Shape(e, m + 1, n + 1)
  {
    Pass(Pass(Pass(Pass(d, m, n, 1), m, n, 2), m, n, 3), m, n, 4)
  }

  ghost predicate RowZero(e: Matrix, i: nat, n: nat) {
    RowSum(e, i, 0, n + 1) == 0.0 && RowSum(e, i, 1, n + 1) == 0.0
  }

  ghost predicate ColZero(e: Matrix, j: nat, m: nat) {
    ColSum(e, j, 0, m + 1) == 0.0 && ColSum(e, j, 1, m + 1) == 0.0
  }

  /** Every parity sum of every row and column is zero. */
  ghost predicate Homogeneous(e: Matrix, m: nat, n: nat) {
    (forall i | 0 <= i <= m :: RowZero(e, i, n)) && (forall j | 0 <= j <= n :: ColZero(e, j, m))
  }

  // ---------- the code ----------

  method EndRow(n: nat, i: nat, a: array2<real>, ghost d: Matrix)
    requires n >= 2 && i < a.Length0 && n < a.Length1
    requires forall j | 0 <= j <= n :: a[i, j] == At(d, i, j)
    modifies a
    ensures a[i, n - 1] == -RowSum(d, i, 1, n - 1) && a[i, n] == -RowSum(d, i, 0, n)
    ensures forall p, q | 0 <= p < a.Length0 && 0 <= q < a.Length1 && !(p == i && (q == n - 1 || q == n)) :: a[p, q] == old(a[p, q])
  {
    var odds, evens := 0.0, 0.0;
    var j := 1;
    while j <= n - 2
      invariant 1 <= j <= n && j % 2 == 1
      invariant odds == -RowSum(d, i, 1, j) && evens == At(d, i, 0) - RowSum(d, i, 0, j)
    {
      odds := odds - a[i, j];
      evens := evens - a[i, j + 1];
      assert RowSum(d, i, 1, j + 2) == RowSum(d, i, 1, j + 1) + 0.0;
      j := j + 2;
    }
    assert RowSum(d, i, 1, n - 1) == RowSum(d, i, 1, j) && RowSum(d, i, 0, n) == RowSum(d, i, 0, j);
    a[i, n - 1] := odds;
    a[i, n] := evens - a[i, 0];
  }

  method EndRows(m: nat, n: nat, a: array2<real>, ghost d: Matrix) returns (ghost e: Matrix)
    requires m >= 2 && n >= 2 && Holds(a, d, m + 1, n + 1)
    modifies a
    ensures e == Pass(d, m, n, 1) && Holds(a, e, m + 1, n + 1)
  {
    var i := 0;
    while i <= m - 2
      invariant 0 <= i <= m - 1
      invariant forall p, q | 0 <= p <= m && 0 <= q <= n && p >= i :: a[p, q] == At(d, p, q)
      invariant forall p, q | 0 <= p < i && 0 <= q <= n :: a[p, q] == RowEnds(d, p, q, m, n)
    {
      EndRow(n, i, a, d);
      i := i + 1;
    }
    e := Pass(d, m, n, 1);
  }

  method EndColumn(m: nat, i: nat, a: array2<real>, ghost d: Matrix)
    requires m >= 2 && m < a.Length0 && i < a.Length1
    requires forall j | 0 <= j <= m :: a[j, i] == At(d, j, i)
    modifies a
    ensures a[m - 1, i] == -ColSum(d, i, 1, m - 2) && a[m, i] == -ColSum(d, i, 0, m - 1)
    ensures forall p, q | 0 <= p < a.Length0 && 0 <= q < a.Length1 && !(q == i && (p == m - 1 || p == m)) :: a[p, q] == old(a[p, q])
  {
    var odds, evens := 0.0, 0.0;
    var j := 1;
    while j < m - 2
      invariant 1 <= j <= m - 1 && j % 2 == 1
      invariant odds == -ColSum(d, i, 1, j) && evens == At(d, 0, i) - ColSum(d, i, 0, j)
    {
      odds := odds - a[j, i];
      evens := evens - a[j + 1, i];
      assert ColSum(d, i, 1, j + 2) == ColSum(d, i, 1, j + 1) + 0.0;
      j := j + 2;
    }
    assert ColSum(d, i, 1, m - 2) == ColSum(d, i, 1, j) && ColSum(d, i, 0, m - 1) == ColSum(d, i, 0, j);
    a[m - 1, i] := odds;
    a[m, i] := evens - a[0, i];
  }

  method EndColumns(m: nat, n: nat, a: array2<real>, ghost d: Matrix) returns (ghost e: Matrix)
    requires m >= 2 && n >= 2 && Holds(a, d, m + 1, n + 1)
    modifies a
    ensures e == Pass(d, m, n, 2) && Holds(a, e, m + 1, n + 1)
  {
    var i := 0;
    while i <= n - 2
      invariant 0 <= i <= n - 1
      invariant forall p, q | 0 <= p <= m && 0 <= q <= n && q >= i :: a[p, q] == At(d, p, q)
      invariant forall p, q | 0 <= p <= m && 0 <= q < i :: a[p, q] == ColumnEnds(d, p, q, m, n)
    {
      EndColumn(m, i, a, d);
      i := i + 1;
    }
    e := Pass(d, m, n, 2);
  }

  method EndUpperCorner(m: nat, n: nat, a: array2<real>, ghost d: Matrix) returns (ghost e: Matrix)
    requires m >= 2 && n >= 2 && Holds(a, d, m + 1, n + 1)
    modifies a
    ensures e == Pass(d, m, n, 3) && Holds(a, e, m + 1, n + 1)
  {
    var odds, evens := 0.0, 0.0;
    var j := 1;
    while j < n - 2
      invariant 1 <= j <= n - 1 && j % 2 == 1
      invariant odds == -RowSum(d, m - 1, 1, j) && evens == At(d, m - 1, 0) - RowSum(d, m - 1, 0, j)
    {
      odds := odds - a[m - 1, j];
      evens := evens - a[m - 1, j + 1];
      assert RowSum(d, m - 1, 1, j + 2) == RowSum(d, m - 1, 1, j + 1) + 0.0;
      j := j + 2;
    }
    assert RowSum(d, m - 1, 1, n - 2) == RowSum(d, m - 1, 1, j) && RowSum(d, m - 1, 0, n - 1) == RowSum(d, m - 1, 0, j);
    a[m - 1, n - 1] := odds;
    a[m - 1, n] := evens - a[m - 1, 0];
    e := Pass(d, m, n, 3);
  }

  method EndLowerCorner(m: nat, n: nat, a: array2<real>, ghost d: Matrix) returns (ghost e: Matrix)
    requires m >= 2 && n >= 2 && Holds(a, d, m + 1, n + 1)
    modifies a
    ensures e == Pass(d, m, n, 4) && Holds(a, e, m + 1, n + 1)
  {
    var odds, evens := 0.0, 0.0;
    var i := 0;
    while i < m
      invariant 0 <= i <= m + 1 && i % 2 == 0
      invariant odds == -ColSum(d, n - 1, 0, if i <= m then i else m) && evens == -ColSum(d, n, 0, if i <= m then i else m)
    {
      odds := odds - a[i, n - 1];
      evens := evens - a[i, n];
      assert i + 2 <= m ==> ColSum(d, n, 0, i + 2) == ColSum(d, n, 0, i + 1) + 0.0;
      i := i + 2;
    }
    a[m, n - 1] := odds;
    a[m, n] := evens;
    e := Pass(d, m, n, 4);
  }

  method CopyAll(src: array2<real>, dst: array2<real>)
    requires src.Length0 == dst.Length0 && src.Length1 == dst.Length1
    modifies dst
    ensures forall i, j | 0 <= i < dst.Length0 && 0 <= j < dst.Length1 :: dst[i, j] == old(src[i, j])
  {
    if src != dst {
      forall i, j | 0 <= i < dst.Length0 && 0 <= j < dst.Length1 {
        dst[i, j] := src[i, j];
      }
    }
  }

  /** src and dst may be one array. */
  method HomogeneousBoundary(m: nat, n: nat, src: array2<real>, dst: array2<real>, ghost d: Matrix) returns (ghost e: Matrix)
    requires m >= 2 && n >= 2 && src.Length0 == dst.Length0 && src.Length1 == dst.Length1
    requires Holds(src, d, m + 1, n + 1)
    modifies dst
    ensures e == Homogenized(d, m, n) && Holds(dst, e, m + 1, n + 1)
  {
    CopyAll(src, dst);
    e := EndRows(m, n, dst, d);
    e := EndColumns(m, n, dst, e);
    e := EndUpperCorner(m, n, dst, e);
    e := EndLowerCorner(m, n, dst, e);
  }
}
