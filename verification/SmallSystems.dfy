/** The 1, 2 or 4 unknowns of one pair of diagonal blocks, solved by the dense solver. */
module SmallSystems {
  import opened Matrices
  import opened GaussElimination
  import opened Sylvester

  /** The unknowns of a block in the order the code lists them: down the first column, then
      down the second. */
  ghost function Coords(y: Matrix, k: nat, ke: nat, l: nat, le: nat): seq<real> {
    if ke == k + 2 then
      if le == l + 2 then [At(y, k, l), At(y, k + 1, l), At(y, k, l + 1), At(y, k + 1, l + 1)]
      else [At(y, k, l), At(y, k + 1, l)]
    else
      if le == l + 2 then [At(y, k, l), At(y, k, l + 1)]
      else [At(y, k, l)]
  }

  function Index(i: nat, j: nat, k: nat, ke: nat, l: nat): int {
    i - k + if j == l then 0 else ke - k
  }

  function Size(k: nat, ke: nat, l: nat, le: nat): nat {
    (if ke == k + 2 then 2 else 1) * (if le == l + 2 then 2 else 1)
  }

  /** The coefficients the code writes into its local matrix. */
  ghost function Coefficients(a: Matrix, b: Matrix, k: nat, ke: nat, l: nat, le: nat): Matrix {
    if ke == k + 2 then
      if le == l + 2 then
        [[At(a, k, k) + At(b, l, l), At(a, k, k + 1), At(b, l + 1, l), 0.0],
         [At(a, k + 1, k), At(a, k + 1, k + 1) + At(b, l, l), 0.0, At(b, l + 1, l)],
         [At(b, l, l + 1), 0.0, At(a, k, k) + At(b, l + 1, l + 1), At(a, k, k + 1)],
         [0.0, At(b, l, l + 1), At(a, k + 1, k), At(a, k + 1, k + 1) + At(b, l + 1, l + 1)]]
      else
        [[At(a, k, k) + At(b, l, l), At(a, k, k + 1)],
         [At(a, k + 1, k), At(a, k + 1, k + 1) + At(b, l, l)]]
    else
      if le == l + 2 then
        [[At(a, k, k) + At(b, l, l), At(b, l + 1, l)],
         [At(b, l, l + 1), At(a, k, k) + At(b, l + 1, l + 1)]]
      else
        [[At(a, k, k) + At(b, l, l)]]
  }

  lemma Row1(t: Matrix, i: int, x: seq<real>)
    requires |x| == 1
    ensures Row(t, i, x, 1) == At(t, i, 0) * x[0]
  {
    assert Row(t, i, x, 0) == 0.0;
  }

  lemma Row2(t: Matrix, i: int, x: seq<real>)
    requires |x| == 2
    ensures Row(t, i, x, 2) == At(t, i, 0) * x[0] + At(t, i, 1) * x[1]
  {
    assert Row(t, i, x, 0) == 0.0;
    assert Row(t, i, x, 1) == At(t, i, 0) * x[0];
  }

  lemma Row4(t: Matrix, i: int, x: seq<real>)
    requires |x| == 4
    ensures Row(t, i, x, 4) == At(t, i, 0) * x[0] + At(t, i, 1) * x[1] + At(t, i, 2) * x[2] + At(t, i, 3) * x[3]
  {
    assert Row(t, i, x, 0) == 0.0;
    assert Row(t, i, x, 1) == At(t, i, 0) * x[0];
    assert Row(t, i, x, 2) == Row(t, i, x, 1) + At(t, i, 1) * x[1];
    assert Row(t, i, x, 3) == Row(t, i, x, 2) + At(t, i, 2) * x[2];
  }

  lemma SystemRow11(a: Matrix, b: Matrix, y: Matrix, k: nat, l: nat)
    ensures Row(Coefficients(a, b, k, k + 1, l, l + 1), 0, Coords(y, k, k + 1, l, l + 1), 1)
            == BlockSum(a, b, y, k, l, k, k + 1, l, l + 1)
  {
    Row1(Coefficients(a, b, k, k + 1, l, l + 1), 0, Coords(y, k, k + 1, l, l + 1));
    Distribute(At(a, k, k), At(b, l, l), At(y, k, l));
  }

  lemma SystemRow21(a: Matrix, b: Matrix, y: Matrix, k: nat, l: nat, i: nat)
    requires i < 2
    ensures Row(Coefficients(a, b, k, k + 2, l, l + 1), i, Coords(y, k, k + 2, l, l + 1), 2)
            == BlockSum(a, b, y, k + i, l, k, k + 2, l, l + 1)
  {
    Row2(Coefficients(a, b, k, k + 2, l, l + 1), i, Coords(y, k, k + 2, l, l + 1));
    Distribute(At(a, k + i, k + i), At(b, l, l), At(y, k + i, l));
  }

  lemma SystemRow12(a: Matrix, b: Matrix, y: Matrix, k: nat, l: nat, j: nat)
    requires j < 2
    ensures Row(Coefficients(a, b, k, k + 1, l, l + 2), j, Coords(y, k, k + 1, l, l + 2), 2)
            == BlockSum(a, b, y, k, l + j, k, k + 1, l, l + 2)
  {
    Row2(Coefficients(a, b, k, k + 1, l, l + 2), j, Coords(y, k, k + 1, l, l + 2));
    Distribute(At(a, k, k), At(b, l + j, l + j), At(y, k, l + j));
  }

  lemma SystemRow22(a: Matrix, b: Matrix, y: Matrix, k: nat, l: nat, i: nat, j: nat)
    requires i < 2 && j < 2
    ensures Row(Coefficients(a, b, k, k + 2, l, l + 2), i + 2 * j, Coords(y, k, k + 2, l, l + 2), 4)
            == BlockSum(a, b, y, k + i, l + j, k, k + 2, l, l + 2)
  {
    Row4(Coefficients(a, b, k, k + 2, l, l + 2), i + 2 * j, Coords(y, k, k + 2, l, l + 2));
    Distribute(At(a, k + i, k + i), At(b, l + j, l + j), At(y, k + i, l + j));
  }

  /** Row Index(i, j) of the small system is the equation of cell (i, j). */
  lemma SystemRow(a: Matrix, b: Matrix, y: Matrix, k: nat, ke: nat, l: nat, le: nat, i: nat, j: nat)
    requires IsBlock(k, ke) && IsBlock(l, le) && k <= i < ke && l <= j < le
    ensures Row(Coefficients(a, b, k, ke, l, le), Index(i, j, k, ke, l), Coords(y, k, ke, l, le), Size(k, ke, l, le))
            == BlockSum(a, b, y, i, j, k, ke, l, le)
  {
    if ke == k + 2 && le == l + 2 {
      SystemRow22(a, b, y, k, l, i - k, j - l);
    } else if ke == k + 2 {
      SystemRow21(a, b, y, k, l, i - k);
    } else if le == l + 2 {
      SystemRow12(a, b, y, k, l, j - l);
    } else {
      SystemRow11(a, b, y, k, l);
    }
  }

  /** The small system says exactly what the block equations say. */
  lemma SystemIsBlock(a: Matrix, b: Matrix, y: Matrix, r: Matrix, k: nat, ke: nat, l: nat, le: nat)
    requires IsBlock(k, ke) && IsBlock(l, le)
    ensures BlockSolves(a, b, y, r, k, ke, l, le) <==>
            Solves(Coefficients(a, b, k, ke, l, le), Coords(r, k, ke, l, le), Coords(y, k, ke, l, le), Size(k, ke, l, le))
  {
    var t, x, s, n := Coefficients(a, b, k, ke, l, le), Coords(y, k, ke, l, le), Coords(r, k, ke, l, le), Size(k, ke, l, le);
    forall i, j | k <= i < ke && l <= j < le
      ensures var q := Index(i, j, k, ke, l);
        0 <= q < n && Row(t, q, x, n) == BlockSum(a, b, y, i, j, k, ke, l, le) && s[q] == At(r, i, j)
    {
      SystemRow(a, b, y, k, ke, l, le, i, j);
    }
    if BlockSolves(a, b, y, r, k, ke, l, le) {
      forall q | 0 <= q < n
        ensures Row(t, q, x, n) == s[q]
      {
        var i, j := if q < ke - k then k + q else q - ke + 2 * k, if q < ke - k then l else l + 1;
        assert q == Index(i, j, k, ke, l);
        assert BlockSum(a, b, y, i, j, k, ke, l, le) == At(r, i, j);
      }
    }
    if Solves(t, s, x, n) {
      forall i, j | k <= i < ke && l <= j < le
        ensures BlockSum(a, b, y, i, j, k, ke, l, le) == At(r, i, j)
      {
        var q := Index(i, j, k, ke, l);
        assert Row(t, q, x, n) == s[q];
      }
    }
  }

  lemma CoordsAgree(y: Matrix, z: Matrix, k: nat, ke: nat, l: nat, le: nat)
    requires IsBlock(k, ke) && IsBlock(l, le)
    ensures Coords(y, k, ke, l, le) == Coords(z, k, ke, l, le) <==> BlockAgrees(y, z, k, ke, l, le)
  {
    var x, w := Coords(y, k, ke, l, le), Coords(z, k, ke, l, le);
    if x == w {
      forall i, j | k <= i < ke && l <= j < le
        ensures At(y, i, j) == At(z, i, j)
      {
        var q := Index(i, j, k, ke, l);
        assert x[q] == w[q];
      }
    }
  }

  /** A matrix whose block holds the given unknowns. */
  ghost function Place(x: seq<real>, k: nat, ke: nat, l: nat, le: nat): (y: Matrix)
    requires IsBlock(k, ke) && IsBlock(l, le) && |x| == Size(k, ke, l, le)
    ensures Shape(y, ke, le)
    ensures forall i, j | 0 <= i < ke && 0 <= j < le ::
              At(y, i, j) == if k <= i && l <= j then x[Index(i, j, k, ke, l)] else 0.0
  {
    seq(ke, i requires 0 <= i < ke => seq(le, j requires 0 <= j < le =>
      if k <= i && l <= j then x[Index(i, j, k, ke, l)] else 0.0))
  }

  lemma PlaceCoords(x: seq<real>, k: nat, ke: nat, l: nat, le: nat)
    requires IsBlock(k, ke) && IsBlock(l, le) && |x| == Size(k, ke, l, le)
    ensures Coords(Place(x, k, ke, l, le), k, ke, l, le) == x
  {
  }

  lemma SingularBlock(a: Matrix, b: Matrix, k: nat, ke: nat, l: nat, le: nat)
    requires IsBlock(k, ke) && IsBlock(l, le)
    requires Singular(Coefficients(a, b, k, ke, l, le), Size(k, ke, l, le))
    ensures BlockSingular(a, b, k, ke, l, le)
  {
    var t, n := Coefficients(a, b, k, ke, l, le), Size(k, ke, l, le);
    var x: seq<real> :| NonZero(x) && InKernel(t, x, n, n);
    var y := Place(x, k, ke, l, le);
    PlaceCoords(x, k, ke, l, le);
    SystemIsBlock(a, b, y, [], k, ke, l, le);
    CoordsAgree(y, [], k, ke, l, le);
    assert Coords([], k, ke, l, le) != x;
    assert BlockSolves(a, b, y, [], k, ke, l, le) && !BlockAgrees(y, [], k, ke, l, le);
  }

  // ---------- the heap ----------

  /** pp holds the solution of the block when ok; otherwise the block is singular. */
  ghost predicate BlockResult(ok: bool, pp: seq<real>, a: Matrix, b: Matrix, r: Matrix, k: nat, ke: nat, l: nat, le: nat) {
    if ok then forall y: Matrix :: BlockSolves(a, b, y, r, k, ke, l, le) <==> Coords(y, k, ke, l, le) == pp
    else BlockSingular(a, b, k, ke, l, le)
  }

  method SolveSmall(tt: array2<real>, pp: array<real>, ghost a: Matrix, ghost b: Matrix, ghost r: Matrix,
                    ghost k: nat, ghost ke: nat, ghost l: nat, ghost le: nat) returns (ok: bool)
    requires IsBlock(k, ke) && IsBlock(l, le)
    requires tt.Length0 == tt.Length1 == pp.Length == Size(k, ke, l, le)
    requires forall i, j | 0 <= i < pp.Length && 0 <= j < pp.Length :: tt[i, j] == At(Coefficients(a, b, k, ke, l, le), i, j)
    requires pp[..] == Coords(r, k, ke, l, le)
    modifies tt, pp
    ensures BlockResult(ok, pp[..], a, b, r, k, ke, l, le)
  {
    ghost var t, n := Coefficients(a, b, k, ke, l, le), pp.Length;
    SameEntries(View(tt, n, n), t, n, n);
    ok := Sysslv(tt, pp);
    if ok {
      forall y: Matrix
        ensures BlockSolves(a, b, y, r, k, ke, l, le) <==> Coords(y, k, ke, l, le) == pp[..]
      {
        SystemIsBlock(a, b, y, r, k, ke, l, le);
      }
    } else {
      SingularBlock(a, b, k, ke, l, le);
    }
  }

  /** What one block step leaves in c: the block solved, everything else as it was. */
  ghost predicate BlockDone(a: Matrix, b: Matrix, r: Matrix, z: Matrix, k: nat, ke: nat, l: nat, le: nat, m: nat, n: nat) {
    && (forall i, j | 0 <= i < m && 0 <= j < n && !(k <= i < ke && l <= j < le) :: At(z, i, j) == At(r, i, j))
    && (forall y: Matrix :: BlockSolves(a, b, y, r, k, ke, l, le) <==> BlockAgrees(y, z, k, ke, l, le))
  }

  lemma ResultPlaced(pp: seq<real>, a: Matrix, b: Matrix, r: Matrix, z: Matrix, k: nat, ke: nat, l: nat, le: nat, m: nat, n: nat)
    requires IsBlock(k, ke) && IsBlock(l, le) && BlockResult(true, pp, a, b, r, k, ke, l, le)
    requires Coords(z, k, ke, l, le) == pp
    requires forall i, j | 0 <= i < m && 0 <= j < n && !(k <= i < ke && l <= j < le) :: At(z, i, j) == At(r, i, j)
    ensures BlockDone(a, b, r, z, k, ke, l, le, m, n)
  {
    forall y: Matrix
      ensures BlockSolves(a, b, y, r, k, ke, l, le) <==> BlockAgrees(y, z, k, ke, l, le)
    {
      CoordsAgree(y, z, k, ke, l, le);
    }
  }

  method SetRow(tt: array2<real>, i: nat, x0: real, x1: real, x2: real, x3: real)
    requires tt.Length0 == tt.Length1 == 4 && i < 4
    modifies tt
    ensures tt[i, 0] == x0 && tt[i, 1] == x1 && tt[i, 2] == x2 && tt[i, 3] == x3
    ensures forall p, j | 0 <= p < 4 && 0 <= j < 4 && p != i :: tt[p, j] == old(tt[p, j])
  {
    tt[i, 0] := x0;
    tt[i, 1] := x1;
    tt[i, 2] := x2;
    tt[i, 3] := x3;
  }

  method Fill22(a: array2<real>, b: array2<real>, k: nat, l: nat, ghost a0: Matrix, ghost b0: Matrix, ghost m: nat, ghost n: nat)
    returns (tt: array2<real>)
    requires k + 2 <= m && l + 2 <= n && HoldsLower(a, a0, m) && HoldsUpper(b, b0, n)
    ensures fresh(tt) && tt.Length0 == tt.Length1 == 4
    ensures forall i, j | 0 <= i < 4 && 0 <= j < 4 :: tt[i, j] == At(Coefficients(a0, b0, k, k + 2, l, l + 2), i, j)
  {
    var kk, ll := k + 1, l + 1;
    tt := new real[4, 4];
    SetRow(tt, 0, a[k, k] + b[l, l], a[k, kk], b[ll, l], 0.0);
    SetRow(tt, 1, a[kk, k], a[kk, kk] + b[l, l], 0.0, tt[0, 2]);
    SetRow(tt, 2, b[l, ll], 0.0, a[k, k] + b[ll, ll], tt[0, 1]);
    SetRow(tt, 3, 0.0, tt[2, 0], tt[1, 0], a[kk, kk] + b[ll, ll]);
  }

  method Solve22(a: array2<real>, b: array2<real>, c: array2<real>, k: nat, l: nat,
                 ghost a0: Matrix, ghost b0: Matrix, ghost r: Matrix, m: nat, n: nat) returns (ok: bool, pp: array<real>)
    requires k + 2 <= m && l + 2 <= n && HoldsLower(a, a0, m) && HoldsUpper(b, b0, n) && Holds(c, r, m, n)
    ensures fresh(pp) && pp.Length == 4 && BlockResult(ok, pp[..], a0, b0, r, k, k + 2, l, l + 2)
  {
    var kk, ll := k + 1, l + 1;
    var tt := Fill22(a, b, k, l, a0, b0, m, n);
    pp := new real[4];
    pp[0] := c[k, l];
    pp[1] := c[kk, l];
    pp[2] := c[k, ll];
    pp[3] := c[kk, ll];
    ok := SolveSmall(tt, pp, a0, b0, r, k, k + 2, l, l + 2);
  }

  method Solve21(a: array2<real>, b: array2<real>, c: array2<real>, k: nat, l: nat,
                 ghost a0: Matrix, ghost b0: Matrix, ghost r: Matrix, m: nat, n: nat) returns (ok: bool, pp: array<real>)
    requires k + 2 <= m && l + 1 <= n && HoldsLower(a, a0, m) && HoldsUpper(b, b0, n) && Holds(c, r, m, n)
    ensures fresh(pp) && pp.Length == 2 && BlockResult(ok, pp[..], a0, b0, r, k, k + 2, l, l + 1)
  {
    var kk := k + 1;
    var tt := new real[2, 2];
    pp := new real[2];
    tt[0, 0] := a[k, k] + b[l, l];
    tt[0, 1] := a[k, kk];
    tt[1, 0] := a[kk, k];
    tt[1, 1] := a[kk, kk] + b[l, l];
    pp[0] := c[k, l];
    pp[1] := c[kk, l];
    ok := SolveSmall(tt, pp, a0, b0, r, k, k + 2, l, l + 1);
  }

  method Solve12(a: array2<real>, b: array2<real>, c: array2<real>, k: nat, l: nat,
                 ghost a0: Matrix, ghost b0: Matrix, ghost r: Matrix, m: nat, n: nat) returns (ok: bool, pp: array<real>)
    requires k + 1 <= m && l + 2 <= n && HoldsLower(a, a0, m) && HoldsUpper(b, b0, n) && Holds(c, r, m, n)
    ensures fresh(pp) && pp.Length == 2 && BlockResult(ok, pp[..], a0, b0, r, k, k + 1, l, l + 2)
  {
    var ll := l + 1;
    var tt := new real[2, 2];
    pp := new real[2];
    tt[0, 0] := a[k, k] + b[l, l];
    tt[0, 1] := b[ll, l];
    tt[1, 0] := b[l, ll];
    tt[1, 1] := a[k, k] + b[ll, ll];
    pp[0] := c[k, l];
    pp[1] := c[k, ll];
    ok := SolveSmall(tt, pp, a0, b0, r, k, k + 1, l, l + 2);
  }

  lemma ScalarBlock(a: Matrix, b: Matrix, r: Matrix, k: nat, l: nat, t: real)
    requires t == At(a, k, k) + At(b, l, l)
    ensures t == 0.0 ==> BlockSingular(a, b, k, k + 1, l, l + 1)
    ensures t != 0.0 ==> BlockResult(true, [At(r, k, l) / t], a, b, r, k, k + 1, l, l + 1)
  {
    if t == 0.0 {
      var y := Place([1.0], k, k + 1, l, l + 1);
      PlaceCoords([1.0], k, k + 1, l, l + 1);
      assert Coords(y, k, k + 1, l, l + 1)[0] == 1.0;
      Distribute(At(a, k, k), At(b, l, l), At(y, k, l));
      assert BlockSolves(a, b, y, [], k, k + 1, l, l + 1) && !BlockAgrees(y, [], k, k + 1, l, l + 1);
    } else {
      var ke, le := k + 1, l + 1;
      forall y: Matrix
        ensures BlockSolves(a, b, y, r, k, ke, l, le) <==> Coords(y, k, ke, l, le) == [At(r, k, l) / t]
      {
        ScalarEquation(a, b, y, r, k, l, t);
      }
    }
  }

  lemma ScalarEquation(a: Matrix, b: Matrix, y: Matrix, r: Matrix, k: nat, l: nat, t: real)
    requires t == At(a, k, k) + At(b, l, l) && t != 0.0
    ensures BlockSolves(a, b, y, r, k, k + 1, l, l + 1) <==> Coords(y, k, k + 1, l, l + 1) == [At(r, k, l) / t]
  {
    Distribute(At(a, k, k), At(b, l, l), At(y, k, l));
    assert BlockSum(a, b, y, k, l, k, k + 1, l, l + 1) == t * At(y, k, l);
    assert t * At(y, k, l) == At(r, k, l) <==> At(y, k, l) == At(r, k, l) / t;
    assert Coords(y, k, k + 1, l, l + 1) == [At(y, k, l)];
  }

  /** Writes the unknowns back into the block. */
  method WriteBlock(c: array2<real>, pp: array<real>, k: nat, dk: nat, l: nat, dl: nat, ghost r: Matrix, m: nat, n: nat)
    returns (ghost z: Matrix)
    requires 1 <= dk <= 2 && 1 <= dl <= 2 && k + dk <= m && l + dl <= n && Holds(c, r, m, n)
    requires pp.Length == Size(k, k + dk, l, l + dl)
    modifies c
    ensures Holds(c, z, m, n) && Coords(z, k, k + dk, l, l + dl) == pp[..]
    ensures forall i, j | 0 <= i < m && 0 <= j < n && !(k <= i < k + dk && l <= j < l + dl) :: At(z, i, j) == At(r, i, j)
  {
    var kk, ll := k + dk - 1, l + dl - 1;
    if dk == 2 {
      if dl == 2 {
        c[k, l], c[kk, l], c[k, ll], c[kk, ll] := pp[0], pp[1], pp[2], pp[3];
      } else {
        c[k, l], c[kk, l] := pp[0], pp[1];
      }
    } else if dl == 2 {
      c[k, l], c[k, ll] := pp[0], pp[1];
    } else {
      c[k, l] := pp[0];
    }
    z := View(c, m, n);
  }

  method StoreBlock(c: array2<real>, pp: array<real>, k: nat, dk: nat, l: nat, dl: nat,
                    ghost a0: Matrix, ghost b0: Matrix, ghost r: Matrix, m: nat, n: nat) returns (ghost z: Matrix)
    requires 1 <= dk <= 2 && 1 <= dl <= 2 && k + dk <= m && l + dl <= n && Holds(c, r, m, n)
    requires pp.Length == Size(k, k + dk, l, l + dl) && BlockResult(true, pp[..], a0, b0, r, k, k + dk, l, l + dl)
    modifies c
    ensures Holds(c, z, m, n) && BlockDone(a0, b0, r, z, k, k + dk, l, l + dl, m, n)
  {
    z := WriteBlock(c, pp, k, dk, l, dl, r, m, n);
    ResultPlaced(pp[..], a0, b0, r, z, k, k + dk, l, l + dl, m, n);
  }

  /** The dispatch on the two block sizes. */
  method SolveBlock(a: array2<real>, b: array2<real>, c: array2<real>, k: nat, dk: nat, l: nat, dl: nat,
                    ghost a0: Matrix, ghost b0: Matrix, ghost r: Matrix, m: nat, n: nat) returns (ok: bool, ghost z: Matrix)
    requires 1 <= dk <= 2 && 1 <= dl <= 2 && k + dk <= m && l + dl <= n && c != a && c != b
    requires HoldsLower(a, a0, m) && HoldsUpper(b, b0, n) && Holds(c, r, m, n)
    modifies c
    ensures !ok ==> BlockSingular(a0, b0, k, k + dk, l, l + dl)
    ensures ok ==> Holds(c, z, m, n) && BlockDone(a0, b0, r, z, k, k + dk, l, l + dl, m, n)
  {
    z := r;
    var pp: array<real>;
    if dk == 2 {
      if dl == 2 {
        ok, pp := Solve22(a, b, c, k, l, a0, b0, r, m, n);
      } else {
        ok, pp := Solve21(a, b, c, k, l, a0, b0, r, m, n);
      }
    } else if dl == 2 {
      ok, pp := Solve12(a, b, c, k, l, a0, b0, r, m, n);
    } else {
      var t := a[k, k] + b[l, l];
      ScalarBlock(a0, b0, r, k, l, t);
      if t == 0.0 {
        return false, z;
      }
      pp := new real[1];
      pp[0] := c[k, l] / t;
      assert pp[..] == [At(r, k, l) / t];
      ok := true;
    }
    if ok {
      z := StoreBlock(c, pp, k, dk, l, dl, a0, b0, r, m, n);
    }
  }
}
