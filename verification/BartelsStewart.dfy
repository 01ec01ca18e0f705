/** The full solver: two orthogonal changes of basis around the triangular solver, each done in
    place with one scratch column of a or one scratch row of b.  All bounds are inclusive, as in
    the source: a is (m + 1) x (m + 1) and its column m + 1 is scratch. */
module BartelsStewart {
  import opened Matrices
  import opened Sylvester
  import opened Conjugation
  import opened ShrSlv

  /** The m x n corner of c is unchanged outside column q. */
  twostate predicate OnlyColumn(c: array2<real>, q: int)
    reads c
  {
    forall i, j | 0 <= i < c.Length0 && 0 <= j < c.Length1 && j != q :: c[i, j] == old(c[i, j])
  }

  twostate predicate OnlyRow(c: array2<real>, p: int)
    reads c
  {
    forall i, j | 0 <= i < c.Length0 && 0 <= j < c.Length1 && i != p :: c[i, j] == old(c[i, j])
  }

  /** The scratch column of a becomes column j of -U'C. */
  method ColumnTransposed(mm: nat, j: nat, a: array2<real>, u: array2<real>, c: array2<real>, ghost ut: Matrix, ghost c0: Matrix)
    requires a.Length0 >= mm && a.Length1 > mm && a != u && a != c && mm <= u.Length0 && mm <= u.Length1
    requires mm <= c.Length0 && j < c.Length1
    requires forall i, k | 0 <= i < mm && 0 <= k < mm :: u[k, i] == At(ut, i, k)
    requires forall k | 0 <= k < mm :: c[k, j] == At(c0, k, j)
    modifies a
    ensures OnlyColumn(a, mm)
    ensures forall i | 0 <= i < mm :: a[i, mm] == -Dot(ut, c0, i, j, mm)
  {
    var i := 0;
    while i < mm
      invariant 0 <= i <= mm
      invariant OnlyColumn(a, mm)
      invariant forall p | 0 <= p < i :: a[p, mm] == -Dot(ut, c0, p, j, mm)
    {
      a[i, mm] := 0.0;
      var k := 0;
      while k < mm
        invariant 0 <= k <= mm
        invariant OnlyColumn(a, mm)
        invariant forall p | 0 <= p < i :: a[p, mm] == -Dot(ut, c0, p, j, mm)
        invariant a[i, mm] == -Dot(ut, c0, i, j, k)
      {
        a[i, mm] := a[i, mm] - u[k, i] * c[k, j];
        k := k + 1;
      }
      i := i + 1;
    }
  }

  /** The scratch column of a becomes column j of U Y. */
  method ColumnPlain(mm: nat, j: nat, a: array2<real>, u: array2<real>, c: array2<real>, ghost u0: Matrix, ghost c0: Matrix)
    requires a.Length0 >= mm && a.Length1 > mm && a != u && a != c && mm <= u.Length0 && mm <= u.Length1
    requires mm <= c.Length0 && j < c.Length1
    requires forall i, k | 0 <= i < mm && 0 <= k < mm :: u[i, k] == At(u0, i, k)
    requires forall k | 0 <= k < mm :: c[k, j] == At(c0, k, j)
    modifies a
    ensures OnlyColumn(a, mm)
    ensures forall i | 0 <= i < mm :: a[i, mm] == Dot(u0, c0, i, j, mm)
  {
    var i := 0;
    while i < mm
      invariant 0 <= i <= mm
      invariant OnlyColumn(a, mm)
      invariant forall p | 0 <= p < i :: a[p, mm] == Dot(u0, c0, p, j, mm)
    {
      a[i, mm] := 0.0;
      var k := 0;
      while k < mm
        invariant 0 <= k <= mm
        invariant OnlyColumn(a, mm)
        invariant forall p | 0 <= p < i :: a[p, mm] == Dot(u0, c0, p, j, mm)
        invariant a[i, mm] == Dot(u0, c0, i, j, k)
      {
        a[i, mm] := a[i, mm] + u[i, k] * c[k, j];
        k := k + 1;
      }
      i := i + 1;
    }
  }

  /** The scratch row of b becomes row i of R V. */
  method RowPlain(nn: nat, i: nat, b: array2<real>, r: array2<real>, v: array2<real>, ghost r0: Matrix, ghost v0: Matrix)
    requires b.Length0 > nn && b.Length1 >= nn && b != v && b != r && nn <= v.Length0 && nn <= v.Length1
    requires i < r.Length0 && nn <= r.Length1
    requires forall k, j | 0 <= k < nn && 0 <= j < nn :: v[k, j] == At(v0, k, j)
    requires forall k | 0 <= k < nn :: r[i, k] == At(r0, i, k)
    modifies b
    ensures OnlyRow(b, nn)
    ensures forall j | 0 <= j < nn :: b[nn, j] == Dot(r0, v0, i, j, nn)
  {
    var j := 0;
    while j < nn
      invariant 0 <= j <= nn
      invariant OnlyRow(b, nn)
      invariant forall p | 0 <= p < j :: b[nn, p] == Dot(r0, v0, i, p, nn)
    {
      b[nn, j] := 0.0;
      var k := 0;
      while k < nn
        invariant 0 <= k <= nn
        invariant OnlyRow(b, nn)
        invariant forall p | 0 <= p < j :: b[nn, p] == Dot(r0, v0, i, p, nn)
        invariant b[nn, j] == Dot(r0, v0, i, j, k)
      {
        b[nn, j] := b[nn, j] + r[i, k] * v[k, j];
        k := k + 1;
      }
      j := j + 1;
    }
  }

  /** The scratch row of b becomes row i of R V'. */
  method RowTransposed(nn: nat, i: nat, b: array2<real>, r: array2<real>, v: array2<real>, ghost r0: Matrix, ghost vt: Matrix)
    requires b.Length0 > nn && b.Length1 >= nn && b != v && b != r && nn <= v.Length0 && nn <= v.Length1
    requires i < r.Length0 && nn <= r.Length1
    requires forall k, j | 0 <= k < nn && 0 <= j < nn :: v[j, k] == At(vt, k, j)
    requires forall k | 0 <= k < nn :: r[i, k] == At(r0, i, k)
    modifies b
    ensures OnlyRow(b, nn)
    ensures forall j | 0 <= j < nn :: b[nn, j] == Dot(r0, vt, i, j, nn)
  {
    var j := 0;
    while j < nn
      invariant 0 <= j <= nn
      invariant OnlyRow(b, nn)
      invariant forall p | 0 <= p < j :: b[nn, p] == Dot(r0, vt, i, p, nn)
    {
      b[nn, j] := 0.0;
      var k := 0;
      while k < nn
        invariant 0 <= k <= nn
        invariant OnlyRow(b, nn)
        invariant forall p | 0 <= p < j :: b[nn, p] == Dot(r0, vt, i, p, nn)
        invariant b[nn, j] == Dot(r0, vt, i, j, k)
      {
        b[nn, j] := b[nn, j] + r[i, k] * v[j, k];
        k := k + 1;
      }
      j := j + 1;
    }
  }

  method CopyColumn(mm: nat, j: nat, a: array2<real>, r: array2<real>)
    requires a != r && a.Length0 >= mm && a.Length1 > mm && mm <= r.Length0 && j < r.Length1
    modifies r
    ensures forall i | 0 <= i < mm :: r[i, j] == a[i, mm]
    ensures OnlyColumn(r, j)
  {
    var i := 0;
    while i < mm
      invariant 0 <= i <= mm
      invariant forall p | 0 <= p < i :: r[p, j] == a[p, mm]
      invariant OnlyColumn(r, j)
    {
      r[i, j] := a[i, mm];
      i := i + 1;
    }
  }

  method CopyRow(nn: nat, i: nat, b: array2<real>, r: array2<real>)
    requires b != r && b.Length0 > nn && b.Length1 >= nn && i < r.Length0 && nn <= r.Length1
    modifies r
    ensures forall j | 0 <= j < nn :: r[i, j] == b[nn, j]
    ensures OnlyRow(r, i)
  {
    var j := 0;
    while j < nn
      invariant 0 <= j <= nn
      invariant forall p | 0 <= p < j :: r[i, p] == b[nn, p]
      invariant OnlyRow(r, i)
    {
      r[i, j] := b[nn, j];
      j := j + 1;
    }
  }

  /** r := -U'C, one column at a time; c and r may be the same array. */
  method ApplyTransposed(m: nat, n: nat, a: array2<real>, u: array2<real>, c: array2<real>, r: array2<real>,
                         ghost a0: Matrix, ghost u0: Matrix, ghost c0: Matrix)
    requires a != u && a != c && a != r && u != r && a.Length1 > m + 1
    requires HoldsLower(a, a0, m + 1) && Holds(u, u0, m + 1, m + 1) && Holds(c, c0, m + 1, n + 1)
    requires m < r.Length0 && n < r.Length1
    modifies a, r
    ensures HoldsLower(a, a0, m + 1)
    ensures Holds(r, Neg(Mul(Transpose(u0, m + 1, m + 1), c0, m + 1, m + 1, n + 1), m + 1, n + 1), m + 1, n + 1)
  {
    ghost var ut := Transpose(u0, m + 1, m + 1);
    var j := 0;
    while j <= n
      invariant 0 <= j <= n + 1
      invariant HoldsLower(a, a0, m + 1) && Holds(u, u0, m + 1, m + 1)
      invariant forall i, q | 0 <= i <= m && 0 <= q < j :: r[i, q] == -Dot(ut, c0, i, q, m + 1)
      invariant forall i, q | 0 <= i <= m && j <= q <= n :: c[i, q] == At(c0, i, q)
    {
      ColumnTransposed(m + 1, j, a, u, c, ut, c0);
      CopyColumn(m + 1, j, a, r);
      j := j + 1;
    }
  }

  /** r := U r, one column at a time. */
  method ApplyPlain(m: nat, n: nat, a: array2<real>, u: array2<real>, r: array2<real>,
                    ghost a0: Matrix, ghost u0: Matrix, ghost r0: Matrix)
    requires a != u && a != r && u != r && a.Length1 > m + 1
    requires HoldsLower(a, a0, m + 1) && Holds(u, u0, m + 1, m + 1) && Holds(r, r0, m + 1, n + 1)
    modifies a, r
    ensures HoldsLower(a, a0, m + 1)
    ensures Holds(r, Mul(u0, r0, m + 1, m + 1, n + 1), m + 1, n + 1)
  {
    var j := 0;
    while j <= n
      invariant 0 <= j <= n + 1
      invariant HoldsLower(a, a0, m + 1) && Holds(u, u0, m + 1, m + 1)
      invariant forall i, q | 0 <= i <= m && 0 <= q < j :: r[i, q] == Dot(u0, r0, i, q, m + 1)
      invariant forall i, q | 0 <= i <= m && j <= q <= n :: r[i, q] == At(r0, i, q)
    {
      ColumnPlain(m + 1, j, a, u, r, u0, r0);
      CopyColumn(m + 1, j, a, r);
      j := j + 1;
    }
  }

  /** r := r V, one row at a time. */
  method ApplyRight(m: nat, n: nat, b: array2<real>, v: array2<real>, r: array2<real>,
                    ghost b0: Matrix, ghost v0: Matrix, ghost r0: Matrix)
    requires b != v && b != r && v != r && b.Length0 > n + 1
    requires HoldsUpper(b, b0, n + 1) && Holds(v, v0, n + 1, n + 1) && Holds(r, r0, m + 1, n + 1)
    modifies b, r
    ensures HoldsUpper(b, b0, n + 1)
    ensures Holds(r, Mul(r0, v0, m + 1, n + 1, n + 1), m + 1, n + 1)
  {
    var i := 0;
    while i <= m
      invariant 0 <= i <= m + 1
      invariant HoldsUpper(b, b0, n + 1) && Holds(v, v0, n + 1, n + 1)
      invariant forall p, q | 0 <= p < i && 0 <= q <= n :: r[p, q] == Dot(r0, v0, p, q, n + 1)
      invariant forall p, q | i <= p <= m && 0 <= q <= n :: r[p, q] == At(r0, p, q)
    {
      RowPlain(n + 1, i, b, r, v, r0, v0);
      CopyRow(n + 1, i, b, r);
      i := i + 1;
    }
  }

  /** r := r V', one row at a time. */
  method ApplyRightTransposed(m: nat, n: nat, b: array2<real>, v: array2<real>, r: array2<real>,
                              ghost b0: Matrix, ghost v0: Matrix, ghost r0: Matrix)
    requires b != v && b != r && v != r && b.Length0 > n + 1
    requires HoldsUpper(b, b0, n + 1) && Holds(v, v0, n + 1, n + 1) && Holds(r, r0, m + 1, n + 1)
    modifies b, r
    ensures HoldsUpper(b, b0, n + 1)
    ensures Holds(r, Mul(r0, Transpose(v0, n + 1, n + 1), m + 1, n + 1, n + 1), m + 1, n + 1)
  {
    ghost var vt := Transpose(v0, n + 1, n + 1);
    var i := 0;
    while i <= m
      invariant 0 <= i <= m + 1
      invariant HoldsUpper(b, b0, n + 1) && Holds(v, v0, n + 1, n + 1)
      invariant forall p, q | 0 <= p < i && 0 <= q <= n :: r[p, q] == Dot(r0, vt, p, q, n + 1)
      invariant forall p, q | i <= p <= m && 0 <= q <= n :: r[p, q] == At(r0, p, q)
    {
      RowTransposed(n + 1, i, b, r, v, r0, vt);
      CopyRow(n + 1, i, b, r);
      i := i + 1;
    }
  }

  lemma RightHandSide(u: Matrix, c: Matrix, v: Matrix, m: nat, n: nat)
    requires Shape(v, n, n)
    ensures Mul(Neg(Mul(Transpose(u, m, m), c, m, m, n), m, n), v, m, n, n) ==
            Conj(Transpose(u, m, m), Neg(c, m, n), Transpose(v, n, n), m, n)
  {
    MulNegRight(Transpose(u, m, m), c, m, m, n);
    TransposeTwice(v, n, n);
  }

  /** When it returns, rslt is the one and only X with (U A U') X + X (V B V') = -C, whatever the
      scratch column of a and the scratch row of b held; it fails exactly when that equation is
      singular.  u and v may be one array, and so may c and rslt. */
  method BsSolve(m: nat, n: nat, a: array2<real>, b: array2<real>, u: array2<real>, v: array2<real>,
                 c: array2<real>, rslt: array2<real>,
                 ghost a0: Matrix, ghost b0: Matrix, ghost u0: Matrix, ghost v0: Matrix, ghost c0: Matrix)
    returns (ok: bool, ghost x: Matrix)
    requires a != b && a != u && a != v && a != c && a != rslt && b != u && b != v && b != c && b != rslt
    requires u != rslt && v != rslt && a.Length1 > m + 1 && b.Length0 > n + 1
    requires HoldsLower(a, a0, m + 1) && HoldsUpper(b, b0, n + 1)
    requires Holds(u, u0, m + 1, m + 1) && Holds(v, v0, n + 1, n + 1) && Holds(c, c0, m + 1, n + 1)
    requires m < rslt.Length0 && n < rslt.Length1
    requires LowerQuasi(a0, m + 1) && UpperQuasi(b0, n + 1) && Orthogonal(u0, m + 1) && Orthogonal(v0, n + 1)
    modifies a, b, rslt
    ensures HoldsLower(a, a0, m + 1) && HoldsUpper(b, b0, n + 1)
    ensures ok ==> Holds(rslt, x, m + 1, n + 1)
    ensures ok ==> OnlySolution(Conj(u0, a0, u0, m + 1, m + 1), Conj(v0, b0, v0, n + 1, n + 1),
                                x, Neg(c0, m + 1, n + 1), m + 1, n + 1)
    ensures ok <==> !SylvesterSingular(Conj(u0, a0, u0, m + 1, m + 1), Conj(v0, b0, v0, n + 1, n + 1), m + 1, n + 1)
  {
    ghost var mm, nn := m + 1, n + 1;
    ghost var r := Neg(Mul(Transpose(u0, mm, mm), c0, mm, mm, nn), mm, nn);
    ApplyTransposed(m, n, a, u, c, rslt, a0, u0, c0);
    ApplyRight(m, n, b, v, rslt, b0, v0, r);
    r := Mul(r, v0, mm, nn, nn);
    ghost var y;
    ok, y := Shrslv(m, n, a, b, rslt, a0, b0, r);
    SingularCorrespond(a0, b0, u0, v0, mm, nn);
    if !ok {
      x := [];
      return;
    }
    ApplyPlain(m, n, a, u, rslt, a0, u0, y);
    ApplyRightTransposed(m, n, b, v, rslt, b0, v0, Mul(u0, y, mm, mm, nn));
    x := Conj(u0, y, v0, mm, nn);
    RightHandSide(u0, c0, v0, mm, nn);
    OnlySolutionCorrespond(a0, b0, u0, v0, y, Neg(c0, mm, nn), mm, nn);
  }

  lemma ConjTranspose(u: Matrix, t: Matrix, m: nat)
    requires Shape(u, m, m)
    ensures Conj(u, Transpose(t, m, m), u, m, m) == Transpose(Conj(u, t, u, m, m), m, m)
  {
    var ut, tt := Transpose(u, m, m), Transpose(t, m, m);
    TransposeProduct(Mul(u, t, m, m, m), ut, m, m, m);
    TransposeProduct(u, t, m, m, m);
    TransposeTwice(u, m, m);
    MulAssociative(u, tt, ut, m, m, m, m);
  }

  lemma TransposeQuasi(t: Matrix, m: nat)
    requires UpperQuasi(t, m)
    ensures LowerQuasi(Transpose(t, m, m), m)
  {
    var l := Transpose(t, m, m);
    forall i, p | 0 <= i && i + 1 < p < m
      ensures At(l, i, p) == 0.0
    {
      assert At(t, p, i) == 0.0;
    }
    forall i, p, q | 0 <= i && p == i + 1 && q == p + 1 < m
      ensures At(l, i, p) == 0.0 || At(l, p, q) == 0.0
    {
      assert At(t, p, i) == 0.0 || At(t, q, p) == 0.0;
    }
  }

  method TransposedCopy(a: array2<real>) returns (b: array2<real>)
    ensures fresh(b) && b.Length0 == a.Length1 && b.Length1 == a.Length0
    ensures forall i, j | 0 <= i < b.Length0 && 0 <= j < b.Length1 :: b[i, j] == a[j, i]
  {
    b := new real[a.Length1, a.Length0];
    forall i, j | 0 <= i < b.Length0 && 0 <= j < b.Length1 {
      b[i, j] := a[j, i];
    }
  }

  /** The square form: with D = U T U', rslt is the one and only X with D'X + X D = -C. */
  method BsSolveSquare(m: nat, a: array2<real>, u: array2<real>, c: array2<real>, rslt: array2<real>,
                       ghost t0: Matrix, ghost u0: Matrix, ghost c0: Matrix) returns (ok: bool, ghost x: Matrix)
    requires a != u && a != c && a != rslt && u != rslt && a.Length0 > m + 1
    requires HoldsUpper(a, t0, m + 1) && Holds(u, u0, m + 1, m + 1) && Holds(c, c0, m + 1, m + 1)
    requires m < rslt.Length0 && m < rslt.Length1
    requires UpperQuasi(t0, m + 1) && Orthogonal(u0, m + 1)
    modifies a, rslt
    ensures HoldsUpper(a, t0, m + 1)
    ensures ok ==> Holds(rslt, x, m + 1, m + 1)
    ensures var d := Conj(u0, t0, u0, m + 1, m + 1);
      && (ok ==> OnlySolution(Transpose(d, m + 1, m + 1), d, x, Neg(c0, m + 1, m + 1), m + 1, m + 1))
      && (ok <==> !SylvesterSingular(Transpose(d, m + 1, m + 1), d, m + 1, m + 1))
  {
    ghost var mm := m + 1;
    var b := TransposedCopy(a);
    ghost var b0 := Transpose(t0, mm, mm);
    TransposeQuasi(t0, mm);
    ok, x := BsSolve(m, m, b, a, u, u, c, rslt, b0, t0, u0, u0, c0);
    ConjTranspose(u0, t0, mm);
  }
}
