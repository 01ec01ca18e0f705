/** From two full matrices to the solution: the reductions to Hessenberg and to Schur form, the
    transposition, and the solver behind them.  The iteration that computes a Schur form is a
    parameter with its result as hypothesis. */
module MatrixEquation {
  import opened Matrices
  import opened Sylvester
  import opened Conjugation
  import opened HouseholderSpec
  import opened Householder
  import opened BartelsStewart

  datatype SchurResult = Failed | Schur(t: Matrix, w: Matrix)

  /** Where it does not fail, the iteration turns u h u' into w t w' with w orthogonal and t upper
      quasi-triangular. */
  ghost predicate SchurAt(schur: (nat, Matrix, Matrix) -> SchurResult, m: nat, h: Matrix, u: Matrix) {
    Shape(h, m + 1, m + 1) && UpperHessenberg(h, m) && Orthogonal(u, m + 1) && schur(m, h, u).Schur? ==>
      IsSchurForm(schur(m, h, u), Conj(u, h, u, m + 1, m + 1), m)
  }

  ghost predicate IsSchurForm(s: SchurResult, d: Matrix, m: nat) {
    && s.Schur? && Shape(s.t, m + 1, m + 1) && UpperQuasi(s.t, m + 1) && Orthogonal(s.w, m + 1)
    && Conj(s.w, s.t, s.w, m + 1, m + 1) == d
  }

  ghost predicate ExactSchur(schur: (nat, Matrix, Matrix) -> SchurResult) {
    forall m: nat, h: Matrix, u: Matrix :: SchurAt(schur, m, h, u)
  }

  // ---------- the Schur form in place ----------

  method ReadHessenberg(m: nat, a: array2<real>, ghost h: Matrix) returns (r: Matrix)
    requires HoldsUpper(a, h, m + 1) && UpperHessenberg(h, m)
    ensures r == h
  {
    r := seq(m + 1, i requires 0 <= i <= m reads a =>
      seq(m + 1, j requires 0 <= j <= m reads a => if i <= j + 1 then a[i, j] else 0.0));
    SameEntries(r, h, m + 1, m + 1);
  }

  method ReadCorner(m: nat, u: array2<real>, ghost u0: Matrix) returns (r: Matrix)
    requires Holds(u, u0, m + 1, m + 1)
    ensures r == u0
  {
    r := seq(m + 1, i requires 0 <= i <= m reads u => seq(m + 1, j requires 0 <= j <= m reads u => u[i, j]));
    SameEntries(r, u0, m + 1, m + 1);
  }

  /** The numbers below the first subdiagonal of a are neither read nor written. */
  method SchurInPlace(m: nat, a: array2<real>, u: array2<real>, schur: (nat, Matrix, Matrix) -> SchurResult,
      ghost h: Matrix, ghost u0: Matrix) returns (ok: bool, ghost s: SchurResult)
    requires a != u && HoldsUpper(a, h, m + 1) && UpperHessenberg(h, m)
    requires Holds(u, u0, m + 1, m + 1) && Orthogonal(u0, m + 1) && ExactSchur(schur)
    modifies a, u
    ensures ok ==> IsSchurForm(s, Conj(u0, h, u0, m + 1, m + 1), m)
    ensures ok ==> HoldsUpper(a, s.t, m + 1) && Holds(u, s.w, m + 1, m + 1)
  {
    var hh := ReadHessenberg(m, a, h);
    var uu := ReadCorner(m, u, u0);
    assert SchurAt(schur, m, h, u0);
    var r := schur(m, hh, uu);
    s := r;
    ok := r.Schur?;
    if ok {
      forall i, j | 0 <= i <= m && 0 <= j <= m && i <= j + 1 {
        a[i, j] := r.t[i][j];
      }
      forall i, j | 0 <= i <= m && 0 <= j <= m {
        u[i, j] := r.w[i][j];
      }
    }
  }

  // ---------- both reductions ----------

  /** A full matrix and its orthogonal similarity to Hessenberg form. */
  lemma CongruentBack(u: Matrix, a: Matrix, n: nat)
    requires Orthogonal(u, n) && Shape(a, n, n)
    ensures Conj(u, Congruent(u, a, n), u, n, n) == a
  {
    var ut := Transpose(u, n, n);
    OrthogonalTranspose(u, n);
    ConjInverse(ut, a, ut, n, n);
  }

  /** The reduction of one matrix, with its orthogonal matrix in u. */
  method InitAu(m: nat, a: array2<real>, u: array2<real>, sqrt: real -> real,
      schur: (nat, Matrix, Matrix) -> SchurResult, ghost a0: Matrix) returns (ok: bool, ghost s: SchurResult)
    requires m >= 2 && a != u && m + 1 < a.Length0 && m + 1 < a.Length1 && m < u.Length0 && m < u.Length1
    requires Holds(a, a0, m + 1, m + 1) && ExactRoot(sqrt) && ExactSchur(schur)
    modifies a, u
    ensures ok ==> IsSchurForm(s, a0, m) && HoldsUpper(a, s.t, m + 1) && Holds(u, s.w, m + 1, m + 1)
  {
    ghost var u0, h := HessenbergForm(m, a, u, sqrt, a0);
    CongruentBack(u0, a0, m + 1);
    ok, s := SchurInPlace(m, a, u, schur, h, u0);
  }

  method TransposeInPlace(m: nat, a: array2<real>)
    requires m < a.Length0 && m < a.Length1
    modifies a
    ensures forall i, j | 0 <= i <= m && 0 <= j <= m :: a[i, j] == old(a[j, i])
  {
    for i := 0 to m + 1
      invariant forall p, q | 0 <= p <= m && 0 <= q <= m ::
        a[p, q] == if p < i || q < i then old(a[q, p]) else old(a[p, q])
    {
      for j := i + 1 to m + 1
        invariant forall p, q | 0 <= p <= m && 0 <= q <= m ::
          a[p, q] == if p < i || q < i || (p == i && q < j) || (q == i && p < j) then old(a[q, p]) else old(a[p, q])
      {
        a[i, j], a[j, i] := a[j, i], a[i, j];
      }
    }
  }

  /** Both matrices reduced, the first one transposed: w t' w' is then the transpose of the old a. */
  method InitAbuv(m: nat, n: nat, a: array2<real>, b: array2<real>, u: array2<real>, v: array2<real>, sqrt: real -> real,
      schur: (nat, Matrix, Matrix) -> SchurResult, ghost a0: Matrix, ghost b0: Matrix)
    returns (ok: bool, ghost s: SchurResult, ghost r: SchurResult)
    requires m >= 2 && n >= 2 && a != u && b != v && a != b && a != v && u != b && u != v
    requires m + 1 < a.Length0 && m + 1 < a.Length1 && m < u.Length0 && m < u.Length1
    requires n + 1 < b.Length0 && n + 1 < b.Length1 && n < v.Length0 && n < v.Length1
    requires Holds(a, a0, m + 1, m + 1) && Holds(b, b0, n + 1, n + 1) && ExactRoot(sqrt) && ExactSchur(schur)
    modifies a, b, u, v
    ensures ok ==> IsSchurForm(s, a0, m) && HoldsLower(a, Transpose(s.t, m + 1, m + 1), m + 1) && Holds(u, s.w, m + 1, m + 1)
    ensures ok ==> IsSchurForm(r, b0, n) && HoldsUpper(b, r.t, n + 1) && Holds(v, r.w, n + 1, n + 1)
  {
    r := Failed;
    ok, s := InitAu(m, a, u, sqrt, schur, a0);
    if !ok {
      return;
    }
    TransposeInPlace(m, a);
    ok, r := InitAu(n, b, v, sqrt, schur, b0);
  }

  // ---------- the solution ----------

  datatype Outcome = NoSchurForm | Singular | Solved

  /** Reduction and solver together: rslt is the one and only X with A'X + X B = -C, for the matrices
      a and b as they were. */
  method SolveEquation(m: nat, n: nat, a: array2<real>, b: array2<real>, u: array2<real>, v: array2<real>,
      c: array2<real>, rslt: array2<real>, sqrt: real -> real, schur: (nat, Matrix, Matrix) -> SchurResult,
      ghost a0: Matrix, ghost b0: Matrix, ghost c0: Matrix) returns (outcome: Outcome, ghost x: Matrix)
    requires m >= 2 && n >= 2 && a != u && b != v && a != b && a != v && u != b && u != v
    requires c != a && c != b && c != u && c != v && rslt != a && rslt != b && rslt != u && rslt != v
    requires m + 1 < a.Length0 && m + 1 < a.Length1 && m < u.Length0 && m < u.Length1
    requires n + 1 < b.Length0 && n + 1 < b.Length1 && n < v.Length0 && n < v.Length1
    requires m < rslt.Length0 && n < rslt.Length1 && Holds(c, c0, m + 1, n + 1)
    requires Holds(a, a0, m + 1, m + 1) && Holds(b, b0, n + 1, n + 1) && ExactRoot(sqrt) && ExactSchur(schur)
    modifies a, b, u, v, rslt
    ensures outcome == Solved ==> Holds(rslt, x, m + 1, n + 1)
    ensures outcome == Solved ==>
      OnlySolution(Transpose(a0, m + 1, m + 1), b0, x, Neg(c0, m + 1, n + 1), m + 1, n + 1)
    ensures outcome == Singular ==> SylvesterSingular(Transpose(a0, m + 1, m + 1), b0, m + 1, n + 1)
    ensures outcome == Solved ==> !SylvesterSingular(Transpose(a0, m + 1, m + 1), b0, m + 1, n + 1)
  {
    x := [];
    var ok: bool;
    ghost var s, r;
    ok, s, r := InitAbuv(m, n, a, b, u, v, sqrt, schur, a0, b0);
    if !ok {
      return NoSchurForm, x;
    }
    ghost var mm := m + 1;
    TransposeQuasi(s.t, mm);
    ConjTranspose(s.w, s.t, mm);
    ok, x := BsSolve(m, n, a, b, u, v, c, rslt, Transpose(s.t, mm, mm), r.t, s.w, r.w, c0);
    outcome := if ok then Solved else Singular;
  }

  /** The square case: rslt is the one and only X with A'X + X A = -C. */
  method SolveSquareEquation(m: nat, a: array2<real>, u: array2<real>, c: array2<real>, rslt: array2<real>, sqrt: real -> real,
      schur: (nat, Matrix, Matrix) -> SchurResult, ghost a0: Matrix, ghost c0: Matrix) returns (outcome: Outcome, ghost x: Matrix)
    requires m >= 2 && a != u && c != a && c != u && rslt != a && rslt != u
    requires m + 1 < a.Length0 && m + 1 < a.Length1 && m < u.Length0 && m < u.Length1
    requires m < rslt.Length0 && m < rslt.Length1 && Holds(c, c0, m + 1, m + 1)
    requires Holds(a, a0, m + 1, m + 1) && ExactRoot(sqrt) && ExactSchur(schur)
    modifies a, u, rslt
    ensures outcome == Solved ==> Holds(rslt, x, m + 1, m + 1)
    ensures outcome == Solved ==>
      OnlySolution(Transpose(a0, m + 1, m + 1), a0, x, Neg(c0, m + 1, m + 1), m + 1, m + 1)
    ensures outcome == Singular ==> SylvesterSingular(Transpose(a0, m + 1, m + 1), a0, m + 1, m + 1)
    ensures outcome == Solved ==> !SylvesterSingular(Transpose(a0, m + 1, m + 1), a0, m + 1, m + 1)
  {
    x := [];
    var ok: bool;
    ghost var s;
    ok, s := InitAu(m, a, u, sqrt, schur, a0);
    if !ok {
      return NoSchurForm, x;
    }
    ok, x := BsSolveSquare(m, a, u, c, rslt, s.t, s.w, c0);
    outcome := if ok then Solved else Singular;
  }
}
