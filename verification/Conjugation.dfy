/** Orthogonal changes of basis carry one Sylvester equation into another. */
module Conjugation {
  import opened Matrices
  import opened Sylvester

  /** U Y V' */
  ghost function Conj(u: Matrix, y: Matrix, v: Matrix, m: nat, n: nat): (c: Matrix)
    ensures Shape(c, m, n)
  {
    Mul(Mul(u, y, m, m, n), Transpose(v, n, n), m, n, n)
  }

  lemma OrthogonalTranspose(u: Matrix, n: nat)
    requires Orthogonal(u, n)
    ensures Orthogonal(Transpose(u, n, n), n) && Transpose(Transpose(u, n, n), n, n) == u
  {
    TransposeTwice(u, n, n);
  }

  /** Neighbouring changes of basis cancel: (U P W')(W Q V') = U (P Q) V'. */
  lemma ConjProduct(u: Matrix, p: Matrix, w: Matrix, q: Matrix, v: Matrix, m: nat, k: nat, n: nat)
    requires Orthogonal(w, k) && Shape(q, k, n)
    ensures Mul(Conj(u, p, w, m, k), Conj(w, q, v, k, n), m, k, n) == Conj(u, Mul(p, q, m, k, n), v, m, n)
  {
    var wt, vt := Transpose(w, k, k), Transpose(v, n, n);
    var s, t := Mul(u, p, m, m, k), Mul(w, q, k, k, n);
    calc {
      Mul(Mul(s, wt, m, k, k), Mul(t, vt, k, n, n), m, k, n);
      { MulAssociative(Mul(s, wt, m, k, k), t, vt, m, k, n, n); }
      Mul(Mul(Mul(s, wt, m, k, k), t, m, k, n), vt, m, n, n);
      { MulAssociative(s, wt, t, m, k, k, n); MulAssociative(wt, w, q, k, k, k, n); MulIdentityLeft(q, k, n); }
      Mul(Mul(s, q, m, k, n), vt, m, n, n);
      { MulAssociative(u, p, q, m, m, k, n); }
      Mul(Mul(u, Mul(p, q, m, k, n), m, m, n), vt, m, n, n);
    }
  }

  lemma ConjAdd(u: Matrix, y: Matrix, z: Matrix, v: Matrix, m: nat, n: nat)
    ensures Conj(u, Add(y, z, m, n), v, m, n) == Add(Conj(u, y, v, m, n), Conj(u, z, v, m, n), m, n)
  {
    MulAddRight(u, y, z, m, m, n);
    MulAddLeft(Mul(u, y, m, m, n), Mul(u, z, m, m, n), Transpose(v, n, n), m, n, n);
  }

  /** Going there and back again changes nothing. */
  lemma ConjInverse(u: Matrix, y: Matrix, v: Matrix, m: nat, n: nat)
    requires Orthogonal(u, m) && Orthogonal(v, n) && Shape(y, m, n)
    ensures Conj(Transpose(u, m, m), Conj(u, y, v, m, n), Transpose(v, n, n), m, n) == y
  {
    var ut, vt := Transpose(u, m, m), Transpose(v, n, n);
    TransposeTwice(v, n, n);
    var uy := Mul(u, y, m, m, n);
    calc {
      Mul(Mul(ut, Mul(uy, vt, m, n, n), m, m, n), v, m, n, n);
      { MulAssociative(ut, uy, vt, m, m, n, n); }
      Mul(Mul(Mul(ut, uy, m, m, n), vt, m, n, n), v, m, n, n);
      { MulAssociative(ut, u, y, m, m, m, n); MulIdentityLeft(y, m, n); }
      Mul(Mul(y, vt, m, n, n), v, m, n, n);
      { MulAssociative(y, vt, v, m, n, n, n); MulIdentityRight(y, m, n); }
      y;
    }
  }

  ghost function SylvesterSum(a: Matrix, b: Matrix, y: Matrix, m: nat, n: nat): (c: Matrix)
    ensures Shape(c, m, n)
    ensures forall i, j | 0 <= i < m && 0 <= j < n :: At(c, i, j) == Lhs(a, b, y, i, j, m, n)
  {
    Add(Mul(a, y, m, m, n), Mul(y, b, m, n, n), m, n)
  }

  lemma SumSolves(a: Matrix, b: Matrix, y: Matrix, c: Matrix, m: nat, n: nat)
    requires Shape(y, m, n) && Shape(c, m, n)
    ensures SolvesSylvester(a, b, y, c, m, n) <==> SylvesterSum(a, b, y, m, n) == c
  {
    var s := SylvesterSum(a, b, y, m, n);
    if SolvesSylvester(a, b, y, c, m, n) {
      forall i, j | 0 <= i < m && 0 <= j < n
        ensures At(s, i, j) == At(c, i, j)
      {
        assert Lhs(a, b, y, i, j, m, n) == At(c, i, j);
      }
      SameEntries(s, c, m, n);
    }
    if s == c {
      forall i, j | 0 <= i < m && 0 <= j < n
        ensures Lhs(a, b, y, i, j, m, n) == At(c, i, j)
      {
        assert At(s, i, j) == At(c, i, j);
      }
    }
  }

  lemma SumConjugates(a: Matrix, b: Matrix, u: Matrix, v: Matrix, y: Matrix, m: nat, n: nat)
    requires Orthogonal(u, m) && Orthogonal(v, n) && Shape(b, n, n) && Shape(y, m, n)
    ensures SylvesterSum(Conj(u, a, u, m, m), Conj(v, b, v, n, n), Conj(u, y, v, m, n), m, n)
            == Conj(u, SylvesterSum(a, b, y, m, n), v, m, n)
  {
    ConjProduct(u, a, u, y, v, m, m, n);
    ConjProduct(u, y, v, b, v, m, n, n);
    ConjAdd(u, Mul(a, y, m, m, n), Mul(y, b, m, n, n), v, m, n);
  }

  /** X solves (U A U') X + X (V B V') = C exactly when U' X V solves A Y + Y B = U' C V. */
  lemma SolutionsCorrespond(a: Matrix, b: Matrix, u: Matrix, v: Matrix, x: Matrix, c: Matrix, m: nat, n: nat)
    requires Orthogonal(u, m) && Orthogonal(v, n) && Shape(b, n, n) && Shape(x, m, n) && Shape(c, m, n)
    ensures SolvesSylvester(Conj(u, a, u, m, m), Conj(v, b, v, n, n), x, c, m, n) <==>
            SolvesSylvester(a, b, Conj(Transpose(u, m, m), x, Transpose(v, n, n), m, n),
                            Conj(Transpose(u, m, m), c, Transpose(v, n, n), m, n), m, n)
  {
    var ut, vt := Transpose(u, m, m), Transpose(v, n, n);
    var y, r := Conj(ut, x, vt, m, n), Conj(ut, c, vt, m, n);
    OrthogonalTranspose(u, m);
    OrthogonalTranspose(v, n);
    ConjInverse(ut, x, vt, m, n);
    ConjInverse(ut, c, vt, m, n);
    SumConjugates(a, b, u, v, y, m, n);
    var s := SylvesterSum(a, b, y, m, n);
    ConjInverse(u, s, v, m, n);
    SumSolves(a, b, y, r, m, n);
    SumSolves(Conj(u, a, u, m, m), Conj(v, b, v, n, n), x, c, m, n);
  }

  lemma ConjZero(u: Matrix, v: Matrix, m: nat, n: nat)
    ensures Conj(u, Zero(m, n), v, m, n) == Zero(m, n)
  {
    forall i, j | 0 <= i < m && 0 <= j < n
      ensures Dot(u, Zero(m, n), i, j, m) == 0.0
    {
      DotZero(u, Zero(m, n), i, j, 0, m);
    }
    SameEntries(Mul(u, Zero(m, n), m, m, n), Zero(m, n), m, n);
    forall i, j | 0 <= i < m && 0 <= j < n
      ensures Dot(Zero(m, n), Transpose(v, n, n), i, j, n) == 0.0
    {
      DotZero(Zero(m, n), Transpose(v, n, n), i, j, 0, n);
    }
    SameEntries(Conj(u, Zero(m, n), v, m, n), Zero(m, n), m, n);
  }

  /** The changed equation is singular exactly when the triangular one is. */
  lemma SingularCorrespond(a: Matrix, b: Matrix, u: Matrix, v: Matrix, m: nat, n: nat)
    requires Orthogonal(u, m) && Orthogonal(v, n) && Shape(b, n, n)
    ensures SylvesterSingular(Conj(u, a, u, m, m), Conj(v, b, v, n, n), m, n) <==> SylvesterSingular(a, b, m, n)
  {
    var ut, vt := Transpose(u, m, m), Transpose(v, n, n);
    var d, e, z := Conj(u, a, u, m, m), Conj(v, b, v, n, n), Zero(m, n);
    ConjZero(u, v, m, n);
    ConjZero(ut, vt, m, n);
    OrthogonalTranspose(u, m);
    OrthogonalTranspose(v, n);
    if SylvesterSingular(d, e, m, n) {
      var x: Matrix :| SolvesSylvester(d, e, x, z, m, n) && x != z;
      SolutionsCorrespond(a, b, u, v, x, z, m, n);
      ConjInverse(ut, x, vt, m, n);
      assert SolvesSylvester(a, b, Conj(ut, x, vt, m, n), z, m, n) && Conj(ut, x, vt, m, n) != z;
    }
    if SylvesterSingular(a, b, m, n) {
      var y: Matrix :| SolvesSylvester(a, b, y, z, m, n) && y != z;
      var x := Conj(u, y, v, m, n);
      ConjInverse(u, y, v, m, n);
      SolutionsCorrespond(a, b, u, v, x, z, m, n);
      assert SolvesSylvester(d, e, x, z, m, n) && x != z;
    }
  }

  /** The one solution of the triangular equation, carried back, is the one solution of the
      original equation. */
  lemma OnlySolutionCorrespond(a: Matrix, b: Matrix, u: Matrix, v: Matrix, y: Matrix, c: Matrix, m: nat, n: nat)
    requires Orthogonal(u, m) && Orthogonal(v, n) && Shape(b, n, n) && Shape(c, m, n)
    requires OnlySolution(a, b, y, Conj(Transpose(u, m, m), c, Transpose(v, n, n), m, n), m, n)
    ensures OnlySolution(Conj(u, a, u, m, m), Conj(v, b, v, n, n), Conj(u, y, v, m, n), c, m, n)
  {
    var ut, vt := Transpose(u, m, m), Transpose(v, n, n);
    var d, e, r := Conj(u, a, u, m, m), Conj(v, b, v, n, n), Conj(ut, c, vt, m, n);
    assert SolvesSylvester(a, b, y, r, m, n);
    ConjInverse(u, y, v, m, n);
    OrthogonalTranspose(u, m);
    OrthogonalTranspose(v, n);
    forall x: Matrix
      ensures SolvesSylvester(d, e, x, c, m, n) <==> x == Conj(u, y, v, m, n)
    {
      if Shape(x, m, n) {
        SolutionsCorrespond(a, b, u, v, x, c, m, n);
        ConjInverse(ut, x, vt, m, n);
      }
    }
  }
}
