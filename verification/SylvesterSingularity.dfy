/** Why the solver is right to give up: one singular block makes the whole equation singular. */
module SylvesterSingularity {
  import opened Matrices
  import opened GaussElimination
  import opened Sylvester
  import opened SmallSystems

  /** y with the cells of one block taken from w. */
  ghost function Overwrite(y: Matrix, w: Matrix, k: nat, ke: nat, l: nat, le: nat, m: nat, n: nat): (z: Matrix)
    ensures Shape(z, m, n)
    ensures forall i, j | 0 <= i < m && 0 <= j < n ::
              At(z, i, j) == if k <= i < ke && l <= j < le then At(w, i, j) else At(y, i, j)
  {
    seq(m, i requires 0 <= i < m => seq(n, j requires 0 <= j < n =>
      if k <= i < ke && l <= j < le then At(w, i, j) else At(y, i, j)))
  }

  /** The right-hand side the finished cells leave for the next block of the homogeneous equation. */
  ghost function Rest(a: Matrix, b: Matrix, y: Matrix, k: nat, l: nat, m: nat, n: nat): (r: Matrix)
    ensures forall i, j | 0 <= i < m && 0 <= j < n :: At(r, i, j) == 0.0 - Dot(y, b, i, j, l) - Dot(a, y, i, j, k)
  {
    seq(m, i requires 0 <= i < m => seq(n, j requires 0 <= j < n => 0.0 - Dot(y, b, i, j, l) - Dot(a, y, i, j, k)))
  }

  /** A nonsingular block can be solved for every right-hand side. */
  lemma BlockSolvable(a: Matrix, b: Matrix, r: Matrix, k: nat, ke: nat, l: nat, le: nat) returns (w: Matrix)
    requires IsBlock(k, ke) && IsBlock(l, le) && !BlockSingular(a, b, k, ke, l, le)
    ensures BlockSolves(a, b, w, r, k, ke, l, le)
  {
    var t, n := Coefficients(a, b, k, ke, l, le), Size(k, ke, l, le);
    if Singular(t, n) {
      SingularBlock(a, b, k, ke, l, le);
      assert false;
    } else {
      var x := NonsingularSolvable(t, Coords(r, k, ke, l, le), n);
      w := Place(x, k, ke, l, le);
      PlaceCoords(x, k, ke, l, le);
      SystemIsBlock(a, b, w, r, k, ke, l, le);
    }
  }

  lemma AgreeingBlocks(a: Matrix, b: Matrix, w: Matrix, z: Matrix, r: Matrix, k: nat, ke: nat, l: nat, le: nat)
    requires IsBlock(k, ke) && IsBlock(l, le) && BlockAgrees(w, z, k, ke, l, le)
    requires BlockSolves(a, b, w, r, k, ke, l, le)
    ensures BlockSolves(a, b, z, r, k, ke, l, le)
  {
    CoordsAgree(w, z, k, ke, l, le);
    SystemIsBlock(a, b, w, r, k, ke, l, le);
    SystemIsBlock(a, b, z, r, k, ke, l, le);
  }

  /** Putting a solution of the block into y finishes the cells of the block. */
  lemma OverwriteFinishes(a: Matrix, b: Matrix, y: Matrix, w: Matrix, r: Matrix, k: nat, ke: nat, l: nat, le: nat, m: nat, n: nat)
    requires IsBlock(k, ke) && IsBlock(l, le) && Shape(y, m, n)
    requires RowCut(a, k, m) && ColCut(b, l, n) && RowCut(a, ke, m) && ColCut(b, le, n)
    requires SolvedBefore(a, b, y, Zero(m, n), k, l, le, m, n)
    requires Remainder(a, b, y, Zero(m, n), r, k, ke, l, le) && BlockSolves(a, b, w, r, k, ke, l, le)
    ensures SolvedBefore(a, b, Overwrite(y, w, k, ke, l, le, m, n), Zero(m, n), ke, l, le, m, n)
    ensures AgreeBefore(y, Overwrite(y, w, k, ke, l, le, m, n), k, l, le, m, n)
  {
    var z := Overwrite(y, w, k, ke, l, le, m, n);
    AgreeingBlocks(a, b, w, z, r, k, ke, l, le);
    BlockFinishes(a, b, y, z, Zero(m, n), r, k, ke, l, le, m, n);
  }

  lemma ZeroSolved(a: Matrix, b: Matrix, m: nat, n: nat)
    ensures forall i, j, p :: Dot(a, Zero(m, n), i, j, p) == 0.0 && Dot(Zero(m, n), b, i, j, p) == 0.0
    ensures SolvesSylvester(a, b, Zero(m, n), Zero(m, n), m, n)
  {
    forall i, j, p
      ensures Dot(a, Zero(m, n), i, j, p) == 0.0 && Dot(Zero(m, n), b, i, j, p) == 0.0
    {
      DotZero(a, Zero(m, n), i, j, 0, p);
      DotZero(Zero(m, n), b, i, j, 0, p);
    }
  }

  /** The kernel vector of a singular block, zero before it. */
  lemma StartAtSingular(a: Matrix, b: Matrix, k: nat, ke: nat, l: nat, le: nat, m: nat, n: nat) returns (z: Matrix)
    requires IsBlock(k, ke) && IsBlock(l, le) && BlockSingular(a, b, k, ke, l, le)
    requires RowCut(a, k, m) && ColCut(b, l, n) && RowCut(a, ke, m) && ColCut(b, le, n)
    ensures Shape(z, m, n) && SolvedBefore(a, b, z, Zero(m, n), ke, l, le, m, n)
    ensures exists i, j :: 0 <= i < m && 0 <= j < n && Before(i, j, ke, l, le) && At(z, i, j) != 0.0
  {
    var w: Matrix :| BlockSolves(a, b, w, [], k, ke, l, le) && !BlockAgrees(w, [], k, ke, l, le);
    z := Overwrite(Zero(m, n), w, k, ke, l, le, m, n);
    StartSolved(a, b, w, k, ke, l, le, m, n);
    StartNonZero(w, k, ke, l, le, m, n);
  }

  lemma StartSolved(a: Matrix, b: Matrix, w: Matrix, k: nat, ke: nat, l: nat, le: nat, m: nat, n: nat)
    requires IsBlock(k, ke) && IsBlock(l, le) && BlockSolves(a, b, w, [], k, ke, l, le)
    requires RowCut(a, k, m) && ColCut(b, l, n) && RowCut(a, ke, m) && ColCut(b, le, n)
    ensures SolvedBefore(a, b, Overwrite(Zero(m, n), w, k, ke, l, le, m, n), Zero(m, n), ke, l, le, m, n)
  {
    ZeroSolved(a, b, m, n);
    OverwriteFinishes(a, b, Zero(m, n), w, [], k, ke, l, le, m, n);
  }

  lemma StartNonZero(w: Matrix, k: nat, ke: nat, l: nat, le: nat, m: nat, n: nat)
    requires ke <= m && le <= n && !BlockAgrees(w, [], k, ke, l, le)
    ensures exists i, j :: 0 <= i < m && 0 <= j < n && Before(i, j, ke, l, le) &&
                           At(Overwrite(Zero(m, n), w, k, ke, l, le, m, n), i, j) != 0.0
  {
    var i, j :| k <= i < ke && l <= j < le && At(w, i, j) != At([], i, j);
    assert At(Overwrite(Zero(m, n), w, k, ke, l, le, m, n), i, j) != 0.0;
  }

  /** A solution of the homogeneous equation up to block (k, l) either extends to all blocks, or
      some later block yields a non-zero solution of its own. */
  lemma {:induction false} Complete(a: Matrix, b: Matrix, y: Matrix, k: nat, l: nat, m: nat, n: nat) returns (z: Matrix)
    requires LowerQuasi(a, m) && UpperQuasi(b, n) && Shape(y, m, n) && m > 0
    requires l <= n && RowCut(a, k, m) && ColCut(b, l, n)
    requires SolvedBefore(a, b, y, Zero(m, n), k, l, NextColumn(b, l, n), m, n)
    ensures SolvesSylvester(a, b, z, Zero(m, n), m, n)
    ensures AgreeBefore(y, z, k, l, NextColumn(b, l, n), m, n) || z != Zero(m, n)
    decreases n - l, m - k
  {
    var le := NextColumn(b, l, n);
    if l == n {
      z := y;
    } else if k == m {
      NextColCut(b, l, n);
      z := Complete(a, b, y, 0, le, m, n);
    } else {
      var ke := k + RowBlock(a, k, m);
      NextColCut(b, l, n);
      NextRowCut(a, k, m);
      if BlockSingular(a, b, k, ke, l, le) {
        var w := StartAtSingular(a, b, k, ke, l, le, m, n);
        z := Complete(a, b, w, ke, l, m, n);
      } else {
        var r := Rest(a, b, y, k, l, m, n);
        var w := BlockSolvable(a, b, r, k, ke, l, le);
        OverwriteFinishes(a, b, y, w, r, k, ke, l, le, m, n);
        z := Complete(a, b, Overwrite(y, w, k, ke, l, le, m, n), ke, l, m, n);
      }
    }
  }

  ghost function NextColumn(b: Matrix, l: nat, n: nat): nat {
    if l < n then l + ColBlock(b, l, n) else l
  }

  /** One singular diagonal block makes A Y + Y B = 0 solvable by a non-zero Y. */
  lemma SingularBlockSingular(a: Matrix, b: Matrix, k: nat, l: nat, m: nat, n: nat)
    requires LowerQuasi(a, m) && UpperQuasi(b, n) && k < m && l < n && RowCut(a, k, m) && ColCut(b, l, n)
    requires BlockSingular(a, b, k, k + RowBlock(a, k, m), l, l + ColBlock(b, l, n))
    ensures SylvesterSingular(a, b, m, n)
  {
    var ke, le := k + RowBlock(a, k, m), l + ColBlock(b, l, n);
    NextColCut(b, l, n);
    NextRowCut(a, k, m);
    var w := StartAtSingular(a, b, k, ke, l, le, m, n);
    var z := Complete(a, b, w, ke, l, m, n);
    assert z != Zero(m, n);
  }

  /** Conversely, a unique solution for one right-hand side leaves no room for a kernel. */
  lemma UniqueNotSingular(a: Matrix, b: Matrix, y: Matrix, c: Matrix, m: nat, n: nat)
    requires SolvesSylvester(a, b, y, c, m, n)
    requires forall z: Matrix | SolvesSylvester(a, b, z, c, m, n) :: z == y
    ensures !SylvesterSingular(a, b, m, n)
  {
    forall w: Matrix | SolvesSylvester(a, b, w, Zero(m, n), m, n)
      ensures w == Zero(m, n)
    {
      var z := Add(y, w, m, n);
      forall i, j | 0 <= i < m && 0 <= j < n
        ensures Lhs(a, b, z, i, j, m, n) == At(c, i, j)
      {
        DotAddRight(a, y, w, z, i, j, m);
        DotAddLeft(y, w, z, b, i, j, n);
        assert Lhs(a, b, y, i, j, m, n) == At(c, i, j);
        assert Lhs(a, b, w, i, j, m, n) == 0.0;
      }
      assert SolvesSylvester(a, b, z, c, m, n);
      forall i, j | 0 <= i < m && 0 <= j < n
        ensures At(w, i, j) == At(Zero(m, n), i, j)
      {
        assert At(z, i, j) == At(y, i, j) + At(w, i, j);
      }
      SameEntries(w, Zero(m, n), m, n);
    }
  }
}
