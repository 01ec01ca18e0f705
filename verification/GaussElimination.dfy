/** The repository's own dense solver: Gauss elimination with row pivoting, in place, followed
    by back substitution.  It is the reference for every small system the Sylvester solver meets. */
module GaussElimination {
  import opened Matrices

  // ---------- what a linear system means ----------

  /** sum over p < k of a(i, p) * x[p] */
  ghost function Row(a: Matrix, i: int, x: seq<real>, k: nat): real
    requires k <= |x|
  {
    if k == 0 then 0.0 else Row(a, i, x, k - 1) + At(a, i, k - 1) * x[k - 1]
  }

  /** A x = r */
  ghost predicate Solves(a: Matrix, r: seq<real>, x: seq<real>, n: nat)
    requires |r| == n
  {
    |x| == n && forall i | 0 <= i < n :: Row(a, i, x, n) == r[i]
  }

  ghost predicate NonZero(x: seq<real>) {
    exists i :: 0 <= i < |x| && x[i] != 0.0
  }

  ghost predicate InKernel(a: Matrix, x: seq<real>, m: nat, n: nat) {
    |x| == n && forall i | 0 <= i < m :: Row(a, i, x, n) == 0.0
  }

  /** Some non-zero vector is mapped to zero. */
  ghost predicate Singular(a: Matrix, n: nat) {
    exists x: seq<real> :: NonZero(x) && InKernel(a, x, n, n)
  }

  /** The right-hand side as one more column: A x = r says that (x, -1) is in the kernel of
      [A | r], and A x = 0 that (x, 0) is. */
  ghost function Augment(a: Matrix, r: seq<real>, n: nat): (c: Matrix)
    requires |r| == n
    ensures Shape(c, n, n + 1)
    ensures forall i, k | 0 <= i < n && 0 <= k < n :: At(c, i, k) == At(a, i, k)
    ensures forall i | 0 <= i < n :: At(c, i, n) == r[i]
  {
    seq(n, i requires 0 <= i < n => seq(n + 1, k requires 0 <= k <= n => if k < n then At(a, i, k) else r[i]))
  }

  ghost predicate SameKernel(a: Matrix, c: Matrix, m: nat, n: nat) {
    forall x: seq<real> :: InKernel(a, x, m, n) <==> InKernel(c, x, m, n)
  }

  // ---------- row sums ----------

  lemma {:induction false} RowCombine(c: Matrix, i: int, a: Matrix, p: int, s: real, b: Matrix, q: int, x: seq<real>, k: nat)
    requires k <= |x|
    requires forall m | 0 <= m < k :: At(c, i, m) == Less(At(a, p, m), s, At(b, q, m))
    ensures Row(c, i, x, k) == Row(a, p, x, k) - s * Row(b, q, x, k)
  {
    if k > 0 {
      RowCombine(c, i, a, p, s, b, q, x, k - 1);
      CombineStep(At(a, p, k - 1), s, At(b, q, k - 1), x[k - 1], Row(b, q, x, k - 1));
    }
  }

  lemma CombineStep(u: real, s: real, v: real, x: real, t: real)
    ensures (u - s * v) * x - s * t == u * x - s * (t + v * x)
  {
  }

  lemma {:induction false} RowScale(c: Matrix, i: int, a: Matrix, p: int, s: real, x: seq<real>, k: nat)
    requires k <= |x|
    requires forall m | 0 <= m < k :: At(c, i, m) == s * At(a, p, m)
    ensures Row(c, i, x, k) == s * Row(a, p, x, k)
  {
    if k > 0 {
      RowScale(c, i, a, p, s, x, k - 1);
      ScaleStep(s, Row(a, p, x, k - 1), At(a, p, k - 1), x[k - 1]);
    }
  }

  /** Row sums only see the entries that are multiplied by something. */
  lemma {:induction false} RowCongruent(a: Matrix, i: int, x: seq<real>, c: Matrix, j: int, y: seq<real>, k: nat)
    requires k <= |x| && k <= |y|
    requires forall m | 0 <= m < k :: At(a, i, m) == At(c, j, m)
    requires forall m | 0 <= m < k :: At(a, i, m) == 0.0 || x[m] == y[m]
    ensures Row(a, i, x, k) == Row(c, j, y, k)
  {
    if k > 0 {
      RowCongruent(a, i, x, c, j, y, k - 1);
    }
  }

  lemma {:induction false} RowTail(a: Matrix, i: int, x: seq<real>, lo: nat, k: nat)
    requires lo <= k <= |x|
    requires forall m | lo <= m < k :: At(a, i, m) == 0.0 || x[m] == 0.0
    ensures Row(a, i, x, k) == Row(a, i, x, lo)
  {
    if lo < k {
      RowTail(a, i, x, lo, k - 1);
    }
  }

  lemma {:induction false} RowUpdate(a: Matrix, i: int, x: seq<real>, m: nat, v: real, k: nat)
    requires m < k <= |x| && x[m] == 0.0
    ensures Row(a, i, x[m := v], k) == Row(a, i, x, k) + At(a, i, m) * v
  {
    if m < k - 1 {
      RowUpdate(a, i, x, m, v, k - 1);
    } else {
      RowCongruent(a, i, x[m := v], a, i, x, k - 1);
    }
  }

  lemma {:induction false} RowAdd(a: Matrix, i: int, x: seq<real>, y: seq<real>, z: seq<real>, k: nat)
    requires k <= |x| && k <= |y| && k <= |z|
    requires forall m | 0 <= m < k :: z[m] == x[m] + y[m]
    ensures Row(a, i, z, k) == Row(a, i, x, k) + Row(a, i, y, k)
  {
    if k > 0 {
      RowAdd(a, i, x, y, z, k - 1);
      Distribute(x[k - 1], y[k - 1], At(a, i, k - 1));
    }
  }

  // ---------- one step of the elimination ----------

  /** Where row i of the matrix after the step comes from. */
  function RowBefore(i: nat, j: nat, p: nat): nat {
    if i == p then j else if i == j then p else i
  }

  /** Row i of c is row q of a minus a multiple of row j of c. */
  ghost predicate ReducedRow(a: Matrix, c: Matrix, i: nat, q: nat, j: nat, w: nat) {
    forall k | 0 <= k < w :: At(c, i, k) == Less(At(a, q, k), At(a, q, j), At(c, j, k))
  }

  ghost predicate KeptRow(a: Matrix, c: Matrix, i: nat, w: nat) {
    forall k | 0 <= k < w :: At(c, i, k) == At(a, i, k)
  }

  /** Row p of a is g times row j of c. */
  ghost predicate PivotRow(a: Matrix, c: Matrix, j: nat, p: nat, g: real, w: nat) {
    forall k | 0 <= k < w :: At(a, p, k) == g * At(c, j, k)
  }

  /** Row p divided by g becomes row j, the old row j takes the place of row p, and every
      later row loses its column j. */
  ghost predicate Step(a: Matrix, c: Matrix, j: nat, p: nat, g: real, n: nat, w: nat) {
    && g != 0.0
    && PivotRow(a, c, j, p, g, w)
    && (forall i | 0 <= i < j :: KeptRow(a, c, i, w))
    && (forall i | j < i < n :: ReducedRow(a, c, i, RowBefore(i, j, p), j, w))
  }

  lemma NonZeroProduct(g: real, x: real)
    requires g != 0.0 && x != 0.0
    ensures g * x != 0.0
  {
  }

  /** A swap, a scaling and the eliminations of one column keep exactly the same solutions. */
  lemma StepKeepsSolutions(a: Matrix, c: Matrix, j: nat, p: nat, g: real, n: nat, w: nat)
    requires j <= p < n && Step(a, c, j, p, g, n, w)
    ensures SameKernel(a, c, n, w)
  {
    forall x: seq<real> | |x| == w
      ensures InKernel(a, x, n, w) <==> InKernel(c, x, n, w)
    {
      RowScale(a, p, c, j, g, x, w);
      if Row(c, j, x, w) == 0.0 {
        forall i | 0 <= i < n
          ensures Row(a, RowBefore(i, j, p), x, w) == Row(c, i, x, w)
        {
          StepRow(a, c, j, p, g, n, w, i, x);
        }
        if InKernel(c, x, n, w) {
          forall q | 0 <= q < n
            ensures Row(a, q, x, w) == 0.0
          {
            var i := RowBefore(q, j, p);
            assert RowBefore(i, j, p) == q && Row(c, i, x, w) == 0.0;
          }
        }
      } else {
        NonZeroProduct(g, Row(c, j, x, w));
        assert Row(a, p, x, w) != 0.0;
      }
    }
  }

  lemma StepRow(a: Matrix, c: Matrix, j: nat, p: nat, g: real, n: nat, w: nat, i: nat, x: seq<real>)
    requires j <= p < n && Step(a, c, j, p, g, n, w) && |x| == w && i < n && Row(c, j, x, w) == 0.0
    ensures Row(a, RowBefore(i, j, p), x, w) == Row(c, i, x, w)
  {
    var q := RowBefore(i, j, p);
    if i < j {
      assert KeptRow(a, c, i, w);
      RowCongruent(c, i, x, a, i, x, w);
    } else if i == j {
      assert q == p;
      RowScale(a, p, c, j, g, x, w);
    } else {
      assert ReducedRow(a, c, i, q, j, w);
      RowCombine(c, i, a, q, At(a, q, j), c, j, x, w);
    }
  }

  // ---------- the matrix the arrays stand for ----------

  /** The code never clears what it eliminates: below the diagonal the first j columns of the
      array still hold old numbers that stand for zeros. */
  ghost function Reduced(v: Matrix, j: nat, n: nat, w: nat): (c: Matrix)
    ensures Shape(c, n, w)
    ensures forall i, k | 0 <= i < n && 0 <= k < w :: At(c, i, k) == if k < j && k < i then 0.0 else At(v, i, k)
  {
    seq(n, i requires 0 <= i < n => seq(w, k requires 0 <= k < w => if k < j && k < i then 0.0 else At(v, i, k)))
  }

  ghost predicate UnitUpper(c: Matrix, j: nat) {
    && (forall i | 0 <= i < j :: At(c, i, i) == 1.0)
    && (forall i, k | 0 <= k < i && k < j :: At(c, i, k) == 0.0)
  }

  /** What the swap, the scaling and the elimination did to the entries of a matrix v. */
  ghost predicate Worked(v: Matrix, u: Matrix, j: nat, p: nat, g: real, n: nat, w: nat)
    requires g != 0.0
  {
    && (forall k | j <= k < w :: At(u, j, k) == Over(At(v, p, k), g))
    && (forall i | j < i < n :: WorkedRow(v, u, j, i, RowBefore(i, j, p), w))
    && (forall i, k | 0 <= i < j && 0 <= k < w :: At(u, i, k) == At(v, i, k))
  }

  ghost predicate WorkedRow(v: Matrix, u: Matrix, j: nat, i: nat, q: nat, w: nat) {
    forall k | j < k < w :: At(u, i, k) == Less(At(v, q, k), At(v, q, j), At(u, j, k))
  }

  lemma WorkIsStep(v: Matrix, u: Matrix, j: nat, p: nat, g: real, n: nat, w: nat)
    requires j <= p < n < w && g == At(v, p, j) && g != 0.0
    requires Worked(v, u, j, p, g, n, w)
    requires UnitUpper(Reduced(v, j, n, w), j)
    ensures Step(Reduced(v, j, n, w), Reduced(u, j + 1, n, w), j, p, g, n, w)
    ensures UnitUpper(Reduced(u, j + 1, n, w), j + 1)
  {
    var c, d := Reduced(v, j, n, w), Reduced(u, j + 1, n, w);
    assert PivotRow(c, d, j, p, g, w) by {
      forall k | 0 <= k < w
        ensures At(c, p, k) == g * At(d, j, k)
      {
        if k >= j {
          assert At(d, j, k) == Over(At(v, p, k), g);
        }
      }
    }
    forall i | 0 <= i < j
      ensures KeptRow(c, d, i, w)
    {
    }
    OverSelf(g);
    assert At(u, j, j) == Over(g, g);
    forall i | j < i < n
      ensures ReducedRow(c, d, i, RowBefore(i, j, p), j, w)
    {
      WorkReducesRow(v, u, j, p, g, n, w, i);
    }
    forall i | 0 <= i < j + 1
      ensures At(d, i, i) == 1.0
    {
      if i < j {
        assert At(d, i, i) == At(c, i, i);
      }
    }
  }

  lemma WorkReducesRow(v: Matrix, u: Matrix, j: nat, p: nat, g: real, n: nat, w: nat, i: nat)
    requires j <= p < n < w && g == At(v, p, j) && g != 0.0 && j < i < n
    requires At(u, j, j) == 1.0 && WorkedRow(v, u, j, i, RowBefore(i, j, p), w)
    ensures ReducedRow(Reduced(v, j, n, w), Reduced(u, j + 1, n, w), i, RowBefore(i, j, p), j, w)
  {
    var c, d, q := Reduced(v, j, n, w), Reduced(u, j + 1, n, w), RowBefore(i, j, p);
    forall k | 0 <= k < w
      ensures At(d, i, k) == Less(At(c, q, k), At(c, q, j), At(d, j, k))
    {
      if k > j {
        assert At(u, i, k) == Less(At(v, q, k), At(v, q, j), At(u, j, k));
      }
    }
  }

  // ---------- no pivot: the matrix is singular ----------

  /** Back substitution: whatever the unknowns from j on are, the first j rows of a unit upper
      triangular matrix determine the earlier ones. */
  lemma {:induction false} BackSolve(c: Matrix, j: nat, i: nat, w: nat, tail: seq<real>) returns (x: seq<real>)
    requires i <= j <= w && |tail| == w && UnitUpper(c, j)
    requires forall q | i <= q < j :: Row(c, q, tail, w) == 0.0
    ensures |x| == w && forall k | j <= k < w :: x[k] == tail[k]
    ensures forall q | 0 <= q < j :: Row(c, q, x, w) == 0.0
  {
    if i == 0 {
      x := tail;
    } else {
      var y := tail[i - 1 := 0.0];
      var v := -Row(c, i - 1, y, w);
      var z := y[i - 1 := v];
      forall q | i <= q < j
        ensures Row(c, q, z, w) == 0.0
      {
        RowCongruent(c, q, z, c, q, tail, w);
      }
      RowUpdate(c, i - 1, y, i - 1, v, w);
      x := BackSolve(c, j, i - 1, w, z);
    }
  }

  /** With column j free of pivots, the vector with x[j] = 1, zeros after it and the values
      back substitution gives before it lies in the kernel. */
  lemma NoPivotSingular(a: Matrix, r: seq<real>, c: Matrix, j: nat, n: nat)
    requires |r| == n && j < n && SameKernel(Augment(a, r, n), c, n, n + 1) && UnitUpper(c, j)
    requires forall i | j <= i < n :: At(c, i, j) == 0.0
    ensures Singular(a, n)
  {
    var w := n + 1;
    var e := seq(w, k => if k == j then 1.0 else 0.0);
    var x := BackSolve(c, j, j, w, e);
    forall i | 0 <= i < n
      ensures Row(c, i, x, w) == 0.0
    {
      if i >= j {
        RowTail(c, i, x, 0, w);
      }
    }
    assert InKernel(c, x, n, w);
    assert InKernel(Augment(a, r, n), x, n, w);
    forall i | 0 <= i < n
      ensures Row(a, i, x[..n], n) == 0.0
    {
      RowCongruent(a, i, x[..n], Augment(a, r, n), i, x, n);
      assert Row(Augment(a, r, n), i, x, w) == 0.0;
    }
    assert x[..n][j] == 1.0;
    assert NonZero(x[..n]) && InKernel(a, x[..n], n, n);
  }

  lemma SolvesIsKernel(a: Matrix, r: seq<real>, x: seq<real>, n: nat)
    requires |r| == n == |x|
    ensures Solves(a, r, x, n) <==> InKernel(Augment(a, r, n), x + [-1.0], n, n + 1)
  {
    forall i | 0 <= i < n
      ensures Row(Augment(a, r, n), i, x + [-1.0], n + 1) == Row(a, i, x, n) - r[i]
    {
      RowCongruent(a, i, x, Augment(a, r, n), i, x + [-1.0], n);
    }
  }

  lemma UniqueNonsingular(a: Matrix, r: seq<real>, b: seq<real>, n: nat)
    requires |r| == n == |b|
    requires forall x: seq<real> :: Solves(a, r, x, n) <==> x == b
    ensures !Singular(a, n)
  {
    assert Solves(a, r, b, n);
    forall z: seq<real> | InKernel(a, z, n, n)
      ensures !NonZero(z)
    {
      var y := seq(n, i requires 0 <= i < n => b[i] + z[i]);
      forall i | 0 <= i < n
        ensures Row(a, i, y, n) == r[i]
      {
        RowAdd(a, i, b, z, y, n);
      }
      assert Solves(a, r, y, n);
      forall i | 0 <= i < n
        ensures z[i] == 0.0
      {
        assert y[i] == b[i] + z[i];
      }
    }
  }

  // ---------- a nonsingular system has a solution ----------

  ghost function Stepped(c: Matrix, j: nat, p: nat, n: nat, w: nat): (d: Matrix)
    requires At(c, p, j) != 0.0
    ensures Shape(d, n, w)
    ensures forall i, k | 0 <= i < n && 0 <= k < w ::
              At(d, i, k) == if i < j then At(c, i, k) else if i == j then Over(At(c, p, k), At(c, p, j))
                             else Less(At(c, RowBefore(i, j, p), k), At(c, RowBefore(i, j, p), j), Over(At(c, p, k), At(c, p, j)))
  {
    seq(n, i requires 0 <= i < n => seq(w, k requires 0 <= k < w =>
      if i < j then At(c, i, k) else if i == j then Over(At(c, p, k), At(c, p, j))
      else Less(At(c, RowBefore(i, j, p), k), At(c, RowBefore(i, j, p), j), Over(At(c, p, k), At(c, p, j)))))
  }

  lemma SteppedWorks(c: Matrix, j: nat, p: nat, n: nat, w: nat)
    requires j <= p < n < w && At(c, p, j) != 0.0
    ensures Worked(c, Stepped(c, j, p, n, w), j, p, At(c, p, j), n, w)
  {
    var d := Stepped(c, j, p, n, w);
    forall i | j < i < n
      ensures WorkedRow(c, d, j, i, RowBefore(i, j, p), w)
    {
      forall k | j < k < w
        ensures At(d, i, k) == Less(At(c, RowBefore(i, j, p), k), At(c, RowBefore(i, j, p), j), At(d, j, k))
      {
        assert At(d, j, k) == Over(At(c, p, k), At(c, p, j));
      }
    }
  }

  /** One purely mathematical elimination step. */
  lemma PivotStep(first: Matrix, c: Matrix, j: nat, p: nat, n: nat) returns (d: Matrix)
    requires j <= p < n && Shape(c, n, n + 1) && UnitUpper(c, j) && At(c, p, j) != 0.0
    requires SameKernel(first, c, n, n + 1)
    ensures Shape(d, n, n + 1) && UnitUpper(d, j + 1) && SameKernel(first, d, n, n + 1)
  {
    var w := n + 1;
    var u := Stepped(c, j, p, n, w);
    d := Reduced(u, j + 1, n, w);
    SameEntries(c, Reduced(c, j, n, w), n, w);
    SteppedWorks(c, j, p, n, w);
    WorkIsStep(c, u, j, p, At(c, p, j), n, w);
    StepKeepsSolutions(c, d, j, p, At(c, p, j), n, w);
  }

  lemma UpperSolvable(a: Matrix, r: seq<real>, c: Matrix, n: nat) returns (x: seq<real>)
    requires |r| == n && UnitUpper(c, n) && SameKernel(Augment(a, r, n), c, n, n + 1)
    ensures Solves(a, r, x, n)
  {
    var tail := seq(n + 1, k => if k < n then 0.0 else -1.0);
    var z := BackSolve(c, n, n, n + 1, tail);
    assert InKernel(c, z, n, n + 1);
    x := z[..n];
    assert z == x + [-1.0];
    SolvesIsKernel(a, r, x, n);
  }

  lemma {:induction false} Solvable(a: Matrix, r: seq<real>, c: Matrix, j: nat, n: nat) returns (x: seq<real>)
    requires |r| == n && j <= n && Shape(c, n, n + 1) && UnitUpper(c, j) && SameKernel(Augment(a, r, n), c, n, n + 1)
    requires !Singular(a, n)
    ensures Solves(a, r, x, n)
    decreases n - j
  {
    if j == n {
      x := UpperSolvable(a, r, c, n);
    } else if forall i | j <= i < n :: At(c, i, j) == 0.0 {
      NoPivotSingular(a, r, c, j, n);
      assert false;
    } else {
      var p :| j <= p < n && At(c, p, j) != 0.0;
      var d := PivotStep(Augment(a, r, n), c, j, p, n);
      x := Solvable(a, r, d, j + 1, n);
    }
  }

  lemma NonsingularSolvable(a: Matrix, r: seq<real>, n: nat) returns (x: seq<real>)
    requires |r| == n && !Singular(a, n)
    ensures Solves(a, r, x, n)
  {
    x := Solvable(a, r, Augment(a, r, n), 0, n);
  }

  // ---------- back substitution ----------

  ghost predicate HoldsFrom(c: Matrix, s: seq<real>, x: seq<real>, k: nat, n: nat)
    requires |x| == n && |s| == n
  {
    forall i | k <= i < n :: Row(c, i, x, n) == s[i]
  }

  /** sum over j <= q < n of c(k, q) * x[q] */
  ghost function PartOfRow(c: Matrix, k: nat, x: seq<real>, j: nat, n: nat): real
    requires j <= n == |x|
    decreases n - j
  {
    if j == n then 0.0 else At(c, k, j) * x[j] + PartOfRow(c, k, x, j + 1, n)
  }

  ghost predicate Agree(x: seq<real>, r: seq<real>, k: nat, n: nat)
    requires |x| == n == |r|
  {
    forall i | k <= i < n :: x[i] == r[i]
  }

  lemma {:induction false} RowSplit(c: Matrix, k: nat, x: seq<real>, j: nat, n: nat)
    requires j <= n == |x|
    ensures Row(c, k, x, n) == Row(c, k, x, j) + PartOfRow(c, k, x, j, n)
    decreases n - j
  {
    if j < n {
      RowSplit(c, k, x, j + 1, n);
    }
  }

  lemma {:induction false} PartAgree(c: Matrix, k: nat, x: seq<real>, r: seq<real>, j: nat, n: nat)
    requires j <= n == |x| == |r| && Agree(x, r, j, n)
    ensures PartOfRow(c, k, x, j, n) == PartOfRow(c, k, r, j, n)
    decreases n - j
  {
    if j < n {
      PartAgree(c, k, x, r, j + 1, n);
    }
  }

  /** Row k of a unit upper triangular system determines x[k] from the later unknowns. */
  lemma SolveRow(c: Matrix, s: seq<real>, x: seq<real>, k: nat, n: nat, r: seq<real>)
    requires k < n == |x| && |s| == n == |r| && UnitUpper(c, n)
    requires HoldsFrom(c, s, x, k + 1, n) <==> Agree(x, r, k + 1, n)
    requires r[k] == s[k] - PartOfRow(c, k, r, k + 1, n)
    ensures HoldsFrom(c, s, x, k, n) <==> Agree(x, r, k, n)
  {
    RowSplit(c, k, x, k + 1, n);
    RowTail(c, k, x, 0, k);
    assert Row(c, k, x, k + 1) == x[k];
    assert HoldsFrom(c, s, x, k, n) <==> Row(c, k, x, n) == s[k] && HoldsFrom(c, s, x, k + 1, n);
    if Agree(x, r, k + 1, n) {
      PartAgree(c, k, x, r, k + 1, n);
    }
  }

  // ---------- the code ----------

  method FindPivot(a: array2<real>, j: nat) returns (biga: real, imax: nat)
    requires j < a.Length0 == a.Length1
    ensures j <= imax < a.Length0 && biga == a[imax, j]
    ensures forall i | j <= i < a.Length0 :: Abs(a[i, j]) <= Abs(biga)
  {
    biga, imax := 0.0, j;
    var i := j;
    while i < a.Length0
      invariant j <= i <= a.Length0 && j <= imax < a.Length0
      invariant forall q | j <= q < i :: Abs(a[q, j]) <= Abs(biga)
      invariant biga == a[imax, j] || (biga == 0.0 && imax == j)
    {
      if Abs(biga) < Abs(a[i, j]) {
        biga, imax := a[i, j], i;
      }
      i := i + 1;
    }
  }

  /** The two arrays side by side are the augmented matrix v. */
  ghost predicate Stores(a: array2<real>, b: array<real>, v: Matrix)
    reads a, b
  {
    && a.Length0 == a.Length1 == b.Length
    && Shape(v, b.Length, b.Length + 1)
    && (forall i, k | 0 <= i < b.Length && 0 <= k < b.Length :: a[i, k] == At(v, i, k))
    && (forall i | 0 <= i < b.Length :: b[i] == At(v, i, b.Length))
  }

  ghost predicate SameRow(t: Matrix, u: Matrix, i: nat, n: nat) {
    forall k | 0 <= k <= n :: At(u, i, k) == At(t, i, k)
  }

  ghost predicate SwappedAndScaled(v: Matrix, t: Matrix, j: nat, p: nat, g: real, n: nat)
    requires g != 0.0
  {
    && (forall k | j <= k <= n :: At(t, j, k) == Over(At(v, p, k), g))
    && (forall i, k | j < i < n && j <= k <= n :: At(t, i, k) == At(v, RowBefore(i, j, p), k))
    && (forall i, k | 0 <= i < j && 0 <= k <= n :: At(t, i, k) == At(v, i, k))
  }

  method SwapAndScale(a: array2<real>, b: array<real>, j: nat, imax: nat, biga: real, ghost v: Matrix) returns (ghost t: Matrix)
    requires Stores(a, b, v) && j <= imax < b.Length && biga != 0.0
    modifies a, b
    ensures Stores(a, b, t) && SwappedAndScaled(v, t, j, imax, biga, b.Length)
  {
    var n := b.Length;
    SwapRows(a, j, imax, biga, v, n);
    var save := b[imax];
    b[imax] := b[j];
    b[j] := save / biga;
    t := Augment(View(a, n, n), b[..], n);
  }

  method SwapRows(a: array2<real>, j: nat, imax: nat, biga: real, ghost v: Matrix, n: nat)
    requires a.Length0 == a.Length1 == n && j <= imax < n && biga != 0.0
    requires forall i, k | 0 <= i < n && 0 <= k < n :: a[i, k] == At(v, i, k)
    modifies a
    ensures forall k | j <= k < n :: a[j, k] == Over(At(v, imax, k), biga)
    ensures imax != j ==> forall k | j <= k < n :: a[imax, k] == At(v, j, k)
    ensures forall i, k | 0 <= i < n && 0 <= k < n && ((i != j && i != imax) || k < j) :: a[i, k] == At(v, i, k)
  {
    var k := j;
    while k < n
      invariant j <= k <= n
      invariant forall q | j <= q < k :: a[j, q] == Over(At(v, imax, q), biga)
      invariant imax != j ==> forall q | j <= q < k :: a[imax, q] == At(v, j, q)
      invariant forall i, q | 0 <= i < n && 0 <= q < n && ((i != j && i != imax) || q < j || q >= k) :: a[i, q] == At(v, i, q)
    {
      var save := a[imax, k];
      a[imax, k] := a[j, k];
      a[j, k] := save / biga;
      k := k + 1;
    }
  }

  method EliminateRow(a: array2<real>, b: array<real>, j: nat, i: nat, ghost t: Matrix) returns (ghost u: Matrix)
    requires Stores(a, b, t) && j < i < b.Length
    modifies a, b
    ensures Stores(a, b, u)
    ensures Eliminated(t, u, j, i, b.Length)
    ensures forall p | 0 <= p < b.Length && p != i :: SameRow(t, u, p, b.Length)
  {
    var n := b.Length;
    var k := j + 1;
    while k < n
      modifies a
      invariant j < k <= n
      invariant forall q | j < q < k :: a[i, q] == Less(At(t, i, q), At(t, i, j), At(t, j, q))
      invariant forall p, q | 0 <= p < n && 0 <= q < n && (p != i || q <= j || q >= k) :: a[p, q] == At(t, p, q)
    {
      assert a[i, k] == At(t, i, k) && a[i, j] == At(t, i, j) && a[j, k] == At(t, j, k);
      LessIs(a[i, k], a[i, j], a[j, k]);
      a[i, k] := a[i, k] - a[i, j] * a[j, k];
      k := k + 1;
    }
    b[i] := b[i] - b[j] * a[i, j];
    u := Augment(View(a, n, n), b[..], n);
  }

  ghost predicate Eliminated(t: Matrix, u: Matrix, j: nat, i: nat, n: nat) {
    forall k | j < k <= n :: At(u, i, k) == Less(At(t, i, k), At(t, i, j), At(t, j, k))
  }

  /** Rows j + 1 .. i - 1 are done, the others are as they were. */
  ghost predicate EliminatedUpTo(t: Matrix, u: Matrix, j: nat, i: nat, n: nat) {
    && (forall p | j < p < i :: Eliminated(t, u, j, p, n))
    && (forall p | 0 <= p < n && (p <= j || p >= i) :: SameRow(t, u, p, n))
  }

  lemma EliminatedOneMore(top: Matrix, t: Matrix, u: Matrix, j: nat, i: nat, n: nat)
    requires j < i < n && EliminatedUpTo(top, t, j, i, n)
    requires Eliminated(t, u, j, i, n)
    requires forall p | 0 <= p < n && p != i :: SameRow(t, u, p, n)
    ensures EliminatedUpTo(top, u, j, i + 1, n)
  {
    assert SameRow(top, t, i, n) && SameRow(top, t, j, n);
    forall p | j < p < i
      ensures Eliminated(top, u, j, p, n)
    {
      assert Eliminated(top, t, j, p, n) && SameRow(t, u, p, n);
    }
    forall p | 0 <= p < n && (p <= j || p >= i + 1)
      ensures SameRow(top, u, p, n)
    {
      assert SameRow(top, t, p, n) && SameRow(t, u, p, n);
    }
  }

  lemma EliminatedIsWorked(v: Matrix, top: Matrix, u: Matrix, j: nat, p: nat, g: real, n: nat)
    requires g != 0.0 && j <= p < n
    requires SwappedAndScaled(v, top, j, p, g, n) && EliminatedUpTo(top, u, j, n, n)
    ensures Worked(v, u, j, p, g, n, n + 1)
  {
    assert SameRow(top, u, j, n);
    forall i | j < i < n
      ensures WorkedRow(v, u, j, i, RowBefore(i, j, p), n + 1)
    {
      assert Eliminated(top, u, j, i, n);
      assert At(top, i, j) == At(v, RowBefore(i, j, p), j);
    }
    forall i, k | 0 <= i < j && 0 <= k < n + 1
      ensures At(u, i, k) == At(v, i, k)
    {
      assert SameRow(top, u, i, n);
    }
  }

  /** The swap, the scaling and the elimination of one column. */
  method ReduceColumn(a: array2<real>, b: array<real>, j: nat, imax: nat, biga: real, ghost v: Matrix) returns (ghost u: Matrix)
    requires Stores(a, b, v) && j <= imax < b.Length && biga != 0.0
    modifies a, b
    ensures Stores(a, b, u) && Worked(v, u, j, imax, biga, b.Length, b.Length + 1)
  {
    var n := b.Length;
    ghost var top := SwapAndScale(a, b, j, imax, biga, v);
    u := top;
    var i := j + 1;
    while i < n
      invariant j < i <= n
      invariant Stores(a, b, u) && EliminatedUpTo(top, u, j, i, n)
    {
      ghost var t := u;
      u := EliminateRow(a, b, j, i, t);
      EliminatedOneMore(top, t, u, j, i, n);
      i := i + 1;
    }
    EliminatedIsWorked(v, top, u, j, imax, biga, n);
  }

  /** The rows from k on hold exactly for the vectors that agree with r from k on. */
  ghost predicate SolvedFrom(c: Matrix, s: seq<real>, r: seq<real>, k: nat, n: nat)
    requires |s| == n == |r|
  {
    forall x: seq<real> {:trigger HoldsFrom(c, s, x, k, n)} | |x| == n :: HoldsFrom(c, s, x, k, n) <==> Agree(x, r, k, n)
  }

  lemma SolvedOneMore(c: Matrix, s: seq<real>, r0: seq<real>, r: seq<real>, k: nat, n: nat)
    requires |s| == n == |r0| == |r| && k < n && UnitUpper(c, n) && Agree(r, r0, k + 1, n)
    requires SolvedFrom(c, s, r0, k + 1, n) && r[k] == s[k] - PartOfRow(c, k, r0, k + 1, n)
    ensures SolvedFrom(c, s, r, k, n)
  {
    PartAgree(c, k, r, r0, k + 1, n);
    forall x: seq<real> | |x| == n
      ensures HoldsFrom(c, s, x, k, n) <==> Agree(x, r, k, n)
    {
      assert HoldsFrom(c, s, x, k + 1, n) <==> Agree(x, r0, k + 1, n);
      SolveRow(c, s, x, k, n, r);
    }
  }

  method SubtractLater(a: array2<real>, b: array<real>, k: nat, ghost c: Matrix)
    requires a.Length0 == a.Length1 == b.Length && k < b.Length
    requires forall j | k < j < b.Length :: a[k, j] == At(c, k, j)
    modifies b
    ensures b[k] == old(b[k]) - PartOfRow(c, k, old(b[..]), k + 1, b.Length)
    ensures forall i | 0 <= i < b.Length && i != k :: b[i] == old(b[i])
  {
    var j := b.Length - 1;
    while j > k
      invariant k <= j <= b.Length - 1
      invariant forall i | 0 <= i < b.Length && i != k :: b[i] == old(b[i])
      invariant b[k] == old(b[k]) - PartOfRow(c, k, old(b[..]), j + 1, b.Length)
      decreases j
    {
      b[k] := b[k] - a[k, j] * b[j];
      j := j - 1;
    }
  }

  /** Solves the unit upper triangular system the elimination leaves behind. */
  method BackSubstitute(a: array2<real>, b: array<real>, ghost c: Matrix)
    requires a.Length0 == a.Length1 == b.Length && UnitUpper(c, b.Length)
    requires forall i, k | 0 <= i < k < b.Length :: a[i, k] == At(c, i, k)
    modifies b
    ensures SolvedFrom(c, old(b[..]), b[..], 0, b.Length)
  {
    var n := b.Length;
    ghost var s := b[..];
    if n == 0 {
      return;
    }
    SolvedOneMore(c, s, s, s, n - 1, n);
    var k := n - 2;
    while k >= 0
      invariant -1 <= k <= n - 2
      invariant forall i | 0 <= i <= k :: b[i] == s[i]
      invariant SolvedFrom(c, s, b[..], k + 1, n)
      decreases k
    {
      BackStep(a, b, k, c, s);
      k := k - 1;
    }
  }

  method BackStep(a: array2<real>, b: array<real>, k: nat, ghost c: Matrix, ghost s: seq<real>)
    requires a.Length0 == a.Length1 == b.Length == |s| && k < b.Length && b[k] == s[k]
    requires UnitUpper(c, b.Length) && SolvedFrom(c, s, b[..], k + 1, b.Length)
    requires forall j | k < j < b.Length :: a[k, j] == At(c, k, j)
    modifies b
    ensures SolvedFrom(c, s, b[..], k, b.Length)
    ensures forall i | 0 <= i < k :: b[i] == old(b[i])
  {
    ghost var before := b[..];
    SubtractLater(a, b, k, c);
    SolvedOneMore(c, s, before, b[..], k, b.Length);
  }

  lemma NoPivotColumn(a0: Matrix, b0: seq<real>, u: Matrix, j: nat, n: nat)
    requires |b0| == n && j < n && Shape(u, n, n + 1) && UnitUpper(Reduced(u, j, n, n + 1), j)
    requires SameKernel(Augment(a0, b0, n), Reduced(u, j, n, n + 1), n, n + 1)
    requires forall i | j <= i < n :: At(u, i, j) == 0.0
    ensures Singular(a0, n)
  {
    NoPivotSingular(a0, b0, Reduced(u, j, n, n + 1), j, n);
  }

  lemma PivotColumn(first: Matrix, v: Matrix, u: Matrix, j: nat, p: nat, n: nat)
    requires j <= p < n && At(v, p, j) != 0.0 && Worked(v, u, j, p, At(v, p, j), n, n + 1)
    requires UnitUpper(Reduced(v, j, n, n + 1), j) && SameKernel(first, Reduced(v, j, n, n + 1), n, n + 1)
    ensures UnitUpper(Reduced(u, j + 1, n, n + 1), j + 1) && SameKernel(first, Reduced(u, j + 1, n, n + 1), n, n + 1)
  {
    WorkIsStep(v, u, j, p, At(v, p, j), n, n + 1);
    StepKeepsSolutions(Reduced(v, j, n, n + 1), Reduced(u, j + 1, n, n + 1), j, p, At(v, p, j), n, n + 1);
  }

  /** One column of the elimination, or the discovery that it has no pivot. */
  method EliminateColumn(a: array2<real>, b: array<real>, j: nat, ghost a0: Matrix, ghost b0: seq<real>, ghost v: Matrix)
    returns (ok: bool, ghost u: Matrix)
    requires |b0| == b.Length && Stores(a, b, v) && j < b.Length
    requires UnitUpper(Reduced(v, j, b.Length, b.Length + 1), j)
    requires SameKernel(Augment(a0, b0, b.Length), Reduced(v, j, b.Length, b.Length + 1), b.Length, b.Length + 1)
    modifies a, b
    ensures Stores(a, b, u)
    ensures !ok ==> Singular(a0, b.Length)
    ensures ok ==> UnitUpper(Reduced(u, j + 1, b.Length, b.Length + 1), j + 1)
    ensures ok ==> SameKernel(Augment(a0, b0, b.Length), Reduced(u, j + 1, b.Length, b.Length + 1), b.Length, b.Length + 1)
  {
    var biga, imax := FindPivot(a, j);
    u := v;
    ok := Abs(biga) != 0.0;
    if !ok {
      forall i | j <= i < b.Length
        ensures At(v, i, j) == 0.0
      {
        assert At(v, i, j) == a[i, j];
      }
      NoPivotColumn(a0, b0, v, j, b.Length);
      return;
    }
    assert At(v, imax, j) == a[imax, j];
    u := ReduceColumn(a, b, j, imax, biga, v);
    PivotColumn(Augment(a0, b0, b.Length), v, u, j, imax, b.Length);
  }

  /** The columns before j are reduced, and the kernel is still that of the augmented matrix. */
  ghost predicate ReducedSoFar(u: Matrix, a0: Matrix, b0: seq<real>, j: nat, n: nat)
    requires j <= n == |b0|
  {
    UnitUpper(Reduced(u, j, n, n + 1), j) && SameKernel(Augment(a0, b0, n), Reduced(u, j, n, n + 1), n, n + 1)
  }

  /** The elimination leaves a unit upper triangular system with the solutions of the original
      one, or finds the original matrix singular. */
  method EliminateAll(a: array2<real>, b: array<real>, ghost a0: Matrix, ghost b0: seq<real>)
    returns (ok: bool, ghost u: Matrix)
    requires |b0| == b.Length && Stores(a, b, Augment(a0, b0, b.Length))
    modifies a, b
    ensures Stores(a, b, u)
    ensures !ok ==> Singular(a0, b.Length)
    ensures ok ==> var c := Reduced(u, b.Length, b.Length, b.Length + 1);
      UnitUpper(c, b.Length) && SameKernel(Augment(a0, b0, b.Length), c, b.Length, b.Length + 1)
  {
    var n := b.Length;
    u := Augment(a0, b0, n);
    SameEntries(Reduced(u, 0, n, n + 1), u, n, n + 1);
    var j := 0;
    while j < n
      invariant 0 <= j <= n
      invariant Stores(a, b, u)
      invariant ReducedSoFar(u, a0, b0, j, n)
    {
      ok, u := EliminateColumn(a, b, j, a0, b0, u);
      if !ok {
        return;
      }
      j := j + 1;
    }
    ok := true;
  }

  method SolveStored(a: array2<real>, b: array<real>, ghost a0: Matrix, ghost b0: seq<real>) returns (ok: bool)
    requires |b0| == b.Length && Stores(a, b, Augment(a0, b0, b.Length))
    modifies a, b
    ensures ok ==> forall x: seq<real> :: Solves(a0, b0, x, b.Length) <==> x == b[..]
    ensures ok <==> !Singular(a0, b.Length)
  {
    ghost var u;
    ok, u := EliminateAll(a, b, a0, b0);
    if ok {
      ghost var c, s := Reduced(u, b.Length, b.Length, b.Length + 1), b[..];
      BackSubstitute(a, b, c);
      SolutionOfOriginal(a0, b0, c, s, b[..], b.Length);
    }
  }

  /** A returned vector is the one and only solution of the original system; the error is
      reported exactly when the original matrix is singular. */
  method Sysslv(a: array2<real>, b: array<real>) returns (ok: bool)
    requires a.Length0 == a.Length1 == b.Length
    modifies a, b
    ensures ok ==> forall x: seq<real> :: Solves(old(View(a, b.Length, b.Length)), old(b[..]), x, b.Length) <==> x == b[..]
    ensures ok <==> !Singular(old(View(a, b.Length, b.Length)), b.Length)
  {
    ok := SolveStored(a, b, View(a, b.Length, b.Length), b[..]);
  }

  lemma SolutionOfOriginal(a: Matrix, r: seq<real>, c: Matrix, s: seq<real>, b: seq<real>, n: nat)
    requires |r| == n == |s| == |b|
    requires SameKernel(Augment(a, r, n), c, n, n + 1)
    requires forall i | 0 <= i < n :: At(c, i, n) == s[i]
    requires SolvedFrom(c, s, b, 0, n)
    ensures forall x: seq<real> :: Solves(a, r, x, n) <==> x == b
    ensures !Singular(a, n)
  {
    forall x: seq<real>
      ensures Solves(a, r, x, n) <==> x == b
    {
      if |x| == n {
        SolvesIsKernel(a, r, x, n);
        KernelIsUpperSystem(c, s, x, n);
        assert Agree(x, b, 0, n) <==> x == b;
      }
    }
    UniqueNonsingular(a, r, b, n);
  }

  lemma KernelIsUpperSystem(c: Matrix, s: seq<real>, x: seq<real>, n: nat)
    requires |s| == n == |x| && forall i | 0 <= i < n :: At(c, i, n) == s[i]
    ensures InKernel(c, x + [-1.0], n, n + 1) <==> HoldsFrom(c, s, x, 0, n)
  {
    forall i | 0 <= i < n
      ensures Row(c, i, x + [-1.0], n + 1) == Row(c, i, x, n) - s[i]
    {
      RowCongruent(c, i, x, c, i, x + [-1.0], n);
    }
  }
}
