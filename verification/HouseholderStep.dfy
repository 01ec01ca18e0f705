/** One step of the reduction, as a relation between the stored matrix before and after each of
    its three loops, and the proof that together they conjugate the logical matrix. */
module HouseholderStep {
  import opened Matrices
  import opened Reflections
  import opened HouseholderSpec

  /** s and t agree outside column l below the diagonal and outside (l, n + 1). */
  ghost predicate OnlyVectorChanged(s: Matrix, t: Matrix, l: nat, n: nat) {
    forall i, j | 0 <= i <= n + 1 && 0 <= j <= n + 1 && !(j == l && i > l) && !(i == l && j == n + 1) :: At(t, i, j) == At(s, i, j)
  }

  /** The column was zero below the diagonal: nothing to reflect. */
  ghost predicate Skipped(s: Matrix, t: Matrix, l: nat, n: nat) {
    && At(t, n + 1, l) == 0.0 && At(t, l, n + 1) == 0.0
    && forall i | l < i <= n :: At(s, i, l) == 0.0 && At(t, i, l) == 0.0
  }

  /** Column l of t below the diagonal is a vector v with v'v = 2h, and v times scale carries the
      old column x to a multiple of the first unit vector. */
  ghost predicate Reflected(s: Matrix, t: Matrix, l: nat, n: nat, scale: real) {
    && At(t, n + 1, l) != 0.0
    && Norm2(Vector(t, l, n)) == 2.0 * At(t, n + 1, l)
    && Dot(RowOf(Vector(t, l, n)), s, 0, l, n + 1) == scale * At(t, n + 1, l)
    && forall i | l < i <= n :: Less(At(s, i, l), scale, At(t, i, l)) == if i == l + 1 then At(t, l, n + 1) else 0.0
  }

  ghost predicate VectorDone(s: Matrix, t: Matrix, l: nat, n: nat, scale: real) {
    OnlyVectorChanged(s, t, l, n) && (Skipped(s, t, l, n) || Reflected(s, t, l, n, scale))
  }

  /** The columns behind column l are multiplied by the reflection from the left. */
  ghost predicate LeftDone(t: Matrix, u: Matrix, l: nat, n: nat, v: seq<real>, w: seq<real>)
    requires |w| == n + 1
  {
    && (forall i, j | 0 <= i <= n + 1 && 0 <= j <= n + 1 && (i <= l || i > n || j <= l || j > n) :: At(u, i, j) == At(t, i, j))
    && (forall i, j | l < i <= n && l < j <= n :: At(u, i, j) == Less(At(t, i, j), w[i], Dot(RowOf(v), t, 0, j, n + 1)))
  }

  /** All rows are multiplied by the reflection from the right. */
  ghost predicate RightDone(u: Matrix, z: Matrix, l: nat, n: nat, v: seq<real>, w: seq<real>)
    requires |w| == n + 1
  {
    && (forall i, j | 0 <= i <= n + 1 && 0 <= j <= n + 1 && (i > n || j <= l || j > n) :: At(z, i, j) == At(u, i, j))
    && (forall i, j | 0 <= i <= n && l < j <= n :: At(z, i, j) == Less(At(u, i, j), w[j], Dot(u, ColumnOf(v), i, 0, n + 1)))
  }

  // ---------- the left product ----------

  /** Finished columns have nothing below row l for the reflection to act on. */
  lemma LeftFinished(s: Matrix, l: nat, n: nat, v: seq<real>, j: nat)
    requires j < l < n && |v| == n + 1 && forall i | 0 <= i <= l :: v[i] == 0.0
    ensures Dot(RowOf(v), Logical(s, l, n), 0, j, n + 1) == 0.0
  {
    DotZero(RowOf(v), Logical(s, l, n), 0, j, 0, n + 1);
  }

  lemma ScaledTimes(w: real, v: real, h: real, scale: real)
    requires h != 0.0 && w == Over(v, h)
    ensures w * (scale * h) == scale * v
  {
    assert w * h == v;
    assert w * (scale * h) == (w * h) * scale;
  }

  /** Column l becomes the stored subdiagonal entry with zeros below it. */
  lemma LeftPivotColumn(s: Matrix, t: Matrix, l: nat, n: nat, scale: real, i: nat)
    requires l + 1 < n && i <= n && VectorDone(s, t, l, n, scale)
    ensures var v, w := Vector(t, l, n), Scaled(t, l, n);
      Less(At(s, i, l), w[i], Dot(RowOf(v), s, 0, l, n + 1)) ==
      if i <= l then At(t, i, l) else if i == l + 1 then At(t, l, n + 1) else 0.0
  {
    var v, w, h := Vector(t, l, n), Scaled(t, l, n), At(t, n + 1, l);
    var dot := Dot(RowOf(v), s, 0, l, n + 1);
    if h == 0.0 {
      LessNothing(At(s, i, l), w[i], 0.0, dot);
    } else if i <= l {
      LessNothing(At(s, i, l), w[i], h, dot);
    } else {
      LessScaled(At(s, i, l), w[i], v[i], h, scale, dot);
    }
  }

  lemma LessNothing(x: real, w: real, h: real, dot: real)
    requires w == 0.0 || (h != 0.0 && w == Over(0.0, h))
    ensures Less(x, w, dot) == x
  {
  }

  lemma LessScaled(x: real, w: real, v: real, h: real, scale: real, dot: real)
    requires h != 0.0 && w == Over(v, h) && dot == scale * h
    ensures Less(x, w, dot) == Less(x, scale, v)
  {
    ScaledTimes(w, v, h, scale);
  }

  lemma DotColumn(v: seq<real>, s: Matrix, t: Matrix, l: nat, n: nat, j: nat)
    requires |v| == n + 1 && forall i | 0 <= i <= n :: At(s, i, j) == At(t, i, j)
    ensures Dot(RowOf(v), s, 0, j, n + 1) == Dot(RowOf(v), t, 0, j, n + 1)
  {
    DotCongruent(RowOf(v), s, 0, j, RowOf(v), t, 0, j, n + 1);
  }

  /** Entry (i, j) of P L. */
  ghost function LeftEntry(s: Matrix, t: Matrix, u: Matrix, l: nat, n: nat, i: nat, j: nat): real {
    if j > l then At(u, i, j)
    else if j < l then At(Logical(s, l, n), i, j)
    else if i <= l then At(t, i, l)
    else if i == l + 1 then At(t, l, n + 1) else 0.0
  }

  lemma LeftLater(s: Matrix, t: Matrix, u: Matrix, l: nat, n: nat, v: seq<real>, w: seq<real>, p: Matrix, i: nat, j: nat)
    requires i <= n && l < j <= n && OnlyVectorChanged(s, t, l, n) && |v| == |w| == n + 1 && p == RankOne(w, v)
    requires LeftDone(t, u, l, n, v, w) && forall q | 0 <= q <= l && q <= n :: w[q] == 0.0
    ensures Dot(p, Logical(s, l, n), i, j, n + 1) == At(u, i, j)
  {
    var c := Logical(s, l, n);
    ReflectLeft(w, v, p, c, i, j, n + 1);
    DotColumn(v, c, t, l, n, j);
    assert At(c, i, j) == At(t, i, j);
    if i <= l {
      assert At(u, i, j) == At(t, i, j);
    }
  }

  lemma LeftEarlier(s: Matrix, l: nat, n: nat, v: seq<real>, w: seq<real>, p: Matrix, i: nat, j: nat)
    requires i <= n && j < l < n && |v| == |w| == n + 1 && p == RankOne(w, v)
    requires forall q | 0 <= q <= l :: v[q] == 0.0
    ensures Dot(p, Logical(s, l, n), i, j, n + 1) == At(Logical(s, l, n), i, j)
  {
    ReflectLeft(w, v, p, Logical(s, l, n), i, j, n + 1);
    LeftFinished(s, l, n, v, j);
  }

  lemma LeftPivot(s: Matrix, t: Matrix, l: nat, n: nat, scale: real, p: Matrix, i: nat)
    requires l + 1 < n && i <= n && VectorDone(s, t, l, n, scale) && p == Reflector(t, l, n)
    ensures Dot(p, Logical(s, l, n), i, l, n + 1) ==
            if i <= l then At(t, i, l) else if i == l + 1 then At(t, l, n + 1) else 0.0
  {
    var v, w, c := Vector(t, l, n), Scaled(t, l, n), Logical(s, l, n);
    LeftPivotColumn(s, t, l, n, scale, i);
    DotColumn(v, c, s, l, n, l);
    PivotReflected(w, v, p, c, s, i, l, n);
  }

  lemma PivotReflected(w: seq<real>, v: seq<real>, p: Matrix, c: Matrix, s: Matrix, i: nat, l: nat, n: nat)
    requires i <= n && l <= n && |v| == |w| == n + 1 && p == RankOne(w, v) && At(c, i, l) == At(s, i, l)
    requires Dot(RowOf(v), c, 0, l, n + 1) == Dot(RowOf(v), s, 0, l, n + 1)
    ensures Dot(p, c, i, l, n + 1) == Less(At(s, i, l), w[i], Dot(RowOf(v), s, 0, l, n + 1))
  {
    ReflectLeft(w, v, p, c, i, l, n + 1);
  }

  lemma LeftProduct(s: Matrix, t: Matrix, u: Matrix, l: nat, n: nat, scale: real, p: Matrix, i: nat, j: nat)
    requires l + 1 < n && i <= n && j <= n && VectorDone(s, t, l, n, scale)
    requires LeftDone(t, u, l, n, Vector(t, l, n), Scaled(t, l, n)) && p == Reflector(t, l, n)
    ensures Dot(p, Logical(s, l, n), i, j, n + 1) == LeftEntry(s, t, u, l, n, i, j)
  {
    if j < l {
      LeftEarlier(s, l, n, Vector(t, l, n), Scaled(t, l, n), p, i, j);
    } else if j == l {
      LeftPivot(s, t, l, n, scale, p, i);
    } else {
      ScaledHead(t, l, n);
      LeftLater(s, t, u, l, n, Vector(t, l, n), Scaled(t, l, n), p, i, j);
    }
  }

  lemma ScaledHead(t: Matrix, l: nat, n: nat)
    ensures forall q | 0 <= q <= l && q <= n :: Scaled(t, l, n)[q] == 0.0
  {
    forall q | 0 <= q <= l && q <= n
      ensures Scaled(t, l, n)[q] == 0.0
    {
      assert Vector(t, l, n)[q] == 0.0;
    }
  }

  // ---------- the right product ----------

  lemma DotRow(v: seq<real>, m: Matrix, u: Matrix, l: nat, n: nat, i: nat)
    requires |v| == n + 1 && forall q | 0 <= q <= l && q <= n :: v[q] == 0.0
    requires forall q | l < q <= n :: At(m, i, q) == At(u, i, q)
    ensures Dot(m, ColumnOf(v), i, 0, n + 1) == Dot(u, ColumnOf(v), i, 0, n + 1)
  {
    DotRowUpTo(v, m, u, l, n, i, n + 1);
  }

  lemma {:induction false} DotRowUpTo(v: seq<real>, m: Matrix, u: Matrix, l: nat, n: nat, i: nat, k: nat)
    requires |v| == n + 1 && k <= n + 1 && forall q | 0 <= q <= l && q <= n :: v[q] == 0.0
    requires forall q | l < q <= n :: At(m, i, q) == At(u, i, q)
    ensures Dot(m, ColumnOf(v), i, 0, k) == Dot(u, ColumnOf(v), i, 0, k)
  {
    if k > 0 {
      DotRowUpTo(v, m, u, l, n, i, k - 1);
    }
  }

  lemma ScaledParallel(t: Matrix, l: nat, n: nat)
    ensures Parallel(Scaled(t, l, n), Vector(t, l, n))
  {
    var v, w, h := Vector(t, l, n), Scaled(t, l, n), At(t, n + 1, l);
    forall i, j | 0 <= i < |v| && 0 <= j < |v|
      ensures ParallelAt(w, v, i, j)
    {
      if h != 0.0 {
        Quotients(v[i], v[j], h);
      }
    }
  }

  lemma Quotients(x: real, y: real, h: real)
    requires h != 0.0
    ensures Over(x, h) * y == Over(y, h) * x == x * Over(y, h)
  {
    assert Over(x, h) == x * (1.0 / h);
    assert Over(y, h) == y * (1.0 / h);
  }

  lemma RightLater(u: Matrix, z: Matrix, l: nat, n: nat, v: seq<real>, w: seq<real>, p: Matrix, m: Matrix, i: nat, j: nat)
    requires i <= n && l < j <= n && Parallel(w, v) && |v| == n + 1 && p == RankOne(w, v)
    requires RightDone(u, z, l, n, v, w) && forall q | 0 <= q <= l && q <= n :: v[q] == 0.0
    requires forall q | l < q <= n :: At(m, i, q) == At(u, i, q)
    ensures Dot(m, p, i, j, n + 1) == At(z, i, j)
  {
    ReflectRight(w, v, p, m, i, j, n + 1);
    DotRow(v, m, u, l, n, i);
    assert At(m, i, j) == At(u, i, j);
  }

  lemma RightEarlier(n: nat, v: seq<real>, w: seq<real>, p: Matrix, m: Matrix, i: nat, j: nat)
    requires i <= n && j <= n && Parallel(w, v) && |v| == n + 1 && p == RankOne(w, v) && w[j] == 0.0
    ensures Dot(m, p, i, j, n + 1) == At(m, i, j)
  {
    ReflectRight(w, v, p, m, i, j, n + 1);
  }

  /** Entry (i, j) of (P L) P. */
  lemma RightProduct(s: Matrix, t: Matrix, u: Matrix, z: Matrix, l: nat, n: nat, p: Matrix, m: Matrix, i: nat, j: nat)
    requires l + 1 < n && i <= n && j <= n && p == Reflector(t, l, n)
    requires RightDone(u, z, l, n, Vector(t, l, n), Scaled(t, l, n))
    requires forall q | 0 <= q <= n :: At(m, i, q) == LeftEntry(s, t, u, l, n, i, q)
    ensures Dot(m, p, i, j, n + 1) == if j > l then At(z, i, j) else LeftEntry(s, t, u, l, n, i, j)
  {
    ScaledParallel(t, l, n);
    if j > l {
      RightLater(u, z, l, n, Vector(t, l, n), Scaled(t, l, n), p, m, i, j);
    } else {
      ScaledHead(t, l, n);
      RightEarlier(n, Vector(t, l, n), Scaled(t, l, n), p, m, i, j);
    }
  }

  /** The three loops of a step turn the logical matrix L into P L P. */
  lemma StepConjugates(s: Matrix, t: Matrix, u: Matrix, z: Matrix, l: nat, n: nat, scale: real, p: Matrix)
    requires l + 1 < n && VectorDone(s, t, l, n, scale) && p == Reflector(t, l, n)
    requires LeftDone(t, u, l, n, Vector(t, l, n), Scaled(t, l, n))
    requires RightDone(u, z, l, n, Vector(t, l, n), Scaled(t, l, n))
    ensures Logical(z, l + 1, n) == Mul(Mul(p, Logical(s, l, n), n + 1, n + 1, n + 1), p, n + 1, n + 1, n + 1)
  {
    var m := Mul(p, Logical(s, l, n), n + 1, n + 1, n + 1);
    forall i, j | 0 <= i <= n && 0 <= j <= n
      ensures At(m, i, j) == LeftEntry(s, t, u, l, n, i, j)
    {
      LeftProduct(s, t, u, l, n, scale, p, i, j);
    }
    var c := Mul(m, p, n + 1, n + 1, n + 1);
    forall i, j | 0 <= i <= n && 0 <= j <= n
      ensures At(c, i, j) == At(Logical(z, l + 1, n), i, j)
    {
      RightProduct(s, t, u, z, l, n, p, m, i, j);
      StoredEntry(s, t, u, z, l, n, scale, i, j);
    }
    SameEntries(c, Logical(z, l + 1, n), n + 1, n + 1);
  }

  /** What the array stands for after the step. */
  lemma StoredEntry(s: Matrix, t: Matrix, u: Matrix, z: Matrix, l: nat, n: nat, scale: real, i: nat, j: nat)
    requires l + 1 < n && i <= n && j <= n && OnlyVectorChanged(s, t, l, n)
    requires LeftDone(t, u, l, n, Vector(t, l, n), Scaled(t, l, n))
    requires RightDone(u, z, l, n, Vector(t, l, n), Scaled(t, l, n))
    ensures At(Logical(z, l + 1, n), i, j) == if j > l then At(z, i, j) else LeftEntry(s, t, u, l, n, i, j)
  {
    if j <= l {
      assert At(z, i, j) == At(u, i, j) == At(t, i, j);
      assert At(z, j, n + 1) == At(u, j, n + 1) == At(t, j, n + 1);
    }
  }

  lemma ScaledNorm(t: Matrix, l: nat, n: nat, norm: real, i: nat)
    requires i <= n && At(t, n + 1, l) != 0.0 && norm == 2.0 * At(t, n + 1, l)
    ensures Scaled(t, l, n)[i] * norm == 2.0 * Vector(t, l, n)[i]
  {
    ScaledTimes(Scaled(t, l, n)[i], Vector(t, l, n)[i], At(t, n + 1, l), 2.0);
  }

  lemma StepReflects(s: Matrix, t: Matrix, l: nat, n: nat, scale: real)
    requires VectorDone(s, t, l, n, scale)
    ensures Reflects(Scaled(t, l, n), Vector(t, l, n))
  {
    ScaledParallel(t, l, n);
    if At(t, n + 1, l) != 0.0 {
      forall i | 0 <= i <= n
        ensures Normalised(Scaled(t, l, n), Vector(t, l, n), i)
      {
        ScaledNorm(t, l, n, Norm2(Vector(t, l, n)), i);
      }
    }
  }

  /** One full step keeps the invariant. */
  lemma StepKeepsReduced(s: Matrix, t: Matrix, u: Matrix, z: Matrix, a: Matrix, l: nat, n: nat, scale: real)
    requires l + 1 < n && HessenbergUpTo(s, a, l, n) && VectorDone(s, t, l, n, scale)
    requires LeftDone(t, u, l, n, Vector(t, l, n), Scaled(t, l, n))
    requires RightDone(u, z, l, n, Vector(t, l, n), Scaled(t, l, n))
    ensures HessenbergUpTo(z, a, l + 1, n)
  {
    var p := Reflector(t, l, n);
    StepConjugates(s, t, u, z, l, n, scale, p);
    StepReflects(s, t, l, n, scale);
    SameVector(t, z, l, n);
    ReducedStep(s, z, a, l, n, p);
  }

  lemma SameVector(t: Matrix, z: Matrix, l: nat, n: nat)
    requires l < n && forall i | l < i <= n + 1 :: At(z, i, l) == At(t, i, l)
    ensures Vector(z, l, n) == Vector(t, l, n) && Scaled(z, l, n) == Scaled(t, l, n)
  {
    assert At(z, n + 1, l) == At(t, n + 1, l);
  }
}
