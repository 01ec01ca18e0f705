/** Householder reflections I - v v' / h with h = v'v / 2, written I - g v v' with g = 1 / h. */
module Reflections {
  import opened Matrices

  ghost function RowOf(v: seq<real>): (r: Matrix)
    ensures Shape(r, 1, |v|)
    ensures forall p | 0 <= p < |v| :: At(r, 0, p) == v[p]
  {
    [v]
  }

  ghost function ColumnOf(v: seq<real>): (c: Matrix)
    ensures Shape(c, |v|, 1)
    ensures forall p | 0 <= p < |v| :: At(c, p, 0) == v[p]
  {
    seq(|v|, p requires 0 <= p < |v| => [v[p]])
  }

  ghost function Delta(i: int, j: int): real { if i == j then 1.0 else 0.0 }

  /** I - w v' */
  ghost function RankOne(w: seq<real>, v: seq<real>): (p: Matrix)
    requires |w| == |v|
    ensures Shape(p, |v|, |v|)
    ensures forall i, j {:trigger At(p, i, j)} | 0 <= i < |v| && 0 <= j < |v| :: At(p, i, j) == Less(Delta(i, j), w[i], v[j])
  {
    seq(|v|, i requires 0 <= i < |v| => seq(|v|, j requires 0 <= j < |v| => Less(Delta(i, j), w[i], v[j])))
  }

  /** w is a multiple of v, seen through products only. */
  ghost predicate Parallel(w: seq<real>, v: seq<real>)
  {
    |w| == |v| && forall i, j | 0 <= i < |v| && 0 <= j < |v| :: ParallelAt(w, v, i, j)
  }

  ghost predicate ParallelAt(w: seq<real>, v: seq<real>, i: nat, j: nat)
    requires i < |v| == |w| && j < |v|
  {
    w[i] * v[j] == w[j] * v[i]
  }

  lemma RankOneStep(d: real, c: real, v: real, x: real, t: real)
    ensures (d - c * v) * x - c * t == d * x - c * (t + v * x)
    ensures x * (d - c * v) - c * t == d * x - c * (t + x * v)
  {
  }

  lemma {:induction false} RankOneLeft(p: Matrix, v: seq<real>, c: real, i: nat, m: Matrix, j: int, k: nat)
    requires k <= |v|
    requires forall q {:trigger At(p, i, q)} | 0 <= q < k :: At(p, i, q) == Less(Delta(i, q), c, v[q])
    ensures Dot(p, m, i, j, k) == (if i < k then At(m, i, j) else 0.0) - c * Dot(RowOf(v), m, 0, j, k)
  {
    if k > 0 {
      RankOneLeft(p, v, c, i, m, j, k - 1);
      RankOneStep(Delta(i, k - 1), c, v[k - 1], At(m, k - 1, j), Dot(RowOf(v), m, 0, j, k - 1));
    }
  }

  lemma {:induction false} RankOneRight(m: Matrix, p: Matrix, v: seq<real>, c: real, i: int, j: nat, k: nat)
    requires k <= |v|
    requires forall q {:trigger At(p, q, j)} | 0 <= q < k :: At(p, q, j) == Less(Delta(q, j), c, v[q])
    ensures Dot(m, p, i, j, k) == (if j < k then At(m, i, j) else 0.0) - c * Dot(m, ColumnOf(v), i, 0, k)
  {
    if k > 0 {
      RankOneRight(m, p, v, c, i, j, k - 1);
      RankOneStep(Delta(k - 1, j), c, v[k - 1], At(m, i, k - 1), Dot(m, ColumnOf(v), i, 0, k - 1));
    }
  }

  /** Multiplying from the left subtracts a multiple of w from every column. */
  lemma ReflectLeft(w: seq<real>, v: seq<real>, p: Matrix, m: Matrix, i: nat, j: nat, n: nat)
    requires i < n == |v| == |w| && p == RankOne(w, v)
    ensures Dot(p, m, i, j, n) == Less(At(m, i, j), w[i], Dot(RowOf(v), m, 0, j, n))
  {
    RankOneLeft(p, v, w[i], i, m, j, n);
  }

  /** Multiplying from the right subtracts a multiple of v' from every row. */
  lemma ReflectRight(w: seq<real>, v: seq<real>, p: Matrix, m: Matrix, i: nat, j: nat, n: nat)
    requires j < n == |v| && Parallel(w, v) && p == RankOne(w, v)
    ensures Dot(m, p, i, j, n) == Less(At(m, i, j), w[j], Dot(m, ColumnOf(v), i, 0, n))
  {
    forall q | 0 <= q < n
      ensures At(p, q, j) == Less(Delta(q, j), w[j], v[q])
    {
      assert ParallelAt(w, v, q, j);
    }
    RankOneRight(m, p, v, w[j], i, j, n);
  }

  /** v'v */
  ghost function Norm2(v: seq<real>): real {
    Dot(RowOf(v), ColumnOf(v), 0, 0, |v|)
  }

  lemma RankOneSymmetric(w: seq<real>, v: seq<real>)
    requires Parallel(w, v)
    ensures Transpose(RankOne(w, v), |v|, |v|) == RankOne(w, v)
  {
    var p := RankOne(w, v);
    forall i, j | 0 <= i < |v| && 0 <= j < |v|
      ensures At(p, j, i) == At(p, i, j)
    {
      assert ParallelAt(w, v, i, j);
    }
    SameEntries(Transpose(p, |v|, |v|), p, |v|, |v|);
  }

  /** w = 2 v / v'v or w = 0: then I - w v' is a reflection or the identity. */
  ghost predicate Reflects(w: seq<real>, v: seq<real>) {
    && Parallel(w, v)
    && ((forall i | 0 <= i < |v| :: w[i] == 0.0) || (forall i | 0 <= i < |v| :: Normalised(w, v, i)))
  }

  ghost predicate Normalised(w: seq<real>, v: seq<real>, i: nat)
    requires i < |v| == |w|
  {
    w[i] * Norm2(v) == 2.0 * v[i]
  }

  lemma Twice(delta: real, wi: real, vj: real, wj: real, norm: real)
    requires wi == 0.0 || wj * norm == 2.0 * vj
    ensures Less(Less(delta, wi, vj), wi, Less(vj, wj, norm)) == delta
  {
    if wi != 0.0 {
      assert Less(vj, wj, norm) == -vj;
    }
  }

  lemma SquareEntry(w: seq<real>, v: seq<real>, p: Matrix, i: nat, j: nat, n: nat)
    requires i < n == |v| && j < n && Parallel(w, v) && p == RankOne(w, v)
    requires w[i] == 0.0 || Normalised(w, v, j)
    ensures Dot(p, p, i, j, n) == Delta(i, j)
  {
    ReflectLeft(w, v, p, p, i, j, n);
    ReflectRight(w, v, p, RowOf(v), 0, j, n);
    Twice(Delta(i, j), w[i], v[j], w[j], Norm2(v));
  }

  /** A reflection is orthogonal: it is its own inverse and its own transpose. */
  lemma ReflectionOrthogonal(w: seq<real>, v: seq<real>, p: Matrix, n: nat)
    requires n == |v| && Reflects(w, v) && p == RankOne(w, v)
    ensures Orthogonal(p, n) && Transpose(p, n, n) == p
  {
    RankOneSymmetric(w, v);
    forall i, j | 0 <= i < n && 0 <= j < n
      ensures Dot(p, p, i, j, n) == At(Identity(n), i, j)
    {
      SquareEntry(w, v, p, i, j, n);
    }
    SameEntries(Mul(p, p, n, n, n), Identity(n), n, n);
  }

  lemma OrthogonalProduct(u: Matrix, p: Matrix, n: nat)
    requires Orthogonal(u, n) && Orthogonal(p, n)
    ensures Orthogonal(Mul(u, p, n, n, n), n)
  {
    var w, ut, pt := Mul(u, p, n, n, n), Transpose(u, n, n), Transpose(p, n, n);
    TransposeProduct(u, p, n, n, n);
    calc {
      Mul(Mul(pt, ut, n, n, n), w, n, n, n);
      { MulAssociative(pt, ut, w, n, n, n, n); MulAssociative(ut, u, p, n, n, n, n); MulIdentityLeft(p, n, n); }
      Mul(pt, p, n, n, n);
      Identity(n);
    }
    calc {
      Mul(w, Mul(pt, ut, n, n, n), n, n, n);
      { MulAssociative(w, pt, ut, n, n, n, n); MulAssociative(u, p, pt, n, n, n, n); MulIdentityRight(u, n, n); }
      Mul(u, ut, n, n, n);
      Identity(n);
    }
  }

  lemma IdentityOrthogonal(n: nat)
    ensures Orthogonal(Identity(n), n)
  {
    SameEntries(Transpose(Identity(n), n, n), Identity(n), n, n);
    MulIdentityLeft(Identity(n), n, n);
  }
}
