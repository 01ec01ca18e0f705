/** Finite matrices over exact reals: the algebra behind the Sylvester solver and the
    Householder reduction.  A matrix is a sequence of rows, so two matrices of one shape
    are equal exactly when their entries are. */
module Matrices {

  type Matrix = seq<seq<real>>

  /** Named so that the prover meets products and quotients only where it needs them. */
  ghost function Less(x: real, w: real, d: real): real { x - w * d }

  lemma LessIs(x: real, w: real, d: real)
    ensures Less(x, w, d) == x - w * d
  {
  }

  ghost function Over(x: real, g: real): real
    requires g != 0.0
  {
    x / g
  }

  lemma OverSelf(g: real)
    requires g != 0.0
    ensures Over(g, g) == 1.0
  {
  }

  function Abs(x: real): real { if x < 0.0 then -x else x }

  ghost predicate Shape(a: Matrix, m: nat, n: nat) {
    |a| == m && forall i | 0 <= i < m :: |a[i]| == n
  }

  /** Entry (i, j), and 0 outside the matrix. */
  function At(a: Matrix, i: int, j: int): real {
    if 0 <= i < |a| && 0 <= j < |a[i]| then a[i][j] else 0.0
  }

  /** The upper left m x n corner of a heap matrix. */
  ghost function View(a: array2<real>, m: nat, n: nat): (v: Matrix)
    requires m <= a.Length0 && n <= a.Length1
    reads a
    ensures Shape(v, m, n)
    ensures forall i, j | 0 <= i < m && 0 <= j < n :: At(v, i, j) == a[i, j]
  {
    seq(m, i requires 0 <= i < m reads a => seq(n, j requires 0 <= j < n reads a => a[i, j]))
  }

  /** The m x n corner of c holds y. */
  ghost predicate Holds(c: array2<real>, y: Matrix, m: nat, n: nat)
    reads c
  {
    m <= c.Length0 && n <= c.Length1 && Shape(y, m, n) &&
    forall i, j | 0 <= i < m && 0 <= j < n :: c[i, j] == At(y, i, j)
  }

  lemma SameEntries(a: Matrix, b: Matrix, m: nat, n: nat)
    requires Shape(a, m, n) && Shape(b, m, n)
    requires forall i, j | 0 <= i < m && 0 <= j < n :: At(a, i, j) == At(b, i, j)
    ensures a == b
  {
    forall i | 0 <= i < m
      ensures a[i] == b[i]
    {
      forall j | 0 <= j < n
        ensures a[i][j] == b[i][j]
      {
        assert At(a, i, j) == At(b, i, j);
      }
    }
  }

  // ---------- products ----------

  /** sum over p < k of a(i, p) * b(p, j) */
  ghost function Dot(a: Matrix, b: Matrix, i: int, j: int, k: nat): real {
    if k == 0 then 0.0 else Dot(a, b, i, j, k - 1) + At(a, i, k - 1) * At(b, k - 1, j)
  }

  /** One more term, given its factors. */
  lemma DotStep(a: Matrix, b: Matrix, i: int, j: int, k: nat, x: real, y: real)
    requires x == At(a, i, k) && y == At(b, k, j)
    ensures Dot(a, b, i, j, k + 1) == Dot(a, b, i, j, k) + x * y
  {
  }

  /** The product of an m x k and a k x n matrix. */
  ghost function Mul(a: Matrix, b: Matrix, m: nat, k: nat, n: nat): (c: Matrix)
    ensures Shape(c, m, n)
    ensures forall i, j | 0 <= i < m && 0 <= j < n :: At(c, i, j) == Dot(a, b, i, j, k)
  {
    seq(m, i requires 0 <= i < m => seq(n, j requires 0 <= j < n => Dot(a, b, i, j, k)))
  }

  ghost function Transpose(a: Matrix, m: nat, n: nat): (c: Matrix)
    ensures Shape(c, n, m)
    ensures forall i, j | 0 <= i < n && 0 <= j < m :: At(c, i, j) == At(a, j, i)
  {
    seq(n, i requires 0 <= i < n => seq(m, j requires 0 <= j < m => At(a, j, i)))
  }

  ghost function Identity(n: nat): (c: Matrix)
    ensures Shape(c, n, n)
    ensures forall i, j | 0 <= i < n && 0 <= j < n :: At(c, i, j) == if i == j then 1.0 else 0.0
  {
    seq(n, i requires 0 <= i < n => seq(n, j requires 0 <= j < n => if i == j then 1.0 else 0.0))
  }

  ghost function Add(a: Matrix, b: Matrix, m: nat, n: nat): (c: Matrix)
    ensures Shape(c, m, n)
    ensures forall i, j | 0 <= i < m && 0 <= j < n :: At(c, i, j) == At(a, i, j) + At(b, i, j)
  {
    seq(m, i requires 0 <= i < m => seq(n, j requires 0 <= j < n => At(a, i, j) + At(b, i, j)))
  }

  ghost function Neg(a: Matrix, m: nat, n: nat): (c: Matrix)
    ensures Shape(c, m, n)
    ensures forall i, j | 0 <= i < m && 0 <= j < n :: At(c, i, j) == -At(a, i, j)
  {
    seq(m, i requires 0 <= i < m => seq(n, j requires 0 <= j < n => -At(a, i, j)))
  }

  /** U'U = UU' = I */
  ghost predicate Orthogonal(u: Matrix, n: nat) {
    && Shape(u, n, n)
    && Mul(Transpose(u, n, n), u, n, n, n) == Identity(n)
    && Mul(u, Transpose(u, n, n), n, n, n) == Identity(n)
  }

  // ---------- sums ----------

  lemma {:induction false} DotCongruent(a: Matrix, b: Matrix, i: int, j: int,
                                        c: Matrix, d: Matrix, x: int, y: int, k: nat)
    requires forall p | 0 <= p < k :: At(a, i, p) == At(c, x, p)
    requires forall p | 0 <= p < k :: At(b, p, j) == At(d, p, y)
    ensures Dot(a, b, i, j, k) == Dot(c, d, x, y, k)
  {
    if k > 0 {
      DotCongruent(a, b, i, j, c, d, x, y, k - 1);
    }
  }

  lemma {:induction false} DotFlip(a: Matrix, b: Matrix, i: int, j: int,
                                   c: Matrix, d: Matrix, x: int, y: int, k: nat)
    requires forall p | 0 <= p < k :: At(a, i, p) == At(d, p, y)
    requires forall p | 0 <= p < k :: At(b, p, j) == At(c, x, p)
    ensures Dot(a, b, i, j, k) == Dot(c, d, x, y, k)
  {
    if k > 0 {
      DotFlip(a, b, i, j, c, d, x, y, k - 1);
    }
  }

  lemma {:induction false} DotZero(a: Matrix, b: Matrix, i: int, j: int, lo: nat, k: nat)
    requires lo <= k
    requires forall p | lo <= p < k :: At(a, i, p) == 0.0 || At(b, p, j) == 0.0
    ensures Dot(a, b, i, j, k) == Dot(a, b, i, j, lo)
  {
    if lo < k {
      DotZero(a, b, i, j, lo, k - 1);
    }
  }

  /** A sum with at most one non-zero term. */
  lemma {:induction false} DotSingle(a: Matrix, b: Matrix, i: int, j: int, q: nat, k: nat)
    requires q < k
    requires forall p | 0 <= p < k && p != q :: At(a, i, p) == 0.0 || At(b, p, j) == 0.0
    ensures Dot(a, b, i, j, k) == At(a, i, q) * At(b, q, j)
  {
    DotZero(a, b, i, j, q + 1, k);
    DotZero(a, b, i, j, 0, q);
  }

  lemma {:induction false} DotAddLeft(a: Matrix, b: Matrix, c: Matrix, d: Matrix, i: int, j: int, k: nat)
    requires forall p | 0 <= p < k :: At(c, i, p) == At(a, i, p) + At(b, i, p)
    ensures Dot(c, d, i, j, k) == Dot(a, d, i, j, k) + Dot(b, d, i, j, k)
  {
    if k > 0 {
      DotAddLeft(a, b, c, d, i, j, k - 1);
      Distribute(At(a, i, k - 1), At(b, i, k - 1), At(d, k - 1, j));
    }
  }

  lemma {:induction false} DotAddRight(d: Matrix, a: Matrix, b: Matrix, c: Matrix, i: int, j: int, k: nat)
    requires forall p | 0 <= p < k :: At(c, p, j) == At(a, p, j) + At(b, p, j)
    ensures Dot(d, c, i, j, k) == Dot(d, a, i, j, k) + Dot(d, b, i, j, k)
  {
    if k > 0 {
      DotAddRight(d, a, b, c, i, j, k - 1);
      Distribute(At(a, k - 1, j), At(b, k - 1, j), At(d, i, k - 1));
    }
  }

  lemma Distribute(x: real, y: real, z: real)
    ensures (x + y) * z == x * z + y * z
    ensures z * (x + y) == z * x + z * y
  {
  }

  lemma ScaleStep(s: real, t: real, x: real, y: real)
    ensures s * t + (s * x) * y == s * (t + x * y)
    ensures s * t + y * (s * x) == s * (t + y * x)
  {
  }

  // ---------- associativity ----------

  /** sum over q < l of (sum over p < k of a(i, p) * b(p, q)) * c(q, j) */
  ghost function LeftSum(a: Matrix, b: Matrix, c: Matrix, i: int, j: int, k: nat, l: nat): real {
    if l == 0 then 0.0 else LeftSum(a, b, c, i, j, k, l - 1) + Dot(a, b, i, l - 1, k) * At(c, l - 1, j)
  }

  /** sum over p < k of a(i, p) * (sum over q < l of b(p, q) * c(q, j)) */
  ghost function RightSum(a: Matrix, b: Matrix, c: Matrix, i: int, j: int, k: nat, l: nat): real {
    if k == 0 then 0.0 else RightSum(a, b, c, i, j, k - 1, l) + At(a, i, k - 1) * Dot(b, c, k - 1, j, l)
  }

  lemma {:induction false} RightSumLast(a: Matrix, b: Matrix, c: Matrix, i: int, j: int, k: nat, l: nat)
    requires l > 0
    ensures RightSum(a, b, c, i, j, k, l) == RightSum(a, b, c, i, j, k, l - 1) + Dot(a, b, i, l - 1, k) * At(c, l - 1, j)
  {
    if k > 0 {
      RightSumLast(a, b, c, i, j, k - 1, l);
      var x, y, z := At(a, i, k - 1), At(b, k - 1, l - 1), At(c, l - 1, j);
      Distribute(Dot(b, c, k - 1, j, l - 1), y * z, x);
      Distribute(Dot(a, b, i, l - 1, k - 1), x * y, z);
      assert x * (y * z) == (x * y) * z;
    }
  }

  /** The two orders of summation of a triple product agree. */
  lemma {:induction false} SumExchange(a: Matrix, b: Matrix, c: Matrix, i: int, j: int, k: nat, l: nat)
    ensures LeftSum(a, b, c, i, j, k, l) == RightSum(a, b, c, i, j, k, l)
  {
    if l == 0 {
      RightSumEmpty(a, b, c, i, j, k);
    } else {
      SumExchange(a, b, c, i, j, k, l - 1);
      RightSumLast(a, b, c, i, j, k, l);
    }
  }

  lemma {:induction false} RightSumEmpty(a: Matrix, b: Matrix, c: Matrix, i: int, j: int, k: nat)
    ensures RightSum(a, b, c, i, j, k, 0) == 0.0
  {
    if k > 0 {
      RightSumEmpty(a, b, c, i, j, k - 1);
    }
  }

  lemma {:induction false} DotOfProductLeft(a: Matrix, b: Matrix, c: Matrix, ab: Matrix, i: int, j: int, k: nat, l: nat)
    requires forall q | 0 <= q < l :: At(ab, i, q) == Dot(a, b, i, q, k)
    ensures Dot(ab, c, i, j, l) == LeftSum(a, b, c, i, j, k, l)
  {
    if l > 0 {
      DotOfProductLeft(a, b, c, ab, i, j, k, l - 1);
    }
  }

  lemma {:induction false} DotOfProductRight(a: Matrix, b: Matrix, c: Matrix, bc: Matrix, i: int, j: int, k: nat, l: nat)
    requires forall p | 0 <= p < k :: At(bc, p, j) == Dot(b, c, p, j, l)
    ensures Dot(a, bc, i, j, k) == RightSum(a, b, c, i, j, k, l)
  {
    if k > 0 {
      DotOfProductRight(a, b, c, bc, i, j, k - 1, l);
    }
  }

  lemma MulAssociative(a: Matrix, b: Matrix, c: Matrix, m: nat, k: nat, l: nat, n: nat)
    ensures Mul(Mul(a, b, m, k, l), c, m, l, n) == Mul(a, Mul(b, c, k, l, n), m, k, n)
  {
    var ab, bc := Mul(a, b, m, k, l), Mul(b, c, k, l, n);
    forall i, j | 0 <= i < m && 0 <= j < n
      ensures Dot(ab, c, i, j, l) == Dot(a, bc, i, j, k)
    {
      DotOfProductLeft(a, b, c, ab, i, j, k, l);
      DotOfProductRight(a, b, c, bc, i, j, k, l);
      SumExchange(a, b, c, i, j, k, l);
    }
    SameEntries(Mul(ab, c, m, l, n), Mul(a, bc, m, k, n), m, n);
  }

  // ---------- the other laws ----------

  lemma MulIdentityLeft(a: Matrix, m: nat, n: nat)
    requires Shape(a, m, n)
    ensures Mul(Identity(m), a, m, m, n) == a
  {
    forall i, j | 0 <= i < m && 0 <= j < n
      ensures Dot(Identity(m), a, i, j, m) == At(a, i, j)
    {
      DotSingle(Identity(m), a, i, j, i, m);
    }
    SameEntries(Mul(Identity(m), a, m, m, n), a, m, n);
  }

  lemma MulIdentityRight(a: Matrix, m: nat, n: nat)
    requires Shape(a, m, n)
    ensures Mul(a, Identity(n), m, n, n) == a
  {
    forall i, j | 0 <= i < m && 0 <= j < n
      ensures Dot(a, Identity(n), i, j, n) == At(a, i, j)
    {
      DotSingle(a, Identity(n), i, j, j, n);
    }
    SameEntries(Mul(a, Identity(n), m, n, n), a, m, n);
  }

  lemma TransposeProduct(a: Matrix, b: Matrix, m: nat, k: nat, n: nat)
    ensures Transpose(Mul(a, b, m, k, n), m, n) == Mul(Transpose(b, k, n), Transpose(a, m, k), n, k, m)
  {
    var at, bt := Transpose(a, m, k), Transpose(b, k, n);
    forall i, j | 0 <= i < n && 0 <= j < m
      ensures Dot(a, b, j, i, k) == Dot(bt, at, i, j, k)
    {
      DotFlip(a, b, j, i, bt, at, i, j, k);
    }
    SameEntries(Transpose(Mul(a, b, m, k, n), m, n), Mul(bt, at, n, k, m), n, m);
  }

  lemma TransposeTwice(a: Matrix, m: nat, n: nat)
    requires Shape(a, m, n)
    ensures Transpose(Transpose(a, m, n), n, m) == a
  {
    SameEntries(Transpose(Transpose(a, m, n), n, m), a, m, n);
  }

  lemma MulAddLeft(a: Matrix, b: Matrix, d: Matrix, m: nat, k: nat, n: nat)
    ensures Mul(Add(a, b, m, k), d, m, k, n) == Add(Mul(a, d, m, k, n), Mul(b, d, m, k, n), m, n)
  {
    forall i, j | 0 <= i < m && 0 <= j < n
      ensures Dot(Add(a, b, m, k), d, i, j, k) == Dot(a, d, i, j, k) + Dot(b, d, i, j, k)
    {
      DotAddLeft(a, b, Add(a, b, m, k), d, i, j, k);
    }
    SameEntries(Mul(Add(a, b, m, k), d, m, k, n), Add(Mul(a, d, m, k, n), Mul(b, d, m, k, n), m, n), m, n);
  }

  lemma MulAddRight(d: Matrix, a: Matrix, b: Matrix, m: nat, k: nat, n: nat)
    ensures Mul(d, Add(a, b, k, n), m, k, n) == Add(Mul(d, a, m, k, n), Mul(d, b, m, k, n), m, n)
  {
    forall i, j | 0 <= i < m && 0 <= j < n
      ensures Dot(d, Add(a, b, k, n), i, j, k) == Dot(d, a, i, j, k) + Dot(d, b, i, j, k)
    {
      DotAddRight(d, a, b, Add(a, b, k, n), i, j, k);
    }
    SameEntries(Mul(d, Add(a, b, k, n), m, k, n), Add(Mul(d, a, m, k, n), Mul(d, b, m, k, n), m, n), m, n);
  }

  lemma {:induction false} DotNegRight(d: Matrix, a: Matrix, c: Matrix, i: int, j: int, k: nat)
    requires forall p | 0 <= p < k :: At(c, p, j) == -At(a, p, j)
    ensures Dot(d, c, i, j, k) == -Dot(d, a, i, j, k)
  {
    if k > 0 {
      DotNegRight(d, a, c, i, j, k - 1);
      Opposite(At(a, k - 1, j), At(d, i, k - 1));
    }
  }

  lemma Opposite(x: real, y: real)
    ensures -x * y == -(x * y) && y * -x == -(y * x)
  {
  }

  lemma MulNegRight(d: Matrix, a: Matrix, m: nat, k: nat, n: nat)
    ensures Mul(d, Neg(a, k, n), m, k, n) == Neg(Mul(d, a, m, k, n), m, n)
  {
    forall i, j | 0 <= i < m && 0 <= j < n
      ensures Dot(d, Neg(a, k, n), i, j, k) == -Dot(d, a, i, j, k)
    {
      DotNegRight(d, a, Neg(a, k, n), i, j, k);
    }
    SameEntries(Mul(d, Neg(a, k, n), m, k, n), Neg(Mul(d, a, m, k, n), m, n), m, n);
  }
}
