/** The in-place reduction to upper Hessenberg form and the construction of its orthogonal matrix.
    The square root is a parameter: any function that is exact on non-negative numbers will do. */
module Householder {
  import opened Matrices
  import opened Reflections
  import opened HouseholderSpec
  import opened HouseholderStep

  ghost predicate RootAt(sqrt: real -> real, x: real) {
    sqrt(x) >= 0.0 && sqrt(x) * sqrt(x) == x
  }

  /** The square root is exact. */
  ghost predicate ExactRoot(sqrt: real -> real) {
    forall x | x >= 0.0 :: RootAt(sqrt, x)
  }

  // ---------- the reflection vector ----------

  /** The column below the diagonal, divided by its largest magnitude. */
  ghost function Normal(s: Matrix, l: nat, n: nat, scale: real): (w: seq<real>)
    requires scale != 0.0
    ensures |w| == n + 1 && forall i | 0 <= i <= n :: w[i] == if i > l then Over(At(s, i, l), scale) else 0.0
  {
    seq(n + 1, i requires 0 <= i <= n => if i > l then Over(At(s, i, l), scale) else 0.0)
  }

  ghost function Square(w: seq<real>, v: seq<real>, k: nat): real {
    Dot(RowOf(w), ColumnOf(v), 0, 0, k)
  }

  /** Adding r to one entry changes the sum of squares by 2 r w[q] + r r. */
  lemma {:induction false} SquareUpdate(w: seq<real>, v: seq<real>, q: nat, r: real, k: nat)
    requires k <= |w| == |v| && q < |w| && v == w[q := w[q] + r]
    ensures Square(v, v, k) == Square(w, w, k) + if q < k then 2.0 * (r * w[q]) + r * r else 0.0
  {
    if k > 0 {
      SquareUpdate(w, v, q, r, k - 1);
      if q == k - 1 {
        assert v[q] * v[q] == w[q] * w[q] + (2.0 * (r * w[q]) + r * r);
      }
    }
  }

  lemma {:induction false} ProductUpdate(w: seq<real>, v: seq<real>, q: nat, r: real, k: nat)
    requires k <= |w| == |v| && q < |w| && v == w[q := w[q] + r]
    ensures Square(v, w, k) == Square(w, w, k) + if q < k then r * w[q] else 0.0
  {
    if k > 0 {
      ProductUpdate(w, v, q, r, k - 1);
      if q == k - 1 {
        assert v[q] * w[q] == w[q] * w[q] + r * w[q];
      }
    }
  }

  /** v against the unscaled column x = scale * w. */
  lemma {:induction false} AgainstColumn(v: seq<real>, w: seq<real>, s: Matrix, l: nat, scale: real, k: nat)
    requires k <= |w| == |v|
    requires forall i | 0 <= i < |v| :: v[i] == 0.0 || MultipleAt(s, l, scale, w, i)
    ensures Dot(RowOf(v), s, 0, l, k) == scale * Square(v, w, k)
  {
    if k > 0 {
      AgainstColumn(v, w, s, l, scale, k - 1);
      assert v[k - 1] == 0.0 || MultipleAt(s, l, scale, w, k - 1);
      if v[k - 1] != 0.0 {
        ScaleStep(scale, Square(v, w, k - 1), w[k - 1], v[k - 1]);
      }
    }
  }

  function CopySign(root: real, x: real): real {
    if x < 0.0 then -root else root
  }

  lemma SignedRoot(x: real, root: real, sum: real)
    requires root >= 0.0 && root * root == sum && sum > 0.0
    ensures var r := CopySign(root, x); r * r == sum && (x + r) * r != 0.0
  {
    if root == 0.0 {
      assert false;
    } else if x < 0.0 {
      assert (x - root) * (-root) == (root - x) * root;
      Positive(root - x, root);
    } else {
      Positive(x + root, root);
    }
  }

  lemma Positive(x: real, y: real)
    requires x > 0.0 && y > 0.0
    ensures x * y > 0.0
  {
  }

  lemma BuiltNorm(w: seq<real>, v: seq<real>, q: nat, r: real)
    requires q < |w| == |v| && v == w[q := w[q] + r] && r * r == Square(w, w, |w|)
    ensures Norm2(v) == 2.0 * ((w[q] + r) * r)
  {
    SquareUpdate(w, v, q, r, |w|);
    Expand(w[q], r);
  }

  lemma BuiltProduct(w: seq<real>, v: seq<real>, q: nat, r: real)
    requires q < |w| == |v| && v == w[q := w[q] + r] && r * r == Square(w, w, |w|)
    ensures Square(v, w, |w|) == (w[q] + r) * r
  {
    ProductUpdate(w, v, q, r, |w|);
    Expand(w[q], r);
  }

  /** Column l of s below the diagonal is scale times w. */
  ghost predicate Multiple(s: Matrix, l: nat, n: nat, scale: real, w: seq<real>) {
    |w| == n + 1 && (forall i | 0 <= i <= l && i <= n :: w[i] == 0.0) && forall i | l < i <= n :: MultipleAt(s, l, scale, w, i)
  }

  ghost predicate MultipleAt(s: Matrix, l: nat, scale: real, w: seq<real>, i: nat)
    requires i < |w|
  {
    At(s, i, l) == scale * w[i]
  }

  lemma NormalMultiple(s: Matrix, l: nat, n: nat, scale: real)
    requires scale != 0.0
    ensures Multiple(s, l, n, scale, Normal(s, l, n, scale))
  {
    forall i | l < i <= n
      ensures MultipleAt(s, l, scale, Normal(s, l, n, scale), i)
    {
      Undivide(At(s, i, l), scale);
    }
  }

  lemma BuiltColumn(s: Matrix, l: nat, n: nat, scale: real, w: seq<real>, v: seq<real>, r: real)
    requires l + 1 < n && Multiple(s, l, n, scale, w) && v == w[l + 1 := w[l + 1] + r] && r * r == Square(w, w, n + 1)
    ensures Dot(RowOf(v), s, 0, l, n + 1) == scale * ((w[l + 1] + r) * r)
  {
    BuiltProduct(w, v, l + 1, r);
    forall i | 0 <= i < |v|
      ensures v[i] == 0.0 || MultipleAt(s, l, scale, w, i)
    {
    }
    AgainstColumn(v, w, s, l, scale, n + 1);
  }

  lemma BuiltResidue(s: Matrix, l: nat, n: nat, scale: real, w: seq<real>, v: seq<real>, r: real, i: nat)
    requires l + 1 < n && l < i <= n && Multiple(s, l, n, scale, w) && v == w[l + 1 := w[l + 1] + r]
    ensures Less(At(s, i, l), scale, v[i]) == if i == l + 1 then -scale * r else 0.0
  {
    assert MultipleAt(s, l, scale, w, i);
    Distribute(w[l + 1], r, scale);
  }

  /** The vector the code builds is the one the step needs. */
  lemma VectorFacts(s: Matrix, t: Matrix, l: nat, n: nat, scale: real, r: real, w: seq<real>, h: real)
    requires l + 1 < n && OnlyVectorChanged(s, t, l, n) && Multiple(s, l, n, scale, w)
    requires r * r == Square(w, w, n + 1) && h == (w[l + 1] + r) * r && h != 0.0
    requires forall i | l < i <= n :: At(t, i, l) == if i == l + 1 then w[i] + r else w[i]
    requires At(t, n + 1, l) == h && At(t, l, n + 1) == -scale * r
    ensures VectorDone(s, t, l, n, scale)
  {
    var v := Vector(t, l, n);
    assert v == w[l + 1 := w[l + 1] + r];
    BuiltNorm(w, v, l + 1, r);
    BuiltColumn(s, l, n, scale, w, v, r);
    forall i | l < i <= n
      ensures Less(At(s, i, l), scale, At(t, i, l)) == if i == l + 1 then At(t, l, n + 1) else 0.0
    {
      BuiltResidue(s, l, n, scale, w, v, r, i);
    }
  }

  lemma Expand(x: real, r: real)
    ensures (x + r) * r == r * x + r * r
  {
  }

  lemma Undivide(x: real, scale: real)
    requires scale != 0.0
    ensures scale * Over(x, scale) == x
  {
  }

  // ---------- the loops of one step ----------

  method LargestBelow(n: nat, l: nat, a: array2<real>) returns (max: real, ghost at: nat)
    requires l + 1 < n && n + 1 < a.Length0 && n + 1 < a.Length1
    ensures max >= 0.0 && forall i | l < i <= n :: Abs(a[i, l]) <= max
    ensures max > 0.0 ==> l < at <= n && Abs(a[at, l]) == max
  {
    max, at := 0.0, l + 1;
    var i := l + 1;
    while i <= n
      invariant l < i <= n + 1 && max >= 0.0
      invariant forall q | l < q < i :: Abs(a[q, l]) <= max
      invariant max > 0.0 ==> l < at <= n && Abs(a[at, l]) == max
    {
      var s := Abs(a[i, l]);
      if max < s {
        max, at := s, i;
      }
      i := i + 1;
    }
  }

  lemma SquareGrows(x: real)
    ensures x * x >= 0.0
    ensures Abs(x) == 1.0 ==> x * x == 1.0
  {
  }

  lemma UnitEntry(x: real, max: real)
    requires max > 0.0 && Abs(x) == max
    ensures Abs(x / max) == 1.0
  {
    if x == max {
      assert x / max == 1.0;
    } else {
      assert (-max) / max == -1.0;
    }
  }

  lemma NormalEntry(x: real, max: real, r: real, sum: real, largest: bool)
    requires max > 0.0 && r == x / max && sum >= 0.0 && (largest ==> Abs(x) == max)
    ensures sum + r * r >= sum && (largest ==> sum + r * r >= 1.0)
  {
    SquareGrows(r);
    if largest {
      UnitEntry(x, max);
    }
  }

  method Normalise(n: nat, l: nat, a: array2<real>, max: real, ghost at: nat, ghost s: Matrix) returns (sum: real)
    requires l + 1 < n && Holds(a, s, n + 2, n + 2) && max > 0.0 && l < at <= n && Abs(At(s, at, l)) == max
    modifies a
    ensures var w := Normal(s, l, n, max);
      sum > 0.0 && sum == Square(w, w, n + 1) && forall i | l < i <= n :: a[i, l] == w[i]
    ensures forall i, j | 0 <= i <= n + 1 && 0 <= j <= n + 1 && !(j == l && l < i <= n) :: a[i, j] == At(s, i, j)
  {
    ghost var w := Normal(s, l, n, max);
    sum := 0.0;
    var i := l + 1;
    DotZero(RowOf(w), ColumnOf(w), 0, 0, 0, l + 1);
    while i <= n
      invariant l < i <= n + 1
      invariant sum == Square(w, w, i) && sum >= 0.0 && (i > at ==> sum >= 1.0)
      invariant forall q | l < q < i :: a[q, l] == w[q]
      invariant forall p, q | 0 <= p <= n + 1 && 0 <= q <= n + 1 && !(q == l && l < p < i) :: a[p, q] == At(s, p, q)
    {
      a[i, l] := a[i, l] / max;
      var r := a[i, l];
      NormalEntry(At(s, i, l), max, r, sum, i == at);
      sum := sum + r * r;
      i := i + 1;
    }
  }

  method StoreVector(n: nat, l: nat, a: array2<real>, max: real, r: real, ghost s: Matrix, ghost w: seq<real>)
    returns (ghost t: Matrix)
    requires l + 1 < n && n + 1 < a.Length0 && n + 1 < a.Length1 && Shape(s, n + 2, n + 2) && |w| == n + 1
    requires forall i | l < i <= n :: a[i, l] == w[i]
    requires forall i, j | 0 <= i <= n + 1 && 0 <= j <= n + 1 && !(j == l && l < i <= n) :: a[i, j] == At(s, i, j)
    modifies a
    ensures Holds(a, t, n + 2, n + 2) && OnlyVectorChanged(s, t, l, n)
    ensures forall i | l < i <= n :: At(t, i, l) == if i == l + 1 then w[i] + r else w[i]
    ensures At(t, n + 1, l) == (w[l + 1] + r) * r && At(t, l, n + 1) == -max * r
  {
    var p := a[l + 1, l] + r;
    StoreNumbers(n, l, a, -max * r, p, p * r);
    t := View(a, n + 2, n + 2);
    assert forall i, j | 0 <= i <= n + 1 && 0 <= j <= n + 1 :: At(t, i, j) == a[i, j];
  }

  method StoreNumbers(n: nat, l: nat, a: array2<real>, subdiagonal: real, p: real, divisor: real)
    requires l + 1 < n && n + 1 < a.Length0 && n + 1 < a.Length1
    modifies a
    ensures a[l, n + 1] == subdiagonal && a[l + 1, l] == p && a[n + 1, l] == divisor
    ensures forall i, j | 0 <= i <= n + 1 && 0 <= j <= n + 1 && !(i == l && j == n + 1) && !(i == l + 1 && j == l) && !(i == n + 1 && j == l) ::
      a[i, j] == old(a[i, j])
  {
    a[l, n + 1] := subdiagonal;
    a[l + 1, l] := p;
    a[n + 1, l] := divisor;
  }

  method FinishVector(n: nat, l: nat, a: array2<real>, max: real, sum: real, sqrt: real -> real, ghost s: Matrix, ghost w: seq<real>)
    returns (ghost t: Matrix)
    requires l + 1 < n && n + 1 < a.Length0 && n + 1 < a.Length1 && Shape(s, n + 2, n + 2)
    requires Multiple(s, l, n, max, w)
    requires sum > 0.0 && sum == Square(w, w, n + 1) && forall i | l < i <= n :: a[i, l] == w[i]
    requires forall i, j | 0 <= i <= n + 1 && 0 <= j <= n + 1 && !(j == l && l < i <= n) :: a[i, j] == At(s, i, j)
    requires RootAt(sqrt, sum)
    modifies a
    ensures Holds(a, t, n + 2, n + 2) && VectorDone(s, t, l, n, max) && At(t, n + 1, l) != 0.0
  {
    var r := CopySign(sqrt(sum), a[l + 1, l]);
    SignedRoot(w[l + 1], sqrt(sum), sum);
    t := StoreVector(n, l, a, max, r, s, w);
    VectorFacts(s, t, l, n, max, r, w, (w[l + 1] + r) * r);
  }

  /** The reflection vector, its divisor and the new subdiagonal entry. */
  method MakeVector(n: nat, l: nat, a: array2<real>, sqrt: real -> real, ghost s: Matrix)
    returns (skip: bool, ghost t: Matrix, ghost scale: real)
    requires l + 1 < n && Holds(a, s, n + 2, n + 2)
    requires ExactRoot(sqrt)
    modifies a
    ensures Holds(a, t, n + 2, n + 2) && VectorDone(s, t, l, n, scale)
    ensures skip <==> At(t, n + 1, l) == 0.0
  {
    var max;
    ghost var at;
    max, at := LargestBelow(n, l, a);
    scale := max;
    skip := max == 0.0;
    if max == 0.0 {
      a[n + 1, l] := 0.0;
      a[l, n + 1] := 0.0;
      t := View(a, n + 2, n + 2);
    } else {
      var sum := Normalise(n, l, a, max, at, s);
      NormalMultiple(s, l, n, max);
      assert RootAt(sqrt, sum);
      t := FinishVector(n, l, a, max, sum, sqrt, s, Normal(s, l, n, max));
    }
  }

  // ---------- multiplying by the reflection ----------

  /** Column l of the array below the diagonal is v. */
  ghost predicate HoldsVector(a: array2<real>, l: nat, n: nat, v: seq<real>)
    reads a
  {
    && |v| == n + 1 && n + 1 < a.Length0 && n + 1 < a.Length1 && l <= n
    && (forall i | 0 <= i <= l :: v[i] == 0.0)
    && (forall i | l < i <= n :: a[i, l] == v[i])
  }

  ghost predicate Quotient(w: seq<real>, v: seq<real>, h: real, i: nat)
    requires i < |w| == |v|
  {
    h != 0.0 && w[i] == Over(v[i], h)
  }

  /** w = v / h */
  ghost predicate QuotientVector(w: seq<real>, v: seq<real>, h: real) {
    |w| == |v| && forall i | 0 <= i < |w| :: Quotient(w, v, h, i)
  }

  method SumColumn(n: nat, l: nat, j: nat, a: array2<real>, ghost t: Matrix, ghost v: seq<real>) returns (sum: real)
    requires HoldsVector(a, l, n, v) && l < j <= n && forall i | l < i <= n :: a[i, j] == At(t, i, j)
    ensures sum == Dot(RowOf(v), t, 0, j, n + 1)
  {
    sum := 0.0;
    var i := l + 1;
    DotZero(RowOf(v), t, 0, j, 0, l + 1);
    while i <= n
      invariant l < i <= n + 1 && sum == Dot(RowOf(v), t, 0, j, i)
    {
      DotStep(RowOf(v), t, 0, j, i, a[i, l], a[i, j]);
      sum := sum + a[i, l] * a[i, j];
      i := i + 1;
    }
  }

  method SubtractColumn(n: nat, l: nat, j: nat, a: array2<real>, p: real, ghost v: seq<real>)
    requires HoldsVector(a, l, n, v) && l < j <= n
    modifies a
    ensures forall i | l < i <= n :: a[i, j] == Less(old(a[i, j]), v[i], p)
    ensures forall x, q | 0 <= x < a.Length0 && 0 <= q < a.Length1 && !(q == j && l < x <= n) :: a[x, q] == old(a[x, q])
  {
    var i := l + 1;
    while i <= n
      invariant l < i <= n + 1
      invariant forall x | l < x < i :: a[x, j] == Less(old(a[x, j]), v[x], p)
      invariant forall x, q | 0 <= x < a.Length0 && 0 <= q < a.Length1 && !(q == j && l < x < i) :: a[x, q] == old(a[x, q])
    {
      LessIs(a[i, j], a[i, l], p);
      a[i, j] := a[i, j] - a[i, l] * p;
      i := i + 1;
    }
  }

  method SumRow(n: nat, l: nat, i: nat, a: array2<real>, ghost u: Matrix, ghost v: seq<real>) returns (sum: real)
    requires HoldsVector(a, l, n, v) && i <= n && forall j | l < j <= n :: a[i, j] == At(u, i, j)
    ensures sum == Dot(u, ColumnOf(v), i, 0, n + 1)
  {
    sum := 0.0;
    var j := l + 1;
    DotZero(u, ColumnOf(v), i, 0, 0, l + 1);
    while j <= n
      invariant l < j <= n + 1 && sum == Dot(u, ColumnOf(v), i, 0, j)
    {
      DotStep(u, ColumnOf(v), i, 0, j, a[i, j], a[j, l]);
      sum := sum + a[i, j] * a[j, l];
      j := j + 1;
    }
  }

  method SubtractRow(n: nat, l: nat, i: nat, a: array2<real>, p: real, ghost v: seq<real>)
    requires HoldsVector(a, l, n, v) && i <= n
    modifies a
    ensures forall j | l < j <= n :: a[i, j] == Less(old(a[i, j]), v[j], p)
    ensures forall x, q | 0 <= x < a.Length0 && 0 <= q < a.Length1 && !(x == i && l < q <= n) :: a[x, q] == old(a[x, q])
  {
    var j := l + 1;
    while j <= n
      invariant l < j <= n + 1
      invariant forall q | l < q < j :: a[i, q] == Less(old(a[i, q]), v[q], p)
      invariant forall x, q | 0 <= x < a.Length0 && 0 <= q < a.Length1 && !(x == i && l < q < j) :: a[x, q] == old(a[x, q])
    {
      LessIs(a[i, j], a[j, l], p);
      a[i, j] := a[i, j] - p * a[j, l];
      j := j + 1;
    }
  }

  /** The columns behind column l, multiplied from the left, up to column j. */
  ghost predicate LeftUpTo(t: Matrix, u: Matrix, l: nat, n: nat, v: seq<real>, w: seq<real>, j: nat)
    requires |w| == n + 1
  {
    && (forall p, q | 0 <= p <= n + 1 && 0 <= q <= n + 1 && !(l < p <= n && l < q < j) :: At(u, p, q) == At(t, p, q))
    && (forall q | l < q < j && q <= n :: LeftColumnDone(t, u, l, n, v, w, q))
  }

  ghost predicate LeftColumnDone(t: Matrix, u: Matrix, l: nat, n: nat, v: seq<real>, w: seq<real>, q: nat)
    requires |w| == n + 1
  {
    forall p {:trigger At(u, p, q)} | l < p <= n :: At(u, p, q) == Less(At(t, p, q), w[p], Dot(RowOf(v), t, 0, q, n + 1))
  }

  method LeftColumn(n: nat, l: nat, j: nat, a: array2<real>, ghost t: Matrix, ghost x: Matrix, ghost v: seq<real>, ghost w: seq<real>)
    returns (ghost u: Matrix)
    requires Holds(a, x, n + 2, n + 2) && HoldsVector(a, l, n, v) && l < j <= n && QuotientVector(w, v, a[n + 1, l])
    requires LeftUpTo(t, x, l, n, v, w, j)
    modifies a
    ensures Holds(a, u, n + 2, n + 2) && HoldsVector(a, l, n, v) && a[n + 1, l] == old(a[n + 1, l])
    ensures LeftUpTo(t, u, l, n, v, w, j + 1)
  {
    var sum := SumColumn(n, l, j, a, t, v);
    ghost var h := a[n + 1, l];
    assert Quotient(w, v, h, 0);
    var p := sum / a[n + 1, l];
    SubtractColumn(n, l, j, a, p, v);
    u := View(a, n + 2, n + 2);
    LeftOneMore(t, x, u, l, n, v, w, h, j, p);
  }

  lemma LeftOneMore(t: Matrix, x: Matrix, u: Matrix, l: nat, n: nat, v: seq<real>, w: seq<real>, h: real, j: nat, p: real)
    requires l < j <= n && |v| == |w| == n + 1 && QuotientVector(w, v, h) && LeftUpTo(t, x, l, n, v, w, j)
    requires h != 0.0 && p == Over(Dot(RowOf(v), t, 0, j, n + 1), h)
    requires forall i {:trigger At(u, i, j)} | l < i <= n :: At(u, i, j) == Less(At(x, i, j), v[i], p)
    requires forall i, q | 0 <= i <= n + 1 && 0 <= q <= n + 1 && !(q == j && l < i <= n) :: At(u, i, q) == At(x, i, q)
    ensures LeftUpTo(t, u, l, n, v, w, j + 1)
  {
    var sum := Dot(RowOf(v), t, 0, j, n + 1);
    assert LeftColumnDone(t, u, l, n, v, w, j) by {
      forall i | l < i <= n
        ensures At(u, i, j) == Less(At(t, i, j), w[i], sum)
      {
        QuotientLess(w, v, h, i, At(t, i, j), sum, p);
      }
    }
    forall q | l < q < j
      ensures LeftColumnDone(t, u, l, n, v, w, q)
    {
      assert LeftColumnDone(t, x, l, n, v, w, q);
    }
  }

  lemma QuotientTimes(w: seq<real>, v: seq<real>, h: real, i: nat, sum: real, p: real)
    requires |w| == |v| && i < |v| && QuotientVector(w, v, h) && h != 0.0 && p == Over(sum, h)
    ensures v[i] * p == w[i] * sum
  {
    assert Quotient(w, v, h, i);
    Quotients(v[i], sum, h);
  }

  ghost predicate RightUpTo(u: Matrix, z: Matrix, l: nat, n: nat, v: seq<real>, w: seq<real>, i: nat)
    requires |w| == n + 1
  {
    && (forall p, q | 0 <= p <= n + 1 && 0 <= q <= n + 1 && !(p < i && l < q <= n) :: At(z, p, q) == At(u, p, q))
    && (forall p | 0 <= p < i && p <= n :: RightRowDone(u, z, l, n, v, w, p))
  }

  ghost predicate RightRowDone(u: Matrix, z: Matrix, l: nat, n: nat, v: seq<real>, w: seq<real>, p: nat)
    requires |w| == n + 1
  {
    forall q {:trigger At(z, p, q)} | l < q <= n :: At(z, p, q) == Less(At(u, p, q), w[q], Dot(u, ColumnOf(v), p, 0, n + 1))
  }

  method RightRow(n: nat, l: nat, i: nat, a: array2<real>, ghost u: Matrix, ghost x: Matrix, ghost v: seq<real>, ghost w: seq<real>)
    returns (ghost z: Matrix)
    requires Holds(a, x, n + 2, n + 2) && HoldsVector(a, l, n, v) && i <= n && QuotientVector(w, v, a[n + 1, l])
    requires RightUpTo(u, x, l, n, v, w, i)
    modifies a
    ensures Holds(a, z, n + 2, n + 2) && HoldsVector(a, l, n, v) && a[n + 1, l] == old(a[n + 1, l])
    ensures RightUpTo(u, z, l, n, v, w, i + 1)
  {
    var sum := SumRow(n, l, i, a, u, v);
    ghost var h := a[n + 1, l];
    assert Quotient(w, v, h, 0);
    var p := sum / a[n + 1, l];
    SubtractRow(n, l, i, a, p, v);
    z := View(a, n + 2, n + 2);
    RightOneMore(u, x, z, l, n, v, w, h, i, p);
  }

  lemma RightOneMore(u: Matrix, x: Matrix, z: Matrix, l: nat, n: nat, v: seq<real>, w: seq<real>, h: real, i: nat, p: real)
    requires i <= n && |v| == |w| == n + 1 && QuotientVector(w, v, h) && RightUpTo(u, x, l, n, v, w, i)
    requires h != 0.0 && p == Over(Dot(u, ColumnOf(v), i, 0, n + 1), h)
    requires forall j {:trigger At(z, i, j)} | l < j <= n :: At(z, i, j) == Less(At(x, i, j), v[j], p)
    requires forall q, j | 0 <= q <= n + 1 && 0 <= j <= n + 1 && !(q == i && l < j <= n) :: At(z, q, j) == At(x, q, j)
    ensures RightUpTo(u, z, l, n, v, w, i + 1)
  {
    var sum := Dot(u, ColumnOf(v), i, 0, n + 1);
    assert RightRowDone(u, z, l, n, v, w, i) by {
      forall j | l < j <= n
        ensures At(z, i, j) == Less(At(u, i, j), w[j], sum)
      {
        QuotientLess(w, v, h, j, At(u, i, j), sum, p);
      }
    }
    forall q | 0 <= q < i
      ensures RightRowDone(u, z, l, n, v, w, q)
    {
      assert RightRowDone(u, x, l, n, v, w, q);
    }
  }

  method ApplyLeft(n: nat, l: nat, a: array2<real>, ghost t: Matrix, ghost v: seq<real>, ghost w: seq<real>) returns (ghost u: Matrix)
    requires Holds(a, t, n + 2, n + 2) && HoldsVector(a, l, n, v) && QuotientVector(w, v, a[n + 1, l])
    modifies a
    ensures Holds(a, u, n + 2, n + 2) && HoldsVector(a, l, n, v) && a[n + 1, l] == old(a[n + 1, l])
    ensures LeftUpTo(t, u, l, n, v, w, n + 1)
  {
    u := t;
    var j := l + 1;
    while j <= n
      invariant l < j <= n + 1 && Holds(a, u, n + 2, n + 2) && HoldsVector(a, l, n, v) && a[n + 1, l] == old(a[n + 1, l])
      invariant LeftUpTo(t, u, l, n, v, w, j)
    {
      u := LeftColumn(n, l, j, a, t, u, v, w);
      j := j + 1;
    }
  }

  method ApplyRight(n: nat, l: nat, a: array2<real>, ghost u: Matrix, ghost v: seq<real>, ghost w: seq<real>) returns (ghost z: Matrix)
    requires Holds(a, u, n + 2, n + 2) && HoldsVector(a, l, n, v) && QuotientVector(w, v, a[n + 1, l])
    modifies a
    ensures Holds(a, z, n + 2, n + 2) && RightUpTo(u, z, l, n, v, w, n + 1)
  {
    z := u;
    var i := 0;
    while i <= n
      invariant 0 <= i <= n + 1 && Holds(a, z, n + 2, n + 2) && HoldsVector(a, l, n, v) && a[n + 1, l] == old(a[n + 1, l])
      invariant RightUpTo(u, z, l, n, v, w, i)
    {
      z := RightRow(n, l, i, a, u, z, v, w);
      i := i + 1;
    }
  }

  // ---------- the reduction ----------

  lemma ScaledQuotient(t: Matrix, l: nat, n: nat)
    requires At(t, n + 1, l) != 0.0
    ensures QuotientVector(Scaled(t, l, n), Vector(t, l, n), At(t, n + 1, l))
  {
  }

  lemma UpToDone(t: Matrix, u: Matrix, z: Matrix, l: nat, n: nat, v: seq<real>, w: seq<real>)
    requires |w| == n + 1 && LeftUpTo(t, u, l, n, v, w, n + 1) && RightUpTo(u, z, l, n, v, w, n + 1)
    ensures LeftDone(t, u, l, n, v, w) && RightDone(u, z, l, n, v, w)
  {
    forall i, j | l < i <= n && l < j <= n
      ensures At(u, i, j) == Less(At(t, i, j), w[i], Dot(RowOf(v), t, 0, j, n + 1))
    {
      assert LeftColumnDone(t, u, l, n, v, w, j);
    }
    forall i, j | 0 <= i <= n && l < j <= n
      ensures At(z, i, j) == Less(At(u, i, j), w[j], Dot(u, ColumnOf(v), i, 0, n + 1))
    {
      assert RightRowDone(u, z, l, n, v, w, i);
    }
  }

  lemma SkippedDone(t: Matrix, l: nat, n: nat)
    requires At(t, n + 1, l) == 0.0
    ensures LeftDone(t, t, l, n, Vector(t, l, n), Scaled(t, l, n)) && RightDone(t, t, l, n, Vector(t, l, n), Scaled(t, l, n))
  {
  }

  method Conjugate(n: nat, l: nat, a: array2<real>, ghost t: Matrix) returns (ghost u: Matrix, ghost z: Matrix)
    requires l + 1 < n && Holds(a, t, n + 2, n + 2) && At(t, n + 1, l) != 0.0
    modifies a
    ensures Holds(a, z, n + 2, n + 2)
    ensures LeftDone(t, u, l, n, Vector(t, l, n), Scaled(t, l, n)) && RightDone(u, z, l, n, Vector(t, l, n), Scaled(t, l, n))
  {
    ghost var v, w := Vector(t, l, n), Scaled(t, l, n);
    ScaledQuotient(t, l, n);
    u := ApplyLeft(n, l, a, t, v, w);
    z := ApplyRight(n, l, a, u, v, w);
    UpToDone(t, u, z, l, n, v, w);
  }

  /** One step of the loop. */
  method HshldrStep(a: array2<real>, n: nat, l: nat, sqrt: real -> real, ghost a0: Matrix, ghost s: Matrix) returns (ghost z: Matrix)
    requires l + 1 < n && Holds(a, s, n + 2, n + 2) && HessenbergUpTo(s, a0, l, n)
    requires ExactRoot(sqrt)
    modifies a
    ensures Holds(a, z, n + 2, n + 2) && HessenbergUpTo(z, a0, l + 1, n)
  {
    var skip;
    ghost var t, scale;
    skip, t, scale := MakeVector(n, l, a, sqrt, s);
    ghost var u := t;
    z := t;
    if skip {
      SkippedDone(t, l, n);
    } else {
      u, z := Conjugate(n, l, a, t);
    }
    StepKeepsReduced(s, t, u, z, a0, l, n, scale);
  }

  method HshldrLoop(a: array2<real>, n: nat, sqrt: real -> real, ghost a0: Matrix, ghost s: Matrix) returns (ghost z: Matrix)
    requires n >= 2 && Holds(a, s, n + 2, n + 2) && HessenbergUpTo(s, a0, 0, n) && ExactRoot(sqrt)
    modifies a
    ensures Holds(a, z, n + 2, n + 2) && HessenbergUpTo(z, a0, n - 1, n)
  {
    z := s;
    var l := 0;
    while l <= n - 2
      invariant 0 <= l <= n - 1 && Holds(a, z, n + 2, n + 2) && HessenbergUpTo(z, a0, l, n)
    {
      z := HshldrStep(a, n, l, sqrt, a0, z);
      l := l + 1;
    }
  }

  method MoveLast(a: array2<real>, n: nat, ghost s: Matrix) returns (ghost t: Matrix)
    requires n >= 2 && Holds(a, s, n + 2, n + 2)
    modifies a
    ensures Holds(a, t, n + 2, n + 2) && LastMoved(s, t, n)
  {
    a[n - 1, n + 1] := a[n, n - 1];
    t := View(a, n + 2, n + 2);
  }

  /** The stored matrix describes an orthogonal U, the product of the stored reflections, for
      which U' A U is the upper Hessenberg matrix of the stored triangle and column n + 1. */
  method Hshldr(a: array2<real>, n: nat, sqrt: real -> real, ghost a0: Matrix) returns (ghost s: Matrix)
    requires n >= 2 && n + 1 < a.Length0 && n + 1 < a.Length1 && Holds(a, a0, n + 1, n + 1)
    requires ExactRoot(sqrt)
    modifies a
    ensures Holds(a, s, n + 2, n + 2) && Orthogonal(Forward(s, n - 1, n), n + 1)
    ensures Logical(s, n, n) == Congruent(Forward(s, n - 1, n), a0, n + 1)
    ensures UpperHessenberg(Logical(s, n, n), n)
  {
    ghost var x := View(a, n + 2, n + 2);
    ReducedStart(x, a0, n);
    x := HshldrLoop(a, n, sqrt, a0, x);
    s := MoveLast(a, n, x);
    ReducedEnd(x, s, a0, n);
  }

  // ---------- the orthogonal matrix ----------

  lemma ProductEntry(b: Matrix, w: seq<real>, v: seq<real>, p: Matrix, q: Matrix, i: nat, j: nat, n: nat)
    requires i < n && j < n && |v| == |w| == n && p == RankOne(w, v) && b == Mul(p, q, n, n, n)
    ensures At(b, i, j) == Less(At(q, i, j), w[i], Dot(RowOf(v), q, 0, j, n))
  {
    ReflectLeft(w, v, p, q, i, j, n);
    assert At(b, i, j) == Dot(p, q, i, j, n);
  }

  lemma BackwardEntry(s: Matrix, l: nat, n: nat, i: nat, j: nat)
    requires l + 1 < n && i <= n && j <= n
    ensures At(Backward(s, l, n), i, j) ==
            Less(At(Backward(s, l + 1, n), i, j), Scaled(s, l, n)[i], Dot(RowOf(Vector(s, l, n)), Backward(s, l + 1, n), 0, j, n + 1))
  {
    ProductEntry(Backward(s, l, n), Scaled(s, l, n), Vector(s, l, n), Reflector(s, l, n), Backward(s, l + 1, n), i, j, n + 1);
  }

  lemma SkippedEntry(s: Matrix, l: nat, n: nat, i: nat, j: nat)
    requires l + 1 < n && i <= n && j <= n && (At(s, n + 1, l) == 0.0 || i <= l)
    ensures At(Backward(s, l, n), i, j) == At(Backward(s, l + 1, n), i, j)
  {
    BackwardEntry(s, l, n, i, j);
    ScaledHead(s, l, n);
  }

  /** A reflection vector that starts behind row l leaves column j < l + 1 of the identity alone. */
  lemma VectorMissesUnit(v: seq<real>, q: Matrix, j: nat, n: nat)
    requires |v| == n && j < n && v[j] == 0.0 && forall x | 0 <= x < n && x != j :: At(q, x, j) == 0.0
    ensures Dot(RowOf(v), q, 0, j, n) == 0.0
  {
    DotZero(RowOf(v), q, 0, j, 0, n);
  }

  lemma MissedEntry(s: Matrix, l: nat, n: nat, i: nat, j: nat)
    requires l + 1 < n && i <= n && j <= l
    requires forall x | 0 <= x <= n :: At(Backward(s, l + 1, n), x, j) == Delta(x, j)
    ensures At(Backward(s, l, n), i, j) == Delta(i, j)
  {
    BackwardEntry(s, l, n, i, j);
    VectorMissesUnit(Vector(s, l, n), Backward(s, l + 1, n), j, n + 1);
  }

  /** The product of the reflections from l on is the identity in rows and columns up to l. */
  lemma {:induction false} BackwardIdentity(s: Matrix, l: nat, n: nat, i: nat, j: nat)
    requires i <= n && j <= n && (i < l || j < l || (l + 1 < n && (i == l || j == l)))
    ensures At(Backward(s, l, n), i, j) == Delta(i, j)
    decreases n - l
  {
    if l + 1 < n {
      if i <= l {
        SkippedEntry(s, l, n, i, j);
        BackwardIdentity(s, l + 1, n, i, j);
      } else {
        forall x | 0 <= x <= n
          ensures At(Backward(s, l + 1, n), x, j) == Delta(x, j)
        {
          BackwardIdentity(s, l + 1, n, x, j);
        }
        MissedEntry(s, l, n, i, j);
      }
    }
  }

  /** The reflection vectors of steps 0 .. l - 1 are still in place. */
  ghost predicate KeepsVectors(a: array2<real>, s: Matrix, l: nat, n: nat)
    reads a
  {
    n + 1 < a.Length0 && n < a.Length1 && l <= n &&
    forall i, j | 0 <= j < l && j < i <= n + 1 :: a[i, j] == At(s, i, j)
  }

  /** The part of u behind row and column l holds the product of the later reflections. */
  ghost predicate HoldsTail(u: array2<real>, q: Matrix, l: nat, n: nat)
    reads u
  {
    n < u.Length0 && n < u.Length1 && forall i, j | l < i <= n && l < j <= n :: u[i, j] == At(q, i, j)
  }

  method SumProduct(n: nat, l: nat, j: nat, a: array2<real>, u: array2<real>, ghost v: seq<real>, ghost q: Matrix) returns (sum: real)
    requires |v| == n + 1 && l < j <= n < a.Length0 && n < a.Length1 && n < u.Length0 && n < u.Length1
    requires forall i | 0 <= i <= l :: v[i] == 0.0
    requires forall i | l < i <= n :: a[i, l] == v[i]
    requires forall i | l < i <= n :: u[i, j] == At(q, i, j)
    ensures sum == Dot(RowOf(v), q, 0, j, n + 1)
  {
    sum := 0.0;
    var i := l + 1;
    DotZero(RowOf(v), q, 0, j, 0, l + 1);
    while i <= n
      invariant l < i <= n + 1 && sum == Dot(RowOf(v), q, 0, j, i)
    {
      assert At(RowOf(v), 0, i) == a[i, l] && At(q, i, j) == u[i, j];
      sum := sum + a[i, l] * u[i, j];
      i := i + 1;
    }
  }

  method SubtractProduct(n: nat, l: nat, j: nat, a: array2<real>, u: array2<real>, p: real, ghost v: seq<real>)
    requires |v| == n + 1 && l < j <= n < a.Length0 && n < a.Length1 && n < u.Length0 && n < u.Length1
    requires forall i | l < i <= n :: a[i, l] == v[i]
    modifies u
    ensures forall i | l < i <= n :: u[i, j] == Less(old(u[i, j]), v[i], p)
    ensures forall x, y | 0 <= x < u.Length0 && 0 <= y < u.Length1 && !(y == j && l < x <= n) :: u[x, y] == old(u[x, y])
  {
    var i := l + 1;
    while i <= n
      invariant l < i <= n + 1
      invariant forall x | l < x < i :: u[x, j] == Less(old(u[x, j]), v[x], p)
      invariant forall x, y | 0 <= x < u.Length0 && 0 <= y < u.Length1 && !(y == j && l < x < i) :: u[x, y] == old(u[x, y])
    {
      u[i, j] := u[i, j] - a[i, l] * p;
      i := i + 1;
    }
  }

  /** Column j of the product of the reflections from l on, behind row l. */
  ghost predicate TailColumn(u: array2<real>, r: Matrix, l: nat, n: nat, j: nat)
    requires n < u.Length0 && n < u.Length1 && j <= n
    reads u
  {
    forall i {:trigger u[i, j]} | l < i <= n :: u[i, j] == At(r, i, j)
  }

  lemma QuotientLess(w: seq<real>, v: seq<real>, h: real, i: nat, x: real, sum: real, p: real)
    requires |w| == |v| && i < |v| && QuotientVector(w, v, h) && h != 0.0 && p == Over(sum, h)
    ensures Less(x, v[i], p) == Less(x, w[i], sum)
  {
    QuotientTimes(w, v, h, i, sum, p);
  }

  lemma TailColumnReflected(s: Matrix, l: nat, n: nat, i: nat, j: nat, h: real, sum: real, p: real)
    requires l + 1 < n && i <= n && j <= n && h == At(s, n + 1, l) && h != 0.0 && p == Over(sum, h)
    requires sum == Dot(RowOf(Vector(s, l, n)), Backward(s, l + 1, n), 0, j, n + 1)
    ensures At(Backward(s, l, n), i, j) == Less(At(Backward(s, l + 1, n), i, j), Vector(s, l, n)[i], p)
  {
    BackwardEntry(s, l, n, i, j);
    ScaledQuotient(s, l, n);
    QuotientLess(Scaled(s, l, n), Vector(s, l, n), h, i, At(Backward(s, l + 1, n), i, j), sum, p);
  }

  method ReflectTailColumn(n: nat, l: nat, j: nat, a: array2<real>, u: array2<real>, ghost s: Matrix)
    requires l + 1 < n && l < j <= n && KeepsVectors(a, s, l + 1, n) && At(s, n + 1, l) != 0.0
    requires n < u.Length0 && n < u.Length1 && TailColumn(u, Backward(s, l + 1, n), l, n, j)
    modifies u
    ensures TailColumn(u, Backward(s, l, n), l, n, j)
    ensures forall x, y | 0 <= x < u.Length0 && 0 <= y < u.Length1 && !(y == j && l < x <= n) :: u[x, y] == old(u[x, y])
  {
    ghost var q, v := Backward(s, l + 1, n), Vector(s, l, n);
    var sum := SumProduct(n, l, j, a, u, v, q);
    var p := sum / a[n + 1, l];
    SubtractProduct(n, l, j, a, u, p, v);
    forall i | l < i <= n
      ensures u[i, j] == At(Backward(s, l, n), i, j)
    {
      TailColumnReflected(s, l, n, i, j, At(s, n + 1, l), sum, p);
    }
  }

  method ReflectTail(n: nat, l: nat, a: array2<real>, u: array2<real>, ghost s: Matrix)
    requires l + 1 < n && KeepsVectors(a, s, l + 1, n) && HoldsTail(u, Backward(s, l + 1, n), l, n)
    modifies u
    ensures HoldsTail(u, Backward(s, l, n), l, n)
    ensures forall x, y | 0 <= x < u.Length0 && 0 <= y < u.Length1 && !(l < x <= n && l < y <= n) :: u[x, y] == old(u[x, y])
  {
    ghost var q, r := Backward(s, l + 1, n), Backward(s, l, n);
    if a[n + 1, l] != 0.0 {
      var j := l + 1;
      while j <= n
        invariant l < j <= n + 1 && KeepsVectors(a, s, l + 1, n)
        invariant forall x, y | l < x <= n && l < y < j :: u[x, y] == At(r, x, y)
        invariant forall x, y | l < x <= n && j <= y <= n :: u[x, y] == At(q, x, y)
        invariant forall x, y | 0 <= x < u.Length0 && 0 <= y < u.Length1 && !(l < x <= n && l < y <= n) :: u[x, y] == old(u[x, y])
      {
        ReflectTailColumn(n, l, j, a, u, s);
        j := j + 1;
      }
    } else {
      forall i, y | l < i <= n && l < y <= n
        ensures At(r, i, y) == At(q, i, y)
      {
        SkippedEntry(s, l, n, i, y);
      }
    }
  }

  /** Row and column l of the product are those of the identity. */
  method ClearBorder(n: nat, l: nat, u: array2<real>)
    requires l < n < u.Length0 && n < u.Length1
    modifies u
    ensures u[l, l] == 1.0 && forall i | l < i <= n :: u[i, l] == 0.0 && u[l, i] == 0.0
    ensures forall x, y | 0 <= x < u.Length0 && 0 <= y < u.Length1 && !(l <= x && y == l) && !(x == l && l <= y) :: u[x, y] == old(u[x, y])
  {
    var i := l + 1;
    while i <= n
      invariant l < i <= n + 1
      invariant forall x | l < x < i :: u[x, l] == 0.0 && u[l, x] == 0.0
      invariant forall x, y | 0 <= x < u.Length0 && 0 <= y < u.Length1 && !(l <= x && y == l) && !(x == l && l <= y) :: u[x, y] == old(u[x, y])
    {
      u[l, i] := 0.0;
      u[i, l] := 0.0;
      i := i + 1;
    }
    u[l, l] := 1.0;
  }

  /** One turn: reflection l is multiplied onto the block below, and the block gets its border. */
  method MultiplyStep(n: nat, l: nat, a: array2<real>, u: array2<real>, ghost s: Matrix)
    requires l + 1 < n && KeepsVectors(a, s, l + 1, n) && TailFrom(u, Backward(s, l + 1, n), l + 1, n)
    modifies u
    ensures KeepsVectors(a, s, l, n) && TailFrom(u, Backward(s, l, n), l, n)
  {
    ReflectTail(n, l, a, u, s);
    ClearBorder(n, l, u);
    forall i, j | l <= i <= n && l <= j <= n
      ensures u[i, j] == At(Backward(s, l, n), i, j)
    {
      if i == l || j == l {
        BackwardIdentity(s, l, n, i, j);
      }
    }
  }

  /** u becomes the product of the reflections stored in a; a and u may be one array. */
  method Bckmlt(a: array2<real>, u: array2<real>, n: nat, ghost s: Matrix)
    requires n >= 2 && KeepsVectors(a, s, n - 1, n) && n < u.Length0 && n < u.Length1
    modifies u
    ensures Holds(u, Backward(s, 0, n), n + 1, n + 1)
  {
    u[n, n], u[n - 1, n - 1] := 1.0, 1.0;
    u[n - 1, n], u[n, n - 1] := 0.0, 0.0;
    var l := n - 2;
    while l >= 0
      invariant -1 <= l <= n - 2
      invariant KeepsVectors(a, s, l + 1, n) && TailFrom(u, Backward(s, l + 1, n), l + 1, n)
      decreases l
    {
      MultiplyStep(n, l, a, u, s);
      l := l - 1;
    }
  }

  ghost predicate TailFrom(u: array2<real>, q: Matrix, l: nat, n: nat)
    reads u
  {
    n < u.Length0 && n < u.Length1 && forall i, j | l <= i <= n && l <= j <= n :: u[i, j] == At(q, i, j)
  }

  method CopySubdiagonal(m: nat, a: array2<real>, ghost s: Matrix)
    requires Holds(a, s, m + 2, m + 2)
    modifies a
    ensures forall i, j | 0 <= i <= m && 0 <= j <= m && i <= j + 1 :: a[i, j] == At(Logical(s, m, m), i, j)
  {
    var i := 0;
    while i < m
      invariant 0 <= i <= m
      invariant forall p, q | 0 <= p <= m + 1 && 0 <= q <= m + 1 && !(p == q + 1 && q < i) :: a[p, q] == At(s, p, q)
      invariant forall p, q | 0 <= q < i && p == q + 1 :: a[p, q] == At(s, q, m + 1)
    {
      a[i + 1, i] := a[i, m + 1];
      i := i + 1;
    }
  }

  /** The reduction as its callers use it: u is orthogonal, H = U'AU is upper Hessenberg, and the
      array holds H on and above its subdiagonal. */
  method HessenbergForm(m: nat, a: array2<real>, u: array2<real>, sqrt: real -> real, ghost a0: Matrix)
    returns (ghost u0: Matrix, ghost h: Matrix)
    requires m >= 2 && a != u && m + 1 < a.Length0 && m + 1 < a.Length1 && m < u.Length0 && m < u.Length1
    requires Holds(a, a0, m + 1, m + 1)
    requires ExactRoot(sqrt)
    modifies a, u
    ensures Holds(u, u0, m + 1, m + 1) && Orthogonal(u0, m + 1)
    ensures h == Congruent(u0, a0, m + 1) && UpperHessenberg(h, m)
    ensures forall i, j | 0 <= i <= m && 0 <= j <= m && i <= j + 1 :: a[i, j] == At(h, i, j)
  {
    ghost var s := Hshldr(a, m, sqrt, a0);
    Bckmlt(a, u, m, s);
    ForwardIsBackward(s, m);
    u0, h := Backward(s, 0, m), Logical(s, m, m);
    CopySubdiagonal(m, a, s);
  }
}
