/** What the array means while it is reduced to Hessenberg form: below the subdiagonal column j
    keeps the reflection vector of step j, row n + 1 its divisor and column n + 1 the subdiagonal. */
module HouseholderSpec {
  import opened Matrices
  import opened Reflections

  /** The reflection vector of step l, read from column l of the stored matrix. */
  ghost function Vector(s: Matrix, l: nat, n: nat): (v: seq<real>)
    ensures |v| == n + 1 && forall i | 0 <= i <= n :: v[i] == if i > l then At(s, i, l) else 0.0
  {
    seq(n + 1, i requires 0 <= i <= n => if i > l then At(s, i, l) else 0.0)
  }

  /** The same vector divided by the divisor of step l; a zero divisor marks a skipped step. */
  ghost function Scaled(s: Matrix, l: nat, n: nat): (w: seq<real>)
    ensures |w| == n + 1
    ensures forall i | 0 <= i <= n :: w[i] == if At(s, n + 1, l) == 0.0 then 0.0 else Over(Vector(s, l, n)[i], At(s, n + 1, l))
  {
    seq(n + 1, i requires 0 <= i <= n => if At(s, n + 1, l) == 0.0 then 0.0 else Over(Vector(s, l, n)[i], At(s, n + 1, l)))
  }

  ghost function Reflector(s: Matrix, l: nat, n: nat): (p: Matrix)
    ensures Shape(p, n + 1, n + 1)
  {
    RankOne(Scaled(s, l, n), Vector(s, l, n))
  }

  /** P(0) P(1) ... P(l - 1) */
  ghost function Forward(s: Matrix, l: nat, n: nat): (u: Matrix)
    ensures Shape(u, n + 1, n + 1)
  {
    if l == 0 then Identity(n + 1) else Mul(Forward(s, l - 1, n), Reflector(s, l - 1, n), n + 1, n + 1, n + 1)
  }

  /** P(l) ... P(n - 2) */
  ghost function Backward(s: Matrix, l: nat, n: nat): (u: Matrix)
    ensures Shape(u, n + 1, n + 1)
    decreases n - l
  {
    if l + 1 >= n then Identity(n + 1) else Mul(Reflector(s, l, n), Backward(s, l + 1, n), n + 1, n + 1, n + 1)
  }

  /** The matrix that the array stands for after l steps. */
  ghost function Logical(s: Matrix, l: nat, n: nat): (c: Matrix)
    ensures Shape(c, n + 1, n + 1)
    ensures forall i, j | 0 <= i <= n && 0 <= j <= n ::
              At(c, i, j) == if j >= l || i <= j then At(s, i, j) else if i == j + 1 then At(s, j, n + 1) else 0.0
  {
    seq(n + 1, i requires 0 <= i <= n => seq(n + 1, j requires 0 <= j <= n =>
      if j >= l || i <= j then At(s, i, j) else if i == j + 1 then At(s, j, n + 1) else 0.0))
  }

  ghost predicate UpperHessenberg(h: Matrix, n: nat) {
    forall i, j | 0 <= j && j + 1 < i <= n :: At(h, i, j) == 0.0
  }

  /** U' A U */
  ghost function Congruent(u: Matrix, a: Matrix, n: nat): (c: Matrix)
    ensures Shape(c, n, n)
  {
    Mul(Mul(Transpose(u, n, n), a, n, n, n), u, n, n, n)
  }

  /** Steps 0 .. l - 1 are reflections. */
  ghost predicate StepsReflect(s: Matrix, l: nat, n: nat) {
    forall j | 0 <= j < l :: Reflects(Scaled(s, j, n), Vector(s, j, n))
  }

  lemma {:induction false} ForwardOrthogonal(s: Matrix, l: nat, n: nat)
    requires StepsReflect(s, l, n)
    ensures Orthogonal(Forward(s, l, n), n + 1)
  {
    if l == 0 {
      IdentityOrthogonal(n + 1);
    } else {
      ForwardOrthogonal(s, l - 1, n);
      ReflectionOrthogonal(Scaled(s, l - 1, n), Vector(s, l - 1, n), Reflector(s, l - 1, n), n + 1);
      OrthogonalProduct(Forward(s, l - 1, n), Reflector(s, l - 1, n), n + 1);
    }
  }

  /** The later reflections multiplied onto the earlier ones give all of them. */
  lemma {:induction false} ForwardBackward(s: Matrix, l: nat, n: nat)
    requires l < n
    ensures Mul(Forward(s, l, n), Backward(s, l, n), n + 1, n + 1, n + 1) == Forward(s, n - 1, n)
    decreases n - l
  {
    if l + 1 >= n {
      MulIdentityRight(Forward(s, l, n), n + 1, n + 1);
    } else {
      ForwardBackward(s, l + 1, n);
      MulAssociative(Forward(s, l, n), Reflector(s, l, n), Backward(s, l + 1, n), n + 1, n + 1, n + 1, n + 1);
    }
  }

  lemma ForwardIsBackward(s: Matrix, n: nat)
    requires n >= 1
    ensures Forward(s, n - 1, n) == Backward(s, 0, n)
  {
    ForwardBackward(s, 0, n);
    MulIdentityLeft(Backward(s, 0, n), n + 1, n + 1);
  }

  /** The columns that a step leaves alone keep their reflections. */
  ghost predicate SameSteps(s: Matrix, t: Matrix, l: nat, n: nat) {
    forall i, j | 0 <= j < l && j < i <= n + 1 :: At(s, i, j) == At(t, i, j)
  }

  lemma SameReflector(s: Matrix, t: Matrix, l: nat, n: nat, j: nat)
    requires SameSteps(s, t, l, n) && j < l < n
    ensures Vector(s, j, n) == Vector(t, j, n) && Scaled(s, j, n) == Scaled(t, j, n)
  {
    assert At(s, n + 1, j) == At(t, n + 1, j);
  }

  lemma {:induction false} SameForward(s: Matrix, t: Matrix, l: nat, n: nat, k: nat)
    requires SameSteps(s, t, l, n) && k <= l < n
    ensures Forward(s, k, n) == Forward(t, k, n)
  {
    if k > 0 {
      SameForward(s, t, l, n, k - 1);
      SameReflector(s, t, l, n, k - 1);
    }
  }

  /** Multiplying U by one more reflection P turns U' A U into P (U' A U) P. */
  lemma CongruentStep(u: Matrix, a: Matrix, p: Matrix, n: nat)
    requires Shape(p, n, n) && Transpose(p, n, n) == p
    ensures Congruent(Mul(u, p, n, n, n), a, n) == Mul(Mul(p, Congruent(u, a, n), n, n, n), p, n, n, n)
  {
    var ut := Transpose(u, n, n);
    TransposeProduct(u, p, n, n, n);
    calc {
      Congruent(Mul(u, p, n, n, n), a, n);
      Mul(Mul(Mul(p, ut, n, n, n), a, n, n, n), Mul(u, p, n, n, n), n, n, n);
      { MulAssociative(p, ut, a, n, n, n, n); }
      Mul(Mul(p, Mul(ut, a, n, n, n), n, n, n), Mul(u, p, n, n, n), n, n, n);
      { MulAssociative(Mul(p, Mul(ut, a, n, n, n), n, n, n), u, p, n, n, n, n); }
      Mul(Mul(Mul(p, Mul(ut, a, n, n, n), n, n, n), u, n, n, n), p, n, n, n);
      { MulAssociative(p, Mul(ut, a, n, n, n), u, n, n, n, n); }
      Mul(Mul(p, Congruent(u, a, n), n, n, n), p, n, n, n);
    }
  }

  /** What the code maintains: the logical matrix is U' A U for the product U of the reflections. */
  ghost predicate HessenbergUpTo(s: Matrix, a: Matrix, l: nat, n: nat) {
    StepsReflect(s, l, n) && Logical(s, l, n) == Congruent(Forward(s, l, n), a, n + 1)
  }

  lemma ReducedStart(s: Matrix, a: Matrix, n: nat)
    requires Shape(a, n + 1, n + 1)
    requires forall i, j | 0 <= i <= n && 0 <= j <= n :: At(s, i, j) == At(a, i, j)
    ensures HessenbergUpTo(s, a, 0, n)
  {
    SameEntries(Logical(s, 0, n), a, n + 1, n + 1);
    IdentityOrthogonal(n + 1);
    SameEntries(Transpose(Identity(n + 1), n + 1, n + 1), Identity(n + 1), n + 1, n + 1);
    MulIdentityLeft(a, n + 1, n + 1);
    MulIdentityRight(a, n + 1, n + 1);
  }

  lemma StepsReflectMore(s: Matrix, t: Matrix, l: nat, n: nat)
    requires l < n && StepsReflect(s, l, n) && SameSteps(s, t, l, n)
    requires Reflects(Scaled(t, l, n), Vector(t, l, n))
    ensures StepsReflect(t, l + 1, n)
  {
    forall j | 0 <= j < l + 1
      ensures Reflects(Scaled(t, j, n), Vector(t, j, n))
    {
      if j < l {
        SameReflector(s, t, l, n, j);
      }
    }
  }

  lemma ReflectorSymmetric(t: Matrix, l: nat, n: nat)
    requires Reflects(Scaled(t, l, n), Vector(t, l, n))
    ensures Transpose(Reflector(t, l, n), n + 1, n + 1) == Reflector(t, l, n)
  {
    RankOneSymmetric(Scaled(t, l, n), Vector(t, l, n));
  }

  lemma CongruentMore(s: Matrix, t: Matrix, a: Matrix, l: nat, n: nat, p: Matrix, u: Matrix)
    requires l < n && SameSteps(s, t, l, n) && p == Reflector(t, l, n) && Transpose(p, n + 1, n + 1) == p
    requires u == Forward(s, l, n)
    ensures Congruent(Forward(t, l + 1, n), a, n + 1) ==
            Mul(Mul(p, Congruent(u, a, n + 1), n + 1, n + 1, n + 1), p, n + 1, n + 1, n + 1)
  {
    SameForward(s, t, l, n, l);
    CongruentStep(u, a, p, n + 1);
  }

  lemma ReducedStep(s: Matrix, t: Matrix, a: Matrix, l: nat, n: nat, p: Matrix)
    requires l < n && HessenbergUpTo(s, a, l, n) && SameSteps(s, t, l, n) && p == Reflector(t, l, n)
    requires Reflects(Scaled(t, l, n), Vector(t, l, n))
    requires Logical(t, l + 1, n) == Mul(Mul(p, Logical(s, l, n), n + 1, n + 1, n + 1), p, n + 1, n + 1, n + 1)
    ensures HessenbergUpTo(t, a, l + 1, n)
  {
    StepsReflectMore(s, t, l, n);
    ReflectorSymmetric(t, l, n);
    CongruentMore(s, t, a, l, n, p, Forward(s, l, n));
  }

  /** The last subdiagonal entry is moved to column n + 1 like the others. */
  ghost predicate LastMoved(s: Matrix, t: Matrix, n: nat)
    requires n >= 1
  {
    && At(t, n - 1, n + 1) == At(s, n, n - 1)
    && forall i, j | 0 <= i <= n + 1 && 0 <= j <= n + 1 && !(i == n - 1 && j == n + 1) :: At(t, i, j) == At(s, i, j)
  }

  lemma LastLogical(s: Matrix, t: Matrix, n: nat)
    requires n >= 2 && LastMoved(s, t, n)
    ensures Logical(t, n, n) == Logical(s, n - 1, n)
  {
    SameEntries(Logical(t, n, n), Logical(s, n - 1, n), n + 1, n + 1);
  }

  lemma LastSteps(s: Matrix, t: Matrix, n: nat)
    requires n >= 2 && LastMoved(s, t, n) && StepsReflect(s, n - 1, n)
    ensures StepsReflect(t, n - 1, n)
  {
    forall j | 0 <= j < n - 1
      ensures Reflects(Scaled(t, j, n), Vector(t, j, n))
    {
      SameReflector(s, t, n - 1, n, j);
    }
  }

  lemma LastForward(s: Matrix, t: Matrix, n: nat)
    requires n >= 2 && LastMoved(s, t, n)
    ensures Forward(t, n - 1, n) == Forward(s, n - 1, n)
  {
    SameForward(s, t, n - 1, n, n - 1);
  }

  /** After the last step the logical matrix is upper Hessenberg. */
  lemma ReducedEnd(s: Matrix, t: Matrix, a: Matrix, n: nat)
    requires n >= 2 && HessenbergUpTo(s, a, n - 1, n) && LastMoved(s, t, n)
    ensures Orthogonal(Forward(t, n - 1, n), n + 1)
    ensures Logical(t, n, n) == Congruent(Forward(t, n - 1, n), a, n + 1)
    ensures UpperHessenberg(Logical(t, n, n), n)
  {
    LastLogical(s, t, n);
    LastForward(s, t, n);
    LastSteps(s, t, n);
    ForwardOrthogonal(t, n - 1, n);
  }
}
