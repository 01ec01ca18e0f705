/** Sine and cosine by their laws: they are exact in the sense the transform needs, and its sums are
    the sums of cosines. */
module Angles {
  import opened Powers
  import opened Complexes
  import opened FourierValues
  import opened CosineSums
  import opened FastCosineTransform

  /** The point at angle a. */
  ghost function PointAt(sin: real -> real, cos: real -> real, a: real): Complex { Complex(cos(a), sin(a)) }

  /** The addition theorem. */
  ghost predicate Adds(sin: real -> real, cos: real -> real, a: real, b: real) {
    PointAt(sin, cos, a + b) == Product(PointAt(sin, cos, a), PointAt(sin, cos, b))
  }

  ghost predicate OnCircle(sin: real -> real, cos: real -> real, a: real) {
    UnitModulus(PointAt(sin, cos, a))
  }

  ghost predicate Trigonometry(sin: real -> real, cos: real -> real, pi: real) {
    && (forall a: real, b: real :: Adds(sin, cos, a, b))
    && (forall a: real :: OnCircle(sin, cos, a))
    && PointAt(sin, cos, 0.0) == ONE && PointAt(sin, cos, pi) == Complex(-1.0, 0.0)
  }

  /** 1 - 2 sin^2 of half an angle is its cosine. */
  lemma HalfAngle(sin: real -> real, cos: real -> real, pi: real, a: real)
    requires Trigonometry(sin, cos, pi)
    ensures Complex(1.0 - 2.0 * sin(0.5 * a) * sin(0.5 * a), sin(a)) == PointAt(sin, cos, a)
  {
    var h := 0.5 * a;
    assert Adds(sin, cos, h, h) && OnCircle(sin, cos, h);
    assert h + h == a;
    DoubleCosine(cos(h), sin(h));
  }

  lemma DoubleCosine(c: real, s: real)
    requires c * c + s * s == 1.0
    ensures c * c - s * s == 1.0 - 2.0 * s * s
  {
  }

  lemma RootAngle(sin: real -> real, cos: real -> real, pi: real, s: nat)
    requires Trigonometry(sin, cos, pi)
    ensures Root(sin, pi, s) == PointAt(sin, cos, 2.0 * pi / Power2(s) as real)
  {
    HalfAngle(sin, cos, pi, 2.0 * pi / Power2(s) as real);
  }

  lemma HalfOfAngle(pi: real, s: nat)
    ensures var a := 2.0 * pi / Power2(s + 1) as real; a + a == 2.0 * pi / Power2(s) as real
  {
    var p := Power2(s) as real;
    assert Power2(s + 1) as real == 2.0 * p;
    assert 2.0 * pi / (2.0 * p) == pi / p;
  }

  /** The laws of sine and cosine give what the transform needs. */
  lemma LawsAreEnough(sin: real -> real, cos: real -> real, pi: real)
    requires Trigonometry(sin, cos, pi)
    ensures ExactSine(sin, pi)
  {
    RootAngle(sin, cos, pi, 1);
    assert 2.0 * pi / 2.0 == pi;
    forall s: nat
      ensures Halves(sin, pi, s)
    {
      RootAngle(sin, cos, pi, s);
      RootAngle(sin, cos, pi, s + 1);
      HalfOfAngle(pi, s);
      var a := 2.0 * pi / Power2(s + 1) as real;
      assert Adds(sin, cos, a, a);
    }
  }

  lemma OneMoreAngle(a: real, k: nat)
    requires k > 0
    ensures (k - 1) as real * a + a == k as real * a
  {
  }

  /** de Moivre's law, for the multiple c of the angle a. */
  lemma {:induction false} PowerAngle(sin: real -> real, cos: real -> real, pi: real, a: real, k: nat, c: real)
    requires Trigonometry(sin, cos, pi) && c == k as real * a
    ensures Pow(PointAt(sin, cos, a), k) == PointAt(sin, cos, c)
  {
    if k == 0 {
      assert c == 0.0;
    } else {
      var d := (k - 1) as real * a;
      PowerAngle(sin, cos, pi, a, k - 1, d);
      OneMoreAngle(a, k);
      assert a + d == c;
      assert Adds(sin, cos, a, d);
    }
  }

  /** sum over j < t of f[j] cos(j a) */
  ghost function CosineSeries(f: seq<real>, cos: real -> real, a: real, t: nat): real {
    if t == 0 then 0.0 else CosineSeries(f, cos, a, t - 1) + Item(f, t - 1) * cos((t - 1) as real * a)
  }

  lemma {:induction false} SumIsSeries(f: seq<real>, sin: real -> real, cos: real -> real, pi: real, a: real, x: Complex, t: nat)
    requires Trigonometry(sin, cos, pi) && x == PointAt(sin, cos, a)
    ensures CosineSum(f, x, t) == CosineSeries(f, cos, a, t)
  {
    if t > 0 {
      SumIsSeries(f, sin, cos, pi, a, x, t - 1);
      var c := (t - 1) as real * a;
      PowerAngle(sin, cos, pi, a, t - 1, c);
      CosineNext(f, x, t - 1, cos(c));
    }
  }

  lemma PointAngle(sin: real -> real, cos: real -> real, pi: real, b: nat, n: nat, k: nat, a: real)
    requires Trigonometry(sin, cos, pi) && n == 2 * Power2(b) && a == k as real * (pi / n as real)
    ensures Pow(Root(sin, pi, b + 2), k) == PointAt(sin, cos, a)
  {
    AngleIs(pi, n, b + 2);
    RootAngle(sin, cos, pi, b + 2);
    PowerAngle(sin, cos, pi, pi / n as real, k, a);
  }

  ghost predicate IsSumAt(v: real, f: seq<real>, x: Complex, t: nat) { v == CosineSum(f, x, t) }

  lemma SeriesIsSum(f: seq<real>, sin: real -> real, cos: real -> real, pi: real, a: real, x: Complex, t: nat)
    requires Trigonometry(sin, cos, pi) && x == PointAt(sin, cos, a)
    ensures IsSumAt(CosineSeries(f, cos, a, t), f, x, t)
  {
    SumIsSeries(f, sin, cos, pi, a, x, t);
  }

  lemma EntryAtPoint(f: seq<real>, zeta: Complex, n: nat, k: nat, x: Complex, v: real)
    requires k <= n && x == Pow(zeta, k) && IsSumAt(v, f, x, n + 1)
    ensures Cosines(f, zeta, n)[k] == v
  {
  }

  /** Entry k of the transform is the sum over j <= n of f[j] cos(j a) for a = k (pi / n). */
  lemma EntryIsSeries(f: seq<real>, sin: real -> real, cos: real -> real, pi: real, b: nat, n: nat, k: nat, a: real)
    requires Trigonometry(sin, cos, pi) && n == 2 * Power2(b) && k <= n && a == k as real * (pi / n as real)
    ensures Cosines(f, Root(sin, pi, b + 2), n)[k] == CosineSeries(f, cos, a, n + 1)
  {
    PointAngle(sin, cos, pi, b, n, k, a);
    SeriesIsSum(f, sin, cos, pi, a, PointAt(sin, cos, a), n + 1);
    EntryAtPoint(f, Root(sin, pi, b + 2), n, k, PointAt(sin, cos, a), CosineSeries(f, cos, a, n + 1));
  }
}
