/** Points of the unit circle, and the cosine and sine sums of a sequence of reals at such a point. */
module CosineSums {
  import opened Complexes
  import opened FourierValues

  // ---------- the unit circle ----------

  /** The complex conjugate. */
  ghost function Mirror(a: Complex): Complex { Complex(a.re, -a.im) }

  ghost function Norm(a: Complex): real { a.re * a.re + a.im * a.im }

  ghost predicate UnitModulus(a: Complex) { Norm(a) == 1.0 }

  lemma MirrorProduct(a: Complex, b: Complex)
    ensures Mirror(Product(a, b)) == Product(Mirror(a), Mirror(b))
  {
    Negated(a.re, b.im);
    Negated(a.im, b.re);
    Negated(a.im, -b.im);
    Negated(a.im, b.im);
  }

  lemma NormProduct(a: Complex, b: Complex)
    ensures Norm(Product(a, b)) == Norm(a) * Norm(b)
  {
    FourSquares(a.re, a.im, b.re, b.im);
  }

  lemma FourSquares(p: real, q: real, r: real, s: real)
    ensures (p * r - q * s) * (p * r - q * s) + (p * s + q * r) * (p * s + q * r) == (p * p + q * q) * (r * r + s * s)
  {
  }

  lemma MirrorInverts(a: Complex)
    requires UnitModulus(a)
    ensures Product(a, Mirror(a)) == ONE
  {
    Negated(a.im, a.im);
    Negated(a.re, a.im);
  }

  lemma {:induction false} UnitPow(x: Complex, n: nat)
    requires UnitModulus(x)
    ensures UnitModulus(Pow(x, n))
  {
    if n > 0 {
      UnitPow(x, n - 1);
      NormProduct(x, Pow(x, n - 1));
    }
  }

  lemma {:induction false} MirrorPow(x: Complex, n: nat)
    ensures Pow(Mirror(x), n) == Mirror(Pow(x, n))
  {
    if n > 0 {
      MirrorPow(x, n - 1);
      MirrorProduct(x, Pow(x, n - 1));
    }
  }

  lemma {:induction false} PowOfProduct(x: Complex, y: Complex, n: nat)
    ensures Pow(Product(x, y), n) == Product(Pow(x, n), Pow(y, n))
  {
    if n == 0 {
      ProductOne(ONE);
    } else {
      PowOfProduct(x, y, n - 1);
      Interchange(x, y, Pow(x, n - 1), Pow(y, n - 1));
    }
  }

  lemma Interchange(x: Complex, y: Complex, u: Complex, v: Complex)
    ensures Product(Product(x, y), Product(u, v)) == Product(Product(x, u), Product(y, v))
  {
    ProductAssociative(x, y, Product(u, v));
    ProductAssociative(y, u, v);
    ProductCommutes(y, u);
    ProductAssociative(u, y, v);
    ProductAssociative(x, u, Product(y, v));
  }

  lemma OnePowerMore(x: Complex, k: nat, y: Complex, j: nat, m: nat)
    requires y == Pow(x, k) && Pow(y, j) == Pow(x, m)
    ensures Pow(y, j + 1) == Pow(x, k + m)
  {
    PowNext(y, j);
    PowAdd(x, k, m);
  }

  /** y is the power k of x, and m is k j. */
  lemma {:induction false} PowOfPow(x: Complex, k: nat, y: Complex, j: nat, m: nat)
    requires y == Pow(x, k) && m == k * j
    ensures Pow(y, j) == Pow(x, m)
    decreases j
  {
    if j > 0 {
      var l := k * (j - 1);
      assert m == k + l;
      PowOfPow(x, k, y, j - 1, l);
      OnePowerMore(x, k, y, j - 1, l);
    }
  }

  /** Counting back from a whole turn mirrors a power. */
  lemma BackFromOne(x: Complex, n: nat, j: nat)
    requires UnitModulus(x) && Pow(x, n) == ONE && j <= n
    ensures Pow(x, n - j) == Mirror(Pow(x, j))
  {
    UnitPow(x, j);
    MirrorInverts(Pow(x, j));
    PowAdd(x, n - j, j);
    Cancelled(Pow(x, n - j), Pow(x, j), ONE);
  }

  /** Counting back from half a turn turns the mirror image by half a turn. */
  lemma BackFromMinusOne(x: Complex, n: nat, j: nat)
    requires UnitModulus(x) && Pow(x, n) == Complex(-1.0, 0.0) && j <= n
    ensures Pow(x, n - j) == Opposite(Mirror(Pow(x, j)))
  {
    UnitPow(x, j);
    PowAdd(x, n - j, j);
    Cancelled(Pow(x, n - j), Pow(x, j), Complex(-1.0, 0.0));
    TimesMinusOne(Mirror(Pow(x, j)));
    ProductCommutes(Mirror(Pow(x, j)), Complex(-1.0, 0.0));
  }

  lemma Cancelled(u: Complex, v: Complex, w: Complex)
    requires UnitModulus(v) && Product(u, v) == w
    ensures u == Product(w, Mirror(v))
  {
    MirrorInverts(v);
    ProductAssociative(u, v, Mirror(v));
    ProductOne(u);
  }

  lemma SquareRootOfOne(r: real)
    requires r >= 0.0 && r * r == 1.0
    ensures r == 1.0
  {
    SquaresGrow(r, 1.0);
    SquaresGrow(1.0, r);
  }

  lemma SquaresGrow(r: real, s: real)
    requires r >= 0.0
    ensures r < s ==> r * r < s * s
  {
    if r < s {
      ProductPositive(s - r, s + r);
      assert (s - r) * (s + r) == s * s - r * r;
    }
  }

  lemma ProductPositive(p: real, q: real)
    requires p > 0.0 && q > 0.0
    ensures p * q > 0.0
  {
  }

  lemma {:induction false} RootIsUnit(sin: real -> real, pi: real, s: nat)
    requires ExactSine(sin, pi)
    ensures UnitModulus(Root(sin, pi, s + 1))
  {
    if s > 0 {
      assert Halves(sin, pi, s);
      RootIsUnit(sin, pi, s - 1);
      UnitRoot(Root(sin, pi, s + 1), Root(sin, pi, s));
    } else {
      assert Root(sin, pi, 1) == Complex(-1.0, 0.0);
    }
  }

  lemma UnitRoot(a: Complex, square: Complex)
    requires Product(a, a) == square && UnitModulus(square)
    ensures UnitModulus(a)
  {
    NormProduct(a, a);
    SquareRootOfOne(Norm(a));
  }

  // ---------- sums ----------

  ghost function Item(f: seq<real>, j: int): real {
    if 0 <= j < |f| then f[j] else 0.0
  }

  ghost function CosineTerm(f: seq<real>, x: Complex, j: nat): real { Item(f, j) * Pow(x, j).re }

  ghost function SineTerm(f: seq<real>, x: Complex, j: nat): real { Item(f, j) * Pow(x, j).im }

  /** sum over j < t of f[j] cos(j a), where x is the point at angle a */
  ghost function CosineSum(f: seq<real>, x: Complex, t: nat): real {
    if t == 0 then 0.0 else CosineSum(f, x, t - 1) + CosineTerm(f, x, t - 1)
  }

  /** sum over j < t of f[j] sin(j a) */
  ghost function SineSum(f: seq<real>, x: Complex, t: nat): real {
    if t == 0 then 0.0 else SineSum(f, x, t - 1) + SineTerm(f, x, t - 1)
  }

  /** a(lo) + ... + a(hi - 1) */
  ghost function Sum(a: int -> real, lo: int, hi: int): real
    decreases hi - lo
  {
    if hi <= lo then 0.0 else Sum(a, lo, hi - 1) + a(hi - 1)
  }

  lemma {:induction false} SumFromLeft(a: int -> real, lo: int, hi: int)
    requires lo < hi
    ensures Sum(a, lo, hi) == a(lo) + Sum(a, lo + 1, hi)
    decreases hi - lo
  {
    if lo + 1 < hi {
      SumFromLeft(a, lo, hi - 1);
    }
  }

  /** Terms that are opposite to their counterparts from the other end add up to nothing. */
  lemma {:induction false} SumCancels(a: int -> real, lo: int, hi: int)
    requires forall j | lo <= j < hi :: a(j) == -a(lo + hi - 1 - j)
    ensures Sum(a, lo, hi) == 0.0
    decreases hi - lo
  {
    if lo + 1 < hi {
      SumFromLeft(a, lo, hi);
      SumCancels(a, lo + 1, hi - 1);
      assert a(lo) == -a(hi - 1);
    } else if lo < hi {
      assert a(lo) == -a(lo);
    }
  }

  lemma {:induction false} CosineDifference(f: seq<real>, x: Complex, g: seq<real>, y: Complex, t: nat, a: int -> real)
    requires forall j: nat | j < t :: a(j) == CosineTerm(f, x, j) - CosineTerm(g, y, j)
    ensures CosineSum(f, x, t) - CosineSum(g, y, t) == Sum(a, 0, t)
  {
    if t > 0 {
      CosineDifference(f, x, g, y, t - 1, a);
      assert a(t - 1) == CosineTerm(f, x, t - 1) - CosineTerm(g, y, t - 1);
    }
  }

  ghost function MixedTerm(f: seq<real>, x: Complex, y: Complex, g: seq<real>, z: Complex, j: nat): real {
    MixedOf(Item(f, j), Pow(x, j), Pow(y, j), Item(g, j), Pow(z, j))
  }

  ghost function MixedOf(p: real, u: Complex, v: Complex, r: real, a: Complex): real {
    p * u.re - p * v.re - r * a.im
  }

  lemma {:induction false} MixedDifference(f: seq<real>, x: Complex, y: Complex, g: seq<real>, z: Complex, t: nat, a: int -> real)
    requires forall j: nat | j < t :: a(j) == MixedTerm(f, x, y, g, z, j)
    ensures CosineSum(f, x, t) - CosineSum(f, y, t) - SineSum(g, z, t) == Sum(a, 0, t)
  {
    if t > 0 {
      MixedDifference(f, x, y, g, z, t - 1, a);
      assert a(t - 1) == MixedTerm(f, x, y, g, z, t - 1);
    }
  }

  // ---------- the folded sequence ----------

  /** Entry j of the sequence that the transform of half the length works on; zeta is the point at
      angle pi / n. */
  ghost function FoldedAt(f: seq<real>, zeta: Complex, n: nat, j: nat): real {
    if j == 0 then Item(f, 0)
    else 0.5 * (Item(f, j) + Item(f, n - j)) - Pow(zeta, j).im * (Item(f, j) - Item(f, n - j))
  }

  ghost predicate Folded(f: seq<real>, g: seq<real>, zeta: Complex, n: nat) {
    |g| >= n && forall j: nat | j < n :: g[j] == FoldedAt(f, zeta, n, j)
  }

  ghost predicate HalfTurnAt(zeta: Complex, n: nat) {
    UnitModulus(zeta) && Pow(zeta, n) == Complex(-1.0, 0.0)
  }

  lemma FoldedPair(f: seq<real>, zeta: Complex, n: nat, j: nat)
    requires HalfTurnAt(zeta, n) && 0 < j < n
    ensures FoldedAt(f, zeta, n, n - j) ==
            0.5 * (Item(f, j) + Item(f, n - j)) + Pow(zeta, j).im * (Item(f, j) - Item(f, n - j))
  {
    BackFromMinusOne(zeta, n, j);
    assert n - (n - j) == j;
    DifferenceTurned(Pow(zeta, j).im, Item(f, j), Item(f, n - j));
  }

  lemma DifferenceTurned(s: real, p: real, q: real)
    ensures s * (q - p) == -(s * (p - q))
  {
  }

  /** The cosine sum of the folded sequence over whole turns is that of the sequence itself. */
  lemma FoldedCosines(f: seq<real>, g: seq<real>, zeta: Complex, n: nat, x: Complex)
    requires HalfTurnAt(zeta, n) && Folded(f, g, zeta, n) && n > 0 && UnitModulus(x) && Pow(x, n) == ONE
    ensures CosineSum(g, x, n) == CosineSum(f, x, n)
  {
    var a: int -> real := j => if j < 0 then 0.0 else CosineTerm(f, x, j) - CosineTerm(g, x, j);
    CosineDifference(f, x, g, x, n, a);
    forall j | 1 <= j < n
      ensures a(j) == -a(1 + n - 1 - j)
    {
      CosinesCancel(f, g, zeta, n, x, j);
    }
    SumCancels(a, 1, n);
    SumFromLeft(a, 0, n);
    assert a(0) == 0.0;
  }

  lemma CosinesCancel(f: seq<real>, g: seq<real>, zeta: Complex, n: nat, x: Complex, j: nat)
    requires HalfTurnAt(zeta, n) && Folded(f, g, zeta, n) && 0 < j < n && UnitModulus(x) && Pow(x, n) == ONE
    ensures CosineTerm(f, x, j) - CosineTerm(g, x, j) == -(CosineTerm(f, x, n - j) - CosineTerm(g, x, n - j))
  {
    BackFromOne(x, n, j);
    FoldedPair(f, zeta, n, j);
    SameAtMirror(Item(f, j), Item(f, n - j), Item(g, j), Item(g, n - j), Pow(x, j).re);
  }

  lemma SameAtMirror(p: real, q: real, r: real, s: real, c: real)
    requires p + q == r + s
    ensures p * c - r * c == -(q * c - s * c)
  {
    assert p * c - r * c + (q * c - s * c) == (p + q - r - s) * c;
  }

  /** Its sine sum is the difference of the cosine sums one step ahead and one step behind. */
  lemma FoldedSines(f: seq<real>, g: seq<real>, zeta: Complex, n: nat, x: Complex)
    requires HalfTurnAt(zeta, n) && Folded(f, g, zeta, n) && n > 0 && UnitModulus(x) && Pow(x, n) == ONE
    ensures SineSum(g, x, n) == CosineSum(f, Product(x, zeta), n) - CosineSum(f, Product(x, Mirror(zeta)), n)
  {
    var y, z := Product(x, zeta), Product(x, Mirror(zeta));
    var a: int -> real := j => if j < 0 then 0.0 else MixedTerm(f, y, z, g, x, j);
    MixedDifference(f, y, z, g, x, n, a);
    forall j | 1 <= j < n
      ensures a(j) == -a(1 + n - 1 - j)
    {
      SinesCancel(f, g, zeta, n, x, y, z, j);
    }
    SumCancels(a, 1, n);
    SumFromLeft(a, 0, n);
    NoSineAtZero(f, y, z, g, x);
    assert a(0) == 0.0;
  }

  lemma NoSineAtZero(f: seq<real>, y: Complex, z: Complex, g: seq<real>, x: Complex)
    ensures MixedTerm(f, y, z, g, x, 0) == 0.0
  {
  }

  lemma SinesCancel(f: seq<real>, g: seq<real>, zeta: Complex, n: nat, x: Complex, y: Complex, z: Complex, j: nat)
    requires HalfTurnAt(zeta, n) && Folded(f, g, zeta, n) && 0 < j < n && UnitModulus(x) && Pow(x, n) == ONE
    requires y == Product(x, zeta) && z == Product(x, Mirror(zeta))
    ensures MixedTerm(f, y, z, g, x, j) == -MixedTerm(f, y, z, g, x, n - j)
  {
    BackFromOne(x, n, j);
    BackFromMinusOne(zeta, n, j);
    FoldedDifference(f, g, zeta, n, j);
    StepApart(x, zeta, j);
    StepApart(x, zeta, n - j);
    TermOf(Item(f, j), Pow(y, j), Pow(z, j), Item(g, j), Pow(x, j), Pow(zeta, j));
    TermOf(Item(f, n - j), Pow(y, n - j), Pow(z, n - j), Item(g, n - j), Pow(x, n - j), Pow(zeta, n - j));
    WeightMirrored(Pow(x, j).im, Pow(zeta, j).im, Item(f, j), Item(f, n - j), Item(g, j), Item(g, n - j));
  }

  lemma FoldedDifference(f: seq<real>, g: seq<real>, zeta: Complex, n: nat, j: nat)
    requires HalfTurnAt(zeta, n) && Folded(f, g, zeta, n) && 0 < j < n
    ensures Item(g, j) - Item(g, n - j) == -2.0 * (Pow(zeta, j).im * (Item(f, j) - Item(f, n - j)))
  {
    FoldedPair(f, zeta, n, j);
  }

  /** cos(u + v) - cos(u - v) = -2 sin u sin v, for points p and q at the angles u + v and u - v. */
  ghost predicate StepsApart(p: Complex, q: Complex, a: Complex, b: Complex) {
    p.re - q.re == -2.0 * (a.im * b.im)
  }

  lemma StepApart(x: Complex, zeta: Complex, j: nat)
    ensures StepsApart(Pow(Product(x, zeta), j), Pow(Product(x, Mirror(zeta)), j), Pow(x, j), Pow(zeta, j))
  {
    PowOfProduct(x, zeta, j);
    PowOfProduct(x, Mirror(zeta), j);
    MirrorPow(zeta, j);
    RealParts(Pow(x, j), Pow(zeta, j));
  }

  lemma RealParts(a: Complex, b: Complex)
    ensures StepsApart(Product(a, b), Product(a, Mirror(b)), a, b)
  {
    Negated(a.im, b.im);
  }

  ghost function SineWeight(s: real, w: real, p: real, r: real): real { s * (w * p + 0.5 * r) }

  lemma TermOf(p: real, u: Complex, v: Complex, r: real, a: Complex, b: Complex)
    requires StepsApart(u, v, a, b)
    ensures MixedOf(p, u, v, r, a) == -2.0 * SineWeight(a.im, b.im, p, r)
  {
    var s, w := a.im, b.im;
    assert p * u.re - p * v.re == p * (u.re - v.re);
    assert s * (w * p + 0.5 * r) == (s * w) * p + 0.5 * (r * s);
  }

  lemma WeightMirrored(s: real, w: real, p: real, q: real, r: real, t: real)
    requires r - t == -2.0 * (w * (p - q))
    ensures SineWeight(-s, w, q, t) == -SineWeight(s, w, p, r)
  {
    Spread(w, p, -q);
    Negated(w, q);
    assert w * p + 0.5 * r == w * q + 0.5 * t;
    Negated(s, w * p + 0.5 * r);
  }
}
