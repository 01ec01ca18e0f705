/** The transform of n reals out of the transform of n / 2 complex numbers made of them in pairs. */
module RealTransforms {
  import opened Powers
  import opened Complexes
  import opened FourierValues
  import opened Butterflies
  import opened CosineSums

  const I := Complex(0.0, 1.0)

  ghost function Reals(g: seq<real>): (z: seq<Complex>)
    ensures |z| == |g| && forall j | 0 <= j < |g| :: z[j] == Complex(g[j], 0.0)
  {
    seq(|g|, j requires 0 <= j < |g| => Complex(g[j], 0.0))
  }

  /** The transform of t reals at the point x. */
  ghost function Whole(g: seq<real>, t: nat, x: Complex): Complex {
    Complex(CosineSum(g, x, t), SineSum(g, x, t))
  }

  /** The transform of every other one of 2 t reals, from the first (0) or the second (1) on. */
  ghost function Half(g: seq<real>, first: nat, t: nat, x: Complex): Complex {
    Poly(Reals(g), first, 2, t, x)
  }

  lemma RealTimes(r: real, x: Complex)
    ensures Product(Complex(r, 0.0), x) == Complex(r * x.re, r * x.im)
  {
  }

  lemma WholeNext(g: seq<real>, t: nat, x: Complex, y: Complex)
    requires y == Pow(x, t)
    ensures Whole(g, t + 1, x) == Plus(Whole(g, t, x), Product(Complex(Item(g, t), 0.0), y))
  {
    RealTimes(Item(g, t), y);
  }

  lemma {:induction false} PolyOfReals(g: seq<real>, t: nat, x: Complex)
    ensures Poly(Reals(g), 0, 1, t, x) == Whole(g, t, x)
  {
    if t > 0 {
      var u := t - 1;
      PolyOfReals(g, u, x);
      assert Place(0, 1, u) == u;
      PolyNext(Reals(g), 0, 1, u, x, Complex(Item(g, u), 0.0), Pow(x, u));
      WholeNext(g, u, x, Pow(x, u));
    }
  }

  lemma HalvesJoin(g: seq<real>, t: nat, x: Complex)
    ensures Whole(g, 2 * t, x) == Plus(Half(g, 0, t, Product(x, x)), Product(x, Half(g, 1, t, Product(x, x))))
  {
    PolyOfReals(g, 2 * t, x);
    EvenAndOdd(Reals(g), 0, 1, t, x);
  }

  lemma MirrorPlus(a: Complex, b: Complex)
    ensures Mirror(Plus(a, b)) == Plus(Mirror(a), Mirror(b))
  {
  }

  lemma MirrorReal(g: seq<real>, p: int)
    ensures Mirror(Coefficient(Reals(g), p)) == Coefficient(Reals(g), p)
  {
  }

  lemma {:induction false} HalfAtMirror(g: seq<real>, first: nat, t: nat, x: Complex)
    ensures Half(g, first, t, Mirror(x)) == Mirror(Half(g, first, t, x))
  {
    if t > 0 {
      HalfAtMirror(g, first, t - 1, x);
      var c := Coefficient(Reals(g), Place(first, 2, t - 1));
      MirrorReal(g, Place(first, 2, t - 1));
      MirrorPow(x, t - 1);
      MirrorProduct(c, Pow(x, t - 1));
      MirrorPlus(Half(g, first, t - 1, x), Product(c, Pow(x, t - 1)));
    }
  }

  // ---------- pairs as complex numbers ----------

  lemma PackedTerm(e: Complex, o: Complex, p: real, q: real, y: Complex)
    ensures Plus(Plus(e, Product(I, o)), Product(Complex(p, q), y)) ==
            Plus(Plus(e, Product(Complex(p, 0.0), y)), Product(I, Plus(o, Product(Complex(q, 0.0), y))))
  {
  }

  lemma {:induction false} Packed(d: seq<real>, b: nat, t: nat, x: Complex)
    requires Slots(d, b) && t <= Power2(b)
    ensures Poly(Numbers(d, b), 0, 1, t, x) == Plus(Half(d, 0, t, x), Product(I, Half(d, 1, t, x)))
  {
    if t == 0 {
      NoTerms(I);
    } else {
      var p := t - 1;
      Packed(d, b, p, x);
      assert Place(0, 1, p) == p && Place(0, 2, p) == 2 * p && Place(1, 2, p) == 2 * p + 1;
      PackedTerm(Half(d, 0, p, x), Half(d, 1, p, x), d[2 * p], d[2 * p + 1], Pow(x, p));
    }
  }

  /** The two halves at x from the packed transform at x and at its mirror point. */
  lemma Untangled(e: Complex, o: Complex, a: Complex, c: Complex)
    requires a == Plus(e, Product(I, o)) && c == Plus(Mirror(e), Product(I, Mirror(o)))
    ensures e == Complex(0.5 * (a.re + c.re), 0.5 * (a.im - c.im))
    ensures o == Complex(0.5 * (a.im + c.im), 0.5 * (c.re - a.re))
  {
  }

  lemma HalvesFromPacked(d: seq<real>, b: nat, root: Complex, k: nat)
    requires Slots(d, b) && k <= Power2(b) && UnitModulus(root) && Pow(root, Power2(b)) == ONE
    ensures var t, x, z := Power2(b), Pow(root, k), Numbers(d, b);
      var a, c := Transform(z, root, k), Transform(z, root, t - k);
      && Half(d, 0, t, x) == Complex(0.5 * (a.re + c.re), 0.5 * (a.im - c.im))
      && Half(d, 1, t, x) == Complex(0.5 * (a.im + c.im), 0.5 * (c.re - a.re))
  {
    var t, x, z := Power2(b), Pow(root, k), Numbers(d, b);
    BackFromOne(root, t, k);
    Packed(d, b, t, x);
    Packed(d, b, t, Mirror(x));
    HalfAtMirror(d, 0, t, x);
    HalfAtMirror(d, 1, t, x);
    Untangled(Half(d, 0, t, x), Half(d, 1, t, x), Transform(z, root, k), Transform(z, root, t - k));
  }

  // ---------- the transform at opposite points ----------

  /** At the point counted back from half a turn, the transform is the mirror image of the difference. */
  lemma WholeCountedBack(g: seq<real>, t: nat, x: Complex, e: Complex, o: Complex)
    requires e == Half(g, 0, t, Product(x, x)) && o == Half(g, 1, t, Product(x, x))
    ensures Whole(g, 2 * t, Opposite(Mirror(x))) == Mirror(Minus(e, Product(x, o)))
  {
    var y := Opposite(Mirror(x));
    HalvesJoin(g, t, y);
    OppositeProduct(Mirror(x), Mirror(o), Mirror(e));
    MirrorProduct(x, x);
    HalfAtMirror(g, 0, t, Product(x, x));
    HalfAtMirror(g, 1, t, Product(x, x));
    MirrorProduct(x, o);
    MirrorMinus(e, Product(x, o));
  }

  lemma MirrorMinus(a: Complex, b: Complex)
    ensures Mirror(Minus(a, b)) == Minus(Mirror(a), Mirror(b))
  {
  }

  /** What the unfolding loop has to leave in slots k and t - k. */
  lemma UnfoldedPair(d: seq<real>, b: nat, root: Complex, k: nat)
    requires Slots(d, b) && k <= Power2(b) && HalfTurnAt(root, Power2(b))
    ensures var t, w, square, z := Power2(b), Pow(root, k), Product(root, root), Numbers(d, b);
      var a, c := Transform(z, square, k), Transform(z, square, t - k);
      var e, o := Complex(0.5 * (a.re + c.re), 0.5 * (a.im - c.im)), Complex(0.5 * (a.im + c.im), 0.5 * (c.re - a.re));
      && Whole(d, 2 * t, w) == Plus(e, Product(w, o))
      && Whole(d, 2 * t, Pow(root, t - k)) == Mirror(Minus(e, Product(w, o)))
  {
    var t, w, square := Power2(b), Pow(root, k), Product(root, root);
    NormProduct(root, root);
    WholeTurn(root, t);
    HalvesFromPacked(d, b, square, k);
    SquareOfPow(root, k);
    HalvesJoin(d, t, w);
    BackFromMinusOne(root, t, k);
    WholeCountedBack(d, t, w, Half(d, 0, t, Pow(square, k)), Half(d, 1, t, Pow(square, k)));
  }

  /** The square of a point that reaches half a turn reaches a whole one. */
  lemma WholeTurn(root: Complex, t: nat)
    requires Pow(root, t) == Complex(-1.0, 0.0)
    ensures Pow(Product(root, root), t) == ONE
  {
    SquareOfPow(root, t);
  }

  /** A point on the real axis is its own mirror image. */
  lemma HalfOnAxis(g: seq<real>, first: nat, t: nat, x: Complex)
    requires Mirror(x) == x
    ensures OnAxis(Half(g, first, t, x))
  {
    HalfAtMirror(g, first, t, x);
    MirrorFixes(Half(g, first, t, x));
  }

  ghost predicate OnAxis(a: Complex) { a.im == 0.0 }

  lemma MirrorFixes(a: Complex)
    requires Mirror(a) == a
    ensures OnAxis(a)
  {
  }

  ghost predicate AddsUp(w: Complex, z: Complex) { w.re == z.re + z.im }

  lemma RealHalves(e: Complex, o: Complex)
    requires OnAxis(e) && OnAxis(o)
    ensures AddsUp(Plus(e, o), Plus(e, Product(I, o)))
  {
  }

  ghost predicate Keeps(x: Complex, y: Complex) { Product(x, y) == y }

  /** What matters about the point 1. */
  ghost predicate Neutral(x: Complex) {
    Mirror(x) == x && forall y: Complex :: Keeps(x, y)
  }

  lemma OneKeeps(y: Complex)
    ensures Keeps(ONE, y)
  {
    ProductOne(y);
  }

  lemma OneKeepsAll()
    ensures forall y: Complex :: Keeps(ONE, y)
  {
    forall y: Complex
      ensures Keeps(ONE, y)
    {
      OneKeeps(y);
    }
  }

  lemma OneIsNeutral()
    ensures Neutral(ONE)
  {
    OneKeepsAll();
    NeutralIs(ONE);
  }

  lemma NeutralIs(x: Complex)
    requires x.im == 0.0 && forall y: Complex :: Keeps(x, y)
    ensures Neutral(x)
  {
  }

  /** The packed transform at 1 gives the sum of all reals. */
  lemma WholeAtOne(d: seq<real>, b: nat, t: nat, x: Complex)
    requires Slots(d, b) && t == Power2(b) && Neutral(x)
    ensures AddsUp(Whole(d, 2 * t, x), Poly(Numbers(d, b), 0, 1, t, x))
  {
    HalfOnAxis(d, 0, t, x);
    HalfOnAxis(d, 1, t, x);
    RealHalves(Half(d, 0, t, x), Half(d, 1, t, x));
    assert Keeps(x, x) && Keeps(x, Half(d, 1, t, x));
    HalvesJoin(d, t, x);
    Packed(d, b, t, x);
  }
}
