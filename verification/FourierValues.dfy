/** The discrete Fourier transform and the partial transforms that the butterfly stages compute. */
module FourierValues {
  import opened Powers
  import opened Complexes

  // ---------- the roots of unity ----------

  /** cos t + i sin t for t = 2 pi / 2^s, the cosine taken from the sine of the half angle. */
  ghost function Root(sin: real -> real, pi: real, s: nat): Complex {
    var theta := 2.0 * pi / Power2(s) as real;
    var half := sin(0.5 * theta);
    Complex(1.0 - 2.0 * half * half, sin(theta))
  }

  ghost predicate Halves(sin: real -> real, pi: real, s: nat) {
    Product(Root(sin, pi, s + 1), Root(sin, pi, s + 1)) == Root(sin, pi, s)
  }

  /** The sine and pi are exact as far as the transform needs them: half a turn is -1, and half an
      angle squares to the angle. */
  ghost predicate ExactSine(sin: real -> real, pi: real) {
    Root(sin, pi, 1) == Complex(-1.0, 0.0) && forall s: nat :: Halves(sin, pi, s)
  }

  lemma {:induction false} HalfTurn(sin: real -> real, pi: real, s: nat)
    requires ExactSine(sin, pi)
    ensures Pow(Root(sin, pi, s + 1), Power2(s)) == Complex(-1.0, 0.0)
  {
    var w := Root(sin, pi, s + 1);
    if s == 0 {
      ProductOne(w);
      assert Pow(w, 1) == Product(w, Pow(w, 0));
    } else {
      assert Halves(sin, pi, s);
      PowSquare(w, Power2(s - 1));
      HalfTurn(sin, pi, s - 1);
    }
  }

  // ---------- partial transforms ----------

  /** Coefficient k of the transform of the 2^s numbers z[r], z[r + 2^(b-s)], ..., where r is q with
      its b - s bits reversed and root is the root of unity of order 2^s.  For s = b this is the
      whole transform, for s = 0 a single number. */
  ghost function Value(root: Complex, z: seq<Complex>, b: nat, s: nat, q: nat, k: nat): Complex
    requires s <= b
  {
    Poly(z, Rev(b - s, q), Power2(b - s), Power2(s), Pow(root, k))
  }

  lemma StartValue(root: Complex, z: seq<Complex>, b: nat, q: nat)
    ensures Value(root, z, b, 0, q, 0) == Coefficient(z, Rev(b, q))
  {
    var x, c := Pow(root, 0), Coefficient(z, Rev(b, q));
    assert Power2(0) == 1;
    assert Place(Rev(b, q), Power2(b), 0) == Rev(b, q);
    ProductOne(c);
    assert Poly(z, Rev(b, q), Power2(b), 0, x) == ZERO;
    assert Poly(z, Rev(b, q), Power2(b), 1, x) == Plus(ZERO, Product(c, Pow(x, 0)));
  }

  lemma RevOfPair(j: nat, q: nat)
    ensures Rev(j + 1, 2 * q) == Rev(j, q) && Rev(j + 1, 2 * q + 1) == Rev(j, q) + Power2(j)
  {
    assert (2 * q) / 2 == q && (2 * q + 1) / 2 == q;
  }

  lemma TimesMinusOne(w: Complex)
    ensures Product(w, Complex(-1.0, 0.0)) == Opposite(w)
  {
  }

  lemma OppositeProduct(w: Complex, o: Complex, e: Complex)
    ensures Plus(e, Product(Opposite(w), o)) == Minus(e, Product(w, o))
    ensures Product(Opposite(w), Opposite(w)) == Product(w, w)
  {
    Negated(w.re, o.re); Negated(w.im, o.im); Negated(w.re, o.im); Negated(w.im, o.re);
    Negated(w.re, -w.re); Negated(w.im, -w.im); Negated(w.re, -w.im); Negated(w.im, -w.re);
    Negated(w.re, w.re); Negated(w.im, w.im); Negated(w.re, w.im); Negated(w.im, w.re);
    assert Product(Opposite(w), o) == Opposite(Product(w, o));
    assert Product(Opposite(w), Opposite(w)).re == Product(w, w).re;
    assert Product(Opposite(w), Opposite(w)).im == Product(w, w).im;
  }

  lemma Negated(x: real, y: real)
    ensures (-x) * y == -(x * y) && x * (-y) == -(x * y)
  {
  }

  /** A transform of twice the size at a point x: its halves are transforms at the square of x. */
  lemma ValueSplits(root: Complex, square: Complex, z: seq<Complex>, b: nat, s: nat, q: nat, k: nat, m: nat, x: Complex)
    requires s < b && x == Pow(root, m) && Product(x, x) == Pow(square, k)
    ensures Value(root, z, b, s + 1, q, m) ==
            Plus(Value(square, z, b, s, 2 * q, k), Product(x, Value(square, z, b, s, 2 * q + 1, k)))
  {
    var j := b - s - 1;
    RevOfPair(j, q);
    PolySplits(z, Rev(j, q), Power2(j), Power2(s), x, Pow(square, k));
  }

  lemma PolySplits(z: seq<Complex>, first: nat, h: nat, t: nat, x: Complex, y: Complex)
    requires Product(x, x) == y
    ensures Poly(z, first, h, 2 * t, x) == Plus(Poly(z, first, 2 * h, t, y), Product(x, Poly(z, first + h, 2 * h, t, y)))
  {
    EvenAndOdd(z, first, h, t, x);
  }

  /** Two transforms of one size make two coefficients of a transform of twice the size. */
  lemma ValuePair(root: Complex, square: Complex, z: seq<Complex>, b: nat, s: nat, q: nat, k: nat)
    requires s < b && Product(root, root) == square && Pow(root, Power2(s)) == Complex(-1.0, 0.0)
    ensures var w, e, o := Pow(root, k), Value(square, z, b, s, 2 * q, k), Value(square, z, b, s, 2 * q + 1, k);
      && Value(root, z, b, s + 1, q, k) == Plus(e, Product(w, o))
      && Value(root, z, b, s + 1, q, k + Power2(s)) == Minus(e, Product(w, o))
  {
    var w, e, o := Pow(root, k), Value(square, z, b, s, 2 * q, k), Value(square, z, b, s, 2 * q + 1, k);
    SquareOfPow(root, k);
    PowAdd(root, k, Power2(s));
    TimesMinusOne(w);
    OppositeProduct(w, o, e);
    ValueSplits(root, square, z, b, s, q, k, k, w);
    ValueSplits(root, square, z, b, s, q, k, k + Power2(s), Opposite(w));
  }

  // ---------- where they are stored ----------

  /** The number with q above the m low bits k. */
  function Compose(m: nat, q: nat, k: nat): nat {
    if m == 0 then q else 2 * Compose(m - 1, q, k / 2) + k % 2
  }

  lemma {:induction false} ComposeParts(m: nat, q: nat, k: nat)
    requires k < Power2(m)
    ensures ShiftRight(Compose(m, q, k), m) == q && LowBits(Compose(m, q, k), m) == k
  {
    if m > 0 {
      ComposeParts(m - 1, q, k / 2);
      assert Compose(m, q, k) / 2 == Compose(m - 1, q, k / 2);
    }
  }

  lemma {:induction false} PartsCompose(m: nat, p: nat)
    ensures Compose(m, ShiftRight(p, m), LowBits(p, m)) == p
    decreases m
  {
    if m > 0 {
      PartsCompose(m - 1, p / 2);
      assert LowBits(p, m) / 2 == LowBits(p / 2, m - 1);
    }
  }

  lemma {:induction false} ComposeNext(m: nat, q: nat, k: nat)
    ensures Compose(m, q + 1, k) == Compose(m, q, k) + Power2(m)
  {
    if m > 0 {
      ComposeNext(m - 1, q, k / 2);
    }
  }

  lemma {:induction false} ComposeLow(m: nat, k: nat)
    requires k < Power2(m)
    ensures Compose(m, 0, k) == k
  {
    if m > 0 {
      ComposeLow(m - 1, k / 2);
    }
  }

  lemma {:induction false} ComposeBound(m: nat, q: nat, k: nat, j: nat)
    requires k < Power2(m)
    ensures Compose(m, q, k) < Power2(m + j) <==> q < Power2(j)
    decreases m
  {
    if m > 0 {
      ComposeBound(m - 1, q, k / 2, j);
    }
  }

  /** The two slots of a butterfly, seen from the stage before and from the stage after. */
  lemma {:induction false} ComposePair(s: nat, q: nat, k: nat)
    requires k < Power2(s)
    ensures Compose(s + 1, q, k) == Compose(s, 2 * q, k)
    ensures Compose(s + 1, q, k + Power2(s)) == Compose(s, 2 * q + 1, k) == Compose(s + 1, q, k) + Power2(s)
  {
    if s > 0 {
      ComposePair(s - 1, q, k / 2);
      assert (k + Power2(s)) / 2 == k / 2 + Power2(s - 1) && (k + Power2(s)) % 2 == k % 2;
    }
  }

  lemma DifferentParts(m: nat, q: nat, k: nat, r: nat, j: nat)
    requires k < Power2(m) && j < Power2(m) && (q != r || k != j)
    ensures Compose(m, q, k) != Compose(m, r, j)
  {
    ComposeParts(m, q, k);
    ComposeParts(m, r, j);
  }
}
