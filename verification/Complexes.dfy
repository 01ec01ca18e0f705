/** Complex numbers over exact reals, their powers, and polynomials at a complex point. */
module Complexes {

  datatype Complex = Complex(re: real, im: real)

  const ZERO := Complex(0.0, 0.0)
  const ONE := Complex(1.0, 0.0)

  ghost function Plus(a: Complex, b: Complex): Complex { Complex(a.re + b.re, a.im + b.im) }

  ghost function Minus(a: Complex, b: Complex): Complex { Complex(a.re - b.re, a.im - b.im) }

  ghost function Opposite(a: Complex): Complex { Complex(-a.re, -a.im) }

  ghost function Product(a: Complex, b: Complex): Complex {
    Complex(a.re * b.re - a.im * b.im, a.re * b.im + a.im * b.re)
  }

  lemma ProductAssociative(a: Complex, b: Complex, c: Complex)
    ensures Product(Product(a, b), c) == Product(a, Product(b, c))
  {
    Grouped(a.re, a.im, b.re, b.im, c.re, c.im);
    assert Product(Product(a, b), c).re == Product(a, Product(b, c)).re;
    assert Product(Product(a, b), c).im == Product(a, Product(b, c)).im;
  }

  lemma Grouped(a0: real, a1: real, b0: real, b1: real, c0: real, c1: real)
    ensures (a0 * b0 - a1 * b1) * c0 - (a0 * b1 + a1 * b0) * c1 == a0 * (b0 * c0 - b1 * c1) - a1 * (b0 * c1 + b1 * c0)
    ensures (a0 * b0 - a1 * b1) * c1 + (a0 * b1 + a1 * b0) * c0 == a0 * (b0 * c1 + b1 * c0) + a1 * (b0 * c0 - b1 * c1)
  {
  }

  lemma ProductCommutes(a: Complex, b: Complex)
    ensures Product(a, b) == Product(b, a)
  {
  }

  lemma ProductOverPlus(a: Complex, b: Complex, c: Complex)
    ensures Product(a, Plus(b, c)) == Plus(Product(a, b), Product(a, c))
  {
    Spread(a.re, b.re, c.re);
    Spread(a.re, b.im, c.im);
    Spread(a.im, b.re, c.re);
    Spread(a.im, b.im, c.im);
    assert Product(a, Plus(b, c)).re == Plus(Product(a, b), Product(a, c)).re;
    assert Product(a, Plus(b, c)).im == Plus(Product(a, b), Product(a, c)).im;
  }

  lemma Spread(x: real, y: real, z: real)
    ensures x * (y + z) == x * y + x * z
  {
  }

  lemma ProductOne(a: Complex)
    ensures Product(ONE, a) == a == Product(a, ONE)
  {
  }

  ghost function Pow(w: Complex, n: nat): Complex {
    if n == 0 then ONE else Product(w, Pow(w, n - 1))
  }

  lemma {:induction false} PowAdd(w: Complex, m: nat, n: nat)
    ensures Pow(w, m + n) == Product(Pow(w, m), Pow(w, n))
  {
    if m == 0 {
      ProductOne(Pow(w, n));
    } else {
      PowAdd(w, m - 1, n);
      ProductAssociative(w, Pow(w, m - 1), Pow(w, n));
    }
  }

  lemma {:induction false} PowSquare(w: Complex, n: nat)
    ensures Pow(Product(w, w), n) == Pow(w, 2 * n)
  {
    if n > 0 {
      PowSquare(w, n - 1);
      assert Pow(w, 2 * n) == Product(w, Product(w, Pow(w, 2 * (n - 1))));
      ProductAssociative(w, w, Pow(w, 2 * (n - 1)));
    }
  }

  lemma SquareOfPow(w: Complex, k: nat)
    ensures Product(Pow(w, k), Pow(w, k)) == Pow(Product(w, w), k)
  {
    PowAdd(w, k, k);
    PowSquare(w, k);
    assert k + k == 2 * k;
  }

  lemma ProductIs(a: real, b: real, c: real, d: real)
    ensures Product(Complex(a, b), Complex(c, d)) == Complex(a * c - b * d, a * d + b * c)
  {
  }

  // ---------- polynomials ----------

  ghost function Coefficient(z: seq<Complex>, p: int): Complex {
    if 0 <= p < |z| then z[p] else ZERO
  }

  /** Position p of every stride-th coefficient from first on. */
  ghost function Place(first: nat, stride: nat, p: nat): int { first + p * stride }

  lemma PlaceEven(first: nat, h: nat, p: nat)
    ensures Place(first, h, 2 * p) == Place(first, 2 * h, p)
    ensures Place(first, h, 2 * p + 1) == Place(first + h, 2 * h, p)
  {
    assert (2 * p) * h == p * (2 * h);
    assert (2 * p + 1) * h == p * (2 * h) + h;
  }

  /** sum over p < t of z[first + p stride] x^p */
  ghost function Poly(z: seq<Complex>, first: nat, stride: nat, t: nat, x: Complex): Complex {
    if t == 0 then ZERO
    else Plus(Poly(z, first, stride, t - 1, x), Product(Coefficient(z, Place(first, stride, t - 1)), Pow(x, t - 1)))
  }

  lemma TwoTerms(e: Complex, o: Complex, c: Complex, d: Complex, x: Complex, y: Complex)
    ensures Plus(Plus(Plus(e, Product(x, o)), Product(c, y)), Product(d, Product(x, y)))
         == Plus(Plus(e, Product(c, y)), Product(x, Plus(o, Product(d, y))))
  {
    ProductOverPlus(x, o, Product(d, y));
    ProductAssociative(d, x, y);
    ProductCommutes(d, x);
    ProductAssociative(x, d, y);
    assert Product(d, Product(x, y)) == Product(x, Product(d, y));
  }

  lemma PolyNext(z: seq<Complex>, first: nat, stride: nat, t: nat, x: Complex, c: Complex, y: Complex)
    requires c == Coefficient(z, Place(first, stride, t)) && y == Pow(x, t)
    ensures Poly(z, first, stride, t + 1, x) == Plus(Poly(z, first, stride, t, x), Product(c, y))
  {
  }

  /** One more even and one more odd term; x2 stands for the square of x. */
  lemma EvenAndOddMore(z: seq<Complex>, first: nat, h: nat, u: nat, x: Complex, x2: Complex)
    requires Pow(x, 2 * u) == Pow(x2, u) && Pow(x, 2 * u + 1) == Product(x, Pow(x2, u))
    requires Poly(z, first, h, 2 * u, x) == Plus(Poly(z, first, 2 * h, u, x2), Product(x, Poly(z, first + h, 2 * h, u, x2)))
    ensures Poly(z, first, h, 2 * (u + 1), x) ==
            Plus(Poly(z, first, 2 * h, u + 1, x2), Product(x, Poly(z, first + h, 2 * h, u + 1, x2)))
  {
    var y, c, d := Pow(x2, u), Coefficient(z, Place(first, h, 2 * u)), Coefficient(z, Place(first, h, 2 * u + 1));
    PlaceEven(first, h, u);
    PolyNext(z, first, h, 2 * u, x, c, y);
    PolyNext(z, first, h, 2 * u + 1, x, d, Product(x, y));
    PolyNext(z, first, 2 * h, u, x2, c, y);
    PolyNext(z, first + h, 2 * h, u, x2, d, y);
    TwoTerms(Poly(z, first, 2 * h, u, x2), Poly(z, first + h, 2 * h, u, x2), c, d, x, y);
  }

  /** x2 is the square of x, as far as powers go. */
  ghost predicate PowersOfSquare(x: Complex, x2: Complex) {
    forall n: nat {:trigger Pow(x2, n)} :: EvenPower(x, x2, n)
  }

  ghost predicate EvenPower(x: Complex, x2: Complex, n: nat) {
    Pow(x, 2 * n) == Pow(x2, n)
  }

  lemma SquareHasPowers(x: Complex)
    ensures PowersOfSquare(x, Product(x, x))
  {
    forall n: nat
      ensures EvenPower(x, Product(x, x), n)
    {
      PowSquare(x, n);
    }
  }

  lemma PowNext(x: Complex, n: nat)
    ensures Pow(x, n + 1) == Product(x, Pow(x, n))
  {
  }

  lemma {:induction false} EvenAndOddTerms(z: seq<Complex>, first: nat, h: nat, t: nat, x: Complex, x2: Complex)
    requires PowersOfSquare(x, x2)
    ensures Poly(z, first, h, 2 * t, x) == Plus(Poly(z, first, 2 * h, t, x2), Product(x, Poly(z, first + h, 2 * h, t, x2)))
  {
    if t == 0 {
      NoTerms(x);
    } else {
      var u := t - 1;
      EvenAndOddTerms(z, first, h, u, x, x2);
      assert EvenPower(x, x2, u) by {
        assert Pow(x2, u) == Pow(x2, u);
      }
      PowNext(x, 2 * u);
      EvenAndOddMore(z, first, h, u, x, x2);
    }
  }

  lemma NoTerms(x: Complex)
    ensures Plus(ZERO, Product(x, ZERO)) == ZERO
  {
  }

  /** Even and odd terms: P(x) = E(x^2) + x O(x^2). */
  lemma EvenAndOdd(z: seq<Complex>, first: nat, h: nat, t: nat, x: Complex)
    ensures Poly(z, first, h, 2 * t, x) ==
            Plus(Poly(z, first, 2 * h, t, Product(x, x)), Product(x, Poly(z, first + h, 2 * h, t, Product(x, x))))
  {
    SquareHasPowers(x);
    EvenAndOddTerms(z, first, h, t, x, Product(x, x));
  }
}
