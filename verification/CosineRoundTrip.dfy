/** The forward and the inverse cosine transform undo each other. */
module CosineRoundTrip {
  import opened Powers
  import opened Complexes
  import opened FourierValues
  import opened CosineSums
  import opened RealTransforms
  import opened FastCosineTransform

  // ---------- the powers of the root are different from 1 ----------

  lemma OddPowNotOne(x: Complex, t: nat, m: nat)
    requires Pow(x, t) == Complex(-1.0, 0.0) && m % 2 == 1
    ensures Pow(x, m) != ONE
  {
    if Pow(x, m) == ONE {
      PowSwap(x, m, t);
      OnePow(t);
      MinusOneFlips(Pow(x, t));
      Signs(Pow(x, t), m);
      assert false;
    }
  }

  /** A root of unity of order 2^s has no power below 2^s that is 1. */
  lemma {:induction false} NotOne(sin: real -> real, pi: real, s: nat, m: nat)
    requires ExactSine(sin, pi) && 0 < m < Power2(s)
    ensures Pow(Root(sin, pi, s), m) != ONE
  {
    HalfTurnOfRoot(sin, pi, s - 1);
    if m % 2 == 1 {
      OddPowNotOne(Root(sin, pi, s), Power2(s - 1), m);
    } else {
      NotOne(sin, pi, s - 1, m / 2);
      PowSquare(Root(sin, pi, s), m / 2);
    }
  }

  lemma RealPartBelowOne(x: Complex)
    requires UnitModulus(x) && x != ONE
    ensures x.re != 1.0
  {
    if x.re == 1.0 {
      NothingLeft(x.re, x.im);
    }
  }

  lemma NothingLeft(p: real, q: real)
    requires p == 1.0 && p * p + q * q == p
    ensures q == 0.0
  {
    var zero := 1.0 - p;
    SquaresGrow(zero, q);
    SquaresGrow(zero, -q);
    SameSquare(q);
    assert p * p == p && zero * zero == zero;
  }

  lemma SameSquare(r: real)
    ensures (-r) * (-r) == r * r
  {
  }

  // ---------- the sum of the powers ----------

  ghost function Ones(n: nat): (f: seq<real>)
    ensures |f| == n + 1 && forall j | 0 <= j <= n :: f[j] == 1.0
  {
    seq(n + 1, j => 1.0)
  }

  /** cos((k + 1) a) + cos((k - 1) a) = 2 cos a cos(k a) */
  lemma ThreePowers(x: Complex, k: nat)
    requires UnitModulus(x) && k > 0
    ensures Neighbours(x.re, Pow(x, k - 1).re, Pow(x, k).re, Pow(x, k + 1).re)
  {
    var y := Pow(x, k - 1);
    PowNext(x, k - 1);
    PowNext(x, k);
    TwoTurns(x, y);
  }

  ghost predicate Neighbours(c: real, before: real, here: real, after: real) {
    after + before == 2.0 * (c * here)
  }

  lemma TwoTurns(x: Complex, y: Complex)
    requires UnitModulus(x)
    ensures Neighbours(x.re, y.re, Product(x, y).re, Product(x, Product(x, y)).re)
  {
    var c, s := x.re, x.im;
    assert s * s == 1.0 - c * c;
    assert Product(x, Product(x, y)).re == c * (c * y.re - s * y.im) - s * (c * y.im + s * y.re);
    assert s * (s * y.re) == (1.0 - c * c) * y.re by {
      assert s * (s * y.re) == (s * s) * y.re;
    }
    assert c * (s * y.im) == s * (c * y.im);
    assert c * (c * y.re) == (c * c) * y.re;
  }

  ghost function Remainder(c: real, r: real): real { (1.0 - c) * r }

  /** 2 (1 - c) sum is the difference of the last two cosines plus that of the first two. */
  ghost predicate Telescopes(c: real, sum: real, before: real, last: real) {
    2.0 * Remainder(c, sum) == before - last + 1.0 - c
  }

  /** 2 (1 - cos a) (1 + cos a + ... + cos((t - 1) a)) telescopes. */
  lemma {:induction false} CosinesTelescope(n: nat, x: Complex, t: nat)
    requires UnitModulus(x) && 0 < t <= n
    ensures Telescopes(x.re, CosineSum(Ones(n), x, t), Pow(x, t - 1).re, Pow(x, t).re)
  {
    if t == 1 {
      FirstTerm(Ones(n), x);
      RealTelescopeStart(x);
    } else {
      CosinesTelescope(n, x, t - 1);
      ThreePowers(x, t - 1);
      CosineNext(Ones(n), x, t - 1, Pow(x, t - 1).re);
      CosineStep(x.re, CosineSum(Ones(n), x, t - 1), Pow(x, t - 2).re, Pow(x, t - 1).re, Pow(x, t).re);
    }
  }

  lemma RealTelescopeStart(x: Complex)
    ensures Pow(x, 0).re == 1.0 && Pow(x, 1).re == x.re
  {
    PowNext(x, 0);
    ProductOne(x);
  }

  lemma CosineStep(c: real, sum: real, p: real, q: real, r: real)
    requires Telescopes(c, sum, p, q) && Neighbours(c, p, q, r)
    ensures Telescopes(c, sum + q, q, r)
  {
    assert (1.0 - c) * (sum + q) == (1.0 - c) * sum + q - c * q;
  }

  /** The sum of the powers of a point with the first and the last term halved. */
  ghost function EndedTotal(n: nat, x: Complex): real
    requires n > 0
  {
    CosineSum(HalvedEnds(Ones(n)), x, n + 1)
  }

  lemma TotalIs(n: nat, x: Complex, e: real)
    requires n > 0 && Pow(x, n).re == e
    ensures EndedTotal(n, x) == CosineSum(Ones(n), x, n) - 0.5 + 0.5 * e
  {
    var h := HalvedEnds(Ones(n));
    assert Item(h, n) == 0.5;
    HalvedPrefix(Ones(n), x, n);
    CosineNext(h, x, n, e);
  }

  lemma LastStep(x: Complex, n: nat, e: real)
    requires UnitModulus(x) && n > 0 && Pow(x, n) == Complex(e, 0.0)
    ensures Pow(x, n - 1).re == x.re * e
  {
    PowNext(x, n - 1);
    ProductCommutes(x, Pow(x, n - 1));
    Cancelled(Pow(x, n - 1), x, Complex(e, 0.0));
    EndTurned(e, x);
  }

  lemma EndTurned(e: real, x: Complex)
    ensures Product(Complex(e, 0.0), Mirror(x)).re == x.re * e
  {
  }

  lemma SolveTotal(c: real, e: real, sum: real, before: real)
    requires c != 1.0 && Telescopes(c, sum, before, e) && before == c * e
    ensures 2.0 * sum == 1.0 - e
  {
    assert c * e - e + 1.0 - c == (1.0 - c) * (1.0 - e);
    CancelFactor(1.0 - c, 2.0 * sum, 1.0 - e);
  }

  lemma CancelFactor(p: real, q: real, r: real)
    requires p != 0.0 && p * q == p * r
    ensures q == r
  {
    assert q == (p * q) / p;
  }

  lemma TelescopesTo(n: nat, x: Complex, e: real)
    requires n > 0 && UnitModulus(x) && Pow(x, n) == Complex(e, 0.0)
    ensures Telescopes(x.re, CosineSum(Ones(n), x, n), Pow(x, n - 1).re, e)
  {
    CosinesTelescope(n, x, n);
  }

  lemma SumSolved(n: nat, x: Complex, e: real)
    requires n > 0 && UnitModulus(x) && x != ONE && Pow(x, n) == Complex(e, 0.0)
    ensures 2.0 * CosineSum(Ones(n), x, n) == 1.0 - e
  {
    RealPartBelowOne(x);
    TelescopesTo(n, x, e);
    LastStep(x, n, e);
    SolveTotal(x.re, e, CosineSum(Ones(n), x, n), Pow(x, n - 1).re);
  }

  /** For a point other than 1 that ends at 1 or -1 the sum is zero. */
  lemma TotalZero(n: nat, x: Complex, e: real)
    requires n > 0 && UnitModulus(x) && x != ONE && Pow(x, n) == Complex(e, 0.0)
    ensures EndedTotal(n, x) == 0.0
  {
    SumSolved(n, x, e);
    TotalIs(n, x, e);
  }

  ghost predicate AtOne(x: Complex, k: nat) { Pow(x, k) == ONE }

  lemma {:induction false} OnesAdd(n: nat, x: Complex, t: nat)
    requires t <= n && forall k: nat :: AtOne(x, k)
    ensures CosineSum(Ones(n), x, t) == t as real
  {
    if t > 0 {
      OnesAdd(n, x, t - 1);
      assert AtOne(x, t - 1);
      OnesGrow(n, x, t - 1, (t - 1) as real);
    }
  }

  lemma OnesGrow(n: nat, x: Complex, t: nat, v: real)
    requires t < n && CosineSum(Ones(n), x, t) == v && Pow(x, t) == ONE
    ensures CosineSum(Ones(n), x, t + 1) == v + 1.0
  {
    CosineNext(Ones(n), x, t, 1.0);
  }

  lemma TotalOne(n: nat, x: Complex)
    requires n > 0 && x == ONE
    ensures EndedTotal(n, x) == n as real
  {
    forall k: nat
      ensures AtOne(x, k)
    {
      OnePow(k);
    }
    OnesAdd(n, x, n);
    assert AtOne(x, n);
    TotalIs(n, x, 1.0);
  }

  lemma PowersOfPoint(sin: real -> real, pi: real, b: nat, zeta: Complex, n: nat, m: nat)
    requires PointOf(sin, pi, b, zeta, n)
    ensures UnitModulus(Pow(zeta, m)) && Pow(Pow(zeta, m), n) == Complex(Sign(m), 0.0)
  {
    HalfTurnOfRoot(sin, pi, b + 1);
    UnitPow(zeta, m);
    SignOfPoint(zeta, n, m);
  }

  /** The sum at the point of index m: 0 strictly between 0 and 2 n, and n at both ends. */
  lemma TotalAt(sin: real -> real, pi: real, b: nat, zeta: Complex, n: nat, m: nat)
    requires PointOf(sin, pi, b, zeta, n) && m <= 2 * n
    ensures EndedTotal(n, Pow(zeta, m)) == if m == 0 || m == 2 * n then n as real else 0.0
  {
    PowersOfPoint(sin, pi, b, zeta, n, m);
    if 0 < m < 2 * n {
      NotOne(sin, pi, b + 2, m);
      TotalZero(n, Pow(zeta, m), Sign(m));
    } else {
      EndsAtOne(sin, pi, b, zeta, n, m);
      TotalOne(n, Pow(zeta, m));
    }
  }

  lemma EndsAtOne(sin: real -> real, pi: real, b: nat, zeta: Complex, n: nat, m: nat)
    requires PointOf(sin, pi, b, zeta, n) && (m == 0 || m == 2 * n)
    ensures Pow(zeta, m) == ONE
  {
    if m > 0 {
      HalfTurnOfRoot(sin, pi, b + 1);
      WholeTurn(zeta, n);
      PowSquare(zeta, n);
    }
  }

  // ---------- orthogonality ----------

  /** The cosines at the multiples of an angle. */
  ghost function Wave(n: nat, x: Complex): (f: seq<real>)
    ensures |f| == n + 1 && forall k: nat | k <= n :: f[k] == Pow(x, k).re
  {
    seq(n + 1, k requires 0 <= k => Pow(x, k).re)
  }

  /** 2 cos u cos v = cos(u + v) + cos(u - v), with r and s at the angles u + v and u - v. */
  ghost predicate Meets(u: Complex, v: Complex, r: Complex, s: Complex) {
    2.0 * (u.re * v.re) == r.re + s.re
  }

  lemma MeetAtPower(p: Complex, q: Complex, k: nat)
    ensures Meets(Pow(p, k), Pow(q, k), Pow(Product(p, q), k), Pow(Product(p, Mirror(q)), k))
  {
    PowOfProduct(p, q, k);
    PowOfProduct(p, Mirror(q), k);
    MirrorPow(q, k);
    MeetOnce(Pow(p, k), Pow(q, k));
  }

  lemma MeetOnce(u: Complex, v: Complex)
    ensures Meets(u, v, Product(u, v), Product(u, Mirror(v)))
  {
    Negated(u.im, v.im);
  }

  ghost predicate TwiceIs(a: real, b: real, c: real) { 2.0 * a == b + c }

  /** r, halved at both ends. */
  ghost function Ended(n: nat, k: nat, r: real): real {
    if k == 0 || k == n then 0.5 * r else r
  }

  lemma MeetValues(n: nat, k: nat, u: Complex, v: Complex, r: Complex, s: Complex)
    requires Meets(u, v, r, s)
    ensures TwiceIs(Ended(n, k, u.re) * v.re, Ended(n, k, 1.0) * r.re, Ended(n, k, 1.0) * s.re)
  {
    assert (0.5 * u.re) * v.re == 0.5 * (u.re * v.re);
  }

  lemma EndedItems(n: nat, p: Complex, k: nat)
    requires n > 0 && k <= n
    ensures Item(HalvedEnds(Wave(n, p)), k) == Ended(n, k, Pow(p, k).re)
    ensures Item(HalvedEnds(Ones(n)), k) == Ended(n, k, 1.0)
  {
  }

  /** The term at a power y. */
  ghost function TermAt(f: seq<real>, k: int, y: Complex): real { Item(f, k) * y.re }

  lemma TermIs(f: seq<real>, x: Complex, k: nat, y: Complex)
    requires Pow(x, k) == y
    ensures CosineTerm(f, x, k) == TermAt(f, k, y)
  {
  }

  lemma MeetTerm(n: nat, p: Complex, q: Complex, k: nat)
    requires n > 0 && k <= n
    ensures TwiceIs(CosineTerm(HalvedEnds(Wave(n, p)), q, k), CosineTerm(HalvedEnds(Ones(n)), Product(p, q), k),
                    CosineTerm(HalvedEnds(Ones(n)), Product(p, Mirror(q)), k))
  {
    MeetAtPower(p, q, k);
    EndedItems(n, p, k);
    MeetTermOf(HalvedEnds(Wave(n, p)), HalvedEnds(Ones(n)), n, k, p, q, Product(p, q), Product(p, Mirror(q)));
  }

  lemma MeetTermOf(f: seq<real>, g: seq<real>, n: nat, k: nat, p: Complex, q: Complex, x: Complex, y: Complex)
    requires Meets(Pow(p, k), Pow(q, k), Pow(x, k), Pow(y, k))
    requires Item(f, k) == Ended(n, k, Pow(p, k).re) && Item(g, k) == Ended(n, k, 1.0)
    ensures TwiceIs(CosineTerm(f, q, k), CosineTerm(g, x, k), CosineTerm(g, y, k))
  {
    MeetValuesAt(f, g, n, k, Pow(p, k), Pow(q, k), Pow(x, k), Pow(y, k));
    TermIs(f, q, k, Pow(q, k));
    TermIs(g, x, k, Pow(x, k));
    TermIs(g, y, k, Pow(y, k));
  }

  lemma MeetValuesAt(f: seq<real>, g: seq<real>, n: nat, k: nat, u: Complex, v: Complex, r: Complex, s: Complex)
    requires Meets(u, v, r, s) && Item(f, k) == Ended(n, k, u.re) && Item(g, k) == Ended(n, k, 1.0)
    ensures TwiceIs(TermAt(f, k, v), TermAt(g, k, r), TermAt(g, k, s))
  {
    MeetValues(n, k, u, v, r, s);
  }

  lemma {:induction false} WaveSum(n: nat, p: Complex, q: Complex, t: nat)
    requires n > 0 && t <= n + 1
    ensures TwiceIs(CosineSum(HalvedEnds(Wave(n, p)), q, t), CosineSum(HalvedEnds(Ones(n)), Product(p, q), t),
                    CosineSum(HalvedEnds(Ones(n)), Product(p, Mirror(q)), t))
  {
    if t > 0 {
      var k := t - 1;
      WaveSum(n, p, q, k);
      MeetTerm(n, p, q, k);
      SumNext(HalvedEnds(Wave(n, p)), q, k);
      SumNext(HalvedEnds(Ones(n)), Product(p, q), k);
      SumNext(HalvedEnds(Ones(n)), Product(p, Mirror(q)), k);
    }
  }

  lemma {:induction false} MirrorSum(f: seq<real>, x: Complex, t: nat)
    ensures CosineSum(f, Mirror(x), t) == CosineSum(f, x, t)
  {
    if t > 0 {
      MirrorSum(f, x, t - 1);
      MirrorTerm(f, x, t - 1);
      SumNext(f, x, t - 1);
      SumNext(f, Mirror(x), t - 1);
    }
  }

  lemma MirrorTerm(f: seq<real>, x: Complex, k: nat)
    ensures CosineTerm(f, Mirror(x), k) == CosineTerm(f, x, k)
  {
    MirrorPow(x, k);
    TermIs(f, x, k, Pow(x, k));
    TermIs(f, Mirror(x), k, Mirror(Pow(x, k)));
    assert TermAt(f, k, Mirror(Pow(x, k))) == TermAt(f, k, Pow(x, k));
  }

  lemma MirrorTwice(x: Complex)
    ensures Mirror(Mirror(x)) == x
  {
  }

  /** The point between two points of the circle. */
  lemma PointBetween(zeta: Complex, j: nat, l: nat)
    requires UnitModulus(zeta)
    ensures Product(Pow(zeta, j), Mirror(Pow(zeta, l))) ==
            if l <= j then Pow(zeta, j - l) else Mirror(Pow(zeta, l - j))
  {
    if l <= j {
      PointAbove(zeta, j, l);
    } else {
      PointAbove(zeta, l, j);
      ProductCommutes(Pow(zeta, j), Mirror(Pow(zeta, l)));
      MirrorProduct(Pow(zeta, l), Mirror(Pow(zeta, j)));
      MirrorTwice(Pow(zeta, j));
    }
  }

  lemma PointAbove(zeta: Complex, j: nat, l: nat)
    requires UnitModulus(zeta) && l <= j
    ensures Product(Pow(zeta, j), Mirror(Pow(zeta, l))) == Pow(zeta, j - l)
  {
    PowAdd(zeta, j - l, l);
    UnitPow(zeta, l);
    Cancelled(Pow(zeta, j - l), Pow(zeta, l), Pow(zeta, j));
  }

  /** The square of the length of the wave of index l. */
  ghost function Length(n: nat, l: nat): real {
    if l == 0 || l == n then n as real else 0.5 * n as real
  }

  lemma MeetTotals(zeta: Complex, n: nat, j: nat, l: nat)
    requires UnitModulus(zeta) && n > 0
    ensures TwiceIs(CosineSum(HalvedEnds(Wave(n, Pow(zeta, j))), Pow(zeta, l), n + 1), EndedTotal(n, Pow(zeta, j + l)),
                    EndedTotal(n, Pow(zeta, if l <= j then j - l else l - j)))
  {
    WaveSum(n, Pow(zeta, j), Pow(zeta, l), n + 1);
    PowAdd(zeta, j, l);
    PointBetween(zeta, j, l);
    if l > j {
      MirrorSum(HalvedEnds(Ones(n)), Pow(zeta, l - j), n + 1);
    }
  }

  lemma OrthogonalValues(n: nat, j: nat, l: nat, sum: real, above: real, below: real)
    requires n > 0 && j <= n && l <= n && TwiceIs(sum, above, below)
    requires above == if j + l == 0 || j + l == 2 * n then n as real else 0.0
    requires below == if j == l then n as real else 0.0
    ensures sum == if j == l then Length(n, l) else 0.0
  {
  }

  lemma UnitPoint(sin: real -> real, pi: real, b: nat, zeta: Complex, n: nat)
    requires PointOf(sin, pi, b, zeta, n)
    ensures UnitModulus(zeta)
  {
    HalfTurnOfRoot(sin, pi, b + 1);
  }

  lemma MeetValue(zeta: Complex, n: nat, j: nat, l: nat, d: nat) returns (sum: real, above: real, below: real)
    requires UnitModulus(zeta) && n > 0 && d == if l <= j then j - l else l - j
    ensures sum == CosineSum(HalvedEnds(Wave(n, Pow(zeta, j))), Pow(zeta, l), n + 1)
    ensures above == EndedTotal(n, Pow(zeta, j + l)) && below == EndedTotal(n, Pow(zeta, d)) && TwiceIs(sum, above, below)
  {
    MeetTotals(zeta, n, j, l);
    sum := CosineSum(HalvedEnds(Wave(n, Pow(zeta, j))), Pow(zeta, l), n + 1);
    above, below := EndedTotal(n, Pow(zeta, j + l)), EndedTotal(n, Pow(zeta, d));
  }

  /** What the sum at the point of index m is. */
  ghost predicate TotalFact(zeta: Complex, n: nat, m: nat)
    requires n > 0
  {
    EndedTotal(n, Pow(zeta, m)) == if m == 0 || m == 2 * n then n as real else 0.0
  }

  ghost predicate Primitive(zeta: Complex, n: nat) {
    n > 0 && UnitModulus(zeta) && forall m: nat | m <= 2 * n :: TotalFact(zeta, n, m)
  }

  lemma PointIsPrimitive(sin: real -> real, pi: real, b: nat, zeta: Complex, n: nat)
    requires PointOf(sin, pi, b, zeta, n)
    ensures Primitive(zeta, n)
  {
    UnitPoint(sin, pi, b, zeta, n);
    forall m: nat | m <= 2 * n
      ensures TotalFact(zeta, n, m)
    {
      TotalAt(sin, pi, b, zeta, n, m);
    }
  }

  /** Waves of different indices are orthogonal. */
  lemma WavesOrthogonal(zeta: Complex, n: nat, j: nat, l: nat) returns (sum: real)
    requires Primitive(zeta, n) && j <= n && l <= n
    ensures sum == CosineSum(HalvedEnds(Wave(n, Pow(zeta, j))), Pow(zeta, l), n + 1)
    ensures sum == if j == l then Length(n, l) else 0.0
  {
    var d, above, below := if l <= j then j - l else l - j, 0.0, 0.0;
    sum, above, below := MeetValue(zeta, n, j, l, d);
    assert TotalFact(zeta, n, j + l) && TotalFact(zeta, n, d);
    OrthogonalValues(n, j, l, sum, above, below);
  }

  // ---------- sums of combinations ----------

  ghost predicate CombinedSums(p: real, q: real, r: real, s: real) { s == p + r * q }

  ghost predicate CombinedAt(a: seq<real>, b: seq<real>, r: real, d: seq<real>, k: int) {
    CombinedSums(Item(a, k), Item(b, k), r, Item(d, k))
  }

  ghost predicate Combined(a: seq<real>, b: seq<real>, r: real, d: seq<real>) {
    |a| == |b| == |d| && forall k: nat | k < |d| :: CombinedAt(a, b, r, d, k)
  }

  lemma CombinedEnds(a: seq<real>, b: seq<real>, r: real, d: seq<real>)
    requires Combined(a, b, r, d) && |d| > 1
    ensures Combined(HalvedEnds(a), HalvedEnds(b), r, HalvedEnds(d))
  {
    var h, g, e := HalvedEnds(a), HalvedEnds(b), HalvedEnds(d);
    forall k: nat | k < |e|
      ensures CombinedAt(h, g, r, e, k)
    {
      assert CombinedAt(a, b, r, d, k);
      HalfOfTimes(r, Item(b, k));
    }
  }

  lemma HalfOfTimes(r: real, v: real)
    ensures r * (0.5 * v) == 0.5 * (r * v)
  {
  }

  lemma CombinedTerm(a: seq<real>, b: seq<real>, r: real, d: seq<real>, k: nat, y: Complex)
    requires CombinedAt(a, b, r, d, k)
    ensures TermAt(d, k, y) == TermAt(a, k, y) + r * TermAt(b, k, y)
  {
    CombinedProduct(Item(a, k), Item(b, k), r, y.re);
  }

  lemma CombinedProduct(p: real, q: real, r: real, c: real)
    ensures (p + r * q) * c == p * c + r * (q * c)
  {
  }

  lemma {:induction false} CombinedSum(a: seq<real>, b: seq<real>, r: real, d: seq<real>, x: Complex, t: nat)
    requires Combined(a, b, r, d) && t <= |d|
    ensures CombinedSums(CosineSum(a, x, t), CosineSum(b, x, t), r, CosineSum(d, x, t))
  {
    if t > 0 {
      var k := t - 1;
      CombinedSum(a, b, r, d, x, k);
      assert CombinedAt(a, b, r, d, k);
      CombinedNext(a, b, r, d, x, k, Pow(x, k));
    }
  }

  lemma CombinedNext(a: seq<real>, b: seq<real>, r: real, d: seq<real>, x: Complex, k: nat, y: Complex)
    requires CombinedAt(a, b, r, d, k) && y == Pow(x, k)
    requires CombinedSums(CosineSum(a, x, k), CosineSum(b, x, k), r, CosineSum(d, x, k))
    ensures CombinedSums(CosineSum(a, x, k + 1), CosineSum(b, x, k + 1), r, CosineSum(d, x, k + 1))
  {
    CombinedTerm(a, b, r, d, k, y);
    TermAdds(a, x, k, y);
    TermAdds(b, x, k, y);
    TermAdds(d, x, k, y);
    CombinedAdds(CosineSum(a, x, k), CosineSum(b, x, k), r, TermAt(a, k, y), TermAt(b, k, y));
  }

  lemma TermAdds(f: seq<real>, x: Complex, k: nat, y: Complex)
    requires y == Pow(x, k)
    ensures CosineSum(f, x, k + 1) == CosineSum(f, x, k) + TermAt(f, k, y)
  {
    TermIs(f, x, k, y);
    SumNext(f, x, k);
  }

  lemma CombinedAdds(p: real, q: real, r: real, u: real, v: real)
    ensures p + r * q + (u + r * v) == p + u + r * (q + v)
  {
  }

  // ---------- the round trips ----------

  /** The cosine sums of the first t numbers. */
  ghost function PartSums(f: seq<real>, zeta: Complex, n: nat, t: nat): (c: seq<real>)
    ensures |c| == n + 1 && forall k: nat | k <= n :: c[k] == CosineSum(f, Pow(zeta, k), t)
  {
    seq(n + 1, k requires 0 <= k => CosineSum(f, Pow(zeta, k), t))
  }

  lemma PartSumsGrow(f: seq<real>, zeta: Complex, n: nat, t: nat, a: seq<real>, b: seq<real>, r: real, d: seq<real>)
    requires a == PartSums(f, zeta, n, t) && b == Wave(n, Pow(zeta, t)) && r == Item(f, t) && d == PartSums(f, zeta, n, t + 1)
    ensures Combined(a, b, r, d)
  {
    forall k: nat | k < |d|
      ensures CombinedAt(a, b, r, d, k)
    {
      PartEntryCombined(f, zeta, n, t, k, a, b, r, d);
    }
  }

  lemma PartEntryCombined(f: seq<real>, zeta: Complex, n: nat, t: nat, k: nat, a: seq<real>, b: seq<real>, r: real, d: seq<real>)
    requires a == PartSums(f, zeta, n, t) && b == Wave(n, Pow(zeta, t)) && r == Item(f, t) && d == PartSums(f, zeta, n, t + 1)
    requires k <= n
    ensures CombinedAt(a, b, r, d, k)
  {
    PartEntryGrows(f, zeta, t, k, Item(a, k), Item(b, k), r, Item(d, k));
  }

  lemma PartEntryGrows(f: seq<real>, zeta: Complex, t: nat, k: nat, a: real, b: real, r: real, d: real)
    requires r == Item(f, t)
    requires a == CosineSum(f, Pow(zeta, k), t) && b == Pow(Pow(zeta, t), k).re && d == CosineSum(f, Pow(zeta, k), t + 1)
    ensures CombinedSums(a, b, r, d)
  {
    PowSwap(zeta, k, t);
    GrowsBy(f, Pow(zeta, k), t, Pow(Pow(zeta, k), t), a, r, d);
  }

  lemma GrowsBy(f: seq<real>, x: Complex, t: nat, y: Complex, a: real, r: real, d: real)
    requires a == CosineSum(f, x, t) && y == Pow(x, t) && r == Item(f, t) && d == CosineSum(f, x, t + 1)
    ensures CombinedSums(a, y.re, r, d)
  {
    TermAdds(f, x, t, y);
  }

  ghost predicate NoSums(a: seq<real>) { forall k: nat | k < |a| :: Item(a, k) == 0.0 }

  lemma {:induction false} ZeroSum(a: seq<real>, x: Complex, t: nat)
    requires NoSums(a) && t <= |a|
    ensures CosineSum(a, x, t) == 0.0
  {
    if t > 0 {
      ZeroSum(a, x, t - 1);
      assert Item(a, t - 1) == 0.0;
      ZeroTerm(a, t - 1, Pow(x, t - 1));
      TermAdds(a, x, t - 1, Pow(x, t - 1));
    }
  }

  lemma ZeroTerm(a: seq<real>, k: nat, y: Complex)
    requires Item(a, k) == 0.0
    ensures TermAt(a, k, y) == 0.0
  {
  }

  /** Entry l of the sums of the sums of the first t numbers, with the ends halved in between. */
  ghost function SumsOfSums(f: seq<real>, zeta: Complex, n: nat, t: nat, l: nat): real
    requires n > 0
  {
    CosineSum(HalvedEnds(PartSums(f, zeta, n, t)), Pow(zeta, l), n + 1)
  }

  lemma SumsOfSumsGrow(f: seq<real>, zeta: Complex, n: nat, t: nat, l: nat)
    requires n > 0
    ensures CombinedSums(SumsOfSums(f, zeta, n, t, l), CosineSum(HalvedEnds(Wave(n, Pow(zeta, t))), Pow(zeta, l), n + 1),
                         Item(f, t), SumsOfSums(f, zeta, n, t + 1, l))
  {
    var a, b, r, d := PartSums(f, zeta, n, t), Wave(n, Pow(zeta, t)), Item(f, t), PartSums(f, zeta, n, t + 1);
    PartSumsGrow(f, zeta, n, t, a, b, r, d);
    CombinedEnds(a, b, r, d);
    CombinedSum(HalvedEnds(a), HalvedEnds(b), r, HalvedEnds(d), Pow(zeta, l), n + 1);
  }

  lemma GrowthValues(f: seq<real>, zeta: Complex, n: nat, t: nat, l: nat) returns (before: real, wave: real, sum: real)
    requires n > 0
    ensures before == SumsOfSums(f, zeta, n, t, l) && sum == SumsOfSums(f, zeta, n, t + 1, l)
    ensures wave == CosineSum(HalvedEnds(Wave(n, Pow(zeta, t))), Pow(zeta, l), n + 1)
    ensures CombinedSums(before, wave, Item(f, t), sum)
  {
    SumsOfSumsGrow(f, zeta, n, t, l);
    before, sum := SumsOfSums(f, zeta, n, t, l), SumsOfSums(f, zeta, n, t + 1, l);
    wave := CosineSum(HalvedEnds(Wave(n, Pow(zeta, t))), Pow(zeta, l), n + 1);
  }

  lemma OneMoreNumber(f: seq<real>, zeta: Complex, n: nat, t: nat, l: nat) returns (before: real, wave: real, sum: real)
    requires Primitive(zeta, n) && t <= n && l <= n
    ensures before == SumsOfSums(f, zeta, n, t, l) && sum == SumsOfSums(f, zeta, n, t + 1, l)
    ensures CombinedSums(before, wave, Item(f, t), sum) && wave == if t == l then Length(n, l) else 0.0
  {
    var again := WavesOrthogonal(zeta, n, t, l);
    before, wave, sum := GrowthValues(f, zeta, n, t, l);
  }

  /** Entry l for all t at once. */
  ghost function Chain(f: seq<real>, zeta: Complex, n: nat, l: nat): (v: seq<real>)
    requires n > 0
    ensures |v| == n + 2 && forall t: nat | t <= n + 1 :: v[t] == SumsOfSums(f, zeta, n, t, l)
  {
    seq(n + 2, t requires 0 <= t => SumsOfSums(f, zeta, n, t, l))
  }

  ghost predicate Grown(f: seq<real>, n: nat, l: nat, v: seq<real>, t: nat)
    requires t + 1 < |v|
  {
    CombinedSums(v[t], if t == l then Length(n, l) else 0.0, Item(f, t), v[t + 1])
  }

  lemma ChainGrows(f: seq<real>, zeta: Complex, n: nat, l: nat, v: seq<real>, t: nat)
    requires Primitive(zeta, n) && t <= n && l <= n && v == Chain(f, zeta, n, l)
    ensures Grown(f, n, l, v, t)
  {
    var before, wave, sum := OneMoreNumber(f, zeta, n, t, l);
  }

  lemma ChainStarts(f: seq<real>, zeta: Complex, n: nat, l: nat, v: seq<real>)
    requires n > 0 && v == Chain(f, zeta, n, l)
    ensures v[0] == 0.0
  {
    ZeroSum(HalvedEnds(PartSums(f, zeta, n, 0)), Pow(zeta, l), n + 1);
  }

  /** What has come through of number l when the numbers below t have been summed. */
  ghost predicate Came(f: seq<real>, n: nat, t: nat, l: nat, sum: real) {
    sum == if l < t then Item(f, l) * Length(n, l) else 0.0
  }

  lemma {:induction false} OneComesThrough(f: seq<real>, n: nat, l: nat, v: seq<real>, t: nat)
    requires v != [] && v[0] == 0.0 && t < |v| && forall u: nat | u + 1 < |v| :: Grown(f, n, l, v, u)
    ensures Came(f, n, t, l, v[t])
  {
    if t > 0 {
      OneComesThrough(f, n, l, v, t - 1);
      assert Grown(f, n, l, v, t - 1);
      CameMore(f, n, t - 1, l, v[t - 1], if t - 1 == l then Length(n, l) else 0.0, v[t]);
    }
  }

  lemma CameMore(f: seq<real>, n: nat, t: nat, l: nat, before: real, wave: real, sum: real)
    requires Came(f, n, t, l, before) && CombinedSums(before, wave, Item(f, t), sum)
    requires wave == if t == l then Length(n, l) else 0.0
    ensures Came(f, n, t + 1, l, sum)
  {
    if t != l {
      assert Item(f, t) * wave == 0.0;
    }
  }

  /** The sums of the sums give each number back, times the length of its wave. */
  lemma SumsOfSumsAre(f: seq<real>, zeta: Complex, n: nat, l: nat, v: seq<real>)
    requires Primitive(zeta, n) && l <= n && v == Chain(f, zeta, n, l)
    ensures Came(f, n, n + 1, l, v[n + 1])
  {
    forall t: nat | t + 1 < |v|
      ensures Grown(f, n, l, v, t)
    {
      ChainGrows(f, zeta, n, l, v, t);
    }
    ChainStarts(f, zeta, n, l, v);
    OneComesThrough(f, n, l, v, n + 1);
  }

  ghost predicate AllCame(f: seq<real>, n: nat, e: seq<real>) {
    |e| == n + 1 && forall l: nat | l <= n :: Came(f, n, n + 1, l, e[l])
  }

  lemma DoubleSums(f: seq<real>, zeta: Complex, n: nat, e: seq<real>)
    requires Primitive(zeta, n) && |f| == n + 1 && e == Cosines(HalvedEnds(Cosines(f, zeta, n)), zeta, n)
    ensures AllCame(f, n, e)
  {
    assert PartSums(f, zeta, n, n + 1) == Cosines(f, zeta, n);
    forall l: nat | l <= n
      ensures Came(f, n, n + 1, l, e[l])
    {
      EntryCame(f, zeta, n, l, e, Chain(f, zeta, n, l));
    }
  }

  lemma EntryCame(f: seq<real>, zeta: Complex, n: nat, l: nat, e: seq<real>, v: seq<real>)
    requires Primitive(zeta, n) && l <= n && v == Chain(f, zeta, n, l)
    requires e == Cosines(HalvedEnds(PartSums(f, zeta, n, n + 1)), zeta, n)
    ensures Came(f, n, n + 1, l, e[l])
  {
    SumsOfSumsAre(f, zeta, n, l, v);
    assert e[l] == v[n + 1];
  }

  lemma TwiceOverLength(n: nat, l: nat, r: real)
    requires n > 0
    ensures TwiceOver(n, r * Length(n, l)) == if l == 0 || l == n then 2.0 * r else r
  {
    WholeOver(r, n as real);
    if l != 0 && l != n {
      assert r * (0.5 * n as real) == 0.5 * (r * n as real);
    }
  }

  lemma WholeOver(r: real, m: real)
    requires m > 0.0
    ensures r * m * 2.0 / m == 2.0 * r && 0.5 * (r * m) * 2.0 / m == r
  {
  }

  lemma CameBack(f: seq<real>, n: nat, l: nat, v: real)
    requires n > 0 && l <= n && Came(f, n, n + 1, l, v)
    ensures TwiceOver(n, v) == if l == 0 || l == n then 2.0 * Item(f, l) else Item(f, l)
  {
    TwiceOverLength(n, l, Item(f, l));
  }

  lemma ScaledBack(f: seq<real>, n: nat, e: seq<real>)
    requires n > 0 && |f| == n + 1 && AllCame(f, n, e)
    ensures HalvedEnds(TwiceOverAll(n, e)) == f
  {
    forall l: nat | l <= n
      ensures HalvedEnds(TwiceOverAll(n, e))[l] == f[l]
    {
      CameBack(f, n, l, e[l]);
    }
  }

  /** Forward and then inverse: the data come back. */
  lemma InverseOfForward(sin: real -> real, pi: real, b: nat, zeta: Complex, n: nat, f: seq<real>)
    requires PointOf(sin, pi, b, zeta, n) && |f| == n + 1
    ensures InverseCosines(Cosines(f, zeta, n), zeta, n) == f
  {
    PointIsPrimitive(sin, pi, b, zeta, n);
    var e := Cosines(HalvedEnds(Cosines(f, zeta, n)), zeta, n);
    DoubleSums(f, zeta, n, e);
    ScaledBack(f, n, e);
  }

  ghost function Zeros(n: nat): (f: seq<real>)
    ensures |f| == n && forall j | 0 <= j < n :: f[j] == 0.0
  {
    seq(n, j => 0.0)
  }

  lemma ScaledIsCombined(n: nat, c: seq<real>)
    requires n > 0
    ensures Combined(Zeros(|c|), c, 2.0 / n as real, TwiceOverAll(n, c))
  {
    var a, r, d := Zeros(|c|), 2.0 / n as real, TwiceOverAll(n, c);
    forall k: nat | k < |d|
      ensures CombinedAt(a, c, r, d, k)
    {
      TwiceOverIs(n, c[k]);
    }
  }

  lemma TwiceOverIs(n: nat, r: real)
    requires n > 0
    ensures TwiceOver(n, r) == 2.0 / n as real * r
  {
  }

  /** Scaling commutes with halving the ends and summing. */
  lemma ScaledSum(n: nat, c: seq<real>, x: Complex)
    requires n > 0 && |c| > 1
    ensures CosineSum(HalvedEnds(TwiceOverAll(n, c)), x, |c|) == TwiceOver(n, CosineSum(HalvedEnds(c), x, |c|))
  {
    var a, r, d := Zeros(|c|), 2.0 / n as real, TwiceOverAll(n, c);
    ScaledIsCombined(n, c);
    CombinedEnds(a, c, r, d);
    CombinedSum(HalvedEnds(a), HalvedEnds(c), r, HalvedEnds(d), x, |c|);
    ZeroSum(HalvedEnds(a), x, |c|);
    TwiceOverIs(n, CosineSum(HalvedEnds(c), x, |c|));
  }

  lemma ScaledEntries(n: nat, c: seq<real>, zeta: Complex, e: seq<real>, d: seq<real>)
    requires n > 0 && |c| == n + 1 && e == Cosines(HalvedEnds(c), zeta, n) && d == Cosines(HalvedEnds(TwiceOverAll(n, c)), zeta, n)
    ensures d == TwiceOverAll(n, e)
  {
    forall l: nat | l <= n
      ensures d[l] == TwiceOver(n, e[l])
    {
      ScaledSum(n, c, Pow(zeta, l));
    }
  }

  lemma ScaledForth(f: seq<real>, n: nat, e: seq<real>)
    requires n > 0 && |f| == n + 1 && AllCame(HalvedEnds(f), n, e)
    ensures TwiceOverAll(n, e) == f
  {
    forall l: nat | l <= n
      ensures TwiceOverAll(n, e)[l] == f[l]
    {
      CameBack(HalvedEnds(f), n, l, e[l]);
    }
  }

  /** Inverse and then forward: the data come back. */
  lemma ForwardOfInverse(sin: real -> real, pi: real, b: nat, zeta: Complex, n: nat, f: seq<real>)
    requires PointOf(sin, pi, b, zeta, n) && |f| == n + 1
    ensures Cosines(InverseCosines(f, zeta, n), zeta, n) == f
  {
    PointIsPrimitive(sin, pi, b, zeta, n);
    var g := HalvedEnds(f);
    var c := Cosines(g, zeta, n);
    var e := Cosines(HalvedEnds(c), zeta, n);
    DoubleSums(g, zeta, n, e);
    ScaledEntries(n, c, zeta, e, Cosines(HalvedEnds(TwiceOverAll(n, c)), zeta, n));
    ScaledForth(f, n, e);
  }
}
