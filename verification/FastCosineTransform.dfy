/** The fast cosine transform in place: what it does before and after the Fourier transform of half
    the length, and that the whole computes the cosine sums. */
module FastCosineTransform {
  import opened Powers
  import opened Complexes
  import opened FourierValues
  import opened BitReversal
  import opened Butterflies
  import opened CosineSums
  import opened RealTransforms

  datatype TransformType = Forward | Inverse

  // ---------- the sum with alternating signs ----------

  /** f[first] + f[first + 2] + ..., t numbers */
  ghost function EverySecond(f: seq<real>, first: nat, t: nat): real {
    if t == 0 then 0.0 else EverySecond(f, first, t - 1) + Item(f, first + 2 * (t - 1))
  }

  ghost predicate FlipsAt(x: Complex, y: Complex) { Product(x, y) == Opposite(y) }

  /** What matters about the point -1. */
  ghost predicate Flips(x: Complex) {
    forall y: Complex :: FlipsAt(x, y)
  }

  lemma MinusOneFlips(x: Complex)
    requires x == Complex(-1.0, 0.0)
    ensures Flips(x)
  {
    forall y: Complex
      ensures FlipsAt(x, y)
    {
      TimesMinusOne(y);
      ProductCommutes(x, y);
    }
  }

  ghost function Sign(k: nat): real { Alternated(k, 1.0) }

  ghost function Alternated(k: nat, r: real): real { if k % 2 == 0 then r else -r }

  lemma FlippedPower(x: Complex, k: nat)
    requires Flips(x) && k > 0
    ensures Pow(x, k) == Opposite(Pow(x, k - 1))
  {
    assert FlipsAt(x, Pow(x, k - 1));
    PowNext(x, k - 1);
  }

  lemma FlippedSign(y: Complex, z: Complex, k: nat)
    requires k > 0 && y == Complex(Sign(k - 1), 0.0) && z == Opposite(y)
    ensures z == Complex(Sign(k), 0.0)
  {
  }

  lemma {:induction false} Signs(x: Complex, k: nat)
    requires Flips(x)
    ensures Pow(x, k) == Complex(Sign(k), 0.0)
  {
    if k > 0 {
      Signs(x, k - 1);
      FlippedPower(x, k);
      FlippedSign(Pow(x, k - 1), Pow(x, k), k);
    }
  }

  lemma {:induction false} AlternatingIsCosine(f: seq<real>, x: Complex, t: nat)
    requires Flips(x)
    ensures CosineSum(f, x, 2 * t) == EverySecond(f, 0, t) - EverySecond(f, 1, t)
    ensures CosineSum(f, x, 2 * t + 1) == EverySecond(f, 0, t + 1) - EverySecond(f, 1, t)
  {
    if t > 0 {
      AlternatingIsCosine(f, x, t - 1);
      SignedNext(f, x, 2 * t - 1);
    }
    SignedNext(f, x, 2 * t);
  }

  lemma SignedNext(f: seq<real>, x: Complex, k: nat)
    requires Flips(x)
    ensures CosineSum(f, x, k + 1) == CosineSum(f, x, k) + (if k % 2 == 0 then Item(f, k) else -Item(f, k))
  {
    Signs(x, k);
    CosineNext(f, x, k, Sign(k));
  }

  lemma CosineNext(f: seq<real>, x: Complex, t: nat, c: real)
    requires Pow(x, t).re == c
    ensures CosineSum(f, x, t + 1) == CosineSum(f, x, t) + Item(f, t) * c
  {
  }

  method AlternatingSum(n: nat, data: array<real>) returns (sum: real)
    requires n % 2 == 0 && data.Length == n + 1
    ensures sum == EverySecond(data[..], 0, n / 2 + 1) - EverySecond(data[..], 1, n / 2)
  {
    sum := 0.0;
    var j := 0;
    ghost var t: nat := 0;
    while j <= n
      invariant j == 2 * t && j <= n + 2 && sum == EverySecond(data[..], 0, t)
    {
      sum := sum + data[j];
      j := j + 2;
      t := t + 1;
    }
    ghost var even := sum;
    j := 1;
    t := 0;
    while j <= n
      invariant j == 2 * t + 1 && j <= n + 1 && sum == even - EverySecond(data[..], 1, t)
    {
      sum := sum - data[j];
      j := j + 2;
      t := t + 1;
    }
  }

  // ---------- folding ----------

  ghost predicate FoldEntry(f: seq<real>, d: seq<real>, zeta: Complex, n: nat, j: nat, i: nat)
    requires |d| == n + 1 && i < n
  {
    d[i] == if i < j || i > n - j then FoldedAt(f, zeta, n, i) else Item(f, i)
  }

  /** The entries below j and above n - j are folded. */
  ghost predicate FoldedFor(f: seq<real>, d: seq<real>, zeta: Complex, n: nat, j: nat) {
    |f| == |d| == n + 1 && d[n] == f[n] && forall i: nat | i < n :: FoldEntry(f, d, zeta, n, j, i)
  }

  /** The running sum when the turns before j are done. */
  ghost function PairedSum(f: seq<real>, zeta: Complex, n: nat, j: nat): real
    requires 0 < j <= n
  {
    CosineSum(f, zeta, j) + CosineSum(f, zeta, n) - CosineSum(f, zeta, n - j + 1)
  }

  lemma PairedNext(f: seq<real>, zeta: Complex, n: nat, j: nat)
    requires 0 < j < n
    ensures PairedSum(f, zeta, n, j + 1) == PairedSum(f, zeta, n, j) + CosineTerm(f, zeta, j) + CosineTerm(f, zeta, n - j)
  {
    assert n - (j + 1) + 1 == n - j;
    SumNext(f, zeta, j);
    SumNext(f, zeta, n - j);
  }

  lemma SumNext(f: seq<real>, x: Complex, t: nat)
    ensures CosineSum(f, x, t + 1) == CosineSum(f, x, t) + CosineTerm(f, x, t)
  {
  }

  lemma PairedEnd(f: seq<real>, zeta: Complex, n: nat, m: nat)
    requires HalfTurnAt(zeta, n) && n == 2 * m && m > 0
    ensures PairedSum(f, zeta, n, m + 1) == CosineSum(f, zeta, n)
  {
    BackFromMinusOne(zeta, n, m);
    SumNext(f, zeta, m);
    NoTerm(Item(f, m), Pow(zeta, m).re);
  }

  lemma NoTerm(p: real, c: real)
    requires c == -c
    ensures p * c == 0.0
  {
  }

  lemma PairTerms(f: seq<real>, zeta: Complex, n: nat, j: nat)
    requires HalfTurnAt(zeta, n) && 0 < j < n
    ensures CosineTerm(f, zeta, j) + CosineTerm(f, zeta, n - j) == Pow(zeta, j).re * (Item(f, j) - Item(f, n - j))
  {
    BackFromMinusOne(zeta, n, j);
    OppositeTerms(Item(f, j), Item(f, n - j), Pow(zeta, j).re);
  }

  lemma OppositeTerms(p: real, q: real, c: real)
    ensures p * c + q * -c == c * (p - q)
  {
  }

  /** One turn of the folding loop, with (wr, wi) at angle j pi / n. */
  method FoldPair(n: nat, data: array<real>, j: nat, wr: real, wi: real, sum: real, ghost f: seq<real>, ghost zeta: Complex)
    returns (next: real)
    requires data.Length == n + 1 && 0 < j && 2 * j <= n && HalfTurnAt(zeta, n) && Complex(wr, wi) == Pow(zeta, j)
    requires FoldedFor(f, data[..], zeta, n, j) && sum == PairedSum(f, zeta, n, j)
    modifies data
    ensures FoldedFor(f, data[..], zeta, n, j + 1) && next == PairedSum(f, zeta, n, j + 1)
  {
    ghost var d := data[..];
    assert FoldEntry(f, d, zeta, n, j, j) && FoldEntry(f, d, zeta, n, j, n - j);
    FoldedPair(f, zeta, n, j);
    PairTerms(f, zeta, n, j);
    PairedNext(f, zeta, n, j);
    var y1 := 0.5 * (data[j] + data[n - j]);
    var y2 := data[j] - data[n - j];
    data[j] := y1 - wi * y2;
    data[n - j] := y1 + wi * y2;
    next := sum + wr * y2;
    FoldedMore(f, d, data[..], zeta, n, j);
  }

  lemma FoldedMore(f: seq<real>, d: seq<real>, d': seq<real>, zeta: Complex, n: nat, j: nat)
    requires 0 < j && 2 * j <= n && FoldedFor(f, d, zeta, n, j) && |d'| == n + 1
    requires d'[j] == FoldedAt(f, zeta, n, j) && d'[n - j] == FoldedAt(f, zeta, n, n - j)
    requires forall i | 0 <= i <= n && i != j && i != n - j :: d'[i] == d[i]
    ensures FoldedFor(f, d', zeta, n, j + 1)
  {
    var next := j + 1;
    forall i: nat | i < n
      ensures FoldEntry(f, d', zeta, n, next, i)
    {
      assert FoldEntry(f, d, zeta, n, j, i);
    }
  }

  lemma AngleIs(pi: real, n: nat, s: nat)
    requires 2 * n == Power2(s) && n > 0
    ensures pi / n as real == 2.0 * pi / Power2(s) as real
  {
    assert Power2(s) as real == 2.0 * n as real;
  }

  /** The loop before the reordering; its sum is the cosine sum of index 1. */
  method Fold(n: nat, data: array<real>, sin: real -> real, pi: real, ghost b: nat) returns (sum: real)
    requires n == 2 * Power2(b) && data.Length == n + 1 && ExactSine(sin, pi)
    modifies data
    ensures data[n] == old(data[n])
    ensures Folded(old(data[..]), data[..], Root(sin, pi, b + 2), n)
    ensures sum == CosineSum(old(data[..]), Root(sin, pi, b + 2), n)
  {
    ghost var f, zeta := data[..], Root(sin, pi, b + 2);
    HalfTurnOfRoot(sin, pi, b + 1);
    AngleIs(pi, n, b + 2);
    var theta := pi / n as real;
    var wpr, wpi := RootStep(sin, pi, theta, b + 2);
    var m := n / 2;
    var wr, wi := 1.0, 0.0;
    sum := data[0];
    FirstTerm(f, zeta);
    var j := 1;
    while j <= m
      invariant 1 <= j <= m + 1
      invariant Complex(wr, wi) == Pow(zeta, j - 1)
      invariant FoldedFor(f, data[..], zeta, n, j) && sum == PairedSum(f, zeta, n, j)
    {
      wr, wi := TurnTwiddle(wr, wi, wpr, wpi);
      PowNext(zeta, j - 1);
      sum := FoldPair(n, data, j, wr, wi, sum, f, zeta);
      j := j + 1;
    }
    PairedEnd(f, zeta, n, m);
    AllFolded(f, data[..], zeta, n, m);
  }

  lemma FirstTerm(f: seq<real>, x: Complex)
    ensures CosineSum(f, x, 1) == Item(f, 0)
  {
    CosineNext(f, x, 0, 1.0);
  }

  lemma AllFolded(f: seq<real>, d: seq<real>, zeta: Complex, n: nat, m: nat)
    requires n == 2 * m && FoldedFor(f, d, zeta, n, m + 1)
    ensures Folded(f, d, zeta, n)
  {
    var next := m + 1;
    forall i: nat | i < n
      ensures d[i] == FoldedAt(f, zeta, n, i)
    {
      assert FoldEntry(f, d, zeta, n, next, i);
    }
  }

  lemma HalfTurnOfRoot(sin: real -> real, pi: real, s: nat)
    requires ExactSine(sin, pi)
    ensures HalfTurnAt(Root(sin, pi, s + 1), Power2(s))
    ensures Product(Root(sin, pi, s + 1), Root(sin, pi, s + 1)) == Root(sin, pi, s)
  {
    HalfTurn(sin, pi, s);
    RootIsUnit(sin, pi, s);
    assert Halves(sin, pi, s);
  }

  // ---------- unfolding ----------

  /** Slot p of the unfolding before turn i: the transform of the reals where it is done, the packed
      transform where it is not. */
  ghost predicate UnfoldedSlot(d: seq<real>, g: seq<real>, b: nat, root: Complex, i: nat, p: nat)
    requires Slots(d, b) && Slots(g, b) && 0 < p < Power2(b)
  {
    Slot(d, p) == if p < i || p > Power2(b) - i then Whole(g, 2 * Power2(b), Pow(root, p))
                  else Transform(Numbers(g, b), Product(root, root), p)
  }

  ghost predicate UnfoldedFor(d: seq<real>, g: seq<real>, b: nat, root: Complex, i: nat) {
    Slots(d, b) && Slots(g, b) && forall p: nat | 0 < p < Power2(b) :: UnfoldedSlot(d, g, b, root, i, p)
  }

  lemma MinusProduct(e: Complex, w: Complex, o: Complex, p: real, q: real)
    requires p == w.re * o.re - w.im * o.im && q == w.re * o.im + w.im * o.re
    ensures Plus(e, Product(w, o)) == Complex(e.re + p, e.im + q)
    ensures Mirror(Minus(e, Product(w, o))) == Complex(e.re - p, -e.im + q)
  {
    ProductIs(w.re, w.im, o.re, o.im);
    assert Product(w, o) == Complex(p, q);
  }

  /** The assignments of one turn, on the slots i and n / 2 - i, which may be the same. */
  method UnfoldSlots(n: nat, data: array<real>, i: nat, wr: real, wi: real)
    requires data.Length == n + 1 && n % 2 == 0 && 0 < i && 4 * i <= n
    modifies data
    ensures var a, c, w := Slot(old(data[..]), i), Slot(old(data[..]), n / 2 - i), Complex(wr, wi);
      var e, o := Complex(0.5 * (a.re + c.re), 0.5 * (a.im - c.im)), Complex(0.5 * (a.im + c.im), 0.5 * (c.re - a.re));
      && (2 * i < n / 2 ==> Slot(data[..], i) == Plus(e, Product(w, o)))
      && Slot(data[..], n / 2 - i) == Mirror(Minus(e, Product(w, o)))
    ensures forall x: nat | x <= n && x / 2 != i && x / 2 != n / 2 - i :: data[x] == old(data[x])
  {
    var i1 := 2 * i;
    var i2 := i1 + 1;
    var i3 := n - i2 + 1;
    var i4 := i3 + 1;
    assert i3 == 2 * (n / 2 - i);
    var h1r := 0.5 * (data[i1] + data[i3]);
    var h1i := 0.5 * (data[i2] - data[i4]);
    var h2r := 0.5 * (data[i2] + data[i4]);
    var h2i := 0.5 * (data[i3] - data[i1]);
    MinusProduct(Complex(h1r, h1i), Complex(wr, wi), Complex(h2r, h2i), wr * h2r - wi * h2i, wr * h2i + wi * h2r);
    data[i1] := h1r + wr * h2r - wi * h2i;
    data[i2] := h1i + wr * h2i + wi * h2r;
    data[i3] := h1r - wr * h2r + wi * h2i;
    data[i4] := -h1i + wr * h2i + wi * h2r;
  }

  /** One turn of the unfolding loop. */
  method UnfoldTurn(n: nat, data: array<real>, i: nat, wr: real, wi: real, ghost g: seq<real>, ghost b: nat, ghost root: Complex)
    requires n == 2 * Power2(b) && data.Length == n + 1 && 0 < i && 4 * i <= n && HalfTurnAt(root, Power2(b))
    requires Complex(wr, wi) == Pow(root, i) && UnfoldedFor(data[..], g, b, root, i)
    modifies data
    ensures UnfoldedFor(data[..], g, b, root, i + 1)
    ensures data[0] == old(data[0]) && data[n] == old(data[n])
  {
    ghost var d, c: nat := data[..], Power2(b) - i;
    assert UnfoldedSlot(d, g, b, root, i, i) && UnfoldedSlot(d, g, b, root, i, c);
    UnfoldedPair(g, b, root, i);
    UnfoldSlots(n, data, i, wr, wi);
    UnfoldedMore(d, data[..], g, b, root, i, c);
  }

  lemma UnfoldedMore(d: seq<real>, d': seq<real>, g: seq<real>, b: nat, root: Complex, i: nat, c: nat)
    requires UnfoldedFor(d, g, b, root, i) && Slots(d', b) && 0 < i <= c < Power2(b) && c == Power2(b) - i
    requires i < c ==> Slot(d', i) == Whole(g, 2 * Power2(b), Pow(root, i))
    requires Slot(d', c) == Whole(g, 2 * Power2(b), Pow(root, c))
    requires forall x: nat | x < |d| && x / 2 != i && x / 2 != c :: d'[x] == d[x]
    ensures UnfoldedFor(d', g, b, root, i + 1)
  {
    var next := i + 1;
    forall p: nat | 0 < p < Power2(b)
      ensures UnfoldedSlot(d', g, b, root, next, p)
    {
      assert UnfoldedSlot(d, g, b, root, i, p);
      if p != i && p != c {
        assert (2 * p) / 2 == p && (2 * p + 1) / 2 == p;
        assert d'[2 * p] == d[2 * p] && d'[2 * p + 1] == d[2 * p + 1];
      }
    }
  }

  lemma StartsPacked(d: seq<real>, d': seq<real>, g: seq<real>, b: nat, root: Complex)
    requires Slots(d, b) && Slots(g, b) && Slots(d', b)
    requires forall k: nat | k < Power2(b) :: Slot(d, k) == Transform(Numbers(g, b), Product(root, root), k)
    requires forall x | 0 < x < |d| :: d'[x] == d[x]
    ensures UnfoldedFor(d', g, b, root, 1)
  {
    forall p: nat | 0 < p < Power2(b)
      ensures UnfoldedSlot(d', g, b, root, 1, p)
    {
      assert Slot(d', p) == Slot(d, p);
    }
  }

  /** Entry 0: the sum of all reals. */
  ghost predicate IsFirst(v: real, g: seq<real>, b: nat, root: Complex) {
    v == CosineSum(g, Pow(root, 0), 2 * Power2(b))
  }

  /** The transform of the n reals g, in the slots: for index 0 its real part only. */
  ghost predicate HoldsWhole(d: seq<real>, g: seq<real>, b: nat, root: Complex) {
    && Slots(d, b) && Slots(g, b) && IsFirst(d[0], g, b, root)
    && forall k: nat | 0 < k < Power2(b) :: Slot(d, k) == Whole(g, 2 * Power2(b), Pow(root, k))
  }

  lemma AllUnfolded(d: seq<real>, g: seq<real>, b: nat, root: Complex, i: nat)
    requires UnfoldedFor(d, g, b, root, i) && 2 * i > Power2(b)
    requires IsFirst(d[0], g, b, root)
    ensures HoldsWhole(d, g, b, root)
  {
    forall k: nat | 0 < k < Power2(b)
      ensures Slot(d, k) == Whole(g, 2 * Power2(b), Pow(root, k))
    {
      assert UnfoldedSlot(d, g, b, root, i, k);
    }
  }

  lemma SumOfAll(g: seq<real>, b: nat, root: Complex, square: Complex, z: Complex)
    requires Slots(g, b) && z == Transform(Numbers(g, b), square, 0)
    ensures IsFirst(z.re + z.im, g, b, root)
  {
    OneIsNeutral();
    WholeAtOne(g, b, Power2(b), ONE);
    assert AddsUp(Whole(g, 2 * Power2(b), ONE), z);
  }

  /** The turns of the loop, with the recurrence for the powers of the root. */
  method UnfoldTurns(n: nat, data: array<real>, wpr: real, wpi: real, ghost g: seq<real>, ghost b: nat, ghost root: Complex)
    requires n == 2 * Power2(b) && data.Length == n + 1 && HalfTurnAt(root, Power2(b))
    requires Complex(wpr + 1.0, wpi) == root && UnfoldedFor(data[..], g, b, root, 1)
    modifies data
    ensures UnfoldedFor(data[..], g, b, root, n / 4 + 1)
    ensures data[0] == old(data[0]) && data[n] == old(data[n])
  {
    var wr, wi := wpr + 1.0, wpi;
    OnePower(root);
    var m := n / 4;
    var i := 1;
    while i <= m
      invariant 1 <= i <= m + 1 && Complex(wr, wi) == Pow(root, i)
      invariant UnfoldedFor(data[..], g, b, root, i)
      invariant data[0] == old(data[0]) && data[n] == old(data[n])
    {
      UnfoldTurn(n, data, i, wr, wi, g, b, root);
      wr, wi := TurnTwiddle(wr, wi, wpr, wpi);
      PowNext(root, i);
      i := i + 1;
    }
  }

  /** The statement before the loop: entry 0. */
  method AddFirst(n: nat, data: array<real>, ghost g: seq<real>, ghost b: nat, ghost root: Complex)
    requires n == 2 * Power2(b) && data.Length == n + 1 && Slots(g, b)
    requires forall k: nat | k < Power2(b) :: Slot(data[..], k) == Transform(Numbers(g, b), Product(root, root), k)
    modifies data
    ensures UnfoldedFor(data[..], g, b, root, 1) && IsFirst(data[0], g, b, root) && data[n] == old(data[n])
  {
    ghost var d := data[..];
    SumOfAll(g, b, root, Product(root, root), Slot(d, 0));
    data[0] := data[0] + data[1];
    StartsPacked(d, data[..], g, b, root);
  }

  /** The loop after the butterfly stages. */
  method Unfold(n: nat, data: array<real>, sin: real -> real, pi: real, ghost g: seq<real>, ghost b: nat)
    requires n == 2 * Power2(b) && data.Length == n + 1 && ExactSine(sin, pi) && Slots(g, b)
    requires forall k: nat | k < Power2(b) :: Slot(data[..], k) == Transform(Numbers(g, b), Root(sin, pi, b), k)
    modifies data
    ensures HoldsWhole(data[..], g, b, Root(sin, pi, b + 1)) && data[n] == old(data[n])
  {
    ghost var root := Root(sin, pi, b + 1);
    HalfTurnOfRoot(sin, pi, b);
    AngleIs(pi, n / 2, b + 1);
    var theta := pi / (n / 2) as real;
    var wpr, wpi := RootStep(sin, pi, theta, b + 1);
    AddFirst(n, data, g, b, root);
    UnfoldTurns(n, data, wpr, wpi, g, b, root);
    AllUnfolded(data[..], g, b, root, n / 4 + 1);
  }

  lemma OnePower(x: Complex)
    ensures Pow(x, 1) == x
  {
    PowNext(x, 0);
    ProductOne(x);
  }

  // ---------- running sums ----------

  lemma SquarePow(x: Complex, y: Complex, k: nat)
    requires Flips(x) && y == Product(x, x)
    ensures Pow(y, k) == ONE
  {
    PowSquare(x, k);
    Signs(x, 2 * k);
  }

  lemma OnePow(k: nat)
    ensures Pow(ONE, k) == ONE
  {
    MinusOneFlips(Complex(-1.0, 0.0));
    SquarePow(Complex(-1.0, 0.0), ONE, k);
  }

  lemma PowSwap(x: Complex, k: nat, n: nat)
    ensures Pow(Pow(x, k), n) == Pow(Pow(x, n), k)
  {
    var m := k * n;
    assert m == n * k;
    PowOfPow(x, k, Pow(x, k), n, m);
    PowOfPow(x, n, Pow(x, n), k, m);
  }

  /** The points of even index, and their neighbours. */
  lemma EvenPoint(zeta: Complex, root: Complex, n: nat, k: nat)
    requires HalfTurnAt(zeta, n) && root == Product(zeta, zeta)
    ensures UnitModulus(Pow(root, k)) && Pow(Pow(root, k), n) == ONE
    ensures Pow(root, k) == Pow(zeta, 2 * k) && Product(Pow(root, k), zeta) == Pow(zeta, 2 * k + 1)
  {
    NormProduct(zeta, zeta);
    UnitPow(root, k);
    WholeTurn(zeta, n);
    PowSwap(root, k, n);
    OnePow(k);
    PowSquare(zeta, k);
    PowNext(zeta, 2 * k);
    ProductCommutes(zeta, Pow(zeta, 2 * k));
  }

  lemma PointBefore(zeta: Complex, root: Complex, k: nat)
    requires UnitModulus(zeta) && root == Product(zeta, zeta) && k > 0
    ensures Product(Pow(root, k), Mirror(zeta)) == Pow(zeta, 2 * k - 1)
  {
    var y := Pow(zeta, 2 * k - 1);
    PowSquare(zeta, k);
    PowNext(zeta, 2 * k - 1);
    ProductCommutes(zeta, y);
    ProductAssociative(y, zeta, Mirror(zeta));
    MirrorInverts(zeta);
    ProductOne(y);
  }

  /** The cosine sums of the first n numbers. */
  ghost function SumsBelow(f: seq<real>, zeta: Complex, n: nat): (c: seq<real>)
    ensures |c| == n && forall k: nat | k < n :: c[k] == CosineSum(f, Pow(zeta, k), n)
  {
    seq(n, k requires 0 <= k => CosineSum(f, Pow(zeta, k), n))
  }

  ghost predicate SummedPair(d: seq<real>, was: seq<real>, c: seq<real>, b: nat, k: nat, p: nat)
    requires Slots(d, b) && Slots(was, b) && |c| == 2 * Power2(b) && p < Power2(b)
  {
    d[2 * p] == was[2 * p] && d[2 * p + 1] == if p < k then c[2 * p + 1] else was[2 * p + 1]
  }

  /** The odd entries below 2 k hold the numbers of c. */
  ghost predicate SummedFor(d: seq<real>, was: seq<real>, c: seq<real>, b: nat, k: nat) {
    && Slots(d, b) && Slots(was, b) && |c| == 2 * Power2(b) && d[2 * Power2(b)] == was[2 * Power2(b)]
    && forall p: nat | p < Power2(b) :: SummedPair(d, was, c, b, k, p)
  }

  lemma SummedMore(d: seq<real>, was: seq<real>, c: seq<real>, b: nat, k: nat, sum: real)
    requires SummedFor(d, was, c, b, k) && k < Power2(b) && sum == c[2 * k + 1]
    ensures SummedFor(d[2 * k + 1 := sum], was, c, b, k + 1)
  {
    var d', next := d[2 * k + 1 := sum], k + 1;
    forall p: nat | p < Power2(b)
      ensures SummedPair(d', was, c, b, next, p)
    {
      assert SummedPair(d, was, c, b, k, p);
    }
  }

  /** The odd entry behind 2 k leads from one odd number of c to the next. */
  ghost predicate OddStep(d: seq<real>, c: seq<real>, b: nat, k: nat)
    requires Slots(d, b) && |c| == 2 * Power2(b) && 0 < k < Power2(b)
  {
    c[2 * k - 1] + d[2 * k + 1] == c[2 * k + 1]
  }

  ghost predicate OddSteps(d: seq<real>, c: seq<real>, b: nat) {
    Slots(d, b) && |c| == 2 * Power2(b) && forall k: nat | 0 < k < Power2(b) :: OddStep(d, c, b, k)
  }

  lemma NextOddSum(d: seq<real>, f: seq<real>, g: seq<real>, zeta: Complex, root: Complex, b: nat, k: nat, c: seq<real>)
    requires HalfTurnAt(zeta, 2 * Power2(b)) && root == Product(zeta, zeta) && Folded(f, g, zeta, 2 * Power2(b))
    requires HoldsWhole(d, g, b, root) && 0 < k < Power2(b) && c == SumsBelow(f, zeta, 2 * Power2(b))
    ensures OddStep(d, c, b, k)
  {
    var n := 2 * Power2(b);
    EvenPoint(zeta, root, n, k);
    PointBefore(zeta, root, k);
    FoldedSines(f, g, zeta, n, Pow(root, k));
    assert Slot(d, k) == Whole(g, n, Pow(root, k));
  }

  /** The imaginary parts in the odd entries are what leads from one odd cosine sum to the next. */
  lemma ImaginaryPartsStep(d: seq<real>, f: seq<real>, g: seq<real>, zeta: Complex, b: nat, c: seq<real>)
    requires HalfTurnAt(zeta, 2 * Power2(b)) && Folded(f, g, zeta, 2 * Power2(b))
    requires HoldsWhole(d, g, b, Product(zeta, zeta)) && c == SumsBelow(f, zeta, 2 * Power2(b))
    ensures OddSteps(d, c, b) && c[1] == CosineSum(f, zeta, 2 * Power2(b))
  {
    OnePower(zeta);
    forall k: nat | 0 < k < Power2(b)
      ensures OddStep(d, c, b, k)
    {
      NextOddSum(d, f, g, zeta, Product(zeta, zeta), b, k, c);
    }
  }

  /** The loop that sums up the odd entries. */
  method SumOddEntries(n: nat, data: array<real>, sum0: real, ghost c: seq<real>, ghost b: nat)
    requires n == 2 * Power2(b) && data.Length == n + 1 && OddSteps(data[..], c, b) && sum0 == c[1]
    modifies data
    ensures SummedFor(data[..], old(data[..]), c, b, Power2(b))
  {
    ghost var was := data[..];
    var sum := sum0;
    ghost var k: nat := 1;
    SummedNone(was, c, b);
    SummedMore(was, was, c, b, 0, sum);
    data[1] := sum;
    var j := 3;
    while j <= n
      invariant j == 2 * k + 1 && 1 <= k <= Power2(b)
      invariant SummedFor(data[..], was, c, b, k) && sum == c[2 * k - 1]
    {
      assert OddStep(was, c, b, k) && SummedPair(data[..], was, c, b, k, k);
      sum := sum + data[j];
      SummedMore(data[..], was, c, b, k, sum);
      data[j] := sum;
      j := j + 2;
      k := k + 1;
    }
  }

  lemma SummedNone(was: seq<real>, c: seq<real>, b: nat)
    requires Slots(was, b) && |c| == 2 * Power2(b)
    ensures SummedFor(was, was, c, b, 0)
  {
    forall p: nat | p < Power2(b)
      ensures SummedPair(was, was, c, b, 0, p)
    {
    }
  }

  /** The running sums, on the transform of the folded numbers. */
  method RunningSums(n: nat, data: array<real>, sum: real, ghost f: seq<real>, ghost g: seq<real>, ghost zeta: Complex,
      ghost b: nat)
    requires n == 2 * Power2(b) && data.Length == n + 1 && HalfTurnAt(zeta, n) && Folded(f, g, zeta, n)
    requires HoldsWhole(data[..], g, b, Product(zeta, zeta)) && sum == CosineSum(f, zeta, n)
    modifies data
    ensures SummedFor(data[..], old(data[..]), SumsBelow(f, zeta, n), b, Power2(b))
  {
    ghost var c := SumsBelow(f, zeta, n);
    ImaginaryPartsStep(data[..], f, g, zeta, b, c);
    SumOddEntries(n, data, sum, c, b);
  }

  ghost predicate EvenInPlace(d: seq<real>, c: seq<real>, b: nat, p: nat)
    requires Slots(d, b) && |c| == 2 * Power2(b) && p < Power2(b)
  {
    d[2 * p] == c[2 * p]
  }

  ghost predicate EvensInPlace(d: seq<real>, c: seq<real>, b: nat) {
    Slots(d, b) && |c| == 2 * Power2(b) && forall p: nat | p < Power2(b) :: EvenInPlace(d, c, b, p)
  }

  /** The real parts are the even cosine sums. */
  lemma RealPartsInPlace(d: seq<real>, f: seq<real>, g: seq<real>, zeta: Complex, b: nat, c: seq<real>)
    requires HalfTurnAt(zeta, 2 * Power2(b)) && Folded(f, g, zeta, 2 * Power2(b)) && c == SumsBelow(f, zeta, 2 * Power2(b))
    requires HoldsWhole(d, g, b, Product(zeta, zeta))
    ensures EvensInPlace(d, c, b)
  {
    forall p: nat | p < Power2(b)
      ensures EvenInPlace(d, c, b, p)
    {
      EvenEntry(d, f, g, zeta, b, p, c);
    }
  }

  /** With all odd entries summed up, every entry is in place but the last. */
  lemma SumsInPlace(d: seq<real>, was: seq<real>, b: nat, c: seq<real>)
    requires EvensInPlace(was, c, b) && SummedFor(d, was, c, b, Power2(b))
    ensures d[..2 * Power2(b)] == c
  {
    forall i: nat | i < 2 * Power2(b)
      ensures d[i] == c[i]
    {
      var p := i / 2;
      assert SummedPair(d, was, c, b, Power2(b), p) && EvenInPlace(was, c, b, p);
    }
  }

  lemma EvenEntry(d: seq<real>, f: seq<real>, g: seq<real>, zeta: Complex, b: nat, p: nat, c: seq<real>)
    requires HalfTurnAt(zeta, 2 * Power2(b)) && Folded(f, g, zeta, 2 * Power2(b)) && c == SumsBelow(f, zeta, 2 * Power2(b))
    requires HoldsWhole(d, g, b, Product(zeta, zeta)) && p < Power2(b)
    ensures EvenInPlace(d, c, b, p)
  {
    var n, root := 2 * Power2(b), Product(zeta, zeta);
    EvenPoint(zeta, root, n, p);
    FoldedCosines(f, g, zeta, n, Pow(root, p));
    RealEntry(d, g, b, root, p);
  }

  lemma RealEntry(d: seq<real>, g: seq<real>, b: nat, root: Complex, p: nat)
    requires HoldsWhole(d, g, b, root) && p < Power2(b)
    ensures d[2 * p] == CosineSum(g, Pow(root, p), 2 * Power2(b))
  {
    if p > 0 {
      assert Slot(d, p) == Whole(g, 2 * Power2(b), Pow(root, p));
    }
  }

  // ---------- the last number, and the inverse ----------

  ghost predicate AddedFor(d: seq<real>, was: seq<real>, n: nat, temp: real, j: nat) {
    && |d| == |was| == n + 1 && d[n] == was[n]
    && forall i: nat | i < n :: d[i] == if i < j then was[i] + Alternated(i, temp) else was[i]
  }

  /** The loop that adds the last number with alternating signs. */
  method AddLast(n: nat, data: array<real>, temp: real)
    requires n % 2 == 0 && data.Length == n + 1
    modifies data
    ensures AddedFor(data[..], old(data[..]), n, temp, n)
  {
    ghost var was := data[..];
    var j := 0;
    while j < n
      invariant j % 2 == 0 && j <= n && AddedFor(data[..], was, n, temp, j)
    {
      data[j] := data[j] + temp;
      data[j + 1] := data[j + 1] - temp;
      j := j + 2;
    }
  }

  /** Entry k is the sum over j <= n of f[j] cos(pi j k / n); zeta is the point at angle pi / n. */
  ghost function Cosines(f: seq<real>, zeta: Complex, n: nat): (c: seq<real>)
    ensures |c| == n + 1 && forall k: nat | k <= n :: c[k] == CosineSum(f, Pow(zeta, k), n + 1)
  {
    seq(n + 1, k requires 0 <= k => CosineSum(f, Pow(zeta, k), n + 1))
  }

  /** v is the sum of the first t numbers at index k. */
  ghost predicate IsSum(v: real, f: seq<real>, zeta: Complex, k: nat, t: nat) {
    v == CosineSum(f, Pow(zeta, k), t)
  }

  lemma CosinesEntry(f: seq<real>, zeta: Complex, n: nat, k: nat, c: seq<real>)
    requires c == Cosines(f, zeta, n) && k <= n
    ensures IsSum(c[k], f, zeta, k, n + 1)
  {
  }

  lemma BelowEntry(f: seq<real>, zeta: Complex, n: nat, k: nat, c: seq<real>)
    requires c == SumsBelow(f, zeta, n) && k < n
    ensures IsSum(c[k], f, zeta, k, n)
  {
  }

  /** The first and the last number halved. */
  ghost function HalvedEnds(f: seq<real>): (h: seq<real>)
    requires |f| > 1
    ensures |h| == |f| && forall j | 0 <= j < |f| :: h[j] == if j == 0 || j == |f| - 1 then 0.5 * f[j] else f[j]
  {
    f[0 := 0.5 * f[0]][|f| - 1 := 0.5 * f[|f| - 1]]
  }

  ghost function TwiceOver(n: nat, r: real): real
    requires n > 0
  {
    r * 2.0 / n as real
  }

  ghost function Rescaled(d: real, c: real, n: nat): real
    requires n > 0
  {
    TwiceOver(n, d - c)
  }

  /** Every number times 2 / n. */
  ghost function TwiceOverAll(n: nat, f: seq<real>): (h: seq<real>)
    requires n > 0
    ensures |h| == |f| && forall j | 0 <= j < |f| :: h[j] == TwiceOver(n, f[j])
  {
    seq(|f|, j requires 0 <= j < |f| => TwiceOver(n, f[j]))
  }

  /** Halve the ends, take the cosine sums, scale, halve the ends. */
  ghost function InverseCosines(f: seq<real>, zeta: Complex, n: nat): (c: seq<real>)
    requires |f| == n + 1 && n > 0
    ensures |c| == n + 1
  {
    HalvedEnds(TwiceOverAll(n, Cosines(HalvedEnds(f), zeta, n)))
  }

  lemma SignOfPoint(zeta: Complex, n: nat, k: nat)
    requires Pow(zeta, n) == Complex(-1.0, 0.0)
    ensures Pow(Pow(zeta, k), n) == Complex(Sign(k), 0.0)
  {
    PowSwap(zeta, k, n);
    MinusOneFlips(Pow(zeta, n));
    Signs(Pow(zeta, n), k);
  }

  lemma WithLast(f: seq<real>, zeta: Complex, n: nat, k: nat)
    requires Pow(zeta, n) == Complex(-1.0, 0.0)
    ensures CosineSum(f, Pow(zeta, k), n + 1) == CosineSum(f, Pow(zeta, k), n) + Alternated(k, Item(f, n))
  {
    SignOfPoint(zeta, n, k);
    CosineNext(f, Pow(zeta, k), n, Sign(k));
  }

  lemma {:induction false} SamePrefix(f: seq<real>, g: seq<real>, x: Complex, t: nat)
    requires forall j: nat | j < t :: Item(f, j) == Item(g, j)
    ensures CosineSum(f, x, t) == CosineSum(g, x, t)
  {
    if t > 0 {
      SamePrefix(f, g, x, t - 1);
      SumNext(f, x, t - 1);
      SumNext(g, x, t - 1);
      assert Item(f, t - 1) == Item(g, t - 1);
    }
  }

  lemma {:induction false} HalvedPrefix(f: seq<real>, x: Complex, t: nat)
    requires 0 < t < |f|
    ensures CosineSum(HalvedEnds(f), x, t) == CosineSum(f, x, t) - 0.5 * f[0]
  {
    var h := HalvedEnds(f);
    if t == 1 {
      FirstTerm(f, x);
      FirstTerm(h, x);
    } else {
      HalvedPrefix(f, x, t - 1);
      SumNext(f, x, t - 1);
      SumNext(h, x, t - 1);
      assert Item(h, t - 1) == Item(f, t - 1);
    }
  }

  lemma HalvedSum(f: seq<real>, zeta: Complex, n: nat, k: nat)
    requires |f| == n + 1 && n > 0 && Pow(zeta, n) == Complex(-1.0, 0.0)
    ensures CosineSum(HalvedEnds(f), Pow(zeta, k), n + 1) ==
            CosineSum(f, Pow(zeta, k), n + 1) - (0.5 * f[0] + Alternated(k, 0.5 * f[n]))
  {
    WithLast(f, zeta, n, k);
    WithLast(HalvedEnds(f), zeta, n, k);
    HalvedPrefix(f, Pow(zeta, k), n);
  }

  ghost predicate ScaledEntry(d: seq<real>, was: seq<real>, n: nat, first: real, last: real, j: nat, i: nat)
    requires n > 0 && |d| == |was| == n + 1 && i < n
  {
    d[i] == if i < j then Rescaled(was[i], first + Alternated(i, last), n) else was[i]
  }

  ghost predicate ScaledFor(d: seq<real>, was: seq<real>, n: nat, first: real, last: real, j: nat)
    requires n > 0
  {
    && |d| == |was| == n + 1 && d[n] == was[n]
    && forall i: nat | i < n :: ScaledEntry(d, was, n, first, last, j, i)
  }

  method ScaleBelow(n: nat, data: array<real>, first: real, last: real)
    requires n % 2 == 0 && n > 0 && data.Length == n + 1
    modifies data
    ensures ScaledFor(data[..], old(data[..]), n, first, last, n)
  {
    ghost var was := data[..];
    var j := 0;
    while j < n
      invariant j % 2 == 0 && j <= n && ScaledFor(data[..], was, n, first, last, j)
    {
      ghost var d := data[..];
      assert ScaledEntry(d, was, n, first, last, j, j) && ScaledEntry(d, was, n, first, last, j, j + 1);
      data[j] := (data[j] - (first + last)) * 2.0 / n as real;
      data[j + 1] := (data[j + 1] - (first - last)) * 2.0 / n as real;
      ScaledMore(d, data[..], was, n, first, last, j);
      j := j + 2;
    }
  }

  lemma ScaledMore(d: seq<real>, d': seq<real>, was: seq<real>, n: nat, first: real, last: real, j: nat)
    requires n > 0 && j % 2 == 0 && j + 1 < n && ScaledFor(d, was, n, first, last, j) && |d'| == n + 1
    requires d'[j] == Rescaled(was[j], first + last, n) && d'[j + 1] == Rescaled(was[j + 1], first - last, n)
    requires forall i: nat | i <= n && i != j && i != j + 1 :: d'[i] == d[i]
    ensures ScaledFor(d', was, n, first, last, j + 2)
  {
    var next := j + 2;
    forall i: nat | i < n
      ensures ScaledEntry(d', was, n, first, last, next, i)
    {
      assert ScaledEntry(d, was, n, first, last, j, i);
    }
  }

  /** What halving the ends of the data takes away from entry k of its cosine sums. */
  ghost predicate HalvedEntry(h: seq<real>, c: seq<real>, first: real, last: real, k: nat)
    requires k < |h| == |c|
  {
    h[k] == c[k] - (first + Alternated(k, last))
  }

  ghost predicate HalvedSums(h: seq<real>, c: seq<real>, first: real, last: real) {
    |h| == |c| && forall k: nat | k < |h| :: HalvedEntry(h, c, first, last, k)
  }

  /** zeta is the point at angle pi / n. */
  ghost predicate PointOf(sin: real -> real, pi: real, b: nat, zeta: Complex, n: nat) {
    ExactSine(sin, pi) && n == 2 * Power2(b) && zeta == Root(sin, pi, b + 2)
  }

  lemma HalvedValue(f: seq<real>, sin: real -> real, pi: real, b: nat, zeta: Complex, n: nat, k: nat, h: real, c: real)
    requires |f| == n + 1 && PointOf(sin, pi, b, zeta, n)
    requires IsSum(h, HalvedEnds(f), zeta, k, n + 1) && IsSum(c, f, zeta, k, n + 1)
    ensures h == c - (0.5 * f[0] + Alternated(k, 0.5 * f[n]))
  {
    HalfTurnOfRoot(sin, pi, b + 1);
    HalvedSum(f, zeta, n, k);
  }

  lemma HalvedCosines(f: seq<real>, sin: real -> real, pi: real, b: nat, zeta: Complex, n: nat,
      h: seq<real>, c: seq<real>, first: real, last: real)
    requires |f| == n + 1 && PointOf(sin, pi, b, zeta, n) && first == 0.5 * f[0] && last == 0.5 * f[n]
    requires h == Cosines(HalvedEnds(f), zeta, n) && c == Cosines(f, zeta, n)
    ensures HalvedSums(h, c, first, last)
  {
    forall k: nat | k < |h|
      ensures HalvedEntry(h, c, first, last, k)
    {
      CosinesEntry(HalvedEnds(f), zeta, n, k, h);
      CosinesEntry(f, zeta, n, k, c);
      HalvedValue(f, sin, pi, b, zeta, n, k, h[k], c[k]);
    }
  }

  /** The scaling at the end of the inverse transform, where the data are the cosine sums c. */
  method ScaleInverse(n: nat, data: array<real>, first: real, last: real, ghost h: seq<real>)
    requires n % 2 == 0 && n > 0 && data.Length == n + 1 && HalvedSums(h, data[..], first, last)
    modifies data
    ensures data[..] == HalvedEnds(TwiceOverAll(n, h))
  {
    ghost var c := data[..];
    ScaleBelow(n, data, first, last);
    ghost var below := data[..];
    assert HalvedEntry(h, c, first, last, n);
    data[n] := (data[n] - (first + last)) * 2.0 / n as real;
    AllRescaled(below, data[..], c, h, n, first, last);
    data[0] := data[0] * 0.5;
    data[n] := data[n] * 0.5;
  }

  lemma AllRescaled(d: seq<real>, d': seq<real>, c: seq<real>, h: seq<real>, n: nat, first: real, last: real)
    requires n % 2 == 0 && n > 0 && HalvedSums(h, c, first, last)
    requires ScaledFor(d, c, n, first, last, n) && d' == d[n := Rescaled(c[n], first + last, n)]
    ensures d' == TwiceOverAll(n, h)
  {
    forall k: nat | k <= n
      ensures d'[k] == TwiceOverAll(n, h)[k]
    {
      assert k < n ==> ScaledEntry(d, c, n, first, last, n, k);
      assert HalvedEntry(h, c, first, last, k);
    }
  }

  // ---------- the transform ----------

  /** The data with the last number replaced by the alternating sum. */
  ghost function LastReplaced(f: seq<real>, zeta: Complex, n: nat): seq<real>
    requires |f| == n + 1
  {
    f[n := CosineSum(f, Pow(zeta, n), n + 1)]
  }

  ghost predicate LastAdds(c: seq<real>, was: seq<real>, last: real, k: nat)
    requires k < |c| == |was|
  {
    c[k] == was[k] + Alternated(k, last)
  }

  lemma CosineEntry(f: seq<real>, sin: real -> real, pi: real, b: nat, zeta: Complex, n: nat, k: nat, was: real, d: real)
    requires |f| == n + 1 && k < n && PointOf(sin, pi, b, zeta, n)
    requires IsSum(was, LastReplaced(f, zeta, n), zeta, k, n) && IsSum(d, f, zeta, k, n + 1)
    ensures d == was + Alternated(k, f[n])
  {
    HalfTurnOfRoot(sin, pi, b + 1);
    SamePrefix(f, LastReplaced(f, zeta, n), Pow(zeta, k), n);
    WithLast(f, zeta, n, k);
  }

  lemma LastCompletes(was: seq<real>, f: seq<real>, sin: real -> real, pi: real, b: nat, zeta: Complex, n: nat, c: seq<real>)
    requires |f| == n + 1 && PointOf(sin, pi, b, zeta, n)
    requires |was| == n + 1 && was[..n] == SumsBelow(LastReplaced(f, zeta, n), zeta, n)
    requires c == Cosines(f, zeta, n) && was[n] == LastReplaced(f, zeta, n)[n]
    ensures c[n] == was[n] && forall k: nat | k < n :: LastAdds(c, was, f[n], k)
  {
    forall k: nat | k < n
      ensures LastAdds(c, was, f[n], k)
    {
      BelowEntry(LastReplaced(f, zeta, n), zeta, n, k, was[..n]);
      CosinesEntry(f, zeta, n, k, c);
      CosineEntry(f, sin, pi, b, zeta, n, k, was[k], c[k]);
    }
  }

  lemma SumsAreCosines(d: seq<real>, was: seq<real>, c: seq<real>, n: nat, last: real)
    requires AddedFor(d, was, n, last, n) && |c| == n + 1
    requires c[n] == was[n] && forall k: nat | k < n :: LastAdds(c, was, last, k)
    ensures d == c
  {
    forall k: nat | k <= n
      ensures d[k] == c[k]
    {
      assert k < n ==> LastAdds(c, was, last, k);
    }
  }

  /** The first statements: the last number is replaced by the sum with alternating signs. */
  method ReplaceLast(n: nat, data: array<real>, ghost sin: real -> real, ghost pi: real, ghost b: nat, ghost zeta: Complex)
    requires data.Length == n + 1 && PointOf(sin, pi, b, zeta, n)
    modifies data
    ensures data[..] == LastReplaced(old(data[..]), zeta, n)
  {
    var sum := AlternatingSum(n, data);
    AlternatingIsLast(data[..], sin, pi, b, zeta, n);
    data[n] := sum;
  }

  lemma AlternatingIsLast(f: seq<real>, sin: real -> real, pi: real, b: nat, zeta: Complex, n: nat)
    requires PointOf(sin, pi, b, zeta, n)
    ensures EverySecond(f, 0, n / 2 + 1) - EverySecond(f, 1, n / 2) == CosineSum(f, Pow(zeta, n), n + 1)
  {
    HalfTurnOfRoot(sin, pi, b + 1);
    MinusOneFlips(Pow(zeta, n));
    AlternatingIsCosine(f, Pow(zeta, n), n / 2);
  }

  /** From the folding to the running sums: everything but the last number is in place. */
  method CosinesWithoutLast(n: nat, data: array<real>, sin: real -> real, pi: real, ghost b: nat)
    requires n == 2 * Power2(b) && data.Length == n + 1 && ExactSine(sin, pi)
    modifies data
    ensures data[..n] == SumsBelow(old(data[..]), Root(sin, pi, b + 2), n) && data[n] == old(data[n])
  {
    ghost var f, zeta := data[..], Root(sin, pi, b + 2);
    HalfTurnOfRoot(sin, pi, b + 1);
    var sum := Fold(n, data, sin, pi, b);
    ghost var g := data[..];
    FourierTransform(n, data, sin, pi, b);
    Unfold(n, data, sin, pi, g, b);
    ghost var was := data[..];
    RunningSums(n, data, sum, f, g, zeta, b);
    RealPartsInPlace(was, f, g, zeta, b, SumsBelow(f, zeta, n));
    SumsInPlace(data[..], was, b, SumsBelow(f, zeta, n));
  }

  /** All statements that both directions share. */
  method SumsInPlaceOf(n: nat, data: array<real>, temp: real, sin: real -> real, pi: real, ghost b: nat, ghost c: seq<real>)
    requires n == 2 * Power2(b) && data.Length == n + 1 && ExactSine(sin, pi) && temp == data[n]
    requires c == Cosines(data[..], Root(sin, pi, b + 2), n)
    modifies data
    ensures data[..] == c
  {
    ghost var f, zeta := data[..], Root(sin, pi, b + 2);
    assert n % 2 == 0;
    ReplaceLast(n, data, sin, pi, b, zeta);
    CosinesWithoutLast(n, data, sin, pi, b);
    ghost var sums := data[..];
    AddLast(n, data, temp);
    LastCompletes(sums, f, sin, pi, b, zeta, n, c);
    SumsAreCosines(data[..], sums, c, n, temp);
  }

  ghost function CosineTransformed(f: seq<real>, transformType: TransformType, zeta: Complex, n: nat): seq<real>
    requires |f| == n + 1 && n > 0
  {
    match transformType
    case Forward => Cosines(f, zeta, n)
    case Inverse => InverseCosines(f, zeta, n)
  }

  /** For n = 2^(b+1) the in-place transform leaves the cosine sums of the data, or the inverse sums. */
  method Cosfft1(n: nat, data: array<real>, transformType: TransformType, sin: real -> real, pi: real, ghost b: nat)
    requires n == 2 * Power2(b) && data.Length == n + 1 && ExactSine(sin, pi)
    modifies data
    ensures data[..] == CosineTransformed(old(data[..]), transformType, Root(sin, pi, b + 2), n)
  {
    ghost var f, zeta := data[..], Root(sin, pi, b + 2);
    ghost var h, c := Cosines(HalvedEnds(f), zeta, n), Cosines(f, zeta, n);
    assert n % 2 == 0;
    var temp := data[n];
    var first, last := 0.0, 0.0;
    if transformType == Inverse {
      first := 0.5 * data[0];
      last := 0.5 * temp;
    }
    SumsInPlaceOf(n, data, temp, sin, pi, b, c);
    if transformType == Inverse {
      HalvedCosines(f, sin, pi, b, zeta, n, h, c, first, last);
      ScaleInverse(n, data, first, last, h);
    }
  }
}
