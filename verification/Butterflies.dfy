/** The butterfly stages of the fast cosine transform: with the reordering before them they compute
    the discrete Fourier transform in place. */
module Butterflies {
  import opened Powers
  import opened Complexes
  import opened FourierValues
  import opened BitReversal

  // ---------- one stage ----------

  /** n numbers in 2^b complex slots and one more number behind them. */
  ghost predicate Slots(d: seq<real>, b: nat) {
    |d| == 2 * Power2(b) + 1
  }

  /** The data of a stage: its roots of unity before and after, and the numbers at the start. */
  datatype Stage = Stage(b: nat, s: nat, square: Complex, root: Complex, z: seq<Complex>)

  ghost predicate StageOk(g: Stage) {
    && g.s < g.b && Product(g.root, g.root) == g.square && Pow(g.root, Power2(g.s)) == Complex(-1.0, 0.0)
  }

  /** The lower slot of the butterfly for coefficient k of block q. */
  function Lower(g: Stage, q: nat, k: nat): nat {
    Compose(g.s + 1, q, k)
  }

  function Upper(g: Stage, q: nat, k: nat): nat {
    Compose(g.s + 1, q, k + Power2(g.s))
  }

  lemma UpperAbove(g: Stage, q: nat, k: nat)
    requires k < Power2(g.s)
    ensures Upper(g, q, k) == Lower(g, q, k) + Power2(g.s)
  {
    ComposePair(g.s, q, k);
  }

  ghost predicate IsPair(g: Stage, q: nat, k: nat) {
    g.s < g.b && k < Power2(g.s) && q < Power2(g.b - g.s - 1)
  }

  lemma PairInside(g: Stage, q: nat, k: nat)
    requires IsPair(g, q, k)
    ensures Lower(g, q, k) < Upper(g, q, k) < Power2(g.b)
  {
    ComposePair(g.s, q, k);
    ComposeBound(g.s + 1, q, k + Power2(g.s), g.b - g.s - 1);
    assert g.s + 1 + (g.b - g.s - 1) == g.b;
  }

  lemma ComposedApart(s: nat, q: nat, k: nat, r: nat, m: nat)
    requires k < Power2(s) && m < Power2(s) && (q != r || k != m)
    ensures Compose(s + 1, q, k) != Compose(s + 1, r, m)
    ensures Compose(s + 1, q, k + Power2(s)) != Compose(s + 1, r, m + Power2(s))
    ensures Compose(s + 1, q, k) != Compose(s + 1, r, m + Power2(s))
    ensures Compose(s + 1, q, k + Power2(s)) != Compose(s + 1, r, m)
  {
    var h := Power2(s);
    assert Power2(s + 1) == 2 * h;
    DifferentParts(s + 1, q, k, r, m);
    DifferentParts(s + 1, q, k + h, r, m + h);
    DifferentParts(s + 1, q, k, r, m + h);
    DifferentParts(s + 1, q, k + h, r, m);
  }

  /** Different butterflies use different slots. */
  lemma PairsApart(g: Stage, q: nat, k: nat, r: nat, m: nat)
    requires IsPair(g, q, k) && IsPair(g, r, m) && (q != r || k != m)
    ensures Lower(g, q, k) != Lower(g, r, m) && Upper(g, q, k) != Upper(g, r, m)
    ensures Lower(g, q, k) != Upper(g, r, m) && Upper(g, q, k) != Lower(g, r, m)
  {
    ComposedApart(g.s, q, k, r, m);
  }

  ghost predicate PairHolds(d: seq<real>, g: Stage, q: nat, k: nat, done: bool)
    requires IsPair(g, q, k)
  {
    && Slots(d, g.b) && Lower(g, q, k) < Power2(g.b) && Upper(g, q, k) < Power2(g.b)
    && Slot(d, Lower(g, q, k)) == (if done then Value(g.root, g.z, g.b, g.s + 1, q, k) else Value(g.square, g.z, g.b, g.s, 2 * q, k))
    && Slot(d, Upper(g, q, k)) == (if done then Value(g.root, g.z, g.b, g.s + 1, q, k + Power2(g.s))
                                   else Value(g.square, g.z, g.b, g.s, 2 * q + 1, k))
  }

  predicate DoneBefore(q: nat, k: nat, q1: nat, k1: nat) {
    k < k1 || (k == k1 && q < q1)
  }

  /** The butterflies before (q1, k1), in the order of the loops, are done, the others not. */
  ghost predicate StageAt(d: seq<real>, g: Stage, q1: nat, k1: nat) {
    Slots(d, g.b) && forall q: nat, k: nat | IsPair(g, q, k) :: PairHolds(d, g, q, k, DoneBefore(q, k, q1, k1))
  }

  method Turned(wr: real, wi: real, x: real, y: real) returns (tempr: real, tempi: real)
    ensures Complex(tempr, tempi) == Product(Complex(wr, wi), Complex(x, y))
  {
    tempr := wr * x - wi * y;
    tempi := wr * y + wi * x;
    ProductIs(wr, wi, x, y);
  }

  /** One butterfly with twiddle factor (wr, wi) on the slots that i and j name. */
  method Butterfly(data: array<real>, i: nat, j: nat, wr: real, wi: real)
    requires 0 < i < j && j < data.Length && i % 2 == 1 && j % 2 == 1
    modifies data
    ensures var w, e, o := Complex(wr, wi), Slot(old(data[..]), i / 2), Slot(old(data[..]), j / 2);
      Slot(data[..], i / 2) == Plus(e, Product(w, o)) && Slot(data[..], j / 2) == Minus(e, Product(w, o))
    ensures forall x: nat | x < data.Length && x / 2 != i / 2 && x / 2 != j / 2 :: data[x] == old(data[x])
    ensures forall p: nat | 2 * p + 1 < data.Length && p != i / 2 && p != j / 2 :: Slot(data[..], p) == Slot(old(data[..]), p)
  {
    assert i == 2 * (i / 2) + 1 && j == 2 * (j / 2) + 1;
    var tempr, tempi := Turned(wr, wi, data[j - 1], data[j]);
    data[j - 1] := data[i - 1] - tempr;
    data[j] := data[i] - tempi;
    data[i - 1] := data[i - 1] + tempr;
    data[i] := data[i] + tempi;
  }

  /** What a butterfly does to the slots. */
  ghost predicate Crossed(d: seq<real>, d': seq<real>, g: Stage, q: nat, k: nat) {
    && Slots(d, g.b) && Slots(d', g.b) && Lower(g, q, k) < Upper(g, q, k) < Power2(g.b)
    && (var w, e, o := Pow(g.root, k), Slot(d, Lower(g, q, k)), Slot(d, Upper(g, q, k));
        Slot(d', Lower(g, q, k)) == Plus(e, Product(w, o)) && Slot(d', Upper(g, q, k)) == Minus(e, Product(w, o)))
    && forall p: nat | p < Power2(g.b) && p != Lower(g, q, k) && p != Upper(g, q, k) :: SameSlot(d, d', p)
  }

  ghost predicate SameSlot(d: seq<real>, d': seq<real>, p: nat)
    requires 2 * p + 1 < |d| && |d'| == |d|
  {
    Slot(d', p) == Slot(d, p)
  }

  lemma OwnPair(d: seq<real>, d': seq<real>, g: Stage, q: nat, k: nat)
    requires StageOk(g) && IsPair(g, q, k) && PairHolds(d, g, q, k, false) && Crossed(d, d', g, q, k)
    ensures PairHolds(d', g, q, k, true)
  {
    ValuePair(g.root, g.square, g.z, g.b, g.s, q, k);
  }

  lemma OtherPair(d: seq<real>, d': seq<real>, g: Stage, q: nat, k: nat, r: nat, m: nat, done: bool)
    requires IsPair(g, q, k) && IsPair(g, r, m) && (q != r || k != m) && PairHolds(d, g, r, m, done) && Crossed(d, d', g, q, k)
    ensures PairHolds(d', g, r, m, done)
  {
    PairInside(g, r, m);
    PairsApart(g, q, k, r, m);
    assert SameSlot(d, d', Lower(g, r, m)) && SameSlot(d, d', Upper(g, r, m));
  }

  lemma ButterflyStep(d: seq<real>, d': seq<real>, g: Stage, q: nat, k: nat)
    requires StageOk(g) && IsPair(g, q, k) && StageAt(d, g, q, k) && Crossed(d, d', g, q, k)
    ensures StageAt(d', g, q + 1, k)
  {
    var next := q + 1;
    forall r: nat, m: nat | IsPair(g, r, m)
      ensures PairHolds(d', g, r, m, DoneBefore(r, m, next, k))
    {
      assert PairHolds(d, g, r, m, DoneBefore(r, m, q, k));
      if r == q && m == k {
        OwnPair(d, d', g, q, k);
      } else {
        OtherPair(d, d', g, q, k, r, m, DoneBefore(r, m, q, k));
      }
    }
  }

  lemma OddIndex(i: nat, p: nat)
    requires i == 2 * p + 1
    ensures i % 2 == 1 && i / 2 == p
  {
  }

  /** The butterfly, seen from the slots. */
  method CrossSlots(data: array<real>, i: nat, j: nat, wr: real, wi: real, ghost g: Stage, ghost q: nat, ghost k: nat)
    requires IsPair(g, q, k) && data.Length == 2 * Power2(g.b) + 1 && Complex(wr, wi) == Pow(g.root, k)
    requires i == 2 * Lower(g, q, k) + 1 && j == 2 * Upper(g, q, k) + 1
    modifies data
    ensures Crossed(old(data[..]), data[..], g, q, k) && data[2 * Power2(g.b)] == old(data[2 * Power2(g.b)])
  {
    PairInside(g, q, k);
    OddIndex(i, Lower(g, q, k));
    OddIndex(j, Upper(g, q, k));
    ghost var d := data[..];
    Butterfly(data, i, j, wr, wi);
    forall p: nat | p < Power2(g.b) && p != Lower(g, q, k) && p != Upper(g, q, k)
      ensures SameSlot(d, data[..], p)
    {
      assert 2 * p + 1 < data.Length;
    }
  }

  /** The butterfly of block q. */
  method OneBlock(data: array<real>, i: nat, j: nat, wr: real, wi: real, ghost g: Stage, ghost q: nat, ghost k: nat)
    requires StageOk(g) && IsPair(g, q, k) && data.Length == 2 * Power2(g.b) + 1 && Complex(wr, wi) == Pow(g.root, k)
    requires i == 2 * Lower(g, q, k) + 1 && j == 2 * Upper(g, q, k) + 1 && StageAt(data[..], g, q, k)
    modifies data
    ensures StageAt(data[..], g, q + 1, k) && data[2 * Power2(g.b)] == old(data[2 * Power2(g.b)])
  {
    ghost var d := data[..];
    CrossSlots(data, i, j, wr, wi, g, q, k);
    ButterflyStep(d, data[..], g, q, k);
  }

  lemma BlockInside(g: Stage, q: nat, k: nat)
    requires g.s < g.b && k < Power2(g.s)
    ensures Lower(g, q, k) < Power2(g.b) <==> IsPair(g, q, k)
  {
    ComposeBound(g.s + 1, q, k, g.b - g.s - 1);
    assert g.s + 1 + (g.b - g.s - 1) == g.b;
  }

  /** The loop over the blocks for one twiddle factor. */
  method Blocks(n: nat, data: array<real>, m: nat, mmax: nat, istep: nat, wr: real, wi: real, ghost g: Stage, ghost k: nat)
    requires StageOk(g) && k < Power2(g.s) && n == 2 * Power2(g.b) && data.Length == n + 1
    requires m == 2 * k + 1 && mmax == 2 * Power2(g.s) && istep == 2 * mmax && Complex(wr, wi) == Pow(g.root, k)
    requires StageAt(data[..], g, 0, k)
    modifies data
    ensures StageAt(data[..], g, 0, k + 1) && data[n] == old(data[n])
  {
    var i := m;
    ghost var q: nat := 0;
    ComposeLow(g.s + 1, k);
    BlockInside(g, q, k);
    while i <= n
      invariant i == 2 * Lower(g, q, k) + 1
      invariant Lower(g, q, k) < Power2(g.b) <==> IsPair(g, q, k)
      invariant StageAt(data[..], g, q, k) && data[n] == old(data[n])
    {
      UpperAbove(g, q, k);
      OneBlock(data, i, i + mmax, wr, wi, g, q, k);
      ComposeNext(g.s + 1, q, k);
      i := i + istep;
      q := q + 1;
      BlockInside(g, q, k);
    }
    ColumnDone(data[..], g, q, k);
  }

  lemma ColumnDone(d: seq<real>, g: Stage, q: nat, k: nat)
    requires StageAt(d, g, q, k) && g.s < g.b && k < Power2(g.s) && !IsPair(g, q, k)
    ensures StageAt(d, g, 0, k + 1)
  {
    var next := k + 1;
    forall r: nat, m: nat | IsPair(g, r, m)
      ensures PairHolds(d, g, r, m, DoneBefore(r, m, 0, next))
    {
      assert PairHolds(d, g, r, m, DoneBefore(r, m, q, k));
    }
  }

  /** The step of the recurrence multiplies by the root. */
  lemma TwiddleStep(a: real, b: real, p: real, q: real)
    ensures Product(Complex(p + 1.0, q), Complex(a, b)) == Complex(a * p - b * q + a, b * p + a * q + b)
  {
    LessOne(a, p);
    LessOne(b, p);
    ProductIs(p + 1.0, q, a, b);
  }

  lemma LessOne(x: real, y: real)
    ensures x * (y + 1.0) == x * y + x
  {
  }

  method TurnTwiddle(wr0: real, wi0: real, wpr: real, wpi: real) returns (wr: real, wi: real)
    ensures Complex(wr, wi) == Product(Complex(wpr + 1.0, wpi), Complex(wr0, wi0))
  {
    TwiddleStep(wr0, wi0, wpr, wpi);
    wr, wi := wr0, wi0;
    var wtemp := wr;
    wr := wtemp * wpr - wi * wpi + wr;
    wi := wi * wpr + wtemp * wpi + wi;
  }

  lemma RootIs(sin: real -> real, pi: real, s: nat, theta: real, half: real, wpr: real)
    requires theta == 2.0 * pi / Power2(s) as real && half == sin(0.5 * theta) && wpr == -2.0 * half * half
    ensures Root(sin, pi, s) == Complex(wpr + 1.0, sin(theta))
  {
    assert 1.0 - 2.0 * half * half == wpr + 1.0;
  }

  /** The step of the recurrence for the root of order 2^s, less one in its real part. */
  method RootStep(sin: real -> real, ghost pi: real, theta: real, ghost s: nat) returns (wpr: real, wpi: real)
    requires theta == 2.0 * pi / Power2(s) as real
    ensures Root(sin, pi, s) == Complex(wpr + 1.0, wpi)
  {
    var wtemp := sin(0.5 * theta);
    wpr := -2.0 * wtemp * wtemp;
    wpi := sin(theta);
    RootIs(sin, pi, s, theta, wtemp, wpr);
  }

  /** One stage: the twiddle factors run through the powers of the root of unity. */
  method RunStage(n: nat, data: array<real>, mmax: nat, sin: real -> real, pi: real, ghost g: Stage)
    requires StageOk(g) && n == 2 * Power2(g.b) && data.Length == n + 1 && mmax == 2 * Power2(g.s)
    requires g.root == Root(sin, pi, g.s + 1) && StageAt(data[..], g, 0, 0)
    modifies data
    ensures StageAt(data[..], g, 0, Power2(g.s)) && data[n] == old(data[n])
  {
    var istep := 2 * mmax;
    var theta := 2.0 * pi / mmax as real;
    assert mmax == Power2(g.s + 1);
    var wpr, wpi := RootStep(sin, pi, theta, g.s + 1);
    var wr, wi := 1.0, 0.0;
    var m := 1;
    ghost var k: nat := 0;
    while m <= mmax
      invariant m == 2 * k + 1 && k <= Power2(g.s)
      invariant Complex(wr, wi) == Pow(g.root, k)
      invariant StageAt(data[..], g, 0, k) && data[n] == old(data[n])
    {
      Blocks(n, data, m, mmax, istep, wr, wi, g, k);
      wr, wi := TurnTwiddle(wr, wi, wpr, wpi);
      PowNext(g.root, k);
      m := m + 2;
      k := k + 1;
    }
  }

  // ---------- all stages ----------

  ghost predicate SlotHolds(d: seq<real>, b: nat, s: nat, root: Complex, z: seq<Complex>, p: nat)
    requires Slots(d, b) && s <= b && p < Power2(b)
  {
    Slot(d, p) == Value(root, z, b, s, ShiftRight(p, s), LowBits(p, s))
  }

  /** Every slot holds its partial transform of 2^s numbers. */
  ghost predicate LevelHolds(d: seq<real>, b: nat, s: nat, root: Complex, z: seq<Complex>) {
    Slots(d, b) && s <= b && forall p: nat | p < Power2(b) :: SlotHolds(d, b, s, root, z, p)
  }

  lemma LevelStarts(d: seq<real>, g: Stage)
    requires StageOk(g) && LevelHolds(d, g.b, g.s, g.square, g.z)
    ensures StageAt(d, g, 0, 0)
  {
    forall q: nat, k: nat | IsPair(g, q, k)
      ensures PairHolds(d, g, q, k, DoneBefore(q, k, 0, 0))
    {
      PairInside(g, q, k);
      ComposePair(g.s, q, k);
      ComposeParts(g.s, 2 * q, k);
      ComposeParts(g.s, 2 * q + 1, k);
      assert SlotHolds(d, g.b, g.s, g.square, g.z, Lower(g, q, k));
      assert SlotHolds(d, g.b, g.s, g.square, g.z, Upper(g, q, k));
    }
  }

  lemma LevelEnds(d: seq<real>, g: Stage)
    requires StageOk(g) && StageAt(d, g, 0, Power2(g.s))
    ensures LevelHolds(d, g.b, g.s + 1, g.root, g.z)
  {
    var s := g.s + 1;
    forall p: nat | p < Power2(g.b)
      ensures SlotHolds(d, g.b, s, g.root, g.z, p)
    {
      SlotEnds(d, g, p);
    }
  }

  lemma SlotEnds(d: seq<real>, g: Stage, p: nat)
    requires StageOk(g) && StageAt(d, g, 0, Power2(g.s)) && p < Power2(g.b)
    ensures SlotHolds(d, g.b, g.s + 1, g.root, g.z, p)
  {
    var q, k, h := ShiftRight(p, g.s + 1), LowBits(p, g.s + 1), Power2(g.s);
    SlotInPair(g, p);
    if k < h {
      assert PairHolds(d, g, q, k, DoneBefore(q, k, 0, h));
    } else {
      assert PairHolds(d, g, q, k - h, DoneBefore(q, k - h, 0, h));
    }
  }

  /** Every slot belongs to a butterfly. */
  lemma SlotInPair(g: Stage, p: nat)
    requires g.s < g.b && p < Power2(g.b)
    ensures var q, k, h := ShiftRight(p, g.s + 1), LowBits(p, g.s + 1), Power2(g.s);
      && (k < h ==> IsPair(g, q, k) && Lower(g, q, k) == p)
      && (k >= h ==> IsPair(g, q, k - h) && Upper(g, q, k - h) == p)
  {
    PartsCompose(g.s + 1, p);
    BlocksCover(g, p);
  }

  lemma BlocksCover(g: Stage, p: nat)
    requires g.s < g.b && p < Power2(g.b)
    ensures ShiftRight(p, g.s + 1) < Power2(g.b - g.s - 1)
  {
    PartsCompose(g.s + 1, p);
    ComposeBound(g.s + 1, ShiftRight(p, g.s + 1), LowBits(p, g.s + 1), g.b - g.s - 1);
    assert g.s + 1 + (g.b - g.s - 1) == g.b;
  }

  /** The complex numbers in the slots. */
  ghost function Numbers(d: seq<real>, b: nat): (z: seq<Complex>)
    requires Slots(d, b)
    ensures |z| == Power2(b) && forall p: nat | p < Power2(b) :: z[p] == Slot(d, p)
  {
    seq(Power2(b), p requires 0 <= p < Power2(b) => Slot(d, p))
  }

  /** Coefficient k of the discrete Fourier transform: the sum of z[p] root^(kp). */
  ghost function Transform(z: seq<Complex>, root: Complex, k: nat): Complex {
    Poly(z, 0, 1, |z|, Pow(root, k))
  }

  lemma ReorderedIsLevel(d: seq<real>, was: seq<real>, b: nat, root: Complex)
    requires Slots(d, b) && Slots(was, b) && forall p: nat | p < Power2(b) :: Slot(d, p) == Slot(was, Rev(b, p))
    ensures LevelHolds(d, b, 0, root, Numbers(was, b))
  {
    forall p: nat | p < Power2(b)
      ensures SlotHolds(d, b, 0, root, Numbers(was, b), p)
    {
      StartValue(root, Numbers(was, b), b, p);
    }
  }

  lemma LastLevel(d: seq<real>, b: nat, root: Complex, z: seq<Complex>, k: nat)
    requires LevelHolds(d, b, b, root, z) && |z| == Power2(b) && k < Power2(b)
    ensures Slot(d, k) == Transform(z, root, k)
  {
    assert SlotHolds(d, b, b, root, z, k);
    PartsCompose(b, k);
    ComposeBound(b, ShiftRight(k, b), LowBits(k, b), 0);
    ComposeLow(b, LowBits(k, b));
    assert Power2(0) == 1;
  }

  lemma {:induction false} PowerGrows(s: nat, b: nat)
    ensures Power2(s) < Power2(b) <==> s < b
  {
    if s > 0 && b > 0 {
      PowerGrows(s - 1, b - 1);
    }
  }

  /** The reordering and the stages leave the discrete Fourier transform of the complex slots; the
      last number is not touched. */
  method FourierTransform(n: nat, data: array<real>, sin: real -> real, pi: real, ghost b: nat)
    requires n == 2 * Power2(b) && data.Length == n + 1 && ExactSine(sin, pi)
    modifies data
    ensures data[n] == old(data[n])
    ensures forall k: nat | k < Power2(b) :: Slot(data[..], k) == Transform(Numbers(old(data[..]), b), Root(sin, pi, b), k)
  {
    ghost var was := data[..];
    ghost var z := Numbers(was, b);
    Reorder(n, data, b);
    ReorderedIsLevel(data[..], was, b, Root(sin, pi, 0));
    var mmax := 2;
    ghost var s: nat := 0;
    while n > mmax
      invariant s <= b && mmax == 2 * Power2(s) && data[n] == old(data[n])
      invariant LevelHolds(data[..], b, s, Root(sin, pi, s), z)
      decreases b - s
    {
      PowerGrows(s, b);
      ghost var g := Stage(b, s, Root(sin, pi, s), Root(sin, pi, s + 1), z);
      NextStage(g, sin, pi);
      LevelStarts(data[..], g);
      RunStage(n, data, mmax, sin, pi, g);
      LevelEnds(data[..], g);
      mmax := 2 * mmax;
      s := s + 1;
    }
    PowerGrows(s, b);
    forall k: nat | k < Power2(b)
      ensures Slot(data[..], k) == Transform(z, Root(sin, pi, b), k)
    {
      LastLevel(data[..], b, Root(sin, pi, b), z, k);
    }
  }

  lemma NextStage(g: Stage, sin: real -> real, pi: real)
    requires ExactSine(sin, pi) && g.s < g.b && g.square == Root(sin, pi, g.s) && g.root == Root(sin, pi, g.s + 1)
    ensures StageOk(g)
  {
    assert Halves(sin, pi, g.s);
    HalfTurn(sin, pi, g.s);
  }
}
