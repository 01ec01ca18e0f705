/** Chebyshev polynomials and the formal derivative of a Chebyshev series, by coefficients of the
    monomials: T(k, i) is the coefficient of x^i in the k-th Chebyshev polynomial. */
module Chebyshev {

  /** Named so that the prover meets products only where it needs them. */
  ghost function Prod(x: real, y: real): real { x * y }

  ghost function T(k: nat, i: int): real {
    if k == 0 then (if i == 0 then 1.0 else 0.0)
    else if k == 1 then (if i == 1 then 1.0 else 0.0)
    else 2.0 * T(k - 1, i - 1) - T(k - 2, i)
  }

  /** The polynomials of the second kind, shifted by one: V(k) = U(k - 1), V(0) = 0. */
  ghost function V(k: nat, i: int): real {
    if k == 0 then 0.0
    else if k == 1 then (if i == 0 then 1.0 else 0.0)
    else 2.0 * V(k - 1, i - 1) - V(k - 2, i)
  }

  /** 2 T(k) = V(k + 1) - V(k - 1) */
  lemma {:induction false} TwoKinds(k: nat, i: int)
    requires k >= 1
    ensures 2.0 * T(k, i) == V(k + 1, i) - V(k - 1, i)
  {
    if k == 2 {
      TwoKinds(1, i - 1);
      assert V(3, i) == 2.0 * V(2, i - 1) - V(1, i);
      assert V(2, i - 1) == 2.0 * V(1, i - 2) - V(0, i - 1);
    } else if k > 2 {
      TwoKinds(k - 1, i - 1);
      TwoKinds(k - 2, i);
    }
  }

  /** The derivative of T(k) is k V(k): coefficient i of the derivative is (i + 1) T(k, i + 1). */
  ghost predicate DerivativeAt(k: nat, i: int) {
    Prod((i + 1) as real, T(k, i + 1)) == Prod(k as real, V(k, i))
  }

  lemma {:induction false} DerivativeOfT(k: nat, i: int)
    ensures DerivativeAt(k, i)
  {
    if k >= 2 {
      DerivativeOfT(k - 1, i - 1);
      DerivativeOfT(k - 2, i);
      TwoKinds(k - 1, i);
      DerivativeStep(k, i);
    }
  }

  lemma DerivativeStep(k: nat, i: int)
    requires k >= 2 && DerivativeAt(k - 1, i - 1) && DerivativeAt(k - 2, i)
    requires 2.0 * T(k - 1, i) == V(k, i) - V(k - 2, i)
    ensures DerivativeAt(k, i)
  {
    DerivativeArithmetic(i as real, (i + 1) as real, k as real, (k - 1) as real, (k - 2) as real,
                         T(k - 1, i), T(k - 2, i + 1), V(k - 1, i - 1), V(k - 2, i), T(k, i + 1), V(k, i));
  }

  lemma DerivativeArithmetic(i: real, i1: real, k: real, k1: real, k2: real, t1: real, t2: real, v1: real, v2: real, t: real, v: real)
    requires i1 == i + 1.0 && k1 == k - 1.0 && k2 == k - 2.0
    requires Prod(i, t1) == Prod(k1, v1)
    requires Prod(i1, t2) == Prod(k2, v2)
    requires 2.0 * t1 == v - v2 && t == 2.0 * t1 - t2 && v == 2.0 * v1 - v2
    ensures Prod(i1, t) == Prod(k, v)
  {
    assert Prod(i1, t) == 2.0 * Prod(i, t1) + 2.0 * t1 - Prod(i1, t2);
    assert Prod(k, v) == 2.0 * Prod(k1, v1) + 2.0 * v1 - (Prod(k2, v2) + 2.0 * v2);
  }

  // ---------- series ----------

  /** Coefficient of x^i in sum over k < m of c[k] T(k). */
  ghost function Series(c: seq<real>, m: nat, i: int): real
    requires m <= |c|
  {
    if m == 0 then 0.0 else Series(c, m - 1, i) + Prod(c[m - 1], T(m - 1, i))
  }

  /** Coefficient of x^i in sum over k < m of k c[k] V(k). */
  ghost function SecondKindSeries(c: seq<real>, m: nat, i: int): real
    requires m <= |c|
  {
    if m == 0 then 0.0 else SecondKindSeries(c, m - 1, i) + Prod(Prod((m - 1) as real, c[m - 1]), V(m - 1, i))
  }

  /** Coefficient of x^i in the derivative of the series: (i + 1) times coefficient i + 1. */
  ghost function Derivative(c: seq<real>, m: nat, i: int): real
    requires m <= |c|
  {
    Prod((i + 1) as real, Series(c, m, i + 1))
  }

  lemma {:induction false} DerivativeIsSecondKind(c: seq<real>, m: nat, i: int)
    requires m <= |c|
    ensures Derivative(c, m, i) == SecondKindSeries(c, m, i)
  {
    if m > 0 {
      DerivativeIsSecondKind(c, m - 1, i);
      DerivativeOfT(m - 1, i);
      assert DerivativeAt(m - 1, i);
      Spread((i + 1) as real, Series(c, m - 1, i + 1), c[m - 1], T(m - 1, i + 1), (m - 1) as real, V(m - 1, i));
    }
  }

  lemma Spread(i: real, s: real, c: real, t: real, k: real, v: real)
    requires Prod(i, t) == Prod(k, v)
    ensures Prod(i, s + Prod(c, t)) == Prod(i, s) + Prod(Prod(k, c), v)
  {
    assert i * (c * t) == c * (i * t);
  }

  /** What the recurrence of the code leaves: b[n] = 0, b[n - 1] = 2 n a[n] s, and
      c(k) b[k] = b[k + 2] + 2 (k + 1) a[k + 1] s below, with c(0) = 2 and c(k) = 1 otherwise. */
  ghost predicate Recurrence(a: seq<real>, b: seq<real>, n: nat, s: real)
    requires n >= 3 && |a| == n + 1 == |b|
  {
    && b[n] == 0.0
    && b[n - 1] == Gain(n, a[n], s)
    && (forall k | 1 <= k <= n - 2 :: RecurrenceAt(a, b, k, s))
    && b[0] == 0.5 * b[2] + a[1] * s
  }

  ghost function Gain(k: nat, x: real, s: real): real { 2.0 * k as real * x * s }

  ghost predicate RecurrenceAt(a: seq<real>, b: seq<real>, k: nat, s: real)
    requires k + 2 < |a| == |b|
  {
    b[k] == b[k + 2] + Gain(k + 1, a[k + 1], s)
  }

  /** b[k], and 0 behind the end. */
  ghost function Padded(b: seq<real>, k: nat): real {
    if k < |b| then b[k] else 0.0
  }

  /** b(m - 1) - b(m + 1) = 2 m a(m) s, for 2 <= m <= n. */
  lemma RecurrenceGap(a: seq<real>, b: seq<real>, n: nat, s: real, m: nat)
    requires n >= 3 && |a| == n + 1 == |b| && Recurrence(a, b, n, s) && 2 <= m <= n
    ensures b[m - 1] - Padded(b, m + 1) == 2.0 * Prod(Prod(m as real, a[m]), s)
  {
    if m < n {
      assert RecurrenceAt(a, b, m - 1, s);
    }
  }

  lemma TelescopeStep(before: real, after: real, first: real, second: real, p: real, q: real, r: real,
                      x: real, y: real, z: real, t: real, s: real, c: real)
    requires 2.0 * t == z - x
    requires p - r == 2.0 * Prod(c, s)
    requires before == Prod(s, first) + Mean(p, y, q, x)
    requires after == before + Prod(q, t) && second == first + Prod(c, y)
    ensures after == Prod(s, second) + Mean(q, z, r, y)
  {
    assert q * (2.0 * t) == q * z - q * x;
    assert (p - r) * y == p * y - r * y;
    assert (p - r) * y == 2.0 * (s * (c * y));
    assert s * second == s * first + s * (c * y);
  }

  ghost predicate Telescoped(a: seq<real>, b: seq<real>, s: real, m: nat, i: int)
    requires m < |a| == |b|
  {
    Series(b, m + 1, i) == Prod(s, SecondKindSeries(a, m + 1, i)) + Mean(b[m], V(m + 1, i), Padded(b, m + 1), V(m, i))
  }

  ghost function Mean(p: real, y: real, q: real, x: real): real { (p * y + q * x) / 2.0 }

  /** Telescoping: the first m + 1 terms of the series of b agree with s times those of the
      second kind, up to two boundary terms. */
  lemma {:induction false} Telescope(a: seq<real>, b: seq<real>, n: nat, s: real, m: nat, i: int)
    requires n >= 3 && |a| == n + 1 == |b| && Recurrence(a, b, n, s) && 1 <= m <= n
    ensures Telescoped(a, b, s, m, i)
  {
    if m == 1 {
      FirstTerms(a, b, n, s, i);
    } else {
      Telescope(a, b, n, s, m - 1, i);
      TelescopeMore(a, b, n, s, m, i);
    }
  }

  lemma TelescopeMore(a: seq<real>, b: seq<real>, n: nat, s: real, m: nat, i: int)
    requires n >= 3 && |a| == n + 1 == |b| && Recurrence(a, b, n, s) && 2 <= m <= n && Telescoped(a, b, s, m - 1, i)
    ensures Telescoped(a, b, s, m, i)
  {
    TwoKinds(m, i);
    RecurrenceGap(a, b, n, s, m);
    TelescopeStep(Series(b, m, i), Series(b, m + 1, i), SecondKindSeries(a, m, i), SecondKindSeries(a, m + 1, i),
                  b[m - 1], b[m], Padded(b, m + 1), V(m - 1, i), V(m, i), V(m + 1, i), T(m, i), s, Prod(m as real, a[m]));
  }

  lemma FirstTerms(a: seq<real>, b: seq<real>, n: nat, s: real, i: int)
    requires n >= 3 && |a| == n + 1 == |b| && Recurrence(a, b, n, s)
    ensures Telescoped(a, b, s, 1, i)
  {
    TwoKinds(1, i);
    assert Series(b, 1, i) == Series(b, 0, i) + b[0] * T(0, i);
    assert Series(b, 2, i) == Series(b, 1, i) + b[1] * T(1, i);
    assert SecondKindSeries(a, 1, i) == SecondKindSeries(a, 0, i) + (0.0 * a[0]) * V(0, i);
    assert SecondKindSeries(a, 2, i) == SecondKindSeries(a, 1, i) + (1.0 * a[1]) * V(1, i);
  }

  /** The series with coefficients b is s times the derivative of the series with coefficients a,
      coefficient by coefficient. */
  lemma SeriesDifferentiated(a: seq<real>, b: seq<real>, n: nat, s: real, i: int)
    requires n >= 3 && |a| == n + 1 == |b| && Recurrence(a, b, n, s)
    ensures Series(b, n + 1, i) == Prod(s, Derivative(a, n + 1, i))
  {
    Telescope(a, b, n, s, n, i);
    assert Telescoped(a, b, s, n, i);
    DerivativeIsSecondKind(a, n + 1, i);
  }

  // ---------- values ----------

  /** T(k) at x, by the three-term recurrence. */
  ghost function TAt(k: nat, x: real): real {
    if k == 0 then 1.0 else if k == 1 then x else 2.0 * Prod(x, TAt(k - 1, x)) - TAt(k - 2, x)
  }

  ghost function Power(x: real, i: nat): real {
    if i == 0 then 1.0 else Prod(x, Power(x, i - 1))
  }

  /** sum over i < d of T(k, i) x^i */
  ghost function TValue(k: nat, d: nat, x: real): real {
    if d == 0 then 0.0 else TValue(k, d - 1, x) + Prod(T(k, d - 1), Power(x, d - 1))
  }

  lemma {:induction false} TValueStep(k: nat, d: nat, x: real)
    requires k >= 2
    ensures TValue(k, d + 1, x) == 2.0 * Prod(x, TValue(k - 1, d, x)) - TValue(k - 2, d + 1, x)
  {
    if d > 0 {
      TValueStep(k, d - 1, x);
      ValueArithmetic(x, T(k - 1, d - 1), Power(x, d - 1), T(k - 2, d), TValue(k - 1, d - 1, x));
    } else {
      NoNegativePower(k - 1, -1);
      assert TValue(k, 1, x) == TValue(k, 0, x) + Prod(T(k, 0), Power(x, 0));
      assert TValue(k - 2, 1, x) == TValue(k - 2, 0, x) + Prod(T(k - 2, 0), Power(x, 0));
    }
  }

  lemma {:induction false} NoNegativePower(k: nat, i: int)
    requires i < 0 || i > k
    ensures T(k, i) == 0.0
  {
    if k >= 2 {
      NoNegativePower(k - 1, i - 1);
      NoNegativePower(k - 2, i);
    }
  }

  lemma ValueArithmetic(x: real, t1: real, p: real, t2: real, v: real)
    ensures Prod(2.0 * t1 - t2, Prod(x, p)) + 2.0 * Prod(x, v) == 2.0 * Prod(x, v + Prod(t1, p)) - Prod(t2, Prod(x, p))
  {
    assert Prod(2.0 * t1 - t2, Prod(x, p)) == 2.0 * (x * (t1 * p)) - t2 * (x * p);
    assert Prod(x, v + Prod(t1, p)) == x * v + x * (t1 * p);
  }

  /** The coefficients T(k, i) are those of the polynomial the recurrence defines. */
  lemma {:induction false} TValueIsTAt(k: nat, d: nat, x: real)
    requires d >= k
    ensures TValue(k, d + 1, x) == TAt(k, x)
  {
    if k == 0 {
      OnlyTerm(0, d, x);
    } else if k == 1 {
      OnlyTerm(1, d, x);
      assert Power(x, 1) == Prod(x, Power(x, 0));
    } else {
      TValueStep(k, d, x);
      TValueIsTAt(k - 1, d - 1, x);
      TValueIsTAt(k - 2, d, x);
    }
  }

  lemma {:induction false} OnlyTerm(k: nat, d: nat, x: real)
    requires k <= 1 && d >= k
    ensures TValue(k, d + 1, x) == Power(x, k)
  {
    if d > k {
      OnlyTerm(k, d - 1, x);
    } else if k == 1 {
      assert TValue(1, 1, x) == TValue(1, 0, x) + Prod(0.0, Power(x, 0));
      assert TValue(1, 2, x) == TValue(1, 1, x) + Prod(1.0, Power(x, 1));
    } else {
      assert TValue(0, 1, x) == TValue(0, 0, x) + Prod(1.0, Power(x, 0));
    }
  }

  /** sum over k < m of c[k] T(k) at x */
  ghost function SeriesAt(c: seq<real>, m: nat, x: real): real
    requires m <= |c|
  {
    if m == 0 then 0.0 else SeriesAt(c, m - 1, x) + Prod(c[m - 1], TAt(m - 1, x))
  }

  /** The polynomial with the given Chebyshev coefficients, summed by powers of x. */
  ghost function PowerSum(c: seq<real>, m: nat, d: nat, x: real): real
    requires m <= |c|
  {
    if d == 0 then 0.0 else PowerSum(c, m, d - 1, x) + Prod(Series(c, m, d - 1), Power(x, d - 1))
  }

  /** Its derivative, summed by powers of x. */
  ghost function DerivativeAtX(c: seq<real>, m: nat, d: nat, x: real): real
    requires m <= |c|
  {
    if d == 0 then 0.0 else DerivativeAtX(c, m, d - 1, x) + Prod(Derivative(c, m, d - 1), Power(x, d - 1))
  }

  lemma {:induction false} PowerSumMore(c: seq<real>, m: nat, d: nat, x: real)
    requires 0 < m <= |c|
    ensures PowerSum(c, m, d, x) == PowerSum(c, m - 1, d, x) + Prod(c[m - 1], TValue(m - 1, d, x))
  {
    if d > 0 {
      PowerSumMore(c, m, d - 1, x);
      PowerTerm(Series(c, m - 1, d - 1), c[m - 1], T(m - 1, d - 1), Power(x, d - 1), TValue(m - 1, d - 1, x));
    }
  }

  lemma PowerTerm(s: real, c: real, t: real, p: real, v: real)
    ensures Prod(s + Prod(c, t), p) + Prod(c, v) == Prod(s, p) + Prod(c, v + Prod(t, p))
  {
    assert Prod(s + Prod(c, t), p) == s * p + c * (t * p);
    assert Prod(c, v + Prod(t, p)) == c * v + c * (t * p);
  }

  lemma {:induction false} NoSeriesPowers(c: seq<real>, d: nat, x: real)
    ensures PowerSum(c, 0, d, x) == 0.0
  {
    if d > 0 {
      NoSeriesPowers(c, d - 1, x);
    }
  }

  lemma {:induction false} SeriesAtIsPowerSum(c: seq<real>, m: nat, d: nat, x: real)
    requires m <= |c| && m <= d
    ensures SeriesAt(c, m, x) == PowerSum(c, m, d, x)
  {
    if m == 0 {
      NoSeriesPowers(c, d, x);
    } else {
      SeriesAtIsPowerSum(c, m - 1, d, x);
      PowerSumMore(c, m, d, x);
      TValueIsTAt(m - 1, d - 1, x);
    }
  }

  lemma {:induction false} ScaledDerivative(a: seq<real>, b: seq<real>, n: nat, s: real, d: nat, x: real)
    requires n >= 3 && |a| == n + 1 == |b| && Recurrence(a, b, n, s)
    ensures PowerSum(b, n + 1, d, x) == Prod(s, DerivativeAtX(a, n + 1, d, x))
  {
    if d > 0 {
      ScaledDerivative(a, b, n, s, d - 1, x);
      SeriesDifferentiated(a, b, n, s, d - 1);
      ScaledTerm(s, DerivativeAtX(a, n + 1, d - 1, x), Derivative(a, n + 1, d - 1), Power(x, d - 1));
    }
  }

  lemma ScaledTerm(s: real, v: real, t: real, p: real)
    ensures Prod(s, v) + Prod(Prod(s, t), p) == Prod(s, v + Prod(t, p))
  {
    assert Prod(s, v + Prod(t, p)) == s * v + s * (t * p);
  }

  /** For every x the new series has the value span times the derivative of the old one. */
  lemma DifferentiatedAt(a: seq<real>, b: seq<real>, n: nat, s: real, x: real)
    requires n >= 3 && |a| == n + 1 == |b| && Recurrence(a, b, n, s)
    ensures SeriesAt(b, n + 1, x) == Prod(s, DerivativeAtX(a, n + 1, n + 1, x))
  {
    SeriesAtIsPowerSum(b, n + 1, n + 1, x);
    ScaledDerivative(a, b, n, s, n + 1, x);
  }

  // ---------- end points ----------

  lemma {:induction false} TAtOne(k: nat)
    ensures TAt(k, 1.0) == 1.0
  {
    if k >= 2 {
      TAtOne(k - 1);
      TAtOne(k - 2);
    }
  }

  lemma {:induction false} TAtMinusOne(k: nat)
    ensures TAt(k, -1.0) == if k % 2 == 0 then 1.0 else -1.0
  {
    if k >= 2 {
      TAtMinusOne(k - 1);
      TAtMinusOne(k - 2);
    }
  }

  /** sum of c[k] over k < m with k % 2 = r */
  ghost function ParitySum(c: seq<real>, r: nat, m: nat): real
    requires m <= |c|
  {
    if m == 0 then 0.0 else ParitySum(c, r, m - 1) + if (m - 1) % 2 == r then c[m - 1] else 0.0
  }

  /** The values at the end points are the sum and the difference of the two parity sums. */
  lemma {:induction false} EndPoints(c: seq<real>, m: nat)
    requires m <= |c|
    ensures SeriesAt(c, m, 1.0) == ParitySum(c, 0, m) + ParitySum(c, 1, m)
    ensures SeriesAt(c, m, -1.0) == ParitySum(c, 0, m) - ParitySum(c, 1, m)
  {
    if m > 0 {
      EndPoints(c, m - 1);
      TAtOne(m - 1);
      TAtMinusOne(m - 1);
    }
  }
}
