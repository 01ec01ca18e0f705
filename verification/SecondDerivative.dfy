/** The second derivative of a double Chebyshev series after its boundary conditions are imposed:
    every row is differentiated twice in place. */
module SecondDerivative {
  import opened Matrices
  import opened Chebyshev
  import opened SpectralDifferentiation
  import opened BoundaryConditions

  /** Coefficient of x^i in the second formal derivative. */
  ghost function SecondCoefficient(c: seq<real>, m: nat, i: int): real
    requires m <= |c|
  {
    Prod((i + 1) as real, Prod((i + 2) as real, Series(c, m, i + 2)))
  }

  /** c is obtained from a by two differentiations. */
  ghost predicate TwiceDifferentiated(a: seq<real>, c: seq<real>, n: nat)
    requires n >= 3 && |a| == n + 1 == |c|
  {
    exists b: seq<real> :: |b| == n + 1 && Recurrence(a, b, n, 1.0) && Recurrence(b, c, n, 1.0)
  }

  /** Differentiating twice gives the second derivative, coefficient by coefficient. */
  lemma TwiceIsSecondDerivative(a: seq<real>, c: seq<real>, n: nat, i: int)
    requires n >= 3 && |a| == n + 1 == |c| && TwiceDifferentiated(a, c, n)
    ensures Series(c, n + 1, i) == SecondCoefficient(a, n + 1, i)
  {
    var b: seq<real> :| |b| == n + 1 && Recurrence(a, b, n, 1.0) && Recurrence(b, c, n, 1.0);
    SeriesDifferentiated(b, c, n, 1.0, i);
    SeriesDifferentiated(a, b, n, 1.0, i + 1);
  }

  method DifferentiateTwice(n: nat, a: array2<real>, i: nat, ghost d: seq<real>)
    requires n >= 3 && i < a.Length0 && n < a.Length1 && d == Coefficients(a, i, n)
    modifies a
    ensures TwiceDifferentiated(d, Coefficients(a, i, n), n)
    ensures forall p, q | 0 <= p < a.Length0 && 0 <= q < a.Length1 && p != i :: a[p, q] == old(a[p, q])
  {
    SpectralDifferentiate(n, a, i, a, i, 1.0);
    ghost var b := Coefficients(a, i, n);
    SpectralDifferentiate(n, a, i, a, i, 1.0);
    assert |b| == n + 1 && Recurrence(d, b, n, 1.0) && Recurrence(b, Coefficients(a, i, n), n, 1.0);
  }

  /** Row i of the result is the second derivative of row i of the homogenized input. */
  method SecondDerivative(m: nat, n: nat, src: array2<real>, dst: array2<real>, ghost d: Matrix)
    requires m >= 2 && n >= 3 && src.Length0 == dst.Length0 && src.Length1 == dst.Length1
    requires Holds(src, d, m + 1, n + 1)
    modifies dst
    ensures forall i | 0 <= i <= m :: TwiceDifferentiated(Homogenized(d, m, n)[i], Coefficients(dst, i, n), n)
  {
    ghost var e := HomogeneousBoundary(m, n, src, dst, d);
    var i := 0;
    while i <= m
      invariant 0 <= i <= m + 1
      invariant forall p, q | i <= p <= m && 0 <= q <= n :: dst[p, q] == At(e, p, q)
      invariant forall p | 0 <= p < i :: TwiceDifferentiated(e[p], Coefficients(dst, p, n), n)
    {
      label before:
      assert Coefficients(dst, i, n) == e[i] by {
        forall k | 0 <= k <= n
          ensures dst[i, k] == e[i][k]
        {
          assert dst[i, k] == At(e, i, k);
        }
      }
      DifferentiateTwice(n, dst, i, e[i]);
      forall p | 0 <= p < i
        ensures Coefficients(dst, p, n) == old@before(Coefficients(dst, p, n))
      {
      }
      i := i + 1;
    }
  }
}
