/** The in-place differentiation of a Chebyshev series.  A row of coefficients is a row of a
    matrix; source and target may be one and the same row. */
module SpectralDifferentiation {
  import opened Chebyshev

  ghost function Coefficients(a: array2<real>, i: nat, n: nat): (c: seq<real>)
    requires i < a.Length0 && n < a.Length1
    reads a
    ensures |c| == n + 1 && forall k | 0 <= k <= n :: c[k] == a[i, k]
  {
    seq(n + 1, k requires 0 <= k <= n reads a => a[i, k])
  }

  /** Entries j + 1 .. n of the target are final; b lists them. */
  ghost predicate DoneDownTo(a: seq<real>, b: seq<real>, n: nat, span: real, j: nat)
    requires n >= 3 && |a| == n + 1 == |b|
  {
    && b[n] == 0.0 && b[n - 1] == Gain(n, a[n], span)
    && forall k | j < k <= n - 2 :: RecurrenceAt(a, b, k, span)
  }

  lemma OneMore(a: seq<real>, b: seq<real>, n: nat, span: real, j: nat, v: real)
    requires n >= 3 && |a| == n + 1 == |b| && DoneDownTo(a, b, n, span, j) && j <= n - 2
    requires v == b[j + 2] + Gain(j + 1, a[j + 1], span)
    ensures j > 0 ==> DoneDownTo(a, b[j := v], n, span, j - 1)
  {
    var c := b[j := v];
    if j > 0 {
      forall k | j - 1 < k <= n - 2
        ensures RecurrenceAt(a, c, k, span)
      {
        if k > j {
          assert RecurrenceAt(a, b, k, span);
        }
      }
    }
  }

  lemma OneMoreGain(j: nat, x: real, span: real)
    ensures 2.0 * (j + 1) as real * x * span == Gain(j + 1, x, span)
  {
  }

  lemma TopDone(a: seq<real>, b: seq<real>, n: nat, span: real)
    requires n >= 3 && |a| == n + 1 == |b| && b[n] == 0.0
    requires b[n - 1] == Gain(n, a[n], span) && b[n - 2] == Gain(n - 1, a[n - 1], span)
    ensures DoneDownTo(a, b, n, span, n - 3)
  {
    forall k | n - 3 < k <= n - 2
      ensures RecurrenceAt(a, b, k, span)
    {
      assert k == n - 2;
    }
  }

  method SpectralDifferentiate(n: nat, src: array2<real>, i: nat, dst: array2<real>, o: nat, span: real)
    requires n >= 3 && i < src.Length0 && n < src.Length1 && o < dst.Length0 && n < dst.Length1
    modifies dst
    ensures Recurrence(old(Coefficients(src, i, n)), Coefficients(dst, o, n), n, span)
    ensures forall p, q | 0 <= p < dst.Length0 && 0 <= q < dst.Length1 && (p != o || q > n) :: dst[p, q] == old(dst[p, q])
  {
    ghost var a := Coefficients(src, i, n);
    var temp1, temp2 := src[i, n - 1], src[i, n - 2];
    dst[o, n - 1] := 2.0 * n as real * src[i, n] * span;
    dst[o, n - 2] := 2.0 * (n - 1) as real * temp1 * span;
    ghost var last, next := dst[o, n - 1], dst[o, n - 2];
    ghost var b := seq(n + 1, k => if k == n then 0.0 else if k == n - 1 then last else next);
    OneMoreGain(n - 1, a[n], span);
    OneMoreGain(n - 2, a[n - 1], span);
    TopDone(a, b, n, span);
    b, temp2 := Descend(n, src, i, dst, o, span, temp2, a, b);
    dst[o, 0] := 0.5 * dst[o, 2] + temp2 * span;
    dst[o, n] := 0.0;
    assert Coefficients(dst, o, n) == b[0 := dst[o, 0]];
    LastTerm(a, b, n, span, dst[o, 0]);
  }

  lemma LastTerm(a: seq<real>, b: seq<real>, n: nat, span: real, v: real)
    requires n >= 3 && |a| == n + 1 == |b| && DoneDownTo(a, b, n, span, 0)
    requires v == 0.5 * b[2] + a[1] * span
    ensures Recurrence(a, b[0 := v], n, span)
  {
    var c := b[0 := v];
    forall k | 1 <= k <= n - 2
      ensures RecurrenceAt(a, c, k, span)
    {
      assert RecurrenceAt(a, b, k, span);
    }
  }

  /** The backward loop. */
  method Descend(n: nat, src: array2<real>, i: nat, dst: array2<real>, o: nat, span: real, t2: real, ghost a: seq<real>, ghost b0: seq<real>)
    returns (ghost b: seq<real>, temp2: real)
    requires n >= 3 && i < src.Length0 && n < src.Length1 && o < dst.Length0 && n < dst.Length1
    requires |a| == n + 1 == |b0| && t2 == a[n - 2] && DoneDownTo(a, b0, n, span, n - 3)
    requires forall k | 0 <= k <= n - 3 :: src[i, k] == a[k]
    requires dst[o, n - 1] == b0[n - 1] && dst[o, n - 2] == b0[n - 2]
    modifies dst
    ensures |b| == n + 1 && DoneDownTo(a, b, n, span, 0) && temp2 == a[1]
    ensures forall k | 0 < k < n :: dst[o, k] == b[k]
    ensures forall p, q | 0 <= p < dst.Length0 && 0 <= q < dst.Length1 && (p != o || q > n) :: dst[p, q] == old(dst[p, q])
  {
    b, temp2 := b0, t2;
    var j := n - 3;
    while j > 0
      invariant 0 <= j <= n - 3 && |b| == n + 1 && temp2 == a[j + 1] && DoneDownTo(a, b, n, span, j)
      invariant forall k | 0 <= k <= j :: src[i, k] == a[k]
      invariant forall k | j < k < n :: dst[o, k] == b[k]
      invariant forall p, q | 0 <= p < dst.Length0 && 0 <= q < dst.Length1 && (p != o || q > n) :: dst[p, q] == old(dst[p, q])
    {
      var temp1 := src[i, j];
      dst[o, j] := dst[o, j + 2] + 2.0 * (j + 1) as real * temp2 * span;
      OneMoreGain(j, temp2, span);
      OneMore(a, b, n, span, j, dst[o, j]);
      b := b[j := dst[o, j]];
      temp2 := temp1;
      j := j - 1;
    }
  }

  /** The recurrence determines the result: there is only one coefficient vector of the derivative
      that the code can leave. */
  lemma {:induction false} RecurrenceUnique(a: seq<real>, b: seq<real>, c: seq<real>, n: nat, s: real, k: nat)
    requires n >= 3 && |a| == n + 1 == |b| == |c| && Recurrence(a, b, n, s) && Recurrence(a, c, n, s) && k <= n
    ensures b[k] == c[k]
    decreases n - k
  {
    if k == 0 {
      RecurrenceUnique(a, b, c, n, s, 2);
    } else if k <= n - 2 {
      RecurrenceUnique(a, b, c, n, s, k + 2);
      assert RecurrenceAt(a, b, k, s) && RecurrenceAt(a, c, k, s);
    }
  }
}
