/** The recency of the ways of one cache set: the history of touches, and the square bit matrix that
    stands for it in hardware. */
module Recency {

  // ---------- the history ----------

  /** The position of the last touch of w in the history h, or -1. */
  function LastTouch(h: seq<nat>, w: nat): (p: int)
    ensures -1 <= p < |h|
    ensures p >= 0 ==> h[p] == w
    ensures forall q | p < q < |h| :: h[q] != w
  {
    if h == [] then -1
    else if h[|h| - 1] == w then |h| - 1
    else LastTouch(h[..|h| - 1], w)
  }

  predicate NeverTouched(h: seq<nat>, w: nat) {
    w !in h
  }

  /** The way to give up: the lowest way that was never touched, and when there is none, the way
      whose last touch is the oldest. */
  ghost predicate LeastRecent(h: seq<nat>, n: nat, w: nat) {
    && w < n
    && if NeverTouched(h, w) then forall u: nat | u < w :: !NeverTouched(h, u)
       else forall u: nat | u < n && u != w :: LastTouch(h, w) < LastTouch(h, u)
  }

  lemma LeastRecentUnique(h: seq<nat>, n: nat, v: nat, w: nat)
    requires LeastRecent(h, n, v) && LeastRecent(h, n, w)
    ensures v == w
  {
    Touched(h, v);
    Touched(h, w);
    assert NeverTouched(h, v) <==> NeverTouched(h, w);
  }

  lemma Touched(h: seq<nat>, w: nat)
    ensures NeverTouched(h, w) <==> LastTouch(h, w) == -1
  {
    if w in h {
      var q :| 0 <= q < |h| && h[q] == w;
    }
  }

  lemma LastTouchAppend(h: seq<nat>, w: nat, u: nat)
    ensures LastTouch(h + [w], u) == if u == w then |h| else LastTouch(h, u)
  {
    assert (h + [w])[..|h|] == h;
  }

  // ---------- the matrix ----------

  type Bits = seq<seq<bool>>

  ghost predicate Square(m: Bits, n: nat) {
    |m| == n && forall i | 0 <= i < n :: |m[i]| == n
  }

  /** Bit [i][j] says that i was touched and that j's last touch is older or absent. */
  ghost predicate Stands(m: Bits, h: seq<nat>, n: nat) {
    && Square(m, n)
    && forall i: nat, j: nat {:trigger m[i][j]} | i < n && j < n :: m[i][j] <==> LastTouch(h, i) > LastTouch(h, j)
  }

  ghost function ZeroMatrix(n: nat): (m: Bits)
    ensures Square(m, n) && forall i, j | 0 <= i < n && 0 <= j < n :: !m[i][j]
  {
    seq(n, i => seq(n, j => false))
  }

  /** Row w set, then column w cleared. */
  ghost predicate Refreshed(m: Bits, m': Bits, n: nat, w: nat) {
    && Square(m, n) && Square(m', n)
    && forall i: nat, j: nat {:trigger m'[i][j]} | i < n && j < n :: m'[i][j] <==> (j != w && (i == w || m[i][j]))
  }

  lemma RefreshKeepsMeaning(m: Bits, m': Bits, h: seq<nat>, n: nat, w: nat)
    requires w < n && Stands(m, h, n) && Refreshed(m, m', n, w)
    ensures Stands(m', h + [w], n)
  {
    forall i: nat, j: nat | i < n && j < n
      ensures m'[i][j] <==> LastTouch(h + [w], i) > LastTouch(h + [w], j)
    {
      LastTouchAppend(h, w, i);
      LastTouchAppend(h, w, j);
    }
  }

  /** Whatever the sequence of touches, a matrix that starts at zero and is refreshed at each of them
      agrees with the history. */
  lemma {:induction false} MatrixIsHistory(ms: seq<Bits>, h: seq<nat>, n: nat)
    requires |ms| == |h| + 1 && ms[0] == ZeroMatrix(n)
    requires forall k | 0 <= k < |h| :: h[k] < n && Refreshed(ms[k], ms[k + 1], n, h[k])
    ensures Stands(ms[|h|], h, n)
  {
    if |h| > 0 {
      var p := |h| - 1;
      assert Refreshed(ms[p], ms[p + 1], n, h[p]);
      MatrixIsHistory(ms[..|h|], h[..p], n);
      RefreshKeepsMeaning(ms[p], ms[|h|], h[..p], n, h[p]);
      assert h == h[..p] + [h[p]];
    }
  }

  /** Such a matrix is a strict partial order. */
  lemma StrictPartialOrder(m: Bits, h: seq<nat>, n: nat, i: nat, j: nat, k: nat)
    requires Stands(m, h, n) && i < n && j < n && k < n
    ensures !m[i][i]
    ensures m[i][j] ==> !m[j][i]
    ensures m[i][j] && m[j][k] ==> m[i][k]
  {
  }

  ghost predicate ZeroRow(m: Bits, n: nat, i: nat)
    requires Square(m, n) && i < n
  {
    forall j: nat | j < n :: !m[i][j]
  }

  /** The way with the oldest last touch among the ways below k. */
  lemma {:induction false} Oldest(h: seq<nat>, k: nat) returns (w: nat)
    requires k > 0
    ensures w < k && forall u: nat | u < k :: LastTouch(h, w) <= LastTouch(h, u)
  {
    if k == 1 {
      w := 0;
    } else {
      w := Oldest(h, k - 1);
      if LastTouch(h, k - 1) < LastTouch(h, w) {
        w := k - 1;
      }
    }
  }

  lemma ZeroRowExists(m: Bits, h: seq<nat>, n: nat)
    requires n > 0 && Stands(m, h, n)
    ensures exists i: nat :: i < n && ZeroRow(m, n, i)
  {
    var w := Oldest(h, n);
    assert ZeroRow(m, n, w);
  }

  ghost predicate NoneOlder(h: seq<nat>, n: nat, u: nat) {
    forall v: nat | v < n :: LastTouch(h, u) <= LastTouch(h, v)
  }

  lemma ZeroRowIsOldest(m: Bits, h: seq<nat>, n: nat, u: nat)
    requires Stands(m, h, n) && u < n
    ensures ZeroRow(m, n, u) <==> NoneOlder(h, n, u)
  {
    forall v: nat | v < n
      ensures !m[u][v] <==> LastTouch(h, u) <= LastTouch(h, v)
    {
    }
  }

  /** The first zero row is the least recent way, and only it is. */
  lemma FirstZeroRow(m: Bits, h: seq<nat>, n: nat, i: nat)
    requires Stands(m, h, n) && i < n
    ensures ZeroRow(m, n, i) && (forall k: nat | k < i :: !ZeroRow(m, n, k)) <==> LeastRecent(h, n, i)
  {
    forall u: nat | u < n
      ensures NeverTouched(h, u) <==> LastTouch(h, u) == -1
    {
      Touched(h, u);
    }
    forall u: nat | u < n
      ensures ZeroRow(m, n, u) <==> NoneOlder(h, n, u)
    {
      ZeroRowIsOldest(m, h, n, u);
    }
    if LeastRecent(h, n, i) {
      forall k: nat | k < i
        ensures !ZeroRow(m, n, k)
      {
        assert m[k][i];
      }
    } else if ZeroRow(m, n, i) && LastTouch(h, i) == -1 {
      var u: nat :| u < i && NeverTouched(h, u);
      assert ZeroRow(m, n, u);
    }
  }

  lemma LeastRecentExists(h: seq<nat>, n: nat)
    requires n > 0
    ensures exists w: nat :: LeastRecent(h, n, w)
  {
    if exists u: nat :: u < n && NeverTouched(h, u) {
      var u: nat :| u < n && NeverTouched(h, u);
      LowestNeverTouched(h, n, u);
    } else {
      var w := Oldest(h, n);
      forall u: nat | u < n && u != w
        ensures LastTouch(h, w) < LastTouch(h, u)
      {
        Touched(h, u);
        Touched(h, w);
        assert h[LastTouch(h, u)] == u && h[LastTouch(h, w)] == w;
      }
      assert LeastRecent(h, n, w);
    }
  }

  lemma {:induction false} LowestNeverTouched(h: seq<nat>, n: nat, u: nat)
    requires u < n && NeverTouched(h, u)
    ensures exists w: nat :: LeastRecent(h, n, w)
  {
    if v: nat :| v < u && NeverTouched(h, v) {
      LowestNeverTouched(h, n, v);
    } else {
      assert LeastRecent(h, n, u);
    }
  }

  /** The way to give up as a function of the history. */
  ghost function Victim(h: seq<nat>, n: nat): (w: nat)
    requires n > 0
    ensures LeastRecent(h, n, w)
  {
    LeastRecentExists(h, n);
    var w: nat :| LeastRecent(h, n, w);
    w
  }
}
