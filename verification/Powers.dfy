/** Powers of two and the reversal of the low bits of a number. */
module Powers {

  function Power2(k: nat): (p: nat)
    ensures p > 0
  {
    if k == 0 then 1 else 2 * Power2(k - 1)
  }

  function Bit(x: nat, i: nat): (bit: nat)
    ensures bit < 2
  {
    if i == 0 then x % 2 else Bit(x / 2, i - 1)
  }

  /** The number whose only bit that may be set is bit b. */
  function Leading(c: nat, b: nat): nat
    requires c < 2
  {
    if c == 1 then Power2(b) else 0
  }

  /** The low b bits of p in reverse order. */
  function Rev(b: nat, p: nat): (r: nat)
    ensures r < Power2(b)
  {
    if b == 0 then 0 else Leading(p % 2, b - 1) + Rev(b - 1, p / 2)
  }

  lemma {:induction false} BitBelow(x: nat, b: nat, i: nat)
    requires x < Power2(b) && b <= i
    ensures Bit(x, i) == 0
    decreases i
  {
    if i > 0 {
      if b > 0 {
        BitBelow(x / 2, b - 1, i - 1);
      } else {
        BitBelow(x / 2, 0, i - 1);
      }
    }
  }

  lemma {:induction false} BitOfSum(c: nat, y: nat, b: nat, i: nat)
    requires c < 2 && y < Power2(b) && i <= b
    ensures Bit(Leading(c, b) + y, i) == if i == b then c else Bit(y, i)
  {
    if b > 0 && i > 0 {
      assert (Leading(c, b) + y) / 2 == Leading(c, b - 1) + y / 2;
      BitOfSum(c, y / 2, b - 1, i - 1);
    }
  }

  /** Bit i of the reversal is bit b - 1 - i of the number. */
  lemma {:induction false} RevBits(b: nat, p: nat, i: nat)
    requires i < b
    ensures Bit(Rev(b, p), i) == Bit(p, b - 1 - i)
    decreases b
  {
    BitOfSum(p % 2, Rev(b - 1, p / 2), b - 1, i);
    if i < b - 1 {
      RevBits(b - 1, p / 2, i);
    }
  }

  /** Numbers below a power of two are decided by their bits. */
  lemma {:induction false} BitsDecide(x: nat, y: nat, b: nat)
    requires x < Power2(b) && y < Power2(b) && forall i: nat | i < b :: Bit(x, i) == Bit(y, i)
    ensures x == y
  {
    if b > 0 {
      assert Bit(x, 0) == Bit(y, 0);
      forall i: nat | i < b - 1
        ensures Bit(x / 2, i) == Bit(y / 2, i)
      {
        assert Bit(x, i + 1) == Bit(y, i + 1);
      }
      BitsDecide(x / 2, y / 2, b - 1);
    }
  }

  lemma RevInvolution(b: nat, p: nat)
    requires p < Power2(b)
    ensures Rev(b, Rev(b, p)) == p
  {
    forall i: nat | i < b
      ensures Bit(Rev(b, Rev(b, p)), i) == Bit(p, i)
    {
      RevBits(b, Rev(b, p), i);
      RevBits(b, p, b - 1 - i);
    }
    BitsDecide(Rev(b, Rev(b, p)), p, b);
  }

  // ---------- shifts and masks ----------

  function ShiftRight(x: nat, k: nat): nat {
    if k == 0 then x else ShiftRight(x / 2, k - 1)
  }

  function LowBits(x: nat, k: nat): (r: nat)
    ensures r < Power2(k)
  {
    if k == 0 then 0 else x % 2 + 2 * LowBits(x / 2, k - 1)
  }

  lemma {:induction false} BitOfShift(x: nat, k: nat, i: nat)
    ensures Bit(ShiftRight(x, k), i) == Bit(x, k + i)
    decreases k
  {
    if k > 0 {
      BitOfShift(x / 2, k - 1, i);
    }
  }

  lemma {:induction false} BitOfLowBits(x: nat, k: nat, i: nat)
    ensures Bit(LowBits(x, k), i) == if i < k then Bit(x, i) else 0
    decreases k
  {
    if k > 0 && i > 0 {
      BitOfLowBits(x / 2, k - 1, i - 1);
    } else if k == 0 {
      BitBelow(0, 0, i);
    }
  }
}
