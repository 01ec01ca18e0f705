/** The word tricks beside the cache: the logarithm of a power of two and the bit reversal. */
module BitOps {
  import opened Options

  // ---------- logarithms ----------

  function PowerOfTwo(k: bv6): bv32
    requires k < 32
  {
    1 << k
  }

  function LongPowerOfTwo(k: bv7): bv64
    requires k < 64
  {
    1 << k
  }

  lemma OneBit(k: bv6)
    requires k < 32
    ensures PowerOfTwo(k) & (PowerOfTwo(k) - 1) == 0
  {
  }

  lemma OneLongBit(k: bv7)
    requires k < 64
    ensures LongPowerOfTwo(k) & (LongPowerOfTwo(k) - 1) == 0
  {
  }

  /** None, for which the code throws, exactly for a word that is neither zero nor a power of two; 31
      for zero. */
  method Log2(word: bv32) returns (r: Option<bv6>)
    ensures r == None <==> word != 0 && forall k: bv6 | k < 32 :: PowerOfTwo(k) != word
    ensures r.Some? && word != 0 ==> r.value < 32 && PowerOfTwo(r.value) == word
    ensures word == 0 ==> r == Some(31)
  {
    if word & (word - 1) != 0 {
      forall k: bv6 | k < 32
        ensures PowerOfTwo(k) != word
      {
        OneBit(k);
      }
      return None;
    }
    var x, n: bv6 := word, 1;
    if x & 0xFFFF == 0 {
      n, x := n + 16, x >> 16;
    }
    if x & 0xFF == 0 {
      n, x := n + 8, x >> 8;
    }
    if x & 0xF == 0 {
      n, x := n + 4, x >> 4;
    }
    if x & 0x3 == 0 {
      n, x := n + 2, x >> 2;
    }
    n := n - if x & 1 == 1 then 1 else 0;
    assert word != 0 ==> n < 32 && PowerOfTwo(n) == word;
    return Some(n);
  }

  /** The same for words of 64 bits; 63 for zero. */
  method Log2Long(word: bv64) returns (r: Option<bv7>)
    ensures r == None <==> word != 0 && forall k: bv7 | k < 64 :: LongPowerOfTwo(k) != word
    ensures r.Some? && word != 0 ==> r.value < 64 && LongPowerOfTwo(r.value) == word
    ensures word == 0 ==> r == Some(63)
  {
    if word & (word - 1) != 0 {
      forall k: bv7 | k < 64
        ensures LongPowerOfTwo(k) != word
      {
        OneLongBit(k);
      }
      return None;
    }
    var x, n: bv7 := word, 1;
    if x & 0xFFFF_FFFF == 0 {
      n, x := n + 32, x >> 32;
    }
    if x & 0xFFFF == 0 {
      n, x := n + 16, x >> 16;
    }
    if x & 0xFF == 0 {
      n, x := n + 8, x >> 8;
    }
    if x & 0xF == 0 {
      n, x := n + 4, x >> 4;
    }
    if x & 0x3 == 0 {
      n, x := n + 2, x >> 2;
    }
    n := n - if x & 1 == 1 then 1 else 0;
    assert word != 0 ==> n < 64 && LongPowerOfTwo(n) == word;
    return Some(n);
  }

  // ---------- reversal ----------

  function Bit16(x: bv16, i: bv5): bool
    requires i < 16
  {
    (x >> i) & 1 == 1
  }

  function Bit32(x: bv32, i: bv6): bool
    requires i < 32
  {
    (x >> i) & 1 == 1
  }

  method Bitrev16(word: bv16) returns (x: bv16)
    ensures forall i: bv5 | i < 16 :: Bit16(x, i) == Bit16(word, 15 - i)
  {
    x := word;
    x := ((x >> 1) & 0x5555) | ((x & 0x5555) << 1);
    x := ((x >> 2) & 0x3333) | ((x & 0x3333) << 2);
    x := ((x >> 4) & 0x0F0F) | ((x & 0x0F0F) << 4);
    x := ((x >> 8) & 0x00FF) | ((x & 0x00FF) << 8);
  }

  method Bitrev32(word: bv32) returns (x: bv32)
    ensures forall i: bv6 | i < 32 :: Bit32(x, i) == Bit32(word, 31 - i)
  {
    x := word;
    x := ((x & 0x5555_5555) << 1) | ((x >> 1) & 0x5555_5555);
    x := ((x & 0x3333_3333) << 2) | ((x >> 2) & 0x3333_3333);
    x := ((x & 0x0F0F_0F0F) << 4) | ((x >> 4) & 0x0F0F_0F0F);
    x := (x << 24) | ((x & 0xFF00) << 8) | ((x >> 8) & 0xFF00) | (x >> 24);
  }
}
