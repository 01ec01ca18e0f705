/** Which texts the integer reader gets right. */
module OptionIntegerTheorems {
  import opened Options
  import opened Powers
  import opened Remainders
  import opened OptionIntegers

  lemma OneDigitGrows(base: nat, s: string)
    requires base > 0 && s != [] && AllDigits(base, s)
    ensures Numeral(base, s[..|s| - 1]) <= Numeral(base, s)
  {
    ProductGrows(Numeral(base, s[..|s| - 1]), base);
  }

  lemma ProductGrows(n: int, base: nat)
    requires n >= 0 && base > 0
    ensures n <= n * base
  {
  }

  lemma {:induction false} PrefixAtMost(base: nat, s: string, k: nat)
    requires base > 0 && k <= |s| && AllDigits(base, s)
    ensures Numeral(base, s[..k]) <= Numeral(base, s)
    decreases |s| - k
  {
    if k < |s| {
      PrefixAtMost(base, s[..|s| - 1], k);
      assert s[..|s| - 1][..k] == s[..k];
      OneDigitGrows(base, s);
    } else {
      assert s[..k] == s;
    }
  }

  /** A numeral below the width never trips the wrap test. */
  lemma SmallNeverDrops(t: Target, base: nat, s: string)
    requires base > 0 && AllDigits(base, s) && Numeral(base, s) < Power2(t.w)
    ensures !Drops(t, base, s) && Residue(t, base, s) == Numeral(base, s)
  {
    ModSmall(Numeral(base, s), Power2(t.w));
    forall k: nat | k < |s|
      ensures !DropsAt(t, base, s, k)
    {
      PrefixAtMost(base, s, k + 1);
      PrefixAtMost(base, s[..k + 1], k);
      assert s[..k + 1][..k] == s[..k];
      ModSmall(Numeral(base, s[..k]), Power2(t.w));
      ModSmall(Numeral(base, s[..k + 1]), Power2(t.w));
    }
  }

  predicate Signless(text: string) {
    text == [] || text[0] != '-'
  }

  /** Every numeral in the range of the type, the most negative one included, is accepted and read
      exactly, unless the type is unsigned and the text has a minus sign. */
  lemma InRangeIsExact(t: Target, text: string)
    requires Real(t) && Denoted(text).Some? && InRange(t, Denoted(text).value)
    ensures Parsed(t, text) == Denoted(text) <==> t.signed || Signless(text)
  {
    var p := Split(text).value;
    SmallNeverDrops(t, Base(p), p.digits);
  }

  // ---------- which numbers are accepted ----------

  /** What the wrap test makes of a number n read digit by digit into m values: no digit makes the
      remainder smaller.  The digits before the last one denote n / base. */
  predicate Passes(m: nat, base: nat, n: nat)
    requires m > 0 && (base == 10 || base == 16)
  {
    if n < m then true
    else
      QuotientSmaller(base, n);
      n % m >= n / base % m && Passes(m, base, n / base)
  }

  lemma QuotientSmaller(base: nat, n: nat)
    requires (base == 10 || base == 16) && n > 0
    ensures 0 <= n / base < n
  {
    if base == 10 {
      assert n / 10 < n;
    } else {
      assert n / 16 < n;
    }
  }

  lemma DigitBelowBase(base: nat, c: char)
    requires (base == 10 || base == 16) && Digit(base, c).Some?
    ensures Digit(base, c).value < base
  {
  }

  lemma DropLastDigit(base: nat, s: string)
    requires (base == 10 || base == 16) && s != [] && AllDigits(base, s)
    ensures Numeral(base, s) / base == Numeral(base, s[..|s| - 1])
  {
    DigitBelowBase(base, s[|s| - 1]);
    if base == 10 {
      assert Numeral(10, s) / 10 == Numeral(10, s[..|s| - 1]);
    } else {
      assert Numeral(16, s) / 16 == Numeral(16, s[..|s| - 1]);
    }
  }

  lemma {:induction false} WrapTestSeesTheNumber(t: Target, base: nat, s: string)
    requires (base == 10 || base == 16) && AllDigits(base, s)
    ensures !Drops(t, base, s) <==> Passes(Power2(t.w), base, Numeral(base, s))
  {
    if Numeral(base, s) < Power2(t.w) {
      SmallNeverDrops(t, base, s);
    } else {
      var front := s[..|s| - 1];
      WrapTestSeesTheNumber(t, base, front);
      OneMoreDigit(t, base, front, s[|s| - 1]);
      assert front + [s[|s| - 1]] == s;
      DropLastDigit(base, s);
    }
  }

  /** The reader accepts a text exactly when its digits denote a number that passes the wrap test and
      whose remainder is in range, and a minus sign meets a signed type. */
  lemma AcceptedNumbers(t: Target, text: string)
    requires Real(t)
    ensures Parsed(t, text).Some? <==>
            && Denoted(text).Some?
            && (var p := Split(text).value; var n := Numeral(Base(p), p.digits);
                && Passes(Power2(t.w), Base(p), n) && n % Power2(t.w) <= Limit(t, p.negative)
                && (t.signed || !p.negative))
  {
    if Denoted(text).Some? {
      var p := Split(text).value;
      WrapTestSeesTheNumber(t, Base(p), p.digits);
    }
  }

  function Magnitude(v: int): nat {
    if v < 0 then -v else v
  }

  /** An accepted text is read exactly if and only if the magnitude of the number it denotes fits
      into the width. */
  lemma AcceptedIsExactIff(t: Target, text: string)
    requires Real(t) && Parsed(t, text).Some?
    ensures Denoted(text).Some?
    ensures Parsed(t, text) == Denoted(text) <==> Magnitude(Denoted(text).value) < Power2(t.w)
  {
    var p := Split(text).value;
    var n := Numeral(Base(p), p.digits);
    if n < Power2(t.w) {
      SmallNeverDrops(t, Base(p), p.digits);
    }
  }

  /** A number that leaves the width with its last digit passes exactly when its remainder has
      caught up with the digits before. */
  lemma LastDigitOverflow(m: nat, base: nat, n: nat)
    requires (base == 10 || base == 16) && n / base < m <= n
    ensures Passes(m, base, n) <==> n % m >= n / base
  {
    ModSmall(n / base, m);
  }

  // ---------- how many digits can be trusted ----------

  function Power(base: nat, k: nat): (p: nat)
    requires base > 0
    ensures p > 0
  {
    if k == 0 then 1 else Power(base, k - 1) * base
  }

  /** n - n / base, the room a number needs to pass when its last digit leaves the width. */
  function Gap(base: nat, n: nat): int
    requires base > 0
  {
    n - n / base
  }

  lemma {:induction false} GapGrows(base: nat, n: nat, top: nat)
    requires (base == 10 || base == 16) && n <= top
    ensures Gap(base, n) <= Gap(base, top)
    decreases top - n
  {
    if n < top {
      GapGrows(base, n, top - 1);
      if base == 10 {
        assert (top - 1) / 10 <= top / 10 <= (top - 1) / 10 + 1;
      } else {
        assert (top - 1) / 16 <= top / 16 <= (top - 1) / 16 + 1;
      }
    }
  }

  /** The gap of the largest number of so many digits. */
  lemma GapOfLargest(base: nat, length: nat)
    requires (base == 10 || base == 16) && length > 0
    ensures Gap(base, Power(base, length) - 1) == Power(base, length - 1) * (base - 1)
    ensures Power(base, length - 1) <= Power(base, length - 1) * (base - 1)
  {
    var q := Power(base, length - 1);
    if base == 10 {
      assert (q * 10 - 1) / 10 == q - 1;
    } else {
      assert (q * 16 - 1) / 16 == q - 1;
    }
  }

  /** Some number up to n has exactly the gap m. */
  lemma {:induction false} ExactGap(base: nat, m: nat, n: nat) returns (k: nat)
    requires (base == 10 || base == 16) && Gap(base, n) >= m > 0
    ensures k <= n && Gap(base, k) == m
  {
    if Gap(base, n) == m {
      k := n;
    } else {
      GapGrows(base, n - 1, n);
      if base == 10 {
        assert (n - 1) / 10 <= n / 10;
      } else {
        assert (n - 1) / 16 <= n / 16;
      }
      k := ExactGap(base, m, n - 1);
    }
  }

  lemma {:induction false} NumeralBelowPower(base: nat, s: string)
    requires (base == 10 || base == 16) && AllDigits(base, s)
    ensures Numeral(base, s) < Power(base, |s|)
  {
    if s != [] {
      NumeralBelowPower(base, s[..|s| - 1]);
      DigitBelowBase(base, s[|s| - 1]);
      var n, m := Numeral(base, s[..|s| - 1]), Power(base, |s| - 1);
      assert n * base + base <= m * base;
    }
  }

  function DigitChar(d: nat): char
    requires d < 16
  {
    "0123456789abcdef"[d]
  }

  /** n written with so many digits. */
  function Written(base: nat, n: nat, length: nat): string
    requires base == 10 || base == 16
  {
    if length == 0 then "" else Written(base, n / base, length - 1) + [DigitChar(n % base)]
  }

  lemma DigitOfChar(base: nat, d: nat)
    requires (base == 10 || base == 16) && d < base
    ensures Digit(base, DigitChar(d)) == Some(d) && Alnum(DigitChar(d)) && DigitChar(d) != 'x'
  {
  }

  lemma {:induction false} WrittenDenotes(base: nat, n: nat, length: nat)
    requires (base == 10 || base == 16) && n < Power(base, length)
    ensures var s := Written(base, n, length);
      && |s| == length && AllDigits(base, s) && Numeral(base, s) == n
      && forall k | 0 <= k < length :: Alnum(s[k]) && s[k] != 'x'
  {
    if length > 0 {
      var q := Power(base, length - 1);
      assert n / base < q by {
        if base == 10 {
          assert n < q * 10;
        } else {
          assert n < q * 16;
        }
      }
      WrittenDenotes(base, n / base, length - 1);
      DigitOfChar(base, n % base);
      var s := Written(base, n, length);
      assert s[..length - 1] == Written(base, n / base, length - 1);
    }
  }

  /** So many digits of a base, behind a sign that the type takes, are never read wrongly. */
  ghost predicate Trusted(t: Target, hex: bool, length: nat)
    requires Real(t)
  {
    forall text: string :: ReadRight(t, hex, length, text)
  }

  ghost predicate ReadRight(t: Target, hex: bool, length: nat, text: string)
    requires Real(t)
  {
    (exists p: Parts :: Split(text) == Some(p) && p.hex == hex && |p.digits| == length) && Parsed(t, text).Some? ==>
      Parsed(t, text) == Denoted(text)
  }

  lemma ShortIsRight(t: Target, hex: bool, length: nat, text: string)
    requires Real(t) && length > 0
    requires var base := if hex then 16 else 10; Power(base, length - 1) * (base - 1) < Power2(t.w)
    ensures ReadRight(t, hex, length, text)
  {
    if Parsed(t, text).Some? && Split(text).value.hex == hex && |Split(text).value.digits| == length {
      AcceptedIsExactIff(t, text);
      AcceptedNumbers(t, text);
      var p := Split(text).value;
      if Numeral(Base(p), p.digits) >= Power2(t.w) {
        ShortOverflowSeen(Power2(t.w), Base(p), p.digits);
      }
    }
  }

  /** A numeral of so few digits that is too large for the width overflows at its last digit, and
      that is seen. */
  lemma ShortOverflowSeen(m: nat, base: nat, digits: string)
    requires (base == 10 || base == 16) && digits != [] && AllDigits(base, digits)
    requires Power(base, |digits| - 1) * (base - 1) < m <= Numeral(base, digits)
    ensures !Passes(m, base, Numeral(base, digits))
  {
    var length, n := |digits|, Numeral(base, digits);
    NumeralBelowPower(base, digits);
    GapGrows(base, n, Power(base, length) - 1);
    GapOfLargest(base, length);
    DropLastDigit(base, digits);
    NumeralBelowPower(base, digits[..length - 1]);
    LastDigitOverflow(m, base, n);
    ModOnce(m, n);
  }

  lemma ModOnce(m: nat, n: nat)
    requires m <= n < 2 * m
    ensures n % m == n - m
  {
    assert Times(1, m) == m;
    ModIs(n, m, 1, n - m);
  }

  /** A text of so many digits that is accepted and read wrongly. */
  lemma WrongText(t: Target, hex: bool, length: nat) returns (text: string)
    requires Real(t) && length > 0
    requires var base := if hex then 16 else 10; Power(base, length - 1) * (base - 1) >= Power2(t.w)
    ensures !ReadRight(t, hex, length, text)
  {
    var base, m := if hex then 16 else 10, Power2(t.w);
    GapOfLargest(base, length);
    var n := ExactGap(base, m, Power(base, length) - 1);
    SmallQuotient(t, base, n);
    LastDigitOverflow(m, base, n);
    ModOnce(m, n);
    WrittenDenotes(base, n, length);
    var s := Written(base, n, length);
    text := if hex then "0x" + s else s;
    SplitOfWritten(hex, s, text);
    AcceptedNumbers(t, text);
    AcceptedIsExactIff(t, text);
  }

  lemma SplitOfWritten(hex: bool, s: string, text: string)
    requires |s| > 0 && (forall k | 0 <= k < |s| :: Alnum(s[k]) && s[k] != 'x')
    requires text == if hex then "0x" + s else s
    ensures Split(text) == Some(Parts(false, hex, s))
  {
    assert forall k | 0 <= k < |text| :: Alnum(text[k]);
    if hex {
      assert text[..2] == "0x" && text[2..] == s;
    } else if |s| > 2 {
      assert s[..2][1] == s[1] != 'x';
    }
  }

  /** A number with gap 2^w is past the width, its quotient by the base is small, and so is its
      remainder. */
  lemma SmallQuotient(t: Target, base: nat, n: nat)
    requires Real(t) && (base == 10 || base == 16) && Gap(base, n) == Power2(t.w)
    ensures Power2(t.w) <= n < 2 * Power2(t.w) && n / base < Power2(t.w)
    ensures n - Power2(t.w) == n / base <= Limit(t, false)
  {
    var m := Power2(t.w);
    var h := Power2(t.w - 2);
    assert Power2(t.w - 1) == 2 * h && m == 4 * h && h >= 4 by {
      assert h == 2 * Power2(t.w - 3) && Power2(t.w - 3) == 2 * Power2(t.w - 4);
    }
    if base == 10 {
      assert n / 10 * 10 <= n;
    } else {
      assert n / 16 * 16 <= n;
    }
  }

  /** Exactly the lengths with base^(length - 1) (base - 1) < 2^w can be trusted. */
  lemma TrustedLengths(t: Target, hex: bool, length: nat)
    requires Real(t) && length > 0
    ensures var base := if hex then 16 else 10;
      Trusted(t, hex, length) <==> Power(base, length - 1) * (base - 1) < Power2(t.w)
  {
    var base := if hex then 16 else 10;
    if Power(base, length - 1) * (base - 1) < Power2(t.w) {
      forall text: string
        ensures ReadRight(t, hex, length, text)
      {
        ShortIsRight(t, hex, length, text);
      }
    } else {
      var text := WrongText(t, hex, length);
    }
  }

  /** One text that is read wrongly: an unsigned byte accepts 300 and reads 44. */
  lemma ThreeHundredIsFortyFour()
    ensures Parsed(Target(8, false), "300") == Some(44) && Denoted("300") == Some(300)
  {
    var t, s := Target(8, false), "300";
    assert Power2(8) == 256;
    assert s[..0] == [] && s[..1] == "3" && s[..2] == "30" && s[..3] == s;
    assert "3"[..0] == [] && "30"[..1] == "3" && "300"[..2] == "30";
    assert Digit(10, '3') == Some(3) && Digit(10, '0') == Some(0);
    assert Numeral(10, []) == 0 && Numeral(10, "3") == 3 && Numeral(10, "30") == 30 && Numeral(10, "300") == 300;
    assert !DropsAt(t, 10, s, 0) && !DropsAt(t, 10, s, 1) && !DropsAt(t, 10, s, 2);
    assert !Drops(t, 10, s);
    assert Residue(t, 10, s) == 44;
    assert forall k | 0 <= k < |s| :: Alnum(s[k]);
    assert Split(s) == Some(Parts(false, false, s));
  }

  /** A minus sign on zero is fine for a signed type and refused by an unsigned one. */
  lemma MinusZero(w: nat)
    requires w >= 4
    ensures Parsed(Target(w, true), "-0") == Some(0) && Parsed(Target(w, false), "-0") == None
  {
    assert "-0"[1..] == "0" && "0"[..0] == [];
    assert forall k | 0 <= k < |"0"| :: Alnum("0"[k]);
    assert Split("-0") == Some(Parts(true, false, "0"));
    assert Numeral(10, "0") == 0;
    InRangeIsExact(Target(w, true), "-0");
  }
}
