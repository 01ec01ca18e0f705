/** Which texts denote which numbers, told by the characters themselves: an optional minus sign, an
    optional 0x, and digits in which each hexadecimal letter may be small or capital. */
module OptionTexts {
  import opened Options
  import opened OptionIntegers

  ghost function Radix(hex: bool): nat {
    if hex then 16 else 10
  }

  /** The character is the digit d, in either case. */
  ghost predicate SpellsDigit(c: char, d: nat) {
    d < 16 && (c == "0123456789abcdef"[d] || c == "0123456789ABCDEF"[d])
  }

  ghost predicate Spells(digits: string, base: nat, ds: seq<nat>) {
    |digits| == |ds| && forall k | 0 <= k < |ds| :: ds[k] < base && SpellsDigit(digits[k], ds[k])
  }

  /** The number with the given digits, the highest first. */
  ghost function ValueOf(base: nat, ds: seq<nat>): nat {
    if ds == [] then 0 else base * ValueOf(base, ds[..|ds| - 1]) + ds[|ds| - 1]
  }

  ghost predicate Spelled(text: string, negative: bool, hex: bool, digits: string) {
    digits != [] && text == (if negative then "-" else "") + (if hex then "0x" else "") + digits
  }

  ghost function WithSign(negative: bool, n: int): int {
    if negative then -n else n
  }

  lemma DigitIs(hex: bool, c: char, d: nat)
    ensures d < Radix(hex) && SpellsDigit(c, d) <==> Digit(Radix(hex), c) == Some(d)
    ensures d < Radix(hex) && SpellsDigit(c, d) ==> Alnum(c) && c != 'x' && c != '-'
  {
  }

  lemma {:induction false} NumeralIsValue(hex: bool, digits: string, ds: seq<nat>)
    requires Spells(digits, Radix(hex), ds)
    ensures AllDigits(Radix(hex), digits) && Numeral(Radix(hex), digits) == ValueOf(Radix(hex), ds)
  {
    forall k | 0 <= k < |digits|
      ensures Digit(Radix(hex), digits[k]) == Some(ds[k])
    {
      DigitIs(hex, digits[k], ds[k]);
    }
    if ds != [] {
      NumeralIsValue(hex, digits[..|ds| - 1], ds[..|ds| - 1]);
    }
  }

  lemma SplitIs(text: string, negative: bool, hex: bool, digits: string)
    requires Spelled(text, negative, hex, digits)
    requires forall k | 0 <= k < |digits| :: Alnum(digits[k]) && digits[k] != 'x' && digits[k] != '-'
    ensures Split(text) == Some(Parts(negative, hex, digits))
  {
    var rest := (if hex then "0x" else "") + digits;
    assert negative ==> text[1..] == rest;
    assert !negative ==> text == rest;
    assert forall k | 0 <= k < |rest| :: Alnum(rest[k]);
    if hex {
      assert rest[..2] == "0x" && rest[2..] == digits;
    } else {
      assert rest == digits;
      assert |rest| > 2 ==> rest[..2][1] == digits[1];
    }
  }

  lemma DigitCharacters(hex: bool, digits: string, ds: seq<nat>)
    requires Spells(digits, Radix(hex), ds)
    ensures forall k | 0 <= k < |digits| :: Alnum(digits[k]) && digits[k] != 'x' && digits[k] != '-'
  {
    forall k | 0 <= k < |digits|
      ensures Alnum(digits[k]) && digits[k] != 'x' && digits[k] != '-'
    {
      DigitIs(hex, digits[k], ds[k]);
    }
  }

  lemma DenotedOfParts(text: string, p: Parts)
    requires Split(text) == Some(p) && AllDigits(Base(p), p.digits)
    ensures Denoted(text) == Some(WithSign(p.negative, Numeral(Base(p), p.digits)))
  {
  }

  /** A number written in any mix of small and capital letters denotes that number. */
  lemma SpelledDenotes(text: string, negative: bool, hex: bool, digits: string, ds: seq<nat>)
    requires Spelled(text, negative, hex, digits) && Spells(digits, Radix(hex), ds)
    ensures Denoted(text) == Some(WithSign(negative, ValueOf(Radix(hex), ds)))
  {
    DigitCharacters(hex, digits, ds);
    NumeralIsValue(hex, digits, ds);
    SplitIs(text, negative, hex, digits);
    DenotedOfParts(text, Parts(negative, hex, digits));
  }

  lemma SplitSpells(text: string)
    requires Split(text).Some?
    ensures var p := Split(text).value; Spelled(text, p.negative, p.hex, p.digits)
  {
    var p := Split(text).value;
    var rest := if p.negative then text[1..] else text;
    assert text == (if p.negative then "-" else "") + rest;
    if p.hex {
      assert rest == "0x" + p.digits;
    } else {
      assert rest == "" + p.digits;
    }
  }

  lemma DigitsSpell(hex: bool, digits: string) returns (ds: seq<nat>)
    requires AllDigits(Radix(hex), digits)
    ensures Spells(digits, Radix(hex), ds)
  {
    ds := seq(|digits|, k requires 0 <= k < |digits| => Digit(Radix(hex), digits[k]).value);
    forall k | 0 <= k < |digits|
      ensures ds[k] < Radix(hex) && SpellsDigit(digits[k], ds[k])
    {
      DigitIs(hex, digits[k], ds[k]);
    }
  }

  /** And every text that denotes a number is written so. */
  lemma DenotedIsSpelled(text: string) returns (negative: bool, hex: bool, digits: string, ds: seq<nat>)
    requires Denoted(text).Some?
    ensures Spelled(text, negative, hex, digits) && Spells(digits, Radix(hex), ds)
    ensures Denoted(text) == Some(WithSign(negative, ValueOf(Radix(hex), ds)))
  {
    var p := Split(text).value;
    negative, hex, digits := p.negative, p.hex, p.digits;
    SplitSpells(text);
    ds := DigitsSpell(hex, digits);
    SpelledDenotes(text, negative, hex, digits, ds);
  }

  /** The largest magnitudes that the range check lets through are those of the type. */
  lemma LimitsAreRange(t: Target, v: int)
    requires Real(t) && (v >= 0 || t.signed)
    ensures InRange(t, v) <==> (if v < 0 then -v else v) <= Limit(t, v < 0)
  {
  }
}
