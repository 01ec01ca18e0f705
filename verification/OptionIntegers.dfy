/** Reading an integer option: the split of the text and the reader that works modulo the width of
    the target type. */
module OptionIntegers {
  import opened Options
  import opened Powers
  import opened Remainders

  // ---------- the text ----------

  /** The sign, base and digits of a text; hex says that 0x was read. */
  datatype Parts = Parts(negative: bool, hex: bool, digits: string)

  predicate Alnum(c: char) {
    '0' <= c <= '9' || 'a' <= c <= 'z' || 'A' <= c <= 'Z'
  }

  /** The text against (-)?(0x)?([0-9a-zA-Z]+)|((0x)?0).  A bare 0x is taken as digits, because the
      digits must not be empty. */
  function Split(text: string): Option<Parts> {
    var negative := text != [] && text[0] == '-';
    var rest := if negative then text[1..] else text;
    if rest == [] || exists k | 0 <= k < |rest| :: !Alnum(rest[k]) then None
    else if |rest| > 2 && rest[..2] == "0x" then Some(Parts(negative, true, rest[2..]))
    else Some(Parts(negative, false, rest))
  }

  function Base(p: Parts): nat {
    if p.hex then 16 else 10
  }

  function Digit(base: nat, c: char): Option<nat> {
    if '0' <= c <= '9' then Some(c as nat - '0' as nat)
    else if base == 16 && 'a' <= c <= 'f' then Some(c as nat - 'a' as nat + 10)
    else if base == 16 && 'A' <= c <= 'F' then Some(c as nat - 'A' as nat + 10)
    else None
  }

  predicate AllDigits(base: nat, s: string) {
    forall k | 0 <= k < |s| :: Digit(base, s[k]).Some?
  }

  // ---------- what the text denotes ----------

  /** The number that the digits denote. */
  function Numeral(base: nat, s: string): (n: int)
    requires AllDigits(base, s)
    ensures n >= 0
  {
    if s == [] then 0 else Numeral(base, s[..|s| - 1]) * base + Digit(base, s[|s| - 1]).value
  }

  /** The number that the text denotes. */
  function Denoted(text: string): Option<int> {
    var p :- Split(text);
    if AllDigits(Base(p), p.digits) then
      var n := Numeral(Base(p), p.digits);
      Some(if p.negative then -n else n)
    else None
  }

  /** An integer type of w bits. */
  datatype Target = Target(w: nat, signed: bool)

  /** Wide enough for one hexadecimal digit. */
  predicate Real(t: Target) {
    t.w >= 4
  }

  predicate InRange(t: Target, v: int)
    requires Real(t)
  {
    if t.signed then 0 <= v + Power2(t.w - 1) < Power2(t.w) else 0 <= v < Power2(t.w)
  }

  // ---------- what the reader accepts ----------

  function Residue(t: Target, base: nat, s: string): (u: int)
    requires AllDigits(base, s)
    ensures 0 <= u < Power2(t.w)
  {
    Numeral(base, s) % Power2(t.w)
  }

  /** The wrap test fires: reading digit k makes the residue smaller. */
  predicate DropsAt(t: Target, base: nat, s: string, k: nat)
    requires AllDigits(base, s) && k < |s|
  {
    Residue(t, base, s[..k]) > Residue(t, base, s[..k + 1])
  }

  predicate Drops(t: Target, base: nat, s: string)
    requires AllDigits(base, s)
  {
    exists k: nat | k < |s| :: DropsAt(t, base, s, k)
  }

  /** The largest magnitude that the range check lets through. */
  function Limit(t: Target, negative: bool): nat
    requires Real(t)
  {
    if !t.signed then Power2(t.w) - 1 else if negative then Power2(t.w - 1) else Power2(t.w - 1) - 1
  }

  /** What the reader makes of digits: their residue, unless the wrap test or the range check stops
      it, or an unsigned type meets a minus sign. */
  function Read(t: Target, p: Parts): Option<int>
    requires Real(t)
  {
    if !AllDigits(Base(p), p.digits) || Drops(t, Base(p), p.digits) then None
    else
      var u := Residue(t, Base(p), p.digits);
      if u > Limit(t, p.negative) then None
      else if !p.negative then Some(u)
      else if t.signed then Some(-u)
      else None
  }

  function Parsed(t: Target, text: string): Option<int>
    requires Real(t)
  {
    var p :- Split(text);
    Read(t, p)
  }

  // ---------- the reader ----------

  /** A value of the unsigned type of t cast to t. */
  function Cast(t: Target, u: int): int
    requires Real(t)
  {
    var m := Power2(t.w);
    if t.signed && u % m >= Power2(t.w - 1) then u % m - m else u % m
  }

  /** The minus sign: cast the magnitude less one, negate, and take one more away. */
  method CheckedNegate(t: Target, u: int) returns (r: Option<int>)
    requires Real(t) && 0 <= u < Power2(t.w) && u <= Limit(t, true)
    ensures r == if t.signed then Some(-u) else None
  {
    if !t.signed {
      return None;
    }
    CastOfBelow(t, u);
    return Some(-Cast(t, u - 1) - 1);
  }

  lemma CastOfBelow(t: Target, u: int)
    requires Real(t) && t.signed && 0 <= u <= Power2(t.w - 1)
    ensures Cast(t, u - 1) == u - 1
  {
    var m := Power2(t.w);
    if u == 0 {
      ModIs(-1, m, -1, m - 1);
    } else {
      ModSmall(u - 1, m);
    }
  }

  lemma ResidueStep(t: Target, base: nat, s: string)
    requires AllDigits(base, s) && s != []
    ensures Residue(t, base, s) == (Residue(t, base, s[..|s| - 1]) * base + Digit(base, s[|s| - 1]).value) % Power2(t.w)
  {
    ModDigit(Numeral(base, s[..|s| - 1]), Power2(t.w), base, Digit(base, s[|s| - 1]).value);
  }

  method IntegerParser(t: Target, text: string) returns (value: Option<int>)
    requires Real(t)
    ensures value == Parsed(t, text)
  {
    var parts := Split(text);
    if parts == None {
      return None;
    }
    var p := parts.value;
    var result := 0;
    ModSmall(0, Power2(t.w));
    for k := 0 to |p.digits|
      invariant AllDigits(Base(p), p.digits[..k])
      invariant result == Residue(t, Base(p), p.digits[..k])
      invariant !Drops(t, Base(p), p.digits[..k])
    {
      var digit := Digit(Base(p), p.digits[k]);
      if digit == None {
        return None;
      }
      var next := (result * Base(p) + digit.value) % Power2(t.w);
      OneMoreDigit(t, Base(p), p.digits[..k], p.digits[k]);
      assert p.digits[..k + 1] == p.digits[..k] + [p.digits[k]];
      if result > next {
        DropsLater(t, Base(p), p.digits, k);
        return None;
      }
      result := next;
    }
    assert p.digits[..|p.digits|] == p.digits;
    if result > Limit(t, p.negative) {
      return None;
    }
    if p.negative {
      value := CheckedNegate(t, result);
    } else {
      CastOfFitting(t, result);
      value := Some(Cast(t, result));
    }
  }

  lemma CastOfFitting(t: Target, u: int)
    requires Real(t) && 0 <= u <= Limit(t, false)
    ensures Cast(t, u) == u
  {
    ModSmall(u, Power2(t.w));
  }

  lemma OneMoreDigit(t: Target, base: nat, s: string, c: char)
    requires AllDigits(base, s) && Digit(base, c).Some?
    ensures AllDigits(base, s + [c])
    ensures Residue(t, base, s + [c]) == (Residue(t, base, s) * base + Digit(base, c).value) % Power2(t.w)
    ensures Drops(t, base, s + [c]) <==> Drops(t, base, s) || Residue(t, base, s) > Residue(t, base, s + [c])
  {
    var more := s + [c];
    assert more[..|s|] == s && more[..|s| + 1] == more;
    ResidueStep(t, base, more);
    forall k: nat | k < |s|
      ensures DropsAt(t, base, more, k) <==> DropsAt(t, base, s, k)
    {
      assert more[..k] == s[..k] && more[..k + 1] == s[..k + 1];
    }
    assert DropsAt(t, base, more, |s|) <==> Residue(t, base, s) > Residue(t, base, more);
    if Drops(t, base, s) {
      var k: nat :| k < |s| && DropsAt(t, base, s, k);
      assert DropsAt(t, base, more, k);
    }
  }

  /** A drop on a prefix is a drop of the whole. */
  lemma DropsLater(t: Target, base: nat, s: string, k: nat)
    requires k < |s| && AllDigits(base, s[..k + 1]) && Residue(t, base, s[..k]) > Residue(t, base, s[..k + 1])
    ensures AllDigits(base, s) ==> Drops(t, base, s)
  {
    if AllDigits(base, s) {
      assert DropsAt(t, base, s, k);
    }
  }
}
