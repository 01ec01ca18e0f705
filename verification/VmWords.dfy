/** The 32-bit words of the virtual machine: the bit fields of an instruction and the arithmetic
    of the binary operations. */
module VmWords {
  import opened Options
  import opened Powers

  const MAX := 0x7FFF_FFFF
  const MIN := -0x8000_0000

  type int32 = x: int | MIN <= x <= MAX

  function Unsigned(x: int32): (u: nat)
    ensures u < 0x1_0000_0000
  {
    if x < 0 then x + 0x1_0000_0000 else x
  }

  function Signed(u: nat): (x: int32)
    requires u < 0x1_0000_0000
    ensures Unsigned(x) == u
  {
    if u > MAX then u - 0x1_0000_0000 else u
  }

  // ---------- instructions ----------

  const POP := 0
  const PUSH_CONST := 1
  const PUSH_IP := 2
  const PUSH_SP := 3
  const LOAD := 4
  const STORE := 5
  const JMP := 6
  const NOT := 7
  const PUTC := 8
  const GETC := 9
  const HALT := 10

  const ADD := 0
  const SUB := 1
  const MUL := 2
  const DIV := 3
  const AND := 4
  const OR := 5
  const XOR := 6
  const EQ := 7
  const LT := 8

  /** From the low end: 24 bits of operand, 7 of operation code, 1 that marks a binary operation. */
  datatype Instr = Instr(operand: nat, opcode: nat, binary: bool)

  predicate Fields(i: Instr) {
    i.operand < 0x100_0000 && i.opcode < 0x80
  }

  function Decode(word: int32): (i: Instr)
    ensures Fields(i)
  {
    var u := Unsigned(word);
    Instr(u % 0x100_0000, u / 0x100_0000 % 0x80, u / 0x8000_0000 == 1)
  }

  function Encode(i: Instr): int32
    requires Fields(i)
  {
    Signed(i.operand + 0x100_0000 * i.opcode + if i.binary then 0x8000_0000 else 0)
  }

  lemma DecodeEncode(i: Instr)
    requires Fields(i)
    ensures Decode(Encode(i)) == i
  {
  }

  lemma EncodeDecode(word: int32)
    ensures Encode(Decode(word)) == word
  {
  }

  // ---------- arithmetic ----------

  /** A result that the word cannot hold is undefined. */
  function Fit(x: int): Option<int32> {
    if MIN <= x <= MAX then Some(x) else None
  }

  function Magnitude(x: int): nat {
    if x < 0 then -x else x
  }

  /** Division that rounds towards zero. */
  function Quotient(a: int, b: int): (q: int)
    requires b != 0
  {
    var q := Magnitude(a) / Magnitude(b);
    if (a < 0) == (b < 0) then q else -q
  }

  /** The remainder is smaller than the divisor and has the sign of the dividend. */
  lemma QuotientRoundsToZero(a: int, b: int)
    requires b != 0
    ensures var r := a - Quotient(a, b) * b;
      Magnitude(r) < Magnitude(b) && (r == 0 || (r < 0 <==> a < 0))
  {
    var m, n := Magnitude(a), Magnitude(b);
    var r: int := m % n;
    assert m == m / n * n + r;
    assert a - Quotient(a, b) * b == if a < 0 then -r else r;
  }

  function OneBit(op: nat, c: nat, d: nat): (bit: nat)
    ensures bit < 2
  {
    if op == AND then if c == 1 && d == 1 then 1 else 0
    else if op == OR then if c == 1 || d == 1 then 1 else 0
    else if c != d then 1 else 0
  }

  /** The operation on the low k bits of two numbers. */
  function BitByBit(op: nat, x: nat, y: nat, k: nat): (r: nat)
    ensures r < Power2(k)
  {
    if k == 0 then 0 else OneBit(op, x % 2, y % 2) + 2 * BitByBit(op, x / 2, y / 2, k - 1)
  }

  lemma {:induction false} BitOfBitByBit(op: nat, x: nat, y: nat, k: nat, i: nat)
    requires i < k
    ensures Bit(BitByBit(op, x, y, k), i) == OneBit(op, Bit(x, i), Bit(y, i))
    decreases k
  {
    if i > 0 {
      BitOfBitByBit(op, x / 2, y / 2, k - 1, i - 1);
    }
  }

  lemma WordSize()
    ensures Power2(32) == 0x1_0000_0000
  {
    assert Power2(8) == 0x100;
    assert Power2(16) == 0x1_0000;
    assert Power2(24) == 0x100_0000;
  }

  function Bitwise(op: nat, a: int32, b: int32): int32 {
    WordSize();
    Signed(BitByBit(op, Unsigned(a), Unsigned(b), 32))
  }

  function Truth(b: bool): int32 {
    if b then 1 else 0
  }

  function BinaryResult(op: nat, a: int32, b: int32): Option<int32> {
    if op == ADD then Fit(a + b)
    else if op == SUB then Fit(a - b)
    else if op == MUL then Fit(a * b)
    else if op == DIV then if b == 0 then None else Fit(Quotient(a, b))
    else if op == AND || op == OR || op == XOR then Some(Bitwise(op, a, b))
    else if op == EQ then Some(Truth(a == b))
    else if op == LT then Some(Truth(a < b))
    else None
  }
}
