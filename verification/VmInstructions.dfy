/** The instruction set in plain numbers: how a word is read, when an instruction is defined, and what
    it leaves in the registers and in the shared memory.  Nothing here uses the functions that compute
    the steps. */
module VmInstructions {
  import opened Options
  import opened Powers
  import opened VmWords
  import opened SharedMemoryVm

  /** The number of the 32 bits of a word. */
  ghost function BitsOf(word: int): int {
    if word < 0 then word + 0x1_0000_0000 else word
  }

  /** The fields of a word: 24 bits of operand, 7 of operation code, the highest for binary operations. */
  ghost predicate HasFields(word: int, operand: int, opcode: int, binary: bool) {
    && 0 <= operand < 0x100_0000 && 0 <= opcode < 0x80
    && BitsOf(word) == operand + 0x100_0000 * opcode + if binary then 0x8000_0000 else 0
  }

  /** Every word has exactly one such reading. */
  lemma FieldsAre(word: int32, operand: nat, opcode: nat, binary: bool)
    ensures HasFields(word, operand, opcode, binary) <==> Decode(word) == Instr(operand, opcode, binary)
  {
  }

  /** A machine about to execute an instruction word with the given fields. */
  ghost predicate Executes(s: Machine, operand: int, opcode: int, binary: bool) {
    !s.halted && 0 <= s.ip < |s.data| <= 0x7FFF_FFFF && HasFields(s.data[s.ip], operand, opcode, binary)
  }

  // ---------- binary operations ----------

  /** A bit of a word. */
  ghost function BitAt(word: int, i: nat): nat
    requires -0x8000_0000 <= word < 0x8000_0000
  {
    Bit(BitsOf(word), i)
  }

  ghost predicate IsWord(x: int) {
    -0x8000_0000 <= x < 0x8000_0000
  }

  ghost function Size(x: int): nat {
    if x < 0 then -x else x
  }

  /** r is a divided by b, rounded towards zero. */
  ghost predicate Divides(a: int, b: int, r: int) {
    var rest := a - r * b;
    Size(rest) < Size(b) && (rest == 0 || (rest < 0 <==> a < 0))
  }

  /** The operation on the lower word a and the upper word b has a defined result. */
  ghost predicate BinaryDefined(opcode: int, a: int, b: int) {
    match opcode
    case 0 => IsWord(a + b)
    case 1 => IsWord(a - b)
    case 2 => IsWord(a * b)
    case 3 => b != 0 && !(a == -0x8000_0000 && b == -1)
    case _ => opcode <= 8
  }

  /** What the word r has to do with the operands: addition, subtraction, multiplication, division, the
      three operations on bits, and the two comparisons. */
  ghost predicate BinaryLaw(opcode: int, a: int, b: int, r: int)
    requires IsWord(a) && IsWord(b) && IsWord(r)
  {
    match opcode
    case 0 => r == a + b
    case 1 => r + b == a
    case 2 => r == a * b
    case 3 => Divides(a, b, r)
    case 4 => forall i: nat | i < 32 :: BitAt(r, i) == 1 <==> BitAt(a, i) == 1 && BitAt(b, i) == 1
    case 5 => forall i: nat | i < 32 :: BitAt(r, i) == 1 <==> BitAt(a, i) == 1 || BitAt(b, i) == 1
    case 6 => forall i: nat | i < 32 :: BitAt(r, i) == 1 <==> BitAt(a, i) != BitAt(b, i)
    case 7 => r == if a == b then 1 else 0
    case 8 => r == if a < b then 1 else 0
    case _ => false
  }

  lemma BitwiseIs(op: nat, a: int32, b: int32)
    ensures forall i: nat | i < 32 :: BitAt(Bitwise(op, a, b), i) == OneBit(op, BitAt(a, i), BitAt(b, i))
  {
    forall i: nat | i < 32
      ensures BitAt(Bitwise(op, a, b), i) == OneBit(op, BitAt(a, i), BitAt(b, i))
    {
      BitOfBitByBit(op, Unsigned(a), Unsigned(b), 32, i);
    }
  }

  lemma QuotientFits(a: int32, b: int32)
    requires b != 0
    ensures Divides(a, b, Quotient(a, b))
    ensures Fit(Quotient(a, b)).Some? <==> !(a == -0x8000_0000 && b == -1)
  {
    QuotientRoundsToZero(a, b);
  }

  lemma ResultLaw(opcode: nat, a: int32, b: int32)
    ensures BinaryResult(opcode, a, b).Some? <==> BinaryDefined(opcode, a, b)
    ensures BinaryResult(opcode, a, b).Some? ==> BinaryLaw(opcode, a, b, BinaryResult(opcode, a, b).value)
  {
    if opcode == 3 && b != 0 {
      QuotientFits(a, b);
    } else if 4 <= opcode <= 6 {
      BitwiseIs(opcode, a, b);
    }
  }

  /** The two top words are replaced by one that obeys the law of the operation; nothing else changes
      but the registers. */
  ghost predicate BinaryEffect(s: Machine, s': Machine, opcode: int)
    requires 0 <= s.sp && s.sp + 1 < |s.data| <= 0x7FFF_FFFF && s.ip < 0x7FFF_FFFF
  {
    && |s'.data| == |s.data|
    && BinaryLaw(opcode, s.data[s.sp + 1], s.data[s.sp], s'.data[s.sp + 1])
    && s' == s.(data := s.data[s.sp + 1 := s'.data[s.sp + 1]], sp := s.sp + 1, ip := s.ip + 1)
  }

  lemma BinaryInstructions(s: Machine, operand: nat, opcode: nat)
    requires Executes(s, operand, opcode, true)
    ensures Step(s).Some? <==> 0 <= s.sp && s.sp + 1 < |s.data| && BinaryDefined(opcode, s.data[s.sp + 1], s.data[s.sp])
    ensures Step(s).Some? ==> BinaryEffect(s, Step(s).value, opcode)
  {
    FieldsAre(s.data[s.ip], operand, opcode, true);
    if 0 <= s.sp && s.sp + 1 < |s.data| {
      ResultLaw(opcode, s.data[s.sp + 1], s.data[s.sp]);
    }
  }

  // ---------- unary operations ----------

  /** So many words can be popped. */
  ghost predicate CanPop(s: Machine, n: nat) {
    0 <= s.sp && s.sp + n <= |s.data|
  }

  ghost predicate UnaryDefined(s: Machine, opcode: int) {
    match opcode
    case 0 => s.sp < 0x7FFF_FFFF
    case 1 => 0 < s.sp <= |s.data|
    case 2 => 0 < s.sp <= |s.data|
    case 3 => 0 < s.sp <= |s.data|
    case 4 => CanPop(s, 1) && 0 <= s.data[s.sp] < |s.data|
    case 5 => CanPop(s, 2) && 0 <= s.data[s.sp + 1] < |s.data|
    case 6 => CanPop(s, 2) && (s.data[s.sp] == 0 || s.data[s.sp + 1] > -0x8000_0000)
    case 7 => CanPop(s, 1)
    case 8 => CanPop(s, 1)
    case 9 => 0 < s.sp <= |s.data|
    case _ => opcode == 10
  }

  /** What the unary instructions leave, in the order of their codes: pop, push a constant, the next
      instruction pointer or the stack pointer, load, store, jump, not, put and get a character, halt. */
  ghost predicate UnaryEffect(s: Machine, s': Machine, operand: int, opcode: int)
    requires UnaryDefined(s, opcode) && |s.data| <= 0x7FFF_FFFF && s.ip < 0x7FFF_FFFF && 0 <= operand < 0x100_0000
  {
    match opcode
    case 0 => s' == s.(sp := s.sp + 1, ip := s.ip + 1)
    case 1 => s' == s.(data := s.data[s.sp - 1 := operand], sp := s.sp - 1, ip := s.ip + 1)
    case 2 => s' == s.(data := s.data[s.sp - 1 := s.ip + 1], sp := s.sp - 1, ip := s.ip + 1)
    case 3 => s' == s.(data := s.data[s.sp - 1 := s.sp], sp := s.sp - 1, ip := s.ip + 1)
    case 4 => s' == s.(data := s.data[s.sp := s.data[s.data[s.sp]]], ip := s.ip + 1)
    case 5 => s' == s.(data := s.data[s.data[s.sp + 1] := s.data[s.sp]], sp := s.sp + 2, ip := s.ip + 1)
    case 6 => s' == s.(sp := s.sp + 2, ip := if s.data[s.sp] != 0 then s.data[s.sp + 1] else s.ip + 1)
    case 7 => s' == s.(data := s.data[s.sp := if s.data[s.sp] == 0 then 1 else 0], ip := s.ip + 1)
    case 8 => s' == s.(output := s.output + [s.data[s.sp] % 256], sp := s.sp + 1, ip := s.ip + 1)
    case 9 => s' == s.(data := s.data[s.sp - 1 := if s.input == [] then 255 else s.input[0] % 256], sp := s.sp - 1,
                       input := if s.input == [] then [] else s.input[1..], ip := s.ip + 1)
    case _ => s' == s.(halted := true)
  }

  lemma UnaryInstructions(s: Machine, operand: nat, opcode: nat)
    requires Executes(s, operand, opcode, false)
    ensures Step(s).Some? <==> UnaryDefined(s, opcode)
    ensures Step(s).Some? ==> UnaryEffect(s, Step(s).value, operand, opcode)
  {
    FieldsAre(s.data[s.ip], operand, opcode, false);
  }

  /** Outside the memory no instruction is fetched. */
  lemma FetchesInside(s: Machine)
    requires |s.data| <= 0x7FFF_FFFF && Step(s).Some? && !s.halted
    ensures 0 <= s.ip < |s.data|
    ensures exists operand, opcode, binary :: Executes(s, operand, opcode, binary)
  {
    var i := Decode(s.data[s.ip]);
    FieldsAre(s.data[s.ip], i.operand, i.opcode, i.binary);
    assert Executes(s, i.operand, i.opcode, i.binary);
  }
}
