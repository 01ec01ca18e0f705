/** Postfix code of expression trees and what running it does. */
module PostfixCode {
  import opened Options
  import opened VmWords
  import opened SharedMemoryVm
  import opened StackMachine

  /** Cell reads the memory word whose address the operand gives. */
  datatype Expr = Const(n: nat) | Not(e: Expr) | Cell(e: Expr) | Op(op: nat, left: Expr, right: Expr)

  predicate Encodable(e: Expr) {
    match e
    case Const(n) => n < 0x100_0000
    case Not(e) => Encodable(e)
    case Cell(e) => Encodable(e)
    case Op(op, left, right) => op < 0x80 && Encodable(left) && Encodable(right)
  }

  function Code(e: Expr): (code: seq<int32>)
    requires Encodable(e)
    ensures |code| > 0
  {
    match e
    case Const(n) => [Encode(Instr(n, PUSH_CONST, false))]
    case Not(e) => Code(e) + [Encode(Instr(0, NOT, false))]
    case Cell(e) => Code(e) + [Encode(Instr(0, LOAD, false))]
    case Op(op, left, right) => Code(left) + Code(right) + [Encode(Instr(0, op, true))]
  }

  /** The value of an expression over a memory, None for an address outside it or an undefined
      arithmetic result. */
  function Value(memory: seq<int32>, e: Expr): Option<int32>
    requires Encodable(e)
  {
    match e
    case Const(n) => Some(n)
    case Not(e) =>
      var v :- Value(memory, e);
      Some(Truth(v == 0))
    case Cell(e) =>
      var v :- Value(memory, e);
      if 0 <= v < |memory| then Some(memory[v]) else None
    case Op(op, left, right) =>
      var a :- Value(memory, left);
      var b :- Value(memory, right);
      BinaryResult(op, a, b)
  }

  /** The stack room the code needs. */
  function Depth(e: Expr): (depth: nat)
    ensures depth > 0
  {
    match e
    case Const(_) => 1
    case Not(e) => Depth(e)
    case Cell(e) => Depth(e)
    case Op(_, left, right) => if Depth(left) > Depth(right) then Depth(left) else 1 + Depth(right)
  }

  ghost predicate CodeAt(h: Clean, at: int, code: seq<int32>) {
    0 <= at <= at + |code| <= |h.code| && h.code[at..at + |code|] == code
  }

  // ---------- runs as sequences of states ----------

  ghost predicate Link(run: seq<Clean>, i: nat)
    requires i + 1 < |run|
  {
    Sound(run[i]) && !run[i].halted && CleanStep(run[i]) == Some(run[i + 1])
  }

  /** A run of n steps from h to h'. */
  ghost predicate Leads(run: seq<Clean>, h: Clean, n: nat, h': Clean) {
    |run| == n + 1 && run[0] == h && run[n] == h' && forall i: nat | i < n :: Link(run, i)
  }

  lemma Joined(r1: seq<Clean>, r2: seq<Clean>, h: Clean, m: nat, h1: Clean, n: nat, h2: Clean) returns (run: seq<Clean>)
    requires Leads(r1, h, m, h1) && Leads(r2, h1, n, h2)
    ensures Leads(run, h, m + n, h2)
  {
    run := r1 + r2[1..];
    forall i: nat | i < m + n
      ensures Link(run, i)
    {
      if i < m {
        assert Link(r1, i);
      } else {
        assert Link(r2, i - m);
      }
    }
  }

  lemma Single(h: Clean, i: Instr, h': Clean) returns (run: seq<Clean>)
    requires Sound(h) && !h.halted && 0 <= h.ip < |h.code| && Decode(h.code[h.ip]) == i && CleanExecute(h, i) == Some(h')
    ensures Leads(run, h, 1, h')
  {
    run := [h, h'];
    assert Link(run, 0);
  }

  lemma {:induction false} LeadsIsSteps(run: seq<Clean>, h: Clean, n: nat, h': Clean)
    requires Leads(run, h, n, h') && Sound(h)
    ensures CleanSteps(h, n) == Some(h')
    decreases n
  {
    if n > 0 {
      assert Link(run, 0);
      StepStaysSound(h);
      var rest := run[1..];
      forall i: nat | i < n - 1
        ensures Link(rest, i)
      {
        assert Link(run, i + 1);
      }
      LeadsIsSteps(rest, run[1], n - 1, h');
    }
  }

  // ---------- the code of an expression ----------

  /** The machine after the code: the value pushed, the instruction pointer behind the code. */
  ghost function Pushed(h: Clean, v: int32, length: nat): Clean {
    h.(stack := [v] + h.stack, ip := h.ip + length)
  }

  ghost function Memory(h: Clean): seq<int32> {
    h.code + h.statics
  }

  lemma FetchLast(h: Clean, h1: Clean, front: seq<int32>, i: Instr)
    requires Fields(i) && CodeAt(h, h.ip, front + [Encode(i)]) && h1.code == h.code && h1.ip == h.ip + |front|
    ensures 0 <= h1.ip < |h1.code| && Decode(h1.code[h1.ip]) == i
  {
    DecodeEncode(i);
    assert (front + [Encode(i)])[|front|] == Encode(i);
  }

  /** One more instruction behind code that was run. */
  lemma AppendInstr(h: Clean, front: seq<int32>, i: Instr, r: seq<Clean>, h1: Clean, h2: Clean) returns (run: seq<Clean>)
    requires Fields(i) && CodeAt(h, h.ip, front + [Encode(i)])
    requires Leads(r, h, |front|, h1) && Sound(h1) && !h1.halted && h1.code == h.code && h1.ip == h.ip + |front|
    requires 0 <= h1.ip < |h1.code| && CleanExecute(h1, i) == Some(h2)
    ensures Leads(run, h, |front| + 1, h2)
  {
    FetchLast(h, h1, front, i);
    var last := Single(h1, i, h2);
    run := Joined(r, last, h, |front|, h1, 1, h2);
  }

  lemma CodeSplits(h: Clean, at: int, front: seq<int32>, back: seq<int32>)
    requires CodeAt(h, at, front + back)
    ensures CodeAt(h, at, front) && CodeAt(h, at + |front|, back)
  {
    assert (front + back)[..|front|] == front;
    assert (front + back)[|front|..] == back;
  }

  /** Running the code of an expression pushes exactly its value. */
  lemma {:induction false} RunsToValue(h: Clean, e: Expr) returns (run: seq<Clean>)
    requires Sound(h) && !h.halted && Encodable(e) && CodeAt(h, h.ip, Code(e))
    requires |h.stack| + Depth(e) <= h.room && Value(Memory(h), e).Some?
    ensures Leads(run, h, |Code(e)|, Pushed(h, Value(Memory(h), e).value, |Code(e)|))
    decreases e, 1
  {
    match e
    case Const(n) =>
      run := RunsConst(h, n);
    case Not(f) =>
      CodeSplits(h, h.ip, Code(f), [Encode(Instr(0, NOT, false))]);
      var r := RunsToValue(h, f);
      run := RunsNot(h, Code(f), Value(Memory(h), f).value, r);
    case Cell(f) =>
      CodeSplits(h, h.ip, Code(f), [Encode(Instr(0, LOAD, false))]);
      var r := RunsToValue(h, f);
      run := RunsCell(h, Code(f), Value(Memory(h), f).value, r);
    case Op(op, left, right) =>
      var r1, r2 := RunsOperands(h, op, left, right);
      run := RunsOp(h, op, Code(left), Code(right), Value(Memory(h), left).value, Value(Memory(h), right).value, r1, r2);
  }

  /** An operation has values and room for its operands, whose code stands one behind the other. */
  lemma Operands(h: Clean, op: nat, left: Expr, right: Expr)
    requires Encodable(Op(op, left, right)) && CodeAt(h, h.ip, Code(Op(op, left, right)))
    requires |h.stack| + Depth(Op(op, left, right)) <= h.room && Value(Memory(h), Op(op, left, right)).Some?
    ensures CodeAt(h, h.ip, Code(left) + Code(right) + [Encode(Instr(0, op, true))])
    ensures CodeAt(h, h.ip, Code(left)) && CodeAt(h, h.ip + |Code(left)|, Code(right))
    ensures Value(Memory(h), left).Some? && Value(Memory(h), right).Some?
    ensures |h.stack| + Depth(left) <= h.room && |h.stack| + 1 + Depth(right) <= h.room
  {
    CodeSplits(h, h.ip, Code(left) + Code(right), [Encode(Instr(0, op, true))]);
    CodeSplits(h, h.ip, Code(left), Code(right));
  }

  /** The runs of the two operands, one behind the other. */
  lemma {:induction false} RunsOperands(h: Clean, op: nat, left: Expr, right: Expr) returns (r1: seq<Clean>, r2: seq<Clean>)
    requires Sound(h) && !h.halted && Encodable(Op(op, left, right)) && CodeAt(h, h.ip, Code(Op(op, left, right)))
    requires |h.stack| + Depth(Op(op, left, right)) <= h.room && Value(Memory(h), Op(op, left, right)).Some?
    ensures CodeAt(h, h.ip, Code(left) + Code(right) + [Encode(Instr(0, op, true))])
    ensures Value(Memory(h), left).Some? && Value(Memory(h), right).Some?
    ensures var a, b := Value(Memory(h), left).value, Value(Memory(h), right).value;
      && Leads(r1, h, |Code(left)|, Pushed(h, a, |Code(left)|))
      && Leads(r2, Pushed(h, a, |Code(left)|), |Code(right)|, Pushed(Pushed(h, a, |Code(left)|), b, |Code(right)|))
    decreases Op(op, left, right), 0
  {
    Operands(h, op, left, right);
    r1 := RunsToValue(h, left);
    r2 := RunsToValue(Pushed(h, Value(Memory(h), left).value, |Code(left)|), right);
  }

  lemma RunsConst(h: Clean, n: nat) returns (run: seq<Clean>)
    requires Sound(h) && !h.halted && n < 0x100_0000 && CodeAt(h, h.ip, Code(Const(n))) && |h.stack| < h.room
    ensures Leads(run, h, 1, Pushed(h, n, 1))
  {
    assert [] + Code(Const(n)) == Code(Const(n));
    FetchLast(h, h, [], Instr(n, PUSH_CONST, false));
    run := Single(h, Instr(n, PUSH_CONST, false), Pushed(h, n, 1));
  }

  lemma RunsOp(h: Clean, op: nat, left: seq<int32>, right: seq<int32>, a: int32, b: int32, r1: seq<Clean>, r2: seq<Clean>)
    returns (run: seq<Clean>)
    requires Sound(h) && !h.halted && op < 0x80 && CodeAt(h, h.ip, left + right + [Encode(Instr(0, op, true))])
    requires |h.stack| + 2 <= h.room && BinaryResult(op, a, b).Some?
    requires Leads(r1, h, |left|, Pushed(h, a, |left|))
    requires Leads(r2, Pushed(h, a, |left|), |right|, Pushed(Pushed(h, a, |left|), b, |right|))
    ensures Leads(run, h, |left| + |right| + 1, Pushed(h, BinaryResult(op, a, b).value, |left| + |right| + 1))
  {
    var h2 := Pushed(Pushed(h, a, |left|), b, |right|);
    var r := Joined(r1, r2, h, |left|, Pushed(h, a, |left|), |right|, h2);
    OpExecutes(h, op, a, b, |left|, |right|);
    run := AppendInstr(h, left + right, Instr(0, op, true), r, h2, Pushed(h, BinaryResult(op, a, b).value, |left| + |right| + 1));
  }

  lemma RunsNot(h: Clean, code: seq<int32>, v: int32, r: seq<Clean>) returns (run: seq<Clean>)
    requires Sound(h) && !h.halted && CodeAt(h, h.ip, code + [Encode(Instr(0, NOT, false))]) && |h.stack| < h.room
    requires Leads(r, h, |code|, Pushed(h, v, |code|))
    ensures Leads(run, h, |code| + 1, Pushed(h, Truth(v == 0), |code| + 1))
  {
    assert Pushed(h, v, |code|).stack[1..] == h.stack;
    run := AppendInstr(h, code, Instr(0, NOT, false), r, Pushed(h, v, |code|), Pushed(h, Truth(v == 0), |code| + 1));
  }

  lemma RunsCell(h: Clean, code: seq<int32>, v: int32, r: seq<Clean>) returns (run: seq<Clean>)
    requires Sound(h) && !h.halted && CodeAt(h, h.ip, code + [Encode(Instr(0, LOAD, false))]) && |h.stack| < h.room
    requires Leads(r, h, |code|, Pushed(h, v, |code|)) && 0 <= v < |Memory(h)|
    ensures Leads(run, h, |code| + 1, Pushed(h, Memory(h)[v], |code| + 1))
  {
    assert Pushed(h, v, |code|).stack[1..] == h.stack;
    run := AppendInstr(h, code, Instr(0, LOAD, false), r, Pushed(h, v, |code|), Pushed(h, Memory(h)[v], |code| + 1));
  }

  lemma OpExecutes(h: Clean, op: nat, a: int32, b: int32, m: nat, n: nat)
    requires Sound(h) && |h.stack| + 2 <= h.room && 0 <= h.ip && h.ip + m + n < |h.code| && op < 0x80
    requires BinaryResult(op, a, b).Some?
    ensures CleanExecute(Pushed(Pushed(h, a, m), b, n), Instr(0, op, true)) == Some(Pushed(h, BinaryResult(op, a, b).value, m + n + 1))
  {
    assert Pushed(Pushed(h, a, m), b, n).stack[1..] == [a] + h.stack;
    assert ([a] + h.stack)[1..] == h.stack;
  }

  /** On the machine with one shared array: the value of the expression is pushed, the stack that was
      there and the memory below the free room are as before. */
  lemma SharedMemoryRunsToValue(s: Machine, e: Expr, low: nat) returns (after: Machine)
    requires |s.data| <= MAX && !s.halted && Encodable(e)
    requires 0 <= s.ip && s.ip + |Code(e)| <= low && low + Depth(e) <= s.sp <= |s.data|
    requires s.data[s.ip..s.ip + |Code(e)|] == Code(e) && Value(s.data[..low], e).Some?
    ensures Steps(s, |Code(e)|) == Some(after) && !after.halted
    ensures after.ip == s.ip + |Code(e)| && after.sp == s.sp - 1
    ensures |after.data| == |s.data| && after.data[s.sp - 1] == Value(s.data[..low], e).value
    ensures after.data[s.sp..] == s.data[s.sp..] && after.data[..low] == s.data[..low]
    ensures after.input == s.input && after.output == s.output
  {
    var h := Clean(s.data[..low], [], s.data[s.sp..], |s.data| - low, s.ip, false, s.input, s.output);
    assert Sim(s, h);
    assert h.code[h.ip..h.ip + |Code(e)|] == Code(e);
    assert Memory(h) == s.data[..low];
    var run := RunsToValue(h, e);
    LeadsIsSteps(run, h, |Code(e)|, Pushed(h, Value(Memory(h), e).value, |Code(e)|));
    var clean;
    after, clean := Refines(s, h, |Code(e)|);
    LaidOut(after, clean);
  }

  lemma LaidOut(s: Machine, h: Clean)
    requires Sim(s, h) && h.statics == [] && 0 <= s.sp <= |s.data|
    ensures |h.code| <= |s.data| && s.data[..|h.code|] == h.code && s.data[s.sp..] == h.stack
  {
    forall a: nat | a < |s.data|
      ensures a < |h.code| ==> s.data[a] == h.code[a]
      ensures s.sp <= a ==> s.data[a] == h.stack[a - s.sp]
    {
      assert CellHolds(s.data, s.sp, h.code, h.statics, h.stack, a);
    }
  }
}
