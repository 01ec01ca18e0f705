/** The virtual machine as written: code, data and a downward growing stack share one array. */
module SharedMemoryVm {
  import opened Options
  import opened VmWords

  /** input holds the characters still to be read, output those written. */
  datatype Machine = Machine(data: seq<int32>, ip: int32, sp: int32, halted: bool, input: seq<nat>, output: seq<nat>)

  datatype Popped = Popped(top: int32, rest: Machine)

  // ---------- one instruction; None is undefined behaviour or a failed assertion ----------

  function Push(s: Machine, v: int32): Option<Machine> {
    if 0 < s.sp <= |s.data| then Some(s.(data := s.data[s.sp - 1 := v], sp := s.sp - 1)) else None
  }

  function Pop(s: Machine): Option<Popped> {
    if 0 <= s.sp < |s.data| then if s.sp < MAX then Some(Popped(s.data[s.sp], s.(sp := s.sp + 1))) else None else None
  }

  function Low8(x: int32): nat {
    Unsigned(x) % 0x100
  }

  /** getchar gives -1 at the end of the input, of which the low eight bits are kept. */
  function NextChar(input: seq<nat>): nat {
    if input == [] then 0xFF else input[0] % 0x100
  }

  function Rest(input: seq<nat>): seq<nat> {
    if input == [] then [] else input[1..]
  }

  function LoadStep(s: Machine): Option<Machine> {
    match Pop(s)
    case None => None
    case Some(p) =>
      if 0 <= p.top < |s.data| then Push(p.rest, s.data[p.top]) else None
  }

  function StoreStep(s: Machine): Option<Machine> {
    match Pop(s)
    case None => None
    case Some(p) =>
      match Pop(p.rest)
      case None => None
      case Some(q) =>
        if 0 <= q.top < |s.data| then Some(q.rest.(data := s.data[q.top := p.top])) else None
  }

  /** The target less one, because the interpreter loop adds one to it. */
  function JumpStep(s: Machine): Option<Machine> {
    match Pop(s)
    case None => None
    case Some(p) =>
      match Pop(p.rest)
      case None => None
      case Some(q) =>
        if p.top == 0 then Some(q.rest)
        else if q.top > MIN then Some(q.rest.(ip := q.top - 1))
        else None
  }

  function NotStep(s: Machine): Option<Machine> {
    match Pop(s)
    case None => None
    case Some(p) =>
      Push(p.rest, Truth(p.top == 0))
  }

  function PutStep(s: Machine): Option<Machine> {
    match Pop(s)
    case None => None
    case Some(p) =>
      Some(p.rest.(output := s.output + [Low8(p.top)]))
  }

  function UnaryStep(s: Machine, op: nat, operand: nat): (r: Option<Machine>)
    requires 0 <= s.ip < |s.data| <= MAX && operand < 0x100_0000
    ensures r.Some? ==> r.value.ip < MAX && |r.value.data| == |s.data|
  {
    if op == POP then if s.sp < MAX then Some(s.(sp := s.sp + 1)) else None
    else if op == PUSH_CONST then Push(s, operand)
    else if op == PUSH_IP then Push(s, s.ip + 1)
    else if op == PUSH_SP then Push(s, s.sp)
    else if op == LOAD then LoadStep(s)
    else if op == STORE then StoreStep(s)
    else if op == JMP then JumpStep(s)
    else if op == NOT then NotStep(s)
    else if op == PUTC then PutStep(s)
    else if op == GETC then Push(s.(input := Rest(s.input)), NextChar(s.input))
    else if op == HALT then Some(s.(halted := true))
    else None
  }

  function BinaryStep(s: Machine, op: nat): (r: Option<Machine>)
    ensures r.Some? ==> r.value.ip == s.ip && |r.value.data| == |s.data|
  {
    match Pop(s)
    case None => None
    case Some(p) =>
      match Pop(p.rest)
      case None => None
      case Some(q) =>
        match BinaryResult(op, q.top, p.top)
        case None => None
        case Some(v) =>
          Push(q.rest, v)
  }

  function Execute(s: Machine, i: Instr): (r: Option<Machine>)
    requires 0 <= s.ip < |s.data| <= MAX && Fields(i)
    ensures r.Some? ==> r.value.ip < MAX && |r.value.data| == |s.data|
  {
    if i.binary then BinaryStep(s, i.opcode) else UnaryStep(s, i.opcode, i.operand)
  }

  function Step(s: Machine): (r: Option<Machine>)
    requires |s.data| <= MAX
    ensures r.Some? ==> |r.value.data| == |s.data|
  {
    if 0 <= s.ip < |s.data| then
      match Execute(s, Decode(s.data[s.ip]))
      case None => None
      case Some(s') =>
        if s'.halted then Some(s') else Some(s'.(ip := s'.ip + 1))
      else None
  }

  /** At most k steps. */
  function Steps(s: Machine, k: nat): (r: Option<Machine>)
    requires |s.data| <= MAX
    ensures r.Some? ==> |r.value.data| == |s.data|
    decreases k
  {
    if k == 0 || s.halted then Some(s)
    else
      match Step(s)
      case None => None
      case Some(s') =>
        Steps(s', k - 1)
  }

  /** Within k turns the run of s halts or leaves the defined behaviour. */
  ghost predicate Ends(s: Machine, k: nat)
    requires |s.data| <= MAX
  {
    Steps(s, k) == None || Steps(s, k).value.halted
  }

  lemma UnfoldSteps(s: Machine, k: nat)
    requires |s.data| <= MAX && !s.halted
    ensures Step(s) == None ==> Steps(s, k + 1) == None
    ensures Step(s).Some? ==> Steps(s, k + 1) == Steps(Step(s).value, k)
  {
  }

  // ---------- the machine as an object ----------

  /** How an instruction or a run ended; Undefined where the program has no defined behaviour. */
  datatype Signal = Going | Halting | Undefined

  class Vm {
    const data: array<int32>
    var ip: int32
    var sp: int32
    var input: seq<nat>
    var output: seq<nat>

    ghost function State(halted: bool): Machine
      reads this, data
    {
      Machine(data[..], ip, sp, halted, input, output)
    }

    ghost predicate Reaches(signal: Signal, after: Option<Machine>)
      reads this, data
    {
      match signal
      case Undefined => after == None
      case Going => after == Some(State(false))
      case Halting => after == Some(State(true))
    }

    /** A machine of the given size with the image loaded and the rest of the memory zero. */
    constructor (size: nat, image: seq<int32>, input: seq<nat>)
      requires |image| <= size <= MAX
      ensures fresh(data)
      ensures State(false) == Machine(image + seq(size - |image|, i => 0), 0, size, false, input, [])
    {
      data := new int32[size](i requires 0 <= i => if i < |image| then image[i] else 0);
      ip, sp := 0, size;
      this.input, output := input, [];
    }

    method F(v: int32)
      requires 0 < sp <= data.Length
      modifies `sp, data
      ensures Push(old(State(false)), v) == Some(State(false))
    {
      sp := sp - 1;
      data[sp] := v;
    }

    method G() returns (top: int32)
      requires 0 <= sp < data.Length <= MAX
      modifies `sp
      ensures Pop(old(State(false))) == Some(Popped(top, State(false)))
    {
      top := data[sp];
      sp := sp + 1;
    }

    method PushOrFail(v: int32) returns (signal: Signal)
      modifies `sp, data
      ensures signal != Halting && Reaches(signal, Push(old(State(false)), v))
    {
      if 0 < sp <= data.Length {
        F(v);
        return Going;
      }
      return Undefined;
    }

    /** The instruction with the given fields; where the C++ code would leave the defined behaviour
        the method stops with Undefined. */
    method Unary(opcode: nat, optional: nat) returns (signal: Signal)
      requires 0 <= ip < data.Length <= MAX && optional < 0x100_0000
      modifies this, data
      ensures Reaches(signal, UnaryStep(old(State(false)), opcode, optional))
    {
      if opcode == POP {
        if sp == MAX {
          return Undefined;
        }
        sp := sp + 1;
        return Going;
      } else if opcode == PUSH_CONST {
        signal := PushOrFail(optional);
      } else if opcode == PUSH_IP {
        signal := PushOrFail(ip + 1);
      } else if opcode == PUSH_SP {
        signal := PushOrFail(sp);
      } else if opcode == HALT {
        return Halting;
      } else if opcode == GETC {
        var x := NextChar(input);
        input := Rest(input);
        signal := PushOrFail(x);
      } else if !(0 <= sp < data.Length) {
        return Undefined;
      } else if opcode == LOAD {
        var addr := G();
        if !(0 <= addr < data.Length) {
          return Undefined;
        }
        signal := PushOrFail(data[addr]);
      } else if opcode == NOT {
        var x := G();
        signal := PushOrFail(Truth(x == 0));
      } else if opcode == PUTC {
        var x := G();
        output := output + [Low8(x)];
        return Going;
      } else {
        signal := TwoOperands(opcode);
      }
    }

    /** STORE and JMP. */
    method TwoOperands(opcode: nat) returns (signal: Signal)
      requires 0 <= ip < data.Length <= MAX && 0 <= sp < data.Length
      requires opcode == STORE || opcode == JMP || opcode > HALT
      modifies `ip, `sp, data
      ensures Reaches(signal, UnaryStep(old(State(false)), opcode, 0))
    {
      if opcode > HALT {
        return Undefined;
      }
      var first := G();
      if !(0 <= sp < data.Length) {
        return Undefined;
      }
      var addr := G();
      if opcode == STORE {
        if !(0 <= addr < data.Length) {
          return Undefined;
        }
        data[addr] := first;
      } else if first != 0 {
        if addr == MIN {
          return Undefined;
        }
        ip := addr - 1;
      }
      return Going;
    }

    method Binary(opcode: nat) returns (signal: Signal)
      requires data.Length <= MAX
      modifies `sp, data
      ensures signal != Halting && Reaches(signal, BinaryStep(old(State(false)), opcode))
    {
      if !(0 <= sp < data.Length) {
        return Undefined;
      }
      var b := G();
      if !(0 <= sp < data.Length) {
        return Undefined;
      }
      var a := G();
      var r := BinaryResult(opcode, a, b);
      if r == None {
        return Undefined;
      }
      signal := PushOrFail(r.value);
    }

    /** One turn of the interpreter loop. */
    method Turn() returns (signal: Signal)
      requires data.Length <= MAX
      modifies this, data
      ensures Reaches(signal, Step(old(State(false))))
    {
      if !(0 <= ip < data.Length) {
        return Undefined;
      }
      var i := Decode(data[ip]);
      if i.binary {
        signal := Binary(i.opcode);
      } else {
        signal := Unary(i.opcode, i.operand);
      }
      if signal == Going {
        ip := ip + 1;
      }
    }

    ghost predicate Continues(signal: Signal, whole: Option<Machine>, left: nat)
      requires data.Length <= MAX
      reads this, data
    {
      if signal == Going then whole == Steps(State(false), left) else Reaches(signal, whole)
    }

    /** A turn against the run it begins. */
    method FirstTurn(ghost left: nat) returns (signal: Signal)
      requires data.Length <= MAX
      modifies this, data
      ensures Continues(signal, Steps(old(State(false)), left + 1), left)
    {
      ghost var s := State(false);
      signal := Turn();
      UnfoldSteps(s, left);
    }

    /** The interpreter loop, for a run that ends within some number of turns: it leaves the machine
        as that run leaves it, or stops where the run does. */
    method Interprete(ghost turns: nat) returns (signal: Signal)
      requires data.Length <= MAX && Ends(State(false), turns)
      modifies this, data
      ensures signal != Going && Reaches(signal, Steps(old(State(false)), turns))
    {
      signal := Going;
      ghost var left := turns;
      while signal == Going
        invariant Continues(signal, Steps(old(State(false)), turns), left)
        invariant signal == Going ==> Ends(State(false), left)
        decreases if signal == Going then left + 1 else 0
      {
        left := left - 1;
        signal := FirstTurn(left);
      }
    }

    /** The same loop stopped after the given number of turns, for any run. */
    method InterpretePart(limit: nat) returns (signal: Signal)
      requires data.Length <= MAX
      modifies this, data
      ensures Reaches(signal, Steps(old(State(false)), limit))
    {
      for turn := 0 to limit
        invariant Continues(Going, Steps(old(State(false)), limit), limit - turn)
      {
        signal := FirstTurn(limit - turn - 1);
        if signal != Going {
          return signal;
        }
      }
      return Going;
    }
  }
}
