/** A stack machine with separate code, static data and stack, and the proof that the shared-memory
    machine refines it. */
module StackMachine {
  import opened Options
  import opened VmWords
  import opened SharedMemoryVm

  /** The code never changes.  The stack is a list, top first, of at most room words. */
  datatype Clean = Clean(code: seq<int32>, statics: seq<int32>, stack: seq<int32>, room: nat,
                         ip: int, halted: bool, input: seq<nat>, output: seq<nat>)

  datatype CleanPopped = CleanPopped(top: int32, rest: Clean)

  function Size(h: Clean): nat {
    |h.code| + |h.statics| + h.room
  }

  ghost predicate Sound(h: Clean) {
    |h.stack| <= h.room && Size(h) <= MAX
  }

  /** The address of the top of the stack. */
  function TopAddress(h: Clean): int32
    requires Sound(h)
  {
    Size(h) - |h.stack|
  }

  function CleanPush(h: Clean, v: int32): Option<Clean> {
    if |h.stack| < h.room then Some(h.(stack := [v] + h.stack)) else None
  }

  function CleanPop(h: Clean): Option<CleanPopped> {
    if h.stack == [] then None else Some(CleanPopped(h.stack[0], h.(stack := h.stack[1..])))
  }

  /** Code, static data and live stack can be read; the free room between them can not. */
  function Read(h: Clean, addr: int): Option<int32>
    requires Sound(h)
  {
    var c := |h.code|;
    if 0 <= addr < c then Some(h.code[addr])
    else if c <= addr < c + |h.statics| then Some(h.statics[addr - c])
    else if TopAddress(h) <= addr < Size(h) then Some(h.stack[addr - TopAddress(h)])
    else None
  }

  /** Static data can be written; what is written to the free room is lost, since nothing reads it. */
  function Write(h: Clean, addr: int, v: int32): Option<Clean>
    requires Sound(h)
  {
    var c := |h.code|;
    if c <= addr < c + |h.statics| then Some(h.(statics := h.statics[addr - c := v]))
    else if c + |h.statics| <= addr < TopAddress(h) then Some(h)
    else None
  }

  function Next(h: Clean): Clean {
    h.(ip := h.ip + 1)
  }

  function CleanLoad(h: Clean): Option<Clean>
    requires Sound(h)
  {
    match CleanPop(h)
    case None => None
    case Some(p) =>
      match Read(p.rest, p.top)
      case None => None
      case Some(v) =>
        CleanPush(Next(p.rest), v)
  }

  function CleanStore(h: Clean): Option<Clean>
    requires Sound(h)
  {
    match CleanPop(h)
    case None => None
    case Some(p) =>
      match CleanPop(p.rest)
      case None => None
      case Some(q) =>
        Write(Next(q.rest), q.top, p.top)
  }

  function CleanJump(h: Clean): Option<Clean> {
    match CleanPop(h)
    case None => None
    case Some(p) =>
      match CleanPop(p.rest)
      case None => None
      case Some(q) =>
        if p.top == 0 then Some(Next(q.rest))
        else if 0 <= q.top then Some(q.rest.(ip := q.top))
        else None
  }

  function CleanNot(h: Clean): Option<Clean> {
    match CleanPop(h)
    case None => None
    case Some(p) =>
      CleanPush(Next(p.rest), Truth(p.top == 0))
  }

  function CleanPut(h: Clean): Option<Clean> {
    match CleanPop(h)
    case None => None
    case Some(p) =>
      Some(Next(p.rest).(output := h.output + [Low8(p.top)]))
  }

  function CleanDrop(h: Clean): Option<Clean> {
    match CleanPop(h)
    case None => None
    case Some(p) =>
      Some(Next(p.rest))
  }

  function CleanUnary(h: Clean, op: nat, operand: nat): Option<Clean>
    requires Sound(h) && 0 <= h.ip < |h.code| && operand < 0x100_0000
  {
    if op == POP then CleanDrop(h)
    else if op == PUSH_CONST then CleanPush(Next(h), operand)
    else if op == PUSH_IP then CleanPush(Next(h), h.ip + 1)
    else if op == PUSH_SP then CleanPush(Next(h), TopAddress(h))
    else if op == LOAD then CleanLoad(h)
    else if op == STORE then CleanStore(h)
    else if op == JMP then CleanJump(h)
    else if op == NOT then CleanNot(h)
    else if op == PUTC then CleanPut(h)
    else if op == GETC then CleanPush(Next(h).(input := Rest(h.input)), NextChar(h.input))
    else if op == HALT then Some(h.(halted := true))
    else None
  }

  function CleanBinary(h: Clean, op: nat): Option<Clean> {
    match CleanPop(h)
    case None => None
    case Some(p) =>
      match CleanPop(p.rest)
      case None => None
      case Some(q) =>
        match BinaryResult(op, q.top, p.top)
        case None => None
        case Some(v) =>
          CleanPush(Next(q.rest), v)
  }

  function CleanExecute(h: Clean, i: Instr): Option<Clean>
    requires Sound(h) && 0 <= h.ip < |h.code| && Fields(i)
  {
    if i.binary then CleanBinary(h, i.opcode) else CleanUnary(h, i.opcode, i.operand)
  }

  function CleanStep(h: Clean): Option<Clean>
    requires Sound(h)
  {
    if 0 <= h.ip < |h.code| then CleanExecute(h, Decode(h.code[h.ip])) else None
  }

  /** The same code and the same amount of everything. */
  ghost predicate Alike(h: Clean, h': Clean) {
    h'.code == h.code && |h'.statics| == |h.statics| && h'.room == h.room && |h'.stack| <= h'.room
  }

  lemma ExecuteStaysSound(h: Clean, i: Instr)
    requires Sound(h) && 0 <= h.ip < |h.code| && Fields(i) && CleanExecute(h, i).Some?
    ensures Alike(h, CleanExecute(h, i).value)
  {
    var op := i.opcode;
    if i.binary {
      assert Alike(h, CleanBinary(h, op).value);
    } else if op == LOAD {
      assert Alike(h, CleanLoad(h).value);
    } else if op == STORE {
      assert Alike(h, CleanStore(h).value);
    } else if op == JMP {
      assert Alike(h, CleanJump(h).value);
    }
  }

  lemma StepStaysSound(h: Clean)
    requires Sound(h) && CleanStep(h).Some?
    ensures Alike(h, CleanStep(h).value)
  {
    ExecuteStaysSound(h, Decode(h.code[h.ip]));
  }

  ghost function CleanSteps(h: Clean, k: nat): (r: Option<Clean>)
    requires Sound(h)
    ensures r.Some? ==> Sound(r.value) && Alike(h, r.value)
    decreases k
  {
    if k == 0 || h.halted then Some(h)
    else
      match CleanStep(h)
      case None => None
      case Some(h') => StepStaysSound(h); CleanSteps(h', k - 1)
  }

  // ---------- the refinement ----------

  /** Cell a of the shared array holds code, static data, stack, or anything in the room between. */
  ghost predicate CellHolds(data: seq<int32>, sp: int, code: seq<int32>, statics: seq<int32>, stack: seq<int32>, a: nat)
    requires a < |data|
  {
    && (a < |code| ==> data[a] == code[a])
    && (|code| <= a < |code| + |statics| ==> data[a] == statics[a - |code|])
    && (sp <= a < sp + |stack| ==> data[a] == stack[a - sp])
  }

  ghost predicate Layout(data: seq<int32>, sp: int, code: seq<int32>, statics: seq<int32>, stack: seq<int32>) {
    && |code| + |statics| <= sp && |data| == sp + |stack|
    && forall a: nat | a < |data| :: CellHolds(data, sp, code, statics, stack, a)
  }

  /** The shared array lays out code, static data, free room and stack in this order. */
  ghost predicate Sim(s: Machine, h: Clean) {
    && Sound(h) && |s.data| == Size(h)
    && s.halted == h.halted && s.input == h.input && s.output == h.output
    && Layout(s.data, s.sp, h.code, h.statics, h.stack)
  }

  lemma PushSim(s: Machine, h: Clean, v: int32)
    requires Sim(s, h) && CleanPush(h, v).Some?
    ensures Push(s, v).Some? && Sim(Push(s, v).value, CleanPush(h, v).value)
  {
    var s', h' := Push(s, v).value, CleanPush(h, v).value;
    forall a: nat | a < |s'.data|
      ensures CellHolds(s'.data, s'.sp, h'.code, h'.statics, h'.stack, a)
    {
      assert CellHolds(s.data, s.sp, h.code, h.statics, h.stack, a);
    }
  }

  lemma PopSim(s: Machine, h: Clean)
    requires Sim(s, h) && CleanPop(h).Some?
    ensures Pop(s).Some? && Pop(s).value.top == CleanPop(h).value.top && Sim(Pop(s).value.rest, CleanPop(h).value.rest)
  {
    var s', h' := Pop(s).value.rest, CleanPop(h).value.rest;
    assert CellHolds(s.data, s.sp, h.code, h.statics, h.stack, s.sp);
    forall a: nat | a < |s'.data|
      ensures CellHolds(s'.data, s'.sp, h'.code, h'.statics, h'.stack, a)
    {
      assert CellHolds(s.data, s.sp, h.code, h.statics, h.stack, a);
    }
  }

  lemma ReadSim(s: Machine, h: Clean, addr: int)
    requires Sim(s, h) && Read(h, addr).Some?
    ensures 0 <= addr < |s.data| && s.data[addr] == Read(h, addr).value
  {
    assert CellHolds(s.data, s.sp, h.code, h.statics, h.stack, addr);
  }

  lemma WriteSim(s: Machine, h: Clean, addr: int, v: int32)
    requires Sim(s, h) && Write(h, addr, v).Some?
    ensures 0 <= addr < |s.data| && Sim(s.(data := s.data[addr := v]), Write(h, addr, v).value)
  {
    var data, h' := s.data[addr := v], Write(h, addr, v).value;
    forall a: nat | a < |data|
      ensures CellHolds(data, s.sp, h'.code, h'.statics, h'.stack, a)
    {
      assert CellHolds(s.data, s.sp, h.code, h.statics, h.stack, a);
    }
  }

  /** The shared-memory machine counts its instruction pointer up only after the instruction. */
  ghost predicate AfterSim(s: Machine, h: Clean) {
    Sim(s, h) && h.ip == if s.halted then s.ip else s.ip + 1
  }

  lemma LoadSim(s: Machine, h: Clean)
    requires Sim(s, h) && s.ip == h.ip && !s.halted && CleanLoad(h).Some?
    ensures LoadStep(s).Some? && AfterSim(LoadStep(s).value, CleanLoad(h).value)
  {
    PopSim(s, h);
    var p, p' := CleanPop(h).value, Pop(s).value;
    ReadSim(p'.rest, p.rest, p.top);
    PushSim(p'.rest, Next(p.rest), Read(p.rest, p.top).value);
  }

  lemma NotSim(s: Machine, h: Clean)
    requires Sim(s, h) && s.ip == h.ip && !s.halted && CleanNot(h).Some?
    ensures NotStep(s).Some? && AfterSim(NotStep(s).value, CleanNot(h).value)
  {
    PopSim(s, h);
    var p, p' := CleanPop(h).value, Pop(s).value;
    PushSim(p'.rest, Next(p.rest), Truth(p.top == 0));
  }

  lemma StoreSim(s: Machine, h: Clean)
    requires Sim(s, h) && s.ip == h.ip && !s.halted && CleanStore(h).Some?
    ensures StoreStep(s).Some? && AfterSim(StoreStep(s).value, CleanStore(h).value)
  {
    PopSim(s, h);
    var p, p' := CleanPop(h).value, Pop(s).value;
    PopSim(p'.rest, p.rest);
    var q, q' := CleanPop(p.rest).value, Pop(p'.rest).value;
    WriteSim(q'.rest, Next(q.rest), q.top, p.top);
  }

  lemma JumpSim(s: Machine, h: Clean)
    requires Sim(s, h) && s.ip == h.ip && !s.halted && CleanJump(h).Some?
    ensures JumpStep(s).Some? && AfterSim(JumpStep(s).value, CleanJump(h).value)
  {
    PopSim(s, h);
    PopSim(Pop(s).value.rest, CleanPop(h).value.rest);
  }

  lemma PutSim(s: Machine, h: Clean)
    requires Sim(s, h) && s.ip == h.ip && !s.halted && CleanPut(h).Some?
    ensures PutStep(s).Some? && AfterSim(PutStep(s).value, CleanPut(h).value)
  {
    PopSim(s, h);
  }

  lemma BinarySim(s: Machine, h: Clean, op: nat)
    requires Sim(s, h) && s.ip == h.ip && !s.halted && CleanBinary(h, op).Some?
    ensures BinaryStep(s, op).Some? && AfterSim(BinaryStep(s, op).value, CleanBinary(h, op).value)
  {
    PopSim(s, h);
    var p, p' := CleanPop(h).value, Pop(s).value;
    PopSim(p'.rest, p.rest);
    var q, q' := CleanPop(p.rest).value, Pop(p'.rest).value;
    PushSim(q'.rest, Next(q.rest), BinaryResult(op, q.top, p.top).value);
  }

  /** The instructions that only push. */
  lemma PushingSim(s: Machine, h: Clean, v: int32)
    requires Sim(s, h) && s.ip == h.ip && !s.halted && CleanPush(Next(h), v).Some?
    ensures Push(s, v).Some? && AfterSim(Push(s, v).value, CleanPush(Next(h), v).value)
  {
    PushSim(s, Next(h), v);
  }

  lemma GetSim(s: Machine, h: Clean)
    requires Sim(s, h) && s.ip == h.ip && !s.halted
    requires CleanPush(Next(h).(input := Rest(h.input)), NextChar(h.input)).Some?
    ensures Push(s.(input := Rest(s.input)), NextChar(s.input)).Some?
    ensures AfterSim(Push(s.(input := Rest(s.input)), NextChar(s.input)).value,
                     CleanPush(Next(h).(input := Rest(h.input)), NextChar(h.input)).value)
  {
    PushSim(s.(input := Rest(s.input)), Next(h).(input := Rest(h.input)), NextChar(h.input));
  }

  lemma DropSim(s: Machine, h: Clean)
    requires Sim(s, h) && s.ip == h.ip && !s.halted && CleanDrop(h).Some?
    ensures s.sp < MAX && AfterSim(s.(sp := s.sp + 1), CleanDrop(h).value)
  {
    PopSim(s, h);
  }

  lemma ExecuteSim(s: Machine, h: Clean, i: Instr)
    requires Sim(s, h) && s.ip == h.ip && !s.halted && 0 <= h.ip < |h.code| && Fields(i)
    requires CleanExecute(h, i).Some?
    ensures Execute(s, i).Some? && AfterSim(Execute(s, i).value, CleanExecute(h, i).value)
  {
    var op := i.opcode;
    if i.binary {
      BinarySim(s, h, op);
    } else if op == POP {
      DropSim(s, h);
    } else if op == PUSH_CONST {
      PushingSim(s, h, i.operand);
    } else if op == PUSH_IP {
      PushingSim(s, h, h.ip + 1);
    } else if op == PUSH_SP {
      PushingSim(s, h, TopAddress(h));
    } else if op == LOAD {
      LoadSim(s, h);
    } else if op == STORE {
      StoreSim(s, h);
    } else if op == JMP {
      JumpSim(s, h);
    } else if op == NOT {
      NotSim(s, h);
    } else if op == PUTC {
      PutSim(s, h);
    } else if op == GETC {
      GetSim(s, h);
    }
  }

  lemma StepSim(s: Machine, h: Clean)
    requires Sim(s, h) && s.ip == h.ip && !s.halted && CleanStep(h).Some?
    ensures Step(s).Some? && Sim(Step(s).value, CleanStep(h).value) && Step(s).value.ip == CleanStep(h).value.ip
  {
    ReadSim(s, h, h.ip);
    ExecuteSim(s, h, Decode(h.code[h.ip]));
    CountUp(Execute(s, Decode(s.data[s.ip])).value, CleanStep(h).value);
  }

  /** The machine once its instruction pointer is counted up. */
  function Counting(s: Machine): Machine
    requires s.ip < MAX
  {
    if s.halted then s else s.(ip := s.ip + 1)
  }

  lemma CountUp(s: Machine, h: Clean)
    requires AfterSim(s, h) && s.ip < MAX
    ensures Sim(Counting(s), h) && Counting(s).ip == h.ip
  {
  }

  /** The clean machine can make a step that its run begins with. */
  lemma BeginsWithStep(h: Clean, k: nat)
    requires Sound(h) && !h.halted && k > 0 && CleanSteps(h, k).Some?
    ensures CleanStep(h).Some? && Sound(CleanStep(h).value)
    ensures CleanSteps(h, k) == CleanSteps(CleanStep(h).value, k - 1)
  {
    StepStaysSound(h);
  }

  /** k steps lead from h to clean. */
  ghost predicate CleanStepsTo(h: Clean, k: nat, clean: Clean) {
    Sound(h) && CleanSteps(h, k) == Some(clean)
  }

  ghost predicate StepsTo(s: Machine, k: nat, after: Machine) {
    |s.data| <= MAX && Steps(s, k) == Some(after)
  }

  /** The run of s' is the run of s without its first step. */
  ghost predicate OneStepLess(s: Machine, k: nat, s': Machine) {
    |s.data| <= MAX && |s'.data| <= MAX && Steps(s, k + 1) == Steps(s', k)
  }

  lemma StepsCarry(s: Machine, k: nat, s': Machine, after: Machine)
    requires OneStepLess(s, k, s') && StepsTo(s', k, after)
    ensures StepsTo(s, k + 1, after)
  {
  }

  lemma NextSim(s: Machine, h: Clean, k: nat, clean: Clean) returns (s': Machine, h': Clean)
    requires Sim(s, h) && s.ip == h.ip && !h.halted && CleanStepsTo(h, k + 1, clean)
    ensures Sim(s', h') && s'.ip == h'.ip && OneStepLess(s, k, s') && CleanStepsTo(h', k, clean)
  {
    BeginsWithStep(h, k + 1);
    StepSim(s, h);
    s', h' := Step(s).value, CleanStep(h).value;
    UnfoldSteps(s, k);
  }

  lemma NothingToDo(s: Machine, h: Clean, k: nat, clean: Clean)
    requires Sim(s, h) && CleanStepsTo(h, k, clean) && (k == 0 || h.halted)
    ensures StepsTo(s, k, s) && clean == h
  {
  }

  lemma {:induction false} RefinesTo(s: Machine, h: Clean, k: nat, clean: Clean) returns (after: Machine)
    requires Sim(s, h) && s.ip == h.ip && CleanStepsTo(h, k, clean)
    ensures StepsTo(s, k, after) && Sim(after, clean) && after.ip == clean.ip
    decreases k
  {
    if k == 0 || h.halted {
      NothingToDo(s, h, k, clean);
      after := s;
    } else {
      var j := k - 1;
      var s', h' := NextSim(s, h, j, clean);
      after := RefinesTo(s', h', j, clean);
      StepsCarry(s, j, s', after);
    }
  }

  /** As long as the stack stays above the image, stores miss code and stack, and no word of the free
      room is read or run, the machine with one shared array does what the clean machine does. */
  lemma Refines(s: Machine, h: Clean, k: nat) returns (after: Machine, clean: Clean)
    requires Sim(s, h) && s.ip == h.ip && CleanSteps(h, k).Some?
    ensures Steps(s, k) == Some(after) && CleanSteps(h, k) == Some(clean)
    ensures Sim(after, clean) && after.ip == clean.ip
  {
    clean := CleanSteps(h, k).value;
    after := RefinesTo(s, h, k, clean);
  }

  /** A freshly loaded image, however it is cut into code and static data, starts in step. */
  lemma LoadedSim(image: seq<int32>, code: nat, statics: nat, size: nat, input: seq<nat>)
    requires |image| <= size <= MAX && code + statics <= size && code <= |image|
    ensures var s := Machine(image + seq(size - |image|, i => 0), 0, size, false, input, []);
      Sim(s, Clean(s.data[..code], s.data[code..code + statics], [], size - code - statics, 0, false, input, []))
  {
  }

  /** On such a run the code is never overwritten. */
  lemma CodeIsNeverOverwritten(s: Machine, h: Clean, k: nat, a: nat)
    requires Sim(s, h) && s.ip == h.ip && CleanSteps(h, k).Some? && a < |h.code|
    ensures Steps(s, k).Some? && Steps(s, k).value.data[a] == s.data[a]
  {
    var after, clean := Refines(s, h, k);
    ReadSim(s, h, a);
    ReadSim(after, clean, a);
  }
}
