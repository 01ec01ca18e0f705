/** When the clean machine can follow: a condition on the shared array alone, step by step. */
module ConfinedRuns {
  import opened Options
  import opened VmWords
  import opened SharedMemoryVm
  import opened StackMachine

  /** How many words an instruction takes from the stack. */
  function Operands(i: Instr): nat {
    if i.binary then 2
    else if i.opcode == STORE || i.opcode == JMP then 2
    else if i.opcode == POP || i.opcode == LOAD || i.opcode == NOT || i.opcode == PUTC then 1
    else 0
  }

  /** The instructions that make the stack grow. */
  predicate Grows(i: Instr) {
    !i.binary && (i.opcode == PUSH_CONST || i.opcode == PUSH_IP || i.opcode == PUSH_SP || i.opcode == GETC)
  }

  /** The next instruction is code, takes only words of the stack, keeps the stack above the image,
      loads no word from the free room below the stack, stores neither into the code nor into the
      stack that is left, and does not jump below the code. */
  predicate Confined(s: Machine, code: nat, image: nat) {
    && 0 <= s.ip < code <= image <= s.sp <= |s.data|
    && var i := Decode(s.data[s.ip]);
       && s.sp + Operands(i) <= |s.data|
       && (Grows(i) ==> image < s.sp)
       && (!i.binary && i.opcode == LOAD ==> !(image <= s.data[s.sp] <= s.sp))
       && (!i.binary && i.opcode == STORE ==> code <= s.data[s.sp + 1] < s.sp + 2)
       && (!i.binary && i.opcode == JMP && s.data[s.sp] != 0 ==> 0 <= s.data[s.sp + 1])
  }

  /** The words that an instruction takes are the words on top of the clean stack. */
  lemma StackWord(s: Machine, h: Clean, k: nat)
    requires Sim(s, h) && k < |h.stack|
    ensures s.sp + k < |s.data| && s.data[s.sp + k] == h.stack[k]
  {
    assert CellHolds(s.data, s.sp, h.code, h.statics, h.stack, s.sp + k);
  }

  lemma Bottom(s: Machine, h: Clean)
    requires Sim(s, h)
    ensures |s.data| == s.sp + |h.stack| && |h.code| + |h.statics| <= s.sp
    ensures h.room == |s.data| - |h.code| - |h.statics| && TopAddress(h) == s.sp
  {
  }

  lemma BinaryConfined(s: Machine, h: Clean, op: nat)
    requires Sim(s, h)
    ensures CleanBinary(h, op).Some? <==> BinaryStep(s, op).Some? && s.sp + 2 <= |s.data|
  {
    Bottom(s, h);
    if |h.stack| >= 2 {
      StackWord(s, h, 0);
      StackWord(s, h, 1);
    }
  }

  lemma LoadConfined(s: Machine, h: Clean)
    requires Sim(s, h)
    ensures CleanLoad(h).Some? <==>
            LoadStep(s).Some? && s.sp < |s.data| && !(|h.code| + |h.statics| <= s.data[s.sp] <= s.sp)
  {
    Bottom(s, h);
    if |h.stack| >= 1 {
      StackWord(s, h, 0);
    }
  }

  lemma StoreConfined(s: Machine, h: Clean)
    requires Sim(s, h)
    ensures CleanStore(h).Some? <==>
            StoreStep(s).Some? && s.sp + 1 < |s.data| && |h.code| <= s.data[s.sp + 1] < s.sp + 2
  {
    Bottom(s, h);
    if |h.stack| >= 2 {
      StackWord(s, h, 0);
      StackWord(s, h, 1);
    }
  }

  lemma JumpConfined(s: Machine, h: Clean)
    requires Sim(s, h)
    ensures CleanJump(h).Some? <==>
            JumpStep(s).Some? && s.sp + 1 < |s.data| && (s.data[s.sp] != 0 ==> 0 <= s.data[s.sp + 1])
  {
    Bottom(s, h);
    if |h.stack| >= 2 {
      StackWord(s, h, 0);
      StackWord(s, h, 1);
    }
  }

  lemma OneWordConfined(s: Machine, h: Clean)
    requires Sim(s, h)
    ensures CleanNot(h).Some? <==> NotStep(s).Some? && s.sp + 1 <= |s.data|
    ensures CleanPut(h).Some? <==> PutStep(s).Some? && s.sp + 1 <= |s.data|
    ensures CleanDrop(h).Some? <==> s.sp < MAX && s.sp + 1 <= |s.data|
  {
    Bottom(s, h);
  }

  lemma PushConfined(s: Machine, h: Clean, v: int32)
    requires Sim(s, h)
    ensures CleanPush(h, v).Some? <==> Push(s, v).Some? && |h.code| + |h.statics| < s.sp
  {
    Bottom(s, h);
  }

  lemma ExecuteConfined(s: Machine, h: Clean, i: Instr)
    requires Sim(s, h) && s.ip == h.ip && 0 <= h.ip < |h.code| && i == Decode(s.data[s.ip])
    ensures CleanExecute(h, i).Some? <==> Execute(s, i).Some? && Confined(s, |h.code|, |h.code| + |h.statics|)
  {
    Bottom(s, h);
    var op := i.opcode;
    if i.binary {
      BinaryConfined(s, h, op);
    } else if Grows(i) {
      PushConfined(s, h, 0);
    } else if op == LOAD {
      LoadConfined(s, h);
    } else if op == STORE {
      StoreConfined(s, h);
    } else if op == JMP {
      JumpConfined(s, h);
    } else {
      OneWordConfined(s, h);
    }
  }

  /** The clean machine makes its step exactly when the step of the shared array is defined and
      confined. */
  lemma StepConfined(s: Machine, h: Clean)
    requires Sim(s, h) && s.ip == h.ip
    ensures CleanStep(h).Some? <==> Step(s).Some? && Confined(s, |h.code|, |h.code| + |h.statics|)
  {
    if 0 <= h.ip < |h.code| {
      ReadSim(s, h, h.ip);
      ExecuteConfined(s, h, Decode(s.data[s.ip]));
    }
  }

  // ---------- runs ----------

  /** Step i of a run of the shared array is defined and confined. */
  ghost predicate SharedLink(run: seq<Machine>, i: nat, code: nat, image: nat)
    requires i + 1 < |run|
  {
    && !run[i].halted && |run[i].data| <= MAX && Confined(run[i], code, image)
    && Step(run[i]) == Some(run[i + 1])
  }

  ghost predicate SharedRun(run: seq<Machine>, code: nat, image: nat) {
    |run| > 0 && forall i: nat | i + 1 < |run| :: SharedLink(run, i, code, image)
  }

  ghost predicate CleanLink(run: seq<Clean>, i: nat)
    requires i + 1 < |run|
  {
    !run[i].halted && Sound(run[i]) && CleanStep(run[i]) == Some(run[i + 1])
  }

  ghost predicate CleanRun(run: seq<Clean>) {
    |run| > 0 && forall i: nat | i + 1 < |run| :: CleanLink(run, i)
  }

  /** The two machines are in step at state i, and the parts have kept their sizes. */
  ghost predicate InStep(run: seq<Machine>, clean: seq<Clean>, i: nat, code: seq<int32>, statics: nat)
    requires i < |run| == |clean|
  {
    Sim(run[i], clean[i]) && run[i].ip == clean[i].ip && clean[i].code == code && |clean[i].statics| == statics
  }

  ghost predicate AllInStep(run: seq<Machine>, clean: seq<Clean>, code: seq<int32>, statics: nat) {
    |run| == |clean| && forall i: nat | i < |run| :: InStep(run, clean, i, code, statics)
  }

  lemma SharedStepIsClean(s: Machine, h: Clean, s': Machine) returns (h': Clean)
    requires Sim(s, h) && s.ip == h.ip && !s.halted && Confined(s, |h.code|, |h.code| + |h.statics|) && Step(s) == Some(s')
    ensures CleanStep(h) == Some(h') && Sim(s', h') && s'.ip == h'.ip && h'.code == h.code && |h'.statics| == |h.statics|
  {
    StepConfined(s, h);
    StepSim(s, h);
    StepStaysSound(h);
    h' := CleanStep(h).value;
  }

  /** Refinement from the condition on the shared array: every run whose steps are defined and
      confined is matched, state by state, by a run of the clean machine from any state in step. */
  lemma {:induction false} ConfinedRunsRefine(run: seq<Machine>, h: Clean) returns (clean: seq<Clean>)
    requires SharedRun(run, |h.code|, |h.code| + |h.statics|) && Sim(run[0], h) && run[0].ip == h.ip
    ensures |clean| == |run| && clean[0] == h && CleanRun(clean)
    ensures AllInStep(run, clean, h.code, |h.statics|)
  {
    if |run| == 1 {
      clean := [h];
    } else {
      var n, image := |run| - 2, |h.code| + |h.statics|;
      var front := run[..n + 1];
      forall i: nat | i + 1 < |front|
        ensures SharedLink(front, i, |h.code|, image)
      {
        assert SharedLink(run, i, |h.code|, image);
      }
      var before := ConfinedRunsRefine(front, h);
      assert InStep(front, before, n, h.code, |h.statics|);
      assert SharedLink(run, n, |h.code|, image);
      var last := SharedStepIsClean(run[n], before[n], run[n + 1]);
      clean := ExtendClean(run, before, last, h);
    }
  }

  lemma ExtendClean(run: seq<Machine>, before: seq<Clean>, last: Clean, h: Clean) returns (clean: seq<Clean>)
    requires |run| == |before| + 1 >= 2 && before[0] == h && CleanRun(before)
    requires AllInStep(run[..|before|], before, h.code, |h.statics|)
    requires Sound(before[|before| - 1]) && CleanStep(before[|before| - 1]) == Some(last) && !before[|before| - 1].halted
    requires Sim(run[|before|], last) && run[|before|].ip == last.ip && last.code == h.code && |last.statics| == |h.statics|
    ensures clean == before + [last] && CleanRun(clean) && AllInStep(run, clean, h.code, |h.statics|)
  {
    clean := before + [last];
    forall i: nat | i + 1 < |clean|
      ensures CleanLink(clean, i)
    {
      if i + 1 < |before| {
        assert CleanLink(before, i);
      } else {
        assert InStep(run[..|before|], before, i, h.code, |h.statics|);
      }
    }
    forall i: nat | i < |run|
      ensures InStep(run, clean, i, h.code, |h.statics|)
    {
      if i < |before| {
        assert InStep(run[..|before|], before, i, h.code, |h.statics|);
      }
    }
  }

  lemma CleanStepIsShared(s: Machine, h: Clean, h': Clean) returns (s': Machine)
    requires Sim(s, h) && s.ip == h.ip && !h.halted && CleanStep(h) == Some(h')
    ensures |s.data| <= MAX && Confined(s, |h.code|, |h.code| + |h.statics|) && Step(s) == Some(s')
    ensures Sim(s', h') && s'.ip == h'.ip && h'.code == h.code && |h'.statics| == |h.statics|
  {
    StepConfined(s, h);
    StepSim(s, h);
    StepStaysSound(h);
    s' := Step(s).value;
  }

  /** And conversely: a run of the clean machine is matched by a run of the shared array whose steps
      are all confined.  So the condition is exact. */
  lemma {:induction false} CleanRunsAreConfined(clean: seq<Clean>, s: Machine) returns (run: seq<Machine>)
    requires CleanRun(clean) && Sim(s, clean[0]) && s.ip == clean[0].ip
    ensures |run| == |clean| && run[0] == s
    ensures SharedRun(run, |clean[0].code|, |clean[0].code| + |clean[0].statics|)
    ensures AllInStep(run, clean, clean[0].code, |clean[0].statics|)
  {
    var h := clean[0];
    if |clean| == 1 {
      run := [s];
    } else {
      var n := |clean| - 2;
      var front := clean[..n + 1];
      forall i: nat | i + 1 < |front|
        ensures CleanLink(front, i)
      {
        assert CleanLink(clean, i);
      }
      var before := CleanRunsAreConfined(front, s);
      assert InStep(before, front, n, h.code, |h.statics|);
      assert CleanLink(clean, n);
      var last := CleanStepIsShared(before[n], clean[n], clean[n + 1]);
      run := ExtendShared(before, clean, last, h);
    }
  }

  lemma ExtendShared(before: seq<Machine>, clean: seq<Clean>, last: Machine, h: Clean) returns (run: seq<Machine>)
    requires |clean| == |before| + 1 >= 2 && SharedRun(before, |h.code|, |h.code| + |h.statics|)
    requires AllInStep(before, clean[..|before|], h.code, |h.statics|)
    requires var s := before[|before| - 1];
      !s.halted && |s.data| <= MAX && Confined(s, |h.code|, |h.code| + |h.statics|) && Step(s) == Some(last)
    requires Sim(last, clean[|before|]) && last.ip == clean[|before|].ip
    requires clean[|before|].code == h.code && |clean[|before|].statics| == |h.statics|
    ensures run == before + [last] && SharedRun(run, |h.code|, |h.code| + |h.statics|)
    ensures AllInStep(run, clean, h.code, |h.statics|)
  {
    run := before + [last];
    var image := |h.code| + |h.statics|;
    forall i: nat | i + 1 < |run|
      ensures SharedLink(run, i, |h.code|, image)
    {
      if i + 1 < |before| {
        assert SharedLink(before, i, |h.code|, image);
      }
    }
    forall i: nat | i < |run|
      ensures InStep(run, clean, i, h.code, |h.statics|)
    {
      if i < |before| {
        assert InStep(before, clean[..|before|], i, h.code, |h.statics|);
      }
    }
  }
}
