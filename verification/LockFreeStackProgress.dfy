/** The lock-free stack never blocks: in every reachable state every thread can step, an exchange whose
    expected value is still the head can succeed, and a thread that runs alone finishes its operation. */
module LockFreeStackProgress {
  import opened Options
  import opened LockFreeStack
  import opened LockFreeStackProof
  import opened LockFreeStackRuns

  lemma {:induction false} FreshAddress(used: set<Address>) returns (a: Address)
    ensures forall x | x in used :: x < a
  {
    if used == {} {
      a := 0;
    } else {
      var x :| x in used;
      var b := FreshAddress(used - {x});
      a := if b > x then b else x + 1;
      assert used == (used - {x}) + {x};
    }
  }

  // ---------- the exchanges can succeed ----------

  /** The head is still what a push expects: it can put its node there, and nothing else moves. */
  lemma PushCanSucceed<T(!new)>(s: State<T>, t: Thread) returns (s': State<T>)
    requires Inv(s) && t in s.pcs && s.pcs[t].PushReady? && !MustFail(s, t)
    ensures ExchangePush(s, s', t) && StepOf(s, s', t)
    ensures s'.head == Some(s.pcs[t].node) && s'.heap == s.heap && s'.pcs == s.pcs[t := PushDone]
  {
    var pc := s.pcs[t];
    assert PcOk(s, pc);
    s' := s.(head := Some(pc.node), pcs := s.pcs[t := PushDone], chain := [pc.node] + s.chain,
             published := s.published + {pc.node}, heads := s.heads + [Some(pc.node)], log := s.log + [Commit(t, Pushed)]);
  }

  /** The head is still what a pop expects: it can take the node there. */
  lemma PopCanSucceed<T(!new)>(s: State<T>, t: Thread) returns (s': State<T>)
    requires Inv(s) && t in s.pcs && s.pcs[t].PopReady? && !MustFail(s, t)
    ensures ExchangePop(s, s', t) && StepOf(s, s', t) && s.pcs[t].node in s.heap
    ensures s'.head == s.heap[s.pcs[t].node].next && s'.heap == s.heap
    ensures s'.pcs == s.pcs[t := PopTook(s.pcs[t].node, Popped(s.heap[s.pcs[t].node].data))]
  {
    var pc := s.pcs[t];
    assert PcOk(s, pc);
    var out := Popped(s.heap[pc.node].data);
    s' := s.(head := pc.next, pcs := s.pcs[t := PopTook(pc.node, out)], chain := s.chain[1..],
             heads := s.heads + [pc.next], log := s.log + [Commit(t, out)]);
  }

  // ---------- a thread alone ----------

  /** Steps that a thread alone still has to make. */
  ghost function Left<T>(s: State<T>, t: Thread): nat {
    if t !in s.pcs then 0 else
    match s.pcs[t]
    case Idle => 0
    case PushDone => 1
    case PushReady(_, _, _) => if MustFail(s, t) then 3 else 2
    case PushAllocated(_, _) => 3
    case PushCalled(_) => 4
    case PopTook(_, _) => 1
    case PopReady(_, _, _) => if MustFail(s, t) then 5 else 2
    case PopLoaded(c, _) => if c == None then 1 else if c == s.head then 3 else 6
    case PopCalled => 4
  }

  lemma PushProgress<T(!new)>(s: State<T>, t: Thread) returns (s': State<T>)
    requires Inv(s) && t in s.pcs
    requires s.pcs[t].PushCalled? || s.pcs[t].PushAllocated? || s.pcs[t].PushReady? || s.pcs[t].PushDone?
    ensures StepOf(s, s', t) && Left(s', t) < Left(s, t) && t in s'.pcs
  {
    var pc := s.pcs[t];
    assert PcOk(s, pc);
    if pc.PushCalled? {
      var a := FreshAddress(s.heap.Keys);
      s' := s.(heap := s.heap[a := Node(pc.v, None)], pcs := s.pcs[t := PushAllocated(pc.v, a)]);
      assert Allocate(s, s', t, a);
    } else if pc.PushAllocated? {
      s' := s.(heap := s.heap[pc.node := s.heap[pc.node].(next := s.head)],
               pcs := s.pcs[t := PushReady(pc.v, pc.node, |s.heads| - 1)]);
      assert LoadForPush(s, s', t);
    } else if pc.PushDone? {
      s' := s.(pcs := s.pcs[t := Idle], log := s.log + [Return(t, Pushed)]);
      assert ReturnPush(s, s', t);
    } else if MustFail(s, t) {
      s' := s.(heap := s.heap[pc.node := s.heap[pc.node].(next := s.head)],
               pcs := s.pcs[t := PushReady(pc.v, pc.node, |s.heads| - 1)]);
      assert FailPush(s, s', t);
    } else {
      s' := PushCanSucceed(s, t);
    }
  }

  lemma PopProgress<T(!new)>(s: State<T>, t: Thread) returns (s': State<T>)
    requires Inv(s) && t in s.pcs
    requires s.pcs[t].PopCalled? || s.pcs[t].PopLoaded? || s.pcs[t].PopReady? || s.pcs[t].PopTook?
    ensures StepOf(s, s', t) && Left(s', t) < Left(s, t) && t in s'.pcs
  {
    var pc := s.pcs[t];
    assert PcOk(s, pc);
    if pc.PopCalled? {
      s' := s.(pcs := s.pcs[t := PopLoaded(s.head, |s.heads| - 1)], log := s.log + Seen(s, t));
      assert LoadForPop(s, s', t);
    } else if pc.PopTook? {
      s' := s.(pcs := s.pcs[t := Idle], freed := s.freed + {pc.node}, log := s.log + [Return(t, Popped(s.heap[pc.node].data))]);
      assert ReturnPop(s, s', t);
    } else if pc.PopLoaded? && pc.candidate == None {
      s' := s.(pcs := s.pcs[t := Idle], log := s.log + [Return(t, Empty)]);
      assert ThrowEmpty(s, s', t);
    } else if pc.PopLoaded? {
      var c := pc.candidate.value;
      s' := s.(pcs := s.pcs[t := PopReady(c, s.heap[c].next, pc.version)]);
      assert ReadNext(s, s', t);
    } else if MustFail(s, t) {
      s' := s.(pcs := s.pcs[t := PopLoaded(s.head, |s.heads| - 1)], log := s.log + Seen(s, t));
      assert FailPop(s, s', t);
    } else {
      s' := PopCanSucceed(s, t);
    }
  }

  /** The run goes on with steps of thread t only. */
  ghost predicate GoesOnAlone<T(!new)>(run: seq<State<T>>, longer: seq<State<T>>, t: Thread) {
    && |run| > 0 && run <= longer && Run(longer)
    && forall i | |run| - 1 <= i < |longer| - 1 :: StepOf(longer[i], longer[i + 1], t)
  }

  lemma OneMore<T(!new)>(run: seq<State<T>>, s': State<T>, t: Thread)
    requires Run(run) && StepOf(run[|run| - 1], s', t)
    ensures Run(run + [s'])
  {
    var more := run + [s'];
    forall i | 0 <= i < |more| - 1
      ensures Next(more[i], more[i + 1])
    {
      if i < |run| - 1 {
        assert Next(run[i], run[i + 1]);
      }
    }
  }

  lemma OneEarlier<T(!new)>(run: seq<State<T>>, s': State<T>, longer: seq<State<T>>, t: Thread)
    requires |run| > 0 && StepOf(run[|run| - 1], s', t) && GoesOnAlone(run + [s'], longer, t)
    ensures GoesOnAlone(run, longer, t)
  {
    assert longer[|run| - 1] == (run + [s'])[|run| - 1] && longer[|run|] == (run + [s'])[|run|];
  }

  lemma AloneStep<T(!new)>(s: State<T>, t: Thread) returns (s': State<T>)
    requires Inv(s) && t in s.pcs && s.pcs[t] != Idle
    ensures StepOf(s, s', t) && Left(s', t) < Left(s, t) && t in s'.pcs
  {
    if s.pcs[t].PushCalled? || s.pcs[t].PushAllocated? || s.pcs[t].PushReady? || s.pcs[t].PushDone? {
      s' := PushProgress(s, t);
    } else {
      s' := PopProgress(s, t);
    }
  }

  lemma {:induction false} FinishFrom<T(!new)>(run: seq<State<T>>, t: Thread) returns (longer: seq<State<T>>)
    requires Run(run) && t in run[|run| - 1].pcs
    ensures GoesOnAlone(run, longer, t) && |longer| <= |run| + Left(run[|run| - 1], t)
    ensures t in longer[|longer| - 1].pcs && longer[|longer| - 1].pcs[t] == Idle
    decreases Left(run[|run| - 1], t)
  {
    var s := run[|run| - 1];
    if s.pcs[t] == Idle {
      longer := run;
    } else {
      RunInv(run);
      var s' := AloneStep(s, t);
      OneMore(run, s', t);
      longer := FinishFrom(run + [s'], t);
      OneEarlier(run, s', longer, t);
    }
  }

  /** An idle thread can begin either operation. */
  lemma CanBegin<T(!new)>(run: seq<State<T>>, t: Thread, v: T) returns (pushing: State<T>, popping: State<T>)
    requires Run(run) && t in run[|run| - 1].pcs && run[|run| - 1].pcs[t] == Idle
    ensures InvokePush(run[|run| - 1], pushing, t, v) && Run(run + [pushing])
    ensures InvokePop(run[|run| - 1], popping, t) && Run(run + [popping])
  {
    var s := run[|run| - 1];
    pushing := s.(pcs := s.pcs[t := PushCalled(v)], log := s.log + [Invoke(t, Push(v))]);
    popping := s.(pcs := s.pcs[t := PopCalled], log := s.log + [Invoke(t, Pop)]);
    assert InvokePush(s, pushing, t, v);
    OneMore(run, pushing, t);
    OneMore(run, popping, t);
  }

  /** From every state of every run a thread can finish its operation in at most six steps of its own,
      whatever the others are in the middle of. */
  lemma AloneFinishes<T(!new)>(run: seq<State<T>>, t: Thread) returns (longer: seq<State<T>>)
    requires Run(run) && t in run[|run| - 1].pcs
    ensures GoesOnAlone(run, longer, t) && |longer| <= |run| + 6
    ensures t in longer[|longer| - 1].pcs && longer[|longer| - 1].pcs[t] == Idle
  {
    longer := FinishFrom(run, t);
  }

  /** A run begins with any set of threads. */
  lemma Begins<T(!new)>(threads: set<Thread>) returns (run: seq<State<T>>)
    ensures Run(run) && |run| == 1 && run[0].pcs.Keys == threads
  {
    run := [State(None, map[], map t | t in threads :: Idle, [], {}, {}, [None], [])];
  }
}
