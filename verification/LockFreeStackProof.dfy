/** Safety of the lock-free stack over every run: the list is what a sequential stack would hold,
    every run is linearizable, and a real failure of an exchange means that another one succeeded. */
module LockFreeStackProof {
  import opened Options
  import opened LockFreeStack

  ghost function First(c: seq<Address>): Option<Address> {
    if c == [] then None else Some(c[0])
  }

  ghost predicate Linked<T>(s: State<T>, k: nat)
    requires k < |s.chain|
  {
    s.chain[k] in s.published && s.chain[k] in s.heap && s.heap[s.chain[k]].next == First(s.chain[k + 1..])
  }

  /** The nodes behind head form an acyclic list of published, undeleted nodes. */
  ghost predicate ListOk<T>(s: State<T>) {
    && |s.heads| > 0 && s.head == s.heads[|s.heads| - 1]
    && s.head == First(s.chain)
    && s.published <= s.heap.Keys && s.freed <= s.published
    && (forall k | 0 <= k < |s.chain| :: Linked(s, k) && s.chain[k] !in s.freed)
    && (forall i, k | 0 <= i < k < |s.chain| :: s.chain[i] != s.chain[k])
  }

  ghost function Contents<T>(heap: map<Address, Node<T>>, chain: seq<Address>): (c: seq<T>)
    requires forall k | 0 <= k < |chain| :: chain[k] in heap
    ensures |c| == |chain| && forall k | 0 <= k < |chain| :: c[k] == heap[chain[k]].data
  {
    seq(|chain|, k requires 0 <= k < |chain| => heap[chain[k]].data)
  }

  /** The node a pushing thread has not published yet. */
  ghost function PrivateNode<T>(pc: Pc<T>): Option<Address> {
    match pc
    case PushAllocated(_, a) => Some(a)
    case PushReady(_, a, _) => Some(a)
    case _ => None
  }

  /** The node a popping thread has taken and not deleted yet. */
  ghost function TakenNode<T>(pc: Pc<T>): Option<Address> {
    match pc
    case PopTook(a, _) => Some(a)
    case _ => None
  }

  ghost predicate PcOk<T>(s: State<T>, pc: Pc<T>) {
    match pc
    case PushAllocated(v, a) => a in s.heap && a !in s.published && s.heap[a].data == v
    case PushReady(v, a, n) =>
      a in s.heap && a !in s.published && s.heap[a].data == v && n < |s.heads| && s.heap[a].next == s.heads[n]
    case PopLoaded(c, n) => n < |s.heads| && c == s.heads[n] && (c.Some? ==> c.value in s.published)
    case PopReady(a, nx, n) =>
      n < |s.heads| && Some(a) == s.heads[n] && a in s.published && a in s.heap && s.heap[a].next == nx
    case PopTook(a, out) =>
      a in s.published && a in s.heap && a !in s.chain && a !in s.freed && out == Popped(s.heap[a].data)
    case _ => true
  }

  ghost predicate ThreadsOk<T>(s: State<T>) {
    && (forall t | t in s.pcs :: PcOk(s, s.pcs[t]))
    && (forall t, u | t in s.pcs && u in s.pcs && t != u ::
          && (PrivateNode(s.pcs[t]) == None || PrivateNode(s.pcs[t]) != PrivateNode(s.pcs[u]))
          && (TakenNode(s.pcs[t]) == None || TakenNode(s.pcs[t]) != TakenNode(s.pcs[u])))
  }

  ghost function Expected<T>(pc: Pc<T>): Phase<T> {
    match pc
    case Idle => Outside
    case PushCalled(v) => Called(Push(v))
    case PushAllocated(v, _) => Called(Push(v))
    case PushReady(v, _, _) => Called(Push(v))
    case PushDone => Decided(Pushed)
    case PopCalled => Called(Pop)
    case PopLoaded(c, _) => if c == None then Decided(Empty) else Called(Pop)
    case PopReady(_, _, _) => Called(Pop)
    case PopTook(_, out) => Decided(out)
  }

  ghost predicate LogOk<T(!new)>(s: State<T>)
    requires ListOk(s)
  {
    && Replay(s.log) == Some(Contents(s.heap, s.chain))
    && forall t :: PhaseOf(s.log, t) == if t in s.pcs then Expected(s.pcs[t]) else Outside
  }

  ghost predicate Inv<T(!new)>(s: State<T>) {
    ListOk(s) && ThreadsOk(s) && LogOk(s)
  }

  lemma InitInv<T(!new)>(s: State<T>)
    requires Init(s)
    ensures Inv(s)
  {
  }

  // ---------- the log ----------

  lemma LogGrows<T(!new)>(log: seq<Event<T>>, e: Event<T>)
    ensures (log + [e])[..|log|] == log
    ensures forall t :: t != e.t ==> PhaseOf(log + [e], t) == PhaseOf(log, t)
  {
  }

  /** A step that only invokes or returns. */
  lemma LogQuiet<T(!new)>(s: State<T>, s': State<T>, t: Thread, e: Event<T>)
    requires Inv(s) && t in s.pcs && ListOk(s') && e.t == t && !e.Commit?
    requires s'.log == s.log + [e] && s'.heap == s.heap && s'.chain == s.chain
    requires s'.pcs.Keys == s.pcs.Keys && forall u | u in s.pcs && u != t :: s'.pcs[u] == s.pcs[u]
    requires e.Invoke? ==> s.pcs[t] == Idle && Expected(s'.pcs[t]) == Called(e.op)
    requires e.Return? ==> Expected(s.pcs[t]) == Decided(e.outcome) && s'.pcs[t] == Idle
    ensures LogOk(s')
  {
    LogGrows(s.log, e);
  }

  /** A step that commits. */
  lemma LogCommits<T(!new)>(s: State<T>, s': State<T>, t: Thread, out: Outcome<T>)
    requires Inv(s) && t in s.pcs && ListOk(s') && s'.log == s.log + [Commit(t, out)]
    requires s'.pcs.Keys == s.pcs.Keys && forall u | u in s.pcs && u != t :: s'.pcs[u] == s.pcs[u]
    requires Expected(s.pcs[t]).Called? && Answers(Expected(s.pcs[t]).op, out) && Expected(s'.pcs[t]) == Decided(out)
    requires var c, c' := Contents(s.heap, s.chain), Contents(s'.heap, s'.chain);
      match out
      case Pushed => c' == [Expected(s.pcs[t]).op.value] + c
      case Popped(v) => |c| > 0 && c[0] == v && c' == c[1..]
      case Empty => c == [] && c' == c
    ensures LogOk(s')
  {
    LogGrows(s.log, Commit(t, out));
  }

  /** A step that leaves the log alone. */
  lemma LogSame<T(!new)>(s: State<T>, s': State<T>, t: Thread)
    requires Inv(s) && t in s.pcs && ListOk(s') && s'.log == s.log && s'.chain == s.chain
    requires Contents(s'.heap, s'.chain) == Contents(s.heap, s.chain)
    requires s'.pcs.Keys == s.pcs.Keys && forall u | u in s.pcs && u != t :: s'.pcs[u] == s.pcs[u]
    requires Expected(s'.pcs[t]) == Expected(s.pcs[t])
    ensures LogOk(s')
  {
  }

  // ---------- the list and the threads ----------

  /** Writing to a private or fresh node does not touch the list. */
  lemma PrivateWrite<T(!new)>(s: State<T>, s': State<T>, t: Thread, a: Address, n: Node<T>)
    requires Inv(s) && t in s.pcs && a !in s.published && s'.heap == s.heap[a := n]
    requires s'.head == s.head && s'.chain == s.chain && s'.heads == s.heads && s'.published == s.published && s'.freed == s.freed
    requires s'.pcs.Keys == s.pcs.Keys && forall u | u in s.pcs && u != t :: s'.pcs[u] == s.pcs[u]
    requires PrivateNode(s'.pcs[t]) == Some(a) && TakenNode(s'.pcs[t]) == None && PcOk(s', s'.pcs[t])
    requires forall u | u in s.pcs && u != t :: PrivateNode(s.pcs[u]) != Some(a)
    ensures ListOk(s') && ThreadsOk(s') && Contents(s'.heap, s'.chain) == Contents(s.heap, s.chain)
  {
    forall k | 0 <= k < |s'.chain|
      ensures Linked(s', k)
    {
      assert Linked(s, k);
    }
    forall u | u in s.pcs && u != t
      ensures PcOk(s', s'.pcs[u])
    {
      assert PcOk(s, s.pcs[u]);
    }
  }

  /** A step that changes only the thread's own program counter. */
  lemma LocalStep<T(!new)>(s: State<T>, s': State<T>, t: Thread)
    requires Inv(s) && t in s.pcs && s'.heap == s.heap && s'.head == s.head && s'.chain == s.chain
    requires s'.heads == s.heads && s'.published == s.published && s'.freed == s.freed
    requires s'.pcs.Keys == s.pcs.Keys && forall u | u in s.pcs && u != t :: s'.pcs[u] == s.pcs[u]
    requires PrivateNode(s'.pcs[t]) == None && TakenNode(s'.pcs[t]) == None && PcOk(s', s'.pcs[t])
    ensures ListOk(s') && ThreadsOk(s') && Contents(s'.heap, s'.chain) == Contents(s.heap, s.chain)
  {
    forall k | 0 <= k < |s'.chain|
      ensures Linked(s', k)
    {
      assert Linked(s, k);
    }
    forall u | u in s.pcs && u != t
      ensures PcOk(s', s'.pcs[u])
    {
      assert PcOk(s, s.pcs[u]);
    }
  }

  // ---------- every step keeps the invariant ----------

  lemma KeepsInvokePush<T(!new)>(s: State<T>, s': State<T>, t: Thread, v: T)
    requires Inv(s) && InvokePush(s, s', t, v)
    ensures Inv(s')
  {
    LocalStep(s, s', t);
    LogQuiet(s, s', t, Invoke(t, Push(v)));
  }

  lemma KeepsAllocate<T(!new)>(s: State<T>, s': State<T>, t: Thread, a: Address)
    requires Inv(s) && Allocate(s, s', t, a)
    ensures Inv(s')
  {
    forall u | u in s.pcs && u != t
      ensures PrivateNode(s.pcs[u]) != Some(a)
    {
      assert PcOk(s, s.pcs[u]);
    }
    PrivateWrite(s, s', t, a, Node(s.pcs[t].v, None));
    LogSame(s, s', t);
  }

  lemma KeepsLoadForPush<T(!new)>(s: State<T>, s': State<T>, t: Thread)
    requires Inv(s) && (LoadForPush(s, s', t) || FailPush(s, s', t))
    ensures Inv(s')
  {
    var a := s.pcs[t].node;
    assert PcOk(s, s.pcs[t]);
    PrivateWrite(s, s', t, a, s.heap[a].(next := s.head));
    LogSame(s, s', t);
  }

  lemma KeepsReturnPush<T(!new)>(s: State<T>, s': State<T>, t: Thread)
    requires Inv(s) && ReturnPush(s, s', t)
    ensures Inv(s')
  {
    LocalStep(s, s', t);
    LogQuiet(s, s', t, Return(t, Pushed));
  }

  lemma KeepsInvokePop<T(!new)>(s: State<T>, s': State<T>, t: Thread)
    requires Inv(s) && InvokePop(s, s', t)
    ensures Inv(s')
  {
    LocalStep(s, s', t);
    LogQuiet(s, s', t, Invoke(t, Pop));
  }

  /** Loading head, at first or after a failed exchange; an empty list commits at this very step. */
  lemma KeepsLoadForPop<T(!new)>(s: State<T>, s': State<T>, t: Thread)
    requires Inv(s) && (LoadForPop(s, s', t) || FailPop(s, s', t))
    ensures Inv(s')
  {
    if s.chain != [] {
      assert Linked(s, 0);
    }
    LocalStep(s, s', t);
    if s.head == None {
      LogCommits(s, s', t, Empty);
    } else {
      assert s'.log == s.log;
      LogSame(s, s', t);
    }
  }

  lemma KeepsReadNext<T(!new)>(s: State<T>, s': State<T>, t: Thread)
    requires Inv(s) && ReadNext(s, s', t)
    ensures Inv(s')
  {
    assert PcOk(s, s.pcs[t]);
    LocalStep(s, s', t);
    LogSame(s, s', t);
  }

  lemma KeepsThrowEmpty<T(!new)>(s: State<T>, s': State<T>, t: Thread)
    requires Inv(s) && ThrowEmpty(s, s', t)
    ensures Inv(s')
  {
    LocalStep(s, s', t);
    LogQuiet(s, s', t, Return(t, Empty));
  }

  lemma ExchangePushLinks<T(!new)>(s: State<T>, s': State<T>, t: Thread, k: nat)
    requires Inv(s) && ExchangePush(s, s', t) && k < |s'.chain|
    ensures Linked(s', k) && s'.chain[k] !in s'.freed
    ensures k > 0 ==> s'.chain[k] in s.published
  {
    assert PcOk(s, s.pcs[t]);
    assert s'.chain[1..] == s.chain;
    if k > 0 {
      assert Linked(s, k - 1);
      assert s'.chain[k + 1..] == s.chain[k..];
    }
  }

  lemma ExchangePushList<T(!new)>(s: State<T>, s': State<T>, t: Thread)
    requires Inv(s) && ExchangePush(s, s', t)
    ensures ListOk(s')
  {
    assert PcOk(s, s.pcs[t]);
    forall k | 0 <= k < |s'.chain|
      ensures Linked(s', k) && s'.chain[k] !in s'.freed
      ensures k > 0 ==> s'.chain[k] in s.published
    {
      ExchangePushLinks(s, s', t, k);
    }
  }

  lemma ExchangePushContents<T(!new)>(s: State<T>, s': State<T>, t: Thread)
    requires Inv(s) && ExchangePush(s, s', t) && ListOk(s')
    ensures Contents(s'.heap, s'.chain) == [s.pcs[t].v] + Contents(s.heap, s.chain)
  {
    assert PcOk(s, s.pcs[t]);
  }

  lemma KeepsExchangePush<T(!new)>(s: State<T>, s': State<T>, t: Thread)
    requires Inv(s) && ExchangePush(s, s', t)
    ensures Inv(s')
  {
    var a := s.pcs[t].node;
    assert PcOk(s, s.pcs[t]);
    ExchangePushList(s, s', t);
    ExchangePushContents(s, s', t);
    forall u | u in s.pcs
      ensures PcOk(s', s'.pcs[u])
    {
      assert PcOk(s, s.pcs[u]);
      if u != t {
        assert PrivateNode(s.pcs[t]) == Some(a) && PrivateNode(s.pcs[u]) != Some(a);
      }
    }
    LogCommits(s, s', t, Pushed);
  }

  /** No other exchange can have slipped in unnoticed: the node read at the last load is still the
      first of the list, and the link read from it is still its link. */
  lemma ExchangePopList<T(!new)>(s: State<T>, s': State<T>, t: Thread)
    requires Inv(s) && ExchangePop(s, s', t)
    ensures ListOk(s') && s.chain[0] == s.pcs[t].node && s.pcs[t].node !in s'.chain
  {
    assert PcOk(s, s.pcs[t]);
    assert Linked(s, 0);
    forall k | 0 <= k < |s'.chain|
      ensures Linked(s', k) && s'.chain[k] !in s'.freed
    {
      assert Linked(s, k + 1);
      assert s'.chain[k + 1..] == s.chain[k + 2..];
    }
  }

  lemma ExchangePopContents<T(!new)>(s: State<T>, s': State<T>, t: Thread)
    requires Inv(s) && ExchangePop(s, s', t) && ListOk(s')
    ensures |s.chain| > 0 && Contents(s'.heap, s'.chain) == Contents(s.heap, s.chain)[1..]
  {
    assert PcOk(s, s.pcs[t]);
    assert s'.chain == s.chain[1..];
  }

  lemma KeepsExchangePop<T(!new)>(s: State<T>, s': State<T>, t: Thread)
    requires Inv(s) && ExchangePop(s, s', t)
    ensures Inv(s')
  {
    ExchangePopList(s, s', t);
    ExchangePopContents(s, s', t);
    assert Linked(s, 0);
    forall u | u in s.pcs
      ensures PcOk(s', s'.pcs[u])
    {
      assert PcOk(s, s.pcs[u]);
    }
    forall u | u in s.pcs && u != t
      ensures TakenNode(s.pcs[u]) != Some(s.pcs[t].node)
    {
      assert PcOk(s, s.pcs[u]);
    }
    LogCommits(s, s', t, Popped(s.heap[s.pcs[t].node].data));
  }

  lemma KeepsReturnPop<T(!new)>(s: State<T>, s': State<T>, t: Thread)
    requires Inv(s) && ReturnPop(s, s', t)
    ensures Inv(s')
  {
    assert PcOk(s, s.pcs[t]);
    forall k | 0 <= k < |s'.chain|
      ensures Linked(s', k) && s'.chain[k] !in s'.freed
    {
      assert Linked(s, k);
    }
    forall u | u in s.pcs
      ensures PcOk(s', s'.pcs[u])
    {
      assert PcOk(s, s.pcs[u]);
      if u != t {
        assert TakenNode(s.pcs[t]) == Some(s.pcs[t].node) && TakenNode(s.pcs[u]) != Some(s.pcs[t].node);
      }
    }
    LogQuiet(s, s', t, Return(t, Popped(s.heap[s.pcs[t].node].data)));
  }

  lemma NextInv<T(!new)>(s: State<T>, s': State<T>)
    requires Inv(s) && Next(s, s')
    ensures Inv(s')
  {
    var t :| StepOf(s, s', t);
    if v :| InvokePush(s, s', t, v) {
      KeepsInvokePush(s, s', t, v);
    } else if a :| Allocate(s, s', t, a) {
      KeepsAllocate(s, s', t, a);
    } else if LoadForPush(s, s', t) || FailPush(s, s', t) {
      KeepsLoadForPush(s, s', t);
    } else if ExchangePush(s, s', t) {
      KeepsExchangePush(s, s', t);
    } else if ReturnPush(s, s', t) {
      KeepsReturnPush(s, s', t);
    } else if InvokePop(s, s', t) {
      KeepsInvokePop(s, s', t);
    } else if LoadForPop(s, s', t) || FailPop(s, s', t) {
      KeepsLoadForPop(s, s', t);
    } else if ReadNext(s, s', t) {
      KeepsReadNext(s, s', t);
    } else if ExchangePop(s, s', t) {
      KeepsExchangePop(s, s', t);
    } else if ThrowEmpty(s, s', t) {
      KeepsThrowEmpty(s, s', t);
    } else {
      KeepsReturnPop(s, s', t);
    }
  }

  lemma {:induction false} RunInv<T(!new)>(run: seq<State<T>>)
    requires Run(run)
    ensures Inv(run[|run| - 1])
  {
    if |run| == 1 {
      InitInv(run[0]);
    } else {
      var shorter := run[..|run| - 1];
      forall i | 0 <= i < |shorter| - 1
        ensures Next(shorter[i], shorter[i + 1])
      {
        assert Next(run[i], run[i + 1]);
      }
      RunInv(shorter);
      assert Next(run[|run| - 2], run[|run| - 2 + 1]);
      NextInv(run[|run| - 2], run[|run| - 1]);
    }
  }

  // ---------- the main results ----------

  /** Every run of any number of threads is linearizable, and the list behind head holds exactly
      what the sequential stack holds after the commits of the run. */
  lemma RunsLinearizable<T(!new)>(run: seq<State<T>>)
    requires Run(run)
    ensures Linearizable(run[|run| - 1].log)
    ensures ListOk(run[|run| - 1])
    ensures Replay(run[|run| - 1].log) == Some(Contents(run[|run| - 1].heap, run[|run| - 1].chain))
  {
    RunInv(run);
    var s := run[|run| - 1];
    forall t
      ensures PhaseOf(s.log, t) != Broken
    {
    }
  }

  /** Events h < i belong to t, and t has no other events after h. */
  ghost predicate OperationAt<T>(log: seq<Event<T>>, t: Thread, h: nat, i: nat, out: Outcome<T>) {
    && h < i < |log|
    && log[h].Invoke? && log[h].t == t && Answers(log[h].op, out)
    && log[i] == Commit(t, out)
    && forall k | h < k < |log| && k != i :: log[k].t != t
  }

  lemma {:induction false} CalledSince<T>(log: seq<Event<T>>, t: Thread) returns (h: nat)
    requires PhaseOf(log, t).Called?
    ensures h < |log| && log[h] == Invoke(t, PhaseOf(log, t).op)
    ensures forall k | h < k < |log| :: log[k].t != t
  {
    var last := |log| - 1;
    if log[last].t == t {
      h := last;
    } else {
      h := CalledSince(log[..last], t);
    }
  }

  /** What the phases mean: an operation that is about to return out was invoked at h and committed
      with the outcome out at a later point i; nothing else of that thread happened in between.
      So the commit lies between invocation and return. */
  lemma {:induction false} DecidedSince<T>(log: seq<Event<T>>, t: Thread) returns (h: nat, i: nat)
    requires PhaseOf(log, t).Decided?
    ensures OperationAt(log, t, h, i, PhaseOf(log, t).outcome)
  {
    var last := |log| - 1;
    if log[last].t == t {
      h := CalledSince(log[..last], t);
      i := last;
    } else {
      h, i := DecidedSince(log[..last], t);
    }
  }

  ghost function PushedValues<T>(log: seq<Event<T>>): multiset<T> {
    if log == [] then multiset{}
    else
      var before, e := log[..|log| - 1], log[|log| - 1];
      PushedValues(before) +
      if e.Commit? && e.outcome.Pushed? && PhaseOf(before, e.t).Called? && PhaseOf(before, e.t).op.Push?
      then multiset{PhaseOf(before, e.t).op.value} else multiset{}
  }

  ghost function PoppedValues<T>(log: seq<Event<T>>): multiset<T> {
    if log == [] then multiset{}
    else
      var before, e := log[..|log| - 1], log[|log| - 1];
      PoppedValues(before) + if e.Commit? && e.outcome.Popped? then multiset{e.outcome.value} else multiset{}
  }

  lemma OnePushed<T>(pushed: multiset<T>, popped: multiset<T>, c: seq<T>, v: T)
    requires pushed == popped + multiset(c)
    ensures pushed + multiset{v} == popped + multiset([v] + c)
  {
  }

  lemma OnePopped<T>(pushed: multiset<T>, popped: multiset<T>, c: seq<T>)
    requires c != [] && pushed == popped + multiset(c)
    ensures pushed == popped + multiset{c[0]} + multiset(c[1..])
  {
    assert c == [c[0]] + c[1..];
  }

  /** Pushed values are the popped ones plus those on the stack. */
  lemma {:induction false} ReplayConserves<T>(log: seq<Event<T>>)
    requires Replay(log).Some?
    ensures PushedValues(log) == PoppedValues(log) + multiset(Replay(log).value)
  {
    if log != [] {
      var before, e := log[..|log| - 1], log[|log| - 1];
      ReplayConserves(before);
      var c := Replay(before).value;
      if e.Commit? && e.outcome.Pushed? {
        OnePushed(PushedValues(before), PoppedValues(before), c, PhaseOf(before, e.t).op.value);
      } else if e.Commit? && e.outcome.Popped? {
        OnePopped(PushedValues(before), PoppedValues(before), c);
      }
    }
  }

  lemma RunsConserve<T(!new)>(run: seq<State<T>>)
    requires Run(run)
    ensures var s := run[|run| - 1];
      ListOk(s) && PushedValues(s.log) == PoppedValues(s.log) + multiset(Contents(s.heap, s.chain))
  {
    RunsLinearizable(run);
    ReplayConserves(run[|run| - 1].log);
  }

  /** heads only grows, and only by a successful exchange. */
  lemma OnlyExchangesAdvance<T(!new)>(s: State<T>, s': State<T>)
    requires Next(s, s')
    ensures s.heads <= s'.heads && Version(s') <= Version(s) + 1
    ensures Version(s') > Version(s) ==> exists t :: ExchangePush(s, s', t) || ExchangePop(s, s', t)
  {
    var t :| StepOf(s, s', t);
  }

  /** No node is deleted twice, and none while it is on the list. */
  lemma DeletesOnce<T(!new)>(s: State<T>, s': State<T>, t: Thread)
    requires Inv(s) && ReturnPop(s, s', t)
    ensures s.pcs[t].node !in s.freed && s.pcs[t].node !in s.chain && s'.freed == s.freed + {s.pcs[t].node}
  {
    assert PcOk(s, s.pcs[t]);
  }
}
