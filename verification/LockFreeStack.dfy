/** The lock-free stack as a step relation over any number of threads.  Every shared access of push
    and pop is one atomic step; the steps of different threads interleave freely.  Memory is
    sequentially consistent, an address is never allocated twice, and a freed node stays readable. */
module LockFreeStack {

  import opened Options

  type Address = nat
  type Thread = nat
  datatype Node<T> = Node(data: T, next: Option<Address>)

  datatype Operation<T> = Push(value: T) | Pop
  datatype Outcome<T> = Pushed | Popped(value: T) | Empty

  /** Invoke and Return frame an operation; Commit marks the step at which it takes effect. */
  datatype Event<T> =
    | Invoke(t: Thread, op: Operation<T>)
    | Commit(t: Thread, outcome: Outcome<T>)
    | Return(t: Thread, outcome: Outcome<T>)

  /** Where a thread stands.  version is the number of successful exchanges at its last load of
      head, outcome what its commit promised; both are bookkeeping only. */
  datatype Pc<T> =
    | Idle
    | PushCalled(v: T)
    | PushAllocated(v: T, node: Address)
    | PushReady(v: T, node: Address, version: nat)
    | PushDone
    | PopCalled
    | PopLoaded(candidate: Option<Address>, version: nat)
    | PopReady(node: Address, next: Option<Address>, version: nat)
    | PopTook(node: Address, outcome: Outcome<T>)

  /** head and heap are the program's memory.  chain lists the nodes behind head, published the
      nodes that were ever on the list, freed the deleted ones, heads all values head has had. */
  datatype State<T> = State(
    head: Option<Address>, heap: map<Address, Node<T>>, pcs: map<Thread, Pc<T>>,
    chain: seq<Address>, published: set<Address>, freed: set<Address>,
    heads: seq<Option<Address>>, log: seq<Event<T>>)

  function Version<T>(s: State<T>): int { |s.heads| - 1 }

  ghost predicate Init<T>(s: State<T>) {
    && s.head == None && s.heap == map[] && s.chain == [] && s.published == {} && s.freed == {}
    && s.heads == [None] && s.log == []
    && forall t | t in s.pcs :: s.pcs[t] == Idle
  }

  // ---------- the steps ----------

  ghost predicate InvokePush<T>(s: State<T>, s': State<T>, t: Thread, v: T) {
    && t in s.pcs && s.pcs[t].Idle?
    && s' == s.(pcs := s.pcs[t := PushCalled(v)], log := s.log + [Invoke(t, Push(v))])
  }

  /** A node is allocated and gets its value. */
  ghost predicate Allocate<T>(s: State<T>, s': State<T>, t: Thread, a: Address) {
    && t in s.pcs && s.pcs[t].PushCalled? && a !in s.heap
    && s' == s.(heap := s.heap[a := Node(s.pcs[t].v, None)], pcs := s.pcs[t := PushAllocated(s.pcs[t].v, a)])
  }

  /** The head is loaded into the link of the new node. */
  ghost predicate LoadForPush<T>(s: State<T>, s': State<T>, t: Thread) {
    && t in s.pcs && s.pcs[t].PushAllocated? && s.pcs[t].node in s.heap && |s.heads| > 0
    && var pc := s.pcs[t];
       s' == s.(heap := s.heap[pc.node := s.heap[pc.node].(next := s.head)],
                pcs := s.pcs[t := PushReady(pc.v, pc.node, |s.heads| - 1)])
  }

  /** The exchange succeeds: head is the expected value and becomes the new node. */
  ghost predicate ExchangePush<T>(s: State<T>, s': State<T>, t: Thread) {
    && t in s.pcs && s.pcs[t].PushReady? && s.pcs[t].node in s.heap
    && var pc := s.pcs[t];
       && s.heap[pc.node].next == s.head
       && s' == s.(head := Some(pc.node), pcs := s.pcs[t := PushDone],
                   chain := [pc.node] + s.chain, published := s.published + {pc.node},
                   heads := s.heads + [Some(pc.node)], log := s.log + [Commit(t, Pushed)])
  }

  /** The exchange fails, for a reason or spuriously, and loads head into the expected value. */
  ghost predicate FailPush<T>(s: State<T>, s': State<T>, t: Thread) {
    && t in s.pcs && s.pcs[t].PushReady? && s.pcs[t].node in s.heap && |s.heads| > 0
    && var pc := s.pcs[t];
       s' == s.(heap := s.heap[pc.node := s.heap[pc.node].(next := s.head)],
                pcs := s.pcs[t := PushReady(pc.v, pc.node, |s.heads| - 1)])
  }

  ghost predicate ReturnPush<T>(s: State<T>, s': State<T>, t: Thread) {
    && t in s.pcs && s.pcs[t].PushDone?
    && s' == s.(pcs := s.pcs[t := Idle], log := s.log + [Return(t, Pushed)])
  }

  ghost predicate InvokePop<T>(s: State<T>, s': State<T>, t: Thread) {
    && t in s.pcs && s.pcs[t].Idle?
    && s' == s.(pcs := s.pcs[t := PopCalled], log := s.log + [Invoke(t, Pop)])
  }

  /** A load that sees an empty list decides the operation. */
  ghost function Seen<T>(s: State<T>, t: Thread): seq<Event<T>> {
    if s.head == None then [Commit(t, Empty)] else []
  }

  /** The head is loaded; it is the node to be taken, if there is one. */
  ghost predicate LoadForPop<T>(s: State<T>, s': State<T>, t: Thread) {
    && t in s.pcs && s.pcs[t].PopCalled? && |s.heads| > 0
    && s' == s.(pcs := s.pcs[t := PopLoaded(s.head, |s.heads| - 1)], log := s.log + Seen(s, t))
  }

  /** There is a node to be taken, and its link is read for the exchange. */
  ghost predicate ReadNext<T>(s: State<T>, s': State<T>, t: Thread) {
    && t in s.pcs && s.pcs[t].PopLoaded? && s.pcs[t].candidate.Some? && s.pcs[t].candidate.value in s.heap
    && var c := s.pcs[t].candidate.value;
       s' == s.(pcs := s.pcs[t := PopReady(c, s.heap[c].next, s.pcs[t].version)])
  }

  ghost predicate ExchangePop<T>(s: State<T>, s': State<T>, t: Thread) {
    && t in s.pcs && s.pcs[t].PopReady? && s.pcs[t].node in s.heap && |s.chain| > 0
    && var pc := s.pcs[t];
       && s.head == Some(pc.node)
       && var out := Popped(s.heap[pc.node].data);
          s' == s.(head := pc.next, pcs := s.pcs[t := PopTook(pc.node, out)], chain := s.chain[1..],
                   heads := s.heads + [pc.next], log := s.log + [Commit(t, out)])
  }

  ghost predicate FailPop<T>(s: State<T>, s': State<T>, t: Thread) {
    && t in s.pcs && s.pcs[t].PopReady? && |s.heads| > 0
    && s' == s.(pcs := s.pcs[t := PopLoaded(s.head, |s.heads| - 1)], log := s.log + Seen(s, t))
  }

  /** There is no node to be taken: the operation raises its error. */
  ghost predicate ThrowEmpty<T>(s: State<T>, s': State<T>, t: Thread) {
    && t in s.pcs && s.pcs[t].PopLoaded? && s.pcs[t].candidate == None
    && s' == s.(pcs := s.pcs[t := Idle], log := s.log + [Return(t, Empty)])
  }

  /** The value is copied out of the taken node, the node is deleted, the value returned. */
  ghost predicate ReturnPop<T>(s: State<T>, s': State<T>, t: Thread) {
    && t in s.pcs && s.pcs[t].PopTook? && s.pcs[t].node in s.heap
    && var c := s.pcs[t].node;
       s' == s.(pcs := s.pcs[t := Idle], freed := s.freed + {c}, log := s.log + [Return(t, Popped(s.heap[c].data))])
  }

  ghost predicate StepOf<T(!new)>(s: State<T>, s': State<T>, t: Thread) {
    || (exists v :: InvokePush(s, s', t, v))
    || (exists a :: Allocate(s, s', t, a))
    || LoadForPush(s, s', t) || ExchangePush(s, s', t) || FailPush(s, s', t) || ReturnPush(s, s', t)
    || InvokePop(s, s', t) || LoadForPop(s, s', t) || ReadNext(s, s', t) || ExchangePop(s, s', t)
    || FailPop(s, s', t) || ThrowEmpty(s, s', t) || ReturnPop(s, s', t)
  }

  ghost predicate Next<T(!new)>(s: State<T>, s': State<T>) {
    exists t :: StepOf(s, s', t)
  }

  /** A run from an initial state, any threads in any order. */
  ghost predicate Run<T(!new)>(run: seq<State<T>>) {
    |run| > 0 && Init(run[0]) && forall i | 0 <= i < |run| - 1 :: Next(run[i], run[i + 1])
  }

  // ---------- linearizability ----------

  /** What the log says about one thread: outside, inside an operation, or past its commit. */
  datatype Phase<T> = Outside | Called(op: Operation<T>) | Decided(outcome: Outcome<T>) | Broken

  /** Replaying the commits on a sequential stack, top first; None when one of them is illegal. */
  ghost function Replay<T>(log: seq<Event<T>>): Option<seq<T>>
  {
    if log == [] then Some([])
    else
      var before, e := Replay(log[..|log| - 1]), log[|log| - 1];
      if before == None || !e.Commit? then before
      else if e.outcome.Pushed? then
        var op := PhaseOf(log[..|log| - 1], e.t);
        if op.Called? && op.op.Push? then Some([op.op.value] + before.value) else None
      else if e.outcome.Popped? then
        if |before.value| > 0 && before.value[0] == e.outcome.value then Some(before.value[1..]) else None
      else
        if before.value == [] then before else None
  }

  ghost predicate Answers<T>(op: Operation<T>, outcome: Outcome<T>) {
    op.Push? <==> outcome.Pushed?
  }

  ghost function PhaseOf<T>(log: seq<Event<T>>, t: Thread): Phase<T> {
    if log == [] then Outside
    else
      var before, e := PhaseOf(log[..|log| - 1], t), log[|log| - 1];
      if e.t != t then before
      else match e
        case Invoke(_, op) => if before.Outside? then Called(op) else Broken
        case Commit(_, out) => if before.Called? && Answers(before.op, out) then Decided(out) else Broken
        case Return(_, out) => if before == Decided(out) then Outside else Broken
  }

  /** Every operation commits exactly once, between its invocation and its return, with the
      outcome it returns; and the commits in order are a legal history of a sequential stack. */
  ghost predicate Linearizable<T>(log: seq<Event<T>>) {
    Replay(log).Some? && forall t :: PhaseOf(log, t) != Broken
  }
}
