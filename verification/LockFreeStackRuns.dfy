/** What the lock-free stack guarantees along a run: a thread whose exchange cannot succeed was
    overtaken by another thread since it last loaded head, and a pop that throws saw a null head
    while it was running. */
module LockFreeStackRuns {
  import opened Options
  import opened LockFreeStack
  import opened LockFreeStackProof

  /** Thread t loads head, by a load or by an exchange that fails. */
  ghost predicate Loads<T>(s: State<T>, s': State<T>, t: Thread) {
    LoadForPush(s, s', t) || FailPush(s, s', t) || LoadForPop(s, s', t) || FailPop(s, s', t)
  }

  ghost predicate Exchanges<T>(s: State<T>, s': State<T>, t: Thread) {
    ExchangePush(s, s', t) || ExchangePop(s, s', t)
  }

  /** Thread t works with a value of head that it has loaded. */
  ghost predicate Loaded<T>(s: State<T>, t: Thread) {
    t in s.pcs && (s.pcs[t].PushReady? || s.pcs[t].PopLoaded? || s.pcs[t].PopReady?)
  }

  /** That value. */
  ghost function Expects<T>(s: State<T>, t: Thread): Option<Address>
    requires Loaded(s, t) && PcOk(s, s.pcs[t])
  {
    match s.pcs[t]
    case PushReady(_, a, _) => s.heap[a].next
    case PopLoaded(c, _) => c
    case PopReady(a, _, _) => Some(a)
  }

  lemma PrefixRuns<T(!new)>(run: seq<State<T>>, j: nat)
    requires Run(run) && j < |run|
    ensures Run(run[..j + 1]) && Inv(run[j])
  {
    var front := run[..j + 1];
    forall i | 0 <= i < |front| - 1
      ensures Next(front[i], front[i + 1])
    {
      assert Next(run[i], run[i + 1]);
    }
    RunInv(front);
  }

  /** A step after which t holds a loaded value is a load of t, or it keeps the version that t
      loaded. */
  lemma LoadedStep<T(!new)>(s: State<T>, s': State<T>, t: Thread)
    requires Next(s, s') && Loaded(s', t) && !Loads(s, s', t)
    ensures Loaded(s, t) && s'.pcs[t].version == s.pcs[t].version
  {
    var u :| StepOf(s, s', u);
  }

  ghost predicate Popping<T>(s: State<T>, t: Thread) {
    t in s.pcs && (s.pcs[t].PopCalled? || s.pcs[t].PopLoaded? || s.pcs[t].PopReady? || s.pcs[t].PopTook?)
  }

  lemma PoppingStep<T(!new)>(s: State<T>, s': State<T>, t: Thread)
    requires Next(s, s') && Popping(s', t)
    ensures Popping(s, t) || InvokePop(s, s', t)
  {
    var u :| StepOf(s, s', u);
  }

  lemma LoadSetsVersion<T>(s: State<T>, s': State<T>, t: Thread)
    requires Loads(s, s', t)
    ensures t in s.pcs && !s.pcs[t].Idle?
    ensures Loaded(s', t) && s'.pcs[t].version == |s.heads| - 1 && s'.heads == s.heads && s'.head == s.head
  {
  }

  /** Only a successful exchange changes head. */
  lemma HeadStep<T(!new)>(s: State<T>, s': State<T>) returns (u: Thread)
    requires Next(s, s') && s'.head != s.head
    ensures Exchanges(s, s', u)
  {
    u :| StepOf(s, s', u);
  }

  /** One step as t sees it: only loads give it a new version, and a change of head is an exchange. */
  ghost predicate Regular<T(!new)>(s: State<T>, s': State<T>, t: Thread) {
    && s.heads <= s'.heads
    && (Loaded(s', t) ==>
          if Loads(s, s', t) then s'.pcs[t].version == |s.heads| - 1
          else Loaded(s, t) && s'.pcs[t].version == s.pcs[t].version)
    && (Popping(s', t) ==> Popping(s, t) || InvokePop(s, s', t))
    && (s'.head != s.head ==> exists u :: Exchanges(s, s', u))
  }

  lemma StepRegular<T(!new)>(s: State<T>, s': State<T>, t: Thread)
    requires Next(s, s')
    ensures Regular(s, s', t)
  {
    OnlyExchangesAdvance(s, s');
    if Loaded(s', t) {
      if Loads(s, s', t) {
        LoadSetsVersion(s, s', t);
      } else {
        LoadedStep(s, s', t);
      }
    }
    if Popping(s', t) {
      PoppingStep(s, s', t);
    }
    if s'.head != s.head {
      var u := HeadStep(s, s');
    }
  }

  ghost predicate RegularAt<T(!new)>(run: seq<State<T>>, m: nat, t: Thread)
    requires m + 1 < |run|
  {
    Regular(run[m], run[m + 1], t)
  }

  ghost predicate AllRegular<T(!new)>(run: seq<State<T>>, t: Thread) {
    && |run| > 0 && !Loaded(run[0], t) && !Popping(run[0], t)
    && forall m: nat | m + 1 < |run| :: RegularAt(run, m, t)
  }

  lemma RunRegular<T(!new)>(run: seq<State<T>>, t: Thread)
    requires Run(run)
    ensures AllRegular(run, t)
  {
    forall m: nat | m + 1 < |run|
      ensures RegularAt(run, m, t)
    {
      assert Next(run[m], run[m + 1]);
      StepRegular(run[m], run[m + 1], t);
    }
  }

  /** Step i is the last load of t before state j. */
  ghost predicate LastLoad<T>(run: seq<State<T>>, i: nat, j: nat, t: Thread) {
    && i < j < |run| && Loads(run[i], run[i + 1], t)
    && forall m | i < m <= j :: Loaded(run[m], t) && (m < j ==> !Loads(run[m], run[m + 1], t))
  }

  lemma {:induction false} FindLastLoad<T(!new)>(run: seq<State<T>>, j: nat, t: Thread) returns (i: nat)
    requires AllRegular(run, t) && j < |run| && Loaded(run[j], t)
    ensures LastLoad(run, i, j, t) && run[j].pcs[t].version == |run[i].heads| - 1 && run[i].heads <= run[j].heads
  {
    var k := j - 1;
    assert RegularAt(run, k, t);
    if Loads(run[k], run[j], t) {
      i := k;
    } else {
      i := FindLastLoad(run, k, t);
    }
  }

  /** The value that t compares head with is the one head had at the last load of t. */
  lemma ExpectsTheLoaded<T(!new)>(run: seq<State<T>>, j: nat, t: Thread) returns (i: nat)
    requires Run(run) && j < |run| && Loaded(run[j], t)
    ensures PcOk(run[j], run[j].pcs[t])
    ensures LastLoad(run, i, j, t) && Expects(run[j], t) == run[i].head
  {
    RunRegular(run, t);
    i := FindLastLoad(run, j, t);
    PrefixRuns(run, j);
    PrefixRuns(run, i);
    HeadAtLoad(run[i], run[j], t);
  }

  lemma HeadAtLoad<T(!new)>(s: State<T>, s': State<T>, t: Thread)
    requires Inv(s) && Inv(s') && Loaded(s', t) && s'.pcs[t].version == |s.heads| - 1 && s.heads <= s'.heads
    ensures PcOk(s', s'.pcs[t]) && Expects(s', t) == s.head
  {
    assert PcOk(s', s'.pcs[t]);
  }

  lemma {:induction false} HeadMoved<T(!new)>(run: seq<State<T>>, i: nat, j: nat, t: Thread) returns (k: nat, u: Thread)
    requires AllRegular(run, t) && i <= j < |run| && run[i].head != run[j].head
    ensures i <= k < j && Exchanges(run[k], run[k + 1], u)
  {
    var last := j - 1;
    if run[last].head != run[j].head {
      k := last;
      assert RegularAt(run, k, t);
      u :| Exchanges(run[k], run[k + 1], u);
    } else {
      k, u := HeadMoved(run, i, last, t);
    }
  }

  /** The exchange of t can only fail, because head is not the value it compares head with. */
  ghost predicate MustFail<T>(s: State<T>, t: Thread) {
    && t in s.pcs
    && match s.pcs[t]
       case PushReady(_, a, _) => a in s.heap && s.heap[a].next != s.head
       case PopReady(a, _, _) => s.head != Some(a)
       case _ => false
  }

  lemma ExchangeUnloads<T>(s: State<T>, s': State<T>, t: Thread)
    requires Exchanges(s, s', t)
    ensures !Loaded(s', t)
  {
  }

  /** Lock freedom: if the exchange of t must fail in state j, then another thread u has succeeded
      with an exchange, at a step k after the last load i of t. */
  lemma FailureMeansProgress<T(!new)>(run: seq<State<T>>, j: nat, t: Thread) returns (i: nat, k: nat, u: Thread)
    requires Run(run) && j < |run| && MustFail(run[j], t)
    ensures LastLoad(run, i, j, t) && i < k < j && u != t && Exchanges(run[k], run[k + 1], u)
  {
    i := ExpectsTheLoaded(run, j, t);
    k, u := OvertakenSince(run, i, j, t);
  }

  lemma OvertakenSince<T(!new)>(run: seq<State<T>>, i: nat, j: nat, t: Thread) returns (k: nat, u: Thread)
    requires Run(run) && LastLoad(run, i, j, t) && run[i].head != run[j].head
    ensures i < k < j && u != t && Exchanges(run[k], run[k + 1], u)
  {
    RunRegular(run, t);
    LoadSetsVersion(run[i], run[i + 1], t);
    k, u := HeadMoved(run, i + 1, j, t);
    if u == t {
      ExchangeUnloads(run[k], run[k + 1], t);
      assert false;
    }
  }

  // ---------- the empty stack ----------

  /** Step h invokes the pop that t is in the middle of in state j. */
  ghost predicate PoppingSince<T>(run: seq<State<T>>, h: nat, j: nat, t: Thread) {
    h < j < |run| && InvokePop(run[h], run[h + 1], t) && forall m | h < m <= j :: Popping(run[m], t)
  }

  lemma {:induction false} FindInvocation<T(!new)>(run: seq<State<T>>, j: nat, t: Thread) returns (h: nat)
    requires AllRegular(run, t) && j < |run| && Popping(run[j], t)
    ensures PoppingSince(run, h, j, t)
  {
    var k := j - 1;
    assert RegularAt(run, k, t);
    if InvokePop(run[k], run[j], t) {
      h := k;
    } else {
      h := FindInvocation(run, k, t);
    }
  }

  /** "empty stack" is thrown only by a pop that was invoked at a step h and loaded head at a later
      step i, when head was null. */
  lemma ThrowsOnlyOnNull<T(!new)>(run: seq<State<T>>, j: nat, t: Thread) returns (h: nat, i: nat)
    requires Run(run) && j + 1 < |run| && ThrowEmpty(run[j], run[j + 1], t)
    ensures PoppingSince(run, h, j, t) && h < i < j && Loads(run[i], run[i + 1], t) && run[i].head == None
  {
    RunRegular(run, t);
    h := FindInvocation(run, j, t);
    i := ExpectsTheLoaded(run, j, t);
    LoadSetsVersion(run[i], run[i + 1], t);
  }
}
