/** The invariant of the kernel, and what every run of it ends with. */
module HistogramProof {
  import opened Remainders
  import opened StrideCounts
  import opened Histogram

  // ---------- what the threads have counted ----------

  predicate Started(stage: Stage) {
    stage != Begin && stage != Barrier1
  }

  ghost function Visited(c: Config, g: nat, l: nat, th: Thread, b: nat): nat
    requires Total(c) > 0
  {
    if Started(th.stage) then CountStride(c.input, Total(c), Tid(c, g, l), Seen(th.i, |c.input|), b) else 0
  }

  /** What the first m threads of a group have put into bin b. */
  ghost function GroupSum(c: Config, g: nat, ths: seq<Thread>, m: nat, b: nat): nat
    requires Total(c) > 0 && m <= |ths|
  {
    if m == 0 then 0 else GroupSum(c, g, ths, m - 1, b) + Visited(c, g, m - 1, ths[m - 1], b)
  }

  lemma {:induction false} GroupSumUpdate(c: Config, g: nat, ths: seq<Thread>, m: nat, b: nat, l: nat, th: Thread)
    requires Total(c) > 0 && m <= |ths| && l < |ths|
    ensures GroupSum(c, g, ths[l := th], m, b) ==
            GroupSum(c, g, ths, m, b) + if l < m then Visited(c, g, l, th, b) - Visited(c, g, l, ths[l], b) else 0
  {
    if m > 0 {
      GroupSumUpdate(c, g, ths, m - 1, b, l, th);
    }
  }

  lemma {:induction false} GroupSumIdle(c: Config, g: nat, ths: seq<Thread>, m: nat, b: nat)
    requires Total(c) > 0 && m <= |ths| && forall l | 0 <= l < m :: !Started(ths[l].stage)
    ensures GroupSum(c, g, ths, m, b) == 0
  {
    if m > 0 {
      GroupSumIdle(c, g, ths, m - 1, b);
    }
  }

  /** What the first m threads of a group count in the end. */
  ghost function FinalSum(c: Config, g: nat, m: nat, b: nat): nat
    requires Total(c) > 0
  {
    if m == 0 then 0
    else FinalSum(c, g, m - 1, b) + CountStride(c.input, Total(c), Tid(c, g, m - 1), |c.input|, b)
  }

  lemma {:induction false} GroupSumFinal(c: Config, g: nat, ths: seq<Thread>, m: nat, b: nat)
    requires Total(c) > 0 && m <= |ths|
    requires forall l | 0 <= l < m :: Counted(ths[l].stage) && ths[l].i >= |c.input|
    ensures GroupSum(c, g, ths, m, b) == FinalSum(c, g, m, b)
  {
    if m > 0 {
      GroupSumFinal(c, g, ths, m - 1, b);
    }
  }

  /** What the first k groups have added to bin b of the result. */
  ghost function Merged(c: Config, ths: seq<seq<Thread>>, k: nat, b: nat): nat
    requires Total(c) > 0 && k <= |ths|
  {
    if k == 0 then 0
    else Merged(c, ths, k - 1, b) + if b < |ths[k - 1]| && ths[k - 1][b].stage == Done then FinalSum(c, k - 1, c.size, b) else 0
  }

  lemma {:induction false} MergedUpdate(c: Config, ths: seq<seq<Thread>>, k: nat, b: nat, g: nat, l: nat, th: Thread)
    requires Total(c) > 0 && k <= |ths| && g < |ths| && l < |ths[g]| && ths[g][l].stage != Done
    ensures Merged(c, ths[g := ths[g][l := th]], k, b) ==
            Merged(c, ths, k, b) + if g < k && l == b && th.stage == Done then FinalSum(c, g, c.size, b) else 0
  {
    if k > 0 {
      MergedUpdate(c, ths, k - 1, b, g, l, th);
    }
  }

  lemma {:induction false} MergedStart(c: Config, ths: seq<seq<Thread>>, k: nat, b: nat)
    requires Total(c) > 0 && k <= |ths|
    requires forall g, l | 0 <= g < |ths| && 0 <= l < |ths[g]| :: ths[g][l].stage == Begin
    ensures Merged(c, ths, k, b) == 0
  {
    if k > 0 {
      MergedStart(c, ths, k - 1, b);
    }
  }

  /** The threads of the groups are the threads of the whole. */
  lemma {:induction false} FinalSumIsThreadSum(c: Config, g: nat, m: nat, b: nat)
    requires Total(c) > 0
    ensures ThreadSum(c.input, Total(c), Tid(c, g, m), |c.input|, b)
         == ThreadSum(c.input, Total(c), Tid(c, g, 0), |c.input|, b) + FinalSum(c, g, m, b)
  {
    if m > 0 {
      FinalSumIsThreadSum(c, g, m - 1, b);
    }
  }

  lemma {:induction false} MergedFinal(c: Config, ths: seq<seq<Thread>>, k: nat, b: nat)
    requires Total(c) > 0 && k <= |ths| && b < c.size
    requires forall g | 0 <= g < |ths| :: |ths[g]| == c.size
    requires forall g, l | 0 <= g < |ths| && 0 <= l < c.size :: ths[g][l].stage == Done
    ensures Merged(c, ths, k, b) == ThreadSum(c.input, Total(c), Tid(c, k, 0), |c.input|, b)
  {
    if k > 0 {
      MergedFinal(c, ths, k - 1, b);
      FinalSumIsThreadSum(c, k - 1, c.size, b);
      assert Tid(c, k - 1, c.size) == Tid(c, k, 0);
      assert ths[k - 1][b].stage == Done;
    }
  }

  // ---------- the invariant ----------

  ghost predicate ThreadInv(c: Config, s: State, g: nat, l: nat)
    requires Shape(c, s) && Total(c) > 0 && g < c.groups && l < c.size
  {
    var th := s.threads[g][l];
    && (Started(th.stage) ==> th.i % Total(c) == Tid(c, g, l) && AllCleared(c, s, g))
    && (Counted(th.stage) ==> th.i >= |c.input|)
    && (th.stage == Merge || th.stage == Adding || th.stage == Done ==> AllCounted(c, s, g))
    && (th.stage == Merge || th.stage == Adding ==> l < BINS)
    && (th.stage == Adding && l < BINS ==> th.v == s.shared[g][l])
  }

  /** Once a bin of a group has been cleared it holds what the threads of the group have counted. */
  ghost predicate BinInv(c: Config, s: State, g: nat, b: nat)
    requires Shape(c, s) && Total(c) > 0 && g < c.groups && b < BINS && b < c.size
  {
    s.threads[g][b].stage != Begin ==> s.shared[g][b] == GroupSum(c, g, s.threads[g], c.size, b) % WORD
  }

  ghost predicate ResInv(c: Config, s: State, res0: seq<nat>, b: nat)
    requires Shape(c, s) && Total(c) > 0 && b < BINS && Words(res0)
  {
    s.res[b] == (res0[b] + Merged(c, s.threads, c.groups, b)) % WORD
  }

  ghost predicate Inv(c: Config, s: State, res0: seq<nat>) {
    && Shape(c, s) && Total(c) > 0 && Words(res0)
    && (forall g: nat, l: nat | g < c.groups && l < c.size :: ThreadInv(c, s, g, l))
    && (forall g: nat, b: nat | g < c.groups && b < BINS && b < c.size :: BinInv(c, s, g, b))
    && (forall b: nat | b < BINS :: ResInv(c, s, res0, b))
  }

  lemma PositiveTotal(c: Config)
    requires c.groups > 0 && c.size > 0
    ensures Total(c) > 0
  {
  }

  lemma InitInv(c: Config, s: State)
    requires Proper(c) && Init(c, s)
    ensures Inv(c, s, s.res)
  {
    PositiveTotal(c);
    forall b: nat | b < BINS
      ensures ResInv(c, s, s.res, b)
    {
      MergedStart(c, s.threads, c.groups, b);
      ModSmall(s.res[b], WORD);
    }
  }

  // ---------- the steps ----------

  /** A step changes one thread of one group, and at most the memory of that group. */
  ghost predicate Local(c: Config, s: State, s': State, g: nat, l: nat) {
    && Shape(c, s) && Shape(c, s') && g < c.groups && l < c.size
    && s'.threads == Put(s, g, l, s'.threads[g][l])
    && forall k | 0 <= k < c.groups && k != g :: s'.shared[k] == s.shared[k]
  }

  /** So the invariant is a matter of that group and of the result. */
  lemma KeepsIfGroupKeeps(c: Config, s: State, s': State, res0: seq<nat>, g: nat, l: nat)
    requires Inv(c, s, res0) && Local(c, s, s', g, l)
    requires forall k: nat | k < c.size :: ThreadInv(c, s', g, k)
    requires forall b: nat | b < BINS && b < c.size :: BinInv(c, s', g, b)
    requires forall b: nat | b < BINS :: ResInv(c, s', res0, b)
    ensures Inv(c, s', res0)
  {
    forall k: nat, m: nat | k < c.groups && m < c.size
      ensures ThreadInv(c, s', k, m)
    {
      assert ThreadInv(c, s, k, m);
    }
    forall k: nat, b: nat | k < c.groups && b < BINS && b < c.size
      ensures BinInv(c, s', k, b)
    {
      assert BinInv(c, s, k, b);
    }
  }

  /** The result is as it was when no thread finishes or the one that does has no bin. */
  lemma ResultUntouched(c: Config, s: State, s': State, res0: seq<nat>, g: nat, l: nat)
    requires Inv(c, s, res0) && Local(c, s, s', g, l) && s'.res == s.res
    requires s.threads[g][l].stage != Done && (s'.threads[g][l].stage == Done ==> l >= BINS)
    ensures forall b: nat | b < BINS :: ResInv(c, s', res0, b)
  {
    forall b: nat | b < BINS
      ensures ResInv(c, s', res0, b)
    {
      assert ResInv(c, s, res0, b);
      MergedUpdate(c, s.threads, c.groups, b, g, l, s'.threads[g][l]);
    }
  }

  lemma ClearKeeps(c: Config, s: State, s': State, res0: seq<nat>, g: nat, l: nat)
    requires Inv(c, s, res0) && Clear(c, s, s', g, l)
    ensures Inv(c, s', res0)
  {
    forall k: nat | k < c.size
      ensures ThreadInv(c, s', g, k)
    {
      assert ThreadInv(c, s, g, k);
    }
    forall b: nat | b < BINS && b < c.size
      ensures BinInv(c, s', g, b)
    {
      assert BinInv(c, s, g, b);
      forall m | 0 <= m < c.size
        ensures !Started(s'.threads[g][m].stage)
      {
        assert ThreadInv(c, s, g, m);
      }
      GroupSumIdle(c, g, s'.threads[g], c.size, b);
      GroupSumUpdate(c, g, s.threads[g], c.size, b, l, s'.threads[g][l]);
    }
    ResultUntouched(c, s, s', res0, g, l);
    KeepsIfGroupKeeps(c, s, s', res0, g, l);
  }

  lemma PassBarrier1Keeps(c: Config, s: State, s': State, res0: seq<nat>, g: nat, l: nat)
    requires Inv(c, s, res0) && PassBarrier1(c, s, s', g, l)
    ensures Inv(c, s', res0)
  {
    TidBelowTotal(c, g, l);
    forall k: nat | k < c.size
      ensures ThreadInv(c, s', g, k)
    {
      assert ThreadInv(c, s, g, k);
      assert ThreadInv(c, s, g, l);
    }
    forall b: nat | b < BINS && b < c.size
      ensures BinInv(c, s', g, b)
    {
      assert BinInv(c, s, g, b);
      NothingBefore(c.input, Total(c), Tid(c, g, l), Seen(Tid(c, g, l), |c.input|), b);
      GroupSumUpdate(c, g, s.threads[g], c.size, b, l, s'.threads[g][l]);
    }
    ResultUntouched(c, s, s', res0, g, l);
    KeepsIfGroupKeeps(c, s, s', res0, g, l);
  }

  lemma TidBelowTotal(c: Config, g: nat, l: nat)
    requires g < c.groups && l < c.size
    ensures Tid(c, g, l) < Total(c) && Tid(c, g, l) % Total(c) == Tid(c, g, l)
  {
    assert (g + 1) * c.size <= c.groups * c.size;
    ModSmall(Tid(c, g, l), Total(c));
  }

  lemma IncrementKeeps(c: Config, s: State, s': State, res0: seq<nat>, g: nat, l: nat)
    requires Inv(c, s, res0) && Increment(c, s, s', g, l)
    ensures Inv(c, s', res0)
  {
    var th := s.threads[g][l];
    assert ThreadInv(c, s, g, l);
    NextIndex(th.i, Total(c));
    forall k: nat | k < c.size
      ensures ThreadInv(c, s', g, k)
    {
      assert ThreadInv(c, s, g, k);
    }
    forall b: nat | b < BINS && b < c.size
      ensures BinInv(c, s', g, b)
    {
      assert BinInv(c, s, g, b);
      assert s.threads[g][b].stage != Begin;
      StrideTurn(c.input, Total(c), th.i, b);
      GroupSumUpdate(c, g, s.threads[g], c.size, b, l, s'.threads[g][l]);
      ModAdd(GroupSum(c, g, s.threads[g], c.size, b), One(c.input[th.i] == b), WORD);
      ModSmall(s.shared[g][b], WORD);
    }
    ResultUntouched(c, s, s', res0, g, l);
    KeepsIfGroupKeeps(c, s, s', res0, g, l);
  }

  lemma LeaveLoopKeeps(c: Config, s: State, s': State, res0: seq<nat>, g: nat, l: nat)
    requires Inv(c, s, res0) && LeaveLoop(c, s, s', g, l)
    ensures Inv(c, s', res0)
  {
    assert ThreadInv(c, s, g, l);
    forall k: nat | k < c.size
      ensures ThreadInv(c, s', g, k)
    {
      assert ThreadInv(c, s, g, k);
    }
    forall b: nat | b < BINS && b < c.size
      ensures BinInv(c, s', g, b)
    {
      assert BinInv(c, s, g, b);
      GroupSumUpdate(c, g, s.threads[g], c.size, b, l, s'.threads[g][l]);
    }
    ResultUntouched(c, s, s', res0, g, l);
    KeepsIfGroupKeeps(c, s, s', res0, g, l);
  }

  /** Behind the second barrier a step changes neither loop indices nor the memory of the group. */
  lemma LateStepKeeps(c: Config, s: State, s': State, res0: seq<nat>, g: nat, l: nat)
    requires Inv(c, s, res0) && Local(c, s, s', g, l) && s'.shared == s.shared
    requires AllCounted(c, s, g) && Counted(s'.threads[g][l].stage) && s'.threads[g][l].i == s.threads[g][l].i
    requires s'.threads[g][l].stage == Merge || s'.threads[g][l].stage == Adding ==> l < BINS
    requires s'.threads[g][l].stage == Adding && l < BINS ==> s'.threads[g][l].v == s.shared[g][l]
    requires forall b: nat | b < BINS :: ResInv(c, s', res0, b)
    ensures Inv(c, s', res0)
  {
    assert ThreadInv(c, s, g, l);
    assert Counted(s.threads[g][l].stage);
    forall k: nat | k < c.size
      ensures ThreadInv(c, s', g, k)
    {
      assert ThreadInv(c, s, g, k);
    }
    forall b: nat | b < BINS && b < c.size
      ensures BinInv(c, s', g, b)
    {
      assert BinInv(c, s, g, b);
      GroupSumUpdate(c, g, s.threads[g], c.size, b, l, s'.threads[g][l]);
    }
    KeepsIfGroupKeeps(c, s, s', res0, g, l);
  }

  lemma AddBinKeeps(c: Config, s: State, s': State, res0: seq<nat>, g: nat, l: nat)
    requires Inv(c, s, res0) && AddBin(c, s, s', g, l)
    ensures Inv(c, s', res0)
  {
    assert ThreadInv(c, s, g, l);
    assert BinInv(c, s, g, l);
    forall k | 0 <= k < c.size
      ensures Counted(s.threads[g][k].stage) && s.threads[g][k].i >= |c.input|
    {
      assert ThreadInv(c, s, g, k);
    }
    GroupSumFinal(c, g, s.threads[g], c.size, l);
    forall b: nat | b < BINS
      ensures ResInv(c, s', res0, b)
    {
      assert ResInv(c, s, res0, b);
      MergedUpdate(c, s.threads, c.groups, b, g, l, s'.threads[g][l]);
      ModAdd(FinalSum(c, g, c.size, l), s.res[l], WORD);
      ModAdd(res0[l] + Merged(c, s.threads, c.groups, l), FinalSum(c, g, c.size, l), WORD);
    }
    LateStepKeeps(c, s, s', res0, g, l);
  }

  lemma StepKeeps(c: Config, s: State, s': State, res0: seq<nat>, g: nat, l: nat)
    requires Inv(c, s, res0) && Step(c, s, s', g, l)
    ensures Inv(c, s', res0)
  {
    if Clear(c, s, s', g, l) {
      ClearKeeps(c, s, s', res0, g, l);
    } else if PassBarrier1(c, s, s', g, l) {
      PassBarrier1Keeps(c, s, s', res0, g, l);
    } else if Increment(c, s, s', g, l) {
      IncrementKeeps(c, s, s', res0, g, l);
    } else if LeaveLoop(c, s, s', g, l) {
      LeaveLoopKeeps(c, s, s', res0, g, l);
    } else if AddBin(c, s, s', g, l) {
      AddBinKeeps(c, s, s', res0, g, l);
    } else {
      assert ThreadInv(c, s, g, l);
      ResultUntouched(c, s, s', res0, g, l);
      LateStepKeeps(c, s, s', res0, g, l);
    }
  }

  // ---------- runs ----------

  lemma {:induction false} RunInv(c: Config, run: seq<State>)
    requires Run(c, run)
    ensures Inv(c, run[|run| - 1], run[0].res)
  {
    if |run| == 1 {
      InitInv(c, run[0]);
    } else {
      var n := |run| - 2;
      var front := run[..n + 1];
      assert Next(c, run[n], run[n + 1]);
      forall i | 0 <= i < n
        ensures Next(c, front[i], front[i + 1])
      {
        assert Next(c, run[i], run[i + 1]);
      }
      RunInv(c, front);
      var g: nat, l: nat :| Step(c, run[n], run[n + 1], g, l);
      StepKeeps(c, run[n], run[n + 1], run[0].res, g, l);
    }
  }

  lemma {:induction false} MergedMissesBin(c: Config, ths: seq<seq<Thread>>, k: nat, b: nat)
    requires Total(c) > 0 && k <= |ths| && forall g | 0 <= g < |ths| :: |ths[g]| <= b
    ensures Merged(c, ths, k, b) == 0
  {
    if k > 0 {
      MergedMissesBin(c, ths, k - 1, b);
    }
  }

  /** When every thread is done, each bin that some thread of a group stands for has gained exactly
      what one pass over the input counts, and each other bin nothing: with groups of at least as
      many threads as bins the kernel does what the processor does. */
  lemma KernelCounts(c: Config, run: seq<State>, b: nat)
    requires Run(c, run) && AllDone(c, run[|run| - 1]) && b < BINS
    ensures |run[0].res| == |run[|run| - 1].res| == BINS
    ensures run[|run| - 1].res[b] == if b < c.size then (run[0].res[b] + Count(c.input, |c.input|, b)) % WORD else run[0].res[b]
  {
    RunInv(c, run);
    var s := run[|run| - 1];
    assert ResInv(c, s, run[0].res, b);
    if b < c.size {
      MergedFinal(c, s.threads, c.groups, b);
      assert Tid(c, c.groups, 0) == Total(c);
      ThreadsShareTheWork(c.input, Total(c), |c.input|, b);
    } else {
      MergedMissesBin(c, s.threads, c.groups, b);
      ModSmall(run[0].res[b], WORD);
    }
  }

  /** So with at least as many threads in a group as bins, the kernel leaves what the processor does. */
  lemma KernelIsOnePass(c: Config, run: seq<State>)
    requires Run(c, run) && AllDone(c, run[|run| - 1]) && c.size >= BINS
    ensures Tallied(run[|run| - 1].res, run[0].res, c.input, |c.input|)
  {
    forall b: nat | b < BINS
      ensures |run[0].res| == |run[|run| - 1].res| == BINS
      ensures run[|run| - 1].res[b] == (run[0].res[b] + Count(c.input, |c.input|, b)) % WORD
    {
      KernelCounts(c, run, b);
    }
    RunInv(c, run);
  }

  ghost predicate NothingFor(c: Config, b: nat) {
    Count(c.input, |c.input|, b) % WORD == 0
  }

  /** With smaller groups it does so exactly when no input falls into the bins that no thread stands
      for, up to a multiple of the word. */
  lemma SmallGroupsNeedSmallInputs(c: Config, run: seq<State>)
    requires Run(c, run) && AllDone(c, run[|run| - 1])
    ensures Tallied(run[|run| - 1].res, run[0].res, c.input, |c.input|)
            <==> forall b: nat | c.size <= b < BINS :: NothingFor(c, b)
  {
    RunInv(c, run);
    var now, was, n := run[|run| - 1].res, run[0].res, |c.input|;
    forall b: nat | b < BINS
      ensures now[b] == (was[b] + Count(c.input, n, b)) % WORD <==> b < c.size || NothingFor(c, b)
    {
      KernelCounts(c, run, b);
      AddsNothing(was[b], Count(c.input, n, b));
    }
    if Tallied(now, was, c.input, n) {
      forall b: nat | c.size <= b < BINS
        ensures NothingFor(c, b)
      {
        assert now[b] == (was[b] + Count(c.input, n, b)) % WORD;
      }
    } else {
      var b: nat :| b < BINS && now[b] != (was[b] + Count(c.input, n, b)) % WORD;
      assert c.size <= b < BINS && !NothingFor(c, b);
    }
  }

  /** One group of one thread and the input 1: no finished run counts it. */
  lemma OneThreadMissesOne(run: seq<State>)
    requires Run(Config(1, 1, [1]), run) && AllDone(Config(1, 1, [1]), run[|run| - 1])
    ensures !Tallied(run[|run| - 1].res, run[0].res, [1], 1)
  {
    var c := Config(1, 1, [1]);
    SmallGroupsNeedSmallInputs(c, run);
    assert Count(c.input, 1, 1) == 1;
    assert !NothingFor(c, 1);
  }

  lemma AddsNothing(x: nat, n: nat)
    requires x < WORD
    ensures (x + n) % WORD == x <==> n % WORD == 0
  {
    DivMod(n, WORD);
    ModShift(x + n % WORD, WORD, n / WORD);
    if x + n % WORD < WORD {
      ModSmall(x + n % WORD, WORD);
    } else {
      ModIs(x + n % WORD, WORD, 1, x + n % WORD - WORD);
    }
  }
}
