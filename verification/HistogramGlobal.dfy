/** The kernel that counts directly in the result with atomic increments. */
module HistogramGlobal {
  import opened Remainders
  import opened StrideCounts
  import opened Histogram

  /** The loop index of each thread, by thread number, and the result. */
  datatype GlobalState = GlobalState(cursors: seq<nat>, res: seq<nat>)

  ghost predicate GlobalInit(c: Config, s: GlobalState) {
    Words(s.res) && |s.cursors| == Total(c) && forall t | 0 <= t < Total(c) :: s.cursors[t] == t
  }

  ghost predicate Bump(c: Config, s: GlobalState, s': GlobalState, t: nat) {
    && Words(s.res) && t < |s.cursors| && s.cursors[t] < |c.input| && c.input[s.cursors[t]] < BINS
    && var b := c.input[s.cursors[t]];
       s' == GlobalState(s.cursors[t := s.cursors[t] + Total(c)], s.res[b := (s.res[b] + 1) % WORD])
  }

  ghost predicate GlobalNext(c: Config, s: GlobalState, s': GlobalState) {
    exists t: nat :: Bump(c, s, s', t)
  }

  ghost predicate GlobalRun(c: Config, run: seq<GlobalState>) {
    |run| > 0 && Proper(c) && GlobalInit(c, run[0]) && forall i | 0 <= i < |run| - 1 :: GlobalNext(c, run[i], run[i + 1])
  }

  ghost predicate GlobalDone(c: Config, s: GlobalState) {
    forall t | 0 <= t < |s.cursors| :: s.cursors[t] >= |c.input|
  }

  /** What the first m threads have put into bin b. */
  ghost function SeenSum(c: Config, cursors: seq<nat>, m: nat, b: nat): nat
    requires Total(c) > 0 && m <= |cursors|
  {
    if m == 0 then 0
    else SeenSum(c, cursors, m - 1, b) + CountStride(c.input, Total(c), m - 1, Seen(cursors[m - 1], |c.input|), b)
  }

  lemma {:induction false} SeenSumUpdate(c: Config, cursors: seq<nat>, m: nat, b: nat, t: nat)
    requires Total(c) > 0 && m <= |cursors| && t < |cursors| && cursors[t] < |c.input| && cursors[t] % Total(c) == t
    ensures SeenSum(c, cursors[t := cursors[t] + Total(c)], m, b) ==
            SeenSum(c, cursors, m, b) + One(t < m && c.input[cursors[t]] == b)
  {
    if m > 0 {
      SeenSumUpdate(c, cursors, m - 1, b, t);
      StrideTurn(c.input, Total(c), cursors[t], b);
    }
  }

  lemma {:induction false} SeenSumStart(c: Config, cursors: seq<nat>, m: nat, b: nat)
    requires Total(c) > 0 && m <= |cursors| == Total(c) && forall t | 0 <= t < |cursors| :: cursors[t] == t
    ensures SeenSum(c, cursors, m, b) == 0
  {
    if m > 0 {
      SeenSumStart(c, cursors, m - 1, b);
      NothingBefore(c.input, Total(c), m - 1, Seen(m - 1, |c.input|), b);
    }
  }

  lemma {:induction false} SeenSumEnd(c: Config, cursors: seq<nat>, m: nat, b: nat)
    requires Total(c) > 0 && m <= |cursors| && forall t | 0 <= t < |cursors| :: cursors[t] >= |c.input|
    ensures SeenSum(c, cursors, m, b) == ThreadSum(c.input, Total(c), m, |c.input|, b)
  {
    if m > 0 {
      SeenSumEnd(c, cursors, m - 1, b);
    }
  }

  ghost predicate GlobalInv(c: Config, s: GlobalState, res0: seq<nat>) {
    && Total(c) > 0 && Words(s.res) && Words(res0) && |s.cursors| == Total(c)
    && (forall t | 0 <= t < |s.cursors| :: s.cursors[t] % Total(c) == t)
    && (forall b: nat | b < BINS :: s.res[b] == (res0[b] + SeenSum(c, s.cursors, |s.cursors|, b)) % WORD)
  }

  lemma GlobalStart(c: Config, s: GlobalState)
    requires Total(c) > 0 && GlobalInit(c, s)
    ensures GlobalInv(c, s, s.res)
  {
    forall t | 0 <= t < |s.cursors|
      ensures s.cursors[t] % Total(c) == t
    {
      ModSmall(t, Total(c));
    }
    forall b: nat | b < BINS
      ensures s.res[b] == (s.res[b] + SeenSum(c, s.cursors, |s.cursors|, b)) % WORD
    {
      SeenSumStart(c, s.cursors, |s.cursors|, b);
      ModSmall(s.res[b], WORD);
    }
  }

  lemma BumpKeeps(c: Config, s: GlobalState, s': GlobalState, res0: seq<nat>, t: nat)
    requires GlobalInv(c, s, res0) && Bump(c, s, s', t)
    ensures GlobalInv(c, s', res0)
  {
    NextIndex(s.cursors[t], Total(c));
    forall b: nat | b < BINS
      ensures s'.res[b] == (res0[b] + SeenSum(c, s'.cursors, |s'.cursors|, b)) % WORD
    {
      SeenSumUpdate(c, s.cursors, |s.cursors|, b, t);
      ModAdd(res0[b] + SeenSum(c, s.cursors, |s.cursors|, b), One(c.input[s.cursors[t]] == b), WORD);
      ModSmall(s.res[b], WORD);
    }
  }

  lemma {:induction false} GlobalRunInv(c: Config, run: seq<GlobalState>)
    requires GlobalRun(c, run)
    ensures GlobalInv(c, run[|run| - 1], run[0].res)
  {
    if |run| == 1 {
      assert Total(c) > 0 by { assert c.groups * c.size > 0; }
      GlobalStart(c, run[0]);
    } else {
      var n := |run| - 2;
      var front := run[..n + 1];
      assert GlobalNext(c, run[n], run[n + 1]);
      forall i | 0 <= i < n
        ensures GlobalNext(c, front[i], front[i + 1])
      {
        assert GlobalNext(c, run[i], run[i + 1]);
      }
      GlobalRunInv(c, front);
      var t: nat :| Bump(c, run[n], run[n + 1], t);
      BumpKeeps(c, run[n], run[n + 1], run[0].res, t);
    }
  }

  /** Whatever the interleaving, when all threads have left the loop the result is that of one pass. */
  lemma GlobalKernelIsOnePass(c: Config, run: seq<GlobalState>)
    requires GlobalRun(c, run) && GlobalDone(c, run[|run| - 1])
    ensures Tallied(run[|run| - 1].res, run[0].res, c.input, |c.input|)
  {
    GlobalRunInv(c, run);
    var s := run[|run| - 1];
    forall b: nat | b < BINS
      ensures s.res[b] == (run[0].res[b] + Count(c.input, |c.input|, b)) % WORD
    {
      SeenSumEnd(c, s.cursors, |s.cursors|, b);
      ThreadsShareTheWork(c.input, Total(c), |c.input|, b);
    }
  }

  // ---------- finished runs exist ----------

  /** How many turns the first m threads can still make, at most. */
  ghost function TurnsLeft(c: Config, cursors: seq<nat>, m: nat): nat
    requires m <= |cursors|
  {
    if m == 0 then 0 else TurnsLeft(c, cursors, m - 1) + |c.input| - Seen(cursors[m - 1], |c.input|)
  }

  lemma {:induction false} TurnUsesUp(c: Config, cursors: seq<nat>, m: nat, t: nat)
    requires Total(c) > 0 && m <= |cursors| && t < |cursors| && cursors[t] < |c.input|
    ensures var next := TurnsLeft(c, cursors[t := cursors[t] + Total(c)], m);
      if t < m then next < TurnsLeft(c, cursors, m) else next == TurnsLeft(c, cursors, m)
  {
    if m > 0 {
      TurnUsesUp(c, cursors, m - 1, t);
    }
  }

  lemma OneMoreGlobal(c: Config, run: seq<GlobalState>, s': GlobalState)
    requires GlobalRun(c, run) && GlobalNext(c, run[|run| - 1], s')
    ensures GlobalRun(c, run + [s'])
  {
    var more := run + [s'];
    forall i | 0 <= i < |more| - 1
      ensures GlobalNext(c, more[i], more[i + 1])
    {
      if i < |run| - 1 {
        assert GlobalNext(c, run[i], run[i + 1]);
      }
    }
  }

  /** A thread that has not left the loop can make a turn, so every run has a continuation in which all
      threads leave it. */
  lemma {:induction false} GlobalCanFinish(c: Config, run: seq<GlobalState>) returns (longer: seq<GlobalState>)
    requires GlobalRun(c, run)
    ensures GlobalRun(c, longer) && run <= longer && GlobalDone(c, longer[|longer| - 1])
    decreases TurnsLeft(c, run[|run| - 1].cursors, |run[|run| - 1].cursors|)
  {
    var s := run[|run| - 1];
    GlobalRunInv(c, run);
    if GlobalDone(c, s) {
      longer := run;
    } else {
      var t: nat :| t < |s.cursors| && s.cursors[t] < |c.input|;
      var b := c.input[s.cursors[t]];
      var s' := GlobalState(s.cursors[t := s.cursors[t] + Total(c)], s.res[b := (s.res[b] + 1) % WORD]);
      assert Bump(c, s, s', t);
      TurnUsesUp(c, s.cursors, |s.cursors|, t);
      OneMoreGlobal(c, run, s');
      longer := GlobalCanFinish(c, run + [s']);
    }
  }

  lemma GlobalRunsExist(c: Config, res: seq<nat>) returns (run: seq<GlobalState>)
    requires c.groups > 0 && c.size > 0 && (forall x | 0 <= x < |c.input| :: c.input[x] < 256) && Words(res)
    ensures GlobalRun(c, run) && run[0].res == res && GlobalDone(c, run[|run| - 1])
  {
    var s := GlobalState(seq(c.groups * c.size, t => t), res);
    assert GlobalRun(c, [s]);
    run := GlobalCanFinish(c, [s]);
    assert run[0] == [s][0];
  }
}
