/** The kernel neither deadlocks at its barriers nor runs for ever, so every interleaving that goes
    on as long as it can ends with the histogram. */
module HistogramProgress {
  import opened StrideCounts
  import opened Histogram
  import opened HistogramProof

  // ---------- no deadlock ----------

  ghost predicate CanStep(c: Config, s: State) {
    exists s' :: Next(c, s, s')
  }

  /** A thread that is in no barrier can go on by itself. */
  lemma MovesAlone(c: Config, s: State, res0: seq<nat>, g: nat, l: nat)
    requires Inv(c, s, res0) && Proper(c) && g < c.groups && l < c.size
    requires var stage := s.threads[g][l].stage; stage != Barrier1 && stage != Barrier2 && stage != Done
    ensures CanStep(c, s)
  {
    assert ThreadInv(c, s, g, l);
    var th := s.threads[g][l];
    if th.stage == Begin {
      var s' := s.(threads := Put(s, g, l, th.(stage := Barrier1)), shared := if l < BINS then PutBin(s, g, l, 0) else s.shared);
      assert Clear(c, s, s', g, l);
      assert Step(c, s, s', g, l);
      assert Next(c, s, s');
    } else if th.stage == Loop && th.i < |c.input| {
      var b := c.input[th.i];
      var s' := s.(threads := Put(s, g, l, th.(i := th.i + Total(c))), shared := PutBin(s, g, b, (s.shared[g][b] + 1) % WORD));
      assert Increment(c, s, s', g, l);
      assert Step(c, s, s', g, l);
      assert Next(c, s, s');
    } else if th.stage == Loop {
      var s' := s.(threads := Put(s, g, l, th.(stage := Barrier2)));
      assert LeaveLoop(c, s, s', g, l);
      assert Step(c, s, s', g, l);
      assert Next(c, s, s');
    } else if th.stage == Merge {
      var s' := s.(threads := Put(s, g, l, th.(stage := Adding, v := s.shared[g][l])));
      assert Fetch(c, s, s', g, l);
      assert Step(c, s, s', g, l);
      assert Next(c, s, s');
    } else {
      var s' := s.(threads := Put(s, g, l, th.(stage := Done)), res := s.res[l := (s.res[l] + th.v) % WORD]);
      assert AddBin(c, s, s', g, l);
      assert Step(c, s, s', g, l);
      assert Next(c, s, s');
    }
  }

  lemma PassesFirst(c: Config, s: State, res0: seq<nat>, g: nat, l: nat)
    requires Inv(c, s, res0) && Proper(c) && g < c.groups && l < c.size && s.threads[g][l].stage == Barrier1
    ensures CanStep(c, s)
  {
    if AllCleared(c, s, g) {
      var s' := s.(threads := Put(s, g, l, s.threads[g][l].(stage := Loop, i := Tid(c, g, l))));
      assert PassBarrier1(c, s, s', g, l);
      assert Step(c, s, s', g, l);
      assert Next(c, s, s');
    } else {
      var m: nat :| m < c.size && s.threads[g][m].stage == Begin;
      MovesAlone(c, s, res0, g, m);
    }
  }

  /** The barriers never hold up a whole group: unless all threads are done some thread can step. */
  lemma NeverStuck(c: Config, run: seq<State>)
    requires Run(c, run)
    ensures AllDone(c, run[|run| - 1]) || CanStep(c, run[|run| - 1])
  {
    RunInv(c, run);
    var s, res0 := run[|run| - 1], run[0].res;
    if !AllDone(c, s) {
      var g: nat, l: nat :| g < c.groups && l < c.size && s.threads[g][l].stage != Done;
      if s.threads[g][l].stage == Barrier1 {
        PassesFirst(c, s, res0, g, l);
      } else if s.threads[g][l].stage != Barrier2 {
        MovesAlone(c, s, res0, g, l);
      } else if AllCounted(c, s, g) {
        var s' := s.(threads := Put(s, g, l, s.threads[g][l].(stage := if l < BINS then Merge else Done)));
        assert PassBarrier2(c, s, s', g, l);
        assert Step(c, s, s', g, l);
        assert Next(c, s, s');
      } else {
        var m: nat :| m < c.size && !Counted(s.threads[g][m].stage);
        if s.threads[g][m].stage == Barrier1 {
          PassesFirst(c, s, res0, g, m);
        } else {
          MovesAlone(c, s, res0, g, m);
        }
      }
    }
  }

  // ---------- termination ----------

  /** How many steps a thread can still make, at most. */
  function Left(n: nat, th: Thread): nat {
    match th.stage
    case Begin => n + 7
    case Barrier1 => n + 6
    case Loop => n - Seen(th.i, n) + 5
    case Barrier2 => 4
    case Merge => 3
    case Adding => 2
    case Done => 0
  }

  ghost function RowLeft(n: nat, ths: seq<Thread>): nat {
    if ths == [] then 0 else RowLeft(n, ths[..|ths| - 1]) + Left(n, ths[|ths| - 1])
  }

  ghost function AllLeft(n: nat, rows: seq<seq<Thread>>): nat {
    if rows == [] then 0 else AllLeft(n, rows[..|rows| - 1]) + RowLeft(n, rows[|rows| - 1])
  }

  lemma {:induction false} RowUpdate(n: nat, ths: seq<Thread>, l: nat, th: Thread)
    requires l < |ths|
    ensures RowLeft(n, ths[l := th]) == RowLeft(n, ths) - Left(n, ths[l]) + Left(n, th)
  {
    var k := |ths| - 1;
    if l < k {
      RowUpdate(n, ths[..k], l, th);
      assert ths[l := th][..k] == ths[..k][l := th];
    } else {
      assert ths[l := th][..k] == ths[..k];
    }
  }

  lemma {:induction false} AllUpdate(n: nat, rows: seq<seq<Thread>>, g: nat, row: seq<Thread>)
    requires g < |rows|
    ensures AllLeft(n, rows[g := row]) == AllLeft(n, rows) - RowLeft(n, rows[g]) + RowLeft(n, row)
  {
    var k := |rows| - 1;
    if g < k {
      AllUpdate(n, rows[..k], g, row);
      assert rows[g := row][..k] == rows[..k][g := row];
    } else {
      assert rows[g := row][..k] == rows[..k];
    }
  }

  lemma StepUsesUp(c: Config, s: State, s': State, g: nat, l: nat)
    requires Step(c, s, s', g, l) && Total(c) > 0
    ensures AllLeft(|c.input|, s'.threads) < AllLeft(|c.input|, s.threads)
  {
    var n := |c.input|;
    RowUpdate(n, s.threads[g], l, s'.threads[g][l]);
    AllUpdate(n, s.threads, g, s'.threads[g]);
    assert s'.threads == s.threads[g := s'.threads[g]];
    assert s'.threads[g] == s.threads[g][l := s'.threads[g][l]];
  }

  lemma {:induction false} RunUsesUp(c: Config, run: seq<State>)
    requires Run(c, run)
    ensures |run| - 1 + AllLeft(|c.input|, run[|run| - 1].threads) <= AllLeft(|c.input|, run[0].threads)
  {
    if |run| > 1 {
      var n := |run| - 2;
      var front := run[..n + 1];
      assert Next(c, run[n], run[n + 1]);
      forall i | 0 <= i < n
        ensures Next(c, front[i], front[i + 1])
      {
        assert Next(c, run[i], run[i + 1]);
      }
      RunUsesUp(c, front);
      PositiveTotal(c);
      var g: nat, l: nat :| Step(c, run[n], run[n + 1], g, l);
      StepUsesUp(c, run[n], run[n + 1], g, l);
    }
  }

  lemma {:induction false} RowStart(n: nat, ths: seq<Thread>)
    requires forall l | 0 <= l < |ths| :: ths[l].stage == Begin
    ensures RowLeft(n, ths) == |ths| * (n + 7)
  {
    if ths != [] {
      RowStart(n, ths[..|ths| - 1]);
    }
  }

  lemma {:induction false} AllStart(n: nat, rows: seq<seq<Thread>>, size: nat)
    requires forall g | 0 <= g < |rows| :: |rows[g]| == size
    requires forall g, l | 0 <= g < |rows| && 0 <= l < size :: rows[g][l].stage == Begin
    ensures AllLeft(n, rows) == |rows| * (size * (n + 7))
  {
    if rows != [] {
      var k := |rows| - 1;
      AllStart(n, rows[..k], size);
      RowStart(n, rows[k]);
      assert (k + 1) * (size * (n + 7)) == k * (size * (n + 7)) + size * (n + 7);
    }
  }

  /** No run is longer than seven steps a thread and one more for each thread and input. */
  lemma RunsAreBounded(c: Config, run: seq<State>)
    requires Run(c, run)
    ensures |run| - 1 <= c.groups * (c.size * (|c.input| + 7))
  {
    RunUsesUp(c, run);
    AllStart(|c.input|, run[0].threads, c.size);
  }

  // ---------- finished runs exist ----------

  lemma OneMore(c: Config, run: seq<State>, s': State)
    requires Run(c, run) && Next(c, run[|run| - 1], s')
    ensures Run(c, run + [s'])
  {
    var more := run + [s'];
    forall i | 0 <= i < |more| - 1
      ensures Next(c, more[i], more[i + 1])
    {
      if i < |run| - 1 {
        assert Next(c, run[i], run[i + 1]);
      }
    }
  }

  /** Every run has a continuation in which all threads finish. */
  lemma {:induction false} CanFinish(c: Config, run: seq<State>) returns (longer: seq<State>)
    requires Run(c, run)
    ensures Run(c, longer) && run <= longer && AllDone(c, longer[|longer| - 1])
    decreases AllLeft(|c.input|, run[|run| - 1].threads)
  {
    var s := run[|run| - 1];
    NeverStuck(c, run);
    if AllDone(c, s) {
      longer := run;
    } else {
      var s' :| Next(c, s, s');
      var g: nat, l: nat :| Step(c, s, s', g, l);
      PositiveTotal(c);
      StepUsesUp(c, s, s', g, l);
      OneMore(c, run, s');
      longer := CanFinish(c, run + [s']);
    }
  }

  /** The kernel can be run to its end for any groups, any input and any contents of the bins. */
  lemma RunsExist(c: Config, res: seq<nat>, memory: seq<nat>) returns (run: seq<State>)
    requires c.groups > 0 && c.size > 0 && (forall x | 0 <= x < |c.input| :: c.input[x] < 256)
    requires Words(res) && Words(memory)
    ensures Run(c, run) && run[0].res == res && AllDone(c, run[|run| - 1])
  {
    var s := State(seq(c.groups, g => seq(c.size, l => Thread(Begin, 0, 0))), seq(c.groups, g => memory), res);
    assert Run(c, [s]);
    run := CanFinish(c, [s]);
    assert run[0] == [s][0];
  }

  /** So for one group of one thread and the input 1 there is a run that ends with another result than
      one pass. */
  lemma OneThreadRunMissesOne(res: seq<nat>) returns (run: seq<State>)
    requires Words(res)
    ensures Run(Config(1, 1, [1]), run) && run[0].res == res && AllDone(Config(1, 1, [1]), run[|run| - 1])
    ensures !Tallied(run[|run| - 1].res, res, [1], 1)
  {
    run := RunsExist(Config(1, 1, [1]), res, res);
    OneThreadMissesOne(run);
  }
}
