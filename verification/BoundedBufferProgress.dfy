/** Every run of a balanced buffer can be completed: whatever has happened so far, there is a way for all
    workers to finish. */
module BoundedBufferProgress {
  import opened BoundedBuffer
  import opened BoundedBufferTheorems
  import opened BoundedBufferItems

  lemma {:induction false} RolesKept<T>(ws: seq<Worker<T>>, ws': seq<Worker<T>>, role: Role)
    requires AllKeep(ws, ws')
    ensures RoleCount(ws', role) == RoleCount(ws, role)
  {
    if ws != [] {
      var n := |ws| - 1;
      assert Keeps(ws[n], ws'[n]);
      forall t | 0 <= t < n
        ensures Keeps(ws[..n][t], ws'[..n][t])
      {
        assert Keeps(ws[t], ws'[t]);
      }
      RolesKept(ws[..n], ws'[..n], role);
    }
  }

  ghost predicate Balanced<T>(ws: seq<Worker<T>>) {
    RoleCount(ws, Remover) <= RoleCount(ws, Adder) <= RoleCount(ws, Remover) + 128
  }

  /** A run goes on with any step of the program and with any spurious wakeup. */
  lemma OneMore<T>(run: seq<State<T>>, s: State<T>, s': State<T>)
    requires Run(run) && s == run[|run| - 1]
    requires ProgramStep(s, s') || exists t: nat :: Spurious(s, s', t)
    ensures Run(run + [s'])
  {
    var more := run + [s'];
    forall i | 0 <= i < |more| - 1
      ensures Next(more[i], more[i + 1])
    {
      if i < |run| - 1 {
        assert Next(run[i], run[i + 1]);
      }
    }
  }

  /** With as many adders as removers, up to the room of the buffer, every run has a continuation in
      which everybody finishes. */
  lemma {:induction false} CanFinish<T(!new)>(run: seq<State<T>>) returns (longer: seq<State<T>>)
    requires Run(run) && Balanced(run[0].workers)
    ensures Run(longer) && run <= longer && AllDone(longer[|longer| - 1])
    decreases Measure(run[|run| - 1])
  {
    var s := run[|run| - 1];
    if Stuck(s) {
      RecordedBetween(run, 0, |run| - 1);
      RolesKept(run[0].workers, s.workers, Adder);
      RolesKept(run[0].workers, s.workers, Remover);
      StuckIsDone(run);
      longer := run;
    } else {
      var s' :| ProgramStep(s, s');
      ProgramStepDecreases(s, s');
      OneMore(run, s, s');
      longer := CanFinish(run + [s']);
    }
  }

  /** So any balanced set of workers can be run to its end. */
  lemma RunsExist<T(!new)>(ws: seq<Worker<T>>) returns (run: seq<State<T>>)
    requires Balanced(ws) && forall t | 0 <= t < |ws| :: ws[t].stage == Starting
    ensures Run(run) && run[0].workers == ws && AllDone(run[|run| - 1])
  {
    var s := State([], -1, ws, [], []);
    assert Run([s]);
    run := CanFinish([s]);
    assert run[0] == [s][0];
  }
}
