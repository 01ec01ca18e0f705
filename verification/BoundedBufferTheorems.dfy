/** What every run of the buffer guarantees: first in first out within the bound, no lost wakeup,
    no deadlock with balanced workers, and termination without spurious wakeups. */
module BoundedBufferTheorems {
  import opened BoundedBuffer

  lemma {:induction false} RunInv<T>(run: seq<State<T>>)
    requires Run(run)
    ensures Inv(run[|run| - 1])
  {
    if |run| == 1 {
      InitInv(run[0]);
    } else {
      var n := |run| - 2;
      assert Next(run[n], run[n + 1]);
      var front := run[..n + 1];
      forall i | 0 <= i < n
        ensures Next(front[i], front[i + 1])
      {
        assert Next(run[i], run[i + 1]);
      }
      RunInv(front);
      NextInv(run[n], run[n + 1]);
    }
  }

  /** The removed values followed by the buffer are the added values in order, and the buffer never
      holds more than its bound. */
  lemma FirstInFirstOut<T>(run: seq<State<T>>)
    requires Run(run)
    ensures var s := run[|run| - 1]; s.removed + s.buffer == s.added && |s.buffer| <= 128
  {
    RunInv(run);
  }

  /** No lost wakeup: unless a notification is on its way, a sleeping remover means an empty buffer
      and a sleeping adder a full one. */
  lemma SleepersHaveReason<T>(run: seq<State<T>>, t: nat)
    requires Run(run)
    requires var s := run[|run| - 1]; t < |s.workers| && s.workers[t].stage.Asleep? && !Pending(s)
    ensures var s := run[|run| - 1];
      if s.workers[t].role.Adder? then |s.buffer| == 128 else s.buffer == []
  {
    RunInv(run);
  }

  // ---------- deadlock ----------

  ghost predicate Stuck<T(!new)>(s: State<T>) {
    forall s' :: !ProgramStep(s, s')
  }

  ghost predicate AllDone<T>(s: State<T>) {
    forall t | 0 <= t < |s.workers| :: s.workers[t].stage.Done?
  }

  /** When nothing can move, nobody holds the mutex and everybody is finished or asleep. */
  lemma StuckShape<T(!new)>(s: State<T>, t: nat)
    requires Inv(s) && Stuck(s) && t < |s.workers|
    ensures s.workers[t].stage.Done? || s.workers[t].stage.Asleep?
    ensures s.owner == -1
  {
    if s.owner >= 0 {
      OwnerMoves(s, s.owner);
      assert false;
    }
    if s.workers[t].stage.Starting? || s.workers[t].stage.Woken? {
      var s' := s.(owner := t, workers := Moved(s, t, Inside));
      assert Acquire(s, s', t);
      assert ProgramStep(s, s');
    }
  }

  lemma OwnerMoves<T(!new)>(s: State<T>, t: nat)
    requires Inv(s) && t < |s.workers| && s.owner == t
    ensures !Stuck(s)
  {
    var w := s.workers[t];
    if w.stage.Changed? {
      var s' := s.(workers := WakeAll(Moved(s, t, Notified)));
      assert NotifyAll(s, s', t);
      assert ProgramStep(s, s');
    } else if w.stage.Notified? {
      var s' := s.(owner := -1, workers := Moved(s, t, Done));
      assert Release(s, s', t);
      assert ProgramStep(s, s');
    } else if !CanGo(s, t) {
      var s' := s.(owner := -1, workers := Moved(s, t, Asleep));
      assert Sleep(s, s', t);
      assert ProgramStep(s, s');
    } else if w.role.Adder? {
      var s' := s.(buffer := s.buffer + [w.item], added := s.added + [w.item], workers := Moved(s, t, Changed));
      assert Put(s, s', t);
      assert ProgramStep(s, s');
    } else {
      var s' := s.(buffer := s.buffer[1..], removed := s.removed + [s.buffer[0]],
                   workers := s.workers[t := Worker(Remover, s.buffer[0], Changed)]);
      assert Take(s, s', t);
      assert ProgramStep(s, s');
    }
  }

  /** In a stuck state a role with unfinished workers has a sleeper. */
  lemma UnfinishedSleeps<T(!new)>(s: State<T>, role: Role)
    requires Inv(s) && Stuck(s)
    ensures PastCount(s.workers, role) < RoleCount(s.workers, role) ==>
            if role.Adder? then |s.buffer| == SIZE else s.buffer == []
  {
    PastAtMostAll(s.workers, role);
    if PastCount(s.workers, role) < RoleCount(s.workers, role) {
      var t :| 0 <= t < |s.workers| && s.workers[t].role == role && !Past(s.workers[t].stage);
      StuckShape(s, t);
      assert !CanGo(s, t);
    }
  }

  /** A run that cannot go on has finished every worker exactly when there are as many adders as
      removers, up to the room the buffer has for extra items. */
  lemma StuckIsDone<T(!new)>(run: seq<State<T>>)
    requires Run(run) && Stuck(run[|run| - 1])
    ensures var s := run[|run| - 1];
      AllDone(s) <==> RoleCount(s.workers, Remover) <= RoleCount(s.workers, Adder) <= RoleCount(s.workers, Remover) + 128
  {
    RunInv(run);
    var s := run[|run| - 1];
    UnfinishedSleeps(s, Adder);
    UnfinishedSleeps(s, Remover);
    PastAtMostAll(s.workers, Adder);
    PastAtMostAll(s.workers, Remover);
    assert |s.added| == |s.removed| + |s.buffer|;
    if PastCount(s.workers, Adder) == RoleCount(s.workers, Adder) && PastCount(s.workers, Remover) == RoleCount(s.workers, Remover) {
      forall t | 0 <= t < |s.workers|
        ensures s.workers[t].stage.Done?
      {
        StuckShape(s, t);
        assert s.workers[t].role == Adder || s.workers[t].role == Remover;
      }
    }
  }

  // ---------- termination ----------

  function Weight(stage: Stage): nat {
    match stage
    case Starting => 5
    case Woken => 5
    case Inside => 4
    case Asleep => 3
    case Changed => 3
    case Notified => 1
    case Done => 0
  }

  ghost function TotalWeight<T>(ws: seq<Worker<T>>): nat {
    if ws == [] then 0 else TotalWeight(ws[..|ws| - 1]) + Weight(ws[|ws| - 1].stage)
  }

  function Silent(stage: Stage): nat {
    if stage.Notified? || stage.Done? then 0 else 1
  }

  /** Workers that have not notified yet. */
  ghost function SilentCount<T>(ws: seq<Worker<T>>): nat {
    if ws == [] then 0 else SilentCount(ws[..|ws| - 1]) + Silent(ws[|ws| - 1].stage)
  }

  lemma {:induction false} WeightUpdate<T>(ws: seq<Worker<T>>, t: nat, w: Worker<T>)
    requires t < |ws|
    ensures TotalWeight(ws[t := w]) == TotalWeight(ws) - Weight(ws[t].stage) + Weight(w.stage)
    ensures SilentCount(ws[t := w]) == SilentCount(ws) - Silent(ws[t].stage) + Silent(w.stage)
  {
    var n := |ws| - 1;
    if t < n {
      WeightUpdate(ws[..n], t, w);
      assert ws[t := w][..n] == ws[..n][t := w];
    } else {
      assert ws[t := w][..n] == ws[..n];
    }
  }

  lemma {:induction false} WeightWake<T>(ws: seq<Worker<T>>)
    ensures TotalWeight(WakeAll(ws)) <= TotalWeight(ws) + 2 * |ws|
    ensures SilentCount(WakeAll(ws)) == SilentCount(ws)
  {
    if ws != [] {
      WeightWake(ws[..|ws| - 1]);
      assert WakeAll(ws)[..|ws| - 1] == WakeAll(ws[..|ws| - 1]);
    }
  }

  /** Every notification is paid for by the worker that will never notify again. */
  ghost function Measure<T>(s: State<T>): nat {
    Repeated(SilentCount(s.workers), 2 * |s.workers| + 1) + TotalWeight(s.workers)
  }

  ghost function Repeated(c: nat, k: nat): nat {
    c * k
  }

  lemma OneFewer(c: nat, k: nat)
    requires c > 0
    ensures Repeated(c - 1, k) + k == Repeated(c, k)
  {
  }

  lemma LocalDecreases<T>(s: State<T>, s': State<T>, t: nat)
    requires t < |s.workers| == |s'.workers| && s'.workers == s.workers[t := s'.workers[t]]
    requires Silent(s'.workers[t].stage) == Silent(s.workers[t].stage)
    requires Weight(s'.workers[t].stage) < Weight(s.workers[t].stage)
    ensures Measure(s') < Measure(s)
  {
    WeightUpdate(s.workers, t, s'.workers[t]);
  }

  lemma NotifyDecreases<T>(s: State<T>, s': State<T>, t: nat)
    requires NotifyAll(s, s', t)
    ensures Measure(s') < Measure(s)
  {
    var ws := Moved(s, t, Notified);
    WeightUpdate(s.workers, t, ws[t]);
    WeightWake(ws);
    OneFewer(SilentCount(s.workers), 2 * |s.workers| + 1);
  }

  /** Every step of the program but a spurious wakeup makes the measure smaller. */
  lemma ProgramStepDecreases<T>(s: State<T>, s': State<T>)
    requires ProgramStep(s, s')
    ensures Measure(s') < Measure(s) && |s'.workers| == |s.workers|
  {
    var t: nat :| Acquire(s, s', t) || Sleep(s, s', t) || Put(s, s', t) || Take(s, s', t) || NotifyAll(s, s', t) || Release(s, s', t);
    if NotifyAll(s, s', t) {
      NotifyDecreases(s, s', t);
    } else {
      LocalDecreases(s, s', t);
    }
  }

  /** So a run without spurious wakeups has at most so many steps. */
  lemma {:induction false} RunsEnd<T>(run: seq<State<T>>)
    requires |run| > 0 && forall i | 0 <= i < |run| - 1 :: ProgramStep(run[i], run[i + 1])
    ensures |run| - 1 + Measure(run[|run| - 1]) <= Measure(run[0])
  {
    if |run| > 1 {
      var n := |run| - 2;
      assert ProgramStep(run[n], run[n + 1]);
      var front := run[..n + 1];
      forall i | 0 <= i < n
        ensures ProgramStep(front[i], front[i + 1])
      {
        assert ProgramStep(run[i], run[i + 1]);
      }
      RunsEnd(front);
      ProgramStepDecreases(run[n], run[n + 1]);
    }
  }

  lemma {:induction false} StartMeasure<T>(ws: seq<Worker<T>>)
    requires forall t | 0 <= t < |ws| :: ws[t].stage.Starting?
    ensures TotalWeight(ws) == 5 * |ws| && SilentCount(ws) == |ws|
  {
    if ws != [] {
      StartMeasure(ws[..|ws| - 1]);
    }
  }

  /** With w workers a run without spurious wakeups ends after at most w (2 w + 6) steps. */
  lemma RunsAreBounded<T>(run: seq<State<T>>)
    requires |run| > 0 && Init(run[0]) && forall i | 0 <= i < |run| - 1 :: ProgramStep(run[i], run[i + 1])
    ensures var w := |run[0].workers|; |run| - 1 <= w * (2 * w + 6)
  {
    RunsEnd(run);
    StartMeasure(run[0].workers);
    var w := |run[0].workers|;
    assert w * (2 * w + 1) + 5 * w == w * (2 * w + 6);
  }
}
