/** What the removers of the buffer end up with, told by the workers alone: the n-th remover to take
    holds the item that the n-th adder to put was started with. */
module BoundedBufferItems {
  import opened BoundedBuffer
  import opened BoundedBufferTheorems

  /** Step i is the one in which worker t changes the deque. */
  ghost predicate ChangesAt<T>(run: seq<State<T>>, i: nat, t: nat) {
    && i + 1 < |run| && t < |run[i].workers| && t < |run[i + 1].workers|
    && !Past(run[i].workers[t].stage) && Past(run[i + 1].workers[t].stage)
  }

  /** Worker t of the given role changes the deque in step i, when n others of that role have. */
  ghost predicate IsNth<T>(run: seq<State<T>>, role: Role, n: nat, i: nat, t: nat) {
    ChangesAt(run, i, t) && run[i].workers[t].role == role && PastCount(run[i].workers, role) == n
  }

  // ---------- one step ----------

  /** A worker keeps its role, an adder its item, and nobody goes back before its change or loses the
      item after it. */
  ghost predicate Keeps<T>(w: Worker<T>, w': Worker<T>) {
    && w'.role == w.role && (w.role.Adder? || Past(w.stage) ==> w'.item == w.item)
    && (Past(w.stage) ==> Past(w'.stage))
  }

  ghost predicate AllKeep<T>(ws: seq<Worker<T>>, ws': seq<Worker<T>>) {
    |ws'| == |ws| && forall t | 0 <= t < |ws| :: Keeps(ws[t], ws'[t])
  }

  ghost predicate Recorded<T>(s: State<T>, s': State<T>) {
    s.added <= s'.added && s.removed <= s'.removed && AllKeep(s.workers, s'.workers)
  }

  lemma StepRecorded<T>(s: State<T>, s': State<T>)
    requires Next(s, s')
    ensures Recorded(s, s')
  {
  }

  /** The worker that changes the deque in a step either adds its item or gets the one removed. */
  lemma ChangeRecorded<T>(s: State<T>, s': State<T>, t: nat)
    requires Next(s, s') && t < |s.workers| && t < |s'.workers|
    requires !Past(s.workers[t].stage) && Past(s'.workers[t].stage)
    ensures if s.workers[t].role.Adder? then s'.added == s.added + [s.workers[t].item] && s'.removed == s.removed
            else s'.removed == s.removed + [s'.workers[t].item] && s'.added == s.added
  {
  }

  lemma AdditionIsChange<T>(s: State<T>, s': State<T>) returns (t: nat)
    requires Next(s, s') && s'.added != s.added
    ensures t < |s.workers| == |s'.workers| && s.workers[t].role.Adder?
    ensures !Past(s.workers[t].stage) && Past(s'.workers[t].stage) && |s'.added| == |s.added| + 1
  {
    t :| Put(s, s', t);
  }

  lemma OneChange<T>(s: State<T>, s': State<T>, t: nat, t': nat)
    requires Next(s, s') && t < |s.workers| == |s'.workers| && t' < |s.workers|
    requires !Past(s.workers[t].stage) && Past(s'.workers[t].stage)
    requires !Past(s.workers[t'].stage) && Past(s'.workers[t'].stage)
    ensures t == t'
  {
  }

  // ---------- a run ----------

  lemma StateInv<T>(run: seq<State<T>>, i: nat)
    requires Run(run) && i < |run|
    ensures Inv(run[i])
  {
    var front := run[..i + 1];
    forall k | 0 <= k < |front| - 1
      ensures Next(front[k], front[k + 1])
    {
      assert Next(run[k], run[k + 1]);
    }
    RunInv(front);
  }

  lemma {:induction false} RecordedBetween<T>(run: seq<State<T>>, i: nat, k: nat)
    requires Run(run) && i <= k < |run|
    ensures Recorded(run[i], run[k])
    decreases k - i
  {
    if i < k {
      assert Next(run[i], run[i + 1]);
      StepRecorded(run[i], run[i + 1]);
      RecordedBetween(run, i + 1, k);
    }
  }

  /** The adder that puts the n-th value was started with it. */
  lemma NthAdded<T>(run: seq<State<T>>, n: nat, j: nat, a: nat)
    requires Run(run) && IsNth(run, Adder, n, j, a)
    ensures n == |run[j].added| < |run[j + 1].added| <= |run[|run| - 1].added|
    ensures a < |run[0].workers| && run[|run| - 1].added[n] == run[0].workers[a].item
  {
    assert Next(run[j], run[j + 1]);
    StateInv(run, j);
    ChangeRecorded(run[j], run[j + 1], a);
    RecordedBetween(run, 0, j);
    RecordedBetween(run, j + 1, |run| - 1);
  }

  /** The remover that takes the n-th value holds it in the end. */
  lemma NthRemoved<T>(run: seq<State<T>>, n: nat, i: nat, r: nat)
    requires Run(run) && IsNth(run, Remover, n, i, r)
    ensures n == |run[i].removed| < |run[i + 1].removed| <= |run[|run| - 1].removed| && run[i + 1].added == run[i].added
    ensures r < |run[|run| - 1].workers| && run[|run| - 1].removed[n] == run[|run| - 1].workers[r].item
  {
    assert Next(run[i], run[i + 1]);
    StateInv(run, i);
    ChangeRecorded(run[i], run[i + 1], r);
    RecordedBetween(run, i + 1, |run| - 1);
  }

  /** What the n-th remover to take holds in the end is what the n-th adder to put was started with,
      and that adder came before. */
  lemma NthTakesNth<T>(run: seq<State<T>>, n: nat, i: nat, r: nat, j: nat, a: nat)
    requires Run(run) && IsNth(run, Remover, n, i, r) && IsNth(run, Adder, n, j, a)
    ensures r < |run[|run| - 1].workers| && a < |run[0].workers|
    ensures run[|run| - 1].workers[r].item == run[0].workers[a].item
    ensures j < i
  {
    NthRemoved(run, n, i, r);
    NthAdded(run, n, j, a);
    RunInv(run);
    StateInv(run, i + 1);
    if i <= j {
      RecordedBetween(run, i, j);
      assert false;
    }
  }

  lemma {:induction false} FindAddition<T>(run: seq<State<T>>, n: nat, k: nat) returns (j: nat, a: nat)
    requires Run(run) && k < |run| && n < |run[k].added|
    ensures IsNth(run, Adder, n, j, a)
  {
    j := k - 1;
    assert Next(run[j], run[j + 1]);
    if n < |run[j].added| {
      j, a := FindAddition(run, n, j);
    } else {
      a := AdditionIsChange(run[j], run[j + 1]);
      StateInv(run, j);
    }
  }

  /** Everybody who is past the change made it in some step of the run. */
  lemma {:induction false} PastChanged<T>(run: seq<State<T>>, k: nat, t: nat) returns (i: nat)
    requires Run(run) && k < |run| && t < |run[k].workers| && Past(run[k].workers[t].stage)
    ensures ChangesAt(run, i, t) && i < k
  {
    i := k - 1;
    assert Next(run[i], run[i + 1]);
    StepRecorded(run[i], run[i + 1]);
    if Past(run[i].workers[t].stage) {
      i := PastChanged(run, i, t);
    }
  }

  /** The n-th of a role is one worker, in one step. */
  lemma NthIsUnique<T>(run: seq<State<T>>, role: Role, n: nat, i: nat, t: nat, i': nat, t': nat)
    requires Run(run) && IsNth(run, role, n, i, t) && IsNth(run, role, n, i', t')
    ensures i == i' && t == t'
  {
    if i < i' {
      NthInOrder(run, role, n, i, t, i');
    } else if i' < i {
      NthInOrder(run, role, n, i', t', i);
    } else {
      assert Next(run[i], run[i + 1]);
      StepRecorded(run[i], run[i + 1]);
      OneChange(run[i], run[i + 1], t, t');
    }
  }

  lemma NthInOrder<T>(run: seq<State<T>>, role: Role, n: nat, i: nat, t: nat, i': nat)
    requires Run(run) && IsNth(run, role, n, i, t) && i < i' < |run|
    ensures PastCount(run[i'].workers, role) > n
  {
    RecordedBetween(run, i + 1, i');
    StateInv(run, i');
    if role.Adder? {
      NthAdded(run, n, i, t);
    } else {
      NthRemoved(run, n, i, t);
    }
  }

  /** Every remover that has taken something holds the item of one adder: the one of its number. */
  lemma RemoversHoldAddedItems<T>(run: seq<State<T>>, r: nat) returns (n: nat, i: nat, j: nat, a: nat)
    requires Run(run)
    requires var s := run[|run| - 1]; r < |s.workers| && s.workers[r].role.Remover? && Past(s.workers[r].stage)
    ensures IsNth(run, Remover, n, i, r) && IsNth(run, Adder, n, j, a)
    ensures a < |run[0].workers| && run[|run| - 1].workers[r].item == run[0].workers[a].item
  {
    i := PastChanged(run, |run| - 1, r);
    RecordedBetween(run, i, |run| - 1);
    n := PastCount(run[i].workers, Remover);
    NthRemoved(run, n, i, r);
    StateInv(run, i + 1);
    assert |run[i + 1].removed| <= |run[i + 1].added|;
    j, a := FindAddition(run, n, i + 1);
    NthTakesNth(run, n, i, r, j, a);
  }
}
