/** The condition-variable buffer with any number of single-shot adders and removers.  Acquiring
    the mutex, testing the predicate, changing the deque, notify_all and releasing the mutex are
    separate steps; going to sleep releases the mutex in the same step, as the wait call does. */
module BoundedBuffer {

  const SIZE: nat := 128

  datatype Role = Adder | Remover

  /** Inside holds the mutex before the predicate is tested, Changed after the deque was changed,
      Notified after notify_all; Asleep waits for a notification, Woken wants the mutex back. */
  datatype Stage = Starting | Woken | Inside | Asleep | Changed | Notified | Done

  /** item is what an adder adds and what a remover has got. */
  datatype Worker<T> = Worker(role: Role, item: T, stage: Stage)

  /** owner is the worker that holds the mutex, or -1.  added and removed record, in order, what
      went into the deque and what came out. */
  datatype State<T> = State(buffer: seq<T>, owner: int, workers: seq<Worker<T>>, added: seq<T>, removed: seq<T>)

  function Moved<T>(s: State<T>, t: nat, stage: Stage): seq<Worker<T>>
    requires t < |s.workers|
  {
    s.workers[t := s.workers[t].(stage := stage)]
  }

  ghost predicate Init<T>(s: State<T>) {
    && s.buffer == [] && s.owner == -1 && s.added == [] && s.removed == []
    && forall t | 0 <= t < |s.workers| :: s.workers[t].stage.Starting?
  }

  // ---------- the steps ----------

  ghost predicate Acquire<T>(s: State<T>, s': State<T>, t: nat) {
    && t < |s.workers| && (s.workers[t].stage.Starting? || s.workers[t].stage.Woken?) && s.owner == -1
    && s' == s.(owner := t, workers := Moved(s, t, Inside))
  }

  /** The predicate of the wait call. */
  ghost predicate CanGo<T>(s: State<T>, t: nat)
    requires t < |s.workers|
  {
    if s.workers[t].role.Adder? then |s.buffer| < SIZE else s.buffer != []
  }

  ghost predicate Sleep<T>(s: State<T>, s': State<T>, t: nat) {
    && t < |s.workers| && s.workers[t].stage.Inside? && s.owner == t && !CanGo(s, t)
    && s' == s.(owner := -1, workers := Moved(s, t, Asleep))
  }

  ghost predicate Put<T>(s: State<T>, s': State<T>, t: nat) {
    && t < |s.workers| && s.workers[t].stage.Inside? && s.owner == t && s.workers[t].role.Adder? && CanGo(s, t)
    && s' == s.(buffer := s.buffer + [s.workers[t].item], added := s.added + [s.workers[t].item],
                workers := Moved(s, t, Changed))
  }

  ghost predicate Take<T>(s: State<T>, s': State<T>, t: nat) {
    && t < |s.workers| && s.workers[t].stage.Inside? && s.owner == t && s.workers[t].role.Remover? && CanGo(s, t)
    && |s.buffer| > 0
    && s' == s.(buffer := s.buffer[1..], removed := s.removed + [s.buffer[0]],
                workers := s.workers[t := Worker(Remover, s.buffer[0], Changed)])
  }

  function Wake<T>(w: Worker<T>): Worker<T> {
    if w.stage.Asleep? then w.(stage := Woken) else w
  }

  function WakeAll<T>(ws: seq<Worker<T>>): (r: seq<Worker<T>>)
    ensures |r| == |ws| && forall t | 0 <= t < |ws| :: r[t] == Wake(ws[t])
  {
    seq(|ws|, t requires 0 <= t < |ws| => Wake(ws[t]))
  }

  ghost predicate NotifyAll<T>(s: State<T>, s': State<T>, t: nat) {
    && t < |s.workers| && s.workers[t].stage.Changed? && s.owner == t
    && s' == s.(workers := WakeAll(Moved(s, t, Notified)))
  }

  ghost predicate Release<T>(s: State<T>, s': State<T>, t: nat) {
    && t < |s.workers| && s.workers[t].stage.Notified? && s.owner == t
    && s' == s.(owner := -1, workers := Moved(s, t, Done))
  }

  /** A wakeup nobody asked for. */
  ghost predicate Spurious<T>(s: State<T>, s': State<T>, t: nat) {
    && t < |s.workers| && s.workers[t].stage.Asleep?
    && s' == s.(workers := Moved(s, t, Woken))
  }

  ghost predicate ProgramStep<T>(s: State<T>, s': State<T>) {
    exists t: nat :: Acquire(s, s', t) || Sleep(s, s', t) || Put(s, s', t) || Take(s, s', t) || NotifyAll(s, s', t) || Release(s, s', t)
  }

  ghost predicate Next<T>(s: State<T>, s': State<T>) {
    ProgramStep(s, s') || exists t: nat :: Spurious(s, s', t)
  }

  ghost predicate Run<T>(run: seq<State<T>>) {
    |run| > 0 && Init(run[0]) && forall i | 0 <= i < |run| - 1 :: Next(run[i], run[i + 1])
  }

  // ---------- counting ----------

  predicate Past(stage: Stage) {
    stage.Changed? || stage.Notified? || stage.Done?
  }

  /** Workers of a role that have changed the deque. */
  ghost function PastCount<T>(ws: seq<Worker<T>>, role: Role): nat {
    if ws == [] then 0
    else PastCount(ws[..|ws| - 1], role) + if ws[|ws| - 1].role == role && Past(ws[|ws| - 1].stage) then 1 else 0
  }

  ghost function RoleCount<T>(ws: seq<Worker<T>>, role: Role): nat {
    if ws == [] then 0
    else RoleCount(ws[..|ws| - 1], role) + if ws[|ws| - 1].role == role then 1 else 0
  }

  lemma {:induction false} CountUpdate<T>(ws: seq<Worker<T>>, t: nat, w: Worker<T>, role: Role)
    requires t < |ws| && w.role == ws[t].role
    ensures RoleCount(ws[t := w], role) == RoleCount(ws, role)
    ensures PastCount(ws[t := w], role) ==
            PastCount(ws, role) - (if ws[t].role == role && Past(ws[t].stage) then 1 else 0)
                                + (if w.role == role && Past(w.stage) then 1 else 0)
  {
    var n := |ws| - 1;
    if t < n {
      CountUpdate(ws[..n], t, w, role);
      assert ws[t := w][..n] == ws[..n][t := w];
    } else {
      assert ws[t := w][..n] == ws[..n];
    }
  }

  lemma {:induction false} CountWake<T>(ws: seq<Worker<T>>, role: Role)
    ensures RoleCount(WakeAll(ws), role) == RoleCount(ws, role)
    ensures PastCount(WakeAll(ws), role) == PastCount(ws, role)
  {
    if ws != [] {
      CountWake(ws[..|ws| - 1], role);
      assert WakeAll(ws)[..|ws| - 1] == WakeAll(ws[..|ws| - 1]);
    }
  }

  lemma {:induction false} PastAtMostAll<T>(ws: seq<Worker<T>>, role: Role)
    ensures PastCount(ws, role) <= RoleCount(ws, role)
    ensures PastCount(ws, role) == RoleCount(ws, role) <==> forall t | 0 <= t < |ws| && ws[t].role == role :: Past(ws[t].stage)
  {
    if ws != [] {
      var n := |ws| - 1;
      PastAtMostAll(ws[..n], role);
      if forall t | 0 <= t < |ws| && ws[t].role == role :: Past(ws[t].stage) {
        assert forall t | 0 <= t < n && ws[..n][t].role == role :: Past(ws[..n][t].stage);
      } else {
        var t :| 0 <= t < |ws| && ws[t].role == role && !Past(ws[t].stage);
        if t < n {
          assert ws[..n][t].role == role && !Past(ws[..n][t].stage);
        }
      }
    }
  }

  // ---------- the invariant ----------

  /** The worker at t holds the mutex exactly between Acquire and Sleep or Release. */
  ghost predicate HoldsMutex(stage: Stage) {
    stage.Inside? || stage.Changed? || stage.Notified?
  }

  /** Some worker has changed the deque and not yet notified. */
  ghost predicate Pending<T>(s: State<T>) {
    0 <= s.owner < |s.workers| && s.workers[s.owner].stage.Changed?
  }

  ghost predicate Inv<T>(s: State<T>) {
    && -1 <= s.owner < |s.workers|
    && (forall t | 0 <= t < |s.workers| :: HoldsMutex(s.workers[t].stage) <==> s.owner == t)
    && s.removed + s.buffer == s.added && |s.buffer| <= SIZE
    && |s.added| == PastCount(s.workers, Adder) && |s.removed| == PastCount(s.workers, Remover)
    && (forall t | 0 <= t < |s.workers| && s.workers[t].stage.Asleep? :: Pending(s) || !CanGo(s, t))
  }

  lemma {:induction false} StartCounts<T>(ws: seq<Worker<T>>, role: Role)
    requires forall t | 0 <= t < |ws| :: ws[t].stage.Starting?
    ensures PastCount(ws, role) == 0
  {
    if ws != [] {
      StartCounts(ws[..|ws| - 1], role);
    }
  }

  lemma InitInv<T>(s: State<T>)
    requires Init(s)
    ensures Inv(s)
  {
    StartCounts(s.workers, Adder);
    StartCounts(s.workers, Remover);
  }

  lemma KeepsInv<T>(s: State<T>, s': State<T>, t: nat)
    requires Inv(s)
    requires Acquire(s, s', t) || Sleep(s, s', t) || Put(s, s', t) || Release(s, s', t) || Spurious(s, s', t)
    ensures Inv(s')
  {
    CountUpdate(s.workers, t, s'.workers[t], Adder);
    CountUpdate(s.workers, t, s'.workers[t], Remover);
    assert s'.workers == s.workers[t := s'.workers[t]];
  }

  lemma TakeKeepsInv<T>(s: State<T>, s': State<T>, t: nat)
    requires Inv(s) && Take(s, s', t)
    ensures Inv(s')
  {
    CountUpdate(s.workers, t, s'.workers[t], Adder);
    CountUpdate(s.workers, t, s'.workers[t], Remover);
    assert s.buffer == [s.buffer[0]] + s.buffer[1..];
    assert s'.removed + s'.buffer == s.removed + ([s.buffer[0]] + s.buffer[1..]);
  }

  lemma NotifyKeepsInv<T>(s: State<T>, s': State<T>, t: nat)
    requires Inv(s) && NotifyAll(s, s', t)
    ensures Inv(s')
  {
    var ws := Moved(s, t, Notified);
    CountUpdate(s.workers, t, ws[t], Adder);
    CountUpdate(s.workers, t, ws[t], Remover);
    CountWake(ws, Adder);
    CountWake(ws, Remover);
  }

  lemma NextInv<T>(s: State<T>, s': State<T>)
    requires Inv(s) && Next(s, s')
    ensures Inv(s')
  {
    if t: nat :| Spurious(s, s', t) {
      KeepsInv(s, s', t);
    } else {
      var t: nat :| Acquire(s, s', t) || Sleep(s, s', t) || Put(s, s', t) || Take(s, s', t) || NotifyAll(s, s', t) || Release(s, s', t);
      if Take(s, s', t) {
        TakeKeepsInv(s, s', t);
      } else if NotifyAll(s, s', t) {
        NotifyKeepsInv(s, s', t);
      } else {
        KeepsInv(s, s', t);
      }
    }
  }
}
