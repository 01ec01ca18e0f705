/** The histogram on one processor, and the kernel that counts in the memory of each thread group
    between two barriers: every step of a thread is a step of the whole. */
module Histogram {
  import opened Remainders
  import opened StrideCounts

  const BINS: nat := 256
  const WORD: nat := 0x1_0000_0000

  /** Groups of threads, threads a group, and the input. */
  datatype Config = Config(groups: nat, size: nat, input: seq<nat>)

  ghost predicate Proper(c: Config) {
    c.groups > 0 && c.size > 0 && forall x | 0 <= x < |c.input| :: c.input[x] < BINS
  }

  ghost predicate Words(a: seq<nat>) {
    |a| == BINS && forall b | 0 <= b < BINS :: a[b] < WORD
  }

  /** What one pass over the first k inputs makes of the bins, modulo the word. */
  ghost predicate Tallied(now: seq<nat>, was: seq<nat>, input: seq<nat>, k: nat) {
    && Words(now) && Words(was) && k <= |input|
    && forall b: nat | b < BINS :: now[b] == (was[b] + Count(input, k, b)) % WORD
  }

  lemma TallyStart(was: seq<nat>, input: seq<nat>)
    requires Words(was)
    ensures Tallied(was, was, input, 0)
  {
    forall b: nat | b < BINS
      ensures was[b] == was[b] % WORD
    {
      ModSmall(was[b], WORD);
    }
  }

  lemma TallyStep(now: seq<nat>, was: seq<nat>, input: seq<nat>, k: nat)
    requires Tallied(now, was, input, k) && k < |input| && input[k] < BINS
    ensures var next: seq<nat> := now[input[k] := (now[input[k]] + 1) % WORD];
      Tallied(next, was, input, k + 1)
  {
    var next: seq<nat> := now[input[k] := (now[input[k]] + 1) % WORD];
    forall b: nat | b < BINS
      ensures next[b] == (was[b] + Count(input, k + 1, b)) % WORD
    {
      ModAdd(was[b] + Count(input, k, b), One(input[k] == b), WORD);
      ModSmall(now[b], WORD);
    }
  }

  /** In plain numbers: 256 bins of 32 bits, and each gains as often as its number occurs among the first
      k inputs; exactly so while the sum is below 2^32. */
  lemma TallyMeans(now: seq<nat>, was: seq<nat>, input: seq<nat>, k: nat, b: nat)
    requires Tallied(now, was, input, k) && b < 256
    ensures |now| == |was| == 256 && k <= |input|
    ensures now[b] == (was[b] + multiset(input[..k])[b]) % 0x1_0000_0000
    ensures was[b] + multiset(input[..k])[b] < 0x1_0000_0000 ==> now[b] == was[b] + multiset(input[..k])[b]
  {
    CountIsMultiplicity(input, k, b);
    if was[b] + Count(input, k, b) < 0x1_0000_0000 {
      ModSmall(was[b] + Count(input, k, b), 0x1_0000_0000);
    }
  }

  method HistogramCPU(input: array<nat>, res: array<nat>, n: nat)
    requires n <= input.Length && res != input && Words(res[..])
    requires forall x | 0 <= x < n :: input[x] < BINS
    modifies res
    ensures Tallied(res[..], old(res[..]), input[..], n)
  {
    TallyStart(res[..], input[..]);
    for i := 0 to n
      invariant Tallied(res[..], old(res[..]), input[..], i)
    {
      TallyStep(res[..], old(res[..]), input[..], i);
      res[input[i]] := (res[input[i]] + 1) % WORD;
    }
  }

  // ---------- the kernel ----------

  /** Where a thread is: before clearing its bin, at the first barrier, in the loop, at the second
      barrier, behind it, with its bin fetched, finished. */
  datatype Stage = Begin | Barrier1 | Loop | Barrier2 | Merge | Adding | Done

  /** i is the loop index, v the partial result that was fetched. */
  datatype Thread = Thread(stage: Stage, i: nat, v: nat)

  /** The threads by group, the memory of each group, and the result. */
  datatype State = State(threads: seq<seq<Thread>>, shared: seq<seq<nat>>, res: seq<nat>)

  function Total(c: Config): nat {
    c.groups * c.size
  }

  function Tid(c: Config, g: nat, l: nat): nat {
    g * c.size + l
  }

  ghost predicate Shape(c: Config, s: State) {
    && |s.threads| == c.groups && |s.shared| == c.groups && Words(s.res)
    && forall g | 0 <= g < c.groups :: |s.threads[g]| == c.size && Words(s.shared[g])
  }

  /** The memory of the groups holds anything. */
  ghost predicate Init(c: Config, s: State) {
    && Shape(c, s)
    && forall g, l | 0 <= g < c.groups && 0 <= l < c.size :: s.threads[g][l].stage == Begin
  }

  ghost predicate Has(c: Config, s: State, g: nat, l: nat, stage: Stage) {
    Shape(c, s) && g < c.groups && l < c.size && s.threads[g][l].stage == stage
  }

  function Put(s: State, g: nat, l: nat, th: Thread): seq<seq<Thread>>
    requires g < |s.threads| && l < |s.threads[g]|
  {
    s.threads[g := s.threads[g][l := th]]
  }

  function PutBin(s: State, g: nat, b: nat, x: nat): seq<seq<nat>>
    requires g < |s.shared| && b < |s.shared[g]|
  {
    var bins: seq<nat> := s.shared[g][b := x];
    s.shared[g := bins]
  }

  ghost predicate Clear(c: Config, s: State, s': State, g: nat, l: nat) {
    && Has(c, s, g, l, Begin)
    && s' == s.(threads := Put(s, g, l, s.threads[g][l].(stage := Barrier1)),
                shared := if l < BINS then PutBin(s, g, l, 0) else s.shared)
  }

  /** A barrier lets a thread go on once no thread of its group is still before it. */
  ghost predicate AllCleared(c: Config, s: State, g: nat)
    requires Shape(c, s) && g < c.groups
  {
    forall l | 0 <= l < c.size :: s.threads[g][l].stage != Begin
  }

  ghost predicate PassBarrier1(c: Config, s: State, s': State, g: nat, l: nat) {
    && Has(c, s, g, l, Barrier1) && AllCleared(c, s, g)
    && s' == s.(threads := Put(s, g, l, s.threads[g][l].(stage := Loop, i := Tid(c, g, l))))
  }

  ghost predicate Increment(c: Config, s: State, s': State, g: nat, l: nat) {
    && Has(c, s, g, l, Loop) && s.threads[g][l].i < |c.input| && c.input[s.threads[g][l].i] < BINS
    && var th, b := s.threads[g][l], c.input[s.threads[g][l].i];
       s' == s.(threads := Put(s, g, l, th.(i := th.i + Total(c))),
                shared := PutBin(s, g, b, (s.shared[g][b] + 1) % WORD))
  }

  ghost predicate LeaveLoop(c: Config, s: State, s': State, g: nat, l: nat) {
    && Has(c, s, g, l, Loop) && s.threads[g][l].i >= |c.input|
    && s' == s.(threads := Put(s, g, l, s.threads[g][l].(stage := Barrier2)))
  }

  predicate Counted(stage: Stage) {
    stage == Barrier2 || stage == Merge || stage == Adding || stage == Done
  }

  ghost predicate AllCounted(c: Config, s: State, g: nat)
    requires Shape(c, s) && g < c.groups
  {
    forall l | 0 <= l < c.size :: Counted(s.threads[g][l].stage)
  }

  ghost predicate PassBarrier2(c: Config, s: State, s': State, g: nat, l: nat) {
    && Has(c, s, g, l, Barrier2) && AllCounted(c, s, g)
    && s' == s.(threads := Put(s, g, l, s.threads[g][l].(stage := if l < BINS then Merge else Done)))
  }

  ghost predicate Fetch(c: Config, s: State, s': State, g: nat, l: nat) {
    && Has(c, s, g, l, Merge) && l < BINS
    && s' == s.(threads := Put(s, g, l, s.threads[g][l].(stage := Adding, v := s.shared[g][l])))
  }

  ghost predicate AddBin(c: Config, s: State, s': State, g: nat, l: nat) {
    && Has(c, s, g, l, Adding) && l < BINS
    && s' == s.(threads := Put(s, g, l, s.threads[g][l].(stage := Done)),
                res := s.res[l := (s.res[l] + s.threads[g][l].v) % WORD])
  }

  ghost predicate Step(c: Config, s: State, s': State, g: nat, l: nat) {
    || Clear(c, s, s', g, l) || PassBarrier1(c, s, s', g, l) || Increment(c, s, s', g, l) || LeaveLoop(c, s, s', g, l)
    || PassBarrier2(c, s, s', g, l) || Fetch(c, s, s', g, l) || AddBin(c, s, s', g, l)
  }

  ghost predicate Next(c: Config, s: State, s': State) {
    exists g: nat, l: nat :: Step(c, s, s', g, l)
  }

  ghost predicate Run(c: Config, run: seq<State>) {
    |run| > 0 && Proper(c) && Init(c, run[0]) && forall i | 0 <= i < |run| - 1 :: Next(c, run[i], run[i + 1])
  }

  ghost predicate AllDone(c: Config, s: State) {
    Shape(c, s) && forall g, l | 0 <= g < c.groups && 0 <= l < c.size :: s.threads[g][l].stage == Done
  }
}
