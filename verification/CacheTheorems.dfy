/** What every run of the cache guarantees: one line a key, agreement with a plain map, one victim
    between two hits, and the survival of a line that was hit. */
module CacheTheorems {
  import opened Options
  import opened Recency
  import opened CacheModel

  // ---------- one set ----------

  ghost predicate NoTwins<D>(lines: seq<Line<D>>) {
    forall i, j | 0 <= i < j < |lines| && lines[i].valid && lines[j].valid :: lines[i].tag != lines[j].tag
  }

  lemma ValidIsHit<D>(lines: seq<Line<D>>, i: nat)
    requires NoTwins(lines) && i < |lines| && lines[i].valid
    ensures HitWay(lines, lines[i].tag) == i
  {
    assert Match(lines[i], lines[i].tag);
  }

  /** What a set holds is decided by any line that matches. */
  lemma FoundIs<D>(lines: seq<Line<D>>, tag: nat, i: nat)
    requires NoTwins(lines) && i < |lines| && Match(lines[i], tag)
    ensures Found(lines, tag) == Some(lines[i].data)
  {
    ValidIsHit(lines, i);
  }

  lemma FoundNone<D>(lines: seq<Line<D>>, tag: nat)
    requires forall i | 0 <= i < |lines| :: !Match(lines[i], tag)
    ensures Found(lines, tag) == None
  {
  }

  ghost predicate TagAt<D>(lines: seq<Line<D>>, v: nat, tag: nat)
    requires v < |lines|
  {
    Match(lines[v], tag)
  }

  lemma DropLine<D>(lines: seq<Line<D>>, v: nat, tag: nat)
    requires NoTwins(lines) && v < |lines|
    ensures NoTwins(lines[v := Invalid(lines[v])])
    ensures Found(lines[v := Invalid(lines[v])], tag) == if TagAt(lines, v, tag) then None else Found(lines, tag)
  {
    var lines' := lines[v := Invalid(lines[v])];
    var i := HitWay(lines, tag);
    if TagAt(lines, v, tag) {
      forall k | 0 <= k < |lines'|
        ensures !Match(lines'[k], tag)
      {
      }
      FoundNone(lines', tag);
    } else if i < |lines| {
      assert Match(lines'[i], tag);
      FoundIs(lines', tag, i);
    } else {
      FoundNone(lines', tag);
    }
  }

  lemma PutLine<D>(lines: seq<Line<D>>, v: nat, line: Line<D>, tag: nat)
    requires NoTwins(lines) && v < |lines| && line.valid && Found(lines, line.tag) == None
    ensures NoTwins(lines[v := line])
    ensures Found(lines[v := line], tag) ==
            if tag == line.tag then Some(line.data) else if TagAt(lines, v, tag) then None else Found(lines, tag)
  {
    var lines' := lines[v := line];
    assert forall k | 0 <= k < |lines| :: !Match(lines[k], line.tag);
    assert NoTwins(lines');
    var i := HitWay(lines, tag);
    if tag == line.tag {
      FoundIs(lines', tag, v);
    } else if TagAt(lines, v, tag) {
      forall k | 0 <= k < |lines'|
        ensures !Match(lines'[k], tag)
      {
      }
      FoundNone(lines', tag);
    } else if i < |lines| {
      assert Match(lines'[i], tag);
      FoundIs(lines', tag, i);
    } else {
      FoundNone(lines', tag);
    }
  }

  // ---------- the invariant ----------

  ghost predicate OneLineEach<D>(sets: seq<Ways<D>>) {
    forall s | 0 <= s < |sets| :: NoTwins(sets[s].lines)
  }

  lemma ApplyKeepsOneLineEach<D>(g: Geometry, sets: seq<Ways<D>>, op: Operation<D>)
    requires Fits(g, sets) && Legal(g, op) && OneLineEach(sets)
    ensures OneLineEach(Apply(g, sets, op))
  {
    match op
    case Fill(addr, data) =>
      var w := sets[SetIndex(g, addr)];
      var v := Victim(w.touches, |w.lines|);
      if !Hit(w, Slice(g, addr)) {
        PutLine(w.lines, v, Line(Slice(g, addr), data, true), 0);
      }
    case Lookup(addr) =>
      if g.nsets > 0 {
        var w := sets[SetIndex(g, addr)];
        DropLine(w.lines, Victim(w.touches, |w.lines|), 0);
      }
    case Evict(way, index) =>
      DropLine(sets[index].lines, way, 0);
  }

  // ---------- refinement of a plain map ----------

  /** The map operation at one key. */
  ghost function MapAt<D>(g: Geometry, sets: seq<Ways<D>>, op: Operation<D>, k: Key): Option<D>
    requires Fits(g, sets) && Legal(g, op)
  {
    var gone := if k in Loses(g, sets, op) then None else Cached(sets, k);
    match op
    case Fill(addr, data) =>
      if Cached(sets, KeyOf(g, addr)).Some? then Cached(sets, k)
      else if k == KeyOf(g, addr) then Some(data)
      else gone
    case Lookup(addr) =>
      if Cached(sets, KeyOf(g, addr)).Some? then Cached(sets, k) else gone
    case Evict(_, _) => gone
  }

  lemma AppliedAt<D>(g: Geometry, sets: seq<Ways<D>>, op: Operation<D>, k: Key)
    requires Fits(g, sets) && Legal(g, op) && OneLineEach(sets)
    ensures Cached(Apply(g, sets, op), k) == MapAt(g, sets, op, k)
  {
    match op
    case Fill(addr, data) =>
      var w := sets[SetIndex(g, addr)];
      var v := Victim(w.touches, |w.lines|);
      if !Hit(w, Slice(g, addr)) {
        PutLine(w.lines, v, Line(Slice(g, addr), data, true), k.tag);
      }
    case Lookup(addr) =>
      if g.nsets > 0 {
        var w := sets[SetIndex(g, addr)];
        DropLine(w.lines, Victim(w.touches, |w.lines|), k.tag);
      }
    case Evict(way, index) =>
      DropLine(sets[index].lines, way, k.tag);
  }

  /** Each operation on the cache is the same operation on a plain map; a miss also gives up the
      key of one line, an evict that of the line it names. */
  lemma CacheIsMap<D>(g: Geometry, sets: seq<Ways<D>>, op: Operation<D>)
    requires Fits(g, sets) && Legal(g, op) && OneLineEach(sets)
    ensures Contents(Apply(g, sets, op)) == OnMap(g, Contents(sets), op, Loses(g, sets, op))
  {
    var after, spec := Contents(Apply(g, sets, op)), OnMap(g, Contents(sets), op, Loses(g, sets, op));
    forall k
      ensures k in after <==> k in spec
      ensures k in after && k in spec ==> after[k] == spec[k]
    {
      AppliedAt(g, sets, op, k);
      ContentsAt(Apply(g, sets, op), k);
      ContentsAt(sets, k);
      match op {
        case Fill(addr, _) => ContentsAt(sets, KeyOf(g, addr));
        case Lookup(addr) => ContentsAt(sets, KeyOf(g, addr));
        case Evict(_, _) =>
      }
    }
    assert after == spec;
  }

  // ---------- runs ----------

  /** A run from the empty cache: one more state than operations. */
  ghost predicate Run<D>(g: Geometry, blank: D, states: seq<seq<Ways<D>>>, ops: seq<Operation<D>>) {
    && g.nways > 0 && |states| == |ops| + 1 && states[0] == Empty(g, blank)
    && forall i | 0 <= i < |ops| :: Fits(g, states[i]) && Legal(g, ops[i]) && states[i + 1] == Apply(g, states[i], ops[i])
  }

  /** Every sequence of calls that the code accepts has its run. */
  lemma {:induction false} RunsExist<D>(g: Geometry, blank: D, ops: seq<Operation<D>>) returns (states: seq<seq<Ways<D>>>)
    requires g.nways > 0 && forall i | 0 <= i < |ops| :: Legal(g, ops[i])
    ensures Run(g, blank, states, ops) && Fits(g, states[|ops|])
  {
    if ops == [] {
      states := [Empty(g, blank)];
    } else {
      var n := |ops| - 1;
      var before := RunsExist(g, blank, ops[..n]);
      states := before + [Apply(g, before[n], ops[n])];
      forall i | 0 <= i < |ops|
        ensures Fits(g, states[i]) && states[i + 1] == Apply(g, states[i], ops[i])
      {
        if i < n {
          assert Fits(g, before[i]) && before[i + 1] == Apply(g, before[i], ops[..n][i]);
        }
      }
    }
  }

  lemma {:induction false} RunKeepsOneLineEach<D>(g: Geometry, blank: D, states: seq<seq<Ways<D>>>, ops: seq<Operation<D>>, i: nat)
    requires Run(g, blank, states, ops) && i < |states|
    ensures Fits(g, states[i]) && OneLineEach(states[i])
  {
    if i > 0 {
      RunKeepsOneLineEach(g, blank, states, ops, i - 1);
      ApplyKeepsOneLineEach(g, states[i - 1], ops[i - 1]);
    }
  }

  /** In no state of a run do two valid lines of a set hold one tag. */
  lemma NoDuplicates<D>(g: Geometry, blank: D, states: seq<seq<Ways<D>>>, ops: seq<Operation<D>>, i: nat, s: nat, u: nat, v: nat)
    requires Run(g, blank, states, ops) && i < |states| && s < g.nsets && u < g.nways && v < g.nways
    ensures |states[i]| == g.nsets && |states[i][s].lines| == g.nways
    ensures states[i][s].lines[u].valid && states[i][s].lines[v].valid && states[i][s].lines[u].tag == states[i][s].lines[v].tag ==> u == v
  {
    RunKeepsOneLineEach(g, blank, states, ops, i);
  }

  /** Operation i is the fill of key k with data d that finds k absent. */
  ghost predicate Inserts<D>(g: Geometry, states: seq<seq<Ways<D>>>, ops: seq<Operation<D>>, i: nat, k: Key, d: D) {
    && i < |ops| && i < |states| && ops[i].Fill? && KeyOf(g, ops[i].addr) == k && ops[i].data == d
    && k !in Contents(states[i])
  }

  lemma AppearsByFill<D>(g: Geometry, sets: seq<Ways<D>>, op: Operation<D>, k: Key)
    requires Fits(g, sets) && Legal(g, op) && OneLineEach(sets)
    requires k in Contents(Apply(g, sets, op))
    ensures if k in Contents(sets) then Contents(Apply(g, sets, op))[k] == Contents(sets)[k]
            else op.Fill? && KeyOf(g, op.addr) == k && Contents(Apply(g, sets, op))[k] == op.data
  {
    AppliedAt(g, sets, op, k);
    ContentsAt(Apply(g, sets, op), k);
    ContentsAt(sets, k);
  }

  /** A key that is present holds the data of the fill that last inserted it, and has been present
      ever since that fill. */
  lemma {:induction false} DataOfLastInsertion<D>(g: Geometry, blank: D, states: seq<seq<Ways<D>>>, ops: seq<Operation<D>>, n: nat, k: Key)
    returns (i: nat)
    requires Run(g, blank, states, ops) && n < |states| && k in Contents(states[n])
    ensures i < n && Inserts(g, states, ops, i, k, Contents(states[n])[k])
    ensures forall j | i < j <= n :: k in Contents(states[j])
  {
    if n == 0 {
      EmptyHoldsNothing(g, blank, k);
      assert false;
    } else {
      RunKeepsOneLineEach(g, blank, states, ops, n - 1);
      AppearsByFill(g, states[n - 1], ops[n - 1], k);
      if k in Contents(states[n - 1]) {
        i := DataOfLastInsertion(g, blank, states, ops, n - 1, k);
      } else {
        i := n - 1;
      }
    }
  }

  lemma EmptyHoldsNothing<D>(g: Geometry, blank: D, k: Key)
    requires g.nways > 0
    ensures k !in Contents(Empty(g, blank))
  {
    ContentsAt(Empty(g, blank), k);
  }

  // ---------- recency over a run ----------

  /** Operation i hits way u of set s. */
  ghost predicate HitsAt<D>(g: Geometry, states: seq<seq<Ways<D>>>, ops: seq<Operation<D>>, i: nat, s: nat, u: nat) {
    && i < |ops| && i < |states| && s < |states[i]|
    && (ops[i].Fill? || ops[i].Lookup?) && SetIndex(g, ops[i].addr) == s
    && Hit(states[i][s], Slice(g, ops[i].addr)) && u == HitWay(states[i][s].lines, Slice(g, ops[i].addr))
  }

  /** Operation i is a search of set s that misses. */
  ghost predicate MissesAt<D>(g: Geometry, states: seq<seq<Ways<D>>>, ops: seq<Operation<D>>, i: nat, s: nat) {
    && i < |ops| && i < |states| && s < |states[i]|
    && (ops[i].Fill? || ops[i].Lookup?) && SetIndex(g, ops[i].addr) == s
    && !Hit(states[i][s], Slice(g, ops[i].addr))
  }

  ghost predicate EvictsAt<D>(ops: seq<Operation<D>>, i: nat, s: nat, u: nat) {
    i < |ops| && ops[i] == Evict(u, s)
  }

  /** Only hits extend the recency of a set. */
  lemma TouchesStep<D>(g: Geometry, blank: D, states: seq<seq<Ways<D>>>, ops: seq<Operation<D>>, i: nat, s: nat)
    requires Run(g, blank, states, ops) && i < |ops| && s < g.nsets
    ensures Fits(g, states[i]) && Fits(g, states[i + 1])
    ensures states[i + 1][s].touches == states[i][s].touches
            || exists u: nat :: u < g.nways && HitsAt(g, states, ops, i, s, u) && states[i + 1][s].touches == states[i][s].touches + [u]
  {
    RunKeepsOneLineEach(g, blank, states, ops, i + 1);
    if (ops[i].Fill? || ops[i].Lookup?) && SetIndex(g, ops[i].addr) == s && Hit(states[i][s], Slice(g, ops[i].addr)) {
      var u := HitWay(states[i][s].lines, Slice(g, ops[i].addr));
      assert HitsAt(g, states, ops, i, s, u);
    }
  }

  ghost predicate NoHits<D>(g: Geometry, states: seq<seq<Ways<D>>>, ops: seq<Operation<D>>, i: nat, j: nat, s: nat) {
    forall k: nat, u: nat | i <= k < j :: !HitsAt(g, states, ops, k, s, u)
  }

  lemma {:induction false} NoHitsNoTouches<D>(g: Geometry, blank: D, states: seq<seq<Ways<D>>>, ops: seq<Operation<D>>, i: nat, j: nat, s: nat)
    requires Run(g, blank, states, ops) && i <= j < |states| && s < g.nsets && NoHits(g, states, ops, i, j, s)
    ensures Fits(g, states[i]) && Fits(g, states[j])
    ensures states[j][s].touches == states[i][s].touches
  {
    RunKeepsOneLineEach(g, blank, states, ops, i);
    if i < j {
      NoHitsNoTouches(g, blank, states, ops, i, j - 1, s);
      TouchesStep(g, blank, states, ops, j - 1, s);
    }
  }

  /** Between two hits in a set all misses strike one and the same way: with v the victim at the
      first state, every other way keeps its line until it is evicted. */
  lemma {:induction false} MissesStrikeOneWay<D>(g: Geometry, blank: D, states: seq<seq<Ways<D>>>, ops: seq<Operation<D>>, i: nat, j: nat, s: nat, u: nat)
    requires Run(g, blank, states, ops) && i <= j < |states| && s < g.nsets && NoHits(g, states, ops, i, j, s)
    requires u < g.nways && forall k: nat | i <= k < j :: !EvictsAt(ops, k, s, u)
    ensures Fits(g, states[i]) && Fits(g, states[j])
    ensures u != Victim(states[i][s].touches, g.nways) ==> states[j][s].lines[u] == states[i][s].lines[u]
  {
    RunKeepsOneLineEach(g, blank, states, ops, i);
    RunKeepsOneLineEach(g, blank, states, ops, j);
    if i < j {
      MissesStrikeOneWay(g, blank, states, ops, i, j - 1, s, u);
      NoHitsNoTouches(g, blank, states, ops, i, j - 1, s);
      assert states[j] == Apply(g, states[j - 1], ops[j - 1]);
      assert !EvictsAt(ops, j - 1, s, u);
    }
  }

  /** Every touch since state i comes from a hit since state i. */
  lemma {:induction false} TouchesComeFromHits<D>(g: Geometry, blank: D, states: seq<seq<Ways<D>>>, ops: seq<Operation<D>>, i: nat, j: nat, s: nat)
    requires Run(g, blank, states, ops) && i <= j < |states| && s < g.nsets
    ensures Fits(g, states[i]) && Fits(g, states[j])
    ensures states[i][s].touches <= states[j][s].touches
    ensures forall q | |states[i][s].touches| <= q < |states[j][s].touches| :: HitBetween(g, states, ops, i, j, s, states[j][s].touches[q])
  {
    RunKeepsOneLineEach(g, blank, states, ops, i);
    if i < j {
      TouchesComeFromHits(g, blank, states, ops, i, j - 1, s);
      TouchesStep(g, blank, states, ops, j - 1, s);
      var was, now := states[j - 1][s].touches, states[j][s].touches;
      forall q | |states[i][s].touches| <= q < |now|
        ensures HitBetween(g, states, ops, i, j, s, now[q])
      {
        if q < |was| {
          assert HitBetween(g, states, ops, i, j - 1, s, was[q]);
          var k: nat :| i <= k < j - 1 && HitsAt(g, states, ops, k, s, was[q]);
          assert HitsAt(g, states, ops, k, s, now[q]);
        } else {
          assert HitsAt(g, states, ops, j - 1, s, now[q]);
        }
      }
    }
  }

  ghost predicate HitBetween<D>(g: Geometry, states: seq<seq<Ways<D>>>, ops: seq<Operation<D>>, i: nat, j: nat, s: nat, u: nat) {
    exists k: nat :: i <= k < j && HitsAt(g, states, ops, k, s, u)
  }

  /** What one operation does to a line: nothing, unless it evicts it or misses with it as victim. */
  lemma LineStep<D>(g: Geometry, blank: D, states: seq<seq<Ways<D>>>, ops: seq<Operation<D>>, i: nat, s: nat, u: nat)
    requires Run(g, blank, states, ops) && i < |ops| && s < g.nsets && u < g.nways
    ensures Fits(g, states[i]) && Fits(g, states[i + 1])
    ensures states[i + 1][s].lines[u] != states[i][s].lines[u] ==>
            EvictsAt(ops, i, s, u) || (MissesAt(g, states, ops, i, s) && Victim(states[i][s].touches, g.nways) == u)
  {
    RunKeepsOneLineEach(g, blank, states, ops, i + 1);
    assert states[i + 1] == Apply(g, states[i], ops[i]);
  }

  /** A miss that strikes a way hit by operation i comes after hits of all the other ways. */
  lemma VictimIsOld<D>(g: Geometry, blank: D, states: seq<seq<Ways<D>>>, ops: seq<Operation<D>>, i: nat, j: nat, s: nat, u: nat, v: nat)
    requires Run(g, blank, states, ops) && i < j < |states| && s < g.nsets && u < g.nways && v < g.nways && v != u
    requires HitsAt(g, states, ops, i, s, u)
    requires Fits(g, states[j]) && Victim(states[j][s].touches, g.nways) == u
    ensures HitBetween(g, states, ops, i + 1, j, s, v)
  {
    TouchesComeFromHits(g, blank, states, ops, i + 1, j, s);
    var early, late := states[i + 1][s].touches, states[j][s].touches;
    assert early == states[i][s].touches + [u] && early <= late;
    assert late[|early| - 1] == u;
    assert LastTouch(late, v) > LastTouch(late, u) >= |early| - 1;
    assert late[LastTouch(late, v)] == v;
  }

  /** A line that was hit survives, unless it is evicted, until each of the other ways of its set
      has been hit after it. */
  lemma {:induction false} HitLineSurvives<D>(g: Geometry, blank: D, states: seq<seq<Ways<D>>>, ops: seq<Operation<D>>, i: nat, j: nat, s: nat, u: nat, v: nat)
    requires Run(g, blank, states, ops) && i < j < |states| && s < g.nsets && v < g.nways && v != u
    requires HitsAt(g, states, ops, i, s, u)
    requires forall k: nat | i < k < j :: !EvictsAt(ops, k, s, u)
    ensures Fits(g, states[i]) && Fits(g, states[j]) && u < g.nways
    ensures states[j][s].lines[u] == states[i][s].lines[u] || HitBetween(g, states, ops, i + 1, j, s, v)
  {
    RunKeepsOneLineEach(g, blank, states, ops, i);
    LineStep(g, blank, states, ops, j - 1, s, u);
    if i < j - 1 {
      HitLineSurvives(g, blank, states, ops, i, j - 1, s, u, v);
      assert !EvictsAt(ops, j - 1, s, u);
      if HitBetween(g, states, ops, i + 1, j - 1, s, v) {
        var k: nat :| i + 1 <= k < j - 1 && HitsAt(g, states, ops, k, s, v);
        assert HitsAt(g, states, ops, k, s, v);
      } else if states[j][s].lines[u] != states[j - 1][s].lines[u] {
        VictimIsOld(g, blank, states, ops, i, j - 1, s, u, v);
      }
    }
  }

  // ---------- a run of misses ----------

  /** Without hits a set never holds more than its way 0, however many addresses are filled. */
  lemma {:induction false} NoHitsOneLine<D>(g: Geometry, blank: D, states: seq<seq<Ways<D>>>, ops: seq<Operation<D>>, j: nat, s: nat, u: nat)
    requires Run(g, blank, states, ops) && j < |states| && s < g.nsets && NoHits(g, states, ops, 0, j, s) && 0 < u < g.nways
    ensures Fits(g, states[j]) && !states[j][s].lines[u].valid
  {
    RunKeepsOneLineEach(g, blank, states, ops, j);
    if j > 0 {
      NoHitsOneLine(g, blank, states, ops, j - 1, s, u);
      NoHitsNoTouches(g, blank, states, ops, 0, j - 1, s);
      LeastRecentUnique([], g.nways, Victim([], g.nways), 0);
      LineStep(g, blank, states, ops, j - 1, s, u);
      assert states[j] == Apply(g, states[j - 1], ops[j - 1]);
    }
  }
}
