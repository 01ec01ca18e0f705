/** The cache itself: sets whose lines and bit matrices are updated in place. */
module SetAssociativeCache {
  import opened Recency
  import opened CacheModel

  /** One set.  The rows of the matrix are bit sets; touches records what set_mru was called for. */
  class CacheSet<D> {
    const ways: nat
    const line: array<Line<D>>
    const lru: array<seq<bool>>
    ghost var touches: seq<nat>

    ghost predicate Valid()
      reads this, line, lru
    {
      && ways > 0 && line.Length == ways && lru.Length == ways
      && Stands(lru[..], touches, ways)
    }

    ghost function State(): Ways<D>
      reads this, line
    {
      Ways(line[..], touches)
    }

    constructor (ways: nat, blank: D)
      requires ways > 0
      ensures Valid() && fresh(line) && fresh(lru) && this.ways == ways
      ensures State() == Ways(seq(ways, i => Line(0, blank, false)), [])
    {
      this.ways := ways;
      line := new Line<D>[ways](i => Line(0, blank, false));
      lru := new seq<bool>[ways](i => seq(ways, j => false));
      touches := [];
      new;
      assert line[..] == seq(ways, i => Line(0, blank, false));
    }

    method SetMru(way: nat)
      requires Valid() && way < ways
      modifies lru, `touches
      ensures Valid() && Refreshed(old(lru[..]), lru[..], ways, way)
      ensures touches == old(touches) + [way]
    {
      ghost var before := lru[..];
      lru[way] := seq(ways, j => true);
      ghost var marked := lru[..];
      for i := 0 to ways
        invariant touches == old(touches)
        invariant forall k | i <= k < ways :: lru[k] == marked[k]
        invariant forall k | 0 <= k < i :: |marked[k]| == ways && lru[k] == marked[k][way := false]
      {
        assert lru[i] == marked[i];
        lru[i] := lru[i][way := false];
      }
      touches := touches + [way];
      RowsThenColumn(before, marked, lru[..], ways, way);
      RefreshKeepsMeaning(before, lru[..], old(touches), ways, way);
    }

    method GetLru() returns (way: nat)
      requires Valid()
      ensures way < ways && LeastRecent(touches, ways, way)
    {
      for i := 0 to ways
        invariant forall k: nat | k < i :: !ZeroRow(lru[..], ways, k)
      {
        if true !in lru[i] {
          assert ZeroRow(lru[..], ways, i);
          FirstZeroRow(lru[..], touches, ways, i);
          return i;
        }
        assert exists j :: 0 <= j < ways && lru[..][i][j];
      }
      way := 0;
      ZeroRowExists(lru[..], touches, ways);
      assert false;
    }

    method FindWay(tag: nat) returns (hit: bool, way: nat)
      requires Valid()
      modifies this, line, lru
      ensures Valid() && State() == Searched(old(State()), tag)
      ensures hit <==> old(Hit(State(), tag))
      ensures way == if hit then HitWay(old(line[..]), tag) else Victim(old(touches), ways)
    {
      for i := 0 to ways
        invariant forall k | 0 <= k < i :: !Match(line[k], tag)
      {
        if line[i].valid && line[i].tag == tag {
          FirstMatch(line[..], tag, i);
          SetMru(i);
          return true, i;
        }
      }
      FirstMatch(line[..], tag, ways);
      way := GetLru();
      LeastRecentUnique(touches, ways, way, Victim(touches, ways));
      line[way] := line[way].(valid := false);
      return false, way;
    }

    method Fill(way: nat, tag: nat, data: D)
      requires Valid() && way < ways
      modifies line
      ensures Valid() && line[..] == old(line[..])[way := Line(tag, data, true)]
    {
      line[way] := Line(tag, data, true);
    }
  }

  /** Setting row w and then clearing column w refreshes the matrix. */
  lemma RowsThenColumn(before: Bits, marked: Bits, after: Bits, n: nat, w: nat)
    requires Square(before, n) && w < n
    requires marked == before[w := seq(n, j => true)]
    requires |after| == n && forall k | 0 <= k < n :: |marked[k]| == n && after[k] == marked[k][w := false]
    ensures Refreshed(before, after, n, w)
  {
  }

  lemma FirstMatch<D>(lines: seq<Line<D>>, tag: nat, i: nat)
    requires i <= |lines| && forall k | 0 <= k < i :: !Match(lines[k], tag)
    requires i < |lines| ==> Match(lines[i], tag)
    ensures HitWay(lines, tag) == i
  {
  }

  class Cache<D> {
    const g: Geometry
    const sets: seq<CacheSet<D>>

    ghost predicate Valid()
      reads this, Objects()
    {
      && g.nways > 0 && |sets| == g.nsets
      && (forall s | 0 <= s < |sets| :: sets[s].Valid() && sets[s].ways == g.nways)
      && (forall s, t | 0 <= s < t < |sets| :: Apart(sets[s], sets[t]))
    }

    ghost function Objects(): set<object>
    {
      (set s | 0 <= s < |sets| :: sets[s] as object)
      + (set s | 0 <= s < |sets| :: sets[s].line as object)
      + (set s | 0 <= s < |sets| :: sets[s].lru as object)
    }

    ghost function State(): (state: seq<Ways<D>>)
      requires Valid()
      reads this, Objects()
      ensures Fits(g, state)
    {
      seq(|sets|, s requires 0 <= s < |sets| reads Objects() => sets[s].State())
    }

    constructor (g: Geometry, blank: D)
      requires g.nways > 0
      ensures Valid() && fresh(Objects()) && this.g == g && State() == Empty(g, blank)
    {
      var built: seq<CacheSet<D>> := [];
      for i := 0 to g.nsets
        invariant |built| == i
        invariant forall s | 0 <= s < i :: fresh(built[s]) && fresh(built[s].line) && fresh(built[s].lru)
        invariant forall s | 0 <= s < i :: built[s].Valid() && built[s].ways == g.nways
        invariant forall s | 0 <= s < i :: built[s].State() == Ways(seq(g.nways, k => Line(0, blank, false)), [])
        invariant forall s, t | 0 <= s < t < i :: Apart(built[s], built[t])
      {
        var next := new CacheSet<D>(g.nways, blank);
        built := built + [next];
      }
      this.g := g;
      sets := built;
    }

    method Fill(addr: nat, data: D)
      requires Valid() && g.nsets > 0
      modifies Objects()
      ensures Valid() && State() == Apply(g, old(State()), Operation.Fill(addr, data))
    {
      var s := SetIndex(g, addr);
      FillSet(sets[s], Slice(g, addr), data);
      assert State() == old(State())[s := sets[s].State()];
    }

    static method FillSet(chosen: CacheSet<D>, tag: nat, data: D)
      requires chosen.Valid()
      modifies chosen, chosen.line, chosen.lru
      ensures chosen.Valid() && chosen.State() == Filled(old(chosen.State()), tag, data)
    {
      var hit, way := chosen.FindWay(tag);
      if hit {
        return;
      }
      chosen.Fill(way, tag, data);
    }

    method Lookup(addr: nat) returns (hit: bool)
      requires Valid()
      modifies Objects()
      ensures Valid() && State() == Apply(g, old(State()), Operation.Lookup(addr))
      ensures hit <==> KeyOf(g, addr) in Contents(old(State()))
    {
      ContentsAt(State(), KeyOf(g, addr));
      if g.nsets == 0 {
        return false;
      }
      var s := SetIndex(g, addr);
      var way;
      hit, way := sets[s].FindWay(Slice(g, addr));
      assert State() == old(State())[s := sets[s].State()];
    }

    method Evict(way: nat, index: nat)
      requires Valid() && index < g.nsets && way < g.nways
      modifies Objects()
      ensures Valid() && State() == Apply(g, old(State()), Operation.Evict(way, index))
    {
      sets[index].line[way] := sets[index].line[way].(valid := false);
      assert State() == old(State())[index := sets[index].State()];
    }
  }

  /** Two sets that share no storage. */
  ghost predicate Apart<D>(a: CacheSet<D>, b: CacheSet<D>) {
    a != b && a.line != b.line && a.lru != b.lru
  }
}
