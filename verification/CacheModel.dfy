/** The set-associative cache as values: what fill, lookup and evict do to the lines and to the
    recency of the sets, and the plain map the cache stands for. */
module CacheModel {
  import opened Options
  import opened Powers
  import opened Recency
  import opened Remainders

  datatype Line<D> = Line(tag: nat, data: D, valid: bool)

  /** One set: its lines and the ways it touched, oldest first. */
  datatype Ways<D> = Ways(lines: seq<Line<D>>, touches: seq<nat>)

  /** Sets, ways, and the lowest bit and the width of the address slice that is the tag. */
  datatype Geometry = Geometry(nsets: nat, nways: nat, lsb: nat, span: nat)

  datatype Operation<D> = Fill(addr: nat, data: D) | Lookup(addr: nat) | Evict(way: nat, index: nat)

  datatype Key = Key(index: nat, tag: nat)

  /** The tag bits of an address: shifted down and masked. */
  function Slice(g: Geometry, addr: nat): nat {
    LowBits(ShiftRight(addr, g.lsb), g.span)
  }

  function SetIndex(g: Geometry, addr: nat): (index: nat)
    ensures g.nsets > 0 ==> index < g.nsets
  {
    if g.nsets > 1 then addr % g.nsets else 0
  }

  function KeyOf(g: Geometry, addr: nat): Key {
    Key(SetIndex(g, addr), Slice(g, addr))
  }

  /** The slice holds the bits of the address from lsb on, span of them. */
  lemma SliceBits(g: Geometry, addr: nat, i: nat)
    ensures Bit(Slice(g, addr), i) == if i < g.span then Bit(addr, g.lsb + i) else 0
  {
    BitOfLowBits(ShiftRight(addr, g.lsb), g.span, i);
    BitOfShift(addr, g.lsb, i);
  }

  /** Two addresses go to one set exactly when the number of sets divides their difference. */
  lemma SameSet(g: Geometry, a: nat, b: nat)
    requires g.nsets > 0
    ensures SetIndex(g, a) == SetIndex(g, b) <==> (a - b) % g.nsets == 0
  {
    var n := g.nsets;
    DivMod(a, n);
    DivMod(b, n);
    Apart(a / n, b / n, n);
    if a % n == b % n {
      ModIs(a - b, n, a / n - b / n, 0);
    } else if (a - b) % n == 0 {
      DivMod(a - b, n);
      ModShift(b, n, (a - b) / n);
    }
  }

  /** The addresses below the number of sets go each to the set of that number. */
  lemma FirstAddresses(g: Geometry, addr: nat)
    requires addr < g.nsets
    ensures SetIndex(g, addr) == addr
  {
    ModSmall(addr, g.nsets);
  }

  lemma {:induction false} LowBitsAreMod(x: nat, k: nat)
    ensures x % Power2(k) == LowBits(x, k)
    decreases k
  {
    if k == 0 {
      DivMod(x, 1);
    } else {
      var p := Power2(k - 1);
      LowBitsAreMod(x / 2, k - 1);
      DivMod(x / 2, p);
      DoubleProduct(x / 2 / p, p);
      ModIs(x, 2 * p, x / 2 / p, LowBits(x, k));
    }
  }

  lemma DoubleProduct(q: int, p: nat)
    ensures Times(q, 2 * p) == 2 * Times(q, p)
  {
  }

  /** For 2^k sets the number of the set is made of the k lowest bits of the address. */
  lemma SetBits(g: Geometry, k: nat, addr: nat, i: nat)
    requires g.nsets == Power2(k)
    ensures Bit(SetIndex(g, addr), i) == if i < k then Bit(addr, i) else 0
  {
    LowBitsAreMod(addr, k);
    BitOfLowBits(addr, k, i);
  }

  ghost predicate SameBit(g: Geometry, a: nat, b: nat, i: nat) {
    Bit(a, g.lsb + i) == Bit(b, g.lsb + i)
  }

  /** Two addresses share a line exactly when the number of sets, if there are any, divides their
      difference and the bits of the slice agree. */
  lemma SameKey(g: Geometry, a: nat, b: nat)
    ensures KeyOf(g, a) == KeyOf(g, b) <==>
            (g.nsets > 0 ==> (a - b) % g.nsets == 0) && forall i: nat | i < g.span :: SameBit(g, a, b, i)
  {
    if g.nsets > 0 {
      SameSet(g, a, b);
    }
    forall i: nat | i < g.span
      ensures SameBit(g, a, b, i) <==> Bit(Slice(g, a), i) == Bit(Slice(g, b), i)
    {
      SliceBits(g, a, i);
      SliceBits(g, b, i);
    }
    if forall i: nat | i < g.span :: SameBit(g, a, b, i) {
      BitsDecide(Slice(g, a), Slice(g, b), g.span);
    }
  }

  // ---------- one set ----------

  predicate Match<D>(line: Line<D>, tag: nat) {
    line.valid && line.tag == tag
  }

  /** The first way that holds the tag, or the number of ways. */
  function HitWay<D>(lines: seq<Line<D>>, tag: nat): (i: nat)
    ensures i <= |lines|
    ensures i < |lines| ==> Match(lines[i], tag)
    ensures forall k | 0 <= k < i :: !Match(lines[k], tag)
  {
    if lines == [] then 0
    else
      var i := HitWay(lines[..|lines| - 1], tag);
      if i < |lines| - 1 || Match(lines[|lines| - 1], tag) then i else |lines|
  }

  ghost predicate Hit<D>(w: Ways<D>, tag: nat) {
    HitWay(w.lines, tag) < |w.lines|
  }

  function Invalid<D>(line: Line<D>): Line<D> {
    line.(valid := false)
  }

  /** What a search for a tag does: a hit touches the way; a miss drops the least recent line. */
  ghost function Searched<D>(w: Ways<D>, tag: nat): (w': Ways<D>)
    requires |w.lines| > 0
  {
    if Hit(w, tag) then w.(touches := w.touches + [HitWay(w.lines, tag)])
    else
      var v := Victim(w.touches, |w.lines|);
      w.(lines := w.lines[v := Invalid(w.lines[v])])
  }

  ghost function Filled<D>(w: Ways<D>, tag: nat, data: D): (w': Ways<D>)
    requires |w.lines| > 0
  {
    if Hit(w, tag) then Searched(w, tag)
    else Searched(w, tag).(lines := w.lines[Victim(w.touches, |w.lines|) := Line(tag, data, true)])
  }

  // ---------- the whole cache ----------

  ghost predicate Fits<D>(g: Geometry, sets: seq<Ways<D>>) {
    && g.nways > 0 && |sets| == g.nsets
    && forall s | 0 <= s < |sets| :: |sets[s].lines| == g.nways
  }

  /** The calls the code accepts: a fill needs a set, an evicted line must exist. */
  ghost predicate Legal<D>(g: Geometry, op: Operation<D>) {
    match op
    case Fill(_, _) => g.nsets > 0
    case Lookup(_) => true
    case Evict(way, index) => index < g.nsets && way < g.nways
  }

  ghost function Apply<D>(g: Geometry, sets: seq<Ways<D>>, op: Operation<D>): (sets': seq<Ways<D>>)
    requires Fits(g, sets) && Legal(g, op)
    ensures Fits(g, sets')
  {
    match op
    case Fill(addr, data) =>
      var s := SetIndex(g, addr);
      sets[s := Filled(sets[s], Slice(g, addr), data)]
    case Lookup(addr) =>
      if g.nsets == 0 then sets
      else
        var s := SetIndex(g, addr);
        sets[s := Searched(sets[s], Slice(g, addr))]
    case Evict(way, index) =>
      var w := sets[index];
      sets[index := w.(lines := w.lines[way := Invalid(w.lines[way])])]
  }

  ghost function Empty<D>(g: Geometry, blank: D): (sets: seq<Ways<D>>)
    requires g.nways > 0
    ensures Fits(g, sets)
  {
    seq(g.nsets, s => Ways(seq(g.nways, i => Line(0, blank, false)), []))
  }

  // ---------- the plain map ----------

  ghost function KeySet<D>(sets: seq<Ways<D>>): set<Key> {
    set s, i | 0 <= s < |sets| && 0 <= i < |sets[s].lines| && sets[s].lines[i].valid :: Key(s, sets[s].lines[i].tag)
  }

  ghost function Contents<D>(sets: seq<Ways<D>>): map<Key, D> {
    map k | k in KeySet(sets) && Cached(sets, k).Some? :: Cached(sets, k).value
  }

  /** The data the first line with the tag holds. */
  ghost function Found<D>(lines: seq<Line<D>>, tag: nat): Option<D> {
    var i := HitWay(lines, tag);
    if i < |lines| then Some(lines[i].data) else None
  }

  ghost function Cached<D>(sets: seq<Ways<D>>, k: Key): Option<D> {
    if k.index < |sets| then Found(sets[k.index].lines, k.tag) else None
  }

  lemma ContentsAt<D>(sets: seq<Ways<D>>, k: Key)
    ensures k in Contents(sets) <==> Cached(sets, k).Some?
    ensures k in Contents(sets) ==> Cached(sets, k) == Some(Contents(sets)[k])
  {
    if Cached(sets, k).Some? {
      var w := sets[k.index];
      assert w.lines[HitWay(w.lines, k.tag)].valid;
      assert k == Key(k.index, w.lines[HitWay(w.lines, k.tag)].tag);
    }
  }

  /** The key a line holds, if any. */
  ghost function KeyAt<D>(sets: seq<Ways<D>>, index: nat, way: nat): set<Key>
    requires index < |sets| && way < |sets[index].lines|
  {
    if sets[index].lines[way].valid then {Key(index, sets[index].lines[way].tag)} else {}
  }

  /** The key that a miss in a set gives up. */
  ghost function Lost<D>(sets: seq<Ways<D>>, index: nat): set<Key>
    requires index < |sets| && |sets[index].lines| > 0
  {
    KeyAt(sets, index, Victim(sets[index].touches, |sets[index].lines|))
  }

  /** The same operation on a plain map, given the key that a miss gives up. */
  ghost function OnMap<D>(g: Geometry, m: map<Key, D>, op: Operation<D>, lost: set<Key>): map<Key, D> {
    match op
    case Fill(addr, data) =>
      if KeyOf(g, addr) in m then m else (m - lost)[KeyOf(g, addr) := data]
    case Lookup(addr) =>
      if KeyOf(g, addr) in m then m else m - lost
    case Evict(_, _) => m - lost
  }

  /** The line an operation gives up when the key it asks for is absent. */
  ghost function Loses<D>(g: Geometry, sets: seq<Ways<D>>, op: Operation<D>): set<Key>
    requires Fits(g, sets) && Legal(g, op)
  {
    match op
    case Fill(addr, _) => Lost(sets, SetIndex(g, addr))
    case Lookup(addr) => if g.nsets == 0 then {} else Lost(sets, SetIndex(g, addr))
    case Evict(way, index) => KeyAt(sets, index, way)
  }
}
