/** The reorder loop of the fast cosine transform. */
module BitReversal {
  import opened Powers
  import opened Complexes

  // ---------- the reversed counter ----------

  /** Adding one to a counter of b bits read backwards: clear the leading ones, set the next bit. */
  function AddReversed(b: nat, r: nat): nat
    requires r < Power2(b)
  {
    if b == 0 then 1
    else if r >= Power2(b - 1) then AddReversed(b - 1, r - Power2(b - 1))
    else r + Power2(b - 1)
  }

  lemma {:induction false} AddReversedCounts(b: nat, p: nat)
    requires p + 1 < Power2(b)
    ensures AddReversed(b, Rev(b, p)) == Rev(b, p + 1)
    decreases b
  {
    if p % 2 == 1 {
      assert (p + 1) / 2 == p / 2 + 1;
      AddReversedCounts(b - 1, p / 2);
    } else {
      assert (p + 1) / 2 == p / 2;
    }
  }

  /** The inner loop: it takes the counter j = 2 r + 1 of b bits to the next one; when all bits are
      set, which happens only after the last swap, it ends with j = 2. */
  method NextCounter(n: nat, j: nat, ghost b: nat, ghost r: nat) returns (next: nat)
    requires n == 2 * Power2(b) && j == 2 * r + 1 && r < Power2(b)
    ensures next == if r == Power2(b) - 1 then 2 else 2 * AddReversed(b, r) + 1
  {
    next := j;
    var m := n / 2;
    ghost var c: nat, rest: nat := b, r;
    while m >= 2 && next > m
      invariant c <= b && m == Power2(c) && rest < Power2(c) && next == 2 * rest + 1
      invariant r == Power2(b) - 1 <==> rest == Power2(c) - 1
      invariant AddReversed(b, r) == AddReversed(c, rest)
    {
      assert Power2(0) == 1;
      next := next - m;
      m := m / 2;
      c, rest := c - 1, rest - Power2(c - 1);
    }
    next := next + m;
  }

  // ---------- the swaps ----------

  /** The two numbers of complex slot p. */
  ghost function Slot(s: seq<real>, p: nat): Complex
    requires 2 * p + 1 < |s|
  {
    Complex(s[2 * p], s[2 * p + 1])
  }

  /** Where slot q comes from once the slots below done have had their turn. */
  ghost function Source(b: nat, q: nat, done: nat): nat {
    if q < done || Rev(b, q) < done then Rev(b, q) else q
  }

  ghost predicate From(s: seq<real>, was: seq<real>, b: nat, q: nat, done: nat)
    requires |s| == |was| == 2 * Power2(b) + 1 && q < Power2(b)
  {
    Slot(s, q) == Slot(was, Source(b, q, done))
  }

  ghost predicate Reordered(s: seq<real>, was: seq<real>, b: nat, done: nat) {
    && |s| == |was| == 2 * Power2(b) + 1
    && s[2 * Power2(b)] == was[2 * Power2(b)]
    && forall q: nat | q < Power2(b) :: From(s, was, b, q, done)
  }

  /** Slots p and r exchanged. */
  ghost function Swapped(s: seq<real>, p: nat, r: nat): seq<real>
    requires 2 * p + 1 < |s| && 2 * r + 1 < |s|
  {
    s[2 * p := s[2 * r]][2 * p + 1 := s[2 * r + 1]][2 * r := s[2 * p]][2 * r + 1 := s[2 * p + 1]]
  }

  lemma SwappedSlot(s: seq<real>, p: nat, r: nat, q: nat)
    requires 2 * p + 1 < |s| && 2 * r + 1 < |s| && 2 * q + 1 < |s|
    ensures Slot(Swapped(s, p, r), q) == Slot(s, if q == p then r else if q == r then p else q)
  {
  }

  /** The exchange as seen by one slot q. */
  lemma SwapAt(s: seq<real>, was: seq<real>, b: nat, p: nat, r: nat, q: nat, done: nat)
    requires |s| == |was| == 2 * Power2(b) + 1 && p < r < Power2(b) && q < Power2(b) && done == p + 1
    requires r == Rev(b, p) && p == Rev(b, r) && q == Rev(b, Rev(b, q))
    requires From(s, was, b, q, p) && From(s, was, b, p, p) && From(s, was, b, r, p)
    ensures |Swapped(s, p, r)| == |s| && From(Swapped(s, p, r), was, b, q, done)
  {
    SwappedSlot(s, p, r, q);
  }

  lemma SwapStep(s: seq<real>, was: seq<real>, b: nat, p: nat)
    requires Reordered(s, was, b, p) && p < Rev(b, p) && p < Power2(b)
    ensures Reordered(Swapped(s, p, Rev(b, p)), was, b, p + 1)
  {
    var r := Rev(b, p);
    RevInvolution(b, p);
    var t, done := Swapped(s, p, r), p + 1;
    forall q: nat | q < Power2(b)
      ensures From(t, was, b, q, done)
    {
      RevInvolution(b, q);
      SwapAt(s, was, b, p, r, q, done);
    }
  }

  lemma SkipStep(s: seq<real>, was: seq<real>, b: nat, p: nat)
    requires Reordered(s, was, b, p) && p >= Rev(b, p) && p < Power2(b)
    ensures Reordered(s, was, b, p + 1)
  {
    var done := p + 1;
    forall q: nat | q < Power2(b)
      ensures From(s, was, b, q, done)
    {
      assert From(s, was, b, q, p);
      RevInvolution(b, q);
    }
  }

  method SwapSlots(data: array<real>, i: nat, j: nat)
    requires 0 < i < j && j < data.Length && i % 2 == 1 && j % 2 == 1
    modifies data
    ensures data[..] == Swapped(old(data[..]), i / 2, j / 2)
  {
    data[j - 1], data[i - 1] := data[i - 1], data[j - 1];
    data[j], data[i] := data[i], data[j];
  }

  /** The turn for slot p. */
  method Turn(n: nat, data: array<real>, i: nat, j: nat, ghost b: nat, ghost p: nat, ghost was: seq<real>) returns (next: nat)
    requires n == 2 * Power2(b) && p < Power2(b) && i == 2 * p + 1 && j == 2 * Rev(b, p) + 1
    requires Reordered(data[..], was, b, p)
    modifies data
    ensures Reordered(data[..], was, b, p + 1)
    ensures next == if p + 1 < Power2(b) then 2 * Rev(b, p + 1) + 1 else 2
  {
    if j > i {
      SwapStep(data[..], was, b, p);
      SwapSlots(data, i, j);
    } else {
      SkipStep(data[..], was, b, p);
    }
    CountsOn(b, p);
    next := NextCounter(n, j, b, Rev(b, p));
  }

  /** With n = 2 * 2^b, the loop leaves in complex slot p the old slot of p with its b bits reversed,
      and does not touch the last number. */
  method Reorder(n: nat, data: array<real>, ghost b: nat)
    requires n == 2 * Power2(b) && data.Length == n + 1
    modifies data
    ensures data[n] == old(data[n])
    ensures forall p: nat | p < Power2(b) :: Slot(data[..], p) == Slot(old(data[..]), Rev(b, p))
  {
    ghost var was := data[..];
    var j := 1;
    var i := 1;
    ghost var p: nat := 0;
    StartReversed(b);
    while i <= n
      invariant i == 2 * p + 1 && p <= Power2(b)
      invariant j == if p < Power2(b) then 2 * Rev(b, p) + 1 else 2
      invariant Reordered(data[..], was, b, p)
    {
      j := Turn(n, data, i, j, b, p, was);
      i := i + 2;
      p := p + 1;
    }
    forall q: nat | q < Power2(b)
      ensures Slot(data[..], q) == Slot(was, Rev(b, q))
    {
      assert From(data[..], was, b, q, p);
    }
  }

  lemma {:induction false} StartReversed(b: nat)
    ensures Rev(b, 0) == 0
  {
    if b > 0 {
      StartReversed(b - 1);
    }
  }

  lemma CountsOn(b: nat, p: nat)
    requires p < Power2(b)
    ensures p + 1 < Power2(b) <==> Rev(b, p) != Power2(b) - 1
    ensures p + 1 < Power2(b) ==> AddReversed(b, Rev(b, p)) == Rev(b, p + 1)
  {
    OnesReversed(b);
    if p + 1 < Power2(b) {
      AddReversedCounts(b, p);
    }
    RevInvolution(b, p);
  }

  lemma {:induction false} OnesReversed(b: nat)
    ensures Rev(b, Power2(b) - 1) == Power2(b) - 1
  {
    if b > 0 {
      assert (Power2(b) - 1) / 2 == Power2(b - 1) - 1;
      OnesReversed(b - 1);
    }
  }

  /** Reordering twice changes nothing. */
  lemma TwiceIsNothing(a: seq<real>, b: seq<real>, c: seq<real>, bits: nat)
    requires Reordered(b, a, bits, Power2(bits)) && Reordered(c, b, bits, Power2(bits))
    ensures c == a
  {
    var n := 2 * Power2(bits);
    forall k: nat | k < n
      ensures c[k] == a[k]
    {
      var q := k / 2;
      RevInvolution(bits, q);
      assert From(c, b, bits, q, Power2(bits)) && From(b, a, bits, Rev(bits, q), Power2(bits));
      assert Slot(c, q) == Slot(a, q);
    }
  }
}
