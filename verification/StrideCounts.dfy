/** Counting the values of an array, over all indices and over the indices one thread of a
    grid-stride loop visits. */
module StrideCounts {
  import opened Remainders

  function One(b: bool): nat {
    if b then 1 else 0
  }

  /** How many of the first k inputs are b. */
  ghost function Count(input: seq<nat>, k: nat, b: nat): nat
    requires k <= |input|
  {
    if k == 0 then 0 else Count(input, k - 1, b) + One(input[k - 1] == b)
  }

  lemma {:induction false} CountIsMultiplicity(input: seq<nat>, k: nat, b: nat)
    requires k <= |input|
    ensures Count(input, k, b) == multiset(input[..k])[b]
  {
    if k > 0 {
      CountIsMultiplicity(input, k - 1, b);
      assert input[..k] == input[..k - 1] + [input[k - 1]];
    }
  }

  /** How many of the first k inputs are b at an index that thread t of total visits. */
  ghost function CountStride(input: seq<nat>, total: nat, t: nat, k: nat, b: nat): nat
    requires total > 0 && k <= |input|
  {
    if k == 0 then 0 else CountStride(input, total, t, k - 1, b) + One((k - 1) % total == t && input[k - 1] == b)
  }

  /** A thread that has not started has seen nothing. */
  lemma {:induction false} NothingBefore(input: seq<nat>, total: nat, t: nat, k: nat, b: nat)
    requires t < total && k <= |input| && k <= t
    ensures CountStride(input, total, t, k, b) == 0
  {
    if k > 0 {
      NothingBefore(input, total, t, k - 1, b);
      ModSmall(k - 1, total);
    }
  }

  /** The next index of the same thread is one stride away. */
  lemma NextIndex(i: nat, total: nat)
    requires total > 0
    ensures (i + total) % total == i % total
  {
    ModShift(i, total, 1);
    assert Times(1, total) == total;
  }

  lemma NotBetween(i: nat, x: nat, total: nat)
    requires i < x < i + total
    ensures x % total != i % total
  {
    DivMod(i, total);
    DivMod(x, total);
    Apart(x / total, i / total, total);
    if x % total == i % total {
      if x / total > i / total {
        AtLeast(x / total - i / total, total);
      } else if x / total < i / total {
        Apart(i / total, x / total, total);
        AtLeast(i / total - x / total, total);
      }
    }
  }

  lemma {:induction false} SkipStride(input: seq<nat>, total: nat, i: nat, k: nat, b: nat)
    requires i < k <= i + total && k <= |input|
    ensures CountStride(input, total, i % total, k, b) == CountStride(input, total, i % total, i, b) + One(input[i] == b)
    decreases k
  {
    if k > i + 1 {
      SkipStride(input, total, i, k - 1, b);
      NotBetween(i, k - 1, total);
    }
  }

  /** The first indices thread t visits lie below the cursor, whatever the end of the array. */
  function Seen(cursor: nat, n: nat): nat {
    if cursor < n then cursor else n
  }

  /** One turn of the loop counts exactly the input under the cursor. */
  lemma StrideTurn(input: seq<nat>, total: nat, i: nat, b: nat)
    requires total > 0 && i < |input|
    ensures CountStride(input, total, i % total, Seen(i + total, |input|), b)
         == CountStride(input, total, i % total, i, b) + One(input[i] == b)
  {
    SkipStride(input, total, i, Seen(i + total, |input|), b);
  }

  // ---------- all threads together ----------

  /** The sum over the first m threads. */
  ghost function ThreadSum(input: seq<nat>, total: nat, m: nat, k: nat, b: nat): nat
    requires total > 0 && k <= |input|
  {
    if m == 0 then 0 else ThreadSum(input, total, m - 1, k, b) + CountStride(input, total, m - 1, k, b)
  }

  lemma {:induction false} ThreadSumGrows(input: seq<nat>, total: nat, m: nat, k: nat, b: nat)
    requires total > 0 && k < |input|
    ensures ThreadSum(input, total, m, k + 1, b) == ThreadSum(input, total, m, k, b) + One(k % total < m && input[k] == b)
  {
    if m > 0 {
      ThreadSumGrows(input, total, m - 1, k, b);
    }
  }

  lemma {:induction false} ThreadSumStart(input: seq<nat>, total: nat, m: nat, b: nat)
    requires total > 0
    ensures ThreadSum(input, total, m, 0, b) == 0
  {
    if m > 0 {
      ThreadSumStart(input, total, m - 1, b);
    }
  }

  /** Every index is visited by exactly one thread: the threads together count what a single pass
      counts. */
  lemma {:induction false} ThreadsShareTheWork(input: seq<nat>, total: nat, k: nat, b: nat)
    requires total > 0 && k <= |input|
    ensures ThreadSum(input, total, total, k, b) == Count(input, k, b)
  {
    if k == 0 {
      ThreadSumStart(input, total, total, b);
    } else {
      ThreadsShareTheWork(input, total, k - 1, b);
      ThreadSumGrows(input, total, total, k - 1, b);
      DivMod(k - 1, total);
    }
  }
}
