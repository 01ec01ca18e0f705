/** Remainders modulo a width: products are named so that the prover meets them only here. */
module Remainders {

  ghost function Times(k: int, m: int): int { k * m }

  lemma AtLeast(d: int, m: nat)
    requires d >= 1
    ensures Times(d, m) >= m
  {
  }

  lemma Apart(a: int, b: int, m: nat)
    ensures Times(a, m) - Times(b, m) == Times(a - b, m)
  {
  }

  lemma DivMod(y: int, m: nat)
    requires m > 0
    ensures y == Times(y / m, m) + y % m && 0 <= y % m < m
  {
  }

  /** Quotient and remainder are unique. */
  lemma ModIs(y: int, m: nat, q: int, r: int)
    requires 0 <= r < m && y == Times(q, m) + r
    ensures y % m == r
  {
    DivMod(y, m);
    var p := y / m;
    Apart(p, q, m);
    Apart(q, p, m);
    if p > q {
      AtLeast(p - q, m);
    } else if q > p {
      AtLeast(q - p, m);
    }
  }

  lemma ModSmall(r: int, m: nat)
    requires 0 <= r < m
    ensures r % m == r
  {
    ModIs(r, m, 0, r);
  }

  /** A multiple of m does not change the remainder. */
  lemma ModShift(y: int, m: nat, q: int)
    requires m > 0
    ensures (Times(q, m) + y) % m == y % m
  {
    DivMod(y, m);
    Apart(q, -(y / m), m);
    ModIs(Times(q, m) + y, m, q + y / m, y % m);
  }

  /** Adding to a remainder is adding to the number. */
  lemma ModAdd(x: int, y: int, m: nat)
    requires m > 0
    ensures (x % m + y) % m == (x + y) % m
  {
    DivMod(x, m);
    ModShift(x % m + y, m, x / m);
  }

  lemma Regroup(q: int, m: int, b: int)
    ensures Times(q, m) * b == Times(q * b, m)
  {
    assert q * m * b == q * b * m;
  }

  /** One more digit on a remainder is one more digit on the number. */
  lemma ModDigit(n: int, m: nat, b: nat, d: nat)
    requires m > 0
    ensures (n % m * b + d) % m == (n * b + d) % m
  {
    DivMod(n, m);
    Regroup(n / m, m, b);
    assert n * b == Times(n / m, m) * b + n % m * b;
    ModShift(n % m * b + d, m, n / m * b);
  }
}
