/** Arithmetic with quotients and remainders by a positive number, which the solver does not find by itself. */
module Quotients {

  lemma GrowsBy(k: int, d: int)
    requires d > 0
    ensures k >= 1 ==> k * d >= d
    ensures k <= -1 ==> k * d <= -d
  {
    assert k >= 1 ==> (k - 1) * d >= 0;
    assert k <= -1 ==> (-k - 1) * d >= 0;
  }

  lemma ProductAtLeast(x: int, y: int)
    requires x >= 1 && y >= 1
    ensures x * y >= x && x * y >= y
  {
    GrowsBy(x, y);
    GrowsBy(y, x);
  }

  /** A multiple of d that is smaller than d is 0. */
  lemma NoMultiple(k: int, d: int)
    requires d > 0 && -d < k * d < d
    ensures k == 0
  {
    GrowsBy(k, d);
  }

  lemma Split(x: int, d: int)
    requires d > 0
    ensures x == (x / d) * d + x % d && 0 <= x % d < d
    ensures x >= 0 ==> x / d >= 0
  {
    GrowsBy(x / d, d);
  }

  lemma Divided(q: int, r: int, d: int)
    requires 0 <= r < d
    ensures (q * d + r) / d == q && (q * d + r) % d == r
  {
    var x := q * d + r;
    Split(x, d);
    assert (x / d - q) * d == (x / d) * d - q * d;
    NoMultiple(x / d - q, d);
  }

  lemma AtLeast(x: int, q: int, d: int)
    requires d > 0
    ensures x / d >= q <==> x >= q * d
  {
    Split(x, d);
    GrowsBy(x / d - q, d);
    assert (x / d - q) * d == (x / d) * d - q * d;
  }

  /** Rounding up to a multiple of d. */
  lemma UpToMultiple(x: int, d: int)
    requires d > 0
    ensures (x + (d - x % d)) % d == 0
  {
    Split(x, d);
    assert (x / d + 1) * d == (x / d) * d + d;
    Divided(x / d + 1, 0, d);
  }

  /** Dividing twice is dividing by the product. */
  lemma Nested(x: nat, c: nat, k: nat)
    requires c > 0 && k > 0
    ensures k * c > 0 && x / c / k == x / (k * c)
  {
    Split(x, c);
    Split(x / c, k);
    Pair(x / c / k, x / c % k, x % c, c, k);
  }

  lemma Pair(q: int, col: int, r: int, c: int, k: int)
    requires 0 <= col < k && 0 <= r < c
    ensures k * c > 0 && ((q * k + col) * c + r) / (k * c) == q
  {
    GrowsBy(k, c);
    GrowsBy(k - col, c);
    Distribute(k - col, col, c);
    Distribute(q * k, col, c);
    Associate(q, k, c);
    assert col * c >= 0;
    Divided(q, col * c + r, k * c);
  }

  lemma Distribute(x: int, y: int, c: int)
    ensures (x + y) * c == x * c + y * c
  {
  }

  lemma Associate(x: int, y: int, c: int)
    ensures (x * y) * c == x * (y * c)
  {
  }

  /** The next multiple of d is passed exactly if something is left behind it. */
  lemma NextQuotient(begin: nat, limit: nat, q: nat, d: nat)
    requires d > 0 && q * d <= begin < q * d + d && begin <= limit
    ensures var next := q * d + d; var end := if limit < next then limit else next;
      (q + 1 <= (limit - 1) / d ==> end / d == q + 1) && (q + 1 > (limit - 1) / d ==> end == limit)
  {
    assert (q + 1) * d == q * d + d;
    AtLeast(limit - 1, q + 1, d);
    Divided(q + 1, 0, d);
  }

  lemma NoneLeft(addr: nat, size: nat, d: nat)
    requires d > 0
    ensures addr / d > (addr + size - 1) / d ==> size == 0
  {
    Split(addr, d);
    AtLeast(addr + size - 1, addr / d, d);
  }
}
