/** Powers of two, and the bit operations of C's unsigned words on the numbers the
    words stand for. */
module Words {

  function Pow2(n: nat): (p: nat)
    ensures p > 0
  {
    if n == 0 then 1 else 2 * Pow2(n - 1)
  }

  predicate IsPow2(x: nat) {
    x == 1 || (x > 0 && x % 2 == 0 && IsPow2(x / 2))
  }

  lemma {:induction false} Pow2Monotone(m: nat, n: nat)
    requires m < n
    ensures 2 * Pow2(m) <= Pow2(n)
  {
    if m + 1 < n {
      Pow2Monotone(m, n - 1);
    }
  }

  lemma {:induction false} Pow2IsPow2(n: nat)
    ensures IsPow2(Pow2(n))
  {
    if n > 0 {
      Pow2IsPow2(n - 1);
    }
  }

  lemma {:induction false} ExponentOf(x: nat) returns (n: nat)
    requires IsPow2(x)
    ensures x == Pow2(n)
  {
    if x == 1 {
      n := 0;
    } else {
      n := ExponentOf(x / 2);
      n := n + 1;
    }
  }

  lemma {:induction false} ExponentBelow(x: nat) returns (n: nat)
    requires x > 0
    ensures Pow2(n) <= x < Pow2(n + 1)
  {
    n := 0;
    if x > 1 {
      n := ExponentBelow(x / 2);
      n := n + 1;
    }
  }

  // ----- Bit operations

  function And(a: nat, b: nat): nat {
    if a == 0 || b == 0 then 0
    else 2 * And(a / 2, b / 2) + (if a % 2 == 1 && b % 2 == 1 then 1 else 0)
  }

  function Or(a: nat, b: nat): nat
    decreases a + b
  {
    if a + b == 0 then 0
    else 2 * Or(a / 2, b / 2) + (if a % 2 == 1 || b % 2 == 1 then 1 else 0)
  }

  /** The IS_POWER_OF_2 macro, which also holds of zero. */
  predicate MacroIsPow2(x: nat) {
    x == 0 || And(x, x - 1) == 0
  }

  lemma {:induction false} AndSelf(x: nat)
    ensures And(x, x) == x
  {
    if x > 0 {
      AndSelf(x / 2);
    }
  }

  lemma {:induction false} MacroCorrect(x: nat)
    requires x > 0
    ensures MacroIsPow2(x) <==> IsPow2(x)
  {
    if x % 2 == 1 {
      AndSelf(x / 2);
      assert (x - 1) / 2 == x / 2;
    } else {
      assert (x - 1) / 2 == x / 2 - 1;
      MacroCorrect(x / 2);
    }
  }

  /** x has its highest bit at position h and its m highest bits set. */
  ghost predicate TopOnes(x: nat, h: nat, m: nat) {
    m <= h + 1 && Pow2(h + 1) - Pow2(h + 1 - m) <= x < Pow2(h + 1)
  }

  /** Or-ing a word whose bits from n up to k are ones with a word below 2^n. */
  lemma {:induction false} OrFills(a: nat, b: nat, k: nat, n: nat)
    requires n <= k && Pow2(k) - Pow2(n) <= a < Pow2(k) && b < Pow2(n)
    ensures Pow2(k) - Pow2(n) + b <= Or(a, b) < Pow2(k)
  {
    if n == 0 {
      AllOnes(a, k);
    } else {
      OrFills(a / 2, b / 2, k - 1, n - 1);
    }
  }

  lemma {:induction false} AllOnes(a: nat, k: nat)
    requires a == Pow2(k) - 1
    ensures Or(a, 0) == a
  {
    if k > 0 {
      AllOnes(a / 2, k - 1);
    }
  }

  /** x >> m. */
  function Shifted(x: nat, m: nat): nat
    decreases x + m
  {
    if m == 0 then x else Shifted(x / 2, m - 1)
  }

  /** Shifting a word whose bits from j up are ones. */
  lemma {:induction false} ShiftedOnes(x: nat, m: nat, n: nat, j: nat)
    requires Pow2(m + n) - Pow2(j) <= x < Pow2(m + n)
    ensures Pow2(n) - (if m <= j then Pow2(j - m) else 1) <= Shifted(x, m) < Pow2(n)
  {
    if m > 0 {
      ShiftedOnes(x / 2, m - 1, n, if j > 0 then j - 1 else 0);
    }
  }

  /** Or-ing a word with itself shifted by m doubles the run of ones at its top. */
  lemma Smear(x: nat, h: nat, m: nat)
    requires TopOnes(x, h, m)
    ensures TopOnes(Or(x, Shifted(x, m)), h, if 2 * m <= h + 1 then 2 * m else h + 1)
  {
    var n := h + 1 - m;
    ShiftedOnes(x, m, n, n);
    OrFills(x, Shifted(x, m), h + 1, n);
  }
}
