/** Binary logarithms, rounded down: the size classes of the allocator and the
    ranks of the splay tree. */
module Logs {
  function Log2(n: nat): nat
    requires n > 0
  {
    if n == 1 then 0 else 1 + Log2(n / 2)
  }

  function Pow2(n: nat): nat { if n == 0 then 1 else 2 * Pow2(n - 1) }

  /** Log2 is the position of the highest bit. */
  lemma {:induction false} Log2Bounds(n: nat)
    requires n > 0
    ensures Pow2(Log2(n)) <= n < 2 * Pow2(Log2(n))
  {
    if n > 1 { Log2Bounds(n / 2); }
  }

  lemma {:induction false} Log2Monotone(a: nat, b: nat)
    requires 0 < a <= b
    ensures Log2(a) <= Log2(b)
    decreases b
  {
    if a > 1 { Log2Monotone(a / 2, b / 2); }
  }

  /** Two disjoint parts cannot both have the rank of the whole. */
  lemma {:induction false} TwoParts(a: nat, b: nat, whole: nat)
    requires 0 < a && 0 < b && a + b <= whole
    ensures Log2(a) + Log2(b) + 1 <= 2 * Log2(whole)
    decreases whole
  {
    Log2Monotone(a, whole);
    Log2Monotone(b, whole);
    if a == 1 || b == 1 {
      Log2Monotone(2, whole);
      assert Log2(2) == 1 + Log2(1);
      if a > 1 || b > 1 { OneAndMore(if a == 1 then b else a, whole); }
    } else {
      TwoParts(a / 2, b / 2, whole / 2);
    }
  }

  lemma OneAndMore(a: nat, whole: nat)
    requires 1 < a && a + 1 <= whole
    ensures Log2(a) + 1 <= 2 * Log2(whole)
  {
    Log2Monotone(a, whole);
    Log2Monotone(2, a);
  }
}
