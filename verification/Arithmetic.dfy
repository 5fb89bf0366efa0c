/** Products, quotients and remainders: what the solver does not find by itself
    where two factors are both unknown. */
module Arithmetic {
  lemma TimesMonotone(x: int, y: int, a: nat)
    requires x <= y
    ensures x * a <= y * a
  {
    assert (y - x) * a >= 0;
  }

  /** A whole element lies before the next. */
  lemma OneBefore(i: int, j: int, a: nat)
    requires i < j
    ensures i * a + a <= j * a
  {
    TimesMonotone(i + 1, j, a);
    assert (i + 1) * a == i * a + a;
  }

  lemma OneQuotient(q: int, r: int, d: int, m: int, a: nat)
    requires q * a + r == d * a + m && 0 <= r < a && 0 <= m < a
    ensures q == d && r == m
  {
    if q < d { OneBefore(q, d, a); }
    if d < q { OneBefore(d, q, a); }
  }

  lemma DivMod(n: nat, a: nat)
    requires a > 0
    ensures n == n / a * a + n % a && 0 <= n % a < a
  {}

  lemma ModOfMultiple(q: nat, a: nat)
    requires a > 0
    ensures q * a % a == 0 && q * a / a == q
  {
    var n := q * a;
    DivMod(n, a);
    OneQuotient(q, 0, n / a, n % a, a);
  }

  lemma MultipleTimes(n: nat, k: nat, a: nat)
    requires a > 0 && n % a == 0
    ensures n * k % a == 0
  {
    var q := n / a;
    DivMod(n, a);
    assert n * k == (q * k) * a by { Reassociated(k, q, a); }
    ModOfMultiple(q * k, a);
  }

  lemma Distributed(x: nat, y: nat, a: nat)
    ensures (x + y) * a == x * a + y * a
  {}

  lemma Reassociated(a: nat, b: nat, c: nat)
    ensures a * (b * c) == (a * b) * c
  {}

  lemma Split(q: nat, k: nat, small: nat, large: nat)
    requires large == k * small
    ensures q * large == (q * k) * small
  {
    Reassociated(q, k, small);
  }

  lemma NoMultipleBetween(d: nat, q: nat, n: nat, a: nat)
    requires d * a < n + a && q * a >= n
    ensures d * a <= q * a
  {
    if q < d { OneBefore(q, d, a); }
    TimesMonotone(if d <= q then d else q, q, a);
  }
}
