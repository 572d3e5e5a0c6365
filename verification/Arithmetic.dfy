/** The machine words of the firmware and the few facts of integer arithmetic that several of
    its components rest on. */
module Arithmetic {

  type Uint32 = x: int | 0 <= x < 0x1_0000_0000
  type Int32 = x: int | -0x8000_0000 <= x < 0x8000_0000
  type Int64 = x: int | -0x8000_0000_0000_0000 <= x < 0x8000_0000_0000_0000

  /** 2^k. */
  function Pow2(k: nat): (p: nat)
    ensures p > 0
  {
    if k == 0 then 1 else 2 * Pow2(k - 1)
  }

  lemma {:induction false} Pow2Rises(k: nat, n: nat)
    requires k <= n
    ensures Pow2(k) <= Pow2(n)
    decreases n - k
  {
    if k < n {
      Pow2Rises(k, n - 1);
    }
  }

  lemma Multiplied(a: nat, b: nat, d: nat)
    requires a <= b
    ensures a * d <= b * d
    ensures a < b && d > 0 ==> a * d < b * d
  {
  }

  lemma Division(t: nat, d: nat)
    requires d > 0
    ensures t == t / d * d + t % d && 0 <= t % d < d
  {
  }

  lemma QuotientBelow(a: nat, b: nat, d: nat)
    requires d > 0 && a < b * d
    ensures a / d < b
  {
    Division(a, d);
    if a / d >= b {
      Multiplied(b, a / d, d);
    }
  }

  lemma QuotientAtLeast(t: nat, a: nat, d: nat)
    requires d > 0 && t * d <= a
    ensures t <= a / d
  {
    Division(a, d);
    assert (a / d + 1) * d == a / d * d + d;
    if a / d < t {
      Multiplied(a / d + 1, t, d);
    }
  }

  lemma QuotientRises(a: nat, b: nat, d: nat)
    requires d > 0 && a <= b
    ensures a / d <= b / d
  {
    Division(a, d);
    QuotientAtLeast(a / d, b, d);
  }

  /** Quotient and remainder are unique. */
  lemma RemainderIs(x: nat, q: nat, m: nat, r: nat)
    requires x == q * m + r && r < m
    ensures x % m == r
  {
    Division(x, m);
    QuotientAtLeast(q, x, m);
    assert x < (q + 1) * m;
    QuotientBelow(x, q + 1, m);
  }
}
