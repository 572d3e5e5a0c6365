/** The fixed-point routines of my_math.c: the digit-by-digit square root and the arc tangent by
    table and interpolation. */
module FixedMath {
  import opened Arithmetic

  // ---------------------------------------------------------------- square root

  /** The largest integer whose square is at most n. */
  ghost predicate IsRoot(n: nat, r: nat) {
    r * r <= n < (r + 1) * (r + 1)
  }

  /** What the digit loop has found: r is right except for its last digits, whose places are
      below s, a power of two. */
  ghost predicate Digits(n: nat, op: nat, res: nat, one: nat, r: nat, s: nat) {
    && one == s * s && res == 2 * r * s && op + r * r == n
    && n < (r + 2 * s) * (r + 2 * s) && r + 2 * s <= 0x1_0000
  }

  lemma TakeDigit(n: nat, op: nat, res: nat, one: nat, r: nat, s: nat)
    requires Digits(n, op, res, one, r, s) && s > 0
    ensures op >= res + one <==> (r + s) * (r + s) <= n
    ensures res + 2 * one < 0x1_0000_0000
    ensures op >= res + one ==> op - (res + one) + (r + s) * (r + s) == n
    ensures res + 2 * one == 2 * ((r + s) * s) && res == 2 * (r * s)
  {
    assert (r + s) * (r + s) == r * r + 2 * r * s + s * s;
    assert 2 * r * s == 2 * (r * s) && (r + s) * s == r * s + s * s;
    assert (r + s) * s <= (0x1_0000 - s) * s;
    assert (0x1_0000 - s) * s <= 0x8000 * 0x8000 by {
      assert (0x8000 - s) * (0x8000 - s) >= 0;
    }
  }

  lemma Halves(k: nat)
    ensures k > 0 ==> Pow2(k) == 2 * Pow2(k - 1) && Pow2(k) * Pow2(k) == 4 * (Pow2(k - 1) * Pow2(k - 1))
    ensures k > 0 ==> Pow2(k - 1) * Pow2(k - 1) > 0
    ensures k == 0 ==> Pow2(k) == 1
  {
  }

  /** Halving the place of the digit; after the last digit the root is complete. */
  lemma NextPlace(n: nat, op: nat, res: nat, one: nat, r: nat, k: nat)
    requires one == Pow2(k) * Pow2(k) && res == r * Pow2(k) && op + r * r == n
    requires n < (r + Pow2(k)) * (r + Pow2(k)) && r + Pow2(k) <= 0x1_0000
    ensures k > 0 ==> Digits(n, op, res, one / 4, r, Pow2(k - 1)) && one / 4 > 0
    ensures k == 0 ==> IsRoot(n, r) && res == r && one / 4 == 0
  {
    Halves(k);
    hide Pow2;
    if k > 0 {
      DoubledFactor(r, Pow2(k - 1));
    }
  }

  lemma DoubledFactor(r: nat, s: nat)
    ensures r * (2 * s) == 2 * r * s
  {
  }

  lemma Pow2Of15()
    ensures Pow2(15) == 0x8000
  {
    assert Pow2(5) == 32 && Pow2(10) == 1024;
  }

  /** The first loop: the highest power of four that is at most n. */
  method HighestPlace(n: nat) returns (one: nat, ghost k: nat)
    requires n < 0x1_0000_0000
    ensures one > 0 ==> Digits(n, n, 0, one, 0, Pow2(k))
    ensures one == 0 <==> n == 0
  {
    hide Pow2, Digits;
    k := 15;
    Pow2Of15();
    one := 0x4000_0000;
    while one > n
      invariant one > 0 ==> one == Pow2(k) * Pow2(k) && n < 4 * one && Pow2(k) <= 0x8000
      invariant one == 0 ==> n == 0
    {
      Halves(k);
      one := one / 4;
      if k > 0 {
        k := k - 1;
      }
    }
    FirstDigits(n, one, Pow2(k));
  }

  lemma FirstDigits(n: nat, one: nat, s: nat)
    requires one > 0 ==> one == s * s && n < 4 * one && s <= 0x8000
    ensures one > 0 ==> Digits(n, n, 0, one, 0, s)
  {
    assert (0 + 2 * s) * (0 + 2 * s) == 4 * (s * s);
  }

  /** my_square_root on any 32-bit number: 256 times the integer square root. No intermediate
      value leaves the 32 bits. */
  method MySquareRoot(n: nat) returns (res: nat)
    requires n < 0x1_0000_0000
    ensures res < 0x1_0000_0000 && res % 256 == 0 && IsRoot(n, res / 256)
  {
    hide Pow2;
    var op: nat := n;
    res := 0;
    var one: nat;
    ghost var k: nat;
    one, k := HighestPlace(n);
    ghost var r: nat := 0;
    while one != 0
      invariant one > 0 ==> Digits(n, op, res, one, r, Pow2(k))
      invariant one == 0 ==> IsRoot(n, r) && res == r
      decreases one
    {
      ghost var s := Pow2(k);
      TakeDigit(n, op, res, one, r, s);
      if op >= res + one {
        op := op - (res + one);
        res := res + 2 * one;
        r := r + s;
      }
      res := res / 2;
      NextPlace(n, op, res, one, r, k);
      one := one / 4;
      if k > 0 {
        k := k - 1;
      }
    }
    RootIsSmall(n, r);
    assert res == r;
    res := res * 256;
  }

  lemma Increasing(a: nat, b: nat)
    requires a <= b
    ensures a * a <= b * b
  {
  }

  lemma RootIsSmall(n: nat, r: nat)
    requires n < 0x1_0000_0000 && IsRoot(n, r)
    ensures r < 0x1_0000
  {
    if r >= 0x1_0000 {
      Increasing(0x1_0000, r);
    }
  }

  /** There is one root only. */
  lemma RootIsUnique(n: nat, a: nat, b: nat)
    requires IsRoot(n, a) && IsRoot(n, b)
    ensures a == b
  {
    if a < b {
      Increasing(a + 1, b);
    } else if b < a {
      Increasing(b + 1, a);
    }
  }

  /** Read as 16.16 numbers, the result is the square root to within 256 units. */
  lemma FixedPointRoot(n: nat, res: nat)
    requires res % 256 == 0 && IsRoot(n, res / 256)
    ensures res * res <= n * 0x1_0000 < (res + 256) * (res + 256)
  {
    var r := res / 256;
    assert res == 256 * r && res + 256 == 256 * (r + 1);
    assert res * res == 0x1_0000 * (r * r);
    assert (res + 256) * (res + 256) == 0x1_0000 * ((r + 1) * (r + 1));
  }
}
