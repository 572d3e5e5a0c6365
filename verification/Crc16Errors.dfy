/** What the checksum is for: which corruptions of a message it cannot miss, and why a
    message followed by its own checksum leaves the remainder zero. */
module Crc16Errors {
  import opened Crc16

  // ---------------------------------------------------------------- message followed by its checksum

  function Widen(lo: bv8): bv16 { lo as bv16 }

  /** The sixteen-bit value of two octets, most significant first. */
  function Word(hi: bv8, lo: bv8): bv16 {
    Xor(HighByte(hi), Widen(lo))
  }

  lemma {:induction false} WordBitsAppend(x: bv16, m: nat, n: nat)
    ensures WordBits(x, m + n) == WordBits(x, m) + WordBits(ShiftBy(x, m), n)
    ensures ShiftBy(x, m + n) == ShiftBy(ShiftBy(x, m), n)
    decreases m
  {
    hide Top, Shift;
    if m > 0 {
      WordBitsAppend(Shift(x), m - 1, n);
      var a, b := WordBits(Shift(x), m - 1), WordBits(ShiftBy(x, m), n);
      assert [Top(x)] + (a + b) == [Top(x)] + a + b;
    }
  }

  lemma {:induction false} WordBitsXor(h: bv16, l: bv16, n: nat)
    requires WordBits(l, n) == Zeros(n)
    ensures WordBits(Xor(h, l), n) == WordBits(h, n)
    decreases n
  {
    hide Top, Shift, Xor;
    if n > 0 {
      TopXor(h, l);
      ShiftXor(h, l);
      assert WordBits(l, n)[0] == Top(l) && !Zeros(n)[0];
      assert WordBits(l, n)[1..] == WordBits(Shift(l), n - 1) && Zeros(n)[1..] == Zeros(n - 1);
      WordBitsXor(Shift(h), Shift(l), n - 1);
    }
  }

  lemma LowHalf(hi: bv8, lo: bv8)
    ensures ShiftBy(Word(hi, lo), 8) == HighByte(lo)
  {
    assert ((((hi as bv16) << 8) ^ (lo as bv16)) << 8) == (lo as bv16) << 8;
    ShiftEight(Word(hi, lo));
  }

  lemma ShiftOut(b: bv8)
    ensures ShiftBy(HighByte(b), 8) == 0
  {
    ShiftEight(HighByte(b));
  }

  lemma WidenBits(lo: bv8)
    ensures WordBits(Widen(lo), 8) == Zeros(8)
  {
    LowByteBits(Widen(lo));
  }

  lemma WordOfBytes(hi: bv8, lo: bv8)
    ensures WordBits(Word(hi, lo), 16) == ByteBits(hi) + ByteBits(lo)
    ensures ShiftBy(Word(hi, lo), 16) == 0
  {
    hide HighByte, Widen, Xor;
    WidenBits(lo);
    WordBitsXor(HighByte(hi), Widen(lo), 8);
    WordBitsAppend(Word(hi, lo), 8, 8);
    LowHalf(hi, lo);
    ShiftOut(lo);
  }

  lemma DivideStepZero(r: bv16)
    ensures DivideStep(r) == 0 <==> r == 0
  {
  }

  lemma {:induction false} DivideZero(r: bv16, n: nat)
    ensures Divide(r, n) == 0 <==> r == 0
    decreases n
  {
    hide DivideStep;
    if n > 0 {
      DivideStepZero(r);
      DivideZero(DivideStep(r), n - 1);
    }
  }

  /** Adding the same register twice changes nothing. */
  lemma XorTwice(c: bv16, a: bv16)
    ensures Xor(c, Xor(c, a)) == a
  {
    hide Xor;
    XorAssoc(c, c, a);
    XorSelf(c);
    XorAssoc(a, a, a);
    XorSelf(a);
  }

  lemma XorInjective(c: bv16, a: bv16, b: bv16)
    ensures Xor(c, a) == Xor(c, b) <==> a == b
  {
    hide Xor;
    XorTwice(c, a);
    XorTwice(c, b);
  }

  lemma XorZero(a: bv16, b: bv16)
    ensures Xor(a, b) == 0 <==> a == b
  {
    hide Xor;
    XorSelf(a);
    XorInjective(a, a, b);
  }

  /** Appending two octets brings the checksum to zero exactly when they spell it. */
  lemma SelfCheck(m: seq<bv8>, hi: bv8, lo: bv8)
    ensures Crc(m + [hi, lo]) == 0 <==> Crc(m) == Word(hi, lo)
  {
    hide Word, Xor, ByteBits, Divide;
    var r, x := Crc(m), Word(hi, lo);
    BitsAppend(m, [hi, lo]);
    assert Bits([hi, lo]) == ByteBits(hi) + ByteBits(lo) by {
      assert [hi, lo][1..] == [lo];
      assert Bits([lo]) == ByteBits(lo);
    }
    FeedAppend(0xFFFF, Bits(m), Bits([hi, lo]));
    WordOfBytes(hi, lo);
    DivideIsFeed(r, x, 16);
    XorSelf(Feed(r, WordBits(x, 16)));
    DivideZero(Xor(r, x), 16);
    XorZero(r, x);
  }

  // ---------------------------------------------------------------- bursts

  function Diff(a: seq<bool>, b: seq<bool>): (d: seq<bool>)
    requires |a| == |b|
    ensures |d| == |a|
    ensures forall i :: 0 <= i < |a| ==> d[i] == (a[i] != b[i])
  {
    seq(|a|, i requires 0 <= i < |a| => a[i] != b[i])
  }

  lemma {:induction false} FeedLinear(q: bv16, r: bv16, a: seq<bool>, b: seq<bool>)
    requires |a| == |b|
    ensures Feed(Xor(q, r), Diff(a, b)) == Xor(Feed(q, a), Feed(r, b))
    decreases |a|
  {
    hide Xor, BitStep;
    if a != [] {
      BitStepLinear(q, r, a[0], b[0]);
      assert Diff(a, b)[1..] == Diff(a[1..], b[1..]);
      FeedLinear(BitStep(q, a[0]), BitStep(r, b[0]), a[1..], b[1..]);
    }
  }

  /** The register mask 0xFFFF >> k. */
  function Mask(k: nat): bv16
    requires k <= 15
  {
    [0xFFFF, 0x7FFF, 0x3FFF, 0x1FFF, 0x0FFF, 0x07FF, 0x03FF, 0x01FF,
     0x00FF, 0x007F, 0x003F, 0x001F, 0x000F, 0x0007, 0x0003, 0x0001][k]
  }

  predicate Meets(r: bv16, m: bv16) { r & m != 0 }

  lemma MaskOdd(k: nat)
    requires k <= 15
    ensures Meets(1, Mask(k)) && Meets(0x1021, Mask(k))
  {
  }

  lemma MaskStep(k: nat)
    requires 0 < k <= 15
    ensures Mask(k) == Mask(k - 1) >> 1
  {
  }

  lemma BitStepMask(r: bv16, b: bool, m: bv16)
    requires Meets(1, m) && Meets(r, m >> 1)
    ensures Meets(BitStep(r, b), m)
  {
  }

  lemma MeetsAll(r: bv16, m: bv16)
    ensures Meets(r, m) ==> r != 0
  {
  }

  /** A register with a one among its low 16 - k bits cannot be cleared by k more bits. */
  lemma {:induction false} FeedNonZero(r: bv16, bits: seq<bool>)
    requires |bits| <= 15
    requires Meets(r, Mask(|bits|))
    ensures Feed(r, bits) != 0
    decreases |bits|
  {
    hide BitStep, Meets, Mask;
    MeetsAll(r, Mask(|bits|));
    if bits != [] {
      MaskStep(|bits|);
      MaskOdd(|bits| - 1);
      BitStepMask(r, bits[0], Mask(|bits| - 1));
      FeedNonZero(BitStep(r, bits[0]), bits[1..]);
    }
  }

  lemma BitStepFalse(r: bv16)
    ensures BitStep(r, false) == 0 <==> r == 0
    ensures BitStep(0, true) == 0x1021
  {
  }

  lemma {:induction false} FeedZeros(r: bv16, bits: seq<bool>)
    requires forall i :: 0 <= i < |bits| ==> !bits[i]
    ensures Feed(r, bits) == 0 <==> r == 0
    decreases |bits|
  {
    hide BitStep;
    if bits != [] {
      BitStepFalse(r);
      FeedZeros(BitStep(r, bits[0]), bits[1..]);
    }
  }

  /** An error pattern whose ones lie within sixteen consecutive bits, the first at j. */
  lemma BurstNonZero(d: seq<bool>, j: nat)
    requires j < |d| && d[j]
    requires forall i :: 0 <= i < j || j + 16 <= i < |d| ==> !d[i]
    ensures Feed(0, d) != 0
  {
    hide BitStep, Meets, Mask;
    var k := if j + 16 <= |d| then j + 16 else |d|;
    var before, middle, after := d[..j], d[j + 1..k], d[k..];
    assert d == before + ([true] + middle + after);
    assert ([true] + middle + after)[1..] == middle + after;
    FeedAppend(0, before, [true] + middle + after);
    FeedZeros(0, before);
    BitStepFalse(0);
    FeedAppend(0x1021, middle, after);
    MaskOdd(|middle|);
    FeedNonZero(0x1021, middle);
    FeedZeros(Feed(0x1021, middle), after);
  }

  lemma HighByteInjective(a: bv8, b: bv8)
    ensures HighByte(a) == HighByte(b) <==> a == b
  {
  }

  lemma ByteBitsInjective(a: bv8, b: bv8)
    requires ByteBits(a) == ByteBits(b)
    ensures a == b
  {
    HighByteInjective(a, b);
    hide Xor, HighByte;
    var x, y := HighByte(a), HighByte(b);
    ShiftOut(a);
    ShiftOut(b);
    DivideIsFeed(0, x, 8);
    DivideIsFeed(0, y, 8);
    DivideLinear(Xor(0, x), Xor(0, y), 8);
    DivideZero(Xor(Xor(0, x), Xor(0, y)), 8);
    XorZero(Divide(Xor(0, x), 8), Divide(Xor(0, y), 8));
    XorZero(Xor(0, x), Xor(0, y));
    XorInjective(0, x, y);
  }

  lemma {:induction false} BitsInjective(a: seq<bv8>, b: seq<bv8>)
    requires |a| == |b| && Bits(a) == Bits(b)
    ensures a == b
    decreases |a|
  {
    hide ByteBits;
    if a != [] {
      assert ByteBits(a[0]) == Bits(a)[..8] == Bits(b)[..8] == ByteBits(b[0]);
      ByteBitsInjective(a[0], b[0]);
      assert Bits(a[1..]) == Bits(a)[8..] == Bits(b)[8..] == Bits(b[1..]);
      BitsInjective(a[1..], b[1..]);
    }
  }

  lemma FirstOne(d: seq<bool>) returns (j: nat)
    requires exists i :: 0 <= i < |d| && d[i]
    ensures j < |d| && d[j] && forall i :: 0 <= i < j ==> !d[i]
  {
    j := 0;
    while !d[j]
      invariant j < |d| && forall i :: 0 <= i < j ==> !d[i]
      decreases |d| - j
    {
      j := j + 1;
    }
  }

  ghost predicate DifferWithin(a: seq<bool>, b: seq<bool>, p: nat, width: nat)
    requires |a| == |b|
  {
    forall i :: 0 <= i < |a| && a[i] != b[i] ==> p <= i < p + width
  }

  /** Two different messages of one length whose bits differ only within sixteen consecutive
      places have different checksums. */
  lemma BurstDetected(a: seq<bv8>, b: seq<bv8>, p: nat)
    requires |a| == |b| && a != b
    requires DifferWithin(Bits(a), Bits(b), p, 16)
    ensures Crc(a) != Crc(b)
  {
    var d := Diff(Bits(a), Bits(b));
    if forall i :: 0 <= i < |d| ==> !d[i] {
      assert forall i :: 0 <= i < |d| ==> !d[i] ==> Bits(a)[i] == Bits(b)[i];
      assert Bits(a) == Bits(b);
      BitsInjective(a, b);
    }
    var j := FirstOne(d);
    BurstNonZero(d, j);
    FeedLinear(0xFFFF, 0xFFFF, Bits(a), Bits(b));
    XorSelf(0xFFFF);
    XorZero(Crc(a), Crc(b));
  }

  // ---------------------------------------------------------------- odd numbers of flipped bits

  /** Whether a bit string holds an odd number of ones. */
  function Odd(s: seq<bool>): bool {
    if s == [] then false else s[0] != Odd(s[1..])
  }

  lemma {:induction false} OddAppend(a: seq<bool>, b: seq<bool>)
    ensures Odd(a + b) == (Odd(a) != Odd(b))
    decreases |a|
  {
    if a == [] {
      assert a + b == b;
    } else {
      assert (a + b)[1..] == a[1..] + b;
      OddAppend(a[1..], b);
    }
  }

  lemma {:induction false} OddXorWord(s: seq<bool>, r: bv16)
    ensures Odd(XorWord(s, r)) == (Odd(s) != Odd(WordBits(r, |s|)))
    decreases |s|
  {
    hide Top, Shift;
    if s != [] {
      OddXorWord(s[1..], Shift(r));
      assert XorWord(s, r)[1..] == XorWord(s[1..], Shift(r));
      assert WordBits(r, |s|)[1..] == WordBits(Shift(r), |s| - 1);
    }
  }

  lemma {:induction false} OddZeros(n: nat)
    ensures !Odd(WordBits(0, n)) && !Odd(Zeros(n))
    decreases n
  {
    if n > 0 {
      OddZeros(n - 1);
      assert WordBits(0, n)[1..] == WordBits(0, n - 1);
    }
  }

  /** The divisor has four terms: its leading one and three more below. */
  lemma OddDivisor(n: nat)
    requires n >= 16
    ensures Odd(WordBits(0x1021, n))
  {
    hide WordBits, Odd;
    OddNibble(0x1021, n);
    OddNibble(0x0210, n - 4);
    OddNibble(0x2100, n - 8);
    OddNibble(0x1000, n - 12);
    OddZeros(n - 16);
  }

  lemma {:induction false} OddFirst(r: bv16, n: nat)
    requires n >= 1
    ensures Odd(WordBits(r, n)) == (Top(r) != Odd(WordBits(Shift(r), n - 1)))
  {
    hide Top, Shift;
    assert WordBits(r, n)[1..] == WordBits(Shift(r), n - 1);
  }

  lemma OddNibble(r: bv16, n: nat)
    requires n >= 4
    ensures var r1, r2, r3 := Shift(r), Shift(Shift(r)), Shift(Shift(Shift(r)));
            Odd(WordBits(r, n))
            == ((Top(r) != Top(r1)) != ((Top(r2) != Top(r3)) != Odd(WordBits(Shift(r3), n - 4))))
  {
    hide Top, Shift, WordBits, Odd;
    OddFirst(r, n);
    OddFirst(Shift(r), n - 1);
    OddFirst(Shift(Shift(r)), n - 2);
    OddFirst(Shift(Shift(Shift(r))), n - 3);
  }

  /** Division keeps the parity of the number of ones. */
  lemma {:induction false} OddDivision(s: seq<bool>)
    requires |s| >= 16
    ensures Odd(LongDivision(s)) == Odd(s)
    decreases |s|
  {
    if |s| > 16 {
      OddXorWord(s[1..], 0x1021);
      OddDivisor(|s| - 1);
      OddDivision(if s[0] then XorWord(s[1..], 0x1021) else s[1..]);
    }
  }

  lemma {:induction false} OddDiff(a: seq<bool>, b: seq<bool>)
    requires |a| == |b|
    ensures Odd(Diff(a, b)) == (Odd(a) != Odd(b))
    decreases |a|
  {
    if a != [] {
      assert Diff(a, b)[1..] == Diff(a[1..], b[1..]);
      OddDiff(a[1..], b[1..]);
    }
  }

  lemma OddCrc(m: seq<bv8>)
    ensures Odd(WordBits(Crc(m), 16))
         == (Odd(Bits(m)) != Odd(WordBits(0xFFFF, 8 * |m| + 16)))
  {
    hide Odd, LongDivision, XorWord, WordBits, Bits, Crc;
    var x := Bits(m) + Zeros(16);
    CrcIsLongDivision(m);
    OddDivision(XorWord(x, 0xFFFF));
    OddXorWord(x, 0xFFFF);
    OddAppend(Bits(m), Zeros(16));
    OddZeros(16);
  }

  /** Two messages of one length that differ in an odd number of bits have different
      checksums. */
  lemma OddErrorsDetected(a: seq<bv8>, b: seq<bv8>)
    requires |a| == |b| && Odd(Diff(Bits(a), Bits(b)))
    ensures Crc(a) != Crc(b)
  {
    OddCrc(a);
    OddCrc(b);
    OddDiff(Bits(a), Bits(b));
  }
}
