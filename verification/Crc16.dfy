/** CRC-CCITT over a byte message: the table-driven computation of crc.c, the bit-serial
    division it stands for, and the error patterns the checksum is guaranteed to notice. */
module Crc16 {

  // The polynomial 0x1021, the start value 0xFFFF and the top bit 0x8000 are written as
  // literals: the solver evaluates bit-vector literals, not named constants.

  // ---------------------------------------------------------------- registers and bits

  function Xor(a: bv16, b: bv16): bv16 { a ^ b }

  predicate Top(r: bv16) { r & 0x8000 != 0 }

  function Shift(r: bv16): bv16 { r << 1 }

  function HighByte(d: bv8): bv16 { (d as bv16) << 8 }

  /** The n leading bits of a register, most significant first. */
  function WordBits(r: bv16, n: nat): (bits: seq<bool>)
    ensures |bits| == n
    decreases n
  {
    if n == 0 then [] else [Top(r)] + WordBits(Shift(r), n - 1)
  }

  /** The eight bits of an octet, most significant first. */
  function ByteBits(b: bv8): (bits: seq<bool>)
    ensures |bits| == 8
  {
    WordBits(HighByte(b), 8)
  }

  /** The bits of a message in transmission order. */
  function Bits(m: seq<bv8>): (bits: seq<bool>)
    ensures |bits| == 8 * |m|
  {
    if m == [] then [] else ByteBits(m[0]) + Bits(m[1..])
  }

  function Zeros(n: nat): (z: seq<bool>)
    ensures |z| == n && forall i :: 0 <= i < n ==> !z[i]
  {
    if n == 0 then [] else [false] + Zeros(n - 1)
  }

  // ---------------------------------------------------------------- long division on paper

  /** Exclusive or of a register onto the first sixteen bits of a bit string. */
  function XorWord(s: seq<bool>, r: bv16): (t: seq<bool>)
    ensures |t| == |s|
  {
    if s == [] then [] else [s[0] != Top(r)] + XorWord(s[1..], Shift(r))
  }

  /** Modulo-2 long division of a bit string by x^16 + x^12 + x^5 + 1: while more than
      sixteen bits are left, a leading one is cleared by subtracting the divisor. */
  function LongDivision(s: seq<bool>): (remainder: seq<bool>)
    requires |s| >= 16
    ensures |remainder| == 16
    decreases |s|
  {
    if |s| == 16 then s
    else LongDivision(if s[0] then XorWord(s[1..], 0x1021) else s[1..])
  }

  // ---------------------------------------------------------------- bit-serial register

  /** One step of the division in crcInit. */
  function DivideStep(r: bv16): bv16 {
    if Top(r) then Xor(Shift(r), 0x1021) else Shift(r)
  }

  function Divide(r: bv16, n: nat): bv16
    decreases n
  {
    if n == 0 then r else Divide(DivideStep(r), n - 1)
  }

  /** One message bit enters the remainder register. */
  function BitStep(r: bv16, b: bool): bv16 {
    if Top(r) != b then Xor(Shift(r), 0x1021) else Shift(r)
  }

  function Feed(r: bv16, bits: seq<bool>): bv16
    decreases |bits|
  {
    if bits == [] then r else Feed(BitStep(r, bits[0]), bits[1..])
  }

  lemma {:induction false} FeedAppend(r: bv16, a: seq<bool>, b: seq<bool>)
    ensures Feed(r, a + b) == Feed(Feed(r, a), b)
    decreases |a|
  {
    if a == [] {
      assert a + b == b;
    } else {
      assert (a + b)[1..] == a[1..] + b;
      FeedAppend(BitStep(r, a[0]), a[1..], b);
    }
  }

  lemma TopXor(a: bv16, b: bv16)
    ensures Top(Xor(a, b)) <==> Top(a) != Top(b)
  {
  }

  lemma ShiftXor(a: bv16, b: bv16)
    ensures Shift(Xor(a, b)) == Xor(Shift(a), Shift(b))
  {
  }

  lemma {:induction false} XorWordTwice(s: seq<bool>, a: bv16, b: bv16)
    ensures XorWord(XorWord(s, a), b) == XorWord(s, Xor(a, b))
    decreases |s|
  {
    hide Xor, Top, Shift;
    if s != [] {
      XorWordTwice(s[1..], Shift(a), Shift(b));
      TopXor(a, b);
      ShiftXor(a, b);
      assert XorWord(s, a)[1..] == XorWord(s[1..], Shift(a));
    }
  }

  lemma {:induction false} XorWordZeros(n: nat, r: bv16)
    ensures XorWord(Zeros(n), r) == WordBits(r, n)
    decreases n
  {
    if n > 0 {
      assert Zeros(n)[1..] == Zeros(n - 1);
      XorWordZeros(n - 1, Shift(r));
    }
  }

  /** The bit-serial register computes the remainder of the message followed by sixteen
      zeros, with the start value added onto the leading bits. */
  lemma {:induction false} FeedIsLongDivision(r: bv16, bits: seq<bool>)
    ensures WordBits(Feed(r, bits), 16) == LongDivision(XorWord(bits + Zeros(16), r))
    decreases |bits|
  {
    if bits == [] {
      assert bits + Zeros(16) == Zeros(16);
      XorWordZeros(16, r);
    } else {
      var s := XorWord(bits + Zeros(16), r);
      assert (bits + Zeros(16))[1..] == bits[1..] + Zeros(16);
      assert s[1..] == XorWord(bits[1..] + Zeros(16), Shift(r));
      XorWordTwice(bits[1..] + Zeros(16), Shift(r), 0x1021);
      FeedIsLongDivision(BitStep(r, bits[0]), bits[1..]);
    }
  }

  // ---------------------------------------------------------------- linearity

  lemma XorSwap(a: bv16, b: bv16, c: bv16)
    ensures Xor(Xor(a, c), b) == Xor(Xor(a, b), c)
  {
  }

  lemma XorAssoc(a: bv16, b: bv16, c: bv16)
    ensures Xor(a, Xor(b, c)) == Xor(Xor(a, b), c)
  {
  }

  lemma XorSelf(a: bv16)
    ensures Xor(a, a) == 0 && Xor(a, 0) == a
  {
  }

  lemma XorCancel(a: bv16, b: bv16, c: bv16)
    ensures Xor(Xor(a, c), Xor(b, c)) == Xor(a, b)
  {
    hide Xor;
    XorAssoc(Xor(a, c), b, c);
    XorSwap(a, b, c);
    XorAssoc(Xor(a, b), c, c);
    XorSelf(c);
    XorSelf(Xor(a, b));
  }

  lemma {:induction false} BitStepLinear(a: bv16, b: bv16, x: bool, y: bool)
    ensures BitStep(Xor(a, b), x != y) == Xor(BitStep(a, x), BitStep(b, y))
  {
    hide Xor, Top, Shift;
    TopXor(a, b);
    ShiftXor(a, b);
    XorSwap(Shift(a), Shift(b), 0x1021);
    XorAssoc(Shift(a), Shift(b), 0x1021);
    XorCancel(Shift(a), Shift(b), 0x1021);
  }

  lemma {:induction false} DivideStepLinear(a: bv16, b: bv16)
    ensures DivideStep(Xor(a, b)) == Xor(DivideStep(a), DivideStep(b))
  {
    hide Xor, Top, Shift;
    BitStepLinear(a, b, false, false);
  }

  lemma {:induction false} DivideLinear(a: bv16, b: bv16, n: nat)
    ensures Divide(Xor(a, b), n) == Xor(Divide(a, n), Divide(b, n))
    decreases n
  {
    hide Xor, DivideStep;
    if n > 0 {
      DivideStepLinear(a, b);
      DivideLinear(DivideStep(a), DivideStep(b), n - 1);
    }
  }

  function ShiftBy(x: bv16, n: nat): bv16
    decreases n
  {
    if n == 0 then x else ShiftBy(Shift(x), n - 1)
  }

  /** Dividing a register onto which the next n message bits were added is the same as
      feeding those bits one at a time. */
  lemma {:induction false} DivideIsFeed(r: bv16, x: bv16, n: nat)
    ensures Divide(Xor(r, x), n) == Xor(Feed(r, WordBits(x, n)), ShiftBy(x, n))
    decreases n
  {
    hide Xor, Top, Shift;
    if n > 0 {
      var next := BitStep(r, Top(x));
      TopXor(r, x);
      ShiftXor(r, x);
      XorSwap(Shift(r), Shift(x), 0x1021);
      XorAssoc(Shift(r), Shift(x), 0x1021);
      assert DivideStep(Xor(r, x)) == Xor(next, Shift(x));
      DivideIsFeed(next, Shift(x), n - 1);
      assert WordBits(x, n)[1..] == WordBits(Shift(x), n - 1);
    }
  }

  // ---------------------------------------------------------------- table and fast CRC

  function TopByte(r: bv16): bv8 { (r >> 8) as bv8 }

  function LowByte(r: bv16): bv8 { (r & 0xFF) as bv8 }

  /** Entry of the lookup table: an octet in the top half of the register, divided eight
      times. */
  function TableEntry(d: bv8): bv16 {
    Divide(HighByte(d), 8)
  }

  lemma TableLinear(a: bv8, b: bv8)
    ensures TableEntry(a ^ b) == Xor(TableEntry(a), TableEntry(b))
  {
    assert HighByte(a ^ b) == Xor(HighByte(a), HighByte(b));
    hide Xor, HighByte, Divide;
    DivideLinear(HighByte(a), HighByte(b), 8);
  }

  lemma ShiftEight(x: bv16)
    ensures ShiftBy(x, 8) == x << 8
  {
    assert ShiftBy(x, 8) == ShiftBy(Shift(Shift(Shift(Shift(x)))), 4);
  }

  /** While no one reaches the top bit, dividing only shifts. */
  lemma {:induction false} DivideClear(x: bv16, n: nat)
    requires WordBits(x, n) == Zeros(n)
    ensures Divide(x, n) == ShiftBy(x, n)
    decreases n
  {
    hide Top, Shift, Xor;
    if n > 0 {
      assert WordBits(x, n)[0] == Top(x) && !Zeros(n)[0];
      assert WordBits(x, n)[1..] == WordBits(Shift(x), n - 1) && Zeros(n)[1..] == Zeros(n - 1);
      DivideClear(Shift(x), n - 1);
    }
  }

  lemma LowByteBits(r: bv16)
    ensures WordBits(r & 0xFF, 8) == Zeros(8)
  {
    var x := r & 0xFF;
    assert WordBits(x << 4, 4) == Zeros(4);
    assert WordBits(x, 8)[4..] == WordBits(x << 4, 4);
  }

  lemma DivideLowByte(r: bv16)
    ensures Divide(r & 0xFF, 8) == r << 8
  {
    LowByteBits(r);
    DivideClear(r & 0xFF, 8);
    ShiftEight(r & 0xFF);
  }

  /** One octet of crcFast. */
  function ByteStep(r: bv16, d: bv8): bv16 {
    Xor(TableEntry(d ^ TopByte(r)), r << 8)
  }

  lemma SplitIndex(r: bv16, d: bv8)
    ensures Xor(r, HighByte(d)) == Xor(HighByte(d ^ TopByte(r)), r & 0xFF)
    ensures HighByte(d) << 8 == 0
  {
  }

  lemma ByteStepIsFeed(r: bv16, d: bv8)
    ensures ByteStep(r, d) == Feed(r, ByteBits(d))
  {
    SplitIndex(r, d);
    hide Xor, HighByte, TopByte, Divide;
    DivideLinear(HighByte(d ^ TopByte(r)), r & 0xFF, 8);
    DivideLowByte(r);
    DivideIsFeed(r, HighByte(d), 8);
    ShiftEight(HighByte(d));
    XorSelf(Feed(r, ByteBits(d)));
  }

  // ---------------------------------------------------------------- the checksum

  /** The checksum of a message, one bit at a time. */
  function Crc(m: seq<bv8>): bv16 {
    Feed(0xFFFF, Bits(m))
  }

  /** The checksum is the remainder, on paper, of the message followed by sixteen zeros with
      its first sixteen bits inverted. */
  lemma CrcIsLongDivision(m: seq<bv8>)
    ensures WordBits(Crc(m), 16) == LongDivision(XorWord(Bits(m) + Zeros(16), 0xFFFF))
  {
    FeedIsLongDivision(0xFFFF, Bits(m));
  }

  ghost predicate TableReady(table: seq<bv16>) {
    && |table| == 256
    && forall d: bv8 :: table[d as int] == TableEntry(d)
  }

  lemma TableReadyByIndex(table: seq<bv16>)
    requires |table| == 256
    requires forall k :: 0 <= k < 256 ==> table[k] == TableEntry(k as bv8)
    ensures TableReady(table)
  {
    hide TableEntry;
    forall d: bv8
      ensures table[d as int] == TableEntry(d)
    {
      assert (d as int) as bv8 == d;
    }
  }

  /** Populate the lookup table, each entry by eight steps of the division. */
  method CrcInit(crcTable: array<bv16>)
    requires crcTable.Length == 256
    modifies crcTable
    ensures TableReady(crcTable[..])
  {
    hide HighByte, Xor, Top, Shift;
    var dividend := 0;
    while dividend < 256
      invariant 0 <= dividend <= 256
      invariant forall k :: 0 <= k < dividend ==> crcTable[k] == TableEntry(k as bv8)
    {
      var remainder := HighByte(dividend as bv8);
      var bit := 8;
      while bit > 0
        invariant 0 <= bit <= 8
        invariant Divide(remainder, bit) == TableEntry(dividend as bv8)
      {
        if Top(remainder) {
          remainder := Xor(Shift(remainder), 0x1021);
        } else {
          remainder := Shift(remainder);
        }
        bit := bit - 1;
      }
      crcTable[dividend] := remainder;
      dividend := dividend + 1;
    }
    TableReadyByIndex(crcTable[..]);
  }

  lemma {:induction false} BitsAppend(a: seq<bv8>, b: seq<bv8>)
    ensures Bits(a + b) == Bits(a) + Bits(b)
    decreases |a|
  {
    if a == [] {
      assert a + b == b;
    } else {
      assert (a + b)[1..] == a[1..] + b;
      BitsAppend(a[1..], b);
    }
  }

  /** The remainder after one more octet, by table. */
  function LookUp(table: seq<bv16>, remainder: bv16, d: bv8): bv16
    requires TableReady(table)
  {
    var data := d ^ TopByte(remainder);
    Xor(table[data as int], remainder << 8)
  }

  /** One table look-up advances the checksum by one octet. */
  lemma FastStep(table: seq<bv16>, m: seq<bv8>, d: bv8)
    requires TableReady(table)
    ensures LookUp(table, Crc(m), d) == Crc(m + [d])
  {
    hide Xor, TopByte, ByteBits, TableEntry;
    BitsAppend(m, [d]);
    assert Bits([d]) == ByteBits(d);
    FeedAppend(0xFFFF, Bits(m), ByteBits(d));
    ByteStepIsFeed(Crc(m), d);
  }

  /** The table-driven computation, one octet at a time. */
  method CrcFast(crcTable: array<bv16>, message: array<bv8>, nBytes: nat) returns (crc: bv16)
    requires TableReady(crcTable[..])
    requires nBytes <= message.Length
    ensures crc == Crc(message[..nBytes])
  {
    hide LookUp, TableReady, Feed;
    var remainder: bv16 := 0xFFFF;
    assert Crc([]) == 0xFFFF by {
      NothingFed();
    }
    var i := 0;
    while i < nBytes
      invariant 0 <= i <= nBytes
      invariant remainder == Crc(message[..i])
    {
      hide Crc;
      FastStep(crcTable[..], message[..i], message[i]);
      assert message[..i + 1] == message[..i] + [message[i]];
      remainder := FastByte(crcTable, remainder, message[i]);
      i := i + 1;
    }
    crc := remainder;
  }

  /** The body of the loop of crcFast. */
  method FastByte(crcTable: array<bv16>, remainder: bv16, d: bv8) returns (next: bv16)
    requires TableReady(crcTable[..])
    ensures next == LookUp(crcTable[..], remainder, d)
  {
    var data := d ^ TopByte(remainder);
    next := Xor(crcTable[data as int], remainder << 8);
  }

  lemma NothingFed()
    ensures Crc([]) == 0xFFFF
  {
  }
}
