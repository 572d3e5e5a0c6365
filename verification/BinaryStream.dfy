/** The bit streams of the ground station (BinaryStream.h). A byte or an unsigned integer is the
    sequence of its bits, most significant first. */
module BinaryStream {

  type Bits = seq<bool>

  // ---------------------------------------------------------------- words of bits

  function Zeros(n: nat): (z: Bits)
    ensures |z| == n && forall i :: 0 <= i < n ==> !z[i]
  {
    seq(n, _ => false)
  }

  /** (1 << k) - 1, in a word of n bits. */
  function Mask(n: nat, k: nat): (m: Bits)
    requires k <= n
    ensures |m| == n && forall i :: 0 <= i < n ==> m[i] == (i >= n - k)
  {
    seq(n, i => i >= n - k)
  }

  function Or(a: Bits, b: Bits): (r: Bits)
    requires |a| == |b|
    ensures |r| == |a| && forall i :: 0 <= i < |a| ==> r[i] == (a[i] || b[i])
  {
    seq(|a|, i requires 0 <= i < |a| => a[i] || b[i])
  }

  function And(a: Bits, b: Bits): (r: Bits)
    requires |a| == |b|
    ensures |r| == |a| && forall i :: 0 <= i < |a| ==> r[i] == (a[i] && b[i])
  {
    seq(|a|, i requires 0 <= i < |a| => a[i] && b[i])
  }

  function Not(a: Bits): (r: Bits)
    ensures |r| == |a| && forall i :: 0 <= i < |a| ==> r[i] == !a[i]
  {
    seq(|a|, i requires 0 <= i < |a| => !a[i])
  }

  function Shl(a: Bits, k: nat): (r: Bits)
    requires k <= |a|
    ensures |r| == |a|
  {
    a[k..] + Zeros(k)
  }

  function Shr(a: Bits, k: nat): (r: Bits)
    requires k <= |a|
    ensures |r| == |a|
  {
    Zeros(k) + a[..|a| - k]
  }

  /** A conversion to an unsigned type of n bits. */
  function Cast(a: Bits, n: nat): (r: Bits)
    ensures |r| == n
  {
    if n < |a| then a[|a| - n..] else Zeros(n - |a|) + a
  }

  predicate Bytes(v: seq<Bits>) {
    forall i :: 0 <= i < |v| ==> |v[i]| == 8
  }

  /** The bits of a byte vector. */
  function Flat(v: seq<Bits>): (r: Bits)
    requires Bytes(v)
    ensures |r| == 8 * |v|
  {
    if v == [] then [] else v[0] + Flat(v[1..])
  }

  lemma {:induction false} FlatAppend(a: seq<Bits>, b: seq<Bits>)
    requires Bytes(a) && Bytes(b)
    ensures Bytes(a + b) && Flat(a + b) == Flat(a) + Flat(b)
    decreases |a|
  {
    if a == [] {
      assert a + b == b;
    } else {
      assert (a + b)[1..] == a[1..] + b;
      FlatAppend(a[1..], b);
    }
  }

  lemma {:induction false} FlatOne(x: Bits)
    requires |x| == 8
    ensures Flat([x]) == x
  {
    assert [x][1..] == [];
    assert Flat([x][1..]) == [];
  }

  /** The next byte of a vector and what follows it. */
  lemma {:induction false} FlatFrom(v: seq<Bits>, i: nat)
    requires Bytes(v) && i < |v|
    ensures Bytes(v[i..]) && Bytes(v[i + 1..]) && Flat(v[i..]) == v[i] + Flat(v[i + 1..])
  {
    assert v[i..][1..] == v[i + 1..];
  }

  /** Putting bits next to others in a word that is zero there. */
  lemma OrPlaces(a: nat, x: Bits, y: Bits, b: nat)
    ensures Or(Zeros(a) + x + Zeros(|y| + b), Zeros(a + |x|) + y + Zeros(b)) == Zeros(a) + x + y + Zeros(b)
  {
  }

  lemma CastShifted(x: Bits, n: nat, k: nat)
    requires |x| + k <= n
    ensures Shl(Cast(x, n), k) == Zeros(n - |x| - k) + x + Zeros(k)
  {
    assert Cast(x, n) == Zeros(n - |x|) + x;
    assert (Zeros(n - |x|) + x)[k..] == Zeros(n - |x| - k) + x;
  }

  lemma ShlSmall(a: nat, x: Bits, k: nat)
    requires k <= a
    ensures Shl(Zeros(a) + x, k) == Zeros(a - k) + x + Zeros(k)
  {
    assert (Zeros(a) + x)[k..] == Zeros(a - k) + x;
  }

  /** Shifting down and masking cuts a field out of a word. */
  lemma Extract(b: Bits, k: nat, w: nat)
    requires k + w <= |b|
    ensures And(Shr(b, k), Mask(|b|, w)) == Zeros(|b| - w) + b[|b| - k - w..|b| - k]
  {
  }

  lemma CastGrows(a: nat, x: Bits, n: nat)
    requires a + |x| <= n
    ensures Cast(Zeros(a) + x, n) == Zeros(n - |x|) + x
  {
  }

  /** The low bits of a byte, shifted up in a wider word. */
  lemma LowBitsUp(b: Bits, k: nat, n: nat, up: nat)
    requires |b| == 8 && k <= 8 <= n && k + up <= n
    ensures Shl(Cast(And(b, Mask(8, k)), n), up) == Zeros(n - k - up) + b[8 - k..] + Zeros(up)
  {
    hide Zeros, And, Shr, Mask, Cast, Shl;
    var x := b[8 - k..];
    ShrNothing(b);
    Extract(b, 0, k);
    assert b[8 - k..8] == x;
    CastGrows(8 - k, x, n);
    ShlSmall(n - k, x, up);
  }

  /** The high bits of a byte, at the bottom of a wider word that is zero there. */
  lemma HighBitsDown(a: nat, top: Bits, b: Bits, k: nat)
    requires |b| == 8 && k <= 8 <= a + |top| + k
    ensures Or(Zeros(a) + top + Zeros(k), Cast(And(Shr(b, 8 - k), Mask(8, k)), a + |top| + k)) == Zeros(a) + top + b[..k]
  {
    hide And, Shr, Mask, Cast, Or;
    var x := b[..k];
    Extract(b, 8 - k, k);
    assert b[8 - (8 - k) - k..8 - (8 - k)] == x;
    CastGrows(8 - k, x, a + |top| + k);
    OrPlaces(a, top, x, 0);
    assert Zeros(a) + top + Zeros(|x| + 0) == Zeros(a) + top + Zeros(k);
    assert Zeros(a + |top|) + x + Zeros(0) == Zeros(a + |top|) + x;
    assert Zeros(a) + top + x + Zeros(0) == Zeros(a) + top + x;
  }

  lemma ShrNothing(b: Bits)
    ensures Shr(b, 0) == b
  {
  }

  lemma Pieces(all: Bits, a: Bits, b: Bits, rest: Bits, k: nat)
    requires all == a + (b + rest) && k <= |rest|
    ensures all[..|a| + |b| + k] == a + b + rest[..k] && all[|a| + |b| + k..] == rest[k..]
  {
  }

  /** How a field of w bits lies across bytes, of which `cur` bits are left in the first. */
  method Layout(cur: nat, w: nat) returns (last: nat, wholeBytes: nat)
    requires 1 <= cur <= 8 && cur < w
    ensures last < 8 && w == cur + 8 * wholeBytes + last
  {
    last := (w - cur) % 8;
    var remainder := w % 8;
    var bitsUsedRoundUp := if remainder == 0 then w else w + 8 - remainder;
    wholeBytes := (bitsUsedRoundUp - (cur + last)) / 8;
  }

  // ---------------------------------------------------------------- reading

  /** The bits from bit b of byte i on. */
  function UnreadFrom(v: seq<Bits>, i: nat, b: int): Bits
    requires Bytes(v) && i <= |v| && 0 <= b <= 7 && (i == |v| ==> b == 7)
  {
    Flat(v[i..])[7 - b..]
  }

  lemma {:induction false} UnreadSplit(v: seq<Bits>, i: nat, b: int)
    requires Bytes(v) && i < |v| && 0 <= b <= 7
    ensures Bytes(v[i + 1..]) && UnreadFrom(v, i, b) == v[i][7 - b..] + Flat(v[i + 1..])
  {
    FlatFrom(v, i);
  }

  lemma UnreadIs(v: seq<Bits>, i: nat, b: int)
    requires Bytes(v) && i <= |v| && 0 <= b <= 7 && 7 - b <= |Flat(v[i..])|
    ensures i == |v| ==> b == 7
    ensures UnreadFrom(v, i, b) == Flat(v[i..])[7 - b..]
  {
  }

  lemma Regroup(z: Bits, a: Bits, b: Bits, c: Bits)
    ensures z + (a + b) + c == z + a + (b + c)
    ensures z + a + b == z + (a + b)
  {
  }

  /** A field that begins with all of `top` and goes on in what follows. */
  lemma AcrossField(z: Bits, all: Bits, w: nat, top: Bits, rest: Bits, k: nat, last: nat)
    requires k + last <= |rest| && all == top + rest && w == |top| + k + last
    ensures z + top + rest[..k + last] == z + all[..w] && rest[k..][last..] == all[w..]
  {
    Pieces(all, top, [], rest, k + last);
    Regroup(z, top, rest[..k + last], []);
  }

  /** Bits of the current byte, and what is unread after them. */
  lemma {:induction false} ReadBits(v: seq<Bits>, i: nat, b: int, w: nat)
    requires Bytes(v) && i < |v| && 0 <= b <= 7 && w <= b + 1
    ensures var all := UnreadFrom(v, i, b);
            && |all| >= w && all[..w] == v[i][7 - b..7 - b + w]
            && UnreadFrom(v, if b < w then i + 1 else i, if b < w then 8 + (b - w) else b - w) == all[w..]
  {
    hide Flat;
    UnreadSplit(v, i, b);
    if b < w {
      assert v[i][7 - b..8] == v[i][7 - b..];
    } else {
      UnreadSplit(v, i, b - w);
    }
  }

  class BinaryIStream {
    var mVec: seq<Bits>
    var mIndex: nat
    var mBitIdx: int
    var mNextWidth: int

    ghost predicate Valid()
      reads this`mVec, this`mIndex, this`mBitIdx
    {
      && Bytes(mVec) && mIndex <= |mVec| && 0 <= mBitIdx <= 7
      && (mIndex == |mVec| ==> mBitIdx == 7)
    }

    /** The bits that have not been read. */
    ghost function Unread(): (r: Bits)
      requires Valid()
      reads this`mVec, this`mIndex, this`mBitIdx
    {
      UnreadFrom(mVec, mIndex, mBitIdx)
    }

    constructor (v: seq<Bits>)
      requires Bytes(v)
      ensures Valid() && Unread() == Flat(v) && mNextWidth == -1
    {
      mVec, mIndex, mBitIdx, mNextWidth := v, 0, 7, -1;
      new;
      assert v[0..] == v;
    }

    method SetNextBits(i: int)
      modifies this`mNextWidth
      ensures mNextWidth == i
    {
      mNextWidth := i;
    }

    /** How many bits a read into a type of so many bytes takes. */
    function Width(size: nat): int
      reads this
    {
      if mNextWidth < 0 || (mNextWidth == 0 && mBitIdx == 7) then 8 * size else mNextWidth
    }

    /** How many bytes the check before a read asks for: an unsigned word, made from a quotient
        that is rounded towards zero. */
    function SizeToWrite(size: nat): nat
      reads this
    {
      if mNextWidth == 0 then size
      else if mNextWidth > 0 then mNextWidth / 8
      else (0x1_0000_0000 - -mNextWidth / 8 % 0x1_0000_0000) % 0x1_0000_0000
    }

    /** The reads that are refused with an exception. */
    predicate Refuses(size: nat)
      reads this
    {
      mIndex >= |mVec| || SizeToWrite(size) > |mVec|
    }

    /** A byte that starts where reading stands. */
    lemma {:induction false} NextByte()
      requires Valid() && mIndex < |mVec|
      ensures Bytes(mVec[mIndex + 1..])
      ensures Unread() == mVec[mIndex][7 - mBitIdx..] + Flat(mVec[mIndex + 1..])
    {
      FlatFrom(mVec, mIndex);
    }

    lemma {:induction false} UnreadLength()
      requires Valid()
      ensures |Unread()| == 8 * (|mVec| - mIndex) - (7 - mBitIdx)
    {
    }

    /** The loop over whole bytes of the first and the third path: each byte goes into the
        result below what is there, the last one `low` bits above the bottom. */
    method ReadWhole(start: Bits, count: nat, low: nat, ghost a: nat, ghost top: Bits)
      returns (data: Bits, ghost more: Bits)
      requires Bytes(mVec) && mIndex + count <= |mVec|
      requires start == Zeros(a) + top + Zeros(8 * count + low)
      modifies this`mIndex
      ensures mIndex == old(mIndex) + count && |more| == 8 * count
      ensures Flat(mVec[old(mIndex)..]) == more + Flat(mVec[mIndex..])
      ensures data == Zeros(a) + top + more + Zeros(low)
    {
      hide Flat, Zeros, Or, Shl, Cast;
      ghost var all := Flat(mVec[mIndex..]);
      data, more := start, [];
      var i := count;
      while i > 0
        invariant 0 <= i <= count && mIndex == old(mIndex) + count - i
        invariant |more| == 8 * (count - i)
        invariant data == Zeros(a) + (top + more) + Zeros(8 * i + low)
        invariant all == more + Flat(mVec[mIndex..])
      {
        i := i - 1;
        var byte := mVec[mIndex];
        FlatFrom(mVec, mIndex);
        mIndex := mIndex + 1;
        CastShifted(byte, |data|, 8 * i + low);
        OrPlaces(a, top + more, byte, 8 * i + low);
        data := Or(data, Shl(Cast(byte, |data|), 8 * i + low));
        more := more + byte;
      }
    }

    /** The first path: whole bytes from a byte boundary. */
    method ReadBytes(count: nat, size: nat) returns (data: Bits)
      requires Valid() && mBitIdx == 7 && 0 < count <= size && mIndex + count <= |mVec|
      modifies this`mIndex
      ensures Valid() && |old(Unread())| >= 8 * count
      ensures data == Zeros(8 * size - 8 * count) + old(Unread())[..8 * count]
      ensures Unread() == old(Unread())[8 * count..]
    {
      hide Flat;
      ghost var a := 8 * size - 8 * count;
      ghost var more;
      assert Zeros(8 * size) == Zeros(a) + [] + Zeros(8 * count + 0);
      data, more := ReadWhole(Zeros(8 * size), count, 0, a, []);
      assert data == Zeros(a) + more;
    }

    /** The second path: all bits are in the current byte. */
    method ReadWithin(w: nat, size: nat) returns (data: Bits)
      requires Valid() && mIndex < |mVec| && w <= mBitIdx + 1 && size > 0
      modifies this`mIndex, this`mBitIdx
      ensures Valid()
      ensures |old(Unread())| >= w
      ensures data == Zeros(8 * size - w) + old(Unread())[..w]
      ensures Unread() == old(Unread())[w..]
    {
      hide Flat, Zeros, And, Shr, Mask, Cast, UnreadFrom;
      ReadBits(mVec, mIndex, mBitIdx, w);
      var tmpData := mVec[mIndex];
      var shift := mBitIdx - w + 1;
      Extract(tmpData, shift, w);
      tmpData := And(Shr(tmpData, shift), Mask(8, w));
      CastGrows(8 - w, mVec[mIndex][7 - mBitIdx..8 - shift], 8 * size);
      data := Cast(tmpData, 8 * size);
      mBitIdx := mBitIdx - w;
      if mBitIdx < 0 {
        mBitIdx := 8 + mBitIdx;
        mIndex := mIndex + 1;
      }
    }

    /** The first bits of the third path, from the bottom of the current byte. */
    method ReadTop(shiftTop: nat, size: nat) returns (data: Bits)
      requires Bytes(mVec) && mIndex < |mVec| && 0 <= mBitIdx <= 7 && mBitIdx + 1 + shiftTop <= 8 * size
      modifies this`mIndex
      ensures mIndex == old(mIndex) + 1
      ensures data == Zeros(8 * size - (mBitIdx + 1) - shiftTop) + mVec[old(mIndex)][7 - mBitIdx..] + Zeros(shiftTop)
    {
      hide Zeros, And, Mask, Cast, Shl;
      var topBits := mVec[mIndex];
      mIndex := mIndex + 1;
      LowBitsUp(topBits, mBitIdx + 1, 8 * size, shiftTop);
      topBits := And(topBits, Mask(8, mBitIdx + 1));
      data := Shl(Cast(topBits, 8 * size), shiftTop);
    }

    /** The last bits of the third path, from the top of the next byte. */
    method ReadTail(start: Bits, last: nat, ghost a: nat, ghost top: Bits) returns (data: Bits)
      requires Bytes(mVec) && last < 8 <= |start| && start == Zeros(a) + top + Zeros(last)
      requires mIndex <= |mVec| && last <= |Flat(mVec[mIndex..])|
      ensures data == Zeros(a) + top + Flat(mVec[mIndex..])[..last]
    {
      hide Flat, Zeros, And, Shr, Mask, Cast, Or;
      data := start;
      if last > 0 {
        FlatFrom(mVec, mIndex);
        var lastBits := mVec[mIndex];
        HighBitsDown(a, top, lastBits, last);
        lastBits := And(Shr(lastBits, 8 - last), Mask(8, last));
        data := Or(data, Cast(lastBits, |data|));
        assert Flat(mVec[mIndex..])[..last] == mVec[mIndex][..last];
      } else {
        assert Zeros(0) == [];
      }
    }

    method StepBitIdx(w: nat, ghost k: nat, ghost last: nat)
      requires 0 <= mBitIdx <= 7 && last < 8 && w == mBitIdx + 1 + 8 * k + last
      modifies this`mBitIdx
      ensures mBitIdx == 7 - last
    {
      BitIndexAfter(mBitIdx, w, k, last);
      mBitIdx := mBitIdx - w % 8;
      if mBitIdx < 0 {
        mBitIdx := 8 + mBitIdx;
      }
    }

    /** The whole bytes and the last bits of the third path. */
    method ReadRest(start: Bits, wholeBytes: nat, last: nat, ghost a: nat, ghost top: Bits) returns (data: Bits)
      requires Bytes(mVec) && mIndex <= |mVec| && last < 8 <= |start|
      requires start == Zeros(a) + top + Zeros(8 * wholeBytes + last)
      requires 8 * wholeBytes + last <= |Flat(mVec[mIndex..])|
      modifies this`mIndex
      ensures mIndex == old(mIndex) + wholeBytes <= |mVec| && last <= |Flat(mVec[mIndex..])|
      ensures data == Zeros(a) + top + Flat(mVec[old(mIndex)..])[..8 * wholeBytes + last]
      ensures Flat(mVec[mIndex..]) == Flat(mVec[old(mIndex)..])[8 * wholeBytes..]
    {
      hide Zeros;
      ghost var all := Flat(mVec[mIndex..]);
      ghost var more;
      data, more := ReadWhole(start, wholeBytes, last, a, top);
      ghost var rest := Flat(mVec[mIndex..]);
      hide Flat;
      data := ReadTail(data, last, a, top + more);
      Pieces(all, [], more, rest, last);
      Regroup(Zeros(a), top, more, rest[..last]);
    }

    /** The third path: the rest of the current byte, whole bytes, and the top of one more. */
    method ReadAcross(w: nat, size: nat) returns (data: Bits)
      requires Valid() && mIndex < |mVec| && mBitIdx + 1 < w <= 8 * size && |Unread()| >= w
      modifies this`mIndex, this`mBitIdx
      ensures Valid()
      ensures data == Zeros(8 * size - w) + old(Unread())[..w]
      ensures Unread() == old(Unread())[w..]
    {
      hide Flat, Zeros, And, Mask, Cast, Shl, UnreadFrom;
      var n, cur := 8 * size, mBitIdx + 1;
      var last, wholeBytes := Layout(cur, w);
      UnreadSplit(mVec, mIndex, mBitIdx);
      ghost var all, top, rest := Unread(), mVec[mIndex][8 - cur..], Flat(mVec[mIndex + 1..]);
      data := ReadTop(last + 8 * wholeBytes, size);
      data := ReadRest(data, wholeBytes, last, n - w, top);
      AcrossField(Zeros(n - w), all, w, top, rest, 8 * wholeBytes, last);
      StepBitIdx(w, wholeBytes, last);
      UnreadIs(mVec, mIndex, mBitIdx);
    }

    /** A read either is refused and changes nothing, or gives the next bits, most significant
        first, in the low bits of the result, and goes on after them. */
    method Read(size: nat) returns (ok: bool, data: Bits)
      requires Valid() && size > 0
      requires !Refuses(size) ==> Width(size) <= 8 * size && Width(size) <= |Unread()|
      modifies this`mIndex, this`mBitIdx, this`mNextWidth
      ensures Valid()
      ensures ok == !old(Refuses(size))
      ensures !ok ==> Unread() == old(Unread()) && mNextWidth == old(mNextWidth)
      ensures ok ==> mNextWidth == -1
      ensures ok ==> data == Zeros(8 * size - old(Width(size))) + old(Unread())[..old(Width(size))]
      ensures ok ==> Unread() == old(Unread())[old(Width(size))..]
    {
      hide Flat, Zeros, Unread;
      data := [];
      if mIndex >= |mVec| {
        return false, data;
      }
      var sizeToWrite := SizeToWrite(size);
      if sizeToWrite > |mVec| {
        return false, data;
      }
      UnreadLength();
      if mBitIdx == 7 && (mNextWidth < 0 || mNextWidth % 8 == 0) {
        var count := if mNextWidth > 0 then mNextWidth / 8 else size;
        assert 8 * count == Width(size);
        data := ReadBytes(count, size);
      } else {
        if mNextWidth < 0 {
          mNextWidth := 8 * size;
        }
        if mBitIdx + 1 >= mNextWidth {
          data := ReadWithin(mNextWidth, size);
        } else {
          data := ReadAcross(mNextWidth, size);
        }
      }
      mNextWidth := -1;
      ok := true;
    }
  }

  lemma BitIndexAfter(b: int, w: nat, k: nat, last: nat)
    requires 0 <= b <= 7 && last < 8 && w == b + 1 + 8 * k + last
    ensures (if b - w % 8 < 0 then 8 + (b - w % 8) else b - w % 8) == 7 - last
  {
    var x := b + 1 + last;
    assert w % 8 == if x < 8 then x else if x < 16 then x - 8 else x - 16;
  }

}
