/** Writing bit fields (BinaryOStream::write): which widths are written faithfully at which bit
    positions, and that what is written faithfully is read back. */
module BinaryOutput {
  import opened BinaryStream

  /** The bytes written, and the index of the next free bit of the last one; 7 when it is full. */
  datatype Out = Out(vec: seq<Bits>, bitIdx: int)

  predicate Shape(o: Out) {
    Bytes(o.vec) && 0 <= o.bitIdx <= 7 && (o.vec == [] ==> o.bitIdx == 7)
  }

  /** The bits not yet used in the last byte are zero. */
  predicate Tidy(o: Out) {
    && Shape(o)
    && (o.bitIdx < 7 ==> o.vec[|o.vec| - 1][7 - o.bitIdx..] == Zeros(o.bitIdx + 1))
  }

  function Written(o: Out): Bits
    requires Shape(o)
  {
    Flat(o.vec)[..8 * |o.vec| - (if o.bitIdx == 7 then 0 else o.bitIdx + 1)]
  }

  function BitIdxAfter(b: int, w: nat): int {
    if b - w % 8 < 0 then 8 + (b - w % 8) else b - w % 8
  }

  /** (uint8_t)(data >> (8*i)) for i from count - 1 down to 0. */
  function LowBytes(data: Bits, count: nat): (r: seq<Bits>)
    requires 8 * count <= |data|
    ensures |r| == count && Bytes(r)
  {
    if count == 0 then [] else [Cast(Shr(data, 8 * (count - 1)), 8)] + LowBytes(data, count - 1)
  }

  /** The bytes with a last one that has room. */
  function Started(o: Out): (v: seq<Bits>)
    requires Shape(o)
    ensures Bytes(v) && v != []
  {
    if o.vec == [] || o.bitIdx == 7 then o.vec + [Zeros(8)] else o.vec
  }

  function WriteWithin(o: Out, w: nat, data: Bits): (r: Out)
    requires Shape(o) && w <= o.bitIdx + 1 && |data| >= 8
    ensures Shape(r)
  {
    var vec := Started(o);
    var result := Shl(And(Cast(data, 8), Mask(8, w)), o.bitIdx - w + 1);
    Out(vec[|vec| - 1 := Or(vec[|vec| - 1], result)], if o.bitIdx - w < 0 then 8 + (o.bitIdx - w) else o.bitIdx - w)
  }

  function RoundUp(w: nat): nat {
    if w % 8 == 0 then w else w + 8 - w % 8
  }

  function MiddleCount(w: nat): (n: nat)
    requires w > 0
    ensures 8 * n + 8 == RoundUp(w)
  {
    RoundUp(w) / 8 - 1
  }

  /** How many bits of a field come into the last byte. */
  function LastCount(left: nat, w: nat): (n: nat)
    requires left < w
    ensures n < 8 && n <= w - left
  {
    (w - left) % 8
  }

  /** The first byte, the bytes in the middle and the last byte of a field that goes on past the
      current byte, of which `left` bits are free. */
  function FirstBits(data: Bits, left: nat, w: nat): (r: Bits)
    requires 1 <= left <= 8 && left < w && RoundUp(w) <= |data| && |data| >= 8
    ensures |r| == 8
  {
    And(Cast(Shr(Shr(data, LastCount(left, w)), RoundUp(w) - 8), 8), Mask(8, left))
  }

  function MiddleBytes(data: Bits, left: nat, w: nat): (r: seq<Bits>)
    requires 1 <= left <= 8 && left < w && RoundUp(w) <= |data|
    ensures Bytes(r) && |r| == MiddleCount(w)
  {
    var last := LastCount(left, w);
    LowBytes(And(Shr(data, last), Mask(|data|, w - left - last)), MiddleCount(w))
  }

  function LastBytes(data: Bits, left: nat, w: nat): (r: seq<Bits>)
    requires 1 <= left <= 8 && left < w && |data| >= 8
    ensures Bytes(r)
  {
    var last := LastCount(left, w);
    if last > 0 then [Shl(And(Cast(data, 8), Mask(8, last)), left)] else []
  }

  function WriteAcross(o: Out, w: nat, data: Bits): (r: Out)
    requires Shape(o) && o.bitIdx + 1 < w && RoundUp(w) <= |data| && |data| >= 8
    ensures Shape(r)
  {
    var left := o.bitIdx + 1;
    var vec := if o.vec == [] then [Zeros(8)] else o.vec;
    var back := Or(And(vec[|vec| - 1], Not(Mask(8, left))), FirstBits(data, left, w));
    Out(vec[|vec| - 1 := back] + MiddleBytes(data, left, w) + LastBytes(data, left, w), BitIdxAfter(o.bitIdx, w))
  }

  /** BinaryOStream::write of the low w bits of an unsigned integer. */
  function WriteBits(o: Out, w: nat, data: Bits): (r: Out)
    requires Shape(o) && w <= |data| && |data| % 8 == 0 && |data| > 0
    ensures Shape(r)
  {
    if o.bitIdx == 7 && w % 8 == 0 then Out(o.vec + LowBytes(data, w / 8), 7)
    else if w <= o.bitIdx + 1 then WriteWithin(o, w, data)
    else WriteAcross(o, w, data)
  }

  // ---------------------------------------------------------------- faithful writes

  /** The fields that are written faithfully: they fit the current byte, end on a byte boundary,
      or are whole bytes long. */
  predicate Placed(left: nat, w: nat) {
    w <= left || (w - left) % 8 == 0 || w % 8 == 0
  }

  lemma CutByte(data: Bits, k: nat)
    requires k + 8 <= |data|
    ensures Cast(Shr(data, k), 8) == data[|data| - k - 8..|data| - k]
  {
  }

  lemma {:induction false} LowBytesFlat(data: Bits, count: nat)
    requires 8 * count <= |data|
    ensures Flat(LowBytes(data, count)) == data[|data| - 8 * count..]
  {
    if count > 0 {
      LowBytesFlat(data, count - 1);
      var k := 8 * (count - 1);
      CutByte(data, k);
      var x := Cast(Shr(data, k), 8);
      FlatOne(x);
      FlatAppend([x], LowBytes(data, count - 1));
      assert data[|data| - k - 8..|data| - k] + data[|data| - k..] == data[|data| - k - 8..];
    }
  }

  lemma {:induction false} FlatLast(v: seq<Bits>)
    requires Bytes(v) && v != []
    ensures Bytes(v[..|v| - 1]) && Flat(v) == Flat(v[..|v| - 1]) + v[|v| - 1]
  {
    FlatAppend(v[..|v| - 1], [v[|v| - 1]]);
    FlatOne(v[|v| - 1]);
    assert v == v[..|v| - 1] + [v[|v| - 1]];
  }

  /** The low w bits of a word, in a byte and shifted up. */
  lemma LowBitsOf(data: Bits, w: nat, up: nat)
    requires w + up <= 8 <= |data|
    ensures Shl(And(Cast(data, 8), Mask(8, w)), up) == Zeros(8 - w - up) + data[|data| - w..] + Zeros(up)
  {
    hide Zeros, And, Mask, Shl;
    var b := data[|data| - 8..];
    assert Cast(data, 8) == b;
    ShrNothing(b);
    Extract(b, 0, w);
    assert b[8 - w..8] == data[|data| - w..];
    ShlSmall(8 - w, data[|data| - w..], up);
  }

  /** The bits of the last byte that are in use. */
  function Used(o: Out): nat
    requires Shape(o)
  {
    if o.bitIdx == 7 then 8 else 7 - o.bitIdx
  }

  lemma {:induction false} WrittenIs(o: Out)
    requires Shape(o) && o.vec != []
    ensures Bytes(o.vec[..|o.vec| - 1])
    ensures Written(o) == Flat(o.vec[..|o.vec| - 1]) + o.vec[|o.vec| - 1][..Used(o)]
  {
    FlatLast(o.vec);
    hide Flat;
  }

  lemma OrIntoFree(back: Bits, used: nat, low: Bits, up: nat)
    requires |back| == 8 == used + |low| + up && back[used..] == Zeros(|low| + up)
    ensures Or(back, Zeros(used) + low + Zeros(up)) == back[..used] + low + Zeros(up)
  {
    assert forall i :: used <= i < 8 ==> back[i] == back[used..][i - used];
  }

  lemma {:induction false} StartedIs(o: Out)
    requires Tidy(o)
    ensures var v, m, used := Started(o), |Started(o)| - 1, 7 - o.bitIdx;
            && Bytes(v[..m])
            && Written(o) == Flat(v[..m]) + v[m][..used]
            && v[m][used..] == Zeros(o.bitIdx + 1)
  {
    var v, m := Started(o), |Started(o)| - 1;
    if o.vec == [] || o.bitIdx == 7 {
      assert v[..m] == o.vec;
      assert Zeros(8)[..0] == [];
    } else {
      WrittenIs(o);
    }
  }

  lemma {:induction false} WithinBytes(o: Out, w: nat, data: Bits)
    requires Tidy(o) && 1 <= w <= o.bitIdx + 1 && |data| >= 8
    ensures var r, v, m, used := WriteWithin(o, w, data), Started(o), |Started(o)| - 1, 7 - o.bitIdx;
            && |r.vec| == |v| && r.vec[..m] == v[..m]
            && r.vec[m] == v[m][..used] + data[|data| - w..] + Zeros(o.bitIdx + 1 - w)
            && r.bitIdx == (if o.bitIdx - w < 0 then 7 else o.bitIdx - w)
  {
    StartedIs(o);
    LowBitsOf(data, w, o.bitIdx - w + 1);
    var v := Started(o);
    OrIntoFree(v[|v| - 1], 7 - o.bitIdx, data[|data| - w..], o.bitIdx - w + 1);
    hide Flat, Zeros, Or, And, Mask, Shl, Cast, Started;
  }

  lemma {:induction false} WithinRight(o: Out, w: nat, data: Bits)
    requires Tidy(o) && 1 <= w <= o.bitIdx + 1 && |data| >= 8
    ensures Tidy(WriteWithin(o, w, data))
    ensures Written(WriteWithin(o, w, data)) == Written(o) + data[|data| - w..]
  {
    hide WriteWithin, Written, Flat, Started, Zeros;
    WithinBytes(o, w, data);
    StartedIs(o);
    var r, v, low := WriteWithin(o, w, data), Started(o), data[|data| - w..];
    var m, used, rest := |v| - 1, 7 - o.bitIdx, Zeros(o.bitIdx + 1 - w);
    assert Used(r) == used + w;
    WrittenIs(r);
    CutThree(v[m][..used], low, rest);
    Appended(Written(r), Written(o), Flat(v[..m]), v[m][..used], low);
  }

  lemma Appended(after: Bits, before: Bits, a: Bits, b: Bits, c: Bits)
    requires before == a + b && after == a + (b + c)
    ensures after == before + c
  {
  }

  lemma CutThree(a: Bits, b: Bits, c: Bits)
    ensures (a + b + c)[..|a| + |b|] == a + b && (a + b + c)[|a| + |b|..] == c
  {
  }

  /** The widths the third path gets right. */
  predicate Aligned(left: nat, w: nat) {
    left < 8 && left < w && (w % 8 == 0 || (w - left) % 8 == 0)
  }

  lemma AlignedWidths(left: nat, w: nat)
    requires 1 <= left && Aligned(left, w)
    ensures left < w && left < 8 && w <= RoundUp(w)
    ensures var last, q := LastCount(left, w), MiddleCount(w);
            && (last == 0 || last == 8 - left)
            && q >= 0 && RoundUp(w) - 8 == 8 * q && left + 8 * q + last == w
  {
    hide LastCount, MiddleCount;
    LastCountIs(left, w);
    if w % 8 == 0 {
      BackFromMultiple(w / 8, left);
    }
  }

  lemma LastCountIs(left: nat, w: nat)
    requires left < w
    ensures LastCount(left, w) == (w - left) % 8
  {
  }

  /** Less than a byte taken from whole bytes. */
  lemma BackFromMultiple(k: nat, left: nat)
    requires 1 <= left < 8 && k > 0
    ensures (8 * k - left) % 8 == 8 - left
  {
    assert 8 * k - left == 8 * (k - 1) + (8 - left);
  }

  lemma MaskLow(b: Bits, k: nat)
    requires |b| == 8 && k <= 8
    ensures And(b, Mask(8, k)) == Zeros(8 - k) + b[8 - k..8]
  {
  }

  /** A byte of a shifted word, from its low end. */
  lemma ShiftedSlice(data: Bits, last: nat, k: nat, left: nat)
    requires last + k + left <= |data| && k + 8 <= |data| && left <= 8
    ensures Shr(data, last)[|data| - k - 8..|data| - k][8 - left..8] == data[|data| - last - k - left..|data| - last - k]
  {
    var n, d := |data|, Shr(data, last);
    assert forall i :: last <= i < n ==> d[i] == data[i - last];
    hide Shr;
    assert d[n - k - 8..n - k][8 - left..8] == d[n - k - left..n - k];
  }

  lemma FieldByte(data: Bits, last: nat, k: nat, left: nat)
    requires last + k + left <= |data| && k + 8 <= |data| && left <= 8
    ensures And(Cast(Shr(Shr(data, last), k), 8), Mask(8, left))
         == Zeros(8 - left) + data[|data| - last - k - left..|data| - last - k]
  {
    CutByte(Shr(data, last), k);
    ShiftedSlice(data, last, k, left);
    MaskLow(Shr(data, last)[|data| - k - 8..|data| - k], left);
    hide Zeros, And, Mask, Shr, Cast;
  }

  lemma {:induction false} FieldBytes(data: Bits, last: nat, q: nat)
    requires last + 8 * q <= |data|
    ensures Flat(LowBytes(And(Shr(data, last), Mask(|data|, 8 * q)), q)) == data[|data| - last - 8 * q..|data| - last]
  {
    var n, k := |data|, 8 * q;
    hide Zeros, And, Mask, Flat, LowBytes;
    Extract(data, last, k);
    var d := And(Shr(data, last), Mask(n, k));
    LowBytesFlat(d, q);
    assert d[n - k..] == data[n - last - k..n - last];
  }

  lemma FirstBitsRight(data: Bits, left: nat, w: nat)
    requires 1 <= left && Aligned(left, w) && RoundUp(w) <= |data| && |data| >= 8
    ensures FirstBits(data, left, w) == Zeros(8 - left) + data[|data| - w..|data| - w + left]
  {
    AlignedWidths(left, w);
    FieldByte(data, LastCount(left, w), RoundUp(w) - 8, left);
    hide Aligned, LastCount, MiddleCount, RoundUp, Zeros, And, Mask, Cast, Shr;
  }

  lemma {:induction false} MiddleBytesRight(data: Bits, left: nat, w: nat)
    requires 1 <= left && Aligned(left, w) && RoundUp(w) <= |data|
    ensures Flat(MiddleBytes(data, left, w)) == data[|data| - w + left..|data| - LastCount(left, w)]
  {
    AlignedWidths(left, w);
    FieldBytes(data, LastCount(left, w), MiddleCount(w));
    hide Aligned, LastCount, MiddleCount, RoundUp, Zeros, And, Mask, Flat, LowBytes, Shr;
  }

  lemma {:induction false} LastBytesRight(data: Bits, left: nat, w: nat)
    requires 1 <= left && Aligned(left, w) && |data| >= 8 && w <= |data|
    ensures var last := LastCount(left, w);
            Flat(LastBytes(data, left, w)) == if last > 0 then data[|data| - last..] + Zeros(left) else []
  {
    AlignedWidths(left, w);
    var last := LastCount(left, w);
    if last > 0 {
      LowBitsOf(data, last, left);
      var b := Shl(And(Cast(data, 8), Mask(8, last)), left);
      hide Zeros, And, Mask, Flat, Shl, Cast, LastCount, RoundUp, Aligned;
      assert Zeros(0) == [];
      assert b == data[|data| - last..] + Zeros(left);
      FlatOne(b);
    }
  }

  lemma ReplaceLow(back: Bits, left: nat, x: Bits)
    requires |back| == 8 && |x| == left <= 8
    ensures Or(And(back, Not(Mask(8, left))), Zeros(8 - left) + x) == back[..8 - left] + x
  {
  }

  lemma {:induction false} FlatParts(a: seq<Bits>, b: Bits, c: seq<Bits>, d: seq<Bits>)
    requires Bytes(a) && |b| == 8 && Bytes(c) && Bytes(d)
    ensures Bytes(a + [b] + c + d) && Flat(a + [b] + c + d) == Flat(a) + b + Flat(c) + Flat(d)
  {
    FlatAppend(a, [b]);
    FlatOne(b);
    FlatAppend(a + [b], c);
    FlatAppend(a + [b] + c, d);
  }

  lemma {:induction false} AcrossParts(o: Out, w: nat, data: Bits)
    requires Tidy(o) && o.bitIdx < 7 && Aligned(o.bitIdx + 1, w) && RoundUp(w) <= |data| && 8 <= |data|
    ensures var r, m, left := WriteAcross(o, w, data), |o.vec| - 1, o.bitIdx + 1;
            var back := o.vec[m][..8 - left] + data[|data| - w..|data| - w + left];
            r.vec == o.vec[..m] + [back] + MiddleBytes(data, left, w) + LastBytes(data, left, w)
    ensures WriteAcross(o, w, data).bitIdx == 7 - LastCount(o.bitIdx + 1, w)
  {
    var m, left := |o.vec| - 1, o.bitIdx + 1;
    BitIndexAfter(o.bitIdx, w, (w - left) / 8, LastCount(left, w));
    FirstBitsRight(data, left, w);
    ReplaceLow(o.vec[m], left, data[|data| - w..|data| - w + left]);
    hide RoundUp, Aligned, LastCount, MiddleCount, Zeros, And, Mask, Or, Not, FirstBits, MiddleBytes, LastBytes;
  }

  lemma {:induction false} AcrossPieces(o: Out, w: nat, data: Bits)
    requires Tidy(o) && o.bitIdx < 7 && Aligned(o.bitIdx + 1, w) && RoundUp(w) <= |data| && 8 <= |data|
    ensures var r, m, left := WriteAcross(o, w, data), |o.vec| - 1, o.bitIdx + 1;
            var b, x := o.vec[m][..8 - left], data[|data| - w..|data| - w + left];
            && Bytes(o.vec[..m])
            && Written(o) == Flat(o.vec[..m]) + b
            && Flat(r.vec) == Flat(o.vec[..m]) + (b + x) + Flat(MiddleBytes(data, left, w)) + Flat(LastBytes(data, left, w))
  {
    hide RoundUp, LastCount, MiddleCount, Flat, Written, WriteAcross, MiddleBytes, LastBytes, FirstBits, Zeros;
    var m, left := |o.vec| - 1, o.bitIdx + 1;
    AcrossParts(o, w, data);
    AlignedWidths(left, w);
    WrittenIs(o);
    assert Used(o) == 8 - left;
    var x, middle, last := data[|data| - w..|data| - w + left], MiddleBytes(data, left, w), LastBytes(data, left, w);
    FlatParts(o.vec[..m], o.vec[m][..8 - left] + x, middle, last);
  }

  lemma {:induction false} FieldBits(data: Bits, left: nat, w: nat)
    requires 1 <= left && Aligned(left, w) && |data| >= 8 && RoundUp(w) <= |data|
    ensures data[|data| - w..|data| - w + left] + (Flat(MiddleBytes(data, left, w)) + Flat(LastBytes(data, left, w)))
         == data[|data| - w..] + Zeros(if LastCount(left, w) == 0 then 0 else left)
  {
    hide *;
    AlignedWidths(left, w);
    var n, last := |data|, LastCount(left, w);
    MiddleBytesRight(data, left, w);
    EndOfField(data, left, w);
    var middle, tail, e := Flat(MiddleBytes(data, left, w)), Flat(LastBytes(data, left, w)), Zeros(if last == 0 then 0 else left);
    SliceJoin(data, n - w, n - w + left, n - last, middle, tail, e);
  }

  lemma {:induction false} EndOfField(data: Bits, left: nat, w: nat)
    requires 1 <= left && Aligned(left, w) && |data| >= 8 && w <= |data|
    ensures var last := LastCount(left, w);
            Flat(LastBytes(data, left, w)) == data[|data| - last..] + Zeros(if last == 0 then 0 else left)
  {
    LastBytesRight(data, left, w);
    hide Flat, LastBytes, LastCount, Aligned;
    NoBits();
  }

  lemma {:induction false} AcrossFlat(o: Out, w: nat, data: Bits)
    requires Tidy(o) && o.bitIdx < 7 && Aligned(o.bitIdx + 1, w) && RoundUp(w) <= |data| && 8 <= |data|
    ensures Flat(WriteAcross(o, w, data).vec)
         == Written(o) + data[|data| - w..] + Zeros(if LastCount(o.bitIdx + 1, w) == 0 then 0 else o.bitIdx + 1)
  {
    hide Flat, Zeros, WriteAcross, Written, MiddleBytes, LastBytes, FirstBits, Aligned, RoundUp;
    var n, left := |data|, o.bitIdx + 1;
    AlignedWidths(left, w);
    AcrossPieces(o, w, data);
    FieldBits(data, left, w);
    var a, b, x := Flat(o.vec[..|o.vec| - 1]), o.vec[|o.vec| - 1][..8 - left], data[n - w..n - w + left];
    var middle, last := Flat(MiddleBytes(data, left, w)), Flat(LastBytes(data, left, w));
    var e := Zeros(if LastCount(left, w) == 0 then 0 else left);
    var after, before := Flat(WriteAcross(o, w, data).vec), Written(o);
    AppendedField(after, before, a, b, x, middle, last, data[n - w..], e);
  }

  lemma NoBits()
    ensures Zeros(0) == []
  {
  }

  lemma AppendedField(after: Bits, before: Bits, a: Bits, b: Bits, x: Bits, y: Bits, z: Bits, d: Bits, e: Bits)
    requires before == a + b && after == a + (b + x) + y + z && x + (y + z) == d + e
    ensures after == before + d + e
  {
    assert after == a + b + (x + (y + z));
    assert a + b + (d + e) == before + d + e;
  }

  lemma SliceJoin(s: Bits, i: nat, j: nat, k: nat, middle: Bits, tail: Bits, e: Bits)
    requires i <= j <= k <= |s| && middle == s[j..k] && tail == s[k..] + e
    ensures s[i..j] + (middle + tail) == s[i..] + e
  {
  }

  /** Bits that end in zeros, as the unused bits of the last byte. */
  lemma {:induction false} ZeroTail(o: Out, bits: Bits, free: nat)
    requires Shape(o) && o.vec != [] && free < 8 && o.bitIdx == (if free == 0 then 7 else free - 1)
    requires Flat(o.vec) == bits + Zeros(free)
    ensures Tidy(o) && Written(o) == bits
  {
    hide Zeros, Flat;
    FlatLast(o.vec);
    var m, all := |o.vec| - 1, Flat(o.vec);
    assert all[|bits|..] == Zeros(free);
    assert all[8 * m..] == o.vec[m];
    assert o.vec[m][8 - free..] == all[8 * m + 8 - free..];
  }

  lemma {:induction false} AcrossRight(o: Out, w: nat, data: Bits)
    requires Tidy(o) && o.bitIdx < 7 && Aligned(o.bitIdx + 1, w) && RoundUp(w) <= |data| && 8 <= |data|
    ensures Tidy(WriteAcross(o, w, data))
    ensures Written(WriteAcross(o, w, data)) == Written(o) + data[|data| - w..]
  {
    hide Flat, Zeros, WriteAcross, Written, FirstBits, MiddleBytes, LastBytes, Aligned, RoundUp;
    AlignedWidths(o.bitIdx + 1, w);
    AcrossParts(o, w, data);
    AcrossFlat(o, w, data);
    var last := LastCount(o.bitIdx + 1, w);
    ZeroTail(WriteAcross(o, w, data), Written(o) + data[|data| - w..], if last == 0 then 0 else o.bitIdx + 1);
  }

  lemma {:induction false} WholeRight(o: Out, w: nat, data: Bits)
    requires Tidy(o) && o.bitIdx == 7 && w % 8 == 0 && w <= |data|
    ensures Tidy(Out(o.vec + LowBytes(data, w / 8), 7))
    ensures Written(Out(o.vec + LowBytes(data, w / 8), 7)) == Written(o) + data[|data| - w..]
  {
    hide LowBytes;
    LowBytesFlat(data, w / 8);
    FlatAppend(o.vec, LowBytes(data, w / 8));
  }

  lemma PathOf(o: Out, w: nat, data: Bits)
    requires Tidy(o) && 1 <= w <= |data| && |data| % 8 == 0
    ensures Shape(o) && RoundUp(w) <= |data|
    ensures WriteBits(o, w, data)
         == if o.bitIdx == 7 && w % 8 == 0 then Out(o.vec + LowBytes(data, w / 8), 7)
            else if w <= o.bitIdx + 1 then WriteWithin(o, w, data)
            else WriteAcross(o, w, data)
  {
    hide WriteAcross, WriteWithin, LowBytes, Zeros;
  }

  /** A faithful write appends the low w bits of the value. */
  lemma {:induction false} WriteRight(o: Out, w: nat, data: Bits)
    requires Tidy(o) && 1 <= w <= |data| && |data| % 8 == 0 && Placed(o.bitIdx + 1, w)
    ensures Tidy(WriteBits(o, w, data))
    ensures Written(WriteBits(o, w, data)) == Written(o) + data[|data| - w..]
  {
    hide Flat, Zeros, WriteBits, WriteAcross, WriteWithin, LowBytes, Written, Tidy, RoundUp;
    PathOf(o, w, data);
    if o.bitIdx == 7 && w % 8 == 0 {
      WholeRight(o, w, data);
    } else if w <= o.bitIdx + 1 {
      WithinRight(o, w, data);
    } else {
      AcrossRight(o, w, data);
    }
  }

  // ---------------------------------------------------------------- all other writes

  /** The three ways in which the remaining fields go wrong, for a value of all ones: a byte too
      many, a last byte shifted too little, or a byte before the field overwritten. */
  lemma {:induction false} OtherWidths(left: nat, w: nat)
    requires 1 <= left <= 8 && !Placed(left, w)
    ensures left < w && 0 < LastCount(left, w)
    ensures var last := LastCount(left, w);
            && (left + last > 8 ==> 8 * MiddleCount(w) == w - left - last + 8)
            && (left + last < 8 ==> 8 * MiddleCount(w) == w - left - last)
            && left + last != 8
  {
  }

  lemma {:induction false} AcrossLength(o: Out, w: nat, data: Bits)
    requires Shape(o) && o.bitIdx + 1 < w && RoundUp(w) <= |data| && |data| >= 8
    ensures var r, left := WriteAcross(o, w, data), o.bitIdx + 1;
            |r.vec| == (if o.vec == [] then 1 else |o.vec|) + MiddleCount(w) + (if LastCount(left, w) > 0 then 1 else 0)
    ensures WriteAcross(o, w, data).bitIdx == 7 - LastCount(o.bitIdx + 1, w)
  {
    var left := o.bitIdx + 1;
    BitIndexAfter(o.bitIdx, w, (w - left) / 8, LastCount(left, w));
    hide FirstBits, And, Or, Not, Mask, Shl;
  }

  /** A byte of written bits. */
  lemma {:induction false} BitOf(o: Out, k: nat, i: nat)
    requires Shape(o) && k < |o.vec| && i < 8 && 8 * k + i < |Written(o)|
    ensures Written(o)[8 * k + i] == o.vec[k][i]
  {
    FlatAppend(o.vec[..k], o.vec[k..]);
    assert o.vec == o.vec[..k] + o.vec[k..];
    FlatFrom(o.vec, k);
  }

  lemma LastByteStarts(data: Bits, left: nat, w: nat)
    requires 1 <= left <= 8 && left < w && |data| >= 8 && 0 < LastCount(left, w) && left + LastCount(left, w) < 8
    ensures |LastBytes(data, left, w)| == 1 && !LastBytes(data, left, w)[0][0]
  {
    hide LastCount;
  }

  lemma MiddleStarts(data: Bits, left: nat, w: nat)
    requires 1 <= left <= 8 && left < w && RoundUp(w) <= |data|
    requires 8 * MiddleCount(w) == w - left - LastCount(left, w) + 8
    ensures |MiddleBytes(data, left, w)| > 0 && !MiddleBytes(data, left, w)[0][0]
  {
    hide LastCount, MiddleCount, RoundUp;
    var last, q := LastCount(left, w), MiddleCount(w);
    var d := And(Shr(data, last), Mask(|data|, w - left - last));
    assert !d[0];
    CutByte(d, 8 * (q - 1));
  }

  function AllOnes(n: nat): (d: Bits)
    ensures |d| == n && forall i :: 0 <= i < n ==> d[i]
  {
    seq(n, _ => true)
  }

  lemma GoesAcross(o: Out, w: nat, data: Bits)
    requires Shape(o) && 1 <= w <= |data| && |data| % 8 == 0 && !Placed(o.bitIdx + 1, w)
    ensures RoundUp(w) <= |data| && WriteBits(o, w, data) == WriteAcross(o, w, data)
  {
    hide WriteAcross;
  }

  /** Any other field is written wrongly, for one if the value is all ones. */
  lemma {:induction false} WriteWrong(o: Out, w: nat, n: nat)
    requires Tidy(o) && 1 <= w <= n && n % 8 == 0 && !Placed(o.bitIdx + 1, w)
    ensures Written(WriteBits(o, w, AllOnes(n))) != Written(o) + AllOnes(n)[n - w..]
  {
    hide LastCount, MiddleCount, RoundUp, Placed, FirstBits, MiddleBytes, LastBytes, Flat, And, Or, Not, Mask, Shl,
      Cast, AllOnes, WriteBits;
    var data, left := AllOnes(n), o.bitIdx + 1;
    OtherWidths(left, w);
    GoesAcross(o, w, data);
    var last, q, r := LastCount(left, w), MiddleCount(w), WriteAcross(o, w, data);
    AcrossLength(o, w, data);
    if left + last < 8 {
      LastByteStarts(data, left, w);
      var k := |o.vec| + q;
      assert r.vec[k] == LastBytes(data, left, w)[0];
      BitOf(r, k, 0);
    } else if left == 8 && o.vec != [] {
      MiddleStarts(data, left, w);
      assert r.vec[|o.vec|] == MiddleBytes(data, left, w)[0];
      BitOf(r, |o.vec|, 0);
    }
  }

  /** A field of w bits is written faithfully whatever the value is, exactly if it is placed so. */
  lemma {:induction false} FaithfulWidths(o: Out, w: nat, n: nat)
    requires Tidy(o) && 1 <= w <= n && n % 8 == 0
    ensures Placed(o.bitIdx + 1, w)
       <==> forall data: Bits :: |data| == n ==> Written(WriteBits(o, w, data)) == Written(o) + data[n - w..]
  {
    hide Written, WriteBits, Placed;
    if Placed(o.bitIdx + 1, w) {
      forall data: Bits | |data| == n
        ensures Written(WriteBits(o, w, data)) == Written(o) + data[n - w..]
      {
        WriteRight(o, w, data);
      }
    } else {
      WriteWrong(o, w, n);
    }
  }

  // ---------------------------------------------------------------- the stream

  /** The vector after the first byte, the middle bytes and the last byte of the third path. */
  lemma AcrossSteps(o: Out, w: nat, t: Bits, last: nat, top: nat, data: Bits, v: seq<Bits>)
    requires Shape(o) && o.bitIdx + 1 < w && RoundUp(w) <= |t| && |t| >= 8
    requires last == (w - (o.bitIdx + 1)) % 8 && top == RoundUp(w) && data == Shr(t, last)
    requires v == if o.vec == [] then o.vec + [Zeros(8)] else o.vec
    ensures var left := o.bitIdx + 1;
            var back := Or(And(v[|v| - 1], Not(Mask(8, left))), And(Cast(Shr(data, top - 8), 8), Mask(8, left)));
            var middle := LowBytes(And(data, Mask(|data|, w - left - last)), top / 8 - 1);
            var ending := if last > 0 then [Shl(And(Cast(t, 8), Mask(8, last)), left)] else [];
            WriteAcross(o, w, t).vec == v[|v| - 1 := back] + middle + ending
    ensures WriteAcross(o, w, t).bitIdx == BitIdxAfter(o.bitIdx, w)
  {
    hide Cast, And, Mask, Shl, Shr, Or, Not, Zeros, LowBytes, BitIdxAfter;
  }

  class BinaryOStream {
    var mVec: seq<Bits>
    var mBitIdx: int
    var mNextWidth: int

    constructor ()
      ensures Current() == Out([], 7) && mNextWidth == -1
    {
      mVec, mBitIdx, mNextWidth := [], 7, -1;
    }

    function Current(): Out
      reads this`mVec, this`mBitIdx
    {
      Out(mVec, mBitIdx)
    }

    method SetNextBits(i: int)
      modifies this`mNextWidth
      ensures mNextWidth == i
    {
      mNextWidth := i;
    }

    /** How many bits the next write of an integer of so many bytes writes. */
    function Width(size: nat): nat
      reads this
    {
      if mNextWidth < 0 || (mNextWidth == 0 && mBitIdx == 7) then 8 * size else mNextWidth
    }

    /** The loops that push whole bytes, the highest first. */
    method PushBytes(data: Bits, count: nat)
      requires Bytes(mVec) && 8 * count <= |data|
      modifies this`mVec
      ensures mVec == old(mVec) + LowBytes(data, count)
    {
      hide Cast, Shr;
      var i := count;
      while i > 0
        invariant 0 <= i <= count && Bytes(mVec)
        invariant mVec + LowBytes(data, i) == old(mVec) + LowBytes(data, count)
      {
        i := i - 1;
        mVec := mVec + [Cast(Shr(data, 8 * i), 8)];
      }
    }

    /** The second path of write. */
    method PutWithin(w: nat, data: Bits)
      requires Shape(Current()) && w <= mBitIdx + 1 && |data| >= 8
      modifies this`mVec, this`mBitIdx
      ensures Current() == WriteWithin(old(Current()), w, data)
    {
      hide Cast, And, Mask, Shl, Or;
      if mVec == [] || mBitIdx == 7 {
        mVec := mVec + [Zeros(8)];
      }
      var lastBits := And(Cast(data, 8), Mask(8, w));
      var result := Shl(lastBits, mBitIdx - w + 1);
      mVec := mVec[|mVec| - 1 := Or(mVec[|mVec| - 1], result)];
      mBitIdx := mBitIdx - w;
      if mBitIdx < 0 {
        mBitIdx := 8 + mBitIdx;
      }
    }

    method StepBitIdx(w: nat)
      modifies this`mBitIdx
      ensures mBitIdx == BitIdxAfter(old(mBitIdx), w)
    {
      mBitIdx := mBitIdx - w % 8;
      if mBitIdx < 0 {
        mBitIdx := 8 + mBitIdx;
      }
    }

    /** The first bits of the third path of write: into the current byte, which is made if there is
        none. */
    method PutFirst(firstBits: Bits, left: nat)
      requires Bytes(mVec) && |firstBits| == 8 && left <= 8
      modifies this`mVec
      ensures var v := if old(mVec) == [] then old(mVec) + [Zeros(8)] else old(mVec);
              mVec == v[|v| - 1 := Or(And(v[|v| - 1], Not(Mask(8, left))), firstBits)]
      ensures Bytes(mVec)
    {
      hide Zeros, And, Mask, Or, Not;
      if mVec == [] {
        mVec := mVec + [Zeros(8)];
      }
      mVec := mVec[|mVec| - 1 := And(mVec[|mVec| - 1], Not(Mask(8, left)))];
      mVec := mVec[|mVec| - 1 := Or(mVec[|mVec| - 1], firstBits)];
    }

    /** The last bits of the third path of write: into a byte of their own, if there are any. */
    method PutLast(lastBits: Bits, last: nat)
      requires Bytes(mVec) && |lastBits| == 8 && 0 <= mBitIdx <= 7
      modifies this`mVec
      ensures mVec == old(mVec) + if last > 0 then [Shl(lastBits, mBitIdx + 1)] else []
    {
      hide Shl;
      if last > 0 {
        mVec := mVec + [Shl(lastBits, mBitIdx + 1)];
      }
    }

    /** The third path of write. */
    method PutAcross(w: nat, t: Bits)
      requires Shape(Current()) && mBitIdx + 1 < w && RoundUp(w) <= |t| && |t| >= 8
      modifies this`mVec, this`mBitIdx
      ensures Current() == WriteAcross(old(Current()), w, t)
    {
      hide Cast, And, Mask, Shl, Shr, Or, Not, Zeros, LowBytes, WriteAcross, FirstBits, MiddleBytes, LastBytes,
        BitIdxAfter;
      ghost var o := Current();
      var data, left := t, mBitIdx + 1;
      var last := (w - left) % 8;
      var lastBits := And(Cast(data, 8), Mask(8, last));
      data := Shr(data, last);
      var remainder := w % 8;
      var topBitPos := if remainder == 0 then w else w + 8 - remainder;
      var firstBits := And(Cast(Shr(data, topBitPos - 8), 8), Mask(8, left));
      data := And(data, Mask(|data|, w - left - last));
      AcrossSteps(o, w, t, last, topBitPos, Shr(t, last), if mVec == [] then mVec + [Zeros(8)] else mVec);
      PutFirst(firstBits, left);
      PushBytes(data, topBitPos / 8 - 1);
      PutLast(lastBits, last);
      assert mVec == WriteAcross(o, w, t).vec;
      StepBitIdx(w);
    }

    /** BinaryOStream::write of an unsigned integer. */
    method Write(t: Bits, size: nat)
      requires Shape(Current()) && size > 0 && |t| == 8 * size && Width(size) <= |t|
      modifies this
      ensures Current() == WriteBits(old(Current()), old(Width(size)), t)
      ensures mNextWidth == -1
    {
      hide WriteWithin, WriteAcross;
      if mBitIdx == 7 && (mNextWidth < 0 || mNextWidth % 8 == 0) {
        PushBytes(t, if mNextWidth > 0 then mNextWidth / 8 else size);
      } else {
        if mNextWidth < 0 {
          mNextWidth := 8 * size;
        }
        if mBitIdx + 1 >= mNextWidth {
          PutWithin(mNextWidth, t);
        } else {
          PutAcross(mNextWidth, t);
        }
      }
      mNextWidth := -1;
    }
  }
}
