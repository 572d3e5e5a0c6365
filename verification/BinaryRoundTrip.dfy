/** What the output stream writes faithfully the input stream reads back: each value comes back
    modulo two to the power of its width. */
module BinaryRoundTrip {
  import opened Arithmetic
  import opened BinaryStream
  import opened BinaryOutput

  /** The unsigned integer with these bits. */
  function Value(b: Bits): nat {
    if b == [] then 0 else 2 * Value(b[..|b| - 1]) + if b[|b| - 1] then 1 else 0
  }

  lemma {:induction false} ValueBound(b: Bits)
    ensures Value(b) < Pow2(|b|)
    decreases |b|
  {
    if b != [] {
      ValueBound(b[..|b| - 1]);
    }
  }

  lemma {:induction false} ValueAppend(a: Bits, b: Bits)
    ensures Value(a + b) == Value(a) * Pow2(|b|) + Value(b)
    decreases |b|
  {
    if b == [] {
      assert a + b == a;
    } else {
      var c := b[..|b| - 1];
      assert (a + b)[..|a + b| - 1] == a + c;
      ValueAppend(a, c);
      OneMoreBit(Value(a), Pow2(|c|), Value(c), if b[|b| - 1] then 1 else 0);
    }
  }

  lemma OneMoreBit(v: nat, p: nat, c: nat, bit: nat)
    ensures 2 * (v * p + c) + bit == v * (2 * p) + (2 * c + bit)
  {
  }

  lemma {:induction false} ValueZeros(k: nat)
    ensures Value(Zeros(k)) == 0
  {
    if k > 0 {
      assert Zeros(k)[..k - 1] == Zeros(k - 1);
      ValueZeros(k - 1);
    }
  }

  /** The low w bits of a word, in a word of zeros, are its value modulo 2^w. */
  lemma {:induction false} LowBitsValue(data: Bits, w: nat)
    requires w <= |data|
    ensures Value(Zeros(|data| - w) + data[|data| - w..]) == Value(data) % Pow2(w)
  {
    var high, low := data[..|data| - w], data[|data| - w..];
    assert data == high + low;
    ValueAppend(high, low);
    ValueAppend(Zeros(|data| - w), low);
    ValueZeros(|data| - w);
    ValueBound(low);
    RemainderIs(Value(data), Value(high), Pow2(w), Value(low));
  }

  /** Every field of a sequence is placed so that it is written faithfully. */
  predicate PlacedAll(bitIdx: int, widths: seq<nat>)
    requires 0 <= bitIdx <= 7
    decreases |widths|
  {
    widths == [] ||
    (1 <= widths[0] && Placed(bitIdx + 1, widths[0]) && PlacedAll(BitIdxAfter(bitIdx, widths[0]), widths[1..]))
  }

  lemma BitIdxOfWrite(o: Out, w: nat, data: Bits)
    requires Shape(o) && 1 <= w <= |data| && |data| % 8 == 0
    ensures Shape(WriteBits(o, w, data)) && WriteBits(o, w, data).bitIdx == BitIdxAfter(o.bitIdx, w)
  {
    hide FirstBits, MiddleBytes, LastBytes, LowBytes, Shl, And, Or, Not, Mask, Cast;
  }

  predicate Fits(widths: seq<nat>, values: seq<Bits>, n: nat) {
    && |widths| == |values|
    && forall i :: 0 <= i < |widths| ==> |values[i]| == n && widths[i] <= n
  }

  function Fields(widths: seq<nat>, values: seq<Bits>, n: nat): Bits
    requires Fits(widths, values, n)
    decreases |widths|
  {
    if widths == [] then []
    else values[0][n - widths[0]..] + Fields(widths[1..], values[1..], n)
  }

  lemma NothingWritten()
    ensures Tidy(Out([], 7)) && Written(Out([], 7)) == []
  {
  }

  lemma {:induction false} FieldsTurn(widths: seq<nat>, values: seq<Bits>, n: nat, i: nat)
    requires i < |widths| && Fits(widths, values, n)
    ensures Fields(widths[i..], values[i..], n)
         == values[i][n - widths[i]..] + Fields(widths[i + 1..], values[i + 1..], n)
  {
    assert widths[i..][1..] == widths[i + 1..] && values[i..][1..] == values[i + 1..];
  }

  method WriteAll(size: nat, widths: seq<nat>, values: seq<Bits>) returns (vec: seq<Bits>)
    requires size > 0 && Fits(widths, values, 8 * size) && PlacedAll(7, widths)
    ensures Bytes(vec) && Fields(widths, values, 8 * size) <= Flat(vec)
  {
    hide Flat, Zeros, WriteBits, Placed, BitIdxAfter, Fields;
    var output := new BinaryOStream();
    NothingWritten();
    ghost var n, whole := 8 * size, Fields(widths, values, 8 * size);
    assert widths[0..] == widths && values[0..] == values;
    for i := 0 to |widths|
      invariant fresh(output) && Tidy(output.Current())
      invariant Written(output.Current()) + Fields(widths[i..], values[i..], n) == whole
      invariant PlacedAll(output.mBitIdx, widths[i..])
    {
      hide Written, Tidy;
      ghost var o := output.Current();
      FieldsTurn(widths, values, n, i);
      assert widths[i..][1..] == widths[i + 1..];
      WriteRight(o, widths[i], values[i]);
      BitIdxOfWrite(o, widths[i], values[i]);
      output.SetNextBits(widths[i]);
      output.Write(values[i], size);
    }
    assert Fields(widths[|widths|..], values[|widths|..], n) == [] by {
      NoFields(n);
    }
    vec := output.mVec;
  }

  lemma NoFields(n: nat)
    ensures Fields([], [], n) == []
  {
  }

  lemma {:induction false} FieldThenRest(widths: seq<nat>, values: seq<Bits>, n: nat, i: nat, tail: Bits)
    requires i < |widths| && Fits(widths, values, n)
    ensures Fits(widths[i..], values[i..], n) && Fits(widths[i + 1..], values[i + 1..], n)
    ensures Fields(widths[i..], values[i..], n) + tail
         == values[i][n - widths[i]..] + (Fields(widths[i + 1..], values[i + 1..], n) + tail)
  {
    hide Fields;
    FieldsTurn(widths, values, n, i);
  }

  /** Setting the width and reading one field of an input that starts with it. */
  method ReadField(input: BinaryIStream, size: nat, w: nat, ghost field: Bits, ghost more: Bits) returns (data: Bits)
    requires input.Valid() && 0 < w <= 8 * size && |field| == w && input.Unread() == field + more
    modifies input
    ensures input.Valid() && input.Unread() == more && data == Zeros(8 * size - w) + field
  {
    hide Flat, Zeros;
    input.SetNextBits(w);
    input.UnreadLength();
    var ok;
    ok, data := input.Read(size);
    assert (field + more)[..w] == field && (field + more)[w..] == more;
  }

  method ReadAll(vec: seq<Bits>, size: nat, widths: seq<nat>, ghost values: seq<Bits>) returns (results: seq<Bits>)
    requires size > 0 && Fits(widths, values, 8 * size) && Bytes(vec) && Fields(widths, values, 8 * size) <= Flat(vec)
    requires forall i :: 0 <= i < |widths| ==> widths[i] > 0
    ensures |results| == |values|
    ensures forall i :: 0 <= i < |values| ==> results[i] == Zeros(8 * size - widths[i]) + values[i][8 * size - widths[i]..]
  {
    hide Flat, Zeros, Fields;
    var input := new BinaryIStream(vec);
    ghost var n, whole := 8 * size, Fields(widths, values, 8 * size);
    ghost var tail := Flat(vec)[|whole|..];
    assert widths[0..] == widths && values[0..] == values;
    results := [];
    for i := 0 to |widths|
      invariant fresh(input) && input.Valid()
      invariant input.Unread() == Fields(widths[i..], values[i..], n) + tail
      invariant |results| == i
      invariant forall k :: 0 <= k < i ==> results[k] == Zeros(n - widths[k]) + values[k][n - widths[k]..]
    {
      FieldThenRest(widths, values, n, i, tail);
      var data := ReadField(input, size, widths[i], values[i][n - widths[i]..], Fields(widths[i + 1..], values[i + 1..], n) + tail);
      results := results + [data];
    }
  }

  /** Any sequence of faithful writes, read back with the same widths. */
  method RoundTrip(size: nat, widths: seq<nat>, values: seq<Bits>) returns (results: seq<Bits>)
    requires size > 0 && Fits(widths, values, 8 * size) && PlacedAll(7, widths)
    ensures |results| == |values|
    ensures forall i :: 0 <= i < |values| ==> Value(results[i]) == Value(values[i]) % Pow2(widths[i])
  {
    hide Value, Pow2, Flat, Zeros, Fields, Placed, BitIdxAfter;
    var vec := WriteAll(size, widths, values);
    PositiveWidths(7, widths);
    results := ReadAll(vec, size, widths, values);
    forall i | 0 <= i < |values|
      ensures Value(results[i]) == Value(values[i]) % Pow2(widths[i])
    {
      LowBitsValue(values[i], widths[i]);
    }
  }

  lemma {:induction false} PositiveWidths(bitIdx: int, widths: seq<nat>)
    requires 0 <= bitIdx <= 7 && PlacedAll(bitIdx, widths)
    ensures forall i :: 0 <= i < |widths| ==> widths[i] > 0
    decreases |widths|
  {
    if widths != [] {
      PositiveWidths(BitIdxAfter(bitIdx, widths[0]), widths[1..]);
      assert forall i :: 1 <= i < |widths| ==> widths[i] == widths[1..][i - 1];
    }
  }
}
