/** Big-endian serialization into and out of octet buffers, with the cursor and the remaining
    size that every primitive of serialization.c threads through; None stands for the null
    cursor that a failed step hands to all later ones. */
module Serialization {
  import opened Arithmetic
  import opened CharCircularBuffer
  import opened Options

  function OctetOf(n: nat): bv8
    requires n < 256
  {
    n as bv8
  }

  function ValueOf(b: bv8): (n: nat)
    ensures n < 256
  {
    b as int
  }

  lemma ValueOfOctet(n: nat)
    requires n < 256
    ensures ValueOf(OctetOf(n)) == n
  {
    assert (n as bv8) as int == n by {
      assert n % 256 == n;
    }
  }

  lemma OctetOfValue(b: bv8)
    ensures OctetOf(ValueOf(b)) == b
  {
  }

  function Bytes32(v: Uint32): (s: seq<bv8>)
    ensures |s| == 4
  {
    [OctetOf(v / 0x100_0000), OctetOf(v / 0x1_0000 % 0x100), OctetOf(v / 0x100 % 0x100), OctetOf(v % 0x100)]
  }

  function Word32(s: seq<bv8>): (v: Uint32)
    requires |s| == 4
  {
    ValueOf(s[0]) * 0x100_0000 + ValueOf(s[1]) * 0x1_0000 + ValueOf(s[2]) * 0x100 + ValueOf(s[3])
  }

  lemma Recompose(v: Uint32)
    ensures v / 0x100_0000 * 0x100_0000 + v / 0x1_0000 % 0x100 * 0x1_0000
          + v / 0x100 % 0x100 * 0x100 + v % 0x100 == v
  {
    var x := v / 0x100;
    var y := x / 0x100;
    assert v / 0x1_0000 == y && v / 0x100_0000 == y / 0x100;
  }

  lemma Word32OfBytes(v: Uint32)
    ensures Word32(Bytes32(v)) == v
  {
    hide OctetOf, ValueOf;
    Recompose(v);
    ValueOfOctet(v / 0x100_0000);
    ValueOfOctet(v / 0x1_0000 % 0x100);
    ValueOfOctet(v / 0x100 % 0x100);
    ValueOfOctet(v % 0x100);
  }

  /** Of the four octets of a number the first has the highest place. */
  lemma BigEndian(v: Uint32)
    ensures var s := Bytes32(v);
            v == ((ValueOf(s[0]) * 256 + ValueOf(s[1])) * 256 + ValueOf(s[2])) * 256 + ValueOf(s[3])
  {
    hide ValueOf, OctetOf;
    Word32OfBytes(v);
  }

  lemma OneTwoThreeFour()
    ensures Bytes32(0x0102_0304) == [1, 2, 3, 4]
  {
    hide OctetOf;
    FirstOctets();
  }

  lemma FirstOctets()
    ensures OctetOf(1) == 1 && OctetOf(2) == 2 && OctetOf(3) == 3 && OctetOf(4) == 4
  {
  }

  lemma Digits256(a: nat, b: nat, c: nat, d: nat)
    requires a < 256 && b < 256 && c < 256 && d < 256
    ensures var v := a * 0x100_0000 + b * 0x1_0000 + c * 0x100 + d;
            v / 0x100_0000 == a && v / 0x1_0000 % 0x100 == b && v / 0x100 % 0x100 == c && v % 0x100 == d
  {
    var y := a * 0x100 + b;
    var x := y * 0x100 + c;
    var v := x * 0x100 + d;
    assert v / 0x100 == x && x / 0x100 == y && y / 0x100 == a;
    assert v / 0x1_0000 == v / 0x100 / 0x100 && v / 0x100_0000 == v / 0x1_0000 / 0x100;
  }

  lemma Bytes32OfWord(s: seq<bv8>)
    requires |s| == 4
    ensures Bytes32(Word32(s)) == s
  {
    hide OctetOf, ValueOf;
    Digits256(ValueOf(s[0]), ValueOf(s[1]), ValueOf(s[2]), ValueOf(s[3]));
    OctetOfValue(s[0]);
    OctetOfValue(s[1]);
    OctetOfValue(s[2]);
    OctetOfValue(s[3]);
  }

  // ---------------------------------------------------------------- writing

  method SerializeUint32(buffer: array<bv8>, at: Option<nat>, size: nat, value: Uint32)
    returns (next: Option<nat>, left: nat)
    requires at.Some? && size >= 4 ==> at.value + 4 <= buffer.Length
    modifies buffer
    ensures at.None? || size < 4 ==> next == None && left == size && buffer[..] == old(buffer[..])
    ensures at.Some? && size >= 4 ==> next == Some(at.value + 4) && left == size - 4
    ensures at.Some? && size >= 4 ==> buffer[..] == Overwrite(old(buffer[..]), at.value, Bytes32(value))
  {
    hide OctetOf;
    if at.None? || size < 4 {
      return None, size;
    }
    var i := at.value;
    buffer[i] := OctetOf(value / 0x100_0000);
    buffer[i + 1] := OctetOf(value / 0x1_0000 % 0x100);
    buffer[i + 2] := OctetOf(value / 0x100 % 0x100);
    buffer[i + 3] := OctetOf(value % 0x100);
    return Some(i + 4), size - 4;
  }

  /** One octet; the size check of the original asks for four. */
  method SerializeUint8(buffer: array<bv8>, at: Option<nat>, size: nat, value: bv8)
    returns (next: Option<nat>, left: nat)
    requires at.Some? && size >= 4 ==> at.value + 1 <= buffer.Length
    modifies buffer
    ensures at.None? || size < 4 ==> next == None && left == size && buffer[..] == old(buffer[..])
    ensures at.Some? && size >= 4 ==> next == Some(at.value + 1) && left == size - 1
    ensures at.Some? && size >= 4 ==> buffer[..] == Overwrite(old(buffer[..]), at.value, [value])
  {
    if at.None? || size < 4 {
      return None, size;
    }
    buffer[at.value] := value;
    return Some(at.value + 1), size - 1;
  }

  function StringBytes(s: seq<bv8>): (r: seq<bv8>)
    requires |s| < 0x1_0000_0000
    ensures |r| == 4 + |s|
  {
    Bytes32(|s|) + s
  }

  method SerializeString(buffer: array<bv8>, at: Option<nat>, size: nat, text: seq<bv8>)
    returns (next: Option<nat>, left: nat)
    requires |text| < 0x1_0000_0000
    requires at.Some? && |text| + 4 <= size ==> at.value + |text| + 4 <= buffer.Length
    modifies buffer
    ensures at.None? || |text| + 4 > size ==> next == None && left == size && buffer[..] == old(buffer[..])
    ensures at.Some? && |text| + 4 <= size ==> next == Some(at.value + |text| + 4) && left == size - 4 - |text|
    ensures at.Some? && |text| + 4 <= size ==> buffer[..] == Overwrite(old(buffer[..]), at.value, StringBytes(text))
  {
    if at.None? || |text| + 4 > size {
      return None, size;
    }
    hide Bytes32;
    next, left := SerializeUint32(buffer, at, size, |text|);
    CopyTo(buffer, next.value, text);
    next, left := Some(next.value + |text|), left - |text|;
  }

  // ---------------------------------------------------------------- reading

  method DeserializeUint32(buffer: array<bv8>, at: Option<nat>, size: nat)
    returns (next: Option<nat>, left: nat, value: Uint32)
    requires at.Some? && size >= 4 ==> at.value + 4 <= buffer.Length
    ensures at.None? || size < 4 ==> next == None && left == size
    ensures at.Some? && size >= 4 ==> next == Some(at.value + 4) && left == size - 4
    ensures at.Some? && size >= 4 ==> value == Word32(buffer[at.value..at.value + 4])
  {
    hide ValueOf;
    if at.None? || size < 4 {
      return None, size, 0;
    }
    var i := at.value;
    value := ValueOf(buffer[i]) * 0x100_0000 + ValueOf(buffer[i + 1]) * 0x1_0000
           + ValueOf(buffer[i + 2]) * 0x100 + ValueOf(buffer[i + 3]);
    next, left := Some(i + 4), size - 4;
  }

  method DeserializeUint8(buffer: array<bv8>, at: Option<nat>, size: nat)
    returns (next: Option<nat>, left: nat, value: bv8)
    requires at.Some? && size >= 1 ==> at.value < buffer.Length
    ensures at.None? || size < 1 ==> next == None && left == size
    ensures at.Some? && size >= 1 ==> next == Some(at.value + 1) && left == size - 1 && value == buffer[at.value]
  {
    if at.None? || size < 1 {
      return None, size, 0;
    }
    return Some(at.value + 1), size - 1, buffer[at.value];
  }

  /** A length and that many octets, if neither the data nor the target is shorter. */
  method DeserializeString(buffer: array<bv8>, at: Option<nat>, size: nat, room: nat)
    returns (next: Option<nat>, left: nat, text: seq<bv8>)
    requires at.Some? ==> at.value + size <= buffer.Length
    ensures next.Some? <==>
              && at.Some? && size >= 4
              && Word32(buffer[at.value..at.value + 4]) <= size - 4
              && Word32(buffer[at.value..at.value + 4]) <= room
    ensures next.Some? ==>
              && next.value == at.value + 4 + |text| && left == size - 4 - |text|
              && |text| == Word32(buffer[at.value..at.value + 4])
              && text == buffer[at.value + 4..next.value]
  {
    hide Word32;
    if at.None? {
      return None, size, [];
    }
    var n: Uint32;
    next, left, n := DeserializeUint32(buffer, at, size);
    if n > left || n > room || next.None? {
      return None, left, [];
    }
    text := buffer[next.value..next.value + n];
    next, left := Some(next.value + n), left - n;
  }
}
