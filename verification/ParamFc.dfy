/** The ParamFc message: header, control fields and a length-prefixed payload, written into and
    read back from an octet buffer (message_base.c and Msg_ParamFc.c). */
module ParamFc {
  import opened Arithmetic
  import opened CharCircularBuffer
  import opened Options
  import opened Serialization

  datatype Message = Message(
    msgType: Uint32, destination: Uint32, source: Uint32, msgNr: bv8, requireAck: bv8,
    control: bv8, sequenceNr: bv8, lastInSequence: bv8, payload: seq<bv8>)

  function Header(m: Message): (s: seq<bv8>)
    ensures |s| == 14
  {
    Bytes32(m.msgType) + Bytes32(m.destination) + Bytes32(m.source) + [m.msgNr, m.requireAck]
  }

  /** The octets of a message on the wire. */
  function Encode(m: Message): (s: seq<bv8>)
    requires |m.payload| < 0x1_0000_0000
    ensures |s| == 21 + |m.payload|
  {
    Header(m) + [m.control, m.sequenceNr, m.lastInSequence] + StringBytes(m.payload)
  }

  /** The message an octet string starts with, if it holds all the fields. */
  function Decode(s: seq<bv8>): Option<Message> {
    if |s| < 21 then None
    else
      var n := Word32(s[17..21]);
      if n > |s| - 21 then None
      else Some(Message(Word32(s[0..4]), Word32(s[4..8]), Word32(s[8..12]), s[12], s[13],
                        s[14], s[15], s[16], s[21..21 + n]))
  }

  /** Reading back what was written gives the message, whatever follows it in the buffer. */
  lemma DecodeEncode(m: Message, rest: seq<bv8>)
    requires |m.payload| < 0x1_0000_0000
    ensures Decode(Encode(m) + rest) == Some(m)
  {
    hide Bytes32, Word32;
    var s := Encode(m) + rest;
    assert s[0..4] == Bytes32(m.msgType);
    assert s[4..8] == Bytes32(m.destination);
    assert s[8..12] == Bytes32(m.source);
    assert s[17..21] == Bytes32(|m.payload|);
    assert s[21..21 + |m.payload|] == m.payload;
    Word32OfBytes(m.msgType);
    Word32OfBytes(m.destination);
    Word32OfBytes(m.source);
    Word32OfBytes(|m.payload|);
  }

  /** Where the fields lie on the wire. */
  lemma FieldsOnWire(m: Message)
    requires |m.payload| < 0x1_0000_0000
    ensures var s := Encode(m);
            && Word32(s[0..4]) == m.msgType && Word32(s[4..8]) == m.destination && Word32(s[8..12]) == m.source
            && s[12] == m.msgNr && s[13] == m.requireAck
            && s[14] == m.control && s[15] == m.sequenceNr && s[16] == m.lastInSequence
            && Word32(s[17..21]) == |m.payload| && s[21..] == m.payload
  {
    hide Bytes32, Word32;
    var s := Encode(m);
    assert s[0..4] == Bytes32(m.msgType) && s[4..8] == Bytes32(m.destination) && s[8..12] == Bytes32(m.source);
    assert s[17..21] == Bytes32(|m.payload|);
    Word32OfBytes(m.msgType);
    Word32OfBytes(m.destination);
    Word32OfBytes(m.source);
    Word32OfBytes(|m.payload|);
  }

  /** A buffer that decodes starts with the encoding of what was read. */
  lemma EncodeDecode(s: seq<bv8>)
    requires Decode(s).Some?
    ensures var m := Decode(s).value;
            |m.payload| < 0x1_0000_0000 && Encode(m) <= s
  {
    hide Bytes32, Word32;
    var m := Decode(s).value;
    Bytes32OfWord(s[0..4]);
    Bytes32OfWord(s[4..8]);
    Bytes32OfWord(s[8..12]);
    Bytes32OfWord(s[17..21]);
    assert Encode(m) == s[0..4] + s[4..8] + s[8..12] + s[12..17] + s[17..21] + s[21..21 + |m.payload|];
  }

  /** Msg_Serialize: its size argument is its own copy. */
  method SerializeHeader(m: Message, buffer: array<bv8>, bufferSize: nat) returns (next: Option<nat>)
    requires bufferSize <= buffer.Length
    modifies buffer
    ensures next.Some? <==> bufferSize >= 17
    ensures next.Some? ==> next.value == 14 && buffer[..] == Overwrite(old(buffer[..]), 0, Header(m))
  {
    hide Bytes32, Overwrite;
    ghost var store := buffer[..];
    var size := bufferSize;
    next, size := SerializeUint32(buffer, Some(0), size, m.msgType);
    next, size := SerializeUint32(buffer, next, size, m.destination);
    next, size := SerializeUint32(buffer, next, size, m.source);
    next, size := SerializeUint8(buffer, next, size, m.msgNr);
    next, size := SerializeUint8(buffer, next, size, m.requireAck);
    if next.Some? {
      var a, b := Bytes32(m.msgType), Bytes32(m.destination);
      OverwriteTwice(store, a, b);
      OverwriteTwice(store, a + b, Bytes32(m.source));
      OverwriteTwice(store, a + b + Bytes32(m.source), [m.msgNr]);
      OverwriteTwice(store, a + b + Bytes32(m.source) + [m.msgNr], [m.requireAck]);
      assert a + b + Bytes32(m.source) + [m.msgNr] + [m.requireAck] == Header(m);
    }
  }

  /** Msg_ParamFcSerialize. The space check does not count the header, so the caller must not
      offer a buffer that the check accepts but the message overruns. */
  method Serialize(m: Message, buffer: array<bv8>, bufferSize: nat) returns (next: Option<nat>)
    requires bufferSize <= buffer.Length && |m.payload| < 0x1_0000_0000
    requires |m.payload| + 21 <= bufferSize || bufferSize < |m.payload| + 7 || bufferSize < 17
    modifies buffer
    ensures next.Some? <==> |m.payload| + 21 <= bufferSize
    ensures next.Some? ==> next.value == |Encode(m)| && buffer[..] == Overwrite(old(buffer[..]), 0, Encode(m))
  {
    hide Header, Overwrite, StringBytes;
    ghost var store := buffer[..];
    var size := bufferSize;
    next := SerializeHeader(m, buffer, bufferSize);
    next, size := SerializeUint8(buffer, next, size, m.control);
    next, size := SerializeUint8(buffer, next, size, m.sequenceNr);
    next, size := SerializeUint8(buffer, next, size, m.lastInSequence);
    next, size := SerializeString(buffer, next, size, m.payload);
    if next.Some? {
      OverwriteTwice(store, Header(m), [m.control]);
      OverwriteTwice(store, Header(m) + [m.control], [m.sequenceNr]);
      OverwriteTwice(store, Header(m) + [m.control] + [m.sequenceNr], [m.lastInSequence]);
      var fixed := Header(m) + [m.control] + [m.sequenceNr] + [m.lastInSequence];
      OverwriteTwice(store, fixed, StringBytes(m.payload));
      assert fixed == Header(m) + [m.control, m.sequenceNr, m.lastInSequence];
      assert Encode(m) == fixed + StringBytes(m.payload);
    }
  }

  /** Msg_DeSerialize. */
  method DeserializeHeader(buffer: array<bv8>, bufferSize: nat)
    returns (next: Option<nat>, msgType: Uint32, destination: Uint32, source: Uint32, msgNr: bv8, requireAck: bv8)
    requires bufferSize <= buffer.Length
    ensures next == if bufferSize < 14 then None else Some(14)
    ensures next.Some? ==>
              && msgType == Word32(buffer[0..4]) && destination == Word32(buffer[4..8]) && source == Word32(buffer[8..12])
              && msgNr == buffer[12] && requireAck == buffer[13]
  {
    hide Word32;
    var size := bufferSize;
    next, size, msgType := DeserializeUint32(buffer, Some(0), size);
    next, size, destination := DeserializeUint32(buffer, next, size);
    next, size, source := DeserializeUint32(buffer, next, size);
    next, size, msgNr := DeserializeUint8(buffer, next, size);
    next, size, requireAck := DeserializeUint8(buffer, next, size);
  }

  lemma Within(b: seq<bv8>, n: nat, i: nat, j: nat)
    requires i <= j <= n <= |b|
    ensures b[..n][i..j] == b[i..j]
  {
  }

  /** Msg_ParamFcDeserialize; None when a field is missing. */
  method Deserialize(buffer: array<bv8>, bufferSize: nat) returns (m: Option<Message>)
    requires bufferSize <= buffer.Length
    ensures m == Decode(buffer[..bufferSize])
  {
    hide Word32;
    ghost var b := buffer[..];
    assert buffer[..bufferSize] == b[..bufferSize];
    var next, msgType, destination, source, msgNr, requireAck := DeserializeHeader(buffer, bufferSize);
    var size := if next.Some? then bufferSize - 14 else 0;
    var control, sequenceNr, lastInSequence, payload;
    next, size, control := DeserializeUint8(buffer, next, size);
    next, size, sequenceNr := DeserializeUint8(buffer, next, size);
    next, size, lastInSequence := DeserializeUint8(buffer, next, size);
    next, size, payload := DeserializeString(buffer, next, size, size);
    if bufferSize >= 21 {
      Within(b, bufferSize, 0, 4);
      Within(b, bufferSize, 4, 8);
      Within(b, bufferSize, 8, 12);
      Within(b, bufferSize, 17, 21);
    }
    if next.None? {
      return None;
    }
    Within(b, bufferSize, 21, next.value);
    return Some(Message(msgType, destination, source, msgNr, requireAck,
                        control, sequenceNr, lastInSequence, payload));
  }
}
