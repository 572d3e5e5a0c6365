/** The imperative side of slip_packet.c: building a frame in a fixed packet, checking a
    checksum in place, and the resumable parser object with its ring of pushed-back octets. */
module SlipPacket {
  import opened CharCircularBuffer
  import opened Crc16
  import opened Crc16Errors
  import opened SlipFraming
  import opened SlipParser

  class Slip {
    const payload: array<bv8>
    var packetSize: nat

    constructor (size: nat)
      ensures fresh(payload) && payload.Length == size && packetSize == 0
    {
      payload := new bv8[size];
      packetSize := 0;
    }
  }

  /** Append the checksum to the data in the buffer, high octet first. */
  method AddCrc(crcTable: array<bv16>, buffer: array<bv8>, dataLength: nat, bufferLength: nat)
    returns (ok: bool, newLength: nat)
    requires TableReady(crcTable[..])
    requires dataLength <= buffer.Length && bufferLength <= buffer.Length
    modifies buffer
    ensures ok == (dataLength + 2 <= bufferLength)
    ensures !ok ==> buffer[..] == old(buffer[..]) && newLength == dataLength
    ensures ok ==>
              && newLength == dataLength + 2
              && buffer[..newLength] == WithCrc(old(buffer[..dataLength]))
              && buffer[newLength..] == old(buffer[dataLength + 2..])
  {
    if bufferLength < dataLength + 2 {
      return false, dataLength;
    }
    var crcCalc := CrcFast(crcTable, buffer, dataLength);
    buffer[dataLength] := TopByte(crcCalc);
    buffer[dataLength + 1] := LowByte(crcCalc);
    ok, newLength := true, dataLength + 2;
    assert buffer[..newLength] == old(buffer[..dataLength]) + [TopByte(crcCalc), LowByte(crcCalc)];
  }

  /** Compare the checksum of all but the last two octets with those two. */
  method CheckCrc(crcTable: array<bv16>, buffer: array<bv8>, dataLength: nat)
    returns (ok: bool, newLength: nat)
    requires TableReady(crcTable[..])
    requires 2 <= dataLength <= buffer.Length
    ensures newLength == dataLength - 2
    ensures ok == CrcPasses(buffer[..dataLength])
  {
    hide Crc;
    var crcCalc := CrcFast(crcTable, buffer, dataLength - 2);
    assert buffer[..dataLength][..dataLength - 2] == buffer[..dataLength - 2];
    var crcMsg := Word(buffer[dataLength - 2], buffer[dataLength - 1]);
    newLength := dataLength - 2;
    ok := crcCalc == crcMsg;
  }

  predicate Escaped(b: bv8) {
    b == 0x7E || b == 0x7D
  }

  /** The one shape of packet for which the space check of the packing loop lets the closing
      flag past the end: a frame one octet too long whose last checksum octet is escaped. */
  predicate FlagUnreserved(payload: seq<bv8>, size: nat) {
    |Frame(payload)| == size + 1 && Escaped(WithCrc(payload)[|payload| + 1])
  }

  lemma StuffPrefix(data: seq<bv8>, i: nat)
    requires i < |data|
    ensures Stuff(data[..i + 1]) == Stuff(data[..i]) + StuffOctet(data[i])
    ensures |Stuff(data)| == |Stuff(data[..i + 1])| + |Stuff(data[i + 1..])|
  {
    assert data[..i + 1] == data[..i] + [data[i]];
    assert Stuff([data[i]]) == StuffOctet(data[i]) by {
      assert [data[i]][1..] == [];
    }
    StuffAppend(data[..i], [data[i]]);
    assert data == data[..i + 1] + data[i + 1..];
    StuffAppend(data[..i + 1], data[i + 1..]);
  }

  /** Write one octet, escaped where needed, at index k. */
  method PutOctet(payload: array<bv8>, k: nat, b: bv8) returns (next: nat)
    requires k + 2 <= payload.Length
    modifies payload
    ensures next == k + |StuffOctet(b)|
    ensures payload[..next] == old(payload[..k]) + StuffOctet(b)
  {
    next := k;
    if b == 0x7E {
      payload[next] := 0x7D;
      next := next + 1;
      payload[next] := 0x5E;
    } else if b == 0x7D {
      payload[next] := 0x7D;
      next := next + 1;
      payload[next] := 0x5D;
    } else {
      payload[next] := b;
    }
    next := next + 1;
  }

  /** Write the frame of the buffer's data into the packet; zero when it does not fit. */
  method Packetize(crcTable: array<bv16>, buffer: array<bv8>, dataLength: nat, bufferLength: nat, packet: Slip)
    returns (written: nat)
    requires TableReady(crcTable[..])
    requires dataLength <= buffer.Length && bufferLength <= buffer.Length
    requires buffer != packet.payload
    requires !FlagUnreserved(buffer[..dataLength], packet.payload.Length)
    modifies buffer, packet, packet.payload
    ensures var frame := Frame(old(buffer[..dataLength]));
            if dataLength + 2 <= bufferLength && |frame| <= packet.payload.Length
            then written == packet.packetSize == |frame| && packet.payload[..written] == frame
            else written == 0 && packet.packetSize == old(packet.packetSize)
    ensures buffer[..] ==
            if dataLength + 4 <= packet.payload.Length && dataLength + 2 <= bufferLength
            then WithCrc(old(buffer[..dataLength])) + old(buffer[dataLength + 2..])
            else old(buffer[..])
  {
    hide WithCrc, Stuff, StuffOctet;
    var size := packet.payload.Length;
    ghost var data := WithCrc(buffer[..dataLength]);
    if dataLength + 4 > size {
      return 0;
    }
    var ok, length := AddCrc(crcTable, buffer, dataLength, bufferLength);
    if !ok {
      return 0;
    }
    ghost var whole := buffer[..];
    assert data == buffer[..length] && whole == data + old(buffer[dataLength + 2..]);
    packet.payload[0] := 0x7E;
    var i, k := 0, 1;
    StuffEnds(data);
    while i < length
      invariant 0 <= i <= length && 1 <= k <= size
      invariant data == buffer[..length] && buffer[..] == whole
      invariant packet.packetSize == old(packet.packetSize)
      invariant k == 1 + |Stuff(data[..i])|
      invariant packet.payload[..k] == [0x7E] + Stuff(data[..i])
      invariant k == size ==> i > 0 && Escaped(data[i - 1])
    {
      StuffPrefix(data, i);
      StuffOctetSize(data[i]);
      if k + 2 > size {
        return 0;
      }
      k := PutOctet(packet.payload, k, buffer[i]);
      i := i + 1;
    }
    packet.payload[k] := 0x7E;
    k := k + 1;
    packet.packetSize := k;
    written := k;
  }

  lemma StuffOctetSize(b: bv8)
    ensures |StuffOctet(b)| == if Escaped(b) then 2 else 1
  {
  }

  lemma StuffEnds(data: seq<bv8>)
    ensures Stuff(data[..0]) == []
    ensures data[..|data|] == data
  {
  }

  // ---------------------------------------------------------------- parser

  class Parser {
    const cBuffer: CharCircBuffer
    var startFound: bool
    var index: nat
    var controlEscapeFound: bool

    constructor (internalBuffSize: nat)
      ensures fresh(cBuffer) && fresh(cBuffer.buffer) && cBuffer.Valid()
      ensures cBuffer.capacity == internalBuffSize && cBuffer.Contents() == []
      ensures !startFound && index == 0 && !controlEscapeFound
    {
      cBuffer := new CharCircBuffer(internalBuffSize);
      startFound, index, controlEscapeFound := false, 0, false;
    }

    ghost predicate Valid(packet: Slip)
      reads this, cBuffer
    {
      && cBuffer.Valid()
      && index <= packet.payload.Length
      && cBuffer.buffer != packet.payload
    }

    ghost function Abs(packet: Slip): (s: Fields)
      requires Valid(packet)
      reads this, cBuffer, cBuffer.buffer, packet, packet.payload
    {
      Fields(packet.payload[..], index, startFound, controlEscapeFound,
             cBuffer.Contents(), packet.packetSize)
    }

    method Reset()
      modifies this
      ensures !startFound && index == 0 && !controlEscapeFound
    {
      startFound, index, controlEscapeFound := false, 0, false;
    }

    /** The inner loop's body for one octet. */
    method ParseOctet(crcTable: array<bv16>, b: bv8, packet: Slip) returns (verdict: Verdict)
      requires TableReady(crcTable[..])
      requires Valid(packet) && index < packet.payload.Length
      modifies this, packet, packet.payload
      ensures Valid(packet)
      ensures (Abs(packet), verdict) == Octet(old(Abs(packet)), b)
    {
      hide CrcPasses, Window, TableReady;
      verdict := Going;
      if controlEscapeFound {
        controlEscapeFound := false;
        if b == 0x5D {
          packet.payload[index] := 0x7D;
          index := index + 1;
        } else if b == 0x5E {
          packet.payload[index] := 0x7E;
          index := index + 1;
        } else {
          Reset();
          verdict := Failed(EscapeError);
        }
      } else if b == 0x7E {
        if startFound && index > 4 {
          packet.packetSize := index;
          assert packet.payload[..][..index] == packet.payload[..index];
          index, startFound, controlEscapeFound := 0, false, false;
          var crcOk, size := CheckCrc(crcTable, packet.payload, packet.packetSize);
          packet.packetSize := size;
          if !crcOk {
            Reset();
            verdict := Failed(CrcError);
          } else {
            verdict := Complete;
          }
        } else {
          index, startFound := 0, true;
        }
      } else if b == 0x7D {
        controlEscapeFound := true;
      } else {
        packet.payload[index] := b;
        index := index + 1;
      }
    }

    /** The inner loop over one buffer. */
    method ParseBlock(crcTable: array<bv16>, buffer: seq<bv8>, packet: Slip, wasComplete: bool)
      returns (complete: bool, verdict: Verdict)
      requires TableReady(crcTable[..])
      requires Valid(packet) && index + |buffer| <= packet.payload.Length
      modifies this, cBuffer, cBuffer.buffer, packet, packet.payload
      ensures Valid(packet)
      ensures BlockResult(Abs(packet), complete, verdict)
           == Block(old(Abs(packet)), cBuffer.capacity, buffer, wasComplete)
    {
      hide Octet, Window, TableReady, CrcPasses;
      complete, verdict := wasComplete, Going;
      var i := 0;
      while i < |buffer|
        invariant 0 <= i <= |buffer|
        invariant Valid(packet) && index + (|buffer| - i) <= packet.payload.Length
        invariant i > 0 ==> !complete
        invariant verdict == Going
        invariant Block(Abs(packet), cBuffer.capacity, buffer[i..], complete)
               == Block(old(Abs(packet)), cBuffer.capacity, buffer, wasComplete)
      {
        var v := ParseOctet(crcTable, buffer[i], packet);
        if v.Failed? {
          verdict := v;
          return;
        }
        if v.Complete? {
          complete := true;
        }
        if complete {
          var pushed := cBuffer.Push(buffer[i..]);
          return;
        }
        assert buffer[i..][1..] == buffer[i + 1..];
        i := i + 1;
      }
    }

    method PopOctet() returns (b: bv8)
      requires cBuffer.Valid() && cBuffer.count > 0
      modifies cBuffer
      ensures cBuffer.Valid()
      ensures b == old(cBuffer.Contents())[0] && cBuffer.Contents() == old(cBuffer.Contents())[1..]
    {
      hide Window;
      var target := new bv8[1];
      var popped := cBuffer.Pop(target, 1);
      b := target[0];
      assert b == target[..][0];
    }

    /** Consume the buffered octets and the new input; OK as soon as a frame is complete. */
    method Parse(crcTable: array<bv16>, input: seq<bv8>, packet: Slip) returns (status: Status)
      requires TableReady(crcTable[..])
      requires Valid(packet)
      modifies this, cBuffer, cBuffer.buffer, packet, packet.payload
      ensures Valid(packet)
      ensures (Abs(packet), status)
           == SlipParser.Parse(old(Abs(packet)), cBuffer.capacity, |old(cBuffer.Contents())|, input, false)
    {
      hide Block, Window, TableReady, CrcPasses;
      var packetComplete := false;
      var nrBuffered := cBuffer.NrElements();
      var inputLeft := input;
      while |inputLeft| > 0 || nrBuffered > 0
        invariant Valid(packet) && 0 <= nrBuffered <= cBuffer.count
        invariant SlipParser.Parse(Abs(packet), cBuffer.capacity, nrBuffered, inputLeft, packetComplete)
               == SlipParser.Parse(old(Abs(packet)), cBuffer.capacity, |old(cBuffer.Contents())|, input, false)
        decreases nrBuffered + |inputLeft|
      {
        var buffer: seq<bv8>;
        if nrBuffered > 0 {
          var dataFromFifo := PopOctet();
          buffer := [dataFromFifo];
          nrBuffered := nrBuffered - 1;
        } else {
          buffer := inputLeft;
          inputLeft := [];
        }
        if |buffer| > packet.payload.Length - index {
          Reset();
          status := LengthError;
          return;
        }
        var complete, verdict := ParseBlock(crcTable, buffer, packet, packetComplete);
        if verdict.Failed? {
          status := verdict.status;
          return;
        }
        packetComplete := complete;
      }
      status := if packetComplete then OK else Cont;
    }
  }
}
