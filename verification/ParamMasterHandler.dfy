/** The parameter master: the message handler branches that save the parameters collected from
    the handlers and load them back (paramMasterHandler.c). */
module ParamMasterHandler {
  import opened Arithmetic
  import opened CharCircularBuffer
  import opened Options
  import opened Serialization
  import opened ParamFc
  import opened Crc16
  import opened SlipFraming
  import opened SlipParser
  import opened SlipPacket
  import opened ParamStore

  class ParamMaster {
    const memory: array<bv8>
    const startAddr: nat
    const stopAddr: nat
    const handlerId: Uint32
    const crcTable: array<bv16>
    const parser: Parser
    var nrRegisteredHandlers: nat
    var currentlySaving: nat
    var saveSequence: nat
    var setAddress: nat
    var ready: bool

    constructor (memory: array<bv8>, startAddr: nat, stopAddr: nat, handlerId: Uint32, crcTable: array<bv16>)
      requires stopAddr <= memory.Length && TableReady(crcTable[..])
      ensures Valid() && this.memory == memory && this.handlerId == handlerId
      ensures this.startAddr == startAddr && this.stopAddr == stopAddr
      ensures nrRegisteredHandlers == 0
      ensures Saved() == Saver(memory[..], startAddr, 0, 0, true)
      ensures Hears(IDLE)
      ensures fresh(parser) && fresh(parser.cBuffer) && fresh(parser.cBuffer.buffer)
    {
      this.memory, this.startAddr, this.stopAddr := memory, startAddr, stopAddr;
      this.handlerId, this.crcTable := handlerId, crcTable;
      parser := new Parser(SLIP_PACKET_LEN);
      nrRegisteredHandlers, currentlySaving, saveSequence := 0, 0, 0;
      setAddress, ready := startAddr, true;
    }

    ghost predicate Valid()
      reads this, parser, parser.cBuffer, parser.cBuffer.buffer, crcTable
    {
      && stopAddr <= memory.Length
      && TableReady(crcTable[..])
      && saveSequence < 256
      && parser.cBuffer.Valid() && parser.cBuffer.capacity == SLIP_PACKET_LEN
      && parser.cBuffer.buffer != memory
      && ParserSettled()
    }

    /** Only a closing flag is ever pushed back between two octets from memory. */
    ghost predicate ParserSettled()
      requires parser.cBuffer.Valid()
      reads parser, parser.cBuffer, parser.cBuffer.buffer
    {
      && parser.index <= SLIP_PACKET_LEN
      && (|| parser.cBuffer.Contents() == []
          || (parser.cBuffer.Contents() == [0x7E] && parser.index == 0 && !parser.startFound && !parser.controlEscapeFound))
    }

    function Region(): Layout
      reads this
    {
      Layout(startAddr, stopAddr, nrRegisteredHandlers)
    }

    /** The state of an ongoing save. */
    function Saved(): Saver
      reads this, memory
    {
      Saver(memory[..], setAddress, saveSequence, currentlySaving, ready)
    }

    /** The parser is in the state of a receiver. Octets it has already decoded went into an
        earlier packet: how many they are counts, what they are depends on the next packet. */
    ghost predicate Hears(r: Receiver)
      requires parser.cBuffer.Valid()
      reads parser, parser.cBuffer, parser.cBuffer.buffer
    {
      if parser.cBuffer.Contents() == [0x7E] then r == OPENED
      else |r.data| == parser.index && r.start == parser.startFound && r.escape == parser.controlEscapeFound
    }

    /** Serialize a message into a new packet. */
    method Packed(m: Message) returns (written: nat, packet: Slip)
      requires Valid() && |m.payload| + 21 <= SLIP_PACKET_LEN
      requires !FlagUnreserved(Encode(m), SLIP_PACKET_LEN)
      ensures fresh(packet) && fresh(packet.payload) && written == packet.packetSize <= packet.payload.Length
      ensures var frame := Frame(Encode(m));
              if |frame| <= SLIP_PACKET_LEN then written == |frame| && packet.payload[..written] == frame else written == 0
    {
      hide Encode, Frame, FlagUnreserved, TableReady, WithCrc;
      var serializeBuffer := new bv8[SLIP_PACKET_LEN];
      var buffP := Serialize(m, serializeBuffer, SLIP_PACKET_LEN);
      assert serializeBuffer[..buffP.value] == Encode(m);
      packet := new Slip(SLIP_PACKET_LEN);
      written := Packetize(crcTable, serializeBuffer, buffP.value, SLIP_PACKET_LEN, packet);
    }

    /** Count the handlers that are done, and make the answer the message to store. */
    method Stamp(msg: Message) returns (m: Message)
      requires saveSequence < 256
      modifies this`currentlySaving, this`ready
      ensures m == Stamped(Region(), old(Saved()), msg)
      ensures var ends := EndsSave(Region(), old(Saved()), msg);
              && ready == (ends || old(ready))
              && currentlySaving == if ends then 0 else if msg.lastInSequence != 0 then old(currentlySaving) + 1 else old(currentlySaving)
    {
      var last := 0;
      if msg.lastInSequence != 0 {
        currentlySaving := currentlySaving + 1;
        if currentlySaving >= nrRegisteredHandlers {
          last := 1;
          currentlySaving := 0;
          ready := true;
        }
      }
      m := msg.(lastInSequence := last, control := 0, destination := msg.source,
                sequenceNr := OctetOf(saveSequence));
    }

    method StartOver()
      modifies this`ready, this`saveSequence, this`setAddress, this`currentlySaving
      ensures ready && saveSequence == 0 && setAddress == startAddr && currentlySaving == 0
    {
      ready, saveSequence, setAddress, currentlySaving := true, 0, startAddr, 0;
    }

    /** Mem_Write at the current address, by a memory that takes so many octets at most. */
    method Write(packet: Slip, takes: nat) returns (ok: bool)
      requires packet.packetSize <= packet.payload.Length && setAddress + packet.packetSize <= memory.Length
      requires packet.payload != memory
      modifies memory
      ensures ok == (packet.packetSize <= takes)
      ensures var frame := packet.payload[..packet.packetSize];
              memory[..] == Overwrite(old(memory[..]), setAddress, if ok then frame else frame[..takes])
    {
      ok := packet.packetSize <= takes;
      CopyTo(memory, setAddress, packet.payload[..if ok then packet.packetSize else takes]);
      assert !ok ==> packet.payload[..packet.packetSize][..takes] == packet.payload[..takes];
    }

    /** A param_save answer: store the message; ask the next handler unless all is saved. The
        memory takes the first `takes` octets of a write, which fails if it has more. The frame that
        is stored is spelt out; what the rest of the state becomes is that of the save function. */
    method HandleSave(msg: Message, takes: nat) returns (ok: bool, request: Option<nat>)
      requires Valid() && |msg.payload| + 21 <= SLIP_PACKET_LEN
      requires !FlagUnreserved(Encode(Stamped(Region(), Saved(), msg)), SLIP_PACKET_LEN)
      modifies this, memory
      ensures Valid() && nrRegisteredHandlers == old(nrRegisteredHandlers)
      ensures var l, s := Region(), old(Saved());
              var broken := Storable(l, s, msg) && takes < |StoredFrame(l, s, msg)|;
              && ok == (Storable(l, s, msg) && !broken)
              && Saved() == (if broken then BrokenOff(l, s, msg, takes) else Save(l, s, msg))
              && request == if Storable(l, s, msg) && !EndsSave(l, s, msg) then Some(Save(l, s, msg).saving) else None
      ensures var last := if msg.lastInSequence != 0 && old(currentlySaving) + 1 >= nrRegisteredHandlers then 1 else 0;
              var frame := Frame(Encode(Message(msg.msgType, msg.source, msg.source, msg.msgNr, msg.requireAck, 0,
                                                OctetOf(old(saveSequence)), last, msg.payload)));
              && (ok <==> |frame| <= 260 && old(setAddress) + |frame| < stopAddr && |frame| <= takes)
              && (ok ==> memory[..] == Overwrite(old(memory[..]), old(setAddress), frame))
              && (ok && last == 0 ==>
                   && setAddress == old(setAddress) + |frame| + 1 && saveSequence == (old(saveSequence) + 1) % 256
                   && currentlySaving == old(currentlySaving) + (if msg.lastInSequence != 0 then 1 else 0)
                   && request == Some(currentlySaving) && ready == old(ready))
              && (ok && last == 1 ==> request == None)
              && (!ok || last == 1 ==> ready && saveSequence == 0 && setAddress == startAddr && currentlySaving == 0)
    {
      hide Encode, Frame, StoredFrame, FlagUnreserved, OctetOf, TableReady, Overwrite, ParserSettled;
      ghost var before := Saved();
      var m := Stamp(msg);
      StoredFrameIsFrame(Region(), before, msg);
      ghost var frame := StoredFrame(Region(), before, msg);
      var written, packet := Packed(m);
      if written == 0 || !(setAddress + packet.packetSize < stopAddr) {
        StartOver();
        ok, request := false, None;
        return;
      }
      ok := Write(packet, takes);
      setAddress := setAddress + packet.packetSize + 1;
      if m.lastInSequence == 0 {
        request := Some(currentlySaving);
        saveSequence := (saveSequence + 1) % 256;
      } else {
        request := None;
        saveSequence := 0;
        setAddress := startAddr;
      }
      if !ok {
        StartOver();
      }
    }

    lemma SettledFields(packet: Slip)
      requires parser.cBuffer.Valid() && parser.Valid(packet) && packet.payload.Length == SLIP_PACKET_LEN
      ensures ParserSettled() <==> Settled(parser.Abs(packet))
      ensures ParserSettled() ==> Hears(View(parser.Abs(packet)))
      ensures ParserSettled() && Hears(OPENED) ==> View(parser.Abs(packet)) == OPENED
    {
    }

    /** Read from memory into the parser until it reports something; at most 261 octets. */
    method ReadPacket(packet: Slip, startAddress: nat) returns (status: Status, address: nat)
      requires Valid() && parser.Valid(packet) && packet.payload.Length == SLIP_PACKET_LEN
      requires packet.payload != memory
      modifies parser, parser.cBuffer, parser.cBuffer.buffer, packet, packet.payload
      ensures Valid() && parser.Valid(packet)
      ensures address <= memory.Length || address == startAddress
      ensures match ReadFrame(memory[..], View(old(parser.Abs(packet))), startAddress, startAddress)
              case ReadFailed(r) => status != OK && View(parser.Abs(packet)) == r
              case Read(payload, next, r) =>
                && status == OK && address == next && View(parser.Abs(packet)) == r
                && packet.packetSize <= packet.payload.Length
                && packet.payload[..packet.packetSize] == payload
    {
      hide Step, Call, View, Settled, TableReady;
      status, address := Cont, startAddress;
      while status == Cont
        invariant Valid() && parser.Valid(packet)
        invariant startAddress <= address && (address <= memory.Length || address == startAddress)
        invariant status == Cont ==>
          && ReadFrame(memory[..], View(parser.Abs(packet)), startAddress, address)
          == ReadFrame(memory[..], View(old(parser.Abs(packet))), startAddress, startAddress)
        invariant status != Cont ==>
          match ReadFrame(memory[..], View(old(parser.Abs(packet))), startAddress, startAddress)
          case ReadFailed(r) => status != OK && View(parser.Abs(packet)) == r
          case Read(payload, next, r) =>
            && status == OK && address == next && View(parser.Abs(packet)) == r
            && packet.packetSize <= packet.payload.Length
            && packet.payload[..packet.packetSize] == payload
        decreases status == Cont, memory.Length - address
      {
        if address >= memory.Length || address - startAddress > SLIP_PACKET_LEN {
          status := Nok;
        } else {
          var buffer := memory[address];
          ghost var s := parser.Abs(packet);
          SettledFields(packet);
          CallIsStep(s, SLIP_PACKET_LEN, buffer);
          CallResult(s, SLIP_PACKET_LEN, [buffer]);
          assert memory[..][address] == buffer;
          status := parser.Parse(crcTable, [buffer], packet);
          SettledFields(packet);
          address := address + 1;
        }
      }
    }

    /** param_load: send on every stored message, up to and including the last. Whatever state
        the parser is in, what is sent and the state it is left in are those of the load function;
        `heard` is that state with the first packet's contents as the octets already decoded. */
    method HandleLoad() returns (ok: bool, sent: seq<Message>, ghost heard: Receiver, ghost left: Receiver)
      requires Valid()
      modifies this`ready, parser, parser.cBuffer, parser.cBuffer.buffer
      ensures Valid() && ready
      ensures old(Hears(heard)) && Hears(left)
      ensures LoadResult(sent, ok, left) == Load(memory[..], handlerId, heard, startAddr, 0)
    {
      hide View, Settled, ReadFrame, TableReady, Decode, Hears, Load, After;
      ok, sent, ready := true, [], true;
      var lastInSequence: bv8 := 0;
      var expectedSequenceNo := 0;
      var address := startAddr;
      ghost var started := false;
      heard, left := OPENED, OPENED;
      while lastInSequence == 0
        invariant Valid() && ready && ok && 0 <= expectedSequenceNo < 256
        invariant !started ==>
          && unchanged(parser, parser.cBuffer, parser.cBuffer.buffer)
          && sent == [] && address == startAddr && expectedSequenceNo == 0 && lastInSequence == 0
        invariant started ==>
          && old(Hears(heard)) && Hears(OPENED) && left == OPENED
          && Load(memory[..], handlerId, heard, startAddr, 0)
          == (if lastInSequence != 0 then LoadResult(sent, ok, left)
              else After(sent, Load(memory[..], handlerId, OPENED, address, expectedSequenceNo)))
        decreases lastInSequence == 0, memory.Length - address
      {
        var packet := new Slip(SLIP_PACKET_LEN);
        SettledFields(packet);
        ghost var r := View(parser.Abs(packet));
        if !started {
          started, heard := true, r;
          NothingSent(Load(memory[..], handlerId, heard, startAddr, 0));
        }
        LoadTurn(memory[..], handlerId, r, address, expectedSequenceNo, sent);
        var status, next := ReadPacket(packet, address);
        SettledFields(packet);
        left := View(parser.Abs(packet));
        if status != OK {
          ok := false;
          return;
        }
        address := next;
        var m := Deserialize(packet.payload, packet.packetSize);
        if m.None? || ValueOf(m.value.sequenceNr) != expectedSequenceNo {
          ok := false;
          return;
        }
        lastInSequence := m.value.lastInSequence;
        expectedSequenceNo := (expectedSequenceNo + 1) % 256;
        sent := sent + [m.value.(source := handlerId)];
      }
    }
  }

  /** The result of a load that had already sent some messages. */
  function After(sent: seq<Message>, rest: LoadResult): LoadResult {
    rest.(sent := sent + rest.sent)
  }

  lemma NothingSent(r: LoadResult)
    ensures After([], r) == r
  {
  }

  /** One turn of the loop over the stored frames. */
  lemma LoadTurn(memory: seq<bv8>, self: Uint32, r: Receiver, address: nat, expected: nat, sent: seq<Message>)
    requires expected < 256
    ensures var whole := After(sent, Load(memory, self, r, address, expected));
            match ReadFrame(memory, r, address, address)
            case ReadFailed(r') => whole == LoadResult(sent, false, r')
            case Read(payload, next, r') =>
              && r' == OPENED
              && match Decode(payload)
                 case None => whole == LoadResult(sent, false, r')
                 case Some(m) =>
                   if ValueOf(m.sequenceNr) != expected then whole == LoadResult(sent, false, r')
                   else if m.lastInSequence != 0 then whole == LoadResult(sent + [m.(source := self)], true, r')
                   else whole == After(sent + [m.(source := self)], Load(memory, self, r', next, (expected + 1) % 256))
  {
    hide ReadFrame, Decode, ValueOf;
  }

  /** The round trip on the object, from any state of the parser: after an uninterrupted save
      from the start of the region, a load that is not misled by what the parser still holds
      succeeds exactly when the gaps are clean and the parser is not deaf, and then sends every
      saved answer back as a set command, in order. It leaves a parser that listens, so the next
      load is decided by the gaps alone. */
  method SaveThenLoad(master: ParamMaster, ms: seq<Message>)
    returns (ok: bool, sent: seq<Message>, ghost heard: Receiver, ghost left: Receiver)
    requires master.Valid()
    requires master.setAddress == master.startAddr && master.saveSequence == 0
    requires Fits(ms) && CompleteSave(master.Region(), master.Saved(), ms)
    modifies master, master.memory, master.parser, master.parser.cBuffer, master.parser.cBuffer.buffer
    ensures old(master.Hears(heard))
    ensures LoadResult(sent, ok, left) == LoadedBy(old(master.Region()), old(master.Saved()), ms, master.handlerId, heard)
    ensures !Misled(heard, SLIP_PACKET_LEN) ==> (ok <==> CleanGaps(old(master.Region()), old(master.Saved()), ms) && !Deaf(heard, SLIP_PACKET_LEN))
    ensures !Misled(heard, SLIP_PACKET_LEN) && ok ==>
              && sent == FromSelf(master.handlerId, StampedAll(old(master.Region()), old(master.Saved()), ms))
              && Returned(sent, ms, master.handlerId)
    ensures master.Valid() && master.Hears(left) && Listens(left, SLIP_PACKET_LEN)
    ensures master.memory[..] == SaveAll(old(master.Region()), old(master.Saved()), ms).memory
  {
    hide CompleteSave, Save, SaveAll, Load, StampedAll, CleanGaps, TableReady, LoadedBy, Misled, Deaf, Listens, FromSelf,
      Returned;
    ghost var l, s := master.Region(), master.Saved();
    var i := 0;
    SaveAllStep(l, s, ms);
    while i < |ms|
      invariant 0 <= i <= |ms|
      invariant master.Valid() && master.Region() == l
      invariant unchanged(master.parser, master.parser.cBuffer, master.parser.cBuffer.buffer)
      invariant i < |ms| ==> CompleteSave(l, master.Saved(), ms[i..])
      invariant Fits(ms[i..])
      invariant SaveAll(l, master.Saved(), ms[i..]) == SaveAll(l, s, ms)
    {
      CompleteParts(l, master.Saved(), ms[i..]);
      SaveAllStep(l, master.Saved(), ms[i..]);
      StorableFits(l, master.Saved(), ms[i]);
      assert ms[i..][1..] == ms[i + 1..];
      var stored, request := master.HandleSave(ms[i], SLIP_PACKET_LEN);
      i := i + 1;
    }
    SaveAllStep(l, master.Saved(), ms[i..]);
    ok, sent, heard, left := master.HandleLoad();
    LoadAfterSave(l, s, ms, master.handlerId, heard);
    SavedReturned(l, s, ms, master.handlerId);
    LeftListens(left);
  }

  lemma LeftListens(left: Receiver)
    requires left in {IDLE, OPENED}
    ensures Listens(left, SLIP_PACKET_LEN)
  {
  }

  lemma SaveAllStep(l: Layout, s: Saver, ms: seq<Message>)
    requires s.sequence < 256 && l.stop <= |s.memory| && Fits(ms)
    ensures ms == [] ==> SaveAll(l, s, ms) == s
    ensures ms != [] ==> SaveAll(l, s, ms) == SaveAll(l, Save(l, s, ms[0]), ms[1..])
  {
    hide Save;
  }

  lemma StorableFits(l: Layout, s: Saver, m: Message)
    requires s.sequence < 256 && |m.payload| < 0x1_0000_0000 && Storable(l, s, m)
    ensures |m.payload| + 21 <= SLIP_PACKET_LEN && !FlagUnreserved(Encode(Stamped(l, s, m)), SLIP_PACKET_LEN)
  {
    hide Frame, Encode;
    StoredFrameIsFrame(l, s, m);
  }
}
