/** Saving parameter messages to memory and loading them back (the param_save and param_load
    branches of paramMasterHandler.c): framed messages one after the other, one unwritten octet
    apart, read back one octet at a time by the resumable parser. */
module ParamStore {
  import opened Arithmetic
  import opened CharCircularBuffer
  import opened Options
  import opened Serialization
  import opened ParamFc
  import opened SlipFraming

  /** The size of every packet and serialization buffer. */
  const SLIP_PACKET_LEN: nat := 260

  // ---------------------------------------------------------------- saving

  /** What a save changes: the memory, the write address, the sequence number, the handler
      being saved and whether the master is ready for another action. */
  datatype Saver = Saver(memory: seq<bv8>, address: nat, sequence: nat, saving: nat, ready: bool)

  /** The limits of the parameter region and the number of registered handlers. */
  datatype Layout = Layout(start: nat, stop: nat, handlers: nat)

  /** The last message of the last handler ends the save. */
  predicate EndsSave(l: Layout, s: Saver, m: Message) {
    m.lastInSequence != 0 && s.saving + 1 >= l.handlers
  }

  /** The message as it is stored: to be returned to its sender as a set command (control
      code 0), numbered, and marked if it is the last of all. */
  function Stamped(l: Layout, s: Saver, m: Message): Message
    requires s.sequence < 256
  {
    m.(lastInSequence := if EndsSave(l, s, m) then 1 else 0,
       control := 0,
       destination := m.source,
       sequenceNr := OctetOf(s.sequence))
  }

  function StoredFrame(l: Layout, s: Saver, m: Message): seq<bv8>
    requires s.sequence < 256 && |m.payload| < 0x1_0000_0000
  {
    Frame(Encode(Stamped(l, s, m)))
  }

  predicate Storable(l: Layout, s: Saver, m: Message)
    requires s.sequence < 256 && |m.payload| < 0x1_0000_0000
  {
    var frame := StoredFrame(l, s, m);
    |frame| <= SLIP_PACKET_LEN && s.address + |frame| < l.stop
  }

  /** One param_save answer from a handler. */
  function Save(l: Layout, s: Saver, m: Message): (s': Saver)
    requires s.sequence < 256 && |m.payload| < 0x1_0000_0000 && l.stop <= |s.memory|
    ensures s'.sequence < 256 && |s'.memory| == |s.memory|
  {
    var ends := EndsSave(l, s, m);
    if !Storable(l, s, m) then Saver(s.memory, l.start, 0, 0, true)
    else
      var frame := StoredFrame(l, s, m);
      Saver(Overwrite(s.memory, s.address, frame),
            if ends then l.start else s.address + |frame| + 1,
            if ends then 0 else (s.sequence + 1) % 256,
            if ends then 0 else if m.lastInSequence != 0 then s.saving + 1 else s.saving,
            if ends then true else s.ready)
  }

  /** An answer whose frame the memory takes only in part: the save starts over. */
  function BrokenOff(l: Layout, s: Saver, m: Message, taken: nat): Saver
    requires s.sequence < 256 && |m.payload| < 0x1_0000_0000 && l.stop <= |s.memory|
    requires Storable(l, s, m) && taken < |StoredFrame(l, s, m)|
  {
    Saver(Overwrite(s.memory, s.address, StoredFrame(l, s, m)[..taken]), l.start, 0, 0, true)
  }

  predicate Fits(ms: seq<Message>) {
    forall m :: m in ms ==> |m.payload| < 0x1_0000_0000
  }

  function SaveAll(l: Layout, s: Saver, ms: seq<Message>): (s': Saver)
    requires s.sequence < 256 && l.stop <= |s.memory|
    requires Fits(ms)
    ensures |s'.memory| == |s.memory|
    decreases |ms|
  {
    if ms == [] then s else SaveAll(l, Save(l, s, ms[0]), ms[1..])
  }

  /** An uninterrupted save: every message can be stored, and the last one ends the save. */
  predicate CompleteSave(l: Layout, s: Saver, ms: seq<Message>)
    requires s.sequence < 256 && l.stop <= |s.memory|
    decreases |ms|
  {
    && ms != []
    && |ms[0].payload| < 0x1_0000_0000
    && Storable(l, s, ms[0])
    && (EndsSave(l, s, ms[0]) <==> |ms| == 1)
    && (|ms| > 1 ==> CompleteSave(l, Save(l, s, ms[0]), ms[1..]))
  }

  lemma CompleteParts(l: Layout, s: Saver, ms: seq<Message>)
    requires s.sequence < 256 && l.stop <= |s.memory| && CompleteSave(l, s, ms)
    ensures ms != [] && |ms[0].payload| < 0x1_0000_0000 && Storable(l, s, ms[0])
    ensures EndsSave(l, s, ms[0]) <==> |ms| == 1
    ensures |ms| > 1 ==> CompleteSave(l, Save(l, s, ms[0]), ms[1..])
  {
    hide Storable, EndsSave, Save;
  }

  /** The messages of a save as they are stored. */
  function StampedAll(l: Layout, s: Saver, ms: seq<Message>): (out: seq<Message>)
    requires s.sequence < 256 && l.stop <= |s.memory|
    requires CompleteSave(l, s, ms)
    ensures |out| == |ms|
    decreases |ms|
  {
    [Stamped(l, s, ms[0])] + if |ms| == 1 then [] else StampedAll(l, Save(l, s, ms[0]), ms[1..])
  }

  // ---------------------------------------------------------------- loading

  /** A frame and the address after it, or nothing; and the receiver as it is then. */
  datatype ReadResult =
    | Read(payload: seq<bv8>, next: nat, receiver: Receiver)
    | ReadFailed(receiver: Receiver)

  /** Read octets into the parser until it reports something; at most 261 of them. */
  function ReadFrame(memory: seq<bv8>, r: Receiver, start: nat, address: nat): (res: ReadResult)
    ensures res.Read? ==> address < res.next <= |memory| && res.receiver == OPENED
    decreases |memory| - address
  {
    if address >= |memory| || address - start > SLIP_PACKET_LEN then ReadFailed(r)
    else
      var (r', e) := Step(r, SLIP_PACKET_LEN, memory[address]);
      if e.status == Cont then ReadFrame(memory, r', start, address + 1)
      else if e.status == OK then Read(e.payload, address + 1, r')
      else ReadFailed(r')
  }

  /** The messages sent on, whether the load succeeded, and the state it leaves the receiver in. */
  datatype LoadResult = LoadResult(sent: seq<Message>, ok: bool, left: Receiver)

  /** Read frames from an address on, check their numbering and send on each message, under
      the master's own address, until one is marked as the last. */
  function Load(memory: seq<bv8>, self: Uint32, r: Receiver, address: nat, expected: nat): LoadResult
    requires expected < 256
    decreases |memory| - address
  {
    match ReadFrame(memory, r, address, address)
    case ReadFailed(r') => LoadResult([], false, r')
    case Read(payload, next, r') =>
      match Decode(payload)
      case None => LoadResult([], false, r')
      case Some(m) =>
        if ValueOf(m.sequenceNr) != expected then LoadResult([], false, r')
        else if m.lastInSequence != 0 then LoadResult([m.(source := self)], true, r')
        else
          var rest := Load(memory, self, r', next, (expected + 1) % 256);
          rest.(sent := [m.(source := self)] + rest.sent)
  }

  function FromSelf(self: Uint32, ms: seq<Message>): (out: seq<Message>)
    ensures |out| == |ms|
    ensures forall i :: 0 <= i < |ms| ==> out[i] == ms[i].(source := self)
  {
    seq(|ms|, i requires 0 <= i < |ms| => ms[i].(source := self))
  }

  // ---------------------------------------------------------------- what a save leaves in memory

  /** What storing one message does to the memory and the counters. */
  lemma SaveEffect(l: Layout, s: Saver, m: Message)
    requires s.sequence < 256 && |m.payload| < 0x1_0000_0000 && l.stop <= |s.memory|
    requires Storable(l, s, m)
    ensures var s1, frame := Save(l, s, m), StoredFrame(l, s, m);
            var end := s.address + |frame|;
            && end < l.stop
            && s1.memory[..s.address] == s.memory[..s.address]
            && s1.memory[s.address..end] == frame
            && s1.memory[end] == s.memory[end]
            && (!EndsSave(l, s, m) ==> s1.address == end + 1 && s1.sequence == (s.sequence + 1) % 256)
  {
    hide StoredFrame;
  }

  /** A save writes nothing below its current address. */
  lemma {:induction false} SaveKeepsBelow(l: Layout, s: Saver, ms: seq<Message>)
    requires s.sequence < 256 && l.stop <= |s.memory|
    requires CompleteSave(l, s, ms)
    requires Fits(ms)
    ensures SaveAll(l, s, ms).memory[..s.address] == s.memory[..s.address]
    decreases |ms|
  {
    hide StoredFrame, Storable, Save, EndsSave, CompleteSave;
    CompleteParts(l, s, ms);
    SaveEffect(l, s, ms[0]);
    var s1 := Save(l, s, ms[0]);
    if |ms| == 1 {
      assert SaveAll(l, s1, ms[1..]) == s1;
    } else {
      SaveKeepsBelow(l, s1, ms[1..]);
      var last := SaveAll(l, s1, ms[1..]).memory;
      assert last[..s.address] == last[..s1.address][..s.address];
    }
  }

  /** The first frame of a save survives the rest of it. */
  lemma FirstFrameStays(l: Layout, s: Saver, ms: seq<Message>)
    requires s.sequence < 256 && l.stop <= |s.memory|
    requires CompleteSave(l, s, ms)
    requires Fits(ms)
    ensures var frame := StoredFrame(l, s, ms[0]);
            var end := s.address + |frame|;
            var memory := SaveAll(l, s, ms).memory;
            && memory[s.address..end] == frame
            && memory[end] == s.memory[end]
  {
    hide StoredFrame, Storable, Save, EndsSave, CompleteSave;
    CompleteParts(l, s, ms);
    var frame := StoredFrame(l, s, ms[0]);
    var end := s.address + |frame|;
    SaveEffect(l, s, ms[0]);
    var s1 := Save(l, s, ms[0]);
    var memory := SaveAll(l, s, ms).memory;
    if |ms| == 1 {
      assert SaveAll(l, s1, ms[1..]) == s1;
    } else {
      SaveKeepsBelow(l, s1, ms[1..]);
      assert memory[s.address..end] == memory[..end + 1][s.address..end];
      assert memory[end] == memory[..end + 1][end];
    }
  }

  // ---------------------------------------------------------------- reading it back

  /** Octets that are quiet up to a final delivery are read as one frame. */
  lemma {:induction false} ReadRun(memory: seq<bv8>, r: Receiver, start: nat, address: nat, bytes: seq<bv8>,
      payload: seq<bv8>)
    requires bytes != [] && address + |bytes| <= |memory|
    requires memory[address..address + |bytes|] == bytes
    requires start <= address && address + |bytes| - 1 - start <= SLIP_PACKET_LEN
    requires Run(r, SLIP_PACKET_LEN, bytes).1 == Quiet(|bytes| - 1) + [Event(OK, payload)]
    ensures ReadFrame(memory, r, start, address)
         == Read(payload, address + |bytes|, Run(r, SLIP_PACKET_LEN, bytes).0)
    decreases |bytes|
  {
    hide Step;
    var (r1, e) := Step(r, SLIP_PACKET_LEN, bytes[0]);
    var (r2, es) := Run(r1, SLIP_PACKET_LEN, bytes[1..]);
    assert memory[address] == bytes[0];
    assert ([e] + es)[0] == e && ([e] + es)[1..] == es;
    if |bytes| == 1 {
      assert bytes[1..] == [] && Run(r1, SLIP_PACKET_LEN, bytes[1..]) == (r1, []);
      assert e == Event(OK, payload);
    } else {
      assert e == NOTHING;
      assert es == Quiet(|bytes| - 2) + [Event(OK, payload)];
      assert memory[address + 1..address + |bytes|] == bytes[1..];
      ReadRun(memory, r1, start, address + 1, bytes[1..], payload);
    }
  }

  /** Of octets that are quiet 261 are read and no more. */
  lemma {:induction false} ReadGivesUp(memory: seq<bv8>, r: Receiver, start: nat, address: nat)
    requires start <= address <= start + 261 <= |memory|
    requires Run(r, SLIP_PACKET_LEN, memory[address..start + 261]).1 == Quiet(start + 261 - address)
    ensures ReadFrame(memory, r, start, address) == ReadFailed(Run(r, SLIP_PACKET_LEN, memory[address..start + 261]).0)
    decreases start + 261 - address
  {
    hide Step;
    if address < start + 261 {
      var bytes := memory[address..start + 261];
      var (r1, e) := Step(r, SLIP_PACKET_LEN, bytes[0]);
      var (r2, es) := Run(r1, SLIP_PACKET_LEN, bytes[1..]);
      assert ([e] + es)[0] == e && ([e] + es)[1..] == es;
      assert bytes[1..] == memory[address + 1..start + 261];
      assert e == NOTHING && es == Quiet(start + 261 - address - 1);
      ReadGivesUp(memory, r1, start, address + 1);
    }
  }

  /** What a load sends, of whatever there is in memory and from whatever state of the parser: messages
      of the master that are numbered one after the other, of which the last is marked, exactly if the
      load succeeds, and no other. */
  lemma {:induction false} LoadNumbers(memory: seq<bv8>, self: Uint32, r: Receiver, address: nat, expected: nat, i: nat)
    requires expected < 256
    requires i < |Load(memory, self, r, address, expected).sent|
    ensures var out := Load(memory, self, r, address, expected);
            && out.sent[i].source == self
            && ValueOf(out.sent[i].sequenceNr) == (expected + i) % 256
            && (out.sent[i].lastInSequence != 0 <==> out.ok && i == |out.sent| - 1)
    decreases i
  {
    hide ReadFrame, Decode, ValueOf, Load;
    LoadFirst(memory, self, r, address, expected);
    var out := Load(memory, self, r, address, expected);
    if i > 0 {
      var read := ReadFrame(memory, r, address, address);
      LoadNumbers(memory, self, read.receiver, read.next, (expected + 1) % 256, i - 1);
      NextNumber(expected, i);
      assert out.sent[1..][i - 1] == out.sent[i];
    }
  }

  /** The first message of a load and those after it. */
  lemma LoadFirst(memory: seq<bv8>, self: Uint32, r: Receiver, address: nat, expected: nat)
    requires expected < 256 && Load(memory, self, r, address, expected).sent != []
    ensures var out, read := Load(memory, self, r, address, expected), ReadFrame(memory, r, address, address);
            && out.sent[0].source == self && ValueOf(out.sent[0].sequenceNr) == expected
            && (out.sent[0].lastInSequence != 0 ==> out.ok && |out.sent| == 1)
            && (out.sent[0].lastInSequence == 0 ==>
                 && read.Read?
                 && var rest := Load(memory, self, read.receiver, read.next, (expected + 1) % 256);
                    && out.ok == rest.ok && out.sent[1..] == rest.sent && (out.ok ==> rest.sent != []))
  {
    hide ReadFrame, Decode, ValueOf;
    var read := ReadFrame(memory, r, address, address);
    if read.Read? {
      LoadedSomething(memory, self, read.receiver, read.next, (expected + 1) % 256);
    }
  }

  /** A load that succeeds has sent something. */
  lemma LoadedSomething(memory: seq<bv8>, self: Uint32, r: Receiver, address: nat, expected: nat)
    requires expected < 256
    ensures Load(memory, self, r, address, expected).ok ==> Load(memory, self, r, address, expected).sent != []
  {
    hide ReadFrame, Decode, ValueOf;
  }

  /** Whatever state the parser is in, what it makes of the octets from the start of a stored
      frame: one that listens gets the frame, a deaf one reports an error at the first flag, and
      a misled one takes what it holds for a frame. */
  lemma ReadWhole(memory: seq<bv8>, r: Receiver, address: nat, payload: seq<bv8>)
    requires address + |Frame(payload)| <= |memory|
    requires memory[address..address + |Frame(payload)|] == Frame(payload)
    requires 3 <= |payload| && |Frame(payload)| <= SLIP_PACKET_LEN
    ensures ReadFrame(memory, r, address, address)
         == if Listens(r, SLIP_PACKET_LEN) then Read(payload, address + |Frame(payload)|, OPENED)
            else if Deaf(r, SLIP_PACKET_LEN) then ReadFailed(IDLE)
            else Read(r.data[..|r.data| - 2], address + 1, OPENED)
  {
    hide Frame, Run, Step, Listens, Deaf, Misled;
    ThreeKinds(r, SLIP_PACKET_LEN);
    FrameParts(payload);
    assert memory[address] == memory[address..address + |Frame(payload)|][0] == 0x7E;
    if Listens(r, SLIP_PACKET_LEN) {
      FrameIsQuiet(r, SLIP_PACKET_LEN, payload);
      ReadRun(memory, r, address, address, Frame(payload), payload);
    }
  }

  /** Once its opening flag has been taken, the rest of a stored frame is read as that frame. */
  lemma ReadRest(memory: seq<bv8>, address: nat, payload: seq<bv8>)
    requires address + |Frame(payload)| <= |memory|
    requires memory[address..address + |Frame(payload)|] == Frame(payload)
    requires 3 <= |payload| && |Frame(payload)| <= SLIP_PACKET_LEN
    ensures ReadFrame(memory, OPENED, address + 1, address + 1) == Read(payload, address + |Frame(payload)|, OPENED)
  {
    hide Frame, Run, Step, ReadFrame, Stuff, WithCrc;
    FrameParts(payload);
    BodyDelivers(payload, SLIP_PACKET_LEN);
    var body := Stuff(WithCrc(payload)) + [0x7E];
    assert memory[address + 1..address + 1 + |body|] == memory[address..address + |Frame(payload)|][1..];
    ReadRun(memory, OPENED, address + 1, address + 1, body, payload);
  }

  /** The octet left between two frames passes unnoticed unless it is the escape octet. */
  lemma GapIsQuiet(gap: bv8)
    ensures var (r, e) := Step(OPENED, SLIP_PACKET_LEN, gap);
            && e == NOTHING && |r.data| <= 1
            && (r.escape <==> gap == 0x7D)
            && (Listens(r, SLIP_PACKET_LEN) <==> gap != 0x7D)
  {
  }

  lemma ReadAfterGap(memory: seq<bv8>, address: nat, payload: seq<bv8>)
    requires 0 < address && address + |Frame(payload)| <= |memory|
    requires memory[address..address + |Frame(payload)|] == Frame(payload)
    requires 3 <= |payload| && |Frame(payload)| <= SLIP_PACKET_LEN
    ensures ReadFrame(memory, OPENED, address - 1, address - 1)
         == if memory[address - 1] == 0x7D then ReadFailed(IDLE)
            else Read(payload, address + |Frame(payload)|, OPENED)
  {
    hide Frame, CrcPasses, Listens;
    var gap := memory[address - 1];
    GapIsQuiet(gap);
    var r := Step(OPENED, SLIP_PACKET_LEN, gap).0;
    assert ReadFrame(memory, OPENED, address - 1, address - 1) == ReadFrame(memory, r, address - 1, address);
    if gap == 0x7D {
      FrameParts(payload);
      assert memory[address] == memory[address..address + |Frame(payload)|][0] == 0x7E;
    } else {
      FrameIsQuiet(r, SLIP_PACKET_LEN, payload);
      ReadRun(memory, r, address - 1, address, Frame(payload), payload);
    }
  }

  // ---------------------------------------------------------------- load after save

  /** The octet a save leaves unwritten after its first frame. */
  function GapAfterFirst(l: Layout, s: Saver, ms: seq<Message>): bv8
    requires s.sequence < 256 && l.stop <= |s.memory| && CompleteSave(l, s, ms)
  {
    s.memory[s.address + |StoredFrame(l, s, ms[0])|]
  }

  /** No octet left between two frames of the save is the escape octet. */
  predicate CleanGaps(l: Layout, s: Saver, ms: seq<Message>)
    requires s.sequence < 256 && l.stop <= |s.memory| && CompleteSave(l, s, ms)
    decreases |ms|
  {
    |ms| > 1 ==> GapAfterFirst(l, s, ms) != 0x7D && CleanGaps(l, Save(l, s, ms[0]), ms[1..])
  }

  /** What loading a saved list sends on: every message up to the first bad gap. */
  function Loaded(l: Layout, s: Saver, ms: seq<Message>, self: Uint32): LoadResult
    requires s.sequence < 256 && l.stop <= |s.memory| && CompleteSave(l, s, ms)
    decreases |ms|
  {
    var first := Stamped(l, s, ms[0]).(source := self);
    if |ms| == 1 then LoadResult([first], true, OPENED)
    else if GapAfterFirst(l, s, ms) == 0x7D then LoadResult([first], false, IDLE)
    else
      var rest := Loaded(l, Save(l, s, ms[0]), ms[1..], self);
      rest.(sent := [first] + rest.sent)
  }

  /** Loading resumes correctly once a frame of the save has been read. */
  lemma {:induction false} LoadFromFrame(l: Layout, s: Saver, ms: seq<Message>, self: Uint32, r: Receiver, start: nat)
    requires s.sequence < 256 && l.stop <= |s.memory| && CompleteSave(l, s, ms) && Fits(ms)
    requires var memory := SaveAll(l, s, ms).memory;
             ReadFrame(memory, r, start, start)
             == Read(Encode(Stamped(l, s, ms[0])), s.address + |StoredFrame(l, s, ms[0])|, OPENED)
    ensures Load(SaveAll(l, s, ms).memory, self, r, start, s.sequence) == Loaded(l, s, ms, self)
    decreases |ms|
  {
    hide ReadFrame, OctetOf, Encode, Decode, StoredFrame, Storable, ValueOf, Save, CompleteSave;
    CompleteParts(l, s, ms);
    var memory := SaveAll(l, s, ms).memory;
    var m := Stamped(l, s, ms[0]);
    ReadsBack(m);
    ValueOfOctet(s.sequence);
    if |ms| > 1 {
      var s1 := Save(l, s, ms[0]);
      var frame := StoredFrame(l, s, ms[0]);
      SaveEffect(l, s, ms[0]);
      assert memory == SaveAll(l, s1, ms[1..]).memory;
      FirstFrameStays(l, s, ms);
      assert memory[s1.address - 1] == GapAfterFirst(l, s, ms);
      NextFrameRead(l, s1, ms[1..]);
      if memory[s1.address - 1] != 0x7D {
        LoadFromFrame(l, s1, ms[1..], self, OPENED, s1.address - 1);
      }
    }
  }

  lemma ReadsBack(m: Message)
    requires |m.payload| < 0x1_0000_0000
    ensures Decode(Encode(m)) == Some(m)
  {
    hide Encode, Decode;
    DecodeEncode(m, []);
    assert Encode(m) + [] == Encode(m);
  }

  lemma StoredFrameIsFrame(l: Layout, s: Saver, m: Message)
    requires s.sequence < 256 && |m.payload| < 0x1_0000_0000
    ensures StoredFrame(l, s, m) == Frame(Encode(Stamped(l, s, m)))
  {
  }

  lemma FirstFits(l: Layout, s: Saver, ms: seq<Message>)
    requires s.sequence < 256 && l.stop <= |s.memory| && CompleteSave(l, s, ms) && Fits(ms)
    ensures var payload := Encode(Stamped(l, s, ms[0]));
            && 3 <= |payload|
            && StoredFrame(l, s, ms[0]) == Frame(payload)
            && |Frame(payload)| <= SLIP_PACKET_LEN
            && s.address + |Frame(payload)| < |s.memory|
            && SaveAll(l, s, ms).memory[s.address..s.address + |Frame(payload)|] == Frame(payload)
  {
    hide Encode, Frame, CompleteSave, SaveAll, EndsSave, Stamped;
    CompleteParts(l, s, ms);
    StoredFrameIsFrame(l, s, ms[0]);
    FirstFrameStays(l, s, ms);
  }

  /** The octets before and of the first frame, in the finished memory, read as that frame. */
  lemma NextFrameRead(l: Layout, s: Saver, ms: seq<Message>)
    requires s.sequence < 256 && l.stop <= |s.memory| && CompleteSave(l, s, ms) && Fits(ms)
    requires s.address > 0
    ensures var memory := SaveAll(l, s, ms).memory;
            ReadFrame(memory, OPENED, s.address - 1, s.address - 1)
            == if memory[s.address - 1] == 0x7D then ReadFailed(IDLE)
               else Read(Encode(Stamped(l, s, ms[0])), s.address + |StoredFrame(l, s, ms[0])|, OPENED)
  {
    hide Encode, Decode, Frame, StoredFrame, Storable, CompleteSave, SaveAll, Save, EndsSave, ReadFrame, Run, Step,
      Listens, Deaf;
    CompleteParts(l, s, ms);
    FirstFits(l, s, ms);
    ReadAfterGap(SaveAll(l, s, ms).memory, s.address, Encode(Stamped(l, s, ms[0])));
  }

  /** What a parser in any state makes of the beginning of the region. */
  lemma FirstFrameRead(l: Layout, s: Saver, ms: seq<Message>, r: Receiver)
    requires s.sequence < 256 && l.stop <= |s.memory| && CompleteSave(l, s, ms) && Fits(ms)
    ensures var memory := SaveAll(l, s, ms).memory;
            var first := Read(Encode(Stamped(l, s, ms[0])), s.address + |StoredFrame(l, s, ms[0])|, OPENED);
            && ReadFrame(memory, OPENED, s.address + 1, s.address + 1) == first
            && ReadFrame(memory, r, s.address, s.address)
            == if Listens(r, SLIP_PACKET_LEN) then first
               else if Deaf(r, SLIP_PACKET_LEN) then ReadFailed(IDLE)
               else Read(r.data[..|r.data| - 2], s.address + 1, OPENED)
  {
    hide Encode, Decode, Frame, StoredFrame, Storable, CompleteSave, SaveAll, Save, EndsSave, ReadFrame, Run, Step,
      Listens, Deaf;
    CompleteParts(l, s, ms);
    FirstFits(l, s, ms);
    var memory := SaveAll(l, s, ms).memory;
    var payload := Encode(Stamped(l, s, ms[0]));
    ReadWhole(memory, r, s.address, payload);
    ReadRest(memory, s.address, payload);
  }

  lemma {:induction false} StampedTurn(l: Layout, s: Saver, ms: seq<Message>)
    requires s.sequence < 256 && l.stop <= |s.memory| && CompleteSave(l, s, ms)
    requires ms != [] && (|ms| > 1 ==> CompleteSave(l, Save(l, s, ms[0]), ms[1..]))
    ensures |ms| == 1 ==> StampedAll(l, s, ms) == [Stamped(l, s, ms[0])]
    ensures |ms| > 1 ==> StampedAll(l, s, ms) == [Stamped(l, s, ms[0])] + StampedAll(l, Save(l, s, ms[0]), ms[1..])
  {
    hide Stamped, Save, CompleteSave;
  }

  lemma {:induction false} LoadedTurn(l: Layout, s: Saver, ms: seq<Message>, self: Uint32)
    requires s.sequence < 256 && l.stop <= |s.memory| && CompleteSave(l, s, ms)
    requires ms != [] && (|ms| > 1 ==> CompleteSave(l, Save(l, s, ms[0]), ms[1..]))
    ensures var first := Stamped(l, s, ms[0]).(source := self);
            if |ms| == 1 then Loaded(l, s, ms, self) == LoadResult([first], true, OPENED) && CleanGaps(l, s, ms)
            else if GapAfterFirst(l, s, ms) == 0x7D then
              Loaded(l, s, ms, self) == LoadResult([first], false, IDLE) && !CleanGaps(l, s, ms)
            else
              var s1 := Save(l, s, ms[0]);
              var rest := Loaded(l, s1, ms[1..], self);
              && Loaded(l, s, ms, self) == LoadResult([first] + rest.sent, rest.ok, rest.left)
              && (CleanGaps(l, s, ms) <==> CleanGaps(l, s1, ms[1..]))
  {
    hide Stamped, Save, CompleteSave, GapAfterFirst;
  }

  lemma FromSelfFirst(self: Uint32, m: Message, rest: seq<Message>)
    ensures FromSelf(self, [m]) == [m.(source := self)]
    ensures FromSelf(self, [m] + rest) == [m.(source := self)] + FromSelf(self, rest)
  {
  }

  lemma {:induction false} LoadedIsAll(l: Layout, s: Saver, ms: seq<Message>, self: Uint32)
    requires s.sequence < 256 && l.stop <= |s.memory| && CompleteSave(l, s, ms)
    ensures Loaded(l, s, ms, self).ok <==> CleanGaps(l, s, ms)
    ensures CleanGaps(l, s, ms) ==> Loaded(l, s, ms, self).sent == FromSelf(self, StampedAll(l, s, ms))
    ensures Loaded(l, s, ms, self).sent <= FromSelf(self, StampedAll(l, s, ms))
    ensures Loaded(l, s, ms, self).left in {IDLE, OPENED}
    decreases |ms|
  {
    hide StoredFrame, Stamped, GapAfterFirst, Storable, Save, EndsSave, CompleteSave, StampedAll, Loaded, CleanGaps,
      FromSelf;
    CompleteParts(l, s, ms);
    StampedTurn(l, s, ms);
    LoadedTurn(l, s, ms, self);
    if |ms| == 1 {
      FromSelfFirst(self, Stamped(l, s, ms[0]), []);
    } else {
      var s1 := Save(l, s, ms[0]);
      FromSelfFirst(self, Stamped(l, s, ms[0]), StampedAll(l, s1, ms[1..]));
      LoadedIsAll(l, s1, ms[1..], self);
    }
  }

  /** What a load makes of a complete save when the parser starts in any state: one that listens
      gets what was saved, a deaf one nothing. A misled one gets at most the message it took its
      own leftovers for, because the first saved message does not carry the next number. */
  function LoadedBy(l: Layout, s: Saver, ms: seq<Message>, self: Uint32, r: Receiver): LoadResult
    requires s.sequence < 256 && l.stop <= |s.memory| && CompleteSave(l, s, ms)
  {
    if Listens(r, SLIP_PACKET_LEN) then Loaded(l, s, ms, self)
    else if Deaf(r, SLIP_PACKET_LEN) then LoadResult([], false, IDLE)
    else
      match Decode(r.data[..|r.data| - 2])
      case None => LoadResult([], false, OPENED)
      case Some(m) =>
        if ValueOf(m.sequenceNr) != 0 then LoadResult([], false, OPENED)
        else LoadResult([m.(source := self)], m.lastInSequence != 0, OPENED)
  }

  /** A load that expects another number than the first one sends nothing. */
  lemma WrongNumber(l: Layout, s: Saver, ms: seq<Message>, self: Uint32, expected: nat)
    requires s.sequence < 256 && l.stop <= |s.memory| && CompleteSave(l, s, ms) && Fits(ms)
    requires expected < 256 && expected != s.sequence
    ensures Load(SaveAll(l, s, ms).memory, self, OPENED, s.address + 1, expected) == LoadResult([], false, OPENED)
  {
    hide ReadFrame, OctetOf, Encode, Decode, StoredFrame, Storable, ValueOf, Save, SaveAll, CompleteSave, Listens, Deaf;
    CompleteParts(l, s, ms);
    FirstFrameRead(l, s, ms, OPENED);
    ReadsBack(Stamped(l, s, ms[0]));
    ValueOfOctet(s.sequence);
  }

  lemma LoadIsLoadedBy(l: Layout, s: Saver, ms: seq<Message>, self: Uint32, r: Receiver)
    requires s.address == l.start && s.sequence == 0 && l.stop <= |s.memory|
    requires CompleteSave(l, s, ms) && Fits(ms)
    ensures Load(SaveAll(l, s, ms).memory, self, r, l.start, 0) == LoadedBy(l, s, ms, self, r)
  {
    hide ReadFrame, StoredFrame, OctetOf, ValueOf, Encode, Decode, Loaded, CompleteSave, SaveAll, Listens, Deaf;
    FirstFrameRead(l, s, ms, r);
    if Listens(r, SLIP_PACKET_LEN) {
      hide Load;
      LoadFromFrame(l, s, ms, self, r, l.start);
    } else {
      WrongNumber(l, s, ms, self, 1);
    }
  }

  /** Save then load, from any state of the parser. After an uninterrupted save that began at the
      start of the region, a load by a parser that is not misled sends on exactly the saved
      messages, in order, to the handlers they came from, and succeeds, if and only if no octet
      left between two frames is the escape octet and the parser is not deaf. Otherwise it fails
      after a prefix of them. In every case it leaves a parser that listens. */
  lemma LoadAfterSave(l: Layout, s: Saver, ms: seq<Message>, self: Uint32, r: Receiver)
    requires s.address == l.start && s.sequence == 0 && l.stop <= |s.memory|
    requires CompleteSave(l, s, ms) && Fits(ms)
    ensures var res := Load(SaveAll(l, s, ms).memory, self, r, l.start, 0);
            var saved := FromSelf(self, StampedAll(l, s, ms));
            && res == LoadedBy(l, s, ms, self, r)
            && (!Misled(r, SLIP_PACKET_LEN) ==>
                 && (res.ok <==> CleanGaps(l, s, ms) && !Deaf(r, SLIP_PACKET_LEN))
                 && (res.ok ==> res.sent == saved)
                 && res.sent <= saved)
            && res.left in {IDLE, OPENED}
  {
    hide Load, Loaded, StampedAll, FromSelf, CleanGaps, CompleteSave, SaveAll, Decode, ValueOf, Listens, Deaf, Misled;
    LoadIsLoadedBy(l, s, ms, self, r);
    LoadedIsAll(l, s, ms, self);
    ThreeKinds(r, SLIP_PACKET_LEN);
  }

  /** Whatever state the parser is in, the second of two loads gives back a complete save exactly
      if its gaps are clean: the first load leaves a parser that listens. */
  lemma SecondLoad(l: Layout, s: Saver, ms: seq<Message>, self: Uint32, r: Receiver)
    requires s.address == l.start && s.sequence == 0 && l.stop <= |s.memory|
    requires CompleteSave(l, s, ms) && Fits(ms)
    ensures var memory := SaveAll(l, s, ms).memory;
            var first := Load(memory, self, r, l.start, 0);
            var second := Load(memory, self, first.left, l.start, 0);
            && (second.ok <==> CleanGaps(l, s, ms))
            && (second.ok ==> second.sent == FromSelf(self, StampedAll(l, s, ms)))
  {
    hide Load, LoadedBy, StampedAll, FromSelf, CleanGaps, CompleteSave, SaveAll;
    LoadAfterSave(l, s, ms, self, r);
    LoadAfterSave(l, s, ms, self, Load(SaveAll(l, s, ms).memory, self, r, l.start, 0).left);
  }

  lemma SaveKeepsAbove(l: Layout, s: Saver, m: Message, i: nat)
    requires s.sequence < 256 && |m.payload| < 0x1_0000_0000 && l.stop <= |s.memory|
    requires Storable(l, s, m) && s.address + |StoredFrame(l, s, m)| <= i < |s.memory|
    ensures Save(l, s, m).memory[i] == s.memory[i]
  {
    hide StoredFrame;
  }

  /** Over memory without escape octets all gaps are clean. */
  lemma {:induction false} CleanMemory(l: Layout, s: Saver, ms: seq<Message>)
    requires s.sequence < 256 && l.stop <= |s.memory| && CompleteSave(l, s, ms)
    requires forall i :: s.address <= i < l.stop ==> s.memory[i] != 0x7D
    ensures CleanGaps(l, s, ms)
    decreases |ms|
  {
    hide StoredFrame, Storable, Save, EndsSave, CompleteSave;
    CompleteParts(l, s, ms);
    SaveEffect(l, s, ms[0]);
    if |ms| > 1 {
      var s1 := Save(l, s, ms[0]);
      forall i | s1.address <= i < l.stop
        ensures s1.memory[i] != 0x7D
      {
        SaveKeepsAbove(l, s, ms[0], i);
      }
      CleanMemory(l, s1, ms[1..]);
    }
  }

  lemma NextNumber(q: nat, i: nat)
    requires i > 0
    ensures ((q + 1) % 256 + (i - 1)) % 256 == (q + i) % 256
  {
  }

  /** The set command that an answer comes back as: to its sender, with control code 0, and of the
      same type, number, acknowledgement and payload. */
  predicate SetCommand(out: Message, m: Message) {
    && out.destination == m.source && out.control == 0
    && out.msgType == m.msgType && out.msgNr == m.msgNr && out.requireAck == m.requireAck
    && out.payload == m.payload
  }

  lemma StampedFields(l: Layout, s: Saver, m: Message)
    requires s.sequence < 256
    ensures var out := Stamped(l, s, m);
            && SetCommand(out, m) && out.sequenceNr == OctetOf(s.sequence)
            && (out.lastInSequence != 0 <==> EndsSave(l, s, m))
  {
    hide OctetOf, EndsSave;
  }

  /** What is stored of an answer: it as a set command, its place in the save as its number, and a
      mark on the last one. */
  lemma {:induction false} StampedKeeps(l: Layout, s: Saver, ms: seq<Message>, i: nat)
    requires s.sequence < 256 && l.stop <= |s.memory| && CompleteSave(l, s, ms)
    requires i < |ms|
    ensures var out := StampedAll(l, s, ms);
            && SetCommand(out[i], ms[i])
            && out[i].sequenceNr == OctetOf((s.sequence + i) % 256)
            && (out[i].lastInSequence != 0 <==> i == |ms| - 1)
    decreases |ms|
  {
    hide StoredFrame, OctetOf, Storable, Save, CompleteSave, Stamped, EndsSave, StampedAll, SetCommand;
    CompleteParts(l, s, ms);
    StampedTurn(l, s, ms);
    if i == 0 {
      StampedFields(l, s, ms[0]);
    } else {
      SaveEffect(l, s, ms[0]);
      StampedKeeps(l, Save(l, s, ms[0]), ms[1..], i - 1);
      NextNumber(s.sequence, i);
    }
  }

  /** Each message of a list goes, as a set command of `self`, back to where the answer of that place
      came from; they are numbered from zero on, and the last alone is marked. */
  predicate Returned(out: seq<Message>, ms: seq<Message>, self: Uint32) {
    && |out| == |ms|
    && forall i :: 0 <= i < |ms| ==>
         && SetCommand(out[i], ms[i]) && out[i].source == self
         && ValueOf(out[i].sequenceNr) == i % 256 && (out[i].lastInSequence != 0 <==> i == |ms| - 1)
  }

  /** What a load gives back of a complete save. */
  lemma {:induction false} SavedReturned(l: Layout, s: Saver, ms: seq<Message>, self: Uint32)
    requires s.sequence == 0 && l.stop <= |s.memory| && CompleteSave(l, s, ms)
    ensures Returned(FromSelf(self, StampedAll(l, s, ms)), ms, self)
  {
    hide OctetOf, ValueOf, CompleteSave, StampedAll, SetCommand;
    var out := FromSelf(self, StampedAll(l, s, ms));
    forall i | 0 <= i < |ms|
      ensures SetCommand(out[i], ms[i]) && out[i].source == self
      ensures ValueOf(out[i].sequenceNr) == i % 256 && (out[i].lastInSequence != 0 <==> i == |ms| - 1)
    {
      StampedKeeps(l, s, ms, i);
      SetCommandFrom(self, StampedAll(l, s, ms)[i], ms[i]);
      ValueOfOctet(i % 256);
    }
  }

  lemma SetCommandFrom(self: Uint32, out: Message, m: Message)
    ensures SetCommand(out.(source := self), m) <==> SetCommand(out, m)
  {
  }
}
