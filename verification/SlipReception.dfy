/** What the receiver of slip_packet.c reports on octet strings of any kind: nothing but frames. */
module SlipReception {
  import opened Crc16
  import opened Crc16Errors
  import opened SlipFraming

  // ---------------------------------------------------------------- escaped octets

  /** On the wire an octet that is neither flag nor escape stands for itself, and these two are sent
      as the escape and the octet with bit 5 turned over. */
  lemma EscapedOctet(b: bv8)
    ensures StuffOctet(b) == if b == 0x7E || b == 0x7D then [0x7D, b ^ 0x20] else [b]
    ensures 0x7E !in StuffOctet(b)
  {
  }

  lemma {:induction false} NoFlagInside(data: seq<bv8>)
    ensures 0x7E !in Stuff(data)
    decreases |data|
  {
    if data != [] {
      EscapedOctet(data[0]);
      NoFlagInside(data[1..]);
    }
  }

  /** A receiver that waits for the second octet of an escape takes it with bit 5 turned over if that
      gives a flag or an escape. Every other one is an error. */
  lemma EscapeRead(r: Receiver, room: nat, b: bv8)
    requires r.escape && |r.data| < room
    ensures if b ^ 0x20 == 0x7E || b ^ 0x20 == 0x7D
            then Step(r, room, b) == (Receiver(r.data + [b ^ 0x20], r.start, false), NOTHING)
            else Step(r, room, b) == (IDLE, Event(EscapeError, []))
  {
  }

  // ---------------------------------------------------------------- only frames

  /** The receiver is in an open frame that began with these octets. */
  predicate Holds(r: Receiver, body: seq<bv8>) {
    r.start && body == Stuff(r.data) + if r.escape then [0x7D] else []
  }

  lemma StuffMore(data: seq<bv8>, b: bv8)
    ensures Stuff(data + [b]) == Stuff(data) + StuffOctet(b)
  {
    hide StuffOctet;
    StuffAppend(data, [b]);
    assert [b][1..] == [] && StuffOctet(b) + [] == StuffOctet(b);
  }

  lemma HoldsMore(r: Receiver, room: nat, body: seq<bv8>, b: bv8)
    requires Holds(r, body) && b != 0x7E
    ensures Step(r, room, b).0.start ==> Holds(Step(r, room, b).0, body + [b])
  {
    hide Stuff;
    if r.escape {
      StuffMore(r.data, 0x7D);
      StuffMore(r.data, 0x7E);
    } else {
      StuffMore(r.data, b);
    }
  }

  /** Whatever it has received, an open frame is what has come since a flag. */
  lemma {:induction false} OpenSince(room: nat, bytes: seq<bv8>)
    ensures var r := Run(IDLE, room, bytes).0;
            r.start ==> exists j :: 0 <= j < |bytes| && bytes[j] == 0x7E && Holds(r, bytes[j + 1..])
    decreases |bytes|
  {
    if bytes != [] {
      var n := |bytes| - 1;
      var before, b := bytes[..n], bytes[n];
      var r := Run(IDLE, room, before).0;
      assert bytes == before + [b];
      RunAppend(IDLE, room, before, [b]);
      RunOne(r, room, b);
      OpenSince(room, before);
      var r1 := Step(r, room, b).0;
      assert Run(IDLE, room, bytes).0 == r1;
      if r1.start {
        if b == 0x7E {
          FlagOpens(r, room);
          assert bytes[n + 1..] == [];
        } else {
          StaysClosed(r, room, b);
          var j :| 0 <= j < n && before[j] == 0x7E && Holds(r, before[j + 1..]);
          HoldsMore(r, room, before[j + 1..], b);
          assert bytes[j + 1..] == before[j + 1..] + [b];
        }
      }
    }
  }

  lemma FlagOpens(r: Receiver, room: nat)
    requires Step(r, room, 0x7E).0.start
    ensures Step(r, room, 0x7E).0 == OPENED && Holds(OPENED, [])
  {
    hide CrcPasses;
  }

  lemma StaysClosed(r: Receiver, room: nat, b: bv8)
    requires b != 0x7E
    ensures Step(r, room, b).0.start ==> r.start
  {
  }

  /** The checksum test recognises exactly the data with their checksum. */
  lemma PassesMeans(data: seq<bv8>)
    requires |data| >= 2
    ensures CrcPasses(data) <==> data == WithCrc(data[..|data| - 2])
  {
    WithCrcPasses(data[..|data| - 2]);
    hide Crc;
    var n := |data| - 2;
    WordParts(data[n], data[n + 1]);
    hide Word, TopByte, LowByte;
    assert data == data[..n] + [data[n], data[n + 1]];
  }

  lemma WordParts(a: bv8, b: bv8)
    ensures TopByte(Word(a, b)) == a && LowByte(Word(a, b)) == b
  {
  }

  lemma {:induction false} EventAt(r: Receiver, room: nat, bytes: seq<bv8>, i: nat)
    requires i < |bytes|
    ensures Run(r, room, bytes).1[i] == Step(Run(r, room, bytes[..i]).0, room, bytes[i]).1
  {
    hide Step;
    var r1 := Run(r, room, bytes[..i]).0;
    assert bytes == bytes[..i] + bytes[i..];
    RunAppend(r, room, bytes[..i], bytes[i..]);
  }

  /** What a receiver makes of a flag: a payload is delivered exactly if it and its checksum are the
      octets of the open frame, three at least. */
  lemma FlagDelivers(r: Receiver, room: nat, payload: seq<bv8>)
    ensures Step(r, room, 0x7E).1 == Event(OK, payload) <==>
              && r.start && !r.escape && r.data == WithCrc(payload) && 3 <= |payload| && |payload| + 2 < room
  {
    hide CrcPasses, WithCrc;
    if |r.data| > 4 {
      PassesMeans(r.data);
    }
    if r.data == WithCrc(payload) {
      CutOff(payload);
    }
  }

  /** Every other outcome of a flag: a full packet, a dangling escape and a wrong checksum are reported
      as such and lose the frame; fewer than five octets are dropped, and the flag opens a frame. */
  lemma FlagReports(r: Receiver, room: nat)
    ensures var (next, e) := Step(r, room, 0x7E);
            if |r.data| >= room then next == IDLE && e.status == LengthError
            else if r.escape then next == IDLE && e.status == EscapeError
            else if r.start && |r.data| > 4 && r.data != WithCrc(r.data[..|r.data| - 2]) then next == IDLE && e.status == CrcError
            else if r.start && |r.data| > 4 then next == OPENED && e.status == OK
            else next == OPENED && e.status == Cont
  {
    hide CrcPasses, WithCrc;
    if |r.data| > 4 {
      PassesMeans(r.data);
    }
  }

  lemma CutOff(payload: seq<bv8>)
    ensures WithCrc(payload)[..|WithCrc(payload)| - 2] == payload
  {
    hide Crc;
  }

  lemma OnlyFlagsDeliver(r: Receiver, room: nat, b: bv8)
    requires Step(r, room, b).1.status == OK
    ensures b == 0x7E
  {
  }

  /** Whatever octets a receiver gets, every payload that it delivers has come to it as a frame: flag,
      stuffed payload and checksum, flag. Nothing else is ever delivered. */
  lemma {:induction false} OnlyFramesDelivered(room: nat, bytes: seq<bv8>, i: nat) returns (j: nat)
    requires i < |bytes| && Run(IDLE, room, bytes).1[i].status == OK
    ensures var payload := Run(IDLE, room, bytes).1[i].payload;
            j <= i && bytes[j..i + 1] == Frame(payload) && 3 <= |payload| && |payload| + 2 < room
  {
    hide Step, Run, Stuff, WithCrc;
    var r := Run(IDLE, room, bytes[..i]).0;
    var payload := Run(IDLE, room, bytes).1[i].payload;
    EventAt(IDLE, room, bytes, i);
    OnlyFlagsDeliver(r, room, bytes[i]);
    assert Step(r, room, 0x7E).1 == Event(OK, payload);
    FlagDelivers(r, room, payload);
    OpenSince(room, bytes[..i]);
    j :| 0 <= j < i && bytes[..i][j] == 0x7E && Holds(r, bytes[..i][j + 1..]);
    assert bytes[..i][j + 1..] == Stuff(WithCrc(payload));
    assert bytes[j..i + 1] == [bytes[j]] + bytes[..i][j + 1..] + [bytes[i]];
  }

  /** After a flag, a stretch without flags and another flag deliver a payload if and only if the
      stretch is the payload and its checksum, stuffed, and the payload has a fitting length. */
  lemma {:induction false} DeliversIff(room: nat, body: seq<bv8>, payload: seq<bv8>)
    requires room > 0 && 0x7E !in body
    ensures Run(IDLE, room, [0x7E] + body + [0x7E]).1[|body| + 1] == Event(OK, payload) <==>
              body == Stuff(WithCrc(payload)) && 3 <= |payload| && |payload| + 2 < room
  {
    hide Step, Run, Stuff, WithCrc;
    var bytes := [0x7E] + body + [0x7E];
    if Run(IDLE, room, bytes).1[|body| + 1] == Event(OK, payload) {
      var j := OnlyFramesDelivered(room, bytes, |body| + 1);
      FrameParts(payload);
      assert bytes[j..][0] == 0x7E;
      assert |Frame(payload)| >= 2 && forall k :: 0 < k <= |body| ==> bytes[k] == body[k - 1];
      assert bytes[j..|body| + 2] == bytes;
      assert Frame(payload)[1..] == body + [0x7E];
      assert (body + [0x7E])[..|body|] == body && (Stuff(WithCrc(payload)) + [0x7E])[..|body|] == Stuff(WithCrc(payload));
    } else if body == Stuff(WithCrc(payload)) && 3 <= |payload| && |payload| + 2 < room {
      assert bytes == Frame(payload);
      FrameFromAnywhere(IDLE, room, payload);
    }
  }
}
