/** The wire format of slip_packet.c and the receiver it needs: octet stuffing with the flag
    0x7E and the escape 0x7D, replaced by 0x5E and 0x5D, around a payload and its checksum. */
module SlipFraming {
  import opened Crc16
  import opened Crc16Errors

  // ---------------------------------------------------------------- sender's view

  function StuffOctet(b: bv8): (s: seq<bv8>)
    ensures 1 <= |s| <= 2
  {
    if b == 0x7E then [0x7D, 0x5E]
    else if b == 0x7D then [0x7D, 0x5D]
    else [b]
  }

  function Stuff(data: seq<bv8>): (s: seq<bv8>)
    ensures |data| <= |s|
  {
    if data == [] then [] else StuffOctet(data[0]) + Stuff(data[1..])
  }

  lemma {:induction false} StuffAppend(a: seq<bv8>, b: seq<bv8>)
    ensures Stuff(a + b) == Stuff(a) + Stuff(b)
    decreases |a|
  {
    if a == [] {
      assert a + b == b;
    } else {
      assert (a + b)[1..] == a[1..] + b;
      StuffAppend(a[1..], b);
    }
  }

  lemma {:induction false} StuffAtMostTwice(data: seq<bv8>)
    ensures |Stuff(data)| <= 2 * |data|
    decreases |data|
  {
    if data != [] {
      StuffAtMostTwice(data[1..]);
    }
  }

  /** A payload followed by its checksum, high octet first. */
  function WithCrc(payload: seq<bv8>): (data: seq<bv8>)
    ensures |data| == |payload| + 2
  {
    payload + [TopByte(Crc(payload)), LowByte(Crc(payload))]
  }

  function Frame(payload: seq<bv8>): (f: seq<bv8>)
    ensures |f| >= |payload| + 4
  {
    [0x7E] + Stuff(WithCrc(payload)) + [0x7E]
  }

  // ---------------------------------------------------------------- receiver's view

  datatype Status = Nok | OK | Cont | CrcError | LengthError | EscapeError

  /** What one octet makes the parser report: a status, and the payload when it is OK. */
  datatype Event = Event(status: Status, payload: seq<bv8>)

  const NOTHING := Event(Cont, [])

  /** The receiver: octets decoded since the last flag, whether a flag opened them, and
      whether an escape is waiting for its second octet. */
  datatype Receiver = Receiver(data: seq<bv8>, start: bool, escape: bool)

  /** No octet received. */
  const IDLE := Receiver([], false, false)
  /** A flag has just been seen, so a frame is open. */
  const OPENED := Receiver([], true, false)

  predicate CrcPasses(data: seq<bv8>)
    requires |data| >= 2
  {
    var n := |data| - 2;
    Crc(data[..n]) == Word(data[n], data[n + 1])
  }

  /** One octet arrives at a receiver whose packet holds `room` octets. */
  function Step(r: Receiver, room: nat, b: bv8): (Receiver, Event) {
    if |r.data| >= room then (IDLE, Event(LengthError, []))
    else if r.escape then
      if b == 0x5D then (Receiver(r.data + [0x7D], r.start, false), NOTHING)
      else if b == 0x5E then (Receiver(r.data + [0x7E], r.start, false), NOTHING)
      else (IDLE, Event(EscapeError, []))
    else if b == 0x7E then
      if r.start && |r.data| > 4 then
        if CrcPasses(r.data) then (OPENED, Event(OK, r.data[..|r.data| - 2]))
        else (IDLE, Event(CrcError, []))
      else (OPENED, NOTHING)
    else if b == 0x7D then (Receiver(r.data, r.start, true), NOTHING)
    else (Receiver(r.data + [b], r.start, false), NOTHING)
  }

  function Run(r: Receiver, room: nat, bytes: seq<bv8>): (res: (Receiver, seq<Event>))
    ensures |res.1| == |bytes|
    decreases |bytes|
  {
    if bytes == [] then (r, [])
    else
      var (r1, e) := Step(r, room, bytes[0]);
      var (r2, es) := Run(r1, room, bytes[1..]);
      (r2, [e] + es)
  }

  lemma RunOne(r: Receiver, room: nat, b: bv8)
    ensures Run(r, room, [b]) == (Step(r, room, b).0, [Step(r, room, b).1])
  {
    hide Step;
    var (r1, e) := Step(r, room, b);
    assert [b][1..] == [] && Run(r1, room, []) == (r1, []);
    assert [e] + [] == [e];
  }

  lemma {:induction false} RunAppend(r: Receiver, room: nat, a: seq<bv8>, b: seq<bv8>)
    ensures var (r1, es1) := Run(r, room, a);
            var (r2, es2) := Run(r1, room, b);
            Run(r, room, a + b) == (r2, es1 + es2)
    decreases |a|
  {
    hide Step;
    var (r1, es1) := Run(r, room, a);
    var (r2, es2) := Run(r1, room, b);
    if a == [] {
      assert a + b == b && es1 + es2 == es2;
    } else {
      assert (a + b)[1..] == a[1..] + b;
      var (r', e) := Step(r, room, a[0]);
      RunAppend(r', room, a[1..], b);
      var es' := Run(r', room, a[1..]).1;
      assert [e] + (es' + es2) == es1 + es2;
    }
  }

  function Quiet(n: nat): (es: seq<Event>)
    ensures |es| == n && forall i :: 0 <= i < n ==> es[i] == NOTHING
  {
    if n == 0 then [] else [NOTHING] + Quiet(n - 1)
  }

  lemma {:induction false} QuietAppend(m: nat, n: nat)
    ensures Quiet(m) + Quiet(n) == Quiet(m + n)
  {
  }

  // ---------------------------------------------------------------- one frame

  lemma StuffOctetRuns(r: Receiver, room: nat, b: bv8)
    requires !r.escape && |r.data| < room
    ensures Run(r, room, StuffOctet(b)) == (r.(data := r.data + [b]), Quiet(|StuffOctet(b)|))
  {
    var s := StuffOctet(b);
    if |s| == 2 {
      var mid := Step(r, room, s[0]).0;
      assert s[1..] == [s[1]];
      RunOne(mid, room, s[1]);
      assert Step(r, room, s[0]).1 == NOTHING;
      assert [NOTHING] + [NOTHING] == Quiet(2);
    } else {
      RunOne(r, room, b);
      assert [NOTHING] == Quiet(1);
    }
  }

  /** Stuffed octets decode to themselves, whatever the receiver already holds. */
  lemma {:induction false} StuffRuns(r: Receiver, room: nat, data: seq<bv8>)
    requires !r.escape && |r.data| + |data| <= room
    ensures Run(r, room, Stuff(data)) == (r.(data := r.data + data), Quiet(|Stuff(data)|))
    decreases |data|
  {
    if data == [] {
      assert r.data + data == r.data;
    } else {
      var r1 := r.(data := r.data + [data[0]]);
      StuffOctetRuns(r, room, data[0]);
      StuffRuns(r1, room, data[1..]);
      RunAppend(r, room, StuffOctet(data[0]), Stuff(data[1..]));
      QuietAppend(|StuffOctet(data[0])|, |Stuff(data[1..])|);
      assert r.data + [data[0]] + data[1..] == r.data + data;
    }
  }

  lemma SplitWord(c: bv16)
    ensures Word(TopByte(c), LowByte(c)) == c
  {
  }

  lemma WithCrcPasses(payload: seq<bv8>)
    ensures CrcPasses(WithCrc(payload))
  {
    hide Word, TopByte, LowByte, Crc;
    SplitWord(Crc(payload));
    assert WithCrc(payload)[..|payload|] == payload;
  }

  /** The checksum test is the test for a zero remainder over data and checksum together. */
  lemma CrcPassesIsZero(data: seq<bv8>)
    requires |data| >= 2
    ensures CrcPasses(data) <==> Crc(data) == 0
  {
    hide Word, Crc;
    var n := |data| - 2;
    SelfCheck(data[..n], data[n], data[n + 1]);
    assert data[..n] + [data[n], data[n + 1]] == data;
  }

  /** The events of a frame after its opening flag. */
  function Delivery(payload: seq<bv8>): (es: seq<Event>)
    ensures |es| == |Frame(payload)| - 1
  {
    Quiet(|Stuff(WithCrc(payload))|) + [Event(OK, payload)]
  }

  lemma ClosingFlag(payload: seq<bv8>, room: nat)
    requires 3 <= |payload| && |payload| + 3 <= room
    ensures Step(Receiver(WithCrc(payload), true, false), room, 0x7E) == (OPENED, Event(OK, payload))
  {
    WithCrcPasses(payload);
    hide CrcPasses, Crc, TopByte, LowByte;
    var data := WithCrc(payload);
    assert data[..|data| - 2] == payload;
  }

  lemma BodyDelivers(payload: seq<bv8>, room: nat)
    requires 3 <= |payload| && |payload| + 3 <= room
    ensures Run(OPENED, room, Stuff(WithCrc(payload)) + [0x7E]) == (OPENED, Delivery(payload))
  {
    hide WithCrc, Stuff, Step;
    var data := WithCrc(payload);
    StuffRuns(OPENED, room, data);
    assert [] + data == data;
    ClosingFlag(payload, room);
    RunOne(Receiver(data, true, false), room, 0x7E);
    RunAppend(OPENED, room, Stuff(data), [0x7E]);
  }

  /** The receivers that lose the frame whose opening flag comes next: a full packet, a
      dangling escape, or an open frame with more than four octets and a bad checksum. */
  predicate Deaf(r: Receiver, room: nat) {
    || |r.data| >= room
    || r.escape
    || (r.start && |r.data| > 4 && !CrcPasses(r.data))
  }

  /** The receivers that take the next flag for the beginning of a frame. */
  predicate Listens(r: Receiver, room: nat) {
    !r.escape && |r.data| < room && !(r.start && |r.data| > 4)
  }

  /** The receivers whose leftover octets would pass for a frame if a flag closed them. */
  predicate Misled(r: Receiver, room: nat) {
    !r.escape && |r.data| < room && r.start && |r.data| > 4 && CrcPasses(r.data)
  }

  /** Every receiver listens, is deaf or is misled. */
  lemma ThreeKinds(r: Receiver, room: nat)
    ensures Listens(r, room) <==> !Deaf(r, room) && !Misled(r, room)
    ensures Misled(r, room) ==> Step(r, room, 0x7E) == (OPENED, Event(OK, r.data[..|r.data| - 2]))
    ensures Deaf(r, room) ==> Step(r, room, 0x7E).0 == IDLE && Step(r, room, 0x7E).1.status !in {OK, Cont}
    ensures Listens(r, room) ==> Step(r, room, 0x7E) == (OPENED, NOTHING)
  {
    hide CrcPasses;
  }

  /** Any flag-to-flag stretch of stuffed octets that fits leaves a receiver that was not
      listening ready for a frame. */
  lemma UnopenedBody(data: seq<bv8>, room: nat)
    requires |data| + 1 <= room
    ensures Run(IDLE, room, Stuff(data) + [0x7E]) == (OPENED, Quiet(|Stuff(data)| + 1))
  {
    hide Crc, Word, Stuff;
    StuffRuns(IDLE, room, data);
    assert [] + data == data;
    RunOne(Receiver(data, false, false), room, 0x7E);
    RunAppend(IDLE, room, Stuff(data), [0x7E]);
    QuietAppend(|Stuff(data)|, 1);
    assert Quiet(1) == [NOTHING];
  }

  lemma FrameParts(payload: seq<bv8>)
    ensures Frame(payload) == [0x7E] + (Stuff(WithCrc(payload)) + [0x7E])
    ensures Frame(payload)[0] == 0x7E && Frame(payload)[1..] == Stuff(WithCrc(payload)) + [0x7E]
  {
  }

  /** From every receiver state, a well-formed frame leaves a frame open, and its last octet
      delivers its payload exactly when the receiver was not deaf to its opening flag. */
  lemma FrameFromAnywhere(r: Receiver, room: nat, payload: seq<bv8>)
    requires 3 <= |payload| && |payload| + 3 <= room
    ensures var (r', es) := Run(r, room, Frame(payload));
            && r' == OPENED
            && es[1..] == (if Deaf(r, room) then Quiet(|Frame(payload)| - 1) else Delivery(payload))
  {
    hide Crc, Word, Stuff, Step, Deaf;
    FrameParts(payload);
    ThreeKinds(r, room);
    BodyDelivers(payload, room);
    UnopenedBody(WithCrc(payload), room);
  }

  /** A receiver that listens reports nothing before the closing flag. */
  lemma FrameIsQuiet(r: Receiver, room: nat, payload: seq<bv8>)
    requires Listens(r, room)
    requires 3 <= |payload| && |payload| + 3 <= room
    ensures Run(r, room, Frame(payload)) == (OPENED, Quiet(|Frame(payload)| - 1) + [Event(OK, payload)])
  {
    hide Frame, CrcPasses, Listens, Deaf, Misled, Step;
    ThreeKinds(r, room);
    FrameFromAnywhere(r, room, payload);
    FrameParts(payload);
    var es := Run(r, room, Frame(payload)).1;
    var n := |Frame(payload)| - 2;
    assert es[0] == NOTHING;
    assert es == [NOTHING] + es[1..];
    QuietAppend(1, n);
    assert Quiet(1) == [NOTHING];
    assert [NOTHING] + (Quiet(n) + [Event(OK, payload)]) == ([NOTHING] + Quiet(n)) + [Event(OK, payload)];
  }

  // ---------------------------------------------------------------- streams

  function Frames(payloads: seq<seq<bv8>>): seq<bv8> {
    if payloads == [] then [] else Frame(payloads[0]) + Frames(payloads[1..])
  }

  /** The events of a clean stream: nothing until each closing flag, then that payload. */
  function Deliveries(payloads: seq<seq<bv8>>): seq<Event> {
    if payloads == [] then [] else [NOTHING] + Delivery(payloads[0]) + Deliveries(payloads[1..])
  }

  ghost predicate AllFit(payloads: seq<seq<bv8>>, room: nat) {
    forall i :: 0 <= i < |payloads| ==> 3 <= |payloads[i]| && |payloads[i]| + 3 <= room
  }

  /** A stream of frames yields exactly its payloads in order, each at its closing flag. */
  lemma {:induction false} StreamRoundTrip(r: Receiver, room: nat, payloads: seq<seq<bv8>>)
    requires AllFit(payloads, room)
    requires Listens(r, room)
    ensures Run(r, room, Frames(payloads)).1 == Deliveries(payloads)
    decreases |payloads|
  {
    hide Crc, Word, Frame, Delivery;
    if payloads != [] {
      var p := payloads[0];
      FrameFromAnywhere(r, room, p);
      assert Step(r, room, 0x7E).1 == NOTHING;
      var (r1, es) := Run(r, room, Frame(p));
      FrameParts(p);
      assert es == [NOTHING] + Delivery(p);
      if payloads[1..] != [] {
        assert 3 <= |payloads[1]| && |payloads[1]| + 3 <= room;
      }
      RunAppend(r, room, Frame(p), Frames(payloads[1..]));
      if room > 0 {
        StreamRoundTrip(r1, room, payloads[1..]);
      }
    }
  }

  /** Self-synchronisation: after any garbage, of two consecutive frames the second is
      delivered, at its last octet and only there. */
  lemma SecondFrameDelivered(r: Receiver, room: nat, first: seq<bv8>, second: seq<bv8>)
    requires 3 <= |first| && |first| + 3 <= room
    requires 3 <= |second| && |second| + 3 <= room
    ensures var (r', es) := Run(r, room, Frame(first) + Frame(second));
            && r' == OPENED
            && es[|Frame(first)|..] == [NOTHING] + Delivery(second)
  {
    hide Crc, Word, Stuff, Frame, Delivery;
    FrameFromAnywhere(r, room, first);
    FrameFromAnywhere(OPENED, room, second);
    FrameParts(second);
    assert !Deaf(OPENED, room) && Step(OPENED, room, 0x7E) == (OPENED, NOTHING);
    RunAppend(r, room, Frame(first), Frame(second));
    var es := Run(OPENED, room, Frame(second)).1;
    assert es == [es[0]] + es[1..];
    assert es[0] == NOTHING;
  }

  /** Of two different octet strings of one length whose bits differ only within sixteen
      consecutive places, checksum included, at most one is accepted. */
  lemma BurstRejected(a: seq<bv8>, b: seq<bv8>, p: nat)
    requires |a| == |b| >= 2 && a != b
    requires DifferWithin(Bits(a), Bits(b), p, 16)
    ensures !(CrcPasses(a) && CrcPasses(b))
  {
    hide CrcPasses, Crc;
    CrcPassesIsZero(a);
    CrcPassesIsZero(b);
    BurstDetected(a, b, p);
  }

  /** The same for any odd number of flipped bits. */
  lemma OddErrorsRejected(a: seq<bv8>, b: seq<bv8>)
    requires |a| == |b| >= 2 && Odd(Diff(Bits(a), Bits(b)))
    ensures !(CrcPasses(a) && CrcPasses(b))
  {
    hide CrcPasses, Crc;
    CrcPassesIsZero(a);
    CrcPassesIsZero(b);
    OddErrorsDetected(a, b);
  }
}
