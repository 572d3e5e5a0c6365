/** What SlipParser_Parse computes, call by call, as functions of the parser's fields, the
    packet under construction and the ring of pushed-back octets; and why calls that bring one
    octet, or one frame in pieces, behave like the receiver of SlipFraming. */
module SlipParser {
  import opened SlipFraming

  /** The fields a call reads and writes: the packet's octets and size, the write index, the
      two flags, and the ring's contents. */
  datatype Fields = Fields(payload: seq<bv8>, index: nat, start: bool, escape: bool,
                           fifo: seq<bv8>, size: nat)
  {
    predicate InBounds() {
      index <= |payload|
    }

    function Put(b: bv8): Fields
      requires index < |payload|
    {
      this.(payload := payload[index := b], index := index + 1)
    }

    function Cleared(): Fields {
      this.(start := false, index := 0, escape := false)
    }
  }

  datatype Verdict = Going | Complete | Failed(status: Status)

  /** The body of the inner loop, up to the test for a complete packet. */
  function Octet(s: Fields, b: bv8): (res: (Fields, Verdict))
    requires s.index < |s.payload|
    ensures |res.0.payload| == |s.payload| && res.0.index <= s.index + 1
    ensures res.0.fifo == s.fifo
  {
    if s.escape then
      var s1 := s.(escape := false);
      if b == 0x5D then (s1.Put(0x7D), Going)
      else if b == 0x5E then (s1.Put(0x7E), Going)
      else (s1.Cleared(), Failed(EscapeError))
    else if b == 0x7E then
      if s.start && s.index > 4 then
        var s1 := s.(size := s.index - 2, index := 0, start := false, escape := false);
        if CrcPasses(s.payload[..s.index]) then (s1, Complete)
        else (s1, Failed(CrcError))
      else (s.(index := 0, start := true), Going)
    else if b == 0x7D then (s.(escape := true), Going)
    else (s.Put(b), Going)
  }

  function Pushed(fifo: seq<bv8>, capacity: nat, block: seq<bv8>): (f: seq<bv8>)
    requires |fifo| <= capacity
    ensures |fifo| <= |f| <= capacity
  {
    if |block| <= capacity - |fifo| then fifo + block else fifo + block[..capacity - |fifo|]
  }

  datatype BlockResult = BlockResult(fields: Fields, complete: bool, verdict: Verdict)

  /** The inner loop over one buffer; `complete` is the flag packetComplete. */
  function Block(s: Fields, capacity: nat, bytes: seq<bv8>, complete: bool): (res: BlockResult)
    requires s.index + |bytes| <= |s.payload| && |s.fifo| <= capacity
    ensures |res.fields.payload| == |s.payload| && res.fields.InBounds()
    ensures |s.fifo| <= |res.fields.fifo| <= capacity
    ensures !res.verdict.Complete?
    decreases |bytes|
  {
    if bytes == [] then BlockResult(s, complete, Going)
    else
      var (s1, v) := Octet(s, bytes[0]);
      if v.Failed? then BlockResult(s1, complete, v)
      else if complete || v.Complete? then
        BlockResult(s1.(fifo := Pushed(s1.fifo, capacity, bytes)), true, Going)
      else Block(s1, capacity, bytes[1..], false)
  }

  /** The outer loop: first the octets buffered when the call began, one at a time, then the
      new input in one piece. */
  function Parse(s: Fields, capacity: nat, buffered: nat, input: seq<bv8>, complete: bool)
    : (res: (Fields, Status))
    requires s.InBounds() && buffered <= |s.fifo| <= capacity
    ensures |res.0.payload| == |s.payload| && res.0.InBounds() && |res.0.fifo| <= capacity
    decreases buffered + |input|
  {
    if buffered == 0 && input == [] then (s, if complete then OK else Cont)
    else
      var s0 := if buffered > 0 then s.(fifo := s.fifo[1..]) else s;
      var buffer := if buffered > 0 then [s.fifo[0]] else input;
      if |buffer| > |s0.payload| - s0.index then (s0.Cleared(), LengthError)
      else
        var r := Block(s0, capacity, buffer, complete);
        if r.verdict.Failed? then (r.fields, r.verdict.status)
        else if buffered > 0 then Parse(r.fields, capacity, buffered - 1, input, r.complete)
        else Parse(r.fields, capacity, 0, [], r.complete)
  }

  /** One call of SlipParser_Parse, and what the caller sees of it. */
  function Call(s: Fields, capacity: nat, input: seq<bv8>): (res: (Fields, Event))
    requires s.InBounds() && |s.fifo| <= capacity
    ensures |res.0.payload| == |s.payload| && res.0.InBounds() && |res.0.fifo| <= capacity
  {
    var (s', status) := Parse(s, capacity, |s.fifo|, input, false);
    (s', Event(status, if status.OK? && s'.size <= |s'.payload| then s'.payload[..s'.size] else []))
  }

  lemma CallResult(s: Fields, capacity: nat, input: seq<bv8>)
    requires s.InBounds() && |s.fifo| <= capacity
    ensures var (s', status) := Parse(s, capacity, |s.fifo|, input, false);
            var (c, e) := Call(s, capacity, input);
            && c == s' && e.status == status
            && (status.OK? && s'.size <= |s'.payload| ==> e.payload == s'.payload[..s'.size])
  {
  }

  // ---------------------------------------------------------------- the receiver in the fields

  /** The states between calls that bring at most one frame: nothing pushed back, or the
      closing flag of the frame just delivered. */
  predicate Settled(s: Fields) {
    && s.InBounds()
    && |s.payload| > 0
    && (s.fifo == [] || (s.fifo == [0x7E] && s.index == 0 && !s.start && !s.escape))
  }

  /** A pushed-back closing flag will be read again as an opening flag. */
  function View(s: Fields): Receiver
    requires s.InBounds()
  {
    if s.fifo == [0x7E] then OPENED
    else Receiver(s.payload[..s.index], s.start, s.escape)
  }

  lemma OctetIsStep(s: Fields, b: bv8)
    requires s.index < |s.payload| && s.fifo == []
    ensures var (s1, v) := Octet(s, b);
            var (r1, e) := Step(View(s), |s.payload|, b);
            && (if v.Complete? then b == 0x7E && r1 == OPENED && s1.index == 0 && !s1.start && !s1.escape
                else View(s1) == r1)
            && (e.status == match v case Going => Cont case Complete => OK case Failed(f) => f)
            && (v.Complete? ==> s1.size <= |s1.payload| && s1.payload[..s1.size] == e.payload)
            && (!v.Complete? ==> e.payload == [])
            && (v.Failed? ==> e.status != Cont && e.status != OK)
  {
    hide CrcPasses;
  }

  /** Over a buffer in which at most the last octet is worth reporting, the inner loop is the
      receiver run over it. */
  lemma {:induction false} BlockIsRun(s: Fields, capacity: nat, bytes: seq<bv8>)
    requires s.fifo == [] && capacity > 0 && bytes != []
    requires s.index + |bytes| <= |s.payload|
    requires Run(View(s), |s.payload|, bytes).1[..|bytes| - 1] == Quiet(|bytes| - 1)
    ensures var b := Block(s, capacity, bytes, false);
            var (r, es) := Run(View(s), |s.payload|, bytes);
            var e := es[|bytes| - 1];
            && Settled(b.fields) && View(b.fields) == r
            && (e.status == if b.verdict.Failed? then b.verdict.status else if b.complete then OK else Cont)
            && (b.verdict.Failed? ==> e.status != Cont && e.status != OK)
            && (e.status == OK ==> b.fields.size <= |b.fields.payload| && b.fields.payload[..b.fields.size] == e.payload)
            && (e.status != OK ==> e.payload == [])
            && (!b.complete ==> b.fields.fifo == [])
    decreases |bytes|
  {
    hide Octet, Step;
    OctetIsStep(s, bytes[0]);
    var (s1, v) := Octet(s, bytes[0]);
    var (r1, e1) := Step(View(s), |s.payload|, bytes[0]);
    var rest := Run(r1, |s.payload|, bytes[1..]);
    assert Run(View(s), |s.payload|, bytes) == (rest.0, [e1] + rest.1);
    if |bytes| == 1 {
      assert bytes[1..] == [] && bytes == [bytes[0]];
      assert Block(s1, capacity, bytes[1..], false) == BlockResult(s1, false, Going);
      assert v.Complete? ==> Pushed([], capacity, bytes) == [0x7E];
    } else {
      assert ([e1] + rest.1)[..|bytes| - 1][0] == NOTHING;
      assert rest.1[..|bytes| - 2] == Quiet(|bytes| - 1)[1..] == Quiet(|bytes| - 2);
      BlockIsRun(s1, capacity, bytes[1..]);
    }
  }

  /** A call whose input fits and is quiet up to its last octet reports that octet's event. */
  lemma CallIsRun(s: Fields, capacity: nat, input: seq<bv8>)
    requires Settled(s) && capacity > 0 && |s.fifo| <= capacity && input != []
    requires |View(s).data| + |input| <= |s.payload|
    requires Run(View(s), |s.payload|, input).1[..|input| - 1] == Quiet(|input| - 1)
    ensures var (s', e) := Call(s, capacity, input);
            var (r, es) := Run(View(s), |s.payload|, input);
            && Settled(s') && View(s') == r && e == es[|input| - 1]
            && (e.status == OK ==> s'.size <= |s'.payload|)
  {
    hide Octet, Step, Block, Run, Parse, Call, View, Settled, Quiet;
    if s.fifo == [] {
      FreshCallIsRun(s, capacity, input);
    } else {
      CallReopens(s, capacity, input);
      FreshCallIsRun(s.(fifo := [], start := true), capacity, input);
    }
  }

  /** A call that finds a pushed-back flag does what one does that finds a frame open. */
  lemma CallReopens(s: Fields, capacity: nat, input: seq<bv8>)
    requires Settled(s) && s.fifo != [] && capacity > 0 && |s.fifo| <= capacity
    ensures var s1 := s.(fifo := [], start := true);
            && Settled(s1) && View(s1) == View(s) && Call(s, capacity, input) == Call(s1, capacity, input)
  {
    hide Parse;
    ParseReopens(s, capacity, input);
  }

  /** The same when nothing was pushed back. */
  lemma FreshCallIsRun(s: Fields, capacity: nat, input: seq<bv8>)
    requires Settled(s) && s.fifo == [] && capacity > 0 && input != []
    requires |View(s).data| + |input| <= |s.payload|
    requires Run(View(s), |s.payload|, input).1[..|input| - 1] == Quiet(|input| - 1)
    ensures var (s', e) := Call(s, capacity, input);
            var (r, es) := Run(View(s), |s.payload|, input);
            && Settled(s') && View(s') == r && e == es[|input| - 1]
            && (e.status == OK ==> s'.size <= |s'.payload|)
  {
    hide Octet, Step, Block, Run, Parse, Quiet;
    ParseInput(s, capacity, input);
    BlockIsRun(s, capacity, input);
  }

  /** With an empty ring the outer loop has one turn, over the input. */
  lemma ParseInput(s: Fields, capacity: nat, input: seq<bv8>)
    requires s.InBounds() && s.fifo == [] && input != [] && s.index + |input| <= |s.payload|
    ensures var b := Block(s, capacity, input, false);
            var status := if b.verdict.Failed? then b.verdict.status else if b.complete then OK else Cont;
            Parse(s, capacity, 0, input, false) == (b.fields, status)
  {
    hide Octet, Block;
  }

  /** The pushed-back flag is read first, and opens a frame. */
  lemma ParseReopens(s: Fields, capacity: nat, input: seq<bv8>)
    requires Settled(s) && s.fifo == [0x7E] && capacity > 0
    ensures Parse(s, capacity, 1, input, false) == Parse(s.(fifo := [], start := true), capacity, 0, input, false)
  {
    hide Octet, Block;
    Reopen(s, capacity);
    assert s.fifo[1..] == [] && [s.fifo[0]] == [0x7E];
  }

  lemma Reopen(s: Fields, capacity: nat)
    requires Settled(s) && s.fifo == [0x7E] && capacity > 0
    ensures var s1 := s.(fifo := []);
            Block(s1, capacity, [0x7E], false) == BlockResult(s1.(start := true), false, Going)
  {
    var s1 := s.(fifo := []);
    assert Octet(s1, 0x7E) == (s1.(start := true), Going);
    assert [0x7E as bv8][1..] == [];
  }

  // ---------------------------------------------------------------- one octet per call

  function FeedOctets(s: Fields, capacity: nat, bytes: seq<bv8>): (res: (Fields, seq<Event>))
    requires s.InBounds() && |s.fifo| <= capacity
    ensures |res.0.payload| == |s.payload| && res.0.InBounds() && |res.0.fifo| <= capacity
    ensures |res.1| == |bytes|
    decreases |bytes|
  {
    if bytes == [] then (s, [])
    else
      var (s1, e) := Call(s, capacity, [bytes[0]]);
      var (s2, es) := FeedOctets(s1, capacity, bytes[1..]);
      (s2, [e] + es)
  }

  lemma CallIsStep(s: Fields, capacity: nat, b: bv8)
    requires Settled(s) && 0 < capacity && |s.fifo| <= capacity
    ensures var (s', e) := Call(s, capacity, [b]);
            && Settled(s') && (View(s'), e) == Step(View(s), |s.payload|, b)
            && (e.status == OK ==> s'.size <= |s'.payload|)
  {
    if |View(s).data| < |s.payload| {
      RunOne(View(s), |s.payload|, b);
      assert Run(View(s), |s.payload|, [b]).1[..0] == Quiet(0);
      CallIsRun(s, capacity, [b]);
    } else {
      assert s.fifo == [] && |[b]| == 1;
    }
  }

  /** Fed one octet at a time, from any settled state, the parser is the receiver. */
  lemma {:induction false} FeedIsRun(s: Fields, capacity: nat, bytes: seq<bv8>)
    requires Settled(s) && 0 < capacity && |s.fifo| <= capacity
    ensures var (s', es) := FeedOctets(s, capacity, bytes);
            Settled(s') && (View(s'), es) == Run(View(s), |s.payload|, bytes)
    decreases |bytes|
  {
    hide Step, Call;
    if bytes != [] {
      CallIsStep(s, capacity, bytes[0]);
      FeedIsRun(Call(s, capacity, [bytes[0]]).0, capacity, bytes[1..]);
    }
  }

  /** The concatenated frames of a list of payloads, fed one octet at a time to a fresh
      parser, deliver exactly those payloads, in order, each at its closing flag. */
  lemma FeedStream(s: Fields, capacity: nat, payloads: seq<seq<bv8>>)
    requires s.InBounds() && s.index == 0 && !s.start && !s.escape && s.fifo == []
    requires 0 < capacity && 0 < |s.payload| && AllFit(payloads, |s.payload|)
    ensures FeedOctets(s, capacity, Frames(payloads)).1 == Deliveries(payloads)
  {
    FeedIsRun(s, capacity, Frames(payloads));
    StreamRoundTrip(View(s), |s.payload|, payloads);
  }

  /** Self-synchronisation of the parser itself: whatever octets it has been fed, of two
      consecutive frames the second is delivered, at its closing flag and only there. */
  lemma Resynchronises(s: Fields, capacity: nat, garbage: seq<bv8>, first: seq<bv8>, second: seq<bv8>)
    requires Settled(s) && 0 < capacity && |s.fifo| <= capacity
    requires 3 <= |first| && |first| + 3 <= |s.payload|
    requires 3 <= |second| && |second| + 3 <= |s.payload|
    ensures FeedOctets(s, capacity, garbage + (Frame(first) + Frame(second))).1[|garbage| + |Frame(first)|..]
         == [NOTHING] + Delivery(second)
  {
    hide Frame, Delivery;
    var frames := Frame(first) + Frame(second);
    FeedIsRun(s, capacity, garbage + frames);
    RunAppend(View(s), |s.payload|, garbage, frames);
    var (r, es) := Run(View(s), |s.payload|, garbage);
    SecondFrameDelivered(r, |s.payload|, first, second);
    var later := Run(r, |s.payload|, frames).1;
    assert (es + later)[|garbage| + |Frame(first)|..] == later[|Frame(first)|..];
  }

  // ---------------------------------------------------------------- one frame in pieces

  function Concat(chunks: seq<seq<bv8>>): seq<bv8> {
    if chunks == [] then [] else chunks[0] + Concat(chunks[1..])
  }

  function FeedChunks(s: Fields, capacity: nat, chunks: seq<seq<bv8>>): (res: (Fields, seq<Event>))
    requires s.InBounds() && |s.fifo| <= capacity
    ensures |res.1| == |chunks|
    decreases |chunks|
  {
    if chunks == [] then (s, [])
    else
      var (s1, e) := Call(s, capacity, chunks[0]);
      var (s2, es) := FeedChunks(s1, capacity, chunks[1..]);
      (s2, [e] + es)
  }

  ghost predicate NoneEmpty(chunks: seq<seq<bv8>>) {
    forall i :: 0 <= i < |chunks| ==> chunks[i] != []
  }

  lemma {:induction false} RunGrows(r: Receiver, room: nat, bytes: seq<bv8>)
    ensures |Run(r, room, bytes).0.data| <= |r.data| + |bytes|
    decreases |bytes|
  {
    if bytes != [] {
      RunGrows(Step(r, room, bytes[0]).0, room, bytes[1..]);
    }
  }

  lemma SplitQuiet(es1: seq<Event>, es2: seq<Event>, last: Event)
    requires es1 != [] && es1 + es2 == Quiet(|es1| + |es2| - 1) + [last]
    ensures es1[..|es1| - 1] == Quiet(|es1| - 1)
    ensures es2 == [] ==> es1[|es1| - 1] == last
    ensures es2 != [] ==> es1[|es1| - 1] == NOTHING && es2 == Quiet(|es2| - 1) + [last]
  {
    var all := es1 + es2;
    assert forall i :: 0 <= i < |es1| ==> es1[i] == all[i];
    assert forall i :: 0 <= i < |es2| ==> es2[i] == all[|es1| + i];
  }

  /** Octets that are quiet up to the last, cut anywhere, report the same last event. */
  lemma FeedTurn(s: Fields, capacity: nat, chunks: seq<seq<bv8>>)
    requires s.InBounds() && |s.fifo| <= capacity && chunks != []
    ensures var (s1, e) := Call(s, capacity, chunks[0]);
            var rest := FeedChunks(s1, capacity, chunks[1..]);
            && FeedChunks(s, capacity, chunks) == (rest.0, [e] + rest.1)
            && (chunks[1..] == [] ==> rest == (s1, []))
  {
    hide Call;
  }

  /** The first chunk of octets that are quiet up to the last. */
  lemma FirstChunk(s: Fields, capacity: nat, c: seq<bv8>, rest: seq<bv8>, last: Event)
    requires Settled(s) && 0 < capacity && |s.fifo| <= capacity
    requires c != [] && |View(s).data| + |c| <= |s.payload|
    requires Run(View(s), |s.payload|, c + rest).1 == Quiet(|c| + |rest| - 1) + [last]
    ensures var (s1, e) := Call(s, capacity, c);
            var whole, tail := Run(View(s), |s.payload|, c + rest), Run(View(s1), |s.payload|, rest);
            && Settled(s1) && View(s1) == Run(View(s), |s.payload|, c).0 && tail.0 == whole.0
            && (rest == [] ==> e == last)
            && (rest != [] ==> e == NOTHING && tail.1 == Quiet(|rest| - 1) + [last])
  {
    assert s.InBounds();
    hide Step, Call, Run, View, Settled, Quiet;
    var room := |s.payload|;
    RunAppend(View(s), room, c, rest);
    var (r1, es1) := Run(View(s), room, c);
    var (r2, es2) := Run(r1, room, rest);
    SplitQuiet(es1, es2, last);
    CallIsRun(s, capacity, c);
  }

  /** At every call the octets decoded so far and the new piece together fit the packet. */
  predicate PiecesFit(r: Receiver, room: nat, chunks: seq<seq<bv8>>)
    decreases |chunks|
  {
    chunks == [] ||
    (|r.data| + |chunks[0]| <= room && PiecesFit(Run(r, room, chunks[0]).0, room, chunks[1..]))
  }

  /** The parser measures a piece before it unstuffs it, and refuses one that is too long. */
  lemma TooLong(s: Fields, capacity: nat, c: seq<bv8>)
    requires Settled(s) && 0 < capacity && |s.fifo| <= capacity
    requires c != [] && |View(s).data| + |c| > |s.payload|
    ensures Call(s, capacity, c).1 == Event(LengthError, [])
    decreases |s.fifo|
  {
    if s.fifo != [] {
      hide Parse, Call;
      CallReopens(s, capacity, c);
      TooLong(s.(fifo := [], start := true), capacity, c);
    }
  }

  lemma PiecesTurn(r: Receiver, room: nat, chunks: seq<seq<bv8>>)
    requires chunks != []
    ensures PiecesFit(r, room, chunks) <==>
            |r.data| + |chunks[0]| <= room && PiecesFit(Run(r, room, chunks[0]).0, room, chunks[1..])
    ensures |chunks| == 1 ==> PiecesFit(Run(r, room, chunks[0]).0, room, chunks[1..]) && Concat(chunks[1..]) == []
  {
    hide Run;
  }

  /** Octets that fit the packet as they are, fit it in any pieces. */
  lemma {:induction false} ShortFits(r: Receiver, room: nat, chunks: seq<seq<bv8>>)
    requires |r.data| + |Concat(chunks)| <= room
    ensures PiecesFit(r, room, chunks)
    decreases |chunks|
  {
    hide Run;
    if chunks != [] {
      RunGrows(r, room, chunks[0]);
      ShortFits(Run(r, room, chunks[0]).0, room, chunks[1..]);
    }
  }

  /** Octets that are quiet up to the last report that one's event, and nothing before, however
      they are cut, exactly if every piece fits; one that does not is refused. */
  lemma {:induction false} ChunksAreRun(s: Fields, capacity: nat, chunks: seq<seq<bv8>>, last: Event)
    requires Settled(s) && 0 < capacity && |s.fifo| <= capacity
    requires chunks != [] && NoneEmpty(chunks)
    requires |Concat(chunks)| > 0
    requires Run(View(s), |s.payload|, Concat(chunks)).1 == Quiet(|Concat(chunks)| - 1) + [last]
    ensures var (s', es) := FeedChunks(s, capacity, chunks);
            if PiecesFit(View(s), |s.payload|, chunks) then
              && Settled(s') && View(s') == Run(View(s), |s.payload|, Concat(chunks)).0
              && es == Quiet(|chunks| - 1) + [last]
            else Event(LengthError, []) in es
    decreases |chunks|
  {
    assert s.InBounds();
    hide Step, Call, Run, View, Settled, FeedChunks, PiecesFit, Quiet;
    FeedTurn(s, capacity, chunks);
    PiecesTurn(View(s), |s.payload|, chunks);
    if |View(s).data| + |chunks[0]| > |s.payload| {
      TooLong(s, capacity, chunks[0]);
    } else {
      FirstChunk(s, capacity, chunks[0], Concat(chunks[1..]), last);
      var s1 := Call(s, capacity, chunks[0]).0;
      if |chunks| == 1 {
        NothingRun(View(s1), |s.payload|);
        QuietMore(0, last);
      } else {
        assert chunks[1] != [];
        ChunksAreRun(s1, capacity, chunks[1..], last);
        QuietMore(|chunks| - 2, last);
      }
    }
  }

  lemma QuietMore(n: nat, last: Event)
    ensures Quiet(0) + [last] == [last]
    ensures [NOTHING] + (Quiet(n) + [last]) == Quiet(n + 1) + [last]
  {
  }

  lemma NothingRun(r: Receiver, room: nat)
    ensures Run(r, room, []) == (r, [])
  {
  }

  /** A frame cut into any non-empty pieces, one piece per call, is delivered by the last call
      and by no other, and leaves a frame open, if and only if every piece fits the room left.
      Otherwise a piece is refused. */
  lemma FrameInPieces(s: Fields, capacity: nat, payload: seq<bv8>, chunks: seq<seq<bv8>>)
    requires Settled(s) && 0 < capacity && |s.fifo| <= capacity
    requires Listens(View(s), |s.payload|)
    requires 3 <= |payload| && |payload| + 3 <= |s.payload|
    requires NoneEmpty(chunks) && Concat(chunks) == Frame(payload)
    ensures var (s', es) := FeedChunks(s, capacity, chunks);
            && (es == Quiet(|chunks| - 1) + [Event(OK, payload)] <==> PiecesFit(View(s), |s.payload|, chunks))
            && (PiecesFit(View(s), |s.payload|, chunks) ==> Settled(s') && View(s') == OPENED)
            && (!PiecesFit(View(s), |s.payload|, chunks) ==> Event(LengthError, []) in es)
  {
    assert s.InBounds();
    hide Call, Frame, CrcPasses, Listens, PiecesFit, Run, Settled, View, FeedChunks;
    FrameIsQuiet(View(s), |s.payload|, payload);
    ChunksAreRun(s, capacity, chunks, Event(OK, payload));
    assert Event(LengthError, []) !in Quiet(|chunks| - 1) + [Event(OK, payload)];
  }

  /** A frame that the parser delivers octet by octet and refuses in one piece: its payload fits the
      packet, but with its flags and stuffing it is longer than the packet. */
  lemma WholeFrameRefused(s: Fields, capacity: nat, payload: seq<bv8>)
    requires Settled(s) && 0 < capacity && |s.fifo| <= capacity && Listens(View(s), |s.payload|)
    requires 3 <= |payload| && |payload| + 3 <= |s.payload| < |Frame(payload)|
    ensures FeedChunks(s, capacity, [Frame(payload)]).1 == [Event(LengthError, [])]
    ensures FeedOctets(s, capacity, Frame(payload)).1 == Quiet(|Frame(payload)| - 1) + [Event(OK, payload)]
  {
    assert s.InBounds();
    hide Call, Frame, CrcPasses, Listens, Run, Settled, View, FeedOctets;
    FrameIsQuiet(View(s), |s.payload|, payload);
    FeedIsRun(s, capacity, Frame(payload));
    TooLong(s, capacity, Frame(payload));
    assert [Frame(payload)][1..] == [];
  }

  /** For one, a payload of three flag octets in a packet of six. */
  lemma FlagsRefused(s: Fields, capacity: nat)
    requires Settled(s) && 0 < capacity && |s.fifo| <= capacity && Listens(View(s), |s.payload|)
    requires |s.payload| == 6
    ensures FeedChunks(s, capacity, [Frame([0x7E, 0x7E, 0x7E])]).1 == [Event(LengthError, [])]
    ensures var frame := Frame([0x7E, 0x7E, 0x7E]);
            FeedOctets(s, capacity, frame).1 == Quiet(|frame| - 1) + [Event(OK, [0x7E, 0x7E, 0x7E])]
  {
    hide Frame, FeedOctets, FeedChunks, Settled, View, Quiet, Listens;
    WholeFrameRefused(s, capacity, [0x7E, 0x7E, 0x7E]);
  }
}
