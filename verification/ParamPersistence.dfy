/** The whole stack: the parameter trees of several handlers, dumped into messages, framed and
    written to memory by the master, read back one octet at a time, sent out again and set. */
module ParamPersistence {
  import opened Arithmetic
  import opened Serialization
  import opened ParamFc
  import opened SlipFraming
  import opened ParamStore
  import opened ParamText
  import opened ParamTree
  import opened ParamWalk
  import opened ParamDump
  import opened ParamHandler

  // ---------------------------------------------------------------- texts as payloads

  /** Characters that a null-terminated string of octets can hold. */
  predicate CString(s: string) {
    forall i :: 0 <= i < |s| ==> 0 < s[i] as int < 256
  }

  function CharOctet(c: char): bv8
    requires 0 < c as int < 256
  {
    OctetOf(c as int)
  }

  /** The octets of a text with its terminating null. */
  function Octets(s: string): seq<bv8>
    requires CString(s)
  {
    if s == "" then [0] else [CharOctet(s[0])] + Octets(s[1..])
  }

  /** The text up to the first null. */
  function TextFrom(p: seq<bv8>): string
    decreases |p|
  {
    if p == [] || ValueOf(p[0]) == 0 then "" else [ValueOf(p[0]) as char] + TextFrom(p[1..])
  }

  lemma {:induction false} TextOfOctets(s: string)
    requires CString(s)
    ensures TextFrom(Octets(s)) == s
    decreases |s|
  {
    hide OctetOf, ValueOf;
    if s == "" {
      ValueOfOctet(0);
      ZeroOctet();
    } else {
      ValueOfOctet(s[0] as int);
      assert Octets(s)[1..] == Octets(s[1..]);
      TextOfOctets(s[1..]);
    }
  }

  lemma ZeroOctet()
    ensures OctetOf(0) == 0 && ValueOf(0) == 0
  {
  }

  // ---------------------------------------------------------------- dumps as payloads

  ghost predicate CNames(root: Node) {
    forall p :: IsNode(root, p) ==> CString(NodeAt(root, p).name)
  }

  lemma CNode(n: Node, v: int)
    requires CString(n.name)
    ensures CString(NodeString(n, v))
  {
    var t, digits := Digits(TypeCode(n.vtype)), Printed(v);
    assert CString(t) && CString(digits);
  }

  lemma {:induction false} CText(root: Node, d: Values, tokens: seq<Token>)
    requires CNames(root) && NodesOf(root, tokens)
    ensures CString(TextOf(root, d, tokens))
    decreases |tokens|
  {
    hide NodeString, IsNode, NodeAt;
    if tokens != [] {
      match tokens[0] {
        case Enter(p) => CNode(NodeAt(root, p), ValueAt(d, p));
        case Up =>
      }
      CText(root, d, tokens[1..]);
    }
  }

  /** The payload of the message that carries a dump. */
  function DumpPayload(root: Node, d: Values, tokens: seq<Token>): seq<bv8>
    requires NodesOf(root, tokens) && CString("/" + TextOf(root, d, tokens))
  {
    Octets("/" + TextOf(root, d, tokens))
  }

  /** The payloads of a series of dumps. */
  ghost predicate Carries(root: Node, d: Values, dumps: seq<Dump>, payloads: seq<seq<bv8>>) {
    && |payloads| == |dumps|
    && forall i :: 0 <= i < |dumps| ==>
         && NodesOf(root, dumps[i].tokens)
         && CString("/" + TextOf(root, d, dumps[i].tokens))
         && payloads[i] == DumpPayload(root, d, dumps[i].tokens)
  }

  /** A handler that gets set messages with these payloads, one after the other. */
  function SetByPayloads(root: Node, values: Values, payloads: seq<seq<bv8>>): SetResult
    decreases |payloads|
  {
    if payloads == [] then SetResult(values, true)
    else
      var first := SetByMessage(root, values, TextFrom(payloads[0]));
      var rest := SetByPayloads(root, first.values, payloads[1..]);
      rest.(ok := first.ok && rest.ok)
  }

  lemma SetByDump(root: Node, values: Values, v: Values, r: Dump)
    requires WellNamed(root) && FitsDepth(root, 8) && r.tokens != []
    requires Visit(root, [], r.ok, r.tokens) && NodesOf(root, r.tokens) && CString("/" + TextOf(root, v, r.tokens))
    ensures SetByMessage(root, values, TextFrom(DumpPayload(root, v, r.tokens)))
         == SetFromRoot(root, values, TextOf(root, v, r.tokens))
  {
    hide SetByMessage, SetFromRoot, TextOf, NodesOf, WellNamed, FitsDepth, Visit, Octets, TextFrom, CString;
    TextOfOctets("/" + TextOf(root, v, r.tokens));
    DumpMessage(root, values, v, r.ok, r.tokens, root.(name := root.name + "x"), values);
  }

  /** Reading a series from its payloads is reading it from its texts. */
  lemma {:induction false} PayloadsAreTexts(root: Node, values: Values, d: seq<Values>, v: Values, cap: nat,
      s: seq<nat>, dumps: seq<Dump>, payloads: seq<seq<bv8>>)
    requires WellNamed(root) && FitsDepth(root, 8) && cap > MAX_PARAM_NODE_LENGTH
    requires |s| == 8 && Series(root, d, cap, s, dumps) && Steady(d, v) && Carries(root, v, dumps, payloads)
    ensures SetByPayloads(root, values, payloads) == SetInTurn(root, values, v, dumps)
    decreases |dumps|
  {
    hide WellNamed, FitsDepth, SetByMessage, SetFromRoot, TextOf, NodesOf, Visit, DumpChildren, DumpPayload, CString,
      NodeString;
    var r := dumps[0];
    assert IsNode(root, []) && NodeAt(root, []) == root;
    NodeVisits(root, root, [], v, cap, 1, s);
    SetByDump(root, values, v, r);
    if |dumps| > 1 {
      var first := SetFromRoot(root, values, TextOf(root, v, r.tokens));
      PayloadsAreTexts(root, first.values, d[1..], v, cap, r.start, dumps[1..], payloads[1..]);
    }
  }

  // ---------------------------------------------------------------- through the memory

  // A handler has its callback for messages of type Msg_ParamFc_e, 39, and takes one of control
  // code param_set, 0, for a set message.

  /** The payloads of the parameter messages that a handler sent. */
  function PayloadsFrom(ms: seq<Message>, handler: Uint32): seq<seq<bv8>> {
    if ms == [] then []
    else
      (if ms[0].source == handler && ms[0].msgType == 39 then [ms[0].payload] else []) + PayloadsFrom(ms[1..], handler)
  }

  /** The payloads of the messages that are set messages to a handler. */
  function PayloadsTo(ms: seq<Message>, handler: Uint32): seq<seq<bv8>> {
    if ms == [] then []
    else (if SetsAt(ms[0], handler) then [ms[0].payload] else []) + PayloadsTo(ms[1..], handler)
  }

  predicate SetsAt(m: Message, handler: Uint32) {
    m.destination == handler && m.msgType == 39 && m.control == 0
  }

  lemma {:induction false} CommandPayloads(out: seq<Message>, ms: seq<Message>, handler: Uint32)
    requires |out| == |ms| && forall i :: 0 <= i < |ms| ==> SetCommand(out[i], ms[i])
    ensures PayloadsTo(out, handler) == PayloadsFrom(ms, handler)
    decreases |ms|
  {
    if ms != [] {
      assert SetCommand(out[0], ms[0]);
      CommandPayloads(out[1..], ms[1..], handler);
    }
  }

  lemma ReturnedPayloads(out: seq<Message>, ms: seq<Message>, self: Uint32, handler: Uint32)
    requires Returned(out, ms, self)
    ensures PayloadsTo(out, handler) == PayloadsFrom(ms, handler)
  {
    hide SetCommand, PayloadsTo, PayloadsFrom;
    CommandPayloads(out, ms, handler);
  }

  /** A misled parser takes its leftovers for the only message that was saved. */
  predicate TakenFor(r: Receiver, ms: seq<Message>) {
    && Misled(r, SLIP_PACKET_LEN) && |ms| == 1
    && match Decode(r.data[..|r.data| - 2])
       case None => false
       case Some(m) =>
         ValueOf(m.sequenceNr) == 0 && m.lastInSequence != 0 && SetCommand(m, ms[0])
  }

  /** A load after a complete save sends every answer, in order, back to the handler it came from as
      a set command, if and only if the gaps are clean and the parser listens, but for one
      coincidence. */
  lemma {:induction false} LoadReturns(l: Layout, s: Saver, ms: seq<Message>, self: Uint32, r: Receiver)
    requires s.address == l.start && s.sequence == 0 && l.stop <= |s.memory|
    requires CompleteSave(l, s, ms) && Fits(ms)
    ensures var res := Load(SaveAll(l, s, ms).memory, self, r, l.start, 0);
            res.ok && Returned(res.sent, ms, self) <==>
            (CleanGaps(l, s, ms) && Listens(r, SLIP_PACKET_LEN)) || TakenFor(r, ms)
  {
    hide CompleteSave, Fits, Listens, Deaf, Misled, CleanGaps, Load, Loaded, SaveAll, StampedAll, Decode, ValueOf;
    LoadAfterSave(l, s, ms, self, r);
    ThreeKinds(r, SLIP_PACKET_LEN);
    SavedReturned(l, s, ms, self);
  }

  /** What a complete save whose messages from a handler carry a finished series of dumps gives
      back to it: the messages a load sends to that handler set exactly the settable nodes that the
      series shows to the dumped values, whatever they held; and it shows all nodes from the
      position on at which it began. */
  lemma {:induction false} SavedTreeRestored(
      l: Layout, s: Saver, ms: seq<Message>, self: Uint32, r: Receiver, handler: Uint32,
      root: Node, d: seq<Values>, v: Values, cap: nat, at: seq<nat>, dumps: seq<Dump>, values: Values)
    requires s.address == l.start && s.sequence == 0 && l.stop <= |s.memory|
    requires CompleteSave(l, s, ms) && Fits(ms) && Listens(r, SLIP_PACKET_LEN) && CleanGaps(l, s, ms)
    requires WellNamed(root) && Restorable(root, v) && FitsDepth(root, 8)
    requires |at| == 8 && Resumable(root, 0, at) && Series(root, d, cap, at, dumps) && Steady(d, v)
    requires Carries(root, v, dumps, PayloadsFrom(ms, handler))
    ensures var out := Load(SaveAll(l, s, ms).memory, self, r, l.start, 0);
            && out.ok
            && var res := SetByPayloads(root, values, PayloadsTo(out.sent, handler));
            && res.ok
            && Overlaid(root, values, v, EnteredInSeries(dumps), res.values)
    ensures forall q :: Under(root, [], q) && !Before(q, 0, at) ==> q in EnteredInSeries(dumps)
  {
    hide CompleteSave, Fits, Listens, Deaf, Misled, CleanGaps, Load, SaveAll, WellNamed, Restorable, FitsDepth, Series,
      Carries, Overlaid, EnteredInSeries, SetByPayloads, SetInTurn, PayloadsTo, PayloadsFrom, Steady, Resumable, Before,
      TakenFor, Returned, Under;
    LoadReturns(l, s, ms, self, r);
    ReturnedPayloads(Load(SaveAll(l, s, ms).memory, self, r, l.start, 0).sent, ms, self, handler);
    SeriesHasRoom(root, d, cap, at, dumps);
    PayloadsAreTexts(root, values, d, v, cap, at, dumps, PayloadsFrom(ms, handler));
    SeriesSets(root, values, d, v, cap, at, dumps);
    SeriesCovers(root, d, cap, at, dumps);
  }
}
