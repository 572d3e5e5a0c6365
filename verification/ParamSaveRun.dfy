/** The save protocol between the parameter master and the handlers, from the first request to the
    last stored message: each handler in turn is asked until its dump is finished, and each answer
    is stored before the next request is sent. */
module ParamSaveRun {
  import opened Arithmetic
  import opened CharCircularBuffer
  import opened Serialization
  import opened ParamFc
  import opened SlipFraming
  import opened ParamStore
  import opened ParamTree
  import opened ParamWalk
  import opened ParamDump
  import opened ParamDumpEnds
  import opened ParamHandler
  import opened ParamPersistence

  // ---------------------------------------------------------------- one answer

  /** What the protocol needs to know of a handler: its address, its tree, and where the dump for
      the next save message starts. */
  datatype Client = Client(address: Uint32, root: Node, values: Values, start: seq<nat>, sequence: nat)

  ghost predicate Sound(c: Client) {
    && |c.start| == 8 && c.sequence < 256
    && FitsDepth(c.root, 8) && NamesFit(c.root) && CNames(c.root)
    && Resumable(c.root, 0, c.start)
  }

  /** Characters that are octets and that stuffing leaves alone. */
  predicate Tidy(s: string) {
    CString(s) && '~' !in s && '}' !in s
  }

  ghost predicate TidyNames(root: Node) {
    forall p :: IsNode(root, p) ==> Tidy(NodeAt(root, p).name)
  }

  lemma TidyBoth(a: string, b: string)
    requires Tidy(a) && Tidy(b)
    ensures Tidy(a + b)
  {
  }

  lemma TidyDigits(s: string)
    requires forall i :: 0 <= i < |s| ==> ParamText.IsDigit(s[i]) || s[i] == '-'
    ensures Tidy(s)
  {
  }

  lemma TidyMarks()
    ensures Tidy("") && Tidy("/") && Tidy("../") && Tidy("<") && Tidy(">") && Tidy("[") && Tidy("]")
  {
  }

  lemma TidyNode(n: Node, v: int)
    requires Tidy(n.name)
    ensures Tidy(NodeString(n, v))
  {
    var t, digits := ParamText.Digits(TypeCode(n.vtype)), Printed(v);
    TidyDigits(t);
    TidyDigits(digits);
    TidyMarks();
    hide Tidy, Printed, ParamText.Digits;
    TidyBoth(n.name, "<");
    TidyBoth(n.name + "<", t);
    TidyBoth(n.name + "<" + t, ">");
    TidyBoth("[", digits);
    TidyBoth("[" + digits, "]");
    TidyBoth(n.name + "<" + t + ">", if n.vtype.NoType? then "" else "[" + digits + "]");
  }

  lemma {:induction false} TidyText(root: Node, d: Values, tokens: seq<Token>)
    requires TidyNames(root) && NodesOf(root, tokens)
    ensures Tidy(TextOf(root, d, tokens))
    decreases |tokens|
  {
    hide NodeString, IsNode, NodeAt;
    if tokens != [] {
      match tokens[0] {
        case Enter(p) => TidyNode(NodeAt(root, p), ValueAt(d, p));
        case Up =>
      }
      TidyText(root, d, tokens[1..]);
    }
  }

  function NextDump(c: Client): (r: Dump)
    requires |c.start| == 8 && FitsDepth(c.root, 8)
    ensures |r.start| == 8
  {
    DumpNode(c.root, [], c.values, PARAM_BUFFER_LEN, 1, c.start)
  }

  /** The handler after its answer. */
  function Answered(c: Client): Client
    requires |c.start| == 8 && FitsDepth(c.root, 8)
  {
    var r := NextDump(c);
    if r.ok then c.(start := FreshStart()) else c.(start := r.start, sequence := (c.sequence + 1) % 256)
  }

  /** The text of the answer. */
  lemma AnswerText(c: Client)
    requires Sound(c)
    ensures NodesOf(c.root, NextDump(c).tokens)
    ensures var text := "/" + TextOf(c.root, c.values, NextDump(c).tokens);
            CString(text) && |text| == NextDump(c).used < PARAM_BUFFER_LEN
  {
    hide FitsDepth, NamesFit, CNames, Resumable, DumpNode, TextOf, NodesOf;
    DumpNodes(c.root, c.values, PARAM_BUFFER_LEN, 1, c.start);
    CText(c.root, c.values, NextDump(c).tokens);
    DumpFits([], c.root, c.values, PARAM_BUFFER_LEN, 1, c.start);
    AtRoot(c.root, c.values);
    NodeLength(c.root, c.root, [], c.values, PARAM_BUFFER_LEN, 1, c.start);
  }

  /** The length a dump reports is the length of its text. */
  lemma {:induction false} NodeLength(root: Node, n: Node, p: Path, d: Values, cap: nat, used: nat, s: seq<nat>)
    requires |s| == 8 && |p| < 8 && FitsDepth(n, 8 - |p|)
    requires IsNode(root, p) && NodeAt(root, p) == n
    ensures var r := DumpNode(n, p, d, cap, used, s);
            NodesOf(root, r.tokens) && r.used == used + |TextOf(root, d, r.tokens)|
    decreases n, |n.children| + 1
  {
    hide NodeString, DumpNode, DumpChildren, FitsDepth, IsNode, NodeAt, TextOf, NodesOf;
    DumpTurn(n, p, d, cap, used, s);
    NothingPrinted(root, d);
    if used + MAX_PARAM_NODE_LENGTH <= cap {
      var used1 := used + |NodeString(n, ValueAt(d, p))| + 1;
      ChildrenLength(root, n, p, d, cap, used1, s, s[|p|]);
      TextOfOne(root, d, Enter(p));
      TextAppend(root, d, [Enter(p)], DumpChildren(n, p, d, cap, used1, s, s[|p|]).tokens);
    }
  }

  lemma {:induction false} ChildrenLength(root: Node, n: Node, p: Path, d: Values, cap: nat, used: nat, s: seq<nat>,
      i: nat)
    requires |s| == 8 && |p| < 8 && FitsDepth(n, 8 - |p|)
    requires IsNode(root, p) && NodeAt(root, p) == n
    ensures var r := DumpChildren(n, p, d, cap, used, s, i);
            NodesOf(root, r.tokens) && r.used == used + |TextOf(root, d, r.tokens)|
    decreases n, if i < |n.children| then |n.children| - i else 0
  {
    hide NodeString, DumpNode, DumpChildren, FitsDepth, IsNode, NodeAt, TextOf, NodesOf;
    if i >= |n.children| {
      LoopEnd(n, p, d, cap, used, s, i);
      NothingPrinted(root, d);
    } else {
      ChildFits(n, p, i);
      ChildAt(root, p, i);
      var r := DumpNode(n.children[i], p + [i], d, cap, used, s[|p| := i]);
      LoopTurn(n, p, d, cap, used, s, i, r);
      NodeLength(root, n.children[i], p + [i], d, cap, used, s[|p| := i]);
      if r.ok && r.used + 4 <= cap {
        ChildrenLength(root, n, p, d, cap, r.used + 3, r.start, i + 1);
        TextOfOne(root, d, Up);
        TextAppend(root, d, r.tokens, [Up]);
        TextAppend(root, d, r.tokens + [Up], DumpChildren(n, p, d, cap, r.used + 3, r.start, i + 1).tokens);
      }
    }
  }

  // The type of the messages is Msg_ParamFc_e, 39, and the control code of an answer param_save, 2.

  /** The answer to a save request of the master. */
  ghost function Answer(c: Client, self: Uint32): (m: Message)
    requires Sound(c)
    ensures |m.payload| <= PARAM_BUFFER_LEN
  {
    AnswerText(c);
    var text := "/" + TextOf(c.root, c.values, NextDump(c).tokens);
    OctetsLength(text);
    Message(39, self, c.address, 0, 1, 2, OctetOf(Answered(c).sequence), if NextDump(c).ok then 1 else 0, Octets(text))
  }

  lemma {:induction false} OctetsLength(s: string)
    requires CString(s)
    ensures |Octets(s)| == |s| + 1
    decreases |s|
  {
    hide CharOctet;
    if s != "" {
      OctetsLength(s[1..]);
    }
  }

  // ---------------------------------------------------------------- the size of a frame

  lemma {:induction false} TidyStuff(s: string)
    requires Tidy(s)
    ensures Stuff(Octets(s)) == Octets(s)
    decreases |s|
  {
    hide CharOctet;
    if s == "" {
      assert Stuff([0][1..]) == [];
    } else {
      TidyOctet(s[0]);
      assert Octets(s)[1..] == Octets(s[1..]);
      TidyStuff(s[1..]);
    }
  }

  lemma TidyOctet(c: char)
    requires 0 < c as int < 256 && c != '~' && c != '}'
    ensures StuffOctet(CharOctet(c)) == [CharOctet(c)]
  {
    hide OctetOf, ValueOf;
    ValueOfOctet(c as int);
    SpecialValues();
  }

  lemma SpecialValues()
    ensures ValueOf(0x7E) == '~' as int && ValueOf(0x7D) == '}' as int
  {
  }

  /** The frame of a message whose payload needs no stuffing: whatever its other fields and its
      checksum are, it takes 48 octets more than the payload at most. */
  lemma FrameOfTidy(m: Message)
    requires |m.payload| <= PARAM_BUFFER_LEN && Stuff(m.payload) == m.payload
    ensures |Frame(Encode(m))| <= 48 + |m.payload|
  {
    hide Stuff, Header, Bytes32, Crc16.Crc;
    var fixed := Header(m) + [m.control, m.sequenceNr, m.lastInSequence] + Bytes32(|m.payload|);
    assert Encode(m) == fixed + m.payload;
    var data := WithCrc(Encode(m));
    var sum := data[|Encode(m)|..];
    assert data == fixed + m.payload + sum && |sum| == 2 && |fixed| == 21;
    StuffAppend(fixed + m.payload, sum);
    StuffAppend(fixed, m.payload);
    StuffAtMostTwice(fixed);
    StuffAtMostTwice(sum);
  }

  /** Names without the two octets that stuffing doubles: every answer makes a frame of 248 octets
      at most. */
  lemma AnswerFits(l: Layout, s: Saver, c: Client, self: Uint32)
    requires Sound(c) && TidyNames(c.root) && s.sequence < 256
    ensures |StoredFrame(l, s, Answer(c, self))| <= 248
  {
    hide FitsDepth, NamesFit, CNames, TidyNames, Resumable, DumpNode, TextOf, NodesOf, Octets, Tidy, Encode, Frame, Stuff,
      OctetOf;
    AnswerText(c);
    var text := "/" + TextOf(c.root, c.values, NextDump(c).tokens);
    TidyText(c.root, c.values, NextDump(c).tokens);
    TidyMarks();
    TidyBoth("/", TextOf(c.root, c.values, NextDump(c).tokens));
    TidyStuff(text);
    FrameOfTidy(Stamped(l, s, Answer(c, self)));
    StoredFrameIsFrame(l, s, Answer(c, self));
  }

  // ---------------------------------------------------------------- what a save collects

  ghost predicate AllSound(clients: seq<Client>) {
    forall j :: 0 <= j < |clients| ==> Sound(clients[j])
  }

  lemma StaysSound(c: Client)
    requires Sound(c)
    ensures Sound(Answered(c))
  {
    hide FitsDepth, NamesFit, CNames, Resumable, DumpNode, Covers;
    AtRoot(c.root, c.values);
    NodeCovers(c.root, c.root, [], c.values, PARAM_BUFFER_LEN, 1, c.start);
    FreshResumable(c.root);
  }

  lemma SoundAt(clients: seq<Client>, j: nat)
    requires AllSound(clients) && j < |clients|
    ensures Sound(clients[j]) && |clients[j].start| == 8 && FitsDepth(clients[j].root, 8)
    ensures Resumable(clients[j].root, 0, clients[j].start)
  {
  }

  /** The handlers after the one that is asked has answered. */
  ghost function NextClients(clients: seq<Client>, j: nat): (next: seq<Client>)
    requires AllSound(clients) && j < |clients|
    ensures AllSound(next) && |next| == |clients|
    ensures next == clients[j := next[j]]
  {
    StaysSound(clients[j]);
    clients[j := Answered(clients[j])]
  }

  /** These messages are the answers of the handlers from k on, each asked until its dump is
      finished. */
  ghost predicate Collects(clients: seq<Client>, k: nat, self: Uint32, ms: seq<Message>): (b: bool)
    requires AllSound(clients)
    ensures b ==> Fits(ms)
    decreases |ms|
  {
    hide Sound, NextClients, Answer, NextDump;
    SoundAll(clients, k);
    && ms != [] && k < |clients|
    && ms[0] == Answer(clients[k], self)
    && if NextDump(clients[k]).ok && k + 1 == |clients| then |ms| == 1
       else Collects(NextClients(clients, k), if NextDump(clients[k]).ok then k + 1 else k, self, ms[1..])
  }

  lemma SoundAll(clients: seq<Client>, k: nat)
    requires AllSound(clients)
    ensures k < |clients| ==> Sound(clients[k]) && |clients[k].start| == 8 && FitsDepth(clients[k].root, 8)
  {
  }

  /** The first answer and those after it. */
  lemma CollectsTurn(clients: seq<Client>, k: nat, self: Uint32, ms: seq<Message>)
    requires AllSound(clients) && k < |clients|
    ensures Sound(clients[k]) && |clients[k].start| == 8 && FitsDepth(clients[k].root, 8)
    ensures Collects(clients, k, self, ms) <==>
              && ms != [] && ms[0] == Answer(clients[k], self)
              && if NextDump(clients[k]).ok && k + 1 == |clients| then |ms| == 1
                 else Collects(NextClients(clients, k), if NextDump(clients[k]).ok then k + 1 else k, self, ms[1..])
  {
    SoundAll(clients, k);
    hide Sound, NextClients, Answer, NextDump;
  }

  /** There is only one such list. */
  lemma {:induction false} CollectsOnce(clients: seq<Client>, k: nat, self: Uint32, ms: seq<Message>, other: seq<Message>)
    requires AllSound(clients) && Collects(clients, k, self, ms) && Collects(clients, k, self, other)
    ensures ms == other
    decreases |ms|
  {
    SoundAll(clients, k);
    hide Sound, NextClients, Answer, NextDump, Collects;
    if k < |clients| {
      CollectsTurn(clients, k, self, ms);
      CollectsTurn(clients, k, self, other);
      if !(NextDump(clients[k]).ok && k + 1 == |clients|) {
        CollectsOnce(NextClients(clients, k), if NextDump(clients[k]).ok then k + 1 else k, self, ms[1..], other[1..]);
      }
      assert ms == [ms[0]] + ms[1..] && other == [other[0]] + other[1..];
    } else {
      CollectsNone(clients, k, self, ms);
    }
  }

  lemma CollectsNone(clients: seq<Client>, k: nat, self: Uint32, ms: seq<Message>)
    requires AllSound(clients) && k >= |clients|
    ensures !Collects(clients, k, self, ms)
  {
    hide Sound;
  }

  // ---------------------------------------------------------------- a whole save

  /** Each of these messages can be stored after the ones before. */
  predicate InTurn(l: Layout, s: Saver, ms: seq<Message>)
    requires s.sequence < 256 && l.stop <= |s.memory| && Fits(ms)
    decreases |ms|
  {
    ms == [] || (Storable(l, s, ms[0]) && InTurn(l, Save(l, s, ms[0]), ms[1..]))
  }

  /** These messages are the answers that the master gets and stores, from the request that is
      under way on to the end of the save. */
  ghost predicate SaveRun(l: Layout, s: Saver, clients: seq<Client>, self: Uint32, ms: seq<Message>): (b: bool)
    requires s.sequence < 256 && l.stop <= |s.memory| && AllSound(clients)
    ensures b ==> CompleteSave(l, s, ms) && Fits(ms)
    decreases |ms|
  {
    hide Sound, NextClients, Storable, EndsSave, Save, StoredFrame;
    && ms != [] && s.saving < |clients|
    && ms[0] == Answer(clients[s.saving], self)
    && Storable(l, s, ms[0])
    && (EndsSave(l, s, ms[0]) <==> |ms| == 1)
    && (|ms| > 1 ==> SaveRun(l, Save(l, s, ms[0]), NextClients(clients, s.saving), self, ms[1..]))
  }

  /** The first answer of a run and the run after it. */
  lemma RunTurn(l: Layout, s: Saver, clients: seq<Client>, self: Uint32, ms: seq<Message>)
    requires s.sequence < 256 && l.stop <= |s.memory| && AllSound(clients)
    ensures SaveRun(l, s, clients, self, ms) <==>
              && ms != [] && s.saving < |clients|
              && ms[0] == Answer(clients[s.saving], self)
              && Storable(l, s, ms[0])
              && (EndsSave(l, s, ms[0]) <==> |ms| == 1)
              && (|ms| > 1 ==> SaveRun(l, Save(l, s, ms[0]), NextClients(clients, s.saving), self, ms[1..]))
  {
    hide Sound, NextClients, Storable, EndsSave, Save, StoredFrame;
  }

  /** Whose turn it is after an answer. */
  lemma SavingAfter(l: Layout, s: Saver, c: Client, self: Uint32)
    requires s.sequence < 256 && l.stop <= |s.memory| && Sound(c)
    ensures var m := Answer(c, self);
            && m.source == c.address
            && (EndsSave(l, s, m) <==> NextDump(c).ok && s.saving + 1 >= l.handlers)
            && (Storable(l, s, m) && !EndsSave(l, s, m) ==>
                 Save(l, s, m).saving == if NextDump(c).ok then s.saving + 1 else s.saving)
  {
    hide Sound, StoredFrame, NextDump, Overwrite, Octets, Storable;
  }

  /** The first answer of a run that is or is not the last. */
  lemma RunStep(l: Layout, s: Saver, clients: seq<Client>, self: Uint32, ms: seq<Message>)
    requires s.sequence < 256 && l.stop <= |s.memory| && AllSound(clients) && l.handlers == |clients|
    requires ms != [] && s.saving < |clients| && Sound(clients[s.saving]) && ms[0] == Answer(clients[s.saving], self)
    ensures var ends := NextDump(clients[s.saving]).ok && s.saving + 1 == |clients|;
            SaveRun(l, s, clients, self, ms) <==>
              && Storable(l, s, ms[0])
              && if ends then |ms| == 1 else SaveRun(l, Save(l, s, ms[0]), NextClients(clients, s.saving), self, ms[1..])
  {
    hide Sound, NextClients, Storable, EndsSave, Save, StoredFrame, Answer, NextDump, SaveRun;
    RunTurn(l, s, clients, self, ms);
    SavingAfter(l, s, clients[s.saving], self);
    RunTurn(l, Save(l, s, ms[0]), NextClients(clients, s.saving), self, ms[1..]);
  }

  /** The first answer of a collection that can be stored in turn. */
  lemma CollectedStep(l: Layout, s: Saver, clients: seq<Client>, self: Uint32, ms: seq<Message>)
    requires s.sequence < 256 && l.stop <= |s.memory| && AllSound(clients) && l.handlers == |clients|
    requires ms != [] && s.saving < |clients| && Sound(clients[s.saving]) && ms[0] == Answer(clients[s.saving], self)
    ensures var ends := NextDump(clients[s.saving]).ok && s.saving + 1 == |clients|;
            Collects(clients, s.saving, self, ms) && InTurn(l, s, ms) <==>
              && Storable(l, s, ms[0])
              && if ends then |ms| == 1
                 else
                   var s1, next := Save(l, s, ms[0]), NextClients(clients, s.saving);
                   Collects(next, s1.saving, self, ms[1..]) && InTurn(l, s1, ms[1..])
  {
    hide Sound, NextClients, Storable, EndsSave, Save, StoredFrame, Answer, NextDump, Collects, InTurn;
    CollectsTurn(clients, s.saving, self, ms);
    SavingAfter(l, s, clients[s.saving], self);
    FitsTurn(ms);
    if Fits(ms) {
      InTurnTurn(l, s, ms);
    }
  }

  lemma FitsTurn(ms: seq<Message>)
    requires ms != [] && |ms[0].payload| < 0x1_0000_0000
    ensures Fits(ms) <==> Fits(ms[1..])
    ensures |ms| == 1 ==> Fits(ms)
  {
    assert ms == [ms[0]] + ms[1..];
  }

  /** A run of the save is a collection each answer of which can be stored in turn. */
  lemma {:induction false} RunIsCollected(l: Layout, s: Saver, clients: seq<Client>, self: Uint32, ms: seq<Message>)
    requires s.sequence < 256 && l.stop <= |s.memory| && AllSound(clients) && l.handlers == |clients|
    ensures SaveRun(l, s, clients, self, ms) <==> Collects(clients, s.saving, self, ms) && InTurn(l, s, ms)
    decreases |ms|
  {
    SoundAll(clients, s.saving);
    hide Sound, NextClients, Storable, EndsSave, Save, StoredFrame, Answer, NextDump, SaveRun, Collects, InTurn, FitsDepth;
    if s.saving >= |clients| {
      RunTurn(l, s, clients, self, ms);
      CollectsNone(clients, s.saving, self, ms);
    } else if ms == [] || ms[0] != Answer(clients[s.saving], self) {
      RunTurn(l, s, clients, self, ms);
      CollectsTurn(clients, s.saving, self, ms);
    } else {
      RunStep(l, s, clients, self, ms);
      CollectedStep(l, s, clients, self, ms);
      if Storable(l, s, ms[0]) && !(NextDump(clients[s.saving]).ok && s.saving + 1 == |clients|) {
        RunIsCollected(l, Save(l, s, ms[0]), NextClients(clients, s.saving), self, ms[1..]);
      }
    }
  }

  lemma InTurnTurn(l: Layout, s: Saver, ms: seq<Message>)
    requires s.sequence < 256 && l.stop <= |s.memory| && Fits(ms) && ms != []
    ensures InTurn(l, s, ms) <==> Storable(l, s, ms[0]) && InTurn(l, Save(l, s, ms[0]), ms[1..])
    ensures |ms| == 1 ==> InTurn(l, Save(l, s, ms[0]), ms[1..])
  {
    hide Storable, Save;
  }

  lemma RunIsComplete(l: Layout, s: Saver, clients: seq<Client>, self: Uint32, ms: seq<Message>)
    requires s.sequence < 256 && l.stop <= |s.memory| && AllSound(clients)
    requires SaveRun(l, s, clients, self, ms)
    ensures CompleteSave(l, s, ms) && Fits(ms)
  {
    hide *;
  }

  /** There is only one way for a save to go. */
  lemma RunIsUnique(l: Layout, s: Saver, clients: seq<Client>, self: Uint32, ms: seq<Message>, other: seq<Message>)
    requires s.sequence < 256 && l.stop <= |s.memory| && AllSound(clients) && l.handlers == |clients|
    requires SaveRun(l, s, clients, self, ms) && SaveRun(l, s, clients, self, other)
    ensures ms == other
  {
    hide SaveRun, Collects, InTurn, Sound;
    RunIsCollected(l, s, clients, self, ms);
    RunIsCollected(l, s, clients, self, other);
    CollectsOnce(clients, s.saving, self, ms, other);
  }

  // ---------------------------------------------------------------- what every handler is asked for

  /** These payloads carry a finished series of dumps of the handler's tree. */
  ghost predicate Served(c: Client, payloads: seq<seq<bv8>>)
    requires |c.start| == 8 && FitsDepth(c.root, 8)
  {
    exists d, dumps ::
      && Series(c.root, d, PARAM_BUFFER_LEN, c.start, dumps) && Steady(d, c.values)
      && Carries(c.root, c.values, dumps, payloads)
  }

  lemma ServedOnce(c: Client, self: Uint32)
    requires Sound(c) && NextDump(c).ok
    ensures Served(c, [Answer(c, self).payload])
  {
    hide FitsDepth, NamesFit, CNames, Resumable, DumpNode, TextOf, NodesOf, Octets;
    AnswerText(c);
    var d, dumps := [c.values], [NextDump(c)];
    assert Series(c.root, d, PARAM_BUFFER_LEN, c.start, dumps) && Steady(d, c.values);
    assert Carries(c.root, c.values, dumps, [Answer(c, self).payload]);
  }

  lemma ServedMore(c: Client, self: Uint32, rest: seq<seq<bv8>>)
    requires Sound(c) && !NextDump(c).ok && Served(Answered(c), rest)
    ensures Served(c, [Answer(c, self).payload] + rest)
  {
    hide FitsDepth, NamesFit, CNames, Resumable, DumpNode, TextOf, NodesOf, Octets, CString;
    AnswerText(c);
    var d, dumps :|
      && Series(c.root, d, PARAM_BUFFER_LEN, Answered(c).start, dumps) && Steady(d, c.values)
      && Carries(c.root, c.values, dumps, rest);
    SeriesMore(c, d, dumps);
    CarriesMore(c, self, dumps, rest);
    assert Steady([c.values] + d, c.values);
  }

  lemma SeriesMore(c: Client, d: seq<Values>, dumps: seq<Dump>)
    requires |c.start| == 8 && FitsDepth(c.root, 8) && !NextDump(c).ok
    requires Series(c.root, d, PARAM_BUFFER_LEN, NextDump(c).start, dumps)
    ensures Series(c.root, [c.values] + d, PARAM_BUFFER_LEN, c.start, [NextDump(c)] + dumps)
  {
    hide FitsDepth, DumpNode;
    assert ([c.values] + d)[1..] == d && ([NextDump(c)] + dumps)[1..] == dumps;
  }

  lemma CarriesMore(c: Client, self: Uint32, dumps: seq<Dump>, rest: seq<seq<bv8>>)
    requires Sound(c) && Carries(c.root, c.values, dumps, rest)
    ensures Carries(c.root, c.values, [NextDump(c)] + dumps, [Answer(c, self).payload] + rest)
  {
    hide FitsDepth, NamesFit, CNames, Resumable, DumpNode, TextOf, NodesOf, Octets;
    AnswerText(c);
  }

  ghost predicate DistinctAddresses(clients: seq<Client>) {
    forall i, j :: 0 <= i < j < |clients| ==> clients[i].address != clients[j].address
  }

  lemma PayloadsTurn(ms: seq<Message>, handler: Uint32)
    requires ms != []
    ensures PayloadsFrom(ms, handler)
         == (if ms[0].source == handler && ms[0].msgType == 39 then [ms[0].payload] else []) + PayloadsFrom(ms[1..], handler)
    ensures |ms| == 1 ==> PayloadsFrom(ms[1..], handler) == []
  {
  }

  /** The first turn, seen from handler j. */
  lemma TurnFor(clients: seq<Client>, k: nat, self: Uint32, ms: seq<Message>, j: nat)
    requires AllSound(clients) && Collects(clients, k, self, ms) && DistinctAddresses(clients) && j < |clients|
    ensures k < |clients| && Sound(clients[k]) && |clients[k].start| == 8 && FitsDepth(clients[k].root, 8)
    ensures ms != [] && ms[0] == Answer(clients[k], self)
    ensures PayloadsFrom(ms, clients[j].address)
         == (if j == k then [ms[0].payload] else []) + PayloadsFrom(ms[1..], clients[j].address)
    ensures if NextDump(clients[k]).ok && k + 1 == |clients| then PayloadsFrom(ms[1..], clients[j].address) == []
            else Collects(NextClients(clients, k), if NextDump(clients[k]).ok then k + 1 else k, self, ms[1..])
  {
    if k >= |clients| {
      CollectsNone(clients, k, self, ms);
    }
    CollectsTurn(clients, k, self, ms);
    AnswerSource(clients[k], self);
    hide Sound, Collects, PayloadsFrom, FitsDepth, NextDump, Answer, NextClients;
    PayloadsTurn(ms, clients[j].address);
  }

  lemma AnswerSource(c: Client, self: Uint32)
    requires Sound(c)
    ensures var m := Answer(c, self);
            m.msgType == 39 && m.source == c.address && m.destination == self
  {
    hide Sound, NextDump, Octets;
  }

  lemma NextAre(clients: seq<Client>, k: nat, j: nat)
    requires AllSound(clients) && k < |clients| && j < |clients|
    ensures Sound(clients[k]) && |clients[k].start| == 8 && FitsDepth(clients[k].root, 8)
    ensures DistinctAddresses(clients) ==> DistinctAddresses(NextClients(clients, k))
    ensures NextClients(clients, k)[j] == if j == k then Answered(clients[k]) else clients[j]
    ensures NextClients(clients, k)[j].address == clients[j].address
  {
    SoundAll(clients, k);
    hide NextDump, Sound, FitsDepth;
  }

  /** All that is collected are parameter messages of the handlers. */
  lemma {:induction false} CollectsAnswers(clients: seq<Client>, k: nat, self: Uint32, ms: seq<Message>, i: nat)
    requires AllSound(clients) && Collects(clients, k, self, ms) && i < |ms|
    ensures ms[i].msgType == 39 && ms[i].destination == self
    ensures exists j :: 0 <= j < |clients| && ms[i].source == clients[j].address
    decreases |ms|
  {
    hide Sound, Collects, Answer, Answered, NextClients, NextDump, FitsDepth;
    if k >= |clients| {
      CollectsNone(clients, k, self, ms);
    }
    CollectsTurn(clients, k, self, ms);
    NextAre(clients, k, k);
    if i == 0 {
      AnswerSource(clients[k], self);
    } else {
      var next := NextClients(clients, k);
      CollectsAnswers(next, if NextDump(clients[k]).ok then k + 1 else k, self, ms[1..], i - 1);
      var j :| 0 <= j < |next| && ms[1..][i - 1].source == next[j].address;
      NextAre(clients, k, j);
      assert ms[i].source == clients[j].address;
    }
  }

  /** What a load sends after a whole save are set messages to the handlers, all of the master. */
  lemma {:induction false} LoadSendsSets(
      l: Layout, s: Saver, clients: seq<Client>, self: Uint32, ms: seq<Message>, r: Receiver, i: nat)
    requires s.address == l.start && s.sequence == 0 && s.saving == 0 && l.stop <= |s.memory|
    requires AllSound(clients) && l.handlers == |clients|
    requires SaveRun(l, s, clients, self, ms)
    requires Listens(r, SLIP_PACKET_LEN) && CleanGaps(l, s, ms)
    ensures |Load(SaveAll(l, s, ms).memory, self, r, l.start, 0).sent| == |ms|
    ensures i < |ms| ==>
              var m := Load(SaveAll(l, s, ms).memory, self, r, l.start, 0).sent[i];
              m.source == self && exists j :: 0 <= j < |clients| && SetsAt(m, clients[j].address)
  {
    hide Sound, SaveRun, Collects, Load, SaveAll, CompleteSave, Fits, CleanGaps, Listens, TakenFor, ValueOf;
    RunIsCollected(l, s, clients, self, ms);
    RunIsComplete(l, s, clients, self, ms);
    LoadReturns(l, s, ms, self, r);
    if i < |ms| {
      CollectsAnswers(clients, 0, self, ms, i);
      var j :| 0 <= j < |clients| && ms[i].source == clients[j].address;
      var m := Load(SaveAll(l, s, ms).memory, self, r, l.start, 0).sent[i];
      assert SetCommand(m, ms[i]);
      assert SetsAt(m, clients[j].address);
    }
  }

  /** A handler that has been saved is not asked again. */
  lemma {:induction false} CollectsSkips(clients: seq<Client>, k: nat, self: Uint32, ms: seq<Message>, j: nat)
    requires AllSound(clients) && Collects(clients, k, self, ms) && DistinctAddresses(clients) && j < |clients| && j < k
    ensures PayloadsFrom(ms, clients[j].address) == []
    decreases |ms|
  {
    hide Sound, Collects, Answer, Answered, NextClients, NextDump, PayloadsFrom, FitsDepth;
    TurnFor(clients, k, self, ms, j);
    if !(NextDump(clients[k]).ok && k + 1 == |clients|) {
      NextAre(clients, k, j);
      CollectsSkips(NextClients(clients, k), if NextDump(clients[k]).ok then k + 1 else k, self, ms[1..], j);
    }
  }

  /** Every handler that was still to be saved is served whole. */
  lemma {:induction false} CollectsServes(clients: seq<Client>, k: nat, self: Uint32, ms: seq<Message>, j: nat)
    requires AllSound(clients) && Collects(clients, k, self, ms) && DistinctAddresses(clients) && k <= j < |clients|
    ensures Sound(clients[j]) && Served(clients[j], PayloadsFrom(ms, clients[j].address))
    decreases |ms|
  {
    hide Sound, Collects, Answer, Answered, NextClients, NextDump, PayloadsFrom, Served, FitsDepth;
    SoundAt(clients, j);
    TurnFor(clients, k, self, ms, j);
    NextAre(clients, k, j);
    var a, ok := clients[j].address, NextDump(clients[k]).ok;
    if j == k && ok {
      if k + 1 < |clients| {
        CollectsSkips(NextClients(clients, k), k + 1, self, ms[1..], j);
      }
      assert [ms[0].payload] + [] == [ms[0].payload];
      ServedOnce(clients[k], self);
    } else {
      CollectsServes(NextClients(clients, k), if ok then k + 1 else k, self, ms[1..], j);
      if j == k {
        ServedMore(clients[k], self, PayloadsFrom(ms[1..], a));
      } else {
        assert [] + PayloadsFrom(ms[1..], a) == PayloadsFrom(ms[1..], a);
      }
    }
  }

  // ---------------------------------------------------------------- whether a save comes to its end

  /** The dump of this handler comes to an end from where it stands. */
  ghost predicate DumpEnds(c: Client)
    requires |c.start| == 8 && FitsDepth(c.root, 8)
  {
    Finishes(c.root, c.values, PARAM_BUFFER_LEN, c.start)
  }

  ghost predicate AllEnd(clients: seq<Client>, k: nat)
    requires AllSound(clients)
  {
    forall j :: k <= j < |clients| ==> Sound(clients[j]) && DumpEnds(clients[j])
  }

  lemma EndsOnce(c: Client)
    requires Sound(c) && NextDump(c).ok
    ensures DumpEnds(c)
  {
    hide FitsDepth, NamesFit, CNames, Resumable, DumpNode;
    assert Series(c.root, [c.values], PARAM_BUFFER_LEN, c.start, [NextDump(c)]) && Steady([c.values], c.values);
  }

  lemma EndsMore(c: Client)
    requires Sound(c) && !NextDump(c).ok
    ensures DumpEnds(c) <==> DumpEnds(Answered(c))
  {
    hide FitsDepth, NamesFit, CNames, Resumable, DumpNode;
    if DumpEnds(c) {
      var d, dumps :| Series(c.root, d, PARAM_BUFFER_LEN, c.start, dumps) && Steady(d, c.values);
      assert Series(c.root, d[1..], PARAM_BUFFER_LEN, Answered(c).start, dumps[1..]) && Steady(d[1..], c.values);
    }
    if DumpEnds(Answered(c)) {
      var d, dumps :| Series(c.root, d, PARAM_BUFFER_LEN, Answered(c).start, dumps) && Steady(d, c.values);
      SeriesMore(c, d, dumps);
      assert Steady([c.values] + d, c.values);
    }
  }

  lemma EndsNext(clients: seq<Client>, k: nat)
    requires AllSound(clients) && k < |clients|
    ensures Sound(clients[k]) && |clients[k].start| == 8 && FitsDepth(clients[k].root, 8)
    ensures AllEnd(clients, k)
       <==> (NextDump(clients[k]).ok || DumpEnds(Answered(clients[k]))) && AllEnd(NextClients(clients, k), k + 1)
    ensures !NextDump(clients[k]).ok ==> (AllEnd(clients, k) <==> AllEnd(NextClients(clients, k), k))
  {
    SoundAll(clients, k);
    hide Sound, NextDump, FitsDepth, DumpEnds;
    if NextDump(clients[k]).ok {
      EndsOnce(clients[k]);
    } else {
      EndsMore(clients[k]);
    }
    var next := NextClients(clients, k);
    assert next[k] == Answered(clients[k]);
    assert forall j :: k < j < |clients| ==> next[j] == clients[j];
  }

  /** What can be collected ends with every handler. */
  lemma {:induction false} CollectsEnds(clients: seq<Client>, k: nat, self: Uint32, ms: seq<Message>)
    requires AllSound(clients) && Collects(clients, k, self, ms)
    ensures AllEnd(clients, k)
    decreases |ms|
  {
    hide Sound, Collects, Answer, Answered, NextClients, NextDump, FitsDepth, AllEnd, DumpEnds;
    if k >= |clients| {
      CollectsNone(clients, k, self, ms);
    }
    CollectsTurn(clients, k, self, ms);
    EndsNext(clients, k);
    var ok := NextDump(clients[k]).ok;
    if ok && k + 1 == |clients| {
      NoneLeftToEnd(NextClients(clients, k), k + 1);
    } else {
      CollectsEnds(NextClients(clients, k), if ok then k + 1 else k, self, ms[1..]);
    }
  }

  lemma NoneLeftToEnd(clients: seq<Client>, k: nat)
    requires AllSound(clients) && k >= |clients|
    ensures AllEnd(clients, k)
  {
  }

  /** And what ends can be collected. */
  lemma {:induction false} EndsCollects(clients: seq<Client>, k: nat, self: Uint32, d: seq<Values>, dumps: seq<Dump>)
    requires AllSound(clients) && k < |clients| && AllEnd(clients, k)
    requires Sound(clients[k]) && |clients[k].start| == 8 && FitsDepth(clients[k].root, 8)
    requires Series(clients[k].root, d, PARAM_BUFFER_LEN, clients[k].start, dumps) && Steady(d, clients[k].values)
    ensures exists ms :: Collects(clients, k, self, ms)
    decreases |clients| - k, |dumps|
  {
    hide Sound, Collects, Answer, NextClients, FitsDepth, AllEnd, DumpEnds, Series, Steady;
    var c := clients[k];
    EndsNext(clients, k);
    NextAre(clients, k, k);
    var next := NextClients(clients, k);
    SeriesFirst(c, d, dumps);
    if NextDump(c).ok && k + 1 == |clients| {
      CollectsTurn(clients, k, self, [Answer(c, self)]);
    } else {
      var rest: seq<Message>;
      if NextDump(c).ok {
        SoundAll(next, k + 1);
        var d2, dumps2 := EndsWith(next, k + 1);
        EndsCollects(next, k + 1, self, d2, dumps2);
        rest :| Collects(next, k + 1, self, rest);
      } else {
        SoundAll(next, k);
        EndsCollects(next, k, self, d[1..], dumps[1..]);
        rest :| Collects(next, k, self, rest);
      }
      assert ([Answer(c, self)] + rest)[1..] == rest;
      CollectsTurn(clients, k, self, [Answer(c, self)] + rest);
    }
  }

  lemma SeriesFirst(c: Client, d: seq<Values>, dumps: seq<Dump>)
    requires Sound(c) && Series(c.root, d, PARAM_BUFFER_LEN, c.start, dumps) && Steady(d, c.values)
    ensures |d| == |dumps| > 0
    ensures !NextDump(c).ok ==>
              && |Answered(c).start| == 8
              && Series(c.root, d[1..], PARAM_BUFFER_LEN, Answered(c).start, dumps[1..]) && Steady(d[1..], c.values)
    ensures Answered(c).root == c.root && Answered(c).values == c.values
  {
    hide FitsDepth, NamesFit, CNames, Resumable, DumpNode;
  }

  lemma EndsWith(clients: seq<Client>, k: nat) returns (d: seq<Values>, dumps: seq<Dump>)
    requires AllSound(clients) && k < |clients| && AllEnd(clients, k)
    requires |clients[k].start| == 8 && FitsDepth(clients[k].root, 8)
    ensures Series(clients[k].root, d, PARAM_BUFFER_LEN, clients[k].start, dumps) && Steady(d, clients[k].values)
  {
    hide FitsDepth, Series, Steady, Sound;
    assert DumpEnds(clients[k]);
    d, dumps :| Series(clients[k].root, d, PARAM_BUFFER_LEN, clients[k].start, dumps) && Steady(d, clients[k].values);
  }

  /** Whatever the handlers answer can be stored as it comes. */
  ghost predicate AllStorable(l: Layout, s: Saver, clients: seq<Client>, self: Uint32)
    requires s.sequence < 256 && l.stop <= |s.memory| && AllSound(clients)
  {
    forall ms :: Collects(clients, s.saving, self, ms) ==> InTurn(l, s, ms)
  }

  /** A save comes to its end if and only if the dump of every handler does and each answer, as it
      comes, can be stored. */
  lemma {:induction false} SaveEndsIff(l: Layout, s: Saver, clients: seq<Client>, self: Uint32)
    requires s.sequence < 256 && l.stop <= |s.memory| && AllSound(clients) && l.handlers == |clients|
    requires s.saving < |clients|
    ensures (exists ms :: SaveRun(l, s, clients, self, ms))
       <==> AllEnd(clients, s.saving) && AllStorable(l, s, clients, self)
  {
    hide Sound, Collects, SaveRun, InTurn, AllEnd, FitsDepth, Series, Steady;
    var k := s.saving;
    if exists ms :: SaveRun(l, s, clients, self, ms) {
      var ms :| SaveRun(l, s, clients, self, ms);
      RunIsCollected(l, s, clients, self, ms);
      CollectsEnds(clients, k, self, ms);
      forall other | Collects(clients, k, self, other)
        ensures InTurn(l, s, other)
      {
        CollectsOnce(clients, k, self, ms, other);
      }
    }
    if AllEnd(clients, k) && AllStorable(l, s, clients, self) {
      SoundAll(clients, k);
      var d, dumps := EndsWith(clients, k);
      EndsCollects(clients, k, self, d, dumps);
      var ms :| Collects(clients, k, self, ms);
      RunIsCollected(l, s, clients, self, ms);
    }
  }

  /** The nodes still to be printed by the handlers from j on. */
  function NodesLeft(clients: seq<Client>, j: nat): nat
    decreases |clients| - j
  {
    if j >= |clients| then 0 else ToVisit(clients[j].root, 0, clients[j].start) + NodesLeft(clients, j + 1)
  }

  lemma {:induction false} NodesLeftSame(clients: seq<Client>, j: nat, i: nat, c: Client)
    requires j < i && j < |clients|
    ensures NodesLeft(clients[j := c], i) == NodesLeft(clients, i)
    decreases |clients| - i
  {
    hide ToVisit;
    if i < |clients| {
      NodesLeftSame(clients, j, i + 1, c);
    }
  }

  /** Every message of this handler gets further than the one before. */
  ghost predicate Advances(c: Client) {
    Reachable(c.root, c.values, PARAM_BUFFER_LEN) && AllLeavable(c.root, c.values, PARAM_BUFFER_LEN)
  }

  /** Its messages moreover need little stuffing. */
  ghost predicate Easy(c: Client) {
    Advances(c) && TidyNames(c.root)
  }

  lemma AnswerAdvances(c: Client)
    requires Sound(c) && Advances(c)
    ensures NextDump(c).ok || ToVisit(c.root, 0, Answered(c).start) < ToVisit(c.root, 0, c.start)
  {
    hide FitsDepth, NamesFit, CNames, Resumable, DumpNode, Reachable, AllLeavable, ToVisit;
    AtRoot(c.root, c.values);
    GetsFurther(c.root, c.root, [], c.values, PARAM_BUFFER_LEN, c.start);
  }

  /** Storing the answer of a handler that is or is not finished with it. */
  lemma AnswerStored(l: Layout, s: Saver, c: Client, self: Uint32)
    requires s.sequence < 256 && l.stop <= |s.memory| && Sound(c) && TidyNames(c.root)
    requires s.address + 249 <= l.stop
    ensures var m := Answer(c, self);
            && Storable(l, s, m)
            && (EndsSave(l, s, m) <==> NextDump(c).ok && s.saving + 1 >= l.handlers)
            && (!EndsSave(l, s, m) ==>
                 && Save(l, s, m).address <= s.address + 249
                 && Save(l, s, m).saving == if NextDump(c).ok then s.saving + 1 else s.saving)
  {
    hide Sound, TidyNames, StoredFrame, NextDump, Overwrite, Octets;
    AnswerFits(l, s, c, self);
  }

  /** What is left to print after an answer. */
  lemma AnswerLeaves(clients: seq<Client>, k: nat)
    requires AllSound(clients) && k < |clients| && Advances(clients[k])
    ensures NodesLeft(NextClients(clients, k), if NextDump(clients[k]).ok then k + 1 else k) < NodesLeft(clients, k)
  {
    var c := clients[k];
    assert |c.start| == 8 && FitsDepth(c.root, 8);
    hide Sound, Advances, ToVisit, NextDump, FitsDepth;
    AnswerAdvances(c);
    NodesLeftSame(clients, k, k + 1, Answered(c));
  }

  lemma StillEasy(clients: seq<Client>, k: nat)
    requires AllSound(clients) && k < |clients| && forall j :: k <= j < |clients| ==> Easy(clients[j])
    ensures forall j :: k <= j < |clients| ==> Easy(NextClients(clients, k)[j])
  {
    hide Sound, Reachable, AllLeavable, TidyNames, NextDump;
  }

  /** A condition on lengths under which a save comes to its end: if the dump of every handler gets
      further with every message, no name needs stuffing and the region has 249 octets for every
      node, there is a run that stores all answers, as many as there are nodes at most. */
  lemma {:induction false} SaveCompletes(l: Layout, s: Saver, clients: seq<Client>, self: Uint32)
    requires s.sequence < 256 && l.stop <= |s.memory| && AllSound(clients) && l.handlers == |clients|
    requires s.saving < |clients| && forall j :: s.saving <= j < |clients| ==> Easy(clients[j])
    requires s.address + 249 * NodesLeft(clients, s.saving) <= l.stop
    ensures exists ms :: SaveRun(l, s, clients, self, ms) && |ms| <= NodesLeft(clients, s.saving)
    decreases NodesLeft(clients, s.saving)
  {
    hide Sound, Reachable, AllLeavable, TidyNames, Storable, EndsSave, Save, ToVisit, NextDump, Answer, Answered, SaveRun,
      NodesLeft, Advances, NextClients;
    var m := Answer(clients[s.saving], self);
    AnswerLeaves(clients, s.saving);
    StillEasy(clients, s.saving);
    AnswerStored(l, s, clients[s.saving], self);
    if EndsSave(l, s, m) {
      RunTurn(l, s, clients, self, [m]);
    } else {
      var s1, next := Save(l, s, m), NextClients(clients, s.saving);
      SaveCompletes(l, s1, next, self);
      var rest :| SaveRun(l, s1, next, self, rest) && |rest| <= NodesLeft(next, s1.saving);
      assert ([m] + rest)[1..] == rest;
      RunTurn(l, s, clients, self, [m] + rest);
    }
  }

  // ---------------------------------------------------------------- the whole stack

  /** The nodes that a series shows that goes on at the handler's position. */
  predicate Shown(c: Client, q: Path) {
    |q| <= |c.start| && !Before(q, 0, c.start)
  }

  /** Set messages with these payloads give a handler the values that were saved: every settable
      node takes its saved value, every other node keeps its own. */
  ghost predicate Restored(c: Client, values: Values, payloads: seq<seq<bv8>>) {
    var res := SetByPayloads(c.root, values, payloads);
    && res.ok
    && forall q :: IsNode(c.root, q) ==>
         ValueAt(res.values, q) == if Settable(NodeAt(c.root, q)) then ValueAt(c.values, q) else ValueAt(values, q)
  }

  /** The same of the nodes from the position on at which the save found the handler; those before
      it keep what they hold. */
  ghost predicate RestoredFrom(c: Client, values: Values, payloads: seq<seq<bv8>>) {
    var res := SetByPayloads(c.root, values, payloads);
    && res.ok
    && forall q :: IsNode(c.root, q) ==>
         ValueAt(res.values, q)
         == if Settable(NodeAt(c.root, q)) && Shown(c, q) then ValueAt(c.values, q) else ValueAt(values, q)
  }

  /** At least the nodes from the position on are restored, and at least those of the subtrees of
      the root before it keep what they hold. */
  ghost predicate RestoredAtLeast(c: Client, values: Values, payloads: seq<seq<bv8>>)
    requires |c.start| > 0
  {
    var res := SetByPayloads(c.root, values, payloads);
    && res.ok
    && forall q :: IsNode(c.root, q) ==>
         && (Settable(NodeAt(c.root, q)) && Shown(c, q) ==> ValueAt(res.values, q) == ValueAt(c.values, q))
         && (!Settable(NodeAt(c.root, q)) || (q != [] && q[0] < c.start[0]) ==>
              ValueAt(res.values, q) == ValueAt(values, q))
  }

  lemma OverlaidShown(c: Client, values: Values, payloads: seq<seq<bv8>>, entered: set<Path>)
    requires |c.start| == 8 && FitsDepth(c.root, 8)
    requires var res := SetByPayloads(c.root, values, payloads);
             res.ok && Overlaid(c.root, values, c.values, entered, res.values)
    requires forall q :: Under(c.root, [], q) && !Before(q, 0, c.start) ==> q in entered
    requires forall q :: q in entered && q != [] ==> q[0] >= c.start[0]
    ensures RestoredAtLeast(c, values, payloads)
    ensures (forall q :: q in entered ==> |q| < 8 && !Before(q, 0, c.start)) ==> RestoredFrom(c, values, payloads)
  {
    hide SetByPayloads, NodeAt, Settable, Before, FitsDepth;
    forall q | IsNode(c.root, q)
      ensures |q| < 8 && (Shown(c, q) ==> q in entered)
    {
      DepthBound(c.root, 8, q);
      assert Under(c.root, [], q);
    }
  }

  /** Of whatever the save protocol stores from its beginning to its end, a load sends to every
      handler messages that restore at least the nodes from the position on at which the save found
      it, and exactly those if every message gets further, whatever values it holds by then. */
  lemma {:induction false} SavedTreesRestored(
      l: Layout, s: Saver, clients: seq<Client>, self: Uint32, ms: seq<Message>, r: Receiver, j: nat, values: Values)
    requires s.address == l.start && s.sequence == 0 && s.saving == 0 && l.stop <= |s.memory|
    requires AllSound(clients) && DistinctAddresses(clients) && l.handlers == |clients|
    requires SaveRun(l, s, clients, self, ms)
    requires Listens(r, SLIP_PACKET_LEN) && CleanGaps(l, s, ms)
    requires j < |clients| && WellNamed(clients[j].root) && Restorable(clients[j].root, clients[j].values)
    ensures |clients[j].start| == 8
    ensures var out := Load(SaveAll(l, s, ms).memory, self, r, l.start, 0);
            var payloads := PayloadsTo(out.sent, clients[j].address);
            && out.ok
            && RestoredAtLeast(clients[j], values, payloads)
            && (Advances(clients[j]) ==> RestoredFrom(clients[j], values, payloads))
  {
    hide Sound, SaveRun, Collects, InTurn, Load, SaveAll, CompleteSave, Fits, CleanGaps, Listens, WellNamed, Restorable,
      FitsDepth, PayloadsFrom, PayloadsTo, SetByPayloads, RestoredAtLeast, RestoredFrom, Resumable, Series, Steady, Carries,
      Overlaid, EnteredInSeries, Before, Under, Advances;
    RunIsCollected(l, s, clients, self, ms);
    CollectsServes(clients, 0, self, ms, j);
    SoundAt(clients, j);
    var c := clients[j];
    var d, dumps :| Series(c.root, d, PARAM_BUFFER_LEN, c.start, dumps) && Steady(d, c.values)
      && Carries(c.root, c.values, dumps, PayloadsFrom(ms, c.address));
    RunIsComplete(l, s, clients, self, ms);
    SavedTreeRestored(l, s, ms, self, r, c.address, c.root, d, c.values, PARAM_BUFFER_LEN, c.start, dumps, values);
    SeriesStaysIn(c.root, d, PARAM_BUFFER_LEN, c.start, dumps);
    if Advances(c) {
      AdvancesOn(c, d, dumps);
    }
    var out := Load(SaveAll(l, s, ms).memory, self, r, l.start, 0);
    OverlaidShown(c, values, PayloadsTo(out.sent, c.address), EnteredInSeries(dumps));
  }

  lemma AdvancesOn(c: Client, d: seq<Values>, dumps: seq<Dump>)
    requires |c.start| == 8 && FitsDepth(c.root, 8) && Resumable(c.root, 0, c.start) && Advances(c)
    requires Series(c.root, d, PARAM_BUFFER_LEN, c.start, dumps) && Steady(d, c.values)
    ensures forall q :: q in EnteredInSeries(dumps) ==> |q| < 8 && !Before(q, 0, c.start)
  {
    hide FitsDepth, Resumable, Series, Reachable, AllLeavable, EnteredInSeries, Before;
    SeriesGoesOn(c.root, d, PARAM_BUFFER_LEN, c.start, dumps);
  }

  /** No settable node lies before the position. */
  ghost predicate NothingBefore(c: Client) {
    forall q :: IsNode(c.root, q) && Settable(NodeAt(c.root, q)) ==> Shown(c, q)
  }

  /** Every tree of the shape is restored, whatever values it holds. */
  ghost predicate RestoredWhole(c: Client, payloads: seq<seq<bv8>>) {
    forall values :: Restored(c, values, payloads)
  }

  /** Every tree is restored whole, whatever values it holds, if and only if no settable node lies
      before the position. */
  lemma RestoredWholeIff(c: Client, payloads: seq<seq<bv8>>)
    requires forall values :: RestoredFrom(c, values, payloads)
    ensures RestoredWhole(c, payloads) <==> NothingBefore(c)
  {
    hide SetByPayloads, IsNode, NodeAt, Settable, Shown;
    if NothingBefore(c) {
      forall values
        ensures Restored(c, values, payloads)
      {
        assert RestoredFrom(c, values, payloads);
      }
    } else {
      var q :| IsNode(c.root, q) && Settable(NodeAt(c.root, q)) && !Shown(c, q);
      var values: Values := map[q := ValueAt(c.values, q) + 1];
      assert RestoredFrom(c, values, payloads);
      assert ValueAt(values, q) == ValueAt(c.values, q) + 1;
      assert !Restored(c, values, payloads);
    }
  }

  /** Save and load restore every tree whole if and only if the save found every handler at a
      position that no settable node lies before, as is the case at the beginning of the tree. */
  lemma {:induction false} SaveAndLoad(l: Layout, s: Saver, clients: seq<Client>, self: Uint32, ms: seq<Message>,
      r: Receiver, j: nat)
    requires s.address == l.start && s.sequence == 0 && s.saving == 0 && l.stop <= |s.memory|
    requires AllSound(clients) && DistinctAddresses(clients) && l.handlers == |clients|
    requires SaveRun(l, s, clients, self, ms)
    requires Listens(r, SLIP_PACKET_LEN) && CleanGaps(l, s, ms)
    requires j < |clients| && WellNamed(clients[j].root) && Restorable(clients[j].root, clients[j].values)
    requires Advances(clients[j])
    ensures var payloads := PayloadsTo(Load(SaveAll(l, s, ms).memory, self, r, l.start, 0).sent, clients[j].address);
            RestoredWhole(clients[j], payloads) <==> NothingBefore(clients[j])
    ensures clients[j].start == FreshStart() ==> NothingBefore(clients[j])
  {
    hide Sound, SaveRun, Load, SaveAll, CleanGaps, Listens, WellNamed, Restorable, PayloadsTo, Advances, RestoredWhole,
      RestoredFrom, RestoredAtLeast, NothingBefore, FitsDepth, Resumable, CompleteSave;
    SoundAt(clients, j);
    var payloads := PayloadsTo(Load(SaveAll(l, s, ms).memory, self, r, l.start, 0).sent, clients[j].address);
    forall values
      ensures RestoredFrom(clients[j], values, payloads)
    {
      SavedTreesRestored(l, s, clients, self, ms, r, j, values);
    }
    RestoredWholeIff(clients[j], payloads);
    if clients[j].start == FreshStart() {
      FreshShowsAll(clients[j]);
    }
  }

  lemma FreshShowsAll(c: Client)
    requires c.start == FreshStart() && FitsDepth(c.root, 8)
    ensures NothingBefore(c)
  {
    hide FitsDepth, Before, Settable, NodeAt;
    forall q | IsNode(c.root, q)
      ensures Shown(c, q)
    {
      DepthBound(c.root, 8, q);
      ZeroBefore(q, 0, FreshStart());
    }
  }
}
