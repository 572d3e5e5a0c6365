/** What a save that was broken off costs the next one. The master starts over, but the handlers do
    not: they go on with their dumps where they stand. */
module ParamSaveLoss {
  import opened Arithmetic
  import opened ParamFc
  import opened SlipFraming
  import opened ParamStore
  import opened ParamText
  import opened ParamTree
  import opened ParamWalk
  import opened ParamDump
  import opened ParamDumpEnds
  import opened ParamHandler
  import opened ParamPersistence
  import opened ParamSaveRun

  // ---------------------------------------------------------------- the next save

  /** A handler that gets further with every message and is not finished with the first is no
      longer at the beginning, whatever became of its answer. */
  lemma AnswerMoves(c: Client)
    requires Sound(c) && Advances(c) && !NextDump(c).ok
    ensures Answered(c).start != c.start
  {
    hide Sound, Advances, NextDump, ToVisit;
    AnswerAdvances(c);
  }

  /** The save after one that a failed write broke off: it is complete, the load after it succeeds,
      and if a settable node lies before the position at which the handler stands by then, its tree
      is not restored. */
  lemma {:induction false} NextSaveLoses(
      l: Layout, s: Saver, clients: seq<Client>, self: Uint32, taken: nat, ms: seq<Message>, r: Receiver, q: Path)
    requires s.sequence < 256 && l.stop <= |s.memory| && AllSound(clients) && l.handlers == |clients|
    requires s.saving < |clients| && DistinctAddresses(clients) && Sound(clients[s.saving])
    requires var m := Answer(clients[s.saving], self);
             && Storable(l, s, m) && taken < |StoredFrame(l, s, m)|
             && var b, next := BrokenOff(l, s, m, taken), NextClients(clients, s.saving);
                SaveRun(l, b, next, self, ms) && CleanGaps(l, b, ms)
    requires Listens(r, SLIP_PACKET_LEN)
    requires var c := NextClients(clients, s.saving)[s.saving];
             && WellNamed(c.root) && Restorable(c.root, c.values) && Advances(c)
             && IsNode(c.root, q) && Settable(NodeAt(c.root, q)) && !Shown(c, q)
    ensures var b := BrokenOff(l, s, Answer(clients[s.saving], self), taken);
            var c, out := NextClients(clients, s.saving)[s.saving], Load(SaveAll(l, b, ms).memory, self, r, l.start, 0);
            out.ok && !RestoredWhole(c, PayloadsTo(out.sent, c.address))
  {
    hide Sound, Storable, StoredFrame, SaveRun, CleanGaps, Listens, WellNamed, Restorable, Advances, RestoredWhole, RestoredAtLeast,
      RestoredFrom, Load, SaveAll, PayloadsTo, Settable, Shown, Answer;
    var k := s.saving;
    var b, next := BrokenOff(l, s, Answer(clients[k], self), taken), NextClients(clients, k);
    NextAre(clients, k, k);
    SavedTreesRestored(l, b, next, self, ms, r, k, map[]);
    SaveAndLoad(l, b, next, self, ms, r, k);
    assert !NothingBefore(next[k]);
  }

  // ---------------------------------------------------------------- the save that goes on

  /** After a failed write the master starts over, but has asked for the next answer already. That
      one answer, of handler `asked`, is stored in front; then follow all handlers from the first on,
      or, if the answer finished its handler, from the second on. */
  lemma {:induction false} BrokenSaveGoesOn(
      l: Layout, b: Saver, clients: seq<Client>, self: Uint32, asked: nat, ms: seq<Message>)
    requires b.address == l.start && b.sequence == 0 && b.saving == 0 && l.stop <= |b.memory|
    requires AllSound(clients) && l.handlers == |clients| && DistinctAddresses(clients)
    requires asked < |clients| && Sound(clients[asked])
    requires var m := Answer(clients[asked], self);
             Storable(l, b, m) && !EndsSave(l, b, m) && SaveRun(l, Save(l, b, m), NextClients(clients, asked), self, ms)
    ensures var m, next := Answer(clients[asked], self), NextClients(clients, asked);
            && CompleteSave(l, b, [m] + ms)
            && Save(l, b, m).saving == (if NextDump(clients[asked]).ok then 1 else 0)
            && (forall j :: Save(l, b, m).saving <= j < |clients| ==>
                 Sound(next[j]) && Served(next[j], PayloadsFrom(ms, clients[j].address)))
            && (NextDump(clients[asked]).ok && asked != 0 ==> PayloadsFrom([m] + ms, clients[0].address) == [])
  {
    hide Sound, Storable, StoredFrame, EndsSave, Save, SaveRun, Collects, InTurn, Answer, NextClients, NextDump, Served,
      PayloadsFrom, CompleteSave, FitsDepth;
    var m, next := Answer(clients[asked], self), NextClients(clients, asked);
    SoundAt(clients, asked);
    SavingAfter(l, b, clients[asked], self);
    var s1 := Save(l, b, m);
    RunIsCollected(l, s1, next, self, ms);
    RunIsComplete(l, s1, next, self, ms);
    RunTurn(l, s1, next, self, ms);
    CompleteMore(l, b, m, ms);
    forall j | s1.saving <= j < |clients|
      ensures Sound(next[j]) && |next[j].start| == 8 && FitsDepth(next[j].root, 8)
      ensures Served(next[j], PayloadsFrom(ms, clients[j].address))
    {
      SoundAt(next, j);
      NextAre(clients, asked, j);
      CollectsServes(next, s1.saving, self, ms, j);
    }
    if NextDump(clients[asked]).ok && asked != 0 {
      NextAre(clients, asked, 0);
      CollectsSkips(next, 1, self, ms, 0);
      assert ([m] + ms)[1..] == ms;
      PayloadsTurn([m] + ms, clients[0].address);
      assert clients[0].address != clients[asked].address;
    }
  }

  lemma CompleteMore(l: Layout, b: Saver, m: Message, ms: seq<Message>)
    requires b.sequence < 256 && l.stop <= |b.memory| && |m.payload| < 0x1_0000_0000
    requires Storable(l, b, m) && !EndsSave(l, b, m) && CompleteSave(l, Save(l, b, m), ms) && ms != []
    ensures CompleteSave(l, b, [m] + ms)
  {
    hide Storable, EndsSave, Save;
    assert ([m] + ms)[1..] == ms;
  }

  /** In the second case the first handler is left out of a save that is complete: a load succeeds
      and changes nothing in it. */
  lemma {:induction false} FirstHandlerLeftOut(
      l: Layout, b: Saver, clients: seq<Client>, self: Uint32, asked: nat, ms: seq<Message>, r: Receiver, values: Values)
    requires b.address == l.start && b.sequence == 0 && b.saving == 0 && l.stop <= |b.memory|
    requires AllSound(clients) && l.handlers == |clients| && DistinctAddresses(clients)
    requires 0 < asked < |clients| && Sound(clients[asked]) && |clients[asked].start| == 8
    requires FitsDepth(clients[asked].root, 8) && NextDump(clients[asked]).ok
    requires var m := Answer(clients[asked], self);
             && Storable(l, b, m) && !EndsSave(l, b, m)
             && SaveRun(l, Save(l, b, m), NextClients(clients, asked), self, ms)
             && CompleteSave(l, b, [m] + ms) && CleanGaps(l, b, [m] + ms)
    requires Listens(r, SLIP_PACKET_LEN)
    ensures Fits([Answer(clients[asked], self)] + ms)
    ensures var out := Load(SaveAll(l, b, [Answer(clients[asked], self)] + ms).memory, self, r, l.start, 0);
            && out.ok
            && SetByPayloads(clients[0].root, values, PayloadsTo(out.sent, clients[0].address)) == SetResult(values, true)
  {
    hide Sound, Storable, StoredFrame, EndsSave, Save, SaveRun, Answer, NextClients, NextDump, Served, PayloadsFrom, PayloadsTo,
      CompleteSave, CleanGaps, Listens, Load, SaveAll, SetByMessage, FitsDepth, Misled, TakenFor, Returned;
    var m := Answer(clients[asked], self);
    BrokenSaveGoesOn(l, b, clients, self, asked, ms);
    RunIsComplete(l, Save(l, b, m), NextClients(clients, asked), self, ms);
    LoadReturns(l, b, [m] + ms, self, r);
    var out := Load(SaveAll(l, b, [m] + ms).memory, self, r, l.start, 0);
    ReturnedPayloads(out.sent, [m] + ms, self, clients[0].address);
    assert SetByPayloads(clients[0].root, values, []) == SetResult(values, true);
  }

  // ---------------------------------------------------------------- an example

  function Letter(i: nat): char
    requires i < 7
  {
    "abcdefg"[i]
  }

  function Repeated(c: char): (s: string)
    ensures |s| == 16 && forall k :: 0 <= k < 16 ==> s[k] == c
  {
    seq(16, _ => c)
  }

  function Leaf(i: nat): Node
    requires i < 7
  {
    Node(Repeated(Letter(i)), UInt16, ReadWrite, [])
  }

  /** A root with seven settable children, six of which fit the first message. */
  function Wide(): (n: Node)
    ensures n.name == "r" && n.vtype == NoType && n.access == ReadOnly && |n.children| == 7
    ensures forall i :: 0 <= i < 7 ==> n.children[i] == Leaf(i)
  {
    Node("r", NoType, ReadOnly, seq(7, i requires 0 <= i < 7 => Leaf(i)))
  }

  /** All values are a thousand. */
  function Thousands(): (v: Values)
    ensures forall i :: 0 <= i < 7 ==> ValueAt(v, [i]) == 1000
  {
    map i: nat | i < 7 :: [i] := 1000
  }

  lemma WideNodes(q: Path)
    requires IsNode(Wide(), q)
    ensures q == [] || (|q| == 1 && q[0] < 7)
    ensures NodeAt(Wide(), q) == if q == [] then Wide() else Leaf(q[0])
    ensures q != [] ==> q == [q[0]]
  {
    hide Wide, Leaf;
    if q != [] {
      assert Wide().children[q[0]] == Leaf(q[0]);
      LeafAlone(q[0], q[1..]);
    }
  }

  lemma LeafAlone(i: nat, q: Path)
    requires i < 7 && IsNode(Leaf(i), q)
    ensures q == []
  {
  }

  lemma LeafText(i: nat)
    requires i < 7
    ensures |NodeString(Leaf(i), 1000)| == 25
  {
    assert |Digits(2)| == 1;
    assert |Decimal(1000)| == 4;
  }

  lemma WideText(v: int)
    ensures |NodeString(Wide(), v)| == 4
  {
    hide Wide;
    assert |Digits(0)| == 1;
  }

  lemma WideFits()
    ensures FitsDepth(Wide(), 8) && NamesFit(Wide())
    ensures forall i :: 0 <= i < 7 ==> FitsDepth(Leaf(i), 7)
  {
    hide Wide;
  }

  /** One child is printed, and leaves the start indices as they are below the root. */
  lemma LeafDump(i: nat, used: nat, s: seq<nat>)
    requires i < 7 && |s| == 8 && ZeroFrom(s, 1) && FitsDepth(Leaf(i), 7)
    ensures var r := DumpNode(Leaf(i), [i], Thousands(), PARAM_BUFFER_LEN, used, s);
            if used + MAX_PARAM_NODE_LENGTH > PARAM_BUFFER_LEN then !r.ok && r.start == s
            else r.ok && r.used == used + 26 && r.start == s
  {
    hide DumpNode, DumpChildren, NodeString, Thousands;
    LeafText(i);
    DumpTurn(Leaf(i), [i], Thousands(), PARAM_BUFFER_LEN, used, s);
    LoopEnd(Leaf(i), [i], Thousands(), PARAM_BUFFER_LEN, used + 26, s, 0);
    assert s[1 := 0] == s;
  }

  /** The loop over the children stops at the seventh. */
  lemma {:induction false} WideLoop(i: nat, s: seq<nat>)
    requires i <= 6 && |s| == 8 && ZeroFrom(s, 1) && FitsDepth(Wide(), 8)
    ensures var r := DumpChildren(Wide(), [], Thousands(), PARAM_BUFFER_LEN, 6 + 29 * i, s, i);
            !r.ok && r.start == s[0 := 6]
    decreases 6 - i
  {
    hide DumpNode, DumpChildren, Thousands, Wide, Leaf, FitsDepth;
    WideFits();
    var used := 6 + 29 * i;
    assert Wide().children[i] == Leaf(i) && [] + [i] == [i];
    LeafDump(i, used, s[0 := i]);
    LoopTurn(Wide(), [], Thousands(), PARAM_BUFFER_LEN, used, s, i,
      DumpNode(Leaf(i), [i], Thousands(), PARAM_BUFFER_LEN, used, s[0 := i]));
    if i < 6 {
      WideLoop(i + 1, s[0 := i]);
      assert s[0 := i][0 := 6] == s[0 := 6];
    }
  }

  /** The handler of this tree before its first answer. */
  function Novice(address: Uint32): Client {
    Client(address, Wide(), Thousands(), FreshStart(), 0)
  }

  /** Its first answer stops at the seventh child. */
  lemma NoviceAnswers(address: Uint32)
    ensures FitsDepth(Wide(), 8) && !NextDump(Novice(address)).ok
    ensures Answered(Novice(address)).start == [6, 0, 0, 0, 0, 0, 0, 0]
  {
    hide DumpNode, DumpChildren, Thousands, Wide, Leaf, FitsDepth, NodeString;
    WideFits();
    WideText(ValueAt(Thousands(), []));
    DumpTurn(Wide(), [], Thousands(), PARAM_BUFFER_LEN, 1, FreshStart());
    WideLoop(0, FreshStart());
  }

  lemma LetterFits(i: nat)
    requires i < 7
    ensures ValidName(Leaf(i).name) && CString(Leaf(i).name) && Tidy(Leaf(i).name)
  {
    LetterRange(i);
    hide Letter;
    assert forall k :: 0 <= k < 16 ==> 'a' <= Leaf(i).name[k] <= 'g';
  }

  lemma LetterRange(i: nat)
    requires i < 7
    ensures 'a' <= Letter(i) <= 'g'
  {
    var s := "abcdefg";
    assert s[0] == 'a' && s[1] == 'b' && s[2] == 'c' && s[3] == 'd' && s[4] == 'e' && s[5] == 'f' && s[6] == 'g';
  }

  lemma NamesDiffer(i: nat, j: nat)
    requires i < j < 7
    ensures Leaf(i).name != Leaf(j).name
  {
    assert Leaf(i).name[15] == Letter(i) && Leaf(j).name[15] == Letter(j);
  }

  lemma WideNamed()
    ensures WellNamed(Wide()) && CNames(Wide()) && TidyNames(Wide())
  {
    hide Wide, Leaf, ValidName, CString;
    forall p | IsNode(Wide(), p)
      ensures ValidName(NodeAt(Wide(), p).name) && CString(NodeAt(Wide(), p).name) && Tidy(NodeAt(Wide(), p).name)
      ensures DistinctNames(NodeAt(Wide(), p).children)
    {
      WideNodes(p);
      if p == [] {
        RootNamed();
        forall i, j | 0 <= i < j < 7
          ensures Wide().children[i].name != Wide().children[j].name
        {
          NamesDiffer(i, j);
        }
      } else {
        LetterFits(p[0]);
        LeafChildless(p[0]);
      }
    }
  }

  lemma RootNamed()
    ensures ValidName("r") && CString("r") && Tidy("r")
  {
  }

  lemma LeafChildless(i: nat)
    requires i < 7
    ensures Leaf(i).children == [] && Settable(Leaf(i)) && Leaf(i).vtype == UInt16
  {
  }

  lemma WideRestorable()
    ensures Restorable(Wide(), Thousands()) && !Settable(Wide())
  {
    hide Wide, Leaf, Thousands;
    assert |Decimal(1000)| == 4;
    forall p | IsNode(Wide(), p) && Settable(NodeAt(Wide(), p))
      ensures InRange(NodeAt(Wide(), p).vtype, ValueAt(Thousands(), p))
      ensures Survives(NodeAt(Wide(), p).vtype, ValueAt(Thousands(), p))
    {
      WideNodes(p);
      LeafChildless(p[0]);
      assert ValueAt(Thousands(), [p[0]]) == 1000;
    }
  }

  lemma WideAdvances(c: Client)
    requires c.root == Wide() && c.values == Thousands()
    ensures Advances(c)
  {
    hide Wide, Leaf, Thousands, NodeString, Width;
    forall q | IsNode(Wide(), q)
      ensures PathUsed(Wide(), Thousands(), q) + MAX_PARAM_NODE_LENGTH <= PARAM_BUFFER_LEN
      ensures q != [] ==> Leavable(Wide(), Thousands(), PARAM_BUFFER_LEN, q)
    {
      WideNodes(q);
      if q != [] {
        LeafText(q[0]);
        LeafChildless(q[0]);
        WideText(ValueAt(Thousands(), []));
        assert q[..|q| - 1] == [];
        assert ValueAt(Thousands(), [q[0]]) == 1000;
      }
    }
  }

  lemma NoviceSound(address: Uint32)
    ensures Sound(Novice(address)) && Easy(Novice(address))
  {
    hide Wide, Thousands, FitsDepth, NamesFit, CNames, TidyNames, Resumable;
    WideFits();
    WideNamed();
    FreshResumable(Wide());
    WideAdvances(Novice(address));
  }

  /** Its first child lies before the position at which it stands after that answer. */
  lemma FirstChildPassed(address: Uint32)
    ensures FitsDepth(Wide(), 8)
    ensures var c := Answered(Novice(address)); !Shown(c, [0])
    ensures IsNode(Wide(), [0]) && Settable(NodeAt(Wide(), [0]))
  {
    hide Wide, Leaf, Thousands, FitsDepth, NextDump;
    NoviceAnswers(address);
    assert [0][1..] == [];
    assert Wide().children[0] == Leaf(0);
    LeafChildless(0);
  }

  lemma {:induction false} WideSize(i: nat)
    requires i <= 7
    ensures SizeFrom(Wide(), i) == 7 - i
    ensures Size(Wide()) == 1 + SizeFrom(Wide(), 0)
    decreases 7 - i
  {
    hide Wide, Leaf;
    if i < 7 {
      assert Wide().children[i] == Leaf(i);
      LeafChildless(i);
      assert SizeFrom(Leaf(i), 0) == 0;
      WideSize(i + 1);
    }
  }

  lemma NoviceAlone(address: Uint32)
    ensures AllSound([Novice(address)]) && DistinctAddresses([Novice(address)])
    ensures Easy(Novice(address)) && TidyNames(Wide()) && NodesLeft([Novice(address)], 0) <= 8
  {
    hide Wide, Thousands, Sound, Easy, TidyNames, Size, SizeFrom;
    NoviceSound(address);
    WideNamed();
    WideSize(0);
    ToVisitBound(Wide(), 0, FreshStart());
    assert NodesLeft([Novice(address)], 1) == 0;
  }

  lemma NothingWritten(l: Layout, s: Saver, m: Message)
    requires s.sequence < 256 && |m.payload| < 0x1_0000_0000 && l.stop <= |s.memory|
    requires Storable(l, s, m) && 0 < |StoredFrame(l, s, m)|
    ensures BrokenOff(l, s, m, 0) == Saver(s.memory, l.start, 0, 0, true)
  {
    hide StoredFrame;
    assert StoredFrame(l, s, m)[..0] == [];
  }

  /** A save of this tree whose first write fails, and another one: the second comes to its end and
      the load after it succeeds, but does not restore the tree. */
  lemma {:induction false} BrokenSaveExample(l: Layout, s: Saver, address: Uint32, self: Uint32, r: Receiver)
    requires l == Layout(0, 1992, 1) && s == Saver(s.memory, 0, 0, 0, false) && |s.memory| >= 1992
    requires forall i :: 0 <= i < 1992 ==> s.memory[i] != 0x7D
    requires Listens(r, SLIP_PACKET_LEN)
    ensures AllSound([Novice(address)]) && Sound(Novice(address))
    ensures var m := Answer(Novice(address), self);
            && Storable(l, s, m) && 0 < |StoredFrame(l, s, m)|
            && var b, next := BrokenOff(l, s, m, 0), NextClients([Novice(address)], 0);
            exists ms :: SaveRun(l, b, next, self, ms) && LoadedInPart(l, b, ms, self, r, next[0])
  {
    hide Wide, Thousands, Sound, Easy, Advances, TidyNames, NodesLeft, Storable, StoredFrame, SaveRun, Answer, NextDump, Answered,
      BrokenOff, EndsSave, Save, CleanGaps, Listens, WellNamed, Restorable, Shown, FreshStart, IsNode, NodeAt, Settable;
    var c, clients := Novice(address), [Novice(address)];
    NoviceSound(address);
    NoviceAlone(address);
    assert clients[0] == c;
    AnswerStored(l, s, c, self);
    var m := Answer(c, self);
    StoredFrameIsFrame(l, s, m);
    NothingWritten(l, s, m);
    var b, next := BrokenOff(l, s, m, 0), NextClients(clients, 0);
    NextAre(clients, 0, 0);
    NoviceAnswers(address);
    EasyAdvances(c);
    AnswerLeaves(clients, 0);
    StillEasy(clients, 0);
    SaveCompletes(l, b, next, self);
    var ms :| SaveRun(l, b, next, self, ms);
    RunIsComplete(l, b, next, self, ms);
    CleanMemory(l, b, ms);
    AnsweredSame(c);
    WideNamed();
    WideRestorable();
    EasyAdvances(next[0]);
    FirstChildPassed(address);
    NextSaveLoses(l, s, clients, self, 0, ms, r, [0]);
    assert LoadedInPart(l, b, ms, self, r, next[0]);
  }

  /** The load succeeds, and yet some tree of the shape is not restored. */
  ghost predicate LoadedInPart(l: Layout, b: Saver, ms: seq<Message>, self: Uint32, r: Receiver, c: Client)
    requires b.sequence < 256 && l.stop <= |b.memory| && Fits(ms)
  {
    var out := Load(SaveAll(l, b, ms).memory, self, r, l.start, 0);
    out.ok && !RestoredWhole(c, PayloadsTo(out.sent, c.address))
  }

  lemma EasyAdvances(c: Client)
    ensures Easy(c) ==> Advances(c)
  {
    hide Advances, TidyNames;
  }

  lemma AnsweredSame(c: Client)
    requires |c.start| == 8 && FitsDepth(c.root, 8)
    ensures Answered(c).root == c.root && Answered(c).values == c.values && Answered(c).address == c.address
  {
    hide NextDump, FitsDepth;
  }
}
