/** The save protocol on the objects: the master asks a handler, the handler answers, the master
    stores the answer and asks again, until all is stored. */
module ParamSaveLoop {
  import opened Arithmetic
  import opened Options
  import opened Serialization
  import opened ParamFc
  import opened SlipFraming
  import opened ParamStore
  import opened ParamMasterHandler
  import opened ParamTree
  import opened ParamWalk
  import opened ParamDump
  import opened ParamHandler
  import opened ParamPersistence
  import opened ParamSaveRun
  import SlipPacket

  /** What the protocol needs to know of a handler object. */
  ghost function ClientOf(h: Handler, address: Uint32): Client
    requires h.saveHelper.dumpStart.Length == 8
    reads h, h.saveHelper, h.saveHelper.dumpStart
  {
    Client(address, h.root, h.values, h.saveHelper.dumpStart[..], h.saveHelper.sequence)
  }

  /** The master can frame the answer without running over the packet. */
  ghost predicate Framed(l: Layout, s: Saver, c: Client, self: Uint32)
    requires Sound(c) && s.sequence < 256
  {
    !SlipPacket.FlagUnreserved(Encode(Stamped(l, s, Answer(c, self))), SLIP_PACKET_LEN)
  }

  /** As is the case if it can be stored, and for all trees whose names need no stuffing. */
  lemma FramedIf(l: Layout, s: Saver, c: Client, self: Uint32)
    requires Sound(c) && s.sequence < 256
    ensures Storable(l, s, Answer(c, self)) || TidyNames(c.root) ==> Framed(l, s, c, self)
  {
    hide Sound, Answer, Frame, Encode, TidyNames;
    StoredFrameIsFrame(l, s, Answer(c, self));
    if TidyNames(c.root) {
      AnswerFits(l, s, c, self);
    }
  }

  lemma AnswerIs(c: Client, self: Uint32)
    requires Sound(c)
    ensures var r := DumpNode(c.root, [], c.values, PARAM_BUFFER_LEN, 1, c.start);
            && NodesOf(c.root, r.tokens) && CString("/" + TextOf(c.root, c.values, r.tokens))
            && Answered(c).sequence < 256
            && Answered(c) == (if r.ok then c.(start := FreshStart()) else c.(start := r.start, sequence := (c.sequence + 1) % 256))
            && Answer(c, self)
            == Message(39, self, c.address, 0, 1, 2, OctetOf(Answered(c).sequence), if r.ok then 1 else 0,
                       Octets("/" + TextOf(c.root, c.values, r.tokens)))
  {
    hide DumpNode, TextOf, NodesOf, Octets, FitsDepth, Resumable, NamesFit, CNames, OctetOf;
    AnswerText(c);
  }

  /** The handler's side of a turn: its answer to a save request of the master. */
  method Ask(handler: Handler, address: Uint32, self: Uint32) returns (msg: Message)
    requires handler.Valid() && Sound(ClientOf(handler, address))
    modifies handler.saveHelper, handler.saveHelper.dumpStart
    ensures handler.Valid()
    ensures msg == Answer(old(ClientOf(handler, address)), self)
    ensures ClientOf(handler, address) == Answered(old(ClientOf(handler, address)))
  {
    hide DumpNode, TextOf, NodesOf, Octets, CString, FitsDepth, Resumable, NamesFit, CNames, OctetOf, Answer,
      Answered, NextDump, FreshStart;
    AnswerIs(ClientOf(handler, address), self);
    var reply := handler.HandleGet(true);
    msg := Message(39, self, address, 0, 1, 2, OctetOf(reply.sequence), if reply.last then 1 else 0, Octets(reply.text));
  }

  /** What one turn leads to: the save so far, the handler, and the handler to be asked next. */
  datatype Turn = Turn(saver: Saver, client: Client, request: Option<nat>)

  ghost function TurnOf(l: Layout, s: Saver, c: Client, self: Uint32): Turn
    requires s.sequence < 256 && l.stop <= |s.memory| && Sound(c)
  {
    hide Sound, Storable, EndsSave, Save, StoredFrame, Answered;
    var m := Answer(c, self);
    var s1 := Save(l, s, m);
    assert |c.start| == 8 && FitsDepth(c.root, 8) by {
      SoundParts(c);
    }
    Turn(s1, Answered(c), if Storable(l, s, m) && !EndsSave(l, s, m) then Some(s1.saving) else None)
  }

  lemma SoundParts(c: Client)
    requires Sound(c)
    ensures |c.start| == 8 && FitsDepth(c.root, 8)
  {
  }

  lemma TurnIs(l: Layout, s: Saver, c: Client, self: Uint32)
    requires s.sequence < 256 && l.stop <= |s.memory| && Sound(c)
    ensures |c.start| == 8 && FitsDepth(c.root, 8)
    ensures var m := Answer(c, self);
            TurnOf(l, s, c, self)
            == Turn(Save(l, s, m), Answered(c), if Storable(l, s, m) && !EndsSave(l, s, m) then Some(Save(l, s, m).saving) else None)
  {
    SoundParts(c);
    hide Sound, Storable, EndsSave, Save, StoredFrame, Answered, Answer, FitsDepth;
  }

  /** A request for the handler, its answer, and what the master does with it, when the memory
      takes every write. */
  method SaveTurn(master: ParamMaster, handler: Handler, address: Uint32) returns (request: Option<nat>)
    requires master.Valid() && handler.Valid() && Sound(ClientOf(handler, address))
    requires Framed(master.Region(), master.Saved(), ClientOf(handler, address), master.handlerId)
    requires master.memory as object != handler.saveHelper.dumpStart && master.memory as object != handler.helper.dumpStart
    modifies master, master.memory, handler.saveHelper, handler.saveHelper.dumpStart
    ensures master.Valid() && handler.Valid() && master.nrRegisteredHandlers == old(master.nrRegisteredHandlers)
    ensures Turn(master.Saved(), ClientOf(handler, address), request)
         == TurnOf(master.Region(), old(master.Saved()), old(ClientOf(handler, address)), master.handlerId)
  {
    hide Sound, Answer, Answered, FitsDepth, Resumable, NamesFit, StoredFrame, Frame, Encode, Save, EndsSave, Storable,
      Stamped, BrokenOff, SlipPacket.FlagUnreserved;
    ghost var l, s, c := master.Region(), master.Saved(), ClientOf(handler, address);
    TurnIs(l, s, c, master.handlerId);
    var msg := Ask(handler, address, master.handlerId);
    request := Stored(master, msg);
  }

  lemma StorableSize(l: Layout, s: Saver, m: Message)
    requires s.sequence < 256 && |m.payload| < 0x1_0000_0000
    ensures Storable(l, s, m) ==> |StoredFrame(l, s, m)| <= SLIP_PACKET_LEN
  {
    hide StoredFrame;
  }

  /** The master's side of a turn. */
  method Stored(master: ParamMaster, msg: Message) returns (request: Option<nat>)
    requires master.Valid() && |msg.payload| <= PARAM_BUFFER_LEN
    requires !SlipPacket.FlagUnreserved(Encode(Stamped(master.Region(), master.Saved(), msg)), SLIP_PACKET_LEN)
    modifies master, master.memory
    ensures master.Valid() && master.nrRegisteredHandlers == old(master.nrRegisteredHandlers)
    ensures var l, s := master.Region(), old(master.Saved());
            && master.Saved() == Save(l, s, msg)
            && request == if Storable(l, s, msg) && !EndsSave(l, s, msg) then Some(Save(l, s, msg).saving) else None
  {
    StorableSize(master.Region(), master.Saved(), msg);
    hide Frame, StoredFrame, Storable, Encode, Save, EndsSave, Stamped, BrokenOff, SlipPacket.FlagUnreserved;
    var ok;
    ok, request := master.HandleSave(msg, SLIP_PACKET_LEN);
  }

  // ---------------------------------------------------------------- turn after turn

  ghost function ClientsOf(handlers: seq<Handler>, addresses: seq<Uint32>): (clients: seq<Client>)
    requires |addresses| == |handlers| && Indexed(handlers)
    reads handlers, Helpers(handlers), Starts(handlers)
    ensures |clients| == |handlers|
  {
    seq(|handlers|, j requires 0 <= j < |handlers| && Indexed(handlers) reads handlers, Helpers(handlers), Starts(handlers) =>
      ClientOf(handlers[j], addresses[j]))
  }

  ghost function Helpers(handlers: seq<Handler>): set<Helper> {
    set h | h in handlers :: h.saveHelper
  }

  ghost function Starts(handlers: seq<Handler>): set<array<nat>> {
    set h | h in handlers :: h.saveHelper.dumpStart
  }

  ghost predicate Indexed(handlers: seq<Handler>) {
    forall h :: h in handlers ==> h.saveHelper.dumpStart.Length == 8
  }

  /** No two handlers share what a save changes. */
  ghost predicate Apart(master: ParamMaster, handlers: seq<Handler>) {
    && (forall h :: h in handlers ==>
         master.memory as object != h.saveHelper.dumpStart && master.memory as object != h.helper.dumpStart)
    && (forall i, j :: 0 <= i < |handlers| && 0 <= j < |handlers| && i != j ==> Disjoint(handlers[i], handlers[j]))
  }

  predicate Disjoint(h: Handler, other: Handler) {
    && h.saveHelper != other.saveHelper && h.helper != other.saveHelper
    && h.saveHelper.dumpStart != other.saveHelper.dumpStart && h.helper.dumpStart != other.saveHelper.dumpStart
  }

  /** One turn of a run. */
  lemma TurnRun(l: Layout, s: Saver, clients: seq<Client>, self: Uint32, ms: seq<Message>)
    requires s.sequence < 256 && l.stop <= |s.memory| && AllSound(clients)
    requires SaveRun(l, s, clients, self, ms)
    ensures ms != [] && s.saving < |clients| && Fits(ms) && Fits(ms[1..])
    ensures Sound(clients[s.saving]) && Framed(l, s, clients[s.saving], self)
    ensures var t := TurnOf(l, s, clients[s.saving], self);
            && SaveAll(l, s, ms) == SaveAll(l, t.saver, ms[1..])
            && NextClients(clients, s.saving) == clients[s.saving := t.client]
            && (|ms| == 1 ==> t.request == None && SaveAll(l, t.saver, ms[1..]) == t.saver)
            && (|ms| > 1 ==>
                 && t.request == Some(t.saver.saving)
                 && SaveRun(l, t.saver, NextClients(clients, s.saving), self, ms[1..]))
  {
    SoundAll(clients, s.saving);
    hide Sound, Storable, EndsSave, Save, StoredFrame, Answer, Answered, SaveRun, SaveAll, CompleteSave, Framed;
    RunTurn(l, s, clients, self, ms);
    FramedIf(l, s, clients[s.saving], self);
    RunIsComplete(l, s, clients, self, ms);
    SaveAllStep(l, s, ms);
    SaveAllStep(l, Save(l, s, ms[0]), ms[1..]);
  }

  /** The master and all handlers are ready for a turn. */
  ghost predicate AllReady(master: ParamMaster, handlers: seq<Handler>, addresses: seq<Uint32>)
    reads master, master.parser, master.parser.cBuffer, master.parser.cBuffer.buffer, master.crcTable,
      handlers, Helpers(handlers), Starts(handlers),
      set h | h in handlers :: h.helper, set h | h in handlers :: h.helper.dumpStart
  {
    && master.Valid() && (forall h :: h in handlers ==> h.Valid())
    && |addresses| == |handlers| && Indexed(handlers) && Apart(master, handlers)
    && AllSound(ClientsOf(handlers, addresses))
  }

  /** One turn among all handlers: the others are as they were. */
  method TurnAmong(master: ParamMaster, handlers: seq<Handler>, addresses: seq<Uint32>,
      k: nat) returns (request: Option<nat>)
    requires AllReady(master, handlers, addresses) && k < |handlers|
    requires Sound(ClientsOf(handlers, addresses)[k])
    requires Framed(master.Region(), master.Saved(), ClientsOf(handlers, addresses)[k], master.handlerId)
    modifies master, master.memory, handlers[k].saveHelper, handlers[k].saveHelper.dumpStart
    ensures master.Valid() && (forall h :: h in handlers ==> h.Valid()) && Indexed(handlers)
    ensures master.Region() == old(master.Region())
    ensures var turn := TurnOf(master.Region(), old(master.Saved()), old(ClientsOf(handlers, addresses))[k], master.handlerId);
            && master.Saved() == turn.saver && request == turn.request
            && ClientsOf(handlers, addresses) == old(ClientsOf(handlers, addresses))[k := turn.client]
  {
    hide Sound, TurnOf, Framed;
    assert ClientsOf(handlers, addresses)[k] == ClientOf(handlers[k], addresses[k]);
    assert forall i :: 0 <= i < |handlers| && i != k ==> Disjoint(handlers[i], handlers[k]);
    request := SaveTurn(master, handlers[k], addresses[k]);
  }

  /** A whole save, request by request, whenever there is a run of the protocol to its end: it ends,
      it stores exactly the answers of that run, and nothing but the memory, the master and the dump
      positions changes. */
  method SaveParameters(master: ParamMaster, handlers: seq<Handler>,
      addresses: seq<Uint32>) returns (ghost ms: seq<Message>)
    requires AllReady(master, handlers, addresses)
    requires |handlers| == master.nrRegisteredHandlers > 0
    requires master.setAddress == master.startAddr && master.saveSequence == 0 && master.currentlySaving == 0
    requires exists ms :: SaveRun(master.Region(), master.Saved(), ClientsOf(handlers, addresses), master.handlerId, ms)
    modifies master, master.memory, Helpers(handlers), Starts(handlers)
    ensures AllReady(master, handlers, addresses)
    ensures SaveRun(old(master.Region()), old(master.Saved()), old(ClientsOf(handlers, addresses)), master.handlerId, ms)
    ensures master.Saved() == SaveAll(old(master.Region()), old(master.Saved()), ms)
  {
    hide Sound, SaveRun, SaveAll, Save, TurnOf, NextClients, CompleteSave, Framed;
    ghost var l, s, self := master.Region(), master.Saved(), master.handlerId;
    ghost var clients := ClientsOf(handlers, addresses);
    ms :| SaveRun(l, s, clients, self, ms);
    RunIsComplete(l, s, clients, self, ms);
    ghost var rest := ms;
    var request := Some(master.currentlySaving);
    while request.Some?
      invariant AllReady(master, handlers, addresses) && master.Region() == l && Fits(rest)
      invariant SaveAll(l, master.Saved(), rest) == SaveAll(l, s, ms)
      invariant request.Some? ==>
        request.value == master.Saved().saving && SaveRun(l, master.Saved(), ClientsOf(handlers, addresses), self, rest)
      invariant request.None? ==> SaveAll(l, master.Saved(), rest) == master.Saved()
      decreases request.Some?, |rest|
    {
      ghost var now := ClientsOf(handlers, addresses);
      TurnRun(l, master.Saved(), now, self, rest);
      request := TurnAmong(master, handlers, addresses, request.value);
      rest := rest[1..];
    }
  }

  /** The whole stack on the objects. Saving over clean memory and then loading, with a parser that
      listens, succeeds and sends to every handler what restores the values it had, from the
      position on at which the save found it. */
  method SaveAndReload(master: ParamMaster, handlers: seq<Handler>, addresses: seq<Uint32>)
    returns (ok: bool, sent: seq<Message>, ghost heard: Receiver)
    requires AllReady(master, handlers, addresses)
    requires |handlers| == master.nrRegisteredHandlers > 0
    requires master.setAddress == master.startAddr && master.saveSequence == 0 && master.currentlySaving == 0
    requires exists ms :: SaveRun(master.Region(), master.Saved(), ClientsOf(handlers, addresses), master.handlerId, ms)
    requires DistinctAddresses(ClientsOf(handlers, addresses))
    requires forall c :: c in ClientsOf(handlers, addresses) ==> WellNamed(c.root) && Restorable(c.root, c.values)
    requires forall i :: master.startAddr <= i < master.stopAddr ==> master.memory[i] != 0x7D
    modifies master, master.memory, Helpers(handlers), Starts(handlers)
    modifies master.parser, master.parser.cBuffer, master.parser.cBuffer.buffer
    ensures old(master.Hears(heard))
    ensures Listens(heard, SLIP_PACKET_LEN) ==>
              && ok
              && AllSets(sent, addresses, master.handlerId)
              && forall j, values :: 0 <= j < |handlers| ==>
                   GivenBack(old(ClientsOf(handlers, addresses))[j], values, PayloadsTo(sent, addresses[j]))
  {
    hide Sound, SaveRun, SaveAll, CompleteSave, WellNamed, Restorable, Load, Listens, GivenBack, PayloadsTo, AllSets;
    ghost var l, s, self := master.Region(), master.Saved(), master.handlerId;
    ghost var clients := ClientsOf(handlers, addresses);
    ghost var ms := SaveParameters(master, handlers, addresses);
    assert master.memory[..] == SaveAll(l, s, ms).memory;
    ghost var left;
    ok, sent, heard, left := master.HandleLoad();
    if Listens(heard, SLIP_PACKET_LEN) {
      GivenBackBy(l, s, clients, self, ms, heard, 0, map[]);
      SentAreSets(l, s, clients, self, ms, heard, addresses);
      forall j, values | 0 <= j < |handlers|
        ensures GivenBack(clients[j], values, PayloadsTo(sent, addresses[j]))
      {
        assert clients[j].address == addresses[j];
        GivenBackBy(l, s, clients, self, ms, heard, j, values);
      }
    }
  }

  /** Set messages, each to one of these addresses. */
  predicate AllSets(sent: seq<Message>, addresses: seq<Uint32>, self: Uint32) {
    forall m :: m in sent ==> m.source == self && exists j :: 0 <= j < |addresses| && SetsAt(m, addresses[j])
  }

  lemma {:induction false} SentAreSets(
      l: Layout, s: Saver, clients: seq<Client>, self: Uint32, ms: seq<Message>, r: Receiver, addresses: seq<Uint32>)
    requires s.address == l.start && s.sequence == 0 && s.saving == 0 && l.stop <= |s.memory|
    requires AllSound(clients) && l.handlers == |clients| == |addresses|
    requires SaveRun(l, s, clients, self, ms) && Fits(ms)
    requires Listens(r, SLIP_PACKET_LEN) && forall i :: l.start <= i < l.stop ==> s.memory[i] != 0x7D
    requires forall j :: 0 <= j < |clients| ==> clients[j].address == addresses[j]
    ensures AllSets(Load(SaveAll(l, s, ms).memory, self, r, l.start, 0).sent, addresses, self)
  {
    hide Sound, SaveRun, SaveAll, CompleteSave, Load, Listens, CleanGaps, SetsAt;
    RunIsComplete(l, s, clients, self, ms);
    CleanMemory(l, s, ms);
    var sent := Load(SaveAll(l, s, ms).memory, self, r, l.start, 0).sent;
    LoadSendsSets(l, s, clients, self, ms, r, 0);
    forall m | m in sent
      ensures m.source == self && exists j :: 0 <= j < |addresses| && SetsAt(m, addresses[j])
    {
      var i :| 0 <= i < |sent| && sent[i] == m;
      LoadSendsSets(l, s, clients, self, ms, r, i);
      var j :| 0 <= j < |clients| && SetsAt(m, clients[j].address);
      assert SetsAt(m, addresses[j]);
    }
  }

  /** What the messages of a load do to the tree of a handler. */
  ghost predicate GivenBack(c: Client, values: Values, payloads: seq<seq<bv8>>) {
    && |c.start| == 8
    && RestoredAtLeast(c, values, payloads)
    && (Advances(c) ==> RestoredFrom(c, values, payloads))
  }

  lemma GivenBackBy(
      l: Layout, s: Saver, clients: seq<Client>, self: Uint32, ms: seq<Message>, r: Receiver, j: nat, values: Values)
    requires s.address == l.start && s.sequence == 0 && s.saving == 0 && l.stop <= |s.memory|
    requires AllSound(clients) && DistinctAddresses(clients) && l.handlers == |clients|
    requires SaveRun(l, s, clients, self, ms) && Fits(ms)
    requires Listens(r, SLIP_PACKET_LEN) && forall i :: l.start <= i < l.stop ==> s.memory[i] != 0x7D
    requires j < |clients| && WellNamed(clients[j].root) && Restorable(clients[j].root, clients[j].values)
    ensures var out := Load(SaveAll(l, s, ms).memory, self, r, l.start, 0);
            out.ok && GivenBack(clients[j], values, PayloadsTo(out.sent, clients[j].address))
  {
    hide Sound, SaveRun, SaveAll, CompleteSave, WellNamed, Restorable, Load, Listens, PayloadsTo, CleanGaps, RestoredAtLeast,
      RestoredFrom, Advances;
    RunIsComplete(l, s, clients, self, ms);
    CleanMemory(l, s, ms);
    SavedTreesRestored(l, s, clients, self, ms, r, j, values);
  }
}
