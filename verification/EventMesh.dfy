/** The subscription protocol of event_handler.c. Every handler keeps its own subscriptions and
    a copy of everybody else's; a change is broadcast, and a message goes only to the handlers
    the sender believes to be subscribed to it. */
module EventMesh {
  // Msg_NoType_e is 0, Msg_Subscriptions_e is 32, Msg_LastType_e is 43; there are 16
  // subscription slots, and an event queue holds 32 messages.

  /** The subscription slots of a handler; an unused slot holds zero. */
  type Slots = seq<nat>

  datatype Message = Subscriptions(source: nat, slots: Slots) | Other(kind: nat)

  /** The handlers of a segment in their order of registration, the master first. rows[k][j] is
      what handler k believes handler j to be subscribed to. */
  datatype Mesh = Mesh(
    slots: seq<Slots>,
    rows: seq<seq<Slots>>,
    queues: seq<seq<Message>>,
    callbacks: seq<set<nat>>
  )

  // ---------------------------------------------------------------- slots

  predicate IsSubscribed(s: Slots, kind: nat) {
    kind in s
  }

  function IndexOf(s: Slots, kind: nat): (i: nat)
    ensures i <= |s|
    ensures i < |s| ==> s[i] == kind
    ensures forall j :: 0 <= j < i ==> s[j] != kind
  {
    if s == [] then 0 else if s[0] == kind then 0 else 1 + IndexOf(s[1..], kind)
  }

  /** The first free slot takes the type, unless it is there already or no slot is free. */
  function Inserted(s: Slots, kind: nat): (r: Slots)
    ensures |r| == |s|
  {
    if IsSubscribed(s, kind) || IndexOf(s, 0) == |s| then s
    else s[IndexOf(s, 0) := kind]
  }

  /** The first slot that holds the type is freed. */
  function Removed(s: Slots, kind: nat): (r: Slots)
    ensures |r| == |s|
  {
    if IndexOf(s, kind) == |s| then s else s[IndexOf(s, kind) := 0]
  }

  predicate NoDuplicates(s: Slots) {
    forall i, j :: 0 <= i < j < |s| && s[i] == s[j] ==> s[i] == 0
  }

  /** Subscribing adds the type alone, if it was there or a slot was free. */
  lemma InsertedMembers(s: Slots, kind: nat, other: nat)
    requires NoDuplicates(s) && kind != 0 && other != 0
    ensures NoDuplicates(Inserted(s, kind))
    ensures IsSubscribed(Inserted(s, kind), other) <==>
            IsSubscribed(s, other) || (other == kind && 0 in s)
  {
    var r := Inserted(s, kind);
    var k := IndexOf(s, 0);
    if !IsSubscribed(s, kind) && k < |s| {
      assert r[k] == kind;
      if IsSubscribed(s, other) {
        var i :| 0 <= i < |s| && s[i] == other;
        assert r[i] == other;
      }
    }
  }

  /** Unsubscribing takes the type away and nothing else. */
  lemma RemovedMembers(s: Slots, kind: nat, other: nat)
    requires NoDuplicates(s) && other != 0
    ensures NoDuplicates(Removed(s, kind))
    ensures IsSubscribed(Removed(s, kind), other) <==> IsSubscribed(s, other) && other != kind
  {
    var r := Removed(s, kind);
    var k := IndexOf(s, kind);
    if IsSubscribed(s, other) && other != kind {
      var i :| 0 <= i < |s| && s[i] == other;
      assert r[i] == other;
    }
  }

  // ---------------------------------------------------------------- steps

  predicate Shape(m: Mesh) {
    var n := |m.slots|;
    && |m.rows| == n && |m.queues| == n && |m.callbacks| == n
    && forall k :: 0 <= k < n ==> |m.rows[k]| == n
  }

  /** xQueueSendToBack with no waiting: a message to a full queue is lost. */
  function Enqueued(q: seq<Message>, msg: Message): seq<Message> {
    if |q| < 32 then q + [msg] else q
  }

  function KindOf(msg: Message): nat {
    match msg case Subscriptions(_, _) => 32 case Other(kind) => kind
  }

  /** Event_SendBCInternal: a copy to everyone the sender believes to be subscribed. */
  function Broadcast(m: Mesh, j: nat, msg: Message): (r: Mesh)
    requires Shape(m) && j < |m.slots|
    ensures Shape(r)
  {
    m.(queues := seq(|m.slots|, i requires 0 <= i < |m.slots| =>
      if IsSubscribed(m.rows[j][i], KindOf(msg)) then Enqueued(m.queues[i], msg) else m.queues[i]))
  }

  function Announced(m: Mesh, j: nat, s: Slots): (r: Mesh)
    requires Shape(m) && j < |m.slots|
    ensures Shape(r)
  {
    Broadcast(m.(slots := m.slots[j := s]), j, Subscriptions(j, s))
  }

  function Subscribe(m: Mesh, j: nat, kind: nat): (r: Mesh)
    requires Shape(m) && j < |m.slots|
    ensures Shape(r)
  {
    if kind !in m.callbacks[j] then m else Announced(m, j, Inserted(m.slots[j], kind))
  }

  function Unsubscribe(m: Mesh, j: nat, kind: nat): (r: Mesh)
    requires Shape(m) && j < |m.slots|
    ensures Shape(r)
  {
    if kind !in m.callbacks[j] then m else Announced(m, j, Removed(m.slots[j], kind))
  }

  function RegisterCallback(m: Mesh, j: nat, kind: nat): (r: Mesh)
    requires Shape(m) && j < |m.slots|
    ensures Shape(r)
  {
    if kind >= 43 then m else Subscribe(m.(callbacks := m.callbacks[j := m.callbacks[j] + {kind}]), j, kind)
  }

  /** Event_Receive with Event_SubscriptionReq as the callback of subscription messages. */
  function Receive(m: Mesh, k: nat): (r: Mesh)
    requires Shape(m) && k < |m.slots|
    ensures Shape(r)
  {
    if m.queues[k] == [] then m
    else
      var popped := m.(queues := m.queues[k := m.queues[k][1..]]);
      match m.queues[k][0]
      case Subscriptions(j, s) =>
        if 32 in m.callbacks[k] && j < |m.slots| then
          popped.(rows := m.rows[k := m.rows[k][j := s]])
        else popped
      case Other(_) => popped
  }

  /** Event_Send to one handler or to all; it refuses subscription messages. */
  function Send(m: Mesh, j: nat, kind: nat, to: nat): (r: Mesh)
    requires Shape(m) && j < |m.slots| && to < |m.slots|
    ensures Shape(r)
  {
    if kind == 0 || kind == 32 || kind == 43 || !IsSubscribed(m.rows[j][to], kind) then m
    else m.(queues := m.queues[to := Enqueued(m.queues[to], Other(kind))])
  }

  function SendToAll(m: Mesh, j: nat, kind: nat): (r: Mesh)
    requires Shape(m) && j < |m.slots|
    ensures Shape(r)
  {
    if kind == 0 || kind == 32 || kind == 43 then m else Broadcast(m, j, Other(kind))
  }

  datatype Step =
    | DoRegister(j: nat, kind: nat)
    | DoSubscribe(j: nat, kind: nat)
    | DoUnsubscribe(j: nat, kind: nat)
    | DoReceive(j: nat)
    | DoSend(j: nat, kind: nat, to: nat)
    | DoSendToAll(j: nat, kind: nat)

  /** Steps of handlers that exist and that leave the subscription to subscriptions alone. */
  predicate Allowed(n: nat, s: Step) {
    && s.j < n
    && (s.DoRegister? || s.DoUnsubscribe? ==> s.kind != 32)
    && (s.DoSend? ==> s.to < n)
  }

  function Next(m: Mesh, s: Step): (r: Mesh)
    requires Shape(m) && Allowed(|m.slots|, s)
    ensures Shape(r) && |r.slots| == |m.slots|
  {
    match s
    case DoRegister(j, kind) => RegisterCallback(m, j, kind)
    case DoSubscribe(j, kind) => Subscribe(m, j, kind)
    case DoUnsubscribe(j, kind) => Unsubscribe(m, j, kind)
    case DoReceive(k) => Receive(m, k)
    case DoSend(j, kind, to) => Send(m, j, kind, to)
    case DoSendToAll(j, kind) => SendToAll(m, j, kind)
  }

  // ---------------------------------------------------------------- the invariant

  /** The last subscriptions of j that wait in a queue, or the given ones. */
  function LastFrom(q: seq<Message>, j: nat, s: Slots): Slots
    decreases |q|
  {
    if q == [] then s
    else LastFrom(q[1..], j, if q[0].Subscriptions? && q[0].source == j then q[0].slots else s)
  }

  /** What k will believe of j once it has received everything that waits. */
  function View(m: Mesh, k: nat, j: nat): Slots
    requires Shape(m) && k < |m.slots| && j < |m.slots|
  {
    LastFrom(m.queues[k], j, m.rows[k][j])
  }

  /** All handlers are, and are known to be, subscribed to subscriptions. */
  ghost predicate Listening(m: Mesh)
    requires Shape(m)
  {
    var n := |m.slots|;
    && (forall j :: 0 <= j < n ==> 32 in m.slots[j] && 32 in m.callbacks[j])
    && (forall k, j :: 0 <= k < n && 0 <= j < n ==> 32 in m.rows[k][j])
    && (forall k, i :: 0 <= k < n && 0 <= i < |m.queues[k]| ==> WellFormed(m.queues[k][i], n))
  }

  predicate WellFormed(msg: Message, n: nat) {
    msg.Subscriptions? ==> msg.source < n && 32 in msg.slots
  }

  /** Every view of every handler is true. */
  ghost predicate Informed(m: Mesh)
    requires Shape(m)
  {
    forall k, j :: 0 <= k < |m.slots| && 0 <= j < |m.slots| ==> View(m, k, j) == m.slots[j]
  }

  ghost predicate Consistent(m: Mesh) {
    Shape(m) && Listening(m) && Informed(m)
  }

  lemma {:induction false} LastFromAppend(q: seq<Message>, msg: Message, j: nat, s: Slots)
    ensures LastFrom(q + [msg], j, s)
         == if msg.Subscriptions? && msg.source == j then msg.slots else LastFrom(q, j, s)
    decreases |q|
  {
    if q == [] {
      assert q + [msg] == [msg];
      assert [msg][1..] == [];
    } else {
      assert (q + [msg])[1..] == q[1..] + [msg];
      LastFromAppend(q[1..], msg, j, if q[0].Subscriptions? && q[0].source == j then q[0].slots else s);
    }
  }

  lemma InsertKeepsListening(s: Slots, kind: nat)
    requires 32 in s
    ensures 32 in Inserted(s, kind)
    ensures kind != 32 ==> 32 in Removed(s, kind)
  {
    var i :| 0 <= i < |s| && s[i] == 32;
    if i != IndexOf(s, 0) {
      assert Inserted(s, kind)[i] == 32;
    }
    if i != IndexOf(s, kind) {
      assert Removed(s, kind)[i] == 32;
    }
  }

  /** After a change is announced, a handler knows of it exactly if its queue had room for the
      announcement or nothing changed; all other views are as before. */
  lemma AnnouncedTo(m: Mesh, j: nat, s: Slots, k: nat, i: nat)
    requires Consistent(m) && j < |m.slots| && k < |m.slots| && i < |m.slots|
    ensures var r := Announced(m, j, s);
            && (i != j ==> View(r, k, i) == m.slots[i])
            && (View(r, k, j) == s <==> |m.queues[k]| < 32 || s == m.slots[j])
  {
    LastFromAppend(m.queues[k], Subscriptions(j, s), i, m.rows[k][i]);
    LastFromAppend(m.queues[k], Subscriptions(j, s), j, m.rows[k][j]);
    assert View(m, k, i) == m.slots[i] && View(m, k, j) == m.slots[j];
    assert 32 in m.rows[j][k];
  }

  lemma AnnouncedListening(m: Mesh, j: nat, s: Slots)
    requires Shape(m) && Listening(m) && j < |m.slots| && 32 in s
    ensures Listening(Announced(m, j, s))
  {
  }

  /** No queue is full when an announcement is made. */
  predicate Room(m: Mesh) {
    forall k :: 0 <= k < |m.queues| ==> |m.queues[k]| < 32
  }

  predicate Announces(s: Step) {
    s.DoRegister? || s.DoSubscribe? || s.DoUnsubscribe?
  }

  lemma AnnouncedConsistent(m: Mesh, j: nat, s: Slots)
    requires Consistent(m) && j < |m.slots| && 32 in s && Room(m)
    ensures Consistent(Announced(m, j, s))
  {
    AnnouncedListening(m, j, s);
    var r := Announced(m, j, s);
    forall k, i | 0 <= k < |m.slots| && 0 <= i < |m.slots|
      ensures View(r, k, i) == r.slots[i]
    {
      hide View;
      AnnouncedTo(m, j, s, k, i);
    }
  }

  lemma BroadcastConsistent(m: Mesh, j: nat, kind: nat)
    requires Consistent(m) && j < |m.slots|
    ensures Consistent(Broadcast(m, j, Other(kind)))
  {
    var r := Broadcast(m, j, Other(kind));
    forall k, i | 0 <= k < |m.slots| && 0 <= i < |m.slots|
      ensures View(r, k, i) == r.slots[i]
    {
      LastFromAppend(m.queues[k], Other(kind), i, m.rows[k][i]);
      assert View(m, k, i) == m.slots[i];
    }
  }

  lemma SendConsistent(m: Mesh, j: nat, kind: nat, to: nat)
    requires Consistent(m) && j < |m.slots| && to < |m.slots|
    ensures Consistent(Send(m, j, kind, to))
  {
    var r := Send(m, j, kind, to);
    forall k, i | 0 <= k < |m.slots| && 0 <= i < |m.slots|
      ensures View(r, k, i) == r.slots[i]
    {
      LastFromAppend(m.queues[k], Other(kind), i, m.rows[k][i]);
      assert View(m, k, i) == m.slots[i];
    }
  }

  lemma ReceiveConsistent(m: Mesh, k: nat)
    requires Consistent(m) && k < |m.slots|
    ensures Consistent(Receive(m, k))
  {
    var r := Receive(m, k);
    if m.queues[k] != [] {
      assert WellFormed(m.queues[k][0], |m.slots|);
      forall i, j | 0 <= i < |m.slots| && 0 <= j < |m.slots|
        ensures View(r, i, j) == r.slots[j]
      {
        assert View(m, i, j) == m.slots[j];
      }
    }
  }

  lemma StepConsistent(m: Mesh, s: Step)
    requires Consistent(m) && Allowed(|m.slots|, s)
    requires Announces(s) ==> Room(m)
    ensures Consistent(Next(m, s))
  {
    hide Consistent, Announced, Broadcast, Send, Receive, View;
    assert Shape(m) && Listening(m) && Informed(m) by {
      ConsistentParts(m);
    }
    if s.DoRegister? || s.DoSubscribe? || s.DoUnsubscribe? {
      var c := if s.DoRegister? && s.kind < 43 then m.(callbacks := m.callbacks[s.j := m.callbacks[s.j] + {s.kind}]) else m;
      MoreCallbacks(m, s.j, s.kind);
      InsertKeepsListening(m.slots[s.j], s.kind);
      AnnouncedConsistent(c, s.j, if s.DoUnsubscribe? then Removed(m.slots[s.j], s.kind) else Inserted(m.slots[s.j], s.kind));
    } else {
      match s {
        case DoReceive(k) => ReceiveConsistent(m, k);
        case DoSend(j, kind, to) => SendConsistent(m, j, kind, to);
        case DoSendToAll(j, kind) => BroadcastConsistent(m, j, kind);
      }
    }
  }

  lemma ConsistentParts(m: Mesh)
    requires Consistent(m)
    ensures Shape(m) && Listening(m) && Informed(m)
  {
  }

  lemma MoreCallbacks(m: Mesh, j: nat, kind: nat)
    requires Consistent(m) && j < |m.slots|
    ensures Consistent(m.(callbacks := m.callbacks[j := m.callbacks[j] + {kind}]))
  {
    var c := m.(callbacks := m.callbacks[j := m.callbacks[j] + {kind}]);
    forall k, i | 0 <= k < |m.slots| && 0 <= i < |m.slots|
      ensures View(c, k, i) == c.slots[i]
    {
      assert View(m, k, i) == m.slots[i];
    }
  }

  // ---------------------------------------------------------------- runs

  predicate AllAllowed(n: nat, steps: seq<Step>) {
    steps == [] || (Allowed(n, steps[0]) && AllAllowed(n, steps[1..]))
  }

  /** A run in which no queue is full when subscriptions are announced. */
  predicate NoLoss(m: Mesh, steps: seq<Step>): (r: bool)
    requires Shape(m)
    ensures r ==> AllAllowed(|m.slots|, steps)
    decreases |steps|
  {
    steps == [] ||
    (&& Allowed(|m.slots|, steps[0])
     && (Announces(steps[0]) ==> Room(m))
     && NoLoss(Next(m, steps[0]), steps[1..]))
  }

  function Run(m: Mesh, steps: seq<Step>): (r: Mesh)
    requires Shape(m) && AllAllowed(|m.slots|, steps)
    ensures Shape(r) && |r.slots| == |m.slots|
    decreases |steps|
  {
    if steps == [] then m else Run(Next(m, steps[0]), steps[1..])
  }

  /** In every run, what a handler believes of another, or will believe once the last message
      that waits is received, is true. */
  lemma {:induction false} RunConsistent(m: Mesh, steps: seq<Step>)
    requires Consistent(m) && NoLoss(m, steps)
    ensures Consistent(Run(m, steps))
    decreases |steps|
  {
    hide Consistent, Next;
    ConsistentParts(m);
    if steps != [] {
      StepConsistent(m, steps[0]);
      RunConsistent(Next(m, steps[0]), steps[1..]);
    }
  }

  predicate Quiet(q: seq<Message>) {
    forall i :: 0 <= i < |q| ==> q[i].Other?
  }

  lemma {:induction false} QuietLast(q: seq<Message>, j: nat, s: Slots)
    requires Quiet(q)
    ensures LastFrom(q, j, s) == s
    decreases |q|
  {
    if q != [] {
      QuietLast(q[1..], j, s);
    }
  }

  /** When no subscriptions wait anywhere, all tables are exact, and so all the same. */
  lemma TablesConverge(m: Mesh, steps: seq<Step>)
    requires Consistent(m) && NoLoss(m, steps)
    requires forall k :: 0 <= k < |m.slots| ==> Quiet(Run(m, steps).queues[k])
    ensures var r := Run(m, steps);
            && (forall k :: 0 <= k < |r.slots| ==> r.rows[k] == r.slots)
            && (forall k, i :: 0 <= k < |r.slots| && 0 <= i < |r.slots| ==> r.rows[k] == r.rows[i])
  {
    RunConsistent(m, steps);
    var r := Run(m, steps);
    hide Run;
    forall k, j | 0 <= k < |r.slots| && 0 <= j < |r.slots|
      ensures r.rows[k][j] == r.slots[j]
    {
      QuietLast(r.queues[k], j, r.rows[k][j]);
      assert View(r, k, j) == r.slots[j];
    }
    assert forall k :: 0 <= k < |r.slots| ==> r.rows[k] == r.slots;
  }

  /** Handler k receives until its queue is empty. */
  function Drained(m: Mesh, k: nat): (r: Mesh)
    requires Shape(m) && k < |m.slots|
    ensures Shape(r) && r.slots == m.slots && r.queues == m.queues[k := []]
    decreases |m.queues[k]|
  {
    if m.queues[k] == [] then m
    else
      var once := Receive(m, k);
      assert once.queues[k := []] == m.queues[k := []];
      Drained(once, k)
  }

  function AllDrained(m: Mesh, n: nat): (r: Mesh)
    requires Shape(m) && n <= |m.slots|
    ensures Shape(r) && r.slots == m.slots
    ensures forall k :: 0 <= k < n ==> r.queues[k] == []
  {
    if n == 0 then m else Drained(AllDrained(m, n - 1), n - 1)
  }

  lemma {:induction false} DrainedConsistent(m: Mesh, k: nat)
    requires Consistent(m) && k < |m.slots|
    ensures Consistent(Drained(m, k))
    decreases |m.queues[k]|
  {
    hide Consistent;
    ConsistentParts(m);
    if m.queues[k] != [] {
      ReceiveConsistent(m, k);
      DrainedConsistent(Receive(m, k), k);
    }
  }

  lemma {:induction false} AllDrainedConsistent(m: Mesh, n: nat)
    requires Consistent(m) && n <= |m.slots|
    ensures Consistent(AllDrained(m, n))
  {
    hide Consistent;
    ConsistentParts(m);
    if n > 0 {
      AllDrainedConsistent(m, n - 1);
      DrainedConsistent(AllDrained(m, n - 1), n - 1);
    }
  }

  /** From any state of any run, once every handler has emptied its queue every table is exact. */
  lemma DrainingConverges(m: Mesh, steps: seq<Step>)
    requires Consistent(m) && NoLoss(m, steps)
    ensures var r := AllDrained(Run(m, steps), |m.slots|);
            forall k :: 0 <= k < |r.slots| ==> r.rows[k] == r.slots == Run(m, steps).slots
  {
    RunConsistent(m, steps);
    AllDrainedConsistent(Run(m, steps), |m.slots|);
    var r := AllDrained(Run(m, steps), |m.slots|);
    hide Consistent, AllDrained, Run;
    assert NoLoss(r, []) && Run(r, []) == r by {
      NoSteps(r);
    }
    TablesConverge(r, []);
    assert r.slots == Run(m, steps).slots;
  }

  lemma NoSteps(m: Mesh)
    requires Shape(m)
    ensures NoLoss(m, []) && Run(m, []) == m
  {
  }

  /** With exact tables a message reaches exactly the handlers subscribed to its kind, whoever
      sends it. */
  lemma ReachesSubscribers(m: Mesh, j: nat, kind: nat, k: nat)
    requires Shape(m) && j < |m.slots| && k < |m.slots| && m.rows[j] == m.slots
    requires kind != 0 && kind != 32 && kind != 43 && |m.queues[k]| < 32
    ensures SendToAll(m, j, kind).queues[k] == m.queues[k] + [Other(kind)] <==> kind in m.slots[k]
    ensures SendToAll(m, j, kind).queues[k] == m.queues[k] <==> kind !in m.slots[k]
  {
    assert |m.queues[k] + [Other(kind)]| != |m.queues[k]|;
  }

  // ---------------------------------------------------------------- registration

  /** Event_InitHandler: the master adds the new handler to its own tables and gives everybody a
      copy of them. */
  function Registered(m: Mesh, s: Slots, callbacks: set<nat>): (r: Mesh)
    requires Shape(m) && |m.slots| > 0
    ensures Shape(r) && r.slots == m.slots + [s]
  {
    var tables := m.rows[0][0 := m.slots[0]] + [s];
    Mesh(m.slots + [s], seq(|m.slots| + 1, _ => tables), m.queues + [[]], m.callbacks + [callbacks])
  }

  lemma {:induction false} LastFromSettled(q: seq<Message>, j: nat, s: Slots, t: Slots)
    requires LastFrom(q, j, s) == t
    ensures LastFrom(q, j, t) == t
    decreases |q|
  {
    if q != [] && !(q[0].Subscriptions? && q[0].source == j) {
      LastFromSettled(q[1..], j, s, t);
    }
  }

  lemma {:induction false} StrangerLast(q: seq<Message>, n: nat, s: Slots)
    requires forall i :: 0 <= i < |q| ==> WellFormed(q[i], n)
    ensures LastFrom(q, n, s) == s
    decreases |q|
  {
    if q != [] {
      assert WellFormed(q[0], n);
      StrangerLast(q[1..], n, s);
    }
  }

  lemma RegisteredListening(m: Mesh, s: Slots, callbacks: set<nat>)
    requires Shape(m) && Listening(m) && |m.slots| > 0 && 32 in s && 32 in callbacks
    ensures Listening(Registered(m, s, callbacks))
  {
    var r := Registered(m, s, callbacks);
    forall k, i | 0 <= k < |r.slots| && 0 <= i < |r.queues[k]|
      ensures WellFormed(r.queues[k][i], |r.slots|)
    {
      assert WellFormed(m.queues[k][i], |m.slots|);
    }
  }

  /** Registering a handler keeps the tables consistent exactly if the master has received every
      announcement of the others: what it has not yet heard the newcomer will never hear. */
  lemma RegisteredConsistent(m: Mesh, s: Slots, callbacks: set<nat>)
    requires Consistent(m) && |m.slots| > 0 && 32 in s && 32 in callbacks
    ensures Consistent(Registered(m, s, callbacks)) <==> forall j :: 0 < j < |m.slots| ==> m.rows[0][j] == m.slots[j]
  {
    var n, r := |m.slots|, Registered(m, s, callbacks);
    RegisteredListening(m, s, callbacks);
    forall j | 0 <= j < n
      ensures View(r, n, j) == if j == 0 then m.slots[0] else m.rows[0][j]
    {
    }
    if forall j :: 0 < j < n ==> m.rows[0][j] == m.slots[j] {
      forall k, j | 0 <= k <= n && 0 <= j <= n
        ensures View(r, k, j) == r.slots[j]
      {
        if k < n && j < n {
          assert View(m, k, j) == m.slots[j];
          LastFromSettled(m.queues[k], j, m.rows[k][j], m.slots[j]);
        } else if k < n {
          StrangerLast(m.queues[k], n, s);
        }
      }
    } else {
      var j :| 0 < j < n && m.rows[0][j] != m.slots[j];
      assert View(r, n, j) != r.slots[j];
    }
  }

  /** No step announces anything of handler j. */
  predicate Silent(j: nat, steps: seq<Step>) {
    steps == [] || ((Announces(steps[0]) ==> steps[0].j != j) && Silent(j, steps[1..]))
  }

  lemma AnnouncedElsewhere(m: Mesh, i: nat, s: Slots, k: nat, j: nat)
    requires Shape(m) && i < |m.slots| && k < |m.slots| && j < |m.slots| && i != j
    ensures var r := Announced(m, i, s);
            View(r, k, j) == View(m, k, j) && r.slots[j] == m.slots[j] && r.callbacks == m.callbacks
  {
    LastFromAppend(m.queues[k], Subscriptions(i, s), j, m.rows[k][j]);
  }

  lemma OtherKeepsView(m: Mesh, s: Step, k: nat, j: nat)
    requires Shape(m) && Allowed(|m.slots|, s) && k < |m.slots| && j < |m.slots|
    requires s.DoSend? || s.DoSendToAll?
    ensures View(Next(m, s), k, j) == View(m, k, j) && Next(m, s).slots == m.slots && Next(m, s).callbacks == m.callbacks
  {
    LastFromAppend(m.queues[k], Other(s.kind), j, m.rows[k][j]);
  }

  lemma ReceiveKeepsView(m: Mesh, i: nat, k: nat, j: nat)
    requires Shape(m) && i < |m.slots| && k < |m.slots| && j < |m.slots| && 32 in m.callbacks[k]
    ensures var r := Receive(m, i);
            View(r, k, j) == View(m, k, j) && r.slots == m.slots && r.callbacks == m.callbacks
  {
  }

  /** Only j's own announcements change what k will believe of j. */
  lemma SilentStep(m: Mesh, s: Step, k: nat, j: nat)
    requires Shape(m) && Allowed(|m.slots|, s) && k < |m.slots| && j < |m.slots| && 32 in m.callbacks[k]
    requires Announces(s) ==> s.j != j
    ensures var r := Next(m, s);
            View(r, k, j) == View(m, k, j) && r.slots[j] == m.slots[j] && 32 in r.callbacks[k]
  {
    hide View, Announced, Receive, Inserted, Removed;
    if s.DoReceive? {
      ReceiveKeepsView(m, s.j, k, j);
    } else if s.DoSend? || s.DoSendToAll? {
      OtherKeepsView(m, s, k, j);
    } else {
      var c := if s.DoRegister? && s.kind < 43 then m.(callbacks := m.callbacks[s.j := m.callbacks[s.j] + {s.kind}]) else m;
      AnnouncedElsewhere(c, s.j, if s.DoUnsubscribe? then Removed(m.slots[s.j], s.kind) else Inserted(m.slots[s.j], s.kind), k, j);
      SameView(m, c, k, j);
    }
  }

  lemma SameView(m: Mesh, c: Mesh, k: nat, j: nat)
    requires Shape(m) && Shape(c) && k < |m.slots| == |c.slots| && j < |m.slots|
    requires c.queues == m.queues && c.rows == m.rows
    ensures View(c, k, j) == View(m, k, j)
  {
  }

  lemma {:induction false} SilentRun(m: Mesh, steps: seq<Step>, k: nat, j: nat)
    requires Shape(m) && AllAllowed(|m.slots|, steps) && Silent(j, steps)
    requires k < |m.slots| && j < |m.slots| && 32 in m.callbacks[k]
    ensures View(Run(m, steps), k, j) == View(m, k, j) && Run(m, steps).slots[j] == m.slots[j]
    decreases |steps|
  {
    hide Next, View;
    if steps != [] {
      SilentStep(m, steps[0], k, j);
      SilentRun(Next(m, steps[0]), steps[1..], k, j);
    }
  }

  /** A handler that subscribes to something new and another that registers before the master
      receives: in every run, lossy or not, the newcomer is and remains wrong about the first
      until that one announces something again. */
  lemma RegisteredTooEarly(m: Mesh, j: nat, kind: nat, s: Slots, callbacks: set<nat>, steps: seq<Step>)
    requires Consistent(m) && Room(m) && 0 < j < |m.slots| && kind in m.callbacks[j]
    requires m.rows[0][j] == m.slots[j] != Inserted(m.slots[j], kind)
    requires 32 in s && 32 in callbacks
    requires AllAllowed(|m.slots| + 1, steps) && Silent(j, steps)
    ensures var r := Run(Registered(Subscribe(m, j, kind), s, callbacks), steps);
            View(r, |m.slots|, j) == m.slots[j] != r.slots[j]
  {
    hide Consistent, Run, Inserted, Silent, AllAllowed;
    ConsistentParts(m);
    var before := Subscribe(m, j, kind);
    var after := Registered(before, s, callbacks);
    assert before.rows == m.rows && before.slots[j] == Inserted(m.slots[j], kind);
    assert View(after, |m.slots|, j) == m.slots[j];
    SilentRun(after, steps, |m.slots|, j);
  }

  // ---------------------------------------------------------------- the beginning

  /** The slots of a handler that was just created: Event_CreateHandler subscribes it to
      subscriptions. */
  function CreatedSlots(): (s: Slots)
    ensures |s| == 16
  {
    Inserted(seq(16, _ => 0), 32)
  }

  /** The master knows itself from its creation on. */
  function MasterAlone(): Mesh {
    Mesh([CreatedSlots()], [[CreatedSlots()]], [[]], [{32}])
  }

  lemma CreatedListens()
    ensures 32 in CreatedSlots()
  {
    var free: Slots := seq(16, _ => 0);
    assert free[0] == 0 && 32 !in free;
    assert Inserted(free, 32)[IndexOf(free, 0)] == 32;
  }

  /** A handler with the subscriptions and callbacks it has when it registers. */
  datatype Newcomer = Newcomer(slots: Slots, callbacks: set<nat>)

  /** The master and handlers that register with it one after the other. */
  function Assembled(news: seq<Newcomer>): (m: Mesh)
    ensures Shape(m) && |m.slots| == |news| + 1
    decreases |news|
  {
    if news == [] then MasterAlone()
    else
      var last := news[|news| - 1];
      Registered(Assembled(news[..|news| - 1]), last.slots, last.callbacks)
  }

  /** From there on all runs start: the master alone is consistent, and so is every segment that is
      assembled before anything is announced. */
  lemma {:induction false} AssembledConsistent(news: seq<Newcomer>)
    requires forall i :: 0 <= i < |news| ==> 32 in news[i].slots && 32 in news[i].callbacks
    ensures var m := Assembled(news);
            && Consistent(m)
            && m.rows[0] == m.slots
            && (forall k :: 0 <= k < |m.slots| ==> m.queues[k] == [])
    decreases |news|
  {
    if news == [] {
      hide Inserted;
      CreatedListens();
      var m := Assembled(news);
      assert m == MasterAlone();
      assert View(m, 0, 0) == CreatedSlots();
    } else {
      var before, last := Assembled(news[..|news| - 1]), news[|news| - 1];
      AssembledConsistent(news[..|news| - 1]);
      hide Consistent;
      RegisteredConsistent(before, last.slots, last.callbacks);
    }
  }
}
