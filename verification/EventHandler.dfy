/** The event handler objects of event_handler.c that carry out the subscription protocol. */
module EventHandler {
  import opened EventMesh

  /** A handler; its place among the registered handlers of the segment stands for its address. */
  class Handler {
    const subscriptions: array<nat>
    var handlerSubscriptions: seq<Slots>
    var eventQueue: seq<Message>
    var eventFcns: set<nat>

    constructor (slots: nat)
      ensures fresh(subscriptions) && subscriptions.Length == slots
      ensures subscriptions[..] == seq(slots, _ => 0) && eventQueue == [] && eventFcns == {}
    {
      subscriptions := new nat[slots](_ => 0);
      handlerSubscriptions, eventQueue, eventFcns := [], [], {};
    }

    /** A message is put into the queue of 32 unless that is full. */
    method SendToBack(msg: Message)
      modifies this`eventQueue
      ensures eventQueue == Enqueued(old(eventQueue), msg)
    {
      if |eventQueue| < 32 {
        eventQueue := eventQueue + [msg];
      }
    }

    /** The oldest message is taken from the queue and, if it is one of subscriptions, handled. */
    method TakeMessage()
      modifies this`eventQueue, this`handlerSubscriptions
      ensures eventQueue == QueueAfter(old(eventQueue))
      ensures handlerSubscriptions == RowsAfter(old(eventQueue), old(handlerSubscriptions), 32 in eventFcns)
    {
      if eventQueue == [] {
        return;
      }
      var msg := eventQueue[0];
      eventQueue := eventQueue[1..];
      if msg.Subscriptions? && 32 in eventFcns && msg.source < |handlerSubscriptions| {
        handlerSubscriptions := handlerSubscriptions[msg.source := msg.slots];
      }
    }

    /** Event_InsertSubscription. */
    method InsertSubscription(kind: nat) returns (ok: bool)
      modifies subscriptions
      ensures subscriptions[..] == Inserted(old(subscriptions[..]), kind)
      ensures ok == (kind in old(subscriptions[..]) || 0 in old(subscriptions[..]))
    {
      var already := SubscribedIn(subscriptions[..], kind);
      if already {
        return true;
      }
      ok := false;
      var i := 0;
      while i < subscriptions.Length
        invariant 0 <= i <= subscriptions.Length
        invariant subscriptions[..] == old(subscriptions[..])
        invariant forall j :: 0 <= j < i ==> subscriptions[j] != 0
      {
        if subscriptions[i] == 0 {
          FirstIndex(subscriptions[..], 0, i);
          subscriptions[i] := kind;
          assert subscriptions[..] == old(subscriptions[..])[i := kind];
          assert old(subscriptions[..])[i] == 0;
          return true;
        }
        i := i + 1;
      }
    }

    /** Event_RemoveSubscription. */
    method RemoveSubscription(kind: nat)
      modifies subscriptions
      ensures subscriptions[..] == Removed(old(subscriptions[..]), kind)
    {
      var i := 0;
      while i < subscriptions.Length
        invariant 0 <= i <= subscriptions.Length
        invariant subscriptions[..] == old(subscriptions[..])
        invariant forall j :: 0 <= j < i ==> subscriptions[j] != kind
      {
        if subscriptions[i] == kind {
          FirstIndex(subscriptions[..], kind, i);
          subscriptions[i] := 0;
          assert subscriptions[..] == old(subscriptions[..])[i := 0];
          break;
        }
        i := i + 1;
      }
    }
  }

  lemma FirstIndex(s: Slots, kind: nat, i: nat)
    requires i < |s| && s[i] == kind && forall j :: 0 <= j < i ==> s[j] != kind
    ensures IndexOf(s, kind) == i
  {
  }

  /** Event_IsSubscribed, on a handler's own slots or on a row of its tables. */
  method SubscribedIn(slots: Slots, kind: nat) returns (found: bool)
    ensures found == IsSubscribed(slots, kind)
  {
    found := false;
    for i := 0 to |slots|
      invariant !found && kind !in slots[..i]
    {
      if slots[i] == kind {
        found := true;
        break;
      }
    }
  }

  // ---------------------------------------------------------------- a segment of handlers

  ghost function Arrays(hs: seq<Handler>): set<object> {
    set i | 0 <= i < |hs| :: hs[i].subscriptions
  }

  /** The registered handlers are different objects that share nothing. */
  ghost predicate Segment(hs: seq<Handler>)
    reads hs
  {
    && (forall i, j :: 0 <= i < j < |hs| ==> hs[i] != hs[j] && hs[i].subscriptions != hs[j].subscriptions)
    && (forall i :: 0 <= i < |hs| ==> |hs[i].handlerSubscriptions| == |hs|)
  }

  ghost function SlotsOf(hs: seq<Handler>): (r: seq<Slots>)
    reads Arrays(hs)
    ensures |r| == |hs| && forall i :: 0 <= i < |hs| ==> r[i] == hs[i].subscriptions[..]
  {
    if hs == [] then []
    else
      assert forall i :: 0 <= i < |hs| - 1 ==> hs[..|hs| - 1][i].subscriptions == hs[i].subscriptions;
      SlotsOf(hs[..|hs| - 1]) + [hs[|hs| - 1].subscriptions[..]]
  }

  ghost function QueuesOf(hs: seq<Handler>): (q: seq<seq<Message>>)
    reads hs
    ensures |q| == |hs| && forall i :: 0 <= i < |hs| ==> q[i] == hs[i].eventQueue
  {
    seq(|hs|, i requires 0 <= i < |hs| reads hs => hs[i].eventQueue)
  }

  ghost function MeshOf(hs: seq<Handler>): (m: Mesh)
    reads hs, Arrays(hs)
    requires Segment(hs)
    ensures Shape(m) && |m.slots| == |hs|
  {
    Mesh(SlotsOf(hs),
      seq(|hs|, i requires 0 <= i < |hs| reads hs => hs[i].handlerSubscriptions),
      QueuesOf(hs),
      seq(|hs|, i requires 0 <= i < |hs| reads hs => hs[i].eventFcns))
  }

  function Delivered(q: seq<Message>, subscribed: bool, msg: Message): seq<Message> {
    if subscribed then Enqueued(q, msg) else q
  }

  /** The loop of Event_SendBCInternal. */
  method SendCopies(hs: seq<Handler>, rows: seq<Slots>, msg: Message)
    requires |rows| == |hs| && forall i, k :: 0 <= i < k < |hs| ==> hs[i] != hs[k]
    modifies hs`eventQueue
    ensures forall k :: 0 <= k < |hs| ==>
              hs[k].eventQueue == Delivered(old(hs[k].eventQueue), IsSubscribed(rows[k], KindOf(msg)), msg)
  {
    hide Enqueued;
    for i := 0 to |hs|
      invariant forall k :: 0 <= k < |hs| ==>
        hs[k].eventQueue == Delivered(old(hs[k].eventQueue), k < i && IsSubscribed(rows[k], KindOf(msg)), msg)
    {
      var subscribed := SubscribedIn(rows[i], KindOf(msg));
      if subscribed {
        hs[i].SendToBack(msg);
      }
    }
  }

  /** Event_SendBCInternal. */
  method SendBCInternal(hs: seq<Handler>, j: nat, msg: Message)
    requires Segment(hs) && j < |hs|
    modifies hs`eventQueue
    ensures Segment(hs)
    ensures MeshOf(hs) == Broadcast(old(MeshOf(hs)), j, msg)
  {
    hide Enqueued, MeshOf, Segment, Arrays;
    RowsOf(hs, j);
    SendCopies(hs, hs[j].handlerSubscriptions, msg);
    OnlyQueues(hs);
    assert QueuesOf(hs) == Broadcast(old(MeshOf(hs)), j, msg).queues;
  }

  lemma RowsOf(hs: seq<Handler>, j: nat)
    requires Segment(hs) && j < |hs|
    ensures MeshOf(hs).rows[j] == hs[j].handlerSubscriptions && MeshOf(hs).queues == QueuesOf(hs)
    ensures forall i, k :: 0 <= i < k < |hs| ==> hs[i] != hs[k]
  {
  }

  /** A change of queues is seen as one. */
  twostate lemma OnlyQueues(hs: seq<Handler>)
    requires old(Segment(hs))
    requires forall i :: 0 <= i < |hs| ==>
               && hs[i].handlerSubscriptions == old(hs[i].handlerSubscriptions) && hs[i].eventFcns == old(hs[i].eventFcns)
               && hs[i].subscriptions[..] == old(hs[i].subscriptions[..])
    ensures Segment(hs)
    ensures MeshOf(hs) == old(MeshOf(hs)).(queues := QueuesOf(hs))
  {
    assert SlotsOf(hs) == old(SlotsOf(hs));
  }

  /** Event_Subscribe. */
  method Subscribe(hs: seq<Handler>, j: nat, kind: nat)
    requires Segment(hs) && j < |hs|
    modifies hs, hs[j].subscriptions
    ensures Segment(hs)
    ensures MeshOf(hs) == EventMesh.Subscribe(old(MeshOf(hs)), j, kind)
  {
    hide Broadcast, Inserted;
    if kind !in hs[j].eventFcns {
      return;
    }
    var ok := hs[j].InsertSubscription(kind);
    assert SlotsOf(hs) == old(SlotsOf(hs))[j := hs[j].subscriptions[..]];
    assert MeshOf(hs) == old(MeshOf(hs)).(slots := SlotsOf(hs));
    SendBCInternal(hs, j, Subscriptions(j, hs[j].subscriptions[..]));
  }

  /** Event_Unsubscribe. */
  method Unsubscribe(hs: seq<Handler>, j: nat, kind: nat)
    requires Segment(hs) && j < |hs|
    modifies hs, hs[j].subscriptions
    ensures Segment(hs)
    ensures MeshOf(hs) == EventMesh.Unsubscribe(old(MeshOf(hs)), j, kind)
  {
    hide Broadcast, Removed;
    if kind !in hs[j].eventFcns {
      return;
    }
    hs[j].RemoveSubscription(kind);
    assert SlotsOf(hs) == old(SlotsOf(hs))[j := hs[j].subscriptions[..]];
    assert MeshOf(hs) == old(MeshOf(hs)).(slots := SlotsOf(hs));
    SendBCInternal(hs, j, Subscriptions(j, hs[j].subscriptions[..]));
  }

  lemma HandlerOf(hs: seq<Handler>, k: nat)
    requires Segment(hs) && k < |hs|
    ensures var m := MeshOf(hs);
            && m.rows[k] == hs[k].handlerSubscriptions && m.queues[k] == hs[k].eventQueue
            && m.callbacks[k] == hs[k].eventFcns && |m.slots| == |hs| == |hs[k].handlerSubscriptions|
    ensures forall i :: 0 <= i < |hs| && i != k ==> hs[i] != hs[k]
  {
  }

  /** Receiving changes the queue and the tables of the receiver alone. */
  lemma ReceiveChanges(m: Mesh, k: nat)
    requires Shape(m) && k < |m.slots|
    ensures EventMesh.Receive(m, k)
         == m.(rows := m.rows[k := RowsAfter(m.queues[k], m.rows[k], 32 in m.callbacks[k])],
               queues := m.queues[k := QueueAfter(m.queues[k])])
  {
    assert m.rows[k := m.rows[k]] == m.rows && m.queues[k := m.queues[k]] == m.queues;
  }

  function QueueAfter(q: seq<Message>): seq<Message> {
    if q == [] then [] else q[1..]
  }

  /** Subscription messages of registered handlers are taken over by a handler that listens. */
  function RowsAfter(q: seq<Message>, rows: seq<Slots>, listens: bool): (r: seq<Slots>)
    ensures |r| == |rows|
  {
    if q != [] && q[0].Subscriptions? && listens && q[0].source < |rows| then rows[q[0].source := q[0].slots] else rows
  }

  /** Event_Receive, with Event_SubscriptionReq for subscription messages. */
  method Receive(hs: seq<Handler>, k: nat)
    requires Segment(hs) && k < |hs|
    modifies hs[k]
    ensures Segment(hs)
    ensures MeshOf(hs) == EventMesh.Receive(old(MeshOf(hs)), k)
  {
    hide Arrays;
    HandlerOf(hs, k);
    ReceiveChanges(MeshOf(hs), k);
    var h := hs[k];
    h.TakeMessage();
    assert forall i :: 0 <= i < |hs| && i != k ==> hs[i].handlerSubscriptions == old(hs[i].handlerSubscriptions);
  }
}
