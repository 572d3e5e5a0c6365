/** Who is subscribed to what after a run, and whom a message reaches then: the slots of a handler
    are a set of types with limited room, which only its own subscriptions change. */
module EventTypes {
  import opened EventMesh

  // ---------------------------------------------------------------- slots as a set

  /** The types in the slots. */
  function Types(s: Slots): set<nat> {
    set i | 0 <= i < |s| && s[i] != 0 :: s[i]
  }

  lemma TypesAre(s: Slots, kind: nat)
    ensures kind in Types(s) <==> kind != 0 && IsSubscribed(s, kind)
  {
    if kind != 0 && IsSubscribed(s, kind) {
      var i :| 0 <= i < |s| && s[i] == kind;
      assert s[i] in Types(s);
    }
  }

  lemma TypesLast(s: Slots, x: nat)
    ensures Types(s + [x]) == if x == 0 then Types(s) else Types(s) + {x}
  {
    var t := s + [x];
    assert t[|s|] == x;
    forall kind
      ensures kind in Types(t) <==> kind in Types(s) || (kind == x && x != 0)
    {
      TypesAre(s, kind);
      TypesAre(t, kind);
      if kind in Types(s) {
        var i :| 0 <= i < |s| && s[i] == kind;
        assert t[i] == kind;
      }
    }
  }

  /** As many as are not zero; all slots are taken if no slot is zero. */
  lemma {:induction false} TypesCount(s: Slots)
    requires NoDuplicates(s)
    ensures |Types(s)| <= |s| && (|Types(s)| < |s| <==> IsSubscribed(s, 0))
    decreases |s|
  {
    if s != [] {
      var t, x := s[..|s| - 1], s[|s| - 1];
      assert s == t + [x];
      TypesLast(t, x);
      TypesCount(t);
      TypesAre(t, x);
      assert IsSubscribed(s, 0) <==> IsSubscribed(t, 0) || x == 0;
    }
  }

  /** A set with room for some types takes one more. */
  function Added(types: set<nat>, room: nat, kind: nat): set<nat> {
    if kind != 0 && |types| < room then types + {kind} else types
  }

  lemma NothingInserted(s: Slots)
    ensures Inserted(s, 0) == s
  {
  }

  lemma TypesInserted(s: Slots, kind: nat)
    requires NoDuplicates(s)
    ensures NoDuplicates(Inserted(s, kind))
    ensures Types(Inserted(s, kind)) == Added(Types(s), |s|, kind)
  {
    hide Types, Inserted, NoDuplicates, IsSubscribed;
    NothingInserted(s);
    TypesCount(s);
    TypesAre(s, kind);
    if kind != 0 {
      InsertedMembers(s, kind, 1);
      forall other: nat
        ensures other in Types(Inserted(s, kind)) <==> other in Added(Types(s), |s|, kind)
      {
        TypesAre(s, other);
        TypesAre(Inserted(s, kind), other);
        FreeSlot(s);
        if other != 0 {
          InsertedMembers(s, kind, other);
        }
      }
    }
  }

  lemma FreeSlot(s: Slots)
    ensures 0 in s <==> IsSubscribed(s, 0)
  {
  }

  lemma TypesRemoved(s: Slots, kind: nat)
    requires NoDuplicates(s)
    ensures NoDuplicates(Removed(s, kind))
    ensures Types(Removed(s, kind)) == Types(s) - {kind}
  {
    RemovedMembers(s, kind, 1);
    forall other: nat
      ensures other in Types(Removed(s, kind)) <==> other in Types(s) - {kind}
    {
      TypesAre(s, other);
      TypesAre(Removed(s, kind), other);
      if other != 0 {
        RemovedMembers(s, kind, other);
      }
    }
  }

  // ---------------------------------------------------------------- what the operations do

  /** Only handler j's slots and what others may have heard of them can be different. */
  predicate OnlySlotsOf(m: Mesh, r: Mesh, j: nat)
    requires Shape(m) && j < |m.slots|
  {
    && Shape(r) && |r.slots| == |m.slots| && r.rows == m.rows && r.callbacks == m.callbacks
    && forall i :: 0 <= i < |m.slots| && i != j ==> r.slots[i] == m.slots[i]
  }

  /** Everyone that j believes to listen, and that has room, gets j's slots. */
  predicate Tells(m: Mesh, r: Mesh, j: nat)
    requires Shape(m) && Shape(r) && |r.slots| == |m.slots| && j < |m.slots|
  {
    forall k :: 0 <= k < |m.slots| ==>
      r.queues[k] == m.queues[k] + if 32 in m.rows[j][k] && |m.queues[k]| < 32 then [Subscriptions(j, r.slots[j])] else []
  }

  /** Event_Subscribe: without a callback nothing happens. With one, the handler is subscribed to
      what it was and to the type if there was a slot, and tells everyone. */
  lemma SubscribeDoes(m: Mesh, j: nat, kind: nat, other: nat)
    requires Shape(m) && j < |m.slots| && NoDuplicates(m.slots[j]) && kind != 0 && other != 0
    ensures var r := Subscribe(m, j, kind);
            && (kind !in m.callbacks[j] ==> r == m)
            && (kind in m.callbacks[j] ==>
                 && OnlySlotsOf(m, r, j) && Tells(m, r, j) && NoDuplicates(r.slots[j])
                 && (other in r.slots[j] <==> other in m.slots[j] || (other == kind && 0 in m.slots[j])))
  {
    InsertedMembers(m.slots[j], kind, other);
    hide Inserted;
  }

  /** Event_Unsubscribe: without a callback nothing happens. With one, the handler is subscribed to
      what it was but for the type, and tells everyone. */
  lemma UnsubscribeDoes(m: Mesh, j: nat, kind: nat, other: nat)
    requires Shape(m) && j < |m.slots| && NoDuplicates(m.slots[j]) && other != 0
    ensures var r := Unsubscribe(m, j, kind);
            && (kind !in m.callbacks[j] ==> r == m)
            && (kind in m.callbacks[j] ==>
                 && OnlySlotsOf(m, r, j) && Tells(m, r, j) && NoDuplicates(r.slots[j])
                 && (other in r.slots[j] <==> other in m.slots[j] && other != kind))
  {
    RemovedMembers(m.slots[j], kind, other);
    hide Removed;
  }

  /** Event_RegisterCallback: a type that exists gets a callback and is subscribed to. */
  lemma RegisterDoes(m: Mesh, j: nat, kind: nat, other: nat)
    requires Shape(m) && j < |m.slots| && NoDuplicates(m.slots[j]) && kind != 0 && other != 0
    ensures var r := RegisterCallback(m, j, kind);
            && (kind >= 43 ==> r == m)
            && (kind < 43 ==>
                 && (other in r.callbacks[j] <==> other in m.callbacks[j] || other == kind)
                 && (other in r.slots[j] <==> other in m.slots[j] || (other == kind && 0 in m.slots[j]))
                 && OnlySlotsOf(m.(callbacks := r.callbacks), r, j) && Tells(m, r, j) && NoDuplicates(r.slots[j]))
  {
    var c := m.(callbacks := m.callbacks[j := m.callbacks[j] + {kind}]);
    SubscribeDoes(c, j, kind, other);
    hide Subscribe;
  }

  /** A message to one handler gets there exactly if the sender believes it to be subscribed and it
      has room; no type, subscriptions and the end mark are never sent. Nothing else changes. */
  lemma SendDoes(m: Mesh, j: nat, kind: nat, to: nat, k: nat)
    requires Shape(m) && j < |m.slots| && to < |m.slots| && k < |m.slots|
    ensures var r := Send(m, j, kind, to);
            && r == m.(queues := r.queues)
            && r.queues[k] == m.queues[k] +
                 if k == to && kind !in {0, 32, 43} && kind in m.rows[j][to] && |m.queues[to]| < 32 then [Other(kind)] else []
  {
  }

  /** And so does a message to all. */
  lemma SendToAllDoes(m: Mesh, j: nat, kind: nat, k: nat)
    requires Shape(m) && j < |m.slots| && k < |m.slots|
    ensures var r := SendToAll(m, j, kind);
            && r == m.(queues := r.queues)
            && r.queues[k] == m.queues[k] +
                 if kind !in {0, 32, 43} && kind in m.rows[j][k] && |m.queues[k]| < 32 then [Other(kind)] else []
  {
  }

  /** Event_Receive takes the oldest message out of the queue. If it is one of subscriptions, from a
      registered handler, and there is a callback for these, the slots go into the receiver's table. */
  lemma ReceiveDoes(m: Mesh, k: nat, i: nat, j: nat)
    requires Shape(m) && k < |m.slots| && i < |m.slots| && j < |m.slots|
    ensures var r := Receive(m, k);
            && r.slots == m.slots && r.callbacks == m.callbacks
            && r.queues[i] == (if i == k && m.queues[k] != [] then m.queues[k][1..] else m.queues[i])
            && r.rows[i][j] == if i == k && m.queues[k] != [] && m.queues[k][0] == Subscriptions(j, SlotsIn(m.queues[k][0])) && 32 in m.callbacks[k]
                               then SlotsIn(m.queues[k][0]) else m.rows[i][j]
  {
  }

  function SlotsIn(msg: Message): Slots {
    if msg.Subscriptions? then msg.slots else []
  }

  // ---------------------------------------------------------------- runs

  /** The types a handler is subscribed to and those it has a callback for. */
  datatype Interest = Interest(types: set<nat>, callbacks: set<nat>)

  /** What a step does to the interest of handler j, which has room for some types. */
  function InterestAfter(i: Interest, room: nat, j: nat, s: Step): Interest {
    match s
    case DoRegister(k, kind) =>
      if k == j && kind < 43 then Interest(Added(i.types, room, kind), i.callbacks + {kind}) else i
    case DoSubscribe(k, kind) =>
      if k == j && kind in i.callbacks then i.(types := Added(i.types, room, kind)) else i
    case DoUnsubscribe(k, kind) =>
      if k == j && kind in i.callbacks then i.(types := i.types - {kind}) else i
    case _ => i
  }

  function InterestAfterAll(i: Interest, room: nat, j: nat, steps: seq<Step>): Interest
    decreases |steps|
  {
    if steps == [] then i else InterestAfterAll(InterestAfter(i, room, j, steps[0]), room, j, steps[1..])
  }

  function InterestOf(m: Mesh, j: nat): Interest
    requires Shape(m) && j < |m.slots|
  {
    Interest(Types(m.slots[j]), m.callbacks[j])
  }

  lemma StepInterest(m: Mesh, s: Step, j: nat)
    requires Shape(m) && Allowed(|m.slots|, s) && j < |m.slots| && NoDuplicates(m.slots[j])
    ensures NoDuplicates(Next(m, s).slots[j]) && |Next(m, s).slots[j]| == |m.slots[j]|
    ensures InterestOf(Next(m, s), j) == InterestAfter(InterestOf(m, j), |m.slots[j]|, j, s)
  {
    if Announces(s) && s.j == j {
      TypesInserted(m.slots[j], s.kind);
      TypesRemoved(m.slots[j], s.kind);
    }
    hide NoDuplicates, Inserted, Removed, Types, Added;
  }

  /** In every run, lossy or not, what a handler is subscribed to follows from its own calls. */
  lemma {:induction false} RunInterest(m: Mesh, steps: seq<Step>, j: nat)
    requires Shape(m) && AllAllowed(|m.slots|, steps) && j < |m.slots| && NoDuplicates(m.slots[j])
    ensures NoDuplicates(Run(m, steps).slots[j])
    ensures InterestOf(Run(m, steps), j) == InterestAfterAll(InterestOf(m, j), |m.slots[j]|, j, steps)
    decreases |steps|
  {
    hide Next, NoDuplicates, InterestOf, InterestAfter;
    if steps != [] {
      StepInterest(m, steps[0], j);
      RunInterest(Next(m, steps[0]), steps[1..], j);
    }
  }

  /** After every run without loss, once all queues are emptied, a message that anyone sends to all
      reaches exactly the handlers whose own calls have left them subscribed to its type. */
  lemma {:induction false} RunReaches(m: Mesh, steps: seq<Step>, i: nat, kind: nat, k: nat)
    requires Consistent(m) && NoLoss(m, steps) && i < |m.slots| && k < |m.slots| && NoDuplicates(m.slots[k])
    requires kind !in {0, 32, 43}
    ensures SendToAll(AllDrained(Run(m, steps), |m.slots|), i, kind).queues[k]
         == if kind in InterestAfterAll(InterestOf(m, k), |m.slots[k]|, k, steps).types then [Other(kind)] else []
  {
    hide Run, AllDrained, InterestAfterAll, Types, SendToAll, Consistent, NoLoss;
    ConsistentParts(m);
    RunInterest(m, steps, k);
    Emptied(m, steps, i, k);
    TypesAre(Run(m, steps).slots[k], kind);
    SendToAllDoes(AllDrained(Run(m, steps), |m.slots|), i, kind, k);
    assert [] + [Other(kind)] == [Other(kind)];
  }

  lemma {:induction false} Emptied(m: Mesh, steps: seq<Step>, i: nat, k: nat)
    requires Consistent(m) && NoLoss(m, steps) && i < |m.slots| && k < |m.slots|
    ensures var r := AllDrained(Run(m, steps), |m.slots|);
            |r.slots| == |m.slots| && r.rows[i] == Run(m, steps).slots && r.queues[k] == []
  {
    hide Run, AllDrained, Consistent, NoLoss;
    ConsistentParts(m);
    DrainingConverges(m, steps);
  }

  /** In particular a type that a handler has unsubscribed from last does not reach it any more, and
      one that it has subscribed to last does if there was a slot. */
  lemma {:induction false} LastCall(m: Mesh, steps: seq<Step>, i: nat, kind: nat, k: nat)
    requires Consistent(m) && i < |m.slots| && k < |m.slots| && NoDuplicates(m.slots[k])
    requires kind !in {0, 32, 43}
    ensures NoLoss(m, steps + [DoUnsubscribe(k, kind)]) && kind in InterestAfterAll(InterestOf(m, k), |m.slots[k]|, k, steps).callbacks ==>
              SendToAll(AllDrained(Run(m, steps + [DoUnsubscribe(k, kind)]), |m.slots|), i, kind).queues[k] == []
    ensures NoLoss(m, steps + [DoSubscribe(k, kind)]) && kind in InterestAfterAll(InterestOf(m, k), |m.slots[k]|, k, steps).callbacks
            && |InterestAfterAll(InterestOf(m, k), |m.slots[k]|, k, steps).types| < |m.slots[k]| ==>
              SendToAll(AllDrained(Run(m, steps + [DoSubscribe(k, kind)]), |m.slots|), i, kind).queues[k] == [Other(kind)]
  {
    hide Consistent, NoLoss, SendToAll, AllDrained, Run, InterestAfterAll, InterestOf;
    ConsistentParts(m);
    var start, room := InterestOf(m, k), |m.slots[k]|;
    InterestMore(start, room, k, steps, DoUnsubscribe(k, kind));
    InterestMore(start, room, k, steps, DoSubscribe(k, kind));
    if NoLoss(m, steps + [DoUnsubscribe(k, kind)]) {
      RunReaches(m, steps + [DoUnsubscribe(k, kind)], i, kind, k);
    }
    if NoLoss(m, steps + [DoSubscribe(k, kind)]) {
      RunReaches(m, steps + [DoSubscribe(k, kind)], i, kind, k);
    }
  }

  lemma {:induction false} InterestMore(i: Interest, room: nat, j: nat, steps: seq<Step>, s: Step)
    ensures InterestAfterAll(i, room, j, steps + [s]) == InterestAfter(InterestAfterAll(i, room, j, steps), room, j, s)
    decreases |steps|
  {
    hide InterestAfter;
    if steps == [] {
      assert [] + [s] == [s] && [s][1..] == [];
    } else {
      assert (steps + [s])[1..] == steps[1..] + [s];
      InterestMore(InterestAfter(i, room, j, steps[0]), room, j, steps[1..], s);
    }
  }
}
