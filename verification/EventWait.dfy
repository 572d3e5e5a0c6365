/** Waiting for an event (Event_WaitForEvent): events of other types that come in meanwhile are
    parked in a ring of sixteen and looked at again, in order, by the next wait. */
module EventWait {
  import opened CharCircularBuffer

  // BUFFER_SIZE is 16.

  datatype Event = Event(kind: nat, payload: int)

  // ---------------------------------------------------------------- the ring

  /** The circular buffer of event_circular_buffer.c, a bounded queue. */
  class EventRing {
    const buffer: array<Event>
    var count: nat
    var head: nat
    var tail: nat

    ghost predicate Valid()
      reads this
    {
      buffer.Length == 16 && count <= 16 && tail < 16 && head == WindowEnd(16, tail, count)
    }

    /** The parked events, oldest first. */
    ghost function Contents(): (s: seq<Event>)
      requires Valid()
      reads this, buffer
      ensures |s| == count
    {
      Window(buffer[..], tail, count)
    }

    constructor ()
      ensures Valid() && Contents() == [] && fresh(buffer)
    {
      buffer := new Event[16](_ => Event(0, 0));
      count, head, tail := 0, 0, 0;
    }

    method PushBack(e: Event) returns (ok: bool)
      requires Valid()
      modifies this`count, this`head, buffer
      ensures Valid()
      ensures ok == (old(count) < 16)
      ensures Contents() == if ok then old(Contents()) + [e] else old(Contents())
    {
      if count == 16 {
        return false;
      }
      hide Window;
      WindowGrows(buffer[..], tail, count, [e]);
      buffer[head] := e;
      assert buffer[..] == Overwrite(old(buffer[..]), head, [e]);
      head := head + 1;
      head := head % 16;
      count := count + 1;
      ok := true;
    }

    method PopFront() returns (ok: bool, e: Event)
      requires Valid()
      modifies this`count, this`tail
      ensures Valid()
      ensures ok == (old(count) > 0)
      ensures ok ==> e == old(Contents())[0] && Contents() == old(Contents())[1..]
      ensures !ok ==> Contents() == old(Contents())
    {
      e := Event(0, 0);
      if count == 0 {
        return false, e;
      }
      hide Window, WindowEnd;
      WindowShrinks(buffer[..], tail, count, 1);
      e := buffer[tail];
      assert Contents()[..1][0] == e;
      tail := tail + 1;
      tail := tail % 16;
      count := count - 1;
      ok := true;
    }
  }

  // ---------------------------------------------------------------- what a wait does

  /** What is waited for, whether other events are parked, and the types that have a callback. */
  datatype Wait = Wait(event: nat, parking: bool, callbacks: set<nat>)

  /** The parked events, the events whose callbacks have run, and how many matched. */
  datatype State = State(parked: seq<Event>, fired: seq<Event>, found: nat)

  /** A state, and the event that was dropped if the wait has to give up there. */
  datatype Outcome = Outcome(st: State, lost: seq<Event>)

  function Fire(st: State, e: Event, w: Wait): Outcome {
    if e.kind in w.callbacks then Outcome(st.(fired := st.fired + [e]), []) else Outcome(st, [e])
  }

  /** Event_FireOrBufferEvent. */
  function Handle(st: State, e: Event, w: Wait): Outcome {
    if e.kind == w.event then Fire(st.(found := st.found + 1), e, w)
    else if !w.parking then Fire(st, e, w)
    else if |st.parked| < 16 then Outcome(st.(parked := st.parked + [e]), [])
    else Outcome(st, [e])
  }

  /** Take the first n parked events out one after the other and handle each. */
  function Revisit(st: State, n: nat, w: Wait): (r: Outcome)
    requires n <= |st.parked| <= 16
    ensures |r.st.parked| <= 16
    ensures r.st.found <= st.found + n
    decreases n
  {
    if n == 0 then Outcome(st, [])
    else
      var r := Handle(st.(parked := st.parked[1..]), st.parked[0], w);
      if r.lost != [] then r else Revisit(r.st, n - 1, w)
  }

  /** Handle received events one after the other, up to the first that is dropped. */
  function Take(st: State, events: seq<Event>, w: Wait): (r: Outcome)
    decreases |events|
  {
    if events == [] then Outcome(st, [])
    else
      var r := Handle(st, events[0], w);
      if r.lost != [] then r else Take(r.st, events[1..], w)
  }

  lemma RevisitTurn(st: State, n: nat, w: Wait)
    requires 0 < n <= |st.parked| <= 16
    ensures var h := Handle(st.(parked := st.parked[1..]), st.parked[0], w);
            |h.st.parked| <= 16 && n - 1 <= |h.st.parked| + |h.lost| && |h.lost| <= 1
    ensures var h := Handle(st.(parked := st.parked[1..]), st.parked[0], w);
            h.lost == [] ==> Revisit(st, n, w) == Revisit(h.st, n - 1, w)
  {
  }

  lemma {:induction false} TakeOneMore(st: State, events: seq<Event>, e: Event, w: Wait)
    requires Take(st, events, w).lost == []
    ensures Take(st, events + [e], w) == Handle(Take(st, events, w).st, e, w)
    decreases |events|
  {
    if events == [] {
      assert events + [e] == [e];
      assert [e][1..] == [];
    } else {
      assert (events + [e])[1..] == events[1..] + [e];
      TakeOneMore(Handle(st, events[0], w).st, events[1..], e, w);
    }
  }

  // ---------------------------------------------------------------- order and conservation

  /** The events of a type, or those of all other types. */
  function Select(s: seq<Event>, kind: nat, same: bool): (r: seq<Event>)
    ensures |r| <= |s|
  {
    if s == [] then []
    else if (s[0].kind == kind) == same then [s[0]] + Select(s[1..], kind, same)
    else Select(s[1..], kind, same)
  }

  function Matching(s: seq<Event>, kind: nat): seq<Event> {
    Select(s, kind, true)
  }

  function Others(s: seq<Event>, kind: nat): seq<Event> {
    Select(s, kind, false)
  }

  lemma {:induction false} SelectAppend(a: seq<Event>, b: seq<Event>, kind: nat, same: bool)
    ensures Select(a + b, kind, same) == Select(a, kind, same) + Select(b, kind, same)
    decreases |a|
  {
    if a == [] {
      assert a + b == b;
    } else {
      assert (a + b)[1..] == a[1..] + b;
      SelectAppend(a[1..], b, kind, same);
    }
  }

  /** A callback is run for an event that is waited for, and for every event if none is parked. */
  predicate Handled(e: Event, w: Wait) {
    e.kind == w.event || !w.parking ==> e.kind in w.callbacks
  }

  predicate AllHandled(s: seq<Event>, w: Wait) {
    forall i :: 0 <= i < |s| ==> Handled(s[i], w)
  }

  /** Going once through the parked events fires the matching ones in order and leaves the
      others parked in order. */
  lemma {:induction false} RevisitSplits(st: State, n: nat, w: Wait)
    requires n <= |st.parked| <= 16 && w.parking && AllHandled(st.parked[..n], w)
    ensures var r := Revisit(st, n, w);
            && r.lost == []
            && r.st.fired == st.fired + Matching(st.parked[..n], w.event)
            && r.st.parked == st.parked[n..] + Others(st.parked[..n], w.event)
            && r.st.found == st.found + |Matching(st.parked[..n], w.event)|
    decreases n
  {
    if n > 0 {
      hide Handle, Select, Revisit, AllHandled;
      FrontHandled(st.parked, n, w);
      var e, s := st.parked[0], st.parked[..n];
      RevisitTurn(st, n, w);
      var h := Handle(st.(parked := st.parked[1..]), e, w);
      HandleSplits(st.(parked := st.parked[1..]), e, w);
      var more := if e.kind == w.event then [] else [e];
      Rotated(st.parked, n, more);
      RevisitSplits(h.st, n - 1, w);
      SelectFirst(s, w.event);
    }
  }

  /** An event whose callback there is, if it is waited for, while there is room to park it. */
  lemma HandleSplits(st: State, e: Event, w: Wait)
    requires |st.parked| < 16 && w.parking && Handled(e, w)
    ensures var r := Handle(st, e, w);
            && r.lost == []
            && r.st.fired == st.fired + (if e.kind == w.event then [e] else [])
            && r.st.parked == st.parked + (if e.kind == w.event then [] else [e])
            && r.st.found == st.found + (if e.kind == w.event then 1 else 0)
  {
  }

  lemma FrontHandled(s: seq<Event>, n: nat, w: Wait)
    requires 0 < n <= |s| && AllHandled(s[..n], w)
    ensures Handled(s[0], w) && AllHandled(s[1..][..n - 1], w)
    ensures s[..n] == [s[0]] + s[1..][..n - 1] && s[..n][1..] == s[1..][..n - 1] && s[n..] == s[1..][n - 1..]
  {
    assert s[..n][0] == s[0] && forall i :: 0 <= i < n - 1 ==> s[1..][i] == s[..n][i + 1];
  }

  lemma Rotated(s: seq<Event>, n: nat, more: seq<Event>)
    requires 0 < n <= |s|
    ensures (s[1..] + more)[..n - 1] == s[1..][..n - 1]
    ensures (s[1..] + more)[n - 1..] == s[n..] + more
  {
  }

  lemma SelectFirst(s: seq<Event>, kind: nat)
    requires s != []
    ensures Matching(s, kind) == (if s[0].kind == kind then [s[0]] else []) + Matching(s[1..], kind)
    ensures Others(s, kind) == (if s[0].kind == kind then [] else [s[0]]) + Others(s[1..], kind)
  {
  }

  /** Received events: as long as the ring does not fill, the matching ones are fired and the
      others parked, each in order; the event that does not fit is the only one lost. */
  lemma {:induction false} TakeSplits(st: State, events: seq<Event>, w: Wait)
    requires |st.parked| <= 16 && w.parking && AllHandled(events, w)
    ensures var r := Take(st, events, w);
            && (r.lost == [] <==> |st.parked| + |Others(events, w.event)| <= 16)
            && (r.lost == [] ==> r.st.fired == st.fired + Matching(events, w.event))
            && (r.lost == [] ==> r.st.parked == st.parked + Others(events, w.event))
            && (r.lost == [] ==> r.st.found == st.found + |Matching(events, w.event)|)
    decreases |events|
  {
    if events != [] {
      var r := Handle(st, events[0], w);
      assert Handled(events[0], w);
      if r.lost == [] {
        TakeSplits(r.st, events[1..], w);
      }
    }
  }

  /** Without parking every event is fired in the order it was parked or received. */
  lemma {:induction false} TakeAll(st: State, events: seq<Event>, w: Wait)
    requires !w.parking && AllHandled(events, w)
    ensures var r := Take(st, events, w);
            && r.lost == [] && r.st.parked == st.parked && r.st.fired == st.fired + events
            && r.st.found == st.found + |Matching(events, w.event)|
    decreases |events|
  {
    if events != [] {
      assert Handled(events[0], w);
      assert events == [events[0]] + events[1..];
      TakeAll(Handle(st, events[0], w).st, events[1..], w);
    }
  }

  lemma {:induction false} RevisitAll(st: State, n: nat, w: Wait)
    requires n <= |st.parked| <= 16 && !w.parking && AllHandled(st.parked[..n], w)
    ensures var r := Revisit(st, n, w);
            r.lost == [] && r.st.parked == st.parked[n..] && r.st.fired == st.fired + st.parked[..n]
    decreases n
  {
    hide Handle, Revisit, AllHandled;
    if n == 0 {
      RevisitNone(st, w);
    } else {
      FrontHandled(st.parked, n, w);
      RevisitTurn(st, n, w);
      var e, q := st.parked[0], st.parked[1..];
      var h := Handle(st.(parked := q), e, w);
      HandleFires(st.(parked := q), e, w);
      RevisitAll(h.st, n - 1, w);
    }
  }

  lemma RevisitNone(st: State, w: Wait)
    requires |st.parked| <= 16
    ensures Revisit(st, 0, w) == Outcome(st, [])
  {
  }

  lemma HandleFires(st: State, e: Event, w: Wait)
    requires !w.parking && Handled(e, w)
    ensures var r := Handle(st, e, w);
            r.lost == [] && r.st.parked == st.parked && r.st.fired == st.fired + [e]
  {
  }

  function Waited(st: State, events: seq<Event>, w: Wait): Outcome
    requires |st.parked| <= 16
  {
    var r := Revisit(st, |st.parked|, w);
    if r.lost != [] then r else Take(r.st, events, w)
  }

  /** A whole wait: what is fired and what stays parked are the matching and the other events of
      the old parked events followed by the received ones, in order, as long as they fit. */
  lemma WaitSplits(st: State, events: seq<Event>, w: Wait)
    requires |st.parked| <= 16 && w.parking && AllHandled(st.parked + events, w)
    ensures var all, r := st.parked + events, Waited(st, events, w);
            && (r.lost == [] <==> |Others(all, w.event)| <= 16)
            && (r.lost == [] ==> r.st.fired == st.fired + Matching(all, w.event))
            && (r.lost == [] ==> r.st.parked == Others(all, w.event))
            && (r.lost == [] ==> r.st.found == st.found + |Matching(all, w.event)|)
  {
    hide Revisit, Take, Handle, Select, AllHandled;
    var n := |st.parked|;
    assert st.parked[..n] == st.parked && st.parked[n..] == [];
    HandledParts(st.parked, events, w);
    RevisitSplits(st, n, w);
    TakeSplits(Revisit(st, n, w).st, events, w);
    SelectAppend(st.parked, events, w.event, true);
    SelectAppend(st.parked, events, w.event, false);
  }

  lemma HandledParts(a: seq<Event>, b: seq<Event>, w: Wait)
    requires AllHandled(a + b, w)
    ensures AllHandled(a, w) && AllHandled(b, w)
  {
    assert forall i :: 0 <= i < |a| ==> a[i] == (a + b)[i];
    assert forall i :: 0 <= i < |b| ==> b[i] == (a + b)[|a| + i];
  }

  lemma WaitAll(st: State, events: seq<Event>, w: Wait)
    requires |st.parked| <= 16 && !w.parking && AllHandled(st.parked + events, w)
    ensures var r := Waited(st, events, w);
            r.lost == [] && r.st.parked == [] && r.st.fired == st.fired + st.parked + events
  {
    hide Revisit, Take, Handle, AllHandled;
    var n := |st.parked|;
    assert st.parked[..n] == st.parked && st.parked[n..] == [];
    HandledParts(st.parked, events, w);
    RevisitAll(st, n, w);
    TakeAll(Revisit(st, n, w).st, events, w);
  }

  /** An event that should be handled but has no callback is not passed over: the wait gives up at it,
      if not before. */
  lemma {:induction false} TakeGivesUp(st: State, events: seq<Event>, w: Wait)
    requires |st.parked| <= 16 && !AllHandled(events, w)
    ensures Take(st, events, w).lost != []
    decreases |events|
  {
    var h := Handle(st, events[0], w);
    if h.lost == [] {
      assert Handled(events[0], w);
      assert forall i :: 0 < i < |events| ==> events[i] == events[1..][i - 1];
      TakeGivesUp(h.st, events[1..], w);
    }
  }

  lemma {:induction false} RevisitGivesUp(st: State, n: nat, w: Wait)
    requires n <= |st.parked| <= 16 && !AllHandled(st.parked[..n], w)
    ensures Revisit(st, n, w).lost != []
    decreases n
  {
    var e, q := st.parked[0], st.parked[1..];
    var h := Handle(st.(parked := q), e, w);
    if h.lost == [] {
      assert Handled(e, w);
      assert h.st.parked[..n - 1] == q[..n - 1];
      assert forall i :: 0 < i < n ==> st.parked[..n][i] == q[..n - 1][i - 1];
      hide Handle;
      RevisitGivesUp(h.st, n - 1, w);
    }
  }

  /** A wait comes to its end exactly if every event that should be handled has a callback and, if the
      others are parked, they fit. */
  lemma WaitEndsIff(st: State, events: seq<Event>, w: Wait)
    requires |st.parked| <= 16
    ensures Waited(st, events, w).lost == [] <==>
              AllHandled(st.parked + events, w) && (w.parking ==> |Others(st.parked + events, w.event)| <= 16)
  {
    hide Revisit, Take, Handle, Select, AllHandled;
    var n := |st.parked|;
    assert st.parked[..n] == st.parked && st.parked[n..] == [];
    if AllHandled(st.parked + events, w) {
      if w.parking {
        WaitSplits(st, events, w);
      } else {
        WaitAll(st, events, w);
      }
    } else if !AllHandled(st.parked, w) {
      RevisitGivesUp(st, n, w);
    } else if Revisit(st, n, w).lost == [] {
      SomeUnhandled(st.parked, events, w);
      TakeGivesUp(Revisit(st, n, w).st, events, w);
    }
  }

  lemma SomeUnhandled(a: seq<Event>, b: seq<Event>, w: Wait)
    requires AllHandled(a, w) && !AllHandled(a + b, w)
    ensures !AllHandled(b, w)
  {
  }

  /** All events a state and an outcome account for. */
  function Held(st: State): multiset<Event> {
    multiset(st.parked) + multiset(st.fired)
  }

  lemma HandleConserves(st: State, e: Event, w: Wait)
    ensures var r := Handle(st, e, w);
            Held(r.st) + multiset(r.lost) == Held(st) + multiset{e} && |r.lost| <= 1
  {
  }

  /** How many events were taken. */
  function Taken(st: State, events: seq<Event>, w: Wait): (n: nat)
    ensures n <= |events|
    decreases |events|
  {
    if events == [] then 0
    else
      var r := Handle(st, events[0], w);
      if r.lost != [] then 1 else 1 + Taken(r.st, events[1..], w)
  }

  /** Whatever has a callback and whatever fits: each event taken is fired once, parked once or
      is the one that was dropped, after which nothing more is taken. */
  lemma {:induction false} TakeConserves(st: State, events: seq<Event>, w: Wait)
    ensures var r, n := Take(st, events, w), Taken(st, events, w);
            && Held(r.st) + multiset(r.lost) == Held(st) + multiset(events[..n])
            && |r.lost| <= 1
            && (r.lost == [] ==> n == |events|)
    decreases |events|
  {
    if events != [] {
      var e, rest := events[0], events[1..];
      hide Handle, Held, Take, Taken;
      HandleConserves(st, e, w);
      TakeTurn(st, events, w);
      var h := Handle(st, e, w);
      if h.lost == [] {
        TakeConserves(h.st, rest, w);
        OneMore(events, Taken(h.st, rest, w));
        var r := Take(st, events, w);
        Balance(Held(st), Held(h.st), Held(r.st) + multiset(r.lost), e, multiset(rest[..Taken(h.st, rest, w)]));
      } else {
        assert events[..1] == [e];
      }
    }
  }

  lemma Balance(before: multiset<Event>, between: multiset<Event>, after: multiset<Event>, e: Event, more: multiset<Event>)
    requires between == before + multiset{e} && after == between + more
    ensures after == before + (multiset{e} + more)
  {
  }

  lemma TakeTurn(st: State, events: seq<Event>, w: Wait)
    requires events != []
    ensures var h, rest := Handle(st, events[0], w), events[1..];
            if h.lost != [] then Take(st, events, w) == h && Taken(st, events, w) == 1
            else Take(st, events, w) == Take(h.st, rest, w) && Taken(st, events, w) == 1 + Taken(h.st, rest, w)
  {
    hide Handle;
  }

  lemma OneMore(events: seq<Event>, n: nat)
    requires n < |events|
    ensures multiset(events[..n + 1]) == multiset{events[0]} + multiset(events[1..][..n])
  {
    assert events[..n + 1] == [events[0]] + events[1..][..n];
  }

  /** Whether the wait is over in time after the k-th received event; ticks wrap at 32 bits, and
      clock(k) is the tick count read then. */
  predicate Expired(k: nat, blockTicks: nat, clock: nat -> nat) {
    if k == 0 then blockTicks == 0 else (clock(k) - clock(0)) % 0x1_0000_0000 >= blockTicks
  }

  /** The part of an event handler that waits. */
  class Waiter {
    const cBuffer: EventRing
    var eventQueue: seq<Event>
    var eventFcns: set<nat>
    var fired: seq<Event>

    constructor ()
      ensures cBuffer.Valid() && fresh(cBuffer) && fresh(cBuffer.buffer)
      ensures Current(0) == State([], [], 0) && eventQueue == []
    {
      cBuffer := new EventRing();
      eventQueue, eventFcns, fired := [], {}, [];
    }

    ghost function Current(found: nat): State
      requires cBuffer.Valid()
      reads this, cBuffer, cBuffer.buffer
    {
      State(cBuffer.Contents(), fired, found)
    }

    /** Event_FireCB: runs the callback, if there is one. */
    method FireCB(e: Event) returns (ok: bool)
      modifies this`fired
      ensures ok == (e.kind in eventFcns)
      ensures fired == old(fired) + if ok then [e] else []
    {
      ok := e.kind in eventFcns;
      if ok {
        fired := fired + [e];
      }
    }

    method FireOrBufferEvent(event: nat, nrFound: nat, e: Event, bufferEvents: bool) returns (ok: bool, found: nat)
      requires cBuffer.Valid()
      modifies this`fired, cBuffer`count, cBuffer`head, cBuffer.buffer
      ensures cBuffer.Valid()
      ensures var r := Handle(old(Current(nrFound)), e, Wait(event, bufferEvents, eventFcns));
              ok == (r.lost == []) && Current(found) == r.st
      ensures found == nrFound + (if e.kind == event then 1 else 0) && cBuffer.count >= old(cBuffer.count)
    {
      found := nrFound;
      if e.kind == event {
        found := found + 1;
        ok := FireCB(e);
      } else if !bufferEvents {
        ok := FireCB(e);
      } else {
        ok := cBuffer.PushBack(e);
      }
    }

    /** The first loop of Event_WaitForEvent, over the events parked before. */
    method HandleBuffered(event: nat, bufferEvents: bool) returns (ok: bool, found: nat)
      requires cBuffer.Valid()
      modifies this`fired, cBuffer`count, cBuffer`head, cBuffer`tail, cBuffer.buffer
      ensures cBuffer.Valid() && found <= 16
      ensures var r := Revisit(old(Current(0)), old(cBuffer.count), Wait(event, bufferEvents, eventFcns));
              ok == (r.lost == []) && Current(found) == r.st
    {
      hide Handle;
      ghost var w := Wait(event, bufferEvents, eventFcns);
      ghost var whole := Revisit(Current(0), cBuffer.count, w);
      var buffered := cBuffer.count;
      found := 0;
      for i := 0 to buffered
        invariant cBuffer.Valid() && buffered - i <= cBuffer.count && found <= i <= 16
        invariant whole == Revisit(Current(found), buffered - i, w)
      {
        var got, e := cBuffer.PopFront();
        ok, found := FireOrBufferEvent(event, found, e, bufferEvents);
        if !ok {
          return;
        }
      }
      ok := true;
    }

    /** Event_WaitForEvent. The queue holds what arrives before the wait times out. */
    method WaitForEvent(event: nat, waitForNr: nat, bufferEvents: bool, blockTicks: nat,
        clock: nat -> nat) returns (ok: bool)
      requires cBuffer.Valid() && waitForNr < 256
      modifies this`fired, this`eventQueue, cBuffer`count, cBuffer`head, cBuffer`tail, cBuffer.buffer
      ensures cBuffer.Valid()
      ensures |eventQueue| <= |old(eventQueue)|
      ensures var k, w := |old(eventQueue)| - |eventQueue|, Wait(event, bufferEvents, eventFcns);
              var r := Waited(old(Current(0)), old(eventQueue)[..k], w);
              && eventQueue == old(eventQueue)[k..]
              && Current(r.st.found) == r.st
              && (ok ==> r.lost == [] && (r.st.found >= waitForNr || Expired(k, blockTicks, clock)))
              && (!ok ==> r.lost != [] || eventQueue == [])
              && (k > 0 ==>
                    var b := Waited(old(Current(0)), old(eventQueue)[..k - 1], w);
                    b.lost == [] && b.st.found < waitForNr && !Expired(k - 1, blockTicks, clock))
    {
      hide Handle, Take, Revisit, Expired;
      ghost var w := Wait(event, bufferEvents, eventFcns);
      ghost var queue := eventQueue;
      var found: nat;
      ok, found := HandleBuffered(event, bufferEvents);
      assert queue[..0] == [];
      if !ok {
        return;
      }
      ghost var st := Current(found);
      NothingTaken(st, w);
      var remaining := blockTicks;
      ExpiredAfter(0, blockTicks, clock);
      var k := 0;
      while found < waitForNr && remaining != 0
        invariant cBuffer.Valid() && found < 256
        invariant k <= |queue| && eventQueue == queue[k..]
        invariant Take(st, queue[..k], w) == Outcome(Current(found), [])
        invariant remaining == 0 <==> Expired(k, blockTicks, clock)
        invariant k > 0 ==> var b := Take(st, queue[..k - 1], w);
                            b.lost == [] && b.st.found < waitForNr && !Expired(k - 1, blockTicks, clock)
        decreases |eventQueue|
      {
        if eventQueue == [] {
          return false;
        }
        var e := eventQueue[0];
        eventQueue := eventQueue[1..];
        assert queue[..k + 1] == queue[..k] + [e];
        TakeOneMore(st, queue[..k], e, w);
        ok, found := FireOrBufferEvent(event, found, e, bufferEvents);
        k := k + 1;
        if !ok {
          return;
        }
        var waitedTicks := (clock(k) - clock(0)) % 0x1_0000_0000;
        remaining := if waitedTicks >= blockTicks then 0 else blockTicks - waitedTicks;
        ExpiredAfter(k, blockTicks, clock);
      }
      ok := true;
    }
  }

  lemma NothingTaken(st: State, w: Wait)
    ensures Take(st, [], w) == Outcome(st, [])
  {
  }

  lemma ExpiredAfter(k: nat, blockTicks: nat, clock: nat -> nat)
    ensures Expired(k, blockTicks, clock)
       <==> if k == 0 then blockTicks == 0 else (clock(k) - clock(0)) % 0x1_0000_0000 >= blockTicks
  {
  }
}
