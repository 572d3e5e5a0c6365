/** The flight mode protocol: the mode handler (flight_mode_handler.c) decides which changes are
    allowed, and the RC handler (Satellite_SetpointHandler.c) acts on a cached copy of the mode
    that it updates early, before its request has been answered. */
module FlightMode {
  import opened Options

  datatype Mode = Init | Disarmed | Config | Arming | Armed | Disarming | Fault | ExitFault | NotAvailable

  // ---------------------------------------------------------------- the two handlers

  /** FMode_ChangeAllowed. */
  predicate ChangeAllowed(current: Mode, requested: Mode) {
    match current
    case Init => requested == Disarming
    case Disarmed => requested in {Config, Init, Armed, Arming, Fault}
    case Config => requested in {Disarming, Fault}
    case Arming => requested in {Armed, Disarming, Fault}
    case Armed => requested in {Disarming, Fault}
    case Disarming => requested in {Disarmed, Fault}
    case Fault => requested == ExitFault
    case ExitFault => requested == Disarming
    case NotAvailable => false
  }

  datatype Destination = Everybody | Only(source: nat)

  /** A flight mode message. */
  datatype ModeMessage = ModeMessage(to: Destination, mode: Mode)

  class FlightModeHandler {
    var currentMode: Mode
    var sent: seq<ModeMessage>

    constructor ()
      ensures currentMode == NotAvailable && sent == []
    {
      currentMode, sent := NotAvailable, [];
    }

    method SendEvent()
      modifies this`sent
      ensures sent == old(sent) + [ModeMessage(Everybody, currentMode)]
    {
      sent := sent + [ModeMessage(Everybody, currentMode)];
    }

    method InitFModeHandler()
      modifies this
      ensures currentMode == Init && sent == old(sent) + [ModeMessage(Everybody, Init)]
    {
      currentMode := Init;
      SendEvent();
    }

    method ChangeFMode(requested: Mode) returns (ok: bool)
      modifies this
      ensures ok == ChangeAllowed(old(currentMode), requested)
      ensures currentMode == if ok then requested else old(currentMode)
      ensures sent == old(sent) + if ok then [ModeMessage(Everybody, requested)] else []
    {
      ok := false;
      if ChangeAllowed(currentMode, requested) {
        currentMode := requested;
        SendEvent();
        ok := true;
      }
    }

    /** A fault is entered from every mode. */
    method EnterFault()
      modifies this
      ensures currentMode == Fault && sent == old(sent) + [ModeMessage(Everybody, Fault)]
    {
      currentMode := Fault;
      SendEvent();
    }

    /** FMode_CB: a rejected request is answered to its sender alone. */
    method HandleRequest(source: nat, requested: Mode)
      modifies this
      ensures currentMode == Answer(old(currentMode), requested)
      ensures sent == old(sent) + [ModeMessage(
        if ChangeAllowed(old(currentMode), requested) then Everybody else Only(source), currentMode)]
    {
      var ok := ChangeFMode(requested);
      if !ok {
        sent := sent + [ModeMessage(Only(source), currentMode)];
      }
    }
  }

  /** The mode after a request. */
  function Answer(current: Mode, requested: Mode): Mode {
    if ChangeAllowed(current, requested) then requested else current
  }

  /** What a frame from the receiver asks for: channel 4 is the flap, channel 0 the throttle. */
  datatype Stick = Stick(flap: int, throttle: int)

  const SATELLITE_CH_CENTER := 1022

  /** The request the RC handler makes on a frame, given its cached mode. */
  function Wanted(cached: Mode, s: Stick): Option<Mode> {
    if cached == Init || cached == NotAvailable then None
    else if s.flap > SATELLITE_CH_CENTER && s.throttle < 40 then
      if cached == Fault then Some(ExitFault)
      else if cached != Disarming && cached != Disarmed then Some(Disarming)
      else None
    else if s.flap < SATELLITE_CH_CENTER && s.throttle < 40 then
      if cached != Arming && cached != Armed then Some(Arming) else None
    else None
  }

  class RcHandler {
    var currentFlightMode: Mode
    var requests: seq<Mode>

    constructor ()
      ensures currentFlightMode == NotAvailable && requests == []
    {
      currentFlightMode, requests := NotAvailable, [];
    }

    /** SatSpHandler_UpdateState: requests a mode and takes it for granted until it hears. */
    method UpdateState(s: Stick) returns (ok: bool)
      modifies this
      ensures var w := Wanted(old(currentFlightMode), s);
              && currentFlightMode == (if w.Some? then w.value else old(currentFlightMode))
              && requests == old(requests) + (if w.Some? then [w.value] else [])
      ensures ok == (old(currentFlightMode) != Init && old(currentFlightMode) != NotAvailable)
    {
      if currentFlightMode == Init || currentFlightMode == NotAvailable {
        return false;
      }
      ok := true;
      if s.flap > SATELLITE_CH_CENTER && s.throttle < 40 {
        if currentFlightMode == Fault {
          requests := requests + [ExitFault];
          currentFlightMode := ExitFault;
        } else if currentFlightMode != Disarming && currentFlightMode != Disarmed {
          requests := requests + [Disarming];
          currentFlightMode := Disarming;
        }
      } else if s.flap < SATELLITE_CH_CENTER && s.throttle < 40 {
        if currentFlightMode != Arming && currentFlightMode != Armed {
          requests := requests + [Arming];
          currentFlightMode := Arming;
        }
      }
    }

    method FModeCB(mode: Mode)
      modifies this`currentFlightMode
      ensures currentFlightMode == mode
    {
      currentFlightMode := mode;
    }
  }

  // ---------------------------------------------------------------- the system

  /** A message on its way to the mode handler. */
  datatype Request = Ask(fromRc: bool, mode: Mode) | ReportFault

  /** The two handlers and the messages under way between them. */
  datatype System = System(mode: Mode, cached: Mode, requests: seq<Request>, toRc: seq<Mode>)

  /** Just after FMode_InitFModeHandler. */
  function Start(): System {
    System(Init, NotAvailable, [], [Init])
  }

  datatype Step =
    | RcFrame(stick: Stick)         // the RC handler gets a frame
    | RcReceives                    // it receives a flight mode message
    | ModeReceives                  // the mode handler receives a request or a fault
    | SomebodyAsks(mode: Mode)      // another handler requests a mode
    | FaultReported                 // another handler reports a fault
    | MainChanges(mode: Mode)       // the main task calls FMode_ChangeFMode
    | MainFaults                    // the main task calls FMode_Fault

  /** The mode handler takes a new mode and tells everybody. */
  function Entered(s: System, mode: Mode): System {
    s.(mode := mode, toRc := s.toRc + [mode])
  }

  function Next(s: System, step: Step): System {
    match step
    case RcFrame(stick) =>
      (match Wanted(s.cached, stick)
       case None => s
       case Some(m) => s.(cached := m, requests := s.requests + [Ask(true, m)]))
    case RcReceives => if s.toRc == [] then s else s.(cached := s.toRc[0], toRc := s.toRc[1..])
    case ModeReceives =>
      if s.requests == [] then s
      else
        var rest := s.(requests := s.requests[1..]);
        (match s.requests[0]
         case ReportFault => Entered(rest, Fault)
         case Ask(fromRc, m) =>
           if ChangeAllowed(s.mode, m) then Entered(rest, m)
           else if fromRc then rest.(toRc := s.toRc + [s.mode])
           else rest)
    case SomebodyAsks(m) => s.(requests := s.requests + [Ask(false, m)])
    case FaultReported => s.(requests := s.requests + [ReportFault])
    case MainChanges(m) => if ChangeAllowed(s.mode, m) then Entered(s, m) else s
    case MainFaults => Entered(s, Fault)
  }

  function Run(s: System, steps: seq<Step>): System
    decreases |steps|
  {
    if steps == [] then s else Run(Next(s, steps[0]), steps[1..])
  }

  // ---------------------------------------------------------------- the cached mode

  predicate AsksForRc(requests: seq<Request>) {
    exists i :: 0 <= i < |requests| && requests[i].Ask? && requests[i].fromRc
  }

  /** Either a request of the RC handler is under way, or the last message on its way to it has
      the current mode, or it knows the current mode already. */
  predicate Tracking(s: System) {
    || AsksForRc(s.requests)
    || (s.toRc != [] && s.toRc[|s.toRc| - 1] == s.mode)
    || (s.toRc == [] && s.cached == s.mode)
  }

  lemma StepTracking(s: System, step: Step)
    requires Tracking(s)
    ensures Tracking(Next(s, step))
  {
    var t := Next(s, step);
    match step {
      case ModeReceives =>
        if AsksForRc(s.requests) {
          var i :| 0 <= i < |s.requests| && s.requests[i].Ask? && s.requests[i].fromRc;
          assert i > 0 ==> t.requests[i - 1] == s.requests[i];
        }
      case RcFrame(stick) =>
        if Wanted(s.cached, stick).Some? {
          assert t.requests[|s.requests|] == Ask(true, t.cached);
        }
      case _ =>
        if AsksForRc(s.requests) {
          var i :| 0 <= i < |s.requests| && s.requests[i].Ask? && s.requests[i].fromRc;
          assert t.requests[i] == s.requests[i];
        }
    }
  }

  lemma {:induction false} RunTracking(s: System, steps: seq<Step>)
    requires Tracking(s)
    ensures Tracking(Run(s, steps))
    decreases |steps|
  {
    hide Tracking, Next;
    if steps != [] {
      StepTracking(s, steps[0]);
      RunTracking(Next(s, steps[0]), steps[1..]);
    }
  }

  /** After any run, once its requests are answered and the answers received, the RC handler has
      the current mode. */
  lemma CachedModeConverges(steps: seq<Step>)
    requires var s := Run(Start(), steps); !AsksForRc(s.requests) && s.toRc == []
    ensures var s := Run(Start(), steps); s.cached == s.mode
  {
    RunTracking(Start(), steps);
  }

  /** The mode handler answers everything that waits, then the RC handler receives everything. */
  function Answered(s: System): (t: System)
    ensures t.requests == []
    decreases |s.requests|
  {
    if s.requests == [] then s else Answered(Next(s, ModeReceives))
  }

  function Heard(s: System): (t: System)
    ensures t.toRc == [] && t.requests == s.requests && t.mode == s.mode
    decreases |s.toRc|
  {
    if s.toRc == [] then s else Heard(Next(s, RcReceives))
  }

  lemma {:induction false} AnsweredTracking(s: System)
    requires Tracking(s)
    ensures Tracking(Answered(s))
    decreases |s.requests|
  {
    hide Tracking;
    if s.requests != [] {
      StepTracking(s, ModeReceives);
      AnsweredTracking(Next(s, ModeReceives));
    }
  }

  lemma {:induction false} HeardTracking(s: System)
    requires Tracking(s)
    ensures Tracking(Heard(s))
    decreases |s.toRc|
  {
    hide Tracking;
    if s.toRc != [] {
      StepTracking(s, RcReceives);
      HeardTracking(Next(s, RcReceives));
    }
  }

  /** From wherever a run has led, delivering what is under way brings the RC handler up to date. */
  lemma DeliveryConverges(steps: seq<Step>)
    ensures var s := Answered(Run(Start(), steps));
            Heard(s).cached == Heard(s).mode == s.mode
  {
    RunTracking(Start(), steps);
    AnsweredTracking(Run(Start(), steps));
    HeardTracking(Answered(Run(Start(), steps)));
  }

  // ---------------------------------------------------------------- no flood of requests

  function Frames(stick: Stick, n: nat): seq<Step> {
    if n == 0 then [] else [RcFrame(stick)] + Frames(stick, n - 1)
  }

  lemma FramesTurn(s: System, stick: Stick, n: nat)
    ensures Run(s, Frames(stick, 0)) == s
    ensures n > 0 ==> Run(s, Frames(stick, n)) == Run(Next(s, RcFrame(stick)), Frames(stick, n - 1))
  {
    hide Next;
    if n > 0 {
      assert Frames(stick, n)[1..] == Frames(stick, n - 1);
    }
  }

  lemma {:induction false} SilentFrames(s: System, stick: Stick, n: nat)
    requires Wanted(s.cached, stick).None?
    ensures Run(s, Frames(stick, n)) == s
  {
    hide Run, Frames;
    FramesTurn(s, stick, n);
    if n > 0 {
      SilentFrames(s, stick, n - 1);
    }
  }

  /** A stick held still makes at most two requests, and only to leave a fault two, however many
      frames come in before an answer does. */
  lemma {:induction false} HeldStick(s: System, stick: Stick, n: nat)
    ensures var t := Run(s, Frames(stick, n));
            && |t.requests| <= |s.requests| + 2
            && (s.cached != Fault ==> |t.requests| <= |s.requests| + 1)
  {
    var s1 := Next(s, RcFrame(stick));
    var s2 := Next(s1, RcFrame(stick));
    assert |s1.requests| <= |s.requests| + 1 && |s2.requests| <= |s1.requests| + 1;
    assert Wanted(s2.cached, stick).None?;
    assert s.cached != Fault ==> Wanted(s1.cached, stick).None?;
    hide Run, Frames, Next, Wanted;
    FramesTurn(s, stick, n);
    if n > 0 {
      FramesTurn(s1, stick, n - 1);
      if s.cached != Fault {
        SilentFrames(s1, stick, n - 1);
      } else if n > 1 {
        SilentFrames(s2, stick, n - 2);
      }
    }
  }

  // ---------------------------------------------------------------- after a fault

  /** The modes of a run, from its start to its end. */
  function Modes(s: System, steps: seq<Step>): (p: seq<Mode>)
    ensures |p| == |steps| + 1 && p[0] == s.mode
    decreases |steps|
  {
    if steps == [] then [s.mode] else [s.mode] + Modes(Next(s, steps[0]), steps[1..])
  }

  predicate Follows(a: Mode, b: Mode) {
    b == a || b == Fault || ChangeAllowed(a, b)
  }

  predicate IsPath(p: seq<Mode>) {
    forall i :: 0 < i < |p| ==> Follows(p[i - 1], p[i])
  }

  lemma {:induction false} ModesArePath(s: System, steps: seq<Step>)
    ensures IsPath(Modes(s, steps))
    decreases |steps|
  {
    if steps != [] {
      var t := Next(s, steps[0]);
      var p, q := Modes(s, steps), Modes(t, steps[1..]);
      ModesArePath(t, steps[1..]);
      assert Follows(s.mode, t.mode);
      forall i | 0 < i < |p|
        ensures Follows(p[i - 1], p[i])
      {
        if i > 1 {
          assert Follows(q[i - 2], q[i - 1]);
        }
      }
    }
  }

  /** Where a path first enters a set of modes. */
  lemma {:induction false} FirstEntry(p: seq<Mode>, i: nat, j: nat, modes: set<Mode>) returns (k: nat)
    requires i < j < |p| && p[i] !in modes && p[j] in modes
    ensures i < k <= j && p[k] in modes && p[k - 1] !in modes
    decreases j - i
  {
    if p[i + 1] in modes {
      k := i + 1;
    } else {
      k := FirstEntry(p, i + 1, j, modes);
    }
  }

  /** Every run that is armed after a fault has gone through exit, disarming and disarmed, in
      this order, in between. */
  lemma ArmedAfterFault(s: System, steps: seq<Step>, i: nat, j: nat) returns (a: nat, b: nat, c: nat)
    requires var p := Modes(s, steps); i < j < |p| && p[i] == Fault && p[j] == Armed
    ensures var p := Modes(s, steps);
            i < a < b < c < j && p[a] == ExitFault && p[b] == Disarming && p[c] == Disarmed
  {
    var p := Modes(s, steps);
    ModesArePath(s, steps);
    hide Modes;
    c := FirstEntry(p, i, j, {Disarmed, Config, Arming, Armed, Init, NotAvailable});
    assert Follows(p[c - 1], p[c]);
    b := FirstEntry(p, i, c - 1, {Disarming, Disarmed, Config, Arming, Armed, Init, NotAvailable});
    assert Follows(p[b - 1], p[b]);
    a := FirstEntry(p, i, b - 1, {ExitFault, Disarming, Disarmed, Config, Arming, Armed, Init, NotAvailable});
    assert Follows(p[a - 1], p[a]);
  }

  // ---------------------------------------------------------------- what requests lead to

  /** The modes that one request can lead to, itself or another one, in each mode. */
  lemma OneRequest(current: Mode, mode: Mode)
    ensures (exists requested :: Answer(current, requested) == mode) <==>
              mode == current ||
              match current
              case Init => mode == Disarming
              case Disarmed => mode == Config || mode == Init || mode == Armed || mode == Arming || mode == Fault
              case Config => mode == Disarming || mode == Fault
              case Arming => mode == Armed || mode == Disarming || mode == Fault
              case Armed => mode == Disarming || mode == Fault
              case Disarming => mode == Disarmed || mode == Fault
              case Fault => mode == ExitFault
              case ExitFault => mode == Disarming
              case NotAvailable => false
    ensures Answer(current, mode) == mode || Answer(current, mode) == current
  {
    assert Answer(current, current) == current;
    assert Answer(current, mode) == mode || forall requested :: Answer(current, requested) == mode ==> mode == current;
  }

  /** The requests and faults that the mode handler takes in a run, from its queue or by a call of
      the main task, in the order in which it takes them. */
  function Taken(s: System, steps: seq<Step>): seq<Request>
    decreases |steps|
  {
    if steps == [] then []
    else
      (match steps[0]
       case ModeReceives => if s.requests == [] then [] else [s.requests[0]]
       case MainChanges(m) => [Ask(false, m)]
       case MainFaults => [ReportFault]
       case _ => []) + Taken(Next(s, steps[0]), steps[1..])
  }

  /** The mode after some of them: a fault is entered from every mode. */
  function AnswerAll(mode: Mode, taken: seq<Request>): Mode
    decreases |taken|
  {
    if taken == [] then mode
    else AnswerAll(if taken[0].Ask? then Answer(mode, taken[0].mode) else Fault, taken[1..])
  }

  lemma {:induction false} AnswerAppend(mode: Mode, a: seq<Request>, b: seq<Request>)
    ensures AnswerAll(mode, a + b) == AnswerAll(AnswerAll(mode, a), b)
    decreases |a|
  {
    hide Answer;
    if a == [] {
      assert a + b == b;
    } else {
      assert (a + b)[1..] == a[1..] + b;
      AnswerAppend(if a[0].Ask? then Answer(mode, a[0].mode) else Fault, a[1..], b);
    }
  }

  /** In every run, however the deliveries are interleaved, the mode depends on these alone. */
  lemma {:induction false} RunAnswers(s: System, steps: seq<Step>)
    ensures Run(s, steps).mode == AnswerAll(s.mode, Taken(s, steps))
    decreases |steps|
  {
    if steps != [] {
      var t := Next(s, steps[0]);
      var first := Taken(s, steps)[..|Taken(s, steps)| - |Taken(t, steps[1..])|];
      assert Taken(s, steps) == first + Taken(t, steps[1..]);
      assert t.mode == AnswerAll(s.mode, first);
      RunAnswers(t, steps[1..]);
      AnswerAppend(s.mode, first, Taken(t, steps[1..]));
    }
  }

  /** The handler takes these requests, whoever sent them, and nothing else. */
  predicate Asked(taken: seq<Request>, modes: seq<Mode>) {
    |taken| == |modes| && forall i :: 0 <= i < |modes| ==> taken[i].Ask? && taken[i].mode == modes[i]
  }

  /** The mode after requests for these modes. */
  function AnswerEach(mode: Mode, modes: seq<Mode>): Mode
    decreases |modes|
  {
    if modes == [] then mode else AnswerEach(Answer(mode, modes[0]), modes[1..])
  }

  lemma {:induction false} AskedInTurn(mode: Mode, taken: seq<Request>, modes: seq<Mode>)
    requires Asked(taken, modes)
    ensures AnswerAll(mode, taken) == AnswerEach(mode, modes)
    decreases |modes|
  {
    hide Answer;
    if modes != [] {
      AskedInTurn(Answer(mode, modes[0]), taken[1..], modes[1..]);
    }
  }

  lemma TwoRequests(mode: Mode, a: Mode, b: Mode)
    ensures AnswerEach(mode, [a, b]) == Answer(Answer(mode, a), b)
  {
    hide Answer;
    assert [a, b][1..] == [b] && [b][1..] == [];
    assert AnswerEach(Answer(mode, a), [b]) == AnswerEach(Answer(Answer(mode, a), b), []);
  }

  /** A disarmed craft is armed by a request for arming and one for armed. */
  lemma Arms(s: System, steps: seq<Step>)
    requires s.mode == Disarmed && Asked(Taken(s, steps), [Arming, Armed])
    ensures Run(s, steps).mode == Armed
  {
    RunAnswers(s, steps);
    AskedInTurn(s.mode, Taken(s, steps), [Arming, Armed]);
    hide Run, Taken, AnswerAll, Asked, AnswerEach;
    TwoRequests(s.mode, Arming, Armed);
  }

  /** A craft that is armed, arming or being configured, or that has just been initialised, is
      disarmed by a request for disarming and one for disarmed. */
  lemma Disarms(s: System, steps: seq<Step>)
    requires s.mode in {Init, Config, Arming, Armed} && Asked(Taken(s, steps), [Disarming, Disarmed])
    ensures Run(s, steps).mode == Disarmed
  {
    RunAnswers(s, steps);
    AskedInTurn(s.mode, Taken(s, steps), [Disarming, Disarmed]);
    hide Run, Taken, AnswerAll, Asked, AnswerEach;
    TwoRequests(s.mode, Disarming, Disarmed);
  }

  /** From a fault it takes a request to exit the fault before these two. */
  lemma LeavesFault(s: System, steps: seq<Step>)
    requires s.mode == Fault && Asked(Taken(s, steps), [ExitFault, Disarming, Disarmed])
    ensures Run(s, steps).mode == Disarmed
  {
    RunAnswers(s, steps);
    AskedInTurn(s.mode, Taken(s, steps), [ExitFault, Disarming, Disarmed]);
    assert [ExitFault, Disarming, Disarmed][1..] == [Disarming, Disarmed];
    assert AnswerEach(s.mode, [ExitFault, Disarming, Disarmed]) == AnswerEach(ExitFault, [Disarming, Disarmed]);
    hide Run, Taken, AnswerAll, Asked, AnswerEach;
    TwoRequests(ExitFault, Disarming, Disarmed);
  }

  /** A run in which the last thing taken is a fault ends in the fault. */
  lemma EndsInFault(s: System, steps: seq<Step>)
    requires var taken := Taken(s, steps); taken != [] && taken[|taken| - 1].ReportFault?
    ensures Run(s, steps).mode == Fault
  {
    var taken := Taken(s, steps);
    RunAnswers(s, steps);
    hide Run, Taken;
    var before := taken[..|taken| - 1];
    assert taken == before + [ReportFault];
    AnswerAppend(s.mode, before, [ReportFault]);
    assert AnswerAll(AnswerAll(s.mode, before), [ReportFault]) == Fault by {
      assert [ReportFault][1..] == [];
    }
  }

  // ---------------------------------------------------------------- the stick

  /** Flap up or down with the throttle low. Up is the side of the larger values. */
  predicate FlapUp(stick: Stick) {
    stick.flap > 1022 && stick.throttle < 40
  }

  predicate FlapDown(stick: Stick) {
    stick.flap < 1022 && stick.throttle < 40
  }

  /** Nothing is under way and the RC handler knows the mode, as after DeliveryConverges. */
  predicate Settled(s: System) {
    s.requests == [] && s.toRc == [] && s.cached == s.mode
  }

  /** One frame, its request and the answer. */
  function Turn(s: System, stick: Stick): System {
    Heard(Answered(Next(s, RcFrame(stick))))
  }

  /** Another handler's request for a mode, and what everybody hears of it. */
  function Granted(s: System, mode: Mode): System {
    Heard(Answered(Next(s, SomebodyAsks(mode))))
  }

  /** One more request is answered at once if none waits. */
  lemma AnsweredOne(s: System, r: Request)
    requires s.requests == []
    ensures var t := s.(requests := [r]);
            Answered(t) == Next(t, ModeReceives)
  {
    var t := s.(requests := [r]);
    assert t.requests[1..] == [];
    assert Next(t, ModeReceives).requests == [];
  }

  /** What everybody hears last is what they go by. */
  lemma {:induction false} HeardLast(s: System)
    ensures Heard(s).cached == if s.toRc == [] then s.cached else s.toRc[|s.toRc| - 1]
    ensures s.requests == [] ==> Heard(s) == System(s.mode, Heard(s).cached, [], [])
    decreases |s.toRc|
  {
    if s.toRc != [] {
      HeardLast(Next(s, RcReceives));
    }
  }

  lemma GrantedIs(s: System, mode: Mode)
    requires Settled(s)
    ensures Granted(s, mode) == System(Answer(s.mode, mode), Answer(s.mode, mode), [], [])
  {
    assert [] + [Ask(false, mode)] == [Ask(false, mode)];
    AnsweredOne(s, Ask(false, mode));
    HeardLast(Answered(Next(s, SomebodyAsks(mode))));
  }

  lemma TurnIs(s: System, stick: Stick)
    requires Settled(s)
    ensures var mode := match Wanted(s.mode, stick) case None => s.mode case Some(m) => Answer(s.mode, m);
            Turn(s, stick) == System(mode, mode, [], [])
  {
    match Wanted(s.mode, stick) {
      case None => HeardLast(s);
      case Some(m) =>
        assert [] + [Ask(true, m)] == [Ask(true, m)];
        AnsweredOne(s.(cached := m), Ask(true, m));
        HeardLast(Answered(Next(s, RcFrame(stick))));
    }
  }

  /** With the flap up, a craft that was armed, arming or being configured is disarming after one
      frame, and disarmed once that is granted; in a fault it takes one frame more. A disarmed craft
      stays so. */
  lemma FlapUpDisarms(s: System, stick: Stick)
    requires Settled(s) && FlapUp(stick)
    ensures s.mode in {Config, Arming, Armed, ExitFault} ==>
              Turn(s, stick).mode == Disarming && Granted(Turn(s, stick), Disarmed).mode == Disarmed
    ensures s.mode == Fault ==>
              Turn(s, stick).mode == ExitFault && Granted(Turn(Turn(s, stick), stick), Disarmed).mode == Disarmed
    ensures s.mode in {Disarmed, Disarming, Init, NotAvailable} ==> Turn(s, stick) == s
  {
    TurnIs(s, stick);
    var t := Turn(s, stick);
    TurnIs(t, stick);
    GrantedIs(t, Disarmed);
    GrantedIs(Turn(t, stick), Disarmed);
    hide Turn, Granted;
  }

  /** With the flap down, a disarmed craft is arming after one frame, and armed once that is granted;
      in any other mode nothing comes of it. With the throttle up, or the flap in the middle, nothing is asked for. */
  lemma FlapDownArms(s: System, stick: Stick)
    requires Settled(s)
    ensures FlapDown(stick) && s.mode == Disarmed ==>
              Turn(s, stick).mode == Arming && Granted(Turn(s, stick), Armed).mode == Armed
    ensures FlapDown(stick) && s.mode != Disarmed ==> Turn(s, stick) == s
    ensures !FlapUp(stick) && !FlapDown(stick) ==> Turn(s, stick) == s
  {
    TurnIs(s, stick);
    GrantedIs(Turn(s, stick), Armed);
    hide Turn, Granted;
  }

  /** While the flap is up the RC handler asks for nothing but to exit a fault and to disarm, in every
      run: no request to arm comes from it. */
  predicate OnlyDisarms(requests: seq<Request>) {
    forall i :: 0 <= i < |requests| && requests[i].Ask? && requests[i].fromRc ==> requests[i].mode in {ExitFault, Disarming}
  }

  lemma {:induction false} FlapUpNeverArms(s: System, steps: seq<Step>)
    requires OnlyDisarms(s.requests)
    requires forall i :: 0 <= i < |steps| && steps[i].RcFrame? ==> FlapUp(steps[i].stick)
    ensures OnlyDisarms(Run(s, steps).requests)
    decreases |steps|
  {
    if steps != [] {
      assert OnlyDisarms(Next(s, steps[0]).requests);
      hide OnlyDisarms, Next;
      FlapUpNeverArms(Next(s, steps[0]), steps[1..]);
    }
  }
}
