/**
 One connection of the client as a trace of whole packets sent, a packet cut off, and frames
 received: the automaton the client follows, and what every trace it accepts looks like.
 */
module MqttSession {
  import opened Basics
  import opened MqttMessages
  import opened MqttFraming
  import opened MqttStream

  datatype Event =
    | Sent(m: Message)                // the whole packet was written
    | Cut(m: Message, count: nat)     // writing failed after `count` bytes
    | Received(frame: seq<byte>)      // a whole frame was handled

  datatype Phase =
    | Fresh
    | Greeting
    | Up(waiting: bool)
    | Ended
    | Broken

  const PING: Message := Empty(PINGREQ)
  const BYE: Message := Empty(DISCONNECT)

  predicate AcceptedConnack(frame: seq<byte>) {
    && IsFrame(frame) && IsKind(frame, CONNACK)
    && var m := Parse(ParseHeader(frame).value);
       m.Ok? && m.value.Connack? && m.value.returnCode == ACCEPTED
  }

  /** What the client sends while connected: QoS 0 publishes, single QoS 0 subscriptions, pings. */
  predicate ClientRequest(m: Message) {
    && Encode(m).Ok?
    && (|| (m.Publish? && !m.dup && m.qos == 0)
        || (m.Subscribe? && |m.topics| == 1 && m.topics[0].qos == 0)
        || m == PING
        || m == BYE)
  }

  predicate Greets(m: Message) {
    m.Connect? && Encode(m).Ok?
  }

  predicate CutShort(e: Event) {
    e.Cut? && e.count <= |FrameOf(e.m)|
  }

  function Advance(phase: Phase, e: Event): Phase {
    match phase
    case Fresh =>
      if e.Sent? && Greets(e.m) then Greeting
      else if CutShort(e) && Greets(e.m) then Ended
      else Broken
    case Greeting =>
      if e.Received? && AcceptedConnack(e.frame) then Up(false) else Broken
    case Up(waiting) =>
      if e.Received? then
        if IsFrame(e.frame) && Digestible(e.frame) then Up(waiting && !IsKind(e.frame, PINGRESP)) else Broken
      else if !ClientRequest(e.m) || (e.m == PING && waiting) then Broken
      else if e.Cut? then (if CutShort(e) then Ended else Broken)
      else if e.m == BYE then Ended
      else if e.m == PING then Up(true)
      else Up(waiting)
    case Ended => Broken
    case Broken => Broken
  }

  function RunPhase(trace: seq<Event>): Phase {
    if trace == [] then Fresh
    else Advance(RunPhase(trace[..|trace| - 1]), trace[|trace| - 1])
  }

  ghost predicate Conforms(trace: seq<Event>) {
    !RunPhase(trace).Broken?
  }

  lemma RunPhaseSnoc(trace: seq<Event>, e: Event)
    ensures RunPhase(trace + [e]) == Advance(RunPhase(trace), e)
  {
    assert (trace + [e])[..|trace|] == trace;
  }

  // ----- what the automaton means -------------------------------------------------------

  predicate IsPing(e: Event) {
    !e.Received? && e.m == PING
  }

  predicate IsPong(e: Event) {
    e.Received? && IsKind(e.frame, PINGRESP)
  }

  predicate Closes(e: Event) {
    e.Cut? || (e.Sent? && e.m == BYE)
  }

  /** The first two events: CONNECT alone, then an accepted CONNACK. */
  ghost predicate OpensProperly(trace: seq<Event>) {
    && (trace != [] ==> !trace[0].Received? && Greets(trace[0].m) && (trace[0].Cut? ==> CutShort(trace[0])))
    && (|trace| > 1 ==> trace[0].Sent? && trace[1].Received? && AcceptedConnack(trace[1].frame))
  }

  predicate Allowed(e: Event) {
    if e.Received? then IsFrame(e.frame) && Digestible(e.frame)
    else ClientRequest(e.m) && (e.Cut? ==> CutShort(e))
  }

  /** After that, client requests and digestible frames only. */
  ghost predicate Continues(trace: seq<Event>) {
    forall i :: 2 <= i < |trace| ==> Allowed(trace[i])
  }

  /** A cut packet or a DISCONNECT is the last event. */
  ghost predicate ClosesLast(trace: seq<Event>) {
    forall i :: 0 <= i < |trace| - 1 ==> !Closes(trace[i])
  }

  ghost predicate AnsweredBetween(trace: seq<Event>, i: nat, j: nat)
    requires j <= |trace|
  {
    exists k :: i < k < j && IsPong(trace[k])
  }

  /** Between two PINGREQs there is a PINGRESP. */
  ghost predicate PingsAlternate(trace: seq<Event>) {
    forall i, j :: 0 <= i < j < |trace| && IsPing(trace[i]) && IsPing(trace[j]) ==> AnsweredBetween(trace, i, j)
  }

  /** A PINGREQ was sent and no PINGRESP has been handled since. */
  ghost predicate Outstanding(trace: seq<Event>) {
    exists i :: 0 <= i < |trace| && IsPing(trace[i]) && !AnsweredBetween(trace, i, |trace|)
  }

  ghost predicate Disciplined(trace: seq<Event>) {
    OpensProperly(trace) && Continues(trace) && ClosesLast(trace) && PingsAlternate(trace)
  }

  ghost predicate PhaseMeans(trace: seq<Event>, phase: Phase) {
    match phase
    case Fresh => trace == []
    case Greeting => |trace| == 1 && Disciplined(trace) && trace[0].Sent?
    case Up(waiting) =>
      && |trace| >= 2 && Disciplined(trace) && !Closes(trace[|trace| - 1])
      && (waiting <==> Outstanding(trace))
    case Ended => trace != [] && Disciplined(trace) && Closes(trace[|trace| - 1])
    case Broken => !Disciplined(trace)
  }

  lemma {:induction false} PhaseSound(trace: seq<Event>)
    ensures PhaseMeans(trace, RunPhase(trace))
    decreases |trace|
  {
    hide Digestible, AcceptedConnack, ClientRequest, Greets, IsKind, FrameOf;
    if trace != [] {
      var init, e := trace[..|trace| - 1], trace[|trace| - 1];
      PhaseSound(init);
      assert trace == init + [e];
      PhaseStep(init, RunPhase(init), e);
    }
  }

  lemma OpensSnoc(init: seq<Event>, e: Event)
    ensures OpensProperly(init + [e]) <==>
              && OpensProperly(init)
              && (init == [] ==> !e.Received? && Greets(e.m) && (e.Cut? ==> CutShort(e)))
              && (|init| == 1 ==> init[0].Sent? && e.Received? && AcceptedConnack(e.frame))
  {
    hide Digestible, AcceptedConnack, ClientRequest, Greets, IsKind, FrameOf;
    var trace := init + [e];
    assert init != [] ==> trace[0] == init[0];
    assert |init| > 1 ==> trace[1] == init[1];
  }

  lemma RestSnoc(init: seq<Event>, e: Event)
    ensures Continues(init + [e]) <==> Continues(init) && (|init| >= 2 ==> Allowed(e))
    ensures ClosesLast(init + [e]) <==> ClosesLast(init) && (init != [] ==> !Closes(init[|init| - 1]))
  {
    hide Allowed, Closes;
    var trace := init + [e];
    assert forall i :: 0 <= i < |init| ==> trace[i] == init[i];
    if Continues(trace) && |init| >= 2 {
      assert Allowed(trace[|init|]);
    }
    if ClosesLast(trace) && init != [] {
      assert !Closes(trace[|init| - 1]);
    }
  }

  lemma AnsweredSnoc(init: seq<Event>, e: Event, i: nat, j: nat)
    requires i < j <= |init|
    ensures AnsweredBetween(init + [e], i, j) <==> AnsweredBetween(init, i, j)
    ensures AnsweredBetween(init + [e], i, |init| + 1) <==> AnsweredBetween(init, i, |init|) || IsPong(e)
  {
    hide IsPong;
    var trace := init + [e];
    assert forall k :: 0 <= k < |init| ==> trace[k] == init[k];
    if AnsweredBetween(init, i, j) {
      var k :| i < k < j && IsPong(init[k]);
      assert IsPong(trace[k]);
    }
    if AnsweredBetween(init, i, |init|) {
      var k :| i < k < |init| && IsPong(init[k]);
      assert IsPong(trace[k]);
    }
    if IsPong(e) {
      assert IsPong(trace[|init|]);
    }
  }

  lemma PingsSnoc(init: seq<Event>, e: Event)
    ensures PingsAlternate(init + [e]) <==> PingsAlternate(init) && !(IsPing(e) && Outstanding(init))
  {
    hide IsPing, IsPong, AnsweredBetween;
    var trace := init + [e];
    var n := |init|;
    assert trace[n] == e && forall i :: 0 <= i < n ==> trace[i] == init[i];
    forall i, j | 0 <= i < j <= n ensures AnsweredBetween(trace, i, j) <==> AnsweredBetween(init, i, j) {
      AnsweredSnoc(init, e, i, j);
    }
    if PingsAlternate(trace) {
      forall i, j | 0 <= i < j < n && IsPing(init[i]) && IsPing(init[j]) ensures AnsweredBetween(init, i, j) {
        assert IsPing(trace[i]) && IsPing(trace[j]);
      }
    }
  }

  lemma OutstandingSnoc(init: seq<Event>, e: Event)
    ensures Outstanding(init + [e]) <==> IsPing(e) || (Outstanding(init) && !IsPong(e))
  {
    hide IsPing, IsPong, AnsweredBetween;
    var trace := init + [e];
    var n := |init|;
    assert trace[n] == e && forall i :: 0 <= i < n ==> trace[i] == init[i];
    forall i | 0 <= i < n ensures AnsweredBetween(trace, i, n + 1) <==> AnsweredBetween(init, i, n) || IsPong(e) {
      AnsweredSnoc(init, e, i, n);
    }
    LastUnanswered(trace);
    if IsPing(e) {
      assert IsPing(trace[n]) && !AnsweredBetween(trace, n, n + 1);
    } else if Outstanding(init) && !IsPong(e) {
      var i :| 0 <= i < n && IsPing(init[i]) && !AnsweredBetween(init, i, n);
      assert IsPing(trace[i]) && !AnsweredBetween(trace, i, n + 1);
    }
    if Outstanding(trace) && !IsPing(e) {
      var i :| 0 <= i < n + 1 && IsPing(trace[i]) && !AnsweredBetween(trace, i, n + 1);
      assert i < n && IsPing(init[i]) && !AnsweredBetween(init, i, n);
    }
  }

  /** Nothing comes after the last event, so it is not answered. */
  lemma LastUnanswered(trace: seq<Event>)
    ensures trace != [] ==> !AnsweredBetween(trace, |trace| - 1, |trace|)
  {
  }

  lemma PhaseStep(init: seq<Event>, phase: Phase, e: Event)
    requires PhaseMeans(init, phase)
    ensures PhaseMeans(init + [e], Advance(phase, e))
  {
    hide Digestible, AcceptedConnack, ClientRequest, Greets, IsKind, FrameOf;
    hide OpensProperly, Continues, ClosesLast, PingsAlternate, Outstanding;
    var trace := init + [e];
    assert trace[|trace| - 1] == e;
    OpensSnoc(init, e);
    RestSnoc(init, e);
    PingsSnoc(init, e);
    OutstandingSnoc(init, e);
    if |init| == 1 && OpensProperly(init) {
      ConnectIsNoPing(init);
    }
    if init == [] {
      EmptyTrace();
    }
  }

  lemma EmptyTrace()
    ensures Disciplined([]) && !Outstanding([])
  {
  }

  lemma ConnectIsNoPing(init: seq<Event>)
    requires |init| == 1 && OpensProperly(init)
    ensures !Outstanding(init) && (init[0].Sent? ==> !Closes(init[0]))
  {
    assert !IsPing(init[0]);
  }

  /**
   Wire and keep-alive discipline over whole sessions: the automaton accepts exactly the traces
   in which CONNECT comes first and alone until an accepted CONNACK, then only client requests
   are sent and only digestible frames handled, a cut packet or DISCONNECT comes last, and two
   PINGREQs always have a PINGRESP between them. Its flag says whether a PINGREQ is unanswered.
   */
  lemma SessionDiscipline(trace: seq<Event>)
    ensures Conforms(trace) <==> Disciplined(trace)
    ensures RunPhase(trace).Up? ==> (RunPhase(trace).waiting <==> Outstanding(trace))
  {
    PhaseSound(trace);
    if trace == [] {
      EmptyTrace();
    }
  }

  // ----- the bytes of a session ---------------------------------------------------------

  function EventSent(e: Event): seq<byte> {
    match e
    case Sent(m) => FrameOf(m)
    case Cut(m, count) => if count <= |FrameOf(m)| then FrameOf(m)[..count] else FrameOf(m)
    case Received(_) => []
  }

  function SentBytes(trace: seq<Event>): seq<byte> {
    if trace == [] then [] else SentBytes(trace[..|trace| - 1]) + EventSent(trace[|trace| - 1])
  }

  function ReceivedFrames(trace: seq<Event>): seq<seq<byte>> {
    if trace == [] then []
    else
      var e := trace[|trace| - 1];
      ReceivedFrames(trace[..|trace| - 1]) + if e.Received? then [e.frame] else []
  }

  function SentMessages(trace: seq<Event>): seq<Message> {
    if trace == [] then []
    else
      var e := trace[|trace| - 1];
      SentMessages(trace[..|trace| - 1]) + if e.Sent? then [e.m] else []
  }

  lemma BytesSnoc(trace: seq<Event>, e: Event)
    ensures SentBytes(trace + [e]) == SentBytes(trace) + EventSent(e)
    ensures ReceivedFrames(trace + [e]) == ReceivedFrames(trace) + if e.Received? then [e.frame] else []
    ensures SentMessages(trace + [e]) == SentMessages(trace) + if e.Sent? then [e.m] else []
  {
    assert (trace + [e])[..|trace|] == trace;
  }

  /** The bytes after the whole packets: a part of the packet that was cut, or nothing. */
  function CutBytes(trace: seq<Event>): seq<byte> {
    if trace != [] && trace[|trace| - 1].Cut? then EventSent(trace[|trace| - 1]) else []
  }

  /** A part of a packet, short of the whole, is not a frame yet. */
  lemma PartIsNotYet(frame: seq<byte>, count: nat)
    requires IsFrame(frame) && count < |frame|
    ensures FirstFrame(frame[..count]).NotYet?
  {
    var part, rest := frame[..count], frame[count..];
    assert part + rest == frame;
    if !FirstFrame(part).NotYet? {
      FramingPrefixStable(part, rest);
    }
  }

  lemma {:induction false} WholePackets(trace: seq<Event>)
    requires Conforms(trace)
    ensures forall k :: 0 <= k < |SentMessages(trace)| ==> Encode(SentMessages(trace)[k]).Ok?
    ensures SentBytes(trace) == Flatten(Frames(SentMessages(trace))) + CutBytes(trace)
    decreases |trace|
  {
    hide Conforms, FrameOf, Encode, CutBytes, EventSent, Frames, Flatten;
    if trace == [] {
      NothingSent();
    } else {
      var init, e := trace[..|trace| - 1], trace[|trace| - 1];
      NoCutBefore(trace);
      WholePackets(init);
      WholeStep(SentMessages(init), e);
      LastBytes(trace);
    }
  }

  lemma NothingSent()
    ensures Flatten(Frames([])) == [] && CutBytes([]) == []
  {
  }

  /** The bytes one more event adds behind whole packets: a packet, a part of one, or nothing. */
  lemma WholeStep(ms: seq<Message>, e: Event)
    ensures Flatten(Frames(ms)) + [] + EventSent(e)
         == Flatten(Frames(ms + if e.Sent? then [e.m] else [])) + if e.Cut? then EventSent(e) else []
  {
    hide FrameOf, Flatten;
    if e.Sent? {
      assert Frames(ms + [e.m]) == Frames(ms) + [FrameOf(e.m)];
      FlattenSnoc(Frames(ms), FrameOf(e.m));
    } else {
      assert ms + [] == ms;
    }
  }

  lemma LastBytes(trace: seq<Event>)
    requires trace != []
    ensures CutBytes(trace) == if trace[|trace| - 1].Cut? then EventSent(trace[|trace| - 1]) else []
  {
  }

  lemma NoCutBefore(trace: seq<Event>)
    requires Conforms(trace) && trace != []
    ensures CutBytes(trace[..|trace| - 1]) == []
    ensures trace[|trace| - 1].Sent? ==> Encode(trace[|trace| - 1].m).Ok?
    ensures Conforms(trace[..|trace| - 1])
  {
    hide Digestible, AcceptedConnack, IsKind, FrameOf, Encode;
    CutEnds(trace[..|trace| - 1]);
  }

  lemma CutEnds(trace: seq<Event>)
    ensures trace != [] && trace[|trace| - 1].Cut? ==> RunPhase(trace).Ended? || RunPhase(trace).Broken?
  {
    hide ClientRequest, Greets, CutShort;
  }

  /** The last packet was reported as cut although all its bytes had been taken. */
  predicate CutAtEnd(trace: seq<Event>) {
    trace != [] && trace[|trace| - 1].Cut? && trace[|trace| - 1].count == |FrameOf(trace[|trace| - 1].m)|
  }

  /**
   Wire discipline in bytes: the bytes written on a connection decode in one way only, to the
   packets the trace says were sent whole and a strict part of the one that was cut short, if any.
   */
  lemma WireDecodes(trace: seq<Event>)
    requires Conforms(trace)
    ensures Split(SentBytes(trace))
         == if CutAtEnd(trace) then (Frames(SentMessages(trace) + [trace[|trace| - 1].m]), [])
            else (Frames(SentMessages(trace)), CutBytes(trace))
  {
    hide Digestible, AcceptedConnack, IsKind, Encode, Body, Kind;
    WholePackets(trace);
    var ms := SentMessages(trace);
    forall k | 0 <= k < |ms| ensures IsFrame(Frames(ms)[k]) {
      EncodedIsFrame(ms[k]);
    }
    if trace != [] && trace[|trace| - 1].Cut? {
      WireDecodesCut(trace, trace[|trace| - 1].m, trace[|trace| - 1].count);
    } else {
      SplitUnique(Frames(ms), []);
    }
  }

  lemma CutIsLegal(trace: seq<Event>)
    requires Conforms(trace) && trace != [] && trace[|trace| - 1].Cut?
    ensures var e := trace[|trace| - 1]; Encode(e.m).Ok? && e.count <= |FrameOf(e.m)|
  {
    hide Digestible, AcceptedConnack, IsKind, Encode, FrameOf;
  }

  lemma WireDecodesCut(trace: seq<Event>, m: Message, count: nat)
    requires Conforms(trace) && trace != [] && trace[|trace| - 1] == Cut(m, count)
    requires AllFrames(Frames(SentMessages(trace)))
    requires SentBytes(trace) == Flatten(Frames(SentMessages(trace))) + CutBytes(trace)
    ensures Split(SentBytes(trace)) == if count == |FrameOf(m)| then (Frames(SentMessages(trace) + [m]), [])
                                       else (Frames(SentMessages(trace)), CutBytes(trace))
  {
    hide Encode, FrameOf, Split, SentBytes, SentMessages, Conforms;
    var ms := SentMessages(trace);
    CutIsLegal(trace);
    EncodedIsFrame(m);
    if count == |FrameOf(m)| {
      assert CutBytes(trace) == FrameOf(m);
      AppendFrame(ms, m);
      assert Flatten(Frames(ms + [m])) + [] == SentBytes(trace);
      SplitUnique(Frames(ms + [m]), []);
    } else {
      PartIsNotYet(FrameOf(m), count);
      SplitUnique(Frames(ms), CutBytes(trace));
    }
  }

  lemma AppendFrame(ms: seq<Message>, m: Message)
    requires AllFrames(Frames(ms)) && IsFrame(FrameOf(m))
    ensures AllFrames(Frames(ms + [m])) && Flatten(Frames(ms + [m])) == Flatten(Frames(ms)) + FrameOf(m)
  {
    hide FrameOf, IsFrame;
    assert Frames(ms + [m]) == Frames(ms) + [FrameOf(m)];
    FlattenSnoc(Frames(ms), FrameOf(m));
  }

  lemma EncodedIsFrame(m: Message)
    requires Encode(m).Ok?
    ensures IsFrame(FrameOf(m)) && Encode(m).value == FrameOf(m) && |FrameOf(m)| >= 2
  {
    PrintedIsFrame(Kind(m), Flags(m), Body(m));
  }

  // ----- runs of the receive loop as trace extensions -----------------------------------

  function ReceivedAll(frames: seq<seq<byte>>): seq<Event> {
    if frames == [] then [] else ReceivedAll(frames[..|frames| - 1]) + [Received(frames[|frames| - 1])]
  }

  lemma ReceiveOne(trace: seq<Event>, frame: seq<byte>)
    requires RunPhase(trace).Up? && IsFrame(frame) && Digestible(frame)
    ensures RunPhase(trace + [Received(frame)]) == Up(StillWaiting(RunPhase(trace).waiting, [frame]))
    ensures ReceivedFrames(trace + [Received(frame)]) == ReceivedFrames(trace) + [frame]
    ensures SentBytes(trace + [Received(frame)]) == SentBytes(trace)
  {
    hide Digestible, IsKind, IsFrame;
    RunPhaseSnoc(trace, Received(frame));
    BytesSnoc(trace, Received(frame));
    assert [frame][0] == frame;
  }

  lemma ReceivedAllSnoc(trace: seq<Event>, init: seq<seq<byte>>, last: seq<byte>)
    ensures trace + ReceivedAll(init + [last]) == trace + ReceivedAll(init) + [Received(last)]
  {
    assert (init + [last])[..|init|] == init;
    Assoc(trace, ReceivedAll(init), [Received(last)]);
  }

  // ----- facts the client uses ----------------------------------------------------------

  /** Where a packet may be sent whole, it may also be cut short. */
  lemma CutAllowed(phase: Phase, m: Message, count: nat)
    requires !Advance(phase, Sent(m)).Broken? && count <= |FrameOf(m)|
    ensures !Advance(phase, Cut(m, count)).Broken?
  {
    hide Encode, FrameOf;
  }

  /** Every frame a session has received is a whole frame. */
  lemma {:induction false} ReceivedAreFrames(trace: seq<Event>)
    requires Conforms(trace)
    ensures AllFrames(ReceivedFrames(trace))
    decreases |trace|
  {
    hide Digestible, IsKind, IsFrame, Encode, FrameOf;
    if trace != [] {
      ReceivedAreFrames(trace[..|trace| - 1]);
    }
  }

  /** Frames that have been received are the first ones the stream is cut into. */
  lemma {:induction false} ReceivedIsPrefix(frames: seq<seq<byte>>, more: seq<byte>)
    requires AllFrames(frames)
    ensures Split(Flatten(frames) + more).0 == frames + Split(more).0
  {
    SplitSound(more);
    var (later, rest) := Split(more);
    FlattenConcat(frames, later);
    Assoc(Flatten(frames), Flatten(later), rest);
    SplitUnique(frames + later, rest);
  }
}
