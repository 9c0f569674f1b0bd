/**
 What the client does to a stream of received bytes, as a function: cut a frame, parse it,
 handle it, go on. Its outcome does not depend on how the bytes arrive in chunks.
 */
module MqttStream {
  import opened Basics
  import opened MqttMessages
  import opened MqttRoundTrip
  import opened MqttFraming

  /** The queue of messages, the ping flag, and the frames handled so far. */
  datatype RxState = RxState(messages: seq<Message>, waiting: bool, frames: seq<seq<byte>>)

  datatype Outcome =
    | Running(st: RxState, rest: seq<byte>)
    | Failed(error: Error)

  /** The effect of one packet on the queue and the ping flag. */
  function Handle(p: Packet, st: RxState): Result<RxState> {
    if p.kind == PUBLISH then
      var m :- Parse(p);
      if m.Publish? && m.qos > 0 then Err(UnsupportedQos) else Ok(st.(messages := st.messages + [m]))
    else if p.kind == PINGRESP then
      var _ :- Parse(p);
      Ok(st.(waiting := false))
    else if p.kind == SUBACK then
      var m :- Parse(p);
      if m.Suback? && m.codes != [] && m.codes[0] == SUBACK_FAILURE then Err(SubscriptionRejected) else Ok(st)
    else Ok(st)
  }

  /** Parses and handles one whole frame. */
  function HandleFrame(frame: seq<byte>, st: RxState): Result<RxState> {
    var p :- ParseHeader(frame);
    var st' :- Handle(p, st);
    Ok(st'.(frames := st.frames + [frame]))
  }

  /** Handles every whole frame at the front of `buffer`. */
  function Process(st: RxState, buffer: seq<byte>): Outcome
    decreases |buffer|
  {
    match FirstFrame(buffer)
    case NotYet => Running(st, buffer)
    case Malformed => Failed(LengthTooLong)
    case Complete(size) =>
      match HandleFrame(buffer[..size], st)
      case Err(error) => Failed(error)
      case Ok(st') => Process(st', buffer[size..])
  }

  /** `Process` on what an earlier run left, with more bytes behind it. */
  function Continue(outcome: Outcome, chunk: seq<byte>): Outcome {
    match outcome
    case Failed(error) => Failed(error)
    case Running(st, rest) => Process(st, rest + chunk)
  }

  /** The runs made when `chunks` arrive one after the other. */
  function Feed(outcome: Outcome, chunks: seq<seq<byte>>): Outcome
    decreases |chunks|
  {
    if chunks == [] then outcome else Feed(Continue(outcome, chunks[0]), chunks[1..])
  }

  // ----- chunk independence -------------------------------------------------------------

  /** Processing `a` and then `b` is processing `a + b`: state, rest and error alike. */
  lemma {:induction false} ChunkIndependence(st: RxState, a: seq<byte>, b: seq<byte>)
    ensures Continue(Process(st, a), b) == Process(st, a + b)
    decreases |a|
  {
    match FirstFrame(a)
    case NotYet =>
    case Malformed => FramingPrefixStable(a, b);
    case Complete(size) =>
      FramingPrefixStable(a, b);
      assert (a + b)[..size] == a[..size] && (a + b)[size..] == a[size..] + b;
      match HandleFrame(a[..size], st) {
        case Err(_) =>
        case Ok(st') => ChunkIndependence(st', a[size..], b);
      }
  }

  lemma {:induction false} FeedFrom(st: RxState, buffer: seq<byte>, chunks: seq<seq<byte>>)
    ensures Feed(Process(st, buffer), chunks) == Process(st, buffer + Flatten(chunks))
    decreases |chunks|
  {
    if chunks == [] {
      assert buffer + Flatten(chunks) == buffer;
    } else {
      ChunkIndependence(st, buffer, chunks[0]);
      FeedFrom(st, buffer + chunks[0], chunks[1..]);
      Assoc(buffer, chunks[0], Flatten(chunks[1..]));
    }
  }

  /**
   Any two ways to cut the same bytes into chunks have the same outcome, also when bytes left
   over from before are only looked at once the first chunk arrives.
   */
  lemma SegmentationIrrelevant(st: RxState, left: seq<byte>, chunks: seq<seq<byte>>, chunks': seq<seq<byte>>)
    requires Flatten(chunks) == Flatten(chunks') && chunks != [] && chunks' != []
    ensures Feed(Running(st, left), chunks) == Feed(Running(st, left), chunks')
    ensures Feed(Running(st, left), chunks) == Process(st, left + Flatten(chunks))
  {
    FeedFirst(st, left, chunks);
    FeedFirst(st, left, chunks');
  }

  lemma FeedFirst(st: RxState, left: seq<byte>, chunks: seq<seq<byte>>)
    requires chunks != []
    ensures Feed(Running(st, left), chunks) == Process(st, left + Flatten(chunks))
  {
    FeedFrom(st, left + chunks[0], chunks[1..]);
    Assoc(left, chunks[0], Flatten(chunks[1..]));
  }

  // ----- what a run has done ------------------------------------------------------------

  /** The packet in a frame, if its header is accepted and it is of type `kind`. */
  predicate IsKind(frame: seq<byte>, kind: PacketType) {
    ParseHeader(frame).Ok? && ParseHeader(frame).value.kind == kind
  }

  /** The message of a PUBLISH frame. */
  function PublishIn(frame: seq<byte>): seq<Message> {
    if IsKind(frame, PUBLISH) && Parse(ParseHeader(frame).value).Ok? then [Parse(ParseHeader(frame).value).value] else []
  }

  /** The PUBLISH messages in a sequence of frames, in order. */
  function Publishes(frames: seq<seq<byte>>): seq<Message> {
    if frames == [] then [] else Publishes(frames[..|frames| - 1]) + PublishIn(frames[|frames| - 1])
  }

  lemma PublishesSnoc(frames: seq<seq<byte>>, frame: seq<byte>)
    ensures Publishes(frames + [frame]) == Publishes(frames) + PublishIn(frame)
  {
    hide PublishIn;
    assert (frames + [frame])[..|frames|] == frames;
  }

  /** The ping flag after handling frames: any PINGRESP clears it. */
  function StillWaiting(waiting: bool, frames: seq<seq<byte>>): bool {
    waiting && forall k :: 0 <= k < |frames| ==> !IsKind(frames[k], PINGRESP)
  }

  /** A frame that a run may have handled. */
  predicate Digestible(frame: seq<byte>) {
    && ParseHeader(frame).Ok?
    && Handle(ParseHeader(frame).value, RxState([], false, [])).Ok?
  }

  predicate AllDigestible(frames: seq<seq<byte>>) {
    forall k :: 0 <= k < |frames| ==> Digestible(frames[k])
  }

  lemma HandleFrameIff(frame: seq<byte>, st: RxState)
    ensures HandleFrame(frame, st).Ok? <==> Digestible(frame)
    ensures HandleFrame(frame, st).Ok? ==>
              HandleFrame(frame, st).value
              == RxState(st.messages + Publishes([frame]), StillWaiting(st.waiting, [frame]), st.frames + [frame])
  {
    PublishesSnoc([], frame);
    assert [] + [frame] == [frame];
    assert [frame][0] == frame;
  }

  /** The outcome of a run is determined by the cut of its bytes into frames. */
  ghost predicate HandledExactly(st: RxState, buffer: seq<byte>, fs: seq<seq<byte>>, st': RxState, rest: seq<byte>) {
    && AllFrames(fs) && AllDigestible(fs)
    && Flatten(fs) + rest == buffer && FirstFrame(rest).NotYet?
    && st' == RxState(st.messages + Publishes(fs), StillWaiting(st.waiting, fs), st.frames + fs)
  }

  lemma {:induction false} PublishesConcat(a: seq<seq<byte>>, b: seq<seq<byte>>)
    ensures Publishes(a + b) == Publishes(a) + Publishes(b)
    decreases |b|
  {
    hide PublishIn;
    if b == [] {
      assert a + b == a;
    } else {
      var b', last := b[..|b| - 1], b[|b| - 1];
      PublishesConcat(a, b');
      assert a + b == (a + b') + [last] && b == b' + [last];
      PublishesSnoc(a + b', last);
      PublishesSnoc(b', last);
      Assoc(Publishes(a), Publishes(b'), PublishIn(last));
    }
  }

  lemma StillWaitingConcat(waiting: bool, a: seq<seq<byte>>, b: seq<seq<byte>>)
    ensures StillWaiting(waiting, a + b) == StillWaiting(StillWaiting(waiting, a), b)
  {
    if StillWaiting(waiting, a + b) {
      assert forall k :: 0 <= k < |a| ==> a[k] == (a + b)[k];
      assert forall k :: 0 <= k < |b| ==> b[k] == (a + b)[|a| + k];
    }
  }

  /**
   Delivery: a run that does not fail has handled a sequence of whole frames that, with the
   rest, makes up exactly the bytes; it has queued exactly their PUBLISH messages, in order.
   */
  lemma {:induction false} RunSound(st: RxState, buffer: seq<byte>) returns (fs: seq<seq<byte>>)
    requires Process(st, buffer).Running?
    ensures HandledExactly(st, buffer, fs, Process(st, buffer).st, Process(st, buffer).rest)
    decreases |buffer|
  {
    hide Digestible, IsFrame, HandledExactly, HandleFrame, Flatten;
    match FirstFrame(buffer)
    case NotYet =>
      fs := [];
      RunEmpty(st, buffer);
    case Complete(size) =>
      var frame := buffer[..size];
      var st1 := HandleFrame(frame, st).value;
      SliceIsFrame(buffer);
      var tail := RunSound(st1, buffer[size..]);
      fs := [frame] + tail;
      RunStep(st, frame, buffer[size..], tail, Process(st1, buffer[size..]).st, Process(st1, buffer[size..]).rest);
      assert frame + buffer[size..] == buffer;
  }

  lemma DigestibleCons(frame: seq<byte>, tail: seq<seq<byte>>)
    requires IsFrame(frame) && AllFrames(tail) && Digestible(frame) && AllDigestible(tail)
    ensures AllFrames([frame] + tail) && AllDigestible([frame] + tail)
  {
    assert forall k :: 0 < k < |[frame] + tail| ==> ([frame] + tail)[k] == tail[k - 1];
  }

  lemma RunStep(st: RxState, frame: seq<byte>, buffer: seq<byte>, tail: seq<seq<byte>>, st': RxState, rest: seq<byte>)
    requires IsFrame(frame) && HandleFrame(frame, st).Ok?
    requires HandledExactly(HandleFrame(frame, st).value, buffer, tail, st', rest)
    ensures HandledExactly(st, frame + buffer, [frame] + tail, st', rest)
  {
    HandleFrameIff(frame, st);
    DigestibleCons(frame, tail);
    assert Flatten([frame] + tail) + rest == frame + buffer by {
      FlattenConcat([frame], tail);
      FlattenOne(frame);
      Assoc(frame, Flatten(tail), rest);
    }
    PublishesConcat([frame], tail);
    Assoc(st.messages, Publishes([frame]), Publishes(tail));
    StillWaitingConcat(st.waiting, [frame], tail);
    Assoc(st.frames, [frame], tail);
  }

  lemma RunEmpty(st: RxState, buffer: seq<byte>)
    requires FirstFrame(buffer).NotYet?
    ensures HandledExactly(st, buffer, [], st, buffer)
  {
    assert Flatten([]) + buffer == buffer;
    assert st.messages + Publishes([]) == st.messages && st.frames + [] == st.frames;
  }

  /** Conversely, a stream cut into digestible frames and an unfinished rest is handled like that. */
  lemma {:induction false} RunComplete(st: RxState, fs: seq<seq<byte>>, rest: seq<byte>)
    requires AllFrames(fs) && AllDigestible(fs) && FirstFrame(rest).NotYet?
    ensures Process(st, Flatten(fs) + rest)
         == Running(RxState(st.messages + Publishes(fs), StillWaiting(st.waiting, fs), st.frames + fs), rest)
    decreases |fs|
  {
    hide Parse, ParseHeader, Handle;
    if fs == [] {
      assert Flatten(fs) + rest == rest;
      assert st.messages + [] == st.messages && st.frames + fs == st.frames;
    } else {
      var frame, tail := fs[0], fs[1..];
      var buffer := Flatten(tail) + rest;
      var s := Flatten(fs) + rest;
      assert s == frame + buffer;
      FramingPrefixStable(frame, buffer);
      assert s[..|frame|] == frame && s[|frame|..] == buffer;
      HandleFrameIff(frame, st);
      var st1 := HandleFrame(frame, st).value;
      RunComplete(st1, tail, rest);
      assert fs == [frame] + tail;
      assert HandledExactly(st1, buffer, tail, Process(st1, buffer).st, rest);
      RunStep(st, frame, buffer, tail, Process(st1, buffer).st, rest);
    }
  }

  // ----- polls --------------------------------------------------------------------------

  /** What a poll does that reads `chunk`: without new bytes the buffer is not looked at. */
  function Polled(st: RxState, buffer: seq<byte>, chunk: seq<byte>): Outcome {
    if chunk == [] then Running(st, buffer) else Process(st, buffer + chunk)
  }

  /** The polls that read `chunks` one after the other. */
  function PolledAll(outcome: Outcome, chunks: seq<seq<byte>>): Outcome
    decreases |chunks|
  {
    if chunks == [] || outcome.Failed? then outcome
    else PolledAll(Polled(outcome.st, outcome.rest, chunks[0]), chunks[1..])
  }

  /** Once a run has looked at the buffer, polls are runs: skipping an empty one makes no difference. */
  lemma {:induction false} PolledAfterRun(st: RxState, buffer: seq<byte>, chunks: seq<seq<byte>>)
    ensures PolledAll(Process(st, buffer), chunks) == Process(st, buffer + Flatten(chunks))
    decreases |chunks|
  {
    var outcome := Process(st, buffer);
    if chunks == [] {
      assert buffer + Flatten(chunks) == buffer;
    } else if outcome.Failed? {
      ChunkIndependence(st, buffer, Flatten(chunks));
    } else {
      var chunk := chunks[0];
      var _ := RunSound(st, buffer);
      assert outcome.rest + [] == outcome.rest;
      ChunkIndependence(st, buffer, chunk);
      PolledAfterRun(st, buffer + chunk, chunks[1..]);
      Assoc(buffer, chunk, Flatten(chunks[1..]));
    }
  }

  /** Polls that read nothing change nothing, whatever lies in the buffer. */
  lemma {:induction false} EmptyPolls(st: RxState, buffer: seq<byte>, chunks: seq<seq<byte>>)
    requires Flatten(chunks) == []
    ensures PolledAll(Running(st, buffer), chunks) == Running(st, buffer)
    decreases |chunks|
  {
    if chunks != [] {
      EmptyPolls(st, buffer, chunks[1..]);
    }
  }

  /**
   Polls, whatever they read, handle exactly what one run on all the bytes handles, with one
   exception: frames that were in the buffer before and no byte behind them.
   */
  lemma {:induction false} PollsAreOneRun(st: RxState, buffer: seq<byte>, chunks: seq<seq<byte>>)
    ensures PolledAll(Running(st, buffer), chunks) == Process(st, buffer + Flatten(chunks))
            <==> Flatten(chunks) != [] || FirstFrame(buffer).NotYet?
    decreases |chunks|
  {
    if Flatten(chunks) == [] {
      EmptyPolls(st, buffer, chunks);
      assert buffer + Flatten(chunks) == buffer;
      if Process(st, buffer) == Running(st, buffer) {
        var _ := RunSound(st, buffer);
      }
    } else if chunks[0] == [] {
      PollsAreOneRun(st, buffer, chunks[1..]);
      assert Flatten(chunks) == Flatten(chunks[1..]);
    } else {
      PolledAfterRun(st, buffer + chunks[0], chunks[1..]);
      Assoc(buffer, chunks[0], Flatten(chunks[1..]));
    }
  }

  // ----- from the sender's messages to the receiver's queue -----------------------------

  function Frames(ms: seq<Message>): seq<seq<byte>> {
    seq(|ms|, k requires 0 <= k < |ms| => FrameOf(ms[k]))
  }

  /** A message the encoder accepts, that survives its own encoding, and that the client takes. */
  predicate Deliverable(m: Message) {
    && Encode(m).Ok? && Fits(m)
    && (m.Publish? ==> m.qos == 0)
    && (m.Suback? ==> m.codes[0] != SUBACK_FAILURE)
  }

  function OnlyPublishes(ms: seq<Message>): seq<Message> {
    if ms == [] then []
    else OnlyPublishes(ms[..|ms| - 1]) + if ms[|ms| - 1].Publish? then [ms[|ms| - 1]] else []
  }

  /** Of the messages that are read back unchanged, the client takes exactly the deliverable ones. */
  lemma DeliverableIff(m: Message)
    requires Encode(m).Ok? && Fits(m)
    ensures IsFrame(FrameOf(m))
    ensures Deliverable(m) <==> Digestible(FrameOf(m))
    ensures Publishes([FrameOf(m)]) == if m.Publish? then [m] else []
  {
    hide Parse, ParseHeader, Body, Frame, Fits, IsFrame, Handle;
    var frame := FrameOf(m);
    PrintedIsFrame(Kind(m), Flags(m), Body(m));
    var p := Packet(Kind(m), Flags(m), Body(m));
    assert Encode(m) == Ok(frame);
    MessageRoundTrip(m, []);
    assert frame + [] == frame;
    assert ParseHeader(frame) == Ok(p) && Parse(p) == Ok(m);
    HandleParsed(m);
    PublishesSnoc([], frame);
    assert [] + [frame] == [frame];
  }

  lemma HandleParsed(m: Message)
    requires CheckError(m).None?
    ensures var p := Packet(Kind(m), Flags(m), Body(m));
            Parse(p) == Ok(m) ==>
              (Handle(p, RxState([], false, [])).Ok?
               <==> (m.Publish? ==> m.qos == 0) && (m.Suback? ==> m.codes[0] != SUBACK_FAILURE))
  {
    hide Parse, Body;
  }

  lemma {:induction false} FramesOfDeliverables(ms: seq<Message>)
    requires forall k :: 0 <= k < |ms| ==> Deliverable(ms[k])
    ensures AllFrames(Frames(ms)) && AllDigestible(Frames(ms))
    ensures Publishes(Frames(ms)) == OnlyPublishes(ms)
  {
    hide Publishes, Encode, Fits, AllDigestible, AllFrames, Digestible, IsFrame, FrameOf;
    FramesOfNone();
    if ms != [] {
      var init, last := ms[..|ms| - 1], ms[|ms| - 1];
      FramesOfDeliverables(init);
      DeliverableIff(last);
      assert Frames(ms) == Frames(init) + [FrameOf(last)];
      FramesSnoc(Frames(init), FrameOf(last));
      PublishesConcat(Frames(init), [FrameOf(last)]);
    }
  }

  lemma FramesOfNone()
    ensures AllFrames(Frames([])) && AllDigestible(Frames([])) && Publishes(Frames([])) == []
  {
  }

  lemma FramesSnoc(frames: seq<seq<byte>>, last: seq<byte>)
    requires AllFrames(frames) && AllDigestible(frames) && IsFrame(last) && Digestible(last)
    ensures AllFrames(frames + [last]) && AllDigestible(frames + [last])
  {
    hide IsFrame, Digestible;
  }

  /**
   End to end: however the bytes of the encoded messages are cut into chunks, the receiver ends
   with nothing left over and has queued exactly the PUBLISH messages sent, in order.
   */
  lemma EndToEnd(st: RxState, ms: seq<Message>, chunks: seq<seq<byte>>)
    requires forall k :: 0 <= k < |ms| ==> Deliverable(ms[k])
    requires chunks != [] && Flatten(chunks) == Flatten(Frames(ms))
    ensures var outcome := Feed(Running(st, []), chunks);
            && outcome.Running? && outcome.rest == []
            && outcome.st.messages == st.messages + OnlyPublishes(ms)
            && outcome.st.frames == st.frames + Frames(ms)
  {
    FramesOfDeliverables(ms);
    SegmentationIrrelevant(st, [], chunks, chunks);
    RunComplete(st, Frames(ms), []);
    assert [] + Flatten(chunks) == Flatten(Frames(ms)) + [];
  }

  /**
   The exception, for a message: a PUBLISH that came in the same read as the CONNACK waits through
   every poll that reads nothing, and is queued, before anything else, by the first that does not.
   */
  lemma WelcomePublishWaits(st: RxState, m: Message, chunks: seq<seq<byte>>, chunk: seq<byte>)
    requires m.Publish? && Deliverable(m) && Flatten(chunks) == [] && chunk != []
    ensures PolledAll(Running(st, FrameOf(m)), chunks) == Running(st, FrameOf(m))
    ensures PolledAll(Running(st, FrameOf(m)), chunks + [chunk])
         == Process(RxState(st.messages + [m], st.waiting, st.frames + [FrameOf(m)]), chunk)
  {
    hide *;
    var frame := FrameOf(m);
    EmptyPolls(st, frame, chunks);
    FlattenSnoc(chunks, chunk);
    PollsAreOneRun(st, frame, chunks + [chunk]);
    WholeDeliverable(m, st.waiting);
    FrameThen(st, frame, chunk);
    assert [] + chunk == chunk;
  }

  lemma WholeDeliverable(m: Message, waiting: bool)
    requires m.Publish? && Deliverable(m)
    ensures IsFrame(FrameOf(m)) && Digestible(FrameOf(m)) && Publishes([FrameOf(m)]) == [m]
    ensures StillWaiting(waiting, [FrameOf(m)]) == waiting
  {
    hide Parse, ParseHeader, Digestible, Publishes, Handle;
    DeliverableIff(m);
    HeaderPrinted(PUBLISH, Flags(m), Body(m), []);
    assert FrameOf(m) + [] == FrameOf(m);
  }

  /** A digestible frame at the front is handled first. */
  lemma FrameThen(st: RxState, frame: seq<byte>, later: seq<byte>)
    requires IsFrame(frame) && Digestible(frame)
    ensures Process(st, frame + later)
         == Process(RxState(st.messages + Publishes([frame]), StillWaiting(st.waiting, [frame]), st.frames + [frame]), later)
  {
    hide Digestible, Publishes, StillWaiting, HandleFrame;
    FramingPrefixStable(frame, later);
    assert (frame + later)[..|frame|] == frame && (frame + later)[|frame|..] == later;
    HandleFrameIff(frame, st);
  }
}
