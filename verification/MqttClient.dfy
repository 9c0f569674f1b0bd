/**
 MqttClient: the connection state machine. Ghost fields record the current session as a trace
 and keep the finished ones; `Valid` is what holds at every boundary of the public interface.
 */
module MqttClient {
  import opened Basics
  import opened MqttMessages
  import opened MqttFraming
  import opened MqttStream
  import opened MqttSession
  import opened MqttTiming
  import opened MqttWire
  import opened RemainingLength
  import opened Transport
  import MqttEncoder
  import MqttParser

  datatype ClientState = DISCONNECTED | CONNECTING | CONNECTED | DISCONNECTING

  /**
   A session: its events with the time of each, the keep-alive interval, the bytes written and read,
   and the messages handed to the application.
   */
  datatype Session = Session(trace: seq<Event>, times: seq<nat>, keepAlive: u16,
                             wire: seq<byte>, read: seq<byte>, handed: seq<Message>)

  /** The session followed the automaton and the pace, and bytes and messages are what its trace says. */
  ghost predicate Recorded(s: Session) {
    && Conforms(s.trace) && Paced(s.trace, s.times, s.keepAlive) && SentBytes(s.trace) == s.wire
    && Flatten(ReceivedFrames(s.trace)) <= s.read && s.handed <= Publishes(ReceivedFrames(s.trace))
  }

  /** What a session looks like from outside: its events, its bytes both ways, and its messages. */
  ghost predicate FollowsRules(s: Session) {
    && Disciplined(s.trace) && Paced(s.trace, s.times, s.keepAlive)
    && Split(s.wire) == (if CutAtEnd(s.trace) then (Frames(SentMessages(s.trace) + [s.trace[|s.trace| - 1].m]), [])
                         else (Frames(SentMessages(s.trace)), CutBytes(s.trace)))
    && ReceivedFrames(s.trace) <= Split(s.read).0
    && s.handed <= Publishes(ReceivedFrames(s.trace))
  }

  lemma RecordedFollowsRules(s: Session)
    requires Recorded(s)
    ensures FollowsRules(s)
  {
    hide Split, SentBytes, SentMessages, Disciplined, CutBytes, Conforms, FrameOf, ReceivedFrames, Publishes, Paced;
    SessionDiscipline(s.trace);
    WireDecodes(s.trace);
    ReadsDecode(s.trace, s.read);
  }

  lemma ReadsDecode(trace: seq<Event>, read: seq<byte>)
    requires Conforms(trace) && Flatten(ReceivedFrames(trace)) <= read
    ensures ReceivedFrames(trace) <= Split(read).0
  {
    hide Split, Conforms, ReceivedFrames, Flatten;
    var frames := ReceivedFrames(trace);
    var later := read[|Flatten(frames)|..];
    assert read == Flatten(frames) + later;
    ReceivedAreFrames(trace);
    ReceivedIsPrefix(frames, later);
  }

  /** The k-th packet identifier a client allocates, counted from 0. */
  function NthIdentifier(k: nat): (id: u16)
    ensures id != 0
  {
    1 + k % 65535
  }

  /** Packet identifiers are never 0 and any 65,535 consecutive ones are distinct. */
  lemma IdentifiersDistinct(k: nat, k': nat)
    requires k < k' < k + 65535
    ensures NthIdentifier(k) != NthIdentifier(k')
    ensures NthIdentifier(0) == 1 && NthIdentifier(65534) == 65535 && NthIdentifier(65535) == 1
  {
    assert k' - k == 65535 * (k' / 65535 - k / 65535) + (k' % 65535 - k % 65535);
  }

  /** After `trace` came a packet `m` that was cut short. */
  ghost predicate IsCut(later: seq<Event>, trace: seq<Event>, m: Message) {
    exists count: nat :: later == trace + [Cut(m, count)]
  }

  /** The session of `before`, taken further. */
  ghost predicate GrowsTo(before: Session, after: Session) {
    && before.trace <= after.trace && before.times <= after.times && before.keepAlive == after.keepAlive
    && before.wire <= after.wire && before.read <= after.read && before.handed == after.handed
  }

  /** The only news is one finished session: the one of `before`, taken further on `c`, which is closed. */
  ghost predicate SessionOver(earlier: seq<Session>, before: Session, c: TcpConnection, later: seq<Session>)
    reads c
  {
    && later != [] && later[..|later| - 1] == earlier && c.Dropped()
    && var s := later[|later| - 1];
       GrowsTo(before, s) && s.wire == c.written && s.read == c.delivered
  }

  lemma GrewBy(a: Session, b: Session, c: Session)
    requires GrowsTo(a, b) && b.trace <= c.trace && b.times <= c.times && b.keepAlive == c.keepAlive
    requires b.wire == c.wire && b.read == c.read && b.handed == c.handed
    ensures GrowsTo(a, c)
  {
  }

  /** What is over from a later point of the session on is over from an earlier one on. */
  lemma OverFrom(earlier: seq<Session>, before: Session, middle: Session, c: TcpConnection, later: seq<Session>)
    requires GrowsTo(before, middle) && SessionOver(earlier, middle, c, later)
    ensures SessionOver(earlier, before, c, later)
  {
  }

  /** The only news is one finished session on `c`: an attempt to connect with `hello` that failed with `error`. */
  ghost predicate Attempted(earlier: seq<Session>, hello: Message, c: TcpConnection, later: seq<Session>, error: Error)
    reads c
  {
    && hello.Connect? && later != [] && later[..|later| - 1] == earlier && c.Dropped()
    && var s := later[|later| - 1];
       && s.wire == c.written && s.read == c.delivered && s.handed == [] && s.keepAlive == hello.keepAlive
       && match Encode(hello)
          case Err(reason) => s.trace == [] && error == reason
          case Ok(_) =>
            || (IsCut(s.trace, [], hello) && (c.ended || c.refused) && error in {Closed, Transport, NotWritten})
            || (s.trace == [Sent(hello)] && NoWelcome(s.read, c, error))
  }

  /** No first part of what arrived is an accepting CONNACK. */
  ghost predicate Unwelcomed(arrived: seq<byte>) {
    forall k :: 0 <= k <= |arrived| ==> !AcceptedConnack(arrived[..k])
  }

  /** Bytes that hold no whole frame, and are all that arrived or too many for a CONNACK, show that none came. */
  lemma NoConnackYet(read: seq<byte>, arrived: seq<byte>)
    requires read <= arrived && FirstFrame(read).NotYet? && (read == arrived || |read| >= 256)
    ensures Unwelcomed(arrived)
  {
    hide AcceptedConnack, FirstFrame;
    forall k | 0 <= k <= |arrived| ensures !AcceptedConnack(arrived[..k]) {
      var frame := arrived[..k];
      if AcceptedConnack(frame) {
        ConnackIsShort(frame);
        assert read == frame + read[k..];
        FramingPrefixStable(frame, read[k..]);
      }
    }
  }

  lemma ConnackIsShort(frame: seq<byte>)
    requires AcceptedConnack(frame)
    ensures |frame| <= 7 && FirstFrame(frame) == Complete(|frame|)
  {
    SliceParses(frame);
    assert frame[..|frame|] == frame;
  }

  /** Why no CONNACK was accepted: the first frame read is none, or none came before the deadline or the end. */
  ghost predicate NoWelcome(read: seq<byte>, c: TcpConnection, error: Error)
    reads c
  {
    match FirstFrame(read)
    case Complete(size) => !AcceptedConnack(read[..size]) && error != Timeout
    case Malformed => error == LengthTooLong
    case NotYet => (error == Timeout && Unwelcomed(c.arrived)) || (error in {Closed, Transport} && c.Dry())
  }

  /** Once a second frame was received, every whole frame in the buffer `left` has been handled. */
  ghost predicate CaughtUp(trace: seq<Event>, left: seq<byte>) {
    |ReceivedFrames(trace)| > 1 ==> FirstFrame(left).NotYet?
  }

  /** `later` is `earlier` with more sessions behind it. */
  ghost predicate Extends(earlier: seq<Session>, later: seq<Session>) {
    earlier <= later
  }

  class Client {
    const clock: Clock
    var conn: TcpConnection?
    var state: ClientState
    var nextPacketIdentifier: u16
    var keepAliveSeconds: u16
    var waitingForPingresp: bool
    var lastTx: nat
    var lastRx: nat
    var rxBuffer: seq<byte>
    var incomingMessages: seq<Message>

    ghost var trace: seq<Event>            // the current session
    ghost var times: seq<nat>              // when each of its events happened
    ghost var readAt: seq<nat>             // when each of its bytes was read
    ghost var returned: seq<Message>       // its messages already taken by the application
    ghost var sessions: seq<Session>       // the finished sessions
    ghost var dialed: seq<TcpConnection>   // every connection ever dialed
    ghost var identifiers: seq<u16>        // every packet identifier ever allocated

    // ----- invariants -------------------------------------------------------------------

    ghost predicate Wired()
      reads `conn, `trace, conn
    {
      conn != null && conn.Valid() && conn.Held() && SentBytes(trace) == conn.written
    }

    /** Bytes written, bytes read and messages queued are exactly what the trace says. */
    ghost predicate Linked()
      reads `conn, `trace, `readAt, `rxBuffer, `returned, `incomingMessages, conn
    {
      && Wired()
      && Flatten(ReceivedFrames(trace)) + rxBuffer == conn.delivered
      && returned + incomingMessages == Publishes(ReceivedFrames(trace))
      && |readAt| == |conn.delivered|
    }

    /** Events and reads have times in order, up to now, and the pings keep the pace. */
    ghost predicate OnTime()
      reads `trace, `times, `readAt, `keepAliveSeconds, clock
    {
      && Paced(trace, times, keepAliveSeconds)
      && Ascending(times, clock.now) && Ascending(readAt, clock.now)
    }

    /**
     `lastTx` is the time of the last packet sent, or of connecting; `lastRx` is the time of the last
     byte read, or of connecting when nothing was read since.
     */
    ghost predicate Pinned()
      reads `trace, `times, `readAt, `lastTx, `lastRx
    {
      && |times| == |trace| >= 2 && readAt != []
      && lastTx == times[LastSend(trace)]
      && lastRx == if times[1] <= readAt[|readAt| - 1] then readAt[|readAt| - 1] else times[1]
    }

    ghost predicate Idle()
      reads this
    {
      && conn == null && rxBuffer == [] && incomingMessages == [] && !waitingForPingresp
      && trace == [] && times == [] && readAt == [] && returned == []
    }

    /** The session so far. */
    ghost function Current(): Session
      requires conn != null
      reads `trace, `times, `keepAliveSeconds, `conn, `returned, conn
    {
      Session(trace, times, keepAliveSeconds, conn.written, conn.delivered, returned)
    }

    /** Every connection ever dialed has its session, but for the last one while it is held. */
    ghost predicate HistoryOk()
      reads `sessions, `dialed, `conn
    {
      && (forall k :: 0 <= k < |sessions| ==> Recorded(sessions[k]))
      && |dialed| == |sessions| + (if conn == null then 0 else 1)
      && (conn != null ==> dialed[|dialed| - 1] == conn)
    }

    ghost predicate IdentifiersOk()
      reads `nextPacketIdentifier, `identifiers
    {
      && nextPacketIdentifier == NthIdentifier(|identifiers|)
      && forall k :: 0 <= k < |identifiers| ==> identifiers[k] == NthIdentifier(k)
    }

    /**
     A connection is held exactly while CONNECTED; otherwise both buffers are empty and no ping
     is awaited. While connected, the ping flag is the automaton's: a PINGREQ is unanswered. Whole
     frames wait in the receive buffer only if they came with the CONNACK and nothing was read since.
     */
    ghost predicate Valid()
      reads this, conn, clock
    {
      match state
      case CONNECTED => HistoryOk() && IdentifiersOk() && Linked() && Running() && CaughtUp(trace, rxBuffer)
      case _ => HistoryOk() && IdentifiersOk() && Idle()
    }

    /** The session is up, on time, and the fields of keep-alive are what it says. */
    ghost predicate Running()
      reads `trace, `times, `readAt, `keepAliveSeconds, `lastTx, `lastRx, `waitingForPingresp, clock
    {
      match RunPhase(trace)
      case Up(waiting) => waiting == waitingForPingresp && OnTime() && Pinned()
      case _ => false
    }

    /**
     Just connected: the session is exactly `hello` sent and an accepted CONNACK received, and
     whatever was read beyond it waits in the receive buffer.
     */
    ghost predicate Welcomed(hello: Message)
      reads this, conn, clock
    {
      && hello.Connect? && state == CONNECTED && conn != null && incomingMessages == [] && returned == [] && !waitingForPingresp
      && |trace| == 2 && trace[0] == Sent(hello) && trace[1].Received? && AcceptedConnack(trace[1].frame)
      && Encode(hello) == Ok(conn.written) && conn.delivered == trace[1].frame + rxBuffer
      && lastTx == lastRx == clock.now && keepAliveSeconds == hello.keepAlive
    }

    /** Waiting for the CONNACK: only `hello` is on the wire. */
    ghost predicate Greeted(hello: Message)
      reads this, conn, clock
    {
      && hello.Connect? && Encode(hello).Ok? && keepAliveSeconds == hello.keepAlive
      && state == CONNECTING && Linked() && OnTime() && conn.written == FrameOf(hello)
      && trace == [Sent(hello)] && RunPhase(trace) == Greeting
      && incomingMessages == [] && returned == [] && !waitingForPingresp
    }

    constructor (clock: Clock)
      ensures Valid() && state == DISCONNECTED && this.clock == clock
      ensures sessions == [] && dialed == [] && identifiers == []
    {
      this.clock := clock;
      conn, state := null, DISCONNECTED;
      nextPacketIdentifier, keepAliveSeconds, waitingForPingresp := 1, 60, false;
      lastTx, lastRx := 0, 0;
      rxBuffer, incomingMessages := [], [];
      trace, times, readAt, returned := [], [], [], [];
      sessions, dialed, identifiers := [], [], [];
    }

    // ----- private operations -----------------------------------------------------------

    method AllocatePacketIdentifier() returns (id: u16)
      requires IdentifiersOk()
      modifies `nextPacketIdentifier, `identifiers
      ensures IdentifiersOk() && identifiers == old(identifiers) + [id] && id == NthIdentifier(|old(identifiers)|)
    {
      id := nextPacketIdentifier;
      nextPacketIdentifier := (nextPacketIdentifier + 1) % 65536;
      if nextPacketIdentifier == 0 {
        nextPacketIdentifier := 1;
      }
      identifiers := identifiers + [id];
    }

    method CleanupConnection()
      requires HistoryOk() && (conn != null ==> conn.Valid() && Recorded(Current()))
      requires conn == null ==> trace == [] && times == [] && readAt == [] && returned == []
      modifies `conn, `state, `waitingForPingresp, `rxBuffer, `incomingMessages
      modifies `trace, `times, `readAt, `returned, `sessions, conn
      ensures Idle() && state == DISCONNECTED && HistoryOk()
      ensures sessions == old(sessions) + if old(conn) == null then [] else [old(Current())]
      ensures Extends(old(sessions), sessions)
      ensures old(conn) != null ==> OnlyClosed(old(conn))
    {
      hide Recorded, HistoryOk;
      if conn != null {
        var _ := conn.Close();
        sessions := sessions + [Current()];
        conn := null;
      }
      waitingForPingresp := false;
      rxBuffer := [];
      incomingMessages := [];
      trace, times, readAt, returned := [], [], [], [];
      state := DISCONNECTED;
      if old(conn) != null {
        HistoryCloses();
      }
    }

    twostate lemma HistoryCloses()
      requires old(HistoryOk()) && old(conn) != null && conn == null && dialed == old(dialed)
      requires |sessions| == |old(sessions)| + 1 && sessions[..|old(sessions)|] == old(sessions)
      requires Recorded(sessions[|old(sessions)|])
      ensures HistoryOk()
    {
      hide Recorded;
      assert forall k :: 0 <= k < |old(sessions)| ==> sessions[k] == old(sessions)[k];
    }

    /** All that has happened to `c` is that it was closed. */
    twostate predicate OnlyClosed(c: TcpConnection)
      reads c
    {
      && c.Dropped() && c.written == old(c.written) && c.delivered == old(c.delivered) && c.rxBuffer == old(c.rxBuffer)
      && c.arrived == old(c.arrived)
      && c.ended == old(c.ended) && c.refused == old(c.refused) && c.hasError == old(c.hasError)
    }

    lemma LinkedIsRecorded()
      requires Linked() && OnTime() && !RunPhase(trace).Broken?
      ensures Recorded(Current())
    {
      hide RunPhase, SentBytes, ReceivedFrames, Flatten, Publishes, Paced;
    }

    /**
     Writes a whole packet in as many partial writes as the connection needs. Either all of it is
     on the wire, once, or the connection is gone and `cut` bytes of it were taken.
     */
    method SendEncoded(packet: seq<byte>, ghost m: Message) returns (err: Option<Error>, ghost cut: nat)
      requires HistoryOk() && packet == FrameOf(m)
      requires conn == null ==> Idle()
      requires conn != null ==> Linked() && OnTime() && !Advance(RunPhase(trace), Sent(m)).Broken?
      requires conn != null && m == PING ==> MayPing(clock.now)
      modifies `conn, `state, `waitingForPingresp, `rxBuffer, `incomingMessages
      modifies `trace, `times, `readAt, `returned, `sessions, `lastTx, conn, clock
      ensures HistoryOk() && old(clock.now) <= clock.now && Extends(old(sessions), sessions)
      ensures err.None? ==>
                && Linked() && OnTime() && conn == old(conn) && lastTx == clock.now
                && trace == old(trace) + [Sent(m)] && times == old(times) + [clock.now]
                && conn.delivered == old(conn.delivered) && conn.written == old(conn.written) + packet
                && old(conn.arrived) <= conn.arrived
                && state == old(state) && waitingForPingresp == old(waitingForPingresp)
                && rxBuffer == old(rxBuffer) && incomingMessages == old(incomingMessages)
                && readAt == old(readAt) && returned == old(returned) && sessions == old(sessions)
      ensures err.Some? ==>
                && Idle() && state == DISCONNECTED && cut <= |packet|
                && (old(conn) == null ==> err.value == NotConnected && sessions == old(sessions))
      ensures err.Some? && old(conn) != null ==>
                && SendFailed(old(conn), m, err.value) && old(conn).written == old(conn.written) + packet[..cut]
    {
      hide FrameOf, Advance, Publishes, ReceivedFrames, Encode, RunPhase, SentBytes, Flatten, Recorded, Paced, LastSend;
      hide Ascending, HistoryOk, SendFailed, Extends;
      ExtendsSelf(sessions);
      cut := 0;
      if conn == null {
        CleanupConnection();
        err := Some(NotConnected);
      } else {
        err, cut := WriteAll(packet);
        if err.Some? {
          CutShort(m, cut);
          SendHasFailed(old(conn), m, cut, old(times) + [clock.now], err.value);
        } else {
          ghost var before: nat := clock.now;
          lastTx := clock.GetAbsoluteTime();
          AscendingOn(times, before, clock.now);
          AscendingOn(readAt, before, clock.now);
          RecordSent(m);
        }
      }
    }

    twostate lemma SendHasFailed(c: TcpConnection, new m: Message, new cut: nat, new ts: seq<nat>, new error: Error)
      requires c == old(conn) && c.Dropped() && old(c.written) <= c.written && c.delivered == old(c.delivered)
      requires keepAliveSeconds == old(keepAliveSeconds) && old(times) <= ts
      requires sessions == old(sessions) + [Session(old(trace) + [Cut(m, cut)], ts, keepAliveSeconds,
                                                    c.written, c.delivered, old(returned))]
      requires (c.ended || c.refused) && error in {Closed, Transport, NotWritten}
      ensures SendFailed(c, m, error)
    {
    }

    /** The session is over, with `cut` bytes of `m` as the last thing written. */
    method CutShort(ghost m: Message, ghost cut: nat)
      requires HistoryOk() && conn != null && conn.Valid() && cut <= |FrameOf(m)|
      requires conn.written == SentBytes(trace) + FrameOf(m)[..cut]
      requires Flatten(ReceivedFrames(trace)) + rxBuffer == conn.delivered
      requires returned + incomingMessages == Publishes(ReceivedFrames(trace))
      requires OnTime() && (m == PING ==> MayPing(clock.now)) && !Advance(RunPhase(trace), Sent(m)).Broken?
      modifies `conn, `state, `waitingForPingresp, `rxBuffer, `incomingMessages
      modifies `trace, `times, `readAt, `returned, `sessions, conn
      ensures HistoryOk() && Idle() && state == DISCONNECTED && Extends(old(sessions), sessions)
      ensures sessions == old(sessions) + [Session(old(trace) + [Cut(m, cut)], old(times) + [clock.now], keepAliveSeconds,
                                                   old(conn.written), old(conn.delivered), old(returned))]
      ensures OnlyClosed(old(conn))
    {
      hide HistoryOk, Recorded, OnTime, MayPing, FrameOf, SentBytes, Flatten, ReceivedFrames, Publishes, Advance, RunPhase;
      hide Idle, Extends;
      RecordCut(m, cut);
      CurrentIs();
      CleanupConnection();
    }

    lemma CurrentIs()
      requires conn != null
      ensures Current() == Session(trace, times, keepAliveSeconds, conn.written, conn.delivered, returned)
    {
    }

    /** Half the keep-alive interval has passed since the last send. */
    ghost predicate MayPing(now: nat)
      reads `trace, `times, `keepAliveSeconds
    {
      |times| == |trace| >= 2 && now - times[LastSend(trace)] >= 500_000 * keepAliveSeconds
    }

    /** The partial-write loop: all of the packet, once, or an error after `done` bytes of it. */
    method WriteAll(packet: seq<byte>) returns (err: Option<Error>, ghost done: nat)
      requires conn != null && conn.Valid() && conn.Held()
      modifies conn
      ensures conn.Valid() && !conn.shut && done <= |packet| && conn.written == old(conn.written) + packet[..done]
      ensures conn.delivered == old(conn.delivered) && old(conn.arrived) <= conn.arrived
      ensures if err.None? then done == |packet| && conn.Held()
              else (conn.ended || conn.refused) && err.value in {Closed, Transport, NotWritten}
    {
      var totalWritten := 0;
      while totalWritten < |packet|
        invariant totalWritten <= |packet| && conn.Valid() && conn.Held() && conn.delivered == old(conn.delivered)
        invariant conn.written == old(conn.written) + packet[..totalWritten] && old(conn.arrived) <= conn.arrived
        decreases |packet| - totalWritten
      {
        var written, writeErr;
        ghost var accepted;
        written, writeErr, accepted := conn.Write(packet[totalWritten..]);
        done := totalWritten + accepted;
        assert packet[..totalWritten] + packet[totalWritten..][..accepted] == packet[..done];
        Assoc(old(conn.written), packet[..totalWritten], packet[totalWritten..][..accepted]);
        if writeErr.Some? {
          return writeErr, done;
        }
        if written == 0 {
          return Some(NotWritten), done;
        }
        totalWritten := totalWritten + written;
      }
      return None, totalWritten;
    }

    lemma ReceivedAfter(trace: seq<Event>, e: Event)
      requires !e.Received?
      ensures ReceivedFrames(trace + [e]) == ReceivedFrames(trace)
    {
      BytesSnoc(trace, e);
    }

    /** The packet just written is one more event of the session. */
    ghost method RecordSent(m: Message)
      requires conn != null && conn.Valid() && conn.Held() && |readAt| == |conn.delivered|
      requires conn.written == SentBytes(trace) + FrameOf(m)
      requires Flatten(ReceivedFrames(trace)) + rxBuffer == conn.delivered
      requires returned + incomingMessages == Publishes(ReceivedFrames(trace))
      requires OnTime() && (m == PING ==> MayPing(clock.now))
      modifies `trace, `times
      ensures trace == old(trace) + [Sent(m)] && times == old(times) + [clock.now] && Linked() && OnTime()
    {
      hide FrameOf, Publishes, ReceivedFrames, SentBytes, Flatten, Paced, LastSend, Ascending, IsPing;
      PingOnly(m);
      BytesSnoc(trace, Sent(m));
      ReceivedAfter(trace, Sent(m));
      PacedSnoc(trace, times, keepAliveSeconds, Sent(m), clock.now);
      AscendingOn(times, clock.now, clock.now);
      trace, times := trace + [Sent(m)], times + [clock.now];
    }

    lemma PingOnly(m: Message)
      ensures IsPing(Sent(m)) <==> m == PING
    {
    }

    ghost method RecordCut(m: Message, cut: nat)
      requires conn != null && conn.Valid() && cut <= |FrameOf(m)|
      requires conn.written == SentBytes(trace) + FrameOf(m)[..cut]
      requires Flatten(ReceivedFrames(trace)) + rxBuffer == conn.delivered
      requires returned + incomingMessages == Publishes(ReceivedFrames(trace))
      requires OnTime() && (m == PING ==> MayPing(clock.now)) && !Advance(RunPhase(trace), Sent(m)).Broken?
      modifies `trace, `times
      ensures trace == old(trace) + [Cut(m, cut)] && times == old(times) + [clock.now] && Recorded(Current())
    {
      hide FrameOf, Advance, Publishes, ReceivedFrames, SentBytes, Flatten, Paced, LastSend;
      CutAllowed(RunPhase(trace), m, cut);
      RunPhaseSnoc(trace, Cut(m, cut));
      BytesSnoc(trace, Cut(m, cut));
      ReceivedAfter(trace, Cut(m, cut));
      PacedSnoc(trace, times, keepAliveSeconds, Cut(m, cut), clock.now);
      trace, times := trace + [Cut(m, cut)], times + [clock.now];
    }

    method HandlePacket(packet: Packet, ghost frames: seq<seq<byte>>) returns (err: Option<Error>)
      modifies `incomingMessages, `waitingForPingresp
      ensures match Handle(packet, RxState(old(incomingMessages), old(waitingForPingresp), frames))
              case Ok(st) => err == None && incomingMessages == st.messages && waitingForPingresp == st.waiting
              case Err(error) => err == Some(error) && incomingMessages == old(incomingMessages)
                                 && waitingForPingresp == old(waitingForPingresp)
    {
      if packet.kind == PUBLISH {
        var msg := MqttParser.ParsePublish(packet);
        if msg.Err? {
          return Some(msg.error);
        }
        if msg.value.qos > 0 {
          return Some(UnsupportedQos);
        }
        incomingMessages := incomingMessages + [msg.value];
        return None;
      } else if packet.kind == PINGRESP {
        var msg := MqttParser.ParseEmpty(PINGRESP, packet);
        if msg.Err? {
          return Some(msg.error);
        }
        waitingForPingresp := false;
        return None;
      } else if packet.kind == SUBACK {
        var msg := MqttParser.ParseSuback(packet);
        if msg.Err? {
          return Some(msg.error);
        }
        if msg.value.codes == [] {
          return Some(EmptyList);
        }
        if msg.value.codes[0] == SUBACK_FAILURE {
          return Some(SubscriptionRejected);
        }
        return None;
      } else {
        return None;
      }
    }

    /** What a frame does to the record of the session: one more received, everything still linked. */
    ghost method RecordReceived(frame: seq<byte>, rest: seq<byte>, before: seq<Message>, waiting: bool)
      requires conn != null && conn.Valid() && conn.Held() && SentBytes(trace) == conn.written
      requires |readAt| == |conn.delivered| && RunPhase(trace) == Up(waiting) && OnTime() && Pinned()
      requires Flatten(ReceivedFrames(trace)) + (frame + rest) == conn.delivered
      requires returned + before == Publishes(ReceivedFrames(trace))
      requires IsFrame(frame) && Digestible(frame) && rxBuffer == rest
      requires incomingMessages == before + Publishes([frame]) && waitingForPingresp == StillWaiting(waiting, [frame])
      modifies `trace, `times
      ensures trace == old(trace) + [Received(frame)] && old(times) <= times
      ensures Linked() && Running()
    {
      hide Publishes, StillWaiting, IsFrame, Digestible, RunPhase, Flatten, ReceivedFrames, SentBytes, Paced, LastSend;
      ReceiveOne(trace, frame);
      ReceivedStep(ReceivedFrames(trace), frame, rest, returned, before);
      PacedSnoc(trace, times, keepAliveSeconds, Received(frame), clock.now);
      AscendingOn(times, clock.now, clock.now);
      LastSendSnoc(trace, Received(frame));
      trace, times := trace + [Received(frame)], times + [clock.now];
    }

    lemma ReceivedStep(frames: seq<seq<byte>>, frame: seq<byte>, rest: seq<byte>, taken: seq<Message>, queue: seq<Message>)
      ensures Flatten(frames + [frame]) + rest == Flatten(frames) + (frame + rest)
      ensures taken + queue == Publishes(frames) ==>
                taken + (queue + Publishes([frame])) == Publishes(frames + [frame])
    {
      hide Publishes, Flatten;
      FlattenSnoc(frames, frame);
      Assoc(Flatten(frames), frame, rest);
      PublishesConcat(frames, [frame]);
      Assoc(taken, queue, Publishes([frame]));
    }

    /** Handles the frame at the front of the receive buffer; on an error nothing but the outcome changes. */
    method ProcessFrame(size: nat, ghost frames: seq<seq<byte>>) returns (err: Option<Error>)
      requires Linked() && Running() && FirstFrame(rxBuffer) == Complete(size)
      modifies `waitingForPingresp, `rxBuffer, `incomingMessages, `trace, `times
      ensures Linked() && Running() && old(times) <= times
      ensures match HandleFrame(old(rxBuffer)[..size], RxState(old(incomingMessages), old(waitingForPingresp), frames))
              case Err(error) => err == Some(error) && unchanged(this)
              case Ok(st) =>
                && err.None? && incomingMessages == st.messages && waitingForPingresp == st.waiting
                && st.frames == frames + [old(rxBuffer)[..size]] && trace == old(trace) + [Received(old(rxBuffer)[..size])]
                && rxBuffer == old(rxBuffer)[size..]
    {
      hide Publishes, Parse, ParseHeader, SentBytes, RunPhase, Handle, Digestible, StillWaiting, ReceivedFrames, Flatten;
      hide IsFrame, OnTime, Pinned;
      var packetSpan := rxBuffer[..size];
      var packet := MqttParser.ParseControlPacket(packetSpan);
      if packet.Err? {
        return Some(packet.error);
      }
      HandleFrameIff(packetSpan, RxState(incomingMessages, waitingForPingresp, frames));
      SliceIsFrame(rxBuffer);
      ghost var before, waiting := incomingMessages, waitingForPingresp;
      err := HandlePacket(packet.value, frames);
      if err.Some? {
        return;
      }
      assert rxBuffer == packetSpan + rxBuffer[size..];
      rxBuffer := rxBuffer[size..];
      RecordReceived(packetSpan, rxBuffer, before, waiting);
    }

    /**
     Handles every whole frame in the receive buffer: the outcome is that of the stream function,
     and the trace grows by exactly the handled frames.
     */
    method ProcessRxBuffer() returns (err: Option<Error>)
      requires HistoryOk() && Linked() && Running()
      modifies `conn, `state, `waitingForPingresp, `rxBuffer, `incomingMessages
      modifies `trace, `times, `readAt, `returned, `sessions, conn
      ensures HistoryOk() && Extends(old(sessions), sessions)
      ensures match Process(RxState(old(incomingMessages), old(waitingForPingresp), []), old(rxBuffer))
              case Running(st, rest) =>
                && err.None? && conn == old(conn) && state == old(state) && sessions == old(sessions)
                && Linked() && Running() && FirstFrame(rxBuffer).NotYet?
                && incomingMessages == st.messages && waitingForPingresp == st.waiting && rxBuffer == rest
                && trace == old(trace) + ReceivedAll(st.frames) && old(times) <= times
                && readAt == old(readAt) && returned == old(returned)
                && conn.delivered == old(conn.delivered) && conn.written == old(conn.written)
                && conn.arrived == old(conn.arrived)
              case Failed(error) =>
                && err == Some(error) && Idle() && state == DISCONNECTED
                && OnlyClosed(old(conn)) && SessionOver(old(sessions), old(Current()), old(conn), sessions)
    {
      hide Linked, Running, HistoryOk, Recorded, OnTime, Pinned, RunPhase, FirstFrame, Process, ReceivedAll, GrowsTo;
      hide Idle, SessionOver, Extends;
      ExtendsSelf(sessions);
      LinkedHolds();
      err := HandleFrames();
      if err.Some? {
        RunningHolds();
        ghost var middle := Current();
        Drop();
        OverFrom(old(sessions), old(Current()), middle, old(conn), sessions);
      }
    }

    /** The loop over the receive buffer: up to the first error, or until no whole frame is left. */
    method HandleFrames() returns (err: Option<Error>)
      requires Linked() && Running()
      modifies `waitingForPingresp, `rxBuffer, `incomingMessages, `trace, `times
      ensures Linked() && Running() && conn != null && GrowsTo(old(Current()), Current())
      ensures match Process(RxState(old(incomingMessages), old(waitingForPingresp), []), old(rxBuffer))
              case Running(st, rest) =>
                && err.None? && FirstFrame(rxBuffer).NotYet?
                && incomingMessages == st.messages && waitingForPingresp == st.waiting && rxBuffer == rest
                && trace == old(trace) + ReceivedAll(st.frames) && old(times) <= times
              case Failed(error) => err == Some(error)
    {
      hide Linked, Running, HandleFrame, ReceivedAll, Recorded, FirstFrame;
      ghost var frames: seq<seq<byte>> := [];
      ghost var outcome := Process(RxState(incomingMessages, waitingForPingresp, []), rxBuffer);
      NothingMore(trace);
      LinkedHolds();
      while true
        invariant Linked() && Running()
        invariant trace == old(trace) + ReceivedAll(frames) && old(times) <= times
        invariant outcome == Process(RxState(incomingMessages, waitingForPingresp, frames), rxBuffer)
        decreases |rxBuffer|
      {
        var info := MqttFrameInfo(rxBuffer);
        if info.Malformed? {
          return Some(LengthTooLong);
        }
        if info.NotYet? {
          return None;
        }
        ghost var packetSpan := rxBuffer[..info.size];
        err := ProcessFrame(info.size, frames);
        if err.Some? {
          return;
        }
        ReceivedAllSnoc(old(trace), frames, packetSpan);
        frames := frames + [packetSpan];
      }
    }

    /** The session, if there is one, is over where it stands. */
    method Drop()
      requires HistoryOk() && if conn == null then Idle() else Linked() && OnTime() && !RunPhase(trace).Broken?
      modifies `conn, `state, `waitingForPingresp, `rxBuffer, `incomingMessages
      modifies `trace, `times, `readAt, `returned, `sessions, conn
      ensures HistoryOk() && Idle() && state == DISCONNECTED && Extends(old(sessions), sessions)
      ensures sessions == old(sessions) + if old(conn) == null then [] else [old(Current())]
      ensures old(conn) != null ==>
                OnlyClosed(old(conn)) && SessionOver(old(sessions), old(Current()), old(conn), sessions)
    {
      hide HistoryOk, Linked, Recorded, OnTime, RunPhase;
      if conn != null {
        LinkedHolds();
        LinkedIsRecorded();
      }
      CleanupConnection();
    }

    lemma RunningHolds()
      requires Running()
      ensures OnTime() && Pinned() && RunPhase(trace) == Up(waitingForPingresp)
    {
    }

    lemma LinkedHolds()
      requires Linked()
      ensures conn != null && conn.Valid() && conn.Held() && |readAt| == |conn.delivered|
    {
    }

    lemma NothingMore(trace: seq<Event>)
      ensures trace + ReceivedAll([]) == trace
    {
    }

    lemma PhaseConforms(trace: seq<Event>)
      ensures RunPhase(trace).Up? || RunPhase(trace).Greeting? || RunPhase(trace).Fresh? ==> Conforms(trace)
    {
    }

    // ----- public operations ------------------------------------------------------------

    /** Dialing either hands out a fresh connection or fails. */
    method DialTcp() returns (r: Result<TcpConnection>)
      ensures r.Ok? ==> fresh(r.value) && r.value.Valid() && r.value.Held() && r.value.delivered == [] && r.value.written == []
      ensures r.Err? ==> r.error == Transport
    {
      var reachable: bool := *;
      if !reachable {
        return Err(Transport);
      }
      var c := new TcpConnection();
      return Ok(c);
    }

    /**
     On success the session is exactly CONNECT sent and an accepted CONNACK received; whatever
     was read beyond it waits in the receive buffer. On failure no connection is held, and the session
     of the connection, if dialing gave one, says why.
     */
    method Connect(m: Message, timeoutMs: nat) returns (err: Option<Error>)
      requires Valid() && m.Connect?
      modifies `conn, `state, `waitingForPingresp, `rxBuffer, `incomingMessages
      modifies `trace, `times, `readAt, `returned, `sessions, `dialed, `keepAliveSeconds, `lastTx, `lastRx, clock
      ensures Valid() && Extends(old(sessions), sessions)
      ensures old(clock.now) <= clock.now
      ensures old(state) == CONNECTED ==>
                err == Some(AlreadyConnected) && unchanged(this) && clock.now == old(clock.now)
      ensures old(state) != CONNECTED && err.None? ==>
                Welcomed(m) && fresh(conn) && dialed == old(dialed) + [conn] && sessions == old(sessions)
      ensures old(state) != CONNECTED && err.Some? ==>
                && conn == null && state in {CONNECTING, DISCONNECTED}
                && if dialed == old(dialed) then err.value == Transport && sessions == old(sessions)
                   else
                     && |dialed| == |old(dialed)| + 1 && dialed[..|old(dialed)|] == old(dialed)
                     && var c := dialed[|old(dialed)|];
                        fresh(c) && Attempted(old(sessions), m, c, sessions, err.value)
      ensures old(state) != CONNECTED && err == Some(Timeout) ==>
                && clock.now >= old(clock.now) + 1000 * timeoutMs
                && |dialed| > |old(dialed)| && Unwelcomed(dialed[|old(dialed)|].arrived)
    {
      hide HistoryOk, IdentifiersOk, Attempted, NoWelcome, Unwelcomed, Greeted, Welcomed, Linked, Running, Encode, Extends;
      ExtendsSelf(sessions);
      if state == CONNECTED {
        return Some(AlreadyConnected);
      }
      err := Dial(m);
      if err.Some? {
        return err;
      }
      err := Greet(m);
      if err.Some? {
        return err;
      }
      ghost var tries;
      err, tries := AwaitConnack(m, timeoutMs);
    }

    /** Dials a connection and holds it. */
    method Dial(m: Message) returns (err: Option<Error>)
      requires Valid() && m.Connect? && state != CONNECTED
      modifies `conn, `state, `rxBuffer, `dialed, `keepAliveSeconds
      ensures state == CONNECTING && HistoryOk()
      ensures err.Some? ==> err.value == Transport && Idle() && dialed == old(dialed)
      ensures err.None? ==>
                && conn != null && fresh(conn) && dialed == old(dialed) + [conn] && keepAliveSeconds == m.keepAlive
                && conn.Valid() && conn.Held() && conn.written == [] && conn.delivered == [] && rxBuffer == []
    {
      hide HistoryOk;
      state := CONNECTING;
      var result := DialTcp();
      if result.Err? {
        return Some(result.error);
      }
      conn := result.value;
      dialed := dialed + [conn];
      keepAliveSeconds := m.keepAlive;
      rxBuffer := [];
      HistoryGrows();
      return None;
    }

    /** A new connection is the last one dialed, and the one that is held. */
    twostate lemma HistoryGrows()
      requires old(HistoryOk()) && old(conn) == null && conn != null
      requires sessions == old(sessions) && dialed == old(dialed) + [conn]
      ensures HistoryOk()
    {
      hide Recorded;
    }

    /** The first half of connecting: the CONNECT packet, alone, on the new connection. */
    method Greet(m: Message) returns (err: Option<Error>)
      requires m.Connect? && HistoryOk() && state == CONNECTING && keepAliveSeconds == m.keepAlive
      requires conn != null && conn.Valid() && conn.Held() && conn.written == [] && conn.delivered == []
      requires rxBuffer == [] && incomingMessages == [] && !waitingForPingresp
      requires trace == [] && times == [] && readAt == [] && returned == []
      modifies `conn, `state, `waitingForPingresp, `rxBuffer, `incomingMessages
      modifies `trace, `times, `readAt, `returned, `sessions, `lastTx, conn, clock
      ensures HistoryOk() && Extends(old(sessions), sessions) && old(clock.now) <= clock.now
      ensures err.None? ==> Greeted(m) && rxBuffer == [] && conn == old(conn) && sessions == old(sessions)
      ensures err.Some? ==>
                && Idle() && state == DISCONNECTED && err.value != Timeout
                && Attempted(old(sessions), m, old(conn), sessions, err.value)
    {
      hide FrameOf, Encode, HistoryOk;
      hide RunPhase, SentBytes, ReceivedFrames, Flatten, Publishes, Conforms, Advance;
      EmptySession();
      var packet := MqttEncoder.EncodeConnect(m);
      if packet.Err? {
        EncoderNeverTimesOut(m);
        LinkedIsRecorded();
        CleanupConnection();
        return Some(packet.error);
      }
      GreetingSent(m);
      ghost var cut;
      err, cut := SendEncoded(packet.value, m);
      ReceivedAfter([], Sent(m));
      assert [] + [Cut(m, cut)] == [Cut(m, cut)];
      assert err.None? ==> trace == [Sent(m)];
    }

    lemma EncoderNeverTimesOut(m: Message)
      requires m.Connect?
      ensures Encode(m) != Err(Timeout)
    {
    }

    lemma EmptySession()
      ensures SentBytes([]) == [] && Flatten(ReceivedFrames([])) == [] && Publishes(ReceivedFrames([])) == []
      ensures RunPhase([]) == Fresh && Conforms([])
    {
    }

    lemma GreetingSent(m: Message)
      requires m.Connect? && Encode(m).Ok?
      ensures Encode(m).value == FrameOf(m) && RunPhase([]) == Fresh && RunPhase([Sent(m)]) == Greeting
      ensures Advance(Fresh, Sent(m)) == Greeting
    {
      EncodedIsFrame(m);
      assert [] + [Sent(m)] == [Sent(m)];
      RunPhaseSnoc([], Sent(m));
    }

    /** Reads what is there, at most a buffer full, and appends it to the receive buffer. */
    method ReadChunk(buffer: array<byte>) returns (n: nat, err: Option<Error>)
      requires conn != null && conn.Valid() && conn.Held() && buffer.Length == 256
      requires |readAt| == |conn.delivered| && Ascending(readAt, clock.now)
      modifies `rxBuffer, `lastRx, `readAt, conn, buffer, clock
      ensures conn.Valid() && conn.Held() && conn.written == old(conn.written) && old(conn.arrived) <= conn.arrived
      ensures n <= 256 && (err.Some? ==> n == 0 && err.value in {Closed, Transport} && conn.Dry())
      ensures err.None? && n < 256 ==> conn.delivered == conn.arrived
      ensures conn.delivered == old(conn.delivered) + buffer[..n] && rxBuffer == old(rxBuffer) + buffer[..n]
      ensures |readAt| == |conn.delivered| && Ascending(readAt, clock.now) && old(clock.now) <= clock.now
      ensures if n == 0 then rxBuffer == old(rxBuffer) && readAt == old(readAt) && lastRx == old(lastRx)
              else readAt[|readAt| - 1] == lastRx == clock.now
    {
      n, err := conn.ReadNonblocking(buffer, 256);
      assert buffer[..0] == [];
      if n > 0 {
        lastRx := clock.GetAbsoluteTime();
        rxBuffer := rxBuffer + buffer[..n];
        ghost var at := lastRx;
        readAt := readAt + seq(n, _ => at);
      }
    }

    /** Bytes read and appended keep the record of the session. */
    twostate lemma ReadStaysLinked(chunk: seq<byte>)
      requires old(Linked()) && conn == old(conn) && conn.Valid() && conn.Held() && |readAt| == |conn.delivered|
      requires trace == old(trace) && returned == old(returned) && incomingMessages == old(incomingMessages)
      requires conn.written == old(conn.written) && conn.delivered == old(conn.delivered) + chunk
      requires rxBuffer == old(rxBuffer) + chunk
      ensures Linked()
    {
      hide SentBytes, Publishes, ReceivedFrames, Flatten;
      Assoc(Flatten(ReceivedFrames(trace)), old(rxBuffer), chunk);
    }

    twostate lemma ReadStaysOnTime()
      requires old(OnTime()) && trace == old(trace) && times == old(times) && keepAliveSeconds == old(keepAliveSeconds)
      requires old(clock.now) <= clock.now && Ascending(readAt, clock.now)
      ensures OnTime()
    {
      hide Paced;
    }

    /** A read moves the time of the last receive, and only if it takes bytes. */
    twostate lemma ReadStaysRunning()
      requires old(Running()) && OnTime() && trace == old(trace) && times == old(times)
      requires waitingForPingresp == old(waitingForPingresp) && lastTx == old(lastTx)
      requires || (readAt == old(readAt) && lastRx == old(lastRx))
               || (readAt != [] && readAt[|readAt| - 1] == lastRx == clock.now)
      ensures Running()
    {
      hide Paced, RunPhase, LastSend;
    }

    /**
     The second half of connecting: reads until a first frame, an error, or the deadline, which is
     looked at after each read and before each sleep of at least ten milliseconds. `tries` counts
     the reads: all but the last two are followed by a whole sleep before the deadline.
     */
    method AwaitConnack(m: Message, timeoutMs: nat) returns (err: Option<Error>, ghost tries: nat)
      requires HistoryOk() && IdentifiersOk() && Greeted(m) && rxBuffer == []
      modifies `conn, `state, `waitingForPingresp, `rxBuffer, `incomingMessages
      modifies `trace, `times, `readAt, `returned, `sessions, `lastTx, `lastRx, conn, clock
      ensures Valid() && Extends(old(sessions), sessions)
      ensures old(clock.now) <= clock.now && (tries >= 2 ==> 10 * (tries - 2) < timeoutMs)
      ensures err.None? ==> Welcomed(m) && conn == old(conn) && sessions == old(sessions)
      ensures err.Some? ==> Idle() && state == DISCONNECTED && Attempted(old(sessions), m, old(conn), sessions, err.value)
      ensures err == Some(Timeout) ==>
                clock.now >= old(clock.now) + 1000 * timeoutMs && var c := old(conn); Unwelcomed(c.arrived)
    {
      hide FrameOf, AcceptedConnack, SentBytes, RunPhase, HistoryOk, IdentifiersOk, FirstFrame, Welcomed, Greeted, Attempted;
      hide Valid, Extends, NoWelcome, OnTime, Unwelcomed;
      var buffer := new byte[256];
      EmptyIsNotYet();
      var size, failure;
      GreetedHolds(m);
      size, failure, tries := ReadFirstFrame(buffer, timeoutMs);
      ReadStaysOnTime();
      ReadStaysGreeted(m);
      if size > 0 {
        err := AcceptConnack(m, size);
      } else {
        TimedOutUnwelcomed(rxBuffer, conn, failure);
        Refuse(m, failure);
        NowIdle();
        err := Some(failure);
      }
    }

    lemma TimedOutUnwelcomed(read: seq<byte>, c: TcpConnection, error: Error)
      requires NoWelcome(read, c, error)
      ensures error == Timeout ==> Unwelcomed(c.arrived)
    {
      hide FirstFrame, AcceptedConnack, Unwelcomed;
    }

    lemma NowUp()
      requires HistoryOk() && IdentifiersOk() && Linked() && Running() && CaughtUp(trace, rxBuffer) && state == CONNECTED
      ensures Valid()
    {
      hide HistoryOk, IdentifiersOk, Linked, Running, CaughtUp;
    }

    lemma NowRunning(quiet: bool)
      requires HistoryOk() && IdentifiersOk() && Linked() && Running() && state == CONNECTED
      requires if quiet then CaughtUp(trace, rxBuffer) else FirstFrame(rxBuffer).NotYet?
      ensures Valid()
    {
      hide HistoryOk, IdentifiersOk, Linked, Running, ReceivedFrames, FirstFrame;
    }

    lemma NowIdle()
      requires HistoryOk() && IdentifiersOk() && Idle() && state == DISCONNECTED
      ensures Valid()
    {
    }

    /** The reads of the handshake: the size of the first frame, or why there is none. */
    method ReadFirstFrame(buffer: array<byte>, timeoutMs: nat) returns (size: nat, failure: Error, ghost tries: nat)
      requires conn != null && conn.Valid() && conn.Held() && buffer.Length == 256
      requires |readAt| == |conn.delivered| && Ascending(readAt, clock.now)
      requires conn.delivered == rxBuffer && FirstFrame(rxBuffer).NotYet?
      modifies `rxBuffer, `lastRx, `readAt, conn, buffer, clock
      ensures conn.Valid() && conn.Held() && conn.delivered == rxBuffer && conn.written == old(conn.written)
      ensures |readAt| == |conn.delivered| && Ascending(readAt, clock.now)
      ensures old(clock.now) <= clock.now && (tries >= 2 ==> 10 * (tries - 2) < timeoutMs)
      ensures if size > 0 then FirstFrame(rxBuffer) == Complete(size) else NoWelcome(rxBuffer, conn, failure)
      ensures size == 0 && failure == Timeout ==>
                && clock.now >= old(clock.now) + 1000 * timeoutMs
                && tries >= 1 && (rxBuffer == conn.arrived || |rxBuffer| >= 256)
    {
      hide FirstFrame, Ascending, Unwelcomed;
      var now := clock.GetAbsoluteTime();
      var until := now + timeoutMs * 1000;
      size, tries := 0, 0;
      AscendingOn(readAt, old(clock.now), clock.now);
      while true
        invariant conn.Valid() && conn.Held() && conn.delivered == rxBuffer && conn.written == old(conn.written)
        invariant |readAt| == |conn.delivered| && Ascending(readAt, clock.now)
        invariant FirstFrame(rxBuffer).NotYet? && now <= clock.now
        invariant tries >= 1 ==> 10 * (tries - 1) < timeoutMs && now + 10_000 * tries <= clock.now
        decreases until - clock.now
      {
        var n, readErr := ReadChunk(buffer);
        tries := tries + 1;
        if readErr.Some? {
          return 0, readErr.value, tries;
        }
        if n > 0 {
          var info := MqttFrameInfo(rxBuffer);
          if info.Malformed? {
            return 0, LengthTooLong, tries;
          }
          if info.Complete? {
            return info.size, Timeout, tries;
          }
        }
        ghost var before: nat := clock.now;
        var time := clock.GetAbsoluteTime();
        AscendingOn(readAt, before, time);
        if until - time <= 0 {
          NoConnackYet(rxBuffer, conn.arrived);
          return 0, Timeout, tries;
        }
        clock.SleepMs(10);
        AscendingOn(readAt, time, clock.now);
      }
    }

    /** Reading does not change that only the CONNECT was sent and nothing was handled. */
    twostate lemma ReadStaysGreeted(m: Message)
      requires old(Greeted(m)) && state == old(state) && conn == old(conn) && conn.Valid() && conn.Held() && OnTime()
      requires trace == old(trace) && returned == old(returned) && incomingMessages == old(incomingMessages)
      requires waitingForPingresp == old(waitingForPingresp) && keepAliveSeconds == old(keepAliveSeconds)
      requires conn.written == old(conn.written) && conn.delivered == rxBuffer && |readAt| == |rxBuffer|
      ensures Greeted(m)
    {
      hide SentBytes, Publishes, FrameOf, RunPhase, ReceivedFrames, OnTime, Encode;
      NothingReceived(m);
    }

    lemma EmptyIsNotYet()
      ensures FirstFrame([]).NotYet?
    {
    }

    /** While greeting, nothing that was read has been handled. */
    lemma GreetedHolds(m: Message)
      requires Greeted(m)
      ensures conn != null && conn.Valid() && conn.Held() && conn.delivered == rxBuffer
      ensures |readAt| == |rxBuffer| && OnTime() && Ascending(readAt, clock.now)
    {
      hide Publishes, SentBytes, RunPhase, FrameOf, ReceivedFrames, Paced, Ascending, Encode;
      NothingReceived(m);
    }

    lemma GreetedIsRecorded(m: Message)
      requires Greeted(m)
      ensures conn != null && Recorded(Current()) && Encode(m).Ok? && m.Connect?
      ensures Current() == Session([Sent(m)], times, m.keepAlive, FrameOf(m), conn.delivered, [])
    {
      hide Publishes, SentBytes, RunPhase, FrameOf, ReceivedFrames, Flatten, Recorded, OnTime, Encode;
      LinkedIsRecorded();
    }

    /** Connecting is given up: the session is over with the CONNECT as all that was sent. */
    method Refuse(ghost m: Message, ghost error: Error)
      requires HistoryOk() && Greeted(m) && NoWelcome(rxBuffer, conn, error)
      modifies `conn, `state, `waitingForPingresp, `rxBuffer, `incomingMessages
      modifies `trace, `times, `readAt, `returned, `sessions, conn
      ensures HistoryOk() && Idle() && state == DISCONNECTED && Extends(old(sessions), sessions)
      ensures Attempted(old(sessions), m, old(conn), sessions, error) && OnlyClosed(old(conn))
    {
      hide FrameOf, SentBytes, RunPhase, HistoryOk, Recorded, Greeted, FirstFrame, AcceptedConnack, Encode, OnTime, Ascending;
      GreetedHolds(m);
      GreetedIsRecorded(m);
      CleanupConnection();
    }

    /** Reads a frame and checks that it is a CONNACK that accepts the connection. */
    method ReadConnack(packetSpan: seq<byte>) returns (r: Result<Packet>)
      requires IsFrame(packetSpan)
      ensures r.Ok? <==> AcceptedConnack(packetSpan)
      ensures r.Ok? <==>
                && |packetSpan| >= 4 && packetSpan[0] == 0x20 && ScanLength(packetSpan[1..]) == Length(2, |packetSpan| - 3)
                && packetSpan[|packetSpan| - 2] <= 1 && packetSpan[|packetSpan| - 1] == 0
      ensures r.Ok? ==> ParseHeader(packetSpan) == r
      ensures r != Err(Timeout)
    {
      hide ParseHeader, IsFrame, ScanLength;
      AcceptedConnackIs(packetSpan);
      ParsersNeverTimeOut(packetSpan);
      var packet := MqttParser.ParseControlPacket(packetSpan);
      if packet.Err? {
        return packet;
      }
      if packet.value.kind != CONNACK {
        return Err(UnexpectedPacket);
      }
      var connack := MqttParser.ParseConnack(packet.value);
      if connack.Err? {
        return Err(connack.error);
      }
      if connack.value.returnCode != ACCEPTED {
        return Err(ConnectRejected);
      }
      return packet;
    }

    lemma ParsersNeverTimeOut(frame: seq<byte>)
      ensures ParseHeader(frame) != Err(Timeout)
      ensures ParseHeader(frame).Ok? && ParseHeader(frame).value.kind == CONNACK ==>
                Parse(ParseHeader(frame).value) != Err(Timeout)
    {
    }

    /** Connecting ends with the first whole frame: connected if it is an accepting CONNACK, else not. */
    method AcceptConnack(m: Message, size: nat) returns (err: Option<Error>)
      requires HistoryOk() && IdentifiersOk() && Greeted(m) && FirstFrame(rxBuffer) == Complete(size)
      modifies `conn, `state, `waitingForPingresp, `rxBuffer, `incomingMessages
      modifies `trace, `times, `readAt, `returned, `sessions, `lastTx, `lastRx, conn, clock
      ensures err.None? <==> AcceptedConnack(old(rxBuffer)[..size])
      ensures Valid() && Extends(old(sessions), sessions)
      ensures old(clock.now) <= clock.now && err != Some(Timeout)
      ensures err.None? ==> Welcomed(m) && conn == old(conn) && sessions == old(sessions)
      ensures err.Some? ==> Idle() && state == DISCONNECTED && Attempted(old(sessions), m, old(conn), sessions, err.value)
    {
      hide FrameOf, Publishes, Parse, ParseHeader, Encode, AcceptedConnack, SentBytes, RunPhase, Conforms, Attempted;
      hide HistoryOk, IdentifiersOk, ReceivedFrames, IsFrame, FirstFrame, Recorded, Flatten, OnTime, Greeted, Linked;
      ExtendsSelf(sessions);
      var packetSpan := rxBuffer[..size];
      SliceIsFrame(rxBuffer);
      var packet := ReadConnack(packetSpan);
      if packet.Err? {
        // The original may cut the frame off first; the buffer is cleared either way.
        GreetedHolds(m);
        Refuse(m, packet.error);
        return Some(packet.error);
      }
      assert rxBuffer == packetSpan + rxBuffer[size..];
      GreetedHolds(m);
      GreetedSent(m);
      rxBuffer := rxBuffer[size..];
      EnterConnected(m, packetSpan);
      return None;
    }

    lemma GreetedSent(m: Message)
      requires Greeted(m)
      ensures conn != null && Wired() && OnTime() && |readAt| == |conn.delivered|
      ensures trace == [Sent(m)] && RunPhase(trace) == Greeting && conn.written == FrameOf(m)
      ensures incomingMessages == [] && returned == [] && !waitingForPingresp
      ensures m.Connect? && Encode(m).Ok? && keepAliveSeconds == m.keepAlive
    {
      hide Publishes, SentBytes, RunPhase, FrameOf, ReceivedFrames, Encode, OnTime;
    }

    static lemma NothingReceived(m: Message)
      ensures ReceivedFrames([Sent(m)]) == []
    {
      BytesSnoc([], Sent(m));
      assert [] + [Sent(m)] == [Sent(m)];
    }

    method EnterConnected(ghost m: Message, ghost frame: seq<byte>)
      requires HistoryOk() && IdentifiersOk() && conn != null && Wired() && OnTime() && |readAt| == |conn.delivered|
      requires trace == [Sent(m)] && RunPhase(trace) == Greeting && conn.written == FrameOf(m)
      requires frame + rxBuffer == conn.delivered && AcceptedConnack(frame)
      requires incomingMessages == [] && returned == [] && !waitingForPingresp
      requires m.Connect? && Encode(m).Ok? && keepAliveSeconds == m.keepAlive
      modifies `trace, `times, `lastRx, `lastTx, `state, clock
      ensures Valid() && Welcomed(m) && old(clock.now) <= clock.now
    {
      hide ParseHeader, FrameOf, AcceptedConnack, RunPhase, SentBytes, ReceivedFrames, Flatten, Publishes, IsFrame;
      hide HistoryOk, IdentifiersOk, Encode, Paced, Ascending, LastSend;
      ConnackStep(m, frame);
      EncodedIsFrame(m);
      ghost var before: nat := clock.now;
      var now := clock.GetAbsoluteTime();
      StartOnTime(before, m, frame);
      trace := [Sent(m), Received(frame)];
      times := times + [now];
      lastRx := now;
      lastTx := now;
      state := CONNECTED;
    }

    /** The times of a session that is up with the CONNACK. */
    lemma StartOnTime(before: nat, m: Message, frame: seq<byte>)
      requires Paced(trace, times, keepAliveSeconds) && trace == [Sent(m)] && before <= clock.now
      requires Ascending(times, before) && Ascending(readAt, before)
      ensures Paced([Sent(m), Received(frame)], times + [clock.now], keepAliveSeconds)
      ensures Ascending(times + [clock.now], clock.now) && Ascending(readAt, clock.now)
      ensures readAt != [] ==> readAt[|readAt| - 1] <= clock.now
      ensures LastSend([Sent(m), Received(frame)]) == 1 && |times| == 1
    {
      AscendingOn(times, before, clock.now);
      assert [Sent(m)] + [Received(frame)] == [Sent(m), Received(frame)];
      PacedSnoc(trace, times, keepAliveSeconds, Received(frame), clock.now);
    }

    /** The accepted CONNACK takes the session from greeting to connected. */
    static lemma ConnackStep(m: Message, frame: seq<byte>)
      requires RunPhase([Sent(m)]) == Greeting && AcceptedConnack(frame)
      ensures var trace := [Sent(m), Received(frame)];
              && RunPhase(trace) == Up(false)
              && SentBytes(trace) == SentBytes([Sent(m)])
              && Flatten(ReceivedFrames(trace)) == frame && Publishes(ReceivedFrames(trace)) == []
              && |ReceivedFrames(trace)| == 1 && frame != []
    {
      hide ParseHeader, FrameOf, RunPhase, SentBytes, Flatten, Publishes, Parse;
      var hello := [Sent(m)];
      assert hello + [Received(frame)] == [Sent(m), Received(frame)];
      ConnackIsNoPublish(frame);
      RunPhaseSnoc(hello, Received(frame));
      BytesSnoc(hello, Received(frame));
      NothingReceived(m);
      assert [] + [frame] == [frame];
      FlattenOne(frame);
    }

    static lemma ConnackIsNoPublish(frame: seq<byte>)
      requires AcceptedConnack(frame)
      ensures Publishes([frame]) == []
    {
      hide ParseHeader, Parse;
      PublishesSnoc([], frame);
      assert [] + [frame] == [frame];
    }

    /** Sends one client request; the session either grows by it or is over. */
    method Request(packet: seq<byte>, ghost m: Message) returns (err: Option<Error>)
      requires Valid() && state == CONNECTED && packet == FrameOf(m) && ClientRequest(m)
      requires m != BYE && (m == PING ==> !waitingForPingresp && MayPing(clock.now))
      modifies `conn, `state, `waitingForPingresp, `rxBuffer, `incomingMessages
      modifies `trace, `times, `readAt, `returned, `sessions, `lastTx, conn, clock
      ensures HistoryOk() && IdentifiersOk() && Extends(old(sessions), sessions)
      ensures old(clock.now) <= clock.now
      ensures err.None? ==>
                && state == CONNECTED && Linked() && OnTime() && Pinned() && SentOnly(old(conn), m)
                && RunPhase(trace) == Up(old(waitingForPingresp) || m == PING)
                && waitingForPingresp == old(waitingForPingresp) && CaughtUp(trace, rxBuffer)
                && conn.written == old(conn.written) + packet
      ensures err.Some? || m != PING ==> Valid()
      ensures err.Some? ==> state == DISCONNECTED && SendFailed(old(conn), m, err.value)
    {
      hide FrameOf, Publishes, ReceivedFrames, Flatten, SentBytes, Digestible, HistoryOk, IdentifiersOk, Encode;
      hide Paced, Ascending, LastSend;
      RunPhaseSnoc(trace, Sent(m));
      ReceivedAfter(trace, Sent(m));
      LastSendSnoc(trace, Sent(m));
      ghost var cut;
      err, cut := SendEncoded(packet, m);
    }

    /** All that happened on the connection is that `m` was sent, and bytes may have arrived. */
    twostate predicate SentOnly(c: TcpConnection, new m: Message)
      reads this, c, clock
    {
      && conn == c == old(conn) && sessions == old(sessions) && lastTx == clock.now
      && trace == old(trace) + [Sent(m)] && times == old(times) + [clock.now]
      && c.delivered == old(c.delivered) && old(c.arrived) <= c.arrived
      && rxBuffer == old(rxBuffer) && incomingMessages == old(incomingMessages)
      && readAt == old(readAt) && returned == old(returned)
    }

    /** The session is over with `m` cut short, because the connection had ended or refused the write. */
    twostate predicate SendFailed(c: TcpConnection, new m: Message, new error: Error)
      reads this, c
    {
      && c == old(conn) && SessionOver(old(sessions), old(Current()), c, sessions)
      && IsCut(sessions[|sessions| - 1].trace, old(trace), m)
      && (c.ended || c.refused) && error in {Closed, Transport, NotWritten}
    }

    /**
     What became of a request: nothing but the encoder's error, the whole packet on the wire, or the
     session over with the packet cut short.
     */
    twostate predicate Requested(c: TcpConnection, new m: Message, new err: Option<Error>)
      reads this, c, clock
    {
      match Encode(m)
      case Err(error) =>
        && err == Some(error) && state == old(state) && conn == c == old(conn) && unchanged(c)
        && trace == old(trace) && times == old(times) && lastTx == old(lastTx) && sessions == old(sessions)
        && waitingForPingresp == old(waitingForPingresp) && rxBuffer == old(rxBuffer)
        && incomingMessages == old(incomingMessages) && readAt == old(readAt) && returned == old(returned)
      case Ok(packet) =>
        match err
        case None => state == CONNECTED && SentOnly(c, m) && c.written == old(c.written) + packet
        case Some(error) => state == DISCONNECTED && SendFailed(c, m, error)
    }

    /** Sends a request if it could be encoded. */
    method SendRequest(packet: Result<seq<byte>>, ghost m: Message) returns (err: Option<Error>)
      requires Valid() && state == CONNECTED && packet == Encode(m)
      requires m != BYE && m != PING && (Encode(m).Ok? ==> ClientRequest(m))
      modifies `conn, `state, `waitingForPingresp, `rxBuffer, `incomingMessages
      modifies `trace, `times, `readAt, `returned, `sessions, `lastTx, conn, clock
      ensures Valid() && Extends(old(sessions), sessions) && old(clock.now) <= clock.now
      ensures Requested(old(conn), m, err)
    {
      hide FrameOf, Encode, Extends, Valid, Linked, SessionOver, IsCut, ClientRequest;
      ExtendsSelf(sessions);
      ConnectedHolds();
      if packet.Err? {
        err := Some(packet.error);
      } else {
        EncodedIsFrame(m);
        err := Request(packet.value, m);
      }
    }

    /** Publishes with QoS 0. */
    method Publish(topic: seq<byte>, payload: seq<byte>, retain: bool) returns (err: Option<Error>)
      requires Valid()
      modifies `conn, `state, `waitingForPingresp, `rxBuffer, `incomingMessages
      modifies `trace, `times, `readAt, `returned, `sessions, `lastTx, conn, clock
      ensures Valid() && Extends(old(sessions), sessions) && old(clock.now) <= clock.now
      ensures old(state) != CONNECTED ==> err == Some(NotConnected) && unchanged(this)
      ensures old(state) == CONNECTED ==>
                Requested(old(conn), Message.Publish(false, 0, retain, topic, None, payload), err)
      ensures old(state) == CONNECTED && err.None? ==>
                var body := ([|topic| % 65536 / 256, |topic| % 256] + topic) + ([] + payload);
                conn.written == old(conn.written) + ([if retain then 0x31 else 0x30] + (LengthBytes(|body|) + body))
    {
      hide Encode, Extends, Valid, SessionOver, IsCut;
      ExtendsSelf(sessions);
      if state != CONNECTED {
        return Some(NotConnected);
      }
      ConnectedHolds();
      var m := Message.Publish(false, 0, retain, topic, None, payload);
      var packet := MqttEncoder.EncodePublish(m);
      if packet.Ok? {
        PublishOnWire(m);
      }
      err := SendRequest(packet, m);
    }

    lemma ExtendsSelf(s: seq<Session>)
      ensures Extends(s, s)
    {
    }

    /**
     Subscribes with QoS 0 under a new packet identifier. The identifier is used up even when the
     encoder rejects the topic, but the encoder never rejects the identifier.
     */
    method Subscribe(topic: seq<byte>, qos: byte) returns (err: Option<Error>)
      requires Valid()
      modifies `conn, `state, `waitingForPingresp, `rxBuffer, `incomingMessages
      modifies `trace, `times, `readAt, `returned, `sessions, `lastTx, `nextPacketIdentifier, `identifiers, conn, clock
      ensures Valid() && Extends(old(sessions), sessions) && old(clock.now) <= clock.now
      ensures old(state) != CONNECTED ==> err == Some(NotConnected) && unchanged(this)
      ensures old(state) == CONNECTED && qos > 0 ==> err == Some(UnsupportedQos) && unchanged(this)
      ensures old(state) == CONNECTED && qos == 0 ==>
                var m := Message.Subscribe(NthIdentifier(|old(identifiers)|), [Topic(topic, 0)]);
                && identifiers == old(identifiers) + [m.id] && Encode(m) != Err(BadPacketId)
                && Requested(old(conn), m, err)
      ensures old(state) == CONNECTED && qos == 0 && err.None? ==>
                var id := NthIdentifier(|old(identifiers)|);
                var topics := [|topic| % 65536 / 256, |topic| % 256] + (topic + [0]);
                conn.written == old(conn.written) + ([0x82] + (LengthBytes(2 + |topics|) + ([id / 256, id % 256] + topics)))
    {
      hide Encode, HistoryOk, Linked, Running, CaughtUp, Extends, Valid, SessionOver, IsCut;
      ExtendsSelf(sessions);
      if state != CONNECTED {
        return Some(NotConnected);
      }
      if qos > 0 {
        return Some(UnsupportedQos);
      }
      ConnectedHolds();
      var id := AllocatePacketIdentifier();
      NowUp();
      ConnectedHolds();
      var m := Message.Subscribe(id, [Topic(topic, 0)]);
      IdentifierAccepted(id, topic);
      var packet := MqttEncoder.EncodeSubscribe(m);
      if packet.Ok? {
        OneTopicOnWire(m);
      }
      err := SendRequest(packet, m);
    }

    lemma IdentifierAccepted(id: u16, topic: seq<byte>)
      requires id != 0
      ensures Encode(Message.Subscribe(id, [Topic(topic, 0)])) != Err(BadPacketId)
    {
      assert [Topic(topic, 0)][1..] == [];
      assert TopicsError([Topic(topic, 0)]) != Some(BadPacketId);
    }

    /**
     After a successful poll with keep-alive on: without an outstanding ping, less than half the
     interval has passed since the last send; with one, less than one and a half intervals since
     the last receive.
     */
    ghost predicate KeptAlive()
      reads this, clock
    {
      keepAliveSeconds > 0 ==>
        if waitingForPingresp then clock.now - lastRx < 1_500_000 * keepAliveSeconds
        else clock.now - lastTx < 500_000 * keepAliveSeconds
    }

    /**
     One step of the connected client. All that had arrived is read, or a buffer full, and the queue,
     the rest and any error are those of the stream function on the buffer with these bytes behind it;
     then the keep-alive rules apply. Any other error has its cause: nothing more can be read, the
     PINGREQ could not be sent, or nothing was received for too long.
     */
    method Poll() returns (err: Option<Error>, ghost chunk: seq<byte>)
      requires Valid()
      modifies `conn, `state, `waitingForPingresp, `rxBuffer, `incomingMessages
      modifies `trace, `times, `readAt, `returned, `sessions, `lastTx, `lastRx, conn, clock
      ensures Valid() && Extends(old(sessions), sessions)
      ensures old(clock.now) <= clock.now
      ensures old(state) != CONNECTED ==> err == Some(NotConnected) && unchanged(this)
      ensures if chunk == [] then lastRx == old(lastRx) else old(clock.now) <= lastRx <= clock.now
      ensures old(state) == CONNECTED && err.Some? ==>
                state == DISCONNECTED && SessionOver(old(sessions), old(Current()), old(conn), sessions)
      ensures old(state) == CONNECTED && err.None? ==>
                && state == CONNECTED && conn == old(conn) && sessions == old(sessions) && KeptAlive()
                && conn.delivered == old(conn.delivered) + chunk && |chunk| <= 256
                && Advances(old(Counts()), true, Counts()) && returned == old(returned)
      ensures old(state) == CONNECTED ==>
                match Polled(RxState(old(incomingMessages), old(waitingForPingresp), []), old(rxBuffer), chunk)
                case Failed(error) => err == Some(error)
                case Running(st, rest) =>
                  match err
                  case None =>
                    && incomingMessages == st.messages && rxBuffer == rest
                    && if waitingForPingresp == st.waiting then
                         && trace == old(trace) + ReceivedAll(st.frames) && lastTx == old(lastTx)
                         && conn.written == old(conn.written)
                       else
                         && trace == old(trace) + ReceivedAll(st.frames) + [Sent(PING)]
                         && conn.written == old(conn.written) + [0xC0, 0]
                         && keepAliveSeconds > 0 && !st.waiting && old(clock.now) <= lastTx <= clock.now
                         && lastTx - old(lastTx) >= 500_000 * keepAliveSeconds
                  case Some(error) =>
                    || (chunk == [] && error in {Closed, Transport} && old(conn).Dry())
                    || (&& keepAliveSeconds > 0 && error == Timeout
                        && clock.now - lastRx >= 1_500_000 * keepAliveSeconds
                        && sessions[|sessions| - 1].trace
                           == (if st.waiting then old(trace) + ReceivedAll(st.frames)
                               else old(trace) + ReceivedAll(st.frames) + [Sent(PING)]))
                    || (&& keepAliveSeconds > 0 && error in {Closed, Transport, NotWritten} && !st.waiting
                        && clock.now - old(lastTx) >= 500_000 * keepAliveSeconds
                        && (old(conn).ended || old(conn).refused)
                        && IsCut(sessions[|sessions| - 1].trace, old(trace) + ReceivedAll(st.frames), PING))
    {
      hide HistoryOk, IdentifiersOk, Extends, Process, Linked, Running, KeptAlive, Valid, SessionOver, GrowsTo, IsCut;
      hide ReceivedAll, Polled, RunPhase, Recorded;
      ExtendsSelf(sessions);
      chunk := [];
      if state != CONNECTED {
        err := Some(NotConnected);
      } else {
        ConnectedHolds();
        err, chunk := Receive();
        if err.None? {
          ConnectedHolds();
          ghost var middle := Current();
          err := KeepAlive();
          if err.Some? {
            OverFrom(old(sessions), old(Current()), middle, old(conn), sessions);
          }
        }
      }
    }

    /** How much has arrived and been read on the connection held. */
    ghost function Counts(): Progress
      requires conn != null
      reads `conn, conn
    {
      Progress(|conn.arrived|, |conn.delivered|)
    }

    /** The first half of polling: one read, and the frames it completes. */
    method Receive() returns (err: Option<Error>, ghost chunk: seq<byte>)
      requires Valid() && state == CONNECTED
      modifies `conn, `state, `waitingForPingresp, `rxBuffer, `incomingMessages, `lastRx
      modifies `trace, `times, `readAt, `returned, `sessions, conn, clock
      ensures Valid() && Extends(old(sessions), sessions) && old(clock.now) <= clock.now
      ensures if chunk == [] then lastRx == old(lastRx) else old(clock.now) <= lastRx <= clock.now
      ensures err.Some? ==> state == DISCONNECTED && SessionOver(old(sessions), old(Current()), old(conn), sessions)
      ensures err.None? ==>
                && state == CONNECTED && conn == old(conn) && sessions == old(sessions)
                && conn.delivered == old(conn.delivered) + chunk && |chunk| <= 256
                && Advances(old(Counts()), true, Counts()) && returned == old(returned)
                && conn.written == old(conn.written)
                && GrowsTo(old(Current()), Current())
      ensures match Polled(RxState(old(incomingMessages), old(waitingForPingresp), []), old(rxBuffer), chunk)
              case Failed(error) => err == Some(error)
              case Running(st, rest) =>
                match err
                case None =>
                  && incomingMessages == st.messages && rxBuffer == rest && waitingForPingresp == st.waiting
                  && trace == old(trace) + ReceivedAll(st.frames)
                case Some(error) => chunk == [] && error in {Closed, Transport} && old(conn).Dry()
    {
      hide HistoryOk, IdentifiersOk, Extends, Process, Linked, Running, ReceivedAll, Recorded, Valid, SessionOver, GrowsTo;
      hide CaughtUp, FirstFrame, RunPhase, Idle, OnTime, Pinned;
      ExtendsSelf(sessions);
      NothingMore(trace);
      ConnectedHolds();
      var n;
      n, err, chunk := ReadPolled();
      ghost var middle := Current();
      if err.Some? {
        RunningHolds();
        Drop();
      } else if n > 0 {
        err := ProcessRxBuffer();
      }
      if err.Some? {
        NowIdle();
        OverFrom(old(sessions), old(Current()), middle, old(conn), sessions);
      } else {
        NowRunning(n == 0);
        GrewBy(old(Current()), middle, Current());
      }
    }

    /** One read of a running session: it stays up, with the bytes read in the receive buffer. */
    method ReadPolled() returns (n: nat, err: Option<Error>, ghost chunk: seq<byte>)
      requires Linked() && Running()
      modifies `rxBuffer, `lastRx, `readAt, conn, clock
      ensures Linked() && Running() && old(clock.now) <= clock.now
      ensures n == |chunk| && rxBuffer == old(rxBuffer) + chunk && (chunk == [] ==> rxBuffer == old(rxBuffer))
      ensures if chunk == [] then lastRx == old(lastRx) else old(clock.now) <= lastRx <= clock.now
      ensures conn.delivered == old(conn.delivered) + chunk && |chunk| <= 256 && conn.written == old(conn.written)
      ensures GrowsTo(old(Current()), Current())
      ensures if err.None? then Advances(old(Counts()), true, Counts())
              else chunk == [] && err.value in {Closed, Transport} && conn.Dry()
    {
      hide FrameOf, OnTime, Pinned, RunPhase, SentBytes, Publishes, ReceivedFrames, Flatten;
      var buffer := new byte[256];
      LinkedHolds();
      OnTimeHolds();
      n, err := ReadChunk(buffer);
      chunk := buffer[..n];
      ReadStaysLinked(chunk);
      ReadStaysOnTime();
      ReadStaysRunning();
    }

    lemma OnTimeHolds()
      requires OnTime()
      ensures Ascending(times, clock.now) && Ascending(readAt, clock.now)
    {
    }

    /** The second half of polling: ping when idle, give up when nothing has come for too long. */
    method KeepAlive() returns (err: Option<Error>)
      requires Valid() && state == CONNECTED
      modifies `conn, `state, `waitingForPingresp, `rxBuffer, `incomingMessages
      modifies `trace, `times, `readAt, `returned, `sessions, `lastTx, conn, clock
      ensures Valid() && Extends(old(sessions), sessions) && old(clock.now) <= clock.now
      ensures keepAliveSeconds == 0 ==> err.None?
      ensures err.None? ==>
                && state == CONNECTED && KeptAlive()
                && if waitingForPingresp == old(waitingForPingresp) then unchanged(this) && unchanged(conn)
                   else keepAliveSeconds > 0 && Pinged(old(conn))
      ensures err.Some? ==> state == DISCONNECTED && Lapsed(old(conn), err.value)
    {
      hide RunPhase, Extends, Valid, Linked, SessionOver, IsCut, Recorded, GrowsTo;
      hide Running, HistoryOk, CaughtUp, IdentifiersOk, SendFailed, Idle, Lapsed;
      ExtendsSelf(sessions);
      ConnectedHolds();
      err := None;
      if keepAliveSeconds > 0 {
        err := PingWhenIdle();
        if err.Some? {
          LapsedUnsent(old(conn), err.value);
        } else {
          ConnectedHolds();
          ghost var middle := Current();
          err := GiveUpWhenSilent();
          if err.Some? {
            LapsedSilent(old(conn), middle);
          }
        }
      }
    }

    twostate lemma LapsedUnsent(c: TcpConnection, new error: Error)
      requires !old(waitingForPingresp) && clock.now - old(lastTx) >= 500_000 * keepAliveSeconds
      requires error != Timeout && SendFailed(c, PING, error)
      ensures Lapsed(c, error)
    {
      hide SendFailed, SessionOver;
    }

    twostate lemma LapsedSilent(c: TcpConnection, new middle: Session)
      requires c == old(conn) && GrowsTo(old(Current()), middle) && SessionOver(old(sessions), middle, c, sessions)
      requires sessions[|sessions| - 1] == middle && clock.now - lastRx >= 1_500_000 * keepAliveSeconds
      requires middle.trace == if old(waitingForPingresp) then old(trace) else old(trace) + [Sent(PING)]
      ensures Lapsed(c, Timeout)
    {
      hide SendFailed, GrowsTo;
      OverFrom(old(sessions), old(Current()), middle, c, sessions);
    }

    /**
     The session is over: a ping was outstanding and nothing was received for one and a half intervals,
     or a ping was due and could not be sent.
     */
    twostate predicate Lapsed(c: TcpConnection, new error: Error)
      reads this, c, clock
    {
      match error
      case Timeout =>
        && c == old(conn) && SessionOver(old(sessions), old(Current()), c, sessions)
        && clock.now - lastRx >= 1_500_000 * keepAliveSeconds
        && sessions[|sessions| - 1].trace
           == if old(waitingForPingresp) then old(trace) else old(trace) + [Sent(PING)]
      case _ =>
        && !old(waitingForPingresp) && clock.now - old(lastTx) >= 500_000 * keepAliveSeconds
        && SendFailed(c, PING, error)
    }

    lemma ConnectedHolds()
      requires Valid() && state == CONNECTED
      ensures HistoryOk() && IdentifiersOk() && Linked() && Running() && CaughtUp(trace, rxBuffer)
      ensures conn != null && conn.Valid() && conn.Held() && lastTx <= clock.now && lastRx <= clock.now
    {
      hide HistoryOk, IdentifiersOk, CaughtUp, LastSend, Paced, SentBytes, ReceivedFrames, Publishes, Flatten;
    }

    /** A PINGREQ was sent, the first thing since half the interval, and nothing else happened. */
    twostate predicate Pinged(c: TcpConnection)
      reads this, c, clock
    {
      && waitingForPingresp && !old(waitingForPingresp) && conn == c == old(conn) && sessions == old(sessions)
      && trace == old(trace) + [Sent(PING)] && times == old(times) + [lastTx]
      && old(clock.now) <= lastTx <= clock.now && lastTx - old(lastTx) >= 500_000 * keepAliveSeconds
      && c.delivered == old(c.delivered) && old(c.arrived) <= c.arrived && c.written == old(c.written) + [0xC0, 0]
      && rxBuffer == old(rxBuffer) && incomingMessages == old(incomingMessages)
      && readAt == old(readAt) && returned == old(returned)
    }

    /** Gives up when a ping is outstanding and nothing was received for one and a half intervals. */
    method GiveUpWhenSilent() returns (err: Option<Error>)
      requires Valid() && state == CONNECTED && keepAliveSeconds > 0
      modifies `conn, `state, `waitingForPingresp, `rxBuffer, `incomingMessages
      modifies `trace, `times, `readAt, `returned, `sessions, conn, clock
      ensures Valid() && old(clock.now) <= clock.now
      ensures err.Some? ==>
                && sessions != [] && old(waitingForPingresp) && clock.now - lastRx >= 1_500_000 * keepAliveSeconds
                && err.value == Timeout && state == DISCONNECTED
                && sessions[|sessions| - 1] == old(Current())
                && SessionOver(old(sessions), old(Current()), old(conn), sessions)
                && Extends(old(sessions), sessions)
      ensures err.None? ==>
                && unchanged(this) && unchanged(conn)
                && if waitingForPingresp then clock.now - lastRx < 1_500_000 * keepAliveSeconds
                   else clock.now == old(clock.now)
    {
      hide HistoryOk, IdentifiersOk, RunPhase, Extends, Linked, OnTime, Pinned, SessionOver, Recorded, CaughtUp;
      LinkedHolds();
      err := None;
      if waitingForPingresp {
        OnTimeHolds();
        var timeoutUs := keepAliveSeconds * 1000 * 1000 + keepAliveSeconds * 1000 * 1000 / 2;
        var now := clock.GetAbsoluteTime();
        ReadStaysOnTime();
        var sinceLastRxUs := now - lastRx;
        if sinceLastRxUs >= timeoutUs {
          Drop();
          err := Some(Timeout);
        }
      }
    }

    /** Pings when nothing was sent for half the interval, unless a ping is already outstanding. */
    method PingWhenIdle() returns (err: Option<Error>)
      requires Valid() && state == CONNECTED && keepAliveSeconds > 0
      modifies `conn, `state, `waitingForPingresp, `rxBuffer, `incomingMessages
      modifies `trace, `times, `readAt, `returned, `sessions, `lastTx, conn, clock
      ensures Valid() && Extends(old(sessions), sessions) && old(clock.now) <= clock.now
      ensures err.Some? ==>
                && state == DISCONNECTED && !old(waitingForPingresp) && SendFailed(old(conn), PING, err.value)
                && err.value != Timeout && clock.now - old(lastTx) >= 500_000 * keepAliveSeconds
      ensures err.None? ==>
                && state == CONNECTED && GrowsTo(old(Current()), Current())
                && if waitingForPingresp == old(waitingForPingresp) then
                     && unchanged(this) && unchanged(conn)
                     && (!waitingForPingresp ==> clock.now - lastTx < 500_000 * keepAliveSeconds)
                   else Pinged(old(conn)) && lastTx == clock.now
    {
      hide Valid, Extends, SessionOver;
      ExtendsSelf(sessions);
      ConnectedHolds();
      var now := clock.GetAbsoluteTime();
      ValidLater();
      ConnectedHolds();
      var pingIntervalUs := keepAliveSeconds * 1000 * 1000 / 2;
      var sinceLastTxUs := now - lastTx;
      err := None;
      if !waitingForPingresp && sinceLastTxUs >= pingIntervalUs {
        err := SendPing();
      }
    }

    /** The clock may go on without the client. */
    twostate lemma ValidLater()
      requires old(Valid()) && unchanged(this) && (conn != null ==> unchanged(conn)) && old(clock.now) <= clock.now
      ensures Valid()
    {
      hide HistoryOk, IdentifiersOk, Linked, Paced, RunPhase, LastSend, CaughtUp;
    }

    /** Sends a PINGREQ that is due. */
    method SendPing() returns (err: Option<Error>)
      requires Valid() && state == CONNECTED && !waitingForPingresp
      requires clock.now - lastTx >= 500_000 * keepAliveSeconds
      modifies `conn, `state, `waitingForPingresp, `rxBuffer, `incomingMessages
      modifies `trace, `times, `readAt, `returned, `sessions, `lastTx, conn, clock
      ensures Valid() && Extends(old(sessions), sessions) && old(clock.now) <= clock.now
      ensures if err.None? then state == CONNECTED && Pinged(old(conn)) && lastTx == clock.now
              else state == DISCONNECTED && SendFailed(old(conn), PING, err.value)
    {
      hide FrameOf, HistoryOk, IdentifiersOk, RunPhase, Extends, Encode, Linked, OnTime, CaughtUp;
      ConnectedHolds();
      var packet := MqttEncoder.EncodeEmpty(PINGREQ);
      PingIsRequest();
      err := Request(packet.value, PING);
      if err.None? {
        waitingForPingresp := true;
      }
    }

    /** What a successful poll guarantees, said of the session: the age of the last send, or of the last receive. */
    lemma KeptAliveMeans()
      requires Valid() && state == CONNECTED && KeptAlive() && keepAliveSeconds > 0
      ensures var lastSend := times[LastSend(trace)];
              var lastRead := readAt[|readAt| - 1];
              && |times| == |trace| && |readAt| == |conn.delivered|
              && if Outstanding(trace) then
                   clock.now - times[1] < 1_500_000 * keepAliveSeconds || clock.now - lastRead < 1_500_000 * keepAliveSeconds
                 else 0 <= clock.now - lastSend < 500_000 * keepAliveSeconds
    {
      hide HistoryOk, IdentifiersOk, Paced, LastSend, Outstanding, SentBytes;
      SessionDiscipline(trace);
    }

    lemma PingIsRequest()
      ensures Encode(PING) == Ok(FrameOf(PING)) && ClientRequest(PING) && PING != BYE
      ensures Encode(BYE) == Ok(FrameOf(BYE)) && ClientRequest(BYE)
      ensures FrameOf(PING) == [0xC0, 0] && FrameOf(BYE) == [0xE0, 0]
    {
      EmptyOnWire(PING);
    }

    predicate HasMessage()
      reads this
    {
      incomingMessages != []
    }

    /** Takes the oldest queued message. */
    method NextMessage() returns (r: Result<Message>)
      requires Valid()
      modifies `incomingMessages, `returned
      ensures Valid()
      ensures old(incomingMessages) == [] ==> r == Err(NoMessage) && unchanged(this)
      ensures old(incomingMessages) != [] ==>
                && r == Ok(old(incomingMessages)[0]) && incomingMessages == old(incomingMessages)[1..]
                && returned == old(returned) + [r.value]
    {
      hide Publishes, ReceivedFrames, Flatten, SentBytes, HistoryOk, IdentifiersOk, RunPhase;
      if incomingMessages == [] {
        return Err(NoMessage);
      }
      var msg := incomingMessages[0];
      assert incomingMessages == [msg] + incomingMessages[1..];
      Assoc(returned, [msg], incomingMessages[1..]);
      incomingMessages := incomingMessages[1..];
      returned := returned + [msg];
      return Ok(msg);
    }

    /** Sends DISCONNECT, as far as the connection takes it, and drops the connection. */
    method Disconnect() returns (err: Option<Error>)
      requires Valid()
      modifies `conn, `state, `waitingForPingresp, `rxBuffer, `incomingMessages
      modifies `trace, `times, `readAt, `returned, `sessions, `lastTx, conn, clock
      ensures Valid() && Extends(old(sessions), sessions) && old(clock.now) <= clock.now
      ensures old(state) != CONNECTED ==> err.None? && unchanged(this)
      ensures old(state) == CONNECTED ==>
                && state == DISCONNECTED
                && match err
                   case None =>
                     && SessionOver(old(sessions), old(Current()), old(conn), sessions)
                     && var s := sessions[|sessions| - 1];
                        s.trace == old(trace) + [Sent(BYE)] && s.wire == old(conn.written) + [0xE0, 0]
                        && s.read == old(conn.delivered)
                   case Some(error) => SendFailed(old(conn), BYE, error)
    {
      hide FrameOf, HistoryOk, IdentifiersOk, RunPhase, Encode, Linked, Recorded, OnTime, Pinned, CaughtUp, Advance;
      hide Running, IsCut, Paced, LastSend;
      err := None;
      if state == CONNECTED {
        ConnectedHolds();
        RunningHolds();
        var packet := MqttEncoder.EncodeEmpty(DISCONNECT);
        PingIsRequest();
        ByeEnds(trace);
        ghost var cut;
        err, cut := SendEncoded(packet.value, BYE);
        Drop();
      }
    }

    lemma ByeEnds(trace: seq<Event>)
      requires RunPhase(trace).Up?
      ensures Advance(RunPhase(trace), Sent(BYE)) == Ended && Conforms(trace + [Sent(BYE)])
    {
      PingIsRequest();
      RunPhaseSnoc(trace, Sent(BYE));
    }

    predicate IsConnected()
      reads this
    {
      state == CONNECTED
    }

    // ----- what holds in every reachable connected state --------------------------------

    /**
     End-to-end delivery: every byte that arrived is in a frame handled, in the client's buffer or
     in the connection's, in that order. The frames handled are the first frames of the arrived
     bytes in their only cut into frames, and the messages handed to the application followed by
     those still queued are exactly the PUBLISH messages of these frames, in order.
     */
    lemma DeliveredInOrder()
      requires Valid() && state == CONNECTED
      ensures var frames := ReceivedFrames(trace);
              && Flatten(frames) + (rxBuffer + conn.rxBuffer) == conn.arrived
              && frames <= Split(conn.arrived).0
              && returned + incomingMessages == Publishes(frames)
    {
      hide Publishes, Split, SentBytes, ReceivedFrames, HistoryOk, IdentifiersOk;
      var frames := ReceivedFrames(trace);
      PhaseConforms(trace);
      ReceivedAreFrames(trace);
      Assoc(Flatten(frames), rxBuffer, conn.rxBuffer);
      ReceivedIsPrefix(frames, rxBuffer + conn.rxBuffer);
    }

    /**
     From the broker's messages to the application: when what arrived and what is still to come are
     an accepting CONNACK and the encodings of deliverable messages, the application has been handed,
     or has waiting, the PUBLISH messages of a first part of them, in order. Once a second frame was
     handled, or no whole frame waits in the buffer, that part reaches to the first message of which
     not all bytes were read, and so to the last when everything has come and been read.
     */
    lemma BrokerToApplication(connack: seq<byte>, ms: seq<Message>, more: seq<byte>) returns (handled: nat)
      requires Valid() && state == CONNECTED && AcceptedConnack(connack)
      requires forall k :: 0 <= k < |ms| ==> Deliverable(ms[k])
      requires conn.arrived + more == connack + Flatten(Frames(ms))
      ensures handled <= |ms| && returned + incomingMessages == OnlyPublishes(ms[..handled])
      ensures |ReceivedFrames(trace)| > 1 || FirstFrame(rxBuffer).NotYet? ==>
                && (handled < |ms| ==> |conn.delivered| < |connack + Flatten(Frames(ms[..handled + 1]))|)
                && (more == [] && conn.rxBuffer == [] ==> handled == |ms|)
    {
      hide Publishes, Split, SentBytes, ReceivedFrames, HistoryOk, IdentifiersOk, FrameOf, Parse, ParseHeader, Digestible;
      hide Deliverable, OnlyPublishes, Conforms, IsFrame, RunPhase, AcceptedConnack, Flatten, FirstFrame, Frames;
      var frames := ReceivedFrames(trace);
      var left := conn.rxBuffer + more;
      DeliveredInOrder();
      PhaseConforms(trace);
      ReceivedAreFrames(trace);
      Assoc(Flatten(frames), rxBuffer, conn.rxBuffer);
      Assoc(Flatten(frames) + rxBuffer, conn.rxBuffer, more);
      Assoc(Flatten(frames), rxBuffer, left);
      CutsIntoFrames(connack, ms);
      ReceivedIsPrefix(frames, rxBuffer + left);
      handled := HandledPart(connack, ms, frames);
      if FirstFrame(rxBuffer).NotYet? {
        HandledAll(connack, ms, frames, rxBuffer, left);
      }
    }

    static lemma ConnackAndFrames(connack: seq<byte>, ms: seq<Message>)
      requires AcceptedConnack(connack) && forall k :: 0 <= k < |ms| ==> Deliverable(ms[k])
      ensures AllFrames([connack] + Frames(ms))
      ensures Flatten([connack] + Frames(ms)) == connack + Flatten(Frames(ms))
    {
      hide Deliverable, FrameOf, ParseHeader, Parse, Digestible, IsFrame, Frames, Flatten;
      FramesOfDeliverables(ms);
      FlattenConcat([connack], Frames(ms));
      FlattenOne(connack);
      var all := [connack] + Frames(ms);
      assert forall k :: 0 < k < |all| ==> all[k] == Frames(ms)[k - 1];
    }

    /** The only cut of a CONNACK and encoded messages is into that CONNACK and their packets. */
    static lemma CutsIntoFrames(connack: seq<byte>, ms: seq<Message>)
      requires AcceptedConnack(connack) && forall k :: 0 <= k < |ms| ==> Deliverable(ms[k])
      ensures Split(connack + Flatten(Frames(ms))).0 == [connack] + Frames(ms)
    {
      hide Deliverable, FrameOf, ParseHeader, Parse, Digestible, Split, IsFrame, Frames, Flatten;
      var all := [connack] + Frames(ms);
      ConnackAndFrames(connack, ms);
      SplitUnique(all, []);
      assert Flatten(all) + [] == Flatten(all);
    }

    static lemma HandledPart(connack: seq<byte>, ms: seq<Message>, frames: seq<seq<byte>>) returns (handled: nat)
      requires AcceptedConnack(connack) && forall k :: 0 <= k < |ms| ==> Deliverable(ms[k])
      requires frames <= [connack] + Frames(ms)
      ensures handled == (if frames == [] then 0 else |frames| - 1) && handled <= |ms|
      ensures Publishes(frames) == OnlyPublishes(ms[..handled])
    {
      hide Deliverable, FrameOf, ParseHeader, Parse, Digestible, AcceptedConnack, IsFrame;
      handled := if frames == [] then 0 else |frames| - 1;
      var part := ms[..handled];
      FramesOfDeliverables(part);
      if frames != [] {
        assert frames == [connack] + Frames(part);
        PublishesConcat([connack], Frames(part));
        ConnackIsNoPublish(connack);
      }
    }

    /** With no whole frame left over, the frames handled reach to the first that has not been read. */
    static lemma HandledAll(connack: seq<byte>, ms: seq<Message>, frames: seq<seq<byte>>, left: seq<byte>, more: seq<byte>)
      requires AcceptedConnack(connack) && forall k :: 0 <= k < |ms| ==> Deliverable(ms[k])
      requires frames <= [connack] + Frames(ms) && FirstFrame(left).NotYet?
      requires Flatten(frames) + (left + more) == connack + Flatten(Frames(ms))
      ensures var handled := if frames == [] then 0 else |frames| - 1;
              && (handled < |ms| ==>
                    |Flatten(frames) + left| < |connack + Flatten(Frames(ms[..handled + 1]))|)
              && (more == [] ==> handled == |ms|)
    {
      hide Deliverable, FrameOf, ParseHeader, Parse, Digestible, IsFrame, FirstFrame, Flatten;
      var all := [connack] + Frames(ms);
      ConnackAndFrames(connack, ms);
      Assoc(Flatten(frames), left, more);
      if |frames| < |all| {
        assert frames == all[..|frames|];
        NextIsCut(all, |frames|, left, more);
        var handled := if frames == [] then 0 else |frames| - 1;
        if frames == [] {
          assert all[..1] == [connack];
          FlattenOne(connack);
        } else {
          assert all[..|frames| + 1] == [connack] + Frames(ms[..handled + 1]);
          FlattenConcat([connack], Frames(ms[..handled + 1]));
          FlattenOne(connack);
        }
        FlattenConcat(all[..|frames| + 1], all[|frames| + 1..]);
        assert all == all[..|frames| + 1] + all[|frames| + 1..];
      }
    }

    /**
     Every connection the client ever had followed the rules of the session, its bytes decode to
     whole packets and at most one part of a packet, the last thing written, the frames it handled
     are the first that the bytes read are cut into, and the messages handed to the application are
     the first of the PUBLISH messages in them.
     */
    lemma EverySessionDisciplined()
      requires HistoryOk()
      ensures |dialed| == |sessions| + (if conn == null then 0 else 1)
      ensures forall k :: 0 <= k < |sessions| ==> FollowsRules(sessions[k])
    {
      hide Recorded, FollowsRules;
      forall k | 0 <= k < |sessions| ensures FollowsRules(sessions[k]) {
        RecordedFollowsRules(sessions[k]);
      }
    }

    /** The bytes on the wire decode to the packets the current session says were sent. */
    lemma WrittenInOrder()
      requires Valid() && state == CONNECTED
      ensures Disciplined(trace) && (waitingForPingresp <==> Outstanding(trace))
      ensures Split(conn.written) == (Frames(SentMessages(trace)), [])
    {
      hide Publishes, Split, SentBytes, ReceivedFrames, HistoryOk, IdentifiersOk, SentMessages, Disciplined, Outstanding;
      SessionDiscipline(trace);
      WireDecodes(trace);
      CutEnds(trace);
    }
  }
}
