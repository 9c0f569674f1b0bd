/**
 The packets as bytes, written out from sections 3.1 to 3.14 of MQTT 3.1.1: what the encoder makes
 of every message, which messages it takes, which first bytes the parser takes, and what the
 receiving client takes for an accepting CONNACK or a packet to act on.
 */
module MqttWire {
  import opened Basics
  import opened RemainingLength
  import opened MqttMessages
  import opened MqttFraming
  import opened MqttStream
  import opened MqttSession

  // ----- what each message looks like ---------------------------------------------------

  lemma ConnectOnWire(m: Message)
    requires m.Connect?
    ensures var cid, ka := m.clientId, m.keepAlive;
            var flags: byte := (if m.username.Some? then 128 else 0) + (if m.password.Some? then 64 else 0)
                               + (if m.will.Some? && m.will.value.retain then 32 else 0)
                               + (if m.will.Some? then m.will.value.qos % 4 * 8 + 4 else 0)
                               + (if m.cleanSession then 2 else 0);
            var will := match m.will
                        case None => []
                        case Some(w) => ([|w.topic| % 65536 / 256, |w.topic| % 256] + w.topic)
                                        + ([|w.message| % 65536 / 256, |w.message| % 256] + w.message);
            var name := match m.username
                        case None => []
                        case Some(u) => [|u| % 65536 / 256, |u| % 256] + u;
            var word := match m.password
                        case None => []
                        case Some(p) => [|p| % 65536 / 256, |p| % 256] + p;
            var body: seq<byte> := [0, 4, 77, 81, 84, 84] + ([4, flags] + ([ka / 256, ka % 256]
                                   + (([|cid| % 65536 / 256, |cid| % 256] + cid) + (will + (name + word)))));
            Encode(m).Ok? ==> Encode(m) == Ok([0x10] + (LengthBytes(|body|) + body))
  {
    LowByte();
    assert Field(PROTOCOL_NAME) == [0, 4, 77, 81, 84, 84];
  }

  lemma LowByte()
    ensures forall n: nat {:trigger n % 65536} :: n % 65536 % 256 == n % 256
  {
  }

  lemma ConnackOnWire(m: Message)
    requires m.Connack? && Encode(m).Ok?
    ensures Encode(m) == Ok([0x20, 2, if m.sessionPresent then 1 else 0, m.returnCode])
  {
    assert LengthBytes(2) == [2];
    assert Encode(m).value == [0x20, 2, if m.sessionPresent then 1 else 0, m.returnCode];
  }

  lemma PublishOnWire(m: Message)
    requires m.Publish? && Encode(m).Ok?
    ensures var first: byte := 0x30 + (if m.dup then 8 else 0) + 2 * m.qos + (if m.retain then 1 else 0);
            var id := if m.qos > 0 then [m.packetId.value / 256, m.packetId.value % 256] else [];
            var body: seq<byte> := ([|m.topic| % 65536 / 256, |m.topic| % 256] + m.topic) + (id + m.payload);
            Encode(m) == Ok([first] + (LengthBytes(|body|) + body))
  {
    LowByte();
  }

  /** PUBACK, PUBREC, PUBREL, PUBCOMP and UNSUBACK. */
  lemma AckOnWire(m: Message)
    requires m.Ack? && Encode(m).Ok?
    ensures var first: byte := if m.ack == 4 then 0x40 else if m.ack == 5 then 0x50 else if m.ack == 6 then 0x62
                               else if m.ack == 7 then 0x70 else 0xB0;
            Encode(m) == Ok([first, 2, m.id / 256, m.id % 256])
  {
    assert LengthBytes(2) == [2];
    assert Encode(m).value == [Encode(m).value[0], 2, m.id / 256, m.id % 256];
  }

  lemma SubscribeOnWire(m: Message)
    requires m.Subscribe? && Encode(m).Ok?
    ensures var topics: seq<byte> := Flatten(seq(|m.topics|, k requires 0 <= k < |m.topics| =>
                                       var t := m.topics[k];
                                       [|t.filter| % 65536 / 256, |t.filter| % 256] + (t.filter + [t.qos])));
            Encode(m) == Ok([0x82] + (LengthBytes(2 + |topics|) + ([m.id / 256, m.id % 256] + topics)))
  {
    TopicsFlat(m.topics);
  }

  lemma OneTopicOnWire(m: Message)
    requires m.Subscribe? && Encode(m).Ok? && |m.topics| == 1
    ensures var t := m.topics[0];
            var topics: seq<byte> := [|t.filter| % 65536 / 256, |t.filter| % 256] + (t.filter + [t.qos]);
            Encode(m) == Ok([0x82] + (LengthBytes(2 + |topics|) + ([m.id / 256, m.id % 256] + topics)))
  {
    hide Encode;
    SubscribeOnWire(m);
    var t := m.topics[0];
    var one: seq<byte> := [|t.filter| % 65536 / 256, |t.filter| % 256] + (t.filter + [t.qos]);
    FlattenOne(one);
    assert seq(|m.topics|, k requires 0 <= k < |m.topics| =>
                 var t := m.topics[k];
                 [|t.filter| % 65536 / 256, |t.filter| % 256] + (t.filter + [t.qos])) == [one];
  }

  lemma {:induction false} TopicsFlat(topics: seq<Topic>)
    ensures TopicsBytes(topics)
         == Flatten(seq(|topics|, k requires 0 <= k < |topics| =>
                      var t := topics[k];
                      [|t.filter| % 65536 / 256, |t.filter| % 256] + (t.filter + [t.qos])))
  {
    LowByte();
    if topics != [] {
      var all := seq(|topics|, k requires 0 <= k < |topics| =>
                       var t := topics[k];
                       [|t.filter| % 65536 / 256, |t.filter| % 256] + (t.filter + [t.qos]));
      var rest := topics[1..];
      TopicsFlat(rest);
      assert all[1..] == seq(|rest|, k requires 0 <= k < |rest| =>
                               var t := rest[k];
                               [|t.filter| % 65536 / 256, |t.filter| % 256] + (t.filter + [t.qos]));
      assert Field(topics[0].filter) + [topics[0].qos] == all[0];
      Assoc(Field(topics[0].filter), [topics[0].qos], TopicsBytes(rest));
    }
  }

  lemma SubackOnWire(m: Message)
    requires m.Suback? && Encode(m).Ok?
    ensures Encode(m) == Ok([0x90] + (LengthBytes(2 + |m.codes|) + ([m.id / 256, m.id % 256] + m.codes)))
  {
  }

  lemma UnsubscribeOnWire(m: Message)
    requires m.Unsubscribe? && Encode(m).Ok?
    ensures var filters: seq<byte> := Flatten(seq(|m.filters|, k requires 0 <= k < |m.filters| =>
                                        [|m.filters[k]| % 65536 / 256, |m.filters[k]| % 256] + m.filters[k]));
            Encode(m) == Ok([0xA2] + (LengthBytes(2 + |filters|) + ([m.id / 256, m.id % 256] + filters)))
  {
    FiltersFlat(m.filters);
  }

  lemma {:induction false} FiltersFlat(filters: seq<seq<byte>>)
    ensures FiltersBytes(filters)
         == Flatten(seq(|filters|, k requires 0 <= k < |filters| =>
                      [|filters[k]| % 65536 / 256, |filters[k]| % 256] + filters[k]))
  {
    LowByte();
    if filters != [] {
      var all := seq(|filters|, k requires 0 <= k < |filters| =>
                       [|filters[k]| % 65536 / 256, |filters[k]| % 256] + filters[k]);
      var rest := filters[1..];
      FiltersFlat(rest);
      assert all[1..] == seq(|rest|, k requires 0 <= k < |rest| =>
                               [|rest[k]| % 65536 / 256, |rest[k]| % 256] + rest[k]);
    }
  }

  /** PINGREQ, PINGRESP and DISCONNECT. */
  lemma EmptyOnWire(m: Message)
    requires m.Empty?
    ensures Encode(m) == Ok([if m.empty == 12 then 0xC0 else if m.empty == 13 then 0xD0 else 0xE0, 0])
    ensures FrameOf(PING) == [0xC0, 0] && FrameOf(BYE) == [0xE0, 0]
  {
    assert LengthBytes(0) == [0];
    assert Encode(m).value == [Encode(m).value[0], 0];
  }

  // ----- what is taken ------------------------------------------------------------------

  /** The messages the encoder takes are these, up to the size of the body. */
  lemma EncoderTakes(m: Message)
    ensures Encode(m).Ok? <==>
              && |Body(m)| <= 268_435_455
              && match m
                 case Connect(cleanSession, _, clientId, will, username, password) =>
                   && (clientId == [] ==> cleanSession) && (will.Some? ==> will.value.qos <= 2)
                   && (password.Some? ==> username.Some?)
                 case Connack(_, returnCode) => returnCode <= 5
                 case Publish(_, qos, _, topic, packetId, _) =>
                   topic != [] && qos <= 2 && (qos == 0 <==> packetId.None?) && packetId != Some(0)
                 case Ack(_, id) => id != 0
                 case Subscribe(id, topics) =>
                   && id != 0 && topics != []
                   && forall k :: 0 <= k < |topics| ==> topics[k].filter != [] && topics[k].qos <= 2
                 case Suback(id, codes) =>
                   id != 0 && codes != [] && forall k :: 0 <= k < |codes| ==> codes[k] <= 2 || codes[k] == 128
                 case Unsubscribe(id, filters) =>
                   id != 0 && filters != [] && forall k :: 0 <= k < |filters| ==> filters[k] != []
                 case Empty(_) => true
  {
    match m
    case Subscribe(_, topics) => TopicsTaken(topics);
    case Suback(_, codes) => CodesTaken(codes);
    case Unsubscribe(_, filters) => FiltersTaken(filters);
    case _ =>
  }

  lemma {:induction false} TopicsTaken(topics: seq<Topic>)
    ensures TopicsError(topics).None? <==>
              forall k :: 0 <= k < |topics| ==> topics[k].filter != [] && topics[k].qos <= 2
  {
    if topics != [] {
      TopicsTaken(topics[1..]);
      assert forall k :: 0 < k < |topics| ==> topics[k] == topics[1..][k - 1];
      assert forall k :: 0 <= k < |topics[1..]| ==> topics[1..][k] == topics[k + 1];
    }
  }

  lemma {:induction false} CodesTaken(codes: seq<byte>)
    ensures CodesError(codes).None? <==> forall k :: 0 <= k < |codes| ==> codes[k] <= 2 || codes[k] == 128
  {
    if codes != [] {
      CodesTaken(codes[1..]);
      assert forall k :: 0 < k < |codes| ==> codes[k] == codes[1..][k - 1];
      assert forall k :: 0 <= k < |codes[1..]| ==> codes[1..][k] == codes[k + 1];
    }
  }

  lemma {:induction false} FiltersTaken(filters: seq<seq<byte>>)
    ensures FiltersError(filters).None? <==> forall k :: 0 <= k < |filters| ==> filters[k] != []
  {
    if filters != [] {
      FiltersTaken(filters[1..]);
      assert forall k :: 0 < k < |filters| ==> filters[k] == filters[1..][k - 1];
      assert forall k :: 0 <= k < |filters[1..]| ==> filters[1..][k] == filters[k + 1];
    }
  }

  /** The first bytes the parser takes: type and reserved flags, and any flags for PUBLISH. */
  lemma FirstBytes(data: seq<byte>)
    requires |data| >= 2
    ensures ParseHeader(data) == Err(BadType) || ParseHeader(data) == Err(BadFlags) <==>
              && !(0x30 <= data[0] <= 0x3F)
              && data[0] !in {0x10, 0x20, 0x40, 0x50, 0x62, 0x70, 0x82, 0x90, 0xA2, 0xB0, 0xC0, 0xD0, 0xE0}
    ensures ParseHeader(data).Ok? ==>
              ParseHeader(data).value.kind == data[0] / 16 && ParseHeader(data).value.flags == data[0] % 16
  {
    assert data[0] == data[0] / 16 * 16 + data[0] % 16;
  }

  /** An accepting CONNACK: 0x20, the length 2, any session flag, and return code 0. */
  lemma AcceptedConnackIs(frame: seq<byte>)
    ensures AcceptedConnack(frame) <==>
              && IsFrame(frame) && |frame| >= 4 && frame[0] == 0x20 && ScanLength(frame[1..]) == Length(2, |frame| - 3)
              && frame[|frame| - 2] <= 1 && frame[|frame| - 1] == 0
    ensures AcceptedConnack([0x20, 2, 0, 0]) && AcceptedConnack([0x20, 2, 1, 0])
  {
  }

  /** The frames the client takes: a PUBLISH of QoS 0, an empty PINGRESP, a SUBACK without failure first, any other. */
  lemma DigestibleIs(frame: seq<byte>)
    requires ParseHeader(frame).Ok?
    ensures var p := ParseHeader(frame).value;
            Digestible(frame) <==>
              && (frame[0] / 16 == 3 ==> Parse(p).Ok? && frame[0] / 2 % 4 == 0)
              && (frame[0] / 16 == 9 ==> Parse(p).Ok? && p.body[2] != 128)
              && (frame[0] / 16 == 13 ==> p.body == [])
  {
    hide Parse, ParseHeader, Handle;
    HeaderIs(frame);
    HandledIs(ParseHeader(frame).value);
    QosBits(frame[0]);
  }

  lemma HeaderIs(frame: seq<byte>)
    requires ParseHeader(frame).Ok?
    ensures frame != [] && ParseHeader(frame).value.kind == frame[0] / 16
    ensures ParseHeader(frame).value.flags == frame[0] % 16
  {
    hide ScanLength;
  }

  lemma QosBits(b: byte)
    ensures b % 16 / 2 % 4 == b / 2 % 4
  {
    var high, low := b / 16, b % 16 / 2;
    assert b / 2 == 8 * high + low;
    var q, r := low / 4, low % 4;
    assert b / 2 == 4 * (2 * high + q) + r;
  }

  lemma HandledIs(p: Packet)
    ensures Handle(p, RxState([], false, [])).Ok? <==>
              && (p.kind == 3 ==> Parse(p).Ok? && p.flags / 2 % 4 == 0)
              && (p.kind == 9 ==> Parse(p).Ok? && p.body[2] != 128)
              && (p.kind == 13 ==> p.body == [])
  {
    hide Parse;
    if p.kind == 3 {
      PublishParsed(p);
    } else if p.kind == 9 {
      SubackParsed(p);
    } else if p.kind == 13 {
      PingrespParsed(p);
    }
  }

  lemma PublishParsed(p: Packet)
    requires p.kind == 3
    ensures Parse(p).Ok? ==> Parse(p).value.Publish? && Parse(p).value.qos == p.flags / 2 % 4
  {
    hide TakeField, TakeU16;
  }

  lemma SubackParsed(p: Packet)
    requires p.kind == 9
    ensures Parse(p).Ok? ==>
              && |p.body| >= 3 && Parse(p).value.Suback? && Parse(p).value.codes != []
              && Parse(p).value.codes[0] == p.body[2]
  {
    hide CodesError;
  }

  lemma PingrespParsed(p: Packet)
    requires p.kind == 13
    ensures Parse(p).Ok? <==> p.body == []
  {
  }
}
