/**
 MqttParser: readers that move an offset through a fixed byte span, and one parse method per
 packet type. Each is proved to agree, result and error alike, with the parser of MqttMessages
 that consumes bytes from the front; the offset never passes the end of the span.
 */
module MqttParser {
  import opened Basics
  import opened RemainingLength
  import opened MqttMessages

  // ----- readers ------------------------------------------------------------------------

  /** `r` and the new offset are what consuming `taken` from `data[offset..]` leaves. */
  ghost predicate Reads<T>(data: seq<byte>, offset: nat, taken: Result<(T, seq<byte>)>, r: Result<T>, offset': nat) {
    && offset <= offset' <= |data|
    && match taken
       case Ok(pair) => r == Ok(pair.0) && data[offset'..] == pair.1
       case Err(error) => r == Err(error)
  }

  /**
   The 32-bit accumulator and multiplier are written with their wrap-around; the contract shows
   that no accepted length ever wraps.
   */
  method DecodeRemainingLength(data: seq<byte>, offset: nat) returns (r: Result<u32>, offset': nat)
    requires offset <= |data|
    ensures offset <= offset' <= |data|
    ensures match ScanLength(data[offset..])
            case Length(value, size) => r == Ok(value) && offset' == offset + size
            case TooLong => r == Err(if |data| - offset > 4 then LengthTooLong else LengthTruncated)
            case NeedMore => r == Err(LengthTruncated)
  {
    var multiplier: u32 := 1;
    var outLength: u32 := 0;
    var encodedByte: byte := 0;
    var count: byte := 0;
    var more := true;
    offset' := offset;
    ghost var s := data[offset..];
    ReadingStarts(s);
    while more
      invariant offset' == offset + count && offset' <= |data| && count <= 4
      invariant more && count < 4 ==> Reading(s, data[offset'..], outLength, multiplier, count)
      invariant more && count == 4 ==> ScanLength(s) == TooLong
      invariant !more ==> ScanLength(s) == Length(outLength, count)
      decreases more, 5 - count
    {
      if offset' >= |data| {
        return Err(LengthTruncated), offset';
      }
      encodedByte := data[offset'];
      assert data[offset'..][1..] == data[offset' + 1..];
      outLength, multiplier := AddDigit(outLength, multiplier, encodedByte, s, data[offset'..], count);
      offset' := offset' + 1;
      count := count + 1;
      if count > 4 {
        return Err(LengthTooLong), offset';
      }
      more := encodedByte >= 128;
    }
    return Ok(outLength), offset';
  }

  predicate ValidateFixedHeaderFlags(kind: PacketType, flags: byte)
    ensures ValidateFixedHeaderFlags(kind, flags) <==> FlagsAllowed(kind, flags)
  {
    if kind == PUBLISH then true
    else if kind == PUBREL || kind == SUBSCRIBE || kind == UNSUBSCRIBE then flags == 2
    else flags == 0
  }

  method ReadU16(data: seq<byte>, offset: nat) returns (r: Result<u16>, offset': nat)
    requires offset <= |data|
    ensures Reads(data, offset, TakeU16(data[offset..]), r, offset')
  {
    if |data| - offset < 2 {
      return Err(TooShort), offset;
    }
    var value: u16 := data[offset] as int * 256 + data[offset + 1];
    offset' := offset + 2;
    assert data[offset..][2..] == data[offset'..];
    return Ok(value), offset';
  }

  /** Strings and binary data are both byte strings here, so one method stands for both readers. */
  method ReadField(data: seq<byte>, offset: nat) returns (r: Result<seq<byte>>, offset': nat)
    requires offset <= |data|
    ensures Reads(data, offset, TakeField(data[offset..]), r, offset')
  {
    var size;
    size, offset' := ReadU16(data, offset);
    if size.Err? {
      return Err(size.error), offset';
    }
    if |data| - offset' < size.value {
      return Err(BadString), offset';
    }
    var value := data[offset'..offset' + size.value];
    assert value == data[offset'..][..size.value];
    assert data[offset'..][size.value..] == data[offset' + size.value..];
    offset' := offset' + size.value;
    return Ok(value), offset';
  }

  // ----- packets ------------------------------------------------------------------------

  method ParseControlPacket(data: seq<byte>) returns (r: Result<Packet>)
    ensures r == ParseHeader(data)
  {
    if |data| < 2 {
      return Err(TooShort);
    }
    var offset: nat := 0;
    var first := data[offset];
    offset := offset + 1;
    var kind := first / 16;
    var flags := first % 16;
    if kind < CONNECT || kind > DISCONNECT {
      return Err(BadType);
    }
    if !ValidateFixedHeaderFlags(kind, flags) {
      return Err(BadFlags);
    }
    var remaining;
    remaining, offset := DecodeRemainingLength(data, offset);
    if remaining.Err? {
      return Err(remaining.error);
    }
    if |data| - offset < remaining.value {
      return Err(Incomplete);
    }
    return Ok(Packet(kind, flags, data[offset..offset + remaining.value]));
  }

  method ParseConnect(packet: Packet) returns (r: Result<Message>)
    ensures r == if packet.kind != CONNECT then Err(BadType) else MqttMessages.ParseConnect(packet.body)
  {
    if packet.kind != CONNECT {
      return Err(BadType);
    }
    var body := packet.body;
    if |body| < 10 {
      return Err(TooShort);
    }
    assert body[0..] == body;
    var name, offset := ReadField(body, 0);
    if name.Err? {
      return Err(name.error);
    }
    if name.value != PROTOCOL_NAME {
      return Err(BadProtocol);
    }
    if |body| - offset < 1 {
      return Err(TooShort);
    }
    var protocolLevel := body[offset];
    offset := offset + 1;
    if protocolLevel != 4 {
      return Err(BadProtocol);
    }
    if |body| - offset < 1 {
      return Err(TooShort);
    }
    var flags := body[offset];
    offset := offset + 1;
    var passwordFlag := flags / 64 % 2 == 1;
    var usernameFlag := flags / 128 == 1;
    var willRetain := flags / 32 % 2 == 1;
    var willQos := flags / 8 % 4;
    var willFlag := flags / 4 % 2 == 1;
    if flags % 2 == 1 {
      return Err(BadConnectFlags);
    }
    if passwordFlag && !usernameFlag {
      return Err(BadConnectFlags);
    }
    if !willFlag && (willRetain || willQos != 0) {
      return Err(BadConnectFlags);
    }
    if willQos == 3 {
      return Err(BadQos);
    }
    assert ConnectFlagsError(flags).None?;
    assert body[offset - 2..][2..] == body[offset..];
    r := ParseConnectRest(body, offset, flags);
  }

  /** Topic and message of the will, when the flags announce one. */
  method ReadWill(data: seq<byte>, offset: nat, flags: byte) returns (r: Result<Option<Will>>, offset': nat)
    requires offset <= |data|
    ensures Reads(data, offset, TakeWill(flags / 4 % 2 == 1, flags / 8 % 4, flags / 32 % 2 == 1, data[offset..]), r, offset')
  {
    if flags / 4 % 2 == 0 {
      return Ok(None), offset;
    }
    var topic, message;
    topic, offset' := ReadField(data, offset);
    if topic.Err? {
      return Err(topic.error), offset';
    }
    message, offset' := ReadField(data, offset');
    if message.Err? {
      return Err(message.error), offset';
    }
    return Ok(Some(Will(topic.value, message.value, flags / 8 % 4, flags / 32 % 2 == 1))), offset';
  }

  /** Username or password, when the flags announce it. */
  method ReadOptional(data: seq<byte>, offset: nat, present: bool) returns (r: Result<Option<seq<byte>>>, offset': nat)
    requires offset <= |data|
    ensures Reads(data, offset, TakeOptional(present, data[offset..]), r, offset')
  {
    if !present {
      return Ok(None), offset;
    }
    var value;
    value, offset' := ReadField(data, offset);
    if value.Err? {
      return Err(value.error), offset';
    }
    return Ok(Some(value.value)), offset';
  }

  /** The second half of the parser: keep alive and the payload fields the flags announce. */
  method ParseConnectRest(body: seq<byte>, start: nat, flags: byte) returns (r: Result<Message>)
    requires start <= |body|
    ensures r == ParseConnectTail(flags, body[start..])
  {
    hide TakeU16, TakeField, TakeWill, TakeOptional;
    var cleanSession := flags / 2 % 2 == 1;
    var keepAlive, offset := ReadU16(body, start);
    if keepAlive.Err? {
      return Err(keepAlive.error);
    }
    var clientId;
    clientId, offset := ReadField(body, offset);
    if clientId.Err? {
      return Err(clientId.error);
    }
    if clientId.value == [] && !cleanSession {
      return Err(BadClientId);
    }
    var will;
    will, offset := ReadWill(body, offset, flags);
    if will.Err? {
      return Err(will.error);
    }
    var username;
    username, offset := ReadOptional(body, offset, flags / 128 == 1);
    if username.Err? {
      return Err(username.error);
    }
    var password;
    password, offset := ReadOptional(body, offset, flags / 64 % 2 == 1);
    if password.Err? {
      return Err(password.error);
    }
    if offset != |body| {
      return Err(Trailing);
    }
    return Ok(Connect(cleanSession, keepAlive.value, clientId.value, will.value, username.value, password.value));
  }

  method ParseConnack(packet: Packet) returns (r: Result<Message>)
    ensures r == if packet.kind != CONNACK then Err(BadType) else MqttMessages.ParseConnack(packet.body)
  {
    if packet.kind != CONNACK {
      return Err(BadType);
    }
    if |packet.body| != 2 {
      return Err(BadBodySize);
    }
    var ackFlags := packet.body[0];
    var returnCode := packet.body[1];
    if ackFlags / 2 != 0 {
      return Err(BadAckFlags);
    }
    if returnCode > 5 {
      return Err(BadReturnCode);
    }
    return Ok(Connack(ackFlags % 2 != 0, returnCode));
  }

  method ParsePublish(packet: Packet) returns (r: Result<Message>)
    ensures r == if packet.kind != PUBLISH then Err(BadType)
                 else MqttMessages.ParsePublish(packet.flags, packet.body)
  {
    if packet.kind != PUBLISH {
      return Err(BadType);
    }
    assert packet.body[0..] == packet.body;
    var topic, offset := ReadField(packet.body, 0);
    if topic.Err? {
      return Err(topic.error);
    }
    if topic.value == [] {
      return Err(EmptyTopic);
    }
    var dup := packet.flags / 8 % 2 == 1;
    var qos := packet.flags / 2 % 4;
    var retain := packet.flags % 2 == 1;
    if qos == 3 {
      return Err(BadQos);
    }
    var packetId: Option<u16> := None;
    if qos > 0 {
      var id;
      id, offset := ReadU16(packet.body, offset);
      if id.Err? {
        return Err(id.error);
      }
      if id.value == 0 {
        return Err(BadPacketId);
      }
      packetId := Some(id.value);
    }
    return Ok(Publish(dup, qos, retain, topic.value, packetId, packet.body[offset..]));
  }

  /** PUBACK, PUBREC, PUBREL, PUBCOMP and UNSUBACK: one body for five packet types. */
  method ParseAck(ack: AckType, packet: Packet) returns (r: Result<Message>)
    ensures r == if packet.kind != ack then Err(BadType) else MqttMessages.ParseAck(ack, packet.body)
  {
    if packet.kind != ack {
      return Err(BadType);
    }
    if |packet.body| != 2 {
      return Err(BadBodySize);
    }
    assert packet.body[0..] == packet.body;
    var id, _ := ReadU16(packet.body, 0);
    if id.Err? {
      return Err(TooShort);
    }
    if id.value == 0 {
      return Err(BadPacketId);
    }
    return Ok(Ack(ack, id.value));
  }

  /** Puts already parsed items in front of the rest of a list, or passes its error on. */
  function Prepend<T>(items: seq<T>, rest: Result<seq<T>>): Result<seq<T>> {
    match rest
    case Ok(more) => Ok(items + more)
    case Err(error) => Err(error)
  }

  lemma PrependStep<T>(items: seq<T>, item: T, rest: Result<seq<T>>)
    ensures Prepend(items, Prepend([item], rest)) == Prepend(items + [item], rest)
  {
    if rest.Ok? {
      Assoc(items, [item], rest.value);
    }
  }

  /** One topic filter and its requested QoS: the body of the SUBSCRIBE loop. */
  method ReadTopic(data: seq<byte>, offset: nat) returns (r: Result<Topic>, offset': nat)
    requires offset <= |data|
    ensures Reads(data, offset, TakeTopic(data[offset..]), r, offset')
    ensures r.Ok? ==> offset < offset'
  {
    var filter;
    filter, offset' := ReadField(data, offset);
    if filter.Err? {
      return Err(filter.error), offset';
    }
    if filter.value == [] {
      return Err(EmptyTopic), offset';
    }
    if offset' >= |data| {
      return Err(TooShort), offset';
    }
    assert data[offset'..][1..] == data[offset' + 1..];
    var qos := data[offset'];
    offset' := offset' + 1;
    if qos / 4 != 0 {
      return Err(BadQos), offset';
    }
    if qos > 2 {
      return Err(BadQos), offset';
    }
    return Ok(Topic(filter.value, qos)), offset';
  }

  method ParseSubscribe(packet: Packet) returns (r: Result<Message>)
    ensures r == if packet.kind != SUBSCRIBE then Err(BadType) else MqttMessages.ParseSubscribe(packet.body)
  {
    if packet.kind != SUBSCRIBE {
      return Err(BadType);
    }
    var body := packet.body;
    if |body| < 5 {
      return Err(BadBodySize);
    }
    assert body[0..] == body;
    var id, offset := ReadU16(body, 0);
    if id.Err? {
      return Err(TooShort);
    }
    if id.value == 0 {
      return Err(BadPacketId);
    }
    var topics: seq<Topic> := [];
    ghost var all := ParseTopics(body[offset..]);
    assert all == Prepend(topics, all) by { assert all.Ok? ==> [] + all.value == all.value; }
    while offset < |body|
      invariant offset <= |body|
      invariant all == Prepend(topics, ParseTopics(body[offset..]))
    {
      var topic;
      topic, offset := ReadTopic(body, offset);
      if topic.Err? {
        return Err(topic.error);
      }
      PrependStep(topics, topic.value, ParseTopics(body[offset..]));
      topics := topics + [topic.value];
    }
    assert topics + [] == topics;
    if topics == [] {
      return Err(EmptyList);
    }
    return Ok(Subscribe(id.value, topics));
  }

  method ParseSuback(packet: Packet) returns (r: Result<Message>)
    ensures r == if packet.kind != SUBACK then Err(BadType) else MqttMessages.ParseSuback(packet.body)
  {
    if packet.kind != SUBACK {
      return Err(BadType);
    }
    var body := packet.body;
    if |body| < 3 {
      return Err(BadBodySize);
    }
    assert body[0..] == body;
    var id, offset := ReadU16(body, 0);
    if id.Err? {
      return Err(TooShort);
    }
    if id.value == 0 {
      return Err(BadPacketId);
    }
    var codes: seq<byte> := [];
    while offset < |body|
      invariant 2 <= offset <= |body| && codes == body[2..offset]
      invariant CodesError(body[offset..]) == CodesError(body[2..])
    {
      var code := body[offset];
      assert body[offset..][1..] == body[offset + 1..];
      offset := offset + 1;
      if code != 0x00 && code != 0x01 && code != 0x02 && code != 0x80 {
        return Err(BadReturnCode);
      }
      codes := codes + [code];
    }
    assert codes == body[2..];
    if codes == [] {
      return Err(EmptyList);
    }
    return Ok(Suback(id.value, codes));
  }

  method ParseUnsubscribe(packet: Packet) returns (r: Result<Message>)
    ensures r == if packet.kind != UNSUBSCRIBE then Err(BadType)
                 else MqttMessages.ParseUnsubscribe(packet.body)
  {
    if packet.kind != UNSUBSCRIBE {
      return Err(BadType);
    }
    var body := packet.body;
    if |body| < 4 {
      return Err(BadBodySize);
    }
    assert body[0..] == body;
    var id, offset := ReadU16(body, 0);
    if id.Err? {
      return Err(TooShort);
    }
    if id.value == 0 {
      return Err(BadPacketId);
    }
    var filters: seq<seq<byte>> := [];
    ghost var all := ParseFilters(body[offset..]);
    assert all == Prepend(filters, all) by { assert all.Ok? ==> [] + all.value == all.value; }
    while offset < |body|
      invariant offset <= |body|
      invariant all == Prepend(filters, ParseFilters(body[offset..]))
    {
      var filter;
      filter, offset := ReadField(body, offset);
      if filter.Err? {
        return Err(filter.error);
      }
      if filter.value == [] {
        return Err(EmptyTopic);
      }
      PrependStep(filters, filter.value, ParseFilters(body[offset..]));
      filters := filters + [filter.value];
    }
    assert filters + [] == filters;
    if filters == [] {
      return Err(EmptyList);
    }
    return Ok(Unsubscribe(id.value, filters));
  }

  /** PINGREQ, PINGRESP and DISCONNECT. */
  method ParseEmpty(kind: EmptyType, packet: Packet) returns (r: Result<Message>)
    ensures r == if packet.kind != kind then Err(BadType) else MqttMessages.ParseEmpty(kind, packet.body)
  {
    if packet.kind != kind {
      return Err(BadType);
    }
    if packet.body != [] {
      return Err(BadBodySize);
    }
    return Ok(Empty(kind));
  }
}
