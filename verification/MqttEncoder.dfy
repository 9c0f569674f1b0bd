/**
 MqttEncoder: every method appends to an output buffer step by step and is proved to produce
 the printed form of MqttMessages, or the error of the first check that fails.
 */
module MqttEncoder {
  import opened Basics
  import opened RemainingLength
  import opened MqttMessages

  method WriteU8(out: seq<byte>, value: byte) returns (out': seq<byte>)
    ensures out' == out + [value]
  {
    out' := out + [value];
  }

  method WriteU16(out: seq<byte>, value: u16) returns (out': seq<byte>)
    ensures out' == out + Be16(value)
  {
    out' := out + [value / 256 % 256];
    out' := out' + [value % 256];
  }

  /** Strings and binary data are both byte strings here, so one method stands for both writers. */
  method WriteField(out: seq<byte>, value: seq<byte>) returns (out': seq<byte>)
    ensures out' == out + Field(value)
  {
    out' := WriteU16(out, |value| % 65536);
    out' := out' + value;
  }

  method ValidatePacketIdentifier(id: u16) returns (error: Option<Error>)
    ensures error == if id == 0 then Some(BadPacketId) else None
  {
    if id == 0 {
      return Some(BadPacketId);
    }
    return None;
  }

  method MakePacket(kind: PacketType, flags: byte, body: seq<byte>) returns (r: Result<seq<byte>>)
    ensures r == Finish(kind, flags % 16, body)
  {
    if |body| > 268435455 {
      return Err(TooLarge);
    }
    var bytes := WriteU8([], kind * 16 + flags % 16);
    bytes := WriteRemainingLength(bytes, |body|);
    bytes := bytes + body;
    assert bytes == Frame(kind, flags % 16, body);
    return Ok(bytes);
  }

  method EncodeConnect(m: Message) returns (r: Result<seq<byte>>)
    requires m.Connect?
    ensures r == Encode(m)
  {
    if m.clientId == [] && !m.cleanSession {
      return Err(BadClientId);
    }
    if m.will.Some? && m.will.value.qos > 2 {
      return Err(BadQos);
    }
    if m.password.Some? && m.username.None? {
      return Err(BadCredentials);
    }

    var body := WriteField([], PROTOCOL_NAME);
    body := WriteU8(body, 4);
    var connectFlags := EncodeConnectFlags(m);
    body := WriteU8(body, connectFlags);
    body := WriteU16(body, m.keepAlive);
    body := WriteField(body, m.clientId);
    body := WriteConnectOptions(body, m.will, m.username, m.password);
    assert body == Body(m) by {
      var keepAlive, clientId := Be16(m.keepAlive), Field(m.clientId);
      var options := WillFields(m.will) + (OptionalField(m.username) + OptionalField(m.password));
      assert [] + Field(PROTOCOL_NAME) == Field(PROTOCOL_NAME);
      ConcatRight(Field(PROTOCOL_NAME), [4], [connectFlags], keepAlive, clientId, options);
      assert [4] + [connectFlags] == [4, connectFlags];
    }
    r := MakePacket(CONNECT, 0, body);
  }

  /** The flag groups occupy disjoint bits, so each `|=` of the source is an addition. */
  method EncodeConnectFlags(m: Message) returns (connectFlags: byte)
    requires m.Connect?
    ensures connectFlags == ConnectFlags(m)
  {
    connectFlags := 0;
    if m.username.Some? {
      connectFlags := connectFlags + 128;
    }
    if m.password.Some? {
      connectFlags := connectFlags + 64;
    }
    if m.will.Some? {
      connectFlags := connectFlags + 4;
      connectFlags := connectFlags + m.will.value.qos % 4 * 8;
      if m.will.value.retain {
        connectFlags := connectFlags + 32;
      }
    }
    if m.cleanSession {
      connectFlags := connectFlags + 2;
    }
  }

  method WriteConnectOptions(out: seq<byte>, will: Option<Will>, username: Option<seq<byte>>,
                             password: Option<seq<byte>>)
    returns (out': seq<byte>)
    ensures out' == out + (WillFields(will) + (OptionalField(username) + OptionalField(password)))
  {
    out' := out;
    if will.Some? {
      Assoc(out, Field(will.value.topic), Field(will.value.message));
      out' := WriteField(out', will.value.topic);
      out' := WriteField(out', will.value.message);
    }
    ghost var willFields := WillFields(will);
    assert out' == out + willFields;
    if username.Some? {
      out' := WriteField(out', username.value);
    }
    ghost var name := OptionalField(username);
    assert out' == out + willFields + name;
    if password.Some? {
      out' := WriteField(out', password.value);
    }
    ghost var word := OptionalField(password);
    assert out' == out + willFields + name + word;
    Assoc(out, willFields, name);
    Assoc(out, willFields + name, word);
    Assoc(willFields, name, word);
  }

  lemma ConcatRight(a: seq<byte>, b: seq<byte>, c: seq<byte>, d: seq<byte>, e: seq<byte>, f: seq<byte>)
    ensures a + b + c + d + e + f == a + ((b + c) + (d + (e + f)))
  {
    Assoc(a, b, c);
    Assoc(a + (b + c), d, e);
    Assoc(a + (b + c), d + e, f);
    Assoc(d, e, f);
    Assoc(a, b + c, d + (e + f));
  }

  method EncodeConnack(m: Message) returns (r: Result<seq<byte>>)
    requires m.Connack?
    ensures r == Encode(m)
  {
    if m.returnCode > 5 {
      return Err(BadReturnCode);
    }
    var body := WriteU8([], if m.sessionPresent then 1 else 0);
    body := WriteU8(body, m.returnCode);
    assert body == Body(m);
    r := MakePacket(CONNACK, 0, body);
  }

  method EncodePublish(m: Message) returns (r: Result<seq<byte>>)
    requires m.Publish?
    ensures r == Encode(m)
  {
    if m.topic == [] {
      return Err(EmptyTopic);
    }
    if m.qos > 2 {
      return Err(BadQos);
    }
    if m.qos == 0 && m.packetId.Some? {
      return Err(BadPacketId);
    }
    if m.qos > 0 && m.packetId.None? {
      return Err(BadPacketId);
    }
    if m.packetId.Some? && m.packetId.value == 0 {
      return Err(BadPacketId);
    }

    var body := WriteField([], m.topic);
    if m.qos > 0 {
      body := WriteU16(body, m.packetId.value);
    }
    body := body + m.payload;
    assert body == Body(m);

    var flags: byte := 0;
    if m.dup {
      flags := flags + 8;
    }
    flags := flags + m.qos % 4 * 2;
    if m.retain {
      flags := flags + 1;
    }
    r := MakePacket(PUBLISH, flags, body);
  }

  /** PUBACK, PUBREC, PUBREL, PUBCOMP and UNSUBACK: one body for five packet types. */
  method EncodeAck(m: Message) returns (r: Result<seq<byte>>)
    requires m.Ack?
    ensures r == Encode(m)
  {
    var error := ValidatePacketIdentifier(m.id);
    if error.Some? {
      return Err(error.value);
    }
    var body := WriteU16([], m.id);
    assert body == Body(m);
    r := MakePacket(m.ack, if m.ack == PUBREL then 2 else 0, body);
  }

  lemma TopicsStep(topics: seq<Topic>, i: nat)
    requires i < |topics|
    ensures TopicsBytes(topics[i..]) == Field(topics[i].filter) + [topics[i].qos] + TopicsBytes(topics[i + 1..])
    ensures TopicsError(topics[i..]) == if topics[i].filter == [] then Some(EmptyTopic)
                                        else if topics[i].qos > 2 then Some(BadQos)
                                        else TopicsError(topics[i + 1..])
  {
    assert topics[i..][1..] == topics[i + 1..];
  }

  method EncodeSubscribe(m: Message) returns (r: Result<seq<byte>>)
    requires m.Subscribe?
    ensures r == Encode(m)
  {
    var error := ValidatePacketIdentifier(m.id);
    if error.Some? {
      return Err(error.value);
    }
    if m.topics == [] {
      return Err(EmptyList);
    }
    var body := WriteU16([], m.id);
    for i := 0 to |m.topics|
      invariant body + TopicsBytes(m.topics[i..]) == Body(m)
      invariant TopicsError(m.topics[i..]) == TopicsError(m.topics)
    {
      TopicsStep(m.topics, i);
      if m.topics[i].filter == [] {
        return Err(EmptyTopic);
      }
      if m.topics[i].qos > 2 {
        return Err(BadQos);
      }
      ghost var rest := TopicsBytes(m.topics[i + 1..]);
      assert body + (Field(m.topics[i].filter) + [m.topics[i].qos] + rest)
          == body + Field(m.topics[i].filter) + [m.topics[i].qos] + rest;
      body := WriteField(body, m.topics[i].filter);
      body := WriteU8(body, m.topics[i].qos);
    }
    assert body == Body(m);
    r := MakePacket(SUBSCRIBE, 2, body);
  }

  method EncodeSuback(m: Message) returns (r: Result<seq<byte>>)
    requires m.Suback?
    ensures r == Encode(m)
  {
    var error := ValidatePacketIdentifier(m.id);
    if error.Some? {
      return Err(error.value);
    }
    if m.codes == [] {
      return Err(EmptyList);
    }
    var body := WriteU16([], m.id);
    for i := 0 to |m.codes|
      invariant body == Be16(m.id) + m.codes[..i]
      invariant CodesError(m.codes[i..]) == CodesError(m.codes)
    {
      var raw := m.codes[i];
      assert m.codes[i..][1..] == m.codes[i + 1..];
      if raw != 0x00 && raw != 0x01 && raw != 0x02 && raw != 0x80 {
        return Err(BadReturnCode);
      }
      body := WriteU8(body, raw);
    }
    assert body == Body(m);
    r := MakePacket(SUBACK, 0, body);
  }

  method EncodeUnsubscribe(m: Message) returns (r: Result<seq<byte>>)
    requires m.Unsubscribe?
    ensures r == Encode(m)
  {
    var error := ValidatePacketIdentifier(m.id);
    if error.Some? {
      return Err(error.value);
    }
    if m.filters == [] {
      return Err(EmptyList);
    }
    var body := WriteU16([], m.id);
    for i := 0 to |m.filters|
      invariant body + FiltersBytes(m.filters[i..]) == Body(m)
      invariant FiltersError(m.filters[i..]) == FiltersError(m.filters)
    {
      assert m.filters[i..][1..] == m.filters[i + 1..];
      if m.filters[i] == [] {
        return Err(EmptyTopic);
      }
      assert body + (Field(m.filters[i]) + FiltersBytes(m.filters[i + 1..]))
          == (body + Field(m.filters[i])) + FiltersBytes(m.filters[i + 1..]);
      body := WriteField(body, m.filters[i]);
    }
    assert body == Body(m);
    r := MakePacket(UNSUBSCRIBE, 2, body);
  }

  /** PINGREQ, PINGRESP and DISCONNECT: a fixed header and nothing else; never an error. */
  method EncodeEmpty(kind: EmptyType) returns (r: Result<seq<byte>>)
    ensures r == Encode(Empty(kind))
    ensures r == Ok([kind * 16, 0])
  {
    r := MakePacket(kind, 0, []);
    assert r.value == [kind * 16, 0];
  }
}
