/**
 MQTT control messages and their wire grammar (MQTT 3.1.1, sections 3.1 to 3.14): what each
 message prints to, and a parser that consumes the printed bytes from the front. Both are
 specifications; the encoder and the parser of the toolkit are methods proved against them.
 */
module MqttMessages {
  import opened Basics
  import opened RemainingLength

  type PacketType = t: int | 1 <= t <= 14 witness 1

  const CONNECT: PacketType := 1
  const CONNACK: PacketType := 2
  const PUBLISH: PacketType := 3
  const PUBACK: PacketType := 4
  const PUBREC: PacketType := 5
  const PUBREL: PacketType := 6
  const PUBCOMP: PacketType := 7
  const SUBSCRIBE: PacketType := 8
  const SUBACK: PacketType := 9
  const UNSUBSCRIBE: PacketType := 10
  const UNSUBACK: PacketType := 11
  const PINGREQ: PacketType := 12
  const PINGRESP: PacketType := 13
  const DISCONNECT: PacketType := 14

  /** The packets whose body is a packet identifier and nothing else. */
  type AckType = t: PacketType | t == PUBACK || t == PUBREC || t == PUBREL || t == PUBCOMP || t == UNSUBACK
    witness PUBACK

  /** The packets with an empty body. */
  type EmptyType = t: PacketType | t == PINGREQ || t == PINGRESP || t == DISCONNECT
    witness PINGREQ

  datatype Will = Will(topic: seq<byte>, message: seq<byte>, qos: byte, retain: bool)

  datatype Topic = Topic(filter: seq<byte>, qos: byte)

  datatype Message =
    | Connect(cleanSession: bool, keepAlive: u16, clientId: seq<byte>,
              will: Option<Will>, username: Option<seq<byte>>, password: Option<seq<byte>>)
    | Connack(sessionPresent: bool, returnCode: byte)
    | Publish(dup: bool, qos: byte, retain: bool, topic: seq<byte>,
              packetId: Option<u16>, payload: seq<byte>)
    | Ack(ack: AckType, id: u16)
    | Subscribe(id: u16, topics: seq<Topic>)
    | Suback(id: u16, codes: seq<byte>)
    | Unsubscribe(id: u16, filters: seq<seq<byte>>)
    | Empty(empty: EmptyType)

  /** A packet after its fixed header has been read. */
  datatype Packet = Packet(kind: PacketType, flags: byte, body: seq<byte>)

  const ACCEPTED: byte := 0
  const SUBACK_FAILURE: byte := 0x80
  const PROTOCOL_NAME: seq<byte> := [77, 81, 84, 84]
  const PROTOCOL_LEVEL: byte := 4

  predicate IsSubackCode(code: byte) {
    code == 0 || code == 1 || code == 2 || code == SUBACK_FAILURE
  }

  // ----- printing -----------------------------------------------------------------------

  function Be16(n: u16): seq<byte> {
    [n / 256, n % 256]
  }

  /** A string or binary field; the length is cast to sixteen bits. */
  function Field(s: seq<byte>): seq<byte> {
    Be16(|s| % 65536) + s
  }

  function OptionalField(s: Option<seq<byte>>): seq<byte> {
    match s
    case None => []
    case Some(value) => Field(value)
  }

  function WillFields(will: Option<Will>): seq<byte> {
    match will
    case None => []
    case Some(w) => Field(w.topic) + Field(w.message)
  }

  function TopicsBytes(topics: seq<Topic>): seq<byte> {
    if topics == [] then []
    else Field(topics[0].filter) + ([topics[0].qos] + TopicsBytes(topics[1..]))
  }

  function FiltersBytes(filters: seq<seq<byte>>): seq<byte> {
    if filters == [] then [] else Field(filters[0]) + FiltersBytes(filters[1..])
  }

  function Bit(b: bool, weight: byte): (r: byte) {
    if b then weight else 0
  }

  function ConnectFlags(m: Message): byte
    requires m.Connect?
  {
    Bit(m.username.Some?, 128) + Bit(m.password.Some?, 64)
    + (if m.will.Some? then Bit(m.will.value.retain, 32) + m.will.value.qos % 4 * 8 + 4 else 0)
    + Bit(m.cleanSession, 2)
  }

  function Kind(m: Message): PacketType {
    match m
    case Connect(_, _, _, _, _, _) => CONNECT
    case Connack(_, _) => CONNACK
    case Publish(_, _, _, _, _, _) => PUBLISH
    case Ack(ack, _) => ack
    case Subscribe(_, _) => SUBSCRIBE
    case Suback(_, _) => SUBACK
    case Unsubscribe(_, _) => UNSUBSCRIBE
    case Empty(empty) => empty
  }

  /** The reserved flags of every packet but PUBLISH (section 2.2.2). */
  function FixedFlags(kind: PacketType): byte {
    if kind == PUBREL || kind == SUBSCRIBE || kind == UNSUBSCRIBE then 2 else 0
  }

  function Flags(m: Message): (flags: byte)
    ensures flags < 16
  {
    match m
    case Publish(dup, qos, retain, _, _, _) => Bit(dup, 8) + qos % 4 * 2 + Bit(retain, 1)
    case _ => FixedFlags(Kind(m))
  }

  function Body(m: Message): seq<byte> {
    match m
    case Connect(_, keepAlive, clientId, will, username, password) =>
      Field(PROTOCOL_NAME) + ([PROTOCOL_LEVEL, ConnectFlags(m)] + (Be16(keepAlive) + (Field(clientId)
      + (WillFields(will) + (OptionalField(username) + OptionalField(password))))))
    case Connack(sessionPresent, returnCode) => [Bit(sessionPresent, 1), returnCode]
    case Publish(_, qos, _, topic, packetId, payload) =>
      Field(topic) + ((if qos > 0 && packetId.Some? then Be16(packetId.value) else []) + payload)
    case Ack(_, id) => Be16(id)
    case Subscribe(id, topics) => Be16(id) + TopicsBytes(topics)
    case Suback(id, codes) => Be16(id) + codes
    case Unsubscribe(id, filters) => Be16(id) + FiltersBytes(filters)
    case Empty(_) => []
  }

  function Frame(kind: PacketType, flags: byte, body: seq<byte>): seq<byte>
    requires flags < 16
  {
    [kind * 16 + flags] + (LengthBytes(|body|) + body)
  }

  /** The whole packet of a message, before any check of its size. */
  function FrameOf(m: Message): seq<byte> {
    Frame(Kind(m), Flags(m), Body(m))
  }

  // ----- what the encoder checks --------------------------------------------------------

  function TopicsError(topics: seq<Topic>): Option<Error> {
    if topics == [] then None
    else if topics[0].filter == [] then Some(EmptyTopic)
    else if topics[0].qos > 2 then Some(BadQos)
    else TopicsError(topics[1..])
  }

  function FiltersError(filters: seq<seq<byte>>): Option<Error> {
    if filters == [] then None
    else if filters[0] == [] then Some(EmptyTopic)
    else FiltersError(filters[1..])
  }

  function CodesError(codes: seq<byte>): Option<Error> {
    if codes == [] then None
    else if !IsSubackCode(codes[0]) then Some(BadReturnCode)
    else CodesError(codes[1..])
  }

  /** The first check of the encoder that a message fails, if any. */
  function CheckError(m: Message): Option<Error> {
    match m
    case Connect(cleanSession, _, clientId, will, username, password) =>
      if clientId == [] && !cleanSession then Some(BadClientId)
      else if will.Some? && will.value.qos > 2 then Some(BadQos)
      else if password.Some? && username.None? then Some(BadCredentials)
      else None
    case Connack(_, returnCode) => if returnCode > 5 then Some(BadReturnCode) else None
    case Publish(_, qos, _, topic, packetId, _) =>
      if topic == [] then Some(EmptyTopic)
      else if qos > 2 then Some(BadQos)
      else if qos == 0 && packetId.Some? then Some(BadPacketId)
      else if qos > 0 && packetId.None? then Some(BadPacketId)
      else if packetId.Some? && packetId.value == 0 then Some(BadPacketId)
      else None
    case Ack(_, id) => if id == 0 then Some(BadPacketId) else None
    case Subscribe(id, topics) =>
      if id == 0 then Some(BadPacketId) else if topics == [] then Some(EmptyList) else TopicsError(topics)
    case Suback(id, codes) =>
      if id == 0 then Some(BadPacketId) else if codes == [] then Some(EmptyList) else CodesError(codes)
    case Unsubscribe(id, filters) =>
      if id == 0 then Some(BadPacketId) else if filters == [] then Some(EmptyList) else FiltersError(filters)
    case Empty(_) => None
  }

  function Finish(kind: PacketType, flags: byte, body: seq<byte>): Result<seq<byte>>
    requires flags < 16
  {
    if |body| > MAX_LENGTH then Err(TooLarge) else Ok(Frame(kind, flags, body))
  }

  /** What encoding a message must return. */
  function Encode(m: Message): Result<seq<byte>> {
    match CheckError(m)
    case Some(error) => Err(error)
    case None => Finish(Kind(m), Flags(m), Body(m))
  }

  /** Every length-prefixed part fits its sixteen-bit length. */
  predicate Fits(m: Message) {
    match m
    case Connect(_, _, clientId, will, username, password) =>
      && |clientId| < 65536
      && (will.Some? ==> |will.value.topic| < 65536 && |will.value.message| < 65536)
      && (username.Some? ==> |username.value| < 65536)
      && (password.Some? ==> |password.value| < 65536)
    case Publish(_, _, _, topic, _, _) => |topic| < 65536
    case Subscribe(_, topics) => forall k :: 0 <= k < |topics| ==> |topics[k].filter| < 65536
    case Unsubscribe(_, filters) => forall k :: 0 <= k < |filters| ==> |filters[k]| < 65536
    case _ => true
  }

  // ----- parsing from the front ---------------------------------------------------------

  function U16(high: byte, low: byte): u16 {
    high * 256 + low
  }

  function TakeU16(s: seq<byte>): Result<(u16, seq<byte>)> {
    if |s| < 2 then Err(TooShort)
    else Ok((U16(s[0], s[1]), s[2..]))
  }

  function TakeField(s: seq<byte>): Result<(seq<byte>, seq<byte>)> {
    var (size, rest) :- TakeU16(s);
    if |rest| < size then Err(BadString) else Ok((rest[..size], rest[size..]))
  }

  function TakeOptional(present: bool, s: seq<byte>): Result<(Option<seq<byte>>, seq<byte>)> {
    if !present then Ok((None, s))
    else
      var (value, rest) :- TakeField(s);
      Ok((Some(value), rest))
  }

  function TakeWill(present: bool, qos: byte, retain: bool, s: seq<byte>): Result<(Option<Will>, seq<byte>)> {
    if !present then Ok((None, s))
    else
      var (topic, s1) :- TakeField(s);
      var (message, s2) :- TakeField(s1);
      Ok((Some(Will(topic, message, qos, retain)), s2))
  }

  function ConnectFlagsError(flags: byte): Option<Error> {
    if flags % 2 == 1 then Some(BadConnectFlags)
    else if flags / 64 % 2 == 1 && flags / 128 == 0 then Some(BadConnectFlags)
    else if flags / 4 % 2 == 0 && (flags / 32 % 2 == 1 || flags / 8 % 4 != 0) then Some(BadConnectFlags)
    else if flags / 8 % 4 == 3 then Some(BadQos)
    else None
  }

  /** The part of a CONNECT body after its flags. */
  function ParseConnectTail(flags: byte, s: seq<byte>): Result<Message> {
    var cleanSession := flags / 2 % 2 == 1;
    var (keepAlive, s1) :- TakeU16(s);
    var (clientId, s2) :- TakeField(s1);
    if clientId == [] && !cleanSession then Err(BadClientId)
    else
      var (will, s3) :- TakeWill(flags / 4 % 2 == 1, flags / 8 % 4, flags / 32 % 2 == 1, s2);
      var (username, s4) :- TakeOptional(flags / 128 == 1, s3);
      var (password, s5) :- TakeOptional(flags / 64 % 2 == 1, s4);
      if s5 != [] then Err(Trailing)
      else Ok(Connect(cleanSession, keepAlive, clientId, will, username, password))
  }

  function ParseConnect(body: seq<byte>): Result<Message> {
    if |body| < 10 then Err(TooShort)
    else
      var (name, s1) :- TakeField(body);
      if name != PROTOCOL_NAME then Err(BadProtocol)
      else if |s1| < 1 then Err(TooShort)
      else if s1[0] != PROTOCOL_LEVEL then Err(BadProtocol)
      else if |s1| < 2 then Err(TooShort)
      else
        match ConnectFlagsError(s1[1])
        case Some(error) => Err(error)
        case None => ParseConnectTail(s1[1], s1[2..])
  }

  function ParseConnack(body: seq<byte>): Result<Message> {
    if |body| != 2 then Err(BadBodySize)
    else if body[0] > 1 then Err(BadAckFlags)
    else if body[1] > 5 then Err(BadReturnCode)
    else Ok(Connack(body[0] == 1, body[1]))
  }

  function ParsePublish(flags: byte, body: seq<byte>): Result<Message> {
    var (topic, s1) :- TakeField(body);
    var qos := flags / 2 % 4;
    if topic == [] then Err(EmptyTopic)
    else if qos == 3 then Err(BadQos)
    else if qos == 0 then Ok(Publish(flags / 8 % 2 == 1, qos, flags % 2 == 1, topic, None, s1))
    else
      var (id, s2) :- TakeU16(s1);
      if id == 0 then Err(BadPacketId)
      else Ok(Publish(flags / 8 % 2 == 1, qos, flags % 2 == 1, topic, Some(id), s2))
  }

  function ParseAck(ack: AckType, body: seq<byte>): Result<Message> {
    if |body| != 2 then Err(BadBodySize)
    else
      var (id, _) :- TakeU16(body);
      if id == 0 then Err(BadPacketId) else Ok(Ack(ack, id))
  }

  function TakeTopic(s: seq<byte>): (r: Result<(Topic, seq<byte>)>)
    ensures r.Ok? ==> |r.value.1| < |s|
  {
    var (filter, rest) :- TakeField(s);
    if filter == [] then Err(EmptyTopic)
    else if rest == [] then Err(TooShort)
    else if rest[0] > 2 then Err(BadQos)
    else Ok((Topic(filter, rest[0]), rest[1..]))
  }

  function ParseTopics(s: seq<byte>): Result<seq<Topic>>
    decreases |s|
  {
    if s == [] then Ok([])
    else
      var (topic, rest) :- TakeTopic(s);
      var topics :- ParseTopics(rest);
      Ok([topic] + topics)
  }

  function ParseFilters(s: seq<byte>): Result<seq<seq<byte>>>
    decreases |s|
  {
    if s == [] then Ok([])
    else
      var (filter, rest) :- TakeField(s);
      if filter == [] then Err(EmptyTopic)
      else
        var filters :- ParseFilters(rest);
        Ok([filter] + filters)
  }

  /** The identifier that opens SUBSCRIBE, SUBACK and UNSUBSCRIBE bodies of at least `least` bytes. */
  function TakeId(least: nat, s: seq<byte>): Result<(u16, seq<byte>)> {
    if |s| < least then Err(BadBodySize)
    else
      var (id, rest) :- TakeU16(s);
      if id == 0 then Err(BadPacketId) else Ok((id, rest))
  }

  function ParseSubscribe(body: seq<byte>): Result<Message> {
    var (id, rest) :- TakeId(5, body);
    var topics :- ParseTopics(rest);
    if topics == [] then Err(EmptyList) else Ok(Subscribe(id, topics))
  }

  function ParseSuback(body: seq<byte>): Result<Message> {
    var (id, rest) :- TakeId(3, body);
    match CodesError(rest)
    case Some(error) => Err(error)
    case None => if rest == [] then Err(EmptyList) else Ok(Suback(id, rest))
  }

  function ParseUnsubscribe(body: seq<byte>): Result<Message> {
    var (id, rest) :- TakeId(4, body);
    var filters :- ParseFilters(rest);
    if filters == [] then Err(EmptyList) else Ok(Unsubscribe(id, filters))
  }

  function ParseEmpty(empty: EmptyType, body: seq<byte>): Result<Message> {
    if body != [] then Err(BadBodySize) else Ok(Empty(empty))
  }

  /** The parser that belongs to the type of the packet. */
  function Parse(p: Packet): Result<Message> {
    if p.kind == CONNECT then ParseConnect(p.body)
    else if p.kind == CONNACK then ParseConnack(p.body)
    else if p.kind == PUBLISH then ParsePublish(p.flags, p.body)
    else if p.kind == SUBSCRIBE then ParseSubscribe(p.body)
    else if p.kind == SUBACK then ParseSuback(p.body)
    else if p.kind == UNSUBSCRIBE then ParseUnsubscribe(p.body)
    else if p.kind == PINGREQ || p.kind == PINGRESP || p.kind == DISCONNECT then ParseEmpty(p.kind, p.body)
    else ParseAck(p.kind, p.body)
  }

  predicate FlagsAllowed(kind: PacketType, flags: byte) {
    kind == PUBLISH || flags == FixedFlags(kind)
  }

  /** Reads the fixed header and slices the body; bytes after the packet are ignored. */
  function ParseHeader(data: seq<byte>): Result<Packet> {
    if |data| < 2 then Err(TooShort)
    else
      var kind := data[0] / 16;
      var flags := data[0] % 16;
      if kind < CONNECT || kind > DISCONNECT then Err(BadType)
      else if !FlagsAllowed(kind, flags) then Err(BadFlags)
      else
        match ScanLength(data[1..])
        case NeedMore => Err(LengthTruncated)
        case TooLong => if |data| > 1 + MAX_LENGTH_BYTES then Err(LengthTooLong) else Err(LengthTruncated)
        case Length(value, size) =>
          if |data| - 1 - size < value then Err(Incomplete)
          else Ok(Packet(kind, flags, data[1 + size..1 + size + value]))
  }
}
