/**
 The printer and the parser of MqttMessages are inverse to each other: a message comes back
 exactly when its strings fit, and every accepted body is the printed form of what it parses to.
 */
module MqttRoundTrip {
  import opened Basics
  import opened RemainingLength
  import opened MqttMessages

  // ----- fields -------------------------------------------------------------------------

  lemma TakeU16Printed(n: u16, rest: seq<byte>)
    ensures TakeU16(Be16(n) + rest) == Ok((n, rest))
  {
    assert (Be16(n) + rest)[2..] == rest;
  }

  lemma TakeFieldPrinted(s: seq<byte>, rest: seq<byte>)
    requires |s| < 65536
    ensures TakeField(Field(s) + rest) == Ok((s, rest))
  {
    hide Be16, TakeU16;
    Assoc(Be16(|s|), s, rest);
    TakeU16Printed(|s|, s + rest);
    assert (s + rest)[..|s|] == s && (s + rest)[|s|..] == rest;
  }

  lemma BothBytes(n: u16)
    ensures |Be16(n)| == 2
  {
  }

  lemma TakeU16Sound(s: seq<byte>)
    requires TakeU16(s).Ok?
    ensures var (n, rest) := TakeU16(s).value; s == Be16(n) + rest
  {
  }

  lemma TakeFieldSound(s: seq<byte>)
    requires TakeField(s).Ok?
    ensures var (value, rest) := TakeField(s).value;
            |value| < 65536 && s == Field(value) + rest && |rest| + 2 + |value| == |s|
  {
    hide Be16, TakeU16;
    TakeU16Sound(s);
    var (size, rest) := TakeU16(s).value;
    assert rest == rest[..size] + rest[size..];
    Assoc(Be16(size), rest[..size], rest[size..]);
    BothBytes(size);
  }

  lemma TakeOptionalPrinted(value: Option<seq<byte>>, rest: seq<byte>)
    requires value.Some? ==> |value.value| < 65536
    ensures TakeOptional(value.Some?, OptionalField(value) + rest) == Ok((value, rest))
  {
    match value
    case None => assert OptionalField(value) + rest == rest;
    case Some(v) => TakeFieldPrinted(v, rest);
  }

  lemma TakeOptionalSound(present: bool, s: seq<byte>)
    requires TakeOptional(present, s).Ok?
    ensures var (value, rest) := TakeOptional(present, s).value;
            && value.Some? == present && s == OptionalField(value) + rest
            && (present ==> |value.value| < 65536)
  {
    if present { TakeFieldSound(s); } else { assert s == [] + s; }
  }

  lemma TakeWillPrinted(will: Option<Will>, qos: byte, retain: bool, rest: seq<byte>)
    requires will.Some? ==> |will.value.topic| < 65536 && |will.value.message| < 65536
    requires will.Some? ==> will.value.qos == qos && will.value.retain == retain
    ensures TakeWill(will.Some?, qos, retain, WillFields(will) + rest) == Ok((will, rest))
  {
    match will
    case None => assert WillFields(will) + rest == rest;
    case Some(w) =>
      assert WillFields(will) + rest == Field(w.topic) + (Field(w.message) + rest);
      TakeFieldPrinted(w.topic, Field(w.message) + rest);
      TakeFieldPrinted(w.message, rest);
  }

  lemma TakeWillSound(present: bool, qos: byte, retain: bool, s: seq<byte>)
    requires TakeWill(present, qos, retain, s).Ok?
    ensures var (will, rest) := TakeWill(present, qos, retain, s).value;
            && will.Some? == present && s == WillFields(will) + rest
            && (present ==> |will.value.topic| < 65536 && |will.value.message| < 65536
                            && will.value.qos == qos && will.value.retain == retain)
  {
    if present {
      TakeFieldSound(s);
      var (topic, s1) := TakeField(s).value;
      TakeFieldSound(s1);
      var (message, s2) := TakeField(s1).value;
      assert Field(topic) + (Field(message) + s2) == (Field(topic) + Field(message)) + s2;
    } else {
      assert s == [] + s;
    }
  }

  // ----- CONNECT ------------------------------------------------------------------------

  lemma BitsApart(u: nat, p: nat, r: nat, q: nat, w: nat, c: nat)
    requires u < 2 && p < 2 && r < 2 && q < 4 && w < 2 && c < 2
    ensures var f := 128 * u + 64 * p + 32 * r + 8 * q + 4 * w + 2 * c;
            && f % 2 == 0 && f / 2 % 2 == c && f / 4 % 2 == w && f / 8 % 4 == q
            && f / 32 % 2 == r && f / 64 % 2 == p && f / 128 == u
  {
    var f := 128 * u + 64 * p + 32 * r + 8 * q + 4 * w + 2 * c;
    assert f / 2 == 64 * u + 32 * p + 16 * r + 4 * q + 2 * w + c;
    assert f / 4 == 32 * u + 16 * p + 8 * r + 2 * q + w;
    assert f / 8 == 16 * u + 8 * p + 4 * r + q;
    assert f / 32 == 4 * u + 2 * p + r;
    assert f / 64 == 2 * u + p;
  }

  /** The connect flags byte determines, and is determined by, the optional parts. */
  lemma ConnectFlagsBits(m: Message)
    requires m.Connect? && (m.will.Some? ==> m.will.value.qos <= 2)
    requires m.password.Some? ==> m.username.Some?
    ensures var f := ConnectFlags(m);
            && ConnectFlagsError(f).None?
            && (f / 128 == 1 <==> m.username.Some?) && (f / 64 % 2 == 1 <==> m.password.Some?)
            && (f / 4 % 2 == 1 <==> m.will.Some?) && (f / 2 % 2 == 1 <==> m.cleanSession)
            && (m.will.Some? ==> f / 8 % 4 == m.will.value.qos && (f / 32 % 2 == 1 <==> m.will.value.retain))
  {
    hide ConnectFlags, Bit;
    var u, p, c := Bit(m.username.Some?, 1), Bit(m.password.Some?, 1), Bit(m.cleanSession, 1);
    var w := Bit(m.will.Some?, 1);
    var r := if m.will.Some? then Bit(m.will.value.retain, 1) else Bit(false, 1);
    var q := if m.will.Some? then m.will.value.qos else 0;
    BitsOfConnect(m);
    BitValues();
    BitsApart(u, p, r, q, w, c);
  }

  lemma BitValues()
    ensures Bit(true, 1) == 1 && Bit(false, 1) == 0
  {
  }

  lemma BitsOfConnect(m: Message)
    requires m.Connect? && (m.will.Some? ==> m.will.value.qos <= 2)
    ensures ConnectFlags(m)
         == 128 * Bit(m.username.Some?, 1) + 64 * Bit(m.password.Some?, 1)
            + 32 * (if m.will.Some? then Bit(m.will.value.retain, 1) else Bit(false, 1))
            + 8 * (if m.will.Some? then m.will.value.qos else 0)
            + 4 * Bit(m.will.Some?, 1) + 2 * Bit(m.cleanSession, 1)
  {
  }

  /** A byte is the sum of its connect flag groups. */
  lemma ByteFromBits(f: byte)
    ensures f == f / 128 * 128 + f / 64 % 2 * 64 + f / 32 % 2 * 32 + f / 8 % 4 * 8 + f / 4 % 2 * 4 + f / 2 % 2 * 2 + f % 2
  {
    assert f / 4 == f / 2 / 2 && f / 8 == f / 4 / 2 && f / 32 == f / 8 / 4;
    assert f / 64 == f / 32 / 2 && f / 128 == f / 64 / 2;
  }

  lemma ConnectFlagsSound(f: byte, m: Message)
    requires ConnectFlagsError(f).None? && m.Connect?
    requires m.username.Some? <==> f / 128 == 1
    requires m.password.Some? <==> f / 64 % 2 == 1
    requires m.cleanSession <==> f / 2 % 2 == 1
    requires m.will.Some? <==> f / 4 % 2 == 1
    requires m.will.Some? ==> m.will.value.qos == f / 8 % 4 && (m.will.value.retain <==> f / 32 % 2 == 1)
    ensures ConnectFlags(m) == f
    ensures m.password.Some? ==> m.username.Some?
    ensures m.will.Some? ==> m.will.value.qos <= 2
  {
    ByteFromBits(f);
    assert Bit(m.username.Some?, 128) == f / 128 * 128;
    assert Bit(m.password.Some?, 64) == f / 64 % 2 * 64;
    assert Bit(m.cleanSession, 2) == f / 2 % 2 * 2;
    if m.will.Some? {
      assert Bit(m.will.value.retain, 32) == f / 32 % 2 * 32;
    }
  }

  lemma ConnectTailPrinted(m: Message)
    requires m.Connect? && CheckError(m).None? && Fits(m)
    ensures ParseConnectTail(ConnectFlags(m),
                             Be16(m.keepAlive) + (Field(m.clientId) + (WillFields(m.will)
                             + (OptionalField(m.username) + OptionalField(m.password))))) == Ok(m)
  {
    ConnectFlagsBits(m);
    var f := ConnectFlags(m);
    var password := OptionalField(m.password);
    var login := OptionalField(m.username) + password;
    TakeU16Printed(m.keepAlive, Field(m.clientId) + (WillFields(m.will) + login));
    TakeFieldPrinted(m.clientId, WillFields(m.will) + login);
    TakeWillPrinted(m.will, f / 8 % 4, f / 32 % 2 == 1, login);
    TakeOptionalPrinted(m.username, password);
    TakeOptionalPrinted(m.password, []);
    assert password + [] == password;
  }

  lemma ConnectPrinted(m: Message)
    requires m.Connect? && CheckError(m).None? && Fits(m)
    ensures ParseConnect(Body(m)) == Ok(m)
  {
    var tail := Be16(m.keepAlive) + (Field(m.clientId) + (WillFields(m.will)
                + (OptionalField(m.username) + OptionalField(m.password))));
    var s1 := [PROTOCOL_LEVEL, ConnectFlags(m)] + tail;
    TakeFieldPrinted(PROTOCOL_NAME, s1);
    assert s1[2..] == tail;
    ConnectFlagsBits(m);
    ConnectTailPrinted(m);
  }

  lemma ConnectTailSound(f: byte, s: seq<byte>)
    requires ConnectFlagsError(f).None? && ParseConnectTail(f, s).Ok?
    ensures var m := ParseConnectTail(f, s).value;
            && m.Connect? && CheckError(m).None? && Fits(m) && ConnectFlags(m) == f
            && s == Be16(m.keepAlive) + (Field(m.clientId) + (WillFields(m.will)
                    + (OptionalField(m.username) + OptionalField(m.password))))
  {
    var m := ParseConnectTail(f, s).value;
    TakeU16Sound(s);
    var (_, s1) := TakeU16(s).value;
    TakeFieldSound(s1);
    var (_, s2) := TakeField(s1).value;
    TakeWillSound(f / 4 % 2 == 1, f / 8 % 4, f / 32 % 2 == 1, s2);
    var (_, s3) := TakeWill(f / 4 % 2 == 1, f / 8 % 4, f / 32 % 2 == 1, s2).value;
    TakeOptionalSound(f / 128 == 1, s3);
    var (_, s4) := TakeOptional(f / 128 == 1, s3).value;
    TakeOptionalSound(f / 64 % 2 == 1, s4);
    assert s4 == OptionalField(m.password);
    ConnectFlagsSound(f, m);
  }

  lemma ConnectSound(body: seq<byte>)
    requires ParseConnect(body).Ok?
    ensures var m := ParseConnect(body).value;
            m.Connect? && CheckError(m).None? && Fits(m) && body == Body(m)
  {
    hide TakeField, ParseConnectTail, ConnectFlagsError, ConnectFlags, Be16, Field, WillFields, OptionalField, Fits, CheckError;
    TakeFieldSound(body);
    var (_, s1) := TakeField(body).value;
    ConnectTailSound(s1[1], s1[2..]);
    assert s1 == [s1[0], s1[1]] + s1[2..];
  }

  // ----- lists --------------------------------------------------------------------------

  lemma {:induction false} TopicsPrinted(topics: seq<Topic>)
    requires TopicsError(topics).None?
    requires forall k :: 0 <= k < |topics| ==> |topics[k].filter| < 65536
    ensures ParseTopics(TopicsBytes(topics)) == Ok(topics)
  {
    if topics != [] {
      var tail := topics[1..];
      TopicsPrinted(tail);
      TopicPrinted(topics[0], TopicsBytes(tail));
      assert topics == [topics[0]] + tail;
    }
  }

  lemma TopicPrinted(topic: Topic, tail: seq<byte>)
    requires topic.filter != [] && topic.qos <= 2 && |topic.filter| < 65536
    ensures ParseTopics(Field(topic.filter) + ([topic.qos] + tail))
            == match ParseTopics(tail) case Ok(topics) => Ok([topic] + topics) case Err(e) => Err(e)
  {
    var rest := [topic.qos] + tail;
    TakeFieldPrinted(topic.filter, rest);
    assert rest[1..] == tail;
  }

  lemma {:induction false} TopicsSound(s: seq<byte>)
    requires ParseTopics(s).Ok?
    ensures var topics := ParseTopics(s).value;
            && TopicsError(topics).None? && TopicsBytes(topics) == s
            && forall k :: 0 <= k < |topics| ==> |topics[k].filter| < 65536
    decreases |s|
  {
    hide TakeField, Field;
    if s != [] {
      TakeFieldSound(s);
      var (_, field) := TakeField(s).value;
      assert field == [field[0]] + field[1..];
      var (topic, rest) := TakeTopic(s).value;
      TopicsSound(rest);
      var tail := ParseTopics(rest).value;
      assert ([topic] + tail)[1..] == tail;
    }
  }

  lemma FieldIsBytes(s: seq<byte>)
    ensures |Field(s)| == 2 + |s|
  {
  }

  lemma {:induction false} FiltersPrinted(filters: seq<seq<byte>>)
    requires FiltersError(filters).None?
    requires forall k :: 0 <= k < |filters| ==> |filters[k]| < 65536
    ensures ParseFilters(FiltersBytes(filters)) == Ok(filters)
  {
    hide TakeField, Field;
    if filters != [] {
      FieldIsBytes(filters[0]);
      TakeFieldPrinted(filters[0], FiltersBytes(filters[1..]));
      FiltersPrinted(filters[1..]);
      assert filters == [filters[0]] + filters[1..];
    }
  }

  lemma {:induction false} FiltersSound(s: seq<byte>)
    requires ParseFilters(s).Ok?
    ensures var filters := ParseFilters(s).value;
            && FiltersError(filters).None? && FiltersBytes(filters) == s
            && forall k :: 0 <= k < |filters| ==> |filters[k]| < 65536
    decreases |s|
  {
    if s != [] {
      TakeFieldSound(s);
      var (filter, rest) := TakeField(s).value;
      FiltersSound(rest);
      var tail := ParseFilters(rest).value;
      assert ([filter] + tail)[1..] == tail;
    }
  }

  /** A list body is long enough for the parser's first size check. */
  lemma ListBodySize(m: Message)
    requires CheckError(m).None?
    ensures m.Subscribe? ==> |Body(m)| >= 5
    ensures m.Suback? ==> |Body(m)| >= 3
    ensures m.Unsubscribe? ==> |Body(m)| >= 4
  {
  }

  // ----- every message ------------------------------------------------------------------

  lemma PublishPrinted(m: Message)
    requires m.Publish? && CheckError(m).None? && Fits(m)
    ensures ParsePublish(Flags(m), Body(m)) == Ok(m)
  {
    var flags := Flags(m);
    assert flags / 2 % 4 == m.qos && (flags / 8 % 2 == 1 <==> m.dup) && (flags % 2 == 1 <==> m.retain) by {
      PublishFlagsBits(m.dup, m.qos, m.retain);
    }
    var s1 := (if m.qos > 0 then Be16(m.packetId.value) else []) + m.payload;
    assert TakeField(Body(m)) == Ok((m.topic, s1)) by { TakeFieldPrinted(m.topic, s1); }
    if m.qos > 0 {
      TakeU16Printed(m.packetId.value, m.payload);
    } else {
      assert s1 == m.payload;
    }
  }

  lemma PublishSound(flags: byte, body: seq<byte>)
    requires flags < 16 && ParsePublish(flags, body).Ok?
    ensures var m := ParsePublish(flags, body).value;
            m.Publish? && CheckError(m).None? && Fits(m) && body == Body(m) && Flags(m) == flags
  {
    hide TakeField, TakeU16, Field, Be16, Bit;
    TakeFieldSound(body);
    var (topic, s1) := TakeField(body).value;
    PublishFlagsSound(flags);
    if flags / 2 % 4 == 0 {
      assert Field(topic) + ([] + s1) == Field(topic) + s1;
    } else {
      TakeU16Sound(s1);
    }
  }

  lemma PublishFlagsBits(dup: bool, qos: byte, retain: bool)
    requires qos <= 2
    ensures var f := Bit(dup, 8) + qos % 4 * 2 + Bit(retain, 1);
            && f / 2 % 4 == qos && (f / 8 % 2 == 1 <==> dup) && (f % 2 == 1 <==> retain)
  {
    var f := Bit(dup, 8) + qos % 4 * 2 + Bit(retain, 1);
    assert f / 2 == Bit(dup, 4) + qos;
    assert f / 8 == Bit(dup, 1);
  }

  lemma PublishFlagsSound(flags: byte)
    requires flags < 16
    ensures flags == Bit(flags / 8 % 2 == 1, 8) + flags / 2 % 4 % 4 * 2 + Bit(flags % 2 == 1, 1)
  {
    assert flags / 8 == flags / 2 / 4;
  }

  lemma AckPrinted(m: Message)
    requires m.Ack? && CheckError(m).None?
    ensures ParseAck(m.ack, Body(m)) == Ok(m)
  {
    TakeU16Printed(m.id, []);
    assert Be16(m.id) + [] == Be16(m.id);
  }

  lemma ListsPrinted(m: Message)
    requires CheckError(m).None? && Fits(m)
    ensures m.Subscribe? ==> ParseSubscribe(Body(m)) == Ok(m)
    ensures m.Suback? ==> ParseSuback(Body(m)) == Ok(m)
    ensures m.Unsubscribe? ==> ParseUnsubscribe(Body(m)) == Ok(m)
  {
    ListBodySize(m);
    if m.Subscribe? {
      TakeU16Printed(m.id, TopicsBytes(m.topics));
      TopicsPrinted(m.topics);
    } else if m.Suback? {
      TakeU16Printed(m.id, m.codes);
    } else if m.Unsubscribe? {
      TakeU16Printed(m.id, FiltersBytes(m.filters));
      FiltersPrinted(m.filters);
    }
  }

  lemma ParsePrinted(m: Message)
    requires CheckError(m).None? && Fits(m)
    ensures Parse(Packet(Kind(m), Flags(m), Body(m))) == Ok(m)
  {
    if m.Connect? {
      ConnectPrinted(m);
    } else if m.Publish? {
      PublishPrinted(m);
    } else if m.Ack? {
      AckPrinted(m);
    } else {
      ListsPrinted(m);
    }
  }

  /**
   Normal form: whatever the parser accepts, the encoder accepts too, and printing it gives
   back the same type, flags and body bytes.
   */
  lemma ParseSound(p: Packet)
    requires p.flags < 16 && FlagsAllowed(p.kind, p.flags) && Parse(p).Ok?
    ensures var m := Parse(p).value;
            && CheckError(m).None? && Fits(m)
            && Kind(m) == p.kind && Flags(m) == p.flags && Body(m) == p.body
  {
    if p.kind == CONNECT {
      ConnectSound(p.body);
    } else if p.kind == PUBLISH {
      PublishSound(p.flags, p.body);
    } else if p.kind == SUBSCRIBE {
      TakeU16Sound(p.body);
      TopicsSound(TakeU16(p.body).value.1);
    } else if p.kind == SUBACK {
      TakeU16Sound(p.body);
    } else if p.kind == UNSUBSCRIBE {
      TakeU16Sound(p.body);
      FiltersSound(TakeU16(p.body).value.1);
    } else if p.body != [] && p.kind != CONNACK {
      TakeU16Sound(p.body);
    }
  }

  /** Body and flags of an accepted message determine it: printing is injective. */
  lemma PrintingInjective(m: Message, m': Message)
    requires CheckError(m).None? && Fits(m) && CheckError(m').None? && Fits(m')
    requires Kind(m) == Kind(m') && Flags(m) == Flags(m') && Body(m) == Body(m')
    ensures m == m'
  {
    ParsePrinted(m);
    ParsePrinted(m');
  }

  // ----- whole packets ------------------------------------------------------------------

  /** The fixed header of every encoded packet is read back, whatever follows the packet. */
  lemma HeaderPrinted(kind: PacketType, flags: byte, body: seq<byte>, suffix: seq<byte>)
    requires flags < 16 && FlagsAllowed(kind, flags) && |body| <= MAX_LENGTH
    ensures ParseHeader(Frame(kind, flags, body) + suffix) == Ok(Packet(kind, flags, body))
  {
    var data := Frame(kind, flags, body) + suffix;
    var digits := LengthBytes(|body|);
    assert data[1..] == digits + (body + suffix);
    RemainingLengthRoundTrip(|body|, body + suffix);
    assert data[1 + |digits|..1 + |digits| + |body|] == body;
  }

  /**
   Message round trip: of all messages the encoder accepts, exactly those whose strings fit
   their sixteen-bit lengths are read back unchanged.
   */
  lemma MessageRoundTrip(m: Message, suffix: seq<byte>)
    requires Encode(m).Ok?
    ensures var header := ParseHeader(Encode(m).value + suffix);
            && header == Ok(Packet(Kind(m), Flags(m), Body(m)))
            && (Parse(header.value) == Ok(m) <==> Fits(m))
  {
    var p := Packet(Kind(m), Flags(m), Body(m));
    HeaderPrinted(p.kind, p.flags, p.body, suffix);
    if Fits(m) {
      ParsePrinted(m);
    } else if Parse(p) == Ok(m) {
      ParseSound(p);
    }
  }

  /** A client id one byte too long for its length field is not read back. */
  lemma OverlongStringIsLost(clientId: seq<byte>)
    requires |clientId| == 65536
    ensures var m := Connect(true, 60, clientId, None, None, None);
            && Encode(m).Ok? && ParseHeader(Encode(m).value).Ok?
            && Parse(ParseHeader(Encode(m).value).value) != Ok(m)
  {
    var m := Connect(true, 60, clientId, None, None, None);
    MessageRoundTrip(m, []);
    assert Encode(m).value + [] == Encode(m).value;
  }

  lemma HeaderSound(data: seq<byte>)
    requires ParseHeader(data).Ok?
    ensures var p := ParseHeader(data).value;
            && p.flags < 16 && FlagsAllowed(p.kind, p.flags) && |p.body| <= MAX_LENGTH
            && ScanLength(data[1..]).Length? && ScanLength(data[1..]).value == |p.body|
            && data[0] == p.kind * 16 + p.flags
            && 1 + ScanLength(data[1..]).size + |p.body| <= |data|
            && p.body == data[1 + ScanLength(data[1..]).size..][..|p.body|]
  {
    PrintedIsShortest(data[1..]);
  }

  /**
   Re-encoding an accepted packet never makes it longer, gives the same packet back when and
   only when the remaining length was minimal, and is idempotent.
   */
  lemma ReencodeNormalForm(data: seq<byte>)
    requires ParseHeader(data).Ok? && Parse(ParseHeader(data).value).Ok?
    ensures var p := ParseHeader(data).value;
            var m := Parse(p).value;
            var scan := ScanLength(data[1..]);
            var size := 1 + scan.size + |p.body|;
            && Encode(m).Ok? && |Encode(m).value| <= size
            && (Encode(m).value == data[..size] <==> scan.size == |LengthBytes(|p.body|)|)
            && ParseHeader(Encode(m).value) == Ok(p)
  {
    var p := ParseHeader(data).value;
    HeaderSound(data);
    ParseSound(p);
    FrameAgainstPrinted(data);
    HeaderPrinted(p.kind, p.flags, p.body, []);
    assert Frame(p.kind, p.flags, p.body) + [] == Frame(p.kind, p.flags, p.body);
  }

  lemma FrameAgainstPrinted(data: seq<byte>)
    requires ParseHeader(data).Ok?
    ensures var p := ParseHeader(data).value;
            var scan := ScanLength(data[1..]);
            var size := 1 + scan.size + |p.body|;
            && p.flags < 16 && size <= |data|
            && |Frame(p.kind, p.flags, p.body)| <= size
            && (Frame(p.kind, p.flags, p.body) == data[..size] <==> scan.size == |LengthBytes(|p.body|)|)
  {
    var p := ParseHeader(data).value;
    HeaderSound(data);
    var scan := ScanLength(data[1..]);
    PrintedIsShortest(data[1..]);
    var digits := LengthBytes(|p.body|);
    var size := 1 + scan.size + |p.body|;
    var frame := Frame(p.kind, p.flags, p.body);
    assert |frame| == 1 + |digits| + |p.body|;
    if scan.size == |digits| {
      assert data[..size] == [data[0]] + (data[1..][..scan.size] + data[1 + scan.size..][..|p.body|]);
    }
  }
}
