# pico_toolkit: verified models

A Dafny model of the networking core of pico_toolkit, a library for the Raspberry Pi Pico W, and
proofs about it. Four parts of the library are modelled:

- **The MQTT 3.1.1 codec and streaming client.** The encoder and the parser are methods that build
  a body step by step and read it through a moving offset; they are proved against a printer and a
  parser that consumes bytes from the front, and these two are proved inverse to each other. The
  client is a class with the fields of the original; ghost fields record the session as a trace of
  packets sent, a packet cut short, and frames received.
- **The TCP byte buffer** under the client.
- **The DHCP lease table**: 32 slots in an array, sixteen-bit expiries on a wrapping 32-bit
  millisecond tick, the options area of a message, and the transitions of DISCOVER and REQUEST.
- **The UDP listener**: one socket shared by logical connections, with the map, the pending queue
  that aliases its objects, and the path from closing a connection back to the map.

Main results:

- *Round trip, exactly.* A message the encoder accepts is read back unchanged if and only if every
  length-prefixed part fits sixteen bits (`MqttRoundTrip.MessageRoundTrip`); the encoder casts the
  length without a check, so longer parts are lost (`OverlongStringIsLost`). In the other direction
  everything the parser accepts is printed back byte for byte (`ParseSound`), and re-encoding is the
  identity on a packet if and only if its remaining length was minimal (`ReencodeNormalForm`).
- *Bytes from the standard.* Independently of the grammar, every message is proved to be encoded to the
  bytes that sections 3.1 to 3.14 of MQTT 3.1.1 write out, first byte, length, identifiers and fields
  (`MqttWire`), and the messages the encoder takes, the first bytes the parser takes and the
  accepting CONNACKs are listed exactly. The length field is given by its digits (`LengthDigits`,
  `ScanVerdict`). `Publish`, `Subscribe`, `Poll` and `Disconnect` state the bytes they send.
- *Chunk independence and delivery.* Packets are a prefix-free code, the two remaining-length
  decoders agree, and the outcome of the receive loop, error included, does not depend on how bytes
  are cut into chunks. In every reachable connected state every byte that arrived is in a handled
  frame or a buffer, and the messages handed out followed by those queued are exactly the PUBLISH
  messages of the handled frames (`MqttClient.Client.DeliveredInOrder`). Wherever the last segment
  has cut the broker's stream, these are the messages of a first part of it, which reaches to the
  first packet not read in full (`BrokerToApplication`). The one exception is exact: polls are one
  run on all the bytes if and only if a byte was read or no whole frame waited in the buffer
  (`MqttStream.PollsAreOneRun`), so a PUBLISH read with the CONNACK waits for the next bytes
  (`WelcomePublishWaits`).
- *Session discipline.* The client keeps, at every boundary of its interface, the invariant that
  its trace is accepted by an automaton; the automaton accepts exactly the traces that follow the
  rules of the wire and of keep-alive (`MqttSession.SessionDiscipline`), and the bytes written
  decode uniquely to the packets of the trace (`WireDecodes`). Every connection ever dialed has its
  session on file once it is given up; of every one the same holds, and the messages handed out are
  the first PUBLISH messages of the frames it handled (`EverySessionDisciplined`).
- *Keep-alive in time.* Every event of a session and every byte read has a time. In every session each
  PINGREQ comes at least half the interval after the packet before it, and the client's two time fields
  are, in every reachable connected state, those of the last packet sent and the last byte read, or of
  connecting. So a successful poll leaves the last send, or with a ping outstanding the last read,
  recent (`KeptAliveMeans`), and every error of a poll has its cause in the bytes, the connection or
  the clock. Connecting times out only when no first part of what had arrived was an accepting CONNACK.
  Enough successful polls read everything that had arrived (`MqttTiming.PollsDrain`).
- *DHCP exclusivity.* Within the lease time of a grant to a non-zero MAC no other client is granted
  or offered the address, over all runs and all wraps of the tick (`DhcpLeases.GrantIsExclusive`), and
  the server class keeps the invariant that the requests it has handled are such a run; the zero MAC is
  the exact exception (`ZeroMacIsNotExclusive`). An offer is honoured unless another client was granted
  the address in between (`OfferIsHonoured`), and an address is offered as long as one is free or
  expired (`DiscoverIsServed`). Of the server object both are stated on the addresses and types of the
  replies it sent (`Server.HandshakeCompletes`, `Server.AddressIsExclusive`). A stored expiry reads as expired exactly in one
  half circle of the clock (`ExpiryExact`), so a lease forgotten for 2^31 ms looks fresh again.
- *Demultiplexing.* A datagram goes to the open connection with its address and port and to no other,
  or to one new pending connection. While the listener is open its map files exactly the connections not
  yet closed, at most one for each address and port, and each has exactly the datagrams from there since
  it was made.

Modelling choices. Bytes are integers below 256, strings are byte sequences, and bit operations on
disjoint bit groups are written as arithmetic. 16- and 32-bit wrap-around is written out where the
source has it. Errors are a datatype in place of message texts. An output vector passed by
reference is an in and an out parameter. The network, the clock and the scheduler are nondeterministic
choices in `Transport`; several packet types whose source bodies are copies of each other share one
method here. The payload of a PUBLISH is an owned value, as `mqtt_client.cpp:338` treats it, although
`mqtt_message.hpp:111` declares a span. The accumulator at `mqtt_parser.cpp:14` is a local 32-bit
value. The declarations repeated at `mqtt_client.hpp:98-105` are not modelled.

Files: `Basics`, `RemainingLength`, `MqttMessages` (grammar), `MqttRoundTrip`, `MqttEncoder`,
`MqttParser`, `MqttFraming`, `MqttStream`, `MqttSession`, `MqttTiming`, `MqttWire`, `Transport`, `MqttClient`, `DhcpLeases`,
`DhcpServer`, `UdpPeers`, `UdpListener`. `dafny verify dfyconfig.toml` checks all of them.

## Model

| member | source | states |
|---|---|---|
| RemainingLength.WriteRemainingLength | pico_mqtt/src/mqtt_encoder.cpp:35-49 | appends the base-128 digits of the value, least significant first, with the top bit on all but the last |
| RemainingLength.RemainingLengthRoundTrip | pico_mqtt/src/mqtt_encoder.cpp:35-73 | every length up to 268,435,455 takes one to four bytes and scans back to itself, stopping exactly after them, whatever follows (section 2.2.3 of MQTT 3.1.1) |
| RemainingLength.PrintedIsShortest | pico_mqtt/src/mqtt_parser.cpp:11-39 | no accepted encoding is out of range or shorter than the encoder's, and the encoder's is the only one of its size |
| RemainingLength.PrintedSize | pico_mqtt/src/mqtt_encoder.cpp:35-49 | the four size classes of the field |
| RemainingLength.LengthDigits | pico_mqtt/src/mqtt_encoder.cpp:35-49 | one to four bytes, the top bit on all but the last, whose low seven bits weigh 1, 128, 16,384 and 2,097,152 |
| RemainingLength.ScanVerdict | pico_mqtt/src/mqtt_parser.cpp:11-39 | what the scan answers, by the bytes: too long exactly for four top bits, incomplete exactly for fewer bytes that all have it, else that weighted sum |
| RemainingLength.AddDigit | pico_mqtt/src/mqtt_parser.cpp:28-29 | the 32-bit accumulator step: no wrap-around on the first four digits |
| MqttRoundTrip.ConnectFlagsBits | pico_mqtt/src/mqtt_encoder.cpp:103-131 | the flags byte the encoder builds passes the parser's checks and gives back every optional part, QoS and retain bit |
| MqttRoundTrip.ParsePrinted | pico_mqtt/src/mqtt_parser.cpp:153-751 | for every accepted message whose strings fit, the parser of its type reads its body and flags back to it |
| MqttRoundTrip.ParseSound | pico_mqtt/src/mqtt_parser.cpp:153-751 | whatever a parser accepts, the encoder accepts, its strings fit, and printing gives the same type, flags and body: nothing of the body is ignored |
| MqttRoundTrip.PrintingInjective | pico_mqtt/src/mqtt_encoder.cpp:80-411 | two accepted messages with the same type, flags and body are the same message |
| MqttRoundTrip.HeaderPrinted | pico_mqtt/src/mqtt_encoder.cpp:61-78 | the fixed header of every encoded packet is read back, with anything behind the packet |
| MqttRoundTrip.MessageRoundTrip | pico_mqtt/src/mqtt_encoder.cpp:80-411 | a message the encoder accepts is parsed back unchanged if and only if its length-prefixed parts fit sixteen bits |
| MqttRoundTrip.OverlongStringIsLost | pico_mqtt/src/mqtt_encoder.cpp:22-33 | a client id of 65,536 bytes is accepted by the encoder and not read back |
| MqttRoundTrip.ReencodeNormalForm | pico_mqtt/src/mqtt_parser.cpp:111-151 | re-encoding an accepted packet never lengthens it, is the identity exactly when the remaining length was minimal, and is idempotent |
| MqttWire.ConnectOnWire | pico_mqtt/src/mqtt_encoder.cpp:80-159 | the bytes of a CONNECT: 0x10, the length, MQTT level 4, the flags bit by bit, keep alive, client id, will topic before will message, username, password |
| MqttWire.ConnackOnWire | pico_mqtt/src/mqtt_encoder.cpp:161-178 | 0x20, 2, the session flag and the return code |
| MqttWire.PublishOnWire | pico_mqtt/src/mqtt_encoder.cpp:180-233 | 0x30 with duplicate, QoS and retain bits, the length, the topic, the identifier for QoS over 0, the payload |
| MqttWire.AckOnWire | pico_mqtt/src/mqtt_encoder.cpp:235-285 | 0x40, 0x50, 0x62, 0x70 or 0xB0, then 2 and the identifier (UNSUBACK: lines 382-394) |
| MqttWire.SubscribeOnWire | pico_mqtt/src/mqtt_encoder.cpp:287-320 | 0x82, the length, the identifier, and each filter with its length before it and its QoS behind it |
| MqttWire.SubackOnWire | pico_mqtt/src/mqtt_encoder.cpp:322-351 | 0x90, the length, the identifier and the codes |
| MqttWire.UnsubscribeOnWire | pico_mqtt/src/mqtt_encoder.cpp:353-380 | 0xA2, the length, the identifier, and each filter with its length |
| MqttWire.EmptyOnWire | pico_mqtt/src/mqtt_encoder.cpp:396-412 | PINGREQ is 0xC0 0, PINGRESP 0xD0 0, DISCONNECT 0xE0 0 |
| MqttWire.EncoderTakes | pico_mqtt/src/mqtt_encoder.cpp:80-411 | the messages the encoder accepts, type by type, up to bodies of 268,435,455 bytes |
| MqttWire.FirstBytes | pico_mqtt/src/mqtt_parser.cpp:41-56 | the parser refuses type or flags exactly for first bytes other than 0x10, 0x20, 0x30 to 0x3F, 0x40, 0x50, 0x62, 0x70, 0x82, 0x90, 0xA2, 0xB0, 0xC0, 0xD0, 0xE0 (see also lines 111-130) |
| MqttWire.AcceptedConnackIs | pico_mqtt/src/mqtt_client.cpp:285-305 | an accepting CONNACK is a frame of 0x20, length 2, a flag byte of 0 or 1, and return code 0 |
| MqttWire.DigestibleIs | pico_mqtt/src/mqtt_client.cpp:155-212 | of the frames with a legal header the client refuses exactly a PUBLISH that is malformed or of QoS over 0, a SUBACK that is malformed or begins with 128, and a PINGRESP with a body |
| MqttEncoder.WriteU16 | pico_mqtt/src/mqtt_encoder.cpp:16-20 | appends the value big-endian |
| MqttEncoder.WriteField | pico_mqtt/src/mqtt_encoder.cpp:22-33 | appends the length cast to sixteen bits, then all the bytes |
| MqttEncoder.ValidatePacketIdentifier | pico_mqtt/src/mqtt_encoder.cpp:51-59 | an error exactly for identifier 0 |
| MqttEncoder.MakePacket | pico_mqtt/src/mqtt_encoder.cpp:61-78 | first byte, minimal remaining length and body, or an error exactly when the body exceeds 268,435,455 bytes |
| MqttEncoder.EncodeConnect | pico_mqtt/src/mqtt_encoder.cpp:80-159 | the packet of the grammar for every combination of will, username and password, or the first failed check |
| MqttEncoder.EncodeConnectFlags | pico_mqtt/src/mqtt_encoder.cpp:103-129 | the connect flags byte, built bit group by bit group |
| MqttEncoder.EncodeConnack | pico_mqtt/src/mqtt_encoder.cpp:161-178 | the packet of the grammar, or an error for a return code over 5 |
| MqttEncoder.EncodePublish | pico_mqtt/src/mqtt_encoder.cpp:180-233 | the packet of the grammar, or the first failed check of topic, QoS and identifier |
| MqttEncoder.EncodeAck | pico_mqtt/src/mqtt_encoder.cpp:235-285 | PUBACK, PUBREC, PUBREL, PUBCOMP and UNSUBACK (lines 382-394): the packet of the grammar, or an error for identifier 0 |
| MqttEncoder.EncodeSubscribe | pico_mqtt/src/mqtt_encoder.cpp:287-320 | the packet for a topic list of any length, or the error of the first bad topic |
| MqttEncoder.EncodeSuback | pico_mqtt/src/mqtt_encoder.cpp:322-351 | the packet for a code list of any length, or the error of the first bad code |
| MqttEncoder.EncodeUnsubscribe | pico_mqtt/src/mqtt_encoder.cpp:353-380 | the packet for a filter list of any length, or the error of the first empty filter |
| MqttEncoder.EncodeEmpty | pico_mqtt/src/mqtt_encoder.cpp:396-412 | PINGREQ, PINGRESP and DISCONNECT: two bytes, never an error |
| MqttParser.DecodeRemainingLength | pico_mqtt/src/mqtt_parser.cpp:11-39 | agrees with the length scan in value, final offset and error, the offset stays inside the data, and accepted values never wrap |
| MqttParser.ValidateFixedHeaderFlags | pico_mqtt/src/mqtt_parser.cpp:41-56 | holds exactly for PUBLISH and for the flags the encoder gives every other type |
| MqttParser.ReadU16 | pico_mqtt/src/mqtt_parser.cpp:58-70 | takes two bytes big-endian and advances past them, never beyond the end |
| MqttParser.ReadField | pico_mqtt/src/mqtt_parser.cpp:72-109 | takes a length-prefixed field and advances past it, never beyond the end |
| MqttParser.ParseControlPacket | pico_mqtt/src/mqtt_parser.cpp:111-151 | type, flags and exactly the announced body, or the error of the first failed check |
| MqttParser.ParseConnect | pico_mqtt/src/mqtt_parser.cpp:153-298 | result and error of the grammar's parser |
| MqttParser.ParseConnectRest | pico_mqtt/src/mqtt_parser.cpp:224-297 | keep alive and the payload fields the flags announce, with nothing left over |
| MqttParser.ParseConnack | pico_mqtt/src/mqtt_parser.cpp:300-330 | result and error of the grammar's parser |
| MqttParser.ParsePublish | pico_mqtt/src/mqtt_parser.cpp:332-384 | result and error of the grammar's parser, the payload being all that is left |
| MqttParser.ParseAck | pico_mqtt/src/mqtt_parser.cpp:386-504 | PUBACK, PUBREC, PUBREL, PUBCOMP and UNSUBACK (lines 678-706): result and error of the grammar's parser |
| MqttParser.ReadTopic | pico_mqtt/src/mqtt_parser.cpp:535-569 | one topic and its QoS; the offset strictly advances |
| MqttParser.ParseSubscribe | pico_mqtt/src/mqtt_parser.cpp:506-578 | result and error of the grammar's parser on lists of any length |
| MqttParser.ParseSuback | pico_mqtt/src/mqtt_parser.cpp:580-625 | result and error of the grammar's parser on lists of any length |
| MqttParser.ParseUnsubscribe | pico_mqtt/src/mqtt_parser.cpp:627-676 | result and error of the grammar's parser on lists of any length |
| MqttParser.ParseEmpty | pico_mqtt/src/mqtt_parser.cpp:708-751 | accepts exactly the empty body of the type asked for |
| MqttFraming.MqttFrameInfo | pico_mqtt/src/mqtt_client.cpp:11-55 | the client's own frame scanner gives the specified verdict |
| MqttFraming.DecodersAgree | pico_mqtt/src/mqtt_client.cpp:11-55 | behind a legal first byte, complete, malformed and incomplete are exactly the parser's success, length error and want of bytes |
| MqttFraming.SliceParses | pico_mqtt/src/mqtt_client.cpp:101-109 | on the slice the scanner cuts, the parser reports no length error and the body is all after the header |
| MqttFraming.FramingPrefixStable | pico_mqtt/src/mqtt_client.cpp:22-54 | a verdict never changes when more bytes follow |
| MqttFraming.PrintedIsFrame | pico_mqtt/src/mqtt_encoder.cpp:61-78 | an encoded packet is exactly one frame |
| MqttFraming.PrefixFree | pico_mqtt/src/mqtt_client.cpp:22-54 | no frame is a proper prefix of another |
| MqttFraming.SplitSound | pico_mqtt/src/mqtt_client.cpp:84-120 | cutting a stream gives whole frames and an unfinished rest that make it up |
| MqttFraming.SplitUnique | pico_mqtt/src/mqtt_client.cpp:84-120 | a stream has only that cut |
| MqttFraming.NextIsCut | pico_mqtt/src/mqtt_client.cpp:101-119 | when the bytes left over are no whole frame, the next frame of the stream has not been read in full |
| MqttFraming.FramesDecodeUniquely | pico_mqtt/src/mqtt_encoder.cpp:61-78 | two packet sequences with the same bytes are the same |
| MqttStream.ChunkIndependence | pico_mqtt/src/mqtt_client.cpp:84-120 | processing a and then b is processing a ++ b: frames handled, queue, ping flag, rest and error |
| MqttStream.SegmentationIrrelevant | pico_mqtt/src/mqtt_client.cpp:402-413 | any two ways to cut the same bytes have the same outcome, also with bytes left over from before |
| MqttStream.HandleFrameIff | pico_mqtt/src/mqtt_client.cpp:155-212 | which frames are handled without error, and that each adds its own PUBLISH, if any, and clears the ping flag exactly for PINGRESP |
| MqttStream.RunSound | pico_mqtt/src/mqtt_client.cpp:84-174 | a run without error handled whole frames that with the rest are exactly the bytes, and queued exactly their PUBLISH messages in order |
| MqttStream.RunComplete | pico_mqtt/src/mqtt_client.cpp:84-174 | every stream of digestible frames and an unfinished rest is handled so |
| MqttStream.DeliverableIff | pico_mqtt/src/mqtt_client.cpp:155-212 | of the messages that survive encoding, the client takes exactly those that are not QoS 1 or 2 publishes nor refusals of a subscription |
| MqttStream.PollsAreOneRun | pico_mqtt/src/mqtt_client.cpp:395-413 | a sequence of polls has the outcome of one run on all the bytes, if and only if a byte is read or no whole frame was in the buffer before |
| MqttStream.WelcomePublishWaits | pico_mqtt/src/mqtt_client.cpp:299-313 | a PUBLISH read together with the CONNACK stays in the buffer through every poll that reads nothing, and is queued first by the next that does (see also lines 402-413) |
| MqttStream.EndToEnd | pico_mqtt/src/mqtt_client.cpp:84-174 | however the encodings of deliverable messages are cut, nothing is left over and exactly the PUBLISH messages are queued, in order |
| MqttSession.SessionDiscipline | pico_mqtt/src/mqtt_client.cpp:214-496 | the automaton accepts exactly the traces with CONNECT alone first, then an accepted CONNACK, then client requests and digestible frames, a cut packet or DISCONNECT last, and a PINGRESP between two PINGREQs |
| MqttSession.WholePackets | pico_mqtt/src/mqtt_client.cpp:122-153 | the bytes of a session are its whole packets and then part of the one cut, if any |
| MqttSession.WireDecodes | pico_mqtt/src/mqtt_client.cpp:122-153 | these bytes decode in one way only, to exactly the packets of the trace |
| MqttTiming.LastSend | pico_mqtt/src/mqtt_client.cpp:151 | the last whole packet of a session since its CONNACK, or the CONNACK (line 310); nothing is sent after it |
| MqttTiming.PacedSnoc | pico_mqtt/src/mqtt_client.cpp:417-426 | one more event keeps the pace of a session when a PINGREQ comes only half the interval after the last send |
| MqttTiming.PollsDrain | pico_mqtt/src/mqtt_client.cpp:393-406 | over any operations, what had arrived at the start has been read after enough polls to read it 256 bytes at a time |
| Transport.TcpConnection.HandleTcpRecv | pico_net/src/tcp_connection.cpp:34-59 | appends a good segment; a null one marks the end and detaches, a bad one is an error, and neither touches the buffer |
| Transport.TcpConnection.HandleTcpErr | pico_net/src/tcp_connection.cpp:71-98 | closed and in error, no byte lost or added |
| Transport.TcpConnection.ReadNonblocking | pico_net/src/tcp_connection.cpp:245-286 | after the network is polled, takes the longest possible prefix of the buffer; bytes delivered and bytes buffered are always the bytes arrived; an error exactly for a null buffer, an error state, or an ended connection with nothing buffered |
| Transport.TcpConnection.Write | pico_net/src/tcp_connection.cpp:150-186 | takes a prefix of the data; on an error after queuing the bytes may still be out |
| Transport.TcpConnection.Close | pico_net/src/tcp_connection.cpp:188-214 | closed and detached, no byte lost or added |
| MqttClient.IdentifiersDistinct | pico_mqtt/src/mqtt_client.cpp:57-67 | identifiers allocated fewer than 65,535 apart differ; the first is 1, the last before the wrap 65,535, and the next 1 again |
| MqttClient.NoConnackYet | pico_mqtt/src/mqtt_client.cpp:252-275 | when the bytes read hold no whole frame and are all that arrived, or 256 of them, no accepting CONNACK is at the front of what arrived |
| MqttClient.Client.constructor | pico_mqtt/include/mqtt_client.hpp:45-71 | a new client satisfies the invariant |
| MqttClient.Client.AllocatePacketIdentifier | pico_mqtt/src/mqtt_client.cpp:57-67 | the k-th identifier over all connections is 1 + ((k - 1) mod 65,535), never 0 |
| MqttClient.Client.CleanupConnection | pico_mqtt/src/mqtt_client.cpp:69-82 | closes and drops the connection, empties both buffers, clears the ping flag, and files the session with its times and bytes, so that every dialed connection keeps its session |
| MqttClient.Client.ProcessRxBuffer | pico_mqtt/src/mqtt_client.cpp:84-120 | outcome of the stream function on the buffer: queue, flag, rest and trace, with no whole frame left, or its error, no connection, and the session filed with what was written, read and handed out |
| MqttClient.Client.ProcessFrame | pico_mqtt/src/mqtt_client.cpp:101-119 | one frame handled as the stream function says and cut off the buffer, or its error and nothing changed |
| MqttClient.Client.SendEncoded | pico_mqtt/src/mqtt_client.cpp:122-153 | the whole packet once, over any partial writes, with the time of sending, or no connection and a recorded prefix, because the connection ended or refused the write |
| MqttClient.Client.WriteAll | pico_mqtt/src/mqtt_client.cpp:130-149 | the partial-write loop puts every byte of the packet on the wire once, in order, or reports an error after a prefix, which the connection caused |
| MqttClient.Client.HandlePacket | pico_mqtt/src/mqtt_client.cpp:155-212 | queue and flag change as specified, and not at all on an error |
| MqttClient.Client.Connect | pico_mqtt/src/mqtt_client.cpp:214-324 | connected after exactly the encoded CONNECT and an accepted CONNACK with the rest kept in the buffer; or no connection held, because dialing failed, or with one more session on file that says why; a timeout only at the deadline, and only when no first part of the bytes that had arrived is an accepting CONNACK |
| MqttClient.Client.Greet | pico_mqtt/src/mqtt_client.cpp:229-244 | the encoded CONNECT is all that is on the wire, or the session is over with the encoder's error or the packet cut short |
| MqttClient.Client.AwaitConnack | pico_mqtt/src/mqtt_client.cpp:246-323 | the deadline is looked at only after a read, so all reads but the last two are followed by ten milliseconds before it, and a timeout is reported only at the deadline or later, when no accepting CONNACK had arrived; a failed session sent just the CONNECT and its first frame, or the end of the connection, is the reason |
| MqttClient.Client.ReadFirstFrame | pico_mqtt/src/mqtt_client.cpp:246-275 | the loop of reads: the size of the first whole frame, or the reason there is none (malformed, nothing more to read, or the deadline passed with all that had arrived read or more than a CONNACK), with the bounds on reads and time |
| MqttClient.Client.AcceptConnack | pico_mqtt/src/mqtt_client.cpp:273-313 | connects if and only if the first frame is a CONNACK with return code 0 |
| MqttClient.Client.ReadConnack | pico_mqtt/src/mqtt_client.cpp:277-305 | succeeds exactly on an accepting CONNACK: 0x20, length 2, flag 0 or 1, return code 0 |
| MqttClient.Client.ReadChunk | pico_mqtt/src/mqtt_client.cpp:395-406 | all that has arrived or a buffer full is appended to the buffer and nothing else is, with the time of the read; an error only when nothing more can be read |
| MqttClient.Client.Publish | pico_mqtt/src/mqtt_client.cpp:326-347 | one whole PUBLISH with these fields, its bytes written out, and the time of sending; or nothing at all when it is not encodable or not connected, or the session ends with it cut short and on file |
| MqttClient.Client.Subscribe | pico_mqtt/src/mqtt_client.cpp:356-384 | one whole SUBSCRIBE under the next identifier, which the encoder never rejects, its bytes written out from 0x82 on, with the time of sending; or the session ends with it cut short and on file |
| MqttClient.Client.Poll | pico_mqtt/src/mqtt_client.cpp:386-458 | all that has arrived, or 256 bytes, read and processed as the stream function says; 0xC0 0 sent and the time fields moved only by a PINGREQ or a read; after success the last send is less than 500,000 us times keep alive old, or with a ping outstanding the last receive less than 1,500,000 us times keep alive; on an error one more session on file, and the cause: the bytes, nothing more to read, a PINGREQ that could not be sent, or a ping outstanding for too long |
| MqttClient.Client.Receive | pico_mqtt/src/mqtt_client.cpp:395-413 | the first half of a poll: one read and the frames it completes, or the session on file |
| MqttClient.Client.KeepAlive | pico_mqtt/src/mqtt_client.cpp:415-457 | pings only when idle for half the interval and none is outstanding, and changes nothing else; afterwards the send is recent or a ping is outstanding and the receive is recent; a timeout is reported only with a ping outstanding and one and a half intervals after the last receive |
| MqttClient.Client.PingWhenIdle | pico_mqtt/src/mqtt_client.cpp:417-441 | sends a PINGREQ exactly when none is outstanding and half the interval has passed since the last send, and then records the time |
| MqttClient.Client.GiveUpWhenSilent | pico_mqtt/src/mqtt_client.cpp:443-456 | the session ends, as it stands, exactly when a ping is outstanding and nothing was received for one and a half intervals |
| MqttClient.Client.KeptAliveMeans | pico_mqtt/src/mqtt_client.cpp:415-457 | after a successful poll: the last packet of the session is less than 500,000 us times keep alive old, or a PINGREQ is unanswered and connecting or the last byte read is less than 1,500,000 us times keep alive old |
| MqttClient.Client.NextMessage | pico_mqtt/src/mqtt_client.cpp:465-476 | the oldest queued message and no other, or an error when there is none |
| MqttClient.Client.Disconnect | pico_mqtt/src/mqtt_client.cpp:478-496 | disconnected in every case with one more session on file: ended by one whole DISCONNECT, 0xE0 0, or with it cut short because the connection ended or refused the write |
| MqttClient.Client.DeliveredInOrder | pico_mqtt/src/mqtt_client.cpp:402-413 | handled frames ++ client buffer ++ connection buffer are the bytes arrived; messages returned ++ queued are the PUBLISH messages of the handled frames |
| MqttClient.Client.BrokerToApplication | pico_mqtt/src/mqtt_client.cpp:465-476 | when the broker sends an accepting CONNACK and encoded messages, then at every point of the stream, also inside a packet, the application has the PUBLISH messages of a first part of them; with no whole frame waiting, or a second frame handled, the next message has not been read in full, and all are handed over once everything was read |
| MqttClient.Client.EverySessionDisciplined | pico_mqtt/src/mqtt_client.cpp:214-496 | every finished connection followed the session rules and the pace of the pings, its bytes decode to whole packets and at most one part of a packet, the last thing written; the frames it handled are the first that the bytes read decode to, and the messages handed out a prefix of their PUBLISH messages; every connection dialed and not held is among them |
| MqttClient.Client.WrittenInOrder | pico_mqtt/src/mqtt_client.cpp:122-153 | while connected the bytes written decode to whole packets only, and the ping flag says whether a PINGREQ is unanswered |
| DhcpLeases.ExpiryExact | pico_net/src/dhcp_server.cpp:172-173 | a lease granted at t reads as expired at t' exactly in the half circle after its rounded end |
| DhcpLeases.NeverExpiredEarly | pico_net/src/dhcp_server.cpp:324 | never expired within 86,400,000 ms of the grant |
| DhcpLeases.ExpiredAfterwards | pico_net/src/dhcp_server.cpp:172-173 | expired from 65,536 ms after that until 2^31 ms past the rounded end |
| DhcpLeases.ForgottenLeaseLooksFresh | pico_net/src/dhcp_server.cpp:172-173 | and not for the 2^31 ms after that, with a concrete time |
| DhcpLeases.ScanAllocates | pico_net/src/dhcp_server.cpp:152-182 | the client's slot, else the lowest free or expired one, cleared, else none; at most that slot changes, and only if expired |
| DhcpLeases.ScanKeeps | pico_net/src/dhcp_server.cpp:156-179 | a scan leaves every unexpired lease as it is |
| DhcpLeases.ScanSkips | pico_net/src/dhcp_server.cpp:156-179 | a scan does not hand out the slot of another client's unexpired lease |
| DhcpLeases.SlotOfAddress | pico_net/src/dhcp_server.cpp:301-306 | the slots are exactly the last bytes 16 to 47, in order |
| DhcpLeases.DiscoverIsOffered | pico_net/src/dhcp_server.cpp:270-284 | a DHCPDISCOVER is offered the client's slot, else the lowest free or expired one, and silence only when there is none |
| DhcpLeases.DiscoverIsServed | pico_net/src/dhcp_server.cpp:270-284 | it is offered one as long as a slot is the client's, free, or leased 86,465,536 ms ago or more, up to 2^31 ms after the lease time |
| DhcpLeases.ClaimIsAnswered | pico_net/src/dhcp_server.cpp:286-334 | a DHCPREQUEST is acknowledged exactly for an address of the server's network that ends in 16 to 47 and is free or the client's, which the client then holds |
| DhcpLeases.HeldThroughTurn | pico_net/src/dhcp_server.cpp:270-334 | within the lease time a request can only renew a lease |
| DhcpLeases.GrantIsExclusive | pico_net/src/dhcp_server.cpp:286-329 | after a grant to a non-zero MAC no other client is granted or offered the address until more than 86,400,000 ms later, in every run |
| DhcpLeases.OfferStands | pico_net/src/dhcp_server.cpp:152-182 | an offered slot stays free or the client's own until another client is granted it, in every run |
| DhcpLeases.OfferIsHonoured | pico_net/src/dhcp_server.cpp:286-329 | a DHCPREQUEST for the address offered, the server's network with last byte 16 plus the slot, is acknowledged unless another client was granted the address in between, and exactly when the slot is free or the client's |
| DhcpLeases.ZeroMacIsNotExclusive | pico_net/src/dhcp_server.cpp:308-317 | an address granted to the zero MAC can be granted to any client at once |
| DhcpServer.FindPrinted | pico_net/src/dhcp_server.cpp:101-129 | walking written options, with padding anywhere, finds the first with the code, and its data, exactly when there is one |
| DhcpServer.FindOption | pico_net/src/dhcp_server.cpp:101-120 | the position of the first option with the code before the end mark |
| DhcpServer.WriteOptionN | pico_net/src/dhcp_server.cpp:122-129 | code, length and data at the write position, which moves past them |
| DhcpServer.WriteOptionU8 | pico_net/src/dhcp_server.cpp:131-138 | the same for one byte |
| DhcpServer.WriteOptionU32 | pico_net/src/dhcp_server.cpp:140-150 | the same for a big-endian 32-bit value |
| DhcpServer.ReplyPromisesLease | pico_net/src/dhcp_server.cpp:336-341 | a client walking the reply finds its message type and a lease time equal to the time of exclusivity |
| DhcpServer.DecodePrinted | pico_net/src/dhcp_server.cpp:263-294 | of printed options, option 53 and 50 decide whether the request is a DISCOVER (1), a REQUEST (3) for that address, or none |
| DhcpServer.ReplyIs | pico_net/src/dhcp_server.cpp:336-341 | the options of a reply byte by byte: 53, 54, 1, 3, 6, 51 with 86,400 seconds, and the end mark |
| DhcpServer.Server.constructor | pico_net/include/dhcp_server.hpp:57-83 | all slots free |
| DhcpServer.Server.FindOrAllocateLease | pico_net/src/dhcp_server.cpp:152-182 | the array becomes and the slot is what the specified scan gives for clock readings that never go back |
| DhcpServer.Server.Grant | pico_net/src/dhcp_server.cpp:286-329 | the specified transition of a DHCPREQUEST |
| DhcpServer.Server.Serve | pico_net/src/dhcp_server.cpp:257-341 | the specified step of the table for the decoded request, with the reply for its outcome written over the options, and silence otherwise |
| DhcpServer.Server.HandleRequest | pico_net/src/dhcp_server.cpp:229-347 | the array stays the end of a run of the specification from the empty table, with clock readings made during the call, so exclusivity holds of every grant made; the reply is the answer of the run to this request, with type 2 or 5 and the last byte 16 plus the slot |
| DhcpServer.Server.HandshakeCompletes | pico_net/src/dhcp_server.cpp:270-334 | an address in a DHCPOFFER the server sent is acknowledged, as the same address, when that client asks for it, unless another client was sent a DHCPACK for it in between |
| DhcpServer.Server.AddressIsExclusive | pico_net/src/dhcp_server.cpp:286-334 | after a DHCPACK for an address to a non-zero MAC no other client is sent that address until more than 86,400,000 ms later |
| UdpPeers.PeerKeyInjective | pico_net/src/udp_listener.cpp:185-188 | two addresses have the same key exactly when address and port are the same |
| UdpPeers.FromPeerMeans | pico_net/src/udp_listener.cpp:66-85 | the datagrams of a peer are those with its address and port, each as often as it arrived |
| UdpListener.UdpConnection.EnqueueDatagram | pico_net/src/udp_connection.cpp:70-78 | at the end of the queue, and not at all when closed |
| UdpListener.UdpConnection.ReadNonblocking | pico_net/src/udp_connection.cpp:126-164 | polls the network, then takes the oldest datagram whole and copies what fits; takes nothing exactly on an error, for size 0, or when none is queued; keeps the listener's invariant |
| UdpListener.UdpConnection.Close | pico_net/src/udp_connection.cpp:233-263 | leaves the listener's map without its own key and the invariant intact; a second close does not touch the map |
| UdpListener.UdpListener.RemoveConnection | pico_net/src/udp_listener.cpp:88-92 | the map without that peer's key |
| UdpListener.UdpListener.HandleUdpRecv | pico_net/src/udp_listener.cpp:37-86 | a datagram goes to the open connection with its address and port and to no other, or, when there is none, begins the queue of one new pending connection with that peer; the invariant is kept |
| UdpListener.UdpListener.AcceptNonblocking | pico_net/src/udp_listener.cpp:152-177 | polls the network, then hands out the oldest pending connection, still live and no longer pending, or nothing when there is none |
| UdpListener.UdpListener.PollNetwork | pico_net/src/udp_listener.cpp:164-166 | any datagrams from anywhere: queues only grow and the invariant is kept |
| UdpListener.UdpListener.Close | pico_net/src/udp_listener.cpp:114-145 | pending connections closed, map and queue empty, accepted connections untouched |
| UdpListener.UdpListener.OneLiveConnectionPerPeer | pico_net/src/udp_listener.cpp:71-85 | keys are exactly those of the unclosed connections, one for each address and port, each with exactly the datagrams from there since it was made |

## Left out

- `pico_net/src/network.cpp`: Wi-Fi, access point, dialing and the lwIP and cyw43 calls are foreign; dialing is a method that hands out a fresh connection or fails.
- Buffer and control block lifetime, locking, `tcp_abort` and `sleep` durations beyond "at least": not expressible on values.
- Blocking `read` and `accept` loops and deadlines: waiting on the wall clock around the non-blocking calls that are modelled.
- `TcpListener` and the DNS server: the first queues accepted connections and hands them out in order, the second reads the name of one question and answers it from a table of hosts.
- DHCP fields outside the options area, interface selection, sending, and starting or stopping the server: not part of the lease argument; a message is its hardware address and its options.
- DhcpServer.FindOption: requires that no option is passed over whose length byte lies behind the 308-byte area: the source reads that byte when the walk comes to position 307 at a byte that is neither 0, the end mark nor the code. A length that runs past the area just ends the walk, as in the source.
- DhcpServer.Server.Serve: requires that of its two walks, that a message type option has a data byte, and that the requested address option of a DHCPREQUEST has four, because the source reads them without looking at the length.
- DhcpServer.Server.HandleRequest: requires the same.
- MqttClient.Client.Connect: callbacks of the network run when the connection is read or written, not between other steps; the timing of callbacks is otherwise arbitrary.
- MqttClient.Client.Poll: bounds the ages of the last send and receive at the poll; it makes no claim that a dead peer is noticed, since the code pings only when its own side is idle.
- UTF-8 validity, topic wildcards and QoS 1 and 2 flows: the code treats strings as bytes and the client refuses incoming QoS above 0.
- UDP connections that own their socket: only the listener's side is modelled.
- Error texts: one datatype, one constructor for each kind of error.
