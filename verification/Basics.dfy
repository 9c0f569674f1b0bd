/** Bytes, machine integers, results and byte-string lemmas shared by every module. */
module Basics {
  type byte = b: int | 0 <= b < 256
  type u16 = n: int | 0 <= n < 65536
  type u32 = n: int | 0 <= n < 0x1_0000_0000

  datatype Option<+T> = None | Some(value: T)

  /** The reasons for which an operation of the toolkit reports an error. */
  datatype Error =
    | TooShort                 // fewer bytes than a fixed-size part needs
    | BadType                  // control packet type 0 or 15, or not the expected one
    | BadFlags                 // reserved fixed header flags not as required
    | LengthTruncated          // remaining length runs past the data
    | LengthTooLong            // remaining length longer than four bytes
    | Incomplete               // body shorter than the remaining length
    | BadBodySize              // body of a fixed-size packet has another size
    | BadString                // string or binary runs past the body
    | BadProtocol              // protocol name or level
    | BadConnectFlags
    | BadClientId              // empty client id without a clean session
    | BadQos
    | BadPacketId
    | BadReturnCode
    | BadAckFlags
    | EmptyTopic
    | EmptyList
    | Trailing                 // bytes after the end of the packet
    | BadCredentials           // password without username
    | TooLarge                 // body over 268,435,455 bytes
    | UnsupportedQos           // the client handles QoS 0 only
    | SubscriptionRejected
    | NotConnected
    | AlreadyConnected
    | ConnectRejected
    | UnexpectedPacket
    | Timeout
    | NoMessage
    | NotWritten
    | Transport                // the connection below reported an error
    | Closed
    | NullBuffer

  datatype Result<+T> = Ok(value: T) | Err(error: Error)
  {
    predicate IsFailure() { Err? }

    function PropagateFailure<U>(): Result<U>
      requires Err?
    {
      Err(error)
    }

    function Extract(): T
      requires Ok?
    {
      value
    }
  }

  lemma Assoc<T>(a: seq<T>, b: seq<T>, c: seq<T>)
    ensures a + b + c == a + (b + c)
  {
  }

  /** All pieces of `parts`, one after the other. */
  function Flatten(parts: seq<seq<byte>>): seq<byte> {
    if parts == [] then [] else parts[0] + Flatten(parts[1..])
  }

  lemma {:induction false} FlattenConcat(a: seq<seq<byte>>, b: seq<seq<byte>>)
    ensures Flatten(a + b) == Flatten(a) + Flatten(b)
  {
    if a == [] {
      assert a + b == b;
    } else {
      assert (a + b)[0] == a[0] && (a + b)[1..] == a[1..] + b;
      FlattenConcat(a[1..], b);
      assert a[0] + (Flatten(a[1..]) + Flatten(b)) == (a[0] + Flatten(a[1..])) + Flatten(b);
    }
  }

  lemma FlattenOne(part: seq<byte>)
    ensures Flatten([part]) == part
  {
    assert [part][1..] == [];
    assert Flatten([part]) == part + [];
  }

  lemma FlattenSnoc(parts: seq<seq<byte>>, part: seq<byte>)
    ensures Flatten(parts + [part]) == Flatten(parts) + part
  {
    FlattenConcat(parts, [part]);
    FlattenOne(part);
  }
}
