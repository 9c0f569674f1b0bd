/**
 What the MQTT client stands on: a clock that never goes back and the TCP byte buffer. The
 network is an environment that may do anything its callbacks allow at each call.
 */
module Transport {
  import opened Basics

  class Clock {
    var now: nat   // microseconds since boot, at the latest reading

    constructor ()
      ensures now == 0
    {
      now := 0;
    }

    method GetAbsoluteTime() returns (t: nat)
      modifies this
      ensures old(now) <= now == t
    {
      t :| now <= t;
      now := t;
    }

    method SleepMs(ms: nat)
      modifies this
      ensures now >= old(now) + 1000 * ms
    {
      var later: nat :| now + 1000 * ms <= later;
      now := later;
    }
  }

  class TcpConnection {
    var attached: bool      // `pcb` is not null
    var rxBuffer: seq<byte>
    var isClosed: bool
    var hasError: bool

    ghost var arrived: seq<byte>     // every byte the network has handed over
    ghost var delivered: seq<byte>   // every byte a reader has taken
    ghost var written: seq<byte>     // every byte the network has accepted for sending
    ghost var ended: bool            // a callback has reported the peer's end or an error
    ghost var refused: bool          // the network has failed a write, or had no room for one
    ghost var shut: bool             // `Close` was called

    /**
     Nothing that arrived is lost, repeated or reordered on its way to the reader, and the
     connection is over only when one side has ended it.
     */
    ghost predicate Valid()
      reads this
    {
      delivered + rxBuffer == arrived && (isClosed || !attached ==> ended || shut)
    }

    /** Still in use by its owner, who gives up a connection that has refused a write. */
    ghost predicate Held()
      reads this
    {
      !shut && !refused
    }

    /** The network has said that nothing more will come, and what came was read or is spoilt by an error. */
    ghost predicate Dry()
      reads this
    {
      hasError || (rxBuffer == [] && ended)
    }

    /** After its owner has closed it. */
    ghost predicate Dropped()
      reads this
    {
      isClosed && !attached && shut
    }

    constructor ()
      ensures Valid() && delivered == [] && written == [] && arrived == []
      ensures attached && !isClosed && !hasError && rxBuffer == [] && Held() && !ended
    {
      attached, isClosed, hasError, rxBuffer := true, false, false, [];
      arrived, delivered, written := [], [], [];
      ended, refused, shut := false, false, false;
    }

    /** A null segment is the peer's FIN. */
    method HandleTcpRecv(segment: Option<seq<byte>>, ok: bool)
      requires Valid()
      modifies `arrived, `rxBuffer, `isClosed, `attached, `hasError, `ended
      ensures Valid() && ended == (old(ended) || segment.None?)
      ensures arrived == old(arrived) + if segment.Some? && ok then segment.value else []
      ensures isClosed == (old(isClosed) || segment.None?) && attached == (old(attached) && segment.Some?)
      ensures hasError == (old(hasError) || (segment.Some? && !ok))
    {
      if segment.None? {
        isClosed := true;
        attached := false;
        ended := true;
        return;
      }
      if !ok {
        hasError := true;
        return;
      }
      Assoc(delivered, rxBuffer, segment.value);
      rxBuffer := rxBuffer + segment.value;
      arrived := arrived + segment.value;
    }

    method HandleTcpErr()
      requires Valid()
      modifies `isClosed, `attached, `hasError, `ended
      ensures Valid() && hasError && isClosed && !attached && ended
    {
      attached := false;
      hasError := true;
      isClosed := true;
      ended := true;
    }

    /** Polling the network stack: any number of callbacks, in any order. */
    method PollNetwork()
      requires Valid()
      modifies `arrived, `rxBuffer, `isClosed, `attached, `hasError, `ended
      ensures Valid() && old(arrived) <= arrived && (old(ended) ==> ended)
    {
      var callbacks: nat :| 0 <= callbacks;
      while callbacks > 0
        invariant Valid() && old(arrived) <= arrived && (old(ended) ==> ended)
      {
        var fails: bool := *;
        if fails {
          HandleTcpErr();
        } else {
          var segment: Option<seq<byte>> := *;
          var ok: bool := *;
          HandleTcpRecv(segment, ok);
        }
        callbacks := callbacks - 1;
      }
    }

    /** Takes up to `size` bytes from the front of the receive buffer. */
    method ReadNonblocking(buffer: array?<byte>, size: nat) returns (n: nat, err: Option<Error>)
      requires Valid() && (buffer != null ==> size <= buffer.Length)
      modifies `arrived, `delivered, `rxBuffer, `isClosed, `attached, `hasError, `ended, buffer
      ensures Valid() && old(arrived) <= arrived
      ensures n <= size && (n > 0 ==> buffer != null && err.None?)
      ensures delivered == old(delivered) + if n > 0 then buffer[..n] else []
      ensures n == 0 && err.None? ==> size == 0 || rxBuffer == []
      ensures err.Some? <==> buffer == null || (size > 0 && (hasError || (n == 0 && rxBuffer == [] && (isClosed || !attached))))
      ensures err.Some? ==> err.value in {NullBuffer, Closed, Transport} && (err.value == NullBuffer <==> buffer == null)
      ensures n > 0 ==> n == if size <= |rxBuffer| + n then size else |rxBuffer| + n
    {
      if buffer == null {
        return 0, Some(NullBuffer);
      }
      if size == 0 {
        return 0, None;
      }
      PollNetwork();
      if hasError {
        return 0, Some(Transport);
      }
      if rxBuffer == [] {
        if isClosed {
          return 0, Some(Closed);
        }
        if !attached {
          return 0, Some(Closed);
        }
        return 0, None;
      }
      n := if size < |rxBuffer| then size else |rxBuffer|;
      ghost var before := rxBuffer;
      forall i | 0 <= i < n {
        buffer[i] := rxBuffer[i];
      }
      assert buffer[..n] == before[..n] && before == before[..n] + before[n..];
      rxBuffer := rxBuffer[n..];
      Assoc(delivered, before[..n], before[n..]);
      delivered := delivered + buffer[..n];
      err := None;
    }

    /**
     Hands a prefix of `data` to the network. When sending fails after the network has taken the
     bytes, an error is returned although they may still go out: `accepted` counts them. Callbacks
     may have run since the last call.
     */
    method Write(data: seq<byte>) returns (n: nat, err: Option<Error>, ghost accepted: nat)
      requires Valid()
      modifies `arrived, `written, `rxBuffer, `isClosed, `attached, `hasError, `ended, `refused
      ensures Valid() && old(arrived) <= arrived
      ensures if err.Some? || (n == 0 && data != []) then ended || refused || shut else refused == old(refused)
      ensures accepted <= |data| && written == old(written) + data[..accepted]
      ensures err.None? ==> n == accepted
      ensures err.Some? ==> n == 0 && (err.value == Closed || err.value == Transport)
    {
      accepted := 0;
      PollNetwork();
      if !attached || isClosed {
        return 0, Some(Closed), 0;
      }
      if |data| == 0 {
        return 0, None, 0;
      }
      var available: nat :| 0 <= available;
      var toWrite := if available < |data| then available else |data|;
      if toWrite == 0 {
        refused := true;
        return 0, None, 0;
      }
      var writeOk: bool := *;
      var outputOk: bool := *;
      if writeOk {
        accepted := toWrite;
        written := written + data[..toWrite];
      }
      if !writeOk || !outputOk {
        refused := true;
        return 0, Some(Transport), accepted;
      }
      return toWrite, None, accepted;
    }

    method Close() returns (err: Option<Error>)
      requires Valid()
      modifies `attached, `isClosed, `shut
      ensures Valid() && Dropped()
    {
      shut := true;
      if !attached {
        isClosed := true;
        return None;
      }
      var ok: bool := *;
      attached := false;
      isClosed := true;
      return if ok then None else Some(Transport);
    }
  }
}
