/**
 When the events of a session happened: the last send, the pace of the pings, and how much of
 what has arrived a number of polls has read.
 */
module MqttTiming {
  import opened Basics
  import opened MqttSession

  /** Readings of one clock, in the order they were made, none of them later than `now`. */
  ghost predicate Ascending(times: seq<nat>, now: nat) {
    && (forall i, j :: 0 <= i <= j < |times| ==> times[i] <= times[j])
    && forall i :: 0 <= i < |times| ==> times[i] <= now
  }

  lemma AscendingOn(times: seq<nat>, now: nat, later: nat)
    requires Ascending(times, now) && now <= later
    ensures Ascending(times, later) && Ascending(times + [later], later)
  {
  }

  /** The position of the last packet sent since the CONNACK at position 1, or of the CONNACK. */
  function LastSend(trace: seq<Event>): (k: nat)
    requires |trace| >= 2
    ensures 1 <= k < |trace| && (k > 1 ==> trace[k].Sent?)
    ensures forall j :: k < j < |trace| ==> !trace[j].Sent?
  {
    if |trace| == 2 || trace[|trace| - 1].Sent? then |trace| - 1 else LastSend(trace[..|trace| - 1])
  }

  lemma LastSendSnoc(trace: seq<Event>, e: Event)
    requires |trace| >= 2
    ensures LastSend(trace + [e]) == if e.Sent? then |trace| else LastSend(trace)
  {
    assert (trace + [e])[..|trace|] == trace;
  }

  /**
   The pace of a session: its events have times, in order, and each PINGREQ comes at least half the
   keep-alive interval after the packet sent before it, or after connecting.
   */
  ghost predicate Paced(trace: seq<Event>, times: seq<nat>, keepAlive: u16) {
    && |times| == |trace|
    && (forall i, j :: 0 <= i <= j < |times| ==> times[i] <= times[j])
    && forall k :: 2 <= k < |trace| && IsPing(trace[k]) ==> PingIsDue(trace, times, keepAlive, k)
  }

  /** At position `k`, half the interval has passed since the last send. */
  ghost predicate PingIsDue(trace: seq<Event>, times: seq<nat>, keepAlive: u16, k: nat)
    requires |times| == |trace| && 2 <= k < |trace|
  {
    times[k] - times[LastSend(trace[..k])] >= 500_000 * keepAlive
  }

  lemma PacedSnoc(trace: seq<Event>, times: seq<nat>, keepAlive: u16, e: Event, now: nat)
    requires Paced(trace, times, keepAlive) && Ascending(times, now)
    requires |trace| >= 2 && IsPing(e) ==> now - times[LastSend(trace)] >= 500_000 * keepAlive
    ensures Paced(trace + [e], times + [now], keepAlive)
  {
    hide LastSend, IsPing;
    var trace', times' := trace + [e], times + [now];
    forall k | 2 <= k < |trace'| && IsPing(trace'[k]) ensures PingIsDue(trace', times', keepAlive, k) {
      if k < |trace| {
        assert trace'[..k] == trace[..k] && PingIsDue(trace, times, keepAlive, k);
      } else {
        assert trace'[..k] == trace;
      }
    }
  }

  // ----- reading what has arrived -------------------------------------------------------

  /** How many bytes have arrived on a connection, and how many of them were read. */
  datatype Progress = Progress(arrived: nat, read: nat)

  /** What an operation of the client does to the counts; a poll reads all there was, or a buffer full. */
  ghost predicate Advances(before: Progress, polled: bool, after: Progress) {
    && before.arrived <= after.arrived && before.read <= after.read
    && (polled ==> after.read >= before.arrived || after.read >= before.read + 256)
  }

  function Polls(polled: seq<bool>): nat {
    if polled == [] then 0 else Polls(polled[..|polled| - 1]) + if polled[|polled| - 1] then 1 else 0
  }

  /**
   Draining: over any operations, what had arrived at the start has been read once there were enough
   polls among them to read it a buffer at a time.
   */
  lemma {:induction false} PollsDrain(counts: seq<Progress>, polled: seq<bool>)
    requires |counts| == |polled| + 1
    requires forall k :: 0 <= k < |polled| ==> Advances(counts[k], polled[k], counts[k + 1])
    ensures var last := counts[|polled|];
            && counts[0].arrived <= last.arrived
            && (last.read >= counts[0].arrived || last.read >= counts[0].read + 256 * Polls(polled))
    decreases |polled|
  {
    if polled != [] {
      var n := |polled| - 1;
      PollsDrain(counts[..n + 1], polled[..n]);
      assert Advances(counts[n], polled[n], counts[n + 1]);
    }
  }
}
