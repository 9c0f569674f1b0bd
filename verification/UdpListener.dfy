/**
 UdpListener and UdpConnection: one socket shared by many logical connections, a map from peers
 to live connections, a queue of connections not yet accepted that aliases the same objects,
 and the way back from closing a connection to the listener's map.
 */
module UdpListener {
  import opened Basics
  import opened UdpPeers

  class UdpConnection {
    const remoteAddr: Address
    const ownsPcb: bool
    var attached: bool                 // `pcb` is not null
    var listenerOwner: UdpListener?
    var rxQueue: seq<Datagram>
    var isClosed: bool
    var hasError: bool

    ghost const born: nat              // how many datagrams the listener had seen before
    ghost var taken: seq<Datagram>     // datagrams dequeued by reads

    constructor (remoteAddr: Address, ownsPcb: bool, listenerOwner: UdpListener?, ghost born: nat)
      ensures this.remoteAddr == remoteAddr && this.ownsPcb == ownsPcb && this.listenerOwner == listenerOwner
      ensures attached && !isClosed && !hasError && rxQueue == [] && taken == [] && this.born == born
    {
      this.remoteAddr, this.ownsPcb, this.listenerOwner := remoteAddr, ownsPcb, listenerOwner;
      attached, isClosed, hasError, rxQueue := true, false, false, [];
      this.born, taken := born, [];
    }

    method EnqueueDatagram(datagram: Datagram)
      modifies `rxQueue
      ensures rxQueue == old(rxQueue) + if isClosed then [] else [datagram]
    {
      if isClosed {
        return;
      }
      rxQueue := rxQueue + [datagram];
    }

    /** Open, with the peer's datagrams since its creation split between reads and the queue. */
    ghost predicate Live(listener: UdpListener)
      reads this, listener`arrivals
    {
      && attached && !isClosed && !ownsPcb && listenerOwner == listener && born <= |listener.arrivals|
      && taken + rxQueue == FromPeer(listener.arrivals[born..], remoteAddr)
    }

    ghost predicate Dead()
      reads this
    {
      isClosed && !attached && listenerOwner == null && rxQueue == []
    }

    ghost function Owner(): set<UdpListener>
      reads this
    {
      if listenerOwner == null then {} else {listenerOwner}
    }

    /** The connections that share the listener's socket. */
    ghost function Siblings(): set<UdpConnection>
      reads this, Owner()
    {
      if listenerOwner == null then {} else listenerOwner.created
    }

    /**
     Takes one datagram; what does not fit the buffer is dropped with it. The network is polled
     first, so more may have arrived: `queue` is what there is to take from.
     */
    method ReadNonblocking(buffer: array?<byte>, size: nat) returns (n: nat, err: Option<Error>, ghost queue: seq<Datagram>)
      requires buffer != null ==> size <= buffer.Length
      requires listenerOwner != null ==> listenerOwner.Valid() && this in listenerOwner.created
      modifies `rxQueue, `taken, buffer, Siblings()`rxQueue
      modifies Owner()`arrivals, Owner()`activeConnections, Owner()`pendingConnections, Owner()`created
      ensures listenerOwner != null ==> listenerOwner.Valid() && this in listenerOwner.created
      ensures old(rxQueue) <= queue
      ensures err.Some? <==> buffer == null || (size > 0 && (hasError || isClosed || !attached))
      ensures if err.Some? || size == 0 || queue == [] then n == 0 && rxQueue == queue && taken == old(taken)
              else Took(buffer, size, n, queue, old(taken))
    {
      queue := rxQueue;
      if buffer == null {
        return 0, Some(NullBuffer), queue;
      }
      if size == 0 {
        return 0, None, queue;
      }
      if listenerOwner != null {
        listenerOwner.PollNetwork();
      }
      queue := rxQueue;
      if hasError {
        return 0, Some(Transport), queue;
      }
      if isClosed || !attached {
        return 0, Some(Closed), queue;
      }
      if rxQueue == [] {
        return 0, None, queue;
      }
      n := TakeFirst(buffer, size);
      err := None;
    }

    /** The first datagram of `queue` was taken, and as much of it as fits is in the buffer. */
    ghost predicate Took(buffer: array<byte>, size: nat, n: nat, queue: seq<Datagram>, before: seq<Datagram>)
      reads this, buffer
    {
      && queue != [] && rxQueue == queue[1..] && taken == before + [queue[0]]
      && n == (if size < |queue[0].data| then size else |queue[0].data|)
      && n <= buffer.Length && buffer[..n] == queue[0].data[..n]
    }

    method TakeFirst(buffer: array<byte>, size: nat) returns (n: nat)
      requires size <= buffer.Length && rxQueue != []
      requires listenerOwner != null ==> listenerOwner.Valid() && this in listenerOwner.created
      modifies `rxQueue, `taken, buffer
      ensures listenerOwner != null ==> listenerOwner.Valid()
      ensures Took(buffer, size, n, old(rxQueue), old(taken))
    {
      hide FromPeer, MakePeerKey;
      var d := rxQueue[0];
      assert rxQueue == [d] + rxQueue[1..];
      Assoc(taken, [d], rxQueue[1..]);
      rxQueue := rxQueue[1..];
      taken := taken + [d];
      n := if size < |d.data| then size else |d.data|;
      forall i | 0 <= i < n {
        buffer[i] := d.data[i];
      }
      if listenerOwner != null {
        listenerOwner.TakenStaysValid(this);
      }
    }

    /** Closes the connection and takes it out of its listener's map; a second close does nothing. */
    method Close()
      requires listenerOwner != null ==> attached && !ownsPcb && listenerOwner.Filed() && this in listenerOwner.created
      modifies this, (if listenerOwner == null then {} else {listenerOwner})`activeConnections
      ensures isClosed && !attached && rxQueue == [] && taken == old(taken)
      ensures old(attached) && !ownsPcb ==> listenerOwner == null
      ensures var l := old(listenerOwner);
              l != null ==>
                && l.Filed() && l.activeConnections == old(l.activeConnections) - {MakePeerKey(remoteAddr)}
                && (old(l.Valid()) && this !in l.pendingConnections ==> l.Valid())
    {
      hide FromPeer, MakePeerKey, UdpListener.Filed, Live;
      ghost var listener := listenerOwner;
      if !attached {
        isClosed := true;
        rxQueue := [];
        return;
      }
      if !ownsPcb && listenerOwner != null {
        listenerOwner.RemoveConnection(remoteAddr);
        listenerOwner := null;
      }
      attached := false;
      isClosed := true;
      rxQueue := [];
      if listener != null {
        listener.ClosedStaysFiled(this);
      }
    }
  }

  class UdpListener {
    var attached: bool
    var isClosed: bool
    var hasError: bool
    var pendingConnections: seq<UdpConnection>
    var activeConnections: map<string, UdpConnection>

    ghost var created: set<UdpConnection>   // every connection this listener ever made
    ghost var arrivals: seq<Datagram>       // every datagram accepted while open

    /** Every connection is open with its peer's datagrams, or closed for good. */
    ghost predicate AllAccounted()
      reads `created, `arrivals, created
    {
      forall c :: c in created ==> c.Live(this) || c.Dead()
    }

    /** Every connection not yet closed is filed under its peer's key. */
    ghost predicate AllFiled()
      reads `created, `activeConnections, created
    {
      forall c :: c in created && !c.isClosed ==>
        MakePeerKey(c.remoteAddr) in activeConnections && activeConnections[MakePeerKey(c.remoteAddr)] == c
    }

    /** Every key is that of the connection filed under it, which is not closed. */
    ghost predicate AllKeysOwned()
      reads `created, `activeConnections, created
    {
      forall key :: key in activeConnections ==>
        && activeConnections[key] in created && !activeConnections[key].isClosed
        && MakePeerKey(activeConnections[key].remoteAddr) == key
    }

    /**
     While open, the map files exactly the connections not yet closed, each under its peer's key,
     and each live connection has exactly its peer's datagrams.
     */
    ghost predicate Filed()
      reads this, created
    {
      && (isClosed <==> !attached)
      && (forall c :: c in created ==> !c.ownsPcb)
      && (!isClosed ==> AllAccounted() && AllFiled() && AllKeysOwned())
      && (isClosed ==> activeConnections == map[])
    }

    /** Pending connections are distinct live connections. */
    ghost predicate Valid()
      reads this, created
    {
      && Filed()
      && (forall i :: 0 <= i < |pendingConnections| ==>
            pendingConnections[i] in created && !pendingConnections[i].isClosed)
      && (forall i, j :: 0 <= i < j < |pendingConnections| ==> pendingConnections[i] != pendingConnections[j])
      && (isClosed ==> pendingConnections == [])
    }

    constructor ()
      ensures Valid() && !isClosed && created == {} && arrivals == [] && activeConnections == map[]
    {
      attached, isClosed, hasError := true, false, false;
      pendingConnections, activeConnections := [], map[];
      created, arrivals := {}, [];
    }

    method RemoveConnection(remoteAddr: Address)
      modifies `activeConnections
      ensures activeConnections == old(activeConnections) - {MakePeerKey(remoteAddr)}
    {
      var key := MakePeerKey(remoteAddr);
      activeConnections := activeConnections - {key};
    }

    /** Polling the network stack: any number of datagrams, from anywhere. */
    method PollNetwork()
      requires Valid()
      modifies `arrivals, `activeConnections, `pendingConnections, `created, created`rxQueue
      ensures Valid() && old(created) <= created && old(arrivals) <= arrivals
      ensures old(pendingConnections) <= pendingConnections
      ensures forall c :: c in old(created) ==> old(c.rxQueue) <= c.rxQueue
    {
      hide Valid;
      var callbacks: nat :| 0 <= callbacks;
      while callbacks > 0
        invariant Valid() && old(created) <= created && old(arrivals) <= arrivals
        invariant old(pendingConnections) <= pendingConnections
        invariant forall c :: c in created ==> c in old(created) || fresh(c)
        invariant forall c :: c in old(created) ==> old(c.rxQueue) <= c.rxQueue
      {
        var data: Option<seq<byte>> := *;
        var source: Option<(string, u16)> := *;
        HandleUdpRecv(data, source);
        callbacks := callbacks - 1;
      }
    }

    /** Demultiplexes one datagram: to the peer's live connection, or to a new pending one. */
    method HandleUdpRecv(data: Option<seq<byte>>, source: Option<(string, u16)>)
      requires Valid()
      modifies `arrivals, `activeConnections, `pendingConnections, `created, created`rxQueue
      ensures Valid() && old(created) <= created && old(arrivals) <= arrivals
      ensures old(pendingConnections) <= pendingConnections
      ensures forall c :: c in created ==> c in old(created) || fresh(c)
      ensures forall c :: c in old(created) ==> old(c.rxQueue) <= c.rxQueue
      ensures isClosed || data.None? || source.None? ==>
                unchanged(this) && forall c :: c in old(created) ==> unchanged(c)
      ensures !isClosed && data.Some? && source.Some? ==>
                var from := Address("udp", source.value.0, source.value.1);
                && arrivals == old(arrivals) + [Datagram(data.value, from)]
                && Routed(old(activeConnections), old(pendingConnections), old(created), MakePeerKey(from))
                && Demultiplexed(Datagram(data.value, from))
    {
      hide FromPeer, MakePeerKey, Valid;
      if isClosed {
        return;
      }
      if data.None? {
        return;
      }
      if source.None? {
        return;
      }
      var remoteAddr := Address("udp", source.value.0, source.value.1);
      var datagram := Datagram(data.value, remoteAddr);
      var key := MakePeerKey(remoteAddr);
      if key in activeConnections {
        Deliver(key, datagram);
        ToOldPeer(datagram);
      } else {
        Open(key, datagram);
        ToNewPeer(datagram);
      }
    }

    /** `c` is open and its peer has the address and port of `d`. */
    predicate Serves(c: UdpConnection, d: Datagram)
      reads c
    {
      !c.isClosed && c.remoteAddr.ip == d.from.ip && c.remoteAddr.port == d.from.port
    }

    /**
     A datagram goes to the open connection with its address and port, and to no other; when there
     is none, to one new connection with that peer, which is the last one pending.
     */
    twostate predicate Demultiplexed(d: Datagram)
      reads this, created
    {
      && old(created) <= created
      && (forall c :: c in old(created) ==> if old(Serves(c, d)) then Queued(c, d) else Untouched(c))
      && if exists c :: c in old(created) && old(Serves(c, d)) then
           created == old(created) && pendingConnections == old(pendingConnections)
         else
           && |pendingConnections| == |old(pendingConnections)| + 1
           && var c := pendingConnections[|old(pendingConnections)|];
              && pendingConnections == old(pendingConnections) + [c]
              && c !in old(created) && created == old(created) + {c}
              && Serves(c, d) && c.remoteAddr == d.from && c.rxQueue == [d]
    }

    twostate lemma ToOldPeer(d: Datagram)
      requires old(Valid() && !isClosed) && MakePeerKey(d.from) in old(activeConnections)
      requires created == old(created) && pendingConnections == old(pendingConnections)
      requires var existing := old(activeConnections[MakePeerKey(d.from)]);
               Queued(existing, d) && forall c :: c in created && c != existing ==> Untouched(c)
      ensures Demultiplexed(d)
    {
      hide MakePeerKey;
      var existing := old(activeConnections[MakePeerKey(d.from)]);
      forall c | c in old(created) && old(!c.isClosed) ensures old(Serves(c, d)) <==> c == existing {
        PeerKeyInjective(d.from, c.remoteAddr);
      }
      assert old(Serves(existing, d));
    }

    twostate lemma ToNewPeer(d: Datagram)
      requires old(Valid() && !isClosed) && MakePeerKey(d.from) !in old(activeConnections)
      requires |pendingConnections| == |old(pendingConnections)| + 1
      requires var c := pendingConnections[|old(pendingConnections)|];
               && pendingConnections == old(pendingConnections) + [c] && c !in old(created)
               && created == old(created) + {c} && !c.isClosed && c.remoteAddr == d.from && c.rxQueue == [d]
      requires forall c :: c in old(created) ==> Untouched(c)
      ensures Demultiplexed(d)
    {
      hide MakePeerKey;
      forall c | c in old(created) ensures !old(Serves(c, d)) {
        PeerKeyInjective(d.from, c.remoteAddr);
      }
    }

    /** The map and the pending queue after a datagram whose peer has the key `key`. */
    ghost predicate Routed(active: map<string, UdpConnection>, pending: seq<UdpConnection>,
                           before: set<UdpConnection>, key: string)
      reads this
    {
      if key in active then
        activeConnections == active && pendingConnections == pending && created == before
      else
        && key in activeConnections && activeConnections == active[key := activeConnections[key]]
        && pendingConnections == pending + [activeConnections[key]]
        && activeConnections[key] !in before && created == before + {activeConnections[key]}
    }

    twostate predicate Untouched(c: UdpConnection)
      reads c
    {
      unchanged(c)
    }

    /** All that happened to `c` is that `d` joined its queue. */
    twostate predicate Queued(c: UdpConnection, d: Datagram)
      reads c
    {
      && c.attached == old(c.attached) && c.isClosed == old(c.isClosed) && c.listenerOwner == old(c.listenerOwner)
      && c.taken == old(c.taken) && c.rxQueue == old(c.rxQueue) + [d]
    }

    /** A connection of another peer, or a closed one, does not see a new arrival. */
    twostate lemma StaysAccounted(c: UdpConnection, new d: Datagram)
      requires old(c.Live(this) || c.Dead()) && Untouched(c) && arrivals == old(arrivals) + [d]
      requires old(c.Live(this)) ==> !SamePeer(d.from, c.remoteAddr)
      ensures c.Live(this) || c.Dead()
    {
      hide FromPeer;
      if old(c.Live(this)) {
        ArrivalsGrow(old(arrivals), d, c.born, c.remoteAddr);
      }
    }

    /** The peer's own connection has the new arrival at the end of its queue. */
    twostate lemma GrowsAccounted(c: UdpConnection, new d: Datagram)
      requires old(c.Live(this)) && arrivals == old(arrivals) + [d] && SamePeer(d.from, c.remoteAddr)
      requires Queued(c, d)
      ensures c.Live(this)
    {
      hide FromPeer;
      ArrivalsGrow(old(arrivals), d, c.born, c.remoteAddr);
      Assoc(c.taken, old(c.rxQueue), [d]);
    }

    /** Moving a datagram of one connection from its queue to the reads keeps the invariant. */
    twostate lemma TakenStaysValid(c: UdpConnection)
      requires old(Valid()) && c in old(created) && unchanged(this)
      requires forall c' :: c' in created && c' != c ==> unchanged(c')
      requires unchanged(c`attached, c`listenerOwner, c`isClosed, c`hasError)
      requires old(c.rxQueue) != [] && c.taken + c.rxQueue == old(c.taken + c.rxQueue)
      ensures Valid()
    {
      hide FromPeer, MakePeerKey;
    }

    /** A connection that closes and leaves the map keeps the rest filed. */
    twostate lemma ClosedStaysFiled(c: UdpConnection)
      requires old(Filed()) && c in old(created) && old(c.listenerOwner) != null && c.Dead()
      requires attached == old(attached) && isClosed == old(isClosed)
      requires created == old(created) && arrivals == old(arrivals)
      requires activeConnections == old(activeConnections) - {MakePeerKey(c.remoteAddr)}
      requires forall c' :: c' in created && c' != c ==> Untouched(c')
      ensures Filed()
    {
      hide FromPeer, MakePeerKey;
    }

    /** A datagram for a live connection joins its queue. */
    method Deliver(key: string, datagram: Datagram)
      requires Valid() && !isClosed && key == MakePeerKey(datagram.from) && key in activeConnections
      modifies `arrivals, created`rxQueue
      ensures Valid() && arrivals == old(arrivals) + [datagram]
      ensures var existing := old(activeConnections[key]);
              Queued(existing, datagram) && forall c :: c in created && c != existing ==> Untouched(c)
    {
      hide FromPeer, MakePeerKey;
      var existing := activeConnections[key];
      existing.EnqueueDatagram(datagram);
      arrivals := arrivals + [datagram];
      DeliverAccounted(key, datagram);
    }

    /** With the datagram in its peer's queue, every connection is accounted for. */
    twostate lemma DeliverAccounted(key: string, new d: Datagram)
      requires old(AllAccounted() && AllFiled() && AllKeysOwned()) && created == old(created)
      requires key == MakePeerKey(d.from) && key in old(activeConnections)
      requires arrivals == old(arrivals) + [d]
      requires var existing := old(activeConnections[key]);
               Queued(existing, d) && forall c :: c in created && c != existing ==> Untouched(c)
      ensures AllAccounted()
    {
      hide FromPeer, MakePeerKey, UdpConnection.Live;
      var existing := old(activeConnections[key]);
      LiveOpen(existing);
      PeerKeyInjective(d.from, existing.remoteAddr);
      GrowsAccounted(existing, d);
      forall c | c in old(created) && c != existing ensures c.Live(this) || c.Dead() {
        PeerKeyInjective(d.from, c.remoteAddr);
        LiveOpen(c);
        StaysAccounted(c, d);
      }
    }

    /** Only an open connection is live; this speaks of the state before. */
    twostate lemma LiveOpen(c: UdpConnection)
      ensures old(c.Live(this)) ==> !old(c.isClosed)
    {
    }

    /** A datagram from a new peer opens a pending connection that begins with it. */
    method Open(key: string, datagram: Datagram)
      requires Valid() && !isClosed && key == MakePeerKey(datagram.from) && key !in activeConnections
      modifies `arrivals, `activeConnections, `pendingConnections, `created
      ensures Valid() && arrivals == old(arrivals) + [datagram]
      ensures key in activeConnections && activeConnections == old(activeConnections)[key := activeConnections[key]]
      ensures pendingConnections == old(pendingConnections) + [activeConnections[key]]
      ensures fresh(activeConnections[key]) && created == old(created) + {activeConnections[key]}
      ensures var c := activeConnections[key]; !c.isClosed && c.remoteAddr == datagram.from && c.rxQueue == [datagram]
      ensures forall c :: c in old(created) ==> Untouched(c)
    {
      hide FromPeer, MakePeerKey, AllAccounted, AllFiled, AllKeysOwned;
      var conn := new UdpConnection(datagram.from, false, this, |arrivals|);
      conn.EnqueueDatagram(datagram);
      arrivals := arrivals + [datagram];
      activeConnections := activeConnections[key := conn];
      pendingConnections := pendingConnections + [conn];
      created := created + {conn};
      FirstArrival(old(arrivals), datagram);
      OpenAccounted(key, datagram, conn);
      OpenFiled(key, conn);
      OpenOwned(key, conn);
    }

    /** With the new connection, every connection is accounted for. */
    twostate lemma OpenAccounted(key: string, new d: Datagram, new conn: UdpConnection)
      requires old(AllAccounted() && AllFiled()) && key !in old(activeConnections) && key == MakePeerKey(d.from)
      requires created == old(created) + {conn} && arrivals == old(arrivals) + [d] && conn.Live(this)
      requires forall c :: c in old(created) ==> Untouched(c)
      ensures AllAccounted()
    {
      hide FromPeer, MakePeerKey, UdpConnection.Live;
      forall c | c in old(created) ensures c.Live(this) || c.Dead() {
        PeerKeyInjective(d.from, c.remoteAddr);
        LiveOpen(c);
        StaysAccounted(c, d);
      }
    }

    /** With the new connection, every open connection is filed. */
    twostate lemma OpenFiled(key: string, new conn: UdpConnection)
      requires old(AllFiled()) && key !in old(activeConnections) && key == MakePeerKey(conn.remoteAddr)
      requires created == old(created) + {conn} && activeConnections == old(activeConnections)[key := conn]
      requires forall c :: c in old(created) ==> Untouched(c)
      ensures AllFiled()
    {
      hide MakePeerKey;
    }

    /** With the new connection, every key is owned. */
    twostate lemma OpenOwned(key: string, new conn: UdpConnection)
      requires old(AllKeysOwned()) && key == MakePeerKey(conn.remoteAddr) && !conn.isClosed
      requires created == old(created) + {conn} && activeConnections == old(activeConnections)[key := conn]
      requires forall c :: c in old(created) ==> Untouched(c)
      ensures AllKeysOwned()
    {
      hide MakePeerKey;
    }

    static lemma FirstArrival(arrivals: seq<Datagram>, d: Datagram)
      ensures FromPeer((arrivals + [d])[|arrivals|..], d.from) == [d]
    {
      assert (arrivals + [d])[|arrivals|..] == [] + [d];
      FromPeerSnoc([], d, d.from);
    }

    /** One more arrival reaches the view of its own peer only. */
    static lemma ArrivalsGrow(arrivals: seq<Datagram>, d: Datagram, born: nat, peer: Address)
      requires born <= |arrivals|
      ensures FromPeer((arrivals + [d])[born..], peer)
           == FromPeer(arrivals[born..], peer) + if SamePeer(d.from, peer) then [d] else []
    {
      assert (arrivals + [d])[born..] == arrivals[born..] + [d];
      FromPeerSnoc(arrivals[born..], d, peer);
    }

    /**
     Hands out the oldest pending connection. The network is polled first, so more may be pending
     than before: `pending` is what there is to take from.
     */
    method AcceptNonblocking() returns (conn: UdpConnection?, err: Option<Error>, ghost pending: seq<UdpConnection>)
      requires Valid()
      modifies `arrivals, `activeConnections, `pendingConnections, `created, created`rxQueue
      ensures Valid() && old(created) <= created && old(pendingConnections) <= pending
      ensures isClosed || hasError ==> conn == null && err.Some? && unchanged(this)
      ensures !isClosed && !hasError ==>
                && err.None?
                && (if pending == [] then conn == null && pendingConnections == []
                    else conn == pending[0] && pendingConnections == pending[1..]
                         && conn.Live(this) && conn !in pendingConnections)
    {
      hide FromPeer, MakePeerKey, AllFiled, AllKeysOwned;
      pending := pendingConnections;
      if isClosed {
        return null, Some(Closed), pending;
      }
      if hasError {
        return null, Some(Transport), pending;
      }
      PollNetwork();
      pending := pendingConnections;
      if pendingConnections == [] {
        return null, None, pending;
      }
      conn := pendingConnections[0];
      pendingConnections := pendingConnections[1..];
      return conn, None, pending;
    }

    /** Closes the pending connections, forgets the rest, and stops receiving. */
    method Close()
      requires Valid()
      modifies this, created
      ensures Valid() && isClosed && !attached && created == old(created)
      ensures pendingConnections == [] && activeConnections == map[]
      ensures !old(isClosed) ==> forall c :: c in old(pendingConnections) ==> c.Dead()
      ensures forall c :: c in created && c !in old(pendingConnections) ==> unchanged(c)
    {
      hide FromPeer, MakePeerKey, UdpConnection.Live;
      if !attached {
        isClosed := true;
        return;
      }
      ClosePending();
      pendingConnections := [];
      activeConnections := map[];
      attached := false;
      isClosed := true;
    }

    method ClosePending()
      requires Valid() && !isClosed
      modifies `activeConnections, created
      ensures Filed() && created == old(created)
      ensures forall k :: 0 <= k < |pendingConnections| ==> pendingConnections[k].Dead()
      ensures forall c :: c in created && c !in pendingConnections ==> unchanged(c)
    {
      hide FromPeer, MakePeerKey, Filed;
      var i := 0;
      assert forall k :: 0 <= k < |pendingConnections| ==> pendingConnections[k].Live(this) by {
        PendingLive();
      }
      while i < |pendingConnections|
        invariant 0 <= i <= |pendingConnections|
        invariant Filed()
        invariant forall k :: 0 <= k < i ==> pendingConnections[k].Dead()
        invariant forall k :: i <= k < |pendingConnections| ==> pendingConnections[k].Live(this)
        invariant forall c :: c in created && c !in pendingConnections ==> unchanged(c)
      {
        pendingConnections[i].Close();
        i := i + 1;
      }
    }

    lemma PendingLive()
      requires Valid() && !isClosed
      ensures forall k :: 0 <= k < |pendingConnections| ==> pendingConnections[k].Live(this)
    {
      hide FromPeer, MakePeerKey;
    }

    /**
     The demultiplexer's invariant, spelled out: while the listener is open its keys are exactly
     those of its connections not yet closed, no two of which have the same address and port, and
     each of them has received exactly the datagrams from its address and port that arrived since it
     was made, each as often as it arrived.
     */
    lemma OneLiveConnectionPerPeer()
      requires Valid() && !isClosed
      ensures activeConnections.Keys == set c | c in created && !c.isClosed :: MakePeerKey(c.remoteAddr)
      ensures forall c, c' | c in created && c' in created && !c.isClosed && !c'.isClosed ::
                c.remoteAddr.ip == c'.remoteAddr.ip && c.remoteAddr.port == c'.remoteAddr.port ==> c == c'
      ensures forall c :: c in created && !c.isClosed ==>
                && c.taken + c.rxQueue == FromPeer(arrivals[c.born..], c.remoteAddr)
                && forall d :: multiset(c.taken + c.rxQueue)[d]
                       == if d.from.ip == c.remoteAddr.ip && d.from.port == c.remoteAddr.port
                          then multiset(arrivals[c.born..])[d] else 0
    {
      hide MakePeerKey, FromPeer;
      forall c, c' | c in created && c' in created && !c.isClosed && !c'.isClosed
                     && c.remoteAddr.ip == c'.remoteAddr.ip && c.remoteAddr.port == c'.remoteAddr.port
        ensures c == c'
      {
        PeerKeyInjective(c.remoteAddr, c'.remoteAddr);
      }
      forall c, d | c in created && !c.isClosed
        ensures multiset(c.taken + c.rxQueue)[d]
             == if d.from.ip == c.remoteAddr.ip && d.from.port == c.remoteAddr.port
                then multiset(arrivals[c.born..])[d] else 0
      {
        FromPeerMeans(arrivals[c.born..], c.remoteAddr, d);
      }
    }
  }
}
