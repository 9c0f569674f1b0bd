/** UDP peers: addresses, datagrams, and the text key under which a peer's connection is filed. */
module UdpPeers {
  import opened Basics

  datatype Address = Address(network: string, ip: string, port: u16)

  datatype Datagram = Datagram(data: seq<byte>, from: Address)

  predicate SamePeer(a: Address, b: Address) {
    a.ip == b.ip && a.port == b.port
  }

  function DigitChar(d: nat): char
    requires d < 10
  {
    "0123456789"[d]
  }

  /** A port number in decimal. */
  function Decimal(n: nat): (s: string)
    ensures s != []
  {
    if n < 10 then [DigitChar(n)] else Decimal(n / 10) + [DigitChar(n % 10)]
  }

  function MakePeerKey(a: Address): string {
    a.ip + ":" + Decimal(a.port)
  }

  lemma {:induction false} DecimalHasNoColon(n: nat)
    ensures forall k :: 0 <= k < |Decimal(n)| ==> Decimal(n)[k] != ':'
  {
    if n >= 10 {
      DecimalHasNoColon(n / 10);
    }
  }

  lemma {:induction false} DecimalInjective(n: nat, m: nat)
    requires Decimal(n) == Decimal(m)
    ensures n == m
  {
    var s := Decimal(n);
    if n >= 10 && m >= 10 {
      assert s[..|s| - 1] == Decimal(n / 10) == Decimal(m / 10);
      DecimalInjective(n / 10, m / 10);
      DigitsDiffer(n % 10, m % 10);
    } else if n < 10 && m < 10 {
      DigitsDiffer(n, m);
    }
  }

  lemma DigitsDiffer(d: nat, e: nat)
    requires d < 10 && e < 10
    ensures DigitChar(d) == DigitChar(e) ==> d == e
  {
  }

  /** The key determines the peer: a decimal port has no colon, so the last colon ends the address. */
  lemma PeerKeyInjective(a: Address, b: Address)
    ensures MakePeerKey(a) == MakePeerKey(b) <==> a.ip == b.ip && a.port == b.port
  {
    if MakePeerKey(a) == MakePeerKey(b) {
      DecimalHasNoColon(a.port);
      DecimalHasNoColon(b.port);
      LastColon(a, b);
      LastColon(b, a);
      var key := MakePeerKey(a);
      assert key[..|a.ip|] == a.ip && key[..|b.ip|] == b.ip;
      assert key[|a.ip| + 1..] == Decimal(a.port) && key[|b.ip| + 1..] == Decimal(b.port);
      DecimalInjective(a.port, b.port);
    }
  }

  lemma LastColon(a: Address, b: Address)
    requires MakePeerKey(a) == MakePeerKey(b)
    requires forall k :: 0 <= k < |Decimal(a.port)| ==> Decimal(a.port)[k] != ':'
    ensures |b.ip| <= |a.ip|
  {
    var key := MakePeerKey(a);
    assert MakePeerKey(b)[|b.ip|] == ':';
    assert forall k :: |a.ip| < k < |key| ==> key[k] == Decimal(a.port)[k - |a.ip| - 1];
  }

  /** The datagrams of one peer, in order of arrival. */
  function FromPeer(ds: seq<Datagram>, peer: Address): seq<Datagram> {
    if ds == [] then []
    else
      var last := ds[|ds| - 1];
      FromPeer(ds[..|ds| - 1], peer) + if SamePeer(last.from, peer) then [last] else []
  }

  lemma FromPeerSnoc(ds: seq<Datagram>, d: Datagram, peer: Address)
    ensures FromPeer(ds + [d], peer) == FromPeer(ds, peer) + if SamePeer(d.from, peer) then [d] else []
  {
    assert (ds + [d])[..|ds|] == ds;
  }

  /** They are the datagrams with that address and port, each as often as it arrived. */
  lemma {:induction false} FromPeerMeans(ds: seq<Datagram>, peer: Address, d: Datagram)
    ensures multiset(FromPeer(ds, peer))[d]
         == if d.from.ip == peer.ip && d.from.port == peer.port then multiset(ds)[d] else 0
  {
    if ds != [] {
      var init, last := ds[..|ds| - 1], ds[|ds| - 1];
      FromPeerMeans(init, peer, d);
      assert ds == init + [last];
      FromPeerSnoc(init, last, peer);
    }
  }
}
