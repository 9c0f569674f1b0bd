/**
 DhcpServer: the lease table in its fixed array, the options area of a message walked and
 written in place, and the handling of one request, proved against the lease specification.
 */
module DhcpServer {
  import opened Basics
  import opened DhcpLeases
  import opened Transport

  const DHCPDISCOVER: byte := 1
  const DHCPOFFER: byte := 2
  const DHCPREQUEST: byte := 3
  const DHCPACK: byte := 5
  const OPT_SUBNET_MASK: byte := 1
  const OPT_ROUTER: byte := 3
  const OPT_DNS: byte := 6
  const OPT_REQUESTED_IP: byte := 50
  const OPT_LEASE_TIME: byte := 51
  const OPT_MSG_TYPE: byte := 53
  const OPT_SERVER_ID: byte := 54
  const OPT_END: byte := 255

  // ----- the options area (RFC 2132, section 2) -----------------------------------------

  datatype Opt =
    | Pad
    | Opt(code: byte, data: seq<byte>)
  {
    predicate Legal() {
      match this
      case Pad => true
      case Opt(code, data) => code != 0 && code != OPT_END && |data| < 256
    }
  }

  function PrintOption(o: Opt): seq<byte> {
    match o
    case Pad => [0]
    case Opt(code, data) => [code, |data| % 256] + data
  }

  function PrintOptions(os: seq<Opt>): seq<byte> {
    if os == [] then [] else PrintOption(os[0]) + PrintOptions(os[1..])
  }

  /** Walking from `i` for `code`, every option that is passed over has its length byte in the area. */
  predicate Walkable(s: seq<byte>, i: nat, code: byte)
    decreases |s| - i
  {
    if i >= |s| || s[i] == OPT_END || s[i] == code then true
    else if s[i] == 0 then Walkable(s, i + 1, code)
    else i + 1 < |s| && Walkable(s, i + 2 + s[i + 1], code)
  }

  /** The position of the first option `code` from `i` on. */
  function Find(s: seq<byte>, i: nat, code: byte): (pos: Option<nat>)
    requires Walkable(s, i, code)
    ensures pos.Some? ==> i <= pos.value < |s| && s[pos.value] == code && s[pos.value] != OPT_END
    decreases |s| - i
  {
    if i >= |s| || s[i] == OPT_END then None
    else if s[i] == code then Some(i)
    else if s[i] == 0 then Find(s, i + 1, code)
    else Find(s, i + 2 + s[i + 1], code)
  }

  /** The data of the first option `code` in a list. */
  function Lookup(os: seq<Opt>, code: byte): Option<seq<byte>> {
    if os == [] then None
    else if os[0].Opt? && os[0].code == code then Some(os[0].data)
    else Lookup(os[1..], code)
  }

  /** The data of the option at `pos`. */
  function DataAt(s: seq<byte>, pos: nat): seq<byte>
    requires pos + 1 < |s| && pos + 2 + s[pos + 1] <= |s|
  {
    s[pos + 2..pos + 2 + s[pos + 1]]
  }

  /** From `i` on, walking `s` finds the first option `code` of the list, and its data, or neither. */
  ghost predicate FindsFirst(s: seq<byte>, i: nat, os: seq<Opt>, code: byte) {
    && Walkable(s, i, code)
    && var pos := Find(s, i, code);
    match Lookup(os, code)
    case None => pos.None?
    case Some(data) => pos.Some? && pos.value + 2 + |data| < |s| && s[pos.value + 1] == |data|
                       && DataAt(s, pos.value) == data
  }

  /**
   Options round trip: walking a printed list, with an end mark and anything behind it, finds the
   first option with the code, and its data, exactly when the list has one.
   */
  lemma {:induction false} FindPrinted(front: seq<byte>, os: seq<Opt>, tail: seq<byte>, code: byte)
    requires forall k :: 0 <= k < |os| ==> os[k].Legal()
    requires code != 0 && code != OPT_END
    ensures FindsFirst(front + PrintOptions(os) + ([OPT_END] + tail), |front|, os, code)
    decreases |os|
  {
    hide FindsFirst, PrintOption;
    var end := [OPT_END] + tail;
    if os == [] {
      FindsNothing(front + PrintOptions(os) + end, |front|, code);
    } else {
      var o, rest := os[0], os[1..];
      FindPrinted(front + PrintOption(o), rest, tail, code);
      if o.Pad? {
        PadLayout(front, PrintOptions(rest), end);
        FindPad(front + PrintOption(o) + PrintOptions(rest) + end, |front|, rest, code);
      } else {
        OptionLayout(front, o, PrintOptions(rest), end);
        FindStep(front + PrintOption(o) + PrintOptions(rest) + end, |front|, o, rest, code);
      }
      assert [o] + rest == os;
    }
  }

  lemma FindsNothing(s: seq<byte>, i: nat, code: byte)
    requires i < |s| && s[i] == OPT_END
    ensures FindsFirst(s, i, [], code)
  {
  }

  /** A zero byte is passed over. */
  lemma FindPad(s: seq<byte>, i: nat, rest: seq<Opt>, code: byte)
    requires code != 0 && code != OPT_END && i < |s| && s[i] == 0 && FindsFirst(s, i + 1, rest, code)
    ensures FindsFirst(s, i, [Pad] + rest, code)
  {
    assert ([Pad] + rest)[1..] == rest;
  }

  lemma PadLayout(front: seq<byte>, rest: seq<byte>, end: seq<byte>)
    ensures var s := front + PrintOption(Pad) + rest + end;
            && s == front + (PrintOption(Pad) + rest) + end
            && |front + PrintOption(Pad)| == |front| + 1 <= |s| && s[|front|] == 0
  {
    Assoc(front, PrintOption(Pad), rest);
  }

  lemma FindStep(s: seq<byte>, i: nat, o: Opt, rest: seq<Opt>, code: byte)
    requires o.Opt? && o.Legal() && code != 0 && code != OPT_END
    requires i + 2 + |o.data| < |s| && s[i] == o.code && s[i + 1] == |o.data|
    requires s[i + 2..i + 2 + |o.data|] == o.data
    requires FindsFirst(s, i + 2 + |o.data|, rest, code)
    ensures FindsFirst(s, i, [o] + rest, code)
  {
    assert ([o] + rest)[1..] == rest;
  }

  /** Where an option lies when bytes come before and after it. */
  lemma OptionLayout(front: seq<byte>, o: Opt, rest: seq<byte>, end: seq<byte>)
    requires o.Opt? && o.Legal()
    ensures var s := front + PrintOption(o) + rest + end;
            && s == front + (PrintOption(o) + rest) + end
            && |front| + 2 + |o.data| + |end| <= |s|
            && s[|front|] == o.code && s[|front| + 1] == |o.data|
            && s[|front| + 2..|front| + 2 + |o.data|] == o.data
            && |front + PrintOption(o)| == |front| + 2 + |o.data|
  {
    var s := front + PrintOption(o) + rest + end;
    Assoc(front, PrintOption(o), rest);
    assert s[|front|..|front| + 2 + |o.data|] == PrintOption(o);
    assert s[|front|] == s[|front|..|front| + 2 + |o.data|][0];
    assert s[|front| + 1] == s[|front|..|front| + 2 + |o.data|][1];
    assert PrintOption(o)[2..] == o.data;
  }

  method FindOption(opt: array<byte>, code: byte) returns (pos: Option<nat>)
    requires opt.Length == 308 && Walkable(opt[..], 0, code)
    ensures pos == Find(opt[..], 0, code)
  {
    var i: nat := 0;
    while i < 308 && opt[i] != OPT_END
      invariant Walkable(opt[..], i, code) && Find(opt[..], i, code) == Find(opt[..], 0, code)
      decreases 308 - i
    {
      if opt[i] == code {
        return Some(i);
      }
      if opt[i] == 0 {
        i := i + 1;
        continue;
      }
      i := i + 2 + opt[i + 1];
    }
    return None;
  }

  /** Writes one option at `at` and moves past it. */
  method WriteOptionN(opt: array<byte>, at: nat, code: byte, data: seq<byte>) returns (at': nat)
    requires |data| < 256 && at + 2 + |data| <= opt.Length
    modifies opt
    ensures at' == at + 2 + |data|
    ensures opt[..at'] == old(opt[..at]) + PrintOption(Opt(code, data))
  {
    opt[at] := code;
    opt[at + 1] := |data| % 256;
    forall i | 0 <= i < |data| {
      opt[at + 2 + i] := data[i];
    }
    at' := at + 2 + |data|;
    assert opt[..at'] == opt[..at] + opt[at..at'];
    assert opt[at..at'] == PrintOption(Opt(code, data));
  }

  method WriteOptionU8(opt: array<byte>, at: nat, code: byte, value: byte) returns (at': nat)
    requires at + 3 <= opt.Length
    modifies opt
    ensures at' == at + 3
    ensures opt[..at'] == old(opt[..at]) + PrintOption(Opt(code, [value]))
  {
    opt[at] := code;
    opt[at + 1] := 1;
    opt[at + 2] := value;
    at' := at + 3;
    assert opt[..at'] == opt[..at] + [code, 1, value];
  }

  function Be32(n: u32): seq<byte> {
    [n / 0x100_0000 % 256, n / 0x1_0000 % 256, n / 256 % 256, n % 256]
  }

  function Number(a: byte, b: byte, c: byte, d: byte): u32 {
    a * 0x100_0000 + b * 0x1_0000 + c * 256 + d
  }

  method WriteOptionU32(opt: array<byte>, at: nat, code: byte, value: u32) returns (at': nat)
    requires at + 6 <= opt.Length
    modifies opt
    ensures at' == at + 6
    ensures opt[..at'] == old(opt[..at]) + PrintOption(Opt(code, Be32(value)))
  {
    opt[at] := code;
    opt[at + 1] := 4;
    opt[at + 2] := value / 0x100_0000 % 256;
    opt[at + 3] := value / 0x1_0000 % 256;
    opt[at + 4] := value / 256 % 256;
    opt[at + 5] := value % 256;
    at' := at + 6;
    assert opt[..at'] == opt[..at] + ([code, 4] + Be32(value));
  }

  // ----- requests and replies -----------------------------------------------------------

  /** The server's walks stay in the area, and the options it reads there have the bytes it reads. */
  predicate WellFormed(s: seq<byte>) {
    && Walkable(s, 0, OPT_MSG_TYPE)
    && match Find(s, 0, OPT_MSG_TYPE)
       case None => true
       case Some(t) => t + 2 < |s| && (s[t + 2] == DHCPREQUEST ==> AsksForAddress(s))
  }

  predicate AsksForAddress(s: seq<byte>) {
    && Walkable(s, 0, OPT_REQUESTED_IP)
    && (var r := Find(s, 0, OPT_REQUESTED_IP); r.Some? ==> r.value + 5 < |s|)
  }

  /** The request a message makes. */
  function Decode(mac: Mac, s: seq<byte>): Request
    requires WellFormed(s)
  {
    match Find(s, 0, OPT_MSG_TYPE)
    case None => Ignored
    case Some(t) =>
      if s[t + 2] == DHCPDISCOVER then Discover(mac)
      else if s[t + 2] == DHCPREQUEST then
        match Find(s, 0, OPT_REQUESTED_IP)
        case None => Ignored
        case Some(r) => Claim(mac, s[r + 2..r + 6])
      else Ignored
  }

  /**
   What a client asks for is what the server decodes: of a printed list of options, with padding
   anywhere and anything behind the end mark, option 53 says whether it is a DHCPDISCOVER (1), a
   DHCPREQUEST (3) for the address in option 50, or nothing the server answers.
   */
  lemma DecodePrinted(mac: Mac, os: seq<Opt>, tail: seq<byte>)
    requires forall k :: 0 <= k < |os| ==> os[k].Legal()
    requires Lookup(os, 53).Some? ==> Lookup(os, 53).value != []
    requires Lookup(os, 50).Some? ==> |Lookup(os, 50).value| >= 4
    ensures var s := PrintOptions(os) + ([255] + tail);
            && WellFormed(s)
            && Decode(mac, s) == if Lookup(os, 53).None? then Ignored
                                 else if Lookup(os, 53).value[0] == 1 then Discover(mac)
                                 else if Lookup(os, 53).value[0] == 3 && Lookup(os, 50).Some? then
                                   Claim(mac, Lookup(os, 50).value[..4])
                                 else Ignored
  {
    hide Walkable, Find, Lookup, PrintOptions, FindsFirst;
    var s := PrintOptions(os) + ([255] + tail);
    assert [] + PrintOptions(os) == PrintOptions(os);
    FindPrinted([], os, tail, OPT_MSG_TYPE);
    FindPrinted([], os, tail, OPT_REQUESTED_IP);
    FoundByte(s, os, OPT_MSG_TYPE);
    FoundFour(s, os, OPT_REQUESTED_IP);
  }

  lemma FoundData(s: seq<byte>, os: seq<Opt>, code: byte, data: seq<byte>)
    requires FindsFirst(s, 0, os, code) && Lookup(os, code) == Some(data)
    ensures Walkable(s, 0, code) && Find(s, 0, code).Some?
    ensures var t := Find(s, 0, code).value;
            t + 2 + |data| < |s| && s[t + 1] == |data| && DataAt(s, t) == data
  {
    hide Walkable, Find, Lookup;
  }

  lemma FoundByte(s: seq<byte>, os: seq<Opt>, code: byte)
    requires FindsFirst(s, 0, os, code)
    ensures Walkable(s, 0, code) && (Find(s, 0, code).Some? <==> Lookup(os, code).Some?)
    ensures Lookup(os, code).Some? && Lookup(os, code).value != [] ==>
              var t := Find(s, 0, code).value; t + 2 < |s| && s[t + 2] == Lookup(os, code).value[0]
  {
    hide Walkable, Find, Lookup;
    if Lookup(os, code).Some? && Lookup(os, code).value != [] {
      var t := Find(s, 0, code).value;
      assert s[t + 2] == DataAt(s, t)[0];
    }
  }

  lemma FoundFour(s: seq<byte>, os: seq<Opt>, code: byte)
    requires FindsFirst(s, 0, os, code)
    ensures Walkable(s, 0, code) && (Find(s, 0, code).Some? <==> Lookup(os, code).Some?)
    ensures Lookup(os, code).Some? && |Lookup(os, code).value| >= 4 ==>
              var r := Find(s, 0, code).value; r + 5 < |s| && s[r + 2..r + 6] == Lookup(os, code).value[..4]
  {
    hide Walkable, Find, Lookup;
    if Lookup(os, code).Some? && |Lookup(os, code).value| >= 4 {
      var r := Find(s, 0, code).value;
      assert s[r + 2..r + 6] == DataAt(s, r)[..4];
    }
  }

  function ReplyOptions(kind: byte, server: Ip, netmask: Ip): seq<Opt> {
    [Opt(OPT_MSG_TYPE, [kind]), Opt(OPT_SERVER_ID, server), Opt(OPT_SUBNET_MASK, netmask),
     Opt(OPT_ROUTER, server), Opt(OPT_DNS, server), Opt(OPT_LEASE_TIME, Be32(LEASE_TIME_S))]
  }

  /** What the options area of a reply begins with. */
  function ReplyBytes(kind: byte, server: Ip, netmask: Ip): seq<byte> {
    PrintOptions(ReplyOptions(kind, server, netmask)) + [OPT_END]
  }

  /**
   The promise in a reply: a client that walks its options finds the message type and a lease
   time, and that many seconds are the milliseconds for which the grant is exclusive.
   */
  lemma ReplyPromisesLease(kind: byte, server: Ip, netmask: Ip, tail: seq<byte>)
    ensures var s := ReplyBytes(kind, server, netmask) + tail;
            && Walkable(s, 0, OPT_MSG_TYPE) && Walkable(s, 0, OPT_LEASE_TIME)
            && var t, l := Find(s, 0, OPT_MSG_TYPE), Find(s, 0, OPT_LEASE_TIME);
            && t.Some? && t.value + 3 <= |s| && s[t.value + 1] == 1 && DataAt(s, t.value) == [kind]
            && l.Some? && l.value + 6 <= |s| && s[l.value + 1] == 4
            && var d := DataAt(s, l.value);
            Number(d[0], d[1], d[2], d[3]) * 1000 == 86_400_000
  {
    hide PrintOptions, Walkable, Find, Lookup, Be32, FindsFirst;
    var os := ReplyOptions(kind, server, netmask);
    var s := ReplyBytes(kind, server, netmask) + tail;
    assert [] + PrintOptions(os) == PrintOptions(os);
    Assoc(PrintOptions(os), [OPT_END], tail);
    LeaseTimeBytes();
    FindPrinted([], os, tail, OPT_MSG_TYPE);
    FindPrinted([], os, tail, OPT_LEASE_TIME);
    LookupReply(kind, server, netmask);
    FoundData(s, os, OPT_MSG_TYPE, [kind]);
    FoundData(s, os, OPT_LEASE_TIME, Be32(LEASE_TIME_S));
  }

  /** The options of a reply, byte by byte. */
  lemma ReplyIs(kind: byte, server: Ip, netmask: Ip)
    ensures ReplyBytes(kind, server, netmask)
         == [53, 1, kind] + ([54, 4] + server) + ([1, 4] + netmask) + ([3, 4] + server) + ([6, 4] + server)
            + [51, 4, 0, 1, 81, 128] + [255]
  {
    hide ReplyBytes;
    PrintReply(kind, server, netmask);
    LeaseTimeBytes();
    assert PrintOption(Opt(OPT_MSG_TYPE, [kind])) == [53, 1, kind];
    assert PrintOption(Opt(OPT_LEASE_TIME, Be32(LEASE_TIME_S))) == [51, 4, 0, 1, 81, 128];
  }

  lemma LeaseTimeBytes()
    ensures Be32(LEASE_TIME_S) == [0, 1, 81, 128] && Number(0, 1, 81, 128) == LEASE_TIME_S
  {
  }

  lemma LookupReply(kind: byte, server: Ip, netmask: Ip)
    ensures var os := ReplyOptions(kind, server, netmask);
            Lookup(os, OPT_MSG_TYPE) == Some([kind]) && Lookup(os, OPT_LEASE_TIME) == Some(Be32(LEASE_TIME_S))
  {
    var os := ReplyOptions(kind, server, netmask);
    assert os[1..][1..] == os[2..] && os[2..][1..] == os[3..] && os[3..][1..] == os[4..] && os[4..][1..] == os[5..];
    assert Lookup(os[5..], OPT_LEASE_TIME) == Some(Be32(LEASE_TIME_S));
    assert Lookup(os[4..], OPT_LEASE_TIME) == Lookup(os[5..], OPT_LEASE_TIME);
    assert Lookup(os[3..], OPT_LEASE_TIME) == Lookup(os[4..], OPT_LEASE_TIME);
    assert Lookup(os[2..], OPT_LEASE_TIME) == Lookup(os[3..], OPT_LEASE_TIME);
    assert Lookup(os[1..], OPT_LEASE_TIME) == Lookup(os[2..], OPT_LEASE_TIME);
  }

  // ----- the scan as the loop makes it --------------------------------------------------

  /** What looking at slot `i` at `at` does to the table and the candidate. */
  function Examined(table: Table, i: nat, at: nat, chosen: nat): (Table, nat)
    requires i < MAX_IP
  {
    if chosen != MAX_IP then (table, chosen)
    else if Expired(table[i].expiry, at) then (Cleared(table, i), i)
    else (table, if table[i].mac == ZERO_MAC then i else MAX_IP)
  }

  /** After the readings `done`, the whole scan is what is left of it on the current table. */
  ghost predicate ScanAt(start: Table, mac: Mac, done: seq<nat>, table: Table, chosen: nat) {
    |done| <= MAX_IP
    && forall times: seq<nat> :: |times| == MAX_IP && times[..|done|] == done ==>
         Scan(start, mac, times, 0, MAX_IP) == Scan(table, mac, times, |done|, chosen)
  }

  lemma ScanStarts(table: Table, mac: Mac)
    ensures ScanAt(table, mac, [], table, MAX_IP)
  {
  }

  lemma ScanGoesOn(start: Table, mac: Mac, done: seq<nat>, table: Table, chosen: nat, at: nat, table': Table, chosen': nat)
    requires ScanAt(start, mac, done, table, chosen) && |done| < MAX_IP && table[|done|].mac != mac
    requires (table', chosen') == Examined(table, |done|, at, chosen)
    ensures ScanAt(start, mac, done + [at], table', chosen')
  {
    forall times: seq<nat> | |times| == MAX_IP && times[..|done + [at]|] == done + [at]
      ensures Scan(start, mac, times, 0, MAX_IP) == Scan(table', mac, times, |done + [at]|, chosen')
    {
      var i := |done|;
      assert times[..i] == times[..i + 1][..i] == done && times[i] == times[..i + 1][i] == at;
    }
  }

  lemma ScanFinds(start: Table, mac: Mac, done: seq<nat>, table: Table, chosen: nat, end: nat)
    requires ScanAt(start, mac, done, table, chosen) && |done| < MAX_IP && table[|done|].mac == mac
    ensures Scan(start, mac, done + seq(MAX_IP - |done|, _ => end), 0, MAX_IP) == (table, |done|)
  {
    var times := done + seq(MAX_IP - |done|, _ => end);
    assert times[..|done|] == done;
  }

  lemma ScanEnds(start: Table, mac: Mac, done: seq<nat>, table: Table, chosen: nat)
    requires ScanAt(start, mac, done, table, chosen) && |done| == MAX_IP
    ensures Scan(start, mac, done, 0, MAX_IP) == (table, chosen)
  {
    assert done[..MAX_IP] == done;
  }

  /** Every slot free, as the server starts. */
  const FREE_TABLE: Table := seq(MAX_IP, _ => Lease(ZERO_MAC, 0))

  /** A reply: its message type, the last byte of its address, and the number of option bytes written. */
  datatype Reply = Reply(kind: byte, address: byte, size: nat)

  class Server {
    const clock: Clock
    const serverIp: Ip
    const netmask: Ip
    const leases: array<Lease>
    ghost var turns: seq<Turn>               // every request handled, with the clock readings made for it
    ghost var replies: seq<Option<Reply>>    // the reply to each

    ghost predicate Sized()
      reads this
    {
      leases.Length == MAX_IP
    }

    ghost function TableOf(): Table
      requires Sized()
      reads this, leases
    {
      leases[..]
    }

    /** The requests so far are a run of the specification, and the array is the table it ends in. */
    ghost predicate Valid()
      reads this, leases, clock
    {
      && RepliesKept()
      && Sized() && Run(turns) && TableOf() == After(FREE_TABLE, serverIp, turns)
      && (turns != [] ==> turns[|turns| - 1].times[MAX_IP - 1] <= clock.now / 1000)
    }

    /** Each reply tells the outcome of its turn. */
    ghost predicate RepliesKept()
      reads `turns, `replies
    {
      && |replies| == |turns| && Run(turns)
      && forall k :: 0 <= k < |turns| ==> Tells(Answer(FREE_TABLE, serverIp, turns, k), replies[k])
    }

    constructor (clock: Clock, serverIp: Ip, netmask: Ip)
      ensures Valid() && fresh(leases) && this.clock == clock && turns == [] && replies == []
      ensures this.serverIp == serverIp && this.netmask == netmask && TableOf() == FREE_TABLE
      ensures forall i :: 0 <= i < 32 ==> TableOf()[i].mac == [0, 0, 0, 0, 0, 0]
    {
      this.clock, this.serverIp, this.netmask := clock, serverIp, netmask;
      leases := new Lease[MAX_IP](_ => Lease(ZERO_MAC, 0));
      turns, replies := [], [];
    }

    /** The clock in milliseconds; the hardware shows its low 32 bits. */
    method TicksMs() returns (tick: u32, ghost at: nat)
      modifies clock
      ensures tick == Tick(at) && old(clock.now) / 1000 <= at == clock.now / 1000
    {
      var now := clock.GetAbsoluteTime();
      tick := now / 1000 % 0x1_0000_0000;
      at := now / 1000;
    }

    /** One slot of the scan that is not the client's: is it a candidate, and has it expired? */
    method ExamineSlot(i: nat, chosen: nat) returns (chosen': nat, ghost at: nat)
      requires Sized() && i < MAX_IP && chosen <= MAX_IP
      modifies leases, clock
      ensures old(clock.now) / 1000 <= at <= clock.now / 1000 && chosen' <= MAX_IP
      ensures (TableOf(), chosen') == Examined(old(TableOf()), i, at, chosen)
    {
      chosen', at := chosen, clock.now / 1000;
      if chosen == MAX_IP {
        if leases[i].mac == ZERO_MAC {
          chosen' := i;
        }
        var expiry: int := leases[i].expiry * 65536 + 65535;
        var tick;
        tick, at := TicksMs();
        if (expiry - tick) % 0x1_0000_0000 >= 0x8000_0000 {
          leases[i] := leases[i].(mac := ZERO_MAC);
          chosen' := i;
        }
      }
    }

    /** Finds the slot of a client, or frees one for it: the scan of the specification. */
    method FindOrAllocateLease(mac: Mac) returns (slot: nat, ghost times: seq<nat>)
      requires Sized()
      modifies leases, clock
      ensures Readings(times) && old(clock.now) / 1000 <= times[0] && times[MAX_IP - 1] <= clock.now / 1000
      ensures (TableOf(), slot) == Scan(old(TableOf()), mac, times, 0, MAX_IP)
    {
      hide Scan, Examined;
      ghost var table := TableOf();
      var chosen: nat := MAX_IP;
      times := [];
      ghost var begin: nat := clock.now / 1000;
      ScanStarts(table, mac);
      for i := 0 to MAX_IP
        invariant |times| == i && chosen <= MAX_IP && begin <= clock.now / 1000
        invariant forall j, k :: 0 <= j <= k < i ==> begin <= times[j] <= times[k] <= clock.now / 1000
        invariant ScanAt(table, mac, times, TableOf(), chosen)
      {
        if leases[i].mac == mac {
          ghost var end: nat := clock.now / 1000;
          ScanFinds(table, mac, times, TableOf(), chosen, end);
          times := times + seq(MAX_IP - i, _ => end);
          return i, times;
        }
        ghost var before, candidate := TableOf(), chosen;
        ghost var at;
        chosen, at := ExamineSlot(i, chosen);
        ScanGoesOn(table, mac, times, before, candidate, at, TableOf(), chosen);
        times := times + [at];
      }
      ScanEnds(table, mac, times, TableOf(), chosen);
      slot := chosen;
    }

    /** Serves a DHCPREQUEST for the address `ip`: renews, grants, or refuses. */
    method Grant(mac: Mac, ip: Ip) returns (slot: Option<nat>, ghost times: seq<nat>)
      requires Sized()
      modifies leases, clock
      ensures Readings(times) && old(clock.now) / 1000 <= times[0] && times[MAX_IP - 1] <= clock.now / 1000
      ensures slot.Some? ==> slot.value < MAX_IP
      ensures Step(old(TableOf()), serverIp, Claim(mac, ip), times)
           == (TableOf(), if slot.Some? then Ack(slot.value) else Silent)
    {
      ghost var begin: nat := clock.now / 1000;
      times := seq(MAX_IP, _ => begin);
      if ip[..3] != serverIp[..3] {
        return None, times;
      }
      var last: int := ip[3];
      var yi := (last + 256 - 16) % 256;
      if yi >= MAX_IP {
        return None, times;
      }
      if leases[yi].mac == mac {
        // the same client renews the same lease
      } else if leases[yi].mac == ZERO_MAC {
        leases[yi] := leases[yi].(mac := mac);
      } else {
        return None, times;
      }
      var tick;
      ghost var at;
      tick, at := TicksMs();
      times := seq(MAX_IP, _ => at);
      leases[yi] := leases[yi].(expiry := (tick as int + 86400 * 1000) % 0x1_0000_0000 / 65536);
      assert leases[yi].expiry == ExpiryAt(at);
      assert leases[..] == old(leases[..])[yi := Lease(mac, ExpiryAt(at))];
      return Some(yi), times;
    }

    /**
     Handles one request whose options are in `opt`. The request becomes one more turn of the run,
     so that `GrantIsExclusive` speaks of every grant this server has made; the reply is the
     answer of the run to it, written over the options, and there is none when the answer is silence.
     */
    method HandleRequest(mac: Mac, opt: array<byte>) returns (reply: Option<Reply>)
      requires Valid() && opt.Length == 308 && WellFormed(opt[..])
      modifies this, leases, opt, clock
      ensures Valid() && |turns| == |old(turns)| + 1 && old(turns) == turns[..|old(turns)|]
      ensures turns[|old(turns)|].req == Decode(mac, old(opt[..]))
      ensures old(clock.now) / 1000 <= turns[|old(turns)|].times[0]
      ensures turns[|old(turns)|].times[MAX_IP - 1] <= clock.now / 1000
      ensures replies == old(replies) + [reply]
      ensures Answers(Answer(FREE_TABLE, serverIp, turns, |old(turns)|), opt[..], reply)
    {
      hide Step, WellFormed, Answers, Tells, Run;
      ghost var req := Decode(mac, opt[..]);
      ghost var times;
      reply, times := Serve(mac, opt);
      RunSnoc(turns, Turn(req, times));
      RepliesGoOn(Turn(req, times), reply, opt[..]);
      turns := turns + [Turn(req, times)];
      replies := replies + [reply];
      assert turns[..|turns| - 1] == old(turns);
    }

    lemma RepliesGoOn(turn: Turn, reply: Option<Reply>, s: seq<byte>)
      requires RepliesKept() && Run(turns + [turn]) && |turn.times| == MAX_IP
      requires Answers(Step(After(FREE_TABLE, serverIp, turns), serverIp, turn.req, turn.times).1, s, reply)
      ensures forall k :: 0 <= k < |turns| + 1 ==>
                Tells(Answer(FREE_TABLE, serverIp, turns + [turn], k), (replies + [reply])[k])
    {
      hide Step, Replies;
      var all := turns + [turn];
      forall k | 0 <= k < |turns| + 1 ensures Tells(Answer(FREE_TABLE, serverIp, all, k), (replies + [reply])[k]) {
        if k < |turns| {
          assert all[..k] == turns[..k] && all[k] == turns[k];
        } else {
          assert all[..k] == turns;
          AnswersTell(Step(After(FREE_TABLE, serverIp, turns), serverIp, turn.req, turn.times).1, s, reply);
        }
      }
    }

    lemma AnswersTell(outcome: Outcome, s: seq<byte>, reply: Option<Reply>)
      requires Answers(outcome, s, reply)
      ensures Tells(outcome, reply)
    {
    }

    /** What the addresses the server sends mean for its clients: a DHCPOFFER is kept ... */
    lemma HandshakeCompletes(j: nat, k: nat)
      requires Valid() && j < k < |turns| && turns[j].req.Discover?
      requires replies[j].Some? && replies[j].value.kind == 2
      requires turns[k].req == Claim(turns[j].req.mac, serverIp[..3] + [replies[j].value.address])
      requires forall i :: j < i < k && turns[i].req.Claim? && replies[i].Some? && replies[i].value.kind == 5
                           && replies[i].value.address == replies[j].value.address ==>
                 turns[i].req.mac == turns[j].req.mac
      ensures replies[k].Some? && replies[k].value.kind == 5 && replies[k].value.address == replies[j].value.address
    {
      hide Step, After;
      var slot := replies[j].value.address - 16;
      RequestKinds(j);
      forall i | j < i < k && Answer(FREE_TABLE, serverIp, turns, i) == Ack(slot)
        ensures turns[i].req.Claim? && turns[i].req.mac == turns[j].req.mac
      {
        RequestKinds(i);
      }
      OfferIsHonoured(FREE_TABLE, serverIp, turns, j, k, slot);
    }

    /** ... and a DHCPACK is exclusive for 86,400 seconds. */
    lemma AddressIsExclusive(j: nat, k: nat)
      requires Valid() && j < k < |turns| && turns[j].req.Claim? && !turns[k].req.Ignored?
      requires replies[j].Some? && replies[j].value.kind == 5 && replies[k].Some?
      requires replies[k].value.address == replies[j].value.address
      requires turns[j].req.mac != [0, 0, 0, 0, 0, 0] && turns[k].req.mac != turns[j].req.mac
      ensures turns[k].times[if replies[k].value.kind == 5 then 0 else replies[k].value.address - 16]
              > turns[j].times[0] + 86_400_000
    {
      hide Step, After;
      RequestKinds(j);
      RequestKinds(k);
      GrantIsExclusive(FREE_TABLE, serverIp, turns, j, k, replies[j].value.address - 16);
    }

    /** Only a DHCPDISCOVER is answered with an offer and only a DHCPREQUEST with an acknowledgement. */
    lemma RequestKinds(k: nat)
      requires RepliesKept() && k < |turns|
      ensures match Answer(FREE_TABLE, serverIp, turns, k)
              case Silent => true
              case Offer(slot) => turns[k].req.Discover? && slot < 32
              case Ack(slot) => turns[k].req.Claim? && slot < 32
    {
      hide After, Scan;
    }

    /** The step of the table for one request, and its reply. */
    method Serve(mac: Mac, opt: array<byte>) returns (reply: Option<Reply>, ghost times: seq<nat>)
      requires Sized() && opt.Length == 308 && WellFormed(opt[..])
      modifies leases, opt, clock
      ensures Readings(times) && old(clock.now) / 1000 <= times[0] && times[MAX_IP - 1] <= clock.now / 1000
      ensures var (table, outcome) := Step(old(TableOf()), serverIp, Decode(mac, old(opt[..])), times);
              TableOf() == table && Answers(outcome, opt[..], reply)
    {
      hide Find, Walkable, Scan, SlotOf, ExpiryAt, Replies;
      times := ReadingsNow();
      reply := None;
      var msgType := FindOption(opt, OPT_MSG_TYPE);
      if msgType.None? {
        return;
      }
      var kind := opt[msgType.value + 2];
      if kind == DHCPDISCOVER {
        reply, times := ServeDiscover(mac, opt);
      } else if kind == DHCPREQUEST {
        var requested := FindOption(opt, OPT_REQUESTED_IP);
        if requested.None? {
          return;
        }
        reply, times := ServeClaim(mac, opt[requested.value + 2..requested.value + 6], opt);
      }
    }

    /** Readings for a request that does not look at the clock. */
    ghost method ReadingsNow() returns (times: seq<nat>)
      ensures Readings(times) && clock.now / 1000 == times[0] == times[MAX_IP - 1]
    {
      ghost var begin: nat := clock.now / 1000;
      times := seq(MAX_IP, _ => begin);
    }

    method ServeDiscover(mac: Mac, opt: array<byte>) returns (reply: Option<Reply>, ghost times: seq<nat>)
      requires Sized() && opt.Length == 308
      modifies leases, opt, clock
      ensures Readings(times) && old(clock.now) / 1000 <= times[0] && times[MAX_IP - 1] <= clock.now / 1000
      ensures var (table, outcome) := Step(old(TableOf()), serverIp, Discover(mac), times);
              TableOf() == table && Answers(outcome, opt[..], reply)
    {
      hide Scan, Replies;
      var yi;
      yi, times := FindOrAllocateLease(mac);
      if yi == MAX_IP {
        return None, times;
      }
      reply := WriteReply(opt, DHCPOFFER, yi);
    }

    method ServeClaim(mac: Mac, ip: Ip, opt: array<byte>) returns (reply: Option<Reply>, ghost times: seq<nat>)
      requires Sized() && opt.Length == 308
      modifies leases, opt, clock
      ensures Readings(times) && old(clock.now) / 1000 <= times[0] && times[MAX_IP - 1] <= clock.now / 1000
      ensures var (table, outcome) := Step(old(TableOf()), serverIp, Claim(mac, ip), times);
              TableOf() == table && Answers(outcome, opt[..], reply)
    {
      hide Step, Replies;
      var yi;
      yi, times := Grant(mac, ip);
      if yi.None? {
        return None, times;
      }
      reply := WriteReply(opt, DHCPACK, yi.value);
    }

    /** The reply that belongs to an outcome; none when the outcome is silence. */
    ghost predicate Answers(outcome: Outcome, s: seq<byte>, reply: Option<Reply>) {
      match outcome
      case Silent => reply.None?
      case Offer(slot) => Replies(s, reply, 2, slot)
      case Ack(slot) => Replies(s, reply, 5, slot)
    }

    /** The type and the address of the reply that belongs to an outcome. */
    ghost predicate Tells(outcome: Outcome, reply: Option<Reply>) {
      match outcome
      case Silent => reply.None?
      case Offer(slot) => reply.Some? && reply.value.kind == 2 && reply.value.address == 16 + slot
      case Ack(slot) => reply.Some? && reply.value.kind == 5 && reply.value.address == 16 + slot
    }

    /** The reply carries the slot's address and begins the options area with its options. */
    ghost predicate Replies(s: seq<byte>, reply: Option<Reply>, kind: byte, slot: nat) {
      && reply.Some? && reply.value.kind == kind && reply.value.address == 16 + slot
      && reply.value.size == |ReplyBytes(kind, serverIp, netmask)| && ReplyBytes(kind, serverIp, netmask) <= s
    }

    method WriteReply(opt: array<byte>, kind: byte, slot: nat) returns (reply: Option<Reply>)
      requires opt.Length == 308 && slot < MAX_IP
      modifies opt
      ensures Replies(opt[..], reply, kind, slot)
    {
      hide PrintOption, ReplyBytes, PrintOptions;
      var at := WriteOptionU8(opt, 0, OPT_MSG_TYPE, kind);
      assert opt[..at] == PrintOption(Opt(OPT_MSG_TYPE, [kind]));
      at := WriteOptionN(opt, at, OPT_SERVER_ID, serverIp);
      at := WriteOptionN(opt, at, OPT_SUBNET_MASK, netmask);
      at := WriteOptionN(opt, at, OPT_ROUTER, serverIp);
      at := WriteOptionN(opt, at, OPT_DNS, serverIp);
      at := WriteOptionU32(opt, at, OPT_LEASE_TIME, LEASE_TIME_S);
      ghost var options := opt[..at];
      opt[at] := OPT_END;
      at := at + 1;
      assert opt[..at] == options + [OPT_END];
      PrintReply(kind, serverIp, netmask);
      assert opt[..at] == ReplyBytes(kind, serverIp, netmask);
      reply := Some(Reply(kind, BASE_IP + slot, at));
    }
  }

  lemma PrintReply(kind: byte, server: Ip, netmask: Ip)
    ensures ReplyBytes(kind, server, netmask)
         == PrintOption(Opt(OPT_MSG_TYPE, [kind])) + PrintOption(Opt(OPT_SERVER_ID, server))
            + PrintOption(Opt(OPT_SUBNET_MASK, netmask)) + PrintOption(Opt(OPT_ROUTER, server))
            + PrintOption(Opt(OPT_DNS, server)) + PrintOption(Opt(OPT_LEASE_TIME, Be32(LEASE_TIME_S))) + [OPT_END]
  {
    hide PrintOption, PrintOptions, Be32;
    var os := ReplyOptions(kind, server, netmask);
    PrintNone();
    PrintOptionsAppend(os[..5], os[5]);
    PrintOptionsAppend(os[..4], os[4]);
    PrintOptionsAppend(os[..3], os[3]);
    PrintOptionsAppend(os[..2], os[2]);
    PrintOptionsAppend(os[..1], os[1]);
    PrintOptionsAppend([], os[0]);
    assert os == os[..5] + [os[5]] && os[..5] == os[..4] + [os[4]] && os[..4] == os[..3] + [os[3]];
    assert os[..3] == os[..2] + [os[2]] && os[..2] == os[..1] + [os[1]] && os[..1] == [] + [os[0]];
  }

  lemma PrintNone()
    ensures PrintOptions([]) == []
  {
  }

  lemma {:induction false} PrintOptionsAppend(os: seq<Opt>, o: Opt)
    ensures PrintOptions(os + [o]) == PrintOptions(os) + PrintOption(o)
    decreases |os|
  {
    if os == [] {
      assert [] + [o] == [o] && [o][1..] == [];
    } else {
      PrintOptionsAppend(os[1..], o);
      assert (os + [o])[1..] == os[1..] + [o];
      Assoc(PrintOption(os[0]), PrintOptions(os[1..]), PrintOption(o));
    }
  }
}
