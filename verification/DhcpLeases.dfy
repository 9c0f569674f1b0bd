/**
 The DHCP lease table: sixteen-bit expiries on a wrapping 32-bit millisecond clock, the scan
 that finds or frees a slot, and the guarantee that no address is granted twice at a time.
 */
module DhcpLeases {
  import opened Basics

  type Mac = s: seq<byte> | |s| == 6 witness [0, 0, 0, 0, 0, 0]
  type Ip = s: seq<byte> | |s| == 4 witness [0, 0, 0, 0]

  const ZERO_MAC: Mac := [0, 0, 0, 0, 0, 0]
  const MAX_IP: nat := 32
  const BASE_IP: nat := 16
  const LEASE_TIME_S: nat := 24 * 60 * 60
  const LEASE_MS: nat := LEASE_TIME_S * 1000
  const TICKS: int := 0x1_0000_0000
  const HALF: int := 0x8000_0000

  datatype Lease = Lease(mac: Mac, expiry: u16)

  type Table = t: seq<Lease> | |t| == MAX_IP witness seq(32, _ => Lease([0, 0, 0, 0, 0, 0], 0))

  // ----- expiry arithmetic --------------------------------------------------------------

  /** The 32-bit tick the hardware shows `t` milliseconds after boot. */
  function Tick(t: nat): u32 {
    t % TICKS
  }

  /** The expiry stored by a grant at `t`: the upper half of the wrapped 32-bit sum. */
  function ExpiryAt(t: nat): u16 {
    (Tick(t) + LEASE_MS) % TICKS / 65536
  }

  /** The table's test, made at `t`: the signed 32-bit difference is negative. */
  predicate Expired(expiry: u16, t: nat) {
    (expiry * 65536 + 65535 - Tick(t)) % TICKS >= HALF
  }

  /** The end of a lease granted at `t`, rounded up to the last millisecond of its 65,536. */
  function NominalEnd(t: nat): (end: nat)
    ensures t + 86_400_000 <= end < t + 86_400_000 + 65536
  {
    (t + LEASE_MS) / 65536 * 65536 + 65535
  }

  lemma UpperHalf(s: nat)
    ensures s % TICKS / 65536 * 65536 == s / 65536 * 65536 % TICKS
  {
    var q, r := s / TICKS, s % TICKS;
    assert s == q * TICKS + r;
    assert s / 65536 == q * 65536 + r / 65536;
    var low := r / 65536 * 65536;
    assert s / 65536 * 65536 == q * TICKS + low && 0 <= low < TICKS;
    ModUnique(q, low);
  }

  lemma ModUnique(q: int, r: int)
    requires 0 <= r < TICKS
    ensures (q * TICKS + r) % TICKS == r
  {
  }

  /** Reducing a term modulo 2^32 first does not change the difference modulo 2^32. */
  lemma ModDifference(a: nat, t: nat)
    ensures (a % TICKS + 65535 - t % TICKS) % TICKS == (a + 65535 - t) % TICKS
  {
    var x := a % TICKS + 65535 - t % TICKS;
    var q := a / TICKS - t / TICKS;
    assert a + 65535 - t == q * TICKS + x;
    var p := x / TICKS;
    assert x == p * TICKS + x % TICKS;
    assert a + 65535 - t == (q + p) * TICKS + x % TICKS;
    ModUnique(q + p, x % TICKS);
  }

  /**
   What the stored expiry means, exactly: a lease granted at `t` is reported expired at `t'` when
   and only when `t'` lies, modulo 2^32, in the half circle after the nominal end.
   */
  lemma ExpiryExact(t: nat, t': nat)
    ensures Expired(ExpiryAt(t), t') <==> (t' - NominalEnd(t) - 1) % TICKS < HALF
  {
    var s := t + LEASE_MS;
    var q := t / TICKS;
    assert Tick(t) + LEASE_MS == s - q * TICKS;
    assert (Tick(t) + LEASE_MS) % TICKS == s % TICKS by {
      var w := Tick(t) + LEASE_MS;
      assert s == (q + w / TICKS) * TICKS + w % TICKS;
      ModUnique(q + w / TICKS, w % TICKS);
    }
    UpperHalf(s);
    ModDifference(s / 65536 * 65536, t');
    var d := NominalEnd(t) - t';
    assert (ExpiryAt(t) * 65536 + 65535 - Tick(t')) % TICKS == d % TICKS;
    ModUnique(-1 - d / TICKS, TICKS - 1 - d % TICKS);
    assert t' - NominalEnd(t) - 1 == (-1 - d / TICKS) * TICKS + (TICKS - 1 - d % TICKS);
  }

  /** Never early: within the lease time, a lease is not reported expired. */
  lemma NeverExpiredEarly(t: nat, t': nat)
    requires t <= t' <= t + 86_400_000
    ensures !Expired(ExpiryAt(t), t')
  {
    ExpiryExact(t, t');
    ModUnique(-1, t' - NominalEnd(t) - 1 + TICKS);
  }

  /** Late by less than 65,536 ms, and then reported for 2^31 ms. */
  lemma ExpiredAfterwards(t: nat, t': nat)
    requires t + 86_400_000 + 65536 <= t' <= NominalEnd(t) + 0x8000_0000
    ensures Expired(ExpiryAt(t), t')
  {
    ExpiryExact(t, t');
    ModUnique(0, t' - NominalEnd(t) - 1);
  }

  /** A lease nobody looked at for 2^31 ms after its end is reported as running again. */
  lemma ForgottenLeaseLooksFresh(t: nat, t': nat)
    requires NominalEnd(t) + HALF < t' <= NominalEnd(t) + TICKS
    ensures !Expired(ExpiryAt(t), t')
    ensures NominalEnd(0) == 86_441_983 && !Expired(ExpiryAt(0), 86_441_984 + HALF)
  {
    hide Expired, ExpiryAt;
    ExpiryExact(t, t');
    ModUnique(0, t' - NominalEnd(t) - 1);
    ExpiryExact(0, 86_441_984 + HALF);
  }

  // ----- the scan -----------------------------------------------------------------------

  /** One clock reading per slot; they never go back. */
  ghost predicate Readings(times: seq<nat>) {
    |times| == MAX_IP && forall i, j :: 0 <= i <= j < MAX_IP ==> times[i] <= times[j]
  }

  function Cleared(table: Table, i: nat): Table
    requires i < MAX_IP
  {
    table[i := table[i].(mac := ZERO_MAC)]
  }

  /** The scan from slot `i` on, with `chosen` the candidate so far (32 for none). */
  function Scan(table: Table, mac: Mac, times: seq<nat>, i: nat, chosen: nat): (r: (Table, nat))
    requires |times| == MAX_IP && i <= MAX_IP
    ensures chosen <= MAX_IP ==> r.1 <= MAX_IP
    decreases MAX_IP - i
  {
    if i == MAX_IP then (table, chosen)
    else if table[i].mac == mac then (table, i)
    else if chosen != MAX_IP then Scan(table, mac, times, i + 1, chosen)
    else if Expired(table[i].expiry, times[i]) then Scan(Cleared(table, i), mac, times, i + 1, i)
    else Scan(table, mac, times, i + 1, if table[i].mac == ZERO_MAC then i else MAX_IP)
  }

  predicate Available(table: Table, times: seq<nat>, i: nat)
    requires |times| == MAX_IP && i < MAX_IP
  {
    table[i].mac == ZERO_MAC || Expired(table[i].expiry, times[i])
  }

  /** `h` is the first slot from `i` on that holds `mac`, or 32. */
  ghost predicate FirstHolder(table: Table, mac: Mac, i: nat, h: nat) {
    && i <= h <= MAX_IP && (h < MAX_IP ==> table[h].mac == mac)
    && forall k :: i <= k < h ==> table[k].mac != mac
  }

  /** `a` is the first slot from `i` on that is free or expired, or 32. */
  ghost predicate FirstAvailable(table: Table, times: seq<nat>, i: nat, a: nat)
    requires |times| == MAX_IP
  {
    && i <= a <= MAX_IP && (a < MAX_IP ==> Available(table, times, a))
    && forall k :: i <= k < a ==> !Available(table, times, k)
  }

  /**
   Lease allocation: a client is given the first slot that already holds it; failing that, the
   first free or expired slot, now cleared; failing that, none. Nothing else changes but, at
   most, the first available slot, and only when it had expired before the client's was found.
   */
  lemma {:induction false} ScanAllocates(table: Table, mac: Mac, times: seq<nat>, i: nat, h: nat, a: nat)
    requires |times| == MAX_IP && i <= MAX_IP
    requires FirstHolder(table, mac, i, h) && FirstAvailable(table, times, i, a)
    ensures var (table', slot) := Scan(table, mac, times, i, MAX_IP);
            && slot == (if h < MAX_IP then h else a)
            && table' == (if a < h && Expired(table[a].expiry, times[a]) then Cleared(table, a) else table)
            && (h == MAX_IP && a < MAX_IP ==> table'[slot].mac == ZERO_MAC)
    decreases MAX_IP - i
  {
    if i < MAX_IP && table[i].mac != mac {
      if Available(table, times, i) {
        var table1 := if Expired(table[i].expiry, times[i]) then Cleared(table, i) else table;
        ScanWithChoice(table1, mac, times, i + 1, i, h);
      } else {
        ScanAllocates(table, mac, times, i + 1, h, a);
      }
    }
  }

  /** Once a candidate is chosen, the scan only looks for the client. */
  lemma {:induction false} ScanWithChoice(table: Table, mac: Mac, times: seq<nat>, i: nat, chosen: nat, h: nat)
    requires |times| == MAX_IP && i <= MAX_IP && chosen < MAX_IP
    requires FirstHolder(table, mac, i, h)
    ensures Scan(table, mac, times, i, chosen) == (table, if h < MAX_IP then h else chosen)
    decreases MAX_IP - i
  {
    if i < MAX_IP && table[i].mac != mac {
      ScanWithChoice(table, mac, times, i + 1, chosen, h);
    }
  }

  /** A scan leaves every lease alone that has not expired when its slot is looked at. */
  lemma {:induction false} ScanKeeps(table: Table, mac: Mac, times: seq<nat>, i: nat, chosen: nat, slot: nat)
    requires |times| == MAX_IP && i <= MAX_IP && slot < MAX_IP
    requires !Expired(table[slot].expiry, times[slot])
    ensures Scan(table, mac, times, i, chosen).0[slot] == table[slot]
    decreases MAX_IP - i
  {
    if i < MAX_IP && table[i].mac != mac {
      if chosen != MAX_IP {
        ScanKeeps(table, mac, times, i + 1, chosen, slot);
      } else if Expired(table[i].expiry, times[i]) {
        ScanKeeps(Cleared(table, i), mac, times, i + 1, i, slot);
      } else {
        ScanKeeps(table, mac, times, i + 1, if table[i].mac == ZERO_MAC then i else MAX_IP, slot);
      }
    }
  }

  /** Nor does it hand out the slot of such a lease to another client. */
  lemma {:induction false} ScanSkips(table: Table, mac: Mac, times: seq<nat>, i: nat, chosen: nat, slot: nat)
    requires |times| == MAX_IP && i <= MAX_IP && slot < MAX_IP && chosen != slot
    requires table[slot].mac != ZERO_MAC && table[slot].mac != mac && !Expired(table[slot].expiry, times[slot])
    ensures Scan(table, mac, times, i, chosen).1 != slot
    decreases MAX_IP - i
  {
    hide Expired;
    if i < MAX_IP && table[i].mac != mac {
      if chosen != MAX_IP {
        ScanSkips(table, mac, times, i + 1, chosen, slot);
      } else if Expired(table[i].expiry, times[i]) {
        ScanSkips(Cleared(table, i), mac, times, i + 1, i, slot);
      } else {
        ScanSkips(table, mac, times, i + 1, if table[i].mac == ZERO_MAC then i else MAX_IP, slot);
      }
    }
  }

  /** The slot is free, or leased to `mac`. */
  predicate OpenTo(table: Table, slot: nat, mac: Mac)
    requires slot < MAX_IP
  {
    table[slot].mac == mac || table[slot].mac == ZERO_MAC
  }

  /** A scan gives no slot to anyone; it only frees slots. */
  lemma {:induction false} ScanOnlyFrees(table: Table, mac: Mac, times: seq<nat>, i: nat, chosen: nat, slot: nat)
    requires |times| == MAX_IP && i <= MAX_IP && slot < MAX_IP
    ensures OpenTo(Scan(table, mac, times, i, chosen).0, slot, table[slot].mac)
    decreases MAX_IP - i
  {
    hide Expired;
    if i < MAX_IP && table[i].mac != mac {
      if chosen != MAX_IP {
        ScanOnlyFrees(table, mac, times, i + 1, chosen, slot);
      } else if Expired(table[i].expiry, times[i]) {
        ScanOnlyFrees(Cleared(table, i), mac, times, i + 1, i, slot);
      } else {
        ScanOnlyFrees(table, mac, times, i + 1, if table[i].mac == ZERO_MAC then i else MAX_IP, slot);
      }
    }
  }

  /** The slot a scan hands out is the client's own or free. */
  lemma {:induction false} ScanHandsOutOpen(table: Table, mac: Mac, times: seq<nat>, i: nat, chosen: nat)
    requires |times| == MAX_IP && i <= MAX_IP && chosen <= MAX_IP
    requires chosen < MAX_IP ==> table[chosen].mac == ZERO_MAC
    ensures var (table', slot) := Scan(table, mac, times, i, chosen);
            slot < MAX_IP ==> OpenTo(table', slot, mac)
    decreases MAX_IP - i
  {
    hide Expired;
    if i < MAX_IP && table[i].mac != mac {
      if chosen != MAX_IP {
        ScanHandsOutOpen(table, mac, times, i + 1, chosen);
      } else if Expired(table[i].expiry, times[i]) {
        ScanHandsOutOpen(Cleared(table, i), mac, times, i + 1, i);
      } else {
        ScanHandsOutOpen(table, mac, times, i + 1, if table[i].mac == ZERO_MAC then i else MAX_IP);
      }
    }
  }

  // ----- requests and runs --------------------------------------------------------------

  datatype Request =
    | Discover(mac: Mac)
    | Claim(mac: Mac, ip: Ip)    // DHCPREQUEST with the requested address
    | Ignored                    // no message type, another type, or no requested address

  datatype Outcome =
    | Silent
    | Offer(slot: nat)
    | Ack(slot: nat)

  /** The slot of an address in the server's network; 32 or more when it has none. */
  function SlotOf(ip: Ip): nat {
    (ip[3] + 256 - BASE_IP) % 256
  }

  /** The slots are the addresses whose last byte is 16 to 47. */
  lemma SlotOfAddress(ip: Ip)
    ensures SlotOf(ip) < 32 <==> 16 <= ip[3] < 48
    ensures SlotOf(ip) < 32 ==> ip[3] == 16 + SlotOf(ip)
  {
  }

  /** The effect of one request on the table; a claim reads the clock once. */
  function Step(table: Table, server: Ip, req: Request, times: seq<nat>): (Table, Outcome)
    requires |times| == MAX_IP
  {
    match req
    case Ignored => (table, Silent)
    case Discover(mac) =>
      var (table', slot) := Scan(table, mac, times, 0, MAX_IP);
      (table', if slot == MAX_IP then Silent else Offer(slot))
    case Claim(mac, ip) =>
      var slot := SlotOf(ip);
      if ip[..3] != server[..3] || slot >= MAX_IP then (table, Silent)
      else if table[slot].mac == mac || table[slot].mac == ZERO_MAC then
        (table[slot := Lease(mac, ExpiryAt(times[0]))], Ack(slot))
      else (table, Silent)
  }

  /** A DHCPDISCOVER is offered the slot the scan finds, and is met with silence only when there is none. */
  lemma DiscoverIsOffered(table: Table, server: Ip, mac: Mac, times: seq<nat>, h: nat, a: nat)
    requires |times| == MAX_IP && FirstHolder(table, mac, 0, h) && FirstAvailable(table, times, 0, a)
    ensures Step(table, server, Discover(mac), times).1
         == if h < 32 then Offer(h) else if a < 32 then Offer(a) else Silent
  {
    ScanAllocates(table, mac, times, 0, h, a);
  }

  /** The first slot from `i` on that holds `mac`, or 32. */
  lemma {:induction false} HolderExists(table: Table, mac: Mac, i: nat) returns (h: nat)
    requires i <= MAX_IP
    ensures FirstHolder(table, mac, i, h)
    decreases MAX_IP - i
  {
    if i == MAX_IP || table[i].mac == mac {
      h := i;
    } else {
      h := HolderExists(table, mac, i + 1);
    }
  }

  lemma {:induction false} AvailableExists(table: Table, times: seq<nat>, i: nat) returns (a: nat)
    requires i <= MAX_IP && |times| == MAX_IP
    ensures FirstAvailable(table, times, i, a)
    decreases MAX_IP - i
  {
    if i == MAX_IP || Available(table, times, i) {
      a := i;
    } else {
      a := AvailableExists(table, times, i + 1);
    }
  }

  /**
   Addresses are not lost: a DHCPDISCOVER is offered one as long as there is a slot that is the
   client's own, free, or leased at a time `t` more than a day and 65,536 ms ago (and not 2^31 ms
   past its end).
   */
  lemma DiscoverIsServed(table: Table, server: Ip, mac: Mac, times: seq<nat>, i: nat, t: nat)
    requires |times| == 32 && i < 32
    requires || table[i].mac == mac || table[i].mac == [0, 0, 0, 0, 0, 0]
             || (table[i].expiry == ExpiryAt(t) && t + 86_465_536 <= times[i] <= t + 86_400_000 + 0x8000_0000)
    ensures Step(table, server, Discover(mac), times).1.Offer?
  {
    hide Step, Expired, ExpiryAt;
    if t + 86_465_536 <= times[i] <= t + 86_400_000 + 0x8000_0000 {
      ExpiredAfterwards(t, times[i]);
    }
    var h := HolderExists(table, mac, 0);
    var a := AvailableExists(table, times, 0);
    assert table[i].mac == mac || Available(table, times, i);
    assert h <= i || a <= i;
    DiscoverIsOffered(table, server, mac, times, h, a);
  }

  /**
   A DHCPREQUEST is acknowledged for an address of the server's network that ends in 16 to 47 and
   is free or the client's own, and for no other; the client then has it from that moment.
   */
  lemma ClaimIsAnswered(table: Table, server: Ip, mac: Mac, ip: Ip, times: seq<nat>)
    requires |times| == MAX_IP
    ensures var (table', outcome) := Step(table, server, Claim(mac, ip), times);
            if ip[..3] == server[..3] && 16 <= ip[3] < 48 && OpenTo(table, ip[3] - 16, mac) then
              outcome == Ack(ip[3] - 16) && Held(table', ip[3] - 16, mac, times[0])
            else
              outcome == Silent && table' == table
  {
    SlotOfAddress(ip);
  }

  /** A request and the clock readings made while handling it. */
  datatype Turn = Turn(req: Request, times: seq<nat>)

  /** Any requests in any order; the clock never goes back, within a turn or between turns. */
  ghost predicate Run(turns: seq<Turn>) {
    && (forall k :: 0 <= k < |turns| ==> Readings(turns[k].times))
    && forall j, k :: 0 <= j < k < |turns| ==> turns[j].times[MAX_IP - 1] <= turns[k].times[0]
  }

  /** The table after all of `turns`. */
  ghost function After(table: Table, server: Ip, turns: seq<Turn>): Table
    requires forall k :: 0 <= k < |turns| ==> |turns[k].times| == MAX_IP
  {
    if turns == [] then table
    else
      var last := turns[|turns| - 1];
      Step(After(table, server, turns[..|turns| - 1]), server, last.req, last.times).0
  }

  lemma RunSnoc(turns: seq<Turn>, turn: Turn)
    requires Run(turns) && Readings(turn.times)
    requires turns != [] ==> turns[|turns| - 1].times[MAX_IP - 1] <= turn.times[0]
    ensures Run(turns + [turn])
  {
    var all := turns + [turn];
    forall j, k | 0 <= j < k < |all| ensures all[j].times[MAX_IP - 1] <= all[k].times[0] {
      if k == |turns| && j < k - 1 {
        assert turns[j].times[MAX_IP - 1] <= turns[k - 1].times[0] <= turns[k - 1].times[MAX_IP - 1];
      }
    }
  }

  /** What the server answers in turn `k`. */
  ghost function Answer(table: Table, server: Ip, turns: seq<Turn>, k: nat): Outcome
    requires k < |turns| && forall i :: 0 <= i < |turns| ==> |turns[i].times| == MAX_IP
  {
    Step(After(table, server, turns[..k]), server, turns[k].req, turns[k].times).1
  }

  /** The slot is leased to `mac` by a grant at `since`. */
  predicate Held(table: Table, slot: nat, mac: Mac, since: nat)
    requires slot < MAX_IP
  {
    table[slot] == Lease(mac, ExpiryAt(since))
  }

  /** Within the lease time, a turn can only renew a lease, never end it or grant it to another. */
  lemma HeldThroughTurn(table: Table, server: Ip, turn: Turn, slot: nat, mac: Mac, since: nat)
      returns (since': nat)
    requires slot < MAX_IP && mac != ZERO_MAC && Held(table, slot, mac, since) && Readings(turn.times)
    requires since <= turn.times[0] && turn.times[MAX_IP - 1] <= since + 86_400_000
    ensures Held(Step(table, server, turn.req, turn.times).0, slot, mac, since')
    ensures since <= since' <= turn.times[0]
  {
    since' := since;
    match turn.req
    case Ignored =>
    case Discover(other) =>
      NeverExpiredEarly(since, turn.times[slot]);
      ScanKeeps(table, other, turn.times, 0, MAX_IP, slot);
    case Claim(other, ip) =>
      if Step(table, server, turn.req, turn.times).1 == Ack(slot) {
        since' := turn.times[0];
      }
  }

  lemma {:induction false} HeldThroughRun(table: Table, server: Ip, turns: seq<Turn>, j: nat, slot: nat)
      returns (since: nat)
    requires Run(turns) && j < |turns| && slot < MAX_IP
    requires Answer(table, server, turns, j) == Ack(slot) && turns[j].req.mac != ZERO_MAC
    requires turns[|turns| - 1].times[MAX_IP - 1] <= turns[j].times[0] + LEASE_MS
    ensures Held(After(table, server, turns), slot, turns[j].req.mac, since)
    ensures turns[j].times[0] <= since <= turns[|turns| - 1].times[MAX_IP - 1]
    decreases |turns|
  {
    var init, last := turns[..|turns| - 1], turns[|turns| - 1];
    if j == |init| {
      since := last.times[0];
    } else {
      assert init[..j] == turns[..j] && Answer(table, server, init, j) == Answer(table, server, turns, j);
      assert init[|init| - 1] == turns[|init| - 1];
      since := HeldThroughRun(table, server, init, j, slot);
      since := HeldThroughTurn(After(table, server, init), server, last, slot, turns[j].req.mac, since);
    }
  }

  /** In a turn that looks at the lease within its time, no other client is answered with its slot. */
  lemma HeldIsRefused(table: Table, server: Ip, turn: Turn, slot: nat, mac: Mac, since: nat)
    requires slot < MAX_IP && mac != ZERO_MAC && Held(table, slot, mac, since) && Readings(turn.times)
    requires !turn.req.Ignored? && turn.req.mac != mac
    ensures Step(table, server, turn.req, turn.times).1 != Ack(slot)
    ensures since <= turn.times[slot] <= since + LEASE_MS ==> Step(table, server, turn.req, turn.times).1 != Offer(slot)
  {
    hide Expired, ExpiryAt, Scan;
    if turn.req.Discover? && since <= turn.times[slot] <= since + LEASE_MS {
      NeverExpiredEarly(since, turn.times[slot]);
      ScanSkips(table, turn.req.mac, turn.times, 0, MAX_IP, slot);
    }
  }

  /**
   Exclusivity: after an address is granted to a client with a non-zero MAC, it is neither granted
   nor offered to another client until more than the lease time later, whatever requests come in
   between, from whatever table, and however often the 32-bit tick wraps. The moment of a grant is
   its one clock reading; that of an offer is the reading made at the slot.
   */
  lemma GrantIsExclusive(table: Table, server: Ip, turns: seq<Turn>, j: nat, k: nat, slot: nat)
    requires Run(turns) && j < k < |turns| && slot < MAX_IP
    requires Answer(table, server, turns, j) == Ack(slot)
    requires Answer(table, server, turns, k) in {Ack(slot), Offer(slot)}
    requires turns[j].req.mac != ZERO_MAC && turns[k].req.mac != turns[j].req.mac
    ensures turns[k].times[if Answer(table, server, turns, k).Ack? then 0 else slot] > turns[j].times[0] + 86_400_000
  {
    hide Scan, ExpiryAt, Expired, After;
    var at := if Answer(table, server, turns, k).Ack? then 0 else slot;
    if turns[k].times[at] <= turns[j].times[0] + LEASE_MS {
      var before := turns[..k];
      assert before[..j] == turns[..j] && Answer(table, server, before, j) == Answer(table, server, turns, j);
      var since := HeldThroughRun(table, server, before, j, slot);
      HeldIsRefused(After(table, server, before), server, turns[k], slot, turns[j].req.mac, since);
    }
  }

  /** A turn leaves a slot open to a client unless it grants it to another. */
  lemma OpenThroughTurn(table: Table, server: Ip, turn: Turn, slot: nat, mac: Mac)
    requires slot < MAX_IP && |turn.times| == MAX_IP && OpenTo(table, slot, mac)
    requires Step(table, server, turn.req, turn.times).1 == Ack(slot) ==> turn.req.mac == mac
    ensures OpenTo(Step(table, server, turn.req, turn.times).0, slot, mac)
  {
    hide Scan, ExpiryAt;
    if turn.req.Discover? {
      ScanOnlyFrees(table, turn.req.mac, turn.times, 0, MAX_IP, slot);
    }
  }

  /** No turn from `j + 1` to `k - 1` grants the slot to a client other than that of turn `j`. */
  ghost predicate NoOtherGrant(table: Table, server: Ip, turns: seq<Turn>, j: nat, k: nat, slot: nat)
    requires j < k <= |turns| && !turns[j].req.Ignored?
    requires forall i :: 0 <= i < |turns| ==> |turns[i].times| == MAX_IP
  {
    forall i :: j < i < k && Answer(table, server, turns, i) == Ack(slot) ==> turns[i].req.mac == turns[j].req.mac
  }

  lemma {:induction false} OfferStands(table: Table, server: Ip, turns: seq<Turn>, j: nat, k: nat, slot: nat)
    requires Run(turns) && j < k <= |turns| && slot < MAX_IP
    requires Answer(table, server, turns, j) == Offer(slot) && NoOtherGrant(table, server, turns, j, k, slot)
    ensures OpenTo(After(table, server, turns[..k]), slot, turns[j].req.mac)
    decreases k
  {
    hide Scan, ExpiryAt, SlotOf;
    var last := turns[k - 1];
    var before := After(table, server, turns[..k - 1]);
    assert turns[..k][..k - 1] == turns[..k - 1] && turns[..k][k - 1] == last;
    assert After(table, server, turns[..k]) == Step(before, server, last.req, last.times).0;
    if j == k - 1 {
      ScanHandsOutOpen(before, last.req.mac, last.times, 0, MAX_IP);
    } else {
      OfferStands(table, server, turns, j, k - 1, slot);
      assert Answer(table, server, turns, k - 1) == Step(before, server, last.req, last.times).1;
      OpenThroughTurn(before, server, last, slot, turns[j].req.mac);
    }
  }

  /** The address of a slot in the server's network. */
  function AddressOf(server: Ip, slot: nat): Ip
    requires slot < 32
  {
    server[..3] + [16 + slot]
  }

  /**
   The handshake completes: an address offered to a client is granted to it when it asks, unless
   another client was granted the address in between, whatever else was requested.
   */
  lemma OfferIsHonoured(table: Table, server: Ip, turns: seq<Turn>, j: nat, k: nat, slot: nat)
    requires Run(turns) && j < k < |turns| && slot < MAX_IP
    requires Answer(table, server, turns, j) == Offer(slot)
    requires turns[k].req == Claim(turns[j].req.mac, AddressOf(server, slot))
    ensures NoOtherGrant(table, server, turns, j, k, slot) ==> Answer(table, server, turns, k) == Ack(slot)
    ensures Answer(table, server, turns, k)
         == if OpenTo(After(table, server, turns[..k]), slot, turns[j].req.mac) then Ack(slot) else Silent
  {
    hide Scan, ExpiryAt, SlotOf;
    ClaimIsAnswered(After(table, server, turns[..k]), server, turns[k].req.mac, turns[k].req.ip, turns[k].times);
    if NoOtherGrant(table, server, turns, j, k, slot) {
      OfferStands(table, server, turns, j, k, slot);
    }
  }

  /** The zero MAC is the mark of a free slot: what is granted to it can be granted to anyone at once. */
  lemma ZeroMacIsNotExclusive(table: Table, server: Ip, ip: Ip, other: Mac, times: seq<nat>)
    requires Readings(times) && ip[..3] == server[..3] && SlotOf(ip) < MAX_IP
    requires table[SlotOf(ip)].mac == ZERO_MAC && times[0] == times[MAX_IP - 1]
    ensures var turns := [Turn(Claim(ZERO_MAC, ip), times), Turn(Claim(other, ip), times)];
            && Run(turns)
            && Answer(table, server, turns, 0) == Ack(SlotOf(ip)) && Answer(table, server, turns, 1) == Ack(SlotOf(ip))
  {
    var turns := [Turn(Claim(ZERO_MAC, ip), times), Turn(Claim(other, ip), times)];
    assert turns[..0] == [] && turns[..1][..0] == [] && turns[..1][0] == turns[0];
  }
}
