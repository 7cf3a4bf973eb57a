/** A run in which a full cache makes the router ask twice for one address within one second. */
module RateLimit {
  import opened Bytes
  import opened IpHeader
  import opened Icmp
  import opened Routing
  import opened ArpState
  import opened Reactions
  import opened History
  import opened Invariants
  import opened System
  import opened Theorems
  import opened Scenario
  import Arp

  const GATE := Ip4(10, 0, 0, 2)
  const ETH0 := Iface("eth0", Mac(2, 0, 0, 0, 0, 1), Ip4(10, 0, 0, 1))
  const CFG := Config([ETH0], [Route(ZERO_IP, GATE, ZERO_IP, "eth0")])

  function Neighbour(k: nat): Ip4
    requires k < CACHE_SIZE
  {
    Ip4(10, 0, 1, k)
  }

  /** The owner of ip says hello to eth0. */
  function Hello(ip: Ip4): Step
  {
    Receive(Greeting(Iface("", ZERO_MAC, ip), ETH0), ETH0.name)
  }

  /** The first n entries hold neighbours and nothing is pending. */
  ghost predicate Filled(st: Sys, n: nat)
  {
    && st.pc == Ready && st.clock == 0
    && |st.shared.entries| == CACHE_SIZE && st.shared.requests == []
    && n <= CACHE_SIZE
    && (forall k :: 0 <= k < n ==> st.shared.entries[k].valid && st.shared.entries[k].ip == Neighbour(k))
    && (forall k :: n <= k < CACHE_SIZE ==> !st.shared.entries[k].valid)
  }

  lemma NeighbourSlot(entries: seq<Entry>, n: nat)
    requires n < |entries| == CACHE_SIZE
    requires forall k :: 0 <= k < n ==> entries[k].valid && entries[k].ip == Neighbour(k)
    requires forall k :: n <= k < CACHE_SIZE ==> !entries[k].valid
    ensures Slot(entries, Neighbour(n)) == Some(n)
  {
    hide FirstHit, FirstFree;
    assert forall k :: 0 <= k < n ==> Neighbour(k) != Neighbour(n);
    assert !entries[n].valid;
    var free := FirstFree(entries);
    assert free.Some? && !(free.value < n) && !(free.value > n);
  }

  /** Two steps take one more neighbour in. */
  lemma FillsOne(st: Sys, n: nat)
    requires Filled(st, n) && n < CACHE_SIZE
    ensures Filled(Then(CFG, Then(CFG, st, Hello(Neighbour(n))), Proceed), n + 1)
  {
    hide Slot, Greeting, Then;
    Greeted(CFG, st, Iface("", ZERO_MAC, Neighbour(n)), ETH0);
    NeighbourSlot(st.shared.entries, n);
  }

  function Filling(n: nat): seq<Action>
    requires n <= CACHE_SIZE
  {
    if n == 0 then []
    else After(After(Filling(n - 1), Hello(Neighbour(n - 1))), Proceed)
  }

  lemma {:induction false} FillingFills(n: nat)
    requires n <= CACHE_SIZE
    ensures Filled(Run(CFG, Filling(n)), n)
  {
    hide Then, Filled, Hello, Run, Neighbour, After;
    if n == 0 {
      InitIsEmpty();
    } else {
      FillingFills(n - 1);
      var hello, run := Hello(Neighbour(n - 1)), Filling(n - 1);
      RunAfter(CFG, run, hello);
      RunAfter(CFG, After(run, hello), Proceed);
      FillsOne(Run(CFG, run), n - 1);
    }
  }

  lemma InitIsEmpty()
    ensures Filled(Run(CFG, []), 0)
  {
  }

  /** A valid datagram for a host behind the gate. */
  function Datagram(): (f: Frame)
    ensures WellFormed(f) && U16(f, 12) == 0x0800 && f[IP_TTL] == INIT_TTL && IpAt(f, IP_DST) == Ip4(172, 16, 0, 1)
  {
    Sealed(ErrorHeaders(PutIp(seq(34, _ => 0 as byte), IP_SRC, Ip4(172, 16, 0, 1)), ETH0))
  }

  lemma DatagramValid()
    ensures ValidIp(Datagram()) && ValidIp(DecTtl(Datagram()))
    ensures IpAt(DecTtl(Datagram()), IP_DST) == Ip4(172, 16, 0, 1)
  {
    hide ErrorHeaders, Sealed, ValidIp;
    SealedIsValid(ErrorHeaders(PutIp(seq(34, _ => 0 as byte), IP_SRC, Ip4(172, 16, 0, 1)), ETH0));
    hide Datagram, DecTtl;
    DecTtlIsIncrementalUpdate(Datagram());
  }

  lemma DatagramForwarded()
    ensures ValidIp(DecTtl(Datagram())) && IpAt(DecTtl(Datagram()), IP_DST) == Ip4(172, 16, 0, 1)
    ensures React(CFG, Datagram(), Some(ETH0)) == SendRouted(DecTtl(Datagram()), Forwarded(Datagram()))
    ensures FindIface(CFG.ifs, ETH0.name) == Some(ETH0)
  {
    hide Datagram, Sealed, ErrorAbout, EchoReply, ChecksMessage, DecTtl, Lpm, ArpReaction, LocalReaction;
    hide ErrorReaction;
    DatagramValid();
    OneRoute(Ip4(172, 16, 0, 1));
    hide ValidIp;
    assert !IsRouterIp(CFG, IpAt(Datagram(), IP_DST));
  }

  lemma OneRoute(ip: Ip4)
    ensures Lpm(CFG, ip) == Some(CFG.table[0])
  {
    hide Value, BitAnd;
    ZeroMask(CFG.table[0], ip);
  }

  lemma ZeroMask(r: Route, ip: Ip4)
    requires r.mask == ZERO_IP
    ensures Matches(r, ip)
  {
  }

  /** The datagram on its way to the gate. */
  function GateCopy(): Packet
  {
    Packet(PutMac(DecTtl(Datagram()), SHOST, ETH0.mac), ETH0.name, Forwarded(Datagram()))
  }

  lemma DatagramRouted()
    ensures ValidIp(DecTtl(Datagram()))
    ensures NextHop(CFG, DecTtl(Datagram()), Forwarded(Datagram())) == Some(Outgoing(GATE, GateCopy()))
  {
    DatagramForwarded();
    hide DecTtl, Datagram, ValidIp, Lpm;
    OneRoute(Ip4(172, 16, 0, 1));
  }

  lemma DatagramStep(st: Sys)
    requires st.pc == Ready && st.clock == 0 && Lookup(st.shared.entries, GATE).None?
    ensures Then(CFG, Then(CFG, st, Receive(Datagram(), ETH0.name)), Proceed) ==
            Sys(QueueAndAsk(st.shared, CFG, GATE, GateCopy(), 0), 0, Ready)
  {
    hide React, FindIface, NextHop, QueueAndAsk, DecTtl, Datagram, GateCopy, Lookup, Deliver, Insert, Detached;
    hide Sweep, ValidIp;
    DatagramForwarded();
    DatagramRouted();
  }

  lemma CopyIsLong()
    ensures |GateCopy().buf| >= ETH + 20 && FindIface(CFG.ifs, GateCopy().iface) == Some(ETH0)
  {
    hide DecTtl, Datagram;
    DatagramForwarded();
  }

  lemma Absent(entries: seq<Entry>)
    requires |entries| == CACHE_SIZE
    requires forall k :: 0 <= k < CACHE_SIZE ==> entries[k].valid && entries[k].ip == Neighbour(k)
    ensures Lookup(entries, GATE).None? && Slot(entries, GATE).None?
  {
    hide Lookup, FirstHit, FirstFree;
    LookupIsMembership(entries, GATE);
    assert forall k :: 0 <= k < CACHE_SIZE ==> Neighbour(k) != GATE;
  }

  /** With the cache full of neighbours the datagram is queued and the gate asked for. */
  lemma DatagramAsks(st: Sys)
    requires Filled(st, CACHE_SIZE)
    ensures var t := Then(CFG, Then(CFG, st, Receive(Datagram(), ETH0.name)), Proceed);
            && t == Sys(Opened(st.shared, CFG, GATE, GateCopy(), 0), 0, Ready)
            && |st.shared.log| < |t.shared.log| && st.shared.log <= t.shared.log
            && AskedBefore(t.shared.log[|t.shared.log| - 1], GATE, 1)
  {
    hide FindIface, QueueAndAsk, Datagram, GateCopy, Lookup, Then, Slot;
    Absent(st.shared.entries);
    CopyIsLong();
    DatagramStep(st);
    QueueAndAskCases(CFG, st.shared, GATE, GateCopy(), 0);
  }

  /** The gate's own ARP message then finds no slot: the frame is flushed and the gate forgotten. */
  lemma GateForgotten(st: Sys)
    requires Filled(st, CACHE_SIZE)
    ensures var s := Sys(Opened(st.shared, CFG, GATE, GateCopy(), 0), 0, Ready);
            var t := Then(CFG, Then(CFG, Then(CFG, s, Hello(GATE)), Proceed), Proceed);
            Filled(t, CACHE_SIZE) && s.shared.log <= t.shared.log
  {
    hide FindIface, Then, Greeting, GateCopy, Slot, Insert, Detached, IndexOf, Deliver, Neighbour;
    hide Arp.RequestFrame, Arp.ReplyFrame;
    CopyIsLong();
    var s := Opened(st.shared, CFG, GATE, GateCopy(), 0);
    GreetingStep(CFG, Sys(s, 0, Ready), Iface("", ZERO_MAC, GATE), ETH0);
    Absent(st.shared.entries);
    GateDetached(s);
    var first := Then(CFG, Sys(s, 0, Ready), Hello(GATE));
    FlushedLast(first);
    Answered(CFG, Then(CFG, first, Proceed));
  }

  lemma GateDetached(s: Shared)
    requires |s.requests| == 1 && s.requests[0].ip == GATE && Slot(s.entries, GATE).None?
    ensures Detached(s, GATE) == Some(s.requests[0])
    ensures var t := Insert(s, ZERO_MAC, GATE, 0); t.entries == s.entries && t.requests == [] && s.log <= t.log
  {
    hide Slot;
    assert IndexOf(s.requests, GATE) == Some(0);
  }

  lemma FlushedLast(st: Sys)
    requires st.pc.Flushing? && |st.pc.packets| == 1 && st.clock == 0
    ensures Then(CFG, st, Proceed) ==
            Sys(Deliver(st.shared, CFG, st.pc.ip, st.pc.packets[0], st.pc.mac, true), 0, st.pc.(packets := []))
    ensures var t := Deliver(st.shared, CFG, st.pc.ip, st.pc.packets[0], st.pc.mac, true);
            t.entries == st.shared.entries && t.requests == st.shared.requests && st.shared.log <= t.log
  {
    hide FindIface, Addressed;
    assert st.pc.packets[1..] == [];
  }

  predicate AskedTogether(log: Log, i: nat, j: nat)
  {
    i < j < |log| && log[i].Asked? && log[j].Asked? && log[i].ip == log[j].ip && log[i].time == log[j].time
  }

  lemma SameSecond(log: Log, i: nat, j: nat)
    requires i < j < |log| && AskedBefore(log[i], GATE, 1) && AskedBefore(log[j], GATE, 1)
    ensures AskedTogether(log, i, j)
  {
  }

  /** The rate limit does not hold without its condition: in this run the router asks twice for the
      gate at the same time, because in between it accepted the gate's mapping and had no slot for it. */
  lemma RateLimitNeedsSlots()
    ensures Consistent(CFG) && exists run, i, j :: AskedTogether(Run(CFG, run).shared.log, i, j)
  {
    hide Apply, Then, Filling, Datagram, AskedBefore, Hello, Run, Filled, Opened, GateCopy, AskedTogether, After;
    FillingFills(CACHE_SIZE);
    var data, run := Receive(Datagram(), ETH0.name), Filling(CACHE_SIZE);
    var r1 := After(After(run, data), Proceed);
    var r2 := After(After(After(r1, Hello(GATE)), Proceed), Proceed);
    var r3 := After(After(r2, data), Proceed);
    RunAfter(CFG, run, data);
    RunAfter(CFG, After(run, data), Proceed);
    RunAfter(CFG, r1, Hello(GATE));
    RunAfter(CFG, After(r1, Hello(GATE)), Proceed);
    RunAfter(CFG, After(After(r1, Hello(GATE)), Proceed), Proceed);
    RunAfter(CFG, r2, data);
    RunAfter(CFG, After(r2, data), Proceed);
    DatagramAsks(Run(CFG, run));
    GateForgotten(Run(CFG, run));
    DatagramAsks(Run(CFG, r2));
    var first, last := Run(CFG, r1).shared.log, Run(CFG, r3).shared.log;
    assert last[|first| - 1] == first[|first| - 1];
    SameSecond(last, |first| - 1, |last| - 1);
  }
}
