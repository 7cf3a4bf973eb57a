/** Runs in which frames are lost or errors are reported by errors, because the gate is silent. */
module LostFrame {
  import opened Bytes
  import opened IpHeader
  import opened Icmp
  import opened Routing
  import opened ArpState
  import opened Reactions
  import opened History
  import opened Invariants
  import opened Loss
  import opened Sections
  import opened System
  import opened Theorems
  import opened Scenario
  import opened RateLimit
  import Arp

  /** p waits for the gate, which was asked for n times, last at n - 1. */
  ghost predicate Unanswered(st: Sys, n: nat, p: Packet)
  {
    && st.pc == Ready && 1 <= n && st.clock == n - 1
    && (forall k :: 0 <= k < |st.shared.entries| ==> !st.shared.entries[k].valid)
    && st.shared.requests == [Request(0, GATE, n - 1, n, [p])]
  }

  lemma NothingCached(entries: seq<Entry>, ip: Ip4)
    requires forall k :: 0 <= k < |entries| ==> !entries[k].valid
    ensures Lookup(entries, ip).None?
  {
    hide Lookup;
    LookupIsMembership(entries, ip);
  }

  lemma FirstAsk(p: Packet)
    requires Good(CFG, GATE, p)
    ensures var t := QueueAndAsk(Init().shared, CFG, GATE, p, 0); Unanswered(Sys(t, 0, Ready), 1, p)
  {
    hide QueueAndAsk, Good, FindIface, Arp.RequestFrame;
    GoodIsLong(CFG, GATE, p);
    QueueAndAskCases(CFG, Init().shared, GATE, p, 0);
  }

  lemma NothingAges(entries: seq<Entry>, now: nat)
    requires forall k :: 0 <= k < |entries| ==> !entries[k].valid
    ensures AgedEntries(entries, now) == entries
  {
    assert forall k :: 0 <= k < |entries| ==> AgedEntries(entries, now)[k] == entries[k];
  }

  /** A sweep over one request. */
  lemma OneVisit(s: Shared, now: nat)
    requires |s.requests| == 1 && forall k :: 0 <= k < |s.entries| ==> !s.entries[k].valid
    ensures Tick(s, CFG, now) == Visit(s, CFG, 1, now)
  {
    hide Visit;
    NothingAges(s.entries, now);
    var t := Visit(s, CFG, 1, now);
    assert SweepFrom(t, CFG, 0, now) == t;
    assert SweepFrom(s, CFG, 1, now) == t;
  }

  lemma AsksAgain(st: Sys, n: nat, p: Packet)
    requires Unanswered(st, n, p) && n < MAX_ASKS
    ensures Unanswered(ThenAt(CFG, st, Timer, n), n + 1, p)
  {
    hide Tick, AskEvent;
    OneVisit(st.shared, n);
  }

  /** The fifth request unanswered for a second, the request expires. */
  lemma Expires(run: seq<Action>, p: Packet)
    requires Unanswered(Run(CFG, run), MAX_ASKS, p)
    ensures ExpiredAtEnd(Run(CFG, AfterAt(run, Timer, MAX_ASKS)).shared.log, p)
  {
    hide Run, PcOk, Inv, Tick, ReportAll, LastAccepted;
    var st := Run(CFG, run);
    RunAfterAt(CFG, run, Timer, MAX_ASKS);
    RunKeepsInv(CFG, run);
    TimePasses(CFG, st.shared, st.clock, MAX_ASKS, multiset{});
    OneVisit(st.shared, MAX_ASKS);
    ExpireKeeps(CFG, st.shared, 1, MAX_ASKS, multiset{});
  }

  predicate ExpiredAtEnd(log: Log, p: Packet)
  {
    log != [] && log[|log| - 1].Expired? && log[|log| - 1].request.ip == GATE && log[|log| - 1].reported == [p]
  }

  /** Five timer iterations, a second apart, later p is given up. */
  lemma GivenUp(run: seq<Action>, p: Packet) returns (longer: seq<Action>)
    requires Unanswered(Run(CFG, run), 1, p)
    ensures ExpiredAtEnd(Run(CFG, longer).shared.log, p)
  {
    hide Run, AfterAt, ThenAt, Unanswered, ExpiredAtEnd;
    var r2, r3 := AfterAt(run, Timer, 1), AfterAt(AfterAt(run, Timer, 1), Timer, 2);
    var r4, r5 := AfterAt(r3, Timer, 3), AfterAt(AfterAt(r3, Timer, 3), Timer, 4);
    RunAfterAt(CFG, run, Timer, 1);
    RunAfterAt(CFG, r2, Timer, 2);
    RunAfterAt(CFG, r3, Timer, 3);
    RunAfterAt(CFG, r4, Timer, 4);
    AsksAgain(Run(CFG, run), 1, p);
    AsksAgain(Run(CFG, r2), 2, p);
    AsksAgain(Run(CFG, r3), 3, p);
    AsksAgain(Run(CFG, r4), 4, p);
    Expires(r5, p);
    longer := AfterAt(r5, Timer, 5);
  }

  // ----- what the router sends in these runs -----

  /** Whatever the router routes goes to the gate. */
  lemma AllToGate(f: Frame, origin: Origin)
    requires |f| >= ETH + 20
    ensures NextHop(CFG, f, origin).Some? && NextHop(CFG, f, origin).value.hop == GATE
  {
    hide Lpm;
    OneRoute(IpAt(f, IP_DST));
  }

  /** The copy of a frame that leaves for the gate. */
  function ToGate(f: Frame, origin: Origin): Packet
    requires |f| >= ETH + 20
  {
    AllToGate(f, origin);
    NextHop(CFG, f, origin).value.pkt
  }

  /** A frame makes the router route another one, which then waits for the gate. */
  lemma MakesWait(f: Frame, g: Frame, origin: Origin)
    requires React(CFG, f, Some(ETH0)) == SendRouted(g, origin) && ValidIp(g) && Makes(CFG, origin, g)
    ensures |g| >= ETH + 20
    ensures Unanswered(Run(CFG, After(After([], Receive(f, ETH0.name)), Proceed)), 1, ToGate(g, origin))
    ensures Good(CFG, GATE, ToGate(g, origin))
  {
    ValidIsLong(g);
    hide React, ValidIp, Makes, NextHop, Good, QueueAndAsk, Lookup, FindIface, Unanswered, Run, Then, After, Init;
    RunAfter(CFG, [], Receive(f, ETH0.name));
    RunAfter(CFG, After([], Receive(f, ETH0.name)), Proceed);
    NoStepsIn(CFG);
    FirstIface();
    NothingYet(GATE);
    AllToGate(g, origin);
    NextHopIsGood(CFG, g, origin);
    QueuedSteps(CFG, Init(), f, ETH0, g, origin);
    FirstAsk(ToGate(g, origin));
  }

  lemma NothingYet(ip: Ip4)
    ensures Init().pc == Ready && Init().clock == 0 && Lookup(Init().shared.entries, ip).None?
  {
    NothingCached(Init().shared.entries, ip);
  }

  lemma FirstIface()
    ensures FindIface(CFG.ifs, ETH0.name) == Some(ETH0)
  {
  }

  lemma NoStepsIn(cfg: Config)
    ensures Run(cfg, []) == Init()
  {
  }

  /** The error about a waiting frame comes back through the gate. */
  lemma ErrorComesBack(p: Packet)
    requires Good(CFG, GATE, p)
    ensures ErrorOut(CFG, p).Some? && Returned(CFG, p, GATE) != []
  {
    hide Good, ErrorAbout, NextHop, Lpm, FindIface;
    ErrorOutIffRoute(CFG, GATE, p);
    OneRoute(IpAt(p.buf, IP_SRC));
    AllToGate(ErrorAbout(CFG, p.buf, 3, 1).value, Generated(p.buf, 3, 1));
  }

  // ----- a frame is lost -----

  lemma DatagramGivenUp() returns (run: seq<Action>, p: Packet)
    ensures ExpiredAtEnd(Run(CFG, run).shared.log, p) && Returned(CFG, p, GATE) != []
  {
    hide Run, Datagram, DecTtl, ValidIp, Returned, Good, ToGate, Unanswered, After, AfterAt, React, ExpiredAtEnd;
    DatagramForwarded();
    DatagramValid();
    ForwardedIsGood(CFG, Datagram());
    MakesWait(Datagram(), DecTtl(Datagram()), Forwarded(Datagram()));
    p := ToGate(DecTtl(Datagram()), Forwarded(Datagram()));
    run := GivenUp(After(After([], Receive(Datagram(), ETH0.name)), Proceed), p);
    ErrorComesBack(p);
  }

  /** Frames are lost in some runs: a datagram whose source lies behind the same silent gate as its
      destination. The error about it is queued on the request that is being destroyed. */
  lemma ExpiryCanLose()
    ensures Consistent(CFG)
    ensures exists run, i :: 0 <= i < |Run(CFG, run).shared.log| && Run(CFG, run).shared.log[i].Expired?
                             && LostBy(Run(CFG, run).shared.log[i]) != multiset{}
  {
    hide Run, LostBy, Returned, Returning;
    var run, p := DatagramGivenUp();
    var i := |Run(CFG, run).shared.log| - 1;
    ExpiryLosesReturningErrors(CFG, run, i);
    assert p in Run(CFG, run).shared.log[i].reported;
  }

  // ----- an error about an error -----

  /** The datagram with one hop to live. */
  function Dying(): (f: Frame)
    ensures WellFormed(f) && U16(f, 12) == 0x0800 && f[IP_TTL] == 1 && IpAt(f, IP_DST) == Ip4(172, 16, 0, 1)
    ensures MacAt(f, SHOST) == ETH0.mac
  {
    var h := ErrorHeaders(PutIp(seq(34, _ => 0 as byte), IP_SRC, Ip4(172, 16, 0, 1)), ETH0);
    Sealed(h[IP_TTL := 1])
  }

  lemma DyingReaction()
    ensures ErrorAbout(CFG, Dying(), 11, 0).Some?
    ensures React(CFG, Dying(), Some(ETH0)) ==
            SendRouted(ErrorAbout(CFG, Dying(), 11, 0).value, Generated(Dying(), 11, 0))
  {
    hide Sealed, ErrorHeaders, ErrorFrame, Lpm, ArpReaction, LocalReaction, DecTtl;
    var h := ErrorHeaders(PutIp(seq(34, _ => 0 as byte), IP_SRC, Ip4(172, 16, 0, 1)), ETH0);
    SealedIsValid(h[IP_TTL := 1]);
    assert ValidIp(Dying());
    hide ValidIp, Dying;
    assert FindIfaceByMac(CFG.ifs, ETH0.mac) == Some(ETH0);
    assert !IsRouterIp(CFG, IpAt(Dying(), IP_DST));
  }

  lemma EmittedSince(log: Log, i: nat, b: nat, packets: seq<Packet>, p: Packet)
    requires i <= |log| && b <= i && ReportedSince(CFG, log[..i], b, packets)
    requires p in packets && ErrorOut(CFG, p).Some?
    ensures exists k :: 0 <= k < i && IsEmission(log[k], ErrorOut(CFG, p).value)
  {
    hide ReportsFrom, IsEmission, ErrorOut;
    var k :| b <= k < i && IsEmission(log[..i][k], ErrorOut(CFG, p).value);
    assert log[k] == log[..i][k];
  }

  lemma EmittedBefore(run: seq<Action>, i: nat, p: Packet)
    requires i < |Run(CFG, run).shared.log| && Run(CFG, run).shared.log[i].Expired?
    requires p in Run(CFG, run).shared.log[i].reported && p.origin.Generated? && ErrorOut(CFG, p).Some?
    ensures ReportedError(Run(CFG, run).shared.log, i, p)
  {
    hide Run, ReportedSince, IsEmission, ErrorOut, Consistent, Lpm;
    var log := Run(CFG, run).shared.log;
    ExpiryReportsItsFrames(CFG, run, i);
    var b :| 0 <= b <= i && ReportedSince(CFG, log[..i], b, log[i].reported);
    EmittedSince(log, i, b, log[i].reported, p);
  }

  /** The sweep does report ICMP errors by ICMP errors: in this run the frame that is given up is itself
      a time-exceeded error of the router, and the host-unreachable error about it is emitted. */
  lemma ErrorsAboutErrors()
    ensures Consistent(CFG)
    ensures exists run, i, p :: 0 <= i < |Run(CFG, run).shared.log| && ReportedError(Run(CFG, run).shared.log, i, p)
  {
    hide Run, Dying, ErrorAbout, ValidIp, Good, ToGate, React, Unanswered, ErrorOut;
    DyingReaction();
    var e, origin := ErrorAbout(CFG, Dying(), 11, 0).value, Generated(Dying(), 11, 0);
    ErrorAboutIsValid(CFG, Dying(), 11, 0);
    MakesWait(Dying(), e, origin);
    var p := ToGate(e, origin);
    assert p.origin == origin by { OriginToGate(e, origin); }
    var run := GivenUp(After(After([], Receive(Dying(), ETH0.name)), Proceed), p);
    ErrorComesBack(p);
    hide IsEmission, AfterAt, After;
    EmittedBefore(run, |Run(CFG, run).shared.log| - 1, p);
  }

  lemma OriginToGate(f: Frame, origin: Origin)
    requires |f| >= ETH + 20
    ensures ToGate(f, origin).origin == origin
  {
    hide Lpm, FindIface;
    AllToGate(f, origin);
  }

  /** At position i a request expired in which an error waited, after the error about it was emitted. */
  ghost predicate ReportedError(log: Log, i: nat, p: Packet)
    requires i < |log|
  {
    && log[i].Expired? && p in log[i].reported && p.origin.Generated? && ErrorOut(CFG, p).Some?
    && exists k :: 0 <= k < i && IsEmission(log[k], ErrorOut(CFG, p).value)
  }

  // ----- a route that names no interface -----

  const BAD := Config([ETH0], [Route(ZERO_IP, GATE, ZERO_IP, "eth9")])

  lemma BadRoute(ip: Ip4)
    ensures Lpm(BAD, ip) == Some(BAD.table[0])
  {
    hide Value, BitAnd;
    ZeroMask(BAD.table[0], ip);
  }

  lemma BadReaction()
    ensures React(BAD, Datagram(), Some(ETH0)) == SendRouted(DecTtl(Datagram()), Forwarded(Datagram()))
  {
    hide Datagram, Sealed, ErrorAbout, EchoReply, ChecksMessage, DecTtl, Lpm, ArpReaction, LocalReaction, ErrorReaction;
    DatagramValid();
    BadRoute(Ip4(172, 16, 0, 1));
    hide ValidIp;
    assert !IsRouterIp(BAD, IpAt(Datagram(), IP_DST));
  }

  lemma BadHop(f: Frame, origin: Origin)
    requires |f| >= ETH + 20
    ensures NextHop(BAD, f, origin).None? && RouteIface(BAD, f) == Some("eth9")
  {
    hide Lpm;
    BadRoute(IpAt(f, IP_DST));
  }

  /** With a table that is not consistent a frame can end for want of its interface: SendGuardsNeverReject
      needs its condition. */
  lemma UnknownRouteDrops()
    ensures !Consistent(BAD)
    ensures Run(BAD, After([], Receive(Datagram(), ETH0.name))).shared.log == [Unsent("eth9")]
  {
    assert BAD.table[0] in BAD.table;
    hide Datagram, DecTtl, ValidIp, React, Run, NextHop, RouteIface, Then, Consistent;
    RunAfter(BAD, [], Receive(Datagram(), ETH0.name));
    NoStepsIn(BAD);
    BadReaction();
    DatagramValid();
    ValidIsLong(DecTtl(Datagram()));
    BadHop(DecTtl(Datagram()), Forwarded(Datagram()));
    DroppedStep(BAD, Init(), Datagram(), ETH0, DecTtl(Datagram()), Forwarded(Datagram()));
  }
}
