/** What every frame is that the router sends or keeps waiting, in terms of its octets, the routing table
    and the log. */
module Sent {
  import opened Bytes
  import opened IpHeader
  import opened Icmp
  import opened Routing
  import opened ArpState
  import opened History
  import opened Order
  import opened Invariants
  import opened System
  import opened Theorems
  import opened Wire
  import opened Reception
  import Arp

  /** Both guards of sr_send_packet: a frame can be sent by a name if and only if it has an Ethernet header
      and the source address of the first interface of that name. */
  lemma GuardsMean(cfg: Config, f: Frame, name: string)
    ensures Sendable(cfg, f, name) <==>
            |f| >= 14 && exists iface :: Named(cfg.ifs, name, iface) && f[6..12] == Hw(iface.mac)
  {
    FindIfaceIsFirst(cfg.ifs, name);
    NamedIsOne(cfg.ifs, name);
    if |f| >= 14 && FindIface(cfg.ifs, name).Some? {
      HwAt(f, 6);
      HwIs(MacAt(f, 6), FindIface(cfg.ifs, name).value.mac);
    }
    hide Named, Hw, FindIface;
  }

  // ----- next hops -----

  predicate OnRoute(e: Event)
  {
    e.Queued? || e.Delivered?
  }

  /** In every run, whatever is queued or delivered has the source address and the name of the interface
      on the best route to its destination, and goes to that route's gateway, or to the destination itself
      when the gateway is 0.0.0.0. */
  lemma RoutesAreFollowed(cfg: Config, run: seq<Action>, i: nat)
    requires i < |Run(cfg, run).shared.log| && OnRoute(Run(cfg, run).shared.log[i])
    ensures var e := Run(cfg, run).shared.log[i];
            |e.pkt.buf| >= 34 && Leaves(cfg, e.pkt.buf, Outgoing(e.ip, e.pkt))
  {
    hide Run, Sendable, Leaves, NextHop, Makes, ValidIp, LastAccepted, SameDatagram;
    EventOfRun(cfg, run, i);
    var e := Run(cfg, run).shared.log[i];
    ValidIsLong(e.pkt.buf);
    NextHopLeaves(cfg, e.pkt.buf, e.pkt.origin);
  }

  // ----- ARP requests -----

  /** At n the latest frame that joined the request of that id is the one of the event at j. */
  ghost predicate JoinedLast(log: Log, n: nat, id: nat, j: nat)
    requires n <= |log|
  {
    && j < n && log[j].Queued? && log[j].id == id
    && forall k :: j < k < n && log[k].Queued? ==> log[k].id != id
  }

  lemma {:induction false} JoinedMeans(log: Log, n: nat, id: nat) returns (j: nat)
    requires n <= |log| && QueuedTo(log[..n], id) != []
    ensures JoinedLast(log, n, id, j) && log[j].pkt == QueuedTo(log[..n], id)[0]
  {
    assert log[..n][..n - 1] == log[..n - 1];
    var e := log[n - 1];
    if e.Queued? && e.id == id {
      j := n - 1;
    } else {
      j := JoinedMeans(log, n - 1, id);
    }
  }

  lemma OneHop(cfg: Config, a: Ip4, b: Ip4, p: Packet)
    requires Good(cfg, a, p) && Good(cfg, b, p)
    ensures a == b
  {
    hide ValidIp, Sendable, Makes, NextHop;
  }

  /** In every run, an ARP request that is sent, for the first time or again, is a broadcast that asks for
      the address its request is for, from the interface by which the frame that joined that request last
      is to leave, and with the addresses of that interface. */
  lemma AsksAreBroadcasts(cfg: Config, run: seq<Action>, i: nat)
    requires i < |Run(cfg, run).shared.log| && Run(cfg, run).shared.log[i].Asked?
    ensures var log := Run(cfg, run).shared.log; var e := log[i];
            && (exists iface ::
                  && Named(cfg.ifs, e.iface, iface)
                  && IsArp(e.frame, Mac(255, 255, 255, 255, 255, 255), iface, 1, Mac(0, 0, 0, 0, 0, 0), e.ip))
            && exists j :: 0 <= j < i && JoinedLast(log, i, e.id, j) && log[j].ip == e.ip && log[j].pkt.iface == e.iface
  {
    hide Run, Sendable, Good, FindIface, Named, IsArp, Asks, LastAsk, Unstored, QueuedTo, JoinedLast, Arp.Message;
    EventOfRun(cfg, run, i);
    var log, e := Run(cfg, run).shared.log, Run(cfg, run).shared.log[i];
    FindIfaceIsFirst(cfg.ifs, e.iface);
    MessageIsArp(BROADCAST, FindIface(cfg.ifs, e.iface).value, 1, ZERO_MAC, e.ip);
    var j := JoinedMeans(log, i, e.id);
    assert j < i && log[j].Queued? by { JoinedIsQueued(log, i, e.id, j); }
    EventOfRun(cfg, run, j);
    OneHop(cfg, e.ip, log[j].ip, log[j].pkt);
  }

  lemma JoinedIsQueued(log: Log, n: nat, id: nat, j: nat)
    requires n <= |log| && JoinedLast(log, n, id, j)
    ensures j < n && log[j].Queued?
  {
  }

  // ----- ICMP errors -----

  lemma ErrorsAreAlike(about: Frame, e: Frame, f: Frame, from: Ip4, kind: byte, code: byte)
    requires IsDatagram(about) && IsError(about, e, from, kind, code) && SameDatagram(f, e)
    ensures IsError(about, f, from, kind, code)
  {
    hide Cancels;
    assert forall i :: 12 <= i < |f| ==> f[i] == f[12..][i - 12] == e[12..][i - 12] == e[i];
    assert f[14..14 + Ihl(f)] == e[14..14 + Ihl(e)];
    assert f[14 + Ihl(f)..14 + TotalLength(f)] == e[14 + Ihl(e)..14 + TotalLength(e)];
    assert f[12..24] == e[12..24] && f[26..30] == e[26..30] && f[30..34] == e[30..34] && f[38..42] == e[38..42];
    var n := if TotalLength(about) < 28 then TotalLength(about) else 28;
    assert f[42..42 + n] == e[42..42 + n];
  }

  /** In every run, an error that is queued or delivered is an ICMP error about a datagram, from the address
      of the interface that sent the datagram, else of the one it was sent to, else of the one on the route
      to its source. */
  lemma ErrorsComeFromSources(cfg: Config, run: seq<Action>, i: nat)
    requires i < |Run(cfg, run).shared.log| && OnRoute(Run(cfg, run).shared.log[i])
    requires Run(cfg, run).shared.log[i].pkt.origin.Generated?
    ensures var p := Run(cfg, run).shared.log[i].pkt; var o := p.origin;
            && IsDatagram(o.about)
            && exists from :: IsSource(cfg, o.about, from) && IsError(o.about, p.buf, from.ip, o.kind, o.code)
  {
    hide Run, Sendable, NextHop, ErrorAbout, IsDatagram, IsSource, IsError, ValidIp, LastAccepted, SameDatagram;
    EventOfRun(cfg, run, i);
    var p := Run(cfg, run).shared.log[i].pkt;
    var e := ErrorIsError(cfg, p.origin.about, p.origin.kind, p.origin.code);
    ErrorsAreAlike(p.origin.about, ErrorAbout(cfg, p.origin.about, p.origin.kind, p.origin.code).value, p.buf, e.ip,
                   p.origin.kind, p.origin.code);
  }

  lemma ErrorIsError(cfg: Config, about: Frame, kind: byte, code: byte) returns (from: Iface)
    requires ErrorAbout(cfg, about, kind, code).Some?
    ensures IsDatagram(about) && IsSource(cfg, about, from)
    ensures IsError(about, ErrorAbout(cfg, about, kind, code).value, from.ip, kind, code)
  {
    hide ErrorFrame, IcmpSourceIface, IsError, IsSource;
    AcceptedAreDatagrams(about);
    from := IcmpSourceIface(cfg, about, IpAt(about, IP_SRC)).value;
    SourcesAreSources(cfg, about);
    ErrorsAreErrors(about, from, kind, code);
  }

  ghost predicate DistinctMacs(ifs: seq<Iface>)
  {
    forall i, j :: 0 <= i < j < |ifs| ==> ifs[i].mac != ifs[j].mac
  }

  /** A frame with the source address of an interface was sent by that interface. */
  lemma SenderIsSource(cfg: Config, f: Frame, name: string, from: Iface)
    requires DistinctMacs(cfg.ifs) && Sendable(cfg, f, name) && |f| >= 34 && IsSource(cfg, f, from)
    ensures Named(cfg.ifs, name, from)
  {
    hide Lpm;
    FindIfaceIsFirst(cfg.ifs, name);
    var iface := FindIface(cfg.ifs, name).value;
    HwAt(f, 6);
    assert iface in cfg.ifs && Hw(iface.mac) == f[6..12];
    HwIs(iface.mac, from.mac);
  }

  /** In every run, an expiry is preceded by the errors about its frames: each is of type 3 and code 1, goes
      towards the source of the frame, and, when the hardware addresses of the interfaces differ, comes from
      the address of the interface by which the frame was to leave. */
  lemma ExpirySendsHostUnreachable(cfg: Config, run: seq<Action>, i: nat, p: Packet)
    requires i < |Run(cfg, run).shared.log| && Run(cfg, run).shared.log[i].Expired?
    requires p in Run(cfg, run).shared.log[i].reported && Consistent(cfg)
    ensures IsDatagram(p.buf)
    ensures Lpm(cfg, IpAt(p.buf, 26)).Some? ==>
              exists k :: 0 <= k < i && IsUnreachable(cfg, Run(cfg, run).shared.log[k], p)
  {
    hide Run, ReportedSince, IsDatagram, Lpm, Consistent, IsUnreachable, Good, ValidIp;
    var log := Run(cfg, run).shared.log;
    ExpiryReportsItsFrames(cfg, run, i);
    var b :| 0 <= b <= i && ReportedSince(cfg, log[..i], b, log[i].reported);
    ReportedIsGood(cfg, run, i, p);
    if Lpm(cfg, IpAt(p.buf, 26)).Some? {
      var k := EmissionOf(cfg, log, i, b, log[i].reported, p);
      EmissionIsUnreachable(cfg, run, k, log[i].request.ip, p);
    }
  }

  lemma ReportedIsGood(cfg: Config, run: seq<Action>, i: nat, p: Packet)
    requires i < |Run(cfg, run).shared.log| && Run(cfg, run).shared.log[i].Expired?
    requires p in Run(cfg, run).shared.log[i].reported
    ensures Good(cfg, Run(cfg, run).shared.log[i].request.ip, p) && IsDatagram(p.buf)
  {
    hide Run, Returning, ReportsFrom, NextHop, Makes, Sendable, ValidIp, IsDatagram;
    EventOfRun(cfg, run, i);
    AcceptedAreDatagrams(p.buf);
  }

  lemma EmissionOf(cfg: Config, log: Log, i: nat, b: nat, reported: seq<Packet>, p: Packet) returns (k: nat)
    requires b <= i <= |log| && ReportedSince(cfg, log[..i], b, reported) && p in reported && ErrorOut(cfg, p).Some?
    ensures k < i && IsEmission(log[k], ErrorOut(cfg, p).value)
  {
    hide ErrorOut, ReportsFrom, IsEmission;
    k :| b <= k < i && IsEmission(log[..i][k], ErrorOut(cfg, p).value);
  }

  /** The event is the departure or the queuing of a host-unreachable error about p. */
  ghost predicate IsUnreachable(cfg: Config, e: Event, p: Packet)
    requires IsDatagram(p.buf)
  {
    && (e.Queued? || (e.Delivered? && !e.queued))
    && exists from ::
         && IsSource(cfg, p.buf, from) && IsError(p.buf, e.pkt.buf, from.ip, 3, 1)
         && (DistinctMacs(cfg.ifs) ==> Named(cfg.ifs, p.iface, from))
  }

  lemma EmissionIsUnreachable(cfg: Config, run: seq<Action>, k: nat, hop: Ip4, p: Packet)
    requires k < |Run(cfg, run).shared.log| && Good(cfg, hop, p) && ErrorOut(cfg, p).Some?
    requires IsEmission(Run(cfg, run).shared.log[k], ErrorOut(cfg, p).value) && IsDatagram(p.buf)
    ensures IsUnreachable(cfg, Run(cfg, run).shared.log[k], p)
  {
    hide Run, NextHop, Makes, Sendable, ErrorAbout, IsSource, IsError, Named, IsDatagram, ValidIp, DistinctMacs;
    var e := Run(cfg, run).shared.log[k];
    ErrorKeepsOrigin(cfg, p);
    ErrorsComeFromSources(cfg, run, k);
    DatagramIsLong(p.buf);
    var from :| IsSource(cfg, p.buf, from) && IsError(p.buf, e.pkt.buf, from.ip, 3, 1);
    if DistinctMacs(cfg.ifs) {
      SenderIsSource(cfg, p.buf, p.iface, from);
    }
  }

  lemma ErrorKeepsOrigin(cfg: Config, p: Packet)
    requires ErrorOut(cfg, p).Some?
    ensures ErrorOut(cfg, p).value.pkt.origin == Generated(p.buf, 3, 1)
  {
    hide ErrorAbout, Lpm, FindIface;
  }

  // ----- a frame without an address for its next hop -----

  ghost predicate IsAsk(cfg: Config, e: Event, id: nat, hop: Ip4, iface: string, now: nat)
  {
    && e.Asked? && e.id == id && e.ip == hop && e.time == now && e.iface == iface
    && exists from :: Named(cfg.ifs, iface, from)
        && IsArp(e.frame, Mac(255, 255, 255, 255, 255, 255), from, 1, Mac(0, 0, 0, 0, 0, 0), hop)
  }

  /** out joins the request for its next hop, in front, or a new one, which is asked for at once. */
  ghost predicate Joins(cfg: Config, s: Shared, t: Shared, out: Outgoing, now: nat)
  {
    && t.entries == s.entries
    && if Pending(s.requests, out.hop) then
         exists i ::
           && 0 <= i < |s.requests| && s.requests[i].ip == out.hop
           && t.log == s.log + [Queued(out.hop, out.pkt, s.requests[i].id)]
           && t.requests == s.requests[i := s.requests[i].(packets := [out.pkt] + s.requests[i].packets)]
       else
         exists e ::
           && IsAsk(cfg, e, s.nextId, out.hop, out.pkt.iface, now)
           && t.log == s.log + [Queued(out.hop, out.pkt, s.nextId), e]
           && t.requests == [Request(s.nextId, out.hop, now, 1, [out.pkt])] + s.requests
  }

  lemma QueuingJoins(cfg: Config, s: Shared, out: Outgoing, now: nat, later: nat)
    requires Retrying(cfg, s, now) && Good(cfg, out.hop, out.pkt)
    ensures Joins(cfg, s, QueueAndAsk(s, cfg, out.hop, out.pkt, later), out, later)
  {
    hide Good, FindIface, QueueAndAsk, Arp.Message, IsArp, Named;
    GoodGoesOut(cfg, out.hop, out.pkt);
    assert forall i :: 0 <= i < |s.requests| ==> Waits(s.requests[i], now);
    QueueAndAskCases(cfg, s, out.hop, out.pkt, later);
    var t := QueueAndAsk(s, cfg, out.hop, out.pkt, later);
    var i := IndexOf(s.requests, out.hop);
    if i.None? {
      FindIfaceIsFirst(cfg.ifs, out.pkt.iface);
      MessageIsArp(BROADCAST, FindIface(cfg.ifs, out.pkt.iface).value, 1, ZERO_MAC, out.hop);
      var e := t.log[|s.log| + 1];
      assert IsAsk(cfg, e, s.nextId, out.hop, out.pkt.iface, later);
      assert t.log == s.log + [Queued(out.hop, out.pkt, s.nextId), e];
    }
  }

  lemma GoodGoesOut(cfg: Config, hop: Ip4, p: Packet)
    requires Good(cfg, hop, p)
    ensures |p.buf| > 0 && FindIface(cfg.ifs, p.iface).Some?
  {
    hide NextHop, Makes, FindIface;
  }

  /** In every run, a frame whose next hop was not in the cache joins the request for that hop with the
      next step of the packet thread. When none is pending, a broadcast for the hop leaves at once. */
  lemma MissedFramesJoin(cfg: Config, run: seq<Action>, now: nat)
    requires Enabled(cfg, Run(cfg, run), Action(Proceed, now)) && Run(cfg, run).pc.Missed?
    ensures var st := Run(cfg, run); var t := Apply(cfg, st, Action(Proceed, now));
            t.pc.Ready? && Joins(cfg, st.shared, t.shared, st.pc.out, now)
  {
    hide Run, Good, Shape, Paced, Counted, Balanced, LogOk, Truthful, Ordered, Numbered, Joins, QueueAndAsk, Cached;
    hide Retrying;
    RunKeepsInv(cfg, run);
    var st := Run(cfg, run);
    QueuingJoins(cfg, st.shared, st.pc.out, st.clock, now);
  }

  /** The octets of a datagram that the router forwards. */
  ghost predicate InTransit(cfg: Config, f: Frame)
  {
    |f| >= 34 && f[12..14] == [8, 0] && IsDatagram(f) && !RoutersOwn(cfg, f[30..34]) && f[22] > 1
  }

  /** In every run, a datagram to forward whose next hop is neither cached nor pending is kept, and two
      steps of the packet thread after its arrival a broadcast asks for that hop, by the interface on the
      route: for the destination itself when the route has the gateway 0.0.0.0. */
  lemma UnresolvedHopsAreAskedFor(cfg: Config, run: seq<Action>, f: Frame, name: string, now: nat, later: nat)
    requires Enabled(cfg, Run(cfg, run), Action(Receive(f, name), now)) && now <= later && InTransit(cfg, f)
    requires var best := Lpm(cfg, IpAt(f, 30)); best.Some? && !Unnamed(cfg.ifs, best.value.iface)
    ensures var s := Run(cfg, run).shared; var route := Lpm(cfg, IpAt(f, 30)).value;
            var hop := if route.gw == Ip4(0, 0, 0, 0) then IpAt(f, 30) else route.gw;
            var t := Run(cfg, run + [Action(Receive(f, name), now), Action(Proceed, later)]);
            !Cached(s.entries, hop) && !Pending(s.requests, hop) ==>
              exists p: Packet, e ::
                && p.origin == Forwarded(f) && IsAsk(cfg, e, s.nextId, hop, route.iface, later)
                && t.shared.log == s.log + [Queued(hop, p, s.nextId), e]
  {
    hide Run, Lpm, Leaves, Joins, IsDatagram, RoutersOwn, OneHopLess, Named, Unnamed, Cached, Pending, IsAsk, Apply;
    hide Enabled, UniqueEntries;
    var st := Run(cfg, run);
    var route := Lpm(cfg, IpAt(f, 30)).value;
    var hop := if route.gw == Ip4(0, 0, 0, 0) then IpAt(f, 30) else route.gw;
    if !Cached(st.shared.entries, hop) && !Pending(st.shared.requests, hop) {
      var a, b := Action(Receive(f, name), now), Action(Proceed, later);
      var first := run + [a];
      RunMore(cfg, run, a);
      RunMore(cfg, first, b);
      assert run + [a, b] == first + [b];
      ReceptionIs(cfg, run, f, name, now);
      var out := TransitMisses(cfg, st.shared, Run(cfg, first), f, hop, route.iface);
      assert Enabled(cfg, Run(cfg, first), b) by { ClockIs(cfg, st, a, b); }
      MissedFramesJoin(cfg, first, later);
      JoinsAsks(cfg, st.shared, Run(cfg, first + [b]).shared, out, later);
    }
  }

  lemma JoinsAsks(cfg: Config, s: Shared, t: Shared, out: Outgoing, now: nat)
    requires Joins(cfg, s, t, out, now) && !Pending(s.requests, out.hop)
    ensures exists e :: IsAsk(cfg, e, s.nextId, out.hop, out.pkt.iface, now)
                        && t.log == s.log + [Queued(out.hop, out.pkt, s.nextId), e]
  {
    hide IsAsk, Pending;
  }

  lemma ClockIs(cfg: Config, st: Sys, a: Action, b: Action)
    requires Enabled(cfg, st, a) && a.now <= b.now && b.step.Proceed? && Apply(cfg, st, a).pc.Missed?
    ensures Enabled(cfg, Apply(cfg, st, a), b)
  {
    hide Received, Proceeded, Tick;
  }

  lemma RunMore(cfg: Config, run: seq<Action>, a: Action)
    ensures Run(cfg, run + [a]) == Apply(cfg, Run(cfg, run), a)
  {
    assert (run + [a])[..|run|] == run;
  }

  lemma TransitMisses(cfg: Config, s: Shared, t: Sys, f: Frame, hop: Ip4, name: string) returns (out: Outgoing)
    requires InTransit(cfg, f) && TransitOutcome(cfg, s, t, f) && !Cached(s.entries, hop)
    requires var best := Lpm(cfg, IpAt(f, 30));
             && best.Some? && !Unnamed(cfg.ifs, best.value.iface) && name == best.value.iface
             && hop == if best.value.gw == Ip4(0, 0, 0, 0) then IpAt(f, 30) else best.value.gw
    ensures t.shared == s && t.pc == Missed(out)
    ensures out.hop == hop && out.pkt.iface == name && out.pkt.origin == Forwarded(f)
  {
    hide Lpm, IsDatagram, RoutersOwn, Cached, Unnamed, Named;
    var g :| OneHopLess(f, g) && TakesRoute(cfg, s, t, g, Forwarded(f));
    assert IpAt(g, 30) == IpAt(f, 30);
    out :| out.pkt.origin == Forwarded(f) && Leaves(cfg, g, out) && AtHand(s, t.pc, out);
  }
}
