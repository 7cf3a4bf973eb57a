/** What comes of a frame that the router receives, octet by octet: which frames it answers, reports,
    forwards, learns from or ignores, and what it sends. */
module Reception {
  import opened Bytes
  import opened IpHeader
  import opened Icmp
  import opened Routing
  import opened ArpState
  import opened Reactions
  import opened Order
  import opened Invariants
  import opened System
  import opened CacheMap
  import opened Wire
  import Arp

  // ----- outcomes -----

  ghost predicate Unchanged(s: Shared, t: Sys)
  {
    t.shared == s && t.pc.Ready?
  }

  ghost predicate OnlyLogs(s: Shared, t: Sys, e: Event)
  {
    t.shared == s.(log := s.log + [e]) && t.pc.Ready?
  }

  /** out is g with the source address of the interface on the best route, for the gateway of that route
      or, when the gateway is 0.0.0.0, for the destination itself. */
  ghost predicate Leaves(cfg: Config, g: Frame, out: Outgoing)
    requires |g| >= 34
  {
    var best := Lpm(cfg, IpAt(g, 30));
    && best.Some?
    && out.hop == (if best.value.gw == Ip4(0, 0, 0, 0) then IpAt(g, 30) else best.value.gw)
    && out.pkt.iface == best.value.iface
    && |out.pkt.buf| == |g|
    && (exists iface :: Named(cfg.ifs, best.value.iface, iface) && out.pkt.buf[6..12] == Hw(iface.mac))
    && forall i :: 0 <= i < |g| && !(6 <= i < 12) ==> out.pkt.buf[i] == g[i]
  }

  /** The packet thread holds out, with an address from the cache if there is one. */
  ghost predicate AtHand(s: Shared, pc: Pc, out: Outgoing)
  {
    if Cached(s.entries, out.hop) then
      pc.Found? && pc.out == out && exists i ::
        0 <= i < |s.entries| && s.entries[i].valid && s.entries[i].ip == out.hop && s.entries[i].mac == pc.mac
    else pc == Missed(out)
  }

  /** g takes the routed path: it is dropped when no route matches or the route names no interface, and
      otherwise is ready to leave. */
  ghost predicate TakesRoute(cfg: Config, s: Shared, t: Sys, g: Frame, origin: Origin)
    requires |g| >= 34
  {
    var best := Lpm(cfg, IpAt(g, 30));
    if best.None? then Unchanged(s, t)
    else if Unnamed(cfg.ifs, best.value.iface) then OnlyLogs(s, t, Unsent(best.value.iface))
    else
      && t.shared == s
      && exists out: Outgoing :: out.pkt.origin == origin && Leaves(cfg, g, out) && AtHand(s, t.pc, out)
  }

  /** An error about a datagram takes the routed path, if the datagram has a source interface. */
  ghost predicate IsReported(cfg: Config, s: Shared, t: Sys, about: Frame, kind: byte, code: byte)
    requires IsDatagram(about)
  {
    if forall from :: !IsSource(cfg, about, from) then Unchanged(s, t)
    else exists from, e ::
        && IsSource(cfg, about, from) && IsError(about, e, from.ip, kind, code)
        && e[0..6] == about[6..12] && e[6..12] == Hw(from.mac)
        && TakesRoute(cfg, s, t, e, Generated(about, kind, code))
  }

  /** A datagram for one of the router's addresses. */
  ghost predicate LocalOutcome(cfg: Config, s: Shared, t: Sys, f: Frame, name: string)
    requires IsDatagram(f)
  {
    if IsPing(f) then
      exists iface, g :: Named(cfg.ifs, name, iface) && IsEchoOf(f, g, iface.mac) && OnlyLogs(s, t, Replied(g, name))
    else if f[23] == 6 || f[23] == 17 then IsReported(cfg, s, t, f, 3, 3)
    else Unchanged(s, t)
  }

  /** A datagram for somebody else. */
  ghost predicate TransitOutcome(cfg: Config, s: Shared, t: Sys, f: Frame)
    requires IsDatagram(f)
  {
    if f[22] <= 1 then IsReported(cfg, s, t, f, 11, 0)
    else if Lpm(cfg, IpAt(f, 30)).None? then exists g :: OneHopLess(f, g) && IsReported(cfg, s, t, g, 3, 0)
    else exists g :: OneHopLess(f, g) && TakesRoute(cfg, s, t, g, Forwarded(f))
  }

  /** An ARP request for the address of the interface it came in by, or a reply for any address of the
      router, from a sender with an address. */
  ghost predicate Teaches(cfg: Config, f: Frame, recv: Iface)
  {
    && |f| >= 42 && f[28..32] != [0, 0, 0, 0]
    && ((f[20..22] == [0, 1] && f[38..42] == Quad(recv.ip)) || (f[20..22] == [0, 2] && RoutersOwn(cfg, f[38..42])))
  }

  /** The requests for other addresses, in their order. */
  function Without(requests: seq<Request>, ip: Ip4): seq<Request>
  {
    if requests == [] then []
    else
      var last := requests[|requests| - 1];
      Without(requests[..|requests| - 1], ip) + if last.ip == ip then [] else [last]
  }

  /** The mapping goes into the cache unless that is full of other addresses, its request is no longer
      pending, what was queued for it is about to be flushed, and a request is about to be answered. */
  ghost predicate Learns(cfg: Config, s: Shared, t: Sys, f: Frame, recv: Iface, name: string, now: nat)
    requires UniqueEntries(s.entries) && |f| >= 42
  {
    var mac, ip := MacAt(f, 22), IpAt(f, 28);
    var stored := ip in View(s.entries) || |View(s.entries)| < 100;
    && UniqueEntries(t.shared.entries)
    && View(t.shared.entries) == (if stored then View(s.entries)[ip := Mapping(mac, now)] else View(s.entries))
    && t.shared.requests == Without(s.requests, ip) && t.shared.nextId == s.nextId
    && t.shared.log == s.log + [Accepted(ip, mac, stored)]
    && t.pc.Flushing? && t.pc.ip == ip && t.pc.mac == mac && t.pc.iface == name
    && t.pc.packets == QueuedSince(s.log, ip)
    && if f[21] == 1 then t.pc.reply.Some? && IsArp(t.pc.reply.value, mac, recv, 2, mac, ip) else t.pc.reply.None?
  }

  ghost predicate ArpOutcome(cfg: Config, s: Shared, t: Sys, f: Frame, name: string, now: nat)
    requires UniqueEntries(s.entries)
  {
    if forall recv :: !(Named(cfg.ifs, name, recv) && Teaches(cfg, f, recv)) then Unchanged(s, t)
    else exists recv :: Named(cfg.ifs, name, recv) && Teaches(cfg, f, recv) && Learns(cfg, s, t, f, recv, name, now)
  }

  /** What comes of any frame. */
  ghost predicate Outcome(cfg: Config, s: Shared, t: Sys, f: Frame, name: string, now: nat)
    requires UniqueEntries(s.entries)
  {
    if |f| < 14 then Unchanged(s, t)
    else if f[12..14] == [8, 6] then ArpOutcome(cfg, s, t, f, name, now)
    else if f[12..14] == [8, 0] && IsDatagram(f) then
      if RoutersOwn(cfg, f[30..34]) then LocalOutcome(cfg, s, t, f, name) else TransitOutcome(cfg, s, t, f)
    else Unchanged(s, t)
  }

  // ----- proofs of the IP outcomes -----

  lemma NextHopLeaves(cfg: Config, g: Frame, origin: Origin)
    requires |g| >= 34
    ensures var r := NextHop(cfg, g, origin);
            if r.Some? then Leaves(cfg, g, r.value) && r.value.pkt.origin == origin
            else Lpm(cfg, IpAt(g, 30)).None? || Unnamed(cfg.ifs, Lpm(cfg, IpAt(g, 30)).value.iface)
  {
    hide Lpm, FindIface, Named, Hw;
    var best := Lpm(cfg, IpAt(g, 30));
    if best.Some? {
      FindIfaceIsFirst(cfg.ifs, best.value.iface);
      var r := NextHop(cfg, g, origin);
      if r.Some? {
        HwAt(r.value.pkt.buf, 6);
      }
    }
  }

  lemma HopAtHand(s: Shared, hop: Ip4)
    ensures var mac := Lookup(s.entries, hop);
            if mac.Some? then Cached(s.entries, hop) && exists i ::
                0 <= i < |s.entries| && s.entries[i].valid && s.entries[i].ip == hop && s.entries[i].mac == mac.value
            else !Cached(s.entries, hop)
  {
    LookupIsMembership(s.entries, hop);
  }

  /** What Received does with a frame for the routed path. */
  lemma RoutedTakesRoute(cfg: Config, s: Shared, f: Frame, recv: Option<Iface>, name: string, now: nat)
    requires React(cfg, f, recv).SendRouted?
    ensures var r := React(cfg, f, recv); var t := Received(cfg, s, f, recv, name, now);
            TakesRoute(cfg, s, Sys(t.0, now, t.1), r.frame, r.origin)
  {
    hide React, Lpm, Lookup, NextHop, Cached, Leaves, Unnamed;
    var r := React(cfg, f, recv);
    var g := r.frame;
    var out := NextHop(cfg, g, r.origin);
    NextHopLeaves(cfg, g, r.origin);
    if out.Some? {
      HopAtHand(s, out.value.hop);
      LeavesByName(cfg, g, out.value);
      var t := Received(cfg, s, f, recv, name, now);
      assert AtHand(s, t.1, out.value);
    } else {
      UnroutedSays(s, cfg, g);
    }
  }

  lemma LeavesByName(cfg: Config, g: Frame, out: Outgoing)
    requires |g| >= 34 && Leaves(cfg, g, out)
    ensures Lpm(cfg, IpAt(g, 30)).Some? && !Unnamed(cfg.ifs, Lpm(cfg, IpAt(g, 30)).value.iface)
  {
    hide Lpm;
  }

  lemma UnroutedSays(s: Shared, cfg: Config, g: Frame)
    requires |g| >= 34
    ensures var best := Lpm(cfg, IpAt(g, 30));
            Unrouted(s, cfg, g) == if best.None? then s else s.(log := s.log + [Unsent(best.value.iface)])
  {
    hide Lpm;
  }

  lemma ErrorIsReported(cfg: Config, s: Shared, f: Frame, recv: Option<Iface>, name: string, now: nat, about: Frame,
                        kind: byte, code: byte)
    requires ValidIp(about) && React(cfg, f, recv) == ErrorReaction(cfg, about, kind, code)
    ensures IsDatagram(about)
    ensures var t := Received(cfg, s, f, recv, name, now);
            IsReported(cfg, s, Sys(t.0, now, t.1), about, kind, code)
  {
    hide React, TakesRoute, IsSource, ErrorFrame, IcmpSourceIface, IsError, ValidIp, IsDatagram;
    AcceptedAreDatagrams(about);
    DatagramIsLong(about);
    SourcesAreSources(cfg, about);
    var from := IcmpSourceIface(cfg, about, IpAt(about, 26));
    if from.Some? {
      ErrorsAreErrors(about, from.value, kind, code);
      RoutedTakesRoute(cfg, s, f, recv, name, now);
    }
  }

  lemma DatagramIsLong(f: Frame)
    requires IsDatagram(f)
    ensures |f| >= 34 && 20 <= Ihl(f) <= TotalLength(f) <= |f| - 14
  {
  }

  lemma LocalIs(cfg: Config, s: Shared, f: Frame, recv: Option<Iface>, name: string, now: nat)
    requires ValidIp(f) && FindIface(cfg.ifs, name) == recv && NameKnown(cfg, f, name)
    requires React(cfg, f, recv) == LocalReaction(cfg, f, recv)
    ensures IsDatagram(f)
    ensures var t := Received(cfg, s, f, recv, name, now); LocalOutcome(cfg, s, Sys(t.0, now, t.1), f, name)
  {
    hide React, IsReported, IsPing, FindIface, EchoReply, Named, ErrorReaction, IsEchoOf, Sendable, ValidIp, IsDatagram;
    AcceptedAreDatagrams(f);
    DatagramIsLong(f);
    EchoRequestsArePings(f);
    if IsPing(f) {
      PingCarries(f);
      FindIfaceIsFirst(cfg.ifs, name);
      RepliesAreEchoes(f, recv.value.mac);
      EchoReplyIsSendable(cfg, f, recv.value, name);
    } else if f[23] == 6 || f[23] == 17 {
      ErrorIsReported(cfg, s, f, recv, name, now, f, 3, 3);
    }
  }

  lemma PingCarries(f: Frame)
    requires IsPing(f)
    ensures CarriesIcmp(f) && |f| >= 42 && f[23] == 1
  {
  }

  lemma TransitIs(cfg: Config, s: Shared, f: Frame, recv: Option<Iface>, name: string, now: nat)
    requires ValidIp(f) && React(cfg, f, recv) == IpReaction(cfg, f, recv) && !IsRouterIp(cfg, IpAt(f, IP_DST))
    ensures IsDatagram(f)
    ensures var t := Received(cfg, s, f, recv, name, now); TransitOutcome(cfg, s, Sys(t.0, now, t.1), f)
  {
    hide React, IsReported, TakesRoute, OneHopLess, ErrorReaction, ValidIp, IsDatagram, DecTtl, Lpm, IsRouterIp;
    AcceptedAreDatagrams(f);
    DatagramIsLong(f);
    if f[22] <= 1 {
      ErrorIsReported(cfg, s, f, recv, name, now, f, 11, 0);
    } else {
      var g := DecTtl(f);
      DecrementedIsOneHopLess(f);
      assert IpAt(g, 30) == IpAt(f, 30);
      if Lpm(cfg, IpAt(f, 30)).None? {
        DecTtlIsIncrementalUpdate(f);
        ErrorIsReported(cfg, s, f, recv, name, now, g, 3, 0);
      } else {
        RoutedTakesRoute(cfg, s, f, recv, name, now);
      }
    }
  }

  // ----- proofs of the ARP outcomes -----

  lemma {:induction false} RemovedIsWithout(requests: seq<Request>, ip: Ip4)
    requires DistinctIps(requests)
    ensures var i := IndexOf(requests, ip);
            Without(requests, ip) == if i.Some? then Removed(requests, i.value) else requests
  {
    if requests != [] {
      var n := |requests| - 1;
      var rest := requests[..n];
      RemovedIsWithout(rest, ip);
      var i := IndexOf(rest, ip);
      assert requests == rest + [requests[n]];
      if i.Some? {
        assert requests[n].ip != ip;
        RemovedInFront(rest, requests[n], i.value);
      } else if requests[n].ip == ip {
        assert Removed(requests, n) == rest;
      }
    }
  }

  lemma RemovedInFront(rest: seq<Request>, last: Request, i: nat)
    requires i < |rest|
    ensures Removed(rest + [last], i) == Removed(rest, i) + [last]
  {
  }

  lemma TypeIs(f: Frame, hi: byte, lo: byte)
    requires |f| >= 14
    ensures U16(f, 12) == 256 * hi as int + lo as int <==> f[12..14] == [hi, lo]
  {
    assert f[12..14] == [f[12], f[13]];
  }

  lemma OpIs(f: Frame, lo: byte)
    requires |f| >= 42
    ensures U16(f, 20) == lo as int <==> f[20..22] == [0, lo]
  {
    assert f[20..22] == [f[20], f[21]];
  }

  lemma TaughtReaction(cfg: Config, f: Frame, recv: Iface)
    requires |f| >= 42 && U16(f, 12) == 0x0806
    ensures var r := React(cfg, f, Some(recv));
            if Teaches(cfg, f, recv) then
              r == Learn(IpAt(f, 28), MacAt(f, 22), if f[21] == 1 then Some(Arp.ReplyFrame(recv, f)) else None)
            else r == Ignore
  {
    hide Arp.ReplyFrame, IsRouterIp, RoutersOwn, Quad;
    OpIs(f, 1);
    OpIs(f, 2);
    assert f[20..22] == [f[20], f[21]];
    assert Quad(ZERO_IP) == [0, 0, 0, 0] by { ZeroQuad(); }
    QuadAt(f, 28);
    QuadAt(f, 38);
    QuadIs(IpAt(f, 28), ZERO_IP);
    QuadIs(IpAt(f, 38), recv.ip);
    RouterIpIs(cfg, f, 38);
  }

  lemma ZeroQuad()
    ensures Quad(ZERO_IP) == [0, 0, 0, 0]
  {
  }

  lemma ArpIs(cfg: Config, s: Shared, f: Frame, recv: Option<Iface>, name: string, now: nat)
    requires Shape(s) && Ordered(s) && FindIface(cfg.ifs, name) == recv && |f| >= 14 && f[12..14] == [8, 6]
    ensures var t := Received(cfg, s, f, recv, name, now); ArpOutcome(cfg, s, Sys(t.0, now, t.1), f, name, now)
  {
    hide React, FindIface, Teaches, Learns, Insert, Detached, Shape, Ordered;
    assert U16(f, 12) == 0x0806 by { TypeIs(f, 8, 6); }
    assert UniqueEntries(s.entries) by { ShapeIsUnique(s); }
    FindIfaceIsFirst(cfg.ifs, name);
    NamedIsOne(cfg.ifs, name);
    if |f| < 42 || recv.None? {
      ShortIsIgnored(cfg, f, recv);
      NoTeaching(cfg, f);
    } else {
      TaughtReaction(cfg, f, recv.value);
      if Teaches(cfg, f, recv.value) {
        var t := Received(cfg, s, f, recv, name, now);
        LearningIs(cfg, s, f, recv.value, name, now);
      }
    }
  }

  lemma ShapeIsUnique(s: Shared)
    requires Shape(s)
    ensures UniqueEntries(s.entries) && |s.entries| == 100
  {
  }

  lemma NamedIsOne(ifs: seq<Iface>, name: string)
    ensures forall a, b :: Named(ifs, name, a) && Named(ifs, name, b) ==> a == b
    ensures forall a :: Named(ifs, name, a) ==> !Unnamed(ifs, name)
  {
  }

  lemma ShortIsIgnored(cfg: Config, f: Frame, recv: Option<Iface>)
    requires |f| >= 14 && U16(f, 12) == 0x0806 && (|f| < 42 || recv.None?)
    ensures React(cfg, f, recv) == Ignore
  {
  }

  lemma NoTeaching(cfg: Config, f: Frame)
    ensures |f| < 42 ==> forall recv :: !Teaches(cfg, f, recv)
  {
  }

  lemma LearningIs(cfg: Config, s: Shared, f: Frame, recv: Iface, name: string, now: nat)
    requires Shape(s) && Ordered(s) && |f| >= 42 && UniqueEntries(s.entries)
    requires React(cfg, f, Some(recv))
             == Learn(IpAt(f, 28), MacAt(f, 22), if f[21] == 1 then Some(Arp.ReplyFrame(recv, f)) else None)
    ensures var t := Received(cfg, s, f, Some(recv), name, now); Learns(cfg, s, Sys(t.0, now, t.1), f, recv, name, now)
  {
    hide React, Shape, Ordered, Arp.Message, IsArp, View, Stored, UniqueEntries, Insert, Detached, QueuedSince, Without;
    hide Cached, AllValid;
    var mac, ip := MacAt(f, 22), IpAt(f, 28);
    MessageIsArp(mac, recv, 2, mac, ip);
    InsertIs(s, mac, ip, now);
    StoredRefines(s.entries, mac, ip, now);
    ViewSize(s.entries);
    SlotExists(s.entries, ip);
    ViewHas(s.entries, ip);
    ShapeIsUnique(s);
    WaitingIs(s, ip);
  }

  lemma InsertIs(s: Shared, mac: Mac, ip: Ip4, now: nat)
    requires Shape(s)
    ensures Insert(s, mac, ip, now) ==
            s.(requests := Without(s.requests, ip), entries := Stored(s.entries, mac, ip, now),
               log := s.log + [Accepted(ip, mac, Slot(s.entries, ip).Some?)])
  {
    ShapeDistinct(s);
    RemovedIsWithout(s.requests, ip);
    hide Shape, Stored, Slot, Removed, Without;
  }

  lemma ViewHas(entries: seq<Entry>, ip: Ip4)
    requires UniqueEntries(entries)
    ensures ip in View(entries) <==> Cached(entries, ip)
  {
  }

  lemma WaitingIs(s: Shared, ip: Ip4)
    requires Ordered(s)
    ensures var waiting := Detached(s, ip);
            (if waiting.Some? then waiting.value.packets else []) == QueuedSince(s.log, ip)
  {
    assert PacketsFor(s.requests, ip) == QueuedSince(s.log, ip);
  }

  // ----- every frame -----

  lemma ReactionByType(cfg: Config, f: Frame, recv: Option<Iface>)
    requires |f| >= 14 && f[12..14] != [8, 6]
    ensures React(cfg, f, recv) == if f[12..14] == [8, 0] then IpReaction(cfg, f, recv) else Ignore
  {
    hide IpReaction;
    TypeIs(f, 8, 6);
    TypeIs(f, 8, 0);
  }

  /** What comes of a frame is decided by its octets as Outcome says, in every state of every run. */
  lemma ReceptionIs(cfg: Config, run: seq<Action>, f: Frame, name: string, now: nat)
    requires Enabled(cfg, Run(cfg, run), Action(Receive(f, name), now))
    ensures var st := Run(cfg, run);
            && UniqueEntries(st.shared.entries)
            && Outcome(cfg, st.shared, Apply(cfg, st, Action(Receive(f, name), now)), f, name, now)
  {
    hide Run, React, FindIface, PcOk, Good, ArpOutcome, LocalOutcome, TransitOutcome, IsDatagram, ValidIp, IsRouterIp;
    hide RoutersOwn, IpReaction, Received, Retrying, Paced, Counted, Balanced, LogOk, Truthful, Ordered, Numbered;
    RunKeepsInv(cfg, run);
    var s, recv := Run(cfg, run).shared, FindIface(cfg.ifs, name);
    ShapeIsUnique(s);
    if |f| < 14 {
      NothingReceived(cfg, s, f, recv, name, now);
    } else if f[12..14] == [8, 6] {
      ArpIs(cfg, s, f, recv, name, now);
    } else {
      ReactionByType(cfg, f, recv);
      AcceptedAreDatagrams(f);
      if f[12..14] == [8, 0] && IsDatagram(f) {
        DatagramIsLong(f);
        RouterIpIs(cfg, f, 30);
        IpReactionIs(cfg, f, recv);
        if RoutersOwn(cfg, f[30..34]) {
          LocalIs(cfg, s, f, recv, name, now);
        } else {
          TransitIs(cfg, s, f, recv, name, now);
        }
      } else {
        if f[12..14] == [8, 0] {
          InvalidIsIgnored(cfg, f, recv);
        }
        NothingReceived(cfg, s, f, recv, name, now);
      }
    }
  }

  lemma IpReactionIs(cfg: Config, f: Frame, recv: Option<Iface>)
    requires ValidIp(f)
    ensures IsRouterIp(cfg, IpAt(f, 30)) ==> IpReaction(cfg, f, recv) == LocalReaction(cfg, f, recv)
  {
    hide LocalReaction;
  }

  lemma InvalidIsIgnored(cfg: Config, f: Frame, recv: Option<Iface>)
    requires !ValidIp(f)
    ensures IpReaction(cfg, f, recv) == Ignore
  {
  }

  lemma NothingReceived(cfg: Config, s: Shared, f: Frame, recv: Option<Iface>, name: string, now: nat)
    requires |f| < 14 || React(cfg, f, recv) == Ignore
    ensures Received(cfg, s, f, recv, name, now) == (s, Ready)
  {
  }

  // ----- ping -----

  ghost predicate ForRouter(cfg: Config, f: Frame)
  {
    |f| >= 34 && f[12..14] == [8, 0] && RoutersOwn(cfg, f[30..34])
  }

  /** The router answers pings, and nothing else in this way: what it logs on receiving a frame begins
      with the departure of a reply if and only if the frame is an echo request for one of its addresses,
      and then that is all it does, and the reply is the request turned around. */
  lemma PingsAreAnswered(cfg: Config, run: seq<Action>, f: Frame, name: string, now: nat)
    requires Enabled(cfg, Run(cfg, run), Action(Receive(f, name), now))
    ensures var s := Run(cfg, run).shared;
            var t := Apply(cfg, Run(cfg, run), Action(Receive(f, name), now));
            && (IsReplied(s, t) <==> ForRouter(cfg, f) && IsPing(f))
            && (IsReplied(s, t) ==>
                  exists iface, g ::
                    Named(cfg.ifs, name, iface) && IsEchoOf(f, g, iface.mac) && OnlyLogs(s, t, Replied(g, name)))
  {
    hide Run, Apply, IsPing, RoutersOwn, Teaches, View, IsArp, Named, IsEchoOf;
    ReceptionIs(cfg, run, f, name, now);
    PingIsDatagram(f);
  }

  lemma PingIsDatagram(f: Frame)
    ensures IsPing(f) ==> IsDatagram(f)
  {
  }

  ghost predicate IsReplied(s: Shared, t: Sys)
  {
    |t.shared.log| > |s.log| && t.shared.log[|s.log|].Replied?
  }

  /** A mapping is accepted if and only if the frame is one that teaches. */
  lemma OnlyTeachersTeach(cfg: Config, run: seq<Action>, f: Frame, name: string, now: nat)
    requires Enabled(cfg, Run(cfg, run), Action(Receive(f, name), now))
    ensures var s := Run(cfg, run).shared;
            var t := Apply(cfg, Run(cfg, run), Action(Receive(f, name), now));
            IsAccepted(s, t) <==>
            |f| >= 14 && f[12..14] == [8, 6] && exists recv :: Named(cfg.ifs, name, recv) && Teaches(cfg, f, recv)
  {
    hide Run, Apply, IsPing, RoutersOwn, Teaches, View, IsArp, Named, IsEchoOf;
    ReceptionIs(cfg, run, f, name, now);
  }

  ghost predicate IsAccepted(s: Shared, t: Sys)
  {
    |t.shared.log| > |s.log| && t.shared.log[|s.log|].Accepted?
  }

  /** A datagram of TCP or UDP for the router is reported as port unreachable, any other but a ping is
      dropped; of a datagram for somebody else, one without a hop left is reported as time exceeded and
      one without a route as net unreachable, with the TTL already decremented. */
  lemma UndeliverableIsReported(cfg: Config, run: seq<Action>, f: Frame, name: string, now: nat)
    requires Enabled(cfg, Run(cfg, run), Action(Receive(f, name), now))
    requires |f| >= 34 && f[12..14] == [8, 0] && IsDatagram(f)
    ensures var s := Run(cfg, run).shared;
            var t := Apply(cfg, Run(cfg, run), Action(Receive(f, name), now));
            if RoutersOwn(cfg, f[30..34]) then
              && (f[23] == 6 || f[23] == 17 ==> IsReported(cfg, s, t, f, 3, 3))
              && (f[23] != 6 && f[23] != 17 && !IsPing(f) ==> Unchanged(s, t))
            else
              && (f[22] <= 1 ==> IsReported(cfg, s, t, f, 11, 0))
              && (f[22] > 1 && Lpm(cfg, IpAt(f, 30)).None? ==>
                    exists g :: OneHopLess(f, g) && IsReported(cfg, s, t, g, 3, 0))
  {
    hide Run, Apply, RoutersOwn, IsReported, Lpm, OneHopLess, IsDatagram, Cancels;
    ReceptionIs(cfg, run, f, name, now);
  }

  /** An ARP request for an address other than that of the interface it came in by changes nothing. */
  lemma RequestsForOthersAreDropped(cfg: Config, run: seq<Action>, f: Frame, name: string, now: nat, recv: Iface)
    requires Enabled(cfg, Run(cfg, run), Action(Receive(f, name), now)) && Named(cfg.ifs, name, recv)
    requires |f| >= 42 && f[12..14] == [8, 6] && f[20..22] == [0, 1] && f[38..42] != Quad(recv.ip)
    ensures var st := Run(cfg, run); Unchanged(st.shared, Apply(cfg, st, Action(Receive(f, name), now)))
  {
    hide Run, Apply, RoutersOwn, Named, Quad;
    ReceptionIs(cfg, run, f, name, now);
    assert f[20..22][1] == 1;
    assert forall other :: Named(cfg.ifs, name, other) ==> other == recv by {
      NamedIsOne(cfg.ifs, name);
    }
  }
}
