/** What holds in every run of the two threads, whatever their interleaving. */
module Theorems {
  import opened Bytes
  import opened IpHeader
  import opened Icmp
  import opened Routing
  import opened ArpState
  import opened History
  import opened Invariants
  import opened System

  /** The three exclusions: one pending request per address, one valid entry per address, and no
      address both pending and cached. */
  lemma PendingAndCachedAreExclusive(cfg: Config, run: seq<Action>)
    ensures var s := Run(cfg, run).shared;
            && (forall i, j :: 0 <= i < j < |s.requests| ==> s.requests[i].ip != s.requests[j].ip)
            && (forall i, j :: 0 <= i < j < |s.entries| && s.entries[i].valid && s.entries[j].valid ==>
                  s.entries[i].ip != s.entries[j].ip)
            && (forall i, j :: 0 <= i < |s.entries| && 0 <= j < |s.requests| && s.entries[i].valid ==>
                  s.entries[i].ip != s.requests[j].ip)
  {
    hide Run, PcOk, Good;
    RunKeepsInv(cfg, run);
  }

  /** A pending request waits with at least one frame and has been sent once to five times, and no
      request that ever existed was sent more than five times. */
  lemma RetriesAreBounded(cfg: Config, run: seq<Action>)
    ensures var s := Run(cfg, run).shared;
            && (forall i :: 0 <= i < |s.requests| ==>
                  s.requests[i].packets != [] && 1 <= s.requests[i].times <= 5
                  && Asks(s.log, s.requests[i].id) == s.requests[i].times)
            && (forall id :: Asks(s.log, id) <= 5)
  {
    hide Run, PcOk, Good;
    RunKeepsInv(cfg, run);
    var st := Run(cfg, run);
    forall i | 0 <= i < |st.shared.requests| ensures Waits(st.shared.requests[i], st.clock) {
    }
  }

  /** Every frame ever queued is still waiting, is about to be flushed, was flushed once, was
      reported unreachable once, or was pushed onto a request during that request's own expiry. */
  lemma FramesAreConserved(cfg: Config, run: seq<Action>)
    ensures var st := Run(cfg, run); var log := st.shared.log;
            QueuedIn(log) == Waiting(st.shared.requests) + InFlight(st.pc) + FlushedIn(log) + ReportedIn(log)
                + LostIn(log)
  {
    hide Run, PcOk, Good;
    RunKeepsInv(cfg, run);
  }

  // ----- events -----

  lemma {:induction false} LogOkAt(cfg: Config, log: Log, i: nat)
    requires LogOk(cfg, log) && i < |log|
    ensures EventOk(cfg, log[..i], log[i])
  {
    hide EventOk;
    if i < |log| - 1 {
      LogOkAt(cfg, log[..|log| - 1], i);
      assert log[..|log| - 1][..i] == log[..i];
    }
  }

  lemma EventOfRun(cfg: Config, run: seq<Action>, i: nat)
    requires i < |Run(cfg, run).shared.log|
    ensures EventOk(cfg, Run(cfg, run).shared.log[..i], Run(cfg, run).shared.log[i])
  {
    hide Run, PcOk, EventOk, Good;
    RunKeepsInv(cfg, run);
    LogOkAt(cfg, Run(cfg, run).shared.log, i);
  }

  /** What an expiry loses is exactly the host-unreachable errors about its own frames that would have
      left through the unreachable next hop itself. Nothing is lost if and only if no frame that waited
      has its source behind that next hop. */
  lemma ExpiryLosesReturningErrors(cfg: Config, run: seq<Action>, i: nat)
    requires i < |Run(cfg, run).shared.log| && Run(cfg, run).shared.log[i].Expired?
    ensures var e := Run(cfg, run).shared.log[i];
            && e.request.times == 5
            && LostBy(e) == multiset(Returning(cfg, e.reported, e.request.ip))
            && (LostBy(e) == multiset{} <==> forall p :: p in e.reported ==> Returned(cfg, p, e.request.ip) == [])
  {
    hide Run, Good, Sendable, Returned, Returning;
    EventOfRun(cfg, run, i);
    var e := Run(cfg, run).shared.log[i];
    var lost := Returning(cfg, e.reported, e.request.ip);
    assert e.request.packets[..|e.request.packets| - |e.reported|] == lost;
    NoneReturning(cfg, e.reported, e.request.ip);
    assert |multiset(lost)| == |lost|;
  }

  lemma {:induction false} NoneReturning(cfg: Config, packets: seq<Packet>, ip: Ip4)
    ensures Returning(cfg, packets, ip) == [] <==> forall p :: p in packets ==> Returned(cfg, p, ip) == []
  {
    hide Returned;
    if packets != [] {
      NoneReturning(cfg, packets[1..], ip);
      assert forall p :: p in packets <==> p == packets[0] || p in packets[1..];
    }
  }

  /** The mapping in m is the latest one accepted for ip before position i. */
  ghost predicate LatestAccepted(log: Log, i: nat, ip: Ip4, m: Mac)
    requires i <= |log|
  {
    exists j :: 0 <= j < i && log[j].Accepted? && log[j].ip == ip && log[j].mac == m
                && forall k :: j < k < i && log[k].Accepted? ==> log[k].ip != ip
  }

  lemma {:induction false} LastAcceptedMeans(log: Log, i: nat, ip: Ip4)
    requires i <= |log| && LastAccepted(log[..i], ip).Some?
    ensures LatestAccepted(log, i, ip, LastAccepted(log[..i], ip).value)
  {
    var m := LastAccepted(log[..i], ip).value;
    assert log[..i][..i - 1] == log[..i - 1];
    var e := log[i - 1];
    if e.Accepted? && e.ip == ip {
      assert log[i - 1].mac == m;
    } else {
      LastAcceptedMeans(log, i - 1, ip);
      var j :| 0 <= j < i - 1 && log[j].Accepted? && log[j].ip == ip && log[j].mac == m
               && forall k :: j < k < i - 1 && log[k].Accepted? ==> log[k].ip != ip;
      assert forall k :: j < k < i && log[k].Accepted? ==> log[k].ip != ip;
    }
  }

  lemma ValidIsLong(f: Frame)
    requires ValidIp(f)
    ensures |f| >= ETH + 20
  {
  }

  /** Every frame that leaves on the routed path, by a cache hit or from the queue, carries the
      sender address of the latest accepted ARP message for its next hop, even in runs in which the
      cache was full. From its IP header on it is what it was when it was routed. */
  lemma DeliveriesUseLatestMapping(cfg: Config, run: seq<Action>, i: nat)
    requires i < |Run(cfg, run).shared.log| && Run(cfg, run).shared.log[i].Delivered?
    ensures var log := Run(cfg, run).shared.log; var e := log[i];
            && |e.frame| >= ETH && |e.pkt.buf| >= ETH + 20
            && NextHop(cfg, e.pkt.buf, e.pkt.origin) == Some(Outgoing(e.ip, e.pkt))
            && LatestAccepted(log, i, e.ip, MacAt(e.frame, DHOST))
            && Sendable(cfg, e.frame, e.pkt.iface)
            && ValidIp(e.pkt.buf) && SameDatagram(e.frame, e.pkt.buf)
            && Makes(cfg, e.pkt.origin, e.pkt.buf)
  {
    hide Run, Sendable, ValidIp, Makes, NextHop, LatestAccepted;
    var log := Run(cfg, run).shared.log;
    EventOfRun(cfg, run, i);
    ValidIsLong(log[i].pkt.buf);
    LastAcceptedMeans(log, i, log[i].ip);
  }

  /** In no run does a guard of sr_send_packet refuse a frame, and sending ends for want of an
      interface of some name only when a route names it: never, when every route names an existing
      interface. */
  lemma SendGuardsNeverReject(cfg: Config, run: seq<Action>, i: nat)
    requires i < |Run(cfg, run).shared.log|
    ensures Consistent(cfg) ==> !Run(cfg, run).shared.log[i].Unsent?
    ensures match Run(cfg, run).shared.log[i]
            case Refused(_, _) => false
            case Unsent(name) => UnknownRoute(cfg, name)
            case Asked(_, _, _, frame, iface) => Sendable(cfg, frame, iface)
            case Delivered(_, pkt, frame, _) => Sendable(cfg, frame, pkt.iface)
            case Replied(frame, iface) => Sendable(cfg, frame, iface)
            case _ => true
  {
    hide Run, Sendable, Good;
    EventOfRun(cfg, run, i);
  }

  /** Whatever frame the packet thread has at hand in any run leaves with its next step: the frame of a
      cache hit, the next frame of a flush, and the reply after a flush. */
  lemma FramesAtHandLeave(cfg: Config, run: seq<Action>, now: nat)
    requires Enabled(cfg, Run(cfg, run), Action(Proceed, now))
    ensures var st := Run(cfg, run); var t := Apply(cfg, st, Action(Proceed, now)).shared;
            match st.pc
            case Found(out, mac) =>
              && Sendable(cfg, out.pkt.buf, out.pkt.iface)
              && t == Logged(st.shared, DeliveredEvent(cfg, out.hop, out.pkt, mac, false))
            case Flushing(ip, mac, packets, reply, name) =>
              && (packets != [] ==>
                    && Sendable(cfg, packets[0].buf, packets[0].iface)
                    && t == Logged(st.shared, DeliveredEvent(cfg, ip, packets[0], mac, true)))
              && (packets == [] && reply.Some? ==> t == Logged(st.shared, Replied(reply.value, name)))
            case _ => true
  {
    hide Run, Good, Inv, Sendable, DeliveredEvent, Deliver, LastAccepted, Cached, QueueAndAsk;
    RunKeepsInv(cfg, run);
    var st := Run(cfg, run);
    match st.pc {
      case Found(out, mac) =>
        GoodIsSendable(cfg, out.hop, out.pkt);
        DeliverLogsOne(st.shared, cfg, out.hop, out.pkt, mac, false);
      case Flushing(ip, mac, packets, reply, name) =>
        if packets != [] {
          GoodIsSendable(cfg, ip, packets[0]);
          DeliverLogsOne(st.shared, cfg, ip, packets[0], mac, true);
        }
      case _ =>
    }
  }

  /** Every waiting frame is a valid IP frame with the source address of an interface, on the route
      that the table gives its destination. */
  lemma WaitingFramesAreGood(cfg: Config, run: seq<Action>, i: nat, p: Packet)
    requires i < |Run(cfg, run).shared.requests| && p in Run(cfg, run).shared.requests[i].packets
    ensures Good(cfg, Run(cfg, run).shared.requests[i].ip, p)
  {
    hide Run, Good, PcOk;
    RunKeepsInv(cfg, run);
  }

  lemma DeliverLogsOne(s: Shared, cfg: Config, ip: Ip4, pkt: Packet, mac: Mac, queued: bool)
    requires Sendable(cfg, pkt.buf, pkt.iface)
    ensures Deliver(s, cfg, ip, pkt, mac, queued) == Logged(s, DeliveredEvent(cfg, ip, pkt, mac, queued))
  {
    hide FindIface;
  }

  lemma GoodIsSendable(cfg: Config, ip: Ip4, p: Packet)
    requires Good(cfg, ip, p)
    ensures Sendable(cfg, p.buf, p.iface)
  {
  }

  // ----- unreachable destinations -----

  /** The decremented frame is valid again, so the net-unreachable error about it is never dropped for
      its checksum: it is built exactly when some interface can be its source. */
  lemma NetUnreachableIsBuilt(cfg: Config, f: Frame)
    requires ValidIp(f) && f[IP_TTL] > 1
    ensures ErrorAbout(cfg, DecTtl(f), 3, 0).Some? <==> IcmpSourceIface(cfg, f, IpAt(f, IP_SRC)).Some?
  {
    hide ErrorFrame, ValidIp, DecTtl, FindIface, FindIfaceByMac, Lpm;
    DecTtlIsIncrementalUpdate(f);
    var g := DecTtl(f);
    assert MacAt(g, SHOST) == MacAt(f, SHOST) && MacAt(g, DHOST) == MacAt(f, DHOST);
    assert IpAt(g, IP_SRC) == IpAt(f, IP_SRC);
  }

  /** Reporting a good frame builds an error, and the error is delivered or queued for the next hop
      to the frame's source exactly when the table has a route to that source. */
  lemma ReportEmitsIffRoute(cfg: Config, s: Shared, hop: Ip4, p: Packet, now: nat)
    requires Consistent(cfg) && Good(cfg, hop, p)
    ensures ErrorAbout(cfg, p.buf, 3, 1).Some?
    ensures Lpm(cfg, IpAt(p.buf, IP_SRC)).None? ==> Report(s, cfg, p, now) == s
    ensures Lpm(cfg, IpAt(p.buf, IP_SRC)).Some? ==>
              exists out :: Carries(cfg, p, out) && Emitted(s, Report(s, cfg, p, now), out)
  {
    hide Lpm, QueueAndAsk, NextHop, Makes, ErrorFrame, Deliver, Lookup, Emitted;
    var f := p.buf;
    var iface := FindIface(cfg.ifs, p.iface).value;
    assert FindIfaceByMac(cfg.ifs, MacAt(f, SHOST)).Some?;
    var e := ErrorAbout(cfg, f, 3, 1).value;
    ErrorGoesToSource(cfg, f, 3, 1);
    RoutesIffLpm(cfg, e, Generated(f, 3, 1));
    if Lpm(cfg, IpAt(f, IP_SRC)).Some? {
      var out := NextHop(cfg, e, Generated(f, 3, 1)).value;
      RoutedEmits(cfg, s, e, Generated(f, 3, 1), now);
      assert Carries(cfg, p, out);
    }
  }

  predicate IsEmission(e: Event, out: Outgoing)
  {
    (e.Queued? || (e.Delivered? && !e.queued)) && e.ip == out.hop && e.pkt == out.pkt
  }

  lemma {:induction false} EmissionAt(events: Log, out: Outgoing)
    requires out in Emissions(events)
    ensures exists k :: 0 <= k < |events| && IsEmission(events[k], out)
    decreases |events|
  {
    var n := |events| - 1;
    if IsEmission(events[n], out) {
    } else {
      EmissionAt(events[..n], out);
      var k :| 0 <= k < n && IsEmission(events[..n][k], out);
      assert events[k] == events[..n][k];
    }
  }

  lemma {:induction false} ErrorsContain(cfg: Config, packets: seq<Packet>, p: Packet)
    requires p in packets && ErrorOut(cfg, p).Some?
    ensures ErrorOut(cfg, p).value in Errors(cfg, packets)
    decreases |packets|
  {
    hide ErrorOut;
    if p != packets[0] {
      ErrorsContain(cfg, packets[1..], p);
    }
  }

  /** For a waiting frame the error can be built, and routed exactly when the table has a route to the
      frame's source. */
  lemma ErrorOutIffRoute(cfg: Config, hop: Ip4, p: Packet)
    requires Consistent(cfg) && Good(cfg, hop, p)
    ensures |p.buf| >= ETH + 20 && (ErrorOut(cfg, p).Some? <==> Lpm(cfg, IpAt(p.buf, IP_SRC)).Some?)
  {
    hide Lpm, NextHop, Makes, ErrorFrame;
    var f := p.buf;
    assert FindIfaceByMac(cfg.ifs, MacAt(f, SHOST)).Some?;
    ErrorGoesToSource(cfg, f, 3, 1);
    RoutesIffLpm(cfg, ErrorAbout(cfg, f, 3, 1).value, Generated(f, 3, 1));
  }

  /** The position from which an expiry reports its frames. */
  ghost predicate ReportedSince(cfg: Config, log: Log, b: nat, packets: seq<Packet>)
    requires b <= |log|
  {
    && ReportsFrom(cfg, log, b, packets)
    && forall p :: p in packets && ErrorOut(cfg, p).Some? ==>
         exists k :: b <= k < |log| && IsEmission(log[k], ErrorOut(cfg, p).value)
  }

  /** In every run, every expiry was preceded, with nothing but ARP requests in between, by the delivery
      or the queuing of the error about each of its frames whose source the table has a route to, once
      each and in their order. */
  lemma ExpiryReportsItsFrames(cfg: Config, run: seq<Action>, i: nat)
    requires i < |Run(cfg, run).shared.log| && Run(cfg, run).shared.log[i].Expired?
    ensures var log := Run(cfg, run).shared.log;
            exists b :: 0 <= b <= i && ReportedSince(cfg, log[..i], b, log[i].reported)
    ensures Consistent(cfg) ==>
              forall p :: p in Run(cfg, run).shared.log[i].reported ==>
                |p.buf| >= ETH + 20 && (ErrorOut(cfg, p).Some? <==> Lpm(cfg, IpAt(p.buf, IP_SRC)).Some?)
  {
    hide Run, Good, Sendable, Returning, ErrorOut, Emissions, Errors, Lpm, Consistent;
    EventOfRun(cfg, run, i);
    var log, e := Run(cfg, run).shared.log[..i], Run(cfg, run).shared.log[i];
    var b :| 0 <= b <= i && ReportsFrom(cfg, log, b, e.reported);
    forall p | p in e.reported && ErrorOut(cfg, p).Some?
      ensures exists k :: b <= k < i && IsEmission(log[k], ErrorOut(cfg, p).value)
    {
      ErrorsContain(cfg, e.reported, p);
      EmissionAt(log[b..], ErrorOut(cfg, p).value);
      var k :| 0 <= k < i - b && IsEmission(log[b..][k], ErrorOut(cfg, p).value);
      assert log[b + k] == log[b..][k];
    }
    assert ReportedSince(cfg, log, b, e.reported);
    if Consistent(cfg) {
      forall p | p in e.reported
        ensures |p.buf| >= ETH + 20 && (ErrorOut(cfg, p).Some? <==> Lpm(cfg, IpAt(p.buf, IP_SRC)).Some?)
      {
        ErrorOutIffRoute(cfg, e.request.ip, p);
      }
    }
  }

  /** out is the outgoing copy of the host-unreachable error about p. */
  predicate Carries(cfg: Config, p: Packet, out: Outgoing)
  {
    var e := ErrorAbout(cfg, p.buf, 3, 1);
    e.Some? && |e.value| == ERROR_LEN && NextHop(cfg, e.value, Generated(p.buf, 3, 1)) == Some(out)
  }

  /** The first new event of the log is the delivery or the queuing of out. */
  predicate Emitted(s: Shared, t: Shared, out: Outgoing)
  {
    && |s.log| < |t.log|
    && t.log[..|s.log|] == s.log
    && var e := t.log[|s.log|];
       (e.Delivered? && e.ip == out.hop && e.pkt == out.pkt) || (e.Queued? && e.ip == out.hop && e.pkt == out.pkt)
  }

  lemma ErrorGoesToSource(cfg: Config, f: Frame, kind: byte, code: byte)
    requires ErrorAbout(cfg, f, kind, code).Some?
    ensures IpAt(ErrorAbout(cfg, f, kind, code).value, IP_DST) == IpAt(f, IP_SRC)
  {
    hide ErrorFrame, IcmpSourceIface;
    ErrorFrameIsAddressed(f, IcmpSourceIface(cfg, f, IpAt(f, IP_SRC)).value, kind, code);
  }

  lemma RoutesIffLpm(cfg: Config, f: Frame, origin: Origin)
    requires Consistent(cfg) && |f| >= ETH + 20
    ensures NextHop(cfg, f, origin).Some? <==> Lpm(cfg, IpAt(f, IP_DST)).Some?
    ensures var out := NextHop(cfg, f, origin);
            out.Some? ==> FindIface(cfg.ifs, out.value.pkt.iface).Some? && |out.value.pkt.buf| == |f|
  {
    hide Lpm;
    if Lpm(cfg, IpAt(f, IP_DST)).Some? {
      assert Lpm(cfg, IpAt(f, IP_DST)).value in cfg.table by { LpmInTable(cfg, IpAt(f, IP_DST)); }
    }
  }

  lemma LpmInTable(cfg: Config, ip: Ip4)
    requires Lpm(cfg, ip).Some?
    ensures Lpm(cfg, ip).value in cfg.table
  {
  }

  lemma RoutedEmits(cfg: Config, s: Shared, f: Frame, origin: Origin, now: nat)
    requires |f| >= ETH + 20 && NextHop(cfg, f, origin).Some?
    requires FindIface(cfg.ifs, NextHop(cfg, f, origin).value.pkt.iface).Some?
    ensures Emitted(s, Routed(s, cfg, f, origin, now), NextHop(cfg, f, origin).value)
  {
    hide NextHop, FindIface, Lookup;
    var out := NextHop(cfg, f, origin).value;
    if Lookup(s.entries, out.hop).None? {
      QueueEmits(cfg, s, out, now);
    }
  }

  lemma QueueEmits(cfg: Config, s: Shared, out: Outgoing, now: nat)
    requires |out.pkt.buf| > 0
    ensures Emitted(s, QueueAndAsk(s, cfg, out.hop, out.pkt, now), out)
  {
    hide FindIface, IndexOf, Pushed;
    var q := Queue(s, out.hop, out.pkt);
    assert q.log == s.log + [q.log[|s.log|]];
    hide Queue;
  }

  // ----- the rate limit -----

  lemma {:induction false} LastAskMeans(log: Log, n: nat, ip: Ip4)
    requires n <= |log| && LastAsk(log[..n], ip).Some?
    ensures exists j :: 0 <= j < n && log[j].Asked? && log[j].ip == ip && log[j].time == LastAsk(log[..n], ip).value
                        && (forall k :: j < k < n && log[k].Asked? ==> log[k].ip != ip)
                        && (Unstored(log[..n], ip) ==> SlotlessBetween(log, j, n, ip))
  {
    assert log[..n][..n - 1] == log[..n - 1];
    var e := log[n - 1];
    if e.Asked? && e.ip == ip {
      assert log[n - 1].time == LastAsk(log[..n], ip).value;
    } else {
      LastAskMeans(log, n - 1, ip);
      var j :| 0 <= j < n - 1 && log[j].Asked? && log[j].ip == ip && log[j].time == LastAsk(log[..n - 1], ip).value
               && (forall k :: j < k < n - 1 && log[k].Asked? ==> log[k].ip != ip)
               && (Unstored(log[..n - 1], ip) ==> SlotlessBetween(log, j, n - 1, ip));
      if Unstored(log[..n], ip) {
        if e.Accepted? && e.ip == ip && !e.stored {
          assert Slotless(log[n - 1], ip);
        } else {
          var k :| j < k < n - 1 && Slotless(log[k], ip);
        }
        assert SlotlessBetween(log, j, n, ip);
      }
      assert forall k :: j < k < n && log[k].Asked? ==> log[k].ip != ip;
    }
  }

  /** A mapping for ip was accepted when the cache was full of other addresses. */
  predicate Slotless(e: Event, ip: Ip4)
  {
    e.Accepted? && e.ip == ip && !e.stored
  }

  ghost predicate SlotlessBetween(log: Log, i: nat, j: nat, ip: Ip4)
    requires j <= |log|
  {
    exists k :: i < k < j && Slotless(log[k], ip)
  }

  lemma {:induction false} AsksAreOrdered(cfg: Config, log: Log, i: nat, n: nat)
    requires LogOk(cfg, log) && i < n <= |log| && log[i].Asked?
    ensures LastAsk(log[..n], log[i].ip).Some? && log[i].time <= LastAsk(log[..n], log[i].ip).value
    decreases n
  {
    hide LogOk, Sendable, Good;
    assert log[..n][..n - 1] == log[..n - 1];
    var e := log[n - 1];
    if n - 1 > i {
      AsksAreOrdered(cfg, log, i, n - 1);
      LogOkAt(cfg, log, n - 1);
    }
  }

  /** Two ARP requests for one address are at least a second apart, across retries, expiry,
      re-creation and cache timeout, unless a mapping that found no slot was accepted between them:
      the rate limit of section 2.3.2.1 of RFC 1122. */
  lemma AsksAreASecondApart(cfg: Config, run: seq<Action>, i: nat, j: nat)
    requires i < j < |Run(cfg, run).shared.log|
    requires var log := Run(cfg, run).shared.log; log[i].Asked? && log[j].Asked? && log[i].ip == log[j].ip
    ensures var log := Run(cfg, run).shared.log;
            log[i].time + 1 <= log[j].time || SlotlessBetween(log, i, j, log[i].ip)
  {
    hide Run, PcOk, LogOk, Sendable, Good;
    RunKeepsInv(cfg, run);
    var log := Run(cfg, run).shared.log;
    var ip := log[i].ip;
    EventOfRun(cfg, run, j);
    AsksAreOrdered(cfg, log, i, j);
    LastAskMeans(log, j, ip);
    var m :| 0 <= m < j && log[m].Asked? && log[m].ip == ip && log[m].time == LastAsk(log[..j], ip).value
             && (forall k :: m < k < j && log[k].Asked? ==> log[k].ip != ip)
             && (Unstored(log[..j], ip) ==> SlotlessBetween(log, m, j, ip));
    assert i <= m;
    if Unstored(log[..j], ip) {
      var k :| m < k < j && Slotless(log[k], ip);
      assert i < k < j;
    }
  }

  ghost predicate EarlyAsk(log: Log, from: nat, ip: Ip4, previous: nat)
  {
    exists k :: from <= k < |log| && AskedBefore(log[k], ip, previous + 1)
  }

  predicate AskedBefore(e: Event, ip: Ip4, time: nat)
  {
    e.Asked? && e.ip == ip && e.time < time
  }
}
