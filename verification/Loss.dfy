/** What error generation pushes onto the request that is being destroyed: these frames are lost with
    it. */
module Loss {
  import opened Bytes
  import opened IpHeader
  import opened Icmp
  import opened Routing
  import opened ArpState
  import opened History
  import opened Order
  import opened Invariants
  import Arp

  function FromEnd(s: Shared, k: nat): Request
    requires 0 < k <= |s.requests|
  {
    s.requests[|s.requests| - k]
  }

  lemma GoodIsLong(cfg: Config, hop: Ip4, pkt: Packet)
    requires Good(cfg, hop, pkt)
    ensures |pkt.buf| > 0 && FindIface(cfg.ifs, pkt.iface).Some?
  {
    hide NextHop, Makes, FindIface;
  }

  lemma OnlyOne(s: Shared, i: nat, j: nat)
    requires Shape(s) && i < |s.requests| && j < |s.requests|
    ensures s.requests[i].ip == s.requests[j].ip <==> i == j
  {
  }

  lemma JoinedPushes(s: Shared, i: nat, pkt: Packet, k: nat)
    requires Shape(s) && i < |s.requests| && 0 < k <= |s.requests|
    ensures var t := Joined(s, i, pkt);
            k <= |t.requests|
            && FromEnd(t, k).packets == (if s.requests[i].ip == FromEnd(s, k).ip then [pkt] else [])
                 + FromEnd(s, k).packets
  {
    OnlyOne(s, i, |s.requests| - k);
    hide Shape;
  }

  lemma OpenedPushes(cfg: Config, s: Shared, ip: Ip4, pkt: Packet, k: nat, now: nat)
    requires FindIface(cfg.ifs, pkt.iface).Some? && 0 < k <= |s.requests|
    ensures k <= |Opened(s, cfg, ip, pkt, now).requests| && FromEnd(Opened(s, cfg, ip, pkt, now), k) == FromEnd(s, k)
  {
    hide FindIface;
  }

  lemma QueuePushes(cfg: Config, s: Shared, hop: Ip4, pkt: Packet, k: nat, now: nat)
    requires Shape(s) && Retrying(cfg, s, now) && Good(cfg, hop, pkt) && 0 < k <= |s.requests|
    ensures var t := QueueAndAsk(s, cfg, hop, pkt, now);
            k <= |t.requests|
            && FromEnd(t, k).packets == (if hop == FromEnd(s, k).ip then [pkt] else []) + FromEnd(s, k).packets
  {
    hide Good, FindIface, QueueAndAsk, Joined, Opened, Shape;
    GoodIsLong(cfg, hop, pkt);
    QueueAndAskCases(cfg, s, hop, pkt, now);
    var i := IndexOf(s.requests, hop);
    if i.Some? {
      JoinedPushes(s, i.value, pkt, k);
    } else {
      OpenedPushes(cfg, s, hop, pkt, k, now);
    }
  }

  lemma RoutedPushes(cfg: Config, s: Shared, f: Frame, origin: Origin, k: nat, now: nat)
    requires Shape(s) && Retrying(cfg, s, now) && 0 < k <= |s.requests| && ValidIp(f) && Makes(cfg, origin, f)
    ensures var t := Routed(s, cfg, f, origin, now); var out := NextHop(cfg, f, origin);
            k <= |t.requests|
            && FromEnd(t, k).packets
               == (if out.Some? && out.value.hop == FromEnd(s, k).ip then [out.value.pkt] else [])
                   + FromEnd(s, k).packets
  {
    hide NextHop, Makes, Good, QueueAndAsk, Deliver, Retrying;
    if NextHop(cfg, f, origin).Some? {
      var out := NextHop(cfg, f, origin).value;
      NextHopIsGood(cfg, f, origin);
      LookupIsMembership(s.entries, out.hop);
      if Lookup(s.entries, out.hop).None? {
        QueuePushes(cfg, s, out.hop, out.pkt, k, now);
      }
    }
  }

  lemma ReportPushes(cfg: Config, s: Shared, pkt: Packet, k: nat, now: nat, inFlight: multiset<Packet>)
    requires Inv(cfg, s, now, inFlight) && 0 < k <= |s.requests|
    ensures var t := Report(s, cfg, pkt, now);
            k <= |t.requests| && FromEnd(t, k).packets == Returned(cfg, pkt, FromEnd(s, k).ip) + FromEnd(s, k).packets
  {
    hide ErrorAbout, Routed, NextHop, Makes, ValidIp, Shape, Retrying, Balanced, Counted, Paced, LogOk, Truthful;
    var e := ErrorAbout(cfg, pkt.buf, 3, 1);
    if e.Some? {
      ErrorAboutIsValid(cfg, pkt.buf, 3, 1);
      RoutedPushes(cfg, s, e.value, Generated(pkt.buf, 3, 1), k, now);
    }
  }

  lemma {:induction false} ReportAllPushes(cfg: Config, s: Shared, packets: seq<Packet>, k: nat, now: nat,
                                           inFlight: multiset<Packet>)
    requires Inv(cfg, s, now, inFlight) && 0 < k <= |s.requests|
    ensures var t := ReportAll(s, cfg, packets, now);
            k <= |t.requests| && FromEnd(t, k).packets == Returning(cfg, packets, FromEnd(s, k).ip)
                + FromEnd(s, k).packets
    decreases |packets|
  {
    hide Inv, Report, Returned, LastAccepted;
    if packets != [] {
      var t := Report(s, cfg, packets[0], now);
      ReportKeeps(cfg, s, packets[0], now, inFlight);
      ReportPushes(cfg, s, packets[0], k, now, inFlight);
      assert Kept(s.requests[|s.requests| - k], t.requests[|t.requests| - |s.requests| + (|s.requests| - k)]);
      ReportAllPushes(cfg, t, packets[1..], k, now, inFlight);
      var ip := FromEnd(s, k).ip;
      assert Returning(cfg, packets, ip) == Returning(cfg, packets[1..], ip) + Returned(cfg, packets[0], ip);
    }
  }

  // ----- what error generation emits -----

  lemma {:induction false} EmissionsConcat(a: Log, b: Log)
    ensures Emissions(a + b) == Emissions(a) + Emissions(b)
    decreases |b|
  {
    if b == [] {
      assert a + b == a;
    } else {
      var n := |b| - 1;
      assert (a + b)[..|a| + n] == a + b[..n];
      EmissionsConcat(a, b[..n]);
    }
  }

  /** From s to t, exactly outs was emitted. */
  ghost predicate Emitting(s: Shared, t: Shared, outs: seq<Outgoing>)
  {
    && s.log <= t.log
    && Emissions(t.log[|s.log|..]) == outs
    && forall k :: |s.log| <= k < |t.log| ==> InReport(t.log[k])
  }

  lemma EmittingTrans(s: Shared, t: Shared, u: Shared, a: seq<Outgoing>, b: seq<Outgoing>)
    requires Emitting(s, t, a) && Emitting(t, u, b)
    ensures Emitting(s, u, a + b)
  {
    hide Emissions;
    assert u.log[|s.log|..] == t.log[|s.log|..] + u.log[|t.log|..];
    EmissionsConcat(t.log[|s.log|..], u.log[|t.log|..]);
  }

  lemma EmittingOne(s: Shared, e: Event)
    requires InReport(e)
    ensures Emitting(s, Logged(s, e), if e.Asked? || e.Unsent? then [] else [Outgoing(e.ip, e.pkt)])
  {
    assert Logged(s, e).log[|s.log|..] == [e];
    assert Emissions([e][..0]) == [];
  }

  lemma QueueEmitting(cfg: Config, s: Shared, out: Outgoing, now: nat)
    requires Retrying(cfg, s, now) && Good(cfg, out.hop, out.pkt)
    ensures Emitting(s, QueueAndAsk(s, cfg, out.hop, out.pkt, now), [out])
  {
    hide Good, FindIface, QueueAndAsk, Emitting, Arp.RequestFrame;
    GoodIsLong(cfg, out.hop, out.pkt);
    QueueAndAskCases(cfg, s, out.hop, out.pkt, now);
    var t := QueueAndAsk(s, cfg, out.hop, out.pkt, now);
    var i := IndexOf(s.requests, out.hop);
    if i.Some? {
      EmittingOne(t.(log := s.log), t.log[|s.log|]);
      SameLog(s, t.(log := s.log), t, [out]);
    } else {
      var u := t.(log := s.log + [t.log[|s.log|]]);
      EmittingOne(t.(log := s.log), t.log[|s.log|]);
      SameLog(s, t.(log := s.log), u, [out]);
      EmittingOne(u, t.log[|s.log| + 1]);
      EmittingTrans(s, u, t, [out], []);
      assert [out] + [] == [out];
    }
  }

  /** Only the log matters. */
  lemma SameLog(s: Shared, r: Shared, t: Shared, outs: seq<Outgoing>)
    requires r.log == s.log && Emitting(r, t, outs)
    ensures Emitting(s, t, outs)
  {
  }

  lemma HitEmitting(cfg: Config, s: Shared, out: Outgoing, mac: Mac)
    requires Good(cfg, out.hop, out.pkt)
    ensures Emitting(s, Deliver(s, cfg, out.hop, out.pkt, mac, false), [out])
  {
    hide Emitting, ValidIp, NextHop, Makes, FindIface;
    var t := Deliver(s, cfg, out.hop, out.pkt, mac, false);
    assert t == Logged(s, DeliveredEvent(cfg, out.hop, out.pkt, mac, false));
    EmittingOne(s, DeliveredEvent(cfg, out.hop, out.pkt, mac, false));
  }

  lemma NothingEmitting(s: Shared)
    ensures Emitting(s, s, [])
  {
  }

  /** Reporting a frame emits the error about it if there is one to emit. */
  lemma ReportEmits(cfg: Config, s: Shared, p: Packet, now: nat, inFlight: multiset<Packet>)
    requires Inv(cfg, s, now, inFlight)
    ensures Emitting(s, Report(s, cfg, p, now), if ErrorOut(cfg, p).Some? then [ErrorOut(cfg, p).value] else [])
  {
    hide ErrorAbout, NextHop, Makes, ValidIp, Good, QueueAndAsk, Deliver, Emitting, Shape, Retrying, Balanced, Counted;
    hide Paced, LogOk, Truthful, Ordered, Lookup, Unrouted;
    NothingEmitting(s);
    var e := ErrorAbout(cfg, p.buf, 3, 1);
    if e.Some? {
      var origin := Generated(p.buf, 3, 1);
      ErrorAboutIsValid(cfg, p.buf, 3, 1);
      var next := NextHop(cfg, e.value, origin);
      if next.Some? {
        NextHopIsGood(cfg, e.value, origin);
        var mac := Lookup(s.entries, next.value.hop);
        if mac.Some? {
          HitEmitting(cfg, s, next.value, mac.value);
        } else {
          QueueEmitting(cfg, s, next.value, now);
        }
      } else {
        var name := UnroutedLogs(s, cfg, e.value);
        EmittingOne(s, Unsent(name));
      }
    }
  }

  lemma {:induction false} ReportAllEmitting(cfg: Config, s: Shared, packets: seq<Packet>, now: nat,
                                             inFlight: multiset<Packet>)
    requires Inv(cfg, s, now, inFlight)
    ensures Emitting(s, ReportAll(s, cfg, packets, now), Errors(cfg, packets))
    decreases |packets|
  {
    hide Inv, Report, Emitting, ErrorOut, Extends;
    if packets == [] {
      NothingEmitting(s);
    } else {
      var t := Report(s, cfg, packets[0], now);
      ReportKeeps(cfg, s, packets[0], now, inFlight);
      ReportEmits(cfg, s, packets[0], now, inFlight);
      ReportAllEmitting(cfg, t, packets[1..], now, inFlight);
      EmittingTrans(s, t, ReportAll(t, cfg, packets[1..], now),
                    if ErrorOut(cfg, packets[0]).Some? then [ErrorOut(cfg, packets[0]).value] else [],
                    Errors(cfg, packets[1..]));
    }
  }

  /** Error generation emits exactly the errors that can be built and routed, in the order of the
      frames, and logs nothing else but ARP requests. */
  lemma ReportAllEmits(cfg: Config, s: Shared, packets: seq<Packet>, now: nat, inFlight: multiset<Packet>)
    requires Inv(cfg, s, now, inFlight)
    ensures var log := ReportAll(s, cfg, packets, now).log;
            |s.log| <= |log| && ReportsFrom(cfg, log, |s.log|, packets)
  {
    hide Inv, ReportAll, Errors, Emissions;
    ReportAllEmitting(cfg, s, packets, now, inFlight);
  }
}
