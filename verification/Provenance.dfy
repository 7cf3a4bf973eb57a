/** What leaves as forwarded was received in the same run, and not more often than it was received. */
module Provenance {
  import opened Bytes
  import opened IpHeader
  import opened Routing
  import opened Icmp
  import opened ArpState
  import opened Reactions
  import opened History
  import opened Invariants
  import opened System
  import opened Theorems

  /** The outgoing copy that forwarding a received frame makes, if it is forwarded at all. */
  function Departure(cfg: Config, f: Frame): (r: Option<Packet>)
    ensures r.Some? ==> r.value.origin == Forwarded(f) && ValidIp(f) && f[IP_TTL] > 1
  {
    if !ValidIp(f) || f[IP_TTL] <= 1 then None
    else
      match NextHop(cfg, DecTtl(f), Forwarded(f))
      case None => None
      case Some(out) => Some(out.pkt)
  }

  predicate Known(p: Packet, known: set<Packet>)
  {
    p.origin.Forwarded? ==> p in known
  }

  ghost predicate AllKnown(packets: seq<Packet>, known: set<Packet>)
  {
    forall i :: 0 <= i < |packets| ==> Known(packets[i], known)
  }

  predicate EventKnown(e: Event, known: set<Packet>)
  {
    e.Queued? || e.Delivered? ==> Known(e.pkt, known)
  }

  ghost predicate StateKnown(s: Shared, known: set<Packet>)
  {
    && (forall i :: 0 <= i < |s.requests| ==> AllKnown(s.requests[i].packets, known))
    && (forall k :: 0 <= k < |s.log| ==> EventKnown(s.log[k], known))
  }

  ghost predicate PcKnown(pc: Pc, known: set<Packet>)
  {
    match pc
    case Ready => true
    case Found(out, _) => Known(out.pkt, known)
    case Missed(out) => Known(out.pkt, known)
    case Flushing(_, _, packets, _, _) => AllKnown(packets, known)
  }

  /** The frames that the router takes off the wire in a run. */
  function ReceivedIn(cfg: Config, run: seq<Action>): multiset<Frame>
  {
    if run == [] then multiset{}
    else ReceivedIn(cfg, run[..|run| - 1]) + ReceivedBy(cfg, Run(cfg, run[..|run| - 1]), run[|run| - 1])
  }

  function ReceivedBy(cfg: Config, st: Sys, a: Action): multiset<Frame>
  {
    if Enabled(cfg, st, a) && a.step.Receive? then multiset{a.step.f} else multiset{}
  }

  /** The outgoing copies of those of them that are forwarded. */
  ghost function Departures(cfg: Config, frames: multiset<Frame>): set<Packet>
  {
    set f | f in frames && Departure(cfg, f).Some? :: Departure(cfg, f).value
  }

  lemma LoggedKnown(s: Shared, e: Event, known: set<Packet>)
    requires StateKnown(s, known) && EventKnown(e, known)
    ensures StateKnown(Logged(s, e), known)
  {
    hide AllKnown;
    var t := Logged(s, e);
    forall k | 0 <= k < |t.log| ensures EventKnown(t.log[k], known) {
      assert k < |s.log| ==> t.log[k] == s.log[k];
    }
  }

  lemma AskKnown(s: Shared, cfg: Config, i: nat, name: string, now: nat, known: set<Packet>)
    requires StateKnown(s, known) && i < |s.requests|
    ensures StateKnown(Ask(s, cfg, i, name, now), known)
  {
    hide FindIface;
    var q := s.requests[i];
    var t := s.(requests := s.requests[i := q.(sent := now, times := q.times + 1)]);
    assert StateKnown(t, known);
    var iface := FindIface(cfg.ifs, name);
    if iface.Some? {
      LoggedKnown(t, Ask(s, cfg, i, name, now).log[|s.log|], known);
    }
  }

  lemma QueueKnown(s: Shared, ip: Ip4, pkt: Packet, known: set<Packet>)
    requires StateKnown(s, known) && Known(pkt, known)
    ensures StateKnown(Queue(s, ip, pkt), known)
  {
    var i := IndexOf(s.requests, ip);
    var t := Queue(s, ip, pkt);
    var u := t.(log := s.log);
    forall k | 0 <= k < |u.requests| ensures AllKnown(u.requests[k].packets, known) {
      if i.Some? && k != i.value {
        assert u.requests[k] == s.requests[k];
      } else if i.None? && k > 0 {
        assert u.requests[k] == s.requests[k - 1];
      }
    }
    if |pkt.buf| > 0 {
      LoggedKnown(u, t.log[|s.log|], known);
    }
  }

  lemma UnroutedKnown(s: Shared, cfg: Config, f: Frame, known: set<Packet>)
    requires StateKnown(s, known) && |f| >= ETH + 20
    ensures StateKnown(Unrouted(s, cfg, f), known)
  {
    hide StateKnown, Unrouted;
    var name := UnroutedLogs(s, cfg, f);
    LoggedKnown(s, Unsent(name), known);
  }

  lemma RoutedKnown(s: Shared, cfg: Config, f: Frame, origin: Origin, now: nat, known: set<Packet>)
    requires StateKnown(s, known) && |f| >= ETH + 20
    requires NextHop(cfg, f, origin).Some? ==> Known(NextHop(cfg, f, origin).value.pkt, known)
    ensures StateKnown(Routed(s, cfg, f, origin, now), known)
  {
    hide StateKnown, Deliver, QueueAndAsk, Lookup, NextHop, Unrouted;
    var out := NextHop(cfg, f, origin);
    UnroutedKnown(s, cfg, f, known);
    if out.Some? {
      var mac := Lookup(s.entries, out.value.hop);
      if mac.Some? {
        DeliverKnown(s, cfg, out.value.hop, out.value.pkt, mac.value, false, known);
      } else {
        QueueAndAskKnown(s, cfg, out.value.hop, out.value.pkt, now, known);
      }
    }
  }

  lemma DeliverKnown(s: Shared, cfg: Config, hop: Ip4, pkt: Packet, mac: Mac, queued: bool, known: set<Packet>)
    requires StateKnown(s, known) && Known(pkt, known)
    ensures StateKnown(Deliver(s, cfg, hop, pkt, mac, queued), known)
  {
    hide StateKnown, FindIface;
    var t := Deliver(s, cfg, hop, pkt, mac, queued);
    if t != s {
      LoggedKnown(s, t.log[|s.log|], known);
    }
  }

  lemma QueueAndAskKnown(s: Shared, cfg: Config, ip: Ip4, pkt: Packet, now: nat, known: set<Packet>)
    requires StateKnown(s, known) && Known(pkt, known)
    ensures StateKnown(QueueAndAsk(s, cfg, ip, pkt, now), known)
  {
    hide StateKnown, Queue, Ask;
    QueueKnown(s, ip, pkt, known);
    var q := Queue(s, ip, pkt);
    AskKnown(q, cfg, IndexOf(q.requests, ip).value, pkt.iface, now, known);
  }

  lemma {:induction false} ReportAllKnown(s: Shared, cfg: Config, packets: seq<Packet>, now: nat, known: set<Packet>)
    requires StateKnown(s, known)
    ensures StateKnown(ReportAll(s, cfg, packets, now), known)
    decreases |packets|
  {
    hide StateKnown, ErrorAbout, Routed;
    if packets != [] {
      var e := ErrorAbout(cfg, packets[0].buf, 3, 1);
      if e.Some? {
        OriginKept(cfg, e.value, Generated(packets[0].buf, 3, 1));
        RoutedKnown(s, cfg, e.value, Generated(packets[0].buf, 3, 1), now, known);
      }
      ReportAllKnown(Report(s, cfg, packets[0], now), cfg, packets[1..], now, known);
    }
  }

  lemma RemovedKnown(s: Shared, i: nat, known: set<Packet>)
    requires StateKnown(s, known) && i < |s.requests|
    ensures StateKnown(s.(requests := Removed(s.requests, i)), known)
  {
    hide AllKnown, Removed;
    RemovedIndex(s.requests, i);
  }

  lemma VisitKnown(s: Shared, cfg: Config, k: nat, now: nat, known: set<Packet>)
    requires StateKnown(s, known) && 0 < k <= |s.requests|
    ensures StateKnown(Visit(s, cfg, k, now), known)
  {
    hide StateKnown, ReportAll, Ask;
    var i := |s.requests| - k;
    var q := s.requests[i];
    if Due(q, now) && q.times >= MAX_ASKS {
      var t := ReportAll(s, cfg, q.packets, now);
      var j := |t.requests| - k;
      ReportAllKnown(s, cfg, q.packets, now, known);
      RemovedKnown(t, j, known);
      LoggedKnown(t.(requests := Removed(t.requests, j)), Expired(t.requests[j], q.packets), known);
    } else if Due(q, now) && q.packets != [] {
      AskKnown(s, cfg, i, q.packets[0].iface, now, known);
    }
  }

  lemma {:induction false} SweepKnown(s: Shared, cfg: Config, k: nat, now: nat, known: set<Packet>)
    requires StateKnown(s, known) && k <= |s.requests|
    ensures StateKnown(SweepFrom(s, cfg, k, now), known)
    decreases k
  {
    hide StateKnown, Visit;
    if k > 0 {
      VisitKnown(s, cfg, k, now, known);
      SweepKnown(Visit(s, cfg, k, now), cfg, k - 1, now, known);
    }
  }

  lemma ReceiveKnown(cfg: Config, s: Shared, f: Frame, name: string, now: nat, known: set<Packet>)
    requires StateKnown(s, known) && (Departure(cfg, f).Some? ==> Departure(cfg, f).value in known)
    ensures var r := Received(cfg, s, f, FindIface(cfg.ifs, name), name, now);
            StateKnown(r.0, known) && PcKnown(r.1, known)
  {
    hide FindIface, React, Lookup, NextHop, Insert, Departure, Unrouted, StateKnown;
    var recv := FindIface(cfg.ifs, name);
    match React(cfg, f, recv) {
      case Ignore =>
      case Fail => LoggedKnown(s, Unsent(name), known);
      case Answer(reply) => LoggedKnown(s, Transmitted(cfg, reply, name, Replied(reply, name)), known);
      case SendRouted(frame, origin) =>
        OutgoingIsDeparture(cfg, f, recv);
        UnroutedKnown(s, cfg, frame, known);
      case Learn(ip, mac, reply) => InsertKnown(s, mac, ip, now, known);
    }
  }

  /** What the router puts on the routed path about a received frame, unless it is an error about it,
      is the departure of that frame. */
  lemma OutgoingIsDeparture(cfg: Config, f: Frame, recv: Option<Iface>)
    ensures var r := React(cfg, f, recv);
            r.SendRouted? && NextHop(cfg, r.frame, r.origin).Some? ==>
              var p := NextHop(cfg, r.frame, r.origin).value.pkt;
              p.origin == r.origin && (p.origin.Forwarded? ==> Departure(cfg, f) == Some(p))
  {
    hide NextHop;
    var r := React(cfg, f, recv);
    if r.SendRouted? {
      ForwardedIsDecremented(cfg, f, recv);
      OriginKept(cfg, r.frame, r.origin);
    }
  }

  lemma ForwardedIsDecremented(cfg: Config, f: Frame, recv: Option<Iface>)
    ensures var r := React(cfg, f, recv);
            r.SendRouted? && r.origin.Forwarded? ==>
              r.origin.received == f && ValidIp(f) && f[IP_TTL] > 1 && r.frame == DecTtl(f)
  {
    hide ErrorAbout, EchoReply, ChecksMessage, Lpm, DecTtl;
  }

  lemma OriginKept(cfg: Config, f: Frame, origin: Origin)
    requires |f| >= ETH + 20
    ensures NextHop(cfg, f, origin).Some? ==> NextHop(cfg, f, origin).value.pkt.origin == origin
  {
    hide Lpm, FindIface;
  }

  lemma InsertKnown(s: Shared, mac: Mac, ip: Ip4, now: nat, known: set<Packet>)
    requires StateKnown(s, known)
    ensures StateKnown(Insert(s, mac, ip, now), known)
    ensures Detached(s, ip).Some? ==> AllKnown(Detached(s, ip).value.packets, known)
  {
    hide AllKnown, Stored, Slot;
    var i := IndexOf(s.requests, ip);
    if i.Some? {
      RemovedKnown(s, i.value, known);
    }
    var t := s.(requests := Insert(s, mac, ip, now).requests, entries := Stored(s.entries, mac, ip, now));
    assert StateKnown(t, known);
    LoggedKnown(t, Accepted(ip, mac, Slot(s.entries, ip).Some?), known);
  }

  lemma ProceedKnown(cfg: Config, s: Shared, pc: Pc, now: nat, known: set<Packet>)
    requires StateKnown(s, known) && PcKnown(pc, known)
    ensures var r := Proceeded(cfg, s, pc, now); StateKnown(r.0, known) && PcKnown(r.1, known)
  {
    hide StateKnown, Deliver, QueueAndAsk;
    match pc {
      case Ready =>
      case Found(out, mac) => DeliverKnown(s, cfg, out.hop, out.pkt, mac, false, known);
      case Missed(out) => QueueAndAskKnown(s, cfg, out.hop, out.pkt, now, known);
      case Flushing(ip, mac, packets, reply, name) =>
        if packets != [] {
          DeliverKnown(s, cfg, ip, packets[0], mac, true, known);
        } else if reply.Some? {
          LoggedKnown(s, Transmitted(cfg, reply.value, name, Replied(reply.value, name)), known);
        }
    }
  }

  lemma MoreKnown(st: Sys, known: set<Packet>, more: set<Packet>)
    requires StateKnown(st.shared, known) && PcKnown(st.pc, known) && known <= more
    ensures StateKnown(st.shared, more) && PcKnown(st.pc, more)
  {
  }

  lemma {:induction false} RunKnown(cfg: Config, run: seq<Action>)
    ensures var known := Departures(cfg, ReceivedIn(cfg, run));
            StateKnown(Run(cfg, run).shared, known) && PcKnown(Run(cfg, run).pc, known)
  {
    hide StateKnown, PcKnown, Received, Proceeded, SweepFrom, Departure;
    if run == [] {
      NothingKnown(cfg);
    } else {
      var before := run[..|run| - 1];
      var a, st := run[|run| - 1], Run(cfg, before);
      var known := Departures(cfg, ReceivedIn(cfg, run));
      RunKnown(cfg, before);
      MoreKnown(st, Departures(cfg, ReceivedIn(cfg, before)), known);
      if Enabled(cfg, st, a) {
        match a.step {
          case Receive(f, name) =>
            assert f in ReceivedIn(cfg, run);
            ReceiveKnown(cfg, st.shared, f, name, a.now, known);
          case Proceed => ProceedKnown(cfg, st.shared, st.pc, a.now, known);
          case Timer =>
            var aged := st.shared.(entries := AgedEntries(st.shared.entries, a.now));
            AgedKnown(st.shared, aged, known);
            SweepKnown(aged, cfg, |aged.requests|, a.now, known);
        }
      }
    }
  }

  lemma NothingKnown(cfg: Config)
    ensures StateKnown(Init().shared, {}) && PcKnown(Init().pc, {}) && Departures(cfg, multiset{}) == {}
  {
  }

  lemma AgedKnown(s: Shared, t: Shared, known: set<Packet>)
    requires StateKnown(s, known) && t.requests == s.requests && t.log == s.log
    ensures StateKnown(t, known)
  {
  }

  ghost predicate WasReceived(cfg: Config, run: seq<Action>, p: Packet)
    requires p.origin.Forwarded?
  {
    p.origin.received in ReceivedIn(cfg, run) && Departure(cfg, p.origin.received) == Some(p)
  }

  /** In every run, a frame that waits or has left as forwarded is the outgoing copy of a frame that
      was received in that run. */
  lemma ForwardedWasReceived(cfg: Config, run: seq<Action>)
    ensures var s := Run(cfg, run).shared;
            && (forall i, p ::
                  0 <= i < |s.requests| && p in s.requests[i].packets && p.origin.Forwarded? ==>
                    WasReceived(cfg, run, p))
            && (forall k ::
                  0 <= k < |s.log| && s.log[k].Delivered? && s.log[k].pkt.origin.Forwarded? ==>
                    WasReceived(cfg, run, s.log[k].pkt))
  {
    hide Departure, Run, PcKnown, ReceivedIn;
    RunKnown(cfg, run);
    var s := Run(cfg, run).shared;
    forall p | p in Departures(cfg, ReceivedIn(cfg, run)) ensures p.origin.Forwarded? && WasReceived(cfg, run, p) {
    }
    forall k | 0 <= k < |s.log| && s.log[k].Delivered? && s.log[k].pkt.origin.Forwarded?
      ensures WasReceived(cfg, run, s.log[k].pkt)
    {
      assert EventKnown(s.log[k], Departures(cfg, ReceivedIn(cfg, run)));
    }
    forall i, p | 0 <= i < |s.requests| && p in s.requests[i].packets &&
        p.origin.Forwarded? ensures WasReceived(cfg, run, p) {
      var j :| 0 <= j < |s.requests[i].packets| && s.requests[i].packets[j] == p;
      assert AllKnown(s.requests[i].packets, Departures(cfg, ReceivedIn(cfg, run)));
    }
  }

  // ----- not more often -----

  /** A frame is admitted to the routed path when it is delivered at once or queued. */
  function AdmittedBy(e: Event): multiset<Packet>
  {
    if e.Queued? || (e.Delivered? && !e.queued) then multiset{e.pkt} else multiset{}
  }

  function SentBy(e: Event): multiset<Packet>
  {
    if e.Delivered? then multiset{e.pkt} else multiset{}
  }

  function AdmittedIn(log: Log): multiset<Packet> { Sum(log, AdmittedBy) }
  function SentIn(log: Log): multiset<Packet> { Sum(log, SentBy) }

  function AtHand(pc: Pc): multiset<Packet>
  {
    if pc.Found? || pc.Missed? then multiset{pc.out.pkt} else multiset{}
  }

  /** From s to t no more than m was admitted. */
  predicate Admits(s: Shared, t: Shared, m: multiset<Packet>)
  {
    AdmittedIn(t.log) <= AdmittedIn(s.log) + m
  }

  /** From s to t, p was not admitted. */
  predicate Idle(s: Shared, t: Shared, p: Packet)
  {
    AdmittedIn(t.log)[p] <= AdmittedIn(s.log)[p]
  }

  lemma LogAdmits(s: Shared, e: Event)
    ensures AdmittedIn(Logged(s, e).log) == AdmittedIn(s.log) + AdmittedBy(e)
  {
    AppendOne(s.log, e);
  }

  lemma AskAdmits(s: Shared, cfg: Config, i: nat, name: string, now: nat)
    requires i < |s.requests|
    ensures AdmittedIn(Ask(s, cfg, i, name, now).log) == AdmittedIn(s.log)
  {
    hide FindIface;
    var t := Ask(s, cfg, i, name, now);
    if t.log != s.log {
      LogAdmits(s, t.log[|s.log|]);
    }
  }

  lemma DeliverAdmits(s: Shared, cfg: Config, hop: Ip4, pkt: Packet, mac: Mac, queued: bool)
    ensures Admits(s, Deliver(s, cfg, hop, pkt, mac, queued), if queued then multiset{} else multiset{pkt})
  {
    hide FindIface, Sendable, Addressed, AdmittedIn;
    var t := Deliver(s, cfg, hop, pkt, mac, queued);
    if t.log != s.log {
      LogAdmits(s, t.log[|s.log|]);
    }
  }

  lemma QueueAndAskAdmits(s: Shared, cfg: Config, ip: Ip4, pkt: Packet, now: nat)
    ensures Admits(s, QueueAndAsk(s, cfg, ip, pkt, now), multiset{pkt})
  {
    hide Ask;
    var q := Queue(s, ip, pkt);
    if |pkt.buf| > 0 {
      LogAdmits(s, q.log[|s.log|]);
    }
    AskAdmits(q, cfg, IndexOf(q.requests, ip).value, pkt.iface, now);
  }

  lemma UnroutedAdmits(s: Shared, cfg: Config, f: Frame)
    requires |f| >= ETH + 20
    ensures AdmittedIn(Unrouted(s, cfg, f).log) == AdmittedIn(s.log)
  {
    hide Unrouted, AdmittedIn;
    var name := UnroutedLogs(s, cfg, f);
    LogAdmits(s, Unsent(name));
  }

  /** Error generation admits only the errors it generates. */
  lemma ReportIdle(s: Shared, cfg: Config, pkt: Packet, now: nat, p: Packet)
    requires p.origin.Forwarded?
    ensures Idle(s, Report(s, cfg, pkt, now), p)
  {
    hide ErrorAbout, NextHop, Lookup, Deliver, QueueAndAsk, AdmittedIn, Unrouted;
    var e := ErrorAbout(cfg, pkt.buf, 3, 1);
    if e.Some? {
      UnroutedAdmits(s, cfg, e.value);
      var origin := Generated(pkt.buf, 3, 1);
      OriginKept(cfg, e.value, origin);
      var out := NextHop(cfg, e.value, origin);
      if out.Some? {
        var mac := Lookup(s.entries, out.value.hop);
        if mac.Some? {
          DeliverAdmits(s, cfg, out.value.hop, out.value.pkt, mac.value, false);
        } else {
          QueueAndAskAdmits(s, cfg, out.value.hop, out.value.pkt, now);
        }
      }
    }
  }

  lemma {:induction false} ReportAllIdle(s: Shared, cfg: Config, packets: seq<Packet>, now: nat, p: Packet)
    requires p.origin.Forwarded?
    ensures Idle(s, ReportAll(s, cfg, packets, now), p)
    decreases |packets|
  {
    hide Report, AdmittedIn;
    if packets != [] {
      ReportIdle(s, cfg, packets[0], now, p);
      ReportAllIdle(Report(s, cfg, packets[0], now), cfg, packets[1..], now, p);
    }
  }

  lemma VisitIdle(s: Shared, cfg: Config, k: nat, now: nat, p: Packet)
    requires 0 < k <= |s.requests| && p.origin.Forwarded?
    ensures Idle(s, Visit(s, cfg, k, now), p)
  {
    hide ReportAll, Ask, AdmittedIn;
    var i := |s.requests| - k;
    var q := s.requests[i];
    if Due(q, now) && q.times >= MAX_ASKS {
      var t := ReportAll(s, cfg, q.packets, now);
      ReportAllIdle(s, cfg, q.packets, now, p);
      LogAdmits(t, Expired(t.requests[|t.requests| - k], q.packets));
    } else if Due(q, now) && q.packets != [] {
      AskAdmits(s, cfg, i, q.packets[0].iface, now);
    }
  }

  lemma {:induction false} SweepIdle(s: Shared, cfg: Config, k: nat, now: nat, p: Packet)
    requires k <= |s.requests| && p.origin.Forwarded?
    ensures Idle(s, SweepFrom(s, cfg, k, now), p)
    decreases k
  {
    hide Visit, AdmittedIn;
    if k > 0 {
      VisitIdle(s, cfg, k, now, p);
      SweepIdle(Visit(s, cfg, k, now), cfg, k - 1, now, p);
    }
  }

  /** A received frame brings at most its own departure to hand. */
  lemma ReceiveAdmits(cfg: Config, s: Shared, f: Frame, name: string, now: nat, p: Packet)
    requires p.origin.Forwarded?
    ensures var r := Received(cfg, s, f, FindIface(cfg.ifs, name), name, now);
            Idle(s, r.0, p) && AtHand(r.1)[p] <= if p.origin.received == f then 1 else 0
  {
    hide FindIface, React, Lookup, NextHop, Departure, Insert, AdmittedIn, Unrouted, Detached;
    var recv := FindIface(cfg.ifs, name);
    if React(cfg, f, recv).SendRouted? {
      RouteAdmits(cfg, s, f, recv, name, now, p);
    } else {
      OtherAdmits(cfg, s, f, recv, name, now, p);
    }
  }

  lemma RouteAdmits(cfg: Config, s: Shared, f: Frame, recv: Option<Iface>, name: string, now: nat, p: Packet)
    requires p.origin.Forwarded? && React(cfg, f, recv).SendRouted?
    ensures var r := Received(cfg, s, f, recv, name, now);
            Idle(s, r.0, p) && AtHand(r.1)[p] <= if p.origin.received == f then 1 else 0
  {
    hide FindIface, React, Lookup, NextHop, Departure, Insert, AdmittedIn, Unrouted, Detached;
    UnroutedAdmits(s, cfg, React(cfg, f, recv).frame);
    AtHandIsDeparture(cfg, f, recv, p);
  }

  lemma OtherAdmits(cfg: Config, s: Shared, f: Frame, recv: Option<Iface>, name: string, now: nat, p: Packet)
    requires !React(cfg, f, recv).SendRouted?
    ensures var r := Received(cfg, s, f, recv, name, now); Idle(s, r.0, p) && AtHand(r.1) == multiset{}
  {
    hide FindIface, React, Lookup, NextHop, Departure, Insert, AdmittedIn, Unrouted, Detached, Transmitted;
    match React(cfg, f, recv) {
      case Ignore =>
      case Fail => LogAdmits(s, Unsent(name));
      case Answer(reply) => ReplyAdmits(cfg, s, reply, name);
      case Learn(ip, mac, reply) => InsertAdmits(s, mac, ip, now);
    }
  }

  lemma ReplyAdmits(cfg: Config, s: Shared, reply: Frame, name: string)
    ensures AdmittedIn(Respond(s, cfg, reply, name).log) == AdmittedIn(s.log)
  {
    LogAdmits(s, Transmitted(cfg, reply, name, Replied(reply, name)));
  }

  lemma AtHandIsDeparture(cfg: Config, f: Frame, recv: Option<Iface>, p: Packet)
    requires p.origin.Forwarded? && React(cfg, f, recv).SendRouted?
    ensures var r := React(cfg, f, recv); var next := NextHop(cfg, r.frame, r.origin);
            next.Some? && next.value.pkt == p ==> p.origin.received == f
  {
    hide React, NextHop;
    OutgoingIsDeparture(cfg, f, recv);
  }

  lemma InsertAdmits(s: Shared, mac: Mac, ip: Ip4, now: nat)
    ensures AdmittedIn(Insert(s, mac, ip, now).log) == AdmittedIn(s.log)
  {
    LogAdmits(s, Accepted(ip, mac, Slot(s.entries, ip).Some?));
  }

  lemma ProceedAdmits(cfg: Config, s: Shared, pc: Pc, now: nat)
    ensures var r := Proceeded(cfg, s, pc, now);
            Admits(s, r.0, AtHand(pc)) && AtHand(r.1) == multiset{}
  {
    hide Deliver, QueueAndAsk, AdmittedIn;
    match pc {
      case Ready =>
      case Found(out, mac) => DeliverAdmits(s, cfg, out.hop, out.pkt, mac, false);
      case Missed(out) => QueueAndAskAdmits(s, cfg, out.hop, out.pkt, now);
      case Flushing(ip, mac, packets, reply, name) =>
        if packets != [] {
          DeliverAdmits(s, cfg, ip, packets[0], mac, true);
        } else if reply.Some? {
          ReplyAdmits(cfg, s, reply.value, name);
        }
    }
  }

  lemma {:induction false} RunAdmits(cfg: Config, run: seq<Action>, p: Packet)
    requires p.origin.Forwarded?
    ensures var st := Run(cfg, run);
            AdmittedIn(st.shared.log)[p] + AtHand(st.pc)[p] <= ReceivedIn(cfg, run)[p.origin.received]
  {
    hide Received, Proceeded, SweepFrom, AdmittedIn, AtHand;
    if run == [] {
      assert AdmittedIn([]) == multiset{} by { NothingAdmitted(); }
      assert AtHand(Ready) == multiset{} by { NothingAdmitted(); }
    } else {
      var before := run[..|run| - 1];
      var a, st := run[|run| - 1], Run(cfg, before);
      RunAdmits(cfg, before, p);
      if Enabled(cfg, st, a) {
        match a.step {
          case Receive(f, name) =>
            assert AtHand(Ready) == multiset{} by { NothingAdmitted(); }
            ReceiveAdmits(cfg, st.shared, f, name, a.now, p);
          case Proceed => ProceedAdmits(cfg, st.shared, st.pc, a.now);
          case Timer =>
            var aged := st.shared.(entries := AgedEntries(st.shared.entries, a.now));
            SweepIdle(aged, cfg, |aged.requests|, a.now, p);
        }
      }
    }
  }

  lemma NothingAdmitted()
    ensures AdmittedIn([]) == multiset{} && AtHand(Ready) == multiset{}
  {
  }

  lemma {:induction false} SentOrQueued(log: Log)
    ensures SentIn(log) + QueuedIn(log) == AdmittedIn(log) + FlushedIn(log)
  {
    if log != [] {
      var rest, e := log[..|log| - 1], log[|log| - 1];
      SentOrQueued(rest);
      assert SentBy(e) + QueuedBy(e) == AdmittedBy(e) + FlushedBy(e);
      AddPairs(SentIn(rest), QueuedIn(rest), AdmittedIn(rest), FlushedIn(rest), SentBy(e), QueuedBy(e),
          AdmittedBy(e), FlushedBy(e));
    }
  }

  lemma AddPairs<T>(a: multiset<T>, b: multiset<T>, c: multiset<T>, d: multiset<T>,
                    x: multiset<T>, y: multiset<T>, z: multiset<T>, w: multiset<T>)
    requires a + b == c + d && x + y == z + w
    ensures (a + x) + (b + y) == (c + z) + (d + w)
  {
    assert (a + x) + (b + y) == (a + b) + (x + y);
    assert (c + z) + (d + w) == (c + d) + (z + w);
  }

  lemma DeliveredWasReceived(cfg: Config, run: seq<Action>, k: nat)
    requires k < |Run(cfg, run).shared.log| && Run(cfg, run).shared.log[k].Delivered?
    requires Run(cfg, run).shared.log[k].pkt.origin.Forwarded?
    ensures WasReceived(cfg, run, Run(cfg, run).shared.log[k].pkt)
  {
    hide Departure, Run, ReceivedIn, WasReceived;
    ForwardedWasReceived(cfg, run);
  }

  /** The router does not multiply frames: every forwarded frame that leaves is the one departure of a
      received frame, and it leaves at most as often as that frame was received. */
  lemma NoMoreOftenThanReceived(cfg: Config, run: seq<Action>, f: Frame)
    ensures var log := Run(cfg, run).shared.log;
            && (forall k :: 0 <= k < |log| && log[k].Delivered? && log[k].pkt.origin == Forwarded(f) ==>
                  Departure(cfg, f) == Some(log[k].pkt))
            && (Departure(cfg, f).Some? ==> SentIn(log)[Departure(cfg, f).value] <= ReceivedIn(cfg, run)[f])
  {
    hide Departure, Run, ReceivedIn, AdmittedIn, SentIn, QueuedIn, FlushedIn;
    var log, d := Run(cfg, run).shared.log, Departure(cfg, f);
    forall k | 0 <= k < |log| && log[k].Delivered? && log[k].pkt.origin == Forwarded(f)
      ensures d == Some(log[k].pkt)
    {
      DeliveredWasReceived(cfg, run, k);
    }
    if d.Some? {
      RunAdmits(cfg, run, d.value);
      FramesAreConserved(cfg, run);
      SentOrQueued(log);
      assert (SentIn(log) + QueuedIn(log))[d.value] == (AdmittedIn(log) + FlushedIn(log))[d.value];
      assert FlushedIn(log)[d.value] <= QueuedIn(log)[d.value];
    }
  }

  // ----- by received frame -----

  /** The received frame whose forwarding left with an event. */
  function DepartedBy(e: Event): multiset<Frame>
  {
    if e.Delivered? && e.pkt.origin.Forwarded? then multiset{e.pkt.origin.received} else multiset{}
  }

  function DepartedIn(log: Log): multiset<Frame>
  {
    if log == [] then multiset{} else DepartedIn(log[..|log| - 1]) + DepartedBy(log[|log| - 1])
  }

  lemma {:induction false} DepartedIsSent(log: Log, f: Frame, d: Option<Packet>)
    requires forall k :: 0 <= k < |log| && log[k].Delivered? && log[k].pkt.origin == Forwarded(f) ==>
             d == Some(log[k].pkt)
    requires d.Some? ==> d.value.origin == Forwarded(f)
    ensures DepartedIn(log)[f] == if d.Some? then SentIn(log)[d.value] else 0
  {
    if log != [] {
      var rest, e := log[..|log| - 1], log[|log| - 1];
      assert forall k :: 0 <= k < |rest| ==> rest[k] == log[k];
      DepartedIsSent(rest, f, d);
      assert SentIn(log) == SentIn(rest) + SentBy(e);
      assert e.Delivered? && e.pkt.origin == Forwarded(f) ==> d == Some(e.pkt);
    }
  }

  /** Frames leave as forwarded at most as often as they were received, all together. */
  lemma DepartedWereReceived(cfg: Config, run: seq<Action>)
    ensures DepartedIn(Run(cfg, run).shared.log) <= ReceivedIn(cfg, run)
  {
    hide Departure, Run, ReceivedIn, SentIn, DepartedIn;
    var log := Run(cfg, run).shared.log;
    forall f ensures DepartedIn(log)[f] <= ReceivedIn(cfg, run)[f] {
      NoMoreOftenThanReceived(cfg, run, f);
      DepartedIsSent(log, f, Departure(cfg, f));
    }
  }
}
