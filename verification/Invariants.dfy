/** The invariant of the locked state, and that every primitive change keeps it. */
module Invariants {
  import opened Bytes
  import opened IpHeader
  import opened Icmp
  import opened Routing
  import opened ArpState
  import opened History
  import opened Order
  import Arp

  predicate Cached(entries: seq<Entry>, ip: Ip4)
  {
    exists i :: 0 <= i < |entries| && entries[i].valid && entries[i].ip == ip
  }

  predicate Pending(requests: seq<Request>, ip: Ip4)
  {
    exists i :: 0 <= i < |requests| && requests[i].ip == ip
  }

  // ----- the frames -----

  /** The same frame but for its hardware addresses. */
  predicate SameDatagram(f: Frame, g: Frame)
  {
    |f| == |g| && |f| >= ETH && f[12..] == g[12..]
  }

  /** A frame on the routed path is, from its IP header on, what its origin made: the received
      datagram with its TTL decremented, or the generated error. */
  predicate Makes(cfg: Config, origin: Origin, f: Frame)
  {
    match origin
    case Forwarded(g) => ValidIp(g) && g[IP_TTL] > 1 && SameDatagram(f, DecTtl(g))
    case Generated(about, kind, code) =>
      var e := ErrorAbout(cfg, about, kind, code);
      e.Some? && SameDatagram(f, e.value)
  }

  /** A frame that waits for, or leaves to, a next hop: valid, with the source address of the
      interface it leaves by, on the route that the table gives its destination. */
  predicate Good(cfg: Config, hop: Ip4, p: Packet)
  {
    && ValidIp(p.buf)
    && Sendable(cfg, p.buf, p.iface)
    && NextHop(cfg, p.buf, p.origin) == Some(Outgoing(hop, p))
    && Makes(cfg, p.origin, p.buf)
  }

  /** The host-unreachable error about a waiting frame, ready to leave, if it can be built and routed. */
  function ErrorOut(cfg: Config, p: Packet): Option<Outgoing>
  {
    match ErrorAbout(cfg, p.buf, 3, 1)
    case None => None
    case Some(e) => NextHop(cfg, e, Generated(p.buf, 3, 1))
  }

  /** That error if it leaves through ip. */
  function Returned(cfg: Config, p: Packet, ip: Ip4): seq<Packet>
  {
    match ErrorOut(cfg, p)
    case None => []
    case Some(out) => if out.hop == ip then [out.pkt] else []
  }

  /** Those errors about several frames, in the order of the frames. */
  function Errors(cfg: Config, packets: seq<Packet>): seq<Outgoing>
  {
    if packets == [] then []
    else (if ErrorOut(cfg, packets[0]).Some? then [ErrorOut(cfg, packets[0]).value] else []) + Errors(cfg, packets[1..])
  }

  /** What was delivered without waiting, or queued, in some stretch of the log. */
  function Emissions(events: Log): seq<Outgoing>
  {
    if events == [] then []
    else
      var e := events[|events| - 1];
      Emissions(events[..|events| - 1])
      + if e.Queued? || (e.Delivered? && !e.queued) then [Outgoing(e.ip, e.pkt)] else []
  }

  /** An event of error generation. */
  predicate InReport(e: Event)
  {
    e.Asked? || e.Unsent? || e.Queued? || (e.Delivered? && !e.queued)
  }

  /** From position b on, the log is the emission of the errors about some frames and nothing else. */
  ghost predicate ReportsFrom(cfg: Config, log: Log, b: nat, packets: seq<Packet>)
    requires b <= |log|
  {
    Emissions(log[b..]) == Errors(cfg, packets) && forall k :: b <= k < |log| ==> InReport(log[k])
  }

  /** Such errors about several frames, the latest in front. */
  function Returning(cfg: Config, packets: seq<Packet>, ip: Ip4): seq<Packet>
  {
    if packets == [] then [] else Returning(cfg, packets[1..], ip) + Returned(cfg, packets[0], ip)
  }

  /** A route names an interface that does not exist. */
  ghost predicate UnknownRoute(cfg: Config, name: string)
  {
    FindIface(cfg.ifs, name).None? && exists r :: r in cfg.table && r.iface == name
  }

  // ----- the log -----

  /** The frames of a request that is given up were good, the errors about them were just emitted, and
      those that went onto the request itself are in front of it. */
  ghost predicate WasReported(cfg: Config, log: Log, request: Request, reported: seq<Packet>)
  {
    && request.packets == Returning(cfg, reported, request.ip) + reported
    && (forall p :: p in reported ==> Good(cfg, request.ip, p))
    && exists b :: 0 <= b <= |log| && ReportsFrom(cfg, log, b, reported)
  }

  /** An ARP request names the interface and the next hop of the frame that joined its request last. */
  ghost predicate AsksForLatest(cfg: Config, log: Log, id: nat, ip: Ip4, frame: Frame, iface: string)
  {
    && FindIface(cfg.ifs, iface).Some? && frame == Arp.RequestFrame(FindIface(cfg.ifs, iface).value, ip)
    && var joined := QueuedTo(log, id);
       joined != [] && joined[0].iface == iface && Good(cfg, ip, joined[0])
  }

  ghost predicate EventOk(cfg: Config, log: Log, e: Event)
  {
    match e
    case Accepted(_, _, _) => true
    case Asked(id, ip, time, frame, iface) =>
      && Sendable(cfg, frame, iface)
      && AsksForLatest(cfg, log, id, ip, frame, iface)
      && Asks(log, id) < MAX_ASKS
      && (LastAsk(log, ip).Some? ==> LastAsk(log, ip).value <= time)
      && (LastAsk(log, ip).Some? ==> LastAsk(log, ip).value + 1 <= time || Unstored(log, ip))
    case Queued(ip, pkt, _) => Good(cfg, ip, pkt)
    case Delivered(ip, pkt, frame, _) =>
      && Good(cfg, ip, pkt)
      && Sendable(cfg, frame, pkt.iface)
      && LastAccepted(log, ip) == Some(MacAt(frame, DHOST))
      && SameDatagram(frame, pkt.buf)
    case Expired(request, reported) =>
      && request.times == MAX_ASKS
      && WasReported(cfg, log, request, reported)
    case Replied(frame, iface) => Sendable(cfg, frame, iface)
    case Refused(_, _) => false
    case Unsent(name) => UnknownRoute(cfg, name)
  }

  ghost predicate LogOk(cfg: Config, log: Log)
  {
    log == [] || (LogOk(cfg, log[..|log| - 1]) && EventOk(cfg, log[..|log| - 1], log[|log| - 1]))
  }

  // ----- the locked state -----

  ghost predicate UniqueEntries(entries: seq<Entry>)
  {
    forall i, j :: 0 <= i < j < |entries| && entries[i].valid && entries[j].valid ==> entries[i].ip != entries[j].ip
  }

  ghost predicate UniqueRequests(requests: seq<Request>, nextId: nat)
  {
    && (forall i, j :: 0 <= i < j < |requests| ==> requests[i].ip != requests[j].ip && requests[i].id != requests[j].id)
    && (forall i :: 0 <= i < |requests| ==> requests[i].id < nextId)
  }

  ghost predicate Separate(entries: seq<Entry>, requests: seq<Request>)
  {
    forall i, j :: 0 <= i < |entries| && 0 <= j < |requests| && entries[i].valid ==> entries[i].ip != requests[j].ip
  }

  ghost predicate Shape(s: Shared)
  {
    && |s.entries| == CACHE_SIZE
    && UniqueEntries(s.entries)
    && UniqueRequests(s.requests, s.nextId)
    && Separate(s.entries, s.requests)
  }

  /** The retry protocol: a pending request waits with at least one frame and has been sent once
      to five times. */
  predicate Waits(r: Request, now: nat)
  {
    r.packets != [] && 1 <= r.times <= MAX_ASKS && r.sent <= now
  }

  ghost predicate Retrying(cfg: Config, s: Shared, now: nat)
  {
    && (forall i :: 0 <= i < |s.requests| ==> Waits(s.requests[i], now))
    && (forall i, p :: 0 <= i < |s.requests| && p in s.requests[i].packets ==> Good(cfg, s.requests[i].ip, p))
  }

  /** Every cached mapping is the latest accepted one. */
  ghost predicate Truthful(s: Shared)
  {
    forall i :: 0 <= i < |s.entries| && s.entries[i].valid ==>
      LastAccepted(s.log, s.entries[i].ip) == Some(s.entries[i].mac)
  }

  /** What the times in the state say about the latest ARP request for each address. */
  ghost predicate Paced(s: Shared, now: nat)
  {
    && (forall i :: 0 <= i < |s.requests| ==> LastAsk(s.log, s.requests[i].ip) == Some(s.requests[i].sent))
    && (forall i :: 0 <= i < |s.entries| && s.entries[i].valid ==>
          s.entries[i].added <= now
          && (LastAsk(s.log, s.entries[i].ip).Some? ==> LastAsk(s.log, s.entries[i].ip).value <= s.entries[i].added))
    && (forall ip :: LastAsk(s.log, ip).Some? ==> Settled(s, ip, now))
  }

  ghost predicate Settled(s: Shared, ip: Ip4, now: nat)
    requires LastAsk(s.log, ip).Some?
  {
    && LastAsk(s.log, ip).value <= now
    && (Cached(s.entries, ip) || Pending(s.requests, ip) || LastAsk(s.log, ip).value + 1 <= now || Unstored(s.log, ip))
  }

  ghost predicate Counted(s: Shared)
  {
    && (forall i :: 0 <= i < |s.requests| ==> Asks(s.log, s.requests[i].id) == s.requests[i].times)
    && (forall id :: id >= s.nextId ==> Asks(s.log, id) == 0)
    && (forall id :: Asks(s.log, id) <= MAX_ASKS)
  }

  function QueuedIn(log: Log): multiset<Packet> { Sum(log, QueuedBy) }
  function FlushedIn(log: Log): multiset<Packet> { Sum(log, FlushedBy) }
  function ReportedIn(log: Log): multiset<Packet> { Sum(log, ReportedBy) }
  function LostIn(log: Log): multiset<Packet> { Sum(log, LostBy) }

  /** Every frame ever queued is waiting, in the hands of the packet thread, flushed, reported
      unreachable, or lost in the expiry loop of its own request. */
  ghost predicate Balanced(s: Shared, inFlight: multiset<Packet>)
  {
    QueuedIn(s.log) == Waiting(s.requests) + inFlight + FlushedIn(s.log) + ReportedIn(s.log) + LostIn(s.log)
  }

  ghost predicate Inv(cfg: Config, s: Shared, now: nat, inFlight: multiset<Packet>)
  {
    && Shape(s)
    && Retrying(cfg, s, now)
    && Truthful(s)
    && Paced(s, now)
    && Counted(s)
    && Balanced(s, inFlight)
    && Ordered(s)
    && Numbered(s)
    && LogOk(cfg, s.log)
  }

  // ----- basic facts -----

  lemma {:induction false} LookupIsMembership(entries: seq<Entry>, ip: Ip4)
    ensures Lookup(entries, ip).Some? <==> Cached(entries, ip)
    ensures Lookup(entries, ip).Some? ==>
              exists i :: 0 <= i < |entries| && entries[i].valid && entries[i].ip == ip &&
                  entries[i].mac == Lookup(entries, ip).value
  {
    if entries != [] {
      var n := |entries| - 1;
      LookupIsMembership(entries[..n], ip);
      if Cached(entries[..n], ip) {
        var i :| 0 <= i < n && entries[..n][i].valid && entries[..n][i].ip == ip;
        assert entries[i].valid && entries[i].ip == ip;
      }
      if Lookup(entries, ip).Some? && !(entries[n].valid && entries[n].ip == ip) {
        var i :| 0 <= i < n && entries[..n][i].valid && entries[..n][i].ip == ip &&
            entries[..n][i].mac == Lookup(entries, ip).value;
        assert entries[i].valid && entries[i].ip == ip && entries[i].mac == Lookup(entries, ip).value;
      }
    }
  }

  lemma TimePasses(cfg: Config, s: Shared, now: nat, later: nat, inFlight: multiset<Packet>)
    requires Inv(cfg, s, now, inFlight) && now <= later
    ensures Inv(cfg, s, later, inFlight)
  {
    forall ip | LastAsk(s.log, ip).Some? ensures Settled(s, ip, later) {
      assert Settled(s, ip, now);
    }
  }

  /** What one more event does to every summary of the log. */
  lemma Append(cfg: Config, log: Log, e: Event)
    ensures forall ip :: LastAccepted(log + [e], ip) == if e.Accepted? && e.ip == ip then Some(e.mac)
            else LastAccepted(log, ip)
    ensures forall ip :: LastAsk(log + [e], ip) == if e.Asked? && e.ip == ip then Some(e.time) else LastAsk(log, ip)
    ensures forall ip :: Unstored(log + [e], ip) <==>
              !(e.Asked? && e.ip == ip) && ((e.Accepted? && e.ip == ip && !e.stored) || Unstored(log, ip))
    ensures forall id :: Asks(log + [e], id) == Asks(log, id) + if e.Asked? && e.id == id then 1 else 0
    ensures QueuedIn(log + [e]) == QueuedIn(log) + QueuedBy(e)
    ensures FlushedIn(log + [e]) == FlushedIn(log) + FlushedBy(e)
    ensures ReportedIn(log + [e]) == ReportedIn(log) + ReportedBy(e)
    ensures LostIn(log + [e]) == LostIn(log) + LostBy(e)
    ensures LogOk(cfg, log + [e]) <==> LogOk(cfg, log) && EventOk(cfg, log, e)
  {
    AppendOne(log, e);
  }

  // ----- a frame leaves -----

  lemma LoggedKeepsTimes(s: Shared, t: Shared, now: nat)
    requires Paced(s, now) && t.entries == s.entries && t.requests == s.requests
    requires forall ip :: LastAsk(t.log, ip) == LastAsk(s.log, ip)
    requires forall ip :: Unstored(s.log, ip) ==> Unstored(t.log, ip)
    ensures Paced(t, now)
  {
    forall ip | LastAsk(t.log, ip).Some? ensures Settled(t, ip, now) {
      assert Settled(s, ip, now);
    }
  }

  /** Sending something keeps the invariant; flushing a frame takes it out of flight. */
  lemma SendKeeps(cfg: Config, s: Shared, e: Event, now: nat, before: multiset<Packet>, after: multiset<Packet>)
    requires Inv(cfg, s, now, before) && (e.Delivered? || e.Replied? || e.Unsent?) && EventOk(cfg, s.log, e)
    requires before == after + FlushedBy(e)
    ensures Inv(cfg, Logged(s, e), now, after)
  {
    hide Good, Sendable, SameDatagram, WasReported, EventOk, LogOk, LastAsk, LastAccepted, Unstored, Asks;
    hide QueuedIn, FlushedIn, ReportedIn, LostIn, Ordered, Numbered;
    LoggedNumbered(s, e);
    Append(cfg, s.log, e);
    LoggedKeepsTimes(s, Logged(s, e), now);
    LoggedOrdered(s, e);
  }

  function DeliveredEvent(cfg: Config, hop: Ip4, pkt: Packet, mac: Mac, queued: bool): (e: Event)
    requires Sendable(cfg, pkt.buf, pkt.iface)
  {
    Delivered(hop, pkt, Addressed(pkt.buf, mac, FindIface(cfg.ifs, pkt.iface).value.mac), queued)
  }

  lemma DeliveredOk(cfg: Config, log: Log, hop: Ip4, pkt: Packet, mac: Mac, queued: bool)
    requires Good(cfg, hop, pkt) && LastAccepted(log, hop) == Some(mac)
    ensures EventOk(cfg, log, DeliveredEvent(cfg, hop, pkt, mac, queued))
  {
    hide ValidIp, NextHop, Makes, FindIface;
    var e := DeliveredEvent(cfg, hop, pkt, mac, queued);
    assert e.frame[12..] == pkt.buf[12..];
  }

  /** A good frame goes out with the latest accepted address of its next hop. */
  lemma DeliverKeeps(cfg: Config, s: Shared, hop: Ip4, pkt: Packet, mac: Mac, queued: bool, now: nat,
                     before: multiset<Packet>, after: multiset<Packet>)
    requires Inv(cfg, s, now, before) && Good(cfg, hop, pkt) && LastAccepted(s.log, hop) == Some(mac)
    requires before == after + (if queued then multiset{pkt} else multiset{})
    ensures Deliver(s, cfg, hop, pkt, mac, queued) == Logged(s, DeliveredEvent(cfg, hop, pkt, mac, queued))
    ensures Inv(cfg, Deliver(s, cfg, hop, pkt, mac, queued), now, after)
  {
    hide Inv, EventOk, ValidIp, NextHop, Makes, FindIface;
    DeliveredOk(cfg, s.log, hop, pkt, mac, queued);
    SendKeeps(cfg, s, DeliveredEvent(cfg, hop, pkt, mac, queued), now, before, after);
  }

  lemma ReplyKeeps(cfg: Config, s: Shared, frame: Frame, iface: string, now: nat, inFlight: multiset<Packet>)
    requires Inv(cfg, s, now, inFlight) && Sendable(cfg, frame, iface)
    ensures Respond(s, cfg, frame, iface) == Logged(s, Replied(frame, iface))
    ensures Inv(cfg, Respond(s, cfg, frame, iface), now, inFlight)
  {
    hide Inv;
    SendKeeps(cfg, s, Replied(frame, iface), now, inFlight, inFlight);
  }

  /** A frame with no way out is dropped, silently unless its route names an unknown interface. */
  lemma UnroutedKeeps(cfg: Config, s: Shared, f: Frame, origin: Origin, now: nat, inFlight: multiset<Packet>)
    requires Inv(cfg, s, now, inFlight) && |f| >= ETH + 20 && NextHop(cfg, f, origin).None?
    ensures Inv(cfg, Unrouted(s, cfg, f), now, inFlight)
  {
    hide Inv, FindIface, Lpm;
    var route := Lpm(cfg, IpAt(f, IP_DST));
    if route.Some? {
      assert UnknownRoute(cfg, route.value.iface);
      SendKeeps(cfg, s, Unsent(route.value.iface), now, inFlight, inFlight);
    }
  }

  lemma UnroutedExtends(cfg: Config, s: Shared, f: Frame)
    requires |f| >= ETH + 20
    ensures Extends(s, Unrouted(s, cfg, f))
  {
    hide Extends, Lpm;
    ExtendsRefl(s);
    var route := Lpm(cfg, IpAt(f, IP_DST));
    if route.Some? {
      LoggedExtends(cfg, s, Unsent(route.value.iface));
    }
  }

  // ----- a frame is queued -----

  /** What QueueAndAsk does when a request for ip is pending already. */
  function Joined(s: Shared, i: nat, pkt: Packet): Shared
    requires i < |s.requests|
  {
    var q := s.requests[i];
    Logged(s.(requests := s.requests[i := q.(packets := [pkt] + q.packets)]), Queued(q.ip, pkt, q.id))
  }

  /** What it does when none is. */
  function Opened(s: Shared, cfg: Config, ip: Ip4, pkt: Packet, now: nat): Shared
    requires FindIface(cfg.ifs, pkt.iface).Some?
  {
    Logged(Logged(s.(requests := [Request(s.nextId, ip, now, 1, [pkt])] + s.requests, nextId := s.nextId + 1),
                  Queued(ip, pkt, s.nextId)),
           Asked(s.nextId, ip, now, Arp.RequestFrame(FindIface(cfg.ifs, pkt.iface).value, ip), pkt.iface))
  }

  lemma FoundAt(requests: seq<Request>, i: nat, ip: Ip4)
    requires i < |requests| && requests[i].ip == ip && forall k :: 0 <= k < i ==> requests[k].ip != ip
    ensures IndexOf(requests, ip) == Some(i)
  {
  }

  lemma QueueAndAskCases(cfg: Config, s: Shared, ip: Ip4, pkt: Packet, now: nat)
    requires |pkt.buf| > 0 && FindIface(cfg.ifs, pkt.iface).Some?
    requires forall i :: 0 <= i < |s.requests| ==> s.requests[i].times >= 1
    ensures var i := IndexOf(s.requests, ip);
            QueueAndAsk(s, cfg, ip, pkt, now) == if i.Some? then Joined(s, i.value, pkt)
                else Opened(s, cfg, ip, pkt, now)
  {
    hide FindIface, IndexOf, Arp.RequestFrame;
    var i := IndexOf(s.requests, ip);
    var q := Queue(s, ip, pkt);
    if i.Some? {
      FoundAt(q.requests, i.value, ip);
    } else {
      assert Pushed([], pkt) == [pkt];
      FoundAt(q.requests, 0, ip);
    }
  }

  /** Two lists hold the same addresses, ids and times. */
  ghost predicate SameKeys(a: seq<Request>, b: seq<Request>)
  {
    |a| == |b| && forall i :: 0 <= i < |a| ==> a[i].id == b[i].id && a[i].ip == b[i].ip
  }

  lemma SameKeysPending(a: seq<Request>, b: seq<Request>)
    requires SameKeys(a, b)
    ensures forall ip :: Pending(a, ip) <==> Pending(b, ip)
  {
    forall ip ensures Pending(a, ip) <==> Pending(b, ip) {
      if Pending(a, ip) {
        var i :| 0 <= i < |a| && a[i].ip == ip;
        assert b[i].ip == ip;
      }
      if Pending(b, ip) {
        var i :| 0 <= i < |b| && b[i].ip == ip;
        assert a[i].ip == ip;
      }
    }
  }

  lemma SameKeysShape(s: Shared, t: Shared)
    requires Shape(s) && SameKeys(s.requests, t.requests) && t.entries == s.entries && t.nextId == s.nextId
    ensures Shape(t)
  {
  }

  lemma JoinedRetrying(cfg: Config, s: Shared, i: nat, pkt: Packet, now: nat)
    requires Retrying(cfg, s, now) && i < |s.requests| && Good(cfg, s.requests[i].ip, pkt)
    ensures Retrying(cfg, Joined(s, i, pkt), now)
  {
    hide Good;
    var t := Joined(s, i, pkt);
    forall k, p | 0 <= k < |t.requests| && p in t.requests[k].packets
      ensures Good(cfg, t.requests[k].ip, p)
    {
      assert p in s.requests[k].packets || p == pkt;
    }
  }

  lemma JoinedPaced(cfg: Config, s: Shared, i: nat, pkt: Packet, now: nat)
    requires Paced(s, now) && i < |s.requests|
    ensures Paced(Joined(s, i, pkt), now)
  {
    hide Good;
    var t := Joined(s, i, pkt);
    Append(cfg, s.log, Queued(s.requests[i].ip, pkt, s.requests[i].id));
    SameKeysPending(s.requests, t.requests);
    forall ip | LastAsk(t.log, ip).Some? ensures Settled(t, ip, now) {
      assert Settled(s, ip, now);
    }
  }

  lemma JoinedBalanced(cfg: Config, s: Shared, i: nat, pkt: Packet, inFlight: multiset<Packet>)
    requires Balanced(s, inFlight) && i < |s.requests|
    ensures Balanced(Joined(s, i, pkt), inFlight)
  {
    hide Good, EventOk, LogOk;
    var q := s.requests[i];
    var r := q.(packets := [pkt] + q.packets);
    var t := Joined(s, i, pkt);
    Append(cfg, s.log, Queued(q.ip, pkt, q.id));
    WaitingUpdate(s.requests, i, r);
    assert multiset(r.packets) == multiset{pkt} + multiset(q.packets);
    Joining(Waiting(s.requests), Waiting(t.requests), multiset(q.packets), multiset{pkt});
  }

  lemma Joining(w: multiset<Packet>, v: multiset<Packet>, q: multiset<Packet>, p: multiset<Packet>)
    requires v + q == w + (p + q)
    ensures v == w + p
  {
    assert forall x :: v[x] + q[x] == (v + q)[x] == (w + (p + q))[x] == w[x] + p[x] + q[x];
  }

  lemma QueuedOk(cfg: Config, log: Log, ip: Ip4, pkt: Packet, id: nat)
    requires Good(cfg, ip, pkt)
    ensures EventOk(cfg, log, Queued(ip, pkt, id))
  {
    hide Good;
  }

  lemma JoinedKeeps(cfg: Config, s: Shared, i: nat, pkt: Packet, now: nat, inFlight: multiset<Packet>)
    requires Inv(cfg, s, now, inFlight) && i < |s.requests| && Good(cfg, s.requests[i].ip, pkt)
    ensures Inv(cfg, Joined(s, i, pkt), now, inFlight)
  {
    hide Good, Shape, Retrying, Paced, Balanced, EventOk, LogOk, LastAsk, LastAccepted, Unstored, Asks;
    hide QueuedIn, FlushedIn, ReportedIn, LostIn, Ordered, Numbered;
    QueuedOk(cfg, s.log, s.requests[i].ip, pkt, s.requests[i].id);
    var t := Joined(s, i, pkt);
    ShapeDistinct(s);
    PushedNumbered(s, i, pkt);
    PushedOrdered(s, i, pkt);
    Append(cfg, s.log, Queued(s.requests[i].ip, pkt, s.requests[i].id));
    SameKeysShape(s, t);
    JoinedRetrying(cfg, s, i, pkt, now);
    JoinedPaced(cfg, s, i, pkt, now);
    JoinedBalanced(cfg, s, i, pkt, inFlight);
  }

  lemma OpenedAppends(cfg: Config, s: Shared, ip: Ip4, pkt: Packet, now: nat)
    requires FindIface(cfg.ifs, pkt.iface).Some?
    ensures var log := Opened(s, cfg, ip, pkt, now).log;
            && (forall x :: LastAccepted(log, x) == LastAccepted(s.log, x))
            && (forall x :: LastAsk(log, x) == if x == ip then Some(now) else LastAsk(s.log, x))
            && (forall x :: x != ip ==> (Unstored(log, x) <==> Unstored(s.log, x)))
            && (forall id :: Asks(log, id) == Asks(s.log, id) + if id == s.nextId then 1 else 0)
            && QueuedIn(log) == QueuedIn(s.log) + multiset{pkt}
            && FlushedIn(log) == FlushedIn(s.log) && ReportedIn(log) == ReportedIn(s.log) &&
                 LostIn(log) == LostIn(s.log)
  {
    hide EventOk, LogOk, FindIface, LastAsk, LastAccepted, Unstored, Asks, QueuedIn, FlushedIn, ReportedIn, LostIn;
    var log1 := s.log + [Queued(ip, pkt, s.nextId)];
    var log := Opened(s, cfg, ip, pkt, now).log;
    Append(cfg, s.log, Queued(ip, pkt, s.nextId));
    Append(cfg, log1, log[|log1|]);
    assert log == log1 + [log[|log1|]];
  }

  /** An ARP request for an address that was not asked for within the last second, or whose last
      mapping found no slot. */
  lemma AskedOk(cfg: Config, log: Log, id: nat, ip: Ip4, now: nat, iface: Iface, name: string)
    requires FindIface(cfg.ifs, name) == Some(iface) && Asks(log, id) < MAX_ASKS
    requires LastAsk(log, ip).Some? ==>
               LastAsk(log, ip).value <= now && (LastAsk(log, ip).value + 1 <= now || Unstored(log, ip))
    requires var joined := QueuedTo(log, id); joined != [] && joined[0].iface == name && Good(cfg, ip, joined[0])
    ensures EventOk(cfg, log, Asked(id, ip, now, Arp.RequestFrame(iface, ip), name))
  {
    hide FindIface, Good, QueuedTo, LastAsk, LastAccepted, Unstored, Asks, QueuedIn, FlushedIn, ReportedIn, LostIn;
  }

  lemma OpenedLog(cfg: Config, s: Shared, ip: Ip4, pkt: Packet, now: nat)
    requires LogOk(cfg, s.log) && Counted(s) && Paced(s, now) && Good(cfg, ip, pkt)
    requires !Cached(s.entries, ip) && !Pending(s.requests, ip)
    requires FindIface(cfg.ifs, pkt.iface).Some?
    ensures LogOk(cfg, Opened(s, cfg, ip, pkt, now).log)
  {
    hide Good, FindIface, EventOk, LogOk, Cached, Pending, LastAsk, LastAccepted, Unstored, Asks, QueuedIn;
    hide FlushedIn, ReportedIn, LostIn;
    var log1 := s.log + [Queued(ip, pkt, s.nextId)];
    var log := Opened(s, cfg, ip, pkt, now).log;
    var e := log[|log1|];
    QueuedOk(cfg, s.log, ip, pkt, s.nextId);
    Append(cfg, s.log, Queued(ip, pkt, s.nextId));
    Append(cfg, log1, e);
    assert log == log1 + [e];
    if LastAsk(s.log, ip).Some? {
      assert Settled(s, ip, now);
    }
    QueuedToAppend(s.log, Queued(ip, pkt, s.nextId));
    AskedOk(cfg, log1, s.nextId, ip, now, FindIface(cfg.ifs, pkt.iface).value, pkt.iface);
  }

  lemma OpenedRetrying(cfg: Config, s: Shared, ip: Ip4, pkt: Packet, now: nat)
    requires Retrying(cfg, s, now) && Good(cfg, ip, pkt) && FindIface(cfg.ifs, pkt.iface).Some?
    ensures Retrying(cfg, Opened(s, cfg, ip, pkt, now), now)
  {
    hide Good, FindIface;
    var t := Opened(s, cfg, ip, pkt, now);
    forall k, p | 0 <= k < |t.requests| && p in t.requests[k].packets
      ensures Good(cfg, t.requests[k].ip, p)
    {
      assert k > 0 ==> t.requests[k] == s.requests[k - 1];
    }
  }

  lemma HeadPending(requests: seq<Request>, r: Request)
    ensures forall x :: Pending([r] + requests, x) <==> x == r.ip || Pending(requests, x)
  {
    var more := [r] + requests;
    forall x ensures Pending(more, x) <==> x == r.ip || Pending(requests, x) {
      if x == r.ip {
        assert more[0].ip == x;
      } else if Pending(requests, x) {
        var j :| 0 <= j < |requests| && requests[j].ip == x;
        assert more[j + 1].ip == x;
      }
    }
  }

  /** A new request for an address that is neither cached nor pending, asked for now. */
  lemma AskedAtHead(s: Shared, t: Shared, r: Request, now: nat)
    requires Paced(s, now) && !Cached(s.entries, r.ip) && !Pending(s.requests, r.ip) && r.sent == now
    requires t.entries == s.entries && t.requests == [r] + s.requests
    requires forall x :: LastAsk(t.log, x) == if x == r.ip then Some(now) else LastAsk(s.log, x)
    requires forall x :: x != r.ip ==> (Unstored(t.log, x) <==> Unstored(s.log, x))
    ensures Paced(t, now)
  {
    hide LastAsk, Unstored;
    forall i | 0 <= i < |t.requests| ensures LastAsk(t.log, t.requests[i].ip) == Some(t.requests[i].sent) {
      assert i > 0 ==> t.requests[i] == s.requests[i - 1];
    }
    HeadPending(s.requests, r);
    hide Pending;
    forall x | LastAsk(t.log, x).Some? ensures Settled(t, x, now) {
      assert x != r.ip ==> Settled(s, x, now);
    }
  }

  lemma OpenedPaced(cfg: Config, s: Shared, ip: Ip4, pkt: Packet, now: nat)
    requires Paced(s, now) && !Cached(s.entries, ip) && !Pending(s.requests, ip)
    requires FindIface(cfg.ifs, pkt.iface).Some?
    ensures Paced(Opened(s, cfg, ip, pkt, now), now)
  {
    hide Good, FindIface, Paced, Cached, Pending, LastAsk, LastAccepted, Unstored, Asks, QueuedIn, FlushedIn;
    hide ReportedIn, LostIn;
    OpenedAppends(cfg, s, ip, pkt, now);
    var t := Opened(s, cfg, ip, pkt, now);
    AskedAtHead(s, t, t.requests[0], now);
  }

  lemma NewHeadShape(s: Shared, t: Shared, r: Request)
    requires Shape(s) && !Cached(s.entries, r.ip) && !Pending(s.requests, r.ip) && r.id == s.nextId
    requires t.entries == s.entries && t.requests == [r] + s.requests && t.nextId == s.nextId + 1
    ensures Shape(t)
  {
    assert forall i :: 0 < i < |t.requests| ==> t.requests[i] == s.requests[i - 1];
    assert forall i :: 0 <= i < |s.requests| ==> s.requests[i].ip != r.ip;
  }

  lemma OpenedShape(cfg: Config, s: Shared, ip: Ip4, pkt: Packet, now: nat)
    requires Shape(s) && !Cached(s.entries, ip) && !Pending(s.requests, ip)
    requires FindIface(cfg.ifs, pkt.iface).Some?
    ensures Shape(Opened(s, cfg, ip, pkt, now))
  {
    hide FindIface, Shape, Cached, Pending;
    NewHeadShape(s, Opened(s, cfg, ip, pkt, now), Opened(s, cfg, ip, pkt, now).requests[0]);
  }

  lemma OpenedCounted(cfg: Config, s: Shared, ip: Ip4, pkt: Packet, now: nat)
    requires Counted(s) && Shape(s) && FindIface(cfg.ifs, pkt.iface).Some?
    ensures Counted(Opened(s, cfg, ip, pkt, now))
  {
    hide FindIface, LastAsk, LastAccepted, Unstored, Asks, QueuedIn, FlushedIn, ReportedIn, LostIn;
    var t := Opened(s, cfg, ip, pkt, now);
    OpenedAppends(cfg, s, ip, pkt, now);
    assert forall i :: 0 < i < |t.requests| ==> t.requests[i] == s.requests[i - 1];
  }

  lemma OpenedBalanced(cfg: Config, s: Shared, ip: Ip4, pkt: Packet, now: nat, inFlight: multiset<Packet>)
    requires Balanced(s, inFlight) && FindIface(cfg.ifs, pkt.iface).Some?
    ensures Balanced(Opened(s, cfg, ip, pkt, now), inFlight)
  {
    hide FindIface;
    var t := Opened(s, cfg, ip, pkt, now);
    OpenedAppends(cfg, s, ip, pkt, now);
    WaitingCons(t.requests, t.requests[0], s.requests);
    assert multiset(t.requests[0].packets) == multiset{pkt};
  }

  lemma ShapeDistinct(s: Shared)
    requires Shape(s)
    ensures DistinctIps(s.requests) && DistinctIds(s.requests, s.nextId)
  {
  }

  lemma OpenedOrdered(s: Shared, cfg: Config, ip: Ip4, pkt: Packet, now: nat)
    requires Ordered(s) && Shape(s) && !Cached(s.entries, ip) && !Pending(s.requests, ip)
    requires FindIface(cfg.ifs, pkt.iface).Some?
    requires Numbered(s)
    ensures Ordered(Opened(s, cfg, ip, pkt, now)) && Numbered(Opened(s, cfg, ip, pkt, now))
  {
    hide Ordered, Numbered, Shape, Cached, Pending, FindIface, Arp.RequestFrame;
    var r := Request(s.nextId, ip, now, 1, [pkt]);
    var t := Opened(s, cfg, ip, pkt, now);
    NewHeadShape(s, t, r);
    ShapeDistinct(t);
    AddedOrdered(s, r, pkt, s.nextId + 1);
    ShapeDistinct(s);
    AddedNumbered(s, r, pkt);
    LoggedNumbered(Logged(s.(requests := [r] + s.requests, nextId := s.nextId + 1), Queued(ip, pkt, s.nextId)),
                   t.log[|s.log| + 1]);
    LoggedOrdered(Logged(s.(requests := [r] + s.requests, nextId := s.nextId + 1), Queued(ip, pkt, s.nextId)),
        t.log[|s.log| + 1]);
  }

  lemma OpenedKeeps(cfg: Config, s: Shared, ip: Ip4, pkt: Packet, now: nat, inFlight: multiset<Packet>)
    requires Inv(cfg, s, now, inFlight) && Good(cfg, ip, pkt)
    requires !Cached(s.entries, ip) && !Pending(s.requests, ip)
    requires FindIface(cfg.ifs, pkt.iface).Some?
    ensures Inv(cfg, Opened(s, cfg, ip, pkt, now), now, inFlight)
  {
    hide Good, Shape, Retrying, Paced, Counted, Balanced, LogOk, FindIface, Ordered, Numbered;
    OpenedOrdered(s, cfg, ip, pkt, now);
    OpenedAppends(cfg, s, ip, pkt, now);
    OpenedLog(cfg, s, ip, pkt, now);
    OpenedShape(cfg, s, ip, pkt, now);
    OpenedRetrying(cfg, s, ip, pkt, now);
    OpenedPaced(cfg, s, ip, pkt, now);
    OpenedCounted(cfg, s, ip, pkt, now);
    OpenedBalanced(cfg, s, ip, pkt, now, inFlight);
  }

  /** Queuing a good frame for a next hop that is not cached keeps the invariant. */
  lemma QueueKeeps(cfg: Config, s: Shared, ip: Ip4, pkt: Packet, now: nat, inFlight: multiset<Packet>)
    requires Inv(cfg, s, now, inFlight) && Good(cfg, ip, pkt) && !Cached(s.entries, ip)
    ensures Inv(cfg, QueueAndAsk(s, cfg, ip, pkt, now), now, inFlight)
  {
    hide QueueAndAsk, LogOk, Paced, Counted, Balanced, Joined, Opened, NextHop, Makes, FindIface;
    QueueAndAskCases(cfg, s, ip, pkt, now);
    var i := IndexOf(s.requests, ip);
    if i.Some? {
      JoinedKeeps(cfg, s, i.value, pkt, now, inFlight);
    } else {
      OpenedKeeps(cfg, s, ip, pkt, now, inFlight);
    }
  }

  // ----- the routed path -----

  /** Routing looks at the destination and writes the source hardware address, so routing the
      outgoing copy again changes nothing. */
  lemma NextHopIsStable(cfg: Config, f: Frame, origin: Origin)
    requires |f| >= ETH + 20 && NextHop(cfg, f, origin).Some?
    ensures var out := NextHop(cfg, f, origin).value;
            && NextHop(cfg, out.pkt.buf, origin) == Some(out)
            && Sendable(cfg, out.pkt.buf, out.pkt.iface)
            && |out.pkt.buf| == |f| && out.pkt.buf[12..] == f[12..] && out.pkt.buf[ETH..] == f[ETH..]
            && out.pkt.origin == origin
  {
    hide Lpm;
    var route := Lpm(cfg, IpAt(f, IP_DST)).value;
    var iface := FindIface(cfg.ifs, route.iface).value;
    var out := NextHop(cfg, f, origin).value;
    PutMacTwice(f, SHOST, iface.mac);
    assert IpAt(out.pkt.buf, IP_DST) == IpAt(f, IP_DST);
  }

  lemma PutMacTwice(f: Frame, off: nat, m: Mac)
    requires off + 6 <= |f|
    ensures PutMac(PutMac(f, off, m), off, m) == PutMac(f, off, m)
    ensures PutMac(f, off, m)[off + 6..] == f[off + 6..]
  {
    var g := PutMac(f, off, m);
    var h := PutMac(g, off, m);
    assert forall i :: 0 <= i < |f| && !(off <= i < off + 6) ==> h[i] == g[i];
    assert MacAt(h, off) == MacAt(g, off);
  }

  lemma NextHopIsGood(cfg: Config, f: Frame, origin: Origin)
    requires ValidIp(f) && Makes(cfg, origin, f) && NextHop(cfg, f, origin).Some?
    ensures var out := NextHop(cfg, f, origin).value; Good(cfg, out.hop, out.pkt)
  {
    hide ErrorAbout, DecTtl, NextHop, Sendable;
    assert |f| >= ETH + 20;
    NextHopIsStable(cfg, f, origin);
    ValidityIgnoresEthernet(f, NextHop(cfg, f, origin).value.pkt.buf);
  }

  lemma LookupIsAccepted(s: Shared, ip: Ip4)
    requires Truthful(s) && Lookup(s.entries, ip).Some?
    ensures LastAccepted(s.log, ip) == Lookup(s.entries, ip)
  {
    LookupIsMembership(s.entries, ip);
  }

  /** The state only grows: events at the end of the log that accept nothing, new requests at the
      head of the list, frames at the head of a request. */
  ghost predicate Extends(s: Shared, t: Shared)
  {
    && t.entries == s.entries
    && NoFlush(s.log, t.log) && (forall ip :: LastAccepted(t.log, ip) == LastAccepted(s.log, ip))
    && s.nextId <= t.nextId
    && Grown(s.requests, t.requests, s.nextId)
  }

  ghost predicate Grown(a: seq<Request>, b: seq<Request>, fromId: nat)
  {
    && |a| <= |b|
    && (forall i :: 0 <= i < |a| ==> Kept(a[i], b[|b| - |a| + i]))
    && (forall i :: 0 <= i < |b| - |a| ==> b[i].id >= fromId)
  }

  /** The same request, perhaps with more frames in front. */
  predicate Kept(q: Request, r: Request)
  {
    && r.id == q.id && r.ip == q.ip && r.sent == q.sent && r.times == q.times
    && |q.packets| <= |r.packets|
    && r.packets[|r.packets| - |q.packets|..] == q.packets
  }

  lemma KeptTrans(p: Request, q: Request, r: Request)
    requires Kept(p, q) && Kept(q, r)
    ensures Kept(p, r)
  {
    assert r.packets[|r.packets| - |p.packets|..] == q.packets[|q.packets| - |p.packets|..];
  }

  lemma ExtendsTrans(s: Shared, t: Shared, u: Shared)
    requires Extends(s, t) && Extends(t, u)
    ensures Extends(s, u)
  {
    hide LastAccepted, NoFlush;
    NoFlushTrans(s.log, t.log, u.log);
    var a, b, c := s.requests, t.requests, u.requests;
    forall i | 0 <= i < |a| ensures Kept(a[i], c[|c| - |a| + i]) {
      var j := |b| - |a| + i;
      assert Kept(b[j], c[|c| - |b| + j]);
      KeptTrans(a[i], b[j], c[|c| - |b| + j]);
    }
    forall i | 0 <= i < |c| - |a| ensures c[i].id >= s.nextId {
      if i >= |c| - |b| {
        var j := i - (|c| - |b|);
        assert Kept(b[j], c[|c| - |b| + j]);
      }
    }
  }

  lemma KeptRefl(q: Request)
    ensures Kept(q, q)
  {
    assert q.packets[0..] == q.packets;
  }

  lemma GrownRefl(a: seq<Request>, fromId: nat)
    ensures Grown(a, a, fromId)
  {
    forall i | 0 <= i < |a| ensures Kept(a[i], a[|a| - |a| + i]) {
      KeptRefl(a[i]);
    }
  }

  lemma ExtendsRefl(s: Shared)
    ensures Extends(s, s)
  {
    hide Grown;
    GrownRefl(s.requests, s.nextId);
  }

  /** A logged event that accepts and flushes nothing only extends the state. */
  lemma LoggedExtends(cfg: Config, s: Shared, e: Event)
    requires Unflushing(e)
    ensures Extends(s, Logged(s, e))
  {
    hide Grown, EventOk, LogOk, LastAsk, LastAccepted, Unstored, Asks, QueuedIn, FlushedIn, ReportedIn, LostIn;
    Append(cfg, s.log, e);
    GrownRefl(s.requests, s.nextId);
  }

  lemma JoinedExtends(cfg: Config, s: Shared, i: nat, pkt: Packet)
    requires i < |s.requests|
    ensures Extends(s, Joined(s, i, pkt))
  {
    hide Grown, LastAccepted;
    var q := s.requests[i];
    var t := s.(requests := s.requests[i := q.(packets := [pkt] + q.packets)]);
    JoinedGrown(s.requests, i, pkt, s.nextId);
    LoggedExtends(cfg, t, Queued(q.ip, pkt, q.id));
    ExtendsTrans(s, t, Joined(s, i, pkt));
  }

  lemma JoinedGrown(a: seq<Request>, i: nat, pkt: Packet, fromId: nat)
    requires i < |a|
    ensures Grown(a, a[i := a[i].(packets := [pkt] + a[i].packets)], fromId)
  {
    var r := a[i].(packets := [pkt] + a[i].packets);
    assert Kept(a[i], r) by {
      assert r.packets[1..] == a[i].packets;
    }
    hide Kept;
    var b := a[i := r];
    forall k | 0 <= k < |a| ensures Kept(a[k], b[|b| - |a| + k]) {
      KeptRefl(a[k]);
    }
  }

  lemma OpenedExtends(cfg: Config, s: Shared, ip: Ip4, pkt: Packet, now: nat)
    requires FindIface(cfg.ifs, pkt.iface).Some?
    ensures Extends(s, Opened(s, cfg, ip, pkt, now))
  {
    hide FindIface, Grown, Arp.RequestFrame, LastAsk, LastAccepted, Unstored, Asks, QueuedIn, FlushedIn, ReportedIn;
    hide LostIn;
    var t := Opened(s, cfg, ip, pkt, now);
    OpenedAppends(cfg, s, ip, pkt, now);
    OpenedGrown(s.requests, t.requests[0], s.nextId);
  }

  lemma OpenedGrown(a: seq<Request>, r: Request, fromId: nat)
    requires r.id >= fromId
    ensures Grown(a, [r] + a, fromId)
  {
    hide Kept;
    var b := [r] + a;
    forall i | 0 <= i < |a| ensures Kept(a[i], b[|b| - |a| + i]) {
      assert b[i + 1] == a[i];
      KeptRefl(a[i]);
    }
  }

  lemma QueueExtends(cfg: Config, s: Shared, ip: Ip4, pkt: Packet, now: nat)
    requires Retrying(cfg, s, now) && Good(cfg, ip, pkt)
    ensures Extends(s, QueueAndAsk(s, cfg, ip, pkt, now))
  {
    hide QueueAndAsk, Joined, Opened, Extends, NextHop, Makes, FindIface;
    QueueAndAskCases(cfg, s, ip, pkt, now);
    var i := IndexOf(s.requests, ip);
    if i.Some? {
      JoinedExtends(cfg, s, i.value, pkt);
    } else {
      OpenedExtends(cfg, s, ip, pkt, now);
    }
  }

  /** sr_send_routed_ip_packet keeps the invariant and only extends the state. */
  lemma RoutedKeeps(cfg: Config, s: Shared, f: Frame, origin: Origin, now: nat, inFlight: multiset<Packet>)
    requires Inv(cfg, s, now, inFlight) && ValidIp(f) && Makes(cfg, origin, f)
    ensures Inv(cfg, Routed(s, cfg, f, origin, now), now, inFlight)
    ensures Extends(s, Routed(s, cfg, f, origin, now))
  {
    hide Good, Makes, NextHop, QueueAndAsk, Deliver, Unrouted, Extends, Paced, Counted, Balanced, LogOk, Shape;
    ExtendsRefl(s);
    if NextHop(cfg, f, origin).Some? {
      NextHopIsGood(cfg, f, origin);
      var out := NextHop(cfg, f, origin).value;
      LookupIsMembership(s.entries, out.hop);
      if Lookup(s.entries, out.hop).Some? {
        var mac := Lookup(s.entries, out.hop).value;
        LookupIsAccepted(s, out.hop);
        RoutedHit(cfg, s, out, mac, now, inFlight);
      } else {
        QueueKeeps(cfg, s, out.hop, out.pkt, now, inFlight);
        QueueExtends(cfg, s, out.hop, out.pkt, now);
      }
    } else {
      UnroutedKeeps(cfg, s, f, origin, now, inFlight);
      UnroutedExtends(cfg, s, f);
    }
  }

  lemma RoutedHit(cfg: Config, s: Shared, out: Outgoing, mac: Mac, now: nat, inFlight: multiset<Packet>)
    requires Inv(cfg, s, now, inFlight) && Good(cfg, out.hop, out.pkt) && LastAccepted(s.log, out.hop) == Some(mac)
    ensures var t := Deliver(s, cfg, out.hop, out.pkt, mac, false); Inv(cfg, t, now, inFlight) && Extends(s, t)
  {
    hide Inv, Deliver, Extends, ValidIp, NextHop, Makes, FindIface;
    DeliverKeeps(cfg, s, out.hop, out.pkt, mac, false, now, inFlight, inFlight);
    LoggedExtends(cfg, s, DeliveredEvent(cfg, out.hop, out.pkt, mac, false));
  }

  /** Reporting a waiting frame unreachable keeps the invariant and only extends the state. */
  lemma ReportKeeps(cfg: Config, s: Shared, pkt: Packet, now: nat, inFlight: multiset<Packet>)
    requires Inv(cfg, s, now, inFlight)
    ensures Inv(cfg, Report(s, cfg, pkt, now), now, inFlight) && Extends(s, Report(s, cfg, pkt, now))
  {
    hide Inv, Routed, Extends;
    ExtendsRefl(s);
    var e := ErrorAbout(cfg, pkt.buf, 3, 1);
    if e.Some? {
      ErrorAboutIsValid(cfg, pkt.buf, 3, 1);
      RoutedKeeps(cfg, s, e.value, Generated(pkt.buf, 3, 1), now, inFlight);
    }
  }

  lemma ErrorAboutIsValid(cfg: Config, f: Frame, kind: byte, code: byte)
    requires ErrorAbout(cfg, f, kind, code).Some?
    ensures ValidIp(ErrorAbout(cfg, f, kind, code).value)
    ensures Makes(cfg, Generated(f, kind, code), ErrorAbout(cfg, f, kind, code).value)
  {
    hide ErrorFrame, IcmpSourceIface;
    ErrorFrameIsValid(f, IcmpSourceIface(cfg, f, IpAt(f, IP_SRC)).value, kind, code);
  }

  lemma {:induction false} ReportAllKeeps(cfg: Config, s: Shared, packets: seq<Packet>, now: nat,
                                          inFlight: multiset<Packet>)
    requires Inv(cfg, s, now, inFlight)
    ensures Inv(cfg, ReportAll(s, cfg, packets, now), now, inFlight) && Extends(s, ReportAll(s, cfg, packets, now))
    decreases |packets|
  {
    hide Inv, Report, Extends;
    ExtendsRefl(s);
    if packets != [] {
      var t := Report(s, cfg, packets[0], now);
      ReportKeeps(cfg, s, packets[0], now, inFlight);
      ReportAllKeeps(cfg, t, packets[1..], now, inFlight);
      ExtendsTrans(s, t, ReportAll(t, cfg, packets[1..], now));
    }
  }
}
