/** What each critical section of sr_arpcache.c and sr_router.c does to the state that the lock
    protects: the cache entries, the pending requests, and (model only) the log of what happened.
    The imperative router in Router.dfy is proved to compute these functions. */
module ArpState {
  import opened Bytes
  import opened Icmp
  import opened Routing
  import Arp

  const CACHE_SIZE := 100
  const CACHE_TIMEOUT := 15
  const MAX_ASKS := 5

  datatype Entry = Entry(mac: Mac, ip: Ip4, added: nat, valid: bool)

  /** Where a frame on the routed path comes from: it was received and forwarded, or the router
      generated it about another frame. */
  datatype Origin = Forwarded(received: Frame) | Generated(about: Frame, kind: byte, code: byte)

  datatype Packet = Packet(buf: Frame, iface: string, origin: Origin)

  /** A pending ARP request. The id stands for the identity of the allocated node. */
  datatype Request = Request(id: nat, ip: Ip4, sent: nat, times: nat, packets: seq<Packet>)

  datatype Event =
    | Accepted(ip: Ip4, mac: Mac, stored: bool)             // an ARP message was taken into the cache
    | Asked(id: nat, ip: Ip4, time: nat, frame: Frame, iface: string)   // an ARP request was sent
    | Queued(ip: Ip4, pkt: Packet, id: nat)                 // a frame joined the request of that id
    | Delivered(ip: Ip4, pkt: Packet, frame: Frame, queued: bool)  // a frame left on the routed path
    | Expired(request: Request, reported: seq<Packet>)      // destroyed after reporting those frames
    | Replied(frame: Frame, iface: string)                  // an echo or ARP reply was sent
    | Refused(frame: Frame, iface: string)                  // a guard of sr_send_packet stopped a frame
    | Unsent(iface: string)                                 // sending ended: no interface of that name

  datatype Shared = Shared(entries: seq<Entry>, requests: seq<Request>, nextId: nat, log: seq<Event>)

  // ----- sending -----

  /** Both guards of sr_send_packet let the frame through (sr_vns_comm.c:577, sr_vns_comm.c:595). */
  predicate Sendable(cfg: Config, f: Frame, iface: string)
  {
    |f| >= ETH && FindIface(cfg.ifs, iface).Some? && MacAt(f, SHOST) == FindIface(cfg.ifs, iface).value.mac
  }

  /** What sr_send_packet makes of a frame whose departure would be the event e. */
  function Transmitted(cfg: Config, f: Frame, iface: string, e: Event): Event
  {
    if Sendable(cfg, f, iface) then e else Refused(f, iface)
  }

  function Logged(s: Shared, e: Event): Shared
  {
    s.(log := s.log + [e])
  }

  function Respond(s: Shared, cfg: Config, f: Frame, iface: string): Shared
  {
    Logged(s, Transmitted(cfg, f, iface, Replied(f, iface)))
  }

  // ----- cache entries -----

  /** sr_arpcache_lookup keeps the last match. */
  function Lookup(entries: seq<Entry>, ip: Ip4): (r: Option<Mac>)
  {
    if entries == [] then None
    else
      var e := entries[|entries| - 1];
      if e.valid && e.ip == ip then Some(e.mac) else Lookup(entries[..|entries| - 1], ip)
  }

  /** The slot that sr_arpcache_insert writes: a valid entry for ip, else the first invalid one. */
  function Slot(entries: seq<Entry>, ip: Ip4): (slot: Option<nat>)
    ensures slot.Some? ==> slot.value < |entries|
  {
    var hit := FirstHit(entries, ip);
    if hit.Some? then hit else FirstFree(entries)
  }

  function FirstHit(entries: seq<Entry>, ip: Ip4): (r: Option<nat>)
    ensures r.None? <==> forall i :: 0 <= i < |entries| ==> !(entries[i].valid && entries[i].ip == ip)
    ensures r.Some? ==> r.value < |entries| && entries[r.value].valid && entries[r.value].ip == ip
    ensures r.Some? ==> forall i :: 0 <= i < r.value ==> !(entries[i].valid && entries[i].ip == ip)
  {
    if entries == [] then None
    else
      var r := FirstHit(entries[..|entries| - 1], ip);
      var e := entries[|entries| - 1];
      if r.Some? then r else if e.valid && e.ip == ip then Some(|entries| - 1) else None
  }

  function FirstFree(entries: seq<Entry>): (r: Option<nat>)
    ensures r.None? <==> forall i :: 0 <= i < |entries| ==> entries[i].valid
    ensures r.Some? ==> r.value < |entries| && !entries[r.value].valid
    ensures r.Some? ==> forall i :: 0 <= i < r.value ==> entries[i].valid
  {
    if entries == [] then None
    else
      var r := FirstFree(entries[..|entries| - 1]);
      if r.Some? then r else if !entries[|entries| - 1].valid then Some(|entries| - 1) else None
  }

  function Stored(entries: seq<Entry>, mac: Mac, ip: Ip4, now: nat): (r: seq<Entry>)
    ensures |r| == |entries|
  {
    match Slot(entries, ip)
    case None => entries
    case Some(i) => entries[i := Entry(mac, ip, now, true)]
  }

  function Aged(e: Entry, now: nat): Entry
  {
    if e.valid && now - e.added > CACHE_TIMEOUT then e.(valid := false) else e
  }

  /** The timeout pass over the entries. */
  function AgedEntries(entries: seq<Entry>, now: nat): (r: seq<Entry>)
    ensures |r| == |entries| && forall i :: 0 <= i < |entries| ==> r[i] == Aged(entries[i], now)
  {
    seq(|entries|, i requires 0 <= i < |entries| => Aged(entries[i], now))
  }

  // ----- pending requests -----

  /** The first pending request for ip. */
  function IndexOf(requests: seq<Request>, ip: Ip4): (r: Option<nat>)
    ensures r.None? <==> forall i :: 0 <= i < |requests| ==> requests[i].ip != ip
    ensures r.Some? ==> r.value < |requests| && requests[r.value].ip == ip
    ensures r.Some? ==> forall i :: 0 <= i < r.value ==> requests[i].ip != ip
  {
    if requests == [] then None
    else
      var r := IndexOf(requests[..|requests| - 1], ip);
      if r.Some? then r else if requests[|requests| - 1].ip == ip then Some(|requests| - 1) else None
  }

  function Pushed(packets: seq<Packet>, pkt: Packet): seq<Packet>
  {
    if |pkt.buf| > 0 then [pkt] + packets else packets
  }

  /** sr_arpcache_queuereq: a new request goes to the head of the list, the frame to the head of
      its request. */
  function Queue(s: Shared, ip: Ip4, pkt: Packet): (r: Shared)
    ensures IndexOf(r.requests, ip).Some? && r.entries == s.entries
    ensures |r.requests| >= |s.requests|
  {
    var i := IndexOf(s.requests, ip);
    var t :=
      if i.Some? then
        var q := s.requests[i.value];
        s.(requests := s.requests[i.value := q.(packets := Pushed(q.packets, pkt))])
      else
        s.(requests := [Request(s.nextId, ip, 0, 0, Pushed([], pkt))] + s.requests, nextId := s.nextId + 1);
    assert t.requests[if i.Some? then i.value else 0].ip == ip;
    var id := if i.Some? then s.requests[i.value].id else s.nextId;
    if |pkt.buf| > 0 then Logged(t, Queued(ip, pkt, id)) else t
  }

  /** What comes of sending an ARP request for ip by the named interface. */
  function AskEvent(cfg: Config, id: nat, ip: Ip4, iface: string, now: nat): Event
  {
    match FindIface(cfg.ifs, iface)
    case None => Unsent(iface)
    case Some(f) =>
      var frame := Arp.RequestFrame(f, ip);
      Transmitted(cfg, frame, iface, Asked(id, ip, now, frame, iface))
  }

  /** An ARP request for the i-th pending request goes out, and its counters say so. */
  function Ask(s: Shared, cfg: Config, i: nat, iface: string, now: nat): (r: Shared)
    requires i < |s.requests|
    ensures |r.requests| == |s.requests| && r.entries == s.entries
  {
    var q := s.requests[i];
    var t := s.(requests := s.requests[i := q.(sent := now, times := q.times + 1)]);
    Logged(t, AskEvent(cfg, q.id, q.ip, iface, now))
  }

  /** sr_router.c:557-564 as one step. */
  function QueueAndAsk(s: Shared, cfg: Config, ip: Ip4, pkt: Packet, now: nat): (r: Shared)
    ensures |r.requests| >= |s.requests| && r.entries == s.entries
  {
    var q := Queue(s, ip, pkt);
    var i := IndexOf(q.requests, ip).value;
    if q.requests[i].times == 0 then Ask(q, cfg, i, pkt.iface, now) else q
  }

  // ----- the routed path -----

  datatype Outgoing = Outgoing(hop: Ip4, pkt: Packet)

  /** The next hop and the outgoing copy of a frame: sr_send_routed_ip_packet before the lookup. */
  function NextHop(cfg: Config, f: Frame, origin: Origin): (r: Option<Outgoing>)
    requires |f| >= ETH + 20
    ensures r.Some? ==> |r.value.pkt.buf| == |f|
  {
    match Lpm(cfg, IpAt(f, IP_DST))
    case None => None
    case Some(route) =>
      match FindIface(cfg.ifs, route.iface)
      case None => None
      case Some(iface) =>
        Some(Outgoing(if route.gw != ZERO_IP then route.gw else IpAt(f, IP_DST),
                      Packet(PutMac(f, SHOST, iface.mac), iface.name, origin)))
  }

  /** The frame that goes on the wire once the next hop's address is known. */
  function Addressed(f: Frame, dst: Mac, src: Mac): (r: Frame)
    requires |f| >= ETH
    ensures |r| == |f| && MacAt(r, DHOST) == dst && MacAt(r, SHOST) == src
    ensures forall i :: 12 <= i < |f| ==> r[i] == f[i]
  {
    PutMac(PutMac(f, DHOST, dst), SHOST, src)
  }

  function Deliver(s: Shared, cfg: Config, hop: Ip4, pkt: Packet, mac: Mac, queued: bool): (r: Shared)
    ensures r.requests == s.requests && r.entries == s.entries
  {
    match FindIface(cfg.ifs, pkt.iface)
    case None => Logged(s, Unsent(pkt.iface))
    case Some(iface) =>
      if |pkt.buf| < ETH then Logged(s, Refused(pkt.buf, pkt.iface))
      else
        var f := Addressed(pkt.buf, mac, iface.mac);
        Logged(s, Transmitted(cfg, f, pkt.iface, Delivered(hop, pkt, f, queued)))
  }

  /** The interface that the route of a frame names. */
  function RouteIface(cfg: Config, f: Frame): Option<string>
    requires |f| >= ETH + 20
  {
    match Lpm(cfg, IpAt(f, IP_DST))
    case None => None
    case Some(route) => Some(route.iface)
  }

  /** A frame that NextHop finds no way for is dropped: sr_router.c:528-535. Either it has no route, or
      its route names no interface. */
  function Unrouted(s: Shared, cfg: Config, f: Frame): (r: Shared)
    requires |f| >= ETH + 20
    ensures r.requests == s.requests && r.entries == s.entries && r.nextId == s.nextId
  {
    match RouteIface(cfg, f)
    case None => s
    case Some(name) => Logged(s, Unsent(name))
  }

  lemma UnroutedLogs(s: Shared, cfg: Config, f: Frame) returns (name: string)
    requires |f| >= ETH + 20
    ensures Unrouted(s, cfg, f) == s || Unrouted(s, cfg, f) == Logged(s, Unsent(name))
  {
    var unknown := RouteIface(cfg, f);
    name := if unknown.Some? then unknown.value else "";
  }

  /** sr_send_routed_ip_packet with nothing in between. */
  function Routed(s: Shared, cfg: Config, f: Frame, origin: Origin, now: nat): (r: Shared)
    requires |f| >= ETH + 20
    ensures |r.requests| >= |s.requests| && r.entries == s.entries
  {
    match NextHop(cfg, f, origin)
    case None => Unrouted(s, cfg, f)
    case Some(out) =>
      match Lookup(s.entries, out.hop)
      case Some(mac) => Deliver(s, cfg, out.hop, out.pkt, mac, false)
      case None => QueueAndAsk(s, cfg, out.hop, out.pkt, now)
  }

  // ----- the timer thread -----

  /** sr_send_icmp_error(3, 1) about one waiting frame. */
  function Report(s: Shared, cfg: Config, pkt: Packet, now: nat): (r: Shared)
    ensures |r.requests| >= |s.requests| && r.entries == s.entries
  {
    match ErrorAbout(cfg, pkt.buf, 3, 1)
    case None => s
    case Some(e) => Routed(s, cfg, e, Generated(pkt.buf, 3, 1), now)
  }

  function ReportAll(s: Shared, cfg: Config, packets: seq<Packet>, now: nat): (r: Shared)
    ensures |r.requests| >= |s.requests| && r.entries == s.entries
    decreases |packets|
  {
    if packets == [] then s
    else ReportAll(Report(s, cfg, packets[0], now), cfg, packets[1..], now)
  }

  function Removed<T>(s: seq<T>, i: nat): (r: seq<T>)
    requires i < |s|
    ensures |r| == |s| - 1
  {
    s[..i] + s[i + 1..]
  }

  lemma RemovedIndex<T>(s: seq<T>, i: nat)
    requires i < |s|
    ensures forall k :: 0 <= k < |s| - 1 ==> Removed(s, i)[k] == s[if k < i then k else k + 1]
    ensures forall k :: 0 <= k < |s| && k != i ==> s[k] == Removed(s, i)[if k < i then k else k - 1]
  {
  }

  /** sr_arpreq_destroy on the i-th request, after `reported` was reported. */
  function Retire(s: Shared, i: nat, reported: seq<Packet>): (r: Shared)
    requires i < |s.requests|
    ensures |r.requests| == |s.requests| - 1 && r.entries == s.entries
  {
    Logged(s.(requests := Removed(s.requests, i)), Expired(s.requests[i], reported))
  }

  predicate Due(r: Request, now: nat)
  {
    now - r.sent >= 1
  }

  /** One turn of the sweep, on the request with k requests from it to the end of the list. */
  function Visit(s: Shared, cfg: Config, k: nat, now: nat): (r: Shared)
    requires 0 < k <= |s.requests|
    ensures |r.requests| >= k - 1 && r.entries == s.entries
  {
    var i := |s.requests| - k;
    var q := s.requests[i];
    if !Due(q, now) then s
    else if q.times >= MAX_ASKS then
      var t := ReportAll(s, cfg, q.packets, now);
      Retire(t, |t.requests| - k, q.packets)
    else if q.packets != [] then Ask(s, cfg, i, q.packets[0].iface, now)
    else s
  }

  /** The rest of the sweep when k requests have not been visited yet. Requests that error
      generation creates are prepended, so they lie in front of those k and are not visited. */
  function SweepFrom(s: Shared, cfg: Config, k: nat, now: nat): (r: Shared)
    requires k <= |s.requests|
    ensures r.entries == s.entries
    decreases k
  {
    if k == 0 then s else SweepFrom(Visit(s, cfg, k, now), cfg, k - 1, now)
  }

  /** sr_arpcache_sweepreqs. */
  function Sweep(s: Shared, cfg: Config, now: nat): (r: Shared)
    ensures r.entries == s.entries
  {
    SweepFrom(s, cfg, |s.requests|, now)
  }

  /** One iteration of sr_arpcache_timeout, under one acquisition of the lock. */
  function Tick(s: Shared, cfg: Config, now: nat): (r: Shared)
    ensures r.entries == AgedEntries(s.entries, now)
  {
    Sweep(s.(entries := AgedEntries(s.entries, now)), cfg, now)
  }

  // ----- an ARP message arrives -----

  /** The request that sr_arpcache_insert detaches and returns. */
  function Detached(s: Shared, ip: Ip4): Option<Request>
  {
    match IndexOf(s.requests, ip)
    case None => None
    case Some(i) => Some(s.requests[i])
  }

  /** sr_arpcache_insert. */
  function Insert(s: Shared, mac: Mac, ip: Ip4, now: nat): Shared
  {
    var i := IndexOf(s.requests, ip);
    Logged(s.(requests := if i.Some? then Removed(s.requests, i.value) else s.requests,
              entries := Stored(s.entries, mac, ip, now)),
           Accepted(ip, mac, Slot(s.entries, ip).Some?))
  }

  function Flush(s: Shared, cfg: Config, ip: Ip4, mac: Mac, packets: seq<Packet>): Shared
    decreases |packets|
  {
    if packets == [] then s
    else Flush(Deliver(s, cfg, ip, packets[0], mac, true), cfg, ip, mac, packets[1..])
  }

  /** sr_cache_arp_mapping with nothing in between. */
  function Learned(s: Shared, cfg: Config, ip: Ip4, mac: Mac, now: nat): Shared
  {
    var waiting := Detached(s, ip);
    var t := Insert(s, mac, ip, now);
    if waiting.Some? then Flush(t, cfg, ip, mac, waiting.value.packets) else t
  }
}
