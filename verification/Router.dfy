/** The handlers of sr_router.c and the sweep of sr_arpcache.c over the linked cache, each proved to
    compute its function of ArpState. */
module Router {
  import opened Bytes
  import opened IpHeader
  import opened Icmp
  import opened Routing
  import opened ArpState
  import opened Reactions
  import opened ArpCache
  import opened System
  import Arp

  /** The list only grew at its head. */
  ghost predicate GrewAtHead(before: seq<Node>, after: seq<Node>)
  {
    |before| <= |after| && after[|after| - |before|..] == before
  }

  /** The list grew at its head; the k-th node from the end is found again and removed. */
  lemma TailAfterRemoval<T>(before: seq<T>, grown: seq<T>, k: nat)
    requires 0 < k <= |before| <= |grown| && grown[|grown| - |before|..] == before
    ensures grown[|grown| - k] == before[|before| - k]
    ensures var r := Removed(grown, |grown| - k);
            |r| >= k - 1 && r[|r| - (k - 1)..] == before[|before| - (k - 1)..]
  {
    var r := Removed(grown, |grown| - k);
    assert grown[|grown| - k] == grown[|grown| - |before|..][|before| - k];
    assert r[|r| - (k - 1)..] == grown[|grown| - (k - 1)..] == before[|before| - (k - 1)..];
  }

  class Instance {
    const cfg: Config
    const cache: Cache

    constructor (cfg: Config)
      ensures this.cfg == cfg && fresh(cache) && fresh(cache.entries) && cache.Valid() && cache.spine == []
    {
      this.cfg := cfg;
      cache := new Cache();
    }

    /** sr_send_packet: the two guards, then the frame is on the wire. The event e is its departure. */
    method SendPacket(frame: array<byte>, name: string, ghost e: Event)
      modifies cache`log
      ensures cache.log == old(cache.log) + [Transmitted(cfg, frame[..], name, e)]
    {
      if frame.Length < ETH {
        cache.log := cache.log + [Refused(frame[..], name)];
        return;
      }
      var iface := GetInterface(cfg, name);
      if iface.None? || Mac(frame[6], frame[7], frame[8], frame[9], frame[10], frame[11]) != iface.value.mac {
        cache.log := cache.log + [Refused(frame[..], name)];
        return;
      }
      cache.log := cache.log + [e];
    }

    /** sr_send_arp_request and sr_arpcache_send_arp_request. */
    method SendArpRequest(ghost id: nat, ip: Ip4, name: string, ghost now: nat)
      modifies cache`log
      ensures cache.log == old(cache.log) + [AskEvent(cfg, id, ip, name, now)]
    {
      hide FindIface, Sendable;
      var iface := GetInterface(cfg, name);
      if iface.None? {
        cache.log := cache.log + [Unsent(name)];
        return;
      }
      var request := Arp.Build(BROADCAST, iface.value, Arp.OP_REQUEST, ZERO_MAC, ip);
      SendPacket(request, name, Asked(id, ip, now, request[..], name));
    }

    /** An ARP request for a pending request, and its counters. */
    method AskFor(req: Node, ghost at: nat, name: string, now: nat)
      requires cache.Valid() && at < |cache.spine| && cache.spine[at] == req
      modifies cache`log, req`sent, req`times
      ensures cache.Valid() && cache.State() == Ask(old(cache.State()), cfg, at, name, now)
    {
      hide Linked, Values, AreElements, AskEvent;
      SendArpRequest(req.id, req.ip, name, now);
      cache.MarkAsked(req, at, now);
    }

    /** Both hardware addresses are written and the frame is sent: sr_router.c:549-551 and 263-265. */
    method Emit(buffer: array<byte>, hop: Ip4, pkt: Packet, mac: Mac, iface: Iface, ghost queued: bool)
      requires buffer[..] == pkt.buf && buffer.Length >= ETH && FindIface(cfg.ifs, pkt.iface) == Some(iface)
      modifies buffer, cache`log
      ensures cache.log == Deliver(old(cache.State()), cfg, hop, pkt, mac, queued).log
    {
      hide FindIface, Transmitted;
      WriteMac(buffer, DHOST, mac);
      WriteMac(buffer, SHOST, iface.mac);
      assert buffer[..] == Addressed(pkt.buf, mac, iface.mac);
      SendPacket(buffer, pkt.iface, Delivered(hop, pkt, buffer[..], queued));
    }

    /** sr_send_routed_ip_packet up to the cache lookup: the route, the outgoing interface, the copy. */
    method PrepareOutgoing(packet: array<byte>, origin: Origin)
      returns (out: Option<Outgoing>, forwarded: array<byte>, iface: Option<Iface>, unknown: Option<string>)
      requires packet.Length >= ETH + 20
      ensures out == NextHop(cfg, packet[..], origin)
      ensures out.Some? ==> iface.Some? && iface == FindIface(cfg.ifs, out.value.pkt.iface)
      ensures out.Some? ==> fresh(forwarded) && forwarded[..] == out.value.pkt.buf
      ensures out.None? ==> unknown == RouteIface(cfg, packet[..])
    {
      hide Lpm;
      forwarded := packet;
      iface, unknown := None, None;
      var dst := Ip4(packet[30], packet[31], packet[32], packet[33]);
      var route := FindLpmRoute(cfg, dst);
      if route.None? {
        return None, packet, None, None;
      }
      iface := GetInterface(cfg, route.value.iface);
      if iface.None? {
        return None, packet, None, Some(route.value.iface);
      }
      forwarded := Copy(packet);
      WriteMac(forwarded, SHOST, iface.value.mac);
      var hop := if route.value.gw != ZERO_IP then route.value.gw else dst;
      out := Some(Outgoing(hop, Packet(forwarded[..], iface.value.name, origin)));
    }

    /** sr_send_routed_ip_packet. */
    method SendRoutedIpPacket(packet: array<byte>, origin: Origin, now: nat)
      requires cache.Valid() && packet.Length >= ETH + 20
      modifies cache, cache.repr
      ensures cache.Valid() && cache.State() == Routed(old(cache.State()), cfg, packet[..], origin, now)
      ensures GrewAtHead(old(cache.spine), cache.spine) && fresh(cache.repr - old(cache.repr))
    {
      hide FindIface, Linked, Distinct, Values, AreElements, Lookup, QueueAndAsk, NextHop, RouteIface, Transmitted;
      var outgoing, forwarded, iface, unknown := PrepareOutgoing(packet, origin);
      if outgoing.None? {
        if unknown.Some? {
          cache.log := cache.log + [Unsent(unknown.value)];
        }
        return;
      }
      var out := outgoing.value;
      var entry := cache.LookUp(out.hop);
      if entry.Some? {
        Emit(forwarded, out.hop, out.pkt, entry.value, iface.value, false);
        return;
      }
      QueueThenAsk(out.hop, out.pkt, now);
    }

    /** sr_router.c:557-564. */
    method QueueThenAsk(hop: Ip4, pkt: Packet, now: nat)
      requires cache.Valid()
      modifies cache, cache.repr
      ensures cache.Valid() && cache.State() == QueueAndAsk(old(cache.State()), cfg, hop, pkt, now)
      ensures GrewAtHead(old(cache.spine), cache.spine) && fresh(cache.repr - old(cache.repr))
    {
      hide FindIface, Linked, Distinct, Values, Queue, Ask;
      ghost var before := cache.State();
      var req, at := cache.QueueReq(hop, pkt);
      assert Values(cache.spine)[at] == req.Value();
      if req.times == 0 {
        ElementIn(cache.repr, cache.spine, at);
        AskFor(req, at, pkt.iface, now);
      }
    }

    /** sr_send_icmp_error. */
    method SendIcmpError(packet: array<byte>, kind: byte, code: byte, now: nat)
      requires cache.Valid()
      modifies cache, cache.repr, packet
      ensures cache.Valid() && packet[..] == old(packet[..])
      ensures cache.State() == ErrorSent(old(cache.State()), cfg, packet[..], kind, code, now)
      ensures GrewAtHead(old(cache.spine), cache.spine) && fresh(cache.repr - old(cache.repr))
    {
      hide Linked, Distinct, Values, AreElements, ErrorAbout, Routed;
      var reply := BuildIcmpError(cfg, packet, kind, code);
      if reply == null {
        return;
      }
      SendRoutedIpPacket(reply, Generated(packet[..], kind, code), now);
    }

    /** The inner loop of the sweep, over the frames that wait when it starts. */
    method ReportWaiting(packets: seq<Packet>, now: nat)
      requires cache.Valid()
      modifies cache, cache.repr
      ensures cache.Valid() && cache.State() == ReportAll(old(cache.State()), cfg, packets, now)
      ensures GrewAtHead(old(cache.spine), cache.spine) && fresh(cache.repr - old(cache.repr))
    {
      hide Linked, Distinct, Values, AreElements, Report;
      var pkt := packets;
      assert cache.spine[|cache.spine| - |cache.spine|..] == cache.spine;
      while pkt != []
        invariant cache.Valid() && GrewAtHead(old(cache.spine), cache.spine) && fresh(cache.repr - old(cache.repr))
        invariant ReportAll(cache.State(), cfg, pkt, now) == ReportAll(old(cache.State()), cfg, packets, now)
        decreases |pkt|
      {
        ReportOne(pkt[0], now);
        pkt := pkt[1..];
      }
    }

    method ReportOne(pkt: Packet, now: nat)
      requires cache.Valid()
      modifies cache, cache.repr
      ensures cache.Valid() && cache.State() == Report(old(cache.State()), cfg, pkt, now)
      ensures GrewAtHead(old(cache.spine), cache.spine) && fresh(cache.repr - old(cache.repr))
    {
      hide Linked, Distinct, Values, AreElements, ErrorAbout, Routed;
      var buf := new byte[|pkt.buf|](i requires 0 <= i < |pkt.buf| => pkt.buf[i]);
      assert buf[..] == pkt.buf;
      SendIcmpError(buf, 3, 1, now);
    }

    /** One turn of the sweep on req, which has k nodes from it to the end of the list. */
    method VisitRequest(req: Node, ghost k: nat, now: nat)
      requires cache.Valid() && 0 < k <= |cache.spine| && req == cache.spine[|cache.spine| - k]
      modifies cache, cache.repr
      ensures cache.Valid() && cache.State() == Visit(old(cache.State()), cfg, k, now)
      ensures |cache.spine| >= k - 1
      ensures cache.spine[|cache.spine| - (k - 1)..] == old(cache.spine)[|old(cache.spine)| - (k - 1)..]
      ensures fresh(cache.repr - old(cache.repr))
    {
      hide Linked, Distinct, Values, AreElements, ReportAll, Ask, Retire;
      ghost var i := |cache.spine| - k;
      assert Values(cache.spine)[i] == req.Value();
      if now - req.sent >= 1 {
        if req.times >= MAX_ASKS {
          ExpireRequest(req, k, now);
        } else if req.packets != [] {
          ElementIn(cache.repr, cache.spine, i);
          AskFor(req, i, req.packets[0].iface, now);
        }
      }
    }

    /** Expiry: error generation may prepend requests and frames, but the node stays k-th from the
        end until it is destroyed. */
    method ExpireRequest(req: Node, ghost k: nat, now: nat)
      requires cache.Valid() && 0 < k <= |cache.spine| && req == cache.spine[|cache.spine| - k]
      modifies cache, cache.repr
      ensures cache.Valid()
      ensures var q := old(req.Value()); var t := ReportAll(old(cache.State()), cfg, q.packets, now);
              k <= |t.requests| && cache.State() == Retire(t, |t.requests| - k, q.packets)
      ensures |cache.spine| >= k - 1
      ensures cache.spine[|cache.spine| - (k - 1)..] == old(cache.spine)[|old(cache.spine)| - (k - 1)..]
      ensures fresh(cache.repr - old(cache.repr))
    {
      hide Linked, Distinct, Values, AreElements, ReportAll, Retire, Removed;
      ghost var walked := req.packets;
      ReportWaiting(req.packets, now);
      ghost var at := |cache.spine| - k;
      TailAfterRemoval(old(cache.spine), cache.spine, k);
      cache.DestroyRequest(req, at, walked);
    }

    /** sr_arpcache_sweepreqs: the walk saves next before it works on a node, and ends with the node
        that was last when it began. */
    method SweepRequests(now: nat)
      requires cache.Valid()
      modifies cache, cache.repr
      ensures cache.Valid() && cache.State() == Sweep(old(cache.State()), cfg, now)
      ensures fresh(cache.repr - old(cache.repr))
    {
      hide Linked, Distinct, Values, AreElements, Visit, SweepFrom;
      var req := cache.requests;
      ghost var k: nat := |cache.spine|;
      while req != null
        invariant cache.Valid() && k <= |cache.spine|
        invariant req == NodeAt(cache.spine, |cache.spine| - k)
        invariant fresh(cache.repr - old(cache.repr))
        invariant SweepFrom(cache.State(), cfg, k, now) == Sweep(old(cache.State()), cfg, now)
        decreases k
      {
        LinkedAt(cache.spine, |cache.spine| - k);
        SweepStep(cache.State(), cfg, k, now);
        var next := req.next;
        ghost var rest := cache.spine[|cache.spine| - (k - 1)..];
        assert next == NodeAt(rest, 0);
        VisitRequest(req, k, now);
        assert cache.spine[|cache.spine| - (k - 1)..] == rest;
        req := next;
        k := k - 1;
      }
      SweepStep(cache.State(), cfg, k, now);
    }

    /** One iteration of sr_arpcache_timeout, which holds the lock throughout. It leaves alone every node
        that is not on the list, such as one whose frames the packet thread is flushing. */
    method TimerIteration(now: nat)
      requires cache.Valid()
      modifies cache, cache.repr, cache.entries
      ensures cache.Valid() && cache.State() == Tick(old(cache.State()), cfg, now)
      ensures fresh(cache.repr - old(cache.repr))
      ensures forall n: Node :: n !in old(cache.spine) && !fresh(n) ==> unchanged(n)
    {
      hide Linked, Distinct, Values, AreElements, Sweep;
      OnlyElements(cache.repr, cache.spine);
      cache.ExpireEntries(now);
      SweepRequests(now);
    }

    /** sr_cache_arp_mapping. */
    method CacheArpMapping(mac: Mac, ip: Ip4, now: nat)
      requires cache.Valid() && LongFrames(cache.State())
      modifies cache, cache.repr, cache.entries
      ensures cache.Valid() && cache.State() == Learned(old(cache.State()), cfg, ip, mac, now)
      ensures fresh(cache.repr - old(cache.repr))
    {
      hide Linked, Distinct, Values, AreElements, Insert, Flush, Retire, Detached, LongFrames, LongBuffers;
      DetachedIsLong(cache.State(), ip);
      var req := cache.InsertMapping(mac, ip, now);
      if req == null {
        return;
      }
      FlushAndFree(req, ip, mac);
    }

    /** The detached request's frames are sent; destroying it finds nothing to unlink. */
    method FlushAndFree(req: Node, ip: Ip4, mac: Mac)
      requires cache.Valid() && req !in cache.spine && LongBuffers(req.packets)
      modifies cache, cache.repr
      ensures cache.Valid() && cache.State() == Flush(old(cache.State()), cfg, ip, mac, old(req.packets))
      ensures fresh(cache.repr - old(cache.repr))
    {
      hide Linked, Distinct, Values, AreElements, Flush, Retire, LongBuffers;
      FlushWaiting(ip, mac, req.packets);
      cache.DestroyRequest(req, 0, []);
    }

    /** The loop over the detached request's frames. */
    method FlushWaiting(ip: Ip4, mac: Mac, packets: seq<Packet>)
      requires cache.Valid() && LongBuffers(packets)
      modifies cache`log
      ensures cache.Valid() && cache.State() == Flush(old(cache.State()), cfg, ip, mac, packets)
    {
      hide Linked, Distinct, Values, AreElements, FindIface, Deliver;
      var queued := packets;
      while queued != []
        invariant cache.Valid() && LongBuffers(queued)
        invariant cache.entries[..] == old(cache.entries[..]) && Values(cache.spine) == old(Values(cache.spine))
        invariant Flush(cache.State(), cfg, ip, mac, queued) == Flush(old(cache.State()), cfg, ip, mac, packets)
        decreases |queued|
      {
        FlushOne(ip, mac, queued[0]);
        queued := queued[1..];
      }
    }

    method FlushOne(ip: Ip4, mac: Mac, pkt: Packet)
      requires cache.Valid() && |pkt.buf| >= ETH
      modifies cache`log
      ensures cache.Valid() && cache.State() == Deliver(old(cache.State()), cfg, ip, pkt, mac, true)
    {
      hide Linked, Distinct, Values, AreElements, FindIface;
      var outIface := GetInterface(cfg, pkt.iface);
      if outIface.Some? {
        var buf := new byte[|pkt.buf|](i requires 0 <= i < |pkt.buf| => pkt.buf[i]);
        assert buf[..] == pkt.buf;
        Emit(buf, ip, pkt, mac, outIface.value, true);
      } else {
        cache.log := cache.log + [Unsent(pkt.iface)];
      }
    }

    /** An echo or ARP reply is handed to sr_send_packet. */
    method Reply(frame: array<byte>, name: string)
      requires cache.Valid()
      modifies cache`log
      ensures cache.Valid() && cache.State() == Respond(old(cache.State()), cfg, frame[..], name)
    {
      hide Linked, Distinct, Values, AreElements, Transmitted;
      SendPacket(frame, name, Replied(frame[..], name));
    }

    /** sr_send_arp_reply. */
    method SendArpReply(packet: array<byte>, name: string, ghost iface: Iface)
      requires cache.Valid() && packet.Length >= Arp.ARP_LEN && FindIface(cfg.ifs, name) == Some(iface)
      modifies cache`log
      ensures cache.Valid()
      ensures cache.State() == Respond(old(cache.State()), cfg, Arp.ReplyFrame(iface, packet[..]), name)
    {
      hide Linked, Distinct, Values, AreElements, FindIface, Arp.Message, Respond;
      var outIface := GetInterface(cfg, name);
      var sha := Mac(packet[22], packet[23], packet[24], packet[25], packet[26], packet[27]);
      var sip := Ip4(packet[28], packet[29], packet[30], packet[31]);
      var reply := Arp.Build(sha, outIface.value, Arp.OP_REPLY, sha, sip);
      Reply(reply, name);
    }

    /** sr_handle_arp. */
    method HandleArp(packet: array<byte>, name: string, ghost recv: Option<Iface>, now: nat)
      requires cache.Valid() && LongFrames(cache.State()) && packet.Length >= ETH
      requires FindIface(cfg.ifs, name) == recv
      modifies cache, cache.repr, cache.entries
      ensures cache.Valid()
      ensures cache.State() == Handled(old(cache.State()), cfg, ArpReaction(cfg, packet[..], recv), name, now)
      ensures fresh(cache.repr - old(cache.repr))
    {
      hide Linked, Distinct, Values, AreElements, FindIface, Learned, IsRouterIp, Routed, LongFrames,
          Arp.ReplyFrame, Respond;
      if packet.Length < Arp.ARP_LEN {
        return;
      }
      var recvIface := GetInterface(cfg, name);
      var sip := Ip4(packet[28], packet[29], packet[30], packet[31]);
      if recvIface.None? || sip == ZERO_IP {
        return;
      }
      var sha := Mac(packet[22], packet[23], packet[24], packet[25], packet[26], packet[27]);
      var tip := Ip4(packet[38], packet[39], packet[40], packet[41]);
      var op := packet[20] as int * 256 + packet[21] as int;
      if op == Arp.OP_REQUEST as int {
        CacheArpMapping(sha, sip, now);
        if tip == recvIface.value.ip {
          SendArpReply(packet, name, recvIface.value);
        }
      } else if op == Arp.OP_REPLY as int {
        var ours := CheckRouterIp(cfg, tip);
        if !ours {
          return;
        }
        CacheArpMapping(sha, sip, now);
      }
    }

    /** The part of sr_handle_ip for datagrams addressed to the router. */
    method HandleLocal(packet: array<byte>, name: string, ghost recv: Option<Iface>, now: nat)
      requires cache.Valid() && ValidIp(packet[..]) && FindIface(cfg.ifs, name) == recv
      modifies cache, cache.repr, packet
      ensures cache.Valid()
      ensures cache.State() == Handled(old(cache.State()), cfg, LocalReaction(cfg, old(packet[..]), recv), name, now)
      ensures fresh(cache.repr - old(cache.repr))
    {
      hide Linked, Distinct, Values, AreElements, FindIface, ErrorReaction, ErrorSent, Routed, EchoReply, ChecksMessage;
      ErrorHandled(cache.State(), cfg, packet[..], 3, 3, name, now);
      var total := packet[IP_LEN] as int * 256 + packet[IP_LEN + 1] as int;
      var headerLen: nat := packet[ETH] % 16 * 4;
      if packet[IP_PROTO] == PROTO_ICMP && total >= headerLen + 8 {
        var checks := CheckMessage(packet);
        if packet[ETH + headerLen] == 8 && checks {
          SendEchoReply(packet, name);
        }
      } else if packet[IP_PROTO] == PROTO_TCP || packet[IP_PROTO] == PROTO_UDP {
        SendIcmpError(packet, 3, 3, now);
      }
    }

    /** sr_send_icmp_echo_reply. */
    method SendEchoReply(packet: array<byte>, name: string)
      requires cache.Valid() && CarriesIcmp(packet[..])
      modifies cache`log
      ensures cache.Valid()
      ensures var recv := FindIface(cfg.ifs, name);
              cache.State() == if recv.None? then Logged(old(cache.State()), Unsent(name))
                               else Respond(old(cache.State()), cfg, EchoReply(packet[..], recv.value.mac), name)
    {
      hide Linked, Distinct, Values, AreElements, FindIface, EchoReply, Respond;
      var outIface := GetInterface(cfg, name);
      if outIface.None? {
        cache.log := cache.log + [Unsent(name)];
        return;
      }
      var reply := BuildEchoReply(packet, outIface.value.mac);
      Reply(reply, name);
    }

    /** sr_handle_ip. */
    method HandleIp(packet: array<byte>, name: string, ghost recv: Option<Iface>, now: nat)
      requires cache.Valid() && FindIface(cfg.ifs, name) == recv
      modifies cache, cache.repr, packet
      ensures cache.Valid()
      ensures cache.State() == Handled(old(cache.State()), cfg, IpReaction(cfg, old(packet[..]), recv), name, now)
      ensures fresh(cache.repr - old(cache.repr))
    {
      hide Linked, Distinct, Values, AreElements, FindIface, ErrorReaction, ErrorSent, Routed, LocalReaction, Lpm,
          DecTtl;
      hide IsRouterIp;
      var ok := ValidIpPacket(packet);
      if !ok {
        return;
      }
      var ours := CheckRouterIp(cfg, Ip4(packet[30], packet[31], packet[32], packet[33]));
      if ours {
        HandleLocal(packet, name, recv, now);
        return;
      }
      if packet[IP_TTL] <= 1 {
        ErrorHandled(cache.State(), cfg, packet[..], 11, 0, name, now);
        SendIcmpError(packet, 11, 0, now);
        return;
      }
      var received := packet[..];
      DecrementTtl(packet);
      ErrorHandled(cache.State(), cfg, packet[..], 3, 0, name, now);
      ForwardIpPacket(packet, received, now);
    }

    /** sr_forward_ip_packet. */
    method ForwardIpPacket(packet: array<byte>, received: Frame, now: nat)
      requires cache.Valid() && WellFormed(packet[..])
      modifies cache, cache.repr, packet
      ensures cache.Valid()
      ensures var g := old(packet[..]);
              cache.State() == if Lpm(cfg, IpAt(g, IP_DST)).None? then ErrorSent(old(cache.State()), cfg, g, 3, 0, now)
                               else Routed(old(cache.State()), cfg, g, Forwarded(received), now)
      ensures fresh(cache.repr - old(cache.repr))
    {
      hide Linked, Distinct, Values, AreElements, ErrorSent, Routed, Lpm;
      var route := FindLpmRoute(cfg, Ip4(packet[30], packet[31], packet[32], packet[33]));
      if route.None? {
        SendIcmpError(packet, 3, 0, now);
        return;
      }
      SendRoutedIpPacket(packet, Forwarded(received), now);
    }

    /** sr_vns_comm.c:426-448: the ARP filter, then sr_handlepacket. */
    method ReadPacket(packet: array<byte>, name: string, now: nat)
      requires cache.Valid() && LongFrames(cache.State()) && NameKnown(cfg, packet[..], name)
      modifies cache, cache.repr, cache.entries, packet
      ensures cache.Valid()
      ensures cache.State() == Handled(old(cache.State()), cfg,
              React(cfg, old(packet[..]), FindIface(cfg.ifs, name)), name, now)
      ensures fresh(cache.repr - old(cache.repr))
    {
      hide Linked, Distinct, Values, AreElements, FindIface, ArpReaction, IpReaction, Learned, Routed;
      var iface := GetInterface(cfg, name);
      var isArp := packet.Length >= ETH && packet[12] == 8 && packet[13] == 6;
      if packet.Length >= Arp.ARP_LEN && isArp && packet[20] == 0 && packet[21] == 1
         && Ip4(packet[38], packet[39], packet[40], packet[41]) != iface.value.ip {
        return;
      }
      if packet.Length < ETH {
        return;
      }
      if isArp {
        HandleArp(packet, name, iface, now);
      } else if packet[12] == 8 && packet[13] == 0 {
        HandleIp(packet, name, iface, now);
      }
    }
  }

  predicate LongBuffers(packets: seq<Packet>)
  {
    forall i :: 0 <= i < |packets| ==> |packets[i].buf| >= ETH
  }

  /** Every waiting frame has at least an Ethernet header, as every frame that is queued has. */
  ghost predicate LongFrames(s: Shared)
  {
    forall i :: 0 <= i < |s.requests| ==> LongBuffers(s.requests[i].packets)
  }

  lemma DetachedIsLong(s: Shared, ip: Ip4)
    requires LongFrames(s)
    ensures Detached(s, ip).Some? ==> LongBuffers(Detached(s, ip).value.packets)
  {
  }

  lemma SweepStep(s: Shared, cfg: Config, k: nat, now: nat)
    requires k <= |s.requests|
    ensures SweepFrom(s, cfg, k, now) == if k == 0 then s else SweepFrom(Visit(s, cfg, k, now), cfg, k - 1, now)
  {
  }

  /** An error is handled by sending it. */
  lemma ErrorHandled(s: Shared, cfg: Config, f: Frame, kind: byte, code: byte, name: string, now: nat)
    ensures Handled(s, cfg, ErrorReaction(cfg, f, kind, code), name, now) == ErrorSent(s, cfg, f, kind, code, now)
  {
    hide ErrorAbout, Routed;
  }

  /** What sr_send_icmp_error does. */
  function ErrorSent(s: Shared, cfg: Config, f: Frame, kind: byte, code: byte, now: nat): Shared
  {
    match ErrorAbout(cfg, f, kind, code)
    case None => s
    case Some(e) => Routed(s, cfg, e, Generated(f, kind, code), now)
  }
}
