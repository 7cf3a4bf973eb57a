/** What the packet thread decides to do with a received frame, before it touches the cache:
    sr_vns_comm.c's ARP filter and the handlers of sr_router.c. */
module Reactions {
  import opened Bytes
  import opened IpHeader
  import opened Icmp
  import opened Routing
  import opened ArpState
  import Arp

  datatype Reaction =
    | Ignore
    | Fail                   // an answer was due, but no interface has the name the frame came with
    | Answer(frame: Frame)
    | SendRouted(frame: Frame, origin: Origin)
    | Learn(ip: Ip4, mac: Mac, reply: Option<Frame>)

  /** sr_arp_req_not_for_us: such requests never reach the router. */
  predicate NotForUs(f: Frame, recv: Option<Iface>)
  {
    |f| >= Arp.ARP_LEN && recv.Some? && U16(f, 12) == 0x0806 && U16(f, Arp.ARP_OP) == Arp.OP_REQUEST
    && IpAt(f, Arp.ARP_TIP) != recv.value.ip
  }

  /** sr_handle_arp. */
  function ArpReaction(cfg: Config, f: Frame, recv: Option<Iface>): Reaction
    requires |f| >= ETH
  {
    if |f| < Arp.ARP_LEN || recv.None? || IpAt(f, Arp.ARP_SIP) == ZERO_IP then Ignore
    else if U16(f, Arp.ARP_OP) == Arp.OP_REQUEST then
      Learn(IpAt(f, Arp.ARP_SIP), MacAt(f, Arp.ARP_SHA),
            if IpAt(f, Arp.ARP_TIP) == recv.value.ip then Some(Arp.ReplyFrame(recv.value, f)) else None)
    else if U16(f, Arp.ARP_OP) == Arp.OP_REPLY && IsRouterIp(cfg, IpAt(f, Arp.ARP_TIP)) then
      Learn(IpAt(f, Arp.ARP_SIP), MacAt(f, Arp.ARP_SHA), None)
    else Ignore
  }

  function ErrorReaction(cfg: Config, f: Frame, kind: byte, code: byte): (r: Reaction)
    ensures r.SendRouted? ==> |r.frame| >= ETH + 20
  {
    match ErrorAbout(cfg, f, kind, code)
    case None => Ignore
    case Some(e) => SendRouted(e, Generated(f, kind, code))
  }

  predicate EchoRequest(f: Frame)
  {
    CarriesIcmp(f) && f[IP_PROTO] == PROTO_ICMP && f[IcmpOff(f)] == 8 && ChecksMessage(f)
  }

  /** sr_handle_ip on a valid datagram for one of the router's own addresses. */
  function LocalReaction(cfg: Config, f: Frame, recv: Option<Iface>): (r: Reaction)
    requires WellFormed(f)
    ensures r.SendRouted? ==> |r.frame| >= ETH + 20
  {
    if f[IP_PROTO] == PROTO_ICMP && CarriesIcmp(f) then
      if !EchoRequest(f) then Ignore
      else if recv.None? then Fail
      else Answer(EchoReply(f, recv.value.mac))
    else if f[IP_PROTO] == PROTO_TCP || f[IP_PROTO] == PROTO_UDP then ErrorReaction(cfg, f, 3, 3)
    else Ignore
  }

  /** sr_handle_ip. */
  function IpReaction(cfg: Config, f: Frame, recv: Option<Iface>): (r: Reaction)
    ensures r.SendRouted? ==> |r.frame| >= ETH + 20
  {
    if !ValidIp(f) then Ignore
    else if IsRouterIp(cfg, IpAt(f, IP_DST)) then LocalReaction(cfg, f, recv)
    else if f[IP_TTL] <= 1 then ErrorReaction(cfg, f, 11, 0)
    else
      var g := DecTtl(f);
      if Lpm(cfg, IpAt(g, IP_DST)).None? then ErrorReaction(cfg, g, 3, 0) else SendRouted(g, Forwarded(f))
  }

  /** A frame that arrived on the interface recv, if its name is known. */
  function React(cfg: Config, f: Frame, recv: Option<Iface>): (r: Reaction)
    ensures r.SendRouted? ==> |r.frame| >= ETH + 20
  {
    if NotForUs(f, recv) || |f| < ETH then Ignore
    else if U16(f, 12) == 0x0806 then ArpReaction(cfg, f, recv)
    else if U16(f, 12) == 0x0800 then IpReaction(cfg, f, recv)
    else Ignore
  }

  /** Two routers on one link resolve each other: the request that one sends makes the other learn
      the asker and answer, and that answer makes the asker learn the other. */
  lemma ArpExchangeResolves(a: Config, b: Config, ia: Iface, ib: Iface)
    requires ia in a.ifs && ib in b.ifs && ia.ip != ZERO_IP && ib.ip != ZERO_IP
    ensures var request := Arp.RequestFrame(ia, ib.ip);
            var reply := Arp.ReplyFrame(ib, request);
            && React(b, request, Some(ib)) == Learn(ia.ip, ia.mac, Some(reply))
            && React(a, reply, Some(ia)) == Learn(ib.ip, ib.mac, None)
  {
    var reply := Arp.ReplyFrame(ib, Arp.RequestFrame(ia, ib.ip));
    assert IpAt(reply, Arp.ARP_TIP) == ia.ip && IsRouterIp(a, ia.ip);
  }
}
