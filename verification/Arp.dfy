/** The ARP messages that the router sends, and how it reads one. */
module Arp {
  import opened Bytes
  import opened Routing

  const ARP_LEN := 42
  const OP_REQUEST := 1
  const OP_REPLY := 2
  const ARP_OP := 20
  const ARP_SHA := 22
  const ARP_SIP := 28
  const ARP_THA := 32
  const ARP_TIP := 38

  /** An Ethernet/IPv4 ARP message sent from an interface (RFC 826). */
  function Message(dst: Mac, from: Iface, op: byte, tha: Mac, tip: Ip4): (f: Frame)
    ensures |f| == ARP_LEN
    ensures MacAt(f, DHOST) == dst && MacAt(f, SHOST) == from.mac && U16(f, 12) == 0x0806
    ensures U16(f, ARP_OP) == op && MacAt(f, ARP_SHA) == from.mac && IpAt(f, ARP_SIP) == from.ip
    ensures MacAt(f, ARP_THA) == tha && IpAt(f, ARP_TIP) == tip
  {
    var z := seq(ARP_LEN, _ => 0 as byte);
    var e := PutU16(PutMac(PutMac(z, DHOST, dst), SHOST, from.mac), 12, 0x0806);
    var h := PutU16(PutU16(PutU16(e, 14, 1), 16, 0x0800)[18 := 6][19 := 4], ARP_OP, op);
    PutIp(PutMac(PutIp(PutMac(h, ARP_SHA, from.mac), ARP_SIP, from.ip), ARP_THA, tha), ARP_TIP, tip)
  }

  function RequestFrame(from: Iface, ip: Ip4): (f: Frame)
    ensures |f| == ARP_LEN && MacAt(f, SHOST) == from.mac
  {
    Message(BROADCAST, from, OP_REQUEST, ZERO_MAC, ip)
  }

  function ReplyFrame(from: Iface, request: Frame): (f: Frame)
    requires |request| >= ARP_LEN
    ensures |f| == ARP_LEN && MacAt(f, SHOST) == from.mac
  {
    Message(MacAt(request, ARP_SHA), from, OP_REPLY, MacAt(request, ARP_SHA), IpAt(request, ARP_SIP))
  }

  /** sr_send_arp_request, sr_arpcache_send_arp_request and sr_send_arp_reply fill their frame the
      same way. */
  method Build(dst: Mac, from: Iface, op: byte, tha: Mac, tip: Ip4) returns (r: array<byte>)
    ensures fresh(r) && r[..] == Message(dst, from, op, tha, tip)
  {
    r := new byte[ARP_LEN](_ => 0);
    assert r[..] == seq(ARP_LEN, _ => 0 as byte);
    WriteMac(r, DHOST, dst);
    WriteMac(r, SHOST, from.mac);
    WriteU16(r, 12, 0x0806);
    WriteU16(r, 14, 1);
    WriteU16(r, 16, 0x0800);
    r[18] := 6;
    r[19] := 4;
    WriteU16(r, ARP_OP, op);
    WriteMac(r, ARP_SHA, from.mac);
    WriteIp(r, ARP_SIP, from.ip);
    WriteMac(r, ARP_THA, tha);
    WriteIp(r, ARP_TIP, tip);
  }
}
