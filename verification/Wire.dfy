/** What the router's messages are on the wire, octet by octet, and which frames its tests accept, in
    the numbers of RFC 826, RFC 791 and RFC 792: a second description, in terms of nothing that builds
    or tests a frame. */
module Wire {
  import opened Bytes
  import opened Checksum
  import opened IpHeader
  import opened Icmp
  import opened Routing
  import opened Reactions
  import Arp

  function Hw(m: Mac): (s: seq<byte>)
    ensures |s| == 6
  {
    [m.m0, m.m1, m.m2, m.m3, m.m4, m.m5]
  }

  function Quad(ip: Ip4): (s: seq<byte>)
    ensures |s| == 4
  {
    [ip.a, ip.b, ip.c, ip.d]
  }

  lemma HwAt(f: Frame, off: nat)
    requires off + 6 <= |f|
    ensures f[off..off + 6] == Hw(MacAt(f, off))
  {
  }

  lemma QuadAt(f: Frame, off: nat)
    requires off + 4 <= |f|
    ensures f[off..off + 4] == Quad(IpAt(f, off))
  {
  }

  lemma HwIs(m: Mac, n: Mac)
    ensures Hw(m) == Hw(n) <==> m == n
  {
    assert Hw(m) == Hw(n) ==> forall i :: 0 <= i < 6 ==> Hw(m)[i] == Hw(n)[i];
  }

  lemma QuadIs(a: Ip4, b: Ip4)
    ensures Quad(a) == Quad(b) <==> a == b
  {
    assert Quad(a) == Quad(b) ==> forall i :: 0 <= i < 4 ==> Quad(a)[i] == Quad(b)[i];
  }

  // ----- interfaces -----

  /** The first interface of that name. */
  ghost predicate Named(ifs: seq<Iface>, name: string, iface: Iface)
  {
    exists i :: 0 <= i < |ifs| && ifs[i] == iface && iface.name == name
                && forall j :: 0 <= j < i ==> ifs[j].name != name
  }

  /** The first interface with that hardware address. */
  ghost predicate Owns(ifs: seq<Iface>, mac: seq<byte>, iface: Iface)
  {
    exists i :: 0 <= i < |ifs| && ifs[i] == iface && Hw(iface.mac) == mac
                && forall j :: 0 <= j < i ==> Hw(ifs[j].mac) != mac
  }

  ghost predicate Unnamed(ifs: seq<Iface>, name: string)
  {
    forall i :: i in ifs ==> i.name != name
  }

  ghost predicate Unowned(ifs: seq<Iface>, mac: seq<byte>)
  {
    forall i :: i in ifs ==> Hw(i.mac) != mac
  }

  ghost predicate RoutersOwn(cfg: Config, ip: seq<byte>)
  {
    exists i :: i in cfg.ifs && Quad(i.ip) == ip
  }

  lemma {:induction false} FindIfaceIsFirst(ifs: seq<Iface>, name: string)
    ensures FindIface(ifs, name).None? <==> Unnamed(ifs, name)
    ensures FindIface(ifs, name).Some? ==> Named(ifs, name, FindIface(ifs, name).value)
  {
    if ifs != [] {
      FindIfaceIsFirst(ifs[1..], name);
      if ifs[0].name == name {
        assert Named(ifs, name, ifs[0]);
      } else if FindIface(ifs[1..], name).Some? {
        var r := FindIface(ifs[1..], name).value;
        var i :| 0 <= i < |ifs| - 1 && ifs[1..][i] == r && forall j :: 0 <= j < i ==> ifs[1..][j].name != name;
        assert ifs[i + 1] == r && forall j :: 0 < j < i + 1 ==> ifs[j] == ifs[1..][j - 1];
      }
    }
  }

  lemma {:induction false} FindIfaceByMacIsFirst(ifs: seq<Iface>, mac: Mac)
    ensures FindIfaceByMac(ifs, mac).None? <==> Unowned(ifs, Hw(mac))
    ensures FindIfaceByMac(ifs, mac).Some? ==> Owns(ifs, Hw(mac), FindIfaceByMac(ifs, mac).value)
  {
    forall m ensures Hw(m) == Hw(mac) <==> m == mac {
      HwIs(m, mac);
    }
    hide Hw;
    if ifs != [] {
      FindIfaceByMacIsFirst(ifs[1..], mac);
      if ifs[0].mac == mac {
        assert Owns(ifs, Hw(mac), ifs[0]);
      } else if FindIfaceByMac(ifs[1..], mac).Some? {
        var r := FindIfaceByMac(ifs[1..], mac).value;
        var i :| 0 <= i < |ifs| - 1 && ifs[1..][i] == r && forall j :: 0 <= j < i ==> Hw(ifs[1..][j].mac) != Hw(mac);
        assert ifs[i + 1] == r && forall j :: 0 < j < i + 1 ==> ifs[j] == ifs[1..][j - 1];
      }
    }
  }

  lemma RouterIpIs(cfg: Config, f: Frame, off: nat)
    requires off + 4 <= |f|
    ensures IsRouterIp(cfg, IpAt(f, off)) <==> RoutersOwn(cfg, f[off..off + 4])
  {
    QuadAt(f, off);
    forall ip ensures Quad(ip) == f[off..off + 4] <==> ip == IpAt(f, off) {
      QuadIs(ip, IpAt(f, off));
    }
    hide Quad;
  }

  // ----- checksums -----

  /** The 16-bit field at off is not 0x0000 and makes the whole sum zero modulo 65535. */
  predicate Cancels(s: seq<byte>, off: nat)
    requires off + 2 <= |s|
  {
    (s[off] != 0 || s[off + 1] != 0) && Total(s) % 65535 == 0
  }

  // ----- datagrams -----

  function Ihl(f: Frame): nat
    requires |f| > 14
  {
    4 * (f[14] % 16)
  }

  function TotalLength(f: Frame): nat
    requires |f| > 17
  {
    256 * f[16] as int + f[17] as int
  }

  /** A datagram that the router accepts: version 4, lengths that fit each other and the frame, and a
      header checksum other than 0x0000 that cancels. */
  predicate IsDatagram(f: Frame)
  {
    && |f| >= 34
    && f[14] / 16 == 4 && 20 <= Ihl(f) <= TotalLength(f) <= |f| - 14
    && Cancels(f[14..14 + Ihl(f)], 10)
  }

  lemma AcceptedAreDatagrams(f: Frame)
    ensures ValidIp(f) <==> IsDatagram(f)
  {
    ValidIffSumsToZero(f);
    hide Total, Cksum;
    if WellFormed(f) {
      assert Header(f) == f[14..14 + Ihl(f)];
      assert Header(f)[10] == f[24] && Header(f)[11] == f[25];
    }
  }

  lemma MessageTotal(f: Frame)
    requires CarriesIcmp(f)
    ensures Total(SummedMessage(f)) == Total(Message(f)) - U16(f, IcmpOff(f) + 2)
    ensures Total(SummedMessage(f)) < ACC
  {
    var off := IcmpOff(f);
    var g := PutU16(f, off + 2, 0);
    assert SummedMessage(f) == PutU16(Message(f), 2, 0);
    assert U16(Message(f), 2) == U16(f, off + 2);
    TotalUpdate(Message(f), 2, 0);
    AccumulatorNeverOverflows(SummedMessage(f));
  }

  /** A message of ICMP passes the router's test exactly when its checksum is not 0x0000 and cancels. */
  lemma CheckedMessagesCancel(f: Frame)
    requires CarriesIcmp(f)
    ensures IcmpOff(f) == 14 + Ihl(f) && Message(f) == f[14 + Ihl(f)..14 + TotalLength(f)]
    ensures ChecksMessage(f) <==> Cancels(f[14 + Ihl(f)..14 + TotalLength(f)], 2)
  {
    MessageTotal(f);
    CksumCancels(SummedMessage(f), U16(f, IcmpOff(f) + 2));
    assert Message(f)[2] == f[IcmpOff(f) + 2] && Message(f)[3] == f[IcmpOff(f) + 3];
    hide Total, Cksum;
  }

  /** A datagram of protocol 1 whose message has at least 8 bytes, type 8 and a checksum that cancels. */
  predicate IsPing(f: Frame)
  {
    && IsDatagram(f)
    && f[23] == 1 && TotalLength(f) >= Ihl(f) + 8 && f[14 + Ihl(f)] == 8
    && Cancels(f[14 + Ihl(f)..14 + TotalLength(f)], 2)
  }

  lemma EchoRequestsArePings(f: Frame)
    requires ValidIp(f)
    ensures EchoRequest(f) <==> IsPing(f)
  {
    AcceptedAreDatagrams(f);
    hide Total, Cksum, Cancels;
    if CarriesIcmp(f) {
      CheckedMessagesCancel(f);
    }
  }

  // ----- ARP -----

  /** An ARP message: 42 octets, Ethernet and IPv4, with those addresses. */
  predicate IsArp(f: Frame, dst: Mac, from: Iface, op: byte, target: Mac, ip: Ip4)
  {
    f == Hw(dst) + Hw(from.mac) + [8, 6, 0, 1, 8, 0, 6, 4, 0, op] + Hw(from.mac) + Quad(from.ip) + Hw(target) + Quad(ip)
  }

  /** A 16-bit field is its two octets, the higher first. */
  lemma PutOctets(f: Frame, off: nat, hi: byte, lo: byte)
    requires off + 2 <= |f|
    ensures PutU16(f, off, 256 * hi as int + lo as int)[off] == hi
    ensures PutU16(f, off, 256 * hi as int + lo as int)[off + 1] == lo
  {
  }

  lemma ArpMiddle(dst: Mac, from: Iface, op: byte, tha: Mac, tip: Ip4)
    ensures Arp.Message(dst, from, op, tha, tip)[12..22] == [8, 6, 0, 1, 8, 0, 6, 4, 0, op]
  {
    hide PutU16, PutMac, PutIp;
    var f := Arp.Message(dst, from, op, tha, tip);
    var z := seq(42, _ => 0 as byte);
    var e := PutMac(PutMac(z, 0, dst), 6, from.mac);
    var e12 := PutU16(e, 12, 0x0806);
    var e14 := PutU16(e12, 14, 1);
    var e16 := PutU16(e14, 16, 0x0800);
    var e20 := PutU16(e16[18 := 6][19 := 4], 20, op);
    PutOctets(e, 12, 8, 6);
    PutOctets(e12, 14, 0, 1);
    PutOctets(e14, 16, 8, 0);
    PutOctets(e16[18 := 6][19 := 4], 20, 0, op);
    assert forall i :: 12 <= i < 22 ==> f[i] == e20[i];
  }

  lemma MessageIsArp(dst: Mac, from: Iface, op: byte, tha: Mac, tip: Ip4)
    ensures IsArp(Arp.Message(dst, from, op, tha, tip), dst, from, op, tha, tip)
  {
    var f := Arp.Message(dst, from, op, tha, tip);
    ArpMiddle(dst, from, op, tha, tip);
    HwAt(f, 0);
    HwAt(f, 6);
    HwAt(f, 22);
    QuadAt(f, 28);
    HwAt(f, 32);
    QuadAt(f, 38);
    hide Arp.Message, Hw, Quad;
    InParts(f);
  }

  lemma InParts(f: Frame)
    requires |f| == 42
    ensures f == f[0..6] + f[6..12] + f[12..22] + f[22..28] + f[28..32] + f[32..38] + f[38..42]
  {
    assert f[0..6] + f[6..12] == f[0..12];
    assert f[0..12] + f[12..22] == f[0..22];
    assert f[0..22] + f[22..28] == f[0..28];
    assert f[0..28] + f[28..32] == f[0..32];
    assert f[0..32] + f[32..38] == f[0..38];
    assert f[0..38] + f[38..42] == f;
  }

  // ----- ICMP -----

  /** The header checksum and the ICMP checksum cancel. */
  predicate Checks(f: Frame)
  {
    && IsDatagram(f) && TotalLength(f) >= Ihl(f) + 8
    && Cancels(f[14 + Ihl(f)..14 + TotalLength(f)], 2)
  }

  /** g answers the echo request f: the same frame, turned around, with TTL 255, type 0 and code 0. */
  predicate IsEchoOf(f: Frame, g: Frame, mac: Mac)
    requires IsPing(f)
  {
    var off := 14 + Ihl(f);
    && |g| == |f| && Checks(g)
    && g[0..6] == f[6..12] && g[6..12] == Hw(mac)
    && g[12..22] == f[12..22] && g[22] == 255 && g[23] == 1
    && g[26..30] == f[30..34] && g[30..34] == f[26..30] && g[34..off] == f[34..off]
    && g[off] == 0 && g[off + 1] == 0 && g[off + 4..] == f[off + 4..]
  }

  lemma RepliesAreEchoes(f: Frame, mac: Mac)
    requires IsPing(f) && CarriesIcmp(f)
    ensures IsEchoOf(f, EchoReply(f, mac), mac)
  {
    hide EchoReply, Cancels, ValidIp, ChecksMessage;
    var g := EchoReply(f, mac);
    EchoReplyIsValid(f, mac);
    EchoReplyMirrorsRequest(f, mac);
    AcceptedAreDatagrams(g);
    CheckedMessagesCancel(g);
    HwAt(f, 6);
    HwAt(g, 0);
    HwAt(g, 6);
    QuadAt(f, 26);
    QuadAt(f, 30);
    QuadAt(g, 26);
    QuadAt(g, 30);
    assert Ihl(f) == Ihl(g);
  }

  /** An ICMP error about a datagram: 70 octets, from the address of an interface to the source of the
      datagram, not fragmented, with TTL 255, and with the first 28 octets of the datagram or all. */
  predicate IsError(about: Frame, e: Frame, from: Ip4, kind: byte, code: byte)
    requires IsDatagram(about)
  {
    var n := if TotalLength(about) < 28 then TotalLength(about) else 28;
    && |e| == 70 && Checks(e)
    && e[12..24] == [8, 0, 0x45, 0, 0, 56, 0, 0, 0, 0, 255, 1]
    && e[26..30] == Quad(from) && e[30..34] == about[26..30]
    && e[34] == kind && e[35] == code && e[38..42] == [0, 0, 0, 0]
    && e[42..42 + n] == about[14..14 + n] && forall i :: 42 + n <= i < 70 ==> e[i] == 0
  }

  lemma HeadersOfErrors(f: Frame, iface: Iface)
    requires WellFormed(f)
    ensures ErrorHeaders(f, iface)[12..24] == [8, 0, 0x45, 0, 0, 56, 0, 0, 0, 0, 255, 1]
  {
    hide PutU16, PutMac, PutIp;
    var r := ErrorHeaders(f, iface);
    var z := seq(70, _ => 0 as byte);
    var e := PutMac(PutMac(z, 0, MacAt(f, 6)), 6, iface.mac);
    var e12 := PutU16(e, 12, 0x0800);
    var e16 := PutU16(e12[14 := 0x45][15 := 0], 16, 56);
    var e18 := PutU16(e16, 18, 0);
    var e20 := PutU16(e18, 20, 0);
    PutOctets(e, 12, 8, 0);
    PutOctets(e12[14 := 0x45][15 := 0], 16, 0, 56);
    PutOctets(e16, 18, 0, 0);
    PutOctets(e18, 20, 0, 0);
    assert forall i :: 12 <= i < 22 ==> r[i] == e20[i];
  }

  lemma HeadersStay(about: Frame, iface: Iface, kind: byte, code: byte)
    requires WellFormed(about)
    ensures var e := ErrorFrame(about, iface, kind, code); var h := ErrorHeaders(about, iface);
            e[12..24] == h[12..24] && MacAt(e, 0) == MacAt(about, 6)
  {
    hide ErrorHeaders, Sealed, SealedMessage, UnsealedError;
    assert forall i :: 0 <= i < 24 ==> ErrorFrame(about, iface, kind, code)[i] == ErrorHeaders(about, iface)[i];
  }

  lemma ErrorsAreErrors(about: Frame, iface: Iface, kind: byte, code: byte)
    requires ValidIp(about)
    ensures IsDatagram(about)
    ensures var e := ErrorFrame(about, iface, kind, code);
            && IsError(about, e, iface.ip, kind, code)
            && e[0..6] == about[6..12] && e[6..12] == Hw(iface.mac)
  {
    hide ErrorFrame, ErrorHeaders, Cancels, ValidIp, ChecksMessage;
    AcceptedAreDatagrams(about);
    var e := ErrorFrame(about, iface, kind, code);
    HeadersStay(about, iface, kind, code);
    HeadersOfErrors(about, iface);
    ErrorFrameIsValid(about, iface, kind, code);
    ErrorFrameIsAddressed(about, iface, kind, code);
    ErrorFrameQuotes(about, iface, kind, code);
    AcceptedAreDatagrams(e);
    CheckedMessagesCancel(e);
    HwAt(about, 6);
    HwAt(e, 0);
    HwAt(e, 6);
    QuadAt(about, 26);
    QuadAt(e, 26);
    QuadAt(e, 30);
    assert QuoteLen(about) == if TotalLength(about) < 28 then TotalLength(about) else 28;
    assert e[38..42] == [0, 0, 0, 0];
  }

  // ----- where an error comes from -----

  /** The interface that sent the frame, else the one it was sent to, else the one on the route to its
      source: the first interface with that hardware address, or of that name. */
  ghost predicate IsSource(cfg: Config, about: Frame, from: Iface)
    requires |about| >= 34
  {
    if !Unowned(cfg.ifs, about[6..12]) then Owns(cfg.ifs, about[6..12], from)
    else if !Unowned(cfg.ifs, about[0..6]) then Owns(cfg.ifs, about[0..6], from)
    else Lpm(cfg, IpAt(about, 26)).Some? && Named(cfg.ifs, Lpm(cfg, IpAt(about, 26)).value.iface, from)
  }

  lemma SourcesAreSources(cfg: Config, f: Frame)
    requires |f| >= 34
    ensures var r := IcmpSourceIface(cfg, f, IpAt(f, 26));
            if r.Some? then IsSource(cfg, f, r.value) else forall from :: !IsSource(cfg, f, from)
  {
    HwAt(f, 0);
    HwAt(f, 6);
    FindIfaceByMacIsFirst(cfg.ifs, MacAt(f, 6));
    FindIfaceByMacIsFirst(cfg.ifs, MacAt(f, 0));
    var route := Lpm(cfg, IpAt(f, 26));
    if route.Some? {
      FindIfaceIsFirst(cfg.ifs, route.value.iface);
    }
    hide Hw, FindIface, FindIfaceByMac, Lpm;
  }

  // ----- one hop -----

  /** The same frame with one hop less to live and a new header checksum. */
  predicate OneHopLess(f: Frame, g: Frame)
    requires |f| >= 34
  {
    && |g| == |f| && IsDatagram(g) && g[22] as int == f[22] as int - 1
    && forall i :: 0 <= i < |f| && i != 22 && i != 24 && i != 25 ==> g[i] == f[i]
  }

  lemma DecrementedIsOneHopLess(f: Frame)
    requires ValidIp(f) && f[22] > 0
    ensures OneHopLess(f, DecTtl(f))
  {
    DecTtlIsIncrementalUpdate(f);
    AcceptedAreDatagrams(DecTtl(f));
    hide DecTtl, ValidIp, IsDatagram;
  }
}
