/** The ICMP messages that sr_router.c builds: echo replies and errors. */
module Icmp {
  import opened Bytes
  import opened Checksum
  import opened IpHeader
  import opened Routing

  const INIT_TTL: byte := 255
  const ICMP_DATA_SIZE := 28
  /** Ethernet header, option-free IP header and the 36 bytes of an ICMP error. */
  const ERROR_LEN := 70
  const PROTO_ICMP: byte := 1
  const PROTO_TCP: byte := 6
  const PROTO_UDP: byte := 17

  predicate CarriesIcmp(f: Frame)
  {
    WellFormed(f) && U16(f, IP_LEN) >= HeaderLen(f) + 8
  }

  function IcmpOff(f: Frame): (off: nat)
    requires CarriesIcmp(f)
    ensures ETH + 20 <= off && off + 8 <= |f|
  {
    ETH + HeaderLen(f)
  }

  /** The ICMP message: what the IP length leaves after the IP header. */
  function Message(f: Frame): (m: seq<byte>)
    requires CarriesIcmp(f)
  {
    f[IcmpOff(f)..ETH + U16(f, IP_LEN)]
  }

  /** The message as cksum sees it, its checksum field zeroed. */
  function SummedMessage(f: Frame): (m: seq<byte>)
    requires CarriesIcmp(f)
  {
    Message(PutU16(f, IcmpOff(f) + 2, 0))
  }

  function SealedMessage(f: Frame): (r: Frame)
    requires CarriesIcmp(f)
    ensures CarriesIcmp(r) && |r| == |f| && IcmpOff(r) == IcmpOff(f)
    ensures forall i :: 0 <= i < |f| && !(IcmpOff(f) + 2 <= i < IcmpOff(f) + 4) ==> r[i] == f[i]
  {
    PutU16(f, IcmpOff(f) + 2, Cksum(SummedMessage(f)))
  }

  /** The checksum test that sr_handle_ip applies to an echo request. */
  predicate ChecksMessage(f: Frame)
    requires CarriesIcmp(f)
  {
    U16(f, IcmpOff(f) + 2) == Cksum(SummedMessage(f))
  }

  lemma SealedMessageChecks(f: Frame)
    requires CarriesIcmp(f)
    ensures ChecksMessage(SealedMessage(f))
  {
    var off := IcmpOff(f);
    assert PutU16(SealedMessage(f), off + 2, 0) == PutU16(f, off + 2, 0);
  }

  // ----- echo reply -----

  function Readdressed(f: Frame, mac: Mac): (r: Frame)
    requires WellFormed(f)
    ensures WellFormed(r) && |r| == |f| && HeaderLen(r) == HeaderLen(f)
    ensures MacAt(r, DHOST) == MacAt(f, SHOST) && MacAt(r, SHOST) == mac
    ensures IpAt(r, IP_SRC) == IpAt(f, IP_DST) && IpAt(r, IP_DST) == IpAt(f, IP_SRC)
    ensures r[IP_TTL] == INIT_TTL
    ensures forall i :: 12 <= i < |f| && i != IP_TTL && !(IP_SRC <= i < IP_SRC + 8) ==> r[i] == f[i]
  {
    var e := PutMac(PutMac(f, DHOST, MacAt(f, SHOST)), SHOST, mac);
    PutIp(PutIp(e, IP_SRC, IpAt(f, IP_DST)), IP_DST, IpAt(f, IP_SRC))[IP_TTL := INIT_TTL]
  }

  function TurnedAround(f: Frame, mac: Mac): (r: Frame)
    requires CarriesIcmp(f)
    ensures CarriesIcmp(r) && |r| == |f| && IcmpOff(r) == IcmpOff(f)
    ensures r[IcmpOff(f)] == 0 && r[IcmpOff(f) + 1] == 0
    ensures forall i :: 0 <= i < |f| && !(IcmpOff(f) <= i < IcmpOff(f) + 2) ==> r[i] == Sealed(Readdressed(f, mac))[i]
  {
    Sealed(Readdressed(f, mac))[IcmpOff(f) := 0][IcmpOff(f) + 1 := 0]
  }

  function EchoReply(f: Frame, mac: Mac): (r: Frame)
    requires CarriesIcmp(f)
    ensures CarriesIcmp(r) && |r| == |f|
  {
    SealedMessage(TurnedAround(f, mac))
  }

  /** Validity is a matter of the IP header and the lengths. */
  lemma MessageKeepsHeader(h: Frame, r: Frame)
    requires CarriesIcmp(h) && |r| == |h| && forall i :: 0 <= i < IcmpOff(h) ==> r[i] == h[i]
    ensures CarriesIcmp(r) && IcmpOff(r) == IcmpOff(h) && (ValidIp(r) <==> ValidIp(h))
  {
    assert WellFormed(r);
    assert Summed(r) == Summed(h);
  }

  /** An echo reply is valid, passes the ICMP checksum test, and is an echo reply. */
  lemma EchoReplyIsValid(f: Frame, mac: Mac)
    requires CarriesIcmp(f)
    ensures var r := EchoReply(f, mac);
            ValidIp(r) && ChecksMessage(r) && IcmpOff(r) == IcmpOff(f) && r[IcmpOff(r)] == 0 && r[IcmpOff(r) + 1] == 0
  {
    hide Readdressed, Sealed, SealedMessage, TurnedAround, ValidIp, ChecksMessage;
    var a := Readdressed(f, mac);
    SealedIsValid(a);
    var m := TurnedAround(f, mac);
    SealedMessageChecks(m);
    MessageKeepsHeader(Sealed(a), m);
    MessageKeepsHeader(m, SealedMessage(m));
  }

  /** An echo reply goes back where the request came from and keeps everything else: in particular
      the identifier, the sequence number and the payload behind the ICMP checksum. */
  lemma EchoReplyMirrorsRequest(f: Frame, mac: Mac)
    requires CarriesIcmp(f)
    ensures var r := EchoReply(f, mac); var off := IcmpOff(f);
            && r[off + 4..] == f[off + 4..]
            && IpAt(r, IP_SRC) == IpAt(f, IP_DST) && IpAt(r, IP_DST) == IpAt(f, IP_SRC)
            && MacAt(r, DHOST) == MacAt(f, SHOST) && MacAt(r, SHOST) == mac
            && r[IP_TTL] == INIT_TTL
            && forall i :: 12 <= i < off && i != IP_TTL && !(IP_SUM <= i < IP_DST + 4) ==> r[i] == f[i]
  {
    hide Readdressed, Sealed, SealedMessage, TurnedAround;
    var a := Readdressed(f, mac);
    var off := IcmpOff(f);
    var r := EchoReply(f, mac);
    assert forall i :: 0 <= i < |f| && !(off <= i < off + 4) && !(IP_SUM <= i < IP_SUM + 2) ==> r[i] == a[i];
  }

  /** sr_send_icmp_echo_reply, up to the send. */
  method BuildEchoReply(packet: array<byte>, mac: Mac) returns (reply: array<byte>)
    requires CarriesIcmp(packet[..])
    ensures fresh(reply) && reply[..] == EchoReply(packet[..], mac)
  {
    hide Readdressed, Sealed, SealedMessage;
    reply := Copy(packet);
    Readdress(reply, mac);
    SealHeader(reply);
    ghost var h := reply[..];
    var off := ETH + reply[ETH] % 16 * 4;
    reply[off], reply[off + 1] := 0, 0;
    assert reply[..] == h[off := 0][off + 1 := 0] == TurnedAround(packet[..], mac);
    SealMessage(reply);
  }

  /** The new addresses and TTL of an echo reply. */
  method Readdress(reply: array<byte>, mac: Mac)
    requires WellFormed(reply[..])
    modifies reply
    ensures reply[..] == Readdressed(old(reply[..]), mac)
  {
    WriteMac(reply, DHOST, Mac(reply[6], reply[7], reply[8], reply[9], reply[10], reply[11]));
    WriteMac(reply, SHOST, mac);
    var oldSrc := Ip4(reply[26], reply[27], reply[28], reply[29]);
    WriteIp(reply, IP_SRC, Ip4(reply[30], reply[31], reply[32], reply[33]));
    WriteIp(reply, IP_DST, oldSrc);
    ghost var p := reply[..];
    reply[IP_TTL] := INIT_TTL;
    assert reply[..] == p[IP_TTL := INIT_TTL];
  }

  /** The two assignments to icmp_sum that end a message. */
  method SealMessage(reply: array<byte>)
    requires CarriesIcmp(reply[..])
    modifies reply
    ensures reply[..] == SealedMessage(old(reply[..]))
  {
    ghost var m := reply[..];
    var headerLen: nat := reply[ETH] % 16 * 4;
    var messageLen: nat := reply[IP_LEN] as int * 256 + reply[IP_LEN + 1] as int - headerLen;
    var off := ETH + headerLen;
    WriteU16(reply, off + 2, 0);
    var c := ComputeCksum(reply, off, messageLen);
    assert c == Cksum(SummedMessage(m));
    WriteU16(reply, off + 2, c);
    assert reply[..] == SealedMessage(m);
  }

  /** sr_handle_ip's checksum test: the field is zeroed for the computation and restored. */
  method CheckMessage(packet: array<byte>) returns (ok: bool)
    requires CarriesIcmp(packet[..])
    modifies packet
    ensures packet[..] == old(packet[..])
    ensures ok == ChecksMessage(packet[..])
  {
    ghost var f := packet[..];
    var headerLen: nat := packet[ETH] % 16 * 4;
    var messageLen: nat := packet[IP_LEN] as int * 256 + packet[IP_LEN + 1] as int - headerLen;
    var off := ETH + headerLen;
    var hi, lo := packet[off + 2], packet[off + 3];
    WriteU16(packet, off + 2, 0);
    var c := ComputeCksum(packet, off, messageLen);
    assert c == Cksum(SummedMessage(f));
    packet[off + 2], packet[off + 3] := hi, lo;
    assert packet[..] == f;
    ok := Pair(hi, lo) == c;
  }

  // ----- errors -----

  /** The Ethernet and IP headers of an error about f, over zeroed memory. */
  function ErrorHeaders(f: Frame, iface: Iface): (r: Frame)
    requires |f| >= ETH + 20
    ensures WellFormed(r) && |r| == ERROR_LEN && HeaderLen(r) == 20 && U16(r, IP_LEN) == 56
    ensures MacAt(r, DHOST) == MacAt(f, SHOST) && MacAt(r, SHOST) == iface.mac && U16(r, 12) == 0x0800
    ensures IpAt(r, IP_SRC) == iface.ip && IpAt(r, IP_DST) == IpAt(f, IP_SRC)
    ensures r[IP_TTL] == INIT_TTL && r[IP_PROTO] == PROTO_ICMP
    ensures forall i :: 34 <= i < ERROR_LEN ==> r[i] == 0
  {
    var z := seq(ERROR_LEN, _ => 0 as byte);
    var e := PutU16(PutMac(PutMac(z, DHOST, MacAt(f, SHOST)), SHOST, iface.mac), 12, 0x0800);
    var h := PutU16(e[ETH := 0x45][ETH + 1 := 0], IP_LEN, 56);
    var p := PutU16(PutU16(h, 18, 0), 20, 0)[IP_TTL := INIT_TTL][IP_PROTO := PROTO_ICMP];
    PutIp(PutIp(p, IP_SRC, iface.ip), IP_DST, IpAt(f, IP_SRC))
  }

  /** How much of the offending datagram is quoted. */
  function QuoteLen(f: Frame): (n: nat)
    requires WellFormed(f)
    ensures ETH + n <= |f|
  {
    if U16(f, IP_LEN) < ICMP_DATA_SIZE then U16(f, IP_LEN) else ICMP_DATA_SIZE
  }

  function WithMessage(h: Frame, f: Frame, kind: byte, code: byte): (r: Frame)
    requires |h| == ERROR_LEN && WellFormed(f)
    ensures |r| == ERROR_LEN && r[34] == kind && r[35] == code && r[42..42 + QuoteLen(f)] == f[ETH..ETH + QuoteLen(f)]
    ensures forall i :: 0 <= i < ERROR_LEN && !(34 <= i < 36 || 42 <= i < 42 + QuoteLen(f)) ==> r[i] == h[i]
  {
    var n := QuoteLen(f);
    h[..34] + [kind, code] + h[36..42] + f[ETH..ETH + n] + h[42 + n..]
  }

  function UnsealedError(f: Frame, iface: Iface, kind: byte, code: byte): (r: Frame)
    requires WellFormed(f)
    ensures CarriesIcmp(r) && |r| == ERROR_LEN && IcmpOff(r) == 34 && U16(r, IP_LEN) == 56
    ensures forall i :: 0 <= i < 34 ==> r[i] == Sealed(ErrorHeaders(f, iface))[i]
    ensures r[34] == kind && r[35] == code && r[42..42 + QuoteLen(f)] == f[ETH..ETH + QuoteLen(f)]
    ensures forall i :: 36 <= i < ERROR_LEN && !(42 <= i < 42 + QuoteLen(f)) ==> r[i] == 0
  {
    WithMessage(Sealed(ErrorHeaders(f, iface)), f, kind, code)
  }

  function ErrorFrame(f: Frame, iface: Iface, kind: byte, code: byte): (r: Frame)
    requires WellFormed(f)
    ensures CarriesIcmp(r) && |r| == ERROR_LEN
  {
    SealedMessage(UnsealedError(f, iface, kind, code))
  }

  /** An ICMP error is a valid frame of the chosen interface and passes the ICMP checksum test. */
  lemma ErrorFrameIsValid(f: Frame, iface: Iface, kind: byte, code: byte)
    requires WellFormed(f)
    ensures var r := ErrorFrame(f, iface, kind, code);
            ValidIp(r) && ChecksMessage(r) && IcmpOff(r) == 34 && MacAt(r, SHOST) == iface.mac
  {
    var a := ErrorHeaders(f, iface);
    SealedIsValid(a);
    var m := UnsealedError(f, iface, kind, code);
    assert IcmpOff(Sealed(a)) == 34;
    MessageKeepsHeader(Sealed(a), m);
    MessageKeepsHeader(m, SealedMessage(m));
    SealedMessageChecks(m);
  }

  /** An ICMP error goes from the chosen interface to the source of the offending datagram. */
  lemma ErrorFrameIsAddressed(f: Frame, iface: Iface, kind: byte, code: byte)
    requires WellFormed(f)
    ensures var r := ErrorFrame(f, iface, kind, code);
            && IpAt(r, IP_SRC) == iface.ip && IpAt(r, IP_DST) == IpAt(f, IP_SRC)
            && r[IP_TTL] == INIT_TTL && r[IP_PROTO] == PROTO_ICMP && U16(r, IP_LEN) == 56
  {
    var a := ErrorHeaders(f, iface);
    var r := ErrorFrame(f, iface, kind, code);
    assert forall i :: 0 <= i < 34 && !(IP_SUM <= i < IP_SUM + 2) ==> r[i] == a[i];
  }

  /** It carries its type and code and quotes exactly the first min(28, length) bytes of the
      offending datagram, zeros behind them. */
  lemma ErrorFrameQuotes(f: Frame, iface: Iface, kind: byte, code: byte)
    requires WellFormed(f)
    ensures var r := ErrorFrame(f, iface, kind, code); var n := QuoteLen(f);
            && r[34] == kind && r[35] == code
            && (forall i :: 38 <= i < 42 ==> r[i] == 0)
            && r[42..42 + n] == f[ETH..ETH + n]
            && (forall i :: 42 + n <= i < ERROR_LEN ==> r[i] == 0)
  {
    SealingKeepsRest(UnsealedError(f, iface, kind, code), QuoteLen(f));
  }

  lemma SealingKeepsRest(m: Frame, n: nat)
    requires CarriesIcmp(m) && |m| == ERROR_LEN && IcmpOff(m) == 34 && n <= ICMP_DATA_SIZE
    ensures SealedMessage(m)[42..42 + n] == m[42..42 + n]
    ensures forall i :: 0 <= i < ERROR_LEN && !(36 <= i < 38) ==> SealedMessage(m)[i] == m[i]
  {
  }

  /** The error that sr_send_icmp_error builds about f, if it gets past its guards. */
  function ErrorAbout(cfg: Config, f: Frame, kind: byte, code: byte): (r: Option<Frame>)
    ensures r.Some? ==> |r.value| == ERROR_LEN
  {
    if !ValidIp(f) then None
    else
      match IcmpSourceIface(cfg, f, IpAt(f, IP_SRC))
      case None => None
      case Some(iface) => Some(ErrorFrame(f, iface, kind, code))
  }

  /** sr_send_icmp_error, up to routing the result. */
  method BuildIcmpError(cfg: Config, packet: array<byte>, kind: byte, code: byte) returns (reply: array?<byte>)
    modifies packet
    ensures packet[..] == old(packet[..])
    ensures reply == null <==> ErrorAbout(cfg, packet[..], kind, code).None?
    ensures reply != null ==> fresh(reply) && Some(reply[..]) == ErrorAbout(cfg, packet[..], kind, code)
  {
    reply := null;
    ghost var f := packet[..];
    var ok := ValidIpPacket(packet);
    if !ok {
      return;
    }
    var outIface := FindIcmpSourceIface(cfg, packet[..], Ip4(packet[26], packet[27], packet[28], packet[29]));
    if outIface.None? {
      return;
    }
    var iface := outIface.value;
    var oldLen: nat := packet[IP_LEN] as int * 256 + packet[IP_LEN + 1] as int;
    var r := new byte[ERROR_LEN](_ => 0);
    assert r[..] == seq(ERROR_LEN, _ => 0 as byte);
    FillErrorHeaders(r, packet, iface);
    ghost var h := r[..];
    FillErrorMessage(r, packet, if oldLen < ICMP_DATA_SIZE then oldLen else ICMP_DATA_SIZE, kind, code);
    reply := r;
  }

  method FillErrorHeaders(r: array<byte>, packet: array<byte>, iface: Iface)
    requires r != packet && WellFormed(packet[..])
    requires r[..] == seq(ERROR_LEN, _ => 0 as byte)
    modifies r
    ensures r.Length == ERROR_LEN && r[..] == Sealed(ErrorHeaders(packet[..], iface))
  {
    WriteMac(r, DHOST, Mac(packet[6], packet[7], packet[8], packet[9], packet[10], packet[11]));
    WriteMac(r, SHOST, iface.mac);
    WriteU16(r, 12, 0x0800);
    r[ETH] := 0x45;
    r[ETH + 1] := 0;
    WriteU16(r, IP_LEN, 56);
    WriteU16(r, 18, 0);
    WriteU16(r, 20, 0);
    r[IP_TTL] := INIT_TTL;
    r[IP_PROTO] := PROTO_ICMP;
    WriteIp(r, IP_SRC, iface.ip);
    WriteIp(r, IP_DST, Ip4(packet[26], packet[27], packet[28], packet[29]));
    assert r[..] == ErrorHeaders(packet[..], iface);
    SealHeader(r);
  }

  method FillErrorMessage(r: array<byte>, packet: array<byte>, n: nat, kind: byte, code: byte)
    requires r != packet && WellFormed(packet[..]) && n == QuoteLen(packet[..])
    requires r.Length == ERROR_LEN && WellFormed(r[..]) && HeaderLen(r[..]) == 20 && U16(r[..], IP_LEN) == 56
    requires forall i :: 34 <= i < ERROR_LEN ==> r[i] == 0
    modifies r
    ensures r[..] == SealedMessage(WithMessage(old(r[..]), packet[..], kind, code))
  {
    ghost var h := r[..];
    r[34] := kind;
    r[35] := code;
    for k := 0 to n
      invariant r[34] == kind && r[35] == code
      invariant forall i :: 42 <= i < 42 + k ==> r[i] == packet[i - 28]
      invariant forall i :: 0 <= i < ERROR_LEN && !(34 <= i < 36 || 42 <= i < 42 + k) ==> r[i] == h[i]
    {
      r[42 + k] := packet[ETH + k];
    }
    ghost var m := WithMessage(h, packet[..], kind, code);
    assert forall i :: 42 <= i < 42 + n ==> m[i] == m[42..42 + n][i - 42];
    assert forall i :: 42 <= i < 42 + n ==> m[i] == packet[..][ETH..ETH + n][i - 42] == packet[i - 28];
    assert forall i :: 0 <= i < ERROR_LEN ==> r[i] == m[i];
    assert r[..] == m;
    SealMessage(r);
  }
}
