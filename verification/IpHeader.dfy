/** The IPv4 header checks and rewrites of sr_router.c, on the frame that carries the header. */
module IpHeader {
  import opened Bytes
  import opened Checksum

  function HeaderLen(f: Frame): nat
    requires |f| > ETH
  {
    f[ETH] % 16 * 4
  }

  /** The bounds that sr_valid_ip_packet tests before it looks at the checksum. */
  predicate WellFormed(f: Frame)
  {
    && |f| >= ETH + 20
    && f[ETH] / 16 == 4
    && HeaderLen(f) >= 20
    && |f| >= ETH + HeaderLen(f)
    && U16(f, IP_LEN) >= HeaderLen(f)
    && |f| >= ETH + U16(f, IP_LEN)
  }

  function Header(f: Frame): (h: seq<byte>)
    requires WellFormed(f)
  {
    f[ETH..ETH + HeaderLen(f)]
  }

  /** The header as cksum sees it, its checksum field zeroed. */
  function Summed(f: Frame): (h: seq<byte>)
    requires WellFormed(f)
  {
    Header(PutU16(f, IP_SUM, 0))
  }

  /** f with its header checksum computed over the header with a zero checksum field. */
  function Sealed(f: Frame): (r: Frame)
    requires WellFormed(f)
    ensures WellFormed(r) && |r| == |f| && HeaderLen(r) == HeaderLen(f)
    ensures forall i :: 0 <= i < |f| && !(IP_SUM <= i < IP_SUM + 2) ==> r[i] == f[i]
  {
    PutU16(f, IP_SUM, Cksum(Summed(f)))
  }

  /** sr_valid_ip_packet: the stored checksum is the one that the router would store. */
  predicate ValidIp(f: Frame)
  {
    WellFormed(f) && U16(f, IP_SUM) == Cksum(Summed(f))
  }

  lemma HeaderTotal(f: Frame, v: nat)
    requires WellFormed(f) && v < WORD
    ensures WellFormed(PutU16(f, IP_SUM, v))
    ensures Total(Header(PutU16(f, IP_SUM, v))) == Total(Header(f)) - U16(f, IP_SUM) + v < ACC
  {
    hide Total;
    var g := PutU16(f, IP_SUM, v);
    HeaderPut(f, v);
    TotalUpdate(Header(f), IP_SUM - ETH, v);
    hide PutU16;
    AccumulatorNeverOverflows(Header(g));
  }

  lemma HeaderPut(f: Frame, v: nat)
    requires WellFormed(f) && v < WORD
    ensures WellFormed(PutU16(f, IP_SUM, v))
    ensures Header(PutU16(f, IP_SUM, v)) == PutU16(Header(f), IP_SUM - ETH, v)
    ensures U16(Header(f), IP_SUM - ETH) == U16(f, IP_SUM)
  {
  }

  /** sr_valid_ip_packet accepts exactly the well-formed frames whose header, checksum field
      included, sums to zero modulo 65535 and whose checksum field is not 0x0000. */
  lemma ValidIffSumsToZero(f: Frame)
    ensures ValidIp(f) <==> WellFormed(f) && U16(f, IP_SUM) != 0 && Total(Header(f)) % 0xffff == 0
  {
    if WellFormed(f) {
      HeaderTotal(f, 0);
      CksumCancels(Summed(f), U16(f, IP_SUM));
    }
  }

  /** A header of three non-zero words that sum to 0xffff, its checksum field zero. */
  function ZeroField(): (f: Frame)
    ensures |f| == ETH + 20
  {
    seq(ETH, _ => 0 as byte) + [0x45, 0, 0, 20, 0xba, 0xeb] + seq(14, _ => 0 as byte)
  }

  lemma {:induction false} TotalOfZeros(s: seq<byte>)
    requires forall i :: 0 <= i < |s| ==> s[i] == 0
    ensures Total(s) == 0
  {
    if |s| >= 2 {
      TotalOfZeros(s[2..]);
    }
  }

  /** The exception for 0x0000 is not empty: this well-formed frame sums to zero and is refused. */
  lemma ZeroFieldIsRefused()
    ensures var f := ZeroField();
            WellFormed(f) && U16(f, IP_SUM) == 0 && Total(Header(f)) % 0xffff == 0 && !ValidIp(f)
  {
    ZeroFieldTotal();
    hide Total, Cksum;
    assert Header(ZeroField()) == ZeroField()[ETH..];
    ValidIffSumsToZero(ZeroField());
  }

  lemma ZeroFieldTotal()
    ensures Total(ZeroField()[ETH..]) == 0xffff
  {
    var rest := seq(14, _ => 0 as byte);
    TotalOfZeros(rest);
    hide Total;
    TotalCons(0xba, 0xeb, rest);
    TotalCons(0, 20, [0xba, 0xeb] + rest);
    TotalCons(0x45, 0, [0, 20] + ([0xba, 0xeb] + rest));
    assert ZeroField()[ETH..] == [0x45, 0] + ([0, 20] + ([0xba, 0xeb] + rest));
  }

  lemma TotalCons(hi: byte, lo: byte, rest: seq<byte>)
    ensures Total([hi, lo] + rest) == Pair(hi, lo) + Total(rest)
  {
    assert ([hi, lo] + rest)[2..] == rest;
  }

  lemma SealedIsValid(f: Frame)
    requires WellFormed(f)
    ensures ValidIp(Sealed(f))
  {
    assert PutU16(Sealed(f), IP_SUM, 0) == PutU16(f, IP_SUM, 0);
  }

  /** Validity depends on nothing outside the datagram and a frame that is long enough. */
  lemma ValidityIgnoresEthernet(f: Frame, g: Frame)
    requires |f| == |g| && |f| >= ETH && f[ETH..] == g[ETH..]
    ensures ValidIp(f) <==> ValidIp(g)
  {
    assert forall i :: ETH <= i < |f| ==> f[i] == f[ETH..][i - ETH] == g[i];
    if WellFormed(f) {
      assert Summed(f) == Summed(g);
    }
  }

  /** The TTL decrement and checksum recomputation of sr_handle_ip. */
  function DecTtl(f: Frame): (r: Frame)
    requires WellFormed(f) && f[IP_TTL] > 0
    ensures WellFormed(r) && |r| == |f| && r[IP_TTL] == f[IP_TTL] - 1
    ensures forall i :: 0 <= i < |f| && i != IP_TTL && !(IP_SUM <= i < IP_SUM + 2) ==> r[i] == f[i]
  {
    Sealed(f[IP_TTL := f[IP_TTL] - 1])
  }

  lemma DecTtlTotal(f: Frame)
    requires WellFormed(f) && f[IP_TTL] > 0
    ensures var g := f[IP_TTL := f[IP_TTL] - 1];
            WellFormed(g) && Total(Summed(g)) == Total(Summed(f)) - 0x0100
  {
    var g := f[IP_TTL := f[IP_TTL] - 1];
    var z := PutU16(f, IP_SUM, 0);
    var v := U16(f, IP_TTL) - 0x0100;
    assert U16(Header(z), 8) == U16(f, IP_TTL);
    assert Summed(g) == PutU16(Header(z), 8, v);
    TotalUpdate(Header(z), 8, v);
  }

  /** Decrementing the TTL keeps a frame valid, and the recomputed checksum is the incremental
      update of section 3 of RFC 1624: the old one plus 0x0100 with end-around carry. */
  lemma DecTtlIsIncrementalUpdate(f: Frame)
    requires ValidIp(f) && f[IP_TTL] > 0
    ensures ValidIp(DecTtl(f))
    ensures U16(DecTtl(f), IP_SUM) == OnesAdd(U16(f, IP_SUM), 0x0100) >= 1
  {
    var g := f[IP_TTL := f[IP_TTL] - 1];
    SealedIsValid(g);
    DecTtlTotal(f);
    HeaderTotal(f, 0);
    IncrementalCksum(Summed(f), Summed(g));
  }

  lemma IncrementalCksum(before: seq<byte>, after: seq<byte>)
    requires 0x0100 <= Total(before) < ACC && Total(after) == Total(before) - 0x0100
    ensures Cksum(after) == OnesAdd(Cksum(before), 0x0100) >= 1
  {
    var c, t := Cksum(before), Total(before);
    CksumCancels(before, c);
    CarriedUpdateCancels(c, t);
    CksumCancels(after, OnesAdd(c, 0x0100));
  }

  lemma CarriedUpdateCancels(c: nat, t: nat)
    requires 1 <= c <= 0xffff && t >= 0x0100 && (c + t) % 0xffff == 0
    ensures (OnesAdd(c, 0x0100) + (t - 0x0100)) % 0xffff == 0
  {
    AddCongruent(t - 0x0100, OnesAdd(c, 0x0100), c + 0x0100);
  }

  /** sr_valid_ip_packet: it zeroes the checksum field of the caller's buffer and restores it. */
  method ValidIpPacket(packet: array<byte>) returns (ok: bool)
    modifies packet
    ensures packet[..] == old(packet[..])
    ensures ok == ValidIp(packet[..])
  {
    ghost var f := packet[..];
    if packet.Length < ETH + 20 {
      return false;
    }
    var headerLen: nat := packet[ETH] % 16 * 4;
    var total: nat := packet[IP_LEN] as int * 256 + packet[IP_LEN + 1] as int;
    if packet[ETH] / 16 != 4 || headerLen < 20 || packet.Length < ETH + headerLen
       || total < headerLen || packet.Length < ETH + total {
      return false;
    }
    var hi, lo := packet[IP_SUM], packet[IP_SUM + 1];
    WriteU16(packet, IP_SUM, 0);
    var computed := ComputeCksum(packet, ETH, headerLen);
    assert computed == Cksum(Summed(f));
    packet[IP_SUM], packet[IP_SUM + 1] := hi, lo;
    assert packet[..] == f;
    ok := Pair(hi, lo) == computed;
  }

  /** The two assignments to ip_sum that end every header rewrite. */
  method SealHeader(packet: array<byte>)
    requires WellFormed(packet[..])
    modifies packet
    ensures packet[..] == Sealed(old(packet[..]))
  {
    ghost var f := packet[..];
    var headerLen: nat := packet[ETH] % 16 * 4;
    WriteU16(packet, IP_SUM, 0);
    var c := ComputeCksum(packet, ETH, headerLen);
    assert c == Cksum(Summed(f));
    WriteU16(packet, IP_SUM, c);
    assert packet[..] == Sealed(f);
  }

  /** sr_handle_ip's in-place decrement. */
  method DecrementTtl(packet: array<byte>)
    requires WellFormed(packet[..]) && packet[IP_TTL] > 0
    modifies packet
    ensures packet[..] == DecTtl(old(packet[..]))
  {
    ghost var f := packet[..];
    packet[IP_TTL] := packet[IP_TTL] - 1;
    assert packet[..] == f[IP_TTL := f[IP_TTL] - 1];
    SealHeader(packet);
  }
}
