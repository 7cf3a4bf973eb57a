/** Frames are byte sequences; multi-byte fields are read and written in network order at the
    offsets that the packed structs of sr_protocol.h give. */
module Bytes {
  type byte = x: int | 0 <= x < 256

  type Frame = seq<byte>

  /** An IPv4 address and a hardware address, in the order of their bytes on the wire. */
  datatype Ip4 = Ip4(a: byte, b: byte, c: byte, d: byte)

  datatype Mac = Mac(m0: byte, m1: byte, m2: byte, m3: byte, m4: byte, m5: byte)

  datatype Option<+T> = None | Some(value: T)

  const ZERO_IP := Ip4(0, 0, 0, 0)
  const ZERO_MAC := Mac(0, 0, 0, 0, 0, 0)
  const BROADCAST := Mac(0xff, 0xff, 0xff, 0xff, 0xff, 0xff)

  // Offsets inside an Ethernet frame that carries IPv4.
  const ETH := 14
  const DHOST := 0
  const SHOST := 6
  const IP_LEN := 16
  const IP_TTL := 22
  const IP_PROTO := 23
  const IP_SUM := 24
  const IP_SRC := 26
  const IP_DST := 30

  function U16(f: Frame, off: nat): (v: nat)
    requires off + 2 <= |f|
  {
    f[off] as int * 256 + f[off + 1] as int
  }

  function IpAt(f: Frame, off: nat): Ip4
    requires off + 4 <= |f|
  {
    Ip4(f[off], f[off + 1], f[off + 2], f[off + 3])
  }

  function MacAt(f: Frame, off: nat): Mac
    requires off + 6 <= |f|
  {
    Mac(f[off], f[off + 1], f[off + 2], f[off + 3], f[off + 4], f[off + 5])
  }

  function PutU16(f: Frame, off: nat, v: nat): (r: Frame)
    requires off + 2 <= |f| && v < 0x1_0000
    ensures |r| == |f| && U16(r, off) == v
    ensures forall i :: 0 <= i < |f| && !(off <= i < off + 2) ==> r[i] == f[i]
  {
    f[off := v / 256][off + 1 := v % 256]
  }

  function PutIp(f: Frame, off: nat, ip: Ip4): (r: Frame)
    requires off + 4 <= |f|
    ensures |r| == |f| && IpAt(r, off) == ip
    ensures forall i :: 0 <= i < |f| && !(off <= i < off + 4) ==> r[i] == f[i]
  {
    f[off := ip.a][off + 1 := ip.b][off + 2 := ip.c][off + 3 := ip.d]
  }

  function PutMac(f: Frame, off: nat, m: Mac): (r: Frame)
    requires off + 6 <= |f|
    ensures |r| == |f| && MacAt(r, off) == m
    ensures forall i :: 0 <= i < |f| && !(off <= i < off + 6) ==> r[i] == f[i]
  {
    f[off := m.m0][off + 1 := m.m1][off + 2 := m.m2][off + 3 := m.m3][off + 4 := m.m4][off + 5 := m.m5]
  }

  method WriteU16(a: array<byte>, off: nat, v: nat)
    requires off + 2 <= a.Length && v < 0x1_0000
    modifies a
    ensures a[..] == PutU16(old(a[..]), off, v)
  {
    a[off], a[off + 1] := v / 256, v % 256;
  }

  method WriteIp(a: array<byte>, off: nat, ip: Ip4)
    requires off + 4 <= a.Length
    modifies a
    ensures a[..] == PutIp(old(a[..]), off, ip)
  {
    a[off], a[off + 1], a[off + 2], a[off + 3] := ip.a, ip.b, ip.c, ip.d;
  }

  method WriteMac(a: array<byte>, off: nat, m: Mac)
    requires off + 6 <= a.Length
    modifies a
    ensures a[..] == PutMac(old(a[..]), off, m)
  {
    a[off], a[off + 1], a[off + 2] := m.m0, m.m1, m.m2;
    a[off + 3], a[off + 4], a[off + 5] := m.m3, m.m4, m.m5;
  }

  /** memcpy of a whole buffer into a fresh one. */
  method Copy(src: array<byte>) returns (dst: array<byte>)
    ensures fresh(dst) && dst[..] == src[..]
  {
    dst := new byte[src.Length](i requires 0 <= i < src.Length reads src => src[i]);
    assert dst[..] == src[..];
  }
}
