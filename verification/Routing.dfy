/** The interface list and the routing table: the lookups of sr_if.c and sr_router.c. */
module Routing {
  import opened Bytes

  /** Interface names are at most sr_IFACE_NAMELEN characters, so strncmp is equality. */
  datatype Iface = Iface(name: string, mac: Mac, ip: Ip4)

  datatype Route = Route(dest: Ip4, gw: Ip4, mask: Ip4, iface: string)

  datatype Config = Config(ifs: seq<Iface>, table: seq<Route>)

  /** What sr_verify_routing_table returning 0 establishes (sr_main.c:269-303). */
  ghost predicate Consistent(cfg: Config)
  {
    forall r :: r in cfg.table ==> FindIface(cfg.ifs, r.iface).Some?
  }

  // ----- interfaces -----

  /** The first interface of that name. */
  function FindIface(ifs: seq<Iface>, name: string): (r: Option<Iface>)
    ensures r.Some? ==> r.value in ifs && r.value.name == name
    ensures r.None? ==> forall i :: i in ifs ==> i.name != name
  {
    if ifs == [] then None
    else if ifs[0].name == name then Some(ifs[0])
    else FindIface(ifs[1..], name)
  }

  method GetInterface(cfg: Config, name: string) returns (r: Option<Iface>)
    ensures r == FindIface(cfg.ifs, name)
  {
    var i := 0;
    while i < |cfg.ifs|
      invariant 0 <= i <= |cfg.ifs|
      invariant FindIface(cfg.ifs[i..], name) == FindIface(cfg.ifs, name)
    {
      if cfg.ifs[i].name == name {
        return Some(cfg.ifs[i]);
      }
      assert cfg.ifs[i..][1..] == cfg.ifs[i + 1..];
      i := i + 1;
    }
    return None;
  }

  function FindIfaceByMac(ifs: seq<Iface>, mac: Mac): (r: Option<Iface>)
    ensures r.Some? ==> r.value in ifs && r.value.mac == mac
    ensures r.None? ==> forall i :: i in ifs ==> i.mac != mac
  {
    if ifs == [] then None
    else if ifs[0].mac == mac then Some(ifs[0])
    else FindIfaceByMac(ifs[1..], mac)
  }

  method GetInterfaceByMac(cfg: Config, mac: Mac) returns (r: Option<Iface>)
    ensures r == FindIfaceByMac(cfg.ifs, mac)
  {
    var i := 0;
    while i < |cfg.ifs|
      invariant 0 <= i <= |cfg.ifs|
      invariant FindIfaceByMac(cfg.ifs[i..], mac) == FindIfaceByMac(cfg.ifs, mac)
    {
      if cfg.ifs[i].mac == mac {
        return Some(cfg.ifs[i]);
      }
      assert cfg.ifs[i..][1..] == cfg.ifs[i + 1..];
      i := i + 1;
    }
    return None;
  }

  predicate IsRouterIp(cfg: Config, ip: Ip4)
  {
    exists i :: i in cfg.ifs && i.ip == ip
  }

  method CheckRouterIp(cfg: Config, ip: Ip4) returns (r: bool)
    ensures r == IsRouterIp(cfg, ip)
  {
    var i := 0;
    while i < |cfg.ifs|
      invariant 0 <= i <= |cfg.ifs|
      invariant forall k :: 0 <= k < i ==> cfg.ifs[k].ip != ip
    {
      if cfg.ifs[i].ip == ip {
        return true;
      }
      i := i + 1;
    }
    return false;
  }

  // ----- longest-prefix match -----

  /** An address as a number: ntohl of its four bytes. */
  function Value(ip: Ip4): (v: nat)
    ensures v < 0x1_0000_0000
  {
    ip.a as int * 0x100_0000 + ip.b as int * 0x1_0000 + ip.c as int * 0x100 + ip.d as int
  }

  /** The & of C, bit by bit. */
  function BitAnd(x: nat, y: nat): nat
  {
    if x == 0 || y == 0 then 0
    else BitAnd(x / 2, y / 2) * 2 + (if x % 2 == 1 && y % 2 == 1 then 1 else 0)
  }

  function Masked(ip: Ip4, mask: Ip4): nat
  {
    BitAnd(Value(ip), Value(mask))
  }

  predicate Matches(r: Route, ip: Ip4)
  {
    Masked(ip, r.mask) == Masked(r.dest, r.mask)
  }

  /** The loop of sr_find_lpm_route after n entries. Whatever the masks, it holds the earliest of
      the matching entries whose mask is numerically greatest. */
  function BestOf(table: seq<Route>, ip: Ip4, n: nat): (best: Option<nat>)
    requires n <= |table|
    ensures best.None? <==> forall j :: 0 <= j < n ==> !Matches(table[j], ip)
    ensures best.Some? ==> best.value < n && Matches(table[best.value], ip)
    ensures best.Some? ==> forall j :: 0 <= j < n && Matches(table[j], ip) ==>
              Value(table[j].mask) < Value(table[best.value].mask)
              || (Value(table[j].mask) == Value(table[best.value].mask) && best.value <= j)
  {
    if n == 0 then None
    else
      var best := BestOf(table, ip, n - 1);
      if Matches(table[n - 1], ip) && (best.None? || Value(table[n - 1].mask) > Value(table[best.value].mask))
      then Some(n - 1) else best
  }

  function LpmIndex(cfg: Config, ip: Ip4): Option<nat>
  {
    BestOf(cfg.table, ip, |cfg.table|)
  }

  function Lpm(cfg: Config, ip: Ip4): (r: Option<Route>)
    ensures r.Some? ==> r.value in cfg.table
  {
    match LpmIndex(cfg, ip)
    case None => None
    case Some(i) => Some(cfg.table[i])
  }

  /** One turn of the loop: the entry after n replaces the best so far when it matches and either
      nothing has matched yet or its mask is greater. */
  lemma BestOfStep(table: seq<Route>, ip: Ip4, n: nat)
    requires n < |table|
    ensures var best := BestOf(table, ip, n);
            BestOf(table, ip, n + 1) ==
            if Matches(table[n], ip) && (best.None? || Value(table[n].mask) > Value(table[best.value].mask))
            then Some(n) else best
  {
  }

  /** sr_find_lpm_route. */
  method FindLpmRoute(cfg: Config, ip: Ip4) returns (best: Option<Route>)
    ensures best == Lpm(cfg, ip)
  {
    hide BitAnd, Value;
    best := None;
    var bestMask := 0;
    ghost var at: Option<nat> := None;
    var i := 0;
    while i < |cfg.table|
      invariant 0 <= i <= |cfg.table|
      invariant at == BestOf(cfg.table, ip, i)
      invariant at.None? ==> best.None?
      invariant at.Some? ==> at.value < i && best == Some(cfg.table[at.value]) && bestMask == Value(best.value.mask)
    {
      var rt := cfg.table[i];
      BestOfStep(cfg.table, ip, i);
      if Masked(ip, rt.mask) == Masked(rt.dest, rt.mask) {
        if best.None? || Value(rt.mask) > bestMask {
          best, bestMask := Some(rt), Value(rt.mask);
          at := Some(i);
        }
      }
      i := i + 1;
    }
  }

  function Pow2(n: nat): (p: nat)
    ensures p >= 1
  {
    if n == 0 then 1 else 2 * Pow2(n - 1)
  }

  /** A w-bit mask of leading ones followed by zeros. */
  predicate Contiguous(m: nat, w: nat)
  {
    if w == 0 then m == 0 else if m % 2 == 1 then m == Pow2(w) - 1 else Contiguous(m / 2, w - 1)
  }

  /** The number of leading ones of a contiguous w-bit mask. */
  function PrefixLen(m: nat, w: nat): (n: nat)
    requires Contiguous(m, w)
    ensures n <= w
  {
    if w == 0 then 0 else if m % 2 == 1 then w else PrefixLen(m / 2, w - 1)
  }

  /** The first n of the w bits of x and y are equal. */
  predicate Agree(x: nat, y: nat, n: nat, w: nat)
    requires n <= w
  {
    x / Pow2(w - n) == y / Pow2(w - n)
  }

  lemma {:induction false} AndAllOnes(x: nat, w: nat)
    requires x < Pow2(w)
    ensures BitAnd(x, Pow2(w) - 1) == x
  {
    if w > 0 && x > 0 {
      AndAllOnes(x / 2, w - 1);
      assert (Pow2(w) - 1) / 2 == Pow2(w - 1) - 1;
    }
  }

  lemma HalveDivisor(x: nat, p: nat)
    requires p >= 1
    ensures x / (2 * p) == x / 2 / p
  {
    var q, r := x / 2 / p, x / 2 % p;
    assert x / 2 == q * p + r;
    assert x == q * (2 * p) + (2 * r + x % 2);
    assert 2 * r + x % 2 < 2 * p;
    DivUnique(x, 2 * p, q, 2 * r + x % 2);
  }

  lemma MulBounds(k: int, d: nat)
    requires d >= 1
    ensures k >= 1 ==> k * d >= d
    ensures k <= -1 ==> k * d + d <= 0
  {
  }

  lemma DivUnique(x: nat, d: nat, q: nat, r: nat)
    requires d >= 1 && x == q * d + r && r < d
    ensures x / d == q
  {
    assert x == (x / d) * d + x % d;
    assert (x / d - q) * d == r - x % d;
    MulBounds(x / d - q, d);
  }

  lemma MulAssoc(q: nat, p: nat)
    ensures q * p * 2 == q * (2 * p)
  {
  }

  /** A mask of w - z ones clears the low z bits. */
  lemma {:induction false} AndPrefix(x: nat, z: nat, w: nat)
    requires x < Pow2(w) && z <= w
    ensures Pow2(z) <= Pow2(w) && BitAnd(x, Pow2(w) - Pow2(z)) == x / Pow2(z) * Pow2(z)
  {
    if z == 0 {
      AndAllOnes(x, w);
    } else {
      AndPrefix(x / 2, z - 1, w - 1);
      HalveDivisor(x, Pow2(z - 1));
      MulAssoc(x / 2 / Pow2(z - 1), Pow2(z - 1));
      HalvedMask(x, Pow2(w - 1), Pow2(z - 1));
    }
  }

  /** An even mask: the lowest bit is cleared. */
  lemma HalvedMask(x: nat, a: nat, b: nat)
    requires b <= a
    ensures BitAnd(x, 2 * a - 2 * b) == BitAnd(x / 2, a - b) * 2
  {
    assert (2 * a - 2 * b) / 2 == a - b && (2 * a - 2 * b) % 2 == 0;
  }

  /** Comparing under a contiguous mask compares the first PrefixLen bits. */
  lemma {:induction false} MaskedEqualityIsPrefixEquality(x: nat, y: nat, m: nat, w: nat)
    requires x < Pow2(w) && y < Pow2(w) && Contiguous(m, w)
    ensures BitAnd(x, m) == BitAnd(y, m) <==> Agree(x, y, PrefixLen(m, w), w)
  {
    if w > 0 {
      if m % 2 == 1 {
        AndAllOnes(x, w);
        AndAllOnes(y, w);
      } else {
        MaskedEqualityIsPrefixEquality(x / 2, y / 2, m / 2, w - 1);
        var p := Pow2(w - 1 - PrefixLen(m, w));
        HalveDivisor(x, p);
        HalveDivisor(y, p);
      }
    }
  }

  lemma {:induction false} Pow2Splits(n: nat, w: nat)
    requires n <= w
    ensures Pow2(w) == Pow2(n) * Pow2(w - n)
  {
    if n > 0 {
      Pow2Splits(n - 1, w - 1);
    }
  }

  lemma Pow2Of32()
    ensures Pow2(8) == 0x100 && Pow2(16) == 0x1_0000 && Pow2(32) == 0x1_0000_0000
  {
    Pow2Splits(8, 16);
    Pow2Splits(16, 32);
  }

  lemma MatchesByPrefix(r: Route, ip: Ip4, z: nat)
    requires z <= 32 && Value(r.mask) == Pow2(32) - Pow2(z) && Pow2(32) == 0x1_0000_0000
    ensures Matches(r, ip) <==> Value(ip) / Pow2(z) == Value(r.dest) / Pow2(z)
  {
    hide Pow2, BitAnd, Value;
    AndPrefix(Value(ip), z, 32);
    AndPrefix(Value(r.dest), z, 32);
    ScaleBack(Value(ip) / Pow2(z), Value(r.dest) / Pow2(z), Pow2(z));
  }

  lemma ScaleBack(a: nat, b: nat, p: nat)
    requires p >= 1
    ensures a * p == b * p <==> a == b
  {
    MulBounds(a - b, p);
  }

  /** A contiguous mask of n ones has the value 2^w - 2^(w - n). */
  lemma {:induction false} MaskValue(m: nat, w: nat)
    requires Contiguous(m, w)
    ensures m == Pow2(w) - Pow2(w - PrefixLen(m, w))
  {
    if w > 0 && m % 2 == 0 {
      MaskValue(m / 2, w - 1);
    }
  }

  lemma {:induction false} Pow2Increases(a: nat, b: nat)
    requires a < b
    ensures Pow2(a) < Pow2(b)
  {
    if a + 1 < b {
      Pow2Increases(a, b - 1);
    }
  }

  /** Numeric order of contiguous masks is prefix-length order. */
  lemma MaskOrderIsLengthOrder(m: nat, k: nat, w: nat)
    requires Contiguous(m, w) && Contiguous(k, w)
    ensures m < k <==> PrefixLen(m, w) < PrefixLen(k, w)
    ensures m == k <==> PrefixLen(m, w) == PrefixLen(k, w)
  {
    MaskValue(m, w);
    MaskValue(k, w);
    if PrefixLen(m, w) < PrefixLen(k, w) {
      Pow2Increases(w - PrefixLen(k, w), w - PrefixLen(m, w));
    } else if PrefixLen(k, w) < PrefixLen(m, w) {
      Pow2Increases(w - PrefixLen(m, w), w - PrefixLen(k, w));
    }
  }

  predicate ContiguousMask(r: Route)
  {
    Contiguous(Value(r.mask), 32)
  }

  ghost predicate ContiguousTable(table: seq<Route>)
  {
    forall r :: r in table ==> ContiguousMask(r)
  }

  function Length(r: Route): nat
    requires ContiguousMask(r)
  {
    PrefixLen(Value(r.mask), 32)
  }

  /** A route covers an address when the address starts with the route's prefix. */
  predicate Covers(r: Route, ip: Ip4)
    requires ContiguousMask(r)
  {
    Agree(Value(ip), Value(r.dest), Length(r), 32)
  }

  lemma CoversIffMatches(r: Route, ip: Ip4)
    requires ContiguousMask(r)
    ensures Covers(r, ip) <==> Matches(r, ip)
  {
    Pow2Of32();
    MaskedEqualityIsPrefixEquality(Value(ip), Value(r.dest), Value(r.mask), 32);
  }

  /** The longest-match rule of section 5.2.4.3 of RFC 1812, ties going to the earlier entry. */
  ghost predicate LongestMatch(table: seq<Route>, ip: Ip4, i: nat)
    requires ContiguousTable(table)
  {
    && i < |table|
    && Covers(table[i], ip)
    && forall j :: 0 <= j < |table| && Covers(table[j], ip) ==>
         Length(table[j]) < Length(table[i]) || (Length(table[j]) == Length(table[i]) && i <= j)
  }

  /** With contiguous masks the route loop finds the longest match, and finds nothing exactly when
      no entry covers the address. */
  lemma LpmIsLongestMatch(cfg: Config, ip: Ip4)
    requires ContiguousTable(cfg.table)
    ensures forall i: nat :: LpmIndex(cfg, ip) == Some(i) <==> LongestMatch(cfg.table, ip, i)
    ensures LpmIndex(cfg, ip).None? <==> forall r :: r in cfg.table ==> !Covers(r, ip)
  {
    forall r | r in cfg.table
      ensures Covers(r, ip) <==> Matches(r, ip)
    {
      CoversIffMatches(r, ip);
    }
    var best := LpmIndex(cfg, ip);
    if best.Some? {
      var b := cfg.table[best.value];
      forall r | r in cfg.table
        ensures Value(r.mask) < Value(b.mask) <==> Length(r) < Length(b)
        ensures Value(r.mask) == Value(b.mask) <==> Length(r) == Length(b)
      {
        MaskOrderIsLengthOrder(Value(r.mask), Value(b.mask), 32);
      }
      assert LongestMatch(cfg.table, ip, best.value);
    }
  }

  /** No two entries describe the same network. */
  ghost predicate DistinctNetworks(table: seq<Route>)
  {
    forall i, j :: 0 <= i < j < |table| && Value(table[i].mask) == Value(table[j].mask) ==>
      Masked(table[i].dest, table[i].mask) != Masked(table[j].dest, table[j].mask)
  }

  /** The order of a table of distinct networks does not matter, contiguous masks or not. */
  lemma LpmIgnoresOrder(cfg: Config, other: Config, ip: Ip4)
    requires multiset(cfg.table) == multiset(other.table)
    requires DistinctNetworks(cfg.table)
    ensures Lpm(cfg, ip) == Lpm(other, ip)
  {
    SameElements(cfg.table, other.table);
    var x, y := LpmIndex(cfg, ip), LpmIndex(other, ip);
    if x.Some? {
      assert cfg.table[x.value] in other.table;
    }
    if y.Some? {
      assert other.table[y.value] in cfg.table;
    }
    if x.Some? && y.Some? {
      var r := other.table[y.value];
      var j :| 0 <= j < |cfg.table| && cfg.table[j] == r;
      var k :| 0 <= k < |other.table| && other.table[k] == cfg.table[x.value];
      assert Value(r.mask) == Value(cfg.table[x.value].mask);
      assert Masked(ip, r.mask) == Masked(ip, cfg.table[x.value].mask);
    }
  }

  lemma SameElements<T>(s: seq<T>, t: seq<T>)
    requires multiset(s) == multiset(t)
    ensures forall x :: x in s <==> x in t
  {
    forall x ensures x in s <==> x in t {
      assert x in s <==> x in multiset(s);
      assert x in t <==> x in multiset(t);
    }
  }

  // ----- where an ICMP error comes from -----

  function IcmpSourceIface(cfg: Config, f: Frame, src: Ip4): Option<Iface>
    requires |f| >= ETH
  {
    var bySrc := FindIfaceByMac(cfg.ifs, MacAt(f, SHOST));
    var byDst := FindIfaceByMac(cfg.ifs, MacAt(f, DHOST));
    if bySrc.Some? then bySrc
    else if byDst.Some? then byDst
    else
      match Lpm(cfg, src)
      case None => None
      case Some(route) => FindIface(cfg.ifs, route.iface)
  }

  /** sr_find_icmp_source_iface. */
  method FindIcmpSourceIface(cfg: Config, f: Frame, src: Ip4) returns (r: Option<Iface>)
    requires |f| >= ETH
    ensures r == IcmpSourceIface(cfg, f, src)
  {
    r := GetInterfaceByMac(cfg, MacAt(f, SHOST));
    if r.Some? {
      return;
    }
    r := GetInterfaceByMac(cfg, MacAt(f, DHOST));
    if r.Some? {
      return;
    }
    var route := FindLpmRoute(cfg, src);
    if route.None? {
      return None;
    }
    r := GetInterface(cfg, route.value.iface);
  }
}
