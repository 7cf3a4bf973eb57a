/** A network whose routers all run this code, with whatever tables. */
module Network {
  import opened Bytes
  import opened IpHeader
  import opened Routing
  import opened ArpState
  import opened History
  import opened Invariants
  import opened System
  import opened Theorems
  import opened Provenance

  /** One router's part in a journey: in that run of that router, the event at that place of the
      log is the departure of a forwarded frame. */
  datatype Hop = Hop(cfg: Config, run: seq<Action>, at: nat)

  /** The router took f off the wire and, at once or after a wait in its queue, sent g. */
  predicate Forwards(h: Hop, f: Frame, g: Frame)
  {
    var log := Run(h.cfg, h.run).shared.log;
    h.at < |log| && log[h.at].Delivered? && log[h.at].pkt.origin == Forwarded(f) && log[h.at].frame == g
  }

  /** The same datagram but for the TTL and the header checksum. */
  ghost predicate SameButTtl(f: Frame, g: Frame)
  {
    |f| == |g| && forall i :: ETH <= i < |f| && i != IP_TTL && !(IP_SUM <= i < IP_SUM + 2) ==> f[i] == g[i]
  }

  lemma SameDatagramBytes(f: Frame, g: Frame)
    requires SameDatagram(f, g)
    ensures forall i :: 12 <= i < |f| ==> f[i] == g[i]
    ensures f[ETH..] == g[ETH..]
  {
    assert forall i :: 12 <= i < |f| ==> f[i] == f[12..][i - 12] == g[12..][i - 12] == g[i];
  }

  /** While a forwarded frame waits for an ARP reply it is the received datagram with one hop less to
      live, and valid. */
  lemma WaitingForwardedFrame(cfg: Config, run: seq<Action>, i: nat, p: Packet)
    requires i < |Run(cfg, run).shared.requests| && p in Run(cfg, run).shared.requests[i].packets
    requires p.origin.Forwarded?
    ensures var f := p.origin.received;
            ValidIp(f) && ValidIp(p.buf) && SameButTtl(f, p.buf) && 1 <= p.buf[IP_TTL] < f[IP_TTL] == p.buf[IP_TTL] + 1
  {
    hide Run, NextHop, Sendable;
    WaitingFramesAreGood(cfg, run, i, p);
    OneHop(cfg, p.origin.received, p.buf);
  }

  lemma OneHop(cfg: Config, f: Frame, g: Frame)
    requires ValidIp(f) && f[IP_TTL] > 1 && SameDatagram(g, DecTtl(f))
    ensures ValidIp(g) && SameButTtl(f, g) && g[IP_TTL] == f[IP_TTL] - 1
  {
    DecTtlIsIncrementalUpdate(f);
    hide DecTtl;
    SameDatagramBytes(g, DecTtl(f));
    ValidityIgnoresEthernet(g, DecTtl(f));
  }

  lemma ForwardingIsOneHop(h: Hop, f: Frame, g: Frame)
    requires Forwards(h, f, g)
    ensures |f| == |g| > IP_TTL && f in ReceivedIn(h.cfg, h.run)
    ensures ValidIp(f) && f[IP_TTL] > 1 && ValidIp(g) && SameButTtl(f, g) && g[IP_TTL] == f[IP_TTL] - 1
  {
    hide Run, Sendable, DecTtl, LatestAccepted, ReceivedIn, Departure;
    DeliveriesUseLatestMapping(h.cfg, h.run, h.at);
    DeliveredWasReceived(h.cfg, h.run, h.at);
    var e := Run(h.cfg, h.run).shared.log[h.at];
    assert SameDatagram(g, DecTtl(f));
    OneHop(h.cfg, f, g);
  }

  ghost predicate Journey(hops: seq<Hop>, frames: seq<Frame>)
  {
    |frames| == |hops| + 1 && forall k :: 0 <= k < |hops| ==> Forwards(hops[k], frames[k], frames[k + 1])
  }

  /** Along any journey, through any tables, even looping ones: every router on the way did receive
      what it forwarded, at every hop the frame is valid for the next router and is the injected
      datagram but for TTL and checksum, and the TTL counts the hops, so a packet injected with TTL t
      is forwarded at most t - 1 times. */
  lemma {:induction false} JourneyEnds(hops: seq<Hop>, frames: seq<Frame>)
    requires Journey(hops, frames) && hops != []
    ensures |frames[0]| > IP_TTL && |hops| < frames[0][IP_TTL]
    ensures forall k :: 0 <= k < |hops| ==> frames[k] in ReceivedIn(hops[k].cfg, hops[k].run)
    ensures forall k :: 0 <= k <= |hops| ==>
              ValidIp(frames[k]) && SameButTtl(frames[0], frames[k]) && frames[k][IP_TTL] == frames[0][IP_TTL] - k
  {
    hide Forwards, ValidIp, ReceivedIn;
    var n := |hops|;
    assert Forwards(hops[n - 1], frames[n - 1], frames[n]) && Forwards(hops[0], frames[0], frames[1]);
    ForwardingIsOneHop(hops[n - 1], frames[n - 1], frames[n]);
    if n > 1 {
      JourneyEnds(hops[..n - 1], frames[..n]);
    }
  }

  // ----- all copies of a datagram -----

  /** The datagram that a frame carries, whatever its Ethernet header, TTL and checksum. */
  function Key(f: Frame): seq<byte>
  {
    if |f| < ETH + 20 then [] else PutU16(f[IP_TTL := 0], IP_SUM, 0)[ETH..]
  }

  predicate Carries(f: Frame, key: seq<byte>, ttl: nat)
  {
    |f| >= ETH + 20 && Key(f) == key && f[IP_TTL] == ttl
  }

  lemma SameKey(f: Frame, g: Frame)
    requires |f| >= ETH + 20 && SameButTtl(f, g)
    ensures Key(f) == Key(g)
  {
    var x, y := PutU16(f[IP_TTL := 0], IP_SUM, 0), PutU16(g[IP_TTL := 0], IP_SUM, 0);
    assert x[IP_SUM] == 0 == y[IP_SUM] && x[IP_SUM + 1] == 0 == y[IP_SUM + 1];
    assert forall i :: ETH <= i < |f| ==> x[i] == y[i];
  }

  /** The copies with that TTL that a router received. */
  function Taken(cfg: Config, run: seq<Action>, key: seq<byte>, ttl: nat): multiset<Frame>
  {
    if run == [] then multiset{}
    else
      var before, a := run[..|run| - 1], run[|run| - 1];
      Taken(cfg, before, key, ttl)
      + if Enabled(cfg, Run(cfg, before), a) && a.step.Receive? && Carries(a.step.f, key, ttl) then multiset{a.step.f}
        else multiset{}
  }

  /** Those of them that left as forwarded. */
  function Passed(log: Log, key: seq<byte>, ttl: nat): multiset<Frame>
  {
    if log == [] then multiset{}
    else
      var e := log[|log| - 1];
      Passed(log[..|log| - 1], key, ttl)
      + if e.Delivered? && e.pkt.origin.Forwarded? && Carries(e.pkt.origin.received, key, ttl)
        then multiset{e.pkt.origin.received} else multiset{}
  }

  /** How many forwarded copies left with that TTL. */
  function Left(log: Log, key: seq<byte>, ttl: nat): nat
  {
    if log == [] then 0
    else
      var e := log[|log| - 1];
      Left(log[..|log| - 1], key, ttl)
      + if e.Delivered? && e.pkt.origin.Forwarded? && Carries(e.frame, key, ttl) then 1 else 0
  }

  lemma {:induction false} TakenIs(cfg: Config, run: seq<Action>, key: seq<byte>, ttl: nat, f: Frame)
    ensures Taken(cfg, run, key, ttl)[f] == if Carries(f, key, ttl) then ReceivedIn(cfg, run)[f] else 0
  {
    hide Run, Enabled, Carries;
    if run != [] {
      TakenIs(cfg, run[..|run| - 1], key, ttl, f);
    }
  }

  lemma {:induction false} PassedIs(log: Log, key: seq<byte>, ttl: nat, f: Frame)
    ensures Passed(log, key, ttl)[f] == if Carries(f, key, ttl) then DepartedIn(log)[f] else 0
  {
    hide Carries;
    if log != [] {
      PassedIs(log[..|log| - 1], key, ttl, f);
    }
  }

  /** A router passes on at most as many copies as it takes. */
  lemma PassedWereTaken(cfg: Config, run: seq<Action>, key: seq<byte>, ttl: nat)
    ensures |Passed(Run(cfg, run).shared.log, key, ttl)| <= |Taken(cfg, run, key, ttl)|
  {
    hide Run, Taken, Passed, ReceivedIn, DepartedIn, Carries;
    var p, t := Passed(Run(cfg, run).shared.log, key, ttl), Taken(cfg, run, key, ttl);
    DepartedWereReceived(cfg, run);
    forall f ensures p[f] <= t[f] {
      PassedIs(Run(cfg, run).shared.log, key, ttl, f);
      TakenIs(cfg, run, key, ttl, f);
    }
    assert t == p + (t - p);
  }

  /** Every departure takes one from the TTL. */
  ghost predicate OneHopEach(log: Log)
  {
    forall k :: 0 <= k < |log| && log[k].Delivered? && log[k].pkt.origin.Forwarded? ==> OneHopOf(log[k])
  }

  ghost predicate OneHopOf(e: Event)
    requires e.Delivered? && e.pkt.origin.Forwarded?
  {
    var f, g := e.pkt.origin.received, e.frame;
    |f| == |g| >= ETH + 20 && f[IP_TTL] > 1 && SameButTtl(f, g) && g[IP_TTL] == f[IP_TTL] - 1
  }

  lemma RunOneHopEach(cfg: Config, run: seq<Action>)
    ensures OneHopEach(Run(cfg, run).shared.log)
  {
    hide Run, SameButTtl;
    var log := Run(cfg, run).shared.log;
    forall k | 0 <= k < |log| && log[k].Delivered? && log[k].pkt.origin.Forwarded? ensures OneHopOf(log[k]) {
      ForwardingIsOneHop(Hop(cfg, run, k), log[k].pkt.origin.received, log[k].frame);
      ValidIsLong(log[k].frame);
    }
  }

  lemma {:induction false} LeftIsPassed(log: Log, key: seq<byte>, ttl: nat)
    requires OneHopEach(log)
    ensures Left(log, key, ttl) == |Passed(log, key, ttl + 1)|
    ensures ttl == 0 ==> Left(log, key, ttl) == 0
  {
    hide Key, SameButTtl;
    if log != [] {
      var rest, e := log[..|log| - 1], log[|log| - 1];
      assert forall k :: 0 <= k < |rest| ==> rest[k] == log[k];
      LeftIsPassed(rest, key, ttl);
      if e.Delivered? && e.pkt.origin.Forwarded? {
        assert OneHopOf(e);
        SameKey(e.pkt.origin.received, e.frame);
      }
    }
  }

  // ----- the whole network -----

  datatype Router = Router(cfg: Config, run: seq<Action>)

  function Receptions(net: seq<Router>, key: seq<byte>, ttl: nat): nat
  {
    if net == [] then 0 else |Taken(net[0].cfg, net[0].run, key, ttl)| + Receptions(net[1..], key, ttl)
  }

  /** How many forwarded copies left all routers with that TTL. */
  function Departing(net: seq<Router>, key: seq<byte>, ttl: nat): nat
  {
    if net == [] then 0 else Left(Run(net[0].cfg, net[0].run).shared.log, key, ttl) + Departing(net[1..], key, ttl)
  }

  /** The links may lose, delay and reorder frames, but they do not make any: what arrives was injected,
      n times with TTL t, or left a router that forwarded it. */
  ghost predicate Fed(net: seq<Router>, key: seq<byte>, n: nat, t: nat)
  {
    forall ttl :: 0 <= ttl ==> Receptions(net, key, ttl) <= Departing(net, key, ttl) + if ttl == t then n else 0
  }

  lemma {:induction false} DepartingWereReceived(net: seq<Router>, key: seq<byte>, ttl: nat)
    ensures Departing(net, key, ttl) <= Receptions(net, key, ttl + 1)
    ensures ttl == 0 || ttl >= 255 ==> Departing(net, key, ttl) == 0
  {
    hide Run, Taken, Left, Passed;
    if net != [] {
      DepartingWereReceived(net[1..], key, ttl);
      var r := net[0];
      RunOneHopEach(r.cfg, r.run);
      LeftIsPassed(Run(r.cfg, r.run).shared.log, key, ttl);
      PassedWereTaken(r.cfg, r.run, key, ttl + 1);
      if ttl >= 255 {
        NoneAbove(r.cfg, r.run, key, ttl + 1);
      }
    }
  }

  lemma {:induction false} NoneAbove(cfg: Config, run: seq<Action>, key: seq<byte>, ttl: nat)
    requires ttl >= 256
    ensures Taken(cfg, run, key, ttl) == multiset{}
  {
    hide Run, Enabled, Key;
    if run != [] {
      NoneAbove(cfg, run[..|run| - 1], key, ttl);
    }
  }

  /** With every TTL below t no more copies leave than were injected, and with t or more none. */
  lemma {:induction false} DepartingBound(net: seq<Router>, key: seq<byte>, n: nat, t: nat, ttl: nat)
    requires Fed(net, key, n, t)
    ensures Departing(net, key, ttl) <= if 1 <= ttl < t then n else 0
    decreases 256 - ttl
  {
    hide Departing, Receptions;
    DepartingWereReceived(net, key, ttl);
    if ttl < 255 {
      DepartingBound(net, key, n, t, ttl + 1);
    }
  }

  /** All forwarded copies that left with a TTL below limit. */
  function AllDeparting(net: seq<Router>, key: seq<byte>, limit: nat): nat
  {
    if limit == 0 then 0 else AllDeparting(net, key, limit - 1) + Departing(net, key, limit - 1)
  }

  /** In a network of any routers with any tables, a datagram that is injected n times with TTL t leaves
      all routers together, at all hops and in all copies, at most n * (t - 1) times. */
  lemma {:induction false} ForwardingsAreBounded(net: seq<Router>, key: seq<byte>, n: nat, t: nat, limit: nat)
    requires Fed(net, key, n, t) && t >= 1
    ensures AllDeparting(net, key, limit) <= n * (t - 1)
    ensures limit <= t ==> AllDeparting(net, key, limit) <= n * (if limit == 0 then 0 else limit - 1)
  {
    hide Departing, Fed;
    if limit > 0 {
      ForwardingsAreBounded(net, key, n, t, limit - 1);
      DepartingBound(net, key, n, t, limit - 1);
      if limit <= t && limit >= 2 {
        Distribute(n, limit - 2);
      }
    }
  }

  lemma Distribute(n: nat, k: nat)
    ensures n * k + n == n * (k + 1)
  {
  }
}
