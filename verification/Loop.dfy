/** The shipped tables send 192.168.2.5 back and forth, and a packet for it really goes that way until
    its TTL is used up. */
module Loop {
  import opened Bytes
  import opened IpHeader
  import opened Routing
  import opened ArpState
  import opened Reactions
  import opened Invariants
  import opened System
  import opened Network
  import opened Scenario

  const LOOPING := Ip4(192, 168, 2, 5)

  /** rtables/rtable1 */
  const TABLE1 := [
    Route(Ip4(192, 168, 1, 0), Ip4(192, 168, 0, 2), Ip4(255, 255, 255, 0), "eth1"),
    Route(Ip4(192, 168, 2, 0), Ip4(192, 168, 0, 6), Ip4(255, 255, 255, 240), "eth2"),
    Route(Ip4(192, 168, 3, 0), Ip4(192, 168, 0, 10), Ip4(255, 255, 255, 240), "eth3"),
    Route(Ip4(192, 168, 0, 2), Ip4(192, 168, 0, 2), Ip4(255, 255, 255, 255), "eth1"),
    Route(Ip4(192, 168, 0, 6), Ip4(192, 168, 0, 6), Ip4(255, 255, 255, 255), "eth2"),
    Route(Ip4(192, 168, 0, 10), Ip4(192, 168, 0, 10), Ip4(255, 255, 255, 255), "eth3")]

  /** rtables/rtable3 */
  const TABLE3 := [
    Route(Ip4(192, 168, 2, 2), Ip4(192, 168, 2, 2), Ip4(255, 255, 255, 255), "eth1"),
    Route(Ip4(192, 168, 0, 0), Ip4(192, 168, 0, 5), Ip4(255, 255, 0, 0), "eth2")]

  /** The first router sends 192.168.2.5 towards the third, which sends it back. */
  lemma ShippedTablesLoop(one: Config, three: Config)
    requires one.table == TABLE1 && three.table == TABLE3
    ensures Lpm(one, LOOPING) == Some(TABLE1[1]) && Lpm(three, LOOPING) == Some(TABLE3[1])
  {
    FirstTableMatches();
    ThirdTableMatches();
    hide Matches;
    assert TABLE1[5] in TABLE1 && TABLE3[1] in TABLE3;
  }

  lemma FirstTableMatches()
    ensures forall i :: 0 <= i < |TABLE1| ==> (Matches(TABLE1[i], LOOPING) <==> i == 1)
  {
    hide Matches;
    Pow2Of32();
    assert Pow2(0) == 1 && Pow2(4) == 16;
    MatchesByPrefix(TABLE1[0], LOOPING, 8);
    MatchesByPrefix(TABLE1[1], LOOPING, 4);
    MatchesByPrefix(TABLE1[2], LOOPING, 4);
    MatchesByPrefix(TABLE1[3], LOOPING, 0);
    MatchesByPrefix(TABLE1[4], LOOPING, 0);
    MatchesByPrefix(TABLE1[5], LOOPING, 0);
  }

  lemma ThirdTableMatches()
    ensures forall i :: 0 <= i < |TABLE3| ==> (Matches(TABLE3[i], LOOPING) <==> i == 1)
  {
    hide Matches;
    Pow2Of32();
    assert Pow2(0) == 1;
    MatchesByPrefix(TABLE3[0], LOOPING, 0);
    MatchesByPrefix(TABLE3[1], LOOPING, 16);
  }

  // ----- a packet that follows the loop -----

  /** A router that sends ip out of eth2 to a gateway with an address of its own. */
  ghost predicate Passes(cfg: Config, ip: Ip4)
  {
    && FindIface(cfg.ifs, "eth2").Some?
    && !IsRouterIp(cfg, ip)
    && Lpm(cfg, ip).Some? && Lpm(cfg, ip).value.iface == "eth2" && Lpm(cfg, ip).value.gw != ZERO_IP
  }

  predicate Travels(f: Frame, ip: Ip4)
  {
    ValidIp(f) && U16(f, 12) == 0x0800 && IpAt(f, IP_DST) == ip
  }

  /** What a router sends for f when the hardware address of its gateway is mac. */
  function Passed(f: Frame, mac: Mac, from: Mac): (g: Frame)
    requires WellFormed(f) && f[IP_TTL] > 1
    ensures |g| == |f|
  {
    Addressed(PutMac(DecTtl(f), SHOST, from), mac, from)
  }

  lemma PassedTravels(f: Frame, ip: Ip4, mac: Mac, from: Mac)
    requires Travels(f, ip) && f[IP_TTL] > 1
    ensures Travels(Passed(f, mac, from), ip) && Passed(f, mac, from)[IP_TTL] == f[IP_TTL] - 1
  {
    var d, g := DecTtl(f), Passed(f, mac, from);
    DecTtlIsIncrementalUpdate(f);
    hide DecTtl, ValidIp;
    assert forall i :: 12 <= i < |f| ==> g[i] == d[i];
    assert g[ETH..] == d[ETH..];
    ValidityIgnoresEthernet(g, d);
  }

  lemma PassReaction(cfg: Config, f: Frame, ip: Ip4, recv: Iface)
    requires Passes(cfg, ip) && Travels(f, ip) && f[IP_TTL] > 1
    ensures React(cfg, f, Some(recv)) == SendRouted(DecTtl(f), Forwarded(f))
    ensures var eth2 := FindIface(cfg.ifs, "eth2").value;
            NextHop(cfg, DecTtl(f), Forwarded(f)) ==
            Some(Outgoing(Lpm(cfg, ip).value.gw, Packet(PutMac(DecTtl(f), SHOST, eth2.mac), "eth2", Forwarded(f))))
  {
    assert WellFormed(f);
    hide Lpm, FindIface, ValidIp, ErrorReaction, LocalReaction, ArpReaction, IsRouterIp;
    assert IpAt(DecTtl(f), IP_DST) == ip by { hide DecTtl; }
    hide DecTtl;
  }

  lemma StoredFirst(mac: Mac, ip: Ip4)
    ensures Lookup(Stored(Init().shared.entries, mac, ip, 0), ip) == Some(mac)
  {
    var entries := Init().shared.entries;
    assert !entries[0].valid;
    assert Slot(entries, ip) == Some(0);
    hide Slot, Lookup;
    var after := Stored(entries, mac, ip, 0);
    assert after[0].valid && after[0].ip == ip;
    LookupIsMembership(after, ip);
  }

  /** A router that waits for frames and knows the hardware address of its gateway for ip. */
  ghost predicate Standing(cfg: Config, st: Sys, ip: Ip4, gateway: Mac)
    requires Passes(cfg, ip)
  {
    st.pc == Ready && st.clock == 0 && Lookup(st.shared.entries, Lpm(cfg, ip).value.gw) == Some(gateway)
  }

  lemma FromInit(cfg: Config)
    ensures Run(cfg, []) == Init()
  {
  }

  function GreetedRun(cfg: Config, ip: Ip4, gateway: Mac): seq<Action>
    requires Passes(cfg, ip)
  {
    var hello := Greeting(Iface("", gateway, Lpm(cfg, ip).value.gw), FindIface(cfg.ifs, "eth2").value);
    After(After([], Receive(hello, "eth2")), Proceed)
  }

  /** A router stands so once its gateway has greeted it. */
  lemma StandsAfterGreeting(cfg: Config, ip: Ip4, gateway: Mac)
    requires Passes(cfg, ip)
    ensures Standing(cfg, Run(cfg, GreetedRun(cfg, ip, gateway)), ip, gateway)
  {
    hide Run, Then, After, Greeting, FindIface, Lpm, Stored, Lookup;
    var eth2, gw := FindIface(cfg.ifs, "eth2").value, Lpm(cfg, ip).value.gw;
    var hello := Receive(Greeting(Iface("", gateway, gw), eth2), "eth2");
    RunAfter(cfg, [], hello);
    RunAfter(cfg, After([], hello), Proceed);
    FromInit(cfg);
    Greeted(cfg, Init(), Iface("", gateway, gw), eth2);
    StoredFirst(gateway, gw);
  }

  lemma PassSteps(cfg: Config, st: Sys, f: Frame, ip: Ip4, gateway: Mac)
    requires Passes(cfg, ip) && Travels(f, ip) && f[IP_TTL] > 1 && Standing(cfg, st, ip, gateway)
    ensures var eth2 := FindIface(cfg.ifs, "eth2").value;
            Then(cfg, Then(cfg, st, Receive(f, "eth2")), Proceed) ==
            Sys(Logged(st.shared,
                       Delivered(Lpm(cfg, ip).value.gw,
                           Packet(PutMac(DecTtl(f), SHOST, eth2.mac), "eth2", Forwarded(f)),
                                 Passed(f, gateway, eth2.mac), false)), 0, Ready)
  {
    hide Travels, Passes, FindIface, DecTtl, Lpm, Lookup, React, NextHop, Addressed, QueueAndAsk, Insert, Detached;
    TravelsWellFormed(f, ip);
    PassesByEth2(cfg, ip);
    PassReaction(cfg, f, ip, FindIface(cfg.ifs, "eth2").value);
  }

  function Longer(run: seq<Action>, f: Frame): seq<Action>
  {
    After(After(run, Receive(f, "eth2")), Proceed)
  }

  /** In two more steps such a router passes a received frame on, and stands again. */
  lemma PassesOn(cfg: Config, run: seq<Action>, f: Frame, ip: Ip4, gateway: Mac)
    requires Passes(cfg, ip) && Travels(f, ip) && |f| > IP_TTL && f[IP_TTL] > 1
    requires Standing(cfg, Run(cfg, run), ip, gateway)
    ensures var log, more := Run(cfg, run).shared.log, Run(cfg, Longer(run, f)).shared.log;
            && log <= more && Standing(cfg, Run(cfg, Longer(run, f)), ip, gateway)
            && FindIface(cfg.ifs, "eth2").Some? && WellFormed(f)
            && Forwards(Hop(cfg, Longer(run, f), |log|), f, Passed(f, gateway, FindIface(cfg.ifs, "eth2").value.mac))
  {
    hide Travels, Passes, Run, Then, After, FindIface, Passed, DecTtl, Lpm, Lookup;
    TravelsWellFormed(f, ip);
    PassesByEth2(cfg, ip);
    RunAfter(cfg, run, Receive(f, "eth2"));
    RunAfter(cfg, After(run, Receive(f, "eth2")), Proceed);
    PassSteps(cfg, Run(cfg, run), f, ip, gateway);
  }

  lemma StillForwards(cfg: Config, run: seq<Action>, longer: seq<Action>, at: nat, f: Frame, g: Frame)
    requires Forwards(Hop(cfg, run, at), f, g) && Run(cfg, run).shared.log <= Run(cfg, longer).shared.log
    ensures Forwards(Hop(cfg, longer, at), f, g) && at < |Run(cfg, run).shared.log|
  {
    hide Run;
  }

  // ----- back and forth -----

  /** One run of each of two routers, and the positions in their logs at which the hops of a journey
      left: the hops with even numbers left the first, the others the second. */
  datatype Pair = Pair(here: Config, hereRun: seq<Action>, there: Config, thereRun: seq<Action>, ats: seq<nat>)

  function HopAt(p: Pair, k: nat): Hop
    requires k < |p.ats|
  {
    if k % 2 == 0 then Hop(p.here, p.hereRun, p.ats[k]) else Hop(p.there, p.thereRun, p.ats[k])
  }

  function Hops(p: Pair): (hops: seq<Hop>)
    ensures |hops| == |p.ats| && forall k :: 0 <= k < |hops| ==> hops[k] == HopAt(p, k)
  {
    seq(|p.ats|, k requires 0 <= k < |p.ats| => HopAt(p, k))
  }

  /** A journey of f between the two routers. In each router's run its hops follow one another. */
  ghost predicate Bouncing(p: Pair, frames: seq<Frame>, f: Frame)
  {
    && Journey(Hops(p), frames) && frames[0] == f
    && forall k :: 0 <= k < |p.ats| - 2 ==> p.ats[k] < p.ats[k + 2]
  }

  ghost predicate BothStand(p: Pair, ip: Ip4)
    requires Passes(p.here, ip) && Passes(p.there, ip)
  {
    && Standing(p.here, Run(p.here, p.hereRun), ip, FindIface(p.there.ifs, "eth2").value.mac)
    && Standing(p.there, Run(p.there, p.thereRun), ip, FindIface(p.here.ifs, "eth2").value.mac)
  }

  /** What one more hop makes of the pair. */
  function Extended(p: Pair, f: Frame): Pair
  {
    if |p.ats| % 2 == 0
    then p.(hereRun := Longer(p.hereRun, f), ats := p.ats + [|Run(p.here, p.hereRun).shared.log|])
    else p.(thereRun := Longer(p.thereRun, f), ats := p.ats + [|Run(p.there, p.thereRun).shared.log|])
  }

  /** The frame after one more hop. */
  function NextFrame(p: Pair, f: Frame): Frame
    requires WellFormed(f) && f[IP_TTL] > 1
    requires FindIface(p.here.ifs, "eth2").Some? && FindIface(p.there.ifs, "eth2").Some?
  {
    var here, there := FindIface(p.here.ifs, "eth2").value.mac, FindIface(p.there.ifs, "eth2").value.mac;
    if |p.ats| % 2 == 0 then Passed(f, there, here) else Passed(f, here, there)
  }

  lemma ExtendedStands(p: Pair, f: Frame, ip: Ip4)
    requires Passes(p.here, ip) && Passes(p.there, ip) && BothStand(p, ip)
    requires Travels(f, ip) && |f| > IP_TTL && f[IP_TTL] > 1
    ensures BothStand(Extended(p, f), ip) && WellFormed(f)
    ensures Run(p.here, p.hereRun).shared.log <= Run(p.here, Extended(p, f).hereRun).shared.log
    ensures Run(p.there, p.thereRun).shared.log <= Run(p.there, Extended(p, f).thereRun).shared.log
    ensures FindIface(p.here.ifs, "eth2").Some? && FindIface(p.there.ifs, "eth2").Some?
    ensures Forwards(HopAt(Extended(p, f), |p.ats|), f, NextFrame(p, f))
  {
    hide Passes, Travels, Standing, Run, Longer, Forwards, Passed, FindIface;
    PassesByEth2(p.here, ip);
    PassesByEth2(p.there, ip);
    if |p.ats| % 2 == 0 {
      PassesOn(p.here, p.hereRun, f, ip, FindIface(p.there.ifs, "eth2").value.mac);
    } else {
      PassesOn(p.there, p.thereRun, f, ip, FindIface(p.here.ifs, "eth2").value.mac);
    }
  }

  lemma ExtendedBounces(p: Pair, frames: seq<Frame>, f: Frame, g: Frame)
    requires Bouncing(p, frames, f) && Forwards(HopAt(Extended(p, frames[|frames| - 1]), |p.ats|),
             frames[|frames| - 1], g)
    requires var q := Extended(p, frames[|frames| - 1]);
             && Run(p.here, p.hereRun).shared.log <= Run(p.here, q.hereRun).shared.log
             && Run(p.there, p.thereRun).shared.log <= Run(p.there, q.thereRun).shared.log
    ensures Bouncing(Extended(p, frames[|frames| - 1]), frames + [g], f)
  {
    hide Run, Longer, Forwards;
    var q, more, n := Extended(p, frames[|frames| - 1]), frames + [g], |p.ats|;
    forall k | 0 <= k <= n
      ensures Forwards(Hops(q)[k], more[k], more[k + 1])
      ensures k + 2 == n ==> q.ats[k] < q.ats[n]
    {
      if k < n {
        assert Forwards(Hops(p)[k], frames[k], frames[k + 1]);
        if k % 2 == 0 {
          StillForwards(p.here, p.hereRun, q.hereRun, p.ats[k], frames[k], frames[k + 1]);
        } else {
          StillForwards(p.there, p.thereRun, q.thereRun, p.ats[k], frames[k], frames[k + 1]);
        }
      }
    }
  }

  ghost predicate Underway(p: Pair, frames: seq<Frame>, f: Frame, ip: Ip4, n: nat)
    requires Passes(p.here, ip) && Passes(p.there, ip)
  {
    && Bouncing(p, frames, f) && |p.ats| == n && BothStand(p, ip)
    && var last := frames[n];
       Travels(last, ip) && |last| > IP_TTL && |f| > IP_TTL && last[IP_TTL] == f[IP_TTL] - n
  }

  lemma UnderwayMore(p: Pair, frames: seq<Frame>, f: Frame, ip: Ip4, n: nat) returns (q: Pair, more: seq<Frame>)
    requires Passes(p.here, ip) && Passes(p.there, ip) && Underway(p, frames, f, ip, n) && frames[n][IP_TTL] > 1
    ensures q.here == p.here && q.there == p.there && Underway(q, more, f, ip, n + 1)
  {
    hide Passes, Travels, BothStand, Forwards, Passed, Run, FindIface, Hops, HopAt;
    var last := frames[n];
    ExtendedStands(p, last, ip);
    var g := NextFrame(p, last);
    PassedTravels(last, ip, FindIface(p.there.ifs, "eth2").value.mac, FindIface(p.here.ifs, "eth2").value.mac);
    PassedTravels(last, ip, FindIface(p.here.ifs, "eth2").value.mac, FindIface(p.there.ifs, "eth2").value.mac);
    ExtendedBounces(p, frames, f, g);
    q, more := Extended(p, last), frames + [g];
  }

  lemma {:induction false} UnderwayFor(here: Config, there: Config, f: Frame, ip: Ip4, n: nat)
    returns (p: Pair, frames: seq<Frame>)
    requires Passes(here, ip) && Passes(there, ip) && Travels(f, ip) && |f| > IP_TTL && n < f[IP_TTL]
    ensures p.here == here && p.there == there && Underway(p, frames, f, ip, n)
  {
    hide Passes, Travels, Standing, Run, GreetedRun;
    if n == 0 {
      StandsAfterGreeting(here, ip, FindIface(there.ifs, "eth2").value.mac) by { PassesByEth2(there, ip); }
      StandsAfterGreeting(there, ip, FindIface(here.ifs, "eth2").value.mac) by { PassesByEth2(here, ip); }
      PassesByEth2(here, ip);
      PassesByEth2(there, ip);
      p := Pair(here, GreetedRun(here, ip, FindIface(there.ifs, "eth2").value.mac),
                there, GreetedRun(there, ip, FindIface(here.ifs, "eth2").value.mac), []);
      frames := [f];
    } else {
      hide Underway;
      p, frames := UnderwayFor(here, there, f, ip, n - 1);
      LastTtl(p, frames, f, ip, n - 1);
      p, frames := UnderwayMore(p, frames, f, ip, n - 1);
    }
  }

  lemma LastTtl(p: Pair, frames: seq<Frame>, f: Frame, ip: Ip4, n: nat)
    requires Passes(p.here, ip) && Passes(p.there, ip) && Underway(p, frames, f, ip, n)
    ensures |frames| == n + 1 && |frames[n]| > IP_TTL && |f| > IP_TTL && frames[n][IP_TTL] == f[IP_TTL] - n
  {
    hide Passes, Travels, BothStand, Forwards, Hops;
  }

  /** Two routers that pass ip to each other bounce a packet for it, received with TTL t, t - 1 times,
      each router in one run of its own: the bound of JourneyEnds is reached. */
  lemma Bounces(here: Config, there: Config, f: Frame, ip: Ip4)
    requires Passes(here, ip) && Passes(there, ip) && Travels(f, ip) && |f| > IP_TTL && f[IP_TTL] >= 1
    ensures exists p, frames :: Bouncing(p, frames, f) && p.here == here && p.there == there && |p.ats| == f[IP_TTL] - 1
  {
    hide Passes, Travels, BothStand, Bouncing;
    var p, frames := UnderwayFor(here, there, f, ip, f[IP_TTL] - 1);
  }

  lemma PassesByEth2(cfg: Config, ip: Ip4)
    requires Passes(cfg, ip)
    ensures FindIface(cfg.ifs, "eth2").Some?
  {
  }

  lemma TravelsWellFormed(f: Frame, ip: Ip4)
    requires Travels(f, ip)
    ensures WellFormed(f)
  {
  }

  /** The first and the third shipped router do so for 192.168.2.5, unless it is their own address. */
  lemma ShippedRoutersBounce(one: Config, three: Config, f: Frame)
    requires one.table == TABLE1 && three.table == TABLE3 && Consistent(one) && Consistent(three)
    requires !IsRouterIp(one, LOOPING) && !IsRouterIp(three, LOOPING)
    requires Travels(f, LOOPING) && |f| > IP_TTL && f[IP_TTL] >= 1
    ensures exists p, frames :: Bouncing(p, frames, f) && p.here == one && p.there == three && |p.ats| == f[IP_TTL] - 1
  {
    hide IsRouterIp, Lpm, Travels, FindIface, Bouncing;
    ShippedTablesLoop(one, three);
    assert TABLE1[1] in one.table && TABLE3[1] in three.table;
    Bounces(one, three, f, LOOPING);
  }
}
