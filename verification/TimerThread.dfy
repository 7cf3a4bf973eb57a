/** What one iteration of the timer thread does to the cache, and that it sends by no mapping it has
    just timed out. */
module TimerThread {
  import opened Bytes
  import opened Icmp
  import opened Routing
  import opened ArpState
  import opened Order
  import opened Invariants
  import opened System
  import opened CacheMap

  /** Everything delivered from s to t went to an address that is cached in s, and the cache is as it
      was. */
  ghost predicate SendsToCached(s: Shared, t: Shared)
  {
    && t.entries == s.entries && s.log <= t.log
    && forall k :: |s.log| <= k < |t.log| && t.log[k].Delivered? ==> Cached(s.entries, t.log[k].ip)
  }

  lemma SendsTrans(s: Shared, t: Shared, u: Shared)
    requires SendsToCached(s, t) && SendsToCached(t, u)
    ensures SendsToCached(s, u)
  {
    hide Cached;
    assert forall k :: |s.log| <= k < |t.log| ==> u.log[k] == t.log[k];
  }

  lemma SendsNothing(s: Shared)
    ensures SendsToCached(s, s)
  {
  }

  lemma AskSends(s: Shared, cfg: Config, i: nat, name: string, now: nat)
    requires i < |s.requests|
    ensures SendsToCached(s, Ask(s, cfg, i, name, now))
  {
    hide FindIface, Cached;
  }

  lemma QueueSends(s: Shared, cfg: Config, ip: Ip4, pkt: Packet, now: nat)
    ensures SendsToCached(s, QueueAndAsk(s, cfg, ip, pkt, now))
  {
    hide Ask, Cached;
    var q := Queue(s, ip, pkt);
    assert SendsToCached(s, q);
    var i := IndexOf(q.requests, ip).value;
    AskSends(q, cfg, i, pkt.iface, now);
    SendsNothing(q);
    SendsTrans(s, q, QueueAndAsk(s, cfg, ip, pkt, now));
  }

  lemma RoutedSends(s: Shared, cfg: Config, f: Frame, origin: Origin, now: nat)
    requires |f| >= ETH + 20
    ensures SendsToCached(s, Routed(s, cfg, f, origin, now))
  {
    hide Cached, QueueAndAsk, NextHop, Unrouted, FindIface, Lookup, Addressed;
    var out := NextHop(cfg, f, origin);
    if out.None? {
      var name := UnroutedLogs(s, cfg, f);
    } else {
      LookupIsMembership(s.entries, out.value.hop);
      QueueSends(s, cfg, out.value.hop, out.value.pkt, now);
    }
  }

  lemma {:induction false} ReportAllSends(s: Shared, cfg: Config, packets: seq<Packet>, now: nat)
    ensures SendsToCached(s, ReportAll(s, cfg, packets, now))
    decreases |packets|
  {
    hide SendsToCached, Routed, ErrorAbout;
    SendsNothing(s);
    if packets != [] {
      var t := Report(s, cfg, packets[0], now);
      var e := ErrorAbout(cfg, packets[0].buf, 3, 1);
      if e.Some? {
        RoutedSends(s, cfg, e.value, Generated(packets[0].buf, 3, 1), now);
      }
      ReportAllSends(t, cfg, packets[1..], now);
      SendsTrans(s, t, ReportAll(t, cfg, packets[1..], now));
    }
  }

  lemma VisitSends(s: Shared, cfg: Config, k: nat, now: nat)
    requires 0 < k <= |s.requests|
    ensures SendsToCached(s, Visit(s, cfg, k, now))
  {
    hide ReportAll, Ask, Cached;
    var i := |s.requests| - k;
    var q := s.requests[i];
    if Due(q, now) && q.times >= MAX_ASKS {
      ReportAllSends(s, cfg, q.packets, now);
    } else if Due(q, now) && q.packets != [] {
      AskSends(s, cfg, i, q.packets[0].iface, now);
    }
  }

  lemma {:induction false} SweepSends(s: Shared, cfg: Config, k: nat, now: nat)
    requires k <= |s.requests|
    ensures SendsToCached(s, SweepFrom(s, cfg, k, now))
    decreases k
  {
    hide SendsToCached, Visit;
    SendsNothing(s);
    if k > 0 {
      VisitSends(s, cfg, k, now);
      SweepSends(Visit(s, cfg, k, now), cfg, k - 1, now);
      SendsTrans(s, Visit(s, cfg, k, now), SweepFrom(s, cfg, k, now));
    }
  }

  /** The mappings that are at most fifteen seconds old. */
  function StillFresh(mappings: map<Ip4, Mapping>, now: nat): map<Ip4, Mapping>
  {
    map ip | ip in mappings && now - mappings[ip].added <= 15 :: mappings[ip]
  }

  /** In every run, a timer iteration keeps exactly the mappings that are at most fifteen seconds old, and
      what it sends along the routed path goes to next hops with such mappings only. */
  lemma TimerUsesFreshMappings(cfg: Config, run: seq<Action>, now: nat)
    requires Run(cfg, run).clock <= now
    ensures var s := Run(cfg, run).shared; var t := Apply(cfg, Run(cfg, run), Action(Timer, now)).shared;
            && UniqueEntries(s.entries) && UniqueEntries(t.entries)
            && View(t.entries) == StillFresh(View(s.entries), now)
            && s.log <= t.log
            && forall k :: |s.log| <= k < |t.log| && t.log[k].Delivered? ==> t.log[k].ip in View(t.entries)
  {
    hide Run, PcOk, Good, Retrying, Paced, Counted, Balanced, LogOk, Truthful, Ordered, Numbered, SweepFrom, View;
    hide Cached;
    RunKeepsInv(cfg, run);
    var s := Run(cfg, run).shared;
    var aged := s.(entries := AgedEntries(s.entries, now));
    AgedRefines(s.entries, now);
    hide AgedEntries;
    SweepSends(aged, cfg, |s.requests|, now);
  }
}
