/** Building blocks for concrete runs: a neighbour says hello, and the router learns its address. */
module Scenario {
  import opened Bytes
  import opened Routing
  import opened ArpState
  import opened Reactions
  import opened System
  import Arp

  /** An ARP request by from for the address of the interface to. */
  function Greeting(from: Iface, to: Iface): Frame
  {
    Arp.RequestFrame(from, to.ip)
  }

  /** A step at a time, and at time 0. */
  function ThenAt(cfg: Config, st: Sys, step: Step, now: nat): Sys
  {
    Apply(cfg, st, Action(step, now))
  }

  function Then(cfg: Config, st: Sys, step: Step): Sys
  {
    ThenAt(cfg, st, step, 0)
  }

  function AfterAt(run: seq<Action>, step: Step, now: nat): seq<Action>
  {
    run + [Action(step, now)]
  }

  function After(run: seq<Action>, step: Step): seq<Action>
  {
    AfterAt(run, step, 0)
  }

  lemma RunAfterAt(cfg: Config, run: seq<Action>, step: Step, now: nat)
    ensures Run(cfg, AfterAt(run, step, now)) == ThenAt(cfg, Run(cfg, run), step, now)
  {
    var longer := AfterAt(run, step, now);
    assert longer[..|longer| - 1] == run;
  }

  lemma RunAfter(cfg: Config, run: seq<Action>, step: Step)
    ensures Run(cfg, After(run, step)) == Then(cfg, Run(cfg, run), step)
  {
    RunAfterAt(cfg, run, step, 0);
  }

  /** A greeting is learned and will be answered. */
  lemma GreetingLearned(cfg: Config, from: Iface, to: Iface)
    requires from.ip != ZERO_IP
    ensures React(cfg, Greeting(from, to), Some(to))
            == Learn(from.ip, from.mac, Some(Arp.ReplyFrame(to, Greeting(from, to))))
  {
  }

  lemma GreetingStep(cfg: Config, st: Sys, from: Iface, to: Iface)
    requires st.pc == Ready && st.clock == 0 && from.ip != ZERO_IP && FindIface(cfg.ifs, to.name) == Some(to)
    ensures var waiting := Detached(st.shared, from.ip);
            Then(cfg, st, Receive(Greeting(from, to), to.name)) ==
            Sys(Insert(st.shared, from.mac, from.ip, 0), 0,
                Flushing(from.ip, from.mac, if waiting.Some? then waiting.value.packets else [],
                         Some(Arp.ReplyFrame(to, Greeting(from, to))), to.name))
  {
    hide React, FindIface, Insert, Detached, Greeting;
    GreetingLearned(cfg, from, to);
  }

  lemma Answered(cfg: Config, st: Sys)
    requires st.pc.Flushing? && st.pc.packets == [] && st.pc.reply.Some? && st.clock == 0
    ensures Then(cfg, st, Proceed) == Sys(Respond(st.shared, cfg, st.pc.reply.value, st.pc.iface), 0, Ready)
  {
    hide FindIface, Deliver;
  }

  lemma Inserted(s: Shared, mac: Mac, ip: Ip4)
    requires s.requests == []
    ensures var t := Insert(s, mac, ip, 0);
            t.requests == [] && t.entries == Stored(s.entries, mac, ip, 0)
  {
    hide Stored, Slot;
  }

  /** When nothing is pending, a greeting and its answer store the neighbour if a slot is free, and
      change nothing else that matters. */
  lemma Greeted(cfg: Config, st: Sys, from: Iface, to: Iface)
    requires st.pc == Ready && st.clock == 0 && st.shared.requests == []
    requires from.ip != ZERO_IP && FindIface(cfg.ifs, to.name) == Some(to)
    ensures var t := Then(cfg, Then(cfg, st, Receive(Greeting(from, to), to.name)), Proceed);
            && t.pc == Ready && t.clock == 0 && t.shared.requests == []
            && t.shared.entries == Stored(st.shared.entries, from.mac, from.ip, 0)
  {
    hide FindIface, Stored, Greeting;
    GreetingStep(cfg, st, from, to);
    var next := Then(cfg, st, Receive(Greeting(from, to), to.name));
    assert next.pc.packets == [];
    hide Then, Insert, Detached;
    Answered(cfg, next);
    Inserted(st.shared, from.mac, from.ip);
  }

  /** A frame that makes the router route another one whose next hop it does not know. */
  lemma QueuedSteps(cfg: Config, st: Sys, f: Frame, to: Iface, g: Frame, origin: Origin)
    requires st.pc == Ready && st.clock == 0 && FindIface(cfg.ifs, to.name) == Some(to)
    requires React(cfg, f, Some(to)) == SendRouted(g, origin) && |g| >= ETH + 20
    requires NextHop(cfg, g, origin).Some? && Lookup(st.shared.entries, NextHop(cfg, g, origin).value.hop).None?
    ensures var out := NextHop(cfg, g, origin).value;
            Then(cfg, Then(cfg, st, Receive(f, to.name)), Proceed) ==
            Sys(QueueAndAsk(st.shared, cfg, out.hop, out.pkt, 0), 0, Ready)
  {
    hide React, FindIface, NextHop, QueueAndAsk, Lookup, Unrouted, Insert, Detached, Deliver;
  }

  /** A frame that makes the router route another one for which there is no way. */
  lemma DroppedStep(cfg: Config, st: Sys, f: Frame, to: Iface, g: Frame, origin: Origin)
    requires st.pc == Ready && st.clock == 0 && FindIface(cfg.ifs, to.name) == Some(to)
    requires React(cfg, f, Some(to)) == SendRouted(g, origin) && |g| >= ETH + 20 && NextHop(cfg, g, origin).None?
    ensures Then(cfg, st, Receive(f, to.name)) == Sys(Unrouted(st.shared, cfg, g), 0, Ready)
  {
    hide React, FindIface, NextHop, Lookup, Unrouted, Insert, Detached;
  }
}
