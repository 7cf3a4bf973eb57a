/** The router as two threads that share the lock. The packet thread (the loop of sr_main.c:163)
    stops between its critical sections; the timer thread's iteration is one critical section, and
    may run at any of those points. */
module System {
  import opened Bytes
  import opened IpHeader
  import opened Icmp
  import opened Routing
  import opened ArpState
  import opened Reactions
  import opened History
  import opened Order
  import opened Invariants
  import opened Sections
  import Arp

  /** Where the packet thread stands. */
  datatype Pc =
    | Ready                                  // waiting for the next frame
    | Found(out: Outgoing, mac: Mac)         // sr_router.c:546 found an entry, nothing sent yet
    | Missed(out: Outgoing)                  // sr_router.c:546 found none, nothing queued yet
    | Flushing(ip: Ip4, mac: Mac, packets: seq<Packet>, reply: Option<Frame>, iface: string)   // sr_router.c:258-268

  datatype Step = Receive(f: Frame, iface: string) | Proceed | Timer

  /** A step together with the one reading of the clock that it makes. */
  datatype Action = Action(step: Step, now: nat)

  datatype Sys = Sys(shared: Shared, clock: nat, pc: Pc)

  function Init(): Sys
  {
    var empty := Entry(ZERO_MAC, ZERO_IP, 0, false);
    Sys(Shared(seq(CACHE_SIZE, _ => empty), [], 0, []), 0, Ready)
  }

  /** sr_arp_req_not_for_us asserts that a frame long enough for ARP names an interface. */
  predicate NameKnown(cfg: Config, f: Frame, name: string)
  {
    |f| >= Arp.ARP_LEN ==> FindIface(cfg.ifs, name).Some?
  }

  predicate Enabled(cfg: Config, st: Sys, a: Action)
  {
    && st.clock <= a.now
    && match a.step
       case Receive(f, name) => st.pc.Ready? && NameKnown(cfg, f, name)
       case Proceed => !st.pc.Ready?
       case Timer => true
  }

  /** The packet thread takes a frame up to its first release of the lock. */
  function Received(cfg: Config, s: Shared, f: Frame, recv: Option<Iface>, name: string, now: nat): (Shared, Pc)
  {
    match React(cfg, f, recv)
    case Ignore => (s, Ready)
    case Fail => (Logged(s, Unsent(name)), Ready)
    case Answer(reply) => (Respond(s, cfg, reply, name), Ready)
    case SendRouted(frame, origin) =>
      (match NextHop(cfg, frame, origin)
       case None => (Unrouted(s, cfg, frame), Ready)
       case Some(out) =>
         match Lookup(s.entries, out.hop)
         case Some(mac) => (s, Found(out, mac))
         case None => (s, Missed(out)))
    case Learn(ip, mac, reply) =>
      var waiting := Detached(s, ip);
      (Insert(s, mac, ip, now),
       Flushing(ip, mac, if waiting.Some? then waiting.value.packets else [], reply, name))
  }

  /** The packet thread goes on from where it stands. */
  function Proceeded(cfg: Config, s: Shared, pc: Pc, now: nat): (Shared, Pc)
  {
    match pc
    case Ready => (s, Ready)
    case Found(out, mac) => (Deliver(s, cfg, out.hop, out.pkt, mac, false), Ready)
    case Missed(out) => (QueueAndAsk(s, cfg, out.hop, out.pkt, now), Ready)
    case Flushing(ip, mac, packets, reply, name) =>
      if packets != [] then (Deliver(s, cfg, ip, packets[0], mac, true), Flushing(ip, mac, packets[1..], reply, name))
      else if reply.Some? then (Respond(s, cfg, reply.value, name), Ready)
      else (s, Ready)
  }

  /** One step of the system. An action that is not enabled changes nothing. */
  function Apply(cfg: Config, st: Sys, a: Action): Sys
  {
    if !Enabled(cfg, st, a) then st
    else
      match a.step
      case Receive(f, name) =>
        var r := Received(cfg, st.shared, f, FindIface(cfg.ifs, name), name, a.now);
        Sys(r.0, a.now, r.1)
      case Proceed =>
        var r := Proceeded(cfg, st.shared, st.pc, a.now);
        Sys(r.0, a.now, r.1)
      case Timer => Sys(Tick(st.shared, cfg, a.now), a.now, st.pc)
  }

  /** The state after a run. Every interleaving of the two threads is such a sequence. */
  function Run(cfg: Config, run: seq<Action>): Sys
  {
    if run == [] then Init() else Apply(cfg, Run(cfg, run[..|run| - 1]), run[|run| - 1])
  }

  // ----- the invariant of every run -----

  ghost predicate PcOk(cfg: Config, s: Shared, pc: Pc)
  {
    match pc
    case Ready => true
    case Found(out, mac) => Good(cfg, out.hop, out.pkt) && LastAccepted(s.log, out.hop) == Some(mac)
    case Missed(out) => Good(cfg, out.hop, out.pkt) && !Cached(s.entries, out.hop)
    case Flushing(ip, mac, packets, reply, name) =>
      && (forall p :: p in packets ==> Good(cfg, ip, p))
      && LastAccepted(s.log, ip) == Some(mac)
      && (reply.Some? ==> Sendable(cfg, reply.value, name))
  }

  function InFlight(pc: Pc): multiset<Packet>
  {
    if pc.Flushing? then multiset(pc.packets) else multiset{}
  }

  ghost predicate SysInv(cfg: Config, st: Sys)
  {
    Inv(cfg, st.shared, st.clock, InFlight(st.pc)) && PcOk(cfg, st.shared, st.pc)
  }

  lemma InitOrdered()
    ensures Ordered(Init().shared) && Numbered(Init().shared)
  {
  }

  lemma InitInv(cfg: Config)
    ensures SysInv(cfg, Init())
  {
    hide Good;
    InitOrdered();
  }

  /** What the packet thread sends or routes is fit to be sent or routed. */
  predicate ReactionOk(cfg: Config, name: string, r: Reaction)
  {
    match r
    case Ignore => true
    case Fail => false
    case Answer(reply) => Sendable(cfg, reply, name)
    case SendRouted(frame, origin) => ValidIp(frame) && Makes(cfg, origin, frame)
    case Learn(_, _, reply) => reply.Some? ==> Sendable(cfg, reply.value, name)
  }

  lemma ReactionIsGood(cfg: Config, f: Frame, recv: Option<Iface>, name: string)
    requires FindIface(cfg.ifs, name) == recv && NameKnown(cfg, f, name)
    ensures ReactionOk(cfg, name, React(cfg, f, recv))
  {
    hide FindIface, ErrorAbout, ValidIp, DecTtl, Lpm, EchoReply;
    if !NotForUs(f, recv) && |f| >= ETH && U16(f, 12) == 0x0800 {
      IpReactionIsGood(cfg, f, recv, name);
    }
  }

  lemma ErrorReactionIsGood(cfg: Config, f: Frame, kind: byte, code: byte)
    ensures var r := ErrorReaction(cfg, f, kind, code);
            !r.Answer? && !r.Learn? && !r.Fail? && (r.SendRouted? ==> ValidIp(r.frame) && Makes(cfg, r.origin, r.frame))
  {
    hide ErrorAbout, ValidIp, Makes;
    if ErrorAbout(cfg, f, kind, code).Some? {
      ErrorAboutIsValid(cfg, f, kind, code);
    }
  }

  lemma IpReactionIsGood(cfg: Config, f: Frame, recv: Option<Iface>, name: string)
    requires FindIface(cfg.ifs, name) == recv && NameKnown(cfg, f, name)
    ensures var r := IpReaction(cfg, f, recv);
            && !r.Learn? && !r.Fail?
            && (r.Answer? ==> Sendable(cfg, r.frame, name))
            && (r.SendRouted? ==> ValidIp(r.frame) && Makes(cfg, r.origin, r.frame))
  {
    hide FindIface, ErrorReaction, LocalReaction, Lpm, IsRouterIp, Makes, Sendable, DecTtl;
    ErrorReactionIsGood(cfg, f, 11, 0);
    if ValidIp(f) {
      LocalReactionIsGood(cfg, f, recv, name);
    }
    if ValidIp(f) && f[IP_TTL] > 1 {
      ErrorReactionIsGood(cfg, DecTtl(f), 3, 0);
      ForwardedIsGood(cfg, f);
    }
  }

  lemma LocalReactionIsGood(cfg: Config, f: Frame, recv: Option<Iface>, name: string)
    requires FindIface(cfg.ifs, name) == recv && WellFormed(f) && NameKnown(cfg, f, name)
    ensures var r := LocalReaction(cfg, f, recv);
            && !r.Learn? && !r.Fail?
            && (r.Answer? ==> Sendable(cfg, r.frame, name))
            && (r.SendRouted? ==> ValidIp(r.frame) && Makes(cfg, r.origin, r.frame))
  {
    hide FindIface, ErrorReaction, EchoReply, Makes, Sendable, ChecksMessage;
    ErrorReactionIsGood(cfg, f, 3, 3);
    if CarriesIcmp(f) && recv.Some? {
      EchoReplyIsSendable(cfg, f, recv.value, name);
    }
  }

  lemma EchoReplyIsSendable(cfg: Config, f: Frame, iface: Iface, name: string)
    requires FindIface(cfg.ifs, name) == Some(iface) && CarriesIcmp(f)
    ensures Sendable(cfg, EchoReply(f, iface.mac), name)
  {
    hide EchoReply, FindIface;
    EchoReplyMirrorsRequest(f, iface.mac);
  }

  lemma ForwardedIsGood(cfg: Config, f: Frame)
    requires ValidIp(f) && f[IP_TTL] > 1
    ensures ValidIp(DecTtl(f)) && Makes(cfg, Forwarded(f), DecTtl(f))
  {
    hide DecTtl;
    DecTtlIsIncrementalUpdate(f);
  }

  lemma ReceiveKeeps(cfg: Config, st: Sys, f: Frame, name: string, now: nat)
    requires SysInv(cfg, st) && Enabled(cfg, st, Action(Receive(f, name), now))
    ensures SysInv(cfg, Apply(cfg, st, Action(Receive(f, name), now)))
  {
    hide Inv, Good, Sendable, Makes, ValidIp, NextHop, Lookup, Cached, React, Insert, LastAccepted, FindIface;
    hide Unrouted;
    var s, recv := st.shared, FindIface(cfg.ifs, name);
    TimePasses(cfg, s, st.clock, now, multiset{});
    ReactionIsGood(cfg, f, recv, name);
    match React(cfg, f, recv) {
      case Ignore =>
      case Answer(reply) => ReplyKeeps(cfg, s, reply, name, now, multiset{});
      case SendRouted(frame, origin) =>
        if NextHop(cfg, frame, origin).Some? {
          var out := NextHop(cfg, frame, origin).value;
          NextHopIsGood(cfg, frame, origin);
          LookupIsMembership(s.entries, out.hop);
          if Lookup(s.entries, out.hop).Some? {
            InvTruthful(cfg, s, now, multiset{});
            LookupIsAccepted(s, out.hop);
          }
        } else {
          UnroutedKeeps(cfg, s, frame, origin, now, multiset{});
        }
      case Learn(ip, mac, reply) => InsertKeeps(cfg, s, mac, ip, now);
    }
  }

  lemma InvTruthful(cfg: Config, s: Shared, now: nat, inFlight: multiset<Packet>)
    requires Inv(cfg, s, now, inFlight)
    ensures Truthful(s)
  {
  }

  lemma ProceedKeeps(cfg: Config, st: Sys, now: nat)
    requires SysInv(cfg, st) && Enabled(cfg, st, Action(Proceed, now))
    ensures SysInv(cfg, Apply(cfg, st, Action(Proceed, now)))
  {
    hide Inv, Good, Sendable, Cached, QueueAndAsk, Deliver, FindIface, LastAccepted, NameKnown;
    var s := st.shared;
    TimePasses(cfg, s, st.clock, now, InFlight(st.pc));
    match st.pc {
      case Ready =>
      case Found(out, mac) => DeliverKeeps(cfg, s, out.hop, out.pkt, mac, false, now, multiset{}, multiset{});
      case Missed(out) => QueueKeeps(cfg, s, out.hop, out.pkt, now, multiset{});
      case Flushing(ip, mac, packets, reply, name) =>
        if packets != [] {
          assert packets == [packets[0]] + packets[1..];
          DeliverKeeps(cfg, s, ip, packets[0], mac, true, now, multiset(packets), multiset(packets[1..]));
          LastAcceptedAfterDelivery(cfg, s, ip, packets[0], mac);
        } else if reply.Some? {
          ReplyKeeps(cfg, s, reply.value, name, now, multiset{});
        }
    }
  }

  lemma LastAcceptedAfterDelivery(cfg: Config, s: Shared, ip: Ip4, pkt: Packet, mac: Mac)
    ensures LastAccepted(Deliver(s, cfg, ip, pkt, mac, true).log, ip) == LastAccepted(s.log, ip)
  {
    hide FindIface, EventOk, LogOk;
    var t := Deliver(s, cfg, ip, pkt, mac, true);
    if t.log != s.log {
      Append(cfg, s.log, t.log[|s.log|]);
    }
  }

  lemma TimerKeeps(cfg: Config, st: Sys, now: nat)
    requires SysInv(cfg, st) && st.clock <= now
    ensures SysInv(cfg, Apply(cfg, st, Action(Timer, now)))
  {
    hide Inv, Good, Sendable, Sweep, LastAccepted;
    TimePasses(cfg, st.shared, st.clock, now, InFlight(st.pc));
    TickKeeps(cfg, st.shared, now, InFlight(st.pc));
    if st.pc.Missed? {
      AgedCached(st.shared.entries, now, st.pc.out.hop);
    }
  }

  /** Under every interleaving of the two threads the invariant holds after every step. */
  lemma {:induction false} RunKeepsInv(cfg: Config, run: seq<Action>)
    ensures SysInv(cfg, Run(cfg, run))
  {
    hide SysInv, Apply;
    if run == [] {
      InitInv(cfg);
    } else {
      RunKeepsInv(cfg, run[..|run| - 1]);
      ApplyKeeps(cfg, Run(cfg, run[..|run| - 1]), run[|run| - 1]);
    }
  }

  lemma ApplyKeeps(cfg: Config, st: Sys, a: Action)
    requires SysInv(cfg, st)
    ensures SysInv(cfg, Apply(cfg, st, a))
  {
    hide SysInv;
    if Enabled(cfg, st, a) {
      match a.step {
        case Receive(f, name) => ReceiveKeeps(cfg, st, f, name, a.now);
        case Proceed => ProceedKeeps(cfg, st, a.now);
        case Timer => TimerKeeps(cfg, st, a.now);
      }
    }
  }

  // ----- without interference -----

  /** A reaction carried out with nothing in between. */
  function Handled(s: Shared, cfg: Config, r: Reaction, name: string, now: nat): Shared
    requires r.SendRouted? ==> |r.frame| >= ETH + 20
  {
    match r
    case Ignore => s
    case Fail => Logged(s, Unsent(name))
    case Answer(frame) => Respond(s, cfg, frame, name)
    case SendRouted(frame, origin) => Routed(s, cfg, frame, origin, now)
    case Learn(ip, mac, reply) =>
      var t := Learned(s, cfg, ip, mac, now);
      if reply.Some? then Respond(t, cfg, reply.value, name) else t
  }

  function Proceeds(cfg: Config, st: Sys, n: nat, now: nat): Sys
    decreases n
  {
    if n == 0 then st else Proceeds(cfg, Apply(cfg, st, Action(Proceed, now)), n - 1, now)
  }

  lemma {:induction false} FlushProceeds(cfg: Config, s: Shared, pc: Pc, now: nat)
    requires pc.Flushing?
    ensures Proceeds(cfg, Sys(s, now, pc), |pc.packets| + 1, now) ==
            var t := Flush(s, cfg, pc.ip, pc.mac, pc.packets);
            Sys(if pc.reply.Some? then Respond(t, cfg, pc.reply.value, pc.iface) else t, now, Ready)
    decreases |pc.packets|
  {
    hide Deliver;
    var next := Apply(cfg, Sys(s, now, pc), Action(Proceed, now));
    if pc.packets != [] {
      FlushProceeds(cfg, next.shared, next.pc, now);
    } else {
      assert Proceeds(cfg, next, 0, now) == next;
    }
  }

  /** When the packet thread handles a frame and no other step comes between, the steps add up to
      the handlers as they are written: Handled, which Router.ReadPacket computes. */
  lemma UninterruptedSteps(cfg: Config, st: Sys, f: Frame, name: string, now: nat)
    requires Enabled(cfg, st, Action(Receive(f, name), now))
    ensures exists n :: Proceeds(cfg, Apply(cfg, st, Action(Receive(f, name), now)), n, now)
                        == Sys(Handled(st.shared, cfg, React(cfg, f, FindIface(cfg.ifs, name)), name, now), now, Ready)
  {
    hide React, FindIface, Insert, Deliver, QueueAndAsk, NextHop, Lookup;
    var r := React(cfg, f, FindIface(cfg.ifs, name));
    var first := Apply(cfg, st, Action(Receive(f, name), now));
    if first.pc.Ready? {
      assert Proceeds(cfg, first, 0, now) == first;
    } else if first.pc.Flushing? {
      FlushProceeds(cfg, first.shared, first.pc, now);
      if Detached(st.shared, r.ip).None? {
        assert Flush(first.shared, cfg, r.ip, r.mac, []) == first.shared;
      }
    } else {
      var second := Apply(cfg, first, Action(Proceed, now));
      assert Proceeds(cfg, second, 0, now) == second;
      assert Proceeds(cfg, first, 1, now) == second;
    }
  }

  /** The frames that a handler finds waiting in any run are long enough to address. */
  lemma WaitingFramesAreLong(cfg: Config, run: seq<Action>)
    ensures var s := Run(cfg, run).shared;
            forall i, p :: 0 <= i < |s.requests| && p in s.requests[i].packets ==> |p.buf| >= ETH
  {
    hide Run, PcOk, NextHop, Makes, ValidIp;
    RunKeepsInv(cfg, run);
    forall i, p | 0 <= i < |Run(cfg, run).shared.requests| && p in Run(cfg, run).shared.requests[i].packets
      ensures |p.buf| >= ETH
    {
      assert Good(cfg, Run(cfg, run).shared.requests[i].ip, p);
    }
  }
}
