/** Frames leave a queue in the reverse of the order in which they entered it, whatever the timer
    thread does between two deliveries of a flush. */
module FlushOrder {
  import opened Bytes
  import opened IpHeader
  import opened Routing
  import opened ArpState
  import opened Reactions
  import opened History
  import opened Order
  import opened Invariants
  import opened Sections
  import opened System
  import opened Theorems

  /** In every run, the frames that wait for an address are those queued for it since it was last
      resolved or given up, the latest in front, and none wait for an address without a request. */
  lemma QueuesHoldArrivals(cfg: Config, run: seq<Action>)
    ensures var s := Run(cfg, run).shared;
            && (forall i :: 0 <= i < |s.requests| ==> s.requests[i].packets == QueuedSince(s.log, s.requests[i].ip))
            && (forall ip :: !Pending(s.requests, ip) ==> QueuedSince(s.log, ip) == [])
  {
    hide Run, PcOk, Good, PacketsFor, QueuedSince;
    RunKeepsInv(cfg, run);
    var s := Run(cfg, run).shared;
    ShapeDistinct(s);
    forall i | 0 <= i < |s.requests| ensures s.requests[i].packets == QueuedSince(s.log, s.requests[i].ip) {
      PacketsAt(s.requests, i);
    }
    forall ip | !Pending(s.requests, ip) ensures QueuedSince(s.log, ip) == [] {
      PacketsNone(s.requests, ip);
    }
  }

  // ----- every run -----

  /** What is owed is what the packet thread holds. */
  ghost predicate FlushOk(s: Shared, pc: Pc)
  {
    && FlushesInOrder(s.log)
    && (pc.Flushing? ==> Owed(s.log) == Debt(pc.ip, pc.packets))
    && (!pc.Flushing? ==> Owed(s.log).packets == [])
  }

  lemma QuietFlushOk(s: Shared, t: Shared, pc: Pc)
    requires FlushOk(s, pc) && NoFlush(s.log, t.log)
    ensures FlushOk(t, pc)
  {
    hide NoFlush;
    NothingFlushed(s.log, t.log);
  }

  lemma LoggedNoFlush(s: Shared, e: Event)
    requires Unflushing(e)
    ensures NoFlush(s.log, Logged(s, e).log)
  {
  }

  lemma RespondNoFlush(s: Shared, cfg: Config, f: Frame, name: string)
    ensures NoFlush(s.log, Respond(s, cfg, f, name).log)
  {
    hide Sendable;
    LoggedNoFlush(s, Transmitted(cfg, f, name, Replied(f, name)));
  }

  /** Accepting a mapping makes the packet thread owe the queue of its address. */
  lemma InsertFlushOk(cfg: Config, s: Shared, mac: Mac, ip: Ip4, now: nat, pc: Pc)
    requires FlushOk(s, Ready) && Ordered(s)
    requires pc.Flushing? && pc.ip == ip
    requires pc.packets == if Detached(s, ip).Some? then Detached(s, ip).value.packets else []
    ensures FlushOk(Insert(s, mac, ip, now), pc)
  {
    hide FlushesInOrder, Owed, QueuedSince, IndexOf, Slot, Stored;
    assert PacketsFor(s.requests, ip) == QueuedSince(s.log, ip);
    OwedAppend(s.log, Accepted(ip, mac, Slot(s.entries, ip).Some?));
  }

  lemma ReceiveFlushOk(cfg: Config, s: Shared, f: Frame, name: string, now: nat)
    requires FlushOk(s, Ready) && Ordered(s)
    ensures var r := Received(cfg, s, f, FindIface(cfg.ifs, name), name, now); FlushOk(r.0, r.1)
  {
    hide FindIface, React, Lookup, NextHop, Insert, Detached, FlushesInOrder, Owed, NoFlush, Ordered, Respond;
    hide Unrouted;
    match React(cfg, f, FindIface(cfg.ifs, name)) {
      case Ignore =>
      case Answer(reply) =>
        RespondNoFlush(s, cfg, reply, name);
        QuietFlushOk(s, Respond(s, cfg, reply, name), Ready);
      case Fail =>
        LoggedNoFlush(s, Unsent(name));
        QuietFlushOk(s, Logged(s, Unsent(name)), Ready);
      case SendRouted(frame, _) =>
        var unknown := UnroutedLogs(s, cfg, frame);
        LoggedNoFlush(s, Unsent(unknown));
        QuietFlushOk(s, Logged(s, Unsent(unknown)), Ready);
      case Learn(ip, mac, reply) =>
        InsertFlushOk(cfg, s, mac, ip, now, Received(cfg, s, f, FindIface(cfg.ifs, name), name, now).1);
    }
  }

  lemma ProceedFlushOk(cfg: Config, st: Sys, now: nat)
    requires SysInv(cfg, st) && FlushOk(st.shared, st.pc) && Enabled(cfg, st, Action(Proceed, now))
    ensures var t := Apply(cfg, st, Action(Proceed, now)); FlushOk(t.shared, t.pc)
  {
    hide Inv, Good, FlushOk, NoFlush, QueueAndAsk, Deliver, LastAccepted, Cached, Respond, Sendable, DeliveredEvent;
    var s := st.shared;
    match st.pc {
      case Found(out, mac) =>
        GoodIsSendable(cfg, out.hop, out.pkt);
        DeliverLogsOne(s, cfg, out.hop, out.pkt, mac, false);
        NoFlushByHit(cfg, s, out.hop, out.pkt, mac);
        QuietFlushOk(s, Deliver(s, cfg, out.hop, out.pkt, mac, false), st.pc);
        NotFlushing(Deliver(s, cfg, out.hop, out.pkt, mac, false), st.pc);
      case Missed(out) =>
        TimePasses(cfg, s, st.clock, now, InFlight(st.pc));
        NoFlushByQueue(cfg, s, out, now, InFlight(st.pc));
        QuietFlushOk(s, QueueAndAsk(s, cfg, out.hop, out.pkt, now), st.pc);
        NotFlushing(QueueAndAsk(s, cfg, out.hop, out.pkt, now), st.pc);
      case Flushing(ip, mac, packets, reply, name) =>
        if packets != [] {
          GoodIsSendable(cfg, ip, packets[0]);
          DeliverLogsOne(s, cfg, ip, packets[0], mac, true);
          PaidOne(cfg, s, st.pc);
        } else {
          Paid(s, st.pc);
          if reply.Some? {
            RespondNoFlush(s, cfg, reply.value, name);
            QuietFlushOk(s, Respond(s, cfg, reply.value, name), Ready);
          }
        }
    }
  }

  lemma NotFlushing(s: Shared, pc: Pc)
    requires FlushOk(s, pc) && !pc.Flushing?
    ensures FlushOk(s, Ready)
  {
  }

  lemma Paid(s: Shared, pc: Pc)
    requires FlushOk(s, pc) && pc.Flushing? && pc.packets == []
    ensures FlushOk(s, Ready)
  {
  }

  lemma NoFlushByHit(cfg: Config, s: Shared, hop: Ip4, pkt: Packet, mac: Mac)
    requires Sendable(cfg, pkt.buf, pkt.iface)
    ensures NoFlush(s.log, Logged(s, DeliveredEvent(cfg, hop, pkt, mac, false)).log)
  {
    LoggedNoFlush(s, DeliveredEvent(cfg, hop, pkt, mac, false));
  }

  lemma NoFlushByQueue(cfg: Config, s: Shared, out: Outgoing, now: nat, inFlight: multiset<Packet>)
    requires Inv(cfg, s, now, inFlight) && Good(cfg, out.hop, out.pkt)
    ensures NoFlush(s.log, QueueAndAsk(s, cfg, out.hop, out.pkt, now).log)
  {
    hide Good, NoFlush, QueueAndAsk, Grown, LastAccepted;
    QueueExtends(cfg, s, out.hop, out.pkt, now);
  }

  /** One delivery of a flush pays the frame in front. */
  lemma PaidOne(cfg: Config, s: Shared, pc: Pc)
    requires FlushOk(s, pc) && pc.Flushing? && pc.packets != []
    requires Sendable(cfg, pc.packets[0].buf, pc.packets[0].iface)
    ensures FlushOk(Logged(s, DeliveredEvent(cfg, pc.ip, pc.packets[0], pc.mac, true)), pc.(packets := pc.packets[1..]))
  {
    hide FlushesInOrder, Owed, Addressed;
    OwedAppend(s.log, DeliveredEvent(cfg, pc.ip, pc.packets[0], pc.mac, true));
  }

  lemma {:induction false} RunFlushOk(cfg: Config, run: seq<Action>)
    ensures FlushOk(Run(cfg, run).shared, Run(cfg, run).pc)
  {
    hide FlushOk, Received, Proceeded, Tick, Inv, PcOk, NoFlush, LastAccepted;
    if run == [] {
      InitFlushOk();
    } else {
      var before := run[..|run| - 1];
      var a, st := run[|run| - 1], Run(cfg, before);
      RunFlushOk(cfg, before);
      RunKeepsInv(cfg, before);
      if Enabled(cfg, st, a) {
        TimePasses(cfg, st.shared, st.clock, a.now, InFlight(st.pc));
        match a.step {
          case Receive(f, name) =>
            InvOrdered(cfg, st.shared, a.now, InFlight(st.pc));
            ReceiveFlushOk(cfg, st.shared, f, name, a.now);
          case Proceed => ProceedFlushOk(cfg, st, a.now);
          case Timer =>
            TickKeeps(cfg, st.shared, a.now, InFlight(st.pc));
            QuietFlushOk(st.shared, Tick(st.shared, cfg, a.now), st.pc);
        }
      }
    }
  }

  lemma InvOrdered(cfg: Config, s: Shared, now: nat, inFlight: multiset<Packet>)
    requires Inv(cfg, s, now, inFlight)
    ensures Ordered(s)
  {
  }

  lemma InitFlushOk()
    ensures FlushOk(Init().shared, Ready)
  {
  }

  /** What a mapping accepted at position j of the log set free leaves before the next mapping is
      accepted, in the reverse of the order in which it was queued, all of it for that address, and
      whatever the timer thread does between the deliveries. */
  lemma FlushesReverseArrivals(cfg: Config, run: seq<Action>, j: nat, n: nat)
    requires j < n <= |Run(cfg, run).shared.log| && Run(cfg, run).shared.log[j].Accepted?
    requires forall k :: j < k < n ==> !Run(cfg, run).shared.log[k].Accepted?
    ensures var st := Run(cfg, run); var log := st.shared.log;
            && Flushed(log[..n], j + 1) <= QueuedSince(log[..j], log[j].ip)
            && (n < |log| && log[n].Accepted? ==> Flushed(log[..n], j + 1) == QueuedSince(log[..j], log[j].ip))
            && (n == |log| && !st.pc.Flushing? ==> Flushed(log, j + 1) == QueuedSince(log[..j], log[j].ip))
            && (n == |log| && st.pc.Flushing? ==>
                  Flushed(log, j + 1) + st.pc.packets == QueuedSince(log[..j], log[j].ip))
            && (forall k :: j < k < n && log[k].Delivered? && log[k].queued ==> log[k].ip == log[j].ip)
  {
    hide Run, Flushed, QueuedSince, Owed, FlushesInOrder;
    RunFlushOk(cfg, run);
    var log := Run(cfg, run).shared.log;
    PrefixInOrder(log, n);
    assert log[..n][..j] == log[..j];
    assert log[..|log|] == log;
    FlushedThenOwed(log[..n], j);
    if n < |log| {
      PrefixInOrder(log, n + 1);
      assert log[..n + 1] == log[..n] + [log[n]];
      OwedAppend(log[..n], log[n]);
    }
    forall k | j < k < n && log[k].Delivered? && log[k].queued ensures log[k].ip == log[j].ip {
      PrefixInOrder(log, k);
      PrefixInOrder(log, k + 1);
      assert log[..k + 1] == log[..k] + [log[k]];
      OwedAppend(log[..k], log[k]);
      assert log[..k][..j] == log[..j];
      FlushedThenOwed(log[..k], j);
    }
  }

  lemma {:induction false} PrefixInOrder(log: Log, n: nat)
    requires FlushesInOrder(log) && n <= |log|
    ensures FlushesInOrder(log[..n])
    decreases |log|
  {
    if n == |log| {
      assert log[..n] == log;
    } else {
      PrefixInOrder(log[..|log| - 1], n);
      assert log[..|log| - 1][..n] == log[..n];
    }
  }

  // ----- without interference -----

  /** The deliveries of some frames, in their order. */
  function Departing(cfg: Config, ip: Ip4, mac: Mac, packets: seq<Packet>): seq<Event>
    requires forall p :: p in packets ==> Sendable(cfg, p.buf, p.iface)
  {
    seq(|packets|, i requires 0 <= i < |packets| => DeliveredEvent(cfg, ip, packets[i], mac, true))
  }

  lemma {:induction false} FlushSendsAll(s: Shared, cfg: Config, ip: Ip4, mac: Mac, packets: seq<Packet>)
    requires forall p :: p in packets ==> Sendable(cfg, p.buf, p.iface)
    ensures var t := Flush(s, cfg, ip, mac, packets);
            t == s.(log := s.log + Departing(cfg, ip, mac, packets))
    decreases |packets|
  {
    hide Sendable, FindIface, DeliveredEvent;
    if packets != [] {
      DeliverLogsOne(s, cfg, ip, packets[0], mac, true);
      FlushSendsAll(Deliver(s, cfg, ip, packets[0], mac, true), cfg, ip, mac, packets[1..]);
      assert Departing(cfg, ip, mac, packets)
          == [DeliveredEvent(cfg, ip, packets[0], mac, true)] + Departing(cfg, ip, mac, packets[1..]);
    }
  }

  /** An accepted ARP message handled with no timer iteration in between removes the request for its
      address and sends what was queued for it, each frame once, the one queued last first, and sends
      nothing else. */
  lemma LearningFlushesNewestFirst(cfg: Config, run: seq<Action>, ip: Ip4, mac: Mac, now: nat, i: nat)
    requires i < |Run(cfg, run).shared.requests| && Run(cfg, run).shared.requests[i].ip == ip
    ensures var s := Run(cfg, run).shared; var t := Learned(s, cfg, ip, mac, now);
            && (forall p :: p in QueuedSince(s.log, ip) ==> Sendable(cfg, p.buf, p.iface))
            && t.requests == Removed(s.requests, i)
            && t.log == s.log + [Accepted(ip, mac, Slot(s.entries, ip).Some?)]
                        + Departing(cfg, ip, mac, QueuedSince(s.log, ip))
  {
    hide Run, Good, PcOk, Flush, Departing, Stored, Slot, Sendable, QueuedSince;
    RunKeepsInv(cfg, run);
    var s := Run(cfg, run).shared;
    QueuesHoldArrivals(cfg, run);
    assert IndexOf(s.requests, ip) == Some(i);
    forall p | p in s.requests[i].packets ensures Sendable(cfg, p.buf, p.iface) {
      GoodIsSendable(cfg, ip, p);
    }
    FlushSendsAll(Insert(s, mac, ip, now), cfg, ip, mac, s.requests[i].packets);
  }

  // ----- the rate limit's exception -----

  lemma DetachedSendable(cfg: Config, s: Shared, ip: Ip4, now: nat)
    requires Inv(cfg, s, now, multiset{})
    ensures var waiting := Detached(s, ip);
            waiting.Some? ==> forall p :: p in waiting.value.packets ==> Sendable(cfg, p.buf, p.iface)
  {
    hide Good, Sendable;
    var i := IndexOf(s.requests, ip);
    if i.Some? {
      WaitingGood(cfg, s, i.value, now, multiset{});
      forall p | p in s.requests[i.value].packets ensures Sendable(cfg, p.buf, p.iface) {
        GoodIsSendable(cfg, ip, p);
      }
    }
  }

  ghost predicate Deliveries(log: Log, from: nat)
  {
    forall k :: from <= k < |log| ==> log[k].Delivered?
  }

  /** Learning is inserting, followed by deliveries. */
  lemma LearnedIs(cfg: Config, s: Shared, mac: Mac, ip: Ip4, now: nat)
    requires Inv(cfg, s, now, multiset{})
    ensures var t, u := Insert(s, mac, ip, now), Learned(s, cfg, ip, mac, now);
            u == t.(log := u.log) && s.log < t.log <= u.log && Deliveries(u.log, |s.log| + 1)
  {
    hide Inv, Flush, Stored, Slot, IndexOf, Sendable, DeliveredEvent;
    DetachedSendable(cfg, s, ip, now);
    var t, waiting := Insert(s, mac, ip, now), Detached(s, ip);
    if waiting.Some? {
      FlushSendsAll(t, cfg, ip, mac, waiting.value.packets);
      DepartingDelivers(cfg, ip, mac, waiting.value.packets);
    }
  }

  lemma DepartingDelivers(cfg: Config, ip: Ip4, mac: Mac, packets: seq<Packet>)
    requires forall p :: p in packets ==> Sendable(cfg, p.buf, p.iface)
    ensures Deliveries(Departing(cfg, ip, mac, packets), 0)
  {
    hide Sendable;
  }

  lemma SlotCaches(cfg: Config, s: Shared, mac: Mac, ip: Ip4, now: nat)
    ensures Cached(Insert(s, mac, ip, now).entries, ip) <==> Slot(s.entries, ip).Some?
    ensures Slot(s.entries, ip).None? <==>
              forall i :: 0 <= i < |s.entries| ==> s.entries[i].valid && s.entries[i].ip != ip
  {
    hide Cached;
    StoredCached(s.entries, mac, ip, now);
  }

  lemma DeliverLogs(cfg: Config, t: Shared, out: Outgoing, mac: Mac)
    ensures forall k :: |t.log| <= k < |Deliver(t, cfg, out.hop, out.pkt, mac, false).log| ==>
              !Deliver(t, cfg, out.hop, out.pkt, mac, false).log[k].Asked?
    ensures t.log <= Deliver(t, cfg, out.hop, out.pkt, mac, false).log
  {
    hide FindIface;
  }

  /** A frame for an address that is neither cached nor pending is asked for. */
  lemma OpenLogs(cfg: Config, s: Shared, out: Outgoing, now: nat)
    requires Retrying(cfg, s, now) && Good(cfg, out.hop, out.pkt) && !Pending(s.requests, out.hop)
    ensures var u := QueueAndAsk(s, cfg, out.hop, out.pkt, now);
            && s.log <= u.log && |u.log| == |s.log| + 2
            && u.log[|s.log| + 1].Asked? && u.log[|s.log| + 1].ip == out.hop && u.log[|s.log| + 1].time == now
  {
    hide QueueAndAsk, NextHop, Makes, ValidIp, FindIface;
    QueueAndAskCases(cfg, s, out.hop, out.pkt, now);
    NotPending(s.requests, out.hop);
  }

  lemma NotPending(requests: seq<Request>, ip: Ip4)
    ensures Pending(requests, ip) <==> IndexOf(requests, ip).Some?
  {
  }

  /** The exception is exact. Let a mapping for ip be accepted less than a second after an ARP request
      for ip and the frames that waited for ip be flushed, and let the next frame for ip follow at once:
      it causes another ARP request within that second if and only if the mapping found no slot, that
      is, if and only if the cache was full of other addresses. */
  lemma EarlyAskIffNoSlot(cfg: Config, s: Shared, mac: Mac, ip: Ip4, f: Frame, origin: Origin, now: nat)
    requires Inv(cfg, s, now, multiset{})
    requires LastAsk(s.log, ip).Some? && now < LastAsk(s.log, ip).value + 1
    requires ValidIp(f) && Makes(cfg, origin, f)
    requires NextHop(cfg, f, origin).Some? && NextHop(cfg, f, origin).value.hop == ip
    ensures var u := Routed(Learned(s, cfg, ip, mac, now), cfg, f, origin, now);
            EarlyAsk(u.log, |s.log|, ip, LastAsk(s.log, ip).value)
            <==> forall i :: 0 <= i < |s.entries| ==> s.entries[i].valid && s.entries[i].ip != ip
  {
    hide Inv, Makes, NextHop, Insert, Learned, QueueAndAsk, Deliver, Good, LastAsk, Retrying;
    ValidIsLong(f);
    hide ValidIp;
    var out := NextHop(cfg, f, origin).value;
    var t, l := Insert(s, mac, ip, now), Learned(s, cfg, ip, mac, now);
    NextHopIsGood(cfg, f, origin);
    InsertKeeps(cfg, s, mac, ip, now);
    InsertedSoFar(cfg, s, mac, ip, now);
    LearnedIs(cfg, s, mac, ip, now);
    SlotCaches(cfg, s, mac, ip, now);
    LookupIsMembership(t.entries, ip);
    var u := Routed(l, cfg, f, origin, now);
    if Lookup(l.entries, ip).Some? {
      DeliverLogs(cfg, l, out, Lookup(l.entries, ip).value);
    } else {
      SameRetrying(cfg, t, l, now);
      OpenLogs(cfg, l, out, now);
      assert AskedBefore(u.log[|l.log| + 1], ip, LastAsk(s.log, ip).value + 1);
    }
  }

  lemma SameRetrying(cfg: Config, s: Shared, t: Shared, now: nat)
    requires Retrying(cfg, s, now) && t.requests == s.requests
    ensures Retrying(cfg, t, now)
  {
    hide Good;
  }

  /** What accepting a mapping leaves to ask for. */
  lemma InsertedSoFar(cfg: Config, s: Shared, mac: Mac, ip: Ip4, now: nat)
    requires Inv(cfg, s, now, multiset{})
    ensures var t := Insert(s, mac, ip, now);
            && t.log == s.log + [Accepted(ip, mac, Slot(s.entries, ip).Some?)]
            && Retrying(cfg, t, now) && !Pending(t.requests, ip)
  {
    hide Retrying, Balanced, Counted, Paced, Truthful, LogOk, Ordered, Slot, Stored;
    InsertPending(s, mac, ip, now);
    InsertRetrying(cfg, s, mac, ip, now);
  }
}
