/** The critical sections that change counters, remove requests or change the cache keep the
    invariant: retry, expiry, the whole timer iteration, and insertion. */
module Sections {
  import opened Bytes
  import opened IpHeader
  import opened Routing
  import opened ArpState
  import opened History
  import opened Order
  import opened Invariants
  import opened Loss
  import Arp

  // ----- retry -----

  /** What Ask does when the interface exists. */
  function Asking(s: Shared, i: nat, iface: Iface, name: string, now: nat): Shared
    requires i < |s.requests|
  {
    var q := s.requests[i];
    Logged(s.(requests := s.requests[i := q.(sent := now, times := q.times + 1)]),
           Asked(q.id, q.ip, now, Arp.RequestFrame(iface, q.ip), name))
  }

  lemma AskingRetrying(cfg: Config, s: Shared, i: nat, iface: Iface, name: string, now: nat)
    requires Retrying(cfg, s, now) && i < |s.requests| && s.requests[i].times < MAX_ASKS
    ensures Retrying(cfg, Asking(s, i, iface, name, now), now)
  {
    hide Good;
    var t := Asking(s, i, iface, name, now);
    forall k | 0 <= k < |t.requests|
      ensures Waits(t.requests[k], now) && t.requests[k].packets == s.requests[k].packets &&
              t.requests[k].ip == s.requests[k].ip
    {
      assert Waits(s.requests[k], now);
    }
  }

  /** The i-th request was asked for now; nothing else that Paced speaks of changed. */
  lemma AskedNow(s: Shared, t: Shared, i: nat, now: nat)
    requires Paced(s, now) && UniqueRequests(s.requests, s.nextId) && Separate(s.entries, s.requests) &&
             i < |s.requests|
    requires t.entries == s.entries && |t.requests| == |s.requests|
    requires t.requests[i].ip == s.requests[i].ip && t.requests[i].sent == now
    requires forall k :: 0 <= k < |s.requests| && k != i ==> t.requests[k] == s.requests[k]
    requires forall x :: Pending(t.requests, x) <==> Pending(s.requests, x)
    requires var ip := s.requests[i].ip;
             && (forall x :: LastAsk(t.log, x) == if x == ip then Some(now) else LastAsk(s.log, x))
             && (forall x :: x != ip ==> (Unstored(t.log, x) <==> Unstored(s.log, x)))
    ensures Paced(t, now)
  {
    hide LastAsk, Unstored;
    assert Pending(s.requests, s.requests[i].ip);
    hide Pending;
    forall x | LastAsk(t.log, x).Some? ensures Settled(t, x, now) {
      assert x != s.requests[i].ip ==> Settled(s, x, now);
    }
  }

  lemma AskingPaced(cfg: Config, s: Shared, i: nat, iface: Iface, name: string, now: nat)
    requires Paced(s, now) && Shape(s) && i < |s.requests|
    ensures Paced(Asking(s, i, iface, name, now), now)
  {
    hide EventOk, LogOk, Paced, Pending, LastAsk, LastAccepted, Unstored, Asks, QueuedIn, FlushedIn, ReportedIn;
    hide LostIn;
    var t := Asking(s, i, iface, name, now);
    Append(cfg, s.log, Asked(s.requests[i].id, s.requests[i].ip, now, Arp.RequestFrame(iface, s.requests[i].ip), name));
    SameKeysPending(s.requests, t.requests);
    AskedNow(s, t, i, now);
  }

  lemma AskingCounted(cfg: Config, s: Shared, i: nat, iface: Iface, name: string, now: nat)
    requires Counted(s) && Shape(s) && i < |s.requests| && s.requests[i].times < MAX_ASKS
    ensures Counted(Asking(s, i, iface, name, now))
  {
    hide EventOk, LogOk, UniqueEntries, Separate, LastAsk, LastAccepted, Unstored, Asks, QueuedIn, FlushedIn;
    hide ReportedIn, LostIn;
    Append(cfg, s.log, Asking(s, i, iface, name, now).log[|s.log|]);
  }

  lemma SameFramesWaiting(requests: seq<Request>, i: nat, r: Request)
    requires i < |requests| && r.packets == requests[i].packets
    ensures Waiting(requests[i := r]) == Waiting(requests)
  {
    WaitingUpdate(requests, i, r);
    SameSum(Waiting(requests), Waiting(requests[i := r]), multiset(r.packets));
  }

  lemma SameSum(a: multiset<Packet>, b: multiset<Packet>, c: multiset<Packet>)
    requires b + c == a + c
    ensures a == b
  {
    assert forall x :: b[x] + c[x] == (b + c)[x] == (a + c)[x] == a[x] + c[x];
  }

  lemma AskingBalanced(cfg: Config, s: Shared, i: nat, iface: Iface, name: string, now: nat, inFlight: multiset<Packet>)
    requires Balanced(s, inFlight) && i < |s.requests|
    ensures Balanced(Asking(s, i, iface, name, now), inFlight)
  {
    hide EventOk, LogOk, LastAsk, LastAccepted, Unstored, Asks, QueuedIn, FlushedIn, ReportedIn, LostIn;
    hide Waiting, Arp.RequestFrame;
    var q := s.requests[i];
    var r := q.(sent := now, times := q.times + 1);
    var e := Asked(q.id, q.ip, now, Arp.RequestFrame(iface, q.ip), name);
    Append(cfg, s.log, e);
    NothingMoves(e);
    SameFramesWaiting(s.requests, i, r);
  }

  lemma NothingMoves(e: Event)
    requires e.Asked? || e.Accepted? || e.Replied?
    ensures forall m: multiset<Packet> ::
              m + QueuedBy(e) == m && m + FlushedBy(e) == m && m + ReportedBy(e) == m && m + LostBy(e) == m
  {
  }

  /** A due retry keeps the invariant. */
  lemma AskKeeps(cfg: Config, s: Shared, i: nat, now: nat, inFlight: multiset<Packet>)
    requires Inv(cfg, s, now, inFlight) && i < |s.requests|
    requires Due(s.requests[i], now) && s.requests[i].times < MAX_ASKS && s.requests[i].packets != []
    ensures Inv(cfg, Ask(s, cfg, i, s.requests[i].packets[0].iface, now), now, inFlight)
    ensures exists iface :: Ask(s, cfg, i, s.requests[i].packets[0].iface, now)
                            == Asking(s, i, iface, s.requests[i].packets[0].iface, now)
  {
    hide NextHop, Makes, ValidIp, FindIface, Balanced;
    var q := s.requests[i];
    var name := q.packets[0].iface;
    assert Good(cfg, q.ip, q.packets[0]);
    var iface := FindIface(cfg.ifs, name).value;
    var t := Asking(s, i, iface, name, now);
    assert Ask(s, cfg, i, name, now) == t;
    AskingKeeps(cfg, s, i, iface, name, now, inFlight);
  }

  lemma AskingOrdered(s: Shared, i: nat, iface: Iface, name: string, now: nat)
    requires Ordered(s) && i < |s.requests| && DistinctIps(s.requests)
    requires Numbered(s)
    ensures Ordered(Asking(s, i, iface, name, now)) && Numbered(Asking(s, i, iface, name, now))
  {
    hide Ordered, Numbered, DistinctIps, Arp.RequestFrame;
    var q := s.requests[i];
    var r := q.(sent := now, times := q.times + 1);
    CountersOrdered(s, i, r);
    CountersNumbered(s, i, r);
    LoggedNumbered(s.(requests := s.requests[i := r]), Asking(s, i, iface, name, now).log[|s.log|]);
    LoggedOrdered(s.(requests := s.requests[i := r]), Asking(s, i, iface, name, now).log[|s.log|]);
  }

  lemma LatestJoined(cfg: Config, s: Shared, i: nat, now: nat)
    requires Retrying(cfg, s, now) && Numbered(s) && i < |s.requests| && s.requests[i].packets != []
    ensures var q := s.requests[i];
            QueuedTo(s.log, q.id) == q.packets && Good(cfg, q.ip, q.packets[0])
  {
    hide Good;
  }

  lemma AskingLog(cfg: Config, s: Shared, i: nat, iface: Iface, name: string, now: nat)
    requires LogOk(cfg, s.log) && Retrying(cfg, s, now) && Paced(s, now) && Counted(s) && Numbered(s)
    requires i < |s.requests| && Due(s.requests[i], now) && s.requests[i].times < MAX_ASKS
    requires s.requests[i].packets != [] && s.requests[i].packets[0].iface == name
    requires FindIface(cfg.ifs, name) == Some(iface)
    ensures LogOk(cfg, Asking(s, i, iface, name, now).log)
  {
    hide Good, FindIface, EventOk, LogOk, LastAsk, LastAccepted, Unstored, Asks, QueuedIn, FlushedIn, ReportedIn;
    hide LostIn, Arp.RequestFrame;
    var q := s.requests[i];
    var t := Asking(s, i, iface, name, now);
    assert t.log == s.log + [t.log[|s.log|]];
    LatestJoined(cfg, s, i, now);
    AskedOk(cfg, s.log, q.id, q.ip, now, iface, name);
    Append(cfg, s.log, t.log[|s.log|]);
  }

  lemma AskingKeeps(cfg: Config, s: Shared, i: nat, iface: Iface, name: string, now: nat, inFlight: multiset<Packet>)
    requires Inv(cfg, s, now, inFlight) && i < |s.requests|
    requires Due(s.requests[i], now) && s.requests[i].times < MAX_ASKS
    requires s.requests[i].packets != [] && s.requests[i].packets[0].iface == name
    requires FindIface(cfg.ifs, name) == Some(iface)
    ensures Inv(cfg, Asking(s, i, iface, name, now), now, inFlight)
  {
    hide Good, FindIface, Balanced, LogOk, LastAsk, LastAccepted, Asks, Ordered, Numbered, Retrying, Paced, Counted;
    hide Shape, Arp.RequestFrame;
    var t := Asking(s, i, iface, name, now);
    AskingLog(cfg, s, i, iface, name, now);
    ShapeDistinct(s);
    AskingOrdered(s, i, iface, name, now);
    Append(cfg, s.log, t.log[|s.log|]);
    AskingRetrying(cfg, s, i, iface, name, now);
    AskingPaced(cfg, s, i, iface, name, now);
    AskingCounted(cfg, s, i, iface, name, now);
    AskingBalanced(cfg, s, i, iface, name, now, inFlight);
    SameKeysShape(s, t);
  }

  // ----- expiry -----

  lemma RetirePaced(cfg: Config, s: Shared, i: nat, reported: seq<Packet>, now: nat)
    requires Paced(s, now) && i < |s.requests| && Due(s.requests[i], now)
    ensures Paced(Retire(s, i, reported), now)
  {
    hide EventOk, LogOk, Removed, LastAsk, LastAccepted, Unstored, Asks, QueuedIn, FlushedIn, ReportedIn, LostIn;
    var q := s.requests[i];
    var t := Retire(s, i, reported);
    Append(cfg, s.log, Expired(q, reported));
    RemovedIndex(s.requests, i);
    forall k | 0 <= k < |t.requests| ensures LastAsk(t.log, t.requests[k].ip) == Some(t.requests[k].sent) {
      assert t.requests[k] == s.requests[if k < i then k else k + 1];
    }
    forall ip | LastAsk(t.log, ip).Some? ensures Settled(t, ip, now) {
      assert Settled(s, ip, now);
      if Pending(s.requests, ip) && ip != q.ip {
        var j :| 0 <= j < |s.requests| && s.requests[j].ip == ip;
        assert t.requests[if j < i then j else j - 1].ip == ip;
      }
    }
  }

  lemma RemovedShape(s: Shared, t: Shared, i: nat)
    requires Shape(s) && i < |s.requests|
    requires t.requests == Removed(s.requests, i) && t.entries == s.entries && t.nextId == s.nextId
    ensures Shape(t)
  {
    hide Removed;
    RemovedIndex(s.requests, i);
  }

  lemma RemovedRetrying(cfg: Config, s: Shared, t: Shared, i: nat, now: nat)
    requires Retrying(cfg, s, now) && i < |s.requests|
    requires t.requests == Removed(s.requests, i)
    ensures Retrying(cfg, t, now)
  {
    hide Good, Removed;
    RemovedIndex(s.requests, i);
  }

  lemma RetireBalanced(cfg: Config, s: Shared, i: nat, reported: seq<Packet>, inFlight: multiset<Packet>)
    requires Balanced(s, inFlight) && i < |s.requests|
    requires |reported| <= |s.requests[i].packets|
    requires s.requests[i].packets[|s.requests[i].packets| - |reported|..] == reported
    ensures Balanced(Retire(s, i, reported), inFlight)
  {
    hide EventOk, LogOk, Waiting, LastAsk, LastAccepted, Unstored, Asks, QueuedIn, FlushedIn, ReportedIn, LostIn;
    var q := s.requests[i];
    var e := Expired(q, reported);
    Append(cfg, s.log, e);
    WaitingRemoved(s.requests, i);
    var lost := q.packets[..|q.packets| - |reported|];
    assert q.packets == lost + reported;
    assert multiset(q.packets) == multiset(lost) + multiset(reported);
  }

  lemma RemovedCounted(s: Shared, t: Shared, i: Option<nat>)
    requires Counted(s) && (i.Some? ==> i.value < |s.requests|)
    requires t.requests == if i.Some? then Removed(s.requests, i.value) else s.requests
    requires t.nextId == s.nextId && forall id :: Asks(t.log, id) == Asks(s.log, id)
    ensures Counted(t)
  {
    hide Asks, Removed;
    if i.Some? {
      RemovedIndex(s.requests, i.value);
    }
  }

  /** Destroying a request whose fifth ARP request is a second old keeps the invariant. */
  lemma RetireKeeps(cfg: Config, s: Shared, i: nat, reported: seq<Packet>, now: nat, inFlight: multiset<Packet>)
    requires Inv(cfg, s, now, inFlight) && i < |s.requests|
    requires Due(s.requests[i], now) && s.requests[i].times >= MAX_ASKS
    requires WasReported(cfg, s.log, s.requests[i], reported)
    ensures Inv(cfg, Retire(s, i, reported), now, inFlight)
  {
    hide Good, Balanced, Shape, Paced, Returning, ReportsFrom, Removed, Counted, LogOk, LastAsk, LastAccepted, Unstored;
    hide Asks, QueuedIn, FlushedIn, ReportedIn, LostIn, Ordered, Numbered;
    RetiredNumbered(s, i, reported);
    var t := Retire(s, i, reported);
    ShapeDistinct(s);
    RetiredOrdered(s, i, reported);
    Append(cfg, s.log, Expired(s.requests[i], reported));
    assert Waits(s.requests[i], now);
    RemovedCounted(s, t, Some(i));
    RemovedShape(s, t, i);
    RemovedRetrying(cfg, s, t, i, now);
    RetirePaced(cfg, s, i, reported, now);
    RetireBalanced(cfg, s, i, reported, inFlight);
  }

  // ----- the sweep -----

  /** Nothing a critical section of the timer thread does accepts a mapping or flushes a frame. */
  ghost predicate Quiet(s: Shared, t: Shared)
  {
    NoFlush(s.log, t.log) && s.nextId <= t.nextId && forall ip :: LastAccepted(t.log, ip) == LastAccepted(s.log, ip)
  }

  lemma QuietTrans(s: Shared, t: Shared, u: Shared)
    requires Quiet(s, t) && Quiet(t, u)
    ensures Quiet(s, u)
  {
    hide NoFlush, LastAccepted;
    NoFlushTrans(s.log, t.log, u.log);
  }

  lemma VisitKeeps(cfg: Config, s: Shared, k: nat, now: nat, inFlight: multiset<Packet>)
    requires Inv(cfg, s, now, inFlight) && 0 < k <= |s.requests|
    ensures Inv(cfg, Visit(s, cfg, k, now), now, inFlight) && Quiet(s, Visit(s, cfg, k, now))
  {
    hide Inv, Ask, ReportAll, Retire, LastAccepted;
    var i := |s.requests| - k;
    var q := s.requests[i];
    if Due(q, now) {
      if q.times >= MAX_ASKS {
        ExpireKeeps(cfg, s, k, now, inFlight);
      } else if q.packets != [] {
        AskKeeps(cfg, s, i, now, inFlight);
        AskQuiet(cfg, s, i, q.packets[0].iface, now);
      }
    }
  }

  lemma AskQuiet(cfg: Config, s: Shared, i: nat, name: string, now: nat)
    requires i < |s.requests|
    ensures Quiet(s, Ask(s, cfg, i, name, now))
  {
    hide FindIface, EventOk, LogOk;
    var t := Ask(s, cfg, i, name, now);
    if t.log != s.log {
      Append(cfg, s.log, t.log[|s.log|]);
    }
  }

  lemma WaitingGood(cfg: Config, s: Shared, i: nat, now: nat, inFlight: multiset<Packet>)
    requires Inv(cfg, s, now, inFlight) && i < |s.requests|
    ensures forall p :: p in s.requests[i].packets ==> Good(cfg, s.requests[i].ip, p)
  {
    hide Good;
  }

  /** After the error generation of an expiry, the walked request is still k-th from the end, with
      the frames that were walked at the end of its list. */
  lemma ExpireKeeps(cfg: Config, s: Shared, k: nat, now: nat, inFlight: multiset<Packet>)
    requires Inv(cfg, s, now, inFlight) && 0 < k <= |s.requests|
    requires var q := s.requests[|s.requests| - k]; Due(q, now) && q.times >= MAX_ASKS
    ensures var q := s.requests[|s.requests| - k]; var t := ReportAll(s, cfg, q.packets, now);
            && Extends(s, t) && Kept(q, t.requests[|t.requests| - k])
            && var u := Retire(t, |t.requests| - k, q.packets);
               Inv(cfg, u, now, inFlight) && Quiet(s, u)
  {
    hide Inv, ReportAll, LastAccepted, EventOk, LogOk, Returning, ReportsFrom, Good;
    var q := s.requests[|s.requests| - k];
    var t := ReportAll(s, cfg, q.packets, now);
    ReportAllKeeps(cfg, s, q.packets, now, inFlight);
    ReportAllPushes(cfg, s, q.packets, k, now, inFlight);
    ReportAllEmits(cfg, s, q.packets, now, inFlight);
    WaitingGood(cfg, s, |s.requests| - k, now, inFlight);
    var r := t.requests[|t.requests| - k];
    assert Kept(q, r) by {
      assert Kept(s.requests[|s.requests| - k], t.requests[|t.requests| - |s.requests| + (|s.requests| - k)]);
    }
    RetireKeeps(cfg, t, |t.requests| - k, q.packets, now, inFlight);
    Append(cfg, t.log, Expired(r, q.packets));
    assert t.log <= Retire(t, |t.requests| - k, q.packets).log;
  }

  lemma {:induction false} SweepKeeps(cfg: Config, s: Shared, k: nat, now: nat, inFlight: multiset<Packet>)
    requires Inv(cfg, s, now, inFlight) && k <= |s.requests|
    ensures Inv(cfg, SweepFrom(s, cfg, k, now), now, inFlight) && Quiet(s, SweepFrom(s, cfg, k, now))
    decreases k
  {
    hide Inv, Visit, LastAccepted;
    if k > 0 {
      var t := Visit(s, cfg, k, now);
      VisitKeeps(cfg, s, k, now, inFlight);
      SweepKeeps(cfg, t, k - 1, now, inFlight);
      QuietTrans(s, t, SweepFrom(t, cfg, k - 1, now));
    }
  }

  lemma AgedCached(entries: seq<Entry>, now: nat, ip: Ip4)
    ensures Cached(AgedEntries(entries, now), ip) ==> Cached(entries, ip)
    ensures Cached(entries, ip) && !Cached(AgedEntries(entries, now), ip) ==>
              exists i :: 0 <= i < |entries| && entries[i].valid && entries[i].ip == ip &&
                  now - entries[i].added > CACHE_TIMEOUT
  {
    var aged := AgedEntries(entries, now);
    if Cached(aged, ip) {
      var i :| 0 <= i < |aged| && aged[i].valid && aged[i].ip == ip;
      assert entries[i].valid && entries[i].ip == ip;
    } else if Cached(entries, ip) {
      var i :| 0 <= i < |entries| && entries[i].valid && entries[i].ip == ip;
      assert !aged[i].valid || aged[i].ip != ip;
    }
  }

  lemma AgedPaced(s: Shared, t: Shared, now: nat)
    requires Paced(s, now) && t == s.(entries := AgedEntries(s.entries, now))
    ensures Paced(t, now)
  {
    hide LastAccepted, LastAsk, Unstored;
    assert forall i :: 0 <= i < |t.entries| && t.entries[i].valid ==> t.entries[i] == s.entries[i];
    forall ip | LastAsk(t.log, ip).Some? ensures Settled(t, ip, now) {
      assert Settled(s, ip, now);
      AgedCached(s.entries, now, ip);
    }
  }

  /** The timeout pass keeps the invariant. */
  lemma AgeKeeps(cfg: Config, s: Shared, now: nat, inFlight: multiset<Packet>)
    requires Inv(cfg, s, now, inFlight)
    ensures Inv(cfg, s.(entries := AgedEntries(s.entries, now)), now, inFlight)
  {
    hide Good, LogOk, Paced, Waiting, LastAsk, LastAccepted, Unstored, Asks, QueuedIn, FlushedIn, ReportedIn, LostIn;
    hide PacketsFor, QueuedSince, QueuedTo;
    var t := s.(entries := AgedEntries(s.entries, now));
    assert forall i :: 0 <= i < |t.entries| && t.entries[i].valid ==> t.entries[i] == s.entries[i];
    AgedPaced(s, t, now);
  }

  /** One iteration of the timer thread keeps the invariant. */
  lemma TickKeeps(cfg: Config, s: Shared, now: nat, inFlight: multiset<Packet>)
    requires Inv(cfg, s, now, inFlight)
    ensures Inv(cfg, Tick(s, cfg, now), now, inFlight) && Quiet(s, Tick(s, cfg, now))
  {
    hide Inv, SweepFrom, LastAccepted;
    AgeKeeps(cfg, s, now, inFlight);
    SweepKeeps(cfg, s.(entries := AgedEntries(s.entries, now)), |s.requests|, now, inFlight);
  }

  // ----- an accepted ARP message -----

  lemma StoredCached(entries: seq<Entry>, mac: Mac, ip: Ip4, now: nat)
    ensures forall x :: x != ip ==> (Cached(Stored(entries, mac, ip, now), x) <==> Cached(entries, x))
    ensures Slot(entries, ip).Some? ==> Cached(Stored(entries, mac, ip, now), ip)
    ensures Slot(entries, ip).None? ==> !Cached(entries, ip)
  {
    var after := Stored(entries, mac, ip, now);
    forall x | x != ip ensures Cached(after, x) <==> Cached(entries, x) {
      if Cached(after, x) {
        var i :| 0 <= i < |after| && after[i].valid && after[i].ip == x;
        assert entries[i].valid && entries[i].ip == x;
      }
      if Cached(entries, x) {
        var i :| 0 <= i < |entries| && entries[i].valid && entries[i].ip == x;
        assert after[i].valid && after[i].ip == x;
      }
    }
    if Slot(entries, ip).Some? {
      assert after[Slot(entries, ip).value].valid;
    }
  }

  lemma RemovedPending(requests: seq<Request>, i: nat)
    requires i < |requests| && forall j :: 0 <= j < |requests| && j != i ==> requests[j].ip != requests[i].ip
    ensures forall x :: Pending(Removed(requests, i), x) <==> Pending(requests, x) && x != requests[i].ip
  {
    var after := Removed(requests, i);
    forall x ensures Pending(after, x) <==> Pending(requests, x) && x != requests[i].ip {
      if Pending(after, x) {
        var k :| 0 <= k < |after| && after[k].ip == x;
        assert requests[if k < i then k else k + 1].ip == x;
      }
      if Pending(requests, x) && x != requests[i].ip {
        var k :| 0 <= k < |requests| && requests[k].ip == x;
        assert after[if k < i then k else k - 1].ip == x;
      }
    }
  }

  lemma InsertPending(s: Shared, mac: Mac, ip: Ip4, now: nat)
    requires Shape(s)
    ensures forall x :: Pending(Insert(s, mac, ip, now).requests, x) <==> Pending(s.requests, x) && x != ip
  {
    hide Stored, Slot;
    var i := IndexOf(s.requests, ip);
    if i.Some? {
      RemovedPending(s.requests, i.value);
    }
  }

  lemma SeparatePending(s: Shared)
    requires Separate(s.entries, s.requests)
    ensures forall k :: 0 <= k < |s.entries| && s.entries[k].valid ==> !Pending(s.requests, s.entries[k].ip)
  {
  }

  lemma InsertShape(s: Shared, mac: Mac, ip: Ip4, now: nat)
    requires Shape(s)
    ensures Shape(Insert(s, mac, ip, now))
  {
    var t := Insert(s, mac, ip, now);
    var i := IndexOf(s.requests, ip);
    if i.Some? {
      RemovedShape(s, s.(requests := Removed(s.requests, i.value)), i.value);
    }
    InsertPending(s, mac, ip, now);
    SeparatePending(s);
    StoredHolds(s.entries, mac, ip, now);
    forall k, j | 0 <= k < |t.entries| && 0 <= j < |t.requests| && t.entries[k].valid
      ensures t.entries[k].ip != t.requests[j].ip
    {
      assert Pending(t.requests, t.requests[j].ip);
    }
  }

  lemma InsertTruthful(cfg: Config, s: Shared, mac: Mac, ip: Ip4, now: nat)
    requires Truthful(s) && UniqueEntries(s.entries)
    ensures Truthful(Insert(s, mac, ip, now)) && LastAccepted(Insert(s, mac, ip, now).log, ip) == Some(mac)
  {
    hide EventOk, LogOk, LastAsk, LastAccepted, Unstored, Asks, QueuedIn, FlushedIn, ReportedIn, LostIn;
    var t := Insert(s, mac, ip, now);
    Append(cfg, s.log, Accepted(ip, mac, Slot(s.entries, ip).Some?));
    StoredHolds(s.entries, mac, ip, now);
    StoredReplaces(s.entries, mac, ip, now);
  }

  /** A valid entry for ip holds the new mapping: the old one, if any, was overwritten. */
  lemma StoredReplaces(entries: seq<Entry>, mac: Mac, ip: Ip4, now: nat)
    requires UniqueEntries(entries)
    ensures var after := Stored(entries, mac, ip, now);
            forall k :: 0 <= k < |after| && after[k].valid && after[k].ip == ip ==>
                after[k] == Entry(mac, ip, now, true)
  {
  }

  /** After storing, an entry is an old one or holds the new mapping. */
  lemma StoredHolds(entries: seq<Entry>, mac: Mac, ip: Ip4, now: nat)
    ensures var after := Stored(entries, mac, ip, now);
            forall k :: 0 <= k < |after| && after[k].valid ==>
              after[k] == Entry(mac, ip, now, true) || after[k] == entries[k]
  {
  }

  lemma InsertPaced(cfg: Config, s: Shared, mac: Mac, ip: Ip4, now: nat)
    requires Paced(s, now) && Shape(s)
    ensures Paced(Insert(s, mac, ip, now), now)
  {
    hide EventOk, LogOk, LastAsk, LastAccepted, Unstored, Asks, QueuedIn, FlushedIn, ReportedIn, LostIn;
    hide Cached, Pending, Slot, Stored;
    var t := Insert(s, mac, ip, now);
    Append(cfg, s.log, Accepted(ip, mac, Slot(s.entries, ip).Some?));
    StoredHolds(s.entries, mac, ip, now);
    if LastAsk(s.log, ip).Some? {
      assert Settled(s, ip, now);
    }
    var i := IndexOf(s.requests, ip);
    if i.Some? {
      RemovedIndex(s.requests, i.value);
    }
    hide Removed;
    forall k | 0 <= k < |t.requests| ensures LastAsk(t.log, t.requests[k].ip) == Some(t.requests[k].sent) {
      assert t.requests[k] == s.requests[if i.None? || k < i.value then k else k + 1];
    }
    InsertIdle(cfg, s, mac, ip, now);
  }

  lemma InsertIdle(cfg: Config, s: Shared, mac: Mac, ip: Ip4, now: nat)
    requires Paced(s, now) && Shape(s)
    ensures var t := Insert(s, mac, ip, now); forall x :: LastAsk(t.log, x).Some? ==> Settled(t, x, now)
  {
    hide EventOk, LogOk, LastAsk, LastAccepted, Unstored, Asks, QueuedIn, FlushedIn, ReportedIn, LostIn;
    hide Cached, Pending, Slot, Stored, Shape;
    var t := Insert(s, mac, ip, now);
    Append(cfg, s.log, Accepted(ip, mac, Slot(s.entries, ip).Some?));
    InsertPending(s, mac, ip, now);
    StoredCached(s.entries, mac, ip, now);
    forall x | LastAsk(t.log, x).Some? ensures Settled(t, x, now) {
      assert Settled(s, x, now);
    }
  }

  /** Accepting a mapping keeps the invariant and takes the waiting frames, all of them good for
      that address, into the hands of the packet thread. */
  lemma InsertKeeps(cfg: Config, s: Shared, mac: Mac, ip: Ip4, now: nat)
    requires Inv(cfg, s, now, multiset{})
    ensures Inv(cfg, Insert(s, mac, ip, now), now, InHand(s, ip))
    ensures var waiting := Detached(s, ip); waiting.Some? ==> forall p :: p in waiting.value.packets ==>
            Good(cfg, ip, p)
    ensures LastAccepted(Insert(s, mac, ip, now).log, ip) == Some(mac)
  {
    hide Good, Truthful, Shape, Paced, Retrying, Counted, Balanced, LastAccepted, Ordered, Numbered;
    ShapeDistinct(s);
    InsertedNumbered(s, mac, ip, now);
    InsertedOrdered(s, mac, ip, now);
    var t := Insert(s, mac, ip, now);
    Append(cfg, s.log, Accepted(ip, mac, Slot(s.entries, ip).Some?));
    InsertShape(s, mac, ip, now);
    InsertTruthful(cfg, s, mac, ip, now) by { assert UniqueEntries(s.entries) by { ShapeUnique(s); } }
    InsertPaced(cfg, s, mac, ip, now);
    InsertRetrying(cfg, s, mac, ip, now);
    InsertCounted(cfg, s, mac, ip, now);
    InsertBalanced(cfg, s, mac, ip, now);
    DetachedGood(cfg, s, ip, now);
  }

  /** The frames that inserting a mapping for ip takes from the queue. */
  function InHand(s: Shared, ip: Ip4): multiset<Packet>
  {
    match Detached(s, ip)
    case None => multiset{}
    case Some(r) => multiset(r.packets)
  }

  lemma ShapeUnique(s: Shared)
    requires Shape(s)
    ensures UniqueEntries(s.entries)
  {
  }

  lemma InsertBalanced(cfg: Config, s: Shared, mac: Mac, ip: Ip4, now: nat)
    requires Balanced(s, multiset{})
    ensures Balanced(Insert(s, mac, ip, now), InHand(s, ip))
  {
    hide EventOk, LogOk, LastAsk, LastAccepted, Unstored, Asks, QueuedIn, FlushedIn, ReportedIn, LostIn;
    Append(cfg, s.log, Accepted(ip, mac, Slot(s.entries, ip).Some?));
    var i := IndexOf(s.requests, ip);
    if i.Some? {
      WaitingRemoved(s.requests, i.value);
    }
  }

  lemma InsertRetrying(cfg: Config, s: Shared, mac: Mac, ip: Ip4, now: nat)
    requires Retrying(cfg, s, now)
    ensures Retrying(cfg, Insert(s, mac, ip, now), now)
  {
    hide Good;
    var i := IndexOf(s.requests, ip);
    if i.Some? {
      RemovedRetrying(cfg, s, Insert(s, mac, ip, now), i.value, now);
    }
  }

  lemma DetachedGood(cfg: Config, s: Shared, ip: Ip4, now: nat)
    requires Retrying(cfg, s, now)
    ensures var waiting := Detached(s, ip); waiting.Some? ==> forall p :: p in waiting.value.packets ==>
            Good(cfg, ip, p)
  {
    hide Good;
  }

  lemma InsertCounted(cfg: Config, s: Shared, mac: Mac, ip: Ip4, now: nat)
    requires Counted(s)
    ensures Counted(Insert(s, mac, ip, now))
  {
    hide EventOk, LogOk, Slot, Stored, Removed, Counted, LastAsk, LastAccepted, Unstored, Asks, QueuedIn;
    hide FlushedIn, ReportedIn, LostIn;
    Append(cfg, s.log, Accepted(ip, mac, Slot(s.entries, ip).Some?));
    RemovedCounted(s, Insert(s, mac, ip, now), IndexOf(s.requests, ip));
  }
}
