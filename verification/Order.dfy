/** In which order frames wait and leave. The queue for an address is what the log says was queued for
    it since it was last resolved or given up, the latest in front; a flush sends that queue from its
    front to its end. */
module Order {
  import opened Bytes
  import opened ArpState
  import opened History

  /** What an event makes of the frames that wait for ip. */
  function AfterEvent(e: Event, ip: Ip4, queue: seq<Packet>): seq<Packet>
  {
    match e
    case Queued(at, pkt, _) => if at == ip then [pkt] + queue else queue
    case Accepted(at, _, _) => if at == ip then [] else queue
    case Expired(request, _) => if request.ip == ip then [] else queue
    case _ => queue
  }

  /** The frames queued for ip since an ARP message for ip was last accepted or a request for ip last
      expired, the latest in front. */
  function QueuedSince(log: Log, ip: Ip4): seq<Packet>
  {
    if log == [] then [] else AfterEvent(log[|log| - 1], ip, QueuedSince(log[..|log| - 1], ip))
  }

  function PacketsFor(requests: seq<Request>, ip: Ip4): seq<Packet>
  {
    match IndexOf(requests, ip)
    case None => []
    case Some(i) => requests[i].packets
  }

  /** The requests hold what the log says, and nothing waits for any other address. */
  ghost predicate Ordered(s: Shared)
  {
    forall ip :: PacketsFor(s.requests, ip) == QueuedSince(s.log, ip)
  }

  ghost predicate DistinctIps(requests: seq<Request>)
  {
    forall i, j :: 0 <= i < j < |requests| ==> requests[i].ip != requests[j].ip
  }

  lemma QueuedSinceAppend(log: Log, e: Event)
    ensures forall ip :: QueuedSince(log + [e], ip) == AfterEvent(e, ip, QueuedSince(log, ip))
  {
    AppendOne(log, e);
  }

  lemma IndexIs(requests: seq<Request>, i: nat, ip: Ip4)
    requires i < |requests| && requests[i].ip == ip && DistinctIps(requests)
    ensures IndexOf(requests, ip) == Some(i)
  {
  }

  lemma PacketsAt(requests: seq<Request>, i: nat)
    requires i < |requests| && DistinctIps(requests)
    ensures PacketsFor(requests, requests[i].ip) == requests[i].packets
  {
    IndexIs(requests, i, requests[i].ip);
  }

  lemma PacketsNone(requests: seq<Request>, ip: Ip4)
    requires forall i :: 0 <= i < |requests| ==> requests[i].ip != ip
    ensures PacketsFor(requests, ip) == []
  {
  }

  /** Changing a request in place changes what waits for its address only. */
  lemma PacketsUpdated(requests: seq<Request>, i: nat, r: Request, ip: Ip4)
    requires i < |requests| && DistinctIps(requests) && r.ip == requests[i].ip
    ensures PacketsFor(requests[i := r], ip) == if ip == r.ip then r.packets else PacketsFor(requests, ip)
  {
    var after := requests[i := r];
    var at := IndexOf(requests, ip);
    if ip == r.ip {
      IndexIs(after, i, ip);
    } else if at.Some? {
      IndexIs(after, at.value, ip);
    } else {
      PacketsNone(after, ip);
    }
  }

  lemma PacketsAtHead(requests: seq<Request>, r: Request, ip: Ip4)
    requires DistinctIps([r] + requests)
    ensures PacketsFor([r] + requests, ip) == if ip == r.ip then r.packets else PacketsFor(requests, ip)
  {
    var after := [r] + requests;
    var at := IndexOf(requests, ip);
    if ip == r.ip {
      IndexIs(after, 0, ip);
    } else if at.Some? {
      assert after[at.value + 1] == requests[at.value];
      IndexIs(after, at.value + 1, ip);
    } else {
      PacketsNone(after, ip);
    }
  }

  lemma PacketsRemoved(requests: seq<Request>, i: nat, ip: Ip4)
    requires i < |requests| && DistinctIps(requests)
    ensures PacketsFor(Removed(requests, i), ip) == if ip == requests[i].ip then [] else PacketsFor(requests, ip)
  {
    var after := Removed(requests, i);
    RemovedIndex(requests, i);
    hide Removed;
    var at := IndexOf(requests, ip);
    if ip == requests[i].ip || at.None? {
      PacketsNone(after, ip);
    } else {
      assert DistinctIps(after);
      IndexIs(after, if at.value < i then at.value else at.value - 1, ip);
    }
  }

  // ----- every critical section keeps the order -----

  lemma LoggedOrdered(s: Shared, e: Event)
    requires Ordered(s) && !e.Queued? && !e.Accepted? && !e.Expired?
    ensures Ordered(Logged(s, e))
  {
    hide PacketsFor;
    QueuedSinceAppend(s.log, e);
  }

  /** A frame is put in front of a request's list. */
  lemma PushedOrdered(s: Shared, i: nat, pkt: Packet)
    requires Ordered(s) && i < |s.requests| && DistinctIps(s.requests)
    ensures var q := s.requests[i]; var r := q.(packets := [pkt] + q.packets);
            Ordered(Logged(s.(requests := s.requests[i := r]), Queued(q.ip, pkt, q.id)))
  {
    var q := s.requests[i];
    QueuedSinceAppend(s.log, Queued(q.ip, pkt, q.id));
    PacketsAt(s.requests, i);
    forall ip ensures PacketsFor(s.requests[i := q.(packets := [pkt] + q.packets)], ip)
                      == if ip == q.ip then [pkt] + q.packets else PacketsFor(s.requests, ip) {
      PacketsUpdated(s.requests, i, q.(packets := [pkt] + q.packets), ip);
    }
    hide PacketsFor, QueuedSince;
  }

  lemma NothingForHead(requests: seq<Request>, r: Request)
    requires DistinctIps([r] + requests)
    ensures PacketsFor(requests, r.ip) == []
  {
    var after := [r] + requests;
    assert forall i :: 0 <= i < |requests| ==> after[0].ip != after[i + 1].ip == requests[i].ip;
    PacketsNone(requests, r.ip);
  }

  /** A new request with one frame. */
  lemma AddedOrdered(s: Shared, r: Request, pkt: Packet, nextId: nat)
    requires Ordered(s) && DistinctIps([r] + s.requests) && r.packets == [pkt]
    ensures Ordered(Logged(s.(requests := [r] + s.requests, nextId := nextId), Queued(r.ip, pkt, r.id)))
  {
    hide PacketsFor, QueuedSince, DistinctIps;
    QueuedSinceAppend(s.log, Queued(r.ip, pkt, r.id));
    NothingForHead(s.requests, r);
    forall ip ensures PacketsFor([r] + s.requests, ip) == if ip == r.ip then [pkt] else PacketsFor(s.requests, ip) {
      PacketsAtHead(s.requests, r, ip);
    }
    assert [pkt] + [] == [pkt];
  }

  /** The counters of a request change. */
  lemma CountersOrdered(s: Shared, i: nat, r: Request)
    requires Ordered(s) && i < |s.requests| && DistinctIps(s.requests)
    requires r.ip == s.requests[i].ip && r.packets == s.requests[i].packets
    ensures Ordered(s.(requests := s.requests[i := r]))
  {
    PacketsAt(s.requests, i);
    forall ip ensures PacketsFor(s.requests[i := r], ip) == PacketsFor(s.requests, ip) {
      PacketsUpdated(s.requests, i, r, ip);
    }
  }

  lemma RetiredOrdered(s: Shared, i: nat, reported: seq<Packet>)
    requires Ordered(s) && i < |s.requests| && DistinctIps(s.requests)
    ensures Ordered(Retire(s, i, reported))
  {
    QueuedSinceAppend(s.log, Expired(s.requests[i], reported));
    forall ip ensures PacketsFor(Removed(s.requests, i), ip)
                      == if ip == s.requests[i].ip then [] else PacketsFor(s.requests, ip) {
      PacketsRemoved(s.requests, i, ip);
    }
    hide PacketsFor, QueuedSince, Removed;
  }

  lemma InsertedOrdered(s: Shared, mac: Mac, ip: Ip4, now: nat)
    requires Ordered(s) && DistinctIps(s.requests)
    ensures Ordered(Insert(s, mac, ip, now))
  {
    hide Slot, Stored;
    QueuedSinceAppend(s.log, Accepted(ip, mac, Slot(s.entries, ip).Some?));
    var t := Insert(s, mac, ip, now);
    var i := IndexOf(s.requests, ip);
    forall x ensures PacketsFor(t.requests, x) == if x == ip then [] else PacketsFor(s.requests, x) {
      if i.Some? {
        PacketsRemoved(s.requests, i.value, x);
      }
    }
    hide PacketsFor, QueuedSince, Insert, IndexOf;
  }

  // ----- which request a frame waits for -----

  /** The frames that joined the request of that id, the latest in front. */
  function QueuedTo(log: Log, id: nat): seq<Packet>
  {
    if log == [] then []
    else
      var e := log[|log| - 1];
      (if e.Queued? && e.id == id then [e.pkt] else []) + QueuedTo(log[..|log| - 1], id)
  }

  /** Every request holds all frames that ever joined it, and no other id was ever used. */
  ghost predicate Numbered(s: Shared)
  {
    && (forall i :: 0 <= i < |s.requests| ==> s.requests[i].packets == QueuedTo(s.log, s.requests[i].id))
    && (forall id :: id >= s.nextId ==> QueuedTo(s.log, id) == [])
  }

  ghost predicate DistinctIds(requests: seq<Request>, nextId: nat)
  {
    && (forall i, j :: 0 <= i < j < |requests| ==> requests[i].id != requests[j].id)
    && (forall i :: 0 <= i < |requests| ==> requests[i].id < nextId)
  }

  lemma QueuedToAppend(log: Log, e: Event)
    ensures forall id ::
              QueuedTo(log + [e], id) == (if e.Queued? && e.id == id then [e.pkt] else []) + QueuedTo(log, id)
  {
    AppendOne(log, e);
  }

  lemma LoggedNumbered(s: Shared, e: Event)
    requires Numbered(s) && !e.Queued?
    ensures Numbered(Logged(s, e))
  {
    QueuedToAppend(s.log, e);
    hide QueuedTo;
  }

  lemma PushedNumbered(s: Shared, i: nat, pkt: Packet)
    requires Numbered(s) && i < |s.requests| && DistinctIds(s.requests, s.nextId)
    ensures var q := s.requests[i]; var r := q.(packets := [pkt] + q.packets);
            Numbered(Logged(s.(requests := s.requests[i := r]), Queued(q.ip, pkt, q.id)))
  {
    QueuedToAppend(s.log, Queued(s.requests[i].ip, pkt, s.requests[i].id));
    hide QueuedTo;
  }

  lemma AddedNumbered(s: Shared, r: Request, pkt: Packet)
    requires Numbered(s) && DistinctIds(s.requests, s.nextId) && r.id == s.nextId && r.packets == [pkt]
    ensures Numbered(Logged(s.(requests := [r] + s.requests, nextId := s.nextId + 1), Queued(r.ip, pkt, r.id)))
  {
    QueuedToAppend(s.log, Queued(r.ip, pkt, r.id));
    hide QueuedTo;
    var t := Logged(s.(requests := [r] + s.requests, nextId := s.nextId + 1), Queued(r.ip, pkt, r.id));
    forall i | 0 <= i < |t.requests| ensures t.requests[i].packets == QueuedTo(t.log, t.requests[i].id) {
      if i > 0 {
        assert t.requests[i] == s.requests[i - 1];
      }
    }
  }

  lemma CountersNumbered(s: Shared, i: nat, r: Request)
    requires Numbered(s) && i < |s.requests| && r.id == s.requests[i].id && r.packets == s.requests[i].packets
    ensures Numbered(s.(requests := s.requests[i := r]))
  {
  }

  lemma RemovedNumbered(s: Shared, i: nat)
    requires Numbered(s) && i < |s.requests|
    ensures Numbered(s.(requests := Removed(s.requests, i)))
  {
    RemovedIndex(s.requests, i);
    hide QueuedTo, Removed;
  }

  lemma RetiredNumbered(s: Shared, i: nat, reported: seq<Packet>)
    requires Numbered(s) && i < |s.requests|
    ensures Numbered(Retire(s, i, reported))
  {
    hide Numbered, Removed;
    RemovedNumbered(s, i);
    LoggedNumbered(s.(requests := Removed(s.requests, i)), Expired(s.requests[i], reported));
  }

  lemma InsertedNumbered(s: Shared, mac: Mac, ip: Ip4, now: nat)
    requires Numbered(s)
    ensures Numbered(Insert(s, mac, ip, now))
  {
    hide Removed, Slot, Stored, IndexOf, QueuedTo;
    var i := IndexOf(s.requests, ip);
    if i.Some? {
      RemovedNumbered(s, i.value);
    }
    var t := s.(requests := Insert(s, mac, ip, now).requests);
    assert Numbered(t);
    LoggedNumbered(t, Accepted(ip, mac, Slot(s.entries, ip).Some?));
  }

  // ----- flushing -----

  /** The frames that the packet thread still has to flush, and the address it flushes them for. */
  datatype Debt = Debt(ip: Ip4, packets: seq<Packet>)

  function Owed(log: Log): Debt
  {
    if log == [] then Debt(ZERO_IP, [])
    else
      var rest, e := log[..|log| - 1], log[|log| - 1];
      if e.Accepted? then Debt(e.ip, QueuedSince(rest, e.ip))
      else if e.Delivered? && e.queued && Owed(rest).packets != [] then Owed(rest).(packets := Owed(rest).packets[1..])
      else Owed(rest)
  }

  /** A flush is over before the next mapping is accepted, and each of its deliveries is the frame at
      the front of what is still owed. */
  ghost predicate FlushesInOrder(log: Log)
  {
    log != [] ==>
      var rest, e := log[..|log| - 1], log[|log| - 1];
      && FlushesInOrder(rest)
      && (e.Accepted? ==> Owed(rest).packets == [])
      && (e.Delivered? && e.queued ==>
            Owed(rest).packets != [] && e.ip == Owed(rest).ip && e.pkt == Owed(rest).packets[0])
  }

  /** The log grew by nothing that belongs to a flush. */
  ghost predicate NoFlush(before: Log, after: Log)
  {
    before <= after && forall k :: |before| <= k < |after| ==> Unflushing(after[k])
  }

  predicate Unflushing(e: Event)
  {
    !e.Accepted? && !(e.Delivered? && e.queued)
  }

  lemma NoFlushTrans(a: Log, b: Log, c: Log)
    requires NoFlush(a, b) && NoFlush(b, c)
    ensures NoFlush(a, c)
  {
  }

  lemma {:induction false} NothingFlushed(before: Log, after: Log)
    requires NoFlush(before, after)
    ensures Owed(after) == Owed(before) && (FlushesInOrder(before) ==> FlushesInOrder(after))
    decreases |after|
  {
    if before == after {
    } else {
      var rest := after[..|after| - 1];
      NothingFlushed(before, rest);
      assert Unflushing(after[|rest|]);
    }
  }

  lemma OwedAppend(log: Log, e: Event)
    ensures Owed(log + [e]) ==
            if e.Accepted? then Debt(e.ip, QueuedSince(log, e.ip))
            else if e.Delivered? && e.queued && Owed(log).packets != []
                then Owed(log).(packets := Owed(log).packets[1..])
            else Owed(log)
    ensures FlushesInOrder(log + [e]) <==>
            && FlushesInOrder(log)
            && (e.Accepted? ==> Owed(log).packets == [])
            && (e.Delivered? && e.queued ==>
                  Owed(log).packets != [] && e.ip == Owed(log).ip && e.pkt == Owed(log).packets[0])
  {
    AppendOne(log, e);
  }

  /** The frames that were flushed from position j of the log on, in their order. */
  function Flushed(log: Log, j: nat): seq<Packet>
    requires j <= |log|
    decreases |log|
  {
    if j == |log| then []
    else
      var e := log[|log| - 1];
      Flushed(log[..|log| - 1], j) + if e.Delivered? && e.queued then [e.pkt] else []
  }

  /** As long as no other mapping is accepted, what was flushed and what is still owed make up the
      queue as it was when the mapping was accepted. */
  lemma {:induction false} FlushedThenOwed(log: Log, j: nat)
    requires FlushesInOrder(log) && j < |log| && log[j].Accepted?
    requires forall k :: j < k < |log| ==> !log[k].Accepted?
    ensures Owed(log).ip == log[j].ip
    ensures Flushed(log, j + 1) + Owed(log).packets == QueuedSince(log[..j], log[j].ip)
    decreases |log|
  {
    hide QueuedSince, FlushesInOrder;
    var n := |log| - 1;
    var rest := log[..n];
    assert log == rest + [log[n]];
    OwedAppend(rest, log[n]);
    if n == j {
      assert Flushed(log, j + 1) == [];
    } else {
      FlushedThenOwed(rest, j);
      assert rest[..j] == log[..j];
      hide Owed;
      OneMoreFlushed(log, j);
    }
  }

  lemma OneMoreFlushed(log: Log, j: nat)
    requires j + 1 < |log|
    ensures var rest, e := log[..|log| - 1], log[|log| - 1];
            Flushed(log, j + 1) == Flushed(rest, j + 1) + if e.Delivered? && e.queued then [e.pkt] else []
  {
  }
}
