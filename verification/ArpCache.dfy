/** The cache of sr_arpcache.c: an array of entries scanned linearly and a linked list of requests
    relinked in place. Every operation is proved to compute its function of ArpState. */
module ArpCache {
  import opened Bytes
  import opened ArpState

  /** struct sr_arpreq. The ghost id records which allocation the node is. */
  class Node {
    ghost const id: nat
    const ip: Ip4
    var sent: nat
    var times: nat
    var packets: seq<Packet>
    var next: Node?

    constructor (ip: Ip4, next: Node?, ghost id: nat)
      ensures this.ip == ip && this.next == next && this.id == id
      ensures sent == 0 && times == 0 && packets == []
    {
      this.ip, this.next, this.id := ip, next, id;
      sent, times, packets := 0, 0, [];
    }

    ghost function Value(): Request
      reads this`sent, this`times, this`packets
    {
      Request(id, ip, sent, times, packets)
    }
  }

  ghost function NodeAt(spine: seq<Node>, i: nat): Node?
  {
    if i < |spine| then spine[i] else null
  }

  ghost predicate Distinct<T>(s: seq<T>)
  {
    forall i, j :: 0 <= i < j < |s| ==> s[i] != s[j]
  }

  lemma RemovedAt<T>(s: seq<T>, at: nat)
    requires at < |s|
    ensures forall i :: 0 <= i < |s| - 1 ==> Removed(s, at)[i] == s[if i < at then i else i + 1]
    ensures Distinct(s) ==> Distinct(Removed(s, at)) && forall i :: 0 <= i < |s| && i != at ==> s[i] != s[at]
  {
  }

  lemma OthersDiffer<T>(s: seq<T>, at: nat)
    requires Distinct(s) && at < |s|
    ensures forall i :: 0 <= i < |s| && i != at ==> s[i] != s[at]
  {
  }

  lemma RemovedNodes<T>(s: seq<T>, at: nat)
    requires Distinct(s) && at < |s|
    ensures s[at] !in Removed(s, at) && forall n :: n in Removed(s, at) ==> n in s
  {
  }

  /** The nodes of spine are linked in order and no node occurs twice. */
  ghost predicate Linked(spine: seq<Node>)
    reads spine`next
  {
    && (forall i :: 0 <= i < |spine| ==> spine[i].next == NodeAt(spine, i + 1))
    && Distinct(spine)
  }

  ghost function Values(spine: seq<Node>): (r: seq<Request>)
    reads spine`sent, spine`times, spine`packets
    ensures |r| == |spine| && forall i :: 0 <= i < |spine| ==> r[i] == spine[i].Value()
  {
    if spine == [] then [] else Values(spine[..|spine| - 1]) + [spine[|spine| - 1].Value()]
  }

  lemma LinkedAt(spine: seq<Node>, i: nat)
    requires Linked(spine) && i < |spine|
    ensures spine[i].next == NodeAt(spine, i + 1) && Distinct(spine)
  {
  }

  lemma ValuesUpdated(spine: seq<Node>, was: seq<Request>, at: nat)
    requires at < |spine| == |was| && forall i :: 0 <= i < |spine| && i != at ==> spine[i].Value() == was[i]
    ensures Values(spine) == was[at := spine[at].Value()]
  {
  }

  lemma ConsLinked(req: Node, spine: seq<Node>)
    requires Linked(spine) && req !in spine && req.next == NodeAt(spine, 0)
    ensures Linked([req] + spine) && Values([req] + spine) == [req.Value()] + Values(spine)
  {
    var longer := [req] + spine;
    assert forall i :: 0 < i < |longer| ==> longer[i] == spine[i - 1];
    hide Linked;
    assert forall i :: 0 < i < |longer| ==> Values(longer)[i] == Values(spine)[i - 1];
  }

  /** When the node before it has been made to skip the one at that place. */
  lemma UnlinkedIsLinked(was: seq<Node>, at: nat)
    requires Distinct(was) && at < |was|
    requires forall i :: 0 <= i < |was| && i != at && i + 1 != at ==> was[i].next == NodeAt(was, i + 1)
    requires at > 0 ==> was[at - 1].next == NodeAt(was, at + 1)
    ensures Linked(Removed(was, at))
  {
    RemovedAt(was, at);
    hide Removed, Distinct;
    var r := Removed(was, at);
    forall i | 0 <= i < |r| ensures r[i].next == NodeAt(r, i + 1) {
      assert r[i] == was[if i < at then i else i + 1];
      assert i + 1 < |r| ==> r[i + 1] == was[if i + 1 < at then i + 1 else i + 2];
    }
  }

  ghost predicate AreElements<T>(all: set<T>, s: seq<T>)
  {
    (forall i :: 0 <= i < |s| ==> s[i] in all) && forall x :: x in all ==> x in s
  }

  lemma ElementIn<T>(all: set<T>, s: seq<T>, i: nat)
    requires AreElements(all, s) && i < |s|
    ensures s[i] in all
  {
  }

  lemma OnlyElements<T>(all: set<T>, s: seq<T>)
    requires AreElements(all, s)
    ensures forall x :: x in all ==> x in s
  {
  }

  lemma ElementsWithout<T>(all: set<T>, s: seq<T>, at: nat)
    requires AreElements(all, s) && Distinct(s) && at < |s|
    ensures AreElements(all - {s[at]}, Removed(s, at))
  {
    RemovedIndex(s, at);
    OthersDiffer(s, at);
    hide Removed, Distinct;
    var rest := Removed(s, at);
    forall x | x in all - {s[at]} ensures x in rest {
      var k :| 0 <= k < |s| && s[k] == x;
      assert rest[if k < at then k else k - 1] == x;
    }
  }

  lemma ElementsWith<T>(all: set<T>, s: seq<T>, x: T)
    requires AreElements(all, s)
    ensures AreElements(all + {x}, [x] + s)
  {
    var more := [x] + s;
    assert forall i :: 0 < i < |more| ==> more[i] == s[i - 1];
    forall y | y in all + {x} ensures y in more {
      if y in all {
        var k :| 0 <= k < |s| && s[k] == y;
        assert more[k + 1] == y;
      } else {
        assert more[0] == y;
      }
    }
  }

  lemma RemovedHead(was: seq<Node>, at: nat)
    requires at < |was|
    ensures NodeAt(Removed(was, at), 0) == if at == 0 then NodeAt(was, 1) else was[0]
  {
  }

  lemma RemovedValues(was: seq<Node>, values: seq<Request>, at: nat)
    requires at < |was| == |values| && forall i :: 0 <= i < |was| ==> was[i].Value() == values[i]
    ensures Values(Removed(was, at)) == Removed(values, at)
  {
    RemovedAt(was, at);
    RemovedAt(values, at);
    hide Removed;
    var u, v := Values(Removed(was, at)), Removed(values, at);
    assert forall i :: 0 <= i < |v| ==> u[i] == v[i];
  }

  class Cache {
    const entries: array<Entry>
    var requests: Node?
    ghost var spine: seq<Node>
    ghost var repr: set<Node>     // the nodes on the list
    ghost var nextId: nat
    ghost var log: seq<Event>

    ghost predicate Valid()
      reads this, spine
    {
      && entries.Length == CACHE_SIZE && requests == NodeAt(spine, 0) && Linked(spine)
      && AreElements(repr, spine)
    }

    ghost function State(): (s: Shared)
      reads this, spine, entries
    {
      Shared(entries[..], Values(spine), nextId, log)
    }

    /** sr_arpcache_init. */
    constructor ()
      ensures Valid() && fresh(entries) && spine == [] && repr == {} && log == [] && nextId == 0
      ensures forall i :: 0 <= i < CACHE_SIZE ==> entries[i] == Entry(ZERO_MAC, ZERO_IP, 0, false)
    {
      entries := new Entry[CACHE_SIZE](_ => Entry(ZERO_MAC, ZERO_IP, 0, false));
      requests := null;
      spine, repr, nextId, log := [], {}, 0, [];
    }

    /** sr_arpcache_lookup. */
    method LookUp(ip: Ip4) returns (r: Option<Mac>)
      ensures r == Lookup(entries[..], ip)
    {
      r := None;
      for i := 0 to entries.Length
        invariant r == Lookup(entries[..i], ip)
      {
        assert entries[..i + 1][..i] == entries[..i];
        if entries[i].valid && entries[i].ip == ip {
          r := Some(entries[i].mac);
        }
      }
      assert entries[..entries.Length] == entries[..];
    }

    /** The first loop of sr_arpcache_queuereq. */
    method FindRequest(ip: Ip4) returns (req: Node?, ghost at: nat)
      requires Valid()
      ensures IndexOf(Values(spine), ip) == (if req == null then None else Some(at))
      ensures req == NodeAt(spine, at) && at <= |spine|
      ensures req != null ==> req.ip == ip && req in spine
    {
      hide Linked, Values, Distinct, AreElements;
      req := requests;
      at := 0;
      while req != null && req.ip != ip
        invariant at <= |spine| && req == NodeAt(spine, at)
        invariant forall i :: 0 <= i < at ==> spine[i].ip != ip
        decreases |spine| - at
      {
        LinkedAt(spine, at);
        req := req.next;
        at := at + 1;
      }
    }

    /** A new request at the head of the list. */
    method AddRequest(ip: Ip4) returns (req: Node)
      requires Valid()
      modifies this`requests, this`spine, this`repr, this`nextId
      ensures Valid() && fresh(req) && spine == [req] + old(spine) && nextId == old(nextId) + 1
      ensures repr == old(repr) + {req}
      ensures Values(spine) == [Request(old(nextId), ip, 0, 0, [])] + old(Values(spine))
    {
      hide Values, Linked, AreElements;
      req := new Node(ip, requests, nextId);
      ConsLinked(req, spine);
      ElementsWith(repr, spine, req);
      requests := req;
      spine := [req] + spine;
      repr := repr + {req};
      nextId := nextId + 1;
    }

    /** A frame at the head of a request's list. */
    method PushPacket(req: Node, ghost at: nat, pkt: Packet)
      requires Valid() && at < |spine| && spine[at] == req
      modifies req`packets
      ensures Valid()
      ensures var q := old(Values(spine))[at];
              Values(spine) == old(Values(spine))[at := q.(packets := Pushed(q.packets, pkt))]
    {
      hide Values, Distinct, Linked, AreElements;
      ghost var was := Values(spine);
      LinkedAt(spine, at);
      OthersDiffer(spine, at);
      if |pkt.buf| > 0 {
        req.packets := [pkt] + req.packets;
      }
      ValuesUpdated(spine, was, at);
    }

    /** The first half of sr_arpcache_queuereq: the pending request for ip, or a new one. */
    method FindOrAdd(ip: Ip4) returns (req: Node, ghost at: nat)
      requires Valid()
      modifies this`requests, this`spine, this`repr, this`nextId
      ensures Valid() && fresh(repr - old(repr))
      ensures spine == old(spine) || (spine == [req] + old(spine) && fresh(req))
      ensures at < |spine| && spine[at] == req
      ensures IndexOf(Values(spine), ip) == Some(at)
      ensures Values(spine) == Prepared(old(Values(spine)), old(nextId), ip)
      ensures nextId == if Values(spine) == old(Values(spine)) then old(nextId) else old(nextId) + 1
    {
      hide Linked, Distinct, Values, IndexOf, AreElements;
      var found: Node?;
      found, at := FindRequest(ip);
      if found == null {
        req := AddRequest(ip);
        at := 0;
        QueueFinds(Values(spine), 0, ip);
      } else {
        req := found;
      }
    }

    /** What sr_arpcache_queuereq does to the list: the frame joins the request for ip. */
    method Enqueue(ip: Ip4, pkt: Packet) returns (req: Node, ghost at: nat)
      requires Valid()
      modifies this`requests, this`spine, this`repr, this`nextId, repr
      ensures Valid() && fresh(repr - old(repr))
      ensures spine == old(spine) || (spine == [req] + old(spine) && fresh(req))
      ensures at < |spine| && spine[at] == req
      ensures var q := Queue(old(State()), ip, pkt);
              Values(spine) == q.requests && nextId == q.nextId && IndexOf(q.requests, ip) == Some(at)
    {
      hide Linked, Distinct, Values, Queue, Pushed, IndexOf, Prepared, NodeAt, AreElements;
      QueueIs(State(), ip, pkt);
      req, at := FindOrAdd(ip);
      ElementIn(repr, spine, at);
      PushPacket(req, at, pkt);
    }

    /** sr_arpcache_queuereq. */
    method QueueReq(ip: Ip4, pkt: Packet) returns (req: Node, ghost at: nat)
      requires Valid()
      modifies this`requests, this`spine, this`repr, this`nextId, this`log, repr
      ensures fresh(repr - old(repr))
      ensures Valid() && State() == Queue(old(State()), ip, pkt)
      ensures spine == old(spine) || (spine == [req] + old(spine) && fresh(req))
      ensures at < |spine| && spine[at] == req && IndexOf(State().requests, ip) == Some(at)
    {
      hide Linked, Distinct, Values, Queue, IndexOf, NodeAt, AreElements;
      QueueLogs(State(), ip, pkt);
      req, at := Enqueue(ip, pkt);
      if |pkt.buf| > 0 {
        log := log + [Queued(ip, pkt, req.id)];
      }
    }

    /** The counters after an ARP request for the node at that place was sent. */
    method MarkAsked(req: Node, ghost at: nat, now: nat)
      requires Valid() && at < |spine| && spine[at] == req
      modifies req`sent, req`times
      ensures Valid()
      ensures var q := old(Values(spine))[at];
              Values(spine) == old(Values(spine))[at := q.(sent := now, times := q.times + 1)]
    {
      hide Values, Distinct, Linked, AreElements;
      ghost var was := Values(spine);
      LinkedAt(spine, at);
      OthersDiffer(spine, at);
      req.sent := now;
      req.times := req.times + 1;
      ValuesUpdated(spine, was, at);
    }

    /** The pointer assignment that skips a node; nothing else changes. */
    method Bypass(req: Node, prev: Node?, ghost at: nat)
      requires Valid() && at < |spine| && spine[at] == req
      requires prev == if at == 0 then null else spine[at - 1]
      modifies this`requests, (if prev == null then {} else {prev})`next
      ensures requests == if at == 0 then NodeAt(spine, 1) else old(requests)
      ensures Distinct(spine) && forall i :: 0 <= i < |spine| && i + 1 != at ==> spine[i].next == NodeAt(spine, i + 1)
      ensures at > 0 ==> spine[at - 1].next == NodeAt(spine, at + 1)
      ensures req.next == old(req.next)
    {
      hide Distinct, AreElements;
      LinkedAt(spine, at);
      if prev != null {
        OthersDiffer(spine, at - 1);
        prev.next := req.next;
      } else {
        requests := req.next;
      }
    }

    /** Takes the node at that place out of the list; the node itself does not change. */
    method Unlink(req: Node, prev: Node?, ghost at: nat)
      requires Valid() && at < |spine| && spine[at] == req
      requires prev == if at == 0 then null else spine[at - 1]
      modifies this`requests, this`spine, this`repr, (if prev == null then {} else {prev})`next
      ensures Valid() && spine == Removed(old(spine), at) && repr == old(repr) - {req}
      ensures Values(spine) == Removed(old(Values(spine)), at)
      ensures req.next == old(req.next) && req.Value() == old(req.Value())
    {
      hide Values, Distinct, Removed, Linked, AreElements;
      ghost var was, values := spine, Values(spine);
      RemovedHead(was, at);
      LinkedAt(was, at);
      ElementsWithout(repr, was, at);
      Bypass(req, prev, at);
      spine := Removed(was, at);
      repr := repr - {req};
      UnlinkedIsLinked(was, at);
      RemovedValues(was, values, at);
    }

    /** The first part of sr_arpcache_insert: the first request for ip is unlinked. */
    method Detach(ip: Ip4) returns (req: Node?, ghost at: nat)
      requires Valid()
      modifies this`requests, this`spine, this`repr, repr
      ensures Valid() && at <= |old(spine)|
      ensures IndexOf(old(Values(spine)), ip) == (if req == null then None else Some(at))
      ensures req == null ==> spine == old(spine) && Values(spine) == old(Values(spine))
      ensures req != null ==> at < |old(spine)| && req == old(spine)[at] && req.Value() == old(Values(spine))[at]
      ensures req != null ==> spine == Removed(old(spine), at) && Values(spine) == Removed(old(Values(spine)), at)
      ensures req != null ==> req !in spine
      ensures repr == old(repr) - (if req == null then {} else {req})
    {
      hide Removed, Linked, Values, Distinct, AreElements;
      req := requests;
      at := 0;
      var prev: Node? := null;
      while req != null && req.ip != ip
        invariant at <= |spine| && req == NodeAt(spine, at) && prev == if at == 0 then null else spine[at - 1]
        invariant forall i :: 0 <= i < at ==> spine[i].ip != ip
        modifies {}
        decreases |spine| - at
      {
        LinkedAt(spine, at);
        prev := req;
        req := req.next;
        at := at + 1;
      }
      if req != null {
        LinkedAt(spine, at);
        QueueFinds(Values(spine), at, ip);
        RemovedNodes(spine, at);
        if at > 0 {
          ElementIn(repr, spine, at - 1);
        }
        Unlink(req, prev, at);
      }
    }

    /** The slot loop of sr_arpcache_insert. */
    method FindSlot(ip: Ip4) returns (slot: Option<nat>)
      ensures slot == Slot(entries[..], ip)
    {
      slot := None;
      var i := 0;
      while i < entries.Length
        invariant 0 <= i <= entries.Length
        invariant forall k :: 0 <= k < i ==> !(entries[k].valid && entries[k].ip == ip)
        invariant slot.None? ==> forall k :: 0 <= k < i ==> entries[k].valid
        invariant slot.Some? ==> slot.value < i && !entries[slot.value].valid
        invariant slot.Some? ==> forall k :: 0 <= k < slot.value ==> entries[k].valid
      {
        if entries[i].valid && entries[i].ip == ip {
          SlotIsHit(entries[..], ip, i);
          return Some(i);
        }
        if slot.None? && !entries[i].valid {
          slot := Some(i);
        }
        i := i + 1;
      }
      SlotIsFree(entries[..], ip, slot);
    }

    /** sr_arpcache_insert. */
    method InsertMapping(mac: Mac, ip: Ip4, now: nat) returns (req: Node?)
      requires Valid()
      modifies this`requests, this`spine, this`repr, this`log, repr, entries
      ensures Valid() && State() == Insert(old(State()), mac, ip, now)
      ensures req == null <==> Detached(old(State()), ip).None?
      ensures req != null ==> Some(req.Value()) == Detached(old(State()), ip)
      ensures (req == null || req !in spine) && repr <= old(repr)
    {
      hide Linked, Values, Slot, Insert, Detached, IndexOf, Removed, NodeAt, Distinct, AreElements;
      ghost var before := State();
      ghost var at: nat;
      req, at := Detach(ip);
      var slot := FindSlot(ip);
      InsertIs(before, mac, ip, now);
      if slot.Some? {
        entries[slot.value] := Entry(mac, ip, now, true);
      }
      log := log + [Accepted(ip, mac, slot.Some?)];
    }

    /** The timeout loop over the entries. */
    method ExpireEntries(now: nat)
      requires Valid()
      modifies entries
      ensures Valid() && State() == old(State()).(entries := AgedEntries(old(entries[..]), now))
    {
      for i := 0 to entries.Length
        invariant forall k :: 0 <= k < i ==> entries[k] == Aged(old(entries[k]), now)
        invariant forall k :: i <= k < entries.Length ==> entries[k] == old(entries[k])
      {
        if entries[i].valid && now - entries[i].added > CACHE_TIMEOUT {
          entries[i] := entries[i].(valid := false);
        }
      }
      assert entries[..] == AgedEntries(old(entries[..]), now);
    }

    /** The loop of sr_arpreq_destroy: the node by identity, and the one before it. */
    method FindNode(entry: Node) returns (req: Node?, prev: Node?, ghost at: nat)
      requires Valid()
      ensures req == null ==> entry !in spine
      ensures req != null ==> req == entry && at < |spine| && spine[at] == entry
      ensures req != null ==> prev == if at == 0 then null else spine[at - 1]
      ensures forall k :: 0 <= k < |spine| && spine[k] == entry ==> k == at
    {
      req := requests;
      prev := null;
      at := 0;
      while req != null && req != entry
        invariant at <= |spine| && req == NodeAt(spine, at) && prev == if at == 0 then null else spine[at - 1]
        invariant forall i :: 0 <= i < at ==> spine[i] != entry
        decreases |spine| - at
      {
        prev := req;
        req := req.next;
        at := at + 1;
      }
    }

    /** sr_arpreq_destroy: unlinks the node if it is on the list and frees it. */
    method DestroyRequest(entry: Node, ghost at: nat, ghost reported: seq<Packet>)
      requires Valid()
      requires entry in spine ==> at < |spine| && spine[at] == entry
      modifies this`requests, this`spine, this`repr, this`log, repr
      ensures repr <= old(repr)
      ensures Valid()
      ensures entry in old(spine) ==> State() == Retire(old(State()), at, reported) && spine == Removed(old(spine), at)
      ensures entry !in old(spine) ==> State() == old(State()) && spine == old(spine)
    {
      hide Retire, Removed, Values, Linked, Distinct, AreElements;
      var req, prev, k := FindNode(entry);
      if req != null {
        assert k == at;
        RetireIs(State(), at, reported);
        ghost var q := entry.Value();
        if at > 0 {
          ElementIn(repr, spine, at - 1);
        }
        Unlink(req, prev, at);
        log := log + [Expired(q, reported)];
      }
    }
  }

  lemma InsertIs(s: Shared, mac: Mac, ip: Ip4, now: nat)
    ensures var i, slot := IndexOf(s.requests, ip), Slot(s.entries, ip);
            && Insert(s, mac, ip, now) ==
               Shared(if slot.Some? then s.entries[slot.value := Entry(mac, ip, now, true)] else s.entries,
                      if i.Some? then Removed(s.requests, i.value) else s.requests,
                      s.nextId, s.log + [Accepted(ip, mac, slot.Some?)])
            && Detached(s, ip) == if i.Some? then Some(s.requests[i.value]) else None
  {
  }

  lemma RetireIs(s: Shared, at: nat, reported: seq<Packet>)
    requires at < |s.requests|
    ensures Retire(s, at, reported) ==
            Shared(s.entries, Removed(s.requests, at), s.nextId, s.log + [Expired(s.requests[at], reported)])
  {
  }

  lemma SlotIsHit(entries: seq<Entry>, ip: Ip4, i: nat)
    requires i < |entries| && entries[i].valid && entries[i].ip == ip
    requires forall k :: 0 <= k < i ==> !(entries[k].valid && entries[k].ip == ip)
    ensures Slot(entries, ip) == Some(i)
  {
  }

  lemma SlotIsFree(entries: seq<Entry>, ip: Ip4, slot: Option<nat>)
    requires forall k :: 0 <= k < |entries| ==> !(entries[k].valid && entries[k].ip == ip)
    requires slot.None? ==> forall k :: 0 <= k < |entries| ==> entries[k].valid
    requires slot.Some? ==> slot.value < |entries| && !entries[slot.value].valid
    requires slot.Some? ==> forall k :: 0 <= k < slot.value ==> entries[k].valid
    ensures Slot(entries, ip) == slot
  {
  }

  /** The list of requests once there is one for ip. */
  function Prepared(requests: seq<Request>, id: nat, ip: Ip4): (r: seq<Request>)
    ensures IndexOf(r, ip).Some?
  {
    if IndexOf(requests, ip).Some? then requests
    else
      var r := [Request(id, ip, 0, 0, [])] + requests;
      assert r[0].ip == ip;
      r
  }

  lemma QueueIs(s: Shared, ip: Ip4, pkt: Packet)
    ensures var prepared := Prepared(s.requests, s.nextId, ip);
            var at := IndexOf(prepared, ip).value;
            && Queue(s, ip, pkt) ==
               Shared(s.entries, prepared[at := prepared[at].(packets := Pushed(prepared[at].packets, pkt))],
                      if prepared == s.requests then s.nextId else s.nextId + 1,
                      s.log + if |pkt.buf| > 0 then [Queued(ip, pkt, prepared[at].id)] else [])
            && IndexOf(Queue(s, ip, pkt).requests, ip) == Some(at)
  {
    hide IndexOf, Pushed;
    var found := IndexOf(s.requests, ip);
    if found.Some? {
      QueueFinds(Queue(s, ip, pkt).requests, found.value, ip);
    } else {
      var r := Request(s.nextId, ip, 0, 0, []);
      var q := r.(packets := Pushed([], pkt));
      assert ([r] + s.requests)[0 := q] == [q] + s.requests;
      QueueFinds([r] + s.requests, 0, ip);
      QueueFinds(Queue(s, ip, pkt).requests, 0, ip);
    }
  }

  lemma QueueLogs(s: Shared, ip: Ip4, pkt: Packet)
    ensures var q := Queue(s, ip, pkt); var at := IndexOf(q.requests, ip).value;
            q.entries == s.entries && q.log == s.log + if |pkt.buf| > 0
                then [Queued(ip, pkt, q.requests[at].id)] else []
  {
    QueueIs(s, ip, pkt);
    hide IndexOf, Pushed, Prepared;
  }

  lemma QueueFinds(requests: seq<Request>, at: nat, ip: Ip4)
    requires at < |requests| && requests[at].ip == ip && forall i :: 0 <= i < at ==> requests[i].ip != ip
    ensures IndexOf(requests, ip) == Some(at)
  {
  }
}
