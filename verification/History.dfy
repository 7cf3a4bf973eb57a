/** What the log says: the latest accepted mapping, the latest ARP request, how many requests an
    episode sent, and where every queued frame went. */
module History {
  import opened Bytes
  import opened ArpState

  type Log = seq<Event>

  /** The hardware address of the most recently accepted ARP message for ip. */
  function LastAccepted(log: Log, ip: Ip4): Option<Mac>
  {
    if log == [] then None
    else
      var e := log[|log| - 1];
      if e.Accepted? && e.ip == ip then Some(e.mac) else LastAccepted(log[..|log| - 1], ip)
  }

  /** When the latest ARP request for ip was sent. */
  function LastAsk(log: Log, ip: Ip4): Option<nat>
  {
    if log == [] then None
    else
      var e := log[|log| - 1];
      if e.Asked? && e.ip == ip then Some(e.time) else LastAsk(log[..|log| - 1], ip)
  }

  /** Since the latest ARP request for ip, a mapping for ip was accepted that found no slot. */
  predicate Unstored(log: Log, ip: Ip4)
  {
    log != [] &&
    var e := log[|log| - 1];
    if e.Asked? && e.ip == ip then false
    else (e.Accepted? && e.ip == ip && !e.stored) || Unstored(log[..|log| - 1], ip)
  }

  /** How many ARP requests the pending request with that id has sent. */
  function Asks(log: Log, id: nat): nat
  {
    if log == [] then 0
    else
      var e := log[|log| - 1];
      Asks(log[..|log| - 1], id) + if e.Asked? && e.id == id then 1 else 0
  }

  function QueuedBy(e: Event): multiset<Packet>
  {
    if e.Queued? then multiset{e.pkt} else multiset{}
  }

  function FlushedBy(e: Event): multiset<Packet>
  {
    if e.Delivered? && e.queued then multiset{e.pkt} else multiset{}
  }

  function ReportedBy(e: Event): multiset<Packet>
  {
    if e.Expired? then multiset(e.reported) else multiset{}
  }

  /** The frames in front of the reported ones: they were pushed during the expiry loop. */
  function LostBy(e: Event): multiset<Packet>
  {
    if e.Expired? && |e.reported| <= |e.request.packets|
    then multiset(e.request.packets[..|e.request.packets| - |e.reported|]) else multiset{}
  }

  function Sum(log: Log, f: Event -> multiset<Packet>): multiset<Packet>
  {
    if log == [] then multiset{} else Sum(log[..|log| - 1], f) + f(log[|log| - 1])
  }

  function Waiting(requests: seq<Request>): multiset<Packet>
  {
    if requests == [] then multiset{} else multiset(requests[0].packets) + Waiting(requests[1..])
  }

  lemma AppendOne(log: Log, e: Event)
    ensures (log + [e])[..|log|] == log && (log + [e])[|log|] == e
  {
  }

  lemma WaitingCons(requests: seq<Request>, head: Request, rest: seq<Request>)
    requires requests == [head] + rest
    ensures Waiting(requests) == multiset(head.packets) + Waiting(rest)
  {
    assert requests[1..] == rest;
  }

  lemma AddBoth(h: multiset<Packet>, a: multiset<Packet>, b: multiset<Packet>, c: multiset<Packet>)
    requires a + b == c
    ensures (h + a) + b == h + c
  {
  }

  lemma WaitingUpdate(requests: seq<Request>, i: nat, r: Request)
    requires i < |requests|
    ensures Waiting(requests[i := r]) + multiset(requests[i].packets) == Waiting(requests) + multiset(r.packets)
  {
    WaitingRemoved(requests, i);
    WaitingRemoved(requests[i := r], i);
    assert Removed(requests[i := r], i) == Removed(requests, i);
  }

  lemma {:induction false} WaitingRemoved(requests: seq<Request>, i: nat)
    requires i < |requests|
    ensures Waiting(Removed(requests, i)) + multiset(requests[i].packets) == Waiting(requests)
  {
    hide Waiting;
    var head, rest := requests[0], requests[1..];
    assert requests == [head] + rest;
    WaitingCons(requests, head, rest);
    if i == 0 {
      assert Removed(requests, i) == rest;
    } else {
      WaitingRemoved(rest, i - 1);
      assert Removed(requests, i) == [head] + Removed(rest, i - 1);
      hide Removed;
      WaitingCons(Removed(requests, i), head, Removed(rest, i - 1));
      AddBoth(multiset(head.packets), Waiting(Removed(rest, i - 1)), multiset(requests[i].packets), Waiting(rest));
    }
  }
}
