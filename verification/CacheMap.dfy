/** The array of cache entries is a bounded map from addresses to mappings. */
module CacheMap {
  import opened Bytes
  import opened ArpState
  import opened Invariants
  import opened Sections
  import opened System
  import opened Routing

  datatype Mapping = Mapping(mac: Mac, added: nat)

  ghost function View(entries: seq<Entry>): (m: map<Ip4, Mapping>)
    requires UniqueEntries(entries)
    ensures forall ip :: ip in m <==> Cached(entries, ip)
    ensures forall i :: 0 <= i < |entries| && entries[i].valid ==>
              entries[i].ip in m && m[entries[i].ip] == Mapping(entries[i].mac, entries[i].added)
  {
    map i | 0 <= i < |entries| && entries[i].valid :: entries[i].ip := Mapping(entries[i].mac, entries[i].added)
  }

  /** The number of keys is the number of valid entries. */
  lemma {:induction false} ViewSize(entries: seq<Entry>)
    requires UniqueEntries(entries)
    ensures |View(entries)| <= |entries|
    ensures |View(entries)| == |entries| <==> AllValid(entries)
  {
    hide View, Cached;
    if entries == [] {
      assert View(entries) == map[] by { NothingCached(entries); }
    } else {
      var n := |entries| - 1;
      var rest, e := entries[..n], entries[n];
      ViewSize(rest);
      KeysOfPrefix(entries);
      if e.valid {
        FreshInPrefix(entries);
        assert View(entries).Keys == View(rest).Keys + {e.ip};
      } else {
        assert View(entries).Keys == View(rest).Keys;
      }
      assert |View(entries).Keys| == |View(entries)| && |View(rest).Keys| == |View(rest)|;
      assert AllValid(entries) <==> AllValid(rest) && e.valid;
    }
  }

  predicate AllValid(entries: seq<Entry>)
  {
    forall i :: 0 <= i < |entries| ==> entries[i].valid
  }

  lemma NothingCached(entries: seq<Entry>)
    requires entries == []
    ensures forall ip :: !Cached(entries, ip)
  {
  }

  lemma FreshInPrefix(entries: seq<Entry>)
    requires UniqueEntries(entries) && entries != [] && entries[|entries| - 1].valid
    ensures !Cached(entries[..|entries| - 1], entries[|entries| - 1].ip)
  {
  }

  lemma KeysOfPrefix(entries: seq<Entry>)
    requires UniqueEntries(entries) && entries != []
    ensures forall ip :: Cached(entries, ip) <==>
              Cached(entries[..|entries| - 1], ip) || (entries[|entries| - 1].valid && entries[|entries| - 1].ip == ip)
  {
    var n := |entries| - 1;
    forall ip ensures Cached(entries, ip) <==> Cached(entries[..n], ip) || (entries[n].valid && entries[n].ip == ip) {
      if Cached(entries, ip) {
        var i :| 0 <= i < |entries| && entries[i].valid && entries[i].ip == ip;
        assert i < n ==> entries[..n][i].valid && entries[..n][i].ip == ip;
      }
      if Cached(entries[..n], ip) {
        var i :| 0 <= i < n && entries[..n][i].valid && entries[..n][i].ip == ip;
        assert entries[i].valid && entries[i].ip == ip;
      }
    }
  }

  /** Lookup is map lookup. */
  lemma LookupRefines(entries: seq<Entry>, ip: Ip4)
    requires UniqueEntries(entries)
    ensures Lookup(entries, ip) == if ip in View(entries) then Some(View(entries)[ip].mac) else None
  {
    LookupIsMembership(entries, ip);
  }

  lemma StoredUnique(entries: seq<Entry>, mac: Mac, ip: Ip4, now: nat)
    requires UniqueEntries(entries)
    ensures UniqueEntries(Stored(entries, mac, ip, now))
  {
  }

  /** A key's value is that of the valid entry that holds it. */
  lemma ViewAt(entries: seq<Entry>, ip: Ip4) returns (i: nat)
    requires UniqueEntries(entries) && ip in View(entries)
    ensures i < |entries| && entries[i].valid && entries[i].ip == ip
    ensures View(entries)[ip] == Mapping(entries[i].mac, entries[i].added)
  {
    var k :| 0 <= k < |entries| && entries[k].valid && entries[k].ip == ip;
    i := k;
  }

  /** Insert is map update when the address is a key or a slot is free, and changes nothing when the
      array is full of other addresses. */
  lemma StoredRefines(entries: seq<Entry>, mac: Mac, ip: Ip4, now: nat)
    requires UniqueEntries(entries)
    ensures UniqueEntries(Stored(entries, mac, ip, now))
    ensures View(Stored(entries, mac, ip, now)) ==
            if ip in View(entries) || |View(entries)| < |entries|
            then View(entries)[ip := Mapping(mac, now)] else View(entries)
  {
    hide View, Cached;
    ViewSize(entries);
    StoredUnique(entries, mac, ip, now);
    SlotExists(entries, ip);
    var after := Stored(entries, mac, ip, now);
    if Slot(entries, ip).Some? {
      var slot := Slot(entries, ip).value;
      var m, v := View(after), View(entries)[ip := Mapping(mac, now)];
      StoredKeys(entries, mac, ip, now);
      hide Slot;
      assert m.Keys == v.Keys;
      forall x | x in m ensures m[x] == v[x] {
        var i := ViewAt(after, x);
        assert i != slot ==> after[i] == entries[i];
      }
      assert m == v;
    }
  }

  lemma SlotExists(entries: seq<Entry>, ip: Ip4)
    ensures Slot(entries, ip).Some? <==> Cached(entries, ip) || !AllValid(entries)
  {
  }

  lemma StoredCaches(entries: seq<Entry>, mac: Mac, ip: Ip4, now: nat, x: Ip4)
    requires Slot(entries, ip).Some?
    ensures Cached(Stored(entries, mac, ip, now), x) <==> x == ip || Cached(entries, x)
  {
    var slot := Slot(entries, ip).value;
    var after := Stored(entries, mac, ip, now);
    assert entries[slot].valid ==> entries[slot].ip == ip;
    hide Slot, Stored;
    assert after == entries[slot := Entry(mac, ip, now, true)];
    if x == ip {
      assert after[slot].valid && after[slot].ip == x;
    } else if Cached(entries, x) {
      var i :| 0 <= i < |entries| && entries[i].valid && entries[i].ip == x;
      assert after[i].valid && after[i].ip == x;
    }
    if Cached(after, x) && x != ip {
      var i :| 0 <= i < |after| && after[i].valid && after[i].ip == x;
      assert entries[i].valid && entries[i].ip == x;
    }
  }

  lemma StoredKeys(entries: seq<Entry>, mac: Mac, ip: Ip4, now: nat)
    requires UniqueEntries(entries) && Slot(entries, ip).Some? && UniqueEntries(Stored(entries, mac, ip, now))
    ensures View(Stored(entries, mac, ip, now)).Keys == View(entries).Keys + {ip}
  {
    hide Slot, Stored, Cached, View;
    forall x ensures Cached(Stored(entries, mac, ip, now), x) <==> Cached(entries, x) || x == ip {
      StoredCaches(entries, mac, ip, now, x);
    }
  }

  /** The timeout pass removes exactly the keys added more than fifteen seconds ago. */
  lemma AgedRefines(entries: seq<Entry>, now: nat)
    requires UniqueEntries(entries)
    ensures UniqueEntries(AgedEntries(entries, now))
    ensures View(AgedEntries(entries, now)) ==
            map ip | ip in View(entries) && now - View(entries)[ip].added <= 15 :: View(entries)[ip]
  {
    hide View, Cached;
    var aged := AgedEntries(entries, now);
    var v := View(entries);
    var w := map ip | ip in v && now - v[ip].added <= 15 :: v[ip];
    forall ip ensures ip in View(aged) ==> ip in w && View(aged)[ip] == w[ip] {
      if ip in View(aged) {
        var i := ViewAt(aged, ip);
        assert entries[i] == aged[i];
      }
    }
    forall ip | ip in w ensures ip in View(aged) {
      var i := ViewAt(entries, ip);
      assert aged[i] == entries[i];
    }
    assert View(aged).Keys == w.Keys;
  }

  /** In every run the map exists, holds at most 100 keys, and an insert removes the pending request
      for its address whether or not the mapping is stored. */
  lemma CacheIsBoundedMap(cfg: Config, run: seq<Action>, mac: Mac, ip: Ip4, now: nat)
    ensures var s := Run(cfg, run).shared;
            && UniqueEntries(s.entries) && |s.entries| == 100 && |View(s.entries)| <= 100
            && !Pending(Insert(s, mac, ip, now).requests, ip)
            && (Pending(s.requests, ip) <==> Detached(s, ip).Some?)
  {
    hide Run, PcOk, Good, View, Cached, Insert, Retrying, Paced, Counted, Balanced, Truthful, LogOk;
    RunKeepsInv(cfg, run);
    var s := Run(cfg, run).shared;
    ViewSize(s.entries);
    InsertPending(s, mac, ip, now);
  }
}
