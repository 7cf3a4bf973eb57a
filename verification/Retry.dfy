/** What one sweep does to the list of requests, and how long a request can stay unanswered. */
module Retry {
  import opened Bytes
  import opened Routing
  import opened ArpState
  import opened Reactions
  import opened History
  import opened Invariants
  import opened Sections
  import opened System

  // ----- one sweep -----

  predicate Doomed(r: Request, now: nat)
  {
    now - r.sent >= 1 && r.times >= 5
  }

  function Retried(r: Request, now: nat): Request
  {
    if now - r.sent >= 1 then r.(sent := now, times := r.times + 1) else r
  }

  /** The requests that outlive a sweep, in order, each visited once. */
  function Survivors(requests: seq<Request>, now: nat): seq<Request>
  {
    if requests == [] then []
    else if Doomed(requests[0], now) then Survivors(requests[1..], now)
    else [Retried(requests[0], now)] + Survivors(requests[1..], now)
  }

  ghost predicate AllKept(a: seq<Request>, b: seq<Request>)
  {
    |a| == |b| && forall i :: 0 <= i < |a| ==> Kept(a[i], b[i])
  }

  lemma {:induction false} SurvivorsKept(a: seq<Request>, b: seq<Request>, now: nat)
    requires AllKept(a, b)
    ensures AllKept(Survivors(a, now), Survivors(b, now))
  {
    hide Kept;
    if a != [] {
      SurvivorsKept(a[1..], b[1..], now);
      assert Kept(a[0], b[0]);
      RetriedKept(a[0], b[0], now);
    }
  }

  lemma RetriedKept(q: Request, r: Request, now: nat)
    requires Kept(q, r)
    ensures Kept(Retried(q, now), Retried(r, now)) && (Doomed(q, now) <==> Doomed(r, now))
  {
  }

  lemma GrownConcat(a: seq<Request>, b: seq<Request>, c: seq<Request>, d: seq<Request>, fromId: nat)
    requires Grown(a, c, fromId) && AllKept(b, d)
    ensures Grown(a + b, c + d, fromId)
  {
    hide Kept;
    var x, y := a + b, c + d;
    forall i | 0 <= i < |x| ensures Kept(x[i], y[|y| - |x| + i]) {
      if i < |a| {
        assert Kept(a[i], c[|c| - |a| + i]);
      } else {
        assert Kept(b[i - |a|], d[i - |a|]);
      }
    }
  }

  lemma GrownSplit(a: seq<Request>, b: seq<Request>, k: nat, fromId: nat)
    requires Grown(a, b, fromId) && k <= |a|
    ensures Grown(a[..|a| - k], b[..|b| - k], fromId) && AllKept(a[|a| - k..], b[|b| - k..])
  {
    hide Kept;
    var x, y := a[..|a| - k], b[..|b| - k];
    forall i | 0 <= i < |x| ensures Kept(x[i], y[|y| - |x| + i]) {
      assert Kept(a[i], b[|b| - |a| + i]);
    }
    var u, v := a[|a| - k..], b[|b| - k..];
    forall i | 0 <= i < k ensures Kept(u[i], v[i]) {
      assert Kept(a[|a| - k + i], b[|b| - |a| + (|a| - k + i)]);
    }
  }

  lemma GrownTrans(a: seq<Request>, b: seq<Request>, c: seq<Request>, fromId: nat, thenFrom: nat)
    requires Grown(a, b, fromId) && Grown(b, c, thenFrom) && fromId <= thenFrom
    ensures Grown(a, c, fromId)
  {
    hide Kept;
    forall i | 0 <= i < |a| ensures Kept(a[i], c[|c| - |a| + i]) {
      var j := |b| - |a| + i;
      assert Kept(b[j], c[|c| - |b| + j]);
      KeptTrans(a[i], b[j], c[|c| - |b| + j]);
    }
    forall i | 0 <= i < |c| - |a| ensures c[i].id >= fromId {
      if i >= |c| - |b| {
        var j := i - (|c| - |b|);
        assert Kept(b[j], c[|c| - |b| + j]);
        KeptId(b[j], c[|c| - |b| + j]);
      }
    }
  }

  lemma KeptId(q: Request, r: Request)
    requires Kept(q, r)
    ensures q.id == r.id
  {
  }

  /** What is left of the visited part, followed by what the sweep will make of the rest. */
  function Expected(requests: seq<Request>, k: nat, now: nat): seq<Request>
    requires k <= |requests|
  {
    requests[..|requests| - k] + Survivors(requests[|requests| - k..], now)
  }

  lemma ExpectedStep(requests: seq<Request>, r: Request, k: nat, now: nat)
    requires 0 < k <= |requests| && !Doomed(requests[|requests| - k], now)
    requires r == Retried(requests[|requests| - k], now)
    ensures Expected(requests[|requests| - k := r], k - 1, now) == Expected(requests, k, now)
  {
    var i := |requests| - k;
    var after := requests[i := r];
    assert requests[i..][1..] == requests[i + 1..] == after[i + 1..];
    assert after[..i + 1] == requests[..i] + [r];
  }

  /** Expiry: the visited request disappears; everything else is kept, whatever error generation
      pushed in front of it. */
  lemma ExpectedExpiry(a: seq<Request>, b: seq<Request>, k: nat, now: nat, fromId: nat)
    requires 0 < k <= |a| && Grown(a, b, fromId) && Doomed(a[|a| - k], now)
    ensures Grown(Expected(a, k, now), Expected(Removed(b, |b| - k), k - 1, now), fromId)
  {
    hide Kept;
    GrownSplit(a, b, k, fromId);
    var c := Removed(b, |b| - k);
    var x, y := a[|a| - k..], b[|b| - k..];
    assert c[..|c| - (k - 1)] == b[..|b| - k];
    assert c[|c| - (k - 1)..] == y[1..];
    var u, v := x[1..], y[1..];
    forall i | 0 <= i < k - 1 ensures Kept(u[i], v[i]) {
      assert Kept(x[i + 1], y[i + 1]);
    }
    SurvivorsKept(u, v, now);
    GrownConcat(a[..|a| - k], Survivors(x, now), b[..|b| - k], Survivors(v, now), fromId);
  }

  lemma {:induction false} SweepGrows(cfg: Config, s: Shared, k: nat, now: nat, inFlight: multiset<Packet>)
    requires Inv(cfg, s, now, inFlight) && k <= |s.requests|
    ensures Grown(Expected(s.requests, k, now), SweepFrom(s, cfg, k, now).requests, s.nextId)
    decreases k
  {
    hide Inv, Visit, Grown, Expected, Quiet;
    if k == 0 {
      assert Expected(s.requests, 0, now) == s.requests by { ExpectedDone(s.requests, now); }
      GrownRefl(s.requests, s.nextId);
    } else {
      var u := Visit(s, cfg, k, now);
      VisitKeeps(cfg, s, k, now, inFlight);
      VisitGrows(cfg, s, k, now, inFlight);
      SweepGrows(cfg, u, k - 1, now, inFlight);
      GrownTrans(Expected(s.requests, k, now), Expected(u.requests, k - 1, now),
                 SweepFrom(u, cfg, k - 1, now).requests, s.nextId, u.nextId);
    }
  }

  lemma ExpectedDone(requests: seq<Request>, now: nat)
    ensures Expected(requests, 0, now) == requests
  {
    assert requests[|requests|..] == [];
  }

  lemma AskRequests(cfg: Config, s: Shared, i: nat, name: string, now: nat)
    requires i < |s.requests|
    ensures var q := s.requests[i]; var t := Ask(s, cfg, i, name, now);
            t.requests == s.requests[i := q.(sent := now, times := q.times + 1)] && t.nextId == s.nextId
  {
    hide FindIface;
  }

  lemma VisitGrows(cfg: Config, s: Shared, k: nat, now: nat, inFlight: multiset<Packet>)
    requires Inv(cfg, s, now, inFlight) && 0 < k <= |s.requests|
    ensures var u := Visit(s, cfg, k, now);
            Grown(Expected(s.requests, k, now), Expected(u.requests, k - 1, now), s.nextId) && s.nextId <= u.nextId
  {
    hide Inv, Grown, Expected, ReportAll, Ask, Extends, Kept;
    var i := |s.requests| - k;
    var q := s.requests[i];
    InvWaits(cfg, s, i, now, inFlight);
    if Doomed(q, now) {
      ExpireGrows(cfg, s, k, now, inFlight);
    } else {
      GrownRefl(Expected(s.requests, k, now), s.nextId);
      ExpectedStep(s.requests, Retried(q, now), k, now);
      if Due(q, now) {
        AskRequests(cfg, s, i, q.packets[0].iface, now);
      } else {
        assert s.requests[i := q] == s.requests;
      }
    }
  }

  lemma ExpireGrows(cfg: Config, s: Shared, k: nat, now: nat, inFlight: multiset<Packet>)
    requires Inv(cfg, s, now, inFlight) && 0 < k <= |s.requests| && Doomed(s.requests[|s.requests| - k], now)
    ensures var u := Visit(s, cfg, k, now);
            Grown(Expected(s.requests, k, now), Expected(u.requests, k - 1, now), s.nextId) && s.nextId <= u.nextId
  {
    hide Inv, Grown, Expected, ReportAll, LastAccepted, Kept;
    var q := s.requests[|s.requests| - k];
    ExpireKeeps(cfg, s, k, now, inFlight);
    ExpectedExpiry(s.requests, ReportAll(s, cfg, q.packets, now).requests, k, now, s.nextId);
  }

  lemma InvWaits(cfg: Config, s: Shared, i: nat, now: nat, inFlight: multiset<Packet>)
    requires Inv(cfg, s, now, inFlight) && i < |s.requests|
    ensures Waits(s.requests[i], now) && s.requests[i].id < s.nextId
  {
  }

  /** The sweep of a timer iteration terminates, visits exactly the requests that were pending when the
      iteration began, whatever entries it has just timed out, and destroys exactly those with five ARP
      requests sent, the last at least a second ago. What remains is the requests created meanwhile,
      followed by the survivors in their order, each retried when due and perhaps with more frames in
      front. */
  lemma SweepIsCorrect(cfg: Config, run: seq<Action>, now: nat)
    requires Run(cfg, run).clock <= now
    ensures var s := Run(cfg, run).shared;
            && Grown(Survivors(s.requests, now), Tick(s, cfg, now).requests, s.nextId)
            && forall i :: 0 <= i < |s.requests| ==> s.requests[i].id < s.nextId
  {
    hide Inv, Grown, Survivors, SweepFrom, Run, PcOk;
    var st := Run(cfg, run);
    var s := st.shared;
    RunKeepsInv(cfg, run);
    TimePasses(cfg, s, st.clock, now, InFlight(st.pc));
    AgeKeeps(cfg, s, now, InFlight(st.pc));
    var aged := s.(entries := AgedEntries(s.entries, now));
    SweepGrows(cfg, aged, |s.requests|, now, InFlight(st.pc));
    assert s.requests[|s.requests| - |s.requests|..] == s.requests;
    assert Expected(s.requests, |s.requests|, now) == Survivors(s.requests, now);
    forall i | 0 <= i < |s.requests| ensures s.requests[i].id < s.nextId {
      InvWaits(cfg, s, i, now, InFlight(st.pc));
    }
  }

  // ----- six sweeps -----

  /** A request of that id has been asked for n times by T, or more often. */
  ghost predicate Progress(s: Shared, id: nat, n: nat, T: nat)
  {
    && id < s.nextId
    && forall i :: 0 <= i < |s.requests| && s.requests[i].id == id ==>
         (s.requests[i].times >= n && s.requests[i].sent <= T) || s.requests[i].times > n
  }

  lemma GrownProgress(s: Shared, t: Shared, id: nat, n: nat, T: nat)
    requires Progress(s, id, n, T) && Grown(s.requests, t.requests, s.nextId) && s.nextId <= t.nextId
    ensures Progress(t, id, n, T)
  {
    forall i | 0 <= i < |t.requests| && t.requests[i].id == id
      ensures (t.requests[i].times >= n && t.requests[i].sent <= T) || t.requests[i].times > n
    {
      var j := i - (|t.requests| - |s.requests|);
      assert j >= 0 && Kept(s.requests[j], t.requests[|t.requests| - |s.requests| + j]);
    }
  }

  lemma {:induction false} SurvivorsProgress(requests: seq<Request>, now: nat, i: nat)
    requires i < |Survivors(requests, now)|
    ensures exists j :: 0 <= j < |requests| && !Doomed(requests[j], now)
                        && Survivors(requests, now)[i] == Retried(requests[j], now)
  {
    if Doomed(requests[0], now) {
      SurvivorsProgress(requests[1..], now, i);
      var j :| 0 <= j < |requests[1..]| && !Doomed(requests[1..][j], now) &&
          Survivors(requests[1..], now)[i] == Retried(requests[1..][j], now);
      assert requests[j + 1] == requests[1..][j];
    } else if i > 0 {
      SurvivorsProgress(requests[1..], now, i - 1);
      var j :| 0 <= j < |requests[1..]| && !Doomed(requests[1..][j], now) &&
          Survivors(requests[1..], now)[i - 1] == Retried(requests[1..][j], now);
      assert requests[j + 1] == requests[1..][j];
    }
  }

  /** One sweep: progress is never lost, and a sweep later than T makes one step of it. */
  lemma TickProgress(cfg: Config, s: Shared, id: nat, n: nat, T: nat, now: nat, inFlight: multiset<Packet>)
    requires Inv(cfg, s, now, inFlight) && Progress(s, id, n, T)
    ensures Progress(Tick(s, cfg, now), id, n, T)
    ensures now > T ==> Progress(Tick(s, cfg, now), id, n + 1, now)
  {
    hide Inv, Grown, SweepFrom, Survivors;
    var aged := s.(entries := AgedEntries(s.entries, now));
    AgeKeeps(cfg, s, now, inFlight);
    SweepGrows(cfg, aged, |s.requests|, now, inFlight);
    SweepKeeps(cfg, aged, |s.requests|, now, inFlight);
    assert s.requests[|s.requests| - |s.requests|..] == s.requests;
    var sv := aged.(requests := Survivors(s.requests, now));
    assert Expected(s.requests, |s.requests|, now) == sv.requests;
    forall i | 0 <= i < |sv.requests| && sv.requests[i].id == id
      ensures (sv.requests[i].times >= n && sv.requests[i].sent <= T) || sv.requests[i].times > n
      ensures now > T ==> sv.requests[i].times >= n + 1 && sv.requests[i].sent <= now
    {
      SurvivorsProgress(s.requests, now, i);
      var j :| 0 <= j < |s.requests| && !Doomed(s.requests[j], now) && sv.requests[i] == Retried(s.requests[j], now);
      InvWaits(cfg, s, j, now, inFlight);
    }
    GrownProgress(sv, Tick(s, cfg, now), id, n, T);
    if now > T {
      GrownProgress(sv, Tick(s, cfg, now), id, n + 1, now);
    }
  }

  /** No step loses progress. */
  lemma StepProgress(cfg: Config, st: Sys, a: Action, id: nat, n: nat, T: nat)
    requires SysInv(cfg, st) && Progress(st.shared, id, n, T)
    ensures Progress(Apply(cfg, st, a).shared, id, n, T)
  {
    hide Inv, PcOk, React, Tick, Proceeded;
    if Enabled(cfg, st, a) {
      match a.step {
        case Receive(f, name) => ReceiveProgress(cfg, st, f, name, a.now, id, n, T);
        case Proceed => ProceedProgress(cfg, st, a.now, id, n, T);
        case Timer =>
          TimePasses(cfg, st.shared, st.clock, a.now, InFlight(st.pc));
          TickProgress(cfg, st.shared, id, n, T, a.now, InFlight(st.pc));
      }
    }
  }

  lemma ReceiveProgress(cfg: Config, st: Sys, f: Frame, name: string, now: nat, id: nat, n: nat, T: nat)
    requires Progress(st.shared, id, n, T)
    ensures Progress(Received(cfg, st.shared, f, FindIface(cfg.ifs, name), name, now).0, id, n, T)
  {
    hide React, FindIface, NextHop, Lookup, Stored, Slot, Unrouted;
    var s := st.shared;
    match React(cfg, f, FindIface(cfg.ifs, name)) {
      case Ignore =>
      case Fail =>
      case Answer(_) =>
      case SendRouted(_, _) =>
      case Learn(ip, mac, _) =>
        var i := IndexOf(s.requests, ip);
        if i.Some? {
          assert forall k :: 0 <= k < |s.requests| - 1 ==>
            Removed(s.requests, i.value)[k] == s.requests[if k < i.value then k else k + 1];
        }
    }
  }

  lemma ProceedProgress(cfg: Config, st: Sys, now: nat, id: nat, n: nat, T: nat)
    requires SysInv(cfg, st) && Enabled(cfg, st, Action(Proceed, now)) && Progress(st.shared, id, n, T)
    ensures Progress(Proceeded(cfg, st.shared, st.pc, now).0, id, n, T)
  {
    hide Good, Inv, QueueAndAsk, FindIface, LastAccepted, Grown;
    match st.pc {
      case Ready =>
      case Found(_, _) =>
      case Missed(out) =>
        var s := st.shared;
        TimePasses(cfg, s, st.clock, now, InFlight(st.pc));
        QueueGrows(cfg, s, out, now, InFlight(st.pc));
        GrownProgress(s, QueueAndAsk(s, cfg, out.hop, out.pkt, now), id, n, T);
      case Flushing(_, _, _, _, _) =>
    }
  }

  lemma QueueGrows(cfg: Config, s: Shared, out: Outgoing, now: nat, inFlight: multiset<Packet>)
    requires Inv(cfg, s, now, inFlight) && Good(cfg, out.hop, out.pkt)
    ensures var t := QueueAndAsk(s, cfg, out.hop, out.pkt, now);
            Grown(s.requests, t.requests, s.nextId) && s.nextId <= t.nextId
  {
    hide Good, QueueAndAsk, Grown, LastAccepted;
    QueueExtends(cfg, s, out.hop, out.pkt, now);
  }

  /** Marks pick enabled iterations of the timer thread at strictly increasing times. */
  ghost predicate Marked(cfg: Config, run: seq<Action>, marks: seq<nat>)
  {
    && (forall j :: 0 <= j < |marks| ==> marks[j] < |run| && run[marks[j]].step.Timer?)
    && (forall j :: 0 <= j < |marks| ==> Run(cfg, run[..marks[j]]).clock <= run[marks[j]].now)
    && (forall j :: 0 < j < |marks| ==> marks[j - 1] < marks[j] && run[marks[j - 1]].now < run[marks[j]].now)
  }

  /** After the first c marked sweeps, and whatever else happened, c steps of progress were made. */
  lemma {:induction false} MarkedProgress(cfg: Config, run: seq<Action>, marks: seq<nat>, c: nat, p: nat, id: nat)
    requires Marked(cfg, run, marks) && 1 <= c <= |marks| && marks[c - 1] < p <= |run|
    requires id < Run(cfg, run[..marks[0]]).shared.nextId
    ensures Progress(Run(cfg, run[..p]).shared, id, c, run[marks[c - 1]].now)
    decreases p
  {
    hide SysInv, Progress, Apply;
    var q := p - 1;
    var st, a := Run(cfg, run[..q]), run[q];
    assert run[..p][..q] == run[..q];
    RunKeepsInv(cfg, run[..q]);
    if q > marks[c - 1] {
      MarkedProgress(cfg, run, marks, c, q, id);
      StepProgress(cfg, st, a, id, c, run[marks[c - 1]].now);
    } else {
      if c == 1 {
        StartProgress(cfg, st, id);
        TimerProgress(cfg, st, a, id, 0, st.clock);
      } else {
        MarkedProgress(cfg, run, marks, c - 1, q, id);
        TimerProgress(cfg, st, a, id, c - 1, run[marks[c - 2]].now);
      }
    }
  }

  lemma StartProgress(cfg: Config, st: Sys, id: nat)
    requires SysInv(cfg, st) && id < st.shared.nextId
    ensures Progress(st.shared, id, 0, st.clock)
  {
    hide Good, PcOk;
    forall i | 0 <= i < |st.shared.requests| ensures st.shared.requests[i].times >= 1 {
      InvWaits(cfg, st.shared, i, st.clock, InFlight(st.pc));
    }
  }

  lemma TimerProgress(cfg: Config, st: Sys, a: Action, id: nat, n: nat, T: nat)
    requires SysInv(cfg, st) && Progress(st.shared, id, n, T)
    requires a.step.Timer? && st.clock <= a.now && (T < a.now || n == 0)
    ensures Progress(Apply(cfg, st, a).shared, id, n + 1, a.now)
  {
    hide Inv, PcOk, Tick;
    TimePasses(cfg, st.shared, st.clock, a.now, InFlight(st.pc));
    if T < a.now {
      TickProgress(cfg, st.shared, id, n, T, a.now, InFlight(st.pc));
    } else {
      OnceAsked(cfg, st.shared, id, a.now, InFlight(st.pc));
      TickProgress(cfg, st.shared, id, 1, a.now, a.now, InFlight(st.pc));
    }
  }

  lemma OnceAsked(cfg: Config, s: Shared, id: nat, now: nat, inFlight: multiset<Packet>)
    requires Inv(cfg, s, now, inFlight) && id < s.nextId
    ensures Progress(s, id, 1, now)
  {
    forall i | 0 <= i < |s.requests| ensures s.requests[i].times >= 1 && s.requests[i].sent <= now {
      InvWaits(cfg, s, i, now, inFlight);
    }
  }

  /** Six sweeps at strictly increasing times end every request that was pending before them, by
      expiry if nothing resolved it, whatever else happens before, between and after the six. */
  lemma SixSweepsEndEpisode(cfg: Config, run: seq<Action>, marks: seq<nat>, id: nat)
    requires Marked(cfg, run, marks) && |marks| == 6
    requires id < Run(cfg, run[..marks[0]]).shared.nextId
    ensures forall i :: 0 <= i < |Run(cfg, run).shared.requests| ==> Run(cfg, run).shared.requests[i].id != id
  {
    hide Inv, PcOk, Run;
    MarkedProgress(cfg, run, marks, 6, |run|, id);
    assert run[..|run|] == run;
    RunKeepsInv(cfg, run);
    var st := Run(cfg, run);
    forall i | 0 <= i < |st.shared.requests| ensures st.shared.requests[i].times <= MAX_ASKS {
      InvWaits(cfg, st.shared, i, st.clock, InFlight(st.pc));
    }
  }
}
