/** What becomes of every frame that is queued. */
module Fate {
  import opened Bytes
  import opened Routing
  import opened ArpState
  import opened Reactions
  import opened History
  import opened Order
  import opened Invariants
  import opened Sections
  import opened System
  import opened Theorems
  import opened Retry

  // ----- frames by the request they joined -----

  /** The frames that joined requests with ids below n. */
  function QueuedBelow(log: Log, n: nat): multiset<Packet>
  {
    if log == [] then multiset{}
    else
      var e := log[|log| - 1];
      QueuedBelow(log[..|log| - 1], n) + if e.Queued? && e.id < n then multiset{e.pkt} else multiset{}
  }

  /** The frames that joined one of some requests. */
  function QueuedAmong(log: Log, ids: set<nat>): multiset<Packet>
  {
    if log == [] then multiset{}
    else
      var e := log[|log| - 1];
      QueuedAmong(log[..|log| - 1], ids) + if e.Queued? && e.id in ids then multiset{e.pkt} else multiset{}
  }

  lemma {:induction false} QueuedAmongNone(log: Log)
    ensures QueuedAmong(log, {}) == multiset{}
  {
    if log != [] {
      QueuedAmongNone(log[..|log| - 1]);
    }
  }

  lemma AmongStep(log: Log, ids: set<nat>)
    requires log != []
    ensures var e := log[|log| - 1];
            QueuedAmong(log, ids) ==
            QueuedAmong(log[..|log| - 1], ids) + if e.Queued? && e.id in ids then multiset{e.pkt} else multiset{}
  {
  }

  lemma ToStep(log: Log, id: nat)
    requires log != []
    ensures var e := log[|log| - 1];
            multiset(QueuedTo(log, id)) ==
            multiset(QueuedTo(log[..|log| - 1], id)) + if e.Queued? && e.id == id then multiset{e.pkt} else multiset{}
  {
    var rest, e := log[..|log| - 1], log[|log| - 1];
    if e.Queued? && e.id == id {
      assert multiset([e.pkt] + QueuedTo(rest, id)) == multiset{e.pkt} + multiset(QueuedTo(rest, id));
    } else {
      assert [] + QueuedTo(rest, id) == QueuedTo(rest, id);
    }
  }

  lemma {:induction false} QueuedAmongOneMore(log: Log, ids: set<nat>, id: nat)
    requires id !in ids
    ensures QueuedAmong(log, ids + {id}) == multiset(QueuedTo(log, id)) + QueuedAmong(log, ids)
  {
    if log != [] {
      hide QueuedAmong, QueuedTo;
      QueuedAmongOneMore(log[..|log| - 1], ids, id);
      AmongStep(log, ids + {id});
      AmongStep(log, ids);
      ToStep(log, id);
    }
  }

  lemma {:induction false} QueuedApart(log: Log, ids: set<nat>, n: nat)
    requires forall id :: id in ids ==> id >= n
    ensures QueuedAmong(log, ids) + QueuedBelow(log, n) <= QueuedIn(log)
  {
    if log != [] {
      var rest, e := log[..|log| - 1], log[|log| - 1];
      QueuedApart(rest, ids, n);
      assert QueuedIn(log) == QueuedIn(rest) + QueuedBy(e);
    }
  }

  lemma {:induction false} AllBelow(log: Log, n: nat)
    requires forall id :: id >= n ==> QueuedTo(log, id) == []
    ensures QueuedBelow(log, n) == QueuedIn(log)
  {
    if log != [] {
      var rest, e := log[..|log| - 1], log[|log| - 1];
      forall id | id >= n ensures QueuedTo(rest, id) == [] {
        assert QueuedTo(log, id) == [];
      }
      assert e.Queued? ==> QueuedTo(log, e.id) != [];
      AllBelow(rest, n);
      assert QueuedIn(log) == QueuedIn(rest) + QueuedBy(e);
    }
  }

  lemma {:induction false} BelowGrows(before: Log, after: Log, n: nat)
    requires before <= after
    ensures QueuedBelow(before, n) <= QueuedBelow(after, n)
    decreases |after|
  {
    if before != after {
      BelowGrows(before, after[..|after| - 1], n);
    }
  }

  function Ids(requests: seq<Request>): set<nat>
  {
    set i | 0 <= i < |requests| :: requests[i].id
  }

  /** What waits is among what joined the waiting requests. */
  lemma {:induction false} WaitingAmong(log: Log, requests: seq<Request>, nextId: nat)
    requires DistinctIds(requests, nextId)
    requires forall i :: 0 <= i < |requests| ==> requests[i].packets == QueuedTo(log, requests[i].id)
    ensures Waiting(requests) == QueuedAmong(log, Ids(requests))
    decreases |requests|
  {
    hide QueuedAmong, QueuedTo;
    if requests == [] {
      assert Ids(requests) == {};
      QueuedAmongNone(log);
    } else {
      var r, rest := requests[0], requests[1..];
      assert forall i :: 0 <= i < |rest| ==> rest[i] == requests[i + 1];
      WaitingAmong(log, rest, nextId);
      HeadId(requests, nextId);
      QueuedAmongOneMore(log, Ids(rest), r.id);
    }
  }

  lemma HeadId(requests: seq<Request>, nextId: nat)
    requires DistinctIds(requests, nextId) && requests != []
    ensures Ids(requests) == Ids(requests[1..]) + {requests[0].id} && requests[0].id !in Ids(requests[1..])
  {
    var rest := requests[1..];
    assert forall i :: 0 <= i < |rest| ==> rest[i] == requests[i + 1];
    forall id | id in Ids(requests) ensures id in Ids(rest) + {requests[0].id} {
      var i :| 0 <= i < |requests| && requests[i].id == id;
      if i > 0 {
        assert rest[i - 1].id == id;
      }
    }
  }

  // ----- the log only grows -----

  lemma {:induction false} LogGrows(cfg: Config, run: seq<Action>, p: nat)
    requires p <= |run|
    ensures Run(cfg, run[..p]).shared.log <= Run(cfg, run).shared.log
    decreases |run|
  {
    hide SysInv, Apply;
    if p == |run| {
      assert run[..p] == run;
    } else {
      var before := run[..|run| - 1];
      assert before[..p] == run[..p];
      LogGrows(cfg, before, p);
      RunKeepsInv(cfg, before);
      StepGrows(cfg, Run(cfg, before), run[|run| - 1]);
    }
  }

  lemma StepGrows(cfg: Config, st: Sys, a: Action)
    requires SysInv(cfg, st)
    ensures st.shared.log <= Apply(cfg, st, a).shared.log
  {
    hide Inv, Good, Received, Proceeded, Tick, LastAccepted;
    if Enabled(cfg, st, a) {
      TimePasses(cfg, st.shared, st.clock, a.now, InFlight(st.pc));
      match a.step {
        case Receive(f, name) => ReceivedGrows(cfg, st.shared, f, name, a.now);
        case Proceed => ProceededGrows(cfg, st.shared, st.pc, a.now);
        case Timer => TickKeeps(cfg, st.shared, a.now, InFlight(st.pc));
      }
    }
  }

  lemma ReceivedGrows(cfg: Config, s: Shared, f: Frame, name: string, now: nat)
    ensures s.log <= Received(cfg, s, f, FindIface(cfg.ifs, name), name, now).0.log
  {
    hide React, FindIface, NextHop, Lookup, Stored, Slot, Unrouted, IndexOf, Removed, Transmitted;
    match React(cfg, f, FindIface(cfg.ifs, name)) {
      case SendRouted(frame, _) =>
        var unknown := UnroutedLogs(s, cfg, frame);
      case _ =>
    }
  }

  lemma ProceededGrows(cfg: Config, s: Shared, pc: Pc, now: nat)
    ensures s.log <= Proceeded(cfg, s, pc, now).0.log
  {
    hide FindIface, Transmitted, Addressed, IndexOf, Pushed, AskEvent;
  }

  // ----- six sweeps -----

  /** Every frame that was queued before six sweeps at strictly increasing times has, after them, been
      flushed, reported unreachable or lost, or is in the hands of the packet thread, whatever else
      happened before, between and after the six. */
  lemma SixSweepsSettleFrames(cfg: Config, run: seq<Action>, marks: seq<nat>)
    requires Marked(cfg, run, marks) && |marks| == 6
    ensures var before, st := Run(cfg, run[..marks[0]]).shared.log, Run(cfg, run);
            QueuedIn(before) <= InFlight(st.pc) + FlushedIn(st.shared.log) + ReportedIn(st.shared.log)
                + LostIn(st.shared.log)
  {
    hide Run, PcOk, Good, Marked, QueuedIn, FlushedIn, ReportedIn, LostIn, QueuedTo, Waiting, Ordered, Retrying;
    assert marks[0] < |run| by { FirstMark(cfg, run, marks); }
    var first, st := Run(cfg, run[..marks[0]]), Run(cfg, run);
    var n, log := first.shared.nextId, st.shared.log;
    RunKeepsInv(cfg, run[..marks[0]]);
    RunKeepsInv(cfg, run);
    ShapeDistinct(st.shared);
    AllBelow(first.shared.log, n);
    LogGrows(cfg, run, marks[0]);
    BelowGrows(first.shared.log, log, n);
    WaitingAmong(log, st.shared.requests, st.shared.nextId);
    forall id | id in Ids(st.shared.requests) ensures id >= n {
      if id < n {
        SixSweepsEndEpisode(cfg, run, marks, id);
      }
    }
    QueuedApart(log, Ids(st.shared.requests), n);
    FramesAreConserved(cfg, run);
    Cancel(Waiting(st.shared.requests), QueuedBelow(log, n),
           InFlight(st.pc) + FlushedIn(log) + ReportedIn(log) + LostIn(log));
  }

  lemma Cancel(w: multiset<Packet>, below: multiset<Packet>, rest: multiset<Packet>)
    requires w + below <= w + rest
    ensures below <= rest
  {
    assert forall x :: w[x] + below[x] == (w + below)[x] <= (w + rest)[x] == w[x] + rest[x];
  }

  lemma FirstMark(cfg: Config, run: seq<Action>, marks: seq<nat>)
    requires Marked(cfg, run, marks) && marks != []
    ensures marks[0] < |run|
  {
  }
}
