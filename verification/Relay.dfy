/** The relay end to end: one queue side, any number of poll sides, and a network
    that may lose, delay and repeat poll responses and acks. Messages are kept in
    sets that only grow, so each may arrive never, late, or many times. What a poll
    side's cache holds is left open here; PollLoop adds it. */
module Relay {
  import opened Prelude
  import opened Api
  import opened QueueSpec
  import opened QueueRuns
  import opened QueueLedger
  import QueueDelivery
  import QueueDrain
  import QueuePoll
  import QueueSpace
  import NotificationQueue
  import D = DedupSpec
  import DR = DedupRuns
  import DW = DedupWindow
  import opened Pipeline
  import opened Poller
  import Gateway

  /** The configuration of one poll side. */
  datatype Side = Side(setup: Setup, dedup: D.Config)

  /** What one delivery of a cycle met: the cache as it found it (whatever other tasks
      did to it) and the outside world. */
  datatype Look = Look(cache: D.State, world: World)

  /** A poll side's work on one response. */
  datatype Cycle = Cycle(side: Side, reply: seq<PollEntry>, looks: seq<seq<Look>>)

  /** The queue side's configuration. */
  datatype Params = Params(queue: Config, rejected: D.Config, dedup: D.Config)

  datatype System = System(
    ops: seq<Op>, reports: seq<D.Record>,
    replies: set<seq<PollEntry>>, acks: set<AckRequest>, cycles: seq<Cycle>)

  datatype Action =
    | Push(now: nat, payload: Value, key: Option<Device>)
    | Serve(now: nat, max: nat)
    | Work(cycle: Cycle)
    | TakeAck(request: AckRequest, clock: seq<nat>)

  ghost predicate Covered(c: Cycle) {
    |c.looks| == |c.reply| && forall i :: 0 <= i < |c.reply| ==> |c.looks[i]| == |DevicesOf(c.reply[i])|
  }

  function DispositionOf(side: Side, n: Notification, device: Device, look: Look): Disposition {
    Direct(side.setup, side.dedup, look.cache, n, device, look.world).disposition
  }

  function EntryDispositions(side: Side, entry: PollEntry, looks: seq<Look>): (ds: seq<Disposition>)
    requires |looks| == |DevicesOf(entry)|
    ensures |ds| == |looks|
    ensures forall j :: 0 <= j < |ds| ==>
      ds[j] == DispositionOf(side, entry.notification.notification, DevicesOf(entry)[j], looks[j])
  {
    seq(|looks|, j requires 0 <= j < |looks| =>
      DispositionOf(side, entry.notification.notification, DevicesOf(entry)[j], looks[j]))
  }

  ghost function Dispositions(c: Cycle): (ds: seq<seq<Disposition>>)
    requires Covered(c)
    ensures Covers(c.reply, ds)
    ensures forall i :: 0 <= i < |ds| ==> ds[i] == EntryDispositions(c.side, c.reply[i], c.looks[i])
  {
    seq(|c.reply|, i requires 0 <= i < |c.reply| => EntryDispositions(c.side, c.reply[i], c.looks[i]))
  }

  ghost function AckOf(c: Cycle): AckRequest
    requires Covered(c)
  {
    AckFor(c.reply, Dispositions(c))
  }

  ghost predicate Taken(s: System, request: AckRequest, clock: seq<nat>) {
    request in s.acks && |clock| == |request.rejectedPushkeys|
  }

  /** One atomic step; a step that is not possible in `s` changes nothing. */
  ghost function Do(ps: Params, s: System, a: Action): System {
    match a
    case Push(now, payload, key) => s.(ops := s.ops + [Arrive(now, payload, key)])
    case Serve(now, max) =>
      var batch := Batch(ps.queue, After(ps.queue, s.ops), now, max);
      s.(ops := s.ops + [Poll(now, max)], replies := s.replies + {NotificationQueue.Wire(batch)})
    case Work(c) =>
      if c.reply !in s.replies || !Covered(c) then s
      else s.(cycles := s.cycles + [c], acks := s.acks + {AckOf(c)})
    case TakeAck(request, clock) =>
      if !Taken(s, request, clock) then s
      else s.(ops := s.ops + [Settle(request.acked)],
              reports := s.reports + Gateway.Reports(request.rejectedPushkeys, clock))
  }

  ghost function Run(ps: Params, actions: seq<Action>): System {
    if actions == [] then System([], [], {}, {}, [])
    else Do(ps, Run(ps, actions[..|actions| - 1]), actions[|actions| - 1])
  }

  // --- what a cycle can say ---

  ghost predicate Authentic(log: seq<Entry>, reply: seq<PollEntry>) {
    forall e :: e in reply ==> e.id < |log| && e.notification == log[e.id].payload
  }

  /** Delivery `j` of entry `i` failed transiently: the app is configured, it was not held
      back as a repeat, and that is what its provider answered. */
  ghost predicate FailedAt(c: Cycle, i: nat, j: nat)
    requires Covered(c) && i < |c.reply| && j < |c.looks[i]|
  {
    var n, device, look := c.reply[i].notification.notification, DevicesOf(c.reply[i])[j], c.looks[i][j];
    && device.appId in c.side.setup.apps && look.world.outcome.Transient?
    && !IsRepeat(c.side.dedup, look.cache, look.world.check, n, device)
  }

  /** Entry `i` of this cycle was unreadable, or none of its deliveries failed. */
  ghost predicate SettledAt(c: Cycle, i: nat)
    requires Covered(c) && i < |c.reply|
  {
    c.reply[i].notification.Unreadable? || forall j :: 0 <= j < |c.looks[i]| ==> !FailedAt(c, i, j)
  }

  ghost predicate SettledIn(c: Cycle, entry: PollEntry) {
    Covered(c) && exists i :: 0 <= i < |c.reply| && c.reply[i] == entry && SettledAt(c, i)
  }

  /** In this cycle a delivery to the device ended in a rejection: it was not held back
      as a repeat and its provider rejected it, or the unknown-app rule did. */
  ghost predicate RejectedIn(c: Cycle, device: Device) {
    Covered(c) && exists i, j :: 0 <= i < |c.reply| && 0 <= j < |c.looks[i]| && RejectedAt(c, i, j, device)
  }

  ghost predicate RejectedAt(c: Cycle, i: nat, j: nat, device: Device)
    requires Covered(c) && i < |c.reply| && j < |c.looks[i]|
  {
    var n, look := c.reply[i].notification.notification, c.looks[i][j];
    && DevicesOf(c.reply[i])[j] == device
    && DispositionOf(c.side, n, device, look) == Reject(device.pushkey)
    && if device.appId in c.side.setup.apps
       then look.world.outcome.Rejected? && !IsRepeat(c.side.dedup, look.cache, look.world.check, n, device)
       else c.side.setup.rejectUnknownApps
  }

  lemma SettledIsUnfailed(c: Cycle, i: nat)
    requires Covered(c) && i < |c.reply|
    ensures SettledAt(c, i) <==> Unfailed(Dispositions(c)[i])
  {
    var ds := Dispositions(c)[i];
    forall j | 0 <= j < |ds| ensures FailedAt(c, i, j) <==> ds[j] == Failed {
      var look := c.looks[i][j];
      DirectExactly(c.side.setup, c.side.dedup, look.cache, c.reply[i].notification.notification,
                    DevicesOf(c.reply[i])[j], look.world);
    }
    assert c.reply[i].notification.Unreadable? ==> ds == [];
  }

  lemma RejectIsReported(c: Cycle, i: nat, device: Device)
    requires Covered(c) && i < |c.reply|
    ensures device in RejectsOf(DevicesOf(c.reply[i]), Dispositions(c)[i]) <==>
      exists j :: 0 <= j < |c.looks[i]| && RejectedAt(c, i, j, device)
  {
    var devices, ds := DevicesOf(c.reply[i]), Dispositions(c)[i];
    RejectsMeaning(devices, ds);
    forall j | 0 <= j < |ds|
      ensures RejectedAt(c, i, j, device) <==> ds[j].Reject? && device == Device(devices[j].appId, ds[j].pushkey)
    {
      var look := c.looks[i][j];
      DirectExactly(c.side.setup, c.side.dedup, look.cache, c.reply[i].notification.notification,
                    devices[j], look.world);
    }
  }

  /** What a cycle's ack says, in terms of what the cycle met. It lists an id iff some entry
      of that id was unreadable or had no failed delivery, and it reports a device iff some
      delivery to it was rejected. */
  lemma AckExactly(c: Cycle)
    requires Covered(c)
    ensures forall id :: id in AckOf(c).acked <==>
      exists i :: 0 <= i < |c.reply| && c.reply[i].id == id && SettledAt(c, i)
    ensures forall device :: device in AckOf(c).rejectedPushkeys <==> RejectedIn(c, device)
  {
    hide SettledAt, RejectedAt, Unfailed, RejectsOf, AckFor;
    var ds := Dispositions(c);
    AckMeaning(c.reply, ds);
    forall i | 0 <= i < |c.reply| ensures SettledAt(c, i) <==> Unfailed(ds[i]) {
      SettledIsUnfailed(c, i);
    }
    forall device ensures device in AckOf(c).rejectedPushkeys <==> RejectedIn(c, device) {
      forall i | 0 <= i < |c.reply|
        ensures device in RejectsOf(DevicesOf(c.reply[i]), ds[i]) <==>
          exists j :: 0 <= j < |c.looks[i]| && RejectedAt(c, i, j, device)
      {
        RejectIsReported(c, i, device);
      }
    }
  }

  lemma AckedIsSettled(c: Cycle, log: seq<Entry>, id: nat)
    requires Covered(c) && Authentic(log, c.reply) && id in AckOf(c).acked
    ensures id < |log| && SettledIn(c, PollEntry(id, log[id].payload))
  {
    hide SettledAt, AckOf;
    AckExactly(c);
    var i :| 0 <= i < |c.reply| && c.reply[i].id == id && SettledAt(c, i);
    assert c.reply[i] in c.reply;
    assert c.reply[i] == PollEntry(id, log[id].payload);
  }

  lemma ReportedIsRejected(c: Cycle, r: Device)
    requires Covered(c) && r in AckOf(c).rejectedPushkeys
    ensures RejectedIn(c, r)
  {
    AckExactly(c);
  }

  // --- what the messages of a run mean ---

  /** This ack was written by a cycle of the run. */
  ghost predicate WrittenBy(c: Cycle, cycles: seq<Cycle>, log: seq<Entry>, request: AckRequest) {
    c in cycles && Covered(c) && Authentic(log, c.reply) && request == AckOf(c)
  }

  ghost predicate Honest(s: System) {
    && (forall reply :: reply in s.replies ==> Authentic(Log(s.ops), reply))
    && (forall request :: request in s.acks ==> exists c :: WrittenBy(c, s.cycles, Log(s.ops), request))
  }

  lemma WireIsAuthentic(cfg: Config, ops: seq<Op>, now: nat, max: nat)
    ensures Authentic(Log(ops), NotificationQueue.Wire(Batch(cfg, After(cfg, ops), now, max)))
  {
    var batch := Batch(cfg, After(cfg, ops), now, max);
    var wire := NotificationQueue.Wire(batch);
    forall e | e in wire ensures e.id < |Log(ops)| && e.notification == Log(ops)[e.id].payload {
      var i :| 0 <= i < |wire| && wire[i] == e;
      QueueDelivery.BatchIsCurrent(cfg, ops, now, max, batch[i]);
    }
  }

  lemma OneMore(ops: seq<Op>, op: Op)
    ensures Log(ops) <= Log(ops + [op])
    ensures !op.Arrive? ==> Log(ops + [op]) == Log(ops)
  {
    assert (ops + [op])[..|ops|] == ops;
  }

  lemma StaysHonest(s: System, ops: seq<Op>)
    requires Honest(s) && Log(s.ops) <= Log(ops)
    ensures Honest(s.(ops := ops))
  {
    hide Log, AckOf, Covered;
    forall request | request in s.acks ensures exists c :: WrittenBy(c, s.cycles, Log(ops), request) {
      var c :| WrittenBy(c, s.cycles, Log(s.ops), request);
      assert WrittenBy(c, s.cycles, Log(ops), request);
    }
  }

  lemma WorkIsHonest(s: System, c: Cycle)
    requires Honest(s) && c.reply in s.replies && Covered(c)
    ensures Honest(s.(cycles := s.cycles + [c], acks := s.acks + {AckOf(c)}))
  {
    hide Log, AckOf, Covered, Authentic;
    forall request | request in s.acks + {AckOf(c)}
      ensures exists d :: WrittenBy(d, s.cycles + [c], Log(s.ops), request)
    {
      if request in s.acks {
        var d :| WrittenBy(d, s.cycles, Log(s.ops), request);
        assert WrittenBy(d, s.cycles + [c], Log(s.ops), request);
      } else {
        assert WrittenBy(c, s.cycles + [c], Log(s.ops), request);
      }
    }
  }

  lemma StepIsHonest(ps: Params, s: System, a: Action)
    requires Honest(s)
    ensures Honest(Do(ps, s, a))
  {
    hide Honest, After, Batch, Log, AckOf, Covered;
    match a
    case Push(now, payload, key) =>
      OneMore(s.ops, Arrive(now, payload, key));
      StaysHonest(s, s.ops + [Arrive(now, payload, key)]);
    case Serve(now, max) =>
      OneMore(s.ops, Poll(now, max));
      WireIsAuthentic(ps.queue, s.ops, now, max);
      StaysHonest(s, s.ops + [Poll(now, max)]);
      var reply := NotificationQueue.Wire(Batch(ps.queue, After(ps.queue, s.ops), now, max));
      OneReplyMore(s.(ops := s.ops + [Poll(now, max)]), reply);
    case Work(c) =>
      if c.reply in s.replies && Covered(c) {
        WorkIsHonest(s, c);
      }
    case TakeAck(request, clock) =>
      if Taken(s, request, clock) {
        OneMore(s.ops, Settle(request.acked));
        StaysHonest(s, s.ops + [Settle(request.acked)]);
        var reports := s.reports + Gateway.Reports(request.rejectedPushkeys, clock);
        ReportsDoNotMatter(s.(ops := s.ops + [Settle(request.acked)]), reports);
      }
  }

  lemma OneReplyMore(s: System, reply: seq<PollEntry>)
    requires Honest(s) && Authentic(Log(s.ops), reply)
    ensures Honest(s.(replies := s.replies + {reply}))
  {
    hide Log, AckOf, Covered;
  }

  lemma ReportsDoNotMatter(s: System, reports: seq<D.Record>)
    requires Honest(s)
    ensures Honest(s.(reports := reports))
  {
  }

  lemma {:induction false} RunIsHonest(ps: Params, actions: seq<Action>)
    ensures Honest(Run(ps, actions))
  {
    hide Do, Honest;
    if actions == [] {
      EmptyIsHonest();
    } else {
      RunIsHonest(ps, actions[..|actions| - 1]);
      StepIsHonest(ps, Run(ps, actions[..|actions| - 1]), actions[|actions| - 1]);
    }
  }

  lemma EmptyIsHonest()
    ensures Honest(System([], [], {}, {}, []))
  {
  }

  // --- which step did it ---

  /** Step `m` of the relay run delivers an ack to the queue side. */
  ghost predicate TakesAck(ps: Params, actions: seq<Action>, m: nat) {
    m < |actions| && actions[m].TakeAck? && Taken(Run(ps, actions[..m]), actions[m].request, actions[m].clock)
  }

  /** An ack among the queue's operations was delivered by one step of the relay run. */
  lemma {:induction false} FindAck(ps: Params, actions: seq<Action>, i: nat) returns (m: nat)
    requires i < |Run(ps, actions).ops| && Run(ps, actions).ops[i].Settle?
    ensures TakesAck(ps, actions, m) && actions[m].request.acked == Run(ps, actions).ops[i].ids
    ensures Run(ps, actions[..m]).ops == Run(ps, actions).ops[..i]
  {
    hide After, Batch, Covered, AckOf;
    var n := |actions| - 1;
    var s := Run(ps, actions[..n]);
    if i < |s.ops| {
      m := FindAck(ps, actions[..n], i);
      assert actions[..n][..m] == actions[..m];
      assert Run(ps, actions).ops[..i] == s.ops[..i];
    } else {
      m := n;
      assert Run(ps, actions).ops[..i] == s.ops;
    }
  }

  lemma {:induction false} FindReport(ps: Params, actions: seq<Action>, r: D.Record) returns (m: nat)
    requires r in Run(ps, actions).reports
    ensures TakesAck(ps, actions, m)
    ensures r in Gateway.Reports(actions[m].request.rejectedPushkeys, actions[m].clock)
  {
    hide After, Batch, Covered, AckOf;
    var n := |actions| - 1;
    var s := Run(ps, actions[..n]);
    if r in s.reports {
      m := FindReport(ps, actions[..n], r);
      assert actions[..n][..m] == actions[..m];
    } else {
      m := n;
    }
  }

  // --- the end-to-end theorems ---

  /** The ack that step `m` delivers was written by a cycle finished before that step. */
  ghost predicate AckFrom(ps: Params, actions: seq<Action>, m: nat, c: Cycle) {
    && TakesAck(ps, actions, m)
    && WrittenBy(c, Run(ps, actions[..m]).cycles, Log(Run(ps, actions[..m]).ops), actions[m].request)
  }

  /** Relay safety: whatever the network loses, delays or repeats, an entry leaves the
      queue by ack only after a poll cycle in which that very notification was unreadable
      or none of its deliveries failed transiently, and by the ack of that cycle. */
  lemma AckedMeansSettled(ps: Params, actions: seq<Action>, i: nat, id: nat) returns (m: nat, c: Cycle)
    requires var ops := Run(ps, actions).ops; Departs(ps.queue, ops, i, id) && ops[i].Settle?
    ensures AckFrom(ps, actions, m, c) && id in AckOf(c).acked
    ensures Run(ps, actions[..m]).ops == Run(ps, actions).ops[..i]
    ensures id < |Log(Run(ps, actions).ops)| && SettledIn(c, PollEntry(id, Log(Run(ps, actions).ops)[id].payload))
  {
    hide Run, Honest, SettledIn, AckOf, Covered, Authentic;
    var ops := Run(ps, actions).ops;
    DepartureIsFinal(ps.queue, ops, i, id);
    m := FindAck(ps, actions, i);
    c := AckWriter(ps, actions, m);
    AckedIsSettled(c, Log(ops[..i]), id);
    LogGrows(ops, i);
  }

  lemma AckWriter(ps: Params, actions: seq<Action>, m: nat) returns (c: Cycle)
    requires TakesAck(ps, actions, m)
    ensures AckFrom(ps, actions, m, c)
  {
    hide Run, AckOf, Covered, Authentic;
    RunIsHonest(ps, actions[..m]);
    c :| WrittenBy(c, Run(ps, actions[..m]).cycles, Log(Run(ps, actions[..m]).ops), actions[m].request);
  }

  /** The entry was settled by the ack of some cycle of the run. */
  ghost predicate EverSettled(ps: Params, actions: seq<Action>, id: nat) {
    var s := Run(ps, actions);
    id < |Log(s.ops)| && exists c :: c in s.cycles && SettledIn(c, PollEntry(id, Log(s.ops)[id].payload))
  }

  lemma {:induction false} CyclesGrow(ps: Params, actions: seq<Action>, m: nat)
    requires m <= |actions|
    ensures Run(ps, actions[..m]).cycles <= Run(ps, actions).cycles
  {
    hide After, Batch, Covered, AckOf;
    if m == |actions| {
      assert actions[..m] == actions;
    } else {
      CyclesGrow(ps, actions[..|actions| - 1], m);
      assert actions[..|actions| - 1][..m] == actions[..m];
    }
  }

  /** An entry no step of the run evicted, and that met no poll after its TTL. */
  ghost predicate Spared(ps: Params, ops: seq<Op>, id: nat) {
    && id < |Log(ops)|
    && (forall i: nat :: Departs(ps.queue, ops, i, id) ==> !ops[i].Arrive?)
    && (forall op :: op in ops && op.Poll? ==> Since(op.now, Log(ops)[id].enqueued) < ps.queue.entryTtl)
  }

  lemma UnsettledStays(ps: Params, actions: seq<Action>, i: nat, id: nat)
    requires var ops := Run(ps, actions).ops;
      && Spared(ps, ops, id) && Departs(ps.queue, ops, i, id)
      && (Log(ops)[id].countKey.None? || IsNewest(Log(ops), id))
    ensures EverSettled(ps, actions, id)
  {
    hide Run, SettledIn, Held, AckOf;
    var ops := Run(ps, actions).ops;
    DepartureIsFinal(ps.queue, ops, i, id);
    LogGrows(ops, i);
    assert ops[i] in ops && Log(ops[..i])[id] == Log(ops)[id];
    if ops[i].Settle? {
      var m, c := AckedMeansSettled(ps, actions, i, id);
      CyclesGrow(ps, actions, m);
    }
  }

  /** At least once: an event entry, or the newest badge of its device, that no cycle
      settled, no arrival evicted and no poll found stale is still held. Once its lease is
      over and while it is young, it has a place in every poll's pool, and a poll hands it
      out iff it asks for more than the deliverable entries before that place. */
  lemma UnsettledIsHeld(ps: Params, actions: seq<Action>, id: nat, now: nat) returns (p: nat)
    requires var log := Log(Run(ps, actions).ops);
      Spared(ps, Run(ps, actions).ops, id) && (log[id].countKey.None? || IsNewest(log, id))
    requires !EverSettled(ps, actions, id)
    ensures var ops := Run(ps, actions).ops;
      var s := After(ps.queue, ops);
      && id in Held(s)
      && (Since(now, Log(ops)[id].enqueued) < ps.queue.entryTtl && (id in s.leased ==> s.leased[id].deadline <= now) ==>
          && p < |Pool(ps.queue, s, now)| && Pool(ps.queue, s, now)[p] == Log(ops)[id]
          && forall max: nat :: Log(ops)[id] in Batch(ps.queue, s, now, max) <==>
               |Kept(ViewAt(ps.queue, s, now), Pool(ps.queue, s, now)[..p])| < max)
  {
    hide EverSettled, Run, Kept, Pool, Batch, Held;
    var ops := Run(ps, actions).ops;
    RunInv(ps.queue, ops);
    Ledger(ps.queue, ops, id);
    if i: nat :| Departs(ps.queue, ops, i, id) {
      UnsettledStays(ps, actions, i, id);
    }
    var s := After(ps.queue, ops);
    p := 0;
    if Since(now, Log(ops)[id].enqueued) < ps.queue.entryTtl && (id in s.leased ==> s.leased[id].deadline <= now) {
      p := QueueDrain.HeldIsHandedOut(ps.queue, ops, now, id);
    }
  }

  /** Rejection provenance: when the queue side answers a notify with `rejected`, that
      pushkey was reported for the same app less than the TTL earlier, by an ack written
      after a cycle in which a delivery to this very device was not held back and was
      rejected, by its provider or by the unknown-app rule. */
  lemma RejectionProvenance(ps: Params, actions: seq<Action>, cache: D.State, n: Notification, device: Device, w: World)
      returns (m: nat, c: Cycle, r: D.Record)
    requires RejectsWith(ps, Run(ps, actions).reports, cache, n, device, w).Reject?
    ensures RejectsWith(ps, Run(ps, actions).reports, cache, n, device, w) == Reject(device.pushkey)
    ensures AckFrom(ps, actions, m, c) && RejectedIn(c, device) && device in AckOf(c).rejectedPushkeys
    ensures r in Gateway.Reports(actions[m].request.rejectedPushkeys, actions[m].clock)
    ensures r.key == RejectedKey(device) && Since(w.rejectedCheck, r.time) < ps.rejected.ttl
  {
    hide Run, DR.After, RejectedIn, AckOf, Covered, Authentic;
    var reports := Run(ps, actions).reports;
    DR.DuplicateWasRecorded(ps.rejected, reports, w.rejectedCheck, RejectedKey(device));
    r :| r in reports && r.key == RejectedKey(device) && Since(w.rejectedCheck, r.time) < ps.rejected.ttl;
    m := FindReport(ps, actions, r);
    c := AckWriter(ps, actions, m);
    var rejected := actions[m].request.rejectedPushkeys;
    var i :| 0 <= i < |actions[m].clock| && Gateway.Reports(rejected, actions[m].clock)[i] == r;
    assert rejected[i] == device;
    ReportedIsRejected(c, device);
  }

  /** The queue side's answer for one device, given what has been reported so far. */
  function RejectsWith(ps: Params, reports: seq<D.Record>, cache: D.State, n: Notification, device: Device,
                       w: World): Disposition {
    ViaQueue(ps.dedup, cache, ps.rejected, DR.After(ps.rejected, reports), n, device, w).disposition
  }

  // --- the converse: which reports are answered ---

  /** With a monotone clock, a device is answered `rejected` exactly when a window of its
      pushkey is open: started by a report less than the TTL ago, and followed by fewer
      others than the memory holds. */
  lemma RejectedExactly(ps: Params, actions: seq<Action>, cache: D.State, n: Notification, device: Device, w: World)
    requires var reports := Run(ps, actions).reports; DW.Sorted(reports) && DW.Clock(reports) <= w.rejectedCheck
    ensures var reports := Run(ps, actions).reports;
      var windows := DR.Accepted(ps.rejected, reports);
      RejectsWith(ps, reports, cache, n, device, w).Reject? <==>
        exists i :: 0 <= i < |windows| && DW.Opens(ps.rejected, windows, i, w.rejectedCheck, RejectedKey(device))
  {
    hide Run, DR.After, DR.Accepted;
    DW.ReportedExactly(ps.rejected, Run(ps, actions).reports, w.rejectedCheck, RejectedKey(device));
  }

  lemma {:induction false} ReportsGrow(ps: Params, actions: seq<Action>, m: nat)
    requires TakesAck(ps, actions, m)
    ensures Run(ps, actions[..m]).reports + Gateway.Reports(actions[m].request.rejectedPushkeys, actions[m].clock)
         <= Run(ps, actions).reports
  {
    hide After, Batch, Covered, AckOf;
    var n := |actions| - 1;
    if m < n {
      assert actions[..n][..m] == actions[..m];
      ReportsGrow(ps, actions[..n], m);
    }
  }

  /** Every report that reaches the queue side falls into a window of its pushkey, its own
      or an earlier one; and until that window is over or crowded out, whatever happens
      meanwhile, every notify that mentions the device is answered `rejected`. */
  lemma ReportIsAnswered(ps: Params, actions: seq<Action>, m: nat, j: nat) returns (i: nat)
    requires TakesAck(ps, actions, m) && j < |actions[m].clock| && DW.Sorted(Run(ps, actions).reports)
    requires ps.rejected.ttl > 0 && ps.rejected.maxEntries >= 1
    ensures var reports, device := Run(ps, actions).reports, actions[m].request.rejectedPushkeys[j];
      var windows := DR.Accepted(ps.rejected, reports);
      && i < |windows| && windows[i].key == RejectedKey(device)
      && windows[i].time <= actions[m].clock[j] < windows[i].time + ps.rejected.ttl
      && forall cache: D.State, n: Notification, w: World ::
           DW.Clock(reports) <= w.rejectedCheck < windows[i].time + ps.rejected.ttl
           && |windows| - 1 - i < ps.rejected.maxEntries ==>
             RejectsWith(ps, reports, cache, n, device, w) == Reject(device.pushkey)
  {
    hide Run, DR.After, DR.Accepted, D.IsDuplicate, DW.Sorted, DW.Clock;
    var reports, device := Run(ps, actions).reports, actions[m].request.rejectedPushkeys[j];
    var taken := Gateway.Reports(actions[m].request.rejectedPushkeys, actions[m].clock);
    ReportsGrow(ps, actions, m);
    var p := |Run(ps, actions[..m]).reports| + j;
    assert reports[p] == taken[j];
    i := DW.RecordingIsCovered(ps.rejected, reports, p);
    forall cache: D.State, n: Notification, w: World | DW.Clock(reports) <= w.rejectedCheck
      && w.rejectedCheck < DR.Accepted(ps.rejected, reports)[i].time + ps.rejected.ttl
      && |DR.Accepted(ps.rejected, reports)| - 1 - i < ps.rejected.maxEntries
      ensures RejectsWith(ps, reports, cache, n, device, w) == Reject(device.pushkey)
    {
      DW.WindowIsReported(ps.rejected, reports, w.rejectedCheck, i);
    }
  }

  lemma OneReportMore(ps: Params, past: seq<Action>, request: AckRequest, device: Device, t: nat)
    requires request in Run(ps, past).acks && request.rejectedPushkeys == [device]
    ensures var s, s' := Run(ps, past), Run(ps, past + [TakeAck(request, [t])]);
      s'.reports == s.reports + [D.Record(t, RejectedKey(device))] && s'.acks == s.acks
  {
    assert (past + [TakeAck(request, [t])])[..|past|] == past;
    assert Gateway.Reports([device], [t]) == [D.Record(t, RejectedKey(device))];
  }

  /** The same ack, or another that reports only this device, arrives twice. */
  function Twice(request: AckRequest, again: AckRequest, t: nat, u: nat): seq<Action> {
    [TakeAck(request, [t])] + [TakeAck(again, [u])]
  }

  /** Not longer than that: a report inside an open window does not renew it. So after any
      history in which the device is not known, a pushkey reported at `t` and again at
      `u`, however late in the window, is not answered any more from `t + ttl` on. */
  lemma ReportAgainIsForgotten(ps: Params, past: seq<Action>, request: AckRequest, again: AckRequest, t: nat, u: nat,
                               cache: D.State, n: Notification, device: Device, w: World)
    requires {request, again} <= Run(ps, past).acks && ps.rejected.maxEntries >= 1
    requires request.rejectedPushkeys == again.rejectedPushkeys == [device]
    requires DW.Sorted(Run(ps, past).reports) && DW.Clock(Run(ps, past).reports) <= t <= u < t + ps.rejected.ttl
    requires !D.IsDuplicate(ps.rejected, DR.After(ps.rejected, Run(ps, past).reports), t, RejectedKey(device))
    requires w.rejectedCheck >= t + ps.rejected.ttl
    ensures !RejectsWith(ps, Run(ps, past + Twice(request, again, t, u)).reports, cache, n, device, w).Reject?
  {
    hide DR.After, D.IsDuplicate, Run;
    var one := past + [TakeAck(request, [t])];
    assert past + Twice(request, again, t, u) == one + [TakeAck(again, [u])];
    OneReportMore(ps, past, request, device, t);
    OneReportMore(ps, one, again, device, u);
    var rs, first, second := Run(ps, past).reports, D.Record(t, RejectedKey(device)), D.Record(u, RejectedKey(device));
    DW.WindowIsNotExtended(ps.rejected, rs, first, second, w.rejectedCheck);
  }

  // --- one undisturbed exchange ---

  /** A poll is served, worked on, and its ack comes back. */
  ghost function Exchange(ps: Params, past: seq<Action>, now: nat, max: nat, c: Cycle, clock: seq<nat>): seq<Action>
    requires Covered(c)
  {
    past + [Serve(now, max)] + [Work(c)] + [TakeAck(AckOf(c), clock)]
  }

  lemma ExchangeRuns(ps: Params, past: seq<Action>, now: nat, max: nat, c: Cycle, clock: seq<nat>)
    requires Covered(c) && |clock| == |AckOf(c).rejectedPushkeys|
    requires c.reply == NotificationQueue.Wire(Batch(ps.queue, After(ps.queue, Run(ps, past).ops), now, max))
    ensures var s, s' := Run(ps, past), Run(ps, Exchange(ps, past, now, max, c, clock));
      && s'.ops == s.ops + [Poll(now, max)] + [Settle(AckOf(c).acked)]
      && s'.reports == s.reports + Gateway.Reports(AckOf(c).rejectedPushkeys, clock)
  {
    hide After, Batch, Covered, AckOf;
    var served := past + [Serve(now, max)];
    var worked := served + [Work(c)];
    var taken := worked + [TakeAck(AckOf(c), clock)];
    assert served[..|past|] == past && worked[..|served|] == served && taken[..|worked|] == worked;
    assert Run(ps, served).ops == Run(ps, past).ops + [Poll(now, max)] && c.reply in Run(ps, served).replies;
    assert Run(ps, worked).ops == Run(ps, served).ops && AckOf(c) in Run(ps, worked).acks;
  }

  /** After any history: of what an exchange fetched, exactly the entries that were unreadable
      or had no failed delivery are gone at its end, and the others are still out on lease. */
  lemma ExchangeSettles(ps: Params, past: seq<Action>, now: nat, max: nat, c: Cycle, clock: seq<nat>, i: nat)
    requires Covered(c) && |clock| == |AckOf(c).rejectedPushkeys|
    requires c.reply == NotificationQueue.Wire(Batch(ps.queue, After(ps.queue, Run(ps, past).ops), now, max))
    requires i < |c.reply|
    ensures var s' := After(ps.queue, Run(ps, Exchange(ps, past, now, max, c, clock)).ops);
      && (c.reply[i].id in Held(s') <==> !SettledAt(c, i))
      && (c.reply[i].id in Held(s') ==>
            c.reply[i].id in s'.leased && s'.leased[c.reply[i].id].deadline == now + ps.queue.lease)
  {
    hide Run, After, Batch, AckOf, SettledAt, Covered, Log, Exchange, QueuePoll.Deliverable, QueuePoll.Ahead;
    var ops, id := Run(ps, past).ops, c.reply[i].id;
    var batch := Batch(ps.queue, After(ps.queue, ops), now, max);
    var polled := ops + [Poll(now, max)];
    ExchangeRuns(ps, past, now, max, c, clock);
    assert id in Ids(batch) by {
      assert batch[i] in batch;
    }
    QueuePoll.TakeLeaves(ps.queue, ops, now, max, id);
    QueueSpace.AckRemovesOnlyLeased(ps.queue, polled, AckOf(c).acked);
    AckExactly(c);
    forall k | 0 <= k < |c.reply| && k != i ensures c.reply[k].id != id {
      QueueDelivery.OneBadgePerDevice(ps.queue, ops, now, max, if k < i then k else i, if k < i then i else k);
    }
    RunInv(ps.queue, polled + [Settle(AckOf(c).acked)]);
  }
}
