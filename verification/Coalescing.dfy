/** Coalescing, said of notifications: what the gateway queues for one device carries that
    device and nothing else, events never supersede each other, and a badge is superseded
    by a later badge of its device only. */
module Coalescing {
  import opened Prelude
  import opened Api
  import opened QueueSpec
  import opened QueueRuns
  import QueueLedger
  import QueuePoll

  /** An arrival as the gateway makes it: one notification for one device, keyed by the
      device exactly when it carries no event. */
  ghost predicate MadeByGateway(op: Op) {
    op.Arrive? ==>
      && op.payload.Readable? && |op.payload.notification.devices| == 1
      && op.key == (if op.payload.notification.eventId.Some? then None else Some(op.payload.notification.devices[0]))
  }

  ghost predicate WellQueued(ops: seq<Op>) {
    forall op :: op in ops ==> MadeByGateway(op)
  }

  /** Entry `id` was queued for an event. */
  ghost predicate IsEvent(ops: seq<Op>, id: nat) {
    id < |Log(ops)| && Log(ops)[id].payload.Readable? && Log(ops)[id].payload.notification.eventId.Some?
  }

  /** Entry `id` was queued for a count-only notification for this device. */
  ghost predicate IsBadge(ops: seq<Op>, id: nat, device: Device) {
    && id < |Log(ops)| && Log(ops)[id].payload.Readable?
    && Log(ops)[id].payload.notification.eventId.None?
    && Log(ops)[id].payload.notification.devices == [device]
  }

  lemma {:induction false} KeysOfLog(ops: seq<Op>, id: nat)
    requires WellQueued(ops) && id < |Log(ops)|
    ensures IsEvent(ops, id) <==> Log(ops)[id].countKey.None?
    ensures forall device :: IsBadge(ops, id, device) <==> Log(ops)[id].countKey == Some(device)
  {
    if ops != [] {
      var before, op := ops[..|ops| - 1], ops[|ops| - 1];
      assert op in ops && forall o :: o in before ==> o in ops;
      if id < |Log(before)| {
        KeysOfLog(before, id);
      } else {
        assert forall device :: op.payload.notification.devices == [device] ==>
          device == op.payload.notification.devices[0];
      }
    }
  }

  /** In every reachable state: a held event is live, and a held badge is live iff no later
      badge of its device was queued. */
  lemma LiveExactly(cfg: Config, ops: seq<Op>, id: nat, device: Device)
    requires WellQueued(ops) && id in Held(After(cfg, ops))
    ensures id < |Log(ops)|
    ensures IsEvent(ops, id) ==> IsLive(After(cfg, ops).index, Log(ops)[id])
    ensures IsBadge(ops, id, device) ==>
      (IsLive(After(cfg, ops).index, Log(ops)[id]) <==> forall j: nat :: j > id ==> !IsBadge(ops, j, device))
  {
    hide After, IsEvent, IsBadge, Held;
    QueueLedger.LiveIffNewest(cfg, ops, id);
    KeysOfLog(ops, id);
    forall j: nat | id < j < |Log(ops)|
      ensures IsBadge(ops, j, device) <==> Log(ops)[j].countKey == Some(device)
    {
      KeysOfLog(ops, j);
    }
    forall j: nat | j >= |Log(ops)| ensures !IsBadge(ops, j, device) {
      BadgeIsLogged(ops, j, device);
    }
  }

  lemma BadgeIsLogged(ops: seq<Op>, id: nat, device: Device)
    ensures IsBadge(ops, id, device) ==> id < |Log(ops)|
  {
  }

  /** So what a poll may hand out: everything held, out of lease and young, except the
      badges that a later badge of their device replaced. QueuePoll.BatchExactly says which
      of these it does hand out. */
  lemma DeliverableExactly(cfg: Config, ops: seq<Op>, now: nat, id: nat, device: Device)
    requires WellQueued(ops)
    requires IsEvent(ops, id) || IsBadge(ops, id, device)
    ensures QueuePoll.Deliverable(cfg, ops, now, id) <==>
      var s := After(cfg, ops);
      && id in Held(s) && (id in s.leased ==> s.leased[id].deadline <= now)
      && Since(now, Log(ops)[id].enqueued) < cfg.entryTtl
      && (IsEvent(ops, id) || forall j: nat :: j > id ==> !IsBadge(ops, j, device))
  {
    hide After, IsBadge, Log, Retain, Newest, Held;
    if id in Held(After(cfg, ops)) {
      LiveExactly(cfg, ops, id, device);
      QueueLedger.LiveIffNewest(cfg, ops, id);
    }
  }

  /** An event leaves the queue only by an ack while leased, at an age of at least the TTL,
      or evicted from a full buffer; a badge also when a later one of its device is queued. */
  lemma DeparturesExplained(cfg: Config, ops: seq<Op>, i: nat, id: nat)
    requires WellQueued(ops) && QueueLedger.Departs(cfg, ops, i, id)
    ensures id < |Log(ops[..i])|
    ensures var s, e := After(cfg, ops[..i]), Log(ops[..i])[id];
      match ops[i]
      case Settle(ids) => id in ids && id in s.leased
      case Arrive(now, payload, key) => QueueLedger.CrowdedOut(cfg, s, id)
      case Poll(now, max) =>
        || Since(now, e.enqueued) >= cfg.entryTtl
        || exists j, device :: id < j && IsBadge(ops[..i], id, device) && IsBadge(ops[..i], j, device)
  {
    hide After, Log, IsBadge, IsEvent;
    QueueLedger.DepartureIsFinal(cfg, ops, i, id);
    var past := ops[..i];
    assert forall op :: op in past ==> op in ops;
    if ops[i].Poll? && Since(ops[i].now, Log(past)[id].enqueued) < cfg.entryTtl {
      var j :| id < j < |Log(past)| && Log(past)[j].countKey == Log(past)[id].countKey;
      KeysOfLog(past, id);
      KeysOfLog(past, j);
      var device := Log(past)[id].countKey.value;
      assert IsBadge(past, id, device) && IsBadge(past, j, device);
    }
  }
}
