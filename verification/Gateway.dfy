/** The gateway's objects: the suppression cache, the queue and its memory of
    rejected pushkeys, and the per-device delivery that updates them. */
module Gateway {
  import opened Prelude
  import opened Api
  import Q = QueueSpec
  import QR = QueueRuns
  import D = DedupSpec
  import opened Attempts
  import opened Pipeline
  import N = NotificationQueue
  import C = DedupCache
  import Coalescing

  /** How many rejected pushkeys the queue side remembers at once. */
  const REJECTED_CAP := 65_536

  class QueueState {
    const queue: N.NotificationQueue
    const rejected: C.DedupCache

    ghost predicate Valid()
      reads queue, rejected
    {
      queue.Valid() && rejected.Valid() && Coalescing.WellQueued(queue.ops)
    }

    constructor (queueCfg: Q.Config, rejectedTtl: nat)
      ensures Valid() && fresh(queue) && fresh(rejected)
      ensures queue.cfg == queueCfg && rejected.cfg == D.Config(rejectedTtl, 65_536)
      ensures queue.ops == [] && rejected.records == []
    {
      queue := new N.NotificationQueue(queueCfg);
      rejected := new C.DedupCache(D.Config(rejectedTtl, REJECTED_CAP));
    }

    method ReportRejected(now: nat, device: Device)
      requires Valid()
      modifies rejected
      ensures Valid() && rejected.records == old(rejected.records) + [D.Record(now, RejectedKey(device))]
    {
      rejected.RecordAt(now, RejectedKey(device));
    }

    /** The ack endpoint: settles entries, then records the reported pushkeys.
        `clock[i]` is when report `i` is recorded. */
    method TakeAck(request: AckRequest, clock: seq<nat>)
      requires Valid() && |clock| == |request.rejectedPushkeys|
      modifies queue, rejected
      ensures Valid()
      ensures queue.ops == old(queue.ops) + [QR.Settle(request.acked)]
      ensures rejected.records == old(rejected.records) + Reports(request.rejectedPushkeys, clock)
    {
      hide RejectedKey;
      queue.Ack(request.acked);
      for i := 0 to |clock|
        invariant Valid() && queue.ops == old(queue.ops) + [QR.Settle(request.acked)]
        invariant rejected.records == old(rejected.records) + Reports(request.rejectedPushkeys, clock)[..i]
      {
        ReportRejected(clock[i], request.rejectedPushkeys[i]);
      }
      assert Reports(request.rejectedPushkeys, clock)[..|clock|] == Reports(request.rejectedPushkeys, clock);
    }
  }

  function Reports(devices: seq<Device>, clock: seq<nat>): (rs: seq<D.Record>)
    requires |devices| == |clock|
    ensures |rs| == |devices|
    ensures forall i :: 0 <= i < |rs| ==> rs[i] == D.Record(clock[i], D.Key("", devices[i]))
  {
    seq(|devices|, i requires 0 <= i < |devices| => D.Record(clock[i], RejectedKey(devices[i])))
  }

  class AppState {
    const setup: Setup
    const dedup: C.DedupCache
    /** Null on an instance that has no queue side. */
    const queue: QueueState?

    ghost function Objects(): set<object> {
      {dedup} + if queue == null then {} else {queue.queue, queue.rejected}
    }

    ghost predicate Valid()
      reads Objects()
    {
      dedup.Valid() && (queue != null ==> queue.Valid() && queue.rejected != dedup)
    }

    constructor (setup: Setup, dedupCfg: D.Config, queue: QueueState?)
      requires queue != null ==> queue.Valid()
      ensures Valid() && this.setup == setup && this.queue == queue && fresh(dedup)
      ensures dedup.cfg == dedupCfg && dedup.records == []
    {
      this.setup := setup;
      this.queue := queue;
      dedup := new C.DedupCache(dedupCfg);
    }

    method Suppressed(now: nat, n: Notification, device: Device) returns (repeat: bool)
      requires dedup.Valid()
      ensures repeat == IsRepeat(dedup.cfg, dedup.State(), now, n, device)
    {
      if n.eventId.None? {
        return false;
      }
      repeat := dedup.IsDuplicateAt(now, EventKey(n.eventId.value, device));
    }

    method Recall(now: nat, n: Notification, device: Device)
      requires dedup.Valid()
      modifies dedup
      ensures dedup.Valid() && dedup.records == old(dedup.records) + RecordsOf(n, device, now)
    {
      if n.eventId.Some? {
        dedup.RecordAt(now, EventKey(n.eventId.value, device));
      }
    }

    /** One device, no other step in between. The app's own provider comes first; without
        one the queue takes the device, and without a queue the unknown-app rule. */
    method DeliverOne(n: Notification, device: Device, w: World) returns (d: Disposition)
      requires Valid()
      modifies Objects()
      ensures Valid()
      ensures var r := if device.appId in setup.apps || queue == null
                       then Direct(setup, dedup.cfg, old(dedup.State()), n, device, w)
                       else ViaQueue(dedup.cfg, old(dedup.State()), queue.rejected.cfg, old(queue.rejected.State()),
                                     n, device, w);
        && d == r.disposition
        && dedup.records == old(dedup.records) + r.records
        && (queue != null ==> queue.queue.ops == old(queue.queue.ops) + r.queued)
        && (queue != null ==> queue.rejected.records == old(queue.rejected.records))
      ensures device.appId in setup.apps && Unrecorded(old(dedup.records), n, device) ==>
        d == match w.outcome
             case Delivered => Fine
             case Rejected => Reject(device.pushkey)
             case Skipped => Fine
             case Transient => Failed
    {
      if device.appId !in setup.apps {
        if queue != null {
          d := QueueOne(queue, n, device, w);
          return;
        }
        return if setup.rejectUnknownApps then Reject(device.pushkey) else Fine;
      }
      var repeat := Suppressed(w.check, n, device);
      if repeat {
        RepeatWasRecorded(dedup.cfg, dedup.records, w.check, n, device);
        return Fine;
      }
      match w.outcome
      case Delivered =>
        Recall(w.recorded, n, device);
        return Fine;
      case Rejected =>
        return Reject(device.pushkey);
      case Skipped =>
        return Fine;
      case Transient =>
        return Failed;
    }

    /** The queue's answer for one device. A queued event is recorded like a delivered
        one, so a repeat of the request does not queue it twice. */
    method QueueOne(q: QueueState, n: Notification, device: Device, w: World) returns (d: Disposition)
      requires Valid() && q == queue
      modifies Objects()
      ensures Valid()
      ensures var r := ViaQueue(dedup.cfg, old(dedup.State()), q.rejected.cfg, old(q.rejected.State()), n, device, w);
        && d == r.disposition
        && dedup.records == old(dedup.records) + r.records
        && q.queue.ops == old(q.queue.ops) + r.queued
      ensures q.rejected.records == old(q.rejected.records)
      ensures q.queue.ops == old(q.queue.ops) || q.queue.ops == old(q.queue.ops) +
        [QR.Arrive(w.enqueued, Readable(Notification([device], n.eventId, n.body)),
                   if n.eventId.Some? then None else Some(device))]
    {
      var invalid := q.rejected.IsDuplicateAt(w.rejectedCheck, RejectedKey(device));
      if invalid {
        return Reject(device.pushkey);
      }
      var repeat := Suppressed(w.check, n, device);
      if repeat {
        return Fine;
      }
      if !w.encodes {
        return Failed;
      }
      ghost var past := q.queue.ops;
      q.queue.EnqueueAt(w.enqueued, Payload(n, device), CountKey(n, device));
      Recall(w.recorded, n, device);
      StaysWellQueued(past, w.enqueued, n, device);
      return Fine;
    }
  }

  /** That event was never recorded for that device. */
  ghost predicate Unrecorded(records: seq<D.Record>, n: Notification, device: Device) {
    forall r :: r in records ==> n.eventId != Some(r.key.eventId) || r.key.device != device
  }

  lemma StaysWellQueued(ops: seq<QR.Op>, now: nat, n: Notification, device: Device)
    requires Coalescing.WellQueued(ops)
    ensures Coalescing.WellQueued(ops + [QR.Arrive(now, Payload(n, device), CountKey(n, device))])
  {
  }
}
