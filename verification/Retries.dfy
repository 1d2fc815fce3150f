/** The homeserver's retries of one event notification: Suppression, said of the
    notification and its devices. */
module Retries {
  import opened Prelude
  import opened Api
  import D = DedupSpec
  import DR = DedupRuns
  import opened Attempts
  import opened Suppression
  import opened Pipeline

  ghost predicate DistinctDevices(n: Notification) {
    forall j, k :: 0 <= j < k < |n.devices| ==> n.devices[j] != n.devices[k]
  }

  function KeysOf(n: Notification): (keys: seq<D.Key>)
    requires n.eventId.Some?
    ensures |keys| == |n.devices|
    ensures forall i :: 0 <= i < |keys| ==> keys[i] == D.Key(n.eventId.value, n.devices[i])
  {
    seq(|n.devices|, i requires 0 <= i < |n.devices| => EventKey(n.eventId.value, n.devices[i]))
  }

  /** The pipeline holds back a device of this notification. */
  ghost predicate HeldBack(cfg: D.Config, actions: seq<Action>, now: nat, n: Notification, device: Device) {
    IsRepeat(cfg, DR.After(cfg, Run(cfg, actions).records), now, n, device)
  }

  /** This event was accepted for this device at some time in the run. */
  ghost predicate Accepted(cfg: D.Config, actions: seq<Action>, n: Notification, device: Device) {
    n.eventId.Some? && Deliveries(cfg, actions, D.Key(n.eventId.value, device)) >= 1
  }

  /** Whatever is interleaved and whatever the clock says: a device is held back only if
      this very event was accepted for this very device before. What happened to other
      events and to other devices of the same event never matters. */
  lemma HeldBackWasAccepted(cfg: D.Config, actions: seq<Action>, now: nat, n: Notification, device: Device)
    requires HeldBack(cfg, actions, now, n, device)
    requires forall a :: a in actions && a.Elsewhere? ==> n.eventId != Some(a.key.eventId) || a.key.device != device
    ensures Accepted(cfg, actions, n, device)
  {
    hide DR.After, Deliveries, Run, D.IsDuplicate;
    var tasks := Run(cfg, actions).tasks;
    var t := FreeTask(tasks.Keys);
    NeverShadowed(cfg, actions, Check(t, now, EventKey(n.eventId.value, device)));
  }

  lemma {:induction false} FreeTask(used: set<nat>) returns (t: nat)
    ensures t !in used && forall u :: u in used ==> u < t
    decreases |used|
  {
    if used == {} {
      t := 0;
    } else {
      var u :| u in used;
      var v := FreeTask(used - {u});
      t := if v > u then v else u + 1;
      assert forall x :: x in used ==> x == u || x in used - {u};
    }
  }

  /** One task for each device, whose attempts for it follow each other; none is under way yet. */
  ghost predicate TaskPerDevice(cfg: D.Config, before: seq<Action>, more: seq<Action>, n: Notification)
    requires n.eventId.Some?
  {
    && (forall a, i :: a in more && a.Check? && 0 <= i < |n.devices| && a.key == D.Key(n.eventId.value, n.devices[i])
          ==> a.task == i)
    && (forall t, i :: t in Run(cfg, before).tasks && 0 <= i < |n.devices| ==>
          Run(cfg, before).tasks[t].key != D.Key(n.eventId.value, n.devices[i]))
  }

  /** Retry shield: on a gateway with any history, one event notification with distinct
      devices is sent and sent again, its per-device steps interleaved with each other and
      with any other traffic. Within one window every device gets it at most once more. */
  lemma RetryShield(cfg: D.Config, before: seq<Action>, more: seq<Action>, n: Notification, start: nat, i: nat)
    requires n.eventId.Some? && DistinctDevices(n) && i < |n.devices| && TaskPerDevice(cfg, before, more, n)
    requires forall a :: a in more && a.Elsewhere? ==> a.key !in KeysOf(n)
    requires cfg.ttl > 0 && Timely(before + more) && OneWindow(cfg, before, more, start)
    ensures var key := D.Key(n.eventId.value, n.devices[i]);
      Deliveries(cfg, before + more, key) <= Deliveries(cfg, before, key) + 1
  {
    hide DR.After, Deliveries, Run, Timely, OneWindow;
    var keys := KeysOf(n);
    forall j, k | 0 <= j < k < |keys| ensures keys[j] != keys[k] {
      KeysTellApart(n.eventId.value, n.devices[j], n.eventId.value, n.devices[k]);
    }
    RetryIdempotence(cfg, before, more, keys, start, i);
  }
}
