/** One device's way through the gateway, as functions: which answer, which
    recording, which queue entry. The provider's verdict, the serializer's verdict
    and the clock readings come from outside. */
module Pipeline {
  import opened Prelude
  import opened Api
  import QueueRuns
  import D = DedupSpec
  import DR = DedupRuns
  import DW = DedupWindow
  import opened Attempts

  /** How one device came out, as far as the answer to the request is concerned. */
  datatype Disposition = Fine | Reject(pushkey: string) | Failed

  datatype Setup = Setup(apps: set<string>, rejectUnknownApps: bool)

  /** What the world does during one delivery. */
  datatype World = World(rejectedCheck: nat, check: nat, outcome: Outcome, encodes: bool, enqueued: nat, recorded: nat)

  /** The answer for one device, and what was recorded and queued on the way. */
  datatype Result = Result(disposition: Disposition, records: seq<D.Record>, queued: seq<QueueRuns.Op>)

  function EventKey(eventId: string, device: Device): D.Key {
    D.Key(eventId, device)
  }

  /** Rejected pushkeys are kept in a cache of the same kind, under a fixed event. */
  function RejectedKey(device: Device): D.Key {
    D.Key("", device)
  }

  predicate IsRepeat(cfg: D.Config, cache: D.State, now: nat, n: Notification, device: Device) {
    n.eventId.Some? && D.IsDuplicate(cfg, cache, now, EventKey(n.eventId.value, device))
  }

  function RecordsOf(n: Notification, device: Device, now: nat): seq<D.Record> {
    if n.eventId.Some? then [D.Record(now, EventKey(n.eventId.value, device))] else []
  }

  function Answered(outcome: Outcome, device: Device): Disposition {
    match outcome
    case Delivered => Fine
    case Rejected => Reject(device.pushkey)
    case Skipped => Fine
    case Transient => Failed
  }

  /** Delivery by this instance's own providers. */
  function Direct(setup: Setup, cfg: D.Config, cache: D.State, n: Notification, device: Device, w: World): Result {
    if device.appId !in setup.apps then
      Result(if setup.rejectUnknownApps then Reject(device.pushkey) else Fine, [], [])
    else if IsRepeat(cfg, cache, w.check, n, device) then Result(Fine, [], [])
    else Result(Answered(w.outcome, device), if w.outcome.Delivered? then RecordsOf(n, device, w.recorded) else [], [])
  }

  /** A queue entry carries the notification with this one device. */
  function Payload(n: Notification, device: Device): Value {
    Readable(n.(devices := [device]))
  }

  /** Count-only notifications coalesce per device. */
  function CountKey(n: Notification, device: Device): Option<Device> {
    if n.eventId.None? then Some(device) else None
  }

  /** Acceptance into the queue; a pushkey already reported as dead is refused first. */
  function ViaQueue(cfg: D.Config, cache: D.State, rejectedCfg: D.Config, rejected: D.State,
                    n: Notification, device: Device, w: World): Result {
    if D.IsDuplicate(rejectedCfg, rejected, w.rejectedCheck, RejectedKey(device)) then
      Result(Reject(device.pushkey), [], [])
    else if IsRepeat(cfg, cache, w.check, n, device) then Result(Fine, [], [])
    else if !w.encodes then Result(Failed, [], [])
    else Result(Fine, RecordsOf(n, device, w.recorded),
                [QueueRuns.Arrive(w.enqueued, Payload(n, device), CountKey(n, device))])
  }

  /** Suppression never confuses two events or two devices. */
  lemma KeysTellApart(e: string, d: Device, f: string, c: Device)
    ensures EventKey(e, d) == EventKey(f, c) <==> e == f && d.appId == c.appId && d.pushkey == c.pushkey
    ensures RejectedKey(d) == RejectedKey(c) <==> d.appId == c.appId && d.pushkey == c.pushkey
  {
  }

  /** A delivery is held back only if that very event was recorded for that very device,
      less than the TTL ago; count-only notifications never are. By any clock. */
  lemma RepeatWasRecorded(cfg: D.Config, rs: seq<D.Record>, now: nat, n: Notification, device: Device)
    requires IsRepeat(cfg, DR.After(cfg, rs), now, n, device)
    ensures n.eventId.Some?
    ensures exists r :: r in rs && r.key == D.Key(n.eventId.value, device) && Since(now, r.time) < cfg.ttl
  {
    hide DR.After;
    DR.DuplicateWasRecorded(cfg, rs, now, EventKey(n.eventId.value, device));
  }

  /** Window `i` is for this very event and device, still open, and not crowded out. */
  ghost predicate HoldsBack(cfg: D.Config, windows: seq<D.Record>, i: nat, now: nat, n: Notification, device: Device)
    requires i < |windows|
  {
    && n.eventId == Some(windows[i].key.eventId) && windows[i].key.device == device
    && Since(now, windows[i].time) < cfg.ttl && |windows| - 1 - i < cfg.maxEntries
  }

  /** With a monotone clock: exactly when the event's window for the device is still open
      and not crowded out by `maxEntries` others. */
  lemma RepeatExactly(cfg: D.Config, rs: seq<D.Record>, now: nat, n: Notification, device: Device)
    requires DW.Sorted(rs) && DW.Clock(rs) <= now
    ensures var windows := DR.Accepted(cfg, rs);
      IsRepeat(cfg, DR.After(cfg, rs), now, n, device) <==>
        exists i :: 0 <= i < |windows| && HoldsBack(cfg, windows, i, now, n, device)
  {
    hide DR.After, DR.Accepted;
    if n.eventId.Some? {
      var windows, key := DR.Accepted(cfg, rs), EventKey(n.eventId.value, device);
      DW.ReportedExactly(cfg, rs, now, key);
      assert forall i :: 0 <= i < |windows| ==>
        (DW.Opens(cfg, windows, i, now, key) <==> HoldsBack(cfg, windows, i, now, n, device));
    }
  }

  /** What comes of a direct delivery. An unknown app is rejected or skipped, as configured;
      a repeat is fine; otherwise the provider decides. Only an accepted event is recorded,
      when it was accepted, and nothing is queued. */
  lemma DirectExactly(setup: Setup, cfg: D.Config, cache: D.State, n: Notification, device: Device, w: World)
    ensures var r := Direct(setup, cfg, cache, n, device, w);
      var tried := device.appId in setup.apps && !IsRepeat(cfg, cache, w.check, n, device);
      && (r.disposition == Failed <==> tried && w.outcome.Transient?)
      && (r.disposition.Reject? <==>
            (tried && w.outcome.Rejected?) || (device.appId !in setup.apps && setup.rejectUnknownApps))
      && (r.disposition.Reject? ==> r.disposition.pushkey == device.pushkey)
      && r.queued == []
      && (r.records == [] <==> !(tried && w.outcome.Delivered? && n.eventId.Some?))
      && (r.records != [] ==> r.records == [D.Record(w.recorded, D.Key(n.eventId.value, device))])
  {
    hide D.IsDuplicate;
  }

  /** What comes of queueing. A pushkey known to be dead is rejected before all else, a
      repeat is fine, and what cannot be encoded fails. Otherwise the notification is queued
      once, for this device only, to coalesce iff it carries no event; and an event is recorded. */
  lemma ViaQueueExactly(cfg: D.Config, cache: D.State, rejectedCfg: D.Config, rejected: D.State,
                        n: Notification, device: Device, w: World)
    ensures var q := ViaQueue(cfg, cache, rejectedCfg, rejected, n, device, w);
      var dead := D.IsDuplicate(rejectedCfg, rejected, w.rejectedCheck, D.Key("", device));
      var repeat := IsRepeat(cfg, cache, w.check, n, device);
      && (q.disposition.Reject? <==> dead) && (dead ==> q.disposition.pushkey == device.pushkey)
      && (q.disposition == Failed <==> !dead && !repeat && !w.encodes)
      && (q.queued == [] <==> dead || repeat || !w.encodes)
      && (q.records == [] <==> q.queued == [] || n.eventId.None?)
      && (q.records != [] ==> q.records == [D.Record(w.recorded, D.Key(n.eventId.value, device))])
      && (q.queued != [] ==>
            q.queued == [QueueRuns.Arrive(w.enqueued, Readable(Notification([device], n.eventId, n.body)),
                                          if n.eventId.Some? then None else Some(device))])
  {
    hide D.IsDuplicate;
  }

  /** For the cache, queueing is delivering: unless the pushkey is known to be rejected,
      the queue path treats it as a provider would that accepts whatever encodes. */
  lemma QueueingIsDelivery(setup: Setup, cfg: D.Config, cache: D.State, rejectedCfg: D.Config, rejected: D.State,
                           n: Notification, device: Device, w: World)
    requires device.appId in setup.apps
    requires !D.IsDuplicate(rejectedCfg, rejected, w.rejectedCheck, RejectedKey(device))
    ensures var q := ViaQueue(cfg, cache, rejectedCfg, rejected, n, device, w);
      var d := Direct(setup, cfg, cache, n, device, w.(outcome := if w.encodes then Delivered else Transient));
      q.disposition == d.disposition && q.records == d.records
  {
    hide D.IsDuplicate;
  }

  // --- the response to a whole notification ---

  datatype Response = Ok(rejected: seq<string>) | BadGateway(failed: nat)

  function RejectedIn(ds: seq<Disposition>): seq<string> {
    if ds == [] then []
    else
      var n := |ds| - 1;
      RejectedIn(ds[..n]) + if ds[n].Reject? then [ds[n].pushkey] else []
  }

  function FailedIn(ds: seq<Disposition>): nat {
    if ds == [] then 0 else FailedIn(ds[..|ds| - 1]) + if ds[|ds| - 1].Failed? then 1 else 0
  }

  /** One failed delivery fails the whole request, and the homeserver retries;
      otherwise the answer lists exactly the rejected pushkeys, in device order. */
  method Respond(ds: seq<Disposition>) returns (r: Response)
    ensures r.BadGateway? <==> Failed in ds
    ensures r.BadGateway? ==> r.failed == multiset(ds)[Failed]
    ensures r.Ok? ==> exists at :: ListsRejects(ds, at, r.rejected)
  {
    var rejected: seq<string>, failed := [], 0;
    for i := 0 to |ds|
      invariant rejected == RejectedIn(ds[..i]) && failed == FailedIn(ds[..i])
    {
      assert ds[..i + 1][..i] == ds[..i];
      match ds[i]
      case Fine =>
      case Reject(pushkey) => rejected := rejected + [pushkey];
      case Failed => failed := failed + 1;
    }
    assert ds[..|ds|] == ds;
    var at := FoldMeaning(ds);
    if failed > 0 {
      return BadGateway(failed);
    }
    return Ok(rejected);
  }

  /** `at` are the places of all rejected devices, in order, and `keys` their pushkeys. */
  ghost predicate ListsRejects(ds: seq<Disposition>, at: seq<nat>, keys: seq<string>) {
    && Increasing(at) && |keys| == |at|
    && (forall i: nat :: i in at <==> i < |ds| && ds[i].Reject?)
    && (forall k :: 0 <= k < |at| ==> at[k] < |ds| && ds[at[k]] == Reject(keys[k]))
  }

  lemma ListMore(ds: seq<Disposition>, at: seq<nat>, keys: seq<string>)
    requires ds != [] && ListsRejects(ds[..|ds| - 1], at, keys)
    ensures var n := |ds| - 1;
      if ds[n].Reject? then ListsRejects(ds, at + [n], keys + [ds[n].pushkey]) else ListsRejects(ds, at, keys)
  {
    var n := |ds| - 1;
    assert forall k :: 0 <= k < |at| ==> at[k] in at;
    assert forall i: nat :: i in at + [n] <==> i in at || i == n;
  }

  /** Every failure is counted, and every rejected pushkey listed, once for each device and
      in device order. */
  lemma {:induction false} FoldMeaning(ds: seq<Disposition>) returns (at: seq<nat>)
    ensures FailedIn(ds) == multiset(ds)[Failed] && (FailedIn(ds) > 0 <==> Failed in ds)
    ensures ListsRejects(ds, at, RejectedIn(ds))
  {
    hide ListsRejects;
    if ds == [] {
      at := [];
      assert ListsRejects([], [], []) by {
        NothingListed();
      }
    } else {
      var n := |ds| - 1;
      at := FoldMeaning(ds[..n]);
      assert ds == ds[..n] + [ds[n]];
      ListMore(ds, at, RejectedIn(ds[..n]));
      at := if ds[n].Reject? then at + [n] else at;
      assert RejectedIn(ds[..n]) + [] == RejectedIn(ds[..n]);
    }
  }

  lemma NothingListed()
    ensures ListsRejects([], [], [])
  {
  }
}
