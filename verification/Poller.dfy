/** The poll side: one cycle of fetch, deliver, acknowledge. */
module Poller {
  import opened Prelude
  import opened Api
  import D = DedupSpec
  import DR = DedupRuns
  import opened Pipeline
  import G = Gateway

  /** Why a cycle failed; the loop then backs off and polls again. */
  datatype CycleResult = Fetched(entries: nat) | PollFailed | AckFailed

  // --- what the ack says, given how every device of every entry came out ---

  /** An entry is settled when it is unreadable or none of its deliveries failed. */
  predicate Settles(entry: PollEntry, ds: seq<Disposition>) {
    entry.notification.Unreadable? || Failed !in ds
  }

  function RejectsOf(devices: seq<Device>, ds: seq<Disposition>): seq<Device>
    requires |devices| == |ds|
  {
    if ds == [] then []
    else
      var n := |ds| - 1;
      RejectsOf(devices[..n], ds[..n]) +
      if ds[n].Reject? then [Device(devices[n].appId, ds[n].pushkey)] else []
  }

  function DevicesOf(entry: PollEntry): seq<Device> {
    if entry.notification.Readable? then entry.notification.notification.devices else []
  }

  /** One disposition per device of each readable entry. */
  ghost predicate Covers(entries: seq<PollEntry>, ds: seq<seq<Disposition>>) {
    |ds| == |entries| && forall i :: 0 <= i < |entries| ==> |ds[i]| == |DevicesOf(entries[i])|
  }

  ghost function AckFor(entries: seq<PollEntry>, ds: seq<seq<Disposition>>): AckRequest
    requires Covers(entries, ds)
  {
    if entries == [] then AckRequest([], [])
    else
      var n := |entries| - 1;
      var ack := AckFor(entries[..n], ds[..n]);
      AckRequest(
        ack.acked + (if Settles(entries[n], ds[n]) then [entries[n].id] else []),
        ack.rejectedPushkeys + RejectsOf(DevicesOf(entries[n]), ds[n]))
  }

  lemma {:induction false} RejectsMeaning(devices: seq<Device>, ds: seq<Disposition>)
    requires |devices| == |ds|
    ensures forall r :: r in RejectsOf(devices, ds) <==>
      exists j :: 0 <= j < |ds| && ds[j].Reject? && r == Device(devices[j].appId, ds[j].pushkey)
  {
    if ds != [] {
      var n := |ds| - 1;
      RejectsMeaning(devices[..n], ds[..n]);
      assert forall j :: 0 <= j < n ==> ds[..n][j] == ds[j] && devices[..n][j] == devices[j];
    }
  }

  /** No delivery of the entry failed; there is none if it cannot be read. */
  ghost predicate Unfailed(ds: seq<Disposition>) {
    forall j :: 0 <= j < |ds| ==> ds[j] == Fine || ds[j].Reject?
  }

  /** Exactly the entries without a failed delivery are acked, unreadable ones included, so
      one with a failed delivery is left to its lease; and exactly the rejected devices are
      reported. */
  lemma {:induction false} AckMeaning(entries: seq<PollEntry>, ds: seq<seq<Disposition>>)
    requires Covers(entries, ds)
    ensures forall id :: id in AckFor(entries, ds).acked <==>
      exists i :: 0 <= i < |entries| && entries[i].id == id && Unfailed(ds[i])
    ensures forall r :: r in AckFor(entries, ds).rejectedPushkeys <==>
      exists i :: 0 <= i < |entries| && r in RejectsOf(DevicesOf(entries[i]), ds[i])
  {
    hide Settles, RejectsOf, Unfailed;
    if entries != [] {
      var n := |entries| - 1;
      AckMeaning(entries[..n], ds[..n]);
      SettledIsUnfailed(entries[n], ds[n]);
      assert forall i :: 0 <= i < n ==> entries[..n][i] == entries[i] && ds[..n][i] == ds[i];
    }
  }

  lemma SettledIsUnfailed(entry: PollEntry, ds: seq<Disposition>)
    requires |ds| == |DevicesOf(entry)|
    ensures Settles(entry, ds) <==> Unfailed(ds)
  {
    assert Failed in ds ==> exists j :: 0 <= j < |ds| && ds[j] == Failed;
  }

  /** The ids come in the order of the entries, one for each that is listed. */
  lemma {:induction false} AckInOrder(entries: seq<PollEntry>, ds: seq<seq<Disposition>>) returns (at: seq<nat>)
    requires Covers(entries, ds)
    ensures Increasing(at) && forall i :: i in at <==> 0 <= i < |entries| && Unfailed(ds[i])
    ensures |AckFor(entries, ds).acked| == |at|
    ensures forall k :: 0 <= k < |at| ==>
      at[k] < |entries| && AckFor(entries, ds).acked[k] == entries[at[k]].id
  {
    hide Settles, RejectsOf, Unfailed;
    at := [];
    if entries != [] {
      var n := |entries| - 1;
      at := AckInOrder(entries[..n], ds[..n]);
      SettledIsUnfailed(entries[n], ds[n]);
      assert forall k :: 0 <= k < |at| ==> at[k] in at;
      if Unfailed(ds[n]) {
        at := at + [n];
      }
    }
  }

  /** `at` are the places of all rejected deliveries, in order, and `reports` their devices. */
  ghost predicate ListsReports(devices: seq<Device>, ds: seq<Disposition>, at: seq<nat>, reports: seq<Device>)
    requires |devices| == |ds|
  {
    && Increasing(at) && |reports| == |at|
    && (forall j: nat :: j in at <==> j < |ds| && ds[j].Reject?)
    && (forall k :: 0 <= k < |at| ==>
          at[k] < |ds| && ds[at[k]].Reject? && reports[k] == Device(devices[at[k]].appId, ds[at[k]].pushkey))
  }

  lemma ReportMore(devices: seq<Device>, ds: seq<Disposition>, at: seq<nat>, reports: seq<Device>)
    requires |devices| == |ds| > 0
    requires ListsReports(devices[..|ds| - 1], ds[..|ds| - 1], at, reports)
    ensures var n := |ds| - 1;
      if ds[n].Reject? then ListsReports(devices, ds, at + [n], reports + [Device(devices[n].appId, ds[n].pushkey)])
      else ListsReports(devices, ds, at, reports)
  {
    var n := |ds| - 1;
    assert forall k :: 0 <= k < |at| ==> at[k] in at;
    assert forall j: nat :: j in at + [n] <==> j in at || j == n;
  }

  /** The reports of an entry come in device order, one for each rejection. */
  lemma {:induction false} RejectsInOrder(devices: seq<Device>, ds: seq<Disposition>) returns (at: seq<nat>)
    requires |devices| == |ds|
    ensures ListsReports(devices, ds, at, RejectsOf(devices, ds))
  {
    hide ListsReports;
    if ds == [] {
      at := [];
      NothingReported(devices, ds);
    } else {
      var n := |ds| - 1;
      at := RejectsInOrder(devices[..n], ds[..n]);
      ReportMore(devices, ds, at, RejectsOf(devices[..n], ds[..n]));
      at := if ds[n].Reject? then at + [n] else at;
      assert RejectsOf(devices[..n], ds[..n]) + [] == RejectsOf(devices[..n], ds[..n]);
    }
  }

  lemma NothingReported(devices: seq<Device>, ds: seq<Disposition>)
    requires |devices| == |ds| == 0
    ensures ListsReports(devices, ds, [], [])
  {
  }

  /** And those of the entries in the order of the entries. */
  lemma {:induction false} ReportsInOrder(entries: seq<PollEntry>, ds: seq<seq<Disposition>>, i: nat)
    requires Covers(entries, ds) && i < |entries|
    ensures AckFor(entries[..i], ds[..i]).rejectedPushkeys + RejectsOf(DevicesOf(entries[i]), ds[i])
         <= AckFor(entries, ds).rejectedPushkeys
  {
    hide Settles, RejectsOf, DevicesOf;
    var n := |entries| - 1;
    if i < n {
      ReportsInOrder(entries[..n], ds[..n], i);
      assert entries[..n][..i] == entries[..i] && ds[..n][..i] == ds[..i];
    }
  }

  lemma {:induction false} NoRejects(devices: seq<Device>, ds: seq<Disposition>)
    requires |devices| == |ds| && forall d :: d in ds ==> d.Fine?
    ensures RejectsOf(devices, ds) == []
  {
    if ds != [] {
      assert ds[|ds| - 1] in ds;
      NoRejects(devices[..|ds| - 1], ds[..|ds| - 1]);
    }
  }

  // --- the deliveries of one cycle, in sequence, over the suppression cache ---

  function DeliverDevices(setup: Setup, cfg: D.Config, records: seq<D.Record>, n: Notification,
                          devices: seq<Device>, ws: seq<World>): (r: (seq<Disposition>, seq<D.Record>))
    requires |ws| == |devices|
    ensures |r.0| == |devices|
  {
    if devices == [] then ([], records)
    else
      var k := |devices| - 1;
      var (ds, rs) := DeliverDevices(setup, cfg, records, n, devices[..k], ws[..k]);
      var r := Direct(setup, cfg, DR.After(cfg, rs), n, devices[k], ws[k]);
      (ds + [r.disposition], rs + r.records)
  }

  function DeliverEntry(setup: Setup, cfg: D.Config, records: seq<D.Record>, entry: PollEntry,
                        ws: seq<World>): (r: (seq<Disposition>, seq<D.Record>))
    requires |ws| == |DevicesOf(entry)|
    ensures |r.0| == |DevicesOf(entry)|
  {
    if entry.notification.Unreadable? then ([], records)
    else DeliverDevices(setup, cfg, records, entry.notification.notification, DevicesOf(entry), ws)
  }

  ghost predicate Scripts(entries: seq<PollEntry>, ws: seq<seq<World>>) {
    |ws| == |entries| && forall i :: 0 <= i < |entries| ==> |ws[i]| == |DevicesOf(entries[i])|
  }

  ghost function DeliverEntries(setup: Setup, cfg: D.Config, records: seq<D.Record>, entries: seq<PollEntry>,
                                ws: seq<seq<World>>): (r: (seq<seq<Disposition>>, seq<D.Record>))
    requires Scripts(entries, ws)
    ensures Covers(entries, r.0)
  {
    if entries == [] then ([], records)
    else
      var k := |entries| - 1;
      var (ds, rs) := DeliverEntries(setup, cfg, records, entries[..k], ws[..k]);
      var r := DeliverEntry(setup, cfg, rs, entries[k], ws[k]);
      (ds + [r.0], r.1)
  }

  lemma DeliverOneMore(setup: Setup, cfg: D.Config, records: seq<D.Record>, n: Notification,
                       devices: seq<Device>, ws: seq<World>, j: nat)
    requires |ws| == |devices| && j < |devices|
    ensures var (ds, rs) := DeliverDevices(setup, cfg, records, n, devices[..j], ws[..j]);
      var r := Direct(setup, cfg, DR.After(cfg, rs), n, devices[j], ws[j]);
      DeliverDevices(setup, cfg, records, n, devices[..j + 1], ws[..j + 1]) == (ds + [r.disposition], rs + r.records)
  {
    assert devices[..j + 1][..j] == devices[..j] && ws[..j + 1][..j] == ws[..j];
  }

  lemma DeliverEntryMore(setup: Setup, cfg: D.Config, records: seq<D.Record>, entries: seq<PollEntry>,
                         ws: seq<seq<World>>, i: nat)
    requires Scripts(entries, ws) && i < |entries|
    ensures var (ds, rs) := DeliverEntries(setup, cfg, records, entries[..i], ws[..i]);
      var r := DeliverEntry(setup, cfg, rs, entries[i], ws[i]);
      DeliverEntries(setup, cfg, records, entries[..i + 1], ws[..i + 1]) == (ds + [r.0], r.1)
  {
    hide DeliverEntry;
    assert entries[..i + 1][..i] == entries[..i] && ws[..i + 1][..i] == ws[..i];
  }

  lemma AckMore(entries: seq<PollEntry>, ds: seq<seq<Disposition>>, i: nat, d: seq<Disposition>)
    requires i < |entries| && Covers(entries[..i], ds) && |d| == |DevicesOf(entries[i])|
    ensures Covers(entries[..i + 1], ds + [d])
    ensures AckFor(entries[..i + 1], ds + [d]) == AckRequest(
      AckFor(entries[..i], ds).acked + (if Settles(entries[i], d) then [entries[i].id] else []),
      AckFor(entries[..i], ds).rejectedPushkeys + RejectsOf(DevicesOf(entries[i]), d))
  {
    hide RejectsOf, Settles;
    assert entries[..i + 1][..i] == entries[..i] && (ds + [d])[..i] == ds;
  }

  /** Delivers to the devices of one entry; on a poll-only instance nothing is queued. */
  method DeliverAll(state: G.AppState, n: Notification, ws: seq<World>)
      returns (ds: seq<Disposition>, rejects: seq<Device>)
    requires state.Valid() && state.queue == null && |ws| == |n.devices|
    modifies state.dedup
    ensures state.Valid()
    ensures (ds, state.dedup.records) ==
      DeliverDevices(state.setup, state.dedup.cfg, old(state.dedup.records), n, n.devices, ws)
    ensures |ds| == |n.devices| && rejects == RejectsOf(n.devices, ds)
  {
    ds, rejects := [], [];
    for j := 0 to |n.devices|
      invariant state.Valid() && |ds| == j && rejects == RejectsOf(n.devices[..j], ds)
      invariant (ds, state.dedup.records) ==
        DeliverDevices(state.setup, state.dedup.cfg, old(state.dedup.records), n, n.devices[..j], ws[..j])
    {
      DeliverOneMore(state.setup, state.dedup.cfg, old(state.dedup.records), n, n.devices, ws, j);
      var d := state.DeliverOne(n, n.devices[j], ws[j]);
      assert n.devices[..j + 1][..j] == n.devices[..j] && (ds + [d])[..j] == ds;
      ds := ds + [d];
      if d.Reject? {
        rejects := rejects + [Device(n.devices[j].appId, d.pushkey)];
      }
    }
    assert n.devices[..|n.devices|] == n.devices && ws[..|ws|] == ws;
  }

  /** One entry of a cycle, and what it adds to the ack: an unreadable entry is acked
      away, one with a failed delivery is left to its lease. */
  method HandleEntry(state: G.AppState, entry: PollEntry, ws: seq<World>)
      returns (ds: seq<Disposition>, acked: seq<nat>, rejects: seq<Device>)
    requires state.Valid() && state.queue == null && |ws| == |DevicesOf(entry)|
    modifies state.dedup
    ensures state.Valid()
    ensures (ds, state.dedup.records) ==
      DeliverEntry(state.setup, state.dedup.cfg, old(state.dedup.records), entry, ws)
    ensures |ds| == |DevicesOf(entry)|
    ensures acked == (if Settles(entry, ds) then [entry.id] else []) && rejects == RejectsOf(DevicesOf(entry), ds)
    ensures acked == if Unfailed(ds) then [entry.id] else []
  {
    hide DeliverDevices;
    match entry.notification
    case Unreadable(_) =>
      return [], [entry.id], [];
    case Readable(n) =>
      ds, rejects := DeliverAll(state, n, ws);
      acked := if Failed in ds then [] else [entry.id];
      SettledIsUnfailed(entry, ds);
  }

  /** One cycle. `reply` is the poll's answer if it arrived; `ws` is what happens
      during each delivery; `ackArrives` whether the ack got through. The ack is
      sent unless it would be empty. */
  method PollOnce(state: G.AppState, reply: Option<seq<PollEntry>>, ws: seq<seq<World>>, ackArrives: bool)
      returns (result: CycleResult, ack: AckRequest)
    requires state.Valid() && state.queue == null
    requires reply.Some? ==> Scripts(reply.value, ws)
    modifies state.dedup
    ensures state.Valid()
    ensures reply.None? ==>
      result == PollFailed && state.dedup.records == old(state.dedup.records) && ack == AckRequest([], [])
    ensures reply.Some? ==>
      var (ds, records) := DeliverEntries(state.setup, state.dedup.cfg, old(state.dedup.records), reply.value, ws);
      && state.dedup.records == records
      && ack == AckFor(reply.value, ds)
      && (forall id :: id in ack.acked <==>
            exists i :: 0 <= i < |ds| && reply.value[i].id == id && Unfailed(ds[i]))
      && result == if ackArrives || ack == AckRequest([], []) then Fetched(|reply.value|) else AckFailed
  {
    hide DeliverEntry, Settles, RejectsOf, DevicesOf, Unfailed;
    if reply.None? {
      return PollFailed, AckRequest([], []);
    }
    var entries := reply.value;
    var acked: seq<nat>, rejected: seq<Device> := [], [];
    ghost var start, ds := state.dedup.records, [];
    for i := 0 to |entries|
      invariant state.Valid() && Covers(entries[..i], ds)
      invariant (ds, state.dedup.records) ==
        DeliverEntries(state.setup, state.dedup.cfg, start, entries[..i], ws[..i])
      invariant AckRequest(acked, rejected) == AckFor(entries[..i], ds)
    {
      DeliverEntryMore(state.setup, state.dedup.cfg, start, entries, ws, i);
      var outcome, settled, rejects := HandleEntry(state, entries[i], ws[i]);
      AckMore(entries, ds, i, outcome);
      ds := ds + [outcome];
      acked := acked + settled;
      rejected := rejected + rejects;
    }
    assert entries[..|entries|] == entries && ws[..|ws|] == ws;
    ack := AckRequest(acked, rejected);
    AckMeaning(entries, ds);
    if acked == [] && rejected == [] {
      return Fetched(|entries|), ack;
    }
    return if ackArrives then Fetched(|entries|) else AckFailed, ack;
  }
}
