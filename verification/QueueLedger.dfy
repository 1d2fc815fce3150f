/** Where every entry is and why it left, over every run and with any clock. */
module QueueLedger {
  import opened Prelude
  import opened Api
  import opened QueueSpec
  import opened QueueRuns

  // --- one step: who stays, who leaves, and for which reason ---

  /** The entry is pending with at least `maxEntries - 1` others behind it. */
  ghost predicate CrowdedOut(cfg: Config, s: State, id: nat) {
    exists p :: 0 <= p < |s.pending| && s.pending[p].id == id && |s.pending| - p >= cfg.maxEntries
  }

  /** The only reasons for which a step may let go of entry `id`. */
  ghost predicate Cause(cfg: Config, ops: seq<Op>, op: Op, id: nat)
    requires id < |Log(ops)|
  {
    var s, e := After(cfg, ops), Log(ops)[id];
    match op
    case Settle(ids) => id in ids && id in s.leased
    case Arrive(now, payload, key) => CrowdedOut(cfg, s, id)
    case Poll(now, max) =>
      || Since(now, e.enqueued) >= cfg.entryTtl
      || (e.countKey.Some? && exists j :: id < j < |Log(ops)| && Log(ops)[j].countKey == e.countKey)
  }

  /** In every reachable state a held entry is live exactly when it is an event
      entry or the newest badge ever enqueued for its device. */
  lemma LiveIffNewest(cfg: Config, ops: seq<Op>, id: nat)
    requires id in Held(After(cfg, ops))
    ensures id < |Log(ops)|
    ensures var e := Log(ops)[id];
      IsLive(After(cfg, ops).index, e) <==> e.countKey.None? || IsNewest(Log(ops), id)
  {
    hide After, Log, Newest;
    RunInv(cfg, ops);
    NewestFacts(Log(ops));
  }

  /** An entry a poll passes over or drops is stale or superseded. */
  lemma PollKeepsTheRest(cfg: Config, s: State, log: seq<Entry>, now: nat, max: nat, id: nat)
    requires Inv(s, log)
    requires id in Held(s) && id !in Held(Take(cfg, s, now, max))
    ensures !ViewAt(cfg, s, now).Keeps(log[id])
  {
    var v, pool, base, s' := ViewAt(cfg, s, now), Pool(cfg, s, now), s.leased - ExpiredIds(s, now),
                             Take(cfg, s, now, max);
    TakeFacts(cfg, s, log, now, max);
    if v.Keeps(log[id]) {
      KeptIsRead(cfg, s, log, now, id);
      ReadOrLeft(v, pool, base, now + cfg.lease, max, Batch(cfg, s, now, max), s'.pending, s'.leased, log[id]);
    }
  }

  /** A deliverable entry whose lease is over is offered to the poll. */
  lemma KeptIsRead(cfg: Config, s: State, log: seq<Entry>, now: nat, id: nat)
    requires Inv(s, log) && id in Held(s) && ViewAt(cfg, s, now).Keeps(log[id])
    ensures log[id] in Pool(cfg, s, now) || id in (s.leased - ExpiredIds(s, now))
  {
    if id in ExpiredIds(s, now) {
      AscendingFacts(ExpiredIds(s, now), s.nextId);
      var i :| 0 <= i < |Expired(s, now)| && Ascending(ExpiredIds(s, now), s.nextId)[i] == id;
      ExpiredListing(s, log, now, i);
      KeptMembers(ViewAt(cfg, s, now), Expired(s, now));
    } else if id !in s.leased {
      var e :| e in s.pending && e.id == id;
    }
  }

  lemma ReadOrLeft(v: View, pool: seq<Entry>, base: map<nat, Lease>, deadline: nat, max: nat,
                   batch: seq<Entry>, pending: seq<Entry>, leased: map<nat, Lease>, e: Entry)
    requires Cuts(v, pool, base, deadline, max, batch, pending, leased)
    requires v.Keeps(e) && (e in pool || e.id in base)
    ensures e.id in Ids(pending) || e.id in leased
  {
    var n := Scan(v, max, pool);
    assert pool == pool[..n] + pool[n..];
    KeptMembers(v, pool[..n]);
  }

  /** An arrival evicts exactly the pending entries with `maxEntries - 1` or more behind them. */
  lemma EvictedByPosition(cfg: Config, s: State, log: seq<Entry>, now: nat, payload: Value, key: Option<Device>)
    requires Inv(s, log)
    ensures var s' := Enqueue(cfg, s, now, payload, key);
      && (forall p :: 0 <= p < |s.pending| ==>
            (s.pending[p].id in Held(s') <==> |s.pending| - p < cfg.maxEntries))
      && (forall id :: id in Held(s) && id !in Held(s') ==> id in Ids(s.pending))
  {
    hide Retain, Newest;
    var s' := Enqueue(cfg, s, now, payload, key);
    var gone := |s.pending| + 1 - |s'.pending|;
    EnqueueKeepsNewest(cfg, s, now, payload, key);
    CutDistinct(s.pending, gone);
    IdsAppend(s.pending[gone..], [Entry(s.nextId, now, payload, key)]);
    forall p | 0 <= p < |s.pending|
      ensures s.pending[p].id in Held(s') <==> |s.pending| - p < cfg.maxEntries
    {
      assert s.pending[p] in s.pending;
      if p < gone {
        assert s.pending[p] in s.pending[..gone];
      } else {
        assert s.pending[p] in s.pending[gone..];
      }
    }
  }

  /** A step adds at most the new id, and never loses an entry without cause. */
  lemma StepLedger(cfg: Config, ops: seq<Op>, op: Op)
    ensures var s, s' := After(cfg, ops), After(cfg, ops + [op]);
      && Held(s') <= Held(s) + (if op.Arrive? then {s.nextId} else {})
      && (op.Arrive? ==> s.nextId in Held(s') && s.nextId !in Held(s))
      && (forall id :: id in Held(s) && id !in Held(s') ==> id < |Log(ops)| && Cause(cfg, ops, op, id))
  {
    var s, log := After(cfg, ops), Log(ops);
    RunInv(cfg, ops);
    assert (ops + [op])[..|ops|] == ops;
    match op
    case Arrive(now, payload, key) =>
      EnqueueKeepsInv(cfg, s, log, now, payload, key);
      EvictedByPosition(cfg, s, log, now, payload, key);
    case Settle(ids) =>
      AckKeepsInv(s, log, IdSet(ids));
    case Poll(now, max) =>
      TakeKeepsInv(cfg, s, log, now, max);
      forall id | id in Held(s) && id !in Held(Take(cfg, s, now, max))
        ensures id < |log| && Cause(cfg, ops, op, id)
      {
        PollKeepsTheRest(cfg, s, log, now, max, id);
        LiveIffNewest(cfg, ops, id);
      }
  }

  // --- whole runs ---

  /** Step `i` of the run lets go of entry `id`. */
  ghost predicate Departs(cfg: Config, ops: seq<Op>, i: nat, id: nat) {
    i < |ops| && id in Held(After(cfg, ops[..i])) && id !in Held(After(cfg, ops[..i + 1]))
  }

  lemma {:induction false} LogGrows(ops: seq<Op>, i: nat)
    requires i <= |ops|
    ensures Log(ops[..i]) <= Log(ops)
  {
    if i < |ops| {
      LogGrows(ops[..|ops| - 1], i);
      assert ops[..|ops| - 1][..i] == ops[..i];
    } else {
      assert ops[..i] == ops;
    }
  }

  lemma StepAt(cfg: Config, ops: seq<Op>, i: nat, id: nat)
    requires i < |ops| && id < |Log(ops[..i])|
    ensures id in Held(After(cfg, ops[..i + 1])) ==> id in Held(After(cfg, ops[..i]))
    ensures Departs(cfg, ops, i, id) ==> Cause(cfg, ops[..i], ops[i], id)
  {
    assert ops[..i] + [ops[i]] == ops[..i + 1];
    RunInv(cfg, ops[..i]);
    StepLedger(cfg, ops[..i], ops[i]);
  }

  /** An entry that left never comes back. */
  lemma {:induction false} GoneStaysGone(cfg: Config, ops: seq<Op>, i: nat, j: nat, id: nat)
    requires i <= j <= |ops| && id < |Log(ops[..i])|
    requires id !in Held(After(cfg, ops[..i]))
    ensures id !in Held(After(cfg, ops[..j]))
  {
    hide After, Log, Held, Departs, Cause;
    if i < j {
      GoneStaysGone(cfg, ops, i, j - 1, id);
      LogGrows(ops[..j - 1], i);
      assert ops[..j - 1][..i] == ops[..i];
      StepAt(cfg, ops, j - 1, id);
    }
  }

  lemma NewcomerIsHeld(cfg: Config, ops: seq<Op>, op: Op)
    requires op.Arrive?
    ensures |Log(ops)| in Held(After(cfg, ops + [op]))
  {
    RunInv(cfg, ops);
    StepLedger(cfg, ops, op);
  }

  lemma {:induction false} FindDeparture(cfg: Config, ops: seq<Op>, n: nat, id: nat) returns (i: nat)
    requires n <= |ops| && id < |Log(ops[..n])| && id !in Held(After(cfg, ops[..n]))
    ensures Departs(cfg, ops, i, id)
  {
    hide Held, Apply;
    assert n > 0;
    var before := ops[..n - 1];
    assert ops[..n][..n - 1] == before && before + [ops[n - 1]] == ops[..n];
    if id in Held(After(cfg, before)) {
      i := n - 1;
    } else {
      if id == |Log(before)| {
        NewcomerIsHeld(cfg, before, ops[n - 1]);
      }
      i := FindDeparture(cfg, ops, n - 1, id);
    }
  }

  /** The ledger: every id ever given out is pending, leased, or departed, in
      exactly one of these ways, and it departed once, for a listed cause. */
  lemma Ledger(cfg: Config, ops: seq<Op>, id: nat)
    requires id < After(cfg, ops).nextId
    ensures var s := After(cfg, ops);
      !(id in Ids(s.pending) && id in s.leased) && Distinct(s.pending)
    ensures id in Held(After(cfg, ops)) <==> !exists i: nat :: Departs(cfg, ops, i, id)
    ensures forall i: nat, j: nat :: Departs(cfg, ops, i, id) && Departs(cfg, ops, j, id) ==> i == j
    ensures forall i: nat :: Departs(cfg, ops, i, id) ==>
      id < |Log(ops[..i])| && Cause(cfg, ops[..i], ops[i], id)
  {
    RunInv(cfg, ops);
    forall i: nat | Departs(cfg, ops, i, id)
      ensures id !in Held(After(cfg, ops)) && id < |Log(ops[..i])| && Cause(cfg, ops[..i], ops[i], id)
      ensures forall j: nat :: i < j ==> !Departs(cfg, ops, j, id)
    {
      DepartureIsFinal(cfg, ops, i, id);
    }
    if id !in Held(After(cfg, ops)) {
      assert ops[..|ops|] == ops;
      var i := FindDeparture(cfg, ops, |ops|, id);
    }
  }

  lemma HeldIsLogged(cfg: Config, ops: seq<Op>, id: nat)
    requires id in Held(After(cfg, ops))
    ensures id < |Log(ops)|
  {
    RunInv(cfg, ops);
  }

  lemma DepartureIsFinal(cfg: Config, ops: seq<Op>, i: nat, id: nat)
    requires Departs(cfg, ops, i, id)
    ensures id !in Held(After(cfg, ops))
    ensures id < |Log(ops[..i])| && Cause(cfg, ops[..i], ops[i], id)
    ensures forall j: nat :: i < j ==> !Departs(cfg, ops, j, id)
  {
    hide After, Log, Held, Cause;
    HeldIsLogged(cfg, ops[..i], id);
    StepAt(cfg, ops, i, id);
    LogGrows(ops[..i + 1], i);
    assert ops[..i + 1][..i] == ops[..i];
    GoneStaysGone(cfg, ops, i + 1, |ops|, id);
    assert ops[..|ops|] == ops;
    forall j: nat | i < j ensures !Departs(cfg, ops, j, id) {
      if j < |ops| {
        GoneStaysGone(cfg, ops, i + 1, j, id);
      }
    }
  }
}
