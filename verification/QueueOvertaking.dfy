/** A run in which a younger entry overtakes an older one: the condition of
    QueueOrder.FifoExactly cannot be dropped. */
module QueueOvertaking {
  import opened Prelude
  import opened Api
  import opened QueueSpec
  import opened QueueRuns
  import opened QueueOrder

  // --- polls of a buffer in which everything is deliverable ---

  /** With every held entry live and fresh, a poll is a plain cut of expired ++ pending. */
  lemma PlainPoll(cfg: Config, s: State, log: seq<Entry>, now: nat, max: nat)
    requires Inv(s, log)
    requires forall id :: id in Held(s) ==> id < |log| && ViewAt(cfg, s, now).Keeps(log[id])
    ensures var pool := Expired(s, now) + s.pending;
      && Batch(cfg, s, now, max) == pool[..Min(max, |pool|)]
      && Take(cfg, s, now, max).pending == pool[Min(max, |pool|)..]
  {
    var v, expired := ViewAt(cfg, s, now), Expired(s, now);
    ExpiredFacts(s, log, now);
    assert forall e :: e in expired || e in s.pending ==> v.Keeps(e);
    KeptMembers(v, expired);
    KeptMembers(v, expired + s.pending);
    ScanAllKept(v, max, expired + s.pending);
  }

  lemma {:induction false} ScanAllKept(v: View, max: nat, es: seq<Entry>)
    requires forall e :: e in es ==> v.Keeps(e)
    ensures Scan(v, max, es) == Min(max, |es|)
  {
    if max > 0 && es != [] {
      assert es[0] in es;
      ScanAllKept(v, max - 1, es[1..]);
    }
  }

  // --- the run that breaks FIFO without that room ---

  function IdSeq(es: seq<Entry>): (ids: seq<nat>)
    ensures |ids| == |es| && forall i :: 0 <= i < |es| ==> ids[i] == es[i].id
  {
    seq(|es|, i requires 0 <= i < |es| => es[i].id)
  }

  /** Only event entries, all enqueued at time 0. */
  ghost predicate EventsOnly(log: seq<Entry>) {
    forall e :: e in log ==> e.countKey.None? && e.enqueued == 0
  }

  /** A state described by ids and lease deadlines alone. */
  ghost predicate Looks(s: State, pending: seq<nat>, deadlines: map<nat, nat>) {
    && IdSeq(s.pending) == pending
    && s.leased.Keys == deadlines.Keys
    && (forall id :: id in deadlines ==> s.leased[id].deadline == deadlines[id])
  }

  lemma ExpiredIdSeq(s: State, log: seq<Entry>, pending: seq<nat>, deadlines: map<nat, nat>, now: nat,
                     expired: seq<nat>)
    requires Inv(s, log) && Looks(s, pending, deadlines)
    requires Increasing(expired) && forall id :: id in expired <==> id in deadlines && deadlines[id] <= now
    ensures IdSeq(Expired(s, now)) == expired
    ensures ExpiredIds(s, now) == IdSet(expired)
  {
    AscendingFacts(ExpiredIds(s, now), s.nextId);
    ListingIsUnique(expired, Ascending(ExpiredIds(s, now), s.nextId));
    forall i: nat | i < |Expired(s, now)| ensures Expired(s, now)[i].id == expired[i] {
      ExpiredListing(s, log, now, i);
    }
  }

  lemma EventPoll(cfg: Config, s: State, log: seq<Entry>, now: nat, max: nat)
    requires Inv(s, log) && EventsOnly(log) && now < cfg.entryTtl
    ensures var pool := Expired(s, now) + s.pending;
      && Batch(cfg, s, now, max) == pool[..Min(max, |pool|)]
      && Take(cfg, s, now, max).pending == pool[Min(max, |pool|)..]
  {
    forall id | id in Held(s) ensures id < |log| && ViewAt(cfg, s, now).Keeps(log[id]) {
      assert id < |log| && log[id] in log;
    }
    PlainPoll(cfg, s, log, now, max);
  }

  lemma LooksAfterPoll(cfg: Config, s: State, log: seq<Entry>, pending: seq<nat>, deadlines: map<nat, nat>, now: nat,
                       max: nat, expired: seq<nat>, batch: seq<nat>, pending': seq<nat>)
    requires Inv(s, log) && EventsOnly(log) && now < cfg.entryTtl
    requires Looks(s, pending, deadlines)
    requires Increasing(expired) && forall id :: id in expired <==> id in deadlines && deadlines[id] <= now
    requires expired + pending == batch + pending' && |batch| == Min(max, |expired + pending|)
    ensures IdSeq(Batch(cfg, s, now, max)) == batch
    ensures IdSeq(Take(cfg, s, now, max).pending) == pending'
    ensures ExpiredIds(s, now) == IdSet(expired)
  {
    hide Batch, Take, Kept, Expired, Newest, Retain;
    ExpiredIdSeq(s, log, pending, deadlines, now, expired);
    EventPoll(cfg, s, log, now, max);
    var pool := Expired(s, now) + s.pending;
    assert IdSeq(pool) == expired + pending;
  }

  lemma LeasesAfterPoll(cfg: Config, s: State, log: seq<Entry>, now: nat, max: nat, batch: seq<nat>)
    requires Inv(s, log) && IdSeq(Batch(cfg, s, now, max)) == batch
    ensures var s' := Take(cfg, s, now, max);
      && s'.leased.Keys == s.leased.Keys - ExpiredIds(s, now) + IdSet(batch)
      && (forall id :: id in batch ==> s'.leased[id].deadline == now + cfg.lease)
      && (forall id :: id in s.leased.Keys - ExpiredIds(s, now) ==> s'.leased[id] == s.leased[id])
  {
    TakeFacts(cfg, s, log, now, max);
    var es := Batch(cfg, s, now, max);
    assert forall e :: e in es ==> e.id in batch;
    forall id | id in batch ensures exists e :: e in es && e.id == id {
      var i :| 0 <= i < |batch| && batch[i] == id;
      assert es[i] in es;
    }
  }

  lemma NextLooks(cfg: Config, s: State, log: seq<Entry>, pending: seq<nat>, deadlines: map<nat, nat>, now: nat,
                  max: nat, expired: seq<nat>, batch: seq<nat>, pending': seq<nat>, deadlines': map<nat, nat>)
    requires Inv(s, log) && EventsOnly(log) && now < cfg.entryTtl
    requires Looks(s, pending, deadlines)
    requires Increasing(expired) && forall id :: id in expired <==> id in deadlines && deadlines[id] <= now
    requires expired + pending == batch + pending' && |batch| == Min(max, |expired + pending|)
    requires deadlines'.Keys == deadlines.Keys - IdSet(expired) + IdSet(batch)
    requires forall id :: id in deadlines' ==> deadlines'[id] == if id in batch then now + cfg.lease else deadlines[id]
    ensures Inv(Take(cfg, s, now, max), log)
    ensures Looks(Take(cfg, s, now, max), pending', deadlines')
    ensures IdSeq(Batch(cfg, s, now, max)) == batch
  {
    hide Batch, Take, Kept, Expired, Newest, Retain, Inv;
    LooksAfterPoll(cfg, s, log, pending, deadlines, now, max, expired, batch, pending');
    LeasesAfterPoll(cfg, s, log, now, max, batch);
    TakeKeepsInv(cfg, s, log, now, max);
  }

  /** With a lease of two seconds: four events, polled two by two, then one by one
      as their leases run out. */
  function Overtaking(e: Op): seq<Op> {
    [e, e, e, e] + [Poll(0, 2)] + [Poll(1, 2)] + [Poll(2, 1)] + [Poll(3, 1)]
  }

  lemma ArriveOne(cfg: Config, ops: seq<Op>, payload: Value, ids: seq<nat>, deadlines: map<nat, nat>)
    requires Looks(After(cfg, ops), ids, deadlines) && EventsOnly(Log(ops)) && |ids| < cfg.maxEntries
    ensures var ops' := ops + [Arrive(0, payload, None)];
      && Looks(After(cfg, ops'), ids + [|Log(ops)|], deadlines)
      && EventsOnly(Log(ops')) && |Log(ops')| == |Log(ops)| + 1
  {
    hide Newest, Retain, Ids;
    assert (ops + [Arrive(0, payload, None)])[..|ops|] == ops;
    RunInv(cfg, ops);
  }

  lemma FourArrivals(cfg: Config, payload: Value)
    requires cfg.maxEntries >= 4
    ensures var e := Arrive(0, payload, None);
      && Looks(After(cfg, [e, e, e, e]), [0, 1, 2, 3], map[])
      && EventsOnly(Log([e, e, e, e]))
  {
    var e := Arrive(0, payload, None);
    TwoArrivals(cfg, payload);
    ArriveOne(cfg, [e, e], payload, [0, 1], map[]);
    assert [e, e] + [e] == [e, e, e] && [0, 1] + [2] == [0, 1, 2];
    ArriveOne(cfg, [e, e, e], payload, [0, 1, 2], map[]);
    assert [e, e, e] + [e] == [e, e, e, e] && [0, 1, 2] + [3] == [0, 1, 2, 3];
  }

  lemma TwoArrivals(cfg: Config, payload: Value)
    requires cfg.maxEntries >= 4
    ensures var e := Arrive(0, payload, None);
      Looks(After(cfg, [e, e]), [0, 1], map[]) && EventsOnly(Log([e, e])) && |Log([e, e])| == 2
  {
    var e := Arrive(0, payload, None);
    ArriveOne(cfg, [], payload, [], map[]);
    assert [] + [e] == [e] && [] + [0] == [0];
    ArriveOne(cfg, [e], payload, [0], map[]);
    assert [e] + [e] == [e, e] && [0] + [1] == [0, 1];
  }

  lemma AfterPolls(cfg: Config, ops: seq<Op>, now: nat, max: nat)
    ensures After(cfg, ops + [Poll(now, max)]) == Take(cfg, After(cfg, ops), now, max)
  {
    assert (ops + [Poll(now, max)])[..|ops|] == ops;
  }

  lemma FullPolls(cfg: Config, s0: State, log: seq<Entry>)
    requires cfg.lease == 2 && cfg.entryTtl > 3
    requires Inv(s0, log) && EventsOnly(log) && Looks(s0, [0, 1, 2, 3], map[])
    ensures var s2 := Take(cfg, Take(cfg, s0, 0, 2), 1, 2);
      Inv(s2, log) && Looks(s2, [], map[0 := 2, 1 := 2, 2 := 3, 3 := 3])
  {
    hide Batch, Take, Inv, EventsOnly;
    NextLooks(cfg, s0, log, [0, 1, 2, 3], map[], 0, 2, [], [0, 1], [2, 3], map[0 := 2, 1 := 2]);
    NextLooks(cfg, Take(cfg, s0, 0, 2), log, [2, 3], map[0 := 2, 1 := 2], 1, 2,
              [], [2, 3], [], map[0 := 2, 1 := 2, 2 := 3, 3 := 3]);
  }

  lemma ThirdPoll(cfg: Config, s2: State, log: seq<Entry>)
    requires cfg.lease == 2 && cfg.entryTtl > 3
    requires Inv(s2, log) && EventsOnly(log) && Looks(s2, [], map[0 := 2, 1 := 2, 2 := 3, 3 := 3])
    ensures var s3 := Take(cfg, s2, 2, 1);
      Inv(s3, log) && Looks(s3, [1], map[0 := 4, 2 := 3, 3 := 3])
  {
    hide Batch, Take, Inv, EventsOnly;
    NextLooks(cfg, s2, log, [], map[0 := 2, 1 := 2, 2 := 3, 3 := 3], 2, 1,
              [0, 1], [0], [1], map[0 := 4, 2 := 3, 3 := 3]);
  }

  lemma FourthPoll(cfg: Config, s3: State, log: seq<Entry>)
    requires cfg.lease == 2 && cfg.entryTtl > 3
    requires Inv(s3, log) && EventsOnly(log) && Looks(s3, [1], map[0 := 4, 2 := 3, 3 := 3])
    ensures var s4 := Take(cfg, s3, 3, 1);
      Inv(s4, log) && Looks(s4, [3, 1], map[0 := 4, 2 := 5])
  {
    hide Batch, Take, Inv, EventsOnly;
    NextLooks(cfg, s3, log, [1], map[0 := 4, 2 := 3, 3 := 3], 3, 1, [2, 3], [2], [3, 1], map[0 := 4, 2 := 5]);
  }

  lemma OvertakingEnds(cfg: Config, payload: Value) returns (log: seq<Entry>)
    requires cfg.lease == 2 && cfg.entryTtl > 3 && cfg.maxEntries >= 4
    ensures var s := After(cfg, Overtaking(Arrive(0, payload, None)));
      Inv(s, log) && EventsOnly(log) && Looks(s, [3, 1], map[0 := 4, 2 := 5])
  {
    var e := Arrive(0, payload, None);
    var r0 := [e, e, e, e];
    var r1 := r0 + [Poll(0, 2)];
    var r2 := r1 + [Poll(1, 2)];
    var r3 := r2 + [Poll(2, 1)];
    hide After, Batch, Take, Inv, Looks, EventsOnly, Log;
    AfterPolls(cfg, r0, 0, 2);
    AfterPolls(cfg, r1, 1, 2);
    AfterPolls(cfg, r2, 2, 1);
    AfterPolls(cfg, r3, 3, 1);
    FourArrivals(cfg, payload);
    RunInv(cfg, r0);
    log := Log(r0);
    FullPolls(cfg, After(cfg, r0), log);
    ThirdPoll(cfg, After(cfg, r2), log);
    FourthPoll(cfg, After(cfg, r3), log);
  }

  /** The guard of QueueOrder.FifoExactly can fail: here every poll asks for at
      least one entry, yet the buffer ends as [3, 1] and 3 is handed out before 1. */
  lemma FifoBreaks(cfg: Config, payload: Value)
    requires cfg.lease == 2 && cfg.entryTtl > 3 && cfg.maxEntries >= 4
    ensures var run := Overtaking(Arrive(0, payload, None));
      && IdSeq(After(cfg, run).pending) == [3, 1]
      && IdSeq(Batch(cfg, After(cfg, run), 3, 2)) == [3, 1]
      && !Orderly(cfg, run)
  {
    hide After, Batch, Take, Inv, Kept, Expired, Overtaking, Orderly;
    var run := Overtaking(Arrive(0, payload, None));
    var log := OvertakingEnds(cfg, payload);
    assert !Orderly(cfg, run) by {
      var ids := IdSeq(After(cfg, run).pending);
      assert ids[0] == 3 && ids[1] == 1;
      if Orderly(cfg, run) {
        FifoExactly(cfg, run);
      }
    }
    LooksAfterPoll(cfg, After(cfg, run), log, [3, 1], map[0 := 4, 2 := 5], 3, 2, [], [3, 1], []);
  }
}
