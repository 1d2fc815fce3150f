/** The space the queue takes in every reachable state, and what an ack changes. */
module QueueSpace {
  import opened Prelude
  import opened Api
  import opened QueueSpec
  import opened QueueRuns
  import QueueLedger
  import opened QueueOrder
  import opened QueueOvertaking

  lemma {:induction false} DistinctCounts(es: seq<Entry>)
    requires Distinct(es)
    ensures |Ids(es)| == |es|
  {
    if es != [] {
      var n := |es| - 1;
      DistinctCounts(es[..n]);
      CutDistinct(es, n);
      assert es[n..] == [es[n]];
      assert Ids([es[n]]) == {es[n].id} by {
        assert es[n] in [es[n]];
      }
    }
  }

  function Size(s: State): nat {
    |s.pending| + |s.leased|
  }

  lemma HeldCounts(s: State, log: seq<Entry>)
    requires Inv(s, log)
    ensures |Held(s)| == Size(s)
  {
    DistinctCounts(s.pending);
    assert |s.leased.Keys| == |s.leased|;
  }

  lemma SubsetCounts(a: set<nat>, b: set<nat>)
    requires a <= b
    ensures |a| <= |b|
  {
    assert b == a + (b - a);
  }

  lemma {:induction false} InjectiveCounts(index: map<Device, nat>, ids: set<nat>)
    requires forall k :: k in index ==> index[k] in ids
    requires forall k, l :: k in index && l in index && index[k] == index[l] ==> k == l
    ensures |index| <= |ids|
    decreases |index|
  {
    if k :| k in index {
      var rest := index - {k};
      assert |rest.Keys| == |index.Keys| - 1;
      InjectiveCounts(rest, ids - {index[k]});
    }
  }

  /** Every index entry names a held entry of its own device, so the index is never
      larger than what is held. */
  lemma IndexIsBounded(cfg: Config, ops: seq<Op>)
    ensures var s := After(cfg, ops);
      && (forall k :: k in s.index ==>
            s.index[k] in Held(s) && s.index[k] < |Log(ops)| && Log(ops)[s.index[k]].countKey == Some(k))
      && |s.index| <= Size(s)
  {
    var s, log := After(cfg, ops), Log(ops);
    RunInv(cfg, ops);
    forall k | k in s.index
      ensures s.index[k] in Held(s) && s.index[k] < |log| && log[s.index[k]].countKey == Some(k)
    {
      OwnerHasKey(s, log, k);
    }
    HeldCounts(s, log);
    InjectiveCounts(s.index, Held(s));
  }

  /** An enqueue evicts before it inserts, so there is always room for one entry. */
  function Cap(cfg: Config): nat {
    if cfg.maxEntries > 1 then cfg.maxEntries else 1
  }

  /** The cap holds right after every enqueue; polls and acks never add to what is held. */
  lemma SpaceBounds(cfg: Config, ops: seq<Op>, op: Op)
    ensures var s, s' := After(cfg, ops), After(cfg, ops + [op]);
      && (op.Arrive? ==> 0 < |s'.pending| <= Cap(cfg))
      && (op.Arrive? ==> s'.leased == s.leased)
      && (!op.Arrive? ==> Size(s') <= Size(s))
  {
    var s, s' := After(cfg, ops), After(cfg, ops + [op]);
    assert (ops + [op])[..|ops|] == ops;
    RunInv(cfg, ops);
    RunInv(cfg, ops + [op]);
    if !op.Arrive? {
      QueueLedger.StepLedger(cfg, ops, op);
      SubsetCounts(Held(s'), Held(s));
      HeldCounts(s, Log(ops));
      HeldCounts(s', Log(ops + [op]));
    }
  }

  // --- what the cap does not bound ---

  /** A poll grows the buffer exactly when it reclaims more than it hands out, and then
      by exactly the difference. */
  lemma BufferGrowsExactly(cfg: Config, s: State, now: nat, max: nat)
    ensures var r, after := |Reclaimed(cfg, s, now)|, |Take(cfg, s, now, max).pending|;
      && (after > |s.pending| <==> r > max)
      && (r > max ==> after == |s.pending| + r - max)
  {
    hide Kept, Expired, Retain, Lent, Batch;
    ReadsReclaimedFirst(cfg, s, now, max);
  }

  /** This poll reclaims no more than it hands out, or the buffer has room for the excess. */
  predicate HasRoom(cfg: Config, s: State, now: nat, max: nat) {
    var r := |Reclaimed(cfg, s, now)|;
    r <= max || |s.pending| + r - max <= Cap(cfg)
  }

  ghost predicate CapGuard(cfg: Config, ops: seq<Op>) {
    ops == [] ||
    var before, op := ops[..|ops| - 1], ops[|ops| - 1];
    CapGuard(cfg, before) && (op.Poll? ==> HasRoom(cfg, After(cfg, before), op.now, op.max))
  }

  /** The buffer was within the cap after every step of the run. */
  ghost predicate AlwaysCapped(cfg: Config, ops: seq<Op>) {
    |After(cfg, ops).pending| <= Cap(cfg) && (ops == [] || AlwaysCapped(cfg, ops[..|ops| - 1]))
  }

  /** The cap holds throughout a run exactly when every poll of it meets its guard. */
  lemma {:induction false} CapExactly(cfg: Config, ops: seq<Op>)
    ensures AlwaysCapped(cfg, ops) <==> CapGuard(cfg, ops)
  {
    hide Enqueue, Take, Reclaimed, QueueSpec.Ack;
    if ops != [] {
      var before, op := ops[..|ops| - 1], ops[|ops| - 1];
      CapExactly(cfg, before);
      if CapGuard(cfg, before) {
        CappedStep(cfg, After(cfg, before), op);
      }
    }
  }

  lemma CappedStep(cfg: Config, s: State, op: Op)
    requires |s.pending| <= Cap(cfg)
    ensures |Apply(cfg, s, op).pending| <= Cap(cfg) <==> (op.Poll? ==> HasRoom(cfg, s, op.now, op.max))
  {
    hide Take, Reclaimed;
    if op.Poll? {
      BufferGrowsExactly(cfg, s, op.now, op.max);
    }
  }

  /** Every poll of the run asks for at least as many entries as it reclaims. */
  ghost predicate Roomy(cfg: Config, ops: seq<Op>) {
    ops == [] ||
    var before, op := ops[..|ops| - 1], ops[|ops| - 1];
    Roomy(cfg, before) && (op.Poll? ==> |Reclaimed(cfg, After(cfg, before), op.now)| <= op.max)
  }

  /** In particular the cap holds throughout every run whose polls ask for as much as they
      reclaim. */
  lemma RoomyRunKeepsCap(cfg: Config, ops: seq<Op>)
    requires Roomy(cfg, ops)
    ensures AlwaysCapped(cfg, ops) && |After(cfg, ops).pending| <= Cap(cfg)
  {
    hide After;
    RoomyIsGuarded(cfg, ops);
    CapExactly(cfg, ops);
  }

  lemma {:induction false} RoomyIsGuarded(cfg: Config, ops: seq<Op>)
    requires Roomy(cfg, ops)
    ensures CapGuard(cfg, ops)
  {
    hide After, Reclaimed;
    if ops != [] {
      RoomyIsGuarded(cfg, ops[..|ops| - 1]);
    }
  }

  function Refill(e: Op, lease: nat): seq<Op> {
    [] + [e] + [Poll(0, 1)] + [e] + [Poll(0, 1)] + [e] + [Poll(lease, 1)]
  }

  /** Reclaimed leases return to the buffer whatever its size: with room for one entry,
      two entries are pending after this run, whose last step is a poll. */
  lemma CapIsBypassed(cfg: Config, payload: Value)
    requires cfg.maxEntries == 1 && 0 < cfg.lease < cfg.entryTtl
    ensures IdSeq(After(cfg, Refill(Arrive(0, payload, None), cfg.lease)).pending) == [1, 2]
  {
    hide After, Batch, Take, Inv, EventsOnly, Looks, Log, IdSeq;
    var e := Arrive(0, payload, None);
    var d0, d1 := map[0 := cfg.lease], map[0 := cfg.lease, 1 := cfg.lease];
    var r1 := [] + [e] + [Poll(0, 1)];
    var r2 := r1 + [e] + [Poll(0, 1)];
    NothingArrived(cfg);
    ServeOne(cfg, [], payload, map[], d0);
    ServeOne(cfg, r1, payload, d0, d1);
    ArriveOne(cfg, r2, payload, [], d1);
    assert [] + [2] == [2];
    AfterPolls(cfg, r2 + [e], cfg.lease, 1);
    RunInv(cfg, r2 + [e]);
    LooksAfterPoll(cfg, After(cfg, r2 + [e]), Log(r2 + [e]), [2], d1, cfg.lease, 1, [0, 1], [0], [1, 2]);
  }

  lemma NothingArrived(cfg: Config)
    ensures Looks(After(cfg, []), [], map[]) && EventsOnly(Log([])) && |Log([])| == 0
  {
  }

  /** One more event arrives and is handed out at time 0. */
  lemma ServeOne(cfg: Config, ops: seq<Op>, payload: Value, deadlines: map<nat, nat>, deadlines': map<nat, nat>)
    requires cfg.maxEntries == 1 && 0 < cfg.lease < cfg.entryTtl
    requires Looks(After(cfg, ops), [], deadlines) && EventsOnly(Log(ops))
    requires forall id :: id in deadlines ==> deadlines[id] == cfg.lease
    requires deadlines' == deadlines[|Log(ops)| := cfg.lease]
    ensures var ops' := ops + [Arrive(0, payload, None)] + [Poll(0, 1)];
      Looks(After(cfg, ops'), [], deadlines') && EventsOnly(Log(ops')) && |Log(ops')| == |Log(ops)| + 1
  {
    hide After, Batch, Take, Inv, EventsOnly, Looks, IdSeq;
    var n, mid := |Log(ops)|, ops + [Arrive(0, payload, None)];
    ArriveOne(cfg, ops, payload, [], deadlines);
    assert [] + [n] == [n];
    AfterPolls(cfg, mid, 0, 1);
    RunInv(cfg, mid);
    NextLooks(cfg, After(cfg, mid), Log(mid), [n], deadlines, 0, 1, [], [n], [], deadlines');
    assert (mid + [Poll(0, 1)])[..|mid|] == mid;
  }

  // --- acknowledgement ---

  /** Acks combine like sets: order, repetition and splitting over requests do not
      matter, so a repeated ack changes nothing. */
  lemma AcksCombine(s: State, a: set<nat>, b: set<nat>)
    ensures Ack(Ack(s, a), b) == Ack(s, a + b)
  {
    var t := Ack(s, a);
    assert Ack(t, b).leased == Ack(s, a + b).leased;
    RetainTwice(s.index, Held(t), Held(Ack(t, b)));
  }

  /** An ack removes exactly the leased ids it lists. Requeued and unknown ids are
      untouched, and no entry that stays held changes its liveness: acking a
      superseded badge never unindexes the newer one. */
  lemma AckRemovesOnlyLeased(cfg: Config, ops: seq<Op>, ids: seq<nat>)
    ensures var s, s' := After(cfg, ops), After(cfg, ops + [Settle(ids)]);
      && s'.pending == s.pending
      && (forall id :: id in s'.leased <==> id in s.leased && id !in ids)
      && (forall id :: id in s'.leased ==> s'.leased[id] == s.leased[id])
      && (forall id :: id in Held(s') <==> id in Held(s) && !(id in s.leased && id in ids))
      && (forall e: Entry :: e.id in Held(s') ==> (IsLive(s'.index, e) <==> IsLive(s.index, e)))
      && (forall k :: k in s.index && s.index[k] in Held(s') ==> k in s'.index && s'.index[k] == s.index[k])
  {
    assert (ops + [Settle(ids)])[..|ops|] == ops;
    RunInv(cfg, ops);
    AckKeepsInv(After(cfg, ops), Log(ops), IdSet(ids));
  }
}
