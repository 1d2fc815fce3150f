/** What one poll does, said of the entries themselves: which it hands out and in which
    order, which it leases and until when, and which it leaves pending. */
module QueuePoll {
  import opened Prelude
  import opened QueueSpec
  import opened QueueRuns
  import QueueLedger
  import QueueOrder
  import QueueSpace

  /** Held, not out on a running lease, young, and not superseded. */
  ghost predicate Deliverable(cfg: Config, ops: seq<Op>, now: nat, id: nat) {
    var s, log := After(cfg, ops), Log(ops);
    && id < |log| && id in Held(s)
    && (id in s.leased ==> s.leased[id].deadline <= now)
    && Since(now, log[id].enqueued) < cfg.entryTtl
    && (log[id].countKey.None? || forall j :: id < j < |log| ==> log[j].countKey != log[id].countKey)
  }

  /** The order in which a poll takes entries: those that were leased come first, by id,
      then the buffer from front to back. */
  ghost predicate Ahead(s: State, i: nat, j: nat) {
    if i in s.leased then j in s.leased ==> i < j
    else j !in s.leased && exists p, q :: 0 <= p < q < |s.pending| && s.pending[p].id == i && s.pending[q].id == j
  }

  ghost function InFront(cfg: Config, ops: seq<Op>, now: nat, id: nat): set<nat> {
    set j | 0 <= j < |Log(ops)| && Deliverable(cfg, ops, now, j) && Ahead(After(cfg, ops), j, id)
  }

  ghost function AllDeliverable(cfg: Config, ops: seq<Op>, now: nat): set<nat> {
    set j | 0 <= j < |Log(ops)| && Deliverable(cfg, ops, now, j)
  }

  // --- the pool is in that order ---

  lemma KeepsIfDeliverable(cfg: Config, ops: seq<Op>, now: nat, id: nat)
    requires id in Held(After(cfg, ops))
    ensures id < |Log(ops)|
    ensures Deliverable(cfg, ops, now, id) <==>
      && ViewAt(cfg, After(cfg, ops), now).Keeps(Log(ops)[id])
      && (id in After(cfg, ops).leased ==> After(cfg, ops).leased[id].deadline <= now)
  {
    hide After, Log;
    QueueLedger.LiveIffNewest(cfg, ops, id);
  }

  /** The ids of the kept part of the pool are exactly the deliverable ones. */
  lemma KeptIsDeliverable(cfg: Config, ops: seq<Op>, now: nat, id: nat)
    ensures var s := After(cfg, ops);
      id in Ids(Kept(ViewAt(cfg, s, now), Pool(cfg, s, now))) <==> Deliverable(cfg, ops, now, id)
  {
    hide After, Log, Kept, Pool, Expired;
    var s, log := After(cfg, ops), Log(ops);
    var v, pool := ViewAt(cfg, s, now), Pool(cfg, s, now);
    RunInv(cfg, ops);
    PoolFacts(cfg, s, log, now);
    KeptMembers(v, pool);
    if e :| e in Kept(v, pool) && e.id == id {
      assert e in pool && id in Ids(pool);
      KeepsIfDeliverable(cfg, ops, now, id);
    }
    if Deliverable(cfg, ops, now, id) {
      KeepsIfDeliverable(cfg, ops, now, id);
      QueueLedger.KeptIsRead(cfg, s, log, now, id);
      assert log[id] in Kept(v, pool);
    }
  }

  lemma PoolIsOrdered(cfg: Config, s: State, log: seq<Entry>, now: nat, p: nat, q: nat)
    requires Inv(s, log) && p < q < |Pool(cfg, s, now)|
    ensures Ahead(s, Pool(cfg, s, now)[p].id, Pool(cfg, s, now)[q].id)
  {
    hide Newest, Retain, Expired, Kept;
    var v, expired := ViewAt(cfg, s, now), Expired(s, now);
    var r := Kept(v, expired);
    ExpiredFacts(s, log, now);
    KeptMembers(v, expired);
    if q < |r| {
      QueueOrder.KeptAscends(v, expired);
      assert r[p] in r && r[q] in r;
    } else if p < |r| {
      assert r[p] in r && s.pending[q - |r|] in s.pending;
    } else {
      assert s.pending[p - |r|] in s.pending && s.pending[q - |r|] in s.pending;
    }
  }

  lemma {:induction false} KeptOrder(v: View, es: seq<Entry>, i: nat, j: nat)
    requires i < j < |Kept(v, es)|
    ensures exists p, q :: 0 <= p < q < |es| && es[p] == Kept(v, es)[i] && es[q] == Kept(v, es)[j]
  {
    var rest := Kept(v, es[1..]);
    if !v.Keeps(es[0]) {
      KeptOrder(v, es[1..], i, j);
      var p, q :| 0 <= p < q < |es[1..]| && es[1..][p] == rest[i] && es[1..][q] == rest[j];
      assert es[p + 1] == rest[i] && es[q + 1] == rest[j];
    } else if i == 0 {
      KeptMembers(v, es[1..]);
      assert rest[j - 1] in es[1..];
      var q :| 0 <= q < |es[1..]| && es[1..][q] == rest[j - 1];
      assert es[0] == Kept(v, es)[0] && es[q + 1] == rest[j - 1];
    } else {
      KeptOrder(v, es[1..], i - 1, j - 1);
      var p, q :| 0 <= p < q < |es[1..]| && es[1..][p] == rest[i - 1] && es[1..][q] == rest[j - 1];
      assert es[p + 1] == rest[i - 1] && es[q + 1] == rest[j - 1];
    }
  }

  lemma AheadIsStrict(s: State, i: nat, j: nat)
    requires Distinct(s.pending) && Ahead(s, i, j)
    ensures !Ahead(s, j, i) && i != j
  {
  }

  /** The deliverable entries ahead of the one at place `k` are those at the places before. */
  lemma KeptPlace(cfg: Config, ops: seq<Op>, now: nat, k: nat)
    requires k < |Kept(ViewAt(cfg, After(cfg, ops), now), Pool(cfg, After(cfg, ops), now))|
    ensures var s := After(cfg, ops);
      var kept := Kept(ViewAt(cfg, s, now), Pool(cfg, s, now));
      && Distinct(kept) && InFront(cfg, ops, now, kept[k].id) == Ids(kept[..k])
      && |InFront(cfg, ops, now, kept[k].id)| == k
  {
    hide After, Log, Kept, Pool, Deliverable, Ahead, Expired;
    var s, log := After(cfg, ops), Log(ops);
    var kept := Kept(ViewAt(cfg, s, now), Pool(cfg, s, now));
    RunInv(cfg, ops);
    PoolFacts(cfg, s, log, now);
    KeptDistinct(ViewAt(cfg, s, now), Pool(cfg, s, now));
    forall j: nat ensures j in InFront(cfg, ops, now, kept[k].id) <==> j in Ids(kept[..k]) {
      PlaceMember(cfg, ops, now, kept, k, j);
    }
    CutDistinct(kept, k);
    QueueSpace.DistinctCounts(kept[..k]);
  }

  lemma PlaceMember(cfg: Config, ops: seq<Op>, now: nat, kept: seq<Entry>, k: nat, j: nat)
    requires kept == Kept(ViewAt(cfg, After(cfg, ops), now), Pool(cfg, After(cfg, ops), now)) && k < |kept|
    ensures j in InFront(cfg, ops, now, kept[k].id) <==> j in Ids(kept[..k])
  {
    hide After, Log, Kept, Pool, Deliverable, Ahead, Expired;
    var s := After(cfg, ops);
    RunInv(cfg, ops);
    KeptIsDeliverable(cfg, ops, now, j);
    if Deliverable(cfg, ops, now, j) {
      var e :| e in kept && e.id == j;
      var i :| 0 <= i < |kept| && kept[i] == e;
      KeptIsAhead(cfg, ops, now, i, k);
      KeptIsAhead(cfg, ops, now, k, i);
      assert j < |Log(ops)| by {
        DeliverableIsLogged(cfg, ops, now, j);
      }
      if i < k {
        assert kept[i] in kept[..k];
      } else {
        forall m | 0 <= m < k ensures kept[m].id != j {
          KeptIsAhead(cfg, ops, now, m, i);
        }
      }
    } else {
      assert forall e :: e in kept[..k] ==> e in kept;
    }
  }

  lemma DeliverableIsLogged(cfg: Config, ops: seq<Op>, now: nat, id: nat)
    requires Deliverable(cfg, ops, now, id)
    ensures id < |Log(ops)| && id in Held(After(cfg, ops))
  {
  }

  lemma KeptIsAhead(cfg: Config, ops: seq<Op>, now: nat, i: nat, j: nat)
    requires var s := After(cfg, ops);
      i < |Kept(ViewAt(cfg, s, now), Pool(cfg, s, now))| && j < |Kept(ViewAt(cfg, s, now), Pool(cfg, s, now))|
    ensures var s := After(cfg, ops);
      var kept := Kept(ViewAt(cfg, s, now), Pool(cfg, s, now));
      && (i < j <==> Ahead(s, kept[i].id, kept[j].id))
      && (i != j ==> kept[i].id != kept[j].id)
  {
    hide After, Log, Kept, Pool, Ahead, Expired;
    var s, log := After(cfg, ops), Log(ops);
    var v, pool := ViewAt(cfg, s, now), Pool(cfg, s, now);
    RunInv(cfg, ops);
    PoolFacts(cfg, s, log, now);
    KeptDistinct(v, pool);
    if i < j {
      KeptOrder(v, pool, i, j);
      var p, q :| 0 <= p < q < |pool| && pool[p] == Kept(v, pool)[i] && pool[q] == Kept(v, pool)[j];
      PoolIsOrdered(cfg, s, log, now, p, q);
    } else if j < i {
      KeptOrder(v, pool, j, i);
      var p, q :| 0 <= p < q < |pool| && pool[p] == Kept(v, pool)[j] && pool[q] == Kept(v, pool)[i];
      PoolIsOrdered(cfg, s, log, now, p, q);
      AheadIsStrict(s, pool[p].id, pool[q].id);
    } else if Ahead(s, Kept(v, pool)[i].id, Kept(v, pool)[j].id) {
      AheadIsStrict(s, Kept(v, pool)[i].id, Kept(v, pool)[j].id);
    }
  }

  // --- what a poll hands out ---

  /** Exactly the deliverable entries with fewer than `max` deliverable ones ahead. */
  lemma BatchExactly(cfg: Config, ops: seq<Op>, now: nat, max: nat, id: nat)
    ensures id in Ids(Batch(cfg, After(cfg, ops), now, max)) <==>
      Deliverable(cfg, ops, now, id) && |InFront(cfg, ops, now, id)| < max
  {
    hide After, Log, Kept, Pool, Deliverable, Expired, InFront;
    var s, log := After(cfg, ops), Log(ops);
    var kept, batch := Kept(ViewAt(cfg, s, now), Pool(cfg, s, now)), Batch(cfg, s, now, max);
    RunInv(cfg, ops);
    PoolFacts(cfg, s, log, now);
    assert batch == kept[..Min(max, |kept|)];
    KeptIsDeliverable(cfg, ops, now, id);
    if Deliverable(cfg, ops, now, id) {
      var e :| e in kept && e.id == id;
      var k :| 0 <= k < |kept| && kept[k] == e;
      KeptPlace(cfg, ops, now, k);
      if k < max {
        assert batch[k] == e;
      } else {
        assert forall i :: 0 <= i < |batch| ==> batch[i].id != kept[k].id;
      }
    } else {
      assert forall f :: f in batch ==> f in kept;
    }
  }

  /** In that order, each as it was enqueued, and as many as are asked for and there are. */
  lemma BatchInOrder(cfg: Config, ops: seq<Op>, now: nat, max: nat)
    ensures var s := After(cfg, ops);
      var batch := Batch(cfg, s, now, max);
      && (forall e :: e in batch ==> e.id < |Log(ops)| && e == Log(ops)[e.id])
      && (forall i, j :: 0 <= i < j < |batch| ==> Ahead(s, batch[i].id, batch[j].id))
      && |batch| == Min(max, |AllDeliverable(cfg, ops, now)|)
  {
    hide After, Log, Kept, Pool, Deliverable, Expired, Ahead;
    var s, log := After(cfg, ops), Log(ops);
    var v, pool := ViewAt(cfg, s, now), Pool(cfg, s, now);
    var kept, batch := Kept(v, pool), Batch(cfg, s, now, max);
    RunInv(cfg, ops);
    PoolFacts(cfg, s, log, now);
    KeptMembers(v, pool);
    forall i, j | 0 <= i < j < |batch| ensures Ahead(s, batch[i].id, batch[j].id) {
      KeptIsAhead(cfg, ops, now, i, j);
    }
    KeptDistinct(v, pool);
    QueueSpace.DistinctCounts(kept);
    forall id: nat ensures id in AllDeliverable(cfg, ops, now) <==> id in Ids(kept) {
      KeptIsDeliverable(cfg, ops, now, id);
      if Deliverable(cfg, ops, now, id) {
        DeliverableIsLogged(cfg, ops, now, id);
      }
    }
    assert AllDeliverable(cfg, ops, now) == Ids(kept);
  }

  // --- what it leaves behind ---

  /** What a poll may read: the buffer, and the overdue leases that are still deliverable. */
  ghost predicate Offered(cfg: Config, ops: seq<Op>, now: nat, id: nat) {
    var s := After(cfg, ops);
    id in Ids(s.pending) || (id in s.leased && Deliverable(cfg, ops, now, id))
  }

  /** Reading stops at the entry that fills the batch. */
  ghost predicate Behind(s: State, batch: seq<Entry>, max: nat, id: nat) {
    |batch| == max && (max == 0 || Ahead(s, batch[max - 1].id, id))
  }

  /** Leased afterwards is what was handed out, for one lease from now, and what was on a
      running lease, as before. Pending afterwards is what the poll was offered and did not
      get to, in the same order; everything it read and did not hand out is gone. */
  lemma TakeLeaves(cfg: Config, ops: seq<Op>, now: nat, max: nat, id: nat)
    ensures var s, s' := After(cfg, ops), After(cfg, ops + [Poll(now, max)]);
      var batch := Batch(cfg, s, now, max);
      && (id in Ids(batch) ==>
            id < |Log(ops)| && id in s'.leased && s'.leased[id] == Lease(now + cfg.lease, Log(ops)[id]))
      && (id in s.leased && s.leased[id].deadline > now ==> id in s'.leased && s'.leased[id] == s.leased[id])
      && (id in s'.leased <==> id in Ids(batch) || (id in s.leased && s.leased[id].deadline > now))
      && (id in Ids(s'.pending) <==> Offered(cfg, ops, now, id) && Behind(s, batch, max, id))
      && (forall p, q :: 0 <= p < q < |s'.pending| ==> Ahead(s, s'.pending[p].id, s'.pending[q].id))
  {
    hide After, Log, Kept, Pool, Batch, Ahead, Take, Offered, Behind, Inv;
    var s, log := After(cfg, ops), Log(ops);
    RunInv(cfg, ops);
    AfterPoll(cfg, ops, now, max);
    LeasedAfter(cfg, s, log, now, max, id);
    OfferedIsPool(cfg, ops, now, id);
    UnreadIsBehind(cfg, ops, now, max, id);
    PendingAfter(cfg, s, log, now, max);
  }

  lemma LeasedAfter(cfg: Config, s: State, log: seq<Entry>, now: nat, max: nat, id: nat)
    requires Inv(s, log)
    ensures var s', batch := Take(cfg, s, now, max), Batch(cfg, s, now, max);
      && (id in Ids(batch) ==>
            id < |log| && id in s'.leased && s'.leased[id] == Lease(now + cfg.lease, log[id]))
      && (id in s.leased && s.leased[id].deadline > now ==> id in s'.leased && s'.leased[id] == s.leased[id])
      && (id in s'.leased <==> id in Ids(batch) || (id in s.leased && s.leased[id].deadline > now))
  {
    hide Kept, Pool, Expired, Lent, Retain, Newest, Take, Batch;
    var v, pool := ViewAt(cfg, s, now), Pool(cfg, s, now);
    TakeFacts(cfg, s, log, now, max);
    PoolFacts(cfg, s, log, now);
    KeptMembers(v, pool[..Scan(v, max, pool)]);
  }

  lemma PendingAfter(cfg: Config, s: State, log: seq<Entry>, now: nat, max: nat)
    requires Inv(s, log)
    ensures var s', pool := Take(cfg, s, now, max), Pool(cfg, s, now);
      && s'.pending == pool[Scan(ViewAt(cfg, s, now), max, pool)..]
      && (forall p, q :: 0 <= p < q < |s'.pending| ==> Ahead(s, s'.pending[p].id, s'.pending[q].id))
  {
    hide Kept, Pool, Expired, Lent, Retain, Newest, Ahead, Inv, Batch;
    var s', n := Take(cfg, s, now, max), Scan(ViewAt(cfg, s, now), max, Pool(cfg, s, now));
    forall p, q | 0 <= p < q < |s'.pending| ensures Ahead(s, s'.pending[p].id, s'.pending[q].id) {
      PoolIsOrdered(cfg, s, log, now, n + p, n + q);
    }
  }

  lemma AfterPoll(cfg: Config, ops: seq<Op>, now: nat, max: nat)
    ensures After(cfg, ops + [Poll(now, max)]) == Take(cfg, After(cfg, ops), now, max)
  {
    assert (ops + [Poll(now, max)])[..|ops|] == ops;
  }

  lemma OfferedIsPool(cfg: Config, ops: seq<Op>, now: nat, id: nat)
    ensures Offered(cfg, ops, now, id) <==> id in Ids(Pool(cfg, After(cfg, ops), now))
  {
    hide After, Log, Kept, Deliverable, Expired;
    var s, log := After(cfg, ops), Log(ops);
    var v := ViewAt(cfg, s, now);
    var r := Kept(v, Expired(s, now));
    RunInv(cfg, ops);
    PoolFacts(cfg, s, log, now);
    IdsAppend(r, s.pending);
    KeptMembers(v, Expired(s, now));
    ExpiredFacts(s, log, now);
    if id in s.leased {
      KeepsIfDeliverable(cfg, ops, now, id);
      if Deliverable(cfg, ops, now, id) {
        QueueLedger.KeptIsRead(cfg, s, log, now, id);
      }
      if e :| e in r && e.id == id {
        assert e == log[id];
      }
    }
  }

  lemma UnreadIsBehind(cfg: Config, ops: seq<Op>, now: nat, max: nat, id: nat)
    ensures var s := After(cfg, ops);
      var pool := Pool(cfg, s, now);
      id in Ids(pool[Scan(ViewAt(cfg, s, now), max, pool)..]) <==>
        id in Ids(pool) && Behind(s, Batch(cfg, s, now, max), max, id)
  {
    hide After, Log, Kept, Pool, Expired, Ahead, Scan, Inv, Ids, Batch, FirstOf;
    var s, log := After(cfg, ops), Log(ops);
    var v, pool, batch := ViewAt(cfg, s, now), Pool(cfg, s, now), Batch(cfg, s, now, max);
    var n := Scan(v, max, pool);
    RunInv(cfg, ops);
    BatchOfPool(cfg, s, log, now, max);
    ReadUpTo(v, max, pool);
    if |batch| < max {
      assert pool[n..] == [];
      NoIds(id);
    } else if max == 0 {
      assert pool[0..] == pool;
    } else {
      UnreadIsAfter(cfg, s, log, now, n, id);
    }
  }

  lemma BatchOfPool(cfg: Config, s: State, log: seq<Entry>, now: nat, max: nat)
    requires Inv(s, log)
    ensures Batch(cfg, s, now, max) == FirstOf(Kept(ViewAt(cfg, s, now), Pool(cfg, s, now)), max)
    ensures |Batch(cfg, s, now, max)| <= max
  {
    hide Kept, Pool, Expired, Inv, Ids, Distinct;
    PoolFacts(cfg, s, log, now);
  }

  lemma UnreadIsAfter(cfg: Config, s: State, log: seq<Entry>, now: nat, n: nat, id: nat)
    requires Inv(s, log) && 0 < n <= |Pool(cfg, s, now)|
    ensures var pool := Pool(cfg, s, now);
      id in Ids(pool[n..]) <==> id in Ids(pool) && Ahead(s, pool[n - 1].id, id)
  {
    hide Pool, Ahead, Inv, Held;
    var pool := Pool(cfg, s, now);
    assert forall e :: e in pool[n..] ==> e in pool;
    forall q | 0 <= q < |pool| ensures q >= n <==> Ahead(s, pool[n - 1].id, pool[q].id) {
      if q < n {
        OrderedBack(cfg, s, log, now, q, n - 1);
      } else {
        PoolIsOrdered(cfg, s, log, now, n - 1, q);
      }
    }
    if e :| e in pool && e.id == id && Ahead(s, pool[n - 1].id, id) {
      var q :| 0 <= q < |pool| && pool[q] == e;
      assert e == pool[n..][q - n];
    }
    if e :| e in pool[n..] && e.id == id {
      var q :| 0 <= q < |pool[n..]| && pool[n..][q] == e;
      assert pool[n + q] == e;
    }
  }

  lemma OrderedBack(cfg: Config, s: State, log: seq<Entry>, now: nat, p: nat, q: nat)
    requires Inv(s, log) && p <= q < |Pool(cfg, s, now)|
    ensures !Ahead(s, Pool(cfg, s, now)[q].id, Pool(cfg, s, now)[p].id)
  {
    hide Pool, Ahead;
    var i, j := Pool(cfg, s, now)[p].id, Pool(cfg, s, now)[q].id;
    if p < q {
      PoolIsOrdered(cfg, s, log, now, p, q);
      AheadIsStrict(s, i, j);
    } else if Ahead(s, i, i) {
      AheadIsStrict(s, i, i);
    }
  }

  lemma NoIds(id: nat)
    ensures id !in Ids([])
  {
  }

  /** How far a poll reads: to the end of the pool unless the batch gets full, and then
      only to the entry that fills it. */
  lemma ReadUpTo(v: View, max: nat, pool: seq<Entry>)
    ensures var n, batch := Scan(v, max, pool), FirstOf(Kept(v, pool), max);
      && (|batch| < max ==> n == |pool|)
      && (max == 0 ==> n == 0)
      && (|batch| == max > 0 ==> n > 0 && batch[max - 1] == pool[n - 1])
  {
    ScanSplits(v, max, pool);
    if |FirstOf(Kept(v, pool), max)| == max && max > 0 {
      LastRead(v, max, pool);
    }
  }

  lemma LastRead(v: View, max: nat, pool: seq<Entry>)
    requires max > 0 && |FirstOf(Kept(v, pool), max)| == max
    ensures var n := Scan(v, max, pool); n > 0 && FirstOf(Kept(v, pool), max)[max - 1] == pool[n - 1]
  {
    hide Scan;
    var n := Scan(v, max, pool);
    ScanSplits(v, max, pool);
    assert n > 0;
    ScanStopsAtLast(v, max, pool);
    assert pool[..n] == pool[..n - 1] + [pool[n - 1]];
    KeptAppend(v, pool[..n - 1], [pool[n - 1]]);
  }
}
