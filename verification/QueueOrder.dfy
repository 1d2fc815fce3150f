/** First in, first out: the condition under which the queue keeps it. */
module QueueOrder {
  import opened Prelude
  import opened Api
  import opened QueueSpec
  import opened QueueRuns

  ghost predicate AscendingIds(es: seq<Entry>) {
    forall i, j :: 0 <= i < j < |es| ==> es[i].id < es[j].id
  }

  /** The buffer ascends and nothing leased is younger than anything pending. */
  ghost predicate Fifo(s: State) {
    && AscendingIds(s.pending)
    && (forall id, e :: id in s.leased && e in s.pending ==> id < e.id)
  }

  function Reclaimed(cfg: Config, s: State, now: nat): seq<Entry> {
    Kept(ViewAt(cfg, s, now), Expired(s, now))
  }

  /** The guard of a poll: whatever it reclaims beyond its batch is younger than
      everything still out on lease. It holds in particular when `max` has room for
      all that is reclaimed. */
  ghost predicate KeepsOrder(cfg: Config, s: State, now: nat, max: nat) {
    forall i, id :: max <= i < |Reclaimed(cfg, s, now)| && id in s.leased.Keys - ExpiredIds(s, now) ==>
      id < Reclaimed(cfg, s, now)[i].id
  }

  ghost predicate Orderly(cfg: Config, ops: seq<Op>) {
    ops == [] ||
    var before, op := ops[..|ops| - 1], ops[|ops| - 1];
    Orderly(cfg, before) && (op.Poll? ==> KeepsOrder(cfg, After(cfg, before), op.now, op.max))
  }

  /** FIFO held after every step of the run. */
  ghost predicate AlwaysFifo(cfg: Config, ops: seq<Op>) {
    Fifo(After(cfg, ops)) && (ops == [] || AlwaysFifo(cfg, ops[..|ops| - 1]))
  }

  lemma {:induction false} KeptAscends(v: View, es: seq<Entry>)
    requires AscendingIds(es)
    ensures AscendingIds(Kept(v, es))
  {
    if es != [] {
      KeptAscends(v, es[1..]);
      KeptMembers(v, es[1..]);
      var rest := Kept(v, es[1..]);
      forall j | 0 <= j < |rest| ensures es[0].id < rest[j].id {
        assert rest[j] in es[1..];
      }
    }
  }

  lemma {:induction false} ScanPassesKept(v: View, max: nat, front: seq<Entry>, rest: seq<Entry>)
    requires |front| <= max && forall e :: e in front ==> v.Keeps(e)
    ensures Scan(v, max, front + rest) >= |front|
  {
    if front != [] {
      assert front[0] in front;
      assert (front + rest)[1..] == front[1..] + rest;
      ScanPassesKept(v, max - 1, front[1..], rest);
    }
  }

  lemma PoolAscends(cfg: Config, s: State, log: seq<Entry>, now: nat)
    requires Inv(s, log) && Fifo(s)
    ensures AscendingIds(Pool(cfg, s, now))
  {
    hide Expired, Newest, Retain;
    var v, expired := ViewAt(cfg, s, now), Expired(s, now);
    ExpiredFacts(s, log, now);
    KeptAscends(v, expired);
    KeptMembers(v, expired);
    var reclaimed := Kept(v, expired);
    forall i, j | 0 <= i < |reclaimed| && 0 <= j < |s.pending| ensures reclaimed[i].id < s.pending[j].id {
      assert reclaimed[i] in reclaimed && s.pending[j] in s.pending;
    }
  }

  lemma BatchAscends(cfg: Config, s: State, log: seq<Entry>, now: nat, max: nat)
    requires Inv(s, log) && Fifo(s)
    ensures AscendingIds(Batch(cfg, s, now, max))
  {
    PoolAscends(cfg, s, log, now);
    PoolFacts(cfg, s, log, now);
    KeptAscends(ViewAt(cfg, s, now), Pool(cfg, s, now));
  }

  /** A poll keeps FIFO exactly when its guard holds. */
  lemma TakeKeepsFifo(cfg: Config, s: State, log: seq<Entry>, now: nat, max: nat)
    requires Inv(s, log) && Fifo(s)
    ensures Fifo(Take(cfg, s, now, max)) <==> KeepsOrder(cfg, s, now, max)
  {
    hide Kept, Expired, Ids, Newest, Retain, Lent, Batch, Scan;
    var r, s' := Reclaimed(cfg, s, now), Take(cfg, s, now, max);
    var n := Scan(ViewAt(cfg, s, now), max, r + s.pending);
    assert AscendingIds(s'.pending) by {
      PoolAscends(cfg, s, log, now);
    }
    PoolAscends(cfg, s, log, now);
    TakeFacts(cfg, s, log, now, max);
    if KeepsOrder(cfg, s, now, max) {
      forall id, e | id in s'.leased && e in s'.pending ensures id < e.id {
        LeasedBefore(cfg, s, now, max, id, e);
      }
    } else {
      ReadsReclaimedFirst(cfg, s, now, max);
      var i, id :| max <= i < |r| && id in s.leased.Keys - ExpiredIds(s, now) && id >= r[i].id;
      assert r[i] == (r + s.pending)[n..][i - n];
      assert r[i] in s'.pending && id in s'.leased;
    }
  }

  lemma ReadsReclaimedFirst(cfg: Config, s: State, now: nat, max: nat)
    ensures var r := Reclaimed(cfg, s, now);
      var n := Scan(ViewAt(cfg, s, now), max, r + s.pending);
      if |r| <= max then n >= |r| else n == max
  {
    var v, r := ViewAt(cfg, s, now), Reclaimed(cfg, s, now);
    KeptMembers(v, Expired(s, now));
    if |r| <= max {
      ScanPassesKept(v, max, r, s.pending);
    } else {
      ScanStopsInKept(v, max, r, s.pending);
    }
  }

  lemma {:induction false} ScanStopsInKept(v: View, max: nat, front: seq<Entry>, rest: seq<Entry>)
    requires max < |front| && forall e :: e in front ==> v.Keeps(e)
    ensures Scan(v, max, front + rest) == max
  {
    if max > 0 {
      assert front[0] in front;
      assert (front + rest)[1..] == front[1..] + rest;
      ScanStopsInKept(v, max - 1, front[1..], rest);
    }
  }

  lemma LeasedBefore(cfg: Config, s: State, now: nat, max: nat, id: nat, e: Entry)
    requires TakeCuts(cfg, s, now, max, Take(cfg, s, now, max))
    requires AscendingIds(Pool(cfg, s, now)) && Fifo(s) && KeepsOrder(cfg, s, now, max)
    requires id in Take(cfg, s, now, max).leased && e in Take(cfg, s, now, max).pending
    ensures id < e.id
  {
    hide Kept, Expired, Batch, Lent, Retain, Take;
    if id in Ids(Batch(cfg, s, now, max)) {
      ReadBeforeUnread(Pool(cfg, s, now), Scan(ViewAt(cfg, s, now), max, Pool(cfg, s, now)), id, e);
    } else {
      UnexpiredBefore(cfg, s, now, max, id, e);
    }
  }

  lemma ReadBeforeUnread(pool: seq<Entry>, n: nat, id: nat, e: Entry)
    requires AscendingIds(pool) && n <= |pool| && id in Ids(pool[..n]) && e in pool[n..]
    ensures id < e.id
  {
    var i :| 0 <= i < n && pool[i].id == id;
    var j :| n <= j < |pool| && pool[j] == e;
  }

  lemma UnexpiredBefore(cfg: Config, s: State, now: nat, max: nat, id: nat, e: Entry)
    requires Fifo(s) && KeepsOrder(cfg, s, now, max) && id in s.leased.Keys - ExpiredIds(s, now)
    requires e in Pool(cfg, s, now)[Scan(ViewAt(cfg, s, now), max, Pool(cfg, s, now))..]
    ensures id < e.id
  {
    hide Kept, Expired;
    var pool, r := Pool(cfg, s, now), Reclaimed(cfg, s, now);
    var n := Scan(ViewAt(cfg, s, now), max, pool);
    ReadsReclaimedFirst(cfg, s, now, max);
    var j :| n <= j < |pool| && pool[j] == e;
    if j < |r| {
      assert e == r[j];
    } else {
      assert e == s.pending[j - |r|];
    }
  }

  lemma EnqueueKeepsFifo(cfg: Config, s: State, log: seq<Entry>, now: nat, payload: Value, key: Option<Device>)
    requires Inv(s, log) && Fifo(s)
    ensures Fifo(Enqueue(cfg, s, now, payload, key))
  {
  }

  /** FIFO holds throughout a run exactly when every poll of it meets its guard. */
  lemma {:induction false} FifoExactly(cfg: Config, ops: seq<Op>)
    ensures AlwaysFifo(cfg, ops) <==> Orderly(cfg, ops)
  {
    hide Fifo, KeepsOrder, After;
    if ops == [] {
      EmptyIsFifo(cfg);
    } else {
      var before, op := ops[..|ops| - 1], ops[|ops| - 1];
      FifoExactly(cfg, before);
      if Orderly(cfg, before) {
        FifoStep(cfg, before, op);
        assert ops == before + [op];
      }
    }
  }

  lemma EmptyIsFifo(cfg: Config)
    ensures Fifo(After(cfg, []))
  {
  }

  lemma FifoStep(cfg: Config, ops: seq<Op>, op: Op)
    requires Fifo(After(cfg, ops))
    ensures Fifo(After(cfg, ops + [op])) <==> (op.Poll? ==> KeepsOrder(cfg, After(cfg, ops), op.now, op.max))
  {
    hide KeepsOrder;
    assert (ops + [op])[..|ops|] == ops;
    RunInv(cfg, ops);
    match op
    case Settle(ids) =>
    case Arrive(now, payload, key) =>
      EnqueueKeepsFifo(cfg, After(cfg, ops), Log(ops), now, payload, key);
    case Poll(now, max) =>
      TakeKeepsFifo(cfg, After(cfg, ops), Log(ops), now, max);
  }

  /** What FIFO means for clients: in an orderly run every next batch ascends, and an
      enqueue that evicts evicts the smallest pending ids. */
  lemma OrderlyRun(cfg: Config, ops: seq<Op>, now: nat, max: nat)
    requires Orderly(cfg, ops)
    ensures AscendingIds(After(cfg, ops).pending)
    ensures AscendingIds(Batch(cfg, After(cfg, ops), now, max))
    ensures forall payload: Value, key: Option<Device> ::
      var s, s' := After(cfg, ops), After(cfg, ops + [Arrive(now, payload, key)]);
      forall e, f :: e in s.pending && e !in s'.pending && f in s'.pending ==> e.id < f.id
  {
    hide Orderly, Batch;
    FifoExactly(cfg, ops);
    RunInv(cfg, ops);
    BatchAscends(cfg, After(cfg, ops), Log(ops), now, max);
    forall payload: Value, key: Option<Device>
      ensures var s, s' := After(cfg, ops), After(cfg, ops + [Arrive(now, payload, key)]);
        forall e, f :: e in s.pending && e !in s'.pending && f in s'.pending ==> e.id < f.id
    {
      assert (ops + [Arrive(now, payload, key)])[..|ops|] == ops;
      EvictsSmallest(cfg, After(cfg, ops), Log(ops), now, payload, key);
    }
  }

  lemma EvictsSmallest(cfg: Config, s: State, log: seq<Entry>, now: nat, payload: Value, key: Option<Device>)
    requires Inv(s, log) && AscendingIds(s.pending)
    ensures var s' := Enqueue(cfg, s, now, payload, key);
      forall e, f :: e in s.pending && e !in s'.pending && f in s'.pending ==> e.id < f.id
  {
    var s' := Enqueue(cfg, s, now, payload, key);
    EnqueueKeepsNewest(cfg, s, now, payload, key);
    var gone := |s.pending| + 1 - |s'.pending|;
    forall p | gone <= p < |s.pending| ensures s.pending[p] in s'.pending {
      assert s'.pending[p - gone] == s.pending[p];
    }
    forall e, f | e in s.pending && e !in s'.pending && f in s'.pending ensures e.id < f.id {
      var p :| 0 <= p < |s.pending| && s.pending[p] == e;
      var q :| 0 <= q < |s'.pending| && s'.pending[q] == f;
    }
  }
}
