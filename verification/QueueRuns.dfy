/** Runs of the queue: any sequence of enqueues, polls and acks, with any clock
    readings, starting from the empty queue. */
module QueueRuns {
  import opened Prelude
  import opened Api
  import opened QueueSpec

  datatype Op =
    | Arrive(now: nat, payload: Value, key: Option<Device>)
    | Poll(now: nat, max: nat)
    | Settle(ids: seq<nat>)

  function IdSet(ids: seq<nat>): set<nat> {
    set id | id in ids
  }

  function Apply(cfg: Config, s: State, op: Op): State {
    match op
    case Arrive(now, payload, key) => Enqueue(cfg, s, now, payload, key)
    case Poll(now, max) => Take(cfg, s, now, max)
    case Settle(ids) => Ack(s, IdSet(ids))
  }

  function After(cfg: Config, ops: seq<Op>): State {
    if ops == [] then EMPTY
    else Apply(cfg, After(cfg, ops[..|ops| - 1]), ops[|ops| - 1])
  }

  /** Every entry ever enqueued; its position is its id. */
  function Log(ops: seq<Op>): seq<Entry> {
    if ops == [] then []
    else
      var log, op := Log(ops[..|ops| - 1]), ops[|ops| - 1];
      if op.Arrive? then log + [Entry(|log|, op.now, op.payload, op.key)] else log
  }

  /** The newest badge entry ever enqueued for each device. */
  function Newest(log: seq<Entry>): map<Device, nat> {
    if log == [] then map[]
    else
      var n := |log| - 1;
      if log[n].countKey.Some? then Newest(log[..n])[log[n].countKey.value := n]
      else Newest(log[..n])
  }

  ghost predicate IsNewest(log: seq<Entry>, id: nat)
    requires id < |log|
  {
    forall j :: id < j < |log| ==> log[j].countKey != log[id].countKey
  }

  lemma {:induction false} NewestFacts(log: seq<Entry>)
    ensures forall k :: k in Newest(log) ==>
      var id := Newest(log)[k]; id < |log| && log[id].countKey == Some(k) && IsNewest(log, id)
    ensures forall i :: 0 <= i < |log| && log[i].countKey.Some? ==> log[i].countKey.value in Newest(log)
  {
    if log != [] {
      NewestFacts(log[..|log| - 1]);
    }
  }

  // --- the invariant of every reachable state ---

  /** Buffer and leases hold logged entries, each id at one place only. */
  ghost predicate Placed(pending: seq<Entry>, leased: map<nat, Lease>, log: seq<Entry>) {
    && Distinct(pending)
    && Ids(pending) !! leased.Keys
    && (forall e :: e in pending ==> e.id < |log| && log[e.id] == e)
    && (forall id :: id in leased ==> id < |log| && leased[id].entry == log[id])
  }

  ghost predicate Inv(s: State, log: seq<Entry>) {
    && |log| == s.nextId
    && (forall i :: 0 <= i < |log| ==> log[i].id == i)
    && Placed(s.pending, s.leased, log)
    && s.index == Retain(Newest(log), Held(s))
  }

  /** An index entry never points at an entry of another device. */
  lemma OwnerHasKey(s: State, log: seq<Entry>, k: Device)
    requires Inv(s, log) && k in s.index
    ensures s.index[k] in Held(s) && s.index[k] < |log|
    ensures log[s.index[k]].countKey == Some(k) && IsNewest(log, s.index[k])
  {
    NewestFacts(log);
  }

  lemma ExpiredListing(s: State, log: seq<Entry>, now: nat, i: nat)
    requires Inv(s, log) && i < |Expired(s, now)|
    ensures var listing, e := Ascending(ExpiredIds(s, now), s.nextId), Expired(s, now)[i];
      && |Expired(s, now)| == |listing| && e.id == listing[i]
      && e.id in ExpiredIds(s, now) && e.id < |log| && e == log[e.id]
  {
    AscendingFacts(ExpiredIds(s, now), s.nextId);
    var listing := Ascending(ExpiredIds(s, now), s.nextId);
    assert listing[i] in listing;
  }

  lemma ExpiredFacts(s: State, log: seq<Entry>, now: nat)
    requires Inv(s, log)
    ensures var es := Expired(s, now);
      && (forall i, j :: 0 <= i < j < |es| ==> es[i].id < es[j].id)
      && (forall e :: e in es ==> e.id in ExpiredIds(s, now) && log[e.id] == e)
  {
    AscendingFacts(ExpiredIds(s, now), s.nextId);
    forall i: nat | i < |Expired(s, now)|
      ensures Expired(s, now)[i].id == Ascending(ExpiredIds(s, now), s.nextId)[i]
      ensures Expired(s, now)[i].id in ExpiredIds(s, now) && Expired(s, now)[i] == log[Expired(s, now)[i].id]
    {
      ExpiredListing(s, log, now, i);
    }
  }

  /** Reclaimed leases and old buffer never share an entry. */
  lemma PoolFacts(cfg: Config, s: State, log: seq<Entry>, now: nat)
    requires Inv(s, log)
    ensures var pool, v := Pool(cfg, s, now), ViewAt(cfg, s, now);
      && Distinct(pool)
      && (forall e :: e in pool ==> e.id < |log| && log[e.id] == e)
      && Ids(pool) !! (s.leased - ExpiredIds(s, now)).Keys
      && Ids(pool) <= Held(s) && Ids(s.pending) <= Ids(pool)
      && Kept(v, pool) == Kept(v, Expired(s, now) + s.pending)
  {
    var v, expired := ViewAt(cfg, s, now), Expired(s, now);
    var reclaimed := Kept(v, expired);
    ExpiredFacts(s, log, now);
    KeptMembers(v, expired);
    KeptDistinct(v, expired);
    KeptIdempotent(v, expired);
    KeptAppend(v, expired, s.pending);
    KeptAppend(v, reclaimed, s.pending);
    IdsAppend(reclaimed, s.pending);
    forall i, j | 0 <= i < |reclaimed| && 0 <= j < |s.pending|
      ensures reclaimed[i].id != s.pending[j].id
    {
      assert reclaimed[i] in reclaimed && s.pending[j] in s.pending;
    }
  }

  lemma TakeFacts(cfg: Config, s: State, log: seq<Entry>, now: nat, max: nat)
    requires Inv(s, log)
    ensures TakeCuts(cfg, s, now, max, Take(cfg, s, now, max))
  {
    PoolFacts(cfg, s, log, now);
    PoolIsCut(cfg, s, now, max);
  }

  lemma TakeKeepsInv(cfg: Config, s: State, log: seq<Entry>, now: nat, max: nat)
    requires Inv(s, log)
    ensures Inv(Take(cfg, s, now, max), log)
    ensures Held(Take(cfg, s, now, max)) <= Held(s)
  {
    var pool, base, s' := Pool(cfg, s, now), s.leased - ExpiredIds(s, now), Take(cfg, s, now, max);
    TakeFacts(cfg, s, log, now, max);
    assert Placed(pool, base, log) && Ids(pool) <= Held(s) by {
      PoolFacts(cfg, s, log, now);
    }
    PlacedAfterRead(ViewAt(cfg, s, now), pool, base, now + cfg.lease, max,
                    Batch(cfg, s, now, max), s'.pending, s'.leased, log);
    RetainTwice(Newest(log), Held(s), Held(s'));
  }

  lemma PlacedAfterRead(v: View, pool: seq<Entry>, base: map<nat, Lease>, deadline: nat, max: nat,
                        batch: seq<Entry>, pending: seq<Entry>, leased: map<nat, Lease>, log: seq<Entry>)
    requires Placed(pool, base, log)
    requires Cuts(v, pool, base, deadline, max, batch, pending, leased)
    ensures Placed(pending, leased, log)
    ensures Ids(pending) + leased.Keys <= Ids(pool) + base.Keys
  {
    var n := Scan(v, max, pool);
    CutDistinct(pool, n);
    KeptMembers(v, pool[..n]);
    assert forall e :: e in pending || e in batch ==> e in pool;
  }

  lemma RetainTwice(index: map<Device, nat>, a: set<nat>, b: set<nat>)
    requires b <= a
    ensures Retain(Retain(index, a), b) == Retain(index, b)
  {
  }

  lemma AckKeepsInv(s: State, log: seq<Entry>, ids: set<nat>)
    requires Inv(s, log)
    ensures Inv(Ack(s, ids), log)
    ensures Held(Ack(s, ids)) == Held(s) - (ids * s.leased.Keys)
  {
    RetainTwice(Newest(log), Held(s), Held(Ack(s, ids)));
  }

  lemma EnqueueHolds(cfg: Config, s: State, now: nat, payload: Value, key: Option<Device>)
    requires Distinct(s.pending) && Ids(s.pending) !! s.leased.Keys && s.nextId !in Held(s)
    ensures var s', n := Enqueue(cfg, s, now, payload, key), Overflow(cfg, s);
      Held(s') == Held(s) - Ids(s.pending[..n]) + {s.nextId}
  {
    var n, e := Overflow(cfg, s), Entry(s.nextId, now, payload, key);
    CutDistinct(s.pending, n);
    IdsAppend(s.pending[n..], [e]);
    assert Ids([e]) == {e.id} by {
      assert e in [e];
    }
  }

  lemma EnqueuePlaces(pending: seq<Entry>, n: nat, leased: map<nat, Lease>, log: seq<Entry>, e: Entry)
    requires Placed(pending, leased, log) && n <= |pending| && e.id == |log|
    ensures Placed(pending[n..] + [e], leased, log + [e])
  {
    CutDistinct(pending, n);
    IdsAppend(pending[n..], [e]);
    assert forall f :: f in pending[n..] ==> f in pending;
    assert forall f :: f in [e] <==> f == e;
  }

  lemma NewestAppend(log: seq<Entry>, e: Entry)
    ensures Newest(log + [e]) ==
      if e.countKey.Some? then Newest(log)[e.countKey.value := |log|] else Newest(log)
  {
    assert (log + [e])[..|log|] == log;
  }

  lemma EnqueueKeepsInv(cfg: Config, s: State, log: seq<Entry>, now: nat, payload: Value, key: Option<Device>)
    requires Inv(s, log)
    ensures Inv(Enqueue(cfg, s, now, payload, key), log + [Entry(s.nextId, now, payload, key)])
    ensures s.nextId !in Held(s)
    ensures var n := Overflow(cfg, s);
      Held(Enqueue(cfg, s, now, payload, key)) == Held(s) - Ids(s.pending[..n]) + {s.nextId}
  {
    var s', n, e := Enqueue(cfg, s, now, payload, key), Overflow(cfg, s), Entry(s.nextId, now, payload, key);
    EnqueueHolds(cfg, s, now, payload, key);
    EnqueuePlaces(s.pending, n, s.leased, log, e);
    NewestAppend(log, e);
    NewestFacts(log);
    IndexAfterEnqueue(Newest(log), Held(s), Held(s'), s.nextId, key);
  }

  lemma IndexAfterEnqueue(newest: map<Device, nat>, held: set<nat>, held': set<nat>, id: nat, key: Option<Device>)
    requires held' <= held + {id} && id in held'
    requires forall k :: k in newest ==> newest[k] != id
    ensures var index := Retain(newest, held);
      Retain(if key.Some? then index[key.value := id] else index, held')
      == Retain(if key.Some? then newest[key.value := id] else newest, held')
  {
  }

  lemma {:induction false} RunInv(cfg: Config, ops: seq<Op>)
    ensures Inv(After(cfg, ops), Log(ops))
  {
    if ops != [] {
      var before, op := ops[..|ops| - 1], ops[|ops| - 1];
      RunInv(cfg, before);
      var s, log := After(cfg, before), Log(before);
      match op
      case Arrive(now, payload, key) => EnqueueKeepsInv(cfg, s, log, now, payload, key);
      case Poll(now, max) => TakeKeepsInv(cfg, s, log, now, max);
      case Settle(ids) => AckKeepsInv(s, log, IdSet(ids));
    }
  }
}
