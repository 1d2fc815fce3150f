/** What polls hand out over a whole run: never a superseded badge, no
    device's badges out of order, and never one entry twice within a lease. */
module QueueDelivery {
  import opened Prelude
  import opened Api
  import opened QueueSpec
  import opened QueueRuns
  import opened QueueLedger

  datatype Handout = Handout(time: nat, entry: Entry)

  function Stamp(now: nat, es: seq<Entry>): seq<Handout> {
    seq(|es|, i requires 0 <= i < |es| => Handout(now, es[i]))
  }

  /** Everything ever handed out, to any poller, in order. */
  function Handed(cfg: Config, ops: seq<Op>): seq<Handout> {
    if ops == [] then []
    else
      var before, op := ops[..|ops| - 1], ops[|ops| - 1];
      Handed(cfg, before) +
      if op.Poll? then Stamp(op.now, Batch(cfg, After(cfg, before), op.now, op.max)) else []
  }

  // --- badges ---

  /** What a poll returns is logged, held, fresh, and the newest badge of its device. */
  lemma BatchIsCurrent(cfg: Config, ops: seq<Op>, now: nat, max: nat, e: Entry)
    requires e in Batch(cfg, After(cfg, ops), now, max)
    ensures e.id < |Log(ops)| && Log(ops)[e.id] == e
    ensures e.countKey.Some? ==> IsNewest(Log(ops), e.id)
    ensures Since(now, e.enqueued) < cfg.entryTtl
    ensures e.id in Held(After(cfg, ops)) && e.id !in After(cfg, ops).leased.Keys - ExpiredIds(After(cfg, ops), now)
  {
    var s := After(cfg, ops);
    RunInv(cfg, ops);
    TakeFacts(cfg, s, Log(ops), now, max);
    KeptMembers(ViewAt(cfg, s, now), Pool(cfg, s, now)[..Scan(ViewAt(cfg, s, now), max, Pool(cfg, s, now))]);
    PoolFacts(cfg, s, Log(ops), now);
    LiveIffNewest(cfg, ops, e.id);
  }

  /** No batch holds one entry twice, nor two badges of one device. */
  lemma OneBadgePerDevice(cfg: Config, ops: seq<Op>, now: nat, max: nat, i: nat, j: nat)
    requires i < j < |Batch(cfg, After(cfg, ops), now, max)|
    ensures var b := Batch(cfg, After(cfg, ops), now, max);
      && b[i].id != b[j].id
      && (b[i].countKey == b[j].countKey ==> b[i].countKey.None?)
  {
    var b := Batch(cfg, After(cfg, ops), now, max);
    RunInv(cfg, ops);
    TakeFacts(cfg, After(cfg, ops), Log(ops), now, max);
    BatchIsCurrent(cfg, ops, now, max, b[i]);
    BatchIsCurrent(cfg, ops, now, max, b[j]);
  }

  lemma {:induction false} HandedIsLogged(cfg: Config, ops: seq<Op>, i: nat)
    requires i < |Handed(cfg, ops)|
    ensures var e := Handed(cfg, ops)[i].entry; e.id < |Log(ops)| && Log(ops)[e.id] == e
  {
    var before, op := ops[..|ops| - 1], ops[|ops| - 1];
    if i < |Handed(cfg, before)| {
      HandedIsLogged(cfg, before, i);
      LogGrows(ops, |ops| - 1);
    } else {
      BatchIsCurrent(cfg, before, op.now, op.max, Handed(cfg, ops)[i].entry);
    }
  }

  /** A device's badges never go back: later hand-outs carry larger (or equal) ids. */
  lemma {:induction false} BadgesNeverGoBack(cfg: Config, ops: seq<Op>, i: nat, j: nat)
    requires i <= j < |Handed(cfg, ops)|
    requires var h := Handed(cfg, ops); h[i].entry.countKey == h[j].entry.countKey && h[i].entry.countKey.Some?
    ensures Handed(cfg, ops)[i].entry.id <= Handed(cfg, ops)[j].entry.id
  {
    var n := |ops| - 1;
    var before, op, h := ops[..n], ops[n], Handed(cfg, ops);
    if j < |Handed(cfg, before)| {
      BadgesNeverGoBack(cfg, before, i, j);
    } else {
      BatchIsCurrent(cfg, before, op.now, op.max, h[j].entry);
      if i < |Handed(cfg, before)| {
        HandedIsLogged(cfg, before, i);
      } else {
        BatchIsCurrent(cfg, before, op.now, op.max, h[i].entry);
      }
    }
  }

  // --- leases: this part needs a clock that does not run backwards ---

  function Clock(ops: seq<Op>): nat {
    if ops == [] then 0
    else if ops[|ops| - 1].Settle? then Clock(ops[..|ops| - 1])
    else ops[|ops| - 1].now
  }

  ghost predicate Monotone(ops: seq<Op>) {
    ops == [] ||
    (Monotone(ops[..|ops| - 1]) && Clock(ops[..|ops| - 1]) <= Clock(ops))
  }

  /** When entry `id` was handed out. */
  function Times(cfg: Config, ops: seq<Op>, id: nat): seq<nat> {
    if ops == [] then []
    else
      var before, op := ops[..|ops| - 1], ops[|ops| - 1];
      Times(cfg, before, id) +
      if op.Poll? && id in Ids(Batch(cfg, After(cfg, before), op.now, op.max)) then [op.now] else []
  }

  /** Hand-outs of one entry are a lease apart and all within its lifetime. */
  ghost predicate Spaced(ts: seq<nat>, lease: nat, born: nat, ttl: nat) {
    && (forall i :: 0 <= i < |ts| - 1 ==> ts[i] + lease <= ts[i + 1])
    && (forall i :: 0 <= i < |ts| ==> born <= ts[i] < born + ttl)
  }

  /** Leases remember the last hand-out, and the buffer only holds entries whose lease is over. */
  ghost predicate LeaseRecalls(s: State, id: nat, ts: seq<nat>, lease: nat, clock: nat) {
    && (id in s.leased ==> ts != [] && s.leased[id].deadline == ts[|ts| - 1] + lease)
    && (id in Ids(s.pending) && ts != [] ==> ts[|ts| - 1] + lease <= clock)
  }

  lemma {:induction false} BornBeforeClock(ops: seq<Op>, id: nat)
    requires Monotone(ops) && id < |Log(ops)|
    ensures Log(ops)[id].enqueued <= Clock(ops)
  {
    var before := ops[..|ops| - 1];
    if id < |Log(before)| {
      BornBeforeClock(before, id);
    }
  }

  lemma {:induction false} NotHandedBeforeBirth(cfg: Config, ops: seq<Op>, id: nat)
    requires id >= |Log(ops)|
    ensures Times(cfg, ops, id) == []
  {
    if ops != [] {
      var before, op := ops[..|ops| - 1], ops[|ops| - 1];
      NotHandedBeforeBirth(cfg, before, id);
      if op.Poll? && id in Ids(Batch(cfg, After(cfg, before), op.now, op.max)) {
        var e :| e in Batch(cfg, After(cfg, before), op.now, op.max) && e.id == id;
        BatchIsCurrent(cfg, before, op.now, op.max, e);
      }
    }
  }

  ghost predicate OnSchedule(cfg: Config, ops: seq<Op>, id: nat) {
    && id < |Log(ops)|
    && Spaced(Times(cfg, ops, id), cfg.lease, Log(ops)[id].enqueued, cfg.entryTtl)
    && LeaseRecalls(After(cfg, ops), id, Times(cfg, ops, id), cfg.lease, Clock(ops))
  }

  /** For every run with a monotone clock, consecutive hand-outs of one entry, to
      any pollers, are at least a lease apart, at ages below the entry TTL. */
  lemma {:induction false} RedeliverySpacing(cfg: Config, ops: seq<Op>, id: nat)
    requires Monotone(ops) && id < |Log(ops)|
    ensures OnSchedule(cfg, ops, id)
  {
    var before, op := ops[..|ops| - 1], ops[|ops| - 1];
    assert ops == before + [op];
    if id == |Log(before)| {
      BirthSchedule(cfg, before, op);
    } else {
      RedeliverySpacing(cfg, before, id);
      match op
      case Settle(ids) => SettleSchedule(cfg, before, ids, id);
      case Arrive(now, payload, key) => ArriveSchedule(cfg, before, op, id);
      case Poll(now, max) => PollSchedule(cfg, before, now, max, id);
    }
  }

  lemma BirthSchedule(cfg: Config, ops: seq<Op>, op: Op)
    requires op.Arrive?
    ensures OnSchedule(cfg, ops + [op], |Log(ops)|)
  {
    hide Batch, Newest, Retain, Ids;
    assert (ops + [op])[..|ops|] == ops;
    NotHandedBeforeBirth(cfg, ops, |Log(ops)|);
    RunInv(cfg, ops);
  }

  lemma SettleSchedule(cfg: Config, ops: seq<Op>, ids: seq<nat>, id: nat)
    requires OnSchedule(cfg, ops, id)
    ensures OnSchedule(cfg, ops + [Settle(ids)], id)
  {
    assert (ops + [Settle(ids)])[..|ops|] == ops;
  }

  lemma ArriveSchedule(cfg: Config, ops: seq<Op>, op: Op, id: nat)
    requires op.Arrive? && Clock(ops) <= op.now
    requires OnSchedule(cfg, ops, id)
    ensures OnSchedule(cfg, ops + [op], id)
  {
    hide Batch, Newest, Retain, Ids;
    RunInv(cfg, ops);
    assert (ops + [op])[..|ops|] == ops;
    PendingAfterEnqueue(cfg, After(cfg, ops), op.now, op.payload, op.key);
  }

  lemma PendingAfterEnqueue(cfg: Config, s: State, now: nat, payload: Value, key: Option<Device>)
    ensures Ids(Enqueue(cfg, s, now, payload, key).pending) <= Ids(s.pending) + {s.nextId}
  {
    var kept, e := s.pending[Overflow(cfg, s)..], Entry(s.nextId, now, payload, key);
    assert forall f :: f in kept ==> f in s.pending;
    IdsAppend(kept, [e]);
    assert forall f :: f in [e] ==> f == e;
  }

  lemma PollSchedule(cfg: Config, ops: seq<Op>, now: nat, max: nat, id: nat)
    requires Monotone(ops) && Clock(ops) <= now
    requires OnSchedule(cfg, ops, id)
    ensures OnSchedule(cfg, ops + [Poll(now, max)], id)
  {
    assert (ops + [Poll(now, max)])[..|ops|] == ops;
    var ts := Times(cfg, ops, id);
    if id in Ids(Batch(cfg, After(cfg, ops), now, max)) {
      PollHandsOut(cfg, ops, now, max, id);
    } else {
      assert ts + [] == ts;
      PollPassesBy(cfg, ops, now, max, id);
    }
  }

  lemma PollHandsOut(cfg: Config, ops: seq<Op>, now: nat, max: nat, id: nat)
    requires Monotone(ops) && Clock(ops) <= now && id < |Log(ops)|
    requires id in Ids(Batch(cfg, After(cfg, ops), now, max))
    requires Spaced(Times(cfg, ops, id), cfg.lease, Log(ops)[id].enqueued, cfg.entryTtl)
    requires LeaseRecalls(After(cfg, ops), id, Times(cfg, ops, id), cfg.lease, Clock(ops))
    ensures var ts' := Times(cfg, ops, id) + [now];
      && Spaced(ts', cfg.lease, Log(ops)[id].enqueued, cfg.entryTtl)
      && LeaseRecalls(Take(cfg, After(cfg, ops), now, max), id, ts', cfg.lease, now)
  {
    var e :| e in Batch(cfg, After(cfg, ops), now, max) && e.id == id;
    assert Spaced(Times(cfg, ops, id) + [now], cfg.lease, Log(ops)[id].enqueued, cfg.entryTtl) by {
      HandoutIsDue(cfg, ops, now, max, e);
      BornBeforeClock(ops, id);
      SpacedExtend(Times(cfg, ops, id), cfg.lease, Log(ops)[id].enqueued, cfg.entryTtl, now);
    }
    RunInv(cfg, ops);
    LeaseOfBatch(cfg, After(cfg, ops), Log(ops), now, max, e);
  }

  lemma PollPassesBy(cfg: Config, ops: seq<Op>, now: nat, max: nat, id: nat)
    requires Clock(ops) <= now
    requires id !in Ids(Batch(cfg, After(cfg, ops), now, max))
    requires LeaseRecalls(After(cfg, ops), id, Times(cfg, ops, id), cfg.lease, Clock(ops))
    ensures LeaseRecalls(Take(cfg, After(cfg, ops), now, max), id, Times(cfg, ops, id), cfg.lease, now)
  {
    RunInv(cfg, ops);
    LeaseOfRest(cfg, After(cfg, ops), Log(ops), now, max, id);
  }

  lemma HandoutIsDue(cfg: Config, ops: seq<Op>, now: nat, max: nat, e: Entry)
    requires e in Batch(cfg, After(cfg, ops), now, max) && Clock(ops) <= now
    requires LeaseRecalls(After(cfg, ops), e.id, Times(cfg, ops, e.id), cfg.lease, Clock(ops))
    ensures e.id < |Log(ops)| && Log(ops)[e.id] == e && Since(now, e.enqueued) < cfg.entryTtl
    ensures var ts := Times(cfg, ops, e.id); ts != [] ==> ts[|ts| - 1] + cfg.lease <= now
  {
    BatchIsCurrent(cfg, ops, now, max, e);
  }

  lemma SpacedExtend(ts: seq<nat>, lease: nat, born: nat, ttl: nat, now: nat)
    requires Spaced(ts, lease, born, ttl)
    requires ts != [] ==> ts[|ts| - 1] + lease <= now
    requires born <= now < born + ttl
    ensures Spaced(ts + [now], lease, born, ttl)
  {
  }

  lemma LeaseOfBatch(cfg: Config, s: State, log: seq<Entry>, now: nat, max: nat, e: Entry)
    requires Inv(s, log) && e in Batch(cfg, s, now, max)
    ensures var s' := Take(cfg, s, now, max);
      e.id in s'.leased && s'.leased[e.id].deadline == now + cfg.lease && e.id !in Ids(s'.pending)
  {
    TakeFacts(cfg, s, log, now, max);
    TakeKeepsInv(cfg, s, log, now, max);
  }

  lemma LeaseOfRest(cfg: Config, s: State, log: seq<Entry>, now: nat, max: nat, id: nat)
    requires Inv(s, log) && id !in Ids(Batch(cfg, s, now, max))
    ensures var s' := Take(cfg, s, now, max);
      && (id in s'.leased ==> id in s.leased && s'.leased[id] == s.leased[id])
      && (id in Ids(s'.pending) ==> id in Ids(s.pending) || (id in s.leased && s.leased[id].deadline <= now))
  {
    var s' := Take(cfg, s, now, max);
    TakeFacts(cfg, s, log, now, max);
    TakeKeepsInv(cfg, s, log, now, max);
    if id in Ids(s'.pending) {
      assert forall e :: e in s'.pending ==> e in Pool(cfg, s, now);
      PoolFacts(cfg, s, log, now);
    }
  }

  /** So an entry is handed out at most ceil(entryTtl / lease) times in any run. */
  lemma RedeliveryBound(cfg: Config, ops: seq<Op>, id: nat)
    requires Monotone(ops) && id < |Log(ops)| && cfg.lease > 0
    ensures |Times(cfg, ops, id)| <= (cfg.entryTtl + cfg.lease - 1) / cfg.lease
  {
    hide Times, Log, Spaced, After;
    RedeliverySpacing(cfg, ops, id);
    SpacedBound(Times(cfg, ops, id), cfg.lease, Log(ops)[id].enqueued, cfg.entryTtl);
  }

  lemma SpacedBound(ts: seq<nat>, lease: nat, born: nat, ttl: nat)
    requires Spaced(ts, lease, born, ttl) && lease > 0
    ensures |ts| <= (ttl + lease - 1) / lease
  {
    if ts != [] {
      SpacedSpan(ts, lease, born, ttl, |ts| - 1);
      DivisionBound(|ts|, lease, ttl);
    }
  }

  lemma {:induction false} SpacedSpan(ts: seq<nat>, lease: nat, born: nat, ttl: nat, i: nat)
    requires Spaced(ts, lease, born, ttl) && i < |ts|
    ensures ts[0] + i * lease <= ts[i]
  {
    if i > 0 {
      SpacedSpan(ts, lease, born, ttl, i - 1);
      assert i * lease == (i - 1) * lease + lease;
    }
  }

  lemma DivisionBound(n: nat, lease: nat, ttl: nat)
    requires n > 0 && lease > 0 && (n - 1) * lease < ttl
    ensures n <= (ttl + lease - 1) / lease
  {
    var q := (ttl + lease - 1) / lease;
    assert ttl <= q * lease;
    assert q <= n - 1 ==> q * lease <= (n - 1) * lease;
  }
}
