/** What the lease-based queue does, as functions on its state: the ring buffer,
    the leases and the index naming the newest badge entry of each device. */
module QueueSpec {
  import opened Prelude
  import opened Api

  /** `countKey` is set for count-only (badge) notifications, which coalesce per device. */
  datatype Entry = Entry(id: nat, enqueued: nat, payload: Value, countKey: Option<Device>)
  datatype Lease = Lease(deadline: nat, entry: Entry)
  datatype Config = Config(maxEntries: nat, entryTtl: nat, lease: nat)

  datatype State = State(
    nextId: nat, pending: seq<Entry>, index: map<Device, nat>, leased: map<nat, Lease>)

  const EMPTY := State(0, [], map[], map[])

  // --- ids, liveness, freshness ---

  function Ids(es: seq<Entry>): set<nat> {
    set e | e in es :: e.id
  }

  ghost predicate Distinct(es: seq<Entry>) {
    forall i, j :: 0 <= i < j < |es| ==> es[i].id != es[j].id
  }

  /** The ids the queue is still responsible for. */
  function Held(s: State): set<nat> {
    Ids(s.pending) + s.leased.Keys
  }

  predicate Owns(index: map<Device, nat>, e: Entry) {
    e.countKey.Some? && e.countKey.value in index && index[e.countKey.value] == e.id
  }

  predicate IsLive(index: map<Device, nat>, e: Entry) {
    e.countKey.None? || Owns(index, e)
  }

  /** The part of the index that names one of `ids`. */
  function Retain(index: map<Device, nat>, ids: set<nat>): map<Device, nat> {
    map k | k in index && index[k] in ids :: index[k]
  }

  /** How one poll, at one instant, judges entries. */
  datatype View = View(index: map<Device, nat>, now: nat, ttl: nat) {
    predicate Fresh(e: Entry) {
      Since(now, e.enqueued) < ttl
    }

    predicate Keeps(e: Entry) {
      IsLive(index, e) && Fresh(e)
    }
  }

  function Kept(v: View, es: seq<Entry>): seq<Entry> {
    if es == [] then []
    else if v.Keeps(es[0]) then [es[0]] + Kept(v, es[1..])
    else Kept(v, es[1..])
  }

  function FirstOf(es: seq<Entry>, max: nat): seq<Entry> {
    es[..Min(max, |es|)]
  }

  /** How many entries leave the front before `max` deliverable ones are found. */
  function Scan(v: View, max: nat, es: seq<Entry>): (n: nat)
    ensures n <= |es|
  {
    if max == 0 || es == [] then 0
    else 1 + Scan(v, if v.Keeps(es[0]) then max - 1 else max, es[1..])
  }

  // --- enqueue ---

  /** How many entries an enqueue evicts from the front. */
  function Overflow(cfg: Config, s: State): (n: nat)
    ensures n <= |s.pending|
  {
    if |s.pending| < cfg.maxEntries then 0
    else Min(|s.pending|, |s.pending| - cfg.maxEntries + 1)
  }

  function Enqueue(cfg: Config, s: State, now: nat, payload: Value, key: Option<Device>): State {
    var pending := s.pending[Overflow(cfg, s)..] + [Entry(s.nextId, now, payload, key)];
    var index := if key.Some? then s.index[key.value := s.nextId] else s.index;
    State(s.nextId + 1, pending, Retain(index, Ids(pending) + s.leased.Keys), s.leased)
  }

  /** Whatever the buffer held before, it then holds the newest entries that fit, in their
      old order, and the new one last. There is always room for the new one. */
  lemma EnqueueKeepsNewest(cfg: Config, s: State, now: nat, payload: Value, key: Option<Device>)
    ensures var s', old0 := Enqueue(cfg, s, now, payload, key), s.pending;
      var gone := |old0| + 1 - |s'.pending|;
      && |s'.pending| == Min(|old0| + 1, if cfg.maxEntries == 0 then 1 else cfg.maxEntries)
      && s'.pending == old0[gone..] + [Entry(s.nextId, now, payload, key)]
      && s'.leased == s.leased && s'.nextId == s.nextId + 1
  {
  }

  // --- take ---

  function ExpiredIds(s: State, now: nat): set<nat> {
    set id | id in s.leased && s.leased[id].deadline <= now
  }

  function Entries(leased: map<nat, Lease>, ids: seq<nat>): (es: seq<Entry>)
    requires forall id :: id in ids ==> id in leased
    ensures |es| == |ids| && forall i :: 0 <= i < |ids| ==> es[i] == leased[ids[i]].entry
  {
    if ids == [] then [] else [leased[ids[0]].entry] + Entries(leased, ids[1..])
  }

  /** Entries whose lease ran out, oldest id first. */
  function Expired(s: State, now: nat): seq<Entry> {
    AscendingFacts(ExpiredIds(s, now), s.nextId);
    Entries(s.leased, Ascending(ExpiredIds(s, now), s.nextId))
  }

  function ViewAt(cfg: Config, s: State, now: nat): View {
    View(s.index, now, cfg.entryTtl)
  }

  /** What a poll reads from: the reclaimed leases, then the old buffer. */
  function Pool(cfg: Config, s: State, now: nat): seq<Entry> {
    Kept(ViewAt(cfg, s, now), Expired(s, now)) + s.pending
  }

  /** The first `max` live and fresh entries of expired leases ++ buffer. */
  function Batch(cfg: Config, s: State, now: nat, max: nat): seq<Entry> {
    FirstOf(Kept(ViewAt(cfg, s, now), Expired(s, now) + s.pending), max)
  }

  function Lent(leased: map<nat, Lease>, deadline: nat, es: seq<Entry>): map<nat, Lease> {
    if es == [] then leased
    else
      var e := es[|es| - 1];
      Lent(leased, deadline, es[..|es| - 1])[e.id := Lease(deadline, e)]
  }

  function Take(cfg: Config, s: State, now: nat, max: nat): State {
    var v := ViewAt(cfg, s, now);
    var pool := Pool(cfg, s, now);
    var pending := pool[Scan(v, max, pool)..];
    var leased := Lent(s.leased - ExpiredIds(s, now), now + cfg.lease, Batch(cfg, s, now, max));
    State(s.nextId, pending, Retain(s.index, Ids(pending) + leased.Keys), leased)
  }

  // --- ack ---

  function Ack(s: State, ids: set<nat>): State {
    var leased := s.leased - ids;
    State(s.nextId, s.pending, Retain(s.index, Ids(s.pending) + leased.Keys), leased)
  }

  // --- facts about the pieces ---

  lemma {:induction false} KeptAppend(v: View, a: seq<Entry>, b: seq<Entry>)
    ensures Kept(v, a + b) == Kept(v, a) + Kept(v, b)
  {
    if a == [] {
      assert a + b == b && [] + Kept(v, b) == Kept(v, b);
    } else {
      KeptAppend(v, a[1..], b);
      assert (a + b)[1..] == a[1..] + b && (a + b)[0] == a[0];
      assert [a[0]] + (Kept(v, a[1..]) + Kept(v, b)) == ([a[0]] + Kept(v, a[1..])) + Kept(v, b);
    }
  }

  lemma {:induction false} KeptMembers(v: View, es: seq<Entry>)
    ensures forall e :: e in Kept(v, es) <==> e in es && v.Keeps(e)
    ensures (forall e :: e in es ==> v.Keeps(e)) ==> Kept(v, es) == es
  {
    if es != [] {
      KeptMembers(v, es[1..]);
      assert es == [es[0]] + es[1..];
      assert forall e :: e in es <==> e == es[0] || e in es[1..];
    }
  }

  lemma KeptIdempotent(v: View, es: seq<Entry>)
    ensures Kept(v, Kept(v, es)) == Kept(v, es)
  {
    KeptMembers(v, es);
    KeptMembers(v, Kept(v, es));
  }

  lemma {:induction false} KeptDistinct(v: View, es: seq<Entry>)
    requires Distinct(es)
    ensures Distinct(Kept(v, es))
  {
    if es != [] {
      KeptDistinct(v, es[1..]);
      KeptMembers(v, es[1..]);
      var rest := Kept(v, es[1..]);
      forall j | 0 <= j < |rest| ensures rest[j].id != es[0].id {
        assert rest[j] in es[1..];
      }
    }
  }

  lemma KeptStep(v: View, es: seq<Entry>, n: nat)
    requires 0 < n <= |es|
    ensures var rest := Kept(v, es[1..][..n - 1]);
      Kept(v, es[..n]) == if v.Keeps(es[0]) then [es[0]] + rest else rest
    ensures es[n..] == es[1..][n - 1..]
  {
    assert es[..n][1..] == es[1..][..n - 1];
  }

  lemma FrontStep(e: Entry, all: seq<Entry>, max: nat)
    requires max > 0
    ensures FirstOf([e] + all, max) == [e] + FirstOf(all, max - 1)
    ensures ([e] + all)[Min(max, 1 + |all|)..] == all[Min(max - 1, |all|)..]
  {
  }

  /** What was read is exactly the batch; the unread suffix holds the rest. */
  lemma {:induction false} ScanSplits(v: View, max: nat, es: seq<Entry>)
    ensures var n, all := Scan(v, max, es), Kept(v, es);
      && Kept(v, es[..n]) == FirstOf(all, max)
      && Kept(v, es[n..]) == all[Min(max, |all|)..]
      && (n == |es| || |Kept(v, es[..n])| == max)
  {
    if max == 0 || es == [] {
      assert es[..0] == [] && es[0..] == es;
    } else {
      hide FirstOf;
      ScanSplits(v, if v.Keeps(es[0]) then max - 1 else max, es[1..]);
      KeptStep(v, es, Scan(v, max, es));
      FrontStep(es[0], Kept(v, es[1..]), max);
    }
  }

  /** Reading stops at the entry that fills the batch: nothing behind it is touched. */
  lemma {:induction false} ScanStopsAtLast(v: View, max: nat, es: seq<Entry>)
    ensures var n := Scan(v, max, es);
      n > 0 && |Kept(v, es[..n])| == max ==> v.Keeps(es[n - 1])
  {
    if max > 0 && es != [] {
      var n := Scan(v, max, es);
      ScanStopsAtLast(v, if v.Keeps(es[0]) then max - 1 else max, es[1..]);
      KeptStep(v, es, n);
    }
  }

  lemma LastIsNew(es: seq<Entry>)
    requires Distinct(es) && es != []
    ensures var n := |es| - 1;
      Distinct(es[..n]) && es[n].id !in Ids(es[..n]) && Ids(es) == Ids(es[..n]) + {es[n].id}
  {
    var n := |es| - 1;
    forall e | e in es[..n] ensures e.id != es[n].id {
      var i :| 0 <= i < n && es[i] == e;
    }
    assert es == es[..n] + [es[n]];
    assert forall e :: e in es <==> e in es[..n] || e == es[n];
  }

  lemma {:induction false} LentFacts(leased: map<nat, Lease>, deadline: nat, es: seq<Entry>)
    requires Distinct(es)
    ensures var l := Lent(leased, deadline, es);
      && l.Keys == leased.Keys + Ids(es)
      && (forall e :: e in es ==> l[e.id] == Lease(deadline, e))
      && (forall id :: id in leased && id !in Ids(es) ==> l[id] == leased[id])
  {
    hide Distinct;
    if es != [] {
      var n := |es| - 1;
      LastIsNew(es);
      LentFacts(leased, deadline, es[..n]);
      assert forall e :: e in es ==> e in es[..n] || e == es[n];
    }
  }

  lemma IdsAppend(a: seq<Entry>, b: seq<Entry>)
    ensures Ids(a + b) == Ids(a) + Ids(b)
  {
    assert forall e :: e in a + b <==> e in a || e in b;
  }

  /** Cutting a duplicate-free buffer separates its ids. */
  lemma CutDistinct(es: seq<Entry>, n: nat)
    requires Distinct(es) && n <= |es|
    ensures Distinct(es[..n]) && Distinct(es[n..])
    ensures Ids(es[..n]) !! Ids(es[n..]) && Ids(es) == Ids(es[..n]) + Ids(es[n..])
  {
    forall e, f | e in es[..n] && f in es[n..] ensures e.id != f.id {
      var i :| 0 <= i < n && es[i] == e;
      var j :| n <= j < |es| && es[j] == f;
    }
    assert es == es[..n] + es[n..];
    IdsAppend(es[..n], es[n..]);
  }

  lemma KeptIds(v: View, es: seq<Entry>)
    ensures Ids(Kept(v, es)) <= Ids(es)
  {
    KeptMembers(v, es);
  }

  /** One read cuts its pool in two: what was read and lent, and the exact unread suffix. */
  ghost predicate Cuts(v: View, pool: seq<Entry>, base: map<nat, Lease>, deadline: nat, max: nat,
                       batch: seq<Entry>, pending: seq<Entry>, leased: map<nat, Lease>)
  {
    var n := Scan(v, max, pool);
    && batch == Kept(v, pool[..n]) && pending == pool[n..]
    && Distinct(batch) && Ids(batch) <= Ids(pool[..n])
    && leased.Keys == base.Keys + Ids(batch)
    && (forall e :: e in batch ==> leased[e.id] == Lease(deadline, e))
    && (forall id :: id in base ==> leased[id] == base[id])
  }

  lemma ReadCuts(v: View, pool: seq<Entry>, base: map<nat, Lease>, deadline: nat, max: nat, batch: seq<Entry>)
    requires Distinct(pool) && Ids(pool) !! base.Keys
    requires batch == FirstOf(Kept(v, pool), max)
    ensures Cuts(v, pool, base, deadline, max, batch, pool[Scan(v, max, pool)..], Lent(base, deadline, batch))
  {
    var n := Scan(v, max, pool);
    assert batch == Kept(v, pool[..n]) by {
      ScanSplits(v, max, pool);
    }
    assert Distinct(batch) && Ids(batch) <= Ids(pool[..n]) by {
      CutDistinct(pool, n);
      KeptIds(v, pool[..n]);
      KeptDistinct(v, pool[..n]);
    }
    assert Ids(batch) !! base.Keys by {
      CutDistinct(pool, n);
    }
    LentFacts(base, deadline, batch);
  }

  ghost predicate TakeCuts(cfg: Config, s: State, now: nat, max: nat, s': State) {
    Cuts(ViewAt(cfg, s, now), Pool(cfg, s, now), s.leased - ExpiredIds(s, now), now + cfg.lease, max,
         Batch(cfg, s, now, max), s'.pending, s'.leased)
  }

  lemma PoolIsCut(cfg: Config, s: State, now: nat, max: nat)
    requires Distinct(Pool(cfg, s, now))
    requires Ids(Pool(cfg, s, now)) !! (s.leased - ExpiredIds(s, now)).Keys
    requires Kept(ViewAt(cfg, s, now), Pool(cfg, s, now)) == Kept(ViewAt(cfg, s, now), Expired(s, now) + s.pending)
    ensures TakeCuts(cfg, s, now, max, Take(cfg, s, now, max))
  {
    hide Kept, Expired, Scan, Lent, Ids, Cuts;
    ReadCuts(ViewAt(cfg, s, now), Pool(cfg, s, now), s.leased - ExpiredIds(s, now), now + cfg.lease, max,
             Batch(cfg, s, now, max));
  }
}
