/** The queue as it is built: one object whose deque, lease table and badge index
    are updated in place, each method under one lock. Every method is shown to do
    what QueueSpec says, so every theorem about runs holds of the object. */
module NotificationQueue {
  import opened Prelude
  import opened Api
  import opened QueueSpec
  import opened QueueRuns

  class NotificationQueue {
    const cfg: Config
    var nextId: nat
    var pending: seq<Entry>
    var countIndex: map<Device, nat>
    var leased: map<nat, Lease>
    /** The operations this object has been through. */
    ghost var ops: seq<Op>

    ghost function State(): State
      reads this
    {
      QueueSpec.State(nextId, pending, countIndex, leased)
    }

    ghost predicate Valid()
      reads this
    {
      State() == After(cfg, ops)
    }

    constructor (cfg: Config)
      ensures Valid() && this.cfg == cfg && ops == []
    {
      this.cfg := cfg;
      nextId, pending, countIndex, leased := 0, [], map[], map[];
      ops := [];
    }

    /** Whether the entry is still worth handing out, by the index as it is now. */
    predicate IsLive(e: Entry)
      reads this
    {
      QueueSpec.IsLive(countIndex, e)
    }

    /** Afterwards no badge is indexed under `e`'s id for its device; every mapping to
        another entry is kept, so the liveness of no other entry changes. */
    method ForgetCountKey(e: Entry)
      modifies this`countIndex
      ensures countIndex == Forget(old(countIndex), e) && !Owns(countIndex, e)
      ensures forall k :: k in countIndex ==> k in old(countIndex) && countIndex[k] == old(countIndex)[k]
      ensures forall k :: k in old(countIndex) && old(countIndex)[k] != e.id ==> k in countIndex
      ensures forall f: Entry :: f.id != e.id ==> (QueueSpec.IsLive(countIndex, f) <==> old(IsLive(f)))
    {
      if e.countKey.Some? && e.countKey.value in countIndex && countIndex[e.countKey.value] == e.id {
        countIndex := countIndex - {e.countKey.value};
      }
    }

    method EnqueueAt(now: nat, payload: Value, countKey: Option<Device>)
      requires Valid()
      modifies this
      ensures Valid() && ops == old(ops) + [Arrive(now, payload, countKey)]
      ensures State() == Enqueue(cfg, old(State()), now, payload, countKey)
      ensures |pending| == Min(|old(pending)| + 1, if cfg.maxEntries == 0 then 1 else cfg.maxEntries)
      ensures pending ==
        old(pending)[|old(pending)| + 1 - |pending|..] + [Entry(old(nextId), now, payload, countKey)]
    {
      hide After, Newest, Retain, Inv, Log, Enqueue, Ids, Forget, OwnKeyOnly;
      ghost var s := State();
      RunInv(cfg, ops);
      var id := nextId;
      nextId := nextId + 1;
      if countKey.Some? {
        countIndex := countIndex[countKey.value := id];
      }
      ghost var index, n := countIndex, 0;
      IndexAfterArrival(s, Log(ops), id, countKey, index);
      while |pending| >= cfg.maxEntries
        invariant n <= |s.pending| && pending == s.pending[n..]
        invariant n <= Overflow(cfg, s)
        invariant countIndex == Retain(index, Ids(pending) + {id} + leased.Keys)
        invariant leased == s.leased && nextId == id + 1 && ops == old(ops)
        decreases |pending|
      {
        if pending == [] {
          break;
        }
        var dropped := pending[0];
        EvictOne(s, Log(ops), id, index, n);
        pending := pending[1..];
        n := n + 1;
        ForgetIsLocal(index, Ids(pending) + {id} + leased.Keys, dropped);
        if IsLive(dropped) {
          ForgetCountKey(dropped);
        }
      }
      assert n == Overflow(cfg, s);
      pending := pending + [Entry(id, now, payload, countKey)];
      ops := ops + [Arrive(now, payload, countKey)];
      EnqueueEnds(cfg, s, now, payload, countKey);
      AfterOp(cfg, old(ops), Arrive(now, payload, countKey));
      EnqueueKeepsNewest(cfg, s, now, payload, countKey);
    }

    /** The ids whose lease is over, largest first; hash-table order is arbitrary. */
    method ExpiredDescending(now: nat) returns (expired: seq<nat>)
      ensures forall i, j :: 0 <= i < j < |expired| ==> expired[i] > expired[j]
      ensures forall id :: id in expired <==> id in ExpiredIds(State(), now)
    {
      expired := [];
      var rest := set id | id in leased && leased[id].deadline <= now;
      while rest != {}
        invariant forall i, j :: 0 <= i < j < |expired| ==> expired[i] > expired[j]
        invariant forall id :: id in expired ==> id !in rest
        invariant forall id :: id in ExpiredIds(State(), now) <==> id in rest || id in expired
        decreases rest
      {
        var id :| id in rest;
        var i := 0;
        while i < |expired| && expired[i] > id
          invariant i <= |expired| && forall k :: 0 <= k < i ==> expired[k] > id
        {
          i := i + 1;
        }
        rest := rest - {id};
        expired := expired[..i] + [id] + expired[i..];
      }
    }

    /** An entry whose lease ran out goes back to the front, unless it is stale. */
    method Requeue(e: Entry, now: nat)
      modifies this`pending, this`countIndex
      ensures var v := View(old(countIndex), now, cfg.entryTtl);
        && pending == (if v.Keeps(e) then [e] else []) + old(pending)
        && countIndex == if v.Keeps(e) then old(countIndex) else Forget(old(countIndex), e)
    {
      assert [] + pending == pending;
      if !IsLive(e) {
        return;
      }
      if Since(now, e.enqueued) >= cfg.entryTtl {
        ForgetCountKey(e);
        return;
      }
      pending := [e] + pending;
    }

    /** First half of a poll: reclaims the expired leases. */
    method Reclaim(now: nat)
      requires Valid()
      modifies this`pending, this`countIndex, this`leased
      ensures pending == Pool(cfg, old(State()), now)
      ensures leased == old(leased) - ExpiredIds(old(State()), now)
      ensures countIndex == Retain(old(countIndex), Ids(pending) + leased.Keys)
    {
      hide After, Kept, Expired, Retain, Ids, Forget, Newest;
      ghost var s, log := State(), Log(ops);
      RunInv(cfg, ops);
      var expired := ExpiredDescending(now);
      ghost var all, v := Expired(s, now), ViewAt(cfg, s, now);
      ListedBackwards(s, log, now, expired);
      NothingReclaimed(v, all, pending);
      IndexIsExact(s, log);
      var i := 0;
      while i < |expired|
        invariant i <= |expired|
        invariant leased == s.leased - IdSet(expired[..i])
        invariant pending == Kept(v, all[|expired| - i..]) + s.pending
        invariant countIndex == Retain(s.index, Ids(pending) + leased.Keys)
      {
        var id := expired[i];
        assert id in expired && id in ExpiredIds(s, now) && id !in expired[..i];
        var e := leased[id].entry;
        ghost var keys := leased.Keys - {id};
        ReclaimStep(cfg, s, log, now, |expired| - i - 1, pending, keys);
        assert leased.Keys == keys + {id};
        leased := leased - {id};
        Requeue(e, now);
        i := i + 1;
      }
      assert all[0..] == all && expired[..i] == expired;
    }

    /** One look at the queue, with no waiting: both loops together are `Take`. */
    method TakeAt(now: nat, max: nat) returns (batch: seq<PollEntry>)
      requires Valid()
      modifies this
      ensures Valid() && ops == old(ops) + [Poll(now, max)]
      ensures State() == Take(cfg, old(State()), now, max)
      ensures batch == Wire(Batch(cfg, old(State()), now, max))
    {
      hide After, Kept, Expired, Retain, Ids, Newest, Scan, Lent, Take, Pool;
      ghost var s, log := State(), Log(ops);
      RunInv(cfg, ops);
      Reclaim(now);
      ghost var v, pool, base := ViewAt(cfg, s, now), Pool(cfg, s, now), leased;
      ghost var out, n := [], 0;
      batch := [];
      TakeStarts(v, max, pool, base, now + cfg.lease);
      while |batch| < max
        invariant n <= |pool| && pending == pool[n..]
        invariant out == Kept(v, pool[..n]) && |out| <= max && batch == Wire(out)
        invariant Scan(v, max, pool) == n + Scan(v, max - |out|, pool[n..])
        invariant leased == Lent(base, now + cfg.lease, out)
        invariant countIndex == Retain(s.index, Ids(pending) + leased.Keys)
        invariant nextId == s.nextId && ops == old(ops)
        decreases |pending|
      {
        if pending == [] {
          break;
        }
        var e := pending[0];
        TakeStep(cfg, s, log, now, max, n, out, now + cfg.lease);
        pending := pending[1..];
        n := n + 1;
        if !IsLive(e) {
          continue;
        }
        if Since(now, e.enqueued) >= cfg.entryTtl {
          ForgetCountKey(e);
          continue;
        }
        batch := batch + [PollEntry(e.id, e.payload)];
        LentAppend(base, now + cfg.lease, out, e);
        out := out + [e];
        assert leased[e.id := Lease(now + cfg.lease, e)].Keys == leased.Keys + {e.id};
        leased := leased[e.id := Lease(now + cfg.lease, e)];
      }
      TakeEnds(cfg, s, log, now, max, n, out);
      ops := ops + [Poll(now, max)];
      AfterOp(cfg, old(ops), Poll(now, max));
    }

    /** What is left afterwards depends only on which ids are listed, not on their order
        or number, and ids that are not out on a lease have no effect. */
    method Ack(ids: seq<nat>)
      requires Valid()
      modifies this
      ensures Valid() && ops == old(ops) + [Settle(ids)]
      ensures State() == QueueSpec.Ack(old(State()), IdSet(ids))
      ensures pending == old(pending) && forall id :: id in leased <==> id in old(leased) && id !in ids
    {
      hide After, Retain, Ids, Newest, Take, Enqueue;
      ghost var s, log := State(), Log(ops);
      RunInv(cfg, ops);
      assert s.leased - IdSet(ids[..0]) == s.leased;
      IndexIsExact(s, log);
      for i := 0 to |ids|
        invariant leased == s.leased - IdSet(ids[..i])
        invariant countIndex == Retain(s.index, Ids(pending) + leased.Keys)
        invariant pending == s.pending && nextId == s.nextId && ops == old(ops)
      {
        var id := ids[i];
        ghost var keys := leased.Keys - {id};
        assert IdSet(ids[..i + 1]) == IdSet(ids[..i]) + {id};
        if id in leased {
          var e := leased[id].entry;
          AckOne(s, log, id, keys);
          assert leased.Keys == keys + {id};
          leased := leased - {id};
          ForgetCountKey(e);
        }
      }
      assert ids[..|ids|] == ids;
      ops := ops + [Settle(ids)];
      AfterOp(cfg, old(ops), Settle(ids));
    }
  }

  /** The entries as a poll response carries them. */
  function Wire(es: seq<Entry>): (ws: seq<PollEntry>)
    ensures |ws| == |es|
    ensures forall i :: 0 <= i < |es| ==> ws[i] == PollEntry(es[i].id, es[i].payload)
  {
    seq(|es|, i requires 0 <= i < |es| => PollEntry(es[i].id, es[i].payload))
  }

  function Forget(index: map<Device, nat>, e: Entry): map<Device, nat> {
    if Owns(index, e) then index - {e.countKey.value} else index
  }

  /** No other device's index entry names this entry. */
  ghost predicate OwnKeyOnly(index: map<Device, nat>, e: Entry) {
    forall k :: k in index && index[k] == e.id ==> e.countKey == Some(k)
  }

  /** Dropping an entry from what is held, and its key if it owns one, keeps the
      index exact and changes no other entry's liveness. */
  lemma ForgetIsLocal(index: map<Device, nat>, rest: set<nat>, e: Entry)
    requires OwnKeyOnly(index, e) && e.id !in rest
    ensures var before := Retain(index, rest + {e.id});
      && Forget(before, e) == Retain(index, rest)
      && (QueueSpec.IsLive(before, e) <==> QueueSpec.IsLive(index, e))
      && (!QueueSpec.IsLive(index, e) ==> before == Retain(index, rest))
    ensures forall f: Entry :: f.id in rest ==>
      (QueueSpec.IsLive(Retain(index, rest), f) <==> QueueSpec.IsLive(index, f))
  {
  }

  /** Where the eviction loop ends is where the specification does. */
  lemma EnqueueEnds(cfg: Config, s: State, now: nat, payload: Value, key: Option<Device>)
    ensures var rest := s.pending[Overflow(cfg, s)..];
      var index := if key.Some? then s.index[key.value := s.nextId] else s.index;
      Enqueue(cfg, s, now, payload, key) ==
        State(s.nextId + 1, rest + [Entry(s.nextId, now, payload, key)],
              Retain(index, Ids(rest) + {s.nextId} + s.leased.Keys), s.leased)
  {
    var rest, e := s.pending[Overflow(cfg, s)..], Entry(s.nextId, now, payload, key);
    IdsAppend(rest, [e]);
    SingletonIds(e);
  }

  lemma AfterOp(cfg: Config, ops: seq<Op>, op: Op)
    ensures After(cfg, ops + [op]) == Apply(cfg, After(cfg, ops), op)
  {
    assert (ops + [op])[..|ops|] == ops;
  }

  lemma SingletonIds(e: Entry)
    ensures Ids([e]) == {e.id}
  {
    assert e in [e];
  }

  lemma IndexAfterArrival(s: State, log: seq<Entry>, id: nat, key: Option<Device>, index: map<Device, nat>)
    requires Inv(s, log) && id == s.nextId
    requires index == if key.Some? then s.index[key.value := id] else s.index
    ensures index == Retain(index, Ids(s.pending) + {id} + s.leased.Keys)
  {
  }

  lemma EvictOne(s: State, log: seq<Entry>, id: nat, index: map<Device, nat>, n: nat)
    requires Inv(s, log) && id == s.nextId && n < |s.pending|
    requires forall k :: k in index ==> index[k] == id || (k in s.index && s.index[k] == index[k])
    ensures var rest := Ids(s.pending[n + 1..]) + {id} + s.leased.Keys;
      && OwnKeyOnly(index, s.pending[n]) && s.pending[n].id !in rest
      && Ids(s.pending[n..]) + {id} + s.leased.Keys == rest + {s.pending[n].id}
  {
    CutDistinct(s.pending, n);
    CutDistinct(s.pending[n..], 1);
    assert s.pending[n..][1..] == s.pending[n + 1..] && s.pending[n..][..1] == [s.pending[n]];
    SingletonIds(s.pending[n]);
    assert OwnKeyOnly(index, s.pending[n]) by {
      NewestFacts(log);
    }
  }

  lemma IndexIsExact(s: State, log: seq<Entry>)
    requires Inv(s, log)
    ensures s.index == Retain(s.index, Ids(s.pending) + s.leased.Keys)
  {
  }

  lemma NothingReclaimed(v: View, all: seq<Entry>, pending: seq<Entry>)
    ensures Kept(v, all[|all|..]) + pending == pending
  {
  }

  lemma NotInRest(v: View, all: seq<Entry>, n: nat, pending: seq<Entry>)
    requires n < |all| && forall i, j :: 0 <= i < j < |all| ==> all[i].id < all[j].id
    requires all[n].id !in Ids(pending)
    ensures all[n].id !in Ids(Kept(v, all[n + 1..]) + pending)
  {
    KeptMembers(v, all[n + 1..]);
    forall e | e in all[n + 1..] ensures e.id > all[n].id {
      var i :| n < i < |all| && all[i] == e;
    }
  }

  lemma ExpiredSuffix(s: State, log: seq<Entry>, v: View, now: nat, n: nat, pending: seq<Entry>)
    requires Inv(s, log) && n < |Expired(s, now)|
    requires pending == Kept(v, Expired(s, now)[n + 1..]) + s.pending
    ensures var e := Expired(s, now)[n];
      OwnKeyOnly(s.index, e) && e.id !in Ids(pending) && e.id in s.leased && s.leased[e.id].entry == e
  {
    hide Expired, Retain, Newest, Kept, OwnKeyOnly;
    ExpiredListing(s, log, now, n);
    ExpiredFacts(s, log, now);
    IndexNamesOwnKey(s, log, Expired(s, now)[n]);
    NotInRest(v, Expired(s, now), n, s.pending);
  }

  lemma RequeueIndex(index: map<Device, nat>, ids: set<nat>, keys: set<nat>, e: Entry)
    requires OwnKeyOnly(index, e) && e.id !in ids + keys
    ensures var before := Retain(index, ids + (keys + {e.id}));
      && (QueueSpec.IsLive(before, e) <==> QueueSpec.IsLive(index, e))
      && Retain(index, ids + keys) == Forget(before, e)
      && Retain(index, ({e.id} + ids) + keys) == before
  {
    hide Retain, Forget, OwnKeyOnly, QueueSpec.IsLive;
    ForgetIsLocal(index, ids + keys, e);
    assert ids + (keys + {e.id}) == (ids + keys) + {e.id} == ({e.id} + ids) + keys;
  }

  lemma FrontIds(e: Entry, pending: seq<Entry>)
    ensures Ids([e] + pending) == {e.id} + Ids(pending)
  {
    IdsAppend([e], pending);
    SingletonIds(e);
  }

  lemma RequeueBuffer(v: View, all: seq<Entry>, n: nat, buffer: seq<Entry>)
    requires n < |all|
    ensures Kept(v, all[n..]) + buffer ==
      if v.Keeps(all[n]) then [all[n]] + (Kept(v, all[n + 1..]) + buffer) else Kept(v, all[n + 1..]) + buffer
  {
    KeptPrepend(v, all, n);
    assert [all[n]] + (Kept(v, all[n + 1..]) + buffer) == ([all[n]] + Kept(v, all[n + 1..])) + buffer;
  }

  /** One reclaimed lease: judging it by the index as it stands mid-loop agrees
      with judging it by the index the poll started from. */
  lemma ReclaimStep(cfg: Config, s: State, log: seq<Entry>, now: nat, n: nat, pending: seq<Entry>, keys: set<nat>)
    requires Inv(s, log) && n < |Expired(s, now)|
    requires pending == Kept(ViewAt(cfg, s, now), Expired(s, now)[n + 1..]) + s.pending
    requires Expired(s, now)[n].id !in keys
    ensures var v, all, e := ViewAt(cfg, s, now), Expired(s, now), Expired(s, now)[n];
      var index := Retain(s.index, Ids(pending) + (keys + {e.id}));
      var keeps := View(index, now, cfg.entryTtl).Keeps(e);
      var pending' := (if keeps then [e] else []) + pending;
      && e.id in s.leased && s.leased[e.id].entry == e
      && pending' == Kept(v, all[n..]) + s.pending
      && Retain(s.index, Ids(pending') + keys) == if keeps then index else Forget(index, e)
  {
    hide Expired, Kept, Newest, Retain, Ids, Held, Forget, OwnKeyOnly, Inv;
    var e := Expired(s, now)[n];
    ExpiredSuffix(s, log, ViewAt(cfg, s, now), now, n, pending);
    RequeueIndex(s.index, Ids(pending), keys, e);
    RequeueBuffer(ViewAt(cfg, s, now), Expired(s, now), n, s.pending);
    FrontIds(e, pending);
    assert [] + pending == pending;
  }

  lemma Backwards(down: seq<nat>) returns (up: seq<nat>)
    requires forall i, j :: 0 <= i < j < |down| ==> down[i] > down[j]
    ensures |up| == |down| && forall i :: 0 <= i < |down| ==> down[i] == up[|down| - 1 - i]
    ensures Increasing(up)
    ensures forall x :: x in up <==> x in down
  {
    var n := |down|;
    up := seq(n, i requires 0 <= i < n => down[n - 1 - i]);
    forall x | x in down ensures x in up {
      var i :| 0 <= i < n && down[i] == x;
      assert up[n - 1 - i] == x;
    }
  }

  lemma ExpiredLength(s: State, now: nat)
    ensures |Expired(s, now)| == |Ascending(ExpiredIds(s, now), s.nextId)|
  {
  }

  lemma ListedBackwards(s: State, log: seq<Entry>, now: nat, expired: seq<nat>)
    requires Inv(s, log)
    requires forall i, j :: 0 <= i < j < |expired| ==> expired[i] > expired[j]
    requires forall id :: id in expired <==> id in ExpiredIds(s, now)
    ensures |expired| == |Expired(s, now)|
    ensures forall i :: 0 <= i < |expired| ==> expired[i] == Expired(s, now)[|expired| - 1 - i].id
    ensures IdSet(expired) == ExpiredIds(s, now)
  {
    hide Expired, Newest, Retain, Ascending, Increasing;
    var up := Backwards(expired);
    AscendingFacts(ExpiredIds(s, now), s.nextId);
    ExpiredLength(s, now);
    assert forall id :: id in ExpiredIds(s, now) ==> id < s.nextId;
    ListingIsUnique(up, Ascending(ExpiredIds(s, now), s.nextId));
    forall i: nat | i < |Expired(s, now)| ensures Expired(s, now)[i].id == up[i] {
      ExpiredListing(s, log, now, i);
    }
  }

  lemma KeptPrepend(v: View, es: seq<Entry>, n: nat)
    requires n < |es|
    ensures Kept(v, es[n..]) == (if v.Keeps(es[n]) then [es[n]] else []) + Kept(v, es[n + 1..])
  {
    assert es[n..][1..] == es[n + 1..];
    assert [] + Kept(v, es[n + 1..]) == Kept(v, es[n + 1..]);
  }

  lemma TakeStarts(v: View, max: nat, pool: seq<Entry>, base: map<nat, Lease>, deadline: nat)
    ensures Kept(v, pool[..0]) == [] && pool[0..] == pool && Lent(base, deadline, []) == base
  {
  }

  lemma ReadOne(v: View, pool: seq<Entry>, n: nat, max: nat, out: seq<Entry>)
    requires n < |pool| && |out| < max && out == Kept(v, pool[..n])
    ensures var got := if v.Keeps(pool[n]) then [pool[n]] else [];
      && Kept(v, pool[..n + 1]) == out + got
      && Scan(v, max - |out|, pool[n..]) == 1 + Scan(v, max - |out + got|, pool[n + 1..])
  {
    assert pool[..n + 1] == pool[..n] + [pool[n]];
    KeptAppend(v, pool[..n], [pool[n]]);
    assert pool[n..][1..] == pool[n + 1..];
  }

  lemma ReadIds(v: View, pool: seq<Entry>, base: map<nat, Lease>, deadline: nat, n: nat, out: seq<Entry>)
    requires Distinct(pool) && Ids(pool) !! base.Keys
    requires n < |pool| && out == Kept(v, pool[..n])
    ensures pool[n].id !in Ids(pool[n + 1..]) + Lent(base, deadline, out).Keys
    ensures Ids(pool[n..]) == Ids(pool[n + 1..]) + {pool[n].id}
  {
    CutDistinct(pool, n);
    CutDistinct(pool[n..], 1);
    assert pool[n..][1..] == pool[n + 1..] && pool[n..][..1] == [pool[n]];
    SingletonIds(pool[n]);
    KeptIds(v, pool[..n]);
    KeptDistinct(v, pool[..n]);
    LentFacts(base, deadline, out);
  }

  lemma LentAppend(base: map<nat, Lease>, deadline: nat, out: seq<Entry>, e: Entry)
    ensures Lent(base, deadline, out + [e]) == Lent(base, deadline, out)[e.id := Lease(deadline, e)]
  {
    assert (out + [e])[..|out|] == out;
  }

  lemma IndexNamesOwnKey(s: State, log: seq<Entry>, e: Entry)
    requires Inv(s, log) && e.id < |log| && log[e.id] == e
    ensures OwnKeyOnly(s.index, e)
  {
    NewestFacts(log);
  }

  /** Reading one entry of the pool, judged by the index as it stands mid-loop. */
  lemma TakeStep(cfg: Config, s: State, log: seq<Entry>, now: nat, max: nat, n: nat, out: seq<Entry>, deadline: nat)
    requires Inv(s, log) && n < |Pool(cfg, s, now)| && |out| < max
    requires out == Kept(ViewAt(cfg, s, now), Pool(cfg, s, now)[..n])
    ensures var v, pool, base := ViewAt(cfg, s, now), Pool(cfg, s, now), s.leased - ExpiredIds(s, now);
      var e := pool[n];
      var keys := Lent(base, deadline, out).Keys;
      var index := Retain(s.index, Ids(pool[n..]) + keys);
      var keeps := View(index, now, cfg.entryTtl).Keeps(e);
      var got := if keeps then [e] else [];
      && Kept(v, pool[..n + 1]) == out + got
      && Scan(v, max - |out|, pool[n..]) == 1 + Scan(v, max - |out + got|, pool[n + 1..])
      && Retain(s.index, Ids(pool[n + 1..]) + (if keeps then keys + {e.id} else keys))
         == (if keeps then index else Forget(index, e))
  {
    hide Newest, Forget, Pool, Retain, Kept, Scan, Lent, Ids;
    var v, pool, base, e := ViewAt(cfg, s, now), Pool(cfg, s, now), s.leased - ExpiredIds(s, now), Pool(cfg, s, now)[n];
    var keys, rest := Lent(base, deadline, out).Keys, Ids(pool[n + 1..]) + Lent(base, deadline, out).Keys;
    ReadOne(v, pool, n, max, out);
    PoolFacts(cfg, s, log, now);
    ReadIds(v, pool, base, deadline, n, out);
    assert e in pool;
    IndexNamesOwnKey(s, log, e);
    ForgetIsLocal(s.index, rest, e);
    assert Ids(pool[n..]) + keys == rest + {e.id} == Ids(pool[n + 1..]) + (keys + {e.id});
  }

  /** When the loop stops, it stops exactly where the specification says. */
  lemma TakeEnds(cfg: Config, s: State, log: seq<Entry>, now: nat, max: nat, n: nat, out: seq<Entry>)
    requires Inv(s, log) && n <= |Pool(cfg, s, now)| && |out| <= max
    requires out == Kept(ViewAt(cfg, s, now), Pool(cfg, s, now)[..n])
    requires var v, pool := ViewAt(cfg, s, now), Pool(cfg, s, now);
      Scan(v, max, pool) == n + Scan(v, max - |out|, pool[n..])
    requires |out| == max || n == |Pool(cfg, s, now)|
    ensures out == Batch(cfg, s, now, max)
    ensures var pending, leased := Pool(cfg, s, now)[n..], Lent(s.leased - ExpiredIds(s, now), now + cfg.lease, out);
      Take(cfg, s, now, max) == State(s.nextId, pending, Retain(s.index, Ids(pending) + leased.Keys), leased)
  {
    hide Newest, Pool, Retain, Kept, Lent, Ids;
    TakeFacts(cfg, s, log, now, max);
    assert n == Scan(ViewAt(cfg, s, now), max, Pool(cfg, s, now));
  }

  lemma AckOne(s: State, log: seq<Entry>, id: nat, keys: set<nat>)
    requires Inv(s, log) && id in s.leased && id !in keys
    ensures var e, rest := s.leased[id].entry, Ids(s.pending) + keys;
      && e.id == id
      && Ids(s.pending) + (keys + {id}) == rest + {id}
      && Forget(Retain(s.index, rest + {id}), e) == Retain(s.index, rest)
  {
    hide Newest, Retain, Forget;
    var e := s.leased[id].entry;
    IndexNamesOwnKey(s, log, e);
    ForgetIsLocal(s.index, Ids(s.pending) + keys, e);
  }
}
