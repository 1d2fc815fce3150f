/** Draining a backlog, and the guarantee that a held entry is handed out again. */
module QueueDrain {
  import opened Prelude
  import opened QueueSpec
  import opened QueueRuns
  import QueueLedger

  // --- drain ---

  /** One poll of a drain: when, and for how many entries. */
  datatype Fetch = Fetch(now: nat, max: nat)

  /** The run `ops`, continued by the polls of a drain. */
  function Drained(ops: seq<Op>, fetches: seq<Fetch>): seq<Op>
    decreases |fetches|
  {
    if fetches == [] then ops
    else Drained(ops + [Poll(fetches[0].now, fetches[0].max)], fetches[1..])
  }

  /** The concatenated batches of successive polls, by however many pollers. */
  function Fetched(cfg: Config, ops: seq<Op>, fetches: seq<Fetch>): seq<Entry>
    decreases |fetches|
  {
    if fetches == [] then []
    else
      var f := fetches[0];
      Batch(cfg, After(cfg, ops), f.now, f.max) + Fetched(cfg, ops + [Poll(f.now, f.max)], fetches[1..])
  }

  function Room(fetches: seq<Fetch>): nat {
    if fetches == [] then 0 else fetches[0].max + Room(fetches[1..])
  }

  /** The live and fresh entries of the buffer, in buffer order. */
  function Backlog(cfg: Config, ops: seq<Op>, end: nat): seq<Entry> {
    Kept(ViewAt(cfg, After(cfg, ops), end), After(cfg, ops).pending)
  }

  /** Until `end` no lease runs out and no live pending entry gets stale. */
  ghost predicate Quiet(cfg: Config, s: State, end: nat) {
    && (forall id :: id in s.leased ==> s.leased[id].deadline > end)
    && (forall e :: e in s.pending && IsLive(s.index, e) ==> Since(end, e.enqueued) < cfg.entryTtl)
  }

  ghost predicate Within(cfg: Config, fetches: seq<Fetch>, end: nat) {
    forall f :: f in fetches ==> f.now <= end < f.now + cfg.lease
  }

  lemma {:induction false} KeptAgrees(v: View, w: View, es: seq<Entry>)
    requires forall e :: e in es ==> (v.Keeps(e) <==> w.Keeps(e))
    ensures Kept(v, es) == Kept(w, es)
  {
    if es != [] {
      assert es[0] in es;
      KeptAgrees(v, w, es[1..]);
    }
  }

  lemma QuietExpiresNothing(s: State, log: seq<Entry>, now: nat)
    requires Inv(s, log) && forall id :: id in s.leased ==> s.leased[id].deadline > now
    ensures Expired(s, now) == [] && s.leased - ExpiredIds(s, now) == s.leased
  {
    assert ExpiredIds(s, now) == {};
    AscendingFacts({}, s.nextId);
    ListingIsUnique([], Ascending({}, s.nextId));
  }

  /** One poll of a quiet queue takes the front of the backlog and leaves the rest. */
  lemma QuietFetch(cfg: Config, ops: seq<Op>, now: nat, max: nat, end: nat)
    requires Quiet(cfg, After(cfg, ops), end) && now <= end
    ensures Batch(cfg, After(cfg, ops), now, max) == FirstOf(Backlog(cfg, ops, end), max)
    ensures var s, all := After(cfg, ops), Backlog(cfg, ops, end);
      && Kept(ViewAt(cfg, s, end), Take(cfg, s, now, max).pending) == all[Min(max, |all|)..]
      && (forall e :: e in Take(cfg, s, now, max).pending ==> e in s.pending)
  {
    var s := After(cfg, ops);
    var v, w, n := ViewAt(cfg, s, now), ViewAt(cfg, s, end), Scan(ViewAt(cfg, s, now), max, s.pending);
    assert Expired(s, now) == [] by {
      RunInv(cfg, ops);
      QuietExpiresNothing(s, Log(ops), now);
    }
    assert [] + s.pending == s.pending;
    assert Pool(cfg, s, now) == s.pending;
    KeptAgrees(v, w, s.pending);
    ScanSplits(v, max, s.pending);
    KeptAgrees(v, w, s.pending[n..]);
  }

  lemma QuietStays(cfg: Config, ops: seq<Op>, now: nat, max: nat, end: nat)
    requires Quiet(cfg, After(cfg, ops), end) && now <= end < now + cfg.lease
    ensures var ops', all := ops + [Poll(now, max)], Backlog(cfg, ops, end);
      Quiet(cfg, After(cfg, ops'), end) && Backlog(cfg, ops', end) == all[Min(max, |all|)..]
  {
    hide Expired, Newest, Scan;
    assert (ops + [Poll(now, max)])[..|ops|] == ops;
    var s := After(cfg, ops);
    var s' := Take(cfg, s, now, max);
    QuietFetch(cfg, ops, now, max, end);
    forall e | e in s'.pending ensures IsLive(s'.index, e) <==> IsLive(s.index, e) {
      assert e.id in Ids(s'.pending);
    }
    KeptAgrees(ViewAt(cfg, s, end), ViewAt(cfg, s', end), s'.pending);
    assert forall id :: id in s'.leased ==> s'.leased[id].deadline > end by {
      RunInv(cfg, ops);
      QuietExpiresNothing(s, Log(ops), now);
      TakeFacts(cfg, s, Log(ops), now, max);
    }
  }

  /** Successive polls of a quiet queue read off its backlog, in order, without
      gap or repetition, whatever number each of them asks for. */
  lemma {:induction false} Drain(cfg: Config, ops: seq<Op>, fetches: seq<Fetch>, end: nat)
    requires Quiet(cfg, After(cfg, ops), end) && Within(cfg, fetches, end)
    ensures Fetched(cfg, ops, fetches) == FirstOf(Backlog(cfg, ops, end), Room(fetches))
    ensures var all := Backlog(cfg, ops, end);
      Backlog(cfg, Drained(ops, fetches), end) == all[Min(Room(fetches), |all|)..]
    decreases |fetches|
  {
    hide After, Backlog, Batch, Quiet;
    if fetches != [] {
      var f := fetches[0];
      assert f in fetches;
      QuietFetch(cfg, ops, f.now, f.max, end);
      QuietStays(cfg, ops, f.now, f.max, end);
      Drain(cfg, ops + [Poll(f.now, f.max)], fetches[1..], end);
      SplitFront(Backlog(cfg, ops, end), f.max, Room(fetches[1..]));
    }
  }

  lemma SplitFront(all: seq<Entry>, a: nat, b: nat)
    ensures var rest := all[Min(a, |all|)..];
      && FirstOf(all, a + b) == FirstOf(all, a) + FirstOf(rest, b)
      && all[Min(a + b, |all|)..] == rest[Min(b, |rest|)..]
  {
  }

  /** So no two polls of a drain ever share an entry. */
  lemma DrainIsDisjoint(cfg: Config, ops: seq<Op>, fetches: seq<Fetch>, end: nat)
    requires Quiet(cfg, After(cfg, ops), end) && Within(cfg, fetches, end)
    ensures Distinct(Fetched(cfg, ops, fetches))
  {
    Drain(cfg, ops, fetches, end);
    RunInv(cfg, ops);
    KeptDistinct(ViewAt(cfg, After(cfg, ops), end), After(cfg, ops).pending);
  }

  /** ceil(N / max) polls of `max` fetch the whole backlog of N entries. */
  lemma DrainInCeiling(cfg: Config, ops: seq<Op>, fetches: seq<Fetch>, max: nat, end: nat)
    requires Quiet(cfg, After(cfg, ops), end) && Within(cfg, fetches, end)
    requires max > 0 && forall f :: f in fetches ==> f.max == max
    requires |fetches| == (|Backlog(cfg, ops, end)| + max - 1) / max
    ensures Fetched(cfg, ops, fetches) == Backlog(cfg, ops, end)
    ensures Backlog(cfg, Drained(ops, fetches), end) == []
  {
    hide After, Fetched, Drained;
    Drain(cfg, ops, fetches, end);
    RoomOf(fetches, max);
    CeilingCovers(|Backlog(cfg, ops, end)|, max, |fetches|);
  }

  lemma {:induction false} RoomOf(fetches: seq<Fetch>, max: nat)
    requires forall f :: f in fetches ==> f.max == max
    ensures Room(fetches) == |fetches| * max
  {
    if fetches != [] {
      assert fetches[0] in fetches;
      RoomOf(fetches[1..], max);
      assert |fetches| * max == (|fetches| - 1) * max + max;
    }
  }

  lemma CeilingCovers(n: nat, max: nat, m: nat)
    requires max > 0 && m == (n + max - 1) / max
    ensures m * max >= n
  {
  }

  // --- when exactly an entry is handed out ---

  /** Kept entries stand in the kept sequence behind exactly the kept ones before them. */
  lemma KeptPosition(v: View, es: seq<Entry>, p: nat)
    requires p < |es| && v.Keeps(es[p])
    ensures var k := |Kept(v, es[..p])|; k < |Kept(v, es)| && Kept(v, es)[k] == es[p]
  {
    KeptAppend(v, es[..p], es[p..]);
    assert es == es[..p] + es[p..];
    assert es[p..][0] == es[p];
  }

  lemma FirstOfExactly(v: View, es: seq<Entry>, p: nat, max: nat)
    requires Distinct(es) && p < |es| && v.Keeps(es[p])
    ensures es[p] in FirstOf(Kept(v, es), max) <==> |Kept(v, es[..p])| < max
  {
    var all, k := Kept(v, es), |Kept(v, es[..p])|;
    KeptPosition(v, es, p);
    KeptDistinct(v, es);
    if k < max {
      assert FirstOf(all, max)[k] == es[p];
    }
    if es[p] in FirstOf(all, max) {
      var i :| 0 <= i < |FirstOf(all, max)| && FirstOf(all, max)[i] == es[p];
      assert all[i] == all[k];
    }
  }

  /** A held event entry, or newest badge, younger than the TTL and not under a running
      lease has a place in the poll's pool, and it is handed out iff fewer than `max`
      deliverable entries stand before that place. */
  lemma HeldIsHandedOut(cfg: Config, ops: seq<Op>, now: nat, id: nat) returns (p: nat)
    requires id in Held(After(cfg, ops)) && id < |Log(ops)|
    requires Log(ops)[id].countKey.None? || IsNewest(Log(ops), id)
    requires Since(now, Log(ops)[id].enqueued) < cfg.entryTtl
    requires id in After(cfg, ops).leased ==> After(cfg, ops).leased[id].deadline <= now
    ensures var s := After(cfg, ops); var pool, v := Pool(cfg, s, now), ViewAt(cfg, s, now);
      && p < |pool| && pool[p] == Log(ops)[id]
      && forall max: nat :: pool[p] in Batch(cfg, s, now, max) <==> |Kept(v, pool[..p])| < max
  {
    var s, log := After(cfg, ops), Log(ops);
    assert ViewAt(cfg, s, now).Keeps(log[id]) by {
      QueueLedger.LiveIffNewest(cfg, ops, id);
    }
    RunInv(cfg, ops);
    QueueLedger.KeptIsRead(cfg, s, log, now, id);
    PoolFacts(cfg, s, log, now);
    p :| 0 <= p < |Pool(cfg, s, now)| && Pool(cfg, s, now)[p] == log[id];
    forall max: nat
      ensures log[id] in Batch(cfg, s, now, max) <==> |Kept(ViewAt(cfg, s, now), Pool(cfg, s, now)[..p])| < max
    {
      FirstOfExactly(ViewAt(cfg, s, now), Pool(cfg, s, now), p, max);
    }
  }
}
