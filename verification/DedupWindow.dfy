/** The cache under a clock that does not run backwards: which recordings it still
    reports, exactly. */
module DedupWindow {
  import opened Prelude
  import opened DedupSpec
  import opened DedupRuns

  ghost predicate Sorted(rs: seq<Record>) {
    forall i, j :: 0 <= i < j < |rs| ==> rs[i].time <= rs[j].time
  }

  function Clock(rs: seq<Record>): nat {
    if rs == [] then 0 else rs[|rs| - 1].time
  }

  /** Every order entry is the one the map remembers: order and map are in bijection
      and the branch for stale order entries is never taken. */
  ghost predicate Exact(s: State) {
    forall i :: 0 <= i < |s.order| ==> s.order[i].key in s.seen && s.seen[s.order[i].key] == s.order[i].time
  }

  lemma PopKeepsExact(s: State)
    requires Agree(s) && Exact(s) && s.order != []
    ensures Agree(Pop(s)) && Exact(Pop(s))
    ensures Pop(s).seen == s.seen - {s.order[0].key} && |Pop(s).seen| == |s.seen| - 1
  {
    PopKeepsAgree(s);
    var t, r := Pop(s), s.order[0];
    forall i | 0 <= i < |t.order| ensures t.order[i].key != r.key {
      assert t.order[i] == s.order[i + 1];
    }
    assert t.seen.Keys == s.seen.Keys - {r.key};
    assert |t.seen| == |t.seen.Keys| && |s.seen| == |s.seen.Keys|;
  }

  lemma {:induction false} ExactCounts(s: State)
    requires Agree(s) && Exact(s)
    ensures |s.seen| == |s.order|
    decreases |s.order|
  {
    hide Agree, Exact, Pop;
    if s.order == [] {
      if |s.seen| > 0 {
        SeenNeedsOrder(s);
      }
    } else {
      PopKeepsExact(s);
      assert |Pop(s).order| == |s.order| - 1 by {
        PopShortens(s);
      }
      ExactCounts(Pop(s));
    }
  }

  lemma PopShortens(s: State)
    requires s.order != []
    ensures Pop(s).order == s.order[1..]
  {
  }

  lemma {:induction false} ExpireKeepsExact(ttl: nat, s: State, now: nat)
    requires Agree(s) && Exact(s)
    ensures Agree(Expire(ttl, s, now)) && Exact(Expire(ttl, s, now))
    decreases |s.order|
  {
    hide Agree, Exact;
    if s.order != [] && Since(now, s.order[0].time) >= ttl {
      PopKeepsExact(s);
      ExpireKeepsExact(ttl, Pop(s), now);
    }
  }

  /** Expiry drops stale entries only, and stops at a fresh one. */
  lemma {:induction false} ExpireCuts(ttl: nat, s: State, now: nat)
    ensures var t := Expire(ttl, s, now);
      && IsSuffix(t.order, s.order)
      && (forall i :: 0 <= i < |s.order| - |t.order| ==> Since(now, s.order[i].time) >= ttl)
      && (t.order != [] ==> Since(now, t.order[0].time) < ttl)
    decreases |s.order|
  {
    hide Since;
    if s.order != [] && Since(now, s.order[0].time) >= ttl {
      PopShortens(s);
      ExpireCuts(ttl, Pop(s), now);
    }
  }

  lemma ExpireLeavesFresh(ttl: nat, s: State, now: nat)
    requires Sorted(s.order)
    ensures var t := Expire(ttl, s, now);
      forall i :: 0 <= i < |t.order| ==> Since(now, t.order[i].time) < ttl
  {
    hide Expire;
    ExpireCuts(ttl, s, now);
    var t := Expire(ttl, s, now);
    forall i | 0 <= i < |t.order| ensures t.order[0].time <= t.order[i].time {
      assert t.order[i] == s.order[|s.order| - |t.order| + i];
      assert t.order[0] == s.order[|s.order| - |t.order|];
    }
  }

  /** Under the size cap the newest `max` entries stay. */
  lemma {:induction false} TrimCuts(max: nat, s: State)
    requires Agree(s) && Exact(s)
    ensures var t := Trim(max, s);
      && IsSuffix(t.order, s.order) && |t.order| == Min(max, |s.order|)
      && Agree(t) && Exact(t)
    decreases |s.order|
  {
    hide Agree, Exact;
    ExactCounts(s);
    if |s.seen| > max {
      PopKeepsExact(s);
      PopShortens(s);
      TrimCuts(max, Pop(s));
    }
  }

  lemma SeenIsFresh(s: State, now: nat, ttl: nat)
    requires Backed(s) && forall i :: 0 <= i < |s.order| ==> Since(now, s.order[i].time) < ttl
    ensures forall k :: k in s.seen ==> Since(now, s.seen[k]) < ttl
  {
    forall k | k in s.seen ensures Since(now, s.seen[k]) < ttl {
      var i :| 0 <= i < |s.order| && s.order[i] == Record(s.seen[k], k);
    }
  }

  lemma InsertKeepsExact(cfg: Config, s: State, r: Record)
    requires Agree(s) && Exact(s) && cfg.ttl > 0 && !IsDuplicate(cfg, s, r.time, r.key)
    requires forall i :: 0 <= i < |s.order| ==> Since(r.time, s.order[i].time) < cfg.ttl
    ensures Agree(Insert(s, r)) && Exact(Insert(s, r)) && r.key !in s.seen
  {
    SeenIsFresh(s, r.time, cfg.ttl);
    InsertKeepsAgree(cfg, s, r);
  }

  lemma {:induction false} AcceptedSorted(cfg: Config, rs: seq<Record>)
    requires Sorted(rs)
    ensures Sorted(Accepted(cfg, rs))
    ensures forall a :: a in Accepted(cfg, rs) ==> a.time <= Clock(rs)
  {
    hide After, Accepts;
    if rs != [] {
      AcceptedSorted(cfg, rs[..|rs| - 1]);
      var a := Accepted(cfg, rs[..|rs| - 1]);
      assert forall i :: 0 <= i < |a| ==> a[i] in a;
    }
  }

  lemma OrderSorted(cfg: Config, rs: seq<Record>)
    requires Sorted(rs)
    ensures Sorted(After(cfg, rs).order)
  {
    AcceptedSorted(cfg, rs);
    OrderWasAccepted(cfg, rs);
  }

  /** Index `i` of `a` may be missing: it is stale, or `max` newer ones followed. */
  predicate MayDrop(cfg: Config, a: seq<Record>, i: nat, now: nat)
    requires i < |a|
  {
    Since(now, a[i].time) >= cfg.ttl || |a| - 1 - i >= cfg.maxEntries
  }

  // --- one recording ---

  /** What one recording does to the order: `cut` entries drop off the front. */
  ghost predicate StepCuts(cfg: Config, s: State, r: Record, cut: nat) {
    var grown := s.order + Gained(cfg, s, r);
    && cut <= |grown| && Recorded(cfg, s, r).order == grown[cut..]
    && (forall i :: 0 <= i < cut ==> MayDrop(cfg, grown, i, r.time))
  }

  lemma TrimmedTail(cfg: Config, order: seq<Record>, left: seq<Record>, r: Record, trimmed: seq<Record>)
    requires IsSuffix(left, order) && IsSuffix(trimmed, left + [r])
    requires |trimmed| == Min(cfg.maxEntries, |left| + 1)
    requires forall i :: 0 <= i < |order| - |left| ==> Since(r.time, order[i].time) >= cfg.ttl
    ensures var grown, cut := order + [r], |order| + 1 - |trimmed|;
      && cut >= 0 && trimmed == grown[cut..]
      && (forall i :: 0 <= i < cut ==> MayDrop(cfg, grown, i, r.time))
  {
    hide Since;
    SuffixOfSuffix(trimmed, left, order, [r]);
    var grown, cut := order + [r], |order| + 1 - |trimmed|;
    forall i | 0 <= i < cut ensures MayDrop(cfg, grown, i, r.time) {
      if i < |order| - |left| {
        assert grown[i] == order[i];
      }
    }
  }

  lemma RecordCuts(cfg: Config, s: State, r: Record) returns (cut: nat)
    requires cfg.ttl > 0 && Agree(s) && Exact(s) && Sorted(s.order)
    ensures Agree(Recorded(cfg, s, r)) && Exact(Recorded(cfg, s, r))
    ensures StepCuts(cfg, s, r, cut)
  {
    hide Agree, Exact, Expire, Trim, IsDuplicate;
    var e := Expire(cfg.ttl, s, r.time);
    ExpireKeepsExact(cfg.ttl, s, r.time);
    ExpireCuts(cfg.ttl, s, r.time);
    if Accepts(cfg, s, r) {
      ExpireLeavesFresh(cfg.ttl, s, r.time);
      InsertKeepsExact(cfg, e, r);
      TrimCuts(cfg.maxEntries, Insert(e, r));
      var t := Trim(cfg.maxEntries, Insert(e, r));
      TrimmedTail(cfg, s.order, e.order, r, t.order);
      cut := |s.order| + 1 - |t.order|;
    } else {
      cut := |s.order| - |e.order|;
      forall i: nat | i < cut ensures MayDrop(cfg, s.order, i, r.time) {
        assert Since(r.time, s.order[i].time) >= cfg.ttl;
      }
      assert s.order + [] == s.order;
    }
  }

  // --- whole runs ---

  /** Everything dropped from the order is stale by now, or `maxEntries` newer
      windows were started since. */
  ghost predicate DroppedForCause(cfg: Config, s: State, accepted: seq<Record>, clock: nat) {
    && IsSuffix(s.order, accepted)
    && (forall i :: 0 <= i < |accepted| - |s.order| ==> MayDrop(cfg, accepted, i, clock))
  }

  lemma DropMore(cfg: Config, a: seq<Record>, order: seq<Record>, more: seq<Record>, clock: nat, now: nat, cut: nat)
    requires IsSuffix(order, a) && clock <= now && cut <= |order + more|
    requires forall i :: 0 <= i < |a| - |order| ==> MayDrop(cfg, a, i, clock)
    requires forall i :: 0 <= i < cut ==> MayDrop(cfg, order + more, i, now)
    ensures IsSuffix((order + more)[cut..], a + more)
    ensures forall i :: 0 <= i < |a| - |order| + cut ==> MayDrop(cfg, a + more, i, now)
  {
    var b, d := a + more, |a| - |order|;
    assert b[d..] == order + more;
    assert b[d + cut..] == (order + more)[cut..];
    forall i | 0 <= i < d + cut ensures MayDrop(cfg, b, i, now) {
      if i >= d {
        assert b[i] == (order + more)[i - d] && MayDrop(cfg, order + more, i - d, now);
      } else {
        assert b[i] == a[i] && MayDrop(cfg, a, i, clock);
      }
    }
  }

  lemma DropStep(cfg: Config, s: State, a: seq<Record>, clock: nat, r: Record, cut: nat)
    requires DroppedForCause(cfg, s, a, clock) && clock <= r.time
    requires StepCuts(cfg, s, r, cut)
    ensures DroppedForCause(cfg, Recorded(cfg, s, r), a + Gained(cfg, s, r), r.time)
  {
    hide Recorded, Since;
    DropMore(cfg, a, s.order, Gained(cfg, s, r), clock, r.time, cut);
  }

  /** With a monotone clock, in every reachable state: the order is sorted by time, in
      bijection with the map, and whatever it lacks was dropped for cause. */
  lemma {:induction false} MonotoneCache(cfg: Config, rs: seq<Record>)
    requires Sorted(rs) && cfg.ttl > 0
    ensures var s := After(cfg, rs);
      && Agree(s) && Exact(s) && Sorted(s.order) && |s.seen| == |s.order|
      && DroppedForCause(cfg, s, Accepted(cfg, rs), Clock(rs))
  {
    hide Agree, Exact, Recorded, Gained, DroppedForCause, MayDrop;
    if rs == [] {
      EmptyCache(cfg);
    } else {
      var before, r := rs[..|rs| - 1], rs[|rs| - 1];
      MonotoneCache(cfg, before);
      var cut := RecordCuts(cfg, After(cfg, before), r);
      DropStep(cfg, After(cfg, before), Accepted(cfg, before), Clock(before), r, cut);
      OrderSorted(cfg, rs);
      ExactCounts(After(cfg, rs));
    }
  }

  lemma EmptyCache(cfg: Config)
    ensures Agree(EMPTY) && Exact(EMPTY) && DroppedForCause(cfg, EMPTY, [], 0)
  {
  }

  /** Window `i` is for this key, still open, and too recent to have been evicted. */
  ghost predicate Opens(cfg: Config, a: seq<Record>, i: nat, now: nat, key: Key)
    requires i < |a|
  {
    a[i].key == key && Since(now, a[i].time) < cfg.ttl && |a| - 1 - i < cfg.maxEntries
  }

  /** Completeness: a window started less than the TTL ago, with fewer than
      `maxEntries` windows started since, is always reported. */
  lemma WindowIsReported(cfg: Config, rs: seq<Record>, now: nat, i: nat)
    requires Sorted(rs) && Clock(rs) <= now && cfg.ttl > 0
    requires i < |Accepted(cfg, rs)|
    requires Since(now, Accepted(cfg, rs)[i].time) < cfg.ttl
    requires |Accepted(cfg, rs)| - 1 - i < cfg.maxEntries
    ensures IsDuplicate(cfg, After(cfg, rs), now, Accepted(cfg, rs)[i].key)
  {
    hide After, Accepted, Agree;
    MonotoneCache(cfg, rs);
    var s, a := After(cfg, rs), Accepted(cfg, rs);
    assert i < |a| - |s.order| ==> MayDrop(cfg, a, i, Clock(rs));
    assert i >= |a| - |s.order|;
    assert s.order[i - (|a| - |s.order|)] == a[i];
  }

  /** What the capped cache reports: exactly the windows that are still open and followed
      by fewer than `maxEntries` others. */
  lemma ReportedExactly(cfg: Config, rs: seq<Record>, now: nat, key: Key)
    requires Sorted(rs) && Clock(rs) <= now
    ensures var a := Accepted(cfg, rs);
      IsDuplicate(cfg, After(cfg, rs), now, key) <==> exists i :: 0 <= i < |a| && Opens(cfg, a, i, now, key)
  {
    hide After, Accepted, IsDuplicate, Sorted, Clock;
    var a := Accepted(cfg, rs);
    if i :| 0 <= i < |a| && Opens(cfg, a, i, now, key) {
      assert cfg.ttl > 0;
      WindowIsReported(cfg, rs, now, i);
    }
    if IsDuplicate(cfg, After(cfg, rs), now, key) {
      var i := ReportedIsOpen(cfg, rs, now, key);
    }
  }

  lemma ReportedIsOpen(cfg: Config, rs: seq<Record>, now: nat, key: Key) returns (i: nat)
    requires Sorted(rs) && IsDuplicate(cfg, After(cfg, rs), now, key)
    ensures i < |Accepted(cfg, rs)| && Opens(cfg, Accepted(cfg, rs), i, now, key)
  {
    hide After, Accepted, Agree, Exact, Sorted;
    var s, a := After(cfg, rs), Accepted(cfg, rs);
    MonotoneCache(cfg, rs);
    StructureHolds(cfg, rs);
    OrderWasAccepted(cfg, rs);
    BackedIfAgree(s);
    var j :| 0 <= j < |s.order| && s.order[j] == Record(s.seen[key], key);
    i := |a| - |s.order| + j;
    assert a[i] == s.order[j];
  }

  lemma {:induction false} WindowsStay(cfg: Config, rs: seq<Record>, n: nat)
    requires n <= |rs|
    ensures Accepted(cfg, rs[..n]) <= Accepted(cfg, rs)
  {
    hide After, Accepts;
    if n < |rs| {
      WindowsStay(cfg, rs[..|rs| - 1], n);
      assert rs[..|rs| - 1][..n] == rs[..n];
    } else {
      assert rs[..n] == rs;
    }
  }

  /** Every recording falls into a window of its key, its own or an earlier one. */
  lemma RecordingIsCovered(cfg: Config, rs: seq<Record>, p: nat) returns (i: nat)
    requires cfg.ttl > 0 && cfg.maxEntries >= 1 && p < |rs| && Sorted(rs)
    ensures i < |Accepted(cfg, rs[..p + 1])|
    ensures Accepted(cfg, rs[..p + 1]) <= Accepted(cfg, rs)
    ensures var w := Accepted(cfg, rs)[i];
      w.key == rs[p].key && w.time <= rs[p].time && Since(rs[p].time, w.time) < cfg.ttl
  {
    hide After, Accepted, IsDuplicate;
    var upto, r := rs[..p + 1], rs[p];
    assert upto == rs[..p] + [r];
    RecordedIsRemembered(cfg, rs[..p], r);
    ReportedExactly(cfg, upto, r.time, r.key);
    AcceptedSorted(cfg, upto);
    WindowsStay(cfg, rs, p + 1);
    var a := Accepted(cfg, upto);
    i :| 0 <= i < |a| && Opens(cfg, a, i, r.time, r.key);
    assert a[i] in a;
  }

  /** A recording inside an open window is absorbed by it, whatever the clock does. */
  lemma DuplicateIsAbsorbed(cfg: Config, rs: seq<Record>, r: Record)
    requires IsDuplicate(cfg, After(cfg, rs), r.time, r.key)
    ensures Accepted(cfg, rs + [r]) == Accepted(cfg, rs)
  {
    hide Agree, Expire;
    assert (rs + [r])[..|rs|] == rs;
    StructureHolds(cfg, rs);
    FreshSurvives(cfg, After(cfg, rs), r.time, r.key);
    assert Accepted(cfg, rs) + [] == Accepted(cfg, rs);
  }

  lemma FreshSurvives(cfg: Config, s: State, now: nat, key: Key)
    requires Agree(s) && IsDuplicate(cfg, s, now, key)
    ensures IsDuplicate(cfg, Expire(cfg.ttl, s, now), now, key)
  {
    hide Expire, Agree, Climbs;
    ExpireCuts(cfg.ttl, s, now);
    ExpireKeepsAgree(cfg.ttl, s, now);
    BackedIfAgree(s);
    var t := Expire(cfg.ttl, s, now);
    CoveredIfAgree(t);
    var i :| 0 <= i < |s.order| && s.order[i] == Record(s.seen[key], key);
    assert i >= |s.order| - |t.order|;
    assert t.order[i - (|s.order| - |t.order|)].key == key;
  }

  /** Recording a key again inside its window does not make the window any longer. */
  lemma WindowIsNotExtended(cfg: Config, rs: seq<Record>, first: Record, again: Record, now: nat)
    requires Sorted(rs + [first] + [again]) && cfg.maxEntries >= 1 && again.key == first.key
    requires !IsDuplicate(cfg, After(cfg, rs), first.time, first.key) && Since(again.time, first.time) < cfg.ttl
    requires now >= first.time + cfg.ttl
    ensures !IsDuplicate(cfg, After(cfg, rs + [first] + [again]), now, first.key)
  {
    hide After, Accepted, IsDuplicate;
    var one, two := rs + [first], rs + [first] + [again];
    assert forall i :: 0 <= i < |rs| ==> two[i] == rs[i];
    assert two[|rs|] == first && two[|rs| + 1] == again;
    assert forall i :: 0 <= i < |one| ==> one[i] == two[i];
    var a := Accepted(cfg, rs);
    UnseenIsAccepted(cfg, rs, first);
    ReportedExactly(cfg, rs, first.time, first.key);
    ReportedExactly(cfg, one, again.time, first.key);
    assert Opens(cfg, a + [first], |a|, again.time, first.key);
    DuplicateIsAbsorbed(cfg, one, again);
    ReportedExactly(cfg, two, now, first.key);
    forall i | 0 <= i < |a + [first]| ensures !Opens(cfg, a + [first], i, now, first.key) {
      if i < |a| {
        assert !Opens(cfg, a, i, first.time, first.key);
      }
    }
  }

  // --- the greedy anchor ---

  /** When each key's current window started: a recording starts one only if the
      last is at least `ttl` old; recording again inside a window never extends it. */
  function Anchors(ttl: nat, rs: seq<Record>): map<Key, nat> {
    if rs == [] then map[]
    else
      var m, r := Anchors(ttl, rs[..|rs| - 1]), rs[|rs| - 1];
      NextAnchors(ttl, m, r)
  }

  predicate OpenAnchor(ttl: nat, anchors: map<Key, nat>, now: nat, key: Key) {
    key in anchors && Since(now, anchors[key]) < ttl
  }

  /** The size cap never evicted this key while its window was open. */
  ghost predicate NeverEvicted(cfg: Config, rs: seq<Record>, key: Key) {
    rs == [] ||
    (NeverEvicted(cfg, rs[..|rs| - 1], key) && Spares(cfg, After(cfg, rs[..|rs| - 1]), rs[|rs| - 1], key))
  }

  ghost predicate Spares(cfg: Config, s: State, r: Record, key: Key) {
    Accepts(cfg, s, r) && key in Insert(Expire(cfg.ttl, s, r.time), r).seen ==> key in Recorded(cfg, s, r).seen
  }

  /** After every recording of the run, the cache and the greedy anchor agreed on the key. */
  ghost predicate AlwaysGreedy(cfg: Config, rs: seq<Record>, key: Key) {
    rs == [] || (AlwaysGreedy(cfg, rs[..|rs| - 1], key) && AgreesNow(cfg, rs, key))
  }

  ghost predicate AgreesNow(cfg: Config, rs: seq<Record>, key: Key) {
    IsDuplicate(cfg, After(cfg, rs), Clock(rs), key) <==> OpenAnchor(cfg.ttl, Anchors(cfg.ttl, rs), Clock(rs), key)
  }

  /** The cache holds the key's anchor, or lacks it only because it is stale. */
  ghost predicate HoldsAnchor(ttl: nat, s: State, anchors: map<Key, nat>, now: nat, key: Key) {
    && (key in s.seen ==> key in anchors && anchors[key] == s.seen[key])
    && (key in anchors && key !in s.seen ==> Since(now, anchors[key]) >= ttl)
  }

  lemma {:induction false} ExpireHoldsAnchor(ttl: nat, s: State, anchors: map<Key, nat>, now: nat, key: Key)
    requires HoldsAnchor(ttl, s, anchors, now, key)
    ensures HoldsAnchor(ttl, Expire(ttl, s, now), anchors, now, key)
    decreases |s.order|
  {
    if s.order != [] && Since(now, s.order[0].time) >= ttl {
      ExpireHoldsAnchor(ttl, Pop(s), anchors, now, key);
    }
  }

  function NextAnchors(ttl: nat, anchors: map<Key, nat>, r: Record): map<Key, nat> {
    if OpenAnchor(ttl, anchors, r.time, r.key) then anchors else anchors[r.key := r.time]
  }

  /** Before the size loop the key's anchor is held, and open if the map has it. */
  lemma BeforeTrim(cfg: Config, s: State, r: Record, anchors: map<Key, nat>, clock: nat, key: Key)
    requires cfg.ttl > 0 && clock <= r.time && Agree(s) && Exact(s) && Sorted(s.order)
    requires HoldsAnchor(cfg.ttl, s, anchors, clock, key)
    ensures var e := Expire(cfg.ttl, s, r.time);
      var t := if Accepts(cfg, s, r) then Insert(e, r) else e;
      && HoldsAnchor(cfg.ttl, t, NextAnchors(cfg.ttl, anchors, r), r.time, key)
      && (key in t.seen ==> Since(r.time, t.seen[key]) < cfg.ttl)
  {
    hide Expire, Agree, Exact;
    ExpireHoldsAnchor(cfg.ttl, s, anchors, r.time, key);
    ExpireKeepsExact(cfg.ttl, s, r.time);
    ExpireLeavesFresh(cfg.ttl, s, r.time);
    BackedIfAgree(Expire(cfg.ttl, s, r.time));
    SeenIsFresh(Expire(cfg.ttl, s, r.time), r.time, cfg.ttl);
  }

  lemma BackedIfAgree(s: State)
    requires Agree(s)
    ensures Backed(s)
  {
  }

  lemma CoveredIfAgree(s: State)
    requires Agree(s)
    ensures Covered(s)
  {
  }

  lemma TrimOnlyDrops(cfg: Config, s: State, r: Record)
    requires cfg.ttl > 0 && Agree(s) && Accepts(cfg, s, r)
    ensures var t, u := Insert(Expire(cfg.ttl, s, r.time), r), Recorded(cfg, s, r);
      forall k :: k in u.seen ==> k in t.seen && u.seen[k] == t.seen[k]
  {
    hide Agree, Expire, Trim;
    ExpireKeepsAgree(cfg.ttl, s, r.time);
    InsertKeepsAgree(cfg, Expire(cfg.ttl, s, r.time), r);
    TrimKeepsAgree(cfg.maxEntries, Insert(Expire(cfg.ttl, s, r.time), r));
  }

  /** One recording keeps cache and anchor agreed on the key iff it does not evict it. */
  lemma GreedyStep(cfg: Config, s: State, r: Record, anchors: map<Key, nat>, clock: nat, key: Key)
    requires cfg.ttl > 0 && clock <= r.time && Agree(s) && Exact(s) && Sorted(s.order)
    requires HoldsAnchor(cfg.ttl, s, anchors, clock, key)
    ensures var u, next := Recorded(cfg, s, r), NextAnchors(cfg.ttl, anchors, r);
      && (Spares(cfg, s, r, key) <==> (IsDuplicate(cfg, u, r.time, key) <==> OpenAnchor(cfg.ttl, next, r.time, key)))
      && (Spares(cfg, s, r, key) ==> HoldsAnchor(cfg.ttl, u, next, r.time, key))
  {
    hide Expire, Trim, Agree, Exact, Sorted, NextAnchors;
    BeforeTrim(cfg, s, r, anchors, clock, key);
    if Accepts(cfg, s, r) {
      TrimOnlyDrops(cfg, s, r);
    }
  }

  lemma {:induction false} AnchorHeld(cfg: Config, rs: seq<Record>, key: Key)
    requires Sorted(rs) && cfg.ttl > 0 && NeverEvicted(cfg, rs, key)
    ensures HoldsAnchor(cfg.ttl, After(cfg, rs), Anchors(cfg.ttl, rs), Clock(rs), key)
  {
    hide Agree, Exact, Recorded, Spares, DroppedForCause;
    if rs != [] {
      var before, r := rs[..|rs| - 1], rs[|rs| - 1];
      AnchorHeld(cfg, before, key);
      MonotoneCache(cfg, before);
      GreedyStep(cfg, After(cfg, before), r, Anchors(cfg.ttl, before), Clock(before), key);
    }
  }

  /** With a monotone clock, the cache is the greedy anchor for a key throughout a run
      exactly when the size cap never evicts that key while its window is open. */
  lemma {:induction false} GreedyExactly(cfg: Config, rs: seq<Record>, key: Key)
    requires Sorted(rs) && cfg.ttl > 0
    ensures AlwaysGreedy(cfg, rs, key) <==> NeverEvicted(cfg, rs, key)
  {
    hide Agree, Exact, Recorded, Spares, DroppedForCause, HoldsAnchor;
    if rs != [] {
      var before, r := rs[..|rs| - 1], rs[|rs| - 1];
      GreedyExactly(cfg, before, key);
      if NeverEvicted(cfg, before, key) {
        AnchorHeld(cfg, before, key);
        MonotoneCache(cfg, before);
        GreedyStep(cfg, After(cfg, before), r, Anchors(cfg.ttl, before), Clock(before), key);
      }
    }
  }

  /** And then it also answers every later check as the greedy anchor does. */
  lemma GreedyAnchor(cfg: Config, rs: seq<Record>, now: nat, key: Key)
    requires Sorted(rs) && NeverEvicted(cfg, rs, key) && cfg.ttl > 0 && Clock(rs) <= now
    ensures IsDuplicate(cfg, After(cfg, rs), now, key) <==> OpenAnchor(cfg.ttl, Anchors(cfg.ttl, rs), now, key)
  {
    AnchorHeld(cfg, rs, key);
  }

  // --- when the cap makes the cache report more than the greedy anchor ---

  /** This recording starts a window for a key that was evicted while its greedy anchor
      is still open, and so outlasts the anchor. */
  predicate Reanchors(cfg: Config, s: State, r: Record, anchors: map<Key, nat>) {
    && cfg.maxEntries >= 1 && Accepts(cfg, s, r)
    && OpenAnchor(cfg.ttl, anchors, r.time, r.key) && anchors[r.key] < r.time
  }

  ghost predicate NeverReanchored(cfg: Config, rs: seq<Record>, key: Key) {
    rs == [] ||
    var before, r := rs[..|rs| - 1], rs[|rs| - 1];
    && NeverReanchored(cfg, before, key)
    && (r.key == key ==> !Reanchors(cfg, After(cfg, before), r, Anchors(cfg.ttl, before)))
  }

  /** From this state on, until the next recording, the cache reports the key as a
      duplicate only when the greedy anchor does. */
  ghost predicate ReportsNoMore(cfg: Config, s: State, anchors: map<Key, nat>, clock: nat, key: Key) {
    forall now: nat :: clock <= now && IsDuplicate(cfg, s, now, key) ==> OpenAnchor(cfg.ttl, anchors, now, key)
  }

  /** At every moment of the run. */
  ghost predicate NeverReportsMore(cfg: Config, rs: seq<Record>, key: Key) {
    && ReportsNoMore(cfg, After(cfg, rs), Anchors(cfg.ttl, rs), Clock(rs), key)
    && (rs == [] || NeverReportsMore(cfg, rs[..|rs| - 1], key))
  }

  /** The map's time for the key is not younger than the anchor. */
  ghost predicate AnchorCovers(ttl: nat, s: State, anchors: map<Key, nat>, key: Key) {
    ttl > 0 && key in s.seen ==> key in anchors && s.seen[key] <= anchors[key]
  }

  /** The capped cache reports no more than the greedy anchor, for a key and throughout a
      run, exactly when no recording of the key starts a window inside an open anchor.
      No assumption on the clock is needed. */
  lemma {:induction false} ReportsMoreExactly(cfg: Config, rs: seq<Record>, key: Key)
    ensures NeverReportsMore(cfg, rs, key) <==> NeverReanchored(cfg, rs, key)
    ensures NeverReanchored(cfg, rs, key) ==> AnchorCovers(cfg.ttl, After(cfg, rs), Anchors(cfg.ttl, rs), key)
  {
    hide Agree, Recorded, Reanchors, ReportsNoMore, AnchorCovers, NextAnchors;
    if rs == [] {
      NothingReported(cfg, key);
    } else {
      var before, r := rs[..|rs| - 1], rs[|rs| - 1];
      ReportsMoreExactly(cfg, before, key);
      StructureHolds(cfg, before);
      if NeverReanchored(cfg, before, key) {
        CoversStep(cfg, After(cfg, before), r, Anchors(cfg.ttl, before), key);
      }
    }
  }

  lemma NothingReported(cfg: Config, key: Key)
    ensures ReportsNoMore(cfg, EMPTY, map[], 0, key) && AnchorCovers(cfg.ttl, EMPTY, map[], key)
  {
  }

  lemma CoversStep(cfg: Config, s: State, r: Record, anchors: map<Key, nat>, key: Key)
    requires Agree(s) && |s.seen| <= cfg.maxEntries && AnchorCovers(cfg.ttl, s, anchors, key)
    ensures var u, next, bad := Recorded(cfg, s, r), NextAnchors(cfg.ttl, anchors, r), Reanchors(cfg, s, r, anchors);
      && (ReportsNoMore(cfg, u, next, r.time, key) <==> (r.key == key ==> !bad))
      && ((r.key == key ==> !bad) ==> AnchorCovers(cfg.ttl, u, next, key))
  {
    hide Agree, Recorded;
    var u, next := Recorded(cfg, s, r), NextAnchors(cfg.ttl, anchors, r);
    if r.key != key {
      OthersOnlyDrop(cfg, s, r);
    } else {
      OwnTime(cfg, s, r);
      if Reanchors(cfg, s, r, anchors) {
        assert IsDuplicate(cfg, u, anchors[key] + cfg.ttl, key);
        assert !OpenAnchor(cfg.ttl, next, anchors[key] + cfg.ttl, key);
      }
    }
  }

  /** The time the map has for a key right after recording it. */
  lemma OwnTime(cfg: Config, s: State, r: Record)
    requires Agree(s) && |s.seen| <= cfg.maxEntries
    ensures var u := Recorded(cfg, s, r);
      if Accepts(cfg, s, r) then
        (r.key in u.seen <==> cfg.maxEntries >= 1) && (r.key in u.seen ==> u.seen[r.key] == r.time)
      else r.key in u.seen ==> r.key in s.seen && u.seen[r.key] == s.seen[r.key]
  {
    hide Agree, Expire, Trim;
    RecordKeepsAgree(cfg, s, r);
    if Accepts(cfg, s, r) {
      TrimOnlyDrops(cfg, s, r);
      AcceptKeepsAgree(cfg, s, r);
      assert cfg.maxEntries == 0 ==> Recorded(cfg, s, r).seen == map[];
    } else if cfg.ttl > 0 {
      ExpireKeepsAgree(cfg.ttl, s, r.time);
    }
  }
}
