/** Runs of the cache: any sequence of recordings, from empty. */
module DedupRuns {
  import opened Prelude
  import opened DedupSpec

  function After(cfg: Config, rs: seq<Record>): State {
    if rs == [] then EMPTY
    else Recorded(cfg, After(cfg, rs[..|rs| - 1]), rs[|rs| - 1])
  }

  /** The window a recording starts, if it starts one. */
  function Gained(cfg: Config, s: State, r: Record): seq<Record> {
    if Accepts(cfg, s, r) then [r] else []
  }

  /** The recordings that started a window, in order. */
  function Accepted(cfg: Config, rs: seq<Record>): seq<Record> {
    if rs == [] then []
    else
      var before, r := rs[..|rs| - 1], rs[|rs| - 1];
      Accepted(cfg, before) + Gained(cfg, After(cfg, before), r)
  }

  // --- structure: holds for any sequence of clock readings ---

  /** The times of a key strictly increase along the order. */
  ghost predicate Climbs(order: seq<Record>) {
    forall i, j :: 0 <= i < j < |order| && order[i].key == order[j].key ==> order[i].time < order[j].time
  }

  ghost predicate Covered(s: State) {
    forall i :: 0 <= i < |s.order| ==> s.order[i].key in s.seen && s.order[i].time <= s.seen[s.order[i].key]
  }

  ghost predicate Backed(s: State) {
    forall k :: k in s.seen ==> Record(s.seen[k], k) in s.order
  }

  /** Map and order agree: same keys, and each key's last occurrence (its largest
      time) is the one the map remembers. */
  ghost predicate Agree(s: State) {
    Climbs(s.order) && Covered(s) && Backed(s)
  }

  lemma PopKeepsCover(s: State)
    requires Agree(s) && s.order != []
    ensures Covered(Pop(s))
    ensures forall k :: k in Pop(s).seen ==> k in s.seen && Pop(s).seen[k] == s.seen[k]
  {
    hide Backed;
    var t := Pop(s);
    forall i | 0 <= i < |t.order| ensures t.order[i].key in t.seen && t.order[i].time <= t.seen[t.order[i].key] {
      assert t.order[i] == s.order[i + 1];
    }
  }

  lemma PopKeepsBack(s: State)
    requires Agree(s) && s.order != []
    ensures Backed(Pop(s)) && Climbs(Pop(s).order)
  {
    hide Covered;
    var r, t := s.order[0], Pop(s);
    assert s.order == [r] + t.order;
    forall k | k in t.seen ensures Record(t.seen[k], k) in t.order {
      assert Record(s.seen[k], k) in s.order;
    }
  }

  lemma PopKeepsAgree(s: State)
    requires Agree(s) && s.order != []
    ensures Agree(Pop(s))
    ensures forall k :: k in Pop(s).seen ==> k in s.seen && Pop(s).seen[k] == s.seen[k]
  {
    PopKeepsCover(s);
    PopKeepsBack(s);
  }

  /** `t` is `s` after dropping some front part of its order. */
  ghost predicate Shrinks(s: State, t: State) {
    && |t.order| <= |s.order| && t.order == s.order[|s.order| - |t.order|..]
    && (forall k :: k in t.seen ==> k in s.seen && t.seen[k] == s.seen[k])
  }

  lemma {:induction false} ExpireKeepsAgree(ttl: nat, s: State, now: nat)
    requires Agree(s)
    ensures Agree(Expire(ttl, s, now)) && Shrinks(s, Expire(ttl, s, now))
    decreases |s.order|
  {
    hide Agree;
    if s.order != [] && Since(now, s.order[0].time) >= ttl {
      PopKeepsAgree(s);
      ExpireKeepsAgree(ttl, Pop(s), now);
    }
  }

  /** The size loop never meets an empty order, ends within the cap, and keeps the
      newest entry as long as the cap leaves room for one. */
  lemma {:induction false} TrimKeepsAgree(max: nat, s: State)
    requires Agree(s)
    ensures Agree(Trim(max, s)) && Shrinks(s, Trim(max, s))
    ensures |s.seen| > max ==> s.order != []
    ensures |Trim(max, s).seen| <= max
    ensures max >= 1 && s.order != [] ==> Trim(max, s).order != []
    decreases |s.order|
  {
    hide Agree;
    if |s.seen| > max {
      SeenNeedsOrder(s);
      PopKeepsAgree(s);
      TrimKeepsAgree(max, Pop(s));
      if |s.order| == 1 {
        OneKey(s);
      }
    }
  }

  lemma SeenNeedsOrder(s: State)
    requires Agree(s) && |s.seen| > 0
    ensures s.order != []
  {
    assert s.order == [] ==> s.seen.Keys == {};
    assert |s.seen| == |s.seen.Keys|;
  }

  lemma OneKey(s: State)
    requires Agree(s) && |s.order| == 1
    ensures |s.seen| == 1
  {
    var k := s.order[0].key;
    assert s.order[0] in s.order;
    assert s.seen.Keys == {k};
    assert |s.seen| == |s.seen.Keys|;
  }

  lemma InsertKeepsAgree(cfg: Config, s: State, r: Record)
    requires Agree(s) && cfg.ttl > 0 && !IsDuplicate(cfg, s, r.time, r.key)
    ensures Agree(Insert(s, r))
  {
    var t := Insert(s, r);
    assert t.order[|s.order|] == r;
    forall k | k in t.seen ensures Record(t.seen[k], k) in t.order {
      if k != r.key {
        assert Record(s.seen[k], k) in s.order;
      }
    }
  }

  lemma AcceptKeepsAgree(cfg: Config, s: State, r: Record)
    requires Agree(s) && cfg.ttl > 0 && Accepts(cfg, s, r)
    ensures Agree(Recorded(cfg, s, r)) && |Recorded(cfg, s, r).seen| <= cfg.maxEntries
    ensures cfg.maxEntries >= 1 ==> IsDuplicate(cfg, Recorded(cfg, s, r), r.time, r.key)
  {
    hide Agree, Expire, Trim;
    var e := Expire(cfg.ttl, s, r.time);
    ExpireKeepsAgree(cfg.ttl, s, r.time);
    InsertKeepsAgree(cfg, e, r);
    TrimKeepsAgree(cfg.maxEntries, Insert(e, r));
    if cfg.maxEntries >= 1 {
      LastIsSeen(Trim(cfg.maxEntries, Insert(e, r)));
    }
  }

  lemma RecordKeepsAgree(cfg: Config, s: State, r: Record)
    requires Agree(s) && |s.seen| <= cfg.maxEntries
    ensures Agree(Recorded(cfg, s, r)) && |Recorded(cfg, s, r).seen| <= cfg.maxEntries
    ensures cfg.ttl > 0 && cfg.maxEntries >= 1 ==> IsDuplicate(cfg, Recorded(cfg, s, r), r.time, r.key)
  {
    hide Agree, Expire, Trim;
    if cfg.ttl > 0 {
      if Accepts(cfg, s, r) {
        AcceptKeepsAgree(cfg, s, r);
      } else {
        ExpireKeepsAgree(cfg.ttl, s, r.time);
        SmallerMap(Expire(cfg.ttl, s, r.time).seen, s.seen);
      }
    }
  }

  /** A recording touches no other key, except that it may drop it. */
  lemma OthersOnlyDrop(cfg: Config, s: State, r: Record)
    requires Agree(s)
    ensures var t := Recorded(cfg, s, r);
      forall k :: k in t.seen && k != r.key ==> k in s.seen && t.seen[k] == s.seen[k]
  {
    hide Agree, Expire, Trim;
    ExpireKeepsAgree(cfg.ttl, s, r.time);
    if Accepts(cfg, s, r) {
      var e := Expire(cfg.ttl, s, r.time);
      InsertKeepsAgree(cfg, e, r);
      TrimKeepsAgree(cfg.maxEntries, Insert(e, r));
    }
  }

  lemma SmallerMap(a: map<Key, nat>, b: map<Key, nat>)
    requires forall k :: k in a ==> k in b
    ensures |a| <= |b|
  {
    assert a.Keys <= b.Keys && b.Keys == a.Keys + (b.Keys - a.Keys);
    assert |a| == |a.Keys| && |b| == |b.Keys|;
  }

  lemma LastIsSeen(s: State)
    requires Agree(s) && s.order != []
    ensures var r := s.order[|s.order| - 1]; r.key in s.seen && s.seen[r.key] == r.time
  {
    var r := s.order[|s.order| - 1];
    assert Record(s.seen[r.key], r.key) in s.order;
  }

  /** Whatever the clock does: map and order agree, and the cap holds. */
  lemma {:induction false} StructureHolds(cfg: Config, rs: seq<Record>)
    ensures Agree(After(cfg, rs)) && |After(cfg, rs).seen| <= cfg.maxEntries
  {
    if rs != [] {
      StructureHolds(cfg, rs[..|rs| - 1]);
      RecordKeepsAgree(cfg, After(cfg, rs[..|rs| - 1]), rs[|rs| - 1]);
    }
  }

  lemma UnseenIsAccepted(cfg: Config, rs: seq<Record>, r: Record)
    requires cfg.ttl > 0 && !IsDuplicate(cfg, After(cfg, rs), r.time, r.key)
    ensures Accepted(cfg, rs + [r]) == Accepted(cfg, rs) + [r]
  {
    hide Agree;
    assert (rs + [r])[..|rs|] == rs;
    StructureHolds(cfg, rs);
    ExpireKeepsAgree(cfg.ttl, After(cfg, rs), r.time);
  }

  /** A recording is remembered at once, whatever the clock does, if the cap allows any. */
  lemma RecordedIsRemembered(cfg: Config, rs: seq<Record>, r: Record)
    requires cfg.ttl > 0 && cfg.maxEntries >= 1
    ensures IsDuplicate(cfg, After(cfg, rs + [r]), r.time, r.key)
  {
    assert (rs + [r])[..|rs|] == rs;
    StructureHolds(cfg, rs);
    RecordKeepsAgree(cfg, After(cfg, rs), r);
  }

  /** The last order entry of a key is the one the map remembers, so dropping a
      stale front entry never drops a live key. */
  lemma LastOccurrenceIsLive(s: State, i: nat)
    requires Agree(s) && i < |s.order|
    ensures s.seen[s.order[i].key] == s.order[i].time <==>
      forall j :: i < j < |s.order| ==> s.order[j].key != s.order[i].key
  {
    var r := s.order[i];
    assert r in s.order;
    var j :| 0 <= j < |s.order| && s.order[j] == Record(s.seen[r.key], r.key);
    forall m | i < m < |s.order| && s.order[m].key == r.key ensures s.seen[r.key] > r.time {
      assert s.order[m] in s.order;
    }
  }

  ghost predicate IsSuffix(a: seq<Record>, b: seq<Record>) {
    |a| <= |b| && a == b[|b| - |a|..]
  }

  lemma SuffixOfSuffix(a: seq<Record>, b: seq<Record>, c: seq<Record>, d: seq<Record>)
    requires IsSuffix(a, b + d) && IsSuffix(b, c)
    ensures IsSuffix(a, c + d)
  {
    assert (c + d)[|c| - |b|..] == b + d;
  }

  lemma RecordedOrder(cfg: Config, s: State, r: Record)
    requires Agree(s)
    ensures IsSuffix(Recorded(cfg, s, r).order, s.order + Gained(cfg, s, r))
  {
    hide Agree;
    var e := Expire(cfg.ttl, s, r.time);
    ExpireKeepsAgree(cfg.ttl, s, r.time);
    assert s.order + [] == s.order;
    if Accepts(cfg, s, r) {
      InsertKeepsAgree(cfg, e, r);
      TrimKeepsAgree(cfg.maxEntries, Insert(e, r));
      SuffixOfSuffix(Trim(cfg.maxEntries, Insert(e, r)).order, e.order, s.order, [r]);
    }
  }

  lemma {:induction false} OrderWasAccepted(cfg: Config, rs: seq<Record>)
    ensures IsSuffix(After(cfg, rs).order, Accepted(cfg, rs))
  {
    hide Agree, IsSuffix, Recorded, Gained;
    if rs == [] {
      assert IsSuffix([], []) by {
        EmptyIsSuffix();
      }
    } else {
      var before, r := rs[..|rs| - 1], rs[|rs| - 1];
      OrderWasAccepted(cfg, before);
      StructureHolds(cfg, before);
      RecordedOrder(cfg, After(cfg, before), r);
      SuffixOfSuffix(After(cfg, rs).order, After(cfg, before).order, Accepted(cfg, before),
                     Gained(cfg, After(cfg, before), r));
    }
  }

  lemma {:induction false} AcceptedIsRecorded(cfg: Config, rs: seq<Record>, r: Record)
    requires r in Accepted(cfg, rs)
    ensures r in rs
  {
    hide After, Accepts;
    var before := rs[..|rs| - 1];
    if r in Accepted(cfg, before) {
      AcceptedIsRecorded(cfg, before, r);
    }
  }

  lemma EmptyIsSuffix()
    ensures IsSuffix([], [])
  {
  }

  /** A reported duplicate was really recorded less than the TTL ago, whatever the clock does. */
  lemma DuplicateWasRecorded(cfg: Config, rs: seq<Record>, now: nat, key: Key)
    requires IsDuplicate(cfg, After(cfg, rs), now, key)
    ensures exists r :: r in Accepted(cfg, rs) && r in rs && r.key == key && Since(now, r.time) < cfg.ttl
  {
    var s, a := After(cfg, rs), Accepted(cfg, rs);
    StructureHolds(cfg, rs);
    OrderWasAccepted(cfg, rs);
    var r := Record(s.seen[key], key);
    assert r in s.order && r in a;
    AcceptedIsRecorded(cfg, rs, r);
  }
}
