/** The duplicate-suppression cache as it is built: a map and a deque updated in
    place under one lock, shown to do what DedupSpec says. */
module DedupCache {
  import opened Prelude
  import opened DedupSpec
  import opened DedupRuns
  import opened DedupWindow

  class DedupCache {
    const cfg: Config
    var seen: map<Key, nat>
    var order: seq<Record>
    /** The recordings this object has been given. */
    ghost var records: seq<Record>

    ghost function State(): State
      reads this
    {
      DedupSpec.State(seen, order)
    }

    ghost predicate Valid()
      reads this
    {
      State() == After(cfg, records)
    }

    constructor (cfg: Config)
      ensures Valid() && this.cfg == cfg && records == []
    {
      this.cfg := cfg;
      seen, order := map[], [];
      records := [];
    }

    /** Sound for any clock; under a monotone one, exact: a duplicate is a window that clock
        and size cap leave open. */
    method IsDuplicateAt(now: nat, key: Key) returns (duplicate: bool)
      requires Valid()
      ensures duplicate == IsDuplicate(cfg, State(), now, key)
      ensures duplicate ==> exists r :: r in records && r.key == key && Since(now, r.time) < cfg.ttl
      ensures Sorted(records) && Clock(records) <= now ==>
        var a := Accepted(cfg, records);
        duplicate <==> exists i :: 0 <= i < |a| && Opens(cfg, a, i, now, key)
    {
      hide After, Accepted;
      if Sorted(records) && Clock(records) <= now {
        ReportedExactly(cfg, records, now, key);
      }
      if cfg.ttl == 0 {
        return false;
      }
      duplicate := key in seen && Since(now, seen[key]) < cfg.ttl;
      if duplicate {
        DuplicateWasRecorded(cfg, records, now, key);
      }
    }

    /** Takes the front record off the order. Its key goes with it iff the map still has
        that very time for it; every other key keeps its time. */
    method PopFront() returns (r: Record)
      requires order != []
      modifies this`order, this`seen
      ensures State() == Pop(old(State())) && r == old(order)[0] && order == old(order)[1..]
      ensures forall k :: k != r.key ==> (k in seen <==> k in old(seen)) && (k in seen ==> seen[k] == old(seen)[k])
      ensures r.key in seen <==> r.key in old(seen) && old(seen)[r.key] != r.time
      ensures r.key in seen ==> seen[r.key] == old(seen)[r.key]
      ensures Agree(old(State())) ==> Agree(State())
    {
      hide Agree;
      ghost var s := State();
      r := order[0];
      order := order[1..];
      if r.key in seen && seen[r.key] == r.time {
        seen := seen - {r.key};
      }
      if Agree(s) {
        PopKeepsAgree(s);
      }
    }

    /** Starts a window for the key at `now`, unless one is open: that one is left alone. */
    method RecordAt(now: nat, key: Key)
      requires Valid()
      modifies this
      ensures Valid() && records == old(records) + [Record(now, key)]
      ensures State() == Recorded(cfg, old(State()), Record(now, key))
      ensures |seen| <= cfg.maxEntries
      ensures cfg.ttl > 0 && cfg.maxEntries >= 1 ==> IsDuplicate(cfg, State(), now, key)
    {
      hide Agree;
      ghost var s, r := State(), Record(now, key);
      records := records + [r];
      assert records[..|records| - 1] == old(records);
      StructureHolds(cfg, records);
      if cfg.ttl == 0 {
        return;
      }
      if cfg.maxEntries >= 1 {
        RecordedIsRemembered(cfg, old(records), r);
      }
      while order != [] && Since(now, order[0].time) >= cfg.ttl
        invariant Expire(cfg.ttl, State(), now) == Expire(cfg.ttl, s, now)
        invariant records == old(records) + [r]
        decreases |order|
      {
        var _ := PopFront();
      }
      if key in seen && Since(now, seen[key]) < cfg.ttl {
        return;
      }
      seen := seen[key := now];
      order := order + [Record(now, key)];
      while |seen| > cfg.maxEntries
        invariant Trim(cfg.maxEntries, State()) == Recorded(cfg, s, r)
        invariant records == old(records) + [r]
        decreases |order|
      {
        if order == [] {
          break;
        }
        var _ := PopFront();
      }
    }
  }

  // --- a capped cache is not a smaller uncapped one ---

  function Only(r: Record): State {
    State(map[r.key := r.time], [r])
  }

  lemma OneReplacesOther(cfg: Config, x: Record, y: Record)
    requires cfg.maxEntries == 1 && x.key != y.key && Since(y.time, x.time) < cfg.ttl
    ensures Recorded(cfg, Only(x), y) == Only(y)
  {
    var t := Insert(Only(x), y);
    assert t.seen.Keys == {x.key, y.key} && |t.seen| == |t.seen.Keys| == 2;
    assert Pop(t) == Only(y);
    assert |Only(y).seen| == 1;
    assert Trim(1, t) == Trim(1, Pop(t)) == Only(y);
  }

  /** With room for one key: recording b evicts a, so recording a again starts a
      later window, and the capped cache reports a duplicate when the greedy anchor
      (and so a cache that never evicts) no longer does. */
  lemma EvictionMovesTheAnchor(cfg: Config, a: Key, b: Key, again: nat)
    requires cfg.maxEntries == 1 && a != b && 0 < again < cfg.ttl
    ensures var rs := [Record(0, a)] + [Record(0, b)] + [Record(again, a)];
      && IsDuplicate(cfg, After(cfg, rs), cfg.ttl, a)
      && a in Anchors(cfg.ttl, rs) && Since(cfg.ttl, Anchors(cfg.ttl, rs)[a]) >= cfg.ttl
  {
    hide Recorded, Only, IsDuplicate, Anchors, After;
    var x, y, z := Record(0, a), Record(0, b), Record(again, a);
    RecordNext(cfg, [], x);
    RecordNext(cfg, [x], y);
    RecordNext(cfg, [x] + [y], z);
    assert [] + [x] == [x];
    FirstRecord(cfg, x);
    OneReplacesOther(cfg, x, y);
    OneReplacesOther(cfg, y, z);
    OnlyIsDuplicate(cfg, z, cfg.ttl);
    AnchorStays(cfg.ttl, x, y, z);
  }

  lemma AnchorStays(ttl: nat, x: Record, y: Record, z: Record)
    requires x.key != y.key && z.key == x.key && Since(z.time, x.time) < ttl
    ensures var m := Anchors(ttl, [x] + [y] + [z]); x.key in m && m[x.key] == x.time
  {
    assert ([x] + [y] + [z])[..2] == [x] + [y] && ([x] + [y])[..1] == [x] && [x][..0] == [];
    assert Anchors(ttl, [x]) == map[x.key := x.time];
  }

  lemma RecordNext(cfg: Config, rs: seq<Record>, r: Record)
    ensures After(cfg, rs + [r]) == Recorded(cfg, After(cfg, rs), r)
  {
    assert (rs + [r])[..|rs|] == rs;
  }

  lemma FirstRecord(cfg: Config, x: Record)
    requires cfg.maxEntries == 1 && cfg.ttl > 0
    ensures Recorded(cfg, After(cfg, []), x) == Only(x)
  {
    assert Insert(EMPTY, x) == Only(x);
  }

  lemma OnlyIsDuplicate(cfg: Config, x: Record, now: nat)
    requires cfg.ttl > 0 && Since(now, x.time) < cfg.ttl
    ensures IsDuplicate(cfg, Only(x), now, x.key)
  {
  }
}
