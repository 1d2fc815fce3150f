/** What the duplicate-suppression cache does, as functions on its state: delivery
    times per key, and the order of recording that drives expiry and eviction. */
module DedupSpec {
  import opened Prelude
  import opened Api

  datatype Key = Key(eventId: string, device: Device)
  datatype Record = Record(time: nat, key: Key)
  datatype Config = Config(ttl: nat, maxEntries: nat)
  datatype State = State(seen: map<Key, nat>, order: seq<Record>)

  const EMPTY := State(map[], [])

  predicate IsDuplicate(cfg: Config, s: State, now: nat, key: Key) {
    cfg.ttl > 0 && key in s.seen && Since(now, s.seen[key]) < cfg.ttl
  }

  /** Drops the oldest order entry, and its key unless that was re-recorded since. */
  function Pop(s: State): State
    requires s.order != []
  {
    var r := s.order[0];
    State(if r.key in s.seen && s.seen[r.key] == r.time then s.seen - {r.key} else s.seen, s.order[1..])
  }

  function Expire(ttl: nat, s: State, now: nat): State
    decreases |s.order|
  {
    if s.order == [] || Since(now, s.order[0].time) < ttl then s
    else Expire(ttl, Pop(s), now)
  }

  function Trim(max: nat, s: State): State
    decreases |s.order|
  {
    if |s.seen| <= max || s.order == [] then s
    else Trim(max, Pop(s))
  }

  function Insert(s: State, r: Record): State {
    State(s.seen[r.key := r.time], s.order + [r])
  }

  /** Whether recording `r` starts a new window. */
  predicate Accepts(cfg: Config, s: State, r: Record) {
    cfg.ttl > 0 && !IsDuplicate(cfg, Expire(cfg.ttl, s, r.time), r.time, r.key)
  }

  function Recorded(cfg: Config, s: State, r: Record): State {
    if cfg.ttl == 0 then s
    else if Accepts(cfg, s, r) then Trim(cfg.maxEntries, Insert(Expire(cfg.ttl, s, r.time), r))
    else Expire(cfg.ttl, s, r.time)
  }
}
