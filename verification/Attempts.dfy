/** Deliveries racing over one cache. Checking and recording are separate critical
    sections with the provider's answer in between, so tasks interleave freely. */
module Attempts {
  import opened DedupSpec
  import opened DedupRuns
  import opened DedupWindow

  datatype Outcome = Delivered | Rejected | Skipped | Transient

  /** What an unfinished delivery is waiting for: the provider, or the cache lock. */
  datatype Task = Delivering(key: Key) | Recording(key: Key)

  datatype System = System(records: seq<Record>, tasks: map<nat, Task>)

  /** `Elsewhere` is a recording by any part of the program outside these tasks. */
  datatype Action =
    | Check(task: nat, now: nat, key: Key)
    | Answer(task: nat, outcome: Outcome)
    | Remember(task: nat, now: nat)
    | Elsewhere(now: nat, key: Key)

  predicate Attempted(cfg: Config, s: System, a: Action) {
    a.Check? && a.task !in s.tasks && !IsDuplicate(cfg, After(cfg, s.records), a.now, a.key)
  }

  predicate Suppressed(cfg: Config, s: System, a: Action) {
    a.Check? && a.task !in s.tasks && IsDuplicate(cfg, After(cfg, s.records), a.now, a.key)
  }

  predicate DeliversKey(s: System, a: Action, key: Key) {
    a.Answer? && a.outcome.Delivered? && a.task in s.tasks && s.tasks[a.task] == Delivering(key)
  }

  /** One atomic step; a step that is not possible in `s` changes nothing. */
  function Do(cfg: Config, s: System, a: Action): System {
    match a
    case Check(t, now, key) =>
      if Attempted(cfg, s, a) then s.(tasks := s.tasks[t := Delivering(key)]) else s
    case Answer(t, outcome) =>
      if t !in s.tasks || !s.tasks[t].Delivering? then s
      else if outcome.Delivered? then s.(tasks := s.tasks[t := Recording(s.tasks[t].key)])
      else s.(tasks := s.tasks - {t})
    case Remember(t, now) =>
      if t !in s.tasks || !s.tasks[t].Recording? then s
      else System(s.records + [Record(now, s.tasks[t].key)], s.tasks - {t})
    case Elsewhere(now, key) => s.(records := s.records + [Record(now, key)])
  }

  function Run(cfg: Config, actions: seq<Action>): System {
    if actions == [] then System([], map[])
    else Do(cfg, Run(cfg, actions[..|actions| - 1]), actions[|actions| - 1])
  }

  /** How often the provider accepted a delivery for this key. */
  function Deliveries(cfg: Config, actions: seq<Action>, key: Key): nat {
    if actions == [] then 0
    else
      var before, a := actions[..|actions| - 1], actions[|actions| - 1];
      Deliveries(cfg, before, key) + if DeliversKey(Run(cfg, before), a, key) then 1 else 0
  }

  function Clock(actions: seq<Action>): nat {
    if actions == [] then 0
    else if actions[|actions| - 1].Answer? then Clock(actions[..|actions| - 1])
    else actions[|actions| - 1].now
  }

  ghost predicate Timely(actions: seq<Action>) {
    actions == [] || (Timely(actions[..|actions| - 1]) && Clock(actions[..|actions| - 1]) <= Clock(actions))
  }

  ghost predicate Busy(tasks: map<nat, Task>, key: Key) {
    exists t :: t in tasks && tasks[t].key == key
  }

  /** From `before` on, deliveries for `key` never overlap and nobody else records it. */
  ghost predicate Sequential(cfg: Config, before: seq<Action>, more: seq<Action>, key: Key) {
    more == [] ||
    var a, s := more[|more| - 1], Run(cfg, before + more[..|more| - 1]);
    && Sequential(cfg, before, more[..|more| - 1], key)
    && (a.Elsewhere? ==> a.key != key)
    && (a.Check? && a.key == key && Attempted(cfg, s, a) ==> !Busy(s.tasks, key))
  }

  /** The windows that were started for `key`. */
  function Windows(accepted: seq<Record>, key: Key): nat {
    if accepted == [] then 0
    else Windows(accepted[..|accepted| - 1], key) + if accepted[|accepted| - 1].key == key then 1 else 0
  }

  // --- recording other keys never brings a key back ---

  lemma OthersNeverRevive(cfg: Config, rs: seq<Record>, r: Record, now: nat, later: nat, key: Key)
    requires r.key != key && now <= later
    requires !IsDuplicate(cfg, After(cfg, rs), now, key)
    ensures !IsDuplicate(cfg, After(cfg, rs + [r]), later, key)
  {
    hide Agree, Recorded;
    assert (rs + [r])[..|rs|] == rs;
    StructureHolds(cfg, rs);
    OthersOnlyDrop(cfg, After(cfg, rs), r);
  }

  lemma WindowsAppend(a: seq<Record>, r: Record, key: Key)
    ensures Windows(a + [r], key) == Windows(a, key) + if r.key == key then 1 else 0
  {
    assert (a + [r])[..|a|] == a;
  }

  lemma OtherWindows(cfg: Config, rs: seq<Record>, r: Record, key: Key)
    requires r.key != key
    ensures Windows(Accepted(cfg, rs + [r]), key) == Windows(Accepted(cfg, rs), key)
  {
    assert (rs + [r])[..|rs|] == rs;
    WindowsAppend(Accepted(cfg, rs), r, key);
    assert Accepted(cfg, rs) + [] == Accepted(cfg, rs);
  }

  // --- the invariant of sequential runs ---

  /** A delivery was accepted by the provider and is not yet recorded. */
  ghost predicate Owes(tasks: map<nat, Task>, key: Key) {
    exists t :: t in tasks && tasks[t] == Recording(key)
  }

  ghost predicate OneBusy(tasks: map<nat, Task>, key: Key) {
    forall t, u :: t in tasks && u in tasks && tasks[t].key == key && tasks[u].key == key ==> t == u
  }

  /** At most one task is busy with `key`, and while one is, the key has no open window. */
  ghost predicate Fits(cfg: Config, s: System, clock: nat, key: Key) {
    OneBusy(s.tasks, key) && (Busy(s.tasks, key) ==> !IsDuplicate(cfg, After(cfg, s.records), clock, key))
  }

  ghost function Started(cfg: Config, s: System, key: Key): nat {
    Windows(Accepted(cfg, s.records), key) + if Owes(s.tasks, key) then 1 else 0
  }

  ghost predicate OneAtATime(cfg: Config, s: System, clock: nat, key: Key, deliveries: int) {
    Fits(cfg, s, clock, key) && deliveries == Started(cfg, s, key)
  }

  /** Whatever happened before: as long as deliveries of a key do not overlap, every
      one that is accepted starts exactly one window of its own, or is about to. */
  lemma {:induction false} SequentialRun(cfg: Config, before: seq<Action>, more: seq<Action>, key: Key)
    requires cfg.ttl > 0 && Timely(before + more) && Sequential(cfg, before, more, key)
    requires Fits(cfg, Run(cfg, before), Clock(before), key)
    ensures Fits(cfg, Run(cfg, before + more), Clock(before + more), key)
    ensures Deliveries(cfg, before + more, key) - Deliveries(cfg, before, key)
         == Started(cfg, Run(cfg, before + more), key) - Started(cfg, Run(cfg, before), key)
  {
    hide Fits, Started, Do, Attempted, DeliversKey;
    if more == [] {
      assert before + more == before;
    } else {
      var m, a := more[..|more| - 1], more[|more| - 1];
      assert (before + more)[..|before + more| - 1] == before + m;
      SequentialRun(cfg, before, m, key);
      SequentialStep(cfg, Run(cfg, before + m), a, Clock(before + m), key);
    }
  }

  lemma SequentialStep(cfg: Config, s: System, a: Action, clock: nat, key: Key)
    requires cfg.ttl > 0 && Fits(cfg, s, clock, key)
    requires !a.Answer? ==> clock <= a.now
    requires a.Elsewhere? ==> a.key != key
    requires a.Check? && a.key == key && Attempted(cfg, s, a) ==> !Busy(s.tasks, key)
    ensures Fits(cfg, Do(cfg, s, a), if a.Answer? then clock else a.now, key)
    ensures Started(cfg, Do(cfg, s, a), key) == Started(cfg, s, key) + if DeliversKey(s, a, key) then 1 else 0
  {
    hide Do, Attempted, DeliversKey, Fits, Started;
    var n := Started(cfg, s, key);
    match a
    case Check(t, now, k) => CheckStep(cfg, s, a, clock, key, n);
    case Answer(t, outcome) => AnswerStep(cfg, s, a, clock, key, n);
    case Remember(t, now) => RememberStep(cfg, s, a, clock, key, n);
    case Elsewhere(now, k) => ElsewhereStep(cfg, s, a, clock, key, n);
  }

  /** With no delivery of the key under way there is nothing to fit. */
  lemma IdleFits(cfg: Config, s: System, clock: nat, key: Key)
    requires !Busy(s.tasks, key)
    ensures Fits(cfg, s, clock, key) && !Owes(s.tasks, key)
  {
    assert forall t :: t in s.tasks ==> s.tasks[t].key != key;
  }

  lemma CheckStep(cfg: Config, s: System, a: Action, clock: nat, key: Key, n: int)
    requires a.Check? && clock <= a.now && OneAtATime(cfg, s, clock, key, n)
    requires a.key == key && Attempted(cfg, s, a) ==> !Busy(s.tasks, key)
    ensures OneAtATime(cfg, Do(cfg, s, a), a.now, key, n)
    ensures !DeliversKey(s, a, key)
  {
    hide After, Accepted, Windows;
    if Attempted(cfg, s, a) {
      var tasks := s.tasks[a.task := Delivering(a.key)];
      assert forall t :: t in s.tasks ==> tasks[t] == s.tasks[t];
      assert Owes(s.tasks, key) <==> Owes(tasks, key);
      if Busy(tasks, key) && a.key != key {
        var t :| t in tasks && tasks[t].key == key;
        assert t in s.tasks;
      }
    }
  }

  lemma AnswerStep(cfg: Config, s: System, a: Action, clock: nat, key: Key, n: int)
    requires a.Answer? && OneAtATime(cfg, s, clock, key, n)
    ensures OneAtATime(cfg, Do(cfg, s, a), clock, key, n + if DeliversKey(s, a, key) then 1 else 0)
  {
    hide After, Accepted, Windows, IsDuplicate;
    if a.task in s.tasks && s.tasks[a.task].Delivering? {
      var k, tasks := s.tasks[a.task].key, Do(cfg, s, a).tasks;
      assert forall t :: t in s.tasks && t != a.task ==> t in tasks && tasks[t] == s.tasks[t];
      assert Busy(tasks, key) ==> Busy(s.tasks, key) by {
        if t :| t in tasks && tasks[t].key == key {
          assert s.tasks[t].key == key;
        }
      }
      if DeliversKey(s, a, key) {
        assert tasks[a.task] == Recording(key);
        assert !Owes(s.tasks, key);
      } else {
        assert Owes(s.tasks, key) <==> Owes(tasks, key);
      }
    }
  }

  lemma ElsewhereStep(cfg: Config, s: System, a: Action, clock: nat, key: Key, n: int)
    requires a.Elsewhere? && a.key != key && clock <= a.now && OneAtATime(cfg, s, clock, key, n)
    ensures OneAtATime(cfg, Do(cfg, s, a), a.now, key, n)
    ensures !DeliversKey(s, a, key)
  {
    hide After, Accepted, Windows;
    var r := Record(a.now, a.key);
    OtherWindows(cfg, s.records, r, key);
    if Busy(s.tasks, key) {
      OthersNeverRevive(cfg, s.records, r, clock, a.now, key);
    }
  }

  lemma RememberStep(cfg: Config, s: System, a: Action, clock: nat, key: Key, n: int)
    requires cfg.ttl > 0 && a.Remember? && clock <= a.now && OneAtATime(cfg, s, clock, key, n)
    ensures OneAtATime(cfg, Do(cfg, s, a), a.now, key, n)
    ensures !DeliversKey(s, a, key)
  {
    hide After, Accepted, Windows;
    if a.task in s.tasks && s.tasks[a.task].Recording? {
      var r, tasks := Record(a.now, s.tasks[a.task].key), s.tasks - {a.task};
      assert forall t :: t in tasks ==> t in s.tasks && tasks[t] == s.tasks[t];
      assert Busy(s.tasks, r.key);
      if r.key == key {
        assert Owes(s.tasks, key) && !Busy(tasks, key);
        UnseenIsAccepted(cfg, s.records, r);
        WindowsAppend(Accepted(cfg, s.records), r, key);
      } else {
        assert Owes(s.tasks, key) <==> Owes(tasks, key);
        OtherWindows(cfg, s.records, r, key);
        if Busy(tasks, key) {
          OthersNeverRevive(cfg, s.records, r, clock, a.now, key);
        }
      }
    }
  }
}
