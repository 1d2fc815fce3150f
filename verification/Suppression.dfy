/** What duplicate suppression is for: a key whose deliveries never overlap reaches
    its device at most once per window, and is held back only if it did. */
module Suppression {
  import opened Prelude
  import opened DedupSpec
  import opened DedupRuns
  import DedupWindow
  import opened Attempts

  lemma {:induction false} RecordsTimely(cfg: Config, actions: seq<Action>)
    requires Timely(actions)
    ensures DedupWindow.Sorted(Run(cfg, actions).records)
    ensures DedupWindow.Clock(Run(cfg, actions).records) <= Clock(actions)
  {
    hide After, IsDuplicate;
    if actions != [] {
      RecordsTimely(cfg, actions[..|actions| - 1]);
    }
  }

  /** At most once per window: when the provider is tried for a key, each delivery of it
      since `before` has started its own window, and each window of the key, whenever it
      started, is at least `ttl` old or followed by at least `maxEntries` others. */
  lemma AttemptsAreWindowsApart(cfg: Config, before: seq<Action>, more: seq<Action>, a: Action)
    requires cfg.ttl > 0 && Timely(before + more) && a.Check? && Clock(before + more) <= a.now
    requires Fits(cfg, Run(cfg, before), Clock(before), a.key)
    requires Sequential(cfg, before, more + [a], a.key) && Attempted(cfg, Run(cfg, before + more), a)
    ensures var windows := Accepted(cfg, Run(cfg, before + more).records);
      && Deliveries(cfg, before + more, a.key) - Deliveries(cfg, before, a.key)
         == Windows(windows, a.key) - Started(cfg, Run(cfg, before), a.key)
      && AllClosed(cfg, windows, a.now, a.key)
  {
    hide After, Accepted, IsDuplicate, Started, Fits;
    assert (more + [a])[..|more|] == more;
    SequentialRun(cfg, before, more, a.key);
    IdleFits(cfg, Run(cfg, before + more), a.now, a.key);
    IdleStarted(cfg, Run(cfg, before + more), a.key);
    TriedExactly(cfg, before + more, a);
  }

  lemma IdleStarted(cfg: Config, s: System, key: Key)
    requires !Owes(s.tasks, key)
    ensures Started(cfg, s, key) == Windows(Accepted(cfg, s.records), key)
  {
  }

  /** No window of `key` is both younger than the TTL and recent enough to be remembered. */
  ghost predicate AllClosed(cfg: Config, windows: seq<Record>, now: nat, key: Key) {
    forall i :: 0 <= i < |windows| && windows[i].key == key ==>
      Since(now, windows[i].time) >= cfg.ttl || |windows| - 1 - i >= cfg.maxEntries
  }

  /** And a free task tries the provider whenever that is so. */
  lemma TriedExactly(cfg: Config, actions: seq<Action>, a: Action)
    requires Timely(actions) && a.Check? && Clock(actions) <= a.now && a.task !in Run(cfg, actions).tasks
    ensures Attempted(cfg, Run(cfg, actions), a) <==>
      AllClosed(cfg, Accepted(cfg, Run(cfg, actions).records), a.now, a.key)
  {
    hide After, Accepted, Run, IsDuplicate;
    RecordsTimely(cfg, actions);
    var rs := Run(cfg, actions).records;
    var windows := Accepted(cfg, rs);
    DedupWindow.ReportedExactly(cfg, rs, a.now, a.key);
    assert forall i :: 0 <= i < |windows| && windows[i].key == a.key ==>
      (DedupWindow.Opens(cfg, windows, i, a.now, a.key) <==>
        !(Since(a.now, windows[i].time) >= cfg.ttl || |windows| - 1 - i >= cfg.maxEntries));
  }

  // --- suppression never shadows ---

  /** Every recording of a key nobody else records, and every one still owed, follows an
      accepted delivery of it. */
  lemma {:induction false} RecordsWereDelivered(cfg: Config, actions: seq<Action>, key: Key)
    requires forall a :: a in actions && a.Elsewhere? ==> a.key != key
    ensures (exists r :: r in Run(cfg, actions).records && r.key == key) || Owes(Run(cfg, actions).tasks, key) ==>
      Deliveries(cfg, actions, key) >= 1
  {
    hide After, IsDuplicate;
    if actions != [] {
      var before, a := actions[..|actions| - 1], actions[|actions| - 1];
      RecordsWereDelivered(cfg, before, key);
      assert a in actions;
      var s, t := Run(cfg, before), Run(cfg, actions);
      if r :| r in t.records && r.key == key && r !in s.records {
        assert s.tasks[a.task] == Recording(key);
      }
      if u :| u in t.tasks && t.tasks[u] == Recording(key) && !Owes(s.tasks, key) {
        assert DeliversKey(s, a, key);
      }
    }
  }

  /** A key is held back only if the provider accepted it before, and that was recorded
      less than the TTL ago: in every interleaving, overlapping or not, by any clock. */
  lemma NeverShadowed(cfg: Config, actions: seq<Action>, a: Action)
    requires a.Check? && Suppressed(cfg, Run(cfg, actions), a)
    requires forall b :: b in actions && b.Elsewhere? ==> b.key != a.key
    ensures Deliveries(cfg, actions, a.key) >= 1
    ensures exists r :: r in Run(cfg, actions).records && r.key == a.key && Since(a.now, r.time) < cfg.ttl
  {
    hide After, Accepted, Deliveries, Run;
    DuplicateWasRecorded(cfg, Run(cfg, actions).records, a.now, a.key);
    RecordsWereDelivered(cfg, actions, a.key);
  }

  // --- retries within one window, after any history ---

  /** The clock readings of `more` lie in one window, and fewer windows than the cap
      holds are started meanwhile. What `before` did does not matter. */
  ghost predicate OneWindow(cfg: Config, before: seq<Action>, more: seq<Action>, start: nat) {
    && Clock(before) < start + cfg.ttl
    && (forall a :: a in more && !a.Answer? ==> start <= a.now < start + cfg.ttl)
    && |Accepted(cfg, Run(cfg, before + more).records)| - |Accepted(cfg, Run(cfg, before).records)| <= cfg.maxEntries
  }

  lemma {:induction false} ClockWithin(before: seq<Action>, more: seq<Action>, end: nat)
    requires Clock(before) < end && forall a :: a in more && !a.Answer? ==> a.now < end
    ensures Clock(before + more) < end
  {
    if more == [] {
      assert before + more == before;
    } else {
      var m := more[..|more| - 1];
      assert (before + more)[..|before + more| - 1] == before + m && more[|more| - 1] in more;
      ClockWithin(before, m, end);
    }
  }

  /** What a run adds to the windows: none before `start`, and never fewer than before. */
  ghost predicate GrownBy(old0: seq<Record>, new0: seq<Record>, start: nat) {
    old0 <= new0 && forall i :: |old0| <= i < |new0| ==> start <= new0[i].time
  }

  lemma GainOne(cfg: Config, rs: seq<Record>, r: Record)
    ensures Accepted(cfg, rs + [r]) == Accepted(cfg, rs) + Gained(cfg, After(cfg, rs), r)
  {
    assert (rs + [r])[..|rs|] == rs;
  }

  lemma {:induction false} WindowsGrow(cfg: Config, before: seq<Action>, more: seq<Action>, start: nat)
    requires forall a :: a in more && !a.Answer? ==> start <= a.now
    ensures GrownBy(Accepted(cfg, Run(cfg, before).records), Accepted(cfg, Run(cfg, before + more).records), start)
  {
    hide After, IsDuplicate, Accepted;
    if more == [] {
      assert before + more == before;
    } else {
      var m, a := more[..|more| - 1], more[|more| - 1];
      assert (before + more)[..|before + more| - 1] == before + m && a in more;
      WindowsGrow(cfg, before, m, start);
      var s, t := Run(cfg, before + m), Run(cfg, before + more);
      if t.records != s.records {
        GainOne(cfg, s.records, t.records[|s.records|]);
      }
    }
  }

  /** Inside one window a key that may be tried has started no window since `before`. */
  lemma NoWindowSince(cfg: Config, before: seq<Action>, more: seq<Action>, start: nat, key: Key)
    requires cfg.ttl > 0 && Timely(before + more) && OneWindow(cfg, before, more, start)
    requires !IsDuplicate(cfg, After(cfg, Run(cfg, before + more).records), Clock(before + more), key)
    ensures Windows(Accepted(cfg, Run(cfg, before + more).records), key)
         == Windows(Accepted(cfg, Run(cfg, before).records), key)
  {
    hide After, Accepted, IsDuplicate, Run, Timely;
    var rs, now := Run(cfg, before + more).records, Clock(before + more);
    var a, b := Accepted(cfg, Run(cfg, before).records), Accepted(cfg, rs);
    WindowsGrow(cfg, before, more, start);
    RecordsTimely(cfg, before + more);
    ClockWithin(before, more, start + cfg.ttl);
    forall i: nat | |a| <= i < |b| ensures b[i].key != key {
      if b[i].key == key {
        DedupWindow.WindowIsReported(cfg, rs, now, i);
      }
    }
    SameWindows(a, b, key);
  }

  lemma {:induction false} SameWindows(a: seq<Record>, b: seq<Record>, key: Key)
    requires a <= b && forall i :: |a| <= i < |b| ==> b[i].key != key
    ensures Windows(b, key) == Windows(a, key)
  {
    if |b| == |a| {
      assert a == b;
    } else {
      SameWindows(a, b[..|b| - 1], key);
    }
  }

  lemma OneWindowShrinks(cfg: Config, before: seq<Action>, more: seq<Action>, start: nat)
    requires more != [] && OneWindow(cfg, before, more, start)
    ensures OneWindow(cfg, before, more[..|more| - 1], start)
  {
    hide After, Accepted, Do;
    var m, a := before + more[..|more| - 1], more[|more| - 1];
    assert before + more == m + [a];
    WindowsGrow(cfg, m, [a], 0);
  }

  /** Within one window and the cap, however it is retried and interleaved with other
      keys, and whatever came before, a key whose deliveries do not overlap is delivered
      at most once more. */
  lemma {:induction false} AtMostOneDelivery(cfg: Config, before: seq<Action>, more: seq<Action>, start: nat, key: Key)
    requires cfg.ttl > 0 && Timely(before + more) && OneWindow(cfg, before, more, start)
    requires Fits(cfg, Run(cfg, before), Clock(before), key) && Sequential(cfg, before, more, key)
    ensures Deliveries(cfg, before + more, key) <= Deliveries(cfg, before, key) + 1
  {
    hide After, Accepted, IsDuplicate, Fits, OneWindow;
    if more == [] {
      assert before + more == before;
    } else {
      var m, a := more[..|more| - 1], more[|more| - 1];
      assert (before + more)[..|before + more| - 1] == before + m;
      OneWindowShrinks(cfg, before, more, start);
      AtMostOneDelivery(cfg, before, m, start, key);
      if DeliversKey(Run(cfg, before + m), a, key) {
        SequentialRun(cfg, before, m, key);
        FirstOfWindow(cfg, before, m, start, key, a.task);
      }
    }
  }

  lemma FirstOfWindow(cfg: Config, before: seq<Action>, m: seq<Action>, start: nat, key: Key, t: nat)
    requires cfg.ttl > 0 && Timely(before + m) && OneWindow(cfg, before, m, start)
    requires var s := Run(cfg, before + m);
      Fits(cfg, s, Clock(before + m), key) && t in s.tasks && s.tasks[t] == Delivering(key)
    ensures Started(cfg, Run(cfg, before + m), key) <= Started(cfg, Run(cfg, before), key)
  {
    hide After, Accepted, IsDuplicate, OneWindow, Run, Timely;
    var s := Run(cfg, before + m);
    assert Busy(s.tasks, key) && !Owes(s.tasks, key);
    NoWindowSince(cfg, before, m, start, key);
  }

  /** All attempts for `key` are made by one task, one after the other. */
  ghost predicate Owned(actions: seq<Action>, key: Key, task: nat) {
    && (forall a :: a in actions && a.Check? && a.key == key ==> a.task == task)
    && (forall a :: a in actions && a.Elsewhere? ==> a.key != key)
  }

  /** Only `task` may be busy with the key. */
  ghost predicate OnlyBusy(tasks: map<nat, Task>, key: Key, task: nat) {
    forall t :: t in tasks && tasks[t].key == key ==> t == task
  }

  lemma OwnedStep(cfg: Config, s: System, a: Action, key: Key, task: nat)
    requires OnlyBusy(s.tasks, key, task) && Owned([a], key, task)
    ensures OnlyBusy(Do(cfg, s, a).tasks, key, task)
    ensures a.Check? && a.key == key && Attempted(cfg, s, a) ==> !Busy(s.tasks, key)
  {
    assert a in [a];
  }

  lemma {:induction false} OwnedIsSequential(cfg: Config, before: seq<Action>, more: seq<Action>, key: Key, task: nat)
    requires Owned(more, key, task) && !Busy(Run(cfg, before).tasks, key)
    ensures Sequential(cfg, before, more, key)
    ensures OnlyBusy(Run(cfg, before + more).tasks, key, task)
  {
    hide Do, Attempted;
    if more == [] {
      assert before + more == before;
    } else {
      var m, a := more[..|more| - 1], more[|more| - 1];
      assert (before + more)[..|before + more| - 1] == before + m && a in more;
      OwnedIsSequential(cfg, before, m, key, task);
      OwnedStep(cfg, Run(cfg, before + m), a, key, task);
    }
  }

  /** The devices of one notification are distinct, each has its own task, and delivery to
      device `i` is not under way yet: so its attempts follow one another. */
  ghost predicate OneByOne(cfg: Config, before: seq<Action>, more: seq<Action>, keys: seq<Key>, i: nat)
    requires i < |keys|
  {
    && (forall j, k :: 0 <= j < k < |keys| ==> keys[j] != keys[k])
    && (forall a :: a in more && a.Check? && a.key in keys ==> a.task < |keys| && keys[a.task] == a.key)
    && !Busy(Run(cfg, before).tasks, keys[i])
  }

  /** One event notification reaches a gateway with any history, is retried, and its
      per-device steps interleave in any way, with any traffic on other keys. If the
      attempts for a device follow one another within one window, it gets at most one
      accepted delivery more; and, overlapping or not, it is held back only if it had one. */
  lemma RetryIdempotence(cfg: Config, before: seq<Action>, more: seq<Action>, keys: seq<Key>, start: nat, i: nat)
    requires i < |keys| && forall a :: a in more && a.Elsewhere? ==> a.key !in keys
    ensures OneByOne(cfg, before, more, keys, i) ==>
      cfg.ttl > 0 && Timely(before + more) && OneWindow(cfg, before, more, start) ==>
        Deliveries(cfg, before + more, keys[i]) <= Deliveries(cfg, before, keys[i]) + 1
    ensures (forall a :: a in before && a.Elsewhere? ==> a.key != keys[i]) ==>
      forall t: nat, now: nat :: Suppressed(cfg, Run(cfg, before + more), Check(t, now, keys[i])) ==>
        Deliveries(cfg, before + more, keys[i]) >= 1
  {
    hide After, IsDuplicate, Deliveries, Run, Timely, OneWindow;
    forall t: nat, now: nat | Suppressed(cfg, Run(cfg, before + more), Check(t, now, keys[i]))
      && forall a :: a in before && a.Elsewhere? ==> a.key != keys[i]
      ensures Deliveries(cfg, before + more, keys[i]) >= 1
    {
      NeverShadowed(cfg, before + more, Check(t, now, keys[i]));
    }
    if OneByOne(cfg, before, more, keys, i) && cfg.ttl > 0 && Timely(before + more) {
      OwnedIsSequential(cfg, before, more, keys[i], i);
      IdleFits(cfg, Run(cfg, before), Clock(before), keys[i]);
      if OneWindow(cfg, before, more, start) {
        AtMostOneDelivery(cfg, before, more, start, keys[i]);
      }
    }
  }

  // --- why overlapping deliveries are excluded ---

  /** After any history: if a delivery is tried while another task is still delivering the
      same key, both can be accepted, whatever the clock says. */
  lemma OverlapDeliversTwice(cfg: Config, past: seq<Action>, t: nat, a: Action)
    requires Attempted(cfg, Run(cfg, past), a)
    requires t in Run(cfg, past).tasks && Run(cfg, past).tasks[t] == Delivering(a.key)
    ensures var answers := [Answer(t, Delivered)] + [Answer(a.task, Delivered)];
      Deliveries(cfg, past + [a] + answers, a.key) == Deliveries(cfg, past, a.key) + 2
  {
    hide After, IsDuplicate;
    var checked := past + [a];
    var answered := checked + [Answer(t, Delivered)];
    var all := answered + [Answer(a.task, Delivered)];
    assert past + [a] + ([Answer(t, Delivered)] + [Answer(a.task, Delivered)]) == all;
    assert checked[..|past|] == past && answered[..|checked|] == checked && all[..|answered|] == answered;
    assert DeliversKey(Run(cfg, checked), Answer(t, Delivered), a.key);
    assert DeliversKey(Run(cfg, answered), Answer(a.task, Delivered), a.key);
    assert Deliveries(cfg, checked, a.key) == Deliveries(cfg, past, a.key);
    assert Deliveries(cfg, answered, a.key) == Deliveries(cfg, checked, a.key) + 1;
  }
}
