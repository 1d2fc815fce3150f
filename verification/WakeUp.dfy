/** The long poll: any number of waiting polls and enqueuers around one queue.
    Taken from the runtime: a registered waiter is woken by every later notify. */
module WakeUp {
  import opened Prelude
  import opened Api
  import opened QueueSpec
  import opened QueueRuns
  import QueueLedger
  import QueuePoll
  import opened QueueOvertaking

  /** A poll registers, checks the queue once, and waits if the check found
      nothing. `seen` is how many entries had been enqueued at its check, `running`
      the entries that were out on a lease after it. */
  datatype Waiter = Registered(notified: bool) | Waiting(notified: bool, seen: nat, running: set<nat>)

  /** `inserted` names the entry each enqueuer has put in but not yet announced. */
  datatype System = System(ops: seq<Op>, waiters: map<nat, Waiter>, inserted: map<nat, nat>)

  datatype Action =
    | Register(waiter: nat)
    | Check(waiter: nat, now: nat, requested: Option<nat>)
    | Wake(waiter: nat)
    | TimeOut(waiter: nat)
    | Insert(enqueuer: nat, now: nat, payload: Value, key: Option<Device>)
    | Notify(enqueuer: nat)
    | Acknowledge(ids: seq<nat>)

  /** A poll request asks for 100 entries unless it says otherwise, and for 1 to 1000. */
  function PollMax(requested: Option<nat>): (max: nat)
    ensures requested.None? ==> max == 100
    ensures forall n :: requested == Some(n) && 1 <= n <= 1000 ==> max == n
    ensures forall n :: requested == Some(n) && n < 1 ==> max == 1
    ensures forall n :: requested == Some(n) && n > 1000 ==> max == 1000
  {
    match requested
    case None => 100
    case Some(n) => if n < 1 then 1 else Min(n, 1000)
  }

  function Notified(w: Waiter): Waiter {
    if w.Registered? then Registered(true) else Waiting(true, w.seen, w.running)
  }

  /** One atomic step; a step that is not possible in `s` changes nothing. */
  function Do(cfg: Config, s: System, a: Action): System {
    match a
    case Register(w) =>
      if w in s.waiters then s else s.(waiters := s.waiters[w := Registered(false)])
    case Check(w, now, requested) =>
      if w !in s.waiters || !s.waiters[w].Registered? then s
      else
        var q, max := After(cfg, s.ops), PollMax(requested);
        var ops := s.ops + [Poll(now, max)];
        if Batch(cfg, q, now, max) != [] then System(ops, s.waiters - {w}, s.inserted)
        else
          var leased := Take(cfg, q, now, max).leased.Keys;
          System(ops, s.waiters[w := Waiting(s.waiters[w].notified, q.nextId, leased)], s.inserted)
    case Wake(w) =>
      if w in s.waiters && s.waiters[w].Waiting? && s.waiters[w].notified then s.(waiters := s.waiters - {w}) else s
    case TimeOut(w) =>
      if w in s.waiters && s.waiters[w].Waiting? then s.(waiters := s.waiters - {w}) else s
    case Insert(p, now, payload, key) =>
      if p in s.inserted then s
      else System(s.ops + [Arrive(now, payload, key)], s.waiters, s.inserted[p := After(cfg, s.ops).nextId])
    case Notify(p) =>
      if p !in s.inserted then s
      else System(s.ops, map w | w in s.waiters :: Notified(s.waiters[w]), s.inserted - {p})
    case Acknowledge(ids) => s.(ops := s.ops + [Settle(ids)])
  }

  function Run(cfg: Config, actions: seq<Action>): System {
    if actions == [] then System([], map[], map[])
    else Do(cfg, Run(cfg, actions[..|actions| - 1]), actions[|actions| - 1])
  }

  ghost predicate Announcing(inserted: map<nat, nat>, id: nat) {
    exists p :: p in inserted && inserted[p] == id
  }

  predicate Asleep(w: Waiter) {
    w.Waiting? && !w.notified
  }

  /** Whatever arrived since an un-notified waiter looked is about to be announced. */
  ghost predicate NoneMissed(cfg: Config, s: System) {
    forall w :: w in s.waiters && Asleep(s.waiters[w]) ==>
      && s.waiters[w].seen <= After(cfg, s.ops).nextId
      && (forall id :: s.waiters[w].seen <= id < After(cfg, s.ops).nextId ==> Announcing(s.inserted, id))
  }

  lemma NextIdGrows(cfg: Config, ops: seq<Op>, op: Op)
    ensures After(cfg, ops + [op]).nextId == After(cfg, ops).nextId + if op.Arrive? then 1 else 0
  {
    assert (ops + [op])[..|ops|] == ops;
  }

  lemma InsertMissesNone(cfg: Config, s: System, a: Action)
    requires NoneMissed(cfg, s) && a.Insert? && a.enqueuer !in s.inserted
    ensures NoneMissed(cfg, Do(cfg, s, a))
  {
    hide After, Batch;
    var t, n := Do(cfg, s, a), After(cfg, s.ops).nextId;
    NextIdGrows(cfg, s.ops, Arrive(a.now, a.payload, a.key));
    assert t.inserted[a.enqueuer] == n;
    forall id | Announcing(s.inserted, id) ensures Announcing(t.inserted, id) {
      var q :| q in s.inserted && s.inserted[q] == id;
      assert t.inserted[q] == id;
    }
  }

  lemma NotifyMissesNone(cfg: Config, s: System, a: Action)
    requires NoneMissed(cfg, s) && a.Notify? && a.enqueuer in s.inserted
    ensures NoneMissed(cfg, Do(cfg, s, a))
  {
    hide After, Batch;
    assert forall w :: w in Do(cfg, s, a).waiters ==> !Asleep(Do(cfg, s, a).waiters[w]);
  }

  lemma StepMissesNone(cfg: Config, s: System, a: Action)
    requires NoneMissed(cfg, s)
    ensures NoneMissed(cfg, Do(cfg, s, a))
  {
    hide Announcing, After, Batch;
    match a
    case Check(w, now, requested) => NextIdGrows(cfg, s.ops, Poll(now, PollMax(requested)));
    case Acknowledge(ids) => NextIdGrows(cfg, s.ops, Settle(ids));
    case Insert(p, now, payload, key) =>
      if p !in s.inserted {
        InsertMissesNone(cfg, s, a);
      }
    case Notify(p) =>
      if p in s.inserted {
        NotifyMissesNone(cfg, s, a);
      }
    case _ =>
  }

  /** No lost wake-up: in every run, if a registered waiter found nothing and has not
      been notified, every entry pending since its check belongs to an enqueuer that
      is still between its insert and its notify. */
  lemma {:induction false} NoLostWakeUp(cfg: Config, actions: seq<Action>)
    ensures NoneMissed(cfg, Run(cfg, actions))
    ensures var s := Run(cfg, actions);
      forall w, e :: w in s.waiters && Asleep(s.waiters[w]) && e in After(cfg, s.ops).pending
        ==> e.id < s.waiters[w].seen || Announcing(s.inserted, e.id)
  {
    hide Do;
    if actions != [] {
      NoLostWakeUp(cfg, actions[..|actions| - 1]);
      StepMissesNone(cfg, Run(cfg, actions[..|actions| - 1]), actions[|actions| - 1]);
    }
    var s := Run(cfg, actions);
    RunInv(cfg, s.ops);
  }

  // --- exactly what a sleeper can miss ---

  /** A check that finds nothing empties the buffer: what is still held is out on lease. */
  lemma EmptyCheck(cfg: Config, q: State, now: nat, max: nat)
    requires max >= 1 && Batch(cfg, q, now, max) == []
    requires Kept(ViewAt(cfg, q, now), Pool(cfg, q, now)) == Kept(ViewAt(cfg, q, now), Expired(q, now) + q.pending)
    ensures Take(cfg, q, now, max).pending == []
  {
    hide Expired, Lent, Retain;
    var v, pool := ViewAt(cfg, q, now), Pool(cfg, q, now);
    assert Kept(v, pool) == [];
    NothingKept(v, pool, max);
  }

  lemma {:induction false} NothingKept(v: View, es: seq<Entry>, max: nat)
    requires max >= 1 && Kept(v, es) == []
    ensures Scan(v, max, es) == |es|
  {
    if es != [] {
      NothingKept(v, es[1..], max);
    }
  }

  /** Whatever is held while a waiter sleeps is about to be announced, or was out on a
      running lease when the waiter looked. */
  ghost predicate OnlyLeasesMissed(cfg: Config, s: System) {
    forall w, id :: w in s.waiters && Asleep(s.waiters[w]) && id in Held(After(cfg, s.ops)) ==>
      id in s.waiters[w].running || Announcing(s.inserted, id)
  }

  lemma HeldAfter(cfg: Config, ops: seq<Op>, op: Op)
    ensures Held(After(cfg, ops + [op])) <=
      Held(After(cfg, ops)) + (if op.Arrive? then {After(cfg, ops).nextId} else {})
  {
    QueueLedger.StepLedger(cfg, ops, op);
  }

  lemma CheckMissesOnlyLeases(cfg: Config, s: System, a: Action)
    requires OnlyLeasesMissed(cfg, s) && a.Check?
    ensures OnlyLeasesMissed(cfg, Do(cfg, s, a))
  {
    hide After, Batch, Take, Held, Announcing;
    var q, max := After(cfg, s.ops), PollMax(a.requested);
    HeldAfter(cfg, s.ops, Poll(a.now, max));
    AfterPolls(cfg, s.ops, a.now, max);
    if Batch(cfg, q, a.now, max) == [] {
      EmptyCheckHolds(cfg, s.ops, a.now, max);
    }
  }

  lemma EmptyCheckHolds(cfg: Config, ops: seq<Op>, now: nat, max: nat)
    requires max >= 1 && Batch(cfg, After(cfg, ops), now, max) == []
    ensures var t := Take(cfg, After(cfg, ops), now, max); Held(t) == t.leased.Keys
  {
    hide After, Take;
    RunInv(cfg, ops);
    PoolFacts(cfg, After(cfg, ops), Log(ops), now);
    EmptyCheck(cfg, After(cfg, ops), now, max);
  }

  lemma StepMissesOnlyLeases(cfg: Config, s: System, a: Action)
    requires OnlyLeasesMissed(cfg, s)
    ensures OnlyLeasesMissed(cfg, Do(cfg, s, a))
  {
    hide After, Batch, Held, Take, Announcing;
    match a
    case Check(w, now, requested) => CheckMissesOnlyLeases(cfg, s, a);
    case Acknowledge(ids) => HeldAfter(cfg, s.ops, Settle(ids));
    case Insert(p, now, payload, key) =>
      HeldAfter(cfg, s.ops, Arrive(now, payload, key));
      if p !in s.inserted {
        AnnouncedMore(s.inserted, p, After(cfg, s.ops).nextId);
      }
    case Notify(p) =>
      if p in s.inserted {
        assert forall w :: w in Do(cfg, s, a).waiters ==> !Asleep(Do(cfg, s, a).waiters[w]);
      }
    case _ =>
  }

  lemma AnnouncedMore(inserted: map<nat, nat>, p: nat, id: nat)
    requires p !in inserted
    ensures Announcing(inserted[p := id], id)
    ensures forall i :: Announcing(inserted, i) ==> Announcing(inserted[p := id], i)
  {
    assert inserted[p := id][p] == id;
    forall i | Announcing(inserted, i) ensures Announcing(inserted[p := id], i) {
      var q :| q in inserted && inserted[q] == i;
      assert inserted[p := id][q] == i;
    }
  }

  lemma {:induction false} SleepersMissOnlyLeases(cfg: Config, actions: seq<Action>)
    ensures OnlyLeasesMissed(cfg, Run(cfg, actions))
  {
    hide Do, OnlyLeasesMissed;
    if actions == [] {
      NobodySleeps(cfg);
    } else {
      SleepersMissOnlyLeases(cfg, actions[..|actions| - 1]);
      StepMissesOnlyLeases(cfg, Run(cfg, actions[..|actions| - 1]), actions[|actions| - 1]);
    }
  }

  lemma NobodySleeps(cfg: Config)
    ensures OnlyLeasesMissed(cfg, System([], map[], map[]))
  {
  }

  /** Entry `id` would be handed out now by a poll that asks for enough. */
  ghost predicate Due(cfg: Config, q: State, now: nat, id: nat) {
    exists max: nat :: id in Ids(Batch(cfg, q, now, max))
  }

  /** The exact extent of what a wait can miss. While a waiter sleeps, an entry that no
      enqueuer is about to announce is due iff it was out on a running lease when the
      waiter looked, is still held, live and fresh, and its lease is over. */
  lemma MissedExactly(cfg: Config, actions: seq<Action>, w: nat, now: nat, id: nat)
    requires var s := Run(cfg, actions); w in s.waiters && Asleep(s.waiters[w]) && !Announcing(s.inserted, id)
    ensures var s := Run(cfg, actions);
      Due(cfg, After(cfg, s.ops), now, id) <==>
        id in s.waiters[w].running && QueuePoll.Deliverable(cfg, s.ops, now, id)
  {
    hide Run, After, Batch, QueuePoll.InFront;
    SleepersMissOnlyLeases(cfg, actions);
    DueExactly(cfg, Run(cfg, actions).ops, now, id);
  }

  lemma DueExactly(cfg: Config, ops: seq<Op>, now: nat, id: nat)
    ensures Due(cfg, After(cfg, ops), now, id) <==> QueuePoll.Deliverable(cfg, ops, now, id)
  {
    hide After, Batch, QueuePoll.InFront, QueuePoll.Deliverable;
    if max: nat :| id in Ids(Batch(cfg, After(cfg, ops), now, max)) {
      QueuePoll.BatchExactly(cfg, ops, now, max, id);
    }
    QueuePoll.BatchExactly(cfg, ops, now, |QueuePoll.InFront(cfg, ops, now, id)| + 1, id);
  }

  // --- what a check answers ---

  /** A check is one poll of the queue. It answers the request at once iff anything is due,
      and then with as many entries as were asked for, within 1 to 1000, or as are due;
      those that go out are those with the fewest due entries ahead of them. */
  lemma CheckExactly(cfg: Config, actions: seq<Action>, w: nat, now: nat, requested: Option<nat>)
    requires var s := Run(cfg, actions); w in s.waiters && s.waiters[w].Registered?
    ensures var s := Run(cfg, actions);
      var t := Do(cfg, s, Check(w, now, requested));
      var due := QueuePoll.AllDeliverable(cfg, s.ops, now);
      var asked := match requested case None => 100 case Some(n) => if n == 0 then 1 else if n > 1000 then 1000 else n;
      var batch := Batch(cfg, After(cfg, s.ops), now, asked);
      && t.ops == s.ops + [Poll(now, asked)]
      && (w in t.waiters <==> due == {}) && (w in t.waiters ==> t.waiters[w].Waiting?)
      && |batch| == Min(asked, |due|)
      && (forall id :: id in Ids(batch) <==>
            QueuePoll.Deliverable(cfg, s.ops, now, id) && |QueuePoll.InFront(cfg, s.ops, now, id)| < asked)
  {
    hide Run, After, Batch, QueuePoll.InFront, QueuePoll.Deliverable, QueuePoll.AllDeliverable;
    var s, max := Run(cfg, actions), PollMax(requested);
    QueuePoll.BatchInOrder(cfg, s.ops, now, max);
    forall id: nat
      ensures id in Ids(Batch(cfg, After(cfg, s.ops), now, max)) <==>
        QueuePoll.Deliverable(cfg, s.ops, now, id) && |QueuePoll.InFront(cfg, s.ops, now, id)| < max
    {
      QueuePoll.BatchExactly(cfg, s.ops, now, max, id);
    }
  }

  // --- what does not wake a waiter ---

  /** One event is handed to the first poller. */
  function FirstPoll(payload: Value): seq<Action> {
    [Insert(0, 0, payload, None)] + [Notify(0)] + [Register(1)] + [Check(1, 0, Some(1))]
  }

  /** The second poller then finds nothing and waits. */
  function SecondPollerWaits(payload: Value): seq<Action> {
    FirstPoll(payload) + [Register(2)] + [Check(2, 0, Some(1))]
  }

  lemma RunStep(cfg: Config, actions: seq<Action>, a: Action)
    ensures Run(cfg, actions + [a]) == Do(cfg, Run(cfg, actions), a)
  {
    assert (actions + [a])[..|actions|] == actions;
  }

  /** Only enqueues wake: when the first poller's lease runs out, the entry is due
      again, yet the second poller sleeps on with no enqueuer under way. */
  lemma ExpiryDoesNotWake(cfg: Config, payload: Value)
    requires 0 < cfg.lease < cfg.entryTtl && cfg.maxEntries >= 1
    ensures var s := Run(cfg, SecondPollerWaits(payload));
      && s.waiters == map[2 := Waiting(false, 1, {0})] && s.inserted == map[]
      && IdSeq(Batch(cfg, After(cfg, s.ops), cfg.lease, 1)) == [0]
  {
    hide After, Batch, IdSeq, FirstPoll;
    var a, p, first := Arrive(0, payload, None), Poll(0, 1), FirstPoll(payload);
    FirstPollRuns(cfg, payload);
    SecondTake(cfg, payload);
    RunStep(cfg, first, Register(2));
    RunStep(cfg, first + [Register(2)], Check(2, 0, Some(1)));
    assert Run(cfg, first + [Register(2)]) == System([a] + [p], map[2 := Registered(false)], map[]);
    assert map[2 := Registered(false)][2 := Waiting(false, 1, {0})] == map[2 := Waiting(false, 1, {0})];
  }

  lemma FirstPollRuns(cfg: Config, payload: Value)
    requires 0 < cfg.lease < cfg.entryTtl && cfg.maxEntries >= 1
    ensures Run(cfg, FirstPoll(payload)) == System([Arrive(0, payload, None)] + [Poll(0, 1)], map[], map[])
  {
    hide Batch;
    var a, x := Arrive(0, payload, None), Insert(0, 0, payload, None);
    RunStep(cfg, [x], Notify(0));
    RunStep(cfg, [x] + [Notify(0)], Register(1));
    RunStep(cfg, [x] + [Notify(0)] + [Register(1)], Check(1, 0, Some(1)));
    assert [x][..0] == [] && [] + [a] == [a];
    assert Run(cfg, [x]) == System([a], map[], map[0 := 0]);
    assert Run(cfg, [x] + [Notify(0)]) == System([a], map[], map[]);
    assert Run(cfg, [x] + [Notify(0)] + [Register(1)]) == System([a], map[1 := Registered(false)], map[]);
    FirstTake(cfg, payload);
    assert map[1 := Registered(false)] - {1} == map[];
  }

  lemma FirstTake(cfg: Config, payload: Value)
    requires 0 < cfg.lease < cfg.entryTtl && cfg.maxEntries >= 1
    ensures var ops := [Arrive(0, payload, None)];
      && Batch(cfg, After(cfg, ops), 0, 1) != []
      && EventsOnly(Log(ops))
      && Inv(After(cfg, ops + [Poll(0, 1)]), Log(ops))
      && Looks(After(cfg, ops + [Poll(0, 1)]), [], map[0 := cfg.lease])
  {
    var a := Arrive(0, payload, None);
    ArriveOne(cfg, [], payload, [], map[]);
    assert [] + [a] == [a] && [] + [0] == [0];
    RunInv(cfg, [a]);
    NextLooks(cfg, After(cfg, [a]), Log([a]), [0], map[], 0, 1, [], [0], [], map[0 := cfg.lease]);
    AfterPolls(cfg, [a], 0, 1);
  }

  lemma SecondTake(cfg: Config, payload: Value)
    requires 0 < cfg.lease < cfg.entryTtl && cfg.maxEntries >= 1
    ensures var ops := [Arrive(0, payload, None)] + [Poll(0, 1)];
      && Batch(cfg, After(cfg, ops), 0, 1) == []
      && After(cfg, ops).nextId == 1
      && Take(cfg, After(cfg, ops), 0, 1).leased.Keys == {0}
      && IdSeq(Batch(cfg, After(cfg, ops + [Poll(0, 1)]), cfg.lease, 1)) == [0]
  {
    hide After, Batch, Take, Inv, EventsOnly, Looks;
    var ops := [Arrive(0, payload, None)];
    FirstTake(cfg, payload);
    AfterPolls(cfg, ops + [Poll(0, 1)], 0, 1);
    OneEntered(cfg, payload);
    DueAgain(cfg, After(cfg, ops + [Poll(0, 1)]), Log(ops));
  }

  lemma OneEntered(cfg: Config, payload: Value)
    ensures After(cfg, [Arrive(0, payload, None)] + [Poll(0, 1)]).nextId == 1
  {
    var a := Arrive(0, payload, None);
    NextIdGrows(cfg, [], a);
    NextIdGrows(cfg, [a], Poll(0, 1));
    assert [] + [a] == [a];
  }

  lemma DueAgain(cfg: Config, s: State, log: seq<Entry>)
    requires 0 < cfg.lease < cfg.entryTtl
    requires Inv(s, log) && EventsOnly(log) && Looks(s, [], map[0 := cfg.lease])
    ensures Batch(cfg, s, 0, 1) == []
    ensures Take(cfg, s, 0, 1).leased.Keys == {0}
    ensures IdSeq(Batch(cfg, Take(cfg, s, 0, 1), cfg.lease, 1)) == [0]
  {
    hide Batch, Take, Inv, EventsOnly;
    NextLooks(cfg, s, log, [], map[0 := cfg.lease], 0, 1, [], [], [], map[0 := cfg.lease]);
    LooksAfterPoll(cfg, Take(cfg, s, 0, 1), log, [], map[0 := cfg.lease], cfg.lease, 1, [0], [0], []);
  }
}
