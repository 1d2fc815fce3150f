/** One poll loop over the suppression cache and the relay: every delivery of every
    cycle is a task of Attempts, interleaved with whatever other tasks do. */
module PollLoop {
  import opened Prelude
  import opened Api
  import D = DedupSpec
  import DR = DedupRuns
  import DW = DedupWindow
  import opened Attempts
  import opened Suppression
  import opened Pipeline
  import opened Poller
  import R = Relay

  /** What other tasks do before the loop's check, before its provider answers, and
      before it records. */
  datatype Gap = Gap(beforeCheck: seq<Action>, beforeAnswer: seq<Action>, beforeRecord: seq<Action>)

  /** One delivery of the loop: the outside world, and the other tasks meanwhile. */
  datatype Stage = Stage(world: World, gap: Gap)

  /** The loop tried its provider: after how many steps it checked and after how many it
      was done, for which key, at what time, with what outcome and, if that was delivered,
      recorded when. */
  datatype Try = Try(pos: nat, end: nat, key: D.Key, now: nat, outcome: Outcome, recorded: nat)

  /** A delivery's steps (its own and the others'), what it met, and its try if any. */
  datatype Trace = Trace(steps: seq<Action>, looks: seq<R.Look>, tries: seq<Try>)

  /** None of these steps belongs to the loop. */
  ghost predicate Foreign(steps: seq<Action>, loop: nat) {
    forall a :: a in steps && !a.Elsewhere? ==> a.task != loop
  }

  ghost predicate ForeignGap(g: Gap, loop: nat) {
    Foreign(g.beforeCheck, loop) && Foreign(g.beforeAnswer, loop) && Foreign(g.beforeRecord, loop)
  }

  /** Only event notifications for configured apps pass through the cache. */
  predicate Consults(setup: Setup, n: Notification, device: Device) {
    device.appId in setup.apps && n.eventId.Some?
  }

  /** One delivery by the loop after the steps `past`. */
  function Deliver(side: R.Side, past: seq<Action>, loop: nat, n: Notification, device: Device, st: Stage): Trace {
    var w, first := st.world, st.gap.beforeCheck;
    var cache := DR.After(side.dedup, Run(side.dedup, past + first).records);
    var look := R.Look(cache, w);
    if !Consults(side.setup, n, device) then Trace(first, [look], [])
    else
      var key := EventKey(n.eventId.value, device);
      var checked := first + [Check(loop, w.check, key)];
      if D.IsDuplicate(side.dedup, cache, w.check, key) then Trace(checked, [look], [])
      else
        var answered := checked + st.gap.beforeAnswer + [Answer(loop, w.outcome)];
        var steps := if !w.outcome.Delivered? then answered
                     else answered + st.gap.beforeRecord + [Remember(loop, w.recorded)];
        Trace(steps, [look], [Try(|past + first|, |past + steps|, key, w.check, w.outcome, w.recorded)])
  }

  function DeliverAll(side: R.Side, past: seq<Action>, loop: nat, n: Notification, devices: seq<Device>,
                      sts: seq<Stage>): (r: Trace)
    requires |sts| == |devices|
  {
    if devices == [] then Trace([], [], [])
    else
      var k := |devices| - 1;
      var r := DeliverAll(side, past, loop, n, devices[..k], sts[..k]);
      var d := Deliver(side, past + r.steps, loop, n, devices[k], sts[k]);
      Trace(r.steps + d.steps, r.looks + d.looks, r.tries + d.tries)
  }

  function DeliverEntry(side: R.Side, past: seq<Action>, loop: nat, entry: PollEntry, sts: seq<Stage>): Trace
    requires |sts| == |DevicesOf(entry)|
  {
    if entry.notification.Unreadable? then Trace([], [], [])
    else DeliverAll(side, past, loop, entry.notification.notification, DevicesOf(entry), sts)
  }

  ghost predicate Staged(reply: seq<PollEntry>, sts: seq<seq<Stage>>, loop: nat) {
    && |sts| == |reply|
    && (forall i :: 0 <= i < |reply| ==> |sts[i]| == |DevicesOf(reply[i])|)
    && (forall i, j :: 0 <= i < |reply| && 0 <= j < |sts[i]| ==> ForeignGap(sts[i][j].gap, loop))
  }

  /** One cycle: the looks of each entry, all steps, and all tries. */
  ghost function DeliverReply(side: R.Side, past: seq<Action>, loop: nat, reply: seq<PollEntry>, sts: seq<seq<Stage>>)
      : (r: (seq<seq<R.Look>>, seq<Action>, seq<Try>))
    requires Staged(reply, sts, loop)
  {
    if reply == [] then ([], [], [])
    else
      var k := |reply| - 1;
      var r := DeliverReply(side, past, loop, reply[..k], sts[..k]);
      var e := DeliverEntry(side, past + r.1, loop, reply[k], sts[k]);
      (r.0 + [e.looks], r.1 + e.steps, r.2 + e.tries)
  }

  lemma {:induction false} LooksCover(side: R.Side, past: seq<Action>, loop: nat, n: Notification, devices: seq<Device>,
                                      sts: seq<Stage>)
    requires |sts| == |devices|
    ensures |DeliverAll(side, past, loop, n, devices, sts).looks| == |devices|
  {
    if devices != [] {
      LooksCover(side, past, loop, n, devices[..|devices| - 1], sts[..|devices| - 1]);
    }
  }

  lemma {:induction false} ReplyCovered(side: R.Side, past: seq<Action>, loop: nat, reply: seq<PollEntry>,
                                        sts: seq<seq<Stage>>)
    requires Staged(reply, sts, loop)
    ensures R.Covered(R.Cycle(side, reply, DeliverReply(side, past, loop, reply, sts).0))
  {
    hide DeliverAll, ForeignGap, R.DispositionOf;
    if reply != [] {
      var k := |reply| - 1;
      ReplyCovered(side, past, loop, reply[..k], sts[..k]);
      if reply[k].notification.Readable? {
        LooksCover(side, past + DeliverReply(side, past, loop, reply[..k], sts[..k]).1, loop,
                   reply[k].notification.notification, DevicesOf(reply[k]), sts[k]);
      }
      var r := DeliverReply(side, past, loop, reply[..k], sts[..k]).0;
      assert forall i :: 0 <= i < k ==> |r[i]| == |DevicesOf(reply[..k][i])|;
    }
  }

  // --- the whole deployment, seen from one poll loop ---

  datatype Params = Params(net: R.Params, side: R.Side, loop: nat)

  /** The relay's run so far, all steps on this instance's cache, and the loop's tries. */
  datatype State = State(net: seq<R.Action>, steps: seq<Action>, tries: seq<Try>)

  /** `Net` is anything on the network or at the queue side, other poll sides included;
      `Others` is anything else on this instance's cache. A cycle may take any response
      that was ever served, and its ack may arrive never, late, or many times. */
  datatype Event =
    | Net(action: R.Action)
    | Others(steps: seq<Action>)
    | Cycle(reply: seq<PollEntry>, sts: seq<seq<Stage>>)

  ghost function Do(ps: Params, s: State, e: Event): State {
    match e
    case Net(a) => s.(net := s.net + [a])
    case Others(steps) => if Foreign(steps, ps.loop) then s.(steps := s.steps + steps) else s
    case Cycle(reply, sts) =>
      if reply in R.Run(ps.net, s.net).replies && Staged(reply, sts, ps.loop) then
        var (looks, steps, tries) := DeliverReply(ps.side, s.steps, ps.loop, reply, sts);
        State(s.net + [R.Work(R.Cycle(ps.side, reply, looks))], s.steps + steps, s.tries + tries)
      else s
  }

  ghost function RunAll(ps: Params, events: seq<Event>): State {
    if events == [] then State([], [], [])
    else Do(ps, RunAll(ps, events[..|events| - 1]), events[|events| - 1])
  }

  // --- other tasks leave the loop and its keys alone ---

  function DeliveredIn(tries: seq<Try>, key: D.Key): nat {
    if tries == [] then 0
    else
      var last := tries[|tries| - 1];
      DeliveredIn(tries[..|tries| - 1], key) + if last.key == key && last.outcome.Delivered? then 1 else 0
  }

  /** The loop is between deliveries, and no other task is busy with `key`. */
  ghost predicate Idle(cfg: D.Config, steps: seq<Action>, loop: nat, key: D.Key) {
    loop !in Run(cfg, steps).tasks && OnlyBusy(Run(cfg, steps).tasks, key, loop)
  }

  /** What the loop is doing, if anything. */
  function Doing(s: System, loop: nat): Option<Task> {
    if loop in s.tasks then Some(s.tasks[loop]) else None
  }

  lemma ForeignStep(cfg: D.Config, s: System, a: Action, loop: nat, key: D.Key)
    requires OnlyBusy(s.tasks, key, loop) && Foreign([a], loop) && Owned([a], key, loop)
    ensures OnlyBusy(Attempts.Do(cfg, s, a).tasks, key, loop)
    ensures Doing(Attempts.Do(cfg, s, a), loop) == Doing(s, loop) && !DeliversKey(s, a, key)
  {
    assert a in [a];
  }

  lemma {:induction false} ForeignSteps(cfg: D.Config, past: seq<Action>, steps: seq<Action>, loop: nat, key: D.Key)
    requires OnlyBusy(Run(cfg, past).tasks, key, loop) && Foreign(steps, loop) && Owned(steps, key, loop)
    ensures OnlyBusy(Run(cfg, past + steps).tasks, key, loop)
    ensures Doing(Run(cfg, past + steps), loop) == Doing(Run(cfg, past), loop)
    ensures Deliveries(cfg, past + steps, key) == Deliveries(cfg, past, key)
  {
    hide Attempts.Do, DeliversKey;
    if steps == [] {
      assert past + steps == past;
    } else {
      var m, a := steps[..|steps| - 1], steps[|steps| - 1];
      assert (past + steps)[..|past + steps| - 1] == past + m && a in steps;
      ForeignSteps(cfg, past, m, loop, key);
      ForeignStep(cfg, Run(cfg, past + m), a, loop, key);
    }
  }

  lemma OwnStep(cfg: D.Config, past: seq<Action>, a: Action, key: D.Key)
    ensures Run(cfg, past + [a]) == Attempts.Do(cfg, Run(cfg, past), a)
    ensures Deliveries(cfg, past + [a], key)
         == Deliveries(cfg, past, key) + if DeliversKey(Run(cfg, past), a, key) then 1 else 0
  {
    assert (past + [a])[..|past|] == past;
  }

  // --- one delivery is one task ---

  lemma CheckedSteps(cfg: D.Config, at: seq<Action>, loop: nat, k: D.Key, now: nat, key: D.Key)
    requires Idle(cfg, at, loop, key) && !D.IsDuplicate(cfg, DR.After(cfg, Run(cfg, at).records), now, k)
    ensures var a, s := Check(loop, now, k), Run(cfg, at);
      && Attempted(cfg, s, a)
      && Run(cfg, at + [a]) == System(s.records, s.tasks[loop := Delivering(k)])
      && OnlyBusy(Run(cfg, at + [a]).tasks, key, loop)
      && Deliveries(cfg, at + [a], key) == Deliveries(cfg, at, key)
  {
    OwnStep(cfg, at, Check(loop, now, k), key);
  }

  lemma AnsweredSteps(cfg: D.Config, past: seq<Action>, loop: nat, k: D.Key, outcome: Outcome, key: D.Key)
    requires Doing(Run(cfg, past), loop) == Some(Delivering(k)) && OnlyBusy(Run(cfg, past).tasks, key, loop)
    ensures var after, s := past + [Answer(loop, outcome)], Run(cfg, past);
      && Run(cfg, after) ==
         System(s.records, if outcome.Delivered? then s.tasks[loop := Recording(k)] else s.tasks - {loop})
      && OnlyBusy(Run(cfg, after).tasks, key, loop)
      && Deliveries(cfg, after, key) == Deliveries(cfg, past, key) + if outcome.Delivered? && k == key then 1 else 0
  {
    OwnStep(cfg, past, Answer(loop, outcome), key);
  }

  lemma RecordedSteps(cfg: D.Config, past: seq<Action>, loop: nat, k: D.Key, now: nat, key: D.Key)
    requires Doing(Run(cfg, past), loop) == Some(Recording(k)) && OnlyBusy(Run(cfg, past).tasks, key, loop)
    ensures var after, s := past + [Remember(loop, now)], Run(cfg, past);
      && Run(cfg, after) == System(s.records + [D.Record(now, k)], s.tasks - {loop})
      && Idle(cfg, after, loop, key)
      && Deliveries(cfg, after, key) == Deliveries(cfg, past, key)
  {
    OwnStep(cfg, past, Remember(loop, now), key);
  }

  /** The steps of a delivery that was tried, after `at`. */
  function TriedSteps(at: seq<Action>, loop: nat, k: D.Key, w: World, g: Gap): seq<Action> {
    var answered := at + [Check(loop, w.check, k)] + g.beforeAnswer + [Answer(loop, w.outcome)];
    if w.outcome.Delivered? then answered + g.beforeRecord + [Remember(loop, w.recorded)] else answered
  }

  lemma TriedDelivery(cfg: D.Config, at: seq<Action>, loop: nat, k: D.Key, w: World, g: Gap, key: D.Key)
    requires Idle(cfg, at, loop, key) && !D.IsDuplicate(cfg, DR.After(cfg, Run(cfg, at).records), w.check, k)
    requires ForeignGap(g, loop) && Owned(g.beforeAnswer, key, loop)
    requires w.outcome.Delivered? ==> Owned(g.beforeRecord, key, loop)
    ensures var after := TriedSteps(at, loop, k, w, g);
      && Idle(cfg, after, loop, key)
      && Deliveries(cfg, after, key) == Deliveries(cfg, at, key) + (if w.outcome.Delivered? && k == key then 1 else 0)
      && (g.beforeAnswer == [] && g.beforeRecord == [] ==>
            var gained := if w.outcome.Delivered? then [D.Record(w.recorded, k)] else [];
            Run(cfg, after) == System(Run(cfg, at).records + gained, Run(cfg, at).tasks))
      && (w.outcome.Delivered? ==>
            var n := |after| - 1;
            after[n] == Remember(loop, w.recorded) && Doing(Run(cfg, after[..n]), loop) == Some(Recording(k)))
  {
    hide Run, Deliveries, DR.After, D.IsDuplicate;
    var checked := at + [Check(loop, w.check, k)];
    CheckedSteps(cfg, at, loop, k, w.check, key);
    ForeignSteps(cfg, checked, g.beforeAnswer, loop, key);
    var waited := checked + g.beforeAnswer;
    AnsweredSteps(cfg, waited, loop, k, w.outcome, key);
    var answered := waited + [Answer(loop, w.outcome)];
    assert g.beforeAnswer == [] ==> waited == checked;
    var tasks := Run(cfg, at).tasks;
    assert tasks[loop := Delivering(k)] - {loop} == tasks;
    assert tasks[loop := Delivering(k)][loop := Recording(k)] - {loop} == tasks;
    assert Run(cfg, at).records + [] == Run(cfg, at).records;
    if w.outcome.Delivered? {
      ForeignSteps(cfg, answered, g.beforeRecord, loop, key);
      RecordedSteps(cfg, answered + g.beforeRecord, loop, k, w.recorded, key);
      assert g.beforeRecord == [] ==> answered + g.beforeRecord == answered;
      assert (answered + g.beforeRecord + [Remember(loop, w.recorded)])[..|answered + g.beforeRecord|]
          == answered + g.beforeRecord;
    }
  }

  /** A delivery is suppressed by a check that leaves everything as it was. */
  lemma SuppressedDelivery(cfg: D.Config, at: seq<Action>, loop: nat, k: D.Key, now: nat, key: D.Key)
    requires Idle(cfg, at, loop, key) && D.IsDuplicate(cfg, DR.After(cfg, Run(cfg, at).records), now, k)
    ensures Run(cfg, at + [Check(loop, now, k)]) == Run(cfg, at)
    ensures Deliveries(cfg, at + [Check(loop, now, k)], key) == Deliveries(cfg, at, key)
  {
    OwnStep(cfg, at, Check(loop, now, k), key);
  }

  // --- the invariant of the loop ---

  /** Every try of the loop is a step of the run at which its provider was called, and
      the tries of `key` before it account for all its deliveries so far. It was over before
      the next try, and a delivered one ended with its recording. */
  ghost predicate Honored(cfg: D.Config, steps: seq<Action>, tries: seq<Try>, loop: nat, key: D.Key) {
    forall q :: 0 <= q < |tries| ==> HonoredAt(cfg, steps, tries, q, loop, key)
  }

  ghost predicate HonoredAt(cfg: D.Config, steps: seq<Action>, tries: seq<Try>, q: nat, loop: nat, key: D.Key)
    requires q < |tries|
  {
    var t := tries[q];
    && t.pos < |steps| && steps[t.pos] == Check(loop, t.now, t.key)
    && Attempted(cfg, Run(cfg, steps[..t.pos]), steps[t.pos])
    && Deliveries(cfg, steps[..t.pos], key) == DeliveredIn(tries[..q], key)
    && t.pos < t.end <= |steps| && (forall p :: 0 <= p < q ==> tries[p].end <= t.pos)
    && (t.outcome.Delivered? ==> EndsRecording(cfg, steps, t, loop))
  }

  ghost predicate EndsRecording(cfg: D.Config, steps: seq<Action>, t: Try, loop: nat)
    requires 0 < t.end <= |steps|
  {
    && steps[t.end - 1] == Remember(loop, t.recorded)
    && Doing(Run(cfg, steps[..t.end - 1]), loop) == Some(Recording(t.key))
  }

  ghost predicate LoopInv(cfg: D.Config, steps: seq<Action>, tries: seq<Try>, loop: nat, key: D.Key) {
    && Idle(cfg, steps, loop, key)
    && Honored(cfg, steps, tries, loop, key)
    && Deliveries(cfg, steps, key) == DeliveredIn(tries, key)
  }

  lemma HonoredStays(cfg: D.Config, steps: seq<Action>, more: seq<Action>, tries: seq<Try>, loop: nat, key: D.Key)
    requires Honored(cfg, steps, tries, loop, key)
    ensures Honored(cfg, steps + more, tries, loop, key)
  {
    hide Attempted, Run, Deliveries, DeliveredIn;
    forall q | 0 <= q < |tries| ensures HonoredAt(cfg, steps + more, tries, q, loop, key) {
      assert HonoredAt(cfg, steps, tries, q, loop, key);
      assert (steps + more)[..tries[q].pos] == steps[..tries[q].pos];
      assert (steps + more)[..tries[q].end - 1] == steps[..tries[q].end - 1];
    }
  }

  lemma HonoredMore(cfg: D.Config, steps: seq<Action>, tries: seq<Try>, t: Try, loop: nat, key: D.Key)
    requires Honored(cfg, steps, tries, loop, key)
    requires t.pos < |steps| && steps[t.pos] == Check(loop, t.now, t.key)
    requires Attempted(cfg, Run(cfg, steps[..t.pos]), steps[t.pos])
    requires Deliveries(cfg, steps[..t.pos], key) == DeliveredIn(tries, key)
    requires t.pos < t.end <= |steps| && forall p :: 0 <= p < |tries| ==> tries[p].end <= t.pos
    requires t.outcome.Delivered? ==> EndsRecording(cfg, steps, t, loop)
    ensures Honored(cfg, steps, tries + [t], loop, key)
  {
    hide Attempted, Run, Deliveries, DeliveredIn, EndsRecording;
    forall q | 0 <= q < |tries + [t]| ensures HonoredAt(cfg, steps, tries + [t], q, loop, key) {
      if q < |tries| {
        assert HonoredAt(cfg, steps, tries, q, loop, key);
        assert (tries + [t])[..q] == tries[..q];
      } else {
        assert (tries + [t])[..q] == tries;
      }
    }
  }

  lemma TriesAreOver(cfg: D.Config, steps: seq<Action>, tries: seq<Try>, loop: nat, key: D.Key)
    requires Honored(cfg, steps, tries, loop, key)
    ensures forall p :: 0 <= p < |tries| ==> tries[p].end <= |steps|
  {
    forall p | 0 <= p < |tries| ensures tries[p].end <= |steps| {
      assert HonoredAt(cfg, steps, tries, p, loop, key);
    }
  }

  lemma DeliveredMore(tries: seq<Try>, t: Try, key: D.Key)
    ensures DeliveredIn(tries + [t], key)
         == DeliveredIn(tries, key) + if t.key == key && t.outcome.Delivered? then 1 else 0
  {
    assert (tries + [t])[..|tries|] == tries;
  }

  lemma OwnedPart(a: seq<Action>, b: seq<Action>, key: D.Key, loop: nat)
    requires Owned(a + b, key, loop)
    ensures Owned(a, key, loop) && Owned(b, key, loop)
  {
    assert forall x :: x in a || x in b ==> x in a + b;
  }

  lemma OwnedGaps(first: seq<Action>, loop: nat, k: D.Key, w: World, g: Gap, key: D.Key)
    requires Owned(TriedSteps(first, loop, k, w, g), key, loop)
    ensures Owned(g.beforeAnswer, key, loop)
    ensures w.outcome.Delivered? ==> Owned(g.beforeRecord, key, loop)
  {
    hide Owned;
    var checked := first + [Check(loop, w.check, k)];
    var answered := checked + g.beforeAnswer + [Answer(loop, w.outcome)];
    if w.outcome.Delivered? {
      OwnedPart(answered + g.beforeRecord, [Remember(loop, w.recorded)], key, loop);
      OwnedPart(answered, g.beforeRecord, key, loop);
    }
    OwnedPart(checked + g.beforeAnswer, [Answer(loop, w.outcome)], key, loop);
    OwnedPart(checked, g.beforeAnswer, key, loop);
  }

  lemma OthersKeepLoop(cfg: D.Config, steps: seq<Action>, more: seq<Action>, tries: seq<Try>, loop: nat, key: D.Key)
    requires LoopInv(cfg, steps, tries, loop, key) && Foreign(more, loop) && Owned(more, key, loop)
    ensures LoopInv(cfg, steps + more, tries, loop, key)
  {
    hide Run, Deliveries, DeliveredIn, Honored;
    ForeignSteps(cfg, steps, more, loop, key);
    HonoredStays(cfg, steps, more, tries, loop, key);
  }

  lemma TryKeepsLoop(cfg: D.Config, at: seq<Action>, tries: seq<Try>, loop: nat, k: D.Key, w: World, g: Gap, key: D.Key)
    requires LoopInv(cfg, at, tries, loop, key)
    requires !D.IsDuplicate(cfg, DR.After(cfg, Run(cfg, at).records), w.check, k)
    requires ForeignGap(g, loop) && Owned(g.beforeAnswer, key, loop)
    requires w.outcome.Delivered? ==> Owned(g.beforeRecord, key, loop)
    ensures var after := TriedSteps(at, loop, k, w, g);
      LoopInv(cfg, after, tries + [Try(|at|, |after|, k, w.check, w.outcome, w.recorded)], loop, key)
  {
    hide Run, Deliveries, DeliveredIn, DR.After, D.IsDuplicate, Honored, Attempted;
    var after := TriedSteps(at, loop, k, w, g);
    var t := Try(|at|, |after|, k, w.check, w.outcome, w.recorded);
    TriedDelivery(cfg, at, loop, k, w, g, key);
    CheckedSteps(cfg, at, loop, k, w.check, key);
    assert after[..|at|] == at && after[|at|] == Check(loop, w.check, k);
    assert after == at + after[|at|..];
    assert forall p :: 0 <= p < |tries| ==> tries[p].end <= |at| by {
      TriesAreOver(cfg, at, tries, loop, key);
    }
    HonoredStays(cfg, at, after[|at|..], tries, loop, key);
    HonoredMore(cfg, after, tries, t, loop, key);
    DeliveredMore(tries, t, key);
  }

  lemma DeliverKeepsLoop(side: R.Side, past: seq<Action>, tries: seq<Try>, loop: nat, n: Notification, device: Device,
                         st: Stage, key: D.Key)
    requires LoopInv(side.dedup, past, tries, loop, key) && ForeignGap(st.gap, loop)
    requires var d := Deliver(side, past, loop, n, device, st); Owned(d.steps, key, loop)
    ensures var d := Deliver(side, past, loop, n, device, st);
      LoopInv(side.dedup, past + d.steps, tries + d.tries, loop, key)
  {
    hide LoopInv, Run, D.IsDuplicate, DR.After, Owned, Foreign;
    var cfg, first, w := side.dedup, st.gap.beforeCheck, st.world;
    var d, at := Deliver(side, past, loop, n, device, st), past + first;
    assert d.steps == first + d.steps[|first|..];
    OwnedPart(first, d.steps[|first|..], key, loop);
    OthersKeepLoop(cfg, past, first, tries, loop, key);
    assert tries + [] == tries;
    if Consults(side.setup, n, device) {
      var k := EventKey(n.eventId.value, device);
      if D.IsDuplicate(cfg, DR.After(cfg, Run(cfg, at).records), w.check, k) {
        CheckKeepsLoop(cfg, at, tries, loop, k, w.check, key);
        assert past + d.steps == at + [Check(loop, w.check, k)];
      } else {
        OwnedGaps(first, loop, k, w, st.gap, key);
        assert d.steps == TriedSteps(first, loop, k, w, st.gap);
        TryKeepsLoop(cfg, at, tries, loop, k, w, st.gap, key);
        assert past + d.steps == TriedSteps(at, loop, k, w, st.gap);
      }
    }
  }

  lemma CheckKeepsLoop(cfg: D.Config, at: seq<Action>, tries: seq<Try>, loop: nat, k: D.Key, now: nat, key: D.Key)
    requires LoopInv(cfg, at, tries, loop, key)
    requires D.IsDuplicate(cfg, DR.After(cfg, Run(cfg, at).records), now, k)
    ensures LoopInv(cfg, at + [Check(loop, now, k)], tries, loop, key)
  {
    hide Run, Deliveries, DeliveredIn, DR.After, D.IsDuplicate, Honored;
    SuppressedDelivery(cfg, at, loop, k, now, key);
    HonoredStays(cfg, at, [Check(loop, now, k)], tries, loop, key);
  }

  lemma {:induction false} AllKeepLoop(side: R.Side, past: seq<Action>, tries: seq<Try>, loop: nat, n: Notification,
                                       devices: seq<Device>, sts: seq<Stage>, key: D.Key)
    requires |sts| == |devices| && LoopInv(side.dedup, past, tries, loop, key)
    requires forall j :: 0 <= j < |sts| ==> ForeignGap(sts[j].gap, loop)
    requires Owned(DeliverAll(side, past, loop, n, devices, sts).steps, key, loop)
    ensures var d := DeliverAll(side, past, loop, n, devices, sts);
      LoopInv(side.dedup, past + d.steps, tries + d.tries, loop, key)
  {
    hide LoopInv, ForeignGap, Owned, Deliver;
    if devices == [] {
      assert past + [] == past && tries + [] == tries;
    } else {
      var k := |devices| - 1;
      var r := DeliverAll(side, past, loop, n, devices[..k], sts[..k]);
      var d := Deliver(side, past + r.steps, loop, n, devices[k], sts[k]);
      OwnedPart(r.steps, d.steps, key, loop);
      AllKeepLoop(side, past, tries, loop, n, devices[..k], sts[..k], key);
      DeliverKeepsLoop(side, past + r.steps, tries + r.tries, loop, n, devices[k], sts[k], key);
      assert past + (r.steps + d.steps) == past + r.steps + d.steps;
      assert tries + (r.tries + d.tries) == tries + r.tries + d.tries;
    }
  }

  lemma EntryKeepsLoop(side: R.Side, past: seq<Action>, tries: seq<Try>, loop: nat, entry: PollEntry,
                       sts: seq<Stage>, key: D.Key)
    requires |sts| == |DevicesOf(entry)| && LoopInv(side.dedup, past, tries, loop, key)
    requires forall j :: 0 <= j < |sts| ==> ForeignGap(sts[j].gap, loop)
    requires Owned(DeliverEntry(side, past, loop, entry, sts).steps, key, loop)
    ensures var e := DeliverEntry(side, past, loop, entry, sts);
      LoopInv(side.dedup, past + e.steps, tries + e.tries, loop, key)
  {
    hide LoopInv, ForeignGap, Owned, DeliverAll;
    if entry.notification.Unreadable? {
      assert past + [] == past && tries + [] == tries;
    } else {
      AllKeepLoop(side, past, tries, loop, entry.notification.notification, DevicesOf(entry), sts, key);
    }
  }

  lemma {:induction false} ReplyKeepsLoop(side: R.Side, past: seq<Action>, tries: seq<Try>, loop: nat,
                                          reply: seq<PollEntry>, sts: seq<seq<Stage>>, key: D.Key)
    requires Staged(reply, sts, loop) && LoopInv(side.dedup, past, tries, loop, key)
    requires Owned(DeliverReply(side, past, loop, reply, sts).1, key, loop)
    ensures var d := DeliverReply(side, past, loop, reply, sts);
      LoopInv(side.dedup, past + d.1, tries + d.2, loop, key)
  {
    hide LoopInv, ForeignGap, Owned, DevicesOf, DeliverEntry;
    if reply == [] {
      assert past + [] == past && tries + [] == tries;
    } else {
      var k := |reply| - 1;
      var r := DeliverReply(side, past, loop, reply[..k], sts[..k]);
      var e := DeliverEntry(side, past + r.1, loop, reply[k], sts[k]);
      OwnedPart(r.1, e.steps, key, loop);
      ReplyKeepsLoop(side, past, tries, loop, reply[..k], sts[..k], key);
      assert forall j :: 0 <= j < |sts[k]| ==> ForeignGap(sts[k][j].gap, loop);
      EntryKeepsLoop(side, past + r.1, tries + r.2, loop, reply[k], sts[k], key);
      assert past + (r.1 + e.steps) == past + r.1 + e.steps;
      assert tries + (r.2 + e.tries) == tries + r.2 + e.tries;
    }
  }

  lemma {:induction false} RunKeepsLoop(ps: Params, events: seq<Event>, key: D.Key)
    requires Owned(RunAll(ps, events).steps, key, ps.loop)
    ensures LoopInv(ps.side.dedup, RunAll(ps, events).steps, RunAll(ps, events).tries, ps.loop, key)
  {
    hide LoopInv, Owned, R.Run, Foreign, Staged;
    if events == [] {
      NothingTried(ps.side.dedup, ps.loop, key);
    } else {
      var s, e := RunAll(ps, events[..|events| - 1]), events[|events| - 1];
      assert exists more :: Do(ps, s, e).steps == s.steps + more by {
        assert s.steps == s.steps + [];
      }
      var more :| Do(ps, s, e).steps == s.steps + more;
      OwnedPart(s.steps, more, key, ps.loop);
      RunKeepsLoop(ps, events[..|events| - 1], key);
      match e
      case Net(a) =>
      case Others(steps) =>
        if Foreign(steps, ps.loop) {
          OwnedPart(s.steps, steps, key, ps.loop);
          OthersKeepLoop(ps.side.dedup, s.steps, steps, s.tries, ps.loop, key);
        }
      case Cycle(reply, sts) =>
        if reply in R.Run(ps.net, s.net).replies && Staged(reply, sts, ps.loop) {
          OwnedPart(s.steps, DeliverReply(ps.side, s.steps, ps.loop, reply, sts).1, key, ps.loop);
          ReplyKeepsLoop(ps.side, s.steps, s.tries, ps.loop, reply, sts, key);
        }
    }
  }

  lemma NothingTried(cfg: D.Config, loop: nat, key: D.Key)
    ensures LoopInv(cfg, [], [], loop, key)
  {
  }

  // --- the poll loop's promise ---

  lemma {:induction false} TimelyPrefix(steps: seq<Action>, m: nat)
    requires m < |steps| && Timely(steps)
    ensures Timely(steps[..m]) && (!steps[m].Answer? ==> Clock(steps[..m]) <= steps[m].now)
  {
    if m == |steps| - 1 {
    } else {
      TimelyPrefix(steps[..|steps| - 1], m);
      assert steps[..|steps| - 1][..m] == steps[..m];
    }
  }

  lemma OwnedPrefix(steps: seq<Action>, m: nat, key: D.Key, loop: nat)
    requires m <= |steps| && Owned(steps, key, loop)
    ensures Owned(steps[..m], key, loop)
  {
    assert steps == steps[..m] + steps[m..];
    OwnedPart(steps[..m], steps[m..], key, loop);
  }

  /** At most once per window, end to end. Take any run of the relay and of this poll
      loop, with responses and acks lost, delayed and repeated, entries redelivered as
      often as their leases run out, and other tasks interleaved at every step, but none
      of them delivering this key. Whenever the loop tries its provider for the key, each
      of the deliveries of it that were accepted before has started a window of its own,
      and every such window is at least the TTL old or followed by `maxEntries` others. */
  lemma LoopOncePerWindow(ps: Params, events: seq<Event>, q: nat)
    requires ps.side.dedup.ttl > 0 && q < |RunAll(ps, events).tries|
    requires var s := RunAll(ps, events); Timely(s.steps) && Owned(s.steps, s.tries[q].key, ps.loop)
    ensures var s, cfg := RunAll(ps, events), ps.side.dedup;
      var t := s.tries[q];
      t.pos < |s.steps| &&
      var windows := DR.Accepted(cfg, Run(cfg, s.steps[..t.pos]).records);
      && DeliveredIn(s.tries[..q], t.key) == Windows(windows, t.key)
      && AllClosed(cfg, windows, t.now, t.key)
  {
    hide RunAll, Attempted, Owned;
    var s, cfg := RunAll(ps, events), ps.side.dedup;
    var t := s.tries[q];
    RunKeepsLoop(ps, events, t.key);
    assert HonoredAt(cfg, s.steps, s.tries, q, ps.loop, t.key);
    var past, a := s.steps[..t.pos], s.steps[t.pos];
    TimelyPrefix(s.steps, t.pos);
    OwnedPrefix(s.steps, t.pos + 1, t.key, ps.loop);
    assert s.steps[..t.pos + 1] == past + [a];
    TriedSequentially(cfg, past, a, ps.loop);
  }

  /** A delivered try is recorded into a window of its own. */
  lemma TryStartsWindow(cfg: D.Config, steps: seq<Action>, t: Try, loop: nat)
    requires cfg.ttl > 0 && Timely(steps) && Owned(steps, t.key, loop)
    requires 0 < t.end <= |steps| && EndsRecording(cfg, steps, t, loop)
    ensures DR.Accepted(cfg, Run(cfg, steps[..t.end]).records)
         == DR.Accepted(cfg, Run(cfg, steps[..t.end - 1]).records) + [D.Record(t.recorded, t.key)]
  {
    hide Owned, DR.Accepted, DR.After, Run, Deliveries, Started, Timely;
    var n := t.end - 1;
    var past := steps[..n];
    TimelyPrefix(steps, n);
    OwnedPrefix(steps, n, t.key, loop);
    assert steps[..t.end] == past + [steps[n]] && [] + past == past && (past + [steps[n]])[..n] == past;
    NoneStarted(cfg, t.key);
    OwnedIsSequential(cfg, [], past, t.key, loop);
    SequentialRun(cfg, [], past, t.key);
    assert Busy(Run(cfg, past).tasks, t.key);
    OwnStep(cfg, past, steps[n], t.key);
    DR.UnseenIsAccepted(cfg, Run(cfg, past).records, D.Record(t.recorded, t.key));
  }

  /** Two tries of one key, the earlier of them delivered. What was recorded then started a
      window; the later try comes when that is at least the TTL old, or when `maxEntries`
      others have been started since. */
  lemma NextTryIsWindowLater(ps: Params, events: seq<Event>, p: nat, q: nat)
    requires ps.side.dedup.ttl > 0 && p < q < |RunAll(ps, events).tries|
    requires var s := RunAll(ps, events);
      && s.tries[p].key == s.tries[q].key && s.tries[p].outcome.Delivered?
      && Timely(s.steps) && Owned(s.steps, s.tries[q].key, ps.loop)
    ensures var s, cfg := RunAll(ps, events), ps.side.dedup;
      var first, t := s.tries[p], s.tries[q];
      0 < first.end <= t.pos < |s.steps| &&
      var windows := DR.Accepted(cfg, Run(cfg, s.steps[..t.pos]).records);
      var i := |DR.Accepted(cfg, Run(cfg, s.steps[..first.end - 1]).records)|;
      && i < |windows| && windows[i] == D.Record(first.recorded, t.key)
      && (t.now >= first.recorded + cfg.ttl || |windows| - 1 - i >= cfg.maxEntries)
  {
    hide RunAll, Attempted, Owned, Run, DR.Accepted, Timely, DeliveredIn, Deliveries;
    var s, cfg := RunAll(ps, events), ps.side.dedup;
    var first, t := s.tries[p], s.tries[q];
    RunKeepsLoop(ps, events, t.key);
    assert HonoredAt(cfg, s.steps, s.tries, p, ps.loop, t.key) && HonoredAt(cfg, s.steps, s.tries, q, ps.loop, t.key);
    TryStartsWindow(cfg, s.steps, first, ps.loop);
    assert s.steps[..t.pos] == s.steps[..first.end] + s.steps[first.end..t.pos];
    WindowsGrow(cfg, s.steps[..first.end], s.steps[first.end..t.pos], 0);
    LoopOncePerWindow(ps, events, q);
  }

  lemma TriedSequentially(cfg: D.Config, past: seq<Action>, a: Action, loop: nat)
    requires cfg.ttl > 0 && Timely(past) && a.Check? && Clock(past) <= a.now
    requires Owned(past + [a], a.key, loop) && Attempted(cfg, Run(cfg, past), a)
    ensures var windows := DR.Accepted(cfg, Run(cfg, past).records);
      Deliveries(cfg, past, a.key) == Windows(windows, a.key) && AllClosed(cfg, windows, a.now, a.key)
  {
    hide Owned, Attempted, DR.Accepted, AllClosed, Windows;
    assert [] + past == past;
    IdleFits(cfg, Run(cfg, []), 0, a.key);
    OwnedIsSequential(cfg, [], past + [a], a.key, loop);
    AttemptsAreWindowsApart(cfg, [], past, a);
    NoneStarted(cfg, a.key);
  }

  lemma NoneStarted(cfg: D.Config, key: D.Key)
    ensures Started(cfg, Run(cfg, []), key) == 0 && Deliveries(cfg, [], key) == 0
    ensures !Busy(Run(cfg, []).tasks, key) && Fits(cfg, Run(cfg, []), Clock([]), key)
  {
  }

  // --- redeliveries are acked ---

  /** A delivery whose look found the cache as it was after `m` of these steps; if it
      asked the cache, the next step was its check. */
  ghost predicate LookedAt(side: R.Side, steps: seq<Action>, loop: nat, n: Notification, device: Device, w: World,
                           look: R.Look, m: nat) {
    && m <= |steps| && look == R.Look(DR.After(side.dedup, Run(side.dedup, steps[..m]).records), w)
    && (Consults(side.setup, n, device) ==>
          m < |steps| && steps[m] == Check(loop, w.check, EventKey(n.eventId.value, device)))
  }

  /** It looked at some point after the first `from` steps. */
  ghost predicate Current(side: R.Side, from: nat, steps: seq<Action>, loop: nat, n: Notification, device: Device,
                          w: World, look: R.Look) {
    exists m :: from <= m && LookedAt(side, steps, loop, n, device, w, look, m)
  }

  lemma CurrentStays(side: R.Side, from: nat, steps: seq<Action>, more: seq<Action>, loop: nat, n: Notification,
                     device: Device, w: World, look: R.Look)
    requires Current(side, from, steps, loop, n, device, w, look)
    ensures forall f: nat :: f <= from ==> Current(side, f, steps + more, loop, n, device, w, look)
  {
    hide Run, DR.After, Consults;
    var m :| from <= m && LookedAt(side, steps, loop, n, device, w, look, m);
    assert (steps + more)[..m] == steps[..m];
    assert LookedAt(side, steps + more, loop, n, device, w, look, m);
  }

  lemma DeliverIsCurrent(side: R.Side, past: seq<Action>, loop: nat, n: Notification, device: Device, st: Stage)
    ensures var d := Deliver(side, past, loop, n, device, st);
      |d.looks| == 1 && Current(side, |past|, past + d.steps, loop, n, device, st.world, d.looks[0])
  {
    hide Run, DR.After, D.IsDuplicate;
    var d, at := Deliver(side, past, loop, n, device, st), past + st.gap.beforeCheck;
    assert (past + d.steps)[..|at|] == at;
    assert LookedAt(side, past + d.steps, loop, n, device, st.world, d.looks[0], |at|);
  }

  lemma {:induction false} AllAreCurrent(side: R.Side, past: seq<Action>, loop: nat, n: Notification,
                                         devices: seq<Device>, sts: seq<Stage>, j: nat)
    requires |sts| == |devices|
    ensures var d := DeliverAll(side, past, loop, n, devices, sts);
      && |d.looks| == |devices|
      && (j < |devices| ==>
            Current(side, |past|, past + d.steps, loop, n, devices[j], sts[j].world, d.looks[j]))
  {
    hide Current, Deliver;
    if devices != [] {
      var k := |devices| - 1;
      var r := DeliverAll(side, past, loop, n, devices[..k], sts[..k]);
      var at := past + r.steps;
      var d := Deliver(side, at, loop, n, devices[k], sts[k]);
      AllAreCurrent(side, past, loop, n, devices[..k], sts[..k], j);
      DeliverIsCurrent(side, at, loop, n, devices[k], sts[k]);
      assert past + (r.steps + d.steps) == at + d.steps;
      if j < k {
        CurrentStays(side, |past|, at, d.steps, loop, n, devices[j], sts[j].world, r.looks[j]);
      } else if j == k {
        CurrentStays(side, |at|, at + d.steps, [], loop, n, devices[k], sts[k].world, d.looks[0]);
        assert at + d.steps + [] == at + d.steps;
      }
    }
  }

  /** Every delivery of a cycle judges its repeat by the cache as it really is then: it
      looks at some point during the cycle, and its check is the next step. */
  lemma {:induction false} CycleIsCurrent(side: R.Side, past: seq<Action>, loop: nat, reply: seq<PollEntry>,
                                          sts: seq<seq<Stage>>, i: nat, j: nat)
    requires Staged(reply, sts, loop) && i < |reply| && j < |DevicesOf(reply[i])|
    ensures var d, n := DeliverReply(side, past, loop, reply, sts), reply[i].notification.notification;
      && |d.0| == |reply| && |d.0[i]| == |DevicesOf(reply[i])|
      && Current(side, |past|, past + d.1, loop, n, DevicesOf(reply[i])[j], sts[i][j].world, d.0[i][j])
  {
    hide Current, DeliverAll, Run;
    var k := |reply| - 1;
    var n, device, w := reply[i].notification.notification, DevicesOf(reply[i])[j], sts[i][j].world;
    var r := DeliverReply(side, past, loop, reply[..k], sts[..k]);
    var at := past + r.1;
    var e := DeliverEntry(side, at, loop, reply[k], sts[k]);
    ReplyCovered(side, past, loop, reply, sts);
    ReplyCovered(side, past, loop, reply[..k], sts[..k]);
    assert past + (r.1 + e.steps) == at + e.steps;
    if i < k {
      CycleIsCurrent(side, past, loop, reply[..k], sts[..k], i, j);
      CurrentStays(side, |past|, at, e.steps, loop, n, device, w, r.0[i][j]);
    } else {
      AllAreCurrent(side, at, loop, n, DevicesOf(reply[k]), sts[k], j);
      CurrentStays(side, |at|, at + e.steps, [], loop, n, device, w, e.looks[j]);
      assert at + e.steps + [] == at + e.steps;
    }
  }

  /** A window that `key` had started after `past` is still young at `now`, and not
      evicted by what was recorded up to `steps`. */
  ghost predicate StillOpen(cfg: D.Config, past: seq<Action>, steps: seq<Action>, now: nat, key: D.Key) {
    var windows, all := DR.Accepted(cfg, Run(cfg, past).records), DR.Accepted(cfg, Run(cfg, steps).records);
    exists i :: 0 <= i < |windows| && windows[i].key == key
      && Since(now, windows[i].time) < cfg.ttl && |all| - 1 - i < cfg.maxEntries
  }

  /** While it is, every check made on the way holds the key back. */
  lemma StillOpenIsRepeat(cfg: D.Config, past: seq<Action>, steps: seq<Action>, m: nat, key: D.Key)
    requires cfg.ttl > 0 && Timely(steps) && past <= steps && |past| <= m < |steps|
    requires steps[m].Check? && StillOpen(cfg, past, steps, steps[m].now, key)
    ensures D.IsDuplicate(cfg, DR.After(cfg, Run(cfg, steps[..m]).records), steps[m].now, key)
  {
    hide DR.Accepted, DR.After, Run, D.IsDuplicate, Timely, Clock;
    var rs := Run(cfg, steps[..m]).records;
    assert steps == steps[..m] + steps[m..] && steps[..m] == past + steps[|past|..m];
    WindowsGrow(cfg, past, steps[|past|..m], 0);
    WindowsGrow(cfg, steps[..m], steps[m..], 0);
    TimelyPrefix(steps, m);
    RecordsTimely(cfg, steps[..m]);
    var windows, all := DR.Accepted(cfg, Run(cfg, past).records), DR.Accepted(cfg, Run(cfg, steps).records);
    var i :| 0 <= i < |windows| && windows[i].key == key
      && Since(steps[m].now, windows[i].time) < cfg.ttl && |all| - 1 - i < cfg.maxEntries;
    DW.WindowIsReported(cfg, rs, steps[m].now, i);
  }

  lemma OpenIsFine(side: R.Side, past: seq<Action>, steps: seq<Action>, loop: nat, n: Notification, device: Device,
                   w: World, look: R.Look)
    requires side.dedup.ttl > 0 && Timely(steps) && past <= steps && Consults(side.setup, n, device)
    requires StillOpen(side.dedup, past, steps, w.check, EventKey(n.eventId.value, device))
    requires Current(side, |past|, steps, loop, n, device, w, look)
    ensures R.DispositionOf(side, n, device, look) == Fine
  {
    hide DR.After, Run, StillOpen, Timely, D.IsDuplicate;
    var m :| |past| <= m && LookedAt(side, steps, loop, n, device, w, look, m);
    StillOpenIsRepeat(side.dedup, past, steps, m, EventKey(n.eventId.value, device));
  }

  /** The cycle that the loop runs on a reply, after the steps `past`. */
  ghost function CycleOn(ps: Params, past: seq<Action>, reply: seq<PollEntry>, sts: seq<seq<Stage>>): R.Cycle
    requires Staged(reply, sts, ps.loop)
  {
    R.Cycle(ps.side, reply, DeliverReply(ps.side, past, ps.loop, reply, sts).0)
  }

  /** The other half of the promise: an entry that was delivered, but whose ack got lost,
      is acked when it is redelivered. If all its keys had a window before the cycle, and
      none is over or evicted by its end, the loop's ack lists the entry, and the entry
      adds no rejection to it. */
  lemma RedeliveryIsAcked(ps: Params, events: seq<Event>, reply: seq<PollEntry>, sts: seq<seq<Stage>>, i: nat)
    requires ps.side.dedup.ttl > 0 && Staged(reply, sts, ps.loop) && i < |reply| && reply[i].notification.Readable?
    requires var s := RunAll(ps, events);
      var steps := Do(ps, s, Cycle(reply, sts)).steps;
      && reply in R.Run(ps.net, s.net).replies && Timely(steps)
      && forall j :: 0 <= j < |sts[i]| ==>
           var n, device := reply[i].notification.notification, DevicesOf(reply[i])[j];
           && Consults(ps.side.setup, n, device)
           && StillOpen(ps.side.dedup, s.steps, steps, sts[i][j].world.check, EventKey(n.eventId.value, device))
    ensures var s := RunAll(ps, events);
      var c := CycleOn(ps, s.steps, reply, sts);
      && R.Covered(c) && R.AckOf(c) in R.Run(ps.net, Do(ps, s, Cycle(reply, sts)).net).acks
      && reply[i].id in R.AckOf(c).acked
      && RejectsOf(DevicesOf(reply[i]), R.Dispositions(c)[i]) == []
  {
    hide RunAll, StillOpen, DeliverReply, Current, Timely, Run, R.DispositionOf, Consults;
    var s := RunAll(ps, events);
    var c, t := CycleOn(ps, s.steps, reply, sts), Do(ps, s, Cycle(reply, sts));
    ReplyCovered(ps.side, s.steps, ps.loop, reply, sts);
    assert t.net[..|t.net| - 1] == s.net;
    var ds := R.EntryDispositions(ps.side, reply[i], c.looks[i]);
    forall j | 0 <= j < |ds| ensures ds[j] == Fine {
      CycleIsCurrent(ps.side, s.steps, ps.loop, reply, sts, i, j);
      var n, device := reply[i].notification.notification, DevicesOf(reply[i])[j];
      OpenIsFine(ps.side, s.steps, t.steps, ps.loop, n, device, sts[i][j].world, c.looks[i][j]);
    }
    assert forall d :: d in ds ==> d.Fine?;
    NoRejects(DevicesOf(reply[i]), ds);
    AckMeaning(reply, R.Dispositions(c));
  }

  // --- Poller.PollOnce is such a cycle ---

  const NO_GAP := Gap([], [], [])

  function Alone(ws: seq<World>): (sts: seq<Stage>)
    ensures |sts| == |ws| && forall j :: 0 <= j < |ws| ==> sts[j] == Stage(ws[j], NO_GAP)
  {
    seq(|ws|, j requires 0 <= j < |ws| => Stage(ws[j], NO_GAP))
  }

  function AllAlone(ws: seq<seq<World>>): (sts: seq<seq<Stage>>)
    ensures |sts| == |ws| && forall i :: 0 <= i < |ws| ==> sts[i] == Alone(ws[i])
  {
    seq(|ws|, i requires 0 <= i < |ws| => Alone(ws[i]))
  }

  /** Any delivery made without interruption, whatever the notification and the app: the
      steps of its task change the cache exactly as Pipeline.Direct says. */
  lemma DeliveryIsTask(side: R.Side, past: seq<Action>, loop: nat, n: Notification, device: Device, w: World)
    requires loop !in Run(side.dedup, past).tasks
    ensures var s, d := Run(side.dedup, past), Deliver(side, past, loop, n, device, Stage(w, NO_GAP));
      var cache := DR.After(side.dedup, s.records);
      && d.looks == [R.Look(cache, w)]
      && Run(side.dedup, past + d.steps) ==
           System(s.records + Direct(side.setup, side.dedup, cache, n, device, w).records, s.tasks)
  {
    hide Run, DR.After, D.IsDuplicate, Deliveries;
    var cfg := side.dedup;
    var s := Run(cfg, past);
    assert past + [] == past && s.records + [] == s.records;
    if Consults(side.setup, n, device) {
      var k := EventKey(n.eventId.value, device);
      var check, answer, record := Check(loop, w.check, k), Answer(loop, w.outcome), Remember(loop, w.recorded);
      AloneSteps(past, check, answer, record);
      OwnStep(cfg, past, check, k);
      if !D.IsDuplicate(cfg, DR.After(cfg, s.records), w.check, k) {
        OwnStep(cfg, past + [check], answer, k);
        OwnStep(cfg, past + [check] + [answer], record, k);
        assert s.tasks[loop := Delivering(k)] - {loop} == s.tasks;
        assert s.tasks[loop := Delivering(k)][loop := Recording(k)] - {loop} == s.tasks;
      }
    }
  }

  lemma AloneSteps(past: seq<Action>, check: Action, answer: Action, record: Action)
    ensures past + ([] + [check]) == past + [check]
    ensures past + ([] + [check] + [] + [answer]) == past + [check] + [answer]
    ensures past + ([] + [check] + [] + [answer] + [] + [record]) == past + [check] + [answer] + [record]
  {
  }

  lemma {:induction false} AllAreTasks(side: R.Side, past: seq<Action>, loop: nat, n: Notification,
                                       devices: seq<Device>, ws: seq<World>)
    requires |ws| == |devices| && loop !in Run(side.dedup, past).tasks
    ensures var s, d := Run(side.dedup, past), DeliverAll(side, past, loop, n, devices, Alone(ws));
      var (ds, records) := Poller.DeliverDevices(side.setup, side.dedup, s.records, n, devices, ws);
      && Run(side.dedup, past + d.steps) == System(records, s.tasks)
      && |d.looks| == |devices|
      && forall j :: 0 <= j < |devices| ==> ds[j] == R.DispositionOf(side, n, devices[j], d.looks[j])
  {
    hide Run, DR.After, Direct, Deliver;
    if devices == [] {
      assert past + [] == past;
    } else {
      var k := |devices| - 1;
      var r := DeliverAll(side, past, loop, n, devices[..k], Alone(ws)[..k]);
      assert Alone(ws)[..k] == Alone(ws[..k]);
      AllAreTasks(side, past, loop, n, devices[..k], ws[..k]);
      DeliveryIsTask(side, past + r.steps, loop, n, devices[k], ws[k]);
      var d := Deliver(side, past + r.steps, loop, n, devices[k], Stage(ws[k], NO_GAP));
      assert past + (r.steps + d.steps) == past + r.steps + d.steps;
    }
  }

  lemma EntryIsTasks(side: R.Side, past: seq<Action>, loop: nat, entry: PollEntry, ws: seq<World>)
    requires |ws| == |DevicesOf(entry)| && loop !in Run(side.dedup, past).tasks
    ensures var s, d := Run(side.dedup, past), DeliverEntry(side, past, loop, entry, Alone(ws));
      var (ds, records) := Poller.DeliverEntry(side.setup, side.dedup, s.records, entry, ws);
      && Run(side.dedup, past + d.steps) == System(records, s.tasks)
      && |d.looks| == |DevicesOf(entry)| && ds == R.EntryDispositions(side, entry, d.looks)
  {
    hide Run, DeliverDevices, DeliverAll, R.DispositionOf;
    if entry.notification.Unreadable? {
      assert past + [] == past;
    } else {
      AllAreTasks(side, past, loop, entry.notification.notification, DevicesOf(entry), ws);
    }
  }

  /** What Poller.PollOnce does with a reply is one cycle here: the same recordings, the
      same dispositions, hence the same ack, and the loop is idle again. */
  lemma {:induction false} PollOnceIsCycle(side: R.Side, past: seq<Action>, loop: nat, entries: seq<PollEntry>,
                                           ws: seq<seq<World>>)
    requires Scripts(entries, ws) && loop !in Run(side.dedup, past).tasks
    ensures Staged(entries, AllAlone(ws), loop)
    ensures var s, d := Run(side.dedup, past), DeliverReply(side, past, loop, entries, AllAlone(ws));
      var (ds, records) := Poller.DeliverEntries(side.setup, side.dedup, s.records, entries, ws);
      var c := R.Cycle(side, entries, d.0);
      && Run(side.dedup, past + d.1) == System(records, s.tasks)
      && R.Covered(c) && R.Dispositions(c) == ds && R.AckOf(c) == AckFor(entries, ds)
  {
    hide Run, DevicesOf, DeliverEntry, Poller.DeliverEntry, AckFor;
    ReplyCovered(side, past, loop, entries, AllAlone(ws));
    if entries == [] {
      assert past + [] == past;
    } else {
      var k := |entries| - 1;
      assert AllAlone(ws)[..k] == AllAlone(ws[..k]);
      PollOnceIsCycle(side, past, loop, entries[..k], ws[..k]);
      var r := DeliverReply(side, past, loop, entries[..k], AllAlone(ws)[..k]);
      EntryIsTasks(side, past + r.1, loop, entries[k], ws[k]);
      var e := DeliverEntry(side, past + r.1, loop, entries[k], Alone(ws[k]));
      assert past + (r.1 + e.steps) == past + r.1 + e.steps;
      var ds := Poller.DeliverEntries(side.setup, side.dedup, Run(side.dedup, past).records, entries, ws).0;
      CycleMore(side, entries, r.0, e.looks, ds);
    }
  }

  lemma CycleMore(side: R.Side, entries: seq<PollEntry>, looks: seq<seq<R.Look>>, last: seq<R.Look>,
                  ds: seq<seq<Disposition>>)
    requires entries != [] && |ds| == |entries| == |looks| + 1
    requires R.Covered(R.Cycle(side, entries, looks + [last]))
    requires var k := |entries| - 1; var before := R.Cycle(side, entries[..k], looks);
      R.Covered(before) && R.Dispositions(before) == ds[..k] && R.EntryDispositions(side, entries[k], last) == ds[k]
    ensures R.Dispositions(R.Cycle(side, entries, looks + [last])) == ds
  {
    var k, c := |entries| - 1, R.Cycle(side, entries, looks + [last]);
    forall i | 0 <= i < |entries| ensures R.Dispositions(c)[i] == ds[i] {
      if i < k {
        assert entries[..k][i] == entries[i] && ds[..k][i] == ds[i];
        assert R.Dispositions(R.Cycle(side, entries[..k], looks))[i] == R.EntryDispositions(side, entries[i], looks[i]);
      }
    }
  }
}
