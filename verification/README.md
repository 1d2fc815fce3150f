# The pincerbell relay and its duplicate suppression, in Dafny

pincerbell is a Matrix push gateway. This project models the part of it that
keeps state: the lease-based notification queue of the queue/poll relay, the
duplicate-suppression cache, the per-device delivery pipeline and the poll cycle.
`Relay` puts queue, pipeline and poll cycle together over an unreliable network;
`PollLoop` adds the cache, step by step, and whatever other tasks do to it.

Each stateful component appears three times, and the three are tied together:

1. **As functions on its state** (`QueueSpec`, `DedupSpec`, `Pipeline`): what one
   enqueue, poll, ack or recording does, declaratively. A poll, for example,
   returns the first `max` live and fresh entries of *expired leases, oldest
   first, followed by the buffer*.
2. **As the objects the program has** (`NotificationQueue`, `DedupCache`,
   `Gateway`, `Poller`): classes whose methods loop and update their fields in
   place. Each method is proved to do exactly what the function says, and a ghost
   field records the operations the object has been through, with
   `Valid()` saying that the fields are the result of that run. So every theorem
   about runs is a theorem about the object.
3. **As runs** (`QueueRuns` and the modules built on it, `DedupRuns`,
   `DedupWindow`, `WakeUp`, `Attempts`, `Suppression`, `Relay`, `PollLoop`,
   `Coalescing`, `QueuePoll`, `Retries`):
   arbitrary sequences of atomic steps from the empty state, over which the theorems
   below are stated. Where a theorem speaks of what a stretch of steps adds, the
   history before it is arbitrary too.

Conventions. Time is a natural number and `Since` is the saturating
`Instant::duration_since`; a reading can be older than what it is compared with,
because it is taken before the lock. Unless a theorem says `Monotone`, `Sorted`
or `Timely`, it holds for any sequence of clock readings. Payload JSON is opaque
apart from devices and event id. The zero cases (`max_entries = 0`, `lease = 0`,
`ttl = 0`, `max = 0`) are included. Randomness and the outside world (provider
verdicts, serializer verdicts, message loss) are parameters or steps.

What the proofs rest on. The index of newest badges is, in every reachable state,
exactly the map from each device to its newest badge ever enqueued, cut down to
the entries still held (`QueueRuns.RunInv`). Liveness, supersession and the space
bound all follow from that one equation.

## Where code and comments differ

The model follows the code.

- `src/queue.rs:261` says reclaimed entries go to the front because "they are the
  oldest". They need not be: `QueueOvertaking.FifoBreaks` is a run in which entry
  3 is handed out before entry 1. `QueueOrder.FifoExactly` gives the guard under
  which order is kept, as an if-and-only-if.
- `src/queue.rs:236-237` has a poll return as soon as there is an entry for it. An
  entry that becomes due again because another poller's lease ran out does not wake
  a waiter (`WakeUp.ExpiryDoesNotWake`); only enqueues do. `WakeUp.MissedExactly`
  says, as an if-and-only-if, which entries a sleeping poll misses: those that were
  out on a running lease when it looked, and are live and fresh when that is over.
- `src/queue.rs:6` calls the buffer bounded. The cap is enforced by
  enqueues only: it holds for the buffer right after one
  (`QueueSpace.SpaceBounds`); reclaimed leases are put back without regard to it
  (`QueueSpace.CapIsBypassed`), and leases are not capped. A poll grows the buffer
  iff it reclaims more than it hands out (`QueueSpace.BufferGrowsExactly`). The cap
  holds throughout a run iff every poll of it reclaims no more than it hands out or
  finds room for the excess (`QueueSpace.CapExactly`).
- `src/dedup.rs:32-35` expects stale entries in the order list. Under a clock that
  does not run backwards there are none (`DedupWindow.MonotoneCache`); the code
  that skips them matters only for unordered readings, and is proved right for
  those too (`DedupRuns.StructureHolds`).
- A capped cache does not report fewer duplicates than an uncapped one at every
  moment: `DedupCache.EvictionMovesTheAnchor`. For a given key it does so throughout
  a run iff no recording of the key starts a window while an earlier anchor of it is
  still open (`DedupWindow.ReportsMoreExactly`), and the two report the same
  throughout iff the cap never evicts that key while its window is open
  (`DedupWindow.GreedyExactly`).
- `src/queue.rs:17-21` has the queue side answer `rejected` to the next notify for a
  reported key. It does so exactly while a window of that key is open
  (`Relay.RejectedExactly`), which every report starts or falls into
  (`Relay.ReportIsAnswered`). A report that falls into one does not extend it: reported
  again just before its window ends, the key is not answered after that
  (`Relay.ReportAgainIsForgotten`).

## Model

| member | source | states |
|---|---|---|
| NotificationQueue.NotificationQueue.constructor | src/queue.rs:167-175 | a new queue is the empty run of its configuration |
| NotificationQueue.NotificationQueue.EnqueueAt | src/queue.rs:192-217 | the in-place enqueue, with its eviction loop and index bookkeeping, leaves the newest min(n + 1, max(1, max_entries)) entries in their old order, the new one last, and an index that names it and no evicted entry |
| NotificationQueue.NotificationQueue.ForgetCountKey | src/queue.rs:227-234 | afterwards this entry owns no mapping, every mapping to another entry is kept, none is new, and so no other entry's liveness changes |
| NotificationQueue.NotificationQueue.ExpiredDescending | src/queue.rs:263-269 | lists exactly the ids whose deadline has passed, strictly descending |
| NotificationQueue.NotificationQueue.Requeue | src/queue.rs:272-280 | an expired lease goes back to the front iff it is live and fresh by the index at that moment; a stale owner loses its mapping |
| NotificationQueue.NotificationQueue.Reclaim | src/queue.rs:261-281 | after the reclaim loop the buffer is the live, fresh expired leases ascending, then the old buffer, all judged by the index from before the poll |
| NotificationQueue.NotificationQueue.TakeAt | src/queue.rs:258-303 | a poll returns and leases exactly the first `max` live and fresh entries of expired leases ++ buffer, and leaves the exact unread suffix |
| NotificationQueue.NotificationQueue.Ack | src/queue.rs:307-314 | the ack loop depends only on the set of ids: exactly the leased ones among them leave, with their index entries |
| NotificationQueue.ForgetIsLocal | src/queue.rs:227-234 | dropping an entry and its owned mapping changes no other entry's liveness |
| NotificationQueue.ReclaimStep | src/queue.rs:270-281 | mid-loop, judging an expired lease by the already shrunken index agrees with judging it by the index from before the poll |
| NotificationQueue.TakeStep | src/queue.rs:284-301 | the same for each entry popped from the buffer, together with what that pop adds to batch, leases and index |
| QueueSpec.ScanSplits | src/queue.rs:283-302 | what a poll reads is exactly its batch, and the unread suffix holds exactly the deliverable rest |
| QueueSpec.ScanStopsAtLast | src/queue.rs:284-296 | a full batch ends at the entry that filled it; nothing behind it is touched |
| QueueSpec.EnqueueKeepsNewest | src/queue.rs:199-216 | whatever the buffer holds, an enqueue drops from its front just as many as needed for the new entry to fit the cap, and touches no lease |
| QueueRuns.RunInv | src/queue.rs:146-156 | in every reachable state pending ids are distinct and disjoint from leased ids, both hold logged entries, and the index is exactly the newest badges still held |
| QueueRuns.OwnerHasKey | src/queue.rs:150-153 | an index entry names a held entry of its own device, the newest ever enqueued for it |
| QueueLedger.Ledger | src/queue.rs:192-217 | for every id ever given out: pending, leased or departed, exactly one of these, departed at most once, and only by an ack while leased, at an age of at least the TTL, by an eviction while at least max_entries - 1 pending entries stood behind it, or superseded by a larger id of its device |
| QueueLedger.StepLedger | src/queue.rs:258-314 | one operation holds nothing new but the entry it enqueues, and lets go of nothing without one of those causes |
| QueueLedger.EvictedByPosition | src/queue.rs:199-210 | an arrival evicts exactly the pending entries with at least max_entries - 1 others behind them |
| QueueLedger.GoneStaysGone | src/queue.rs:258-314 | an entry that left the queue never comes back |
| QueueLedger.LiveIffNewest | src/queue.rs:219-225 | in every reachable state a held entry is live iff it is an event entry or the newest badge ever enqueued for its device, also after that badge's index entry was removed |
| QueueDelivery.BatchIsCurrent | src/queue.rs:284-300 | whatever a poll hands out is held, unleased or out of lease, younger than the TTL, and, if a badge, the newest one; so inserting its lease overwrites none |
| QueuePoll.BatchExactly | src/queue.rs:258-303 | an entry is in the batch iff it is held, out of lease, young and not superseded, and fewer than `max` such entries are ahead of it: overdue leases by id first, then the buffer from the front |
| QueuePoll.BatchInOrder | src/queue.rs:258-303 | the batch is in that order, each entry as it was enqueued, and has min(max, all deliverable) entries |
| QueuePoll.TakeLeaves | src/queue.rs:263-303 | after a poll: what was handed out is leased until now + lease, running leases are as before, nothing else is leased; pending, in the same order, is exactly what the poll was offered behind the entry that filled its batch |
| Coalescing.LiveExactly | src/queue.rs:177-190 | of what the gateway queues: a held event is live in every reachable state, and a held badge iff no later count-only notification of its device was queued |
| Coalescing.DeliverableExactly | src/queue.rs:177-225 | the same for what a poll may hand out: everything held, out of lease and young, except badges replaced by a later one of their device |
| Coalescing.DeparturesExplained | src/queue.rs:177-314 | an event never leaves for another notification of its device: only by ack, age or eviction; a badge also for a later badge of its device |
| QueueDelivery.OneBadgePerDevice | src/queue.rs:177-179 | no batch repeats an entry or holds two badges of one device |
| QueueDelivery.BadgesNeverGoBack | src/queue.rs:150-153 | over a whole run, to any pollers, a device's badges are handed out in non-decreasing id order |
| QueueDelivery.RedeliverySpacing | src/queue.rs:263-300 | with a monotone clock, consecutive hand-outs of one entry are at least a lease apart, all at ages below the TTL |
| QueueDelivery.RedeliveryBound | src/queue.rs:263-300 | so, for lease > 0, an entry is handed out at most ceil(entry_ttl / lease) times |
| QueueOrder.FifoExactly | src/queue.rs:261-303 | buffer ascending and leases older than the buffer, after every step, iff every poll's guard held: what it reclaims beyond its batch is younger than every running lease |
| QueueOrder.TakeKeepsFifo | src/queue.rs:261-303 | the same for one poll, both directions |
| QueueOrder.OrderlyRun | src/queue.rs:199-216 | in such a run every batch ascends and evictions hit the smallest pending ids |
| QueueOvertaking.FifoBreaks | src/queue.rs:261-281 | a run of polls of size 1 and 2 after which the buffer is [3, 1] and 3 is handed out first |
| QueueDrain.Drain | src/queue.rs:283-302 | while no lease runs out and nothing gets stale, successive batches of any sizes concatenate to exactly the front of the backlog and leave exactly the rest |
| QueueDrain.DrainIsDisjoint | src/queue.rs:283-302 | so no two of those batches share an entry, however many pollers share the work |
| QueueDrain.DrainInCeiling | src/queue.rs:283-302 | ceil(N / max) polls of `max` fetch a backlog of N and leave nothing deliverable |
| QueueDrain.HeldIsHandedOut | src/queue.rs:10-12 | a held live entry younger than the TTL, not under a running lease, has a place in the poll's pool, and is in the batch iff fewer than `max` deliverable entries stand before it |
| QueueSpace.IndexIsBounded | src/queue.rs:150-153 | every index entry names a held entry of that device, so the index is never larger than buffer plus leases |
| QueueSpace.SpaceBounds | src/queue.rs:199-216 | the buffer holds between 1 and max(1, max_entries) entries after every enqueue; polls and acks never increase buffer plus leases |
| QueueSpace.BufferGrowsExactly | src/queue.rs:258-303 | a poll grows the buffer iff it reclaims more leases than `max`, and then by exactly the difference |
| QueueSpace.CapExactly | src/queue.rs:192-314 | the buffer is within max(1, max_entries) after every step of a run iff every poll of the run either reclaims at most `max` leases, or finds room for what it reclaims beyond that |
| QueueSpace.RoomyRunKeepsCap | src/queue.rs:258-303 | in particular in every run whose polls ask for as much as they reclaim |
| QueueSpace.CapIsBypassed | src/queue.rs:270-281 | a run with room for one entry that ends, after a poll, with two entries pending: reclaiming ignores the cap |
| QueueSpace.AcksCombine | src/queue.rs:305-314 | acks combine like sets of ids: order, repetition and splitting do not matter |
| QueueSpace.AckRemovesOnlyLeased | src/queue.rs:305-314 | after an ack exactly the leased ids it lists are gone and the other leases are as before; requeued ids stay pending, and the liveness of nothing that stays changes; in particular acking a superseded badge never unindexes the newer one |
| WakeUp.NoLostWakeUp | src/queue.rs:187-188 | for any number of waiters and enqueuers: whatever is pending since an un-notified waiter's check belongs to an enqueuer still between its insert and its notify |
| WakeUp.StepMissesNone | src/queue.rs:238-254 | every single step keeps that: a waiter is registered when it checks, so no notify after its check passes it by |
| WakeUp.PollMax | src/gateway.rs:279 | a poll request is served with the number it asks for, clamped to 1 and 1000 at the ends, and 100 if it does not say |
| WakeUp.CheckExactly | src/queue.rs:238-251 | in every run, a check answers at once iff anything is deliverable, with min(asked, deliverable) entries, those with the fewest deliverable ones ahead; otherwise the poll waits |
| WakeUp.SleepersMissOnlyLeases | src/queue.rs:238-254 | in every run, whatever the queue holds while a waiter sleeps is about to be announced, or was out on a running lease when the waiter looked |
| WakeUp.MissedExactly | src/queue.rs:236-254 | an entry nobody is about to announce is due while a waiter sleeps iff it was out on a running lease at the check, is still held, live and fresh, and its lease is over |
| WakeUp.ExpiryDoesNotWake | src/queue.rs:249-252 | a run in which a lease expires, its entry is due, and the second poller sleeps on with no enqueuer under way |
| DedupCache.DedupCache.IsDuplicateAt | src/dedup.rs:55-65 | a reported duplicate was recorded less than the TTL ago; with a monotone clock, the answer is yes iff a window of the key is still open and followed by fewer than max_entries others |
| DedupCache.DedupCache.RecordAt | src/dedup.rs:73-109 | the two loops yield the specified state; the cap holds afterwards, and the key is a duplicate from then on if the cap allows any entry |
| DedupCache.DedupCache.PopFront | src/dedup.rs:85-88 | every other key keeps its time; the popped record's key goes iff the map still had that very time for it; and order and map still have the same keys in step if they had before |
| DedupRuns.StructureHolds | src/dedup.rs:28-36 | for arbitrary clock readings: order and map have the same keys, each key's times strictly increase along the order with the last one in the map, and the cap is never exceeded |
| DedupRuns.TrimKeepsAgree | src/dedup.rs:100-108 | the size loop never meets an empty order, ends within the cap, and keeps the newest entry when the cap is at least 1 |
| DedupRuns.LastOccurrenceIsLive | src/dedup.rs:79-88 | an order entry carries the map's time iff it is its key's last occurrence, so popping a stale one never drops a live key |
| DedupRuns.RecordedIsRemembered | src/dedup.rs:97-108 | a recording is remembered at once, whatever the clock does |
| DedupRuns.DuplicateWasRecorded | src/dedup.rs:61-64 | a reported duplicate is a real recording of that key less than the TTL ago, whatever the clock does |
| DedupWindow.MonotoneCache | src/dedup.rs:79-108 | with a monotone clock the order is sorted and in bijection with the map, and whatever was dropped is stale or was followed by max_entries newer windows |
| DedupWindow.WindowIsReported | src/dedup.rs:92-108 | a window started less than the TTL ago with fewer than max_entries started since is always reported |
| DedupWindow.ReportedExactly | src/dedup.rs:55-108 | with a monotone clock, a key is reported iff one of its windows is younger than the TTL and followed by fewer than max_entries others, of whatever keys |
| DedupWindow.WindowIsNotExtended | src/dedup.rs:67-98 | a key recorded when it was unknown, and again inside that window, is not reported once the TTL from the first recording is over |
| DedupWindow.GreedyExactly | src/dedup.rs:67-108 | with a monotone clock, cache and greedy anchor agree on a key after every recording of a run iff the size cap never evicted that key while its window was open |
| DedupWindow.GreedyAnchor | src/dedup.rs:67-98 | for such a key the cache answers every later check as the greedy anchor does: a recording starts a window only if the last is a TTL old, and never extends one |
| DedupWindow.ReportsMoreExactly | src/dedup.rs:67-108 | for any clock, the cache reports a key at some moment of a run when the greedy anchor does not iff some recording of the key started a window while an earlier anchor was still open |
| DedupCache.EvictionMovesTheAnchor | src/dedup.rs:100-108 | with room for one key, an evicted key recorded again is reported a duplicate when the uncapped specification no longer reports it |
| Attempts.SequentialRun | src/gateway.rs:142-172 | after any history, and over every interleaving in which deliveries of a key do not overlap: each accepted delivery starts exactly one window of its own or is about to, and a key being delivered has no open window |
| Suppression.AttemptsAreWindowsApart | src/gateway.rs:139-172 | when the provider is tried for a key, each accepted delivery of it since any earlier point started its own window, and every window of the key, whenever started, is at least the TTL old or followed by max_entries others |
| Suppression.TriedExactly | src/gateway.rs:142-153 | under a monotone clock and any interleaving, a check by a free task tries the provider iff every window of the key is at least the TTL old or followed by max_entries others |
| Suppression.NeverShadowed | src/dedup.rs:47-50 | in every interleaving, overlapping or not, and by any clock: a key is held back only if the provider accepted it before and that was recorded less than the TTL ago |
| Suppression.AtMostOneDelivery | src/gateway.rs:66-77 | after any history: during one TTL in which at most max_entries windows start, a key whose deliveries do not overlap is delivered at most once more |
| Suppression.RetryIdempotence | src/gateway.rs:91-113 | one event notification with distinct devices, retried on a gateway with any history: every interleaving of all per-device steps delivers to each device at most once within one window and cap, and, attempts overlapping or not, holds back no device that had no delivery |
| Suppression.OverlapDeliversTwice | src/gateway.rs:142-172 | after any history, a delivery that is tried while another task is delivering the same key can be accepted as well, at any clock readings: check and recording are separate critical sections |
| Pipeline.KeysTellApart | src/dedup.rs:20 | suppression keys are equal iff event, app id and pushkey all are |
| Pipeline.RepeatWasRecorded | src/gateway.rs:139-146 | a delivery is held back only if that very event was recorded for that very device less than the TTL ago, by any clock; a count-only notification never is |
| Pipeline.RepeatExactly | src/gateway.rs:139-146 | with a monotone clock: iff a window of that event and device is still open and not followed by max_entries others |
| Retries.HeldBackWasAccepted | src/dedup.rs:47-50 | in every interleaving and by any clock, a device of a notification is held back only if this event was accepted for this device before; other events, and other devices of the same event, never matter |
| Retries.RetryShield | src/gateway.rs:66-77 | an event notification with distinct devices, sent again and again to a gateway with any history, reaches each device at most once more within one window and cap |
| Pipeline.DirectExactly | src/gateway.rs:119-192 | helper, the cases of a direct delivery: failed iff tried and transient; rejected, under its own pushkey, iff tried and refused or unknown where those are rejected; fine otherwise; and one record, for event and device, iff an event was accepted |
| Pipeline.ViaQueueExactly | src/gateway.rs:197-246 | helper, the cases of queueing: a dead pushkey is rejected before all else, a repeat is fine, what cannot be encoded fails; else one entry with exactly this device, keyed by it iff there is no event, and a record iff there is one |
| Pipeline.QueueingIsDelivery | src/gateway.rs:194-246 | helper, to read method contracts: for the cache, queueing a device is a delivery by a provider that accepts whatever can be encoded |
| Pipeline.Respond | src/gateway.rs:98-113 | one failed delivery makes the answer 502 with the number of failures; otherwise it lists the pushkey of each rejected device, in device order and nothing else |
| Pipeline.FoldMeaning | src/gateway.rs:98-113 | the fold counts every failure and lists every rejection once for each device, in device order |
| Gateway.AppState.DeliverOne | src/gateway.rs:119-192 | an explicit app entry wins over the queue, the queue over the unknown-app rule; unless this event was recorded for this device, the provider's verdict is the answer; cache and queue gain what Pipeline.DirectExactly and ViaQueueExactly say, and the memory of rejected pushkeys is untouched |
| Gateway.AppState.QueueOne | src/gateway.rs:197-246 | a reported pushkey is rejected before anything else, a repeat is answered fine without queueing, a failed encoding records and queues nothing; what is queued is the notification with this device alone, to coalesce iff it carries no event |
| Gateway.QueueState.constructor | src/queue.rs:109-117 | a fresh queue and a fresh memory of rejected pushkeys, of the configured TTL and room for 65,536 |
| Gateway.QueueState.ReportRejected | src/queue.rs:125-127 | a report is one recording under the fixed event id |
| Gateway.QueueState.TakeAck | src/gateway.rs:286-298 | an ack settles its ids in one step, then records each reported pushkey, in order |
| Poller.DeliverAll | src/poller.rs:145-155 | delivers to an entry's devices one after the other over the shared cache and collects exactly the rejections, under the device's app id |
| Poller.HandleEntry | src/poller.rs:135-162 | the entry is acked iff none of its deliveries failed, so an unreadable one always is |
| Poller.PollOnce | src/poller.rs:114-179 | one cycle: its ack lists exactly the ids of entries without a failed delivery, for the deliveries made in order; a lost poll changes nothing, a lost ack fails the cycle after the deliveries took place, and an empty ack is not sent |
| Poller.AckMeaning | src/poller.rs:156-162 | the ack lists exactly the entries without a failed delivery, unreadable ones included, and exactly the rejected devices |
| Poller.AckInOrder | src/poller.rs:133-161 | one id for each such entry, in the order of the reply |
| Poller.RejectsInOrder | src/poller.rs:145-155 | one report for each rejected delivery, in device order |
| Poller.ReportsInOrder | src/poller.rs:133-155 | and entry by entry |
| Relay.AckExactly | src/poller.rs:133-162 | in terms of what a cycle met: an id is acked iff some entry of that id was unreadable, or had no delivery that was tried at a configured app and answered transient; a device is reported iff some delivery to it was tried and refused, or its app is unknown and those are rejected |
| Relay.RunIsHonest | src/poller.rs:133-177 | over every relay run, with messages lost, delayed and repeated: replies carry the payloads that were enqueued, and every ack, with every report in it, was written by some cycle on such a reply |
| Relay.AckedMeansSettled | src/poller.rs:156-161 | an entry leaves the queue by ack only by the ack of a cycle that was finished before that ack arrived, and in which that very notification was unreadable, or each of its deliveries was a repeat, at an unconfigured app, or answered other than transient |
| Relay.UnsettledIsHeld | src/queue.rs:10-12 | an event entry or newest badge never settled, never evicted and never polled past its TTL is still held; once its lease is over it has a place in the next poll's pool, and is handed out iff that poll asks for more than the deliverable entries before it |
| Relay.RejectionProvenance | src/gateway.rs:205-212 | a pushkey the queue side answers as rejected was reported for the same app id less than rejected_ttl earlier, by the ack of a cycle in which a delivery to that very device was no suppressed repeat and was rejected by its provider, or by the unknown-app rule |
| Relay.RejectedExactly | src/queue.rs:125-133 | with a monotone clock, a device is answered rejected iff a report started a window of its pushkey less than rejected_ttl ago and fewer others than the memory holds were started since |
| Relay.ReportIsAnswered | src/queue.rs:17-21 | every report in an ack that reaches the queue side starts or falls into such a window, and until that is over or crowded out, every later notify for the device is answered rejected |
| Relay.ReportAgainIsForgotten | src/queue.rs:125-133 | after any history: a pushkey reported when it was unknown, and again before the TTL is over, is not answered any more when that first TTL is over |
| Relay.ExchangeSettles | src/poller.rs:114-179 | after any history, an undisturbed poll, cycle and ack remove exactly the fetched entries that were unreadable or had no failed delivery; the others stay out on lease until poll time + lease |
| PollLoop.RunKeepsLoop | src/poller.rs:114-179 | over every run of relay and poll loop: between cycles the loop owes nothing, each of its tries is a step at which the provider was called, and its tries account for all deliveries of a key nobody else delivers |
| PollLoop.LoopOncePerWindow | src/queue.rs:10-13 | the poll side absorbs redelivery: with replies and acks lost, delayed and repeated, leases running out, and other tasks interleaved at every step, whenever the loop tries its provider for a key only it delivers, all earlier accepted deliveries of the key have windows of their own, each at least the TTL old or followed by max_entries others |
| PollLoop.NextTryIsWindowLater | src/poller.rs:145-155 | a delivered try, recorded at T, starts a window of its own at T, and any later try of the key comes at T + TTL or later, or after max_entries other windows were started |
| PollLoop.CycleIsCurrent | src/poller.rs:145-155 | each delivery of a cycle judges the repeat by the cache as the run left it at that moment, and its check is the very next step |
| PollLoop.RedeliveryIsAcked | src/poller.rs:145-162 | an entry all of whose keys had a window before the cycle that is not over or evicted by its end is listed in the ack the loop sends, and adds no rejection to it |
| PollLoop.DeliveryIsTask | src/gateway.rs:119-192 | run without interruption, the loop's steps for any notification and any app, suppressed or not, are exactly one delivery of the pipeline |
| PollLoop.PollOnceIsCycle | src/poller.rs:133-162 | what PollOnce does with a reply is one cycle of that loop: same recordings, same dispositions, same ack, and the loop is idle again |

## Left out

- HTTP, routing, TLS, proxies, token files and the bearer-token comparison: library calls and I/O.
- Provider internals (FCM, APNs, Web Push and its encryption): a delivery's outcome is a parameter.
- Configuration, payload builders, endpoint allowlist, JSON encoding beyond "it may fail", the clamp on a poll's timeout and the reconnect backoff: each is a single expression with nothing to prove about it beyond itself.
- Process restarts, wrap-around of the 64-bit id counter, mutex poisoning, logging and the health probe.
- An instance that is queue side and poll side at once: `Poller.PollOnce` is stated for an instance without a queue.
- The gaps inside an ack request (`src/gateway.rs:291-296`): `Gateway.QueueState.TakeAck` and `Relay` settle its ids and record its reports in one step, so reports of two acks do not mix and no notify falls in between. No theorem relies on reports of one ack being adjacent.
- `notify_waiters` itself: that a registered waiter is woken by every later notify is part of the steps of `WakeUp`, not derived.
- The long-poll deadline: a waiter may time out at any moment; its length plays no role.
- The library sort in `src/queue.rs:269`: `NotificationQueue.NotificationQueue.ExpiredDescending` inserts into place instead, to the same result.
- `Instant` overflow of `now + lease`: times are unbounded.
- `PollLoop` follows one poll loop step by step; other loops and the gateway's own requests appear as steps of other tasks, which may do anything but deliver or record the key a theorem speaks of.
