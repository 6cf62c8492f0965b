# Health monitor: a verified model

The health monitor is a resident service that watches its own node and its peer services. It runs a
single-threaded loop: drain the message bus, service every check, sleep until the nearest check is
due. This project models the loop and what it drives, and proves what holds over whole runs.

| Module | Part of the system |
|---|---|
| `IntervalTimers` | the shared timer: a cadence, and an optional expiry window |
| `Topics`, `MessageBuses` | the topic matcher and the bounded FIFO bus |
| `HealthTypes`, `PeriodicChecks` | results, counters, and the publish-and-count glue every check shares |
| `LivenessSpec`, `Heartbeat` | peer liveness as a function of state, and the heartbeat check object proved to do it |
| `LivenessHistory`, `LivenessStreams`, `LivenessReports`, `PeerDelivery` | what liveness state and results mean over any history of beats and ticks |
| `ResultDelivery`, `Emission` | from results to their subscribers, and our own beacons to the peers that accept them |
| `SweepSpec`, `MemorySweep`, `SweepRuns`, `SweepDetection` | the sliced memory sweep: one slot, the object, whole runs, and how long a corrupt page goes unreported |
| `Storage` | storage probing: the object, and what its counters mean over any probe history |
| `Scheduler`, `Service`, `ServiceRuns` | the loop as a scheduler, the loop object, and what any run of it does to the bus |
| `StorageRuns` | storage probing under the loop: what lateness and raised scans do to failed probes |
| `Detection`, `SystemDelivery` | bus, loop and heartbeat check together: detection latency, and a publisher's beacons from bus to verdict |
| `Config` | layering, environment names, and what an accepted configuration guarantees |

## How the model is built

* Each object the program updates in place is a class with the program's fields. Its `View()` is a
  value, and each method is proved to take that value where a specification function takes it. Lemmas
  about those functions carry the properties over whole runs.
* Time is `real`; every clock reading is a parameter. Nothing is assumed of readings except where a
  lemma says so: `ClockOrdered` says that readings never go back, `Scheduler.Paced` bounds a round.
* Whatever the program calls but does not define is an arbitrary oracle: bus handlers (which may
  publish, subscribe and raise on every call), memory page reads and ECC reads (which may raise), the
  budget clock, and mount probes (which may raise).
* The bus keeps histories the program does not (`offered`, `accepted`, `dispatched`, `calls`), as ghost
  fields or as the record of the calls made. They are what the delivery claims are about.
* What others publish while the loop sleeps is part of what an iteration meets (`arrivals`), so a run of the
  loop is a run of bus operations by everybody.
* The checks hold a `PeriodicCheck` where the program inherits from one. A dictionary of peers is a map
  with the list of its keys in order.

## Main results

* **Liveness refines history.** After each tick a peer is live exactly when its creation or some accepted
  beat lies within the timeout, where "accepted" is read off the whole history without any state.
* **The result stream determines the state.** Each peer's results alternate, carry the loss count, and need
  an accepted beat between a FAULT and the next OK; quorum results never repeat and are always current;
  every FAULT is one peer loss or one quorum loss. The quorum part holds exactly when no peer is named
  `quorum`. Quorum counts exactly the peers heard within the timeout.
* **Loop bounds.** Lateness, poll gap, exact cadence with instantaneous rounds, and a bound on the number of
  rounds between any two rounds of any run.
* **Detection end to end.** A silent peer gets exactly one FAULT, within the timeout plus one loop period plus
  twice a round's work. A corrupt page gets one within twice as many sweep services as the region has pages,
  each at most the scan period plus twice a round's work after the one before, while nothing raises.
* **No false alarms.** A peer whose beacons are all delayed by up to some bound is never declared lost, whatever
  the order and repetitions, exactly when that bound is at most timeout minus period. One late beacon among
  punctual ones is harmless exactly when its lateness is within that margin or the timeout is at least two
  periods. From the publisher's side it suffices that the timeout exceeds the period, the publisher's jitter,
  one round's work, and a loop period and a round's work for every whole drain a beacon may wait; that wait is
  nothing on a bus whose handlers only listen and whose bursts fit one drain.
* **Sliced sweep equals one-shot sweep**, for any budget clock and any raises; ECC deltas telescope exactly
  when no counter goes backwards. The slice budget is kept exactly when the slice's pages fit it.
* **Failed storage probes**, in every run of the loop: a FAULT exactly when the mount's previous probe failed
  too or is older than the stall threshold, however often scans raise or a mount is listed.
* **Bus.** FIFO and conservation, delivery as selection by pattern, exact waiting time by queue position, and a
  topic matcher proved against its segmentwise meaning, for subscriptions made at any time. Every publish is
  counted, by whomever.
* **The loop on the bus.** Any run of the loop is a run of bus operations with one drain an iteration, before the
  checks publish; so each queued message waits exactly its position's share of iterations, each subscriber gets
  its pattern's share, and each result reaches the subscribers of its check's topics exactly if its subject is
  one segment.

## Where code and documentation differ

The model follows the code.

* The repository's `README.md` says quorum is published on transitions only; the first service call always
  publishes it (`LivenessStreams.QuorumResultsAreCurrent`).
* `memory_integrity.py` says no iteration spends more than the slice budget. The first page is never checked
  against the budget, and the budget is read before a page, not during it. With pages of cost at most `cost`
  the budget is kept by every slot exactly when the pages a slice can check, times `cost`, fit it
  (`SweepRuns.SliceKeepsBudgetIff`); otherwise some slot overruns (`SweepRuns.OverrunningSlot`), by one page
  at most (`SweepRuns.SliceWithinBudget`).
* `heartbeat.py` says a peer is declared lost the instant its timer expires. Expiry is observed at service
  calls only: a gap that ends before the next call is never reported (`PeerDelivery.GapBetweenCallsUnreported`),
  and a peer is reported exactly when some call falls into a gap (`PeerDelivery.NeverLostIffAlwaysHeard`).
* `config.py` demands a timeout greater than the period so that a single late heartbeat does not declare a peer
  lost. That covers a lateness of up to timeout minus period. A single heartbeat of any lateness is covered
  exactly by a timeout of at least two periods, when the others are on time (`Config.SingleLateHeartbeat`,
  `PeerDelivery.AnyLatenessHarmlessIff`); the defaults have three. Below that, one beacon later than the margin
  loses the peer (`PeerDelivery.OneLateBeaconLosesPeer`, and `PeerDelivery.NeverLostByOneLateIff` in general).
* `config.py` compares the quorum with the number of listed peers; duplicates collapse, so the comparison
  guarantees a reachable quorum for distinct names only (`Config.RepeatedPeerBreaksQuorum`).

## Model

| member | source | states |
|---|---|---|
| `HealthTypes.CheckStats.Record` | src/health_monitor/common/types.py:67-77 | the new counters are the specified ones: missed slots always added, the rest only for a result |
| `HealthTypes.StatsSummariseHistory` | src/health_monitor/common/types.py:56-77 | over any history of service calls, runs, faults, degraded, last state and time are those of all results; missed slots are counted on calls that reported nothing only, and a raise counts nothing |
| `IntervalTimers.IntervalTimer.constructor` | src/health_monitor/common/interval_timer.py:124-133 | a new timer's anchors; with start_due the service anchor lies one period back |
| `IntervalTimers.IntervalTimer.Create` | src/health_monitor/common/interval_timer.py:107-133 | construction succeeds exactly for a positive period and a positive or absent expiry, and names the offending value otherwise |
| `IntervalTimers.IntervalTimer.Poll` | src/health_monitor/common/interval_timer.py:152-190 | the tick, field by field, as a function of the timer's value; polling changes nothing |
| `IntervalTimers.IntervalTimer.MarkServiced` | src/health_monitor/common/interval_timer.py:192-200 | only the service anchor moves, to the acknowledgement |
| `IntervalTimers.IntervalTimer.Refresh` | src/health_monitor/common/interval_timer.py:202-209 | only the refresh anchor moves |
| `IntervalTimers.IntervalTimer.Reset` | src/health_monitor/common/interval_timer.py:211-216 | both anchors move to the one reading |
| `IntervalTimers.IntervalTimer.SecondsUntilDue` | src/health_monitor/common/interval_timer.py:218-222 | the remaining wait as a function of the timer's value |
| `IntervalTimers.SecondsUntilDueIsLeastWait` | src/health_monitor/common/interval_timer.py:218-222 | the remaining wait is the least after which a poll reports due; it is zero exactly when due |
| `IntervalTimers.NewTimerDue` | src/health_monitor/common/interval_timer.py:107-133 | a timer that starts due is due from its creation on, any other a period later; either expires the window after creation |
| `IntervalTimers.PollAfterService` | src/health_monitor/common/interval_timer.py:152-200 | a poll after a service measures the cadence from it, field by field, and the expiry as if there had been none |
| `IntervalTimers.PollAfterRefresh` | src/health_monitor/common/interval_timer.py:152-209 | a poll after a refresh measures the expiry from it and the cadence as if there had been none |
| `IntervalTimers.MissedSlotsAreWholePeriods` | src/health_monitor/common/interval_timer.py:159-164 | on a due poll, one plus the missed slots is the number of whole periods since the last service |
| `IntervalTimers.SlotAccounting` | src/health_monitor/common/interval_timer.py:152-200 | over any list of polls, services plus missed slots lie between the whole periods elapsed and that number less the services made: starvation creates no catch-up runs |
| `Topics.Split` | src/health_monitor/bus.py:10-11 | splitting a topic on dots gives at least one segment, none holding a dot, and just one exactly when there is no dot |
| `Topics.SplitJoin` | src/health_monitor/bus.py:10-11 | joining dot-free segments and splitting again gives them back |
| `Topics.JoinSplit` | src/health_monitor/bus.py:10-11 | splitting and joining again gives the topic back |
| `Topics.SplitConcat` | src/health_monitor/bus.py:10-11 | joining two topics with a dot joins their segments |
| `Topics.MatchesIsSegmentwise` | src/health_monitor/bus.py:41-50 | for every pattern and topic the prefix test holds exactly when the segments are equal, or equal but for a final `*` standing for exactly one segment |
| `Topics.LastSegmentIsLast` | src/health_monitor/checks/heartbeat.py:107 | the part after the last dot is the topic's last segment |
| `Topics.PeerTopicReachesPeer` | src/health_monitor/checks/heartbeat.py:102-108 | a peer's beacon topic matches the subscription, and decodes to the peer's name, exactly when the name has no dot |
| `Topics.AcceptedTopicNamesPeer` | src/health_monitor/checks/heartbeat.py:102-108 | every topic the subscription accepts is the beacon topic of the name decoded from it |
| `Topics.PeerTopicSegments` | src/health_monitor/checks/heartbeat.py:102-108 | a beacon's topic is `peer`, `heartbeat` and the peer's segments; the subscription's pattern ends in the wildcard |
| `MessageBuses.MessageBus.constructor` | src/health_monitor/bus.py:61-70 | an empty bus of the given depth, where zero or less means no bound |
| `MessageBuses.NewBusIsIdle` | src/health_monitor/bus.py:61-70 | a new bus is sound, of the given depth, and empty in every respect |
| `MessageBuses.MessageBus.Subscribe` | src/health_monitor/bus.py:84-86 | the subscription is appended |
| `MessageBuses.MessageBus.Publish` | src/health_monitor/bus.py:88-107 | a full queue of a bounded bus drops and counts the message; otherwise it joins the end of the queue and is counted as published |
| `MessageBuses.MessageBus.Drain` | src/health_monitor/bus.py:109-120 | the whole new state after delivering up to the limit, with handlers acting meanwhile; the result is the number dispatched |
| `MessageBuses.MessageBus.Dispatch` | src/health_monitor/bus.py:122-132 | the message goes to the subscriptions present when it is taken, in order, whatever they do in return |
| `MessageBuses.Matching` | src/health_monitor/bus.py:123-124 | the subscriptions picked are exactly those whose pattern accepts the topic, each once, in order |
| `MessageBuses.DrainLoopGrows` | src/health_monitor/bus.py:109-120 | a drain takes at most its limit, stops short only on an empty queue, and keeps every untaken message in place |
| `MessageBuses.FifoConservation` | src/health_monitor/bus.py:84-132 | over every run, dispatched followed by queued is exactly the accepted messages in publish order; offers are published plus dropped; published is delivered plus queued |
| `MessageBuses.DeliveryIsSelection` | src/health_monitor/bus.py:109-132 | over every run, a subscription present at the start is called with exactly its pattern's share of what was dispatched since, once each, in order |
| `MessageBuses.SubscribingRegisters` | src/health_monitor/bus.py:84-86 | a subscription made in the middle of any run takes the next position, moves no other, and is called with exactly its pattern's share of what is dispatched from then on |
| `MessageBuses.EveryPublishCounted` | src/health_monitor/bus.py:88-107 | over every run, what the bus was offered is what the run's operations publish plus what each handler call made publishes |
| `MessageBuses.BoundedWaiting` | src/health_monitor/bus.py:109-120 | over every run of drains of one limit, the message at queue position k has been dispatched exactly when drains times limit exceeds k, whatever is published meanwhile |
| `MessageBuses.SixteenDrainsAtDefaults` | src/health_monitor/bus.py:26-120 | at the default depth and limit every queued message is dispatched within sixteen drains |
| `PeriodicChecks.PeriodicCheck.Complete` | src/health_monitor/checks/base.py:52-69 | a raise acknowledges the slot and changes nothing else; otherwise results are published and counted in order, and missed slots counted when there is none |
| `PeriodicChecks.PeriodicCheck.PublishResult` | src/health_monitor/checks/base.py:71-79 | the subject's last state is replaced and the result's message offered to the bus |
| `PeriodicChecks.LastStatesAreLatest` | src/health_monitor/checks/base.py:71-73 | what is remembered for a subject is the state of its latest result, or what was known before if there is none |
| `ResultDelivery.ResultTopicSegments` | src/health_monitor/common/types.py:39-42 | a result's topic is `health`, the check's segments, and the subject's unless it is empty |
| `ResultDelivery.CheckPatternHears` | src/health_monitor/bus.py:41-50 | a subscription to a check's topics accepts exactly that check's results about a nonempty, dot-free subject |
| `ResultDelivery.ResultsArePublished` | src/health_monitor/checks/base.py:63-79 | publishing a call's results queues, in order and up to the queue's depth, one message for each, carrying the result, its topic and time and the check's name; the rest is counted as dropped |
| `ResultDelivery.CheckSubscriberHears` | src/health_monitor/checks/base.py:71-79 | after the drain a subscriber to the check's topics has been called, in order, with one such message for each of those results, and with nothing else if handlers only listen |
| `Heartbeat.HeartbeatCheck.constructor` | src/health_monitor/checks/heartbeat.py:61-96 | one record per distinct name in order of first appearance, each as created for the last list entry of that name; the emit timer starts due |
| `Heartbeat.HeartbeatCheck.KeysFollowFirstAppearance` | src/health_monitor/checks/heartbeat.py:85-96 | the peers' order is that of their first appearance in the list |
| `Heartbeat.HeartbeatCheck.StartsInitial` | src/health_monitor/checks/heartbeat.py:78-96 | a new check's value is the first state of the histories below |
| `Heartbeat.HeartbeatCheck.Attach` | src/health_monitor/checks/heartbeat.py:102-103 | the check subscribes to the peer heartbeat pattern |
| `Heartbeat.HeartbeatCheck.OnPeerHeartbeat` | src/health_monitor/checks/heartbeat.py:105-131 | the new value of all peers after one beacon: unknown, unreadable or stale beacons change nothing, an accepted one changes its own peer only |
| `Heartbeat.PeerRecord.Accept` | src/health_monitor/checks/heartbeat.py:129-131 | number, refresh count and refresh anchor of one record are updated and nothing else |
| `Heartbeat.HeartbeatCheck.EvaluatePeer` | src/health_monitor/checks/heartbeat.py:168-212 | liveness follows expiry; a result, with its loss count, comes only with a change |
| `Heartbeat.HeartbeatCheck.EvaluateQuorum` | src/health_monitor/checks/heartbeat.py:214-236 | the live peers are counted and a result given only when the state differs from the last published |
| `Heartbeat.HeartbeatCheck.Emit` | src/health_monitor/checks/heartbeat.py:152-163 | the next sequence number is taken and the beacon carrying it is offered to the bus |
| `Emission.BeaconsAreNumbered` | src/health_monitor/checks/heartbeat.py:152-163 | over any list of service calls on a bus with room, each due one puts one beacon on the bus, on our topic, numbered on without a gap |
| `Emission.PeersAcceptOurBeacons` | src/health_monitor/checks/heartbeat.py:105-131 | a peer that runs the same check hears every one of them and accepts every one |
| `Heartbeat.HeartbeatCheck.OnTick` | src/health_monitor/checks/heartbeat.py:133-150 | a beacon exactly when due, every peer observed once, results in peer order and quorum last |
| `Heartbeat.HeartbeatCheck.Service` | src/health_monitor/checks/base.py:52-69 | one service call of the heartbeat check: peers, memory of published states, counters, bus and cadence timer |
| `LivenessHistory.PeersAreIndependent` | src/health_monitor/checks/heartbeat.py:105-177 | each peer's state depends on its own beats and the ticks only |
| `LivenessHistory.StateTracksHistory` | src/health_monitor/checks/heartbeat.py:116-131 | the stored number is the running maximum since the last negative number, refreshes counts the accepted beats, and the anchor is the latest accepted beat or creation |
| `LivenessHistory.LivenessRefinesHistory` | src/health_monitor/checks/heartbeat.py:140-177 | after each tick a peer is live exactly when its creation or some accepted beat lies within the timeout |
| `LivenessHistory.StoredIsGreatestSeen` | src/health_monitor/checks/heartbeat.py:116-131 | with no negative numbers, the stored number is the greatest seen, or -1 if none was |
| `LivenessHistory.ReorderingKeepsSequence` | src/health_monitor/checks/heartbeat.py:116-131 | reordering or repeating beats with the same non-negative numbers leaves the same number stored |
| `LivenessHistory.BeatLeavesNumber` | src/health_monitor/checks/heartbeat.py:116-131 | over any history, a beat that counts leaves its number stored, -1 if it has none, and any other leaves the peer as it was; a beat without a number always counts |
| `LivenessStreams.PeerResultsAlternate` | src/health_monitor/checks/heartbeat.py:168-212 | a peer's results alternate FAULT, OK; the k-th FAULT carries loss count k; refreshes grow between a FAULT and the next OK; the peer is live exactly when its last result is not a FAULT |
| `LivenessStreams.QuorumResultsAreCurrent` | src/health_monitor/checks/heartbeat.py:214-236 | quorum results never repeat a state, start with the first service call, and the last is the quorum state of the peers as they stand |
| `LivenessStreams.QuorumStreamSoundIffNameFree` | src/health_monitor/checks/heartbeat.py:219-221 | the previous property holds for every history exactly when no peer is named like the quorum subject |
| `LivenessStreams.PeerNamedQuorumBreaksStream` | src/health_monitor/checks/base.py:72-73 | a concrete three-event history that breaks it for any setup with such a peer |
| `LivenessStreams.QuorumChangeHasPeer` | src/health_monitor/checks/heartbeat.py:140-150 | after the first call, a quorum result comes with a peer result of the same state in the same call |
| `LivenessReports.LiveCountIsCardinality` | src/health_monitor/checks/heartbeat.py:215-217 | for distinct names the live count is the size of the set of listed peers that are live |
| `LivenessReports.QuorumCountsHeardPeers` | src/health_monitor/checks/heartbeat.py:214-236 | over any history, after each service call the live count is the number of peers heard within the timeout, and quorum is lost exactly when that is less than required |
| `LivenessReports.QuorumResultTells` | src/health_monitor/checks/heartbeat.py:222-236 | a quorum result carries that number, the required and the configured number |
| `LivenessReports.PeerResultTells` | src/health_monitor/checks/heartbeat.py:179-212 | a peer result carries the time since the peer was last heard and the number of its beats that counted |
| `LivenessReports.ReportsAreStamped` | src/health_monitor/checks/heartbeat.py:140-150 | every result names the heartbeat check, the call's instant, and a listed peer or the quorum |
| `LivenessReports.ReportsFollowOrder` | src/health_monitor/checks/heartbeat.py:140-150 | a call reports peers in their order and quorum, at most once, last |
| `LivenessStreams.CallsCarryReports` | src/health_monitor/checks/base.py:52-69 | the service calls of a history hand over exactly its reports, in order |
| `LivenessStreams.FaultsAreConserved` | src/health_monitor/common/types.py:74-75 | after any history and whatever slots were missed, the fault counter is the sum of all peers' losses plus the quorum FAULTs, and the run counter is the number of results |
| `PeerDelivery.NeverLostIffAlwaysHeard` | src/health_monitor/checks/heartbeat.py:168-212 | nothing is reported about a peer exactly when every service call finds its creation or an accepted beat within the timeout |
| `PeerDelivery.TimelyBeaconsNeverLost` | src/health_monitor/checks/heartbeat.py:168-212 | beacons sent every period, none from some number on delayed by more than timeout minus period and that one there within the timeout of the record's creation, never lead to a loss, even overtaking each other or repeated |
| `PeerDelivery.OneLateBeaconLosesPeer` | src/health_monitor/config.py:256-260 | if the timeout covers neither the period and the lateness of one beacon nor two periods and the delay of the others, a history with just that beacon so late in which the peer is reported |
| `PeerDelivery.NeverLostByOneLateIff` | src/health_monitor/config.py:256-260 | one beacon late by up to a bound, every other delayed by up to a smaller one, never loses the peer, over all histories and whichever beacon it is, exactly when the timeout covers the period and the first bound or two periods and the second |
| `PeerDelivery.AnyLatenessHarmlessIff` | src/health_monitor/config.py:256-260 | one beacon of any lateness is harmless exactly when the timeout covers two periods and the delay of the others |
| `PeerDelivery.NeverLostWithinIffMargin` | src/health_monitor/checks/heartbeat.py:168-212 | when every beacon may be delayed by up to a bound, the peer is never lost, over all histories, exactly when the bound is at most timeout minus period |
| `PeerDelivery.GapBetweenCallsUnreported` | src/health_monitor/checks/heartbeat.py:133-177 | a history with a gap beyond the timeout that ends just before a service call and is not reported, though the call alone would report it |
| `PeerDelivery.SilenceReportedOnce` | src/health_monitor/checks/heartbeat.py:168-212 | between consecutive service calls a silent peer is reported, as one FAULT, exactly when the timeout passes between them |
| `SweepRuns.TilesCoverOnce` | src/health_monitor/checks/memory_integrity.py:154-170 | the pages of a region are its bytes in order, each once, full pages but for a shorter last one; their number |
| `MemorySweep.MemoryIntegrityCheck.constructor` | src/health_monitor/checks/memory_integrity.py:82-108 | a sweep at the region start with no baseline, due at once |
| `MemorySweep.MemoryIntegrityCheck.CheckPage` | src/health_monitor/checks/memory_integrity.py:154-172 | one page is checked and counted, or nothing moves if its read raises |
| `MemorySweep.MemoryIntegrityCheck.AdvanceSlice` | src/health_monitor/checks/memory_integrity.py:139-174 | the pages checked and the new state are those of the specified slice, raises included; completion means the region end is reached |
| `MemorySweep.MemoryIntegrityCheck.SummarisePass` | src/health_monitor/checks/memory_integrity.py:176-212 | the result and the state for the next pass |
| `MemorySweep.MemoryIntegrityCheck.OnTick` | src/health_monitor/checks/memory_integrity.py:118-137 | nothing when not due; otherwise the specified slot, whichever of its calls raises |
| `MemorySweep.MemoryIntegrityCheck.Service` | src/health_monitor/checks/base.py:52-69 | one service call of the sweep: a due slot is acknowledged whether or not it raises, and a raise publishes and counts nothing |
| `SweepRuns.ScanCovers` | src/health_monitor/checks/memory_integrity.py:148-174 | a scan covers exactly the tiles it removes from those left, at most the slice's pages, and at least one before the region end unless it raises |
| `SweepRuns.ScanStopsRight` | src/health_monitor/checks/memory_integrity.py:148-172 | every page a scan tries is within the slice's count and, after the first, within the budget; it ends on a raise, at the count, at the region's end or with the budget used up |
| `SweepRuns.SlotRaisesIff` | src/health_monitor/checks/memory_integrity.py:118-146 | a slot raises exactly when an ECC reading or a page does, and then keeps every page it checked |
| `SweepRuns.SliceWithinBudget` | src/health_monitor/checks/memory_integrity.py:139-152 | whatever raises, a slice ends within its budget plus the cost of one page |
| `SweepRuns.OverrunningSlot` | src/health_monitor/checks/memory_integrity.py:139-152 | from any state whose next slice has pages enough to exceed the budget at `cost` each, a slot with pages that cheap that overruns |
| `SweepRuns.SliceKeepsBudgetIff` | src/health_monitor/checks/memory_integrity.py:139-152 | every slot with pages of cost at most `cost` stays within the budget exactly when the most pages the slice can check, times `cost`, do |
| `SweepRuns.EveryPassIsWhole` | src/health_monitor/checks/memory_integrity.py:118-212 | over any run, every completed pass checked each tile once in order, reports their number and mismatches, and took at least N / pages-per-slice slots and at most N that did not raise |
| `SweepRuns.PassVerdict` | src/health_monitor/checks/memory_integrity.py:179-193 | a completed pass is a FAULT exactly for enough new uncorrectable events or some bad page among those it checked, DEGRADED for enough correctable ones otherwise, else OK; a counter that fell counts as nothing new |
| `SweepRuns.SlicedEqualsOneShot` | src/health_monitor/checks/memory_integrity.py:148-174 | for unchanged memory each completed pass checks the same pages and reports the same mismatch count as one uninterrupted scan |
| `SweepRuns.PassesChain` | src/health_monitor/checks/memory_integrity.py:145-146 | each pass starts from the ECC snapshot the previous one ended with |
| `SweepRuns.EccConserved` | src/health_monitor/checks/memory_integrity.py:176-211 | the reported deltas of all passes add up to the last snapshot minus the first baseline exactly when no pass saw the counter go backwards |
| `SweepDetection.CorruptionReported` | src/health_monitor/checks/memory_integrity.py:118-212 | a page no read finds good any more is reported as a FAULT before twice as many visits as the region has pages have passed without raising, however the slices are cut and whatever else raises |
| `SweepDetection.CorruptionLatency` | src/health_monitor/checks/memory_integrity.py:118-212 | under the loop, while nothing raises, that FAULT comes within that many times the scan period plus twice a round's work of the instant the page turned bad |
| `Storage.StorageHealthCheck.constructor` | src/health_monitor/checks/storage_health.py:116-138 | no failures and no good probe known for any mount, due at once |
| `Storage.StorageHealthCheck.Note` | src/health_monitor/checks/storage_health.py:147-153 | what one probe changes of a mount's memory |
| `Storage.StorageHealthCheck.Evaluate` | src/health_monitor/checks/storage_health.py:159-231 | the result of one probe, from the mount's memory |
| `Storage.StorageHealthCheck.OnTick` | src/health_monitor/checks/storage_health.py:140-157 | nothing when not due; otherwise one probe per mount in order, up to the first that raises |
| `Storage.StorageHealthCheck.Service` | src/health_monitor/checks/base.py:52-69 | one service call of the storage check: a due slot is acknowledged whether or not it raises |
| `Storage.CountersSummariseHistory` | src/health_monitor/checks/storage_health.py:145-153 | a mount's failure counter is the length of its failing suffix, and its last good probe is the one before it, over any interleaved history |
| `Storage.FailedProbeJudgement` | src/health_monitor/checks/storage_health.py:159-190 | a failed probe is DEGRADED exactly when it starts its failing suffix and staleness is within the threshold, else FAULT |
| `Storage.FaultMeansTwoFailures` | src/health_monitor/checks/storage_health.py:178-190 | with probes no further apart than the threshold, a failed probe is a FAULT exactly when the previous one failed too |
| `Storage.PreviousProbeDecides` | src/health_monitor/checks/storage_health.py:178-190 | over any history, a failed probe is a FAULT exactly when the mount's previous probe failed too or is older than the threshold; without a previous probe, when the threshold is negative |
| `Storage.GoodProbeJudgement` | src/health_monitor/checks/storage_health.py:192-231 | over any history, the result of a good probe is FAULT, DEGRADED or OK by its free fraction and latency alone |
| `Storage.ResultDescribesProbe` | src/health_monitor/checks/storage_health.py:159-174 | over any history, a result names the check and the mount, carries the readings and the time, and tells the failing suffix and the staleness |
| `Storage.ProbedAtOnce` | src/health_monitor/checks/storage_health.py:144-157 | a scan probes every mount in turn, up to the first whose probe raises, at the tick's instant |
| `Storage.SlugMeaning` | src/health_monitor/checks/storage_health.py:234-235 | the subject is the path without outer slashes, inner ones written as dashes, or `root` if nothing is left |
| `Storage.CascadeIsWorstOf` | src/health_monitor/checks/storage_health.py:192-231 | a good probe is judged the worse of capacity and latency taken alone, and never healthier for being fuller or slower |
| `Storage.ScanExtendsHistory` | src/health_monitor/checks/storage_health.py:144-157 | a scan's memory and results are those of the extended history, up to a probe that raises |
| `Storage.MountTopicSeenIff` | src/health_monitor/checks/storage_health.py:234-235 | a mount's results match `health.disk.*` exactly when its path holds no dot |
| `Scheduler.SoonestBounds` | src/health_monitor/service.py:115-120 | the sleep is the least of the loop period and every check's remaining wait |
| `Scheduler.LatenessBound` | src/health_monitor/service.py:103-146 | after its first poll no check is polled later than twice a round's work past its due instant |
| `Scheduler.ExactCadence` | src/health_monitor/service.py:103-146 | with instantaneous rounds nothing is overdue and services are exactly one period apart |
| `Scheduler.PollGap` | src/health_monitor/service.py:103-146 | consecutive polls of a check are at most a loop period plus twice a round's work apart |
| `Scheduler.EachRoundIsUseful` | src/health_monitor/service.py:115-146 | every round after the first starts a full loop period later or serves a due check |
| `Scheduler.SleepsArePositive` | src/health_monitor/service.py:144-146 | with instantaneous rounds every sleep is positive |
| `Scheduler.NoBusyLoop` | src/health_monitor/service.py:115-146 | from any round to any later one, the rounds are at most one plus the span's whole loop periods plus each check's whole periods in it plus one for each check the first round does not serve, however long rounds take |
| `Scheduler.NoBusyLoopFromStart` | src/health_monitor/service.py:115-146 | from the first round of a run whose checks all start due, nothing is added to the whole periods but one |
| `Scheduler.AnchoredAtLastService` | src/health_monitor/common/interval_timer.py:192-200 | in every run a check's cadence is anchored at the poll of the last round that served it |
| `Scheduler.ServiceGap` | src/health_monitor/service.py:103-146 | consecutive services of a check are at least its period and at most twice a round's work more apart |
| `Service.HealthMonitorService.constructor` | src/health_monitor/service.py:63-74 | a service that is not running and has performed no iteration |
| `Service.HealthMonitorService.Step` | src/health_monitor/service.py:103-113 | bus drained once, then each check served and its messages published in order; the telemetry counts all results and names the worst |
| `Service.HealthMonitorService.SleepBudget` | src/health_monitor/service.py:115-120 | the sleep as a function of the timers' values and the readings |
| `Service.HealthMonitorService.Shutdown` | src/health_monitor/service.py:151-156 | the status is offered to the bus and two drains follow |
| `Service.HealthMonitorService.RunLoop` | src/health_monitor/service.py:122-149 | over any list of iterations, the run they make or the part of a longer run they cover: which are performed and whether the run ends there, the state after them, each sleep, and the shutdown exactly at the end |
| `Service.LoopSleepsAsScheduled` | src/health_monitor/service.py:130-146 | the loop's sleeps satisfy the rule of the scheduler's runs, so their bounds hold of it |
| `Service.StatusDelivered` | src/health_monitor/service.py:151-156 | the status is accepted exactly when the queue has room, and then dispatched during shutdown exactly when at most 511 messages were queued before it; an unbounded queue always has room |
| `Service.PerformedIsFirstEnd` | src/health_monitor/service.py:130-146 | a run performs the iterations up to the first after which it is stopped or the maximum is reached, at least one, and all of the list if there is none |
| `Service.WorstMeaning` | src/health_monitor/service.py:106-113 | the telemetry's worst state is the highest of UNKNOWN, FAULT, DEGRADED that some result has, or OK |
| `Service.TurnResultsInOrder` | src/health_monitor/service.py:106-113 | the results counted are all checks' results, in service order |
| `ServiceRuns.LoopIsOperations` | src/health_monitor/service.py:103-146 | any list of iterations does to the bus what its operations do: others' publishes, one drain, the checks' messages, iteration by iteration |
| `ServiceRuns.LoopDispatches` | src/health_monitor/service.py:103-105 | over any list of iterations, the message at queue position k has been dispatched exactly when more than k / 256 of them have happened |
| `ServiceRuns.LoopDelivers` | src/health_monitor/service.py:103-105 | over any list of iterations, each subscription is called with exactly its pattern's share of what is dispatched |
| `ServiceRuns.StepPublishesAfterDrain` | src/health_monitor/service.py:103-113 | after the drain of an iteration its checks' messages fill the queue in turn order up to its depth, the rest is dropped and counted, and no handler is called |
| `ServiceRuns.LoopDrainsEachRound` | src/health_monitor/service.py:103-113 | a system driven by the loop drains once a round, before the check is polled, as the delivery results below assume |
| `ServiceRuns.LoopKeepsBusSound` | src/health_monitor/service.py:103-146 | any list of iterations keeps the bus's FIFO and counting invariants |
| `ServiceRuns.StepKeepsBusSound` | src/health_monitor/service.py:103-113 | so does a single iteration |
| `ServiceRuns.StatusReachesSubscriber` | src/health_monitor/service.py:151-180 | the last status message reaches a subscriber to the monitor's topics, under the service's name and the shutdown's time, if there is room and at most 511 messages are before it |
| `Detection.BeaconReachesCheck` | src/health_monitor/bus.py:109-132 | a queued beacon is handed to the heartbeat subscription and decoded within position / limit + 1 drains exactly when the peer's name has no dot |
| `Detection.AttachedCheckHears` | src/health_monitor/checks/heartbeat.py:102-103 | from attaching on, the check is called with exactly the messages dispatched since that its pattern accepts; a peer's beacons are among them exactly if its name has no dot |
| `Detection.AttachThenBeacon` | src/health_monitor/checks/heartbeat.py:102-108 | after attaching, one beacon and one drain the check has been called with it exactly if the peer's name has no dot |
| `Detection.DetectionLatency` | src/health_monitor/service.py:103-146 | a silent peer gets exactly one report, a FAULT strictly after the timeout and at most a loop period plus twice a round's work later |
| `SystemDelivery.AcceptedFromOps` | src/health_monitor/bus.py:84-132 | on a topic no handler publishes to, every message the bus has accepted was published from outside a drain |
| `SystemDelivery.BeatsAreSentBeacons` | src/health_monitor/checks/heartbeat.py:105-131 | every beat the check has of a peer is a beacon the peer published, no earlier than it was published |
| `SystemDelivery.BeaconsDelivered` | src/health_monitor/service.py:103-146 | a beacon of a dot-free peer that finds room and at most `ahead` whole drains' worth of messages before it has reached the check by any service call later than its instant by more than the jitter, a round's work, and `ahead` times a loop period and a round's work |
| `SystemDelivery.PublishedBeaconsNeverLost` | src/health_monitor/service.py:103-146 | from publisher to verdict: if the timeout exceeds the period plus that delay, and the first such beacon is due soon enough after the record's creation, the peer is never reported about |
| `SystemDelivery.QueueHoldsPending` | src/health_monitor/bus.py:88-132 | when handlers only listen and bursts fit one drain and the queue, the queue holds exactly what was published since the last drain and nothing is ever dropped |
| `SystemDelivery.QuietBusNeverLoses` | src/health_monitor/service.py:103-146 | on such a bus a timeout that exceeds the period, the jitter and a round's work keeps a punctual peer from ever being reported about |
| `StorageRuns.RemembersWhatWasSeen` | src/health_monitor/checks/storage_health.py:140-157 | on entering any round the check's memory is that of every probe made in the rounds that served it |
| `StorageRuns.FailedProbeInLoop` | src/health_monitor/checks/storage_health.py:178-190 | in any run, however often scans raise or a mount is listed, a failed probe is a FAULT exactly when the mount's previous probe failed too or is older than the threshold; and which probe that is: one of the same scan, else one of the last scan that reached the mount, else none |
| `StorageRuns.GoodProbeInLoop` | src/health_monitor/checks/storage_health.py:192-231 | in any run of the loop a good probe is judged by its readings alone |
| `StorageRuns.StallMarginCoversLateness` | src/health_monitor/config.py:248-251 | with a stall threshold exceeding the scan period by twice a round's work and a previous scan that reached the mount, a failed probe is a FAULT exactly when the mount's previous probe failed too |
| `Config.ApplyOverrides` | src/health_monitor/config.py:134-150 | overrides are applied in order up to the first unknown place, which is refused |
| `Config.AppliedMeaning` | src/health_monitor/config.py:134-150 | overrides are accepted exactly when every place is known, and each place then has its last value |
| `Config.FirstUnknownRefused` | src/health_monitor/config.py:134-150 | what is refused is the first unknown place |
| `Config.LastValueIsLast` | src/health_monitor/config.py:134-150 | a place's value is that of its last entry, and it has none exactly without an entry |
| `Config.EnvironmentOverDocument` | src/health_monitor/config.py:167-191 | the layers are accepted exactly when all their places are known, and each setting is then the environment's value, else the document's, else the default |
| `Config.OverrideOrderIrrelevant` | src/health_monitor/config.py:167-191 | with distinct places the order of overrides changes neither acceptance nor any value |
| `Config.CollectEnvironment` | src/health_monitor/config.py:153-164 | the overrides collected from environment variables: the last variable for each place |
| `Config.LastVariableWins` | src/health_monitor/config.py:153-164 | what the environment gives a place is the value of the last variable read as that place |
| `Config.EnvNameMeaning` | src/health_monitor/config.py:153-164 | every variable name: ignored without the prefix, else read in lower case, as a top-level key without a separator and split at the first one otherwise |
| `Config.UpperNameReadsBack` | src/health_monitor/config.py:153-164 | a lower-case name written in capitals reads back as itself |
| `Config.EnvNameRoundTrip` | src/health_monitor/config.py:153-164 | the variable named after a section and a key is read back as exactly that place |
| `Config.AcceptedIff` | src/health_monitor/config.py:218-274 | a configuration is accepted exactly when it obeys every rule, and a rejection names the first rule it breaks |
| `Config.DefaultsAccepted` | src/health_monitor/config.py:26-91 | the built-in configuration is accepted |
| `Config.AcceptedIsUsable` | src/health_monitor/config.py:218-274 | an accepted configuration makes every timer construction legal and the sweep progressive, with positive timeout margins |
| `Config.SingleLateHeartbeat` | src/health_monitor/config.py:255-260 | an accepted configuration tolerates one heartbeat late by up to timeout minus period, which is positive, and one of any lateness exactly when the timeout is at least two periods |
| `Config.QuorumReachableIff` | src/health_monitor/config.py:263-266 | quorum can be reached exactly when the required number is at most the number of distinct peers |
| `Config.AcceptedDistinctPeersReachQuorum` | src/health_monitor/config.py:263-266 | an accepted configuration with distinct peers can reach quorum |
| `Config.RepeatedPeerBreaksQuorum` | src/health_monitor/config.py:263-266 | with a repeated peer, some accepted configuration can never reach quorum |
| `Config.CleanPassOkIff` | src/health_monitor/checks/memory_integrity.py:182-193 | of the accepted configurations, exactly those with both thresholds positive report a clean pass as OK |

## Left out

- The dispatch thread and the locks: one drainer, as the control loop documents itself; a handler that drains the bus from within a drain is not modelled.
- Publishes by others in the middle of an iteration: they are taken to come before the next one.
- Float rounding, NaN and infinity: time and fractions are reals.
- Detail strings, log records, rounding of reported metrics, payload dictionaries other than the sequence entry, and `CheckStats.as_payload`.
- `FilesystemProbe`, `NullMemorySource`, `zlib.crc32`: a probe and a page check are arbitrary outcomes.
- Signal handling, argument parsing, JSON loading, exit codes, logging setup and jitter of `time.sleep`.
- Coercion of override texts to values, a section name given as a top-level scalar, and which of several unknown keys is named in the error.
- Lower-casing of environment names beyond ASCII.
- Exceptions in a check's constructor: the classes require the legal timers that `Config.AcceptedIsUsable` guarantees, except `IntervalTimer.Create`, which models the refusal.
- Service.HealthMonitorService.Step: the results and messages of each check's call are given per round rather than taken from the check objects; that the call acknowledges the timer exactly when due is proved in each check's `Service`.
- LivenessHistory.LivenessRefinesHistory: says nothing of liveness between ticks, because the program does not update it there.
