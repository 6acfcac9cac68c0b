# Verified model of the relay's state machines

This project models the in-memory state of a bonded SRT relay and proves what that
state means over whole runs. Sockets, clocks and log calls are inputs: a sampled
counter, a success or a failure, a timestamp. `dafny verify dfyconfig.toml` checks
everything; no module uses anything outside this directory.

Where the program updates an object in place there is a class with the same fields,
and each of its methods is proved equal to a function on values. The results about
runs are lemmas about those functions, and for each such class one method takes an
object through a whole run and ends in what those lemmas say (`LinkTable.Serve`,
`AutoCompact.Compactor.PerformAll`, `TransportTotals.RunTicks`, `Repacketizer.Relay`,
`InputSwitcher.Relay`, `CausalityTracker.Replay`, `OutputSinks.RunListener`).

## The parts

- **Link slots.** Sixteen slots per side hold the bonded links. A group snapshot is
  matched to slots in three greedy passes (`SlotMatching`); `LinkSlots` holds the
  operations that run under one mutex, `LinkLaws` what each does to a slot in terms of
  what the library reports, `LinkInvariants` what every interleaving of them keeps, `LinkRefinement` the main result, `LinkHistory` what it says of a link
  from the moment it is first seen, and `LinkTable` the fixed array updated in place.
  The main result: as long as each snapshot names distinct links and
  at most sixteen are known at once, the table is nothing but a map from link identity
  to socket and counters, and the slot of a link counts exactly the samples of the
  sockets that link held. A save evicts nothing if and only if that room exists.
- **Auto-compaction.** `AutoCompact` gives the exact history in which a tick compacts.
- **Counters.** `Counters` treats one counter that survives resets, modulo 2^64, and
  says when it is exact. `TransportTotals` treats the aggregate over a per-socket
  baseline map; the input side is width 5, the output side width 4, and the group drop
  counters width 2 over at most one socket. `MapSums` holds the sums.
- **Stdin repacketizer.** `Repacketizer` keeps a lazily erased buffer and proves that
  chunks delivered plus bytes queued are the bytes read.
- **Input failover.** `InputSwitching` holds the switcher on values and the relay
  loop's order of calls; `InputTurns` says what one turn means for the sources;
  `InputOverlap` follows every single start and stop inside a
  call; `InputSwitcher` is the object.
- **Failures and incidents.** `Causality` classifies failures, `CausalityHistory` says
  what the tracker's state means in terms of the events so far, `CausalityTracker` is
  the object.
- **Outputs.** `ListenerSessions` and `OutputSinks` treat the client list of a listening
  output and the fan-out over several outputs.

## Where the code does not do what is written about it, or not always

The model follows the code in each case.

- A delay of 0 does not compact on detection (OPERATIONS_GUIDE.md:181,
  tests/relay_behavior_test.cpp:446-447): the first call that sees a disconnected slot
  only arms the deadline. See `AutoCompact.DetectionOnlyArms`.
- In serial mode the preferred primary is opened before the current source is closed
  (src/relay_input_sources.cpp:626-637), not after it (OPERATIONS_GUIDE.md:197).
  `InputOverlap.SerialStartsBeforeItStops` is a turn with both open,
  `InputOverlap.SerialOverlapsIff` says exactly which turns have such an instant, and
  `InputOverlap.NeverThreeOpen` bounds the sockets open at any instant in any mode.
- A transport total counts a socket's bytes twice when its statistics cannot be read
  for a single tick. `TransportTotals.OneMissedTickDoubleCounts` is such a run and
  `TransportTotals.TotalIsExactIffSteady` the exact condition.
- A counter misses the final bytes of a socket whose successor is first sampled at or
  above them. `Counters.EqualReplacementIsMissed` is such a succession and
  `Counters.TotalAgainstTraffic` the exact condition and shortfall.
- Compaction does not move a link's peer address and socket state, so until the next
  snapshot a moved link is shown with another slot's.
  `LinkInvariants.MovedLinkShowsAnotherPeer` is such a table and
  `LinkInvariants.PeersFollowIffLiveFirst` the exact condition on the table before. A
  link new to a slot shows the earlier link's round-trip time until it is first sampled
  (`LinkInvariants.NewLinkInheritsNothing`).
- A client accepted while there is room, whose send-timeout option cannot be set, is
  neither kept nor ever closed. `ListenerSessions.OneFailedOptionLeaks` is such a client
  and `ListenerSessions.NoSocketLeaksIff` the exact condition on a run.
- In delayed mode a preferred primary on standard input is never cut over to
  (src/relay_input_sources.cpp:656-658), data or not, although a started primary is to
  take over when it receives data (OPERATIONS_GUIDE.md:198).
  `InputTurns.StdinPrimaryIsPassedOver` is such a turn and `InputTurns.DelayedCutOverIff`
  the exact condition.
- The counter of clients dropped for errors other than timeouts and disconnects stays 0
  in every run (`ListenerSessions.EveryClientIsAccountedFor`).

## Model

| member | source | states |
|---|---|---|
| Counters.TotalIsWrappedGain | src/metrics.cpp:1329-1340 | folding any samples into a counter adds their unwrapped gain modulo 2^64 and leaves the last sample as baseline |
| Counters.GainIsFinalPlusResets | src/metrics.cpp:1329-1340 | the gain is exactly the final sample plus every sample that is immediately followed by a smaller one |
| Counters.TotalMonotone | src/metrics.cpp:1336-1340 | while the sum fits in 64 bits the total never falls and never drops below its baseline |
| Counters.GainOfEpochs | src/metrics.cpp:1329-1340 | over a succession of sockets, what is counted plus what is hidden by undetected replacements is the true traffic |
| Counters.TotalAgainstTraffic | src/metrics.cpp:1329-1340 | a total is the true traffic less exactly what replacements hide, and equals it if and only if every replacement is detectable |
| Counters.EqualReplacementIsMissed | src/metrics.cpp:1329-1334 | two sockets of 10 bytes each, the second first sampled at 10, are counted as 10 bytes |
| SlotMatching.PassAddsOnlyFitting | src/metrics_link_slots.cpp:316-364 | a pass only adds pairs that fit it, on slots that were free |
| SlotMatching.PassIsGreedy | src/metrics_link_slots.cpp:316-364 | after a pass, a member without a slot means every slot that fits it is taken |
| SlotMatching.PassIsInOrder | src/metrics_link_slots.cpp:316-364 | first come is first served and takes the lowest: a fitting slot below a member's own went to an earlier member or was taken before the pass |
| SlotMatching.EveryMemberGetsItsOwnSlot | src/metrics_link_slots.cpp:311-364 | up to sixteen members each get a slot, and no two the same |
| SlotMatching.KeptCount | src/metrics_link_slots.cpp:316-330 | per identity, the members kept on its slots number the smaller of its members and its slots |
| SlotMatching.EvictionCount | src/metrics_link_slots.cpp:332-364 | the links evicted number exactly the newcomers beyond the empty slots |
| SlotMatching.SoleClaimantIsKept | src/metrics_link_slots.cpp:316-330 | the only member of an identity some slot carries stays on such a slot |
| LinkInvariants.ReachableWellFormed | src/metrics_link_slots.cpp:159-191 | in every reachable table the count is one past the highest identified slot, and unidentified slots carry no bytes |
| LinkInvariants.StepKeepsWellFormed | src/metrics_link_slots.cpp:303-548 | every locked operation keeps that, from any table that has it |
| LinkInvariants.NewLinkInheritsNothing | src/metrics_link_slots.cpp:348-395 | a slot whose identity changes in a save restarts its counters at zero, any slot whose identity stays keeps them, and the round-trip time is never touched |
| LinkInvariants.OnlyAssignedSlotsHoldSockets | src/metrics_link_slots.cpp:366-411 | after a save each member's socket and state are on its own slot and every other slot holds none |
| LinkInvariants.ClearLeavesNothing | src/metrics_link_slots.cpp:422-458 | clearing leaves no identity and no bytes and forgets every link's address; it passes over unidentified slots, so no socket is left if and only if none of those held one |
| LinkInvariants.PrefixScanIsFullScan | src/metrics_link_slots.cpp:460-482 | scans of the published prefix see every identified slot there is |
| LinkInvariants.EveryLiveLinkIsSampled | src/metrics.cpp:1289-1307 | a stats tick samples the socket of every live link |
| LinkLaws.MemberAfterSave | src/metrics_link_slots.cpp:17-22 | after a save each member's slot carries its identity, socket and address, is connected exactly when the group runs it or its socket is connected, and counts on only if it carried that identity before |
| LinkLaws.OtherSlotAfterSave | src/metrics_link_slots.cpp:397-411 | a slot no member was given keeps identity, counters and a link's address, and loses its socket |
| LinkLaws.ReportedLinkIsKept | src/metrics_link_slots.cpp:366-411 | a member survives the next compaction and is sampled by the next tick if and only if it has a socket and the group runs it or that socket is connected |
| LinkLaws.SlotAfterUpdate | src/metrics.cpp:1376-1432 | a sampled live link shows exactly its latest readings, an unsampled one is left alone, a dead one shows nothing current and keeps its totals |
| LinkLaws.SampledMeans | src/metrics.cpp:1289-1307 | a tick samples exactly the valid sockets of connected slots below the count |
| LinkLaws.DisconnectedMeans | src/link_slot_tracker.cpp:51-79 | a disconnected slot is an identified one below the count that is not connected or has no socket |
| LinkInvariants.CompactIsStableFilter | src/metrics_link_slots.cpp:484-548 | compaction is the order-preserving filter of live links, counters included, padded with empty slots |
| LinkInvariants.ReportMeaning | src/metrics_link_slots.cpp:498-531 | before = after + dropped; moved counts the kept links past the first slot not kept; nothing is dropped if and only if no slot is disconnected |
| LinkInvariants.IdentifiedCount | src/metrics_link_slots.cpp:491-521 | before is the number of identified slots |
| LinkInvariants.CompactIdempotent | src/metrics_link_slots.cpp:484-548 | compacting again changes, moves and drops nothing |
| LinkInvariants.PeersFollowIffLiveFirst | src/metrics_link_slots.cpp:217-295 | with distinct peers, every kept link still shows its own peer if and only if no live link sat behind a slot that was not live |
| LinkInvariants.MovedLinkShowsAnotherPeer | src/metrics_link_slots.cpp:217-295 | after two snapshots, the second without the first link, a compaction shows the second link with the first one's address |
| LinkInvariants.CompactCommutesWithUpdate | src/metrics.cpp:1376-1432 | updating then compacting and compacting then updating give the same table, for any samples |
| LinkInvariants.CompactionsInTheGap | src/metrics.cpp:2213-2245 | however many compactions land between sampling and applying, the outcome is the same |
| LinkRefinement.NoEvictionIffRoom | src/metrics_link_slots.cpp:348-364 | a save of distinct members evicts nothing if and only if known links and members together are at most sixteen |
| LinkRefinement.SaveRefines | src/metrics_link_slots.cpp:303-420 | with room, a save does to the table what it does to the identity map, and known links keep their slots |
| LinkRefinement.CompactRefines | src/metrics_link_slots.cpp:484-548 | compaction restricts the identity map to its live links |
| LinkRefinement.UpdateRefines | src/metrics.cpp:1376-1432 | a traffic update is the per-link update of the identity map |
| LinkRefinement.RunRefines | src/metrics_link_slots.cpp:303-548 | any interleaving of saves, clears, marks, compactions and updates treats the table as the identity map |
| LinkRefinement.FewIdentitiesFit | src/metrics_link_slots.cpp:311-364 | it is enough that all identities ever named come from a set of sixteen |
| LinkRefinement.FewLinksAreNeverEvicted | src/metrics_link_slots.cpp:348-364 | from a fresh table, when all snapshots name distinct links out of sixteen, no save in any interleaving evicts a link |
| LinkRefinement.SlotCountsItsOwnLink | src/metrics.cpp:1396-1430 | through any run, the slot of a link that is not dropped counts exactly the samples of the sockets that link held, and never falls while it fits in 64 bits |
| LinkHistory.LinkKeepsItsFirstSlot | src/metrics_link_slots.cpp:316-330 | from a fresh table, with distinct links out of sixteen and no compaction or clearing, a link once on a slot is on that slot for ever |
| LinkHistory.LinkKeepsItsTotals | src/metrics.cpp:1396-1430 | and its totals there are never reset: they go on with exactly its own sockets' samples |
| LinkHistory.LinkTotalAgainstTraffic | src/metrics.cpp:1329-1340 | from the moment a link is first seen, in any interleaving that does not drop it, its slot's total is the traffic of the sockets it held less what replacements hide, exact if and only if each is detectable |
| LinkTable.LinkTable.MatchPass | src/metrics_link_slots.cpp:311-364 | the scan loops compute the greedy matching and reset exactly the slots they take over |
| LinkTable.LinkTable.SaveMemberSnapshot | src/metrics_link_slots.cpp:303-420 | the whole new table after a snapshot is saved in place |
| LinkTable.LinkTable.ClearTrackedMembers | src/metrics_link_slots.cpp:422-458 | identified slots are emptied and reset, the others left alone, the count 0 |
| LinkTable.LinkTable.MarkAllDisconnected | src/metrics_link_slots.cpp:460-482 | identified slots of the prefix become disconnected and nothing else changes |
| LinkTable.LinkTable.CompactSlots | src/metrics_link_slots.cpp:484-548 | the in-place compaction and its report |
| LinkTable.LinkTable.UpdateTraffic | src/metrics.cpp:1376-1432 | the in-place traffic update |
| LinkTable.LinkTable.SampleSockets | src/metrics.cpp:1289-1307 | the sockets listed are those of the prefix's connected slots, in order |
| LinkTable.LinkTable.HasDisconnectedSlots | src/link_slot_tracker.cpp:51-79 | true if and only if some identified slot of the prefix is not live |
| LinkTable.Serve | src/metrics_link_slots.cpp:303-548 | the array, taken through any interleaving of operations with distinct links out of sixteen, represents the identity map |
| AutoCompact.CompactsIffDelayed | src/link_slot_tracker.cpp:81-111 | a tick compacts if and only if an earlier tick armed the deadline, every tick since has seen a disconnected slot, and it is the first at or past the deadline |
| AutoCompact.DetectionOnlyArms | src/link_slot_tracker.cpp:92-102 | on a side the setting selects, the tick that first sees a disconnected slot arms the deadline and only that, whatever the delay |
| AutoCompact.CompactionClearsTheTable | src/link_slot_tracker.cpp:104-110 | a compacting tick drops at least one slot and leaves no disconnected one |
| AutoCompact.DisabledSideIsLeftAlone | src/link_slot_tracker.cpp:81-88 | under an input-only setting the output side, and under an output-only one the input side, is never armed and never compacted |
| AutoCompact.Compactor.RunForSide | src/link_slot_tracker.cpp:81-111 | one side's whole new state, with the other side's deadline untouched |
| AutoCompact.Compactor.MaybeAutoCompact | src/link_slot_tracker.cpp:23-119 | one call ticks each side on its own state, and neither depends on the other |
| AutoCompact.Compactor.PerformAll | src/link_slot_tracker.cpp:23-119 | over any run of calls and operations on either side, each side ends where its own events alone would have taken it |
| TransportTotals.Totals.Tick | src/metrics.cpp:1534-1597 | after a tick the baselines are exactly its sample, each total has grown by the sum of the deltas and each gauge is the sum of the sample, in any visiting order |
| TransportTotals.Accumulate | src/metrics.cpp:1548-1578 | visiting the sockets in an arbitrary order accumulates the same sums |
| TransportTotals.GrowthIsLastSeenPlusOvercount | src/metrics.cpp:1548-1585 | over any run, growth is the last-seen counters of all sockets ever sampled plus what was counted twice |
| TransportTotals.TotalIsExactIffSteady | src/metrics.cpp:1557-1585 | the total is exact if and only if no counter falls and no socket returns after missing a tick, and is otherwise too high |
| TransportTotals.OneMissedTickDoubleCounts | src/metrics.cpp:1580-1585 | a run in which one unread tick doubles a total |
| TransportTotals.RunTicks | src/metrics.cpp:1608-1662 | a whole run of ticks publishes each column's growth modulo 2^64, and last-seen sums for steady columns |
| Repacketizer.ChunkSize | src/relay_runtime.cpp:317-323 | the largest multiple of 188 that fits a message, or the message size when none does |
| Repacketizer.ChunkPlaces | src/relay_runtime.cpp:317-323 | every chunk is the same size, starts at a multiple of it, and never splits a transport packet when one fits |
| Repacketizer.FlattenChunks | src/relay_runtime.cpp:739-745 | the chunks put together are the prefix of the stream they cover |
| Repacketizer.Buffer.Advance | src/relay_runtime.cpp:745-752 | consuming a chunk keeps the live bytes the rest of the stream, the buffer within twice its live bytes, and the erasing cost within the bytes delivered |
| Repacketizer.Buffer.Offer | src/relay_runtime.cpp:739-745 | an attempt offers the next unsent chunk of the stream, and consumes it exactly when it was sent |
| Repacketizer.Buffer.Feed | src/relay_runtime.cpp:739-753 | a read delivers exactly the next chunks of the stream, one per attempt before the first failure, and a failed chunk stays |
| Repacketizer.Relay | src/relay_runtime.cpp:739-753 | over any run of reads and send outcomes: delivered plus queued is the input, the chunks delivered are as many as the outcomes allow, and the space and cost bounds hold |
| InputSwitching.StopBeforeReceive | src/relay_runtime.cpp:452-519 | at every receive no stop is pending and the source to be stopped is closed |
| InputSwitching.TurnKeepsInv | src/relay_runtime.cpp:452-660 | the switcher's invariant survives any turn of the relay loop |
| InputSwitching.FewSocketsOpen | src/relay_input_sources.cpp:568-757 | between calls of any run open sockets lie in active, primary and pending stop, at most two, and at most one in serial or round-robin operation |
| InputTurns.ReceivesFromReadySource | src/relay_runtime.cpp:452-593 | a turn gets to its receive if and only if the output lets it and some source can serve, and receives from an open socket or standard input before its end |
| InputTurns.FailedEnsure | src/relay_runtime.cpp:474-519 | when no source can serve, the active one keeps its place if it timed out and the next takes it otherwise |
| InputTurns.ReceiveGivesUpOnErrors | src/relay_runtime.cpp:594-660 | data and timeouts keep the active source, any other error closes it and moves to the next, and standard input that ends is at its end for good |
| InputTurns.PrimaryBeforeReceive | src/relay_input_sources.cpp:613-648 | a primary that can serve is active at the receive in serial mode and the candidate in delayed mode |
| InputTurns.SkippedEnsureIsUseless | src/relay_input_sources.cpp:719-731 | a turn skips the ensure only where it would change nothing |
| InputTurns.DelayedCutOverIff | src/relay_input_sources.cpp:651-676 | in delayed mode a turn moves to a ready primary if and only if that is a socket with data |
| InputTurns.StdinPrimaryIsPassedOver | src/relay_input_sources.cpp:656-658 | a first turn that stays on its source although standard input, the primary, has data |
| InputOverlap.TurnIsPath | src/relay_input_sources.cpp:568-757 | the instants of a turn lead from its start to its end, one source changing at a time |
| InputOverlap.NeverThreeOpen | src/relay_input_sources.cpp:568-708 | at every instant of any run, inside calls included, at most two sockets are open |
| InputOverlap.SerialOverlapsIff | src/relay_input_sources.cpp:626-637 | in serial or round-robin operation a turn has an instant with two open if and only if a primary socket can be opened while another socket is active and ready |
| InputOverlap.SerialStartsBeforeItStops | src/relay_input_sources.cpp:626-637 | a first turn that opens both sockets before it closes the first |
| InputOverlap.SerialReturn | src/relay_input_sources.cpp:613-645 | in serial mode a primary that opens is up while the replaced source still is, then that one is closed and the primary active, within the call |
| InputSwitching.DelayedReturn | src/relay_input_sources.cpp:646-671 | in delayed mode the old source stays active until the primary delivers, stays open until the next ensure, and is closed there |
| InputSwitching.CandidateAtReceive | src/relay_input_sources.cpp:651-690 | a candidate takes over exactly when it is a socket with data, waits on exactly when it is a socket that merely timed out, and otherwise is dropped until the next ensure |
| InputSwitching.EnsureChoosesFirstReady | src/relay_input_sources.cpp:568-612 | ensuring fails if and only if no source can be ensured, and otherwise falls back on the first that can, cyclically |
| InputSwitching.CyclicIsModulo | src/relay_input_sources.cpp:740-745 | the cyclic index used throughout is the program's sum modulo the number of sources |
| InputSwitching.EverySourceGetsATurn | src/relay_input_sources.cpp:692-708 | n consecutive failures make each of n sources active exactly once |
| InputSwitching.SwitchCountIsChanges | src/relay_input_sources.cpp:568-708 | under any order of calls the switch count is the number of changes of the active source |
| InputSwitcher.Switcher.FallBack | src/relay_input_sources.cpp:580-612 | the probing loop finds the first ready source and cuts over to it |
| InputSwitcher.Switcher.FollowThePrimary | src/relay_input_sources.cpp:613-648 | serial mode cuts over to a primary that opens, delayed mode makes it the candidate |
| InputSwitcher.Switcher.ApplyPendingStop | src/relay_input_sources.cpp:747-757 | the pending source is closed and nothing stays pending |
| InputSwitcher.Switcher.EnsureReady | src/relay_input_sources.cpp:568-649 | the whole new state and whether it throws |
| InputSwitcher.Switcher.ReceiveData | src/relay_input_sources.cpp:651-690 | the whole new state and whether data arrived |
| InputSwitcher.Switcher.HandleReceiveError | src/relay_input_sources.cpp:692-708 | the active source is closed and the next becomes active |
| InputSwitcher.Switcher.NeedsEnsure | src/relay_input_sources.cpp:719-731 | polls while a stop is pending, the active source is not connected, or the primary is not active |
| InputSwitcher.Switcher.RelayTurn | src/relay_runtime.cpp:452-660 | one turn of the relay loop on the input side, keeping the invariant |
| InputSwitcher.Relay | src/relay_runtime.cpp:452-660 | a switcher from its start through any run of the loop: its invariant, and the sockets open at every instant and at the end |
| Causality.TimeoutTypeMatchesCode | src/causality.cpp:98-184 | a timeout type is set exactly for the timeout class, exactly for timed-out ensures, receives and sends, with the code's index |
| Causality.CodeIsDeserved | src/causality.cpp:121-184 | every failure gets the one code its operation, its outcome and the accept path, read off the message in any case, call for |
| Causality.IndexIsPlace | src/causality.cpp:186-201 | every code has a counter of its own |
| CausalityHistory.AttemptIdsCountUp | src/relay_runtime.cpp:94-120 | each side's attempt ids are 1, 2, 3, ..., as many as the published counter, and the published active id is right |
| CausalityHistory.AttemptOpenIffStarted | src/relay_runtime.cpp:94-120 | an attempt id is published if and only if an attempt was started on that side and not completed since |
| CausalityHistory.IncidentIdsCountUp | src/relay_runtime.cpp:148-164 | incident ids are never reused and the published incident mirrors the private one |
| CausalityHistory.ActiveIncidentSince | src/relay_runtime.cpp:148-190 | an active incident's fields are those of the failure that opened it and its tallies count exactly the failures since |
| CausalityHistory.OpensExactlyWhen | src/relay_runtime.cpp:136-164 | an event opens an incident if and only if it is a failure, none is active, and a receive timeout is at least the third of an unbroken series |
| CausalityHistory.TimeoutsAreTrailing | src/relay_runtime.cpp:110-147 | the timeout counter is the length of the series since data, or another failure, last broke it on that side |
| CausalityHistory.OpenedByThirdTimeout | src/relay_runtime.cpp:138-147 | an incident opened by a receive timeout has two more before it on that side, with no data and no other failure there in between |
| CausalityHistory.ClosesExactlyWhen | src/relay_runtime.cpp:216-254 | an event closes an incident if and only if both sides are connected and, after a timeout, data on that side is stamped later than the opening |
| CausalityHistory.StampIsLast | src/relay_runtime.cpp:673-727 | the data time that closing reads is the last one stored on that side, or the start time |
| CausalityHistory.CountersBalance | src/relay_runtime.cpp:191-195 | per side, failures under all codes add up to the failures recorded, and timeout counters equal the counters of their codes |
| CausalityHistory.EachCodeIsCounted | src/relay_runtime.cpp:191-192 | each failure counter counts exactly the failures that call for its code |
| CausalityHistory.SnapshotIsLatestFailure | src/relay_runtime.cpp:165-213 | a side's last-failure snapshot is that of its latest failure, with its time, code, class, message, attempt, source and incident |
| CausalityHistory.LastFailureNamesItsIncident | src/relay_runtime.cpp:197-212 | the last-failure snapshot names the incident published once it is recorded |
| CausalityTracker.CausalityTracker.RecordFailure | src/relay_runtime.cpp:124-214 | the whole new state after a failure, in place |
| CausalityTracker.CausalityTracker.MaybeCloseIncident | src/relay_runtime.cpp:216-254 | the whole new state after an attempt to close |
| CausalityTracker.CausalityTracker.EnsureAttemptStarted | src/relay_runtime.cpp:94-104 | a new id is issued unless an attempt is open |
| CausalityTracker.Replay | src/relay_runtime.cpp:86-265 | a tracker taken through any history of calls shows what the history says: series, stamps, attempts, incident mirror and all counters |
| ListenerSessions.EveryClientIsAccountedFor | src/relay_output_sinks.cpp:477-542 | over any run the client list is bounded, accepted = active + dropped by reason + closed in bulk, every arrival is accepted, turned away or abandoned, and every socket is held, closed or abandoned exactly once |
| ListenerSessions.NoSocketLeaksIff | src/relay_output_sinks.cpp:495-508 | after any run every socket obtained is held or closed if and only if no client's option failed while there was room |
| ListenerSessions.OneFailedOptionLeaks | src/relay_output_sinks.cpp:505-508 | a client whose option fails stays open even after everything is closed |
| ListenerSessions.ArrivalOutcome | src/relay_output_sinks.cpp:477-522 | accepting fails exactly when it leaves no client, when it errs, or when a client's option does; an arrival at a full list is closed and counted and changes nothing else |
| ListenerSessions.SendOutcomeMeans | src/relay_output_sinks.cpp:322-475 | in every mode a send succeeds exactly when it leaves no error, and a single client's result is its own |
| ListenerSessions.FanOutMeans | src/relay_output_sinks.cpp:339-389 | each reason's counter grows by the clients refused for it; bytes are the first taken, and a total failure carries the last client's error |
| ListenerSessions.FanOutReachesSurvivors | src/relay_output_sinks.cpp:339-389 | a fan-out send fails if and only if it reached nobody, and if and only if nobody is left |
| ListenerSessions.EveryoneIsCounted | src/relay_output_sinks.cpp:339-365 | every client of a fan-out send survives or is counted as dropped for one reason |
| ListenerSessions.BytesOfFirst | src/relay_output_sinks.cpp:361-364 | the bytes reported are those of the first client that took any |
| ListenerSessions.ErrorOfLast | src/relay_output_sinks.cpp:343-348 | the error reported when nobody was reached is that of the last client that failed |
| OutputSinks.ListenerSink.Broadcast | src/relay_output_sinks.cpp:339-365 | the loop finds the failed indices, the drop counts, the bytes and the last error |
| OutputSinks.ListenerSink.EraseFailed | src/relay_output_sinks.cpp:367-374 | erasing by descending index leaves exactly the clients reached, in order, and closes exactly the others |
| OutputSinks.ListenerSink.Send | src/relay_output_sinks.cpp:322-389 | the whole new state, the result and the sockets closed |
| OutputSinks.ListenerSink.MaybeAcceptClient | src/relay_output_sinks.cpp:477-522 | the whole new state, whether it throws and the socket rejected |
| OutputSinks.ListenerSink.CloseAllSessions | src/relay_output_sinks.cpp:534-542 | every client is closed once and the list is empty |
| OutputSinks.RunListener | src/relay_output_sinks.cpp:322-542 | a sink taken through any run: its bound, its counters and the sockets it closed add up, and none leaks under that same condition |
| OutputSinks.FanoutSink.Send | src/relay_output_sinks.cpp:787-833 | sent if and only if a connected child took it; exactly those children stay connected; the bytes and the error reported |
| OutputSinks.FanoutSink.EnsureReady | src/relay_output_sinks.cpp:734-785 | throws only when a polled child failed and no child is connected afterwards |

## Left out

- Sockets, addresses, resolution and stdin/stdout calls: their outcomes are inputs here. The libsrt header that numbers socket states is not part of this model.
- Identity keys are inputs. The program computes a member's key twice in one save, once to match and once to store (src/metrics_link_slots.cpp:317 and 389); the model takes both to be the same.
- Rendering of metrics and logs, the HTTP server, command-line and URI parsing.
- The last-logged fields of a slot and the member events derived from them (src/metrics.cpp:810-914): no other operation reads them.
- Rates, latency and bond-mode gauges.
- Each locked region is one atomic step; real threads are not modelled.
- CausalityHistory.AttemptIdsCountUp: attempt, incident and failure counters are unbounded here, without 64-bit wrap-around, which no relay run reaches. The same holds for the switch and client counters.
- AutoCompact.CompactsIffDelayed: deadlines are unbounded integers; the sum of a clock in milliseconds and a 32-bit delay does not leave 64 bits.
- Repacketizer.Relay: does not model that the program may exit on an output failure; an exit ends the run at that point. Bytes still queued at end of input are dropped, as in the code.
- InputSwitching.FewSocketsOpen: standard input is not counted, here and in `InputOverlap`, since it reports itself connected without being opened.
- InputSwitching.TurnKeepsInv: a switcher is built for two or more sources, so the single-source end-of-input exit is not part of a turn.
- OutputSinks.FanoutSink.Send: a child is its connected flag and what its own send would return; the client lists inside children are treated by the listener sink.
