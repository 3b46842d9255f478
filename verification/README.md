# Proctoring engine: verified model

A Dafny model of the stateful parts of the proctoring engine, with proofs of what they promise.
`dafny verify dfyconfig.toml` checks all of it.

* **Fusion.** `SessionAggregator` keeps counters, deques and latches for its detection paths. The
  model is a class with the same fields and a ghost history of everything it was fed. `Fusion`,
  `Runs` and `GazeEpisodes` say, as functions of the whole history, what each call must return;
  `SessionAggregator.Valid()` ties the fields to those functions and every `Process…` method is
  proved to extend the history by exactly those decisions. `AggregatorLaws` and `GazeLaws` then say
  what a run returns in terms of the results fed to it alone.
* **Pipeline.** The telemetry buffer, the dispatcher, the FIFO queue, the persistence worker and
  its tables. `Pipeline` is the transition system in which dispatch and persist steps interleave in
  any order and any commit may fail, over whatever tables earlier connections have left;
  `FrameDispatchers.ExamPipeline` runs the classes and is proved to take its steps, a drained batch
  of the telemetry buffer being a sequence of dispatch steps. `SessionRuns` puts the connections of
  a session one after another and joins them with the kill-switch protocol. `DispatchLaws` and
  `RunLaws` say what a message adds and what ends up in the tables, read off the message itself.
* **Kill-switch.** The server's delivery service, the browser's connection and handler, and a
  channel that may lose, duplicate and reorder, as one transition system (`KillSwitchProtocol`).
* **Evidence.** Sealing, the storage key printer and parser, the retention run with every kind of
  failure chosen arbitrarily, and runs that mix seals and retention (`EvidenceRuns`).
* **Containers.** The server's and the browser's rolling buffer, the launch-state store (in memory
  and in Redis) and the splitting of audio into frames.
* **Rows.** Policy versions and the session lifecycle.

Scores and confidences are reals. Clocks, ids, faults and the results of the inference runners are
parameters or arbitrary choices. Each locked method is one atomic step.

## Where the code and its documentation differ

The model follows the code. What the proofs brought out:

* The persistence worker writes a termination record and leaves the session's status alone. After
  that neither `POST /terminate` nor the handshake can terminate the session: the unique constraint
  on the record refuses both (`Lifecycle.WorkerRecordBlocksTermination`).
* The worker's docstring says an existing termination record is updated. The ORM listener of
  `models.py:1230-1234` rejects every update. So the kill-switch callback fires at most once in a
  session, however often the client reconnects (`SessionRuns.FiresOncePerSession`): for the first
  terminating flag whose record is committed, unless reading that record back fails
  (`Pipeline.KillSwitchFiresOnce`). Later terminating flags are committed as flags only.
  `PipelineRuns` has a run for each case: the second record refused (`SecondRecordRejectedRun`), the
  second flag firing after the first record failed (`SecondFlagFiresRun`), and a committed record
  that never fires and bars all later ones (`NeverFiresRun`).
* The dispatcher's comment says a decision whose events are missing is persisted without the link.
  The worker fails the whole item instead (`FlagPersistence.CommittedWhen`). Emission takes events
  out of the map, so after one failed flag commit every later decision citing its events fails too
  (`Pipeline.LostForGood`); otherwise this never happens (`Pipeline.CommitsWhen`). One failed commit
  of a MEDIUM flag can so lose the kill-switch it causes (`PipelineRuns.LostKillSwitchRun`).
* A kill-switch lost with its connection is never sent again: the delivery service of the next
  connection has nothing pending, and the record keeps the callback from firing a second time
  (`SessionRuns.NeverSentAgain`; `LostWithConnection` is such a session). For the same reason the
  error for a kill-switch prepared while another one is in flight, after which the drain task would
  drop the flag, cannot occur (`SessionRuns.OneKillSwitchPerSession`).
* `SYSTEM_STATE.md:416-417` wants one accumulator for a session. The row adds up the scores of all
  connections (`SessionRuns.SessionScore`), but every connection's aggregator starts from zero and
  compares its own score only, so the row can reach the threshold with nothing raised
  (`SessionRuns.ThresholdMissed`).
* The gaze warning is raised again on every call while the count is between the two limits
  (`Fusion.GazeWarnsEveryCall`).
* The gaze count goes by the client's `captured_at`. With unordered timestamps an expired episode can
  stay in the deque (`GazeEpisodes.UnorderedTimestampsKeepExpired`), and, worse, one frame stamped in
  the future empties it for good of all episodes so far (`GazeExactness.FutureFrameEmptiesDeque`).
  `GazeExactness.AlwaysExactWhen` says exactly for which timestamps neither happens.
* The docstring of `process_liveness` says the flag fires once per session and adds 1.0; it fires
  at every multiple of the window and adds the configured weight.
* A heavy frame whose identity branch returns early also skips liveness.
* Sealing a flag twice is refused, but the blob of the committed row has been overwritten by then
  (`Evidence.ResealCorruptsRow`). `Evidence.SealKeepsIntactWhen` says exactly when a seal keeps all
  rows intact. Orphaned blobs are not reclaimed by retention, which only looks at rows.
* The retention docstring says a row never points at a missing blob. `Retention.SurvivorLostBlobWhen`
  says exactly when one does, `RowsLeftRun` and `FailedCommitRun` are such runs. A rolled-back row
  delete stays in the reported count: `Retention.CountIsExactWhen` and `OvercountingRun`.
* The browser buffer's comment says its two arrays stay in sync. They agree exactly when both last
  evictions keep the same heavy frames (`ClientRollingBuffers.ArraysAgree`). Two adds can part them,
  because each call reads the clock twice (`TwoReadingsPartThem`), and so can an audio push
  (`AudioPushPartsThem`), which the client does not make today.
* The Redis store documents `LaunchStateExpired` for its consume and never raises it
  (`LaunchStates.StoresAgree`).
* `should_retry_kill_switch` has no caller outside the tests; the protocol lets it run at any time.
* `create_policy_version` documents a unique constraint on the name; the table has a partial index
  over live rows, and that is what the model uses.

## Model

| member | source | states |
|---|---|---|
| Runs.RunReachesWindow | src/proctoring_engine/fusion/aggregator.py:278-306 | a counter of consecutive hits reaches k exactly when the last k frames are all hits |
| Runs.ConfirmingRunIsWindow | src/proctoring_engine/fusion/aggregator.py:272-301 | at the first confirmation the run is exactly k long and the frame before it is no hit |
| Runs.ConfirmsExactlyOnce | src/proctoring_engine/fusion/aggregator.py:272-287 | over any run of calls a latched confirmation happens once if some k consecutive frames are hits, otherwise never |
| Fusion.SecondPersonOnce | src/proctoring_engine/fusion/aggregator.py:255-308 | the second-person flag is raised exactly once in a run of calls, at the first k consecutive multi-face frames, and only if the policy terminates on it |
| Fusion.IdentityOnce | src/proctoring_engine/fusion/aggregator.py:607-658 | the identity flag is raised exactly once, at the first w consecutive similarities below the threshold |
| Fusion.ConfirmedFramesCited | src/proctoring_engine/fusion/aggregator.py:282-301 | a second-person or identity flag cites exactly the confirming run of frames, in order |
| Runs.RunIsTiled | src/proctoring_engine/fusion/aggregator.py:350-385 | whatever came before, a spoof run adds exactly the consecutive blocks of w frames that fit into it to what is confirmed |
| Runs.TilesCoverRun | src/proctoring_engine/fusion/aggregator.py:366-385 | a run of length L has L / w blocks of w ids each, which together are the ids of its first w * (L / w) frames |
| Runs.TileFillsWindow | src/proctoring_engine/fusion/aggregator.py:371-385 | the full-window and all-spoof checks are implied by the run counter |
| Fusion.LivenessFollowsTiles | src/proctoring_engine/fusion/aggregator.py:380-448 | the liveness path raises flags exactly at completed blocks, all citing that block, terminating as the policy says |
| Statistics.WindowInterval | src/proctoring_engine/fusion/aggregator.py:387-399 | the interval's ends are readings of the window and enclose all of them; its score is the mean, so over the reals the clamp changes nothing |
| GazeEpisodes.SpansAreEpisodes | src/proctoring_engine/fusion/aggregator.py:481-509 | the list of episodes holds exactly the maximal off-screen streaks closed by an on-screen frame and long enough |
| GazeEpisodes.SpansOrdered | src/proctoring_engine/fusion/aggregator.py:488-509 | episodes come in order and do not overlap |
| GazeEpisodes.ClosingsAreEpisodes | src/proctoring_engine/fusion/aggregator.py:481-509 | what the incremental streak tracking appends is the episodes of the frames with landmarks; other frames do not exist for it |
| GazeEpisodes.WindowIsSuffix | src/proctoring_engine/fusion/aggregator.py:505-519 | whatever the timestamps, the deque is a suffix of the closed episodes |
| GazeEpisodes.WindowIsRecentEpisodes | src/proctoring_engine/fusion/aggregator.py:476-521 | with non-decreasing timestamps the deque is exactly the closed episodes that ended within the window |
| GazeEpisodes.UnorderedTimestampsKeepExpired | src/proctoring_engine/fusion/aggregator.py:511-519 | a history with unordered timestamps whose deque still holds an episode that ended before the window |
| GazeEpisodes.ExpiryIsExactWhen | src/proctoring_engine/fusion/aggregator.py:511-519 | at every call, whatever the timestamps, the expiry loop leaves exactly the events within the window of those the deque still held, if and only if no expired one of them stands behind one that is not |
| GazeExactness.AlwaysExactWhen | src/proctoring_engine/fusion/aggregator.py:476-521 | for any timestamps, the deque is exactly the closed episodes within the window after every call if and only if at every call the episodes outside the window are the first ones closed and none of them is within the window of a later call |
| GazeExactness.FutureFrameEmptiesDeque | src/proctoring_engine/fusion/aggregator.py:505-521 | a history in which one frame stamped in the future empties the deque, and a later call finds it empty although an episode is within its window |
| GazeExactness.PoppedForGood | src/proctoring_engine/fusion/aggregator.py:515-519 | an episode that has left the deque never comes back, whatever the timestamps |
| GazeEpisodes.PopIsFilterWhen | src/proctoring_engine/fusion/aggregator.py:515-519 | the popleft loop is the filter by the cutoff if and only if the expired events all stand in front |
| GazeEpisodes.PopAlwaysFiltersWhen | src/proctoring_engine/fusion/aggregator.py:515-519 | it is the filter for every cutoff if and only if the events end in order |
| Fusion.GazeTerminatesAtLimit | src/proctoring_engine/fusion/aggregator.py:521-545 | a call terminates exactly when it is the first whose episodes within the window reach the limit |
| Fusion.GazeTerminatesOnce | src/proctoring_engine/fusion/aggregator.py:476-525 | in any run of calls with non-decreasing timestamps the gaze path returns a terminating flag exactly once if the episodes within the window ever reach the limit, otherwise never |
| Fusion.GazeWarnsEveryCall | src/proctoring_engine/fusion/aggregator.py:546-576 | until termination the warning is raised on every call at or above the warning limit |
| GazeEpisodes.WindowTrail | src/proctoring_engine/fusion/aggregator.py:526-543 | the ids of all events in the deque, put together, are in feed order |
| GazeEpisodes.LatestTrail | src/proctoring_engine/fusion/aggregator.py:547-552 | so are the ids of the latest event, which a warning cites |
| Fusion.CitationsDistinct | src/proctoring_engine/orchestration/_flag_persistence.py:180-188 | decisions citing fed ids in feed order cite each id at most once if the path is fed distinct ids |
| Fusion.SecondPersonTrail | src/proctoring_engine/fusion/aggregator.py:298-300 | second-person flags cite fed ids in feed order |
| Fusion.IdentityTrail | src/proctoring_engine/fusion/aggregator.py:655-656 | identity flags cite fed ids in feed order |
| Fusion.LivenessTrail | src/proctoring_engine/fusion/aggregator.py:401-448 | liveness flags cite fed ids in feed order |
| Fusion.GazeTrail | src/proctoring_engine/fusion/aggregator.py:526-578 | gaze flags cite fed ids in feed order, whatever the timestamps |
| AggregatorLaws.SecondPersonLaw | src/proctoring_engine/fusion/aggregator.py:255-308 | over any run on all paths: one second-person flag if the policy asks for it and some k consecutive results count two faces or more, at the first such k, CRITICAL and terminating, with the last one's confidence and citing exactly them; otherwise none |
| AggregatorLaws.AloneIsSafe | src/proctoring_engine/fusion/aggregator.py:278-308 | a run in which no result counts two faces has no second-person flag |
| AggregatorLaws.IdentityLaw | src/proctoring_engine/fusion/aggregator.py:584-658 | the same for w consecutive similarities below the threshold, with their least, mean and greatest similarity |
| AggregatorLaws.LivenessLaw | src/proctoring_engine/fusion/aggregator.py:314-448 | after any run a call flags liveness if and only if the check is enabled and the spoofs since the last real frame number a positive multiple of the window; ids, scores, severity, termination and delta spelled out |
| GazeLaws.EpisodesAre | src/proctoring_engine/fusion/aggregator.py:481-519 | the episodes within the window, one by one, are the maximal closed off-screen streaks that ended in it, each with its first and closing time and its off-screen frames |
| GazeLaws.GazeLaw | src/proctoring_engine/fusion/aggregator.py:454-578 | after any run with non-decreasing timestamps: at the limit one terminating flag citing the off-screen frames of all streaks in the window, in order, and nothing ever after; below it, at the warning limit, one scored MEDIUM flag citing the latest streak |
| AggregatorLaws.SinglesReturn | src/proctoring_engine/fusion/aggregator.py:660-901 | what a detection, a browser event and an audio result return, column by column |
| FusionRuns.ReturnsTwoAtMost | src/proctoring_engine/fusion/aggregator.py:255-901 | every call returns at most one decision of its own path and after it at most the accumulated-score flag, for the same ids |
| FusionRuns.AccumulatedActs | src/proctoring_engine/fusion/aggregator.py:907-973 | an accumulated-score flag on any path is CRITICAL and certain, adds nothing, cites what the decision before it cites, and terminates if and only if the policy says so |
| SessionAggregators.SessionAggregator.constructor | src/proctoring_engine/fusion/aggregator.py:186-232 | a new aggregator matches the empty history |
| SessionAggregators.SessionAggregator.ProcessFacePresence | src/proctoring_engine/fusion/aggregator.py:255-308 | returns exactly the second-person decisions of the whole history and keeps all fields tied to it |
| SessionAggregators.SessionAggregator.ProcessLiveness | src/proctoring_engine/fusion/aggregator.py:314-448 | the same for liveness |
| SessionAggregators.SessionAggregator.ProcessGaze | src/proctoring_engine/fusion/aggregator.py:454-578 | the same for gaze |
| SessionAggregators.SessionAggregator.ExpireOldEvents | src/proctoring_engine/fusion/aggregator.py:511-519 | the expiry loop drops exactly the leading events that ended before the cutoff |
| SessionAggregators.SessionAggregator.ProcessIdentityMatch | src/proctoring_engine/fusion/aggregator.py:584-658 | the same for identity |
| SessionAggregators.SessionAggregator.ProcessObjectDetection | src/proctoring_engine/fusion/aggregator.py:694-801 | one flag per detection, suppressed by an exemption without a delta, otherwise scored |
| SessionAggregators.SessionAggregator.ProcessBrowserEvent | src/proctoring_engine/fusion/aggregator.py:807-846 | one flag per event, scored only for the accumulating event types |
| SessionAggregators.SessionAggregator.ProcessAudioVad | src/proctoring_engine/fusion/aggregator.py:852-901 | no flag for silence, otherwise one scored flag |
| SessionAggregators.SessionAggregator.AccumulatedScore | src/proctoring_engine/fusion/aggregator.py:236-239 | the running score is the sum of the deltas of every decision ever returned |
| FusionRuns.AccumulatedRaisedWhen | src/proctoring_engine/fusion/aggregator.py:907-973 | over all paths, a call returns the accumulated-score flag exactly when it adds a MEDIUM weight and the sum of all deltas returned so far is at or above a positive threshold; it terminates if and only if the policy says so |
| FusionRuns.ScoreNeverFalls | src/proctoring_engine/fusion/aggregator.py:440-893 | with non-negative weights the score never falls in a run over inputs of all paths |
| FusionRuns.AccumulatedRaisedAgain | src/proctoring_engine/fusion/aggregator.py:907-973 | with non-negative weights, once raised, the flag is raised again by every later scored call |
| SessionAggregators.SessionAggregator.GazeAwayCountInWindow | src/proctoring_engine/fusion/aggregator.py:241-244 | until termination the reported count is that of the specified window |
| Fusion.GazeAdds | src/proctoring_engine/fusion/aggregator.py:546-576 | with non-negative weights the gaze path never lowers the score |
| Fusion.LivenessAdds | src/proctoring_engine/fusion/aggregator.py:420-448 | nor does the liveness path |
| Fusion.SinglesAdd | src/proctoring_engine/fusion/aggregator.py:694-901 | nor do object, browser and audio decisions |
| TelemetryBuffers.TelemetryEventBuffer.Create | src/proctoring_engine/websocket/server.py:218-224 | a non-positive capacity is refused |
| TelemetryBuffers.TelemetryEventBuffer.Push | src/proctoring_engine/websocket/server.py:232-253 | the event gets the next number among all pushes, and the fields match the longer history |
| TelemetryBuffers.TelemetryEventBuffer.Drain | src/proctoring_engine/websocket/server.py:255-261 | hands out the last min(k, maxlen) of the k pushes since the last drain |
| TelemetryBuffers.OldestGoFirst | src/proctoring_engine/websocket/server.py:232-261 | after a drain and some pushes the buffer holds the last of these that fit, in order and numbered, and has dropped and counted the others |
| TelemetryBuffers.Conservation | src/proctoring_engine/websocket/server.py:232-261 | pushes are drained, dropped or still held, and dropped is the overflow summed over the stretches between drains |
| TelemetryBuffers.DrainedInOrder | src/proctoring_engine/websocket/server.py:232-261 | drained numbers strictly increase across all drains and each event carries the message pushed under its number |
| Histories.FaceKeepsSound | src/proctoring_engine/fusion/aggregator.py:282-308 | feeding a fresh id keeps every decision's ids distinct and minted, face path |
| Histories.GazeKeepsSound | src/proctoring_engine/fusion/aggregator.py:476-578 | the same, gaze path |
| Histories.LivenessKeepsSound | src/proctoring_engine/fusion/aggregator.py:350-448 | the same, liveness path |
| Histories.IdentityKeepsSound | src/proctoring_engine/fusion/aggregator.py:607-658 | the same, identity path |
| Histories.SinglesKeepSound | src/proctoring_engine/fusion/aggregator.py:694-901 | the same for object, browser and audio decisions |
| Pairing.DispatchKeepsSound | src/proctoring_engine/orchestration/_frame_dispatcher.py:481-660 | dispatching any message under a fresh id keeps that, and only appends decisions |
| DispatchLaws.MessageFeeds | src/proctoring_engine/orchestration/_frame_dispatcher.py:481-729 | what each kind of message feeds to the aggregator, input by input, in order, under the guards of the source |
| DispatchLaws.MessageObserved | src/proctoring_engine/orchestration/_frame_dispatcher.py:514-658 | each windowed path grows by one observation with this id, hit and reading spelled out, exactly under those guards |
| DispatchLaws.DetectionsFlagged | src/proctoring_engine/orchestration/_frame_dispatcher.py:588-602 | a frame scheduled for object detection adds exactly one object or book decision for each detection that is no allowed book, in order, with its confidence, exemption and id; every other message adds none |
| DispatchLaws.SinglesFlagged | src/proctoring_engine/orchestration/_frame_dispatcher.py:660-729 | a recognised browser event and audio that is not silent add their own decision |
| Pairing.TakenEvents | src/proctoring_engine/orchestration/_frame_dispatcher.py:751-757 | popping cited ids yields the events still in the map, each once |
| Pairing.MintKeepsWhole | src/proctoring_engine/orchestration/_frame_dispatcher.py:488-493 | buffering an event under a fresh id keeps the queue whole |
| Pairing.EmitKeepsWhole | src/proctoring_engine/orchestration/_frame_dispatcher.py:731-764 | emitting decisions keeps it whole: each minted event is still buffered or paired with exactly one item, and no item cites an event paired later or never |
| Pairing.EmitAppends | src/proctoring_engine/orchestration/_frame_dispatcher.py:731-764 | the queue receives the decisions in the order the aggregator returned them |
| Pairing.DispatchAdds | src/proctoring_engine/orchestration/_frame_dispatcher.py:481-729 | with non-negative weights no dispatch adds a negative delta |
| FrameDispatchers.FrameDispatcher.DispatchEvent | src/proctoring_engine/orchestration/_frame_dispatcher.py:481-507 | history, event map and queue after a dispatched event are those of the pipeline's dispatch step |
| FrameDispatchers.FrameDispatcher.DispatchLight | src/proctoring_engine/orchestration/_frame_dispatcher.py:514-537 | a light message feeds the face path with a point interval |
| FrameDispatchers.FrameDispatcher.DispatchHeavyFrame | src/proctoring_engine/orchestration/_frame_dispatcher.py:561-658 | the scheduled modalities are fed in order, the early returns of the identity branch skip liveness |
| FrameDispatchers.FrameDispatcher.DispatchDetections | src/proctoring_engine/orchestration/_frame_dispatcher.py:588-602 | every detection is fed, in order, each with its flags emitted before the next |
| FrameDispatchers.FrameDispatcher.Emit | src/proctoring_engine/orchestration/_frame_dispatcher.py:731-764 | the queue catches up with everything the aggregator has returned |
| FrameDispatchers.FrameDispatcher.TakeBuffered | src/proctoring_engine/orchestration/_frame_dispatcher.py:308-319 | the events found, and a map without the cited ids |
| FrameDispatchers.FrameDispatcher.Take | src/proctoring_engine/orchestration/_flag_persistence_worker.py:272-284 | the worker gets the queued items in order, each once |
| FrameDispatchers.ExamPipeline.DispatchNext | src/proctoring_engine/orchestration/_frame_dispatcher.py:413-437 | dispatching in the running classes is the transition system's dispatch step |
| FrameDispatchers.ExamPipeline.DispatchBatch | src/proctoring_engine/orchestration/_frame_dispatcher.py:413-431 | one round of the loop dispatches exactly what the telemetry buffer held, in order, each event under its own id |
| Pipeline.BatchKeepsInv | src/proctoring_engine/orchestration/_frame_dispatcher.py:413-431 | under fresh distinct ids a batch is a sequence of enabled dispatch steps that keeps the invariant and mints just these ids |
| FrameDispatchers.ExamPipeline.PersistNext | src/proctoring_engine/orchestration/_flag_persistence_worker.py:272-348 | persisting in the running classes is its persist step, whichever commit fails |
| FlagPersistence.FlagPersistenceWorker.PersistOne | src/proctoring_engine/orchestration/_flag_persistence_worker.py:291-348 | the committed tables and the callback after one item, with no transaction left open, whether the database refuses before the flag's commit, before the record's, after it when the record is read back, or not at all |
| FlagPersistence.FlagPersistenceWorker.InsertTelemetryEvent | src/proctoring_engine/orchestration/_flag_persistence_worker.py:411-444 | a duplicate id leaves the existing row alone |
| FlagPersistence.FlagPersistenceWorker.PersistFlagDecision | src/proctoring_engine/orchestration/_flag_persistence.py:113-208 | flag row, links by position and positive score increment are committed together or not at all |
| FlagPersistence.FlagPersistenceWorker.HandleKillSwitch | src/proctoring_engine/orchestration/_flag_persistence_worker.py:350-403 | the callback fires exactly when a first termination record is committed and read back |
| FlagPersistence.CommittedWhen | src/proctoring_engine/orchestration/_flag_persistence_worker.py:291-322 | an item is committed exactly when there is a session, the commit goes through, and it cites distinct events that have a row or come along |
| RunLaws.ItemColumns | src/proctoring_engine/orchestration/_flag_persistence.py:151-206 | what committing an item adds to the flag, link, telemetry and session columns |
| RunLaws.ItemOutcome | src/proctoring_engine/orchestration/_flag_persistence_worker.py:291-403 | which outcome an item has, and the record it writes, case by case |
| Pipeline.RunKeepsInv | src/proctoring_engine/orchestration/_frame_dispatcher.py:413-437 | the invariant over aggregator, map, queue, tables and callbacks holds in every state of every interleaving, whatever earlier connections left in the tables and whichever persist steps fail |
| Pipeline.CommitsWhen | src/proctoring_engine/orchestration/_flag_persistence_worker.py:291-322 | in every reachable state the next item is committed exactly when its own commit does not fail and every id it cites comes with it or came with an earlier committed item; equivalently, when none of its events was lost with an earlier item |
| Pipeline.LostForGood | src/proctoring_engine/orchestration/_frame_dispatcher.py:748-764 | an event lost with a failed item makes every later item that cites it fail as well, repeated warnings and terminating flags included |
| Pipeline.PersistNeverFails | src/proctoring_engine/orchestration/_flag_persistence_worker.py:291-322 | as long as no flag commit fails, every item is committed; failures of the record commit lose no flag |
| Pipeline.EveryLinkResolves | src/proctoring_engine/orchestration/_flag_persistence.py:180-196 | whenever an item is committed, each cited id has a telemetry row and links are in order and unique; no event row is inserted twice; an item that is not committed changes no table |
| Pipeline.CreditedIsTotal | src/proctoring_engine/orchestration/_flag_persistence.py:198-204 | persistence credits the sum of the deltas exactly when none is negative |
| Pipeline.ScoreConserved | src/proctoring_engine/orchestration/_flag_persistence.py:198-206 | at any point of any run the session has gained the positive deltas of the committed items, and the aggregator's score is that gain plus the deltas lost with failed items plus the queued ones, exactly when no committed delta was negative |
| Pipeline.ScoreAlwaysConserved | src/proctoring_engine/fusion/aggregator.py:440-571 | with non-negative weights this holds in every state of every run, and nothing is lost while no flag commit fails |
| Pipeline.KillSwitchFiresOnce | src/proctoring_engine/orchestration/_flag_persistence_worker.py:350-403 | the callback fires at most once in a connection: exactly when there was no record at its start, some item had flag and record committed, and the first such record could be read back; then for that item's flag |
| Pipeline.RecordStands | src/proctoring_engine/orchestration/_flag_persistence_worker.py:366-392 | there is a record exactly when one was there at the start or an item had flag and record committed; it never changes, and with a record from before nothing fires |
| RunLaws.CommittedColumns | src/proctoring_engine/orchestration/_flag_persistence.py:151-206 | in every run, a persist step that commits adds one flag row with the decision's rule, severity, confidence, termination bit and exemption and credits a positive delta; one that does not adds nothing |
| RunLaws.RecordNamesTerminatingFlag | src/proctoring_engine/orchestration/_flag_persistence_worker.py:366-391 | in every state of every run the flag a record of this connection names is committed and terminating, and its rule is the reason |
| RunLaws.RowsAreDispatchedEvents | src/proctoring_engine/orchestration/_flag_persistence_worker.py:308-316 | in every state of every run each telemetry row of this connection is an event that was dispatched, under the id it got then |
| RunLaws.ReviewKeepsSessionLive | src/proctoring_engine/fusion/aggregator.py:959-973 | under FLAG_FOR_REVIEW a run without a terminating second-person, identity, gaze or liveness decision fires nothing and writes no record, whatever the score |
| RunLaws.SecondPersonByMessages | src/proctoring_engine/orchestration/_frame_dispatcher.py:514-537 | end to end: the second-person decisions queued in a run are exactly what its light messages call for |
| PipelineRuns.LostKillSwitchRun | src/proctoring_engine/orchestration/_flag_persistence_worker.py:291-335 | a run in which one failed flag commit makes the terminating flag of the same event fail too, so that no kill-switch fires |
| PipelineRuns.SecondRecordRejectedRun | src/proctoring_engine/orchestration/_flag_persistence_worker.py:350-391 | a run with two terminating flags: the first one fires, the second one is committed and its record refused |
| PipelineRuns.SecondFlagFiresRun | src/proctoring_engine/orchestration/_flag_persistence_worker.py:350-403 | a run in which the first record's commit fails and the second terminating flag fires |
| PipelineRuns.NeverFiresRun | src/proctoring_engine/orchestration/_flag_persistence_worker.py:390-403 | a run in which the first record is committed but not read back: nothing fires, and the second record is refused |
| SessionRuns.FiresOncePerSession | src/proctoring_engine/orchestration/_flag_persistence_worker.py:350-403 | over all connections of a session the callback fires at most once, for the flag that the one record names, and never if there was a record before |
| SessionRuns.OneKillSwitchPerSession | src/proctoring_engine/websocket/routes.py:498-542 | a session begins at most one kill-switch, preparing it is never refused, and every message and every lock of the client is for the flag of the record |
| SessionRuns.NeverSentAgain | src/proctoring_engine/websocket/routes.py:434-436 | once a connection has followed the one on which it was prepared, nothing is sent in the session any more |
| SessionRuns.LostWithConnection | src/proctoring_engine/websocket/routes.py:631-672 | a session whose kill-switch fired and whose connection went before the client got it: the record stands, nothing is pending |
| SessionRuns.SessionScore | src/proctoring_engine/orchestration/_flag_persistence.py:198-206 | with non-negative weights the session row gains the sum over all connections of the aggregator's score, less what was lost and what was still queued |
| SessionRuns.ThresholdMissed | src/proctoring_engine/fusion/aggregator.py:907-973 | a session whose row reaches the threshold over two connections although no decision terminates |
| WsClients.WsClient.Connect | client/src/ws-client.ts:50-69 | a terminal client creates no socket; a failing constructor makes it terminal |
| WsClients.WsClient.Disconnect | client/src/ws-client.ts:71-81 | terminal, without socket, the latest reconnect timer cleared |
| WsClients.WsClient.HandleOpen | client/src/ws-client.ts:93-97 | an open event of any socket, an older one included, resets the reconnect counter and the status |
| WsClients.WsClient.Send | client/src/ws-client.ts:87-91 | a message reaches the wire only while the socket is open |
| WsClients.WsClient.HandleClose | client/src/ws-client.ts:120-137 | codes 4000 to 4999 are terminal, others schedule a reconnect, a terminal client stays down |
| WsClients.WsClient.FireTimer | client/src/ws-client.ts:163-167 | a reconnect timer fires once and only connects again |
| WsClients.ClosesForGoodWhen | client/src/ws-client.ts:120-161 | a close is final for a terminal client and for codes 4000 to 4999, and otherwise arms exactly one timer |
| WsClients.ComesBack | client/src/ws-client.ts:87-167 | after any other close the timer creates one socket, and once it is open acknowledgements reach the wire again |
| WsClients.StopsForGood | client/src/ws-client.ts:50-81 | disconnecting and a failing constructor are final; the latest timer is disarmed |
| WsClients.TerminalForGood | client/src/ws-client.ts:50-184 | once terminal, no sequence of events creates another socket, although timers armed before may fire |
| WsClients.TerminalThenSilent | client/src/ws-client.ts:87-137 | after the close that follows, every acknowledgement is dropped; the status stays terminal exactly unless the last event to write it is an older socket's open event |
| ClientRollingBuffers.RollingBuffer.Push | client/src/rolling-buffer.ts:51-54 | both arrays match the longer history |
| ClientRollingBuffers.RollingBuffer.Add | client/src/rolling-buffer.ts:61-71 | the same, with two clock readings |
| ClientRollingBuffers.RollingBuffer.Drain | client/src/rolling-buffer.ts:83-88 | hands out what the history leaves and empties both arrays |
| ClientRollingBuffers.RollingBuffer.EvictOld | client/src/rolling-buffer.ts:113-125 | the scan drops exactly the leading entries older than the window |
| ClientRollingBuffers.KeptIsOneScan | client/src/rolling-buffer.ts:113-125 | with a clock that never goes back all evictions amount to one scan with the latest cutoff |
| ClientRollingBuffers.KeptWasAdded | client/src/rolling-buffer.ts:51-71 | everything held is an entry as it was pushed or a frame as it was added, under its own time and tag |
| ClientRollingBuffers.HeldIsTheWindow | client/src/rolling-buffer.ts:47-54 | pushed in time order, an entry since the last clear is held exactly when it is within the window |
| ClientRollingBuffers.ArraysAgree | client/src/rolling-buffer.ts:56-71 | the two arrays hold the same heavy frames exactly when their latest cutoffs keep the same ones |
| ClientRollingBuffers.AudioPushPartsThem | client/src/rolling-buffer.ts:51-71 | a history after which they differ |
| ClientRollingBuffers.TwoReadingsPartThem | client/src/rolling-buffer.ts:61-71 | so do two calls of add alone, when the clock ticks between the two readings of one call |
| KillSwitches.DeliveryService.NextAck | src/proctoring_engine/websocket/server.py:327-338 | acknowledgement numbers count up by one |
| KillSwitches.DeliveryService.PrepareKillSwitch | src/proctoring_engine/websocket/server.py:340-365 | refused while one is in flight, otherwise the new one is pending |
| KillSwitches.DeliveryService.RecordKillSwitchAck | src/proctoring_engine/websocket/server.py:367-392 | only an acknowledgement of the pending flag counts |
| KillSwitches.DeliveryService.ShouldRetryKillSwitch | src/proctoring_engine/websocket/server.py:394-430 | a retry only when in flight, past the grace period and within the budget |
| KillSwitches.KillSwitchHandler.HandleMessage | client/src/ws-client.ts:99-118 | a kill-switch message makes the client terminal before the handler runs |
| KillSwitches.KillSwitchHandler.HandleKillSwitch | client/src/kill-switch.ts:141-187 | drains on the first message of a flag only, acknowledges every time |
| KillSwitchLaws.DeliverActs | client/src/kill-switch.ts:141-187 | a message that arrives, first or repeated, puts exactly one acknowledgement of its flag on the wire if the socket is open and none otherwise; it drains the first time only |
| KillSwitchLaws.PrepareActs | src/proctoring_engine/websocket/server.py:340-365 | preparing is refused exactly while another one is unacknowledged |
| KillSwitchLaws.RetryActs | src/proctoring_engine/websocket/server.py:394-430 | a retry is sent exactly when one is unacknowledged, its last message is a grace period old and the budget is not used up |
| KillSwitchLaws.AcknowledgeActs | src/proctoring_engine/websocket/server.py:367-392 | an acknowledgement counts exactly when it names the pending flag |
| KillSwitchLaws.AcknowledgedRun | src/proctoring_engine/websocket/server.py:340-392 | a run from the start that ends acknowledged |
| KillSwitchLaws.RetriedRun | src/proctoring_engine/websocket/server.py:394-430 | a run in which the first delivery finds the socket not open and a retry gets the acknowledgement through |
| KillSwitchProtocol.RunKeepsInv | src/proctoring_engine/websocket/server.py:340-430 | the invariant over both ends and the messages in flight holds in every run |
| KillSwitchProtocol.AckedMeansHandled | src/proctoring_engine/websocket/server.py:322-392 | the server is acknowledged only if the client has handled the pending flag |
| KillSwitchProtocol.StaleAcksIgnored | src/proctoring_engine/websocket/server.py:382-392 | acknowledgements of other flags change nothing |
| KillSwitchProtocol.SendsArePaced | src/proctoring_engine/websocket/server.py:394-430 | each accepted kill-switch is sent at most 1 + max_retries times, at least the grace period apart |
| KillSwitchProtocol.NoSendAfterAck | src/proctoring_engine/websocket/server.py:401-403 | once acknowledged or superseded it is never sent again |
| KillSwitchProtocol.SilentAfterReconnect | src/proctoring_engine/websocket/routes.py:434-436 | after a reconnect nothing is sent until a kill-switch is prepared on the new connection, whatever was pending on the old one |
| KillSwitchProtocol.DrainsOncePerFlag | client/src/kill-switch.ts:146-187 | the buffer is drained exactly once per flag handled, and everything drained is handed over once |
| KillSwitchProtocol.HandledForGood | client/src/ws-client.ts:113-118 | the client locks only for flags the server sent, and opens no socket afterwards |
| StorageKeys.UuidRoundTrip | src/proctoring_engine/evidence/_storage_key.py:75-79 | the text of every UUID is canonical and parses back to it |
| StorageKeys.PrintedBackIsCanonical | src/proctoring_engine/evidence/_storage_key.py:116-124 | of the accepted spellings exactly the canonical one is printed back |
| StorageKeys.BuildThenParse | src/proctoring_engine/evidence/_storage_key.py:68-140 | parsing a built key gives the same session, flag and type |
| StorageKeys.KeysAreUnique | src/proctoring_engine/evidence/_storage_key.py:68-79 | different artifacts never share a key |
| StorageKeys.ParseThenBuild | src/proctoring_engine/evidence/_storage_key.py:108-140 | a key that parses is rebuilt as it was exactly when both ids are spelled canonically |
| StorageKeys.SealedKeyRecovered | src/proctoring_engine/evidence/retention.py:223-228 | retention recovers from the stored URI exactly the key that was sealed |
| Evidence.InMemoryEvidenceStore.Upload | src/proctoring_engine/evidence/_s3.py:260-262 | the key holds the data, no other key changes |
| Evidence.InMemoryEvidenceStore.Download | src/proctoring_engine/evidence/_s3.py:264-268 | the blob, or nothing when there is none |
| Evidence.InMemoryEvidenceStore.Delete | src/proctoring_engine/evidence/_s3.py:270-272 | deleting is idempotent and touches one key |
| Evidence.SealEvidence | src/proctoring_engine/evidence/service.py:160-208 | the store and the result of upload, verification and clean-up, for every fault |
| Evidence.SealEvidenceForFlag | src/proctoring_engine/orchestration/_evidence_service.py:131-247 | store, committed rows and outcome, for every fault |
| Evidence.StopsWhen | src/proctoring_engine/orchestration/_evidence_service.py:182-211 | exactly when a seal stops before the table, and why |
| Evidence.SealsWhen | src/proctoring_engine/orchestration/_evidence_service.py:224-247 | once the blob is stored and verified it is sealed exactly when the flag has no artifact and the key no row, the times are in order and the commit goes through |
| Evidence.SealedColumns | src/proctoring_engine/orchestration/_evidence_service.py:182-223 | every column of a sealed row, its URI spelled out, and the expiry: as requested or the default period from now |
| Evidence.Extensions | src/proctoring_engine/evidence/_storage_key.py:22-29 | the four file types that can be sealed and their extensions |
| Evidence.SealTouchesOwnKey | src/proctoring_engine/evidence/service.py:160-195 | a seal changes at most the blob at its own key and no existing row |
| Evidence.SealKeepsIntactWhen | src/proctoring_engine/orchestration/_evidence_service.py:182-247 | a seal keeps every committed row's blob present and matching exactly unless it leaves another digest, or nothing, at the key of a committed row |
| Evidence.NewRowIntact | src/proctoring_engine/evidence/service.py:128-140 | blob first, row second: a committed row has its blob with the recorded digest and size |
| Evidence.ResealCorruptsRow | src/proctoring_engine/orchestration/_evidence_service.py:212-244 | sealing again with other content is refused but breaks the committed row's checksum |
| Retention.SelectBatch | src/proctoring_engine/evidence/retention.py:123-135 | the lowest ids of the expired rows not yet failed, in order, up to the limit |
| Retention.DeleteArtifact | src/proctoring_engine/evidence/retention.py:139-187 | blob first, row second; a failed flush takes the open transaction back |
| Retention.RunBatch | src/proctoring_engine/evidence/retention.py:137-187 | rows and blobs after a batch are what its outcomes, artifact by artifact, make of them, and so are its counters |
| Retention.RunRetentionDeletion | src/proctoring_engine/evidence/retention.py:111-205 | terminates under every pattern of failures; the outcome lists of its batches form a possible history that ended properly, and tables, store and both counters are what replaying it gives |
| Retention.RunIsBounded | src/proctoring_engine/evidence/retention.py:111-205 | there are at most as many batches as expired rows |
| Retention.HistoryRetains | src/proctoring_engine/evidence/retention.py:137-187 | in every run rows go only after their blobs, and rows and keys that are not expired stay |
| Retention.BatchCounts | src/proctoring_engine/evidence/retention.py:137-200 | storage errors are the failed blob deletes of all batches, the count the removals of the committed ones |
| Retention.GoneOrFailed | src/proctoring_engine/evidence/retention.py:122-136 | without a commit failure every expired row is gone or failed at the end |
| Retention.CountIsExactWhen | src/proctoring_engine/evidence/retention.py:174-205 | the reported number is the rows gone plus the deletes that committed batches took back; it is exact exactly when no committed batch had a row flush fail after a row delete |
| Retention.SurvivorLostBlobWhen | src/proctoring_engine/evidence/retention.py:152-199 | a surviving row has lost its blob exactly when its own flush failed, or its delete was rolled back by a later failed flush or a failed commit |
| Retention.OvercountingRun | src/proctoring_engine/evidence/retention.py:179-187 | a run that reports two deletions with one row gone |
| Retention.RowsLeftRun | src/proctoring_engine/evidence/retention.py:179-187 | a run without commit failure after which two rows survive without blobs, one by its own flush and one by the rollback |
| Retention.FailedCommitRun | src/proctoring_engine/evidence/retention.py:190-200 | a run whose failed commit leaves two rows without blobs |
| Retention.OnlyExpiredLoseBlobs | src/proctoring_engine/evidence/retention.py:138-172 | deleting an artifact touches only its own blob, and rows that are not expired keep theirs |
| EvidenceRuns.RowsKeepTheirBlobs | src/proctoring_engine/evidence/service.py:128-140 | in any run of seals and retention runs that writes each key at most once, every row's blob is present and matching, unless a retention run deleted it at a time at which the row had expired |
| RollingBuffers.LongestIsOptimal | src/proctoring_engine/preprocessing/rolling_buffer.py:204-207 | the suffix kept meets both caps and every longer one breaks one of them |
| RollingBuffers.LongestStep | src/proctoring_engine/preprocessing/rolling_buffer.py:204-207 | evicting as entries come amounts to evicting from the whole history |
| RollingBuffers.EstimateIsClose | src/proctoring_engine/preprocessing/rolling_buffer.py:300-312 | for well-formed Base64 the size estimate is exact without padding and one too high with it |
| RollingBuffers.InMemoryRollingBuffer.Create | src/proctoring_engine/preprocessing/rolling_buffer.py:76-97 | a configuration that does not validate is refused |
| RollingBuffers.InMemoryRollingBuffer.Receive | src/proctoring_engine/preprocessing/rolling_buffer.py:114-203 | an entry that does not validate or is too large is refused and changes nothing |
| RollingBuffers.InMemoryRollingBuffer.Append | src/proctoring_engine/preprocessing/rolling_buffer.py:193-207 | after any appends the buffer is the longest suffix of the accepted entries within both caps; an entry too large changes nothing |
| RollingBuffers.InMemoryRollingBuffer.EvictOldest | src/proctoring_engine/preprocessing/rolling_buffer.py:204-207 | the loop terminates, even when one entry alone is over the cap |
| RollingBuffers.InMemoryRollingBuffer.TotalBytes | src/proctoring_engine/preprocessing/rolling_buffer.py:221-222 | the sum of the declared sizes |
| RollingBuffers.InMemoryRollingBuffer.WindowStart | src/proctoring_engine/preprocessing/rolling_buffer.py:215-216 | the capture time of the first accepted entry from which on all fit both caps |
| RollingBuffers.InMemoryRollingBuffer.WindowEnd | src/proctoring_engine/preprocessing/rolling_buffer.py:218-219 | the capture time of the last accepted entry, unless that one alone is over the cap |
| LaunchStates.InMemoryLaunchStateStore.Create | src/proctoring_engine/lti/state.py:166-177 | a non-positive time to live is refused |
| LaunchStates.InMemoryLaunchStateStore.RegisterLaunch | src/proctoring_engine/lti/state.py:191-213 | refuses empty values, purges, overwrites |
| LaunchStates.InMemoryLaunchStateStore.ConsumeLaunch | src/proctoring_engine/lti/state.py:215-242 | the entries and the answer of each branch |
| LaunchStates.InMemoryLaunchStateStore.PeekIssuer | src/proctoring_engine/lti/state.py:258-274 | the issuer of a live entry, which stays |
| LaunchStates.InMemoryLaunchStateStore.PurgeExpired | src/proctoring_engine/lti/state.py:276-300 | exactly the entries past the time to live go, and the count is right |
| LaunchStates.ConsumeSucceedsWhen | src/proctoring_engine/lti/state.py:215-242 | in any interleaving, consume succeeds exactly when the latest registration is unconsumed, not too old and carries the nonce, and answers with what was registered |
| LaunchStates.ConsumeFailsWhen | src/proctoring_engine/lti/state.py:215-242 | why a consume fails: a mismatch exactly for another nonce than that of a pending registration in time |
| LaunchStates.PeekAnswers | src/proctoring_engine/lti/state.py:258-274 | peeking answers with the issuer of the latest registration exactly if it is unconsumed and in time |
| LaunchStates.RefusesWhen | src/proctoring_engine/lti/state.py:191-213 | a registration is refused exactly for an empty state or nonce |
| LaunchStates.PurgeCounts | src/proctoring_engine/lti/state.py:276-300 | a purge removes exactly the entries older than the time to live and answers with their number |
| LaunchStates.MismatchConsumesNothing | src/proctoring_engine/lti/state.py:232-236 | a wrong nonce leaves the store as it was |
| LaunchStates.RetryAfterMismatch | src/proctoring_engine/lti/state.py:232-242 | unless the state is registered anew or consumed in between, a later consume with the right nonce, in time, succeeds |
| LaunchStates.PurgeTransparent | src/proctoring_engine/lti/state.py:191-300 | every answer is that of a store that never purges, except Expired becoming Missing |
| LaunchStates.ExtraPurge | src/proctoring_engine/lti/state.py:276-300 | a purge put in anywhere changes no later answer, except Expired becoming Missing |
| LaunchStates.RedisLaunchStateStore.Create | src/proctoring_engine/lti/state.py:377-395 | so are a non-positive time to live and an empty prefix |
| LaunchStates.RedisLaunchStateStore.RegisterLaunch | src/proctoring_engine/lti/state.py:414-441 | sets the prefixed key with the time to live |
| LaunchStates.RedisLaunchStateStore.ConsumeLaunch | src/proctoring_engine/lti/state.py:320-339 | the script's GET, compare and DEL as one step |
| LaunchStates.RedisLaunchStateStore.PeekIssuer | src/proctoring_engine/lti/state.py:482-498 | the issuer of a readable key |
| LaunchStates.RedisLaunchStateStore.PurgeExpired | src/proctoring_engine/lti/state.py:500-507 | a no-op |
| LaunchStates.StoresAgree | src/proctoring_engine/lti/state.py:443-480 | both stores answer every call alike, except that Redis answers Missing where the other may answer Expired |
| VadFrames.FrameSize | src/proctoring_engine/preprocessing/audio.py:297-312 | every supported combination gives a whole number of at least 80 samples, so the empty-frame error never occurs |
| VadFrames.SplitIntoVadFrames | src/proctoring_engine/preprocessing/audio.py:268-336 | the two errors, or as few frames of exact length as cover the chunk, at offsets one duration apart, silence after its end |
| VadFrames.FramesAreLossless | src/proctoring_engine/preprocessing/audio.py:317-334 | the frames put together are the chunk followed by less than one frame of zeros, and their number is the length divided by the frame size, rounded up |
| PolicyVersions.PolicyTable.CreatePolicyVersion | src/proctoring_engine/orchestration/_admin_service.py:241-323 | committed rows and outcome of each branch |
| PolicyVersions.PolicyTable.ResolvePreviousActive | src/proctoring_engine/orchestration/_admin_service.py:205-222 | all live rows of the name |
| PolicyVersions.PolicyTable.ResolveMaxVersion | src/proctoring_engine/orchestration/_admin_service.py:225-238 | the highest version of the name, or 0 |
| PolicyVersions.CreatesWhen | src/proctoring_engine/orchestration/_admin_service.py:265-323 | exactly when a version is created, what the new row is, and which row is retired |
| PolicyVersions.CreatedColumns | src/proctoring_engine/orchestration/_admin_service.py:265-323 | every column of a created version, its number one above the highest of its name, and the row the call names as superseded |
| PolicyVersions.RefusedWhen | src/proctoring_engine/orchestration/_admin_service.py:241-318 | why a version is refused: out of range, a live row not to be retired, or a check constraint or the commit |
| PolicyVersions.CreateKeepsOneLive | src/proctoring_engine/models.py:532-537 | at most one row of a name is live after every call, so the lookup never sees two |
| PolicyVersions.CallsKeepOrder | src/proctoring_engine/orchestration/_admin_service.py:265-323 | after any calls, failed ones included, each name's versions are 1..n in insertion order and at most one row is live |
| PolicyVersions.OldRowsAreKept | src/proctoring_engine/orchestration/_admin_service.py:270-284 | no field of an old row ever changes except its retirement time, once, from null to set |
| Lifecycle.TransitionsRaiseRank | src/proctoring_engine/orchestration/_state_machine.py:42-69 | the table has no cycle, TERMINATED is entered only from PENDING or ACTIVE |
| Lifecycle.Edges | src/proctoring_engine/orchestration/_state_machine.py:42-69 | the table, edge by edge |
| Lifecycle.ReviewMoves | src/proctoring_engine/orchestration/_admin_service.py:528-574 | where a review moves a session: exactly an upheld flag of an ACTIVE, COMPLETED or TERMINATED one to UNDER_REVIEW and an overturned one of a TERMINATED one to REINSTATED |
| Lifecycle.HandshakeMoves | src/proctoring_engine/websocket/routes.py:377-428 | exactly when the handshake refuses, activates, or terminates with a record |
| Lifecycle.ExamSession.Connect | src/proctoring_engine/websocket/routes.py:377-428 | activates, or terminates with a record when neither backend nor override is there |
| Lifecycle.ExamSession.Terminate | src/proctoring_engine/orchestration/_routes.py:322-352 | status and record are written together or not at all |
| Lifecycle.ExamSession.RecordProctorReview | src/proctoring_engine/orchestration/_admin_service.py:528-574 | the review is recorded and the status moved as the decision and the status say |
| Lifecycle.ExamSession.ApplyTransition | src/proctoring_engine/orchestration/_state_machine.py:110-134 | a move outside the table leaves the row alone, one inside raises the rank |
| Lifecycle.WritesAreAllowed | src/proctoring_engine/orchestration/_admin_service.py:552-570 | every status write is an edge of the table, the review's transition error cannot occur, errors change nothing |
| Lifecycle.TerminateSucceedsWhen | src/proctoring_engine/orchestration/_routes.py:322-346 | the route succeeds exactly for an existing flag, a connectable session and no termination record |
| Lifecycle.RunsAreShort | src/proctoring_engine/orchestration/_state_machine.py:42-69 | any run makes at most four status changes and enters TERMINATED at most once |
| Lifecycle.NeverConnectableAgain | src/proctoring_engine/websocket/routes.py:141-168 | a session that has left PENDING and ACTIVE is never connectable again |
| Lifecycle.WorkerRecordBlocksTermination | src/proctoring_engine/orchestration/_flag_persistence_worker.py:366-391 | a session is terminated only with its own record; a record the worker wrote first rules termination out for good |
| Lifecycle.WorkerRecordExample | src/proctoring_engine/orchestration/_routes.py:337-352 | such a session is reachable: ACTIVE, and the terminate route is refused |

## Left out

- StorageKeys.UuidRoundTrip: the parser takes plain hexadecimal digits only; the further spellings that Python's `int` accepts (signs, underscores, a `0x` prefix, surrounding white space, other Unicode digits) are not modelled.
- Lifecycle.ExamSession.Terminate: `ended_at`, delivery statuses and the check that the flag belongs to the session (the code has none) are not modelled.
- LaunchStates.InMemoryLaunchStateStore.ConsumeLaunch: `compare_digest` refuses non-ASCII strings; the model compares any two strings.
- Evidence.SealEvidenceForFlag: the source rolls back on IntegrityError only; after any other commit failure the caller has to, and the model takes it as done. Exception texts are not modelled.
- PolicyVersions.PolicyTable.CreatePolicyVersion: likewise, a commit failure other than IntegrityError is rolled back by the caller, and the model takes it as done.
- FrameDispatchers.ExamPipeline.DispatchBatch: a stop request in the middle of a batch, which drops the rest of it, is not modelled.
- The detail dictionary of flag decisions, arrival times, processed and error counters, and logging.
- Floating-point rounding and the Decimal rounding of the persisted score column.
- Threads, locks and the bounded drain on shutdown: each locked method is one atomic step. One dispatcher per buffer, as `_frame_dispatcher.py:204` says; the application wires one process-wide buffer. The connections of a session follow one another.
- `process_identity_check_unavailable` and `_emit_identity_unavailable_flag`, which pushes to an attribute that is never defined: the identity backend is taken to be available to the dispatcher.
- The inference runners, frame and audio decoding, cropping and the modality scheduler: their results are inputs.
- Book severity and the exemption lookup: their outcome is an input of the object path.
- HTTP, WebSocket and OIDC transport, JWT, Pydantic validation, SQLAlchemy, Redis and S3 beyond the calls modelled. Tables are maps and sequences with commit and rollback.
- SHA-256: an arbitrary function; only equality of digests is used.
- Page reloads, the overlay, the heartbeat, the jitter of the reconnect delay and the order of status callbacks in the browser client.
- The database's check that a telemetry row belongs to its session, and the columns of telemetry rows.
- `to_serializable`, `NullRollingBuffer`, `snapshot`, the null and edge-gateway variants, and list and lookup routes: easy members.
