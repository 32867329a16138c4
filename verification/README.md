# VeriLink in Dafny

A model of the parts of VeriLink whose correctness depends on state and history, with proofs for all inputs, all runs
or all reachable states. `dafny verify dfyconfig.toml` checks the whole project.

- **Trust propagation.** `VeriRank` holds the loops of the engine over real-valued scores, proved against `Hops`, a
  function of the edges. `VeriRankWalks` proves that the scores are best walks; `VeriRankBounds`, `VeriRankBlacklist`,
  `VeriRankMonotone` and `VeriRankOrder` hold the distance bound, the blacklist laws, monotonicity and independence of
  edge order. `RunStream` is the streaming call in front of the engine.
- **Decision log.** `WalLog` is the file format with its two-pass load, `Wal` the operations on values, `WalRuns` whole
  runs, restarts and crashes, `WalReopen` the restart itself, `WalTorn` writing on after a torn recovery,
  `WalLimits` what else the log does not promise and exactly when, and `DecisionWal` the class.
- **Decision delivery.** `Ingest` is the control-plane side, `Flush` the edge worker, and `Delivery` the two together as
  a state machine with lost replies, interleaved appends, drops, restarts and crashes. `DeliverySamples` follows the
  sample rows, `DeliveryProgress` shows what a round of the worker achieves, and `DeliveryCrash` ties the crash step to
  the crash theorem of the log.
- **Score replication.** `ScoreLog` and the `ScoreWriter` module write the versioned event log, `SseSession` sends it,
  `EdgeStore` applies and persists it, and `Replication` puts them together as a state machine with disconnects,
  redelivery, snapshot recovery and restart. `ReplicationRecovery` follows a saved edge through a restart and shows how
  an edge catches up. `SseQueue` is the outbound queue, `SseWire` the event-stream text
  (WHATWG HTML, sections 9.2.5 and 9.2.6), and `SseCut` and `SseCutEdge` what a stream cut anywhere does.
- **Canonical JSON.** `Canonical` is the RFC 8785 printer (sections 3.2.2 and 3.2.3) with a reader for its output.

Loops and mutated objects of the source are loops and classes here. Each is proved equal to a specification function on
values, and the laws are proved of that function, of its runs, or of the class.

Time decay is a parameter: a function of age, assumed non-negative, at most 1 where bounds need it, and antitone where
monotonicity needs it. The clock, the socket, the transport, the digest and the payload codec are parameters too.
`Delivery` assumes that the digest has no collisions and that both sides hash a batch alike. `SseCutEdge` assumes that
a payload reads back and that a cut one, which is no JSON object, cannot be read. The number of bytes that the common
fields of a log line take is a parameter, and the fields that differ between the append size and the reload size are
written out.

## What the code does not promise

Each of these is a lemma about the code as it is.

- A flagged principal may keep a score when its accuser is itself accused (`FlaggedCanScore`); `ZeroAfterHopIff` says
  exactly when each hop leaves a principal at 0.
- Moving a timestamp closer to the evaluation time can lower a score or drop the claim (`CloserCanBeOlder`,
  `OvershootDropsClaim`). What counts, exactly, is age after future times are taken as now (`FresherIff`).
- A torn last line is tolerated on load but not removed. The next line written is glued to it and lost, and a second
  one makes the file unloadable until a compaction rewrites it (`TornAppendLost`, `LoadsAfterRunIff`).
- Acknowledging a number that was never issued loses the next record on reload, unless the acknowledgement removes
  nothing or triggers a compaction (`AckSafeIff`).
- Records are sized differently on reload than on append, so a no-drop log can refuse its own intact file
  (`NoDropRestartRefused`, `NoDropReopenIff`).
- An oversized record in drop mode empties the log and is then refused (`OversizedEmptiesLog`).
- The retention scan stops at the first young entry, so an older decision behind it stays (`PruneCompleteIff`).
- A batch that holds a decision whose fingerprint could not be filled in, or that the two JSON encoders write
  differently, is refused every time it is sent (`EdgeBatchShapeIff`). Go escapes `<`, `>` and `&`, JavaScript does not.
- A crash that loses a number already sent lets the number be issued again. Accounting and counting survive it, but the
  sample row stays that of the first decision (`ReusedNumberIff`, `ReusedNumberRun`).
- A poll cut by its row limit still sends the global cursor, and the edge then misses score events for good
  (`CutPollDiverges`, `PollAgreesIff`, `CursorHonestIff`).
- A stream that breaks off after the first character of an event's name and before its data is whole hands on a wrong
  event (`StreamCutIff`). Inside the name of a score event the edge skips that event for good; anywhere else it still
  agrees with the log (`StreamCutAgreesIff`).
- A control frame is not covered by the byte cap of the queue (`ControlWithinCapIff`, `ControlExceedsCap`).

## Model

| member | source | states |
|---|---|---|
| VeriRank.FindBlacklist | pkg/trust/engine.go:239-254 | the loop collects exactly the subjects of negative edges whose issuer has a score and reaches 80 after its trust weight; a missing weight counts as 0 |
| VeriRank.RelaxEdges | pkg/trust/engine.go:256-282 | one hop from the snapshot of the previous hop; `changed` is true exactly when some score moved |
| VeriRank.ApplyOverrides | pkg/trust/engine.go:284-293 | a subject blacklisted in this hop scores 0 whether or not it had a row |
| VeriRank.StableHops | pkg/trust/engine.go:295-298 | once a hop changes nothing, no later hop does |
| VeriRank.RunHops | pkg/trust/engine.go:237-299 | leaving the loop early gives the same scores and flags as all four hops |
| VeriRank.BuildRows | pkg/trust/engine.go:301-332 | whatever order the score map is read in: one row per scored principal, strictly increasing ids, clamped and rounded score, flag and reason of that principal (RowMeaning says what these are) |
| VeriRankOrder.RowMeaning | pkg/trust/engine.go:301-332 | a row holds the nearest whole number to the unrounded score, halves up and 0 to 100 at most, says blacklisted and gives that reason exactly when some hop flagged the principal, and carries its kind; rows stand in id order, compared position by position |
| VeriRank.Propagate | pkg/trust/engine.go:217-338 | the rows are the table of the state four hops after the weighted roots |
| VeriRank.RunVeriRank | pkg/trust/engine.go:179-208 | claims without a time or dated past the skew are dropped, future ones count as now, and the rows are the table over the remaining edges |
| VeriRankOrder.RelaxAllCovers | pkg/trust/engine.go:256-282 | relaxation lowers no score and meets every contribution carried by a non-blacklisted issuer |
| VeriRankOrder.RelaxAllSource | pkg/trust/engine.go:256-282 | every score after a hop is the old one or a strictly higher contribution of some edge |
| VeriRankOrder.HopMeaning | pkg/trust/engine.go:238-293 | one hop in raw terms: who is blacklisted (a negative edge whose issuer scores 80 or more after its weight, 0 without a principal row) and scores 0, and for everyone else the best of the old score and of what each edge of a scored, not blacklisted issuer offers: its score times delta / 100, times 0.8, times decay at the age of the edge, times its weight |
| VeriRankOrder.HopsSameEdges | pkg/trust/engine.go:238-299 | scores and blacklist flags after any number of hops depend only on the set of edges, not their order or multiplicity |
| VeriRankOrder.TableUnique | pkg/trust/engine.go:301-332 | a state has one table, so map iteration order never shows |
| VeriRankOrder.TablesOfSameEdges | pkg/trust/engine.go:238-338 | two runs over the same set of edges return equal rows |
| Walks.ScoreIsWalk | pkg/trust/engine.go:256-282 | each score is the value of some endorsing walk no longer than the rounds run |
| Walks.WalkBounded | pkg/trust/engine.go:256-282 | no endorsing walk of that length is worth more than the score at its end |
| VeriRankWalks.BestWalkTheorem | pkg/trust/engine.go:230-299 | until a blacklist fires: a principal has a row exactly when it is a root or some endorsing walk to it has positive value, and its unrounded score is the maximum over all endorsing walks of at most n edges of 100 times the root weight times the product of the edge factors |
| VeriRankWalks.NoNegativeEdgeNoBlacklist | pkg/trust/engine.go:239-254 | without negative edges nothing is ever flagged, so the best-walk theorem covers all four hops |
| VeriRankWalks.PeacefulIff | pkg/trust/engine.go:237-254 | n + 1 hops flag nobody if and only if no endorsing walk of at most n edges lifts the issuer of a negative edge to the threshold |
| VeriRankBounds.RowReachable | pkg/trust/engine.go:230-299 | every row, blacklisted or not, is reachable from a root within the hops run |
| VeriRankBounds.DistanceBound | pkg/trust/engine.go:230-311 | each row has a shortest walk of d edges from a root, d at most the hops run, and scores between 0 and 100 * 0.8^d |
| VeriRankBounds.ClampNeverFires | pkg/trust/engine.go:304-310 | the clamp before rounding never changes a score, blacklists included |
| VeriRankBounds.OnlyNearRootBlacklists | pkg/trust/engine.go:239-254 | only a root or a principal that a root attests ever blacklists anyone |
| VeriRankBlacklist.FlaggedMeansZero | pkg/trust/engine.go:284-293 | a flagged principal whose own accusers nobody accuses scores exactly 0 after any number of hops |
| VeriRankBlacklist.AllFlaggedZero | pkg/trust/engine.go:284-293 | if no accuser at all is accused, every flagged principal scores 0 |
| VeriRankBlacklist.ZeroAfterHopIff | pkg/trust/engine.go:237-293 | after any hop a principal scores 0 if and only if that hop blacklists it, or it scored 0 before and no edge of a scored, not blacklisted issuer offers it a positive value |
| VeriRankBlacklist.FlaggedCanScore | pkg/trust/engine.go:237-299 | a graph where an accuser is accused and a flagged principal ends all four hops with score 80 |
| VeriRankBlacklist.Quarantine | pkg/trust/engine.go:237-299 | when an unaccused root at the threshold accuses a non-root, removing all edges issued by that non-root changes no score and no flag at any hop |
| VeriRankMonotone.BetterInputsNeverLower | pkg/trust/engine.go:179-299 | without negative edges: more claims, fresher accepted claims, higher root weights and higher issuer weights lower no unrounded score and lose no row |
| VeriRankMonotone.BetterInputsNeverLowerRows | pkg/trust/engine.go:179-338 | the same for the rounded scores of the returned rows |
| VeriRankMonotone.FresherIff | pkg/trust/engine.go:179-299 | re-dating the only claim of the only root keeps the score of its subject from falling if and only if the new date is accepted and its age, future dates counting as now, is no greater |
| VeriRankMonotone.OvershootDropsClaim | pkg/trust/engine.go:191-193 | every date moved closer to now but past the skew tolerance drops the score from positive to 0 |
| VeriRankMonotone.CloserCanBeOlder | pkg/trust/engine.go:194-197 | every tolerated future date replaced by a closer past one lowers the score |
| RunStream.ReceiveOne | internal/trustengine/service.go:60-135 | a chunk is taken exactly when it is well formed and its key has not come before |
| RunStream.Receive | internal/trustengine/service.go:41-135 | the receive loop succeeds exactly on a header followed by well-formed chunks, none a second header, with unique principal and root ids, and then holds exactly their rows |
| RunStream.Validate | internal/trustengine/service.go:141-185 | the checks after the stream accept exactly the requests where every issuer, subject and root has a principal row, every issuer may issue, and every root is a bootstrap principal of weight 1 |
| RunStream.RunVeriRankStream | internal/trustengine/service.go:30-219 | the call succeeds exactly on accepted streams and then returns the engine table of their contents |
| RunStream.AcceptedIff | internal/trustengine/service.go:41-185 | acceptance chunk by chunk: ids and times present, weights within 0 and 1, no second header and no second row for an id, an attestation with rows for both ends and an issuing kind for its issuer, a root with a bootstrap row of weight 1 |
| RunStream.StreamMeaning | pkg/trust/engine.go:179-235 | what an accepted stream gives the engine: weights and kinds of the principal rows, roots at 100 times their weight, and an edge for each attestation dated at most 120 s ahead, with a future date taken as now |
| RunStream.ReorderedAccepted | internal/trustengine/service.go:41-185 | reordering the chunks after the header keeps a stream accepted |
| RunStream.ReorderedSameTable | internal/trustengine/service.go:41-219 | and returns the same rows |
| WalLog.TwoPassIsOnePass | internal/edgeverifier/wal.go:433-561 | for every log the writer can produce, the two-pass load (watermarks, then filter) equals the one-pass replay that appends on `dec` and drops a prefix on `ack`; the result is a consecutive block ending below the next number |
| WalLog.ScanWatermarks | internal/edgeverifier/wal.go:515-561 | the first pass fails exactly when an unparsable line is not the last one, and otherwise returns the highest ack and the next number |
| WalLog.LoadStream | internal/edgeverifier/wal.go:433-513 | both passes together: corruption and schema errors in the order the code reports them, else the decisions above the watermark |
| WalTorn.LoadsIff | internal/edgeverifier/wal.go:433-561 | a file loads exactly when every line but the last parses and every header says schema version 2 or none |
| Wal.AppendKeeps | internal/edgeverifier/wal.go:197-257 | every append, successful or refused, keeps consecutive numbers, the exact byte count within capacity, and a file that replays to memory |
| Wal.AckKeeps | internal/edgeverifier/wal.go:277-303 | acknowledging an issued number keeps the same |
| Wal.PruneKeeps | internal/edgeverifier/wal.go:366-389 | pruning keeps the same and uses up no number |
| Wal.LoadsBack | internal/edgeverifier/wal.go:433-513 | loading the file of a running log gives exactly its live records and next number |
| Wal.CompactPreservesLoad | internal/edgeverifier/wal.go:598-690 | the file before and the file after the compaction rename load alike, so a crash around it loses nothing |
| WalLimits.CompactsIff | internal/edgeverifier/wal.go:598-610 | the file is rewritten exactly when removed bytes reach 1 MiB and half of the live ones, and then has one line per live entry after its header |
| WalRuns.RunKeeps | internal/edgeverifier/wal.go:197-389 | the invariant holds after every sequence of append, ack, policy change and restart |
| WalRuns.RunLoadsBack | internal/edgeverifier/wal.go:197-561 | after any run from a new file, restarts included, loading the whole file gives the live records and next number; `bytes` is their exact sum, never negative and within capacity |
| WalRuns.RunTrace | internal/edgeverifier/wal.go:197-389 | every run decomposes into steps that write at most one line each |
| WalRuns.CrashRecovers | internal/edgeverifier/wal.go:433-561 | cutting the file at any line written since the last compaction, or inside one, still loads, and gives exactly the records live right after the last whole line was written |
| WalRuns.RunSurvivesCrash | internal/edgeverifier/wal.go:197-561 | the crash theorem for every run of operations and restarts, crashes in the middle of an operation included |
| WalLimits.NoDropLosesOnlyExpired | internal/edgeverifier/wal.go:197-257 | while no-drop is effective an append removes nothing but expired decisions |
| WalLimits.AppendRecords | internal/edgeverifier/wal.go:197-257 | an append refuses exactly the actions other than allow, deny and passthrough; a decision it takes stands last with fingerprint, principal, score, flag, reason and action as given, under the next number, at the given time or else now; one it does not take uses no number |
| WalLimits.AppendOutcome | internal/edgeverifier/wal.go:197-257 | too long exactly above 1 MiB; no room exactly when the line does not fit beside the unexpired entries (no-drop) or alone (drop mode); otherwise it follows the unexpired entries less the fewest oldest ones that make it fit, none in no-drop mode |
| WalLimits.PruneCompleteIff | internal/edgeverifier/wal.go:366-389 | pruning leaves no decision past the retention window if and only if the expired ones come first |
| WalLimits.OversizedEmptiesLog | internal/edgeverifier/wal.go:338-362 | in drop mode an append fails for space exactly when the record alone exceeds the capacity, and then every entry is gone |
| WalLimits.AckSafeIff | internal/edgeverifier/wal.go:277-303 | after any acknowledgement the next record survives a reload if and only if the number had been issued, or nothing was live, or live and discarded bytes together reach the compaction threshold, which rewrites the file without the ack line |
| WalTorn.LoadsAfterWritesIff | internal/edgeverifier/wal.go:403-431 | lines appended to a file that loads leave it loadable if and only if there are none, or its tail was clean, or a single line went onto an unterminated tail |
| WalTorn.LoadsAfterRunIff | internal/edgeverifier/wal.go:197-431 | after opening a log on any file that loads and any run of appends, acks and policy changes, the file loads if and only if its tail was clean, or a compaction has happened since, or nothing was written, or a single line went onto an unterminated tail |
| WalTorn.CompactionRepairs | internal/edgeverifier/wal.go:612-690 | whatever state the file was in, after a compaction it loads to exactly the live records and next number |
| WalTorn.TornAppendLost | internal/edgeverifier/wal.go:403-431 | the first line written onto an unterminated tail is lost together with the line it is glued to |
| WalReopen.ReopenShape | internal/edgeverifier/wal.go:403-431 | a restart that is not refused keeps the invariant, the next number and a suffix of the records |
| WalReopen.NoDropReopenIff | internal/edgeverifier/wal.go:403-431 | a no-drop log reopens on its own file if and only if the estimated sizes left after pruning fit; it is then the pruned log with the invariant |
| WalReopen.DropReopen | internal/edgeverifier/wal.go:403-431 | a drop-mode log always reopens, within capacity, with a suffix of its records and the same next number |
| WalLimits.EstimateDrift | internal/edgeverifier/wal.go:692-699 | the reload size of a record is below its size on append exactly when it is flagged, has a score and a fingerprint; the two differ by the type tag and the fields the line omits |
| WalLimits.NoDropRestartRefused | internal/edgeverifier/wal.go:403-431 | a no-drop log that accepted a record within capacity and refuses to restart on its own intact file |
| DecisionWal.DecisionWAL.constructor | internal/edgeverifier/wal.go:93-122 | a new log is empty, numbers from 1, and satisfies the invariant |
| DecisionWal.DecisionWAL.SetNoDrop | internal/edgeverifier/wal.go:126-138 | policy turns no-drop on or off but never clears the local override |
| DecisionWal.DecisionWAL.RemoveOldest | internal/edgeverifier/wal.go:307-323 | the oldest entry leaves memory and its size moves from live to stale; the negative clamp is not needed |
| DecisionWal.DecisionWAL.DropForCapacity | internal/edgeverifier/wal.go:338-362 | the fewest oldest entries go, with one ack for all; fails exactly when the need still does not fit |
| DecisionWal.DecisionWAL.PruneExpired | internal/edgeverifier/wal.go:366-389 | the expired prefix goes, with one ack for all |
| DecisionWal.DecisionWAL.Append | internal/edgeverifier/wal.go:197-257 | the class method is the specified append on its whole state and keeps the invariant; a failed append uses up no number (what the specified append records and answers is in AppendRecords and AppendOutcome) |
| DecisionWal.DecisionWAL.Pending | internal/edgeverifier/wal.go:260-274 | the oldest records, in order, nothing removed |
| DecisionWal.DecisionWAL.AckThrough | internal/edgeverifier/wal.go:277-303 | the class method is the specified acknowledgement on its whole state, and keeps the invariant for every issued number |
| DecisionWal.DecisionWAL.OpenAndLoad | internal/edgeverifier/wal.go:403-431 | reopening an existing file gives the specified state or the specified error |
| Ingest.Tally | control-plane/src/domains/decision/decisionIngestService.ts:217-231 | the loop counts every decision once in each of its cells and selects the sampled ones (cells and samples by value are in CellsAfterBatch and SamplesAfterBatch) |
| Ingest.CellsAfterBatch | control-plane/src/domains/decision/decisionIngestService.ts:116-158 | an accepted batch raises every cell by the number of its decisions with the action of the cell in the 60000 ms of its minute: all of them, those with its fingerprint, or those of its non-empty principal; every other cell stays |
| Ingest.StoredOnce | control-plane/src/domains/decision/decisionIngestService.ts:205-213 | a stored batch sent again is a duplicate, its id with another hash a conflict, and neither changes a table |
| Ingest.SampledIff | control-plane/src/domains/decision/decisionSample.ts:57-65 | a decision that is no deny is sampled exactly when it falls in the first rate * 10 s of its 10 s window, for every rate |
| Ingest.SampledShare | control-plane/src/domains/decision/decisionSample.ts:57-65 | at a rate of n in 10000, exactly n of the 10000 milliseconds of every window are sampled |
| Ingest.SamplesAfterBatch | control-plane/src/domains/decision/decisionIngestService.ts:160-195 | an accepted batch keeps every sample row, adds a number exactly for its denies and sampled decisions, and each added row tells such a decision field by field |
| Ingest.DecisionIngest.CheckShape | control-plane/src/domains/decision/decisionIngestService.ts:36-88 | a batch is refused exactly when it is empty, longer than 500, mislabelled in range, hash or id, or holds a decision without fingerprint, with a bad action or a number below 1 |
| Ingest.DecisionIngest.IngestBatch | control-plane/src/domains/decision/decisionIngestService.ts:197-285 | a batch is refused, answered as duplicate or conflict without change, or stored whole: every cell rises by exactly the decisions that belong to it and the samples are inserted |
| Ingest.SamplesHoldDenies | control-plane/src/domains/decision/decisionSample.ts:57-65 | samples come from the batch and hold every deny |
| Ingest.InsertedSamples | control-plane/src/domains/decision/decisionIngestService.ts:160-195 | insert-or-ignore keeps every old sample row and adds rows of inserted decisions only |
| Ingest.EdgeBatchShapeIff | internal/edgeverifier/flush.go:240-261 | a batch built by the edge passes the shape check if and only if it holds at most 500 decisions, each with a fingerprint, and both sides hash its encoding alike |
| Delivery.NextKeeps | internal/edgeverifier/flush.go:217-238 | every step (record, policy, send, arrive, lost reply, confirm, restart, and a crash that loses any lines) keeps the system invariant |
| DeliveryCrash.CrashFallsBack | internal/edgeverifier/wal.go:433-561 | after any run of the system without an earlier crash, whatever a crash leaves of the lines written since the last compaction loads to a log the system can fall back to; cut at a line end it is that log file |
| Delivery.EveryNumberAccounted | internal/edgeverifier/flush.go:217-238 | in every reachable state, crashes included, a number is issued if and only if it is pending, acked or dropped, and it is only one of them |
| Delivery.AckedAreCounted | control-plane/src/domains/decision/decisionIngestService.ts:116-158 | in every reachable state, crashes included, each aggregate cell is at least the number of acked decisions that belong to it by action, minute and dimension |
| DeliverySamples.RowsStay | control-plane/src/domains/decision/decisionIngestService.ts:160-195 | over every run a sample row once written never changes |
| DeliverySamples.AckedDenyHasRow | control-plane/src/domains/decision/decisionIngestService.ts:160-195 | in every reachable state an acked deny has a sample row, that of a decision delivered under its number |
| DeliverySamples.AckedDenySampled | control-plane/src/domains/decision/decisionIngestService.ts:160-195 | the row is its own when no crash took its number back after it was sent |
| DeliverySamples.ReusedNumberIff | control-plane/src/domains/decision/decisionIngestService.ts:160-195 | for a number that had a row at any earlier point, such as a crash that lost it: the row of a later acked deny is its own if and only if it reads the same as the row there was |
| DeliverySamples.ReusedNumberRun | control-plane/src/domains/decision/decisionIngestService.ts:160-195 | a whole run that records, sends and stores a deny, loses it in a crash, gives its number to another deny and confirms that: the row stays that of the first |
| Flush.AckExact | internal/edgeverifier/wal.go:277-303 | acknowledging an issued number removes exactly the live numbers up to it |
| Flush.FlushOnce | internal/edgeverifier/flush.go:217-238 | sends the oldest pending decisions; on success all of them have left the log even when appends ran in between, and with none in between the sent ones followed by the rest are the old log |
| Flush.FlushAll | internal/edgeverifier/flush.go:185-215 | terminates; the no-progress errors are unreachable even with appends between steps, and only a refused batch ends it early; with no appends the accepted batches followed by what is left are the pending decisions in order, so it drains when all are accepted |
| DeliveryProgress.RoundTripDelivers | internal/edgeverifier/flush.go:217-238 | from every state within the system invariant with nothing in flight, sending, arriving and confirming acknowledges exactly the oldest live decisions up to the batch limit, if the control plane can take their batch |
| ScoreWriter.ScoreWriter.AppendEvent | control-plane/src/domains/sync/syncRepository.ts:18-32 | the next version is one past the largest, so versions stay 1..n without gaps |
| ScoreWriter.ScoreWriter.UpsertChanged | control-plane/src/domains/graph/scoreWriter.ts:92-112 | with distinct ids the stored table becomes the old one overlaid with the engine rows, one event per row that differs |
| ScoreWriter.ScoreWriter.DeleteMissing | control-plane/src/domains/graph/scoreWriter.ts:114-126 | exactly the stored ids absent from the engine rows go, one event each |
| ScoreWriter.ScoreWriter.ApplyScoreTable | control-plane/src/domains/graph/scoreWriter.ts:79-130 | afterwards the stored table holds exactly the engine rows, each under its own id, and is the replay of the whole log; the old log is a prefix of the new, and the events are as many as the rows that differ |
| ScoreWriter.ScoreWriter.ClearAllScores | control-plane/src/domains/graph/scoreWriter.ts:133-136 | every score is deleted with one event each |
| ScoreLog.ReplayAcross | control-plane/src/domains/sync/syncRepository.ts:46-68 | a stretch of the log without score events leaves the replayed table alone |
| EdgeStore.Store.ApplyEvent | internal/edgeverifier/apply.go:25-44 | an event above the high water is applied to a copy and published with its version, one at or below it is ignored, and an invalid one changes nothing |
| EdgeStore.AppliedMeaning | internal/edgeverifier/apply.go:25-106 | case by case: which events are refused, that one at or below the high water changes nothing, and that any other moves the mark to its version and stores its own row, removes its own id or leaves the scores alone, touching no other id |
| EdgeStore.Store.AdvanceHighWater | internal/edgeverifier/snapshot.go:118-131 | the mark reaches every positive cursor offered and never falls, and the scores stay as they were |
| EdgeStore.SaveScores | internal/edgeverifier/disk.go:40-103 | the saved rows list the table, whatever order the map is read in |
| EdgeStore.LoadScores | internal/edgeverifier/disk.go:105-176 | loading fails exactly on an empty or repeated id, and otherwise returns the table the rows list |
| EdgeStore.SaveLoadRoundTrip | internal/edgeverifier/disk.go:40-176 | rows list only one table, so loading returns the one saved |
| EdgeStore.Store.ForPersist | internal/edgeverifier/snapshot.go:134-141 | what is saved is the live scores under the live mark, not the mark the scores were stored with |
| EdgeStore.SaveAndReload | internal/edgeverifier/disk.go:40-176 | saving a store and loading the file into a new one gives the same high water and the same scores |
| SseSession.Sender.SendBatch | control-plane/src/domains/sync/sseSession.ts:157-187 | events go out in order up to the first oversized one, which aborts; the cursor follows only a whole batch and only when it is news |
| SseSession.EmitMeaning | control-plane/src/domains/sync/sseSession.ts:157-187 | with no event too large a batch adds all events and then the cursor if it is news; with one too large it adds the events before the first such and ends the session |
| Replication.VersionsIff | control-plane/src/domains/sync/syncRepository.ts:81-123 | a read above a version sees a score event always, another event when it is global, the edge has no tenant, or it is of that tenant |
| Replication.BatchMeaning | control-plane/src/domains/sync/syncRepository.ts:81-123 | a read returns at most the limit, versions rising, each with the event logged under it, and leaves out a visible version only when smaller ones filled the limit |
| Replication.VersionsCovered | control-plane/src/domains/sync/syncRepository.ts:81-123 | all visible events up to the high water, framed in order, skip no score event |
| Replication.CursorHonestIff | control-plane/src/domains/sync/sseSession.ts:203-252 | a batch followed by its cursor skips no score event if and only if the row limit cut off none |
| Replication.CutIffNoScore | control-plane/src/domains/sync/syncRepository.ts:81-123 | which is the case exactly when no score event lies past the last one sent |
| Replication.NextKeeps | internal/edgeverifier/sse.go:183-232 | every step (commit, connect, poll, deliver, disconnect, snapshot recovery, save, restart) keeps the invariant, and all but a restart keep or raise the high water |
| Replication.EdgeAgrees | internal/edgeverifier/apply.go:25-44 | in every reachable state the score map of the edge is the replay of the log up to its high water; at the end of the log it is the stored table |
| Replication.HighWaterRises | internal/edgeverifier/snapshot.go:71-131 | the high water never falls between restarts, although a snapshot stores it unconditionally |
| ReplicationRecovery.RestartRestores | internal/edgeverifier/sse.go:116-140 | in every run, a restart gives the edge the high water and the scores it had right after the last save, whether its own or the one after a recovery |
| ReplicationRecovery.RestartUnsaved | internal/edgeverifier/sse.go:116-140 | and none at version 0 if nothing was ever saved |
| ReplicationRecovery.EdgeCanBeSaved | internal/edgeverifier/disk.go:105-176 | in every reachable state the scores are keyed by id and no id is empty, so the file of the edge loads |
| ReplicationRecovery.ConnectCatchesUp | control-plane/src/domains/sync/sseSession.ts:203-252 | an edge whose backlog is within the limit reaches the end of the log, with the stored table, by connecting and receiving, when no event is too large or unusable |
| ReplicationRecovery.PollCatchesUp | control-plane/src/domains/sync/sseSession.ts:203-252 | a connected edge does so with its next poll, unless the limit cuts off a score event |
| ReplicationRecovery.SnapshotCatchesUp | internal/edgeverifier/sse.go:222-232 | from every state within the system invariant, snapshot recovery brings the edge to the end of the log with the stored table, and saves just that |
| Replication.PollAgreesIff | control-plane/src/domains/sync/sseSession.ts:203-252 | after one poll the edge agrees with the log if and only if the events the limit cut off replay to nothing |
| Replication.CutPollDiverges | control-plane/src/domains/sync/sseSession.ts:203-252 | a limit of one and two upserts between polls leave the edge without the second for good |
| SseQueue.RunKeeps | control-plane/src/domains/sync/sseWriteQueue.ts:36-229 | in every interleaving of enqueue, pump, drain and close: until close the accepted frames are the written followed by the queued, counters are exact and within both caps, at most one frame is in flight and only while waiting for drain |
| SseQueue.WrittenCursorRises | control-plane/src/domains/sync/sseWriteQueue.ts:179-229 | the written cursor never falls |
| SseQueue.WrittenCursorSafe | control-plane/src/domains/sync/sseWriteQueue.ts:179-229 | when cursors are enqueued in order, the written cursor never passes a frame still queued |
| SseQueue.WrittenCursorIsMax | control-plane/src/domains/sync/sseWriteQueue.ts:179-229 | in every reachable state the written cursor is the largest among the written frames |
| SseQueue.PumpWrites | control-plane/src/domains/sync/sseWriteQueue.ts:179-229 | frames go out in order while the socket has room; the one it buffers counts as written and stops the pump, the one it fails on is dropped and closes the queue |
| SseQueue.DrainResumes | control-plane/src/domains/sync/sseWriteQueue.ts:36-50 | in every reachable open queue a drain and a pump on a socket with room write every frame ever accepted, in order, and the control frame |
| SseQueue.ClosedForGood | control-plane/src/domains/sync/sseWriteQueue.ts:142-148 | after a close nothing more is taken in or written, whatever is done to the queue |
| SseQueue.HeldWithinCapAndControl | control-plane/src/domains/sync/sseWriteQueue.ts:74-98 | in every reachable state the bytes held exceed the cap at most by the one control frame in flight |
| SseQueue.ControlWithinCapIff | control-plane/src/domains/sync/sseWriteQueue.ts:179-204 | when the socket buffers a control frame, the bytes held stay within the cap if and only if the frame fitted beside the data queued then |
| SseQueue.ControlExceedsCap | control-plane/src/domains/sync/sseWriteQueue.ts:93-98 | a short control frame behind an accepted data frame that nearly fills the cap takes the bytes held past it |
| SseQueue.SseWriteQueue.EnqueueData | control-plane/src/domains/sync/sseWriteQueue.ts:74-91 | keeps the bounded-FIFO invariant; an accepted frame is the newest of those taken in, a refused one changes nothing, and each refusal is given exactly when it applies: closed, too large, or no room in frames or bytes |
| SseQueue.SseWriteQueue.RunPump | control-plane/src/domains/sync/sseWriteQueue.ts:179-229 | keeps the bounded-FIFO invariant, is the specified pump on the whole state, and leaves nothing writable behind |
| SseWire.SseFrame.DispatchLine | internal/edgeverifier/sse.go:343-375 | one line changes the accumulated frame as specified, byte limit and unknown fields included |
| SseWire.SseFrame.FlushFrame | internal/edgeverifier/sse.go:307-341 | a frame is handed on exactly when it has a name, and the accumulator is cleared |
| SseWire.IdRoundTrip | internal/edgeverifier/sse.go:450-456 | every 63-bit version survives printing and parsing |
| SseWire.StreamRoundTrip | control-plane/src/domains/sync/sseWriteQueue.ts:232-246 | reading any printed sequence of well-formed events, comments and retry lines hands on exactly the events, in order, with the same name, id and data, up to a shutdown |
| SseWire.OverlongLineEnds | internal/edgeverifier/sse.go:377-401 | a line above 256 KiB ends the session and hands on nothing more |
| SseWire.DataLineIff | internal/edgeverifier/sse.go:343-375 | a further data line is kept exactly while the data of its event stay within 1 MiB |
| SseWire.TwoDataLines | internal/edgeverifier/sse.go:307-375 | two data lines are handed on as one text, joined by a newline |
| SseCut.CutFrame | internal/edgeverifier/sse.go:234-270 | for every cut of every printed event: what the reader hands on at the end of input |
| SseCut.CutEventIff | internal/edgeverifier/sse.go:254-263 | nothing if and only if the cut is before the first character of the name, the event itself if and only if only line ends are missing, and otherwise a wrong event |
| SseCut.TruncatedNameHandedOn | internal/edgeverifier/sse.go:254-263 | every cut inside the name hands on a shorter, non-empty name under the id of the event, without data |
| SseCut.StreamCutIff | internal/edgeverifier/sse.go:234-270 | a printed stream cut anywhere hands on a prefix of its events and nothing else if and only if the cut is not between the first character of a name and the end of that event, with no shutdown before |
| Replication.MistakenEventIff | internal/edgeverifier/apply.go:25-68 | the next score event received under an unknown type moves the high water past it, and the edge still agrees with the log if and only if the event changes nothing |
| SseCutEdge.CutNameFrame | internal/edgeverifier/sse.go:254-341 | a frame cut inside its name leaves the edge in agreement unless it is a score event that changes the scores |
| SseCutEdge.CutDataEvent | internal/edgeverifier/sse.go:254-341 | a score event cut after its name and before its payload is whole is refused and changes nothing |
| SseCutEdge.StreamCutAgreesIff | internal/edgeverifier/sse.go:234-341 | an edge in agreement that reads an honest stream of score events, cursors and pings cut anywhere still agrees with the log if and only if the cut is not inside the name of a score event that changes the scores |
| Canonical.CompareKeys | control-plane/src/domains/attestation/canonicalize.ts:25-35 | the comparator is negative exactly when a is a proper prefix of b or has the smaller unit at the first position where they differ, positive exactly in the mirrored case, and zero exactly on equal strings |
| Canonical.CheckSurrogates | control-plane/src/domains/attestation/canonicalize.ts:44-55 | the index loop accepts exactly the strings where every high surrogate is directly followed by a low one and every low one directly preceded by a high one |
| Canonical.ObjectKeysRise | control-plane/src/domains/attestation/canonicalize.ts:20-40 | an object prints exactly its defined properties, each under its own key, with every key before the next: a proper prefix of it, or smaller at the first unit where they differ |
| Canonical.EscapeShortest | control-plane/src/domains/attestation/canonicalize.ts:56-56 | of the literals for a unit that the reader knows (the unit itself, the seven short escapes, lower-case \u00xx) none is shorter than the printed one, and no other is as short |
| Canonical.ObjectExample | control-plane/src/domains/attestation/canonicalize.ts:12-57 | {"a":"\"","b":[true,null]} unit by unit, from properties inserted b, c (undefined), a |
| Canonical.PrintsIff | control-plane/src/domains/attestation/canonicalize.ts:12-57 | printing throws exactly on a lone surrogate, at any depth, in a string or in the key of a defined property |
| Canonical.ReadEscaped | control-plane/src/domains/attestation/canonicalize.ts:56-56 | a reader for string literals undoes the escapes of every string |
| Canonical.ReadsPrinted | control-plane/src/domains/attestation/canonicalize.ts:12-57 | a reader for canonical text gives back exactly the JSON value printed, wherever the text stands |
| Canonical.SortUnique | control-plane/src/domains/attestation/canonicalize.ts:23-35 | two listings of the same properties sort to the same sequence |
| Canonical.SameMeaningSamePrint | control-plane/src/domains/attestation/canonicalize.ts:12-57 | values that denote the same JSON value print the same text, whatever the insertion order at any depth |
| Canonical.SameTextIff | control-plane/src/domains/attestation/canonicalize.ts:12-57 | two values that print have equal texts if and only if they denote the same JSON value |

## Left out

- VeriRankBlacklist.FlaggedMeansZero: over a whole run the condition is sufficient, not necessary; the exact condition is per hop, in ZeroAfterHopIff.
- Replication.EdgeAgrees: a poll step is taken only when its row limit cuts off no score event; CursorHonestIff and PollAgreesIff say exactly what happens otherwise.
- Replication.NextKeeps: frames arrive whole; what a partial frame at the end of a stream does is in SseCut and SseCutEdge.
- Delivery.AckedAreCounted: at least once, not exactly once, since a retry after a lost reply may carry a larger overlapping batch that is counted again; and both sides are taken to hash a batch alike.
- Delivery.NextKeeps: a crash step restarts on a file cut at a line end; what a torn last line does to the records written after it is in WalTorn only.
- WalRuns.CrashRecovers: one crash and one recovery; writing on after a torn tail is described by LoadsAfterRunIff and TornAppendLost.
- WalTorn.LoadsAfterWritesIff: a torn fragment glued to a line is taken to stay within the scanner's 1 MiB; a longer one fails the load with an error of its own.
- WalTorn.LoadsAfterRunIff: the same limit on the glued line.
- WalTorn.TornAppendLost: the same limit on the glued line.
- DeliveryCrash.CrashFallsBack: runs without an earlier crash, since the crash theorem starts from a new file.
- ReplicationRecovery.ConnectCatchesUp: the steps are shown to be possible and where they lead; that the network ever lets them happen is not modelled.
- ReplicationRecovery.PollCatchesUp: the same.
- DeliveryProgress.RoundTripDelivers: the same.
- SseWire.StreamRoundTrip: single-line trimmed payloads within the byte limits, as the server sends them.
- SseCut.CutFrame: cuts fall between characters; a socket can also break inside a multi-byte one, of which the reader then sees some bytes.
- SseCut.StreamCutIff: the same.
- ScoreWriter.ScoreWriter.ApplyScoreTable: with repeated ids only the event count and the log invariant are stated; engine rows have strictly increasing ids.
- Ingest.DecisionIngest.CheckShape: the syntax of ids, digests, integers and times, which are typed values here.
- Flush.FlushAll: cancellation of the context.
- Canonical.Print: functions, symbols and big integers, which print as the string of the value, and numbers are given by their ECMAScript text rather than by their bits.
- Floating-point rounding and the exponential: scores are reals and decay is a parameter; the final rounding half away from zero is modelled.
- The legacy engine entry points, which build default-weight inputs for the same propagation.
- Signatures, SHA-256, base64 and JSON byte encoding: payloads are parsed records and a digest is a parameter.
- Failing writes and syncs of the log file, and the log without a file.
- Policy and key replication, and policy validation on the edge.
- The score history table and the timestamps of score rows.
- The recompute scheduler and the de-emphasis report.
- Waiting for queue space, slow-client timers, heartbeats, retry and backoff values, the idle watchdog, cursor persistence on the server.
- HTTP proxying, gRPC plumbing, routes, authentication, billing, SQL text, migrations, metrics, logging and the dashboard.
