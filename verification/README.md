# Verified models of the webfang pipeline

A Dafny model of the parts of webfang whose correctness is hard to see from the
code: the exactly-once export protocol, the append-only result log and its
shutdown, the relevance filter and its vector arithmetic, the two chunkers, the
inference worker pool and the environment guard of the test utilities.

Protocols are step machines with a total `Step`: an event that is not enabled
changes nothing, so a theorem about every list of events is a theorem about every
run, interleaving and crash point. Code that updates state in place is a class or a
loop proved equal to a specification function, and the properties are proved of that
function.

| file | models |
|---|---|
| `PageRecords.dfy`, `CommitProtocol.dfy` | page records, the resume gate, and the export protocol as micro steps over a durable file, a durable store and a volatile session |
| `ExactlyOnce.dfy`, `ExportRun.dfy`, `RecordMerge.dfy`, `Bookkeeping.dfy` | what whole runs guarantee: lines, records and what they say, cancellation, concurrent writers |
| `CommitSession.dfy`, `ChunkBatch.dfy` | the mutable session and the two export loops, proved to follow the step machine |
| `LogFrames.dfy`, `ResultLog.dfy`, `ShutdownProtocol.dfy` | log bytes, index, recovery, and the interleaving of saves, shutdown calls and the writer |
| `VectorOps.dfy`, `MeanPooling.dfy`, `PoolingLaws.dfy`, `RelevanceFilter.dfy`, `CentroidLaws.dfy`, `WarningThreshold.dfy` | cosine similarity, pooling, normalisation and the z-score filter over exact reals |
| `SentencePacking.dfy`, `HtmlChunker.dfy`, `MarkdownSections.dfy`, `CalloutBlocks.dfy`, `MarkdownChunker.dfy`, `MarkdownRuns.dfy` | greedy sentence packing and both chunkers |
| `InferencePool.dfy`, `PoolAnswers.dfy` | the worker pool as an interleaving protocol, and what its callers are answered |
| `EnvGuard.dfy`, `Text.dfy` | the undo log of the environment guard; strings as the source measures and trims them |

Clocks, exporter and save outcomes, cancellation, panics and torn writes are
parameters of events. Square root, the JSON codec and the sentence splitter are
function parameters with the laws they need (`LawfulSqrt`, `Lawful`, `LawfulSplit`);
the last one is the boundary rule of section 5 of Unicode Standard Annex #29.

Where code and documentation or expectation disagree, the model follows the code and
the exact condition is proved:

- A failure whose line is already on disk makes the next resumed run repeat it. A line
  is repeated exactly under the condition of `ExactlyOnce.RepeatsExactlyWhen`.
- `fail_item` on a COMMITTED record leaves a state that the next load drops
  (`ExactlyOnce.FailureKeepsStatus`); an EXPORTED record to which an error clings is
  never promoted (`ExactlyOnce.PromotionCommitsExactlyWhen`).
- A page whose content is already on disk under another url ends COMMITTED without a
  line of its own (`ExportRun.OwnLineExactlyWhen`).
- The chunk export commits chunks that failed validation, and a second chunk promoted
  on the same EXPORTED record can claim a hash that is not on disk
  (`ChunkBatch.BatchHonestExactlyWhen`).
- Merging by timestamp can lower a status when two sessions share a store
  (`RecordMerge.StatusDropsExactlyWhen`). A key can also be lost or go back in time:
  a fresh run that fails on a COMMITTED page leaves an impossible state, and the next
  merge of a session without that page drops it (`RecordMerge.NothingLostExactlyWhen`,
  `RecordMerge.FailureLosesCommittedPage`); for the same reason the order of merges can
  matter even without ties (`RecordMerge.OrderDoesNotMatterExactlyWhen`).
- Two overlapping shutdown calls can lose an acknowledged save; a call that began
  before any shutdown request cannot (`ShutdownProtocol.SafeExactlyWhenFirst`).
- A frame cut by a crash anywhere but at its ends, a missing newline included, hides
  what is saved after a restart from the next rescan
  (`LogFrames.SeenAfterCutExactlyWhen`, `ResultLogs.SavesSurviveRestartExactlyWhen`), not
  from the live index (`ResultLogs.LookupSurvivesTornFrames`).
- The filter can drop every chunk once the threshold exceeds 2/3
  (`RelevanceFilter.SurvivorExactlyWhen`), and more than half of them once the squared
  z-limit is below 2 (`WarningThreshold.NeverWarnsExactlyWhen`).
- The HTML merge pass can build one byte more than the maximum
  (`HtmlChunker.MergeExceedsExactlyWhen`); the split pass repairs it.
- A `>` followed by a multi-byte character breaks the string slice at
  `markdown_chunker.rs` line 206, and with it the chunking of the whole body
  (`CalloutBlocks.ExtractSucceedsExactlyWhen`).
- The Markdown chunker drops blocks below the minimum
  (`MarkdownChunker.NothingDroppedExactlyWhen`).
- The environment guard reads a value that is not Unicode as absent, so it removes such
  a variable instead of restoring it (`EnvGuards.RestoredExactlyWhen`).

## Model

| member | source | states |
|---|---|---|
| `CommitProtocol.TakeKeepsInv` | crates/webfang_core/src/application/export_factory.rs:140-185 | claiming and deciding keeps the joint invariant of records, index, claims and flushed lines |
| `CommitProtocol.ExportKeepsInv` | crates/webfang_core/src/application/export_factory.rs:715-746 | appending, and failing with or without the line on disk, keeps the joint invariant |
| `CommitProtocol.FlushedKeepsInv` | crates/webfang_core/src/application/export_factory.rs:320-397 | staging EXPORTED after a flush keeps the joint invariant |
| `CommitProtocol.PromotingKeepsInv` | crates/webfang_core/src/application/export_factory.rs:187-280 | promotion without a new line keeps the joint invariant |
| `CommitProtocol.FailingKeepsInv` | crates/webfang_core/src/application/export_factory.rs:285-318 | recording a failure keeps the joint invariant |
| `CommitProtocol.CheckpointedKeepsInv` | crates/webfang_core/src/domain/record_transition.rs:131-155 | passing or refusing the commit point keeps the joint invariant |
| `CommitProtocol.StepKeepsInv` | crates/webfang_core/src/application/export_factory.rs:119-398 | every micro step keeps it, failed loads and saves, crashes and fresh runs included |
| `CommitProtocol.RunKeepsInv` | crates/webfang_core/src/application/export_factory.rs:119-398 | so does every run |
| `ExactlyOnce.GateSoundness` | crates/webfang_core/src/application/export_factory.rs:145-185 | the resume gate lets a recorded page through to the exporter exactly when its record is below EXPORTED, an unrecorded one exactly when its content is not on disk |
| `ExactlyOnce.AtMostOneLine` | crates/webfang_core/src/application/export_factory.rs:670-746 | over any sequence of runs without item failures, fresh ones on an empty file and resumed ones after that, cut anywhere by crashes, with any loads and saves failing and content changing, no (url, content hash) line occurs twice |
| `ExactlyOnce.RecordsNeverOverclaim` | crates/webfang_core/src/application/export_factory.rs:145-398 | at every step of every run, EXPORTED and COMMITTED records, durable or in memory, carry a hash in the file and lower records carry none |
| `ExactlyOnce.RepeatsExactlyWhen` | crates/webfang_core/src/application/export_factory.rs:148-185 | from any reachable state one item repeats a line if and only if the line is on disk, the pair is unclaimed, and the run is fresh or the record is below EXPORTED |
| `ExactlyOnce.FailureDefeatsFlushProof` | crates/webfang_core/src/application/export_factory.rs:155-183 | for every page, a failure that left its line on disk followed by a resumed run repeats the line |
| `ExactlyOnce.CommitPointAccepts` | crates/webfang_core/src/domain/record_transition.rs:131-141 | an honest EXPORTED record commits exactly when it carries no error, and only its status changes |
| `ExactlyOnce.FailureKeepsStatus` | crates/webfang_core/src/application/export_factory.rs:285-318 | a failed item keeps status and hash; the result is an impossible state exactly when it was COMMITTED |
| `ExactlyOnce.PromotionCommitsExactlyWhen` | crates/webfang_core/src/application/export_factory.rs:187-243 | promotion appends nothing and reaches COMMITTED exactly when the known record carries no error |
| `RecordMerge.KeyKeptExactlyWhen` | crates/webfang_core/src/application/export_factory.rs:412-425 | a key survives a merge exactly when the session holds it or its stored record is a possible state, and its timestamp never goes back |
| `RecordMerge.NothingLostExactlyWhen` | crates/webfang_core/src/application/export_factory.rs:412-425 | through any interleaving a key stays and its timestamp never goes back if and only if every call that meets an impossible state offers a record no older |
| `RecordMerge.FailureLosesCommittedPage` | crates/webfang_core/src/application/export_factory.rs:285-318 | a failure on a COMMITTED page, merged, is dropped by the next merge without the page, exactly unless the stored record is valid and newer |
| `RecordMerge.LatestOfferWins` | crates/webfang_core/src/application/export_factory.rs:412-425 | for any interleaving of merges of any records: a key ends with the latest record offered since a call last met an impossible state in its slot, and is gone exactly when nothing was offered since |
| `RecordMerge.OrderDoesNotMatterExactlyWhen` | crates/webfang_core/src/application/export_factory.rs:412-425 | without ties, every order of the merges gives the same store if and only if the latest record offered for a key is a possible state or is offered by every merge |
| `RecordMerge.SingleWriterOverwrites` | crates/webfang_core/src/application/export_factory.rs:412-446 | one writer with a clock that never steps back simply overwrites the store |
| `RecordMerge.StatusDropsExactlyWhen` | crates/webfang_core/src/application/export_factory.rs:417-420 | a merge lowers a status exactly when a record of lower status and no earlier timestamp arrives |
| `RecordMerge.ConcurrentFailureUndoesCommit` | crates/webfang_core/src/application/export_factory.rs:412-425 | a later failure of another session takes a page from COMMITTED back to DISCOVERED |
| `ExportRun.ItemResult` | crates/webfang_core/src/application/export_factory.rs:670-746 | one item end to end: the file grows by at most its own line, only its slot changes, to the record of the path taken |
| `ExportRun.SlotResult` | crates/webfang_core/src/application/export_factory.rs:285-398 | an exported item ends COMMITTED, a COMMITTED slot stays so, a failed item keeps its status |
| `ExportRun.StepKeepsBehind` | crates/webfang_core/src/application/export_factory.rs:412-461 | the store never overtakes the session's map while the clock does not step back |
| `ExportRun.ItemsResult` | crates/webfang_core/src/application/export_factory.rs:785-807 | over any items: new lines belong to them and are COMMITTED unless the export failed after the write, no COMMITTED slot is lost, other statuses are kept, other slots are untouched |
| `ExportRun.CancelledRun` | crates/webfang_core/src/application/export_factory.rs:756-815 | a run cut after any item: the store equals the session's map, every new line is one of the items before the cut and COMMITTED on disk unless its export failed after the write, other statuses and other keys are as loaded |
| `ExportRun.FailedPageKeepsStatus` | crates/webfang_core/src/application/export_factory.rs:285-318 | a page all of whose items fail keeps its status through the whole run |
| `CommitSessions.CutExactlyWhen` | crates/webfang_core/src/application/export_factory.rs:785-807 | the run stops right after the first item that observes cancellation, and at the end if none does |
| `CommitSessions.StopsAtCancellation` | crates/webfang_core/src/application/export_factory.rs:756-815 | a run stopped by the token: no item after the first one to observe it adds a line or touches a record, and everything before is durable as above |
| `CommitSessions.OutcomeExactlyWhen` | crates/webfang_core/src/application/export_factory.rs:670-746 | the outcome by the path taken is the outcome told by the worlds around the turn |
| `CommitSessions.FailedIsNotReported` | crates/webfang_core/src/application/export_factory.rs:723-744 | a page that fails in its turn is never reported |
| `CommitSessions.ReportedIsFlushed` | crates/webfang_core/src/application/export_factory.rs:785-815 | over any items, what is reported is exactly what was flushed |
| `Bookkeeping.RecordsAreFiled` | crates/webfang_core/src/application/export_factory.rs:285-398 | in every run every record, durable or in memory, is filed under its own canonical url |
| `Bookkeeping.ExportedTurn` | crates/webfang_core/src/application/export_factory.rs:320-397 | the record of an exported page: this run, this digest, no error, one attempt more than before, or the first after a finished lifecycle |
| `Bookkeeping.PromotedTurn` | crates/webfang_core/src/application/export_factory.rs:187-280 | a promoted page that is known only moves on to COMMITTED, and not even that while an error clings to it; an unknown one gets the record of a first export, without a line |
| `Bookkeeping.FailedTurn` | crates/webfang_core/src/application/export_factory.rs:285-318 | a failed turn changes only attempts, error and time; write errors are fatal and bad page data recoverable |
| `ExportRun.OwnLineExactlyWhen` | crates/webfang_core/src/application/export_factory.rs:174-183 | a new item always ends COMMITTED, with a line of its own exactly when its content was not on disk at open or that line was |
| `CommitSessions.CommitSession.Open` | crates/webfang_core/src/application/export_factory.rs:119-128 | the session is the machine's open step; the index holds exactly the hashes of the file |
| `CommitSessions.CommitSession.ClaimAppend` | crates/webfang_core/src/application/export_factory.rs:140-143 | the pair is claimed; true exactly the first time |
| `CommitSessions.CommitSession.MergePersist` | crates/webfang_core/src/application/export_factory.rs:412-425 | the slot-by-slot loop computes the merge specified above; a failed save writes nothing |
| `CommitSessions.CommitSession.CommitItem` | crates/webfang_core/src/application/export_factory.rs:320-397 | follows the machine: stage, save, commit point, save |
| `CommitSessions.CommitSession.PromoteFromFlushProof` | crates/webfang_core/src/application/export_factory.rs:187-216 | follows the machine without appending |
| `CommitSessions.CommitSession.FailItem` | crates/webfang_core/src/application/export_factory.rs:285-318 | follows the machine: record the failure, save |
| `CommitSessions.CommitSession.ProcessSingleItem` | crates/webfang_core/src/application/export_factory.rs:670-746 | the world moves by the item's micro steps; the item counts as driven if and only if its token is not cancelled and its turn left a new page flushed, by an append that succeeded or by promotion, without recording an error; it stops the run if and only if its token is cancelled and it was neither skipped nor turned down by validation |
| `CommitSessions.CommitSession.ProcessResults` | crates/webfang_core/src/application/export_factory.rs:756-815 | exactly the items up to the first one that observes cancellation are touched; the world is that of this prefix, and the reported urls are exactly those flushed in their turn under a token not cancelled |
| `ChunkBatch.BatchRepeatsExactlyWhen` | crates/webfang_core/src/application/export_factory.rs:900-922 | the batch never repeats a line of its own, and repeats one of the file if and only if a valid chunk has its line on disk and the run is fresh or its record is below EXPORTED |
| `ChunkBatch.ChunkHonestExactlyWhen` | crates/webfang_core/src/application/export_factory.rs:924-943 | from honest records, one more chunk leaves honest records exactly when its record is backed by a line on disk |
| `ChunkBatch.BatchHonestExactlyWhen` | crates/webfang_core/src/application/export_factory.rs:870-943 | records stay honest after every chunk if and only if each chunk is skipped, has its content on disk, or is the first to use an EXPORTED record |
| `ChunkBatch.ValidBatchIsHonest` | crates/webfang_core/src/application/export_factory.rs:905-943 | on a fresh store, chunks that all validate keep every record honest |
| `ChunkBatch.InvalidChunkIsCommitted` | crates/webfang_core/src/application/export_factory.rs:912-936 | a chunk that fails validation ends COMMITTED with no line anywhere |
| `ChunkBatch.ProcessResultsWithChunks` | crates/webfang_core/src/application/export_factory.rs:849-950 | a failed batch ends the run with part of the lines and no record touched; otherwise exactly the chunks up to the first one settled under a cancelled token are gone through in order, and all urls are reported |
| `LogFrames.LittleEndianRoundTrip` | crates/webfang_core/src/application/crawl_result_repository.rs:527-536 | decoding the bytes of a length gives the length |
| `LogFrames.FrameReadableExactlyWhen` | crates/webfang_core/src/application/crawl_result_repository.rs:527-536 | a frame reads back as its payload exactly when the length fits 32 bits |
| `LogFrames.ScanFrames` | crates/webfang_core/src/application/crawl_result_repository.rs:107-151 | scanning frames followed by any cut of one more yields exactly those payloads and offsets; the cut one is seen exactly when all its payload bytes arrived |
| `LogFrames.ScanClean` | crates/webfang_core/src/application/crawl_result_repository.rs:246-278 | scanning frames yields exactly their payloads at their offsets |
| `LogFrames.SeenAfterCutExactlyWhen` | crates/webfang_core/src/application/crawl_result_repository.rs:107-151 | whatever precedes and follows, a frame written after the first n bytes of another is scanned where it was written if and only if n is zero or the whole frame |
| `ResultLogs.OffsetsStayHonest` | crates/webfang_core/src/application/crawl_result_repository.rs:428-515 | under any torn writes the offset is the end of the log and each url points at the complete frame of its last written payload |
| `ResultLogs.ResyncExactlyWhen` | crates/webfang_core/src/application/crawl_result_repository.rs:493-525 | after a failed frame the offset is right exactly when the size was reported or no byte arrived |
| `ResultLogs.WriteErrorExactlyWhen` | crates/webfang_core/src/application/crawl_result_repository.rs:493-525 | the error is flagged if and only if it was before or some frame failed |
| `ResultLogs.AppendKeepsClean` | crates/webfang_core/src/application/crawl_result_repository.rs:493-515 | a successful append keeps the live index equal to the one a rescan builds |
| `ResultLogs.SavesKeepClean` | crates/webfang_core/src/application/crawl_result_repository.rs:380-455 | so does any number of them, on a clean log |
| `ResultLogs.RefinesLatestMap` | crates/webfang_core/src/application/crawl_result_repository.rs:183-279 | lookup returns the last content of a url, load returns all contents in order, rescanning rebuilds the live index |
| `ResultLogs.RecoveryAfterCrash` | crates/webfang_core/src/application/crawl_result_repository.rs:246-278 | after a crash inside an append the load is what it was, plus that content exactly when its payload is complete |
| `ResultLogs.SavesSurviveRestartExactlyWhen` | crates/webfang_core/src/application/crawl_result_repository.rs:70-151 | contents saved after reopening the log of a crash are all found by the next rescan where they were written if and only if nothing or everything of the crashed frame had arrived |
| `ResultLogs.IndexSurvivesRestartExactlyWhen` | crates/webfang_core/src/application/crawl_result_repository.rs:70-151 | after one such save, the next rescan rebuilds the live index under exactly the same condition |
| `ResultLogs.LookupSurvivesTornFrames` | crates/webfang_core/src/application/crawl_result_repository.rs:183-210 | a url written this session is found whatever other frames are torn |
| `ResultLogs.RecoverIndex` | crates/webfang_core/src/application/crawl_result_repository.rs:107-151 | the scan loop builds the index in which later offsets win |
| `ResultLogs.IndexExactlyWhen` | crates/webfang_core/src/application/crawl_result_repository.rs:107-151 | the index has a url if and only if some payload names it, with the offset of the last such frame |
| `ResultLogs.LoadAll` | crates/webfang_core/src/application/crawl_result_repository.rs:229-279 | the load loop returns the contents in log order, or an error at the first undecodable payload |
| `ResultLogs.LoadFailsExactlyWhen` | crates/webfang_core/src/application/crawl_result_repository.rs:229-279 | a load fails if and only if some payload does not decode; otherwise every content is in its place |
| `ResultLogs.LogWriter.AppendRecord` | crates/webfang_core/src/application/crawl_result_repository.rs:493-536 | the in-place append is the append the theorems speak of |
| `ResultLogs.LogWriter.DrainAppends` | crates/webfang_core/src/application/crawl_result_repository.rs:428-455 | so is any run of them |
| `ShutdownProtocol.StepKeepsInv` | crates/webfang_core/src/application/crawl_result_repository.rs:155-181 | every step of saves, calls and writer keeps the joint invariant of queue, log, requests and calls |
| `ShutdownProtocol.ShutdownDrains` | crates/webfang_core/src/application/crawl_result_repository.rs:290-328 | when the call that took the handle reports success, the log is its content at open followed by complete frames of acknowledged saves in order, at least those acknowledged before the first request |
| `ShutdownProtocol.FirstShutdownLosesNothing` | crates/webfang_core/src/application/crawl_result_repository.rs:290-328 | if no request preceded the call, these are all saves acknowledged before it, then only racing ones |
| `ShutdownProtocol.SafeExactlyWhenFirst` | crates/webfang_core/src/application/crawl_result_repository.rs:290-328 | a successful call vouches in every interleaving for all saves acknowledged before it if and only if it began before any other request was enqueued |
| `ShutdownProtocol.NoSaveAfterShutdown` | crates/webfang_core/src/application/crawl_result_repository.rs:155-181 | after it returned, no continuation acknowledges a save or touches the log |
| `ShutdownProtocol.SaveAcknowledgedExactlyWhen` | crates/webfang_core/src/application/crawl_result_repository.rs:155-181 | a save is acknowledged and queued last if and only if no error is flagged, the receiver is there and the queue has room; otherwise nothing is queued |
| `ShutdownProtocol.OnlyPassedSavesAfterError` | crates/webfang_core/src/application/crawl_result_repository.rs:155-161 | once an error is flagged it stays, and every continuation acknowledges only saves that had passed the guard before |
| `ShutdownProtocol.FailedWriteFlagsError` | crates/webfang_core/src/application/crawl_result_repository.rs:428-455 | a write step flags the error if and only if its write or its open failed |
| `ShutdownProtocol.CallFailsOnlyAfterFault` | crates/webfang_core/src/application/crawl_result_repository.rs:290-328 | at most one call joins the writer, every other succeeds, and that one fails only after a failed write or a save to a vanished receiver |
| `ShutdownProtocol.OverlappingShutdownLosesSave` | crates/webfang_core/src/application/crawl_result_repository.rs:290-455 | an interleaving of two calls that loses an acknowledged save and reports success |
| `VectorOps.CauchySchwarz` | crates/webfang_ai/src/infrastructure_ai/embedding_ops.rs:72-128 | the squared dot product is at most the product of the squared lengths |
| `VectorOps.CosineInRange` | crates/webfang_ai/src/infrastructure_ai/embedding_ops.rs:72-128 | the cosine lies in [-1, 1] for vectors of any lengths |
| `VectorOps.BlockedDot` | crates/webfang_ai/src/infrastructure_ai/embedding_ops.rs:72-128 | eight lanes plus remainder loop equal the scalar dot product over the common prefix |
| `VectorOps.CosineSimilarity` | crates/webfang_ai/src/infrastructure_ai/embedding_ops.rs:72-138 | the loop returns the cosine, in [-1, 1], 0 for empty or zero-magnitude input |
| `VectorOps.CosineIgnoresScale` | crates/webfang_ai/src/infrastructure_ai/embedding_ops.rs:72-128 | scaling a vector by a positive factor does not change the cosine |
| `VectorOps.UnitLengthExactlyWhen` | crates/webfang_ai/src/infrastructure_ai/embedding_ops.rs:325-333 | the normalised vector has unit length, or is the input when its magnitude is below epsilon |
| `MeanPooling.MeanPool` | crates/webfang_ai/src/infrastructure_ai/embedding_ops.rs:256-301 | the loop over the flat buffer gives the mask-weighted mean of every column |
| `PoolingLaws.PooledIsMean` | crates/webfang_ai/src/infrastructure_ai/embedding_ops.rs:278-296 | the pooled value is the ordinary mean of the column with each row repeated as often as its mask entry says, zero where nothing is unmasked |
| `MeanPooling.MaskedRowsIgnored` | crates/webfang_ai/src/infrastructure_ai/embedding_ops.rs:278-288 | rows that are masked out never matter |
| `MeanPooling.PooledBetween` | crates/webfang_ai/src/infrastructure_ai/embedding_ops.rs:278-296 | each pooled value lies between any bounds on its unmasked column |
| `MeanPooling.TruncationCommutes` | crates/webfang_ai/src/infrastructure_ai/inference_engine.rs:565-577 | truncating every row before pooling gives the same values as truncating after |
| `MeanPooling.Embed` | crates/webfang_ai/src/infrastructure_ai/inference_engine.rs:565-581 | pool, truncate, normalise: the embedding is the normalised mean cut to the output dimension |
| `RelevanceFilter.Chebyshev` | crates/webfang_ai/src/infrastructure_ai/semantic_cleaner_impl.rs:571-594 | the number of z-scores above a limit times the squared limit is below the sample size |
| `RelevanceFilter.DroppedBound` | crates/webfang_ai/src/infrastructure_ai/semantic_cleaner_impl.rs:566-594 | dropped times (3(1 - t)) squared is at most the number of chunks |
| `RelevanceFilter.SurvivorBelowTwoThirds` | crates/webfang_ai/src/infrastructure_ai/semantic_cleaner_impl.rs:566-594 | at a threshold up to 2/3 a chunk always survives |
| `RelevanceFilter.SurvivorExactlyWhen` | crates/webfang_ai/src/infrastructure_ai/semantic_cleaner_impl.rs:537-594 | every list of embeddings keeps a chunk if and only if the threshold is at most 2/3 |
| `RelevanceFilter.WarningCannotFire` | crates/webfang_ai/src/infrastructure_ai/semantic_cleaner_impl.rs:603-612 | the warning about more than half discarded cannot fire while the squared limit is at least 2 |
| `RelevanceFilter.DefaultThresholdNeverWarns` | crates/webfang_ai/src/infrastructure_ai/semantic_cleaner_impl.rs:603-612 | in particular not at the default threshold 0.3 |
| `WarningThreshold.NeverWarnsExactlyWhen` | crates/webfang_ai/src/infrastructure_ai/semantic_cleaner_impl.rs:537-612 | no list of embeddings ever triggers it if and only if the squared limit is at least 2 |
| `RelevanceFilter.StricterKeepsFewer` | crates/webfang_ai/src/infrastructure_ai/semantic_cleaner_impl.rs:583-594 | the kept chunks are an ascending selection, and raising the threshold only removes from it |
| `RelevanceFilter.ComputeCentroid` | crates/webfang_ai/src/infrastructure_ai/semantic_cleaner_impl.rs:542-556 | the nested loops compute the centroid that the next rows are about |
| `CentroidLaws.CentroidIsColumnMean` | crates/webfang_ai/src/infrastructure_ai/semantic_cleaner_impl.rs:547-556 | in every dimension each coordinate is the mean of its own column |
| `CentroidLaws.DeviationsCancel` | crates/webfang_ai/src/infrastructure_ai/semantic_cleaner_impl.rs:547-556 | in each coordinate the deviations from the centroid sum to zero |
| `CentroidLaws.CentroidIsTheBalance` | crates/webfang_ai/src/infrastructure_ai/semantic_cleaner_impl.rs:547-556 | and no other value has that property |
| `CentroidLaws.EqualPageIsKept` | crates/webfang_ai/src/infrastructure_ai/semantic_cleaner_impl.rs:547-594 | copies of one vector that is not zero, in any dimension: it is their centroid, all distances are zero, none is dropped |
| `RelevanceFilter.FilterByRelevance` | crates/webfang_ai/src/infrastructure_ai/semantic_cleaner_impl.rs:510-620 | mismatch and missing embeddings are errors, exactly; otherwise the kept pairs in order and the warning exactly above one half |
| `SentencePacking.GreedyIsFewest` | crates/webfang_ai/src/infrastructure_ai/markdown_chunker.rs:242-263 | a greedy cut has the fewest groups of all cuts into fitting or single-sentence groups |
| `SentencePacking.PackIsFewest` | crates/webfang_ai/src/infrastructure_ai/chunker.rs:305-340 | packing loses and reorders no sentence, each group fits or is one sentence, and no cut has fewer groups |
| `HtmlChunker.Filter` | crates/webfang_ai/src/infrastructure_ai/chunker.rs:145-166 | the first loop keeps, in order, the trimmed paragraphs that are non-empty and reach the minimum |
| `HtmlChunker.FirstPassConcat` | crates/webfang_ai/src/infrastructure_ai/chunker.rs:145-166 | paragraphs are kept or dropped one by one, whatever surrounds them |
| `HtmlChunker.FirstPassOne` | crates/webfang_ai/src/infrastructure_ai/chunker.rs:145-166 | a paragraph is kept, trimmed, if and only if it is not blank and reaches the minimum |
| `HtmlChunker.MergeToGroups` | crates/webfang_ai/src/infrastructure_ai/chunker.rs:243-287 | every paragraph lands in one consecutive group, alone or after passing the size test |
| `HtmlChunker.MergeIsMaximal` | crates/webfang_ai/src/infrastructure_ai/chunker.rs:254-275 | the merge joins whenever it may: neighbouring groups are together too large at their border |
| `HtmlChunker.MergeSmallChunks` | crates/webfang_ai/src/infrastructure_ai/chunker.rs:243-287 | the merge loop emits those groups joined by spaces; its size checks drop nothing that passed the first filter |
| `HtmlChunker.MergeExceedsExactlyWhen` | crates/webfang_ai/src/infrastructure_ai/chunker.rs:256-275 | for every input, a merged group exceeds the maximum if and only if it is one oversized paragraph or the sizes at its last join added up to exactly the maximum; then by one byte |
| `HtmlChunker.MergeCanExceedMax` | crates/webfang_ai/src/infrastructure_ai/chunker.rs:258-261 | two paragraphs that add up to the maximum do merge, into one byte more |
| `HtmlChunker.PackSentences` | crates/webfang_ai/src/infrastructure_ai/chunker.rs:309-336 | the split loop emits the greedy cut of the sentences |
| `HtmlChunker.SplitLargeChunks` | crates/webfang_ai/src/infrastructure_ai/chunker.rs:299-343 | text by text: one that fits stays as it is, a larger one becomes the fewest pieces of whole sentences that fit or are single; the text is unchanged |
| `HtmlChunker.Chunk` | crates/webfang_ai/src/infrastructure_ai/chunker.rs:142-173 | for every minimum and maximum: the merged groups hold every paragraph that passed the first filter, and the output is that of their texts one after the other, unchanged if they fit and otherwise in the fewest pieces |
| `Text.SliceExactlyWhen` | crates/webfang_ai/src/infrastructure_ai/markdown_chunker.rs:206 | slicing at a byte offset succeeds if and only if the offset is a character boundary, and drops exactly the characters before it |
| `Text.LinesAreLines` | crates/webfang_ai/src/infrastructure_ai/markdown_chunker.rs:165 | no line of a text has a line feed in it |
| `Text.LinesRejoin` | crates/webfang_ai/src/infrastructure_ai/markdown_chunker.rs:165 | without carriage returns the lines of a text give it back, up to the line feed a last line may lack |
| `CalloutBlocks.ClassifyFailsExactlyWhen` | crates/webfang_ai/src/infrastructure_ai/markdown_chunker.rs:202-206 | slicing a quote line at byte 2 fails if and only if a multi-byte character follows the leading `>` |
| `CalloutBlocks.ClassifyExactlyWhen` | crates/webfang_ai/src/infrastructure_ai/markdown_chunker.rs:202-206 | a line is plain if and only if it does not start with `>`, and a callout if and only if the sign, one one-byte character, whitespace and `[!` follow each other |
| `CalloutBlocks.ExtractSucceedsExactlyWhen` | crates/webfang_ai/src/infrastructure_ai/markdown_chunker.rs:196-239 | the extraction of a text succeeds if and only if none of its lines is of that kind, and then yields the blocks below |
| `CalloutBlocks.ExtractionIsMaximalRuns` | crates/webfang_ai/src/infrastructure_ai/markdown_chunker.rs:196-239 | the blocks concatenate to the lines in order and are the maximal runs of callout and ordinary lines |
| `CalloutBlocks.Extract` | crates/webfang_ai/src/infrastructure_ai/markdown_chunker.rs:196-239 | the loop with its two pending lists, classifying line by line, yields those blocks or fails |
| `MarkdownSections.SectionsKeepLines` | crates/webfang_ai/src/infrastructure_ai/markdown_chunker.rs:160-191 | the sections hold exactly the lines that are not headings, in order |
| `MarkdownSections.SectionsAreCuts` | crates/webfang_ai/src/infrastructure_ai/markdown_chunker.rs:160-184 | the sections are exactly the stretches between headings, each under its own heading, empty ones left out |
| `MarkdownSections.SplitByHeadings` | crates/webfang_ai/src/infrastructure_ai/markdown_chunker.rs:160-184 | the splitting loop yields those sections |
| `MarkdownChunker.PackSentences` | crates/webfang_ai/src/infrastructure_ai/markdown_chunker.rs:242-263 | the split loop emits the greedy cut of the trimmed sentences; its trims change nothing |
| `MarkdownChunker.SplitTextKeepsInk` | crates/webfang_ai/src/infrastructure_ai/markdown_chunker.rs:242-263 | splitting keeps every non-whitespace character in order |
| `MarkdownChunker.SecondPassLaw` | crates/webfang_ai/src/infrastructure_ai/markdown_chunker.rs:107-130 | the second pass loses exactly the blocks below the minimum, and every chunk fits or is a single sentence of a block |
| `MarkdownRuns.BlockChunksAreBest` | crates/webfang_ai/src/infrastructure_ai/markdown_chunker.rs:112-128 | a block that fits is one chunk if it reaches the minimum and dropped if not; a larger one becomes the fewest pieces of its sentences |
| `MarkdownChunker.NothingDroppedExactlyWhen` | crates/webfang_ai/src/infrastructure_ai/markdown_chunker.rs:117-122 | no ink is dropped if and only if every block that is not blank reaches the minimum or exceeds the maximum |
| `MarkdownChunker.BodyKeepsInk` | crates/webfang_ai/src/infrastructure_ai/markdown_chunker.rs:96-130 | the blocks of a body have exactly the ink of its lines that are not headings |
| `MarkdownChunker.ThirdPassLaw` | crates/webfang_ai/src/infrastructure_ai/markdown_chunker.rs:282-324 | merging small chunks loses no ink and every chunk still fits or is a single sentence of a block or of merged neighbours |
| `MarkdownRuns.MergeGathersRuns` | crates/webfang_ai/src/infrastructure_ai/markdown_chunker.rs:282-324 | the merge pass cuts the chunks into consecutive runs that grow exactly while they are below the minimum |
| `MarkdownRuns.EmitIsBest` | crates/webfang_ai/src/infrastructure_ai/markdown_chunker.rs:294-310 | a run is emitted as one chunk, or in the fewest pieces if joining made it too large |
| `MarkdownChunker.MergeSmallChunks` | crates/webfang_ai/src/infrastructure_ai/markdown_chunker.rs:282-324 | the merge loop computes the fold that law is about |
| `MarkdownChunker.Chunk` | crates/webfang_ai/src/infrastructure_ai/markdown_chunker.rs:96-136 | on a body: blank content is an error and an unsliceable line a panic, exactly; otherwise every chunk fits or is a single sentence of a block or of merged neighbours, and the output has exactly the ink of the blocks that reach the minimum |
| `InferencePool.StepConserves` | crates/webfang_ai/src/infrastructure_ai/inference_engine.rs:301-319 | no step creates, loses or doubles a request |
| `InferencePool.ExactlyOnePlace` | crates/webfang_ai/src/infrastructure_ai/inference_engine.rs:458-487 | in every interleaving each accepted request is in exactly one of queued, held, answered, dropped, and once |
| `PoolAnswers.AnswerExactlyWhen` | crates/webfang_ai/src/infrastructure_ai/inference_engine.rs:467-485 | an answer says the session is poisoned if and only if its worker got the session lock after the panic, and carries an embedding or an error if and only if the inference of the worker holding that request ended so |
| `PoolAnswers.NoEmbeddingAfterPanic` | crates/webfang_ai/src/infrastructure_ai/inference_engine.rs:471-483 | a request that reaches the lock after the panic is never answered with an embedding |
| `PoolAnswers.AcceptedExactlyWhen` | crates/webfang_ai/src/infrastructure_ai/inference_engine.rs:301-313 | in every run a request is accepted, last in the queue, if and only if the pool is in use, a slot is free and its only worker has not died |
| `InferencePool.MutualExclusion` | crates/webfang_ai/src/infrastructure_ai/inference_engine.rs:255-290 | the queue is bounded by the worker count and in order, both locks exclude, at most one worker ever dies of a panic |
| `InferencePool.ClosedExactlyWhen` | crates/webfang_ai/src/infrastructure_ai/inference_engine.rs:301-319 | a pool in use turns callers away exactly when its only worker died |
| `InferencePool.AtMostOneLost` | crates/webfang_ai/src/infrastructure_ai/inference_engine.rs:458-487 | nothing is lost without a panic, and at most one request with one, if there are two workers |
| `InferencePool.StepDecreases` | crates/webfang_ai/src/infrastructure_ai/inference_engine.rs:346-370 | once disconnected, every step that happens strictly decreases the work left |
| `InferencePool.SomeStepPossible` | crates/webfang_ai/src/infrastructure_ai/inference_engine.rs:346-400 | while a worker lives some step is possible: no deadlock |
| `InferencePool.EveryJoinEnds` | crates/webfang_ai/src/infrastructure_ai/inference_engine.rs:346-370 | dropping the pool takes at most five steps per queued request and worker, and ends with every thread gone and every request answered or dropped once |
| `InferencePool.CalmShutdownAnswersAll` | crates/webfang_ai/src/infrastructure_ai/inference_engine.rs:458-487 | without a panic, a joined pool has answered every accepted request exactly once |
| `InferencePool.DrainerAnswersNobody` | crates/webfang_ai/src/infrastructure_ai/inference_engine.rs:389-400 | a pool without a session answers nobody and drops every request once |
| `EnvGuards.UnwindRestores` | crates/webfang_test_utils/src/lib.rs:139-152 | for every start and every list of changes, replaying the records backwards gives the start without the touched variables that were not Unicode |
| `EnvGuards.RestoredExactlyWhen` | crates/webfang_test_utils/src/lib.rs:54-152 | replaying the records gives back the start if and only if no touched variable held a value that is not Unicode |
| `EnvGuards.GuardedValue` | crates/webfang_test_utils/src/lib.rs:108-130 | while the guard lives, every variable has the value its last change gave it |
| `EnvGuards.EnvGuard.Clean` | crates/webfang_test_utils/src/lib.rs:58-76 | the loop records and removes each variable in order, repeats included |
| `EnvGuards.EnvGuard.With` | crates/webfang_test_utils/src/lib.rs:81-99 | the loop records and sets each variable in order, repeats included |
| `EnvGuards.EnvGuard.Set` | crates/webfang_test_utils/src/lib.rs:108-116 | one record and one change |
| `EnvGuards.EnvGuard.Remove` | crates/webfang_test_utils/src/lib.rs:122-130 | one record and one removal |
| `EnvGuards.EnvGuard.Drop` | crates/webfang_test_utils/src/lib.rs:139-152 | the reverse loop restores the environment as above |
| `EnvGuards.Lifetime` | crates/webfang_test_utils/src/lib.rs:54-152 | any constructor list, then any changes, then drop: the environment is restored as above |

## Left out

- The export protocol is fixed to the Jsonl format, one output path and an exporter that appends a whole line or none; Vector and Auto formats, runs without a record store, and exporter construction errors are not modelled.
- JSON, SHA-256, URL normalisation and timestamps are parameters; a content hash is an opaque string and a canonical key is given with the item. Attempt counters do not wrap.
- `RecordStorePort` locking and file format: a store transaction is atomic and re-reads before it merges.
- ChunkBatch.BatchHonestExactlyWhen: requires non-blank identities of chunks and of loaded records, which the source's URL type guarantees.
- ExportRun.CancelledRun: assumes a clock that never steps back and one writer (as do `ExportRun.ItemsResult` and `CommitSessions.StopsAtCancellation`); other writers are the subject of `RecordMerge`.
- CommitSessions.CommitSession.ProcessResults: the persist observer, logging and the run identifier fallback are not modelled; as in the source, the item in flight when cancellation is observed is not among the reported urls.
- ResultLogs.OffsetsStayHonest: for a sink that reports its size and payloads below 2^32 bytes; `ResyncExactlyWhen` and `FrameReadableExactlyWhen` say what happens otherwise.
- A panic of the background writer thread is not modelled.
- Floating-point rounding, overflow, NaN and lane order: vectors are exact reals.
- HTML tag stripping, splitting at blank lines, frontmatter and heading metadata: the chunkers start from paragraphs and from a body without frontmatter.
- HtmlChunker.MergeSmallChunks: a private pass, stated for the output of the first filter, which is the only input it gets.
- InferencePool.EveryJoinEnds: an inference that never returns is not modelled, and thread creation always succeeds; a reply counts as answered whether or not its caller still waits.
- EnvGuards.EnvGuard.With: variable names the operating system rejects are not modelled.
- Network, browser, model loading, ONNX sessions, CLI parsing, report rendering, error tables, `url_path.rs`, `elastic_ingestion.rs`, `deduplicator.rs` and `relevance_scorer.rs`: foreign code, plumbing or easy facts.
