# ArkLine, verified

A Dafny model of the parts of the ArkLine IDE host whose correctness does not depend on foreign
code, with proofs of what they promise. `dafny verify dfyconfig.toml` checks all of it.

| component | modules |
|---|---|
| device-log store: batching, writer, segment files, metadata table, paged query, export, retention, statistics, latest-wins query worker | `Sequences`, `Utf8`, `DeviceLogLine`, `DeviceLogSegment`, `DeviceLogMetadata`, `DeviceLogQuery`, `DeviceLogFilters`, `DeviceLogPaging`, `DeviceLogPruning`, `DeviceLogStoreView`, `DeviceLogPages`, `DeviceLogExport`, `DeviceLogRuntime`, `DeviceLogWriter`, `DeviceLogClock`, `DeviceLogLive`, `DeviceLogPipeline`, `DeviceLogRetention`, `DeviceLogQueryWorker` |
| ArkTS virtual document and its offset maps | `TextPosition`, `VirtualDocument`, `VirtualDocumentMap` |
| completion edits and their rebase | `CompletionEdits`, `CompletionRebase`, `CompletionDiamond` |
| indexer host lanes, restart backoff, attempts | `IndexerHost`, `IndexerRuns`, `IndexerAttempts` |
| semantic document store | `DocumentStore`, `DocumentStoreHistory` |
| dates of fault logs | `CivilDate`, `FaultLogTimestamp` |
| request framing of the indexer sidecar | `RequestFraming` |

Code that changes state is a class or a method, proved equal to a function on values; what the code
promises is proved about those functions, over every run where it is a promise about runs. Threads
are interleaved atomic steps, clocks and deadlines are parameters, and a pattern of a regular
expression is an arbitrary predicate.

## What holds, and where it stops holding

The store is used through these main results, each building on the one before:

1. Any interleaving of producers and worker leaves the segment and the table such that the rows read
   back are exactly the stored lines, in order (`PipelineFeedsQueries`).
2. The pruned, budgeted, reverse scan of such a store answers exactly the newest part of the naive
   filter (`QueryDeviceLogBuffer`, `PruningLosesNothing`), and what the filter means is said of the
   line itself (`QueryFindsPrintedLine`). Following its cursor, while the sink goes
   on writing and stale files are cleaned up, returns what the filter finds in the first page's view
   and stays in the time range, each row once (`PagesReturnWhatTheFirstCouldSee`,
   `LivePagesArePages`); an export writes these pages, the newest first
   (`ExportOfStore`, `ExportIsTheLog`).
3. Retention leaves such a store for what survives, even when it ends midway
   (`RetentionKeepsSurvivors`, `EndedEarlyKeepsSurvivors`).

Where the code does not meet what one would expect of it, the exact condition under which it does is
proved, with an input that shows the failure:

- A level filter naming "unknown" but not every level loses rows, because the summary reads a level
  from five tokens and the query needs seven and a slash; a filter on process id, process, domain or
  tag besides it mends that: `PruningLosesNothingExactly`, `UnsafeFiltersLoseRow`.
- A wall clock that steps back between two stored batches makes paging lose a row:
  `PagingNeedsTheClock`, `BackwardClockLosesRow`.
- An export of more than one page is not in the order of the log, because the newest page is written
  first: `ExportIsTheLog`, `ExportInOrderExactly`, `TwoLinesComeOutReversed`.
- A line whose process name and colon occur earlier in it is read with too long a message:
  `HilogLineParsesBack`, `MinuteProcessLosesMessage`.
- A stored line that ends in a carriage return comes back without it: `ReadBackIsExact`.
- A completion that became empty, or non-empty, while an edit inserts something exactly where it
  starts, comes out on the other side of that insertion: `DiamondExactly`, `TieShows`.
- An oversized request line of valid UTF-8 with a character across byte 524,289 ends the sidecar's
  stream instead of costing one error: `TextStream`, `StraddlingLineEndsTheStream`.
- A file that could not be read, and can be now without a new time stamp, still counts as not
  available: `LoadIsFreshExactly`, `UnreadableStays`.
- Times outside the years 0 to 9999 are not printed as RFC 3339 date-times (sections 5.6 and 5.7):
  `FormatReadsBack`.
- Batches queued for a worker that stopped stay pending and uncounted. The worker's loop ends by
  itself only when all senders are gone and its queue is empty; before that only a panic ends it, as
  of its locks when they are poisoned. So the model lets it stop at any step:
  `EveryLineIsCountedExactly`, `EarlyStopLosesBatch`. In the same way a query sent to a query worker
  that stopped stays counted as queued: `IdleStatsExactly`, `RefusedQueryStaysQueued`.

The device-log results assume: one sink per stream id on a root without rows of that stream, because
numbering restarts at 1; receive times that do not step back, within 64 bits; no writer step or
retention inside one query, and no retention between the pages of one; appends that are all or
nothing; batches of at most 16 MiB; and lines without line feeds. The paging results hold for
requests meeting `PruneSafe`.

## Model

| member | source | states |
|---|---|---|
| DeviceLogLine.SummarizeLogLevels | src-tauri/src/services/device_log_level_summary_service.rs:8-17 | the loop collects the distinct levels of the lines in first-seen order |
| DeviceLogLine.SummaryIsTheSetOfLevels | src-tauri/src/services/device_log_level_summary_service.rs:8-17 | a level is in the summary exactly when some line has it, and it is there once |
| DeviceLogLine.CountLogSeverities | src-tauri/src/services/device_log_level_summary_service.rs:19-30 | the loop counts the lines of each of the three severities |
| DeviceLogLine.SeveritiesCountLines | src-tauri/src/services/device_log_level_summary_service.rs:19-30 | each further line counts once, for its level, if that is one of the three |
| DeviceLogLine.ParseQueryRow | src-tauri/src/services/device_log_query_parser_service.rs:3-65 | a row keeps its sequence number, receive time and raw text, whatever of the line parses |
| DeviceLogLine.HilogLineParsesBack | src-tauri/src/services/device_log_query_parser_service.rs:3-65 | a printed line parses back into its date, time, ids, level, domain, tag and process, and into its message exactly if the process name and a colon do not occur before their place |
| DeviceLogLine.MinuteProcessLosesMessage | src-tauri/src/services/device_log_query_parser_service.rs:49-53 | a process named like the minute of its line: the message starts too early |
| DeviceLogLine.ReadingsAgreeUpToUnknown | src-tauri/src/services/device_log_query_parser_service.rs:31-65 | the level a query reads from a line is the level the summary reads, or "unknown" |
| DeviceLogLine.StrippedLevel | src-tauri/src/services/device_log_level_summary_service.rs:32-46 | a trailing carriage return does not change the level the summary records, so summaries stay valid for lines read back |
| Utf8.DecodeEncode | src-tauri/src/services/device_log_segment_service.rs:65-103 | text written as UTF-8 decodes to the same text |
| Utf8.EncodeDecode | src-tauri/src/services/device_log_segment_service.rs:85-103 | only what text is written as decodes: no two byte sequences are the same text |
| DeviceLogSegment.DeviceLogSegmentWriter.Open | src-tauri/src/services/device_log_segment_service.rs:39-58 | opening continues at the end of the existing file |
| DeviceLogSegment.DeviceLogSegmentWriter.AppendLines | src-tauri/src/services/device_log_segment_service.rs:60-83 | an append adds exactly the encoded lines, and its receipt names their offset, length and count; a failed one changes nothing |
| DeviceLogSegment.LinesOfWritten | src-tauri/src/services/device_log_segment_service.rs:60-104 | splitting what was written gives the lines back, less a trailing carriage return each |
| DeviceLogSegment.ReadBack | src-tauri/src/services/device_log_segment_service.rs:85-104 | a batch reads back as it was stored whatever stands before and after it in the file |
| DeviceLogSegment.ReadBackIsExact | src-tauri/src/services/device_log_segment_service.rs:85-104 | read-back is the identity exactly for lines without a line feed and without a trailing carriage return |
| DeviceLogMetadata.InsertKeepsOrder | src-tauri/src/services/device_log_metadata_service.rs:56-80 | inserting keeps the table ordered by receive time and first sequence number, and adds just the one row |
| DeviceLogMetadata.NewestStandFirst | src-tauri/src/services/device_log_metadata_service.rs:92-126 | a table in order has the newest first, and of one time the larger first sequence number first |
| DeviceLogMetadata.FilterInsert | src-tauri/src/services/device_log_metadata_service.rs:92-126 | selecting a range commutes with inserting a row |
| DeviceLogMetadata.WithoutUnion | src-tauri/src/services/device_log_metadata_service.rs:147-163 | deleting for two sets of files is deleting for their union |
| DeviceLogMetadata.DeviceLogMetadataStore.InsertBatch | src-tauri/src/services/device_log_metadata_service.rs:56-80 | a stored row goes to its place in the order; a failed insert changes nothing |
| DeviceLogMetadata.DeviceLogMetadataStore.QueryRangePage | src-tauri/src/services/device_log_metadata_service.rs:92-126 | a page is the slice at limit and offset of the ordered selection |
| DeviceLogMetadata.DeviceLogMetadataStore.DeleteBatchesForSegmentFiles | src-tauri/src/services/device_log_metadata_service.rs:147-163 | the loop of deletions leaves exactly the rows naming none of the files, in order, and counts the others |
| DeviceLogQuery.NormalizeLimit | src-tauri/src/services/device_log_query_limit_service.rs:3-5 | a limit in range is kept, any other goes to the nearer end of the range |
| DeviceLogQuery.CountRow | src-tauri/src/services/device_log_query_service.rs:308-328 | counting one row keeps the counters equal to what was scanned, and stops for the limit before the budget and the budget before the deadline |
| DeviceLogQuery.ScanBatchLines | src-tauri/src/services/device_log_query_service.rs:288-331 | scanning one batch newest first polls before each row and counts exactly the rows in scope among those visited; it is cancelled exactly by a poll that says so, and reports what it left |
| DeviceLogQuery.VisitBatch | src-tauri/src/services/device_log_query_service.rs:130-170 | a batch is pruned, orphaned, failed or scanned exactly as its metadata and file say, and cancels exactly by a poll |
| DeviceLogQuery.QueryDeviceLogBuffer | src-tauri/src/services/device_log_query_service.rs:93-191 | the paged reverse scan answers with the newest of the candidates up to its stop; it is cancelled exactly if its last poll said so and no earlier one did; it deletes the rows of files found stale, of all it looked for once complete; and it fails only on a bad pattern or an unreadable batch |
| DeviceLogQuery.ScanPage | src-tauri/src/services/device_log_query_service.rs:130-175 | one page of batches is scanned until a batch stops it or cannot be read |
| DeviceLogQuery.CandidatesConcat | src-tauri/src/services/device_log_query_service.rs:126-178 | the rows to count over consecutive 64-row pages are those over the whole selection |
| DeviceLogQuery.ScanStopsAtFirst | src-tauri/src/services/device_log_query_service.rs:308-328 | a scan stops at the first counted row at which the limit is reached, the budget spent or the time over, in this order, and else at the end |
| DeviceLogQuery.ResponseSays | src-tauri/src/services/device_log_query_response_service.rs:27-66 | the flags and the continuation reason of a response say how its scan stopped |
| DeviceLogFilters.ContainedOccurs | src-tauri/src/services/device_log_query_matcher_service.rs:83-93 | a text is contained in a token exactly if the token is something, the text and something |
| DeviceLogFilters.LowercaseContainedOccurs | src-tauri/src/services/device_log_query_matcher_service.rs:83-93 | whatever the capitals, exactly if it stands there letter by letter, a letter and its capital being the same |
| DeviceLogFilters.TrimIs | src-tauri/src/services/device_log_query_matcher_service.rs:83-104 | trimming takes listed white space off both ends and nothing else |
| DeviceLogFilters.TrimmedReads | src-tauri/src/services/device_log_query_matcher_service.rs:95-104 | a process id filter asks for a number exactly if it is that number in digits between blanks |
| DeviceLogFilters.PrintedPasses | src-tauri/src/services/device_log_query_matcher_service.rs:58-104 | a printed line passes the filters exactly if each that is not blank stands in its own token: domain before the slash, tag after it, process, the process id as a number, and the level of its letter |
| DeviceLogFilters.MatcherExactly | src-tauri/src/services/device_log_query_matcher_service.rs:14-42 | a text query is refused exactly for a pattern that is too long or does not compile |
| DeviceLogFilters.MatcherWants | src-tauri/src/services/device_log_query_matcher_service.rs:14-81 | a row matches exactly if the text stands in its raw line, or the pattern accepts it |
| DeviceLogFilters.QueryFindsPrintedLine | src-tauri/src/services/device_log_query_service.rs:93-191 | a query of a store that holds one printed line returns it exactly if stream, time, cursor, filters and text, each said of the line itself, ask for it |
| DeviceLogPaging.SortReversed | src-tauri/src/services/device_log_query_response_service.rs:16 | sorting rows collected newest first puts them in ascending order |
| DeviceLogPaging.SortIsStable | src-tauri/src/services/device_log_query_response_service.rs:16 | sorting puts rows in ascending order and leaves those of one number in theirs |
| DeviceLogPaging.RespondedPage | src-tauri/src/services/device_log_query_response_service.rs:7-46 | a response holds the scanned rows that match, and its cursor is the last scanned sequence number unless the scan completed or was cancelled |
| DeviceLogPaging.FewMatches | src-tauri/src/services/device_log_query_service.rs:319-328 | the scan stops for the limit exactly when that many rows match |
| DeviceLogPaging.PageAdvances | src-tauri/src/services/device_log_query_response_service.rs:16-32 | a page with a cursor is the newest part of what was asked for, its cursor is strictly below the old one even with budget 0 or an expired deadline, and the next request asks for exactly the rest |
| DeviceLogPaging.PagesAreComplete | src-tauri/src/services/device_log_query_service.rs:114-191 | over rows that lose old ones and gain later ones between pages: following the cursor returns matching rows of the first view, each once and in order, and once it is absent all of them that every page could still see; every page but the last takes a row in scope |
| DeviceLogPaging.PagesDescend | src-tauri/src/services/device_log_query_service.rs:114-191 | each page ascends and lies wholly below the pages before it |
| DeviceLogPaging.InOrderExactly | src-tauri/src/services/device_log_export_service.rs:51-89 | pages one after the other, newest first, hold their rows in order exactly if at most one page holds rows |
| DeviceLogPruning.FieldsNeedWholeLine | src-tauri/src/services/device_log_query_parser_service.rs:3-65 | a row that passes a filter on process id, process, domain or tag has the level the summary has |
| DeviceLogPruning.SafeFiltersKeepLevel | src-tauri/src/services/device_log_query_pruning_service.rs:17-24 | under safe filters a row in scope has a summarised level that is requested |
| DeviceLogPruning.ExcludedExactly | src-tauri/src/services/device_log_query_pruning_service.rs:4-24 | a batch with lines is skipped exactly if none of its rows is below the cursor or no level of its summary is asked for |
| DeviceLogPruning.ExcludedHoldsNothing | src-tauri/src/services/device_log_query_pruning_service.rs:4-24 | a batch skipped by cursor or levels holds no row in scope |
| DeviceLogPruning.PruningLosesNothing | src-tauri/src/services/device_log_query_pruning_service.rs:4-24 | the pruned scan counts the rows in scope of the unpruned one |
| DeviceLogPruning.UnsafeFiltersLoseRow | src-tauri/src/services/device_log_query_pruning_service.rs:17-24 | for any other filters a store of one written batch whose only row is in scope and is not scanned |
| DeviceLogPruning.PruningLosesNothingExactly | src-tauri/src/services/device_log_query_pruning_service.rs:4-24 | pruning loses nothing from any store exactly if the level filter leaves "unknown" out or names every level, or another row filter is not blank, or the cursor leaves nothing to ask for |
| DeviceLogStoreView.RowsAscend | src-tauri/src/services/device_log_query_service.rs:126-178 | disjoint descending batches give one strictly ascending list of rows |
| DeviceLogStoreView.CleanupKeepsRows | src-tauri/src/services/device_log_query_service.rs:176-180 | deleting the rows of stale files changes no query result |
| DeviceLogStoreView.SelectionCommutes | src-tauri/src/services/device_log_metadata_service.rs:92-163 | deleting by file commutes with selecting by stream and time |
| DeviceLogPages.AnsweredIsPage | src-tauri/src/services/device_log_query_service.rs:93-191 | what a query answers over a sound store is a page in the sense of the paging lemmas |
| DeviceLogPages.CoveredAnswerIsPage | src-tauri/src/services/device_log_query_service.rs:93-191 | so it is over any batches whose summaries cover them, in whatever order |
| DeviceLogPages.PageIsAnswer | src-tauri/src/services/device_log_query_service.rs:93-191 | and where nothing is stale every such page is what a query answers |
| DeviceLogPages.OnePageWithinLimit | src-tauri/src/services/device_log_query_service.rs:319-331 | without a scan budget or an expired deadline the rows come in one page exactly if they are within the limit |
| DeviceLogPages.ExtendsOn | src-tauri/src/services/device_log_query_service.rs:176-180 | clean-ups of stale files and later batches leave the rows the first page could see, in every time range |
| DeviceLogPages.PageGrown | src-tauri/src/services/device_log_query_time_service.rs:9-13 | a later page can see those of them still in its time range, then rows with later numbers only |
| DeviceLogPages.PagesReturnWhatTheFirstCouldSee | src-tauri/src/services/device_log_query_service.rs:93-191 | the pages of a request hold, once and in order, the matching rows the first page could see, as far as they stay in the time range, while stale files are cleaned up and later batches are written |
| DeviceLogPages.QuietPagesArePages | src-tauri/src/services/device_log_query_service.rs:176-180 | a store that only the queries themselves clean up is such a store |
| DeviceLogLive.NothingToClean | src-tauri/src/services/device_log_query_service.rs:130-150 | no batch of a sink is stale, so a query of its stream cleans up nothing |
| DeviceLogLive.WrittenBetween | src-tauri/src/services/device_log_writer_worker_service.rs:90-139 | what a sink writes between two pages stands before the batches there were, which read as before |
| DeviceLogLive.LivePagesArePages | src-tauri/src/services/device_log_writer_worker_service.rs:28-139 | pages over a stream its sink goes on writing, and other streams too, are pages of such a store |
| DeviceLogClock.PagingNeedsTheClock | src-tauri/src/services/device_log_writer_worker_service.rs:107-121 | over every run of a sink: the queries of every request with safe filters return, page by page, all it asks for, exactly if receive times do not decrease over the stored batches that are not empty |
| DeviceLogClock.BackwardClockLosesRow | src-tauri/src/services/device_log_writer_worker_service.rs:107-121 | after a sink wrote one batch at time 20 and one at 10, queries for everything, one row a page, end without the second row |
| DeviceLogExport.ExportQueryPagesToWriter | src-tauri/src/services/device_log_export_service.rs:51-89 | over any source of pages: each call has the cursor of the answer before; what is written is the pages in turn; and which of the five ends it comes to is decided by the answers and the capacity |
| DeviceLogExport.ResultIsDetermined | src-tauri/src/services/device_log_export_service.rs:51-89 | those conditions leave one result for a source |
| DeviceLogExport.TextSize | src-tauri/src/services/device_log_export_service.rs:76-89 | the pages written newest first are as large as their rows in order |
| DeviceLogExport.TextAsWritten | src-tauri/src/services/device_log_export_service.rs:76-89 | the text is the rows of the pages in the order the pages came |
| DeviceLogExport.PagesExport | src-tauri/src/services/device_log_export_service.rs:51-89 | any finished pages of a store, at most 10,000, are an export that succeeds |
| DeviceLogExport.CursorsDescend | src-tauri/src/services/device_log_export_service.rs:68-72 | over a store each cursor lies strictly below the one before |
| DeviceLogExport.ExportOfStore | src-tauri/src/services/device_log_export_service.rs:51-89 | an export of a store that succeeds has written every matching row the first page could see and that stayed in range; its "did not advance" error is unreachable, too many pages needs 10,000 rows in scope, and too large needs matching rows larger than the capacity |
| DeviceLogLive.ExportIsTheLog | src-tauri/src/services/device_log_export_service.rs:51-89 | end to end: an export without filters of a live stream, if it succeeds, writes every line persisted before it began once, page after page, the newest page first; the pages put together from the last to the first are the log, and as written they are in that order exactly if at most one page holds rows |
| DeviceLogLive.ExportInOrderExactly | src-tauri/src/services/device_log_export_service.rs:51-89 | without a scan budget or an expired deadline: exactly if the log has no more lines than a page may hold |
| DeviceLogLive.TwoLinesComeOutReversed | src-tauri/src/services/device_log_export_service.rs:51-89 | a log of two lines exported one row a page: the second line is written first |
| DeviceLogExport.FailedExport | src-tauri/src/services/device_log_export_service.rs:62 | a call fails only on a pattern that does not compile or a batch in range that cannot be read |
| DeviceLogWriter.DeviceLogBatcher.Push | src-tauri/src/services/device_log_stream_service.rs:144-150 | the batcher emits all its lines at the fiftieth and nothing before |
| DeviceLogWriter.DeviceLogBatcher.Flush | src-tauri/src/services/device_log_stream_service.rs:152-157 | a flush takes what is pending, and emits no empty batch |
| DeviceLogWriter.BatchStream | src-tauri/src/services/device_log_stream_service.rs:33-56 | for any arrival of lines and timeouts the batches joined are the lines in order, each batch of 1 to 50; every timeout ends a batch, and only there or at the end is one not full |
| DeviceLogWriter.DurableDeviceLogBatchSink.constructor | src-tauri/src/services/device_log_writer_worker_service.rs:69-81 | sequence numbers of a new sink start at 1 |
| DeviceLogWriter.DurableDeviceLogBatchSink.PersistQueuedBatch | src-tauri/src/services/device_log_writer_worker_service.rs:90-139 | append, then number, then index: bytes and numbers are consumed as soon as the append succeeds, a batch is persisted exactly if both succeed, and the counters of its stream take it as persisted, with its severities and latency, or as dropped |
| DeviceLogWriter.OwnStepKeeps | src-tauri/src/services/device_log_writer_worker_service.rs:90-139 | one batch, stored or dropped at either point, keeps the index invariant |
| DeviceLogWriter.ForeignStepKeeps | src-tauri/src/services/device_log_writer_worker_service.rs:107-121 | rows of other streams in the shared table do not disturb it |
| DeviceLogWriter.FreshSink | src-tauri/src/services/device_log_writer_worker_service.rs:69-81 | a new sink over a table without its stream starts in the invariant |
| DeviceLogWriter.EveryRunIndexesItsBatches | src-tauri/src/services/device_log_writer_worker_service.rs:90-139 | over every run the rows index exactly the persisted batches, in order, in disjoint increasing intervals of numbers and of bytes, and the bytes stay those of the lines |
| DeviceLogWriter.BackedBatchReads | src-tauri/src/services/device_log_query_service.rs:138-150 | an indexed batch of at most 16 MiB reads back its lines, and its level summary covers them |
| DeviceLogWriter.WrittenStoreIsSound | src-tauri/src/services/device_log_writer_worker_service.rs:90-139 | what the sink wrote meets everything the query lemmas assume of a store, and none of it is stale |
| DeviceLogWriter.RowsAreThePersistedLines | src-tauri/src/services/device_log_writer_worker_service.rs:90-139 | all rows joined are all persisted lines in order |
| DeviceLogRuntime.Refreshed | src-tauri/src/services/device_log_runtime_service.rs:145-160 | backpressure: idle exactly with nothing pending, saturated from 100, not below 25, and in between exactly if it was before; refreshing ends dropping |
| DeviceLogRuntime.DeviceLogRuntimeState.RecordIngested | src-tauri/src/services/device_log_runtime_service.rs:25-31 | ingested lines are counted for one stream and no other entry changes |
| DeviceLogRuntime.DeviceLogRuntimeState.RecordBatchQueued | src-tauri/src/services/device_log_runtime_service.rs:16-23 | one more batch of the stream is pending |
| DeviceLogRuntime.DeviceLogRuntimeState.RecordPersisted | src-tauri/src/services/device_log_runtime_service.rs:44-67 | persisted lines, bytes and severities are added, a slow write is counted, its time kept, and a batch is no longer pending |
| DeviceLogRuntime.DeviceLogRuntimeState.RecordDrop | src-tauri/src/services/device_log_runtime_service.rs:109-116 | dropped lines are added, a batch is no longer pending, and the state shows dropping |
| DeviceLogPipeline.StepConserves | src-tauri/src/services/device_log_writer_worker_service.rs:28-57 | every atomic step of producers and worker conserves lines, batches, bytes, severities and write times, and the saturating subtraction never saturates |
| DeviceLogPipeline.RunConserves | src-tauri/src/services/device_log_writer_worker_service.rs:28-57 | so does every interleaving, under any queue capacity |
| DeviceLogPipeline.QuiescentPipelineAccountsForEveryLine | src-tauri/src/services/device_log_writer_worker_service.rs:28-139 | when all is quiet ingested lines are persisted plus dropped, nothing is pending and the store holds the sent batches in order, except what a stopped worker still held |
| DeviceLogPipeline.LostExactly | src-tauri/src/services/device_log_writer_worker_service.rs:31-36 | a batch is lost exactly if the worker stops while one is queued or in its hands |
| DeviceLogPipeline.EveryLineIsCountedExactly | src-tauri/src/services/device_log_writer_worker_service.rs:28-57 | when all is quiet, every line is persisted or dropped and nothing is pending exactly if the worker never stopped so |
| DeviceLogPipeline.EarlyStopLosesBatch | src-tauri/src/services/device_log_writer_worker_service.rs:41-57 | a batch sent to a worker that stops before taking it: all is quiet, and it stays pending for ever |
| DeviceLogPipeline.PersistAllIsARun | src-tauri/src/services/device_log_writer_worker_service.rs:31-36 | the worker loop over the queue is a run of the sink |
| DeviceLogPipeline.PipelineFeedsQueries | src-tauri/src/services/device_log_writer_worker_service.rs:28-139 | end to end: after any interleaving the sink is in its invariant and the rows a query sees are exactly the stored lines in the order sent |
| DeviceLogRetention.SortsOldestFirst | src-tauri/src/services/device_log_retention_service.rs:24 | the files are sorted by modification time and name, none lost |
| DeviceLogRetention.OldestComeFirst | src-tauri/src/services/device_log_retention_service.rs:24 | a file sorted before another was not modified after it, and has the smaller name at one time |
| DeviceLogRetention.PlanRetention | src-tauri/src/services/device_log_retention_service.rs:23-51 | what the plan removes comes by modification time and code-point order of the names, none after anything it keeps; together they are the segments, what is kept is within the target, and with the last one removed it would not be |
| DeviceLogRetention.SegmentNames | src-tauri/src/services/device_log_retention_service.rs:87-117 | the plan considers exactly the segment files of the root, each once, with its size and time |
| DeviceLogRetention.LogSegmentNames | src-tauri/src/services/device_log_retention_service.rs:119-123 | a segment is a file named by something and the extension |
| DeviceLogRetention.DeviceLogRoot.ApplyRetention | src-tauri/src/services/device_log_retention_service.rs:54-85 | only listed segments go, none modified after one that stays; with them exactly their metadata rows, and both are counted; a file that does not go ends it there, with those before it gone and all rows kept |
| DeviceLogRetention.RetentionKeepsSurvivors | src-tauri/src/services/device_log_retention_service.rs:54-85 | afterwards no row names a removed file, and every stream is a sound store with the rows of the surviving batches |
| DeviceLogRetention.EndedEarlyKeepsSurvivors | src-tauri/src/services/device_log_retention_service.rs:63-79 | so it is after an end midway: the rows of removed files are stale, and a query finds what it would find without them |
| DeviceLogQueryWorker.QueryWorker.Begin | src-tauri/src/services/device_log_query_generation_service.rs:11-26 | a new query of a stream takes the next generation and is live |
| DeviceLogQueryWorker.QueryWorker.CountQueued | src-tauri/src/services/device_log_query_worker_service.rs:79-82 | submitting counts the query before it is sent |
| DeviceLogQueryWorker.QueryWorker.MarkJobStarted | src-tauri/src/services/device_log_query_worker_service.rs:118-122 | a started job leaves the queue count, which does not go below zero |
| DeviceLogQueryWorker.QueryWorker.RecordJobFinished | src-tauri/src/services/device_log_query_worker_service.rs:124-178 | a finished job is counted by outcome, gets the next event number, and the log keeps the newest 64 |
| DeviceLogQueryWorker.EveryRunAccountsForItsQueries | src-tauri/src/services/device_log_query_worker_service.rs:73-178 | after any interleaving submitted queries are queued, running, completed, cancelled or failed; each counter counts the finishes of its kind, the last figures are of the last one, and the events are the newest 64 with consecutive numbers, each naming its query; the queries run in the order sent |
| DeviceLogQueryWorker.QueryAgrees | src-tauri/src/services/device_log_query_worker_service.rs:47-51 | what a query comes to agrees with the polls it made of its token |
| DeviceLogQueryWorker.SupersededQueriesNeverComplete | src-tauri/src/services/device_log_query_worker_service.rs:47-62 | over every interleaving a query superseded before the worker starts it is never completed, and the latest of its stream is never cancelled |
| DeviceLogQueryWorker.IdleStatsExactly | src-tauri/src/services/device_log_query_worker_service.rs:73-92 | when all is quiet the statistics show nothing queued or running exactly if the worker never stopped over work and no query was sent after it stopped |
| DeviceLogQueryWorker.RefusedQueryStaysQueued | src-tauri/src/services/device_log_query_worker_service.rs:79-89 | a query counted before its send fails stays counted as queued |
| DeviceLogQueryWorker.JobsStep | src-tauri/src/services/device_log_query_worker_service.rs:118-122 | each step conserves jobs, and a job that starts was counted as queued |
| DeviceLogQueryWorker.OnlyTheLatestIsLive | src-tauri/src/services/device_log_query_generation_service.rs:11-38 | of two tokens of a stream the earlier is cancelled |
| DeviceLogQueryWorker.CancellationIsPermanent | src-tauri/src/services/device_log_query_generation_service.rs:34-38 | a cancelled token stays cancelled whatever happens next |
| DeviceLogQueryWorker.OnlyTheSameStreamCancels | src-tauri/src/services/device_log_query_generation_service.rs:11-38 | a live token is cancelled by a step exactly if its own stream begins another query |
| TextPosition.OffsetToLineColumn | semantic-worker/src/types/text-position.ts:16-27 | the loop counts line breaks and the column since the last one |
| TextPosition.LineColumnToOffset | semantic-worker/src/types/text-position.ts:3-14 | the loop skips that many lines and adds the column, within the text |
| TextPosition.OffsetRoundTrip | semantic-worker/src/types/text-position.ts:3-27 | every offset survives the trip through line and column |
| TextPosition.PositionRoundTrip | semantic-worker/src/types/text-position.ts:3-27 | a line and column survive the trip through the offset exactly if they exist in the text |
| TextPosition.PositionsAreOrdered | semantic-worker/src/types/text-position.ts:29-38 | spans become ordered pairs of existing positions |
| VirtualDocument.CollectedRewrites | semantic-worker/src/virtual/arkts-virtual-document.ts:65-71 | the rewrites found are in order, disjoint, shorten the text and touch no line break |
| VirtualDocument.EveryMatchIsCollected | semantic-worker/src/virtual/arkts-virtual-document.ts:65-71 | no occurrence of the pattern is missed |
| VirtualDocument.KeywordsAreRewritten | semantic-worker/src/virtual/arkts-virtual-document.ts:65-71 | what is rewritten is exactly the word struct, not the end of a longer one, before white space and the start of a name, and it becomes class |
| VirtualDocument.EtsPathsEndInEts | semantic-worker/src/virtual/arkts-virtual-document.ts:29 | the path ends in .ets, in capitals or not |
| VirtualDocument.ApplyRewrites | semantic-worker/src/virtual/arkts-virtual-document.ts:73-91 | the generated text and the segments carry out the rewrites: same text between tokens, replacements over them |
| VirtualDocument.LastSegmentStartingBefore | semantic-worker/src/virtual/arkts-virtual-document.ts:111-132 | the binary search finds the last segment starting at or before the offset |
| VirtualDocument.MapOffset | semantic-worker/src/virtual/arkts-virtual-document.ts:93-109 | offsets map through that segment, in either direction |
| VirtualDocumentMap.Galois | semantic-worker/src/virtual/arkts-virtual-document.ts:93-132 | for any sorted disjoint rewrites that do not lengthen the text, mapping to generated is at most g exactly if the offset is at most where g maps back |
| VirtualDocumentMap.GeneratedRoundTrip | semantic-worker/src/virtual/arkts-virtual-document.ts:93-132 | every generated offset survives the trip through the source |
| VirtualDocumentMap.SourceRoundTrip | semantic-worker/src/virtual/arkts-virtual-document.ts:93-132 | a source offset fails the trip exactly inside the shrunken tail of a rewritten token |
| VirtualDocumentMap.CreateArktsVirtualDocument | semantic-worker/src/virtual/arkts-virtual-document.ts:25-63 | the document carries out the collected rewrites of an .ets file, and none of any other |
| VirtualDocumentMap.OffsetsFormAGaloisInsertion | semantic-worker/src/virtual/arkts-virtual-document.ts:25-48 | the same for a whole document and all its offsets, which stay in range |
| VirtualDocumentMap.SourceOffsetsAscend | semantic-worker/src/virtual/arkts-virtual-document.ts:39-43 | mapping back keeps the order of offsets |
| VirtualDocumentMap.SpansAreOrderedAndInRange | semantic-worker/src/virtual/arkts-virtual-document.ts:50-61 | a generated span maps to an ordered pair of positions that exist in the source |
| VirtualDocumentMap.TextsAgreeOutsideTokens | semantic-worker/src/virtual/arkts-virtual-document.ts:73-109 | outside rewritten tokens both texts agree character by character |
| VirtualDocumentMap.SameLine | semantic-worker/src/virtual/arkts-virtual-document.ts:50-61 | a generated offset and its source offset lie on the same line |
| CompletionEdits.RangeIsChange | src/editor/codemirror-completion-source.ts:331-343 | a range becomes a change exactly if both ends exist in the document and are in order, and then of their offsets |
| CompletionEdits.SpanIsChange | src/editor/codemirror-completion-source.ts:331-343 | the range the worker reports for a span becomes the change of exactly that span |
| CompletionEdits.AsksExactly | src/editor/codemirror-completion-source.ts:360-371 | an item asks for a start exactly with a range on the line of the cursor, from a column of it to the cursor |
| CompletionEdits.ReplacementStartsBeforeCursor | src/editor/codemirror-completion-source.ts:360-371 | the replaced text starts no later than any item asks, and not after the cursor exactly if some item is not reversed |
| CompletionRebase.RebaseCompletionChanges | src/editor/codemirror-completion-source.ts:275-310 | edits are moved exactly if the documents agree around the completion and every edit stays clear of the replaced text |
| CompletionRebase.RebasesExactly | src/editor/codemirror-completion-source.ts:275-310 | the condition written out over the texts and offsets, and where each edit goes: as it was, or further by what the document grew |
| CompletionRebase.SortSorts | src/editor/completion-transaction.ts:32 | the edits are sorted by start and end |
| CompletionRebase.ValidIsCompatible | src/editor/completion-transaction.ts:56-65 | an edit set is valid exactly if its edits are ranges of the document and pairwise disjoint |
| CompletionRebase.TransactionExactly | src/editor/completion-transaction.ts:20-65 | there is a transaction exactly if the document is the expected one and all edits replace ranges of it, no two the same; it holds them by start and end, those of one place in their order |
| CompletionDiamond.ValidThenAsNow | src/editor/codemirror-completion-source.ts:275-310 | the edit set is valid on the old document exactly if it can be rebased and is valid on the new one |
| CompletionDiamond.ActiveApply | src/editor/completion-transaction.ts:37 | edits that insert nothing change nothing |
| CompletionDiamond.RebaseDiamond | src/editor/codemirror-completion-source.ts:275-310 | rebased edits with the completion do to the accepted document what the original edits with the completion do to the old one |
| CompletionDiamond.TieShows | src/editor/codemirror-completion-source.ts:292-297 | an insertion exactly where the completion starts, when only one of the replaced texts is empty: some completion comes out differently |
| CompletionDiamond.DiamondExactly | src/editor/codemirror-completion-source.ts:275-310 | the diamond holds for every completion text exactly if both replaced texts are empty or both are not, or no edit inserts something exactly at the start |
| IndexerHost.IndexerHostLaneState.MarkStarting | src-tauri/src/indexer_host/runtime_state.rs:59-63 | a start after a failure counts as a restart |
| IndexerHost.IndexerHostLaneState.MarkSuccess | src-tauri/src/indexer_host/runtime_state.rs:65-68 | a success ends the streak and the backoff |
| IndexerHost.IndexerHostLaneState.MarkFailure | src-tauri/src/indexer_host/runtime_state.rs:80-84 | a failure drops the session, lengthens the streak and sets the next deadline |
| IndexerHost.IndexerHostRuntime.CheckoutSession | src-tauri/src/indexer_host/runtime.rs:92-128 | a lane is granted exactly if it is neither lent nor backing off, with its session, a fresh one, or an error after the grant |
| IndexerHost.IndexerHostRuntime.FinishSuccess | src-tauri/src/indexer_host/runtime.rs:130-166 | the session comes back, the streak ends and a chunk of the kind is completed |
| IndexerHost.IndexerHostRuntime.FinishFailure | src-tauri/src/indexer_host/runtime.rs:168-180 | the lane backs off and the host is degraded unless another lane is running |
| IndexerHost.IndexerHostRuntime.FinishCancelled | src-tauri/src/indexer_host/runtime.rs:222-245 | the lane is free without a session; only content and stub chunks are counted |
| IndexerHost.IndexerHostRuntime.FinishSuperseded | src-tauri/src/indexer_host/runtime.rs:247-276 | the session is kept; only content and stub chunks are counted |
| IndexerRuns.BackoffDoubles | src-tauri/src/indexer_host/runtime_state.rs:100-105 | the delay doubles from 250 ms, is 30 s from the eighth failure on, and never decreases |
| IndexerRuns.BackoffOfSaturated | src-tauri/src/indexer_host/runtime_state.rs:80-105 | the 32-bit failure count saturating does not change a delay |
| IndexerRuns.CheckoutKeepsSound | src-tauri/src/indexer_host/runtime.rs:92-128 | a grant keeps the lane protocol |
| IndexerRuns.EndKeepsSound | src-tauri/src/indexer_host/runtime.rs:130-276 | each of the four finishes keeps the lane protocol |
| IndexerRuns.NextIsSound | src-tauri/src/indexer_host/runtime.rs:92-276 | every step of every lane keeps the protocol, the counters and the status |
| IndexerRuns.LaneProtocol | src-tauri/src/indexer_host/runtime.rs:92-276 | in every interleaving a lane is in flight exactly while one attempt holds its grant and then has no idle session; grants are completed, cancelled, superseded, failed or in flight; restarts are the grants made while failing |
| IndexerRuns.OneSessionPerLane | src-tauri/src/indexer_host/runtime.rs:92-128 | a lent session is the process the lane shows, and its attempt is the only one |
| IndexerRuns.BackoffIsWaitedOut | src-tauri/src/indexer_host/runtime_state.rs:54-105 | an idle lane grants exactly from the backoff after the last of its failures on |
| IndexerRuns.TotalBackoffClosed | src-tauri/src/indexer_host/runtime_state.rs:100-105 | the first n delays add up to 31.75 s plus 30 s for each beyond the seventh |
| IndexerRuns.LaunchesAreSpread | src-tauri/src/indexer_host/runtime_state.rs:54-105 | the launches of an always failing lane span at least the delays between them |
| IndexerRuns.RunningIsVisible | src-tauri/src/indexer_host/runtime_state.rs:156-174 | the host shows running exactly while an attempt is in flight |
| IndexerRuns.StatusOverRuns | src-tauri/src/indexer_host/runtime.rs:130-276 | over every run: running exactly with an attempt in flight, else degraded exactly if the last attempt to end failed; a backoff is shown exactly if some lane is still to wait, and the error is that of the last failure |
| IndexerAttempts.RefreshStubChunk | src-tauri/src/indexer_host/runtime_stub.rs:40-126 | published is applied, with the session back and a chunk completed; cancelled leaves no session and no streak; a stale generation keeps the session; any other error is unavailable with the error shown and the streak longer; without a session to lend nothing changes or the start failed |
| IndexerAttempts.RefreshContentChunk | src-tauri/src/indexer_host/runtime_content.rs:49-164 | the same for content, except that content applied whose substring index could not be queued is applied while the lane fails |
| IndexerAttempts.DiscoverWorkspaceChunk | src-tauri/src/indexer_host/runtime_discovery.rs:32-130 | the same for discovery, which no request cancels; a session that publishes is sent what fits of the cursor and the rest is pending after its reply, any other the cursor as it is |
| IndexerAttempts.ConcludePublication | src-tauri/src/indexer_host/runtime_discovery.rs:86-114 | publishing ends an attempt as published, cancelled, superseded or failed |
| IndexerAttempts.CursorChangesExactly | src-tauri/src/indexer_host/runtime_discovery.rs:70-83 | the artifact is rewritten exactly if not the whole cursor was sent |
| IndexerAttempts.AttemptIsARun | src-tauri/src/indexer_host/runtime.rs:92-276 | left alone, what an attempt does to the host is a run of the protocol, with one finish exactly if its lane was granted |
| IndexerAttempts.AttemptGivesLaneBack | src-tauri/src/indexer_host/runtime.rs:92-276 | discovery, content and stub attempts, whatever others do on any lane between their steps, leave their lane as if alone and held by nobody |
| IndexerAttempts.PartitionDiscoveryCursor | src-tauri/src/indexer_host/runtime_discovery.rs:133-169 | the loop sends, defers or prunes each directory in turn within the byte budget |
| IndexerAttempts.NoDirectoryIsLost | src-tauri/src/indexer_host/runtime_discovery.rs:133-169 | every directory not excluded is sent or deferred once, both in order; the first is sent, more than one fit the budget, and none deferred would fit it any more |
| IndexerAttempts.MergeDeferredDiscoveryCursor | src-tauri/src/indexer_host/runtime_discovery.rs:171-179 | every deferred directory is pending after the ones the sidecar has, and there is more to do exactly if there was or something waited |
| IndexerAttempts.EveryDirectoryIsSentPendingOrExcluded | src-tauri/src/indexer_host/runtime_discovery.rs:133-179 | after a chunk every directory of the cursor is sent, pending or counted as excluded, once, and none the sidecar left pending is gone |
| DocumentStore.SemanticDocumentStore.Restore | semantic-worker/src/workspace/document-store.ts:54-87 | a replay is refused whole for its size, else stored up to the first document refused; accepted, each path holds its last document and no other path changes |
| DocumentStoreHistory.RefusesExactly | semantic-worker/src/workspace/document-store.ts:54-87 | a document of a replay is refused exactly for a generation below 1, one below the cached, or the cached one with other content |
| DocumentStore.SemanticDocumentStore.Sync | semantic-worker/src/workspace/document-store.ts:89-108 | refused exactly for a version that goes back or changes its content; else the cached record has the content and the version given, under the next generation exactly if the content is new |
| DocumentStore.SemanticDocumentStore.Close | semantic-worker/src/workspace/document-store.ts:110-117 | a closed document leaves the cache and its byte count |
| DocumentStore.SemanticDocumentStore.LoadCurrent | semantic-worker/src/workspace/document-store.ts:165-202 | refused exactly for the stale, changed or unsynchronised requests; else the content given becomes the cached one, or the document is loaded |
| DocumentStore.SemanticDocumentStore.LoadFromDisk | semantic-worker/src/workspace/document-store.ts:204-229 | an overlay or a record of the same time stamp and size comes again; else a readable file comes with what the disk holds, under the next generation, and any other empty and not available |
| DocumentStore.SemanticDocumentStore.StoreRecord | semantic-worker/src/workspace/document-store.ts:309-333 | a record replaces the cached one with a new access stamp and the byte count adjusted |
| DocumentStore.SemanticDocumentStore.Evict | semantic-worker/src/workspace/document-store.ts:346-357 | eviction removes the oldest documents not protected, as many as the limits ask for and no more |
| DocumentStore.SemanticDocumentStore.OldestFirst | semantic-worker/src/workspace/document-store.ts:348-350 | candidates come least recently used first |
| DocumentStore.BytesWithout | semantic-worker/src/workspace/document-store.ts:116 | removing a document takes exactly its bytes from the total |
| DocumentStore.ByteLengthIsEncoded | semantic-worker/src/workspace/document-store.ts:58 | the byte length of a text is that of its UTF-8 encoding |
| DocumentStore.PrefixIsEviction | semantic-worker/src/workspace/document-store.ts:351-356 | stopping at the limits removes exactly a prefix of the candidates by age |
| DocumentStoreHistory.PrepareDocuments | semantic-worker/src/workspace/document-store.ts:119-147 | a request takes its document, or loads it, then loads the others one after the other, each as a single load would, then evicts |
| DocumentStoreHistory.StoredKeeps | semantic-worker/src/workspace/document-store.ts:309-333 | storing keeps the byte count, distinct access stamps and the generations |
| DocumentStoreHistory.RestoreKeeps | semantic-worker/src/workspace/document-store.ts:62-85 | so does a replay, also one refused midway |
| DocumentStoreHistory.SyncKeeps | semantic-worker/src/workspace/document-store.ts:89-108 | so does a synchronisation |
| DocumentStoreHistory.LoadCurrentKeeps | semantic-worker/src/workspace/document-store.ts:165-202 | so does loading the current document |
| DocumentStoreHistory.LoadFromDiskKeeps | semantic-worker/src/workspace/document-store.ts:204-229 | so does loading from disk |
| DocumentStoreHistory.StepKeeps | semantic-worker/src/workspace/document-store.ts:54-147 | every operation, refused ones included, keeps the accounts, and the generations of what stays cached |
| DocumentStoreHistory.HistoryIsConsistent | semantic-worker/src/workspace/document-store.ts:54-147 | in every history the byte count is the sum of the cached sizes and access stamps are distinct |
| DocumentStoreHistory.GenerationsInHistory | semantic-worker/src/workspace/document-store.ts:54-147 | while a path stays cached its generation never decreases, and equal generations are equal contents |
| DocumentStoreHistory.RequestsRespectLimits | semantic-worker/src/workspace/document-store.ts:346-357 | after a request both limits hold, or only what it uses is left |
| DocumentStoreHistory.RefusalsChangeNothing | semantic-worker/src/workspace/document-store.ts:89-202 | a refused synchronisation or request leaves the store as it was |
| DocumentStoreHistory.RefusedReplayStopsThere | semantic-worker/src/workspace/document-store.ts:62-85 | a replay refused at a document has stored exactly those before it |
| DocumentStoreHistory.LoadsAreFresh | semantic-worker/src/workspace/document-store.ts:204-229 | over every history in which a time stamp and size determine what a file holds, loading a readable file that is not an overlay gives what the disk holds |
| DocumentStoreHistory.LoadIsFreshExactly | semantic-worker/src/workspace/document-store.ts:204-229 | in general exactly if no record of the same stamp holds something else |
| DocumentStoreHistory.UnreadableStays | semantic-worker/src/workspace/document-store.ts:204-229 | a file that could not be read, and can be now under the same stamp, still counts as not available |
| DocumentStoreHistory.EvictionIsNeeded | semantic-worker/src/workspace/document-store.ts:346-357 | eviction keeps what the request uses, takes the least recently used first, and ends within both limits if it can and no later than it must |
| DocumentStoreHistory.EvictionIsDetermined | semantic-worker/src/workspace/document-store.ts:346-357 | the conditions on an eviction leave no choice of what goes |
| CivilDate.YearOfEraIsExact | src-tauri/src/services/device_fault_log_service.rs:226-229 | the corrected division finds the year of the era, and the day lies in it |
| CivilDate.CivilFromDaysIsExact | src-tauri/src/services/device_fault_log_service.rs:222-237 | every day count yields an existing date, and counting its days year by year and month by month gives the count back |
| CivilDate.DatesAreDays | src-tauri/src/services/device_fault_log_service.rs:222-237 | every existing date is the date of its day count |
| CivilDate.CivilFromDaysCountsOn | src-tauri/src/services/device_fault_log_service.rs:222-237 | day 0 is 1970-01-01 and each next day has the next date |
| CivilDate.DaysAscend | src-tauri/src/services/device_fault_log_service.rs:222-237 | later dates have larger day counts |
| FaultLogTimestamp.FormatReadsBack | src-tauri/src/services/device_fault_log_service.rs:211-220 | the printed time reads back as the same second for years 0 to 9999, and as no date-time otherwise |
| FaultLogTimestamp.PaddedReadsBack | src-tauri/src/services/device_fault_log_service.rs:211-220 | a year of any sign and size is printed so that it reads back, and filled only up to its width |
| FaultLogTimestamp.ReadPrintsBack | src-tauri/src/services/device_fault_log_service.rs:211-220 | a date-time of that form prints as it was read |
| FaultLogTimestamp.YearInRange | src-tauri/src/services/device_fault_log_service.rs:211-220 | four-digit years are exactly the seconds from -62167219200 to 253402300799 |
| RequestFraming.BufferedReader.TakeLine | src-tauri/src/indexer_sidecar/stdio.rs:70-75 | a bounded read takes up to and including a line feed, however the input is chunked |
| RequestFraming.BufferedReader.DiscardUntilNewline | src-tauri/src/indexer_sidecar/stdio.rs:88-103 | the rest of the line goes, however the input is chunked |
| RequestFraming.ReadRequestLine | src-tauri/src/indexer_sidecar/stdio.rs:69-86 | one line is consumed and read as a request, an oversized one or the end, or is not UTF-8 |
| RequestFraming.RunStream | src-tauri/src/indexer_sidecar/stdio.rs:26-61 | the loop serves the input line by line until a line cannot be read |
| RequestFraming.PiecesAreTheInput | src-tauri/src/indexer_sidecar/stdio.rs:69-103 | the lines make up the input, each but the last ending in its only line feed |
| RequestFraming.PiecesOfLine | src-tauri/src/indexer_sidecar/stdio.rs:69-103 | a line and its line feed are one piece whatever follows |
| RequestFraming.OneResponseEach | src-tauri/src/indexer_sidecar/stdio.rs:26-61 | responses correspond one to one and in order to the lines that are oversized or not blank |
| RequestFraming.LineIsAnswered | src-tauri/src/indexer_sidecar/stdio.rs:26-61 | a line that can be read, within 512 KiB, is answered exactly if it holds a character that is not listed as white space, and leaves the rest as it would be |
| RequestFraming.LastLineIsAnswered | src-tauri/src/indexer_sidecar/stdio.rs:26-61 | so is what stands after the last line feed |
| RequestFraming.AsciiLineIsAnswered | src-tauri/src/indexer_sidecar/stdio.rs:26-61 | a line of ASCII is answered exactly if it has a byte other than 9 to 13 and 32 |
| RequestFraming.OversizedCostsOne | src-tauri/src/indexer_sidecar/stdio.rs:29-41 | an oversized line costs one error and leaves what follows undisturbed |
| RequestFraming.FailsExactlyOnUnreadable | src-tauri/src/indexer_sidecar/stdio.rs:26-61 | the loop fails exactly if some line cannot be read |
| RequestFraming.AsciiStream | src-tauri/src/indexer_sidecar/stdio.rs:26-103 | a stream of ASCII never fails, and is answered one to one |
| RequestFraming.CutDecodes | src-tauri/src/indexer_sidecar/stdio.rs:70-75 | UTF-8 cut at a byte decodes exactly if the cut does not split a character |
| RequestFraming.TextStream | src-tauri/src/indexer_sidecar/stdio.rs:26-103 | a stream of valid UTF-8 is served to its end exactly if no line has a character across the limit |
| RequestFraming.StraddlingLineEndsTheStream | src-tauri/src/indexer_sidecar/stdio.rs:70-75 | one such line, a concrete one, ends the stream |

## Left out

- Foreign code: hdc, git, terminals, SQLite, the file system, the TypeScript language service, CodeMirror and the user interface are parameters or absent; SQL selections are functions on an ordered sequence.
- Failure in the middle of a segment write, and several sinks for one stream id: the guarantees do not hold there, so they are assumptions. What poisons a lock is not modelled, only that the writer's worker may stop.
- Machine integers: line, byte and sequence counts of the device log are unbounded numbers, where the code saturates at 64 bits; the indexer's failure, restart and chunk counters do saturate as in the code.
- DeviceLogQuery.QueryDeviceLogBuffer: does not model `total_candidates`, `query_ms`, or the order of the orphaned file names deleted, which are diagnostics.
- DeviceLogExport.ExportQueryPagesToWriter: does not model errors of the writer other than its capacity, nor the temporary file of a file export and its renaming.
- DeviceLogRuntime.DeviceLogRuntimeState.RecordDrop: does not model the text of the last error, the device id and the stream status, which nothing computes with.
- DeviceLogRetention.DeviceLogRoot.ApplyRetention: does not model a metadata table that fails to delete rows, nor a segment removed while a sink still writes to it, which the caller refuses.
- DeviceLogQueryWorker.QueryWorker.RecordJobFinished: takes counting and logging of one finish as one step; the one worker thread never overlaps two.
- Storage summaries of the device log: they would only add easy members.
- CompletionDiamond.RebaseDiamond: takes a completion that replaces text up to the cursor of its request, as `ReplacementStartsBeforeCursor` says when it does; a reversed range of an item is not an edit of the old document at all. The selection after the transaction is CodeMirror's.
- CompletionEdits.RangeIsChange: documents have line feeds as their only line breaks, as CodeMirror keeps them.
- Document objects: two are the same object exactly if their versions and contents are.
- VirtualDocument.EveryMatchIsCollected: the regular expression for `struct` is written out as a predicate on positions, matched left to right without overlap.
- IndexerAttempts.DiscoverWorkspaceChunk: does not model the checksum of the partitioned cursor or the contents of publication artifacts; which directories are excluded is a parameter. A small directory may be sent before a large one that was deferred, so order across the two lists is not kept, and not promised.
- Writer metrics and the slowest publication of a lane, aggregated snapshots, capabilities and the terminal message of the indexer host: they would only add easy members.
- DocumentStoreHistory.PrepareDocuments: takes the list of other files read, and the set protected, as given: collecting and reusing dependency closures is not modelled, since a synchronised dependency does not invalidate a cached closure and agreement with a fresh search is not a general property. Dependency generations are not modelled either.
- DocumentStore.SemanticDocumentStore.Restore: paths are already resolved, and numbers are integers.
- FaultLogTimestamp.FormatReadsBack: reads back the layout that is printed, in UTC with a zero fraction; offsets, other fractions and leap seconds of RFC 3339 do not occur in it.
- RequestFraming.RunStream: what the handler answers to a request line is its own matter, and errors of the underlying streams other than text that is not UTF-8 are not modelled.
- Latency summaries, build-project and build-environment discovery, SDK indexes and completion lists: they would only add easy members.
