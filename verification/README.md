# PyAnswer backend: a verified model

PyAnswer builds a question-and-answer search from Stack Exchange threads. Its backend reads pages of
questions, cleans and chunks them, stores documents in PostgreSQL, keeps their vectors in Qdrant behind an
alias, and answers questions from the chunks it finds. This project models the parts of the backend whose
correctness does not follow from reading one function, and proves what they keep.

`dafny verify dfyconfig.toml` checks everything.

| modules | what they model |
|---|---|
| `Text`, `TokenCounter`, `Markdown`, `Fences`, `CodeSplit`, `Oversized`, `Packing`, `Chunking`, `ChunkingExamples` | the chunker, the token counter, and the printer of fenced code it reads back |
| `IndexBuild`, `IndexActivation`, `DocumentReindex`, `ReindexQueue` | the blue-green search index over two stores without a common transaction, and the jobs that keep it current |
| `SourceSync`, `Documents`, `Deduplication`, `ImportPool` | checkpointed ingestion, the life of a document, exact deduplication, the worker pool of the dump import |
| `EventStream`, `RateLimit`, `EmbeddingCache`, `Fusion`, `ContextText`, `ContextBuilder` | the reader of the answer stream, the limiter, the query cache, rank fusion, the answer context |
| `Common`, `Sorting` | optional values, finite sets, and the stable sort that fusion and context use |

Conventions. A class stands for state that the program changes in place; its methods are proved against
functions on values, and the properties are lemmas about those functions, mostly over whole runs. In a
method, `*` is a point where the process may crash, be cancelled or lose its lease; where the properties
depend on the place, it is an argument instead (`IndexActivation.Fate`). No `*` stands inside a PostgreSQL
transaction. SHA-256 keys are injective: a hash is the value that is hashed. Qdrant upserts are keyed by point,
and the job lease is exclusive. Assumed of the source: the listing that one traversal reads does not change while
it is read. In initial mode it is ordered by creation; in incremental mode it is ordered by activity, so a
question with new activity leaves it, and then the offsets of the model are no longer those of the source.

## What does not hold

Some expected statements are false of the code. For each there is a concrete input and the exact condition.

- The limit on chunk sizes. A fence that leaves no room for the code inside makes `DocumentChunker.chunk`
  raise, as for the section of `ChunkingExamples.ChunkIsTooLarge`; exactly when: `Chunking.ChunkDocument`.
- No loss in chunking. A fence above the limit with nothing inside disappears, as in the section of
  `ChunkingExamples.SectionVanishes`; exactly when: `Chunking.PartsKeepSection`.
- The round trip of blocks. Three line feeds in a row inside code become two (`Fences.RoundTripExample`), and a
  text of two paragraphs comes back as two blocks (`Fences.TwoParagraphsExample`); exactly when:
  `Fences.RoundTrip`.
- The cursor in initial mode. A batch cut by the target may leave a question behind the saved cursor, as in
  the listing of `SourceSync.InitialCutLosesAQuestion`. For one batch, exactly when it does not reach the end
  of its page, the target made the cut, and some question of it adds no document: `SourceSync.BatchLosesIff`.
  For a whole run, exactly when `SourceSync.Loses` says so of its listing and the stored documents:
  `SourceSync.Sync.Run`.
- `point_count`. Replacing chunk rows takes their index entries away without a delta:
  `DocumentReindex.CascadeDrifts`; by how much, in every run: `DocumentReindex.CounterDrift`.
- Alias and active version. One crash between the switch and the commit parts them
  (`IndexActivation.CrashStrandsTheAlias`), a failing re-run after it leaves them apart
  (`IndexActivation.DoubleFailure`), and so do a switch that takes effect and raises
  (`IndexActivation.AliasOnFailedVersion`) and a failing re-run of an activated version
  (`IndexActivation.RerunOfActivated`). Exactly when, for one attempt whose fate is known beforehand:
  `IndexActivation.AlignedAfterIff`; for all attempts that neither die nor have a raising switch:
  `IndexActivation.OrderlyAttemptsAlignIff`; for whole histories: `IndexActivation.HistoryAlignedIff`.
- Every change reaches the index. A change is lost when it comes between the commit of a running job and the
  completion of that job, because the running job is taken for the new one
  (`ReindexQueue.ChangeAfterCommitIsLost`), or when it makes a document eligible that the running job has read as
  ineligible (`ReindexQueue.RestoreIsLost`), or when ingestion of the same content judges anew whether the
  document is a duplicate (`ReindexQueue.JudgedOtherwiseIsLost`). Exactly when, for one change:
  `ReindexQueue.ChangeIsIndexedIff`; for whole runs: `ReindexQueue.EveryRunIsCurrentIff`; for what one job
  commits: `DocumentReindex.CommittedIsCurrentIff`.
- Acyclic duplicates. Two documents that swap their contents at the same time point at each other:
  `Deduplication.SwapMakesACycle`; exactly when: `Deduplication.CommitKeepsAcyclicIff`.
- The context budget. What stands around a text is not part of what is shortened:
  `ContextBuilder.PassesTheBudgetExample`. A context passes the budget exactly when some group is shortened
  and its frame is longer than the gap that the cut leaves: `ContextBuilder.ContextPassesTheBudgetIff`; it
  always does when a text is cut at the limit itself: `ContextBuilder.CutAtTheLimitPasses`; by how much:
  `ContextBuilder.Builder.Build`.

Four more observations. The transaction that activates a version writes the row of the old version and that of
the new one, and a unique index admits one ACTIVE row after each of them. So with a working database it
commits if and only if there is no other active version or the old row is written first
(`IndexActivation.CommitsIff`); the program does not order the two writes, so the order is an argument.
Reindexing a document with more chunks than the upsert limit fails after its points were deleted
(`DocumentReindex.ActiveIndex.Publish`). The branch of the sync that skips a page without questions is dead:
in a frozen listing a saved offset always names a question (`SourceSync.BatchIsNotEmpty`). So is the second
place where `_split_code_block` closes its open group (`CodeSplit.GroupLines`).

## Model

| member | source | states |
|---|---|---|
| Text.StripIsSlice | backend/app/processing/chunking.py:110 | stripping takes white space off the two ends and nothing else |
| Text.OneLineNormalized | backend/app/processing/chunking.py:205 | a line with any of the three endings becomes the line with a line feed |
| TokenCounter.FindIter | backend/app/processing/chunking.py:27-32 | the scan finds whole words and single marks, in order, with nothing but white space between them; their slices are the tokens |
| TokenCounter.Split | backend/app/processing/chunking.py:30-45 | the parts hold all tokens in order; every part but the last holds exactly `maximum`, the last at least one; each is the stripped stretch of the text from a match to a match |
| TokenCounter.Tail | backend/app/processing/chunking.py:47-53 | the result holds the last `maximum` tokens and no other, as the stripped stretch of the text from a match to its end |
| TokenCounter.TokensConcat | backend/app/processing/chunking.py:11-28 | where no word crosses the cut, the tokens of a concatenation are those of the two texts |
| TokenCounter.TokensJoin | backend/app/processing/chunking.py:148-156 | joining texts with line feeds neither merges nor adds tokens |
| TokenCounter.TokensLines | backend/app/processing/chunking.py:205-206 | cutting into lines keeps the tokens |
| TokenCounter.TokensNormalizeNewlines | backend/app/processing/chunking.py:205-206 | normalising line endings keeps the tokens |
| TokenCounter.TokensStrip | backend/app/processing/chunking.py:110 | stripping keeps the tokens |
| Markdown.OpensFenceIff | backend/app/processing/chunking.py:218 | a line opens a fence if and only if it is three or more backticks and then letters, digits, underscores or one of # + - . |
| Markdown.LanguageIs | backend/app/processing/chunking.py:221-223 | the language is what follows the backticks with its capital letters made small, or none |
| Markdown.ReadCodeLines | backend/app/processing/chunking.py:218-234 | a code block runs from its opening fence to the first line that closes it, or to the end |
| Markdown.MarkdownBlocks | backend/app/processing/chunking.py:205-241 | the two loops compute the recursive reading of the lines into blocks |
| Markdown.BlocksKeepTokens | backend/app/processing/chunking.py:205-241 | the blocks' tokens in order are exactly the section's tokens |
| Markdown.BlocksHaveTokens | backend/app/processing/chunking.py:205-241 | no block is blank |
| Markdown.OnlyTheLastEndsInFeed | backend/app/processing/chunking.py:218-241 | only code that is never closed can end in a line feed, and it is the last block |
| Fences.FenceIsLonger | backend/app/processing/html.py:250-252 | the fence is longer than any run of backticks in the code |
| Fences.FenceIsShortest | backend/app/processing/html.py:250-252 | it is the shortest of three or more backticks that is |
| Fences.CollapseChanges | backend/app/processing/html.py:97 | shortening runs of line feeds changes a text exactly when it holds three in a row |
| Fences.LanguageReadBack | backend/app/processing/chunking.py:214-226 | a lower-case language printed behind the fence is the one read back |
| Fences.ReadsBack | backend/app/processing/html.py:97-252 | when no text has a blank line or a line that opens a fence, reading the cleaned text gives the printed blocks one for one, code shortened and nothing else |
| Fences.RoundTrip | backend/app/processing/html.py:97-252 | over all cleaned blocks, printing and parsing return the same list if and only if no code holds three line feeds in a row and no text a blank line or a line that opens a fence |
| Fences.TextBlocksAreProse | backend/app/processing/chunking.py:205-241 | whatever the lines, a block that is read as text has no blank line and no line that opens a fence |
| Fences.RoundTripExample | backend/app/processing/html.py:97 | two words with two empty lines between them come back with one |
| Fences.TwoParagraphsExample | backend/app/processing/chunking.py:236-238 | a text of two words with an empty line between them comes back as two blocks |
| CodeSplit.ReadFenceIff | backend/app/processing/chunking.py:249-256 | a fence is read off a block if and only if its first line is a fence line and another line follows; it is closed if and only if the text ends in a line feed and the fence |
| CodeSplit.FenceReadBack | backend/app/processing/chunking.py:244-256 | fence, language line and body that are read off a block make up the block |
| CodeSplit.RewrapTokens | backend/app/processing/chunking.py:256-286 | a rewrapped group has the tokens of the fences around those of the group |
| CodeSplit.GroupLines | backend/app/processing/chunking.py:262-281 | the groups hold the lines as they are, in order and within the capacity, are closed only when the next line does not fit, and hold stretches of a line only when it does not fit alone |
| CodeSplit.LinesOfRewrap | backend/app/processing/chunking.py:282-286 | the lines of a part are the opening line, the lines of its group, and the fence |
| Oversized.SplitCodeBlock | backend/app/processing/chunking.py:244-286 | the parts of a fenced block carry its tokens and only repeated fences besides; line by line each is a run of the lines between opening line and fence; some part is too large if and only if the fence leaves no room |
| Oversized.SplitOversized | backend/app/processing/chunking.py:184-192 | the same for every block: a block that fits stays whole, text is cut into stretches of it; flag and language are kept |
| ChunkingExamples.ChunkIsTooLarge | backend/app/processing/chunking.py:101-115 | a section of one word between two fences, with a limit of six tokens: however it is cut, a chunk is too large |
| ChunkingExamples.SectionVanishes | backend/app/processing/chunking.py:264-286 | a section of two fences around an empty line, with a limit of five tokens: its six tokens are not kept |
| Packing.Flush | backend/app/processing/chunking.py:145-171 | a flush merges a small chunk into the one before it when they fit, and otherwise adds one with the right overlap; what it adds is its parts with two line feeds between them, stripped, behind two line feeds |
| Packing.Pack | backend/app/processing/chunking.py:137-182 | chunks hold consecutive parts, character by character as the flushes lay them out; overlap exactly when the code allows it; sizes follow target, minimum and maximum; only a part that already was too large makes a chunk too large |
| Chunking.ChunkSection | backend/app/processing/chunking.py:137-192 | a section is cut into blocks, parts and chunks as the definitions above say |
| Chunking.ChunkLines | backend/app/processing/chunking.py:145-171 | the lines of a chunk are those of its overlap and of the parts of its flushes, with exactly one empty line between any two of them; a flush loses white space at its ends only; the overlap is a stretch of the chunk before |
| Chunking.FlushesHoldParts | backend/app/processing/chunking.py:173-182 | the flushes of all chunks hold the parts of the section, each once and in order |
| Chunking.PartsKeepSection | backend/app/processing/chunking.py:184-286 | the parts keep exactly the section's tokens if and only if no oversized fence is empty |
| Chunking.ChunksHoldParts | backend/app/processing/chunking.py:145-171 | less an overlap of at most `overlap_tokens` tokens each, the chunks are the parts |
| Chunking.ChunksLoseNothing | backend/app/processing/chunking.py:30-192 | without overlaps the chunks hold exactly the section's tokens when no fenced block is cut, and in any case those of the parts |
| Chunking.TooLargeIff | backend/app/processing/chunking.py:101-192 | a chunk is above the limit if and only if some fence leaves no room for its code; no chunk is blank |
| Chunking.ChunkDocument | backend/app/processing/chunking.py:101-135 | the error is raised if and only if a section has such a fence; otherwise there is one draft for each chunk, section by section and in order, with its exact text, its counts and the limit kept |
| IndexBuild.EveryRunIsConsistent | backend/app/services/search_index.py:317-359 | over every run with crashes, cancels and resumes: entries are exactly the eligible chunks up to the checkpoint, Qdrant holds their points and besides them only points of the batch in flight |
| IndexBuild.AheadByOneBatch | backend/app/services/search_index.py:330-357 | Qdrant is ahead by at most one batch of points |
| IndexBuild.GatePasses | backend/app/services/search_index.py:359-366 | at the end of the loop both stores hold exactly the eligible chunks, so both counts equal the total |
| IndexBuild.FullReindex.Attempt | backend/app/services/search_index.py:317-366 | one attempt, cut short anywhere, leaves what the next can continue from; the gate never sees a mismatch |
| IndexBuild.RunJob | backend/app/services/search_index.py:279-366 | the same over all attempts of a job |
| IndexActivation.AttemptIsSafe | backend/app/services/search_index.py:372-434 | however an attempt ends, and wherever it dies, at most one version is active and the alias names a gated collection |
| IndexActivation.AliasIsOldOrPending | backend/app/services/search_index.py:381-434 | however an attempt ends or dies, the alias is where it was or on the pending collection, and no other version became active; a committed one has both on the pending version |
| IndexActivation.StatusesAfter | backend/app/services/search_index.py:359-434 | a failed gate and a final failure leave the version FAILED, a commit leaves it ACTIVE and the others RETIRED, passing the gate alone READY; nothing else changes a status |
| IndexActivation.CommitsIff | backend/app/db/models/operations.py:445-450 | the row writes of the activating transaction pass the unique index if and only if no other version is active or it is retired first |
| IndexActivation.AlignedAfterIff | backend/app/services/search_index.py:359-434 | alias and active version are equal after an attempt if and only if it commits, or touches nothing and they were equal, or does not strand the alias on a version that was not active and they were equal |
| IndexActivation.OrderlyAttemptsAlignIff | backend/app/services/search_index.py:359-434 | every attempt that neither dies nor has a raising switch leaves them equal if and only if they are equal before it and the version is not the active one |
| IndexActivation.CrashStrandsTheAlias | backend/app/services/search_index.py:381-384 | one crash between switch and commit leaves the alias on the new collection and the old version active |
| IndexActivation.AliasOnFailedVersion | backend/app/services/search_index.py:382-434 | a switch that takes effect and raises leaves the alias on a version marked FAILED |
| IndexActivation.RerunOfActivated | backend/app/services/search_index.py:372-434 | an attempt on the active version that does anything and does not commit leaves no version active and the alias on it |
| IndexActivation.DoubleFailure | backend/app/services/search_index.py:381-434 | after that crash a database failure on the re-run compensates to the new collection |
| IndexActivation.EveryHistoryIsSafe | backend/app/services/search_index.py:279-434 | over every history of versions and attempts at most one version is active and the alias names only a gated collection |
| IndexActivation.HistoryAlignedIff | backend/app/services/search_index.py:279-434 | over every history alias and active version are equal if and only if the fates and statuses say so |
| IndexActivation.UndisturbedIsAligned | backend/app/services/search_index.py:372-434 | without a dying process, a raising switch or a re-run of the active version they agree after every job, whether it committed, was cancelled or failed |
| IndexActivation.CommitRealigns | backend/app/services/search_index.py:384-412 | a commit makes them agree again whatever came before, and retires the others |
| IndexActivation.SearchIndex.Activate | backend/app/services/search_index.py:359-434 | for every fate, the steps of the code end where the model says, with its outcome; alias and statuses of each outcome are stated |
| IndexActivation.SearchIndex.WriteActivation | backend/app/services/search_index.py:384-404 | row by row under the unique index: all rows are written, or none when the database fails or a second ACTIVE row would stand |
| DocumentReindex.DeltaIsExact | backend/app/services/search_index.py:196-259 | the delta is the change in INDEXED entries, other documents keep theirs, and Qdrant holds exactly the prepared points for this one |
| DocumentReindex.CounterDrift | backend/app/services/search_index.py:774-789 | over every run the counters exceed the INDEXED entries by exactly those that cascades took away, so the clamp never acts |
| DocumentReindex.NoCascadeNoDrift | backend/app/services/search_index.py:758-789 | runs that keep chunk rows keep counter and entries equal |
| DocumentReindex.CascadeDrifts | backend/alembic/versions/20260716_0004_stage_6_search_index_versions.py:169-174 | one cascaded entry is enough for a counter that is too high |
| DocumentReindex.ReadyIffIndexed | backend/app/services/search_index.py:205-247 | a committed document is shown READY if and only if it has INDEXED entries |
| DocumentReindex.EligibleArePrepared | backend/app/integrations/qdrant/schema.py:90-114 | a chunk row has a point if and only if its document is chunked, without error, ACTIVE or OUTDATED and not a duplicate, and the row is at its version with text and context |
| DocumentReindex.CommittedRows | backend/app/services/search_index.py:225-247 | the INDEXED entries and the points that a commit leaves, row by row; others are REMOVED or untouched |
| DocumentReindex.CommittedIsCurrentIff | backend/app/services/search_index.py:164-233 | the committed entries are the eligible chunks of the document as it is locked if and only if it had one when it was read or has none now |
| DocumentReindex.ActiveIndex.Publish | backend/app/services/search_index.py:196-224 | the document's points become the prepared ones, or some of them or none when the process stops; other documents keep theirs; an upsert above the limit fails after the deletion |
| DocumentReindex.ActiveIndex.CommitEntries | backend/app/services/search_index.py:225-259 | entries, counters and status become those of the reindexed state, and counters that counted the entries count them again |
| DocumentReindex.ActiveIndex.Reindex | backend/app/services/search_index.py:134-277 | from the document as read and as locked: a committed job leaves INDEXED entries and points for exactly the searchable chunk rows, REMOVED for its other entries, and READY or NOT_INDEXED accordingly; it commits only under a matching alias and an unchanged document (which it does not check when no row was searchable); any other job changes only points and status of this document; the counters go on counting the entries and those lost to cascades |
| DocumentReindex.ActiveIndex.ApplyActiveVersionDelta | backend/app/services/search_index.py:774-789 | when the entries have just grown by the delta, counters that counted them before count them again, and the clamp does not act |
| DocumentReindex.ActiveIndex.Cascade | backend/alembic/versions/20260716_0004_stage_6_search_index_versions.py:169-174 | deleted chunk rows take their entries away, and the counters exceed the entries by those |
| ReindexQueue.SettledIsCurrentIff | backend/app/services/search_index.py:134-277 | a job that is left alone makes the index current if and only if nothing is lost yet |
| ReindexQueue.ChangeIsIndexedIff | backend/app/services/index_jobs.py:25-62 | a change reaches the index if and only if it needs no job, gets a new one, or meets one that has not read the document or will notice the change and may be tried again |
| ReindexQueue.EveryRunIsCurrentIff | backend/app/services/index_jobs.py:25-62 | over every interleaving of changes, requests, steps, failures and retries the index becomes current if and only if no change was lost |
| ReindexQueue.ClaimsAreCounted | backend/app/db/repositories/jobs.py:245-272 | over every run a job is claimed as often as it counts attempts, and never more often than it may be |
| ReindexQueue.RequestIsIndexed | backend/app/services/editor.py:325-351 | a user's request makes the index current when the document has no job, and otherwise changes nothing |
| ReindexQueue.UndisturbedIsCurrent | backend/app/services/index_jobs.py:25-62 | when no change meets a committed or misled job and no job ends for good, the index is current whenever there is no job |
| ReindexQueue.RestoreIsLost | backend/app/services/search_index.py:196-231 | a document that is hidden, and restored while the job for the hiding holds it, ends active without an entry |
| ReindexQueue.ChangeAfterCommitIsLost | backend/app/workers/indexer.py:176-184 | a change between the commit of a job and its completion leaves the index at the version before |
| ReindexQueue.JudgedOtherwiseIsLost | backend/app/services/document_ingestion.py:219-245 | a document without a job that ingestion judges anew is current if and only if the judgement is the same |
| SourceSync.SavedCursorIsCovered | backend/app/workers/source_sync.py:216-264 | the saved cursor never passes a question that was not ingested or skipped |
| SourceSync.NextPageIsCoveredIff | backend/app/workers/source_sync.py:191-267 | going on with the next page is safe if and only if the batch took the rest of this one |
| SourceSync.GoesOnAfterCutIff | backend/app/workers/source_sync.py:251-267 | after a cut the program goes on if and only if the target made the cut and some question of the batch adds no document |
| SourceSync.BatchLosesIff | backend/app/workers/source_sync.py:210-267 | a batch leaves a question behind if and only if it does not reach the end of its page, the target made the cut, and some question of it adds no document |
| SourceSync.IncrementalCutStops | backend/app/workers/source_sync.py:441-451 | in incremental mode a cut batch uses up the job, so no next page is read |
| SourceSync.IncrementalNeverLoses | backend/app/workers/source_sync.py:441-451 | no listing makes an incremental run lose a question |
| SourceSync.InitialCutLosesAQuestion | backend/app/workers/source_sync.py:441-451 | a listing for which an initial run saves a cursor past a question that nobody handled |
| SourceSync.BatchIsNotEmpty | backend/app/workers/source_sync.py:217-223 | a page read from a saved offset has questions left while documents are wanted |
| SourceSync.Sync.ProcessBatch | backend/app/workers/source_sync.py:503-519 | items commit one by one; a whole batch handles exactly its questions and stores exactly those not skipped |
| SourceSync.Sync.SaveCheckpoint | backend/app/workers/source_sync.py:736-868 | checkpoint, state row and count are saved together, and a covered cursor keeps the state safe |
| SourceSync.Sync.CommitBatch | backend/app/workers/source_sync.py:231-264 | stopped, a batch saves nothing; otherwise checkpoint and row name the next cursor, which is covered if the last one was |
| SourceSync.Sync.CommitPage | backend/app/workers/source_sync.py:210-267 | after a page the saved cursors are as good as before, or a cut was gone past and they are not |
| SourceSync.Sync.ReadPages | backend/app/workers/source_sync.py:191-271 | the loop loses a question exactly when the listing and the stored documents say so; it finishes the listing or moves the cursor forward |
| SourceSync.Sync.Run | backend/app/workers/source_sync.py:143-323 | a run goes on from the checkpoint, or else from a row of its mode, and otherwise from the first question of a new traversal: it handles nothing before that place and saves only places ahead of it; it says that the source is complete if and only if the target is reached or it stands behind the last page; unless it loses a question its cursors stay good, and a completed run loses one if and only if `Loses` says so of its listing |
| SourceSync.Sync.StartIsCovered | backend/app/workers/source_sync.py:374-410 | the cursor that a run starts from lies on its page, and no question before it is unhandled |
| SourceSync.Sync.StartsWhereSaved | backend/app/workers/source_sync.py:380-397 | cursor, date and count of fetched questions are the checkpoint's, or else the row's, or else fresh |
| SourceSync.Sync.Finalize | backend/app/workers/runner.py:162-248 | the watermark moves only for a complete incremental run, to its date; a requeued job keeps its checkpoint; no cursor is made worse |
| SourceSync.Sync.RunJob | backend/app/workers/runner.py:162-248 | a job of either mode, over all its attempts, goes on from a row of its mode, handles nothing before that place, leaves a row no further back, and leaves what the next job can start from; watermark and row are those of its last attempt |
| SourceSync.MixedHistory | backend/app/workers/runner.py:222-248 | over any history of jobs in both modes, also when initial jobs lose questions, every question of every listing that a watermark ever stood for was skipped or has its document |
| Documents.EveryHistoryIsConsistent | backend/app/services/document_ingestion.py:165-261 | over every interleaving of ingestion, edits, hiding, restoring, bulk operations and indexing: chunks are those of the current content at the current version, counted right; revision versions are within it, within the limit, and the newest has the content hash |
| Documents.ConsistentChunks | backend/app/services/editor.py:479-502 | chunks carry the document's version, ordinals from zero and distinct keys |
| Documents.RetentionKeepsTheNewest | backend/app/services/document_ingestion.py:494-504 | at most the limit is kept, everything while it fits, and what is dropped is older than what is kept |
| Documents.VersionPinsContent | backend/app/services/document_ingestion.py:211-213 | versions never fall, and while the version stays so do chunks, hash, revisions and status |
| Documents.IngestAgain | backend/app/services/document_ingestion.py:200-261 | ingesting the same thread again changes nothing, whatever an editor did before |
| Documents.IngestAnother | backend/app/services/document_ingestion.py:205-242 | a second thread keeps the version of the first if and only if tags and sections are the same, and the title is or an editor's stands in for it |
| Documents.HoldsTheLastThread | backend/app/services/document_ingestion.py:205-242 | after any history the document holds tags and sections of the thread that was ingested last |
| Documents.IngestAfterEdits | backend/app/services/document_ingestion.py:200-213 | after any editor operations the same thread makes a new version if and only if they changed the title that counts |
| Documents.FreezingIsHarmless | backend/app/services/document_ingestion.py:200-204 | hiding, restoring and reindexing do not change that title although they freeze it |
| Documents.ReplayOnce | backend/app/workers/source_sync.py:503-519 | processing a beginning of a batch and then the batch is processing the batch |
| Documents.ReplayIsExact | backend/app/workers/source_sync.py:503-534 | the same for any number of crashed attempts |
| Documents.CrashesLeaveNoTrace | backend/app/workers/source_sync.py:503-534 | a traversal with crashes ends in the documents of the crash-free one |
| Documents.IngestedRow | backend/app/services/document_ingestion.py:199-242 | what an ingestion stores, field by field: the content under the title that counts, its chunks numbered at the version, its revision, the index statuses |
| Documents.DocumentRow.Ingest | backend/app/services/document_ingestion.py:165-261 | the row holds the content of the thread, under the editor's title unless that is blank, with the chunker's chunks for it; version, revision and index statuses move if and only if the content changed |
| Documents.DocumentRow.CreateRevision | backend/app/services/document_ingestion.py:457-504 | the new revision is added and only the newest are kept |
| Documents.DocumentRow.ReplaceChunks | backend/app/services/document_ingestion.py:507-549 | the rows are exactly the drafts, at the document's version, numbered from zero |
| Documents.DocumentRow.RebaseChunks | backend/app/services/editor.py:479-502 | every chunk moves to the new version and keeps ordinal and text |
| Documents.DocumentRow.UpdateMetadata | backend/app/services/editor.py:191-238 | the title is replaced, the version bumped, the chunks rebased, the index outdated |
| Documents.DocumentRow.Hide | backend/app/services/editor.py:241-280 | hides from ACTIVE and OUTDATED, and refuses otherwise without a change |
| Documents.DocumentRow.Restore | backend/app/services/editor.py:283-322 | restores from HIDDEN to the status the index statuses had decided, and refuses otherwise without a change |
| Documents.BulkDocuments | backend/app/services/editor.py:378-475 | every named document is changed exactly once, however often it is named; the outcomes say where |
| Deduplication.EveryRunHasOneOriginal | backend/app/services/document_ingestion.py:432-454 | in every state of any interleaving at most one document of a hash is not a duplicate |
| Deduplication.EveryVerdictWasJudged | backend/app/services/document_ingestion.py:432-454 | over every run a new duplicate has the hash of its target, which was another document and an original when the lock was taken |
| Deduplication.ClosesCycleIff | backend/app/services/document_ingestion.py:452-454 | making d a duplicate of c closes a cycle if and only if d is reached from c |
| Deduplication.CommitKeepsAcyclicIff | backend/app/services/document_ingestion.py:432-454 | a commit keeps the graph acyclic if and only if its target does not lead back |
| Deduplication.OriginalLeadsNowhere | backend/app/services/document_ingestion.py:438-448 | a target that is still an original leads nowhere |
| Deduplication.SerialStaysAcyclic | backend/app/services/document_ingestion.py:432-454 | over every serial run the duplicates stay acyclic |
| Deduplication.SerialIsARun | backend/app/services/document_ingestion.py:432-454 | a serial run is one of the interleavings |
| Deduplication.SwapMakesACycle | backend/app/services/document_ingestion.py:432-454 | two documents that swap hashes at the same time make a cycle |
| Deduplication.Store.Deduplicate | backend/app/services/document_ingestion.py:432-454 | the verdict is UNIQUE if and only if no other row has the hash and is an original, and otherwise names the first such row |
| Deduplication.Store.Ingestions | backend/app/services/document_ingestion.py:432-454 | ingestions interleaved in any way are a run of the model, and keep one original per hash |
| ImportPool.EverySchedule | backend/app/scripts/import_stackexchange_dump.py:434-495 | in every state of every schedule the counters add up, no thread is ingested twice, and failures stay within the limit plus the other workers |
| ImportPool.SchedulesEnd | backend/app/scripts/import_stackexchange_dump.py:434-500 | no schedule is longer than three steps a thread and three a worker |
| ImportPool.NobodyStarves | backend/app/scripts/import_stackexchange_dump.py:424-440 | a worker that has not returned can always take a step |
| ImportPool.AtTheEnd | backend/app/scripts/import_stackexchange_dump.py:498-508 | without a stop every thread was ingested exactly once and counted; after one the rest was drained |
| ImportPool.FailuresReachTheBound | backend/app/scripts/import_stackexchange_dump.py:462-473 | the bound on failures is reached |
| ImportPool.Import.Run | backend/app/scripts/import_stackexchange_dump.py:422-508 | under any schedule the pool ends, and reports an error if and only if the failures reached their limit |
| ImportPool.Import.TakeTask | backend/app/scripts/import_stackexchange_dump.py:436-443 | a sentinel ends the worker, a stop drains the thread, otherwise its ingestion starts |
| ImportPool.Import.CountOutcome | backend/app/scripts/import_stackexchange_dump.py:454-486 | one outcome, one counter, and the stop at the limit |
| EventStream.SplitIsExact | frontend/src/api/httpApi.ts:313 | the parts hold no blank line in any of its four forms, with the blank lines between them they are the text, and each of these is the leftmost |
| EventStream.SplitInTwo | frontend/src/api/httpApi.ts:310-315 | splitting what has arrived and its last part again with the next piece is splitting the whole |
| EventStream.FirstStays | frontend/src/api/httpApi.ts:313 | the first blank line found stays the first when more text arrives |
| EventStream.Reader.Feed | frontend/src/api/httpApi.ts:311-315 | one read keeps handled blocks and buffer equal to the split of all that was read |
| EventStream.Reader.Finish | frontend/src/api/httpApi.ts:318 | the remainder is handled unless it is blank |
| EventStream.Reader.ReadAll | frontend/src/api/httpApi.ts:310-318 | for every chopping the handled blocks are those of the whole text |
| RateLimit.RecentIsInWindow | backend/app/core/rate_limit.py:22-23 | popping from the left leaves exactly the entries inside the window |
| RateLimit.CheckMirrors | backend/app/core/rate_limit.py:17-26 | the deque decides as a recount of the whole accepted history and goes on mirroring it |
| RateLimit.EveryIntervalWithinLimit | backend/app/core/rate_limit.py:17-26 | every half-open interval as long as the window holds at most `limit` accepted calls |
| RateLimit.InMemoryRateLimiter.Check | backend/app/core/rate_limit.py:17-26 | the answer is the recount's; a disabled limiter accepts and remembers nothing |
| EmbeddingCache.TouchRefines | backend/app/services/search.py:99-109 | moving or putting a key keeps the refinement, with eviction |
| EmbeddingCache.EvictionRefines | backend/app/services/search.py:108-109 | an evicted entry has `capacity` distinct keys touched since |
| EmbeddingCache.ExpiryRefines | backend/app/services/search.py:96-98 | deleting an expired entry keeps the refinement |
| EmbeddingCache.QueryEmbeddingCache.Get | backend/app/services/search.py:91-100 | a hit is the last value put and not expired, and becomes the newest entry; a miss of a put key means expiry or `capacity` other keys since, and leaves no entry of the key; the others stay |
| EmbeddingCache.QueryEmbeddingCache.Put | backend/app/services/search.py:102-109 | the value is the newest; the size stays within the capacity |
| EmbeddingCache.QueryEmbedding.LookUp | backend/app/services/search.py:326-338 | what is found is the direct embedding; another configuration means an empty cache |
| EmbeddingCache.QueryEmbedding.OtherRequests | backend/app/services/search.py:326-344 | steps of other requests, in any number, keep every cached value a direct embedding |
| EmbeddingCache.QueryEmbedding.Query | backend/app/services/search.py:326-344 | with a deterministic provider the answer is the direct embedding, whatever other requests do while the provider is asked, and it is in the cache afterwards |
| Sorting.SortIsSorted | backend/app/search/fusion.py:69-75 | sorting keeps the elements and puts them in order |
| Sorting.SortIsStable | backend/app/rag/context.py:73 | elements that the order does not tell apart keep their order |
| Fusion.WeightedRrf | backend/app/search/fusion.py:35-76 | an error if and only if k, limit or a weight is not positive; otherwise the first candidates of the union under the strict order, each with its sums, ranks and payload, and none omitted before one returned |
| Fusion.RowAfter | backend/app/search/fusion.py:47-57 | one candidate adds exactly its share to its row |
| Fusion.CutIsFusion | backend/app/search/fusion.py:58-76 | sorting and cutting the rows gives the fusion |
| Fusion.OrderIsBySumRankId | backend/app/search/fusion.py:69-75 | the order is by the larger sum, then the better rank, then the id |
| Fusion.SingleShare | backend/app/search/fusion.py:48-51 | with distinct ids a contribution is the single share of the rank |
| Fusion.RowAtPlaces | backend/app/search/fusion.py:47-57 | with distinct ids, the row of a candidate from its two places: ranks, scores, payload and weight / (k + rank) from each list |
| Fusion.DominantComesFirst | backend/app/search/fusion.py:69-76 | a candidate ranked no worse in both lists and better in one is returned before the other |
| ContextText.WordsSplit | backend/app/rag/context.py:146-147 | white space parts words, whatever stands around it |
| ContextText.WordsOne | backend/app/rag/context.py:146-147 | text without white space is one word, its capital letters made small |
| ContextText.OverlapsIff | backend/app/rag/context.py:150-154 | two texts overlap if and only if they are equal or one of at least 80 characters stands in the other |
| ContextText.StripIsSlice | backend/app/rag/context.py:90 | stripping takes white space off the two ends and nothing else |
| ContextText.ShortenedAt | backend/app/rag/context.py:157-162 | a text that is too long is cut at the last line feed in the second half of what fits, or else at the maximum, loses the white space before the cut and gets the suffix |
| ContextText.TokensAre | backend/app/rag/context.py:165-166 | four characters make a token, and no text has none |
| ContextText.BlockIsBlock | backend/app/rag/context.py:127-139 | the block of a source, written out: number, title, tags, section and text in their places |
| ContextText.EscapedExactly | backend/app/rag/context.py:142-143 | exactly the brackets around one to four digits are replaced, and no other character |
| ContextBuilder.SelectionIsRight | backend/app/rag/context.py:70-82 | groups are the selected passages by document in rank order, none overlaps another, and one is left out only when it repeats or its document is full |
| ContextBuilder.GroupTextIs | backend/app/rag/context.py:90 | the text of a group is its passages without white space at the ends and one empty line between two |
| ContextBuilder.AddedIff | backend/app/rag/context.py:84-121 | a group is left out if and only if the sources are full, or it does not fit and fewer than forty tokens are free; otherwise it is the next source, whole if it fits and else shortened to the free tokens |
| ContextText.EscapedIsUnmarked | backend/app/rag/context.py:142-143 | no citation mark is left in an escaped text |
| ContextText.TruncatedIsUnmarked | backend/app/rag/context.py:157-162 | shortening makes no mark and exceeds its maximum by the suffix at most |
| ContextBuilder.AddedWithinLimits | backend/app/rag/context.py:86-121 | a further source keeps the citations, the count and the bounded overrun |
| ContextBuilder.PassesTheBudgetIff | backend/app/rag/context.py:93-100 | one source passes the budget if and only if it is shortened and its frame, with the suffix, is longer than the gap that the cut leaves |
| ContextBuilder.ContextPassesTheBudgetIff | backend/app/rag/context.py:83-121 | the whole context passes the budget if and only if some group does so at its turn |
| ContextBuilder.CutAtTheLimitPasses | backend/app/rag/context.py:157-162 | a text that is cut at the limit itself, not after white space, passes the budget whatever its frame |
| ContextBuilder.PassesTheBudgetExample | backend/app/rag/context.py:94-100 | four hundred letters without a break pass a budget of forty tokens |
| ContextBuilder.NothingAfterTheBudget | backend/app/rag/context.py:94-97 | once the budget is reached nothing is appended |
| ContextBuilder.AssembledIsRight | backend/app/rag/context.py:83-121 | sources stand for distinct documents in rank order |
| ContextBuilder.TextLength | backend/app/rag/context.py:122-124 | the count covers the text except the blank lines between blocks |
| ContextBuilder.Builder.Select | backend/app/rag/context.py:71-82 | the loop computes the selection |
| ContextBuilder.Builder.Assemble | backend/app/rag/context.py:83-124 | the loop computes the assembly, and stopping at `max_sources` loses nothing |
| ContextBuilder.Builder.Build | backend/app/rag/context.py:70-124 | citations from one, distinct documents by rank and chunk id, at most `max_sources`, unmarked passages that show the groups; the text is the blocks of the sources, written out, with one empty line between two; tokens within the budget, or above it exactly when some group overflows and then by the overrun of one shortened source |

## Left out

- Transport, sessions and external services: PostgreSQL, Qdrant, Stack Exchange, Ollama and the reranker appear as state that is assigned, or as parameters.
- `db/repositories/jobs.py`: claim, lease and heartbeat; the lease is taken to be exclusive, and losing it is one of the points where a run stops.
- HTML parsing and sanitising, Unicode normalisation and SHA-256: texts are words, marks, backticks, blanks and line ends, and hashes are injective.
- Characters: the word and white-space classes of Unicode are given by the character's class; case folding and digits are the ASCII ones; `splitlines` knows only line feeds and carriage returns.
- Drafts carry no language label, contextual text or content hash; they are functions of what the model has.
- DocumentReindex.ActiveIndex.Reindex: does not model a missing active version, a provider that answers wrongly, or changes of other rows between its steps; what a change of the document does meanwhile is in `ReindexQueue`.
- ReindexQueue.EveryRunIsCurrentIff: does not model deletions of documents, a full reindex, the setting that turns automatic jobs off, or jobs with different maximal attempts; publication in Qdrant is in `DocumentReindex`.
- IndexBuild.FullReindex.Attempt: does not model the sample dense query, the progress rows, or a corpus that changes while it is built.
- IndexActivation.SearchIndex.Activate: does not model a transaction that takes effect and is reported as failed.
- SourceSync.Sync.Run: does not model the dry run, the rollover of the initial window, the change of mode between attempts in AUTO, or the overlap of two listings with the same date.
- SourceSync.Sync.ProcessBatch: stores the set of question ids only; what an ingestion does to a document is in `Documents`.
- Documents.BulkDocuments: does not model the bulk reindex, which writes no version; as an operation it is `Reindex`.
- Documents.DocumentRow.Ingest: does not model answers, tags, metadata hash, processing status or a chunker that raises; the last rolls the transaction back.
- Documents.CrashesLeaveNoTrace: assumes distinct questions in one batch and no edits in between.
- Deduplication.Store.Deduplicate: takes the lock per hash; the code locks a 32-bit digest of it, which can only make two transactions wait for each other.
- ImportPool.Import.Run: does not model what an ingestion stores, the progress lines or the list of remembered errors.
- EventStream.Reader.ReadAll: does not model `handle`, which may throw and end the stream.
- EmbeddingCache.QueryEmbedding.Query: does not model a provider that fails, after which nothing is put.
- Fusion.WeightedRrf: computes over real numbers, so rounding is not modelled.
- Version cleanup and validation jobs, dashboards, reports, audit rows, events, permissions, sessions and the user interface: no property beyond a single body.
