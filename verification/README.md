# Proofs about the memory store

A Dafny model of the parts of this repository whose behaviour is hardest to see from one function:
the markdown chunker and the incremental index it feeds, the hybrid search over that index, the task
tracker, the message queue, and the formatting of search results for the assistant. Each component
is modelled as its source is written (loops and tables that change step by step as methods and
classes, queries and predicates as functions), and every method is proved against a specification
that does not use its flags and counters. The theorems are about those specifications.

| file | what it models |
|---|---|
| `Text.dfy` | whitespace of the two runtimes, strip, lines, code fences |
| `Sections.dfy` | splitting a document at its headers; the title |
| `Chunking.dfy` | chunks of one section: cuts, sizes, overlap windows |
| `Documents.dfy` | chunks of a document; conservation of its text |
| `Cleaning.dfy` | the text that is sent to the embedding model |
| `Indexer.dfy` | the document processor over its two tables, with failing requests and statements |
| `IndexRuns.dfy`, `Rebuild.dfy`, `Counts.dfy` | what the store keeps over every run; agreement with a rebuild; the reported counts |
| `Search.dfy`, `StoredSearch.dfy` | the hybrid query; the same over a store that the indexer left |
| `Tracker.dfy`, `TrackerProgress.dfy` | the task tracker; when its recommendations lead to the end |
| `Queue.dfy` | publishers and a reader over a bounded queue |
| `Fences.dfy` | closing code fences in search results |

`dafny verify dfyconfig.toml` checks everything.

## What came out

- Chunk windows cover a section and copy only the end of the chunk before, for every integer
  `CHUNK_OVERLAP`. Chunk starts advance for every value but 0: with 0 the slice `[-0:]` copies the
  whole chunk, so each chunk starts at the first line of its section (`StartsIncrease`, with an
  instance in `OverlapZeroRepeats`).
- The `in_table` flag of the chunker has no effect: a cut needs a blank line, and a blank line has
  just cleared the flag (`ChunkSection` keeps the flag, the windows it is proved against do not).
- Whatever requests and statements fail, every stored row and its chunks come from the file as some
  event of the run saw it, chunk indexes stay 0, 1, .. and no two chunks share path and index
  (`RowOrigin`, `ChunkIndexesRun`, `PathAndIndexUnique`). So DISTINCT removes nothing and the search
  bound holds over every index that a run can leave (`DistinctOverIndex`, `BoundOverIndex`).
- That the chunks belong to the row's own text survives every failure but one: the row is rewritten and
  clearing its old chunks fails (`InvariantKeptExactly`; `StaleRunExists` has such a run).
- The hash is stored before the chunks, so a failure after it leaves a file marked as done that is not
  completely indexed. `MarksTooEarly` says which calls do that, `KeptUntilChanged` that nothing but an
  edit or force mode undoes it, and `IncrementalExactly` that, after any history, a run without failures
  agrees with a rebuild from scratch exactly on the files that are not marked too early.
- For a file that needs work a batch size of 0 always answers false, and a negative one can answer
  true though no chunk is stored (`SuccessMeansIndexed`).
- Hybrid search is a 2-approximation of brute-force scoring. Cosine similarity can be negative, and
  then the bound needs a slack. `BoundExactly` gives all bounds that hold when semantic parts are at
  least -w: factor c and slack t with c >= 2 and t >= (c - 1) * w. They are the same for all limits, so
  the doubled candidate lists of the SQL function do not improve the bound. With the weights of the API
  the slack is 0.7 (`ApiBound`).
- A tracker run that follows the recommendations always finishes on a well-formed catalogue. The
  shipped catalogue is not one: the dependencies at `list-tasks.py:40` and `list-tasks.py:48` are not
  full keys and the task named at `list-tasks.py:85` does not exist, so the tasks that have them are
  never recommended (`UnknownDependencyBlocks`).
- Completing a later phase first can leave the tracker with nothing to recommend and work to do
  (`OutOfOrderStuck`; `StuckExactly` says in which states). A run that completes no task while an
  earlier phase has an open one, in any order otherwise, never gets there (`OrderlyNeverStuck`).
- A reader that has received the end marker has handed on everything published, even if the queue is
  removed afterwards (`SinglePublisher`); a removal before that loses messages (`RemovedTooEarly`).
  Every run of any number of publishers ends (`RunsFinish`).
- `formatContent` and the chunker agree on which chunks have balanced fences except for lines that
  hide a fence behind U+001C..U+001F, which Python strips and Go does not (`CutChunkUnchanged`,
  with a chunk that is changed in `CutChunkChanged`).

## Model

| member | source | states |
|---|---|---|
| Text.SpaceTable | src/memory-store/services/processor/document_processor.py:310 | the code points that strip removes in Go, and the four more that it removes in Python |
| Text.FenceStrip | src/memory-store/services/processor/document_processor.py:391 | the strip applied to every chunk neither adds nor removes a fence line, so fence parity survives it |
| Text.FenceMeaning | src/memory-store/services/processor/document_processor.py:365 | a fence line is one that goes on with three backquotes after some whitespace |
| Sections.HeaderRegex | src/memory-store/services/processor/document_processor.py:310-326 | a line is a header exactly when its stripped form matches one to six hashes, whitespace and text; the hash count is the only possible one and the text follows the longest whitespace run |
| Sections.SplitByHeaders | src/memory-store/services/processor/document_processor.py:301-340 | the loop yields exactly the sections that are a line and all lines up to the next header |
| Sections.HeaderSplitRoundTrip | src/memory-store/services/processor/document_processor.py:301-340 | joining section contents gives back the document, sizes sum to its length plus one, sections after the first start with a header and no other line is one, header fields are those of the first line |
| Sections.HeaderSplitUnique | src/memory-store/services/processor/document_processor.py:301-340 | no other list of sections has those properties |
| Sections.ExtractTitle | src/memory-store/services/processor/document_processor.py:506-515 | the loop returns the text of the first title line, else the title made from the file name |
| Sections.TitleExact | src/memory-store/services/processor/document_processor.py:506-515 | the title is what follows "# " in the first stripped line that begins with it, and the fallback exactly when no line does |
| Sections.TitleAgreement | src/memory-store/services/processor/document_processor.py:506-512 | for any content that title is the header of the first level-1 section whose stripped header line begins with "# " |
| Chunking.ChunkSection | src/memory-store/services/processor/document_processor.py:342-417 | the loop with its fence flag, table flag, running size and recopied overlap yields the chunks of the section's windows, whose definition has no table flag and no running size |
| Chunking.CutMeaning | src/memory-store/services/processor/document_processor.py:385-388 | a line is a cut exactly when it is all whitespace, an even number of fence lines stands up to it, and the chunk text with its line ends is longer than the limit |
| Chunking.OverlapRule | src/memory-store/services/processor/document_processor.py:401-402 | the number of lines copied for every integer overlap: that many, none when the chunk is not longer, all of them for 0, all but the first ones for a negative one |
| Chunking.GreedyCutting | src/memory-store/services/processor/document_processor.py:368-403 | a list of windows is the section's exactly when every window but the last ends at its first cut, starts where the overlap rule says, and the last reaches the end with nothing left to copy |
| Chunking.KindExactly | src/memory-store/services/processor/document_processor.py:346-356 | a chunk is marked as a complete section exactly when the section is within the limit, and then it is the only one and holds the whole section |
| Chunking.WindowsTile | src/memory-store/services/processor/document_processor.py:368-407 | the lines the windows add tile the section, and the lines a window repeats end the window before it, for every integer overlap |
| Chunking.StartsIncrease | src/memory-store/services/processor/document_processor.py:401-402 | window starts strictly increase if and only if the overlap is not 0 or there is one window; with overlap 0 all start at the first line |
| Chunking.OverlapZeroRepeats | src/memory-store/services/processor/document_processor.py:401-402 | a concrete section of three lines whose two chunks, with overlap 0, both start at its first line |
| Chunking.FenceSafeCuts | src/memory-store/services/processor/document_processor.py:371-388 | each cut has an even number of fence lines before it, and so have the lines between two cuts |
| Documents.ChunkMarkdown | src/memory-store/services/processor/document_processor.py:272-299 | the chunks of all sections in order, numbered from 0, each with the total and the path |
| Documents.ChunksAreWindows | src/memory-store/services/processor/document_processor.py:272-299 | every chunk is the stripped text of consecutive document lines with their exact size, does not cross a header and carries the header it is under; it is marked as a complete section exactly when the lines from that header to the next are within the limit; the lines the chunks add tile the document |
| Documents.TextConservation | src/memory-store/services/processor/document_processor.py:272-299 | what a chunk copied is the end of the chunk before it, and without the copies the chunks spell exactly the non-whitespace characters of the document |
| Cleaning.CleanContract | src/memory-store/services/processor/document_processor.py:260-270 | cleaned text has no leading, trailing or doubled whitespace, at most 8003 characters, and cleaning it again changes nothing, cut or not |
| Cleaning.CleanKeepsWords | src/memory-store/services/processor/document_processor.py:260-270 | it is the words of the input joined by single blanks, and of that the first 8000 characters and three dots when it is longer |
| Indexer.DocumentProcessor.constructor | src/memory-store/services/processor/document_processor.py:209-218 | a processor over whatever the two tables already hold |
| Indexer.DocumentProcessor.GenerateEmbedding | src/memory-store/services/processor/document_processor.py:220-258 | the retry loop consumes the attempts that the retry rule says and, on success, returns the embedding of the cleaned text |
| Indexer.RetryExact | src/memory-store/services/processor/document_processor.py:231-258 | an embedding arrives exactly when one of the attempts is answered and all before it failed as requests; any other error ends the attempts |
| Indexer.ThreeAttempts | src/memory-store/services/processor/document_processor.py:231-258 | a chunk goes in exactly when one of its first three requests is the first that did not fail, is answered, and the insert after it succeeds |
| Indexer.DocumentProcessor.ProcessChunkBatch | src/memory-store/services/processor/document_processor.py:517-546 | rows are appended for the chunks before the first failing embedding or insert, and no others |
| Indexer.DocumentProcessor.ProcessBatches | src/memory-store/services/processor/document_processor.py:494-497 | storing in batches of any positive size is storing all chunks in order up to the first failure; zero and negative sizes store none |
| Indexer.InsertExact | src/memory-store/services/processor/document_processor.py:517-546 | m of n chunks go in exactly when the embedding and the insert of each of the first m succeed at their ticks and, if m < n, one of those of chunk m fails |
| Indexer.InsertInTwo | src/memory-store/services/processor/document_processor.py:494-497 | inserting some chunks and, if all went in, the rest is inserting all of them |
| Indexer.DocumentProcessor.IsFileProcessed | src/memory-store/services/processor/document_processor.py:424-439 | true exactly when the stored hash is the file's; no answer for an unreadable file |
| Indexer.IndexableMeaning | src/memory-store/services/processor/document_processor.py:451-457 | a file is indexed exactly when it is there, decodes, and is not all whitespace |
| Indexer.DocumentProcessor.ProcessDocument | src/memory-store/services/processor/document_processor.py:441-504 | the tables, the clock and the answer after the call, for every outcome of every request and statement |
| Indexer.DocumentsExact | src/memory-store/services/processor/document_processor.py:460-487 | the document row written by a call, its kept or next id, and no change of documents and chunks when nothing is written |
| Indexer.DocumentProcessor.ProcessAllDocuments | src/memory-store/services/processor/document_processor.py:548-587 | the tables and the three counts after a run over a listing; each file counts once |
| IndexRuns.ProcessEffect | src/memory-store/services/processor/document_processor.py:471-504 | a call changes the view of its own path only, to the new row with the expected chunks up to the first failure, and keeps the table keys whatever fails |
| IndexRuns.RowOrigin | src/memory-store/services/processor/document_processor.py:441-504 | after any run, whatever failed, each row was made by an event of the run from the file as that event saw it, and its chunks are the first ones of the chunking of what that event or an earlier one saw |
| IndexRuns.StoredRow | src/memory-store/services/processor/document_processor.py:520-541 | after any run, whatever failed, each chunk row belongs to the document at its path, holds one of the chunks of that file as some event saw it, with its number and the total, and the embedding of its own cleaned text |
| IndexRuns.InvariantKeptExactly | src/memory-store/services/processor/document_processor.py:471-500 | from a good store a call leaves a good store if and only if it does not rewrite a row while clearing its old, non-matching chunks fails |
| Rebuild.FailedDeleteBreaks | src/memory-store/services/processor/document_processor.py:471-504 | a completely indexed file changes, its new row is written and clearing its chunks fails: whenever the old chunks do not begin the new ones, the run leaves a store that is not good |
| Rebuild.StaleRunExists | src/memory-store/services/processor/document_processor.py:471-504 | a concrete run of two events that does so |
| Rebuild.AnswerExactly | src/memory-store/services/processor/document_processor.py:441-504 | process_document answers true exactly for a file whose hash is stored, or one that can be indexed when both statements succeed, every chunk goes in and the batch size is not 0 |
| IndexRuns.StoreInvariant | src/memory-store/services/processor/document_processor.py:471-500 | over every run in which clearing old chunks succeeded, with any edits, failing upserts, embeddings and inserts, each row was made from one state of its file and its chunks are the first ones of the chunking of the stored content |
| IndexRuns.ChunkIndexesRun | src/memory-store/services/processor/document_processor.py:528-539 | after any run, whatever failed, stored chunk indexes of a document run 0, 1, .. in insertion order without gaps or repeats, under its own path |
| Rebuild.SuccessMeansIndexed | src/memory-store/services/processor/document_processor.py:441-504 | for a file that needed work and any batch size, the answer is true only if the store holds what indexing without failures stores, and exactly then unless clearing old chunks failed or the batch size is 0; that is the whole chunking for positive batch sizes only |
| Rebuild.OthersUntouched | src/memory-store/services/processor/document_processor.py:548-587 | a run changes no row but those of listed, readable, non-blank files |
| Rebuild.RunIndexesFiles | src/memory-store/services/processor/document_processor.py:548-587 | with an injective hash, from a sound store, whatever deletes, embeddings or inserts fail, every such file then has the row of a rebuild; from a good store with successful deletes also the first of its chunks |
| Rebuild.IncrementalExactly | src/memory-store/services/processor/document_processor.py:548-587 | with an injective hash, after any history in which anything failed, a run without failures gives a listed, readable, non-blank file the view of a from-scratch index if and only if the file was not marked too early before; other paths are unchanged |
| Rebuild.MarksTooEarly | src/memory-store/services/processor/document_processor.py:471-504 | a call with work to do marks its file too early exactly when it writes the row and then a chunk does not go in, or the old chunks are not cleared and are not the complete ones |
| Rebuild.KeptUntilChanged | src/memory-store/services/processor/document_processor.py:441-447 | while a file keeps its bytes and the tables are not emptied, no run changes what the store says about it, whatever fails |
| Rebuild.IncrementalEqualsRebuild | src/memory-store/services/processor/document_processor.py:548-587 | with an injective hash, no failures and any batch size, after any history the index equals a from-scratch index on every such file and is unchanged elsewhere |
| Rebuild.RerunFixedPoint | src/memory-store/services/processor/document_processor.py:441-447 | a second run on unchanged files changes neither table, issues no request or statement, processes nothing and skips every readable, non-blank file, even after embedding failures |
| Rebuild.RerunSkipsExactly | src/memory-store/services/processor/document_processor.py:557-584 | with an injective hash, in a sound store (every run leaves one), the skipped files are exactly those |
| Counts.CountsExact | src/memory-store/services/processor/document_processor.py:560-585 | skipped, processed and failed are the numbers of listed positions whose file is marked as done at that moment, or whose call answers true or false there |
| Counts.FaultFreeCounts | src/memory-store/services/processor/document_processor.py:560-585 | without failures and over distinct paths, from any store: files marked as done are skipped, of the others those that can be indexed are processed, the rest fail |
| Counts.FirstRunCounts | src/memory-store/services/processor/document_processor.py:560-585 | a first run without failures processes exactly the readable, non-blank files and fails on the rest |
| Search.RankedExists | src/memory-store/services/api/search_api.py:209-210 | every pool has a list in descending score order cut at the limit, so the theorems below speak of answers that exist |
| Search.JoinExact | src/memory-store/services/api/search_api.py:226-233 | the full outer join has one row for each candidate id, holding exactly the sides on which it appears |
| Search.DistinctRemovesNothing | src/memory-store/services/api/search_api.py:226-233 | when the shown columns tell chunks apart, DISTINCT keeps one row for each joined row, with its own weighted parts |
| Search.TwoApproximation | src/memory-store/init.sql:138-180 | for any pool size of at least the limit, a chunk that is not returned has a true weighted score of at most twice any returned score plus the slack for negative similarities |
| Search.ExactWhenPoolCovers | src/memory-store/services/api/search_api.py:199-235 | when the candidate lists are as long as the table, an answer is possible if and only if it is a brute-force top list |
| Search.AllReturnedWhenLimitCovers | src/memory-store/services/api/search_api.py:226-235 | with a limit of at least the table size the answer is every chunk, once each, with its true score, in descending order |
| Search.FactorTwoIsTight | src/memory-store/services/api/search_api.py:199-235 | for all limits 1 <= k <= m, all positive weights and every score, a chunk left out can have exactly twice the score of all returned ones |
| Search.SlackIsReached | src/memory-store/services/api/search_api.py:206 | for all limits 1 <= k <= m, all positive weights and every w >= 0 an answer with semantic parts of at least -w reaches the bound with slack w |
| Search.BoundExactly | src/memory-store/init.sql:138-180 | for all limits 1 <= k <= m and positive weights, the bound with factor c and slack t holds for every answer with semantic parts of at least -w if and only if c >= 2 and t >= (c - 1) * w |
| StoredSearch.PathAndIndexUnique | src/memory-store/services/processor/document_processor.py:290-297 | in a sound store (every run leaves one) no two chunk rows share file path and chunk index |
| StoredSearch.DistinctOverIndex | src/memory-store/services/api/search_api.py:226-233 | over the index left by any run, whatever failed in it, DISTINCT removes nothing, for any weights, ranks and limits |
| StoredSearch.AnswerOverIndex | src/memory-store/services/api/search_api.py:226-238 | over the index of any run and for any limits, each row of the answer shows the path, title and entry of a chunk of the two lists with the weighted parts of the lists it is on; a chunk of the lists that is not shown scores no more than any row |
| StoredSearch.BoundOverIndex | src/memory-store/services/api/search_api.py:226-235 | over the same index the approximation bound holds |
| StoredSearch.AllChunksOverIndex | src/memory-store/services/api/search_api.py:226-235 | over the same index, with a limit of at least its size, the answer shows every stored chunk once, with its own path, the title of its document and both weighted parts, in descending order |
| StoredSearch.ScoreOfText | src/memory-store/services/api/search_api.py:206-222 | over the same index, the true score of a chunk is 0.7 times one minus the distance of the embedding of its own cleaned text, plus 0.3 times the rank of its text if it matches |
| StoredSearch.ApiBound | src/memory-store/services/api/search_api.py:199-235 | over the same index, with cosine distances of at most 2, a chunk that the API leaves out has a true score of at most twice each returned one plus 0.7 |
| Tracker.TaskTracker.constructor | list-tasks.py:184-195 | the state in the state file if there is one, else the default state |
| Tracker.TaskTracker.CompleteTask | list-tasks.py:268-294 | the completions, notes and current phase after the call, and its answer, as Complete gives them |
| Tracker.CompletionExact | list-tasks.py:268-294 | a known task gets its key completed and a non-empty note recorded, and the current phase becomes the next one exactly when the phase is then done and not the last; an unknown task changes nothing |
| Tracker.TaskTracker.GetNextTasks | list-tasks.py:255-266 | the nested loops with their early return give exactly the first max(1, limit) tasks whose dependencies are all complete, that are not, and whose phase is current or follows a finished current phase |
| Tracker.NextTasksExactly | list-tasks.py:222-266 | the same of the list that the other properties of the tracker speak of |
| Tracker.NextTasksAreFirst | list-tasks.py:255-266 | those are the ready tasks among the first n of the catalogue, n stopping short only when the limit is met |
| Tracker.CompleteKeepsInv | list-tasks.py:268-294 | completing any task, in any order, keeps all completions and the run invariant |
| Tracker.RunInvariant | list-tasks.py:268-305 | after any requests only catalogue tasks are complete, and the current phase is the first or directly follows a complete one |
| Tracker.ProgressBounds | list-tasks.py:314-327 | over every run the percentage is within 100 and the bar within 30 cells; either is full exactly when all tasks are done |
| Tracker.ProgressExact | list-tasks.py:314-327 | the percentage times the total is a hundred times the completed tasks, and the bar has the whole part of 30 times their share |
| Tracker.UnknownDependencyBlocks | list-tasks.py:222-228 | a task with a dependency that is no task's full key is never recommended in any run |
| TrackerProgress.KeysTellTasksApart | list-tasks.py:231 | joined keys are injective when phase ids have no dot |
| TrackerProgress.FollowingRecommendations | list-tasks.py:222-305 | on a well-formed catalogue a run of recommended tasks never gets stuck, the list is empty exactly when all tasks are done, after exactly as many steps as there are tasks |
| TrackerProgress.OrderlyNeverStuck | list-tasks.py:222-305 | on a well-formed catalogue, after any run that completes no task while one of an earlier phase is open (in any order otherwise, ready or not, repeated or unknown), the list is empty exactly when all tasks are done |
| TrackerProgress.StuckExactly | list-tasks.py:222-266 | from any state the list is empty if and only if all is done, or the current phase is unfinished and each of its open tasks waits for a dependency |
| TrackerProgress.OutOfOrderStuck | list-tasks.py:286-290 | on a well-formed catalogue, completing a later phase first can leave nothing recommended while work is open |
| Queue.MessageQueue.constructor | src/internal/ipc/msgqueue.zig:41-59 | the queue is opened with whatever is in it |
| Queue.MessageQueue.Publish | src/internal/ipc/msgqueue.zig:112-122 | the message is appended, or the queue is gone and the call errs as the waiting decides |
| Queue.MessageQueue.Done | src/internal/ipc/msgqueue.zig:124-134 | the same for the end marker |
| Queue.MessageQueue.Next | src/internal/ipc/msgqueue.zig:78-92 | the first message is taken; nothing is handed on for the end marker or an error |
| Queue.MessageQueue.Deinit | src/internal/ipc/msgqueue.zig:62-67 | the queue and its contents are gone |
| Queue.SenderIsTold | src/internal/ipc/msgqueue.zig:112-134 | a send succeeds exactly while the queue is there; after its removal a publisher that was waiting for room gets the end error, any other the write error |
| Queue.Conservation | src/internal/ipc/msgqueue.zig:78-134 | in every reachable state, received, dropped and queued messages are, in this order, the initial ones and then all sent ones in send order |
| Queue.QueueBounded | src/internal/ipc/msgqueue.zig:78-134 | in every reachable state the queue holds no more than its capacity, or than was found in it |
| Queue.ReaderYields | src/internal/ipc/msgqueue.zig:78-92 | the reader hands on the data of that order up to the first end marker, all of it once it has received the marker, even if the queue is then removed; it stops only at the marker or at a removed queue |
| Queue.PublisherOrder | src/internal/ipc/msgqueue.zig:112-134 | what the reader took from a publisher is the beginning of what the publisher was to send, however publishers interleave |
| Queue.SinglePublisher | src/internal/ipc/msgqueue.zig:124-134 | with a fresh queue and one publisher that calls done, a reader that has received the end marker has handed on exactly what was published, even if the queue is then removed, and any other reader a prefix of it |
| Queue.RemovedTooEarly | src/internal/ipc/msgqueue.zig:78-92 | a concrete run in which the queue is removed first and the reader stops with nothing |
| Queue.Progress | src/internal/ipc/msgqueue.zig:78-134 | for any publishers and any messages found in the queue: until the reader has stopped or the queue is removed, the reader or any publisher that is to call done can act |
| Queue.RunsFinish | src/internal/ipc/msgqueue.zig:78-134 | a run of any publishers, one of which calls done, has at most three actions for each message to be sent, one for each found and one more; one in which only removal is left has stopped with all data up to the first end marker |
| Queue.SinglePublisherFinishes | src/internal/ipc/msgqueue.zig:78-134 | with one publisher and a fresh queue that is 3 * (messages + 1) + 1 actions, and a run in which only removal is left has stopped with everything handed on |
| Fences.FormatContent | src/cmd/ai.go:166-185 | the loop appends one fence line exactly when the fence lines do not pair up |
| Fences.FormatContract | src/cmd/ai.go:166-185 | the result has an even number of fence lines, begins with the input, is a fixed point, and differs from the input exactly when the input's count is odd; then its lines are those of the input and one line of three backquotes |
| Fences.CutChunkUnchanged | src/cmd/ai.go:172-182 | a chunk that ended at a cut and repeated no lines has even fences for the chunker, and is left unchanged if and only if its disguised fence lines are even in number |
| Fences.CutChunkChanged | src/cmd/ai.go:173-182 | a concrete document of one section whose first chunk ends at a cut, repeats no line, has balanced fences for the chunker, and is changed |
| Fences.NoSeparators | src/cmd/ai.go:173 | a line without U+001C..U+001F is never disguised |

## Left out

- HTTP servers, endpoints, argument parsing, logging, printing, sleeping between requests: no effect on the state modelled here.
- MD5, UTF-8 decoding with newline translation, the embedding model, cosine distance, `ts_rank` and the file-name title are parameters; hash injectivity is a named hypothesis where it is used.
- Timestamps, file size and modification time, and the front matter of the unused markdown parser object are not in the tables.
- The approximate index scan of the vector extension: ranked lists are exact, in real arithmetic, with ties in any order.
- Failing SELECT statements and lost connections; two processing threads at once; a file that changes between its reads within one call.
- `chunk['metadata'].update`: the numbered chunks are built as new values, so aliasing between the chunk dictionaries is not captured.
- `semantic_search` with a threshold, `fulltext_search` alone and `search_similar`: each is one ranked list, which the hybrid query contains twice.
- IndexRuns.StoreInvariant: assumes that clearing old chunks succeeds; the exact effect of a failing deletion is IndexRuns.InvariantKeptExactly, and what holds whatever fails is IndexRuns.RowOrigin. Force mode empties both tables in one event.
- Search.BoundExactly: similarities and ranks are any reals; that cosine similarity is at most 1 is not used, and under it a factor below 2 can be made up for by a larger slack.
- Tracker.RunInvariant: runs start from the default state, not from an arbitrary state file; `CompleteKeepsInv` and `StuckExactly` hold from any state.
- Tracker.ProgressBounds: percentages are real numbers, not floating point.
- `get_task_status`, which prefixes dependencies differently from `is_next_task`; searching tasks by text; a state file that is not valid JSON or lacks a field.
- Queue.Conservation: the byte limit is a number of messages of one size; `ftok`, `msgget` errors and signals are not modelled.
- Disposal of a queue while another thread is inside a call is modelled only as the two errors a sender can see.
- `extractSection`, `extractKeyPoints` and the rest of the context file: easy text formatting.
