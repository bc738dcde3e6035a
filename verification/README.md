# Verified models of the document assistant's core algorithms

The repository is a local retrieval-augmented writing assistant: a Python backend that ingests,
searches and watches over documents, and a TypeScript front end with a streaming editor. This project
models its self-contained algorithms and state machines in Dafny and proves what they are for.

The code that changes things step by step is written as methods with loops or as classes, each proved
against a specification; what the specifications mean is proved as lemmas about all inputs, all runs
or all reachable states. `dafny verify dfyconfig.toml` checks everything.

## The modules

| files | what they model |
|---|---|
| `Diff.dfy` | the LCS diff of two document trees, its hunks and their suppression while streaming |
| `Watcher.dfy`, `WatcherSafety.dfy`, `WatcherRecovery.dfy`, `WatcherCrashes.dfy`, `WatcherEngine.dfy`, `Payloads.dfy` | the watcher's seven checkpointed steps: the machine with crashes, its invariant, what recovery achieves, how a run depends on where the crashes fell, the engine's code, the stored payloads |
| `Citations.dfy`, `Lines.dfy` | citations printed as markers in text and read back |
| `EventStream.dfy` | the incremental reader of server-sent events |
| `Chunker.dfy`, `ChunkedDocument.dfy`, `Words.dfy` | the greedy chunker, the numbered chunks of a document with their parents, Python's text operations |
| `IngestQueue.dfy`, `IngestManager.dfy` | the ingestion queue's protocol between awaits, and the manager's methods |
| `QueryCache.dfy` | the semantic LRU cache against the history of touches |
| `Sections.dfy` | headings, the section at a cursor, its path and its end |
| `Mmr.dfy`, `Fusion.dfy`, `Ranking.dfy`, `Results.dfy` | marginal relevance, reciprocal rank fusion, stable descending order |
| `Clustering.dfy` | greedy clustering of poorly answered queries |
| `EmbeddingCache.dfy` | batched embedding through a pruned table |
| `Wrappers.dfy`, `Sequences.dfy` | optional values and outcomes; lists without a value |

Clustering, diagnosis, synthesis, embedding and similarity are functions given as parameters. Scores
are real numbers. Digests of distinct texts are distinct. Integers do not overflow in either language
of the repository. A character is a UTF-16 unit in the TypeScript models and a code point in the Python
ones. Clocks appear as one choice, whether a running row is young, stale, or passed over: its timestamp
cannot be read, or marking it as failed raises, which the code swallows.

## Where the code does not do what one would expect

Each of these is a theorem, with the exact condition under which the expectation does hold and, where the
condition alone does not show the failure, a concrete input or history.

- A watcher run that dies inside step 5 after a first commit and is resumed is marked done without the
  entries synthesized before the crash (`InterruptedRunCanLoseEntries`; `CrashInLoopLosesCommitted` says
  which entries remain). A run that dies before step 2 is committed clusters its grades in the order in
  which a selection by identifiers returns them (`ClustersCanBeReordered`, `CrashBeforeClusteringReorders`).
  `FinishedRunIsDetermined` says for every history what a finished run is, `FinishedRunIsCrashFreeExactly`
  when it is the crash-free one, `CrashesElsewhereAreHarmless` which crashes never matter.
- An attempt that dies between appending to the memory file and saving step 6 appends the entries again
  (`EntriesCanBeAppendedTwice`, `CrashBeforeCheckpointAppendsAgain`). A finished run's entries are in the
  memory once and once more for each such crash (`FinishedRunIsDetermined`).
- Chunk identifiers that determine the attributes are not enough for citations to survive printing and
  parsing (`SharedCitationIdLosesAttributes`): the registry is keyed by citation identifier. From an empty
  registry a document is restored exactly when it has the form that reading produces, equal chunk
  identifiers mean equal citations, and each citation is the last under its citation identifier or has
  nothing to lose (`FreshRoundTripExactly`); with an old registry, exactly when besides no old entry answers
  in its place (`RoundTripExactly`).
- Two runs of a project can be running (`TwoRowsCanBeRunning`): a running row that is passed over stays as it
  is beside the new one. At most one is running throughout a history exactly when no row is ever inserted
  beside a running one (`OneRunningExactly`), which passing over is needed for (`AtMostOneRunning`).
- Two identical documents get hunks exactly when they are above the size cut-off (`DiffIsEmptyExactly`).
- A job cancelled while it waits for a permit is never marked done, so the queue's count of unfinished
  items stays above the pending ones (`LeakHappens`), by exactly the number of such jobs
  (`UnfinishedIsPendingAndLeaked`).
- Jobs are not always removed from memory: one refused by a full queue stays for good (`RefusedJobsStay`),
  and so does one cancelled before it started (`CancelledEarlyStays`). A registered job stays in all
  futures exactly when it cannot start any more, does not run and does not wait for removal
  (`StaysRegisteredExactly`).
- A cancelled job does not stay cancelled when it was running (`RunningJobIsOverwritten`); it does exactly
  when it is not running (`CancelledLastsExactly`).
- Two pages with the same number that both have tables share chunk identifiers, and nothing else makes
  identifiers clash (`IdsAreDistinctExactly`).
- Without any embedding, a negative `top_n` above `-n` makes the re-ranker drop results from the end instead
  of returning none; otherwise it returns as many as asked (`LengthIsAsAskedExactly`).
- `avg_retrieval_grade` of a cluster is the grade of its first query (`AverageCanMissTheMean`); it is the mean
  exactly when the members' grades sum to that many times the first (`AverageIsTheMeanExactly`).

## Model

| member | source | states |
|---|---|---|
| Diff.FlattenLeaves | frontend/src/lib/diffUtils.ts:50-68 | the walk returns the text leaves with their offsets and moves the shared offset by the node's width |
| Diff.LeavesAreLaid | frontend/src/lib/diffUtils.ts:50-68 | leaves lie inside their node and each starts no earlier than the one before it ends |
| Diff.LeavesAreRuns | frontend/src/lib/diffUtils.ts:50-68 | with a document as the editor counts it - one before and after a container's children, one per character - the leaves are its runs of text, one each, in order, at their offsets |
| Diff.LeavesHoldTheLetters | frontend/src/lib/diffUtils.ts:50-68 | in those positions each leaf's stretch holds exactly its characters, and each character lies in exactly one leaf |
| Diff.LcsTable | frontend/src/lib/diffUtils.ts:71-81 | every entry of the filled table is the LCS length of the two prefixes |
| Diff.LcsIsLongest | frontend/src/lib/diffUtils.ts:71-81 | that number is attained by a common subsequence and no common subsequence is longer |
| Diff.ScriptTransforms | frontend/src/lib/diffUtils.ts:118-146 | the script of the backtrack turns one text sequence into the other, at cost m + n - 2 LCS |
| Diff.ScriptIsCheapest | frontend/src/lib/diffUtils.ts:118-146 | no edit script that turns one sequence into the other is cheaper |
| Diff.ScriptIsPreferred | frontend/src/lib/diffUtils.ts:121-146 | among the cheapest scripts the backtrack has no choice: seen from the end it keeps before it inserts before it deletes |
| Diff.TransformsSurvivors | frontend/src/lib/diffUtils.ts:118-146 | dropping the deleted leaves from one side and the inserted ones from the other leaves the same sequence |
| Diff.ReplayRebuilds | frontend/src/lib/diffUtils.ts:118-146 | the old sequence and the inserted texts alone rebuild the new sequence |
| Diff.HunksFollowScript | frontend/src/lib/diffUtils.ts:125-145 | delete hunks mark exactly the deleted leaves of the original and insert hunks the inserted leaves of the update, in order |
| Diff.HunksAreInOrder | frontend/src/lib/diffUtils.ts:125-145 | deletions and insertions come in the list in the order in which the script makes them |
| Diff.HunksAreNumbered | frontend/src/lib/diffUtils.ts:128-144 | one hunk per changed leaf, numbered from the last backwards |
| Diff.Backtrack | frontend/src/lib/diffUtils.ts:115-148 | the loop over a correct table, unshifting hunks, produces the hunks of that script |
| Diff.ComputeLcsDiff | frontend/src/lib/diffUtils.ts:89-149 | the whole diff, on both sides of the cut-off, is the specified list of hunks |
| Diff.DiffIsMinimal | frontend/src/lib/diffUtils.ts:113-148 | below the cut-off there are m + n - 2 LCS hunks, and no edit script touches fewer leaves |
| Diff.LargeDiffIsHulls | frontend/src/lib/diffUtils.ts:101-110 | above the cut-off there are one deletion and one insertion, each the smallest stretch over all leaves of its side |
| Diff.DiffIsSound | frontend/src/lib/diffUtils.ts:101-148 | for all documents some script turns the old texts into the new and everything it changes lies in a hunk of that kind |
| Diff.DiffIsEmptyExactly | frontend/src/lib/diffUtils.ts:101-148 | there are no hunks exactly when the texts are equal and the documents are below the cut-off |
| Diff.DiffIsOrdered | frontend/src/lib/diffUtils.ts:50-68 | hunks of one kind are in document order and do not overlap; no two of a kind share a number |
| Diff.SuppressTrailingDeletions | frontend/src/lib/diffUtils.ts:204-212 | while streaming, the longest prefix not ending in a deletion is shown; no insertion is ever dropped |
| Payloads.ClustersReadBack | backend/watcher/engine.py:22-28 | clusters read back from their stored text equal what was stored |
| Payloads.DiagnosesReadBack | backend/watcher/engine.py:31-47 | diagnoses, with their embedded clusters, read back as stored |
| Payloads.EntriesReadBack | backend/watcher/engine.py:50-55 | memory entries read back as stored |
| WatcherSafety.NextKeeps | backend/watcher/engine.py:77-173 | every step, exception, crash and arriving grade keeps the invariant of rows, payloads, counters, grades and memory |
| WatcherSafety.AlwaysInv | backend/watcher/engine.py:271-424 | the invariant holds after every history |
| WatcherRecovery.CheckpointsCanBeResumed | backend/watcher/engine.py:323-377 | after every history the payload of each completed step decodes to what was computed, and each cluster index was committed once, in order |
| WatcherRecovery.EachClusterHasItsEntries | backend/watcher/engine.py:335-424 | clusters are diagnosed in order and the entries of their diagnoses follow one another in that order |
| WatcherRecovery.GradesAreMarkedByUpdatedRuns | backend/watcher/engine.py:364-392 | a grade is processed exactly when a run covering it marked its grades, and such a run has updated the memory and committed step 6 |
| WatcherRecovery.UnprocessedInOrder | backend/watcher/engine.py:294-298 | what is fetched are the grades not processed, each once, in the grades' order, and no other |
| WatcherRecovery.UnprocessedExactly | backend/watcher/engine.py:294-298 | an identifier is fetched exactly when some grade with it is unprocessed |
| WatcherRecovery.FreshIsNewestHundred | backend/watcher/engine.py:294-299 | the fresh grades are the newest min(100, n) of the n unprocessed ones |
| WatcherRecovery.FailedRunsLeaveGradesEligible | backend/watcher/engine.py:281-307 | grades covered only by runs that never reached step 6 are still fetched as unprocessed |
| WatcherRecovery.OneRunningExactly | backend/watcher/engine.py:77-133 | throughout a history at most one run is running exactly when no row is ever inserted while another is running |
| WatcherRecovery.AtMostOneRunning | backend/watcher/engine.py:77-133 | as long as no running row is passed over, at most one run of the project is running, after every history |
| WatcherRecovery.CheckpointsOnlyGrow | backend/watcher/engine.py:135-173 | no continuation lowers a counter, drops a saved payload or reopens a closed run |
| WatcherRecovery.RaisedRunIsClosed | backend/watcher/engine.py:394-396 | a run whose attempt raised is failed with its checkpoint as it was, and never taken up again |
| WatcherRecovery.StaleRowIsClosed | backend/watcher/engine.py:92-101 | a row found stale is failed with its checkpoint as it was, and never taken up again |
| WatcherRecovery.InterruptedRunCanFinish | backend/watcher/engine.py:271-396 | an attempt left alone completes its run within the remaining steps and clusters |
| WatcherRecovery.RunAtWorkIsFound | backend/watcher/engine.py:77-133 | after every history, also with several running rows, the run being worked on is the one a new attempt would find |
| WatcherRecovery.CrashResumesTheRun | backend/watcher/engine.py:77-133 | after any history, the attempt that follows a crash works on the same run with everything durable as it was |
| WatcherRecovery.CrashInLoopLosesCommitted | backend/watcher/engine.py:398-424 | after any history, a crash in the loop: the resumed run is done with the entries of the diagnoses from the interrupted one on |
| WatcherRecovery.CrashBeforeClusteringReorders | backend/watcher/engine.py:281-333 | after any history, a crash before step 2: the clusters saved are those of the grades in re-read order |
| WatcherRecovery.CrashBeforeCheckpointAppendsAgain | backend/watcher/engine.py:364-377 | after any history, a crash between the memory update and its checkpoint: the next attempt appends the saved entries a second time |
| WatcherRecovery.CrashBeforeCloseIsHarmless | backend/watcher/engine.py:379-396 | after any history, a crash between marking the grades and closing the run leaves the database that no crash would have left |
| WatcherRecovery.InterruptedRunCanLoseEntries | backend/watcher/engine.py:398-424 | a concrete history whose finished run has fewer entries than the crash-free run |
| WatcherCrashes.EventsTell | backend/watcher/engine.py:271-424 | after every history, the position of the last crash in a run's loop, whether its grades were re-read, and how often its update was cut off, read off the events, are what its trail records |
| WatcherCrashes.FinishedRunIsDetermined | backend/watcher/engine.py:323-396 | after every history a finished run is determined by its grades, by whether a crash or a re-used row reordered them, and by the position of the last crash in its loop; its entries were appended once, plus once per crash between update and checkpoint |
| WatcherCrashes.FinishedRunIsCrashFreeExactly | backend/watcher/engine.py:323-396 | after every history a finished run is the crash-free one exactly when clustering does not see the order used and the diagnoses before the last crash in its loop give no entries |
| WatcherCrashes.CrashesElsewhereAreHarmless | backend/watcher/engine.py:271-424 | a run none of whose crashes fell before step 2, in the loop after a commit, or between update and checkpoint, and whose row was not made from another's reordered grades, is crash-free with its entries appended once |
| WatcherCrashes.GradesAreNewestFirst | backend/watcher/engine.py:294-299 | after every history the grades are those that arrived, each once, the newest first |
| WatcherCrashes.NewRowCoversFreshGrades | backend/watcher/engine.py:281-307 | after every history an inserted row covers what some earlier selection chose; if no row was running then, the fresh grades, all of them still unprocessed |
| WatcherCrashes.UninterruptedAttempt | backend/watcher/engine.py:271-396 | without interruption an attempt with grades to work on finishes a run: the crash-free one of the fresh grades, or the running one as its crashes so far left it |
| WatcherCrashes.EntriesCanBeAppendedTwice | backend/watcher/engine.py:364-377 | a concrete history whose finished run has its entries in the memory twice |
| WatcherCrashes.ClustersCanBeReordered | backend/watcher/engine.py:281-333 | a concrete history whose finished run has other clusters than the crash-free run |
| WatcherCrashes.TwoRowsCanBeRunning | backend/watcher/engine.py:92-133 | a concrete history: a crash leaves a running row, the next attempt passes it over and inserts a second |
| WatcherEngine.WatcherCheckpoint.FindRunning | backend/watcher/engine.py:77-111 | the latest running row is resumed when young, failed when stale, and left as it is when its timestamp is unreadable or failing it raises |
| WatcherEngine.WatcherCheckpoint.Create | backend/watcher/engine.py:113-133 | a new row at step 0 covering the grades is committed and cached |
| WatcherEngine.WatcherCheckpoint.SaveStep | backend/watcher/engine.py:135-146 | the step and the given payloads are committed; payloads not given stay |
| WatcherEngine.WatcherCheckpoint.SaveClusterIdx | backend/watcher/engine.py:148-155 | the loop position is committed |
| WatcherEngine.WatcherCheckpoint.MarkDone | backend/watcher/engine.py:157-164 | the row is closed as done at the last step |
| WatcherEngine.WatcherCheckpoint.MarkFailed | backend/watcher/engine.py:166-173 | the cached row is closed as failed; without one the call raises and changes nothing |
| WatcherEngine.SynthesizeWithCheckpoint | backend/watcher/engine.py:398-424 | the per-cluster loop takes the machine's steps, whatever raises, dies or arrives in between |
| WatcherEngine.RunForProject | backend/watcher/engine.py:271-396 | the whole engine call takes exactly the machine's steps, with grades arriving at any point, and ends idle |
| Citations.Registry.Set | frontend/src/lib/citationSerializer.ts:29-34 | a key keeps its place in the insertion order when set again |
| Citations.Walk | frontend/src/lib/citationSerializer.ts:20-38 | the walk prints a node and registers its citations in order |
| Citations.SerializeCitationsToMarkers | frontend/src/lib/citationSerializer.ts:16-46 | the document's text and the registry it leaves |
| Citations.PrintedIsItsLeaves | frontend/src/lib/citationSerializer.ts:20-43 | whatever the tree and the kinds of its nodes, it prints as its texts and markers in document order |
| Citations.CitesAreLeaves | frontend/src/lib/citationSerializer.ts:22-34 | the citations stored are those among the leaves, in document order |
| Citations.LeftmostMarkerIsFound | frontend/src/lib/citationSerializer.ts:76-80 | the search finds the leftmost marker from its start index |
| Citations.FoundIsMarker | frontend/src/lib/citationSerializer.ts:76-80 | what is found matches the marker expression |
| Citations.IndexByChunk | frontend/src/lib/citationSerializer.ts:58-62 | the reverse index answers each chunk id with the entry stored last among the registry's entries |
| Citations.ParseLine | frontend/src/lib/citationSerializer.ts:70-101 | the match loop reads a line into text runs and citations |
| Citations.DeserializeCitationMarkers | frontend/src/lib/citationSerializer.ts:52-105 | one paragraph per non-blank line |
| Citations.TextRoundTrip | frontend/src/lib/citationSerializer.ts:36-104 | for every text and registry, printing what was read gives the non-blank lines of the text |
| Citations.ParsedIsCanonical | frontend/src/lib/citationSerializer.ts:52-105 | whatever the text and the registry, what is read is canonical |
| Citations.DocumentIsReadBack | frontend/src/lib/citationSerializer.ts:20-104 | reading a document's print gives the document with attributes from the registry exactly when it is canonical: non-blank one-line paragraphs of citations with usable ids and non-adjacent texts in which no marker can start |
| Citations.RoundTripExactly | frontend/src/lib/citationSerializer.ts:16-105 | for every document and registry: it is restored exactly when it is canonical, equal chunk ids mean equal citations, and each is the last under its citation id with no different old entry behind it, agrees with an old entry that stays, or is bare |
| Citations.FreshRoundTripExactly | frontend/src/lib/citationSerializer.ts:16-105 | from an empty registry a document is restored exactly when it is canonical, equal chunk ids mean equal citations, and each is the last under its citation id or bare |
| Citations.DocumentRoundTrip | frontend/src/lib/citationSerializer.ts:16-105 | with identifiers that determine the attributes, a document is restored exactly when it is canonical and no different old entry for a cited chunk stays behind the citation's key |
| Citations.RegisteredContents | frontend/src/lib/citationSerializer.ts:29-34 | whatever the citations, the updated registry keeps the old keys in place, adds new ones behind, and holds the last citation stored under each key or what it held before |
| Citations.SharedCitationIdLosesAttributes | frontend/src/lib/citationSerializer.ts:29-34 | two citations of different chunks under one citation id: the first one's attributes are lost |
| EventStream.HandleLines | frontend/src/lib/streaming.ts:37-47 | a complete `data: ` line with a payload that parses yields one event, any other line none |
| EventStream.DataLineYields | frontend/src/lib/streaming.ts:37-47 | a `data: ` line yields what its payload, without surrounding white space, parses to, unless it is empty or `[DONE]` |
| EventStream.ReadPieces | frontend/src/lib/streaming.ts:29-48 | after any pieces the buffer is the unfinished line and the events are those of the finished lines |
| EventStream.CreateStream | frontend/src/lib/streaming.ts:9-65 | the events are those of the lines of the whole text, the last one included, however it was cut; a bad status, a missing body and a broken read throw |
| EventStream.BufferedSplit | frontend/src/lib/streaming.ts:33-35 | splitting the buffer and a new piece is splitting the whole text |
| EventStream.BrokenStreamYieldsPrefix | frontend/src/lib/streaming.ts:29-61 | a broken connection has yielded a prefix of what any longer text would have yielded |
| EventStream.BrokenStreamYieldsExactly | frontend/src/lib/streaming.ts:29-61 | a connection broken at any point inside a frame has yielded exactly the payloads sent before, and this one if its line was complete |
| EventStream.ReaderInvertsServer | frontend/src/lib/streaming.ts:29-61 | framed payloads come back in order, for any cutting and either line ending |
| Words.SentencesKeepWords | backend/ingestion/chunker.py:32-36 | cutting a text into sentences loses no word, and no sentence is empty |
| Words.SentencesAreCut | backend/ingestion/chunker.py:32-36 | the sentences are the stripped non-empty pieces of the text, broken exactly after each `.`, `!` or `?` that white space follows |
| Words.BrokenOneWay | backend/ingestion/chunker.py:32-36 | a text can be broken like that in one way only |
| Words.StripIsExact | backend/ingestion/chunker.py:36 | stripping drops the white space at both ends and nothing else |
| Words.JoinSpaceAppend | backend/ingestion/chunker.py:99-117 | joining puts one space between each two parts and nothing else |
| Chunker.StoredCountBelowTwice | backend/ingestion/chunker.py:27-29 | the stored count of a joined chunk is below twice the sum it was gathered by |
| Chunker.TakeOverlap | backend/ingestion/chunker.py:123-132 | the longest tail of the gathered sentences whose estimates fit the overlap |
| Chunker.HardSplit | backend/ingestion/chunker.py:104-117 | a sentence too long by itself becomes word chunks that carry a few words over and respect the size bound |
| Chunker.ChunkText | backend/ingestion/chunker.py:89-138 | chunks are windows of the words without gaps, each ending later, to the last word; each starts where the overlap rule says, takes every string that fits and ends where the next one does not |
| Chunker.ChunksAreDetermined | backend/ingestion/chunker.py:89-138 | that rule leaves no choice: any two lists of chunks that follow it are equal |
| Chunker.ChunksRebuildTheText | backend/ingestion/chunker.py:89-138 | removing the overlaps from the chunks rebuilds the words of all sentences, in order |
| Chunker.StoredCountsAreBounded | backend/ingestion/chunker.py:97-155 | a stored count is below twice chunk size and overlap, or the chunk has at most max(1, overlap // 5) + 1 words |
| ChunkedDocument.AddParentChunks | backend/ingestion/chunker.py:165-185 | each four consecutive children get one parent, recorded on them in place |
| ChunkedDocument.ChunkPage | backend/ingestion/chunker.py:41-162 | tables first, then the cut text, numbered from the offset, with parents for more than three text chunks |
| ChunkedDocument.ChunkDocument | backend/ingestion/chunker.py:190-211 | the pages' chunks one after another |
| ChunkedDocument.NumberedThrough | backend/ingestion/chunker.py:198-211 | a chunk's index is its position in the document |
| ChunkedDocument.PageHolds | backend/ingestion/chunker.py:63-149 | a page's chunks carry its tables and then its texts, in order, each with a quarter of its length as count, tables and only they flagged as tables |
| ChunkedDocument.DocumentHolds | backend/ingestion/chunker.py:190-211 | a document's chunks carry exactly the tables and texts of its pages, in order |
| ChunkedDocument.PageIsNumbered | backend/ingestion/chunker.py:63-149 | tables are identified by their place on the page, texts by their place in the document |
| ChunkedDocument.TextIsAnnotated | backend/ingestion/chunker.py:141-185 | a text's annotations are the page's own and, with more than three texts, its parent and the joined text of its four |
| ChunkedDocument.IdsAreDistinctExactly | backend/ingestion/chunker.py:63-77 | identifiers are distinct exactly when no two pages of one number both have tables |
| ChunkedDocument.ParentsHoldTheirChildren | backend/ingestion/chunker.py:158-185 | chunks share a parent exactly when they fall into the same four, and its text has exactly their words |
| ChunkedDocument.CutKeepsEveryWord | backend/ingestion/chunker.py:81-138 | through stripping, sentences and chunks no word of a page's text is lost or reordered |
| IngestQueue.NextKeeps | backend/core/ingest_queue.py:71-198 | every step keeps: one place per job, statuses that fit it, permits plus running jobs, the queue's bound, a living worker |
| IngestQueue.TaskDoneNeverRaises | backend/core/ingest_queue.py:119-126 | `task_done` is only called with a positive count |
| IngestQueue.AcceptedJobsAreAccountedFor | backend/core/ingest_queue.py:119-192 | accepted jobs are pending, dropped, leaked or ended, in every run; starts, ends and permits balance |
| IngestQueue.SubmitQueuesExactly | backend/core/ingest_queue.py:71-98 | a submission goes to the end of the queue exactly when it is unbounded or has room |
| IngestQueue.FirstInFirstOut | backend/core/ingest_queue.py:119-128 | in every run the job submitted first leaves the queue first |
| IngestQueue.UnfinishedIsPendingAndLeaked | backend/core/ingest_queue.py:130-133 | the queue's count is the pending jobs plus those cancelled while waiting for a permit |
| IngestQueue.LeakHappens | backend/core/ingest_queue.py:130-133 | a concrete run that ends with nothing pending and one unfinished item |
| IngestQueue.StartsAtMostOnce | backend/core/ingest_queue.py:130-154 | in every run each job's function starts at most once |
| IngestQueue.NeverStarts | backend/core/ingest_queue.py:110-133 | a job cancelled before it holds a permit never starts |
| IngestQueue.SettledForever | backend/core/ingest_queue.py:150-165 | done and error are final, and so is cancelled once the job is not running |
| IngestQueue.JobShowsItsEvents | backend/core/ingest_queue.py:137-171 | in every run stage, percentage, chunks, error and progress events of a job are those of its own reports and end, in order, whatever else happens |
| IngestQueue.EndsForGood | backend/core/ingest_queue.py:150-165 | a job whose function returned is done in all futures, one whose function raised has failed |
| IngestQueue.CancelledLastsExactly | backend/core/ingest_queue.py:110-165 | a cancelled job stays cancelled in all futures exactly when it is not running |
| IngestQueue.RunningJobIsOverwritten | backend/core/ingest_queue.py:110-165 | a concrete run in which a running job is cancelled and then done |
| IngestQueue.StaysRegisteredExactly | backend/core/ingest_queue.py:71-198 | a registered job stays registered in all futures exactly when it cannot start, does not run and does not wait for removal |
| IngestQueue.RefusedJobsStay | backend/core/ingest_queue.py:95-98 | a job refused by a full queue never starts and is registered, as queued or cancelled, in all futures |
| IngestQueue.CancelledEarlyStays | backend/core/ingest_queue.py:110-133 | a job cancelled while queued or waiting never starts and is registered, as cancelled, in all futures |
| IngestQueue.MostRecentIsLast | backend/core/ingest_queue.py:100-105 | the status looked up is that of the document's job submitted last among the registered ones |
| IngestQueue.ExpireForgets | backend/core/ingest_queue.py:194-198 | removal forgets the job's registration and cancellation, and those of no other |
| IngestQueue.CancelsExactly | backend/core/ingest_queue.py:100-117 | cancelling changes the document's latest registered job, if queued or processing, and no other |
| IngestQueue.PendingJobsCanEnd | backend/core/ingest_queue.py:119-192 | from every reachable state with a permit to hand out all pending jobs can reach their ends |
| IngestManager.IngestQueueManager.Submit | backend/core/ingest_queue.py:71-98 | registers, then queues; raises exactly when the queue is full |
| IngestManager.IngestQueueManager.Cancel | backend/core/ingest_queue.py:110-117 | cancels the most recent job of the document if it is queued or processing |
| IngestManager.IngestQueueManager.WorkerStep | backend/core/ingest_queue.py:119-128 | takes the oldest item; a cancelled one is marked done, another becomes a waiting task |
| IngestManager.IngestQueueManager.Acquire | backend/core/ingest_queue.py:130-135 | a cancelled job gives its permit back, another starts |
| IngestManager.IngestQueueManager.ReportProgress | backend/core/ingest_queue.py:137-148 | the callback updates the running job and its progress queue |
| IngestManager.IngestQueueManager.Finish | backend/core/ingest_queue.py:150-192 | the outcome is recorded, the item marked done, the permit returned, removal scheduled |
| IngestManager.IngestQueueManager.ExpireJob | backend/core/ingest_queue.py:194-198 | the ended job and its cancellation are forgotten |
| QueryCache.SemanticQueryCache.Get | backend/cache/query_cache.py:36-75 | a hit returns what the answering entry holds and touches its key; without an answer nothing changes |
| QueryCache.SemanticQueryCache.FindNearest | backend/cache/query_cache.py:57-68 | the argmax loop finds the first entry of the greatest positive similarity, if any |
| QueryCache.SemanticQueryCache.Set | backend/cache/query_cache.py:77-93 | after storing, the cache again holds the keys touched last with their latest values, and the index is the identity on them |
| QueryCache.SemanticQueryCache.Evict | backend/cache/query_cache.py:87-93 | the oldest entries and their index keys go until the rest fits |
| QueryCache.SemanticQueryCache.Invalidate | backend/cache/query_cache.py:95-100 | the cache is empty and its history starts anew |
| QueryCache.SemanticQueryCache.HoldsExactly | backend/cache/query_cache.py:77-93 | in every valid state a key is held exactly when it was touched and fewer than max_size other keys were touched since |
| QueryCache.RememberedExactly | backend/cache/query_cache.py:83-93 | a key is held exactly when it was touched and fewer than max_size other keys were touched since |
| QueryCache.LatestIsLast | backend/cache/query_cache.py:77-85 | what is held under a key is what the last storing under it gave |
| QueryCache.OwnKeyAnswersExactly | backend/cache/query_cache.py:42-49 | a query is answered by the latest value stored under its own key exactly as long as that key is held |
| QueryCache.NearestAnswers | backend/cache/query_cache.py:51-73 | an answer under another key has the greatest cosine, the first of equal ones, positive and at least the threshold |
| QueryCache.SomethingAnswersExactly | backend/cache/query_cache.py:42-73 | there is an answer exactly when the key is held or some entry is positively similar and above the threshold |
| QueryCache.OneEntryAnswers | backend/cache/query_cache.py:42-73 | no two entries answer the same query |
| Sections.BuildHeadingsIndex | frontend/src/lib/editorUtils.ts:15-27 | every heading node once, at its offset, in ascending positions |
| Sections.SizeAdds | frontend/src/lib/editorUtils.ts:15-27 | offsets add up the sizes of the nodes |
| Sections.FindOwner | frontend/src/lib/editorUtils.ts:42-50 | the last heading of the run of headings at or before the position |
| Sections.PathTo | frontend/src/lib/editorUtils.ts:54-65 | the path holds exactly the headings above the owner, outermost first |
| Sections.BuildPath | frontend/src/lib/editorUtils.ts:54-65 | the backward walk keeps exactly the headings with no heading of the same or a higher rank behind them up to the owner |
| Sections.FindEnd | frontend/src/lib/editorUtils.ts:67-75 | the section ends at the next heading of the same or a higher rank, or with the document |
| Sections.GetSectionAtPosition | frontend/src/lib/editorUtils.ts:33-99 | none before the first heading; otherwise owner, path, joined path, start and end as above, for any given index |
| Sections.PathIsTheEnclosingHeadings | frontend/src/lib/editorUtils.ts:41-65 | the path is exactly the headings whose sections the position lies in, outermost first, of strictly increasing level |
| Sections.PathIsTheEnclosingTexts | frontend/src/lib/editorUtils.ts:54-65 | the returned path is the texts of exactly the headings whose sections the position lies in, outermost first, and the section starts at the innermost |
| Sections.JoinPathAppend | frontend/src/lib/editorUtils.ts:94 | joining puts ` > ` between each two texts and nothing else |
| Sections.JoinPathDetermines | frontend/src/lib/editorUtils.ts:94 | for texts without `>` the joined path determines the path |
| Sections.SectionContainsThePosition | frontend/src/lib/editorUtils.ts:67-76 | the section is not empty and contains the position |
| Sections.SectionsNestOrAreApart | frontend/src/lib/editorUtils.ts:67-76 | any two sections are nested or disjoint, nested exactly when one heading stands above the other |
| Ranking.BestComesFirst | backend/memory/mmr.py:71-93 | taking out the first best item again and again is a stable descending sort |
| Ranking.SortIsStable | backend/memory/hybrid.py:116 | items of one score keep their order |
| Ranking.SortSorts | backend/memory/hybrid.py:116 | sorting gives the same items in falling order |
| Mmr.PickBest | backend/memory/mmr.py:68-86 | the inner loop finds the first of the highest score among those left |
| Mmr.Rerank | backend/memory/mmr.py:21-98 | each pick is the first best among the remaining candidates given the ones before; how many there are, and what follows them |
| Mmr.BestTradesOff | backend/memory/mmr.py:56-86 | the next pick loses, weighed, no more in relevance against any candidate left than it gains in distance from the picks before; less, against one in front of it |
| Mmr.RankedTradesOff | backend/memory/mmr.py:56-93 | the same of every position of the result that a pick fills, against every candidate not ranked before |
| Mmr.LeastRedundantIsPicked | backend/memory/mmr.py:82-93 | of equally relevant candidates the one least like the results before it is picked |
| Mmr.EmbeddingKeepsOrder | backend/memory/mmr.py:45-46 | candidates and others keep the order of the input |
| Mmr.SliceIs | backend/memory/mmr.py:54 | without any embedding the first top_n come back, or all but the last -top_n |
| Mmr.PicksAreCandidates | backend/memory/mmr.py:63-93 | picks and remaining candidates together are the candidates |
| Mmr.RankedAreResults | backend/memory/mmr.py:21-98 | what comes back was put in, and no more often than it was put in |
| Mmr.FullWeightSorts | backend/memory/mmr.py:82-93 | with the whole weight on relevance the picks begin the stable descending sort by relevance |
| Mmr.FullWeightRanksByRelevance | backend/memory/mmr.py:21-98 | with the whole weight on relevance the result is the first top_n of that sort, then results without an embedding; a negative top_n counts as zero |
| Mmr.DistinctIdsKeepTheirRelevance | backend/memory/mmr.py:57-61 | with distinct identifiers each candidate is scored by its own relevance |
| Mmr.LengthIsAsAskedExactly | backend/memory/mmr.py:48-54 | min(top_n, n) results come back exactly when top_n is not negative, some result has an embedding, or -top_n is at least n |
| Fusion.ReciprocalRankFusion | backend/memory/hybrid.py:93-132 | each identifier once as its first result with its summed score, in the specified order; raises exactly when a shifted rank is zero |
| Fusion.ScoreOfOneMore | backend/memory/hybrid.py:105-110 | occurrence by occurrence, a result at position n of its list adds 1 / (k + n + 1) to its identifier's score |
| Fusion.FirstAppearances | backend/memory/hybrid.py:105-112 | identifiers stand in the order of their first occurrences, each with the result found there |
| Fusion.OrderIsTheIdsByScore | backend/memory/hybrid.py:105-116 | exactly the identifiers of the lists, without duplicates, by falling score, ties by first appearance |
| Fusion.SingleListKeepsItsOrder | backend/memory/hybrid.py:108-116 | one list without duplicates keeps its order |
| Fusion.AheadEverywhereComesFirst | backend/memory/hybrid.py:108-116 | in lists without duplicates, an identifier ahead of another wherever that one is listed scores higher and comes first |
| Fusion.SingletonsRankByFrequency | backend/memory/manager.py:219-221 | lists of one result each come out by frequency, then first appearance |
| Clustering.ClusterPoorQueries | backend/watcher/clustering.py:28-65 | the clusters are those of the leaders, each with all its members in order; with fewer vectors than grades it raises, with none it returns nothing |
| Clustering.TakeMembers | backend/watcher/clustering.py:38-63 | the inner loop takes exactly the free grades that belong to the leader |
| Clustering.EarliestLeaderTakesIt | backend/watcher/clustering.py:38-60 | a grade goes to the earliest leader whose similarity reaches the threshold, or leads itself |
| Clustering.EachGradeIsInOneCluster | backend/watcher/clustering.py:35-65 | every grade is in exactly one cluster |
| Clustering.LeadersAreApart | backend/watcher/clustering.py:38-60 | no leader is similar to an earlier one |
| Clustering.ClustersHoldTheirMembers | backend/watcher/clustering.py:41-65 | a cluster lists its members' queries and identifiers in order, is represented by its first, and has exactly the chunks retrieved for its members |
| Clustering.AverageIsTheMeanExactly | backend/watcher/clustering.py:41-46 | a cluster's average is the mean of its members' grades exactly when they sum to as many times the first one's |
| Clustering.AverageCanMissTheMean | backend/watcher/clustering.py:41-46 | two concrete similar queries whose cluster's average is 1 and whose mean is a half |
| EmbeddingCache.EmbeddingTable.EmbedWithCache | backend/memory/embeddings.py:89-169 | each text gets the cached vector or the provider's answer for it; what is stored and when it is pruned; every failure leaves the table unchanged |
| EmbeddingCache.EmbeddingTable.EmbedBatches | backend/memory/embeddings.py:118-140 | the batches' answers land in the slots of their texts, for any batch size of at least one |
| EmbeddingCache.AnswersUnfold | backend/memory/embeddings.py:118-131 | the provider is asked batch by batch, and one answer of the wrong length fails the call |
| EmbeddingCache.EmbeddingTable.Store | backend/memory/embeddings.py:61-86 | one row is inserted or replaced, with pruning at multiples of the interval |
| EmbeddingCache.EmbeddingTable.Prune | backend/memory/embeddings.py:35-58 | the oldest rows above the limit are deleted |
| EmbeddingCache.CachedIsUncached | backend/memory/embeddings.py:104-169 | with a coherent table and a provider that embeds text by text, the result is the embedding of each text, for any batch size |
| EmbeddingCache.StoringKeepsTheTable | backend/memory/embeddings.py:142-157 | storing true embeddings and pruning keep the table coherent and its keys unique |
| EmbeddingCache.CallKeepsTheTable | backend/memory/embeddings.py:104-157 | a call with a provider that embeds text by text succeeds and leaves a coherent table of unique keys coherent and unique |
| EmbeddingCache.FindAfterStoring | backend/memory/embeddings.py:142-152 | after storing, a key has what was stored last under it, and other keys what they had |
| EmbeddingCache.SecondCallAsksExactly | backend/memory/embeddings.py:104-169 | right after a call the provider is asked again for exactly the texts the call pruned: those with at least 50000 newer keys, if it pruned at all |
| EmbeddingCache.FindPruned | backend/memory/embeddings.py:35-58 | in a table of unique keys pruning leaves exactly the keys with fewer than the limit behind them |
| EmbeddingCache.KeysTellApart | backend/memory/embeddings.py:12-16 | exactly which triples of provider, model and text share a key, for all names |
| EmbeddingCache.ProvidersTellApartExactly | backend/memory/embeddings.py:12-16 | two providers never share an entry exactly when neither's name starts with the other's and a colon; names without a colon never do |

## Left out

- FastAPI routes, React components, Redux slices, ProseMirror and Tiptap calls, SQL text: input, output and user interface.
- Language models, embedding providers, Qdrant, spaCy, the cross-encoder and document parsing: parameters, or not part of the model.
- Session storage, compaction, project management, document templates, prompt builders, context thresholds: bookkeeping whose properties would be easy.
- Floating point: rounding, infinities and NaN are not modelled; similarities and scores are real numbers.
- The watcher's metrics, logging and entity extraction: no durable effect that recovery depends on; step 4 only advances the row.
- The watcher's clock: the four-hour age check is a choice made by each event; two engines at work on one project at the same time are not modelled.
- The memory file's own format: it is the list of entries appended, in order.
- The stream reader's byte decoding: pieces are decoded text; abort signals and JSON parsing are parameters.
- The citation codec's JSON content beyond node kind, text, attributes and children: marks are not part of the model.
- The chunker's identifiers are kept as their parts, and `int(chunk_size * overlap_pct)` is a parameter.
- The ingestion queue's error row in the database, the job's file name and arguments, and stopping the worker: no effect on the protocol.
- The order in which waiting tasks obtain permits: any waiting job may be next, which includes the semaphore's own order.
- The query cache's lock: each operation is one atomic step; trimming and lower-casing a query is a parameter.
- The section's HTML: extracted by the editor's own serializer.
- The embedding table is changed by one call at a time: rows that other writers add while a batch is being embedded are not modelled.
- WatcherRecovery.RunAtWorkIsFound: a new row sorts behind the older ones, as the timestamps that the code writes do; a text written by others into `started_at`, or a clock set back, is not modelled.
