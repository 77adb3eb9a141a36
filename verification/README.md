# The indexing core of lssd, verified

A Dafny model of the `lssd` daemon's indexing core and of the algorithms that feed and query it,
with proofs of what they promise. `dafny verify dfyconfig.toml` checks all of it.

The daemon keeps three stores that must agree: metadata tables in SQLite, a lexical index in
Tantivy, a vector index in an HNSW graph. A crawl finds files, a diff against the last snapshot
makes change events, and each event is written to all three stores. Around this stand the chunker,
the tombstoned vector search, the fusion of lexical and semantic hits, the streaming grep, and the
registry by which running searches are cancelled.

## How it is built

- `Meta`, `Lexical` and `Vectors` hold one class each for a store; a method's contract gives the
  new state as a function of the old one. `Daemons` holds the daemon that owns them. Its methods go
  through the statements of the source in order and are proved equal to the outcome functions of
  `Stores` and `Events`.
- `Stores` proves what every run keeps, with a failure at any statement. `Libraries` proves that
  every fault-free run of the three stores is a run of one simple library: per path an id, per id a
  document with its chunks and embeddings. `LibraryRuns` carries this over to the daemon's events
  and batches, `FailedWrites` and `FailedRuns` to runs in which writes fail, and `StoredText` adds
  what the rows say about the text.
- `Crawl`, `SnapshotLaws` and `CrawlMerge` go from the walks of the roots to snapshots and change
  events, `Refresh` and `RefreshRun` through a whole refresh, `Rounds` through any number of them,
  `Recovery` through the rebuilding of an empty vector index.
- `EventLaws` and `IndexedFiles` say field by field what events, batches and refreshes leave of a
  file, in terms of what the crawl saw and of the extracted text alone.
- `Utf8`, `Chunking` and `ChunkLaws` are the chunker, `VectorRuns` and `VectorUse` the tombstones and
  the cost of lazy rebuilds, `Fusion` the ranking, `Grep` the frames of a grep, `Sessions` the
  registry as a state machine over the steps of all connections, `SearchEnds` how searches end.
- `Common`, `Paths` and `Sorting` are shared.

## What the code does not promise

The model keeps the code as it is. Where a promise does not hold on all inputs, either the exact
condition under which it does is proved, in both directions, or what the code does instead:

- A write that fails behind its vector upsert (`update_ingest_time`, `complete_journal_entry`)
  rolls the tables back but leaves its vectors live, under ids that the next write gets again
  (`Stores.CoreKeptExactly`, `Stores.LeftOverIdIsReused`).
- A write that fails earlier rolls the tables back but not what it has done to the lexical writer
  and the vector index: the file may lose its document and its vectors until its next good write,
  and a new file may leave a document of no file for good
  (`FailedWrites.FailedRepresentsExactly`, `FailedRuns.RunsHeal`, `FailedRuns.NextWriteHeals`,
  `FailedRuns.NewFileWrittenAgain`, `FailedRuns.OrphanStays`).
- An embedding of length zero is stored as NULL but upserted as a vector, and so is one whose
  storing fails (`Libraries.WriteAgreesExactly`, `FailedWrites.CommittedAgreesExactly`).
- A recovered vector index agrees with the stored embeddings only if every row had one
  (`Recovery.RecoveryAgreesExactly`).
- The daemon tombstones chunks that never had a vector: the quarter bound fails while the graph is
  empty, and rebuilds can cost four points per deleted id (`VectorRuns.BoundExactly`,
  `VectorRuns.RebuildBudget`, `VectorRuns.FourIsReached`, `VectorUse.FileDeleteLegalExactly`,
  `VectorUse.TombstonesWithoutPoints`).
- A stored file whose new version cannot be extracted keeps its old rows in all stores, a file
  first stored by a modification is never counted in `indexed_documents`, and a file that vanishes
  while the daemon is down is never deleted (`Refresh.RefreshExactly`, `Rounds.StoredExactly`,
  `Rounds.CountedExactly`, `Rounds.OrphanStays`, `Rounds.StalePathStays`, `Rounds.LateFileIsNotCounted`).
- Overlapping refreshes can put an old entry into a newer snapshot (`Refresh.LateEventExactly`,
  `Rounds.OverlapRewindsSnapshot`).
- A search started under the id of one still in flight, cancelled or not, can end up out of reach
  of any cancel request (`Sessions.StartStaysExactly`, `Sessions.SecondSearchIsLost`,
  `Sessions.ResubmittedSearchIsLost`).
- Indexing a file again adds the aliases seen and removes none that is no longer seen, and an alias
  goes to whichever file was indexed under it last (`EventLaws.IndexedRows`,
  `IndexedFiles.FileIsIndexed`).
- A file's name, extension and hidden flag are those of the path its first sighting came by, which
  may be a link (`CrawlMerge.LowestRootCounts`).
- Across roots only one path of a duplicate becomes an alias (`CrawlMerge.AliasesCompleteExactly`,
  `CrawlMerge.SecondLinkIsLost`).
- `VectorIndex::search` with `top_k = 0` still returns live points (`Vectors.KeptNothingExactly`,
  `Vectors.NothingAskedOneFound`).
- The first lexical hit of a document counts twice in its score (`Fusion.FirstHitCountsTwice`).

## Assumptions

- The graph search is exact for the points in the graph; its answer is a parameter of
  `Vectors.VectorIndex.Search`, over an arbitrary metric into the reals.
- Extracted text, the embedder's answer and the statement that fails are inputs of an event. The
  embedder may be missing, fail, or return any list.
- Document ids, UUIDs in the source, are counted up from 0: never the same twice.
- A failing statement changes nothing itself. `upsert_root` fails where `create_journal_entry`
  does: after the id is chosen, before any store is touched. The statements whose errors the source
  ignores either succeed or, for stored embeddings, stop part of the way.
- Deletes are free of faults: an error inside the delete block returns with the transaction open.
- An event is processed in one go, with its snapshot and counter updates; the events of a batch
  come in any order. Two deletes of one file may overlap (`Stores.CoreOverRuns` takes the id of a
  delete as given).
- Distances and scores are exact reals.
- The walk of a root is a list of the regular files found, with policy and resolution decided.
- A cancelled token stays cancelled; a connection takes some number of frames before it fails.

## Model

| member | source | states |
|---|---|---|
| `Stores.CoreKeptExactly` | bin/lssd/src/main.rs:889-1035 | A write that fails and rolls back at any statement keeps keys, ids, journal and live vectors in order if and only if it does not fail behind a vector upsert that upserted something |
| `Stores.LeftOverIdIsReused` | bin/lssd/src/main.rs:986-1034 | The damage otherwise: the next write with an embedding, of whichever file, leaves two points of one id in the vector index, because ROLLBACK also takes back the chunk id counter |
| `Stores.OutcomeKeepsCore` | bin/lssd/src/main.rs:758-785 | Any failure before the vector upsert keeps every live vector on an existing chunk row, no stored point at an id still to be given out, and no journal entry |
| `Stores.RemovedKeepsCore` | bin/lssd/src/main.rs:834-876 | A delete keeps the same, even if the id found by its earlier lookup is gone by then |
| `Stores.CoreOverRuns` | bin/lssd/src/main.rs:719-1035 | Over every run of writes, deletes, failures and commits in any order, with failures before the vector upsert and lost embeddings, all of this holds |
| `Stores.LiveIdJoins` | crates/index-meta/src/db.rs:447-466 | Every live vector id has one point and joins to one chunk row and one file |
| `Stores.VectorAfterLaws` | bin/lssd/src/main.rs:915-1020 | Which ids a write, failing or not, takes out of the live vectors and which it brings in |
| `Stores.FailedLive` | bin/lssd/src/main.rs:889-1034 | Which ids are live after a rolled back write, against the chunk rows there still are |
| `Stores.CommittedLive` | bin/lssd/src/main.rs:889-1034 | Which ids are live after a committed write, against its new chunk rows |
| `Libraries.WriteAgrees` | bin/lssd/src/main.rs:975-1023 | A fault-free write keeps the live vectors equal to the stored embeddings, id by id and vector by vector, if the embedder is missing, fails or returns too few or too many vectors |
| `Libraries.WriteAgreesExactly` | crates/index-meta/src/db.rs:370-383 | It does so if and only if no embedding used is empty: an empty one is stored as NULL and yet upserted |
| `Libraries.RemovedAgrees` | bin/lssd/src/main.rs:834-876 | A delete keeps that agreement |
| `Libraries.PutRepresents` | bin/lssd/src/main.rs:889-1035 | A fault-free write of the three stores is a replacement of one entry in the library they stand for: same id for a known path, one document, consecutive chunk rows in order |
| `Libraries.DropRepresents` | bin/lssd/src/main.rs:820-882 | A delete by path forgets that path, its document, chunks and vectors, and nothing else |
| `Libraries.CommitRepresents` | bin/lssd/src/main.rs:677-686 | A lexical commit makes exactly the documents of the library searchable, each once |
| `Libraries.RunsRepresent` | bin/lssd/src/main.rs:719-1035 | Every fault-free run of the stores, from any state that holds a library, is a run of the library |
| `Libraries.RunThenCommit` | bin/lssd/src/main.rs:646-686 | After every fault-free run and a commit: one searchable document per stored file with its id, path and latest text, none for any other id, and live vector ids equal to the ids with a stored embedding |
| `Libraries.EmbeddingsReplaced` | bin/lssd/src/main.rs:1001-1010 | The stored embeddings after a write are the old ones without the file's and the new points |
| `StoredText.ChunkRowsHoldIndexedText` | bin/lssd/src/main.rs:736-756 | After every fault-free run the chunk rows of a stored file, in id order, are its header and the chunks of the text of its one lexical document, and these chunks rebuild that text |
| `StoredText.EntriesFit` | bin/lssd/src/main.rs:736-756 | Every library entry reached by a run has the chunk texts of its own document |
| `FailedWrites.FailedAgreesExactly` | bin/lssd/src/main.rs:889-1034 | After a failing write the live vectors are the stored embeddings if and only if it has neither tombstoned an embedded chunk of the old version nor upserted a vector |
| `FailedWrites.CommittedAgreesExactly` | bin/lssd/src/main.rs:998-1010 | After a write that goes through, they are if and only if every embedding used was stored and none was empty |
| `FailedWrites.FailedRepresentsExactly` | bin/lssd/src/main.rs:776-785 | After a failing write the stores hold the same library if and only if, besides, it fails before it removes the old document, or after it has added an equal one, or before it adds a document of a new file |
| `FailedWrites.FailedExcept` | bin/lssd/src/main.rs:889-1034 | A write that fails before its vector upsert leaves at most its own file in disorder, and nothing at all unless it has removed the old document or added one of a new file |
| `FailedRuns.RunsExcept` | bin/lssd/src/main.rs:719-1035 | Over every run in which writes may fail before their vector upsert, the stores hold the library but for the stored files that a failed write last left without their old document, and for the documents that failed writes of new files have added, each under an id of no file |
| `FailedRuns.RunsHeal` | bin/lssd/src/main.rs:719-1035 | Once those stored files have been written again or deleted, only the documents without a file are left, and the stores hold the library again if and only if there are none |
| `FailedRuns.NextWriteHeals` | bin/lssd/src/main.rs:889-1035 | The next good write of a stored file repairs whatever a failed one left of it |
| `FailedRuns.NewFileWrittenAgain` | bin/lssd/src/main.rs:889-1035 | After a failed and then a good write of a new file the stores hold the library if and only if the failed one had not yet added its document |
| `FailedRuns.FailedAdditionOrphans` | bin/lssd/src/main.rs:952-980 | A new file's write that fails after it has added the document leaves the document under an id of no file, used up |
| `FailedRuns.OrphanStays` | bin/lssd/src/main.rs:719-1035 | The documents of an id that is used up and no file's stay as they are through every later run, whichever writes of it fail at whatever statement |
| `LibraryRuns.ProcessedIsRun` | bin/lssd/src/main.rs:719-887 | What one event does to the stores, if nothing goes wrong in its write, is a run of the library's events |
| `LibraryRuns.BatchRepresents` | bin/lssd/src/main.rs:646-686 | After a batch without faults the stores hold the library that the events lead to: one committed document per stored file and no other, live vectors equal to the stored embeddings |
| `LibraryRuns.LastWriteStays` | bin/lssd/src/main.rs:719-1035 | What the library holds of a path is its last write |
| `LibraryRuns.HeldWriteIsCommitted` | bin/lssd/src/main.rs:677-686 | After a commit the one searchable document of a path carries the text of the write that the library holds |
| `Daemons.StatementsCompose` | bin/lssd/src/main.rs:889-1034 | The statements of a write, one after the other, leave the tables that a committed write is said to leave |
| `Daemons.Daemon.RemoveOld` | bin/lssd/src/main.rs:915-930 | Document and vectors of a known file go, with the ids read before the rows are deleted; a failing statement leaves what came before it |
| `Daemons.Daemon.OpenWrite` | bin/lssd/src/main.rs:898-930 | Id, journal entry and removal of the old version; what a failure leaves of them |
| `Daemons.Daemon.StoreFile` | bin/lssd/src/main.rs:932-968 | File row under the kept id, aliases, lexical document |
| `Daemons.Daemon.StoreChunks` | bin/lssd/src/main.rs:970-977 | Chunk rows under consecutive new ids, status done |
| `Daemons.Daemon.IndexVectors` | bin/lssd/src/main.rs:979-1023 | Embeddings paired with ids as far as both lists go: stored first, upserted last |
| `Daemons.Daemon.WriteFileToIndex` | bin/lssd/src/main.rs:889-1035 | The whole write: tables, queued lexical operations, vectors and id counter after success and after a failure at each statement |
| `Daemons.Daemon.PutFile` | bin/lssd/src/main.rs:758-785 | The write in its transaction: all or nothing in the tables, queued operations and vector changes kept |
| `Daemons.Daemon.DropFile` | bin/lssd/src/main.rs:834-876 | The delete transaction on all three stores |
| `Daemons.Daemon.UpdateSnapshotForEvent` | bin/lssd/src/main.rs:1334-1357 | The snapshot after one processed event; the entry of an indexed file carries its size and modification time |
| `Daemons.Daemon.ProcessChangeEvent` | bin/lssd/src/main.rs:704-887 | One event of each kind on stores, snapshot and document counter; `EventLaws` says field by field what that is |
| `Daemons.Daemon.IndexBatch` | bin/lssd/src/main.rs:646-686 | A batch in the order in which its events get the lock, then the commit: the stores stay in order, and without faults they hold the library afterwards, one committed document per stored file |
| `Daemons.Daemon.SemanticHits` | bin/lssd/src/main.rs:379-406 | Over stores in order and an exact graph search: every vector found is shown with the text of its one chunk row and the id, path and name of its one file, none is skipped, and for top_k > 0 they are the top_k nearest live ones |
| `Events.ProcessedKeepsCore` | bin/lssd/src/main.rs:719-887 | Every event of every kind, extractable or not, keeps the stores in order if no write fails behind its vector upsert |
| `EventLaws.IndexedRows` | bin/lssd/src/main.rs:719-977 | What an added or modified file without a failing statement leaves in the tables, told from the candidate and the extracted text: its row, every alias seen, and one row per chunk, in order, that reads as header and part of the text, with the embedding at its place; no row or chunk of another file changes |
| `EventLaws.IndexedDocument` | bin/lssd/src/main.rs:915-963 | The same for the lexical index: path, aliases, name, text, extension and mime type of the one document under the id of the file; every other id keeps its documents |
| `EventLaws.IndexedVectors` | bin/lssd/src/main.rs:919-1020 | The same for the vector index: the embeddings of the first chunks live under their row ids, the old ones of the file dead, every other live vector kept |
| `EventLaws.IndexedSnapshot` | bin/lssd/src/main.rs:787-814 | The same for snapshot and counters: the candidate under its canonical path, one more document exactly for an addition |
| `EventLaws.NothingIndexed` | bin/lssd/src/main.rs:704-735 | An event without a candidate, of a root that is no longer configured, or without text changes nothing, but for a failure record of stage indexing if the path is stored |
| `EventLaws.NothingWritten` | bin/lssd/src/main.rs:758-822 | A write of which any statement fails leaves every table as it was but for a failure record of stage extract, and moves neither snapshot nor counter |
| `EventLaws.FailedDocument` | bin/lssd/src/main.rs:889-968 | What such a write leaves in the lexical index, by failing statement: the old document is gone behind its removal, the new one there behind its addition |
| `EventLaws.FailedVectors` | bin/lssd/src/main.rs:889-1034 | What it leaves in the vector index: the old vectors are dead behind the tombstones, the new ones live behind the upsert |
| `EventLaws.FileForgotten` | bin/lssd/src/main.rs:823-876 | A deletion takes exactly the row, aliases, chunks, documents and live vectors of the file out of the stores |
| `EventLaws.DeletionCounted` | bin/lssd/src/main.rs:823-882 | It takes the path out of the snapshot and counts down to no less than zero; of a path that is not stored it does nothing |
| `EventLaws.ChunkTextReads` | bin/lssd/src/main.rs:736-755 | Each chunk text is the encoded header and slice of the text, from windows of 1000 characters that overlap by 200 |
| `IndexedFiles.FileIsIndexed` | bin/lssd/src/main.rs:646-1035 | After any events and commits without faults, the last of them a commit: a file that one event indexes and none touches later stands in all three stores as the crawl saw it, with the extracted text (row, one searchable document, chunk rows that rebuild the text, live vectors), and a path the crawl saw it under is its alias if and only if no later event has indexed another file under that path |
| `IndexedFiles.WorkKeepsFile` | bin/lssd/src/main.rs:719-1035 | An event of another file leaves a row, and takes from the aliases of its file exactly those under which it indexes its own |
| `IndexedFiles.ChangedFilesAreIndexed` | bin/lssd/src/main.rs:1305-1332 | Between two crawls: every file that is new or has changed in size or modification time is queued by the refresh, and if its root is configured and it has text, is left indexed in all three stores with the text extracted then |
| `Meta.MetaStore.BeginTransaction` | crates/index-meta/src/db.rs:622-626 | Fails inside a transaction, else saves the tables |
| `Meta.MetaStore.Commit` | crates/index-meta/src/db.rs:628-632 | Keeps the tables and ends the transaction |
| `Meta.MetaStore.Rollback` | crates/index-meta/src/db.rs:634-638 | Restores the tables, id counters included |
| `Meta.LookupLaws` | crates/index-meta/src/db.rs:210-220 | A path finds the id it had before an upsert, or the new one if it is new; a delete makes exactly the path of that id unknown; no two paths find one id |
| `Meta.FileUpserted` | crates/index-meta/src/db.rs:222-260 | An upsert keeps the tables in order if and only if the path is known or the id unused; one row changes and no alias or chunk |
| `Meta.FileDeleted` | crates/index-meta/src/db.rs:294-298 | A delete takes the file, its aliases and its chunks out, leaves every other row as it is and keeps the tables in order |
| `Meta.CascadeNeeded` | crates/index-meta/src/db.rs:90-103 | Deleting the row without the cascades keeps the tables in order if and only if the file has no alias and no chunk |
| `Meta.AliasUpserted` | crates/index-meta/src/db.rs:304-314 | An alias keeps the tables in order if and only if its file exists; every other alias stays |
| `Meta.MetaStore.ReplaceChunks` | crates/index-meta/src/db.rs:328-342 | Old rows of the file out, new rows in under the ids right behind the counter, row by row |
| `Meta.MetaStore.StoreChunkEmbeddings` | crates/index-meta/src/db.rs:370-383 | Stores the embeddings of as many pairs as went through, NULL for an empty one |
| `Meta.MetaStore.GetChunksForFile` | crates/index-meta/src/db.rs:409-419 | Exactly the chunk ids of the file |
| `Meta.MetaStore.GetFileByChunkId` | crates/index-meta/src/db.rs:447-466 | The file that a chunk joins to, if both exist |
| `Meta.MetaStore.GetChunksWithEmbeddingsAfter` | crates/index-meta/src/db.rs:385-407 | The first rows behind the cursor in id order, no more than the limit, none left out |
| `Meta.EmbedNext` | crates/index-meta/src/db.rs:375-381 | One more UPDATE of the loop is one more stored embedding |
| `Lexical.LexicalStore.Commit` | crates/index-lexical/src/index.rs:90-93 | Commits the fold of the queued operations, in order |
| `Lexical.ReplaceHolds` | bin/lssd/src/main.rs:915-968 | Delete-then-add of one id leaves exactly the new document under it, whatever was committed or queued before |
| `Lexical.RemoveHolds` | crates/index-lexical/src/index.rs:84-88 | A delete removes every earlier document of the id and no other |
| `Lexical.AddHolds` | crates/index-lexical/src/index.rs:51-82 | An add of an unused id adds exactly one document |
| `Vectors.VectorIndex.UpsertChunks` | crates/index-vector/src/index.rs:92-102 | Adds all points and takes their ids out of the tombstones |
| `Vectors.VectorIndex.DeleteChunks` | crates/index-vector/src/index.rs:109-119 | Tombstones the ids and rebuilds at a quarter |
| `Vectors.VectorIndex.Cleanup` | crates/index-vector/src/index.rs:121-167 | Keeps exactly the points that are not tombstoned, in order |
| `Vectors.VectorIndex.Search` | crates/index-vector/src/index.rs:169-189 | Over an exact search of the graph, the top_k nearest live points; for top_k = 0 the live ones among as many nearest points as there are tombstones |
| `Vectors.OverfetchIsExact` | crates/index-vector/src/index.rs:169-189 | What is kept of the top_k + tombstones nearest points is a list of the top_k nearest live ones: sorted, as long as possible, nothing nearer left out |
| `Vectors.KeptNothingExactly` | crates/index-vector/src/index.rs:176-187 | Asked for nothing, the search finds nothing if and only if all it fetched is tombstoned |
| `Vectors.NothingAskedOneFound` | crates/index-vector/src/index.rs:169-189 | A reachable index and query for which it finds a point |
| `Vectors.DistancesOfLive` | crates/index-vector/src/index.rs:176-185 | Searching the live points is searching all points and dropping the tombstones |
| `Vectors.TombstonedLaws` | crates/index-vector/src/index.rs:109-119 | A delete takes exactly the named ids out of the live ones, rebuild or not |
| `Vectors.RebuildExactly` | crates/index-vector/src/index.rs:109-119 | It rebuilds if and only if there is a tombstone and at most four points for each and three, and else only marks the ids |
| `Vectors.UpsertedLaws` | crates/index-vector/src/index.rs:92-102 | An upsert brings exactly the named ids in |
| `Vectors.UniqueConcat` | crates/index-vector/src/index.rs:94-99 | An upsert keeps one point per id if and only if its ids are distinct and not in the graph |
| `Vectors.DeleteCarries` | crates/index-vector/src/index.rs:109-167 | A delete keeps which vector each live id carries |
| `Vectors.UpsertCarries` | crates/index-vector/src/index.rs:92-102 | An upsert of fresh ids keeps and extends which vector each live id carries |
| `VectorRuns.BoundExactly` | crates/index-vector/src/index.rs:109-117 | An operation breaks the bound on tombstones (none, or 4 * (tombstones + 1) <= points) if and only if it deletes something while the graph is empty |
| `VectorRuns.BoundOverRuns` | crates/index-vector/src/index.rs:109-117 | The bound holds all through a run if and only if the run never does that |
| `VectorRuns.RebuildsArePaidFor` | crates/index-vector/src/index.rs:109-167 | In every run whatever, re-insertions are paid for at 4 per deleted id and 3 per rebuild; in a run that deletes present ids and upserts fresh ones, at 3 and 3, and the bound holds |
| `VectorRuns.RebuildBudget` | crates/index-vector/src/index.rs:109-167 | From an empty index: all rebuilds of any run re-insert at most 4 * (ids deleted) + 3 * rebuilds points; of a run that deletes present ids and upserts fresh ones, 3 * (ids deleted) + 3 * rebuilds |
| `VectorRuns.FourIsReached` | crates/index-vector/src/index.rs:109-117 | That many is reached: deleting ids that have no point, a quarter of the points in number, re-inserts every point |
| `VectorRuns.RebuildCost` | crates/index-vector/src/index.rs:113-117 | One rebuild re-inserts at most 4 * tombstones + 3 points, and 3 * tombstones + 3 if every tombstone has its point |
| `VectorUse.FileDeleteLegalExactly` | bin/lssd/src/main.rs:919-930 | The daemon's delete of a file's vectors names only points there are if and only if every chunk row of the file has a stored embedding |
| `VectorUse.FileDeleteLegalOverRuns` | bin/lssd/src/main.rs:919-930 | So it is in every state that a fault-free run reaches |
| `VectorUse.TombstonesWithoutPoints` | bin/lssd/src/main.rs:853-861 | A file indexed without an embedder and deleted leaves one tombstone per chunk in an empty graph, and the bound fails |
| `Recovery.RecoverEmptyVectorIndex` | bin/lssd/src/main.rs:1037-1131 | Terminates for every batch size; on success every chunk row is live under exactly one point, which carries its stored embedding or else what the embedder answers for its own text; it fails only if the embedder, asked for texts of rows without an embedding, gives no answer or another number, and then holds a part of the rows; a non-empty index is left alone |
| `Recovery.VectorsOfPage` | bin/lssd/src/main.rs:1080-1119 | The points of a page: stored embeddings, then for the k-th row without one the k-th answer; none if and only if the embedder refuses its request |
| `Recovery.NoneIfRefused` | bin/lssd/src/main.rs:1095-1116 | A page has no points if and only if there are rows without an embedding and the embedder, asked for the texts of just these in order, gives no answer or another number of vectors |
| `Recovery.PagePointsCover` | bin/lssd/src/main.rs:1080-1119 | They stand for the rows of the page, one each |
| `Recovery.RecoverPage` | bin/lssd/src/main.rs:1069-1131 | Each page carries the recovery from its cursor to its last id, no row skipped and none twice |
| `Recovery.RecoveredAll` | bin/lssd/src/main.rs:1069-1078 | At the first empty page all rows are live |
| `Recovery.RecoveryKeepsCore` | bin/lssd/src/main.rs:1037-1131 | However far it got, the stores are in order |
| `Recovery.RecoveryAgreesExactly` | bin/lssd/src/main.rs:1080-1131 | After a full recovery the live vectors are the stored embeddings if and only if no row lacked one: a new embedding is not stored |
| `Crawl.DiffSnapshots` | crates/crawl/src/lib.rs:141-194 | One event for each path of either snapshot, of the right kind, in strict path order |
| `Crawl.SortedIsDiff` | crates/crawl/src/lib.rs:188-192 | Sorting gives the same whatever order the hash maps were read in |
| `Crawl.DiffIsUnique` | crates/crawl/src/lib.rs:188-192 | Two snapshots have one difference: the hash map order leaves no trace |
| `Paths.PathsCompareByComponents` | crates/crawl/src/lib.rs:188-192 | The order of paths is that of their components between the separators, whatever characters these have |
| `SnapshotLaws.DiffLeadsToCurrent` | bin/lssd/src/main.rs:1334-1357 | Folding a diff's events in any order into the previous snapshot gives the current keys and fingerprints |
| `SnapshotLaws.ReplayChangesNothing` | bin/lssd/src/main.rs:1334-1357 | Replaying any of them, in any order and any number of times, on the current snapshot changes nothing |
| `SnapshotLaws.FoundDiffInAnyOrder` | crates/crawl/src/lib.rs:141-194 | Every reordering of what the diff returns is such a list of events |
| `Refresh.RefreshOutcome` | bin/lssd/src/main.rs:1305-1357 | A drained refresh from any state in order, events in any order and batching: the snapshot is the crawl, the stored paths are those from before without the gone and with the extractable changed ones, each path that came anew or went is counted once, up to saturation |
| `Refresh.RefreshExactly` | bin/lssd/src/main.rs:719-887 | From any state in order: the stored paths are the extractable ones if and only if no stored file of the crawl is unextractable, none is unknown to both crawls and no unchanged extractable one is missing; a right counter is then short by the files stored late and over by those counted again |
| `Refresh.ConsistentExactly` | bin/lssd/src/main.rs:799-809 | Starting consistent, a refresh ends consistent if and only if no stored file becomes unextractable and no unextractable one extractable |
| `Refresh.DecrementNeverSaturates` | bin/lssd/src/main.rs:882-882 | If the counter starts no lower than the number of stored files that go, no deletion finds it at zero |
| `Refresh.LateEventExactly` | bin/lssd/src/main.rs:704-887 | An event processed after a later crawl leaves that crawl's snapshot alone if and only if it takes no effect or both crawls agree about its path |
| `Rounds.StoredExactly` | bin/lssd/src/main.rs:1305-1357 | After any number of drained refreshes, from any state in order, the stored files are exactly those stored at the start that no refresh found gone, and those that some refresh stored and every crawl has had since |
| `Rounds.StoredFromCovered` | bin/lssd/src/main.rs:1305-1357 | If at the start the stored files are files of the last crawl and include its extractable ones: exactly those that have been in every crawl since some crawl whose version of them could be extracted |
| `Rounds.CountedExactly` | bin/lssd/src/main.rs:799-809 | From any start at which the counter is the number of stored files that the last crawl has (after a restart: zero, of no crawl), it is always that number if and only if no refresh stores a file by a modification or finds a stored file back in an unextractable version |
| `Rounds.CountedFromCovered` | bin/lssd/src/main.rs:799-809 | If at the start the stored files are files of the last crawl, include its extractable ones and are all counted: the counter is always the number of stored files if and only if no refresh stores a file by a modification |
| `Rounds.NeverOvercounted` | bin/lssd/src/main.rs:799-882 | From any start at which the counter is not above the number of stored files that the last crawl has, as after a restart, it never is, and so never above the number of stored files |
| `Rounds.OrphanStays` | bin/lssd/src/main.rs:820-832 | A stored file that no crawl has, from the last one before on, is never deleted |
| `Rounds.RestartOutcome` | bin/lssd/src/main.rs:1232-1262 | After a restart the first refresh deletes nothing, stores the extractable files of its crawl and counts exactly these |
| `Rounds.StalePathStays` | bin/lssd/src/main.rs:704-717 | Two refreshes from nothing, the first right, after which an unextractable file is still stored |
| `Rounds.LateFileIsNotCounted` | bin/lssd/src/main.rs:799-882 | Three refreshes from nothing: a file is stored and not counted, and its deletion finds the counter at zero |
| `Rounds.OverlapRewindsSnapshot` | bin/lssd/src/main.rs:1305-1357 | An event of one refresh, processed after the crawl of the next, puts its own crawl's entry back |
| `RefreshRun.ChangedEvents` | crates/crawl/src/lib.rs:133-138 | Exactly the events that are not Unchanged |
| `RefreshRun.NextBatch` | bin/lssd/src/main.rs:1324-1327 | At most batch-size jobs, the next ones of the queue |
| `RefreshRun.DrainQueue` | bin/lssd/src/main.rs:646-686 | Batch by batch, every queued event once |
| `RefreshRun.RefreshChanged` | bin/lssd/src/main.rs:1305-1332 | Diff, new snapshot, queue and drain on the daemon; returns the number of changed paths; its work is one that Refresh.RefreshOutcome speaks about; without faults the stores hold the library afterwards, in step |
| `RefreshRun.DrainedRepresents` | bin/lssd/src/main.rs:646-686 | A queue drained without faults is a run of the library and leaves the stores in step |
| `RefreshRun.RefreshCommitsItsTexts` | bin/lssd/src/main.rs:719-887 | After a drained refresh the one searchable document of each file it wrote shows the file as the crawl saw it and the text extracted in this refresh |
| `CrawlMerge.CrawlRoot` | crates/crawl/src/lib.rs:209-252 | The candidates of one walk; candidates and skips add up to the allowed, resolved files |
| `CrawlMerge.SeenLaws` | crates/crawl/src/lib.rs:225-244 | Within a root: a candidate exactly for each file seen, its aliases exactly its non-canonical paths in walk order |
| `CrawlMerge.FirstSightingCounts` | crates/crawl/src/lib.rs:221-247 | Name, extension, size, modification time and hidden flag are those of the first sighting in the walk |
| `CrawlMerge.LowestRootCounts` | crates/crawl/src/lib.rs:258-280 | Over all roots, those of the first sighting in the lowest root that saw the file |
| `CrawlMerge.MergeRoot` | crates/crawl/src/lib.rs:260-276 | One root joins the map; sizes and skips add up |
| `CrawlMerge.MergedLaws` | crates/crawl/src/lib.rs:255-278 | A file belongs to the lowest-numbered root that saw it, keeps that root's aliases, and of each later root gets one path, if that root never saw it under its own |
| `CrawlMerge.AliasesCompleteExactly` | crates/crawl/src/lib.rs:255-278 | A candidate lists all other paths of its file over all roots if and only if each root after the first that saw it saw it under at most one other path, and under none if also under its own |
| `CrawlMerge.SecondLinkIsLost` | crates/crawl/src/lib.rs:265-273 | Two roots of which the second sees the file under two links: one of them is lost |
| `CrawlMerge.DiscoverFiles` | crates/crawl/src/lib.rs:196-286 | Unique canonical paths in path order; candidates and skipped duplicates add up to the allowed, resolved files of all roots |
| `CrawlMerge.FromOutputLaws` | crates/crawl/src/lib.rs:59-75 | A crawl's snapshot has exactly its candidates, each with its fingerprint |
| `CrawlMerge.ChangesBetweenCrawls` | crates/crawl/src/lib.rs:59-97 | The changes between two crawls are exactly these: a file of both is modified if and only if it differs in size or modification time, else unchanged; a file of the second only is added, of the first only deleted |
| `CrawlMerge.IndexedUntilItChanges` | bin/lssd/src/main.rs:1334-1357 | After an event the next crawl finds its file modified if and only if size or modification time are not those it was indexed with, and a deleted file added; no other entry of the snapshot moves |
| `Chunking.FindBreak` | crates/chunking/src/lib.rs:45-59 | The byte search finds the break of the character-level specification |
| `Chunking.CutChunk` | crates/chunking/src/lib.rs:40-66 | One chunk is the encoded slice of its characters |
| `Chunking.ChunkText` | crates/chunking/src/lib.rs:25-76 | The chunker yields exactly the specified chunks |
| `Utf8.LeadByte` | crates/chunking/src/lib.rs:48-49 | The byte at a character's offset is its lead byte, so it is a newline or space exactly if the character is |
| `Utf8.SliceIsEncodedSlice` | crates/chunking/src/lib.rs:61-66 | Slices at character offsets are encoded slices of the text |
| `ChunkLaws.BreakNeverGoesBack` | crates/chunking/src/lib.rs:40-73 | The search of the next window never ends before the previous chunk's end |
| `ChunkLaws.ConsecutiveChunks` | crates/chunking/src/lib.rs:40-73 | Ends never decrease; consecutive chunks overlap by exactly min(overlap, previous length - 1) |
| `ChunkLaws.ChunkBoundaries` | crates/chunking/src/lib.rs:40-66 | Each chunk is non-empty and at most max_chars long; one that is not the last ends behind the last newline among the last overlap characters of its window, else behind the last space there that is not the last character, else is max_chars long |
| `ChunkLaws.StrictProgress` | crates/chunking/src/lib.rs:68-73 | With 2 * overlap < max_chars, starts advance by max_chars - 2 * overlap and ends strictly increase |
| `ChunkLaws.ChunkCount` | crates/chunking/src/lib.rs:40-73 | Then there are at most 1 + (n - 1) / (max_chars - 2 * overlap) chunks |
| `ChunkLaws.ChunksRebuildText` | crates/chunking/src/lib.rs:40-73 | For every text, window and overlap: the chunks without their overlaps are the text |
| `ChunkLaws.DropCharsOfEncoded` | crates/chunking/src/lib.rs:61-66 | Dropping characters by their lead bytes is dropping them from the text |
| `ChunkLaws.TextReadsBack` | crates/chunking/src/lib.rs:61-66 | The bytes of a text read back as its characters |
| `Fusion.CombineAndRank` | crates/rank/src/lib.rs:4-47 | Distinct documents, each with its rank sum, texts and reasons, best first, min(limit, documents) many, none left out that scores above a kept one, for every hash map order |
| `Fusion.LexicalStep` | crates/rank/src/lib.rs:13-22 | A lexical hit adds its reciprocal rank, twice for the first hit of a document |
| `Fusion.SemanticStep` | crates/rank/src/lib.rs:24-40 | A semantic hit adds its reciprocal rank once and the semantic reason at most once |
| `Fusion.RankFused` | crates/rank/src/lib.rs:42-46 | Sorting and truncating the fused map gives a ranking |
| `Fusion.AheadInBoth` | crates/rank/src/lib.rs:13-40 | Of two documents with one hit in each list, one ahead in both scores higher and is listed first |
| `Fusion.SemanticHitNeverHurts` | crates/rank/src/lib.rs:24-40 | With one more semantic hit appended, every ranking lists its document where it was or before |
| `Fusion.HigherComesFirst` | crates/rank/src/lib.rs:42-46 | A document that scores above a listed one is listed before it |
| `Fusion.RankingShowsHits` | crates/rank/src/lib.rs:13-40 | Every ranking shows of a document its score and path, title and snippet of its lowest-ranked lexical hit, with the reasons of that hit and the semantic one once if it has a semantic hit too, and else of its lowest-ranked semantic hit, for the semantic reason only |
| `Fusion.ScoreInNumbers` | crates/rank/src/lib.rs:10-40 | A hit behind n others of its list adds 1 / (60 + n) to the score of its document, the first lexical one twice that, and nothing to any other |
| `Fusion.SingleHit` | crates/rank/src/lib.rs:13-22 | The score of a document with one hit in a list |
| `Fusion.FirstHitCountsTwice` | crates/rank/src/lib.rs:13-22 | The lexical part of a score is the rank sum plus the reciprocal rank of the first hit; it is the plain rank sum if and only if there is no lexical hit |
| `Grep.MatchFile` | bin/lssd/src/main.rs:519-531 | The first matching lines of a file, as many as there is room for |
| `Grep.StreamGrep` | bin/lssd/src/main.rs:495-556 | The frames written, when the token is cancelled before any candidate and the connection fails after any number of frames |
| `Grep.GrepStream` | bin/lssd/src/main.rs:495-556 | Concatenated, the frames are the first max(limit, 1) matches of the candidates looked at; exactly one final frame, last; a cancelled grep's frames are an uncancelled one's, cut at a candidate |
| `Grep.FramesAreFirstMatches` | bin/lssd/src/main.rs:495-546 | The non-final frames are the first matches there are, up to the limit |
| `Grep.FramesAreOfOneFile` | bin/lssd/src/main.rs:532-542 | Each non-final frame is not empty and of one candidate |
| `Grep.StoppingCutsShort` | bin/lssd/src/main.rs:543-546 | Stopping early cuts frames off the end, and none once the limit is reached |
| `Grep.MatchesUpToLaws` | bin/lssd/src/main.rs:519-531 | Exactly the matching lines, each once, numbered from 1, in order |
| `Grep.AllMatchesExactly` | bin/lssd/src/main.rs:504-531 | What there is to find: the matching lines, numbered from 1, of the candidates whose extension, the empty text if they have none, is among the filters, or of all if there is no filter |
| `Grep.GrepFinds` | bin/lssd/src/main.rs:492-546 | A grep writes as many matches as asked for or there are, at most one if asked for none, and each is such a line of a candidate looked at |
| `Sessions.StepKeeps` | bin/lssd/src/main.rs:251-305 | Each step of each connection keeps the registry exact and the frames well formed |
| `Sessions.InvariantOverRuns` | bin/lssd/src/main.rs:251-305 | Over every interleaving with distinct ids in flight: the registry holds exactly the searches in flight that are not cancelled; every search or grep that ends without an I/O error has written one final frame, as its last, and every other one none |
| `Sessions.CancelledOnRequest` | bin/lssd/src/main.rs:251-270 | A token is cancelled only by a cancel request that named its id while it was registered for a search in flight |
| `Sessions.CancelIsPrompt` | bin/lssd/src/main.rs:347-423 | A cancelled search or grep writes at most one more frame before its final one; a search cancelled before it looks at its token runs no fusion |
| `SearchEnds.SearchEnding` | bin/lssd/src/main.rs:347-424 | Over every run of the daemon: a search that ends well has looked at its token, and has written its lexical hits, if any, and as its last frame the fused ranking if and only if the token was not cancelled when it looked; it fails if and only if a write does |
| `SearchEnds.GrepEnding` | bin/lssd/src/main.rs:495-556 | Over every run: a grep goes on to each further candidate until none is left, its token is cancelled before the next, the limit is reached or a write fails; it has written exactly its hits and, if it ends well, one empty final frame |
| `SearchEnds.ClosedExactly` | bin/lssd/src/main.rs:219-250 | A connection is closed if and only if a search or grep on it failed to write a frame |
| `SearchEnds.ClosedIsSilent` | bin/lssd/src/main.rs:228-250 | After that nothing is done on the connection any more |
| `Sessions.RunsFromStart` | bin/lssd/src/main.rs:251-305 | The same from the start of the daemon on |
| `Sessions.StartStaysExactly` | bin/lssd/src/main.rs:281-305 | From any state in order: the registry stays exact over every legal continuation of a start if and only if no search in flight, cancelled or not, has its id |
| `Sessions.SecondSearchIsLost` | bin/lssd/src/main.rs:297-301 | With one id used twice, the first search to finish puts the other out of reach of any cancel request |
| `Sessions.ResubmittedSearchIsLost` | bin/lssd/src/main.rs:251-301 | A search resubmitted under a cancelled id whose old search is still in flight: the id is free, the registry exact at first, and the search lost when the old one finishes |
| `Sessions.TakeKeepsRegistry` | bin/lssd/src/main.rs:251-263 | Taking a token out of the registry keeps it exact before the token is cancelled |
| `Sessions.FinishKeepsRegistry` | bin/lssd/src/main.rs:297-301 | Deregistering by id takes out only the search that finished |

## Left out

- HNSW graph internals, saving and loading of the graph files, dimension checks of vectors.
- Tantivy schema, query parsing, scoring and snippets; which candidates a search or grep gets.
- SQLite itself, the `roots` and `jobs` tables, timestamps, generations, content fingerprints.
- The embedding model, ONNX session, tokenizer, and the codec of embedding blobs.
- A failing COMMIT of SQLite or Tantivy, and a crash between the metadata commit and the lexical
  commit or vector save: nothing in the source ties these together.
- Poisoned locks, and a vector index that is absent (a dimension that cannot be determined).
- The probing of files by `recover_stale_journals`; no committed state holds a journal entry.
- File-system walking, glob matching, a path that is not UTF-8 (which aborts the crawl), watching
  and debouncing, configuration reload.
- Sockets, JSON, frame lengths, tokio scheduling; the acknowledgement of a cancel request.
- `parse_query`, text normalization, the doctor report, the command line.
- Integer widths: sizes, counters and limits are unbounded, so `limit * 2` does not overflow.
- f32 rounding in distances and scores: with rounding, strict comparisons can become ties.
