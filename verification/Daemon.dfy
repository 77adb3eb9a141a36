/** The indexing daemon: the three stores, the crawl snapshot and the document counter. */
module Daemons {
  import opened Common
  import opened Utf8
  import opened Chunking
  import opened Vectors
  import opened Lexical
  import opened Meta
  import opened Crawl
  import opened Stores
  import opened Events
  import opened Libraries
  import opened LibraryRuns

  // ---------------------------------------------------------------------------------
  // The statements of a write, one after the other
  // ---------------------------------------------------------------------------------

  lemma FileStatements(files: map<Path, FileRow>, path: Path, row: FileRow)
    requires DistinctIds(files)
    requires if path in files then row.id == files[path].id else row.id !in FileIds(files)
    ensures var files1 := files[path := row.(status := Pending)];
      (map p | p in files1 :: if files1[p].id == row.id then files1[p].(status := Done) else files1[p])
        == files[path := row.(status := Done)]
  {
    forall p | p in files && p != path
      ensures files[p].id != row.id
    {
      assert files[p].id in FileIds(files);
    }
  }

  function FirstBlobs(n: nat, embeddings: seq<Vector>, stored: nat): seq<Option<Vector>> {
    seq(n, i => if 0 <= i < stored && i < |embeddings| then Blob(embeddings[i]) else None)
  }

  lemma ChunkStatements(kept: map<ChunkId, ChunkRow>, base: nat, id: DocId, texts: seq<Bytes>,
                        embeddings: seq<Vector>, stored: nat)
    requires forall c :: c in kept ==> c <= base
    ensures EmbedRows(kept + NewRows(base, id, texts, Unembedded(|texts|)), IdsFrom(base, |texts|), embeddings, stored)
         == kept + NewRows(base, id, texts, FirstBlobs(|texts|, embeddings, stored))
  {
    hide EmbedRows;
    var ids := IdsFrom(base, |texts|);
    var before := kept + NewRows(base, id, texts, Unembedded(|texts|));
    var after := kept + NewRows(base, id, texts, FirstBlobs(|texts|, embeddings, stored));
    EmbedKeys(before, ids, embeddings, stored);
    forall c | c in before
      ensures c in after && EmbedRows(before, ids, embeddings, stored)[c] == after[c]
    {
      if base < c {
        EmbedRowAt(before, ids, embeddings, stored, c - base - 1);
      } else {
        EmbedRowElsewhere(before, ids, embeddings, stored, c);
      }
    }
  }

  lemma BlobsOf(w: Write, stored: nat)
    ensures var n := |ChunkTexts(w)|;
      StoredEmbeddings(w, stored) ==
        if w.embeddings.Some? then FirstBlobs(n, w.embeddings.value, stored) else Unembedded(n)
  {
    hide ChunkTexts;
  }

  function JournalAt(t: Tables, c: CrawlCandidate, id: DocId, stage: Stage): Tables {
    var jid := t.journalSeq + 1;
    t.(journal := t.journal[jid := JournalRow(id, c.canonical, stage)], journalSeq := jid)
  }

  function FileStored(t: Tables, w: Write, id: DocId, stage: Stage): Tables {
    WithAliases(WithFile(JournalAt(t, w.candidate, id, stage), w.candidate.canonical, RowOf(w, id)), id,
      w.candidate.aliases)
  }

  /** The tables just before the embeddings are stored. */
  function BeforeEmbedding(t: Tables, w: Write, id: DocId): Tables {
    WithStatus(WithChunks(FileStored(t, w, id, VectorStage), id, ChunkTexts(w), Unembedded(|ChunkTexts(w)|)), id, Done)
  }

  lemma BeforeEmbeddingIs(t: Tables, w: Write, id: DocId)
    requires WellFormed(t)
    requires if Known(t, w) then id == t.files[w.candidate.canonical].id else id !in FileIds(t.files)
    ensures BeforeEmbedding(t, w, id) ==
      WithAliases(JournalAt(t, w.candidate, id, VectorStage), id, w.candidate.aliases).(
        files := t.files[w.candidate.canonical := RowOf(w, id)],
        chunks := (t.chunks - ChunkIdsOf(t.chunks, id)) +
          NewRows(t.chunkSeq, id, ChunkTexts(w), Unembedded(|ChunkTexts(w)|)),
        chunkSeq := t.chunkSeq + |ChunkTexts(w)|)
  {
    FileStatements(t.files, w.candidate.canonical, RowOf(w, id));
    hide ChunkTexts, FileIds, ChunkIdsOf, NewRows, WellFormed, Unembedded;
  }

  lemma EmbeddedRows(t: Tables, w: Write, id: DocId, stored: nat)
    requires WellFormed(t)
    ensures var n := |ChunkTexts(w)|;
      var kept := t.chunks - ChunkIdsOf(t.chunks, id);
      var rows := kept + NewRows(t.chunkSeq, id, ChunkTexts(w), Unembedded(n));
      kept + NewRows(t.chunkSeq, id, ChunkTexts(w), StoredEmbeddings(w, stored)) ==
        if w.embeddings.Some? then EmbedRows(rows, IdsFrom(t.chunkSeq, n), w.embeddings.value, stored) else rows
  {
    hide ChunkTexts, StoredEmbeddings, FileIds, EmbedRows, NewRows;
    BlobsOf(w, stored);
    if w.embeddings.Some? {
      ChunkStatements(t.chunks - ChunkIdsOf(t.chunks, id), t.chunkSeq, id, ChunkTexts(w), w.embeddings.value, stored);
    }
  }

  /** The tables that the statements of a write leave are the tables of a committed write. */
  lemma StatementsCompose(t: Tables, w: Write, id: DocId, stored: nat)
    requires WellFormed(t)
    requires if Known(t, w) then id == t.files[w.candidate.canonical].id else id !in FileIds(t.files)
    ensures var t1 := BeforeEmbedding(t, w, id);
      var t2 := if w.embeddings.Some?
        then WithEmbeddings(t1, IdsFrom(t.chunkSeq, |ChunkTexts(w)|), w.embeddings.value, stored) else t1;
      t2.(journal := t2.journal - {t.journalSeq + 1}) == WrittenTables(t, w, id, stored)
  {
    hide ChunkTexts, StoredEmbeddings, FileIds, EmbedRows, ChunkIdsOf, NewRows, BeforeEmbedding, IdsFrom, Unembedded;
    BeforeEmbeddingIs(t, w, id);
    EmbeddedRows(t, w, id, stored);
    assert t.journal[t.journalSeq + 1 := JournalRow(id, w.candidate.canonical, VectorStage)] - {t.journalSeq + 1} ==
      t.journal;
  }

  // ---------------------------------------------------------------------------------
  // Semantic hits
  // ---------------------------------------------------------------------------------

  /** What a search shows of a vector it found. */
  datatype SemanticHit = SemanticHit(doc: DocId, path: Path, title: string, snippet: Bytes, distance: real)

  /** The hit shows the chunk that the neighbour stands for, and the one file that owns it. */
  ghost predicate Shows(t: Tables, n: Neighbor, hit: SemanticHit) {
    && n.id in t.chunks && hit.snippet == t.chunks[n.id].text && hit.distance == n.distance
    && hit.path in t.files && hit.doc == t.files[hit.path].id == t.chunks[n.id].file
    && hit.title == t.files[hit.path].name
    && forall p :: p in t.files && t.files[p].id == t.chunks[n.id].file ==> p == hit.path
  }

  /** The hits show the neighbours, one each and in order. */
  ghost predicate ShowsAll(t: Tables, found: seq<Neighbor>, hits: seq<SemanticHit>) {
    |hits| == |found| && forall k :: 0 <= k < |hits| ==> Shows(t, found[k], hits[k])
  }

  /** Over stores in order a live id always has its chunk and its file. */
  lemma LiveIdResolves(s: Stores, c: ChunkId)
    requires Core(s) && c in LiveIds(s.vector)
    ensures c in s.tables.chunks && s.tables.chunks[c].file in FileIds(s.tables.files)
  {
    LiveIdJoins(s, c);
    hide FileIds, UniqueIds;
  }

  lemma IsShown(t: Tables, n: Neighbor, hit: SemanticHit)
    requires n.id in t.chunks && hit.snippet == t.chunks[n.id].text && hit.distance == n.distance
    requires hit.path in t.files && hit.doc == t.files[hit.path].id == t.chunks[n.id].file
    requires hit.title == t.files[hit.path].name
    requires forall p :: p in t.files && t.files[p].id == t.chunks[n.id].file ==> p == hit.path
    ensures Shows(t, n, hit)
  {
  }

  lemma OwnerIsUnique(s: Stores, c: ChunkId, path: Path)
    requires Core(s) && c in LiveIds(s.vector) && c in s.tables.chunks
    requires path in s.tables.files && s.tables.files[path].id == s.tables.chunks[c].file
    ensures forall p :: p in s.tables.files && s.tables.files[p].id == s.tables.chunks[c].file ==> p == path
  {
    LiveIdJoins(s, c);
    hide Core;
    assert OwnsChunk(s.tables, path, c);
    assert forall p :: p in s.tables.files && s.tables.files[p].id == s.tables.chunks[c].file ==>
      OwnsChunk(s.tables, p, c);
  }

  // ---------------------------------------------------------------------------------
  // The daemon
  // ---------------------------------------------------------------------------------

  class Daemon {
    const meta: MetaStore
    const lexical: LexicalStore
    const vector: VectorIndex
    var nextDoc: DocId
    var snapshot: Option<Snapshot>
    var indexedDocuments: nat

    ghost function State(): Stores
      reads this, meta, lexical, vector
    {
      Stores(meta.tables, lexical.State(), vector.State(), nextDoc)
    }

    ghost function Index(): IndexState
      reads this, meta, lexical, vector
    {
      IndexState(State(), snapshot, indexedDocuments)
    }

    constructor (metric: (Vector, Vector) -> real)
      ensures State() == EMPTY_STORES && Core(State()) && meta.saved.None?
      ensures fresh(meta) && fresh(lexical) && fresh(vector)
    {
      meta := new MetaStore();
      lexical := new LexicalStore();
      vector := new VectorIndex(metric);
      nextDoc, snapshot, indexedDocuments := 0, None, 0;
    }

    /** The removal of a known file's document and vectors. */
    method RemoveOld(id: DocId, failing: Option<Statement>) returns (ok: bool)
      modifies lexical, vector
      ensures ok == (failing !in {Some(DeleteDocument), Some(ReadChunks)})
      ensures lexical.State() ==
        if failing == Some(DeleteDocument) then old(lexical.State()) else Queued(old(lexical.State()), [Remove(id)])
      ensures vector.State() ==
        if ok then Tombstoned(old(vector.State()), ChunkIdsOf(meta.tables.chunks, id)) else old(vector.State())
    {
      hide Tombstoned, ChunkIdsOf;
      if failing == Some(DeleteDocument) {
        return false;
      }
      lexical.DeleteDocument(id);
      if failing == Some(ReadChunks) {
        return false;
      }
      var chunkIds := meta.GetChunksForFile(id);
      vector.DeleteChunks(chunkIds);
      ok := true;
    }

    /** The first part of a write: the journal entry and, for a known file, the removal of its
        document and vectors. `None` if a statement failed. */
    method OpenWrite(w: Write, faults: Faults) returns (r: Option<(DocId, nat)>)
      modifies this`nextDoc, meta, lexical, vector
      ensures meta.saved == old(meta.saved)
      ensures r.Some? == Passes(old(meta.tables), w, faults, ReadChunks)
      ensures r.Some? ==>
        && r.value == (DocIdOf(old(State()), w), old(meta.tables).journalSeq + 1)
        && meta.tables == JournalAt(old(meta.tables), w.candidate, r.value.0, MetaStage)
      ensures lexical.State() == Queued(old(lexical.State()),
        if Known(old(meta.tables), w) && Passes(old(meta.tables), w, faults, DeleteDocument)
          then [Remove(DocIdOf(old(State()), w))] else [])
      ensures vector.State() ==
        if Known(old(meta.tables), w) && r.Some?
          then Tombstoned(old(vector.State()), ChunkIdsOf(old(meta.tables).chunks, DocIdOf(old(State()), w)))
          else old(vector.State())
      ensures nextDoc == if Known(old(meta.tables), w) || !Passes(old(meta.tables), w, faults, FindFile)
        then old(nextDoc) else old(nextDoc) + 1
    {
      hide Tombstoned, ChunkIdsOf;
      assert Queued(lexical.State(), []) == lexical.State();
      if faults.failing == Some(FindFile) {
        return None;
      }
      var existing := meta.GetFileByCanonicalPath(w.candidate.canonical);
      var id := nextDoc;
      if existing.Some? {
        id := existing.value;
      } else {
        nextDoc := nextDoc + 1;
      }
      if faults.failing == Some(CreateJournal) {
        return None;
      }
      var journalId := meta.CreateJournalEntry(id, w.candidate.canonical);
      if existing.Some? {
        var ok := RemoveOld(id, faults.failing);
        if !ok {
          return None;
        }
      }
      r := Some((id, journalId));
    }

    /** The aliases of a write, up to the statement that fails. */
    method UpsertAliases(file: DocId, observed: seq<Path>, failing: Option<Statement>) returns (ok: bool)
      requires file in FileIds(meta.tables.files)
      modifies meta
      ensures meta.saved == old(meta.saved)
      ensures ok == (failing != Some(UpsertAlias) || observed == [])
      ensures ok ==> meta.tables == WithAliases(old(meta.tables), file, observed)
    {
      hide FileIds, AliasMap;
      ghost var t := meta.tables;
      NoAliases(t.aliases, file);
      for i := 0 to |observed|
        invariant meta.saved == old(meta.saved) && (i > 0 ==> failing != Some(UpsertAlias))
        invariant meta.tables == t.(aliases := t.aliases + AliasMap(file, observed[..i]))
      {
        if failing == Some(UpsertAlias) {
          return false;
        }
        var done := meta.UpsertAlias(file, observed[i]);
        AliasNext(t.aliases, file, observed, i);
        assert done;
      }
      assert observed[..|observed|] == observed;
      ok := true;
    }

    /** The file row, the aliases and the document of a write. */
    method StoreFile(ghost t: Tables, id: DocId, journalId: nat, w: Write, faults: Faults) returns (ok: bool)
      requires WellFormed(t) && journalId == t.journalSeq + 1
      requires if Known(t, w) then id == t.files[w.candidate.canonical].id else id !in FileIds(t.files)
      requires meta.tables == JournalAt(t, w.candidate, id, MetaStage) && Passes(t, w, faults, ReadChunks)
      modifies meta, lexical
      ensures meta.saved == old(meta.saved)
      ensures ok == Passes(t, w, faults, AddDocument)
      ensures ok ==> meta.tables == FileStored(t, w, id, LexicalStage)
      ensures lexical.State() == Queued(old(lexical.State()), if ok then [Add(DocOf(w, id))] else [])
    {
      hide WellFormed, AliasMap;
      ok := false;
      var c := w.candidate;
      assert Queued(lexical.State(), []) == lexical.State();
      if faults.failing == Some(UpsertFile) {
        return;
      }
      var row := FileRow(id, c.name, c.extension, c.size, c.modified, Pending);
      var stored := meta.UpsertFile(c.canonical, row);
      assert stored;
      assert meta.tables.files[c.canonical].id == id;
      hide FileIds;
      if faults.failing == Some(AdvanceToLexical) {
        return;
      }
      meta.AdvanceJournalStage(journalId, LexicalStage);
      stored := UpsertAliases(id, c.aliases, faults.failing);
      if !stored || faults.failing == Some(AddDocument) {
        return;
      }
      lexical.AddDocument(DocOf(w, id));
      ok := true;
    }

    /** The chunk rows of a write. Gives their ids, or `None` if a statement failed. */
    method StoreChunks(ghost t: Tables, id: DocId, journalId: nat, w: Write, texts: seq<Bytes>, faults: Faults)
      returns (ids: Option<seq<ChunkId>>)
      requires texts == ChunkTexts(w) && journalId == t.journalSeq + 1
      requires meta.tables == FileStored(t, w, id, LexicalStage) && id in FileIds(meta.tables.files)
      requires Passes(t, w, faults, AddDocument)
      modifies meta
      ensures meta.saved == old(meta.saved)
      ensures ids.Some? == Passes(t, w, faults, SetStatus)
      ensures ids.Some? ==> meta.tables == BeforeEmbedding(t, w, id) && ids.value == IdsFrom(t.chunkSeq, |texts|)
    {
      hide ChunkTexts, FileIds, AliasMap, NewRows, ChunkIdsOf;
      ids := None;
      if faults.failing == Some(AdvanceToVector) {
        return;
      }
      meta.AdvanceJournalStage(journalId, VectorStage);
      assert meta.tables == FileStored(t, w, id, VectorStage);
      if faults.failing == Some(ReplaceChunks) {
        return;
      }
      var newIds := meta.ReplaceChunks(id, texts);
      if newIds.None? || faults.failing == Some(SetStatus) {
        return;
      }
      meta.SetExtractorStatus(id, Done);
      ids := newIds;
    }

    /** The embeddings of a write: stored with the chunk rows and upserted as points. Too few or
        too many embeddings are cut to the shorter list. */
    method IndexVectors(ghost base: nat, ids: seq<ChunkId>, w: Write, stored: nat)
      requires ids == IdsFrom(base, |ChunkTexts(w)|)
      modifies meta, vector
      ensures meta.saved == old(meta.saved)
      ensures meta.tables ==
        if w.embeddings.Some? then WithEmbeddings(old(meta.tables), ids, w.embeddings.value, stored)
          else old(meta.tables)
      ensures vector.State() ==
        if PointsFrom(base, Paired(w)) != [] then Upserted(old(vector.State()), PointsFrom(base, Paired(w)))
        else old(vector.State())
    {
      hide ChunkTexts, EmbedRows, Upserted;
      var chunkData: seq<Point> := [];
      if w.embeddings.Some? {
        var embeddings := w.embeddings.value;
        meta.StoreChunkEmbeddings(ids, embeddings, stored);
        var n := if |ids| < |embeddings| then |ids| else |embeddings|;
        for i := 0 to n
          invariant |chunkData| == i
          invariant forall k :: 0 <= k < i ==> chunkData[k] == Point(base + 1 + k, embeddings[k])
        {
          chunkData := chunkData + [Point(ids[i], embeddings[i])];
        }
      }
      assert chunkData == PointsFrom(base, Paired(w));
      if chunkData != [] {
        vector.UpsertChunks(chunkData);
      }
    }

    /** All statements of a write, inside the caller's transaction. */
    method WriteFileToIndex(w: Write, texts: seq<Bytes>, faults: Faults) returns (ok: bool)
      requires Core(State()) && texts == ChunkTexts(w)
      modifies this`nextDoc, meta, lexical, vector
      ensures meta.saved == old(meta.saved)
      ensures ok == !Fails(old(meta.tables), w, faults)
      ensures ok ==> meta.tables == WrittenTables(old(meta.tables), w, DocIdOf(old(State()), w), faults.stored)
      ensures lexical.State() == Queued(old(lexical.State()), LexicalOps(old(State()), w, faults))
      ensures vector.State() == VectorAfter(old(State()), w, faults)
      ensures nextDoc == if Known(old(meta.tables), w) || !Passes(old(meta.tables), w, faults, FindFile)
        then old(nextDoc) else old(nextDoc) + 1
    {
      hide ChunkTexts, Tombstoned, Upserted, PointsFrom, Paired, WithEmbeddings, WrittenTables, BeforeEmbedding,
        FileStored, ChunkIdsOf, WellFormed;
      ghost var s := State();
      ghost var t := meta.tables;
      NewDocIsFresh(s);
      KnownIdStands(t, w);
      ok := false;
      var entry := OpenWrite(w, faults);
      if entry.None? {
        return;
      }
      var (id, journalId) := entry.value;
      var filed := StoreFile(t, id, journalId, w, faults);
      if !filed {
        return;
      }
      StoredFileId(t, w, id);
      var ids := StoreChunks(t, id, journalId, w, texts, faults);
      if ids.None? {
        return;
      }
      IndexVectors(t.chunkSeq, ids.value, w, faults.stored);
      if faults.failing == Some(IngestTime) || faults.failing == Some(CompleteJournal) {
        return;
      }
      StatementsCompose(t, w, id, faults.stored);
      meta.CompleteJournalEntry(journalId);
      ok := true;
    }

    method UpdateSnapshotForEvent(event: ChangeEvent)
      modifies this`snapshot
      ensures snapshot == SnapshotUpdated(old(snapshot), event)
      ensures event.kind in {Added, Modified} && event.candidate.Some? ==>
        && snapshot.Some? && event.path in snapshot.value
        && var entry, c := snapshot.value[event.path], event.candidate.value;
        entry.candidate == c && entry.fingerprint.size == c.size && entry.fingerprint.modified == c.modified
    {
      var files := if snapshot.Some? then snapshot.value else map[];
      match event.kind {
        case Added | Modified =>
          if event.candidate.Some? {
            files := files[event.path := EntryOf(event.candidate.value)];
          }
        case Deleted => files := files - {event.path};
        case Unchanged =>
      }
      snapshot := Some(files);
    }

    /** The write of one file in a transaction of its own. */
    method PutFile(w: Write, faults: Faults) returns (ok: bool)
      requires Core(State()) && meta.saved.None?
      modifies this`nextDoc, meta, lexical, vector
      ensures meta.saved.None?
      ensures ok == !Fails(old(meta.tables), w, faults)
      ensures State() == Outcome(old(State()), w, faults)
    {
      hide WrittenTables, LexicalOps, VectorAfter, Core, Chunks, Header;
      var chunks := ChunkText(w.text, MAX_CHARS, OVERLAP_CHARS);
      var texts := seq(|chunks|, i requires 0 <= i < |chunks| => Header(w.candidate) + chunks[i].text);
      assert texts == ChunkTexts(w);
      hide ChunkTexts;
      ghost var s := State();
      var begun := meta.BeginTransaction();
      assert State() == s;
      ok := WriteFileToIndex(w, texts, faults);
      if ok {
        var _ := meta.Commit();
      } else {
        var _ := meta.Rollback();
        meta.RecordFailure(None, w.candidate.canonical, "extract");
      }
    }

    /** The removal of one file in a transaction of its own. */
    method DropFile(id: DocId, path: Path)
      requires Core(State()) && meta.saved.None?
      modifies meta, lexical, vector
      ensures meta.saved.None? && State() == Removed(old(State()), id)
    {
      hide Tombstoned, ChunkIdsOf, FilesWithout, ChunksWithout;
      ghost var t := meta.tables;
      var begun := meta.BeginTransaction();
      var journalId := meta.CreateJournalEntry(id, path);
      lexical.DeleteDocument(id);
      meta.AdvanceJournalStage(journalId, LexicalStage);
      var chunkIds := meta.GetChunksForFile(id);
      vector.DeleteChunks(chunkIds);
      meta.DeleteFile(id);
      meta.CompleteJournalEntry(journalId);
      assert t.journal[journalId := JournalRow(id, path, LexicalStage)] - {journalId} == t.journal;
      var _ := meta.Commit();
    }

    /** One change event, with what the world answers to it. */
    method ProcessChangeEvent(roots: nat, event: ChangeEvent, input: Input)
      requires Core(State()) && meta.saved.None?
      modifies this, meta, lexical, vector
      ensures meta.saved.None? && Index() == Processed(old(Index()), roots, event, input)
    {
      hide Core, Outcome, Removed, Fails;
      if event.kind == Added || event.kind == Modified {
        if event.candidate.Some? {
          var c := event.candidate.value;
          if c.rootId >= roots || input.extraction.None? {
            var id := meta.GetFileByCanonicalPath(event.path);
            if id.Some? {
              meta.RecordFailure(Some(id.value), event.path, "indexing");
            }
          } else {
            var ok := PutFile(WriteOf(c, input.extraction.value, input.embeddings), input.faults);
            if ok {
              UpdateSnapshotForEvent(event.(path := c.canonical));
              if event.kind == Added {
                indexedDocuments := indexedDocuments + 1;
              }
            }
          }
        }
      } else if event.kind == Deleted {
        var id := meta.GetFileByCanonicalPath(event.path);
        if id.Some? {
          DropFile(id.value, event.path);
          UpdateSnapshotForEvent(event);
          indexedDocuments := if indexedDocuments == 0 then 0 else indexedDocuments - 1;
        }
      }
    }

    /** The semantic hits for a query: every vector that the search finds is shown, none is skipped. */
    method SemanticHits(query: Vector, topK: nat, neighbors: seq<Neighbor>) returns (hits: seq<SemanticHit>)
      requires Core(State())
      requires IsNearest(Distances(vector.points, query, vector.metric), topK + |vector.deletedIds|, neighbors)
      ensures exists found :: ShowsAll(meta.tables, found, hits) && (topK > 0 ==>
        IsNearest(Distances(Live(vector.points, vector.deletedIds), query, vector.metric), topK, found))
    {
      hide Core, IsNearest, Distances, Live, Shows, FileIds;
      var results := vector.Search(query, topK, neighbors);
      hits := [];
      for i := 0 to |results|
        invariant |hits| == i && forall k :: 0 <= k < i ==> Shows(meta.tables, results[k], hits[k])
      {
        var n := results[i];
        LiveIdResolves(State(), n.id);
        var file := meta.GetFileByChunkId(n.id);
        if file.Some? {
          var (path, row) := file.value;
          var text := meta.GetChunkText(n.id);
          OwnerIsUnique(State(), n.id, path);
          var hit := SemanticHit(row.id, path, row.name, if text.Some? then text.value else Encode("..."), n.distance);
          IsShown(meta.tables, n, hit);
          hits := hits + [hit];
        }
      }
      assert ShowsAll(meta.tables, results, hits);
    }

    /** One batch of events, in the order in which they get the store's lock, then the commit. */
    method IndexBatch(roots: nat, jobs: seq<Job>)
      requires Core(State()) && meta.saved.None? && forall j :: j in jobs ==> !AfterUpsert(j.input.faults)
      modifies this, meta, lexical, vector
      ensures Core(State()) && meta.saved.None? && Index() == BatchProcessed(old(Index()), roots, jobs)
      ensures forall lib :: Represents(old(State()), lib) && (forall j :: j in jobs ==> Sound(j)) ==>
        Represents(State(), LibraryAfter(lib, BatchEvents(old(Index()), roots, jobs))) && InStep(State())
    {
      hide Core, Processed, Committed, Represents, InStep, Sound, LibraryAfter, BatchEvents;
      ghost var d := Index();
      for i := 0 to |jobs|
        invariant Core(State()) && meta.saved.None?
        invariant Index() == JobsProcessed(d, roots, jobs[..i])
      {
        ProcessedKeepsCore(Index(), roots, jobs[i].event, jobs[i].input);
        JobsNext(d, roots, jobs, i);
        ProcessChangeEvent(roots, jobs[i].event, jobs[i].input);
      }
      assert jobs[..|jobs|] == jobs;
      CommitKeepsCore(State());
      lexical.Commit();
      BatchesRepresent(d, roots, jobs);
    }
  }

  lemma BatchesRepresent(d: IndexState, roots: nat, jobs: seq<Job>)
    ensures forall lib :: Represents(d.stores, lib) && (forall j :: j in jobs ==> Sound(j)) ==>
      var s := BatchProcessed(d, roots, jobs).stores;
      Represents(s, LibraryAfter(lib, BatchEvents(d, roots, jobs))) && InStep(s)
  {
    hide *;
    forall lib | Represents(d.stores, lib) && (forall j :: j in jobs ==> Sound(j))
      ensures var s := BatchProcessed(d, roots, jobs).stores;
        Represents(s, LibraryAfter(lib, BatchEvents(d, roots, jobs))) && InStep(s)
    {
      BatchRepresents(d, roots, jobs, lib);
    }
  }

  lemma KnownIdStands(t: Tables, w: Write)
    ensures Known(t, w) ==> t.files[w.candidate.canonical].id in FileIds(t.files)
  {
  }

  lemma StoredFileId(t: Tables, w: Write, id: DocId)
    requires if Known(t, w) then id == t.files[w.candidate.canonical].id else id !in FileIds(t.files)
    ensures id in FileIds(FileStored(t, w, id, LexicalStage).files)
  {
    assert FileStored(t, w, id, LexicalStage).files[w.candidate.canonical].id == id;
  }

  lemma NoAliases(aliases: map<Path, DocId>, file: DocId)
    ensures aliases + AliasMap(file, []) == aliases
  {
  }

  lemma AliasNext(aliases: map<Path, DocId>, file: DocId, observed: seq<Path>, i: nat)
    requires i < |observed|
    ensures (aliases + AliasMap(file, observed[..i]))[observed[i] := file] ==
      aliases + AliasMap(file, observed[..i + 1])
  {
    assert observed[..i + 1] == observed[..i] + [observed[i]];
  }
}
