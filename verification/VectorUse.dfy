/** How the daemon uses the vector index: which of its deletes name only points there are. */
module VectorUse {
  import opened Common
  import opened Vectors
  import opened VectorRuns
  import opened Meta
  import opened Stores
  import opened Libraries

  /** No tombstone stands for a chunk row, now or later. */
  ghost predicate Retired(chunks: map<ChunkId, ChunkRow>, chunkSeq: nat, deleted: set<ChunkId>) {
    forall c :: c in deleted ==> c !in chunks && c <= chunkSeq
  }

  ghost predicate Tidy(s: Stores) {
    Agrees(s) && Retired(s.tables.chunks, s.tables.chunkSeq, s.vector.deleted)
  }

  lemma TombstonesFrom(v: VectorState, ids: set<ChunkId>)
    ensures Tombstoned(v, ids).deleted <= v.deleted + ids
  {
    hide Live;
  }

  lemma TombstonesAfter(s: Stores, w: Write, faults: Faults)
    ensures VectorAfter(s, w, faults).deleted <= s.vector.deleted + ChunkIdsOf(s.tables.chunks, DocIdOf(s, w))
  {
    TombstonesFrom(s.vector, ChunkIdsOf(s.tables.chunks, DocIdOf(s, w)));
    hide Tombstoned, ChunkIdsOf, Paired, PointsFrom;
  }

  lemma PutRetires(s: Stores, w: Write)
    requires WellFormed(s.tables) && Retired(s.tables.chunks, s.tables.chunkSeq, s.vector.deleted)
    ensures var t := WrittenTables(s.tables, w, DocIdOf(s, w), |Paired(w)|);
      Retired(t.chunks, t.chunkSeq, VectorAfter(s, w, NoFaults(w)).deleted)
  {
    TombstonesAfter(s, w, NoFaults(w));
    WrittenChunks(s.tables, w, DocIdOf(s, w), |Paired(w)|);
    hide VectorAfter, WrittenTables, ChunkTexts, Paired, FileIds;
  }

  lemma DropRetires(s: Stores, id: DocId)
    requires WellFormed(s.tables) && Retired(s.tables.chunks, s.tables.chunkSeq, s.vector.deleted)
    ensures var r := Removed(s, id); Retired(r.tables.chunks, r.tables.chunkSeq, r.vector.deleted)
  {
    TombstonesFrom(s.vector, ChunkIdsOf(s.tables.chunks, id));
    hide Tombstoned, FileIds;
  }

  lemma NextIsTidy(s: Stores, event: Event)
    requires Tidy(s) && Embeds(event)
    ensures Tidy(StoresNext(s, event))
  {
    hide Retired, Carries, WellFormed, AllNonEmpty;
    match event
    case Put(w) =>
      WriteAgrees(s, w);
      PutRetires(s, w);
      FaultFreeFields(s, w);
      FaultFreeCounter(s, w);
      hide StoresNext, Outcome, WrittenTables, VectorAfter, Agrees;
    case Drop(path) =>
      if path in s.tables.files {
        RemovedAgrees(s, s.tables.files[path].id);
        DropRetires(s, s.tables.files[path].id);
        hide Removed, Agrees;
      }
    case Failed(f) => FailedAgrees(s, f);
    case Commit => CommitAgrees(s);
  }

  lemma FailedAgrees(s: Stores, f: Failure)
    requires Agrees(s)
    ensures Agrees(StoresNext(s, Failed(f)))
  {
    hide Carries, EmbeddingsOf;
  }

  lemma CommitAgrees(s: Stores)
    requires Agrees(s)
    ensures Agrees(StoresNext(s, Commit))
  {
    hide Carries, EmbeddingsOf, WellFormed;
  }

  lemma FaultFreeCounter(s: Stores, w: Write)
    ensures StoresNext(s, Put(w)).tables.chunkSeq == WrittenTables(s.tables, w, DocIdOf(s, w), |Paired(w)|).chunkSeq
  {
    hide Paired, ChunkTexts, StoredEmbeddings, VectorAfter, LexicalOps;
  }

  lemma {:induction false} RunsAreTidy(s: Stores, events: seq<Event>)
    requires Tidy(s) && forall e :: e in events ==> Embeds(e)
    ensures Tidy(StoresAfter(s, events))
  {
    hide Tidy, StoresNext;
    if events != [] {
      RunsAreTidy(s, events[..|events| - 1]);
      NextIsTidy(StoresAfter(s, events[..|events| - 1]), events[|events| - 1]);
    }
  }

  /** The daemon's delete of a file's vectors names only points there are if and only if every chunk
      row of the file has a stored embedding. */
  lemma FileDeleteLegalExactly(s: Stores, id: DocId)
    requires Tidy(s)
    ensures Legal(s.vector, Delete(ChunkIdsOf(s.tables.chunks, id))) <==>
      forall c :: c in ChunkIdsOf(s.tables.chunks, id) ==> s.tables.chunks[c].embedding.Some?
  {
    hide WellFormed, UniqueIds;
    forall c | c in s.tables.chunks
      ensures c in Ids(s.vector.points) <==> s.tables.chunks[c].embedding.Some?
    {
      assert c in LiveIds(s.vector) <==> c in EmbeddingsOf(s.tables.chunks);
    }
    hide Ids;
  }

  lemma EmptyIsTidy()
    ensures Tidy(EMPTY_STORES)
  {
  }

  /** The same in every state that a fault-free run reaches. */
  lemma FileDeleteLegalOverRuns(events: seq<Event>, id: DocId)
    requires forall e :: e in events ==> Embeds(e)
    ensures var s := StoresAfter(EMPTY_STORES, events);
      Legal(s.vector, Delete(ChunkIdsOf(s.tables.chunks, id))) <==>
        forall c :: c in ChunkIdsOf(s.tables.chunks, id) ==> s.tables.chunks[c].embedding.Some?
  {
    EmptyIsTidy();
    RunsAreTidy(EMPTY_STORES, events);
    FileDeleteLegalExactly(StoresAfter(EMPTY_STORES, events), id);
  }

  // ---------------------------------------------------------------------------------
  // A run on which the bound fails
  // ---------------------------------------------------------------------------------

  lemma StoresAfterTwo(s: Stores, first: Event, second: Event)
    ensures StoresAfter(s, [first, second]) == StoresNext(StoresNext(s, first), second)
  {
    hide StoresNext;
    assert [first, second][..1] == [first];
    assert [first][..0] == [];
    assert StoresAfter(s, [first]) == StoresNext(s, first);
  }

  lemma FirstPutUnembedded(w: Write)
    requires w.embeddings.None?
    ensures var s := StoresNext(EMPTY_STORES, Put(w));
      && s.vector == VectorState([], {})
      && w.candidate.canonical in s.tables.files && s.tables.files[w.candidate.canonical].id == 0
      && forall c: ChunkId :: c in ChunkIdsOf(s.tables.chunks, 0) <==> IsNew(0, |ChunkTexts(w)|, c)
  {
    FaultFreeFields(EMPTY_STORES, w);
    WrittenChunks(EMPTY_TABLES, w, 0, 0);
    forall c: ChunkId | IsNew(0, |ChunkTexts(w)|, c)
      ensures WrittenTables(EMPTY_TABLES, w, 0, 0).chunks[c].file == 0
    {
      WrittenRow(EMPTY_TABLES, w, 0, c);
    }
    assert Paired(w) == [] && PointsFrom(0, Paired(w)) == [];
    hide StoresNext, ChunkTexts, StoredEmbeddings, LexicalOps;
  }

  /** A file indexed without an embedder and deleted again leaves one tombstone for each of its
      chunks in an empty graph. There the bound fails, and nothing collects them while the graph stays
      empty. */
  lemma TombstonesWithoutPoints(w: Write)
    requires w.embeddings.None? && w.text != []
    ensures var s := StoresAfter(EMPTY_STORES, [Put(w), Drop(w.candidate.canonical)]);
      && s.vector.points == [] && s.vector.deleted != {} && !Bounded(s.vector)
      && forall c: ChunkId :: c in s.vector.deleted <==> IsNew(0, |ChunkTexts(w)|, c)
  {
    var s := StoresNext(EMPTY_STORES, Put(w));
    StoresAfterTwo(EMPTY_STORES, Put(w), Drop(w.candidate.canonical));
    FirstPutUnembedded(w);
    SomeChunk(w);
    assert IsNew(0, |ChunkTexts(w)|, 1);
    var gone := ChunkIdsOf(s.tables.chunks, 0);
    TombstonesOnEmpty(gone);
    DroppedVector(s, w.candidate.canonical);
    hide StoresNext, StoresAfter, ChunkTexts, ChunkIdsOf;
  }

  lemma DroppedVector(s: Stores, path: Path)
    requires path in s.tables.files
    ensures StoresNext(s, Drop(path)).vector ==
      Tombstoned(s.vector, ChunkIdsOf(s.tables.chunks, s.tables.files[path].id))
  {
    hide Tombstoned;
  }

  lemma TombstonesOnEmpty(ids: set<ChunkId>)
    ensures Tombstoned(VectorState([], {}), ids) == VectorState([], ids)
  {
  }

  lemma SomeChunk(w: Write)
    requires w.text != []
    ensures |ChunkTexts(w)| >= 1
  {
  }
}
