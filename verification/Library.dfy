/** The library the three stores stand for: per path one document id, and per id one entry with
    the document, its chunk texts and their embeddings. Every fault-free run of the stores is a
    run of this library. */
module Libraries {
  import opened Common
  import opened Utf8
  import opened Vectors
  import opened Lexical
  import opened Meta
  import opened Stores

  // ---------------------------------------------------------------------------------
  // Live vectors and stored embeddings
  // ---------------------------------------------------------------------------------

  /** The live vectors are exactly the stored embeddings, chunk id by chunk id. */
  ghost predicate Agrees(s: Stores) {
    Core(s) && Carries(s.vector, EmbeddingsOf(s.tables.chunks))
  }

  function NoFaults(w: Write): Faults {
    Faults(None, |Paired(w)|)
  }

  ghost predicate AllNonEmpty(vs: seq<Vector>) {
    forall i :: 0 <= i < |vs| ==> vs[i] != []
  }

  /** The row of a newly written chunk. */
  lemma WrittenRow(t: Tables, w: Write, id: DocId, c: ChunkId)
    requires IsNew(t.chunkSeq, |ChunkTexts(w)|, c)
    ensures var t' := WrittenTables(t, w, id, |Paired(w)|);
      var i := c - t.chunkSeq - 1;
      && c in t'.chunks
      && t'.chunks[c].embedding == (if i < |Paired(w)| then Blob(Paired(w)[i]) else None)
      && t'.chunks[c].file == id && t'.chunks[c].text == ChunkTexts(w)[i]
  {
    hide ChunkTexts, Paired;
  }

  lemma KeptRow(t: Tables, w: Write, id: DocId, c: ChunkId)
    requires c in t.chunks && c <= t.chunkSeq && t.chunks[c].file != id
    ensures var t' := WrittenTables(t, w, id, |Paired(w)|); c in t'.chunks && t'.chunks[c] == t.chunks[c]
  {
    hide ChunkTexts, Paired;
  }

  /** Where a chunk row after a write comes from: the write with its `n` chunks, or before. */
  ghost predicate RowOrigin(was: map<ChunkId, ChunkRow>, now: map<ChunkId, ChunkRow>, base: nat, n: nat,
                            vectors: seq<Vector>, id: DocId, c: ChunkId)
    requires c in now
  {
    if IsNew(base, |vectors|, c) then now[c].embedding == Some(vectors[c - base - 1])
    else if IsNew(base, n, c) then now[c].embedding == None
    else c in was && was[c].file != id && now[c] == was[c]
  }

  /** With `n` new rows, of which the first ones carry the vectors, the stored embeddings are the
      old ones without the file's, and the new points. */
  lemma EmbeddingsReplaced(was: map<ChunkId, ChunkRow>, now: map<ChunkId, ChunkRow>, base: nat, n: nat,
                           vectors: seq<Vector>, id: DocId)
    requires |vectors| <= n && forall c :: c in was ==> c <= base
    requires forall c :: c in now ==> RowOrigin(was, now, base, n, vectors, id, c)
    requires forall c :: c in was && was[c].file != id ==> c in now
    requires forall c :: IsNew(base, |vectors|, c) ==> c in now
    ensures var m, m' := EmbeddingsOf(was) - ChunkIdsOf(was, id), EmbeddingsOf(now);
      && m'.Keys == m.Keys + Ids(PointsFrom(base, vectors))
      && (forall c :: c in m ==> m'[c] == m[c])
      && (forall p :: p in PointsFrom(base, vectors) ==> p.id in m' && m'[p.id] == p.vector)
  {
    var m, m' := EmbeddingsOf(was) - ChunkIdsOf(was, id), EmbeddingsOf(now);
    PointsFromLaws(base, vectors);
    hide PointsFrom, UniqueIds, Ids;
    forall c | c in was && was[c].file != id
      ensures now[c] == was[c]
    {
      assert RowOrigin(was, now, base, n, vectors, id, c);
    }
    forall c: ChunkId
      ensures c in m' <==> c in m || c in Ids(PointsFrom(base, vectors))
    {
      if IsNew(base, |vectors|, c) {
        assert RowOrigin(was, now, base, n, vectors, id, c);
      }
    }
    forall p | p in PointsFrom(base, vectors)
      ensures p.id in m' && m'[p.id] == p.vector
    {
      assert RowOrigin(was, now, base, n, vectors, id, p.id);
    }
  }

  lemma RowOriginOf(t: Tables, w: Write, id: DocId, c: ChunkId)
    requires WellFormed(t) && AllNonEmpty(Paired(w))
    requires c in WrittenTables(t, w, id, |Paired(w)|).chunks
    ensures RowOrigin(t.chunks, WrittenTables(t, w, id, |Paired(w)|).chunks, t.chunkSeq, |ChunkTexts(w)|, Paired(w),
      id, c)
  {
    hide WrittenTables, ChunkTexts, Paired, FileIds;
    PairedCount(w);
    WrittenChunks(t, w, id, |Paired(w)|);
    if IsNew(t.chunkSeq, |ChunkTexts(w)|, c) {
      WrittenRow(t, w, id, c);
    } else {
      KeptRow(t, w, id, c);
    }
  }

  lemma EmbeddingsWritten(t: Tables, w: Write, id: DocId)
    requires WellFormed(t) && AllNonEmpty(Paired(w))
    ensures var m, m' := EmbeddingsOf(t.chunks) - ChunkIdsOf(t.chunks, id),
      EmbeddingsOf(WrittenTables(t, w, id, |Paired(w)|).chunks);
      && m'.Keys == m.Keys + Ids(NewPoints(t, w))
      && (forall c :: c in m ==> m'[c] == m[c])
      && (forall p :: p in NewPoints(t, w) ==> p.id in m' && m'[p.id] == p.vector)
  {
    var now := WrittenTables(t, w, id, |Paired(w)|).chunks;
    forall c | c in now
      ensures RowOrigin(t.chunks, now, t.chunkSeq, |ChunkTexts(w)|, Paired(w), id, c)
    {
      RowOriginOf(t, w, id, c);
    }
    PairedCount(w);
    WrittenChunks(t, w, id, |Paired(w)|);
    hide WrittenTables, ChunkTexts, Paired, PointsFrom, EmbeddingsOf, ChunkIdsOf, Ids, RowOrigin, FileIds, AllNonEmpty;
    EmbeddingsReplaced(t.chunks, now, t.chunkSeq, |ChunkTexts(w)|, Paired(w), id);
  }

  lemma NothingOfNewFile(s: Stores)
    requires Core(s)
    ensures ChunkIdsOf(s.tables.chunks, s.nextDoc) == {}
  {
    NewDocIsFresh(s);
    hide FileIds;
  }

  lemma CarriesWithoutFile(s: Stores, w: Write)
    requires Agrees(s)
    ensures var gone := ChunkIdsOf(s.tables.chunks, DocIdOf(s, w));
      var v := if Known(s.tables, w) then Tombstoned(s.vector, gone) else s.vector;
      && Carries(v, EmbeddingsOf(s.tables.chunks) - gone)
      && forall p :: p in v.points ==> p.id <= s.tables.chunkSeq
  {
    var gone := ChunkIdsOf(s.tables.chunks, DocIdOf(s, w));
    DeleteCarries(s.vector, EmbeddingsOf(s.tables.chunks), gone);
    TombstonedLaws(s.vector, gone);
    if !Known(s.tables, w) {
      NothingOfNewFile(s);
      assert EmbeddingsOf(s.tables.chunks) - gone == EmbeddingsOf(s.tables.chunks);
    }
    hide Carries, ChunkIdsOf, EmbeddingsOf, Tombstoned, WellFormed;
  }

  lemma UpsertIfAny(v: VectorState, m: map<ChunkId, Vector>, data: seq<Point>, m': map<ChunkId, Vector>)
    requires Carries(v, m)
    requires UniqueIds(data) && Ids(data) !! Ids(v.points)
    requires m'.Keys == m.Keys + Ids(data)
    requires forall id :: id in m ==> m'[id] == m[id]
    requires forall p :: p in data ==> p.id in m' && m'[p.id] == p.vector
    ensures Carries(if data != [] then Upserted(v, data) else v, m')
  {
    if data == [] {
      assert m' == m;
    } else {
      UpsertCarries(v, m, data, m');
    }
  }

  lemma FreshPoints(points: seq<Point>, base: nat, vectors: seq<Vector>)
    requires forall p :: p in points ==> p.id <= base
    ensures Ids(PointsFrom(base, vectors)) !! Ids(points)
    ensures UniqueIds(PointsFrom(base, vectors))
  {
    PointsFromLaws(base, vectors);
    hide PointsFrom, UniqueIds;
  }

  /** A fault-free write keeps the live vectors and the stored embeddings in agreement, even if
      the embedder is missing, fails or returns too few or too many vectors. */
  lemma WriteAgrees(s: Stores, w: Write)
    requires Agrees(s) && AllNonEmpty(Paired(w))
    ensures Agrees(Outcome(s, w, NoFaults(w)))
  {
    var t, id := s.tables, DocIdOf(s, w);
    var gone := ChunkIdsOf(t.chunks, id);
    var v := if Known(t, w) then Tombstoned(s.vector, gone) else s.vector;
    OutcomeKeepsCore(s, w, NoFaults(w));
    EmbeddingsWritten(t, w, id);
    CarriesWithoutFile(s, w);
    FreshPoints(v.points, t.chunkSeq, Paired(w));
    var m' := EmbeddingsOf(WrittenTables(t, w, id, |Paired(w)|).chunks);
    UpsertIfAny(v, EmbeddingsOf(t.chunks) - gone, NewPoints(t, w), m');
    hide Core, Paired, WrittenTables, PointsFrom, Tombstoned, ChunkIdsOf, EmbeddingsOf, LexicalOps, UniqueIds,
      Carries, Ids;
  }

  lemma NewPointLives(s: Stores, w: Write, c: ChunkId)
    requires Core(s) && IsNew(s.tables.chunkSeq, |Paired(w)|, c)
    ensures c in LiveIds(VectorAfter(s, w, NoFaults(w)))
  {
    PointsFromLaws(s.tables.chunkSeq, Paired(w));
    VectorAfterLaws(s, w, NoFaults(w));
    hide Paired, PointsFrom, VectorAfter, UniqueIds, Ids, LiveIds;
  }

  lemma EmptyEmbeddingRow(t: Tables, w: Write, id: DocId, i: nat)
    requires i < |Paired(w)| && Paired(w)[i] == []
    ensures t.chunkSeq + 1 + i !in EmbeddingsOf(WrittenTables(t, w, id, |Paired(w)|).chunks)
  {
    hide WrittenTables, Paired, ChunkTexts;
    PairedCount(w);
    WrittenRow(t, w, id, t.chunkSeq + 1 + i);
  }

  lemma EmptyEmbeddingDisagrees(s: Stores, w: Write, i: nat)
    requires Core(s) && i < |Paired(w)| && Paired(w)[i] == []
    ensures !Agrees(Outcome(s, w, NoFaults(w)))
  {
    hide Core, Paired, VectorAfter, WrittenTables, LiveIds, Carries, EmbeddingsOf, Outcome, StoresNext, LexicalOps,
      RowOf;
    NewPointLives(s, w, s.tables.chunkSeq + 1 + i);
    EmptyEmbeddingRow(s.tables, w, DocIdOf(s, w), i);
    FaultFreeFields(s, w);
    var s' := Outcome(s, w, NoFaults(w));
    CarriedIds(s'.vector, EmbeddingsOf(s'.tables.chunks));
  }

  lemma CarriedIds(v: VectorState, m: map<ChunkId, Vector>)
    ensures Carries(v, m) ==> LiveIds(v) == m.Keys
  {
  }

  /** Exactly then: an empty embedding is stored as NULL but upserted as a live vector. */
  lemma WriteAgreesExactly(s: Stores, w: Write)
    requires Agrees(s)
    ensures Agrees(Outcome(s, w, NoFaults(w))) <==> AllNonEmpty(Paired(w))
  {
    if AllNonEmpty(Paired(w)) {
      WriteAgrees(s, w);
    } else {
      var i :| 0 <= i < |Paired(w)| && Paired(w)[i] == [];
      EmptyEmbeddingDisagrees(s, w, i);
    }
  }

  lemma RemovedAgrees(s: Stores, id: DocId)
    requires Agrees(s)
    ensures Agrees(Removed(s, id))
  {
    var gone := ChunkIdsOf(s.tables.chunks, id);
    RemovedKeepsCore(s, id);
    DeleteCarries(s.vector, EmbeddingsOf(s.tables.chunks), gone);
    hide Core, Carries, Tombstoned;
    assert EmbeddingsOf(Removed(s, id).tables.chunks) == EmbeddingsOf(s.tables.chunks) - gone;
  }

  // ---------------------------------------------------------------------------------
  // The library
  // ---------------------------------------------------------------------------------

  datatype Entry = Entry(doc: Doc, texts: seq<Bytes>, embeddings: seq<Option<Vector>>)

  datatype Library = Library(ids: map<Path, DocId>, entries: map<DocId, Entry>, next: DocId)

  datatype Event = Put(write: Write) | Drop(path: Path) | Failed(failure: Failure) | Commit

  function EntryOfWrite(w: Write, id: DocId): Entry {
    Entry(DocOf(w, id), ChunkTexts(w), StoredEmbeddings(w, |Paired(w)|))
  }

  /** A put keeps the id of a known path and replaces its entry, a drop forgets path and entry. */
  function LibraryNext(lib: Library, event: Event): Library {
    match event
    case Put(w) =>
      var path := w.candidate.canonical;
      var id := if path in lib.ids then lib.ids[path] else lib.next;
      Library(lib.ids[path := id], lib.entries[id := EntryOfWrite(w, id)],
              if path in lib.ids then lib.next else lib.next + 1)
    case Drop(path) =>
      if path in lib.ids then Library(lib.ids - {path}, lib.entries - {lib.ids[path]}, lib.next) else lib
    case Failed(_) => lib
    case Commit => lib
  }

  function StoresNext(s: Stores, event: Event): Stores {
    match event
    case Put(w) => Next(s, PutFile(w, NoFaults(w)))
    case Drop(path) => if path in s.tables.files then Next(s, DropFile(s.tables.files[path].id)) else s
    case Failed(f) => Next(s, NoteFailure(f))
    case Commit => Next(s, CommitLexical)
  }

  function IdsByPath(files: map<Path, FileRow>): map<Path, DocId> {
    map p | p in files :: files[p].id
  }

  function DocsOf(entries: map<DocId, Entry>): map<DocId, Doc> {
    map id | id in entries :: entries[id].doc
  }

  function RowsOf(chunks: map<ChunkId, ChunkRow>, id: DocId): map<ChunkId, ChunkRow> {
    map c | c in chunks && chunks[c].file == id :: chunks[c]
  }

  /** The chunk rows of the file are the entry's chunks, in order under consecutive ids. */
  ghost predicate StoredAt(chunks: map<ChunkId, ChunkRow>, id: DocId, e: Entry, base: nat) {
    |e.texts| == |e.embeddings| && RowsOf(chunks, id) == NewRows(base, id, e.texts, e.embeddings)
  }

  ghost predicate Stands(chunks: map<ChunkId, ChunkRow>, id: DocId, e: Entry) {
    exists base :: StoredAt(chunks, id, e, base)
  }

  ghost predicate RowsStand(chunks: map<ChunkId, ChunkRow>, entries: map<DocId, Entry>) {
    forall id :: id in entries ==> Stands(chunks, id, entries[id])
  }

  ghost predicate FilesStand(files: map<Path, FileRow>, ids: map<Path, DocId>, entries: map<DocId, Entry>) {
    && IdsByPath(files) == ids
    && FileIds(files) == entries.Keys
    && (forall p :: p in files ==>
          files[p].id in entries && entries[files[p].id].doc.path == p && files[p].status == Done)
  }

  /** File rows, chunk rows and the documents of the next commit are those of the library. */
  ghost predicate Content(files: map<Path, FileRow>, chunks: map<ChunkId, ChunkRow>, lexical: LexicalState,
                          ids: map<Path, DocId>, entries: map<DocId, Entry>) {
    && FilesStand(files, ids, entries)
    && RowsStand(chunks, entries)
    && Holds(Visible(lexical), DocsOf(entries))
  }

  /** The three stores hold the library. */
  ghost predicate Represents(s: Stores, lib: Library) {
    && Agrees(s)
    && s.nextDoc == lib.next
    && Content(s.tables.files, s.tables.chunks, s.lexical, lib.ids, lib.entries)
  }

  const EMPTY_LIBRARY := Library(map[], map[], 0)

  // ---------------------------------------------------------------------------------
  // A put
  // ---------------------------------------------------------------------------------

  lemma PutFiles(files: map<Path, FileRow>, ids: map<Path, DocId>, entries: map<DocId, Entry>, row: FileRow, e: Entry)
    requires FilesStand(files, ids, entries)
    requires DistinctIds(files)
    requires row.status == Done
    requires if e.doc.path in files then row.id == files[e.doc.path].id else row.id !in FileIds(files)
    ensures FilesStand(files[e.doc.path := row], ids[e.doc.path := row.id], entries[row.id := e])
  {
    var path := e.doc.path;
    WrittenFiles(files, path, row);
    forall p | p in files && p != path
      ensures files[p].id != row.id && files[p].id in entries
    {
      assert files[p].id in FileIds(files);
    }
    hide FileIds;
  }

  lemma PutRows(was: map<ChunkId, ChunkRow>, now: map<ChunkId, ChunkRow>, entries: map<DocId, Entry>,
                id: DocId, e: Entry, base: nat)
    requires RowsStand(was, entries) && StoredAt(now, id, e, base)
    requires forall other :: other != id ==> RowsOf(now, other) == RowsOf(was, other)
    ensures RowsStand(now, entries[id := e])
  {
    forall other | other in entries && other != id
      ensures Stands(now, other, entries[other])
    {
      var at :| StoredAt(was, other, entries[other], at);
      assert StoredAt(now, other, entries[other], at);
    }
  }

  lemma WrittenRows(t: Tables, w: Write, id: DocId)
    requires WellFormed(t)
    ensures var now := WrittenTables(t, w, id, |Paired(w)|).chunks;
      && StoredAt(now, id, EntryOfWrite(w, id), t.chunkSeq)
      && forall other :: other != id ==> RowsOf(now, other) == RowsOf(t.chunks, other)
  {
    var now := WrittenTables(t, w, id, |Paired(w)|).chunks;
    EmbeddingsLength(w);
    hide ChunkTexts, Paired, StoredEmbeddings, FileIds;
    var rows := NewRows(t.chunkSeq, id, ChunkTexts(w), StoredEmbeddings(w, |Paired(w)|));
    assert now == (t.chunks - ChunkIdsOf(t.chunks, id)) + rows;
    RowsReplaced(t.chunks, rows, id, t.chunkSeq);
  }

  lemma RowsReplaced(was: map<ChunkId, ChunkRow>, rows: map<ChunkId, ChunkRow>, id: DocId, base: nat)
    requires forall c :: c in was ==> c <= base
    requires forall c :: c in rows ==> base < c && rows[c].file == id
    ensures var now := (was - ChunkIdsOf(was, id)) + rows;
      && RowsOf(now, id) == rows
      && forall other :: other != id ==> RowsOf(now, other) == RowsOf(was, other)
  {
  }

  lemma EmbeddingsLength(w: Write)
    ensures |StoredEmbeddings(w, |Paired(w)|)| == |ChunkTexts(w)|
  {
    hide ChunkTexts;
  }

  lemma PutDocs(l: LexicalState, entries: map<DocId, Entry>, e: Entry)
    requires Holds(Visible(l), DocsOf(entries))
    ensures Holds(Visible(Queued(l, [Remove(e.doc.id), Add(e.doc)])), DocsOf(entries[e.doc.id := e]))
    ensures e.doc.id !in entries ==> Holds(Visible(Queued(l, [Add(e.doc)])), DocsOf(entries[e.doc.id := e]))
  {
    hide Holds, Visible;
    assert DocsOf(entries[e.doc.id := e]) == DocsOf(entries)[e.doc.id := e.doc];
    ReplaceHolds(l, DocsOf(entries), e.doc);
    if e.doc.id !in entries {
      AddHolds(l, DocsOf(entries), e.doc);
    }
  }

  lemma FaultFreeOps(s: Stores, w: Write)
    ensures LexicalOps(s, w, NoFaults(w)) ==
      if Known(s.tables, w) then [Remove(DocIdOf(s, w)), Add(DocOf(w, DocIdOf(s, w)))]
        else [Add(DocOf(w, DocIdOf(s, w)))]
  {
    hide Paired;
  }

  lemma FaultFreeFields(s: Stores, w: Write)
    ensures var s', id := StoresNext(s, Put(w)), DocIdOf(s, w);
      && s' == Outcome(s, w, NoFaults(w))
      && s'.tables.files == s.tables.files[w.candidate.canonical := RowOf(w, id)]
      && s'.tables.chunks == WrittenTables(s.tables, w, id, |Paired(w)|).chunks
      && s'.lexical == Queued(s.lexical, LexicalOps(s, w, NoFaults(w)))
      && s'.vector == VectorAfter(s, w, NoFaults(w))
      && s'.nextDoc == if Known(s.tables, w) then s.nextDoc else s.nextDoc + 1
  {
    hide Paired, ChunkTexts, StoredEmbeddings, VectorAfter, LexicalOps;
  }

  lemma PutContent(s: Stores, ids: map<Path, DocId>, entries: map<DocId, Entry>, w: Write)
    requires Core(s) && Content(s.tables.files, s.tables.chunks, s.lexical, ids, entries)
    ensures var id, path := DocIdOf(s, w), w.candidate.canonical;
      Content(s.tables.files[path := RowOf(w, id)], WrittenTables(s.tables, w, id, |Paired(w)|).chunks,
              Queued(s.lexical, LexicalOps(s, w, NoFaults(w))), ids[path := id], entries[id := EntryOfWrite(w, id)])
  {
    var id := DocIdOf(s, w);
    var e := EntryOfWrite(w, id);
    NewDocIsFresh(s);
    FaultFreeOps(s, w);
    PutFiles(s.tables.files, ids, entries, RowOf(w, id), e);
    WrittenRows(s.tables, w, id);
    PutRows(s.tables.chunks, WrittenTables(s.tables, w, id, |Paired(w)|).chunks, entries, id, e, s.tables.chunkSeq);
    PutDocs(s.lexical, entries, e);
    hide RowsStand, Holds, Visible, LexicalOps, ChunkTexts, Paired, StoredEmbeddings, FileIds, WrittenTables, Queued,
      StoredAt, RowsOf;
  }

  lemma PutRepresents(s: Stores, lib: Library, w: Write)
    requires Represents(s, lib) && AllNonEmpty(Paired(w))
    ensures Represents(StoresNext(s, Put(w)), LibraryNext(lib, Put(w)))
  {
    FaultFreeFields(s, w);
    WriteAgrees(s, w);
    PutContent(s, lib.ids, lib.entries, w);
    assert forall p :: p in s.tables.files ==> p in IdsByPath(s.tables.files);
    hide Agrees, RowsStand, Holds, FileIds, Outcome, WrittenTables, StoresNext, Queued, LexicalOps, EntryOfWrite, RowOf;
    assert Known(s.tables, w) <==> w.candidate.canonical in lib.ids;
    hide Content;
  }

  // ---------------------------------------------------------------------------------
  // A drop and a commit
  // ---------------------------------------------------------------------------------

  lemma DropFiles(files: map<Path, FileRow>, path: Path, ids: map<Path, DocId>, entries: map<DocId, Entry>)
    requires DistinctIds(files)
    requires FilesStand(files, ids, entries) && path in files
    ensures FilesStand(files - {path}, ids - {path}, entries - {files[path].id})
  {
    WithoutPath(files, path);
    RemainingIds(files, files[path].id);
    hide FileIds;
    assert IdsByPath(files - {path}) == ids - {path};
  }

  lemma RowsOfOthers(chunks: map<ChunkId, ChunkRow>, id: DocId, other: DocId)
    requires other != id
    ensures RowsOf(ChunksWithout(chunks, id), other) == RowsOf(chunks, other)
  {
  }

  lemma DropRows(chunks: map<ChunkId, ChunkRow>, id: DocId, entries: map<DocId, Entry>)
    requires RowsStand(chunks, entries)
    ensures RowsStand(ChunksWithout(chunks, id), entries - {id})
  {
    var now := ChunksWithout(chunks, id);
    hide RowsOf, ChunksWithout;
    forall other | other in entries && other != id
      ensures Stands(now, other, entries[other])
    {
      var at :| StoredAt(chunks, other, entries[other], at);
      RowsOfOthers(chunks, id, other);
      assert StoredAt(now, other, entries[other], at);
    }
  }

  lemma DropDocs(l: LexicalState, entries: map<DocId, Entry>, id: DocId)
    requires Holds(Visible(l), DocsOf(entries))
    ensures Holds(Visible(Queued(l, [Remove(id)])), DocsOf(entries - {id}))
  {
    RemoveHolds(l, DocsOf(entries), id);
    hide Holds, Visible;
    assert DocsOf(entries - {id}) == DocsOf(entries) - {id};
  }

  lemma RemovedFields(s: Stores, id: DocId)
    ensures var s' := Removed(s, id);
      && s'.tables.files == FilesWithout(s.tables.files, id)
      && s'.tables.chunks == ChunksWithout(s.tables.chunks, id)
      && s'.lexical == Queued(s.lexical, [Remove(id)]) && s'.nextDoc == s.nextDoc
  {
    hide Tombstoned;
  }

  lemma DropContent(t: Tables, l: LexicalState, lib: Library, path: Path)
    requires WellFormed(t) && path in t.files
    requires Content(t.files, t.chunks, l, lib.ids, lib.entries)
    ensures var id := t.files[path].id;
      && path in lib.ids && lib.ids[path] == id
      && Content(FilesWithout(t.files, id), ChunksWithout(t.chunks, id), Queued(l, [Remove(id)]), lib.ids - {path},
           lib.entries - {id})
  {
    var id := t.files[path].id;
    assert path in IdsByPath(t.files);
    WithoutPath(t.files, path);
    DropFiles(t.files, path, lib.ids, lib.entries);
    DropRows(t.chunks, id, lib.entries);
    DropDocs(l, lib.entries, id);
    hide RowsStand, Holds, Visible, FileIds, FilesStand, Queued, FilesWithout, ChunksWithout;
  }

  lemma DropRepresents(s: Stores, lib: Library, path: Path)
    requires Represents(s, lib)
    ensures Represents(StoresNext(s, Drop(path)), LibraryNext(lib, Drop(path)))
  {
    hide RowsStand, Holds, FileIds, Removed, Carries, Queued, FilesWithout, ChunksWithout;
    if path in s.tables.files {
      var id := s.tables.files[path].id;
      RemovedAgrees(s, id);
      RemovedFields(s, id);
      DropContent(s.tables, s.lexical, lib, path);
      hide Agrees, Content;
    } else {
      assert path !in IdsByPath(s.tables.files);
    }
  }

  /** A commit makes the library's documents, each exactly once, the searchable ones. */
  lemma CommitRepresents(s: Stores, lib: Library)
    requires Represents(s, lib)
    ensures Represents(StoresNext(s, Commit), LibraryNext(lib, Commit))
    ensures Holds(StoresNext(s, Commit).lexical.committed, DocsOf(lib.entries))
  {
    hide Holds, RowsStand, FilesStand, Carries, WellFormed, DocsOf;
  }

  lemma FailedRepresents(s: Stores, lib: Library, f: Failure)
    requires Represents(s, lib)
    ensures Represents(StoresNext(s, Failed(f)), LibraryNext(lib, Failed(f)))
  {
    hide Holds, RowsStand, FilesStand, Carries;
  }

  // ---------------------------------------------------------------------------------
  // Runs
  // ---------------------------------------------------------------------------------

  function StoresAfter(s: Stores, events: seq<Event>): Stores {
    if events == [] then s else StoresNext(StoresAfter(s, events[..|events| - 1]), events[|events| - 1])
  }

  function LibraryAfter(lib: Library, events: seq<Event>): Library {
    if events == [] then lib else LibraryNext(LibraryAfter(lib, events[..|events| - 1]), events[|events| - 1])
  }

  ghost predicate Embeds(event: Event) {
    event.Put? ==> AllNonEmpty(Paired(event.write))
  }

  /** Every fault-free run of the three stores is a run of the library. */
  lemma {:induction false} RunsRepresent(s: Stores, lib: Library, events: seq<Event>)
    requires Represents(s, lib) && forall e :: e in events ==> Embeds(e)
    ensures Represents(StoresAfter(s, events), LibraryAfter(lib, events))
  {
    hide Represents;
    if events != [] {
      var init, last := events[..|events| - 1], events[|events| - 1];
      var s', lib' := StoresAfter(s, init), LibraryAfter(lib, init);
      RunsRepresent(s, lib, init);
      assert Embeds(last);
      match last {
        case Put(w) => PutRepresents(s', lib', w);
        case Drop(path) => DropRepresents(s', lib', path);
        case Failed(f) => FailedRepresents(s', lib', f);
        case Commit => CommitRepresents(s', lib');
      }
    }
  }

  lemma EmptyRepresents()
    ensures Represents(EMPTY_STORES, EMPTY_LIBRARY)
  {
  }

  /** What it means to represent a library once the writer has been committed. */
  lemma ReadStores(s: Stores, lib: Library)
    requires Represents(s, lib) && Holds(s.lexical.committed, DocsOf(lib.entries))
    ensures s.tables.files.Keys == lib.ids.Keys
    ensures forall p :: p in s.tables.files ==>
      && s.tables.files[p].id == lib.ids[p] && lib.ids[p] in lib.entries && lib.entries[lib.ids[p]].doc.path == p
      && Matching(s.lexical.committed, lib.ids[p]) == [lib.entries[lib.ids[p]].doc]
    ensures forall id :: id !in FileIds(s.tables.files) ==> Matching(s.lexical.committed, id) == []
    ensures Carries(s.vector, EmbeddingsOf(s.tables.chunks))
  {
    assert forall p :: p in s.tables.files <==> p in IdsByPath(s.tables.files);
    hide RowsStand, Visible, FileIds, Core, Carries, EmbeddingsOf, Matching;
  }

  /** After a fault-free run and a commit the stores agree: the searchable documents are one per
      stored file, with its id, path and latest text, and the live vectors are the stored
      embeddings. */
  lemma RunThenCommit(events: seq<Event>)
    requires forall e :: e in events ==> Embeds(e)
    ensures var s, lib := StoresNext(StoresAfter(EMPTY_STORES, events), Commit), LibraryAfter(EMPTY_LIBRARY, events);
      && Represents(s, lib)
      && s.tables.files.Keys == lib.ids.Keys
      && (forall p :: p in s.tables.files ==>
            && lib.ids[p] in lib.entries && lib.entries[lib.ids[p]].doc.path == p
            && Matching(s.lexical.committed, s.tables.files[p].id) == [lib.entries[lib.ids[p]].doc])
      && (forall id :: id !in FileIds(s.tables.files) ==> Matching(s.lexical.committed, id) == [])
      && LiveIds(s.vector) == EmbeddingsOf(s.tables.chunks).Keys
  {
    EmptyRepresents();
    RunsRepresent(EMPTY_STORES, EMPTY_LIBRARY, events);
    var s, lib := StoresAfter(EMPTY_STORES, events), LibraryAfter(EMPTY_LIBRARY, events);
    CommitRepresents(s, lib);
    assert LibraryNext(lib, Commit) == lib;
    hide StoresAfter, LibraryAfter, StoresNext, LibraryNext, Represents, FileIds, LiveIds, EmbeddingsOf, Matching,
      Holds;
    ReadStores(StoresNext(s, Commit), lib);
  }
}
