/** What a failing write leaves in the stores: when they still hold the library, which documents
    they disagree about otherwise, and what repairs that. */
module FailedWrites {
  import opened Common
  import Utf8
  import opened Vectors
  import opened Lexical
  import opened Meta
  import opened Stores
  import opened Libraries
  import opened LibraryRuns

  // ---------------------------------------------------------------------------------
  // When nothing is lost
  // ---------------------------------------------------------------------------------

  /** The write fails after it has tombstoned an embedded chunk of the old version. */
  ghost predicate LosesVectors(s: Stores, w: Write, faults: Faults) {
    && Known(s.tables, w) && Passes(s.tables, w, faults, ReadChunks)
    && exists c :: c in ChunkIdsOf(s.tables.chunks, DocIdOf(s, w)) && s.tables.chunks[c].embedding.Some?
  }

  lemma FailedVector(s: Stores, w: Write, faults: Faults)
    requires Fails(s.tables, w, faults) && !(AfterUpsert(faults) && Paired(w) != [])
    ensures Outcome(s, w, faults).vector ==
      if Known(s.tables, w) && Passes(s.tables, w, faults, ReadChunks)
        then Tombstoned(s.vector, ChunkIdsOf(s.tables.chunks, DocIdOf(s, w))) else s.vector
    ensures Outcome(s, w, faults).tables.chunks == s.tables.chunks
  {
    hide Tombstoned, ChunkIdsOf, Paired, LexicalOps, WrittenTables;
    NoNewPoints(s.tables.chunkSeq);
  }

  lemma TombstonedCarries(v: VectorState, m: map<ChunkId, Vector>, ids: set<ChunkId>)
    requires Carries(v, m)
    ensures Carries(Tombstoned(v, ids), m) <==> ids !! m.Keys
  {
    DeleteCarries(v, m, ids);
    TombstonedLaws(v, ids);
    hide Tombstoned, UniqueIds;
    if ids !! m.Keys {
      assert m - ids == m;
    }
  }

  /** After a failing write the live vectors are the stored embeddings if and only if it has neither
      tombstoned an embedded chunk nor upserted a vector. */
  lemma FailedAgreesExactly(s: Stores, w: Write, faults: Faults)
    requires Agrees(s) && Fails(s.tables, w, faults)
    ensures Agrees(Outcome(s, w, faults)) <==> !LosesVectors(s, w, faults) && !(AfterUpsert(faults) && Paired(w) != [])
  {
    CoreKeptExactly(s, w, faults);
    hide Core, Paired, Outcome, Carries, Fails, Tombstoned;
    if !(AfterUpsert(faults) && Paired(w) != []) {
      FailedVector(s, w, faults);
      TombstonedCarries(s.vector, EmbeddingsOf(s.tables.chunks), ChunkIdsOf(s.tables.chunks, DocIdOf(s, w)));
    }
  }

  // ---------------------------------------------------------------------------------
  // When no embedding is lost
  // ---------------------------------------------------------------------------------

  lemma UnfailingOutcome(s: Stores, w: Write, faults: Faults)
    requires !Fails(s.tables, w, faults)
    ensures Outcome(s, w, faults) == Outcome(s, w, Faults(None, faults.stored))
  {
    hide WrittenTables, Tombstoned, ChunkIdsOf, Paired, PointsFrom;
  }

  lemma RowAt(kept: map<ChunkId, ChunkRow>, base: nat, id: DocId, texts: seq<Utf8.Bytes>,
              embeddings: seq<Option<Vector>>, i: nat)
    requires i < |texts| == |embeddings| && embeddings[i] == None
    ensures base + 1 + i !in EmbeddingsOf(kept + NewRows(base, id, texts, embeddings))
  {
    assert IsNew(base, |texts|, base + 1 + i);
  }

  lemma NotStored(w: Write, stored: nat, i: nat)
    requires i < |Paired(w)| && (i >= stored || Paired(w)[i] == [])
    ensures i < |ChunkTexts(w)| == |StoredEmbeddings(w, stored)| && StoredEmbeddings(w, stored)[i] == None
  {
    PairedCount(w);
    hide ChunkTexts, Paired;
  }

  lemma WrittenChunkRows(t: Tables, w: Write, id: DocId, stored: nat)
    requires |ChunkTexts(w)| == |StoredEmbeddings(w, stored)|
    ensures WrittenTables(t, w, id, stored).chunks ==
      (t.chunks - ChunkIdsOf(t.chunks, id)) + NewRows(t.chunkSeq, id, ChunkTexts(w), StoredEmbeddings(w, stored))
  {
    hide ChunkTexts, StoredEmbeddings, ChunkIdsOf, NewRows;
  }

  lemma StoredRow(t: Tables, w: Write, id: DocId, stored: nat, i: nat)
    requires i < |Paired(w)| && (i >= stored || Paired(w)[i] == [])
    ensures t.chunkSeq + 1 + i !in EmbeddingsOf(WrittenTables(t, w, id, stored).chunks)
  {
    hide *;
    NotStored(w, stored, i);
    WrittenChunkRows(t, w, id, stored);
    RowAt(t.chunks - ChunkIdsOf(t.chunks, id), t.chunkSeq, id, ChunkTexts(w), StoredEmbeddings(w, stored), i);
  }

  lemma OutcomeVectorAndRows(s: Stores, w: Write, stored: nat)
    ensures var s' := Outcome(s, w, Faults(None, stored));
      && s'.vector == VectorAfter(s, w, NoFaults(w))
      && s'.tables.chunks == WrittenTables(s.tables, w, DocIdOf(s, w), stored).chunks
  {
    hide WrittenTables, Tombstoned, ChunkIdsOf, Paired, PointsFrom;
  }

  lemma LostEmbeddingDisagrees(s: Stores, w: Write, stored: nat, i: nat)
    requires Core(s) && i < |Paired(w)| && (i >= stored || Paired(w)[i] == [])
    ensures !Agrees(Outcome(s, w, Faults(None, stored)))
  {
    hide Core, Paired, VectorAfter, WrittenTables, LiveIds, Carries, EmbeddingsOf, Outcome;
    NewPointLives(s, w, s.tables.chunkSeq + 1 + i);
    StoredRow(s.tables, w, DocIdOf(s, w), stored, i);
    OutcomeVectorAndRows(s, w, stored);
    var s' := Outcome(s, w, Faults(None, stored));
    CarriedIds(s'.vector, EmbeddingsOf(s'.tables.chunks));
  }

  /** After a write that goes through, the live vectors are the stored embeddings if and only if all
      embeddings used were stored and none was empty. */
  lemma CommittedAgreesExactly(s: Stores, w: Write, faults: Faults)
    requires Agrees(s) && !Fails(s.tables, w, faults)
    ensures Agrees(Outcome(s, w, faults)) <==> AllNonEmpty(Paired(w)) && faults.stored >= |Paired(w)|
  {
    UnfailingOutcome(s, w, faults);
    hide Agrees, Outcome, Paired, Fails;
    if !AllNonEmpty(Paired(w)) {
      var i :| 0 <= i < |Paired(w)| && Paired(w)[i] == [];
      AgreesIsCore(s);
      LostEmbeddingDisagrees(s, w, faults.stored, i);
    } else if faults.stored < |Paired(w)| {
      AgreesIsCore(s);
      LostEmbeddingDisagrees(s, w, faults.stored, faults.stored);
    } else {
      SoundOutcome(s, w, Faults(None, faults.stored));
      WriteAgrees(s, w);
    }
  }

  lemma AgreesIsCore(s: Stores)
    requires Agrees(s)
    ensures Core(s)
  {
  }

  // ---------------------------------------------------------------------------------
  // The lexical document
  // ---------------------------------------------------------------------------------

  lemma MatchingAfter(l: LexicalState, op: Op, id: DocId)
    ensures Matching(Visible(Queued(l, [op])), id) ==
      match op
      case Add(doc) => Matching(Visible(l), id) + if doc.id == id then [doc] else []
      case Remove(gone) => if gone == id then [] else Matching(Visible(l), id)
  {
    VisibleNext(l, op);
    hide Matching, Visible, Without;
    match op
    case Add(doc) => MatchingAdd(Visible(l), doc, id);
    case Remove(gone) => MatchingWithout(Visible(l), gone, id);
  }

  lemma QueuedTwice(l: LexicalState, a: seq<Op>, b: seq<Op>)
    ensures Queued(Queued(l, a), b) == Queued(l, a + b)
  {
  }

  /** The documents of each id after a write, failing or not. */
  lemma MatchingOutcome(s: Stores, w: Write, faults: Faults, id: DocId)
    ensures var mine := DocIdOf(s, w);
      var before := Matching(Visible(s.lexical), id);
      var kept := if Known(s.tables, w) && Passes(s.tables, w, faults, DeleteDocument) && id == mine then []
        else before;
      Matching(Visible(Outcome(s, w, faults).lexical), id) ==
        kept + if Passes(s.tables, w, faults, AddDocument) && id == mine then [DocOf(w, mine)] else []
  {
    var mine := DocIdOf(s, w);
    var removes := Known(s.tables, w) && Passes(s.tables, w, faults, DeleteDocument);
    var adds := Passes(s.tables, w, faults, AddDocument);
    var removed := if removes then [Remove(mine)] else [];
    var added := if adds then [Add(DocOf(w, mine))] else [];
    OutcomeLexical(s, w, faults);
    QueuedTwice(s.lexical, removed, added);
    var l := Queued(s.lexical, removed);
    QueuedNothing(s.lexical);
    QueuedNothing(l);
    hide Matching, Visible, Queued, Passes, Outcome, LexicalOps;
    if removes {
      MatchingAfter(s.lexical, Remove(mine), id);
    }
    if adds {
      MatchingAfter(l, Add(DocOf(w, mine)), id);
    }
    assert Matching(Visible(l), id) + [] == Matching(Visible(l), id);
  }

  lemma QueuedNothing(l: LexicalState)
    ensures Queued(l, []) == l
  {
  }

  lemma OutcomeLexical(s: Stores, w: Write, faults: Faults)
    ensures Outcome(s, w, faults).lexical == Queued(s.lexical, LexicalOps(s, w, faults))
    ensures LexicalOps(s, w, faults) ==
      (if Known(s.tables, w) && Passes(s.tables, w, faults, DeleteDocument) then [Remove(DocIdOf(s, w))] else []) +
      if Passes(s.tables, w, faults, AddDocument) then [Add(DocOf(w, DocIdOf(s, w)))] else []
  {
    hide VectorAfter, WrittenTables, Passes;
  }

  /** The lexical writer ends up with what it had: the write fails before it removes the old document,
      or after it has added an equal one, or before it adds a document of a new file. */
  ghost predicate KeepsDocument(s: Stores, lib: Library, w: Write, faults: Faults) {
    var id := DocIdOf(s, w);
    if Known(s.tables, w) then
      !Passes(s.tables, w, faults, DeleteDocument)
      || (Passes(s.tables, w, faults, AddDocument) && id in lib.entries && DocOf(w, id) == lib.entries[id].doc)
    else !Passes(s.tables, w, faults, AddDocument)
  }

  /** The library after a failing write: nothing but a document id used up. */
  function Skipped(lib: Library, w: Write, faults: Faults): Library {
    if w.candidate.canonical in lib.ids || faults.failing == Some(FindFile) then lib else lib.(next := lib.next + 1)
  }

  lemma AddIsLater(t: Tables, w: Write, faults: Faults)
    ensures Passes(t, w, faults, AddDocument) ==>
      Passes(t, w, faults, ReadChunks) && Passes(t, w, faults, DeleteDocument)
  {
  }

  lemma HoldsButFor(a: seq<Doc>, b: seq<Doc>, m: map<DocId, Doc>, id: DocId)
    requires Holds(a, m) && forall other :: other != id ==> Matching(b, other) == Matching(a, other)
    ensures Holds(b, m) <==> Matching(b, id) == if id in m then [m[id]] else []
  {
    hide Matching;
  }

  lemma DocumentKept(before: seq<Doc>, doc: Doc, known: bool, removes: bool, adds: bool)
    requires removes ==> known
    requires known && adds ==> removes
    requires if known then |before| == 1 else before == []
    ensures (if removes then [] else before) + (if adds then [doc] else []) == before <==>
      if known then !removes || (adds && doc == before[0]) else !adds
  {
  }

  lemma HoldsExactly(s: Stores, lib: Library, w: Write, faults: Faults)
    requires Core(s) && FilesStand(s.tables.files, lib.ids, lib.entries)
    requires Holds(Visible(s.lexical), DocsOf(lib.entries))
    ensures Holds(Visible(Outcome(s, w, faults).lexical), DocsOf(lib.entries)) <==> KeepsDocument(s, lib, w, faults)
  {
    var id, m := DocIdOf(s, w), DocsOf(lib.entries);
    var docs, docs' := Visible(s.lexical), Visible(Outcome(s, w, faults).lexical);
    var known := Known(s.tables, w);
    var removes, adds := known && Passes(s.tables, w, faults, DeleteDocument), Passes(s.tables, w, faults, AddDocument);
    hide Outcome, Visible, Matching, Passes, WellFormed;
    NewDocIsFresh(s);
    KnownId(s, w);
    AddIsLater(s.tables, w, faults);
    hide FileIds;
    forall other | other != id
      ensures Matching(docs', other) == Matching(docs, other)
    {
      MatchingOutcome(s, w, faults, other);
      assert Matching(docs, other) + [] == Matching(docs, other);
    }
    HoldsButFor(docs, docs', m, id);
    MatchingOutcome(s, w, faults, id);
    assert id in m <==> known;
    DocumentKept(Matching(docs, id), DocOf(w, id), known, removes, adds);
  }

  lemma KnownId(s: Stores, w: Write)
    ensures Known(s.tables, w) ==> DocIdOf(s, w) in FileIds(s.tables.files)
  {
  }

  lemma FailedFields(s: Stores, w: Write, faults: Faults)
    requires Fails(s.tables, w, faults)
    ensures var s' := Outcome(s, w, faults);
      && s'.tables.files == s.tables.files && s'.tables.chunks == s.tables.chunks
      && s'.nextDoc == if Known(s.tables, w) || faults.failing == Some(FindFile) then s.nextDoc else s.nextDoc + 1
  {
    hide VectorAfter, LexicalOps, WrittenTables;
  }

  lemma KnownInLibrary(s: Stores, lib: Library, w: Write)
    requires FilesStand(s.tables.files, lib.ids, lib.entries)
    ensures Known(s.tables, w) <==> w.candidate.canonical in lib.ids
    ensures Known(s.tables, w) ==> lib.ids[w.candidate.canonical] == DocIdOf(s, w)
  {
    assert w.candidate.canonical in IdsByPath(s.tables.files) <==> Known(s.tables, w);
    hide FileIds;
  }

  /** After a failing write the three stores hold the same library as before if and only if the
      lexical writer has kept the document and the vector index the vectors of the old version, and
      no new vector was upserted. */
  lemma FailedRepresentsExactly(s: Stores, lib: Library, w: Write, faults: Faults)
    requires Represents(s, lib) && Fails(s.tables, w, faults)
    ensures Represents(Outcome(s, w, faults), Skipped(lib, w, faults)) <==>
      && KeepsDocument(s, lib, w, faults) && !LosesVectors(s, w, faults)
      && !(AfterUpsert(faults) && Paired(w) != [])
  {
    hide Carries, RowsStand, FilesStand, Outcome, Holds, Visible, KeepsDocument, LosesVectors, Paired, Fails;
    FailedAgreesExactly(s, w, faults);
    HoldsExactly(s, lib, w, faults);
    FailedFields(s, w, faults);
    KnownInLibrary(s, lib, w);
    hide Agrees, Core;
  }

  // ---------------------------------------------------------------------------------
  // Agreement but for some documents
  // ---------------------------------------------------------------------------------

  ghost predicate HoldsBut(docs: seq<Doc>, m: map<DocId, Doc>, out: set<DocId>) {
    && (forall id :: id in m ==> m[id].id == id)
    && forall id :: id !in out ==> Matching(docs, id) == if id in m then [m[id]] else []
  }

  ghost predicate CarriesBut(v: VectorState, m: map<ChunkId, Vector>, out: set<ChunkId>) {
    && UniqueIds(v.points)
    && LiveIds(v) - out == m.Keys - out
    && forall p :: p in v.points && p.id !in v.deleted && p.id !in out ==> p.id in m && m[p.id] == p.vector
  }

  function RowsOfAll(chunks: map<ChunkId, ChunkRow>, out: set<DocId>): set<ChunkId> {
    set c | c in chunks && chunks[c].file in out
  }

  /** The stores are in order and hold the library, but for the lexical documents and the vectors of
      the ids in `out`, all given out already. */
  ghost predicate Except(s: Stores, lib: Library, out: set<DocId>) {
    && Core(s) && s.nextDoc == lib.next && (forall id :: id in out ==> id < lib.next)
    && FilesStand(s.tables.files, lib.ids, lib.entries)
    && RowsStand(s.tables.chunks, lib.entries)
    && HoldsBut(Visible(s.lexical), DocsOf(lib.entries), out)
    && CarriesBut(s.vector, EmbeddingsOf(s.tables.chunks), RowsOfAll(s.tables.chunks, out))
  }

  lemma ExceptNothing(s: Stores, lib: Library)
    ensures Except(s, lib, {}) <==> Represents(s, lib)
  {
    hide Core, FilesStand, RowsStand, Visible, Matching, UniqueIds, EmbeddingsOf, DocsOf;
    assert RowsOfAll(s.tables.chunks, {}) == {};
    hide RowsOfAll;
    CarriesButNothing(s.vector, EmbeddingsOf(s.tables.chunks));
    HoldsButNothing(Visible(s.lexical), DocsOf(lib.entries));
    hide Carries, CarriesBut, Holds, HoldsBut;
  }

  lemma CarriesButNothing(v: VectorState, m: map<ChunkId, Vector>)
    ensures CarriesBut(v, m, {}) <==> Carries(v, m)
  {
    hide UniqueIds;
    assert LiveIds(v) - {} == LiveIds(v) && m.Keys - {} == m.Keys;
  }

  lemma HoldsButNothing(docs: seq<Doc>, m: map<DocId, Doc>)
    ensures HoldsBut(docs, m, {}) <==> Holds(docs, m)
  {
    hide Matching;
  }

  // ---------------------------------------------------------------------------------
  // A delete and an upsert of vectors
  // ---------------------------------------------------------------------------------

  lemma DeleteCarriesBut(v: VectorState, m: map<ChunkId, Vector>, out: set<ChunkId>, ids: set<ChunkId>)
    requires CarriesBut(v, m, out)
    ensures CarriesBut(Tombstoned(v, ids), m - ids, out)
  {
    hide Tombstoned, UniqueIds;
    TombstonedLaws(v, ids);
    SameOutside(LiveIds(v), m.Keys, out, ids, {});
    var d := Tombstoned(v, ids);
    forall p | p in d.points && p.id !in d.deleted && p.id !in out
      ensures p.id in m - ids && (m - ids)[p.id] == p.vector
    {
      assert p.id in LiveIds(d);
    }
    assert (m - ids).Keys == m.Keys - ids;
  }

  lemma SameOutside(a: set<ChunkId>, b: set<ChunkId>, out: set<ChunkId>, less: set<ChunkId>, more: set<ChunkId>)
    requires a - out == b - out
    ensures (a - less) - out == (b - less) - out
    ensures (a + more) - out == (b + more) - out
  {
    assert forall c :: c in a && c !in out <==> c in a - out;
    assert forall c :: c in b && c !in out <==> c in b - out;
  }

  lemma CarriesButLess(v: VectorState, m: map<ChunkId, Vector>, out: set<ChunkId>, gone: set<ChunkId>)
    requires CarriesBut(v, m - gone, out) && LiveIds(v) !! gone
    ensures CarriesBut(v, m - gone, out - gone)
  {
    hide UniqueIds;
    forall c: ChunkId
      ensures c in LiveIds(v) - (out - gone) <==> c in (m - gone).Keys - (out - gone)
    {
      assert c in LiveIds(v) - out <==> c in (m - gone).Keys - out;
    }
  }

  lemma UpsertCarriesBut(v: VectorState, m: map<ChunkId, Vector>, out: set<ChunkId>, data: seq<Point>,
                         m': map<ChunkId, Vector>)
    requires CarriesBut(v, m, out)
    requires UniqueIds(data) && Ids(data) !! Ids(v.points)
    requires m'.Keys == m.Keys + Ids(data)
    requires forall id :: id in m ==> m'[id] == m[id]
    requires forall p :: p in data ==> p.id in m' && m'[p.id] == p.vector
    ensures CarriesBut(if data != [] then Upserted(v, data) else v, m', out)
  {
    if data == [] {
      assert Ids(data) == {};
      assert m' == m;
    } else {
      UpsertedLaws(v, data);
      UniqueConcat(v.points, data);
      SameOutside(LiveIds(v), m.Keys, out, {}, Ids(data));
      var u := Upserted(v, data);
      forall p | p in u.points && p.id !in u.deleted && p.id !in out
        ensures p.id in m' && m'[p.id] == p.vector
      {
        if p !in data {
          assert p.id in Ids(v.points);
        }
      }
    }
  }

  // ---------------------------------------------------------------------------------
  // A good write
  // ---------------------------------------------------------------------------------

  lemma OutRowsReplaced(was: map<ChunkId, ChunkRow>, rows: map<ChunkId, ChunkRow>, id: DocId, base: nat,
                        out: set<DocId>)
    requires forall c :: c in was ==> c <= base
    requires forall c :: c in rows ==> base < c && rows[c].file == id
    ensures RowsOfAll((was - ChunkIdsOf(was, id)) + rows, out - {id}) == RowsOfAll(was, out) - ChunkIdsOf(was, id)
  {
  }

  lemma OutRows(t: Tables, w: Write, id: DocId, out: set<DocId>)
    requires WellFormed(t)
    ensures RowsOfAll(WrittenTables(t, w, id, |Paired(w)|).chunks, out - {id}) ==
      RowsOfAll(t.chunks, out) - ChunkIdsOf(t.chunks, id)
  {
    EmbeddingsLength(w);
    hide ChunkTexts, Paired, StoredEmbeddings, FileIds;
    var rows := NewRows(t.chunkSeq, id, ChunkTexts(w), StoredEmbeddings(w, |Paired(w)|));
    assert WrittenTables(t, w, id, |Paired(w)|).chunks == (t.chunks - ChunkIdsOf(t.chunks, id)) + rows;
    OutRowsReplaced(t.chunks, rows, id, t.chunkSeq, out);
  }

  lemma PutCarries(s: Stores, w: Write, out: set<DocId>)
    requires Core(s) && AllNonEmpty(Paired(w))
    requires CarriesBut(s.vector, EmbeddingsOf(s.tables.chunks), RowsOfAll(s.tables.chunks, out))
    requires DocIdOf(s, w) == s.nextDoc ==> s.nextDoc !in out
    ensures var s' := Outcome(s, w, NoFaults(w));
      CarriesBut(s'.vector, EmbeddingsOf(s'.tables.chunks), RowsOfAll(s'.tables.chunks, out - {DocIdOf(s, w)}))
  {
    var t, id := s.tables, DocIdOf(s, w);
    var gone, rows := ChunkIdsOf(t.chunks, id), RowsOfAll(t.chunks, out);
    var v := if Known(t, w) then Tombstoned(s.vector, gone) else s.vector;
    var m, m' := EmbeddingsOf(t.chunks) - gone, EmbeddingsOf(WrittenTables(t, w, id, |Paired(w)|).chunks);
    OutRows(t, w, id, out);
    EmbeddingsWritten(t, w, id);
    GoneCarries(s, w, rows);
    FreshPoints(v.points, t.chunkSeq, Paired(w));
    UpsertCarriesBut(v, m, rows - gone, NewPoints(t, w), m');
    FaultFreeFields(s, w);
    hide Core, Paired, WrittenTables, PointsFrom, Tombstoned, ChunkIdsOf, EmbeddingsOf, UniqueIds, CarriesBut, Ids,
      RowsOfAll, RowOf, Outcome, StoresNext;
    FaultFreeVector(s, w);
  }

  lemma FaultFreeVector(s: Stores, w: Write)
    ensures VectorAfter(s, w, NoFaults(w)) ==
      var v := if Known(s.tables, w) then Tombstoned(s.vector, ChunkIdsOf(s.tables.chunks, DocIdOf(s, w)))
        else s.vector;
      if NewPoints(s.tables, w) != [] then Upserted(v, NewPoints(s.tables, w)) else v
  {
    hide Tombstoned, ChunkIdsOf, Paired, PointsFrom, Upserted;
  }

  lemma GoneCarries(s: Stores, w: Write, rows: set<ChunkId>)
    requires Core(s) && CarriesBut(s.vector, EmbeddingsOf(s.tables.chunks), rows)
    ensures var gone := ChunkIdsOf(s.tables.chunks, DocIdOf(s, w));
      var v := if Known(s.tables, w) then Tombstoned(s.vector, gone) else s.vector;
      && CarriesBut(v, EmbeddingsOf(s.tables.chunks) - gone, rows - gone)
      && forall p :: p in v.points ==> p.id <= s.tables.chunkSeq
  {
    var gone, m := ChunkIdsOf(s.tables.chunks, DocIdOf(s, w)), EmbeddingsOf(s.tables.chunks);
    if Known(s.tables, w) {
      DeleteCarriesBut(s.vector, m, rows, gone);
      TombstonedLaws(s.vector, gone);
      CarriesButLess(Tombstoned(s.vector, gone), m, rows, gone);
    } else {
      NothingOfNewFile(s);
      assert m - gone == m && rows - gone == rows;
    }
    hide CarriesBut, ChunkIdsOf, EmbeddingsOf, Tombstoned, WellFormed;
  }

  /** A good write of a file leaves its document and its vectors right, whatever they were before. */
  lemma PutDocsBut(s: Stores, lib: Library, w: Write, out: set<DocId>)
    requires Core(s) && FilesStand(s.tables.files, lib.ids, lib.entries)
    requires HoldsBut(Visible(s.lexical), DocsOf(lib.entries), out) && s.nextDoc !in out
    ensures var id := DocIdOf(s, w);
      HoldsBut(Visible(Outcome(s, w, NoFaults(w)).lexical), DocsOf(lib.entries[id := EntryOfWrite(w, id)]), out - {id})
  {
    var id, m := DocIdOf(s, w), DocsOf(lib.entries);
    var docs, docs' := Visible(s.lexical), Visible(Outcome(s, w, NoFaults(w)).lexical);
    hide Outcome, Visible, Matching, WellFormed;
    NewDocIsFresh(s);
    KnownId(s, w);
    hide FileIds;
    forall other
      ensures Matching(docs', other) == if other == id then [DocOf(w, id)] else Matching(docs, other)
    {
      MatchingOutcome(s, w, NoFaults(w), other);
      assert Matching(docs, other) + [] == Matching(docs, other);
      assert !Known(s.tables, w) ==> id !in m && Matching(docs, id) == [];
      assert [] + [DocOf(w, id)] == [DocOf(w, id)];
    }
    DocsReplaced(lib.entries, EntryOfWrite(w, id), id);
  }

  lemma DocsReplaced(entries: map<DocId, Entry>, e: Entry, id: DocId)
    ensures DocsOf(entries[id := e]) == DocsOf(entries)[id := e.doc]
  {
  }

  lemma PutExcept(s: Stores, lib: Library, w: Write, out: set<DocId>)
    requires Except(s, lib, out) && AllNonEmpty(Paired(w))
    ensures Except(StoresNext(s, Put(w)), LibraryNext(lib, Put(w)), out - {DocIdOf(s, w)})
  {
    hide Core, RowsStand, FilesStand, HoldsBut, CarriesBut, FileIds, Outcome, WrittenTables, StoresNext, EntryOfWrite,
      RowOf, Visible, EmbeddingsOf, RowsOfAll, VectorAfter, Paired, DocsOf, AfterUpsert;
    NoFaultsLaws(w);
    OutcomeKeepsCore(s, w, NoFaults(w));
    PutCarries(s, w, out);
    PutDocsBut(s, lib, w, out);
    FaultFreeFields(s, w);
    KnownInLibrary(s, lib, w);
    PutTables(s, lib, w);
  }

  lemma NoFaultsLaws(w: Write)
    ensures !AfterUpsert(NoFaults(w))
  {
    hide Paired;
  }

  lemma PutTables(s: Stores, lib: Library, w: Write)
    requires Core(s) && FilesStand(s.tables.files, lib.ids, lib.entries) && RowsStand(s.tables.chunks, lib.entries)
    ensures var id, path := DocIdOf(s, w), w.candidate.canonical;
      && FilesStand(s.tables.files[path := RowOf(w, id)], lib.ids[path := id], lib.entries[id := EntryOfWrite(w, id)])
      && RowsStand(WrittenTables(s.tables, w, id, |Paired(w)|).chunks, lib.entries[id := EntryOfWrite(w, id)])
  {
    var id := DocIdOf(s, w);
    NewDocIsFresh(s);
    PutFiles(s.tables.files, lib.ids, lib.entries, RowOf(w, id), EntryOfWrite(w, id));
    WrittenRows(s.tables, w, id);
    PutRows(s.tables.chunks, WrittenTables(s.tables, w, id, |Paired(w)|).chunks, lib.entries, id, EntryOfWrite(w, id),
      s.tables.chunkSeq);
    hide RowsStand, ChunkTexts, Paired, StoredEmbeddings, FileIds, WrittenTables, StoredAt, RowsOf;
  }

  // ---------------------------------------------------------------------------------
  // A delete
  // ---------------------------------------------------------------------------------

  lemma DropRowsOut(chunks: map<ChunkId, ChunkRow>, id: DocId, out: set<DocId>)
    ensures RowsOfAll(ChunksWithout(chunks, id), out - {id}) == RowsOfAll(chunks, out) - ChunkIdsOf(chunks, id)
    ensures EmbeddingsOf(ChunksWithout(chunks, id)) == EmbeddingsOf(chunks) - ChunkIdsOf(chunks, id)
  {
  }

  lemma DropCarries(s: Stores, id: DocId, out: set<DocId>)
    requires CarriesBut(s.vector, EmbeddingsOf(s.tables.chunks), RowsOfAll(s.tables.chunks, out))
    ensures var s' := Removed(s, id);
      CarriesBut(s'.vector, EmbeddingsOf(s'.tables.chunks), RowsOfAll(s'.tables.chunks, out - {id}))
  {
    hide CarriesBut, ChunkIdsOf, EmbeddingsOf, RowsOfAll, Tombstoned, ChunksWithout, FilesWithout, LiveIds;
    var gone := ChunkIdsOf(s.tables.chunks, id);
    DeleteCarriesBut(s.vector, EmbeddingsOf(s.tables.chunks), RowsOfAll(s.tables.chunks, out), gone);
    TombstonedLaws(s.vector, gone);
    CarriesButLess(Tombstoned(s.vector, gone), EmbeddingsOf(s.tables.chunks), RowsOfAll(s.tables.chunks, out), gone);
    DropRowsOut(s.tables.chunks, id, out);
  }

  lemma DropDocsBut(l: LexicalState, entries: map<DocId, Entry>, id: DocId, out: set<DocId>)
    requires HoldsBut(Visible(l), DocsOf(entries), out)
    ensures HoldsBut(Visible(Queued(l, [Remove(id)])), DocsOf(entries - {id}), out - {id})
  {
    hide Visible, Matching, Queued;
    forall other {
      MatchingAfter(l, Remove(id), other);
    }
    assert DocsOf(entries - {id}) == DocsOf(entries) - {id};
  }

  lemma DropTables(s: Stores, lib: Library, path: Path)
    requires WellFormed(s.tables) && path in s.tables.files
    requires FilesStand(s.tables.files, lib.ids, lib.entries) && RowsStand(s.tables.chunks, lib.entries)
    ensures var id := s.tables.files[path].id;
      && path in lib.ids && lib.ids[path] == id
      && FilesStand(FilesWithout(s.tables.files, id), lib.ids - {path}, lib.entries - {id})
      && RowsStand(ChunksWithout(s.tables.chunks, id), lib.entries - {id})
  {
    assert path in IdsByPath(s.tables.files);
    WithoutPath(s.tables.files, path);
    DropFiles(s.tables.files, path, lib.ids, lib.entries);
    DropRows(s.tables.chunks, s.tables.files[path].id, lib.entries);
    hide RowsStand, FileIds, FilesStand, FilesWithout, ChunksWithout;
  }

  lemma DropExcept(s: Stores, lib: Library, path: Path, out: set<DocId>)
    requires Except(s, lib, out) && path in s.tables.files
    ensures Except(StoresNext(s, Drop(path)), LibraryNext(lib, Drop(path)), out - {s.tables.files[path].id})
  {
    hide Core, RowsStand, FilesStand, HoldsBut, CarriesBut, Visible, EmbeddingsOf, RowsOfAll, DocsOf, Removed, Queued,
      FilesWithout, ChunksWithout;
    var id := s.tables.files[path].id;
    CoreIsWellFormed(s);
    RemovedKeepsCore(s, id);
    RemovedFields(s, id);
    DropCarries(s, id, out);
    DropDocsBut(s.lexical, lib.entries, id, out);
    DropTables(s, lib, path);
  }

  lemma CoreIsWellFormed(s: Stores)
    requires Core(s)
    ensures WellFormed(s.tables)
    ensures forall p :: p in s.tables.files ==> s.tables.files[p].id < s.nextDoc
  {
  }

  // ---------------------------------------------------------------------------------
  // A failing write
  // ---------------------------------------------------------------------------------

  lemma WiderCarries(v: VectorState, m: map<ChunkId, Vector>, out: set<ChunkId>, ids: set<ChunkId>)
    requires CarriesBut(v, m, out)
    ensures CarriesBut(v, m, out + ids)
    ensures CarriesBut(Tombstoned(v, ids), m, out + ids)
  {
    DeleteCarriesBut(v, m, out, ids);
    TombstonedLaws(v, ids);
    hide Tombstoned, UniqueIds;
    SameOutsideMore(LiveIds(v), m.Keys, out, ids);
    assert (LiveIds(v) - ids) - (out + ids) == LiveIds(v) - (out + ids);
  }

  lemma SameOutsideMore(a: set<ChunkId>, b: set<ChunkId>, out: set<ChunkId>, more: set<ChunkId>)
    requires a - out == b - out
    ensures a - (out + more) == b - (out + more)
  {
    assert a - (out + more) == (a - out) - more && b - (out + more) == (b - out) - more;
  }

  /** How far a failing write gets. */
  predicate PastDelete(faults: Faults) {
    faults.failing.Some? && Rank(faults.failing.value) > Rank(DeleteDocument)
  }

  predicate PastAdd(faults: Faults) {
    faults.failing.Some? && Rank(faults.failing.value) > Rank(AddDocument)
  }

  /** The stored file that a failing write may leave in disorder: one whose old document it removed. */
  function Disordered(lib: Library, w: Write, faults: Faults): set<DocId> {
    if w.candidate.canonical in lib.ids && PastDelete(faults) then {lib.ids[w.candidate.canonical]} else {}
  }

  /** The id of the document that a failing write leaves without a file: one it added for a new file. */
  function Orphaned(lib: Library, w: Write, faults: Faults): set<DocId> {
    if w.candidate.canonical !in lib.ids && PastAdd(faults) then {lib.next} else {}
  }

  lemma RowsOfOneMore(chunks: map<ChunkId, ChunkRow>, out: set<DocId>, id: DocId)
    ensures RowsOfAll(chunks, out + {id}) == RowsOfAll(chunks, out) + ChunkIdsOf(chunks, id)
  {
  }

  lemma FailedCarries(s: Stores, w: Write, faults: Faults, out: set<DocId>)
    requires Fails(s.tables, w, faults) && !AfterUpsert(faults)
    requires CarriesBut(s.vector, EmbeddingsOf(s.tables.chunks), RowsOfAll(s.tables.chunks, out))
    ensures var s' := Outcome(s, w, faults);
      CarriesBut(s'.vector, EmbeddingsOf(s'.tables.chunks), RowsOfAll(s'.tables.chunks, out + {DocIdOf(s, w)}))
  {
    hide CarriesBut, ChunkIdsOf, EmbeddingsOf, RowsOfAll, Tombstoned, Outcome, Fails, Paired;
    FailedVector(s, w, faults);
    RowsOfOneMore(s.tables.chunks, out, DocIdOf(s, w));
    WiderCarries(s.vector, EmbeddingsOf(s.tables.chunks), RowsOfAll(s.tables.chunks, out),
      ChunkIdsOf(s.tables.chunks, DocIdOf(s, w)));
  }

  lemma FailedDocs(s: Stores, lib: Library, w: Write, faults: Faults, out: set<DocId>)
    requires HoldsBut(Visible(s.lexical), DocsOf(lib.entries), out)
    ensures HoldsBut(Visible(Outcome(s, w, faults).lexical), DocsOf(lib.entries), out + {DocIdOf(s, w)})
  {
    hide Visible, Matching, Outcome, Passes, DocsOf;
    forall other
      ensures other != DocIdOf(s, w) ==>
        Matching(Visible(Outcome(s, w, faults).lexical), other) == Matching(Visible(s.lexical), other)
    {
      MatchingOutcome(s, w, faults, other);
      assert Matching(Visible(s.lexical), other) + [] == Matching(Visible(s.lexical), other);
    }
  }

  lemma HowFar(s: Stores, w: Write, faults: Faults)
    requires Fails(s.tables, w, faults) && !AfterUpsert(faults)
    ensures Passes(s.tables, w, faults, DeleteDocument) <==> PastDelete(faults)
    ensures Passes(s.tables, w, faults, AddDocument) <==> PastAdd(faults)
    ensures PastAdd(faults) ==> PastDelete(faults)
    ensures Passes(s.tables, w, faults, ReadChunks) ==> PastDelete(faults)
    ensures !Passes(s.tables, w, faults, SetStatus)
  {
  }

  /** A failing write that has neither removed nor added a document has touched nothing. */
  lemma FailsEarly(s: Stores, w: Write, faults: Faults)
    requires Fails(s.tables, w, faults) && !AfterUpsert(faults)
    requires if Known(s.tables, w) then !PastDelete(faults) else !PastAdd(faults)
    ensures Outcome(s, w, faults).lexical == s.lexical && Outcome(s, w, faults).vector == s.vector
  {
    HowFar(s, w, faults);
    OutcomeLexical(s, w, faults);
    OutcomeVector(s, w, faults);
    QueuedNothing(s.lexical);
    hide Outcome, LexicalOps, Fails, Passes, PastDelete, PastAdd, Paired, Tombstoned, ChunkIdsOf;
  }

  lemma TracesOf(s: Stores, lib: Library, w: Write, faults: Faults)
    requires FilesStand(s.tables.files, lib.ids, lib.entries) && s.nextDoc == lib.next
    requires Fails(s.tables, w, faults) && !AfterUpsert(faults)
    ensures var traces := Disordered(lib, w, faults) + Orphaned(lib, w, faults);
      traces == if (if Known(s.tables, w) then PastDelete(faults) else PastAdd(faults)) then {DocIdOf(s, w)} else {}
  {
    KnownInLibrary(s, lib, w);
    hide FilesStand, Fails, PastDelete, PastAdd;
  }

  lemma FailedIdUsed(s: Stores, w: Write, faults: Faults)
    requires Core(s) && Fails(s.tables, w, faults)
    requires if Known(s.tables, w) then PastDelete(faults) else PastAdd(faults)
    ensures DocIdOf(s, w) < Outcome(s, w, faults).nextDoc
  {
    FailedFields(s, w, faults);
    CoreIsWellFormed(s);
    hide Core, Outcome;
  }

  lemma FailedTables(s: Stores, lib: Library, w: Write, faults: Faults)
    requires Fails(s.tables, w, faults) && !AfterUpsert(faults) && Core(s) && s.nextDoc == lib.next
    requires FilesStand(s.tables.files, lib.ids, lib.entries) && RowsStand(s.tables.chunks, lib.entries)
    ensures var s', lib' := Outcome(s, w, faults), Skipped(lib, w, faults);
      && Core(s') && s'.nextDoc == lib'.next && lib.next <= lib'.next
      && s'.tables.chunks == s.tables.chunks && lib'.entries == lib.entries
      && FilesStand(s'.tables.files, lib'.ids, lib'.entries) && RowsStand(s'.tables.chunks, lib'.entries)
  {
    OutcomeKeepsCore(s, w, faults);
    FailedFields(s, w, faults);
    KnownInLibrary(s, lib, w);
    hide Core, RowsStand, FilesStand, Outcome, Fails;
  }

  /** A write that fails before its vector upsert leaves at most its own file in disorder, and only if
      it has removed or added a document. */
  lemma FailedExcept(s: Stores, lib: Library, w: Write, faults: Faults, out: set<DocId>)
    requires Except(s, lib, out) && Fails(s.tables, w, faults) && !AfterUpsert(faults)
    ensures Except(Outcome(s, w, faults), Skipped(lib, w, faults),
                   out + (Disordered(lib, w, faults) + Orphaned(lib, w, faults)))
  {
    hide Core, RowsStand, FilesStand, HoldsBut, CarriesBut, Visible, EmbeddingsOf, RowsOfAll, DocsOf, Outcome, Fails,
      FileIds, Skipped, Disordered, Orphaned, PastDelete, PastAdd;
    FailedTables(s, lib, w, faults);
    TracesOf(s, lib, w, faults);
    if if Known(s.tables, w) then PastDelete(faults) else PastAdd(faults) {
      FailedIdUsed(s, w, faults);
      FailedCarries(s, w, faults, out);
      FailedDocs(s, lib, w, faults, out);
    } else {
      FailsEarly(s, w, faults);
      assert out + {} == out;
    }
  }
}
