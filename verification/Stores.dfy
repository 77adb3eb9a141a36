/** The three stores together: what one file write or delete makes of them, and what every run
    of writes and deletes keeps. */
module Stores {
  import opened Common
  import opened Utf8
  import opened Chunking
  import opened Vectors
  import opened Lexical
  import opened Meta
  import opened Crawl

  datatype Stores = Stores(tables: Tables, lexical: LexicalState, vector: VectorState, nextDoc: DocId)

  const EMPTY_STORES := Stores(EMPTY_TABLES, LexicalState([], []), VectorState([], {}), 0)

  const MAX_CHARS: nat := 1000
  const OVERLAP_CHARS: nat := 200

  /** A file to index: what the crawl saw, what extraction gave, and what the embedder answers
      for its chunks (`None` if it is missing or fails; the list may be too short or too long). */
  datatype Write = Write(candidate: CrawlCandidate, text: string, mime: string, embeddings: Option<seq<Vector>>)

  /** The statements of a file write that can fail, in order. */
  datatype Statement =
    | FindFile | CreateJournal | DeleteDocument | ReadChunks | UpsertFile | AdvanceToLexical | UpsertAlias
    | AddDocument | AdvanceToVector | ReplaceChunks | SetStatus | IngestTime | CompleteJournal

  /** What goes wrong in one write: a statement that fails, if any, and how many embeddings get
      stored before a store failure, which the daemon ignores, stops the rest. */
  datatype Faults = Faults(failing: Option<Statement>, stored: nat)

  // ---------------------------------------------------------------------------------
  // The rows and documents of a write
  // ---------------------------------------------------------------------------------

  function TypeName(extension: Option<string>): string {
    match extension
    case None => "Text"
    case Some(ext) =>
      if ext == "rs" then "Rust" else if ext == "py" then "Python" else if ext == "js" then "JavaScript"
      else if ext == "ts" then "TypeScript" else if ext == "go" then "Go" else if ext == "c" then "C"
      else if ext == "cpp" then "C++" else if ext == "md" then "Markdown" else ext
  }

  function HeaderOf(path: Path, extension: Option<string>): Bytes {
    Encode("File Path: " + path + "\nFile Type: " + TypeName(extension) + " File\n\n")
  }

  function Header(c: CrawlCandidate): Bytes {
    HeaderOf(c.canonical, c.extension)
  }

  function ChunkTexts(w: Write): seq<Bytes> {
    var chunks := Chunks(w.text, MAX_CHARS, OVERLAP_CHARS);
    seq(|chunks|, i requires 0 <= i < |chunks| => Header(w.candidate) + chunks[i].text)
  }

  /** The embeddings the write pairs with its chunks. */
  function Paired(w: Write): seq<Vector> {
    if w.embeddings.None? then []
    else if |w.embeddings.value| <= |ChunkTexts(w)| then w.embeddings.value
    else w.embeddings.value[..|ChunkTexts(w)|]
  }

  function StoredEmbeddings(w: Write, stored: nat): seq<Option<Vector>> {
    seq(|ChunkTexts(w)|, i requires 0 <= i < |ChunkTexts(w)| =>
      if i < stored && i < |Paired(w)| then Blob(Paired(w)[i]) else None)
  }

  function DocOf(w: Write, id: DocId): Doc {
    var c := w.candidate;
    Doc(id, c.canonical, c.aliases, c.name, w.text, c.extension, w.mime)
  }

  function RowOf(w: Write, id: DocId): FileRow {
    var c := w.candidate;
    FileRow(id, c.name, c.extension, c.size, c.modified, Done)
  }

  // ---------------------------------------------------------------------------------
  // The outcome of a write
  // ---------------------------------------------------------------------------------

  predicate Known(t: Tables, w: Write) {
    w.candidate.canonical in t.files
  }

  function DocIdOf(s: Stores, w: Write): DocId {
    if Known(s.tables, w) then s.tables.files[w.candidate.canonical].id else s.nextDoc
  }

  /** A statement that is not executed does not fail. */
  predicate Fails(t: Tables, w: Write, faults: Faults) {
    && faults.failing.Some?
    && (faults.failing.value in {DeleteDocument, ReadChunks} ==> Known(t, w))
    && (faults.failing.value == UpsertAlias ==> w.candidate.aliases != [])
  }

  function Rank(s: Statement): nat {
    match s
    case FindFile => 0 case CreateJournal => 1 case DeleteDocument => 2 case ReadChunks => 3
    case UpsertFile => 4 case AdvanceToLexical => 5 case UpsertAlias => 6 case AddDocument => 7
    case AdvanceToVector => 8 case ReplaceChunks => 9 case SetStatus => 10 case IngestTime => 11
    case CompleteJournal => 12
  }

  /** Whether a write gets through a statement. */
  predicate Passes(t: Tables, w: Write, faults: Faults, s: Statement) {
    !Fails(t, w, faults) || Rank(s) < Rank(faults.failing.value)
  }

  /** The tables of a committed write. */
  function WrittenTables(t: Tables, w: Write, id: DocId, stored: nat): Tables {
    var t' := WithAliases(WithChunks(t, id, ChunkTexts(w), StoredEmbeddings(w, stored)), id, w.candidate.aliases);
    t'.(files := t.files[w.candidate.canonical := RowOf(w, id)], journalSeq := t.journalSeq + 1)
  }

  /** One point per vector, under the ids behind `base`. */
  function PointsFrom(base: nat, vectors: seq<Vector>): seq<Point> {
    seq(|vectors|, i requires 0 <= i < |vectors| => Point(base + 1 + i, vectors[i]))
  }

  function NewPoints(t: Tables, w: Write): seq<Point> {
    PointsFrom(t.chunkSeq, Paired(w))
  }

  function VectorAfter(s: Stores, w: Write, faults: Faults): VectorState {
    var t := s.tables;
    var v := if Known(t, w) && Passes(t, w, faults, ReadChunks)
      then Tombstoned(s.vector, ChunkIdsOf(t.chunks, DocIdOf(s, w))) else s.vector;
    if Passes(t, w, faults, SetStatus) && NewPoints(t, w) != [] then Upserted(v, NewPoints(t, w)) else v
  }

  function LexicalOps(s: Stores, w: Write, faults: Faults): seq<Op> {
    var id := DocIdOf(s, w);
    (if Known(s.tables, w) && Passes(s.tables, w, faults, DeleteDocument) then [Remove(id)] else []) +
    if Passes(s.tables, w, faults, AddDocument) then [Add(DocOf(w, id))] else []
  }

  /** A write: the tables change in one transaction or not at all, but the lexical writer and
      the vector index keep whatever was done to them before the failing statement. */
  function Outcome(s: Stores, w: Write, faults: Faults): Stores {
    var t := s.tables;
    Stores(
      if Fails(t, w, faults)
        then t.(failures := t.failures + [Failure(None, w.candidate.canonical, "extract")])
        else WrittenTables(t, w, DocIdOf(s, w), faults.stored),
      Queued(s.lexical, LexicalOps(s, w, faults)),
      VectorAfter(s, w, faults),
      if Known(t, w) || (Fails(t, w, faults) && faults.failing == Some(FindFile)) then s.nextDoc else s.nextDoc + 1)
  }

  /** Deleting a file by the id that an earlier lookup gave, still there or not. */
  function Removed(s: Stores, id: DocId): Stores {
    s.(tables := WithoutFile(s.tables, id).(journalSeq := s.tables.journalSeq + 1),
       lexical := Queued(s.lexical, [Remove(id)]),
       vector := Tombstoned(s.vector, ChunkIdsOf(s.tables.chunks, id)))
  }

  // ---------------------------------------------------------------------------------
  // What every run keeps, faults included
  // ---------------------------------------------------------------------------------

  /** Keys and ids are in order, no journal entry is left, and every live vector belongs to a
      chunk row. No stored point, live or tombstoned, has an id that could be given out again. */
  ghost predicate Core(s: Stores) {
    && WellFormed(s.tables) && s.tables.journal == map[]
    && (forall p :: p in s.tables.files ==> s.tables.files[p].id < s.nextDoc)
    && UniqueIds(s.vector.points)
    && (forall p :: p in s.vector.points ==> p.id <= s.tables.chunkSeq)
    && LiveIds(s.vector) <= s.tables.chunks.Keys
  }

  /** The two statements behind the vector upsert. */
  predicate AfterUpsert(faults: Faults) {
    faults.failing in {Some(IngestTime), Some(CompleteJournal)}
  }

  lemma PointsFromLaws(base: nat, vectors: seq<Vector>)
    ensures var ps := PointsFrom(base, vectors);
      && UniqueIds(ps)
      && (forall p :: p in ps ==> IsNew(base, |vectors|, p.id) && p.vector == vectors[p.id - base - 1])
      && (forall c: ChunkId :: c in Ids(ps) <==> IsNew(base, |vectors|, c))
  {
    var ps := PointsFrom(base, vectors);
    forall c: ChunkId | IsNew(base, |vectors|, c)
      ensures c in Ids(ps)
    {
      assert ps[c - base - 1].id == c;
    }
  }

  lemma WrittenFiles(files: map<Path, FileRow>, path: Path, row: FileRow)
    requires DistinctIds(files)
    requires if path in files then row.id == files[path].id else row.id !in FileIds(files)
    ensures FileIds(files[path := row]) == FileIds(files) + {row.id} && DistinctIds(files[path := row])
  {
    UpsertedIds(files, path, row);
    UpsertedDistinct(files, path, row);
  }

  lemma WrittenWellFormed(t: Tables, w: Write, id: DocId, stored: nat)
    requires WellFormed(t)
    requires if Known(t, w) then id == t.files[w.candidate.canonical].id else id !in FileIds(t.files)
    ensures WellFormed(WrittenTables(t, w, id, stored))
    ensures FileIds(WrittenTables(t, w, id, stored).files) == FileIds(t.files) + {id}
  {
    WrittenFiles(t.files, w.candidate.canonical, RowOf(w, id));
    hide ChunkTexts, StoredEmbeddings, FileIds;
  }

  /** The ids that a write makes live, and the ones it takes away. */
  lemma VectorAfterLaws(s: Stores, w: Write, faults: Faults)
    requires UniqueIds(s.vector.points)
    requires forall p :: p in s.vector.points ==> p.id <= s.tables.chunkSeq
    ensures var v := VectorAfter(s, w, faults);
      var gone := if Known(s.tables, w) && Passes(s.tables, w, faults, ReadChunks)
        then ChunkIdsOf(s.tables.chunks, DocIdOf(s, w)) else {};
      var come := if Passes(s.tables, w, faults, SetStatus) then Ids(NewPoints(s.tables, w)) else {};
      && LiveIds(v) == (LiveIds(s.vector) - gone) + come
      && UniqueIds(v.points)
      && forall p :: p in v.points ==> p in s.vector.points || (come != {} && p in NewPoints(s.tables, w))
  {
    var data := NewPoints(s.tables, w);
    PointsFromLaws(s.tables.chunkSeq, Paired(w));
    hide PointsFrom, Paired, ChunkTexts;
    var gone := ChunkIdsOf(s.tables.chunks, DocIdOf(s, w));
    var v := if Known(s.tables, w) && Passes(s.tables, w, faults, ReadChunks) then Tombstoned(s.vector, gone)
      else s.vector;
    TombstonedLaws(s.vector, gone);
    hide Tombstoned, ChunkIdsOf;
    assert Ids(v.points) !! Ids(data);
    UpsertedLaws(v, data);
    UniqueConcat(v.points, data);
    if data != [] {
      assert data[0].id in Ids(data);
    }
  }

  lemma NewDocIsFresh(s: Stores)
    requires forall p :: p in s.tables.files ==> s.tables.files[p].id < s.nextDoc
    ensures s.nextDoc !in FileIds(s.tables.files)
  {
  }

  lemma PairedCount(w: Write)
    ensures |Paired(w)| <= |ChunkTexts(w)|
  {
    hide ChunkTexts;
  }

  lemma WrittenChunks(t: Tables, w: Write, id: DocId, stored: nat)
    ensures var t' := WrittenTables(t, w, id, stored);
      && t'.chunkSeq == t.chunkSeq + |ChunkTexts(w)|
      && forall c :: c in t'.chunks <==>
           (c in t.chunks && t.chunks[c].file != id) || IsNew(t.chunkSeq, |ChunkTexts(w)|, c)
  {
    hide ChunkTexts, StoredEmbeddings;
  }

  lemma OutcomeTables(s: Stores, w: Write, faults: Faults)
    requires Core(s)
    ensures var s' := Outcome(s, w, faults);
      && WellFormed(s'.tables) && s'.tables.journal == map[]
      && forall p :: p in s'.tables.files ==> s'.tables.files[p].id < s'.nextDoc
  {
    NewDocIsFresh(s);
    hide ChunkTexts, StoredEmbeddings, VectorAfter, LexicalOps, FileIds;
    if !Fails(s.tables, w, faults) {
      WrittenWellFormed(s.tables, w, DocIdOf(s, w), faults.stored);
    }
  }

  /** A failing write gets past the chunk rows and the status exactly if it fails after the upsert. */
  lemma UpsertReached(t: Tables, w: Write, faults: Faults)
    requires Fails(t, w, faults)
    ensures Passes(t, w, faults, SetStatus) <==> AfterUpsert(faults)
    ensures AfterUpsert(faults) ==> Passes(t, w, faults, ReadChunks)
  {
  }

  lemma FirstNewIsLive(s: Stores, w: Write, faults: Faults)
    requires Core(s) && Fails(s.tables, w, faults) && AfterUpsert(faults) && Paired(w) != []
    ensures s.tables.chunkSeq + 1 in LiveIds(VectorAfter(s, w, faults)) && s.tables.chunkSeq + 1 !in s.tables.chunks
  {
    hide Paired, PointsFrom, VectorAfter, Fails, Passes, FileIds, UniqueIds, LiveIds, Ids;
    UpsertReached(s.tables, w, faults);
    VectorAfterLaws(s, w, faults);
    FirstNewPoint(s.tables.chunkSeq, Paired(w));
  }

  lemma NothingNewIsLive(s: Stores, w: Write, faults: Faults)
    requires Core(s) && Fails(s.tables, w, faults) && !(AfterUpsert(faults) && Paired(w) != [])
    ensures var v := VectorAfter(s, w, faults);
      && UniqueIds(v.points) && LiveIds(v) <= s.tables.chunks.Keys
      && forall p :: p in v.points ==> p.id <= s.tables.chunkSeq
  {
    hide Paired, PointsFrom, VectorAfter, Fails, Passes, WellFormed, UniqueIds, LiveIds;
    UpsertReached(s.tables, w, faults);
    VectorAfterLaws(s, w, faults);
    if Paired(w) == [] {
      NoNewPoints(s.tables.chunkSeq);
    }
  }

  lemma NoNewPoints(base: nat)
    ensures PointsFrom(base, []) == [] && Ids([]) == {}
  {
  }

  /** Which ids are live after a rolled back write, against the chunk rows there still are. */
  lemma FailedLive(s: Stores, w: Write, faults: Faults)
    requires Core(s) && Fails(s.tables, w, faults)
    ensures var v := VectorAfter(s, w, faults);
      if AfterUpsert(faults) && Paired(w) != [] then
        s.tables.chunkSeq + 1 in LiveIds(v) && s.tables.chunkSeq + 1 !in s.tables.chunks
      else
        && UniqueIds(v.points) && LiveIds(v) <= s.tables.chunks.Keys
        && forall p :: p in v.points ==> p.id <= s.tables.chunkSeq
  {
    hide Core, Fails, AfterUpsert, Paired, VectorAfter, UniqueIds, LiveIds;
    if AfterUpsert(faults) && Paired(w) != [] {
      FirstNewIsLive(s, w, faults);
    } else {
      NothingNewIsLive(s, w, faults);
    }
  }

  /** Which ids are live after a committed write, against the chunk rows of then. */
  lemma CommittedLive(s: Stores, w: Write, faults: Faults)
    requires Core(s) && !Fails(s.tables, w, faults)
    ensures var v := VectorAfter(s, w, faults);
      var t := WrittenTables(s.tables, w, DocIdOf(s, w), faults.stored);
      && UniqueIds(v.points) && LiveIds(v) <= t.chunks.Keys
      && forall p :: p in v.points ==> p.id <= t.chunkSeq
  {
    VectorAfterLaws(s, w, faults);
    PointsFromLaws(s.tables.chunkSeq, Paired(w));
    PairedCount(w);
    WrittenChunks(s.tables, w, DocIdOf(s, w), faults.stored);
    NewDocIsFresh(s);
    hide ChunkTexts, Paired, PointsFrom, VectorAfter, WrittenTables, UniqueIds;
  }

  /** A failure behind the vector upsert breaks the stores exactly if a vector was upserted: it
      stays live while its chunk row is rolled back, under an id that will be given out again. */
  lemma CoreKeptExactly(s: Stores, w: Write, faults: Faults)
    requires Core(s)
    ensures Core(Outcome(s, w, faults)) <==> !(AfterUpsert(faults) && Paired(w) != [])
  {
    OutcomeTables(s, w, faults);
    hide WellFormed, Paired, VectorAfter, LexicalOps, WrittenTables;
    if Fails(s.tables, w, faults) {
      FailedLive(s, w, faults);
    } else {
      CommittedLive(s, w, faults);
    }
  }

  lemma FirstNewPoint(base: nat, vectors: seq<Vector>)
    requires vectors != []
    ensures base + 1 in Ids(PointsFrom(base, vectors)) && PointsFrom(base, vectors) != []
  {
    assert PointsFrom(base, vectors)[0].id == base + 1;
  }

  /** If the next chunk id is live already, the next vectors bring a second point of that id. */
  lemma TakenIdDoubles(s: Stores, w: Write, faults: Faults)
    requires s.tables.chunkSeq + 1 in LiveIds(s.vector) && s.tables.chunkSeq + 1 !in s.tables.chunks
    requires Paired(w) != [] && Passes(s.tables, w, faults, SetStatus)
    ensures !UniqueIds(VectorAfter(s, w, faults).points)
  {
    hide Paired, PointsFrom, UniqueIds, Tombstoned, LiveIds, Ids;
    var gone := ChunkIdsOf(s.tables.chunks, DocIdOf(s, w));
    var v := if Known(s.tables, w) && Passes(s.tables, w, faults, ReadChunks) then Tombstoned(s.vector, gone)
      else s.vector;
    TombstonedLaws(s.vector, gone);
    FirstNewPoint(s.tables.chunkSeq, Paired(w));
    LiveArePoints(v);
    UniqueConcat(v.points, NewPoints(s.tables, w));
  }

  lemma LiveArePoints(v: VectorState)
    ensures LiveIds(v) <= Ids(v.points)
  {
  }

  lemma LeftOver(s: Stores, w: Write, faults: Faults)
    requires Core(s) && AfterUpsert(faults) && Paired(w) != []
    ensures var s' := Outcome(s, w, faults);
      s'.tables.chunkSeq + 1 in LiveIds(s'.vector) && s'.tables.chunkSeq + 1 !in s'.tables.chunks
  {
    FailedLive(s, w, faults);
    hide Core, Paired, VectorAfter, LexicalOps, WrittenTables, LiveIds;
  }

  lemma OutcomeVector(s: Stores, w: Write, faults: Faults)
    ensures Outcome(s, w, faults).vector == VectorAfter(s, w, faults)
  {
    hide VectorAfter, LexicalOps, WrittenTables;
  }

  /** The damage of such a failure: whichever file is written next with an embedding, its first
      chunk gets the id of the left-over vector and the index holds two points of one id. */
  lemma LeftOverIdIsReused(s: Stores, w: Write, faults: Faults, next: Write, nextFaults: Faults)
    requires Core(s) && AfterUpsert(faults) && Paired(w) != []
    requires Paired(next) != [] && Passes(Outcome(s, w, faults).tables, next, nextFaults, SetStatus)
    ensures !UniqueIds(Outcome(Outcome(s, w, faults), next, nextFaults).vector.points)
  {
    hide *;
    LeftOver(s, w, faults);
    TakenIdDoubles(Outcome(s, w, faults), next, nextFaults);
    OutcomeVector(Outcome(s, w, faults), next, nextFaults);
  }

  /** Whatever fails before the vector upsert, a write keeps the stores in order. */
  lemma OutcomeKeepsCore(s: Stores, w: Write, faults: Faults)
    requires Core(s) && !AfterUpsert(faults)
    ensures Core(Outcome(s, w, faults))
  {
    CoreKeptExactly(s, w, faults);
  }

  lemma RemovedKeepsCore(s: Stores, id: DocId)
    requires Core(s)
    ensures Core(Removed(s, id))
  {
    TombstonedLaws(s.vector, ChunkIdsOf(s.tables.chunks, id));
    FileDeleted(s.tables, id);
    hide Tombstoned, UniqueIds, FileIds;
  }

  // ---------------------------------------------------------------------------------
  // Runs
  // ---------------------------------------------------------------------------------

  /** What can happen to the stores. A delete carries the id that an earlier lookup found, so
      other steps may come in between; a failed extraction only records a failure. */
  datatype Step =
    | PutFile(write: Write, faults: Faults)
    | DropFile(id: DocId)
    | NoteFailure(failure: Failure)
    | CommitLexical

  function Next(s: Stores, step: Step): Stores {
    match step
    case PutFile(w, faults) => Outcome(s, w, faults)
    case DropFile(id) => Removed(s, id)
    case NoteFailure(f) => s.(tables := s.tables.(failures := s.tables.failures + [f]))
    case CommitLexical => s.(lexical := Committed(s.lexical))
  }

  function After(s: Stores, steps: seq<Step>): Stores {
    if steps == [] then s else Next(After(s, steps[..|steps| - 1]), steps[|steps| - 1])
  }

  /** Over every run of writes and deletes in any order, each write failing and rolling back at
      any statement before the vector upsert or losing embeddings to a store failure, every
      live vector id is a chunk id, stored ids never collide with ids given out later, and no
      journal entry is left behind. */
  lemma {:induction false} CoreOverRuns(s: Stores, steps: seq<Step>)
    requires Core(s)
    requires forall step :: step in steps && step.PutFile? ==> !AfterUpsert(step.faults)
    ensures Core(After(s, steps))
  {
    if steps != [] {
      var init, last := steps[..|steps| - 1], steps[|steps| - 1];
      CoreOverRuns(s, init);
      assert last in steps;
      match last {
        case PutFile(w, faults) => OutcomeKeepsCore(After(s, init), w, faults);
        case DropFile(id) => RemovedKeepsCore(After(s, init), id);
        case NoteFailure(f) =>
        case CommitLexical =>
      }
    }
  }

  /** Every live vector joins to exactly one chunk row and exactly one stored file. */
  lemma LiveIdJoins(s: Stores, c: ChunkId)
    requires Core(s) && c in LiveIds(s.vector)
    ensures c in s.tables.chunks
    ensures exists p :: OwnsChunk(s.tables, p, c)
    ensures forall p, q :: OwnsChunk(s.tables, p, c) && OwnsChunk(s.tables, q, c) ==> p == q
    ensures exists i :: 0 <= i < |s.vector.points| && s.vector.points[i].id == c
    ensures forall i, j :: 0 <= i < j < |s.vector.points| ==> !(s.vector.points[i].id == c == s.vector.points[j].id)
  {
    assert s.tables.chunks[c].file in FileIds(s.tables.files);
    var p :| p in s.tables.files && s.tables.files[p].id == s.tables.chunks[c].file;
    assert OwnsChunk(s.tables, p, c);
  }

  ghost predicate OwnsChunk(t: Tables, path: Path, c: ChunkId)
    requires c in t.chunks
  {
    path in t.files && t.files[path].id == t.chunks[c].file
  }
}
