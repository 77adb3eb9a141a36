/** What one event does to the three stores, the snapshot and the counter, field by field. */
module EventLaws {
  import opened Common
  import opened Utf8
  import opened Chunking
  import opened ChunkLaws
  import opened Vectors
  import opened Meta
  import opened Crawl
  import opened Stores
  import opened Events
  import Lexical

  // ---------------------------------------------------------------------------------
  // A file in the stores
  // ---------------------------------------------------------------------------------

  const TYPE_NAMES := map["rs" := "Rust", "py" := "Python", "js" := "JavaScript", "ts" := "TypeScript", "go" := "Go",
                          "c" := "C", "cpp" := "C++", "md" := "Markdown"]

  /** What a chunk's header calls a file with that extension. */
  function TypeShown(extension: Option<string>): string {
    if extension.None? then "Text"
    else if extension.value in TYPE_NAMES then TYPE_NAMES[extension.value]
    else extension.value
  }

  function HeaderShown(c: CrawlCandidate): string {
    "File Path: " + c.canonical + "\nFile Type: " + TypeShown(c.extension) + " File\n\n"
  }

  predicate DocumentShows(doc: Lexical.Doc, id: DocId, c: CrawlCandidate, x: Extraction) {
    && doc.id == id && doc.path == c.canonical && doc.aliases == c.aliases && doc.name == c.name
    && doc.text == x.text && doc.extension == c.extension && doc.mime == x.mime
  }

  predicate RowShows(row: FileRow, id: DocId, c: CrawlCandidate) {
    && row.id == id && row.name == c.name && row.extension == c.extension && row.size == c.size
    && row.modified == c.modified && row.status == Done
  }

  /** The embedding stored with chunk `i`, if the first `stored` ones are: none for an empty one. */
  function EmbeddingShown(embeddings: Option<seq<Vector>>, stored: nat, i: nat): Option<Vector> {
    if embeddings.Some? && i < |embeddings.value| && i < stored && embeddings.value[i] != []
    then Some(embeddings.value[i]) else None
  }

  ghost predicate ChunkShows(row: ChunkRow, c: CrawlCandidate, text: string, chunk: Chunk) {
    && chunk.start <= chunk.end <= |text|
    && row.text == Encode(HeaderShown(c) + text[chunk.start..chunk.end])
  }

  /** The rows of the file are those behind `base`, one for each chunk of the text, in order. */
  ghost predicate ChunksShow(chunks: map<ChunkId, ChunkRow>, base: nat, id: DocId, c: CrawlCandidate, text: string,
                             embeddings: Option<seq<Vector>>, stored: nat) {
    var cs := Chunks(text, 1000, 200);
    && Rebuild(cs) == Encode(text)
    && forall k: ChunkId ::
         && (k in chunks && chunks[k].file == id <==> base < k <= base + |cs|)
         && (base < k <= base + |cs| ==>
               && ChunkShows(chunks[k], c, text, cs[k - base - 1])
               && chunks[k].embedding == EmbeddingShown(embeddings, stored, k - base - 1))
  }

  lemma TypeNames(extension: Option<string>)
    ensures TypeName(extension) == TypeShown(extension)
  {
  }

  lemma HeaderReads(c: CrawlCandidate, s: string)
    ensures Header(c) + Encode(s) == Encode(HeaderShown(c) + s)
  {
    hide TypeName, TypeShown, Encode;
    TypeNames(c.extension);
    EncodeConcat(HeaderShown(c), s);
  }

  lemma ChunkTextReads(w: Write, i: nat)
    requires i < |Chunks(w.text, MAX_CHARS, OVERLAP_CHARS)|
    ensures var cs := Chunks(w.text, 1000, 200);
      && |ChunkTexts(w)| == |cs|
      && cs[i].start <= cs[i].end <= |w.text|
      && ChunkTexts(w)[i] == Encode(HeaderShown(w.candidate) + w.text[cs[i].start..cs[i].end])
  {
    hide Chunks, Header, HeaderShown, Encode, Preferred;
    ChunkBoundaries(w.text, MAX_CHARS, OVERLAP_CHARS, i);
    var c := Chunks(w.text, MAX_CHARS, OVERLAP_CHARS)[i];
    HeaderReads(w.candidate, w.text[c.start..c.end]);
  }

  lemma StoredEmbeddingShown(w: Write, stored: nat, i: nat)
    requires i < |ChunkTexts(w)|
    ensures StoredEmbeddings(w, stored)[i] == EmbeddingShown(w.embeddings, stored, i)
  {
    hide ChunkTexts;
  }

  /** New rows of a write, if they are all the rows of the file, show its text. */
  lemma NewRowsShow(chunks: map<ChunkId, ChunkRow>, base: nat, id: DocId, w: Write, stored: nat)
    requires |StoredEmbeddings(w, stored)| == |ChunkTexts(w)|
    requires forall k: ChunkId :: k in chunks && chunks[k].file == id <==> IsNew(base, |ChunkTexts(w)|, k)
    requires forall k: ChunkId :: IsNew(base, |ChunkTexts(w)|, k) ==>
      chunks[k] == ChunkRow(id, ChunkTexts(w)[k - base - 1], StoredEmbeddings(w, stored)[k - base - 1])
    ensures ChunksShow(chunks, base, id, w.candidate, w.text, w.embeddings, stored)
  {
    hide Chunks, ChunkTexts, StoredEmbeddings, Rebuild, Encode, EmbeddingShown, HeaderShown;
    var cs := Chunks(w.text, 1000, 200);
    ChunksRebuildText(w.text, 1000, 200);
    ChunkTextsCount(w);
    forall k: ChunkId
      ensures k in chunks && chunks[k].file == id <==> base < k <= base + |cs|
      ensures base < k <= base + |cs| ==>
        && ChunkShows(chunks[k], w.candidate, w.text, cs[k - base - 1])
        && chunks[k].embedding == EmbeddingShown(w.embeddings, stored, k - base - 1)
    {
      assert base < k <= base + |cs| <==> IsNew(base, |ChunkTexts(w)|, k);
      if base < k <= base + |cs| {
        ChunkTextReads(w, k - base - 1);
        StoredEmbeddingShown(w, stored, k - base - 1);
      }
    }
  }

  lemma ChunkTextsCount(w: Write)
    ensures |ChunkTexts(w)| == |Chunks(w.text, 1000, 200)|
  {
    hide Chunks, Header;
  }

  // ---------------------------------------------------------------------------------
  // A file that is indexed
  // ---------------------------------------------------------------------------------

  /** The event has the file's text extracted and written. */
  predicate Indexes(roots: nat, event: ChangeEvent, input: Input) {
    && event.kind in {Added, Modified} && event.candidate.Some? && event.candidate.value.rootId < roots
    && input.extraction.Some?
  }

  /** The id that a path has, or gets. */
  function IdFor(s: Stores, path: Path): DocId {
    if path in s.tables.files then s.tables.files[path].id else s.nextDoc
  }

  lemma PutOutcome(d: IndexState, roots: nat, event: ChangeEvent, input: Input)
    requires Indexes(roots, event, input)
    ensures var c, x := event.candidate.value, input.extraction.value;
      var w := Write(c, x.text, x.mime, input.embeddings);
      var d' := Processed(d, roots, event, input);
      && d'.stores == Outcome(d.stores, w, input.faults)
      && DocIdOf(d.stores, w) == IdFor(d.stores, c.canonical)
      && (Fails(d.stores.tables, w, input.faults) ==> d'.snapshot == d.snapshot && d'.indexed == d.indexed)
      && (!Fails(d.stores.tables, w, input.faults) ==>
            && d'.snapshot == SnapshotUpdated(d.snapshot, ChangeEvent(event.kind, c.canonical, Some(c)))
            && d'.indexed == d.indexed + (if event.kind == Added then 1 else 0))
  {
    hide Outcome, Fails, SnapshotUpdated;
  }

  /** What an event without a failing statement leaves in the tables of the file it indexes: a row and
      aliases as the crawl saw them, chunk rows that hold the extracted text, and no other file's
      row, alias or chunk changed but for the aliases that are now this file's. */
  lemma IndexedRows(d: IndexState, roots: nat, event: ChangeEvent, input: Input)
    requires Core(d.stores) && Indexes(roots, event, input) && input.faults.failing.None?
    ensures var c, x := event.candidate.value, input.extraction.value;
      var t, t', id := d.stores.tables, Processed(d, roots, event, input).stores.tables, IdFor(d.stores, c.canonical);
      && c.canonical in t'.files && RowShows(t'.files[c.canonical], id, c)
      && (forall p :: p != c.canonical ==> Lookup(t'.files, p) == Lookup(t.files, p))
      && (forall a :: Lookup(t'.aliases, a) == if a in c.aliases then Some(id) else Lookup(t.aliases, a))
      && ChunksShow(t'.chunks, t.chunkSeq, id, c, x.text, input.embeddings, input.faults.stored)
      && (forall k :: k in t.chunks && t.chunks[k].file != id ==> Lookup(t'.chunks, k) == Some(t.chunks[k]))
      && t'.failures == t.failures && t'.journal == t.journal
  {
    hide Outcome, Fails, SnapshotUpdated, Core, Processed, ChunksShow, WrittenTables, DocIdOf;
    var c, x := event.candidate.value, input.extraction.value;
    var w := Write(c, x.text, x.mime, input.embeddings);
    PutOutcome(d, roots, event, input);
    WrittenTo(d.stores, w, input.faults);
    WrittenFields(d.stores.tables, w, DocIdOf(d.stores, w), input.faults.stored);
    CoreIsWellFormed(d.stores);
    WrittenChunksShow(d.stores.tables, w, DocIdOf(d.stores, w), input.faults.stored);
  }

  lemma CoreIsWellFormed(s: Stores)
    requires Core(s)
    ensures WellFormed(s.tables)
  {
  }

  lemma WrittenTo(s: Stores, w: Write, faults: Faults)
    requires faults.failing.None?
    ensures Outcome(s, w, faults).tables == WrittenTables(s.tables, w, DocIdOf(s, w), faults.stored)
    ensures !Fails(s.tables, w, faults)
  {
    hide WrittenTables, VectorAfter, LexicalOps, DocIdOf;
  }

  lemma WrittenFields(t: Tables, w: Write, id: DocId, stored: nat)
    ensures var t', c := WrittenTables(t, w, id, stored), w.candidate;
      && c.canonical in t'.files && RowShows(t'.files[c.canonical], id, c)
      && (forall p :: p != c.canonical ==> Lookup(t'.files, p) == Lookup(t.files, p))
      && (forall a :: Lookup(t'.aliases, a) == if a in c.aliases then Some(id) else Lookup(t.aliases, a))
      && t'.failures == t.failures && t'.journal == t.journal
  {
    hide ChunkTexts, StoredEmbeddings, NewRows, ChunkIdsOf;
  }

  lemma WrittenChunksShow(t: Tables, w: Write, id: DocId, stored: nat)
    requires WellFormed(t)
    ensures var t' := WrittenTables(t, w, id, stored);
      && ChunksShow(t'.chunks, t.chunkSeq, id, w.candidate, w.text, w.embeddings, stored)
      && forall k :: k in t.chunks && t.chunks[k].file != id ==> Lookup(t'.chunks, k) == Some(t.chunks[k])
  {
    hide ChunkTexts, StoredEmbeddings, ChunksShow, FileIds;
    EmbeddingCount(w, stored);
    NewRowsShow(WrittenTables(t, w, id, stored).chunks, t.chunkSeq, id, w, stored);
  }

  lemma EmbeddingCount(w: Write, stored: nat)
    ensures |StoredEmbeddings(w, stored)| == |ChunkTexts(w)|
  {
    hide ChunkTexts;
  }

  /** What it leaves in the lexical index, once committed: under the file's id the new document in the
      place of whatever a known file had there, and every other document as it was. */
  lemma IndexedDocument(d: IndexState, roots: nat, event: ChangeEvent, input: Input)
    requires Indexes(roots, event, input) && input.faults.failing.None?
    ensures var c, x := event.candidate.value, input.extraction.value;
      var l, l' := d.stores.lexical, Processed(d, roots, event, input).stores.lexical;
      var id := IdFor(d.stores, c.canonical);
      var kept := if c.canonical in d.stores.tables.files then [] else Lexical.Matching(Lexical.Visible(l), id);
      && l'.committed == l.committed
      && (exists doc :: DocumentShows(doc, id, c, x) && Lexical.Matching(Lexical.Visible(l'), id) == kept + [doc])
      && forall other :: other != id ==>
           Lexical.Matching(Lexical.Visible(l'), other) == Lexical.Matching(Lexical.Visible(l), other)
  {
    hide Outcome, Fails, SnapshotUpdated, Processed, DocIdOf, Lexical.Visible, Lexical.Matching, Lexical.Without,
      DocumentShows;
    var c, x := event.candidate.value, input.extraction.value;
    var w := Write(c, x.text, x.mime, input.embeddings);
    PutOutcome(d, roots, event, input);
    var id := DocIdOf(d.stores, w);
    QueuedByWrite(d.stores, w, input.faults);
    RequeuedDocument(d.stores.lexical, DocOf(w, id), c.canonical in d.stores.tables.files, true);
    DocumentOfWrite(w, id);
  }

  lemma DocumentOfWrite(w: Write, id: DocId)
    ensures DocumentShows(DocOf(w, id), id, w.candidate, Extraction(w.text, w.mime))
  {
  }

  lemma QueuedByWrite(s: Stores, w: Write, faults: Faults)
    requires faults.failing.None?
    ensures var id := DocIdOf(s, w);
      Outcome(s, w, faults).lexical == Lexical.Queued(s.lexical,
        (if w.candidate.canonical in s.tables.files then [Lexical.Remove(id)] else []) + [Lexical.Add(DocOf(w, id))])
  {
    hide WrittenTables, VectorAfter, DocIdOf;
  }

  /** An id's documents after a removal and an addition, each of which may be left out. */
  lemma RequeuedDocument(l: Lexical.LexicalState, doc: Lexical.Doc, removed: bool, added: bool)
    ensures var l' := Lexical.Queued(l,
        (if removed then [Lexical.Remove(doc.id)] else []) + if added then [Lexical.Add(doc)] else []);
      var kept := if removed then [] else Lexical.Matching(Lexical.Visible(l), doc.id);
      && Lexical.Matching(Lexical.Visible(l'), doc.id) == (if added then kept + [doc] else kept)
      && forall other :: other != doc.id ==>
           Lexical.Matching(Lexical.Visible(l'), other) == Lexical.Matching(Lexical.Visible(l), other)
  {
    hide Lexical.Visible, Lexical.Matching, Lexical.Without;
    var l1 := if removed then Lexical.Queued(l, [Lexical.Remove(doc.id)]) else l;
    var l' := if added then Lexical.Queued(l1, [Lexical.Add(doc)]) else l1;
    assert l' == Lexical.Queued(l,
      (if removed then [Lexical.Remove(doc.id)] else []) + if added then [Lexical.Add(doc)] else []);
    Lexical.VisibleNext(l, Lexical.Remove(doc.id));
    Lexical.VisibleNext(l1, Lexical.Add(doc));
    forall other
      ensures Lexical.Matching(Lexical.Visible(l1), other) ==
        if removed && other == doc.id then [] else Lexical.Matching(Lexical.Visible(l), other)
    {
      Lexical.MatchingWithout(Lexical.Visible(l), doc.id, other);
    }
    forall other
      ensures added ==>
        Lexical.Matching(Lexical.Visible(l'), other) ==
          Lexical.Matching(Lexical.Visible(l1), other) + if other == doc.id then [doc] else []
    {
      Lexical.MatchingAdd(Lexical.Visible(l1), doc, other);
    }
    assert forall docs: seq<Lexical.Doc> :: docs + [] == docs;
  }

  /** How many embeddings there are for `n` chunks. */
  function EmbeddedCount(embeddings: Option<seq<Vector>>, n: nat): nat {
    if embeddings.None? then 0 else if |embeddings.value| <= n then |embeddings.value| else n
  }

  /** What it leaves in the vector index: the old vectors of the file are dead, the first chunks have
      their embeddings under their row ids, and every other live vector stays. */
  lemma IndexedVectors(d: IndexState, roots: nat, event: ChangeEvent, input: Input)
    requires Core(d.stores) && Indexes(roots, event, input) && input.faults.failing.None?
    ensures var c, x := event.candidate.value, input.extraction.value;
      var s, v := d.stores, Processed(d, roots, event, input).stores.vector;
      var n := EmbeddedCount(input.embeddings, |Chunks(x.text, 1000, 200)|);
      && UniqueIds(v.points)
      && (forall k: ChunkId :: k in LiveIds(v) <==>
            (k in LiveIds(s.vector) && s.tables.chunks[k].file != IdFor(s, c.canonical)) ||
            s.tables.chunkSeq < k <= s.tables.chunkSeq + n)
      && (forall p :: p in v.points && s.tables.chunkSeq < p.id ==>
            p.id <= s.tables.chunkSeq + n && p.vector == input.embeddings.value[p.id - s.tables.chunkSeq - 1])
      && (forall p :: p in v.points && p.id <= s.tables.chunkSeq ==> p in s.vector.points)
  {
    hide Outcome, Fails, SnapshotUpdated, Processed, DocIdOf, Chunks, LiveIds, UniqueIds, EmbeddedCount, VectorAfter,
      Core, IdFor;
    var c, x := event.candidate.value, input.extraction.value;
    var w := Write(c, x.text, x.mime, input.embeddings);
    PutOutcome(d, roots, event, input);
    OutcomeVector(d.stores, w, input.faults);
    VectorsOfWrite(d.stores, w, input.faults);
  }

  lemma VectorsOfWrite(s: Stores, w: Write, faults: Faults)
    requires Core(s) && faults.failing.None?
    ensures var v, n := VectorAfter(s, w, faults), EmbeddedCount(w.embeddings, |Chunks(w.text, 1000, 200)|);
      && UniqueIds(v.points)
      && (forall k: ChunkId :: k in LiveIds(v) <==>
            (k in LiveIds(s.vector) && s.tables.chunks[k].file != DocIdOf(s, w)) ||
            s.tables.chunkSeq < k <= s.tables.chunkSeq + n)
      && (forall p :: p in v.points && s.tables.chunkSeq < p.id ==>
            p.id <= s.tables.chunkSeq + n && p.vector == w.embeddings.value[p.id - s.tables.chunkSeq - 1])
      && (forall p :: p in v.points && p.id <= s.tables.chunkSeq ==> p in s.vector.points)
  {
    PairedShown(w);
    PointsFromLaws(s.tables.chunkSeq, Paired(w));
    VectorAfterLaws(s, w, faults);
    GoneOfFile(s, w);
    hide Paired, PointsFrom, VectorAfter, UniqueIds, LiveIds, Ids, Chunks, ChunkIdsOf, WellFormed, DocIdOf, Known;
  }

  lemma PairedShown(w: Write)
    ensures |Paired(w)| == EmbeddedCount(w.embeddings, |Chunks(w.text, 1000, 200)|)
    ensures forall i :: 0 <= i < |Paired(w)| ==> Paired(w)[i] == w.embeddings.value[i]
  {
    ChunkTextsCount(w);
    hide ChunkTexts, Chunks;
  }

  /** A new file has no live vector yet. */
  lemma GoneOfFile(s: Stores, w: Write)
    requires Core(s)
    ensures var gone := if Known(s.tables, w) then ChunkIdsOf(s.tables.chunks, DocIdOf(s, w)) else {};
      forall k :: k in LiveIds(s.vector) ==> (k in gone <==> s.tables.chunks[k].file == DocIdOf(s, w))
  {
    NewDocIsFresh(s);
    hide LiveIds, UniqueIds, FileIds;
  }

  /** What it leaves in the snapshot and the counter. */
  lemma IndexedSnapshot(d: IndexState, roots: nat, event: ChangeEvent, input: Input)
    requires Indexes(roots, event, input) && input.faults.failing.None?
    ensures var c, d' := event.candidate.value, Processed(d, roots, event, input);
      && d'.snapshot.Some? && c.canonical in d'.snapshot.value && d'.snapshot.value[c.canonical].candidate == c
      && (forall p :: p != c.canonical ==>
            Lookup(d'.snapshot.value, p) == if d.snapshot.Some? then Lookup(d.snapshot.value, p) else None)
      && d'.indexed == d.indexed + (if event.kind == Added then 1 else 0)
      && d'.stores.nextDoc == d.stores.nextDoc + (if c.canonical in d.stores.tables.files then 0 else 1)
  {
    PutOutcome(d, roots, event, input);
    hide Processed, WrittenTables, VectorAfter, LexicalOps;
  }

  // ---------------------------------------------------------------------------------
  // Every other event
  // ---------------------------------------------------------------------------------

  function FailureNoted(d: IndexState, failure: Failure): IndexState {
    d.(stores := d.stores.(tables := d.stores.tables.(failures := d.stores.tables.failures + [failure])))
  }

  /** An event without a file, of a root that is no longer configured, or of a file without text
      changes nothing, but the last two are noted for a stored path. */
  lemma NothingIndexed(d: IndexState, roots: nat, event: ChangeEvent, input: Input)
    requires event.kind != Deleted && !Indexes(roots, event, input)
    ensures Processed(d, roots, event, input) ==
      if event.kind != Unchanged && event.candidate.Some? && event.path in d.stores.tables.files then
        FailureNoted(d, Failure(Some(d.stores.tables.files[event.path].id), event.path, "indexing"))
      else d
  {
  }

  /** The statement that is to fail is one that the write of such a file comes to. */
  predicate Reaches(failing: Statement, known: bool, aliases: seq<Path>) {
    match failing
    case DeleteDocument => known
    case ReadChunks => known
    case UpsertAlias => aliases != []
    case _ => true
  }

  /** A write of which a statement fails leaves every table as it was, with a note that it failed,
      and moves neither the snapshot nor the counter. */
  lemma NothingWritten(d: IndexState, roots: nat, event: ChangeEvent, input: Input)
    requires Indexes(roots, event, input) && input.faults.failing.Some?
    requires var c := event.candidate.value;
      Reaches(input.faults.failing.value, c.canonical in d.stores.tables.files, c.aliases)
    ensures var d' := Processed(d, roots, event, input);
      && d'.stores.tables == FailureNoted(d, Failure(None, event.candidate.value.canonical, "extract")).stores.tables
      && d'.snapshot == d.snapshot && d'.indexed == d.indexed
  {
    PutOutcome(d, roots, event, input);
    hide Processed, WrittenTables, VectorAfter, LexicalOps, DocIdOf, SnapshotUpdated;
  }

  /** What such a write leaves in the lexical index: the old document is gone if the failing statement
      comes after its removal, and the new one is there if it comes after its addition. */
  lemma FailedDocument(d: IndexState, roots: nat, event: ChangeEvent, input: Input)
    requires Indexes(roots, event, input) && input.faults.failing.Some?
    requires var c := event.candidate.value;
      Reaches(input.faults.failing.value, c.canonical in d.stores.tables.files, c.aliases)
    ensures var c, x, f := event.candidate.value, input.extraction.value, input.faults.failing.value;
      var l, l' := d.stores.lexical, Processed(d, roots, event, input).stores.lexical;
      var known, id := c.canonical in d.stores.tables.files, IdFor(d.stores, c.canonical);
      var removed := known && f !in {FindFile, CreateJournal, DeleteDocument};
      var kept := if removed then [] else Lexical.Matching(Lexical.Visible(l), id);
      && l'.committed == l.committed
      && (if f in {AdvanceToVector, Statement.ReplaceChunks, SetStatus, IngestTime, CompleteJournal} then
            exists doc :: DocumentShows(doc, id, c, x) && Lexical.Matching(Lexical.Visible(l'), id) == kept + [doc]
          else Lexical.Matching(Lexical.Visible(l'), id) == kept)
      && forall other :: other != id ==>
           Lexical.Matching(Lexical.Visible(l'), other) == Lexical.Matching(Lexical.Visible(l), other)
  {
    hide Outcome, Fails, SnapshotUpdated, Processed, DocIdOf, Lexical.Visible, Lexical.Matching, Lexical.Without,
      DocumentShows;
    var c, x, f := event.candidate.value, input.extraction.value, input.faults.failing.value;
    var w := Write(c, x.text, x.mime, input.embeddings);
    var removed := c.canonical in d.stores.tables.files && f !in {FindFile, CreateJournal, DeleteDocument};
    PutOutcome(d, roots, event, input);
    var id := DocIdOf(d.stores, w);
    QueuedByFailure(d.stores, w, input.faults);
    RequeuedDocument(d.stores.lexical, DocOf(w, id), removed,
                     f in {AdvanceToVector, Statement.ReplaceChunks, SetStatus, IngestTime, CompleteJournal});
    DocumentOfWrite(w, id);
  }

  lemma QueuedByFailure(s: Stores, w: Write, faults: Faults)
    requires faults.failing.Some?
    requires Reaches(faults.failing.value, w.candidate.canonical in s.tables.files, w.candidate.aliases)
    ensures var id, f := DocIdOf(s, w), faults.failing.value;
      var removed := w.candidate.canonical in s.tables.files && f !in {FindFile, CreateJournal, DeleteDocument};
      Outcome(s, w, faults).lexical == Lexical.Queued(s.lexical, (if removed then [Lexical.Remove(id)] else []) +
        if f in {AdvanceToVector, Statement.ReplaceChunks, SetStatus, IngestTime, CompleteJournal}
        then [Lexical.Add(DocOf(w, id))] else [])
  {
    hide WrittenTables, VectorAfter, DocIdOf;
  }

  /** And in the vector index: the file's old vectors are dead if the failing statement comes after the
      tombstones, and new ones are live if it comes after the upsert. */
  lemma FailedVectors(d: IndexState, roots: nat, event: ChangeEvent, input: Input)
    requires Core(d.stores) && Indexes(roots, event, input) && input.faults.failing.Some?
    requires var c := event.candidate.value;
      Reaches(input.faults.failing.value, c.canonical in d.stores.tables.files, c.aliases)
    ensures var c, x, f := event.candidate.value, input.extraction.value, input.faults.failing.value;
      var s, v := d.stores, Processed(d, roots, event, input).stores.vector;
      var n := EmbeddedCount(input.embeddings, |Chunks(x.text, 1000, 200)|);
      forall k: ChunkId :: k in LiveIds(v) <==>
        || (k in LiveIds(s.vector) &&
              (s.tables.chunks[k].file != IdFor(s, c.canonical)
               || f in {FindFile, CreateJournal, DeleteDocument, ReadChunks}))
        || (f in {IngestTime, CompleteJournal} && s.tables.chunkSeq < k <= s.tables.chunkSeq + n)
  {
    hide Outcome, Fails, SnapshotUpdated, Processed, DocIdOf, Chunks, LiveIds, UniqueIds, EmbeddedCount, VectorAfter,
      Core, IdFor;
    var c, x := event.candidate.value, input.extraction.value;
    var w := Write(c, x.text, x.mime, input.embeddings);
    PutOutcome(d, roots, event, input);
    OutcomeVector(d.stores, w, input.faults);
    VectorsOfFailure(d.stores, w, input.faults);
  }

  lemma FailurePasses(t: Tables, w: Write, faults: Faults)
    requires faults.failing.Some?
    requires Reaches(faults.failing.value, w.candidate.canonical in t.files, w.candidate.aliases)
    ensures Passes(t, w, faults, ReadChunks) <==>
      faults.failing.value !in {FindFile, CreateJournal, DeleteDocument, ReadChunks}
    ensures Passes(t, w, faults, SetStatus) <==> faults.failing.value in {IngestTime, CompleteJournal}
  {
  }

  lemma VectorsOfFailure(s: Stores, w: Write, faults: Faults)
    requires Core(s) && faults.failing.Some?
    requires Reaches(faults.failing.value, w.candidate.canonical in s.tables.files, w.candidate.aliases)
    ensures var v, n, f := VectorAfter(s, w, faults), EmbeddedCount(w.embeddings, |Chunks(w.text, 1000, 200)|),
        faults.failing.value;
      forall k: ChunkId :: k in LiveIds(v) <==>
        || (k in LiveIds(s.vector) &&
              (s.tables.chunks[k].file != DocIdOf(s, w)
               || f in {FindFile, CreateJournal, DeleteDocument, ReadChunks}))
        || (f in {IngestTime, CompleteJournal} && s.tables.chunkSeq < k <= s.tables.chunkSeq + n)
  {
    PairedShown(w);
    PointsFromLaws(s.tables.chunkSeq, Paired(w));
    VectorAfterLaws(s, w, faults);
    GoneOfFile(s, w);
    FailurePasses(s.tables, w, faults);
    hide Paired, PointsFrom, VectorAfter, UniqueIds, LiveIds, Ids, Chunks, ChunkIdsOf, WellFormed, DocIdOf, Passes,
      Reaches;
  }

  /** What a deletion leaves of the file: no row, alias, chunk, document or live vector; and nothing
      else of the three stores changes. */
  lemma FileForgotten(d: IndexState, roots: nat, event: ChangeEvent, input: Input)
    requires Core(d.stores) && event.kind == Deleted && event.path in d.stores.tables.files
    ensures var s, s', id := d.stores, Processed(d, roots, event, input).stores, d.stores.tables.files[event.path].id;
      && (forall p :: Lookup(s'.tables.files, p) == if p == event.path then None else Lookup(s.tables.files, p))
      && (forall a :: Lookup(s'.tables.aliases, a) ==
            if Lookup(s.tables.aliases, a) == Some(id) then None else Lookup(s.tables.aliases, a))
      && (forall k :: Lookup(s'.tables.chunks, k) ==
            if k in s.tables.chunks && s.tables.chunks[k].file == id then None else Lookup(s.tables.chunks, k))
      && (forall other :: Lexical.Matching(Lexical.Visible(s'.lexical), other) ==
            if other == id then [] else Lexical.Matching(Lexical.Visible(s.lexical), other))
      && (forall k :: k in LiveIds(s'.vector) <==> k in LiveIds(s.vector) && s.tables.chunks[k].file != id)
  {
    hide Lexical.Visible, Lexical.Matching, Lexical.Without, UniqueIds, FileIds, Tombstoned, LiveIds;
    var id := d.stores.tables.files[event.path].id;
    TombstonedLaws(d.stores.vector, ChunkIdsOf(d.stores.tables.chunks, id));
    Lexical.VisibleNext(d.stores.lexical, Lexical.Remove(id));
    forall other {
      Lexical.MatchingWithout(Lexical.Visible(d.stores.lexical), id, other);
    }
  }

  /** A deletion takes the path of a stored file out of the snapshot and counts it; of any other path
      it does nothing. */
  lemma DeletionCounted(d: IndexState, roots: nat, event: ChangeEvent, input: Input)
    requires event.kind == Deleted
    ensures var d' := Processed(d, roots, event, input);
      if event.path in d.stores.tables.files then
        && d'.snapshot.Some?
        && (forall p :: Lookup(d'.snapshot.value, p) ==
              if p == event.path || d.snapshot.None? then None else Lookup(d.snapshot.value, p))
        && d'.indexed == (if d.indexed > 0 then d.indexed - 1 else 0) && d'.stores.nextDoc == d.stores.nextDoc
      else d' == d
  {
    hide Tombstoned, FilesWithout, ChunksWithout;
  }
}
