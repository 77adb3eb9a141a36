/** The metadata store: the tables as maps, and one transaction at a time over them. */
module Meta {
  import opened Common
  import opened Utf8
  import opened Vectors

  datatype Status = Pending | Done

  datatype FileRow = FileRow(id: DocId, name: string, extension: Option<string>, size: nat, modified: nat,
    status: Status)

  datatype ChunkRow = ChunkRow(file: DocId, text: Bytes, embedding: Option<Vector>)

  datatype Stage = MetaStage | LexicalStage | VectorStage

  datatype JournalRow = JournalRow(file: DocId, path: Path, stage: Stage)

  /** `None` stands for the literal id "unknown". */
  datatype Failure = Failure(file: Option<DocId>, path: Path, stage: string)

  /** `files` is keyed by its UNIQUE column and its primary key is in the row. The two sequences
      are the AUTOINCREMENT counters of `chunks` and `ingest_journal`. */
  datatype Tables = Tables(
    files: map<Path, FileRow>,
    aliases: map<Path, DocId>,
    chunks: map<ChunkId, ChunkRow>,
    chunkSeq: nat,
    journal: map<nat, JournalRow>,
    journalSeq: nat,
    failures: seq<Failure>)

  const EMPTY_TABLES := Tables(map[], map[], map[], 0, map[], 0, [])

  datatype PageRow = PageRow(id: ChunkId, text: Bytes, embedding: Option<Vector>)

  // ---------------------------------------------------------------------------------
  // Statements as functions of the tables
  // ---------------------------------------------------------------------------------

  function FileIds(files: map<Path, FileRow>): set<DocId> {
    set p | p in files :: files[p].id
  }

  function ChunkIdsOf(chunks: map<ChunkId, ChunkRow>, file: DocId): set<ChunkId> {
    set c | c in chunks && chunks[c].file == file
  }

  /** INSERT .. ON CONFLICT(canonical_path) DO UPDATE: a known path keeps its id. */
  function WithFile(t: Tables, path: Path, row: FileRow): Tables {
    t.(files := t.files[path := row.(id := if path in t.files then t.files[path].id else row.id, status := Pending)])
  }

  function WithStatus(t: Tables, file: DocId, status: Status): Tables {
    t.(files := map p | p in t.files ::
      if t.files[p].id == file then t.files[p].(status := status) else t.files[p])
  }

  function FilesWithout(files: map<Path, FileRow>, file: DocId): map<Path, FileRow> {
    map p | p in files && files[p].id != file :: files[p]
  }

  function ChunksWithout(chunks: map<ChunkId, ChunkRow>, file: DocId): map<ChunkId, ChunkRow> {
    map c | c in chunks && chunks[c].file != file :: chunks[c]
  }

  /** DELETE FROM files, with its cascades into aliases and chunks. */
  function WithoutFile(t: Tables, file: DocId): Tables {
    t.(files := FilesWithout(t.files, file),
       aliases := map a | a in t.aliases && t.aliases[a] != file :: t.aliases[a],
       chunks := ChunksWithout(t.chunks, file))
  }

  function AliasMap(file: DocId, observed: seq<Path>): map<Path, DocId> {
    map a | a in observed :: file
  }

  function WithAliases(t: Tables, file: DocId, observed: seq<Path>): Tables {
    t.(aliases := t.aliases + AliasMap(file, observed))
  }

  predicate IsNew(base: nat, n: nat, c: ChunkId) {
    base < c <= base + n
  }

  /** The rows inserted for `texts`: consecutive ids right after the sequence counter. */
  function NewRows(base: nat, file: DocId, texts: seq<Bytes>, embeddings: seq<Option<Vector>>): map<ChunkId, ChunkRow>
    requires |texts| == |embeddings|
  {
    map c | base < c <= base + |texts| && IsNew(base, |texts|, c) ::
      ChunkRow(file, texts[c - base - 1], embeddings[c - base - 1])
  }

  function Unembedded(n: nat): seq<Option<Vector>> {
    seq(n, _ => None)
  }

  function WithChunks(t: Tables, file: DocId, texts: seq<Bytes>, embeddings: seq<Option<Vector>>): Tables
    requires |texts| == |embeddings|
  {
    t.(chunks := (t.chunks - ChunkIdsOf(t.chunks, file)) + NewRows(t.chunkSeq, file, texts, embeddings),
       chunkSeq := t.chunkSeq + |texts|)
  }

  function IdsFrom(base: nat, n: nat): seq<ChunkId> {
    seq(n, i => base + 1 + i)
  }

  /** A blob is NULL for an empty embedding. */
  function Blob(v: Vector): Option<Vector> {
    if v == [] then None else Some(v)
  }

  function EmbeddingsOf(chunks: map<ChunkId, ChunkRow>): map<ChunkId, Vector> {
    map c | c in chunks && chunks[c].embedding.Some? :: chunks[c].embedding.value
  }

  /** The first `limit` chunk rows after the cursor, in id order. */
  ghost predicate IsPage(chunks: map<ChunkId, ChunkRow>, cursor: nat, limit: nat, page: seq<PageRow>) {
    && |page| <= limit
    && (forall i :: 0 <= i < |page| ==> cursor < page[i].id)
    && (forall i, j :: 0 <= i < j < |page| ==> page[i].id < page[j].id)
    && (forall r :: r in page ==>
          r.id in chunks && r.text == chunks[r.id].text && r.embedding == chunks[r.id].embedding)
    && (forall c :: c in chunks && cursor < c ==>
          (exists r :: r in page && r.id == c) || (|page| == limit && forall r :: r in page ==> r.id < c))
  }

  // ---------------------------------------------------------------------------------
  // Integrity
  // ---------------------------------------------------------------------------------

  ghost predicate DistinctIds(files: map<Path, FileRow>) {
    forall p, q :: p in files && q in files && files[p].id == files[q].id ==> p == q
  }

  /** Primary and foreign keys hold and ids never run ahead of their counters. */
  ghost predicate WellFormed(t: Tables) {
    && DistinctIds(t.files)
    && (forall c :: c in t.chunks ==> 1 <= c <= t.chunkSeq && t.chunks[c].file in FileIds(t.files))
    && (forall a :: a in t.aliases ==> t.aliases[a] in FileIds(t.files))
    && (forall j :: j in t.journal ==> j <= t.journalSeq)
  }

  /** The id stored under a path. */
  function FileIdAt(files: map<Path, FileRow>, path: Path): Option<DocId> {
    if path in files then Some(files[path].id) else None
  }

  /** What a lookup finds after an upsert and after a delete: a known path keeps the id it had, and
      no other path changes; a delete makes exactly the path of that id unknown. */
  lemma LookupLaws(t: Tables, path: Path, row: FileRow, gone: DocId, q: Path)
    requires WellFormed(t)
    ensures FileIdAt(WithFile(t, path, row).files, q) ==
      if q != path || path in t.files then FileIdAt(t.files, q) else Some(row.id)
    ensures FileIdAt(WithoutFile(t, gone).files, q) ==
      if FileIdAt(t.files, q) == Some(gone) then None else FileIdAt(t.files, q)
    ensures q in t.files && FileIdAt(t.files, path) == FileIdAt(t.files, q) ==> path == q
  {
    hide ChunksWithout;
  }

  lemma UpsertedIds(files: map<Path, FileRow>, path: Path, row: FileRow)
    requires path in files ==> row.id == files[path].id
    ensures FileIds(files[path := row]) == FileIds(files) + {row.id}
  {
    var files' := files[path := row];
    assert files'[path].id == row.id;
    assert forall p :: p in files ==> p in files' && files'[p].id == files[p].id;
  }

  lemma UpsertedDistinct(files: map<Path, FileRow>, path: Path, row: FileRow)
    requires DistinctIds(files) && (path in files ==> row.id == files[path].id)
    ensures DistinctIds(files[path := row]) <==> path in files || row.id !in FileIds(files)
  {
    var files' := files[path := row];
    if path !in files && row.id in FileIds(files) {
      var p :| p in files && files[p].id == row.id;
      assert files'[p].id == files'[path].id;
    }
  }

  /** The upsert keeps the tables in order if and only if it is of a known path or brings an unused
      id; it changes that one row only, and to the ids it only adds its own. */
  lemma FileUpserted(t: Tables, path: Path, row: FileRow)
    requires WellFormed(t)
    ensures var t' := WithFile(t, path, row);
      && (WellFormed(t') <==> path in t.files || row.id !in FileIds(t.files))
      && t'.files.Keys == t.files.Keys + {path}
      && (forall q :: q in t.files && q != path ==> t'.files[q] == t.files[q])
      && FileIds(t'.files) == FileIds(t.files) + {t'.files[path].id}
      && t'.aliases == t.aliases && t'.chunks == t.chunks
  {
    var stored := WithFile(t, path, row).files[path];
    UpsertedIds(t.files, path, stored);
    UpsertedDistinct(t.files, path, stored);
    hide FileIds;
  }

  lemma RemainingIds(files: map<Path, FileRow>, file: DocId)
    ensures FileIds(FilesWithout(files, file)) == FileIds(files) - {file}
  {
    forall d | d in FileIds(files) && d != file
      ensures d in FileIds(FilesWithout(files, file))
    {
      var p :| p in files && files[p].id == d;
      assert p in FilesWithout(files, file);
    }
  }

  /** Deleting by the id of a path takes out exactly that path. */
  lemma WithoutPath(files: map<Path, FileRow>, path: Path)
    requires DistinctIds(files) && path in files
    ensures FilesWithout(files, files[path].id) == files - {path}
  {
  }

  /** A delete takes the file, its aliases and its chunks out, leaves every other row as it is, and
      keeps the tables in order. */
  lemma FileDeleted(t: Tables, file: DocId)
    requires WellFormed(t)
    ensures var t' := WithoutFile(t, file);
      && WellFormed(t')
      && FileIds(t'.files) == FileIds(t.files) - {file} && ChunkIdsOf(t'.chunks, file) == {}
      && (forall a :: a in t'.aliases <==> a in t.aliases && t.aliases[a] != file)
      && (forall p :: p in t'.files ==> p in t.files && t'.files[p] == t.files[p])
      && (forall c :: c in t'.chunks <==> c in t.chunks && c !in ChunkIdsOf(t.chunks, file))
      && (forall c :: c in t'.chunks ==> t'.chunks[c] == t.chunks[c])
  {
    RemainingIds(t.files, file);
    hide FileIds;
  }

  /** The rows of a file have to go with it: deleting the row alone keeps the tables in order if and
      only if the file has no alias and no chunk. */
  lemma CascadeNeeded(t: Tables, file: DocId)
    requires WellFormed(t)
    ensures WellFormed(t.(files := FilesWithout(t.files, file))) <==>
      ChunkIdsOf(t.chunks, file) == {} && forall a :: a in t.aliases ==> t.aliases[a] != file
  {
    RemainingIds(t.files, file);
    hide FileIds;
    var t' := t.(files := FilesWithout(t.files, file));
    if ChunkIdsOf(t.chunks, file) != {} {
      var c :| c in ChunkIdsOf(t.chunks, file);
      assert t'.chunks[c].file == file;
    }
    if a :| a in t.aliases && t.aliases[a] == file {
      assert t'.aliases[a] == file;
    }
    assert forall c :: c in t.chunks ==> (t.chunks[c].file == file <==> c in ChunkIdsOf(t.chunks, file));
  }

  /** An alias may be written if and only if its file exists; it then belongs to that file alone. */
  lemma AliasUpserted(t: Tables, file: DocId, observed: Path)
    requires WellFormed(t)
    ensures var t' := t.(aliases := t.aliases[observed := file]);
      && (WellFormed(t') <==> file in FileIds(t.files))
      && t'.aliases[observed] == file
      && forall a :: a in t.aliases && a != observed ==> a in t'.aliases && t'.aliases[a] == t.aliases[a]
  {
    hide FileIds;
    assert observed in t.aliases[observed := file];
  }

  class MetaStore {
    var tables: Tables
    var saved: Option<Tables>

    constructor ()
      ensures tables == EMPTY_TABLES && saved == None
    {
      tables, saved := EMPTY_TABLES, None;
    }

    method BeginTransaction() returns (ok: bool)
      modifies this
      ensures ok == old(saved).None? && tables == old(tables)
      ensures saved == if ok then Some(old(tables)) else old(saved)
    {
      ok := saved.None?;
      if ok {
        saved := Some(tables);
      }
    }

    method Commit() returns (ok: bool)
      modifies this
      ensures ok == old(saved).Some? && tables == old(tables) && saved == None
    {
      ok := saved.Some?;
      saved := None;
    }

    method Rollback() returns (ok: bool)
      modifies this
      ensures ok == old(saved).Some? && saved == None
      ensures tables == if ok then old(saved).value else old(tables)
    {
      ok := saved.Some?;
      if ok {
        tables := saved.value;
      }
      saved := None;
    }

    method GetFileByCanonicalPath(path: Path) returns (id: Option<DocId>)
      ensures id == FileIdAt(tables.files, path)
    {
      id := if path in tables.files then Some(tables.files[path].id) else None;
    }

    /** Fails on a new path whose id is taken by another. */
    method UpsertFile(path: Path, row: FileRow) returns (ok: bool)
      modifies this
      ensures saved == old(saved)
      ensures ok == (path in old(tables).files || row.id !in FileIds(old(tables).files))
      ensures tables == if ok then WithFile(old(tables), path, row) else old(tables)
      ensures WellFormed(old(tables)) ==> WellFormed(tables)
    {
      ok := path in tables.files || row.id !in FileIds(tables.files);
      if WellFormed(tables) {
        FileUpserted(tables, path, row);
      }
      hide WellFormed;
      if ok {
        tables := WithFile(tables, path, row);
      }
    }

    method SetExtractorStatus(file: DocId, status: Status)
      modifies this
      ensures saved == old(saved) && tables == WithStatus(old(tables), file, status)
    {
      tables := WithStatus(tables, file, status);
    }

    method DeleteFile(file: DocId)
      modifies this
      ensures saved == old(saved) && tables == WithoutFile(old(tables), file)
      ensures WellFormed(old(tables)) ==> WellFormed(tables)
    {
      hide WellFormed, WithoutFile;
      if WellFormed(tables) {
        FileDeleted(tables, file);
      }
      tables := WithoutFile(tables, file);
    }

    /** Fails if the file does not exist. */
    method UpsertAlias(file: DocId, observed: Path) returns (ok: bool)
      modifies this
      ensures saved == old(saved) && ok == (file in FileIds(old(tables).files))
      ensures tables == if ok then old(tables).(aliases := old(tables).aliases[observed := file]) else old(tables)
      ensures WellFormed(old(tables)) ==> WellFormed(tables)
    {
      hide WellFormed, FileIds;
      if WellFormed(tables) {
        AliasUpserted(tables, file, observed);
      }
      ok := file in FileIds(tables.files);
      if ok {
        tables := tables.(aliases := tables.aliases[observed := file]);
      }
    }

    /** Deletes the file's chunks and inserts the new ones, one by one. Fails if there is
        something to insert and the file does not exist. */
    method ReplaceChunks(file: DocId, texts: seq<Bytes>) returns (ids: Option<seq<ChunkId>>)
      modifies this
      ensures saved == old(saved)
      ensures ids.Some? == (texts == [] || file in FileIds(old(tables).files))
      ensures ids.Some? ==> ids.value == IdsFrom(old(tables).chunkSeq, |texts|)
      ensures ids.Some? ==> tables == WithChunks(old(tables), file, texts, Unembedded(|texts|))
    {
      hide FileIds, NewRows, ChunkIdsOf;
      ghost var t0 := tables;
      tables := tables.(chunks := tables.chunks - ChunkIdsOf(tables.chunks, file));
      var newIds: seq<ChunkId> := [];
      ghost var kept := tables.chunks;
      NoRows(t0.chunkSeq, file, texts);
      for i := 0 to |texts|
        invariant saved == old(saved) && (i > 0 ==> file in FileIds(t0.files))
        invariant |newIds| == i && forall k :: 0 <= k < i ==> newIds[k] == t0.chunkSeq + 1 + k
        invariant tables == t0.(chunks := kept + NewRows(t0.chunkSeq, file, texts[..i], Unembedded(i)),
                                chunkSeq := t0.chunkSeq + i)
      {
        if file !in FileIds(tables.files) {
          return None;
        }
        var id := tables.chunkSeq + 1;
        InsertRow(kept, t0.chunkSeq, file, texts, i);
        tables := tables.(chunks := tables.chunks[id := ChunkRow(file, texts[i], None)], chunkSeq := id);
        newIds := newIds + [id];
      }
      assert texts[..|texts|] == texts;
      ids := Some(newIds);
    }

    /** UPDATE by id for as many chunks as there are embeddings, or until a statement fails:
        `done` of them then went through. */
    method StoreChunkEmbeddings(ids: seq<ChunkId>, embeddings: seq<Vector>, done: nat)
      requires forall i, j :: 0 <= i < j < |ids| ==> ids[i] != ids[j]
      modifies this
      ensures saved == old(saved)
      ensures tables == WithEmbeddings(old(tables), ids, embeddings, done)
    {
      var n := if |ids| < |embeddings| then |ids| else |embeddings|;
      n := if done < n then done else n;
      for i := 0 to n
        invariant saved == old(saved)
        invariant tables == WithEmbeddings(old(tables), ids, embeddings, i)
      {
        EmbedNext(old(tables), ids, embeddings, i);
        hide WithEmbeddings;
        if ids[i] in tables.chunks {
          tables := tables.(chunks :=
            tables.chunks[ids[i] := tables.chunks[ids[i]].(embedding := Blob(embeddings[i]))]);
        }
      }
    }

    method GetChunksForFile(file: DocId) returns (ids: seq<ChunkId>)
      ensures IdSet(ids) == ChunkIdsOf(tables.chunks, file)
    {
      ids := [];
      var rest := tables.chunks.Keys;
      while rest != {}
        invariant rest <= tables.chunks.Keys
        invariant IdSet(ids) == ChunkIdsOf(tables.chunks, file) - rest
        decreases rest
      {
        var c :| c in rest;
        ghost var before, unseen := ids, rest;
        rest := rest - {c};
        if tables.chunks[c].file == file {
          ids := ids + [c];
          assert IdSet(ids) == IdSet(before) + {c};
          assert ChunkIdsOf(tables.chunks, file) - rest == (ChunkIdsOf(tables.chunks, file) - unseen) + {c};
        } else {
          assert ChunkIdsOf(tables.chunks, file) - rest == ChunkIdsOf(tables.chunks, file) - unseen;
        }
      }
    }

    /** The file that a chunk joins to, with its path. */
    method GetFileByChunkId(chunk: ChunkId) returns (file: Option<(Path, FileRow)>)
      ensures file.Some? <==> chunk in tables.chunks && tables.chunks[chunk].file in FileIds(tables.files)
      ensures file.Some? ==>
        && file.value.0 in tables.files && tables.files[file.value.0] == file.value.1
        && tables.chunks[chunk].file == file.value.1.id
    {
      file := None;
      if chunk in tables.chunks && tables.chunks[chunk].file in FileIds(tables.files) {
        var p :| p in tables.files && tables.files[p].id == tables.chunks[chunk].file;
        file := Some((p, tables.files[p]));
      }
    }

    method GetChunkText(chunk: ChunkId) returns (text: Option<Bytes>)
      ensures text == if chunk in tables.chunks then Some(tables.chunks[chunk].text) else None
    {
      text := if chunk in tables.chunks then Some(tables.chunks[chunk].text) else None;
    }

    method CountChunks() returns (count: nat)
      ensures count == |tables.chunks|
    {
      count := |tables.chunks|;
    }

    method GetChunksWithEmbeddingsAfter(cursor: nat, limit: nat) returns (page: seq<PageRow>)
      requires forall c :: c in tables.chunks ==> c <= tables.chunkSeq
      ensures IsPage(tables.chunks, cursor, limit, page)
    {
      page := [];
      var id := cursor;
      while id < tables.chunkSeq && |page| < limit
        invariant cursor <= id && |page| <= limit
        invariant forall r :: r in page ==> cursor < r.id <= id
        invariant forall i, j :: 0 <= i < j < |page| ==> page[i].id < page[j].id
        invariant forall r :: r in page ==>
          r.id in tables.chunks && r.text == tables.chunks[r.id].text && r.embedding == tables.chunks[r.id].embedding
        invariant forall c :: c in tables.chunks && cursor < c <= id ==> exists r :: r in page && r.id == c
        decreases tables.chunkSeq - id
      {
        id := id + 1;
        if id in tables.chunks {
          var row := PageRow(id, tables.chunks[id].text, tables.chunks[id].embedding);
          assert row in page + [row];
          page := page + [row];
        }
      }
    }

    method CreateJournalEntry(file: DocId, path: Path) returns (id: nat)
      modifies this
      ensures saved == old(saved) && id == old(tables).journalSeq + 1
      ensures tables == old(tables).(journal :=
        old(tables).journal[id := JournalRow(file, path, MetaStage)], journalSeq := id)
    {
      id := tables.journalSeq + 1;
      tables := tables.(journal := tables.journal[id := JournalRow(file, path, MetaStage)], journalSeq := id);
    }

    method AdvanceJournalStage(id: nat, stage: Stage)
      modifies this
      ensures saved == old(saved)
      ensures tables == if id in old(tables).journal
        then old(tables).(journal := old(tables).journal[id := old(tables).journal[id].(stage := stage)])
          else old(tables)
    {
      if id in tables.journal {
        tables := tables.(journal := tables.journal[id := tables.journal[id].(stage := stage)]);
      }
    }

    method CompleteJournalEntry(id: nat)
      modifies this
      ensures saved == old(saved) && tables == old(tables).(journal := old(tables).journal - {id})
    {
      tables := tables.(journal := tables.journal - {id});
    }

    method RecordFailure(file: Option<DocId>, path: Path, stage: string)
      modifies this
      ensures saved == old(saved)
      ensures tables == old(tables).(failures := old(tables).failures + [Failure(file, path, stage)])
    {
      tables := tables.(failures := tables.failures + [Failure(file, path, stage)]);
    }
  }

  lemma NoRows(base: nat, file: DocId, texts: seq<Bytes>)
    ensures NewRows(base, file, texts[..0], Unembedded(0)) == map[]
  {
  }

  lemma InsertRow(kept: map<ChunkId, ChunkRow>, base: nat, file: DocId, texts: seq<Bytes>, i: nat)
    requires i < |texts|
    ensures (kept + NewRows(base, file, texts[..i], Unembedded(i)))[base + i + 1 := ChunkRow(file, texts[i], None)]
         == kept + NewRows(base, file, texts[..i + 1], Unembedded(i + 1))
  {
  }

  /** The embeddings of the first `done` pairs of an id and an embedding are stored. */
  ghost function EmbedRows(chunks: map<ChunkId, ChunkRow>, ids: seq<ChunkId>, embeddings: seq<Vector>, done: nat)
    : map<ChunkId, ChunkRow>
  {
    map c | c in chunks ::
      if exists i :: 0 <= i < done && i < |ids| && i < |embeddings| && ids[i] == c then
        var i :| 0 <= i < done && i < |ids| && i < |embeddings| && ids[i] == c;
        chunks[c].(embedding := Blob(embeddings[i]))
      else chunks[c]
  }

  ghost function WithEmbeddings(t: Tables, ids: seq<ChunkId>, embeddings: seq<Vector>, done: nat): Tables {
    t.(chunks := EmbedRows(t.chunks, ids, embeddings, done))
  }

  lemma EmbedRowAt(chunks: map<ChunkId, ChunkRow>, ids: seq<ChunkId>, embeddings: seq<Vector>, done: nat, i: nat)
    requires forall i, j :: 0 <= i < j < |ids| ==> ids[i] != ids[j]
    requires i < |ids| && ids[i] in chunks
    ensures EmbedRows(chunks, ids, embeddings, done)[ids[i]] ==
      if i < done && i < |embeddings| then chunks[ids[i]].(embedding := Blob(embeddings[i])) else chunks[ids[i]]
  {
  }

  lemma EmbedKeys(chunks: map<ChunkId, ChunkRow>, ids: seq<ChunkId>, embeddings: seq<Vector>, done: nat)
    ensures EmbedRows(chunks, ids, embeddings, done).Keys == chunks.Keys
  {
  }

  lemma EmbedRowElsewhere(chunks: map<ChunkId, ChunkRow>, ids: seq<ChunkId>, embeddings: seq<Vector>, done: nat,
                          c: ChunkId)
    requires c in chunks && c !in ids
    ensures EmbedRows(chunks, ids, embeddings, done)[c] == chunks[c]
  {
  }

  lemma EmbedNext(t: Tables, ids: seq<ChunkId>, embeddings: seq<Vector>, i: nat)
    requires i < |ids| && i < |embeddings|
    requires forall i, j :: 0 <= i < j < |ids| ==> ids[i] != ids[j]
    ensures var u := WithEmbeddings(t, ids, embeddings, i);
      WithEmbeddings(t, ids, embeddings, i + 1) ==
        if ids[i] in u.chunks then u.(chunks :=
          u.chunks[ids[i] := u.chunks[ids[i]].(embedding := Blob(embeddings[i]))]) else u
  {
    var u := WithEmbeddings(t, ids, embeddings, i);
    var u' := WithEmbeddings(t, ids, embeddings, i + 1);
    forall c | c in t.chunks
      ensures u'.chunks[c] == if ids[i] == c then u.chunks[c].(embedding := Blob(embeddings[i])) else u.chunks[c]
    {
    }
  }
}
