/** What the stored chunk rows say about the text of a document. */
module StoredText {
  import opened Common
  import opened Utf8
  import opened Chunking
  import opened ChunkLaws
  import opened Lexical
  import opened Meta
  import opened Stores
  import opened Libraries

  /** The texts are those of the document's chunks, in order, each behind the document's header. */
  ghost predicate TextsFit(e: Entry) {
    var chunks := Chunks(e.doc.text, MAX_CHARS, OVERLAP_CHARS);
    && |e.texts| == |e.embeddings| == |chunks|
    && forall i :: 0 <= i < |chunks| ==> e.texts[i] == HeaderOf(e.doc.path, e.doc.extension) + chunks[i].text
  }

  lemma WriteFits(w: Write, id: DocId)
    ensures TextsFit(EntryOfWrite(w, id))
  {
    hide Chunks, HeaderOf;
    EmbeddingsLength(w);
  }

  lemma {:induction false} EntriesFit(lib: Library, events: seq<Event>)
    requires forall id :: id in lib.entries ==> TextsFit(lib.entries[id])
    ensures forall id :: id in LibraryAfter(lib, events).entries ==> TextsFit(LibraryAfter(lib, events).entries[id])
  {
    hide TextsFit, EntryOfWrite;
    if events != [] {
      var last := events[|events| - 1];
      EntriesFit(lib, events[..|events| - 1]);
      if last.Put? {
        var before := LibraryAfter(lib, events[..|events| - 1]);
        var path := last.write.candidate.canonical;
        WriteFits(last.write, if path in before.ids then before.ids[path] else before.next);
      }
    }
  }

  /** The rows of a file hold a text: row by row its chunks, behind the file's header, and these
      chunks without their overlaps are the whole text. */
  ghost predicate HoldsText(chunks: map<Vectors.ChunkId, ChunkRow>, doc: Doc, base: nat) {
    var cs := Chunks(doc.text, MAX_CHARS, OVERLAP_CHARS);
    && (forall c: nat :: IsNew(base, |cs|, c) <==> c in ChunkIdsOf(chunks, doc.id))
    && (forall c: nat :: IsNew(base, |cs|, c) ==>
          c in chunks && chunks[c].text == HeaderOf(doc.path, doc.extension) + cs[c - base - 1].text)
    && Rebuild(cs) == Encode(doc.text)
  }

  lemma RowsHoldText(chunks: map<Vectors.ChunkId, ChunkRow>, id: DocId, e: Entry, base: nat)
    requires StoredAt(chunks, id, e, base) && TextsFit(e) && e.doc.id == id
    ensures HoldsText(chunks, e.doc, base)
  {
    hide Chunks, HeaderOf, Encode, Rebuild;
    ChunksRebuildText(e.doc.text, MAX_CHARS, OVERLAP_CHARS);
    var cs, rows := Chunks(e.doc.text, MAX_CHARS, OVERLAP_CHARS), NewRows(base, id, e.texts, e.embeddings);
    forall c: nat
      ensures IsNew(base, |cs|, c) <==> c in ChunkIdsOf(chunks, id)
      ensures IsNew(base, |cs|, c) ==>
        c in chunks && chunks[c].text == HeaderOf(e.doc.path, e.doc.extension) + cs[c - base - 1].text
    {
      assert c in RowsOf(chunks, id) <==> c in rows;
      if c in rows {
        assert RowsOf(chunks, id)[c] == rows[c];
      }
    }
  }

  /** After every fault-free run the chunk rows of each stored file hold the text of that file's
      one document in the lexical index: nothing of it is lost, doubled or out of order. */
  lemma ChunkRowsHoldIndexedText(events: seq<Event>, path: Path)
    requires forall e :: e in events ==> Embeds(e)
    requires path in StoresAfter(EMPTY_STORES, events).tables.files
    ensures var s := StoresAfter(EMPTY_STORES, events);
      exists doc: Doc, base: nat ::
        && doc.path == path && doc.id == s.tables.files[path].id
        && Matching(Visible(s.lexical), doc.id) == [doc]
        && HoldsText(s.tables.chunks, doc, base)
  {
    var s, lib := StoresAfter(EMPTY_STORES, events), LibraryAfter(EMPTY_LIBRARY, events);
    EmptyRepresents();
    RunsRepresent(EMPTY_STORES, EMPTY_LIBRARY, events);
    EntriesFit(EMPTY_LIBRARY, events);
    StandsUnderPath(s, lib, path);
    var e := lib.entries[s.tables.files[path].id];
    var base :| StoredAt(s.tables.chunks, e.doc.id, e, base);
    hide StoresAfter, LibraryAfter, HoldsText, TextsFit, StoredAt, Represents;
    RowsHoldText(s.tables.chunks, e.doc.id, e, base);
  }

  lemma StandsUnderPath(s: Stores, lib: Library, path: Path)
    requires Represents(s, lib) && path in s.tables.files
    ensures var id := s.tables.files[path].id;
      && id in lib.entries && lib.entries[id].doc.id == id && lib.entries[id].doc.path == path
      && Matching(Visible(s.lexical), id) == [lib.entries[id].doc]
      && Stands(s.tables.chunks, id, lib.entries[id])
  {
    hide Agrees, Matching, Visible, FileIds, StoredAt;
    assert s.tables.files[path].id in DocsOf(lib.entries);
  }
}
