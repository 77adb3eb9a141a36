/** What batches and refreshes leave of the files they index: in all three stores the file as the
    crawl saw it, with the text that was extracted from it. */
module IndexedFiles {
  import opened Common
  import opened Chunking
  import opened Vectors
  import opened Meta
  import opened Crawl
  import opened CrawlMerge
  import opened Stores
  import opened Libraries
  import opened Events
  import opened EventLaws
  import opened LibraryRuns
  import opened Refresh
  import opened RefreshRun
  import Lexical

  /** The file in the stores: one row, one searchable document, the chunk rows of its text with all
      embeddings there are for them, and these as live vectors. */
  ghost predicate FileIndexed(s: Stores, c: CrawlCandidate, x: Extraction, embeddings: Option<seq<Vector>>) {
    c.canonical in s.tables.files &&
    var id := s.tables.files[c.canonical].id;
    && RowShows(s.tables.files[c.canonical], id, c)
    && (exists doc :: DocumentShows(doc, id, c, x) && Lexical.Matching(s.lexical.committed, id) == [doc])
    && (exists base :: AllChunksShow(s.tables.chunks, base, id, c, x.text, embeddings))
    && Carries(s.vector, EmbeddingsOf(s.tables.chunks))
  }

  ghost predicate AllChunksShow(chunks: map<ChunkId, ChunkRow>, base: nat, id: DocId, c: CrawlCandidate, text: string,
                                embeddings: Option<seq<Vector>>) {
    ChunksShow(chunks, base, id, c, text, embeddings, |Chunks(text, 1000, 200)|)
  }

  /** The path is an alias of the file. */
  predicate AliasOf(t: Tables, file: Path, a: Path) {
    file in t.files && Lookup(t.aliases, a) == Some(t.files[file].id)
  }

  /** The work indexes a file of which the crawl saw the path as an alias. */
  predicate TakesAlias(roots: nat, work: Work, a: Path) {
    && work.Do? && Indexes(roots, work.job.event, work.job.input)
    && a in work.job.event.candidate.value.aliases
  }

  // ---------------------------------------------------------------------------------
  // The chunk rows and the document
  // ---------------------------------------------------------------------------------

  lemma StandingRowsShow(chunks: map<ChunkId, ChunkRow>, id: DocId, w: Write, base: nat)
    requires StoredAt(chunks, id, EntryOfWrite(w, id), base)
    ensures AllChunksShow(chunks, base, id, w.candidate, w.text, w.embeddings)
  {
    hide ChunkTexts, StoredEmbeddings, Chunks, ChunksShow, Paired;
    ChunkTextsCount(w);
    PairedCount(w);
    AllStored(w, |ChunkTexts(w)|);
    EmbeddingCount(w, |ChunkTexts(w)|);
    var rows := NewRows(base, id, ChunkTexts(w), StoredEmbeddings(w, |ChunkTexts(w)|));
    assert RowsOf(chunks, id) == rows;
    forall k: ChunkId
      ensures k in chunks && chunks[k].file == id <==> IsNew(base, |ChunkTexts(w)|, k)
      ensures IsNew(base, |ChunkTexts(w)|, k) ==> chunks[k] == rows[k]
    {
      assert k in RowsOf(chunks, id) <==> k in rows;
      if k in rows {
        assert RowsOf(chunks, id)[k] == rows[k];
      }
    }
    NewRowsShow(chunks, base, id, w, |ChunkTexts(w)|);
  }

  lemma HeldRowsShow(s: Stores, lib: Library, w: Write)
    requires Represents(s, lib) && HoldsWrite(lib, w)
    ensures w.candidate.canonical in s.tables.files
    ensures var id := s.tables.files[w.candidate.canonical].id;
      exists base :: AllChunksShow(s.tables.chunks, base, id, w.candidate, w.text, w.embeddings)
  {
    hide Agrees, AllChunksShow, EntryOfWrite, FileIds, StoredAt, Lexical.Holds;
    var path := w.candidate.canonical;
    assert path in IdsByPath(s.tables.files);
    var id := lib.ids[path];
    assert Stands(s.tables.chunks, id, lib.entries[id]);
    var base :| StoredAt(s.tables.chunks, id, lib.entries[id], base);
    StandingRowsShow(s.tables.chunks, id, w, base);
  }

  // ---------------------------------------------------------------------------------
  // The file row and the aliases
  // ---------------------------------------------------------------------------------

  lemma OtherFileId(s: Stores, path: Path, other: Path)
    requires Core(s) && path in s.tables.files && other != path
    ensures s.tables.files[path].id != IdFor(s, other)
  {
  }

  lemma SoundNeverFails(job: Job, roots: nat)
    requires Sound(job) && Indexes(roots, job.event, job.input)
    ensures job.input.faults.failing.None?
  {
    hide Paired, AllNonEmpty;
  }

  /** A work that does not touch a file leaves its row, and takes from its aliases those under which
      it indexes another file. */
  lemma WorkKeepsFile(d: IndexState, roots: nat, work: Work, path: Path, a: Path)
    requires Core(d.stores) && SoundWork(work) && !Touches(work, path) && path in d.stores.tables.files
    ensures var t, t' := d.stores.tables, WorkDone(d, roots, work).stores.tables;
      && Lookup(t'.files, path) == Lookup(t.files, path)
      && (AliasOf(t', path, a) <==> AliasOf(t, path, a) && !TakesAlias(roots, work, a))
  {
    hide Core, Processed, Sound, ChunksShow, RowShows, LiveIds, Lexical.Visible, Lexical.Matching;
    if work.Do? {
      var e, input := work.job.event, work.job.input;
      if Indexes(roots, e, input) {
        SoundNeverFails(work.job, roots);
        IndexedRows(d, roots, e, input);
        OtherFileId(d.stores, path, e.candidate.value.canonical);
      } else if e.kind != Deleted {
        NothingIndexed(d, roots, e, input);
      } else if e.path in d.stores.tables.files {
        FileForgotten(d, roots, e, input);
        OtherFileId(d.stores, path, e.path);
      } else {
        DeletionCounted(d, roots, e, input);
      }
    }
  }

  lemma WorksKeepCore(d: IndexState, roots: nat, works: seq<Work>, lib: Library)
    requires Represents(d.stores, lib) && forall w :: w in works ==> SoundWork(w)
    ensures Core(WorksDone(d, roots, works).stores)
  {
    hide WorksDone, WorkEvents, SoundWork, Core, Embeds, StoresAfter, Content;
    WorksAreRun(d, roots, works);
    RunsRepresent(d.stores, lib, WorkEvents(d, roots, works));
  }

  /** So do any number of them, one after the other. */
  lemma {:induction false} WorksKeepFile(d: IndexState, roots: nat, works: seq<Work>, more: seq<Work>, lib: Library,
                                         path: Path, a: Path)
    requires Represents(d.stores, lib) && forall w :: w in works + more ==> SoundWork(w)
    requires path in WorksDone(d, roots, works).stores.tables.files
    requires forall w :: w in more ==> !Touches(w, path)
    ensures var t, t' := WorksDone(d, roots, works).stores.tables, WorksDone(d, roots, works + more).stores.tables;
      && Lookup(t'.files, path) == Lookup(t.files, path)
      && (AliasOf(t', path, a) <==> AliasOf(t, path, a) && forall w :: w in more ==> !TakesAlias(roots, w, a))
    decreases |more|
  {
    hide *;
    if more == [] {
      assert works + more == works;
    } else {
      var init, last := more[..|more| - 1], more[|more| - 1];
      assert more == init + [last] && works + more == (works + init) + [last];
      WorksKeepFile(d, roots, works, init, lib, path, a);
      WorksKeepCore(d, roots, works + init, lib);
      StillThere(WorksDone(d, roots, works).stores.tables, WorksDone(d, roots, works + init).stores.tables, path);
      WorkKeepsFile(WorksDone(d, roots, works + init), roots, last, path, a);
      WorksDoneNext(d, roots, works + init, last);
    }
  }

  lemma StillThere(t: Tables, t': Tables, path: Path)
    requires path in t.files && Lookup(t'.files, path) == Lookup(t.files, path)
    ensures path in t'.files && t'.files[path] == t.files[path]
  {
  }

  // ---------------------------------------------------------------------------------
  // The file in all three stores
  // ---------------------------------------------------------------------------------

  lemma IndexesIsWrite(roots: nat, job: Job)
    requires Indexes(roots, job.event, job.input)
    ensures job.event.candidate.Some? && job.input.extraction.Some?
    ensures var c, x := job.event.candidate.value, job.input.extraction.value;
      WriteOfJob(roots, job) == Some(Write(c, x.text, x.mime, job.input.embeddings))
  {
  }

  /** The row and the aliases right after a file has been indexed. */
  lemma RowAfterIndexing(d: IndexState, roots: nat, before: seq<Work>, job: Job, lib: Library, a: Path)
    requires Represents(d.stores, lib) && Indexes(roots, job.event, job.input)
    requires forall w :: w in before + [Do(job)] ==> SoundWork(w)
    ensures var c, t := job.event.candidate.value, WorksDone(d, roots, before + [Do(job)]).stores.tables;
      && c.canonical in t.files && RowShows(t.files[c.canonical], t.files[c.canonical].id, c)
      && (a in c.aliases ==> AliasOf(t, c.canonical, a))
  {
    hide WorksDone, Represents, Core, Sound, Processed, ChunksShow;
    WorksKeepCore(d, roots, before, lib);
    WorksDoneNext(d, roots, before, Do(job));
    assert SoundWork(Do(job)) by {
      assert Do(job) in before + [Do(job)];
    }
    SoundNeverFails(job, roots);
    IndexedRows(WorksDone(d, roots, before), roots, job.event, job.input);
  }

  lemma RowStays(d: IndexState, roots: nat, before: seq<Work>, job: Job, later: seq<Work>, lib: Library, a: Path)
    requires Represents(d.stores, lib) && Indexes(roots, job.event, job.input)
    requires forall w :: w in before + [Do(job)] + later ==> SoundWork(w)
    requires forall w :: w in later ==> !Touches(w, job.event.candidate.value.canonical)
    ensures var c, t := job.event.candidate.value,
        WorksDone(d, roots, before + [Do(job)] + later + [CommitBatch]).stores.tables;
      && c.canonical in t.files && RowShows(t.files[c.canonical], t.files[c.canonical].id, c)
      && (a in c.aliases ==>
            (AliasOf(t, c.canonical, a) <==> forall w :: w in later ==> !TakesAlias(roots, w, a)))
  {
    hide *;
    IndexesIsWrite(roots, job);
    var path, first := job.event.candidate.value.canonical, before + [Do(job)];
    var works := first + later + [CommitBatch];
    assert works == first + (later + [CommitBatch]);
    CommitSound();
    CommitTouchesNothing(path);
    CommitTakesNothing(roots, a);
    RowAfterIndexing(d, roots, before, job, lib, a);
    WorksKeepFile(d, roots, first, later + [CommitBatch], lib, path, a);
    StillThere(WorksDone(d, roots, first).stores.tables, WorksDone(d, roots, works).stores.tables, path);
  }

  lemma IndexedInParts(s: Stores, c: CrawlCandidate, x: Extraction, embeddings: Option<seq<Vector>>, row: FileRow,
                       w: Write)
    requires w == Write(c, x.text, x.mime, embeddings)
    requires c.canonical in s.tables.files && s.tables.files[c.canonical] == row && RowShows(row, row.id, c)
    requires Lexical.Matching(s.lexical.committed, row.id) == [DocOf(w, row.id)]
    requires exists base :: AllChunksShow(s.tables.chunks, base, row.id, c, x.text, embeddings)
    requires InStep(s)
    ensures FileIndexed(s, c, x, embeddings)
  {
    hide AllChunksShow, Lexical.Matching, Carries, RowShows, OneDocument, FileIds, EmbeddingsOf;
    DocumentOfWrite(w, row.id);
  }

  /** After works that end with a commit, a file that one of them indexes, and none touches later,
      stands in all three stores as that one indexed it. A path under which the crawl saw it is
      its alias if and only if no later work has indexed another file under it. */
  lemma FileIsIndexed(d: IndexState, roots: nat, before: seq<Work>, job: Job, later: seq<Work>, lib: Library)
    requires Represents(d.stores, lib) && Indexes(roots, job.event, job.input)
    requires forall w :: w in before + [Do(job)] + later ==> SoundWork(w)
    requires forall w :: w in later ==> !Touches(w, job.event.candidate.value.canonical)
    ensures var c := job.event.candidate.value;
      var s := WorksDone(d, roots, before + [Do(job)] + later + [CommitBatch]).stores;
      && FileIndexed(s, c, job.input.extraction.value, job.input.embeddings)
      && forall a :: a in c.aliases ==>
           (AliasOf(s.tables, c.canonical, a) <==> forall w :: w in later ==> !TakesAlias(roots, w, a))
  {
    hide *;
    IndexesIsWrite(roots, job);
    var c, x := job.event.candidate.value, job.input.extraction.value;
    var first := before + [Do(job)];
    var works := first + later + [CommitBatch];
    var s, lib' := WorksDone(d, roots, works).stores, LibraryAfter(lib, WorkEvents(d, roots, works));
    var w := WriteOfJob(roots, job).value;
    LatestWrite(d, roots, before, job, later, lib);
    HeldWriteIsCommitted(s, lib', w);
    HeldRowsShow(s, lib', w);
    RowStays(d, roots, before, job, later, lib, c.canonical);
    forall a | a in c.aliases
      ensures AliasOf(s.tables, c.canonical, a) <==> forall w :: w in later ==> !TakesAlias(roots, w, a)
    {
      RowStays(d, roots, before, job, later, lib, a);
    }
    IndexedInParts(s, c, x, job.input.embeddings, s.tables.files[c.canonical], w);
  }

  lemma CommitSound()
    ensures SoundWork(CommitBatch)
  {
  }

  lemma CommitTakesNothing(roots: nat, a: Path)
    ensures !TakesAlias(roots, CommitBatch, a)
  {
  }

  // ---------------------------------------------------------------------------------
  // A refresh between two crawls
  // ---------------------------------------------------------------------------------

  /** A file that is new, or has changed in size or modification time, has its event queued. */
  lemma ChangedFileIsQueued(a: seq<CrawlCandidate>, b: seq<CrawlCandidate>, k: CrawlCandidate)
    requires DistinctFiles(a) && DistinctFiles(b) && k in b
    requires forall x :: x in a && x.canonical == k.canonical ==> x.size != k.size || x.modified != k.modified
    ensures var e := EventFor(FromOutput(a), FromOutput(b), k.canonical);
      e.path == k.canonical && e.kind in {Added, Modified} && e.candidate == Some(k)
    ensures k.canonical in FromOutput(b)
  {
    hide DistinctFiles, FromOutput, EventFor;
    FromOutputLaws(b);
    EventSays(a, b, k.canonical);
    EventPath(FromOutput(a), FromOutput(b), k.canonical);
    var e := EventFor(FromOutput(a), FromOutput(b), k.canonical);
    if e.candidate.Some? {
      OneCandidate(b, e.candidate.value, k);
    }
  }

  lemma WorkInPlace(works: seq<Work>, w: Work) returns (before: seq<Work>, later: seq<Work>)
    requires w in works && w.Do? && EndsCommitted(works)
    ensures works == before + [w] + later + [CommitBatch]
  {
    var i :| 0 <= i < |works| && works[i] == w;
    var n := |works| - 1;
    before, later := works[..i], works[i + 1..n];
  }

  /** The queued job of a path, and what comes before and after it. */
  lemma QueuedJob(previous: Snapshot, current: Snapshot, oracle: Oracle, roots: nat, works: seq<Work>, p: Path)
    returns (before: seq<Work>, job: Job, later: seq<Work>)
    requires Queue(previous, current, oracle, roots, works) && Complete(previous, current, works)
    requires EndsCommitted(works) && p in previous.Keys + current.Keys
    requires EventFor(previous, current, p).path == p && EventFor(previous, current, p).kind != Unchanged
    ensures works == before + [Do(job)] + later + [CommitBatch]
    ensures job.event == EventFor(previous, current, p)
    ensures Queue(previous, current, oracle, roots, before + [Do(job)] + later)
  {
    job := JobOf(previous, current, oracle, roots, works, p);
    hide *;
    before, later := WorkInPlace(works, Do(job));
    QueueInit(previous, current, oracle, roots, before + [Do(job)] + later, CommitBatch);
  }

  lemma JobOf(previous: Snapshot, current: Snapshot, oracle: Oracle, roots: nat, works: seq<Work>, p: Path)
    returns (job: Job)
    requires Queue(previous, current, oracle, roots, works) && Complete(previous, current, works)
    requires p in previous.Keys + current.Keys
    requires EventFor(previous, current, p).path == p && EventFor(previous, current, p).kind != Unchanged
    ensures Do(job) in works && job.event == EventFor(previous, current, p)
  {
    hide EventFor;
    assert p in PathsOf(works);
    var w :| w in works && w.Do? && w.job.event.path == p;
    job := w.job;
  }

  /** What a job of a refresh leaves of a crawl's candidate: if its root is configured and it has
      text, the file in all three stores, with every alias that no other candidate has. */
  ghost predicate LeavesIndexed(s: Stores, roots: nat, b: seq<CrawlCandidate>, k: CrawlCandidate, job: Job) {
    && job.event.path == k.canonical && job.event.candidate == Some(k)
    && (k.rootId < roots && job.input.extraction.Some? ==>
          && FileIndexed(s, k, job.input.extraction.value, job.input.embeddings)
          && forall alias :: alias in k.aliases && OnlyOf(b, k, alias) ==> AliasOf(s.tables, k.canonical, alias))
  }

  ghost predicate OnlyOf(b: seq<CrawlCandidate>, k: CrawlCandidate, alias: Path) {
    forall y :: y in b && y != k ==> alias !in y.aliases
  }

  /** A later job of a refresh between crawls takes no alias that the crawl saw of this file only. */
  lemma AliasStays(a: seq<CrawlCandidate>, b: seq<CrawlCandidate>, oracle: Oracle, roots: nat, works: seq<Work>,
                   w: Work, k: CrawlCandidate, alias: Path)
    requires DistinctFiles(a) && DistinctFiles(b) && k in b && w in works && !Touches(w, k.canonical)
    requires Queue(FromOutput(a), FromOutput(b), oracle, roots, works)
    requires OnlyOf(b, k, alias)
    ensures !TakesAlias(roots, w, alias)
  {
    hide DistinctFiles, FromOutput, EventFor;
    if w.Do? && Indexes(roots, w.job.event, w.job.input) {
      var p := w.job.event.path;
      FromOutputLaws(a);
      FromOutputLaws(b);
      EventSays(a, b, p);
    }
  }

  /** Between two crawls: whatever is new or has changed in size or modification time is queued, and
      the refresh leaves it indexed with the text extracted in this refresh. */
  lemma ChangedFilesAreIndexed(d: IndexState, a: seq<CrawlCandidate>, b: seq<CrawlCandidate>, oracle: Oracle,
                               roots: nat, works: seq<Work>, k: CrawlCandidate, lib: Library)
    requires Represents(d.stores, lib) && DistinctFiles(a) && DistinctFiles(b) && k in b
    requires forall x :: x in a && x.canonical == k.canonical ==> x.size != k.size || x.modified != k.modified
    requires Queue(FromOutput(a), FromOutput(b), oracle, roots, works)
    requires Complete(FromOutput(a), FromOutput(b), works) && EndsCommitted(works)
    requires forall w :: w in works ==> SoundWork(w)
    ensures exists job :: Do(job) in works && LeavesIndexed(WorksDone(d, roots, works).stores, roots, b, k, job)
  {
    hide *;
    ChangedFileIsQueued(a, b, k);
    FromOutputLaws(b);
    var before, job, later := QueuedJob(FromOutput(a), FromOutput(b), oracle, roots, works, k.canonical);
    var s := WorksDone(d, roots, works).stores;
    assert Do(job) in works;
    forall w | w in later
      ensures !Touches(w, k.canonical)
    {
      TouchedOnce(FromOutput(a), FromOutput(b), oracle, roots, before, job, later, w);
    }
    if k.rootId < roots && job.input.extraction.Some? {
      IndexesCandidate(roots, job, k);
      FileIsIndexed(d, roots, before, job, later, lib);
      forall alias | alias in k.aliases && OnlyOf(b, k, alias)
        ensures AliasOf(s.tables, k.canonical, alias)
      {
        forall w | w in later
          ensures !TakesAlias(roots, w, alias)
        {
          AliasStays(a, b, oracle, roots, works, w, k, alias);
        }
      }
    }
    IsLeftIndexed(s, roots, b, k, job);
  }

  lemma IndexesCandidate(roots: nat, job: Job, k: CrawlCandidate)
    requires job.event.kind in {Added, Modified} && job.event.candidate == Some(k) && k.rootId < roots
    requires job.input.extraction.Some?
    ensures Indexes(roots, job.event, job.input)
  {
  }

  lemma IsLeftIndexed(s: Stores, roots: nat, b: seq<CrawlCandidate>, k: CrawlCandidate, job: Job)
    requires job.event.path == k.canonical && job.event.candidate == Some(k)
    requires k.rootId < roots && job.input.extraction.Some? ==>
      && FileIndexed(s, k, job.input.extraction.value, job.input.embeddings)
      && forall alias :: alias in k.aliases && OnlyOf(b, k, alias) ==> AliasOf(s.tables, k.canonical, alias)
    ensures LeavesIndexed(s, roots, b, k, job)
  {
  }
}
