/** The daemon's events as events of the library: what a fault-free batch leaves in the stores. */
module LibraryRuns {
  import opened Common
  import opened Vectors
  import opened Lexical
  import opened Meta
  import opened Crawl
  import opened Stores
  import opened Libraries
  import opened Events

  /** Nothing goes wrong in the write that a job may make, and no embedding used is empty. */
  ghost predicate Sound(job: Job) {
    job.event.candidate.Some? && job.input.extraction.Some? ==>
      var w := WriteOf(job.event.candidate.value, job.input.extraction.value, job.input.embeddings);
      && job.input.faults.failing.None? && job.input.faults.stored >= |Paired(w)|
      && AllNonEmpty(Paired(w))
  }

  /** What a job is to the library. */
  function EventsOf(d: IndexState, roots: nat, job: Job): seq<Event> {
    var e, input := job.event, job.input;
    if e.kind == Deleted then [Drop(e.path)]
    else if e.kind == Unchanged || e.candidate.None? then []
    else if Extractable(roots, e.candidate.value, input) then
      [Put(WriteOf(e.candidate.value, input.extraction.value, input.embeddings))]
    else if e.path in d.stores.tables.files then
      [Failed(Failure(Some(d.stores.tables.files[e.path].id), e.path, "indexing"))]
    else []
  }

  function JobEvents(d: IndexState, roots: nat, jobs: seq<Job>): seq<Event> {
    if jobs == [] then []
    else
      var init, last := jobs[..|jobs| - 1], jobs[|jobs| - 1];
      JobEvents(d, roots, init) + EventsOf(JobsProcessed(d, roots, init), roots, last)
  }

  function BatchEvents(d: IndexState, roots: nat, jobs: seq<Job>): seq<Event> {
    JobEvents(d, roots, jobs) + [Commit]
  }

  lemma AllStored(w: Write, stored: nat)
    requires stored >= |Paired(w)|
    ensures StoredEmbeddings(w, stored) == StoredEmbeddings(w, |Paired(w)|)
  {
    hide ChunkTexts, Paired;
  }

  lemma SoundOutcome(s: Stores, w: Write, faults: Faults)
    requires faults.failing.None? && faults.stored >= |Paired(w)|
    ensures Outcome(s, w, faults) == Outcome(s, w, NoFaults(w)) && !Fails(s.tables, w, faults)
  {
    AllStored(w, faults.stored);
    hide Paired, ChunkTexts, StoredEmbeddings, NewPoints, Tombstoned;
  }

  lemma StoresAfterOne(s: Stores, event: Event)
    ensures StoresAfter(s, []) == s && StoresAfter(s, [event]) == StoresNext(s, event)
  {
    hide StoresNext;
    assert [event][..0] == [];
  }

  /** One event of the daemon is a run of the stores. */
  lemma ProcessedIsRun(d: IndexState, roots: nat, job: Job)
    requires Sound(job)
    ensures Processed(d, roots, job.event, job.input).stores == StoresAfter(d.stores, EventsOf(d, roots, job))
  {
    hide StoresAfter, Outcome, Removed, Fails, AllNonEmpty;
    var e, input := job.event, job.input;
    if EventsOf(d, roots, job) == [] {
      StoresAfterOne(d.stores, Commit);
    } else {
      var event := EventsOf(d, roots, job)[0];
      assert EventsOf(d, roots, job) == [event];
      StoresAfterOne(d.stores, event);
      if event.Put? {
        SoundOutcome(d.stores, event.write, input.faults);
      }
    }
  }

  lemma {:induction false} StoresAfterConcat(s: Stores, a: seq<Event>, b: seq<Event>)
    ensures StoresAfter(s, a + b) == StoresAfter(StoresAfter(s, a), b)
  {
    hide StoresNext;
    if b == [] {
      assert a + b == a;
    } else {
      var init, last := b[..|b| - 1], b[|b| - 1];
      StoresAfterConcat(s, a, init);
      assert (a + b)[..|a + b| - 1] == a + init;
    }
  }

  lemma {:induction false} JobsAreRun(d: IndexState, roots: nat, jobs: seq<Job>)
    requires forall j :: j in jobs ==> Sound(j)
    ensures JobsProcessed(d, roots, jobs).stores == StoresAfter(d.stores, JobEvents(d, roots, jobs))
  {
    hide Sound, Processed, EventsOf, StoresNext;
    if jobs != [] {
      var init, last := jobs[..|jobs| - 1], jobs[|jobs| - 1];
      JobsAreRun(d, roots, init);
      assert last in jobs;
      ProcessedIsRun(JobsProcessed(d, roots, init), roots, last);
      StoresAfterConcat(d.stores, JobEvents(d, roots, init), EventsOf(JobsProcessed(d, roots, init), roots, last));
    }
  }

  lemma EventsEmbed(d: IndexState, roots: nat, job: Job)
    requires Sound(job)
    ensures forall e :: e in EventsOf(d, roots, job) ==> Embeds(e)
  {
    hide Paired, AllNonEmpty;
  }

  lemma {:induction false} JobEventsEmbed(d: IndexState, roots: nat, jobs: seq<Job>)
    requires forall j :: j in jobs ==> Sound(j)
    ensures forall e :: e in JobEvents(d, roots, jobs) ==> Embeds(e)
  {
    hide Sound, EventsOf, Embeds, JobsProcessed;
    if jobs != [] {
      var init, last := jobs[..|jobs| - 1], jobs[|jobs| - 1];
      JobEventsEmbed(d, roots, init);
      assert last in jobs;
      EventsEmbed(JobsProcessed(d, roots, init), roots, last);
    }
  }

  // ---------------------------------------------------------------------------------
  // Agreement after a commit
  // ---------------------------------------------------------------------------------

  ghost predicate OneDocument(committed: seq<Doc>, id: DocId, path: Path) {
    exists doc :: Matching(committed, id) == [doc] && doc.id == id && doc.path == path
  }

  /** What can be searched: one document for each stored file and no other, and as live vectors
      exactly the stored embeddings. */
  ghost predicate InStep(s: Stores) {
    && (forall p :: p in s.tables.files ==> OneDocument(s.lexical.committed, s.tables.files[p].id, p))
    && (forall id :: id !in FileIds(s.tables.files) ==> Matching(s.lexical.committed, id) == [])
    && Carries(s.vector, EmbeddingsOf(s.tables.chunks))
  }

  lemma CommittedInStep(s: Stores, lib: Library)
    requires Represents(s, lib) && Holds(s.lexical.committed, DocsOf(lib.entries))
    ensures InStep(s)
  {
    ReadStores(s, lib);
    hide FileIds, Matching, Carries, EmbeddingsOf, Visible, RowsStand, Agrees;
    forall p | p in s.tables.files
      ensures OneDocument(s.lexical.committed, s.tables.files[p].id, p)
    {
      assert lib.ids[p] in DocsOf(lib.entries);
      assert Matching(s.lexical.committed, s.tables.files[p].id) == [lib.entries[lib.ids[p]].doc];
    }
  }

  lemma CommitIsNext(s: Stores)
    ensures StoresNext(s, Commit) == s.(lexical := Committed(s.lexical))
  {
  }

  /** A fault-free batch is a run of the library, and leaves the stores in step. */
  lemma BatchRepresents(d: IndexState, roots: nat, jobs: seq<Job>, lib: Library)
    requires Represents(d.stores, lib) && forall j :: j in jobs ==> Sound(j)
    ensures var s := BatchProcessed(d, roots, jobs).stores;
      Represents(s, LibraryAfter(lib, BatchEvents(d, roots, jobs))) && InStep(s)
  {
    var events := JobEvents(d, roots, jobs);
    var s, lib' := StoresAfter(d.stores, events), LibraryAfter(lib, events);
    JobsAreRun(d, roots, jobs);
    JobEventsEmbed(d, roots, jobs);
    RunsRepresent(d.stores, lib, events);
    CommitRepresents(s, lib');
    CommitIsNext(s);
    assert (events + [Commit])[..|events|] == events;
    assert LibraryNext(lib', Commit) == lib';
    CommittedInStep(StoresNext(s, Commit), lib');
    hide Represents, InStep, StoresAfter, JobsProcessed, StoresNext, Committed, LibraryNext;
  }

  // ---------------------------------------------------------------------------------
  // The latest text
  // ---------------------------------------------------------------------------------

  ghost predicate Injective(lib: Library) {
    && (forall p :: p in lib.ids ==> lib.ids[p] < lib.next)
    && forall p, q :: p in lib.ids && q in lib.ids && lib.ids[p] == lib.ids[q] ==> p == q
  }

  lemma RepresentedInjective(s: Stores, lib: Library)
    requires Represents(s, lib)
    ensures Injective(lib)
  {
    assert forall p :: p in lib.ids ==> p in IdsByPath(s.tables.files);
    hide Carries, RowsStand, Holds, FileIds;
  }

  lemma NextInjective(lib: Library, event: Event)
    requires Injective(lib)
    ensures Injective(LibraryNext(lib, event))
  {
    hide EntryOfWrite;
  }

  ghost predicate Concerns(event: Event, path: Path) {
    (event.Put? && event.write.candidate.canonical == path) || (event.Drop? && event.path == path)
  }

  /** The library holds what the write put there. */
  ghost predicate HoldsWrite(lib: Library, w: Write) {
    var path := w.candidate.canonical;
    && path in lib.ids && lib.ids[path] in lib.entries
    && lib.entries[lib.ids[path]] == EntryOfWrite(w, lib.ids[path])
  }

  lemma OthersKeepWrite(lib: Library, event: Event, w: Write)
    requires Injective(lib) && HoldsWrite(lib, w) && !Concerns(event, w.candidate.canonical)
    ensures HoldsWrite(LibraryNext(lib, event), w)
  {
    hide EntryOfWrite;
  }

  lemma PutHoldsWrite(lib: Library, w: Write)
    ensures HoldsWrite(LibraryNext(lib, Put(w)), w)
  {
    hide EntryOfWrite;
  }

  /** The last write of a path is what the library holds of it. */
  lemma {:induction false} LastWriteStays(lib: Library, before: seq<Event>, w: Write, after: seq<Event>)
    requires Injective(lib) && forall e :: e in after ==> !Concerns(e, w.candidate.canonical)
    ensures Injective(LibraryAfter(lib, before + [Put(w)] + after))
    ensures HoldsWrite(LibraryAfter(lib, before + [Put(w)] + after), w)
    decreases |after|
  {
    hide Injective, HoldsWrite, Concerns, LibraryNext;
    var events := before + [Put(w)] + after;
    if after == [] {
      assert events[..|events| - 1] == before && events[|events| - 1] == Put(w);
      RunsInjective(lib, before);
      NextInjective(LibraryAfter(lib, before), Put(w));
      PutHoldsWrite(LibraryAfter(lib, before), w);
    } else {
      var init, last := after[..|after| - 1], after[|after| - 1];
      LastWriteStays(lib, before, w, init);
      assert events[..|events| - 1] == before + [Put(w)] + init && events[|events| - 1] == last;
      assert last in after;
      NextInjective(LibraryAfter(lib, before + [Put(w)] + init), last);
      OthersKeepWrite(LibraryAfter(lib, before + [Put(w)] + init), last, w);
    }
  }

  lemma {:induction false} RunsInjective(lib: Library, events: seq<Event>)
    requires Injective(lib)
    ensures Injective(LibraryAfter(lib, events))
  {
    hide Injective, LibraryNext;
    if events != [] {
      RunsInjective(lib, events[..|events| - 1]);
      NextInjective(LibraryAfter(lib, events[..|events| - 1]), events[|events| - 1]);
    }
  }

  /** The committed document of a path whose write the library holds is the one of that write. */
  lemma HeldWriteIsCommitted(s: Stores, lib: Library, w: Write)
    requires Represents(s, lib) && Holds(s.lexical.committed, DocsOf(lib.entries)) && HoldsWrite(lib, w)
    ensures var path := w.candidate.canonical;
      && path in s.tables.files
      && Matching(s.lexical.committed, s.tables.files[path].id) == [DocOf(w, s.tables.files[path].id)]
  {
    ReadStores(s, lib);
    hide Matching, FileIds, Visible, RowsStand, Agrees, Carries, EmbeddingsOf;
    var id := lib.ids[w.candidate.canonical];
    assert id in DocsOf(lib.entries) && DocsOf(lib.entries)[id] == DocOf(w, id);
  }
}
