/** Runs in which writes may fail: what they leave in disorder, what repairs it, and which documents
    stay without a file. */
module FailedRuns {
  import opened Common
  import opened Lexical
  import opened Meta
  import opened Stores
  import opened Libraries
  import opened FailedWrites

  // ---------------------------------------------------------------------------------
  // Steps
  // ---------------------------------------------------------------------------------

  /** A fault-free event, or a write that fails. */
  datatype Step = Fine(event: Event) | Broken(write: Write, faults: Faults)

  function StoresTry(s: Stores, step: Step): Stores {
    match step
    case Fine(event) => StoresNext(s, event)
    case Broken(w, faults) => Outcome(s, w, faults)
  }

  /** To the library a failing write uses up at most an id. */
  function LibraryTry(lib: Library, step: Step): Library {
    match step
    case Fine(event) => LibraryNext(lib, event)
    case Broken(w, faults) => Skipped(lib, w, faults)
  }

  /** The stored files that may be in disorder: a good write or a delete repairs its file, a failing
      write past the removal of the old document puts its file in disorder. */
  function OutTry(lib: Library, out: set<DocId>, step: Step): set<DocId> {
    match step
    case Fine(Put(w)) => if w.candidate.canonical in lib.ids then out - {lib.ids[w.candidate.canonical]} else out
    case Fine(Drop(path)) => if path in lib.ids then out - {lib.ids[path]} else out
    case Fine(_) => out
    case Broken(w, faults) => out + Disordered(lib, w, faults)
  }

  /** The ids with a document and no file: nothing takes one out again. */
  function OrphansTry(lib: Library, orphans: set<DocId>, step: Step): set<DocId> {
    if step.Broken? then orphans + Orphaned(lib, step.write, step.faults) else orphans
  }

  ghost predicate Proper(s: Stores, step: Step) {
    match step
    case Fine(event) => Embeds(event)
    case Broken(w, faults) => Fails(s.tables, w, faults) && !AfterUpsert(faults)
  }

  function StoresTried(s: Stores, steps: seq<Step>): Stores {
    if steps == [] then s else StoresTry(StoresTried(s, steps[..|steps| - 1]), steps[|steps| - 1])
  }

  function LibraryTried(lib: Library, steps: seq<Step>): Library {
    if steps == [] then lib else LibraryTry(LibraryTried(lib, steps[..|steps| - 1]), steps[|steps| - 1])
  }

  function OutTried(lib: Library, out: set<DocId>, steps: seq<Step>): set<DocId> {
    if steps == [] then out
    else
      var init := steps[..|steps| - 1];
      OutTry(LibraryTried(lib, init), OutTried(lib, out, init), steps[|steps| - 1])
  }

  function OrphansTried(lib: Library, orphans: set<DocId>, steps: seq<Step>): set<DocId> {
    if steps == [] then orphans
    else
      var init := steps[..|steps| - 1];
      OrphansTry(LibraryTried(lib, init), OrphansTried(lib, orphans, init), steps[|steps| - 1])
  }

  ghost predicate AllProper(s: Stores, steps: seq<Step>) {
    steps == [] ||
    (AllProper(s, steps[..|steps| - 1]) && Proper(StoresTried(s, steps[..|steps| - 1]), steps[|steps| - 1]))
  }

  // ---------------------------------------------------------------------------------
  // Documents that no file owns
  // ---------------------------------------------------------------------------------

  /** The write of a new file that fails after it has added the document leaves that document under
      an id that no file has and that is used up. */
  lemma FailedAdditionOrphans(s: Stores, w: Write, faults: Faults)
    requires Core(s) && !Known(s.tables, w) && Fails(s.tables, w, faults) && Passes(s.tables, w, faults, AddDocument)
    ensures var s', id := Outcome(s, w, faults), s.nextDoc;
      && Matching(Visible(s'.lexical), id) == Matching(Visible(s.lexical), id) + [DocOf(w, id)]
      && id !in FileIds(s'.tables.files) && id < s'.nextDoc
  {
    MatchingOutcome(s, w, faults, s.nextDoc);
    FailedFields(s, w, faults);
    NewDocIsFresh(s);
    hide Matching, Visible, Core, FileIds;
  }

  /** Every id that a file has, has been given out. */
  ghost predicate IdsUsed(s: Stores) {
    forall p :: p in s.tables.files ==> s.tables.files[p].id < s.nextDoc
  }

  ghost predicate Unowned(s: Stores, id: DocId) {
    id < s.nextDoc && id !in FileIds(s.tables.files)
  }

  lemma UnownedAfterWrite(s: Stores, w: Write, faults: Faults, id: DocId)
    requires IdsUsed(s) && Unowned(s, id)
    ensures IdsUsed(Outcome(s, w, faults)) && Unowned(Outcome(s, w, faults), id) && id != DocIdOf(s, w)
  {
    hide VectorAfter, LexicalOps, ChunkTexts, StoredEmbeddings;
    KnownId(s, w);
  }

  lemma UnownedAfterDrop(s: Stores, gone: DocId, id: DocId)
    requires IdsUsed(s) && Unowned(s, id)
    ensures IdsUsed(Removed(s, gone)) && Unowned(Removed(s, gone), id)
  {
    RemovedFields(s, gone);
    hide Removed;
  }

  lemma OrphanNext(s: Stores, step: Step, id: DocId)
    requires IdsUsed(s) && Unowned(s, id)
    ensures var s' := StoresTry(s, step);
      && IdsUsed(s') && Unowned(s', id)
      && Matching(Visible(s'.lexical), id) == Matching(Visible(s.lexical), id)
  {
    hide Matching, Visible, Outcome, Removed, FileIds, Queued;
    match step
    case Fine(Put(w)) => OrphanAfterWrite(s, w, NoFaults(w), id);
    case Broken(w, faults) => OrphanAfterWrite(s, w, faults, id);
    case Fine(Drop(path)) =>
      if path in s.tables.files {
        var gone := s.tables.files[path].id;
        PathOwns(s, path);
        UnownedAfterDrop(s, gone, id);
        RemovedFields(s, gone);
        MatchingAfter(s.lexical, Remove(gone), id);
      }
    case Fine(Failed(f)) =>
    case Fine(Commit) => CommitShowsAll(s.lexical);
  }

  lemma OrphanAfterWrite(s: Stores, w: Write, faults: Faults, id: DocId)
    requires IdsUsed(s) && Unowned(s, id)
    ensures var s' := Outcome(s, w, faults);
      && IdsUsed(s') && Unowned(s', id)
      && Matching(Visible(s'.lexical), id) == Matching(Visible(s.lexical), id)
  {
    hide Matching, Visible, Outcome, Unowned, IdsUsed;
    UnownedAfterWrite(s, w, faults, id);
    MatchingOutcome(s, w, faults, id);
    assert Matching(Visible(s.lexical), id) + [] == Matching(Visible(s.lexical), id);
  }

  lemma PathOwns(s: Stores, path: Path)
    requires path in s.tables.files
    ensures s.tables.files[path].id in FileIds(s.tables.files)
  {
  }

  lemma CommitShowsAll(l: LexicalState)
    ensures Visible(Committed(l)) == Visible(l)
  {
  }

  /** The documents of an id that is used up and no file's stay as they are through every later run,
      whichever of its writes fail at whatever statement. */
  lemma {:induction false} OrphanStays(s: Stores, steps: seq<Step>, id: DocId)
    requires IdsUsed(s) && Unowned(s, id)
    ensures var s' := StoresTried(s, steps);
      && IdsUsed(s') && Unowned(s', id)
      && Matching(Visible(s'.lexical), id) == Matching(Visible(s.lexical), id)
  {
    hide Matching, Visible, IdsUsed, Unowned, StoresTry;
    if steps != [] {
      OrphanStays(s, steps[..|steps| - 1], id);
      OrphanNext(StoresTried(s, steps[..|steps| - 1]), steps[|steps| - 1], id);
    }
  }

  // ---------------------------------------------------------------------------------
  // Runs with failing writes
  // ---------------------------------------------------------------------------------

  lemma QuietExcept(s: Stores, lib: Library, event: Event, out: set<DocId>)
    requires Except(s, lib, out) && (event.Failed? || event.Commit?)
    ensures Except(StoresNext(s, event), LibraryNext(lib, event), out)
  {
    hide RowsStand, FilesStand, CarriesBut, EmbeddingsOf, RowsOfAll, DocsOf, FileIds, HoldsBut;
  }

  lemma ExceptFiles(s: Stores, lib: Library, out: set<DocId>)
    requires Except(s, lib, out)
    ensures FilesStand(s.tables.files, lib.ids, lib.entries) && s.nextDoc == lib.next
  {
  }

  /** The stores hold the library but for stored files that may be in disorder and documents that no
      file owns. */
  ghost predicate Standing(s: Stores, lib: Library, out: set<DocId>, orphans: set<DocId>) {
    && Except(s, lib, out + orphans)
    && out <= FileIds(s.tables.files)
    && Lonely(s, orphans)
  }

  /** Each of the ids has a document and no file. */
  ghost predicate Lonely(s: Stores, orphans: set<DocId>) {
    forall id :: id in orphans ==> Unowned(s, id) && Matching(Visible(s.lexical), id) != []
  }

  /** Repairing a stored file does not concern the documents without one. */
  lemma RemoveOwned(out: set<DocId>, orphans: set<DocId>, owned: set<DocId>, id: DocId)
    requires orphans !! owned && out <= owned && id !in orphans
    ensures (out + orphans) - {id} == (out - {id}) + orphans
    ensures id !in owned ==> out - {id} == out
  {
  }

  lemma StandingLaws(s: Stores, lib: Library, out: set<DocId>, orphans: set<DocId>)
    requires Standing(s, lib, out, orphans)
    ensures IdsUsed(s) && s.nextDoc == lib.next && FilesStand(s.tables.files, lib.ids, lib.entries)
    ensures orphans !! FileIds(s.tables.files) && s.nextDoc !in orphans && s.nextDoc !in FileIds(s.tables.files)
    ensures Except(s, lib, out + orphans) && out <= FileIds(s.tables.files) && Lonely(s, orphans)
  {
    hide Visible, Matching, FilesStand;
    NewDocIsFresh(s);
    hide FileIds;
  }

  /** The documents without a file of before are there after a step. */
  lemma OrphansStay(s: Stores, step: Step, orphans: set<DocId>)
    requires IdsUsed(s) && Lonely(s, orphans)
    ensures Lonely(StoresTry(s, step), orphans)
  {
    hide Visible, Matching, Unowned, IdsUsed, StoresTry;
    forall id | id in orphans
      ensures Unowned(StoresTry(s, step), id) && Matching(Visible(StoresTry(s, step).lexical), id) != []
    {
      OrphanNext(s, step, id);
    }
  }

  lemma PutStanding(s: Stores, lib: Library, out: set<DocId>, orphans: set<DocId>, w: Write)
    requires Standing(s, lib, out, orphans) && AllNonEmpty(Paired(w))
    ensures Standing(StoresNext(s, Put(w)), LibraryNext(lib, Put(w)), OutTry(lib, out, Fine(Put(w))), orphans)
  {
    hide Except, FileIds, FilesStand, Lonely, IdsUsed, StoresNext, LibraryNext, Paired, AllNonEmpty, RowOf;
    var id := DocIdOf(s, w);
    StandingLaws(s, lib, out, orphans);
    OrphansStay(s, Fine(Put(w)), orphans);
    KnownInLibrary(s, lib, w);
    WrittenIds(s, w);
    KnownId(s, w);
    PutExcept(s, lib, w, out + orphans);
    RemoveOwned(out, orphans, FileIds(s.tables.files), id);
  }

  lemma WrittenIds(s: Stores, w: Write)
    requires IdsUsed(s)
    ensures FileIds(StoresNext(s, Put(w)).tables.files) == FileIds(s.tables.files) + {DocIdOf(s, w)}
  {
    FaultFreeFields(s, w);
    UpsertedIds(s.tables.files, w.candidate.canonical, RowOf(w, DocIdOf(s, w)));
    hide StoresNext, FileIds;
  }

  lemma DropStanding(s: Stores, lib: Library, out: set<DocId>, orphans: set<DocId>, path: Path)
    requires Standing(s, lib, out, orphans)
    ensures Standing(StoresNext(s, Drop(path)), LibraryNext(lib, Drop(path)), OutTry(lib, out, Fine(Drop(path))),
      orphans)
  {
    hide Except, FileIds, FilesStand, Lonely, IdsUsed, LibraryNext, Removed, FilesWithout;
    StandingLaws(s, lib, out, orphans);
    OrphansStay(s, Fine(Drop(path)), orphans);
    PathInLibrary(s, lib, path);
    if path in s.tables.files {
      var id := s.tables.files[path].id;
      PathOwns(s, path);
      DropExcept(s, lib, path, out + orphans);
      RemovedFields(s, id);
      RemainingIds(s.tables.files, id);
      RemoveOwned(out, orphans, FileIds(s.tables.files), id);
    } else {
      NothingDropped(lib, path);
    }
  }

  lemma PathInLibrary(s: Stores, lib: Library, path: Path)
    requires FilesStand(s.tables.files, lib.ids, lib.entries)
    ensures path in s.tables.files <==> path in lib.ids
    ensures path in s.tables.files ==> lib.ids[path] == s.tables.files[path].id
  {
    assert path in s.tables.files <==> path in IdsByPath(s.tables.files);
    hide FileIds;
  }

  lemma NothingDropped(lib: Library, path: Path)
    requires path !in lib.ids
    ensures LibraryNext(lib, Drop(path)) == lib
  {
  }

  lemma QuietStanding(s: Stores, lib: Library, out: set<DocId>, orphans: set<DocId>, event: Event)
    requires Standing(s, lib, out, orphans) && (event.Failed? || event.Commit?)
    ensures Standing(StoresNext(s, event), LibraryNext(lib, event), out, orphans)
  {
    hide Except, FileIds, FilesStand, Lonely, IdsUsed;
    StandingLaws(s, lib, out, orphans);
    OrphansStay(s, Fine(event), orphans);
    QuietExcept(s, lib, event, out + orphans);
  }

  lemma BrokenStanding(s: Stores, lib: Library, out: set<DocId>, orphans: set<DocId>, w: Write, faults: Faults)
    requires Standing(s, lib, out, orphans) && Fails(s.tables, w, faults) && !AfterUpsert(faults)
    ensures Standing(Outcome(s, w, faults), Skipped(lib, w, faults), out + Disordered(lib, w, faults),
                     orphans + Orphaned(lib, w, faults))
  {
    hide Except, FileIds, FilesStand, Lonely, IdsUsed, Outcome, Fails, PastDelete, PastAdd, Skipped, RowOf;
    var d, o := Disordered(lib, w, faults), Orphaned(lib, w, faults);
    StandingLaws(s, lib, out, orphans);
    OrphansStay(s, Broken(w, faults), orphans);
    KnownInLibrary(s, lib, w);
    KnownId(s, w);
    FailedExcept(s, lib, w, faults, out + orphans);
    FailedFields(s, w, faults);
    NewOrphans(s, lib, w, faults, out + orphans);
    LonelyBoth(Outcome(s, w, faults), orphans, o);
    assert out + orphans + (d + o) == (out + d) + (orphans + o);
  }

  lemma LonelyBoth(s: Stores, a: set<DocId>, b: set<DocId>)
    requires Lonely(s, a) && Lonely(s, b)
    ensures Lonely(s, a + b)
  {
    hide Unowned, Visible, Matching;
  }

  lemma NewOrphans(s: Stores, lib: Library, w: Write, faults: Faults, out: set<DocId>)
    requires Except(s, lib, out) && Fails(s.tables, w, faults) && !AfterUpsert(faults)
    ensures Lonely(Outcome(s, w, faults), Orphaned(lib, w, faults))
  {
    hide Except, Fails, PastAdd, Outcome, Visible, Matching, Unowned;
    if Orphaned(lib, w, faults) != {} {
      NewOrphan(s, lib, w, faults, out);
    }
  }

  lemma NewOrphan(s: Stores, lib: Library, w: Write, faults: Faults, out: set<DocId>)
    requires Except(s, lib, out) && Fails(s.tables, w, faults) && !AfterUpsert(faults)
    requires w.candidate.canonical !in lib.ids && PastAdd(faults)
    ensures var s' := Outcome(s, w, faults); Unowned(s', lib.next) && Matching(Visible(s'.lexical), lib.next) != []
  {
    ExceptFiles(s, lib, out);
    KnownInLibrary(s, lib, w);
    HowFar(s, w, faults);
    hide FilesStand, Fails, Passes, PastAdd, Outcome, Visible, Matching, FileIds;
    FailedAdditionOrphans(s, w, faults);
  }

  lemma StepStanding(s: Stores, lib: Library, out: set<DocId>, orphans: set<DocId>, step: Step)
    requires Standing(s, lib, out, orphans) && Proper(s, step)
    ensures Standing(StoresTry(s, step), LibraryTry(lib, step), OutTry(lib, out, step), OrphansTry(lib, orphans, step))
  {
    hide Standing, Fails, AllNonEmpty, Paired, StoresNext, LibraryNext, Outcome, Skipped, Disordered, Orphaned;
    match step
    case Fine(Put(w)) => PutStanding(s, lib, out, orphans, w);
    case Fine(Drop(path)) => DropStanding(s, lib, out, orphans, path);
    case Fine(Failed(f)) => QuietStanding(s, lib, out, orphans, Failed(f));
    case Fine(Commit) => QuietStanding(s, lib, out, orphans, Commit);
    case Broken(w, faults) => BrokenStanding(s, lib, out, orphans, w, faults);
  }

  /** Over every run of good writes, deletes, commits and writes that fail before their vector upsert,
      the stores hold the library but for the stored files that a failed write last left without their
      old document, and but for the documents that failed writes of new files have added. */
  lemma {:induction false} RunsExcept(s: Stores, lib: Library, out: set<DocId>, orphans: set<DocId>, steps: seq<Step>)
    requires Standing(s, lib, out, orphans) && AllProper(s, steps)
    ensures Standing(StoresTried(s, steps), LibraryTried(lib, steps), OutTried(lib, out, steps),
                     OrphansTried(lib, orphans, steps))
  {
    hide Standing, Proper, StoresTry, LibraryTry, OutTry, OrphansTry;
    if steps != [] {
      var init, last := steps[..|steps| - 1], steps[|steps| - 1];
      RunsExcept(s, lib, out, orphans, init);
      StepStanding(StoresTried(s, init), LibraryTried(lib, init), OutTried(lib, out, init),
                   OrphansTried(lib, orphans, init), last);
    }
  }

  lemma RepresentsStands(s: Stores, lib: Library)
    requires Represents(s, lib)
    ensures Standing(s, lib, {}, {})
  {
    ExceptNothing(s, lib);
    hide Except, Represents, FileIds, Visible, Matching;
    var none: set<DocId> := {};
    assert none + none == none;
  }

  /** With no stored file in disorder, the stores hold the library if and only if no document is
      without a file. */
  lemma OrphansExactly(s: Stores, lib: Library, orphans: set<DocId>)
    requires Standing(s, lib, {}, orphans)
    ensures Represents(s, lib) <==> orphans == {}
  {
    StandingLaws(s, lib, {}, orphans);
    assert {} + orphans == orphans;
    if orphans == {} {
      ExceptNothing(s, lib);
    } else {
      var id :| id in orphans;
      OrphanIsNoEntry(s, lib, id);
    }
  }

  lemma OrphanIsNoEntry(s: Stores, lib: Library, id: DocId)
    requires FilesStand(s.tables.files, lib.ids, lib.entries)
    requires Unowned(s, id) && Matching(Visible(s.lexical), id) != []
    ensures !Represents(s, lib)
  {
    hide Agrees, RowsStand, Visible, Matching, FileIds;
    assert id !in DocsOf(lib.entries);
  }

  /** Once every stored file in disorder has been written again or deleted, only documents without a
      file are left of all failed writes, and the stores hold the library again if and only if there
      are none. */
  lemma RunsHeal(s: Stores, lib: Library, steps: seq<Step>)
    requires Represents(s, lib) && AllProper(s, steps)
    requires OutTried(lib, {}, steps) == {}
    ensures var s', lib', orphans := StoresTried(s, steps), LibraryTried(lib, steps), OrphansTried(lib, {}, steps);
      && Except(s', lib', orphans)
      && (Represents(s', lib') <==> orphans == {})
  {
    hide Represents, AllProper, StoresTried, LibraryTried, OutTried, OrphansTried, Except, FileIds, Visible, Matching;
    RepresentsStands(s, lib);
    RunsExcept(s, lib, {}, {}, steps);
    assert {} + OrphansTried(lib, {}, steps) == OrphansTried(lib, {}, steps);
    OrphansExactly(StoresTried(s, steps), LibraryTried(lib, steps), OrphansTried(lib, {}, steps));
  }

  /** The next good write of a stored file repairs whatever a failed one left of it. */
  lemma NextWriteHeals(s: Stores, lib: Library, w: Write, faults: Faults, again: Write)
    requires Represents(s, lib) && Fails(s.tables, w, faults) && !AfterUpsert(faults)
    requires w.candidate.canonical in lib.ids && again.candidate.canonical == w.candidate.canonical
    requires AllNonEmpty(Paired(again))
    ensures Represents(StoresNext(Outcome(s, w, faults), Put(again)), LibraryNext(lib, Put(again)))
  {
    hide Standing, Represents, Fails, AllNonEmpty, Paired, StoresNext, LibraryNext, Outcome, PastDelete, PastAdd;
    RepresentsStands(s, lib);
    BrokenStanding(s, lib, {}, {}, w, faults);
    PutStanding(Outcome(s, w, faults), lib, {} + Disordered(lib, w, faults), {} + Orphaned(lib, w, faults), again);
    assert {} + Orphaned(lib, w, faults) == {};
    assert OutTry(lib, {} + Disordered(lib, w, faults), Fine(Put(again))) == {};
    OrphansExactly(StoresNext(Outcome(s, w, faults), Put(again)), LibraryNext(lib, Put(again)), {});
  }

  /** A new file's failed write and its good one after it: the file is in order, and the document that
      the failed write added stays, exactly if it got that far. */
  lemma NewFileWrittenAgain(s: Stores, lib: Library, w: Write, faults: Faults)
    requires Represents(s, lib) && Fails(s.tables, w, faults) && !AfterUpsert(faults)
    requires w.candidate.canonical !in lib.ids && AllNonEmpty(Paired(w))
    ensures Represents(StoresNext(Outcome(s, w, faults), Put(w)), LibraryNext(Skipped(lib, w, faults), Put(w)))
      <==> !PastAdd(faults)
  {
    hide Standing, Represents, Fails, AllNonEmpty, Paired, StoresNext, LibraryNext, Outcome, PastDelete, PastAdd;
    RepresentsStands(s, lib);
    BrokenStanding(s, lib, {}, {}, w, faults);
    var lib' := Skipped(lib, w, faults);
    PutStanding(Outcome(s, w, faults), lib', {} + Disordered(lib, w, faults), {} + Orphaned(lib, w, faults), w);
    assert {} + Disordered(lib, w, faults) == {};
    assert OutTry(lib', {}, Fine(Put(w))) == {};
    OrphansExactly(StoresNext(Outcome(s, w, faults), Put(w)), LibraryNext(lib', Put(w)), {} + Orphaned(lib, w, faults));
  }
}
