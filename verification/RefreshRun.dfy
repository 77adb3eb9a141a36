/** The daemon's refresh: diff, batches, and the indexer draining them. */
module RefreshRun {
  import opened Common
  import opened Crawl
  import opened Stores
  import opened Events
  import opened EventLaws
  import opened Refresh
  import opened SnapshotLaws
  import opened Daemons
  import opened Libraries
  import opened LibraryRuns
  import Lexical

  function WorksFor(jobs: seq<Job>): seq<Work> {
    seq(|jobs|, i requires 0 <= i < |jobs| => Do(jobs[i]))
  }

  function BatchWorks(jobs: seq<Job>): seq<Work> {
    WorksFor(jobs) + [CommitBatch]
  }

  lemma {:induction false} WorksDoneJobs(d: IndexState, roots: nat, works: seq<Work>, jobs: seq<Job>)
    ensures WorksDone(d, roots, works + WorksFor(jobs)) == JobsProcessed(WorksDone(d, roots, works), roots, jobs)
  {
    hide Processed;
    if jobs == [] {
      assert works + WorksFor(jobs) == works;
    } else {
      var init, last := jobs[..|jobs| - 1], jobs[|jobs| - 1];
      WorksDoneJobs(d, roots, works, init);
      assert works + WorksFor(jobs) == (works + WorksFor(init)) + [Do(last)];
      WorksDoneNext(d, roots, works + WorksFor(init), Do(last));
    }
  }

  lemma WorksDoneNext(d: IndexState, roots: nat, works: seq<Work>, work: Work)
    ensures WorksDone(d, roots, works + [work]) == WorkDone(WorksDone(d, roots, works), roots, work)
  {
    hide WorkDone;
    assert (works + [work])[..|works|] == works;
  }

  lemma WorksDoneBatch(d: IndexState, roots: nat, works: seq<Work>, jobs: seq<Job>)
    ensures WorksDone(d, roots, works + BatchWorks(jobs)) == BatchProcessed(WorksDone(d, roots, works), roots, jobs)
  {
    hide Processed, WorksFor, WorksDone, JobsProcessed;
    WorksDoneJobs(d, roots, works, jobs);
    assert works + BatchWorks(jobs) == (works + WorksFor(jobs)) + [CommitBatch];
    WorksDoneNext(d, roots, works + WorksFor(jobs), CommitBatch);
  }

  // ---------------------------------------------------------------------------------
  // The library's side of it
  // ---------------------------------------------------------------------------------

  function EventsOfWork(d: IndexState, roots: nat, work: Work): seq<Event> {
    if work.CommitBatch? then [Commit] else EventsOf(d, roots, work.job)
  }

  function WorkEvents(d: IndexState, roots: nat, works: seq<Work>): seq<Event> {
    if works == [] then []
    else
      var init, last := works[..|works| - 1], works[|works| - 1];
      WorkEvents(d, roots, init) + EventsOfWork(WorksDone(d, roots, init), roots, last)
  }

  ghost predicate SoundWork(work: Work) {
    work.Do? ==> Sound(work.job)
  }

  lemma WorkIsRun(d: IndexState, roots: nat, work: Work)
    requires SoundWork(work)
    ensures WorkDone(d, roots, work).stores == StoresAfter(d.stores, EventsOfWork(d, roots, work))
    ensures forall e :: e in EventsOfWork(d, roots, work) ==> Embeds(e)
  {
    hide Sound, Processed, EventsOf, StoresNext, Embeds;
    match work
    case Do(job) =>
      ProcessedIsRun(d, roots, job);
      EventsEmbed(d, roots, job);
    case CommitBatch =>
      StoresAfterOne(d.stores, Commit);
      CommitIsNext(d.stores);
      CommitEmbeds();
  }

  lemma CommitEmbeds()
    ensures Embeds(Commit)
  {
  }

  lemma {:induction false} WorksAreRun(d: IndexState, roots: nat, works: seq<Work>)
    requires forall w :: w in works ==> SoundWork(w)
    ensures WorksDone(d, roots, works).stores == StoresAfter(d.stores, WorkEvents(d, roots, works))
    ensures forall e :: e in WorkEvents(d, roots, works) ==> Embeds(e)
  {
    hide SoundWork, WorkDone, EventsOfWork, StoresNext, Embeds;
    if works != [] {
      var init, last := works[..|works| - 1], works[|works| - 1];
      WorksAreRun(d, roots, init);
      assert last in works;
      WorkIsRun(WorksDone(d, roots, init), roots, last);
      StoresAfterConcat(d.stores, WorkEvents(d, roots, init), EventsOfWork(WorksDone(d, roots, init), roots, last));
    }
  }

  lemma CommitEvent(d: IndexState, roots: nat, init: seq<Work>, lib: Library)
    ensures WorkEvents(d, roots, init + [CommitBatch]) == WorkEvents(d, roots, init) + [Commit]
    ensures WorksDone(d, roots, init + [CommitBatch]).stores == StoresNext(WorksDone(d, roots, init).stores, Commit)
    ensures LibraryAfter(lib, WorkEvents(d, roots, init) + [Commit]) == LibraryAfter(lib, WorkEvents(d, roots, init))
  {
    var events := WorkEvents(d, roots, init);
    hide Processed, StoresNext, EventsOf;
    EventsAround(d, roots, init, CommitBatch);
    WorksDoneNext(d, roots, init, CommitBatch);
    CommitIsNext(WorksDone(d, roots, init).stores);
    assert (events + [Commit])[..|events|] == events;
    hide WorkEvents, WorksDone;
  }

  lemma LastCommitInStep(d: IndexState, roots: nat, init: seq<Work>, lib: Library)
    requires Represents(d.stores, lib) && forall w :: w in init ==> SoundWork(w)
    ensures var d' := WorksDone(d, roots, init + [CommitBatch]);
      var lib' := LibraryAfter(lib, WorkEvents(d, roots, init + [CommitBatch]));
      Represents(d'.stores, lib') && Lexical.Holds(d'.stores.lexical.committed, DocsOf(lib'.entries))
        && InStep(d'.stores)
  {
    hide *;
    var s, lib' := WorksDone(d, roots, init).stores, LibraryAfter(lib, WorkEvents(d, roots, init));
    WorksAreRun(d, roots, init);
    RunsRepresent(d.stores, lib, WorkEvents(d, roots, init));
    CommitEvent(d, roots, init, lib);
    CommitChangesNothing(lib');
    CommitRepresents(s, lib');
    CommittedInStep(StoresNext(s, Commit), lib');
  }

  lemma CommitChangesNothing(lib: Library)
    ensures LibraryNext(lib, Commit) == lib
  {
  }

  lemma EventsAround(d: IndexState, roots: nat, works: seq<Work>, work: Work)
    ensures WorkEvents(d, roots, works + [work]) ==
      WorkEvents(d, roots, works) + EventsOfWork(WorksDone(d, roots, works), roots, work)
  {
    hide EventsOfWork, WorksDone;
    assert (works + [work])[..|works|] == works;
  }

  /** The work writes or deletes the path. */
  predicate Touches(work: Work, path: Path) {
    work.Do? && (work.job.event.path == path
      || (work.job.event.candidate.Some? && work.job.event.candidate.value.canonical == path))
  }

  lemma UntouchedEvents(d: IndexState, roots: nat, work: Work, path: Path)
    requires !Touches(work, path)
    ensures forall e :: e in EventsOfWork(d, roots, work) ==> !Concerns(e, path)
  {
  }

  /** Works that do not touch a path add only events that do not concern it. */
  lemma {:induction false} LaterEvents(d: IndexState, roots: nat, works: seq<Work>, more: seq<Work>, path: Path)
    returns (later: seq<Event>)
    requires forall w :: w in more ==> !Touches(w, path)
    ensures WorkEvents(d, roots, works + more) == WorkEvents(d, roots, works) + later
    ensures forall e :: e in later ==> !Concerns(e, path)
    decreases |more|
  {
    hide EventsOfWork, Touches, Concerns, WorksDone;
    if more == [] {
      later := [];
      assert works + more == works;
    } else {
      var init, last := more[..|more| - 1], more[|more| - 1];
      var before := LaterEvents(d, roots, works, init, path);
      assert (works + more)[..|works + more| - 1] == works + init && (works + more)[|works + more| - 1] == last;
      assert last in more;
      UntouchedEvents(WorksDone(d, roots, works + init), roots, last, path);
      later := before + EventsOfWork(WorksDone(d, roots, works + init), roots, last);
    }
  }

  /** The write that a job makes, if it makes one. */
  function WriteOfJob(roots: nat, job: Job): Option<Write> {
    var e := job.event;
    if e.kind !in {Added, Modified} || e.candidate.None? || !Extractable(roots, e.candidate.value, job.input) then None
    else Some(WriteOf(e.candidate.value, job.input.extraction.value, job.input.embeddings))
  }

  lemma WriteEvent(d: IndexState, roots: nat, job: Job)
    requires WriteOfJob(roots, job).Some?
    ensures EventsOfWork(d, roots, Do(job)) == [Put(WriteOfJob(roots, job).value)]
  {
  }

  /** After works that end with a commit, the library that the stores hold has of a path that one of
      them writes, and none touches later, that write. */
  lemma LatestWrite(d: IndexState, roots: nat, before: seq<Work>, job: Job, later: seq<Work>, lib: Library)
    requires Represents(d.stores, lib) && WriteOfJob(roots, job).Some?
    requires forall w :: w in before + [Do(job)] + later ==> SoundWork(w)
    requires forall w :: w in later ==> !Touches(w, WriteOfJob(roots, job).value.candidate.canonical)
    ensures var works := before + [Do(job)] + later + [CommitBatch];
      var s, lib' := WorksDone(d, roots, works).stores, LibraryAfter(lib, WorkEvents(d, roots, works));
      && Represents(s, lib') && Lexical.Holds(s.lexical.committed, DocsOf(lib'.entries)) && InStep(s)
      && HoldsWrite(lib', WriteOfJob(roots, job).value)
  {
    hide *;
    var w := WriteOfJob(roots, job).value;
    var works, path := before + [Do(job)] + later, w.candidate.canonical;
    LastCommitInStep(d, roots, works, lib);
    WriteEvent(WorksDone(d, roots, before), roots, job);
    EventsAround(d, roots, before, Do(job));
    CommitTouchesNothing(path);
    var after := LaterEvents(d, roots, before + [Do(job)], later + [CommitBatch], path);
    assert works + [CommitBatch] == before + [Do(job)] + (later + [CommitBatch]);
    RepresentedInjective(d.stores, lib);
    LastWriteStays(lib, WorkEvents(d, roots, before), w, after);
  }

  /** After works that end with a commit, the committed document of a path that one of them writes,
      and none touches later, has the text of that write. */
  lemma LatestText(d: IndexState, roots: nat, before: seq<Work>, job: Job, later: seq<Work>, lib: Library)
    requires Represents(d.stores, lib) && WriteOfJob(roots, job).Some?
    requires forall w :: w in before + [Do(job)] + later ==> SoundWork(w)
    requires forall w :: w in later ==> !Touches(w, WriteOfJob(roots, job).value.candidate.canonical)
    ensures var w := WriteOfJob(roots, job).value;
      var s := WorksDone(d, roots, before + [Do(job)] + later + [CommitBatch]).stores;
      && w.candidate.canonical in s.tables.files
      && var id := s.tables.files[w.candidate.canonical].id;
      Lexical.Matching(s.lexical.committed, id) == [DocOf(w, id)] && ShowsJob(DocOf(w, id), id, job)
  {
    hide *;
    var works := before + [Do(job)] + later + [CommitBatch];
    LatestWrite(d, roots, before, job, later, lib);
    HeldWriteIsCommitted(WorksDone(d, roots, works).stores, LibraryAfter(lib, WorkEvents(d, roots, works)),
                         WriteOfJob(roots, job).value);
    WrittenDocument(roots, job, WorksDone(d, roots, works).stores.tables.files[
      WriteOfJob(roots, job).value.candidate.canonical].id);
  }

  /** The document shows the job's file and the text extracted from it. */
  predicate ShowsJob(doc: Lexical.Doc, id: DocId, job: Job) {
    && job.event.candidate.Some? && job.input.extraction.Some?
    && DocumentShows(doc, id, job.event.candidate.value, job.input.extraction.value)
  }

  lemma WrittenDocument(roots: nat, job: Job, id: DocId)
    requires WriteOfJob(roots, job).Some?
    ensures ShowsJob(DocOf(WriteOfJob(roots, job).value, id), id, job)
  {
  }

  /** In a refresh each file is touched once, so what it commits of every file it writes is the text
      extracted in this refresh. */
  lemma RefreshCommitsItsTexts(d: IndexState, previous: Snapshot, current: Snapshot, oracle: Oracle, roots: nat,
                               before: seq<Work>, job: Job, later: seq<Work>, lib: Library)
    requires Represents(d.stores, lib) && WriteOfJob(roots, job).Some? && WellBuilt(current)
    requires Queue(previous, current, oracle, roots, before + [Do(job)] + later)
    requires forall w :: w in before + [Do(job)] + later ==> SoundWork(w)
    ensures var s := WorksDone(d, roots, before + [Do(job)] + later + [CommitBatch]).stores;
      && job.event.path in s.tables.files
      && var id := s.tables.files[job.event.path].id;
      exists doc :: Lexical.Matching(s.lexical.committed, id) == [doc] && ShowsJob(doc, id, job)
  {
    hide *;
    var works := before + [Do(job)] + later;
    QueuedPath(previous, current, oracle, roots, works, Do(job));
    WritesItsPath(roots, job);
    forall w | w in later
      ensures !Touches(w, job.event.path)
    {
      TouchedOnce(previous, current, oracle, roots, before, job, later, w);
    }
    LatestText(d, roots, before, job, later, lib);
  }

  lemma QueuedPath(previous: Snapshot, current: Snapshot, oracle: Oracle, roots: nat, works: seq<Work>, work: Work)
    requires Queue(previous, current, oracle, roots, works) && WellBuilt(current) && work in works && work.Do?
    ensures var e := work.job.event; e.candidate.Some? ==> e.candidate.value.canonical == e.path
  {
    SnapshotStays(previous, current, work.job.event);
  }

  lemma WritesItsPath(roots: nat, job: Job)
    requires WriteOfJob(roots, job).Some?
    ensures job.event.candidate.Some?
    ensures WriteOfJob(roots, job).value.candidate == job.event.candidate.value
  {
  }

  lemma TouchedOnce(previous: Snapshot, current: Snapshot, oracle: Oracle, roots: nat, before: seq<Work>, job: Job,
                    later: seq<Work>, work: Work)
    requires Queue(previous, current, oracle, roots, before + [Do(job)] + later) && WellBuilt(current) && work in later
    ensures !Touches(work, job.event.path)
  {
    var works := before + [Do(job)] + later;
    var i :| 0 <= i < |later| && later[i] == work;
    assert works[|before|] == Do(job) && works[|before| + 1 + i] == work;
    assert work in works;
    if work.Do? {
      QueuedPath(previous, current, oracle, roots, works, work);
    }
    hide Answers;
  }

  lemma CommitTouchesNothing(path: Path)
    ensures !Touches(CommitBatch, path)
  {
  }

  // ---------------------------------------------------------------------------------
  // The queue
  // ---------------------------------------------------------------------------------

  /** `works` are the first `n` queued events with their answers, each once, and commits. */
  ghost predicate Drained(queue: seq<ChangeEvent>, answer: ChangeEvent -> Input, n: nat, works: seq<Work>) {
    && n <= |queue|
    && (forall w :: w in works && w.Do? ==> w.job.event in queue && w.job.input == answer(w.job.event))
    && (forall k :: 0 <= k < n ==> Do(Job(queue[k], answer(queue[k]))) in works)
    && (forall i, j :: 0 <= i < j < |works| && works[i].Do? && works[j].Do? ==>
          works[i].job.event.path != works[j].job.event.path)
    && (forall w, k :: w in works && w.Do? && n <= k < |queue| ==> w.job.event.path != queue[k].path)
  }

  lemma DrainOne(queue: seq<ChangeEvent>, answer: ChangeEvent -> Input, n: nat, works: seq<Work>)
    requires Drained(queue, answer, n, works) && n < |queue| && DistinctPaths(queue)
    ensures Drained(queue, answer, n + 1, works + [Do(Job(queue[n], answer(queue[n])))])
  {
    var w := Do(Job(queue[n], answer(queue[n])));
    assert w in works + [w];
    forall i | 0 <= i < |works| && works[i].Do?
      ensures works[i].job.event.path != queue[n].path
    {
      assert works[i] in works;
    }
  }

  lemma DrainCommit(queue: seq<ChangeEvent>, answer: ChangeEvent -> Input, n: nat, works: seq<Work>)
    requires Drained(queue, answer, n, works)
    ensures Drained(queue, answer, n, works + [CommitBatch])
  {
  }

  /** The events that are not `Unchanged`, in order. */
  method ChangedEvents(events: seq<ChangeEvent>) returns (changed: seq<ChangeEvent>)
    requires DistinctPaths(events)
    ensures forall e :: e in changed <==> e in events && e.kind != Unchanged
    ensures DistinctPaths(changed)
  {
    changed := [];
    for i := 0 to |events|
      invariant forall e :: e in changed <==> e in events[..i] && e.kind != Unchanged
      invariant DistinctPaths(changed)
    {
      assert events[..i + 1] == events[..i] + [events[i]];
      if events[i].kind != Unchanged {
        forall k | 0 <= k < |changed|
          ensures changed[k].path != events[i].path
        {
          assert changed[k] in events[..i];
        }
        changed := changed + [events[i]];
      }
    }
    assert events[..|events|] == events;
  }

  function EventPaths(events: seq<ChangeEvent>): set<Path> {
    set e | e in events :: e.path
  }

  lemma {:induction false} PathCount(events: seq<ChangeEvent>)
    requires DistinctPaths(events)
    ensures |EventPaths(events)| == |events|
  {
    if events != [] {
      var init, last := events[..|events| - 1], events[|events| - 1];
      assert events == init + [last];
      LastApart(init, last);
      assert EventPaths(events) == EventPaths(init) + {last.path};
      PathCount(init);
    }
  }

  lemma QueuePaths(previous: Snapshot, current: Snapshot, events: seq<ChangeEvent>, queue: seq<ChangeEvent>)
    requires IsDiff(previous, current, events)
    requires forall e :: e in queue <==> e in events && e.kind != Unchanged
    ensures EventPaths(queue) == ChangedPaths(previous, current)
  {
    forall e | e in queue
      ensures e.path in ChangedPaths(previous, current)
    {
      assert e in events;
    }
    hide EventFor;
    forall p | p in ChangedPaths(previous, current)
      ensures p in EventPaths(queue)
    {
      var e := EventFor(previous, current, p);
      assert e in EventsFor(previous, current, previous.Keys + current.Keys);
      assert e in events && e in queue;
      EventPath(previous, current, p);
    }
  }

  lemma QueueCount(previous: Snapshot, current: Snapshot, events: seq<ChangeEvent>, queue: seq<ChangeEvent>)
    requires IsDiff(previous, current, events) && DistinctPaths(queue)
    requires forall e :: e in queue <==> e in events && e.kind != Unchanged
    ensures |queue| == |ChangedPaths(previous, current)|
  {
    hide DistinctPaths, IsDiff, EventPaths, ChangedPaths;
    PathCount(queue);
    QueuePaths(previous, current, events, queue);
  }

  /** The queue drained to its end is a refresh's queue, complete. */
  lemma DrainedIsQueue(previous: Snapshot, current: Snapshot, events: seq<ChangeEvent>, queue: seq<ChangeEvent>,
                       answer: ChangeEvent -> Input, roots: nat, oracle: Oracle, works: seq<Work>)
    requires IsDiff(previous, current, events)
    requires forall e :: e in queue <==> e in events && e.kind != Unchanged
    requires Drained(queue, answer, |queue|, works)
    requires AnswersFit(current, answer, roots, oracle)
    ensures Queue(previous, current, oracle, roots, works) && Complete(previous, current, works)
  {
    forall w | w in works && w.Do?
      ensures Answers(previous, current, oracle, roots, w.job)
    {
      assert w.job.event in events;
    }
    forall p | p in previous.Keys + current.Keys && EventFor(previous, current, p).kind != Unchanged
      ensures p in PathsOf(works)
    {
      var e := EventFor(previous, current, p);
      assert e in EventsFor(previous, current, previous.Keys + current.Keys);
      var k :| 0 <= k < |queue| && queue[k] == e;
      assert Do(Job(queue[k], answer(queue[k]))) in works;
    }
  }

  /** The world answers without a failing statement and as the oracle says. */
  ghost predicate AnswersFit(current: Snapshot, answer: ChangeEvent -> Input, roots: nat, oracle: Oracle) {
    forall e: ChangeEvent ::
      && answer(e).faults.failing.None?
      && (e.path in current ==>
            (Extractable(roots, current[e.path].candidate, answer(e)) <==> oracle(e.path, current[e.path].fingerprint)))
  }

  /** The next batch of at most `batchSize` jobs from position `i` on. */
  method NextBatch(queue: seq<ChangeEvent>, answer: ChangeEvent -> Input, batchSize: nat, i: nat,
                   ghost before: seq<Work>)
    returns (jobs: seq<Job>, next: nat)
    requires i < |queue| && batchSize >= 1 && DistinctPaths(queue)
    requires Drained(queue, answer, i, before)
    requires forall e :: !AfterUpsert(answer(e).faults)
    ensures i < next <= |queue| && |jobs| <= batchSize
    ensures Drained(queue, answer, next, before + BatchWorks(jobs))
    ensures forall j :: j in jobs ==> !AfterUpsert(j.input.faults)
  {
    hide Drained, DistinctPaths;
    jobs, next := [], i;
    ghost var works := before;
    while next < |queue| && |jobs| < batchSize
      invariant i <= next <= |queue| && |jobs| == next - i <= batchSize
      invariant Drained(queue, answer, next, works) && works == before + WorksFor(jobs)
      invariant forall j :: j in jobs ==> !AfterUpsert(j.input.faults)
      decreases |queue| - next
    {
      var job := Job(queue[next], answer(queue[next]));
      DrainOne(queue, answer, next, works);
      assert WorksFor(jobs + [job]) == WorksFor(jobs) + [Do(job)];
      jobs, works, next := jobs + [job], works + [Do(job)], next + 1;
    }
    DrainCommit(queue, answer, next, works);
    assert works + [CommitBatch] == before + BatchWorks(jobs);
  }

  /** Every batch ends with a commit. */
  predicate EndsCommitted(works: seq<Work>) {
    works == [] || works[|works| - 1].CommitBatch?
  }

  /** Nothing goes wrong in any write that an event may make. */
  ghost predicate SoundAnswers(answer: ChangeEvent -> Input) {
    forall e :: Sound(Job(e, answer(e)))
  }

  lemma DrainedIsSound(queue: seq<ChangeEvent>, answer: ChangeEvent -> Input, n: nat, works: seq<Work>)
    requires Drained(queue, answer, n, works) && SoundAnswers(answer)
    ensures forall w :: w in works ==> SoundWork(w)
  {
    hide Sound;
    forall w | w in works && w.Do?
      ensures Sound(w.job)
    {
      assert w.job == Job(w.job.event, answer(w.job.event));
    }
  }

  /** A queue drained without faults is a run of the library; if there was something to drain, the
      stores are in step afterwards. */
  lemma DrainedRepresents(d: IndexState, roots: nat, queue: seq<ChangeEvent>, answer: ChangeEvent -> Input,
                          works: seq<Work>)
    requires Drained(queue, answer, |queue|, works) && EndsCommitted(works) && SoundAnswers(answer)
    ensures forall lib :: Represents(d.stores, lib) ==>
      var s := WorksDone(d, roots, works).stores;
      Represents(s, LibraryAfter(lib, WorkEvents(d, roots, works))) && (queue != [] || InStep(d.stores) ==> InStep(s))
  {
    hide SoundAnswers, SoundWork, InStep, Represents;
    DrainedIsSound(queue, answer, |queue|, works);
    SomethingDrained(queue, answer, works);
    hide Drained;
    if works == [] {
      assert WorksDone(d, roots, works) == d && WorkEvents(d, roots, works) == [];
      hide WorksDone;
    } else {
      hide WorksDone, WorkEvents, LibraryAfter;
      var init := works[..|works| - 1];
      assert works == init + [CommitBatch];
      forall lib | Represents(d.stores, lib)
        ensures var s := WorksDone(d, roots, works).stores;
          Represents(s, LibraryAfter(lib, WorkEvents(d, roots, works))) && InStep(s)
      {
        LastCommitInStep(d, roots, init, lib);
      }
    }
  }

  lemma SomethingDrained(queue: seq<ChangeEvent>, answer: ChangeEvent -> Input, works: seq<Work>)
    requires Drained(queue, answer, |queue|, works)
    ensures queue != [] ==> works != []
  {
    if queue != [] {
      assert Do(Job(queue[0], answer(queue[0]))) in works;
    }
  }

  /** The indexer drains the queue batch by batch. */
  method DrainQueue(daemon: Daemon, roots: nat, queue: seq<ChangeEvent>, batchSize: nat, answer: ChangeEvent -> Input)
    returns (ghost works: seq<Work>)
    requires batchSize >= 1 && DistinctPaths(queue)
    requires Core(daemon.State()) && daemon.meta.saved.None?
    requires forall e :: !AfterUpsert(answer(e).faults)
    modifies daemon, daemon.meta, daemon.lexical, daemon.vector
    ensures Core(daemon.State()) && daemon.meta.saved.None?
    ensures daemon.Index() == WorksDone(old(daemon.Index()), roots, works)
    ensures Drained(queue, answer, |queue|, works) && EndsCommitted(works)
  {
    hide Core, WorksDone, Drained, DistinctPaths, BatchProcessed, BatchWorks;
    ghost var d := daemon.Index();
    works := [];
    StartDrained(queue, answer);
    NoWorks(d, roots);
    var i := 0;
    while i < |queue|
      invariant Core(daemon.State()) && daemon.meta.saved.None?
      invariant i <= |queue| && Drained(queue, answer, i, works) && EndsCommitted(works)
      invariant daemon.Index() == WorksDone(d, roots, works)
      decreases |queue| - i
    {
      var jobs, next := NextBatch(queue, answer, batchSize, i, works);
      WorksDoneBatch(d, roots, works, jobs);
      BatchEnds(works, jobs);
      works, i := works + BatchWorks(jobs), next;
      daemon.IndexBatch(roots, jobs);
    }
  }

  /** One refresh: the snapshot becomes the crawl's, and the changes since the last one go to the
      indexer in batches, which are drained here. */
  method RefreshChanged(daemon: Daemon, roots: nat, current: Snapshot, batchSize: nat, answer: ChangeEvent -> Input)
    returns (eventCount: nat, ghost works: seq<Work>)
    requires batchSize >= 1
    requires Core(daemon.State()) && daemon.meta.saved.None?
    requires forall e :: !AfterUpsert(answer(e).faults)
    modifies daemon, daemon.meta, daemon.lexical, daemon.vector
    ensures Core(daemon.State()) && daemon.meta.saved.None?
    ensures daemon.Index() == WorksDone(old(daemon.Index()).(snapshot := Some(current)), roots, works)
    ensures SoundAnswers(answer) ==> forall lib :: Represents(old(daemon.State()), lib) ==>
      && Represents(daemon.State(),
           LibraryAfter(lib, WorkEvents(old(daemon.Index()).(snapshot := Some(current)), roots, works)))
      && (eventCount > 0 || InStep(old(daemon.State())) ==> InStep(daemon.State()))
    ensures eventCount ==
      |ChangedPaths(if old(daemon.snapshot).Some? then old(daemon.snapshot).value else map[], current)|
    ensures forall oracle: Oracle :: AnswersFit(current, answer, roots, oracle) ==>
      var previous := if old(daemon.snapshot).Some? then old(daemon.snapshot).value else map[];
      Queue(previous, current, oracle, roots, works) && Complete(previous, current, works)
  {
    hide Core, WorksDone, Drained, Queue, Complete, AnswersFit, SoundAnswers, Represents, InStep, EndsCommitted,
      LibraryAfter, WorkEvents;
    ghost var previous := if daemon.snapshot.Some? then daemon.snapshot.value else map[];
    var events := DiffSnapshots(daemon.snapshot, current);
    var queue := ChangedEvents(events);
    eventCount := |queue|;
    QueueCount(previous, current, events, queue);
    daemon.snapshot := Some(current);
    ghost var d := daemon.Index();
    works := DrainQueue(daemon, roots, queue, batchSize, answer);
    if SoundAnswers(answer) {
      DrainedRepresents(d, roots, queue, answer, works);
    }
    forall oracle: Oracle | AnswersFit(current, answer, roots, oracle)
      ensures Queue(previous, current, oracle, roots, works) && Complete(previous, current, works)
    {
      DrainedIsQueue(previous, current, events, queue, answer, roots, oracle, works);
    }
  }

  lemma StartDrained(queue: seq<ChangeEvent>, answer: ChangeEvent -> Input)
    ensures Drained(queue, answer, 0, [])
  {
  }

  lemma BatchEnds(works: seq<Work>, jobs: seq<Job>)
    ensures EndsCommitted(works + BatchWorks(jobs))
  {
    hide WorksFor;
  }

  lemma NoWorks(d: IndexState, roots: nat)
    ensures WorksDone(d, roots, []) == d
  {
  }
}
