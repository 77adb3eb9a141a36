/** Drained refreshes: the diff of two snapshots, processed in any order and batching, from
    whatever the stores held before. */
module Refresh {
  import opened Common
  import opened Meta
  import opened Crawl
  import opened Stores
  import opened Events
  import opened SnapshotLaws

  /** Which version of a file, told by its fingerprint, has text that can be extracted. */
  type Oracle = (Path, Fingerprint) -> bool

  datatype Work = Do(job: Job) | CommitBatch

  function WorkDone(d: IndexState, roots: nat, work: Work): IndexState {
    match work
    case Do(job) => Processed(d, roots, job.event, job.input)
    case CommitBatch => WithCommit(d)
  }

  function WorksDone(d: IndexState, roots: nat, works: seq<Work>): IndexState {
    if works == [] then d else WorkDone(WorksDone(d, roots, works[..|works| - 1]), roots, works[|works| - 1])
  }

  function ExtractablePaths(s: Snapshot, oracle: Oracle): set<Path> {
    set p | p in s && oracle(p, s[p].fingerprint)
  }

  /** A change that the refresh queues, with answers that agree with the oracle. */
  ghost predicate Answers(previous: Snapshot, current: Snapshot, oracle: Oracle, roots: nat, job: Job) {
    var e := job.event;
    && e.path in previous.Keys + current.Keys
    && e == EventFor(previous, current, e.path) && e.kind != Unchanged
    && job.input.faults.failing.None?
    && (e.path in current ==>
          (Extractable(roots, current[e.path].candidate, job.input) <==> oracle(e.path, current[e.path].fingerprint)))
  }

  function PathsOf(works: seq<Work>): set<Path> {
    set w | w in works && w.Do? :: w.job.event.path
  }

  /** The queued jobs of a refresh, each once, with commits wherever a batch ends. */
  ghost predicate Queue(previous: Snapshot, current: Snapshot, oracle: Oracle, roots: nat, works: seq<Work>) {
    && (forall w :: w in works && w.Do? ==> Answers(previous, current, oracle, roots, w.job))
    && (forall i, j :: 0 <= i < j < |works| && works[i].Do? && works[j].Do? ==>
          works[i].job.event.path != works[j].job.event.path)
  }

  ghost predicate Complete(previous: Snapshot, current: Snapshot, works: seq<Work>) {
    forall p :: p in previous.Keys + current.Keys && EventFor(previous, current, p).kind != Unchanged ==>
      p in PathsOf(works)
  }

  // ---------------------------------------------------------------------------------
  // What a refresh is about
  // ---------------------------------------------------------------------------------

  function ChangedPaths(previous: Snapshot, current: Snapshot): set<Path> {
    set p | p in previous.Keys + current.Keys && EventFor(previous, current, p).kind != Unchanged
  }

  function Gone(previous: Snapshot, current: Snapshot): set<Path> {
    previous.Keys - current.Keys
  }

  /** The files that the refresh stores: added or modified, and extractable. */
  function Came(previous: Snapshot, current: Snapshot, oracle: Oracle): set<Path> {
    set p | p in current && EventFor(previous, current, p).kind != Unchanged && oracle(p, current[p].fingerprint)
  }

  /** Those of them that it counts: the added ones. */
  function Anew(previous: Snapshot, current: Snapshot, oracle: Oracle): set<Path> {
    set p | p in current && p !in previous && oracle(p, current[p].fingerprint)
  }

  function StoredAfter(keys: set<Path>, previous: Snapshot, current: Snapshot, oracle: Oracle): set<Path> {
    (keys - Gone(previous, current)) + Came(previous, current, oracle)
  }

  /** The counter `n`, started at `n0`, after `a` increments and `g` decrements in any order, of
      which some may have found it at zero. */
  predicate Counted(n: nat, n0: nat, a: nat, g: nat) {
    n0 + a <= n + g && n <= (if n0 >= g then n0 - g else 0) + a
  }

  /** Where an event's path belongs, by the event's kind. */
  lemma Membership(previous: Snapshot, current: Snapshot, oracle: Oracle, p: Path)
    requires p in previous.Keys + current.Keys
    ensures var kind := EventFor(previous, current, p).kind;
      var gone, came, anew := Gone(previous, current), Came(previous, current, oracle), Anew(previous, current, oracle);
      && (kind == Deleted ==> p in gone && p !in came && p !in anew)
      && (kind == Added ==>
            p !in gone && (p in came <==> oracle(p, current[p].fingerprint)) && (p in anew <==> p in came))
      && (kind == Modified ==> p !in gone && (p in came <==> oracle(p, current[p].fingerprint)) && p !in anew)
      && (kind == Unchanged ==> p !in gone && p !in came && p !in anew)
  {
  }

  lemma Parts(previous: Snapshot, current: Snapshot, oracle: Oracle)
    ensures Gone(previous, current) !! Came(previous, current, oracle)
    ensures Anew(previous, current, oracle) <= Came(previous, current, oracle)
    ensures Gone(previous, current) + Came(previous, current, oracle) <= ChangedPaths(previous, current)
  {
  }

  // ---------------------------------------------------------------------------------
  // One job
  // ---------------------------------------------------------------------------------

  /** What one fault-free event does to the stored paths, the counter and the snapshot. */
  lemma PutEffect(d: IndexState, roots: nat, event: ChangeEvent, input: Input)
    requires Core(d.stores) && input.faults.failing.None?
    requires event.kind in {Added, Modified} && event.candidate.Some? && event.candidate.value.canonical == event.path
    ensures var d' := Processed(d, roots, event, input);
      if Extractable(roots, event.candidate.value, input) then
        && d'.stores.tables.files.Keys == d.stores.tables.files.Keys + {event.path}
        && d'.indexed == (if event.kind == Added then d.indexed + 1 else d.indexed)
        && d'.snapshot == SnapshotUpdated(d.snapshot, event)
      else
        d'.stores.tables.files == d.stores.tables.files && d'.indexed == d.indexed && d'.snapshot == d.snapshot
  {
    hide VectorAfter, LexicalOps, ChunkTexts, StoredEmbeddings, Core;
    assert event.(path := event.candidate.value.canonical) == event;
  }

  lemma DropEffect(d: IndexState, roots: nat, event: ChangeEvent, input: Input)
    requires Core(d.stores) && event.kind == Deleted
    ensures var d' := Processed(d, roots, event, input);
      if event.path in d.stores.tables.files then
        && d'.stores.tables.files == d.stores.tables.files - {event.path}
        && d'.indexed == (if d.indexed == 0 then 0 else d.indexed - 1)
        && d'.snapshot == SnapshotUpdated(d.snapshot, event)
      else d' == d
  {
    hide ChunksWithout, ChunkIdsOf;
    if event.path in d.stores.tables.files {
      WithoutPath(d.stores.tables.files, event.path);
    }
  }

  // ---------------------------------------------------------------------------------
  // A refresh in progress
  // ---------------------------------------------------------------------------------

  /** Of the processed paths the gone ones are no longer stored and the ones that came are; the
      rest is as before. */
  ghost predicate Progress(keys: set<Path>, n: nat, keys0: set<Path>, n0: nat,
                           gone: set<Path>, came: set<Path>, anew: set<Path>, done: set<Path>) {
    && keys == (keys0 - (gone * done)) + (came * done)
    && Counted(n, n0, |anew * done|, |gone * keys0 * done|)
  }

  lemma CountNext(s: set<Path>, done: set<Path>, p: Path)
    requires p !in done
    ensures |s * (done + {p})| == |s * done| + if p in s then 1 else 0
  {
    assert s * (done + {p}) == if p in s then s * done + {p} else s * done;
  }

  lemma KeysNext(keys: set<Path>, keys0: set<Path>, gone: set<Path>, came: set<Path>, done: set<Path>, p: Path)
    requires keys == (keys0 - (gone * done)) + (came * done) && gone !! came && p !in done
    ensures p in keys <==> p in keys0
    ensures (if p in came then keys + {p} else if p in gone then keys - {p} else keys)
         == (keys0 - (gone * (done + {p}))) + (came * (done + {p}))
  {
  }

  /** How a processed path changes the stored paths and the counter. */
  lemma ProgressNext(keys: set<Path>, n: nat, keys0: set<Path>, n0: nat, gone: set<Path>, came: set<Path>,
                     anew: set<Path>,
                     done: set<Path>, p: Path, keys': set<Path>, n': nat)
    requires Progress(keys, n, keys0, n0, gone, came, anew, done) && p !in done
    requires gone !! came && anew <= came
    requires keys' == if p in came then keys + {p} else if p in gone then keys - {p} else keys
    requires n' == if p in anew then n + 1 else if p in gone && p in keys && n > 0 then n - 1 else n
    ensures Progress(keys', n', keys0, n0, gone, came, anew, done + {p})
  {
    KeysNext(keys, keys0, gone, came, done, p);
    CountNext(anew, done, p);
    CountNext(gone * keys0, done, p);
  }

  ghost predicate Underway(d: IndexState, keys0: set<Path>, n0: nat, previous: Snapshot, current: Snapshot,
                           oracle: Oracle,
                           done: set<Path>) {
    && Core(d.stores) && d.snapshot == Some(current)
    && Progress(d.stores.tables.files.Keys, d.indexed, keys0, n0,
                Gone(previous, current), Came(previous, current, oracle), Anew(previous, current, oracle), done)
  }

  /** Replaying a queued event leaves the current snapshot as it is. */
  lemma SnapshotStays(previous: Snapshot, current: Snapshot, e: ChangeEvent)
    requires WellBuilt(current) && e == EventFor(previous, current, e.path)
    ensures SnapshotUpdated(Some(current), e) == Some(current)
    ensures e.candidate.Some? ==> e.candidate.value.canonical == e.path
  {
    if e.kind == Deleted {
      assert current - {e.path} == current;
    } else {
      assert current[e.path := current[e.path]] == current;
    }
  }

  /** A queued job in the terms of the refresh's progress. */
  ghost predicate Advances(d: IndexState, d': IndexState, current: Snapshot, p: Path,
                           gone: set<Path>, came: set<Path>, anew: set<Path>) {
    var keys := d.stores.tables.files.Keys;
    && Core(d'.stores) && d'.snapshot == Some(current)
    && d'.stores.tables.files.Keys == (if p in came then keys + {p} else if p in gone then keys - {p} else keys)
    && d'.indexed == (if p in anew then d.indexed + 1
                      else if p in gone && p in keys && d.indexed > 0 then d.indexed - 1 else d.indexed)
  }

  lemma JobAdvances(d: IndexState, previous: Snapshot, current: Snapshot, oracle: Oracle, roots: nat, job: Job)
    requires WellBuilt(current) && Core(d.stores) && d.snapshot == Some(current)
    requires Answers(previous, current, oracle, roots, job)
    ensures Advances(d, Processed(d, roots, job.event, job.input), current, job.event.path,
                     Gone(previous, current), Came(previous, current, oracle), Anew(previous, current, oracle))
  {
    hide Core, Processed, Gone, Came, Anew;
    var keys, p := d.stores.tables.files.Keys, job.event.path;
    SnapshotStays(previous, current, job.event);
    ProcessedKeepsCore(d, roots, job.event, job.input);
    Membership(previous, current, oracle, p);
    if job.event.kind == Deleted {
      DropEffect(d, roots, job.event, job.input);
      assert (d.stores.tables.files - {p}).Keys == keys - {p};
      assert p !in keys ==> keys - {p} == keys;
    } else {
      PutEffect(d, roots, job.event, job.input);
    }
    hide SnapshotUpdated;
  }

  lemma JobUnderway(d: IndexState, keys0: set<Path>, n0: nat, previous: Snapshot, current: Snapshot, oracle: Oracle,
                    done: set<Path>, roots: nat, job: Job)
    requires WellBuilt(current) && Underway(d, keys0, n0, previous, current, oracle, done)
    requires Answers(previous, current, oracle, roots, job) && job.event.path !in done
    ensures Underway(Processed(d, roots, job.event, job.input), keys0, n0, previous, current, oracle,
      done + {job.event.path})
  {
    hide Core, Processed, Gone, Came, Anew, Answers, WellBuilt, Progress;
    var d', p := Processed(d, roots, job.event, job.input), job.event.path;
    JobAdvances(d, previous, current, oracle, roots, job);
    Parts(previous, current, oracle);
    ProgressNext(d.stores.tables.files.Keys, d.indexed, keys0, n0, Gone(previous, current),
      Came(previous, current, oracle),
                 Anew(previous, current, oracle), done, p, d'.stores.tables.files.Keys, d'.indexed);
  }

  // ---------------------------------------------------------------------------------
  // The whole refresh
  // ---------------------------------------------------------------------------------

  lemma {:induction false} WorksUnderway(d: IndexState, keys0: set<Path>, n0: nat, previous: Snapshot,
                                         current: Snapshot,
                                         oracle: Oracle, roots: nat, works: seq<Work>)
    requires WellBuilt(current) && Underway(d, keys0, n0, previous, current, oracle, {})
    requires Queue(previous, current, oracle, roots, works)
    ensures Underway(WorksDone(d, roots, works), keys0, n0, previous, current, oracle, PathsOf(works))
  {
    hide Underway, WorkDone, Answers;
    if works == [] {
      assert PathsOf(works) == {};
    } else {
      var init, last := works[..|works| - 1], works[|works| - 1];
      assert works == init + [last];
      QueueInit(previous, current, oracle, roots, init, last);
      WorksUnderway(d, keys0, n0, previous, current, oracle, roots, init);
      WorkUnderway(WorksDone(d, roots, init), keys0, n0, previous, current, oracle, PathsOf(init), roots, last);
      PathsNext(init, last);
    }
  }

  lemma PathsNext(init: seq<Work>, last: Work)
    ensures PathsOf(init + [last]) == PathsOf(init) + if last.Do? then {last.job.event.path} else {}
  {
    assert forall w :: w in init + [last] <==> w in init || w == last;
  }

  lemma QueueInit(previous: Snapshot, current: Snapshot, oracle: Oracle, roots: nat, init: seq<Work>, last: Work)
    requires Queue(previous, current, oracle, roots, init + [last])
    ensures Queue(previous, current, oracle, roots, init)
    ensures last.Do? ==> Answers(previous, current, oracle, roots, last.job) && last.job.event.path !in PathsOf(init)
  {
    hide Answers;
    var works := init + [last];
    assert last in works;
    forall i | 0 <= i < |init|
      ensures init[i] in works && works[i] == init[i]
    {
    }
    if last.Do? {
      forall i | 0 <= i < |init| && init[i].Do?
        ensures init[i].job.event.path != last.job.event.path
      {
        assert works[i].job.event.path != works[|init|].job.event.path;
      }
    }
  }

  lemma CommitUnderway(d: IndexState, keys0: set<Path>, n0: nat, previous: Snapshot, current: Snapshot, oracle: Oracle,
                       done: set<Path>)
    requires Underway(d, keys0, n0, previous, current, oracle, done)
    ensures Underway(WithCommit(d), keys0, n0, previous, current, oracle, done)
  {
    hide Progress, Gone, Came, Anew;
    CommitKeepsCore(d.stores);
  }

  lemma WorkUnderway(d: IndexState, keys0: set<Path>, n0: nat, previous: Snapshot, current: Snapshot, oracle: Oracle,
                     done: set<Path>, roots: nat, work: Work)
    requires WellBuilt(current) && Underway(d, keys0, n0, previous, current, oracle, done)
    requires work.Do? ==> Answers(previous, current, oracle, roots, work.job) && work.job.event.path !in done
    ensures Underway(WorkDone(d, roots, work), keys0, n0, previous, current, oracle,
                     done + if work.Do? then {work.job.event.path} else {})
  {
    hide Processed, Answers, Underway, Core;
    if work.CommitBatch? {
      CommitUnderway(d, keys0, n0, previous, current, oracle, done);
      assert done + {} == done;
    } else {
      JobUnderway(d, keys0, n0, previous, current, oracle, done, roots, work.job);
    }
  }

  lemma StartProgress(keys: set<Path>, n: nat, gone: set<Path>, came: set<Path>, anew: set<Path>)
    ensures Progress(keys, n, keys, n, gone, came, anew, {})
  {
    assert anew * {} == {} && gone * keys * {} == {};
    assert (keys - (gone * {})) + (came * {}) == keys;
  }

  lemma StartUnderway(d: IndexState, previous: Snapshot, current: Snapshot, oracle: Oracle)
    requires Core(d.stores)
    ensures Underway(d.(snapshot := Some(current)), d.stores.tables.files.Keys, d.indexed, previous, current, oracle,
      {})
  {
    hide Core, Gone, Came, Anew, Progress;
    StartProgress(d.stores.tables.files.Keys, d.indexed, Gone(previous, current), Came(previous, current, oracle),
                  Anew(previous, current, oracle));
  }

  lemma AllDone(keys: set<Path>, previous: Snapshot, current: Snapshot, oracle: Oracle, works: seq<Work>)
    requires Complete(previous, current, works)
    ensures var gone, came, anew :=
      Gone(previous, current), Came(previous, current, oracle), Anew(previous, current, oracle);
      && (keys - (gone * PathsOf(works))) + (came * PathsOf(works)) == StoredAfter(keys, previous, current, oracle)
      && anew * PathsOf(works) == anew && gone * keys * PathsOf(works) == gone * keys
  {
    Parts(previous, current, oracle);
    assert ChangedPaths(previous, current) <= PathsOf(works);
    hide PathsOf, Gone, Came, Anew, ChangedPaths;
  }

  /** The state of the daemon after one drained refresh. */
  function Refreshed(d: IndexState, roots: nat, current: Snapshot, works: seq<Work>): IndexState {
    WorksDone(d.(snapshot := Some(current)), roots, works)
  }

  /** A drained refresh from any state in order, its events in any order and batching: the snapshot
      is the crawl, the stored paths are those from before without the gone ones and with the ones
      that came, and each path that came anew or went is counted once. */
  lemma RefreshOutcome(d: IndexState, previous: Snapshot, current: Snapshot, oracle: Oracle, roots: nat,
                       works: seq<Work>)
    requires Core(d.stores) && WellBuilt(current)
    requires Queue(previous, current, oracle, roots, works) && Complete(previous, current, works)
    ensures var keys, d' := d.stores.tables.files.Keys, Refreshed(d, roots, current, works);
      && Core(d'.stores) && d'.snapshot == Some(current)
      && d'.stores.tables.files.Keys == StoredAfter(keys, previous, current, oracle)
      && Counted(d'.indexed, d.indexed, |Anew(previous, current, oracle)|, |Gone(previous, current) * keys|)
  {
    hide Core, WorksDone, Queue, PathsOf, WellBuilt, Gone, Came, Anew, StoredAfter, Counted;
    var keys := d.stores.tables.files.Keys;
    StartUnderway(d, previous, current, oracle);
    WorksUnderway(d.(snapshot := Some(current)), keys, d.indexed, previous, current, oracle, roots, works);
    AllDone(keys, previous, current, oracle, works);
  }

  lemma CounterPositive(keys: set<Path>, n: nat, keys0: set<Path>, n0: nat, gone: set<Path>, came: set<Path>,
                        anew: set<Path>,
                        done: set<Path>, p: Path)
    requires Progress(keys, n, keys0, n0, gone, came, anew, done) && gone !! came
    requires p in keys && p in gone && p !in done && n0 >= |gone * keys0|
    ensures n >= 1
  {
    KeysNext(keys, keys0, gone, came, done, p);
    CountNext(gone * keys0, done, p);
    SubsetCount(gone * keys0 * (done + {p}), gone * keys0);
  }

  /** A counter that starts no lower than the number of stored files that go never finds itself at
      zero when it is to count one down. */
  lemma DecrementNeverSaturates(d: IndexState, previous: Snapshot, current: Snapshot, oracle: Oracle, roots: nat,
                                works: seq<Work>, job: Job)
    requires Core(d.stores) && WellBuilt(current)
    requires Queue(previous, current, oracle, roots, works + [Do(job)])
    requires d.indexed >= |Gone(previous, current) * d.stores.tables.files.Keys|
    requires job.event.kind == Deleted && job.event.path in Refreshed(d, roots, current, works).stores.tables.files
    ensures Refreshed(d, roots, current, works).indexed >= 1
  {
    hide Core, WorksDone, WellBuilt, Gone, Came, Anew, Answers, Queue, PathsOf, EventFor, Progress;
    var keys, p, r := d.stores.tables.files.Keys, job.event.path, Refreshed(d, roots, current, works);
    QueueInit(previous, current, oracle, roots, works, Do(job));
    StartUnderway(d, previous, current, oracle);
    WorksUnderway(d.(snapshot := Some(current)), keys, d.indexed, previous, current, oracle, roots, works);
    AnswerPath(previous, current, oracle, roots, job);
    Membership(previous, current, oracle, p);
    Parts(previous, current, oracle);
    CounterPositive(r.stores.tables.files.Keys, r.indexed, keys, d.indexed, Gone(previous, current),
                    Came(previous, current, oracle), Anew(previous, current, oracle), PathsOf(works), p);
  }

  lemma AnswerPath(previous: Snapshot, current: Snapshot, oracle: Oracle, roots: nat, job: Job)
    requires Answers(previous, current, oracle, roots, job)
    ensures job.event.path in previous.Keys + current.Keys && job.event == EventFor(previous, current, job.event.path)
  {
  }

  // ---------------------------------------------------------------------------------
  // When a refresh meets its promise
  // ---------------------------------------------------------------------------------

  /** Stored files of the crawl that cannot be extracted in their new version: their old rows stay. */
  function Stale(keys: set<Path>, current: Snapshot, oracle: Oracle): set<Path> {
    set p | p in keys && p in current && !oracle(p, current[p].fingerprint)
  }

  /** Stored files that neither crawl has: nothing deletes them. */
  function Orphaned(keys: set<Path>, previous: Snapshot, current: Snapshot): set<Path> {
    keys - previous.Keys - current.Keys
  }

  /** Extractable files that are not stored and did not change: nothing stores them. */
  function Missed(keys: set<Path>, previous: Snapshot, current: Snapshot, oracle: Oracle): set<Path> {
    ExtractablePaths(current, oracle) - Came(previous, current, oracle) - keys
  }

  /** Files that are stored by a modification: they are not counted. */
  function Late(keys: set<Path>, previous: Snapshot, current: Snapshot, oracle: Oracle): set<Path> {
    Came(previous, current, oracle) - Anew(previous, current, oracle) - keys
  }

  /** Files that are added though they are stored already: they are counted again. */
  function Recounted(keys: set<Path>, previous: Snapshot, current: Snapshot, oracle: Oracle): set<Path> {
    Anew(previous, current, oracle) * keys
  }

  lemma PathExactly(keys: set<Path>, previous: Snapshot, current: Snapshot, oracle: Oracle, p: Path)
    ensures (p in StoredAfter(keys, previous, current, oracle) <==> p in ExtractablePaths(current, oracle)) <==>
      p !in Stale(keys, current, oracle) && p !in Orphaned(keys, previous, current)
        && p !in Missed(keys, previous, current, oracle)
  {
  }

  lemma PathsExactly(keys: set<Path>, previous: Snapshot, current: Snapshot, oracle: Oracle)
    ensures StoredAfter(keys, previous, current, oracle) == ExtractablePaths(current, oracle) <==>
      Stale(keys, current, oracle) == {} && Orphaned(keys, previous, current) == {}
      && Missed(keys, previous, current, oracle) == {}
  {
    hide *;
    var after, wanted := StoredAfter(keys, previous, current, oracle), ExtractablePaths(current, oracle);
    var bad := Stale(keys, current, oracle) + Orphaned(keys, previous, current) +
      Missed(keys, previous, current, oracle);
    forall p
      ensures (p in after <==> p in wanted) <==> p !in bad
    {
      PathExactly(keys, previous, current, oracle, p);
    }
    assert after == wanted <==> bad == {};
  }

  lemma CountParts(keys: set<Path>, gone: set<Path>, came: set<Path>, anew: set<Path>)
    requires gone !! came && anew <= came
    ensures |(keys - gone) + came| + |gone * keys| == |keys| + |came - keys|
    ensures |came - keys| + |anew * keys| == |anew| + |came - anew - keys|
    ensures |gone * keys| <= |keys|
  {
    assert (keys - gone) + came == (keys - gone) + (came - keys);
    assert (keys - gone) !! (came - keys);
    assert keys == (keys - gone) + (gone * keys);
    assert came - keys == (anew - keys) + (came - anew - keys);
    assert anew == (anew - keys) + (anew * keys);
  }

  /** The refresh meets its promise, from any state in order, if and only if no stored file of the
      crawl is unextractable, none is unknown to both crawls, and no extractable one was left out
      before. A counter that was right stays right if and only if as many files are stored late as
      are counted again. */
  lemma RefreshExactly(d: IndexState, previous: Snapshot, current: Snapshot, oracle: Oracle, roots: nat,
                       works: seq<Work>)
    requires Core(d.stores) && WellBuilt(current)
    requires Queue(previous, current, oracle, roots, works) && Complete(previous, current, works)
    ensures var keys, d' := d.stores.tables.files.Keys, Refreshed(d, roots, current, works);
      && (d'.stores.tables.files.Keys == ExtractablePaths(current, oracle) <==>
            Stale(keys, current, oracle) == {} && Orphaned(keys, previous, current) == {}
            && Missed(keys, previous, current, oracle) == {})
      && (d.indexed == |d.stores.tables.files| ==>
            d'.indexed + |Late(keys, previous, current, oracle)|
              == |d'.stores.tables.files| + |Recounted(keys, previous, current, oracle)|)
  {
    var keys, d' := d.stores.tables.files.Keys, Refreshed(d, roots, current, works);
    RefreshOutcome(d, previous, current, oracle, roots, works);
    Parts(previous, current, oracle);
    CountParts(keys, Gone(previous, current), Came(previous, current, oracle), Anew(previous, current, oracle));
    KeysCount(d.stores.tables.files);
    KeysCount(d'.stores.tables.files);
    PathsExactly(keys, previous, current, oracle);
    hide Core, Queue, Complete, WellBuilt, Refreshed, Gone, Came, Anew, ExtractablePaths, Stale, Orphaned, Missed;
  }

  lemma KeysCount(files: map<Path, FileRow>)
    ensures |files| == |files.Keys|
  {
  }

  /** The stored files are the extractable ones of the snapshot, and they are counted. */
  ghost predicate Consistent(d: IndexState, s: Snapshot, oracle: Oracle) {
    && Core(d.stores) && d.snapshot == Some(s)
    && d.stores.tables.files.Keys == ExtractablePaths(s, oracle)
    && d.indexed == |d.stores.tables.files|
  }

  /** At least the extractable files of the snapshot are stored, and none that it does not have. */
  ghost predicate Covered(keys: set<Path>, s: Snapshot, oracle: Oracle) {
    ExtractablePaths(s, oracle) <= keys <= s.Keys
  }

  lemma CoveredParts(keys: set<Path>, previous: Snapshot, current: Snapshot, oracle: Oracle)
    requires Covered(keys, previous, oracle)
    ensures Orphaned(keys, previous, current) == {} && Missed(keys, previous, current, oracle) == {}
    ensures Recounted(keys, previous, current, oracle) == {}
    ensures Covered(StoredAfter(keys, previous, current, oracle), current, oracle)
    ensures StoredAfter(keys, previous, current, oracle) == ExtractablePaths(current, oracle) + (keys * current.Keys)
  {
    forall p | p in current && p in previous && EventFor(previous, current, p).kind == Unchanged
      ensures oracle(p, current[p].fingerprint) ==> p in keys
    {
      assert oracle(p, previous[p].fingerprint) ==> p in ExtractablePaths(previous, oracle);
    }
  }

  /** Starting consistent, a refresh ends consistent if and only if no stored file becomes
      unextractable and no unextractable file becomes extractable. */
  lemma ConsistentExactly(d: IndexState, previous: Snapshot, current: Snapshot, oracle: Oracle, roots: nat,
                          works: seq<Work>)
    requires Consistent(d, previous, oracle) && WellBuilt(current)
    requires Queue(previous, current, oracle, roots, works) && Complete(previous, current, works)
    ensures var keys := ExtractablePaths(previous, oracle);
      Consistent(Refreshed(d, roots, current, works), current, oracle) <==>
        Stale(keys, current, oracle) == {} && Late(keys, previous, current, oracle) == {}
  {
    hide Core, Queue, Complete, WellBuilt, Refreshed, Gone, Came, Anew, ExtractablePaths, Stale, Orphaned, Missed, Late,
      Recounted, Covered, StoredAfter, Counted;
    var keys, d' := ExtractablePaths(previous, oracle), Refreshed(d, roots, current, works);
    SnapshotCovers(previous, oracle);
    CoveredParts(keys, previous, current, oracle);
    RefreshOutcome(d, previous, current, oracle, roots, works);
    RefreshExactly(d, previous, current, oracle, roots, works);
    assert |Recounted(keys, previous, current, oracle)| == 0;
    assert |Late(keys, previous, current, oracle)| == 0 <==> Late(keys, previous, current, oracle) == {};
  }

  lemma SnapshotCovers(s: Snapshot, oracle: Oracle)
    ensures Covered(ExtractablePaths(s, oracle), s, oracle)
  {
  }

  // ---------------------------------------------------------------------------------
  // Events processed after a later crawl
  // ---------------------------------------------------------------------------------

  /** The event changes something when it is processed: it deletes a stored path, or its file is
      extractable and written without a failing statement. */
  predicate TakesEffect(d: IndexState, roots: nat, event: ChangeEvent, input: Input) {
    match event.kind
    case Deleted => event.path in d.stores.tables.files
    case Unchanged => false
    case _ =>
      && event.candidate.Some? && Extractable(roots, event.candidate.value, input)
      && !Fails(d.stores.tables, WriteOf(event.candidate.value, input.extraction.value, input.embeddings), input.faults)
  }

  lemma SnapshotProcessed(d: IndexState, roots: nat, event: ChangeEvent, input: Input)
    requires event.candidate.Some? ==> event.candidate.value.canonical == event.path
    ensures Processed(d, roots, event, input).snapshot ==
      if TakesEffect(d, roots, event, input) then SnapshotUpdated(d.snapshot, event) else d.snapshot
  {
    hide Outcome, Removed, SnapshotUpdated, Fails;
    assert event.candidate.Some? ==> event.(path := event.candidate.value.canonical) == event;
  }

  lemma UpdateExactly(previous: Snapshot, current: Snapshot, later: Snapshot, p: Path)
    requires WellBuilt(current) && p in previous.Keys + current.Keys
    requires EventFor(previous, current, p).kind != Unchanged
    ensures SnapshotUpdated(Some(later), EventFor(previous, current, p)) == Some(later) <==> SameAt(later, current, p)
  {
    var now := Updated(later, EventFor(previous, current, p));
    assert SameAt(now, current, p);
    if SameAt(later, current, p) {
      assert now == later;
    }
  }

  /** A queued event that is processed only after a later crawl leaves that crawl's snapshot alone
      exactly if it takes no effect or the two crawls agree about its path. */
  lemma LateEventExactly(d: IndexState, roots: nat, previous: Snapshot, current: Snapshot, later: Snapshot, p: Path,
                         input: Input)
    requires WellBuilt(current) && p in previous.Keys + current.Keys && d.snapshot == Some(later)
    requires EventFor(previous, current, p).kind != Unchanged
    ensures var e := EventFor(previous, current, p);
      Processed(d, roots, e, input).snapshot == d.snapshot <==>
        !TakesEffect(d, roots, e, input) || SameAt(later, current, p)
  {
    var e := EventFor(previous, current, p);
    assert e.candidate.Some? ==> e.candidate.value.canonical == p;
    SnapshotProcessed(d, roots, e, input);
    UpdateExactly(previous, current, later, p);
    hide Processed, SnapshotUpdated, TakesEffect, SameAt;
  }
}
