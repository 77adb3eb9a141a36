/** The daemon's state and what one change event makes of it. */
module Events {
  import opened Common
  import opened Vectors
  import opened Meta
  import opened Crawl
  import opened Stores
  import Lexical

  datatype Extraction = Extraction(text: string, mime: string)

  /** What the world answers while an event is processed. */
  datatype Input = Input(extraction: Option<Extraction>, embeddings: Option<seq<Vector>>, faults: Faults)

  datatype IndexState = IndexState(stores: Stores, snapshot: Option<Snapshot>, indexed: nat)

  /** The file is under a configured root and its text can be extracted. */
  predicate Extractable(roots: nat, c: CrawlCandidate, input: Input) {
    c.rootId < roots && input.extraction.Some?
  }

  function WriteOf(c: CrawlCandidate, x: Extraction, embeddings: Option<seq<Vector>>): Write {
    Write(c, x.text, x.mime, embeddings)
  }

  function WithFailure(s: Stores, f: Failure): Stores {
    s.(tables := s.tables.(failures := s.tables.failures + [f]))
  }

  /** An added or modified file: failures before the transaction are recorded for a stored file
      only; a committed write is entered into the snapshot, and counted if it was an addition. */
  function PutProcessed(d: IndexState, roots: nat, event: ChangeEvent, c: CrawlCandidate, input: Input): IndexState {
    if !Extractable(roots, c, input) then
      if event.path in d.stores.tables.files then
        d.(stores := WithFailure(d.stores, Failure(Some(d.stores.tables.files[event.path].id), event.path, "indexing")))
      else d
    else
      var w := WriteOf(c, input.extraction.value, input.embeddings);
      var s := Outcome(d.stores, w, input.faults);
      if Fails(d.stores.tables, w, input.faults) then d.(stores := s)
      else IndexState(s, SnapshotUpdated(d.snapshot, event.(path := c.canonical)),
                      if event.kind == Added then d.indexed + 1 else d.indexed)
  }

  /** A deleted file: nothing at all happens if it is not stored. */
  function DropProcessed(d: IndexState, event: ChangeEvent): IndexState {
    if event.path !in d.stores.tables.files then d
    else IndexState(Removed(d.stores, d.stores.tables.files[event.path].id),
                    SnapshotUpdated(d.snapshot, event),
                    if d.indexed == 0 then 0 else d.indexed - 1)
  }

  function Processed(d: IndexState, roots: nat, event: ChangeEvent, input: Input): IndexState {
    match event.kind
    case Added => if event.candidate.Some? then PutProcessed(d, roots, event, event.candidate.value, input) else d
    case Modified => if event.candidate.Some? then PutProcessed(d, roots, event, event.candidate.value, input) else d
    case Deleted => DropProcessed(d, event)
    case Unchanged => d
  }

  datatype Job = Job(event: ChangeEvent, input: Input)

  function JobsProcessed(d: IndexState, roots: nat, jobs: seq<Job>): IndexState {
    if jobs == [] then d
    else
      var last := jobs[|jobs| - 1];
      Processed(JobsProcessed(d, roots, jobs[..|jobs| - 1]), roots, last.event, last.input)
  }

  function WithCommit(d: IndexState): IndexState {
    d.(stores := d.stores.(lexical := Lexical.Committed(d.stores.lexical)))
  }

  function BatchProcessed(d: IndexState, roots: nat, jobs: seq<Job>): IndexState {
    WithCommit(JobsProcessed(d, roots, jobs))
  }

  lemma JobsNext(d: IndexState, roots: nat, jobs: seq<Job>, i: nat)
    requires i < |jobs|
    ensures JobsProcessed(d, roots, jobs[..i + 1]) ==
      Processed(JobsProcessed(d, roots, jobs[..i]), roots, jobs[i].event, jobs[i].input)
  {
    hide Processed;
    assert jobs[..i + 1][..i] == jobs[..i];
  }

  lemma CommitKeepsCore(s: Stores)
    requires Core(s)
    ensures Core(s.(lexical := Lexical.Committed(s.lexical)))
  {
  }

  /** Every event keeps the stores in order, if no write fails behind its vector upsert. */
  lemma ProcessedKeepsCore(d: IndexState, roots: nat, event: ChangeEvent, input: Input)
    requires Core(d.stores) && !AfterUpsert(input.faults)
    ensures Core(Processed(d, roots, event, input).stores)
  {
    hide Outcome, Removed, Fails, WellFormed;
    if event.kind == Deleted {
      if event.path in d.stores.tables.files {
        RemovedKeepsCore(d.stores, d.stores.tables.files[event.path].id);
      }
    } else if event.kind != Unchanged && event.candidate.Some? {
      var c := event.candidate.value;
      if Extractable(roots, c, input) {
        OutcomeKeepsCore(d.stores, WriteOf(c, input.extraction.value, input.embeddings), input.faults);
      } else if event.path in d.stores.tables.files {
        FailureKeepsCore(d.stores, Failure(Some(d.stores.tables.files[event.path].id), event.path, "indexing"));
      }
    }
  }

  lemma FailureKeepsCore(s: Stores, f: Failure)
    requires Core(s)
    ensures Core(WithFailure(s, f))
  {
  }
}
