/** What the lazy rebuilds cost over a whole run of upserts and deletes. */
module VectorRuns {
  import opened Common
  import opened Vectors

  datatype Operation = Upsert(data: seq<Point>) | Delete(ids: set<ChunkId>)

  /** Ids named by deletes, rebuilds done, and points that rebuilds inserted again. */
  datatype Tally = Tally(named: nat, rebuilds: nat, reinserted: nat)

  datatype Run = Run(index: VectorState, tally: Tally)

  const EMPTY_RUN := Run(VectorState([], {}), Tally(0, 0, 0))

  /** One operation. A rebuild happens when a delete leaves a crowded index with tombstones. */
  function Next(run: Run, op: Operation): Run {
    match op
    case Upsert(data) => run.(index := Upserted(run.index, data))
    case Delete(ids) =>
      var marked := run.index.(deleted := run.index.deleted + ids);
      var tally := run.tally.(named := run.tally.named + |ids|);
      if Crowded(marked) && marked.deleted != {} then
        var live := Live(marked.points, marked.deleted);
        Run(Tombstoned(run.index, ids), tally.(rebuilds := tally.rebuilds + 1, reinserted := tally.reinserted + |live|))
      else Run(Tombstoned(run.index, ids), tally)
  }

  function RunAll(run: Run, ops: seq<Operation>): Run
    decreases |ops|
  {
    if ops == [] then run else RunAll(Next(run, ops[0]), ops[1..])
  }

  // ---------------------------------------------------------------------------------
  // The bound on tombstones
  // ---------------------------------------------------------------------------------

  /** No tombstones, or less than a quarter of the points. */
  predicate Bounded(s: VectorState) {
    s.deleted == {} || 4 * (|s.deleted| + 1) <= |s.points|
  }

  lemma UpsertStaysBounded(s: VectorState, data: seq<Point>)
    requires Bounded(s)
    ensures Bounded(Upserted(s, data))
  {
    SubsetCount(s.deleted - Ids(data), s.deleted);
  }

  lemma DeleteBounded(s: VectorState, ids: set<ChunkId>)
    ensures Bounded(Tombstoned(s, ids)) <==> s.points != [] || s.deleted + ids == {}
  {
    hide Live;
  }

  /** An operation breaks the bound exactly if it deletes something while the graph is empty,
      whether the ids it names are present, fresh or neither. */
  lemma BoundExactly(run: Run, op: Operation)
    requires Bounded(run.index)
    ensures Bounded(Next(run, op).index) <==> !(op.Delete? && op.ids != {} && run.index.points == [])
  {
    hide Live, Tombstoned, Upserted;
    match op
    case Upsert(data) => UpsertStaysBounded(run.index, data);
    case Delete(ids) => DeleteBounded(run.index, ids);
  }

  /** The bound holds before and after every operation. */
  predicate AllBounded(run: Run, ops: seq<Operation>)
    decreases |ops|
  {
    Bounded(run.index) && (ops != [] ==> AllBounded(Next(run, ops[0]), ops[1..]))
  }

  /** No operation deletes something while the graph is empty. */
  predicate NeverOnEmpty(run: Run, ops: seq<Operation>)
    decreases |ops|
  {
    ops != [] ==>
      && !(ops[0].Delete? && ops[0].ids != {} && run.index.points == [])
      && NeverOnEmpty(Next(run, ops[0]), ops[1..])
  }

  lemma {:induction false} BoundOverRuns(run: Run, ops: seq<Operation>)
    requires Bounded(run.index)
    ensures AllBounded(run, ops) <==> NeverOnEmpty(run, ops)
    decreases |ops|
  {
    hide Next, Bounded;
    if ops != [] {
      BoundExactly(run, ops[0]);
      if Bounded(Next(run, ops[0]).index) {
        BoundOverRuns(Next(run, ops[0]), ops[1..]);
      }
    }
  }

  // ---------------------------------------------------------------------------------
  // The cost of rebuilds
  // ---------------------------------------------------------------------------------

  /** Only fresh ids are upserted and only present ones deleted. */
  ghost predicate Legal(s: VectorState, op: Operation) {
    match op
    case Upsert(data) => UniqueIds(data) && Ids(data) !! Ids(s.points)
    case Delete(ids) => ids <= Ids(s.points)
  }

  ghost predicate AllLegal(run: Run, ops: seq<Operation>)
    decreases |ops|
  {
    ops != [] ==> Legal(run.index, ops[0]) && AllLegal(Next(run, ops[0]), ops[1..])
  }

  /** One point per id and a point for each tombstone. */
  ghost predicate Present(s: VectorState) {
    UniqueIds(s.points) && s.deleted <= Ids(s.points)
  }

  /** The re-insertions so far, plus `price` for each tombstone still standing, are paid for by the
      deletes and rebuilds so far. */
  predicate Paid(run: Run, price: nat) {
    run.tally.reinserted + price * |run.index.deleted| <= price * run.tally.named + 3 * run.tally.rebuilds
  }

  lemma {:induction false} CountOfPoints(points: seq<Point>)
    requires UniqueIds(points)
    ensures |Ids(points)| == |points|
  {
    if points != [] {
      var init, last := points[..|points| - 1], points[|points| - 1];
      assert points == init + [last];
      UniqueConcat(init, [last]);
      hide UniqueIds;
      assert last.id in Ids([last]);
      assert Ids(points) == Ids(init) + {last.id};
      CountOfPoints(init);
    }
  }

  /** A rebuild inserts at most four points for each tombstone it clears, and three more; at most
      three for each, and three more, if every tombstone has its point. */
  lemma RebuildCost(s: VectorState)
    requires Crowded(s)
    ensures |Live(s.points, s.deleted)| <= 4 * |s.deleted| + 3
    ensures Present(s) ==> |Live(s.points, s.deleted)| == |s.points| - |s.deleted| <= 3 * |s.deleted| + 3
  {
    LiveLaws(s.points, s.deleted);
    if Present(s) {
      CountOfPoints(s.points);
      CountOfPoints(Live(s.points, s.deleted));
      assert Ids(s.points) == (Ids(s.points) - s.deleted) + s.deleted;
    }
  }

  lemma UnionCount(a: set<ChunkId>, b: set<ChunkId>)
    ensures |a + b| <= |a| + |b|
  {
    assert a + b == a + (b - a);
    assert b == (b - a) + (a * b);
  }

  lemma NextIsPaid(run: Run, op: Operation)
    requires Paid(run, 4)
    ensures Paid(Next(run, op), 4)
  {
    hide Live;
    match op
    case Upsert(data) => SubsetCount(run.index.deleted - Ids(data), run.index.deleted);
    case Delete(ids) =>
      var marked := run.index.(deleted := run.index.deleted + ids);
      UnionCount(run.index.deleted, ids);
      if Crowded(marked) {
        RebuildCost(marked);
      }
  }

  lemma LegalStaysPresent(run: Run, op: Operation)
    requires Present(run.index) && Legal(run.index, op)
    ensures Present(Next(run, op).index)
    ensures op.Upsert? ==> Next(run, op).index.deleted == run.index.deleted
  {
    match op
    case Upsert(data) =>
      UniqueConcat(run.index.points, data);
      UpsertedLaws(run.index, data);
      assert run.index.deleted - Ids(data) == run.index.deleted;
    case Delete(ids) => CollectedLaws(run.index.(deleted := run.index.deleted + ids));
  }

  lemma LegalIsPaid(run: Run, op: Operation)
    requires Present(run.index) && Legal(run.index, op) && Paid(run, 3)
    ensures Paid(Next(run, op), 3)
  {
    LegalStaysPresent(run, op);
    hide Live, UniqueIds;
    match op
    case Upsert(data) =>
    case Delete(ids) =>
      var marked := run.index.(deleted := run.index.deleted + ids);
      UnionCount(run.index.deleted, ids);
      if Crowded(marked) {
        RebuildCost(marked);
      }
  }

  /** In every run at all, the re-insertions are paid for at four points for each deleted id and
      three for each rebuild; in a legal run, at three and three, and the bound on tombstones
      holds. */
  lemma {:induction false} RebuildsArePaidFor(run: Run, ops: seq<Operation>)
    requires Paid(run, 4)
    ensures Paid(RunAll(run, ops), 4)
    ensures Present(run.index) && Bounded(run.index) && Paid(run, 3) && AllLegal(run, ops) ==>
      Bounded(RunAll(run, ops).index) && Paid(RunAll(run, ops), 3)
    decreases |ops|
  {
    hide Present, Bounded, Paid, Next, Legal;
    if ops != [] {
      NextIsPaid(run, ops[0]);
      if Present(run.index) && Bounded(run.index) && Paid(run, 3) && Legal(run.index, ops[0]) {
        LegalIsPaid(run, ops[0]);
        LegalStaysPresent(run, ops[0]);
        LegalStaysBounded(run, ops[0]);
      }
      RebuildsArePaidFor(Next(run, ops[0]), ops[1..]);
    }
  }

  lemma LegalStaysBounded(run: Run, op: Operation)
    requires Bounded(run.index) && Legal(run.index, op)
    ensures Bounded(Next(run, op).index)
  {
    BoundExactly(run, op);
    hide Next, Bounded;
  }

  /** What all rebuilds of a run from an empty index cost. */
  lemma RebuildBudget(ops: seq<Operation>)
    ensures var r := RunAll(EMPTY_RUN, ops);
      && r.tally.reinserted <= 4 * r.tally.named + 3 * r.tally.rebuilds
      && (AllLegal(EMPTY_RUN, ops) ==>
            && Bounded(r.index)
            && r.tally.reinserted <= 3 * r.tally.named + 3 * r.tally.rebuilds)
  {
    RebuildsArePaidFor(EMPTY_RUN, ops);
    hide RunAll, AllLegal, Bounded;
  }

  lemma {:induction false} LiveAll(points: seq<Point>, deleted: set<ChunkId>)
    requires Ids(points) !! deleted
    ensures Live(points, deleted) == points
  {
    if points != [] {
      var init, last := points[..|points| - 1], points[|points| - 1];
      assert points == init + [last];
      assert last.id in Ids(points) && Ids(init) <= Ids(points);
      LiveAll(init, deleted);
    }
  }

  /** The price of four is reached: deleting ids that have no point rebuilds everything there is. */
  lemma FourIsReached(data: seq<Point>, ids: set<ChunkId>)
    requires |data| == 4 * |ids| + 3 && ids != {} && Ids(data) !! ids
    ensures var r := RunAll(EMPTY_RUN, [Upsert(data), Delete(ids)]);
      r.tally == Tally(|ids|, 1, |data|) && r.tally.reinserted == 4 * r.tally.named + 3 * r.tally.rebuilds
  {
    hide Live, Ids;
    var one := Next(EMPTY_RUN, Upsert(data));
    assert [] + data == data && {} - Ids(data) == {} && {} + ids == ids;
    LiveAll(data, ids);
    assert [Upsert(data), Delete(ids)][1..] == [Delete(ids)];
    assert [Delete(ids)][1..] == [];
    assert RunAll(one, [Delete(ids)]) == RunAll(Next(one, Delete(ids)), []);
  }
}
