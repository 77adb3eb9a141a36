/** The vector index: points, tombstones, and a rebuild once a quarter of the points is dead. */
module Vectors {
  import opened Common

  type ChunkId = nat

  type Vector = seq<real>

  datatype Point = Point(id: ChunkId, vector: Vector)

  datatype Neighbor = Neighbor(id: ChunkId, distance: real)

  /** The contents of an index. The graph may hold two points of one id. */
  datatype VectorState = VectorState(points: seq<Point>, deleted: set<ChunkId>)

  function Ids(points: seq<Point>): set<ChunkId> {
    set p | p in points :: p.id
  }

  function IdSet(ids: seq<ChunkId>): set<ChunkId> {
    set id | id in ids
  }

  ghost predicate UniqueIds(points: seq<Point>) {
    forall i, j :: 0 <= i < j < |points| ==> points[i].id != points[j].id
  }

  function LiveIds(s: VectorState): set<ChunkId> {
    Ids(s.points) - s.deleted
  }

  /** The points that are not tombstoned, in order. */
  function Live(points: seq<Point>, deleted: set<ChunkId>): seq<Point> {
    if points == [] then []
    else
      var last := points[|points| - 1];
      Live(points[..|points| - 1], deleted) + if last.id in deleted then [] else [last]
  }

  function Upserted(s: VectorState, data: seq<Point>): VectorState {
    VectorState(s.points + data, s.deleted - Ids(data))
  }

  function Collected(s: VectorState): VectorState {
    if s.deleted == {} then s else VectorState(Live(s.points, s.deleted), {})
  }

  /** The 25% test of the source: integer division, so up to `4 * |deleted| + 3` points. */
  predicate Crowded(s: VectorState) {
    |s.points| > 0 && |s.deleted| >= |s.points| / 4
  }

  function Tombstoned(s: VectorState, ids: set<ChunkId>): VectorState {
    var marked := s.(deleted := s.deleted + ids);
    if Crowded(marked) then Collected(marked) else marked
  }

  /** The distance of every id from a query. */
  function Distances(points: seq<Point>, query: Vector, metric: (Vector, Vector) -> real): map<ChunkId, real> {
    if points == [] then map[]
    else
      var last := points[|points| - 1];
      Distances(points[..|points| - 1], query, metric)[last.id := metric(query, last.vector)]
  }

  function NeighborIds(ns: seq<Neighbor>): set<ChunkId> {
    set n | n in ns :: n.id
  }

  /** Nearest first, no id twice. */
  ghost predicate Ascending(ns: seq<Neighbor>) {
    forall i, j :: 0 <= i < j < |ns| ==> ns[i].id != ns[j].id && ns[i].distance <= ns[j].distance
  }

  /** `ns` is a list of the `k` nearest ids: nearest first, all of them if there are fewer than
      `k`, and no id left out is strictly nearer than one listed. */
  ghost predicate IsNearest(distances: map<ChunkId, real>, k: nat, ns: seq<Neighbor>) {
    && |ns| == (if k <= |distances| then k else |distances|)
    && (forall n :: n in ns ==> n.id in distances && n.distance == distances[n.id])
    && Ascending(ns)
    && (forall id, n :: id in distances && id !in NeighborIds(ns) && n in ns ==> n.distance <= distances[id])
  }

  // ---------------------------------------------------------------------------------
  // Laws of the index operations
  // ---------------------------------------------------------------------------------

  lemma {:induction false} LiveLaws(points: seq<Point>, deleted: set<ChunkId>)
    ensures forall p :: p in Live(points, deleted) <==> p in points && p.id !in deleted
    ensures Ids(Live(points, deleted)) == Ids(points) - deleted
    ensures UniqueIds(points) ==> UniqueIds(Live(points, deleted))
    ensures |Live(points, deleted)| <= |points|
  {
    if points != [] {
      var init, last := points[..|points| - 1], points[|points| - 1];
      assert points == init + [last];
      LiveLaws(init, deleted);
    }
  }

  /** A rebuild drops exactly the tombstoned points. */
  lemma CollectedLaws(s: VectorState)
    ensures LiveIds(Collected(s)) == LiveIds(s)
    ensures Collected(s).deleted == {}
    ensures forall p :: p in Collected(s).points <==> p in s.points && p.id !in s.deleted
    ensures UniqueIds(s.points) ==> UniqueIds(Collected(s).points)
  {
    LiveLaws(s.points, s.deleted);
  }

  /** Deleting removes exactly the named ids from the live ones, rebuild or not. */
  lemma TombstonedLaws(s: VectorState, ids: set<ChunkId>)
    ensures LiveIds(Tombstoned(s, ids)) == LiveIds(s) - ids
    ensures forall p :: p in Tombstoned(s, ids).points ==> p in s.points
    ensures UniqueIds(s.points) ==> UniqueIds(Tombstoned(s, ids).points)
  {
    CollectedLaws(s.(deleted := s.deleted + ids));
  }

  /** A delete rebuilds exactly if there is a tombstone and the points are not more than four for each
      and three; else it only marks the ids. */
  lemma RebuildExactly(s: VectorState, ids: set<ChunkId>)
    ensures var marked, after := s.deleted + ids, Tombstoned(s, ids);
      if marked != {} && s.points != [] && |s.points| <= 4 * |marked| + 3 then
        after.deleted == {} && forall p :: p in after.points <==> p in s.points && p.id !in marked
      else after == VectorState(s.points, marked)
  {
    CollectedLaws(s.(deleted := s.deleted + ids));
    hide Live;
  }

  /** Upserting makes the named ids live. Only fresh ids keep one point per id. */
  lemma UpsertedLaws(s: VectorState, data: seq<Point>)
    ensures LiveIds(Upserted(s, data)) == LiveIds(s) + Ids(data)
    ensures Ids(Upserted(s, data).points) == Ids(s.points) + Ids(data)
  {
    assert forall p :: p in s.points + data <==> p in s.points || p in data;
    var p, d, x := Ids(s.points), Ids(data), s.deleted;
    assert Ids(s.points + data) == p + d;
    assert (p + d) - (x - d) == (p - x) + d;
  }

  lemma UniqueConcat(a: seq<Point>, b: seq<Point>)
    ensures UniqueIds(a + b) <==> UniqueIds(a) && UniqueIds(b) && Ids(a) !! Ids(b)
  {
    var all := a + b;
    if UniqueIds(all) {
      forall p, q | p in a && q in b
        ensures p.id != q.id
      {
        var i :| 0 <= i < |a| && a[i] == p;
        var j :| 0 <= j < |b| && b[j] == q;
        assert all[i].id != all[|a| + j].id;
      }
      forall i, j | 0 <= i < j < |a|
        ensures a[i].id != a[j].id
      {
        assert all[i].id != all[j].id;
      }
      forall i, j | 0 <= i < j < |b|
        ensures b[i].id != b[j].id
      {
        assert all[|a| + i].id != all[|a| + j].id;
      }
    } else if UniqueIds(a) && UniqueIds(b) {
      var i, j :| 0 <= i < j < |all| && all[i].id == all[j].id;
      assert i < |a| <= j;
      assert a[i] in a && b[j - |a|] in b;
      assert a[i].id in Ids(a) * Ids(b);
    }
  }

  /** The live points are exactly the entries of `m`, one point each. */
  ghost predicate Carries(s: VectorState, m: map<ChunkId, Vector>) {
    && UniqueIds(s.points)
    && LiveIds(s) == m.Keys
    && forall p :: p in s.points && p.id !in s.deleted ==> m[p.id] == p.vector
  }

  lemma DeleteCarries(s: VectorState, m: map<ChunkId, Vector>, ids: set<ChunkId>)
    requires Carries(s, m)
    ensures Carries(Tombstoned(s, ids), m - ids)
  {
    TombstonedLaws(s, ids);
    CollectedLaws(s.(deleted := s.deleted + ids));
    var d := Tombstoned(s, ids);
    forall p | p in d.points && p.id !in d.deleted
      ensures (m - ids)[p.id] == p.vector
    {
      assert p.id in LiveIds(d);
      assert p.id in LiveIds(s);
    }
  }

  lemma UpsertCarries(s: VectorState, m: map<ChunkId, Vector>, data: seq<Point>, m': map<ChunkId, Vector>)
    requires Carries(s, m)
    requires UniqueIds(data) && Ids(data) !! Ids(s.points)
    requires m'.Keys == m.Keys + Ids(data)
    requires forall id :: id in m ==> m'[id] == m[id]
    requires forall p :: p in data ==> p.id in m' && m'[p.id] == p.vector
    ensures Carries(Upserted(s, data), m')
  {
    UpsertedLaws(s, data);
    UniqueConcat(s.points, data);
    var u := Upserted(s, data);
    forall p | p in u.points && p.id !in u.deleted
      ensures m'[p.id] == p.vector
    {
      if p !in data {
        assert p.id in Ids(s.points);
        assert p.id in LiveIds(s);
      }
    }
  }

  // ---------------------------------------------------------------------------------
  // Exact search under tombstones
  // ---------------------------------------------------------------------------------

  lemma {:induction false} DistancesOfUnique(points: seq<Point>, query: Vector, metric: (Vector, Vector) -> real)
    ensures Distances(points, query, metric).Keys == Ids(points)
    ensures UniqueIds(points) ==>
      && |Distances(points, query, metric)| == |points|
      && forall p :: p in points ==> Distances(points, query, metric)[p.id] == metric(query, p.vector)
  {
    if points != [] {
      var init, last := points[..|points| - 1], points[|points| - 1];
      assert points == init + [last];
      DistancesOfUnique(init, query, metric);
      if UniqueIds(points) {
        assert last.id !in Ids(init);
      }
    }
  }

  /** The neighbours that are not tombstoned, in order. */
  function Kept(ns: seq<Neighbor>, deleted: set<ChunkId>): seq<Neighbor> {
    if ns == [] then []
    else
      var last := ns[|ns| - 1];
      Kept(ns[..|ns| - 1], deleted) + if last.id in deleted then [] else [last]
  }

  lemma {:induction false} KeptLaws(ns: seq<Neighbor>, deleted: set<ChunkId>)
    ensures forall n :: n in Kept(ns, deleted) <==> n in ns && n.id !in deleted
    ensures Ascending(ns) ==> Ascending(Kept(ns, deleted))
  {
    if ns != [] {
      var init, last := ns[..|ns| - 1], ns[|ns| - 1];
      assert ns == init + [last];
      KeptLaws(init, deleted);
    }
  }

  lemma {:induction false} CountOfIds(ns: seq<Neighbor>)
    requires Ascending(ns)
    ensures |NeighborIds(ns)| == |ns|
  {
    if ns != [] {
      var init, last := ns[..|ns| - 1], ns[|ns| - 1];
      assert ns == init + [last];
      assert last.id !in NeighborIds(init);
      assert NeighborIds(ns) == NeighborIds(init) + {last.id};
      CountOfIds(init);
    }
  }

  /** Over-fetching by the number of tombstones is enough: what is kept of the `k + |deleted|`
      nearest points, read up to `k` live ones, is a list of the `k` nearest live points. */
  lemma OverfetchIsExact(distances: map<ChunkId, real>, deleted: set<ChunkId>, k: nat,
                         read: seq<Neighbor>, unread: seq<Neighbor>)
    requires IsNearest(distances, k + |deleted|, read + unread)
    requires var kept := Kept(read, deleted); |kept| == k || (unread == [] && |kept| < k)
    ensures IsNearest(distances - deleted, k, Kept(read, deleted))
  {
    var kept := Kept(read, deleted);
    KeptLaws(read, deleted);
    KeptAscending(read, unread, deleted);
    OverfetchCount(distances, deleted, k, read, unread);
    OverfetchDominates(distances, deleted, k, read, unread);
    hide Kept, Ascending, NeighborIds;
    forall n | n in kept
      ensures n.id in distances - deleted && n.distance == (distances - deleted)[n.id]
    {
      assert n in read + unread;
    }
  }

  /** The count behind over-fetching, on sets of ids: `read` is what was read of the `fetched`. */
  lemma OverfetchedSets(all: set<ChunkId>, deleted: set<ChunkId>, fetched: set<ChunkId>, read: set<ChunkId>, k: nat)
    requires read <= fetched <= all
    requires |fetched| == if k + |deleted| <= |all| then k + |deleted| else |all|
    requires |read - deleted| == k || (|read - deleted| < k && read == fetched)
    ensures |read - deleted| == if k <= |all - deleted| then k else |all - deleted|
  {
    SubsetCount(read - deleted, all - deleted);
    if |read - deleted| < k {
      SubsetCount(read * deleted, deleted);
      assert read == (read - deleted) + (read * deleted);
      SubsetCount(read, all);
    }
  }

  lemma KeptIds(ns: seq<Neighbor>, deleted: set<ChunkId>)
    ensures NeighborIds(Kept(ns, deleted)) == NeighborIds(ns) - deleted
  {
    KeptLaws(ns, deleted);
    hide Kept, Ascending;
  }

  lemma KeptAscending(read: seq<Neighbor>, unread: seq<Neighbor>, deleted: set<ChunkId>)
    requires Ascending(read + unread)
    ensures Ascending(Kept(read, deleted))
  {
    var ns := read + unread;
    assert forall i :: 0 <= i < |read| ==> read[i] == ns[i];
    KeptLaws(read, deleted);
  }

  lemma OverfetchCount(distances: map<ChunkId, real>, deleted: set<ChunkId>, k: nat,
                       read: seq<Neighbor>, unread: seq<Neighbor>)
    requires IsNearest(distances, k + |deleted|, read + unread)
    requires |Kept(read, deleted)| == k || (unread == [] && |Kept(read, deleted)| < k)
    ensures |Kept(read, deleted)| == if k <= |(distances - deleted).Keys| then k else |(distances - deleted).Keys|
  {
    FetchedIds(distances, k + |deleted|, read + unread);
    KeptAscending(read, unread, deleted);
    CountOfIds(Kept(read, deleted));
    KeptIds(read, deleted);
    assert NeighborIds(read) <= NeighborIds(read + unread);
    assert unread == [] ==> read + unread == read;
    hide *;
    OverfetchedSets(distances.Keys, deleted, NeighborIds(read + unread), NeighborIds(read), k);
    assert (distances - deleted).Keys == distances.Keys - deleted;
  }

  lemma FetchedIds(distances: map<ChunkId, real>, k: nat, ns: seq<Neighbor>)
    requires IsNearest(distances, k, ns)
    ensures NeighborIds(ns) <= distances.Keys
    ensures |NeighborIds(ns)| == if k <= |distances.Keys| then k else |distances.Keys|
    ensures Ascending(ns)
  {
    CountOfIds(ns);
  }

  lemma OverfetchDominates(distances: map<ChunkId, real>, deleted: set<ChunkId>, k: nat,
                           read: seq<Neighbor>, unread: seq<Neighbor>)
    requires IsNearest(distances, k + |deleted|, read + unread)
    ensures var kept := Kept(read, deleted);
      forall id, n :: id in distances - deleted && id !in NeighborIds(kept) && n in kept ==> n.distance <= distances[id]
  {
    var ns, kept := read + unread, Kept(read, deleted);
    KeptLaws(read, deleted);
    hide Kept;
    forall id, n | id in distances - deleted && id !in NeighborIds(kept) && n in kept
      ensures n.distance <= distances[id]
    {
      var a :| 0 <= a < |read| && read[a] == n;
      assert ns[a] == n;
      if id in NeighborIds(ns) {
        var j :| 0 <= j < |ns| && ns[j].id == id;
        assert ns[j] !in read;
        assert |read| <= j;
      }
    }
  }

  lemma DistancesNext(points: seq<Point>, p: Point, query: Vector, metric: (Vector, Vector) -> real)
    ensures Distances(points + [p], query, metric) == Distances(points, query, metric)[p.id := metric(query, p.vector)]
  {
    assert (points + [p])[..|points|] == points;
  }

  lemma UpdateThenRemove(m: map<ChunkId, real>, id: ChunkId, d: real, deleted: set<ChunkId>)
    ensures m[id := d] - deleted == if id in deleted then m - deleted else (m - deleted)[id := d]
  {
  }

  lemma {:induction false} DistancesOfLive(points: seq<Point>, deleted: set<ChunkId>, query: Vector,
                                           metric: (Vector, Vector) -> real)
    ensures Distances(Live(points, deleted), query, metric) == Distances(points, query, metric) - deleted
  {
    if points != [] {
      var init, last := points[..|points| - 1], points[|points| - 1];
      var live := Live(init, deleted);
      assert Live(points, deleted) == live + if last.id in deleted then [] else [last];
      assert points == init + [last];
      hide Distances, Live;
      DistancesOfLive(init, deleted, query, metric);
      DistancesNext(init, last, query, metric);
      DistancesNext(live, last, query, metric);
      UpdateThenRemove(Distances(init, query, metric), last.id, metric(query, last.vector), deleted);
      assert live + [] == live;
    } else {
      assert Distances(points, query, metric) - deleted == map[];
    }
  }

  lemma KeptNext(read: seq<Neighbor>, n: Neighbor, deleted: set<ChunkId>)
    ensures Kept(read + [n], deleted) == Kept(read, deleted) + if n.id in deleted then [] else [n]
  {
    assert (read + [n])[..|read|] == read;
  }

  lemma KeptNothing(deleted: set<ChunkId>)
    ensures Kept([], deleted) == []
  {
  }

  /** Asked for nothing, the search finds nothing if and only if all the fetched are tombstoned. */
  lemma {:induction false} KeptNothingExactly(ns: seq<Neighbor>, deleted: set<ChunkId>)
    ensures Kept(ns, deleted) == [] <==> forall n :: n in ns ==> n.id in deleted
  {
    if ns != [] {
      var init, last := ns[..|ns| - 1], ns[|ns| - 1];
      assert ns == init + [last];
      KeptNothingExactly(init, deleted);
    }
  }

  /** A tombstone whose id has no point, then one point: asked for nothing, the search fetches that
      point and returns it. */
  lemma NothingAskedOneFound(v: Vector, query: Vector, metric: (Vector, Vector) -> real)
    ensures var s := Upserted(Tombstoned(VectorState([], {}), {9}), [Point(1, v)]);
      var ns := [Neighbor(1, metric(query, v))];
      && IsNearest(Distances(s.points, query, metric), 0 + |s.deleted|, ns)
      && Kept(ns, s.deleted) == ns
  {
    var s := Upserted(Tombstoned(VectorState([], {}), {9}), [Point(1, v)]);
    assert s == VectorState([Point(1, v)], {9});
    var ns := [Neighbor(1, metric(query, v))];
    var m := Distances(s.points, query, metric);
    DistancesNext([], Point(1, v), query, metric);
    assert [] + [Point(1, v)] == s.points;
    assert m == map[1 := metric(query, v)];
    assert m.Keys == {1} && |m| == |m.Keys|;
    KeptNext([], ns[0], s.deleted);
    assert [] + [ns[0]] == ns;
    assert ns[0] in ns;
  }

  lemma NearestLength(distances: map<ChunkId, real>, k: nat, ns: seq<Neighbor>)
    requires IsNearest(distances, k, ns)
    ensures |ns| <= k
  {
  }

  lemma KeptFromPoints(points: seq<Point>, query: Vector, metric: (Vector, Vector) -> real, k: nat,
                       deleted: set<ChunkId>, read: seq<Neighbor>, unread: seq<Neighbor>)
    requires IsNearest(Distances(points, query, metric), k, read + unread)
    ensures forall n :: n in Kept(read, deleted) ==> n.id in Ids(points) - deleted
  {
    KeptLaws(read, deleted);
    DistancesOfUnique(points, query, metric);
    assert forall n :: n in read ==> n in read + unread;
  }

  class VectorIndex {
    var points: seq<Point>
    var deletedIds: set<ChunkId>
    const metric: (Vector, Vector) -> real

    ghost function State(): VectorState
      reads this
    {
      VectorState(points, deletedIds)
    }

    constructor (metric: (Vector, Vector) -> real)
      ensures State() == VectorState([], {}) && this.metric == metric
    {
      this.metric := metric;
      points, deletedIds := [], {};
    }

    method PointCount() returns (count: nat)
      ensures count == |points|
    {
      count := |points|;
    }

    method UpsertChunks(chunks: seq<Point>)
      modifies this
      ensures State() == Upserted(old(State()), chunks)
    {
      var data: seq<Point> := [];
      for i := 0 to |chunks|
        invariant data == chunks[..i] && points == old(points)
        invariant deletedIds == old(deletedIds) - Ids(chunks[..i])
      {
        assert chunks[..i + 1] == chunks[..i] + [chunks[i]];
        deletedIds := deletedIds - {chunks[i].id};
        data := data + [chunks[i]];
      }
      assert chunks[..|chunks|] == chunks;
      points := points + data;
    }

    method DeleteChunks(chunkIds: seq<ChunkId>)
      modifies this
      ensures State() == Tombstoned(old(State()), IdSet(chunkIds))
    {
      for i := 0 to |chunkIds|
        invariant points == old(points)
        invariant deletedIds == old(deletedIds) + IdSet(chunkIds[..i])
      {
        assert chunkIds[..i + 1] == chunkIds[..i] + [chunkIds[i]];
        deletedIds := deletedIds + {chunkIds[i]};
      }
      assert chunkIds[..|chunkIds|] == chunkIds;
      var total := |points|;
      if total > 0 && |deletedIds| >= total / 4 {
        Cleanup();
      }
    }

    method Cleanup()
      modifies this
      ensures State() == Collected(old(State()))
    {
      if deletedIds == {} {
        return;
      }
      var live: seq<Point> := [];
      for i := 0 to |points|
        invariant points == old(points) && deletedIds == old(deletedIds)
        invariant live == Live(points[..i], deletedIds)
      {
        assert points[..i + 1][..i] == points[..i];
        if points[i].id !in deletedIds {
          live := live + [points[i]];
        }
      }
      assert points[..|points|] == points;
      points, deletedIds := live, {};
    }

    /** Given the graph search's answer, exact for the points in the graph, the `topK` nearest
        live points. For `topK == 0` the stop test is never met, and all the live ones among as
        many points as there are tombstones come back. */
    method Search(query: Vector, topK: nat, neighbors: seq<Neighbor>) returns (results: seq<Neighbor>)
      requires IsNearest(Distances(points, query, metric), topK + |deletedIds|, neighbors)
      ensures topK > 0 ==> IsNearest(Distances(Live(points, deletedIds), query, metric), topK, results)
      ensures topK == 0 ==> results == Kept(neighbors, deletedIds) && |results| <= |deletedIds|
      ensures topK == 0 ==> (results == [] <==> forall n :: n in neighbors ==> n.id in deletedIds)
      ensures forall n :: n in results ==> n.id in Ids(points) - deletedIds
    {
      hide IsNearest, Distances, Kept, Live, Ids;
      ghost var searchK := topK + |deletedIds|;
      results := [];
      ghost var read, unread: seq<Neighbor> := [], neighbors;
      KeptNothing(deletedIds);
      for i := 0 to |neighbors|
        invariant neighbors == read + unread && |read| == i
        invariant results == Kept(read, deletedIds) && |results| <= i
        invariant topK > 0 ==> |results| < topK
      {
        var n := neighbors[i];
        assert n == unread[0] && read + unread == read + [n] + unread[1..];
        KeptNext(read, n, deletedIds);
        read, unread := read + [n], unread[1..];
        if n.id !in deletedIds {
          results := results + [n];
          if |results| == topK {
            break;
          }
        }
      }
      KeptFromPoints(points, query, metric, searchK, deletedIds, read, unread);
      if topK > 0 {
        OverfetchIsExact(Distances(points, query, metric), deletedIds, topK, read, unread);
        DistancesOfLive(points, deletedIds, query, metric);
      } else {
        NearestLength(Distances(points, query, metric), searchK, neighbors);
        assert read == neighbors;
        KeptNothingExactly(neighbors, deletedIds);
      }
    }
  }
}
