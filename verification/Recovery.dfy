/** Rebuilding an empty vector index from the chunk rows, page by page. */
module Recovery {
  import opened Common
  import opened Utf8
  import opened Vectors
  import opened Meta
  import opened VectorRuns
  import opened Stores
  import opened Libraries

  type Embedder = seq<Bytes> -> Option<seq<Vector>>

  /** The vector is what the embedder answers for this very text, at its place in some request. */
  ghost predicate Answers(embed: Embedder, text: Bytes, v: Vector) {
    exists texts, i :: AnswersAt(embed, texts, i, text, v)
  }

  ghost predicate AnswersAt(embed: Embedder, texts: seq<Bytes>, i: nat, text: Bytes, v: Vector) {
    && i < |texts| && texts[i] == text
    && embed(texts).Some? && |embed(texts).value| == |texts| && embed(texts).value[i] == v
  }

  function PageIds(page: seq<PageRow>): set<ChunkId> {
    set r | r in page :: r.id
  }

  /** A point stands for a chunk row: it carries the row's stored embedding, or else the embedder's
      answer for the row's text. */
  ghost predicate StandsFor(chunks: map<ChunkId, ChunkRow>, embed: Embedder, p: Point) {
    && p.id in chunks
    && if chunks[p.id].embedding.Some? then p.vector == chunks[p.id].embedding.value
       else Answers(embed, chunks[p.id].text, p.vector)
  }

  /** The points are the rows of `chunks` up to `cursor`, each row exactly once. */
  ghost predicate RecoveredTo(chunks: map<ChunkId, ChunkRow>, embed: Embedder, cursor: nat, v: VectorState) {
    && UniqueIds(v.points)
    && (forall c: ChunkId :: c in Ids(v.points) <==> c in chunks && c <= cursor)
    && Ids(v.points) !! v.deleted
    && (forall p :: p in v.points ==> StandsFor(chunks, embed, p))
  }

  /** The points for a page: one for each row. */
  ghost predicate CoversPage(chunks: map<ChunkId, ChunkRow>, embed: Embedder, page: seq<PageRow>, data: seq<Point>) {
    && UniqueIds(data) && Ids(data) == PageIds(page)
    && forall p :: p in data ==> StandsFor(chunks, embed, p)
  }

  /** The points of the rows that have a stored embedding, in order. */
  function StoredOf(page: seq<PageRow>): seq<Point> {
    if page == [] then []
    else
      var last := page[|page| - 1];
      StoredOf(page[..|page| - 1]) + if last.embedding.Some? then [Point(last.id, last.embedding.value)] else []
  }

  /** The rows that have none, in order. */
  function MissingOf(page: seq<PageRow>): seq<PageRow> {
    if page == [] then []
    else
      var last := page[|page| - 1];
      MissingOf(page[..|page| - 1]) + if last.embedding.None? then [last] else []
  }

  function TextsOf(rows: seq<PageRow>): seq<Bytes> {
    seq(|rows|, i requires 0 <= i < |rows| => rows[i].text)
  }

  function PointsOf(rows: seq<PageRow>, vectors: seq<Vector>): seq<Point>
    requires |rows| == |vectors|
  {
    seq(|rows|, i requires 0 <= i < |rows| => Point(rows[i].id, vectors[i]))
  }

  /** The points for a page: stored embeddings first, then the k-th answer for the k-th row without
      one. `None` if there is such a row and the embedder fails or answers with another number. */
  function PagePoints(page: seq<PageRow>, embed: Embedder): Option<seq<Point>> {
    var missing := MissingOf(page);
    if missing == [] then Some(StoredOf(page))
    else
      var answer := embed(TextsOf(missing));
      if answer.None? || |answer.value| != |missing| then None
      else Some(StoredOf(page) + PointsOf(missing, answer.value))
  }

  predicate AnswersFully(embed: Embedder, request: seq<Bytes>) {
    embed(request).Some? && |embed(request).value| == |request|
  }

  predicate LacksAt(page: seq<PageRow>, i: nat) {
    i < |page| && page[i].embedding.None?
  }

  ghost predicate Increasing(at: seq<nat>) {
    forall j, k :: 0 <= j < k < |at| ==> at[j] < at[k]
  }

  /** The positions of a page's rows without an embedding, all of them and in order. */
  ghost predicate Lacking(page: seq<PageRow>, at: seq<nat>) {
    Increasing(at) && forall i: nat :: i in at <==> LacksAt(page, i)
  }

  ghost function TextsAt(page: seq<PageRow>, at: seq<nat>): seq<Bytes>
    requires Lacking(page, at)
  {
    seq(|at|, k requires 0 <= k < |at| => assert at[k] in at; page[at[k]].text)
  }

  /** The embedder does not answer in full when it is asked for all the texts that lack an
      embedding, of which there are some. */
  ghost predicate Refused(page: seq<PageRow>, embed: Embedder) {
    exists at :: Lacking(page, at) && at != [] && !AnswersFully(embed, TextsAt(page, at))
  }

  lemma NothingSifted()
    ensures StoredOf([]) == [] && MissingOf([]) == [] && forall page: seq<PageRow> :: page[..0] == []
  {
  }

  lemma SiftNext(init: seq<PageRow>, last: PageRow)
    ensures StoredOf(init + [last]) ==
      if last.embedding.Some? then StoredOf(init) + [Point(last.id, last.embedding.value)] else StoredOf(init)
    ensures MissingOf(init + [last]) == if last.embedding.None? then MissingOf(init) + [last] else MissingOf(init)
  {
    assert (init + [last])[..|init|] == init;
  }

  /** The points of a page. There are none if and only if the embedder refuses. */
  method VectorsOfPage(page: seq<PageRow>, embed: Embedder) returns (data: Option<seq<Point>>)
    ensures data == PagePoints(page, embed)
    ensures data.None? <==> Refused(page, embed)
  {
    NoneIfRefused(page, embed);
    hide StoredOf, MissingOf, Refused;
    var toEmbed: seq<Bytes>, ids: seq<ChunkId>, result: seq<Point> := [], [], [];
    NothingSifted();
    ghost var missing: seq<PageRow> := [];
    for i := 0 to |page|
      invariant result == StoredOf(page[..i]) && missing == MissingOf(page[..i])
      invariant toEmbed == TextsOf(missing)
      invariant |ids| == |missing| && forall k :: 0 <= k < |ids| ==> ids[k] == missing[k].id
    {
      var row := page[i];
      assert page[..i + 1] == page[..i] + [row];
      SiftNext(page[..i], row);
      if row.embedding.Some? {
        result := result + [Point(row.id, row.embedding.value)];
      } else {
        toEmbed, ids := toEmbed + [row.text], ids + [row.id];
        missing := missing + [row];
      }
    }
    assert page[..|page|] == page;
    if toEmbed != [] {
      var embeddings := embed(toEmbed);
      if embeddings.None? || |embeddings.value| != |ids| {
        return None;
      }
      ghost var stored := result;
      for i := 0 to |ids|
        invariant result == stored + PointsOf(missing, embeddings.value)[..i]
      {
        assert PointsOf(missing, embeddings.value)[i] == Point(ids[i], embeddings.value[i]);
        result := result + [Point(ids[i], embeddings.value[i])];
      }
      assert PointsOf(missing, embeddings.value)[..|ids|] == PointsOf(missing, embeddings.value);
    }
    data := Some(result);
  }

  /** `rows` are the rows of the page at the positions. */
  ghost predicate RowsAt(page: seq<PageRow>, at: seq<nat>, rows: seq<PageRow>) {
    |at| == |rows| && forall k :: 0 <= k < |at| ==> at[k] < |page| && rows[k] == page[at[k]]
  }

  lemma {:induction false} MissingPositions(page: seq<PageRow>) returns (at: seq<nat>)
    ensures Lacking(page, at) && RowsAt(page, at, MissingOf(page))
  {
    hide MissingOf, Lacking, RowsAt;
    if page == [] {
      NothingSifted();
      at := [];
      NothingLacking();
    } else {
      var init, last := page[..|page| - 1], page[|page| - 1];
      assert page == init + [last];
      at := MissingPositions(init);
      SiftNext(init, last);
      NextLacking(init, last, at, MissingOf(init));
      if last.embedding.None? {
        at := at + [|init|];
      }
    }
  }

  lemma NothingLacking()
    ensures Lacking([], []) && RowsAt([], [], [])
  {
  }

  lemma NextLacking(init: seq<PageRow>, last: PageRow, at: seq<nat>, rows: seq<PageRow>)
    requires Lacking(init, at) && RowsAt(init, at, rows)
    ensures if last.embedding.None? then
        Lacking(init + [last], at + [|init|]) && RowsAt(init + [last], at + [|init|], rows + [last])
      else Lacking(init + [last], at) && RowsAt(init + [last], at, rows)
  {
    var page := init + [last];
    assert forall i: nat :: LacksAt(page, i) <==> LacksAt(init, i) || (i == |init| && last.embedding.None?);
  }

  lemma SameEnd(a: seq<nat>, b: seq<nat>)
    requires Increasing(a) && Increasing(b) && a != [] && b != [] && forall i :: i in a <==> i in b
    ensures a[|a| - 1] == b[|b| - 1]
  {
    var x, y := a[|a| - 1], b[|b| - 1];
    assert x in a && y in b;
  }

  lemma WithoutEnd(a: seq<nat>)
    requires Increasing(a) && a != []
    ensures Increasing(a[..|a| - 1])
    ensures forall i :: i in a[..|a| - 1] <==> i in a && i != a[|a| - 1]
  {
    var front, last := a[..|a| - 1], a[|a| - 1];
    assert a == front + [last];
    assert forall i :: 0 <= i < |front| ==> front[i] < last;
  }

  lemma {:induction false} OneOrder(a: seq<nat>, b: seq<nat>)
    requires Increasing(a) && Increasing(b) && forall i :: i in a <==> i in b
    ensures a == b
  {
    hide Increasing;
    assert |a| > 0 ==> a[0] in a;
    assert |b| > 0 ==> b[0] in b;
    if a != [] {
      SameEnd(a, b);
      WithoutEnd(a);
      WithoutEnd(b);
      var a', b' := a[..|a| - 1], b[..|b| - 1];
      forall i
        ensures i in a' <==> i in b'
      {
        assert i in a <==> i in b;
      }
      OneOrder(a', b');
      assert a == a' + [a[|a| - 1]] && b == b' + [b[|b| - 1]];
    }
  }

  lemma NoneIfRefused(page: seq<PageRow>, embed: Embedder)
    ensures PagePoints(page, embed).None? <==> Refused(page, embed)
  {
    hide MissingOf, StoredOf, LacksAt, Increasing;
    var at := MissingPositions(page);
    assert TextsAt(page, at) == TextsOf(MissingOf(page));
    if Refused(page, embed) {
      var other :| Lacking(page, other) && other != [] && !AnswersFully(embed, TextsAt(page, other));
      OneOrder(at, other);
    }
  }

  // ---------------------------------------------------------------------------------
  // A page's points stand for its rows
  // ---------------------------------------------------------------------------------

  ghost predicate IncreasingIds(page: seq<PageRow>) {
    forall i, j :: 0 <= i < j < |page| ==> page[i].id < page[j].id
  }

  lemma UniqueNext(points: seq<Point>, p: Point)
    requires UniqueIds(points) && p.id !in Ids(points)
    ensures UniqueIds(points + [p]) && Ids(points + [p]) == Ids(points) + {p.id}
  {
    UniqueConcat(points, [p]);
    assert forall q :: q in points + [p] <==> q in points || q == p;
  }

  /** Sorting a page's rows into those with and those without an embedding loses none. */
  lemma {:induction false} PageSplits(page: seq<PageRow>)
    requires IncreasingIds(page)
    ensures UniqueIds(StoredOf(page)) && IncreasingIds(MissingOf(page))
    ensures Ids(StoredOf(page)) !! PageIds(MissingOf(page))
    ensures Ids(StoredOf(page)) + PageIds(MissingOf(page)) == PageIds(page)
    ensures forall r :: r in MissingOf(page) ==> r in page && r.embedding.None?
    ensures forall p :: p in StoredOf(page) ==> exists r :: r in page && r.id == p.id && r.embedding == Some(p.vector)
  {
    hide StoredOf, MissingOf, UniqueIds, Ids, PageIds;
    if page == [] {
      NothingSifted();
      NoIds();
    } else {
      var init, last := page[..|page| - 1], page[|page| - 1];
      assert page == init + [last];
      PageSplits(init);
      SiftNext(init, last);
      IdsNext(init, last);
      if last.embedding.Some? {
        UniqueNext(StoredOf(init), Point(last.id, last.embedding.value));
      } else {
        NextMissing(init, last);
      }
    }
  }

  lemma IdsNext(init: seq<PageRow>, last: PageRow)
    requires IncreasingIds(init + [last])
    ensures PageIds(init + [last]) == PageIds(init) + {last.id} && last.id !in PageIds(init)
    ensures IncreasingIds(init) && forall r :: r in init ==> r.id < last.id
  {
    var page := init + [last];
    assert forall i :: 0 <= i < |init| ==> page[i] == init[i] && page[i].id < page[|init|].id;
    assert forall r :: r in page <==> r in init || r == last;
  }

  lemma NextMissing(init: seq<PageRow>, last: PageRow)
    requires forall r :: r in init ==> r.id < last.id
    requires forall r :: r in MissingOf(init) ==> r in init
    ensures PageIds(MissingOf(init) + [last]) == PageIds(MissingOf(init)) + {last.id}
    ensures forall i :: 0 <= i < |MissingOf(init)| ==> MissingOf(init)[i].id < last.id
  {
    assert forall i :: 0 <= i < |MissingOf(init)| ==> MissingOf(init)[i] in MissingOf(init);
    hide MissingOf;
  }

  lemma AnsweredRows(rows: seq<PageRow>, vectors: seq<Vector>)
    requires |rows| == |vectors| && IncreasingIds(rows)
    ensures UniqueIds(PointsOf(rows, vectors)) && Ids(PointsOf(rows, vectors)) == PageIds(rows)
  {
    var ps := PointsOf(rows, vectors);
    forall c: ChunkId | c in PageIds(rows)
      ensures c in Ids(ps)
    {
      var i :| 0 <= i < |rows| && rows[i].id == c;
      assert ps[i].id == c;
    }
  }

  lemma AnsweredStands(chunks: map<ChunkId, ChunkRow>, embed: Embedder, rows: seq<PageRow>, p: Point)
    requires var a := embed(TextsOf(rows)); a.Some? && |a.value| == |rows| && p in PointsOf(rows, a.value)
    requires forall r :: r in rows ==> r.embedding.None? && RowOfPage(chunks, r)
    ensures StandsFor(chunks, embed, p)
  {
    var texts := TextsOf(rows);
    var i :| 0 <= i < |rows| && PointsOf(rows, embed(texts).value)[i] == p;
    assert rows[i] in rows;
    assert AnswersAt(embed, texts, i, rows[i].text, p.vector);
  }

  ghost predicate RowOfPage(chunks: map<ChunkId, ChunkRow>, r: PageRow) {
    r.id in chunks && r.text == chunks[r.id].text && r.embedding == chunks[r.id].embedding
  }

  /** The points of a page, if there are any, stand for its rows, one each. */
  lemma PagePointsCover(chunks: map<ChunkId, ChunkRow>, embed: Embedder, page: seq<PageRow>)
    requires IncreasingIds(page) && forall r :: r in page ==> RowOfPage(chunks, r)
    ensures PagePoints(page, embed).Some? ==> CoversPage(chunks, embed, page, PagePoints(page, embed).value)
    ensures PagePoints(page, embed).None? ==> exists r :: r in page && r.embedding.None?
  {
    var missing := MissingOf(page);
    PageSplits(page);
    hide StoredOf, MissingOf, UniqueIds, Ids, PageIds, StandsFor, TextsOf;
    forall p | p in StoredOf(page)
      ensures StandsFor(chunks, embed, p)
    {
      StoredStands(chunks, embed, page, p);
    }
    if missing == [] {
      NoIds();
      assert Ids(StoredOf(page)) + {} == Ids(StoredOf(page));
    } else {
      assert missing[0] in missing;
      var answer := embed(TextsOf(missing));
      if answer.Some? && |answer.value| == |missing| {
        var answered := PointsOf(missing, answer.value);
        AnsweredRows(missing, answer.value);
        forall p | p in answered
          ensures StandsFor(chunks, embed, p)
        {
          AnsweredStands(chunks, embed, missing, p);
        }
        hide PointsOf;
        UniqueConcat(StoredOf(page), answered);
        IdsOfConcat(StoredOf(page), answered);
      }
    }
  }

  lemma StoredStands(chunks: map<ChunkId, ChunkRow>, embed: Embedder, page: seq<PageRow>, p: Point)
    requires forall r :: r in page ==> RowOfPage(chunks, r)
    requires exists r :: r in page && r.id == p.id && r.embedding == Some(p.vector)
    ensures StandsFor(chunks, embed, p)
  {
  }

  lemma NoIds()
    ensures PageIds([]) == {} && Ids([]) == {} && UniqueIds([])
  {
  }

  lemma IdsOfConcat(a: seq<Point>, b: seq<Point>)
    ensures Ids(a + b) == Ids(a) + Ids(b)
  {
    assert forall p :: p in a + b <==> p in a || p in b;
  }

  lemma PageSpan(chunks: map<ChunkId, ChunkRow>, cursor: nat, limit: nat, page: seq<PageRow>)
    requires IsPage(chunks, cursor, limit, page) && page != []
    ensures forall c: ChunkId :: c in PageIds(page) <==> c in chunks && cursor < c <= page[|page| - 1].id
  {
    var last := page[|page| - 1];
    forall r | r in page
      ensures r.id in chunks && cursor < r.id <= last.id
    {
      var i :| 0 <= i < |page| && page[i] == r;
    }
    forall c: ChunkId | c in chunks && cursor < c <= last.id
      ensures c in PageIds(page)
    {
      assert last in page;
    }
  }

  /** The next page, upserted, carries the recovery on to the page's last id. */
  lemma RecoverPage(chunks: map<ChunkId, ChunkRow>, embed: Embedder, cursor: nat, limit: nat, page: seq<PageRow>,
                    data: seq<Point>, v: VectorState)
    requires RecoveredTo(chunks, embed, cursor, v) && IsPage(chunks, cursor, limit, page)
    requires CoversPage(chunks, embed, page, data)
    requires page != []
    ensures RecoveredTo(chunks, embed, page[|page| - 1].id, Upserted(v, data))
    ensures cursor < page[|page| - 1].id && page[|page| - 1].id in chunks
  {
    PageSpan(chunks, cursor, limit, page);
    UpsertedLaws(v, data);
    UniqueConcat(v.points, data);
    assert page[|page| - 1].id in PageIds(page);
    hide UniqueIds, Ids, LiveIds, IsPage, PageIds;
  }

  lemma NothingRecovered(chunks: map<ChunkId, ChunkRow>, embed: Embedder, deleted: set<ChunkId>)
    requires forall c :: c in chunks ==> 1 <= c
    ensures RecoveredTo(chunks, embed, 0, VectorState([], deleted))
  {
  }

  /** After an empty page every row has been recovered. */
  lemma RecoveredAll(chunks: map<ChunkId, ChunkRow>, embed: Embedder, cursor: nat, limit: nat, v: VectorState)
    requires RecoveredTo(chunks, embed, cursor, v) && IsPage(chunks, cursor, limit, []) && limit >= 1
    ensures LiveIds(v) == chunks.Keys && UniqueIds(v.points) && |v.points| == |chunks|
    ensures forall p :: p in v.points ==> StandsFor(chunks, embed, p)
  {
    hide UniqueIds;
    assert Ids(v.points) == chunks.Keys;
    CountOfPoints(v.points);
  }

  /** Backfills an empty vector index from the chunk rows. On success every chunk row is live
      under exactly one point, whatever mix of stored and missing embeddings the pages have; on
      an embedder failure the index holds a part of the rows. A non-empty index is left alone. */
  method RecoverEmptyVectorIndex(meta: MetaStore, vector: VectorIndex, batchSize: nat, embed: Embedder)
    returns (ok: bool)
    requires WellFormed(meta.tables)
    modifies vector
    ensures old(vector.points) != [] ==> ok && vector.State() == old(vector.State())
    ensures ok && old(vector.points) == [] ==>
      && LiveIds(vector.State()) == meta.tables.chunks.Keys
      && UniqueIds(vector.points) && |vector.points| == |meta.tables.chunks|
    ensures old(vector.points) == [] ==> forall p :: p in vector.points ==> StandsFor(meta.tables.chunks, embed, p)
    ensures !ok ==>
      && LiveIds(vector.State()) <= meta.tables.chunks.Keys && UniqueIds(vector.points)
      && exists c :: c in meta.tables.chunks && meta.tables.chunks[c].embedding.None?
    ensures !ok ==> exists request: seq<Bytes> ::
      && request != [] && (forall text :: text in request ==> LacksEmbedding(meta.tables.chunks, text))
      && (embed(request).None? || |embed(request).value| != |request|)
    ensures (forall request: seq<Bytes> :: embed(request).Some? && |embed(request).value| == |request|) ==> ok
  {
    ghost var chunks := meta.tables.chunks;
    hide RecoveredTo, IsPage, CoversPage;
    var chunkCount := meta.CountChunks();
    var points := vector.PointCount();
    if chunkCount == 0 || points > 0 {
      return true;
    }
    hide *;
    var limit := if batchSize >= 1 then batchSize else 1;
    var cursor := 0;
    NothingRecovered(chunks, embed, vector.deletedIds);
    while true
      invariant meta.tables.chunks == chunks && RecoveredTo(chunks, embed, cursor, vector.State())
      invariant cursor <= meta.tables.chunkSeq
      decreases meta.tables.chunkSeq - cursor
    {
      var page := meta.GetChunksWithEmbeddingsAfter(cursor, limit);
      if page == [] {
        RecoveredAll(chunks, embed, cursor, limit, vector.State());
        return true;
      }
      var data := VectorsOfPage(page, embed);
      PageRows(chunks, cursor, limit, page);
      PagePointsCover(chunks, embed, page);
      if data.None? {
        MissingRow(chunks, page);
        RefusedRequest(chunks, page, embed);
        RecoveredPart(chunks, embed, cursor, vector.State());
        return false;
      }
      RecoverPage(chunks, embed, cursor, limit, page, data.value, vector.State());
      vector.UpsertChunks(data.value);
      cursor := page[|page| - 1].id;
    }
  }

  lemma RecoveredPart(chunks: map<ChunkId, ChunkRow>, embed: Embedder, cursor: nat, v: VectorState)
    requires RecoveredTo(chunks, embed, cursor, v)
    ensures LiveIds(v) <= chunks.Keys && UniqueIds(v.points)
    ensures forall p :: p in v.points ==> StandsFor(chunks, embed, p)
  {
  }

  lemma PageRows(chunks: map<ChunkId, ChunkRow>, cursor: nat, limit: nat, page: seq<PageRow>)
    requires IsPage(chunks, cursor, limit, page)
    ensures IncreasingIds(page) && forall r :: r in page ==> RowOfPage(chunks, r)
  {
  }

  /** The text is one of a chunk row without an embedding. */
  ghost predicate LacksEmbedding(chunks: map<ChunkId, ChunkRow>, text: Bytes) {
    exists c :: c in chunks && chunks[c].embedding.None? && chunks[c].text == text
  }

  lemma RefusedRequest(chunks: map<ChunkId, ChunkRow>, page: seq<PageRow>, embed: Embedder)
    requires Refused(page, embed) && forall r :: r in page ==> RowOfPage(chunks, r)
    ensures exists request: seq<Bytes> ::
      && request != [] && (forall text :: text in request ==> LacksEmbedding(chunks, text))
      && (embed(request).None? || |embed(request).value| != |request|)
  {
    var at :| Lacking(page, at) && at != [] && !AnswersFully(embed, TextsAt(page, at));
    var request := TextsAt(page, at);
    forall text | text in request
      ensures LacksEmbedding(chunks, text)
    {
      var k :| 0 <= k < |at| && request[k] == text;
      assert at[k] in at;
      var row := page[at[k]];
      assert row in page && RowOfPage(chunks, row);
      assert chunks[row.id].text == text;
    }
    assert |request| == |at|;
  }

  lemma MissingRow(chunks: map<ChunkId, ChunkRow>, page: seq<PageRow>)
    requires forall r :: r in page ==> RowOfPage(chunks, r)
    requires exists r :: r in page && r.embedding.None?
    ensures exists c :: c in chunks && chunks[c].embedding.None?
  {
  }

  /** Whatever a recovery got to, the stores are in order with its index. */
  lemma RecoveryKeepsCore(s: Stores, embed: Embedder, v: VectorState)
    requires Core(s) && UniqueIds(v.points) && forall p :: p in v.points ==> StandsFor(s.tables.chunks, embed, p)
    ensures Core(s.(vector := v))
  {
    hide FileIds, Answers;
  }

  /** After a full recovery the live vectors are the stored embeddings if and only if no chunk row
      lacked one: a new embedding goes into the index and not into the row. */
  lemma RecoveryAgreesExactly(s: Stores, embed: Embedder, v: VectorState)
    requires Core(s) && UniqueIds(v.points) && LiveIds(v) == s.tables.chunks.Keys
    requires forall p :: p in v.points ==> StandsFor(s.tables.chunks, embed, p)
    ensures Agrees(s.(vector := v)) <==> forall c :: c in s.tables.chunks ==> s.tables.chunks[c].embedding.Some?
  {
    RecoveryKeepsCore(s, embed, v);
    hide Core, UniqueIds, LiveIds, Answers;
    var m := EmbeddingsOf(s.tables.chunks);
    if m.Keys == s.tables.chunks.Keys {
      assert forall c :: c in s.tables.chunks ==> c in m;
    }
  }
}
