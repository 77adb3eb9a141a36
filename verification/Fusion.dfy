/** Reciprocal rank fusion of lexical and semantic hits, over exact reals. */
module Fusion {
  import opened Common
  import opened Sorting

  datatype MatchReason = NameMatch | PathMatch | ContentMatch | SemanticMatch | MetadataMatch

  datatype SearchResult = SearchResult(id: DocId, path: Path, title: string, snippet: string, score: real,
    reasons: seq<MatchReason>)

  // ---------------------------------------------------------------------------------
  // The score of a document
  // ---------------------------------------------------------------------------------

  function Reciprocal(rank: nat): (r: real)
    ensures r > 0.0
  {
    1.0 / (60.0 + rank as real)
  }

  function Docs(hits: seq<SearchResult>): set<DocId> {
    set h | h in hits :: h.id
  }

  /** The sum of the reciprocal ranks of a document's hits. */
  function RankSum(hits: seq<SearchResult>, id: DocId): real {
    if hits == [] then 0.0
    else
      var n := |hits| - 1;
      RankSum(hits[..n], id) + if hits[n].id == id then Reciprocal(n) else 0.0
  }

  /** The first lexical hit of a document counts twice: it sets the score and adds to it. */
  function LexicalScore(hits: seq<SearchResult>, id: DocId): real {
    if hits == [] then 0.0
    else
      var n := |hits| - 1;
      LexicalScore(hits[..n], id) +
      if hits[n].id != id then 0.0
      else if id in Docs(hits[..n]) then Reciprocal(n)
      else Reciprocal(n) + Reciprocal(n)
  }

  function Score(lexical: seq<SearchResult>, semantic: seq<SearchResult>, id: DocId): real {
    LexicalScore(lexical, id) + RankSum(semantic, id)
  }

  /** The hit of a document that supplies path, title and snippet: the first one. */
  function FirstHit(hits: seq<SearchResult>, id: DocId): Option<SearchResult> {
    if hits == [] then None
    else
      var n := |hits| - 1;
      var before := FirstHit(hits[..n], id);
      if before.Some? || hits[n].id != id then before else Some(hits[n])
  }

  /** A document's result: text and reasons of its first lexical hit, with the semantic reason
      added if it has a semantic hit too, or else of its first semantic hit. */
  function FusedResult(lexical: seq<SearchResult>, semantic: seq<SearchResult>, id: DocId): Option<SearchResult> {
    var first, also := FirstHit(lexical, id), FirstHit(semantic, id);
    var score := Score(lexical, semantic, id);
    if first.Some? then
      var reasons := first.value.reasons;
      Some(first.value.(score := score,
        reasons := if also.Some? && SemanticMatch !in reasons then reasons + [SemanticMatch] else reasons))
    else if also.Some? then Some(also.value.(score := score, reasons := [SemanticMatch]))
    else None
  }

  lemma {:induction false} FirstHitLaws(hits: seq<SearchResult>, id: DocId)
    ensures FirstHit(hits, id).Some? <==> id in Docs(hits)
    ensures FirstHit(hits, id).Some? ==> FirstHit(hits, id).value.id == id && FirstHit(hits, id).value in hits
    ensures id !in Docs(hits) ==> RankSum(hits, id) == 0.0 && LexicalScore(hits, id) == 0.0
    ensures id in Docs(hits) ==> LexicalScore(hits, id) >= RankSum(hits, id) > 0.0
  {
    if hits != [] {
      var n := |hits| - 1;
      FirstHitLaws(hits[..n], id);
      assert hits == hits[..n] + [hits[n]];
      hide Reciprocal;
    }
  }

  /** The rank of a document's first hit. */
  function FirstRank(hits: seq<SearchResult>, id: DocId): (r: nat)
    requires id in Docs(hits)
    ensures r < |hits| && hits[r].id == id
    ensures forall i :: 0 <= i < r ==> hits[i].id != id
  {
    var n := |hits| - 1;
    assert hits == hits[..n] + [hits[n]];
    if id in Docs(hits[..n]) then FirstRank(hits[..n], id)
    else n
  }

  /** The lexical part of a score is the rank sum and the reciprocal rank of the first hit once
      more. It is the plain rank sum if and only if the document has no lexical hit. */
  lemma {:induction false} FirstHitCountsTwice(hits: seq<SearchResult>, id: DocId)
    ensures LexicalScore(hits, id) == RankSum(hits, id) + if id in Docs(hits) then Reciprocal(FirstRank(hits, id))
      else 0.0
    ensures LexicalScore(hits, id) == RankSum(hits, id) <==> id !in Docs(hits)
  {
    hide Reciprocal;
    if hits != [] {
      var n := |hits| - 1;
      assert hits == hits[..n] + [hits[n]];
      FirstHitCountsTwice(hits[..n], id);
    }
  }

  // ---------------------------------------------------------------------------------
  // The two loops
  // ---------------------------------------------------------------------------------

  /** The map holds the fused results of the hits read so far. */
  ghost predicate Holds(m: map<DocId, SearchResult>, lexical: seq<SearchResult>, semantic: seq<SearchResult>) {
    forall id :: Lookup(m, id) == FusedResult(lexical, semantic, id)
  }

  lemma HitNext(hits: seq<SearchResult>, hit: SearchResult, id: DocId)
    ensures FirstHit(hits + [hit], id) ==
      if FirstHit(hits, id).Some? || hit.id != id then FirstHit(hits, id) else Some(hit)
    ensures RankSum(hits + [hit], id) == RankSum(hits, id) + if hit.id == id then Reciprocal(|hits|) else 0.0
    ensures LexicalScore(hits + [hit], id) == LexicalScore(hits, id) +
      if hit.id != id then 0.0
      else if FirstHit(hits, id).Some? then Reciprocal(|hits|)
      else Reciprocal(|hits|) + Reciprocal(|hits|)
  {
    hide Reciprocal;
    assert (hits + [hit])[..|hits|] == hits;
    FirstHitLaws(hits, id);
  }

  function LexicalEntry(m: map<DocId, SearchResult>, hit: SearchResult, score: real): SearchResult {
    var entry := if hit.id in m then m[hit.id] else hit.(score := score);
    entry.(score := entry.score + score)
  }

  function SemanticEntry(m: map<DocId, SearchResult>, hit: SearchResult, score: real): SearchResult {
    if hit.id in m then
      var entry := m[hit.id];
      entry.(score := entry.score + score,
             reasons := if SemanticMatch in entry.reasons then entry.reasons else entry.reasons + [SemanticMatch])
    else hit.(score := score, reasons := [SemanticMatch])
  }

  lemma LexicalStep(m: map<DocId, SearchResult>, lexical: seq<SearchResult>, hit: SearchResult)
    requires Holds(m, lexical, [])
    ensures Holds(m[hit.id := LexicalEntry(m, hit, Reciprocal(|lexical|))], lexical + [hit], [])
  {
    hide RankSum, LexicalScore, Reciprocal;
    var v := LexicalEntry(m, hit, Reciprocal(|lexical|));
    forall id
      ensures Lookup(m[hit.id := v], id) == FusedResult(lexical + [hit], [], id)
    {
      HitNext(lexical, hit, id);
      FirstHitLaws(lexical, id);
      NoSemantic(id);
      assert Lookup(m, id) == FusedResult(lexical, [], id);
    }
  }

  lemma NoSemantic(id: DocId)
    ensures RankSum([], id) == 0.0 && FirstHit([], id) == None
  {
  }

  lemma NoHit(hits: seq<SearchResult>, id: DocId)
    requires FirstHit(hits, id).None?
    ensures RankSum(hits, id) == 0.0 && LexicalScore(hits, id) == 0.0
  {
    FirstHitLaws(hits, id);
  }

  lemma SemanticStep(m: map<DocId, SearchResult>, lexical: seq<SearchResult>, semantic: seq<SearchResult>,
                     hit: SearchResult)
    requires Holds(m, lexical, semantic)
    ensures Holds(m[hit.id := SemanticEntry(m, hit, Reciprocal(|semantic|))], lexical, semantic + [hit])
  {
    hide RankSum, LexicalScore, Reciprocal, FirstHit;
    var v := SemanticEntry(m, hit, Reciprocal(|semantic|));
    forall id
      ensures Lookup(m[hit.id := v], id) == FusedResult(lexical, semantic + [hit], id)
    {
      HitNext(semantic, hit, id);
      if FirstHit(lexical, id).None? {
        NoHit(lexical, id);
      }
      if FirstHit(semantic, id).None? {
        NoHit(semantic, id);
      }
      assert Lookup(m, id) == FusedResult(lexical, semantic, id);
    }
  }

  // ---------------------------------------------------------------------------------
  // The ranking
  // ---------------------------------------------------------------------------------

  predicate ScoresHigher(a: SearchResult, b: SearchResult) {
    a.score >= b.score
  }

  /** The ids of the first `n` results. */
  function TopIds(results: seq<SearchResult>, n: nat): set<DocId>
    requires n <= |results|
  {
    set k | 0 <= k < n :: results[k].id
  }

  /** Distinct documents with their fused results, best first, as many as asked for, and no
      document left out scores above one listed. */
  ghost predicate IsRanking(lexical: seq<SearchResult>, semantic: seq<SearchResult>, limit: nat,
                            results: seq<SearchResult>) {
    var docs := Docs(lexical) + Docs(semantic);
    && |results| == (if limit <= |docs| then limit else |docs|)
    && (forall i :: 0 <= i < |results| ==> FusedResult(lexical, semantic, results[i].id) == Some(results[i]))
    && (forall i, j :: 0 <= i < j < |results| ==>
          results[i].id != results[j].id && results[i].score >= results[j].score)
    && (forall id, i :: id in docs && id !in TopIds(results, |results|) && 0 <= i < |results| ==>
          Score(lexical, semantic, id) <= results[i].score)
  }

  lemma FusedResultLaws(lexical: seq<SearchResult>, semantic: seq<SearchResult>, id: DocId)
    ensures FusedResult(lexical, semantic, id).Some? <==> id in Docs(lexical) + Docs(semantic)
    ensures FusedResult(lexical, semantic, id).Some? ==>
      FusedResult(lexical, semantic, id).value.id == id
      && FusedResult(lexical, semantic, id).value.score == Score(lexical, semantic, id)
  {
    FirstHitLaws(lexical, id);
    FirstHitLaws(semantic, id);
    hide LexicalScore, RankSum;
  }

  /** The hit at rank `k` is the document's first one. */
  predicate FirstAt(hits: seq<SearchResult>, id: DocId, k: nat) {
    k < |hits| && hits[k].id == id && forall i :: 0 <= i < k ==> hits[i].id != id
  }

  lemma {:induction false} FirstHitAt(hits: seq<SearchResult>, id: DocId) returns (k: nat)
    requires id in Docs(hits)
    ensures FirstAt(hits, id, k) && FirstHit(hits, id) == Some(hits[k])
  {
    assert hits != [];
    var front, n := hits[..|hits| - 1], |hits| - 1;
    assert hits == front + [hits[n]];
    FirstHitLaws(front, id);
    hide RankSum, LexicalScore;
    if id in Docs(front) {
      k := FirstHitAt(front, id);
    } else {
      k := n;
      assert forall i :: 0 <= i < n ==> hits[i] == front[i] && front[i] in front;
    }
  }

  predicate SameText(r: SearchResult, hit: SearchResult) {
    r.path == hit.path && r.title == hit.title && r.snippet == hit.snippet
  }

  /** A listed document shows the text of its lowest-ranked lexical hit, with the reasons of that hit
      and, if it has a semantic hit too, the semantic reason once; without a lexical hit it shows
      its lowest-ranked semantic one, for the semantic reason only. */
  ghost predicate ShowsHits(lexical: seq<SearchResult>, semantic: seq<SearchResult>, r: SearchResult) {
    if r.id in Docs(lexical) then
      exists k: nat :: FirstAt(lexical, r.id, k) && SameText(r, lexical[k]) && r.reasons == lexical[k].reasons +
        if r.id in Docs(semantic) && SemanticMatch !in lexical[k].reasons then [SemanticMatch] else []
    else
      exists k: nat :: FirstAt(semantic, r.id, k) && SameText(r, semantic[k]) && r.reasons == [SemanticMatch]
  }

  lemma FusedShowsHits(lexical: seq<SearchResult>, semantic: seq<SearchResult>, id: DocId, r: SearchResult)
    requires FusedResult(lexical, semantic, id) == Some(r)
    ensures ShowsHits(lexical, semantic, r)
  {
    hide FirstHit, Score, FirstAt;
    FirstHitLaws(lexical, id);
    FirstHitLaws(semantic, id);
    var _ := FirstHitAt(if id in Docs(lexical) then lexical else semantic, id);
  }

  /** Every ranking shows of each document it lists what its hits say. */
  lemma RankingShowsHits(lexical: seq<SearchResult>, semantic: seq<SearchResult>, limit: nat,
                         results: seq<SearchResult>)
    requires IsRanking(lexical, semantic, limit, results)
    ensures forall r :: r in results ==>
      ShowsHits(lexical, semantic, r) && r.score == Score(lexical, semantic, r.id)
  {
    hide FusedResult, ShowsHits, Score;
    forall r | r in results
      ensures ShowsHits(lexical, semantic, r) && r.score == Score(lexical, semantic, r.id)
    {
      var i :| 0 <= i < |results| && results[i] == r;
      FusedResultLaws(lexical, semantic, r.id);
      FusedShowsHits(lexical, semantic, r.id, r);
    }
  }

  /** In numbers: without hits the score is zero, and a hit behind `n` others of its list adds
      1 / (60 + n) to its document's score, twice that for the first lexical one, and nothing to
      any other's. */
  lemma ScoreInNumbers(lexical: seq<SearchResult>, semantic: seq<SearchResult>, hit: SearchResult, id: DocId)
    ensures Score([], [], id) == 0.0
    ensures Score(lexical + [hit], semantic, id) == Score(lexical, semantic, id) +
      if hit.id != id then 0.0
      else if exists k :: FirstAt(lexical, id, k) then 1.0 / (60.0 + |lexical| as real)
      else 2.0 / (60.0 + |lexical| as real)
    ensures Score(lexical, semantic + [hit], id) == Score(lexical, semantic, id) +
      if hit.id == id then 1.0 / (60.0 + |semantic| as real) else 0.0
  {
    hide Reciprocal, FirstHit, RankSum, LexicalScore, Docs;
    NoScore(id);
    HitNext(lexical, hit, id);
    HitNext(semantic, hit, id);
    FirstHitLaws(lexical, id);
    HasFirst(lexical, id);
    ReciprocalIs(|lexical|);
    ReciprocalIs(|semantic|);
  }

  lemma HasFirst(hits: seq<SearchResult>, id: DocId)
    ensures id in Docs(hits) <==> exists k :: FirstAt(hits, id, k)
  {
    if id in Docs(hits) {
      var _ := FirstHitAt(hits, id);
    } else {
      assert forall k :: 0 <= k < |hits| ==> hits[k] in hits;
    }
  }

  lemma ReciprocalIs(n: nat)
    ensures Reciprocal(n) == 1.0 / (60.0 + n as real)
    ensures Reciprocal(n) + Reciprocal(n) == 2.0 / (60.0 + n as real)
  {
  }

  lemma NoScore(id: DocId)
    ensures RankSum([], id) == 0.0 && LexicalScore([], id) == 0.0
  {
  }

  lemma HigherIsPreorder()
    ensures TotalPreorder(ScoresHigher)
  {
  }

  lemma FusedKeys(m: map<DocId, SearchResult>, lexical: seq<SearchResult>, semantic: seq<SearchResult>)
    requires Holds(m, lexical, semantic)
    ensures m.Keys == Docs(lexical) + Docs(semantic)
    ensures forall id :: id in m ==> m[id].id == id && m[id].score == Score(lexical, semantic, id)
  {
    hide FusedResult, Docs, Score;
    forall id
      ensures id in m <==> id in Docs(lexical) + Docs(semantic)
      ensures id in m ==> m[id].id == id && m[id].score == Score(lexical, semantic, id)
    {
      FusedResultLaws(lexical, semantic, id);
      assert Lookup(m, id) == FusedResult(lexical, semantic, id);
    }
  }

  /** The values of a hash map, in any order. */
  method Values(m: map<DocId, SearchResult>) returns (values: seq<SearchResult>)
    requires forall id :: id in m ==> m[id].id == id
    ensures |values| == |m| && Distinct(values)
    ensures forall r :: r in values <==> r.id in m && m[r.id] == r
  {
    hide Distinct;
    values := [];
    var rest := m.Keys;
    NothingTwice<SearchResult>();
    while rest != {}
      invariant rest <= m.Keys && |values| + |rest| == |m.Keys| && Distinct(values)
      invariant forall r :: r in values <==> r.id in m && r.id !in rest && m[r.id] == r
      decreases rest
    {
      var id :| id in rest;
      AppendDistinct(values, m[id]);
      values, rest := values + [m[id]], rest - {id};
    }
  }

  /** What is cut off scores no higher than what is kept. */
  lemma CutOffIsLower(m: map<DocId, SearchResult>, all: seq<SearchResult>, results: seq<SearchResult>,
                      rest: seq<SearchResult>,
                      id: DocId, i: nat)
    requires all == results + rest && Sorted(all, ScoresHigher)
    requires id in m && m[id].id == id && m[id] in all && id !in TopIds(results, |results|) && i < |results|
    ensures m[id].score <= results[i].score
  {
    var j :| 0 <= j < |all| && all[j] == m[id];
    assert forall x :: 0 <= x < |results| ==> all[x] == results[x] && results[x].id in TopIds(results, |results|);
    assert ScoresHigher(all[i], all[j]);
  }

  lemma AllOrdered(m: map<DocId, SearchResult>, all: seq<SearchResult>)
    requires Distinct(all) && Sorted(all, ScoresHigher)
    requires forall r :: r in all <==> r.id in m && m[r.id] == r
    ensures forall i :: 0 <= i < |all| ==> all[i].id in m && m[all[i].id] == all[i]
    ensures forall i, j :: 0 <= i < j < |all| ==> all[i].id != all[j].id && all[i].score >= all[j].score
  {
    forall i | 0 <= i < |all|
      ensures all[i].id in m && m[all[i].id] == all[i]
    {
      assert all[i] in all;
    }
    forall i, j | 0 <= i < j < |all|
      ensures all[i].id != all[j].id && all[i].score >= all[j].score
    {
      assert ScoresHigher(all[i], all[j]);
    }
  }

  /** A map's values, each once, best first. */
  ghost predicate Arranged(m: map<DocId, SearchResult>, all: seq<SearchResult>) {
    && |all| == |m| && Distinct(all) && Sorted(all, ScoresHigher)
    && forall r :: r in all <==> r.id in m && m[r.id] == r
  }

  /** Whatever is kept of a descending arrangement of the fused results is fused and ordered. */
  lemma KeptIsFused(m: map<DocId, SearchResult>, lexical: seq<SearchResult>, semantic: seq<SearchResult>,
                    results: seq<SearchResult>, rest: seq<SearchResult>)
    requires Holds(m, lexical, semantic)
    requires Distinct(results + rest) && Sorted(results + rest, ScoresHigher)
    requires forall r :: r in results + rest <==> r.id in m && m[r.id] == r
    ensures forall i :: 0 <= i < |results| ==> FusedResult(lexical, semantic, results[i].id) == Some(results[i])
    ensures forall i, j :: 0 <= i < j < |results| ==>
      results[i].id != results[j].id && results[i].score >= results[j].score
  {
    hide FusedResult, Sorted, Distinct;
    var all := results + rest;
    AllOrdered(m, all);
    forall i | 0 <= i < |results|
      ensures FusedResult(lexical, semantic, results[i].id) == Some(results[i])
    {
      assert all[i] == results[i];
      assert Lookup(m, all[i].id) == Some(results[i]);
    }
    forall i, j | 0 <= i < j < |results|
      ensures results[i].id != results[j].id && results[i].score >= results[j].score
    {
      assert all[i] == results[i] && all[j] == results[j];
    }
  }

  lemma RestIsLower(m: map<DocId, SearchResult>, docs: set<DocId>, results: seq<SearchResult>, rest: seq<SearchResult>)
    requires Sorted(results + rest, ScoresHigher)
    requires forall r :: r in results + rest <==> r.id in m && m[r.id] == r
    requires m.Keys == docs && forall id :: id in m ==> m[id].id == id
    ensures forall id, i :: id in docs && id !in TopIds(results, |results|) && 0 <= i < |results| ==>
      m[id].score <= results[i].score
  {
    hide Sorted, TopIds;
    forall id, i | id in docs && id !in TopIds(results, |results|) && 0 <= i < |results|
      ensures m[id].score <= results[i].score
    {
      CutOffIsLower(m, results + rest, results, rest, id, i);
    }
  }

  /** A descending arrangement of the fused results, cut off at the limit, is a ranking. */
  lemma CutIsRanking(m: map<DocId, SearchResult>, lexical: seq<SearchResult>, semantic: seq<SearchResult>, limit: nat,
                     results: seq<SearchResult>, rest: seq<SearchResult>)
    requires Holds(m, lexical, semantic)
    requires Arranged(m, results + rest) && |results| == if limit <= |m| then limit else |m|
    ensures IsRanking(lexical, semantic, limit, results)
  {
    hide FusedResult, Docs, Score, TopIds, Sorted, Distinct, Holds;
    KeptIsFused(m, lexical, semantic, results, rest);
    FusedKeys(m, lexical, semantic);
    RestIsLower(m, Docs(lexical) + Docs(semantic), results, rest);
    assert |m| == |m.Keys|;
  }

  /** The fused map's values, best first. */
  method SortedValues(fused: map<DocId, SearchResult>) returns (sorted: seq<SearchResult>)
    requires forall id :: id in fused ==> fused[id].id == id
    ensures |sorted| == |fused| && Arranged(fused, sorted)
  {
    hide Distinct, Sorted, ScoresHigher, TotalPreorder;
    var values := Values(fused);
    HigherIsPreorder();
    sorted := SortBy(values, ScoresHigher);
    Reordered(values, sorted);
  }

  /** Sorting by score and truncating gives a ranking. */
  method RankFused(fused: map<DocId, SearchResult>, ghost lexical: seq<SearchResult>,
                   ghost semantic: seq<SearchResult>, limit: nat)
    returns (results: seq<SearchResult>)
    requires Holds(fused, lexical, semantic)
    ensures IsRanking(lexical, semantic, limit, results)
  {
    hide *;
    FusedKeys(fused, lexical, semantic);
    results := SortedValues(fused);
    ghost var rest := [];
    assert results + [] == results;
    if |results| > limit {
      assert results[..limit] + results[limit..] == results;
      results, rest := results[..limit], results[limit..];
    }
    CutIsRanking(fused, lexical, semantic, limit, results, rest);
  }

  /** The fused ranking of the two hit lists, whatever order the hash map gives its values in. */
  method CombineAndRank(lexical: seq<SearchResult>, semantic: seq<SearchResult>,
                        limit: nat) returns (results: seq<SearchResult>)
    ensures IsRanking(lexical, semantic, limit, results)
  {
    hide Holds, IsRanking, FusedResult, Distinct, Sorted;
    var fused: map<DocId, SearchResult> := map[];
    NothingFused();
    for rank := 0 to |lexical|
      invariant Holds(fused, lexical[..rank], [])
    {
      var hit := lexical[rank];
      var score := 1.0 / (60.0 + rank as real);
      LexicalStep(fused, lexical[..rank], hit);
      assert lexical[..rank + 1] == lexical[..rank] + [hit];
      var entry := if hit.id in fused then fused[hit.id] else hit.(score := score);
      fused := fused[hit.id := entry.(score := entry.score + score)];
    }
    assert lexical[..|lexical|] == lexical;
    for rank := 0 to |semantic|
      invariant Holds(fused, lexical, semantic[..rank])
    {
      var hit := semantic[rank];
      var score := 1.0 / (60.0 + rank as real);
      SemanticStep(fused, lexical, semantic[..rank], hit);
      assert semantic[..rank + 1] == semantic[..rank] + [hit];
      if hit.id in fused {
        var entry := fused[hit.id].(score := fused[hit.id].score + score);
        if SemanticMatch !in entry.reasons {
          entry := entry.(reasons := entry.reasons + [SemanticMatch]);
        }
        fused := fused[hit.id := entry];
      } else {
        fused := fused[hit.id := hit.(score := score, reasons := [SemanticMatch])];
      }
    }
    assert semantic[..|semantic|] == semantic;
    results := RankFused(fused, lexical, semantic, limit);
  }

  lemma NothingFused()
    ensures Holds(map[], [], [])
    ensures forall hits: seq<SearchResult> :: hits[..0] == []
  {
  }

  // ---------------------------------------------------------------------------------
  // Fairness of the ranking
  // ---------------------------------------------------------------------------------

  ghost predicate OnlyAt(hits: seq<SearchResult>, id: DocId, rank: nat) {
    && rank < |hits| && hits[rank].id == id
    && forall i :: 0 <= i < |hits| && i != rank ==> hits[i].id != id
  }

  lemma {:induction false} SingleHit(hits: seq<SearchResult>, id: DocId, rank: nat)
    requires OnlyAt(hits, id, rank)
    ensures RankSum(hits, id) == Reciprocal(rank)
    ensures LexicalScore(hits, id) == Reciprocal(rank) + Reciprocal(rank)
  {
    var n := |hits| - 1;
    assert hits == hits[..n] + [hits[n]];
    hide Reciprocal;
    FirstHitLaws(hits[..n], id);
    if rank < n {
      SingleHit(hits[..n], id, rank);
    }
  }

  lemma ReciprocalDecreases(a: nat, b: nat)
    requires a < b
    ensures Reciprocal(a) > Reciprocal(b)
  {
  }

  /** Of two documents with one hit in each list, one ahead of the other in both lists scores
      higher, so no ranking lists the other one without listing it first. */
  lemma AheadInBoth(lexical: seq<SearchResult>, semantic: seq<SearchResult>, a: DocId, b: DocId,
                    la: nat, lb: nat, sa: nat, sb: nat, limit: nat, results: seq<SearchResult>, j: nat)
    requires OnlyAt(lexical, a, la) && OnlyAt(lexical, b, lb) && la < lb
    requires OnlyAt(semantic, a, sa) && OnlyAt(semantic, b, sb) && sa < sb
    requires IsRanking(lexical, semantic, limit, results) && j < |results| && results[j].id == b
    ensures Score(lexical, semantic, a) > Score(lexical, semantic, b)
    ensures exists i :: 0 <= i < j && results[i].id == a
  {
    SingleHit(lexical, a, la);
    SingleHit(lexical, b, lb);
    SingleHit(semantic, a, sa);
    SingleHit(semantic, b, sb);
    ReciprocalDecreases(la, lb);
    ReciprocalDecreases(sa, sb);
    assert lexical[la] in lexical;
    hide Reciprocal, LexicalScore, RankSum;
    HigherComesFirst(lexical, semantic, limit, results, a, j);
  }

  /** A document that scores above a listed one is listed before it. */
  lemma HigherComesFirst(lexical: seq<SearchResult>, semantic: seq<SearchResult>, limit: nat,
                         results: seq<SearchResult>,
                         id: DocId, j: nat)
    requires IsRanking(lexical, semantic, limit, results) && j < |results|
    requires id in Docs(lexical) + Docs(semantic)
    requires Score(lexical, semantic, id) > Score(lexical, semantic, results[j].id)
    ensures exists i :: 0 <= i < j && results[i].id == id
  {
    hide Score, FusedResult, Docs;
    FusedResultLaws(lexical, semantic, results[j].id);
    var i :| 0 <= i < |results| && results[i].id == id;
    FusedResultLaws(lexical, semantic, id);
    assert forall x :: j <= x < |results| ==> results[j].score >= results[x].score;
  }

  lemma SemanticHitRaises(lexical: seq<SearchResult>, semantic: seq<SearchResult>, hit: SearchResult, id: DocId)
    ensures if id == hit.id then Score(lexical, semantic + [hit], id) > Score(lexical, semantic, id)
            else Score(lexical, semantic + [hit], id) == Score(lexical, semantic, id)
  {
    HitNext(semantic, hit, id);
    hide RankSum, LexicalScore;
  }

  lemma {:induction false} TopIdsCount(results: seq<SearchResult>, n: nat)
    requires n <= |results|
    requires forall i, j :: 0 <= i < j < |results| ==> results[i].id != results[j].id
    ensures |TopIds(results, n)| == n
  {
    if n > 0 {
      TopIdsCount(results, n - 1);
      assert TopIds(results, n) == TopIds(results, n - 1) + {results[n - 1].id};
    }
  }

  /** Up to the hit's document, a ranking with the extra hit lists only documents that every
      ranking without it lists before that document. */
  lemma OvertakenOnly(lexical: seq<SearchResult>, semantic: seq<SearchResult>, hit: SearchResult, limit: nat,
                      before: seq<SearchResult>, after: seq<SearchResult>, i: nat, n: nat)
    requires IsRanking(lexical, semantic, limit, before) && IsRanking(lexical, semantic + [hit], limit, after)
    requires i < |before| && before[i].id == hit.id
    requires n <= |after| && hit.id !in TopIds(after, n)
    requires forall k :: 0 <= k < n ==> after[k].score >= Score(lexical, semantic + [hit], hit.id)
    ensures n <= i
  {
    hide Score, FusedResult;
    forall k | 0 <= k < n
      ensures after[k].id in TopIds(before, i)
    {
      var d := after[k].id;
      assert d in TopIds(after, n);
      FusedResultLaws(lexical, semantic + [hit], d);
      SemanticHitRaises(lexical, semantic, hit, d);
      SemanticHitRaises(lexical, semantic, hit, hit.id);
      assert d in Docs(lexical) + Docs(semantic) by {
        assert forall h :: h in semantic + [hit] ==> h in semantic || h == hit;
      }
      HigherComesFirst(lexical, semantic, limit, before, d, i);
    }
    TopIdsCount(after, n);
    TopIdsCount(before, i);
    SubsetCount(TopIds(after, n), TopIds(before, i));
  }

  /** One more semantic hit for a document never worsens its position: wherever a ranking lists
      it, every ranking with the extra hit lists it there or before. */
  lemma SemanticHitNeverHurts(lexical: seq<SearchResult>, semantic: seq<SearchResult>, hit: SearchResult, limit: nat,
                              before: seq<SearchResult>, after: seq<SearchResult>, i: nat)
    requires IsRanking(lexical, semantic, limit, before) && IsRanking(lexical, semantic + [hit], limit, after)
    requires i < |before| && before[i].id == hit.id
    ensures exists j :: 0 <= j <= i && j < |after| && after[j].id == hit.id
  {
    if hit.id in TopIds(after, |after|) {
      var j :| 0 <= j < |after| && after[j].id == hit.id;
      FusedResultLaws(lexical, semantic + [hit], hit.id);
      hide Score, FusedResult;
      OvertakenOnly(lexical, semantic, hit, limit, before, after, i, j);
    } else {
      assert hit in semantic + [hit];
      hide Score, FusedResult;
      OvertakenOnly(lexical, semantic, hit, limit, before, after, i, |after|);
      LimitGrows(lexical, semantic, hit);
    }
  }

  lemma LimitGrows(lexical: seq<SearchResult>, semantic: seq<SearchResult>, hit: SearchResult)
    ensures |Docs(lexical) + Docs(semantic)| <= |Docs(lexical) + Docs(semantic + [hit])|
  {
    assert forall h :: h in semantic ==> h in semantic + [hit];
    SubsetCount(Docs(lexical) + Docs(semantic), Docs(lexical) + Docs(semantic + [hit]));
  }
}
