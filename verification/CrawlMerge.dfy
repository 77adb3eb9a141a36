/** From the walks of the roots to one candidate per canonical file. */
module CrawlMerge {
  import opened Common
  import opened Paths
  import opened Sorting
  import opened Crawl
  import opened SnapshotLaws

  /** A regular file that a root's walk came across, whether the policy allows it, and whether it
      could be resolved to its canonical path and metadata. */
  datatype Found = Found(observed: Path, canonical: Path, name: string, extension: Option<string>, size: nat,
                         modified: nat, hidden: bool, allowed: bool, resolved: bool)

  function Resolve(rootId: nat, f: Found): CrawlCandidate {
    CrawlCandidate(rootId, f.observed, f.canonical, [], f.name, f.extension, f.size, f.modified, f.hidden,
                   f.canonical != f.observed)
  }

  // ---------------------------------------------------------------------------------
  // What a walk says about a file
  // ---------------------------------------------------------------------------------

  predicate Counts(f: Found) {
    f.allowed && f.resolved
  }

  predicate IsOf(f: Found, c: Path) {
    Counts(f) && f.canonical == c
  }

  function VisitCount(walk: seq<Found>): nat {
    if walk == [] then 0 else VisitCount(walk[..|walk| - 1]) + if Counts(walk[|walk| - 1]) then 1 else 0
  }

  function TotalVisits(walks: seq<seq<Found>>): nat {
    if walks == [] then 0 else TotalVisits(walks[..|walks| - 1]) + VisitCount(walks[|walks| - 1])
  }

  /** The paths other than its own under which the walk came to a file, in walk order. */
  function AliasesIn(walk: seq<Found>, c: Path): seq<Path> {
    if walk == [] then []
    else
      var last := walk[|walk| - 1];
      AliasesIn(walk[..|walk| - 1], c) + if IsOf(last, c) && last.observed != c then [last.observed] else []
  }

  /** The walk came across the file, the policy allows it there, and it could be resolved. */
  ghost predicate Sees(walk: seq<Found>, c: Path) {
    exists f :: f in walk && f.allowed && f.resolved && f.canonical == c
  }

  ghost predicate SeesItself(walk: seq<Found>, c: Path) {
    exists f :: f in walk && IsOf(f, c) && f.observed == c
  }

  /** A further sighting of a known file. */
  function Absorb(e: CrawlCandidate, observed: Path): CrawlCandidate {
    if observed != e.canonical then e.(aliases := e.aliases + [observed]) else e.(observed := observed)
  }

  function FirstSight(rootId: nat, f: Found): CrawlCandidate {
    var k := Resolve(rootId, f);
    if f.canonical != f.observed then k.(aliases := [f.observed]) else k
  }

  /** The candidate that a root's walk makes of a canonical path. */
  function Seen(rootId: nat, walk: seq<Found>, c: Path): Option<CrawlCandidate> {
    if walk == [] then None
    else
      var last, before := walk[|walk| - 1], Seen(rootId, walk[..|walk| - 1], c);
      if !IsOf(last, c) then before
      else if before.None? then Some(FirstSight(rootId, last))
      else Some(Absorb(before.value, last.observed))
  }

  /** Within one root: a file has a candidate exactly if the walk saw it; its aliases are exactly
      its other observed paths in walk order; it is observed under its own path if it ever was. */
  lemma {:induction false} SeenLaws(rootId: nat, walk: seq<Found>, c: Path)
    ensures Seen(rootId, walk, c).Some? <==> Sees(walk, c)
    ensures Seen(rootId, walk, c).Some? ==>
      var k := Seen(rootId, walk, c).value;
      && k.rootId == rootId && k.canonical == c
      && k.aliases == AliasesIn(walk, c)
      && (k.observed == c <==> SeesItself(walk, c))
      && (k.observed != c ==> k.aliases != [] && k.observed == k.aliases[0])
    ensures !Sees(walk, c) ==> AliasesIn(walk, c) == []
  {
    if walk != [] {
      var init, last := walk[..|walk| - 1], walk[|walk| - 1];
      assert walk == init + [last];
      SeenLaws(rootId, init, c);
      SightNext(init, last, c);
      hide Sees, SeesItself;
    }
  }

  /** The candidate carries the metadata of the file found at position `i` of the walk. */
  ghost predicate MetadataOf(k: CrawlCandidate, walk: seq<Found>, i: nat) {
    && i < |walk| && walk[i].allowed && walk[i].resolved && walk[i].canonical == k.canonical
    && (forall j :: 0 <= j < i ==> !(walk[j].allowed && walk[j].resolved && walk[j].canonical == k.canonical))
    && k.name == walk[i].name && k.extension == walk[i].extension && k.size == walk[i].size
    && k.modified == walk[i].modified && k.hidden == walk[i].hidden
    && k.isAlias == (walk[i].observed != k.canonical)
  }

  lemma MetadataNext(k: CrawlCandidate, later: CrawlCandidate, init: seq<Found>, last: Found, i: nat)
    requires MetadataOf(k, init, i) && later == k.(aliases := later.aliases, observed := later.observed)
    ensures MetadataOf(later, init + [last], i)
  {
  }

  /** Further sightings of a file leave the metadata of its first one. */
  lemma {:induction false} FirstSightingCounts(rootId: nat, walk: seq<Found>, c: Path)
    requires Seen(rootId, walk, c).Some?
    ensures exists i :: MetadataOf(Seen(rootId, walk, c).value, walk, i)
  {
    var init, last := walk[..|walk| - 1], walk[|walk| - 1];
    assert walk == init + [last];
    var k, before := Seen(rootId, walk, c).value, Seen(rootId, init, c);
    SeenLaws(rootId, init, c);
    if before.Some? {
      FirstSightingCounts(rootId, init, c);
      var i :| MetadataOf(before.value, init, i);
      MetadataNext(before.value, k, init, last, i);
    } else {
      assert forall j :: 0 <= j < |init| ==> init[j] in init;
      assert MetadataOf(k, walk, |init|);
    }
  }

  lemma SightNext(init: seq<Found>, last: Found, c: Path)
    ensures Sees(init + [last], c) <==> Sees(init, c) || IsOf(last, c)
    ensures SeesItself(init + [last], c) <==> SeesItself(init, c) || (IsOf(last, c) && last.observed == c)
    ensures SeesItself(init, c) ==> Sees(init, c)
  {
    assert forall f :: f in init + [last] <==> f in init || f == last;
  }

  // ---------------------------------------------------------------------------------
  // One root
  // ---------------------------------------------------------------------------------

  function Canonicals(ks: seq<CrawlCandidate>): set<Path> {
    set k | k in ks :: k.canonical
  }

  ghost predicate DistinctFiles(ks: seq<CrawlCandidate>) {
    forall i, j :: 0 <= i < j < |ks| ==> ks[i].canonical != ks[j].canonical
  }

  /** The candidates are those of the walk, one for each canonical path seen. */
  ghost predicate ListsWalk(ks: seq<CrawlCandidate>, rootId: nat, walk: seq<Found>) {
    && DistinctFiles(ks)
    && (forall i :: 0 <= i < |ks| ==> Seen(rootId, walk, ks[i].canonical) == Some(ks[i]))
    && (forall c :: Seen(rootId, walk, c).Some? ==> c in Canonicals(ks))
  }

  method Position(ks: seq<CrawlCandidate>, c: Path) returns (i: Option<nat>)
    ensures i.Some? ==> i.value < |ks| && ks[i.value].canonical == c
    ensures i.None? ==> c !in Canonicals(ks)
  {
    for j := 0 to |ks|
      invariant forall k :: 0 <= k < j ==> ks[k].canonical != c
    {
      if ks[j].canonical == c {
        return Some(j);
      }
    }
    i := None;
  }

  lemma SeenNext(rootId: nat, walk: seq<Found>, f: Found, c: Path)
    ensures Seen(rootId, walk + [f], c) ==
      if !IsOf(f, c) then Seen(rootId, walk, c)
      else if Seen(rootId, walk, c).None? then Some(FirstSight(rootId, f))
      else Some(Absorb(Seen(rootId, walk, c).value, f.observed))
  {
    assert (walk + [f])[..|walk|] == walk;
  }

  lemma ListSkipped(ks: seq<CrawlCandidate>, rootId: nat, walk: seq<Found>, f: Found)
    requires ListsWalk(ks, rootId, walk) && !Counts(f)
    ensures ListsWalk(ks, rootId, walk + [f])
  {
    hide Seen;
    forall c
      ensures Seen(rootId, walk + [f], c) == Seen(rootId, walk, c)
    {
      SeenNext(rootId, walk, f, c);
    }
  }

  lemma ListAgain(ks: seq<CrawlCandidate>, rootId: nat, walk: seq<Found>, f: Found, i: nat)
    requires ListsWalk(ks, rootId, walk) && Counts(f)
    requires i < |ks| && ks[i].canonical == f.canonical
    ensures ListsWalk(ks[i := Absorb(ks[i], f.observed)], rootId, walk + [f])
  {
    hide Seen;
    var ks' := ks[i := Absorb(ks[i], f.observed)];
    forall c
      ensures Seen(rootId, walk + [f], c) ==
        if c == f.canonical then Some(Absorb(ks[i], f.observed)) else Seen(rootId, walk, c)
    {
      SeenNext(rootId, walk, f, c);
    }
    forall c | c in Canonicals(ks)
      ensures c in Canonicals(ks')
    {
      var j :| 0 <= j < |ks| && ks[j].canonical == c;
      assert ks'[j].canonical == c;
    }
  }

  lemma ListFirst(ks: seq<CrawlCandidate>, rootId: nat, walk: seq<Found>, f: Found)
    requires ListsWalk(ks, rootId, walk) && Counts(f) && f.canonical !in Canonicals(ks)
    ensures ListsWalk(ks + [FirstSight(rootId, f)], rootId, walk + [f])
  {
    hide Seen;
    var k := FirstSight(rootId, f);
    var ks' := ks + [k];
    forall c
      ensures Seen(rootId, walk + [f], c) == if c == f.canonical then Some(k) else Seen(rootId, walk, c)
    {
      SeenNext(rootId, walk, f, c);
    }
    forall i | 0 <= i < |ks|
      ensures ks[i].canonical != f.canonical
    {
      assert ks[i].canonical in Canonicals(ks);
    }
    assert k in ks';
    assert forall j :: j in ks ==> j in ks';
  }

  /** The crawl of one root. */
  method CrawlRoot(rootId: nat, walk: seq<Found>) returns (candidates: seq<CrawlCandidate>, skipped: nat)
    ensures ListsWalk(candidates, rootId, walk)
    ensures |candidates| + skipped == VisitCount(walk)
  {
    hide ListsWalk, Canonicals;
    candidates, skipped := [], 0;
    NothingListed(rootId);
    for i := 0 to |walk|
      invariant ListsWalk(candidates, rootId, walk[..i])
      invariant |candidates| + skipped == VisitCount(walk[..i])
    {
      var f := walk[i];
      assert walk[..i + 1] == walk[..i] + [f];
      assert (walk[..i] + [f])[..i] == walk[..i];
      if f.allowed && f.resolved {
        var existing := Position(candidates, f.canonical);
        if existing.Some? {
          ListAgain(candidates, rootId, walk[..i], f, existing.value);
          candidates := candidates[existing.value := Absorb(candidates[existing.value], f.observed)];
          skipped := skipped + 1;
        } else {
          ListFirst(candidates, rootId, walk[..i], f);
          candidates := candidates + [FirstSight(rootId, f)];
        }
      } else {
        ListSkipped(candidates, rootId, walk[..i], f);
      }
    }
    assert walk[..|walk|] == walk;
  }

  lemma NothingListed(rootId: nat)
    ensures ListsWalk([], rootId, [])
  {
  }

  // ---------------------------------------------------------------------------------
  // All roots
  // ---------------------------------------------------------------------------------

  /** The candidate of a canonical path after the first `n` roots: the first root that saw it,
      with one further sighting for each later root that did. */
  function Merged(walks: seq<seq<Found>>, n: nat, c: Path): Option<CrawlCandidate>
    requires n <= |walks|
  {
    if n == 0 then None
    else
      var before, here := Merged(walks, n - 1, c), Seen(n - 1, walks[n - 1], c);
      if here.None? then before
      else if before.None? then here
      else Some(Absorb(before.value, here.value.observed))
  }

  /** The paths that the roots from `r` up to `n` add as aliases: of each that saw the file, but
      never under its own path, the first path it saw it under. */
  function LaterAliases(walks: seq<seq<Found>>, r: nat, n: nat, c: Path): seq<Path>
    requires n <= |walks|
    decreases n
  {
    if n <= r then []
    else
      var here := Seen(n - 1, walks[n - 1], c);
      LaterAliases(walks, r, n - 1, c) + if here.Some? && here.value.observed != c then [here.value.observed] else []
  }

  /** Every file belongs to the lowest-numbered root that saw it, keeps all aliases of that root,
      and takes over one path from each later root that only saw it under other paths. */
  lemma {:induction false} MergedLaws(walks: seq<seq<Found>>, n: nat, c: Path)
    requires n <= |walks|
    ensures Merged(walks, n, c).None? <==> forall r :: 0 <= r < n ==> !Sees(walks[r], c)
    ensures Merged(walks, n, c).Some? ==>
      var k := Merged(walks, n, c).value;
      && k.canonical == c && k.rootId < n
      && Sees(walks[k.rootId], c) && (forall r :: 0 <= r < k.rootId ==> !Sees(walks[r], c))
      && k.aliases == AliasesIn(walks[k.rootId], c) + LaterAliases(walks, k.rootId + 1, n, c)
  {
    hide Sees, AliasesIn, Seen, SeesItself;
    if n > 0 {
      MergedLaws(walks, n - 1, c);
      SeenLaws(n - 1, walks[n - 1], c);
      var before := Merged(walks, n - 1, c);
      if before.None? {
        assert LaterAliases(walks, n, n, c) == [];
      }
    }
  }

  /** The metadata of a file is that of its first sighting in the lowest root that saw it. */
  lemma {:induction false} LowestRootCounts(walks: seq<seq<Found>>, n: nat, c: Path)
    requires n <= |walks| && Merged(walks, n, c).Some?
    ensures var k := Merged(walks, n, c).value;
      k.rootId < n && exists i :: MetadataOf(k, walks[k.rootId], i)
  {
    hide Seen, MetadataOf, Sees, AliasesIn, SeesItself;
    MergedLaws(walks, n, c);
    var before, here := Merged(walks, n - 1, c), Seen(n - 1, walks[n - 1], c);
    SeenLaws(n - 1, walks[n - 1], c);
    if before.Some? {
      LowestRootCounts(walks, n - 1, c);
      var i :| MetadataOf(before.value, walks[before.value.rootId], i);
      AbsorbedMetadata(before.value, Merged(walks, n, c).value, walks[before.value.rootId], i);
    } else {
      FirstSightingCounts(n - 1, walks[n - 1], c);
    }
  }

  lemma AbsorbedMetadata(k: CrawlCandidate, later: CrawlCandidate, walk: seq<Found>, i: nat)
    requires MetadataOf(k, walk, i) && later == k.(aliases := later.aliases, observed := later.observed)
    ensures MetadataOf(later, walk, i)
  {
  }

  // ---------------------------------------------------------------------------------
  // Aliases across roots
  // ---------------------------------------------------------------------------------

  /** Every other path under which the roots from `r` up to `n` saw a file, in walk order. */
  function AllAliases(walks: seq<seq<Found>>, r: nat, n: nat, c: Path): seq<Path>
    requires n <= |walks|
    decreases n
  {
    if n <= r then [] else AllAliases(walks, r, n - 1, c) + AliasesIn(walks[n - 1], c)
  }

  /** How many aliases of a walk survive the merge into earlier roots: none if the walk also saw the
      file under its own path, else one. */
  ghost predicate FewAliases(walk: seq<Found>, c: Path) {
    |AliasesIn(walk, c)| <= if SeesItself(walk, c) then 0 else 1
  }

  /** What a later root adds is the beginning of what it saw, and all of it exactly in the case of
      few aliases. */
  lemma LaterPart(rootId: nat, walk: seq<Found>, c: Path)
    ensures var here := Seen(rootId, walk, c);
      var part := if here.Some? && here.value.observed != c then [here.value.observed] else [];
      && part <= AliasesIn(walk, c)
      && (|part| == |AliasesIn(walk, c)| <==> FewAliases(walk, c))
  {
    SeenLaws(rootId, walk, c);
    ItselfIsSeen(walk, c);
    hide Seen, AliasesIn, Sees, SeesItself;
  }

  lemma ItselfIsSeen(walk: seq<Found>, c: Path)
    ensures SeesItself(walk, c) ==> Sees(walk, c)
  {
  }

  lemma {:induction false} LaterLength(walks: seq<seq<Found>>, r: nat, n: nat, c: Path)
    requires n <= |walks|
    ensures |LaterAliases(walks, r, n, c)| <= |AllAliases(walks, r, n, c)|
    ensures |LaterAliases(walks, r, n, c)| == |AllAliases(walks, r, n, c)| <==>
      forall i :: r <= i < n ==> FewAliases(walks[i], c)
    ensures (forall i :: r <= i < n ==> FewAliases(walks[i], c)) ==>
      LaterAliases(walks, r, n, c) == AllAliases(walks, r, n, c)
    decreases n
  {
    hide Seen, AliasesIn, FewAliases;
    if n > r {
      LaterLength(walks, r, n - 1, c);
      LaterPart(n - 1, walks[n - 1], c);
    }
  }

  lemma {:induction false} NoEarlierAliases(walks: seq<seq<Found>>, r: nat, n: nat, c: Path)
    requires r < n <= |walks| && forall i :: 0 <= i < r ==> !Sees(walks[i], c)
    ensures AllAliases(walks, 0, n, c) == AliasesIn(walks[r], c) + AllAliases(walks, r + 1, n, c)
    decreases n
  {
    hide Sees, AliasesIn;
    if n == r + 1 {
      NoAliasesBefore(walks, r, c);
    } else {
      NoEarlierAliases(walks, r, n - 1, c);
    }
  }

  lemma {:induction false} NoAliasesBefore(walks: seq<seq<Found>>, r: nat, c: Path)
    requires r <= |walks| && forall i :: 0 <= i < r ==> !Sees(walks[i], c)
    ensures AllAliases(walks, 0, r, c) == []
  {
    hide Sees, AliasesIn;
    if r > 0 {
      NoAliasesBefore(walks, r - 1, c);
      SeenLaws(r - 1, walks[r - 1], c);
    }
  }

  /** A candidate of the crawl lists all the other paths of its file, over all roots in order, if
      and only if each root after the first that saw it saw it under at most one other path, and
      under none if it also saw it under its own. */
  lemma AliasesCompleteExactly(walks: seq<seq<Found>>, c: Path)
    requires Merged(walks, |walks|, c).Some?
    ensures var k := Merged(walks, |walks|, c).value;
      k.aliases == AllAliases(walks, 0, |walks|, c) <==>
        forall r :: k.rootId < r < |walks| ==> FewAliases(walks[r], c)
  {
    var k := Merged(walks, |walks|, c).value;
    MergedLaws(walks, |walks|, c);
    NoEarlierAliases(walks, k.rootId, |walks|, c);
    LaterLength(walks, k.rootId + 1, |walks|, c);
    hide Merged, Sees, AliasesIn, LaterAliases, AllAliases, FewAliases;
  }

  /** One file seen under its own path in one root and under two links in the next. */
  function TwoLinks(): seq<seq<Found>> {
    var file := Found("/a/f", "/a/f", "f", None, 1, 0, false, true, true);
    [[file], [file.(observed := "/b/x"), file.(observed := "/b/y")]]
  }

  lemma SecondLinkIsLost()
    ensures Merged(TwoLinks(), 2, "/a/f").Some?
    ensures Merged(TwoLinks(), 2, "/a/f").value.aliases == ["/b/x"]
    ensures AllAliases(TwoLinks(), 0, 2, "/a/f") == ["/b/x", "/b/y"]
  {
    var file := TwoLinks()[0][0];
    var x, y := file.(observed := "/b/x"), file.(observed := "/b/y");
    SeenNext(0, [], file, "/a/f");
    SeenNext(1, [], x, "/a/f");
    SeenNext(1, [x], y, "/a/f");
    assert [] + [file] == TwoLinks()[0] && [] + [x] == [x] && [x] + [y] == TwoLinks()[1];
    SeenLaws(0, TwoLinks()[0], "/a/f");
    SeenLaws(1, TwoLinks()[1], "/a/f");
    hide Sees, SeesItself;
  }

  /** The map holds the first `n` roots and, of the next one, the candidates listed so far. */
  ghost predicate MergedTo(m: map<Path, CrawlCandidate>, walks: seq<seq<Found>>, n: nat, listed: set<Path>)
    requires n < |walks|
  {
    forall c :: Lookup(m, c) == if c in listed then Merged(walks, n + 1, c) else Merged(walks, n, c)
  }

  lemma MergeNext(m: map<Path, CrawlCandidate>, walks: seq<seq<Found>>, n: nat, listed: set<Path>, k: CrawlCandidate)
    requires n < |walks| && MergedTo(m, walks, n, listed) && k.canonical !in listed
    requires Seen(n, walks[n], k.canonical) == Some(k)
    ensures MergedTo(m[k.canonical := if k.canonical in m then Absorb(m[k.canonical], k.observed) else k],
                     walks, n, listed + {k.canonical})
  {
    hide Seen;
    var c := k.canonical;
    var v := if c in m then Absorb(m[c], k.observed) else k;
    assert Lookup(m, c) == Merged(walks, n, c);
    assert Merged(walks, n + 1, c) == Some(v);
    hide Merged, Absorb;
    forall d
      ensures Lookup(m[c := v], d) == if d == c then Some(v) else Lookup(m, d)
    {
    }
    hide Lookup;
  }

  lemma MergeDone(m: map<Path, CrawlCandidate>, walks: seq<seq<Found>>, n: nat, ks: seq<CrawlCandidate>)
    requires n < |walks| && ListsWalk(ks, n, walks[n]) && MergedTo(m, walks, n, Canonicals(ks))
    ensures forall c :: Lookup(m, c) == Merged(walks, n + 1, c)
  {
    hide Seen;
    forall c
      ensures Lookup(m, c) == Merged(walks, n + 1, c)
    {
      if c !in Canonicals(ks) {
        assert Seen(n, walks[n], c).None?;
      }
    }
  }

  /** The result of a crawl: one candidate per canonical path, in path order. */
  ghost predicate ListsCrawl(candidates: seq<CrawlCandidate>, walks: seq<seq<Found>>) {
    && (forall i, j :: 0 <= i < j < |candidates| ==>
          PathLe(candidates[i].canonical, candidates[j].canonical)
            && candidates[i].canonical != candidates[j].canonical)
    && (forall k :: k in candidates ==> Merged(walks, |walks|, k.canonical) == Some(k))
    && (forall c :: Merged(walks, |walks|, c).Some? ==> c in Canonicals(candidates))
  }

  /** One root's candidates join the others. */
  method MergeRoot(walks: seq<seq<Found>>, n: nat, known: map<Path, CrawlCandidate>, ks: seq<CrawlCandidate>)
    returns (m: map<Path, CrawlCandidate>, skipped: nat)
    requires n < |walks| && ListsWalk(ks, n, walks[n])
    requires forall c :: Lookup(known, c) == Merged(walks, n, c)
    ensures forall c :: Lookup(m, c) == Merged(walks, n + 1, c)
    ensures |m| + skipped == |known| + |ks|
  {
    hide Merged, Seen, Canonicals;
    m, skipped := known, 0;
    NothingMerged(known, walks, n);
    for i := 0 to |ks|
      invariant MergedTo(m, walks, n, Canonicals(ks[..i]))
      invariant |m| + skipped == |known| + i
    {
      var k := ks[i];
      NextCanonical(ks, i);
      MergeNext(m, walks, n, Canonicals(ks[..i]), k);
      if k.canonical in m {
        m := m[k.canonical := Absorb(m[k.canonical], k.observed)];
        skipped := skipped + 1;
      } else {
        m := m[k.canonical := k];
      }
    }
    assert ks[..|ks|] == ks;
    MergeDone(m, walks, n, ks);
  }

  lemma NothingMerged(m: map<Path, CrawlCandidate>, walks: seq<seq<Found>>, n: nat)
    requires n < |walks| && forall c :: Lookup(m, c) == Merged(walks, n, c)
    ensures forall ks: seq<CrawlCandidate> :: MergedTo(m, walks, n, Canonicals(ks[..0]))
  {
    hide Merged;
  }

  lemma NextCanonical(ks: seq<CrawlCandidate>, i: nat)
    requires i < |ks| && DistinctFiles(ks)
    ensures Canonicals(ks[..i + 1]) == Canonicals(ks[..i]) + {ks[i].canonical}
    ensures ks[i].canonical !in Canonicals(ks[..i])
  {
    assert ks[..i + 1] == ks[..i] + [ks[i]];
  }

  predicate CandidateLe(a: CrawlCandidate, b: CrawlCandidate) {
    PathLe(a.canonical, b.canonical)
  }

  lemma CandidateOrder()
    ensures TotalPreorder(CandidateLe)
  {
    forall a: CrawlCandidate, b: CrawlCandidate
      ensures CandidateLe(a, b) || CandidateLe(b, a)
    {
      PathLeTotal(a.canonical, b.canonical);
    }
    forall a: CrawlCandidate, b: CrawlCandidate, c: CrawlCandidate | CandidateLe(a, b) && CandidateLe(b, c)
      ensures CandidateLe(a, c)
    {
      PathLeTransitive(a.canonical, b.canonical, c.canonical);
    }
  }

  /** The crawl of all roots. No file is lost or invented: what is not a candidate was skipped as
      a further sighting of one. */
  method DiscoverFiles(walks: seq<seq<Found>>) returns (candidates: seq<CrawlCandidate>, skipped: nat)
    ensures ListsCrawl(candidates, walks)
    ensures |candidates| + skipped == TotalVisits(walks)
  {
    hide Merged, ListsWalk;
    var m: map<Path, CrawlCandidate> := map[];
    skipped := 0;
    NoRoots(walks);
    for n := 0 to |walks|
      invariant forall c :: Lookup(m, c) == Merged(walks, n, c)
      invariant |m| + skipped == TotalVisits(walks[..n])
    {
      assert walks[..n + 1][..n] == walks[..n];
      var ks, skippedHere := CrawlRoot(n, walks[n]);
      var merged, again := MergeRoot(walks, n, m, ks);
      m, skipped := merged, skipped + skippedHere + again;
    }
    assert walks[..|walks|] == walks;
    MergedCanonicals(m, walks);
    candidates := ValuesInOrder(m);
    ValuesAreCrawl(m, walks, candidates);
  }

  lemma NoRoots(walks: seq<seq<Found>>)
    ensures forall c :: Merged(walks, 0, c) == None
  {
  }

  lemma MergedCanonicals(m: map<Path, CrawlCandidate>, walks: seq<seq<Found>>)
    requires forall c :: Lookup(m, c) == Merged(walks, |walks|, c)
    ensures forall c :: c in m ==> m[c].canonical == c
  {
    forall c | c in m
      ensures m[c].canonical == c
    {
      assert Lookup(m, c) == Some(m[c]);
      MergedLaws(walks, |walks|, c);
    }
  }

  lemma ValuesAreCrawl(m: map<Path, CrawlCandidate>, walks: seq<seq<Found>>, candidates: seq<CrawlCandidate>)
    requires forall c :: Lookup(m, c) == Merged(walks, |walks|, c)
    requires forall c :: c in m ==> m[c].canonical == c && m[c] in candidates
    requires forall k :: k in candidates ==> k.canonical in m && m[k.canonical] == k
    requires Distinct(candidates) && Sorted(candidates, CandidateLe)
    ensures ListsCrawl(candidates, walks)
  {
    hide Merged;
    forall c | Merged(walks, |walks|, c).Some?
      ensures c in Canonicals(candidates)
    {
      assert Lookup(m, c).Some?;
      assert m[c] in candidates;
    }
    forall k | k in candidates
      ensures Merged(walks, |walks|, k.canonical) == Some(k)
    {
      assert Lookup(m, k.canonical) == Some(k);
    }
    forall i, j | 0 <= i < j < |candidates|
      ensures candidates[i].canonical != candidates[j].canonical
    {
      assert candidates[i] in candidates && candidates[j] in candidates;
    }
  }

  /** The values of a tree map, in key order. */
  method ValuesInOrder(m: map<Path, CrawlCandidate>) returns (values: seq<CrawlCandidate>)
    requires forall c :: c in m ==> m[c].canonical == c
    ensures |values| == |m|
    ensures forall c :: c in m ==> m[c] in values
    ensures forall k :: k in values ==> k.canonical in m && m[k.canonical] == k
    ensures Distinct(values) && Sorted(values, CandidateLe)
  {
    hide Distinct;
    values := [];
    var rest := m.Keys;
    NothingTwice<CrawlCandidate>();
    while rest != {}
      invariant rest <= m.Keys && |values| + |rest| == |m.Keys| && Distinct(values)
      invariant forall k :: k in values ==> k.canonical in m && k.canonical !in rest && m[k.canonical] == k
      invariant forall c :: c in m && c !in rest ==> m[c] in values
      decreases rest
    {
      var c :| c in rest;
      AppendDistinct(values, m[c]);
      values, rest := values + [m[c]], rest - {c};
    }
    CandidateOrder();
    var sorted := SortBy(values, CandidateLe);
    Reordered(values, sorted);
    values := sorted;
  }

  // ---------------------------------------------------------------------------------
  // The snapshot of a crawl
  // ---------------------------------------------------------------------------------

  function FromOutput(candidates: seq<CrawlCandidate>): Snapshot {
    if candidates == [] then map[]
    else
      var last := candidates[|candidates| - 1];
      FromOutput(candidates[..|candidates| - 1])[last.canonical := EntryOf(last)]
  }

  /** A crawl's snapshot has exactly its candidates, each under its own path with its fingerprint. */
  lemma {:induction false} FromOutputLaws(candidates: seq<CrawlCandidate>)
    ensures WellBuilt(FromOutput(candidates))
    ensures FromOutput(candidates).Keys == Canonicals(candidates)
    ensures DistinctFiles(candidates) ==>
      forall k :: k in candidates ==> FromOutput(candidates)[k.canonical] == EntryOf(k)
  {
    if candidates != [] {
      var init, last := candidates[..|candidates| - 1], candidates[|candidates| - 1];
      assert candidates == init + [last];
      FromOutputLaws(init);
      assert Canonicals(candidates) == Canonicals(init) + {last.canonical};
      assert DistinctFiles(candidates) ==> last.canonical !in Canonicals(init);
    }
  }

  /** What a change event says about two crawls. A file of both is unchanged exactly if it kept its
      size and its modification time. */
  ghost predicate SaysChange(a: seq<CrawlCandidate>, b: seq<CrawlCandidate>, e: ChangeEvent) {
    match e.kind
    case Deleted => e.candidate.None? && e.path in Canonicals(a) && e.path !in Canonicals(b)
    case Added => IsCandidate(b, e) && e.path !in Canonicals(a)
    case Modified => IsCandidate(b, e) && exists x ::
      x in a && x.canonical == e.path && !(x.size == e.candidate.value.size && x.modified == e.candidate.value.modified)
    case Unchanged => IsCandidate(b, e) && exists x ::
      x in a && x.canonical == e.path && x.size == e.candidate.value.size && x.modified == e.candidate.value.modified
  }

  ghost predicate IsCandidate(b: seq<CrawlCandidate>, e: ChangeEvent) {
    e.candidate.Some? && e.candidate.value in b && e.candidate.value.canonical == e.path
  }

  lemma CandidateAt(ks: seq<CrawlCandidate>, p: Path)
    requires p in Canonicals(ks)
    ensures exists k :: k in ks && k.canonical == p
  {
  }

  lemma EntryAt(ks: seq<CrawlCandidate>, k: CrawlCandidate)
    requires DistinctFiles(ks) && k in ks
    ensures k.canonical in FromOutput(ks) && FromOutput(ks)[k.canonical].candidate == k
    ensures FromOutput(ks)[k.canonical].fingerprint == Fingerprint(k.size, k.modified)
  {
    FromOutputLaws(ks);
  }

  lemma OneCandidate(ks: seq<CrawlCandidate>, x: CrawlCandidate, y: CrawlCandidate)
    requires DistinctFiles(ks) && x in ks && y in ks && x.canonical == y.canonical
    ensures x == y
  {
  }

  lemma EventSays(a: seq<CrawlCandidate>, b: seq<CrawlCandidate>, p: Path)
    requires DistinctFiles(a) && DistinctFiles(b) && p in Canonicals(a) + Canonicals(b)
    ensures SaysChange(a, b, EventFor(FromOutput(a), FromOutput(b), p))
  {
    FromOutputLaws(a);
    FromOutputLaws(b);
    hide FromOutput, DistinctFiles, WellBuilt;
    if p in Canonicals(a) {
      CandidateAt(a, p);
      var x :| x in a && x.canonical == p;
      EntryAt(a, x);
    }
    if p in Canonicals(b) {
      CandidateAt(b, p);
      var y :| y in b && y.canonical == p;
      EntryAt(b, y);
    }
  }

  /** Two events of one path that both say what changed are the same event. */
  lemma OneChange(a: seq<CrawlCandidate>, b: seq<CrawlCandidate>, e: ChangeEvent, f: ChangeEvent)
    requires DistinctFiles(a) && DistinctFiles(b) && SaysChange(a, b, e) && SaysChange(a, b, f) && e.path == f.path
    ensures e == f
  {
    hide DistinctFiles;
    assert forall x, y :: x in a && y in a && x.canonical == y.canonical ==> x == y by {
      forall x, y | x in a && y in a && x.canonical == y.canonical
        ensures x == y
      {
        OneCandidate(a, x, y);
      }
    }
    if e.candidate.Some? && f.candidate.Some? {
      OneCandidate(b, e.candidate.value, f.candidate.value);
    }
  }

  /** The changes between two crawls are exactly the events that say what changed: a file that
      changed in size or modification time, and no other, is modified. */
  lemma ChangesBetweenCrawls(a: seq<CrawlCandidate>, b: seq<CrawlCandidate>, events: seq<ChangeEvent>)
    requires DistinctFiles(a) && DistinctFiles(b) && IsDiff(FromOutput(a), FromOutput(b), events)
    ensures forall e :: e in events <==> SaysChange(a, b, e)
  {
    FromOutputLaws(a);
    FromOutputLaws(b);
    hide FromOutput, DistinctFiles, WellBuilt, EventFor;
    var paths := Canonicals(a) + Canonicals(b);
    forall e
      ensures e in events <==> SaysChange(a, b, e)
    {
      if e in events {
        var p :| p in paths && e == EventFor(FromOutput(a), FromOutput(b), p);
        EventSays(a, b, p);
      }
      if SaysChange(a, b, e) {
        assert e.path in paths;
        EventSays(a, b, e.path);
        EventPath(FromOutput(a), FromOutput(b), e.path);
        OneChange(a, b, e, EventFor(FromOutput(a), FromOutput(b), e.path));
        assert e in EventsFor(FromOutput(a), FromOutput(b), paths);
      }
    }
  }

  /** What the next crawl finds of a file after one processed event, and that no other entry of the
      snapshot moves: an indexed file is modified exactly if it no longer has the size and the
      modification time it was indexed with, and a deleted one is an addition. */
  lemma IndexedUntilItChanges(snapshot: Option<Snapshot>, event: ChangeEvent, next: seq<CrawlCandidate>,
                              k: CrawlCandidate)
    requires DistinctFiles(next) && k in next && k.canonical == event.path && event.kind != Unchanged
    requires event.candidate.Some? || event.kind == Deleted
    ensures var after := SnapshotUpdated(snapshot, event);
      && after.Some?
      && EventFor(after.value, FromOutput(next), event.path) == ChangeEvent(
           if event.kind == Deleted then Added
           else if event.candidate.value.size == k.size && event.candidate.value.modified == k.modified then Unchanged
           else Modified, event.path, Some(k))
      && forall p :: p != event.path ==>
           Lookup(after.value, p) == if snapshot.Some? then Lookup(snapshot.value, p) else None
  {
    EntryAt(next, k);
    hide FromOutput, DistinctFiles;
  }
}
