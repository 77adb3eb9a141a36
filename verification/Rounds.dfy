/** Sequences of drained refreshes: which files are stored, and whether they are counted. */
module Rounds {
  import opened Common
  import opened Crawl
  import opened Stores
  import opened Events
  import opened SnapshotLaws
  import opened Refresh

  datatype Round = Round(crawl: Snapshot, works: seq<Work>)

  function After(d: IndexState, roots: nat, rounds: seq<Round>): IndexState {
    if rounds == [] then d
    else
      var last := rounds[|rounds| - 1];
      Refreshed(After(d, roots, rounds[..|rounds| - 1]), roots, last.crawl, last.works)
  }

  /** The crawl before the first round is number 0, that of the k-th round number k. */
  function CrawlAt(first: Snapshot, rounds: seq<Round>, k: nat): Snapshot
    requires k <= |rounds|
  {
    if k == 0 then first else rounds[k - 1].crawl
  }

  function LastCrawl(first: Snapshot, rounds: seq<Round>): Snapshot {
    CrawlAt(first, rounds, |rounds|)
  }

  /** Each round's queue is the whole difference from the crawl before, drained before the next. */
  ghost predicate InTurn(first: Snapshot, oracle: Oracle, roots: nat, rounds: seq<Round>) {
    rounds == [] ||
    (var init, last := rounds[..|rounds| - 1], rounds[|rounds| - 1];
     && InTurn(first, oracle, roots, init)
     && WellBuilt(last.crawl)
     && Queue(LastCrawl(first, init), last.crawl, oracle, roots, last.works)
     && Complete(LastCrawl(first, init), last.crawl, last.works))
  }

  function Keys(d: IndexState): set<Path> {
    d.stores.tables.files.Keys
  }

  lemma RoundOutcome(d: IndexState, previous: Snapshot, oracle: Oracle, roots: nat, round: Round)
    requires Core(d.stores) && WellBuilt(round.crawl)
    requires Queue(previous, round.crawl, oracle, roots, round.works) && Complete(previous, round.crawl, round.works)
    ensures var d' := Refreshed(d, roots, round.crawl, round.works);
      && Core(d'.stores) && d'.snapshot == Some(round.crawl)
      && Keys(d') == StoredAfter(Keys(d), previous, round.crawl, oracle)
      && (Covered(Keys(d), previous, oracle) ==>
            Covered(Keys(d'), round.crawl, oracle)
            && Keys(d') == ExtractablePaths(round.crawl, oracle) + (Keys(d) * round.crawl.Keys))
  {
    hide Core, WellBuilt, Queue, Complete, Refreshed, StoredAfter, Counted, ExtractablePaths, Covered;
    RefreshOutcome(d, previous, round.crawl, oracle, roots, round.works);
    if Covered(Keys(d), previous, oracle) {
      CoveredParts(Keys(d), previous, round.crawl, oracle);
    }
  }

  // ---------------------------------------------------------------------------------
  // Stored paths
  // ---------------------------------------------------------------------------------

  /** The j-th crawl does not have the path, or the next one has it too. */
  ghost predicate NotLost(first: Snapshot, rounds: seq<Round>, p: Path, j: nat)
    requires j < |rounds|
  {
    p in CrawlAt(first, rounds, j) ==> p in CrawlAt(first, rounds, j + 1)
  }

  /** Why a path is stored after the rounds: it was stored at the start (k == 0) and no round found it
      gone, or the k-th round stored it and every crawl has had it since. */
  ghost predicate Kept(keys: set<Path>, first: Snapshot, rounds: seq<Round>, oracle: Oracle, p: Path, k: nat) {
    && k <= |rounds|
    && if k == 0 then
         p in keys && forall j :: 0 <= j < |rounds| ==> NotLost(first, rounds, p, j)
       else
         && p in Came(CrawlAt(first, rounds, k - 1), CrawlAt(first, rounds, k), oracle)
         && forall j :: k <= j <= |rounds| ==> p in CrawlAt(first, rounds, j)
  }

  lemma CrawlsOf(first: Snapshot, init: seq<Round>, last: Round)
    ensures forall j :: 0 <= j <= |init| ==> CrawlAt(first, init + [last], j) == CrawlAt(first, init, j)
    ensures CrawlAt(first, init + [last], |init| + 1) == last.crawl
    ensures LastCrawl(first, init) == CrawlAt(first, init, |init|)
  {
  }

  lemma KeptNext(keys: set<Path>, first: Snapshot, init: seq<Round>, last: Round, oracle: Oracle, p: Path, k: nat)
    ensures Kept(keys, first, init + [last], oracle, p, k) <==>
      if k <= |init| then Kept(keys, first, init, oracle, p, k) && p !in Gone(LastCrawl(first, init), last.crawl)
      else k == |init| + 1 && p in Came(LastCrawl(first, init), last.crawl, oracle)
  {
    hide CrawlAt, Came, LastCrawl;
    var rounds := init + [last];
    CrawlsOf(first, init, last);
    if k == 0 {
      assert forall j :: 0 <= j < |init| ==> (NotLost(first, rounds, p, j) <==> NotLost(first, init, p, j));
      assert NotLost(first, rounds, p, |init|) <==> p !in Gone(LastCrawl(first, init), last.crawl);
    } else if k == |init| + 1 {
      CameIsThere(LastCrawl(first, init), last.crawl, oracle);
    } else if k <= |init| {
      assert CrawlAt(first, rounds, k - 1) == CrawlAt(first, init, k - 1);
    }
  }

  lemma CameIsThere(previous: Snapshot, current: Snapshot, oracle: Oracle)
    ensures Came(previous, current, oracle) <= current.Keys
  {
  }

  lemma KeptOn(keys: set<Path>, first: Snapshot, init: seq<Round>, last: Round, oracle: Oracle, p: Path)
    ensures (exists k :: Kept(keys, first, init + [last], oracle, p, k)) <==>
      || p in Came(LastCrawl(first, init), last.crawl, oracle)
      || (p !in Gone(LastCrawl(first, init), last.crawl) && exists k :: Kept(keys, first, init, oracle, p, k))
  {
    hide Kept, Came, Gone, LastCrawl;
    forall k: nat
      ensures Kept(keys, first, init + [last], oracle, p, k) <==>
        if k <= |init| then Kept(keys, first, init, oracle, p, k) && p !in Gone(LastCrawl(first, init), last.crawl)
        else k == |init| + 1 && p in Came(LastCrawl(first, init), last.crawl, oracle)
    {
      KeptNext(keys, first, init, last, oracle, p, k);
    }
    if p in Came(LastCrawl(first, init), last.crawl, oracle) {
      assert Kept(keys, first, init + [last], oracle, p, |init| + 1);
    } else if p !in Gone(LastCrawl(first, init), last.crawl) && exists k :: Kept(keys, first, init, oracle, p, k) {
      var k :| Kept(keys, first, init, oracle, p, k);
      KeptIn(keys, first, init, oracle, p, k);
      assert Kept(keys, first, init + [last], oracle, p, k);
    }
  }

  lemma KeptIn(keys: set<Path>, first: Snapshot, rounds: seq<Round>, oracle: Oracle, p: Path, k: nat)
    requires Kept(keys, first, rounds, oracle, p, k)
    ensures k <= |rounds|
  {
  }

  /** After any number of drained refreshes, from any state in order, the stored files are exactly
      those that were stored at the start and that no round found gone, and those that some round
      stored and every crawl has had since. */
  lemma {:induction false} StoredExactly(d: IndexState, first: Snapshot, oracle: Oracle, roots: nat, rounds: seq<Round>)
    requires Core(d.stores) && InTurn(first, oracle, roots, rounds)
    ensures var d' := After(d, roots, rounds);
      && Core(d'.stores)
      && forall p :: p in Keys(d') <==> exists k :: Kept(Keys(d), first, rounds, oracle, p, k)
  {
    hide Core, WellBuilt, Queue, Complete, Refreshed, Gone, Came;
    var keys := Keys(d);
    if rounds == [] {
      forall p
        ensures p in keys <==> exists k :: Kept(keys, first, rounds, oracle, p, k)
      {
        assert p in keys ==> Kept(keys, first, rounds, oracle, p, 0);
      }
    } else {
      var init, last := rounds[..|rounds| - 1], rounds[|rounds| - 1];
      assert rounds == init + [last];
      StoredExactly(d, first, oracle, roots, init);
      RoundOutcome(After(d, roots, init), LastCrawl(first, init), oracle, roots, last);
      hide Keys, Covered, Kept, After;
      forall p
        ensures p in Keys(After(d, roots, rounds)) <==> exists k :: Kept(keys, first, rounds, oracle, p, k)
      {
        KeptOn(keys, first, init, last, oracle, p);
      }
    }
  }

  /** A stored file that no crawl has, from the last one before on, is never deleted. */
  lemma OrphanStays(d: IndexState, first: Snapshot, oracle: Oracle, roots: nat, rounds: seq<Round>, p: Path)
    requires Core(d.stores) && InTurn(first, oracle, roots, rounds)
    requires p in Keys(d) && forall k :: 0 <= k <= |rounds| ==> p !in CrawlAt(first, rounds, k)
    ensures p in Keys(After(d, roots, rounds))
  {
    StoredExactly(d, first, oracle, roots, rounds);
    hide Core, InTurn, Keys, After, CrawlAt;
    assert Kept(Keys(d), first, rounds, oracle, p, 0);
  }

  // The same, if at the start at least the extractable files of the crawl are stored and none that
  // it does not have.

  /** The path is in every crawl from the k-th on, and was stored then: from the start, or because
      the k-th crawl's version of it could be extracted. */
  ghost predicate Persists(keys: set<Path>, first: Snapshot, rounds: seq<Round>, oracle: Oracle, p: Path, k: nat) {
    && k <= |rounds|
    && (forall j :: k <= j <= |rounds| ==> p in CrawlAt(first, rounds, j))
    && if k == 0 then p in keys else oracle(p, CrawlAt(first, rounds, k)[p].fingerprint)
  }

  lemma {:induction false} AlwaysThere(first: Snapshot, rounds: seq<Round>, p: Path, n: nat)
    requires p in first && n <= |rounds|
    requires forall j :: 0 <= j < |rounds| ==> NotLost(first, rounds, p, j)
    ensures forall j :: 0 <= j <= n ==> p in CrawlAt(first, rounds, j)
  {
    if n > 0 {
      AlwaysThere(first, rounds, p, n - 1);
      assert NotLost(first, rounds, p, n - 1);
    }
  }

  lemma KeptPersists(keys: set<Path>, first: Snapshot, rounds: seq<Round>, oracle: Oracle, p: Path, k: nat)
    requires Covered(keys, first, oracle) && Kept(keys, first, rounds, oracle, p, k)
    ensures Persists(keys, first, rounds, oracle, p, k)
  {
    if k == 0 {
      AlwaysThere(first, rounds, p, |rounds|);
    }
  }

  lemma Unchanging(previous: Snapshot, current: Snapshot, oracle: Oracle, p: Path)
    requires p in current && oracle(p, current[p].fingerprint) && p !in Came(previous, current, oracle)
    ensures p in previous && previous[p].fingerprint == current[p].fingerprint
  {
  }

  lemma {:induction false} PersistsKept(keys: set<Path>, first: Snapshot, rounds: seq<Round>, oracle: Oracle, p: Path,
                                        k: nat)
    returns (i: nat)
    requires Covered(keys, first, oracle) && Persists(keys, first, rounds, oracle, p, k)
    ensures Kept(keys, first, rounds, oracle, p, i)
  {
    i := k;
    if k > 0 {
      var previous, current := CrawlAt(first, rounds, k - 1), CrawlAt(first, rounds, k);
      if p !in Came(previous, current, oracle) {
        Unchanging(previous, current, oracle, p);
        assert k == 1 ==> p in ExtractablePaths(first, oracle);
        i := PersistsKept(keys, first, rounds, oracle, p, k - 1);
      }
    }
  }

  /** From such a start, the stored files are exactly those that have been in every crawl since some
      crawl whose version of them could be extracted. */
  lemma StoredFromCovered(d: IndexState, first: Snapshot, oracle: Oracle, roots: nat, rounds: seq<Round>)
    requires Core(d.stores) && Covered(Keys(d), first, oracle) && InTurn(first, oracle, roots, rounds)
    ensures forall p :: p in Keys(After(d, roots, rounds)) <==>
      exists k :: Persists(Keys(d), first, rounds, oracle, p, k)
  {
    StoredExactly(d, first, oracle, roots, rounds);
    hide Core, InTurn, Keys, After, Covered, Kept, Persists;
    forall p
      ensures p in Keys(After(d, roots, rounds)) <==> exists k :: Persists(Keys(d), first, rounds, oracle, p, k)
    {
      if k :| Kept(Keys(d), first, rounds, oracle, p, k) {
        KeptPersists(Keys(d), first, rounds, oracle, p, k);
      } else if k :| Persists(Keys(d), first, rounds, oracle, p, k) {
        var i := PersistsKept(Keys(d), first, rounds, oracle, p, k);
      }
    }
  }

  // ---------------------------------------------------------------------------------
  // The counter
  // ---------------------------------------------------------------------------------

  /** Stored files that the crawl before did not have and that are back in a version that cannot be
      extracted: they are stored and not counted. */
  function Regained(keys: set<Path>, previous: Snapshot, current: Snapshot, oracle: Oracle): set<Path> {
    set p | p in keys && p in current && p !in previous && !oracle(p, current[p].fingerprint)
  }

  /** The counter is the number of stored files that the crawl has. */
  predicate CountedIn(d: IndexState, s: Snapshot) {
    d.indexed == |Keys(d) * s.Keys|
  }

  ghost predicate AlwaysCounted(d: IndexState, first: Snapshot, roots: nat, rounds: seq<Round>) {
    && CountedIn(After(d, roots, rounds), LastCrawl(first, rounds))
    && (rounds == [] || AlwaysCounted(d, first, roots, rounds[..|rounds| - 1]))
  }

  /** No round stores a file by a modification or finds a stored file back and unextractable. */
  ghost predicate NeverUncounted(d: IndexState, first: Snapshot, oracle: Oracle, roots: nat, rounds: seq<Round>) {
    rounds == [] ||
    (var init, last := rounds[..|rounds| - 1], rounds[|rounds| - 1];
     var keys := Keys(After(d, roots, init));
     && NeverUncounted(d, first, oracle, roots, init)
     && Late(keys, LastCrawl(first, init), last.crawl, oracle) == {}
     && Regained(keys, LastCrawl(first, init), last.crawl, oracle) == {})
  }

  /** The stored files that a crawl has, before and after a round. */
  lemma CrawlCount(keys: set<Path>, previous: Snapshot, current: Snapshot, oracle: Oracle)
    ensures |StoredAfter(keys, previous, current, oracle) * current.Keys| + |Gone(previous, current) * keys|
      == |keys * previous.Keys| + |Anew(previous, current, oracle)|
         + |Late(keys, previous, current, oracle)| + |Regained(keys, previous, current, oracle)|
    ensures |Gone(previous, current) * keys| <= |keys * previous.Keys|
  {
    hide *;
    StayOrGo(keys, previous, current);
    StoredParts(keys, previous, current, oracle);
    FourCounts(keys * previous.Keys * current.Keys, Anew(previous, current, oracle),
      Late(keys, previous, current, oracle),
               Regained(keys, previous, current, oracle));
  }

  lemma FourCounts(a: set<Path>, b: set<Path>, c: set<Path>, d: set<Path>)
    requires b !! a && c !! (a + b) && d !! (a + b + c)
    ensures |a + b + c + d| == |a| + |b| + |c| + |d|
  {
  }

  lemma StayOrGo(keys: set<Path>, previous: Snapshot, current: Snapshot)
    ensures |keys * previous.Keys| == |keys * previous.Keys * current.Keys| + |Gone(previous, current) * keys|
  {
    assert keys * previous.Keys == keys * previous.Keys * current.Keys + Gone(previous, current) * keys;
  }

  lemma StoredParts(keys: set<Path>, previous: Snapshot, current: Snapshot, oracle: Oracle)
    ensures StoredAfter(keys, previous, current, oracle) * current.Keys ==
      keys * previous.Keys * current.Keys + Anew(previous, current, oracle) + Late(keys, previous, current, oracle)
      + Regained(keys, previous, current, oracle)
    ensures var stay, anew := keys * previous.Keys * current.Keys, Anew(previous, current, oracle);
      var late, back := Late(keys, previous, current, oracle), Regained(keys, previous, current, oracle);
      anew !! stay && late !! (stay + anew) && back !! (stay + anew + late)
  {
  }

  lemma RoundCounts(d: IndexState, previous: Snapshot, oracle: Oracle, roots: nat, round: Round)
    requires Core(d.stores) && WellBuilt(round.crawl)
    requires Queue(previous, round.crawl, oracle, roots, round.works) && Complete(previous, round.crawl, round.works)
    ensures var keys, d' := Keys(d), Refreshed(d, roots, round.crawl, round.works);
      && (CountedIn(d, previous) ==> (CountedIn(d', round.crawl) <==>
            Late(keys, previous, round.crawl, oracle) == {} && Regained(keys, previous, round.crawl, oracle) == {}))
      && (d.indexed <= |keys * previous.Keys| ==> d'.indexed <= |Keys(d') * round.crawl.Keys|)
  {
    hide Core, WellBuilt, Queue, Complete, Refreshed, StoredAfter, Gone, Anew, Late, Regained;
    var keys := Keys(d);
    RefreshOutcome(d, previous, round.crawl, oracle, roots, round.works);
    CrawlCount(keys, previous, round.crawl, oracle);
    NoneLeft(Late(keys, previous, round.crawl, oracle));
    NoneLeft(Regained(keys, previous, round.crawl, oracle));
  }

  lemma NoneLeft(s: set<Path>)
    ensures |s| == 0 <==> s == {}
  {
  }

  /** From any start at which the counter is the number of stored files that the last crawl has, as
      it is after a restart, it is always that number if and only if no round stores a file by a
      modification or finds a stored file back and unextractable. */
  lemma {:induction false} CountedExactly(d: IndexState, first: Snapshot, oracle: Oracle, roots: nat,
                                          rounds: seq<Round>)
    requires Core(d.stores) && InTurn(first, oracle, roots, rounds) && CountedIn(d, first)
    ensures AlwaysCounted(d, first, roots, rounds) <==> NeverUncounted(d, first, oracle, roots, rounds)
  {
    hide Core, WellBuilt, Queue, Complete, Refreshed, Late, Regained, Keys, CountedIn;
    if rounds == [] {
      assert LastCrawl(first, rounds) == first;
    } else {
      hide LastCrawl;
      var init, last := rounds[..|rounds| - 1], rounds[|rounds| - 1];
      CountedExactly(d, first, oracle, roots, init);
      StoredExactly(d, first, oracle, roots, init);
      LastIs(first, rounds);
      if AlwaysCounted(d, first, roots, init) {
        LastIsCounted(d, first, roots, init);
        RoundCounts(After(d, roots, init), LastCrawl(first, init), oracle, roots, last);
      }
    }
  }

  lemma LastIs(first: Snapshot, rounds: seq<Round>)
    requires rounds != []
    ensures LastCrawl(first, rounds) == rounds[|rounds| - 1].crawl
  {
  }

  lemma LastIsCounted(d: IndexState, first: Snapshot, roots: nat, rounds: seq<Round>)
    requires AlwaysCounted(d, first, roots, rounds)
    ensures CountedIn(After(d, roots, rounds), LastCrawl(first, rounds))
  {
  }

  /** From any start at which the counter is not above that number, it never is, and so never above
      the number of stored files. */
  lemma {:induction false} NeverOvercounted(d: IndexState, first: Snapshot, oracle: Oracle, roots: nat,
                                            rounds: seq<Round>)
    requires Core(d.stores) && InTurn(first, oracle, roots, rounds)
    requires d.indexed <= |Keys(d) * first.Keys|
    ensures var d' := After(d, roots, rounds);
      d'.indexed <= |Keys(d') * LastCrawl(first, rounds).Keys| <= |d'.stores.tables.files|
  {
    hide Core, WellBuilt, Queue, Complete, Refreshed, Late, Regained;
    var d' := After(d, roots, rounds);
    KeysCount(d'.stores.tables.files);
    SubsetCount(Keys(d') * LastCrawl(first, rounds).Keys, Keys(d'));
    if rounds != [] {
      var init, last := rounds[..|rounds| - 1], rounds[|rounds| - 1];
      NeverOvercounted(d, first, oracle, roots, init);
      StoredExactly(d, first, oracle, roots, init);
      LastIs(first, rounds);
      RoundCounts(After(d, roots, init), LastCrawl(first, init), oracle, roots, last);
    }
  }

  lemma {:induction false} CoveredStays(d: IndexState, first: Snapshot, oracle: Oracle, roots: nat, rounds: seq<Round>)
    requires Core(d.stores) && Covered(Keys(d), first, oracle) && InTurn(first, oracle, roots, rounds)
    ensures Core(After(d, roots, rounds).stores)
    ensures Covered(Keys(After(d, roots, rounds)), LastCrawl(first, rounds), oracle)
  {
    hide Core, WellBuilt, Queue, Complete, Refreshed, Covered, Keys;
    if rounds == [] {
      assert LastCrawl(first, rounds) == first;
    } else {
      var init := rounds[..|rounds| - 1];
      CoveredStays(d, first, oracle, roots, init);
      LastIs(first, rounds);
      RoundOutcome(After(d, roots, init), LastCrawl(first, init), oracle, roots, rounds[|rounds| - 1]);
    }
  }

  lemma CoveredCounts(d: IndexState, s: Snapshot, current: Snapshot, oracle: Oracle)
    requires Covered(Keys(d), s, oracle)
    ensures CountedIn(d, s) <==> d.indexed == |d.stores.tables.files|
    ensures Regained(Keys(d), s, current, oracle) == {}
  {
    KeysCount(d.stores.tables.files);
    assert Keys(d) * s.Keys == Keys(d);
  }

  /** From a covered start at which all stored files are counted, the counter is always the number of
      stored files if and only if no round stores a file by a modification. */
  lemma {:induction false} CountedFromCovered(d: IndexState, first: Snapshot, oracle: Oracle, roots: nat,
                                              rounds: seq<Round>)
    requires Core(d.stores) && Covered(Keys(d), first, oracle) && InTurn(first, oracle, roots, rounds)
    requires d.indexed == |d.stores.tables.files|
    ensures AllCounted(d, roots, rounds) <==> NeverLate(d, first, oracle, roots, rounds)
  {
    hide Core, WellBuilt, Queue, Complete, Refreshed, Covered, Late, Regained, Keys, CountedIn, Stale, Missed;
    if rounds != [] {
      hide LastCrawl;
      var init, last := rounds[..|rounds| - 1], rounds[|rounds| - 1];
      var before, previous := After(d, roots, init), LastCrawl(first, init);
      CountedFromCovered(d, first, oracle, roots, init);
      CoveredStays(d, first, oracle, roots, init);
      CoveredStays(d, first, oracle, roots, rounds);
      LastIs(first, rounds);
      CoveredCounts(before, previous, last.crawl, oracle);
      CoveredCounts(After(d, roots, rounds), last.crawl, last.crawl, oracle);
      RoundCounts(before, previous, oracle, roots, last);
      if AllCounted(d, roots, init) {
        LastOfAll(d, roots, init);
      }
    }
  }

  ghost predicate AllCounted(d: IndexState, roots: nat, rounds: seq<Round>) {
    && After(d, roots, rounds).indexed == |After(d, roots, rounds).stores.tables.files|
    && (rounds == [] || AllCounted(d, roots, rounds[..|rounds| - 1]))
  }

  lemma LastOfAll(d: IndexState, roots: nat, rounds: seq<Round>)
    requires AllCounted(d, roots, rounds)
    ensures After(d, roots, rounds).indexed == |After(d, roots, rounds).stores.tables.files|
  {
  }

  /** No round stores a file by a modification. */
  ghost predicate NeverLate(d: IndexState, first: Snapshot, oracle: Oracle, roots: nat, rounds: seq<Round>) {
    rounds == [] ||
    (var init, last := rounds[..|rounds| - 1], rounds[|rounds| - 1];
     && NeverLate(d, first, oracle, roots, init)
     && Late(Keys(After(d, roots, init)), LastCrawl(first, init), last.crawl, oracle) == {})
  }

  // ---------------------------------------------------------------------------------
  // After a restart
  // ---------------------------------------------------------------------------------

  /** A restart forgets snapshot and counter but not the rows: its first refresh deletes nothing and
      counts the extractable files of its crawl. */
  lemma RestartOutcome(d: IndexState, current: Snapshot, oracle: Oracle, roots: nat, works: seq<Work>)
    requires Core(d.stores) && d.snapshot.None? && d.indexed == 0 && WellBuilt(current)
    requires Queue(map[], current, oracle, roots, works) && Complete(map[], current, works)
    ensures var d' := Refreshed(d, roots, current, works);
      && Keys(d') == Keys(d) + ExtractablePaths(current, oracle)
      && d'.indexed == |ExtractablePaths(current, oracle)|
  {
    hide *;
    RefreshOutcome(d, map[], current, oracle, roots, works);
    FromNothing(Keys(d), current, oracle);
    KeysAre(d);
    KeysAre(Refreshed(d, roots, current, works));
    CountedFromZero(Refreshed(d, roots, current, works).indexed, |ExtractablePaths(current, oracle)|);
  }

  lemma KeysAre(d: IndexState)
    ensures Keys(d) == d.stores.tables.files.Keys
  {
  }

  lemma FromNothing(keys: set<Path>, current: Snapshot, oracle: Oracle)
    ensures StoredAfter(keys, map[], current, oracle) == keys + ExtractablePaths(current, oracle)
    ensures Anew(map[], current, oracle) == ExtractablePaths(current, oracle)
    ensures Gone(map[], current) * keys == {} && |Gone(map[], current) * keys| == 0
  {
    assert Gone(map[], current) == {};
    assert Came(map[], current, oracle) == ExtractablePaths(current, oracle);
  }

  lemma CountedFromZero(n: nat, a: nat)
    requires Counted(n, 0, a, 0)
    ensures n == a
  {
  }

  // ---------------------------------------------------------------------------------
  // Refreshes that miss their promise
  // ---------------------------------------------------------------------------------

  const START := IndexState(EMPTY_STORES, None, 0)

  function OneFile(size: nat): Snapshot {
    map["/a" := EntryOf(CrawlCandidate(0, "/a", "/a", [], "a", None, size, 0, false, false))]
  }

  /** Only a version of size 1 can be extracted. */
  const ONLY_ONE: Oracle := (p: Path, f: Fingerprint) => f.size == 1

  /** A refresh that queues the change of the one path there is. */
  function Only(previous: Snapshot, current: Snapshot, input: Input): Round {
    Round(current, [Do(Job(EventFor(previous, current, "/a"), input)), CommitBatch])
  }

  /** The input fits the version that a crawl has of the one path, if it has one. */
  predicate Fits(current: Snapshot, input: Input) {
    && input.faults.failing.None?
    && ("/a" in current ==> (input.extraction.Some? <==> current["/a"].fingerprint.size == 1))
  }

  predicate AtMostOne(s: Snapshot) {
    s.Keys <= {"/a"} && forall p :: p in s ==>
      s[p] == EntryOf(s[p].candidate) && s[p].candidate.canonical == p && s[p].candidate.rootId == 0
  }

  lemma OnlyInTurn(previous: Snapshot, current: Snapshot, input: Input)
    requires AtMostOne(previous) && AtMostOne(current) && Fits(current, input)
    requires "/a" in previous.Keys + current.Keys && EventFor(previous, current, "/a").kind != Unchanged
    ensures var round := Only(previous, current, input);
      && WellBuilt(round.crawl) && Queue(previous, current, ONLY_ONE, 1, round.works)
           && Complete(previous, current, round.works)
  {
    var works := Only(previous, current, input).works;
    var job := Job(EventFor(previous, current, "/a"), input);
    assert works[0] == Do(job) && works[0] in works && job.event.path == "/a";
    assert "/a" in PathsOf(works);
    assert forall p :: p in previous.Keys + current.Keys ==> p == "/a";
  }

  /** One such round from a covered state. */
  lemma OnlyOutcome(d: IndexState, previous: Snapshot, current: Snapshot, input: Input)
    requires Core(d.stores) && Covered(Keys(d), previous, ONLY_ONE)
    requires AtMostOne(previous) && AtMostOne(current) && Fits(current, input)
    requires "/a" in previous.Keys + current.Keys && EventFor(previous, current, "/a").kind != Unchanged
    ensures var d' := Refreshed(d, 1, current, Only(previous, current, input).works);
      && Core(d'.stores) && d'.snapshot == Some(current) && Covered(Keys(d'), current, ONLY_ONE)
      && Keys(d') == ExtractablePaths(current, ONLY_ONE) + (Keys(d) * current.Keys)
      && Counted(d'.indexed, d.indexed, |Anew(previous, current, ONLY_ONE)|, |Gone(previous, current) * Keys(d)|)
  {
    hide Core, WellBuilt, Queue, Complete, Refreshed, StoredAfter, Counted, ExtractablePaths, Covered, EventFor;
    OnlyInTurn(previous, current, input);
    RoundOutcome(d, previous, ONLY_ONE, 1, Only(previous, current, input));
    RefreshOutcome(d, previous, current, ONLY_ONE, 1, Only(previous, current, input).works);
  }

  lemma StartIsCovered()
    ensures Core(START.stores) && Keys(START) == {} && Covered({}, map[], ONLY_ONE)
  {
  }

  lemma AfterRounds(one: Round, two: Round, three: Round)
    ensures var d1 := Refreshed(START, 1, one.crawl, one.works);
      var d2 := Refreshed(d1, 1, two.crawl, two.works);
      && After(START, 1, [one]) == d1
      && After(START, 1, [one, two]) == d2
      && After(START, 1, [one, two, three]) == Refreshed(d2, 1, three.crawl, three.works)
  {
    hide Refreshed;
    assert [one, two, three][..2] == [one, two] && [one, two][..1] == [one] && [one][..0] == [];
    assert After(START, 1, []) == START;
    assert After(START, 1, [one]) == Refreshed(START, 1, one.crawl, one.works);
    assert After(START, 1, [one, two]) == Refreshed(After(START, 1, [one]), 1, two.crawl, two.works);
  }

  lemma OneFiles()
    ensures AtMostOne(map[]) && forall size :: AtMostOne(OneFile(size)) && OneFile(size).Keys == {"/a"}
    ensures forall size :: OneFile(size)["/a"].fingerprint.size == size
    ensures ExtractablePaths(OneFile(1), ONLY_ONE) == {"/a"} && ExtractablePaths(OneFile(2), ONLY_ONE) == {}
    ensures ExtractablePaths(map[], ONLY_ONE) == {}
  {
  }

  lemma OneFileEvents()
    ensures forall size :: EventFor(map[], OneFile(size), "/a").kind == Added
    ensures forall size :: EventFor(OneFile(size), map[], "/a").kind == Deleted
    ensures EventFor(OneFile(1), OneFile(2), "/a").kind == Modified
    ensures EventFor(OneFile(2), OneFile(1), "/a").kind == Modified
    ensures Anew(map[], OneFile(1), ONLY_ONE) == {"/a"} && Anew(map[], OneFile(2), ONLY_ONE) == {}
    ensures Anew(OneFile(2), OneFile(1), ONLY_ONE) == {} && Anew(OneFile(1), OneFile(2), ONLY_ONE) == {}
    ensures Anew(OneFile(1), map[], ONLY_ONE) == {} && Gone(OneFile(1), map[]) == {"/a"}
    ensures forall size :: Gone(map[], OneFile(size)) == {}
    ensures Gone(OneFile(2), OneFile(1)) == {} && Gone(OneFile(1), OneFile(2)) == {}
  {
  }

  /** The first round of the examples. */
  lemma FirstRound(size: nat, input: Input)
    requires size == 1 || size == 2
    requires Fits(OneFile(size), input)
    ensures var d := Refreshed(START, 1, OneFile(size), Only(map[], OneFile(size), input).works);
      && Consistent(d, OneFile(size), ONLY_ONE) && Covered(Keys(d), OneFile(size), ONLY_ONE)
      && Keys(d) == (if size == 1 then {"/a"} else {}) && d.indexed == (if size == 1 then 1 else 0)
  {
    hide *;
    var d := Refreshed(START, 1, OneFile(size), Only(map[], OneFile(size), input).works);
    StartIsCovered();
    OneFiles();
    OneFileEvents();
    OnlyOutcome(START, map[], OneFile(size), input);
    FirstCounts(d, size);
    KeysAre(d);
    KeysCount(d.stores.tables.files);
    IsConsistent(d, OneFile(size));
  }

  lemma FirstCounts(d: IndexState, size: nat)
    requires size == 1 || size == 2
    requires Counted(d.indexed, START.indexed, |Anew(map[], OneFile(size), ONLY_ONE)|,
      |Gone(map[], OneFile(size)) * Keys(START)|)
    ensures d.indexed == if size == 1 then 1 else 0
  {
    OneFileEvents();
    hide OneFile, Anew, Gone;
    assert {} * Keys(START) == {};
  }

  lemma IsConsistent(d: IndexState, s: Snapshot)
    requires Core(d.stores) && d.snapshot == Some(s) && Keys(d) == ExtractablePaths(s, ONLY_ONE)
    requires d.indexed == |d.stores.tables.files|
    ensures Consistent(d, s, ONLY_ONE)
  {
    hide Core;
  }

  /** A file that grows to a version that cannot be extracted: the first refresh is right, and after
      the second the old version is still stored. */
  lemma StalePathStays(readable: Input, unreadable: Input)
    requires Fits(OneFile(1), readable) && Fits(OneFile(2), unreadable)
    ensures var one, two := Only(map[], OneFile(1), readable), Only(OneFile(1), OneFile(2), unreadable);
      var d1, d2 := After(START, 1, [one]), After(START, 1, [one, two]);
      && Consistent(d1, OneFile(1), ONLY_ONE)
      && Keys(d2) == {"/a"} && ExtractablePaths(OneFile(2), ONLY_ONE) == {}
  {
    hide *;
    var one, two := Only(map[], OneFile(1), readable), Only(OneFile(1), OneFile(2), unreadable);
    RoundIs(map[], OneFile(1), readable);
    RoundIs(OneFile(1), OneFile(2), unreadable);
    AfterRounds(one, two, two);
    FirstRound(1, readable);
    OneFiles();
    OneFileEvents();
    IsConsistentCore(After(START, 1, [one]), OneFile(1));
    OnlyOutcome(After(START, 1, [one]), OneFile(1), OneFile(2), unreadable);
  }

  lemma RoundIs(previous: Snapshot, current: Snapshot, input: Input)
    ensures Only(previous, current, input).crawl == current
  {
  }

  lemma IsConsistentCore(d: IndexState, s: Snapshot)
    requires Consistent(d, s, ONLY_ONE)
    ensures Core(d.stores)
  {
  }

  /** A file whose first version cannot be extracted: the refresh that stores its second version
      does not count it, and the one that deletes it finds the counter at zero. */
  lemma LateFileIsNotCounted(unreadable: Input, readable: Input, none: Input)
    requires Fits(OneFile(2), unreadable) && Fits(OneFile(1), readable) && Fits(map[], none)
    ensures var one, two, three :=
      Only(map[], OneFile(2), unreadable), Only(OneFile(2), OneFile(1), readable), Only(OneFile(1), map[], none);
      var d1, d2, d3 := After(START, 1, [one]), After(START, 1, [one, two]), After(START, 1, [one, two, three]);
      && Consistent(d1, OneFile(2), ONLY_ONE)
      && Keys(d2) == {"/a"} == ExtractablePaths(OneFile(1), ONLY_ONE)
      && d2.indexed == 0 != |d2.stores.tables.files|
      && Keys(d3) == {} && d3.indexed == 0
  {
    hide *;
    var one, two, three :=
      Only(map[], OneFile(2), unreadable), Only(OneFile(2), OneFile(1), readable), Only(OneFile(1), map[], none);
    var d1, d2, d3 := After(START, 1, [one]), After(START, 1, [one, two]), After(START, 1, [one, two, three]);
    RoundIs(map[], OneFile(2), unreadable);
    RoundIs(OneFile(2), OneFile(1), readable);
    RoundIs(OneFile(1), map[], none);
    AfterRounds(one, two, three);
    FirstRound(2, unreadable);
    OneFiles();
    OneFileEvents();
    IsConsistentCore(d1, OneFile(2));
    OnlyOutcome(d1, OneFile(2), OneFile(1), readable);
    OnlyOutcome(d2, OneFile(1), map[], none);
    assert {} * Keys(d1) == {} && {"/a"} * Keys(d2) == {"/a"};
    LaterCounts(d1.indexed, d2.indexed, d3.indexed);
    KeysAre(d2);
    KeysCount(d2.stores.tables.files);
  }

  lemma LaterCounts(n1: nat, n2: nat, n3: nat)
    requires n1 == 0 && Counted(n2, n1, 0, 0) && Counted(n3, n2, 0, 1)
    ensures n2 == 0 && n3 == 0
  {
  }

  /** Overlapping refreshes: processed after the second crawl, the first one's event puts its own
      crawl's entry back. */
  lemma OverlapRewindsSnapshot(d: IndexState, input: Input)
    requires d.snapshot == Some(OneFile(3)) && input.extraction.Some? && input.faults.failing.None?
    ensures Processed(d, 1, EventFor(OneFile(1), OneFile(2), "/a"), input).snapshot == Some(OneFile(2))
    ensures OneFile(2) != OneFile(3)
  {
    var e := EventFor(OneFile(1), OneFile(2), "/a");
    assert OneFile(2)["/a"] != OneFile(3)["/a"];
    assert OneFile(3)["/a" := OneFile(2)["/a"]] == OneFile(2);
    SnapshotProcessed(d, 1, e, input);
    hide Processed;
  }
}
