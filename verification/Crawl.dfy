/** Crawl results, snapshots of them and the change events between two snapshots. */
module Crawl {
  import opened Common
  import opened Paths
  import opened Sorting

  datatype CrawlCandidate = CrawlCandidate(
    rootId: nat,
    observed: Path,
    canonical: Path,
    aliases: seq<Path>,
    name: string,
    extension: Option<string>,
    size: nat,
    modified: nat,
    hidden: bool,
    isAlias: bool)

  datatype Fingerprint = Fingerprint(size: nat, modified: nat)

  datatype SnapshotEntry = SnapshotEntry(candidate: CrawlCandidate, fingerprint: Fingerprint)

  type Snapshot = map<Path, SnapshotEntry>

  datatype ChangeKind = Added | Modified | Deleted | Unchanged

  datatype ChangeEvent = ChangeEvent(kind: ChangeKind, path: Path, candidate: Option<CrawlCandidate>)

  function EntryOf(c: CrawlCandidate): SnapshotEntry {
    SnapshotEntry(c, Fingerprint(c.size, c.modified))
  }

  function Updated(files: Snapshot, event: ChangeEvent): Snapshot {
    match event.kind
    case Added => if event.candidate.Some? then files[event.path := EntryOf(event.candidate.value)] else files
    case Modified => if event.candidate.Some? then files[event.path := EntryOf(event.candidate.value)] else files
    case Deleted => files - {event.path}
    case Unchanged => files
  }

  /** The snapshot after one processed event; a missing snapshot starts out empty. */
  function SnapshotUpdated(snapshot: Option<Snapshot>, event: ChangeEvent): Option<Snapshot> {
    Some(Updated(if snapshot.Some? then snapshot.value else map[], event))
  }

  // ---------------------------------------------------------------------------------
  // The difference of two snapshots
  // ---------------------------------------------------------------------------------

  /** What happened to a path between two snapshots. */
  function EventFor(previous: Snapshot, current: Snapshot, path: Path): ChangeEvent {
    if path !in current then ChangeEvent(Deleted, path, None)
    else
      var c := current[path].candidate;
      if path !in previous then ChangeEvent(Added, path, Some(c))
      else if previous[path].fingerprint != current[path].fingerprint then ChangeEvent(Modified, path, Some(c))
      else ChangeEvent(Unchanged, path, Some(c))
  }

  function EventsFor(previous: Snapshot, current: Snapshot, paths: set<Path>): set<ChangeEvent> {
    set p | p in paths :: EventFor(previous, current, p)
  }

  lemma EventPath(previous: Snapshot, current: Snapshot, p: Path)
    ensures EventFor(previous, current, p).path == p
  {
  }

  predicate EventLe(a: ChangeEvent, b: ChangeEvent) {
    PathLe(a.path, b.path)
  }

  /** One event for every path of either snapshot, in strictly ascending order of the paths. */
  ghost predicate IsDiff(previous: Snapshot, current: Snapshot, events: seq<ChangeEvent>) {
    && (forall e :: e in events <==> e in EventsFor(previous, current, previous.Keys + current.Keys))
    && Ascending(events)
  }

  ghost predicate Ascending(events: seq<ChangeEvent>) {
    forall i, j :: 0 <= i < j < |events| ==>
      PathLe(events[i].path, events[j].path) && events[i].path != events[j].path
  }

  lemma SameLast(a: seq<ChangeEvent>, b: seq<ChangeEvent>)
    requires Ascending(a) && Ascending(b) && a != [] && b != [] && forall e :: e in a <==> e in b
    ensures a[|a| - 1] == b[|b| - 1]
  {
    var x, y := a[|a| - 1], b[|b| - 1];
    assert x in a && y in b;
    var i :| 0 <= i < |a| && a[i] == y;
    var j :| 0 <= j < |b| && b[j] == x;
    if x != y {
      PathLeAntisymmetric(x.path, y.path);
    }
  }

  lemma InitOf(events: seq<ChangeEvent>)
    requires Ascending(events) && events != []
    ensures Ascending(events[..|events| - 1])
    ensures forall e :: e in events[..|events| - 1] <==> e in events && e != events[|events| - 1]
  {
    var init, last := events[..|events| - 1], events[|events| - 1];
    assert events == init + [last];
    assert forall i :: 0 <= i < |init| ==> init[i].path != last.path;
  }

  lemma EmptyTogether(a: seq<ChangeEvent>, b: seq<ChangeEvent>)
    requires forall e :: e in a <==> e in b
    ensures a == [] <==> b == []
  {
    assert |a| > 0 ==> a[0] in a;
    assert |b| > 0 ==> b[0] in b;
  }

  lemma {:induction false} AscendingIsUnique(a: seq<ChangeEvent>, b: seq<ChangeEvent>)
    requires Ascending(a) && Ascending(b) && forall e :: e in a <==> e in b
    ensures a == b
  {
    hide Ascending;
    EmptyTogether(a, b);
    if a != [] {
      SameLast(a, b);
      InitOf(a);
      InitOf(b);
      var a', b' := a[..|a| - 1], b[..|b| - 1];
      forall e
        ensures e in a' <==> e in b'
      {
        assert e in a <==> e in b;
      }
      AscendingIsUnique(a', b');
      assert a == a' + [a[|a| - 1]] && b == b' + [b[|b| - 1]];
    }
  }

  /** Two snapshots have one difference: the order of the hash maps leaves no trace in it. */
  lemma DiffIsUnique(previous: Snapshot, current: Snapshot, a: seq<ChangeEvent>, b: seq<ChangeEvent>)
    requires IsDiff(previous, current, a) && IsDiff(previous, current, b)
    ensures a == b
  {
    hide Ascending, EventsFor;
    forall e
      ensures e in a <==> e in b
    {
      assert e in a <==> e in EventsFor(previous, current, previous.Keys + current.Keys);
    }
    AscendingIsUnique(a, b);
  }

  lemma EventOrder()
    ensures TotalPreorder(EventLe)
  {
    forall a: ChangeEvent, b: ChangeEvent
      ensures EventLe(a, b) || EventLe(b, a)
    {
      PathLeTotal(a.path, b.path);
    }
    forall a: ChangeEvent, b: ChangeEvent, c: ChangeEvent | EventLe(a, b) && EventLe(b, c)
      ensures EventLe(a, c)
    {
      PathLeTransitive(a.path, b.path, c.path);
    }
  }

  /** Sorting the events of distinct paths gives the difference, whatever order they were in. */
  lemma SortedIsDiff(previous: Snapshot, current: Snapshot, found: seq<ChangeEvent>, events: seq<ChangeEvent>)
    requires multiset(found) == multiset(EventsFor(previous, current, previous.Keys + current.Keys))
    requires multiset(events) == multiset(found) && Sorted(events, EventLe)
    ensures IsDiff(previous, current, events)
  {
    var all := EventsFor(previous, current, previous.Keys + current.Keys);
    forall e
      ensures e in events <==> e in all
    {
      assert e in multiset(events) <==> e in multiset(all);
    }
    forall i, j | 0 <= i < j < |events|
      ensures events[i].path != events[j].path
    {
      if events[i].path == events[j].path {
        assert events[i] in all && events[j] in all;
        CountOfRepeated(events, i, j);
      }
    }
  }

  lemma EventsForNext(previous: Snapshot, current: Snapshot, paths: set<Path>, p: Path)
    requires p !in paths
    ensures multiset(EventsFor(previous, current, paths + {p}))
         == multiset(EventsFor(previous, current, paths)) + multiset{EventFor(previous, current, p)}
  {
    var before := EventsFor(previous, current, paths);
    assert EventsFor(previous, current, paths + {p}) == before + {EventFor(previous, current, p)};
    assert EventFor(previous, current, p) !in before;
  }

  /** The change events from one snapshot to the next. Without a previous snapshot every file is
      an addition. */
  method DiffSnapshots(previous: Option<Snapshot>, current: Snapshot) returns (events: seq<ChangeEvent>)
    ensures IsDiff(if previous.Some? then previous.value else map[], current, events)
  {
    hide IsDiff, EventsFor, EventFor;
    ghost var before := if previous.Some? then previous.value else map[];
    events := [];
    var rest := current.Keys;
    NoEvents(before, current);
    while rest != {}
      invariant rest <= current.Keys
      invariant multiset(events) == multiset(EventsFor(before, current, current.Keys - rest))
      decreases rest
    {
      var path :| path in rest;
      var entry := current[path];
      var kind := if previous.None? || path !in previous.value then Added
        else if previous.value[path].fingerprint != entry.fingerprint then Modified
        else Unchanged;
      EventsForNext(before, current, current.Keys - rest, path);
      EventForKind(before, current, path, kind);
      assert current.Keys - (rest - {path}) == (current.Keys - rest) + {path};
      events := events + [ChangeEvent(kind, path, Some(entry.candidate))];
      rest := rest - {path};
    }
    assert current.Keys - {} == current.Keys;
    if previous.Some? {
      var olds := previous.value.Keys;
      ghost var seen := current.Keys;
      while olds != {}
        invariant olds <= before.Keys && seen == current.Keys + (before.Keys - olds)
        invariant multiset(events) == multiset(EventsFor(before, current, seen))
        decreases olds
      {
        var path :| path in olds;
        if path !in current {
          EventsForNext(before, current, seen, path);
          EventForGone(before, current, path);
          events := events + [ChangeEvent(Deleted, path, None)];
        } else {
          assert seen + {path} == seen;
        }
        olds, seen := olds - {path}, seen + {path};
      }
      assert seen == before.Keys + current.Keys;
    } else {
      assert current.Keys == before.Keys + current.Keys;
    }
    EventOrder();
    ghost var found := events;
    events := SortBy(events, EventLe);
    SortedIsDiff(before, current, found, events);
  }

  lemma NoEvents(previous: Snapshot, current: Snapshot)
    ensures EventsFor(previous, current, current.Keys - current.Keys) == {}
  {
  }

  lemma EventForKind(previous: Snapshot, current: Snapshot, path: Path, kind: ChangeKind)
    requires path in current
    requires kind == if path !in previous then Added
      else if previous[path].fingerprint != current[path].fingerprint then Modified else Unchanged
    ensures EventFor(previous, current, path) == ChangeEvent(kind, path, Some(current[path].candidate))
  {
  }

  lemma EventForGone(previous: Snapshot, current: Snapshot, path: Path)
    requires path !in current
    ensures EventFor(previous, current, path) == ChangeEvent(Deleted, path, None)
  {
  }
}
