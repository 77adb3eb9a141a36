/** Folding change events into a snapshot, in any order. */
module SnapshotLaws {
  import opened Common
  import opened Crawl
  import opened Sorting

  /** Every entry carries the fingerprint of its candidate, under the candidate's own path. */
  ghost predicate WellBuilt(s: Snapshot) {
    forall p :: p in s ==> s[p] == EntryOf(s[p].candidate) && s[p].candidate.canonical == p
  }

  function Folded(files: Snapshot, events: seq<ChangeEvent>): Snapshot {
    if events == [] then files
    else Updated(Folded(files, events[..|events| - 1]), events[|events| - 1])
  }

  ghost predicate DistinctPaths(events: seq<ChangeEvent>) {
    forall i, j :: 0 <= i < j < |events| ==> events[i].path != events[j].path
  }

  /** The events are those of the difference, in some order. */
  ghost predicate DiffInAnyOrder(previous: Snapshot, current: Snapshot, events: seq<ChangeEvent>) {
    && DistinctPaths(events)
    && forall e :: e in events <==> e in EventsFor(previous, current, previous.Keys + current.Keys)
  }

  ghost predicate SameAt(a: Snapshot, b: Snapshot, p: Path) {
    (p in a <==> p in b) && (p in a ==> a[p] == b[p])
  }

  lemma {:induction false} FoldUntouched(files: Snapshot, events: seq<ChangeEvent>, p: Path)
    requires forall e :: e in events ==> e.path != p
    ensures SameAt(Folded(files, events), files, p)
  {
    if events != [] {
      var init, last := events[..|events| - 1], events[|events| - 1];
      assert last in events;
      FoldUntouched(files, init, p);
    }
  }

  lemma LastApart(init: seq<ChangeEvent>, last: ChangeEvent)
    requires DistinctPaths(init + [last])
    ensures DistinctPaths(init)
    ensures forall e :: e in init ==> e.path != last.path
  {
    var all := init + [last];
    forall i | 0 <= i < |init|
      ensures init[i].path != last.path
    {
      assert all[i].path != all[|init|].path;
    }
    forall i, j | 0 <= i < j < |init|
      ensures init[i].path != init[j].path
    {
      assert all[i].path != all[j].path;
    }
  }

  lemma FoldNext(files: Snapshot, init: seq<ChangeEvent>, last: ChangeEvent)
    ensures Folded(files, init + [last]) == Updated(Folded(files, init), last)
  {
    hide Updated;
    assert (init + [last])[..|init|] == init;
  }

  /** An event concerns the entry at its path only, and depends on it only. */
  lemma UpdateIsLocal(a: Snapshot, b: Snapshot, e: ChangeEvent, p: Path)
    requires SameAt(a, b, p)
    ensures e.path != p ==> SameAt(Updated(a, e), b, p)
    ensures e.path == p ==> SameAt(Updated(a, e), Updated(b, e), p)
  {
  }

  lemma {:induction false} FoldTouched(files: Snapshot, events: seq<ChangeEvent>, e: ChangeEvent)
    requires DistinctPaths(events) && e in events
    ensures SameAt(Folded(files, events), Updated(files, e), e.path)
  {
    hide DistinctPaths, Folded, Updated, SameAt;
    var init, last := events[..|events| - 1], events[|events| - 1];
    assert events == init + [last];
    LastApart(init, last);
    FoldNext(files, init, last);
    if last == e {
      FoldUntouched(files, init, e.path);
      UpdateIsLocal(Folded(files, init), files, e, e.path);
    } else {
      assert e in init;
      FoldTouched(files, init, e);
      UpdateIsLocal(Folded(files, init), Updated(files, e), last, e.path);
    }
  }

  /** Folding the difference into the previous snapshot gives the current files and fingerprints,
      in whatever order the events are processed. */
  lemma DiffLeadsToCurrent(previous: Snapshot, current: Snapshot, events: seq<ChangeEvent>)
    requires WellBuilt(current) && DiffInAnyOrder(previous, current, events)
    ensures Folded(previous, events).Keys == current.Keys
    ensures forall p :: p in current ==>
      p in Folded(previous, events) && Folded(previous, events)[p].fingerprint == current[p].fingerprint
  {
    hide DistinctPaths, Folded;
    var result := Folded(previous, events);
    forall p
      ensures p in result <==> p in current
      ensures p in current ==> p in result && result[p].fingerprint == current[p].fingerprint
    {
      if p in previous.Keys + current.Keys {
        assert EventFor(previous, current, p) in events;
        FoldTouched(previous, events, EventFor(previous, current, p));
      } else {
        FoldUntouched(previous, events, p);
      }
    }
  }

  /** Replaying any of the difference's events on the current snapshot, in any order and any
      number of times, changes nothing. */
  lemma {:induction false} ReplayChangesNothing(previous: Snapshot, current: Snapshot, events: seq<ChangeEvent>)
    requires WellBuilt(current)
    requires forall e :: e in events ==> e in EventsFor(previous, current, previous.Keys + current.Keys)
    ensures Folded(current, events) == current
  {
    if events != [] {
      var init, last := events[..|events| - 1], events[|events| - 1];
      assert last in events;
      ReplayChangesNothing(previous, current, init);
      assert last == EventFor(previous, current, last.path);
    }
  }

  /** Any reordering of the events that the diff finds is the difference in some order. */
  lemma FoundDiffInAnyOrder(previous: Snapshot, current: Snapshot, found: seq<ChangeEvent>, events: seq<ChangeEvent>)
    requires IsDiff(previous, current, found) && multiset(events) == multiset(found)
    ensures DiffInAnyOrder(previous, current, events)
  {
    hide EventsFor;
    assert Distinct(found);
    Reordered(found, events);
    forall i, j | 0 <= i < j < |events|
      ensures events[i].path != events[j].path
    {
      assert events[i] in events && events[j] in events;
      assert events[i] in found && events[j] in found;
      var a :| 0 <= a < |found| && found[a] == events[i];
      var b :| 0 <= b < |found| && found[b] == events[j];
      assert a < b || b < a;
    }
  }
}
