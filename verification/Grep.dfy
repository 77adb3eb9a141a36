/** The frames a streaming grep writes: matches candidate by candidate, then one final frame. */
module Grep {
  import opened Common

  /** A candidate document: its path, the extension of that path and the lines of its content. */
  datatype Candidate = Candidate(path: Path, extension: Option<string>, lines: seq<string>)

  datatype GrepMatch = GrepMatch(path: Path, lineNumber: nat, line: string)

  datatype GrepFrame = GrepFrame(matches: seq<GrepMatch>, isFinal: bool)

  const FINAL := GrepFrame([], true)

  predicate Passes(c: Candidate, filters: seq<string>) {
    filters == [] || (if c.extension.Some? then c.extension.value else "") in filters
  }

  // ---------------------------------------------------------------------------------
  // What there is to find
  // ---------------------------------------------------------------------------------

  /** The matching lines among the first `n` of a candidate, numbered from 1. */
  function MatchesUpTo(c: Candidate, hit: string -> bool, n: nat): (r: seq<GrepMatch>)
    requires n <= |c.lines|
  {
    if n == 0 then []
    else MatchesUpTo(c, hit, n - 1) + if hit(c.lines[n - 1]) then [GrepMatch(c.path, n, c.lines[n - 1])] else []
  }

  function FileMatches(c: Candidate, filters: seq<string>, hit: string -> bool): seq<GrepMatch> {
    if Passes(c, filters) then MatchesUpTo(c, hit, |c.lines|) else []
  }

  function AllMatches(cs: seq<Candidate>, filters: seq<string>, hit: string -> bool): seq<GrepMatch> {
    if cs == [] then []
    else AllMatches(cs[..|cs| - 1], filters, hit) + FileMatches(cs[|cs| - 1], filters, hit)
  }

  function First<T>(s: seq<T>, n: nat): (r: seq<T>)
    ensures |r| <= n
  {
    if |s| <= n then s else s[..n]
  }

  /** The lines found are exactly the matching ones, each once and in order. */
  lemma {:induction false} MatchesUpToLaws(c: Candidate, hit: string -> bool, n: nat)
    requires n <= |c.lines|
    ensures forall m :: m in MatchesUpTo(c, hit, n) <==>
      m.path == c.path && 1 <= m.lineNumber <= n && m.line == c.lines[m.lineNumber - 1] && hit(m.line)
    ensures forall i, j :: 0 <= i < j < |MatchesUpTo(c, hit, n)| ==>
      MatchesUpTo(c, hit, n)[i].lineNumber < MatchesUpTo(c, hit, n)[j].lineNumber
  {
    if n > 0 {
      MatchesUpToLaws(c, hit, n - 1);
      var before := MatchesUpTo(c, hit, n - 1);
      assert forall i :: 0 <= i < |before| ==> before[i] in before;
    }
  }

  /** A matching line of the candidate, numbered from 1, that the filters let through: there are
      none, or the candidate's extension, the empty text if it has none, is one of them. */
  ghost predicate FoundIn(c: Candidate, filters: seq<string>, hit: string -> bool, m: GrepMatch) {
    && m.path == c.path && 1 <= m.lineNumber <= |c.lines| && m.line == c.lines[m.lineNumber - 1] && hit(m.line)
    && (filters != [] ==> exists f :: f in filters && (c.extension == Some(f) || (c.extension.None? && f == "")))
  }

  lemma FoundInCandidate(c: Candidate, filters: seq<string>, hit: string -> bool, m: GrepMatch)
    ensures m in FileMatches(c, filters, hit) <==> FoundIn(c, filters, hit, m)
  {
    MatchesUpToLaws(c, hit, |c.lines|);
    hide MatchesUpTo;
    if c.extension.None? {
      assert "" in filters <==> exists f :: f in filters && f == "";
    }
  }

  /** What there is to find are the matching lines of the candidates that the filters let through. */
  lemma {:induction false} AllMatchesExactly(cs: seq<Candidate>, filters: seq<string>, hit: string -> bool)
    ensures forall m :: m in AllMatches(cs, filters, hit) <==> exists c :: c in cs && FoundIn(c, filters, hit, m)
  {
    hide FileMatches, FoundIn;
    if cs != [] {
      var front, last := cs[..|cs| - 1], cs[|cs| - 1];
      assert cs == front + [last];
      AllMatchesExactly(front, filters, hit);
      forall m
        ensures m in AllMatches(cs, filters, hit) <==> exists c :: c in cs && FoundIn(c, filters, hit, m)
      {
        FoundInCandidate(last, filters, hit, m);
      }
    }
  }

  // ---------------------------------------------------------------------------------
  // The frames
  // ---------------------------------------------------------------------------------

  function Flat(frames: seq<GrepFrame>): seq<GrepMatch> {
    if frames == [] then [] else Flat(frames[..|frames| - 1]) + frames[|frames| - 1].matches
  }

  lemma FlatNext(frames: seq<GrepFrame>, f: GrepFrame)
    ensures Flat(frames + [f]) == Flat(frames) + f.matches
  {
    assert (frames + [f])[..|frames|] == frames;
  }

  lemma FirstNext<T>(s: seq<T>, t: seq<T>, n: nat)
    ensures First(s + t, n) == First(s, n) + First(t, n - |First(s, n)|)
  {
  }

  /** The frame for one candidate, if there is anything to put into it. */
  function FrameOf(found: seq<GrepMatch>): seq<GrepFrame> {
    if found == [] then [] else [GrepFrame(found, false)]
  }

  lemma FlatFrameOf(frames: seq<GrepFrame>, found: seq<GrepMatch>)
    ensures Flat(frames + FrameOf(found)) == Flat(frames) + found
  {
    if found == [] {
      assert frames + [] == frames;
    } else {
      FlatNext(frames, GrepFrame(found, false));
    }
  }

  /** The frames before the final one: each candidate gets one frame, of its first matches for
      which there is still room, or none. */
  function Frames(cs: seq<Candidate>, filters: seq<string>, hit: string -> bool, limit: nat): (r: seq<GrepFrame>)
    ensures |Flat(r)| <= limit
  {
    if cs == [] then []
    else
      var before := Frames(cs[..|cs| - 1], filters, hit, limit);
      var found := First(FileMatches(cs[|cs| - 1], filters, hit), limit - |Flat(before)|);
      FlatFrameOf(before, found);
      before + FrameOf(found)
  }

  lemma FramesNext(cs: seq<Candidate>, c: Candidate, filters: seq<string>, hit: string -> bool, limit: nat)
    ensures Frames(cs + [c], filters, hit, limit) == Frames(cs, filters, hit, limit) +
      FrameOf(First(FileMatches(c, filters, hit), limit - |Flat(Frames(cs, filters, hit, limit))|))
  {
    hide FileMatches, Flat, First, FrameOf;
    assert (cs + [c])[..|cs|] == cs;
  }

  // ---------------------------------------------------------------------------------
  // What the frames say
  // ---------------------------------------------------------------------------------

  /** Concatenated, the frames are the first matches there are, up to the limit. */
  lemma {:induction false} FramesAreFirstMatches(cs: seq<Candidate>, filters: seq<string>, hit: string -> bool,
                                                 limit: nat)
    ensures Flat(Frames(cs, filters, hit, limit)) == First(AllMatches(cs, filters, hit), limit)
  {
    if cs != [] {
      var front, c := cs[..|cs| - 1], cs[|cs| - 1];
      FramesAreFirstMatches(front, filters, hit, limit);
      var before := Frames(front, filters, hit, limit);
      FlatFrameOf(before, First(FileMatches(c, filters, hit), limit - |Flat(before)|));
      FirstNext(AllMatches(front, filters, hit), FileMatches(c, filters, hit), limit);
      hide FileMatches, Flat, FrameOf;
    }
  }

  lemma FoundInFile(c: Candidate, filters: seq<string>, hit: string -> bool, n: nat)
    ensures forall m :: m in First(FileMatches(c, filters, hit), n) ==> m.path == c.path
  {
    MatchesUpToLaws(c, hit, |c.lines|);
    assert forall m :: m in First(FileMatches(c, filters, hit), n) ==> m in FileMatches(c, filters, hit);
  }

  predicate OfOneFile(f: GrepFrame) {
    !f.isFinal && f.matches != [] && forall m :: m in f.matches ==> m.path == f.matches[0].path
  }

  /** A frame before the final one is not marked final, is not empty and is of one file; there
      is at most one for each candidate. */
  lemma {:induction false} FramesAreOfOneFile(cs: seq<Candidate>, filters: seq<string>, hit: string -> bool, limit: nat)
    ensures forall i :: 0 <= i < |Frames(cs, filters, hit, limit)| ==> OfOneFile(Frames(cs, filters, hit, limit)[i])
    ensures |Frames(cs, filters, hit, limit)| <= |cs|
  {
    if cs != [] {
      var front, c := cs[..|cs| - 1], cs[|cs| - 1];
      FramesAreOfOneFile(front, filters, hit, limit);
      FoundInFile(c, filters, hit, limit - |Flat(Frames(front, filters, hit, limit))|);
      hide FileMatches, Flat;
    }
  }

  lemma OneMoreCandidate(cs: seq<Candidate>, c: Candidate, filters: seq<string>, hit: string -> bool, limit: nat)
    ensures Frames(cs, filters, hit, limit) <= Frames(cs + [c], filters, hit, limit)
    ensures |Flat(Frames(cs, filters, hit, limit))| == limit ==>
      Frames(cs, filters, hit, limit) == Frames(cs + [c], filters, hit, limit)
  {
    hide Frames, Flat, FileMatches;
    FramesNext(cs, c, filters, hit, limit);
  }

  lemma PrefixOfPrefix<T>(a: seq<T>, b: seq<T>, c: seq<T>)
    requires a <= b <= c
    ensures a <= c
  {
  }

  /** Stopping after some of the candidates cuts the frames short and changes none of them; once
      the limit is reached, the rest of the candidates add nothing. */
  lemma {:induction false} StoppingCutsShort(cs: seq<Candidate>, more: seq<Candidate>, filters: seq<string>,
                                             hit: string -> bool, limit: nat)
    ensures Frames(cs, filters, hit, limit) <= Frames(cs + more, filters, hit, limit)
    ensures |Flat(Frames(cs, filters, hit, limit))| == limit ==>
      Frames(cs, filters, hit, limit) == Frames(cs + more, filters, hit, limit)
    decreases |more|
  {
    hide *;
    if more == [] {
      assert cs + more == cs;
    } else {
      var front, c := more[..|more| - 1], more[|more| - 1];
      StoppingCutsShort(cs, front, filters, hit, limit);
      OneMoreCandidate(cs + front, c, filters, hit, limit);
      assert cs + more == (cs + front) + [c];
      PrefixOfPrefix(Frames(cs, filters, hit, limit), Frames(cs + front, filters, hit, limit),
        Frames(cs + more, filters, hit, limit));
    }
  }

  // ---------------------------------------------------------------------------------
  // The loops
  // ---------------------------------------------------------------------------------

  lemma {:induction false} FullStaysFull(c: Candidate, hit: string -> bool, n: nat, room: nat)
    requires n <= |c.lines| && |MatchesUpTo(c, hit, n)| >= room
    ensures First(MatchesUpTo(c, hit, n), room) == First(MatchesUpTo(c, hit, |c.lines|), room)
    decreases |c.lines| - n
  {
    if n < |c.lines| {
      FullStaysFull(c, hit, n + 1, room);
    }
  }

  /** The matches of one file, no more than there is room for. */
  method MatchFile(c: Candidate, hit: string -> bool, totalSent: nat, limit: nat) returns (found: seq<GrepMatch>)
    requires totalSent <= limit
    ensures found == First(MatchesUpTo(c, hit, |c.lines|), limit - totalSent)
  {
    found := [];
    for n := 0 to |c.lines|
      invariant found == First(MatchesUpTo(c, hit, n), limit - totalSent)
      invariant |found| < limit - totalSent ==> found == MatchesUpTo(c, hit, n)
    {
      if totalSent + |found| >= limit {
        FullStaysFull(c, hit, n, limit - totalSent);
        return;
      }
      if hit(c.lines[n]) {
        found := found + [GrepMatch(c.path, n + 1, c.lines[n])];
      }
    }
  }

  function AtLeastOne(limit: nat): nat {
    if limit >= 1 then limit else 1
  }

  /** All frames of a grep whose token is cancelled before candidate `cancelAt` is looked at. */
  function GrepFrames(cs: seq<Candidate>, filters: seq<string>, hit: string -> bool, limit: nat,
                      cancelAt: nat): seq<GrepFrame> {
    Frames(First(cs, cancelAt), filters, hit, AtLeastOne(limit)) + [FINAL]
  }

  /** What the loop does to the frames at one candidate. */
  lemma NextFrame(cs: seq<Candidate>, i: nat, filters: seq<string>, hit: string -> bool, limit: nat,
                  found: seq<GrepMatch>)
    requires i < |cs|
    requires found == First(FileMatches(cs[i], filters, hit), limit - |Flat(Frames(cs[..i], filters, hit, limit))|)
    ensures var frames := Frames(cs[..i], filters, hit, limit);
      var more := if found == [] then frames else frames + [GrepFrame(found, false)];
      && Frames(cs[..i + 1], filters, hit, limit) == more
      && |Flat(more)| == |Flat(frames)| + |found| <= limit
      && more <= Frames(cs, filters, hit, limit)
      && (|Flat(more)| == limit ==> more == Frames(cs, filters, hit, limit))
  {
    hide *;
    var frames := Frames(cs[..i], filters, hit, limit);
    assert cs[..i + 1] == cs[..i] + [cs[i]];
    assert cs == cs[..i + 1] + cs[i + 1..];
    FramesNext(cs[..i], cs[i], filters, hit, limit);
    FlatFrameOf(frames, found);
    StoppingCutsShort(cs[..i + 1], cs[i + 1..], filters, hit, limit);
    FrameAdded(frames, found);
  }

  lemma FrameAdded(frames: seq<GrepFrame>, found: seq<GrepMatch>)
    ensures frames + FrameOf(found) == if found == [] then frames else frames + [GrepFrame(found, false)]
  {
  }

  /** What got through when the connection takes no more frames. */
  lemma WriteFails(frames: seq<GrepFrame>, f: GrepFrame, all: seq<GrepFrame>)
    requires frames + [f] <= all
    ensures First(all + [FINAL], |frames|) == frames != all + [FINAL]
  {
    assert frames + [f] <= all + [FINAL];
    assert (frames + [f])[..|frames|] == frames;
  }

  /** A grep over the candidates on a connection that takes `capacity` frames before it fails. */
  method StreamGrep(cs: seq<Candidate>, filters: seq<string>, hit: string -> bool, limit: nat, cancelAt: nat,
                    capacity: nat)
    returns (frames: seq<GrepFrame>, ok: bool)
    ensures frames == First(GrepFrames(cs, filters, hit, limit, cancelAt), capacity)
    ensures ok <==> frames == GrepFrames(cs, filters, hit, limit, cancelAt)
  {
    hide FileMatches, Flat, Frames, MatchesUpTo, First, Passes;
    var totalSent, most := 0, AtLeastOne(limit);
    frames, ok := [], false;
    NothingSent(filters, hit, most);
    ghost var seen := First(cs, cancelAt);
    ghost var all := Frames(seen, filters, hit, most);
    FirstLaws(cs, cancelAt);
    ghost var k := 0;
    for i := 0 to |cs|
      invariant k == i <= |seen|
      invariant frames == Frames(seen[..i], filters, hit, most)
      invariant totalSent == |Flat(frames)| < most && |frames| <= capacity
    {
      if i >= cancelAt {
        break;
      }
      var c := cs[i];
      k := i + 1;
      PassedMatches(c, filters, hit, most - totalSent);
      if !Passes(c, filters) {
        NextFrame(seen, i, filters, hit, most, []);
        continue;
      }
      var found := MatchFile(c, hit, totalSent, most);
      NextFrame(seen, i, filters, hit, most, found);
      if found != [] {
        var chunk := First(found, most - totalSent);
        FirstLaws(found, most - totalSent);
        totalSent := totalSent + |chunk|;
        if |frames| >= capacity {
          WriteFails(frames, GrepFrame(chunk, false), all);
          return;
        }
        frames := frames + [GrepFrame(chunk, false)];
        if totalSent >= most {
          break;
        }
      }
    }
    assert k == |seen| ==> seen[..k] == seen;
    assert frames == all;
    FirstLaws(all + [FINAL], capacity);
    if |frames| < capacity {
      frames, ok := frames + [FINAL], true;
    }
  }

  lemma PassedMatches(c: Candidate, filters: seq<string>, hit: string -> bool, room: nat)
    ensures First(FileMatches(c, filters, hit), room) ==
      if Passes(c, filters) then First(MatchesUpTo(c, hit, |c.lines|), room) else []
  {
  }

  lemma FirstLaws<T>(s: seq<T>, n: nat)
    ensures |First(s, n)| == if |s| <= n then |s| else n
    ensures forall i :: 0 <= i < |First(s, n)| ==> First(s, n)[i] == s[i]
    ensures |s| <= n ==> First(s, n) == s
  {
  }

  lemma NothingSent(filters: seq<string>, hit: string -> bool, limit: nat)
    ensures Frames([], filters, hit, limit) == [] && Flat([]) == []
  {
  }

  lemma FirstSplits<T>(s: seq<T>, n: nat)
    ensures First(s, n) + s[|First(s, n)|..] == s
  {
  }

  lemma OneFinalFrame(frames: seq<GrepFrame>)
    requires forall i :: 0 <= i < |frames| ==> OfOneFile(frames[i])
    ensures Flat(frames + [FINAL]) == Flat(frames)
    ensures forall i :: 0 <= i <= |frames| ==> ((frames + [FINAL])[i].isFinal <==> i == |frames|)
  {
    FlatNext(frames, FINAL);
    hide Flat;
  }

  /** A grep that ends without a write failure has written exactly one final frame, as its last,
      and before it the first matches among the candidates looked at, up to the limit. A
      cancelled grep has written the frames of an uncancelled one, cut at a candidate. */
  lemma GrepStream(cs: seq<Candidate>, filters: seq<string>, hit: string -> bool, limit: nat, cancelAt: nat)
    ensures var frames := GrepFrames(cs, filters, hit, limit, cancelAt);
      && Flat(frames) == First(AllMatches(First(cs, cancelAt), filters, hit), AtLeastOne(limit))
      && forall i :: 0 <= i < |frames| ==> (frames[i].isFinal <==> i == |frames| - 1)
    ensures Frames(First(cs, cancelAt), filters, hit, AtLeastOne(limit)) <= Frames(cs, filters, hit, AtLeastOne(limit))
  {
    hide Frames, AllMatches, Flat, First, OfOneFile, AtLeastOne;
    var seen := First(cs, cancelAt);
    FramesAreFirstMatches(seen, filters, hit, AtLeastOne(limit));
    FramesAreOfOneFile(seen, filters, hit, AtLeastOne(limit));
    OneFinalFrame(Frames(seen, filters, hit, AtLeastOne(limit)));
    FirstSplits(cs, cancelAt);
    StoppingCutsShort(seen, cs[|seen|..], filters, hit, AtLeastOne(limit));
  }

  /** In numbers: a grep for at most `limit` matches writes that many, or all if there are fewer, and
      one for none at all still writes one if there is one. Every match written is a matching
      line of a candidate that was looked at and that the filters let through. */
  lemma GrepFinds(cs: seq<Candidate>, filters: seq<string>, hit: string -> bool, limit: nat, cancelAt: nat)
    ensures var sent, there := Flat(GrepFrames(cs, filters, hit, limit, cancelAt)),
        |AllMatches(First(cs, cancelAt), filters, hit)|;
      && (limit >= 1 ==> |sent| == if limit <= there then limit else there)
      && (limit == 0 ==> |sent| == if there == 0 then 0 else 1)
      && forall m :: m in sent ==> exists i :: 0 <= i < |cs| && i < cancelAt && FoundIn(cs[i], filters, hit, m)
  {
    hide GrepFrames, Flat, AllMatches, FoundIn;
    var seen := First(cs, cancelAt);
    var all := AllMatches(seen, filters, hit);
    GrepStream(cs, filters, hit, limit, cancelAt);
    AllMatchesExactly(seen, filters, hit);
    FirstLaws(all, AtLeastOne(limit));
    FirstLaws(cs, cancelAt);
    var sent := Flat(GrepFrames(cs, filters, hit, limit, cancelAt));
    hide First;
    forall m | m in sent
      ensures exists i :: 0 <= i < |cs| && i < cancelAt && FoundIn(cs[i], filters, hit, m)
    {
      assert m in all;
      var c :| c in seen && FoundIn(c, filters, hit, m);
      var i :| 0 <= i < |seen| && seen[i] == c;
      assert cs[i] == c;
    }
  }
}
