/** What a search or grep has written and how it ends, told from the steps that were taken. */
module SearchEnds {
  import opened Common
  import opened Sessions

  // ---------------------------------------------------------------------------------
  // What the steps say
  // ---------------------------------------------------------------------------------

  /** What a step can be for a run: a look at its token, hits written, a write that failed, the end
      of a grep's loop, a candidate that the loop goes on to, or the work on one. */
  datatype Note = Looked | Wrote | Broke | Stopped | Took | Worked

  predicate IsOf(s: State, step: Step, t: Token) {
    step.conn in s.serving && s.serving[step.conn].token == t
  }

  predicate HasHits(step: Step) {
    (step.Lexical? || step.Matched?) && step.hits
  }

  /** A grep's loop ends when no candidate is left, when its token is cancelled before the next one,
      or when the limit is reached. */
  predicate EndsLoop(s: State, step: Step, t: Token) {
    || (step.Candidate? && (!step.more || t in s.cancelled))
    || (step.Matched? && step.hits && step.written && step.full)
  }

  predicate Noted(note: Note, s: State, step: Step, t: Token) {
    IsOf(s, step, t) &&
    match note
    case Looked => step.Check?
    case Wrote => HasHits(step) && step.written
    case Broke => (HasHits(step) || step.Close?) && !step.written
    case Stopped => EndsLoop(s, step, t)
    case Took => step.Candidate? && step.more && t !in s.cancelled
    case Worked => step.Matched?
  }

  /** The positions in a run of the daemon at which that happened to a token's run. */
  function Times(note: Note, steps: seq<Step>, t: Token): set<nat> {
    set j: nat | j < |steps| && Noted(note, Reached(EMPTY, steps[..j]), steps[j], t)
  }

  /** The step at `j` starts the token's search or grep. */
  predicate StartsAt(steps: seq<Step>, j: nat, t: Token) {
    j < |steps| && Starts(steps[j]) && Reached(EMPTY, steps[..j]).next == t
  }

  predicate CancelledAt(steps: seq<Step>, j: nat, t: Token)
    requires j <= |steps|
  {
    t in Reached(EMPTY, steps[..j]).cancelled
  }

  lemma TimesNext(note: Note, steps: seq<Step>, step: Step, t: Token)
    ensures Times(note, steps + [step], t) ==
      Times(note, steps, t) + if Noted(note, Reached(EMPTY, steps), step, t) then {|steps|} else {}
    ensures |steps| !in Times(note, steps, t)
  {
    hide Reached, Noted;
    var all := steps + [step];
    assert all[..|steps|] == steps;
    forall j | 0 <= j < |steps|
      ensures all[..j] == steps[..j] && all[j] == steps[j]
    {
    }
  }

  lemma NoTimes(note: Note, t: Token)
    ensures Times(note, [], t) == {}
  {
  }

  // ---------------------------------------------------------------------------------
  // The same, summed up
  // ---------------------------------------------------------------------------------

  /** Whether the run is a search, whether its token was cancelled when it looked, how often it has
      written hits, whether a write failed, whether its loop has ended, and the candidates it has
      taken and worked on. */
  datatype History = History(search: Option<bool>, looked: Option<bool>, wrote: nat, broke: bool, stopped: bool,
                             took: nat, worked: nat)

  const NOTHING := History(None, None, 0, false, false, 0, 0)

  function HistoryNext(h: History, s: State, step: Step, t: Token): History {
    History(
      if Starts(step) && s.next == t then Some(step.StartSearch?) else h.search,
      if Noted(Looked, s, step, t) then Some(t in s.cancelled) else h.looked,
      if Noted(Wrote, s, step, t) then h.wrote + 1 else h.wrote,
      h.broke || Noted(Broke, s, step, t),
      h.stopped || Noted(Stopped, s, step, t),
      if Noted(Took, s, step, t) then h.took + 1 else h.took,
      if Noted(Worked, s, step, t) then h.worked + 1 else h.worked)
  }

  function HistoryOf(steps: seq<Step>, t: Token): History {
    if steps == [] then NOTHING
    else
      var front := steps[..|steps| - 1];
      HistoryNext(HistoryOf(front, t), Reached(EMPTY, front), steps[|steps| - 1], t)
  }

  /** Where a run stands and what it has written, by its history. */
  predicate RunAccords(run: Run, h: History) {
    && h.search.Some?
    && |run.output| == h.wrote + (if run.stage == Done(true) then 1 else 0)
    && (forall i :: 0 <= i < h.wrote ==> run.output[i] == Partial)
    && (run.stage == Done(false) <==> h.broke)
    && if h.search.value then SearchAccords(run, h) else GrepAccords(run, h)
  }

  predicate SearchAccords(run: Run, h: History)
    requires run.stage == Done(true) ==> run.output != []
  {
    h.wrote <= 1 &&
    match run.stage
    case Opening => h.wrote == 0 && h.looked.None?
    case Checking => h.looked.None?
    case Closing(fused) => h.looked == Some(!fused)
    case Done(ok) => ok ==> h.looked.Some? && run.output[|run.output| - 1] == Final(!h.looked.value)
    case _ => false
  }

  predicate GrepAccords(run: Run, h: History)
    requires run.stage == Done(true) ==> run.output != []
  {
    h.looked.None? && h.took == h.worked + (if run.stage == Matching then 1 else 0) &&
    match run.stage
    case Looping => !h.stopped
    case Matching => !h.stopped
    case Closing(fused) => !fused && h.stopped
    case Done(ok) => ok ==> h.stopped && run.output[|run.output| - 1] == Final(false)
    case _ => false
  }

  predicate Accords(s: State, t: Token, h: History) {
    if t in s.runs then RunAccords(s.runs[t], h) else t >= s.next && h == NOTHING
  }

  lemma AdvanceAccords(s: State, step: Step, t: Token, h: History)
    requires TokensKnown(s) && Enabled(s, step) && IsOf(s, step, t) && !step.Finish? && !step.Fire?
    requires t in s.runs && RunAccords(s.runs[t], h)
    ensures RunAccords(Advance(s.runs[t], step, t in s.cancelled), HistoryNext(h, s, step, t))
  {
  }

  lemma OthersKeepHistory(h: History, s: State, step: Step, t: Token)
    requires !(Starts(step) && s.next == t)
    requires !IsOf(s, step, t) || step.Finish? || step.Fire?
    ensures HistoryNext(h, s, step, t) == h
  {
  }

  lemma StepAccords(s: State, step: Step, t: Token, h: History)
    requires TokensKnown(s) && Allowed(s, step) && Accords(s, t, h)
    ensures Accords(Next(s, step), t, HistoryNext(h, s, step, t))
  {
    hide RunAccords, Advance, HistoryNext, InFlight;
    if Starts(step) && s.next == t {
      StartAccords(s, step);
    } else if !IsOf(s, step, t) || step.Finish? || step.Fire? {
      OthersKeepHistory(h, s, step, t);
    } else {
      AdvanceAccords(s, step, t, h);
    }
  }

  lemma StartAccords(s: State, step: Step)
    requires TokensKnown(s) && Enabled(s, step) && Starts(step)
    ensures s.next !in s.runs && s.next in Next(s, step).runs
    ensures RunAccords(Next(s, step).runs[s.next], HistoryNext(NOTHING, s, step, s.next))
  {
  }

  lemma {:induction false} RunsAccord(steps: seq<Step>, t: Token)
    requires Legal(EMPTY, steps)
    ensures Accords(Reached(EMPTY, steps), t, HistoryOf(steps, t))
  {
    hide Accords, HistoryNext, Next, Allowed;
    if steps == [] {
      NothingAccords(t);
    } else {
      var front := steps[..|steps| - 1];
      RunsAccord(front, t);
      EmptyInvariant();
      InvariantOverRuns(EMPTY, front);
      InvariantParts(Reached(EMPTY, front));
      hide TokensKnown, RegistryExact;
      AllowedEnabled(Reached(EMPTY, front), steps[|steps| - 1]);
      StepAccords(Reached(EMPTY, front), steps[|steps| - 1], t, HistoryOf(front, t));
    }
  }

  lemma NothingAccords(t: Token)
    ensures Accords(EMPTY, t, NOTHING)
  {
  }

  lemma AllowedEnabled(s: State, step: Step)
    requires Allowed(s, step)
    ensures Enabled(s, step)
  {
  }

  /** The token was cancelled or not whenever the run looked, as the history says. */
  ghost predicate LookTold(looked: Option<bool>, steps: seq<Step>, t: Token) {
    && (looked.Some? <==> Times(Looked, steps, t) != {})
    && forall j :: j in Times(Looked, steps, t) ==> looked == Some(CancelledAt(steps, j, t))
  }

  /** The history in terms of the steps. */
  ghost predicate Tells(h: History, steps: seq<Step>, t: Token) {
    && LookTold(h.looked, steps, t)
    && h.wrote == |Times(Wrote, steps, t)|
    && (h.broke <==> Times(Broke, steps, t) != {})
    && (h.stopped <==> Times(Stopped, steps, t) != {})
    && h.took == |Times(Took, steps, t)| && h.worked == |Times(Worked, steps, t)|
  }

  lemma OneMoreTime(note: Note, steps: seq<Step>, step: Step, t: Token)
    ensures var was, now, happens := Times(note, steps, t), Times(note, steps + [step], t),
        Noted(note, Reached(EMPTY, steps), step, t);
      && |now| == |was| + (if happens then 1 else 0)
      && (now != {} <==> was != {} || happens)
  {
    TimesNext(note, steps, step, t);
    assert |steps| in {|steps|};
    hide Times, Noted, Reached;
  }

  lemma LookNext(looked: Option<bool>, steps: seq<Step>, step: Step, t: Token)
    requires LookTold(looked, steps, t)
    requires Noted(Looked, Reached(EMPTY, steps), step, t) ==> looked.None?
    ensures LookTold(if Noted(Looked, Reached(EMPTY, steps), step, t) then Some(t in Reached(EMPTY, steps).cancelled)
      else looked, steps + [step], t)
  {
    hide Times, Noted, Reached;
    var s, all := Reached(EMPTY, steps), steps + [step];
    TimesNext(Looked, steps, step, t);
    OneMoreTime(Looked, steps, step, t);
    TimesWithin(Looked, all, t);
    forall j | j in Times(Looked, all, t)
      ensures CancelledAt(all, j, t) == if j == |steps| then t in s.cancelled else CancelledAt(steps, j, t)
    {
      assert all[..j] == if j == |steps| then steps else steps[..j];
    }
    hide CancelledAt;
  }

  lemma TimesWithin(note: Note, steps: seq<Step>, t: Token)
    ensures forall j :: j in Times(note, steps, t) ==> j < |steps|
  {
    hide Noted, Reached;
  }

  lemma TellsNext(h: History, steps: seq<Step>, step: Step, t: Token)
    requires Tells(h, steps, t)
    requires Noted(Looked, Reached(EMPTY, steps), step, t) ==> h.looked.None?
    ensures Tells(HistoryNext(h, Reached(EMPTY, steps), step, t), steps + [step], t)
  {
    hide Times, CancelledAt, Noted, Reached, LookTold;
    LookNext(h.looked, steps, step, t);
    OneMoreTime(Wrote, steps, step, t);
    OneMoreTime(Broke, steps, step, t);
    OneMoreTime(Stopped, steps, step, t);
    OneMoreTime(Took, steps, step, t);
    OneMoreTime(Worked, steps, step, t);
  }

  lemma LooksOnce(s: State, step: Step, t: Token, h: History)
    requires Enabled(s, step) && Accords(s, t, h) && TokensKnown(s)
    ensures Noted(Looked, s, step, t) ==> h.looked.None?
  {
  }

  lemma {:induction false} HistoryTells(steps: seq<Step>, t: Token)
    requires Legal(EMPTY, steps)
    ensures Tells(HistoryOf(steps, t), steps, t)
  {
    hide Tells, HistoryNext, Accords, Allowed, Noted;
    if steps == [] {
      NothingTells(t);
    } else {
      var front, step := steps[..|steps| - 1], steps[|steps| - 1];
      assert steps == front + [step];
      HistoryTells(front, t);
      RunsAccord(front, t);
      EmptyInvariant();
      InvariantOverRuns(EMPTY, front);
      InvariantParts(Reached(EMPTY, front));
      hide TokensKnown, RegistryExact;
      AllowedEnabled(Reached(EMPTY, front), step);
      LooksOnce(Reached(EMPTY, front), step, t, HistoryOf(front, t));
      TellsNext(HistoryOf(front, t), front, step, t);
    }
  }

  lemma NothingTells(t: Token)
    ensures Tells(NOTHING, [], t)
  {
    hide Noted;
  }

  /** A token is started once, and its history says as what. */
  lemma {:induction false} StartTold(steps: seq<Step>, t: Token, i: nat)
    requires Legal(EMPTY, steps) && StartsAt(steps, i, t)
    ensures t in Reached(EMPTY, steps).runs && HistoryOf(steps, t).search == Some(steps[i].StartSearch?)
  {
    hide Noted, Next, Allowed;
    var front, step := steps[..|steps| - 1], steps[|steps| - 1];
    var before := Reached(EMPTY, front);
    AllowedEnabled(before, step);
    if i == |front| {
      StartedRuns(before, step);
    } else {
      assert front[..i] == steps[..i];
      StartTold(front, t, i);
      RunsStay(before, step, t);
      EmptyInvariant();
      InvariantOverRuns(EMPTY, front);
      InvariantParts(before);
    }
  }

  lemma StartedRuns(s: State, step: Step)
    requires Enabled(s, step) && Starts(step)
    ensures s.next in Next(s, step).runs
  {
  }

  lemma RunsStay(s: State, step: Step, t: Token)
    requires Enabled(s, step) && t in s.runs
    ensures t in Next(s, step).runs
  {
  }

  // ---------------------------------------------------------------------------------
  // How they end
  // ---------------------------------------------------------------------------------

  function Hits(n: nat): seq<Frame> {
    seq(n, _ => Partial)
  }

  lemma WholeOutput(run: Run, h: History)
    requires RunAccords(run, h)
    ensures if run.stage == Done(true) then run.output == Hits(h.wrote) + [run.output[|run.output| - 1]]
      else run.output == Hits(h.wrote)
  {
  }

  /** Over every run of the daemon with distinct ids in flight: a search writes its lexical hits, in
      one frame, at most once and fails exactly if a write does. One that ends well has looked at its token,
      and its last frame is the fused ranking if and only if the token was not cancelled then. */
  lemma SearchEnding(steps: seq<Step>, t: Token, i: nat)
    requires Legal(EMPTY, steps) && StartsAt(steps, i, t) && steps[i].StartSearch?
    ensures var run := RunOf(Reached(EMPTY, steps), t);
      && |Times(Wrote, steps, t)| <= 1
      && (run.stage != Done(true) ==> run.output == Hits(|Times(Wrote, steps, t)|))
      && (run.stage == Done(false) <==> Times(Broke, steps, t) != {})
      && (run.stage == Done(true) ==> Times(Looked, steps, t) != {})
      && (run.stage == Done(true) ==> forall j :: j in Times(Looked, steps, t) ==>
            run.output == Hits(|Times(Wrote, steps, t)|) + [Final(!CancelledAt(steps, j, t))])
  {
    hide Legal, Times, Noted, Reached, HistoryOf, StartsAt, CancelledAt;
    StartTold(steps, t, i);
    RunsAccord(steps, t);
    HistoryTells(steps, t);
    var run, h := RunOf(Reached(EMPTY, steps), t), HistoryOf(steps, t);
    WholeOutput(run, h);
  }

  /** Over the same runs: a grep goes on to every candidate there is, one after the other, until its
      loop ends or a write fails. It fails exactly if a write does; if it ends well, its loop has
      ended, and it has written its hits and one final frame, never a fused one. */
  lemma GrepEnding(steps: seq<Step>, t: Token, i: nat)
    requires Legal(EMPTY, steps) && StartsAt(steps, i, t) && steps[i].StartGrep?
    ensures var run := RunOf(Reached(EMPTY, steps), t);
      && (run.stage in {Looping, Matching} <==> Times(Stopped, steps, t) == {} && Times(Broke, steps, t) == {})
      && |Times(Took, steps, t)| == |Times(Worked, steps, t)| + (if run.stage == Matching then 1 else 0)
      && (run.stage != Done(true) ==> run.output == Hits(|Times(Wrote, steps, t)|))
      && (run.stage == Done(false) <==> Times(Broke, steps, t) != {})
      && (run.stage == Done(true) ==> run.output == Hits(|Times(Wrote, steps, t)|) + [Final(false)])
  {
    hide Legal, Times, Noted, Reached, HistoryOf, StartsAt;
    StartTold(steps, t, i);
    RunsAccord(steps, t);
    HistoryTells(steps, t);
    var run, h := RunOf(Reached(EMPTY, steps), t), HistoryOf(steps, t);
    WholeOutput(run, h);
  }

  // ---------------------------------------------------------------------------------
  // Connections
  // ---------------------------------------------------------------------------------

  /** At `j` the connection's handler ends with an I/O error. */
  predicate FailsAt(steps: seq<Step>, j: nat, c: ConnId) {
    && j < |steps| && steps[j] == Finish(c)
    && var s := Reached(EMPTY, steps[..j]);
    c in s.serving && RunOf(s, s.serving[c].token).stage == Done(false)
  }

  /** A connection is closed if and only if a search or grep on it failed to write a frame. */
  lemma {:induction false} ClosedExactly(steps: seq<Step>, c: ConnId)
    requires Legal(EMPTY, steps)
    ensures c in Reached(EMPTY, steps).closed <==> exists j :: FailsAt(steps, j, c)
  {
    if steps != [] {
      var front, step := steps[..|steps| - 1], steps[|steps| - 1];
      var before := Reached(EMPTY, front);
      ClosedExactly(front, c);
      hide Advance, InFlight;
      assert c in Reached(EMPTY, steps).closed <==> c in before.closed || FailsAt(steps, |front|, c);
      forall j | 0 <= j < |front|
        ensures FailsAt(steps, j, c) <==> FailsAt(front, j, c)
      {
        assert front[..j] == steps[..j];
      }
      hide Reached, Legal;
      if j :| FailsAt(front, j, c) {
        assert FailsAt(steps, j, c);
      }
    }
  }

  /** A connection does one thing at a time, and nothing once it is closed. */
  predicate ClosedIdle(s: State) {
    && (forall c :: c in s.closed ==> c !in s.serving && c !in s.holding)
    && (forall c :: c in s.serving ==> c !in s.holding)
  }

  lemma StepKeepsClosedIdle(s: State, step: Step)
    requires ClosedIdle(s) && Enabled(s, step)
    ensures ClosedIdle(Next(s, step)) && step.conn !in s.closed
  {
    hide Advance, RunOf;
  }

  lemma {:induction false} LegalPrefix(steps: seq<Step>, i: nat)
    requires Legal(EMPTY, steps) && i <= |steps|
    ensures Legal(EMPTY, steps[..i])
  {
    hide Allowed;
    if i == |steps| {
      assert steps[..i] == steps;
    } else {
      var front := steps[..|steps| - 1];
      LegalPrefix(front, i);
      assert front[..i] == steps[..i];
    }
  }

  lemma {:induction false} RunsKeepClosedIdle(steps: seq<Step>)
    requires Legal(EMPTY, steps)
    ensures ClosedIdle(Reached(EMPTY, steps))
  {
    hide Next, ClosedIdle, Allowed;
    if steps == [] {
      NothingClosed();
    } else {
      var front, step := steps[..|steps| - 1], steps[|steps| - 1];
      RunsKeepClosedIdle(front);
      AllowedEnabled(Reached(EMPTY, front), step);
      StepKeepsClosedIdle(Reached(EMPTY, front), step);
    }
  }

  lemma NothingClosed()
    ensures ClosedIdle(EMPTY)
  {
  }

  /** After such a failure nothing is ever done on the connection again. */
  lemma ClosedIsSilent(steps: seq<Step>, j: nat, i: nat, c: ConnId)
    requires Legal(EMPTY, steps) && FailsAt(steps, j, c) && j < i < |steps|
    ensures steps[i].conn != c
  {
    hide Reached, Next, Allowed, ClosedIdle, RunOf;
    var before, upto := steps[..i], steps[..i + 1];
    LegalPrefix(steps, i + 1);
    LegalPrefix(steps, i);
    assert upto[..i] == before && before[..j] == steps[..j];
    assert FailsAt(before, j, c);
    ClosedExactly(before, c);
    RunsKeepClosedIdle(before);
    AllowedEnabled(Reached(EMPTY, before), steps[i]);
    StepKeepsClosedIdle(Reached(EMPTY, before), steps[i]);
  }
}
