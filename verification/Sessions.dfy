/** The registry of running searches, over every interleaving of the connections' steps. */
module Sessions {
  type QueryId = nat
  type ConnId = nat
  type Token = nat

  /** Where the handler of a search or grep stands. */
  datatype Stage =
    | Opening                    // a search that has not written its lexical hits
    | Checking                   // a search about to look at its token
    | Looping                    // a grep about to take its next candidate
    | Matching                   // a grep at work on a candidate
    | Closing(fused: bool)       // about to write the final frame, with a fused ranking or empty
    | Done(ok: bool)             // out of the inner function

  datatype Frame = Partial | Final(fused: bool)

  /** A search or grep, named by its token: where it stands and what it has written. */
  datatype Run = Run(stage: Stage, output: seq<Frame>)

  datatype Search = Search(query: QueryId, token: Token)

  /** The registry and the cancelled tokens are shared. A connection serves at most one search, or
      holds at most one token that it has taken out of the registry and not fired yet. */
  datatype State = State(
    next: Token,
    registry: map<QueryId, Token>,
    cancelled: set<Token>,
    serving: map<ConnId, Search>,
    holding: map<ConnId, Token>,
    runs: map<Token, Run>,
    closed: set<ConnId>)

  datatype Step =
    | StartSearch(conn: ConnId, query: QueryId)
    | StartGrep(conn: ConnId, query: QueryId)
    | Lexical(conn: ConnId, hits: bool, written: bool)
    | Check(conn: ConnId)
    | Candidate(conn: ConnId, more: bool)
    | Matched(conn: ConnId, hits: bool, written: bool, full: bool)
    | Close(conn: ConnId, written: bool)
    | Finish(conn: ConnId)
    | Take(conn: ConnId, query: QueryId)
    | Fire(conn: ConnId)

  const EMPTY := State(0, map[], {}, map[], map[], map[], {})

  // ---------------------------------------------------------------------------------
  // The steps
  // ---------------------------------------------------------------------------------

  predicate Idle(s: State, c: ConnId) {
    c !in s.serving && c !in s.holding && c !in s.closed
  }

  function RunOf(s: State, t: Token): Run {
    if t in s.runs then s.runs[t] else Run(Done(false), [])
  }

  predicate Standing(s: State, c: ConnId, stage: Stage) {
    c in s.serving && RunOf(s, s.serving[c].token).stage == stage
  }

  /** A connection finishes a search only after it has left the inner function; a new request is
      read only on a connection with nothing else to do. */
  predicate Enabled(s: State, step: Step) {
    match step
    case StartSearch(c, _) => Idle(s, c)
    case StartGrep(c, _) => Idle(s, c)
    case Lexical(c, _, _) => Standing(s, c, Opening)
    case Check(c) => Standing(s, c, Checking)
    case Candidate(c, _) => Standing(s, c, Looping)
    case Matched(c, _, _, _) => Standing(s, c, Matching)
    case Close(c, _) => c in s.serving && RunOf(s, s.serving[c].token).stage.Closing?
    case Finish(c) => c in s.serving && RunOf(s, s.serving[c].token).stage.Done?
    case Take(c, _) => Idle(s, c)
    case Fire(c) => c in s.holding
  }

  /** A new token, registered under the query id, whatever was registered there before. */
  function Started(s: State, c: ConnId, query: QueryId, stage: Stage): State {
    s.(next := s.next + 1, registry := s.registry[query := s.next],
       serving := s.serving[c := Search(query, s.next)], runs := s.runs[s.next := Run(stage, [])])
  }

  /** The handler deregisters its query id; a failed write closes the connection. */
  function Finished(s: State, c: ConnId): State
    requires c in s.serving
  {
    s.(registry := s.registry - {s.serving[c].query}, serving := s.serving - {c},
       closed := if RunOf(s, s.serving[c].token).stage == Done(true) then s.closed else s.closed + {c})
  }

  function TakenOut(s: State, c: ConnId, query: QueryId): State {
    if query in s.registry then
      s.(registry := s.registry - {query}, holding := s.holding[c := s.registry[query]])
    else s
  }

  function Fired(s: State, c: ConnId): State
    requires c in s.holding
  {
    s.(cancelled := s.cancelled + {s.holding[c]}, holding := s.holding - {c})
  }

  /** What one step of its handler does to a run, given whether its token is cancelled. */
  function Advance(run: Run, step: Step, cancelled: bool): Run {
    match step
    case Lexical(_, hits, written) =>
      if !hits then run.(stage := Checking)
      else if written then Run(Checking, run.output + [Partial])
      else run.(stage := Done(false))
    case Check(_) => run.(stage := Closing(!cancelled))
    case Candidate(_, more) => run.(stage := if !more || cancelled then Closing(false) else Matching)
    case Matched(_, hits, written, full) =>
      if !hits then run.(stage := Looping)
      else if !written then run.(stage := Done(false))
      else Run(if full then Closing(false) else Looping, run.output + [Partial])
    case Close(_, written) =>
      if written && run.stage.Closing? then Run(Done(true), run.output + [Final(run.stage.fused)])
      else run.(stage := Done(false))
    case _ => run
  }

  function Next(s: State, step: Step): State
    requires Enabled(s, step)
  {
    match step
    case StartSearch(c, query) => Started(s, c, query, Opening)
    case StartGrep(c, query) => Started(s, c, query, Looping)
    case Finish(c) => Finished(s, c)
    case Take(c, query) => TakenOut(s, c, query)
    case Fire(c) => Fired(s, c)
    case _ =>
      var t := s.serving[step.conn].token;
      s.(runs := s.runs[t := Advance(RunOf(s, t), step, t in s.cancelled)])
  }

  // ---------------------------------------------------------------------------------
  // What holds in every state
  // ---------------------------------------------------------------------------------

  /** A cancel request has got hold of the token. */
  predicate Taken(cancelled: set<Token>, holding: map<ConnId, Token>, t: Token) {
    t in cancelled || t in holding.Values
  }

  /** The connection has a search in flight that no cancel request has got hold of. */
  predicate Current(s: State, c: ConnId) {
    c in s.serving && !Taken(s.cancelled, s.holding, s.serving[c].token)
  }

  /** The registry holds exactly the searches in flight that have not been cancelled. */
  ghost predicate RegistryExact(s: State) {
    && (forall q :: q in s.registry ==> exists c :: Current(s, c) && s.serving[c] == Search(q, s.registry[q]))
    && (forall c :: Current(s, c) ==>
          s.serving[c].query in s.registry && s.registry[s.serving[c].query] == s.serving[c].token)
  }

  predicate InFlight(s: State, query: QueryId) {
    exists c :: c in s.serving && s.serving[c].query == query
  }

  predicate Apart(serving: map<ConnId, Search>) {
    forall c, d :: c in serving && d in serving && c != d ==>
      serving[c].query != serving[d].query && serving[c].token != serving[d].token
  }

  predicate TokensKnown(s: State) {
    && (forall t :: t in s.runs ==> t < s.next)
    && (forall c :: c in s.serving ==> s.serving[c].token in s.runs)
    && (forall t :: t in s.cancelled ==> t in s.runs)
    && (forall c :: c in s.holding ==> s.holding[c] in s.runs)
  }

  predicate AllPartial(frames: seq<Frame>) {
    forall i :: 0 <= i < |frames| ==> frames[i].Partial?
  }

  /** One final frame, as the last. */
  predicate Complete(frames: seq<Frame>) {
    |frames| > 0 && forall i :: 0 <= i < |frames| ==> (frames[i].Final? <==> i == |frames| - 1)
  }

  /** A run that ended well has written one final frame, as its last; every other run none. */
  predicate WellWritten(run: Run) {
    if run.stage == Done(true) then Complete(run.output) else AllPartial(run.output)
  }

  ghost predicate Invariant(s: State) {
    && Apart(s.serving)
    && TokensKnown(s)
    && RegistryExact(s)
    && forall t :: t in s.runs ==> WellWritten(s.runs[t])
  }

  lemma StartKeepsRegistry(s: State, c: ConnId, query: QueryId, stage: Stage)
    requires TokensKnown(s) && RegistryExact(s) && Idle(s, c) && query !in s.registry
    ensures RegistryExact(Started(s, c, query, stage))
  {
    var r := Started(s, c, query, stage);
    assert forall d :: d != c ==> (Current(r, d) <==> Current(s, d));
    assert Current(r, c) && r.serving[c] == Search(query, s.next);
    forall q | q in r.registry
      ensures exists d :: Current(r, d) && r.serving[d] == Search(q, r.registry[q])
    {
      if q != query {
        var d :| Current(s, d) && s.serving[d] == Search(q, s.registry[q]);
        assert Current(r, d);
      }
    }
  }

  lemma NotInFlight(s: State, query: QueryId)
    requires RegistryExact(s) && !InFlight(s, query)
    ensures query !in s.registry
  {
  }

  lemma FinishKeepsRegistry(s: State, c: ConnId)
    requires Apart(s.serving) && RegistryExact(s) && c in s.serving
    ensures RegistryExact(Finished(s, c))
  {
    var r := Finished(s, c);
    assert forall d :: d != c ==> (Current(r, d) <==> Current(s, d));
    forall q | q in r.registry
      ensures exists d :: Current(r, d) && r.serving[d] == Search(q, r.registry[q])
    {
      var d :| Current(s, d) && s.serving[d] == Search(q, s.registry[q]);
      assert Current(r, d);
    }
  }

  lemma TakeKeepsRegistry(s: State, c: ConnId, query: QueryId)
    requires Apart(s.serving) && RegistryExact(s) && Idle(s, c)
    ensures RegistryExact(TakenOut(s, c, query))
  {
    if query in s.registry {
      var r := TakenOut(s, c, query);
      var t := s.registry[query];
      var holder :| Current(s, holder) && s.serving[holder] == Search(query, t);
      assert r.holding[c] == t;
      assert forall u :: Taken(r.cancelled, r.holding, u) <==> Taken(s.cancelled, s.holding, u) || u == t by {
        assert forall d :: d in s.holding ==> r.holding[d] == s.holding[d];
      }
      assert forall d :: Current(r, d) <==> Current(s, d) && d != holder;
      forall q | q in r.registry
        ensures exists d :: Current(r, d) && r.serving[d] == Search(q, r.registry[q])
      {
        var d :| Current(s, d) && s.serving[d] == Search(q, s.registry[q]);
        assert Current(r, d);
      }
    }
  }

  lemma RegisteredRuns(s: State, query: QueryId)
    requires RegistryExact(s) && TokensKnown(s)
    ensures query in s.registry ==> s.registry[query] in s.runs
  {
  }

  lemma FireKeepsRegistry(s: State, c: ConnId)
    requires RegistryExact(s) && c in s.holding
    ensures RegistryExact(Fired(s, c))
  {
    var r := Fired(s, c);
    assert forall t :: Taken(r.cancelled, r.holding, t) <==> Taken(s.cancelled, s.holding, t) by {
      assert forall d :: d in s.holding && d != c ==> d in r.holding && r.holding[d] == s.holding[d];
    }
    assert forall d :: Current(r, d) <==> Current(s, d);
  }

  lemma AdvanceKeepsRegistry(s: State, runs: map<Token, Run>)
    requires RegistryExact(s)
    ensures RegistryExact(s.(runs := runs))
  {
    assert forall d :: Current(s.(runs := runs), d) <==> Current(s, d);
  }

  lemma AdvanceWellWritten(run: Run, step: Step, cancelled: bool)
    requires WellWritten(run) && !run.stage.Done?
    ensures WellWritten(Advance(run, step, cancelled))
  {
  }

  predicate Starts(step: Step) {
    step.StartSearch? || step.StartGrep?
  }

  /** A step that starts a search does so under an id that is not in flight. */
  predicate Allowed(s: State, step: Step) {
    Enabled(s, step) && (Starts(step) ==> !InFlight(s, step.query))
  }

  lemma StepKeepsRegistry(s: State, step: Step)
    requires Apart(s.serving) && TokensKnown(s) && RegistryExact(s) && Allowed(s, step)
    ensures RegistryExact(Next(s, step))
  {
    hide RegistryExact, TokensKnown, Apart, InFlight;
    match step
    case StartSearch(c, query) => NotInFlight(s, query); StartKeepsRegistry(s, c, query, Opening);
    case StartGrep(c, query) => NotInFlight(s, query); StartKeepsRegistry(s, c, query, Looping);
    case Finish(c) => FinishKeepsRegistry(s, c);
    case Take(c, query) => TakeKeepsRegistry(s, c, query);
    case Fire(c) => FireKeepsRegistry(s, c);
    case _ => AdvanceKeepsRegistry(s, Next(s, step).runs);
  }

  lemma StepKeepsApart(s: State, step: Step)
    requires Apart(s.serving) && TokensKnown(s) && Allowed(s, step)
    ensures Apart(Next(s, step).serving)
  {
    hide Advance;
  }

  lemma StepKeepsTokens(s: State, step: Step)
    requires TokensKnown(s) && RegistryExact(s) && Allowed(s, step)
    ensures TokensKnown(Next(s, step))
  {
    hide RegistryExact, Advance, InFlight;
    if step.Take? {
      RegisteredRuns(s, step.query);
    }
  }

  lemma StepKeepsOutputs(s: State, step: Step)
    requires TokensKnown(s) && Allowed(s, step)
    requires forall t :: t in s.runs ==> WellWritten(s.runs[t])
    ensures forall t :: t in Next(s, step).runs ==> WellWritten(Next(s, step).runs[t])
  {
    hide WellWritten, Advance;
    match step
    case StartSearch(_, _) => NothingWritten(Opening);
    case StartGrep(_, _) => NothingWritten(Looping);
    case Finish(_) =>
    case Take(_, _) =>
    case Fire(_) =>
    case _ =>
      var t := s.serving[step.conn].token;
      AdvanceWellWritten(RunOf(s, t), step, t in s.cancelled);
  }

  lemma StepKeeps(s: State, step: Step)
    requires Invariant(s) && Allowed(s, step)
    ensures Invariant(Next(s, step))
  {
    hide RegistryExact, WellWritten, TokensKnown, Apart, Next, Allowed;
    StepKeepsRegistry(s, step);
    StepKeepsApart(s, step);
    StepKeepsTokens(s, step);
    StepKeepsOutputs(s, step);
  }

  lemma NothingWritten(stage: Stage)
    requires !stage.Done?
    ensures WellWritten(Run(stage, []))
  {
  }

  // ---------------------------------------------------------------------------------
  // Whole runs
  // ---------------------------------------------------------------------------------

  function Reached(s: State, steps: seq<Step>): State {
    if steps == [] then s
    else
      var before := Reached(s, steps[..|steps| - 1]);
      var step := steps[|steps| - 1];
      if Enabled(before, step) then Next(before, step) else before
  }

  /** The steps can be taken one after another, and no search starts under an id in flight. */
  predicate Legal(s: State, steps: seq<Step>) {
    steps == [] ||
    (Legal(s, steps[..|steps| - 1]) && Allowed(Reached(s, steps[..|steps| - 1]), steps[|steps| - 1]))
  }

  lemma InvariantParts(s: State)
    requires Invariant(s)
    ensures TokensKnown(s) && RegistryExact(s)
  {
  }

  /** Over every interleaving in which ids in flight are distinct, the registry holds exactly the
      searches in flight not yet cancelled, and a search that ended well has written exactly one
      final frame, as its last. */
  lemma {:induction false} InvariantOverRuns(s: State, steps: seq<Step>)
    requires Invariant(s) && Legal(s, steps)
    ensures Invariant(Reached(s, steps))
  {
    hide Invariant;
    if steps != [] {
      InvariantOverRuns(s, steps[..|steps| - 1]);
      StepKeeps(Reached(s, steps[..|steps| - 1]), steps[|steps| - 1]);
    }
  }

  lemma EmptyInvariant()
    ensures Invariant(EMPTY)
  {
  }

  /** From the start on: registry and final frames over every interleaving with distinct ids in
      flight. */
  lemma RunsFromStart(steps: seq<Step>)
    requires Legal(EMPTY, steps)
    ensures var s := Reached(EMPTY, steps);
      && RegistryExact(s)
      && forall t :: t in s.runs && s.runs[t].stage.Done? ==>
           if s.runs[t].stage.ok then Complete(s.runs[t].output) else AllPartial(s.runs[t].output)
  {
    EmptyInvariant();
    InvariantOverRuns(EMPTY, steps);
    hide RegistryExact, Complete, AllPartial, Reached;
  }

  /** A cancel request named an id while the token was registered under it for a search in flight. */
  ghost predicate TakenAt(s: State, steps: seq<Step>, i: nat, t: Token) {
    && i < |steps| && steps[i].Take?
    && var before := Reached(s, steps[..i]);
    && steps[i].query in before.registry && before.registry[steps[i].query] == t
    && exists c :: c in before.serving && before.serving[c] == Search(steps[i].query, t)
  }

  lemma TakenEarlier(s: State, steps: seq<Step>, i: nat, t: Token)
    requires steps != [] && TakenAt(s, steps[..|steps| - 1], i, t)
    ensures TakenAt(s, steps, i, t)
  {
    var front := steps[..|steps| - 1];
    assert front[..i] == steps[..i] && front[i] == steps[i];
  }

  lemma TakenNow(s: State, steps: seq<Step>, t: Token)
    requires steps != [] && Invariant(s) && Legal(s, steps)
    requires steps[|steps| - 1].Take?
    requires var before := Reached(s, steps[..|steps| - 1]);
      steps[|steps| - 1].query in before.registry && before.registry[steps[|steps| - 1].query] == t
    ensures TakenAt(s, steps, |steps| - 1, t)
  {
    InvariantOverRuns(s, steps[..|steps| - 1]);
  }

  /** Only a cancel request that names its id while it is registered cancels a token. */
  lemma {:induction false} CancelledOnRequest(s: State, steps: seq<Step>, t: Token)
    requires Invariant(s) && Legal(s, steps)
    requires Taken(Reached(s, steps).cancelled, Reached(s, steps).holding, t)
    requires !Taken(s.cancelled, s.holding, t)
    ensures exists i :: TakenAt(s, steps, i, t)
  {
    hide Invariant, RegistryExact, TakenAt;
    var front, step := steps[..|steps| - 1], steps[|steps| - 1];
    var before := Reached(s, front);
    if Taken(before.cancelled, before.holding, t) {
      CancelledOnRequest(s, front, t);
      var i :| TakenAt(s, front, i, t);
      TakenEarlier(s, steps, i, t);
    } else {
      OnlyTakeTakes(before, step, t);
      TakenNow(s, steps, t);
    }
  }

  lemma OnlyTakeTakes(s: State, step: Step, t: Token)
    requires Enabled(s, step) && !Taken(s.cancelled, s.holding, t)
    requires Taken(Next(s, step).cancelled, Next(s, step).holding, t)
    ensures step.Take? && step.query in s.registry && s.registry[step.query] == t
  {
  }

  // ---------------------------------------------------------------------------------
  // After a cancellation
  // ---------------------------------------------------------------------------------

  /** How many more frames a run may write once its token is cancelled. */
  function Left(stage: Stage): nat {
    match stage
    case Opening => 2
    case Matching => 2
    case Checking => 1
    case Looping => 1
    case Closing(_) => 1
    case Done(_) => 0
  }

  predicate Unfused(run: Run) {
    run.stage != Closing(true) && Final(true) !in run.output
  }

  lemma StepAfterCancel(s: State, step: Step, t: Token)
    requires Enabled(s, step) && TokensKnown(s) && t in s.cancelled
    ensures t in Next(s, step).cancelled
    ensures var run, later := RunOf(s, t), RunOf(Next(s, step), t);
      && run.output <= later.output
      && |later.output| + Left(later.stage) <= |run.output| + Left(run.stage)
      && (Unfused(run) ==> Unfused(later))
  {
  }

  /** A cancelled search or grep writes at most one more frame before its final one, and a search
      cancelled before it looks at its token ends without a fused ranking. */
  lemma {:induction false} CancelIsPrompt(s: State, steps: seq<Step>, t: Token)
    requires Invariant(s) && Legal(s, steps) && t in s.cancelled
    ensures t in Reached(s, steps).cancelled
    ensures var run, later := RunOf(s, t), RunOf(Reached(s, steps), t);
      && run.output <= later.output
      && |later.output| + Left(later.stage) <= |run.output| + Left(run.stage)
      && (Unfused(run) ==> Unfused(later))
  {
    hide Invariant, Next, RunOf, Left, Unfused;
    if steps != [] {
      var front := steps[..|steps| - 1];
      var before := Reached(s, front);
      CancelIsPrompt(s, front, t);
      InvariantOverRuns(s, front);
      InvariantParts(before);
      StepAfterCancel(before, steps[|steps| - 1], t);
    }
  }

  // ---------------------------------------------------------------------------------
  // Query ids used twice
  // ---------------------------------------------------------------------------------

  /** A way of a handler out of its inner function: no further hits, and the final frame. */
  function Leaving(c: ConnId, stage: Stage): seq<Step> {
    match stage
    case Opening => [Lexical(c, false, true)] + [Check(c)] + [Close(c, true)]
    case Checking => [Check(c)] + [Close(c, true)]
    case Looping => [Candidate(c, false)] + [Close(c, true)]
    case Matching => [Matched(c, false, true, false)] + [Candidate(c, false)] + [Close(c, true)]
    case Closing(_) => [Close(c, true)]
    case Done(_) => []
  }

  lemma NothingReached(s: State)
    ensures Reached(s, []) == s && Legal(s, [])
  {
  }

  lemma ReachedNext(s: State, steps: seq<Step>, step: Step)
    ensures Reached(s, steps + [step]) ==
      if Enabled(Reached(s, steps), step) then Next(Reached(s, steps), step) else Reached(s, steps)
    ensures Legal(s, steps + [step]) <==> Legal(s, steps) && Allowed(Reached(s, steps), step)
  {
    assert (steps + [step])[..|steps|] == steps;
  }

  lemma ReachedOne(s: State, step: Step)
    requires Allowed(s, step)
    ensures Reached(s, [step]) == Next(s, step) && Legal(s, [step])
  {
    NothingReached(s);
    ReachedNext(s, [], step);
    assert [] + [step] == [step];
  }

  lemma ReachedTwo(s: State, first: Step, second: Step)
    requires Allowed(s, first) && Allowed(Next(s, first), second)
    ensures Reached(s, [first] + [second]) == Next(Next(s, first), second) && Legal(s, [first] + [second])
  {
    ReachedOne(s, first);
    ReachedNext(s, [first], second);
  }

  lemma ReachedThree(s: State, first: Step, second: Step, third: Step)
    requires Allowed(s, first) && Allowed(Next(s, first), second) && Allowed(Next(Next(s, first), second), third)
    ensures Reached(s, [first] + [second] + [third]) == Next(Next(Next(s, first), second), third)
    ensures Legal(s, [first] + [second] + [third])
  {
    ReachedTwo(s, first, second);
    ReachedNext(s, [first] + [second], third);
  }

  /** Leaving touches nothing but the handler's own run. */
  lemma LeavingEnds(s: State, c: ConnId)
    requires c in s.serving
    ensures var stage := RunOf(s, s.serving[c].token).stage;
      var r := Reached(s, Leaving(c, stage));
      && Legal(s, Leaving(c, stage))
      && r == s.(runs := r.runs) && Enabled(r, Finish(c))
  {
    hide Reached, Legal;
    var stage := RunOf(s, s.serving[c].token).stage;
    match stage
    case Opening => ReachedThree(s, Lexical(c, false, true), Check(c), Close(c, true));
    case Checking => ReachedTwo(s, Check(c), Close(c, true));
    case Looping => ReachedTwo(s, Candidate(c, false), Close(c, true));
    case Matching => ReachedThree(s, Matched(c, false, true, false), Candidate(c, false), Close(c, true));
    case Closing(_) => ReachedOne(s, Close(c, true));
    case Done(_) => NothingReached(s);
  }

  /** A run after which the older of two searches of one id has finished. */
  function OlderFinishes(s: State, older: ConnId): seq<Step>
    requires older in s.serving
  {
    Leaving(older, RunOf(s, s.serving[older].token).stage) + [Finish(older)]
  }

  lemma OlderDeregisters(s: State, older: ConnId, younger: ConnId)
    requires older in s.serving && Current(s, younger) && younger != older
    requires s.serving[older].query == s.serving[younger].query
    ensures Legal(s, OlderFinishes(s, older))
    ensures var r := Reached(s, OlderFinishes(s, older));
      Current(r, younger) && r.serving[younger] == s.serving[younger] && s.serving[younger].query !in r.registry
  {
    var leaving := Leaving(older, RunOf(s, s.serving[older].token).stage);
    LeavingEnds(s, older);
    hide Reached, Legal, Leaving;
    ReachedNext(s, leaving, Finish(older));
  }

  /** Whatever legal steps follow, the registry stays exact. */
  ghost predicate StaysExact(s: State) {
    forall steps :: Legal(s, steps) ==> RegistryExact(Reached(s, steps))
  }

  /** A search may be started under an id if and only if no search in flight has it, cancelled or
      not: then the registry stays exact over every legal continuation, and else there is one over
      which it does not. */
  lemma StartStaysExactly(s: State, step: Step)
    requires Invariant(s) && Enabled(s, step) && Starts(step)
    ensures StaysExact(Next(s, step)) <==> !InFlight(s, step.query)
  {
    hide RegistryExact, WellWritten, Reached, Legal;
    var r := Next(s, step);
    if InFlight(s, step.query) {
      var older :| older in s.serving && s.serving[older].query == step.query;
      StartedIsCurrent(s, step);
      OlderDeregisters(r, older, step.conn);
      LostIsInexact(Reached(r, OlderFinishes(r, older)), step.conn);
    } else {
      StepKeeps(s, step);
      forall steps | Legal(r, steps)
        ensures RegistryExact(Reached(r, steps))
      {
        InvariantOverRuns(r, steps);
      }
    }
  }

  lemma StartedIsCurrent(s: State, step: Step)
    requires TokensKnown(s) && Enabled(s, step) && Starts(step)
    ensures Current(Next(s, step), step.conn) && Next(s, step).serving[step.conn].query == step.query
  {
  }

  lemma LostIsInexact(s: State, c: ConnId)
    requires Current(s, c) && s.serving[c].query !in s.registry
    ensures !RegistryExact(s)
  {
  }

  /** What the first search of the examples does to its end: no lexical hits, and the final frame. */
  function FirstEnds(): seq<Step> {
    [Lexical(0, false, true)] + [Check(0)] + [Close(0, true)] + [Finish(0)]
  }

  /** A search started under an id still registered: the first search to finish deregisters the
      second, which is then in flight, not cancelled, and out of reach of any cancel request. */
  lemma SecondSearchIsLost()
    ensures var s := Reached(EMPTY, [StartSearch(0, 7)] + [StartSearch(1, 7)]);
      var r := Reached(s, FirstEnds());
      Current(r, 1) && r.serving[1].query == 7 && 7 !in r.registry
  {
    hide Reached, Legal;
    NothingReached(EMPTY);
    assert [] + [StartSearch(0, 7)] == [StartSearch(0, 7)];
    ReachedNext(EMPTY, [], StartSearch(0, 7));
    ReachedNext(EMPTY, [StartSearch(0, 7)], StartSearch(1, 7));
    OlderDeregisters(Reached(EMPTY, [StartSearch(0, 7)] + [StartSearch(1, 7)]), 0, 1);
  }

  /** A search resubmitted after its cancellation, while the cancelled one is still in flight: its
      id is free and the registry stays exact at first, and yet the search is lost in the end. */
  lemma ResubmittedSearchIsLost()
    ensures var s := Reached(EMPTY, [StartSearch(0, 7)] + [Take(1, 7)] + [Fire(1)]);
      && Invariant(s) && Enabled(s, StartSearch(2, 7)) && 7 !in s.registry && InFlight(s, 7)
      && var t := Next(s, StartSearch(2, 7));
      var r := Reached(t, FirstEnds());
      RegistryExact(t) && Current(r, 2) && r.serving[2].query == 7 && 7 !in r.registry
  {
    hide Reached, Legal, Invariant, RegistryExact;
    ReachedThree(EMPTY, StartSearch(0, 7), Take(1, 7), Fire(1));
    EmptyInvariant();
    InvariantOverRuns(EMPTY, [StartSearch(0, 7)] + [Take(1, 7)] + [Fire(1)]);
    var s := Reached(EMPTY, [StartSearch(0, 7)] + [Take(1, 7)] + [Fire(1)]);
    assert s == State(1, map[], {0}, map[0 := Search(7, 0)], map[], map[0 := Run(Opening, [])], {});
    InvariantParts(s);
    StartKeepsRegistry(s, 2, 7, Opening);
    OlderDeregisters(Next(s, StartSearch(2, 7)), 0, 2);
  }
}
