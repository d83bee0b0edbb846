/** What holds in every interleaving of the iteration engine. */
module IterationSafety {
  import opened Wrappers
  import opened Iteration

  predicate InLoop(p: Point) {
    p.Head? || Launching(p)
  }

  predicate Launching(p: Point) {
    p.Acquiring? || p.Adding? || p.Spawning? || p.Selecting?
  }

  predicate AfterWait(p: Point) {
    p.Draining? || AfterDrain(p)
  }

  predicate AfterDrain(p: Point) {
    p.ClosingThrottle? || p.ClosingErrors? || p.Returned?
  }

  // ---------------------------------------------------------------------------------------------
  // The invariant
  // ---------------------------------------------------------------------------------------------

  /** Tokens and the wait group count exactly the workers they are held for; channels close last, once. */
  ghost predicate Channels(c: Config, s: State) {
    && !s.panicked
    && s.tokens == Sum(Token, s.workers) + (if s.main.Adding? || s.main.Spawning? then 1 else 0)
    && s.tokens <= c.limit
    && |s.errors| <= c.limit
    && s.waitGroup == Sum(Awaited, s.workers) + (if s.main.Spawning? then 1 else 0)
    && (AfterWait(s.main) ==> s.waitGroup == 0)
    && (s.throttleClosed <==> s.main.ClosingErrors? || s.main.Returned?)
    && (s.errorsClosed <==> s.main.Returned?)
  }

  /** The counters count the workers that returned from the iteration function. */
  ghost predicate Counters(s: State) {
    && s.successCount == Sum(Succeeded, s.workers)
    && s.failCount == Sum(Errored, s.workers)
  }

  /** Worker i runs iteration start + i; it has an outcome once it returned, and sends only a failure. */
  ghost predicate WorkersFit(c: Config, s: State) {
    forall i | 0 <= i < |s.workers| ::
      && s.workers[i].index == c.start + i
      && (s.workers[i].outcome.None? <==> s.workers[i].phase == Running)
      && (s.workers[i].phase == Sending ==> s.workers[i].outcome == Some(Failure))
  }

  /** How far the loop got. */
  ghost predicate Launches(c: Config, s: State) {
    && (c.mode.Unparsable? ==> s.workers == [])
    && (Launching(s.main) ==> !c.mode.Unparsable? && (c.mode.Count? ==> s.currentIter < c.mode.n))
    && (c.mode.Count? && s.workers != [] ==> s.currentIter <= c.mode.n)
    && (InLoop(s.main) ==> s.currentIter == c.start + |s.workers| - (if s.main.Selecting? then 1 else 0))
    && (s.main.Selecting? ==> s.workers != [])
    && (!InLoop(s.main) ==> StoppedEarly(c, s) || RanOut(c, s))
  }

  /** The loop was left through an error, after the launch of the current iteration. */
  predicate StoppedEarly(c: Config, s: State) {
    && !c.ignoreErrors && s.retErr.IterationError? && s.workers != []
    && s.currentIter == c.start + |s.workers| - 1
    && (c.mode.Count? ==> s.currentIter < c.mode.n)
  }

  /** The loop was left because there was nothing more to launch. */
  predicate RanOut(c: Config, s: State) {
    s.currentIter == c.start + |s.workers| && (c.mode.Count? ==> s.currentIter >= c.mode.n)
  }

  predicate Failed(c: Config, s: State, index: int) {
    0 <= index - c.start < |s.workers| && s.workers[index - c.start].outcome == Some(Failure)
  }

  /** A worker that returned a failure and is past its attempt to report it. */
  predicate Reported(w: Worker) {
    w.outcome == Some(Failure) && w.phase != Sending
  }

  /** A reported failure is in the error channel or in the result, and nothing else is. */
  ghost predicate Failures(c: Config, s: State) {
    && (forall i | 0 <= i < |s.errors| :: Failed(c, s, s.errors[i]))
    && (s.retErr.IterationError? ==> !c.ignoreErrors && Failed(c, s, s.retErr.index))
    && (s.retErr.ParseError? ==> c.mode.Unparsable?)
    && (InLoop(s.main) ==> s.retErr.NoError?)
    && (!InLoop(s.main) && c.mode.Unparsable? ==> s.retErr.ParseError?)
    && (!c.ignoreErrors && (exists i :: 0 <= i < |s.workers| && Reported(s.workers[i])) ==>
          s.errors != [] || s.retErr.IterationError?)
    && (AfterDrain(s.main) ==> s.errors == [] || s.retErr.IterationError?)
  }

  ghost predicate Inv(c: Config, s: State) {
    Channels(c, s) && Counters(s) && WorkersFit(c, s) && Launches(c, s) && Failures(c, s)
  }

  lemma InitialInv(c: Config)
    ensures Inv(c, Initial(c))
  {
  }

  // ---------------------------------------------------------------------------------------------
  // Every step keeps it
  // ---------------------------------------------------------------------------------------------

  lemma LoopHeadKeeps(c: Config, s: State, timerFired: bool)
    requires Inv(c, s) && s.main.Head?
    ensures Inv(c, LoopHead(c, s, timerFired))
  {
    assert LoopHead(c, s, timerFired).workers == s.workers;
  }

  lemma AcquireKeeps(c: Config, s: State)
    requires Inv(c, s) && s.main.Acquiring? && Acquire(c, s).Some?
    ensures Inv(c, Acquire(c, s).value)
  {
    assert Acquire(c, s).value.workers == s.workers;
  }

  lemma AddKeeps(c: Config, s: State)
    requires Inv(c, s) && s.main.Adding?
    ensures Inv(c, s.(main := Spawning, waitGroup := s.waitGroup + 1))
  {
  }

  lemma SpawnKeeps(c: Config, s: State)
    requires Inv(c, s) && s.main.Spawning?
    ensures Inv(c, Spawn(s))
  {
    var s', w := Spawn(s), Worker(s.currentIter, Running, None);
    SumAppend(Token, s.workers, w);
    SumAppend(Awaited, s.workers, w);
    SumAppend(Succeeded, s.workers, w);
    SumAppend(Errored, s.workers, w);
    assert Channels(c, s') && Counters(s') && Launches(c, s');
    FailuresKept(c, s, s');
  }

  /** Failures is kept by a step that only adds workers or moves them without reporting. */
  lemma FailuresKept(c: Config, s: State, s': State)
    requires Failures(c, s)
    requires |s.workers| <= |s'.workers| && s'.errors == s.errors && s'.retErr == s.retErr
    requires InLoop(s.main) == InLoop(s'.main) && (AfterDrain(s'.main) ==> AfterDrain(s.main))
    requires forall i | 0 <= i < |s.workers| ::
      s.workers[i].outcome == Some(Failure) ==> s'.workers[i].outcome == Some(Failure)
    requires forall i | 0 <= i < |s'.workers| :: Reported(s'.workers[i]) ==> i < |s.workers| && Reported(s.workers[i])
    ensures Failures(c, s')
  {
    assert forall e :: Failed(c, s, e) ==> Failed(c, s', e);
  }

  lemma SelectKeeps(c: Config, s: State)
    requires Inv(c, s) && s.main.Selecting?
    ensures Inv(c, Select(c, s))
  {
    var s' := Select(c, s);
    assert s'.workers == s.workers;
    if s.errors != [] {
      assert Failed(c, s, s.errors[0]);
      assert forall i | 0 <= i < |s'.errors| :: s'.errors[i] == s.errors[i + 1];
    }
    assert forall e :: Failed(c, s, e) <==> Failed(c, s', e);
  }

  lemma DrainKeeps(c: Config, s: State)
    requires Inv(c, s) && s.main.Draining?
    ensures Inv(c, Drain(c, s))
  {
    var s' := Drain(c, s);
    assert s'.workers == s.workers;
    if s.errors != [] {
      assert Failed(c, s, s.errors[0]);
      assert forall i | 0 <= i < |s'.errors| :: s'.errors[i] == s.errors[i + 1];
    }
    assert forall e :: Failed(c, s, e) <==> Failed(c, s', e);
  }

  lemma CloseKeeps(c: Config, s: State, timerFired: bool)
    requires Inv(c, s) && (s.main.WaitingAll? || s.main.ClosingThrottle? || s.main.ClosingErrors?)
    requires NextMain(c, s, timerFired).Some?
    ensures Inv(c, NextMain(c, s, timerFired).value)
  {
    var s' := NextMain(c, s, timerFired).value;
    assert s'.workers == s.workers && s'.errors == s.errors && s'.retErr == s.retErr;
    FailuresKept(c, s, s');
  }

  /** What replacing worker i does to the sums. */
  lemma SumsMove(ws: seq<Worker>, i: nat, w: Worker)
    requires i < |ws|
    ensures Sum(Token, ws[i := w]) + Weight(Token, ws[i]) == Sum(Token, ws) + Weight(Token, w)
    ensures Sum(Awaited, ws[i := w]) + Weight(Awaited, ws[i]) == Sum(Awaited, ws) + Weight(Awaited, w)
    ensures Sum(Succeeded, ws[i := w]) + Weight(Succeeded, ws[i]) == Sum(Succeeded, ws) + Weight(Succeeded, w)
    ensures Sum(Errored, ws[i := w]) + Weight(Errored, ws[i]) == Sum(Errored, ws) + Weight(Errored, w)
    ensures Sum(Token, ws) >= Weight(Token, ws[i]) && Sum(Awaited, ws) >= Weight(Awaited, ws[i])
  {
    SumUpdate(Token, ws, i, w);
    SumUpdate(Awaited, ws, i, w);
    SumUpdate(Succeeded, ws, i, w);
    SumUpdate(Errored, ws, i, w);
    SumAtLeast(Token, ws, i);
    SumAtLeast(Awaited, ws, i);
  }

  lemma ReturnKeeps(c: Config, s: State, i: nat, outcome: Outcome)
    requires Inv(c, s) && i < |s.workers| && s.workers[i].phase == Running
    ensures Inv(c, ReturnFromIteration(s, i, outcome))
  {
    var s' := ReturnFromIteration(s, i, outcome);
    SumsMove(s.workers, i, s'.workers[i]);
    assert Launches(c, s') && WorkersFit(c, s') && Counters(s');
    ReportOnReturn(c, s, i, outcome);
  }

  lemma ReportOnReturn(c: Config, s: State, i: nat, outcome: Outcome)
    requires Inv(c, s) && i < |s.workers| && s.workers[i].phase == Running
    ensures Failures(c, ReturnFromIteration(s, i, outcome))
  {
    FailuresKept(c, s, ReturnFromIteration(s, i, outcome));
  }

  lemma SendKeeps(c: Config, s: State, i: nat)
    requires Inv(c, s) && i < |s.workers| && s.workers[i].phase == Sending
    ensures Inv(c, Send(c, s, i))
  {
    var s' := Send(c, s, i);
    SumsMove(s.workers, i, s'.workers[i]);
    assert !s.errorsClosed;
    assert s'.errors != [];
    assert Failed(c, s, s.workers[i].index);
    assert forall e :: Failed(c, s, e) ==> Failed(c, s', e);
  }

  lemma DoneKeeps(c: Config, s: State, i: nat)
    requires Inv(c, s) && i < |s.workers| && s.workers[i].phase == Finishing
    ensures Inv(c, Done(s, i))
  {
    var s' := Done(s, i);
    SumsMove(s.workers, i, Worker(s.workers[i].index, Releasing, s.workers[i].outcome));
    assert Launches(c, s') && WorkersFit(c, s') && Counters(s');
    FailuresKept(c, s, s');
  }

  lemma ReleaseKeeps(c: Config, s: State, i: nat)
    requires Inv(c, s) && i < |s.workers| && s.workers[i].phase == Releasing && Release(s, i).Some?
    ensures Inv(c, Release(s, i).value)
  {
    var s' := Release(s, i).value;
    SumsMove(s.workers, i, s'.workers[i]);
    assert Launches(c, s') && WorkersFit(c, s') && Counters(s');
    FailuresKept(c, s, s');
  }

  lemma NextKeepsInv(c: Config, s: State, a: Action)
    requires Inv(c, s) && Next(c, s, a).Some?
    ensures Inv(c, Next(c, s, a).value)
  {
    match a
    case MainStep(timerFired) =>
      match s.main {
       case Head => LoopHeadKeeps(c, s, timerFired);
       case Acquiring => AcquireKeeps(c, s);
       case Adding => AddKeeps(c, s);
       case Spawning => SpawnKeeps(c, s);
       case Selecting => SelectKeeps(c, s);
       case Draining => DrainKeeps(c, s);
       case _ => CloseKeeps(c, s, timerFired);
      }
    case WorkerStep(i, outcome) =>
      match s.workers[i].phase {
       case Running => ReturnKeeps(c, s, i, outcome);
       case Sending => SendKeeps(c, s, i);
       case Finishing => DoneKeeps(c, s, i);
       case Releasing => ReleaseKeeps(c, s, i);
      }
  }
}
