/** How the iteration engine ends: when the loop is left, how long it takes to return then, and with which error. */
module IterationStops {
  import opened Wrappers
  import opened Iteration
  import opened IterationSafety
  import opened IterationRuns

  // ---------------------------------------------------------------------------------------------
  // Leaving the loop
  // ---------------------------------------------------------------------------------------------

  /** Outside the loop nothing is launched, and every step uses up one of a bounded number. */
  lemma StepAfterLoop(c: Config, s: State, a: Action)
    requires Inv(c, s) && !InLoop(s.main) && Next(c, s, a).Some?
    ensures var s' := Next(c, s, a).value;
      !InLoop(s'.main) && |s'.workers| == |s.workers| && Remaining(s') < Remaining(s)
  {
    match a
    case MainStep(timerFired) =>
      assert NextMain(c, s, timerFired).value.workers == s.workers;
    case WorkerStep(i, outcome) =>
      WorkerStepsRunOut(c, s, i, outcome);
      OthersUntouched(c, s, a);
  }

  lemma {:induction false} LoopStaysLeft(c: Config, states: seq<State>, actions: seq<Action>, i: nat, j: nat)
    requires Execution(c, states, actions) && i <= j <= |actions| && !InLoop(states[i].main)
    ensures !InLoop(states[j].main) && |states[j].workers| == |states[i].workers|
    ensures j - i + Remaining(states[j]) <= Remaining(states[i])
    decreases j
  {
    if i < j {
      LoopStaysLeft(c, states, actions, i, j - 1);
      InvAlways(c, states, actions, j - 1);
      StepAfterLoop(c, states[j - 1], actions[j - 1]);
    }
  }

  lemma {:induction false} SumAtMost(ws: seq<Worker>)
    ensures Sum(StepsLeft, ws) <= 6 * |ws|
  {
    if ws != [] {
      SumAtMost(ws[..|ws| - 1]);
    }
  }

  /**
   The timer ends the loop: once it has fired at the loop head in duration mode, no iteration is launched any
   more, and the number of further steps is bounded.
   */
  lemma TimerEndsLoop(c: Config, states: seq<State>, actions: seq<Action>, i: nat, j: nat)
    requires Execution(c, states, actions) && i < j <= |actions|
    requires c.mode.Duration? && states[i].main.Head? && actions[i] == MainStep(true)
    ensures !InLoop(states[j].main) && |states[j].workers| == |states[i].workers|
    ensures j - i <= 9 + c.limit + 6 * |states[i].workers|
  {
    var s, s' := states[i], states[i + 1];
    assert Next(c, s, actions[i]) == Some(s');
    InvAlways(c, states, actions, i);
    LoopStaysLeft(c, states, actions, i + 1, j);
    SumAtMost(s'.workers);
  }

  /** The same after an error has stopped the loop. */
  lemma ErrorEndsLoop(c: Config, states: seq<State>, actions: seq<Action>, i: nat, j: nat)
    requires Execution(c, states, actions) && i < j <= |actions| && actions[i].MainStep?
    requires states[i].main.Selecting? && states[i].errors != [] && !c.ignoreErrors
    ensures !InLoop(states[j].main) && |states[j].workers| == |states[i].workers|
    ensures j - i <= 9 + c.limit + 6 * |states[i].workers|
  {
    var s, s' := states[i], states[i + 1];
    assert Next(c, s, actions[i]) == Some(s');
    InvAlways(c, states, actions, i);
    LoopStaysLeft(c, states, actions, i + 1, j);
    SumAtMost(s'.workers);
  }

  predicate TimerFiredAt(states: seq<State>, actions: seq<Action>, i: int) {
    0 <= i < |actions| && i < |states| && states[i].main.Head? && actions[i] == MainStep(true)
  }

  lemma {:induction false} LeftByTimerOrError(c: Config, states: seq<State>, actions: seq<Action>, k: nat)
    requires Execution(c, states, actions) && k <= |actions| && c.mode.Duration? && !InLoop(states[k].main)
    ensures states[k].retErr.IterationError? || exists i :: i < k && TimerFiredAt(states, actions, i)
  {
    if k > 0 {
      var s, a := states[k - 1], actions[k - 1];
      assert Next(c, s, a) == Some(states[k]);
      if InLoop(s.main) {
        assert a.MainStep?;
        assert s.main.Head? ==> TimerFiredAt(states, actions, k - 1);
      } else {
        LeftByTimerOrError(c, states, actions, k - 1);
      }
    }
  }

  /** In duration mode the engine returns without an error only after the timer has fired. */
  lemma NoErrorMeansTimer(c: Config, states: seq<State>, actions: seq<Action>)
    requires Execution(c, states, actions) && c.mode.Duration?
    requires states[|actions|].main == Returned && states[|actions|].retErr.NoError?
    ensures exists i :: TimerFiredAt(states, actions, i)
  {
    LeftByTimerOrError(c, states, actions, |actions|);
  }

  // ---------------------------------------------------------------------------------------------
  // Which error is returned
  // ---------------------------------------------------------------------------------------------

  /** The error that a step puts into the channel. */
  function Sent(c: Config, s: State, a: Action): seq<int> {
    if a.WorkerStep? && a.i < |s.workers| && s.workers[a.i].phase.Sending? && |s.errors| < c.limit
    then [s.workers[a.i].index] else []
  }

  /** All errors put into the channel in the first k steps, in order. */
  ghost function SentBefore(c: Config, states: seq<State>, actions: seq<Action>, k: nat): seq<int>
    requires k <= |actions| && k <= |states|
  {
    if k == 0 then [] else SentBefore(c, states, actions, k - 1) + Sent(c, states[k - 1], actions[k - 1])
  }

  /** Where the errors sent so far are: in the channel, or taken out by the loop or by the deferred drain. */
  ghost predicate ErrorsPlaced(c: Config, s: State, sent: seq<int>) {
    if InLoop(s.main) then s.errors == sent
    else if !AfterDrain(s.main) then
      if StoppedEarly(c, s) then sent != [] && s.retErr == IterationError(sent[0]) && s.errors == sent[1..]
      else s.errors == sent && !s.retErr.IterationError?
    else s.retErr == Chosen(sent, StoppedEarly(c, s), s.retErr)
  }

  /** The first error, or the second one when there is one and the loop was stopped by the first. */
  function Chosen(sent: seq<int>, stoppedEarly: bool, otherwise: Error): Error {
    if sent == [] then (if otherwise.IterationError? then NoError else otherwise)
    else IterationError(if stoppedEarly && |sent| > 1 then sent[1] else sent[0])
  }

  lemma MainPlacesErrors(c: Config, s: State, timerFired: bool, sent: seq<int>)
    requires Inv(c, s) && !c.ignoreErrors && ErrorsPlaced(c, s, sent)
    requires NextMain(c, s, timerFired).Some?
    ensures ErrorsPlaced(c, NextMain(c, s, timerFired).value, sent)
  {
  }

  lemma SendPlacesErrors(c: Config, s: State, i: nat, sent: seq<int>)
    requires Inv(c, s) && !c.ignoreErrors && ErrorsPlaced(c, s, sent)
    requires i < |s.workers| && s.workers[i].phase.Sending?
    ensures ErrorsPlaced(c, Send(c, s, i), sent + Sent(c, s, WorkerStep(i, Failure)))
  {
    SumAtLeast(Awaited, s.workers, i);
    var s' := Send(c, s, i);
    assert |s'.workers| == |s.workers| && (StoppedEarly(c, s') <==> StoppedEarly(c, s));
    if |s.errors| == c.limit {
      assert sent + [] == sent;
    }
  }

  /** Only a send touches the channel. */
  lemma OtherStepsKeepErrors(c: Config, s: State, i: nat, outcome: Outcome)
    requires i < |s.workers| && !s.workers[i].phase.Sending? && NextWorker(c, s, i, outcome).Some?
    ensures var s' := NextWorker(c, s, i, outcome).value;
      && s'.errors == s.errors && s'.retErr == s.retErr && s'.main == s.main
      && s'.currentIter == s.currentIter && |s'.workers| == |s.workers|
  {
  }

  lemma WorkerPlacesErrors(c: Config, s: State, i: nat, outcome: Outcome, sent: seq<int>)
    requires Inv(c, s) && !c.ignoreErrors && ErrorsPlaced(c, s, sent)
    requires i < |s.workers| && NextWorker(c, s, i, outcome).Some?
    ensures ErrorsPlaced(c, NextWorker(c, s, i, outcome).value, sent + Sent(c, s, WorkerStep(i, outcome)))
  {
    if s.workers[i].phase.Sending? {
      SendPlacesErrors(c, s, i, sent);
    } else {
      OtherStepsKeepErrors(c, s, i, outcome);
      assert sent + [] == sent;
    }
  }

  lemma {:induction false} ErrorsArePlaced(c: Config, states: seq<State>, actions: seq<Action>, k: nat)
    requires Execution(c, states, actions) && k <= |actions| && !c.ignoreErrors
    ensures ErrorsPlaced(c, states[k], SentBefore(c, states, actions, k))
  {
    if k > 0 {
      ErrorsArePlaced(c, states, actions, k - 1);
      InvAlways(c, states, actions, k - 1);
      var s, sent := states[k - 1], SentBefore(c, states, actions, k - 1);
      assert Next(c, s, actions[k - 1]) == Some(states[k]);
      match actions[k - 1]
      case MainStep(timerFired) =>
        MainPlacesErrors(c, s, timerFired, sent);
        assert sent + [] == sent;
      case WorkerStep(i, outcome) => WorkerPlacesErrors(c, s, i, outcome, sent);
    }
  }

  /**
   Which error is returned: the first that was put into the channel, unless it stopped the loop and another one
   followed; then the deferred drain replaces it by the second.
   */
  lemma ReturnedError(c: Config, states: seq<State>, actions: seq<Action>)
    requires Execution(c, states, actions) && !c.ignoreErrors && states[|actions|].main == Returned
    ensures var last, sent := states[|actions|], SentBefore(c, states, actions, |actions|);
      sent != [] ==>
        last.retErr == IterationError(if StoppedEarly(c, last) && |sent| > 1 then sent[1] else sent[0])
    ensures SentBefore(c, states, actions, |actions|) == [] ==> !states[|actions|].retErr.IterationError?
  {
    ErrorsArePlaced(c, states, actions, |actions|);
  }
}
