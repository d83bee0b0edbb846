/**
 The throttled iteration engine as a state machine: one main routine that launches iterations, and one
 worker per launched iteration, interleaved step by step.

 They share a semaphore channel (`tokens` counts its buffered entries), a wait group, a bounded error
 channel that workers send to without blocking, two atomic counters and the named results.  A blocked
 routine is one whose step is not enabled; an operation that Go answers with a panic sets `panicked`.
 */
module Iteration {
  import opened Wrappers

  /** What one call of the iteration function returned: nil, an error that is to be ignored, or another error. */
  datatype Outcome = Success | IgnoredError | Failure

  /** An iteration count, a duration (its timer may fire at any loop head), or text that is neither. */
  datatype Mode = Count(n: int) | Duration | Unparsable

  /** `limit` is the routine limit, which is 1 for iterations that must run sequentially; `start` is the first index. */
  datatype Config = Config(limit: nat, ignoreErrors: bool, mode: Mode, start: int)

  /** Where a worker is: in the iteration function, about to send its error, before wg.Done, before giving
      its token back, or gone. */
  datatype Phase = Running | Sending | Finishing | Releasing | Exited

  datatype Worker = Worker(index: int, phase: Phase, outcome: Option<Outcome>)

  /** The loop's program points, then those of the deferred function. */
  datatype Point =
    | Head | Acquiring | Adding | Spawning | Selecting
    | WaitingAll | Draining | ClosingThrottle | ClosingErrors | Returned

  datatype Error = NoError | IterationError(index: int) | ParseError

  datatype State = State(
    main: Point,
    currentIter: int,
    workers: seq<Worker>,
    tokens: nat,
    waitGroup: nat,
    errors: seq<int>,
    successCount: nat,
    failCount: nat,
    retErr: Error,
    throttleClosed: bool,
    errorsClosed: bool,
    panicked: bool)

  /** A step of the main routine, or of worker i; `outcome` is what its iteration function returns. */
  datatype Action = MainStep(timerFired: bool) | WorkerStep(i: nat, outcome: Outcome)

  function Initial(c: Config): State {
    State(Head, c.start, [], 0, 0, [], 0, 0, NoError, false, false, false)
  }

  function Panic(s: State): State {
    s.(panicked := true)
  }

  /** The state after an action, or None when the routine that would act is blocked or finished. */
  function Next(c: Config, s: State, a: Action): Option<State> {
    if s.panicked then None
    else match a
      case MainStep(timerFired) => NextMain(c, s, timerFired)
      case WorkerStep(i, outcome) => if i < |s.workers| then NextWorker(c, s, i, outcome) else None
  }

  function NextMain(c: Config, s: State, timerFired: bool): Option<State> {
    match s.main
    case Head => Some(LoopHead(c, s, timerFired))
    case Acquiring => Acquire(c, s)
    case Adding => Some(s.(main := Spawning, waitGroup := s.waitGroup + 1))
    case Spawning => Some(Spawn(s))
    case Selecting => Some(Select(c, s))
    case WaitingAll => if s.waitGroup == 0 then Some(s.(main := Draining)) else None
    case Draining => Some(Drain(c, s))
    case ClosingThrottle =>
      Some(if s.throttleClosed then Panic(s) else s.(main := ClosingErrors, throttleClosed := true))
    case ClosingErrors => Some(if s.errorsClosed then Panic(s) else s.(main := Returned, errorsClosed := true))
    case Returned => None
  }

  function LoopHead(c: Config, s: State, timerFired: bool): State {
    match c.mode
    case Count(n) => s.(main := if s.currentIter < n then Acquiring else WaitingAll)
    case Duration => s.(main := if timerFired then WaitingAll else Acquiring)
    case Unparsable => s.(main := WaitingAll, retErr := ParseError)
  }

  function Acquire(c: Config, s: State): Option<State> {
    if s.throttleClosed then Some(Panic(s))
    else if s.tokens < c.limit then Some(s.(main := Adding, tokens := s.tokens + 1))
    else None
  }

  function Spawn(s: State): State {
    s.(main := Selecting, workers := s.workers + [Worker(s.currentIter, Running, None)])
  }

  /** The loop's non-blocking look at the error channel. */
  function Select(c: Config, s: State): State {
    if s.errors == [] then s.(main := Head, currentIter := s.currentIter + 1)
    else if c.ignoreErrors then s.(main := Head, currentIter := s.currentIter + 1, errors := s.errors[1..])
    else s.(main := WaitingAll, retErr := IterationError(s.errors[0]), errors := s.errors[1..])
  }

  function Drain(c: Config, s: State): State {
    if s.errors == [] then s.(main := ClosingThrottle)
    else if c.ignoreErrors then s.(errors := s.errors[1..])
    else s.(main := ClosingThrottle, retErr := IterationError(s.errors[0]), errors := s.errors[1..])
  }

  function NextWorker(c: Config, s: State, i: nat, outcome: Outcome): Option<State>
    requires i < |s.workers|
  {
    match s.workers[i].phase
    case Running => Some(ReturnFromIteration(s, i, outcome))
    case Sending => Some(Send(c, s, i))
    case Finishing => Some(Done(s, i))
    case Releasing => Release(s, i)
    case Exited => None
  }

  function Moved(s: State, i: nat, phase: Phase, outcome: Option<Outcome>): seq<Worker>
    requires i < |s.workers|
  {
    s.workers[i := Worker(s.workers[i].index, phase, outcome)]
  }

  /** The iteration function returns and the outcome is counted. */
  function ReturnFromIteration(s: State, i: nat, outcome: Outcome): State
    requires i < |s.workers|
  {
    if outcome == Success then
      s.(workers := Moved(s, i, Finishing, Some(outcome)), successCount := s.successCount + 1)
    else
      s.(workers := Moved(s, i, if outcome == Failure then Sending else Finishing, Some(outcome)),
         failCount := s.failCount + 1)
  }

  /** The non-blocking send: the error is dropped when the channel is full. */
  function Send(c: Config, s: State, i: nat): State
    requires i < |s.workers|
  {
    if s.errorsClosed then Panic(s)
    else s.(workers := Moved(s, i, Finishing, s.workers[i].outcome),
            errors := if |s.errors| < c.limit then s.errors + [s.workers[i].index] else s.errors)
  }

  function Done(s: State, i: nat): State
    requires i < |s.workers|
  {
    if s.waitGroup == 0 then Panic(s)
    else s.(workers := Moved(s, i, Releasing, s.workers[i].outcome), waitGroup := s.waitGroup - 1)
  }

  /** Taking a token out of the semaphore blocks on an empty open channel and succeeds on a closed one. */
  function Release(s: State, i: nat): Option<State>
    requires i < |s.workers|
  {
    if s.tokens == 0 && !s.throttleClosed then None
    else
      Some(s.(workers := Moved(s, i, Exited, s.workers[i].outcome),
              tokens := if s.tokens == 0 then 0 else s.tokens - 1))
  }

  predicate Final(s: State) {
    s.main == Returned && forall w | w in s.workers :: w.phase == Exited
  }

  // ---------------------------------------------------------------------------------------------
  // Counting workers
  // ---------------------------------------------------------------------------------------------

  /** What a worker is counted for: holding a token, being waited for, being inside the iteration function,
      having returned nil or an error from it, and the steps it has left. */
  datatype Tally = Token | Awaited | Active | Succeeded | Errored | StepsLeft

  function Weight(t: Tally, w: Worker): nat {
    match t
    case Token => if w.phase == Exited then 0 else 1
    case Awaited => if w.phase == Releasing || w.phase == Exited then 0 else 1
    case Active => if w.phase == Running then 1 else 0
    case Succeeded => if w.outcome == Some(Success) then 1 else 0
    case Errored => if w.outcome == Some(IgnoredError) || w.outcome == Some(Failure) then 1 else 0
    case StepsLeft =>
      (match w.phase case Running => 6 case Sending => 5 case Finishing => 2 case Releasing => 1 case Exited => 0)
  }

  function Sum(t: Tally, ws: seq<Worker>): nat {
    if ws == [] then 0 else Sum(t, ws[..|ws| - 1]) + Weight(t, ws[|ws| - 1])
  }

  lemma {:induction false} SumUpdate(t: Tally, ws: seq<Worker>, i: nat, w: Worker)
    requires i < |ws|
    ensures Sum(t, ws[i := w]) + Weight(t, ws[i]) == Sum(t, ws) + Weight(t, w)
    decreases |ws|
  {
    var init := ws[..|ws| - 1];
    if i == |ws| - 1 {
      assert ws[i := w][..|ws| - 1] == init;
    } else {
      assert ws[i := w][..|ws| - 1] == init[i := w];
      SumUpdate(t, init, i, w);
    }
  }

  lemma SumAppend(t: Tally, ws: seq<Worker>, w: Worker)
    ensures Sum(t, ws + [w]) == Sum(t, ws) + Weight(t, w)
  {
    assert (ws + [w])[..|ws|] == ws;
  }

  lemma {:induction false} SumAtLeast(t: Tally, ws: seq<Worker>, i: nat)
    requires i < |ws|
    ensures Sum(t, ws) >= Weight(t, ws[i])
    decreases |ws|
  {
    if i < |ws| - 1 {
      SumAtLeast(t, ws[..|ws| - 1], i);
    }
  }

  lemma {:induction false} SumWitness(t: Tally, ws: seq<Worker>) returns (i: nat)
    requires Sum(t, ws) > 0
    ensures i < |ws| && Weight(t, ws[i]) > 0
  {
    if Weight(t, ws[|ws| - 1]) > 0 {
      i := |ws| - 1;
    } else {
      i := SumWitness(t, ws[..|ws| - 1]);
    }
  }

  lemma {:induction false} SumCompare(a: Tally, b: Tally, ws: seq<Worker>)
    requires forall w: Worker :: Weight(a, w) <= Weight(b, w)
    ensures Sum(a, ws) <= Sum(b, ws)
  {
    if ws != [] {
      SumCompare(a, b, ws[..|ws| - 1]);
    }
  }

  /** When every worker either runs or has an outcome, the counted outcomes account for all others. */
  lemma {:induction false} SumOutcomes(ws: seq<Worker>)
    requires forall i | 0 <= i < |ws| :: ws[i].outcome.None? <==> ws[i].phase == Running
    ensures Sum(Succeeded, ws) + Sum(Errored, ws) + Sum(Active, ws) == |ws|
  {
    if ws != [] {
      SumOutcomes(ws[..|ws| - 1]);
      var o := ws[|ws| - 1].outcome;
      assert o.Some? ==> o.value.Success? || o.value.IgnoredError? || o.value.Failure?;
    }
  }
}
