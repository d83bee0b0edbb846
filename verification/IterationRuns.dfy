/**
 The promises of the iteration engine over whole executions: it never panics, loses no failure, accounts
 for every iteration, stops soon after an error, and neither blocks for ever nor runs for ever.
 */
module IterationRuns {
  import opened Wrappers
  import opened Iteration
  import opened IterationSafety

  /** An interleaving, from the call of the engine on. */
  ghost predicate Execution(c: Config, states: seq<State>, actions: seq<Action>) {
    && |states| == |actions| + 1
    && states[0] == Initial(c)
    && forall i {:trigger actions[i]} | 0 <= i < |actions| :: Next(c, states[i], actions[i]) == Some(states[i + 1])
  }

  lemma {:induction false} InvAlways(c: Config, states: seq<State>, actions: seq<Action>, k: nat)
    requires Execution(c, states, actions) && k <= |actions|
    ensures Inv(c, states[k])
  {
    if k == 0 {
      InitialInv(c);
    } else {
      InvAlways(c, states, actions, k - 1);
      NextKeepsInv(c, states[k - 1], actions[k - 1]);
    }
  }

  /** No send on a closed channel, no double close, no negative wait group; at most `limit` iterations overlap. */
  lemma NeverPanics(c: Config, states: seq<State>, actions: seq<Action>, k: nat)
    requires Execution(c, states, actions) && k <= |actions|
    ensures !states[k].panicked
    ensures Sum(Active, states[k].workers) <= c.limit
  {
    InvAlways(c, states, actions, k);
    SumCompare(Active, Token, states[k].workers);
  }

  lemma AllReturned(ws: seq<Worker>)
    requires Sum(Awaited, ws) == 0
    ensures forall i | 0 <= i < |ws| :: ws[i].phase == Releasing || ws[i].phase == Exited
  {
    forall i | 0 <= i < |ws| ensures ws[i].phase == Releasing || ws[i].phase == Exited {
      SumAtLeast(Awaited, ws, i);
    }
  }

  /**
   No failure is lost: unless errors are ignored, the engine returns an error if and only if some executed
   iteration failed, although sends to a full error channel are dropped.
   */
  lemma NoFailureLost(c: Config, states: seq<State>, actions: seq<Action>)
    requires Execution(c, states, actions) && states[|actions|].main == Returned
    ensures var last := states[|actions|];
      !c.mode.Unparsable? && !c.ignoreErrors ==>
        (!last.retErr.NoError? <==> exists i :: 0 <= i < |last.workers| && last.workers[i].outcome == Some(Failure))
    ensures var last := states[|actions|];
      last.retErr.IterationError? ==> Failed(c, last, last.retErr.index)
    ensures !c.mode.Unparsable? && c.ignoreErrors ==> states[|actions|].retErr.NoError?
    ensures c.mode.Unparsable? <==> states[|actions|].retErr.ParseError?
  {
    var last := states[|actions|];
    InvAlways(c, states, actions, |actions|);
    AllReturned(last.workers);
    if i :| 0 <= i < |last.workers| && last.workers[i].outcome == Some(Failure) {
      assert Reported(last.workers[i]);
    }
  }

  /**
   On return every launched iteration is counted once, the launched indices are start, start + 1, ... without
   gaps, and in count mode they reach the count unless an error stopped the loop.
   */
  lemma EveryIterationCounted(c: Config, states: seq<State>, actions: seq<Action>)
    requires Execution(c, states, actions) && states[|actions|].main == Returned
    ensures var last := states[|actions|];
      && last.successCount + last.failCount == |last.workers|
      && last.successCount == Sum(Succeeded, last.workers)
      && (forall i | 0 <= i < |last.workers| :: last.workers[i].index == c.start + i)
    ensures c.mode.Count? ==>
      var last, all := states[|actions|], if c.start < c.mode.n then c.mode.n - c.start else 0;
      |last.workers| <= all && (|last.workers| < all ==> last.retErr.IterationError?)
  {
    var last := states[|actions|];
    InvAlways(c, states, actions, |actions|);
    AllReturned(last.workers);
    SumOutcomes(last.workers);
    if Sum(Active, last.workers) > 0 {
      var i := SumWitness(Active, last.workers);
    }
  }

  /** With a semaphore of one, every iteration but the newest is gone: they run one at a time, in index order. */
  lemma {:induction false} SequentialIsOneAtATime(c: Config, states: seq<State>, actions: seq<Action>, k: nat)
    requires Execution(c, states, actions) && k <= |actions| && c.limit == 1
    ensures forall i | 0 <= i < |states[k].workers| - 1 :: states[k].workers[i].phase == Exited
  {
    if k > 0 {
      SequentialIsOneAtATime(c, states, actions, k - 1);
      InvAlways(c, states, actions, k - 1);
      var s := states[k - 1];
      if s.main == Spawning {
        forall i | 0 <= i < |s.workers| ensures s.workers[i].phase == Exited {
          SumAtLeast(Token, s.workers, i);
        }
      }
      OthersUntouched(c, s, actions[k - 1]);
    }
  }

  /** A step changes at most one worker, and none that is gone. */
  lemma OthersUntouched(c: Config, s: State, a: Action)
    requires Next(c, s, a).Some?
    ensures var ws := Next(c, s, a).value.workers;
      && |s.workers| <= |ws| <= |s.workers| + (if s.main == Spawning then 1 else 0)
      && forall i | 0 <= i < |s.workers| :: s.workers[i].phase == Exited ==> ws[i] == s.workers[i]
  {
  }

  // ---------------------------------------------------------------------------------------------
  // Stopping after an error
  // ---------------------------------------------------------------------------------------------

  /** With an error waiting, the loop launches no more than `bound` iterations in all. */
  ghost predicate Stopping(s: State, bound: nat) {
    match s.main
    case Head => s.errors != [] && |s.workers| < bound
    case Acquiring => s.errors != [] && |s.workers| < bound
    case Adding => s.errors != [] && |s.workers| < bound
    case Spawning => s.errors != [] && |s.workers| < bound
    case Selecting => s.errors != [] && |s.workers| <= bound
    case _ => |s.workers| <= bound
  }

  lemma NextKeepsStopping(c: Config, s: State, a: Action, bound: nat)
    requires !c.ignoreErrors && Stopping(s, bound) && Next(c, s, a).Some?
    ensures Stopping(Next(c, s, a).value, bound)
  {
    OthersUntouched(c, s, a);
    if a.WorkerStep? {
      var s' := Next(c, s, a).value;
      assert s'.main == s.main;
      assert s.errors != [] ==> s'.errors != [];
    }
  }

  /** Once an error is enqueued and errors are not ignored, at most one further iteration is launched. */
  lemma {:induction false} AtMostOneMore(c: Config, states: seq<State>, actions: seq<Action>, i: nat, j: nat)
    requires Execution(c, states, actions) && i <= j <= |actions|
    requires !c.ignoreErrors && states[i].errors != []
    ensures |states[j].workers| <= |states[i].workers| + 1
    ensures Stopping(states[j], |states[i].workers| + 1)
    decreases j
  {
    if i < j {
      AtMostOneMore(c, states, actions, i, j - 1);
      NextKeepsStopping(c, states[j - 1], actions[j - 1], |states[i].workers| + 1);
    }
  }

  // ---------------------------------------------------------------------------------------------
  // Progress
  // ---------------------------------------------------------------------------------------------

  /** No worker ever blocks for good: whatever the others do, its next step is enabled right now. */
  lemma WorkersNeverBlock(c: Config, s: State, i: nat, outcome: Outcome)
    requires Inv(c, s) && i < |s.workers| && s.workers[i].phase != Exited
    ensures Next(c, s, WorkerStep(i, outcome)).Some?
  {
    SumAtLeast(Token, s.workers, i);
  }

  predicate WantsToLaunch(c: Config) {
    c.mode.Duration? || (c.mode.Count? && c.start < c.mode.n)
  }

  ghost predicate Stuck(c: Config, s: State) {
    !Final(s) && forall a :: Next(c, s, a).None?
  }

  lemma NotStuck(c: Config, s: State)
    requires Inv(c, s) && (c.limit >= 1 || !WantsToLaunch(c))
    ensures !Stuck(c, s)
  {
    if i :| 0 <= i < |s.workers| && s.workers[i].phase != Exited {
      WorkersNeverBlock(c, s, i, Success);
    } else {
      if Sum(Token, s.workers) > 0 {
        var i := SumWitness(Token, s.workers);
      }
      if Sum(Awaited, s.workers) > 0 {
        var i := SumWitness(Awaited, s.workers);
      }
      if s.main != Returned {
        assert Next(c, s, MainStep(false)).Some?;
      }
    }
  }

  ghost predicate CanGetStuck(c: Config) {
    exists states, actions :: Execution(c, states, actions) && Stuck(c, states[|actions|])
  }

  /** The engine can deadlock exactly when the routine limit is 0 and there is an iteration to launch. */
  lemma StuckOnlyWithoutTokens(c: Config)
    ensures CanGetStuck(c) <==> c.limit == 0 && WantsToLaunch(c)
  {
    if c.limit == 0 && WantsToLaunch(c) {
      var s := Initial(c).(main := Acquiring);
      assert Next(c, Initial(c), MainStep(false)) == Some(s);
      assert Stuck(c, s) by {
        forall a ensures Next(c, s, a).None? {
        }
      }
      assert Execution(c, [Initial(c), s], [MainStep(false)]);
      assert [Initial(c), s][|[MainStep(false)]|] == s;
    }
    if states, actions :| Execution(c, states, actions) && Stuck(c, states[|actions|]) {
      InvAlways(c, states, actions, |actions|);
      if c.limit >= 1 || !WantsToLaunch(c) {
        NotStuck(c, states[|actions|]);
      }
    }
  }

  function Rank(p: Point): nat {
    match p
    case Head => 20 case Acquiring => 19 case Adding => 18 case Spawning => 17 case Selecting => 10
    case WaitingAll => 8 case Draining => 7 case ClosingThrottle => 6 case ClosingErrors => 5 case Returned => 4
  }

  /** An upper bound on the steps that all routines can still take without another turn of the loop. */
  function Remaining(s: State): nat {
    Rank(s.main) + |s.errors| + Sum(StepsLeft, s.workers)
  }

  /** An upper bound on the steps that all routines together can still take in count mode. */
  function StepsLeftOver(c: Config, s: State): nat
    requires c.mode.Count?
  {
    30 * (if s.currentIter < c.mode.n then c.mode.n - s.currentIter else 0) + Remaining(s)
  }

  lemma MainStepsRunOut(c: Config, s: State, timerFired: bool)
    requires c.mode.Count? && Inv(c, s) && NextMain(c, s, timerFired).Some?
    ensures StepsLeftOver(c, NextMain(c, s, timerFired).value) < StepsLeftOver(c, s)
  {
    if s.main.Spawning? {
      SumAppend(StepsLeft, s.workers, Worker(s.currentIter, Running, None));
    } else {
      assert NextMain(c, s, timerFired).value.workers == s.workers;
    }
  }

  lemma WorkerStepsRunOut(c: Config, s: State, i: nat, outcome: Outcome)
    requires Inv(c, s) && i < |s.workers| && NextWorker(c, s, i, outcome).Some?
    ensures Remaining(NextWorker(c, s, i, outcome).value) < Remaining(s)
    ensures NextWorker(c, s, i, outcome).value.main == s.main
    ensures NextWorker(c, s, i, outcome).value.currentIter == s.currentIter
  {
    SumAtLeast(Token, s.workers, i);
    SumAtLeast(Awaited, s.workers, i);
    var s' := NextWorker(c, s, i, outcome).value;
    SumUpdate(StepsLeft, s.workers, i, s'.workers[i]);
    assert s'.workers == s.workers[i := s'.workers[i]];
  }

  /** In count mode every execution, whatever the scheduling, ends: its length is bounded by the count. */
  lemma {:induction false} ExecutionsEnd(c: Config, states: seq<State>, actions: seq<Action>, k: nat)
    requires c.mode.Count? && Execution(c, states, actions) && k <= |actions|
    ensures k + StepsLeftOver(c, states[k]) <= 30 * (if c.start < c.mode.n then c.mode.n - c.start else 0) + 20
  {
    if k > 0 {
      ExecutionsEnd(c, states, actions, k - 1);
      InvAlways(c, states, actions, k - 1);
      match actions[k - 1]
      case MainStep(timerFired) => MainStepsRunOut(c, states[k - 1], timerFired);
      case WorkerStep(i, outcome) => WorkerStepsRunOut(c, states[k - 1], i, outcome);
    }
  }
}
