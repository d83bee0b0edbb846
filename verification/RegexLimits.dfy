/**
 How far the generator keeps to its limit, which is documented as the maximum number of times that a star, a
 plus or a range repeats.
 */
module RegexLimits {
  import opened RegexLanguage
  import opened RegexDraws

  // ---------------------------------------------------------------------------------------------
  // One range
  // ---------------------------------------------------------------------------------------------

  /** Five repetitions under a limit of three. */
  lemma FiveTimesDespiteThree(tape: seq<nat>)
    ensures Gen(Repeat(Literal([120]), 5, 5), 3, tape) == Done([120, 120, 120, 120, 120], tape)
  {
    LiteralTimes(120, 3, 5, tape);
    assert seq(5, i => 120) == [120, 120, 120, 120, 120];
  }

  lemma {:induction false} LiteralTimes(c: int, limit: int, n: nat, tape: seq<nat>)
    requires !IsSurrogate(c)
    ensures GenTimes(Literal([c]), limit, n, tape) == Done(seq(n, i => c), tape)
    decreases n
  {
    if n > 0 {
      LiteralTimes(c, limit, n - 1, tape);
      assert EncodedAll([c]) == [c];
      assert seq(n - 1, i => c) + [c] == seq(n, i => c);
    }
  }

  /** A range of single characters yields at most `limit` of them. */
  predicate RangeKeeps(min: nat, max: int, limit: int, tape: seq<nat>) {
    var g := Gen(Repeat(AnyChar, min, max), limit, tape);
    g.Done? && |g.s| <= limit
  }

  /** Exactly when a range keeps to the limit, whatever is drawn: its minimum is within the limit. */
  lemma RangeKeepsExactly(min: nat, max: int, limit: int)
    ensures (forall tape :: RangeKeeps(min, max, limit, tape)) <==> min <= limit
  {
    forall tape
      ensures var g := Gen(Repeat(AnyChar, min, max), limit, tape);
        g.Done? && |g.s| == RepeatCount(min, max, limit, tape)
    {
      AnyTimes(limit, RepeatCount(min, max, limit, tape), RepeatRest(min, max, limit, tape));
    }
    if min > limit {
      assert !RangeKeeps(min, max, limit, []);
    }
  }

  lemma {:induction false} AnyTimes(limit: int, n: nat, tape: seq<nat>)
    ensures var g := GenTimes(AnyChar, limit, n, tape); g.Done? && |g.s| == n
    decreases n
  {
    if n > 0 {
      PrintableNotEmpty();
      AnyTimes(limit, n - 1, tape);
    }
  }

  /** How often a range repeats, and what is left of the tape then. */
  function RepeatCount(min: nat, max: int, limit: int, tape: seq<nat>): nat {
    var n := Min(max, limit) - min;
    if n > 0 then min + Draw(n + 1, tape) else min
  }

  function RepeatRest(min: nat, max: int, limit: int, tape: seq<nat>): seq<nat> {
    if Min(max, limit) > min then Rest(tape) else tape
  }

  // ---------------------------------------------------------------------------------------------
  // Whole runs
  // ---------------------------------------------------------------------------------------------

  /** Every star, plus and range that a run comes to repeats at most `limit` times. */
  predicate RunKeeps(re: Regex, limit: int, tape: seq<nat>)
    decreases re, 0
  {
    match re
    case Capture(sub) => RunKeeps(sub, limit, tape)
    case Star(sub) =>
      limit >= 0 ==>
        Draw(limit + 1, tape) <= limit && TimesKeep(sub, limit, Draw(limit + 1, tape), Rest(tape))
    case Plus(sub) =>
      limit >= 1 ==>
        Draw(limit, tape) + 1 <= limit && TimesKeep(sub, limit, Draw(limit, tape) + 1, Rest(tape))
    case Quest(sub) => TimesKeep(sub, limit, Draw(2, tape), Rest(tape))
    case Repeat(sub, min, max) =>
      var n := RepeatCount(min, max, limit, tape);
      n <= limit && TimesKeep(sub, limit, n, RepeatRest(min, max, limit, tape))
    case Concat(subs) => EachKeeps(subs, limit, tape)
    case Alternate(subs) => subs != [] ==> RunKeeps(subs[Draw(|subs|, tape)], limit, Rest(tape))
    case _ => true
  }

  predicate TimesKeep(sub: Regex, limit: int, n: nat, tape: seq<nat>)
    decreases sub, 1, n
  {
    n > 0 ==>
      && TimesKeep(sub, limit, n - 1, tape)
      && var before := GenTimes(sub, limit, n - 1, tape);
         before.Done? ==> RunKeeps(sub, limit, before.rest)
  }

  predicate EachKeeps(subs: seq<Regex>, limit: int, tape: seq<nat>)
    decreases subs, 0
  {
    subs != [] ==>
      && EachKeeps(subs[..|subs| - 1], limit, tape)
      && var before := GenEach(subs[..|subs| - 1], limit, tape);
         before.Done? ==> RunKeeps(subs[|subs| - 1], limit, before.rest)
  }

  /** Some run of the expression does not panic. */
  predicate CanFinish(re: Regex, limit: int) {
    match re
    case CharClass(ranges) => ClassSize(ranges, PRINTABLE_CHARS) > 0
    case Capture(sub) => CanFinish(sub, limit)
    case Star(_) => limit >= 0
    case Plus(sub) => limit >= 1 && CanFinish(sub, limit)
    case Repeat(sub, min, _) => min == 0 || CanFinish(sub, limit)
    case Concat(subs) => forall i | 0 <= i < |subs| :: CanFinish(subs[i], limit)
    case Alternate(subs) => exists i :: 0 <= i < |subs| && CanFinish(subs[i], limit)
    case _ => true
  }

  /** Every range that some run can come to has a minimum within the limit. */
  predicate MinimaFit(re: Regex, limit: int) {
    match re
    case Capture(sub) => MinimaFit(sub, limit)
    case Star(sub) => limit < 1 || MinimaFit(sub, limit)
    case Plus(sub) => limit < 1 || MinimaFit(sub, limit)
    case Quest(sub) => MinimaFit(sub, limit)
    case Repeat(sub, min, max) => min <= limit && (MaxCount(min, max, limit) == 0 || MinimaFit(sub, limit))
    case Concat(subs) =>
      forall i | 0 <= i < |subs| && (forall j | 0 <= j < i :: CanFinish(subs[j], limit)) :: MinimaFit(subs[i], limit)
    case Alternate(subs) => forall i | 0 <= i < |subs| :: MinimaFit(subs[i], limit)
    case _ => true
  }

  // ---------------------------------------------------------------------------------------------
  // Finishing
  // ---------------------------------------------------------------------------------------------

  lemma {:induction false} FinishedCanFinish(re: Regex, limit: int, tape: seq<nat>)
    requires Gen(re, limit, tape).Done?
    ensures CanFinish(re, limit)
    decreases re, 0
  {
    match re
    case Capture(sub) => FinishedCanFinish(sub, limit, tape);
    case Plus(sub) => TimesFinished(sub, limit, Draw(limit, tape) + 1, Rest(tape));
    case Repeat(sub, min, max) =>
      TimesFinished(sub, limit, RepeatCount(min, max, limit, tape), RepeatRest(min, max, limit, tape));
    case Concat(subs) => EachFinished(subs, limit, tape);
    case Alternate(subs) => FinishedCanFinish(subs[Draw(|subs|, tape)], limit, Rest(tape));
    case _ =>
  }

  lemma {:induction false} TimesFinished(sub: Regex, limit: int, n: nat, tape: seq<nat>)
    requires GenTimes(sub, limit, n, tape).Done?
    ensures n > 0 ==> CanFinish(sub, limit)
    decreases sub, 1
  {
    if n > 0 {
      FinishedCanFinish(sub, limit, GenTimes(sub, limit, n - 1, tape).rest);
    }
  }

  lemma {:induction false} EachFinished(subs: seq<Regex>, limit: int, tape: seq<nat>)
    requires GenEach(subs, limit, tape).Done?
    ensures forall i | 0 <= i < |subs| :: CanFinish(subs[i], limit)
    decreases subs, 0
  {
    if subs != [] {
      var init := subs[..|subs| - 1];
      EachFinished(init, limit, tape);
      FinishedCanFinish(subs[|subs| - 1], limit, GenEach(init, limit, tape).rest);
      assert forall i | 0 <= i < |init| :: init[i] == subs[i];
    }
  }

  /** A run that does not panic, and leaves the given rest of the tape. */
  lemma {:induction false} Finish(re: Regex, limit: int, rest: seq<nat>) returns (tape: seq<nat>)
    requires CanFinish(re, limit)
    ensures Gen(re, limit, tape).Done? && Gen(re, limit, tape).rest == rest
    decreases re, 0
  {
    match re
    case CharClass(ranges) => tape := Prepend(0, ClassSize(ranges, PRINTABLE_CHARS), rest);
    case AnyChar => tape := FinishChar(PRINTABLE_CHARS, rest);
    case AnyCharNotNL => tape := FinishChar(PRINTABLE_CHARS_NO_NEWLINE, rest);
    case Capture(sub) => tape := Finish(sub, limit, rest);
    case Star(sub) => tape := Prepend(0, limit + 1, rest);
    case Plus(sub) =>
      tape := FinishTimes(sub, limit, 1, rest);
      tape := Prepend(0, limit, tape);
      assert Gen(re, limit, tape) == GenTimes(sub, limit, 1, Rest(tape));
    case Quest(sub) => tape := Prepend(0, 2, rest);
    case Repeat(sub, min, max) =>
      tape := FinishRange(sub, min, max, limit, rest);
    case Concat(subs) => tape := FinishEach(subs, limit, rest);
    case Alternate(subs) =>
      var i :| 0 <= i < |subs| && CanFinish(subs[i], limit);
      tape := Finish(subs[i], limit, rest);
      tape := Prepend(i, |subs|, tape);
    case _ => tape := rest;
  }

  lemma FinishRange(sub: Regex, min: nat, max: int, limit: int, rest: seq<nat>) returns (tape: seq<nat>)
    requires CanFinish(Repeat(sub, min, max), limit)
    ensures var g := Gen(Repeat(sub, min, max), limit, tape); g.Done? && g.rest == rest
    decreases sub, 2
  {
    tape := FinishTimes(sub, limit, min, rest);
    if Min(max, limit) > min {
      tape := Prepend(0, Min(max, limit) - min + 1, tape);
    }
  }

  lemma FinishChar(chars: string, rest: seq<nat>) returns (tape: seq<nat>)
    requires chars == PRINTABLE_CHARS || chars == PRINTABLE_CHARS_NO_NEWLINE
    ensures GenChar(chars, tape).Done? && GenChar(chars, tape).rest == rest
  {
    PrintableNotEmpty();
    tape := Prepend(0, |chars|, rest);
  }

  lemma {:induction false} FinishTimes(sub: Regex, limit: int, n: nat, rest: seq<nat>) returns (tape: seq<nat>)
    requires n > 0 ==> CanFinish(sub, limit)
    ensures GenTimes(sub, limit, n, tape).Done? && GenTimes(sub, limit, n, tape).rest == rest
    decreases sub, 1, n
  {
    tape := rest;
    if n > 0 {
      tape := Finish(sub, limit, rest);
      tape := FinishTimes(sub, limit, n - 1, tape);
    }
  }

  lemma {:induction false} FinishEach(subs: seq<Regex>, limit: int, rest: seq<nat>) returns (tape: seq<nat>)
    requires forall i | 0 <= i < |subs| :: CanFinish(subs[i], limit)
    ensures GenEach(subs, limit, tape).Done? && GenEach(subs, limit, tape).rest == rest
    decreases subs, 0
  {
    tape := rest;
    if subs != [] {
      tape := Finish(subs[|subs| - 1], limit, rest);
      tape := FinishEach(subs[..|subs| - 1], limit, tape);
    }
  }

  /** Exactly when some run does not panic. */
  lemma FinishesExactly(re: Regex, limit: int)
    ensures (exists tape :: Gen(re, limit, tape).Done?) <==> CanFinish(re, limit)
  {
    if tape :| Gen(re, limit, tape).Done? {
      FinishedCanFinish(re, limit, tape);
    }
    if CanFinish(re, limit) {
      var tape := Finish(re, limit, []);
      assert Gen(re, limit, tape).Done?;
    }
  }

  // ---------------------------------------------------------------------------------------------
  // Exactly when every run keeps to the limit
  // ---------------------------------------------------------------------------------------------

  lemma {:induction false} FittingRunKeeps(re: Regex, limit: int, tape: seq<nat>)
    requires MinimaFit(re, limit)
    ensures RunKeeps(re, limit, tape)
    decreases re, 0
  {
    match re
    case Capture(sub) => FittingRunKeeps(sub, limit, tape);
    case Star(sub) => if limit >= 0 { FittingTimesKeep(sub, limit, Draw(limit + 1, tape), Rest(tape)); }
    case Plus(sub) => if limit >= 1 { FittingTimesKeep(sub, limit, Draw(limit, tape) + 1, Rest(tape)); }
    case Quest(sub) => FittingTimesKeep(sub, limit, Draw(2, tape), Rest(tape));
    case Repeat(sub, min, max) =>
      FittingTimesKeep(sub, limit, RepeatCount(min, max, limit, tape), RepeatRest(min, max, limit, tape));
    case Concat(subs) => FittingEachKeeps(subs, limit, tape);
    case Alternate(subs) => if subs != [] { FittingRunKeeps(subs[Draw(|subs|, tape)], limit, Rest(tape)); }
    case _ =>
  }

  lemma {:induction false} FittingTimesKeep(sub: Regex, limit: int, n: nat, tape: seq<nat>)
    requires n > 0 ==> MinimaFit(sub, limit)
    ensures TimesKeep(sub, limit, n, tape)
    decreases sub, 1, n
  {
    if n > 0 {
      FittingTimesKeep(sub, limit, n - 1, tape);
      var before := GenTimes(sub, limit, n - 1, tape);
      if before.Done? {
        FittingRunKeeps(sub, limit, before.rest);
      }
    }
  }

  lemma {:induction false} FittingEachKeeps(subs: seq<Regex>, limit: int, tape: seq<nat>)
    requires MinimaFit(Concat(subs), limit)
    ensures EachKeeps(subs, limit, tape)
    decreases subs, 0
  {
    if subs != [] {
      var n := |subs| - 1;
      var init := subs[..n];
      assert forall i | 0 <= i < n :: init[i] == subs[i];
      FittingEachKeeps(init, limit, tape);
      var before := GenEach(init, limit, tape);
      if before.Done? {
        EachFinished(init, limit, tape);
        FittingRunKeeps(subs[n], limit, before.rest);
      }
    }
  }

  /** A run that repeats something more often than the limit. */
  lemma {:induction false} LimitIsBroken(re: Regex, limit: int) returns (tape: seq<nat>)
    requires !MinimaFit(re, limit)
    ensures !RunKeeps(re, limit, tape)
    decreases re, 0
  {
    match re
    case Capture(sub) => tape := LimitIsBroken(sub, limit);
    case Star(sub) =>
      tape := TimesAreBroken(sub, limit, 1);
      tape := Prepend(1, limit + 1, tape);
    case Plus(sub) =>
      tape := TimesAreBroken(sub, limit, 1);
      tape := Prepend(0, limit, tape);
    case Quest(sub) =>
      tape := TimesAreBroken(sub, limit, 1);
      tape := Prepend(1, 2, tape);
    case Repeat(sub, min, max) => tape := RangeIsBroken(sub, min, max, limit);
    case Concat(subs) =>
      var i :| 0 <= i < |subs| && (forall j | 0 <= j < i :: CanFinish(subs[j], limit)) && !MinimaFit(subs[i], limit);
      tape := EachIsBroken(subs, limit, i);
    case Alternate(subs) =>
      var i :| 0 <= i < |subs| && !MinimaFit(subs[i], limit);
      tape := LimitIsBroken(subs[i], limit);
      tape := Prepend(i, |subs|, tape);
  }

  lemma RangeIsBroken(sub: Regex, min: nat, max: int, limit: int) returns (tape: seq<nat>)
    requires !MinimaFit(Repeat(sub, min, max), limit)
    ensures !RunKeeps(Repeat(sub, min, max), limit, tape)
    decreases sub, 2
  {
    tape := [];
    if min <= limit {
      var k := if min == 0 then 1 else 0;
      if Min(max, limit) > min {
        tape := TimesAreBroken(sub, limit, min + k);
        tape := Prepend(k, Min(max, limit) - min + 1, tape);
      } else {
        tape := TimesAreBroken(sub, limit, min);
      }
    }
  }

  lemma TimesAreBroken(sub: Regex, limit: int, n: nat) returns (tape: seq<nat>)
    requires !MinimaFit(sub, limit) && n > 0
    ensures !TimesKeep(sub, limit, n, tape)
    decreases sub, 1
  {
    tape := LimitIsBroken(sub, limit);
    assert GenTimes(sub, limit, 0, tape) == Done([], tape);
    TimesStayBroken(sub, limit, 1, n, tape);
  }

  lemma {:induction false} TimesStayBroken(sub: Regex, limit: int, m: nat, n: nat, tape: seq<nat>)
    requires m <= n && !TimesKeep(sub, limit, m, tape)
    ensures !TimesKeep(sub, limit, n, tape)
    decreases n
  {
    if m < n {
      TimesStayBroken(sub, limit, m, n - 1, tape);
    }
  }

  lemma {:induction false} EachIsBroken(subs: seq<Regex>, limit: int, i: nat) returns (tape: seq<nat>)
    requires i < |subs| && (forall j | 0 <= j < i :: CanFinish(subs[j], limit)) && !MinimaFit(subs[i], limit)
    ensures !EachKeeps(subs, limit, tape)
    decreases subs, 0
  {
    var n := |subs| - 1;
    if i < n {
      tape := EachIsBroken(subs[..n], limit, i);
    } else {
      tape := LimitIsBroken(subs[n], limit);
      tape := FinishEach(subs[..n], limit, tape);
    }
  }

  /**
   The documented bound holds in every run exactly when no range that can be reached has a minimum above
   the limit.
   */
  lemma LimitIsKeptExactly(re: Regex, limit: int)
    ensures (forall tape :: RunKeeps(re, limit, tape)) <==> MinimaFit(re, limit)
  {
    if MinimaFit(re, limit) {
      forall tape ensures RunKeeps(re, limit, tape) {
        FittingRunKeeps(re, limit, tape);
      }
    } else {
      var tape := LimitIsBroken(re, limit);
      assert !RunKeeps(re, limit, tape);
    }
  }
}
