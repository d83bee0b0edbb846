/**
 When the generated strings leave the language of the expression: exactly, for expressions whose surrogates
 cannot be avoided, and always, for expressions that only match strings with surrogates.
 */
module RegexExactness {
  import opened RegexLanguage
  import opened RegexDraws
  import opened RegexSoundness

  // ---------------------------------------------------------------------------------------------
  // Always unsound
  // ---------------------------------------------------------------------------------------------

  /** Every string of the language holds a surrogate, for a reason that can be read off the expression. */
  predicate Doomed(re: Regex) {
    match re
    case NoMatch => true
    case Literal(runes) => !NoSurrogate(runes)
    case CharClass(ranges) => forall i | 0 <= i < |ranges| :: 0xd800 <= ranges[i].lo && ranges[i].hi <= 0xdfff
    case Capture(sub) => Doomed(sub)
    case Plus(sub) => Doomed(sub)
    case Repeat(sub, min, _) => min > 0 && Doomed(sub)
    case Concat(subs) => exists i :: 0 <= i < |subs| && Doomed(subs[i])
    case Alternate(subs) => forall i | 0 <= i < |subs| :: Doomed(subs[i])
    case _ => false
  }

  lemma {:induction false} DoomedNeedsSurrogate(re: Regex, s: seq<int>)
    requires Doomed(re) && Matches(re, s)
    ensures !NoSurrogate(s)
    decreases re, 0
  {
    match re
    case Capture(sub) => DoomedNeedsSurrogate(sub, s);
    case Plus(sub) =>
      var n: nat :| n >= 1 && Power(sub, n, s);
      DoomedPower(sub, n, s);
    case Repeat(sub, min, max) =>
      var n := CountOf(re, s);
      DoomedPower(sub, n, s);
    case Concat(subs) => DoomedChain(subs, s);
    case Alternate(subs) =>
      var i := BranchOf(subs, s);
      DoomedNeedsSurrogate(subs[i], s);
    case _ =>
  }

  lemma DoomedPower(sub: Regex, n: nat, s: seq<int>)
    requires Doomed(sub) && n > 0 && Power(sub, n, s)
    ensures !NoSurrogate(s)
    decreases sub, 1
  {
    var k := SplitPower(sub, n, s);
    DoomedNeedsSurrogate(sub, s[k..]);
  }

  lemma {:induction false} DoomedChain(subs: seq<Regex>, s: seq<int>)
    requires (exists i :: 0 <= i < |subs| && Doomed(subs[i])) && Chain(subs, s)
    ensures !NoSurrogate(s)
    decreases subs, 0
  {
    var n := |subs| - 1;
    var k := SplitChain(subs, s);
    if Doomed(subs[n]) {
      DoomedNeedsSurrogate(subs[n], s[k..]);
    } else {
      var i :| 0 <= i < n && Doomed(subs[i]);
      assert subs[..n][i] == subs[i];
      DoomedChain(subs[..n], s[..k]);
    }
  }

  /** No generated string holds a surrogate. */
  lemma {:induction false} OutputHasNoSurrogate(re: Regex, limit: int, s: seq<int>)
    requires Matches(Outputs(re, limit), s)
    ensures NoSurrogate(s)
    decreases re, 0
  {
    match re
    case CharClass(ranges) => ClassOutputHasNoSurrogate(ranges, PRINTABLE_CHARS, s[0]);
    case AnyChar => CharExact(PRINTABLE_CHARS, s[0]);
    case AnyCharNotNL => CharExact(PRINTABLE_CHARS_NO_NEWLINE, s[0]);
    case Capture(sub) => OutputHasNoSurrogate(sub, limit, s);
    case Star(sub) =>
      var n := CountOf(Outputs(re, limit), s);
      PowerHasNoSurrogate(sub, limit, n, s);
    case Plus(sub) =>
      var n := CountOf(Outputs(re, limit), s);
      PowerHasNoSurrogate(sub, limit, n, s);
    case Quest(sub) =>
      var n: nat :| n <= 1 && Power(Outputs(sub, limit), n, s);
      PowerHasNoSurrogate(sub, limit, n, s);
    case Repeat(sub, min, max) =>
      var n := CountOf(Outputs(re, limit), s);
      PowerHasNoSurrogate(sub, limit, n, s);
    case Concat(subs) => ChainHasNoSurrogate(subs, limit, s);
    case Alternate(subs) =>
      var i := BranchOf(OutputsAll(subs, limit), s);
      OutputHasNoSurrogate(subs[i], limit, s);
    case _ =>
  }

  lemma ClassOutputHasNoSurrogate(ranges: seq<Range>, chars: string, c: int)
    requires InClass(ClassOutputs(ranges, chars), c)
    ensures !IsSurrogate(c)
  {
    ClassCharExact(ranges, chars, c);
    var r: nat :| r < ClassSize(ranges, chars) && c == ClassChar(ranges, chars, r);
    if ReachesEnd(ranges) {
      MembersAre(ranges, chars);
      assert c in Members(ranges, chars);
    }
  }

  lemma {:induction false} PowerHasNoSurrogate(sub: Regex, limit: int, n: nat, s: seq<int>)
    requires Power(Outputs(sub, limit), n, s)
    ensures NoSurrogate(s)
    decreases sub, 1, n
  {
    if n > 0 {
      var k := SplitPower(Outputs(sub, limit), n, s);
      PowerHasNoSurrogate(sub, limit, n - 1, s[..k]);
      OutputHasNoSurrogate(sub, limit, s[k..]);
      JoinHasNoSurrogate(s, k);
    }
  }

  lemma {:induction false} ChainHasNoSurrogate(subs: seq<Regex>, limit: int, s: seq<int>)
    requires Chain(OutputsAll(subs, limit), s)
    ensures NoSurrogate(s)
    decreases subs, 0
  {
    if subs != [] {
      var n := |subs| - 1;
      var k := SplitChain(OutputsAll(subs, limit), s);
      assert OutputsAll(subs, limit)[..n] == OutputsAll(subs[..n], limit);
      ChainHasNoSurrogate(subs[..n], limit, s[..k]);
      OutputHasNoSurrogate(subs[n], limit, s[k..]);
      JoinHasNoSurrogate(s, k);
    }
  }

  lemma JoinHasNoSurrogate(s: seq<int>, k: nat)
    requires k <= |s| && NoSurrogate(s[..k]) && NoSurrogate(s[k..])
    ensures NoSurrogate(s)
  {
    forall i | 0 <= i < |s| ensures !IsSurrogate(s[i]) {
      assert s[i] == if i < k then s[..k][i] else s[k..][i - k];
    }
  }

  /** Such an expression is missed by every run, whatever bounds have shrunk. */
  lemma DoomedIsMissed(now: Regex, source: Regex, limit: int, tape: seq<nat>)
    requires Doomed(source) && Gen(now, limit, tape).Done?
    ensures !Matches(source, Gen(now, limit, tape).s)
  {
    var s := Gen(now, limit, tape).s;
    ResultIsOutput(now, limit, tape);
    OutputHasNoSurrogate(now, limit, s);
    if Matches(source, s) {
      DoomedNeedsSurrogate(source, s);
    }
  }

  /** Between the two: a branch absorbs the character that another branch loses. */
  lemma AbsorbedExample(limit: int, tape: seq<nat>)
    ensures var re := Alternate([Literal([0xd800]), Literal([REPLACEMENT])]);
      && !Clean(re) && !Doomed(re)
      && Gen(re, limit, tape).Done? && Matches(re, Gen(re, limit, tape).s)
  {
    var lost, kept := Literal([0xd800]), Literal([REPLACEMENT]);
    var re := Alternate([lost, kept]);
    assert !NoSurrogate(lost.runes) && NoSurrogate(kept.runes) by {
      assert IsSurrogate(lost.runes[0]);
    }
    assert re.subs[0] == lost && re.subs[1] == kept;
    assert EncodedAll([0xd800]) == [REPLACEMENT] && EncodedAll([REPLACEMENT]) == [REPLACEMENT];
    assert Matches(re.subs[1], [REPLACEMENT]);
    var i := Draw(2, tape);
    assert re.subs[i] == if i == 0 then lost else kept;
    assert Gen(re.subs[i], limit, Rest(tape)) == Done([REPLACEMENT], Rest(tape));
  }

  // ---------------------------------------------------------------------------------------------
  // The shortest strings
  // ---------------------------------------------------------------------------------------------

  /** No string of the language is shorter; what cannot match at all counts as one character. */
  function MinLen(re: Regex): nat
    decreases re, 0
  {
    match re
    case NoMatch => 1
    case Literal(runes) => |runes|
    case CharClass(_) => 1
    case AnyChar => 1
    case AnyCharNotNL => 1
    case Capture(sub) => MinLen(sub)
    case Plus(sub) => MinLen(sub)
    case Repeat(sub, min, _) => min * MinLen(sub)
    case Concat(subs) => SumLen(subs)
    case Alternate(subs) => LeastLen(subs)
    case _ => 0
  }

  function SumLen(subs: seq<Regex>): nat
    decreases subs, 0
  {
    if subs == [] then 0 else SumLen(subs[..|subs| - 1]) + MinLen(subs[|subs| - 1])
  }

  function LeastLen(subs: seq<Regex>): nat
    decreases subs, 0
  {
    if subs == [] then 0
    else
      var init, last := subs[..|subs| - 1], MinLen(subs[|subs| - 1]);
      if init == [] || last < LeastLen(init) then last else LeastLen(init)
  }

  lemma {:induction false} MatchIsLongEnough(re: Regex, s: seq<int>)
    requires Matches(re, s)
    ensures |s| >= MinLen(re)
    decreases re, 0
  {
    match re
    case Capture(sub) => MatchIsLongEnough(sub, s);
    case Plus(sub) =>
      var n: nat :| n >= 1 && Power(sub, n, s);
      PowerIsLongEnough(sub, n, s);
      MoreIsLonger(1, n, MinLen(sub));
    case Repeat(sub, min, max) =>
      var n := CountOf(re, s);
      PowerIsLongEnough(sub, n, s);
      MoreIsLonger(min, n, MinLen(sub));
    case Concat(subs) => ChainIsLongEnough(subs, s);
    case Alternate(subs) =>
      var i := BranchOf(subs, s);
      MatchIsLongEnough(subs[i], s);
      LeastIsLeast(subs, i);
    case _ =>
  }

  lemma MoreIsLonger(m: nat, n: nat, l: nat)
    requires m <= n
    ensures m * l <= n * l
  {
    assert n * l == m * l + (n - m) * l;
  }

  lemma {:induction false} PowerIsLongEnough(sub: Regex, n: nat, s: seq<int>)
    requires Power(sub, n, s)
    ensures |s| >= n * MinLen(sub)
    decreases sub, 1, n
  {
    if n > 0 {
      var k := SplitPower(sub, n, s);
      PowerIsLongEnough(sub, n - 1, s[..k]);
      MatchIsLongEnough(sub, s[k..]);
      assert n * MinLen(sub) == (n - 1) * MinLen(sub) + MinLen(sub);
    }
  }

  lemma {:induction false} ChainIsLongEnough(subs: seq<Regex>, s: seq<int>)
    requires Chain(subs, s)
    ensures |s| >= SumLen(subs)
    decreases subs, 0
  {
    if subs != [] {
      var k := SplitChain(subs, s);
      ChainIsLongEnough(subs[..|subs| - 1], s[..k]);
      MatchIsLongEnough(subs[|subs| - 1], s[k..]);
    }
  }

  lemma {:induction false} LeastIsLeast(subs: seq<Regex>, i: nat)
    requires i < |subs|
    ensures LeastLen(subs) <= MinLen(subs[i])
    decreases |subs|
  {
    if i < |subs| - 1 {
      assert subs[..|subs| - 1][i] == subs[i];
      LeastIsLeast(subs[..|subs| - 1], i);
    }
  }

  lemma {:induction false} LeastIsTaken(subs: seq<Regex>) returns (i: nat)
    requires subs != []
    ensures i < |subs| && MinLen(subs[i]) == LeastLen(subs)
    decreases |subs|
  {
    var init := subs[..|subs| - 1];
    i := |subs| - 1;
    if init != [] && LeastLen(init) <= MinLen(subs[|subs| - 1]) {
      i := LeastIsTaken(init);
    }
  }

  /** Where a run can produce a string no longer than `len`, leaving the given rest of the tape. */
  predicate Short(g: Outcome, len: nat, rest: seq<nat>) {
    g.Done? && g.rest == rest && |g.s| <= len
  }

  lemma {:induction false} ShortestRun(re: Regex, limit: int, rest: seq<nat>) returns (tape: seq<nat>)
    requires !CanPanic(re, limit)
    ensures Short(Gen(re, limit, tape), MinLen(re), rest)
    decreases re, 0
  {
    match re
    case CharClass(ranges) => tape := Prepend(0, ClassSize(ranges, PRINTABLE_CHARS), rest);
    case AnyChar => tape := ShortestChar(PRINTABLE_CHARS, rest);
    case AnyCharNotNL => tape := ShortestChar(PRINTABLE_CHARS_NO_NEWLINE, rest);
    case Capture(sub) => tape := ShortestRun(sub, limit, rest);
    case Star(sub) => tape := Prepend(0, limit + 1, rest);
    case Plus(sub) => tape := ShortestPlus(sub, limit, rest);
    case Quest(sub) => tape := Prepend(0, 2, rest);
    case Repeat(sub, min, max) => tape := ShortestRange(sub, min, max, limit, rest);
    case Concat(subs) => tape := ShortestEach(subs, limit, rest);
    case Alternate(subs) =>
      var i := LeastIsTaken(subs);
      tape := ShortestRun(subs[i], limit, rest);
      tape := Prepend(i, |subs|, tape);
    case _ => tape := rest;
  }

  lemma ShortestChar(chars: string, rest: seq<nat>) returns (tape: seq<nat>)
    requires chars == PRINTABLE_CHARS || chars == PRINTABLE_CHARS_NO_NEWLINE
    ensures Short(GenChar(chars, tape), 1, rest)
  {
    PrintableNotEmpty();
    tape := Prepend(0, |chars|, rest);
  }

  lemma ShortestPlus(sub: Regex, limit: int, rest: seq<nat>) returns (tape: seq<nat>)
    requires limit >= 1 && !CanPanic(sub, limit)
    ensures Short(Gen(Plus(sub), limit, tape), MinLen(sub), rest)
    decreases sub, 2
  {
    tape := ShortestTimes(sub, limit, 1, rest);
    tape := Prepend(0, limit, tape);
  }

  lemma ShortestRange(sub: Regex, min: nat, max: int, limit: int, rest: seq<nat>) returns (tape: seq<nat>)
    requires !CanPanic(Repeat(sub, min, max), limit)
    ensures Short(Gen(Repeat(sub, min, max), limit, tape), min * MinLen(sub), rest)
    decreases sub, 2
  {
    tape := ShortestTimes(sub, limit, min, rest);
    if Min(max, limit) > min {
      tape := Prepend(0, Min(max, limit) - min + 1, tape);
    }
  }

  lemma {:induction false} ShortestTimes(sub: Regex, limit: int, n: nat, rest: seq<nat>) returns (tape: seq<nat>)
    requires n > 0 ==> !CanPanic(sub, limit)
    ensures Short(GenTimes(sub, limit, n, tape), n * MinLen(sub), rest)
    decreases sub, 1, n
  {
    tape := rest;
    if n > 0 {
      tape := ShortestRun(sub, limit, rest);
      tape := ShortestTimes(sub, limit, n - 1, tape);
      assert n * MinLen(sub) == (n - 1) * MinLen(sub) + MinLen(sub);
    }
  }

  lemma {:induction false} ShortestEach(subs: seq<Regex>, limit: int, rest: seq<nat>) returns (tape: seq<nat>)
    requires forall i | 0 <= i < |subs| :: !CanPanic(subs[i], limit)
    ensures Short(GenEach(subs, limit, tape), SumLen(subs), rest)
    decreases subs, 0
  {
    tape := rest;
    if subs != [] {
      tape := ShortestRun(subs[|subs| - 1], limit, rest);
      tape := ShortestEach(subs[..|subs| - 1], limit, tape);
    }
  }

  // ---------------------------------------------------------------------------------------------
  // Exactly when every run is sound
  // ---------------------------------------------------------------------------------------------

  /** What loses a character is never optional or one of several branches, so no run avoids it. */
  predicate Forced(re: Regex) {
    match re
    case Capture(sub) => Forced(sub)
    case Star(sub) => Clean(sub)
    case Plus(sub) => Forced(sub)
    case Quest(sub) => Clean(sub)
    case Repeat(sub, min, _) => if min == 0 then Clean(sub) else Forced(sub)
    case Concat(subs) => forall i | 0 <= i < |subs| :: Forced(subs[i])
    case Alternate(subs) => forall i | 0 <= i < |subs| :: Clean(subs[i])
    case _ => true
  }

  lemma {:induction false} UncleanIsNotEmpty(re: Regex)
    requires Forced(re) && !Clean(re)
    ensures MinLen(re) > 0
    decreases re, 0
  {
    match re
    case Capture(sub) => UncleanIsNotEmpty(sub);
    case Plus(sub) => UncleanIsNotEmpty(sub);
    case Repeat(sub, min, _) =>
      UncleanIsNotEmpty(sub);
      MoreIsLonger(1, min, MinLen(sub));
    case Concat(subs) => UncleanEachIsNotEmpty(subs);
    case _ =>
  }

  lemma {:induction false} UncleanEachIsNotEmpty(subs: seq<Regex>)
    requires Forced(Concat(subs)) && !Clean(Concat(subs))
    ensures SumLen(subs) > 0
    decreases subs, 0
  {
    var n := |subs| - 1;
    if Clean(subs[n]) {
      UncleanEachIsNotEmpty(subs[..n]);
    } else {
      UncleanIsNotEmpty(subs[n]);
    }
  }

  /** A shortest run whose string is not in the language: every other way to read it would need more characters. */
  lemma {:induction false} MissingRun(re: Regex, limit: int, rest: seq<nat>) returns (tape: seq<nat>)
    requires Forced(re) && !Clean(re) && !CanPanic(re, limit)
    ensures Short(Gen(re, limit, tape), MinLen(re), rest) && !Matches(re, Gen(re, limit, tape).s)
    decreases re, 0
  {
    match re
    case NoMatch => tape := rest;
    case Literal(runes) =>
      LiteralIsKept(runes);
      tape := rest;
    case CharClass(ranges) => tape := MissingChar(ranges, PRINTABLE_CHARS, rest);
    case Capture(sub) => tape := MissingRun(sub, limit, rest);
    case Plus(sub) => tape := MissingPlus(sub, limit, rest);
    case Repeat(sub, min, max) => tape := MissingRange(sub, min, max, limit, rest);
    case Concat(subs) => tape := MissingEach(subs, limit, rest);
  }

  lemma MissingChar(ranges: seq<Range>, chars: string, rest: seq<nat>) returns (tape: seq<nat>)
    requires !CleanClass(ranges)
    ensures var n := ClassSize(ranges, chars);
      n > 0 && !InClass(ranges, ClassChar(ranges, chars, Draw(n, tape))) && Rest(tape) == rest
  {
    DrawsStayInClass(ranges, chars);
    var c :| InClass(ClassOutputs(ranges, chars), c) && !InClass(ranges, c);
    ClassCharExact(ranges, chars, c);
    var r: nat :| r < ClassSize(ranges, chars) && c == ClassChar(ranges, chars, r);
    tape := Prepend(r, ClassSize(ranges, chars), rest);
  }

  lemma MissingPlus(sub: Regex, limit: int, rest: seq<nat>) returns (tape: seq<nat>)
    requires Forced(sub) && !Clean(sub) && limit >= 1 && !CanPanic(sub, limit)
    ensures var g := Gen(Plus(sub), limit, tape); Short(g, MinLen(sub), rest) && !Matches(Plus(sub), g.s)
    decreases sub, 2
  {
    tape := MissingTimes(sub, limit, 1, rest);
    var s := GenTimes(sub, limit, 1, tape).s;
    if Matches(Plus(sub), s) {
      var n := PlusCount(sub, s);
      OnlyShortestPower(sub, 1, n, s);
    }
    tape := Prepend(0, limit, tape);
  }

  lemma MissingRange(sub: Regex, min: nat, max: int, limit: int, rest: seq<nat>) returns (tape: seq<nat>)
    requires min > 0 && Forced(sub) && !Clean(sub) && !CanPanic(sub, limit)
    ensures var g := Gen(Repeat(sub, min, max), limit, tape);
      Short(g, min * MinLen(sub), rest) && !Matches(Repeat(sub, min, max), g.s)
    decreases sub, 2
  {
    tape := MissingTimes(sub, limit, min, rest);
    var s := GenTimes(sub, limit, min, tape).s;
    if Matches(Repeat(sub, min, max), s) {
      var n := CountOf(Repeat(sub, min, max), s);
      OnlyShortestPower(sub, min, n, s);
    }
    if Min(max, limit) > min {
      tape := Prepend(0, Min(max, limit) - min + 1, tape);
    }
  }

  lemma PlusCount(sub: Regex, s: seq<int>) returns (n: nat)
    requires Matches(Plus(sub), s)
    ensures n >= 1 && Power(sub, n, s)
  {
    n :| n >= 1 && Power(sub, n, s);
  }

  /** A string that is long enough for m parts only is made of no more. */
  lemma OnlyShortestPower(sub: Regex, m: nat, n: nat, s: seq<int>)
    requires m <= n && Power(sub, n, s) && |s| <= m * MinLen(sub) && MinLen(sub) > 0
    ensures m == n
  {
    PowerIsLongEnough(sub, n, s);
    StrictlyLonger(m, n, MinLen(sub));
  }

  lemma StrictlyLonger(m: nat, n: nat, l: nat)
    ensures m < n && l > 0 ==> m * l < n * l
  {
    if m < n {
      MoreIsLonger(m + 1, n, l);
      assert (m + 1) * l == m * l + l;
    }
  }

  lemma DivideAt(t: seq<int>, u: seq<int>, k: nat)
    requires |t| <= k <= |t + u| && |u| <= |t + u| - k
    ensures (t + u)[..k] == t && (t + u)[k..] == u
  {
  }

  /** Where a shortest string divides into the parts that a run made. */
  lemma ShortestPowerDivides(sub: Regex, n: nat, t: seq<int>, u: seq<int>)
    requires n > 0 && Power(sub, n, t + u)
    requires |t| <= (n - 1) * MinLen(sub) && |u| <= MinLen(sub)
    ensures Matches(sub, u)
  {
    var s := t + u;
    var k := SplitPower(sub, n, s);
    PowerIsLongEnough(sub, n - 1, s[..k]);
    MatchIsLongEnough(sub, s[k..]);
    DivideAt(t, u, k);
  }

  lemma ShortestChainDivides(subs: seq<Regex>, t: seq<int>, u: seq<int>)
    requires subs != [] && Chain(subs, t + u)
    requires |t| <= SumLen(subs[..|subs| - 1]) && |u| <= MinLen(subs[|subs| - 1])
    ensures Chain(subs[..|subs| - 1], t) && Matches(subs[|subs| - 1], u)
  {
    var s, init, last := t + u, subs[..|subs| - 1], subs[|subs| - 1];
    var k := SplitChain(subs, s);
    ChainIsLongEnough(init, s[..k]);
    MatchIsLongEnough(last, s[k..]);
    DivideAt(t, u, k);
  }

  lemma MissingTimes(sub: Regex, limit: int, n: nat, rest: seq<nat>) returns (tape: seq<nat>)
    requires n > 0 && Forced(sub) && !Clean(sub) && !CanPanic(sub, limit)
    ensures var g := GenTimes(sub, limit, n, tape); Short(g, n * MinLen(sub), rest) && !Power(sub, n, g.s)
    ensures MinLen(sub) > 0
    decreases sub, 1
  {
    UncleanIsNotEmpty(sub);
    var last := MissingRun(sub, limit, rest);
    tape := ShortestTimes(sub, limit, n - 1, last);
    var t, u := GenTimes(sub, limit, n - 1, tape).s, Gen(sub, limit, last).s;
    assert n * MinLen(sub) == (n - 1) * MinLen(sub) + MinLen(sub);
    if Power(sub, n, t + u) {
      ShortestPowerDivides(sub, n, t, u);
    }
  }

  lemma {:induction false} MissingEach(subs: seq<Regex>, limit: int, rest: seq<nat>) returns (tape: seq<nat>)
    requires Forced(Concat(subs)) && !Clean(Concat(subs))
    requires forall i | 0 <= i < |subs| :: !CanPanic(subs[i], limit)
    ensures var g := GenEach(subs, limit, tape); Short(g, SumLen(subs), rest) && !Chain(subs, g.s)
    decreases subs, 0
  {
    var n := |subs| - 1;
    var init, last := subs[..n], subs[n];
    assert forall i | 0 <= i < n :: init[i] == subs[i];
    var middle: seq<nat>;
    if Clean(last) {
      middle := ShortestRun(last, limit, rest);
      tape := MissingEach(init, limit, middle);
    } else {
      middle := MissingRun(last, limit, rest);
      tape := ShortestEach(init, limit, middle);
    }
    NotDivided(subs, GenEach(init, limit, tape).s, Gen(last, limit, middle).s);
  }

  lemma NotDivided(subs: seq<Regex>, t: seq<int>, u: seq<int>)
    requires subs != [] && |t| <= SumLen(subs[..|subs| - 1]) && |u| <= MinLen(subs[|subs| - 1])
    requires !(Chain(subs[..|subs| - 1], t) && Matches(subs[|subs| - 1], u))
    ensures !Chain(subs, t + u)
  {
    if Chain(subs, t + u) {
      ShortestChainDivides(subs, t, u);
    }
  }

  lemma {:induction false} TightensItself(re: Regex)
    ensures Tightens(re, re)
    decreases re
  {
    match re
    case Capture(sub) => TightensItself(sub);
    case Star(sub) => TightensItself(sub);
    case Plus(sub) => TightensItself(sub);
    case Quest(sub) => TightensItself(sub);
    case Repeat(sub, _, _) => TightensItself(sub);
    case Concat(subs) => forall i | 0 <= i < |subs| ensures Tightens(subs[i], subs[i]) { TightensItself(subs[i]); }
    case Alternate(subs) => forall i | 0 <= i < |subs| ensures Tightens(subs[i], subs[i]) { TightensItself(subs[i]); }
    case _ =>
  }

  /**
   For an expression that never panics and whose lossy parts cannot be avoided, every generated string is in
   its language exactly when there is no such part.
   */
  lemma SoundExactly(re: Regex, limit: int)
    requires WellFormed(re) && Forced(re) && !CanPanic(re, limit)
    ensures (forall tape :: Gen(re, limit, tape).Done? && Matches(re, Gen(re, limit, tape).s)) <==> Clean(re)
  {
    if Clean(re) {
      TightensItself(re);
      forall tape ensures Gen(re, limit, tape).Done? && Matches(re, Gen(re, limit, tape).s) {
        if Gen(re, limit, tape).Panicked? {
          PanicIsForeseen(re, limit, tape);
        }
        ResultIsOutput(re, limit, tape);
        OutputIsMatch(re, re, limit, Gen(re, limit, tape).s);
      }
    } else {
      var tape := MissingRun(re, limit, []);
      assert !Matches(re, Gen(re, limit, tape).s);
    }
  }
}
