/**
 When the strings that the generator can return belong to the expression they were generated from, although
 the upper bounds of its repeats may have shrunk in earlier calls.
 */
module RegexSoundness {
  import opened RegexLanguage
  import opened RegexDraws

  // ---------------------------------------------------------------------------------------------
  // Shrinking bounds
  // ---------------------------------------------------------------------------------------------

  /** The expression after every bounded repeat in it has been visited with this limit. */
  function Limited(re: Regex, limit: int): Regex {
    match re
    case Capture(sub) => Capture(Limited(sub, limit))
    case Star(sub) => Star(Limited(sub, limit))
    case Plus(sub) => Plus(Limited(sub, limit))
    case Quest(sub) => Quest(Limited(sub, limit))
    case Repeat(sub, min, max) => Repeat(Limited(sub, limit), min, Min(max, limit))
    case Concat(subs) => Concat(LimitedAll(subs, limit))
    case Alternate(subs) => Alternate(LimitedAll(subs, limit))
    case _ => re
  }

  function LimitedAll(subs: seq<Regex>, limit: int): seq<Regex> {
    seq(|subs|, i requires 0 <= i < |subs| => Limited(subs[i], limit))
  }

  /** Such visits, however many, change nothing about what a walk with the same limit does. */
  lemma {:induction false} LimitedGen(re: Regex, limit: int, tape: seq<nat>)
    ensures Gen(Limited(re, limit), limit, tape) == Gen(re, limit, tape)
    decreases re, 0
  {
    match re
    case Capture(sub) => LimitedGen(sub, limit, tape);
    case Star(sub) => if limit >= 0 { LimitedTimes(sub, limit, Draw(limit + 1, tape), Rest(tape)); }
    case Plus(sub) => if limit >= 1 { LimitedTimes(sub, limit, Draw(limit, tape) + 1, Rest(tape)); }
    case Quest(sub) => LimitedTimes(sub, limit, Draw(2, tape), Rest(tape));
    case Repeat(sub, min, max) => LimitedRepeat(sub, min, max, limit, tape);
    case Concat(subs) => LimitedEach(subs, limit, tape);
    case Alternate(subs) => if subs != [] {
      var i := Draw(|subs|, tape);
      LimitedGen(subs[i], limit, Rest(tape));
      assert LimitedAll(subs, limit)[i] == Limited(subs[i], limit);
    }
    case _ =>
  }

  lemma LimitedRepeat(sub: Regex, min: nat, max: int, limit: int, tape: seq<nat>)
    ensures Gen(Repeat(Limited(sub, limit), min, Min(max, limit)), limit, tape)
      == Gen(Repeat(sub, min, max), limit, tape)
    decreases sub, 2
  {
    var n := Min(max, limit) - min;
    if n > 0 {
      LimitedTimes(sub, limit, min + Draw(n + 1, tape), Rest(tape));
    } else {
      LimitedTimes(sub, limit, min, tape);
    }
  }

  lemma {:induction false} LimitedTimes(sub: Regex, limit: int, n: nat, tape: seq<nat>)
    ensures GenTimes(Limited(sub, limit), limit, n, tape) == GenTimes(sub, limit, n, tape)
    decreases sub, 1, n
  {
    if n > 0 {
      LimitedTimes(sub, limit, n - 1, tape);
      var before := GenTimes(sub, limit, n - 1, tape);
      if before.Done? {
        LimitedGen(sub, limit, before.rest);
      }
    }
  }

  lemma {:induction false} LimitedEach(subs: seq<Regex>, limit: int, tape: seq<nat>)
    ensures GenEach(LimitedAll(subs, limit), limit, tape) == GenEach(subs, limit, tape)
    decreases subs, 0
  {
    if subs != [] {
      var n := |subs| - 1;
      assert LimitedAll(subs, limit)[..n] == LimitedAll(subs[..n], limit);
      LimitedEach(subs[..n], limit, tape);
      var before := GenEach(subs[..n], limit, tape);
      if before.Done? {
        LimitedGen(subs[n], limit, before.rest);
      }
    }
  }

  /**
   On the first call and on every later one with the same limit, the strings that can be returned are
   exactly the output language of the original expression.
   */
  lemma LimitedResultsAreOutputs(re: Regex, limit: int, s: seq<int>)
    ensures (exists tape :: var g := Gen(Limited(re, limit), limit, tape); g.Done? && g.s == s)
        <==> Matches(Outputs(re, limit), s)
  {
    ResultsAreOutputs(re, limit, s);
    if tape :| Gen(re, limit, tape).Done? && Gen(re, limit, tape).s == s {
      LimitedGen(re, limit, tape);
      assert Gen(Limited(re, limit), limit, tape).Done?;
    }
    if tape :| Gen(Limited(re, limit), limit, tape).Done? && Gen(Limited(re, limit), limit, tape).s == s {
      LimitedGen(re, limit, tape);
      assert Gen(re, limit, tape).Done?;
    }
  }

  /** The expression differs from its source only in bounds of repeats that have shrunk. */
  predicate Tightens(now: Regex, source: Regex)
    decreases source
  {
    match source
    case Capture(sub) => now.Capture? && Tightens(now.sub, sub)
    case Star(sub) => now.Star? && Tightens(now.sub, sub)
    case Plus(sub) => now.Plus? && Tightens(now.sub, sub)
    case Quest(sub) => now.Quest? && Tightens(now.sub, sub)
    case Repeat(sub, min, max) => now.Repeat? && now.min == min && now.max <= max && Tightens(now.sub, sub)
    case Concat(subs) =>
      now.Concat? && |now.subs| == |subs| && forall i | 0 <= i < |subs| :: Tightens(now.subs[i], subs[i])
    case Alternate(subs) =>
      now.Alternate? && |now.subs| == |subs| && forall i | 0 <= i < |subs| :: Tightens(now.subs[i], subs[i])
    case _ => now == source
  }

  // ---------------------------------------------------------------------------------------------
  // Conversion to a string
  // ---------------------------------------------------------------------------------------------

  /** A class whose drawn characters survive the conversion to a string, or turn into another member. */
  predicate CleanClass(ranges: seq<Range>) {
    || ReachesEnd(ranges)
    || InClass(ranges, REPLACEMENT)
    || forall i | 0 <= i < |ranges| :: ranges[i].hi < 0xd800 || 0xdfff < ranges[i].lo
  }

  /** Exactly when every character drawn from a class is in the class. */
  lemma DrawsStayInClass(ranges: seq<Range>, chars: string)
    ensures (forall c :: InClass(ClassOutputs(ranges, chars), c) ==> InClass(ranges, c)) <==> CleanClass(ranges)
  {
    if CleanClass(ranges) {
      forall c | InClass(ClassOutputs(ranges, chars), c) ensures InClass(ranges, c) {
        CleanDraw(ranges, chars, c);
      }
    } else {
      var i :| 0 <= i < |ranges| && !(ranges[i].hi < 0xd800 || 0xdfff < ranges[i].lo);
      var x := if ranges[i].lo < 0xd800 then 0xd800 else ranges[i].lo;
      assert Encoded(x) == REPLACEMENT;
      EncodedIsPrinted(ranges, i, x);
      assert InClass(ClassOutputs(ranges, chars), REPLACEMENT) && !InClass(ranges, REPLACEMENT);
    }
  }

  lemma CleanDraw(ranges: seq<Range>, chars: string, c: int)
    requires CleanClass(ranges) && InClass(ClassOutputs(ranges, chars), c)
    ensures InClass(ranges, c)
  {
    ClassCharExact(ranges, chars, c);
    var r: nat :| r < ClassSize(ranges, chars) && c == ClassChar(ranges, chars, r);
    if ReachesEnd(ranges) {
      MembersAre(ranges, chars);
      assert c in Members(ranges, chars);
    } else {
      MemberPrinted(ranges, r);
    }
  }

  lemma {:induction false} EncodedIsPrinted(ranges: seq<Range>, i: nat, x: int)
    requires i < |ranges| && ranges[i].lo <= x <= ranges[i].hi
    ensures InClass(PrintedRanges(ranges), Encoded(x))
    decreases |ranges|
  {
    var n := |ranges| - 1;
    InConcat(PrintedRanges(ranges[..n]), PrintedRange(ranges[n]), Encoded(x));
    if i < n {
      EncodedIsPrinted(ranges[..n], i, x);
    } else {
      InPrintedRange(ranges[n], Encoded(x));
    }
  }

  predicate NoSurrogate(runes: seq<int>) {
    forall i | 0 <= i < |runes| :: !IsSurrogate(runes[i])
  }

  /** Exactly when a literal is reproduced. */
  lemma LiteralIsKept(runes: seq<int>)
    ensures EncodedAll(runes) == runes <==> NoSurrogate(runes)
  {
    if EncodedAll(runes) == runes {
      forall i | 0 <= i < |runes| ensures !IsSurrogate(runes[i]) {
        assert EncodedAll(runes)[i] == Encoded(runes[i]);
      }
    }
  }

  /** No character of the expression is lost in the conversion to a string, and nothing is unmatchable. */
  predicate Clean(re: Regex) {
    match re
    case NoMatch => false
    case Literal(runes) => NoSurrogate(runes)
    case CharClass(ranges) => CleanClass(ranges)
    case Capture(sub) => Clean(sub)
    case Star(sub) => Clean(sub)
    case Plus(sub) => Clean(sub)
    case Quest(sub) => Clean(sub)
    case Repeat(sub, _, _) => Clean(sub)
    case Concat(subs) => forall i | 0 <= i < |subs| :: Clean(subs[i])
    case Alternate(subs) => forall i | 0 <= i < |subs| :: Clean(subs[i])
    case _ => true
  }

  // ---------------------------------------------------------------------------------------------
  // Soundness
  // ---------------------------------------------------------------------------------------------

  /** Whatever can be generated from a shrunk expression is in the language of its source. */
  lemma {:induction false} OutputIsMatch(now: Regex, source: Regex, limit: int, s: seq<int>)
    requires Tightens(now, source) && WellFormed(source) && Clean(source)
    requires Matches(Outputs(now, limit), s)
    ensures Matches(source, s)
    decreases source, 0
  {
    match source
    case Literal(runes) => LiteralIsKept(runes);
    case CharClass(ranges) => CleanDraw(ranges, PRINTABLE_CHARS, s[0]);
    case AnyCharNotNL => NotNewline(s[0]);
    case Capture(sub) => OutputIsMatch(now.sub, sub, limit, s);
    case Star(sub) =>
      var n := CountOf(Outputs(now, limit), s);
      OutputIsPower(now.sub, sub, limit, n, s);
    case Plus(sub) =>
      var n := CountOf(Outputs(now, limit), s);
      OutputIsPower(now.sub, sub, limit, n, s);
    case Quest(sub) =>
      var n: nat :| n <= 1 && Power(Outputs(now.sub, limit), n, s);
      OutputIsPower(now.sub, sub, limit, n, s);
    case Repeat(sub, min, max) =>
      var n := CountOf(Outputs(now, limit), s);
      OutputIsPower(now.sub, sub, limit, n, s);
    case Concat(subs) => OutputIsChain(now.subs, subs, limit, s);
    case Alternate(subs) =>
      var i := BranchOf(OutputsAll(now.subs, limit), s);
      OutputIsMatch(now.subs[i], subs[i], limit, s);
    case _ =>
  }

  /** Inputs without that condition: what is generated from them is not in their language. */
  lemma UncleanExamples(limit: int, tape: seq<nat>)
    ensures var literal := Literal([0xd800]);
      Gen(literal, limit, tape) == Done([REPLACEMENT], tape) && !Matches(literal, [REPLACEMENT])
    ensures var surrogates := CharClass([Bounds(0xd800, 0xdfff)]);
      Gen(surrogates, limit, tape) == Done([REPLACEMENT], Rest(tape)) && !Matches(surrogates, [REPLACEMENT])
  {
    assert EncodedAll([0xd800]) == [REPLACEMENT];
    var range: seq<Range> := [Bounds(0xd800, 0xdfff)];
    assert range[..0] == [];
    assert Size(range) == 0x800;
    MemberPrinted(range, Draw(Size(range), tape));
  }

  lemma {:induction false} OutputIsPower(now: Regex, source: Regex, limit: int, n: nat, s: seq<int>)
    requires Tightens(now, source) && WellFormed(source) && Clean(source)
    requires Power(Outputs(now, limit), n, s)
    ensures Power(source, n, s)
    decreases source, 1, n
  {
    if n > 0 {
      var k := SplitPower(Outputs(now, limit), n, s);
      OutputIsPower(now, source, limit, n - 1, s[..k]);
      OutputIsMatch(now, source, limit, s[k..]);
    }
  }

  lemma {:induction false} OutputIsChain(now: seq<Regex>, source: seq<Regex>, limit: int, s: seq<int>)
    requires |now| == |source|
    requires forall i | 0 <= i < |source| :: Tightens(now[i], source[i]) && WellFormed(source[i]) && Clean(source[i])
    requires Chain(OutputsAll(now, limit), s)
    ensures Chain(source, s)
    decreases source, 0
  {
    if source != [] {
      var n := |source| - 1;
      var k := SplitChain(OutputsAll(now, limit), s);
      assert OutputsAll(now, limit)[..n] == OutputsAll(now[..n], limit);
      OutputIsChain(now[..n], source[..n], limit, s[..k]);
      OutputIsMatch(now[n], source[n], limit, s[k..]);
    }
  }

  lemma NotNewline(c: int)
    requires InClass(Singles(Points(PRINTABLE_CHARS_NO_NEWLINE)), c)
    ensures c != NEWLINE
  {
    CharExact(PRINTABLE_CHARS_NO_NEWLINE, c);
    PrintableExactly('\n');
  }
}
