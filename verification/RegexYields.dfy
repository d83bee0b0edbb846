/** What each operator of an expression can yield, in terms of what its parts can yield. */
module RegexYields {
  import opened RegexLanguage
  import opened RegexDraws

  /** `s` is what n runs return, one after another. */
  ghost predicate YieldsTimes(re: Regex, limit: int, n: nat, s: seq<int>)
    decreases n
  {
    if n == 0 then s == []
    else exists k :: 0 <= k <= |s| && YieldsTimes(re, limit, n - 1, s[..k]) && Yields(re, limit, s[k..])
  }

  lemma {:induction false} TimesIsPower(re: Regex, limit: int, n: nat, s: seq<int>)
    requires YieldsTimes(re, limit, n, s)
    ensures Power(Outputs(re, limit), n, s)
    decreases n
  {
    if n > 0 {
      var k := SplitTimes(re, limit, n, s);
      TimesIsPower(re, limit, n - 1, s[..k]);
      ResultsAreOutputs(re, limit, s[k..]);
      JoinPower(Outputs(re, limit), n, s, k);
    }
  }

  lemma JoinPower(sub: Regex, n: nat, s: seq<int>, k: nat)
    requires n > 0 && k <= |s| && Power(sub, n - 1, s[..k]) && Matches(sub, s[k..])
    ensures Power(sub, n, s)
  {
  }

  lemma SplitTimes(re: Regex, limit: int, n: nat, s: seq<int>) returns (k: nat)
    requires YieldsTimes(re, limit, n, s) && n > 0
    ensures k <= |s| && YieldsTimes(re, limit, n - 1, s[..k]) && Yields(re, limit, s[k..])
  {
    k :| 0 <= k <= |s| && YieldsTimes(re, limit, n - 1, s[..k]) && Yields(re, limit, s[k..]);
  }

  lemma {:induction false} PowerIsTimes(re: Regex, limit: int, n: nat, s: seq<int>)
    requires Power(Outputs(re, limit), n, s)
    ensures YieldsTimes(re, limit, n, s)
    decreases n
  {
    if n > 0 {
      var k := SplitPower(Outputs(re, limit), n, s);
      PowerIsTimes(re, limit, n - 1, s[..k]);
      ResultsAreOutputs(re, limit, s[k..]);
    }
  }

  lemma RepeatMatches(sub: Regex, min: nat, max: nat, n: nat, s: seq<int>)
    requires min <= n <= max && Power(sub, n, s)
    ensures Matches(Repeat(sub, min, max), s)
  {
  }

  /** Everything from `lo` to `hi` results of the part. */
  ghost predicate YieldsBetween(sub: Regex, limit: int, lo: nat, hi: int, s: seq<int>) {
    exists n: nat :: lo <= n <= hi && YieldsTimes(sub, limit, n, s)
  }

  lemma BetweenIsRepeat(sub: Regex, limit: int, lo: nat, hi: nat, s: seq<int>)
    ensures YieldsBetween(sub, limit, lo, hi, s) <==> Matches(Repeat(Outputs(sub, limit), lo, hi), s)
  {
    if YieldsBetween(sub, limit, lo, hi, s) {
      var n: nat :| lo <= n <= hi && YieldsTimes(sub, limit, n, s);
      TimesIsPower(sub, limit, n, s);
      RepeatMatches(Outputs(sub, limit), lo, hi, n, s);
    }
    if Matches(Repeat(Outputs(sub, limit), lo, hi), s) {
      var n := CountOf(Repeat(Outputs(sub, limit), lo, hi), s);
      PowerIsTimes(sub, limit, n, s);
    }
  }

  /** A star yields everything from no to `limit` results of its part, and nothing else. */
  lemma StarYields(sub: Regex, limit: int, s: seq<int>)
    ensures Yields(Star(sub), limit, s) <==> YieldsBetween(sub, limit, 0, limit, s)
  {
    ResultsAreOutputs(Star(sub), limit, s);
    if limit >= 0 {
      BetweenIsRepeat(sub, limit, 0, limit, s);
    }
  }

  /** A plus yields everything from one to `limit` results of its part. */
  lemma PlusYields(sub: Regex, limit: int, s: seq<int>)
    ensures Yields(Plus(sub), limit, s) <==> YieldsBetween(sub, limit, 1, limit, s)
  {
    ResultsAreOutputs(Plus(sub), limit, s);
    if limit >= 1 {
      BetweenIsRepeat(sub, limit, 1, limit, s);
    }
  }

  /** A question mark yields nothing or one result of its part. */
  lemma QuestYields(sub: Regex, limit: int, s: seq<int>)
    ensures Yields(Quest(sub), limit, s) <==> YieldsBetween(sub, limit, 0, 1, s)
  {
    ResultsAreOutputs(Quest(sub), limit, s);
    BetweenIsRepeat(sub, limit, 0, 1, s);
    QuestIsRepeat(Outputs(sub, limit), s);
  }

  lemma QuestIsRepeat(sub: Regex, s: seq<int>)
    ensures Matches(Quest(sub), s) <==> Matches(Repeat(sub, 0, 1), s)
  {
    if Matches(Quest(sub), s) {
      var n: nat :| n <= 1 && Power(sub, n, s);
      RepeatMatches(sub, 0, 1, n, s);
    }
    if Matches(Repeat(sub, 0, 1), s) {
      var n := CountOf(Repeat(sub, 0, 1), s);
      assert n <= 1 && Power(sub, n, s);
    }
  }

  /** A range yields everything from its minimum up to the smaller of maximum and limit, but at least its minimum. */
  lemma RangeYields(sub: Regex, min: nat, max: int, limit: int, s: seq<int>)
    ensures Yields(Repeat(sub, min, max), limit, s)
        <==> YieldsBetween(sub, limit, min, if min < max && min < limit then Min(max, limit) else min, s)
  {
    ResultsAreOutputs(Repeat(sub, min, max), limit, s);
    BetweenIsRepeat(sub, limit, min, MaxCount(min, max, limit), s);
  }

  /** A capture yields what its part yields. */
  lemma CaptureYields(sub: Regex, limit: int, s: seq<int>)
    ensures Yields(Capture(sub), limit, s) <==> Yields(sub, limit, s)
  {
    ResultsAreOutputs(Capture(sub), limit, s);
    ResultsAreOutputs(sub, limit, s);
  }

  /** An alternation yields exactly what its branches yield. */
  lemma AlternateYields(subs: seq<Regex>, limit: int, s: seq<int>)
    ensures Yields(Alternate(subs), limit, s) <==> exists i :: 0 <= i < |subs| && Yields(subs[i], limit, s)
  {
    ResultsAreOutputs(Alternate(subs), limit, s);
    if Matches(Alternate(OutputsAll(subs, limit)), s) {
      var i := BranchOf(OutputsAll(subs, limit), s);
      ResultsAreOutputs(subs[i], limit, s);
      assert Yields(subs[i], limit, s);
    }
    if i :| 0 <= i < |subs| && Yields(subs[i], limit, s) {
      ResultsAreOutputs(subs[i], limit, s);
      assert Matches(OutputsAll(subs, limit)[i], s);
    }
  }

  /** A string that two expressions yield one after the other. */
  ghost predicate YieldsJoined(a: Regex, b: Regex, limit: int, s: seq<int>) {
    exists k :: 0 <= k <= |s| && Yields(a, limit, s[..k]) && Yields(b, limit, s[k..])
  }

  /** A concatenation yields exactly a result of its first parts followed by a result of the last one. */
  lemma ConcatYields(first: seq<Regex>, last: Regex, limit: int, s: seq<int>)
    ensures Yields(Concat(first + [last]), limit, s) <==> YieldsJoined(Concat(first), last, limit, s)
  {
    var subs := first + [last];
    ResultsAreOutputs(Concat(subs), limit, s);
    assert subs[..|first|] == first && subs[|first|] == last;
    if Chain(OutputsAll(subs, limit), s) {
      ChainIsJoined(subs, limit, s);
    }
    if YieldsJoined(Concat(first), last, limit, s) {
      JoinedIsChain(subs, limit, s);
    }
  }

  lemma LastOutput(subs: seq<Regex>, limit: int)
    requires subs != []
    ensures var n, outputs := |subs| - 1, OutputsAll(subs, limit);
      |outputs| == n + 1 && outputs[..n] == OutputsAll(subs[..n], limit) && outputs[n] == Outputs(subs[n], limit)
  {
  }

  lemma ChainIsJoined(subs: seq<Regex>, limit: int, s: seq<int>)
    requires subs != [] && Chain(OutputsAll(subs, limit), s)
    ensures YieldsJoined(Concat(subs[..|subs| - 1]), subs[|subs| - 1], limit, s)
  {
    LastOutput(subs, limit);
    var k := SplitChain(OutputsAll(subs, limit), s);
    MatchesAreJoined(Concat(subs[..|subs| - 1]), subs[|subs| - 1], limit, s, k);
  }

  lemma MatchesAreJoined(a: Regex, b: Regex, limit: int, s: seq<int>, k: nat)
    requires k <= |s| && Matches(Outputs(a, limit), s[..k]) && Matches(Outputs(b, limit), s[k..])
    ensures YieldsJoined(a, b, limit, s)
  {
    ResultsAreOutputs(a, limit, s[..k]);
    ResultsAreOutputs(b, limit, s[k..]);
  }

  lemma JoinedIsChain(subs: seq<Regex>, limit: int, s: seq<int>)
    requires subs != [] && YieldsJoined(Concat(subs[..|subs| - 1]), subs[|subs| - 1], limit, s)
    ensures Chain(OutputsAll(subs, limit), s)
  {
    LastOutput(subs, limit);
    var k := JoinedMatch(Concat(subs[..|subs| - 1]), subs[|subs| - 1], limit, s);
    JoinChain(OutputsAll(subs, limit), s, k);
  }

  lemma JoinedMatch(a: Regex, b: Regex, limit: int, s: seq<int>) returns (k: nat)
    requires YieldsJoined(a, b, limit, s)
    ensures k <= |s| && Matches(Outputs(a, limit), s[..k]) && Matches(Outputs(b, limit), s[k..])
  {
    k :| 0 <= k <= |s| && Yields(a, limit, s[..k]) && Yields(b, limit, s[k..]);
    ResultsAreOutputs(a, limit, s[..k]);
    ResultsAreOutputs(b, limit, s[k..]);
  }

  lemma JoinChain(subs: seq<Regex>, s: seq<int>, k: nat)
    requires subs != [] && k <= |s|
    requires Chain(subs[..|subs| - 1], s[..k]) && Matches(subs[|subs| - 1], s[k..])
    ensures Chain(subs, s)
  {
  }

  /** An empty concatenation yields the empty string only. */
  lemma EmptyConcatYields(limit: int, s: seq<int>)
    ensures Yields(Concat([]), limit, s) <==> s == []
  {
    ResultsAreOutputs(Concat([]), limit, s);
    assert OutputsAll([], limit) == [];
  }

  /** A dot yields the printable characters of ASCII, with or without the line breaks. */
  lemma DotYields(limit: int, c: char)
    ensures Yields(AnyChar, limit, [c as int]) <==> IsPrintable(c) || IsLineBreak(c)
    ensures Yields(AnyCharNotNL, limit, [c as int]) <==> IsPrintable(c)
  {
    ResultsAreOutputs(AnyChar, limit, [c as int]);
    ResultsAreOutputs(AnyCharNotNL, limit, [c as int]);
    PrintableExactly(c);
    AmongPoints(PRINTABLE_CHARS, c);
    AmongPoints(PRINTABLE_CHARS_NO_NEWLINE, c);
  }

  lemma AmongPoints(chars: string, c: char)
    ensures Matches(CharClass(Singles(Points(chars))), [c as int]) <==> c in chars
  {
    CharExact(chars, c as int);
  }
}
