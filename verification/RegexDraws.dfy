/**
 What the string generator makes of a sequence of random numbers, and the exact set of its results.

 A tape is the sequence of numbers that the random source delivers.  `Gen` consumes it; `Outputs` is the
 regular expression whose language is exactly what some tape can produce.
 */
module RegexDraws {
  import opened RegexLanguage

  const DIGITS := "0123456789"
  const LOWER_CASE := "abcdefghijklm" + "nopqrstuvwxyz"
  const UPPER_CASE := "ABCDEFGHIJKLM" + "NOPQRSTUVWXYZ"
  const PUNCTUATION := "!\"#$%&'()*+,-./" + ":;<=>?@[\\]^_`" + "{|}~ \t"
  const PRINTABLE_CHARS := DIGITS + LOWER_CASE + UPPER_CASE + PUNCTUATION + "\n\r"
  const PRINTABLE_CHARS_NO_NEWLINE := PRINTABLE_CHARS[..|PRINTABLE_CHARS| - 2]

  // ---------------------------------------------------------------------------------------------
  // Characters
  // ---------------------------------------------------------------------------------------------

  predicate IsSurrogate(r: int) {
    0xd800 <= r <= 0xdfff
  }

  /** Go's conversion of a rune to a string, read back as a code point. */
  function Encoded(r: int): int {
    if IsSurrogate(r) then REPLACEMENT else r
  }

  function EncodedAll(runes: seq<int>): seq<int> {
    seq(|runes|, i requires 0 <= i < |runes| => Encoded(runes[i]))
  }

  predicate ReachesEnd(ranges: seq<Range>) {
    exists i :: 0 <= i < |ranges| && ranges[i].hi == RANGE_END
  }

  /** Those of the given characters that belong to the class, in order. */
  function Members(ranges: seq<Range>, chars: string): seq<int> {
    if chars == [] then []
    else
      var init, c := Members(ranges, chars[..|chars| - 1]), chars[|chars| - 1] as int;
      if InClass(ranges, c) then init + [c] else init
  }

  function Size(ranges: seq<Range>): nat {
    if ranges == [] then 0 else Size(ranges[..|ranges| - 1]) + (ranges[|ranges| - 1].hi - ranges[|ranges| - 1].lo + 1)
  }

  /** The member of the class that number r stands for. */
  function MemberAt(ranges: seq<Range>, r: int): int {
    if ranges == [] then 0
    else
      var init, last := ranges[..|ranges| - 1], ranges[|ranges| - 1];
      if r < Size(init) then MemberAt(init, r) else last.lo + (r - Size(init))
  }

  /** How many characters a draw from the class chooses among; a class that reaches the end is restricted to `chars`. */
  function ClassSize(ranges: seq<Range>, chars: string): nat {
    if ReachesEnd(ranges) then |Members(ranges, chars)| else Size(ranges)
  }

  function ClassChar(ranges: seq<Range>, chars: string, r: nat): int
    requires r < ClassSize(ranges, chars)
  {
    if ReachesEnd(ranges) then Members(ranges, chars)[r] else Encoded(MemberAt(ranges, r))
  }

  // ---------------------------------------------------------------------------------------------
  // The generator as a function of the tape
  // ---------------------------------------------------------------------------------------------

  datatype Outcome = Panicked | Done(s: seq<int>, rest: seq<nat>)

  /** A number strictly below n. */
  function Draw(n: nat, tape: seq<nat>): (r: nat)
    requires n > 0
    ensures r < n
  {
    if tape == [] then 0 else tape[0] % n
  }

  function Rest(tape: seq<nat>): seq<nat> {
    if tape == [] then [] else tape[1..]
  }

  /** Put a draw in front of a tape. */
  lemma Prepend(r: nat, n: nat, rest: seq<nat>) returns (tape: seq<nat>)
    requires r < n
    ensures Draw(n, tape) == r && Rest(tape) == rest
  {
    tape := [r] + rest;
  }

  function Min(a: int, b: int): int {
    if a < b then a else b
  }

  function Extend(s: seq<int>, next: Outcome): Outcome {
    if next.Panicked? then Panicked else Done(s + next.s, next.rest)
  }

  function Gen(re: Regex, limit: int, tape: seq<nat>): Outcome
    decreases re, 0
  {
    match re
    case Literal(runes) => Done(EncodedAll(runes), tape)
    case CharClass(ranges) =>
      var n := ClassSize(ranges, PRINTABLE_CHARS);
      if n == 0 then Panicked else Done([ClassChar(ranges, PRINTABLE_CHARS, Draw(n, tape))], Rest(tape))
    case AnyChar => GenChar(PRINTABLE_CHARS, tape)
    case AnyCharNotNL => GenChar(PRINTABLE_CHARS_NO_NEWLINE, tape)
    case Capture(sub) => Gen(sub, limit, tape)
    case Star(sub) =>
      if limit + 1 <= 0 then Panicked else GenTimes(sub, limit, Draw(limit + 1, tape), Rest(tape))
    case Plus(sub) =>
      if limit <= 0 then Panicked else GenTimes(sub, limit, Draw(limit, tape) + 1, Rest(tape))
    case Quest(sub) => GenTimes(sub, limit, Draw(2, tape), Rest(tape))
    case Repeat(sub, min, max) =>
      var n := Min(max, limit) - min;
      if n > 0 then GenTimes(sub, limit, min + Draw(n + 1, tape), Rest(tape)) else GenTimes(sub, limit, min, tape)
    case Concat(subs) => GenEach(subs, limit, tape)
    case Alternate(subs) => if subs == [] then Panicked else Gen(subs[Draw(|subs|, tape)], limit, Rest(tape))
    case _ => Done([], tape)
  }

  function GenChar(chars: string, tape: seq<nat>): Outcome {
    if chars == [] then Panicked else Done([chars[Draw(|chars|, tape)] as int], Rest(tape))
  }

  function GenTimes(sub: Regex, limit: int, n: nat, tape: seq<nat>): Outcome
    decreases sub, 1, n
  {
    if n == 0 then Done([], tape)
    else
      match GenTimes(sub, limit, n - 1, tape)
      case Panicked => Panicked
      case Done(s, rest) => Extend(s, Gen(sub, limit, rest))
  }

  function GenEach(subs: seq<Regex>, limit: int, tape: seq<nat>): Outcome
    decreases subs, 0
  {
    if subs == [] then Done([], tape)
    else
      match GenEach(subs[..|subs| - 1], limit, tape)
      case Panicked => Panicked
      case Done(s, rest) => Extend(s, Gen(subs[|subs| - 1], limit, rest))
  }

  lemma {:induction false} TimesStaysPanicked(sub: Regex, limit: int, m: nat, n: nat, tape: seq<nat>)
    requires m <= n && GenTimes(sub, limit, m, tape).Panicked?
    ensures GenTimes(sub, limit, n, tape).Panicked?
    decreases n
  {
    if m < n {
      TimesStaysPanicked(sub, limit, m, n - 1, tape);
    }
  }

  lemma {:induction false} EachStaysPanicked(subs: seq<Regex>, limit: int, m: nat, tape: seq<nat>)
    requires m <= |subs| && GenEach(subs[..m], limit, tape).Panicked?
    ensures GenEach(subs, limit, tape).Panicked?
    decreases |subs|
  {
    if m < |subs| {
      assert subs[..|subs| - 1][..m] == subs[..m];
      EachStaysPanicked(subs[..|subs| - 1], limit, m, tape);
    } else {
      assert subs[..m] == subs;
    }
  }

  // ---------------------------------------------------------------------------------------------
  // The exact set of results
  // ---------------------------------------------------------------------------------------------

  /** The range without its surrogates, which all turn into the replacement character. */
  function PrintedRange(r: Range): seq<Range> {
    (if r.lo < 0xd800 then [Bounds(r.lo, Min(r.hi, 0xd7ff))] else [])
    + (if r.hi > 0xdfff then [Bounds(if r.lo > 0xdfff then r.lo else 0xe000, r.hi)] else [])
    + (if r.lo <= 0xdfff && r.hi >= 0xd800 then [Bounds(REPLACEMENT, REPLACEMENT)] else [])
  }

  function PrintedRanges(ranges: seq<Range>): seq<Range> {
    if ranges == [] then [] else PrintedRanges(ranges[..|ranges| - 1]) + PrintedRange(ranges[|ranges| - 1])
  }

  /** One single-character range for each of the given code points that is one. */
  function Singles(points: seq<int>): seq<Range> {
    if points == [] then []
    else
      var init, c := Singles(points[..|points| - 1]), points[|points| - 1];
      if 0 <= c <= RANGE_END then init + [Bounds(c, c)] else init
  }

  function Points(chars: string): seq<int> {
    seq(|chars|, i requires 0 <= i < |chars| => chars[i] as int)
  }

  /** The most often that a bounded repeat is unrolled. */
  function MaxCount(min: nat, max: int, limit: int): nat {
    if Min(max, limit) > min then Min(max, limit) else min
  }

  /** The expression whose language is exactly what the generator can return. */
  function Outputs(re: Regex, limit: int): Regex {
    match re
    case Literal(runes) => Literal(EncodedAll(runes))
    case CharClass(ranges) => CharClass(ClassOutputs(ranges, PRINTABLE_CHARS))
    case AnyChar => CharClass(Singles(Points(PRINTABLE_CHARS)))
    case AnyCharNotNL => CharClass(Singles(Points(PRINTABLE_CHARS_NO_NEWLINE)))
    case Capture(sub) => Capture(Outputs(sub, limit))
    case Star(sub) => if limit < 0 then NoMatch else Repeat(Outputs(sub, limit), 0, limit)
    case Plus(sub) => if limit < 1 then NoMatch else Repeat(Outputs(sub, limit), 1, limit)
    case Quest(sub) => Quest(Outputs(sub, limit))
    case Repeat(sub, min, max) => Repeat(Outputs(sub, limit), min, MaxCount(min, max, limit))
    case Concat(subs) => Concat(OutputsAll(subs, limit))
    case Alternate(subs) => Alternate(OutputsAll(subs, limit))
    case _ => EmptyMatch
  }

  function OutputsAll(subs: seq<Regex>, limit: int): seq<Regex> {
    seq(|subs|, i requires 0 <= i < |subs| => Outputs(subs[i], limit))
  }

  function ClassOutputs(ranges: seq<Range>, chars: string): seq<Range> {
    if ReachesEnd(ranges) then Singles(Members(ranges, chars)) else PrintedRanges(ranges)
  }

  // ---------------------------------------------------------------------------------------------
  // Characters: exactness
  // ---------------------------------------------------------------------------------------------

  lemma InConcat(a: seq<Range>, b: seq<Range>, c: int)
    ensures InClass(a + b, c) <==> InClass(a, c) || InClass(b, c)
  {
    if i :| 0 <= i < |a| && a[i].lo <= c <= a[i].hi {
      assert (a + b)[i] == a[i];
    }
    if i :| 0 <= i < |b| && b[i].lo <= c <= b[i].hi {
      assert (a + b)[|a| + i] == b[i];
    }
  }

  lemma InPrintedRange(r: Range, c: int)
    ensures InClass(PrintedRange(r), c) <==> exists x :: r.lo <= x <= r.hi && c == Encoded(x)
  {
    var p := PrintedRange(r);
    if InClass(p, c) {
      if r.lo <= c <= r.hi && !IsSurrogate(c) {
        assert Encoded(c) == c;
      } else {
        var x := if r.lo < 0xd800 then 0xd800 else r.lo;
        assert c == Encoded(x);
      }
    }
    if x :| r.lo <= x <= r.hi && c == Encoded(x) {
      if IsSurrogate(x) {
        assert p[|p| - 1] == Bounds(REPLACEMENT, REPLACEMENT);
      } else if x < 0xd800 {
        assert p[0].lo <= x <= p[0].hi;
      } else {
        var i := if r.lo < 0xd800 then 1 else 0;
        assert p[i].lo <= x <= p[i].hi;
      }
    }
  }

  lemma {:induction false} InSingles(points: seq<int>, c: int)
    requires forall p | p in points :: 0 <= p <= RANGE_END
    ensures InClass(Singles(points), c) <==> c in points
  {
    if points != [] {
      var init, last := points[..|points| - 1], points[|points| - 1];
      assert last in points && forall p | p in init :: p in points;
      InSingles(init, c);
      InConcat(Singles(init), [Bounds(last, last)], c);
      assert points == init + [last];
      assert [Bounds(last, last)][0].lo == last;
    }
  }

  lemma {:induction false} MemberReached(ranges: seq<Range>, c: int) returns (r: nat)
    requires InClass(PrintedRanges(ranges), c)
    ensures r < Size(ranges) && c == Encoded(MemberAt(ranges, r))
    decreases |ranges|
  {
    var init, last := ranges[..|ranges| - 1], ranges[|ranges| - 1];
    InConcat(PrintedRanges(init), PrintedRange(last), c);
    if InClass(PrintedRanges(init), c) {
      r := MemberReached(init, c);
    } else {
      InPrintedRange(last, c);
      var x :| last.lo <= x <= last.hi && c == Encoded(x);
      r := Size(init) + (x - last.lo);
    }
  }

  lemma {:induction false} MemberPrinted(ranges: seq<Range>, r: nat)
    requires r < Size(ranges)
    ensures InClass(ranges, MemberAt(ranges, r))
    ensures InClass(PrintedRanges(ranges), Encoded(MemberAt(ranges, r)))
    decreases |ranges|
  {
    var init, last := ranges[..|ranges| - 1], ranges[|ranges| - 1];
    var x := MemberAt(ranges, r);
    assert ranges == init + [last];
    InConcat(init, [last], x);
    InConcat(PrintedRanges(init), PrintedRange(last), Encoded(x));
    if r < Size(init) {
      MemberPrinted(init, r);
    } else {
      assert [last][0].lo <= x <= [last][0].hi;
      InPrintedRange(last, Encoded(x));
    }
  }

  lemma {:induction false} MembersAre(ranges: seq<Range>, chars: string)
    ensures forall c :: c in Members(ranges, chars) <==> c in Points(chars) && InClass(ranges, c)
  {
    if chars == [] {
    } else {
      var init := chars[..|chars| - 1];
      MembersAre(ranges, init);
      assert Points(chars) == Points(init) + [chars[|chars| - 1] as int];
    }
  }

  lemma PointsAreCodes(chars: string)
    ensures forall p | p in Points(chars) :: 0 <= p <= RANGE_END
  {
  }

  /** The characters that a draw from a class can yield are exactly those of the output class. */
  lemma ClassCharExact(ranges: seq<Range>, chars: string, c: int)
    ensures InClass(ClassOutputs(ranges, chars), c)
        <==> exists r: nat :: r < ClassSize(ranges, chars) && c == ClassChar(ranges, chars, r)
  {
    if ReachesEnd(ranges) {
      MembersAre(ranges, chars);
      PointsAreCodes(chars);
      InSingles(Members(ranges, chars), c);
      if c in Members(ranges, chars) {
        var r :| 0 <= r < |Members(ranges, chars)| && Members(ranges, chars)[r] == c;
        assert c == ClassChar(ranges, chars, r);
      }
    } else {
      if InClass(PrintedRanges(ranges), c) {
        var r := MemberReached(ranges, c);
        assert c == ClassChar(ranges, chars, r);
      }
      if r: nat :| r < Size(ranges) && c == ClassChar(ranges, chars, r) {
        MemberPrinted(ranges, r);
      }
    }
  }

  lemma CharExact(chars: string, c: int)
    ensures InClass(Singles(Points(chars)), c) <==> exists r :: 0 <= r < |chars| && c == chars[r] as int
  {
    PointsAreCodes(chars);
    InSingles(Points(chars), c);
    if c in Points(chars) {
      var r :| 0 <= r < |Points(chars)| && Points(chars)[r] == c;
      assert c == chars[r] as int;
    }
    if r :| 0 <= r < |chars| && c == chars[r] as int {
      assert Points(chars)[r] == c;
    }
  }

  // ---------------------------------------------------------------------------------------------
  // Whole expressions: exactness
  // ---------------------------------------------------------------------------------------------

  /** Whatever is generated is in the output language. */
  lemma {:induction false} ResultIsOutput(re: Regex, limit: int, tape: seq<nat>)
    ensures var g := Gen(re, limit, tape); g.Done? ==> Matches(Outputs(re, limit), g.s)
    decreases re, 0
  {
    match re
    case CharClass(ranges) => ClassResultIsOutput(ranges, PRINTABLE_CHARS, tape);
    case AnyChar => CharResultIsOutput(PRINTABLE_CHARS, tape);
    case AnyCharNotNL => CharResultIsOutput(PRINTABLE_CHARS_NO_NEWLINE, tape);
    case Capture(sub) => ResultIsOutput(sub, limit, tape);
    case Star(sub) => if limit >= 0 { TimesResultIsOutput(sub, limit, Draw(limit + 1, tape), Rest(tape)); }
    case Plus(sub) => if limit >= 1 { TimesResultIsOutput(sub, limit, Draw(limit, tape) + 1, Rest(tape)); }
    case Quest(sub) => TimesResultIsOutput(sub, limit, Draw(2, tape), Rest(tape));
    case Repeat(sub, min, max) =>
      var n := Min(max, limit) - min;
      if n > 0 {
        TimesResultIsOutput(sub, limit, min + Draw(n + 1, tape), Rest(tape));
      } else {
        TimesResultIsOutput(sub, limit, min, tape);
      }
    case Concat(subs) => EachResultIsOutput(subs, limit, tape);
    case Alternate(subs) => if subs != [] {
      var i := Draw(|subs|, tape);
      ResultIsOutput(subs[i], limit, Rest(tape));
      assert OutputsAll(subs, limit)[i] == Outputs(subs[i], limit);
    }
    case _ =>
  }

  lemma ClassResultIsOutput(ranges: seq<Range>, chars: string, tape: seq<nat>)
    ensures var n := ClassSize(ranges, chars);
      n > 0 ==> InClass(ClassOutputs(ranges, chars), ClassChar(ranges, chars, Draw(n, tape)))
  {
    var n := ClassSize(ranges, chars);
    if n > 0 {
      ClassCharExact(ranges, chars, ClassChar(ranges, chars, Draw(n, tape)));
    }
  }

  lemma CharResultIsOutput(chars: string, tape: seq<nat>)
    ensures var g := GenChar(chars, tape); g.Done? ==> Matches(CharClass(Singles(Points(chars))), g.s)
  {
    if chars != [] {
      CharExact(chars, chars[Draw(|chars|, tape)] as int);
    }
  }

  lemma {:induction false} TimesResultIsOutput(sub: Regex, limit: int, n: nat, tape: seq<nat>)
    ensures var g := GenTimes(sub, limit, n, tape); g.Done? ==> Power(Outputs(sub, limit), n, g.s)
    decreases sub, 1, n
  {
    if n > 0 {
      TimesResultIsOutput(sub, limit, n - 1, tape);
      var before := GenTimes(sub, limit, n - 1, tape);
      if before.Done? {
        ResultIsOutput(sub, limit, before.rest);
        var last := Gen(sub, limit, before.rest);
        if last.Done? {
          PowerAppend(Outputs(sub, limit), n - 1, before.s, last.s);
        }
      }
    }
  }

  lemma {:induction false} EachResultIsOutput(subs: seq<Regex>, limit: int, tape: seq<nat>)
    ensures var g := GenEach(subs, limit, tape); g.Done? ==> Chain(OutputsAll(subs, limit), g.s)
    decreases subs, 0
  {
    if subs != [] {
      var n := |subs| - 1;
      EachResultIsOutput(subs[..n], limit, tape);
      var before := GenEach(subs[..n], limit, tape);
      if before.Done? {
        ResultIsOutput(subs[n], limit, before.rest);
        var last := Gen(subs[n], limit, before.rest);
        if last.Done? {
          var outputs := OutputsAll(subs, limit);
          assert outputs[..n] == OutputsAll(subs[..n], limit) && outputs[..n + 1] == outputs;
          ChainAppend(outputs, n, before.s, last.s);
        }
      }
    }
  }

  /** Every string of the output language is generated from some tape, and the rest of the tape is left over. */
  lemma {:induction false} OutputIsReached(re: Regex, limit: int, s: seq<int>, rest: seq<nat>) returns (tape: seq<nat>)
    requires Matches(Outputs(re, limit), s)
    ensures Gen(re, limit, tape) == Done(s, rest)
    decreases re, 0
  {
    match re
    case CharClass(ranges) => tape := ClassOutputIsReached(ranges, PRINTABLE_CHARS, s[0], rest);
    case AnyChar => tape := CharOutputIsReached(PRINTABLE_CHARS, s, rest);
    case AnyCharNotNL => tape := CharOutputIsReached(PRINTABLE_CHARS_NO_NEWLINE, s, rest);
    case Capture(sub) => tape := OutputIsReached(sub, limit, s, rest);
    case Star(sub) => tape := LoopOutputIsReached(re, limit, s, rest);
    case Plus(sub) => tape := LoopOutputIsReached(re, limit, s, rest);
    case Quest(sub) => tape := LoopOutputIsReached(re, limit, s, rest);
    case Repeat(sub, min, max) => tape := RepeatOutputIsReached(sub, min, max, limit, s, rest);
    case Concat(subs) => tape := EachOutputIsReached(subs, limit, s, rest);
    case Alternate(subs) =>
      var i := BranchOf(OutputsAll(subs, limit), s);
      tape := OutputIsReached(subs[i], limit, s, rest);
      tape := Prepend(i, |subs|, tape);
    case _ => tape := rest;
  }

  lemma LoopOutputIsReached(re: Regex, limit: int, s: seq<int>, rest: seq<nat>) returns (tape: seq<nat>)
    requires re.Star? || re.Plus? || re.Quest?
    requires Matches(Outputs(re, limit), s)
    ensures Gen(re, limit, tape) == Done(s, rest)
    decreases re.sub, 3
  {
    var n: nat, choices: nat, first: nat;
    if re.Quest? {
      n :| n <= 1 && Power(Outputs(re.sub, limit), n, s);
      choices, first := 2, n;
    } else {
      n := CountOf(Outputs(re, limit), s);
      choices, first := if re.Star? then limit + 1 else limit, if re.Star? then n else n - 1;
    }
    tape := TimesOutputIsReached(re.sub, limit, n, s, rest);
    tape := Prepend(first, choices, tape);
  }

  lemma RepeatOutputIsReached(sub: Regex, min: nat, max: int, limit: int, s: seq<int>, rest: seq<nat>)
    returns (tape: seq<nat>)
    requires Matches(Outputs(Repeat(sub, min, max), limit), s)
    ensures Gen(Repeat(sub, min, max), limit, tape) == Done(s, rest)
    decreases sub, 3
  {
    var n := CountOf(Outputs(Repeat(sub, min, max), limit), s);
    assert min <= n <= MaxCount(min, max, limit);
    tape := TimesOutputIsReached(sub, limit, n, s, rest);
    if Min(max, limit) > min {
      tape := Prepend(n - min, Min(max, limit) - min + 1, tape);
    }
  }

  lemma ClassOutputIsReached(ranges: seq<Range>, chars: string, c: int, rest: seq<nat>) returns (tape: seq<nat>)
    requires InClass(ClassOutputs(ranges, chars), c)
    ensures var n := ClassSize(ranges, chars);
      n > 0 && ClassChar(ranges, chars, Draw(n, tape)) == c && Rest(tape) == rest
  {
    ClassCharExact(ranges, chars, c);
    var r: nat :| r < ClassSize(ranges, chars) && c == ClassChar(ranges, chars, r);
    tape := Prepend(r, ClassSize(ranges, chars), rest);
  }

  lemma CharOutputIsReached(chars: string, s: seq<int>, rest: seq<nat>) returns (tape: seq<nat>)
    requires Matches(CharClass(Singles(Points(chars))), s)
    ensures GenChar(chars, tape) == Done(s, rest)
  {
    CharExact(chars, s[0]);
    var r :| 0 <= r < |chars| && s[0] == chars[r] as int;
    tape := Prepend(r, |chars|, rest);
  }

  lemma {:induction false} TimesOutputIsReached(sub: Regex, limit: int, n: nat, s: seq<int>, rest: seq<nat>)
    returns (tape: seq<nat>)
    requires Power(Outputs(sub, limit), n, s)
    ensures GenTimes(sub, limit, n, tape) == Done(s, rest)
    decreases sub, 1, n
  {
    tape := rest;
    if n > 0 {
      var k := SplitPower(Outputs(sub, limit), n, s);
      var last := OutputIsReached(sub, limit, s[k..], rest);
      tape := TimesOutputIsReached(sub, limit, n - 1, s[..k], last);
      assert s[..k] + s[k..] == s;
    }
  }

  lemma {:induction false} EachOutputIsReached(subs: seq<Regex>, limit: int, s: seq<int>, rest: seq<nat>)
    returns (tape: seq<nat>)
    requires Chain(OutputsAll(subs, limit), s)
    ensures GenEach(subs, limit, tape) == Done(s, rest)
    decreases subs, 0
  {
    tape := rest;
    if subs != [] {
      var n, outputs := |subs| - 1, OutputsAll(subs, limit);
      assert outputs[..n] == OutputsAll(subs[..n], limit);
      var k := SplitChain(outputs, s);
      var last := OutputIsReached(subs[n], limit, s[k..], rest);
      tape := EachOutputIsReached(subs[..n], limit, s[..k], last);
      assert s[..k] + s[k..] == s;
    }
  }

  /** Some run returns the string. */
  ghost predicate Yields(re: Regex, limit: int, s: seq<int>) {
    exists tape :: Gen(re, limit, tape).Done? && Gen(re, limit, tape).s == s
  }

  /** The strings that the generator can return are exactly the output language. */
  lemma ResultsAreOutputs(re: Regex, limit: int, s: seq<int>)
    ensures Yields(re, limit, s) <==> Matches(Outputs(re, limit), s)
  {
    if tape :| Gen(re, limit, tape).Done? && Gen(re, limit, tape).s == s {
      ResultIsOutput(re, limit, tape);
    }
    if Matches(Outputs(re, limit), s) {
      var tape := OutputIsReached(re, limit, s, []);
      assert Gen(re, limit, tape).Done?;
    }
  }

  // ---------------------------------------------------------------------------------------------
  // Panics
  // ---------------------------------------------------------------------------------------------

  /** Some class or alternation that the walk can come to has nothing to draw from, or the limit is too small. */
  predicate CanPanic(re: Regex, limit: int) {
    match re
    case CharClass(ranges) => ClassSize(ranges, PRINTABLE_CHARS) == 0
    case Capture(sub) => CanPanic(sub, limit)
    case Star(sub) => limit < 0 || (limit > 0 && CanPanic(sub, limit))
    case Plus(sub) => limit < 1 || CanPanic(sub, limit)
    case Quest(sub) => CanPanic(sub, limit)
    case Repeat(sub, min, max) => MaxCount(min, max, limit) > 0 && CanPanic(sub, limit)
    case Concat(subs) => exists i :: 0 <= i < |subs| && CanPanic(subs[i], limit)
    case Alternate(subs) => subs == [] || exists i :: 0 <= i < |subs| && CanPanic(subs[i], limit)
    case _ => false
  }

  lemma PrintableNotEmpty()
    ensures PRINTABLE_CHARS != [] && PRINTABLE_CHARS_NO_NEWLINE != []
  {
  }

  lemma {:induction false} PanicIsForeseen(re: Regex, limit: int, tape: seq<nat>)
    requires Gen(re, limit, tape).Panicked?
    ensures CanPanic(re, limit)
    decreases re, 0
  {
    PrintableNotEmpty();
    match re
    case Capture(sub) => PanicIsForeseen(sub, limit, tape);
    case Star(sub) => if limit >= 0 { TimesPanicIsForeseen(sub, limit, Draw(limit + 1, tape), Rest(tape)); }
    case Plus(sub) => if limit >= 1 { TimesPanicIsForeseen(sub, limit, Draw(limit, tape) + 1, Rest(tape)); }
    case Quest(sub) => TimesPanicIsForeseen(sub, limit, Draw(2, tape), Rest(tape));
    case Repeat(sub, min, max) =>
      var n := Min(max, limit) - min;
      if n > 0 {
        TimesPanicIsForeseen(sub, limit, min + Draw(n + 1, tape), Rest(tape));
      } else {
        TimesPanicIsForeseen(sub, limit, min, tape);
      }
    case Concat(subs) => EachPanicIsForeseen(subs, limit, tape);
    case Alternate(subs) => if subs != [] { PanicIsForeseen(subs[Draw(|subs|, tape)], limit, Rest(tape)); }
    case _ =>
  }

  lemma {:induction false} TimesPanicIsForeseen(sub: Regex, limit: int, n: nat, tape: seq<nat>)
    requires GenTimes(sub, limit, n, tape).Panicked?
    ensures n > 0 && CanPanic(sub, limit)
    decreases sub, 1, n
  {
    var before := GenTimes(sub, limit, n - 1, tape);
    if before.Panicked? {
      TimesPanicIsForeseen(sub, limit, n - 1, tape);
    } else {
      PanicIsForeseen(sub, limit, before.rest);
    }
  }

  lemma {:induction false} EachPanicIsForeseen(subs: seq<Regex>, limit: int, tape: seq<nat>)
    requires GenEach(subs, limit, tape).Panicked?
    ensures exists i :: 0 <= i < |subs| && CanPanic(subs[i], limit)
    decreases subs, 0
  {
    var init := subs[..|subs| - 1];
    var before := GenEach(init, limit, tape);
    if before.Panicked? {
      EachPanicIsForeseen(init, limit, tape);
      var i :| 0 <= i < |init| && CanPanic(init[i], limit);
      assert init[i] == subs[i];
    } else {
      PanicIsForeseen(subs[|subs| - 1], limit, before.rest);
    }
  }

  lemma {:induction false} PanicIsReached(re: Regex, limit: int) returns (tape: seq<nat>)
    requires CanPanic(re, limit)
    ensures Gen(re, limit, tape).Panicked?
    decreases re, 0
  {
    tape := [];
    match re
    case Capture(sub) => tape := PanicIsReached(sub, limit);
    case Star(sub) => if limit > 0 { tape := LoopPanicIsReached(re, limit); }
    case Plus(sub) => if limit > 0 { tape := LoopPanicIsReached(re, limit); }
    case Quest(sub) => tape := LoopPanicIsReached(re, limit);
    case Repeat(sub, min, max) => tape := RepeatPanicIsReached(sub, min, max, limit);
    case Concat(subs) => tape := EachPanicIsReached(subs, limit);
    case Alternate(subs) => if subs != [] {
      var i :| 0 <= i < |subs| && CanPanic(subs[i], limit);
      tape := PanicIsReached(subs[i], limit);
      tape := Prepend(i, |subs|, tape);
    }
    case _ =>
  }

  lemma LoopPanicIsReached(re: Regex, limit: int) returns (tape: seq<nat>)
    requires re.Star? || re.Plus? || re.Quest?
    requires re.Quest? || limit > 0
    requires CanPanic(re.sub, limit)
    ensures Gen(re, limit, tape).Panicked?
    decreases re.sub, 3
  {
    tape := TimesPanicIsReached(re.sub, limit, 1);
    var choices, first := if re.Star? then limit + 1 else if re.Plus? then limit else 2, if re.Plus? then 0 else 1;
    tape := Prepend(first, choices, tape);
  }

  lemma RepeatPanicIsReached(sub: Regex, min: nat, max: int, limit: int) returns (tape: seq<nat>)
    requires CanPanic(sub, limit) && MaxCount(min, max, limit) > 0
    ensures Gen(Repeat(sub, min, max), limit, tape).Panicked?
    decreases sub, 3
  {
    var k := if min == 0 then 1 else 0;
    if Min(max, limit) > min {
      tape := TimesPanicIsReached(sub, limit, min + k);
      tape := Prepend(k, Min(max, limit) - min + 1, tape);
    } else {
      tape := TimesPanicIsReached(sub, limit, min);
    }
  }

  lemma TimesPanicIsReached(sub: Regex, limit: int, n: nat) returns (tape: seq<nat>)
    requires CanPanic(sub, limit) && n > 0
    ensures GenTimes(sub, limit, n, tape).Panicked?
    decreases sub, 1
  {
    tape := PanicIsReached(sub, limit);
    assert GenTimes(sub, limit, 0, tape) == Done([], tape);
    TimesStaysPanicked(sub, limit, 1, n, tape);
  }

  /** The parts before the first one that can panic all succeed, and leave the rest of the tape to it. */
  lemma {:induction false} EachPanicIsReached(subs: seq<Regex>, limit: int) returns (tape: seq<nat>)
    requires exists i :: 0 <= i < |subs| && CanPanic(subs[i], limit)
    ensures GenEach(subs, limit, tape).Panicked?
    decreases subs, 0
  {
    var n := |subs| - 1;
    var init := subs[..n];
    if i :| 0 <= i < n && CanPanic(subs[i], limit) {
      assert init[i] == subs[i];
      tape := EachPanicIsReached(init, limit);
    } else {
      var before := GenEach(init, limit, []);
      if before.Panicked? {
        EachPanicIsForeseen(init, limit, []);
        assert false;
      }
      EachResultIsOutput(init, limit, []);
      var last := PanicIsReached(subs[n], limit);
      tape := EachOutputIsReached(init, limit, before.s, last);
    }
  }

  /** Exactly when some run panics. */
  lemma PanicsExactly(re: Regex, limit: int)
    ensures (exists tape :: Gen(re, limit, tape).Panicked?) <==> CanPanic(re, limit)
  {
    if tape :| Gen(re, limit, tape).Panicked? {
      PanicIsForeseen(re, limit, tape);
    }
    if CanPanic(re, limit) {
      var tape := PanicIsReached(re, limit);
      assert Gen(re, limit, tape).Panicked?;
    }
  }

  // ---------------------------------------------------------------------------------------------
  // The printable characters
  // ---------------------------------------------------------------------------------------------

  predicate IsLineBreak(c: char) {
    c == '\n' || c == '\r'
  }

  /** The characters from the space to the tilde, and the tabulator. */
  predicate IsPrintable(c: char) {
    ' ' <= c <= '~' || c == '\t'
  }

  lemma InTwo(a: string, b: string, c: char)
    ensures c in a + b <==> c in a || c in b
  {
  }

  lemma Digits(c: char)
    ensures c in DIGITS <==> '0' <= c <= '9'
  {
    assert '0' <= c <= '9' ==> DIGITS[c as int - 48] == c;
  }

  lemma LowerCase(c: char)
    ensures c in LOWER_CASE <==> 'a' <= c <= 'z'
  {
    var a, b := "abcdefghijklm", "nopqrstuvwxyz";
    assert 'a' <= c <= 'm' ==> a[c as int - 97] == c;
    assert 'n' <= c <= 'z' ==> b[c as int - 110] == c;
    InTwo(a, b, c);
  }

  lemma UpperCase(c: char)
    ensures c in UPPER_CASE <==> 'A' <= c <= 'Z'
  {
    var a, b := "ABCDEFGHIJKLM", "NOPQRSTUVWXYZ";
    assert 'A' <= c <= 'M' ==> a[c as int - 65] == c;
    assert 'N' <= c <= 'Z' ==> b[c as int - 78] == c;
    InTwo(a, b, c);
  }

  lemma Punctuation(c: char)
    ensures c in PUNCTUATION <==>
      '!' <= c <= '/' || ':' <= c <= '@' || '[' <= c <= '`' || '{' <= c <= '~' || c == ' ' || c == '\t'
  {
    var a, b, d := "!\"#$%&'()*+,-./", ":;<=>?@[\\]^_`", "{|}~ \t";
    assert '!' <= c <= '/' ==> a[c as int - 33] == c;
    assert ':' <= c <= '@' ==> b[c as int - 58] == c;
    assert '[' <= c <= '`' ==> b[c as int - 84] == c;
    assert '{' <= c <= '~' ==> d[c as int - 123] == c;
    assert d[4] == ' ' && d[5] == '\t';
    InTwo(a, b, c);
    InTwo(a + b, d, c);
  }

  lemma WithoutLineBreaks(a: string, b: string, c: char)
    requires |b| == 2
    ensures (a + b)[..|a + b| - 2] == a
  {
  }

  /** The characters that a dot draws from are exactly the printable ones of ASCII, with or without line breaks. */
  lemma PrintableExactly(c: char)
    ensures c in PRINTABLE_CHARS <==> IsPrintable(c) || IsLineBreak(c)
    ensures c in PRINTABLE_CHARS_NO_NEWLINE <==> IsPrintable(c)
  {
    Digits(c);
    LowerCase(c);
    UpperCase(c);
    Punctuation(c);
    InTwo(DIGITS, LOWER_CASE, c);
    InTwo(DIGITS + LOWER_CASE, UPPER_CASE, c);
    InTwo(DIGITS + LOWER_CASE + UPPER_CASE, PUNCTUATION, c);
    InTwo(DIGITS + LOWER_CASE + UPPER_CASE + PUNCTUATION, "\n\r", c);
    WithoutLineBreaks(DIGITS + LOWER_CASE + UPPER_CASE + PUNCTUATION, "\n\r", c);
  }
}
