/**
 The random string generator: it walks the parsed expression, draws random numbers, and overwrites the
 upper bound of the repeat nodes it visits.

 A call that panics in Go returns `ok == false`.
 */
module RegexGenerator {
  import opened RegexLanguage
  import opened RegexDraws
  import opened RegexSoundness

  function AsOutcome(ok: bool, s: seq<int>, tape: seq<nat>): Outcome {
    if ok then Done(s, tape) else Panicked
  }

  /** The random source, which delivers the numbers of its tape. */
  class Random {
    var tape: seq<nat>

    constructor (tape: seq<nat>)
      ensures this.tape == tape
    {
      this.tape := tape;
    }

    /** A number strictly below n, or a panic when there is none. */
    method Intn(n: int) returns (ok: bool, r: nat)
      modifies this
      ensures ok <==> n > 0
      ensures ok ==> r == Draw(n, old(tape)) && tape == Rest(old(tape))
    {
      if n <= 0 {
        return false, 0;
      }
      ok, r := true, Draw(n, tape);
      tape := Rest(tape);
    }
  }

  // ---------------------------------------------------------------------------------------------
  // Character classes
  // ---------------------------------------------------------------------------------------------

  /** Drawing one character from a class. */
  method DrawFromClass(ranges: seq<Range>, rand: Random) returns (ok: bool, c: int)
    modifies rand
    ensures ok <==> ClassSize(ranges, PRINTABLE_CHARS) > 0
    ensures ok ==> c == ClassChar(ranges, PRINTABLE_CHARS, Draw(ClassSize(ranges, PRINTABLE_CHARS), old(rand.tape)))
    ensures ok ==> rand.tape == Rest(old(rand.tape))
  {
    var sum := SizeOrEnd(ranges);
    if sum == -1 {
      var possibleChars := MembersAmong(ranges, PRINTABLE_CHARS);
      if |possibleChars| > 0 {
        var k: nat;
        ok, k := rand.Intn(|possibleChars|);
        return ok, possibleChars[k];
      }
    }
    var r: nat;
    ok, r := rand.Intn(sum);
    if !ok {
      return false, 0;
    }
    c := RuneOf(ranges, r);
    c := Encoded(c);
  }

  /** The number of members, or -1 when a range ends at the last code point. */
  method SizeOrEnd(ranges: seq<Range>) returns (sum: int)
    ensures sum == if ReachesEnd(ranges) then -1 else Size(ranges)
  {
    sum := 0;
    var i := 0;
    while i < |ranges|
      invariant 0 <= i <= |ranges|
      invariant sum == Size(ranges[..i])
      invariant forall j | 0 <= j < i :: ranges[j].hi != RANGE_END
    {
      assert ranges[..i + 1][..i] == ranges[..i];
      sum := sum + (ranges[i].hi - ranges[i].lo + 1);
      if ranges[i].hi == RANGE_END {
        return -1;
      }
      i := i + 1;
    }
    assert ranges[..i] == ranges;
  }

  /** Those of the given characters that belong to the class. */
  method MembersAmong(ranges: seq<Range>, chars: string) returns (members: seq<int>)
    ensures members == Members(ranges, chars)
  {
    members := [];
    for j := 0 to |chars|
      invariant members == Members(ranges, chars[..j])
    {
      var c := chars[j] as int;
      var found := IsMember(ranges, c);
      assert chars[..j + 1][..j] == chars[..j];
      if found {
        members := members + [c];
      }
    }
    assert chars[..|chars|] == chars;
  }

  method IsMember(ranges: seq<Range>, c: int) returns (found: bool)
    ensures found <==> InClass(ranges, c)
  {
    for i := 0 to |ranges|
      invariant forall k | 0 <= k < i :: !(ranges[k].lo <= c <= ranges[k].hi)
    {
      if ranges[i].lo <= c <= ranges[i].hi {
        return true;
      }
    }
    return false;
  }

  /** The rune that number r stands for. */
  method RuneOf(ranges: seq<Range>, r: nat) returns (ru: int)
    requires r < Size(ranges)
    ensures ru == MemberAt(ranges, r)
  {
    ru := 0;
    assert ranges[..|ranges|] == ranges;
    var sum := 0;
    var i := 0;
    while i < |ranges|
      invariant 0 <= i <= |ranges|
      invariant sum == Size(ranges[..i]) <= r
    {
      assert ranges[..i + 1][..i] == ranges[..i];
      var gap := ranges[i].hi - ranges[i].lo + 1;
      if sum + gap > r {
        ru := ranges[i].lo + (r - sum);
        MemberOfPrefix(ranges, i + 1, r);
        return;
      }
      sum := sum + gap;
      i := i + 1;
    }
  }

  lemma {:induction false} MemberOfPrefix(ranges: seq<Range>, n: nat, r: nat)
    requires n <= |ranges| && r < Size(ranges[..n])
    ensures MemberAt(ranges, r) == MemberAt(ranges[..n], r)
    decreases |ranges|
  {
    if n < |ranges| {
      var init := ranges[..|ranges| - 1];
      assert init[..n] == ranges[..n];
      SizeGrows(init, n);
      MemberOfPrefix(init, n, r);
    } else {
      assert ranges[..n] == ranges;
    }
  }

  lemma {:induction false} SizeGrows(ranges: seq<Range>, n: nat)
    requires n <= |ranges|
    ensures Size(ranges[..n]) <= Size(ranges)
    decreases |ranges|
  {
    if n < |ranges| {
      assert ranges[..|ranges| - 1][..n] == ranges[..n];
      SizeGrows(ranges[..|ranges| - 1], n);
    } else {
      assert ranges[..n] == ranges;
    }
  }

  // ---------------------------------------------------------------------------------------------
  // The expression tree and the walk over it
  // ---------------------------------------------------------------------------------------------

  datatype Op =
    | OpNoMatch | OpEmptyMatch | OpAnchor | OpLiteral | OpCharClass | OpAnyChar | OpAnyCharNotNL
    | OpCapture | OpStar | OpPlus | OpQuest | OpRepeat | OpConcat | OpAlternate

  predicate IsUnary(op: Op) {
    op.OpCapture? || op.OpStar? || op.OpPlus? || op.OpQuest? || op.OpRepeat?
  }

  /** The count that a star, a plus or a question mark draws, or -1 for a panic. */
  function DrawnCount(op: Op, limit: int, tape: seq<nat>): int {
    match op
    case OpStar => if limit < 0 then -1 else Draw(limit + 1, tape)
    case OpPlus => if limit < 1 then -1 else Draw(limit, tape) + 1
    case _ => Draw(2, tape)
  }

  lemma LoopGen(re: Regex, op: Op, limit: int, tape: seq<nat>)
    requires (re.Star? && op == OpStar) || (re.Plus? && op == OpPlus) || (re.Quest? && op == OpQuest)
    ensures var n := DrawnCount(op, limit, tape);
      Gen(re, limit, tape) == if n < 0 then Panicked else GenTimes(re.sub, limit, n, Rest(tape))
  {
  }

  lemma RepeatGen(re: Regex, limit: int, tape: seq<nat>)
    requires re.Repeat? && re.max <= limit
    ensures Gen(re, limit, tape)
         == if re.max > re.min then GenTimes(re.sub, limit, re.min + Draw(re.max - re.min + 1, tape), Rest(tape))
            else GenTimes(re.sub, limit, re.min, tape)
  {
  }

  /** The generator on the first n parts of a concatenation. */
  function GenFirst(parts: seq<Regex>, n: nat, limit: int, tape: seq<nat>): Outcome
    requires n <= |parts|
  {
    GenEach(parts[..n], limit, tape)
  }

  lemma EachStep(parts: seq<Regex>, limit: int, i: nat, tape: seq<nat>)
    requires i < |parts| && GenFirst(parts, i, limit, tape).Done?
    ensures var before := GenFirst(parts, i, limit, tape);
      var next := Gen(parts[i], limit, before.rest);
      && GenFirst(parts, i + 1, limit, tape) == Extend(before.s, next)
      && (next.Panicked? ==> GenEach(parts, limit, tape).Panicked?)
  {
    assert parts[..i + 1][..i] == parts[..i];
    if GenEach(parts[..i + 1], limit, tape).Panicked? {
      EachStaysPanicked(parts, limit, i + 1, tape);
    }
  }

  /** A node of the parsed expression.  Only `max` changes after parsing. */
  class Node {
    const op: Op
    const runes: seq<int>
    const ranges: seq<Range>
    const subs: seq<Node>
    const min: nat
    var max: int

    ghost const source: Regex       // the expression as parsed
    ghost const repr: set<Node>     // this node and those below it

    constructor (op: Op, runes: seq<int>, ranges: seq<Range>, subs: seq<Node>, min: nat, max: int,
                 ghost source: Regex, ghost repr: set<Node>)
      ensures this.op == op && this.runes == runes && this.ranges == ranges && this.subs == subs
      ensures this.min == min && this.max == max && this.source == source && this.repr == repr + {this}
    {
      this.op, this.runes, this.ranges, this.subs := op, runes, ranges, subs;
      this.min, this.max := min, max;
      this.source, this.repr := source, repr + {this};
    }

    /** The node is of the kind its source expression says, and `max` has at most shrunk. */
    ghost predicate Fits()
      reads this
    {
      match source
      case NoMatch => op == OpNoMatch
      case EmptyMatch => op == OpEmptyMatch
      case Anchor => op == OpAnchor
      case Literal(rs) => op == OpLiteral && runes == rs
      case CharClass(rs) => op == OpCharClass && ranges == rs
      case AnyChar => op == OpAnyChar
      case AnyCharNotNL => op == OpAnyCharNotNL
      case Capture(sub) => op == OpCapture && |subs| == 1 && subs[0].source == sub
      case Star(sub) => op == OpStar && |subs| == 1 && subs[0].source == sub
      case Plus(sub) => op == OpPlus && |subs| == 1 && subs[0].source == sub
      case Quest(sub) => op == OpQuest && |subs| == 1 && subs[0].source == sub
      case Repeat(sub, lo, hi) => op == OpRepeat && |subs| == 1 && subs[0].source == sub && min == lo && max <= hi
      case Concat(rs) => op == OpConcat && |subs| == |rs| && forall i | 0 <= i < |rs| :: subs[i].source == rs[i]
      case Alternate(rs) => op == OpAlternate && |subs| == |rs| && forall i | 0 <= i < |rs| :: subs[i].source == rs[i]
    }

    /** The nodes form a tree that represents the source expression. */
    ghost predicate Valid()
      reads this, repr
      decreases source
    {
      && this in repr
      && Fits()
      && (forall i | 0 <= i < |subs| ::
            && subs[i] in repr && subs[i].repr <= repr && this !in subs[i].repr
            && subs[i].source < source
            && subs[i].Valid())
      && (forall i, j | 0 <= i < j < |subs| :: subs[i].repr !! subs[j].repr)
    }

    /** The expression with the bounds that a walk with this limit will use. */
    ghost function Now(limit: int): Regex
      reads this, repr
      requires Valid()
      decreases source, |subs| + 1
    {
      match source
      case Capture(_) => Capture(subs[0].Now(limit))
      case Star(_) => Star(subs[0].Now(limit))
      case Plus(_) => Plus(subs[0].Now(limit))
      case Quest(_) => Quest(subs[0].Now(limit))
      case Repeat(_, _, _) => Repeat(subs[0].Now(limit), min, Min(max, limit))
      case Concat(_) => Concat(PartsNow(limit, |subs|))
      case Alternate(_) => Alternate(PartsNow(limit, |subs|))
      case _ => source
    }

    ghost function PartsNow(limit: int, n: nat): (parts: seq<Regex>)
      reads this, repr
      requires Valid() && n <= |subs|
      ensures |parts| == n && forall i | 0 <= i < n :: parts[i] == subs[i].Now(limit)
      decreases source, n
    {
      if n == 0 then [] else PartsNow(limit, n - 1) + [subs[n - 1].Now(limit)]
    }

    /** The generator proper: what it returns follows from the tape, and its writes to bounds do not show. */
    method Generate(limit: int, rand: Random) returns (ok: bool, s: seq<int>)
      requires Valid()
      modifies repr, rand
      ensures Valid() && Now(limit) == old(Now(limit))
      ensures AsOutcome(ok, s, rand.tape) == Gen(old(Now(limit)), limit, old(rand.tape))
      decreases source, 4
    {
      if IsUnary(op) {
        ok, s := GenerateUnary(limit, rand);
      } else if op == OpConcat {
        ok, s := GenerateConcat(limit, rand);
      } else if op == OpAlternate {
        ok, s := GenerateAlternate(limit, rand);
      } else {
        ok, s := GenerateLeaf(limit, rand);
      }
    }

    /** The operators with one subexpression. */
    method GenerateUnary(limit: int, rand: Random) returns (ok: bool, s: seq<int>)
      requires Valid() && IsUnary(op)
      modifies repr, rand
      ensures Valid() && Now(limit) == old(Now(limit))
      ensures AsOutcome(ok, s, rand.tape) == Gen(old(Now(limit)), limit, old(rand.tape))
      decreases source, 3
    {
      if op == OpCapture {
        ok, s := GenerateCapture(limit, rand);
      } else if op == OpRepeat {
        ok, s := GenerateRepeat(limit, rand);
      } else {
        ok, s := GenerateLoop(limit, rand);
      }
    }

    /** The operators without subexpressions. */
    method GenerateLeaf(limit: int, rand: Random) returns (ok: bool, s: seq<int>)
      requires Valid() && !IsUnary(op) && op != OpConcat && op != OpAlternate
      modifies rand
      ensures AsOutcome(ok, s, rand.tape) == Gen(Now(limit), limit, old(rand.tape))
    {
      match op
      case OpLiteral =>
        s := GenerateLiteral();
        ok := true;
      case OpCharClass =>
        ok, s := GenerateClass(limit, rand);
      case OpAnyChar =>
        ok, s := GenerateChar(PRINTABLE_CHARS, rand);
      case OpAnyCharNotNL =>
        ok, s := GenerateChar(PRINTABLE_CHARS_NO_NEWLINE, rand);
      case _ =>
        ok, s := true, [];
    }

    /** The recursive call on one subexpression; the rest of the tree is not touched. */
    method GenerateSub(i: nat, limit: int, rand: Random) returns (ok: bool, s: seq<int>)
      requires Valid() && i < |subs|
      modifies subs[i].repr, rand
      ensures Valid() && forall j | 0 <= j < |subs| :: subs[j].Now(limit) == old(subs[j].Now(limit))
      ensures AsOutcome(ok, s, rand.tape) == Gen(old(subs[i].Now(limit)), limit, old(rand.tape))
      decreases source, 0
    {
      ok, s := subs[i].Generate(limit, rand);
    }

    /** The same, as one of several parts. */
    method GeneratePart(i: nat, limit: int, rand: Random) returns (ok: bool, s: seq<int>)
      requires Valid() && i < |subs|
      modifies subs[i].repr, rand
      ensures Valid() && PartsNow(limit, |subs|) == old(PartsNow(limit, |subs|))
      ensures AsOutcome(ok, s, rand.tape) == Gen(old(PartsNow(limit, |subs|))[i], limit, old(rand.tape))
      decreases source, 1, 0
    {
      ok, s := GenerateSub(i, limit, rand);
    }

    method GenerateLiteral() returns (s: seq<int>)
      ensures s == EncodedAll(runes)
    {
      s := [];
      for i := 0 to |runes|
        invariant |s| == i && forall j | 0 <= j < i :: s[j] == Encoded(runes[j])
      {
        s := s + [Encoded(runes[i])];
      }
    }

    method GenerateClass(limit: int, rand: Random) returns (ok: bool, s: seq<int>)
      modifies rand
      ensures AsOutcome(ok, s, rand.tape) == Gen(CharClass(ranges), limit, old(rand.tape))
    {
      var c: int;
      ok, c := DrawFromClass(ranges, rand);
      s := [c];
    }

    method GenerateChar(chars: string, rand: Random) returns (ok: bool, s: seq<int>)
      modifies rand
      ensures AsOutcome(ok, s, rand.tape) == GenChar(chars, old(rand.tape))
    {
      var k: nat;
      ok, k := rand.Intn(|chars|);
      s := if ok then [chars[k] as int] else [];
    }

    method GenerateCapture(limit: int, rand: Random) returns (ok: bool, s: seq<int>)
      requires Valid() && source.Capture?
      modifies repr, rand
      ensures Valid() && Now(limit) == old(Now(limit))
      ensures AsOutcome(ok, s, rand.tape) == Gen(old(Now(limit)), limit, old(rand.tape))
      decreases source, 2
    {
      ok, s := GenerateSub(0, limit, rand);
    }

    method GenerateConcat(limit: int, rand: Random) returns (ok: bool, s: seq<int>)
      requires Valid() && source.Concat?
      modifies repr, rand
      ensures Valid() && Now(limit) == old(Now(limit))
      ensures AsOutcome(ok, s, rand.tape) == Gen(old(Now(limit)), limit, old(rand.tape))
      decreases source, 2
    {
      ok, s := GenerateEach(limit, rand);
    }

    method GenerateAlternate(limit: int, rand: Random) returns (ok: bool, s: seq<int>)
      requires Valid() && source.Alternate?
      modifies repr, rand
      ensures Valid() && Now(limit) == old(Now(limit))
      ensures AsOutcome(ok, s, rand.tape) == Gen(old(Now(limit)), limit, old(rand.tape))
      decreases source, 2
    {
      ok, s := GenerateOneOf(limit, rand);
    }

    /** Star, plus and question mark: draw a count, then loop. */
    method GenerateLoop(limit: int, rand: Random) returns (ok: bool, s: seq<int>)
      requires Valid() && (source.Star? || source.Plus? || source.Quest?)
      modifies repr, rand
      ensures Valid() && Now(limit) == old(Now(limit))
      ensures AsOutcome(ok, s, rand.tape) == Gen(old(Now(limit)), limit, old(rand.tape))
      decreases source, 2
    {
      var count: nat;
      LoopGen(Now(limit), op, limit, rand.tape);
      ok, count := DrawCount(limit, rand);
      if !ok {
        return false, [];
      }
      ok, s := Times(limit, count, rand);
    }

    method DrawCount(limit: int, rand: Random) returns (ok: bool, count: nat)
      modifies rand
      ensures ok <==> DrawnCount(op, limit, old(rand.tape)) >= 0
      ensures ok ==> count == DrawnCount(op, limit, old(rand.tape)) && rand.tape == Rest(old(rand.tape))
    {
      if op == OpStar {
        ok, count := rand.Intn(limit + 1);
      } else if op == OpPlus {
        ok, count := rand.Intn(limit);
        count := count + 1;
      } else {
        ok, count := rand.Intn(2);
      }
    }

    method GenerateOneOf(limit: int, rand: Random) returns (ok: bool, s: seq<int>)
      requires Valid()
      modifies repr, rand
      ensures Valid() && PartsNow(limit, |subs|) == old(PartsNow(limit, |subs|))
      ensures AsOutcome(ok, s, rand.tape) == Gen(Alternate(old(PartsNow(limit, |subs|))), limit, old(rand.tape))
      decreases source, 1, 1
    {
      var i: nat;
      ok, i := rand.Intn(|subs|);
      if !ok {
        return false, [];
      }
      ok, s := GeneratePart(i, limit, rand);
    }

    /** The loop that generates the only subexpression `count` times. */
    method Times(limit: int, count: nat, rand: Random) returns (ok: bool, s: seq<int>)
      requires Valid() && |subs| == 1
      modifies subs[0].repr, rand
      ensures Valid() && subs[0].Now(limit) == old(subs[0].Now(limit))
      ensures AsOutcome(ok, s, rand.tape) == GenTimes(old(subs[0].Now(limit)), limit, count, old(rand.tape))
      decreases source, 1, 0
    {
      ghost var sub, tape := subs[0].Now(limit), rand.tape;
      s := [];
      for i := 0 to count
        invariant Valid() && subs[0].Now(limit) == sub
        invariant GenTimes(sub, limit, i, tape) == Done(s, rand.tape)
      {
        var t: seq<int>;
        ok, t := GenerateSub(0, limit, rand);
        if !ok {
          TimesStaysPanicked(sub, limit, i + 1, count, tape);
          return false, [];
        }
        s := s + t;
      }
      ok := true;
    }

    /** The bounded repeat, which overwrites `max`. */
    method GenerateRepeat(limit: int, rand: Random) returns (ok: bool, s: seq<int>)
      requires Valid() && source.Repeat?
      modifies repr, rand
      ensures Valid() && Now(limit) == old(Now(limit))
      ensures max == Min(old(max), limit)
      ensures AsOutcome(ok, s, rand.tape) == Gen(old(Now(limit)), limit, old(rand.tape))
      decreases source, 2
    {
      ShrinkMax(limit);
      ok, s := GenerateBounded(limit, rand);
    }

    method GenerateBounded(limit: int, rand: Random) returns (ok: bool, s: seq<int>)
      requires Valid() && |subs| == 1 && max <= limit
      modifies subs[0].repr, rand
      ensures Valid() && subs[0].Now(limit) == old(subs[0].Now(limit)) && max == old(max)
      ensures AsOutcome(ok, s, rand.tape) == Gen(Repeat(old(subs[0].Now(limit)), min, max), limit, old(rand.tape))
      decreases source, 1, 1
    {
      var count: nat := 0;
      RepeatGen(Repeat(subs[0].Now(limit), min, max), limit, rand.tape);
      if max > min {
        ok, count := rand.Intn(max - min + 1);
      }
      ok, s := Times(limit, min + count, rand);
    }

    method ShrinkMax(limit: int)
      requires Valid() && source.Repeat?
      modifies this`max
      ensures Valid() && Now(limit) == old(Now(limit))
      ensures max == Min(old(max), limit) && subs[0].Now(limit) == old(subs[0].Now(limit))
    {
      max := if max < limit then max else limit;
    }

    /** The loop over the parts of a concatenation. */
    method GenerateEach(limit: int, rand: Random) returns (ok: bool, s: seq<int>)
      requires Valid()
      modifies repr, rand
      ensures Valid() && PartsNow(limit, |subs|) == old(PartsNow(limit, |subs|))
      ensures AsOutcome(ok, s, rand.tape) == GenEach(old(PartsNow(limit, |subs|)), limit, old(rand.tape))
      decreases source, 1, 1
    {
      ghost var parts, tape := PartsNow(limit, |subs|), rand.tape;
      s := [];
      for i := 0 to |subs|
        invariant Valid() && PartsNow(limit, |subs|) == parts
        invariant GenFirst(parts, i, limit, tape) == Done(s, rand.tape)
      {
        var t: seq<int>;
        EachStep(parts, limit, i, tape);
        ok, t := GeneratePart(i, limit, rand);
        if !ok {
          return false, [];
        }
        s := s + t;
      }
      assert parts[..|subs|] == parts;
      ok := true;
    }

    /** The bounds have only shrunk since the expression was parsed. */
    lemma OnlyTightened(limit: int)
      requires Valid()
      ensures Tightens(Now(limit), source)
      decreases source
    {
      forall i | 0 <= i < |subs| ensures Tightens(subs[i].Now(limit), subs[i].source) {
        subs[i].OnlyTightened(limit);
      }
    }
  }

  // ---------------------------------------------------------------------------------------------
  // Generators
  // ---------------------------------------------------------------------------------------------

  /** The tree of nodes for an expression. */
  method Build(re: Regex) returns (n: Node)
    ensures n.Valid() && n.source == re && fresh(n.repr)
    ensures forall limit :: n.Now(limit) == Limited(re, limit)
    decreases re, 1
  {
    match re
    case NoMatch => n := new Node(OpNoMatch, [], [], [], 0, 0, re, {});
    case EmptyMatch => n := new Node(OpEmptyMatch, [], [], [], 0, 0, re, {});
    case Anchor => n := new Node(OpAnchor, [], [], [], 0, 0, re, {});
    case Literal(runes) => n := new Node(OpLiteral, runes, [], [], 0, 0, re, {});
    case CharClass(ranges) => n := new Node(OpCharClass, [], ranges, [], 0, 0, re, {});
    case AnyChar => n := new Node(OpAnyChar, [], [], [], 0, 0, re, {});
    case AnyCharNotNL => n := new Node(OpAnyCharNotNL, [], [], [], 0, 0, re, {});
    case Capture(sub) => n := BuildUnary(re, OpCapture, sub, 0, 0);
    case Star(sub) => n := BuildUnary(re, OpStar, sub, 0, 0);
    case Plus(sub) => n := BuildUnary(re, OpPlus, sub, 0, 0);
    case Quest(sub) => n := BuildUnary(re, OpQuest, sub, 0, 0);
    case Repeat(sub, min, max) => n := BuildUnary(re, OpRepeat, sub, min, max);
    case Concat(rs) =>
      n := BuildParts(re, OpConcat, rs);
      PartsAreLimited(n, rs);
    case Alternate(rs) =>
      n := BuildParts(re, OpAlternate, rs);
      PartsAreLimited(n, rs);
  }

  lemma PartsAreLimited(n: Node, parts: seq<Regex>)
    requires n.Valid() && |n.subs| == |parts|
    requires forall i, limit | 0 <= i < |parts| :: n.subs[i].Now(limit) == Limited(parts[i], limit)
    ensures forall limit :: n.PartsNow(limit, |n.subs|) == LimitedAll(parts, limit)
  {
  }

  method BuildUnary(re: Regex, op: Op, sub: Regex, min: nat, max: int) returns (n: Node)
    requires sub < re
    ensures n.op == op && n.min == min && n.max == max && n.source == re && fresh(n.repr) && n in n.repr
    ensures |n.subs| == 1 && n.subs[0].source == sub && n.subs[0].Valid()
    ensures n.subs[0].repr <= n.repr && n !in n.subs[0].repr
    ensures forall limit :: n.subs[0].Now(limit) == Limited(sub, limit)
    decreases re, 0
  {
    var child := Build(sub);
    n := new Node(op, [], [], [child], min, max, re, child.repr);
  }

  method BuildParts(re: Regex, op: Op, parts: seq<Regex>) returns (n: Node)
    requires forall i | 0 <= i < |parts| :: parts[i] < re
    ensures n.op == op && n.source == re && fresh(n.repr) && n in n.repr && |n.subs| == |parts|
    ensures forall i | 0 <= i < |parts| ::
      n.subs[i].source == parts[i] && n.subs[i].Valid() && n.subs[i].repr <= n.repr && n !in n.subs[i].repr
    ensures forall i, j | 0 <= i < j < |parts| :: n.subs[i].repr !! n.subs[j].repr
    ensures forall i, limit | 0 <= i < |parts| :: n.subs[i].Now(limit) == Limited(parts[i], limit)
    decreases re, 0
  {
    var children: seq<Node> := [];
    ghost var all: set<Node> := {};
    for k := 0 to |parts|
      invariant |children| == k && fresh(all)
      invariant forall i | 0 <= i < k ::
        children[i].source == parts[i] && children[i].Valid() && children[i].repr <= all
      invariant forall i, j | 0 <= i < j < k :: children[i].repr !! children[j].repr
      invariant forall i, limit | 0 <= i < k :: children[i].Now(limit) == Limited(parts[i], limit)
    {
      var child := Build(parts[k]);
      children, all := children + [child], all + child.repr;
    }
    n := new Node(op, [], [], children, 0, 0, re, all);
  }

  class Generator {
    const re: Node
    const rand: Random

    ghost predicate Valid()
      reads re, re.repr
    {
      re.Valid() && WellFormed(re.source)
    }

    /** The expression is what the parser made of the pattern. */
    constructor (parsed: Regex, tape: seq<nat>)
      requires WellFormed(parsed)
      ensures Valid() && re.source == parsed && fresh(re.repr) && fresh(rand) && rand.tape == tape
      ensures forall limit :: re.Now(limit) == Limited(parsed, limit)
    {
      var n := Build(parsed);
      re := n;
      rand := new Random(tape);
    }

    /**
     On this call and on every later one, with whatever limits, the string is one that the expression with
     its present bounds can yield, and it is in the language of the original expression.
     */
    method Generate(limit: int) returns (ok: bool, s: seq<int>)
      requires Valid()
      modifies re.repr, rand
      ensures Valid() && re.Now(limit) == old(re.Now(limit))
      ensures AsOutcome(ok, s, rand.tape) == Gen(old(re.Now(limit)), limit, old(rand.tape))
      ensures ok && Clean(re.source) ==> Matches(re.source, s)
      ensures !CanPanic(old(re.Now(limit)), limit) ==> ok
    {
      ghost var now, tape := re.Now(limit), rand.tape;
      re.OnlyTightened(limit);
      ok, s := re.Generate(limit, rand);
      if !ok {
        PanicIsForeseen(now, limit, tape);
      } else if Clean(re.source) {
        ResultIsOutput(now, limit, tape);
        OutputIsMatch(now, re.source, limit, s);
      }
    }
  }
}
