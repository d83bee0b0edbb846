/**
 Regular expressions as Go's parser delivers them, and the languages they denote.

 A string is a sequence of code points.  Anchors and word boundaries are read as the empty match.
 */
module RegexLanguage {
  const NEWLINE := 10
  const RANGE_END := 0x10ffff
  const REPLACEMENT := 0xfffd

  datatype Bounds = Bounds(lo: int, hi: int)

  /** A range of code points, both ends included. */
  type Range = b: Bounds | 0 <= b.lo <= b.hi <= RANGE_END witness Bounds(0, 0)

  datatype Regex =
    | NoMatch
    | EmptyMatch
    | Anchor
    | Literal(runes: seq<int>)
    | CharClass(ranges: seq<Range>)
    | AnyChar
    | AnyCharNotNL
    | Capture(sub: Regex)
    | Star(sub: Regex)
    | Plus(sub: Regex)
    | Quest(sub: Regex)
    | Repeat(sub: Regex, min: nat, max: int)
    | Concat(subs: seq<Regex>)
    | Alternate(subs: seq<Regex>)

  predicate InClass(ranges: seq<Range>, r: int) {
    exists i :: 0 <= i < |ranges| && ranges[i].lo <= r <= ranges[i].hi
  }

  /** What the parser promises about repeats: bounds in order, where -1 is "no upper bound". */
  predicate WellFormed(re: Regex) {
    match re
    case Capture(sub) => WellFormed(sub)
    case Star(sub) => WellFormed(sub)
    case Plus(sub) => WellFormed(sub)
    case Quest(sub) => WellFormed(sub)
    case Repeat(sub, min, max) => WellFormed(sub) && (max == -1 || min <= max)
    case Concat(subs) => forall i | 0 <= i < |subs| :: WellFormed(subs[i])
    case Alternate(subs) => forall i | 0 <= i < |subs| :: WellFormed(subs[i])
    case _ => true
  }

  // ---------------------------------------------------------------------------------------------
  // Languages
  // ---------------------------------------------------------------------------------------------

  ghost predicate Matches(re: Regex, s: seq<int>)
    decreases re, 0
  {
    match re
    case NoMatch => false
    case EmptyMatch => s == []
    case Anchor => s == []
    case Literal(runes) => s == runes
    case CharClass(ranges) => |s| == 1 && InClass(ranges, s[0])
    case AnyChar => |s| == 1
    case AnyCharNotNL => |s| == 1 && s[0] != NEWLINE
    case Capture(sub) => Matches(sub, s)
    case Star(sub) => exists n: nat :: Power(sub, n, s)
    case Plus(sub) => exists n: nat :: n >= 1 && Power(sub, n, s)
    case Quest(sub) => exists n: nat :: n <= 1 && Power(sub, n, s)
    case Repeat(sub, min, max) => exists n: nat :: min <= n && (max == -1 || n <= max) && Power(sub, n, s)
    case Concat(subs) => Chain(subs, s)
    case Alternate(subs) => exists i :: 0 <= i < |subs| && Matches(subs[i], s)
  }

  /** `s` is n strings of the language of `sub`, one after another. */
  ghost predicate Power(sub: Regex, n: nat, s: seq<int>)
    decreases sub, 1, n
  {
    if n == 0 then s == []
    else exists k :: 0 <= k <= |s| && Power(sub, n - 1, s[..k]) && Matches(sub, s[k..])
  }

  /** `s` is one string of each of the languages of `subs`, in order. */
  ghost predicate Chain(subs: seq<Regex>, s: seq<int>)
    decreases subs, 0
  {
    if subs == [] then s == []
    else exists k :: 0 <= k <= |s| && Chain(subs[..|subs| - 1], s[..k]) && Matches(subs[|subs| - 1], s[k..])
  }

  lemma PowerAppend(sub: Regex, n: nat, s: seq<int>, t: seq<int>)
    requires Power(sub, n, s) && Matches(sub, t)
    ensures Power(sub, n + 1, s + t)
  {
    assert (s + t)[..|s|] == s && (s + t)[|s|..] == t;
  }

  lemma ChainAppend(subs: seq<Regex>, n: nat, s: seq<int>, t: seq<int>)
    requires n < |subs| && Chain(subs[..n], s) && Matches(subs[n], t)
    ensures Chain(subs[..n + 1], s + t)
  {
    assert (s + t)[..|s|] == s && (s + t)[|s|..] == t;
    assert subs[..n + 1][..n] == subs[..n] && subs[..n + 1][n] == subs[n];
  }

  lemma SplitPower(sub: Regex, n: nat, s: seq<int>) returns (k: nat)
    requires Power(sub, n, s) && n > 0
    ensures k <= |s| && Power(sub, n - 1, s[..k]) && Matches(sub, s[k..])
  {
    k :| 0 <= k <= |s| && Power(sub, n - 1, s[..k]) && Matches(sub, s[k..]);
  }

  lemma SplitChain(subs: seq<Regex>, s: seq<int>) returns (k: nat)
    requires Chain(subs, s) && subs != []
    ensures k <= |s| && Chain(subs[..|subs| - 1], s[..k]) && Matches(subs[|subs| - 1], s[k..])
  {
    k :| 0 <= k <= |s| && Chain(subs[..|subs| - 1], s[..k]) && Matches(subs[|subs| - 1], s[k..]);
  }

  lemma CountOf(re: Regex, s: seq<int>) returns (n: nat)
    requires re.Repeat? && Matches(re, s)
    ensures re.min <= n && (re.max == -1 || n <= re.max) && Power(re.sub, n, s)
  {
    n :| re.min <= n && (re.max == -1 || n <= re.max) && Power(re.sub, n, s);
  }

  lemma BranchOf(subs: seq<Regex>, s: seq<int>) returns (i: nat)
    requires Matches(Alternate(subs), s)
    ensures i < |subs| && Matches(subs[i], s)
  {
    i :| 0 <= i < |subs| && Matches(subs[i], s);
  }
}
