/** Sequential string parameters, which must differ from one iteration to the next. */
module SequentialParams {
  import opened Wrappers
  import Iteration
  import IterationRuns

  const DIGITS := ['0', '1', '2', '3', '4', '5', '6', '7', '8', '9']

  function Decimal(n: nat): (s: string)
    ensures s != ""
  {
    if n < 10 then [DIGITS[n]] else Decimal(n / 10) + [DIGITS[n % 10]]
  }

  function Itoa(i: int): string {
    if i < 0 then "-" + Decimal(-i) else Decimal(i)
  }

  /** Every star replaced by `text`. */
  function ReplaceStars(s: string, text: string): string {
    if s == "" then ""
    else (if s[0] == '*' then text else [s[0]]) + ReplaceStars(s[1..], text)
  }

  /** The value of the parameter in iteration `index`. */
  function GetValue(pattern: string, index: int): string {
    if '*' in pattern then ReplaceStars(pattern, Itoa(index)) else pattern + Itoa(index)
  }

  lemma {:induction false} DecimalInjective(a: nat, b: nat)
    requires Decimal(a) == Decimal(b)
    ensures a == b
  {
    var s, t := Decimal(a), Decimal(b);
    assert s[|s| - 1] == DIGITS[a % 10] && t[|t| - 1] == DIGITS[b % 10];
    if a >= 10 && b >= 10 {
      assert s[..|s| - 1] == Decimal(a / 10) && t[..|t| - 1] == Decimal(b / 10);
      DecimalInjective(a / 10, b / 10);
    }
  }

  lemma {:induction false} StartsWithDigit(n: nat)
    ensures Decimal(n)[0] in DIGITS
  {
    if n >= 10 {
      StartsWithDigit(n / 10);
      assert Decimal(n)[0] == Decimal(n / 10)[0];
    }
  }

  lemma ItoaInjective(i: int, j: int)
    requires Itoa(i) == Itoa(j)
    ensures i == j
  {
    var a, b := if i < 0 then -i else i, if j < 0 then -j else j;
    StartsWithDigit(a);
    StartsWithDigit(b);
    assert '-' !in DIGITS;
    if i < 0 && j < 0 {
      assert Itoa(i)[1..] == Decimal(a) && Itoa(j)[1..] == Decimal(b);
    }
    assert (i < 0) == (Itoa(i)[0] == '-') && (j < 0) == (Itoa(j)[0] == '-');
    DecimalInjective(a, b);
  }

  function Stars(s: string): nat {
    if s == "" then 0 else (if s[0] == '*' then 1 else 0) + Stars(s[1..])
  }

  lemma {:induction false} ReplacedLength(s: string, text: string)
    ensures |ReplaceStars(s, text)| == |s| - Stars(s) + Stars(s) * |text|
  {
    if s != "" {
      ReplacedLength(s[1..], text);
    }
  }

  /** Equal replacements of equal length come from equal texts, whatever follows the first star. */
  lemma {:induction false} FirstStarDecides(s: string, a: string, b: string)
    requires '*' in s && |a| == |b| && ReplaceStars(s, a) == ReplaceStars(s, b)
    ensures a == b
  {
    if s[0] == '*' {
      assert a == ReplaceStars(s, a)[..|a|] == ReplaceStars(s, b)[..|b|] == b;
    } else {
      assert ReplaceStars(s, a)[1..] == ReplaceStars(s[1..], a);
      assert ReplaceStars(s, b)[1..] == ReplaceStars(s[1..], b);
      FirstStarDecides(s[1..], a, b);
    }
  }

  lemma {:induction false} HasStar(s: string)
    ensures '*' in s <==> Stars(s) > 0
  {
    if s != "" {
      HasStar(s[1..]);
    }
  }

  lemma SameFactor(k: nat, a: nat, b: nat)
    requires k > 0 && k * a == k * b
    ensures a == b
  {
    assert k * (a - b) == k * a - k * b;
  }

  /** Different iterations get different values, with or without stars in the pattern. */
  lemma ValuesDiffer(pattern: string, i: int, j: int)
    requires i != j
    ensures GetValue(pattern, i) != GetValue(pattern, j)
  {
    var a, b := Itoa(i), Itoa(j);
    if GetValue(pattern, i) == GetValue(pattern, j) {
      if '*' in pattern {
        ReplacedLength(pattern, a);
        ReplacedLength(pattern, b);
        HasStar(pattern);
        SameFactor(Stars(pattern), |a|, |b|);
        FirstStarDecides(pattern, a, b);
      } else {
        assert a == (pattern + a)[|pattern|..] == (pattern + b)[|pattern|..] == b;
      }
      ItoaInjective(i, j);
    }
  }

  /** In every interleaving of the iteration engine no two launched iterations get the same value. */
  lemma LaunchedValuesDiffer(c: Iteration.Config, states: seq<Iteration.State>, actions: seq<Iteration.Action>,
                             pattern: string, k: nat, i: nat, j: nat)
    requires IterationRuns.Execution(c, states, actions) && k <= |actions|
    requires i < j < |states[k].workers|
    ensures GetValue(pattern, states[k].workers[i].index) != GetValue(pattern, states[k].workers[j].index)
  {
    IterationRuns.InvAlways(c, states, actions, k);
    assert states[k].workers[i].index == c.start + i && states[k].workers[j].index == c.start + j;
    ValuesDiffer(pattern, c.start + i, c.start + j);
  }

  // ---------------------------------------------------------------------------------------------
  // Where the index stands
  // ---------------------------------------------------------------------------------------------

  /** Without a star the index follows the pattern. */
  lemma IndexFollows(pattern: string, index: int)
    requires '*' !in pattern
    ensures GetValue(pattern, index) == pattern + Itoa(index)
  {
  }

  /** With stars the index stands for each of them, and what is between them stays. */
  lemma IndexReplacesStar(before: string, after: string, index: int)
    requires '*' !in before
    ensures GetValue(before + "*" + after, index)
         == before + Itoa(index) + if '*' in after then GetValue(after, index) else after
  {
    ReplacedUpToStar(before, after, Itoa(index));
    var pattern := before + "*" + after;
    assert pattern[|before|] == '*';
    if '*' !in after {
      NothingToReplace(after, Itoa(index));
    }
  }

  lemma {:induction false} ReplacedUpToStar(before: string, after: string, text: string)
    requires '*' !in before
    ensures ReplaceStars(before + "*" + after, text) == before + text + ReplaceStars(after, text)
    decreases |before|
  {
    var s := before + "*" + after;
    if before == "" {
      assert s[0] == '*' && s[1..] == after;
    } else {
      assert s[0] == before[0] && s[1..] == before[1..] + "*" + after;
      ReplacedUpToStar(before[1..], after, text);
    }
  }

  lemma {:induction false} NothingToReplace(s: string, text: string)
    requires '*' !in s
    ensures ReplaceStars(s, text) == s
  {
    if s != "" {
      NothingToReplace(s[1..], text);
    }
  }

  /** The number that digits denote, read from the left. */
  function ReadDecimal(s: string): Option<nat> {
    if s == "" || !('0' <= s[|s| - 1] <= '9') then None
    else
      var last := s[|s| - 1] as int - '0' as int;
      if |s| == 1 then Some(last)
      else
        var high := ReadDecimal(s[..|s| - 1]);
        if high.None? then None else Some(10 * high.value + last)
  }

  function Atoi(s: string): Option<int> {
    if s != "" && s[0] == '-' then
      var n := ReadDecimal(s[1..]);
      if n.None? then None else Some(0 - n.value as int)
    else
      var n := ReadDecimal(s);
      if n.None? then None else Some(n.value)
  }

  lemma {:induction false} DecimalReadsBack(n: nat)
    ensures ReadDecimal(Decimal(n)) == Some(n)
  {
    var s := Decimal(n);
    assert DIGITS[n % 10] as int == '0' as int + n % 10;
    if n >= 10 {
      DecimalReadsBack(n / 10);
      assert s[..|s| - 1] == Decimal(n / 10);
    }
  }

  /** The text of an index reads back as the index. */
  lemma IndexReadsBack(index: int)
    ensures Atoi(Itoa(index)) == Some(index)
  {
    var n: nat := if index < 0 then -index else index;
    DecimalReadsBack(n);
    StartsWithDigit(n);
    if index < 0 {
      assert Itoa(index)[1..] == Decimal(n);
    }
  }
}
