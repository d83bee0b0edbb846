/**
 A length-delimited encoding of numbers, texts and lists as bytes, in the manner of the protocol encoding.

 Encoded values can be told apart even when other bytes follow them.
 */
module Wire {
  import opened Wrappers

  /** A base-128 number: seven bits a byte, the lowest first, the high bit set on all but the last. */
  function Varint(n: nat): (b: seq<byte>)
    ensures b != []
  {
    if n < 0x80 then [n] else [0x80 + n % 0x80] + Varint(n / 0x80)
  }

  /** What a reader finds at the front of some bytes, and what follows it. */
  datatype Read<T> = Malformed | Got(value: T, rest: seq<byte>)

  function ReadVarint(b: seq<byte>): (r: Read<nat>)
    ensures r.Got? ==> |r.rest| < |b|
  {
    if b == [] then Malformed
    else if b[0] < 0x80 then Got(b[0], b[1..])
    else
      var high := ReadVarint(b[1..]);
      if high.Malformed? then Malformed else Got(b[0] - 0x80 + 0x80 * high.value, high.rest)
  }

  lemma {:induction false} VarintReads(n: nat, rest: seq<byte>)
    ensures ReadVarint(Varint(n) + rest) == Got(n, rest)
  {
    var b := Varint(n) + rest;
    if n < 0x80 {
      assert b[1..] == rest;
    } else {
      assert b[1..] == Varint(n / 0x80) + rest;
      VarintReads(n / 0x80, rest);
    }
  }

  lemma VarintSplits(m: nat, n: nat, x: seq<byte>, y: seq<byte>)
    requires Varint(m) + x == Varint(n) + y
    ensures m == n && x == y
  {
    VarintReads(m, x);
    VarintReads(n, y);
  }

  // ---------------------------------------------------------------------------------------------
  // Lists
  // ---------------------------------------------------------------------------------------------

  function Each<T>(xs: seq<T>, f: T -> seq<byte>): seq<byte> {
    if xs == [] then [] else f(xs[0]) + Each(xs[1..], f)
  }

  function Listed<T>(xs: seq<T>, f: T -> seq<byte>): seq<byte> {
    Varint(|xs|) + Each(xs, f)
  }

  /** An encoding that can be told apart whatever follows. */
  ghost predicate PrefixFree<T(!new)>(f: T -> seq<byte>) {
    forall a, b, x, y :: f(a) + x == f(b) + y ==> a == b && x == y
  }

  lemma {:induction false} EachSplits<T(!new)>(xs: seq<T>, ys: seq<T>, f: T -> seq<byte>, x: seq<byte>, y: seq<byte>)
    requires PrefixFree(f) && |xs| == |ys| && Each(xs, f) + x == Each(ys, f) + y
    ensures xs == ys && x == y
    decreases |xs|
  {
    if xs == [] {
      assert Each(xs, f) + x == x && Each(ys, f) + y == y;
    } else {
      var restX, restY := Each(xs[1..], f) + x, Each(ys[1..], f) + y;
      assert f(xs[0]) + restX == Each(xs, f) + x;
      assert f(ys[0]) + restY == Each(ys, f) + y;
      EachSplits(xs[1..], ys[1..], f, x, y);
      assert xs == [xs[0]] + xs[1..] && ys == [ys[0]] + ys[1..];
    }
  }

  lemma ListedSplits<T(!new)>(xs: seq<T>, ys: seq<T>, f: T -> seq<byte>, x: seq<byte>, y: seq<byte>)
    requires PrefixFree(f) && Listed(xs, f) + x == Listed(ys, f) + y
    ensures xs == ys && x == y
  {
    var restX, restY := Each(xs, f) + x, Each(ys, f) + y;
    assert Varint(|xs|) + restX == Listed(xs, f) + x;
    assert Varint(|ys|) + restY == Listed(ys, f) + y;
    VarintSplits(|xs|, |ys|, restX, restY);
    EachSplits(xs, ys, f, x, y);
  }

  // ---------------------------------------------------------------------------------------------
  // Texts
  // ---------------------------------------------------------------------------------------------

  function CodePoint(c: char): seq<byte> {
    Varint(c as int)
  }

  function Text(s: string): seq<byte> {
    Listed(s, CodePoint)
  }

  lemma TextIsPrefixFree()
    ensures PrefixFree(Text)
  {
    forall c: char, d: char, x: seq<byte>, y: seq<byte> | CodePoint(c) + x == CodePoint(d) + y
      ensures c == d && x == y
    {
      VarintSplits(c as int, d as int, x, y);
    }
    forall s: string, t: string, x: seq<byte>, y: seq<byte> | Text(s) + x == Text(t) + y ensures s == t && x == y {
      ListedSplits(s, t, CodePoint, x, y);
    }
  }

  lemma ListIsInjective<T(!new)>(f: T -> seq<byte>)
    requires PrefixFree(f)
    ensures forall xs, ys :: Listed(xs, f) == Listed(ys, f) ==> xs == ys
  {
    forall xs: seq<T>, ys: seq<T> | Listed(xs, f) == Listed(ys, f) ensures xs == ys {
      assert Listed(xs, f) + [] == Listed(ys, f) + [];
      ListedSplits(xs, ys, f, [], []);
    }
  }

  predicate IsCodePoint(n: nat) {
    n < 0xd800 || 0xe000 <= n < 0x11_0000
  }

  function ReadChars(n: nat, b: seq<byte>): (r: Read<string>)
    ensures r.Got? ==> |r.rest| <= |b|
    decreases n
  {
    if n == 0 then Got("", b)
    else
      var first := ReadVarint(b);
      if first.Malformed? || !IsCodePoint(first.value) then Malformed
      else
        var others := ReadChars(n - 1, first.rest);
        if others.Malformed? then Malformed else Got([first.value as char] + others.value, others.rest)
  }

  function ReadText(b: seq<byte>): (r: Read<string>)
    ensures r.Got? ==> |r.rest| < |b|
  {
    var n := ReadVarint(b);
    if n.Malformed? then Malformed else ReadChars(n.value, n.rest)
  }

  lemma {:induction false} CharsRead(s: string, rest: seq<byte>)
    ensures ReadChars(|s|, Each(s, CodePoint) + rest) == Got(s, rest)
  {
    var b := Each(s, CodePoint) + rest;
    if s == "" {
      assert b == rest;
    } else {
      assert b == Varint(s[0] as int) + (Each(s[1..], CodePoint) + rest);
      VarintReads(s[0] as int, Each(s[1..], CodePoint) + rest);
      CharsRead(s[1..], rest);
      assert [s[0]] + s[1..] == s;
    }
  }

  lemma TextReads(s: string, rest: seq<byte>)
    ensures ReadText(Text(s) + rest) == Got(s, rest)
  {
    assert Text(s) + rest == Varint(|s|) + (Each(s, CodePoint) + rest);
    VarintReads(|s|, Each(s, CodePoint) + rest);
    CharsRead(s, rest);
  }

  // ---------------------------------------------------------------------------------------------
  // Bytes
  // ---------------------------------------------------------------------------------------------

  function Blob(b: seq<byte>): seq<byte> {
    Varint(|b|) + b
  }

  function ReadBlob(b: seq<byte>): (r: Read<seq<byte>>)
    ensures r.Got? ==> |r.rest| < |b| && |r.value| < |b|
  {
    var n := ReadVarint(b);
    if n.Malformed? || n.value > |n.rest| then Malformed else Got(n.rest[..n.value], n.rest[n.value..])
  }

  lemma BlobReads(b: seq<byte>, rest: seq<byte>)
    ensures ReadBlob(Blob(b) + rest) == Got(b, rest)
  {
    assert Blob(b) + rest == Varint(|b|) + (b + rest);
    VarintReads(|b|, b + rest);
  }
}
