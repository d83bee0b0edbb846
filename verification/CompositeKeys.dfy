/**
 Composite ledger keys: a NUL, then every component followed by a NUL.  Creating one fails on components
 that contain U+0000 or U+10FFFF; splitting cuts at every NUL.
 */
module CompositeKeys {
  import opened Wrappers

  const NUL := '\0'
  const MAX_RUNE := '\U{10FFFF}'

  predicate ValidComponent(s: string) {
    NUL !in s && MAX_RUNE !in s
  }

  function Terminated(parts: seq<string>): string {
    if parts == [] then "" else parts[0] + [NUL] + Terminated(parts[1..])
  }

  function CompositeKey(parts: seq<string>): string {
    [NUL] + Terminated(parts)
  }

  function CreateCompositeKey(objectType: string, attributes: seq<string>): Option<string> {
    if ValidComponent(objectType) && forall i | 0 <= i < |attributes| :: ValidComponent(attributes[i]) then
      Some(CompositeKey([objectType] + attributes))
    else None
  }

  /** What a split returns: the object type and then the attributes. */
  function SplitCompositeKey(key: string): seq<string> {
    if key == "" then [] else Components(key[1..], "")
  }

  /** The components of `s`, when `head` is the part of the current component already read. */
  function Components(s: string, head: string): seq<string> {
    if s == "" then []
    else if s[0] == NUL then [head] + Components(s[1..], "")
    else Components(s[1..], head + [s[0]])
  }

  lemma {:induction false} ComponentRead(a: string, rest: string, head: string)
    requires NUL !in a
    ensures Components(a + [NUL] + rest, head) == [head + a] + Components(rest, "")
    decreases |a|
  {
    if a == "" {
      assert (a + [NUL] + rest)[1..] == rest && head + a == head;
    } else {
      assert (a + [NUL] + rest)[1..] == a[1..] + [NUL] + rest;
      assert a[0] in a && head + a == head + [a[0]] + a[1..];
      ComponentRead(a[1..], rest, head + [a[0]]);
    }
  }

  /** Splitting undoes creating, so a composite key determines its components. */
  lemma {:induction false} SplitUndoesCreate(parts: seq<string>)
    requires forall i | 0 <= i < |parts| :: NUL !in parts[i]
    ensures SplitCompositeKey(CompositeKey(parts)) == parts
    decreases |parts|
  {
    assert CompositeKey(parts)[1..] == Terminated(parts);
    if parts != [] {
      ComponentRead(parts[0], Terminated(parts[1..]), "");
      assert "" + parts[0] == parts[0];
      SplitUndoesCreate(parts[1..]);
      assert CompositeKey(parts[1..])[1..] == Terminated(parts[1..]);
      assert parts == [parts[0]] + parts[1..];
    }
  }

  lemma KeysAreInjective(a: seq<string>, b: seq<string>)
    requires forall i | 0 <= i < |a| :: NUL !in a[i]
    requires forall i | 0 <= i < |b| :: NUL !in b[i]
    requires CompositeKey(a) == CompositeKey(b)
    ensures a == b
  {
    SplitUndoesCreate(a);
    SplitUndoesCreate(b);
  }

  lemma TerminatedAppend(a: seq<string>, b: seq<string>)
    ensures Terminated(a + b) == Terminated(a) + Terminated(b)
    decreases |a|
  {
    if a == [] {
      assert a + b == b;
    } else {
      assert (a + b)[1..] == a[1..] + b;
      TerminatedAppend(a[1..], b);
    }
  }

  /** A key begins with a partial key exactly when its leading components are the partial ones. */
  lemma PrefixIsPartialKey(objectType: string, first: string, a: string, b: string)
    requires NUL !in objectType && NUL !in first && NUL !in a && NUL !in b
    ensures CompositeKey([objectType, first]) <= CompositeKey([objectType, a, b]) <==> a == first
  {
    if a == first {
      TerminatedAppend([objectType, first], [b]);
      assert [objectType, first] + [b] == [objectType, a, b];
      assert CompositeKey([objectType, a, b]) == CompositeKey([objectType, first]) + Terminated([b]);
    } else if CompositeKey([objectType, first]) <= CompositeKey([objectType, a, b]) {
      var partial, full := Terminated([objectType, first]), Terminated([objectType, a, b]);
      assert partial == CompositeKey([objectType, first])[1..] && full == CompositeKey([objectType, a, b])[1..];
      var rest := full[|partial|..];
      assert full == partial + rest;
      SplitUndoesCreate([objectType, a, b]);
      LeadingTwo(objectType, first, rest);
    }
  }

  lemma LeadingTwo(a: string, b: string, rest: string)
    requires NUL !in a && NUL !in b
    ensures var parts := Components(Terminated([a, b]) + rest, ""); |parts| >= 2 && parts[1] == b
  {
    assert [a, b][1..] == [b] && [b][1..] == [];
    assert Terminated([b][1..]) == "";
    var tail := Terminated([b]) + rest;
    assert tail == b + [NUL] + rest;
    assert Terminated([a, b]) + rest == a + [NUL] + tail;
    ComponentRead(a, tail, "");
    ComponentRead(b, rest, "");
    assert "" + b == b;
  }
}
