/**
 Channel configuration trees and their path index.

 A configuration is a tree of groups.  Every group, policy and value carries a version of its own
 and a modification policy.  Paths name the elements of a tree, so that two trees (or a tree and a
 partial tree such as a read set) can be compared element by element.
 */
module ConfigTree {
  import opened Wrappers

  const VERSIONS := 0x1_0000_0000_0000_0000

  /** The source keeps versions in an unsigned 64-bit integer. */
  type Version = v: nat | v < VERSIONS

  /** What `version + 1` computes in 64 bits. */
  function Bump(v: Version): Version {
    (v + 1) % VERSIONS
  }

  datatype Policy = Policy(policyType: int, content: seq<byte>)

  /** A policy entry (P is Policy) or a value entry (P is a byte string); an absent payload is nil. */
  datatype Element<P> = Element(version: Version, modPolicy: string, payload: Option<P>)

  type PolicyElement = Element<Policy>
  type ValueElement = Element<seq<byte>>

  datatype Group = Group(
    version: Version,
    modPolicy: string,
    policies: map<string, PolicyElement>,
    values: map<string, ValueElement>,
    groups: map<string, Group>)

  const EmptyGroup := Group(0, "", map[], map[], map[])

  /** Two elements that agree on everything but the version. */
  predicate SameElement<P(==)>(a: Element<P>, b: Element<P>) {
    a.modPolicy == b.modPolicy && a.payload == b.payload
  }

  /** Two trees that are equal ignoring versions at every depth. */
  ghost predicate SameContent(a: Group, b: Group)
    decreases b
  {
    && a.modPolicy == b.modPolicy
    && a.policies.Keys == b.policies.Keys
    && a.values.Keys == b.values.Keys
    && a.groups.Keys == b.groups.Keys
    && (forall n | n in b.policies :: SameElement(a.policies[n], b.policies[n]))
    && (forall n | n in b.values :: SameElement(a.values[n], b.values[n]))
    && (forall n | n in b.groups :: SameContent(a.groups[n], b.groups[n]))
  }

  // ---------------------------------------------------------------------------------------------
  // Paths and the index
  // ---------------------------------------------------------------------------------------------

  datatype Leaf = Self | PolicyNamed(name: string) | ValueNamed(name: string)

  /** The groups to walk through from the root, and which part of the last group is meant. */
  datatype Path = Path(groups: seq<string>, leaf: Leaf)

  /** What a path leads to, without its version and policy name.  A group's own content is its key sets. */
  datatype Content =
    | Members(policies: set<string>, values: set<string>, groups: set<string>)
    | PolicyBody(policy: Option<Policy>)
    | ValueBody(bytes: Option<seq<byte>>)

  datatype Item = Item(version: Version, modPolicy: string, content: Content)

  predicate SameItem(a: Item, b: Item) {
    a.modPolicy == b.modPolicy && a.content == b.content
  }

  function GroupOwn(g: Group): Item {
    Item(g.version, g.modPolicy, Members(g.policies.Keys, g.values.Keys, g.groups.Keys))
  }

  function PolicyOwn(e: PolicyElement): Item {
    Item(e.version, e.modPolicy, PolicyBody(e.payload))
  }

  function ValueOwn(e: ValueElement): Item {
    Item(e.version, e.modPolicy, ValueBody(e.payload))
  }

  function Below(k: string, p: Path): Path {
    Path([k] + p.groups, p.leaf)
  }

  function Lookup(g: Group, p: Path): Option<Item>
    decreases |p.groups|
  {
    if p.groups != [] then
      if p.groups[0] in g.groups then Lookup(g.groups[p.groups[0]], Path(p.groups[1..], p.leaf)) else None
    else match p.leaf
      case Self => Some(GroupOwn(g))
      case PolicyNamed(n) => if n in g.policies then Some(PolicyOwn(g.policies[n])) else None
      case ValueNamed(n) => if n in g.values then Some(ValueOwn(g.values[n])) else None
  }

  function Paths(g: Group): set<Path> {
    {Path([], Self)}
    + (set n | n in g.policies :: Path([], PolicyNamed(n)))
    + (set n | n in g.values :: Path([], ValueNamed(n)))
    + (set k, p | k in g.groups && p in Paths(g.groups[k]) :: Below(k, p))
  }

  lemma {:induction false} PathsAreFound(g: Group, p: Path)
    ensures p in Paths(g) <==> Lookup(g, p).Some?
    decreases |p.groups|
  {
    if p.groups != [] {
      var k, rest := p.groups[0], Path(p.groups[1..], p.leaf);
      assert Below(k, rest) == p;
      if k in g.groups {
        PathsAreFound(g.groups[k], rest);
      }
      forall k', p' | k' in g.groups && p' in Paths(g.groups[k']) && Below(k', p') == p
        ensures k' == k && p' == rest
      {
        assert Below(k', p').groups[0] == k' && Below(k', p').groups[1..] == p'.groups;
      }
    }
  }

  /** Every element of the tree, indexed by its path. */
  function Index(g: Group): (m: map<Path, Item>)
    ensures forall p :: (p in m <==> Lookup(g, p).Some?) && (p in m ==> Lookup(g, p) == Some(m[p]))
  {
    assert forall p :: p in Paths(g) <==> Lookup(g, p).Some? by {
      forall p { PathsAreFound(g, p); }
    }
    map p | p in Paths(g) :: Lookup(g, p).value
  }

  /** Equality ignoring versions is equality of every element ignoring its version. */
  lemma {:induction false} SameContentAt(a: Group, b: Group, p: Path)
    requires SameContent(a, b)
    ensures Lookup(a, p).Some? <==> Lookup(b, p).Some?
    ensures Lookup(a, p).Some? ==> SameItem(Lookup(a, p).value, Lookup(b, p).value)
    decreases |p.groups|
  {
    if p.groups != [] && p.groups[0] in b.groups {
      SameContentAt(a.groups[p.groups[0]], b.groups[p.groups[0]], Path(p.groups[1..], p.leaf));
    }
  }

  lemma {:induction false} SameEverywhereIsSameContent(a: Group, b: Group)
    requires forall p :: Lookup(a, p).Some? <==> Lookup(b, p).Some?
    requires forall p :: Lookup(a, p).Some? ==> SameItem(Lookup(a, p).value, Lookup(b, p).value)
    ensures SameContent(a, b)
    decreases b
  {
    assert SameItem(Lookup(a, Path([], Self)).value, Lookup(b, Path([], Self)).value);
    forall n | n in b.policies ensures SameElement(a.policies[n], b.policies[n]) {
      assert Lookup(a, Path([], PolicyNamed(n))) == Some(PolicyOwn(a.policies[n]));
    }
    forall n | n in b.values ensures SameElement(a.values[n], b.values[n]) {
      assert Lookup(a, Path([], ValueNamed(n))) == Some(ValueOwn(a.values[n]));
    }
    forall n | n in b.groups ensures SameContent(a.groups[n], b.groups[n]) {
      forall p
        ensures Lookup(a, Below(n, p)) == Lookup(a.groups[n], p) && Lookup(b, Below(n, p)) == Lookup(b.groups[n], p)
      {
        LookupBelow(a, n, p);
        LookupBelow(b, n, p);
      }
      SameEverywhereIsSameContent(a.groups[n], b.groups[n]);
    }
  }

  lemma LookupBelow(g: Group, k: string, p: Path)
    requires k in g.groups
    ensures Lookup(g, Below(k, p)) == Lookup(g.groups[k], p)
  {
    assert Below(k, p).groups[1..] == p.groups;
  }
}
