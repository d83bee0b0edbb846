/**
 The receiver of a configuration update, as the Hyperledger Fabric 1.4 documentation describes it in
 "Channel Configuration (configtx)", section "Configuration updates".

 It knows nothing about how an update is computed: it indexes the current configuration, the read set
 and the write set by path, checks the versions, overlays the update set on the current index, and
 rebuilds a tree from the root by following member names.
 */
module ConfigReceiver {
  import opened Wrappers
  import opened ConfigTree

  /** Every element of the read set exists in the current configuration at the given version. */
  predicate ReadSetHolds(current: map<Path, Item>, read: map<Path, Item>) {
    forall p | p in read :: p in current && current[p].version == read[p].version
  }

  /** The write-set elements that the read set does not hold at the same version. */
  function UpdateSet(read: map<Path, Item>, write: map<Path, Item>): map<Path, Item> {
    map p | p in write && !(p in read && read[p].version == write[p].version) :: write[p]
  }

  /** Every element of the update set increments its version by exactly one; a new one starts at 0. */
  predicate BumpsByOne(current: map<Path, Item>, update: map<Path, Item>) {
    forall p | p in update ::
      update[p].version == if p in current then Bump(current[p].version) else 0
  }

  predicate Accepts(current: map<Path, Item>, read: map<Path, Item>, write: map<Path, Item>) {
    ReadSetHolds(current, read) && BumpsByOne(current, UpdateSet(read, write))
  }

  function Under(at: seq<string>, p: Path): Path {
    Path(at + p.groups, p.leaf)
  }

  /** The group at path `at`, or None when a named member is missing from the index. */
  function Rebuild(m: map<Path, Item>, at: seq<string>): Option<Group>
    decreases set p | p in m && at <= p.groups
  {
    var self := Path(at, Self);
    if self !in m || !m[self].content.Members? then None else
    var own := m[self].content;
    var subgroups := map k | k in own.groups :: (Shrinks(m, at, k); Rebuild(m, at + [k]));
    if (exists n | n in own.policies ::
        !(Path(at, PolicyNamed(n)) in m && m[Path(at, PolicyNamed(n))].content.PolicyBody?))
       || (exists n | n in own.values ::
           !(Path(at, ValueNamed(n)) in m && m[Path(at, ValueNamed(n))].content.ValueBody?))
       || (exists k | k in own.groups :: subgroups[k].None?) then None
    else
      Some(Group(
        m[self].version, m[self].modPolicy,
        map n | n in own.policies ::
          var e := m[Path(at, PolicyNamed(n))]; Element(e.version, e.modPolicy, e.content.policy),
        map n | n in own.values ::
          var e := m[Path(at, ValueNamed(n))]; Element(e.version, e.modPolicy, e.content.bytes),
        map k | k in own.groups :: subgroups[k].value))
  }

  lemma Shrinks(m: map<Path, Item>, at: seq<string>, k: string)
    requires Path(at, Self) in m
    ensures (set p | p in m && at + [k] <= p.groups) < (set p | p in m && at <= p.groups)
  {
    var deeper, here := set p | p in m && at + [k] <= p.groups, set p | p in m && at <= p.groups;
    assert Path(at, Self) in here && Path(at, Self) !in deeper;
    forall p | p in deeper ensures p in here {
      assert at == (at + [k])[..|at|] == p.groups[..|at|];
    }
  }

  /** The configuration that follows from an update, or None when the receiver rejects it. */
  function Receive(current: Group, readSet: Group, writeSet: Group): Option<Group> {
    var now, read, write := Index(current), Index(readSet), Index(writeSet);
    if !Accepts(now, read, write) then None
    else Rebuild(now + UpdateSet(read, write), [])
  }

  /** Rebuilding recovers a tree from any index that agrees with it on the paths of the tree. */
  lemma {:induction false} RebuildAgrees(m: map<Path, Item>, t: Group, at: seq<string>)
    requires forall p :: Lookup(t, p).Some? ==> Under(at, p) in m && m[Under(at, p)] == Lookup(t, p).value
    ensures Rebuild(m, at) == Some(t)
    decreases t
  {
    assert Under(at, Path([], Self)) == Path(at, Self);
    assert Lookup(t, Path([], Self)) == Some(GroupOwn(t));
    forall n | n in t.policies
      ensures Path(at, PolicyNamed(n)) in m && m[Path(at, PolicyNamed(n))] == PolicyOwn(t.policies[n])
    {
      assert Under(at, Path([], PolicyNamed(n))) == Path(at, PolicyNamed(n));
      assert Lookup(t, Path([], PolicyNamed(n))) == Some(PolicyOwn(t.policies[n]));
    }
    forall n | n in t.values
      ensures Path(at, ValueNamed(n)) in m && m[Path(at, ValueNamed(n))] == ValueOwn(t.values[n])
    {
      assert Under(at, Path([], ValueNamed(n))) == Path(at, ValueNamed(n));
      assert Lookup(t, Path([], ValueNamed(n))) == Some(ValueOwn(t.values[n]));
    }
    forall k | k in t.groups ensures Rebuild(m, at + [k]) == Some(t.groups[k]) {
      forall p | Lookup(t.groups[k], p).Some?
        ensures Under(at + [k], p) in m && m[Under(at + [k], p)] == Lookup(t.groups[k], p).value
      {
        LookupBelow(t, k, p);
        assert Under(at, Below(k, p)) == Under(at + [k], p) by {
          assert at + ([k] + p.groups) == (at + [k]) + p.groups;
        }
      }
      RebuildAgrees(m, t.groups[k], at + [k]);
    }
    var r := Rebuild(m, at);
    assert r.Some?;
    assert r.value.policies == t.policies;
    assert r.value.values == t.values;
    assert r.value.groups == t.groups;
  }

  /** The index loses nothing: rebuilding from it gives the tree back. */
  lemma RebuildIndex(t: Group)
    ensures Rebuild(Index(t), []) == Some(t)
  {
    forall p | Lookup(t, p).Some? ensures Under([], p) == p {
    }
    RebuildAgrees(Index(t), t, []);
  }
}
