/**
 What a computed update means to its receiver: it is accepted, it contains exactly the elements that
 changed, and applying it yields the updated configuration, over one update and over whole runs.
 */
module ConfigUpdates {
  import opened Wrappers
  import opened ConfigTree
  import opened ConfigDiff
  import opened ConfigReceiver

  // ---------------------------------------------------------------------------------------------
  // When there is nothing to update
  // ---------------------------------------------------------------------------------------------

  /** The group comparison reports "not updated" exactly on trees that are equal ignoring versions. */
  lemma {:induction false} UpdatedIffDifferent(original: Group, updated: Group)
    ensures DiffGroup(original, updated).updated <==> !SameContent(original, updated)
    decreases updated
  {
    forall n | n in updated.groups && n in original.groups
      ensures DiffGroup(original.groups[n], updated.groups[n]).updated
          <==> !SameContent(original.groups[n], updated.groups[n])
    {
      UpdatedIffDifferent(original.groups[n], updated.groups[n]);
    }
    NoneWritten(original.policies, updated.policies);
    NoneWritten(original.values, updated.values);
    NoSubgroupWritten(original.groups, updated);
  }

  lemma NoSubgroupWritten(original: map<string, Group>, parent: Group)
    requires forall n | n in parent.groups && n in original ::
      DiffGroup(original[n], parent.groups[n]).updated <==> !SameContent(original[n], parent.groups[n])
    ensures var d := DiffSubgroups(original, parent);
      original.Keys == parent.groups.Keys ==>
      (d.writeSet == map[] && d.readSet == map[]
       <==> forall n | n in parent.groups :: SameContent(original[n], parent.groups[n]))
  {
    var d := DiffSubgroups(original, parent);
    if original.Keys != parent.groups.Keys {
    } else if n :| n in parent.groups && !SameContent(original[n], parent.groups[n]) {
      assert n in d.writeSet;
    } else {
      assert d.writeSet.Keys == {} && d.readSet.Keys == {};
    }
  }

  lemma NoneWritten<P>(original: map<string, Element<P>>, updated: map<string, Element<P>>)
    ensures original.Keys == updated.Keys ==>
      (DiffElements(original, updated).writeSet == map[]
       <==> forall n | n in updated :: SameElement(original[n], updated[n]))
  {
    var w := DiffElements(original, updated).writeSet;
    if original.Keys != updated.Keys {
    } else if n :| n in updated && !SameElement(original[n], updated[n]) {
      assert n in w;
    } else {
      assert w.Keys == {};
    }
  }

  // ---------------------------------------------------------------------------------------------
  // What the read set and the write set hold at one path
  // ---------------------------------------------------------------------------------------------

  /** The version an element of the updated tree gets, given what the original holds at its path. */
  function NextVersion(original: Option<Item>, updated: Item): Version {
    if original.None? then 0
    else if SameItem(original.value, updated) then original.value.version
    else Bump(original.value.version)
  }

  /** An element is new, or its own content differs from the original one. */
  predicate Changed(original: Option<Item>, updated: Item) {
    original.None? || !SameItem(original.value, updated)
  }

  /**
   The relation between the four trees at one path: original `o`, updated `u`, read set `r`, write set `w`.
   */
  ghost predicate DiffedAt(o: Option<Item>, u: Option<Item>, r: Option<Item>, w: Option<Item>) {
    && (r.Some? ==> w.Some? && o.Some? && r.value.version == o.value.version)
    && (w.Some? ==> u.Some?)
    && (u.Some? && Changed(o, u.value) ==> w == Some(u.value.(version := NextVersion(o, u.value))))
    && (u.Some? && !Changed(o, u.value) && w.Some? ==> r.Some? && w.value.version == r.value.version)
  }

  ghost predicate DiffedTreesAt(o: Group, u: Group, r: Group, w: Group, p: Path) {
    DiffedAt(Lookup(o, p), Lookup(u, p), Lookup(r, p), Lookup(w, p))
  }

  /** Both sets have the changed members, and the unchanged ones if and only if `all`. */
  ghost predicate CarriesJust<T>(readSet: map<string, T>, writeSet: map<string, T>, m: MapDiff<T>, all: bool) {
    && readSet == (if all then m.readSet + m.sameSet else m.readSet)
    && writeSet == (if all then m.writeSet + m.sameSet else m.writeSet)
  }

  ghost predicate Carries<T>(readSet: map<string, T>, writeSet: map<string, T>, m: MapDiff<T>) {
    CarriesJust(readSet, writeSet, m, false) || CarriesJust(readSet, writeSet, m, true)
  }

  ghost predicate CarriesAll(d: GroupDiff, policies: MapDiff<PolicyElement>, values: MapDiff<ValueElement>,
                             groups: MapDiff<Group>)
  {
    && Carries(d.readSet.policies, d.writeSet.policies, policies)
    && Carries(d.readSet.values, d.writeSet.values, values)
    && Carries(d.readSet.groups, d.writeSet.groups, groups)
  }

  /** Which members a map diff is about. */
  ghost predicate MembersOf<T>(m: MapDiff<T>, original: set<string>, updated: set<string>) {
    (m.updatedMembers <==> original != updated) && (m.writeSet + m.sameSet).Keys == updated
  }

  /** A group's own part of its diff. */
  ghost predicate OwnDiffed(o: Group, u: Group, d: GroupDiff) {
    && d.readSet.version == o.version
    && if SameItem(GroupOwn(o), GroupOwn(u)) then d.writeSet.version == o.version
       else GroupOwn(d.writeSet) == GroupOwn(u).(version := Bump(o.version))
  }

  lemma CombinedOwn(o: Group, u: Group, policies: MapDiff<PolicyElement>, values: MapDiff<ValueElement>,
                    groups: MapDiff<Group>)
    requires MembersOf(policies, o.policies.Keys, u.policies.Keys)
    requires MembersOf(values, o.values.Keys, u.values.Keys)
    requires MembersOf(groups, o.groups.Keys, u.groups.Keys)
    ensures OwnDiffed(o, u, CombineDiffs(o, u, policies, values, groups))
  {
  }

  lemma CombinedMembers(o: Group, u: Group, policies: MapDiff<PolicyElement>, values: MapDiff<ValueElement>,
                        groups: MapDiff<Group>)
    ensures CarriesAll(CombineDiffs(o, u, policies, values, groups), policies, values, groups)
  {
    var d := CombineDiffs(o, u, policies, values, groups);
    if !d.updated {
      assert CarriesAll(d, policies, values, groups);
    } else if policies.updatedMembers || values.updatedMembers || groups.updatedMembers || o.modPolicy != u.modPolicy {
      assert CarriesAll(d, policies, values, groups);
    }
  }

  lemma ElementMembers<P>(o: map<string, Element<P>>, u: map<string, Element<P>>)
    ensures MembersOf(DiffElements(o, u), o.Keys, u.Keys)
  {
  }

  lemma GroupMembers(o: map<string, Group>, parent: Group)
    ensures MembersOf(DiffSubgroups(o, parent), o.Keys, parent.groups.Keys)
  {
  }

  lemma DiffParts(o: Group, u: Group)
    ensures OwnDiffed(o, u, DiffGroup(o, u))
    ensures CarriesAll(DiffGroup(o, u), DiffElements(o.policies, u.policies), DiffElements(o.values, u.values),
                       DiffSubgroups(o.groups, u))
  {
    ElementMembers(o.policies, u.policies);
    ElementMembers(o.values, u.values);
    GroupMembers(o.groups, u);
    var policies, values := DiffElements(o.policies, u.policies), DiffElements(o.values, u.values);
    CombinedOwn(o, u, policies, values, DiffSubgroups(o.groups, u));
    CombinedMembers(o, u, policies, values, DiffSubgroups(o.groups, u));
  }

  /** The relation DiffedAt for one policy or value. */
  lemma ElementDiffed<P>(o: map<string, Element<P>>, u: map<string, Element<P>>,
                         r: map<string, Element<P>>, w: map<string, Element<P>>, n: string)
    requires Carries(r, w, DiffElements(o, u))
    ensures n in r ==> n in w && n in o && r[n].version == o[n].version
    ensures n in w ==> n in u
    ensures n in u && (n in o ==> !SameElement(o[n], u[n])) ==>
      n in w && w[n] == u[n].(version := if n in o then Bump(o[n].version) else 0)
    ensures n in u && n in o && SameElement(o[n], u[n]) && n in w ==> n in r && w[n].version == r[n].version
  {
  }

  lemma DiffAtRoot(o: Group, u: Group, d: GroupDiff, leaf: Leaf, groups: MapDiff<Group>)
    requires OwnDiffed(o, u, d)
    requires CarriesAll(d, DiffElements(o.policies, u.policies), DiffElements(o.values, u.values), groups)
    ensures DiffedTreesAt(o, u, d.readSet, d.writeSet, Path([], leaf))
  {
    match leaf
    case Self =>
    case PolicyNamed(n) => ElementDiffed(o.policies, u.policies, d.readSet.policies, d.writeSet.policies, n);
    case ValueNamed(n) => ElementDiffed(o.values, u.values, d.readSet.values, d.writeSet.values, n);
  }

  /** Where the diff `sub` of a subgroup `k` goes in the diff `d` of its parent. */
  ghost predicate SubgroupPlaced(o: Group, u: Group, d: GroupDiff, k: string, sub: GroupDiff) {
    var r, w := d.readSet.groups, d.writeSet.groups;
    if k !in u.groups then k !in r && k !in w
    else if k !in o.groups then k !in r && k in w && w[k] == AsNewGroup(u.groups[k], sub.writeSet)
    else if sub.updated then k in r && k in w && r[k] == sub.readSet && w[k] == sub.writeSet
    else (k in r <==> k in w) && (k in r ==> r[k] == w[k] == sub.readSet)
  }

  ghost function SubgroupDiff(o: Group, u: Group, k: string): GroupDiff
    requires k in u.groups
  {
    DiffGroup(if k in o.groups then o.groups[k] else EmptyGroup, u.groups[k])
  }

  lemma SubgroupIsPlaced(o: Group, u: Group, d: GroupDiff, k: string)
    requires Carries(d.readSet.groups, d.writeSet.groups, DiffSubgroups(o.groups, u))
    ensures k in u.groups ==> SubgroupPlaced(o, u, d, k, SubgroupDiff(o, u, k))
    ensures k !in u.groups ==> k !in d.readSet.groups && k !in d.writeSet.groups
  {
  }

  /** A subgroup on both sides: its own diff is in the sets, or it is unchanged. */
  lemma DiffAtKept(o: Group, u: Group, d: GroupDiff, k: string, sub: GroupDiff, rest: Path)
    requires k in o.groups && k in u.groups
    requires SubgroupPlaced(o, u, d, k, sub)
    requires DiffedTreesAt(o.groups[k], u.groups[k], sub.readSet, sub.writeSet, rest)
    requires !sub.updated ==> SameContent(o.groups[k], u.groups[k]) && sub.readSet == sub.writeSet
    ensures DiffedTreesAt(o, u, d.readSet, d.writeSet, Below(k, rest))
  {
    LookupBelow(o, k, rest);
    LookupBelow(u, k, rest);
    if k in d.readSet.groups {
      LookupBelow(d.readSet, k, rest);
      LookupBelow(d.writeSet, k, rest);
    } else {
      SameContentAt(o.groups[k], u.groups[k], rest);
    }
  }

  /** A new subgroup: it is written out whole, at version 0, and never read. */
  lemma DiffAtNew(o: Group, u: Group, d: GroupDiff, k: string, sub: GroupDiff, rest: Path)
    requires k !in o.groups && k in u.groups
    requires SubgroupPlaced(o, u, d, k, sub)
    requires OwnDiffed(EmptyGroup, u.groups[k], sub)
    requires sub.updated ==> !SameContent(EmptyGroup, u.groups[k])
    requires !sub.updated ==> sub.writeSet == EmptyGroup
    requires DiffedTreesAt(EmptyGroup, u.groups[k], sub.readSet, sub.writeSet, rest)
    ensures DiffedTreesAt(o, u, d.readSet, d.writeSet, Below(k, rest))
  {
    LookupBelow(u, k, rest);
    LookupBelow(d.writeSet, k, rest);
    assert Below(k, rest).groups[0] == k;
    if rest == Path([], Self) {
      assert GroupOwn(AsNewGroup(u.groups[k], sub.writeSet)) == GroupOwn(u.groups[k]).(version := 0);
    } else {
      assert Lookup(EmptyGroup, rest).None?;
      assert Lookup(AsNewGroup(u.groups[k], sub.writeSet), rest) == Lookup(sub.writeSet, rest);
    }
  }

  /** The relation DiffedAt holds at every path. */
  lemma {:induction false} DiffAt(o: Group, u: Group, p: Path)
    ensures DiffedTreesAt(o, u, DiffGroup(o, u).readSet, DiffGroup(o, u).writeSet, p)
    decreases |p.groups|
  {
    var d := DiffGroup(o, u);
    DiffParts(o, u);
    if p.groups == [] {
      DiffAtRoot(o, u, d, p.leaf, DiffSubgroups(o.groups, u));
      return;
    }
    var k, rest := p.groups[0], Path(p.groups[1..], p.leaf);
    assert p == Below(k, rest);
    SubgroupIsPlaced(o, u, d, k);
    if k in u.groups {
      var before := if k in o.groups then o.groups[k] else EmptyGroup;
      DiffAt(before, u.groups[k], rest);
      UpdatedIffDifferent(before, u.groups[k]);
      NotUpdatedIsEmpty(before, u.groups[k]);
      if k in o.groups {
        DiffAtKept(o, u, d, k, DiffGroup(before, u.groups[k]), rest);
      } else {
        DiffParts(EmptyGroup, u.groups[k]);
        DiffAtNew(o, u, d, k, DiffGroup(before, u.groups[k]), rest);
      }
    }
  }

  lemma NotUpdatedIsEmpty(o: Group, u: Group)
    ensures var d := DiffGroup(o, u);
      !d.updated ==> d.readSet == d.writeSet == EmptyGroup.(version := o.version)
  {
  }

  // ---------------------------------------------------------------------------------------------
  // One update
  // ---------------------------------------------------------------------------------------------

  ghost function Entry(m: map<Path, Item>, p: Path): Option<Item> {
    if p in m then Some(m[p]) else None
  }

  ghost predicate DiffedIndexesAt(o: map<Path, Item>, u: map<Path, Item>, r: map<Path, Item>, w: map<Path, Item>,
                                  p: Path)
  {
    DiffedAt(Entry(o, p), Entry(u, p), Entry(r, p), Entry(w, p))
  }

  ghost function Read(o: Group, u: Group): map<Path, Item> {
    Index(DiffGroup(o, u).readSet)
  }

  ghost function Write(o: Group, u: Group): map<Path, Item> {
    Index(DiffGroup(o, u).writeSet)
  }

  lemma IndexesDiffed(o: Group, u: Group, p: Path)
    ensures DiffedIndexesAt(Index(o), Index(u), Read(o, u), Write(o, u), p)
  {
    DiffAt(o, u, p);
    var d := DiffGroup(o, u);
    EntryIsLookup(o, p);
    EntryIsLookup(u, p);
    EntryIsLookup(d.readSet, p);
    EntryIsLookup(d.writeSet, p);
  }

  lemma EntryIsLookup(g: Group, p: Path)
    ensures Entry(Index(g), p) == Lookup(g, p)
  {
  }

  /** Every read-set element exists in the original at its version, and is written too. */
  lemma ReadSetExists(o: Group, u: Group, p: Path)
    ensures p in Read(o, u) ==> p in Write(o, u) && p in Index(o) && Read(o, u)[p].version == Index(o)[p].version
  {
    IndexesDiffed(o, u, p);
    SetsAt(Index(o), Index(u), Read(o, u), Write(o, u), p);
  }

  /** Every write-set element is at its read-set version, at the original version plus one, or new and at 0. */
  lemma WrittenVersions(o: Group, u: Group, p: Path)
    ensures p in Write(o, u) ==>
      var v := Write(o, u)[p].version;
      || (p in Read(o, u) && v == Read(o, u)[p].version)
      || (p in Index(o) && v == Bump(Index(o)[p].version))
      || (p !in Index(o) && v == 0)
  {
    IndexesDiffed(o, u, p);
    SetsAt(Index(o), Index(u), Read(o, u), Write(o, u), p);
  }

  lemma SetsAt(o: map<Path, Item>, u: map<Path, Item>, r: map<Path, Item>, w: map<Path, Item>, p: Path)
    requires DiffedIndexesAt(o, u, r, w, p)
    ensures p in r ==> p in w && p in o && r[p].version == o[p].version
    ensures p in w ==>
      || (p in r && w[p].version == r[p].version)
      || (p in o && w[p].version == Bump(o[p].version))
      || (p !in o && w[p].version == 0)
  {
  }

  /**
   The update set is exact: a path of the updated tree is in it if and only if it is new or its own
   content changed, it then holds the updated content, and no path that was deleted is ever written.
   */
  lemma UpdateSetIsExact(o: Group, u: Group, p: Path)
    ensures p in UpdateSet(Read(o, u), Write(o, u))
        <==> p in Index(u) && (p !in Index(o) || !SameItem(Index(o)[p], Index(u)[p]))
    ensures p in UpdateSet(Read(o, u), Write(o, u)) ==>
      UpdateSet(Read(o, u), Write(o, u))[p]
      == Index(u)[p].(version := if p in Index(o) then Bump(Index(o)[p].version) else 0)
    ensures p in Write(o, u) ==> p in Index(u)
  {
    IndexesDiffed(o, u, p);
    DeltaAt(Index(o), Index(u), Read(o, u), Write(o, u), p);
  }

  lemma DeltaAt(o: map<Path, Item>, u: map<Path, Item>, r: map<Path, Item>, w: map<Path, Item>, p: Path)
    requires DiffedIndexesAt(o, u, r, w, p)
    ensures p in UpdateSet(r, w) <==> p in u && Changed(Entry(o, p), u[p])
    ensures p in UpdateSet(r, w) ==>
      UpdateSet(r, w)[p] == u[p].(version := if p in o then Bump(o[p].version) else 0)
    ensures p in w ==> p in u
  {
  }

  /** What the receiver makes of such sets, before it rebuilds the tree. */
  lemma DeltaApplies(o: map<Path, Item>, u: map<Path, Item>, r: map<Path, Item>, w: map<Path, Item>)
    requires forall p :: DiffedIndexesAt(o, u, r, w, p)
    ensures Accepts(o, r, w)
    ensures forall p :: p in u ==>
      Entry(o + UpdateSet(r, w), p) == Some(u[p].(version := NextVersion(Entry(o, p), u[p])))
  {
    forall p | p in r ensures p in o && o[p].version == r[p].version {
      assert DiffedIndexesAt(o, u, r, w, p);
    }
    forall p | p in UpdateSet(r, w)
      ensures UpdateSet(r, w)[p].version == if p in o then Bump(o[p].version) else 0
    {
      DeltaAt(o, u, r, w, p);
    }
    forall p | p in u
      ensures Entry(o + UpdateSet(r, w), p) == Some(u[p].(version := NextVersion(Entry(o, p), u[p])))
    {
      DeltaAt(o, u, r, w, p);
    }
  }

  /** The updated tree with the version a receiver assigns to every element. */
  function Target(o: Option<Group>, u: Group): Group
    decreases u
  {
    Group(
      NextVersion(if o.Some? then Some(GroupOwn(o.value)) else None, GroupOwn(u)),
      u.modPolicy,
      map n | n in u.policies :: u.policies[n].(version :=
        NextVersion(if o.Some? && n in o.value.policies then Some(PolicyOwn(o.value.policies[n])) else None,
                    PolicyOwn(u.policies[n]))),
      map n | n in u.values :: u.values[n].(version :=
        NextVersion(if o.Some? && n in o.value.values then Some(ValueOwn(o.value.values[n])) else None,
                    ValueOwn(u.values[n]))),
      map k | k in u.groups ::
        Target(if o.Some? && k in o.value.groups then Some(o.value.groups[k]) else None, u.groups[k]))
  }

  lemma {:induction false} TargetAt(o: Option<Group>, u: Group, p: Path)
    ensures var before := if o.Some? then Lookup(o.value, p) else None;
      Lookup(Target(o, u), p)
      == if Lookup(u, p).None? then None
         else Some(Lookup(u, p).value.(version := NextVersion(before, Lookup(u, p).value)))
    decreases |p.groups|
  {
    if p.groups == [] {
      var t := Target(o, u);
      assert t.policies.Keys == u.policies.Keys && t.values.Keys == u.values.Keys && t.groups.Keys == u.groups.Keys;
    } else if p.groups[0] in u.groups {
      var k := p.groups[0];
      TargetAt(if o.Some? && k in o.value.groups then Some(o.value.groups[k]) else None, u.groups[k],
               Path(p.groups[1..], p.leaf));
    }
  }

  lemma TargetContent(o: Group, u: Group)
    ensures SameContent(Target(Some(o), u), u)
  {
    forall p
      ensures Lookup(Target(Some(o), u), p).Some? <==> Lookup(u, p).Some?
      ensures Lookup(u, p).Some? ==> SameItem(Lookup(Target(Some(o), u), p).value, Lookup(u, p).value)
    {
      TargetAt(Some(o), u, p);
    }
    SameEverywhereIsSameContent(Target(Some(o), u), u);
  }

  /**
   The central law: the receiver accepts the computed sets, and the configuration it ends up with is the
   updated one, equal to it ignoring versions at every depth.
   */
  lemma UpdateReachesTarget(o: Group, u: Group)
    ensures Receive(o, DiffGroup(o, u).readSet, DiffGroup(o, u).writeSet) == Some(Target(Some(o), u))
    ensures SameContent(Target(Some(o), u), u)
  {
    forall p {
      IndexesDiffed(o, u, p);
    }
    DeltaApplies(Index(o), Index(u), Read(o, u), Write(o, u));
    OverlayRebuilds(o, u, UpdateSet(Read(o, u), Write(o, u)));
    TargetContent(o, u);
  }

  lemma OverlayRebuilds(o: Group, u: Group, delta: map<Path, Item>)
    requires forall p :: p in Index(u) ==>
      Entry(Index(o) + delta, p) == Some(Index(u)[p].(version := NextVersion(Entry(Index(o), p), Index(u)[p])))
    ensures Rebuild(Index(o) + delta, []) == Some(Target(Some(o), u))
  {
    var m, t := Index(o) + delta, Target(Some(o), u);
    forall p | Lookup(t, p).Some?
      ensures Under([], p) in m && m[Under([], p)] == Lookup(t, p).value
    {
      assert Under([], p) == p;
      TargetAt(Some(o), u, p);
      EntryIsLookup(u, p);
      EntryIsLookup(o, p);
      assert Entry(m, p) == Lookup(t, p);
    }
    RebuildAgrees(m, t, []);
  }

  /** Compute reports "no differences" exactly on trees equal ignoring versions, and otherwise an update that works. */
  lemma ComputeIsSound(original: Config, updated: Config)
    ensures Computed(original, updated).NoOriginalGroup? <==> original.channelGroup.None?
    ensures Computed(original, updated).NoUpdatedGroup? <==> original.channelGroup.Some? && updated.channelGroup.None?
    ensures Computed(original, updated).NoDifferences? <==>
      original.channelGroup.Some? && updated.channelGroup.Some?
      && SameContent(original.channelGroup.value, updated.channelGroup.value)
    ensures var c := Computed(original, updated);
      c.Update? ==>
      var r := Receive(original.channelGroup.value, c.update.readSet, c.update.writeSet);
      r.Some? && SameContent(r.value, updated.channelGroup.value)
      && Computed(Config(r), updated).NoDifferences?
  {
    if original.channelGroup.Some? && updated.channelGroup.Some? {
      var o, u := original.channelGroup.value, updated.channelGroup.value;
      UpdatedIffDifferent(o, u);
      UpdateReachesTarget(o, u);
      UpdatedIffDifferent(Target(Some(o), u), u);
    }
  }

  // ---------------------------------------------------------------------------------------------
  // Runs of updates
  // ---------------------------------------------------------------------------------------------

  /** One round: compute an update towards `target` and submit it; without differences nothing is submitted. */
  function Step(current: Group, target: Group): Option<Group> {
    match Computed(Config(Some(current)), Config(Some(target)))
    case Update(update) => Receive(current, update.readSet, update.writeSet)
    case _ => Some(current)
  }

  ghost predicate IsRun(configs: seq<Group>, targets: seq<Group>) {
    && |configs| == |targets| + 1
    && forall i {:trigger targets[i]} | 0 <= i < |targets| :: Step(configs[i], targets[i]) == Some(configs[i + 1])
  }

  /** No round is ever refused. */
  lemma StepSucceeds(current: Group, target: Group)
    ensures Step(current, target).Some?
  {
    UpdateReachesTarget(current, target);
  }

  /** Every round reaches its target. */
  lemma StepReachesTarget(current: Group, target: Group, next: Group)
    requires Step(current, target) == Some(next)
    ensures SameContent(next, target)
  {
    UpdateReachesTarget(current, target);
    UpdatedIffDifferent(current, target);
  }

  /** What a round leaves at a path: the target's element, at the version that its change calls for. */
  ghost function Expected(current: Group, target: Group, p: Path): Option<Item> {
    var item := Lookup(target, p);
    if item.None? then None else Some(item.value.(version := NextVersion(Lookup(current, p), item.value)))
  }

  /** Every path holds what is expected after a round, and no other path exists: nothing is lost or resurrected. */
  lemma StepIsExact(current: Group, target: Group, next: Group, p: Path)
    requires Step(current, target) == Some(next)
    ensures Lookup(next, p) == Expected(current, target, p)
  {
    UpdateReachesTarget(current, target);
    UpdatedIffDifferent(current, target);
    TargetAt(Some(current), target, p);
    if SameContent(current, target) {
      SameContentAt(current, target, p);
    }
  }

  /** The successive states of one element. */
  ghost function History(configs: seq<Group>, p: Path): seq<Item>
    requires forall c | c in configs :: Lookup(c, p).Some?
  {
    seq(|configs|, i requires 0 <= i < |configs| => Lookup(configs[i], p).value)
  }

  /** In how many steps of a history the content changed. */
  ghost function Changes(history: seq<Item>): nat {
    if |history| < 2 then 0
    else (if SameItem(history[0], history[1]) then 0 else 1) + Changes(history[1..])
  }

  /** The version of state `i + 1` follows from state `i`. */
  ghost predicate MovesAt(history: seq<Item>, i: nat) {
    i + 1 < |history| ==> history[i + 1].version == NextVersion(Some(history[i]), history[i + 1])
  }

  lemma {:induction false} VersionsFollowHistory(history: seq<Item>)
    requires history != []
    requires forall i: nat :: MovesAt(history, i)
    ensures history[|history| - 1].version == (history[0].version + Changes(history)) % VERSIONS
  {
    if |history| > 1 {
      assert MovesAt(history, 0);
      forall i: nat ensures MovesAt(history[1..], i) {
        assert MovesAt(history, i + 1);
      }
      VersionsFollowHistory(history[1..]);
    }
  }

  /**
   Over any run of updates, an element present in every configuration ends with its initial version plus
   the number of rounds that changed its content.
   */
  lemma VersionsCountChanges(configs: seq<Group>, targets: seq<Group>, p: Path)
    requires IsRun(configs, targets)
    requires forall c | c in configs :: Lookup(c, p).Some?
    ensures var h := History(configs, p);
      h[|targets|].version == (h[0].version + Changes(h)) % VERSIONS
  {
    var h := History(configs, p);
    forall i: nat ensures MovesAt(h, i) {
      if i + 1 < |h| {
        RoundMovesVersion(configs[i], targets[i], configs[i + 1], p);
      }
    }
    VersionsFollowHistory(h);
  }

  lemma RoundMovesVersion(current: Group, target: Group, next: Group, p: Path)
    requires Step(current, target) == Some(next)
    requires Lookup(current, p).Some? && Lookup(next, p).Some?
    ensures Lookup(next, p).value.version == NextVersion(Lookup(current, p), Lookup(next, p).value)
  {
    StepIsExact(current, target, next, p);
  }
}
