/**
 Exactly which elements the read set and the write set of an update hold, and what they say about elements
 that do not change.

 The sets are as small as the receiver's rules allow: an unchanged policy or value is mentioned only when the
 group that holds it changes itself, so that other updates of the same group are not disturbed.
 */
module ConfigSets {
  import opened Wrappers
  import opened ConfigTree
  import opened ConfigDiff
  import opened ConfigReceiver
  import opened ConfigUpdates

  const ROOT := Path([], Self)

  function SubgroupAt(g: Group, groups: seq<string>): Option<Group>
    decreases |groups|
  {
    if groups == [] then Some(g)
    else if groups[0] in g.groups then SubgroupAt(g.groups[groups[0]], groups[1..])
    else None
  }

  /** The path of the group that holds the element. */
  function ParentOf(p: Path): Path
    requires p != ROOT
  {
    if p.leaf.Self? then Path(p.groups[..|p.groups| - 1], Self) else Path(p.groups, Self)
  }

  /** The element of the updated tree is new or has other content of its own. */
  predicate OwnChanged(o: Group, u: Group, p: Path) {
    Lookup(u, p).Some? && Changed(Lookup(o, p), Lookup(u, p).value)
  }

  /** Both trees have the group, and something in it differs at some depth. */
  ghost predicate SubtreeDiffers(o: Group, u: Group, groups: seq<string>) {
    var before, after := SubgroupAt(o, groups), SubgroupAt(u, groups);
    before.Some? && after.Some? && !SameContent(before.value, after.value)
  }

  ghost predicate InWriteSet(o: Group, u: Group, p: Path) {
    && Lookup(u, p).Some?
    && (|| p == ROOT
        || OwnChanged(o, u, p)
        || (p.leaf.Self? && SubtreeDiffers(o, u, p.groups))
        || OwnChanged(o, u, ParentOf(p)))
  }

  ghost predicate InReadSet(o: Group, u: Group, p: Path) {
    && Lookup(o, p).Some?
    && if p.leaf.Self? then InWriteSet(o, u, p)
       else Lookup(u, p).Some? && !OwnChanged(o, u, p) && OwnChanged(o, u, ParentOf(p))
  }

  /** An element that only carries a version: no policy to modify it, and no body. */
  predicate IsBare(i: Item) {
    && i.modPolicy == ""
    && (i.content.PolicyBody? ==> i.content.policy.None?)
    && (i.content.ValueBody? ==> i.content.bytes.None?)
  }

  /** What read set `r` and write set `w` hold at a path, in terms of the two trees alone. */
  ghost predicate SetsExact(o: Group, u: Group, r: Group, w: Group, p: Path) {
    && (Lookup(w, p).Some? <==> InWriteSet(o, u, p))
    && (Lookup(r, p).Some? <==> InReadSet(o, u, p))
    && (Lookup(r, p).Some? ==> IsBare(Lookup(r, p).value))
    && (Lookup(w, p).Some? && !OwnChanged(o, u, p) ==> IsBare(Lookup(w, p).value))
  }

  ghost predicate JustParts(d: GroupDiff, policies: MapDiff<PolicyElement>, values: MapDiff<ValueElement>,
                            groups: MapDiff<Group>, all: bool)
  {
    && CarriesJust(d.readSet.policies, d.writeSet.policies, policies, all)
    && CarriesJust(d.readSet.values, d.writeSet.values, values, all)
    && CarriesJust(d.readSet.groups, d.writeSet.groups, groups, all)
    && d.readSet.modPolicy == ""
    && (!all ==> d.writeSet.modPolicy == "")
  }

  lemma CombinedJust(o: Group, u: Group, policies: MapDiff<PolicyElement>, values: MapDiff<ValueElement>,
                     groups: MapDiff<Group>, all: bool)
    requires all <==> policies.updatedMembers || values.updatedMembers || groups.updatedMembers
                      || o.modPolicy != u.modPolicy
    ensures JustParts(CombineDiffs(o, u, policies, values, groups), policies, values, groups, all)
  {
    var d := CombineDiffs(o, u, policies, values, groups);
    if !all && d.updated {
      assert JustParts(d, policies, values, groups, all);
    }
  }

  lemma DiffJust(o: Group, u: Group)
    ensures JustParts(DiffGroup(o, u), DiffElements(o.policies, u.policies), DiffElements(o.values, u.values),
                      DiffSubgroups(o.groups, u), !SameItem(GroupOwn(o), GroupOwn(u)))
  {
    var policies, values := DiffElements(o.policies, u.policies), DiffElements(o.values, u.values);
    GroupMembers(o.groups, u);
    CombinedJust(o, u, policies, values, DiffSubgroups(o.groups, u), !SameItem(GroupOwn(o), GroupOwn(u)));
  }

  lemma ElementsJust<P>(o: map<string, Element<P>>, u: map<string, Element<P>>,
                        r: map<string, Element<P>>, w: map<string, Element<P>>, all: bool, n: string)
    requires CarriesJust(r, w, DiffElements(o, u), all)
    ensures n in w <==> n in u && (n !in o || !SameElement(o[n], u[n]) || all)
    ensures n in r <==> n in u && n in o && SameElement(o[n], u[n]) && all
    ensures n in r ==> r[n] == Element(o[n].version, "", None)
    ensures n in w && n in o && SameElement(o[n], u[n]) ==> w[n] == Element(o[n].version, "", None)
  {
  }

  lemma SetsAtRoot(o: Group, u: Group, d: GroupDiff, leaf: Leaf, groups: MapDiff<Group>)
    requires JustParts(d, DiffElements(o.policies, u.policies), DiffElements(o.values, u.values), groups,
                       !SameItem(GroupOwn(o), GroupOwn(u)))
    ensures SetsExact(o, u, d.readSet, d.writeSet, Path([], leaf))
  {
    var all := !SameItem(GroupOwn(o), GroupOwn(u));
    assert OwnChanged(o, u, ROOT) <==> all;
    match leaf
    case Self =>
    case PolicyNamed(n) => ElementsJust(o.policies, u.policies, d.readSet.policies, d.writeSet.policies, all, n);
    case ValueNamed(n) => ElementsJust(o.values, u.values, d.readSet.values, d.writeSet.values, all, n);
  }

  /** Where the diff of a subgroup goes. */
  lemma SubgroupMember(o: Group, u: Group, k: string)
    ensures var m := DiffSubgroups(o.groups, u);
      var updated := k in u.groups && SubgroupDiff(o, u, k).updated;
      && (k in m.readSet <==> k in u.groups && k in o.groups && updated)
      && (k in m.writeSet <==> k in u.groups && (k !in o.groups || updated))
      && (k in m.sameSet <==> k in u.groups && k in o.groups && !updated)
  {
  }

  lemma SubgroupsJust(o: Group, u: Group, d: GroupDiff, all: bool, k: string)
    requires CarriesJust(d.readSet.groups, d.writeSet.groups, DiffSubgroups(o.groups, u), all)
    ensures k in d.writeSet.groups <==> k in u.groups && (k !in o.groups || SubgroupDiff(o, u, k).updated || all)
    ensures k in d.readSet.groups <==> k in u.groups && k in o.groups && (SubgroupDiff(o, u, k).updated || all)
    ensures k in u.groups ==> SubgroupPlaced(o, u, d, k, SubgroupDiff(o, u, k))
  {
    SubgroupMember(o, u, k);
    MembersJust(d.readSet.groups, d.writeSet.groups, DiffSubgroups(o.groups, u), all, k);
    SubgroupIsPlaced(o, u, d, k);
  }

  lemma MembersJust<T>(readSet: map<string, T>, writeSet: map<string, T>, m: MapDiff<T>, all: bool, k: string)
    requires CarriesJust(readSet, writeSet, m, all)
    ensures k in readSet <==> k in m.readSet || (all && k in m.sameSet)
    ensures k in writeSet <==> k in m.writeSet || (all && k in m.sameSet)
  {
  }

  lemma BelowParent(k: string, rest: Path)
    requires rest != ROOT
    ensures Below(k, rest) != ROOT && ParentOf(Below(k, rest)) == Below(k, ParentOf(rest))
  {
    var p := Below(k, rest);
    assert p.groups[0] == k;
    if rest.leaf.Self? {
      assert p.groups[..|p.groups| - 1] == [k] + rest.groups[..|rest.groups| - 1];
    }
  }

  lemma BelowSubgroup(g: Group, k: string, groups: seq<string>)
    ensures SubgroupAt(g, [k] + groups) == if k in g.groups then SubgroupAt(g.groups[k], groups) else None
  {
    assert ([k] + groups)[1..] == groups;
  }

  lemma LookupMissing(g: Group, k: string, rest: Path)
    requires k !in g.groups
    ensures Lookup(g, Below(k, rest)).None?
  {
    assert Below(k, rest).groups[0] == k;
  }

  lemma OwnChangedBelow(o: Group, u: Group, k: string, rest: Path)
    requires k in u.groups
    ensures OwnChanged(o, u, Below(k, rest))
        <==> if k in o.groups then OwnChanged(o.groups[k], u.groups[k], rest) else Lookup(u.groups[k], rest).Some?
  {
    LookupBelow(u, k, rest);
    if k in o.groups {
      LookupBelow(o, k, rest);
    } else {
      LookupMissing(o, k, rest);
    }
  }

  /** Inside a subgroup that both trees have, the question is about the two subgroups. */
  lemma SameQuestionBelow(o: Group, u: Group, k: string, rest: Path)
    requires k in o.groups && k in u.groups && rest != ROOT
    ensures InWriteSet(o, u, Below(k, rest)) <==> InWriteSet(o.groups[k], u.groups[k], rest)
    ensures InReadSet(o, u, Below(k, rest)) <==> InReadSet(o.groups[k], u.groups[k], rest)
  {
    BelowParent(k, rest);
    LookupBelow(o, k, rest);
    LookupBelow(u, k, rest);
    OwnChangedBelow(o, u, k, rest);
    OwnChangedBelow(o, u, k, ParentOf(rest));
    BelowSubgroup(o, k, rest.groups);
    BelowSubgroup(u, k, rest.groups);
  }

  /** In a new group everything is new. */
  lemma AllNewBelow(o: Group, u: Group, k: string, rest: Path)
    requires k !in o.groups && k in u.groups
    ensures InWriteSet(o, u, Below(k, rest)) <==> Lookup(u.groups[k], rest).Some?
    ensures !InReadSet(o, u, Below(k, rest))
    ensures rest != ROOT ==> (InWriteSet(EmptyGroup, u.groups[k], rest) <==> Lookup(u.groups[k], rest).Some?)
  {
    LookupBelow(u, k, rest);
    LookupMissing(o, k, rest);
    OwnChangedBelow(o, u, k, rest);
    assert Below(k, rest).groups[0] == k;
    if rest != ROOT {
      assert Lookup(EmptyGroup, rest).None?;
    }
  }

  /** The question about subgroup `k` itself. */
  lemma QuestionAtSubgroup(o: Group, u: Group, k: string)
    requires k in u.groups
    ensures Lookup(o, Below(k, ROOT)).Some? <==> k in o.groups
    ensures OwnChanged(o, u, Below(k, ROOT)) <==>
      (k in o.groups ==> !SameItem(GroupOwn(o.groups[k]), GroupOwn(u.groups[k])))
    ensures InWriteSet(o, u, Below(k, ROOT)) <==>
      || OwnChanged(o, u, Below(k, ROOT))
      || (k in o.groups && !SameContent(o.groups[k], u.groups[k]))
      || !SameItem(GroupOwn(o), GroupOwn(u))
  {
    var p := Below(k, ROOT);
    assert p.groups == [k] && p.groups[..0] == [];
    assert ParentOf(p) == ROOT;
    LookupBelow(u, k, ROOT);
    OwnChangedBelow(o, u, k, ROOT);
    BelowSubgroup(o, k, []);
    BelowSubgroup(u, k, []);
    if k in o.groups {
      LookupBelow(o, k, ROOT);
    } else {
      LookupMissing(o, k, ROOT);
    }
  }

  lemma SetsAtKept(o: Group, u: Group, d: GroupDiff, k: string, all: bool)
    requires k in u.groups && k in o.groups && (all <==> !SameItem(GroupOwn(o), GroupOwn(u)))
    requires CarriesJust(d.readSet.groups, d.writeSet.groups, DiffSubgroups(o.groups, u), all)
    ensures SetsExact(o, u, d.readSet, d.writeSet, Below(k, ROOT))
  {
    SubgroupsJust(o, u, d, all, k);
    QuestionAtSubgroup(o, u, k);
    SubgroupInBothSets(o, u, d, k);
  }

  lemma SetsAtNew(o: Group, u: Group, d: GroupDiff, k: string, all: bool)
    requires k in u.groups && k !in o.groups
    requires CarriesJust(d.readSet.groups, d.writeSet.groups, DiffSubgroups(o.groups, u), all)
    ensures SetsExact(o, u, d.readSet, d.writeSet, Below(k, ROOT))
  {
    SubgroupsJust(o, u, d, all, k);
    QuestionAtSubgroup(o, u, k);
    LookupBelow(u, k, ROOT);
    LookupMissing(d.readSet, k, ROOT);
    LookupBelow(d.writeSet, k, ROOT);
  }

  lemma SubgroupInBothSets(o: Group, u: Group, d: GroupDiff, k: string)
    requires k in o.groups && k in u.groups
    requires SubgroupPlaced(o, u, d, k, DiffGroup(o.groups[k], u.groups[k]))
    ensures DiffGroup(o.groups[k], u.groups[k]).updated <==> !SameContent(o.groups[k], u.groups[k])
    ensures SameContent(o.groups[k], u.groups[k]) ==> SameItem(GroupOwn(o.groups[k]), GroupOwn(u.groups[k]))
    ensures Lookup(d.writeSet, Below(k, ROOT)).Some? <==> k in d.writeSet.groups
    ensures Lookup(d.readSet, Below(k, ROOT)).Some? <==> k in d.readSet.groups
    ensures k in d.readSet.groups ==> IsBare(Lookup(d.readSet, Below(k, ROOT)).value)
    ensures k in d.writeSet.groups && !OwnChanged(o.groups[k], u.groups[k], ROOT) ==>
      IsBare(Lookup(d.writeSet, Below(k, ROOT)).value)
  {
    UpdatedIffDifferent(o.groups[k], u.groups[k]);
    DiffJust(o.groups[k], u.groups[k]);
    NotUpdatedIsEmpty(o.groups[k], u.groups[k]);
    assert Below(k, ROOT).groups[0] == k;
    if k in d.readSet.groups {
      LookupBelow(d.readSet, k, ROOT);
      LookupBelow(d.writeSet, k, ROOT);
    }
  }

  lemma SetsInKept(o: Group, u: Group, d: GroupDiff, k: string, sub: GroupDiff, rest: Path)
    requires k in o.groups && k in u.groups && rest != ROOT
    requires SubgroupPlaced(o, u, d, k, sub)
    requires SetsExact(o.groups[k], u.groups[k], sub.readSet, sub.writeSet, rest)
    requires !sub.updated ==> sub.readSet == sub.writeSet == EmptyGroup.(version := o.groups[k].version)
    ensures SetsExact(o, u, d.readSet, d.writeSet, Below(k, rest))
  {
    SameQuestionBelow(o, u, k, rest);
    OwnChangedBelow(o, u, k, rest);
    if k in d.readSet.groups {
      LookupBelow(d.readSet, k, rest);
      LookupBelow(d.writeSet, k, rest);
    } else {
      LookupMissing(d.readSet, k, rest);
      LookupMissing(d.writeSet, k, rest);
      assert Lookup(sub.writeSet, rest).None?;
    }
  }

  lemma SetsInNew(o: Group, u: Group, d: GroupDiff, k: string, sub: GroupDiff, rest: Path)
    requires k !in o.groups && k in u.groups && rest != ROOT
    requires SubgroupPlaced(o, u, d, k, sub)
    requires SetsExact(EmptyGroup, u.groups[k], sub.readSet, sub.writeSet, rest)
    ensures SetsExact(o, u, d.readSet, d.writeSet, Below(k, rest))
  {
    AllNewBelow(o, u, k, rest);
    OwnChangedBelow(o, u, k, rest);
    LookupBelow(d.writeSet, k, rest);
    LookupMissing(d.readSet, k, rest);
    assert Lookup(AsNewGroup(u.groups[k], sub.writeSet), rest) == Lookup(sub.writeSet, rest);
  }

  /** The sets hold exactly these elements, at every path. */
  lemma {:induction false} SetsAreExact(o: Group, u: Group, p: Path)
    ensures SetsExact(o, u, DiffGroup(o, u).readSet, DiffGroup(o, u).writeSet, p)
    decreases |p.groups|
  {
    var d := DiffGroup(o, u);
    DiffJust(o, u);
    if p.groups == [] {
      SetsAtRoot(o, u, d, p.leaf, DiffSubgroups(o.groups, u));
      return;
    }
    var k, rest := p.groups[0], Path(p.groups[1..], p.leaf);
    assert p == Below(k, rest);
    var all := !SameItem(GroupOwn(o), GroupOwn(u));
    SubgroupsJust(o, u, d, all, k);
    if k !in u.groups {
      assert Lookup(u, p).None? && Lookup(d.readSet, p).None? && Lookup(d.writeSet, p).None?;
    } else if rest == ROOT && k in o.groups {
      SetsAtKept(o, u, d, k, all);
    } else if rest == ROOT {
      SetsAtNew(o, u, d, k, all);
    } else {
      var before := if k in o.groups then o.groups[k] else EmptyGroup;
      SetsAreExact(before, u.groups[k], rest);
      NotUpdatedIsEmpty(before, u.groups[k]);
      if k in o.groups {
        SetsInKept(o, u, d, k, DiffGroup(before, u.groups[k]), rest);
      } else {
        SetsInNew(o, u, d, k, DiffGroup(before, u.groups[k]), rest);
      }
    }
  }

  /**
   The write set holds an element of the updated tree exactly when it is the root, is new or changed, is a
   group with a difference inside, or is a member of a group whose own content changed.
   */
  lemma WriteSetIsExact(o: Group, u: Group, p: Path)
    ensures p in Write(o, u) <==> InWriteSet(o, u, p)
    ensures p in Write(o, u) && !OwnChanged(o, u, p) ==> IsBare(Write(o, u)[p])
  {
    SetsAreExact(o, u, p);
  }

  /**
   The read set holds a group exactly when it is written and not new, and a policy or value exactly when it is
   unchanged in a group whose own content changed.  It only holds versions.
   */
  lemma ReadSetIsExact(o: Group, u: Group, p: Path)
    ensures p in Read(o, u) <==> InReadSet(o, u, p)
    ensures p in Read(o, u) ==> IsBare(Read(o, u)[p])
  {
    SetsAreExact(o, u, p);
  }

  /**
   Because the sets are so small, others may change the rest: a receiver whose configuration still has the read
   versions, and the original versions of what changes, accepts the update.
   */
  lemma AcceptedDespiteOthers(o: Group, u: Group, now: map<Path, Item>)
    requires forall p | InReadSet(o, u, p) :: p in now && now[p].version == Index(o)[p].version
    requires forall p | OwnChanged(o, u, p) ::
      (p in now <==> p in Index(o)) && (p in now ==> now[p].version == Index(o)[p].version)
    ensures Accepts(now, Read(o, u), Write(o, u))
  {
    forall p | p in Read(o, u) ensures p in now && now[p].version == Read(o, u)[p].version {
      ReadSetIsExact(o, u, p);
      ReadSetExists(o, u, p);
    }
    var update := UpdateSet(Read(o, u), Write(o, u));
    forall p | p in update ensures update[p].version == if p in now then Bump(now[p].version) else 0 {
      UpdateSetIsExact(o, u, p);
      assert OwnChanged(o, u, p);
    }
  }
}
