/**
 Computing a configuration update: the versioned read set and write set that turn an original
 configuration into an updated one.

 Each method follows the loops of the source; the function of the same meaning beside it says what
 the loops compute, and the properties are proved about that function in module ConfigUpdates.
 */
module ConfigDiff {
  import opened Wrappers
  import opened ConfigTree

  datatype MapDiff<T> = MapDiff(
    readSet: map<string, T>,
    writeSet: map<string, T>,
    sameSet: map<string, T>,
    updatedMembers: bool)

  datatype GroupDiff = GroupDiff(readSet: Group, writeSet: Group, updated: bool)

  datatype Config = Config(channelGroup: Option<Group>)

  datatype ConfigUpdate = ConfigUpdate(readSet: Group, writeSet: Group)

  datatype ComputeResult = Update(update: ConfigUpdate) | NoOriginalGroup | NoUpdatedGroup | NoDifferences

  // ---------------------------------------------------------------------------------------------
  // What the diff is
  // ---------------------------------------------------------------------------------------------

  function DiffElements<P(==)>(original: map<string, Element<P>>, updated: map<string, Element<P>>)
    : MapDiff<Element<P>>
  {
    MapDiff(
      map[],
      map n | n in updated && (n in original ==> !SameElement(original[n], updated[n])) ::
        Element(if n in original then Bump(original[n].version) else 0, updated[n].modPolicy, updated[n].payload),
      map n | n in original && n in updated && SameElement(original[n], updated[n]) ::
        Element(original[n].version, "", None),
      original.Keys != updated.Keys)
  }

  /** The subgroups of `parent`, compared with `original`. */
  function DiffSubgroups(original: map<string, Group>, parent: Group): MapDiff<Group>
    decreases parent, 0
  {
    var kept := set n | n in parent.groups && n in original;
    var changed := set n | n in kept && DiffGroup(original[n], parent.groups[n]).updated;
    MapDiff(
      map n | n in changed :: DiffGroup(original[n], parent.groups[n]).readSet,
      map n | n in parent.groups.Keys && (n in original ==> n in changed) ::
        if n in original then DiffGroup(original[n], parent.groups[n]).writeSet
        else AsNewGroup(parent.groups[n], DiffGroup(EmptyGroup, parent.groups[n]).writeSet),
      map n | n in kept - changed :: DiffGroup(original[n], parent.groups[n]).readSet,
      original.Keys != parent.groups.Keys)
  }

  function AsNewGroup(updated: Group, writeSet: Group): Group {
    Group(0, updated.modPolicy, writeSet.policies, writeSet.values, writeSet.groups)
  }

  function DiffGroup(original: Group, updated: Group): GroupDiff
    decreases updated, 1
  {
    CombineDiffs(original, updated,
                 DiffElements(original.policies, updated.policies),
                 DiffElements(original.values, updated.values),
                 DiffSubgroups(original.groups, updated))
  }

  function CombineDiffs(original: Group, updated: Group, policies: MapDiff<PolicyElement>,
                        values: MapDiff<ValueElement>, groups: MapDiff<Group>): GroupDiff
  {
    if policies.updatedMembers || values.updatedMembers || groups.updatedMembers
       || original.modPolicy != updated.modPolicy then
      GroupDiff(
        Group(original.version, "", policies.readSet + policies.sameSet,
              values.readSet + values.sameSet, groups.readSet + groups.sameSet),
        Group(Bump(original.version), updated.modPolicy, policies.writeSet + policies.sameSet,
              values.writeSet + values.sameSet, groups.writeSet + groups.sameSet),
        true)
    else if policies.readSet == map[] && policies.writeSet == map[] && values.readSet == map[]
            && values.writeSet == map[] && groups.readSet == map[] && groups.writeSet == map[] then
      GroupDiff(EmptyGroup.(version := original.version), EmptyGroup.(version := original.version), false)
    else
      GroupDiff(
        Group(original.version, "", policies.readSet, values.readSet, groups.readSet),
        Group(original.version, "", policies.writeSet, values.writeSet, groups.writeSet),
        true)
  }

  // ---------------------------------------------------------------------------------------------
  // How the source computes it
  // ---------------------------------------------------------------------------------------------

  /** `m` is the part of `whole` under the keys visited so far. */
  ghost predicate Visited<T>(m: map<string, T>, whole: map<string, T>, keys: set<string>) {
    m.Keys == whole.Keys * keys && forall n | n in m :: m[n] == whole[n]
  }

  lemma VisitedStep<T>(m: map<string, T>, whole: map<string, T>, keys: set<string>, n: string)
    requires Visited(m, whole, keys)
    ensures n in whole ==> Visited(m[n := whole[n]], whole, keys + {n})
    ensures n !in whole ==> Visited(m, whole, keys + {n})
  {
  }

  lemma VisitedAll<T>(m: map<string, T>, whole: map<string, T>, keys: set<string>)
    requires Visited(m, whole, keys) && whole.Keys <= keys
    ensures m == whole
  {
  }

  method ComputeElementsMapUpdate<P(==)>(original: map<string, Element<P>>, updated: map<string, Element<P>>)
    returns (d: MapDiff<Element<P>>)
    ensures d == DiffElements(original, updated)
  {
    ghost var e := DiffElements(original, updated);
    ghost var done := {};
    var writeSet: map<string, Element<P>>, sameSet: map<string, Element<P>>, updatedMembers := map[], map[], false;
    var todo := original.Keys;
    while todo != {}
      invariant todo !! done && todo + done == original.Keys
      invariant Visited(writeSet, e.writeSet, done) && Visited(sameSet, e.sameSet, done)
      invariant updatedMembers <==> !(done <= updated.Keys)
      decreases todo
    {
      var n :| n in todo;
      VisitedStep(writeSet, e.writeSet, done, n);
      VisitedStep(sameSet, e.sameSet, done, n);
      todo, done := todo - {n}, done + {n};
      if n !in updated {
        updatedMembers := true;
      } else if SameElement(original[n], updated[n]) {
        sameSet := sameSet[n := Element(original[n].version, "", None)];
      } else {
        writeSet := writeSet[n := Element(Bump(original[n].version), updated[n].modPolicy, updated[n].payload)];
      }
    }
    VisitedAll(sameSet, e.sameSet, done);
    todo := updated.Keys;
    while todo != {}
      invariant todo <= updated.Keys <= todo + done
      invariant original.Keys <= done
      invariant Visited(writeSet, e.writeSet, done)
      invariant updatedMembers <==> !(original.Keys <= updated.Keys && updated.Keys - todo <= original.Keys)
      decreases todo
    {
      var n :| n in todo;
      todo := todo - {n};
      if n !in original {
        VisitedStep(writeSet, e.writeSet, done, n);
        done := done + {n};
        updatedMembers := true;
        writeSet := writeSet[n := Element(0, updated[n].modPolicy, updated[n].payload)];
      }
    }
    VisitedAll(writeSet, e.writeSet, done);
    d := MapDiff(map[], writeSet, sameSet, updatedMembers);
  }

  method ComputeGroupsMapUpdate(original: map<string, Group>, parent: Group) returns (d: MapDiff<Group>)
    ensures d == DiffSubgroups(original, parent)
    decreases parent, 0
  {
    var readSet, writeSet, sameSet, dropped := CompareSubgroups(original, parent);
    VisitedAll(readSet, DiffSubgroups(original, parent).readSet, original.Keys);
    VisitedAll(sameSet, DiffSubgroups(original, parent).sameSet, original.Keys);
    var all, added := AddNewSubgroups(original, parent, writeSet);
    d := MapDiff(readSet, all, sameSet, dropped || added);
  }

  /** What the loop over the original subgroups has filled in once it visited `done`. */
  ghost predicate Compared(e: MapDiff<Group>, done: set<string>, readSet: map<string, Group>,
                           writeSet: map<string, Group>, sameSet: map<string, Group>)
  {
    Visited(readSet, e.readSet, done) && Visited(writeSet, e.writeSet, done) && Visited(sameSet, e.sameSet, done)
  }

  lemma ComparedStep(original: map<string, Group>, parent: Group, done: set<string>, n: string,
                     readSet: map<string, Group>, writeSet: map<string, Group>, sameSet: map<string, Group>)
    requires Compared(DiffSubgroups(original, parent), done, readSet, writeSet, sameSet)
    requires n in original
    ensures var e := DiffSubgroups(original, parent);
      if n !in parent.groups then Compared(e, done + {n}, readSet, writeSet, sameSet)
      else var g := DiffGroup(original[n], parent.groups[n]);
        if g.updated then Compared(e, done + {n}, readSet[n := g.readSet], writeSet[n := g.writeSet], sameSet)
        else Compared(e, done + {n}, readSet, writeSet, sameSet[n := g.readSet])
  {
    var e := DiffSubgroups(original, parent);
    VisitedStep(readSet, e.readSet, done, n);
    VisitedStep(writeSet, e.writeSet, done, n);
    VisitedStep(sameSet, e.sameSet, done, n);
  }

  /** The loop over the original subgroups. */
  method CompareSubgroups(original: map<string, Group>, parent: Group)
    returns (readSet: map<string, Group>, writeSet: map<string, Group>, sameSet: map<string, Group>, dropped: bool)
    ensures Compared(DiffSubgroups(original, parent), original.Keys, readSet, writeSet, sameSet)
    ensures dropped <==> !(original.Keys <= parent.groups.Keys)
    decreases parent, 0, 0
  {
    ghost var done := {};
    readSet, writeSet, sameSet, dropped := map[], map[], map[], false;
    var todo := original.Keys;
    while todo != {}
      invariant todo !! done && todo + done == original.Keys
      invariant Compared(DiffSubgroups(original, parent), done, readSet, writeSet, sameSet)
      invariant dropped <==> !(done <= parent.groups.Keys)
      decreases todo
    {
      var n :| n in todo;
      ComparedStep(original, parent, done, n, readSet, writeSet, sameSet);
      todo, done := todo - {n}, done + {n};
      if n !in parent.groups {
        dropped := true;
        continue;
      }
      var g := ComputeGroupUpdate(original[n], parent.groups[n]);
      if !g.updated {
        sameSet := sameSet[n := g.readSet];
        continue;
      }
      readSet := readSet[n := g.readSet];
      writeSet := writeSet[n := g.writeSet];
    }
  }

  /** The loop over the updated subgroups, which writes out those that are new. */
  method AddNewSubgroups(original: map<string, Group>, parent: Group, writeSet: map<string, Group>)
    returns (all: map<string, Group>, added: bool)
    requires Visited(writeSet, DiffSubgroups(original, parent).writeSet, original.Keys)
    ensures all == DiffSubgroups(original, parent).writeSet
    ensures added <==> !(parent.groups.Keys <= original.Keys)
    decreases parent, 0, 0
  {
    ghost var e := DiffSubgroups(original, parent);
    ghost var done := original.Keys;
    all, added := writeSet, false;
    var todo := parent.groups.Keys;
    while todo != {}
      invariant todo <= parent.groups.Keys <= todo + done
      invariant original.Keys <= done
      invariant Visited(all, e.writeSet, done)
      invariant added <==> !(parent.groups.Keys - todo <= original.Keys)
      decreases todo
    {
      var n :| n in todo;
      todo := todo - {n};
      if n in original {
        continue;
      }
      VisitedStep(all, e.writeSet, done, n);
      done := done + {n};
      added := true;
      var g := ComputeGroupUpdate(EmptyGroup, parent.groups[n]);
      all := all[n := AsNewGroup(parent.groups[n], g.writeSet)];
    }
    VisitedAll(all, e.writeSet, done);
  }

  /** The loops that put unchanged members back once the membership of a group changed. */
  method AddSame<T(==)>(readSet: map<string, T>, writeSet: map<string, T>, sameSet: map<string, T>)
    returns (read: map<string, T>, write: map<string, T>)
    ensures read == readSet + sameSet && write == writeSet + sameSet
  {
    read, write := readSet, writeSet;
    ghost var done: map<string, T> := map[];
    var todo := sameSet.Keys;
    while todo != {}
      invariant todo !! done.Keys && todo + done.Keys == sameSet.Keys
      invariant done == sameSet - todo
      invariant read == readSet + done && write == writeSet + done
      decreases todo
    {
      var n :| n in todo;
      todo := todo - {n};
      done := done[n := sameSet[n]];
      read, write := read[n := sameSet[n]], write[n := sameSet[n]];
    }
  }

  method ComputeGroupUpdate(original: Group, updated: Group) returns (d: GroupDiff)
    ensures d == DiffGroup(original, updated)
    decreases updated, 1
  {
    var policies := ComputeElementsMapUpdate(original.policies, updated.policies);
    var values := ComputeElementsMapUpdate(original.values, updated.values);
    var groups := ComputeGroupsMapUpdate(original.groups, updated);
    d := CombineUpdates(original, updated, policies, values, groups);
  }

  /** The second half of the group update: which of the three possible results to return. */
  method CombineUpdates(original: Group, updated: Group, policies: MapDiff<PolicyElement>,
                        values: MapDiff<ValueElement>, groups: MapDiff<Group>) returns (d: GroupDiff)
    ensures d == CombineDiffs(original, updated, policies, values, groups)
  {
    if !(policies.updatedMembers || values.updatedMembers || groups.updatedMembers
         || original.modPolicy != updated.modPolicy) {
      if |policies.readSet| == 0 && |policies.writeSet| == 0 && |values.readSet| == 0
         && |values.writeSet| == 0 && |groups.readSet| == 0 && |groups.writeSet| == 0 {
        return GroupDiff(EmptyGroup.(version := original.version), EmptyGroup.(version := original.version), false);
      }
      return GroupDiff(
          Group(original.version, "", policies.readSet, values.readSet, groups.readSet),
          Group(original.version, "", policies.writeSet, values.writeSet, groups.writeSet),
          true);
    }
    var readPolicies, writePolicies := AddSame(policies.readSet, policies.writeSet, policies.sameSet);
    var readValues, writeValues := AddSame(values.readSet, values.writeSet, values.sameSet);
    var readGroups, writeGroups := AddSame(groups.readSet, groups.writeSet, groups.sameSet);
    d := GroupDiff(
      Group(original.version, "", readPolicies, readValues, readGroups),
      Group(Bump(original.version), updated.modPolicy, writePolicies, writeValues, writeGroups),
      true);
  }

  function Computed(original: Config, updated: Config): ComputeResult {
    if original.channelGroup.None? then NoOriginalGroup
    else if updated.channelGroup.None? then NoUpdatedGroup
    else
      var d := DiffGroup(original.channelGroup.value, updated.channelGroup.value);
      if d.updated then Update(ConfigUpdate(d.readSet, d.writeSet)) else NoDifferences
  }

  method Compute(original: Config, updated: Config) returns (r: ComputeResult)
    ensures r == Computed(original, updated)
  {
    if original.channelGroup.None? {
      return NoOriginalGroup;
    }
    if updated.channelGroup.None? {
      return NoUpdatedGroup;
    }
    var d := ComputeGroupUpdate(original.channelGroup.value, updated.channelGroup.value);
    if !d.updated {
      return NoDifferences;
    }
    r := Update(ConfigUpdate(d.readSet, d.writeSet));
  }
}
