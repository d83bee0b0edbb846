/**
 What the parser makes of any tree, printed or not: an exact description that does not mention the order in
 which fields are filled.
 */
module ProtoParse {
  import opened Wrappers
  import opened ProtoSchema
  import opened ProtoTree
  import opened ProtoRoundTrip
  import opened ProtoView

  /**
   The value of field f in the message that a tree describes.  A missing or null entry leaves the empty value;
   the type of an element is chosen by the message as it is in the end.
   */
  predicate FieldParsed(sc: Schema, t: TypeName, members: map<string, Tree>, fields: map<string, Field>, f: string)
    requires f in fields
  {
    if f !in members || members[f].Null? then fields[f] == EmptyField(sc, t, f)
    else if sc.spec(t, f).Plain? then members[f].Leaf? && fields[f] == Atom(members[f].a)
    else FieldFrom(sc, t, f, members[f], fields) == Some(fields[f])
  }

  /** The message has the fields of its type, the tree has no others, and each has the value that its entry says. */
  ghost predicate Parsed(sc: Schema, t: TypeName, members: map<string, Tree>, m: Msg) {
    && m.fields.Keys == (set f | f in sc.props(t))
    && members.Keys <= m.fields.Keys
    && forall f | f in m.fields :: FieldParsed(sc, t, members, m.fields, f)
  }

  lemma SameFieldFrom(sc: Schema, t: TypeName, f: string, node: Tree, a: map<string, Field>, b: map<string, Field>)
    requires SameChoice(sc, t, f, a, b)
    ensures FieldFrom(sc, t, f, node, a) == FieldFrom(sc, t, f, node, b)
  {
    match (sc.spec(t, f), node)
    case (Special(stage, Many), Arr(items)) => SameItemsFrom(sc, t, f, stage, items, a, b);
    case (Special(stage, Keyed), Obj(members)) => SameMembersFrom(sc, t, f, stage, members, a, b);
    case (Special(stage, One), Obj(_)) => SameContentFrom(sc, t, f, NoKey, stage, node, a, b);
    case _ =>
  }

  lemma SameContentFrom(sc: Schema, t: TypeName, f: string, key: Key, stage: Stage, node: Tree,
                        a: map<string, Field>, b: map<string, Field>)
    requires SameChoice(sc, t, f, a, b)
    ensures ContentFrom(sc, t, a, f, key, stage, node) == ContentFrom(sc, t, b, f, key, stage, node)
  {
    assert sc.choose(t, f, key, a) == sc.choose(t, f, key, b);
  }

  lemma SameItemsFrom(sc: Schema, t: TypeName, f: string, stage: Stage, items: seq<Tree>,
                      a: map<string, Field>, b: map<string, Field>)
    requires SameChoice(sc, t, f, a, b) && sc.spec(t, f) == Special(stage, Many)
    ensures FieldFrom(sc, t, f, Arr(items), a) == FieldFrom(sc, t, f, Arr(items), b)
  {
    forall i | 0 <= i < |items|
      ensures ContentFrom(sc, t, a, f, At(i), stage, items[i]) == ContentFrom(sc, t, b, f, At(i), stage, items[i])
    {
      SameContentFrom(sc, t, f, At(i), stage, items[i], a, b);
    }
    var x, y := FieldFrom(sc, t, f, Arr(items), a), FieldFrom(sc, t, f, Arr(items), b);
    assert x.Some? <==> y.Some?;
    assert x.Some? ==> x.value.elements == y.value.elements;
  }

  lemma SameMembersFrom(sc: Schema, t: TypeName, f: string, stage: Stage, members: map<string, Tree>,
                        a: map<string, Field>, b: map<string, Field>)
    requires SameChoice(sc, t, f, a, b) && sc.spec(t, f) == Special(stage, Keyed)
    ensures FieldFrom(sc, t, f, Obj(members), a) == FieldFrom(sc, t, f, Obj(members), b)
  {
    forall k | k in members
      ensures ContentFrom(sc, t, a, f, Under(k), stage, members[k])
           == ContentFrom(sc, t, b, f, Under(k), stage, members[k])
    {
      SameContentFrom(sc, t, f, Under(k), stage, members[k], a, b);
    }
    var x, y := FieldFrom(sc, t, f, Obj(members), a), FieldFrom(sc, t, f, Obj(members), b);
    assert x.Some? <==> y.Some?;
    assert x.Some? ==> x.value.entries == y.value.entries;
  }

  /** Messages that agree on the fields of earlier stages give the same value. */
  lemma EarlierFieldsDecide(sc: Schema, t: TypeName, f: string, node: Tree,
                            a: map<string, Field>, b: map<string, Field>)
    requires Lawful(sc)
    requires forall g | g in sc.props(t) && RankOf(sc, t, g) > RankOf(sc, t, f) :: g in a && g in b && a[g] == b[g]
    ensures FieldFrom(sc, t, f, node, a) == FieldFrom(sc, t, f, node, b)
  {
    assert AgreeAbove(sc, t, a, b, RankOf(sc, t, f));
    SameFieldFrom(sc, t, f, node, a, b);
  }

  predicate Skipped(tree: Tree, f: string)
    requires tree.Obj?
  {
    f !in tree.members || tree.members[f].Null?
  }

  /** The visited fields have the values that the final message explains, and the others are as they were. */
  ghost predicate Explained(sc: Schema, t: TypeName, names: seq<string>, tree: Tree,
                            fields: map<string, Field>, final: map<string, Field>)
    requires tree.Obj?
  {
    && final.Keys == fields.Keys
    && (forall g | g in fields && (g !in names || Skipped(tree, g)) :: final[g] == fields[g])
    && (forall f | f in names && f in final && !Skipped(tree, f) ::
          FieldFrom(sc, t, f, tree.members[f], final) == Some(final[f]))
  }

  lemma ExplainedSkip(sc: Schema, t: TypeName, names: seq<string>, tree: Tree,
                      fields: map<string, Field>, final: map<string, Field>)
    requires tree.Obj? && names != [] && Skipped(tree, names[0])
    requires Explained(sc, t, names[1..], tree, fields, final)
    ensures Explained(sc, t, names, tree, fields, final)
  {
    assert names == [names[0]] + names[1..];
  }

  lemma ExplainedNext(sc: Schema, t: TypeName, names: seq<string>, tree: Tree,
                      fields: map<string, Field>, v: Field, final: map<string, Field>)
    requires Lawful(sc) && tree.Obj? && names != [] && !Skipped(tree, names[0]) && names[0] in fields
    requires Descending(sc, t, names) && fields.Keys == (set f | f in sc.props(t))
    requires FieldFrom(sc, t, names[0], tree.members[names[0]], fields) == Some(v)
    requires Explained(sc, t, names[1..], tree, fields[names[0] := v], final)
    ensures Explained(sc, t, names, tree, fields, final)
  {
    var f := names[0];
    assert names == [f] + names[1..];
    assert forall g | g in names :: RankOf(sc, t, f) >= RankOf(sc, t, g);
    EarlierFieldsDecide(sc, t, f, tree.members[f], fields, final);
  }

  /** Fields that are visited in stages end up with values that the final message explains. */
  lemma {:induction false} FilledIsParsed(sc: Schema, t: TypeName, names: seq<string>, tree: Tree,
                                          fields: map<string, Field>, final: map<string, Field>)
    requires Lawful(sc) && tree.Obj? && PopulateFields(sc, t, names, tree, fields) == Some(final)
    requires Descending(sc, t, names) && fields.Keys == (set f | f in sc.props(t))
    requires forall f | f in names :: f in fields
    ensures Explained(sc, t, names, tree, fields, final)
    decreases |names|
  {
    if names != [] {
      var f := names[0];
      assert names == [f] + names[1..];
      if Skipped(tree, f) {
        FilledIsParsed(sc, t, names[1..], tree, fields, final);
        ExplainedSkip(sc, t, names, tree, fields, final);
      } else {
        var v := FieldFrom(sc, t, f, tree.members[f], fields).value;
        FilledIsParsed(sc, t, names[1..], tree, fields[f := v], final);
        ExplainedNext(sc, t, names, tree, fields, v, final);
      }
    }
  }

  /** The fields still to visit have their empty values, the others their final ones. */
  ghost predicate Partly(sc: Schema, t: TypeName, names: seq<string>,
                         fields: map<string, Field>, final: map<string, Field>)
  {
    && fields.Keys == final.Keys
    && forall g | g in final :: fields[g] == final[g] || (g in names && fields[g] == EmptyField(sc, t, g))
  }

  lemma EarlierFieldsFilled(sc: Schema, t: TypeName, names: seq<string>,
                            fields: map<string, Field>, final: map<string, Field>)
    requires Partly(sc, t, names, fields, final) && names != [] && Descending(sc, t, names)
    requires final.Keys == (set f | f in sc.props(t))
    ensures forall g | g in sc.props(t) && RankOf(sc, t, g) > RankOf(sc, t, names[0]) ::
      g in fields && g in final && fields[g] == final[g]
  {
    assert forall g | g in names :: RankOf(sc, t, names[0]) >= RankOf(sc, t, g);
  }

  lemma {:induction false} ParsedIsFilled(sc: Schema, t: TypeName, names: seq<string>, tree: Tree,
                                          fields: map<string, Field>, final: map<string, Field>)
    requires Lawful(sc) && tree.Obj? && Parsed(sc, t, tree.members, Msg(final))
    requires Partly(sc, t, names, fields, final) && Descending(sc, t, names)
    requires forall f | f in names :: f in final && sc.spec(t, f).Special?
    ensures PopulateFields(sc, t, names, tree, fields) == Some(final)
    decreases |names|
  {
    if names == [] {
      assert fields == final;
    } else {
      var f, rest := names[0], names[1..];
      assert names == [f] + rest;
      assert FieldParsed(sc, t, tree.members, final, f);
      if f !in tree.members || tree.members[f].Null? {
        ParsedIsFilled(sc, t, rest, tree, fields, final);
      } else {
        EarlierFieldsFilled(sc, t, names, fields, final);
        EarlierFieldsDecide(sc, t, f, tree.members[f], fields, final);
        ParsedIsFilled(sc, t, rest, tree, fields[f := final[f]], final);
      }
    }
  }

  lemma PlainIsParsed(sc: Schema, t: TypeName, members: map<string, Tree>, final: map<string, Field>)
    requires Parsed(sc, t, members, Msg(final))
    ensures var plain := PopulatePlain(sc, t, WithoutSpecial(sc, t, members));
      plain.Some? && Partly(sc, t, FieldOrder(sc, t), plain.value, final)
  {
    OrderIsStaged(sc, t);
    var rest := WithoutSpecial(sc, t, members);
    forall f | f in rest ensures IsPlain(sc, t, f) && (rest[f].Leaf? || rest[f].Null?) {
      assert f in final && FieldParsed(sc, t, members, final, f);
    }
    var plain := PopulatePlain(sc, t, rest).value;
    forall g | g in final
      ensures plain[g] == final[g] || (g in FieldOrder(sc, t) && plain[g] == EmptyField(sc, t, g))
    {
      assert FieldParsed(sc, t, members, final, g);
    }
  }

  lemma PlainWasParsed(sc: Schema, t: TypeName, members: map<string, Tree>)
    requires PopulatePlain(sc, t, WithoutSpecial(sc, t, members)).Some?
    ensures var plain := PopulatePlain(sc, t, WithoutSpecial(sc, t, members)).value;
      && plain.Keys == (set f | f in sc.props(t)) && members.Keys <= plain.Keys
      && forall f | f in plain ::
        if sc.spec(t, f).Plain? then FieldParsed(sc, t, members, plain, f) else plain[f] == EmptyField(sc, t, f)
  {
    var rest := WithoutSpecial(sc, t, members);
    forall f | f in members ensures f in sc.props(t) {
      assert f in sc.props(t) || f in rest;
    }
    forall f | f in sc.props(t) && sc.spec(t, f).Plain? && f in members ensures rest[f].Leaf? || rest[f].Null? {
      assert f in rest;
    }
  }

  /** A tree is parsed to a message if and only if the tree describes it; the filling order cannot be told. */
  lemma ParsesExactly(sc: Schema, t: TypeName, members: map<string, Tree>, m: Msg)
    requires Lawful(sc)
    ensures Populate(sc, t, Obj(members)) == Some(m) <==> Parsed(sc, t, members, m)
  {
    var tree, names := Obj(members), FieldOrder(sc, t);
    var plain := PopulatePlain(sc, t, WithoutSpecial(sc, t, members));
    OrderIsStaged(sc, t);
    if Parsed(sc, t, members, m) {
      PlainIsParsed(sc, t, members, m.fields);
      ParsedIsFilled(sc, t, names, tree, plain.value, m.fields);
    }
    if Populate(sc, t, tree) == Some(m) {
      PlainWasParsed(sc, t, members);
      FilledIsParsed(sc, t, names, tree, plain.value, m.fields);
      forall f | f in m.fields ensures FieldParsed(sc, t, members, m.fields, f) {
        if sc.spec(t, f).Plain? {
          assert FieldParsed(sc, t, members, plain.value, f);
        }
      }
    }
  }

  /** An entry that is removed, or null, leaves the field empty, whatever else the tree holds. */
  lemma MissingEntryStaysEmpty(sc: Schema, t: TypeName, members: map<string, Tree>, f: string)
    requires Lawful(sc) && f in sc.props(t) && (f !in members || members[f].Null?)
    requires Populate(sc, t, Obj(members)).Some?
    ensures var m := Populate(sc, t, Obj(members)).value;
      f in m.fields
      && m.fields[f] == if sc.spec(t, f).Plain? then Atom(sc.zero(t, f)) else Nil(sc.spec(t, f).shape)
  {
    ParsesExactly(sc, t, members, Populate(sc, t, Obj(members)).value);
  }

  // ---------------------------------------------------------------------------------------------
  // One special field
  // ---------------------------------------------------------------------------------------------

  /** Tree and value have the declared shape, with the same items. */
  predicate ShapesFit(shape: Shape, node: Tree, v: Field) {
    match shape
    case One => node.Obj? && v.Single?
    case Many => node.Arr? && v.Slice? && |v.elements| == |node.items|
    case Keyed => node.Obj? && v.Mapping? && v.entries.Keys == node.members.Keys
  }

  /** The element is the message that its object describes, encoded if and only if the field is opaque. */
  ghost predicate ElementParsed(sc: Schema, t: TypeName, fields: map<string, Field>, f: string, key: Key, stage: Stage,
                                node: Option<Tree>, c: Content)
  {
    && node.Some? && node.value.Obj?
    && sc.choose(t, f, key, fields).Some?
    && var chosen := sc.choose(t, f, key, fields).value;
       exists sub :: Populate(sc, chosen, node.value) == Some(sub) && c == Closed(sc, chosen, stage, sub)
  }

  function Closed(sc: Schema, t: TypeName, stage: Stage, sub: Msg): Content {
    if stage.Static? || stage.Variable? then Bytes(sc.marshal(t, sub)) else Message(sub)
  }

  lemma ElementParsedExactly(sc: Schema, t: TypeName, fields: map<string, Field>, f: string, key: Key, stage: Stage,
                             node: Tree, c: Content)
    ensures ContentFrom(sc, t, fields, f, key, stage, node) == Some(c)
        <==> ElementParsed(sc, t, fields, f, key, stage, Some(node), c)
  {
    var chosen := sc.choose(t, f, key, fields);
    if chosen.Some? && node.Obj? {
      var sub := Populate(sc, chosen.value, node);
      if sub.Some? {
        assert ContentFrom(sc, t, fields, f, key, stage, node) == Some(Closed(sc, chosen.value, stage, sub.value));
      }
    }
  }

  ghost predicate ElementsParsed(sc: Schema, t: TypeName, fields: map<string, Field>, f: string, stage: Stage,
                                 node: Tree, v: Field)
  {
    forall key | ElementAt(v, key).Some? ::
      ElementParsed(sc, t, fields, f, key, stage, ItemAt(node, key), ElementAt(v, key).value)
  }

  /** A special field is parsed item by item: same shape, and every element comes from the item at its place. */
  lemma SpecialFieldParsedExactly(sc: Schema, t: TypeName, f: string, node: Tree, fields: map<string, Field>, v: Field)
    requires sc.spec(t, f).Special?
    ensures FieldFrom(sc, t, f, node, fields) == Some(v)
        <==> ShapesFit(sc.spec(t, f).shape, node, v)
             && ElementsParsed(sc, t, fields, f, sc.spec(t, f).stage, node, v)
  {
    var stage := sc.spec(t, f).stage;
    if ShapesFit(sc.spec(t, f).shape, node, v) {
      match sc.spec(t, f).shape
      case One => SingleParsedExactly(sc, t, f, stage, node, fields, v);
      case Many => SliceParsedExactly(sc, t, f, stage, node.items, fields, v);
      case Keyed => MappingParsedExactly(sc, t, f, stage, node.members, fields, v);
    }
  }

  lemma SingleParsedExactly(sc: Schema, t: TypeName, f: string, stage: Stage, node: Tree,
                            fields: map<string, Field>, v: Field)
    requires sc.spec(t, f) == Special(stage, One) && node.Obj? && v.Single?
    ensures FieldFrom(sc, t, f, node, fields) == Some(v) <==> ElementsParsed(sc, t, fields, f, stage, node, v)
  {
    ElementParsedExactly(sc, t, fields, f, NoKey, stage, node, v.element);
    assert forall key | ElementAt(v, key).Some? :: key == NoKey;
    assert ElementAt(v, NoKey) == Some(v.element) && ItemAt(node, NoKey) == Some(node);
  }

  lemma SliceParsedExactly(sc: Schema, t: TypeName, f: string, stage: Stage, items: seq<Tree>,
                           fields: map<string, Field>, v: Field)
    requires sc.spec(t, f) == Special(stage, Many) && v.Slice? && |v.elements| == |items|
    ensures FieldFrom(sc, t, f, Arr(items), fields) == Some(v)
        <==> ElementsParsed(sc, t, fields, f, stage, Arr(items), v)
  {
    forall i | 0 <= i < |items|
      ensures ContentFrom(sc, t, fields, f, At(i), stage, items[i]) == Some(v.elements[i])
          <==> ElementParsed(sc, t, fields, f, At(i), stage, Some(items[i]), v.elements[i])
    {
      ElementParsedExactly(sc, t, fields, f, At(i), stage, items[i], v.elements[i]);
    }
    var r := FieldFrom(sc, t, f, Arr(items), fields);
    if ElementsParsed(sc, t, fields, f, stage, Arr(items), v) {
      forall i | 0 <= i < |items| ensures ContentFrom(sc, t, fields, f, At(i), stage, items[i]) == Some(v.elements[i]) {
        assert ElementAt(v, At(i)) == Some(v.elements[i]) && ItemAt(Arr(items), At(i)) == Some(items[i]);
      }
      assert r.value.elements == v.elements;
    }
    if r == Some(v) {
      forall key | ElementAt(v, key).Some?
        ensures ElementParsed(sc, t, fields, f, key, stage, ItemAt(Arr(items), key), ElementAt(v, key).value)
      {
        assert ContentFrom(sc, t, fields, f, At(key.i), stage, items[key.i]) == Some(v.elements[key.i]);
      }
    }
  }

  /** Member by member, an entry comes from the member under its key. */
  ghost predicate MembersParsed(sc: Schema, t: TypeName, fields: map<string, Field>, f: string, stage: Stage,
                                members: map<string, Tree>, entries: map<string, Content>)
    requires entries.Keys == members.Keys
  {
    forall k | k in members :: ContentFrom(sc, t, fields, f, Under(k), stage, members[k]) == Some(entries[k])
  }

  lemma MappingFromMembers(sc: Schema, t: TypeName, f: string, stage: Stage, members: map<string, Tree>,
                           fields: map<string, Field>, entries: map<string, Content>)
    requires sc.spec(t, f) == Special(stage, Keyed) && entries.Keys == members.Keys
    ensures FieldFrom(sc, t, f, Obj(members), fields) == Some(Mapping(entries))
        <==> MembersParsed(sc, t, fields, f, stage, members, entries)
  {
    var r := FieldFrom(sc, t, f, Obj(members), fields);
    if MembersParsed(sc, t, fields, f, stage, members, entries) {
      assert r.value.entries == entries;
    }
  }

  lemma MappingParsedExactly(sc: Schema, t: TypeName, f: string, stage: Stage, members: map<string, Tree>,
                             fields: map<string, Field>, v: Field)
    requires sc.spec(t, f) == Special(stage, Keyed) && v.Mapping? && v.entries.Keys == members.Keys
    ensures FieldFrom(sc, t, f, Obj(members), fields) == Some(v)
        <==> ElementsParsed(sc, t, fields, f, stage, Obj(members), v)
  {
    MappingFromMembers(sc, t, f, stage, members, fields, v.entries);
    forall k | k in members
      ensures ContentFrom(sc, t, fields, f, Under(k), stage, members[k]) == Some(v.entries[k])
          <==> ElementParsed(sc, t, fields, f, Under(k), stage, ItemAt(Obj(members), Under(k)), v.entries[k])
    {
      ElementParsedExactly(sc, t, fields, f, Under(k), stage, members[k], v.entries[k]);
    }
    assert forall k | k in members :: ElementAt(v, Under(k)) == Some(v.entries[k]);
    assert forall key | ElementAt(v, key).Some? :: key.Under? && key.k in members;
  }
}
