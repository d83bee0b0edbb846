/**
 Parsing undoes printing: the tree of a message populates an empty message with the same contents, through
 every level of nested and encoded messages.
 */
module ProtoRoundTrip {
  import opened Wrappers
  import opened ProtoSchema
  import opened ProtoTree

  /** Every encoded element, at every depth, is the encoding that the encoder itself would produce. */
  ghost predicate Canonical(sc: Schema, n: nat, t: TypeName, m: Msg)
    requires Lawful(sc) && BytesBelow(m, n)
    decreases n, m, 1
  {
    forall f | f in m.fields :: FieldCanonical(sc, n, t, m, f)
  }

  ghost predicate FieldCanonical(sc: Schema, n: nat, t: TypeName, m: Msg, f: string)
    requires Lawful(sc) && BytesBelow(m, n) && f in m.fields
    decreases n, m, 0
  {
    assert FieldBelow(m.fields[f], n);
    match m.fields[f]
    case Single(c) => ContentCanonical(sc, n, t, m.fields, f, NoKey, c)
    case Slice(cs) => forall i | 0 <= i < |cs| :: ContentCanonical(sc, n, t, m.fields, f, At(i), cs[i])
    case Mapping(cs) => forall k | k in cs :: ContentCanonical(sc, n, t, m.fields, f, Under(k), cs[k])
    case _ => true
  }

  ghost predicate ContentCanonical(sc: Schema, n: nat, t: TypeName, fields: map<string, Field>, f: string, key: Key,
                                   c: Content)
    requires Lawful(sc) && ContentBelow(c, n)
    decreases n, c, 2
  {
    var chosen := sc.choose(t, f, key, fields);
    chosen.Some? ==>
      match c
      case Message(sub) => Canonical(sc, n, chosen.value, sub)
      case Bytes(b) =>
        var sub := sc.unmarshal(chosen.value, b);
        sub.Some? ==> sc.marshal(chosen.value, sub.value) == b && Canonical(sc, |b|, chosen.value, sub.value)
  }

  lemma {:induction false} NormalTwice(m: Msg)
    ensures Normal(Normal(m)) == Normal(m)
    decreases m
  {
    forall f | f in m.fields ensures NormalField(NormalField(m.fields[f])) == NormalField(m.fields[f]) {
      NormalFieldTwice(m.fields[f]);
    }
    assert Normal(Normal(m)).fields == Normal(m).fields;
  }

  lemma {:induction false} NormalFieldTwice(v: Field)
    ensures NormalField(NormalField(v)) == NormalField(v)
    decreases v
  {
    match v
    case Single(c) => NormalContentTwice(c);
    case Slice(cs) =>
      forall i | 0 <= i < |cs| ensures NormalContent(NormalContent(cs[i])) == NormalContent(cs[i]) {
        NormalContentTwice(cs[i]);
      }
      assert NormalField(NormalField(v)).elements == NormalField(v).elements;
    case Mapping(cs) =>
      forall k | k in cs ensures NormalContent(NormalContent(cs[k])) == NormalContent(cs[k]) {
        NormalContentTwice(cs[k]);
      }
      assert NormalField(NormalField(v)).entries == NormalField(v).entries;
    case _ =>
  }

  lemma {:induction false} NormalContentTwice(c: Content)
    ensures NormalContent(NormalContent(c)) == NormalContent(c)
    decreases c
  {
    if c.Message? {
      NormalTwice(c.m);
    }
  }

  /** Both sides choose the same type for every element of field f. */
  ghost predicate SameChoice(sc: Schema, t: TypeName, f: string, a: map<string, Field>, b: map<string, Field>) {
    forall key :: sc.choose(t, f, key, a) == sc.choose(t, f, key, b)
  }

  lemma {:induction false} ContentRoundTrip(sc: Schema, n: nat, t: TypeName, fields: map<string, Field>, f: string,
                                            key: Key, stage: Stage, c: Content, filled: map<string, Field>)
    requires Lawful(sc) && ContentBelow(c, n)
    requires ContentTree(sc, n, t, fields, f, key, stage, c).Some?
    requires ContentCanonical(sc, n, t, fields, f, key, c)
    requires SameChoice(sc, t, f, fields, filled)
    ensures ContentFrom(sc, t, filled, f, key, stage, ContentTree(sc, n, t, fields, f, key, stage, c).value)
         == Some(NormalContent(c))
    decreases n, c, 3, 0
  {
    var chosen := sc.choose(t, f, key, fields).value;
    assert sc.choose(t, f, key, filled) == Some(chosen);
    match c
    case Message(sub) =>
      RoundTrip(sc, n, chosen, sub);
    case Bytes(b) =>
      var sub := sc.unmarshal(chosen, b).value;
      RoundTrip(sc, |b|, chosen, sub);
      assert sc.marshal(chosen, Normal(sub)) == sc.marshal(chosen, sub) == b;
  }

  lemma {:induction false} FieldRoundTrip(sc: Schema, n: nat, t: TypeName, m: Msg, f: string,
                                          filled: map<string, Field>)
    requires Lawful(sc) && BytesBelow(m, n) && f in m.fields
    requires FieldTree(sc, n, t, m, f).Some? && FieldCanonical(sc, n, t, m, f)
    requires SameChoice(sc, t, f, m.fields, filled)
    requires sc.spec(t, f).Special? && m.fields[f] != Nil(One)
    ensures FieldFrom(sc, t, f, FieldTree(sc, n, t, m, f).value, filled) == Some(NormalField(m.fields[f]))
    decreases n, m, 0, 0
  {
    assert FieldBelow(m.fields[f], n);
    match m.fields[f]
    case Single(c) =>
      ContentRoundTrip(sc, n, t, m.fields, f, NoKey, sc.spec(t, f).stage, c, filled);
    case Slice(cs) =>
      SliceRoundTrip(sc, n, t, m, f, filled);
    case Mapping(cs) =>
      MappingRoundTrip(sc, n, t, m, f, filled);
    case Nil(Many) =>
      assert FieldFrom(sc, t, f, Arr([]), filled).value.elements == [];
    case Nil(Keyed) =>
      assert FieldFrom(sc, t, f, Obj(map[]), filled).value.entries == map[];
  }

  lemma {:induction false} SliceRoundTrip(sc: Schema, n: nat, t: TypeName, m: Msg, f: string,
                                          filled: map<string, Field>)
    requires Lawful(sc) && BytesBelow(m, n) && f in m.fields && m.fields[f].Slice?
    requires FieldTree(sc, n, t, m, f).Some? && FieldCanonical(sc, n, t, m, f)
    requires SameChoice(sc, t, f, m.fields, filled)
    ensures FieldFrom(sc, t, f, FieldTree(sc, n, t, m, f).value, filled) == Some(NormalField(m.fields[f]))
    decreases n, m.fields[f], 4, 0
  {
    assert FieldBelow(m.fields[f], n);
    var node, cs := FieldTree(sc, n, t, m, f).value, m.fields[f].elements;
    forall i | 0 <= i < |cs|
      ensures ContentFrom(sc, t, filled, f, At(i), sc.spec(t, f).stage, node.items[i]) == Some(NormalContent(cs[i]))
    {
      ContentRoundTrip(sc, n, t, m.fields, f, At(i), sc.spec(t, f).stage, cs[i], filled);
    }
    assert FieldFrom(sc, t, f, node, filled).value.elements == NormalField(m.fields[f]).elements;
  }

  lemma {:induction false} MappingRoundTrip(sc: Schema, n: nat, t: TypeName, m: Msg, f: string,
                                            filled: map<string, Field>)
    requires Lawful(sc) && BytesBelow(m, n) && f in m.fields && m.fields[f].Mapping?
    requires FieldTree(sc, n, t, m, f).Some? && FieldCanonical(sc, n, t, m, f)
    requires SameChoice(sc, t, f, m.fields, filled)
    ensures FieldFrom(sc, t, f, FieldTree(sc, n, t, m, f).value, filled) == Some(NormalField(m.fields[f]))
    decreases n, m.fields[f], 4, 0
  {
    assert FieldBelow(m.fields[f], n);
    var node, cs := FieldTree(sc, n, t, m, f).value, m.fields[f].entries;
    forall k | k in cs
      ensures ContentFrom(sc, t, filled, f, Under(k), sc.spec(t, f).stage, node.members[k])
        == Some(NormalContent(cs[k]))
    {
      ContentRoundTrip(sc, n, t, m.fields, f, Under(k), sc.spec(t, f).stage, cs[k], filled);
    }
    assert FieldFrom(sc, t, f, node, filled).value.entries == NormalField(m.fields[f]).entries;
  }

  predicate Done(m: Msg, filled: map<string, Field>, g: string)
    requires g in m.fields && g in filled
  {
    filled[g] == NormalField(m.fields[g])
  }

  /** The state of staged filling: what is not yet filled is still to come and has its empty value. */
  ghost predicate Filling(sc: Schema, t: TypeName, m: Msg, filled: map<string, Field>, names: seq<string>) {
    && filled.Keys == m.fields.Keys
    && (forall g | g in m.fields :: Done(m, filled, g) || (g in names && filled[g] == EmptyField(sc, t, g)))
  }

  /**
   Staged filling: when a field is populated, every field of higher rank already has its final value, so the
   message type chosen while parsing is the one chosen while printing.
   */
  lemma StagedFilling(sc: Schema, t: TypeName, m: Msg, filled: map<string, Field>, names: seq<string>)
    requires Lawful(sc) && Filling(sc, t, m, filled, names)
    requires names != [] && Descending(sc, t, names) && m.fields.Keys == (set f | f in sc.props(t))
    ensures forall g | g in m.fields && RankOf(sc, t, g) > RankOf(sc, t, names[0]) :: Done(m, filled, g)
    ensures SameChoice(sc, t, names[0], m.fields, filled)
  {
    assert forall g | g in names :: RankOf(sc, t, names[0]) >= RankOf(sc, t, g);
    assert AgreeAbove(sc, t, m.fields, filled, RankOf(sc, t, names[0])) by {
      forall g | g in sc.props(t) && RankOf(sc, t, g) > RankOf(sc, t, names[0])
        ensures g in m.fields && g in filled && NormalField(m.fields[g]) == NormalField(filled[g])
      {
        assert g in m.fields && Done(m, filled, g);
        NormalFieldTwice(m.fields[g]);
      }
    }
  }

  lemma NextFilling(sc: Schema, t: TypeName, m: Msg, filled: map<string, Field>, names: seq<string>)
    requires Filling(sc, t, m, filled, names) && names != [] && names[0] in m.fields
    ensures Filling(sc, t, m, filled[names[0] := NormalField(m.fields[names[0]])], names[1..])
  {
    var next := filled[names[0] := NormalField(m.fields[names[0]])];
    forall g | g in m.fields ensures Done(m, next, g) || (g in names[1..] && next[g] == EmptyField(sc, t, g)) {
      if g != names[0] && !Done(m, filled, g) {
        assert names == [names[0]] + names[1..];
      }
    }
  }

  lemma {:induction false} FieldsRoundTrip(sc: Schema, n: nat, t: TypeName, m: Msg, names: seq<string>,
                                           filled: map<string, Field>)
    requires Lawful(sc) && BytesBelow(m, n) && Canonical(sc, n, t, m) && CreateTree(sc, n, t, m).Some?
    requires Descending(sc, t, names) && Filling(sc, t, m, filled, names)
    requires forall f | f in names :: f in m.fields && sc.spec(t, f).Special?
    ensures PopulateFields(sc, t, names, Obj(CreateTree(sc, n, t, m).value), filled) == Some(Normal(m).fields)
    decreases n, m, 1, |names|
  {
    var tree := CreateTree(sc, n, t, m).value;
    if names == [] {
      assert filled == Normal(m).fields;
    } else {
      var f := names[0];
      assert f in names && FieldTree(sc, n, t, m, f) == Some(tree[f]);
      var next := filled[f := NormalField(m.fields[f])];
      if m.fields[f] == Nil(One) {
        assert next == filled;
      } else {
        StagedFilling(sc, t, m, filled, names);
        FieldRoundTrip(sc, n, t, m, f, filled);
      }
      NextFilling(sc, t, m, filled, names);
      FieldsRoundTrip(sc, n, t, m, names[1..], next);
    }
  }

  /**
   The round trip: populating from the printed tree gives the message back, up to nil versus empty collections.
   */
  lemma {:induction false} RoundTrip(sc: Schema, n: nat, t: TypeName, m: Msg)
    requires Lawful(sc) && BytesBelow(m, n) && Canonical(sc, n, t, m)
    requires CreateTree(sc, n, t, m).Some?
    ensures Populate(sc, t, Obj(CreateTree(sc, n, t, m).value)) == Some(Normal(m))
    decreases n, m, 2, 0
  {
    var tree := CreateTree(sc, n, t, m).value;
    var rest := WithoutSpecial(sc, t, tree);
    PlainRoundTrip(sc, n, t, m);
    var plain := PopulatePlain(sc, t, rest).value;
    OrderIsStaged(sc, t);
    FieldsRoundTrip(sc, n, t, m, FieldOrder(sc, t), plain);
  }

  lemma PlainRoundTrip(sc: Schema, n: nat, t: TypeName, m: Msg)
    requires Lawful(sc) && BytesBelow(m, n) && CreateTree(sc, n, t, m).Some?
    ensures var plain := PopulatePlain(sc, t, WithoutSpecial(sc, t, CreateTree(sc, n, t, m).value));
      plain.Some? && plain.value.Keys == m.fields.Keys
      && forall g | g in m.fields ::
        plain.value[g] == if sc.spec(t, g).Plain? then NormalField(m.fields[g]) else EmptyField(sc, t, g)
  {
    var tree := CreateTree(sc, n, t, m).value;
    var rest := WithoutSpecial(sc, t, tree);
    forall f | f in rest ensures IsPlain(sc, t, f) && rest[f].Leaf? && m.fields[f] == Atom(rest[f].a) {
      assert FieldTree(sc, n, t, m, f) == Some(tree[f]);
    }
  }

  // ---------------------------------------------------------------------------------------------
  // The measure exists for every message, and does not influence the tree
  // ---------------------------------------------------------------------------------------------

  lemma {:induction false} WiderBound(m: Msg, a: nat, b: nat)
    requires BytesBelow(m, a) && a <= b
    ensures BytesBelow(m, b)
    decreases m
  {
    forall f | f in m.fields ensures FieldBelow(m.fields[f], b) {
      WiderFieldBound(m.fields[f], a, b);
    }
  }

  lemma {:induction false} WiderFieldBound(v: Field, a: nat, b: nat)
    requires FieldBelow(v, a) && a <= b
    ensures FieldBelow(v, b)
    decreases v
  {
    match v
    case Single(c) => WiderContentBound(c, a, b);
    case Slice(cs) =>
      forall i | 0 <= i < |cs| ensures ContentBelow(cs[i], b) {
        WiderContentBound(cs[i], a, b);
      }
    case Mapping(cs) =>
      forall k | k in cs ensures ContentBelow(cs[k], b) {
        WiderContentBound(cs[k], a, b);
      }
    case _ =>
  }

  lemma {:induction false} WiderContentBound(c: Content, a: nat, b: nat)
    requires ContentBelow(c, a) && a <= b
    ensures ContentBelow(c, b)
    decreases c
  {
    if c.Message? {
      WiderBound(c.m, a, b);
    }
  }

  /** A bound for the fields under `keys`. */
  lemma {:induction false} FindBound(m: Msg, keys: set<string>) returns (n: nat)
    requires keys <= m.fields.Keys
    ensures forall f | f in keys :: FieldBelow(m.fields[f], n)
    decreases m, keys
  {
    if keys == {} {
      n := 0;
    } else {
      var f :| f in keys;
      var a := FindBound(m, keys - {f});
      var b := FindFieldBound(m.fields[f]);
      n := a + b;
      forall g | g in keys ensures FieldBelow(m.fields[g], n) {
        WiderFieldBound(m.fields[g], if g == f then b else a, n);
      }
    }
  }

  lemma {:induction false} FindFieldBound(v: Field) returns (n: nat)
    ensures FieldBelow(v, n)
    decreases v
  {
    match v
    case Single(c) => n := FindContentBound(c);
    case Slice(cs) => n := FindSliceBound(v, |cs|);
    case Mapping(cs) => n := FindMapBound(v, cs.Keys);
    case _ => n := 0;
  }

  lemma {:induction false} FindSliceBound(v: Field, k: nat) returns (n: nat)
    requires v.Slice? && k <= |v.elements|
    ensures forall i | 0 <= i < k :: ContentBelow(v.elements[i], n)
    decreases v, 0, k
  {
    if k == 0 {
      n := 0;
    } else {
      var a := FindSliceBound(v, k - 1);
      var b := FindContentBound(v.elements[k - 1]);
      n := a + b;
      forall i | 0 <= i < k ensures ContentBelow(v.elements[i], n) {
        WiderContentBound(v.elements[i], if i == k - 1 then b else a, n);
      }
    }
  }

  lemma {:induction false} FindMapBound(v: Field, keys: set<string>) returns (n: nat)
    requires v.Mapping? && keys <= v.entries.Keys
    ensures forall k | k in keys :: ContentBelow(v.entries[k], n)
    decreases v, 0, keys
  {
    if keys == {} {
      n := 0;
    } else {
      var k :| k in keys;
      var a := FindMapBound(v, keys - {k});
      var b := FindContentBound(v.entries[k]);
      n := a + b;
      forall g | g in keys ensures ContentBelow(v.entries[g], n) {
        WiderContentBound(v.entries[g], if g == k then b else a, n);
      }
    }
  }

  lemma {:induction false} FindContentBound(c: Content) returns (n: nat)
    ensures ContentBelow(c, n)
    decreases c
  {
    match c
    case Message(m) => n := FindBound(m, m.fields.Keys);
    case Bytes(b) => n := |b| + 1;
  }

  /** Printing terminates on every message: a bound always exists. */
  lemma EveryMessageHasBound(m: Msg)
    ensures exists n :: BytesBelow(m, n)
  {
    var n := FindBound(m, m.fields.Keys);
    assert BytesBelow(m, n);
  }

  lemma {:induction false} BoundDoesNotMatter(sc: Schema, a: nat, b: nat, t: TypeName, m: Msg)
    requires Lawful(sc) && BytesBelow(m, a) && BytesBelow(m, b)
    ensures CreateTree(sc, a, t, m) == CreateTree(sc, b, t, m)
    decreases m, 1
  {
    forall f | f in m.fields ensures FieldTree(sc, a, t, m, f) == FieldTree(sc, b, t, m, f) {
      FieldBoundDoesNotMatter(sc, a, b, t, m, f);
    }
    if CreateTree(sc, a, t, m).Some? {
      assert CreateTree(sc, a, t, m).value == CreateTree(sc, b, t, m).value;
    }
  }

  lemma {:induction false} FieldBoundDoesNotMatter(sc: Schema, a: nat, b: nat, t: TypeName, m: Msg, f: string)
    requires Lawful(sc) && BytesBelow(m, a) && BytesBelow(m, b) && f in m.fields
    ensures FieldTree(sc, a, t, m, f) == FieldTree(sc, b, t, m, f)
    decreases m, 0
  {
    assert FieldBelow(m.fields[f], a) && FieldBelow(m.fields[f], b);
    var stage := if sc.spec(t, f).Special? then sc.spec(t, f).stage else Nested;
    var x, y := FieldTree(sc, a, t, m, f), FieldTree(sc, b, t, m, f);
    match m.fields[f]
    case Single(c) =>
      ContentBoundDoesNotMatter(sc, a, b, t, m.fields, f, NoKey, stage, c);
    case Slice(cs) =>
      forall i | 0 <= i < |cs|
        ensures ContentTree(sc, a, t, m.fields, f, At(i), stage, cs[i])
          == ContentTree(sc, b, t, m.fields, f, At(i), stage, cs[i])
      {
        ContentBoundDoesNotMatter(sc, a, b, t, m.fields, f, At(i), stage, cs[i]);
      }
      assert x.Some? <==> y.Some?;
      assert x.Some? ==> x.value.items == y.value.items;
    case Mapping(cs) =>
      forall k | k in cs
        ensures ContentTree(sc, a, t, m.fields, f, Under(k), stage, cs[k])
          == ContentTree(sc, b, t, m.fields, f, Under(k), stage, cs[k])
      {
        ContentBoundDoesNotMatter(sc, a, b, t, m.fields, f, Under(k), stage, cs[k]);
      }
      assert x.Some? <==> y.Some?;
      assert x.Some? ==> x.value.members == y.value.members;
    case _ =>
  }

  lemma {:induction false} ContentBoundDoesNotMatter(sc: Schema, a: nat, b: nat, t: TypeName,
                                                     fields: map<string, Field>, f: string, key: Key,
                                                     stage: Stage, c: Content)
    requires Lawful(sc) && ContentBelow(c, a) && ContentBelow(c, b)
    ensures ContentTree(sc, a, t, fields, f, key, stage, c) == ContentTree(sc, b, t, fields, f, key, stage, c)
    decreases c, 2
  {
    if c.Message? && sc.choose(t, f, key, fields).Some? {
      BoundDoesNotMatter(sc, a, b, sc.choose(t, f, key, fields).value, c.m);
    }
  }
}
