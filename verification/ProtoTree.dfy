/**
 From a message to its tree and back: what the recursive printer and parser compute.
 */
module ProtoTree {
  import opened Wrappers
  import opened ProtoSchema

  // ---------------------------------------------------------------------------------------------
  // The order in which fields are handled
  // ---------------------------------------------------------------------------------------------

  /** The fields that factory r handles, in declaration order. */
  function Bucket(sc: Schema, t: TypeName, props: seq<string>, r: nat): seq<string> {
    if props == [] then []
    else
      var init := Bucket(sc, t, props[..|props| - 1], r);
      if RankOf(sc, t, props[|props| - 1]) == r then init + [props[|props| - 1]] else init
  }

  /** The fields that the factories r, r - 1, ..., 0 handle. */
  function OrderFrom(sc: Schema, t: TypeName, r: nat): seq<string> {
    Bucket(sc, t, sc.props(t), r) + (if r == 0 then [] else OrderFrom(sc, t, r - 1))
  }

  function FieldOrder(sc: Schema, t: TypeName): seq<string> {
    OrderFrom(sc, t, 11)
  }

  lemma {:induction false} BucketHolds(sc: Schema, t: TypeName, props: seq<string>, r: nat, f: string)
    ensures f in Bucket(sc, t, props, r) <==> f in props && RankOf(sc, t, f) == r
    decreases |props|
  {
    if props != [] {
      assert props == props[..|props| - 1] + [props[|props| - 1]];
      BucketHolds(sc, t, props[..|props| - 1], r, f);
    }
  }

  lemma {:induction false} OrderHolds(sc: Schema, t: TypeName, r: nat, f: string)
    ensures f in OrderFrom(sc, t, r) <==> f in sc.props(t) && RankOf(sc, t, f) <= r
  {
    BucketHolds(sc, t, sc.props(t), r, f);
    if r > 0 {
      OrderHolds(sc, t, r - 1, f);
    }
  }

  /** Later fields never have a higher rank. */
  predicate Descending(sc: Schema, t: TypeName, names: seq<string>) {
    forall i, j | 0 <= i < j < |names| :: RankOf(sc, t, names[i]) >= RankOf(sc, t, names[j])
  }

  lemma {:induction false} OrderDescends(sc: Schema, t: TypeName, r: nat)
    ensures Descending(sc, t, OrderFrom(sc, t, r))
  {
    var first, all := Bucket(sc, t, sc.props(t), r), OrderFrom(sc, t, r);
    if r > 0 {
      OrderDescends(sc, t, r - 1);
    }
    forall i, j | 0 <= i < j < |all| ensures RankOf(sc, t, all[i]) >= RankOf(sc, t, all[j]) {
      if i < |first| {
        assert all[i] == first[i];
        BucketHolds(sc, t, sc.props(t), r, all[i]);
        assert all[j] in all;
        OrderHolds(sc, t, r, all[j]);
      } else {
        var rest := OrderFrom(sc, t, r - 1);
        assert all[i] == rest[i - |first|] && all[j] == rest[j - |first|];
      }
    }
  }

  /** The field order visits exactly the special fields, from the highest rank to the lowest. */
  lemma OrderIsStaged(sc: Schema, t: TypeName)
    ensures Descending(sc, t, FieldOrder(sc, t))
    ensures forall f :: f in FieldOrder(sc, t) <==> f in sc.props(t) && sc.spec(t, f).Special?
  {
    OrderDescends(sc, t, 11);
    forall f ensures f in FieldOrder(sc, t) <==> f in sc.props(t) && sc.spec(t, f).Special? {
      OrderHolds(sc, t, 11, f);
    }
  }

  /** Nested fields come first, then statically opaque, variably opaque and dynamic ones. */
  function StageNumber(s: Stage): nat {
    match s case Nested => 1 case Static => 2 case Variable => 3 case Dynamic => 4
  }

  /** Within a stage single fields come first, then maps, then slices. */
  function ShapeNumber(s: Shape): nat {
    match s case One => 1 case Keyed => 2 case Many => 3
  }

  /** The order in terms of stages and shapes. */
  lemma StagesInOrder(sc: Schema, t: TypeName, i: nat, j: nat)
    requires i < j < |FieldOrder(sc, t)|
    ensures var a, b := sc.spec(t, FieldOrder(sc, t)[i]), sc.spec(t, FieldOrder(sc, t)[j]);
      && a.Special? && b.Special?
      && StageNumber(a.stage) <= StageNumber(b.stage)
      && (a.stage == b.stage ==> ShapeNumber(a.shape) <= ShapeNumber(b.shape))
  {
    OrderIsStaged(sc, t);
    var f, g := FieldOrder(sc, t)[i], FieldOrder(sc, t)[j];
    assert f in FieldOrder(sc, t) && g in FieldOrder(sc, t);
    assert RankOf(sc, t, f) >= RankOf(sc, t, g);
    RankIsLexicographic(sc.spec(t, f));
    RankIsLexicographic(sc.spec(t, g));
  }

  lemma RankIsLexicographic(s: Spec)
    ensures s.Special? ==> Rank(s) == 15 - 3 * StageNumber(s.stage) - ShapeNumber(s.shape)
  {
  }

  // ---------------------------------------------------------------------------------------------
  // Printing
  // ---------------------------------------------------------------------------------------------

  /** The tree of a message, or None when printing fails.  `n` bounds the encoded elements still inside. */
  function CreateTree(sc: Schema, ghost n: nat, t: TypeName, m: Msg): Option<map<string, Tree>>
    requires Lawful(sc) && BytesBelow(m, n)
    decreases n, m, 1
  {
    if m.fields.Keys != (set f | f in sc.props(t)) || exists f :: f in m.fields && FieldTree(sc, n, t, m, f).None?
      then None
    else Some(map f | f in m.fields :: FieldTree(sc, n, t, m, f).value)
  }

  function FieldTree(sc: Schema, ghost n: nat, t: TypeName, m: Msg, f: string): Option<Tree>
    requires Lawful(sc) && BytesBelow(m, n) && f in m.fields
    decreases n, m, 0
  {
    assert FieldBelow(m.fields[f], n);
    match (sc.spec(t, f), m.fields[f])
    case (Plain, Atom(a)) => Some(Leaf(a))
    case (Special(stage, One), Nil(One)) => Some(Null)
    case (Special(stage, One), Single(c)) => ContentTree(sc, n, t, m.fields, f, NoKey, stage, c)
    case (Special(stage, Many), Nil(Many)) => Some(Arr([]))
    case (Special(stage, Many), Slice(cs)) =>
      if exists i :: 0 <= i < |cs| && ContentTree(sc, n, t, m.fields, f, At(i), stage, cs[i]).None? then None
      else Some(Arr(seq(|cs|,
                        i requires 0 <= i < |cs| => ContentTree(sc, n, t, m.fields, f, At(i), stage, cs[i]).value)))
    case (Special(stage, Keyed), Nil(Keyed)) => Some(Obj(map[]))
    case (Special(stage, Keyed), Mapping(cs)) =>
      if exists k :: k in cs && ContentTree(sc, n, t, m.fields, f, Under(k), stage, cs[k]).None? then None
      else Some(Obj(map k | k in cs :: ContentTree(sc, n, t, m.fields, f, Under(k), stage, cs[k]).value))
    case _ => None
  }

  function ContentTree(sc: Schema, ghost n: nat, t: TypeName, fields: map<string, Field>, f: string, key: Key,
                       stage: Stage, c: Content): Option<Tree>
    requires Lawful(sc) && ContentBelow(c, n)
    decreases n, c, 2
  {
    var chosen := sc.choose(t, f, key, fields);
    if chosen.None? then None
    else
      match c
      case Message(sub) =>
        if IsOpaque(stage) then None
        else
          var tree := CreateTree(sc, n, chosen.value, sub);
          if tree.None? then None else Some(Obj(tree.value))
      case Bytes(b) =>
        if !IsOpaque(stage) then None
        else
          var sub := sc.unmarshal(chosen.value, b);
          if sub.None? then None
          else
            var tree := CreateTree(sc, |b|, chosen.value, sub.value);
            if tree.None? then None else Some(Obj(tree.value))
  }

  // ---------------------------------------------------------------------------------------------
  // Parsing
  // ---------------------------------------------------------------------------------------------

  function EmptyField(sc: Schema, t: TypeName, f: string): Field {
    match sc.spec(t, f)
    case Plain => Atom(sc.zero(t, f))
    case Special(_, shape) => Nil(shape)
  }

  predicate IsPlain(sc: Schema, t: TypeName, f: string) {
    f in sc.props(t) && sc.spec(t, f).Plain?
  }

  /** The JSON decoder on what is left of the tree: it accepts scalars and null for plain fields only. */
  function PopulatePlain(sc: Schema, t: TypeName, rest: map<string, Tree>): Option<map<string, Field>> {
    if exists f :: f in rest && !(IsPlain(sc, t, f) && (rest[f].Leaf? || rest[f].Null?)) then None
    else Some(map f | f in sc.props(t) ::
      if f in rest && rest[f].Leaf? then Atom(rest[f].a) else EmptyField(sc, t, f))
  }

  function WithoutSpecial(sc: Schema, t: TypeName, members: map<string, Tree>): map<string, Tree> {
    map f | f in members && !(f in sc.props(t) && !sc.spec(t, f).Plain?) :: members[f]
  }

  /** The message that a tree describes, or None when parsing fails. */
  function Populate(sc: Schema, t: TypeName, tree: Tree): Option<Msg>
    requires tree.Obj?
    decreases tree, 1, 0
  {
    var plain := PopulatePlain(sc, t, WithoutSpecial(sc, t, tree.members));
    if plain.None? then None
    else
      var fields := PopulateFields(sc, t, FieldOrder(sc, t), tree, plain.value);
      if fields.None? then None else Some(Msg(fields.value))
  }

  /** Fill the special fields one after another; null and missing ones are left alone. */
  function PopulateFields(sc: Schema, t: TypeName, names: seq<string>, tree: Tree, fields: map<string, Field>)
    : Option<map<string, Field>>
    requires tree.Obj?
    decreases tree, 0, |names|
  {
    if names == [] then Some(fields)
    else if names[0] !in tree.members || tree.members[names[0]].Null? then
      PopulateFields(sc, t, names[1..], tree, fields)
    else
      var v := FieldFrom(sc, t, names[0], tree.members[names[0]], fields);
      if v.None? then None else PopulateFields(sc, t, names[1..], tree, fields[names[0] := v.value])
  }

  function FieldFrom(sc: Schema, t: TypeName, f: string, node: Tree, fields: map<string, Field>): Option<Field>
    decreases node, 3, 0
  {
    match (sc.spec(t, f), node)
    case (Special(stage, One), Obj(_)) =>
      var c := ContentFrom(sc, t, fields, f, NoKey, stage, node);
      if c.None? then None else Some(Single(c.value))
    case (Special(stage, Many), Arr(items)) =>
      if exists i :: 0 <= i < |items| && ContentFrom(sc, t, fields, f, At(i), stage, items[i]).None? then None
      else Some(Slice(seq(|items|,
                          i requires 0 <= i < |items| => ContentFrom(sc, t, fields, f, At(i), stage, items[i]).value)))
    case (Special(stage, Keyed), Obj(members)) =>
      if exists k :: k in members && ContentFrom(sc, t, fields, f, Under(k), stage, members[k]).None? then None
      else Some(Mapping(map k | k in members :: ContentFrom(sc, t, fields, f, Under(k), stage, members[k]).value))
    case _ => None
  }

  function ContentFrom(sc: Schema, t: TypeName, fields: map<string, Field>, f: string, key: Key, stage: Stage,
                       node: Tree)
    : Option<Content>
    decreases node, 2, 0
  {
    var chosen := sc.choose(t, f, key, fields);
    if chosen.None? || !node.Obj? then None
    else
      var sub := Populate(sc, chosen.value, node);
      if sub.None? then None
      else Some(if IsOpaque(stage) then Bytes(sc.marshal(chosen.value, sub.value)) else Message(sub.value))
  }
}
