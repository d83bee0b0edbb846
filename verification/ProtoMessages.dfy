/**
 The recursive printer and parser as the source runs them: loops over the fields of a message, which the
 parser fills in place.
 */
module ProtoMessages {
  import opened Wrappers
  import opened ProtoSchema
  import opened ProtoTree

  /** A message that is being filled. */
  class Message {
    var fields: map<string, Field>

    /** A newly allocated message: scalars at their zero value, everything else nil. */
    constructor (sc: Schema, t: TypeName)
      ensures fields == map f | f in sc.props(t) :: EmptyField(sc, t, f)
    {
      fields := map f | f in sc.props(t) :: EmptyField(sc, t, f);
    }
  }

  /** The special fields, collected factory by factory and listed from the last factory to the first. */
  method ProtoFields(sc: Schema, t: TypeName) returns (order: seq<string>)
    ensures order == FieldOrder(sc, t)
  {
    var buckets := CollectByFactory(sc, t);
    order := [];
    var i := 12;
    while i > 0
      invariant 0 <= i <= 12
      invariant order + (if i == 0 then [] else OrderFrom(sc, t, i - 1)) == FieldOrder(sc, t)
    {
      i := i - 1;
      order := order + buckets[i];
    }
  }

  /** The first factory that handles a field takes it. */
  method CollectByFactory(sc: Schema, t: TypeName) returns (buckets: seq<seq<string>>)
    ensures |buckets| == 12
    ensures forall r | 0 <= r < 12 :: buckets[r] == Bucket(sc, t, sc.props(t), r)
  {
    var props := sc.props(t);
    buckets := seq(12, i => []);
    for k := 0 to |props|
      invariant |buckets| == 12
      invariant forall r | 0 <= r < 12 :: buckets[r] == Bucket(sc, t, props[..k], r)
    {
      assert props[..k + 1][..k] == props[..k];
      var r := RankOf(sc, t, props[k]);
      if r < 12 {
        buckets := buckets[r := buckets[r] + [props[k]]];
      }
    }
    assert props[..|props|] == props;
  }

  // ---------------------------------------------------------------------------------------------
  // Parsing
  // ---------------------------------------------------------------------------------------------

  /** The JSON decoder, which sets the plain fields. */
  method MapToProto(sc: Schema, t: TypeName, rest: map<string, Tree>, msg: Message) returns (ok: bool)
    modifies msg
    ensures ok <==> PopulatePlain(sc, t, rest).Some?
    ensures ok ==> msg.fields == PopulatePlain(sc, t, rest).value
  {
    var plain := PopulatePlain(sc, t, rest);
    if plain.None? {
      return false;
    }
    msg.fields := plain.value;
    return true;
  }

  /** Move the special entries out of the tree. */
  method TakeSpecial(sc: Schema, t: TypeName, names: seq<string>, members: map<string, Tree>)
    returns (special: map<string, Tree>, rest: map<string, Tree>)
    requires forall f :: f in names <==> f in sc.props(t) && sc.spec(t, f).Special?
    ensures rest == WithoutSpecial(sc, t, members)
    ensures special == map f | f in members && f in names :: members[f]
  {
    special, rest := map[], members;
    for i := 0 to |names|
      invariant rest == map f | f in members && f !in names[..i] :: members[f]
      invariant special == map f | f in members && f in names[..i] :: members[f]
    {
      assert names[..i + 1] == names[..i] + [names[i]];
      if names[i] in rest {
        special := special[names[i] := rest[names[i]]];
        rest := rest - {names[i]};
      }
    }
    assert names[..|names|] == names;
  }

  method PopulateMessage(sc: Schema, t: TypeName, tree: Tree, msg: Message) returns (ok: bool)
    requires tree.Obj?
    modifies msg
    ensures ok <==> Populate(sc, t, tree).Some?
    ensures ok ==> Msg(msg.fields) == Populate(sc, t, tree).value
    decreases tree, 1, 0
  {
    var names := ProtoFields(sc, t);
    OrderIsStaged(sc, t);
    var special, rest := TakeSpecial(sc, t, names, tree.members);
    ok := MapToProto(sc, t, rest, msg);
    if !ok {
      return;
    }
    ok := PopulateSpecial(sc, t, tree, names, special, msg);
  }

  /** The loop over the special fields, in the order of the stages. */
  method PopulateSpecial(sc: Schema, t: TypeName, tree: Tree, names: seq<string>, special: map<string, Tree>,
                         msg: Message)
    returns (ok: bool)
    requires tree.Obj? && special == map f | f in tree.members && f in names :: tree.members[f]
    modifies msg
    ensures ok <==> PopulateFields(sc, t, names, tree, old(msg.fields)).Some?
    ensures ok ==> msg.fields == PopulateFields(sc, t, names, tree, old(msg.fields)).value
    decreases tree, 0, 0
  {
    assert names[0..] == names;
    for i := 0 to |names|
      invariant PopulateFields(sc, t, names[i..], tree, msg.fields)
        == PopulateFields(sc, t, names, tree, old(msg.fields))
    {
      var f := names[i];
      assert names[i..][0] == f && names[i..][1..] == names[i + 1..];
      assert f in special <==> f in tree.members;
      if f !in special || special[f].Null? {
        continue;
      }
      var v := PopulateFrom(sc, t, f, special[f], msg.fields);
      if v.None? {
        return false;
      }
      msg.fields := msg.fields[f := v.value];
    }
    return true;
  }

  method PopulateFrom(sc: Schema, t: TypeName, f: string, node: Tree, fields: map<string, Field>)
    returns (v: Option<Field>)
    ensures v == FieldFrom(sc, t, f, node, fields)
    decreases node, 3, 1
  {
    match (sc.spec(t, f), node)
    case (Special(stage, One), Obj(_)) =>
      var c := ElementFrom(sc, t, fields, f, NoKey, stage, node);
      return if c.None? then None else Some(Single(c.value));
    case (Special(stage, Many), Arr(items)) =>
      v := SliceFrom(sc, t, f, stage, node, fields);
    case (Special(stage, Keyed), Obj(_)) =>
      v := MapFrom(sc, t, f, stage, node, fields);
    case _ =>
      return None;
  }

  method SliceFrom(sc: Schema, t: TypeName, f: string, stage: Stage, node: Tree, fields: map<string, Field>)
    returns (v: Option<Field>)
    requires node.Arr? && sc.spec(t, f) == Special(stage, Many)
    ensures v == FieldFrom(sc, t, f, node, fields)
    decreases node, 3, 0
  {
    var result: seq<Content> := [];
    for i := 0 to |node.items|
      invariant |result| == i
      invariant forall j | 0 <= j < i :: ContentFrom(sc, t, fields, f, At(j), stage, node.items[j]) == Some(result[j])
    {
      var c := ElementFrom(sc, t, fields, f, At(i), stage, node.items[i]);
      if c.None? {
        return None;
      }
      result := result + [c.value];
    }
    v := Some(Slice(result));
    assert FieldFrom(sc, t, f, node, fields).value.elements == result;
  }

  method MapFrom(sc: Schema, t: TypeName, f: string, stage: Stage, node: Tree, fields: map<string, Field>)
    returns (v: Option<Field>)
    requires node.Obj? && sc.spec(t, f) == Special(stage, Keyed)
    ensures v == FieldFrom(sc, t, f, node, fields)
    decreases node, 3, 0
  {
    var result: map<string, Content> := map[];
    var todo := node.members.Keys;
    while todo != {}
      invariant todo <= node.members.Keys
      invariant MapFilled(sc, t, f, stage, node.members, fields, node.members.Keys - todo, result)
      decreases todo
    {
      var k :| k in todo;
      ghost var done := node.members.Keys - todo;
      todo := todo - {k};
      var c := ElementFrom(sc, t, fields, f, Under(k), stage, node.members[k]);
      if c.None? {
        return None;
      }
      result := result[k := c.value];
      assert node.members.Keys - todo == done + {k};
    }
    MapIsFilled(sc, t, f, stage, node, fields, result);
    v := Some(Mapping(result));
  }

  /** The entries under `done` are parsed. */
  ghost predicate MapFilled(sc: Schema, t: TypeName, f: string, stage: Stage, members: map<string, Tree>,
                            fields: map<string, Field>, done: set<string>, result: map<string, Content>)
  {
    && done <= members.Keys && result.Keys == done
    && forall k | k in done :: ContentFrom(sc, t, fields, f, Under(k), stage, members[k]) == Some(result[k])
  }

  lemma MapIsFilled(sc: Schema, t: TypeName, f: string, stage: Stage, node: Tree, fields: map<string, Field>,
                    result: map<string, Content>)
    requires node.Obj? && sc.spec(t, f) == Special(stage, Keyed)
    requires MapFilled(sc, t, f, stage, node.members, fields, node.members.Keys, result)
    ensures FieldFrom(sc, t, f, node, fields) == Some(Mapping(result))
  {
    assert FieldFrom(sc, t, f, node, fields).value.entries == result;
  }

  /** Fill a fresh message from the tree; an opaque element is then encoded. */
  method ElementFrom(sc: Schema, t: TypeName, fields: map<string, Field>, f: string, key: Key, stage: Stage, node: Tree)
    returns (c: Option<Content>)
    ensures c == ContentFrom(sc, t, fields, f, key, stage, node)
    decreases node, 2, 0
  {
    var chosen := sc.choose(t, f, key, fields);
    if chosen.None? || !node.Obj? {
      return None;
    }
    var nMsg := new Message(sc, chosen.value);
    var ok := PopulateMessage(sc, chosen.value, node, nMsg);
    if !ok {
      return None;
    }
    var m := Msg(nMsg.fields);
    return Some(if IsOpaque(stage) then Bytes(sc.marshal(chosen.value, m)) else Content.Message(m));
  }

  // ---------------------------------------------------------------------------------------------
  // Printing
  // ---------------------------------------------------------------------------------------------

  /** Whether a value is of the Go type that the schema gives the field. */
  predicate Fits(s: Spec, v: Field) {
    match s
    case Plain => v.Atom?
    case Special(_, shape) =>
      (match v
       case Atom(_) => false
       case Nil(sh) => sh == shape
       case Single(_) => shape == One
       case Slice(_) => shape == Many
       case Mapping(_) => shape == Keyed)
  }

  /** What the JSON encoder prints for a field; the entries of special fields that are not nil get replaced. */
  function JsonOf(v: Field): Tree {
    match v
    case Atom(a) => Leaf(a)
    case Nil(Many) => Arr([])
    case Nil(Keyed) => Obj(map[])
    case _ => Null
  }

  /** The fields printed so far, then what the JSON encoder printed for the others. */
  ghost predicate Printing(sc: Schema, n: nat, t: TypeName, m: Msg, names: seq<string>, tree: map<string, Tree>)
    requires Lawful(sc) && BytesBelow(m, n)
  {
    && tree.Keys == m.fields.Keys
    && forall f | f in m.fields ::
         if f in names then FieldTree(sc, n, t, m, f) == Some(tree[f]) else tree[f] == JsonOf(m.fields[f])
  }

  method CreateTreeFromMessage(sc: Schema, ghost n: nat, t: TypeName, m: Msg) returns (r: Option<map<string, Tree>>)
    requires Lawful(sc) && BytesBelow(m, n)
    ensures r == CreateTree(sc, n, t, m)
    decreases n, m, 1, 2
  {
    if m.fields.Keys != (set f | f in sc.props(t)) {
      return None;
    }
    if f :| f in m.fields && !Fits(sc.spec(t, f), m.fields[f]) {
      assert FieldTree(sc, n, t, m, f).None?;
      return None;
    }
    var names := ProtoFields(sc, t);
    OrderIsStaged(sc, t);
    var tree := map f | f in m.fields :: JsonOf(m.fields[f]);
    r := PrintSpecial(sc, n, t, m, names, tree);
    if r.Some? {
      PrintingDone(sc, n, t, m, names, r.value);
    }
  }

  /** The loop that replaces the entries of the special fields. */
  method PrintSpecial(sc: Schema, ghost n: nat, t: TypeName, m: Msg, names: seq<string>, plain: map<string, Tree>)
    returns (r: Option<map<string, Tree>>)
    requires Lawful(sc) && BytesBelow(m, n) && Printing(sc, n, t, m, [], plain)
    requires forall f | f in names :: f in m.fields && sc.spec(t, f).Special? && Fits(sc.spec(t, f), m.fields[f])
    ensures r.Some? ==> Printing(sc, n, t, m, names, r.value)
    ensures r.None? ==> exists f :: f in m.fields && FieldTree(sc, n, t, m, f).None?
    decreases n, m, 1, 1
  {
    var tree := plain;
    for i := 0 to |names|
      invariant Printing(sc, n, t, m, names[..i], tree)
    {
      assert names[..i + 1] == names[..i] + [names[i]] && names[i] in names;
      PrintingStep(sc, n, t, m, names[..i], tree, names[i]);
      if m.fields[names[i]].Nil? {
        continue;
      }
      var v := PopulateTo(sc, n, t, m, names[i]);
      if v.None? {
        return None;
      }
      tree := (tree - {names[i]})[names[i] := v.value];
    }
    assert names[..|names|] == names;
    return Some(tree);
  }

  lemma PrintingStep(sc: Schema, n: nat, t: TypeName, m: Msg, names: seq<string>, tree: map<string, Tree>, f: string)
    requires Lawful(sc) && BytesBelow(m, n) && Printing(sc, n, t, m, names, tree)
    requires f in m.fields && sc.spec(t, f).Special? && Fits(sc.spec(t, f), m.fields[f])
    ensures m.fields[f].Nil? ==> Printing(sc, n, t, m, names + [f], tree)
    ensures FieldTree(sc, n, t, m, f).Some? ==>
      Printing(sc, n, t, m, names + [f], (tree - {f})[f := FieldTree(sc, n, t, m, f).value])
  {
    if m.fields[f].Nil? {
      assert FieldTree(sc, n, t, m, f) == Some(JsonOf(m.fields[f]));
    }
  }

  lemma PrintingDone(sc: Schema, n: nat, t: TypeName, m: Msg, names: seq<string>, tree: map<string, Tree>)
    requires Lawful(sc) && BytesBelow(m, n) && Printing(sc, n, t, m, names, tree)
    requires m.fields.Keys == (set f | f in sc.props(t))
    requires forall f | f in m.fields :: Fits(sc.spec(t, f), m.fields[f])
    requires forall f :: f in names <==> f in sc.props(t) && sc.spec(t, f).Special?
    ensures CreateTree(sc, n, t, m) == Some(tree)
  {
    forall f | f in m.fields ensures FieldTree(sc, n, t, m, f) == Some(tree[f]) {
      if f !in names {
        assert sc.spec(t, f).Plain?;
      }
    }
    assert CreateTree(sc, n, t, m).value == tree;
  }

  method PopulateTo(sc: Schema, ghost n: nat, t: TypeName, m: Msg, f: string) returns (v: Option<Tree>)
    requires Lawful(sc) && BytesBelow(m, n) && f in m.fields
    requires sc.spec(t, f).Special? && Fits(sc.spec(t, f), m.fields[f]) && !m.fields[f].Nil?
    ensures v == FieldTree(sc, n, t, m, f)
    decreases n, m, 0, 1
  {
    assert FieldBelow(m.fields[f], n);
    var stage := sc.spec(t, f).stage;
    match m.fields[f]
    case Single(c) =>
      v := ElementTo(sc, n, t, m.fields, f, NoKey, stage, c);
    case Slice(cs) =>
      v := SliceTo(sc, n, t, m, f, cs);
    case Mapping(cs) =>
      v := MapTo(sc, n, t, m, f, cs);
  }

  method SliceTo(sc: Schema, ghost n: nat, t: TypeName, m: Msg, f: string, cs: seq<Content>) returns (v: Option<Tree>)
    requires Lawful(sc) && BytesBelow(m, n) && f in m.fields && m.fields[f] == Slice(cs)
    requires sc.spec(t, f).Special? && sc.spec(t, f).shape == Many
    ensures v == FieldTree(sc, n, t, m, f)
    decreases n, m, 0, 0
  {
    assert FieldBelow(m.fields[f], n);
    var stage := sc.spec(t, f).stage;
    var result: seq<Tree> := [];
    for i := 0 to |cs|
      invariant |result| == i
      invariant forall j | 0 <= j < i :: ContentTree(sc, n, t, m.fields, f, At(j), stage, cs[j]) == Some(result[j])
    {
      var x := ElementTo(sc, n, t, m.fields, f, At(i), stage, cs[i]);
      if x.None? {
        return None;
      }
      result := result + [x.value];
    }
    v := Some(Arr(result));
    assert FieldTree(sc, n, t, m, f).value.items == result;
  }

  method MapTo(sc: Schema, ghost n: nat, t: TypeName, m: Msg, f: string, cs: map<string, Content>)
    returns (v: Option<Tree>)
    requires Lawful(sc) && BytesBelow(m, n) && f in m.fields && m.fields[f] == Mapping(cs)
    requires sc.spec(t, f).Special? && sc.spec(t, f).shape == Keyed
    ensures v == FieldTree(sc, n, t, m, f)
    decreases n, m, 0, 0
  {
    assert FieldBelow(m.fields[f], n);
    var stage := sc.spec(t, f).stage;
    var result: map<string, Tree> := map[];
    var todo := cs.Keys;
    while todo != {}
      invariant todo <= cs.Keys
      invariant MapPrinted(sc, n, t, m, f, cs, cs.Keys - todo, result)
      decreases todo
    {
      var k :| k in todo;
      ghost var done := cs.Keys - todo;
      todo := todo - {k};
      var x := ElementTo(sc, n, t, m.fields, f, Under(k), stage, cs[k]);
      if x.None? {
        return None;
      }
      result := result[k := x.value];
      assert cs.Keys - todo == done + {k};
    }
    MapIsPrinted(sc, n, t, m, f, cs, result);
    v := Some(Obj(result));
  }

  /** The entries under `done` are printed. */
  ghost predicate MapPrinted(sc: Schema, n: nat, t: TypeName, m: Msg, f: string, cs: map<string, Content>,
                             done: set<string>, result: map<string, Tree>)
    requires Lawful(sc) && FieldBelow(Mapping(cs), n) && sc.spec(t, f).Special?
  {
    && done <= cs.Keys && result.Keys == done
    && forall k | k in done ::
         ContentTree(sc, n, t, m.fields, f, Under(k), sc.spec(t, f).stage, cs[k]) == Some(result[k])
  }

  lemma MapIsPrinted(sc: Schema, n: nat, t: TypeName, m: Msg, f: string, cs: map<string, Content>,
                     result: map<string, Tree>)
    requires Lawful(sc) && BytesBelow(m, n) && f in m.fields && m.fields[f] == Mapping(cs) && FieldBelow(Mapping(cs), n)
    requires sc.spec(t, f).Special? && sc.spec(t, f).shape == Keyed
    requires MapPrinted(sc, n, t, m, f, cs, cs.Keys, result)
    ensures FieldTree(sc, n, t, m, f) == Some(Obj(result))
  {
    assert FieldTree(sc, n, t, m, f).value.members == result;
  }

  /** Print the message of an element; an opaque element is decoded first. */
  method ElementTo(sc: Schema, ghost n: nat, t: TypeName, fields: map<string, Field>, f: string, key: Key, stage: Stage,
                   c: Content) returns (v: Option<Tree>)
    requires Lawful(sc) && ContentBelow(c, n)
    ensures v == ContentTree(sc, n, t, fields, f, key, stage, c)
    decreases n, c, 2, 0
  {
    var chosen := sc.choose(t, f, key, fields);
    if chosen.None? || c.Bytes? != IsOpaque(stage) {
      return None;
    }
    var tree: Option<map<string, Tree>>;
    match c {
      case Message(sub) =>
        tree := CreateTreeFromMessage(sc, n, chosen.value, sub);
      case Bytes(b) =>
        var sub := sc.unmarshal(chosen.value, b);
        if sub.None? {
          return None;
        }
        tree := CreateTreeFromMessage(sc, |b|, chosen.value, sub.value);
    }
    return if tree.None? then None else Some(Obj(tree.value));
  }
}
