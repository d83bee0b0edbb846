/**
 What the printer accepts, and what its tree shows: exactly when printing succeeds, and what stands at every
 place of the tree, through nested and encoded messages.
 */
module ProtoView {
  import opened Wrappers
  import opened ProtoSchema
  import opened ProtoTree

  // ---------------------------------------------------------------------------------------------
  // When printing succeeds
  // ---------------------------------------------------------------------------------------------

  /** The value is of the kind that the schema declares. */
  predicate HasKind(s: Spec, v: Field) {
    match s
    case Plain => v.Atom?
    case Special(_, One) => v == Nil(One) || v.Single?
    case Special(_, Many) => v == Nil(Many) || v.Slice?
    case Special(_, Keyed) => v == Nil(Keyed) || v.Mapping?
  }

  /** All fields are there and of their kind, and all elements can be printed. */
  ghost predicate Printable(sc: Schema, n: nat, t: TypeName, m: Msg)
    requires Lawful(sc) && BytesBelow(m, n)
    decreases n, m, 1
  {
    && m.fields.Keys == (set f | f in sc.props(t))
    && forall f | f in m.fields :: HasKind(sc.spec(t, f), m.fields[f]) && FieldPrintable(sc, n, t, m, f)
  }

  ghost predicate FieldPrintable(sc: Schema, n: nat, t: TypeName, m: Msg, f: string)
    requires Lawful(sc) && BytesBelow(m, n) && f in m.fields
    decreases n, m, 0
  {
    assert FieldBelow(m.fields[f], n);
    match m.fields[f]
    case Single(c) => ElementPrintable(sc, n, t, m.fields, f, NoKey, c)
    case Slice(cs) => forall i | 0 <= i < |cs| :: ElementPrintable(sc, n, t, m.fields, f, At(i), cs[i])
    case Mapping(cs) => forall k | k in cs :: ElementPrintable(sc, n, t, m.fields, f, Under(k), cs[k])
    case _ => true
  }

  /** The element has a type, is encoded exactly in an opaque field, and decodes to something printable. */
  ghost predicate ElementPrintable(sc: Schema, n: nat, t: TypeName, fields: map<string, Field>, f: string, key: Key,
                                   c: Content)
    requires Lawful(sc) && ContentBelow(c, n)
    decreases n, c, 2
  {
    var chosen := sc.choose(t, f, key, fields);
    && chosen.Some?
    && sc.spec(t, f).Special?
    && (c.Bytes? <==> IsOpaque(sc.spec(t, f).stage))
    && match c
       case Message(sub) => Printable(sc, n, chosen.value, sub)
       case Bytes(b) =>
         var sub := sc.unmarshal(chosen.value, b);
         sub.Some? && Printable(sc, |b|, chosen.value, sub.value)
  }

  /** Printing succeeds exactly on printable messages. */
  lemma {:induction false} PrintsExactly(sc: Schema, n: nat, t: TypeName, m: Msg)
    requires Lawful(sc) && BytesBelow(m, n)
    ensures CreateTree(sc, n, t, m).Some? <==> Printable(sc, n, t, m)
    decreases n, m, 2
  {
    forall f | f in m.fields
      ensures FieldTree(sc, n, t, m, f).Some?
          <==> HasKind(sc.spec(t, f), m.fields[f]) && FieldPrintable(sc, n, t, m, f)
    {
      FieldPrintsExactly(sc, n, t, m, f);
    }
  }

  lemma {:induction false} FieldPrintsExactly(sc: Schema, n: nat, t: TypeName, m: Msg, f: string)
    requires Lawful(sc) && BytesBelow(m, n) && f in m.fields
    ensures FieldTree(sc, n, t, m, f).Some?
        <==> HasKind(sc.spec(t, f), m.fields[f]) && FieldPrintable(sc, n, t, m, f)
    decreases n, m, 1
  {
    assert FieldBelow(m.fields[f], n);
    if sc.spec(t, f).Special? {
      match m.fields[f]
      case Single(c) => ElementPrintsExactly(sc, n, t, m.fields, f, NoKey, c);
      case Slice(cs) =>
        forall i | 0 <= i < |cs|
          ensures ContentTree(sc, n, t, m.fields, f, At(i), sc.spec(t, f).stage, cs[i]).Some?
              <==> ElementPrintable(sc, n, t, m.fields, f, At(i), cs[i])
        {
          ElementPrintsExactly(sc, n, t, m.fields, f, At(i), cs[i]);
        }
      case Mapping(cs) =>
        forall k | k in cs
          ensures ContentTree(sc, n, t, m.fields, f, Under(k), sc.spec(t, f).stage, cs[k]).Some?
              <==> ElementPrintable(sc, n, t, m.fields, f, Under(k), cs[k])
        {
          ElementPrintsExactly(sc, n, t, m.fields, f, Under(k), cs[k]);
        }
      case _ =>
    }
  }

  lemma {:induction false} ElementPrintsExactly(sc: Schema, n: nat, t: TypeName, fields: map<string, Field>,
                                                f: string, key: Key, c: Content)
    requires Lawful(sc) && ContentBelow(c, n) && sc.spec(t, f).Special?
    ensures ContentTree(sc, n, t, fields, f, key, sc.spec(t, f).stage, c).Some?
        <==> ElementPrintable(sc, n, t, fields, f, key, c)
    decreases n, c, 3
  {
    var chosen := sc.choose(t, f, key, fields);
    if chosen.Some? {
      match c
      case Message(sub) => PrintsExactly(sc, n, chosen.value, sub);
      case Bytes(b) =>
        var sub := sc.unmarshal(chosen.value, b);
        if sub.Some? {
          PrintsExactly(sc, |b|, chosen.value, sub.value);
        }
    }
  }

  // ---------------------------------------------------------------------------------------------
  // What the tree shows
  // ---------------------------------------------------------------------------------------------

  /** A field and which of its elements is meant. */
  datatype Step = Step(field: string, key: Key)

  function ElementAt(v: Field, key: Key): Option<Content> {
    match (v, key)
    case (Single(c), NoKey) => Some(c)
    case (Slice(cs), At(i)) => if i < |cs| then Some(cs[i]) else None
    case (Mapping(cs), Under(k)) => if k in cs then Some(cs[k]) else None
    case _ => None
  }

  /** The message that is an element, or is encoded in it. */
  function Opened(sc: Schema, t: TypeName, c: Content): Option<Msg> {
    match c
    case Message(sub) => Some(sub)
    case Bytes(b) => sc.unmarshal(t, b)
  }

  /** The message at the end of a walk through elements, decoded on the way, with its type. */
  function MsgAt(sc: Schema, t: TypeName, m: Msg, path: seq<Step>): Option<(TypeName, Msg)>
    decreases |path|
  {
    if path == [] then Some((t, m))
    else
      var step := path[0];
      if step.field !in m.fields then None
      else
        var c, chosen := ElementAt(m.fields[step.field], step.key), sc.choose(t, step.field, step.key, m.fields);
        if c.None? || chosen.None? then None
        else
          var sub := Opened(sc, chosen.value, c.value);
          if sub.None? then None else MsgAt(sc, chosen.value, sub.value, path[1..])
  }

  function ItemAt(node: Tree, key: Key): Option<Tree> {
    match (node, key)
    case (_, NoKey) => Some(node)
    case (Arr(items), At(i)) => if i < |items| then Some(items[i]) else None
    case (Obj(members), Under(k)) => if k in members then Some(members[k]) else None
    case _ => None
  }

  /** The same walk through the tree. */
  function TreeAt(node: Tree, path: seq<Step>): Option<Tree>
    decreases |path|
  {
    if path == [] then Some(node)
    else if !node.Obj? || path[0].field !in node.members then None
    else
      var item := ItemAt(node.members[path[0].field], path[0].key);
      if item.None? then None else TreeAt(item.value, path[1..])
  }

  /** The tree of a field: scalars as they are, null for a missing element, and as many items as elements. */
  predicate Shows(v: Field, node: Tree) {
    match v
    case Atom(a) => node == Leaf(a)
    case Nil(One) => node == Null
    case Nil(Many) => node == Arr([])
    case Nil(Keyed) => node == Obj(map[])
    case Single(_) => node.Obj?
    case Slice(cs) => node.Arr? && |node.items| == |cs| && forall i | 0 <= i < |cs| :: node.items[i].Obj?
    case Mapping(cs) => node.Obj? && node.members.Keys == cs.Keys && forall k | k in cs :: node.members[k].Obj?
  }

  predicate ShowsAll(m: Msg, members: map<string, Tree>) {
    members.Keys == m.fields.Keys && forall f | f in m.fields :: Shows(m.fields[f], members[f])
  }

  lemma FieldIsShown(sc: Schema, n: nat, t: TypeName, m: Msg, f: string)
    requires Lawful(sc) && BytesBelow(m, n) && f in m.fields && FieldTree(sc, n, t, m, f).Some?
    ensures Shows(m.fields[f], FieldTree(sc, n, t, m, f).value)
  {
    assert FieldBelow(m.fields[f], n);
  }

  /** Taking one step leads from a message to an element's message, and from its tree to that message's tree. */
  lemma OneStep(sc: Schema, n: nat, t: TypeName, m: Msg, step: Step) returns (k: nat)
    requires Lawful(sc) && BytesBelow(m, n) && CreateTree(sc, n, t, m).Some?
    requires MsgAt(sc, t, m, [step]).Some?
    ensures var next := MsgAt(sc, t, m, [step]).value;
      && BytesBelow(next.1, k) && CreateTree(sc, k, next.0, next.1).Some?
      && var node := CreateTree(sc, n, t, m).value;
         && step.field in node
         && ItemAt(node[step.field], step.key) == Some(Obj(CreateTree(sc, k, next.0, next.1).value))
  {
    var f := step.field;
    assert FieldBelow(m.fields[f], n);
    assert FieldTree(sc, n, t, m, f).Some?;
    assert [step][1..] == [];
    var c := ElementAt(m.fields[f], step.key).value;
    k := if c.Bytes? then |c.b| else n;
  }

  /**
   Wherever a walk through the message ends, the same walk through the printed tree ends at the tree of that
   message: all of its fields are there, with the scalars it holds.
   */
  lemma {:induction false} EverythingIsShown(sc: Schema, n: nat, t: TypeName, m: Msg, path: seq<Step>)
    requires Lawful(sc) && BytesBelow(m, n) && CreateTree(sc, n, t, m).Some?
    requires MsgAt(sc, t, m, path).Some?
    ensures var node := TreeAt(Obj(CreateTree(sc, n, t, m).value), path);
      node.Some? && node.value.Obj? && ShowsAll(MsgAt(sc, t, m, path).value.1, node.value.members)
    decreases |path|
  {
    if path == [] {
      forall f | f in m.fields ensures Shows(m.fields[f], CreateTree(sc, n, t, m).value[f]) {
        FieldIsShown(sc, n, t, m, f);
      }
    } else {
      assert [path[0]][1..] == [];
      var k := OneStep(sc, n, t, m, path[0]);
      var next := MsgAt(sc, t, m, [path[0]]).value;
      EverythingIsShown(sc, k, next.0, next.1, path[1..]);
    }
  }
}
