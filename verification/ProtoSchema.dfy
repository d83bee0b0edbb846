/**
 Protocol messages as data, their intermediate trees, and what a schema says about them.

 Bytes fields may hold encoded messages.  A nested or statically opaque element has a fixed message type, the
 type of a variably opaque or dynamic one depends on other fields of its message; all four kinds are asked
 for their type through `choose`.
 */
module ProtoSchema {
  import opened Wrappers

  type TypeName = string

  /** A scalar, as the JSON encoder renders it. */
  type Scalar = string

  /** One element of a field: a message, or bytes that encode one. */
  datatype Content = Message(m: Msg) | Bytes(b: seq<byte>)

  datatype Shape = One | Many | Keyed

  /** The value of a field: a scalar, or a single element, a slice or a map, each of which may be nil. */
  datatype Field =
    | Atom(a: Scalar)
    | Nil(shape: Shape)
    | Single(element: Content)
    | Slice(elements: seq<Content>)
    | Mapping(entries: map<string, Content>)

  datatype Msg = Msg(fields: map<string, Field>)

  datatype Tree = Null | Leaf(a: Scalar) | Arr(items: seq<Tree>) | Obj(members: map<string, Tree>)

  datatype Stage = Nested | Static | Variable | Dynamic

  datatype Spec = Plain | Special(stage: Stage, shape: Shape)

  /** Which element of a field is meant. */
  datatype Key = NoKey | At(i: nat) | Under(k: string)

  datatype Schema = Schema(
    props: TypeName -> seq<string>,                                              // field names, as declared
    spec: (TypeName, string) -> Spec,
    choose: (TypeName, string, Key, map<string, Field>) -> Option<TypeName>,     // None is an error
    zero: (TypeName, string) -> Scalar,
    marshal: (TypeName, Msg) -> seq<byte>,
    unmarshal: (TypeName, seq<byte>) -> Option<Msg>)

  /** The position of the factory that handles a field: the lower ranks may depend on the higher ones. */
  function Rank(s: Spec): (r: nat)
    ensures r <= 12
  {
    match s
    case Plain => 12
    case Special(Nested, One) => 11
    case Special(Nested, Keyed) => 10
    case Special(Nested, Many) => 9
    case Special(Static, One) => 8
    case Special(Static, Keyed) => 7
    case Special(Static, Many) => 6
    case Special(Variable, One) => 5
    case Special(Variable, Keyed) => 4
    case Special(Variable, Many) => 3
    case Special(Dynamic, One) => 2
    case Special(Dynamic, Keyed) => 1
    case Special(Dynamic, Many) => 0
  }

  function RankOf(sc: Schema, t: TypeName, f: string): nat {
    Rank(sc.spec(t, f))
  }

  predicate IsOpaque(stage: Stage) {
    stage.Static? || stage.Variable?
  }

  // ---------------------------------------------------------------------------------------------
  // Nil and empty
  // ---------------------------------------------------------------------------------------------

  /** The message with every nil collection made empty, at every depth. */
  function Normal(m: Msg): Msg
    decreases m
  {
    Msg(map f | f in m.fields :: NormalField(m.fields[f]))
  }

  function NormalField(v: Field): Field
    decreases v
  {
    match v
    case Atom(_) => v
    case Nil(One) => v
    case Nil(Many) => Slice([])
    case Nil(Keyed) => Mapping(map[])
    case Single(c) => Single(NormalContent(c))
    case Slice(cs) => Slice(seq(|cs|, i requires 0 <= i < |cs| => NormalContent(cs[i])))
    case Mapping(cs) => Mapping(map k | k in cs :: NormalContent(cs[k]))
  }

  function NormalContent(c: Content): Content
    decreases c
  {
    match c
    case Message(m) => Message(Normal(m))
    case Bytes(_) => c
  }

  // ---------------------------------------------------------------------------------------------
  // The encoded size as a measure
  // ---------------------------------------------------------------------------------------------

  /** Every encoded element in the message is shorter than n. */
  ghost predicate BytesBelow(m: Msg, n: nat)
    decreases m
  {
    forall f | f in m.fields :: FieldBelow(m.fields[f], n)
  }

  ghost predicate FieldBelow(v: Field, n: nat)
    decreases v
  {
    match v
    case Atom(_) => true
    case Nil(_) => true
    case Single(c) => ContentBelow(c, n)
    case Slice(cs) => forall i | 0 <= i < |cs| :: ContentBelow(cs[i], n)
    case Mapping(cs) => forall k | k in cs :: ContentBelow(cs[k], n)
  }

  ghost predicate ContentBelow(c: Content, n: nat)
    decreases c
  {
    match c
    case Message(m) => BytesBelow(m, n)
    case Bytes(b) => |b| < n
  }

  // ---------------------------------------------------------------------------------------------
  // Laws of a schema
  // ---------------------------------------------------------------------------------------------

  /** The two messages have, up to nil and empty, the same values in all fields of rank above r. */
  ghost predicate AgreeAbove(sc: Schema, t: TypeName, a: map<string, Field>, b: map<string, Field>, r: nat) {
    forall g | g in sc.props(t) && RankOf(sc, t, g) > r ::
      g in a && g in b && NormalField(a[g]) == NormalField(b[g])
  }

  /**
   The type of an element depends on fields of higher rank only, an encoded field is shorter than the encoding
   of its message, and the encoding does not tell nil from empty.
   */
  ghost predicate Lawful(sc: Schema) {
    && (forall t, f, key, a, b {:trigger AgreeAbove(sc, t, a, b, RankOf(sc, t, f)), sc.choose(t, f, key, a)} ::
          AgreeAbove(sc, t, a, b, RankOf(sc, t, f)) ==> sc.choose(t, f, key, a) == sc.choose(t, f, key, b))
    && (forall t, b :: sc.unmarshal(t, b).Some? ==> BytesBelow(sc.unmarshal(t, b).value, |b|))
    && (forall t, m {:trigger sc.marshal(t, Normal(m))} :: sc.marshal(t, Normal(m)) == sc.marshal(t, m))
  }
}
