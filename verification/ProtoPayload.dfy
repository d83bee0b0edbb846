/**
 The documented example of staged filling: a payload whose data can only be decoded once the type inside its
 header is known.  The header is a nested message that holds an encoded channel header, the data field is
 variably opaque, and a configuration update holds a slice of nested signatures with encoded headers.

 Messages are encoded field by field in the manner of the protocol encoding.
 */
module ProtoPayload {
  import opened Wrappers
  import opened Wire
  import opened ProtoSchema
  import opened ProtoTree
  import opened ProtoRoundTrip

  function Props(t: TypeName): seq<string> {
    match t
    case "Payload" => ["data", "header"]
    case "Header" => ["channel_header"]
    case "ChannelHeader" => ["channel_id", "type"]
    case "ConfigUpdateEnvelope" => ["config_update", "signatures"]
    case "ConfigSignature" => ["signature_header", "signature"]
    case "SignatureHeader" => ["creator"]
    case _ => ["body"]
  }

  function SpecOf(t: TypeName, f: string): Spec {
    match (t, f)
    case ("Payload", "data") => Special(Variable, One)
    case ("Payload", "header") => Special(Nested, One)
    case ("Header", "channel_header") => Special(Static, One)
    case ("ConfigUpdateEnvelope", "config_update") => Special(Static, One)
    case ("ConfigUpdateEnvelope", "signatures") => Special(Nested, Many)
    case ("ConfigSignature", "signature_header") => Special(Static, One)
    case _ => Plain
  }

  /** The message type of a nested or statically opaque field. */
  function TypeIn(t: TypeName, f: string): TypeName {
    match f
    case "header" => "Header"
    case "channel_header" => "ChannelHeader"
    case "config_update" => "ConfigUpdate"
    case "signatures" => "ConfigSignature"
    case "signature_header" => "SignatureHeader"
    case _ => ""
  }

  // ---------------------------------------------------------------------------------------------
  // Encoding
  // ---------------------------------------------------------------------------------------------

  function FieldsBytes(t: TypeName, names: seq<string>, m: Msg): seq<byte>
    decreases m, 1, |names|
  {
    if names == [] then []
    else
      (if names[0] in m.fields then FieldBytes(t, names[0], m.fields[names[0]]) else NoBytes(t, names[0]))
      + FieldsBytes(t, names[1..], m)
  }

  function NoBytes(t: TypeName, f: string): seq<byte> {
    match SpecOf(t, f)
    case Plain => Text("")
    case Special(_, Keyed) => []
    case _ => [0]
  }

  function FieldBytes(t: TypeName, f: string, v: Field): seq<byte>
    decreases v, 2, 0
  {
    match (SpecOf(t, f), v)
    case (Plain, Atom(a)) => Text(a)
    case (Special(_, One), Single(c)) => [1] + ContentBytes(t, f, c)
    case (Special(_, Many), Slice(cs)) => Varint(|cs|) + EachBytes(t, f, cs, 0)
    case _ => NoBytes(t, f)
  }

  function EachBytes(t: TypeName, f: string, cs: seq<Content>, i: nat): seq<byte>
    requires i <= |cs|
    decreases cs, 3, |cs| - i
  {
    if i == |cs| then [] else ContentBytes(t, f, cs[i]) + EachBytes(t, f, cs, i + 1)
  }

  function ContentBytes(t: TypeName, f: string, c: Content): seq<byte>
    decreases c, 4, 0
  {
    match c
    case Bytes(b) => if IsNested(t, f) then [] else Blob(b)
    case Message(sub) => if IsNested(t, f) then FieldsBytes(TypeIn(t, f), Props(TypeIn(t, f)), sub) else Blob([])
  }

  predicate IsNested(t: TypeName, f: string) {
    SpecOf(t, f).Special? && !IsOpaque(SpecOf(t, f).stage)
  }

  function Marshal(t: TypeName, m: Msg): seq<byte> {
    FieldsBytes(t, Props(t), m)
  }

  // ---------------------------------------------------------------------------------------------
  // Decoding
  // ---------------------------------------------------------------------------------------------

  function ReadFields(t: TypeName, names: seq<string>, b: seq<byte>): (r: Read<map<string, Field>>)
    ensures r.Got? ==> |r.rest| <= |b| && r.value.Keys == (set f | f in names)
    decreases |b|, 1, |names|
  {
    if names == [] then Got(map[], b)
    else
      var first := ReadField(t, names[0], b);
      if first.Malformed? then Malformed
      else
        var others := ReadFields(t, names[1..], first.rest);
        if others.Malformed? then Malformed else Got(others.value[names[0] := first.value], others.rest)
  }

  function ReadField(t: TypeName, f: string, b: seq<byte>): (r: Read<Field>)
    ensures r.Got? ==> |r.rest| <= |b|
    decreases |b|, 0, 0
  {
    match SpecOf(t, f)
    case Plain => (match ReadText(b) case Malformed => Malformed case Got(a, rest) => Got(Atom(a), rest))
    case Special(_, One) =>
      if b == [] then Malformed
      else if b[0] == 0 then Got(Nil(One), b[1..])
      else (match ReadContent(t, f, b[1..]) case Malformed => Malformed case Got(c, rest) => Got(Single(c), rest))
    case Special(_, Many) =>
      var n := ReadVarint(b);
      if n.Malformed? then Malformed
      else
        (match ReadEach(t, f, n.value, n.rest) case Malformed => Malformed case Got(cs, rest) => Got(Slice(cs), rest))
    case Special(_, Keyed) => Got(Nil(Keyed), b)
  }

  function ReadEach(t: TypeName, f: string, n: nat, b: seq<byte>): (r: Read<seq<Content>>)
    ensures r.Got? ==> |r.rest| <= |b|
    decreases |b|, 3, n
  {
    if n == 0 then Got([], b)
    else
      var first := ReadContent(t, f, b);
      if first.Malformed? then Malformed
      else
        var others := ReadEach(t, f, n - 1, first.rest);
        if others.Malformed? then Malformed else Got([first.value] + others.value, others.rest)
  }

  function ReadContent(t: TypeName, f: string, b: seq<byte>): (r: Read<Content>)
    ensures r.Got? ==> |r.rest| <= |b|
    decreases |b|, 2, 0
  {
    if IsNested(t, f) then
      match ReadFields(TypeIn(t, f), Props(TypeIn(t, f)), b)
      case Malformed => Malformed
      case Got(fields, rest) => Got(Message(Msg(fields)), rest)
    else
      match ReadBlob(b)
      case Malformed => Malformed
      case Got(blob, rest) => Got(Bytes(blob), rest)
  }

  function Unmarshal(t: TypeName, b: seq<byte>): Option<Msg> {
    match ReadFields(t, Props(t), b)
    case Malformed => None
    case Got(fields, rest) => if rest == [] then Some(Msg(fields)) else None
  }

  /** A message with the fields of its type, each of the kind that the schema says. */
  predicate Fits(t: TypeName, m: Msg)
    decreases m
  {
    m.fields.Keys == (set f | f in Props(t)) && forall f | f in m.fields :: FieldFits(t, f, m.fields[f])
  }

  predicate FieldFits(t: TypeName, f: string, v: Field)
    decreases v
  {
    match SpecOf(t, f)
    case Plain => v.Atom?
    case Special(_, One) => v == Nil(One) || (v.Single? && ContentFits(t, f, v.element))
    case Special(_, Many) => v.Slice? && forall i | 0 <= i < |v.elements| :: ContentFits(t, f, v.elements[i])
    case Special(_, Keyed) => v == Nil(Keyed)
  }

  predicate ContentFits(t: TypeName, f: string, c: Content)
    decreases c
  {
    if IsNested(t, f) then c.Message? && Fits(TypeIn(t, f), c.m) else c.Bytes?
  }

  /** Decoding gives such a message back, whatever follows it. */
  lemma {:induction false} FieldsRead(t: TypeName, names: seq<string>, m: Msg, rest: seq<byte>)
    requires Fits(t, m) && forall f | f in names :: f in m.fields
    ensures ReadFields(t, names, FieldsBytes(t, names, m) + rest) == Got(map f | f in names :: m.fields[f], rest)
    decreases m, 1, |names|
  {
    var b := FieldsBytes(t, names, m) + rest;
    if names == [] {
      assert b == rest;
    } else {
      var f := names[0];
      var others := FieldsBytes(t, names[1..], m) + rest;
      assert f in names && b == FieldBytes(t, f, m.fields[f]) + others;
      FieldReads(t, f, m.fields[f], others);
      FieldsRead(t, names[1..], m, rest);
      assert names == [f] + names[1..];
      assert (map g | g in names :: m.fields[g]) == (map g | g in names[1..] :: m.fields[g])[f := m.fields[f]];
    }
  }

  lemma {:induction false} FieldReads(t: TypeName, f: string, v: Field, rest: seq<byte>)
    requires FieldFits(t, f, v)
    ensures ReadField(t, f, FieldBytes(t, f, v) + rest) == Got(v, rest)
    decreases v, 2, 0
  {
    var b := FieldBytes(t, f, v) + rest;
    match SpecOf(t, f)
    case Plain => TextReads(v.a, rest);
    case Special(_, One) =>
      if v.Single? {
        ContentReads(t, f, v.element, rest);
        assert b[1..] == ContentBytes(t, f, v.element) + rest;
      } else {
        assert b[1..] == rest;
      }
    case Special(_, Many) =>
      var items := EachBytes(t, f, v.elements, 0) + rest;
      assert b == Varint(|v.elements|) + items;
      VarintReads(|v.elements|, items);
      EachReads(t, f, v.elements, 0, rest);
      assert v.elements[0..] == v.elements;
    case Special(_, Keyed) => assert b == rest;
  }

  lemma {:induction false} EachReads(t: TypeName, f: string, cs: seq<Content>, i: nat, rest: seq<byte>)
    requires i <= |cs| && forall j | 0 <= j < |cs| :: ContentFits(t, f, cs[j])
    ensures ReadEach(t, f, |cs| - i, EachBytes(t, f, cs, i) + rest) == Got(cs[i..], rest)
    decreases cs, 3, |cs| - i
  {
    var b := EachBytes(t, f, cs, i) + rest;
    if i == |cs| {
      assert b == rest && cs[i..] == [];
    } else {
      var others := EachBytes(t, f, cs, i + 1) + rest;
      assert b == ContentBytes(t, f, cs[i]) + others;
      ContentReads(t, f, cs[i], others);
      EachReads(t, f, cs, i + 1, rest);
      assert ReadEach(t, f, |cs| - i - 1, others) == Got(cs[i + 1..], rest);
      assert cs[i..] == [cs[i]] + cs[i + 1..];
    }
  }

  lemma {:induction false} ContentReads(t: TypeName, f: string, c: Content, rest: seq<byte>)
    requires ContentFits(t, f, c)
    ensures ReadContent(t, f, ContentBytes(t, f, c) + rest) == Got(c, rest)
    decreases c, 4, 0
  {
    if IsNested(t, f) {
      var sub, names := TypeIn(t, f), Props(TypeIn(t, f));
      FieldsRead(sub, names, c.m, rest);
      assert (map g | g in names :: c.m.fields[g]) == c.m.fields;
    } else {
      BlobReads(c.b, rest);
    }
  }

  lemma UnmarshalUndoesMarshal(t: TypeName, m: Msg)
    requires Fits(t, m)
    ensures Unmarshal(t, Marshal(t, m)) == Some(m)
  {
    FieldsRead(t, Props(t), m, []);
    assert Marshal(t, m) + [] == Marshal(t, m);
    assert (map f | f in Props(t) :: m.fields[f]) == m.fields;
  }

  // ---------------------------------------------------------------------------------------------
  // The schema and its laws
  // ---------------------------------------------------------------------------------------------

  /** The encoded channel header of a header field. */
  function ChannelHeaderOf(header: Field): Option<seq<byte>> {
    match header
    case Single(Message(h)) =>
      if "channel_header" in h.fields then
        match h.fields["channel_header"]
        case Single(Bytes(b)) => Some(b)
        case _ => None
      else None
    case _ => None
  }

  /** The type text of a channel header says what the data is. */
  function DataType(channelHeader: seq<byte>): Option<TypeName> {
    var m := Unmarshal("ChannelHeader", channelHeader);
    if m.None? || "type" !in m.value.fields then None
    else
      match m.value.fields["type"]
      case Atom("1") => Some("ConfigEnvelope")
      case Atom("2") => Some("ConfigUpdateEnvelope")
      case _ => None
  }

  function Choose(t: TypeName, f: string, key: Key, fields: map<string, Field>): Option<TypeName> {
    if t == "Payload" && f == "data" then
      if "header" !in fields then None
      else
        var b := ChannelHeaderOf(NormalField(fields["header"]));
        if b.None? then None else DataType(b.value)
    else if SpecOf(t, f).Special? then Some(TypeIn(t, f))
    else None
  }

  const SCHEMA := Schema(Props, SpecOf, Choose, (t, f) => "", Marshal, Unmarshal)

  lemma PayloadSchemaIsLawful()
    ensures Lawful(SCHEMA)
  {
    forall t, f, key, a, b | AgreeAbove(SCHEMA, t, a, b, RankOf(SCHEMA, t, f))
      ensures SCHEMA.choose(t, f, key, a) == SCHEMA.choose(t, f, key, b)
    {
      if t == "Payload" && f == "data" {
        assert "header" in SCHEMA.props(t) && RankOf(SCHEMA, t, "header") > RankOf(SCHEMA, t, f);
      }
    }
    forall t, b ensures SCHEMA.unmarshal(t, b).Some? ==> BytesBelow(SCHEMA.unmarshal(t, b).value, |b|) {
      ReadBelow(t, Props(t), b);
    }
    forall t, m ensures SCHEMA.marshal(t, Normal(m)) == SCHEMA.marshal(t, m) {
      NormalBytes(t, Props(t), m);
    }
  }

  /** The encoding does not tell nil from empty. */
  lemma {:induction false} NormalBytes(t: TypeName, names: seq<string>, m: Msg)
    ensures FieldsBytes(t, names, Normal(m)) == FieldsBytes(t, names, m)
    decreases m, 1, |names|
  {
    if names != [] {
      NormalBytes(t, names[1..], m);
      if names[0] in m.fields {
        NormalFieldBytes(t, names[0], m.fields[names[0]]);
      }
    }
  }

  lemma {:induction false} NormalFieldBytes(t: TypeName, f: string, v: Field)
    ensures FieldBytes(t, f, NormalField(v)) == FieldBytes(t, f, v)
    decreases v, 2, 0
  {
    match v
    case Single(c) => NormalContentBytes(t, f, c);
    case Slice(cs) => NormalEachBytes(t, f, cs, NormalField(v).elements, 0);
    case Nil(Many) =>
      assert EachBytes(t, f, [], 0) == [];
    case _ =>
  }

  lemma {:induction false} NormalEachBytes(t: TypeName, f: string, cs: seq<Content>, normal: seq<Content>, i: nat)
    requires i <= |cs| == |normal| && forall j | 0 <= j < |cs| :: normal[j] == NormalContent(cs[j])
    ensures EachBytes(t, f, normal, i) == EachBytes(t, f, cs, i)
    decreases cs, 3, |cs| - i
  {
    if i < |cs| {
      NormalContentBytes(t, f, cs[i]);
      NormalEachBytes(t, f, cs, normal, i + 1);
    }
  }

  lemma {:induction false} NormalContentBytes(t: TypeName, f: string, c: Content)
    ensures ContentBytes(t, f, NormalContent(c)) == ContentBytes(t, f, c)
    decreases c, 4, 0
  {
    if c.Message? {
      NormalBytes(TypeIn(t, f), Props(TypeIn(t, f)), c.m);
    }
  }

  /** Encoded fields are shorter than the encoding around them. */
  lemma {:induction false} ReadBelow(t: TypeName, names: seq<string>, b: seq<byte>)
    ensures var r := ReadFields(t, names, b); r.Got? ==> BytesBelow(Msg(r.value), |b|)
    decreases |b|, 1, |names|
  {
    if names != [] && ReadFields(t, names, b).Got? {
      var first := ReadField(t, names[0], b);
      var others := ReadFields(t, names[1..], first.rest);
      ReadFieldBelow(t, names[0], b);
      ReadBelow(t, names[1..], first.rest);
      forall f | f in others.value ensures FieldBelow(others.value[f], |b|) {
        assert FieldBelow(Msg(others.value).fields[f], |first.rest|);
        WiderFieldBound(others.value[f], |first.rest|, |b|);
      }
    }
  }

  lemma {:induction false} ReadFieldBelow(t: TypeName, f: string, b: seq<byte>)
    ensures var r := ReadField(t, f, b); r.Got? ==> FieldBelow(r.value, |b|)
    decreases |b|, 0, 0
  {
    var r := ReadField(t, f, b);
    match SpecOf(t, f)
    case Special(_, One) =>
      if r.Got? && b[0] != 0 {
        ReadContentBelow(t, f, b[1..]);
        WiderContentBound(r.value.element, |b| - 1, |b|);
      }
    case Special(_, Many) =>
      if r.Got? {
        var n := ReadVarint(b);
        ReadEachBelow(t, f, n.value, n.rest, |b|);
      }
    case _ =>
  }

  lemma {:induction false} ReadEachBelow(t: TypeName, f: string, n: nat, b: seq<byte>, bound: nat)
    requires |b| <= bound
    ensures var r := ReadEach(t, f, n, b); r.Got? ==> forall i | 0 <= i < |r.value| :: ContentBelow(r.value[i], bound)
    decreases |b|, 3, n
  {
    if n > 0 && ReadEach(t, f, n, b).Got? {
      var first := ReadContent(t, f, b);
      ReadContentBelow(t, f, b);
      WiderContentBound(first.value, |b|, bound);
      ReadEachBelow(t, f, n - 1, first.rest, bound);
    }
  }

  lemma {:induction false} ReadContentBelow(t: TypeName, f: string, b: seq<byte>)
    ensures var r := ReadContent(t, f, b); r.Got? ==> ContentBelow(r.value, |b|)
    decreases |b|, 2, 0
  {
    if IsNested(t, f) {
      ReadBelow(TypeIn(t, f), Props(TypeIn(t, f)), b);
    }
  }

  // ---------------------------------------------------------------------------------------------
  // Payloads
  // ---------------------------------------------------------------------------------------------

  datatype Signature = Signature(creator: string, text: string)

  datatype Data = ConfigData(body: string) | UpdateData(update: string, signatures: seq<Signature>)

  function BodyMsg(body: string): Msg {
    Msg(map["body" := Atom(body)])
  }

  function CreatorMsg(creator: string): Msg {
    Msg(map["creator" := Atom(creator)])
  }

  function SignatureMsg(s: Signature): Msg {
    Msg(map["signature_header" := Single(Bytes(Marshal("SignatureHeader", CreatorMsg(s.creator)))),
            "signature" := Atom(s.text)])
  }

  function UpdateMsg(update: string, signatures: seq<Signature>): Msg {
    Msg(map["config_update" := Single(Bytes(Marshal("ConfigUpdate", BodyMsg(update)))),
            "signatures" :=
              Slice(seq(|signatures|, i requires 0 <= i < |signatures| => Message(SignatureMsg(signatures[i]))))])
  }

  function DataName(d: Data): TypeName {
    if d.ConfigData? then "ConfigEnvelope" else "ConfigUpdateEnvelope"
  }

  function DataMsg(d: Data): Msg {
    match d
    case ConfigData(body) => BodyMsg(body)
    case UpdateData(update, signatures) => UpdateMsg(update, signatures)
  }

  function ChannelHeaderMsg(channelId: string, d: Data): Msg {
    Msg(map["channel_id" := Atom(channelId), "type" := Atom(if d.ConfigData? then "1" else "2")])
  }

  function HeaderMsg(channelId: string, d: Data): Msg {
    Msg(map["channel_header" := Single(Bytes(Marshal("ChannelHeader", ChannelHeaderMsg(channelId, d))))])
  }

  function PayloadMsg(channelId: string, d: Data): Msg {
    Msg(map["header" := Single(Message(HeaderMsg(channelId, d))),
            "data" := Single(Bytes(Marshal(DataName(d), DataMsg(d))))])
  }

  /** The message prints, and holds only encodings that the encoder would produce. */
  ghost predicate Prints(n: nat, t: TypeName, m: Msg) {
    && Lawful(SCHEMA) && BytesBelow(m, n)
    && CreateTree(SCHEMA, n, t, m).Some? && Canonical(SCHEMA, n, t, m)
  }

  ghost predicate FieldPrints(n: nat, t: TypeName, m: Msg, f: string)
    requires f in m.fields
  {
    && Lawful(SCHEMA) && BytesBelow(m, n)
    && FieldTree(SCHEMA, n, t, m, f).Some? && FieldCanonical(SCHEMA, n, t, m, f)
  }

  lemma FieldsPrint(n: nat, t: TypeName, m: Msg)
    requires BytesBelow(m, n) && m.fields.Keys == (set f | f in Props(t))
    requires forall f | f in m.fields :: FieldPrints(n, t, m, f)
    ensures Prints(n, t, m)
  {
    PayloadSchemaIsLawful();
  }

  lemma PlainPrints(n: nat, t: TypeName, m: Msg)
    requires Fits(t, m) && forall f | f in m.fields :: SpecOf(t, f).Plain?
    ensures Prints(n, t, m)
  {
    PayloadSchemaIsLawful();
    forall f | f in m.fields ensures FieldPrints(n, t, m, f) {
      assert FieldFits(t, f, m.fields[f]);
      assert FieldBelow(m.fields[f], n);
      assert FieldTree(SCHEMA, n, t, m, f) == Some(Leaf(m.fields[f].a));
    }
    FieldsPrint(n, t, m);
  }

  /** An opaque field that holds the encoding of a message that prints. */
  lemma OpaqueFieldPrints(n: nat, t: TypeName, m: Msg, f: string, subType: TypeName, sub: Msg)
    requires f in m.fields && m.fields[f] == Single(Bytes(Marshal(subType, sub))) && BytesBelow(m, n)
    requires SpecOf(t, f).Special? && SpecOf(t, f).shape.One? && IsOpaque(SpecOf(t, f).stage)
    requires Choose(t, f, NoKey, m.fields) == Some(subType)
    requires Fits(subType, sub) && Prints(|Marshal(subType, sub)|, subType, sub)
    ensures FieldPrints(n, t, m, f)
  {
    UnmarshalUndoesMarshal(subType, sub);
    assert FieldBelow(m.fields[f], n);
  }

  lemma MarshalledPrints(t: TypeName, m: Msg)
    requires Fits(t, m)
    ensures BytesBelow(m, |Marshal(t, m)|)
  {
    PayloadSchemaIsLawful();
    UnmarshalUndoesMarshal(t, m);
    assert SCHEMA.unmarshal(t, Marshal(t, m)) == Some(m);
  }

  lemma PlainOpaquePrints(n: nat, t: TypeName, m: Msg, f: string, subType: TypeName, sub: Msg)
    requires f in m.fields && m.fields[f] == Single(Bytes(Marshal(subType, sub))) && BytesBelow(m, n)
    requires SpecOf(t, f) == Special(Static, One) && TypeIn(t, f) == subType && t != "Payload"
    requires Fits(subType, sub) && forall g | g in sub.fields :: SpecOf(subType, g).Plain?
    ensures FieldPrints(n, t, m, f)
  {
    PlainPrints(|Marshal(subType, sub)|, subType, sub);
    OpaqueFieldPrints(n, t, m, f, subType, sub);
  }

  lemma SignatureFits(s: Signature)
    ensures Fits("ConfigSignature", SignatureMsg(s))
  {
  }

  lemma SignaturePrints(n: nat, s: Signature)
    requires BytesBelow(SignatureMsg(s), n)
    ensures Prints(n, "ConfigSignature", SignatureMsg(s))
  {
    var t, m := "ConfigSignature", SignatureMsg(s);
    PlainOpaquePrints(n, t, m, "signature_header", "SignatureHeader", CreatorMsg(s.creator));
    assert FieldTree(SCHEMA, n, t, m, "signature") == Some(Leaf(s.text));
    assert FieldPrints(n, t, m, "signature");
    FieldsPrint(n, t, m);
  }

  lemma UpdateFits(update: string, signatures: seq<Signature>)
    ensures Fits("ConfigUpdateEnvelope", UpdateMsg(update, signatures))
  {
    var t, m := "ConfigUpdateEnvelope", UpdateMsg(update, signatures);
    forall i | 0 <= i < |signatures| ensures ContentFits(t, "signatures", m.fields["signatures"].elements[i]) {
      SignatureFits(signatures[i]);
    }
    assert FieldFits(t, "signatures", m.fields["signatures"]);
    assert FieldFits(t, "config_update", m.fields["config_update"]);
    assert m.fields.Keys == {"config_update", "signatures"};
  }

  lemma SignaturesFieldPrints(n: nat, update: string, signatures: seq<Signature>)
    requires BytesBelow(UpdateMsg(update, signatures), n)
    ensures FieldPrints(n, "ConfigUpdateEnvelope", UpdateMsg(update, signatures), "signatures")
  {
    PayloadSchemaIsLawful();
    var t, m, f := "ConfigUpdateEnvelope", UpdateMsg(update, signatures), "signatures";
    assert FieldBelow(m.fields[f], n);
    var cs := m.fields[f].elements;
    forall i | 0 <= i < |cs|
      ensures ContentTree(SCHEMA, n, t, m.fields, f, At(i), Nested, cs[i]).Some?
      ensures ContentCanonical(SCHEMA, n, t, m.fields, f, At(i), cs[i])
    {
      assert ContentBelow(cs[i], n) && cs[i] == Message(SignatureMsg(signatures[i]));
      SignaturePrints(n, signatures[i]);
    }
  }

  lemma UpdatePrints(update: string, signatures: seq<Signature>)
    ensures var t, m := "ConfigUpdateEnvelope", UpdateMsg(update, signatures); Prints(|Marshal(t, m)|, t, m)
  {
    var t, m := "ConfigUpdateEnvelope", UpdateMsg(update, signatures);
    var n := |Marshal(t, m)|;
    UpdateFits(update, signatures);
    MarshalledPrints(t, m);
    PlainOpaquePrints(n, t, m, "config_update", "ConfigUpdate", BodyMsg(update));
    SignaturesFieldPrints(n, update, signatures);
    FieldsPrint(n, t, m);
  }

  lemma DataPrints(d: Data)
    ensures Fits(DataName(d), DataMsg(d)) && Prints(|Marshal(DataName(d), DataMsg(d))|, DataName(d), DataMsg(d))
  {
    match d
    case ConfigData(body) => PlainPrints(|Marshal("ConfigEnvelope", BodyMsg(body))|, "ConfigEnvelope", BodyMsg(body));
    case UpdateData(update, signatures) =>
      UpdateFits(update, signatures);
      UpdatePrints(update, signatures);
  }

  lemma HeaderPrints(n: nat, channelId: string, d: Data)
    requires BytesBelow(HeaderMsg(channelId, d), n)
    ensures Prints(n, "Header", HeaderMsg(channelId, d))
  {
    PlainOpaquePrints(n, "Header", HeaderMsg(channelId, d), "channel_header", "ChannelHeader",
                      ChannelHeaderMsg(channelId, d));
    FieldsPrint(n, "Header", HeaderMsg(channelId, d));
  }

  /** The type of the data is read from the encoded channel header. */
  lemma DataIsChosen(channelId: string, d: Data)
    ensures Choose("Payload", "data", NoKey, PayloadMsg(channelId, d).fields) == Some(DataName(d))
  {
    var m := HeaderMsg(channelId, d);
    var inner := m.fields["channel_header"];
    assert NormalField(inner) == inner;
    assert "channel_header" in m.fields && Normal(m).fields["channel_header"] == NormalField(inner);
    assert NormalField(PayloadMsg(channelId, d).fields["header"]) == Single(Message(Normal(m)));
    UnmarshalUndoesMarshal("ChannelHeader", ChannelHeaderMsg(channelId, d));
  }

  lemma PayloadFieldsPrint(n: nat, channelId: string, d: Data)
    requires BytesBelow(PayloadMsg(channelId, d), n)
    ensures Prints(n, "Payload", PayloadMsg(channelId, d))
  {
    var t, m := "Payload", PayloadMsg(channelId, d);
    PayloadSchemaIsLawful();
    assert FieldBelow(m.fields["header"], n) && ContentBelow(m.fields["header"].element, n);
    HeaderPrints(n, channelId, d);
    assert FieldPrints(n, t, m, "header");
    DataPrints(d);
    DataIsChosen(channelId, d);
    OpaqueFieldPrints(n, t, m, "data", DataName(d), DataMsg(d));
    FieldsPrint(n, t, m);
  }

  /** The round trip on payloads with either type of data, any texts, and any number of signatures. */
  lemma PayloadRoundTrip(n: nat, channelId: string, d: Data)
    requires BytesBelow(PayloadMsg(channelId, d), n)
    ensures Lawful(SCHEMA)
    ensures var tree := CreateTree(SCHEMA, n, "Payload", PayloadMsg(channelId, d));
      tree.Some? && Populate(SCHEMA, "Payload", Obj(tree.value)) == Some(Normal(PayloadMsg(channelId, d)))
  {
    PayloadFieldsPrint(n, channelId, d);
    RoundTrip(SCHEMA, n, "Payload", PayloadMsg(channelId, d));
  }

  /** The payload's fields are declared data first; filled in that order the data has no type, and parsing fails. */
  lemma DeclarationOrderFails(tree: Tree, fields: map<string, Field>)
    requires tree.Obj? && "data" in tree.members && tree.members["data"].Obj?
    requires "header" in fields && fields["header"] == Nil(One)
    ensures FieldOrder(SCHEMA, "Payload") == ["header", "data"]
    ensures PopulateFields(SCHEMA, "Payload", ["data", "header"], tree, fields).None?
  {
    assert SCHEMA.choose("Payload", "data", NoKey, fields).None?;
    assert FieldFrom(SCHEMA, "Payload", "data", tree.members["data"], fields).None?;
    PayloadBuckets();
  }

  lemma PayloadBuckets()
    ensures FieldOrder(SCHEMA, "Payload") == ["header", "data"]
  {
    forall r: nat | r <= 11
      ensures Bucket(SCHEMA, "Payload", ["data", "header"], r)
           == if r == 11 then ["header"] else if r == 5 then ["data"] else []
    {
      assert ["data", "header"][..1] == ["data"] && ["data"][..0] == [];
      assert Bucket(SCHEMA, "Payload", ["data"], r) == if r == 5 then ["data"] else [];
    }
    assert OrderFrom(SCHEMA, "Payload", 0) == [];
    assert OrderFrom(SCHEMA, "Payload", 1) == [];
    assert OrderFrom(SCHEMA, "Payload", 2) == [];
    assert OrderFrom(SCHEMA, "Payload", 3) == [];
    assert OrderFrom(SCHEMA, "Payload", 4) == [];
    assert OrderFrom(SCHEMA, "Payload", 5) == ["data"];
    assert OrderFrom(SCHEMA, "Payload", 6) == ["data"];
    assert OrderFrom(SCHEMA, "Payload", 7) == ["data"];
    assert OrderFrom(SCHEMA, "Payload", 8) == ["data"];
    assert OrderFrom(SCHEMA, "Payload", 9) == ["data"];
    assert OrderFrom(SCHEMA, "Payload", 10) == ["data"];
  }
}
