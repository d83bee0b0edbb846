/**
 An example with dynamic fields: a channel configuration whose groups and values are decorated with types that
 depend on the group they are in and on their key.  Values hold variably opaque bytes.
 */
module ProtoDynamic {
  import opened Wrappers
  import opened Wire
  import opened ProtoSchema
  import opened ProtoTree
  import opened ProtoRoundTrip
  import opened ProtoView

  predicate IsGroup(t: TypeName) {
    t == "ChannelGroup" || t == "ApplicationGroup" || t == "OrgGroup"
  }

  predicate IsValue(t: TypeName) {
    t == "MSPValue" || t == "AnchorPeersValue"
  }

  function Props(t: TypeName): seq<string> {
    if IsGroup(t) then ["groups", "mod_policy", "values"]
    else if IsValue(t) then ["mod_policy", "value"]
    else ["body"]
  }

  function SpecOf(t: TypeName, f: string): Spec {
    if IsGroup(t) && (f == "groups" || f == "values") then Special(Dynamic, Keyed)
    else if IsValue(t) && f == "value" then Special(Variable, One)
    else Plain
  }

  /** Which type an element is decorated with. */
  function Choose(t: TypeName, f: string, key: Key, fields: map<string, Field>): Option<TypeName> {
    if t == "ChannelGroup" && f == "groups" && key == Under("Application") then Some("ApplicationGroup")
    else if t == "ApplicationGroup" && f == "groups" && key.Under? then Some("OrgGroup")
    else if t == "OrgGroup" && f == "values" && key == Under("MSP") then Some("MSPValue")
    else if t == "OrgGroup" && f == "values" && key == Under("AnchorPeers") then Some("AnchorPeersValue")
    else if t == "MSPValue" && f == "value" then Some("MSPConfig")
    else if t == "AnchorPeersValue" && f == "value" then Some("AnchorPeers")
    else None
  }

  function BodyOf(m: Msg): string {
    if "body" in m.fields && m.fields["body"].Atom? then m.fields["body"].a else ""
  }

  function BodyMsg(body: string): Msg {
    Msg(map["body" := Atom(body)])
  }

  /** Only messages with a body are encoded. */
  function Marshal(t: TypeName, m: Msg): seq<byte> {
    Text(BodyOf(m))
  }

  function Unmarshal(t: TypeName, b: seq<byte>): Option<Msg> {
    match ReadText(b)
    case Malformed => None
    case Got(body, rest) => if rest == [] then Some(BodyMsg(body)) else None
  }

  const SCHEMA := Schema(Props, SpecOf, Choose, (t, f) => "", Marshal, Unmarshal)

  lemma DynamicSchemaIsLawful()
    ensures Lawful(SCHEMA)
  {
    forall t, m ensures SCHEMA.marshal(t, Normal(m)) == SCHEMA.marshal(t, m) {
      assert BodyOf(Normal(m)) == BodyOf(m);
    }
  }

  lemma BodyReads(t: TypeName, body: string)
    ensures Unmarshal(t, Text(body)) == Some(BodyMsg(body))
  {
    TextReads(body, []);
    assert Text(body) + [] == Text(body);
  }

  // ---------------------------------------------------------------------------------------------
  // Channel configurations
  // ---------------------------------------------------------------------------------------------

  datatype Org = Org(msp: string, anchorPeers: Option<string>)

  function ValueMsg(body: string): Msg {
    Msg(map["mod_policy" := Atom("Admins"), "value" := Single(Bytes(Text(body)))])
  }

  function OrgValues(o: Org): map<string, string> {
    if o.anchorPeers.None? then map["MSP" := o.msp] else map["MSP" := o.msp, "AnchorPeers" := o.anchorPeers.value]
  }

  function OrgMsg(o: Org): Msg {
    var values := OrgValues(o);
    GroupMsg(Nil(Keyed), Mapping(map k | k in values :: Message(ValueMsg(values[k]))))
  }

  function GroupMsg(groups: Field, values: Field): Msg {
    Msg(map["groups" := groups, "mod_policy" := Atom("Admins"), "values" := values])
  }

  function ApplicationMsg(orgs: map<string, Org>): Msg {
    GroupMsg(Mapping(map k | k in orgs :: Message(OrgMsg(orgs[k]))), Mapping(map[]))
  }

  function ChannelMsg(orgs: map<string, Org>): Msg {
    GroupMsg(Mapping(map["Application" := Message(ApplicationMsg(orgs))]), Mapping(map[]))
  }

  /** The message can be printed, and holds only encodings that the encoder would produce. */
  ghost predicate Ready(n: nat, t: TypeName, m: Msg) {
    && Lawful(SCHEMA) && BytesBelow(m, n)
    && Printable(SCHEMA, n, t, m) && Canonical(SCHEMA, n, t, m)
  }

  lemma BodyIsReady(n: nat, t: TypeName, body: string)
    requires !IsGroup(t) && !IsValue(t)
    ensures Ready(n, t, BodyMsg(body))
  {
    DynamicSchemaIsLawful();
  }

  lemma ValueIsReady(n: nat, t: TypeName, body: string)
    requires IsValue(t) && BytesBelow(ValueMsg(body), n)
    ensures Ready(n, t, ValueMsg(body))
  {
    DynamicSchemaIsLawful();
    var m, sub := ValueMsg(body), if t == "MSPValue" then "MSPConfig" else "AnchorPeers";
    assert FieldBelow(m.fields["value"], n);
    BodyReads(sub, body);
    BodyIsReady(|Text(body)|, sub, body);
    assert SCHEMA.choose(t, "value", NoKey, m.fields) == Some(sub);
    assert ElementPrintable(SCHEMA, n, t, m.fields, "value", NoKey, Bytes(Text(body)));
    assert m.fields.Keys == (set f | f in Props(t));
  }

  /** A group whose members are all of chosen types and ready. */
  lemma GroupIsReady(n: nat, t: TypeName, groups: Field, values: Field)
    requires IsGroup(t) && BytesBelow(GroupMsg(groups, values), n)
    requires groups == Nil(Keyed) || groups.Mapping?
    requires values.Mapping?
    requires groups.Mapping? ==> MembersReady(n, t, "groups", groups.entries, GroupMsg(groups, values).fields)
    requires MembersReady(n, t, "values", values.entries, GroupMsg(groups, values).fields)
    ensures Ready(n, t, GroupMsg(groups, values))
  {
    DynamicSchemaIsLawful();
    var m := GroupMsg(groups, values);
    assert FieldBelow(m.fields["groups"], n) && FieldBelow(m.fields["values"], n);
    MembersPrint(n, t, m, "values");
    if groups.Mapping? {
      MembersPrint(n, t, m, "groups");
    }
    assert m.fields.Keys == (set f | f in Props(t));
  }

  ghost predicate MembersReady(n: nat, t: TypeName, f: string, cs: map<string, Content>, fields: map<string, Field>) {
    forall k | k in cs ::
      && Choose(t, f, Under(k), fields).Some?
      && cs[k].Message? && Ready(n, Choose(t, f, Under(k), fields).value, cs[k].m)
  }

  lemma MembersPrint(n: nat, t: TypeName, m: Msg, f: string)
    requires Lawful(SCHEMA) && BytesBelow(m, n)
    requires f in m.fields && m.fields[f].Mapping? && SpecOf(t, f) == Special(Dynamic, Keyed)
    requires MembersReady(n, t, f, m.fields[f].entries, m.fields)
    ensures FieldPrintable(SCHEMA, n, t, m, f) && FieldCanonical(SCHEMA, n, t, m, f)
  {
    assert FieldBelow(m.fields[f], n);
    var cs := m.fields[f].entries;
    forall k | k in cs
      ensures ElementPrintable(SCHEMA, n, t, m.fields, f, Under(k), cs[k])
      ensures ContentCanonical(SCHEMA, n, t, m.fields, f, Under(k), cs[k])
    {
      assert SCHEMA.choose(t, f, Under(k), m.fields) == Choose(t, f, Under(k), m.fields);
    }
  }

  lemma OrgIsReady(n: nat, o: Org)
    requires BytesBelow(OrgMsg(o), n)
    ensures Ready(n, "OrgGroup", OrgMsg(o))
  {
    var m := OrgMsg(o);
    var cs := m.fields["values"].entries;
    assert FieldBelow(m.fields["values"], n);
    forall k | k in cs ensures Ready(n, Choose("OrgGroup", "values", Under(k), m.fields).value, cs[k].m) {
      assert ContentBelow(cs[k], n);
      ValueIsReady(n, Choose("OrgGroup", "values", Under(k), m.fields).value, OrgValues(o)[k]);
    }
    GroupIsReady(n, "OrgGroup", m.fields["groups"], m.fields["values"]);
  }

  lemma ApplicationIsReady(n: nat, orgs: map<string, Org>)
    requires BytesBelow(ApplicationMsg(orgs), n)
    ensures Ready(n, "ApplicationGroup", ApplicationMsg(orgs))
  {
    var m := ApplicationMsg(orgs);
    var cs := m.fields["groups"].entries;
    assert FieldBelow(m.fields["groups"], n);
    forall k | k in cs ensures Ready(n, "OrgGroup", cs[k].m) {
      assert ContentBelow(cs[k], n);
      OrgIsReady(n, orgs[k]);
    }
    GroupIsReady(n, "ApplicationGroup", m.fields["groups"], m.fields["values"]);
  }

  /** Configurations with any organisations print and come back, through dynamic maps and encoded values. */
  lemma ChannelRoundTrip(n: nat, orgs: map<string, Org>)
    requires BytesBelow(ChannelMsg(orgs), n)
    ensures Lawful(SCHEMA)
    ensures var tree := CreateTree(SCHEMA, n, "ChannelGroup", ChannelMsg(orgs));
      tree.Some? && Populate(SCHEMA, "ChannelGroup", Obj(tree.value)) == Some(Normal(ChannelMsg(orgs)))
  {
    DynamicSchemaIsLawful();
    var m := ChannelMsg(orgs);
    assert FieldBelow(m.fields["groups"], n);
    assert ContentBelow(m.fields["groups"].entries["Application"], n);
    ApplicationIsReady(n, orgs);
    GroupIsReady(n, "ChannelGroup", m.fields["groups"], m.fields["values"]);
    PrintsExactly(SCHEMA, n, "ChannelGroup", m);
    RoundTrip(SCHEMA, n, "ChannelGroup", m);
  }

  /** A group whose key has no decoration in its context is rejected. */
  lemma UnknownGroupIsRejected(n: nat, orgs: map<string, Org>, name: string)
    requires name != "Application"
    requires BytesBelow(GroupMsg(Mapping(map[name := Message(ApplicationMsg(orgs))]), Mapping(map[])), n)
    ensures Lawful(SCHEMA)
    ensures CreateTree(SCHEMA, n, "ChannelGroup",
                       GroupMsg(Mapping(map[name := Message(ApplicationMsg(orgs))]), Mapping(map[]))).None?
  {
    DynamicSchemaIsLawful();
    var m := GroupMsg(Mapping(map[name := Message(ApplicationMsg(orgs))]), Mapping(map[]));
    PrintsExactly(SCHEMA, n, "ChannelGroup", m);
    if Printable(SCHEMA, n, "ChannelGroup", m) {
      assert FieldPrintable(SCHEMA, n, "ChannelGroup", m, "groups");
      assert SCHEMA.choose("ChannelGroup", "groups", Under(name), m.fields).None?;
      assert name in m.fields["groups"].entries;
    }
  }
}
