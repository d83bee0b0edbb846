/**
 From a channel configuration and update options to the computed update: the settings are changed, both
 configurations are encoded, and the encodings are compared.
 */
module ChannelEnvelope {
  import opened Wrappers
  import opened Wire
  import opened ConfigTree
  import opened ConfigDiff
  import opened ConfigReceiver
  import opened ConfigUpdates
  import opened ChannelOptions

  // ---------------------------------------------------------------------------------------------
  // Numbers on the wire
  // ---------------------------------------------------------------------------------------------

  type uint32 = x: int | 0 <= x < 0x1_0000_0000
  type int32 = x: int | -0x8000_0000 <= x < 0x8000_0000

  datatype WirePeer = WirePeer(host: string, port: int32)

  datatype WireAnchors = WireAnchors(modPolicy: string, peers: seq<WirePeer>)

  /** The settings as the fields of the protocol messages hold them. */
  datatype WireSettings = WireSettings(
    batchTimeout: string,
    maxMessageCount: uint32,
    preferredMaxBytes: uint32,
    ordererAddresses: seq<string>,
    anchors: Option<WireAnchors>)

  predicate IsUint32(x: real) {
    x.Floor as real == x && 0 <= x.Floor < 0x1_0000_0000
  }

  predicate IsInt32(x: real) {
    x.Floor as real == x && -0x8000_0000 <= x.Floor < 0x8000_0000
  }

  predicate PortFits(p: Port) {
    p.NegativeZero? || IsInt32(p.value)
  }

  /** The settings that the protocol messages can hold: counts and ports are whole and within 32 bits. */
  predicate Encodable(s: Settings) {
    && IsUint32(s.maxMessageCount) && IsUint32(s.preferredMaxBytes)
    && (s.anchors.Some? ==> forall i | 0 <= i < |s.anchors.value.peers| :: PortFits(s.anchors.value.peers[i].port))
  }

  function PortNumber(p: Port): int32
    requires PortFits(p)
  {
    if p.NegativeZero? then 0 else p.value.Floor
  }

  function WirePeers(peers: seq<AnchorPeer>): seq<WirePeer>
    requires forall i | 0 <= i < |peers| :: PortFits(peers[i].port)
  {
    seq(|peers|, i requires 0 <= i < |peers| => WirePeer(peers[i].host, PortNumber(peers[i].port)))
  }

  /** What the encoder makes of the settings; it rejects numbers that do not fit. */
  function Encode(s: Settings): Option<WireSettings> {
    if !Encodable(s) then None
    else
      Some(WireSettings(s.batchTimeout, s.maxMessageCount.Floor, s.preferredMaxBytes.Floor, s.ordererAddresses,
        if s.anchors.None? then None
        else Some(WireAnchors(s.anchors.value.modPolicy, WirePeers(s.anchors.value.peers)))))
  }

  /** The settings with the sign of every zero port dropped. */
  function Unsigned(s: Settings): Settings {
    s.(anchors := if s.anchors.None? then None
                  else Some(Anchors(s.anchors.value.modPolicy, UnsignedPeers(s.anchors.value.peers))))
  }

  function UnsignedPeers(peers: seq<AnchorPeer>): seq<AnchorPeer> {
    seq(|peers|, i requires 0 <= i < |peers| =>
      if peers[i].port.NegativeZero? then AnchorPeer(peers[i].host, Finite(0.0)) else peers[i])
  }

  /** Encoding forgets the signs of zeros, and nothing else. */
  lemma EncodeForgetsSigns(s: Settings, t: Settings)
    requires Encodable(s) && Encodable(t)
    ensures Encode(s) == Encode(t) <==> Unsigned(s) == Unsigned(t)
  {
    if s.anchors.Some? && t.anchors.Some? {
      PeersForgetSigns(s.anchors.value.peers, t.anchors.value.peers);
    }
  }

  lemma PeersForgetSigns(a: seq<AnchorPeer>, b: seq<AnchorPeer>)
    requires forall i | 0 <= i < |a| :: PortFits(a[i].port)
    requires forall i | 0 <= i < |b| :: PortFits(b[i].port)
    ensures WirePeers(a) == WirePeers(b) <==> UnsignedPeers(a) == UnsignedPeers(b)
  {
    if WirePeers(a) == WirePeers(b) {
      assert |WirePeers(a)| == |a| && |WirePeers(b)| == |b|;
      forall i | 0 <= i < |a| ensures UnsignedPeers(a)[i] == UnsignedPeers(b)[i] {
        assert WirePeers(a)[i] == WirePeers(b)[i];
      }
    }
    if UnsignedPeers(a) == UnsignedPeers(b) {
      assert |UnsignedPeers(a)| == |a| && |UnsignedPeers(b)| == |b|;
      forall i | 0 <= i < |a| ensures WirePeers(a)[i] == WirePeers(b)[i] {
        assert UnsignedPeers(a)[i] == UnsignedPeers(b)[i];
      }
    }
  }

  // ---------------------------------------------------------------------------------------------
  // Encoded configurations
  // ---------------------------------------------------------------------------------------------

  /** How the fields are encoded as configuration values; what else a value holds is fixed. */
  datatype Codec = Codec(
    batchSize: (uint32, uint32) -> seq<byte>,
    batchTimeout: string -> seq<byte>,
    addresses: seq<string> -> seq<byte>,
    anchors: seq<WirePeer> -> seq<byte>)

  /** Equal bytes mean equal fields. */
  ghost predicate Injective(c: Codec) {
    && (forall a, b, a', b' :: c.batchSize(a, b) == c.batchSize(a', b') ==> a == a' && b == b')
    && (forall a, a' :: c.batchTimeout(a) == c.batchTimeout(a') ==> a == a')
    && (forall a, a' :: c.addresses(a) == c.addresses(a') ==> a == a')
    && (forall a, a' :: c.anchors(a) == c.anchors(a') ==> a == a')
  }

  function ZigZag(x: int): nat {
    if x >= 0 then 2 * x else -2 * x - 1
  }

  function PeerBytes(p: WirePeer): seq<byte> {
    Text(p.host) + Varint(ZigZag(p.port))
  }

  /** A codec with that property. */
  const LENGTH_DELIMITED := Codec(
    (a, b) => Varint(a) + Varint(b),
    Text,
    xs => Listed(xs, Text),
    ps => Listed(ps, PeerBytes))

  lemma LengthDelimitedIsInjective()
    ensures Injective(LENGTH_DELIMITED)
  {
    forall a: uint32, b: uint32, a': uint32, b': uint32 | Varint(a) + Varint(b) == Varint(a') + Varint(b')
      ensures a == a' && b == b'
    {
      VarintSplits(a, a', Varint(b), Varint(b'));
      assert Varint(b) + [] == Varint(b') + [];
      VarintSplits(b, b', [], []);
    }
    TextIsPrefixFree();
    forall s, t | Text(s) == Text(t) ensures s == t {
      assert Text(s) + [] == Text(t) + [];
    }
    ListIsInjective(Text);
    PeerBytesArePrefixFree();
    ListIsInjective(PeerBytes);
  }

  lemma PeerBytesArePrefixFree()
    ensures PrefixFree(PeerBytes)
  {
    TextIsPrefixFree();
    forall p: WirePeer, q: WirePeer, x: seq<byte>, y: seq<byte> | PeerBytes(p) + x == PeerBytes(q) + y
      ensures p == q && x == y
    {
      var m, n := ZigZag(p.port), ZigZag(q.port);
      assert Text(p.host) + (Varint(m) + x) == PeerBytes(p) + x;
      assert Text(q.host) + (Varint(n) + y) == PeerBytes(q) + y;
      VarintSplits(m, n, x, y);
    }
  }

  function WithPayload(g: Group, name: string, payload: seq<byte>): Group {
    var e := if name in g.values then g.values[name] else Element(0, "", None);
    g.(values := g.values[name := e.(payload := Some(payload))])
  }

  function WithAnchors(g: Group, c: Codec, anchors: Option<WireAnchors>): Group {
    if anchors.None? then g.(values := g.values - {"AnchorPeers"})
    else
      var version := if "AnchorPeers" in g.values then g.values["AnchorPeers"].version else 0;
      var element := Element(version, anchors.value.modPolicy, Some(c.anchors(anchors.value.peers)));
      g.(values := g.values["AnchorPeers" := element])
  }

  function Child(g: Group, name: string): Group {
    if name in g.groups then g.groups[name] else EmptyGroup
  }

  /** The configuration tree `base` with the settings written at their places. */
  function Render(base: Group, mspId: string, c: Codec, s: WireSettings): Group {
    var orderer := WithPayload(
      WithPayload(Child(base, "Orderer"), "BatchSize", c.batchSize(s.maxMessageCount, s.preferredMaxBytes)),
      "BatchTimeout", c.batchTimeout(s.batchTimeout));
    var application := Child(base, "Application");
    var org := WithAnchors(Child(application, mspId), c, s.anchors);
    var channel := WithPayload(base, "OrdererAddresses", c.addresses(s.ordererAddresses));
    var changed := application.(groups := application.groups[mspId := org]);
    channel.(groups := base.groups["Orderer" := orderer]["Application" := changed])
  }

  lemma {:induction false} SameAsItself(g: Group)
    ensures SameContent(g, g)
    decreases g
  {
    forall k | k in g.groups ensures SameContent(g.groups[k], g.groups[k]) {
      SameAsItself(g.groups[k]);
    }
  }

  /** The tree holds the encoded settings at their places. */
  ghost predicate Holds(g: Group, mspId: string, c: Codec, s: WireSettings) {
    && "Orderer" in g.groups && HoldsBlockCutting(g.groups["Orderer"], c, s)
    && "OrdererAddresses" in g.values && g.values["OrdererAddresses"].payload == Some(c.addresses(s.ordererAddresses))
    && "Application" in g.groups && mspId in g.groups["Application"].groups
    && HoldsAnchors(g.groups["Application"].groups[mspId], c, s)
  }

  ghost predicate HoldsBlockCutting(orderer: Group, c: Codec, s: WireSettings) {
    && "BatchSize" in orderer.values && "BatchTimeout" in orderer.values
    && orderer.values["BatchSize"].payload == Some(c.batchSize(s.maxMessageCount, s.preferredMaxBytes))
    && orderer.values["BatchTimeout"].payload == Some(c.batchTimeout(s.batchTimeout))
  }

  ghost predicate HoldsAnchors(org: Group, c: Codec, s: WireSettings) {
    && ("AnchorPeers" in org.values <==> s.anchors.Some?)
    && (s.anchors.Some? ==>
          && org.values["AnchorPeers"].modPolicy == s.anchors.value.modPolicy
          && org.values["AnchorPeers"].payload == Some(c.anchors(s.anchors.value.peers)))
  }

  lemma RenderHolds(base: Group, mspId: string, c: Codec, s: WireSettings)
    ensures Holds(Render(base, mspId, c, s), mspId, c, s)
  {
    assert "Orderer" != "Application";
    assert "BatchSize" != "BatchTimeout";
  }

  lemma SameSettings(g: Group, h: Group, mspId: string, c: Codec, s: WireSettings, t: WireSettings)
    requires Injective(c) && Holds(g, mspId, c, s) && Holds(h, mspId, c, t) && SameContent(g, h)
    ensures s == t
  {
    assert SameContent(g.groups["Orderer"], h.groups["Orderer"]);
    assert SameContent(g.groups["Application"], h.groups["Application"]);
    var org, org' := g.groups["Application"].groups[mspId], h.groups["Application"].groups[mspId];
    assert SameContent(org, org');
    assert s.ordererAddresses == t.ordererAddresses && s.batchTimeout == t.batchTimeout;
    assert s.anchors == t.anchors by {
      assert s.anchors.Some? <==> t.anchors.Some?;
    }
  }

  /** Two encoded configurations are equal ignoring versions exactly when the encoded settings are equal. */
  lemma RenderingsDiffer(base: Group, mspId: string, c: Codec, s: WireSettings, t: WireSettings)
    requires Injective(c)
    ensures SameContent(Render(base, mspId, c, s), Render(base, mspId, c, t)) <==> s == t
  {
    var g, h := Render(base, mspId, c, s), Render(base, mspId, c, t);
    SameAsItself(g);
    RenderHolds(base, mspId, c, s);
    RenderHolds(base, mspId, c, t);
    if SameContent(g, h) {
      SameSettings(g, h, mspId, c, s, t);
    }
  }

  // ---------------------------------------------------------------------------------------------
  // The envelope
  // ---------------------------------------------------------------------------------------------

  /** `Enveloped` also when the comparison found nothing: its error is overwritten, and the update is empty. */
  datatype Envelope = MalformedOptions | NothingChanged | NotEncodable | Enveloped(computed: ComputeResult)

  predicate AnyRaised(f: Flags) {
    f.ordererOrg || f.ordererAddresses || f.peerOrg
  }

  function ComputedFor(base: Group, mspId: string, c: Codec, s: WireSettings, t: WireSettings): ComputeResult {
    Computed(Config(Some(Render(base, mspId, c, s))), Config(Some(Render(base, mspId, c, t))))
  }

  function EnvelopeFor(s: Settings, r: Request, flags: Flags, parsePort: string -> Option<Port>,
                       base: Group, mspId: string, c: Codec): Envelope
  {
    var t := Requested(s, r, parsePort);
    if t.None? then MalformedOptions
    else if !AnyRaised(Raised(flags, Differences(s, t.value))) then NothingChanged
    else if Encode(s).None? || Encode(t.value).None? then NotEncodable
    else Enveloped(ComputedFor(base, mspId, c, Encode(s).value, Encode(t.value).value))
  }

  method CreateUpdateEnvelope(group: ChannelGroup, options: UpdateOptions, parsePort: string -> Option<Port>,
                              base: Group, mspId: string, c: Codec) returns (e: Envelope)
    modifies group, options
    ensures e == EnvelopeFor(old(group.settings), options.request, old(options.flags), parsePort, base, mspId, c)
  {
    var original := group.settings;
    var ok := UpdateChannelGroup(group, options, parsePort);
    if !ok {
      return MalformedOptions;
    }
    if !options.flags.ordererOrg && !options.flags.ordererAddresses && !options.flags.peerOrg {
      return NothingChanged;
    }
    var before, after := Encode(original), Encode(group.settings);
    if before.None? || after.None? {
      return NotEncodable;
    }
    var computed := Compute(Config(Some(Render(base, mspId, c, before.value))),
                            Config(Some(Render(base, mspId, c, after.value))));
    return Enveloped(computed);
  }

  /** Comparing two encoded configurations finds a difference exactly when the encoded settings differ. */
  lemma ComputedForDiffers(base: Group, mspId: string, c: Codec, s: WireSettings, t: WireSettings)
    requires Injective(c)
    ensures var computed := ComputedFor(base, mspId, c, s, t);
      if s == t then computed.NoDifferences? else computed.Update?
  {
    RenderingsDiffer(base, mspId, c, s, t);
    ComputeIsSound(Config(Some(Render(base, mspId, c, s))), Config(Some(Render(base, mspId, c, t))));
  }

  /** A decoded configuration: its numbers come from the protocol messages, where no zero has a sign. */
  predicate Decoded(s: Settings) {
    Encodable(s) && Unsigned(s) == s
  }

  /**
   The flags agree with the diff.  On a decoded configuration, an update is computed if and only if a flag is
   up, the new settings can be encoded, and more than the sign of a zero has changed; if a flag is up and they
   cannot be encoded, encoding fails.
   */
  lemma FlagsAgreeWithDiff(s: Settings, r: Request, flags: Flags, parsePort: string -> Option<Port>,
                           base: Group, mspId: string, c: Codec)
    requires Injective(c) && Decoded(s) && Requested(s, r, parsePort).Some?
    ensures var t := Requested(s, r, parsePort).value;
      var e := EnvelopeFor(s, r, flags, parsePort, base, mspId, c);
      var up := AnyRaised(Raised(flags, Differences(s, t)));
      && (e.Enveloped? && e.computed.Update? <==> up && Encodable(t) && Unsigned(t) != s)
      && (e.NotEncodable? <==> up && !Encodable(t))
      && (e.NothingChanged? <==> !up)
  {
    var t := Requested(s, r, parsePort).value;
    if Encodable(t) {
      EncodeForgetsSigns(s, t);
      ComputedForDiffers(base, mspId, c, Encode(s).value, Encode(t).value);
    }
  }

  /** For fresh options and no signed zero among the requested ports, a flag is all that it takes. */
  lemma FlagMeansUpdate(s: Settings, r: Request, parsePort: string -> Option<Port>,
                        base: Group, mspId: string, c: Codec)
    requires Injective(c) && Decoded(s) && ParsePeers(r.anchorPeers, parsePort).Some?
    requires forall p | p in ParsePeers(r.anchorPeers, parsePort).value :: p.port.Finite?
    ensures var t := Requested(s, r, parsePort).value;
      var e := EnvelopeFor(s, r, Flags(false, false, false), parsePort, base, mspId, c);
      e.Enveloped? && e.computed.Update? <==> AnyRaised(Differences(s, t)) && Encodable(t)
  {
    var t := Requested(s, r, parsePort).value;
    FlagsAgreeWithDiff(s, r, Flags(false, false, false), parsePort, base, mspId, c);
    if t.anchors != s.anchors {
      assert UnsignedPeers(t.anchors.value.peers) == t.anchors.value.peers;
    }
    assert Unsigned(t) == t;
  }

  /** Encoding changes no number, text or list. */
  lemma EncodeKeepsValues(s: Settings)
    requires Encodable(s)
    ensures Encode(s).Some?
    ensures var w := Encode(s).value;
      && w.maxMessageCount as real == s.maxMessageCount && w.preferredMaxBytes as real == s.preferredMaxBytes
      && w.batchTimeout == s.batchTimeout && w.ordererAddresses == s.ordererAddresses
      && (w.anchors.None? <==> s.anchors.None?)
      && (s.anchors.Some? ==>
            && w.anchors.value.modPolicy == s.anchors.value.modPolicy
            && |w.anchors.value.peers| == |s.anchors.value.peers|
            && forall i | 0 <= i < |s.anchors.value.peers| ::
                 var p, q := s.anchors.value.peers[i], w.anchors.value.peers[i];
                 q.host == p.host && q.port as real == if p.port.Finite? then p.port.value else 0.0)
  {
  }

  /** Writing the settings leaves everything else in the channel group alone. */
  lemma RenderKeepsChannel(base: Group, mspId: string, c: Codec, s: WireSettings, name: string)
    ensures var g := Render(base, mspId, c, s);
      && g.modPolicy == base.modPolicy && g.version == base.version && g.policies == base.policies
      && (name != "OrdererAddresses" ==> SameMember(g.values, base.values, name))
      && (name != "Orderer" && name != "Application" ==> SameMember(g.groups, base.groups, name))
  {
  }

  /** So it does in the group of the orderers, except for the batch size and the batch timeout. */
  lemma RenderKeepsOrderer(base: Group, mspId: string, c: Codec, s: WireSettings, name: string)
    requires name != "BatchSize" && name != "BatchTimeout"
    ensures var before, after := Child(base, "Orderer"), Child(Render(base, mspId, c, s), "Orderer");
      && after.modPolicy == before.modPolicy && after.policies == before.policies && after.groups == before.groups
      && SameMember(after.values, before.values, name)
  {
    assert "Orderer" != "Application";
  }

  /** And in the group of the applications, except for the anchor peers of the one organisation. */
  lemma RenderKeepsApplication(base: Group, mspId: string, c: Codec, s: WireSettings, name: string)
    ensures var before, after := Child(base, "Application"), Child(Render(base, mspId, c, s), "Application");
      && after.modPolicy == before.modPolicy && after.policies == before.policies && after.values == before.values
      && (name != mspId ==> SameMember(after.groups, before.groups, name))
      && (name != "AnchorPeers" ==> SameMember(Child(after, mspId).values, Child(before, mspId).values, name))
  {
  }

  predicate SameMember<T(==)>(a: map<string, T>, b: map<string, T>, name: string) {
    (name in a <==> name in b) && (name in a ==> a[name] == b[name])
  }

  /** Equality ignoring versions carries settings over from one tree to the other. */
  lemma SameContentHolds(g: Group, h: Group, mspId: string, c: Codec, s: WireSettings)
    requires SameContent(g, h) && Holds(h, mspId, c, s)
    ensures Holds(g, mspId, c, s)
  {
    assert SameContent(g.groups["Orderer"], h.groups["Orderer"]);
    assert SameContent(g.groups["Application"], h.groups["Application"]);
    assert SameContent(g.groups["Application"].groups[mspId], h.groups["Application"].groups[mspId]);
  }

  /**
   The computed update leads from the original settings to the requested ones: a receiver that holds the original
   configuration accepts it and ends with the requested one, ignoring versions.
   */
  lemma UpdateReachesRequest(s: Settings, r: Request, flags: Flags, parsePort: string -> Option<Port>,
                             base: Group, mspId: string, c: Codec)
    ensures var e := EnvelopeFor(s, r, flags, parsePort, base, mspId, c);
      e.Enveloped? && e.computed.Update? ==>
      && Encode(s).Some? && Requested(s, r, parsePort).Some? && Encode(Requested(s, r, parsePort).value).Some?
      && var after := Encode(Requested(s, r, parsePort).value).value;
         var update := e.computed.update;
         var received := Receive(Render(base, mspId, c, Encode(s).value), update.readSet, update.writeSet);
         && received.Some?
         && SameContent(received.value, Render(base, mspId, c, after))
         && Holds(received.value, mspId, c, after)
  {
    var e := EnvelopeFor(s, r, flags, parsePort, base, mspId, c);
    if e.Enveloped? && e.computed.Update? {
      var after := Encode(Requested(s, r, parsePort).value).value;
      var g, h := Render(base, mspId, c, Encode(s).value), Render(base, mspId, c, after);
      assert e.computed == Computed(Config(Some(g)), Config(Some(h)));
      var received := ReceivedUpdate(g, h, e.computed.update);
      RenderHolds(base, mspId, c, after);
      SameContentHolds(received, h, mspId, c, after);
    }
  }

  lemma ReceivedUpdate(g: Group, h: Group, update: ConfigUpdate) returns (received: Group)
    requires Computed(Config(Some(g)), Config(Some(h))) == Update(update)
    ensures Receive(g, update.readSet, update.writeSet) == Some(received) && SameContent(received, h)
  {
    ComputeIsSound(Config(Some(g)), Config(Some(h)));
    received := Receive(g, update.readSet, update.writeSet).value;
  }

  /** A flag without a difference: the port text "-0" replaces the port 0. */
  lemma SignedZeroRaisesFlag(s: Settings, r: Request, parsePort: string -> Option<Port>,
                             base: Group, mspId: string, c: Codec)
    requires Injective(c) && Encodable(s)
    requires s.anchors == Some(Anchors("Admins", [AnchorPeer("h", Finite(0.0))]))
    requires r == Request("", 0.0, 0.0, "", [], ["h:-0"]) && parsePort("-0") == Some(NegativeZero)
    ensures EnvelopeFor(s, r, Flags(false, false, false), parsePort, base, mspId, c) == Enveloped(NoDifferences)
  {
    SignedZeroPeer(parsePort);
    var t := Requested(s, r, parsePort).value;
    assert t == s.(anchors := Some(Anchors("Admins", [AnchorPeer("h", NegativeZero)])));
    assert Unsigned(t).anchors.value.peers == [AnchorPeer("h", Finite(0.0))] == Unsigned(s).anchors.value.peers;
    EncodeForgetsSigns(s, t);
    ComputedForDiffers(base, mspId, c, Encode(s).value, Encode(t).value);
  }

  lemma SignedZeroPeer(parsePort: string -> Option<Port>)
    requires parsePort("-0") == Some(NegativeZero)
    ensures ParsePeers(["h:-0"], parsePort) == Some([AnchorPeer("h", NegativeZero)])
  {
    assert Colons("h") == [] by {
      assert "h"[..0] == "";
    }
    assert "h:"[..1] == "h" && Colons("h:") == [1];
    assert "h:-"[..2] == "h:" && Colons("h:-") == [1];
    assert "h:-0"[..3] == "h:-" && Colons("h:-0") == [1];
    assert "h:-0"[..1] == "h" && "h:-0"[2..] == "-0";
    OnePeer("h:-0", "h", "-0", parsePort);
  }

  lemma OnePeer(peer: string, host: string, port: string, parsePort: string -> Option<Port>)
    requires HostAndPort(peer) == Some((host, port)) && parsePort(port).Some?
    ensures ParsePeers([peer], parsePort) == Some([AnchorPeer(host, parsePort(port).value)])
  {
    var peers := [peer];
    assert peers[..|peers| - 1] == [];
    assert ParsePeers(peers[..|peers| - 1], parsePort) == Some([]);
    assert HostAndPort(peers[|peers| - 1]) == Some((host, port));
    assert ParsePeers(peers, parsePort).value == [AnchorPeer(host, parsePort(port).value)];
  }
}
