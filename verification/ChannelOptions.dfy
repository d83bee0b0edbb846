/**
 Applying update options to a channel configuration: block cutting settings, orderer addresses and anchor
 peers, with flags that say which organisations have to sign.
 */
module ChannelOptions {
  import opened Wrappers

  const REPLACE_ORDERER_ADDRESS := "replace"
  const ADD_ORDERER_ADDRESS := "add"
  const REMOVE_ORDERER_ADDRESS := "remove"

  /** A port as a floating-point number, which may be a zero with a sign. */
  datatype Port = Finite(value: real) | NegativeZero

  datatype AnchorPeer = AnchorPeer(host: string, port: Port)

  datatype Anchors = Anchors(modPolicy: string, peers: seq<AnchorPeer>)

  /** The part of the decoded configuration that the options can change. */
  datatype Settings = Settings(
    batchTimeout: string,
    maxMessageCount: real,
    preferredMaxBytes: real,
    ordererAddresses: seq<string>,
    anchors: Option<Anchors>)

  /** A zero number, an empty string and an empty list mean that nothing is requested. */
  datatype Request = Request(
    batchTimeout: string,
    maxMessageCount: real,
    preferredMaxBytes: real,
    ordererAddressesAction: string,
    ordererAddresses: seq<string>,
    anchorPeers: seq<string>)

  datatype Flags = Flags(ordererOrg: bool, ordererAddresses: bool, peerOrg: bool)

  /** The decoded tree, written in place. */
  class ChannelGroup {
    var settings: Settings

    constructor (settings: Settings)
      ensures this.settings == settings
    {
      this.settings := settings;
    }
  }

  /** The options, whose flags are only ever raised. */
  class UpdateOptions {
    const request: Request
    var flags: Flags

    constructor (request: Request)
      ensures this.request == request && flags == Flags(false, false, false)
    {
      this.request, this.flags := request, Flags(false, false, false);
    }
  }

  // ---------------------------------------------------------------------------------------------
  // Address lists
  // ---------------------------------------------------------------------------------------------

  method Contains(addresses: seq<string>, address: string) returns (index: int)
    ensures index == -1 <==> address !in addresses
    ensures index != -1 ==> 0 <= index < |addresses| && addresses[index] == address && address !in addresses[..index]
  {
    for i := 0 to |addresses|
      invariant address !in addresses[..i]
    {
      if addresses[i] == address {
        return i;
      }
    }
    return -1;
  }

  function Added(current: seq<string>, extra: seq<string>): seq<string>
    decreases |extra|
  {
    if extra == [] then current
    else Added(if extra[0] in current then current else current + [extra[0]], extra[1..])
  }

  function Without(current: seq<string>, dropped: seq<string>): seq<string> {
    if current == [] then []
    else
      (if current[0] in dropped then [] else [current[0]]) + Without(current[1..], dropped)
  }

  method AddAddresses(current: seq<string>, extra: seq<string>) returns (r: seq<string>)
    ensures r == Added(current, extra)
  {
    r := current;
    for i := 0 to |extra|
      invariant Added(r, extra[i..]) == Added(current, extra)
    {
      assert extra[i..][1..] == extra[i + 1..];
      var index := Contains(r, extra[i]);
      if index == -1 {
        r := r + [extra[i]];
      }
    }
  }

  /** Cut the first occurrence of the address until there is none. */
  method RemoveAddress(current: seq<string>, address: string) returns (r: seq<string>)
    ensures r == Without(current, [address])
  {
    r := current;
    while true
      invariant Without(r, [address]) == Without(current, [address])
      decreases |r|
    {
      var index := Contains(r, address);
      if index == -1 {
        break;
      }
      CutOne(r, index, address);
      r := r[..index] + r[index + 1..];
    }
    WithoutAbsent(r, [address]);
  }

  method RemoveAddresses(current: seq<string>, dropped: seq<string>) returns (r: seq<string>)
    ensures r == Without(current, dropped)
  {
    r := current;
    WithoutNothing(current);
    for i := 0 to |dropped|
      invariant r == Without(current, dropped[..i])
    {
      r := RemoveAddress(r, dropped[i]);
      WithoutTwice(current, dropped[..i], [dropped[i]]);
      assert dropped[..i + 1] == dropped[..i] + [dropped[i]];
    }
    assert dropped[..|dropped|] == dropped;
  }

  lemma {:induction false} WithoutAbsent(s: seq<string>, dropped: seq<string>)
    requires forall d | d in dropped :: d !in s
    ensures Without(s, dropped) == s
    decreases |s|
  {
    if s != [] {
      assert s[0] in s;
      WithoutAbsent(s[1..], dropped);
      assert s == [s[0]] + s[1..];
    }
  }

  lemma WithoutNothing(s: seq<string>)
    ensures Without(s, []) == s
  {
    WithoutAbsent(s, []);
  }

  lemma {:induction false} WithoutConcat(a: seq<string>, b: seq<string>, dropped: seq<string>)
    ensures Without(a + b, dropped) == Without(a, dropped) + Without(b, dropped)
    decreases |a|
  {
    if a == [] {
      assert a + b == b;
    } else {
      assert (a + b)[1..] == a[1..] + b;
      WithoutConcat(a[1..], b, dropped);
    }
  }

  lemma {:induction false} CutOne(s: seq<string>, index: nat, d: string)
    requires index < |s| && s[index] == d
    ensures Without(s[..index] + s[index + 1..], [d]) == Without(s, [d])
    decreases index
  {
    var cut := s[..index] + s[index + 1..];
    if index == 0 {
      assert cut == s[1..];
    } else {
      assert cut[0] == s[0] && cut[1..] == s[1..][..index - 1] + s[1..][index..];
      CutOne(s[1..], index - 1, d);
    }
  }

  lemma {:induction false} WithoutTwice(s: seq<string>, a: seq<string>, b: seq<string>)
    ensures Without(Without(s, a), b) == Without(s, a + b)
    decreases |s|
  {
    if s != [] {
      WithoutTwice(s[1..], a, b);
      WithoutConcat(if s[0] in a then [] else [s[0]], Without(s[1..], a), b);
      if s[0] !in a {
        assert Without([s[0]], b) == if s[0] in b then [] else [s[0]];
      }
    }
  }

  /** The first list comes from the second by leaving elements out. */
  predicate Subsequence(a: seq<string>, b: seq<string>) {
    a == [] || (b != [] && if a[0] == b[0] then Subsequence(a[1..], b[1..]) else Subsequence(a, b[1..]))
  }

  /** Exactly the addresses that are not dropped stay, each as often as before and in their order. */
  lemma {:induction false} WithoutKeeps(s: seq<string>, dropped: seq<string>, x: string)
    ensures Subsequence(Without(s, dropped), s)
    ensures multiset(Without(s, dropped))[x] == if x in dropped then 0 else multiset(s)[x]
    ensures x in Without(s, dropped) <==> x in s && x !in dropped
    decreases |s|
  {
    if s != [] {
      assert s == [s[0]] + s[1..];
      WithoutKeeps(s[1..], dropped, x);
      var rest := Without(s[1..], dropped);
      assert Without(s, dropped) == if s[0] in dropped then rest else [s[0]] + rest;
      if s[0] in dropped && rest != [] {
        WithoutKeeps(s[1..], dropped, rest[0]);
        assert rest[0] in rest;
      } else if s[0] !in dropped {
        assert Without(s, dropped)[1..] == rest;
      }
    }
  }

  /** Adding keeps the old list as a prefix, takes every requested address in, and adds none twice. */
  lemma {:induction false} AddedExtends(current: seq<string>, extra: seq<string>)
    ensures current <= Added(current, extra)
    ensures forall x :: x in Added(current, extra) <==> x in current || x in extra
    ensures forall i, j | 0 <= i < j < |Added(current, extra)| && |current| <= j ::
      Added(current, extra)[i] != Added(current, extra)[j]
    decreases |extra|
  {
    if extra != [] {
      var next := if extra[0] in current then current else current + [extra[0]];
      AddedExtends(next, extra[1..]);
      assert extra == [extra[0]] + extra[1..];
      var r := Added(next, extra[1..]);
      forall i, j | 0 <= i < j < |r| && |current| <= j ensures r[i] != r[j] {
        if |next| > j {
          assert j == |current| && r[i] == next[i] == current[i] && r[j] == next[j] == extra[0];
        }
      }
    }
  }

  /** The position of the first occurrence. */
  function FirstAt(s: seq<string>, x: string): nat {
    if s == [] || s[0] == x then 0 else 1 + FirstAt(s[1..], x)
  }

  /** The added addresses follow in the order in which they are first requested. */
  lemma {:induction false} AddedInOrder(current: seq<string>, extra: seq<string>)
    ensures forall i, j | |current| <= i < j < |Added(current, extra)| ::
      FirstAt(extra, Added(current, extra)[i]) < FirstAt(extra, Added(current, extra)[j])
    decreases |extra|
  {
    if extra != [] {
      var next := if extra[0] in current then current else current + [extra[0]];
      var r := Added(next, extra[1..]);
      AddedExtends(next, extra[1..]);
      AddedInOrder(next, extra[1..]);
      assert extra[0] in next;
      forall i | |next| <= i < |r| ensures r[i] != extra[0] {
        var k :| 0 <= k < |next| && next[k] == extra[0];
        assert r[k] == next[k];
      }
    }
  }

  lemma {:induction false} AddedNothingNew(current: seq<string>, extra: seq<string>)
    requires forall x | x in extra :: x in current
    ensures Added(current, extra) == current
    decreases |extra|
  {
    if extra != [] {
      assert extra[0] in extra;
      AddedNothingNew(current, extra[1..]);
    }
  }

  // ---------------------------------------------------------------------------------------------
  // The update
  // ---------------------------------------------------------------------------------------------

  /** The texts on both sides of the only colon, or None. */
  function HostAndPort(peer: string): Option<(string, string)> {
    if |Colons(peer)| != 1 then None
    else Some((peer[..Colons(peer)[0]], peer[Colons(peer)[0] + 1..]))
  }

  /** The positions of the colons. */
  function Colons(s: string): (r: seq<nat>)
    ensures forall i | 0 <= i < |r| :: r[i] < |s| && s[r[i]] == ':'
  {
    if s == "" then []
    else
      var init := Colons(s[..|s| - 1]);
      if s[|s| - 1] == ':' then init + [|s| - 1] else init
  }

  /** The anchor peers that the option texts describe, or None when one is malformed. */
  function ParsePeers(peers: seq<string>, parsePort: string -> Option<Port>): Option<seq<AnchorPeer>> {
    if peers == [] then Some([])
    else
      var init := ParsePeers(peers[..|peers| - 1], parsePort);
      var last := HostAndPort(peers[|peers| - 1]);
      if init.None? || last.None? || parsePort(last.value.1).None? then None
      else Some(init.value + [AnchorPeer(last.value.0, parsePort(last.value.1).value)])
  }

  function RequestedAddresses(current: seq<string>, r: Request): seq<string> {
    if r.ordererAddresses == [] then current
    else if r.ordererAddressesAction == REPLACE_ORDERER_ADDRESS then r.ordererAddresses
    else if r.ordererAddressesAction == ADD_ORDERER_ADDRESS then Added(current, r.ordererAddresses)
    else if r.ordererAddressesAction == REMOVE_ORDERER_ADDRESS then Without(current, r.ordererAddresses)
    else []
  }

  function RequestedBlockCutting(s: Settings, r: Request): Settings {
    s.(batchTimeout := if r.batchTimeout != "" then r.batchTimeout else s.batchTimeout,
       maxMessageCount := if r.maxMessageCount != 0.0 then r.maxMessageCount else s.maxMessageCount,
       preferredMaxBytes := if r.preferredMaxBytes != 0.0 then r.preferredMaxBytes else s.preferredMaxBytes)
  }

  function RequestedAnchors(current: Option<Anchors>, peers: seq<AnchorPeer>): Option<Anchors> {
    if peers == [] then current
    else Some(Anchors(if current.None? then "Admins" else current.value.modPolicy, peers))
  }

  /** The settings that the request describes, or None when an anchor peer is malformed. */
  function Requested(s: Settings, r: Request, parsePort: string -> Option<Port>): Option<Settings> {
    var peers := ParsePeers(r.anchorPeers, parsePort);
    if peers.None? then None
    else Some(RequestedBlockCutting(s, r).(
      ordererAddresses := RequestedAddresses(s.ordererAddresses, r),
      anchors := RequestedAnchors(s.anchors, peers.value)))
  }

  /** Which groups of settings differ. */
  function Differences(s: Settings, t: Settings): Flags {
    Flags(
      s.batchTimeout != t.batchTimeout
      || s.maxMessageCount != t.maxMessageCount
      || s.preferredMaxBytes != t.preferredMaxBytes,
      s.ordererAddresses != t.ordererAddresses,
      s.anchors != t.anchors)
  }

  function Raised(before: Flags, now: Flags): Flags {
    Flags(before.ordererOrg || now.ordererOrg,
          before.ordererAddresses || now.ordererAddresses,
          before.peerOrg || now.peerOrg)
  }

  method UpdateChannelGroup(group: ChannelGroup, options: UpdateOptions, parsePort: string -> Option<Port>)
    returns (ok: bool)
    modifies group, options
    ensures var r := Requested(old(group.settings), options.request, parsePort);
      && (ok <==> r.Some?)
      && (ok ==> group.settings == r.value
                 && options.flags == Raised(old(options.flags), Differences(old(group.settings), r.value)))
  {
    UpdateBlockCutting(group, options);
    UpdateAddresses(group, options);
    ok := UpdateAnchors(group, options, parsePort);
  }

  method UpdateBlockCutting(group: ChannelGroup, options: UpdateOptions)
    modifies group, options
    ensures var t := RequestedBlockCutting(old(group.settings), options.request);
      && group.settings == t
      && options.flags == old(options.flags).(ordererOrg := old(options.flags.ordererOrg) || old(group.settings) != t)
  {
    var r := options.request;
    var current := group.settings;
    if current.maxMessageCount != r.maxMessageCount && r.maxMessageCount != 0.0 {
      group.settings := group.settings.(maxMessageCount := r.maxMessageCount);
      options.flags := options.flags.(ordererOrg := true);
    }
    if current.preferredMaxBytes != r.preferredMaxBytes && r.preferredMaxBytes != 0.0 {
      group.settings := group.settings.(preferredMaxBytes := r.preferredMaxBytes);
      options.flags := options.flags.(ordererOrg := true);
    }
    if current.batchTimeout != r.batchTimeout && r.batchTimeout != "" {
      group.settings := group.settings.(batchTimeout := r.batchTimeout);
      options.flags := options.flags.(ordererOrg := true);
    }
  }

  method UpdateAddresses(group: ChannelGroup, options: UpdateOptions)
    modifies group, options
    ensures var addresses := RequestedAddresses(old(group.settings.ordererAddresses), options.request);
      && group.settings == old(group.settings).(ordererAddresses := addresses)
      && options.flags == old(options.flags).(ordererAddresses :=
           old(options.flags.ordererAddresses) || addresses != old(group.settings.ordererAddresses))
  {
    var r := options.request;
    var current := group.settings.ordererAddresses;
    if |r.ordererAddresses| == 0 {
      return;
    }
    var ordererAddresses: seq<string> := [];
    if r.ordererAddressesAction == REPLACE_ORDERER_ADDRESS {
      ordererAddresses := r.ordererAddresses;
    } else if r.ordererAddressesAction == ADD_ORDERER_ADDRESS {
      ordererAddresses := AddAddresses(current, r.ordererAddresses);
    } else if r.ordererAddressesAction == REMOVE_ORDERER_ADDRESS {
      ordererAddresses := RemoveAddresses(current, r.ordererAddresses);
    }
    if current != ordererAddresses {
      group.settings := group.settings.(ordererAddresses := ordererAddresses);
      options.flags := options.flags.(ordererAddresses := true);
    }
  }

  method UpdateAnchors(group: ChannelGroup, options: UpdateOptions, parsePort: string -> Option<Port>)
    returns (ok: bool)
    modifies group, options
    ensures ok <==> ParsePeers(options.request.anchorPeers, parsePort).Some?
    ensures ok ==>
      var before := old(group.settings.anchors);
      var now := RequestedAnchors(before, ParsePeers(options.request.anchorPeers, parsePort).value);
      && group.settings == old(group.settings).(anchors := now)
      && options.flags == old(options.flags).(peerOrg := old(options.flags.peerOrg) || before != now)
  {
    var peers := options.request.anchorPeers;
    if |peers| == 0 {
      return true;
    }
    var anchorPeers: seq<AnchorPeer> := [];
    for i := 0 to |peers|
      invariant ParsePeers(peers[..i], parsePort) == Some(anchorPeers) && |anchorPeers| == i
    {
      assert peers[..i + 1][..i] == peers[..i];
      var parts := HostAndPort(peers[i]);
      if parts.None? || parsePort(parts.value.1).None? {
        MalformedPeer(peers, i + 1, parsePort);
        return false;
      }
      anchorPeers := anchorPeers + [AnchorPeer(parts.value.0, parsePort(parts.value.1).value)];
    }
    assert peers[..|peers|] == peers;
    var current := group.settings.anchors;
    if current.None? {
      group.settings := group.settings.(anchors := Some(Anchors("Admins", anchorPeers)));
      options.flags := options.flags.(peerOrg := true);
    } else if current.value.peers != anchorPeers {
      group.settings := group.settings.(anchors := Some(current.value.(peers := anchorPeers)));
      options.flags := options.flags.(peerOrg := true);
    }
    return true;
  }

  lemma {:induction false} MalformedPeer(peers: seq<string>, n: nat, parsePort: string -> Option<Port>)
    requires n <= |peers| && ParsePeers(peers[..n], parsePort).None?
    ensures ParsePeers(peers, parsePort).None?
    decreases |peers|
  {
    if n < |peers| {
      assert peers[..|peers| - 1][..n] == peers[..n];
      MalformedPeer(peers[..|peers| - 1], n, parsePort);
    } else {
      assert peers[..n] == peers;
    }
  }

  // ---------------------------------------------------------------------------------------------
  // What the update promises
  // ---------------------------------------------------------------------------------------------

  lemma AddressesIdle(current: seq<string>, r: Request)
    ensures RequestedAddresses(RequestedAddresses(current, r), r) == RequestedAddresses(current, r)
  {
    var extra := r.ordererAddresses;
    AddedExtends(current, extra);
    AddedNothingNew(Added(current, extra), extra);
    forall d | d in extra ensures d !in Without(current, extra) {
      WithoutKeeps(current, extra, d);
    }
    WithoutAbsent(Without(current, extra), extra);
  }

  /** A second run with the same request changes nothing and raises no flag. */
  lemma SecondRunIsIdle(s: Settings, r: Request, parsePort: string -> Option<Port>)
    requires Requested(s, r, parsePort).Some?
    ensures var t := Requested(s, r, parsePort).value;
      Requested(t, r, parsePort) == Some(t) && Differences(t, t) == Flags(false, false, false)
  {
    AddressesIdle(s.ordererAddresses, r);
  }

  // ---------------------------------------------------------------------------------------------
  // What a request changes, field by field
  // ---------------------------------------------------------------------------------------------

  lemma {:induction false} ColonsAreAll(s: string, k: nat)
    requires k < |s| && s[k] == ':'
    ensures k in Colons(s)
    decreases |s|
  {
    if k < |s| - 1 {
      ColonsAreAll(s[..|s| - 1], k);
    }
  }

  lemma {:induction false} NoColons(s: string)
    requires ':' !in s
    ensures Colons(s) == []
    decreases |s|
  {
    if s != "" {
      NoColons(s[..|s| - 1]);
    }
  }

  lemma {:induction false} OnlyColon(s: string, k: nat)
    requires k < |s| && forall i | 0 <= i < |s| :: s[i] == ':' <==> i == k
    ensures Colons(s) == [k]
    decreases |s|
  {
    var init := s[..|s| - 1];
    if k < |init| {
      OnlyColon(init, k);
    } else {
      NoColons(init);
    }
  }

  /** A peer text is accepted exactly when it is a host and a port around its only colon. */
  lemma HostAndPortExactly(peer: string, host: string, port: string)
    ensures HostAndPort(peer) == Some((host, port))
        <==> peer == host + ":" + port && ':' !in host && ':' !in port
  {
    if HostAndPort(peer) == Some((host, port)) {
      var k := Colons(peer)[0];
      assert peer == host + ":" + port;
      forall i | 0 <= i < |peer| && peer[i] == ':' ensures i == k {
        ColonsAreAll(peer, i);
      }
      assert forall i | 0 <= i < |port| :: port[i] == peer[k + 1 + i];
    }
    if peer == host + ":" + port && ':' !in host && ':' !in port {
      var k := |host|;
      forall c | 0 <= c < |peer| ensures peer[c] == ':' <==> c == k {
        assert peer[c] == if c < k then host[c] else if c == k then ':' else port[c - k - 1];
      }
      OnlyColon(peer, k);
      assert peer[..k] == host && peer[k + 1..] == port;
    }
  }

  /** The text is the host of the peer, one colon, and a text that parses to its port. */
  ghost predicate PeerParsed(text: string, p: AnchorPeer, parsePort: string -> Option<Port>) {
    exists port ::
      text == p.host + ":" + port && ':' !in p.host && ':' !in port && parsePort(port) == Some(p.port)
  }

  lemma PeerParsedExactly(text: string, p: AnchorPeer, parsePort: string -> Option<Port>)
    ensures PeerParsed(text, p, parsePort)
        <==> HostAndPort(text).Some? && HostAndPort(text).value.0 == p.host
             && parsePort(HostAndPort(text).value.1) == Some(p.port)
  {
    if PeerParsed(text, p, parsePort) {
      var port :| text == p.host + ":" + port && ':' !in p.host && ':' !in port && parsePort(port) == Some(p.port);
      HostAndPortExactly(text, p.host, port);
    }
    if HostAndPort(text).Some? {
      HostAndPortExactly(text, HostAndPort(text).value.0, HostAndPort(text).value.1);
    }
  }

  ghost predicate AllParsed(texts: seq<string>, peers: seq<AnchorPeer>, parsePort: string -> Option<Port>) {
    |peers| == |texts| && forall i | 0 <= i < |texts| :: PeerParsed(texts[i], peers[i], parsePort)
  }

  lemma {:induction false} ParsedPeers(texts: seq<string>, parsePort: string -> Option<Port>)
    requires ParsePeers(texts, parsePort).Some?
    ensures AllParsed(texts, ParsePeers(texts, parsePort).value, parsePort)
    decreases |texts|
  {
    if texts != [] {
      var init, peers := texts[..|texts| - 1], ParsePeers(texts, parsePort).value;
      ParsedPeers(init, parsePort);
      PeerParsedExactly(texts[|texts| - 1], peers[|texts| - 1], parsePort);
      forall i | 0 <= i < |init| ensures PeerParsed(texts[i], peers[i], parsePort) {
        assert PeerParsed(init[i], ParsePeers(init, parsePort).value[i], parsePort);
      }
    }
  }

  lemma {:induction false} PeersParse(texts: seq<string>, peers: seq<AnchorPeer>, parsePort: string -> Option<Port>)
    requires AllParsed(texts, peers, parsePort)
    ensures ParsePeers(texts, parsePort) == Some(peers)
    decreases |texts|
  {
    if texts != [] {
      var n := |texts| - 1;
      forall i | 0 <= i < n ensures PeerParsed(texts[..n][i], peers[..n][i], parsePort) {
        assert PeerParsed(texts[i], peers[i], parsePort);
      }
      PeersParse(texts[..n], peers[..n], parsePort);
      PeerParsedExactly(texts[n], peers[n], parsePort);
      assert peers == peers[..n] + [peers[n]];
    }
  }

  /** The peer texts are parsed one by one, in order. */
  lemma PeersParsedExactly(texts: seq<string>, peers: seq<AnchorPeer>, parsePort: string -> Option<Port>)
    ensures ParsePeers(texts, parsePort) == Some(peers) <==> AllParsed(texts, peers, parsePort)
  {
    if ParsePeers(texts, parsePort) == Some(peers) {
      ParsedPeers(texts, parsePort);
    }
    if AllParsed(texts, peers, parsePort) {
      PeersParse(texts, peers, parsePort);
    }
  }

  /** Batch settings: an empty text or a zero leaves the setting, anything else replaces it. */
  lemma BatchSettingsRequested(s: Settings, r: Request, parsePort: string -> Option<Port>)
    requires Requested(s, r, parsePort).Some?
    ensures var t := Requested(s, r, parsePort).value;
      && (r.batchTimeout == "" ==> t.batchTimeout == s.batchTimeout)
      && (r.batchTimeout != "" ==> t.batchTimeout == r.batchTimeout)
      && (r.maxMessageCount == 0.0 ==> t.maxMessageCount == s.maxMessageCount)
      && (r.maxMessageCount != 0.0 ==> t.maxMessageCount == r.maxMessageCount)
      && (r.preferredMaxBytes == 0.0 ==> t.preferredMaxBytes == s.preferredMaxBytes)
      && (r.preferredMaxBytes != 0.0 ==> t.preferredMaxBytes == r.preferredMaxBytes)
  {
  }

  /** Addresses: without any in the request they stay; the actions replace, extend and filter the list. */
  lemma AddressesRequested(s: Settings, r: Request, parsePort: string -> Option<Port>, x: string)
    requires Requested(s, r, parsePort).Some?
    ensures var before, after := s.ordererAddresses, Requested(s, r, parsePort).value.ordererAddresses;
      && (r.ordererAddresses == [] ==> after == before)
      && (r.ordererAddresses != [] && r.ordererAddressesAction == "replace" ==> after == r.ordererAddresses)
      && (r.ordererAddresses != [] && r.ordererAddressesAction == "add" ==>
            before <= after && (x in after <==> x in before || x in r.ordererAddresses))
      && (r.ordererAddresses != [] && r.ordererAddressesAction == "remove" ==>
            Subsequence(after, before)
            && multiset(after)[x] == if x in r.ordererAddresses then 0 else multiset(before)[x])
      && (r.ordererAddresses != [] && r.ordererAddressesAction !in ["replace", "add", "remove"] ==> after == [])
  {
    AddedExtends(s.ordererAddresses, r.ordererAddresses);
    WithoutKeeps(s.ordererAddresses, r.ordererAddresses, x);
  }

  /** Anchor peers: without any in the request they stay; otherwise they are the parsed ones under the old policy. */
  lemma AnchorsRequested(s: Settings, r: Request, parsePort: string -> Option<Port>)
    ensures Requested(s, r, parsePort).Some? <==> exists peers :: AllParsed(r.anchorPeers, peers, parsePort)
    ensures Requested(s, r, parsePort).Some? ==>
      var after := Requested(s, r, parsePort).value.anchors;
      if r.anchorPeers == [] then after == s.anchors
      else
        && after.Some?
        && after.value.modPolicy == (if s.anchors.Some? then s.anchors.value.modPolicy else "Admins")
        && AllParsed(r.anchorPeers, after.value.peers, parsePort)
  {
    var parsed := ParsePeers(r.anchorPeers, parsePort);
    if parsed.Some? {
      ParsedPeers(r.anchorPeers, parsePort);
    }
    if peers :| AllParsed(r.anchorPeers, peers, parsePort) {
      PeersParse(r.anchorPeers, peers, parsePort);
    }
  }
}
