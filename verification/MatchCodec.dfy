/**
  ofp_match on the wire: pack, unpack and fix of pox/openflow/libopenflow_01.py, as a flow
  modification uses them.
*/
module MatchCodec {
  import opened Wrappers
  import opened WildcardBits
  import opened OfpMatch
  import opened WireBytes

  const IP_TYPE: bv16 := 0x0800
  const ARP_TYPE: bv16 := 0x0806
  const IPV6_TYPE: bv16 := 0x86dd

  predicate HasPorts(proto: bv8) {
    proto == 1 || proto == 6 || proto == 17
  }

  /** What the match, seen through its attributes, asks for. */
  function KindOf(m: Match): Kind {
    if m.DlType() == Some(IP_TYPE) then
      if m.NwProto().Some? && HasPorts(m.NwProto().value) then Transport else OtherIp
    else if m.DlType() == Some(ARP_TYPE) then Arp
    else if m.DlType() == Some(IPV6_TYPE) then Ipv6
    else NonIp
  }

  /** The same, read from the stored fields, as unpack does. */
  function KindOfFields(dlType: bv16, nwProto: bv8): Kind {
    if dlType == IP_TYPE then
      if HasPorts(nwProto) then Transport else OtherIp
    else if dlType == ARP_TYPE then Arp
    else if dlType == IPV6_TYPE then Ipv6
    else NonIp
  }

  const NO_ETH := Eth(0, 0, 0, 0, 0, 0)

  function OrZero16(x: Option<bv16>): bv16 { if x.Some? then x.value else 0 }
  function OrZero8(x: Option<bv8>): bv8 { if x.Some? then x.value else 0 }
  function OrZero32(x: Option<bv32>): bv32 { if x.Some? then x.value else 0 }
  function OrNoEth(x: Option<Eth>): Eth { if x.Some? then x.value else NO_ETH }

  /** The values pack writes. */
  function OnWire(m: Match): Match {
    var kind := KindOf(m);
    var ip := m.DlType() == Some(IP_TYPE);
    var ipOrArp := ip || m.DlType() == Some(ARP_TYPE);
    Match(
      Wire(kind, m.wildcards), OrZero16(m.InPort()), OrNoEth(m.DlSrc()), OrNoEth(m.DlDst()),
      OrZero16(m.DlVlan()), OrZero8(m.DlVlanPcp()), OrZero16(m.DlType()),
      if ip then OrZero8(m.NwTos()) else 0, if ipOrArp then OrZero8(m.NwProto()) else 0,
      if ipOrArp then OrZero32(m.NwSrc()) else 0, if ipOrArp then OrZero32(m.NwDst()) else 0,
      if kind == Transport then OrZero16(m.TpSrc()) else 0, if kind == Transport then OrZero16(m.TpDst()) else 0)
  }

  /** What unpack makes of the values it reads. */
  function Received(w: Match): Match {
    w.(wildcards := Normalized(Unwire(KindOfFields(w.dlType, w.nwProto), w.wildcards)))
  }

  function WithoutPorts(m: Match): Match {
    m.(wildcards := NoPorts(m.wildcards), tpSrc := 0, tpDst := 0)
  }

  function WithoutPortsAndTos(m: Match): Match {
    m.(wildcards := NoPortsNoTos(m.wildcards), tpSrc := 0, tpDst := 0, nwTos := 0)
  }

  function WithoutAddresses(m: Match): Match {
    m.(wildcards := NoDestination(NoSource(m.wildcards | OFPFW_NW_TOS | OFPFW_NW_PROTO)),
       nwTos := 0, nwProto := 0, nwSrc := 0, nwDst := 0)
  }

  function WithoutNetwork(m: Match): Match {
    m.(wildcards := NoNetwork(m.wildcards), nwTos := 0, nwProto := 0, nwSrc := 0, nwDst := 0, tpSrc := 0, tpDst := 0)
  }

  /** The match without the fields that cannot matter for its kind. */
  function FixAs(kind: Kind, m: Match): Match {
    match kind
    case Transport => m
    case OtherIp => WithoutPorts(m)
    case Arp => WithoutPortsAndTos(m)
    case _ => WithoutNetwork(m)
  }

  /** The match with unmatchable fields set to None. */
  function Fix(m: Match): Match {
    FixAs(KindOf(m), m)
  }

  lemma FixedAsWord(kind: Kind, m: Match)
    ensures FixAs(kind, m).wildcards == Fixed(kind, m.wildcards)
  {
    match kind
    case Transport =>
    case OtherIp =>
    case Arp =>
    case Ipv6 =>
    case NonIp =>
  }

  lemma FixedWord(m: Match)
    ensures Fix(m).wildcards == Fixed(KindOf(m), m.wildcards)
  {
    FixedAsWord(KindOf(m), m);
  }

  function Normal(m: Match): Match {
    m.(wildcards := Normalized(m.wildcards))
  }

  lemma KindSurvives(m: Match)
    ensures KindOfFields(OnWire(m).dlType, OnWire(m).nwProto) == KindOf(m)
  {
  }

  /** Equal words and equal values wherever a value shows. */
  lemma SameWhereShown(a: Match, b: Match)
    requires a.wildcards == b.wildcards
    requires !Has(a.wildcards, OFPFW_IN_PORT) ==> a.inPort == b.inPort
    requires !Has(a.wildcards, OFPFW_DL_SRC) ==> a.dlSrc == b.dlSrc
    requires !Has(a.wildcards, OFPFW_DL_DST) ==> a.dlDst == b.dlDst
    requires !Has(a.wildcards, OFPFW_DL_VLAN) ==> a.dlVlan == b.dlVlan
    requires !Has(a.wildcards, OFPFW_DL_VLAN_PCP) ==> a.dlVlanPcp == b.dlVlanPcp
    requires !Has(a.wildcards, OFPFW_DL_TYPE) ==> a.dlType == b.dlType
    requires !Has(a.wildcards, OFPFW_NW_TOS) ==> a.nwTos == b.nwTos
    requires !Has(a.wildcards, OFPFW_NW_PROTO) ==> a.nwProto == b.nwProto
    requires !Has(a.wildcards, OFPFW_NW_SRC_ALL) ==> a.nwSrc == b.nwSrc
    requires !Has(a.wildcards, OFPFW_NW_DST_ALL) ==> a.nwDst == b.nwDst
    requires !Has(a.wildcards, OFPFW_TP_SRC) ==> a.tpSrc == b.tpSrc
    requires !Has(a.wildcards, OFPFW_TP_DST) ==> a.tpDst == b.tpDst
    ensures Same(a, b)
  {
  }

  /** A field that shows after fix showed before. */
  lemma Shows<T>(m: Match, flag: bv32, field: T)
    requires flag in {OFPFW_IN_PORT, OFPFW_DL_VLAN, OFPFW_DL_SRC, OFPFW_DL_DST, OFPFW_DL_TYPE, OFPFW_NW_PROTO,
                      OFPFW_TP_SRC, OFPFW_TP_DST, OFPFW_DL_VLAN_PCP, OFPFW_NW_TOS, OFPFW_NW_SRC_ALL, OFPFW_NW_DST_ALL}
    ensures !Has(Normalized(Fixed(KindOf(m), m.wildcards)), flag) ==> m.Get(flag, field) == Some(field)
  {
    FixedHides(KindOf(m), m.wildcards, flag);
  }

  lemma LinkFieldsArrive(m: Match, x: bv32)
    requires x == Normalized(Fixed(KindOf(m), m.wildcards))
    ensures var w := OnWire(m);
      && (!Has(x, OFPFW_IN_PORT) ==> w.inPort == m.inPort)
      && (!Has(x, OFPFW_DL_SRC) ==> w.dlSrc == m.dlSrc) && (!Has(x, OFPFW_DL_DST) ==> w.dlDst == m.dlDst)
      && (!Has(x, OFPFW_DL_VLAN) ==> w.dlVlan == m.dlVlan)
      && (!Has(x, OFPFW_DL_VLAN_PCP) ==> w.dlVlanPcp == m.dlVlanPcp)
      && (!Has(x, OFPFW_DL_TYPE) ==> w.dlType == m.dlType)
  {
    Shows(m, OFPFW_IN_PORT, m.inPort);
    Shows(m, OFPFW_DL_SRC, m.dlSrc);
    Shows(m, OFPFW_DL_DST, m.dlDst);
    Shows(m, OFPFW_DL_VLAN, m.dlVlan);
    Shows(m, OFPFW_DL_VLAN_PCP, m.dlVlanPcp);
    Shows(m, OFPFW_DL_TYPE, m.dlType);
  }

  lemma FixKeepsLinkFields(m: Match)
    ensures var f := Fix(m);
      && f.inPort == m.inPort && f.dlSrc == m.dlSrc && f.dlDst == m.dlDst
      && f.dlVlan == m.dlVlan && f.dlVlanPcp == m.dlVlanPcp && f.dlType == m.dlType
  {
    match KindOf(m)
    case Transport =>
    case OtherIp =>
    case Arp =>
    case Ipv6 =>
    case NonIp =>
  }

  lemma TosArrives(m: Match, x: bv32)
    requires x == Normalized(Fixed(KindOf(m), m.wildcards))
    ensures !Has(x, OFPFW_NW_TOS) ==> OnWire(m).nwTos == Fix(m).nwTos
  {
    Shows(m, OFPFW_NW_TOS, m.nwTos);
    FixedRemoves(KindOf(m), m.wildcards);
    match KindOf(m)
    case Transport =>
    case OtherIp =>
    case Arp =>
    case Ipv6 =>
    case NonIp =>
  }

  lemma ProtocolArrives(m: Match, x: bv32)
    requires x == Normalized(Fixed(KindOf(m), m.wildcards))
    ensures !Has(x, OFPFW_NW_PROTO) ==> OnWire(m).nwProto == Fix(m).nwProto
  {
    Shows(m, OFPFW_NW_PROTO, m.nwProto);
    FixedRemoves(KindOf(m), m.wildcards);
    match KindOf(m)
    case Transport =>
    case OtherIp =>
    case Arp =>
    case Ipv6 =>
    case NonIp =>
  }

  lemma AddressesArrive(m: Match, x: bv32)
    requires x == Normalized(Fixed(KindOf(m), m.wildcards))
    ensures var w, f := OnWire(m), Fix(m);
      (!Has(x, OFPFW_NW_SRC_ALL) ==> w.nwSrc == f.nwSrc) && (!Has(x, OFPFW_NW_DST_ALL) ==> w.nwDst == f.nwDst)
  {
    Shows(m, OFPFW_NW_SRC_ALL, m.nwSrc);
    Shows(m, OFPFW_NW_DST_ALL, m.nwDst);
    FixedRemoves(KindOf(m), m.wildcards);
    match KindOf(m)
    case Transport =>
    case OtherIp =>
    case Arp =>
    case Ipv6 =>
    case NonIp =>
  }

  lemma PortsArrive(m: Match, x: bv32)
    requires x == Normalized(Fixed(KindOf(m), m.wildcards))
    ensures var w, f := OnWire(m), Fix(m);
      (!Has(x, OFPFW_TP_SRC) ==> w.tpSrc == f.tpSrc) && (!Has(x, OFPFW_TP_DST) ==> w.tpDst == f.tpDst)
  {
    Shows(m, OFPFW_TP_SRC, m.tpSrc);
    Shows(m, OFPFW_TP_DST, m.tpDst);
    FixedRemoves(KindOf(m), m.wildcards);
  }

  lemma WordArrives(m: Match)
    ensures Received(OnWire(m)).wildcards == Normalized(Fixed(KindOf(m), m.wildcards)) == Normal(Fix(m)).wildcards
  {
    KindSurvives(m);
    WireAndBack(KindOf(m), m.wildcards);
    FixedWord(m);
  }

  /** What arrives is the fixed match: what unpack reads from what pack writes shows exactly
      what fix leaves (with address counts above 32 read as 32). */
  lemma ReceivedIsFixed(m: Match)
    ensures Same(Received(OnWire(m)), Normal(Fix(m)))
  {
    WordArrives(m);
    var x := Normalized(Fixed(KindOf(m), m.wildcards));
    LinkFieldsArrive(m, x);
    FixKeepsLinkFields(m);
    TosArrives(m, x);
    ProtocolArrives(m, x);
    AddressesArrive(m, x);
    PortsArrive(m, x);
    SameWhereShown(Received(OnWire(m)), Normal(Fix(m)));
  }

  lemma FixKeepsKind(m: Match)
    ensures KindOf(Fix(m)) == KindOf(m)
  {
    FixedWord(m);
    FixedKeepsKind(KindOf(m), m.wildcards);
  }

  /** Apart from the wildcards, fixing only sets fields to zero. */
  lemma FixAsTwice(kind: Kind, m: Match)
    ensures FixAs(kind, FixAs(kind, m)).(wildcards := 0) == FixAs(kind, m).(wildcards := 0)
  {
    match kind
    case Transport =>
    case OtherIp =>
    case Arp =>
    case Ipv6 =>
    case NonIp =>
  }

  /** Fixing a fixed match changes nothing. */
  lemma FixIsIdempotent(m: Match)
    ensures Fix(Fix(m)) == Fix(m)
  {
    var kind, f := KindOf(m), Fix(m);
    FixKeepsKind(m);
    FixAsTwice(kind, m);
    FixedAsWord(kind, m);
    FixedAsWord(kind, f);
    FixedTwice(kind, m.wildcards);
    SameUpToWord(FixAs(kind, f), f);
  }

  lemma SameUpToWord(a: Match, b: Match)
    requires a.wildcards == b.wildcards && a.(wildcards := 0) == b.(wildcards := 0)
    ensures a == b
  {
  }

  // ---------------------------------------------------------------- attribute by attribute

  /** f shows of m exactly what can matter.  Everything else shows None: the TOS unless the match asks
      for IP, protocol and addresses unless for IP or ARP, ports unless for ICMP, TCP or UDP over IP. */
  ghost predicate ShowsWhatMatters(m: Match, f: Match) {
    var ip, arp := m.DlType() == Some(0x0800), m.DlType() == Some(0x0806);
    var ports := ip && (m.NwProto() == Some(1) || m.NwProto() == Some(6) || m.NwProto() == Some(17));
    && LinkAttributes(m, f)
    && f.NwTos() == (if ip then m.NwTos() else None)
    && f.NwProto() == (if ip || arp then m.NwProto() else None)
    && f.GetNwSrc() == (if ip || arp then m.GetNwSrc() else (None, 0))
    && f.GetNwDst() == (if ip || arp then m.GetNwDst() else (None, 0))
    && f.TpSrc() == (if ports then m.TpSrc() else None) && f.TpDst() == (if ports then m.TpDst() else None)
  }

  ghost predicate LinkAttributes(m: Match, f: Match) {
    && f.InPort() == m.InPort() && f.DlSrc() == m.DlSrc() && f.DlDst() == m.DlDst()
    && f.DlVlan() == m.DlVlan() && f.DlVlanPcp() == m.DlVlanPcp() && f.DlType() == m.DlType()
  }

  lemma KindByAttributes(m: Match)
    ensures var ip, arp := m.DlType() == Some(0x0800), m.DlType() == Some(0x0806);
      var ports := ip && (m.NwProto() == Some(1) || m.NwProto() == Some(6) || m.NwProto() == Some(17));
      && (KindOf(m) == Transport <==> ports) && (KindOf(m) == OtherIp <==> ip && !ports)
      && (KindOf(m) == Arp <==> arp)
  {
  }

  lemma LinkShows(m: Match, f: Match)
    requires f.inPort == m.inPort && f.dlSrc == m.dlSrc && f.dlDst == m.dlDst
    requires f.dlVlan == m.dlVlan && f.dlVlanPcp == m.dlVlanPcp && f.dlType == m.dlType
    requires LinkAlike(f.wildcards, m.wildcards)
    ensures LinkAttributes(m, f)
  {
  }

  lemma AddressesShow(m: Match, f: Match)
    requires f.nwSrc == m.nwSrc && f.nwDst == m.nwDst && SourceAlike(f.wildcards, m.wildcards)
    requires DestinationAlike(f.wildcards, m.wildcards)
    ensures f.GetNwSrc() == m.GetNwSrc() && f.GetNwDst() == m.GetNwDst()
  {
  }

  lemma NetworkShows(m: Match)
    ensures var kind, f := KindOf(m), Fix(m);
      && f.NwTos() == (if kind == Transport || kind == OtherIp then m.NwTos() else None)
      && f.NwProto() == (if kind == Ipv6 || kind == NonIp then None else m.NwProto())
  {
    FixedWord(m);
    FixedNetwork(KindOf(m), m.wildcards);
  }

  lemma PortsShow(m: Match)
    ensures var f := Fix(m);
      if KindOf(m) == Transport then f.TpSrc() == m.TpSrc() && f.TpDst() == m.TpDst()
      else f.TpSrc() == None && f.TpDst() == None
  {
    FixedWord(m);
    FixedPorts(KindOf(m), m.wildcards);
  }

  lemma FixedAddressesShow(m: Match)
    ensures var f := Fix(m);
      if KindOf(m) == Ipv6 || KindOf(m) == NonIp then f.GetNwSrc() == (None, 0) && f.GetNwDst() == (None, 0)
      else f.GetNwSrc() == m.GetNwSrc() && f.GetNwDst() == m.GetNwDst()
  {
    FixedWord(m);
    if KindOf(m) == Ipv6 || KindOf(m) == NonIp {
      FixedDropsAddresses(KindOf(m), m.wildcards);
    } else {
      FixedSource(KindOf(m), m.wildcards);
      FixedDestination(KindOf(m), m.wildcards);
      AddressesShow(m, Fix(m));
    }
  }

  /** What a match shows after fix. */
  lemma FixShows(m: Match)
    ensures ShowsWhatMatters(m, Fix(m))
  {
    KindByAttributes(m);
    FixKeepsLinkFields(m);
    FixedWord(m);
    FixedLink(KindOf(m), m.wildcards);
    LinkShows(m, Fix(m));
    NetworkShows(m);
    PortsShow(m);
    FixedAddressesShow(m);
  }

  /** Normalising changes nothing that shows. */
  lemma NormalShows(m: Match)
    ensures LinkAttributes(m, Normal(m))
    ensures var n := Normal(m);
      && n.NwTos() == m.NwTos() && n.NwProto() == m.NwProto() && n.TpSrc() == m.TpSrc() && n.TpDst() == m.TpDst()
      && n.GetNwSrc() == m.GetNwSrc() && n.GetNwDst() == m.GetNwDst()
  {
    NormalizedLink(m.wildcards);
    NormalizedNetwork(m.wildcards);
    NormalizedAddresses(m.wildcards);
    LinkShows(m, Normal(m));
    AddressesShow(m, Normal(m));
  }

  lemma SameShows(m: Match, f: Match, g: Match)
    requires ShowsWhatMatters(m, f) && Same(g, f)
    ensures ShowsWhatMatters(m, g)
  {
    AttributeOfNet(f);
    AttributeOfNet(g);
  }

  /** A match that asks for ICMP, TCP or UDP over IP is left as it is. */
  lemma TransportStays(m: Match)
    requires m.DlType() == Some(0x0800)
    requires m.NwProto() == Some(1) || m.NwProto() == Some(6) || m.NwProto() == Some(17)
    ensures Fix(m) == m
  {
  }

  // ---------------------------------------------------------------- forty bytes

  function PutEth(e: Eth): (r: Bytes)
    ensures |r| == 6
  {
    [e.b0, e.b1, e.b2, e.b3, e.b4, e.b5]
  }

  function GetEth(s: Bytes): Eth
    requires |s| == 6
  {
    Eth(s[0], s[1], s[2], s[3], s[4], s[5])
  }

  /** The first twenty bytes of the layout of ofp_match. */
  function LinkPart(w: Match): (r: Bytes)
    ensures |r| == 20
  {
    Put32(w.wildcards) + Put16(w.inPort) + PutEth(w.dlSrc) + PutEth(w.dlDst) + Put16(w.dlVlan)
  }

  /** The other twenty, padding included. */
  function NetworkPart(w: Match): (r: Bytes)
    ensures |r| == 20
  {
    [w.dlVlanPcp, 0] + Put16(w.dlType) + [w.nwTos, w.nwProto, 0, 0] + Put32(w.nwSrc) + Put32(w.nwDst)
    + Put16(w.tpSrc) + Put16(w.tpDst)
  }

  function Layout(w: Match): (r: Bytes)
    ensures |r| == 40
  {
    LinkPart(w) + NetworkPart(w)
  }

  /** The fields read back; padding is skipped. */
  function Parse(s: Bytes): Match
    requires |s| == 40
  {
    var l, n := s[..20], s[20..];
    Match(Get32(l[0..4]), Get16(l[4..6]), GetEth(l[6..12]), GetEth(l[12..18]), Get16(l[18..20]), n[0],
          Get16(n[2..4]), n[4], n[5], Get32(n[8..12]), Get32(n[12..16]), Get16(n[16..18]), Get16(n[18..20]))
  }

  lemma ParseLink(w: Match)
    ensures var l := LinkPart(w);
      && Get32(l[0..4]) == w.wildcards && Get16(l[4..6]) == w.inPort && GetEth(l[6..12]) == w.dlSrc
      && GetEth(l[12..18]) == w.dlDst && Get16(l[18..20]) == w.dlVlan
  {
    var l := LinkPart(w);
    assert l[0..4] == Put32(w.wildcards) && l[4..6] == Put16(w.inPort) && l[18..20] == Put16(w.dlVlan);
    assert l[6..12] == PutEth(w.dlSrc) && l[12..18] == PutEth(w.dlDst);
    GetPut32(w.wildcards);
    GetPut16(w.inPort);
    GetPut16(w.dlVlan);
  }

  lemma ParseNetwork(w: Match)
    ensures var n := NetworkPart(w);
      && n[0] == w.dlVlanPcp && Get16(n[2..4]) == w.dlType && n[4] == w.nwTos && n[5] == w.nwProto
      && Get32(n[8..12]) == w.nwSrc && Get32(n[12..16]) == w.nwDst
      && Get16(n[16..18]) == w.tpSrc && Get16(n[18..20]) == w.tpDst
  {
    var n := NetworkPart(w);
    assert n[2..4] == Put16(w.dlType) && n[8..12] == Put32(w.nwSrc) && n[12..16] == Put32(w.nwDst);
    assert n[16..18] == Put16(w.tpSrc) && n[18..20] == Put16(w.tpDst);
    GetPut32(w.nwSrc);
    GetPut32(w.nwDst);
    GetPut16(w.dlType);
    GetPut16(w.tpSrc);
    GetPut16(w.tpDst);
  }

  lemma ParseLayout(w: Match)
    ensures Parse(Layout(w)) == w
  {
    ParseLink(w);
    ParseNetwork(w);
    assert Layout(w)[..20] == LinkPart(w) && Layout(w)[20..] == NetworkPart(w);
  }

  /** ofp_match.pack and unpack for a flow modification. */
  function Pack(m: Match): (r: Bytes)
    ensures |r| == 40
  {
    Layout(OnWire(m))
  }

  function Unpack(s: Bytes): Match
    requires |s| == 40
  {
    Received(Parse(s))
  }

  /** The round trip, for every match there is. */
  lemma UnpackPack(m: Match)
    ensures Same(Unpack(Pack(m)), Normal(Fix(m)))
  {
    ParseLayout(OnWire(m));
    ReceivedIsFixed(m);
  }

  /** The attributes of what arrives, for every match there is. */
  lemma UnpackPackShows(m: Match)
    ensures ShowsWhatMatters(m, Unpack(Pack(m)))
  {
    UnpackPack(m);
    FixShows(m);
    NormalShows(Fix(m));
    SameShows(m, Normal(Fix(m)), Unpack(Pack(m)));
  }

  /** The round trip gives exactly the fixed match when, and only when, its address counts are
      at most 32, as every setter leaves them. */
  lemma UnpackPackIsFix(m: Match)
    ensures Same(Unpack(Pack(m)), Fix(m)) <==> CountsFit(Fix(m).wildcards)
  {
    UnpackPack(m);
    NormalWhenCountsFit(Fix(m).wildcards);
    if CountsFit(Fix(m).wildcards) {
      assert Normal(Fix(m)) == Fix(m);
    }
  }

  /** A wildcard word with a source count of 63 is one that arrives changed. */
  lemma LargeCountsArriveLower()
    ensures var m := Match(OFPFW_NW_SRC_MASK, 1, NO_ETH, NO_ETH, 0, 0, IP_TYPE, 0, 6, 0, 0, 80, 80);
      Fix(m) == m && !Same(Unpack(Pack(m)), Fix(m))
  {
    var m := Match(OFPFW_NW_SRC_MASK, 1, NO_ETH, NO_ETH, 0, 0, IP_TYPE, 0, 6, 0, 0, 80, 80);
    assert KindOf(m) == Transport;
    UnpackPackIsFix(m);
  }
}
