/**
  The wildcard word of an ofp_match (OpenFlow Switch Specification 1.0.0, section 5.2.3) and
  the three ways pox/openflow/libopenflow_01.py changes it: for the wire, from the wire, and
  when unmatchable fields are removed.
*/
module WildcardBits {
  const OFPFW_IN_PORT: bv32 := 1
  const OFPFW_DL_VLAN: bv32 := 2
  const OFPFW_DL_SRC: bv32 := 4
  const OFPFW_DL_DST: bv32 := 8
  const OFPFW_DL_TYPE: bv32 := 16
  const OFPFW_NW_PROTO: bv32 := 32
  const OFPFW_TP_SRC: bv32 := 64
  const OFPFW_TP_DST: bv32 := 128
  const OFPFW_NW_SRC_SHIFT: bv32 := 8
  const OFPFW_NW_SRC_ALL: bv32 := 8192
  const OFPFW_NW_SRC_MASK: bv32 := 16128
  const OFPFW_NW_DST_SHIFT: bv32 := 14
  const OFPFW_NW_DST_ALL: bv32 := 524288
  const OFPFW_NW_DST_MASK: bv32 := 1032192
  const OFPFW_DL_VLAN_PCP: bv32 := 1048576
  const OFPFW_NW_TOS: bv32 := 0x20_0000
  const OFPFW_ALL: bv32 := 0x3f_ffff

  predicate Has(wildcards: bv32, flag: bv32) {
    wildcards & flag == flag
  }

  /** _normalize_wildcards: address counts above 32 mean the same as 32. */
  function Normalized(wildcards: bv32): bv32 {
    var a := if (wildcards & OFPFW_NW_SRC_MASK) >> OFPFW_NW_SRC_SHIFT > 32
             then (wildcards & !OFPFW_NW_SRC_MASK) | ((32 as bv32) << OFPFW_NW_SRC_SHIFT) else wildcards;
    if (a & OFPFW_NW_DST_MASK) >> OFPFW_NW_DST_SHIFT > 32
    then (a & !OFPFW_NW_DST_MASK) | ((32 as bv32) << OFPFW_NW_DST_SHIFT) else a
  }

  /** What a match says about the packet's protocols decides which fields can matter. */
  datatype Kind = Transport | OtherIp | Arp | Ipv6 | NonIp

  /** _wire_wildcards: fields that cannot matter lose their wildcard bits. */
  function Wire(kind: Kind, wildcards: bv32): bv32 {
    match kind
    case Transport => wildcards
    case OtherIp => wildcards & !(OFPFW_TP_SRC | OFPFW_TP_DST)
    case Arp => wildcards & !(OFPFW_NW_TOS | OFPFW_TP_SRC | OFPFW_TP_DST)
    case Ipv6 => wildcards & !(OFPFW_NW_SRC_MASK | OFPFW_NW_DST_MASK | OFPFW_TP_SRC | OFPFW_TP_DST)
    case NonIp =>
      wildcards & !(OFPFW_NW_TOS | OFPFW_NW_PROTO | OFPFW_NW_SRC_MASK | OFPFW_NW_DST_MASK | OFPFW_TP_SRC | OFPFW_TP_DST)
  }

  /** _unwire_wildcards; it has no case of its own for IPv6. */
  function Unwire(kind: Kind, wildcards: bv32): bv32 {
    match kind
    case Transport => wildcards
    case OtherIp => wildcards | (OFPFW_TP_SRC | OFPFW_TP_DST)
    case Arp => wildcards | (OFPFW_NW_TOS | OFPFW_TP_SRC | OFPFW_TP_DST)
    case _ =>
      wildcards | (OFPFW_NW_TOS | OFPFW_NW_PROTO | OFPFW_NW_SRC_MASK | OFPFW_NW_DST_MASK | OFPFW_TP_SRC | OFPFW_TP_DST)
  }

  /** Setting nw_src to None. */
  function NoSource(wildcards: bv32): bv32 {
    (wildcards & !OFPFW_NW_SRC_MASK) | OFPFW_NW_SRC_ALL
  }

  function NoDestination(wildcards: bv32): bv32 {
    (wildcards & !OFPFW_NW_DST_MASK) | OFPFW_NW_DST_ALL
  }

  function NoPorts(wildcards: bv32): bv32 {
    wildcards | OFPFW_TP_SRC | OFPFW_TP_DST
  }

  function NoPortsNoTos(wildcards: bv32): bv32 {
    wildcards | OFPFW_TP_SRC | OFPFW_TP_DST | OFPFW_NW_TOS
  }

  function NoNetwork(wildcards: bv32): bv32 {
    NoPorts(NoDestination(NoSource(wildcards | OFPFW_NW_TOS | OFPFW_NW_PROTO)))
  }

  /** The wildcards after fix has set the fields that cannot matter to None, one by one. */
  function Fixed(kind: Kind, wildcards: bv32): bv32 {
    match kind
    case Transport => wildcards
    case OtherIp => NoPorts(wildcards)
    case Arp => NoPortsNoTos(wildcards)
    case _ => NoNetwork(wildcards)
  }

  lemma OtherIpAndBack(wildcards: bv32)
    ensures Unwire(OtherIp, Wire(OtherIp, wildcards)) == Fixed(OtherIp, wildcards)
  {
  }

  lemma ArpAndBack(wildcards: bv32)
    ensures Unwire(Arp, Wire(Arp, wildcards)) == Fixed(Arp, wildcards)
  {
  }

  lemma AllOnesNormalize(x: bv32)
    requires x & OFPFW_NW_SRC_MASK == OFPFW_NW_SRC_MASK && x & OFPFW_NW_DST_MASK == OFPFW_NW_DST_MASK
    ensures Normalized(x) == NoDestination(NoSource(x))
  {
  }

  lemma NoAddressesAreNormal(x: bv32)
    requires x & OFPFW_NW_SRC_MASK == OFPFW_NW_SRC_ALL && x & OFPFW_NW_DST_MASK == OFPFW_NW_DST_ALL
    ensures Normalized(x) == x
  {
  }

  /** A word that came back with both address counts all ones. */
  lemma BackHasAllOnes(kind: Kind, wildcards: bv32)
    requires kind == Ipv6 || kind == NonIp
    ensures var back := Unwire(kind, wildcards);
      back & OFPFW_NW_SRC_MASK == OFPFW_NW_SRC_MASK && back & OFPFW_NW_DST_MASK == OFPFW_NW_DST_MASK
  {
  }

  lemma FixedHasNoAddresses(kind: Kind, wildcards: bv32)
    requires kind == Ipv6 || kind == NonIp
    ensures var fixed := Fixed(kind, wildcards);
      fixed & OFPFW_NW_SRC_MASK == OFPFW_NW_SRC_ALL && fixed & OFPFW_NW_DST_MASK == OFPFW_NW_DST_ALL
  {
  }

  lemma Ipv6AndBack(wildcards: bv32)
    ensures NoDestination(NoSource(Unwire(Ipv6, Wire(Ipv6, wildcards)))) == Fixed(Ipv6, wildcards)
  {
  }

  lemma NonIpAndBack(wildcards: bv32)
    ensures NoDestination(NoSource(Unwire(NonIp, Wire(NonIp, wildcards)))) == Fixed(NonIp, wildcards)
  {
  }

  /** Over the wire and back gives the wildcards that fix gives, for every kind and every word;
      for IPv6 too, although its bits on the wire are not those fix would leave. */
  lemma WireAndBack(kind: Kind, wildcards: bv32)
    ensures Normalized(Unwire(kind, Wire(kind, wildcards))) == Normalized(Fixed(kind, wildcards))
  {
    match kind
    case Transport =>
    case OtherIp => OtherIpAndBack(wildcards);
    case Arp => ArpAndBack(wildcards);
    case Ipv6 =>
      Ipv6AndBack(wildcards);
      BackHasAllOnes(kind, Wire(kind, wildcards));
      FixedHasNoAddresses(kind, wildcards);
      AllOnesNormalize(Unwire(kind, Wire(kind, wildcards)));
      NoAddressesAreNormal(Fixed(kind, wildcards));
    case NonIp =>
      NonIpAndBack(wildcards);
      BackHasAllOnes(kind, Wire(kind, wildcards));
      FixedHasNoAddresses(kind, wildcards);
      AllOnesNormalize(Unwire(kind, Wire(kind, wildcards)));
      NoAddressesAreNormal(Fixed(kind, wildcards));
  }

  /** fix and normalisation only ever hide fields. */
  lemma FixedHides(kind: Kind, wildcards: bv32, flag: bv32)
    requires flag in {OFPFW_IN_PORT, OFPFW_DL_VLAN, OFPFW_DL_SRC, OFPFW_DL_DST, OFPFW_DL_TYPE, OFPFW_NW_PROTO,
                      OFPFW_TP_SRC, OFPFW_TP_DST, OFPFW_DL_VLAN_PCP, OFPFW_NW_TOS, OFPFW_NW_SRC_ALL, OFPFW_NW_DST_ALL}
    ensures Has(wildcards, flag) ==> Has(Normalized(Fixed(kind, wildcards)), flag)
  {
  }

  /** What fix removes is hidden. */
  lemma FixedRemoves(kind: Kind, wildcards: bv32)
    ensures var w := Normalized(Fixed(kind, wildcards));
      && (kind != Transport ==> Has(w, OFPFW_TP_SRC) && Has(w, OFPFW_TP_DST))
      && (kind == Arp || kind == Ipv6 || kind == NonIp ==> Has(w, OFPFW_NW_TOS))
      && (kind == Ipv6 || kind == NonIp ==>
            Has(w, OFPFW_NW_PROTO) && Has(w, OFPFW_NW_SRC_ALL) && Has(w, OFPFW_NW_DST_ALL))
  {
  }

  function Cleared(wildcards: bv32, flag: bv32): bv32 {
    wildcards & !flag
  }

  /** The word with the bits of one field set or clear. */
  function SetTo(wildcards: bv32, flag: bv32, on: bool): bv32 {
    if on then wildcards | flag else Cleared(wildcards, flag)
  }

  lemma FlagSetTo(wildcards: bv32, flag: bv32, on: bool)
    requires flag != 0
    ensures Has(SetTo(wildcards, flag, on), flag) == on
  {
  }

  lemma FlagElsewhere(wildcards: bv32, flag: bv32, on: bool, other: bv32)
    requires flag & other == 0
    ensures Has(SetTo(wildcards, flag, on), other) == Has(wildcards, other)
  {
  }

  predicate CountsFit(wildcards: bv32) {
    && (wildcards & OFPFW_NW_SRC_MASK) >> OFPFW_NW_SRC_SHIFT <= 32
    && (wildcards & OFPFW_NW_DST_MASK) >> OFPFW_NW_DST_SHIFT <= 32
  }

  /** Normalisation changes exactly the words with an address count above 32. */
  lemma NormalWhenCountsFit(wildcards: bv32)
    ensures Normalized(wildcards) == wildcards <==> CountsFit(wildcards)
  {
  }

  lemma FixedTwice(kind: Kind, wildcards: bv32)
    ensures Fixed(kind, Fixed(kind, wildcards)) == Fixed(kind, wildcards)
  {
    match kind
    case Transport =>
    case OtherIp =>
    case Arp =>
    case Ipv6 => NonIpFixedTwice(wildcards);
    case NonIp => NonIpFixedTwice(wildcards);
  }

  lemma NonIpFixedTwice(wildcards: bv32)
    ensures Fixed(NonIp, Fixed(NonIp, wildcards)) == Fixed(NonIp, wildcards)
  {
  }

  /** fix touches neither the bit of dl_type nor, on IP packets, that of nw_proto. */
  lemma FixedKeepsKind(kind: Kind, wildcards: bv32)
    ensures Has(Fixed(kind, wildcards), OFPFW_DL_TYPE) <==> Has(wildcards, OFPFW_DL_TYPE)
    ensures kind == Transport || kind == OtherIp ==>
      (Has(Fixed(kind, wildcards), OFPFW_NW_PROTO) <==> Has(wildcards, OFPFW_NW_PROTO))
  {
  }

  // ---------------------------------------------------------------- flag by flag

  /** The words agree on the bits of this field. */
  predicate Alike(v: bv32, w: bv32, flag: bv32) {
    Has(v, flag) <==> Has(w, flag)
  }

  predicate LinkAlike(v: bv32, w: bv32) {
    && Alike(v, w, OFPFW_IN_PORT) && Alike(v, w, OFPFW_DL_SRC) && Alike(v, w, OFPFW_DL_DST)
    && Alike(v, w, OFPFW_DL_VLAN) && Alike(v, w, OFPFW_DL_VLAN_PCP) && Alike(v, w, OFPFW_DL_TYPE)
  }

  /** The same source address shows, with the same count. */
  predicate SourceAlike(v: bv32, w: bv32) {
    Alike(v, w, OFPFW_NW_SRC_ALL) && (Has(w, OFPFW_NW_SRC_ALL) || v & OFPFW_NW_SRC_MASK == w & OFPFW_NW_SRC_MASK)
  }

  predicate DestinationAlike(v: bv32, w: bv32) {
    Alike(v, w, OFPFW_NW_DST_ALL) && (Has(w, OFPFW_NW_DST_ALL) || v & OFPFW_NW_DST_MASK == w & OFPFW_NW_DST_MASK)
  }

  lemma NormalizedLink(w: bv32)
    ensures LinkAlike(Normalized(w), w)
  {
  }

  lemma NormalizedNetwork(w: bv32)
    ensures Alike(Normalized(w), w, OFPFW_NW_TOS) && Alike(Normalized(w), w, OFPFW_NW_PROTO)
    ensures Alike(Normalized(w), w, OFPFW_TP_SRC) && Alike(Normalized(w), w, OFPFW_TP_DST)
  {
  }

  lemma NormalizedAddresses(w: bv32)
    ensures SourceAlike(Normalized(w), w) && DestinationAlike(Normalized(w), w)
  {
  }

  lemma FixedLink(kind: Kind, w: bv32)
    ensures LinkAlike(Fixed(kind, w), w)
  {
  }

  lemma FixedPorts(kind: Kind, w: bv32)
    ensures var v := Fixed(kind, w);
      if kind == Transport then Alike(v, w, OFPFW_TP_SRC) && Alike(v, w, OFPFW_TP_DST)
      else Has(v, OFPFW_TP_SRC) && Has(v, OFPFW_TP_DST)
  {
  }

  lemma FixedNetwork(kind: Kind, w: bv32)
    ensures var v := Fixed(kind, w);
      && (if kind == Transport || kind == OtherIp then Alike(v, w, OFPFW_NW_TOS) else Has(v, OFPFW_NW_TOS))
      && (if kind == Ipv6 || kind == NonIp then Has(v, OFPFW_NW_PROTO) else Alike(v, w, OFPFW_NW_PROTO))
  {
  }

  lemma FixedSource(kind: Kind, w: bv32)
    requires kind == Transport || kind == OtherIp || kind == Arp
    ensures SourceAlike(Fixed(kind, w), w)
  {
  }

  lemma FixedDestination(kind: Kind, w: bv32)
    requires kind == Transport || kind == OtherIp || kind == Arp
    ensures DestinationAlike(Fixed(kind, w), w)
  {
  }

  lemma FixedDropsAddresses(kind: Kind, w: bv32)
    requires kind == Ipv6 || kind == NonIp
    ensures Has(Fixed(kind, w), OFPFW_NW_SRC_ALL) && Has(Fixed(kind, w), OFPFW_NW_DST_ALL)
  {
  }
}
