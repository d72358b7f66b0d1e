/**
  ofp_match of pox/openflow/libopenflow_01.py: fields with wildcard bits (OpenFlow Switch
  Specification 1.0.0, section 5.2.3), equality, and the relation "this match encompasses
  that one" on which the flow table rests.
*/
module OfpMatch {
  import opened Wrappers
  import opened BitMasks
  import opened Prefixes
  import opened WildcardBits


  datatype Eth = Eth(b0: bv8, b1: bv8, b2: bv8, b3: bv8, b4: bv8, b5: bv8)

  /** The stored fields; a field means something only where its wildcard bits are clear. */
  datatype Match = Match(
    wildcards: bv32, inPort: bv16, dlSrc: Eth, dlDst: Eth, dlVlan: bv16, dlVlanPcp: bv8, dlType: bv16,
    nwTos: bv8, nwProto: bv8, nwSrc: bv32, nwDst: bv32, tpSrc: bv16, tpDst: bv16)
  {
    /** __getattr__: None where all wildcard bits of the field are set. */
    function Get<T>(flag: bv32, field: T): Option<T> {
      if Has(wildcards, flag) then None else Some(field)
    }

    function InPort(): Option<bv16> { Get(OFPFW_IN_PORT, inPort) }
    function DlSrc(): Option<Eth> { Get(OFPFW_DL_SRC, dlSrc) }
    function DlDst(): Option<Eth> { Get(OFPFW_DL_DST, dlDst) }
    function DlVlan(): Option<bv16> { Get(OFPFW_DL_VLAN, dlVlan) }
    function DlVlanPcp(): Option<bv8> { Get(OFPFW_DL_VLAN_PCP, dlVlanPcp) }
    function DlType(): Option<bv16> { Get(OFPFW_DL_TYPE, dlType) }
    function NwTos(): Option<bv8> { Get(OFPFW_NW_TOS, nwTos) }
    function NwProto(): Option<bv8> { Get(OFPFW_NW_PROTO, nwProto) }
    function NwSrc(): Option<bv32> { Get(OFPFW_NW_SRC_ALL, nwSrc) }
    function NwDst(): Option<bv32> { Get(OFPFW_NW_DST_ALL, nwDst) }
    function TpSrc(): Option<bv16> { Get(OFPFW_TP_SRC, tpSrc) }
    function TpDst(): Option<bv16> { Get(OFPFW_TP_DST, tpDst) }

    /** get_nw_src: the address and its number of network bits. */
    function GetNwSrc(): (r: (Option<bv32>, bv8))
      ensures r.1 <= 32 && (r.0.None? <==> r.1 == 0)
    {
      if Has(wildcards, OFPFW_NW_SRC_ALL) then (None, 0)
      else (Some(nwSrc), 32 - (((wildcards & OFPFW_NW_SRC_MASK) >> OFPFW_NW_SRC_SHIFT) as bv8))
    }

    function GetNwDst(): (r: (Option<bv32>, bv8))
      ensures r.1 <= 32 && (r.0.None? <==> r.1 == 0)
    {
      if Has(wildcards, OFPFW_NW_DST_ALL) then (None, 0)
      else (Some(nwDst), 32 - (((wildcards & OFPFW_NW_DST_MASK) >> OFPFW_NW_DST_SHIFT) as bv8))
    }

    predicate IsWildcarded() {
      wildcards & OFPFW_ALL != 0
    }
  }

  /** __eq__. */
  predicate Same(a: Match, b: Match) {
    && a.wildcards == b.wildcards
    && a.InPort() == b.InPort() && a.DlSrc() == b.DlSrc() && a.DlDst() == b.DlDst()
    && a.DlVlan() == b.DlVlan() && a.DlVlanPcp() == b.DlVlanPcp() && a.DlType() == b.DlType()
    && a.NwTos() == b.NwTos() && a.NwProto() == b.NwProto()
    && a.NwSrc() == b.NwSrc() && a.NwDst() == b.NwDst()
    && a.TpSrc() == b.TpSrc() && a.TpDst() == b.TpDst()
  }

  /** Negation of match_fail. */
  predicate Agrees<T(==)>(mine: Option<T>, others: Option<T>) {
    mine.None? || mine == others
  }

  predicate NoMoreWildcards(mine: bv32, others: bv32) {
    var selfBits := mine & !(OFPFW_NW_SRC_MASK | OFPFW_NW_DST_MASK);
    var otherBits := others & !(OFPFW_NW_SRC_MASK | OFPFW_NW_DST_MASK);
    selfBits | otherBits == selfBits
  }

  predicate FieldsAgree(self: Match, other: Match) {
    && Agrees(self.InPort(), other.InPort()) && Agrees(self.DlVlan(), other.DlVlan())
    && Agrees(self.DlSrc(), other.DlSrc()) && Agrees(self.DlDst(), other.DlDst())
    && Agrees(self.DlType(), other.DlType()) && Agrees(self.NwProto(), other.NwProto())
    && Agrees(self.TpSrc(), other.TpSrc()) && Agrees(self.TpDst(), other.TpDst())
    && Agrees(self.DlVlanPcp(), other.DlVlanPcp()) && Agrees(self.NwTos(), other.NwTos())
  }

  predicate NetworksAgree(self: Match, other: Match) {
    WithinNetwork(self.GetNwSrc(), other.GetNwSrc()) && WithinNetwork(self.GetNwDst(), other.GetNwDst())
  }

  /** matches_with_wildcards: does self encompass other? */
  predicate Encompasses(self: Match, other: Match, considerOtherWildcards: bool) {
    || Same(self, other)
    || (&& (considerOtherWildcards ==> NoMoreWildcards(self.wildcards, other.wildcards))
        && FieldsAgree(self, other) && NetworksAgree(self, other))
  }

  // ---------------------------------------------------------------- the word bit by bit

  /** The bit that hides a field. */
  predicate Bit(wildcards: bv32, n: bv8)
    requires n < 32
  {
    (wildcards >> n) & 1 == 1
  }

  /** Which bit hides which field (OpenFlow Switch Specification 1.0.0, section 5.2.3). */
  lemma FieldBits(m: Match)
    ensures m.InPort() == (if Bit(m.wildcards, 0) then None else Some(m.inPort))
    ensures m.DlVlan() == (if Bit(m.wildcards, 1) then None else Some(m.dlVlan))
    ensures m.DlSrc() == (if Bit(m.wildcards, 2) then None else Some(m.dlSrc))
    ensures m.DlDst() == (if Bit(m.wildcards, 3) then None else Some(m.dlDst))
    ensures m.DlType() == (if Bit(m.wildcards, 4) then None else Some(m.dlType))
    ensures m.NwProto() == (if Bit(m.wildcards, 5) then None else Some(m.nwProto))
    ensures m.TpSrc() == (if Bit(m.wildcards, 6) then None else Some(m.tpSrc))
    ensures m.TpDst() == (if Bit(m.wildcards, 7) then None else Some(m.tpDst))
    ensures m.DlVlanPcp() == (if Bit(m.wildcards, 20) then None else Some(m.dlVlanPcp))
    ensures m.NwTos() == (if Bit(m.wildcards, 21) then None else Some(m.nwTos))
  {
  }

  /** The six bits from n on. */
  function Count(wildcards: bv32, n: bv8): bv32
    requires n < 32
  {
    (wildcards >> n) & 63
  }

  /** A count of ignored address bits of 32 or more hides the address; a smaller one leaves the others. */
  lemma AddressCounts(m: Match)
    ensures m.GetNwSrc() ==
      if Count(m.wildcards, 8) >= 32 then (None, 0) else (Some(m.nwSrc), 32 - (Count(m.wildcards, 8) as bv8))
    ensures m.GetNwDst() ==
      if Count(m.wildcards, 14) >= 32 then (None, 0) else (Some(m.nwDst), 32 - (Count(m.wildcards, 14) as bv8))
  {
  }

  // ---------------------------------------------------------------- what a match shows

  /** Everything a match lets a caller see. */
  datatype View = View(
    wildcards: bv32, inPort: Option<bv16>, dlSrc: Option<Eth>, dlDst: Option<Eth>, dlVlan: Option<bv16>,
    dlVlanPcp: Option<bv8>, dlType: Option<bv16>, nwTos: Option<bv8>, nwProto: Option<bv8>,
    src: Option<Net>, dst: Option<Net>, tpSrc: Option<bv16>, tpDst: Option<bv16>)

  function Observed(m: Match): View {
    View(m.wildcards, m.InPort(), m.DlSrc(), m.DlDst(), m.DlVlan(), m.DlVlanPcp(), m.DlType(), m.NwTos(),
         m.NwProto(), NetOf(m.GetNwSrc()), NetOf(m.GetNwDst()), m.TpSrc(), m.TpDst())
  }

  predicate ViewsAgree(a: View, b: View) {
    && Agrees(a.inPort, b.inPort) && Agrees(a.dlVlan, b.dlVlan) && Agrees(a.dlSrc, b.dlSrc)
    && Agrees(a.dlDst, b.dlDst) && Agrees(a.dlType, b.dlType) && Agrees(a.nwProto, b.nwProto)
    && Agrees(a.tpSrc, b.tpSrc) && Agrees(a.tpDst, b.tpDst) && Agrees(a.dlVlanPcp, b.dlVlanPcp)
    && Agrees(a.nwTos, b.nwTos)
  }

  predicate Wider(a: View, b: View, considerOtherWildcards: bool) {
    || a == b
    || (&& (considerOtherWildcards ==> NoMoreWildcards(a.wildcards, b.wildcards))
        && ViewsAgree(a, b) && Contains(a.src, b.src) && Contains(a.dst, b.dst))
  }

  lemma SameNets(a: Match, b: Match)
    requires a.wildcards == b.wildcards
    ensures a.NwSrc() == b.NwSrc() <==> NetOf(a.GetNwSrc()) == NetOf(b.GetNwSrc())
    ensures a.NwDst() == b.NwDst() <==> NetOf(a.GetNwDst()) == NetOf(b.GetNwDst())
  {
    AttributeOfNet(a);
    AttributeOfNet(b);
    SameNet(a.NwSrc(), b.NwSrc(), a.GetNwSrc().1);
    SameNet(a.NwDst(), b.NwDst(), a.GetNwDst().1);
  }

  lemma AttributeOfNet(m: Match)
    ensures m.GetNwSrc() == (m.NwSrc(), m.GetNwSrc().1) && m.GetNwDst() == (m.NwDst(), m.GetNwDst().1)
  {
  }

  /** Equality is equality of what shows: hidden values of wildcarded fields do not count. */
  lemma SameIsSameView(a: Match, b: Match)
    ensures Same(a, b) <==> Observed(a) == Observed(b)
  {
    if a.wildcards == b.wildcards {
      SameNets(a, b);
    }
  }

  lemma FieldsAgreeInView(a: Match, b: Match)
    ensures FieldsAgree(a, b) <==> ViewsAgree(Observed(a), Observed(b))
  {
  }

  /** Encompassing, too, depends only on what shows, so it treats equal matches alike. */
  lemma EncompassesInView(a: Match, b: Match, consider: bool)
    ensures Encompasses(a, b, consider) <==> Wider(Observed(a), Observed(b), consider)
  {
    SameIsSameView(a, b);
    FieldsAgreeInView(a, b);
    WithinIsContains(a.GetNwSrc(), b.GetNwSrc());
    WithinIsContains(a.GetNwDst(), b.GetNwDst());
  }

  // ---------------------------------------------------------------- attribute by attribute

  /** Each attribute of the match is None or as in the other; each address leads to the other's. */
  predicate Covers(m: Match, p: Match) {
    FieldsCover(m, p) && LeadsTo(m.GetNwSrc(), p.GetNwSrc()) && LeadsTo(m.GetNwDst(), p.GetNwDst())
  }

  predicate FieldsCover(m: Match, p: Match) {
    && (m.InPort() == None || m.InPort() == p.InPort())
    && (m.DlSrc() == None || m.DlSrc() == p.DlSrc()) && (m.DlDst() == None || m.DlDst() == p.DlDst())
    && (m.DlVlan() == None || m.DlVlan() == p.DlVlan())
    && (m.DlVlanPcp() == None || m.DlVlanPcp() == p.DlVlanPcp())
    && (m.DlType() == None || m.DlType() == p.DlType())
    && (m.NwTos() == None || m.NwTos() == p.NwTos()) && (m.NwProto() == None || m.NwProto() == p.NwProto())
    && (m.TpSrc() == None || m.TpSrc() == p.TpSrc()) && (m.TpDst() == None || m.TpDst() == p.TpDst())
  }

  predicate ViewCovers(a: View, b: View) {
    && (a.inPort == None || a.inPort == b.inPort)
    && (a.dlSrc == None || a.dlSrc == b.dlSrc) && (a.dlDst == None || a.dlDst == b.dlDst)
    && (a.dlVlan == None || a.dlVlan == b.dlVlan) && (a.dlVlanPcp == None || a.dlVlanPcp == b.dlVlanPcp)
    && (a.dlType == None || a.dlType == b.dlType)
    && (a.nwTos == None || a.nwTos == b.nwTos) && (a.nwProto == None || a.nwProto == b.nwProto)
    && (a.tpSrc == None || a.tpSrc == b.tpSrc) && (a.tpDst == None || a.tpDst == b.tpDst)
  }

  lemma ViewCoversIfAgrees(a: View, b: View)
    ensures ViewCovers(a, b) <==> ViewsAgree(a, b)
  {
  }

  lemma FieldsCoverInView(m: Match, p: Match)
    ensures FieldsCover(m, p) <==> ViewCovers(Observed(m), Observed(p))
  {
  }

  lemma FieldsCoverIfAgree(m: Match, p: Match)
    ensures FieldsCover(m, p) <==> FieldsAgree(m, p)
  {
    FieldsCoverInView(m, p);
    ViewCoversIfAgrees(Observed(m), Observed(p));
    FieldsAgreeInView(m, p);
  }

  lemma FieldsAndNetworksCover(m: Match, p: Match)
    ensures Covers(m, p) <==> FieldsAgree(m, p) && NetworksAgree(m, p)
  {
    FieldsCoverIfAgree(m, p);
    WithinByBits(m.GetNwSrc(), p.GetNwSrc());
    WithinByBits(m.GetNwDst(), p.GetNwDst());
  }

  /** Each address shows in full or not at all, as in what a packet gives. */
  predicate WholeAddresses(p: Match) {
    && (p.GetNwSrc().1 == 32 || p.GetNwSrc() == (None, 0)) && (p.GetNwDst().1 == 32 || p.GetNwDst() == (None, 0))
  }

  lemma SameCovers(m: Match, p: Match)
    requires Same(m, p) && WholeAddresses(p)
    ensures Covers(m, p)
  {
    AttributeOfNet(m);
    AttributeOfNet(p);
    SameNets(m, p);
    WholeAddressLeadsToItself(p.GetNwSrc());
    WholeAddressLeadsToItself(p.GetNwDst());
  }

  /** Which packets a match takes. */
  lemma TakesPacket(m: Match, p: Match)
    requires WholeAddresses(p)
    ensures Encompasses(m, p, false) <==> Covers(m, p)
  {
    FieldsAndNetworksCover(m, p);
    if Same(m, p) {
      SameCovers(m, p);
    }
  }

  /** What agreement on the attributes says of the wildcards. */
  lemma AgreeingWildcards(mine: bv32, others: bv32)
    requires Has(others, OFPFW_IN_PORT) ==> Has(mine, OFPFW_IN_PORT)
    requires Has(others, OFPFW_DL_VLAN) ==> Has(mine, OFPFW_DL_VLAN)
    requires Has(others, OFPFW_DL_SRC) ==> Has(mine, OFPFW_DL_SRC)
    requires Has(others, OFPFW_DL_DST) ==> Has(mine, OFPFW_DL_DST)
    requires Has(others, OFPFW_DL_TYPE) ==> Has(mine, OFPFW_DL_TYPE)
    requires Has(others, OFPFW_NW_PROTO) ==> Has(mine, OFPFW_NW_PROTO)
    requires Has(others, OFPFW_TP_SRC) ==> Has(mine, OFPFW_TP_SRC)
    requires Has(others, OFPFW_TP_DST) ==> Has(mine, OFPFW_TP_DST)
    requires Has(others, OFPFW_DL_VLAN_PCP) ==> Has(mine, OFPFW_DL_VLAN_PCP)
    requires Has(others, OFPFW_NW_TOS) ==> Has(mine, OFPFW_NW_TOS)
    ensures NoMoreWildcards(mine, others) <==> others & !mine & 0xffc0_0000 == 0
  {
  }

  lemma FieldsAgreeOnWildcards(m: Match, p: Match)
    requires FieldsAgree(m, p)
    ensures NoMoreWildcards(m.wildcards, p.wildcards) <==> p.wildcards & !m.wildcards & 0xffc0_0000 == 0
  {
    AgreeingWildcards(m.wildcards, p.wildcards);
  }

  /** Which matches a match encompasses.  Considering the other's wildcards makes a difference only
      for bits that stand for no field. */
  lemma EncompassesByAttributes(m: Match, p: Match, consider: bool)
    ensures Encompasses(m, p, consider) <==>
      Same(m, p) || (Covers(m, p) && (consider ==> p.wildcards & !m.wildcards & 0xffc0_0000 == 0))
  {
    FieldsAndNetworksCover(m, p);
    if FieldsAgree(m, p) {
      FieldsAgreeOnWildcards(m, p);
    }
  }

  // ---------------------------------------------------------------- laws

  lemma WildcardsAreTransitive(a: bv32, b: bv32, c: bv32)
    requires NoMoreWildcards(a, b) && NoMoreWildcards(b, c)
    ensures NoMoreWildcards(a, c)
  {
  }

  lemma WiderIsTransitive(a: View, b: View, c: View, consider: bool)
    requires Wider(a, b, true) && Wider(b, c, consider)
    ensures Wider(a, c, consider)
  {
    if a != b && b != c {
      ContainsIsTransitive(a.src, b.src, c.src);
      ContainsIsTransitive(a.dst, b.dst, c.dst);
      if consider {
        WildcardsAreTransitive(a.wildcards, b.wildcards, c.wildcards);
      }
    }
  }

  lemma EncompassesIsReflexive(a: Match, consider: bool)
    ensures Encompasses(a, a, consider)
  {
  }

  /** Encompassing is transitive.  And it is sound: with consider false and c a packet's exact
      match, a match that encompasses b matches every packet b matches. */
  lemma EncompassesIsTransitive(a: Match, b: Match, c: Match, consider: bool)
    requires Encompasses(a, b, true) && Encompasses(b, c, consider)
    ensures Encompasses(a, c, consider)
  {
    EncompassesInView(a, b, true);
    EncompassesInView(b, c, consider);
    EncompassesInView(a, c, consider);
    WiderIsTransitive(Observed(a), Observed(b), Observed(c), consider);
  }
}
