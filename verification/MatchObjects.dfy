/** ofp_match as the object it is: fields that setters, fix and unpack change in place. */
module MatchObjects {
  import opened Wrappers
  import opened WildcardBits
  import opened OfpMatch
  import opened WireBytes
  import MatchCodec

  /** _make_addr keeps the number of bits between 0 and 32. */
  function Clamped(bits: int): (r: bv8)
    ensures r as int == if bits <= 0 then 0 else if bits >= 32 then 32 else bits
  {
    if bits > 32 then 32 else if bits < 0 then 0 else bits as bv8
  }

  function Rest(raw: Bytes, offset: nat): Bytes {
    if offset <= |raw| then raw[offset..] else []
  }

  /** The fields that unpack has assigned when it runs out of bytes: whole groups of fields, in
      their order.  The wildcards are assigned last. */
  function Assigned(m: Match, s: Bytes): Match {
    m.(inPort := if |s| >= 6 then Get16(s[4..6]) else m.inPort,
       dlSrc := if |s| >= 12 then MatchCodec.GetEth(s[6..12]) else m.dlSrc,
       dlDst := if |s| >= 18 then MatchCodec.GetEth(s[12..18]) else m.dlDst,
       dlVlan := if |s| >= 21 then Get16(s[18..20]) else m.dlVlan,
       dlVlanPcp := if |s| >= 21 then s[20] else m.dlVlanPcp,
       dlType := if |s| >= 26 then Get16(s[22..24]) else m.dlType,
       nwTos := if |s| >= 26 then s[24] else m.nwTos,
       nwProto := if |s| >= 26 then s[25] else m.nwProto,
       nwSrc := if |s| >= 32 then Get32(s[28..32]) else m.nwSrc,
       nwDst := if |s| >= 36 then Get32(s[32..36]) else m.nwDst,
       tpSrc := if |s| >= 40 then Get16(s[36..38]) else m.tpSrc,
       tpDst := if |s| >= 40 then Get16(s[38..40]) else m.tpDst)
  }

  lemma PrefixParts(s: Bytes, n: nat, from: nat, to: nat)
    requires from <= to <= n <= |s|
    ensures s[..n][from..to] == s[from..to]
  {
  }

  lemma SuffixParts(s: Bytes, n: nat, from: nat, to: nat)
    requires from <= to && n + to <= |s|
    ensures s[n..][from..to] == s[n + from..n + to]
  {
  }

  lemma AssignedEnough(m: Match, s: Bytes)
    requires |s| >= 40
    ensures Assigned(m, s) == Assigned(m, s[..40]) && s[..40][0..4] == s[0..4]
  {
    PrefixParts(s, 40, 0, 4);
    PrefixParts(s, 40, 4, 6);
    PrefixParts(s, 40, 6, 12);
    PrefixParts(s, 40, 12, 18);
    PrefixParts(s, 40, 18, 20);
    PrefixParts(s, 40, 22, 24);
    PrefixParts(s, 40, 28, 32);
    PrefixParts(s, 40, 32, 36);
    PrefixParts(s, 40, 36, 38);
    PrefixParts(s, 40, 38, 40);
  }

  lemma LinkSlices(s: Bytes)
    requires |s| == 40
    ensures var l := s[..20];
      && l[0..4] == s[0..4] && l[4..6] == s[4..6] && l[6..12] == s[6..12] && l[12..18] == s[12..18]
      && l[18..20] == s[18..20]
  {
    PrefixParts(s, 20, 0, 4);
    PrefixParts(s, 20, 4, 6);
    PrefixParts(s, 20, 6, 12);
    PrefixParts(s, 20, 12, 18);
    PrefixParts(s, 20, 18, 20);
  }

  lemma NetworkSlices(s: Bytes)
    requires |s| == 40
    ensures var n := s[20..];
      && n[2..4] == s[22..24] && n[8..12] == s[28..32] && n[12..16] == s[32..36]
      && n[16..18] == s[36..38] && n[18..20] == s[38..40]
  {
    SuffixParts(s, 20, 2, 4);
    SuffixParts(s, 20, 8, 12);
    SuffixParts(s, 20, 12, 16);
    SuffixParts(s, 20, 16, 18);
    SuffixParts(s, 20, 18, 20);
  }

  lemma AllAssigned(m: Match, s: Bytes)
    requires |s| == 40
    ensures Assigned(m, s).(wildcards := Get32(s[0..4])) == MatchCodec.Parse(s)
  {
    LinkSlices(s);
    NetworkSlices(s);
  }

  /** Something in every field else than what these bytes hold, and nothing wildcarded. */
  function Contrary(s: Bytes): Match
    requires |s| >= 6
  {
    Match(0, !Get16(s[4..6]), MatchCodec.NO_ETH, MatchCodec.NO_ETH, 0, 0, 0, 0, 0, 0, 0, 0, 0)
  }

  lemma ContraryShows(s: Bytes)
    requires |s| >= 6
    ensures !Same(Assigned(Contrary(s), s), Contrary(s))
  {
    assert Contrary(s).InPort() == Some(!Get16(s[4..6]));
    assert Assigned(Contrary(s), s).InPort() == Some(Get16(s[4..6]));
  }

  /** A failed unpack leaves every match alone exactly if it failed on the first group of fields. */
  lemma FailedUnpackShows(s: Bytes)
    requires |s| < 40
    ensures (forall m :: Same(Assigned(m, s), m)) <==> |s| < 6
  {
    if |s| >= 6 {
      ContraryShows(s);
    }
  }

  // ---------------------------------------------------------------- fields and their wildcard bits

  /** A field other than the network addresses, and what it is to hold; None wildcards it. */
  datatype Setting =
    | InPort(port: Option<bv16>) | DlSrc(address: Option<Eth>) | DlDst(address: Option<Eth>) | DlVlan(id: Option<bv16>)
    | DlVlanPcp(pcp: Option<bv8>) | DlType(typ: Option<bv16>) | NwTos(tos: Option<bv8>) | NwProto(proto: Option<bv8>)
    | TpSrc(port: Option<bv16>) | TpDst(port: Option<bv16>)
  {
    function Flag(): bv32 {
      match this
      case InPort(_) => OFPFW_IN_PORT
      case DlSrc(_) => OFPFW_DL_SRC
      case DlDst(_) => OFPFW_DL_DST
      case DlVlan(_) => OFPFW_DL_VLAN
      case DlVlanPcp(_) => OFPFW_DL_VLAN_PCP
      case DlType(_) => OFPFW_DL_TYPE
      case NwTos(_) => OFPFW_NW_TOS
      case NwProto(_) => OFPFW_NW_PROTO
      case TpSrc(_) => OFPFW_TP_SRC
      case TpDst(_) => OFPFW_TP_DST
    }

    predicate Wildcards() {
      match this
      case DlSrc(address) => address.None?
      case DlDst(address) => address.None?
      case DlVlan(id) => id.None?
      case DlVlanPcp(pcp) => pcp.None?
      case DlType(typ) => typ.None?
      case NwTos(tos) => tos.None?
      case NwProto(proto) => proto.None?
      case _ => port.None?
    }
  }

  function Or<T>(value: Option<T>, default: T): T {
    if value.Some? then value.value else default
  }

  /** The match with the value stored, or the default where there is none. */
  function Stored(m: Match, s: Setting): Match {
    match s
    case InPort(x) => m.(inPort := Or(x, 0))
    case DlSrc(x) => m.(dlSrc := Or(x, MatchCodec.NO_ETH))
    case DlDst(x) => m.(dlDst := Or(x, MatchCodec.NO_ETH))
    case DlVlan(x) => m.(dlVlan := Or(x, 0))
    case DlVlanPcp(x) => m.(dlVlanPcp := Or(x, 0))
    case DlType(x) => m.(dlType := Or(x, 0))
    case NwTos(x) => m.(nwTos := Or(x, 0))
    case NwProto(x) => m.(nwProto := Or(x, 0))
    case TpSrc(x) => m.(tpSrc := Or(x, 0))
    case TpDst(x) => m.(tpDst := Or(x, 0))
  }

  /** The match set: the field holds the value, and its wildcard bits are set for None and clear
      otherwise. */
  function With(m: Match, s: Setting): Match {
    Stored(m, s).(wildcards := SetTo(m.wildcards, s.Flag(), s.Wildcards()))
  }

  /** What the field of a setting shows. */
  function Shown(m: Match, s: Setting): Setting {
    match s
    case InPort(_) => InPort(m.InPort())
    case DlSrc(_) => DlSrc(m.DlSrc())
    case DlDst(_) => DlDst(m.DlDst())
    case DlVlan(_) => DlVlan(m.DlVlan())
    case DlVlanPcp(_) => DlVlanPcp(m.DlVlanPcp())
    case DlType(_) => DlType(m.DlType())
    case NwTos(_) => NwTos(m.NwTos())
    case NwProto(_) => NwProto(m.NwProto())
    case TpSrc(_) => TpSrc(m.TpSrc())
    case TpDst(_) => TpDst(m.TpDst())
  }

  lemma FlagIsSome(s: Setting)
    ensures s.Flag() != 0
  {
  }

  lemma FlagSet(m: Match, s: Setting)
    ensures Has(With(m, s).wildcards, s.Flag()) <==> s.Wildcards()
  {
    FlagIsSome(s);
    FlagSetTo(m.wildcards, s.Flag(), s.Wildcards());
  }

  /** The field shows what it was set to, None included. */
  lemma SettingShows(m: Match, s: Setting)
    ensures Shown(With(m, s), s) == s
  {
    FlagSet(m, s);
  }

  lemma FlagsApart(s: Setting, t: Setting)
    requires s.Flag() != t.Flag()
    ensures s.Flag() & t.Flag() == 0 && s.Flag() & (OFPFW_NW_SRC_MASK | OFPFW_NW_DST_MASK) == 0
  {
  }

  /** What the field of a setting holds, wildcarded or not. */
  function Held(m: Match, s: Setting): Setting {
    match s
    case InPort(_) => InPort(Some(m.inPort))
    case DlSrc(_) => DlSrc(Some(m.dlSrc))
    case DlDst(_) => DlDst(Some(m.dlDst))
    case DlVlan(_) => DlVlan(Some(m.dlVlan))
    case DlVlanPcp(_) => DlVlanPcp(Some(m.dlVlanPcp))
    case DlType(_) => DlType(Some(m.dlType))
    case NwTos(_) => NwTos(Some(m.nwTos))
    case NwProto(_) => NwProto(Some(m.nwProto))
    case TpSrc(_) => TpSrc(Some(m.tpSrc))
    case TpDst(_) => TpDst(Some(m.tpDst))
  }

  lemma OthersStored(m: Match, s: Setting, t: Setting)
    requires s.Flag() != t.Flag()
    ensures Held(With(m, s), t) == Held(m, t)
  {
  }

  lemma ShownIfHas(m: Match, n: Match, t: Setting)
    requires Held(m, t) == Held(n, t) && (Has(m.wildcards, t.Flag()) <==> Has(n.wildcards, t.Flag()))
    ensures Shown(m, t) == Shown(n, t)
  {
  }

  lemma OtherFlagsStay(wildcards: bv32, s: Setting, on: bool, t: Setting)
    requires s.Flag() != t.Flag()
    ensures Has(SetTo(wildcards, s.Flag(), on), t.Flag()) <==> Has(wildcards, t.Flag())
  {
    FlagsApart(s, t);
    FlagElsewhere(wildcards, s.Flag(), on, t.Flag());
  }

  /** No other field changes what it shows. */
  lemma OthersShowAsBefore(m: Match, s: Setting, t: Setting)
    requires s.Flag() != t.Flag()
    ensures Shown(With(m, s), t) == Shown(m, t)
  {
    OtherFlagsStay(m.wildcards, s, s.Wildcards(), t);
    OthersStored(m, s, t);
    ShownIfHas(With(m, s), m, t);
  }

  class MatchObject {
    /** The fields, wildcards included. */
    var m: Match

    /** __init__ without arguments: everything is wildcarded. */
    constructor ()
      ensures m.wildcards == Normalized(OFPFW_ALL) && Normalized(m.wildcards) == m.wildcards
      ensures m == Match(0x38_20ff, 0, MatchCodec.NO_ETH, MatchCodec.NO_ETH, 0, 0, 0, 0, 0, 0, 0, 0, 0)
      ensures m.InPort() == None && m.DlSrc() == None && m.DlDst() == None && m.DlVlan() == None
      ensures m.DlVlanPcp() == None && m.DlType() == None && m.NwTos() == None && m.NwProto() == None
      ensures m.GetNwSrc() == (None, 0) && m.GetNwDst() == (None, 0) && m.TpSrc() == None && m.TpDst() == None
    {
      m := Match(Normalized(OFPFW_ALL), 0, MatchCodec.NO_ETH, MatchCodec.NO_ETH, 0, 0, 0, 0, 0, 0, 0, 0, 0);
    }

    /** __setattr__ for a field other than the network addresses. */
    method Set(s: Setting)
      modifies this
      ensures m == With(old(m), s) && Shown(m, s) == s
    {
      SettingShows(m, s);
      m := Stored(m, s);
      m := m.(wildcards := SetTo(m.wildcards, s.Flag(), s.Wildcards()));
    }

    method ClearNwSrc()
      modifies this
      ensures m == old(m).(nwSrc := 0, wildcards := NoSource(old(m).wildcards))
    {
      m := m.(nwSrc := 0);
      m := m.(wildcards := m.wildcards & !OFPFW_NW_SRC_MASK);
      m := m.(wildcards := m.wildcards | OFPFW_NW_SRC_ALL);
    }

    method ClearNwDst()
      modifies this
      ensures m == old(m).(nwDst := 0, wildcards := NoDestination(old(m).wildcards))
    {
      m := m.(nwDst := 0);
      m := m.(wildcards := m.wildcards & !OFPFW_NW_DST_MASK);
      m := m.(wildcards := m.wildcards | OFPFW_NW_DST_ALL);
    }

    /** set_nw_src: an address and its number of network bits, or None. */
    method SetNwSrc(value: Option<(bv32, int)>)
      modifies this
      ensures value.None? ==>
        m == old(m).(nwSrc := 0, wildcards := NoSource(old(m).wildcards)) && m.NwSrc() == None
      ensures value.Some? && value.value.1 > 0 ==> m.GetNwSrc() == (Some(value.value.0), Clamped(value.value.1))
      ensures value.Some? && value.value.1 <= 0 ==> m.NwSrc() == None
      ensures m == old(m).(nwSrc := m.nwSrc, wildcards := m.wildcards)
      ensures m.wildcards & !OFPFW_NW_SRC_MASK == old(m).wildcards & !OFPFW_NW_SRC_MASK
      ensures (m.wildcards & OFPFW_NW_SRC_MASK) >> OFPFW_NW_SRC_SHIFT <= 32
    {
      if value.None? {
        ClearNwSrc();
        return;
      }
      var bits := Clamped(value.value.1);
      m := m.(nwSrc := value.value.0);
      m := m.(wildcards := m.wildcards & !OFPFW_NW_SRC_MASK);
      m := m.(wildcards := m.wildcards | (((32 - bits) as bv32) << OFPFW_NW_SRC_SHIFT));
    }

    /** set_nw_dst. */
    method SetNwDst(value: Option<(bv32, int)>)
      modifies this
      ensures value.None? ==>
        m == old(m).(nwDst := 0, wildcards := NoDestination(old(m).wildcards)) && m.NwDst() == None
      ensures value.Some? && value.value.1 > 0 ==> m.GetNwDst() == (Some(value.value.0), Clamped(value.value.1))
      ensures value.Some? && value.value.1 <= 0 ==> m.NwDst() == None
      ensures m == old(m).(nwDst := m.nwDst, wildcards := m.wildcards)
      ensures m.wildcards & !OFPFW_NW_DST_MASK == old(m).wildcards & !OFPFW_NW_DST_MASK
      ensures (m.wildcards & OFPFW_NW_DST_MASK) >> OFPFW_NW_DST_SHIFT <= 32
    {
      if value.None? {
        ClearNwDst();
        return;
      }
      var bits := Clamped(value.value.1);
      m := m.(nwDst := value.value.0);
      m := m.(wildcards := m.wildcards & !OFPFW_NW_DST_MASK);
      m := m.(wildcards := m.wildcards | (((32 - bits) as bv32) << OFPFW_NW_DST_SHIFT));
    }

    /** fix: unmatchable fields are set to None one after the other. */
    method Fix()
      modifies this
      ensures m == MatchCodec.Fix(old(m)) && MatchCodec.ShowsWhatMatters(old(m), m)
    {
      MatchCodec.FixShows(m);
      var proto := m.NwProto();
      if m.DlType() == Some(MatchCodec.IP_TYPE) {
        if !(proto.Some? && MatchCodec.HasPorts(proto.value)) {
          DropPorts();
        }
      } else if m.DlType() == Some(MatchCodec.ARP_TYPE) {
        DropPortsAndTos();
      } else {
        DropNetwork();
      }
    }

    method DropPorts()
      modifies this
      ensures m == MatchCodec.WithoutPorts(old(m))
    {
      Set(TpSrc(None));
      Set(TpDst(None));
    }

    method DropPortsAndTos()
      modifies this
      ensures m == MatchCodec.WithoutPortsAndTos(old(m))
    {
      Set(TpSrc(None));
      Set(TpDst(None));
      Set(NwTos(None));
    }

    method DropAddresses()
      modifies this
      ensures m == MatchCodec.WithoutAddresses(old(m))
    {
      Set(NwTos(None));
      Set(NwProto(None));
      ClearNwSrc();
      ClearNwDst();
    }

    method DropNetwork()
      modifies this
      ensures m == MatchCodec.WithoutNetwork(old(m))
    {
      DropAddresses();
      DropPorts();
    }

    /** unpack, for a flow modification.  False: the buffer is too short, which shows only after the
        fields before its end were assigned. */
    method Unpack(raw: Bytes, offset: nat) returns (ok: bool)
      modifies this
      ensures ok <==> offset + 40 <= |raw|
      ensures ok ==> m == MatchCodec.Unpack(raw[offset..offset + 40])
      ensures !ok ==> m == Assigned(old(m), Rest(raw, offset))
    {
      var s := Rest(raw, offset);
      var wildcards;
      ok, wildcards := UnpackFields(s);
      if ok {
        AllAssigned(old(m), s[..40]);
        AssignedEnough(old(m), s);
        assert s[..40] == raw[offset..offset + 40];
        m := MatchCodec.Received(m.(wildcards := wildcards));
      }
    }

    method UnpackFields(s: Bytes) returns (ok: bool, wildcards: bv32)
      modifies this
      ensures ok <==> |s| >= 40
      ensures m == Assigned(old(m), s) && (ok ==> wildcards == Get32(s[0..4]))
    {
      ok, wildcards := UnpackLink(s);
      if ok {
        ok := UnpackNetwork(s);
      }
    }

    /** The fields up to the VLAN's. */
    method UnpackLink(s: Bytes) returns (ok: bool, wildcards: bv32)
      modifies this
      ensures ok <==> |s| >= 22
      ensures |s| < 26 ==> m == Assigned(old(m), s)
      ensures |s| >= 22 ==> m == Assigned(old(m), s[..22]) && wildcards == Get32(s[0..4])
    {
      ok, wildcards := false, 0;
      if |s| < 6 { return; }
      wildcards := Get32(s[0..4]);
      m := m.(inPort := Get16(s[4..6]));
      if |s| < 12 { return; }
      m := m.(dlSrc := MatchCodec.GetEth(s[6..12]));
      if |s| < 18 { return; }
      m := m.(dlDst := MatchCodec.GetEth(s[12..18]));
      if |s| < 21 { return; }
      m := m.(dlVlan := Get16(s[18..20]), dlVlanPcp := s[20]);
      ok := |s| >= 22;
      if ok {
        SameStart(s);
      }
    }

    /** The others. */
    method UnpackNetwork(s: Bytes) returns (ok: bool)
      requires |s| >= 22
      modifies this
      ensures ok <==> |s| >= 40
      ensures forall was: Match :: old(m) == Assigned(was, s[..22]) ==> m == Assigned(was, s)
    {
      SameStart(s);
      ok := false;
      if |s| < 26 { return; }
      m := m.(dlType := Get16(s[22..24]), nwTos := s[24], nwProto := s[25]);
      if |s| < 28 { return; }
      if |s| < 32 { return; }
      m := m.(nwSrc := Get32(s[28..32]));
      if |s| < 36 { return; }
      m := m.(nwDst := Get32(s[32..36]));
      if |s| < 40 { return; }
      m := m.(tpSrc := Get16(s[36..38]), tpDst := Get16(s[38..40]));
      ok := true;
    }
  }

  lemma SameStart(s: Bytes)
    requires |s| >= 22
    ensures s[..22][4..6] == s[4..6] && s[..22][6..12] == s[6..12] && s[..22][12..18] == s[12..18]
    ensures s[..22][18..20] == s[18..20] && s[..22][20] == s[20]
  {
  }
}
