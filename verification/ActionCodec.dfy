/** Actions on the wire (OpenFlow Switch Specification 1.0.0, section 5.2.4), one at a time and
    as the list at the end of a message. */
module ActionCodec {
  import opened OfpActions
  import opened WireBytes
  import opened ItemLists
  import OfpMatch
  import MatchCodec

  const OFPP_CONTROLLER: bv16 := 65533
  const OFPAT_ENQUEUE: Type := 11
  const OFPAT_VENDOR: Type := 65535

  /** The number an action's class was registered under; a generic action carries its own. */
  function TypeOf(a: Action): Type {
    match a
    case Output(_, _) => 0
    case SetVlanVid(_) => 1
    case SetVlanPcp(_) => 2
    case StripVlan => 3
    case SetDlSrc(_) => 4
    case SetDlDst(_) => 5
    case SetNwSrc(_) => 6
    case SetNwDst(_) => 7
    case SetNwTos(_) => 8
    case SetTpSrc(_) => 9
    case SetTpDst(_) => 10
    case Enqueue(_, _) => OFPAT_ENQUEUE
    case Vendor(_, _) => OFPAT_VENDOR
    case Generic(typ, _) => typ
  }

  predicate Known(typ: Type) {
    typ <= 11 || typ == OFPAT_VENDOR
  }

  /** What packing sends: an output to anything but the controller loses its max_len. */
  function Sent(a: Action): Action {
    match a
    case Output(port, maxLen) => Output(port, if port != OFPP_CONTROLLER then 0 else maxLen)
    case _ => a
  }

  /** Everything after the type and the length. */
  function Body(a: Action): Bytes {
    match a
    case Output(port, _) => Put16(port) + Put16(Sent(a).maxLen)
    case SetVlanVid(vid) => Put16(vid) + Zeros(2)
    case SetVlanPcp(pcp) => [pcp] + Zeros(3)
    case StripVlan => Zeros(4)
    case SetDlSrc(addr) => MatchCodec.PutEth(addr) + Zeros(6)
    case SetDlDst(addr) => MatchCodec.PutEth(addr) + Zeros(6)
    case SetNwSrc(addr) => Put32(addr)
    case SetNwDst(addr) => Put32(addr)
    case SetNwTos(tos) => [tos] + Zeros(3)
    case SetTpSrc(port) => Put16(port) + Zeros(2)
    case SetTpDst(port) => Put16(port) + Zeros(2)
    case Enqueue(port, queueId) => Put16(port) + Zeros(6) + Put32(queueId)
    case Vendor(vendor, body) => Put32(vendor) + body
    case Generic(_, data) => data
  }

  /** len(action). */
  function Size(a: Action): nat {
    match a
    case SetDlSrc(_) => 16
    case SetDlDst(_) => 16
    case Enqueue(_, _) => 16
    case Vendor(_, body) => 8 + |body|
    case Generic(_, data) => 4 + |data|
    case _ => 8
  }

  /** A generic action stands for a type no class is registered for, and a length fits its field. */
  predicate WellFormed(a: Action) {
    (a.Generic? ==> !Known(a.typ)) && Size(a) < 0x1_0000
  }

  function PackAction(a: Action): Bytes
    requires Size(a) < 0x1_0000
  {
    PutShort(TypeOf(a)) + PutShort(Size(a)) + Body(a)
  }

  lemma BodyFits(a: Action)
    ensures |Body(a)| == Size(a) - 4
  {
  }

  /** The bytes after type and length that the class for a type reads, for classes of fixed size. */
  function FixedBody(typ: Type): nat {
    if typ == 4 || typ == 5 || typ == OFPAT_ENQUEUE then 12 else 4
  }

  function ReadFixed(typ: Type, body: Bytes): Action
    requires typ <= 11 && |body| == FixedBody(typ)
  {
    if typ == 0 then Output(Get16(body[0..2]), Get16(body[2..4]))
    else if typ == 1 then SetVlanVid(Get16(body[0..2]))
    else if typ == 2 then SetVlanPcp(body[0])
    else if typ == 3 then StripVlan
    else if typ == 4 then SetDlSrc(MatchCodec.GetEth(body[0..6]))
    else if typ == 5 then SetDlDst(MatchCodec.GetEth(body[0..6]))
    else if typ == 6 then SetNwSrc(Get32(body))
    else if typ == 7 then SetNwDst(Get32(body))
    else if typ == 8 then SetNwTos(body[0])
    else if typ == 9 then SetTpSrc(Get16(body[0..2]))
    else if typ == 10 then SetTpDst(Get16(body[0..2]))
    else Enqueue(Get16(body[0..2]), Get32(body[8..12]))
  }

  /** The unpack of the class for this type, on the slice of the action, and the check of its
      length.  An action that parses is as long as its slice, so the list parser always moves on. */
  function ParseAction(typ: Type, slice: Bytes): (r: Outcome<Action>)
    ensures r.Done? ==> 4 <= Size(r.value) == |slice|
  {
    if |slice| < 4 then Raised(Underrun)
    else
      var body := slice[4..];
      if typ == OFPAT_VENDOR then
        if |body| < 4 then Raised(Underrun) else Done(Vendor(Get32(body[0..4]), body[4..]))
      else if typ <= 11 then
        if |body| < FixedBody(typ) then Raised(Underrun)
        else if |body| > FixedBody(typ) then Raised(AssertionFailed)
        else Done(ReadFixed(typ, body))
      else Done(Generic(typ, body))
  }

  lemma OutputComesBack(a: Action)
    requires a.Output?
    ensures |Body(a)| == 4 && ReadFixed(0, Body(a)) == Sent(a)
  {
    var port, maxLen := Put16(a.port), Put16(Sent(a).maxLen);
    assert Body(a) == port + maxLen && Body(a)[0..2] == port && Body(a)[2..4] == maxLen;
    GetPut16(a.port);
    GetPut16(Sent(a).maxLen);
  }

  lemma PortComesBack(port: bv16)
    ensures Get16((Put16(port) + Zeros(2))[0..2]) == port
  {
    assert (Put16(port) + Zeros(2))[0..2] == Put16(port);
    GetPut16(port);
  }

  lemma EthComesBack(addr: OfpMatch.Eth)
    ensures MatchCodec.GetEth((MatchCodec.PutEth(addr) + Zeros(6))[0..6]) == addr
  {
    assert (MatchCodec.PutEth(addr) + Zeros(6))[0..6] == MatchCodec.PutEth(addr);
  }

  lemma EnqueueComesBack(port: bv16, queueId: bv32)
    ensures ReadFixed(OFPAT_ENQUEUE, Body(Enqueue(port, queueId))) == Enqueue(port, queueId)
  {
    var b := Body(Enqueue(port, queueId));
    assert b[0..2] == Put16(port) && b[8..12] == Put32(queueId);
    GetPut16(port);
    GetPut32(queueId);
  }

  predicate BodyComesBack(a: Action) {
    TypeOf(a) <= 11 && |Body(a)| == FixedBody(TypeOf(a)) && ReadFixed(TypeOf(a), Body(a)) == Sent(a)
  }

  lemma AddressComesBack(a: Action)
    requires a.SetDlSrc? || a.SetDlDst? || a.SetNwSrc? || a.SetNwDst?
    ensures BodyComesBack(a)
  {
    match a
    case SetDlSrc(addr) => EthComesBack(addr);
    case SetDlDst(addr) => EthComesBack(addr);
    case SetNwSrc(addr) => GetPut32(addr);
    case SetNwDst(addr) => GetPut32(addr);
  }

  lemma SmallFieldComesBack(a: Action)
    requires a.SetVlanVid? || a.SetVlanPcp? || a.StripVlan? || a.SetNwTos? || a.SetTpSrc? || a.SetTpDst?
    ensures BodyComesBack(a)
  {
    match a
    case SetVlanVid(vid) => PortComesBack(vid);
    case SetTpSrc(port) => PortComesBack(port);
    case SetTpDst(port) => PortComesBack(port);
    case _ =>
  }

  lemma FixedComesBack(a: Action)
    requires !a.Vendor? && !a.Generic?
    ensures BodyComesBack(a)
  {
    if a.Output? {
      OutputComesBack(a);
    } else if a.Enqueue? {
      EnqueueComesBack(a.port, a.queueId);
    } else if a.SetDlSrc? || a.SetDlDst? || a.SetNwSrc? || a.SetNwDst? {
      AddressComesBack(a);
    } else {
      SmallFieldComesBack(a);
    }
  }

  /** One action's round trip. */
  lemma ActionComesBack(a: Action)
    requires WellFormed(a)
    ensures |PackAction(a)| == Size(a) && ParseAction(TypeOf(a), PackAction(a)) == Done(Sent(a))
  {
    BodyFits(a);
    assert PackAction(a)[4..] == Body(a);
    if a.Vendor? {
      VendorComesBack(a);
    } else if !a.Generic? {
      FixedComesBack(a);
    }
  }

  /** A generic action comes back exactly if no class is registered for its type. */
  lemma GenericComesBack(typ: Type, data: Bytes)
    requires 4 + |data| < 0x1_0000
    ensures ParseAction(typ, PackAction(Generic(typ, data))) == Done(Generic(typ, data)) <==> typ > 11 && typ != 65535
  {
    assert PackAction(Generic(typ, data))[4..] == data;
  }

  lemma VendorComesBack(a: Action)
    requires a.Vendor?
    ensures |Body(a)| >= 4 && Get32(Body(a)[0..4]) == a.vendor && Body(a)[4..] == a.body
  {
    assert Body(a)[0..4] == Put32(a.vendor);
    GetPut32(a.vendor);
  }

  // ---------------------------------------------------------------- lists of actions

  function TotalSize(actions: seq<Action>): nat {
    Total(Size, actions)
  }

  predicate AllWellFormed(actions: seq<Action>) {
    forall i :: 0 <= i < |actions| ==> WellFormed(actions[i])
  }

  function PackActions(actions: seq<Action>): Bytes
    requires AllWellFormed(actions)
  {
    Packed(PackAction, actions)
  }

  function AllSent(actions: seq<Action>): seq<Action> {
    Each(Sent, actions)
  }

  /** The type and the bytes of what stands at offset. */
  function Slice(b: Bytes, offset: nat, typ: Type, length: nat): (r: Outcome<(Type, Bytes)>)
    requires offset <= |b|
    ensures r.Done? ==> |r.value.1| <= |b| - offset
  {
    if |b| - offset < length then Raised(Underrun) else Done((typ, b[offset..offset + length]))
  }

  function SliceAt(b: Bytes, offset: nat): (r: Outcome<(Type, Bytes)>)
    ensures r.Done? ==> |r.value.1| <= |b| - offset
  {
    if |b| - offset < 4 then Raised(StructError)
    else Slice(b, offset, GetShort(b[offset..offset + 2]), GetShort(b[offset + 2..offset + 4]))
  }

  /** The action that stands at offset. */
  function ActionAt(b: Bytes, offset: nat): (r: Outcome<Action>)
    ensures r.Done? ==> 4 <= Size(r.value) <= |b| - offset
  {
    match SliceAt(b, offset)
    case Raised(e) => Raised(e)
    case Done(found) => ParseAction(found.0, found.1)
  }

  function Reader(b: Bytes): (at: nat -> Outcome<Action>)
    ensures Advances(at, Size)
  {
    (offset: nat) => ActionAt(b, offset)
  }

  function ParseActions(b: Bytes, length: int, offset: nat): Outcome<(nat, seq<Action>)> {
    if |b| - offset < length then Raised(Underrun) else ItemsFrom(Reader(b), Size, offset, length + offset)
  }

  /** _unpack_actions: it always terminates, with what ParseActions says. */
  method UnpackActions(b: Bytes, length: int, start: nat) returns (r: Outcome<(nat, seq<Action>)>)
    ensures r == ParseActions(b, length, start)
  {
    if |b| - start < length {
      return Raised(Underrun);
    }
    r := ReadItems(Reader(b), Size, start, length + start);
  }

  lemma ShortsStay(b: Bytes, more: Bytes, o: nat)
    requires o + 4 <= |b|
    ensures (b + more)[o..o + 2] == b[o..o + 2] && (b + more)[o + 2..o + 4] == b[o + 2..o + 4]
  {
    SliceOfFirst(b, more, o, o + 2);
    SliceOfFirst(b, more, o + 2, o + 4);
  }

  lemma SameSlice(b: Bytes, more: Bytes, o: nat, typ: Type, length: nat)
    requires o <= |b|
    ensures var r := Slice(b, o, typ, length); r.Done? ==> Slice(b + more, o, typ, length) == r
    ensures var r := Slice(b + more, o, typ, length);
      r.Done? && o + |r.value.1| <= |b| ==> Slice(b, o, typ, length) == r
  {
    if o + length <= |b| {
      SliceOfFirst(b, more, o, o + length);
    }
  }

  lemma SliceStays(b: Bytes, more: Bytes, o: nat)
    requires o + 4 <= |b|
    ensures var r := SliceAt(b, o); r.Done? ==> SliceAt(b + more, o) == r
    ensures var r := SliceAt(b + more, o); r.Done? && o + |r.value.1| <= |b| ==> SliceAt(b, o) == r
  {
    ShortsStay(b, more, o);
    SameSlice(b, more, o, GetShort(b[o..o + 2]), GetShort(b[o + 2..o + 4]));
  }

  lemma ActionStays(b: Bytes, more: Bytes, o: nat)
    ensures ActionAt(b, o).Done? ==> ActionAt(b + more, o) == ActionAt(b, o)
    ensures var r := ActionAt(b + more, o);
      r.Done? && o + Size(r.value) <= |b| ==> ActionAt(b, o) == r
  {
    if o + 4 <= |b| {
      SliceStays(b, more, o);
    }
  }

  predicate Fills(r: Outcome<(nat, seq<Action>)>, end: nat) {
    r.Done? && r.value.0 == end
  }

  lemma ReadersAgree(b: Bytes, more: Bytes, end: nat)
    requires end <= |b|
    ensures FindsAsMuch(Reader(b), Reader(b + more), Size, end)
    ensures FindsAsMuch(Reader(b + more), Reader(b), Size, end)
  {
    forall i: nat
      ensures var r := ActionAt(b, i); r.Done? ==> ActionAt(b + more, i) == r
      ensures var r := ActionAt(b + more, i); r.Done? && i + Size(r.value) <= end ==> ActionAt(b, i) == r
    {
      ActionStays(b, more, i);
    }
  }

  /** A list of actions that fills its space is read alike whatever follows that space. */
  lemma ActionsStay(b: Bytes, more: Bytes, length: nat, o: nat)
    requires o + length <= |b|
    requires Fills(ParseActions(b, length, o), o + length) || Fills(ParseActions(b + more, length, o), o + length)
    ensures ParseActions(b + more, length, o) == ParseActions(b, length, o)
  {
    ReadersAgree(b, more, o + length);
    if Fills(ParseActions(b, length, o), o + length) {
      ItemsStay(Reader(b), Reader(b + more), Size, o, o + length);
    } else {
      ItemsStay(Reader(b + more), Reader(b), Size, o, o + length);
    }
  }

  lemma PackedHeader(a: Action)
    requires WellFormed(a)
    ensures Size(a) >= 4 && |PackAction(a)| == Size(a)
    ensures PackAction(a)[0..2] == PutShort(TypeOf(a)) && PackAction(a)[2..4] == PutShort(Size(a))
  {
    BodyFits(a);
    TwoShorts(PutShort(TypeOf(a)), PutShort(Size(a)), Body(a));
  }

  lemma ShortsInPlace(packed: Bytes, typ: nat, size: nat, b: Bytes, offset: nat)
    requires typ < 0x1_0000 && size < 0x1_0000 && |packed| >= 4
    requires packed[0..2] == PutShort(typ) && packed[2..4] == PutShort(size)
    requires offset + |packed| <= |b| && b[offset..offset + |packed|] == packed
    ensures GetShort(b[offset..offset + 2]) == typ && GetShort(b[offset + 2..offset + 4]) == size
  {
    SliceOfSlice(b, offset, |packed|, 0, 2);
    SliceOfSlice(b, offset, |packed|, 2, 4);
    GetPutShort(typ);
    GetPutShort(size);
  }

  lemma SliceComesBack(packed: Bytes, typ: Type, b: Bytes, offset: nat)
    requires 4 <= |packed| < 0x1_0000 && offset + |packed| <= |b| && b[offset..offset + |packed|] == packed
    requires packed[0..2] == PutShort(typ) && packed[2..4] == PutShort(|packed|)
    ensures SliceAt(b, offset) == Done((typ, packed))
  {
    ShortsInPlace(packed, typ, |packed|, b, offset);
  }

  lemma FirstComesBack(a: Action, b: Bytes, offset: nat)
    requires WellFormed(a) && offset + Size(a) <= |b| && b[offset..offset + Size(a)] == PackAction(a)
    ensures ActionAt(b, offset) == Done(Sent(a))
  {
    ActionComesBack(a);
    PackedHeader(a);
    SliceComesBack(PackAction(a), TypeOf(a), b, offset);
  }

  lemma ActionGivesBack(b: Bytes, a: Action)
    requires WellFormed(a)
    ensures |PackAction(a)| == Size(a) && GivesBack(Reader(b), PackAction, Size, Sent, a, b)
  {
    PackedHeader(a);
    forall o: nat | o + Size(a) <= |b| && b[o..o + Size(a)] == PackAction(a)
      ensures Reader(b)(o) == Done(Sent(a))
    {
      FirstComesBack(a, b, o);
    }
  }

  lemma ActionsPackable(actions: seq<Action>)
    requires AllWellFormed(actions)
    ensures Packable(PackAction, Size, actions) && |PackActions(actions)| == TotalSize(actions)
  {
    forall i | 0 <= i < |actions| ensures |PackAction(actions[i])| == Size(actions[i]) {
      PackedHeader(actions[i]);
    }
    PackedSize(PackAction, Size, actions);
  }

  /** The list's round trip, wherever it stands in a buffer and whatever follows it. */
  lemma ActionsComeBack(actions: seq<Action>, b: Bytes, o: nat)
    requires AllWellFormed(actions) && o + TotalSize(actions) <= |b|
    requires b[o..o + TotalSize(actions)] == PackActions(actions)
    ensures ParseActions(b, TotalSize(actions), o) == Done((o + TotalSize(actions), AllSent(actions)))
    ensures TotalSize(AllSent(actions)) == TotalSize(actions)
  {
    ActionsPackable(actions);
    forall i | 0 <= i < |actions| ensures GivesBack(Reader(b), PackAction, Size, Sent, actions[i], b) {
      ActionGivesBack(b, actions[i]);
    }
    ListComesBack(Reader(b), PackAction, Size, Sent, actions, b, o);
  }

  /** ofp_action_output packs itself in place: its max_len is cleared first. */
  class OutputAction {
    var port: bv16
    var maxLen: bv16

    constructor (port: bv16, maxLen: bv16)
      ensures this.port == port && this.maxLen == maxLen
    {
      this.port, this.maxLen := port, maxLen;
    }

    method Pack() returns (packed: Bytes)
      modifies this`maxLen
      ensures Output(port, maxLen) == Sent(Output(old(port), old(maxLen)))
      ensures packed == PackAction(Output(old(port), old(maxLen)))
    {
      if port != OFPP_CONTROLLER {
        maxLen := 0;
      }
      packed := PutShort(0) + PutShort(8) + (Put16(port) + Put16(maxLen));
    }
  }
}
