/** A whole flow modification on the wire (OpenFlow Switch Specification 1.0.0, section 5.3.3):
    header, match, fields, actions. */
module FlowModCodec {
  import opened WireBytes
  import opened ItemLists
  import opened OfpActions
  import opened ActionCodec
  import OfpMatch
  import MatchCodec

  datatype Header = Header(version: bv8, headerType: bv8, xid: bv32)

  datatype Fields = Fields(
    cookie: bv64, command: bv16, idleTimeout: bv16, hardTimeout: bv16, priority: bv16, bufferId: bv32,
    outPort: bv16, flags: bv16)

  /** ofp_flow_mod with its data unset. */
  datatype FlowMod = FlowMod(header: Header, mtch: OfpMatch.Match, fields: Fields, actions: seq<Action>)

  /** __eq__, up to the list of actions: matches compare by what they show. */
  predicate SameMod(a: FlowMod, b: FlowMod) {
    a.header == b.header && OfpMatch.Same(a.mtch, b.mtch) && a.fields == b.fields && a.actions == b.actions
  }

  /** len(flow_mod). */
  function ModSize(fm: FlowMod): nat {
    72 + TotalSize(fm.actions)
  }

  predicate PackableMod(fm: FlowMod) {
    AllWellFormed(fm.actions) && ModSize(fm) < 0x1_0000
  }

  function PutHeader(h: Header, length: nat): (r: Bytes)
    requires length < 0x1_0000
    ensures |r| == 8
  {
    [h.version, h.headerType] + PutShort(length) + Put32(h.xid)
  }

  function PutShorts(a: bv16, b: bv16, c: bv16, d: bv16): (r: Bytes)
    ensures |r| == 8
  {
    Put16(a) + Put16(b) + Put16(c) + Put16(d)
  }

  function PutTail(bufferId: bv32, outPort: bv16, flags: bv16): (r: Bytes)
    ensures |r| == 8
  {
    Put32(bufferId) + Put16(outPort) + Put16(flags)
  }

  function PutFields(f: Fields): (r: Bytes)
    ensures |r| == 24
  {
    Put64(f.cookie) + PutShorts(f.command, f.idleTimeout, f.hardTimeout, f.priority)
    + PutTail(f.bufferId, f.outPort, f.flags)
  }

  function GetHeader(s: Bytes): Header
    requires |s| == 8
  {
    Header(s[0], s[1], Get32(s[4..8]))
  }

  function GetFields(s: Bytes): Fields
    requires |s| == 24
  {
    var m, t := s[8..16], s[16..24];
    Fields(Get64(s[0..8]), Get16(m[0..2]), Get16(m[2..4]), Get16(m[4..6]), Get16(m[6..8]),
           Get32(t[0..4]), Get16(t[4..6]), Get16(t[6..8]))
  }

  lemma HeaderReturns(h: Header, length: nat)
    requires length < 0x1_0000
    ensures GetHeader(PutHeader(h, length)) == h && GetShort(PutHeader(h, length)[2..4]) == length
  {
    var s := PutHeader(h, length);
    assert s[2..4] == PutShort(length) && s[4..8] == Put32(h.xid);
    GetPutShort(length);
    GetPut32(h.xid);
  }

  lemma ShortsReturn(a: bv16, b: bv16, c: bv16, d: bv16)
    ensures var m := PutShorts(a, b, c, d);
      Get16(m[0..2]) == a && Get16(m[2..4]) == b && Get16(m[4..6]) == c && Get16(m[6..8]) == d
  {
    var m := PutShorts(a, b, c, d);
    assert m[0..2] == Put16(a) && m[2..4] == Put16(b) && m[4..6] == Put16(c) && m[6..8] == Put16(d);
    GetPut16(a);
    GetPut16(b);
    GetPut16(c);
    GetPut16(d);
  }

  lemma TailReturns(bufferId: bv32, outPort: bv16, flags: bv16)
    ensures var t := PutTail(bufferId, outPort, flags);
      Get32(t[0..4]) == bufferId && Get16(t[4..6]) == outPort && Get16(t[6..8]) == flags
  {
    var t := PutTail(bufferId, outPort, flags);
    assert t[0..4] == Put32(bufferId) && t[4..6] == Put16(outPort) && t[6..8] == Put16(flags);
    GetPut32(bufferId);
    GetPut16(outPort);
    GetPut16(flags);
  }

  lemma FieldsReturn(f: Fields)
    ensures GetFields(PutFields(f)) == f
  {
    var s := PutFields(f);
    assert s[0..8] == Put64(f.cookie);
    assert s[8..16] == PutShorts(f.command, f.idleTimeout, f.hardTimeout, f.priority);
    assert s[16..24] == PutTail(f.bufferId, f.outPort, f.flags);
    GetPut64(f.cookie);
    ShortsReturn(f.command, f.idleTimeout, f.hardTimeout, f.priority);
    TailReturns(f.bufferId, f.outPort, f.flags);
  }

  /** pack. */
  function PackMod(fm: FlowMod): (r: Bytes)
    requires PackableMod(fm)
  {
    PutHeader(fm.header, ModSize(fm)) + MatchCodec.Pack(fm.mtch) + PutFields(fm.fields) + PackActions(fm.actions)
  }

  /** Where the fields stand, counted from the end of the match. */
  lemma FieldPlaces(f: Fields)
    ensures var b := PutFields(f);
      && b[0..8] == Put64(f.cookie) && b[8..10] == Put16(f.command) && b[10..12] == Put16(f.idleTimeout)
      && b[12..14] == Put16(f.hardTimeout) && b[14..16] == Put16(f.priority) && b[16..20] == Put32(f.bufferId)
      && b[20..22] == Put16(f.outPort) && b[22..24] == Put16(f.flags)
  {
    var b, m, t := PutFields(f), PutShorts(f.command, f.idleTimeout, f.hardTimeout, f.priority),
                   PutTail(f.bufferId, f.outPort, f.flags);
    assert b == Put64(f.cookie) + m + t;
  }

  lemma HeaderPlaces(h: Header, length: nat)
    requires length < 0x1_0000
    ensures var b := PutHeader(h, length);
      b[0] == h.version && b[1] == h.headerType && b[2..4] == PutShort(length) && b[4..8] == Put32(h.xid)
  {
  }

  /** Where the parts of a message stand. */
  lemma PlacesInMessage(fm: FlowMod)
    requires PackableMod(fm)
    ensures var b := PackMod(fm);
      && |b| == 72 + TotalSize(fm.actions) && b[0..8] == PutHeader(fm.header, |b|)
      && b[8..48] == MatchCodec.Pack(fm.mtch) && b[48..72] == PutFields(fm.fields)
      && b[72..|b|] == PackActions(fm.actions)
  {
    ActionsPackable(fm.actions);
    FourParts(PutHeader(fm.header, ModSize(fm)), MatchCodec.Pack(fm.mtch), PutFields(fm.fields),
              PackActions(fm.actions));
  }

  /** What unpack decoded: the offset behind it, the length its header gives, the message. */
  datatype Unpacked = Unpacked(next: nat, length: nat, mod: FlowMod)

  /** The end of unpack: the message is put together and its length checked. */
  function Assemble(
      header: Header, length: nat, mtch: OfpMatch.Match, fields: Fields, parsed: Outcome<(nat, seq<Action>)>)
    : Outcome<Unpacked>
  {
    if parsed.Raised? then Raised(parsed.error)
    else
      var mod := FlowMod(header, mtch, fields, parsed.value.1);
      if length != ModSize(mod) then Raised(AssertionFailed)
      else Done(Unpacked(parsed.value.0, length, mod))
  }

  function HeaderLength(header: Bytes): nat
    requires |header| == 8
  {
    GetShort(header[2..4])
  }

  /** The parts of a message where they stand, the list of actions already decoded. */
  datatype Parts = Parts(header: Bytes, mtch: Bytes, fields: Bytes, actions: Outcome<(nat, seq<Action>)>)
  {
    predicate Sized() {
      |header| == 8 && |mtch| == 40 && |fields| == 24
    }
  }

  function PartsAt(raw: Bytes, offset: nat): (p: Parts)
    requires offset + 72 <= |raw|
    ensures p.Sized()
  {
    var header := raw[offset..offset + 8];
    Parts(header, raw[offset + 8..offset + 48], raw[offset + 48..offset + 72],
          ParseActions(raw, HeaderLength(header) - 72, offset + 72))
  }

  function FromParts(p: Parts): Outcome<Unpacked>
    requires p.Sized()
  {
    Assemble(GetHeader(p.header), HeaderLength(p.header), MatchCodec.Unpack(p.mtch), GetFields(p.fields), p.actions)
  }

  /** unpack. */
  function UnpackMod(raw: Bytes, offset: nat): Outcome<Unpacked> {
    if |raw| - offset < 72 then Raised(Underrun) else FromParts(PartsAt(raw, offset))
  }

  lemma PartsLength(p: Parts)
    requires p.Sized() && FromParts(p).Done?
    ensures var u := FromParts(p).value;
      && p.actions.Done? && u.next == p.actions.value.0 && u.mod.actions == p.actions.value.1
      && u.length == HeaderLength(p.header) == ModSize(u.mod)
  {
  }

  lemma ActionsConsumed(raw: Bytes, length: int, offset: nat)
    requires ParseActions(raw, length, offset).Done?
    ensures var r := ParseActions(raw, length, offset).value;
      r.0 == offset + TotalSize(r.1) && length <= |raw| - offset
  {
    ConsumedIsTotal(Reader(raw), Size, offset, length + offset);
  }

  lemma PartsConsumed(raw: Bytes, offset: nat)
    requires offset + 72 <= |raw| && FromParts(PartsAt(raw, offset)).Done?
    ensures var p, u := PartsAt(raw, offset), FromParts(PartsAt(raw, offset)).value;
      && u.next == offset + u.length == offset + ModSize(u.mod) <= |raw|
      && u.length == HeaderLength(p.header)
      && p.actions == ParseActions(raw, u.length - 72, offset + 72) && Fills(p.actions, offset + u.length)
  {
    var p := PartsAt(raw, offset);
    PartsLength(p);
    ActionsConsumed(raw, HeaderLength(p.header) - 72, offset + 72);
  }

  /** A message that unpacks was consumed to the byte: exactly the length its header gives, all
      of it inside the buffer. */
  lemma ConsumesItsLength(raw: Bytes, offset: nat)
    requires UnpackMod(raw, offset).Done?
    ensures var u := UnpackMod(raw, offset).value;
      && u.next == offset + u.length == offset + ModSize(u.mod) <= |raw|
      && u.length == HeaderLength(raw[offset..offset + 8]) >= 72
  {
    PartsConsumed(raw, offset);
  }

  lemma PartsStay(b: Bytes, more: Bytes)
    requires |b| >= 72 && 72 <= HeaderLength(b[0..8]) <= |b|
    requires || Fills(PartsAt(b, 0).actions, HeaderLength(b[0..8]))
             || Fills(PartsAt(b + more, 0).actions, HeaderLength(b[0..8]))
    ensures PartsAt(b + more, 0) == PartsAt(b, 0)
  {
    SliceOfFirst(b, more, 0, 8);
    SliceOfFirst(b, more, 8, 48);
    SliceOfFirst(b, more, 48, 72);
    ActionsStay(b, more, HeaderLength(b[0..8]) - 72, 72);
  }

  /** A complete message that unpacks does so to the same whatever follows it, and one that does
      not unpack never will. */
  lemma ModStays(b: Bytes, more: Bytes)
    requires |b| >= 8 && HeaderLength(b[0..8]) <= |b|
    requires UnpackMod(b, 0).Done? || UnpackMod(b + more, 0).Done?
    ensures UnpackMod(b + more, 0) == UnpackMod(b, 0)
  {
    SliceOfFirst(b, more, 0, 8);
    if UnpackMod(b, 0).Done? {
      PartsConsumed(b, 0);
    } else {
      PartsConsumed(b + more, 0);
    }
    PartsStay(b, more);
  }

  lemma PackedMod(fm: FlowMod)
    requires PackableMod(fm)
    ensures |PackMod(fm)| == ModSize(fm) && PackMod(fm)[0..8] == PutHeader(fm.header, ModSize(fm))
  {
    ActionsPackable(fm.actions);
    FourParts(PutHeader(fm.header, ModSize(fm)), MatchCodec.Pack(fm.mtch), PutFields(fm.fields),
              PackActions(fm.actions));
  }

  /** What a packed modification means to the receiver: its match fixed, outputs as sent. */
  function ReceivedMod(fm: FlowMod): FlowMod {
    fm.(mtch := MatchCodec.Normal(MatchCodec.Fix(fm.mtch)), actions := AllSent(fm.actions))
  }

  /** The message as the receiver decodes it. */
  function Arrived(fm: FlowMod): FlowMod {
    fm.(mtch := MatchCodec.Unpack(MatchCodec.Pack(fm.mtch)), actions := AllSent(fm.actions))
  }

  lemma ArrivedIsReceived(fm: FlowMod)
    ensures SameMod(Arrived(fm), ReceivedMod(fm))
  {
    MatchCodec.UnpackPack(fm.mtch);
  }

  /** The parts of a packed message that ends at this place. */
  function PackedParts(fm: FlowMod, end: nat): (p: Parts)
    requires PackableMod(fm)
    ensures p.Sized()
  {
    Parts(PutHeader(fm.header, ModSize(fm)), MatchCodec.Pack(fm.mtch), PutFields(fm.fields),
          Done((end, AllSent(fm.actions))))
  }

  lemma {:induction false} SentSize(actions: seq<Action>)
    ensures TotalSize(AllSent(actions)) == TotalSize(actions)
  {
    if actions != [] {
      SentSize(actions[1..]);
    }
  }

  lemma PartsReturn(fm: FlowMod, end: nat)
    requires PackableMod(fm)
    ensures FromParts(PackedParts(fm, end)) == Done(Unpacked(end, ModSize(fm), Arrived(fm)))
  {
    HeaderReturns(fm.header, ModSize(fm));
    FieldsReturn(fm.fields);
    SentSize(fm.actions);
  }

  lemma ActionsArrive(actions: seq<Action>, raw: Bytes, o: nat, h: Bytes, m: Bytes, f: Bytes)
    requires AllWellFormed(actions) && |h| == 8 && |m| == 40 && |f| == 24
    requires var end := o + 72 + TotalSize(actions); end <= |raw| && raw[o..end] == h + m + f + PackActions(actions)
    ensures ParseActions(raw, TotalSize(actions), o + 72) == Done((o + 72 + TotalSize(actions), AllSent(actions)))
  {
    ActionsPackable(actions);
    FourInPlace(h, m, f, PackActions(actions), raw, o, 72 + TotalSize(actions));
    ActionsComeBack(actions, raw, o + 72);
  }

  lemma PartsFound(raw: Bytes, o: nat, h: Bytes, m: Bytes, f: Bytes, rest: Bytes, actions: Outcome<(nat, seq<Action>)>)
    requires |h| == 8 && |m| == 40 && |f| == 24 && HeaderLength(h) == 72 + |rest|
    requires var end := o + 72 + |rest|; end <= |raw| && raw[o..end] == h + m + f + rest
    requires ParseActions(raw, |rest|, o + 72) == actions
    ensures PartsAt(raw, o) == Parts(h, m, f, actions)
  {
    FourInPlace(h, m, f, rest, raw, o, 72 + |rest|);
  }

  lemma PartsArrive(fm: FlowMod, raw: Bytes, o: nat)
    requires PackableMod(fm) && o + ModSize(fm) <= |raw| && raw[o..o + ModSize(fm)] == PackMod(fm)
    ensures PartsAt(raw, o) == PackedParts(fm, o + ModSize(fm))
  {
    var h, m, f := PutHeader(fm.header, ModSize(fm)), MatchCodec.Pack(fm.mtch), PutFields(fm.fields);
    HeaderReturns(fm.header, ModSize(fm));
    ActionsPackable(fm.actions);
    ActionsArrive(fm.actions, raw, o, h, m, f);
    PartsFound(raw, o, h, m, f, PackActions(fm.actions), Done((o + ModSize(fm), AllSent(fm.actions))));
  }

  lemma BuiltFromParts(fm: FlowMod, raw: Bytes, o: nat, end: nat)
    requires PackableMod(fm) && o + 72 <= |raw| && PartsAt(raw, o) == PackedParts(fm, end)
    ensures UnpackMod(raw, o) == Done(Unpacked(end, ModSize(fm), Arrived(fm)))
  {
    PartsReturn(fm, end);
  }

  lemma ModArrives(fm: FlowMod, raw: Bytes, o: nat)
    requires PackableMod(fm) && o + ModSize(fm) <= |raw| && raw[o..o + ModSize(fm)] == PackMod(fm)
    ensures UnpackMod(raw, o).Done? && UnpackMod(raw, o).value == Unpacked(o + ModSize(fm), ModSize(fm), Arrived(fm))
  {
    PartsArrive(fm, raw, o);
    BuiltFromParts(fm, raw, o, o + ModSize(fm));
  }

  ghost predicate ComesBack(fm: FlowMod, r: Outcome<Unpacked>, o: nat) {
    r.Done? && r.value.next == o + ModSize(fm) && r.value.length == ModSize(fm) && SameMod(r.value.mod, ReceivedMod(fm))
  }

  /** The round trip, for every match and every well-formed list of actions, wherever the message
      stands in the stream and whatever follows it. */
  lemma ModComesBack(fm: FlowMod, raw: Bytes, o: nat)
    requires PackableMod(fm) && o + ModSize(fm) <= |raw| && raw[o..o + ModSize(fm)] == PackMod(fm)
    ensures ComesBack(fm, UnpackMod(raw, o), o)
    ensures MatchCodec.ShowsWhatMatters(fm.mtch, UnpackMod(raw, o).value.mod.mtch)
  {
    ModArrives(fm, raw, o);
    ArrivedIsReceived(fm);
    MatchCodec.UnpackPackShows(fm.mtch);
  }
}
