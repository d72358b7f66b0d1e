/** RTMP chunks as pox/livestreaming/bypass.py reads them: RTMPControlPacket and the loop that
    splits a TCP payload into packets. */
module RtmpParser {
  import opened Wrappers

  type Byte = n: nat | n < 256
  type Bytes = seq<Byte>

  /** The fields of a chunk header; which are there depends on its type. */
  datatype Header = Header(
    headerType: nat, streamId: nat, timestamp: Option<nat>, msgLength: Option<nat>, msgType: Option<nat>,
    msgStreamId: Option<nat>)

  /** One packet of a payload; remain is what follows it. */
  datatype Piece = Piece(header: Header, headerBytes: Bytes, payload: Bytes, remain: Bytes)

  function Big2(b: Bytes): nat
    requires |b| == 2
  {
    var x: nat, y: nat := b[0], b[1];
    x * 256 + y
  }

  function Big3(b: Bytes): nat
    requires |b| == 3
  {
    var x: nat, y: nat, z: nat := b[0], b[1], b[2];
    (x * 256 + y) * 256 + z
  }

  function Little4(b: Bytes): nat
    requires |b| == 4
  {
    var w: nat, x: nat, y: nat, z: nat := b[0], b[1], b[2], b[3];
    w + 256 * (x + 256 * (y + 256 * z))
  }

  /** The stream id, and where the basic header ends. */
  function ReadBasic(c: Bytes): (r: Option<(nat, nat)>)
    ensures r.Some? ==> 1 <= r.value.1 <= |c|
  {
    if |c| == 0 then None
    else
      var b: nat := c[0];
      var id := b % 64;
      if id == 0 then if |c| < 2 then None else var x: nat := c[1]; Some((64 + x, 2))
      else if id == 1 then if |c| < 3 then None else Some((64 + Big2(c[1..3]), 3))
      else Some((id, 1))
  }

  /** How long the message header of each type is. */
  function MessageHeaderLength(headerType: nat): nat {
    if headerType == 0 then 11 else if headerType == 1 then 7 else if headerType == 2 then 3 else 0
  }

  function ReadHeader(c: Bytes): (r: Option<(Header, nat)>)
    ensures r.Some? ==> 1 <= r.value.1 <= |c|
  {
    var basic := ReadBasic(c);
    if basic.None? then None
    else
      var (id, p) := basic.value;
      var first: nat := c[0];
      var t := first / 64;
      if |c| < p + MessageHeaderLength(t) then None
      else
        Some((Header(
          t, id,
          if t <= 2 then Some(Big3(c[p..p + 3])) else None,
          if t <= 1 then Some(Big3(c[p + 3..p + 6])) else None,
          if t <= 1 then var x: nat := c[p + 6]; Some(x) else None,
          if t == 0 then Some(Little4(c[p + 7..p + 11])) else None), p + MessageHeaderLength(t)))
  }

  /** The first packet of the content; None when it does not parse.  One byte too many is left in
      the payload. */
  function Parse(content: Bytes): (r: Option<Piece>)
    ensures r.Some? ==> |r.value.remain| < |content|
  {
    var h := ReadHeader(content);
    if h.None? then None
    else
      var (header, pos) := h.value;
      var payload := content[pos..];
      if header.msgLength.None? then Some(Piece(header, content[..pos], payload, []))
      else
        var n := header.msgLength.value;
        if |payload| > n + 1 then Some(Piece(header, content[..pos], payload[..n], payload[n..]))
        else if |payload| < n then None
        else Some(Piece(header, content[..pos], payload, []))
  }

  /** A packet holds one byte more than it announces exactly if the content ends there; two more are
      taken for the next packet. */
  lemma OneByteMoreStays(content: Bytes)
    requires Parse(content).Some? && Parse(content).value.header.msgLength.Some?
    ensures var p := Parse(content).value;
      var n, left := p.header.msgLength.value, |content| - |p.headerBytes|;
      && left >= n && |p.payload| == (if left == n + 1 then n + 1 else n) && |p.remain| == left - |p.payload|
  {
  }

  /** All packets of the content; None when one of them does not parse. */
  function Pieces(content: Bytes): Option<seq<Piece>>
    decreases |content|
  {
    if content == [] then Some([])
    else
      var first := Parse(content);
      if first.None? then None
      else
        After([first.value], Pieces(first.value.remain))
  }

  function Joined(pieces: seq<Piece>): Bytes {
    if pieces == [] then [] else pieces[0].headerBytes + pieces[0].payload + Joined(pieces[1..])
  }

  /** The payload a packet's header announces; only the last packet may hold one byte more. */
  predicate Announced(p: Piece, last: bool) {
    p.header.msgLength.Some? ==>
      |p.payload| == p.header.msgLength.value || (last && |p.payload| == p.header.msgLength.value + 1)
  }

  /** When all packets parse, their headers and payloads are the content, nothing lost and nothing
      twice, and every packet but the last announces its length and has it. */
  lemma {:induction false} PiecesJoin(content: Bytes)
    requires Pieces(content).Some?
    ensures var pieces := Pieces(content).value;
      && Joined(pieces) == content && (content != [] ==> pieces != [])
      && (forall i :: 0 <= i < |pieces| ==> Announced(pieces[i], i == |pieces| - 1))
      && (forall i :: 0 <= i < |pieces| - 1 ==> pieces[i].header.msgLength.Some?)
    decreases |content|
  {
    if content != [] {
      var first := Parse(content).value;
      var rest := Pieces(first.remain).value;
      PiecesJoin(first.remain);
      FirstJoins(content);
      var pieces := [first] + rest;
      assert pieces[1..] == rest;
      forall i | 0 <= i < |pieces| ensures Announced(pieces[i], i == |pieces| - 1) {
        assert i > 0 ==> pieces[i] == rest[i - 1];
      }
      forall i | 0 <= i < |pieces| - 1 ensures pieces[i].header.msgLength.Some? {
        assert i > 0 ==> pieces[i] == rest[i - 1];
      }
    }
  }

  lemma FirstJoins(content: Bytes)
    requires Parse(content).Some?
    ensures var p := Parse(content).value;
      && p.headerBytes + p.payload + p.remain == content && Announced(p, p.remain == [])
      && (p.remain != [] ==> p.header.msgLength.Some?)
  {
    var (header, pos) := ReadHeader(content).value;
    assert content[..pos] + content[pos..] == content;
  }

  function After(done: seq<Piece>, rest: Option<seq<Piece>>): Option<seq<Piece>> {
    if rest.None? then None else Some(done + rest.value)
  }

  lemma AfterOne(done: seq<Piece>, p: Piece, rest: Option<seq<Piece>>)
    ensures After(done, After([p], rest)) == After(done + [p], rest)
  {
    if rest.Some? {
      assert done + ([p] + rest.value) == done + [p] + rest.value;
    }
  }

  /** The splitting loop of the packet handler. */
  method Split(payload: Bytes) returns (r: Option<seq<Piece>>)
    ensures r == Pieces(payload)
  {
    var content, pieces := payload, [];
    assert Pieces(payload) == After([], Pieces(payload)) by {
      if Pieces(payload).Some? {
        assert [] + Pieces(payload).value == Pieces(payload).value;
      }
    }
    while |content| > 0
      invariant Pieces(payload) == After(pieces, Pieces(content))
      decreases |content|
    {
      var p := Parse(content);
      if p.None? {
        return None;
      }
      AfterOne(pieces, p.value, Pieces(p.value.remain));
      content := p.value.remain;
      pieces := pieces + [p.value];
    }
    assert pieces + [] == pieces;
    return Some(pieces);
  }

  // ---------------------------------------------------------------- writing headers

  function PutBig2(n: nat): (r: Bytes)
    requires n < 0x1_0000
    ensures |r| == 2
  {
    [n / 256, n % 256]
  }

  function PutBig3(n: nat): (r: Bytes)
    requires n < 0x100_0000
    ensures |r| == 3
  {
    [n / 0x1_0000, n / 256 % 256, n % 256]
  }

  function PutLittle4(n: nat): (r: Bytes)
    requires n < 0x1_0000_0000
    ensures |r| == 4
  {
    [n % 256, n / 256 % 256, n / 0x1_0000 % 256, n / 0x100_0000]
  }

  /** The headers there are: which fields a type carries, and what fits in them. */
  predicate IsHeader(h: Header) {
    && h.headerType < 4 && 2 <= h.streamId < 64 + 0x1_0000
    && (h.timestamp.Some? <==> h.headerType <= 2) && (h.msgLength.Some? <==> h.headerType <= 1)
    && (h.msgType.Some? <==> h.headerType <= 1) && (h.msgStreamId.Some? <==> h.headerType == 0)
    && (h.timestamp.Some? ==> h.timestamp.value < 0x100_0000)
    && (h.msgLength.Some? ==> h.msgLength.value < 0x100_0000)
    && (h.msgType.Some? ==> h.msgType.value < 256)
    && (h.msgStreamId.Some? ==> h.msgStreamId.value < 0x1_0000_0000)
  }

  /** There are no others: every header that parses is one of these. */
  lemma ParsedIsHeader(c: Bytes)
    requires ReadHeader(c).Some?
    ensures IsHeader(ReadHeader(c).value.0)
  {
    BasicInRange(c);
    var first: nat := c[0];
    assert first / 64 < 4;
  }

  lemma BasicInRange(c: Bytes)
    requires ReadBasic(c).Some?
    ensures 2 <= ReadBasic(c).value.0 < 64 + 0x1_0000
  {
  }

  function PutBasic(h: Header): Bytes
    requires IsHeader(h)
  {
    var top := h.headerType * 64;
    if h.streamId < 64 then [top + h.streamId]
    else if h.streamId < 64 + 256 then [top, h.streamId - 64]
    else [top + 1] + PutBig2(h.streamId - 64)
  }

  function PutMessageHeader(h: Header): (r: Bytes)
    requires IsHeader(h)
    ensures |r| == MessageHeaderLength(h.headerType)
  {
    if h.headerType == 3 then []
    else if h.headerType == 2 then PutBig3(h.timestamp.value)
    else
      PutBig3(h.timestamp.value) + PutBig3(h.msgLength.value) + [h.msgType.value]
      + if h.headerType == 0 then PutLittle4(h.msgStreamId.value) else []
  }

  lemma Big2Reads(n: nat)
    requires n < 0x1_0000
    ensures Big2(PutBig2(n)) == n
  {
  }

  lemma Big3Reads(n: nat)
    requires n < 0x100_0000
    ensures Big3(PutBig3(n)) == n
  {
    var x, y, z := n / 0x1_0000, n / 256 % 256, n % 256;
    assert n / 256 == x * 256 + y && n == (x * 256 + y) * 256 + z;
  }

  lemma Little4Reads(n: nat)
    requires n < 0x1_0000_0000
    ensures Little4(PutLittle4(n)) == n
  {
    var w, x, y, z := n % 256, n / 256 % 256, n / 0x1_0000 % 256, n / 0x100_0000;
    assert n / 0x1_0000 == y + 256 * z && n / 256 == x + 256 * (y + 256 * z);
  }

  lemma BasicReads(h: Header, rest: Bytes)
    requires IsHeader(h)
    ensures ReadBasic(PutBasic(h) + rest) == Some((h.streamId, |PutBasic(h)|))
    ensures |PutBasic(h)| > 0 && var first: nat := (PutBasic(h) + rest)[0]; first / 64 == h.headerType
  {
    if h.streamId >= 64 + 256 {
      Big2Reads(h.streamId - 64);
      assert (PutBasic(h) + rest)[1..3] == PutBig2(h.streamId - 64);
    }
  }

  lemma SliceOf(c: Bytes, p: nat, m: Bytes, from: nat, to: nat)
    requires p + |m| <= |c| && c[p..p + |m|] == m && from <= to <= |m|
    ensures c[p + from..p + to] == m[from..to]
  {
    assert forall i :: 0 <= i < |m| ==> c[p..p + |m|][i] == m[i] && c[p + i] == c[p..p + |m|][i];
  }

  predicate FieldsAt(h: Header, c: Bytes, p: nat)
    requires p + MessageHeaderLength(h.headerType) <= |c|
  {
    && (h.headerType <= 2 ==> Some(Big3(c[p..p + 3])) == h.timestamp)
    && (h.headerType <= 1 ==> Some(Big3(c[p + 3..p + 6])) == h.msgLength)
    && (h.headerType <= 1 ==> h.msgType.Some? && h.msgType.value == c[p + 6])
    && (h.headerType == 0 ==> Some(Little4(c[p + 7..p + 11])) == h.msgStreamId)
  }

  lemma FieldsRead(h: Header, c: Bytes, p: nat)
    requires IsHeader(h) && p + MessageHeaderLength(h.headerType) <= |c|
    requires c[p..p + MessageHeaderLength(h.headerType)] == PutMessageHeader(h)
    ensures FieldsAt(h, c, p)
  {
    var m := PutMessageHeader(h);
    if h.headerType <= 2 {
      SliceOf(c, p, m, 0, 3);
      assert m[0..3] == PutBig3(h.timestamp.value);
      Big3Reads(h.timestamp.value);
    }
    if h.headerType <= 1 {
      SliceOf(c, p, m, 3, 6);
      assert m[3..6] == PutBig3(h.msgLength.value);
      Big3Reads(h.msgLength.value);
      SliceOf(c, p, m, 6, 7);
      assert c[p + 6] == c[p + 6..p + 7][0] == m[6..7][0];
    }
    if h.headerType == 0 {
      SliceOf(c, p, m, 7, 11);
      assert m[7..11] == PutLittle4(h.msgStreamId.value);
      Little4Reads(h.msgStreamId.value);
    }
  }

  lemma HeaderFromParts(h: Header, c: Bytes, p: nat)
    requires IsHeader(h) && c != [] && ReadBasic(c) == Some((h.streamId, p))
    requires var first: nat := c[0]; first / 64 == h.headerType
    requires p + MessageHeaderLength(h.headerType) <= |c| && FieldsAt(h, c, p)
    ensures ReadHeader(c) == Some((h, p + MessageHeaderLength(h.headerType)))
  {
  }

  /** Any header, of any type and with a stream id of any length, reads back from its bytes. */
  lemma HeaderReads(h: Header, rest: Bytes)
    requires IsHeader(h)
    ensures var bytes := PutBasic(h) + PutMessageHeader(h);
      ReadHeader(bytes + rest) == Some((h, |bytes|))
  {
    var m, p := PutMessageHeader(h), |PutBasic(h)|;
    var c := PutBasic(h) + m + rest;
    assert c == PutBasic(h) + (m + rest);
    BasicReads(h, m + rest);
    assert c[p..p + |m|] == m;
    FieldsRead(h, c, p);
    HeaderFromParts(h, c, p);
  }

  // ---------------------------------------------------------------- packets in one payload

  /** A packet that announces its length. */
  datatype Packet = Packet(header: Header, payload: Bytes)

  predicate IsPacket(p: Packet) {
    IsHeader(p.header) && p.header.msgLength == Some(|p.payload|)
  }

  function PutPacket(p: Packet): (r: Bytes)
    requires IsPacket(p)
    ensures |r| > 1
  {
    PutBasic(p.header) + PutMessageHeader(p.header) + p.payload
  }

  function PutAll(packets: seq<Packet>): Bytes
    requires forall i :: 0 <= i < |packets| ==> IsPacket(packets[i])
  {
    if packets == [] then [] else PutPacket(packets[0]) + PutAll(packets[1..])
  }

  lemma FirstPacketReads(p: Packet, rest: Bytes)
    requires IsPacket(p) && |rest| != 1
    ensures var r := Parse(PutPacket(p) + rest);
      r.Some? && r.value.header == p.header && r.value.payload == p.payload && r.value.remain == rest
  {
    var head := PutBasic(p.header) + PutMessageHeader(p.header);
    assert PutPacket(p) + rest == head + (p.payload + rest);
    HeaderReads(p.header, p.payload + rest);
    assert (head + (p.payload + rest))[|head|..] == p.payload + rest;
  }

  /** Any packets that announce their lengths, sent in one payload, are what the loop finds. */
  lemma {:induction false} PacketsComeBack(packets: seq<Packet>)
    requires forall i :: 0 <= i < |packets| ==> IsPacket(packets[i])
    ensures var r := Pieces(PutAll(packets));
      && r.Some? && |r.value| == |packets|
      && forall i :: 0 <= i < |packets| ==>
           r.value[i].header == packets[i].header && r.value[i].payload == packets[i].payload
  {
    if packets != [] {
      var rest := PutAll(packets[1..]);
      FirstPacketReads(packets[0], rest);
      PacketsComeBack(packets[1..]);
      var first, others := Parse(PutAll(packets)).value, Pieces(rest).value;
      assert Pieces(PutAll(packets)) == Some([first] + others);
      forall i | 0 <= i < |packets|
        ensures ([first] + others)[i].header == packets[i].header && ([first] + others)[i].payload == packets[i].payload
      {
        assert i > 0 ==> packets[i] == packets[1..][i - 1];
      }
    }
  }
}
