/** The payload a heartbeat is given by pox/livestreaming/bypass.py: the peer's address as text,
    padded to a fixed length. */
module Heartbeats {
  import opened Wrappers
  import opened TextPieces
  import opened Numerals
  import opened Ipv6Text

  const HEARTBEAT_LENGTH := 15
  const HEARTBEAT_PADDING: char := '|'

  /** An IPv4 address: four bytes. */
  type Ip = q: seq<Byte> | |q| == 4 witness [0, 0, 0, 0]

  function Padding(n: int): (s: string)
    ensures |s| == if n < 0 then 0 else n
    ensures forall i | 0 <= i < |s| :: s[i] == HEARTBEAT_PADDING
  {
    seq(if n < 0 then 0 else n, _ => HEARTBEAT_PADDING)
  }

  /** "{0:|<15}".format(str(ip)). */
  function Heartbeat(ip: Ip): string {
    QuadText(ip) + Padding(HEARTBEAT_LENGTH - |QuadText(ip)|)
  }

  /** What stands before the padding. */
  function Unpadded(s: string): string {
    if s == "" || s[|s| - 1] != HEARTBEAT_PADDING then s else Unpadded(s[..|s| - 1])
  }

  lemma DigitIsNoPadding(d: nat)
    requires d < 16
    ensures DigitChar(d) != HEARTBEAT_PADDING
  {
  }

  lemma ByteIsShort(n: Byte)
    ensures 1 <= |Numeral(n, 10)| <= 3 && HEARTBEAT_PADDING !in Numeral(n, 10)
  {
    DigitIsNoPadding(n % 10);
    if n >= 10 {
      DigitIsNoPadding(n / 10 % 10);
      if n >= 100 {
        DigitIsNoPadding(n / 10 / 10);
        assert Numeral(n / 10 / 10, 10) == [DigitChar(n / 10 / 10)];
      }
      assert Numeral(n, 10) == Numeral(n / 10, 10) + [DigitChar(n % 10)];
    }
  }

  lemma JoinedLength(a: string, b: string, c: string, d: string)
    ensures |Join([a, b, c, d], '.')| == |a| + |b| + |c| + |d| + 3
  {
    assert [a, b, c, d][1..] == [b, c, d] && [b, c, d][1..] == [c, d] && [c, d][1..] == [d];
    assert Join([b, c, d], '.') == b + ['.'] + Join([c, d], '.');
    assert Join([c, d], '.') == c + ['.'] + Join([d], '.');
  }

  lemma QuadIsShort(ip: Ip)
    ensures 7 <= |QuadText(ip)| <= HEARTBEAT_LENGTH && HEARTBEAT_PADDING !in QuadText(ip)
  {
    var a, b, c, d := Numeral(ip[0], 10), Numeral(ip[1], 10), Numeral(ip[2], 10), Numeral(ip[3], 10);
    ByteIsShort(ip[0]);
    ByteIsShort(ip[1]);
    ByteIsShort(ip[2]);
    ByteIsShort(ip[3]);
    JoinedLength(a, b, c, d);
    InJoin([a, b, c, d], '.', HEARTBEAT_PADDING);
  }

  lemma {:induction false} PaddingGoes(s: string, pad: string)
    requires HEARTBEAT_PADDING !in s && forall i | 0 <= i < |pad| :: pad[i] == HEARTBEAT_PADDING
    ensures Unpadded(s + pad) == s
    decreases |pad|
  {
    var t := s + pad;
    if pad == "" {
      assert t == s && (s != "" ==> s[|s| - 1] in s);
    } else {
      assert t[|t| - 1] == pad[|pad| - 1] && t[..|t| - 1] == s + pad[..|pad| - 1];
      PaddingGoes(s, pad[..|pad| - 1]);
    }
  }

  /** For every address the payload has the fixed length, which keeps the segment's length, and the
      address is what reads back before the padding. */
  lemma HeartbeatReads(ip: Ip)
    ensures |Heartbeat(ip)| == HEARTBEAT_LENGTH
    ensures ParseQuad(Unpadded(Heartbeat(ip))) == Some(ip)
  {
    QuadIsShort(ip);
    PaddingGoes(QuadText(ip), Padding(HEARTBEAT_LENGTH - |QuadText(ip)|));
    QuadReads(ip);
  }
}
