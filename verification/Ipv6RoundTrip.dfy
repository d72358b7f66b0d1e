/** Printing an IPv6 address and reading the text back: IPAddr6.to_str and the textual
    constructor of pox/lib/addresses.py, for every setting of zero_drop, section_drop and ipv4. */
module Ipv6RoundTrip {
  import opened Wrappers
  import opened TextPieces
  import opened Numerals
  import opened Ipv6Text
  import opened Ipv6Printing

  // ---------------------------------------------------------------- the text

  function Token(n: nat, zeroDrop: bool): string
    requires n < 0x1_0000
  {
    if zeroDrop then Numeral(n, 16) else FourDigits(n)
  }

  /** What a group looks like: four digits, or with zero_drop as few as say the same. */
  lemma TokenLooks(n: nat, zeroDrop: bool)
    requires n < 0x1_0000
    ensures Printed(Token(n, zeroDrop)) && 0 < |Token(n, zeroDrop)| <= 4
    ensures zeroDrop ==> Token(n, zeroDrop) == "0" || Token(n, zeroDrop)[0] != '0'
    ensures !zeroDrop ==> |Token(n, zeroDrop)| == 4
  {
    assert n < Limit(4) by {
      assert Limit(4) == 16 * Limit(3) && Limit(2) == 16 * Limit(1);
    }
    NumeralIsPrinted(n, 4);
    PaddedIsPrinted(n, 4);
    if n > 0 {
      NoLeadingZero(n, 16);
    } else {
      assert Numeral(0, 16) == "0";
    }
  }

  predicate Fits(o: seq<nat>) {
    forall i :: 0 <= i < |o| ==> o[i] < 0x1_0000
  }

  function Tokens(o: seq<nat>, zeroDrop: bool): (t: seq<string>)
    requires Fits(o)
    ensures |t| == |o| && forall i :: 0 <= i < |o| ==> t[i] == Token(o[i], zeroDrop)
  {
    seq(|o|, i requires 0 <= i < |o| => Token(o[i], zeroDrop))
  }

  /** fmt of to_str. */
  function Format(o: seq<nat>, zeroDrop: bool): string
    requires Fits(o)
  {
    Join(Tokens(o, zeroDrop), ':')
  }

  /** The text before finalize. */
  function Body(o: seq<nat>, zeroDrop: bool, cut: Cut): string
    requires Fits(o) && Droppable(o, cut)
  {
    if cut.None? then Format(o, zeroDrop)
    else
      var pos, len := cut.value.0, cut.value.1;
      Format(o[0..pos], zeroDrop) + "::" + Format(o[pos + len..|o|], zeroDrop)
  }

  /** The groups that are formatted: mixed notation first puts ones in place of the last two. */
  function Listed(v: Address, mixed: bool): (o: seq<nat>)
    ensures IsGroups(o)
  {
    if mixed then Groups(v)[..6] + [1, 1] else Groups(v)
  }

  /** finalize of mixed notation: the placeholders give way to the dotted quad. */
  function Finalize(s: string, v: Address): string {
    RSplit(s, ':', 2)[0] + ":" + QuadText(v[12..])
  }

  function Text(v: Address, zeroDrop: bool, mixed: bool, cut: Cut): string
    requires Droppable(Listed(v, mixed), cut)
  {
    var s := Body(Listed(v, mixed), zeroDrop, cut);
    if mixed then Finalize(s, v) else s
  }

  /** is_ipv4_mapped: the address is in ::ffff:0:0/96. */
  predicate IsIpv4Mapped(v: Address) {
    (forall i :: 0 <= i < 10 ==> v[i] == 0) && v[10] == 255 && v[11] == 255
  }

  // ---------------------------------------------------------------- its pieces

  /** Tokens that read as the groups. */
  predicate Spells(t: seq<string>, o: seq<nat>) {
    |t| == |o| && Fits(o) && forall i :: 0 <= i < |o| ==> Reads(t[i], o[i], 16)
  }

  lemma TokensSpell(o: seq<nat>, zeroDrop: bool)
    requires Fits(o)
    ensures Spells(Tokens(o, zeroDrop), o)
  {
    forall i | 0 <= i < |o| ensures Reads(Token(o[i], zeroDrop), o[i], 16) {
      NumeralReads(o[i], 16);
      assert o[i] < Limit(4) by { assert Limit(4) == 16 * Limit(3) && Limit(2) == 16 * Limit(1); }
      PaddedReads(o[i], 4);
    }
  }

  /** An empty side leaves an empty piece. */
  function Side(t: seq<string>): (r: seq<string>)
    ensures r != []
  {
    if t == [] then [""] else t
  }

  predicate Inside(n: nat, cut: Cut) {
    cut.Some? ==> cut.value.1 >= 2 && cut.value.0 + cut.value.1 <= n
  }

  /** The text's pieces between colons. */
  function Pieces(t: seq<string>, cut: Cut): (r: seq<string>)
    requires Inside(|t|, cut)
  {
    if cut.None? then t
    else Gapped(t, cut.value.0, cut.value.0 + cut.value.1)
  }

  function Gapped(t: seq<string>, pos: nat, end: nat): seq<string>
    requires pos <= end <= |t|
  {
    Side(t[0..pos]) + [""] + Side(t[end..|t|])
  }

  lemma BodyIsJoined(o: seq<nat>, zeroDrop: bool, cut: Cut)
    requires Fits(o) && Droppable(o, cut)
    ensures Body(o, zeroDrop, cut) == Join(Pieces(Tokens(o, zeroDrop), cut), ':')
  {
    if cut.Some? {
      GappedIsJoined(o, zeroDrop, cut.value.0, cut.value.0 + cut.value.1);
    }
  }

  lemma GappedIsJoined(o: seq<nat>, zeroDrop: bool, pos: nat, end: nat)
    requires Fits(o) && pos <= end <= |o|
    ensures Format(o[0..pos], zeroDrop) + "::" + Format(o[end..|o|], zeroDrop) ==
            Join(Gapped(Tokens(o, zeroDrop), pos, end), ':')
  {
    var t := Tokens(o, zeroDrop);
    SideIsJoined(o, zeroDrop, 0, pos);
    SideIsJoined(o, zeroDrop, end, |o|);
    GapIsJoined(Side(t[0..pos]), Side(t[end..|o|]));
  }

  lemma SideIsJoined(o: seq<nat>, zeroDrop: bool, from: nat, to: nat)
    requires Fits(o) && from <= to <= |o|
    ensures Format(o[from..to], zeroDrop) == Join(Side(Tokens(o, zeroDrop)[from..to]), ':')
  {
    assert Tokens(o[from..to], zeroDrop) == Tokens(o, zeroDrop)[from..to];
  }

  lemma GapIsJoined(a: seq<string>, b: seq<string>)
    requires a != [] && b != []
    ensures Join(a + [""] + b, ':') == Join(a, ':') + "::" + Join(b, ':')
  {
    JoinAppend(a, [""] + b, ':');
    assert a + [""] + b == a + ([""] + b);
    assert ([""] + b)[1..] == b;
    assert Join([""] + b, ':') == [':'] + Join(b, ':');
    assert Join(a, ':') + [':'] + ([':'] + Join(b, ':')) == Join(a, ':') + "::" + Join(b, ':');
  }

  // ---------------------------------------------------------------- reading the pieces

  lemma {:induction false} SidesOfTokens(t: seq<string>, o: seq<nat>, rest: seq<string>, side: nat)
    requires Spells(t, o) && side <= 1 && Sides(rest, side).Some?
    ensures Sides(t + rest, side) ==
            if side == 0 then Onto(o, [], Sides(rest, side)) else Onto([], o, Sides(rest, side))
  {
    if t == [] {
      assert t + rest == rest;
      OntoNothing(Sides(rest, side));
      assert o == [];
    } else {
      assert (t + rest)[1..] == t[1..] + rest;
      assert Reads(t[0], o[0], 16);
      SidesOfTokens(t[1..], o[1..], rest, side);
      assert [o[0]] + o[1..] == o;
      var p := Sides(rest, side).value;
      assert [o[0]] + (o[1..] + p.0) == o + p.0 && [o[0]] + (o[1..] + p.1) == o + p.1;
    }
  }

  lemma SidesOfAll(t: seq<string>, o: seq<nat>, side: nat)
    requires Spells(t, o) && side <= 1
    ensures Sides(t, side) == Some(if side == 0 then (o, []) else ([], o))
  {
    SidesOfTokens(t, o, [], side);
    assert t + [] == t;
    var none := Sides([], side);
    assert Onto(o, [], none) == Some((o, [])) && Onto([], o, none) == Some(([], o)) by {
      assert o + none.value.0 == o && o + none.value.1 == o;
      assert [] + none.value.0 == [] && [] + none.value.1 == [];
    }
  }

  lemma SidesOfGap(t: seq<string>, a: seq<nat>, u: seq<string>, b: seq<nat>)
    requires Spells(t, a) && Spells(u, b)
    ensures Sides(Side(t) + [""] + Side(u), 0) == Some((a, b))
  {
    assert Sides(Side(u), 1) == Some(([], b)) by {
      if u != [] {
        SidesOfAll(u, b, 1);
      } else {
        assert Sides([""], 1) == Sides([""][1..], 1);
      }
    }
    var rest := [""] + Side(u);
    assert rest[1..] == Side(u);
    assert Sides(rest, 0) == Some(([], b));
    assert Side(t) + [""] + Side(u) == Side(t) + rest;
    if t != [] {
      SidesOfTokens(t, a, rest, 0);
      assert a + [] == a && [] + b == b;
    } else {
      assert ([""] + rest)[1..] == rest;
      assert Sides(rest, 1) == Sides(Side(u), 1);
      assert a == [];
    }
  }

  lemma GapCount(t: seq<string>, u: seq<string>)
    requires Plain(t, ':') && Plain(u, ':')
    ensures CountDouble(Join(Side(t) + [""] + Side(u), ':'), ':') == 1
  {
    GapIsJoined(Side(t), Side(u));
    NoDoubles(u, ':');
    var tail := Join(Side(u), ':');
    assert CountDouble(tail, ':') == 0;
    if t == [] {
      assert (Join([""], ':') + "::" + tail)[2..] == tail;
    } else {
      OneDouble(t, tail, ':');
    }
  }

  lemma SpellsPlain(t: seq<string>, o: seq<nat>)
    requires Spells(t, o)
    ensures Plain(t, ':') && Free(t, ':') && Free(t, '.')
  {
    forall i | 0 <= i < |t| ensures t[i] != "" && ':' !in t[i] && '.' !in t[i] {
      assert Reads(t[i], o[i], 16);
    }
  }

  lemma GroupsFromSides(addr: string, segs: seq<string>, a: seq<nat>, b: seq<nat>)
    requires Split(addr, ':') == segs && CountDouble(addr, ':') <= 1 && 3 <= |segs| <= 8
    requires Sides(segs, 0) == Some((a, b)) && |a| + |b| <= 8
    ensures ParseGroups(addr) == Some(a + seq(8 - |a| - |b|, _ => 0) + b)
  {
  }

  lemma GapReads(t: seq<string>, a: seq<nat>, u: seq<string>, b: seq<nat>)
    requires Spells(t, a) && Spells(u, b) && |t| + |u| <= 6
    ensures ParseGroups(Join(Side(t) + [""] + Side(u), ':')) == Some(a + seq(8 - |a| - |b|, _ => 0) + b)
  {
    SpellsPlain(t, a);
    SpellsPlain(u, b);
    var segs := Side(t) + [""] + Side(u);
    SplitJoin(segs, ':');
    GapCount(t, u);
    SidesOfGap(t, a, u, b);
    GroupsFromSides(Join(segs, ':'), segs, a, b);
  }

  /** Three to eight groups without a gap are read too; what is missing counts as zeros at the end. */
  lemma FewGroupsRead(t: seq<string>, o: seq<nat>)
    requires 3 <= |t| <= 8 && Spells(t, o)
    ensures ParseGroups(Join(t, ':')) == Some(o + seq(8 - |o|, _ => 0))
  {
    SpellsPlain(t, o);
    SplitJoin(t, ':');
    NoDoubles(t, ':');
    SidesOfAll(t, o, 0);
    GroupsFromSides(Join(t, ':'), t, o, []);
    assert o + seq(8 - |o|, _ => 0) + [] == o + seq(8 - |o|, _ => 0);
  }

  lemma JoinThree(a: string, b: string, c: string)
    ensures Join([a, b, c], ':') == a + ":" + b + ":" + c
  {
    assert [a, b, c][1..] == [b, c] && [b, c][1..] == [c];
    assert Join([b, c], ':') == b + [':'] + c;
  }

  lemma DigitsSpell()
    ensures Spells(["1", "2", "3"], [1, 2, 3])
  {
    OneDigit(1, 16);
    OneDigit(2, 16);
    OneDigit(3, 16);
  }

  /** A text of three groups without a gap is an address. */
  lemma ThreeGroupsRead()
    ensures ParseGroups("1:2:3") == Some([1, 2, 3] + [0, 0, 0, 0, 0])
  {
    JoinThree("1", "2", "3");
    DigitsSpell();
    FewGroupsRead(["1", "2", "3"], [1, 2, 3]);
    assert "1" + ":" + "2" + ":" + "3" == "1:2:3";
    assert seq(8 - 3, _ => 0) == [0, 0, 0, 0, 0];
  }

  lemma WholeReads(t: seq<string>, o: seq<nat>)
    requires |t| == 8 && Spells(t, o)
    ensures ParseGroups(Join(t, ':')) == Some(o)
  {
    FewGroupsRead(t, o);
    assert o + seq(0, _ => 0) == o;
  }

  lemma PiecesWithGapRead(t: seq<string>, o: seq<nat>, pos: nat, end: nat)
    requires |t| == 8 && Spells(t, o) && pos + 2 <= end && ZeroAt(o, pos, end - pos)
    ensures ParseGroups(Join(Gapped(t, pos, end), ':')) == Some(o)
  {
    SpellsSlice(t, o, 0, pos);
    SpellsSlice(t, o, end, 8);
    GapReads(t[0..pos], o[0..pos], t[end..8], o[end..8]);
    FillGap(o, pos, end);
  }

  /** Reading the pieces of eight groups, with any droppable section dropped. */
  lemma PiecesRead(t: seq<string>, o: seq<nat>, cut: Cut)
    requires |t| == 8 && Spells(t, o) && Droppable(o, cut)
    ensures ParseGroups(Join(Pieces(t, cut), ':')) == Some(o)
  {
    var pieces := Pieces(t, cut);
    if cut.None? {
      assert pieces == t;
      WholeReads(t, o);
    } else {
      assert pieces == Gapped(t, cut.value.0, cut.value.0 + cut.value.1);
      PiecesWithGapRead(t, o, cut.value.0, cut.value.0 + cut.value.1);
    }
  }

  lemma SpellsSlice(t: seq<string>, o: seq<nat>, from: nat, to: nat)
    requires Spells(t, o) && from <= to <= |o|
    ensures Spells(t[from..to], o[from..to])
  {
    forall i | 0 <= i < to - from ensures Reads(t[from..to][i], o[from..to][i], 16) {
      assert Reads(t[from + i], o[from + i], 16);
    }
  }

  lemma FillGap(o: seq<nat>, pos: nat, end: nat)
    requires |o| == 8 && pos <= end <= 8 && ZeroAt(o, pos, end - pos)
    ensures o[0..pos] + seq(8 - |o[0..pos]| - |o[end..8]|, _ => 0) + o[end..8] == o
  {
  }

  // ---------------------------------------------------------------- mixed notation

  /** The pieces before the last two groups, when the cut leaves those alone. */
  function Head(t: seq<string>, cut: Cut): (r: seq<string>)
    requires |t| == 6 && Inside(6, cut)
    ensures r != []
  {
    if cut.None? then t
    else if cut.value.0 + cut.value.1 == 6 then Side(t[0..cut.value.0]) + [""]
    else Side(t[0..cut.value.0]) + [""] + t[cut.value.0 + cut.value.1..6]
  }

  lemma PiecesOfHead(t: seq<string>, last: seq<string>, cut: Cut)
    requires |t| == 6 && |last| == 2 && Inside(6, cut)
    ensures Pieces(t + last, cut) == Head(t, cut) + last
  {
    if cut.Some? {
      var end := cut.value.0 + cut.value.1;
      assert (t + last)[0..cut.value.0] == t[0..cut.value.0];
      assert (t + last)[end..8] == t[end..6] + last;
    }
  }

  lemma HeadIsFree(t: seq<string>, o: seq<nat>, cut: Cut)
    requires |t| == 6 && Spells(t, o) && Inside(6, cut)
    ensures Free(Head(t, cut), ':') && Free(Head(t, cut), '.')
  {
    SpellsPlain(t, o);
  }

  /** Ones are not zeros: the placeholders are never dropped. */
  lemma PlaceholdersStay(o: seq<nat>, cut: Cut)
    requires |o| == 6 && Droppable(o + [1, 1], cut)
    ensures Inside(6, cut) && Droppable(o + [0, 0], cut)
  {
    if cut.Some? {
      var pos, end := cut.value.0, cut.value.0 + cut.value.1;
      assert (o + [1, 1])[6] == 1 && (o + [1, 1])[7] == 1;
      assert end <= 6;
      forall i | pos <= i < end ensures (o + [0, 0])[i] == 0 {
        assert (o + [1, 1])[i] == 0;
      }
    }
  }

  /** What finalize leaves of the placeholders' text: the head, then the quad. */
  lemma FinalizedIsJoined(head: seq<string>, last: seq<string>, v: Address)
    requires head != [] && |last| == 2 && Free(head, ':') && Free(last, ':')
    ensures Finalize(Join(head + last, ':'), v) == Join(head + [QuadText(v[12..])], ':')
  {
    RSplitJoin(head, last, ':');
    JoinAppend(head, [QuadText(v[12..])], ':');
  }

  /** Reading a head with a quad: the quad is cut off and two zero groups stand in for it. */
  lemma MixedReads(t: seq<string>, o: seq<nat>, cut: Cut, quad: seq<Byte>)
    requires |t| == 6 && Spells(t, o) && Inside(6, cut) && Droppable(o + [0, 0], cut) && |quad| == 4
    ensures IsGroups(o + [0, 0])
    ensures Parse(Join(Head(t, cut) + [QuadText(quad)], ':')) == Some(Raw(o + [0, 0])[..12] + quad)
  {
    var head, q := Head(t, cut), QuadText(quad);
    HeadIsFree(t, o, cut);
    QuadReads(quad);
    QuadIsCutOff(head, q);
    ZerosStandIn(t, o, cut);
  }

  lemma QuadIsCutOff(head: seq<string>, q: string)
    requires head != [] && Free(head, ':') && Free(head, '.') && '.' in q && ':' !in q
    ensures var text := Join(head + [q], ':');
      '.' in text && RSplit(text, ':', 1) == [Join(head, ':'), q] && '.' !in Join(head, ':')
  {
    RSplitJoin(head, [q], ':');
    InJoin(head, ':', '.');
    InJoin(head + [q], ':', '.');
    assert (head + [q])[|head|] == q;
  }

  lemma ZerosStandIn(t: seq<string>, o: seq<nat>, cut: Cut)
    requires |t| == 6 && Spells(t, o) && Inside(6, cut) && Droppable(o + [0, 0], cut)
    ensures ParseGroups(Join(Head(t, cut), ':') + ":0:0") == Some(o + [0, 0])
  {
    var zeros := ["0", "0"];
    JoinAppend(Head(t, cut), zeros, ':');
    assert zeros[1..] == ["0"] && Join(zeros, ':') == "0:0";
    assert Join(Head(t, cut), ':') + [':'] + "0:0" == Join(Head(t, cut), ':') + ":0:0";
    PiecesOfHead(t, zeros, cut);
    SpellsZeros(t, o);
    PiecesRead(t + zeros, o + [0, 0], cut);
  }

  lemma SpellsZeros(t: seq<string>, o: seq<nat>)
    requires Spells(t, o)
    ensures Spells(t + ["0", "0"], o + [0, 0])
  {
    NumeralReads(0, 16);
    assert Numeral(0, 16) == "0";
  }

  // ---------------------------------------------------------------- the round trip

  lemma PlainRoundTrip(v: Address, zeroDrop: bool, cut: Cut)
    requires Droppable(Groups(v), cut)
    ensures Parse(Body(Groups(v), zeroDrop, cut)) == Some(v)
  {
    var o := Groups(v);
    var t := Tokens(o, zeroDrop);
    TokensSpell(o, zeroDrop);
    BodyIsJoined(o, zeroDrop, cut);
    PiecesRead(t, o, cut);
    NoDots(t, o, cut);
    RawGroups(v);
  }

  lemma NoDots(t: seq<string>, o: seq<nat>, cut: Cut)
    requires Spells(t, o) && Inside(|t|, cut)
    ensures '.' !in Join(Pieces(t, cut), ':')
  {
    SpellsPlain(t, o);
    InJoin(Pieces(t, cut), ':', '.');
  }

  lemma MixedRoundTrip(v: Address, zeroDrop: bool, cut: Cut)
    requires Droppable(Listed(v, true), cut)
    ensures Parse(Text(v, zeroDrop, true, cut)) == Some(v)
  {
    var o := Groups(v)[..6];
    var t := Tokens(o, zeroDrop);
    var last := Tokens([1, 1], zeroDrop);
    PlaceholdersStay(o, cut);
    TokensSpell(o, zeroDrop);
    TokensSpell([1, 1], zeroDrop);
    assert Tokens(o + [1, 1], zeroDrop) == t + last;
    BodyIsJoined(o + [1, 1], zeroDrop, cut);
    PiecesOfHead(t, last, cut);
    HeadIsFree(t, o, cut);
    SpellsPlain(last, [1, 1]);
    FinalizedIsJoined(Head(t, cut), last, v);
    MixedReads(t, o, cut, v[12..]);
    RawHead(v);
  }

  lemma RawPrefix(o: seq<nat>, p: seq<nat>)
    requires IsGroups(o) && IsGroups(p) && o[..6] == p[..6]
    ensures Raw(o)[..12] == Raw(p)[..12]
  {
    forall i | 0 <= i < 12 ensures RawByte(o, i) == RawByte(p, i) {
      assert o[i / 2] == o[..6][i / 2] && p[i / 2] == p[..6][i / 2];
    }
  }

  lemma RawHead(v: Address)
    ensures Raw(Groups(v)[..6] + [0, 0])[..12] + v[12..] == v
  {
    RawGroups(v);
    RawPrefix(Groups(v)[..6] + [0, 0], Groups(v));
  }

  /** Whatever droppable section is dropped, or none: the text reads back as the address. */
  lemma RoundTrip(v: Address, zeroDrop: bool, mixed: bool, cut: Cut)
    requires Droppable(Listed(v, mixed), cut)
    ensures Parse(Text(v, zeroDrop, mixed, cut)) == Some(v)
  {
    if mixed {
      MixedRoundTrip(v, zeroDrop, cut);
    } else {
      PlainRoundTrip(v, zeroDrop, cut);
    }
  }

  lemma OneToken(n: nat, zeroDrop: bool)
    requires n < 0x1_0000
    ensures Format([n], zeroDrop) == Token(n, zeroDrop) && Format([], zeroDrop) == ""
  {
    assert Tokens([n], zeroDrop) == [Token(n, zeroDrop)] && Tokens([], zeroDrop) == [];
  }

  lemma OneAtEnd(o: seq<nat>, zeroDrop: bool)
    requires o == [0, 0, 0, 0, 0, 0, 0, 1]
    ensures Droppable(o, Some((0, 7))) && Body(o, zeroDrop, Some((0, 7))) == "::" + Token(1, zeroDrop)
  {
    assert o[0..0] == [] && o[7..8] == [1];
    OneToken(1, zeroDrop);
  }

  /** The loopback address with its zeros dropped, and with nothing dropped but the section. */
  lemma LoopbackLooks(v: Address)
    requires v == seq(15, _ => 0) + [1]
    ensures Droppable(Listed(v, false), Some((0, 7))) && Text(v, true, false, Some((0, 7))) == "::1"
    ensures Text(v, false, false, Some((0, 7))) == "::0001"
  {
    assert Listed(v, false) == [0, 0, 0, 0, 0, 0, 0, 1];
    OneAtEnd(Listed(v, false), true);
    OneAtEnd(Listed(v, false), false);
    assert Token(1, true) == "1";
    FourOfOne();
  }

  lemma FourOfOne()
    ensures FourDigits(1) == "0001"
  {
    assert Limit(4) == 16 * Limit(3) && Limit(2) == 16 * Limit(1);
    assert Padded(0, 1) == "0" && Padded(0, 2) == "00" && Padded(0, 3) == "000";
  }

  lemma MappedPrefix(v: Address)
    ensures IsIpv4Mapped(v) <==> v[..12] == [0, 0, 0, 0, 0, 0, 0, 0, 0, 0, 255, 255]
  {
    assert |v[..12]| == 12 && forall i :: 0 <= i < 12 ==> v[..12][i] == v[i];
  }

  /** to_str, and what its text is worth: the constructor gives the address back. */
  method ToStr(v: Address, zeroDrop: bool, sectionDrop: bool, ipv4: Option<bool>)
    returns (text: string, ghost mixed: bool, ghost cut: Cut)
    ensures mixed <==> ipv4 == Some(true) || (ipv4 == None && v[..12] == [0, 0, 0, 0, 0, 0, 0, 0, 0, 0, 255, 255])
    ensures if sectionDrop then LeftmostLongest(Listed(v, mixed), cut) else cut.None?
    ensures text == Text(v, zeroDrop, mixed, cut)
    ensures Parse(text) == Some(v)
  {
    var o := Groups(v);
    MappedPrefix(v);
    var quad := (ipv4.None? && IsIpv4Mapped(v)) || ipv4 == Some(true);
    mixed := quad;
    if quad {
      o := o[..6] + [1, 1];
    }
    var drop: Cut := None;
    if sectionDrop {
      drop := FindDropped(o);
    }
    cut := drop;
    text := Body(o, zeroDrop, drop);
    if quad {
      text := Finalize(text, v);
    }
    RoundTrip(v, zeroDrop, mixed, cut);
  }
}
