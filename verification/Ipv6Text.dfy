/**
  IPv6 addresses as text: IPAddr6.to_str and the textual constructor of pox/lib/addresses.py
  (RFC 4291, section 2.2; RFC 5952, section 4).
*/
module Ipv6Text {
  import opened Wrappers
  import opened TextPieces
  import opened Numerals

  type Byte = n: nat | n < 256

  /** The raw value: sixteen bytes. */
  type Address = s: seq<Byte> | |s| == 16 witness seq(16, _ => 0)

  predicate IsGroups(o: seq<nat>) {
    |o| == 8 && forall i :: 0 <= i < 8 ==> o[i] < 0x1_0000
  }

  function GroupAt(v: Address, i: nat): (n: nat)
    requires i < 8
    ensures n < 0x1_0000
  {
    var hi: nat, lo: nat := v[2 * i], v[2 * i + 1];
    hi * 256 + lo
  }

  function Groups(v: Address): (o: seq<nat>)
    ensures IsGroups(o)
  {
    seq(8, i requires 0 <= i < 8 => GroupAt(v, i))
  }

  function Raw(o: seq<nat>): Address
    requires IsGroups(o)
  {
    seq(16, i requires 0 <= i < 16 => RawByte(o, i))
  }

  function RawByte(o: seq<nat>, i: nat): Byte
    requires IsGroups(o) && i < 16
  {
    if i % 2 == 0 then o[i / 2] / 256 else o[i / 2] % 256
  }

  lemma RawGroups(v: Address)
    ensures Raw(Groups(v)) == v
  {
    forall i | 0 <= i < 16 ensures Raw(Groups(v))[i] == v[i] {
      assert Groups(v)[i / 2] == GroupAt(v, i / 2);
      TwoBytes(v[2 * (i / 2)], v[2 * (i / 2) + 1]);
    }
  }

  lemma TwoBytes(hi: nat, lo: nat)
    requires lo < 256
    ensures var group: nat := hi * 256 + lo; group / 256 == hi && group % 256 == lo
  {
  }

  // ---------------------------------------------------------------- dotted quads

  /** inet_ntoa. */
  function QuadText(q: seq<Byte>): string
    requires |q| == 4
  {
    Join([Numeral(q[0], 10), Numeral(q[1], 10), Numeral(q[2], 10), Numeral(q[3], 10)], '.')
  }

  function QuadNumber(s: string): Option<Byte> {
    var v := Value(s, 10);
    if v.None? || v.value > 255 || (|s| > 1 && s[0] == '0') then None else Some(v.value)
  }

  /** IPAddr of a text, as raw bytes: text of length four is taken for the bytes themselves. */
  function ParseQuad(s: string): (r: Option<seq<Byte>>)
    ensures r.Some? ==> |r.value| == 4
  {
    if |s| == 4 then
      if forall i :: 0 <= i < 4 ==> s[i] as nat < 256
      then Some([s[0] as nat, s[1] as nat, s[2] as nat, s[3] as nat]) else None
    else
      var parts := Split(s, '.');
      if |parts| != 4 then None
      else
        var a, b, c, d := QuadNumber(parts[0]), QuadNumber(parts[1]), QuadNumber(parts[2]), QuadNumber(parts[3]);
        if a.None? || b.None? || c.None? || d.None? then None
        else Some([a.value, b.value, c.value, d.value])
  }

  /** Four bytes as a text of four characters read as themselves. */
  lemma RawQuadReads(s: string, q: seq<Byte>)
    requires |s| == 4 == |q| && forall i :: 0 <= i < 4 ==> s[i] as nat == q[i]
    ensures ParseQuad(s) == Some(q)
  {
    assert [s[0] as nat, s[1] as nat, s[2] as nat, s[3] as nat] == q;
  }

  lemma QuadNumberReads(n: Byte)
    ensures QuadNumber(Numeral(n, 10)) == Some(n)
    ensures '.' !in Numeral(n, 10) && ':' !in Numeral(n, 10)
  {
    NumeralReads(n, 10);
    if n > 0 {
      NoLeadingZero(n, 10);
    }
  }

  lemma QuadLength(a: string, b: string, c: string, d: string)
    requires a != "" && b != "" && c != "" && d != ""
    ensures |Join([a, b, c, d], '.')| >= 7 && '.' in Join([a, b, c, d], '.')
  {
    assert [a, b, c, d][1..] == [b, c, d] && [b, c, d][1..] == [c, d] && [c, d][1..] == [d];
    assert Join([a, b, c, d], '.') == a + ['.'] + Join([b, c, d], '.');
    assert Join([b, c, d], '.') == b + ['.'] + Join([c, d], '.');
    assert Join([c, d], '.') == c + ['.'] + Join([d], '.');
    assert Join([a, b, c, d], '.')[|a|] == '.';
  }

  lemma QuadReads(q: seq<Byte>)
    requires |q| == 4
    ensures ParseQuad(QuadText(q)) == Some(q) && '.' in QuadText(q) && ':' !in QuadText(q)
  {
    var parts := [Numeral(q[0], 10), Numeral(q[1], 10), Numeral(q[2], 10), Numeral(q[3], 10)];
    QuadNumberReads(q[0]);
    QuadNumberReads(q[1]);
    QuadNumberReads(q[2]);
    QuadNumberReads(q[3]);
    QuadLength(parts[0], parts[1], parts[2], parts[3]);
    SplitJoin(parts, '.');
    InJoin(parts, '.', ':');
    assert [q[0], q[1], q[2], q[3]] == q;
  }

  // ---------------------------------------------------------------- reading

  /** The two sides of the dropped section, from the given side on. */
  function Sides(segs: seq<string>, side: nat): Option<(seq<nat>, seq<nat>)> {
    if segs == [] then Some(([], []))
    else if segs[0] == "" then Sides(segs[1..], 1)
    else
      var s, rest := Value(segs[0], 16), Sides(segs[1..], side);
      if s.None? || s.value > 0xffff || rest.None? then None
      else if side == 0 then Some(([s.value] + rest.value.0, rest.value.1))
      else Some((rest.value.0, [s.value] + rest.value.1))
  }

  lemma {:induction false} SidesFit(segs: seq<string>, side: nat)
    requires Sides(segs, side).Some?
    ensures var p := Sides(segs, side).value;
      && |p.0| + |p.1| <= |segs|
      && (forall i :: 0 <= i < |p.0| ==> p.0[i] < 0x1_0000) && (forall i :: 0 <= i < |p.1| ==> p.1[i] < 0x1_0000)
  {
    if segs != [] {
      SidesFit(segs[1..], if segs[0] == "" then 1 else side);
    }
  }

  /** The groups of an address text without a dotted quad. */
  function ParseGroups(addr: string): (r: Option<seq<nat>>)
    ensures r.Some? ==> IsGroups(r.value)
  {
    var segs := Split(addr, ':');
    if CountDouble(addr, ':') > 1 || |segs| < 3 || |segs| > 8 then None
    else
      var p := Sides(segs, 0);
      if p.None? then None
      else
        SidesFit(segs, 0);
        Some(p.value.0 + seq(8 - |p.value.0| - |p.value.1|, _ => 0) + p.value.1)
  }

  /** The textual constructor; None stands for its exceptions. */
  function Parse(text: string): Option<Address> {
    if '.' !in text then
      var o := ParseGroups(text);
      if o.None? then None else Some(Raw(o.value))
    else
      var cut := RSplit(text, ':', 1);
      if |cut| != 2 || '.' in cut[0] then None
      else
        var o, quad := ParseGroups(cut[0] + ":0:0"), ParseQuad(cut[1]);
        if o.None? || quad.None? then None else Some(Raw(o.value)[..12] + quad.value)
  }

  /** Both sides so far, and what the rest adds to them. */
  function Onto(left: seq<nat>, right: seq<nat>, rest: Option<(seq<nat>, seq<nat>)>): Option<(seq<nat>, seq<nat>)> {
    if rest.None? then None else Some((left + rest.value.0, right + rest.value.1))
  }

  lemma OntoNothing(rest: Option<(seq<nat>, seq<nat>)>)
    ensures Onto([], [], rest) == rest
  {
    if rest.Some? {
      assert [] + rest.value.0 == rest.value.0 && [] + rest.value.1 == rest.value.1;
    }
  }

  lemma OntoOne(left: seq<nat>, right: seq<nat>, n: nat, rest: Option<(seq<nat>, seq<nat>)>)
    requires rest.Some?
    ensures Onto(left, right, Some(([n] + rest.value.0, rest.value.1))) == Onto(left + [n], right, rest)
    ensures Onto(left, right, Some((rest.value.0, [n] + rest.value.1))) == Onto(left, right + [n], rest)
  {
    assert left + ([n] + rest.value.0) == left + [n] + rest.value.0;
    assert right + ([n] + rest.value.1) == right + [n] + rest.value.1;
  }

  /** The constructor's loop over the segments. */
  method ReadSides(segs: seq<string>) returns (r: Option<(seq<nat>, seq<nat>)>)
    ensures r == Sides(segs, 0)
  {
    var left: seq<nat>, right: seq<nat>, side := [], [], 0;
    var i := 0;
    assert segs[0..] == segs;
    OntoNothing(Sides(segs, 0));
    while i < |segs|
      invariant 0 <= i <= |segs|
      invariant Sides(segs, 0) == Onto(left, right, Sides(segs[i..], side))
    {
      var s := segs[i];
      assert segs[i..][1..] == segs[i + 1..];
      if |s| == 0 {
        side := 1;
      } else {
        var n := Value(s, 16);
        if n.None? || n.value > 0xffff {
          return None;
        }
        ghost var rest := Sides(segs[i + 1..], side);
        if rest.Some? {
          OntoOne(left, right, n.value, rest);
        }
        if side == 0 {
          left := left + [n.value];
        } else {
          right := right + [n.value];
        }
      }
      i := i + 1;
    }
    assert left + [] == left && right + [] == right;
    return Some((left, right));
  }
}
