/** The unpackers POX reads a control connection with (pox/openflow/util.py, libopenflow_01.py),
    and what they make of the loop that reads it. */
module Unpackers {
  import opened Wrappers
  import opened WireBytes
  import opened StreamReader
  import FlowModCodec

  const OFPT_VENDOR: bv8 := 4
  const OFPT_FLOW_MOD: bv8 := 14
  const TYPES: nat := 22

  /** A message object.  Of the types with a fixed layout, the fields are kept as their bytes. */
  datatype Message<O> =
    | Plain(header: FlowModCodec.Header, body: Bytes)
    | Vendor(header: FlowModCodec.Header, vendor: bv32, data: Bytes)
    | Mod(mod: FlowModCodec.FlowMod)
    | Other(other: O)

  /** A message of one size, or a fixed part followed by data. */
  datatype Layout = Exactly(size: nat) | AtLeast(size: nat)
  {
    predicate Fits(length: nat) {
      if Exactly? then length == size else length >= size
    }
  }

  function LayoutOf(typ: bv8): (r: Option<Layout>)
    ensures r.Some? ==> r.value.size >= 8 && typ != OFPT_VENDOR && typ != OFPT_FLOW_MOD
  {
    match typ as nat
    case 0 => Some(Exactly(8))
    case 1 => Some(AtLeast(12))
    case 2 => Some(AtLeast(8))
    case 3 => Some(AtLeast(8))
    case 5 => Some(Exactly(8))
    case 7 => Some(Exactly(8))
    case 8 => Some(Exactly(12))
    case 9 => Some(Exactly(12))
    case 10 => Some(AtLeast(18))
    case 11 => Some(Exactly(88))
    case 15 => Some(Exactly(32))
    case 18 => Some(Exactly(8))
    case 19 => Some(Exactly(8))
    case 20 => Some(Exactly(12))
    case _ => None
  }

  /** The classes that compare the length with their own. */
  function UnpackPlain<O>(layout: Layout, b: Bytes): Unpacked<Message<O>>
    requires |b| >= 8 && layout.size >= 8
  {
    if |b| < layout.size || |b| < Length(b) || !layout.Fits(Length(b)) then Raised
    else Unpacked(Length(b), Plain(FlowModCodec.GetHeader(b[0..8]), b[8..Length(b)]))
  }

  /** ofp_vendor_generic, which believes the length it reads. */
  function UnpackVendor<O>(b: Bytes): Unpacked<Message<O>>
    requires |b| >= 8
  {
    if |b| < 12 || |b| < Length(b) then Raised
    else
      var data := if Length(b) > 12 then b[12..Length(b)] else [];
      Unpacked(Length(b), Vendor(FlowModCodec.GetHeader(b[0..8]), Get32(b[8..12]), data))
  }

  function UnpackFlowMod<O>(b: Bytes): Unpacked<Message<O>> {
    var r := FlowModCodec.UnpackMod(b, 0);
    if r.Raised? then Raised else Unpacked(r.value.next, Mod(r.value.mod))
  }

  function Lift<O>(u: Unpacked<O>): Unpacked<Message<O>> {
    if u.Raised? then Raised else Unpacked(u.consumed, Other(u.msg))
  }

  /** The table of unpackers: those of the remaining types are a parameter. */
  function Unpack<O>(others: Bytes -> Unpacked<O>, b: Bytes): Unpacked<Message<O>> {
    if |b| < 8 then Raised
    else if LayoutOf(b[1]).Some? then UnpackPlain(LayoutOf(b[1]).value, b)
    else if b[1] == OFPT_VENDOR then UnpackVendor(b)
    else if b[1] == OFPT_FLOW_MOD then UnpackFlowMod(b)
    else if b[1] as nat >= TYPES then Raised
    else Lift(others(b))
  }

  function Pox<T, O>(others: Bytes -> Unpacked<O>, after: (T, Message<O>) -> T): Codec<T, Message<O>> {
    Codec((b: Bytes) => Unpack(others, b), after)
  }

  /** The remaining classes, like most, compare the length with their own, which is at least a
      header's: a complete message has one fate. */
  ghost predicate ChecksLength<O(!new)>(others: Bytes -> Unpacked<O>) {
    forall b: Bytes, more: Bytes {:trigger others(b + more)} :: |b| >= 8 && Length(b) <= |b| ==>
      others(b + more) == others(b) && (others(b).Unpacked? ==> others(b).consumed >= 8)
  }

  /** A vendor message shorter than the fields it is read into, with bytes behind it to read. */
  predicate ShortVendor(b: Bytes) {
    |b| >= 12 && b[0] == OFP_VERSION && b[1] == OFPT_VENDOR && Length(b) < 12
  }

  predicate EmptyVendor(b: Bytes) {
    ShortVendor(b) && Length(b) == 0
  }

  // ---------------------------------------------------------------- one message

  lemma OthersTake<O(!new)>(others: Bytes -> Unpacked<O>, b: Bytes)
    requires ChecksLength(others) && |b| >= 8 && Length(b) <= |b|
    requires others(b).Unpacked?
    ensures others(b).consumed >= 8
  {
    assert b + [] == b;
  }

  lemma SameLength(b: Bytes)
    requires |b| >= 8
    ensures FlowModCodec.HeaderLength(b[0..8]) == Length(b)
  {
    assert b[0..8][2..4] == b[2..4];
  }

  lemma FlowModTakes<O>(b: Bytes)
    requires |b| >= 8 && UnpackFlowMod<O>(b).Unpacked?
    ensures UnpackFlowMod<O>(b).consumed == Length(b) >= 72
  {
    FlowModCodec.ConsumesItsLength(b, 0);
    SameLength(b);
  }

  /** Nothing but a vendor message is taken that has no length. */
  lemma OnlyVendorsAreEmpty<T, O(!new)>(others: Bytes -> Unpacked<O>, after: (T, Message<O>) -> T, b: Bytes)
    requires ChecksLength(others)
    ensures Next(Pox(others, after), b).Take? && Length(b) == 0 <==> EmptyVendor(b)
  {
    var c := Pox(others, after);
    if Next(c, b).Take? && Length(b) == 0 {
      assert Unpack(others, b).Unpacked?;
      if b[1] == OFPT_FLOW_MOD {
        FlowModTakes<O>(b);
      } else if b[1] != OFPT_VENDOR && LayoutOf(b[1]).None? {
        OthersTake(others, b);
      }
    }
  }

  lemma SamePlain<O>(layout: Layout, b: Bytes, more: Bytes)
    requires |b| >= 8 && Length(b) <= |b| && layout.size >= 8
    ensures UnpackPlain<O>(layout, b + more) == UnpackPlain<O>(layout, b)
  {
    SameHeader(b, more);
    SliceOfFirst(b, more, 0, 8);
    if Length(b) >= 8 {
      SliceOfFirst(b, more, 8, Length(b));
    }
  }

  lemma SameVendor<O>(b: Bytes, more: Bytes)
    requires |b| >= 8 && Length(b) <= |b| && Length(b) >= 12
    ensures UnpackVendor<O>(b + more) == UnpackVendor<O>(b)
  {
    SameHeader(b, more);
    SliceOfFirst(b, more, 0, 8);
    SliceOfFirst(b, more, 8, 12);
    SliceOfFirst(b, more, 12, Length(b));
  }

  lemma SameFlowMod<O>(b: Bytes, more: Bytes)
    requires |b| >= 8 && Length(b) <= |b|
    ensures UnpackFlowMod<O>(b + more) == UnpackFlowMod<O>(b)
  {
    SameLength(b);
    if FlowModCodec.UnpackMod(b, 0).Done? || FlowModCodec.UnpackMod(b + more, 0).Done? {
      FlowModCodec.ModStays(b, more);
    }
  }

  /** A complete message is unpacked to the same whatever follows it, unless it is a vendor
      message shorter than its fields. */
  lemma SameUnpacked<O(!new)>(others: Bytes -> Unpacked<O>, b: Bytes, more: Bytes)
    requires ChecksLength(others) && |b| >= 8 && Length(b) <= |b|
    requires b[1] == OFPT_VENDOR ==> Length(b) >= 12
    ensures Unpack(others, b + more) == Unpack(others, b)
  {
    assert (b + more)[1] == b[1];
    if LayoutOf(b[1]).Some? {
      SamePlain<O>(LayoutOf(b[1]).value, b, more);
    } else if b[1] == OFPT_VENDOR {
      SameVendor<O>(b, more);
    } else if b[1] == OFPT_FLOW_MOD {
      SameFlowMod<O>(b, more);
    } else if (b[1] as nat) < TYPES {
      assert others(b + more) == others(b);
    }
  }

  lemma ShortVendorDropped<T, O(!new)>(others: Bytes -> Unpacked<O>, after: (T, Message<O>) -> T, b: Bytes)
    requires 8 <= |b| < 12 && b[1] == OFPT_VENDOR && Length(b) <= |b|
    ensures Next(Pox(others, after), b) == Drop
  {
  }

  lemma ShortVendorTaken<T, O>(others: Bytes -> Unpacked<O>, after: (T, Message<O>) -> T, b: Bytes)
    requires ShortVendor(b)
    ensures Next(Pox(others, after), b).Take?
  {
  }

  lemma ShortVendorIsUnsteady<T, O(!new)>(others: Bytes -> Unpacked<O>, after: (T, Message<O>) -> T, x: Bytes)
    requires ShortVendor(x)
    ensures !SteadyFront(Pox(others, after), x, RECV)
  {
    var m := Need(x);
    assert x[..m] + x[m..] == x && x[..12] + x[12..] == x;
    SameHeader(x[..m], x[m..]);
    SameHeader(x[..12], x[12..]);
    ShortVendorDropped(others, after, x[..m]);
    ShortVendorTaken(others, after, x[..12]);
    assert WeakAt(Pox(others, after), x, 12, RECV);
  }

  /** From its last byte on, a message that is no short vendor message has one fate. */
  lemma OneFate<T, O(!new)>(others: Bytes -> Unpacked<O>, after: (T, Message<O>) -> T, x: Bytes, n: nat)
    requires ChecksLength(others) && !ShortVendor(x) && Need(x) <= n <= |x|
    ensures Next(Pox(others, after), x[..n]) == Next(Pox(others, after), x[..Need(x)])
  {
    var b, more := x[..Need(x)], x[Need(x)..n];
    assert b + more == x[..n] && b + x[Need(x)..] == x;
    SameHeader(b, more);
    SameHeader(b, x[Need(x)..]);
    if !Acceptable(b) {
    } else if b[1] != OFPT_VENDOR || Length(b) >= 12 {
      SameUnpacked(others, b, more);
    } else {
      assert |x| < 12;
    }
  }

  /** A message in front has one fate exactly if it is no vendor message shorter than its fields. */
  lemma OnlyShortVendorsAreUnsteady<T, O(!new)>(others: Bytes -> Unpacked<O>, after: (T, Message<O>) -> T, x: Bytes)
    requires ChecksLength(others)
    ensures SteadyFront(Pox(others, after), x, RECV) <==> !ShortVendor(x)
  {
    if ShortVendor(x) {
      ShortVendorIsUnsteady(others, after, x);
    } else {
      forall n: nat | Need(x) <= n <= |x| ensures !WeakAt(Pox(others, after), x, n, RECV) {
        OneFate(others, after, x, n);
      }
    }
  }

  // ---------------------------------------------------------------- whole streams

  /** Some message boundary the loop reaches shows a message of this kind. */
  predicate Meets<T, M>(c: Codec<T, M>, kind: Bytes -> bool, x: Bytes)
    decreases |x|
  {
    kind(x) || (Next(c, x).Take? && Length(x) > 0 && Meets(c, kind, x[Length(x)..]))
  }

  lemma {:induction false} EmptyVendorsHang<T, O(!new)>(
      others: Bytes -> Unpacked<O>, after: (T, Message<O>) -> T, x: Bytes)
    requires ChecksLength(others)
    ensures ReachesEmpty(Pox(others, after), x) <==> Meets(Pox(others, after), EmptyVendor, x)
    decreases |x|
  {
    OnlyVendorsAreEmpty(others, after, x);
    if Next(Pox(others, after), x).Take? && Length(x) > 0 {
      EmptyVendorsHang(others, after, x[Length(x)..]);
    }
  }

  /** In one read of it all the front is taken as it is taken byte by byte. */
  lemma TakenAsItComes<T, O(!new)>(others: Bytes -> Unpacked<O>, after: (T, Message<O>) -> T, x: Bytes)
    requires ChecksLength(others) && !ShortVendor(x)
    ensures Next(Pox(others, after), x).Take? && Length(x) > 0 <==> TakesFront(Pox(others, after), x)
  {
    WaitsForNeed(Pox(others, after), x);
    assert x[..|x|] == x;
    if |x| >= Need(x) {
      OneFate(others, after, x, |x|);
    }
  }

  lemma {:induction false} ShortVendorsUnsettle<T, O(!new)>(
      others: Bytes -> Unpacked<O>, after: (T, Message<O>) -> T, x: Bytes)
    requires ChecksLength(others)
    ensures Steady(Pox(others, after), x, RECV) <==> !Meets(Pox(others, after), ShortVendor, x)
    decreases |x|
  {
    OnlyShortVendorsAreUnsteady(others, after, x);
    if !ShortVendor(x) {
      TakenAsItComes(others, after, x);
      if Next(Pox(others, after), x).Take? && Length(x) > 0 {
        ShortVendorsUnsettle(others, after, x[Length(x)..]);
      }
    }
  }

  /** A read of these bytes ends exactly if it reaches no vendor message whose header gives it
      no length. */
  lemma ReadEndsUnlessEmptyVendor<T(!new), O(!new)>(
      others: Bytes -> Unpacked<O>, after: (T, Message<O>) -> T, x: Bytes, table: T, log: seq<(T, Message<O>)>)
    requires ChecksLength(others)
    ensures Ends(Pox(others, after), Turning(x, table, log)) <==> !Meets(Pox(others, after), EmptyVendor, x)
  {
    LoopEndsUnlessEmpty(Pox(others, after), x, table, log);
    EmptyVendorsHang(others, after, x);
  }

  /** The network may cut the stream anyhow exactly if it reaches no vendor message shorter than
      its fields. */
  lemma CutsAreHarmlessUnlessShortVendor<T, O(!new)>(
      others: Bytes -> Unpacked<O>, after: (T, Message<O>) -> T, x: Bytes, table: T)
    requires ChecksLength(others)
    ensures SurvivesCuts(Pox(others, after), x, table, RECV) <==> !Meets(Pox(others, after), ShortVendor, x)
  {
    CutsAreHarmlessWhenSteady(Pox(others, after), x, table, RECV);
    ShortVendorsUnsettle(others, after, x);
  }

  /** Twelve bytes that keep the loop turning for ever. */
  lemma ReadNeverEnds<T(!new), O(!new)>(others: Bytes -> Unpacked<O>, after: (T, Message<O>) -> T, table: T)
    ensures !Ends(Pox(others, after), Turning([1, 4, 0, 0, 0, 0, 0, 0, 0, 0, 0, 0], table, []))
  {
    var x: Bytes := [1, 4, 0, 0, 0, 0, 0, 0, 0, 0, 0, 0];
    assert x[2..4] == [0, 0];
    assert Next(Pox(others, after), x).Take?;
    LoopEndsUnlessEmpty(Pox(others, after), x, table, []);
  }

  lemma CutAtEight<T, M>(c: Codec<T, M>, a: Bytes, b: Bytes, table: T)
    requires |a| == 8 && |b| == 8 && a[2..4] == [0, 8] && b[2..4] == [0, 8]
    requires Next(c, a).Drop? && Next(c, a + b).Take? && Next(c, b).Take?
    ensures Feed(c, Feed(c, Fresh(table), a), b).status == Dropped
    ensures Feed(c, Fresh(table), a + b).status == Open
  {
    var start: State<T, M> := Fresh(table);
    assert start.buf + a == a && start.buf + (a + b) == a + b && (a + b)[8..] == b && b[8..] == [];
    SameHeader(a, b);
    OneTurn(c, a, table, []);
    assert Length(a) == 8 && Length(b) == 8;
    OneTurn(c, a + b, table, []);
    var msg := Next(c, a + b).msg;
    OneTurn(c, b, c.after(table, msg), [] + [(table, msg)]);
  }

  /** A vendor message of eight bytes: the connection is dropped if it arrives alone, and goes
      on if the next message arrives with it. */
  lemma CutDecides<T(!new), O(!new)>(others: Bytes -> Unpacked<O>, after: (T, Message<O>) -> T, table: T)
    ensures var c: Codec<T, Message<O>> := Pox(others, after);
      var vendor, hello: Bytes := [1, 4, 0, 8, 0, 0, 0, 1], [1, 0, 0, 8, 0, 0, 0, 2];
      && Feed(c, Feed(c, Fresh(table), vendor), hello).status == Dropped
      && Feed(c, Fresh(table), vendor + hello).status == Open
  {
    var c: Codec<T, Message<O>> := Pox(others, after);
    var vendor, hello: Bytes := [1, 4, 0, 8, 0, 0, 0, 1], [1, 0, 0, 8, 0, 0, 0, 2];
    assert vendor[2..4] == [0, 8] && hello[2..4] == [0, 8];
    SameHeader(vendor, hello);
    ShortVendorTaken(others, after, vendor + hello);
    assert Next(c, vendor).Drop?;
    assert Next(c, hello).Take?;
    CutAtEight(c, vendor, hello, table);
  }

  // ---------------------------------------------------------------- messages that are packed

  /** len(message). */
  function Size<O>(m: Message<O>): nat {
    match m
    case Plain(_, body) => 8 + |body|
    case Vendor(_, _, data) => 12 + |data|
    case Mod(mod) => FlowModCodec.ModSize(mod)
    case Other(_) => 0
  }

  function HeaderOf<O>(m: Message<O>): FlowModCodec.Header
    requires !m.Other?
  {
    if m.Mod? then m.mod.header else m.header
  }

  /** A message of a modelled class, of an accepted version and of a length that fits its field. */
  predicate Packable<O>(m: Message<O>) {
    && !m.Other? && Size(m) < 0x1_0000
    && var h := HeaderOf(m);
       && (h.version == OFP_VERSION || h.headerType == OFPT_HELLO)
       && match m
          case Plain(_, _) => LayoutOf(h.headerType).Some? && LayoutOf(h.headerType).value.Fits(Size(m))
          case Vendor(_, _, _) => h.headerType == OFPT_VENDOR
          case Mod(mod) => h.headerType == OFPT_FLOW_MOD && FlowModCodec.PackableMod(mod)
  }

  function Pack<O>(m: Message<O>): Bytes
    requires Packable(m)
  {
    match m
    case Plain(h, body) => FlowModCodec.PutHeader(h, Size(m)) + body
    case Vendor(h, vendor, data) => FlowModCodec.PutHeader(h, Size(m)) + Put32(vendor) + data
    case Mod(mod) => FlowModCodec.PackMod(mod)
  }

  /** The message as the receiver decodes it. */
  function Received<O>(m: Message<O>): Message<O> {
    if m.Mod? then Mod(FlowModCodec.Arrived(m.mod)) else m
  }

  lemma HeaderInFront(h: FlowModCodec.Header, length: nat, rest: Bytes)
    requires length < 0x1_0000
    ensures var b := FlowModCodec.PutHeader(h, length) + rest;
      && b[0] == h.version && b[1] == h.headerType && Length(b) == length && FlowModCodec.GetHeader(b[0..8]) == h
  {
    var front := FlowModCodec.PutHeader(h, length);
    FlowModCodec.HeaderReturns(h, length);
    SliceOfFirst(front, rest, 0, 8);
    SliceOfFirst(front, rest, 2, 4);
    assert front[0..8] == front;
  }

  /** Packed, and told by its header. */
  predicate Framed<O>(m: Message<O>, b: Bytes)
    requires !m.Other?
  {
    && |b| == Size(m) && |b| >= 8 && Length(b) == |b| && FlowModCodec.GetHeader(b[0..8]) == HeaderOf(m)
    && b[0] == HeaderOf(m).version && b[1] == HeaderOf(m).headerType
  }

  lemma PlainComesBack<O>(m: Message<O>)
    requires m.Plain? && Packable(m)
    ensures Framed(m, Pack(m))
    ensures UnpackPlain<O>(LayoutOf(m.header.headerType).value, Pack(m)) == Unpacked(Size(m), m)
  {
    HeaderInFront(m.header, Size(m), m.body);
    assert Pack(m)[8..Size(m)] == m.body;
  }

  lemma VendorComesBack<O>(m: Message<O>)
    requires m.Vendor? && Packable(m)
    ensures Framed(m, Pack(m)) && UnpackVendor<O>(Pack(m)) == Unpacked(Size(m), m)
  {
    var front := FlowModCodec.PutHeader(m.header, Size(m));
    assert Pack(m) == front + (Put32(m.vendor) + m.data);
    HeaderInFront(m.header, Size(m), Put32(m.vendor) + m.data);
    assert Pack(m)[8..12] == Put32(m.vendor) && Pack(m)[12..Size(m)] == m.data;
    GetPut32(m.vendor);
  }

  lemma ModComesBack<O>(m: Message<O>)
    requires m.Mod? && Packable(m)
    ensures Framed(m, Pack(m)) && UnpackFlowMod<O>(Pack(m)) == Unpacked(Size(m), Received(m))
  {
    FlowModCodec.PackedMod(m.mod);
    var b := Pack(m);
    assert b[0..|b|] == b;
    HeaderInFront(m.mod.header, Size(m), b[8..]);
    assert b == b[0..8] + b[8..];
    FlowModCodec.ModArrives(m.mod, b, 0);
  }

  /** Every packed message is a well-formed frame of this program's own unpackers. */
  lemma PackedIsWellFormed<T, O(!new)>(others: Bytes -> Unpacked<O>, after: (T, Message<O>) -> T, m: Message<O>)
    requires ChecksLength(others) && Packable(m)
    ensures WellFormed(Pox(others, after), Pack(m))
    ensures Unpack(others, Pack(m)) == Unpacked(|Pack(m)|, Received(m))
  {
    var b := Pack(m);
    match m {
      case Plain(_, _) => PlainComesBack(m);
      case Vendor(_, _, _) => VendorComesBack(m);
      case Mod(_) => ModComesBack(m);
    }
    assert Framed(m, b) && Unpack(others, b) == Unpacked(|b|, Received(m));
    forall more: Bytes ensures Unpack(others, b + more) == Unpack(others, b) {
      SameUnpacked(others, b, more);
    }
  }

  function PackAll<O>(ms: seq<Message<O>>): seq<Bytes>
    requires forall m :: m in ms ==> Packable(m)
  {
    seq(|ms|, i requires 0 <= i < |ms| => Pack(ms[i]))
  }

  lemma {:induction false} DispatchedEach<T, M>(c: Codec<T, M>, table: T, frames: seq<Bytes>)
    requires forall i :: 0 <= i < |frames| ==> c.unpack(frames[i]).Unpacked?
    ensures var d := Dispatched(c, table, frames);
      |d| == |frames| && forall i :: 0 <= i < |d| ==> d[i].1 == c.unpack(frames[i]).msg
    decreases |frames|
  {
    if frames != [] {
      var msg := c.unpack(frames[0]).msg;
      DispatchedEach(c, c.after(table, msg), frames[1..]);
    }
  }

  /** End to end: a peer packs messages, the network cuts the stream anyhow, and the loop hands
      out exactly the messages as received, in order, and keeps what is left over. */
  lemma PackedMessagesAreDispatched<T, O(!new)>(
      others: Bytes -> Unpacked<O>, after: (T, Message<O>) -> T, ms: seq<Message<O>>, part: Bytes, chunks: seq<Bytes>,
      table: T)
    requires ChecksLength(others) && forall m :: m in ms ==> Packable(m)
    requires Next(Pox(others, after), part).Wait? && Concat(chunks) == Concat(PackAll(ms)) + part
    ensures var s := FeedAll(Pox(others, after), Fresh(table), chunks);
      && s.status == Open && s.buf == part && |s.log| == |ms|
      && forall i :: 0 <= i < |ms| ==> s.log[i].1 == Received(ms[i])
  {
    var c, frames := Pox(others, after), PackAll(ms);
    forall i | 0 <= i < |ms|
      ensures WellFormed(c, frames[i]) && c.unpack(frames[i]) == Unpacked(|frames[i]|, Received(ms[i]))
    {
      PackedIsWellFormed(others, after, ms[i]);
    }
    CompleteMessagesAreDispatched(c, chunks, frames, part, table);
    DispatchedEach(c, table, frames);
  }
}
