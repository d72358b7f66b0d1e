/** Network prefixes of IPv4 addresses, as in IPAddr.inNetwork of pox/lib/addresses.py. */
module Prefixes {
  import opened Wrappers
  import opened BitMasks

  /** The mask of an address prefix of the given length. */
  function Mask(bits: bv8): bv32
    requires bits <= 32
  {
    !(((1 as bv32) << (32 - bits)) - 1)
  }

  /** IPAddr.inNetwork for an (address, network bits) pair. */
  predicate InNetwork(addr: bv32, net: bv32, bits: bv8)
    requires bits <= 32
  {
    Inside(addr, net, Mask(bits))
  }

  lemma MemberHasBits(addr: bv32, net: bv32, bits: bv8)
    requires bits <= 32 && InNetwork(addr, net, bits)
    ensures addr >> (32 - bits) == net >> (32 - bits)
  {
  }

  lemma NetworkHasNoOthers(addr: bv32, net: bv32, bits: bv8)
    requires bits <= 32 && InNetwork(addr, net, bits)
    ensures net << bits == 0
  {
  }

  lemma SameBitsSameMasked(addr: bv32, net: bv32, bits: bv8)
    requires bits <= 32 && addr >> (32 - bits) == net >> (32 - bits)
    ensures addr & Mask(bits) == net & Mask(bits)
  {
  }

  lemma NoOthersMasked(net: bv32, bits: bv8)
    requires bits <= 32 && net << bits == 0
    ensures net & Mask(bits) == net
  {
  }

  lemma BitsMakeMember(addr: bv32, net: bv32, bits: bv8)
    requires bits <= 32 && addr >> (32 - bits) == net >> (32 - bits) && net << bits == 0
    ensures InNetwork(addr, net, bits)
  {
    SameBitsSameMasked(addr, net, bits);
    NoOthersMasked(net, bits);
  }

  /** What membership means bit by bit: the leading bits agree, and the network has no others. */
  lemma LeadingBitsAgree(addr: bv32, net: bv32, bits: bv8)
    requires bits <= 32
    ensures InNetwork(addr, net, bits) <==> addr >> (32 - bits) == net >> (32 - bits) && net << bits == 0
  {
    if InNetwork(addr, net, bits) {
      MemberHasBits(addr, net, bits);
      NetworkHasNoOthers(addr, net, bits);
    }
    if addr >> (32 - bits) == net >> (32 - bits) && net << bits == 0 {
      BitsMakeMember(addr, net, bits);
    }
  }

  /** Longer prefixes have larger masks. */
  lemma MasksNest(p: bv8, q: bv8)
    requires p <= 32 && q <= 32
    ensures p <= q <==> Mask(p) & Mask(q) == Mask(p)
  {
  }

  /** The network checks: other's prefix is no shorter, and its address is in self's network. */
  predicate WithinNetwork(mine: (Option<bv32>, bv8), others: (Option<bv32>, bv8))
    requires mine.1 <= 32 && (others.0.None? <==> others.1 == 0) && (mine.0.None? <==> mine.1 == 0)
  {
    mine.0.Some? ==> mine.1 <= others.1 && InNetwork(others.0.value, mine.0.value, mine.1)
  }

  /** The p leading bits of x are all it has, and y, of which q are known, begins with them. */
  predicate Leads(x: bv32, p: bv8, y: bv32, q: bv8)
    requires p <= 32
  {
    p <= q && x << p == 0 && y >> (32 - p) == x >> (32 - p)
  }

  /** The network checks bit by bit. */
  predicate LeadsTo(mine: (Option<bv32>, bv8), others: (Option<bv32>, bv8))
    requires mine.1 <= 32
  {
    mine.0.Some? ==> others.0.Some? && Leads(mine.0.value, mine.1, others.0.value, others.1)
  }

  lemma WithinIfLeads(x: bv32, p: bv8, y: bv32, q: bv8)
    requires p <= 32
    ensures p <= q && InNetwork(y, x, p) <==> Leads(x, p, y, q)
  {
    LeadingBitsAgree(y, x, p);
  }

  lemma WithinByBits(mine: (Option<bv32>, bv8), others: (Option<bv32>, bv8))
    requires mine.1 <= 32 && (others.0.None? <==> others.1 == 0) && (mine.0.None? <==> mine.1 == 0)
    ensures WithinNetwork(mine, others) <==> LeadsTo(mine, others)
  {
    if mine.0.Some? && others.0.Some? {
      WithinIfLeads(mine.0.value, mine.1, others.0.value, others.1);
    }
  }

  lemma WholeAddressLeadsToItself(net: (Option<bv32>, bv8))
    requires net.1 == 32 || net == (None, 0)
    ensures LeadsTo(net, net)
  {
  }

  function NetOf(net: (Option<bv32>, bv8)): Option<Net>
    requires net.1 <= 32
  {
    if net.0.None? then None else Some(Net(net.0.value, Mask(net.1)))
  }

  lemma SameNet(a: Option<bv32>, b: Option<bv32>, bits: bv8)
    requires bits <= 32
    ensures a == b <==> NetOf((a, bits)) == NetOf((b, bits))
  {
  }

  predicate Contains(a: Option<Net>, b: Option<Net>) {
    a.Some? ==> b.Some? && Holds(a.value, b.value)
  }

  lemma WithinIsNested(x: bv32, p: bv8, y: bv32, q: bv8)
    requires p <= 32 && q <= 32
    ensures p <= q && InNetwork(y, x, p) <==> Nested(x, Mask(p), y, Mask(q))
  {
    MasksNest(p, q);
    NestedByMasks(x, Mask(p), y, Mask(q), p <= q);
  }

  lemma WithinIsContains(a: (Option<bv32>, bv8), b: (Option<bv32>, bv8))
    requires a.1 <= 32 && b.1 <= 32 && (b.0.None? <==> b.1 == 0) && (a.0.None? <==> a.1 == 0)
    ensures WithinNetwork(a, b) <==> Contains(NetOf(a), NetOf(b))
  {
    if a.0.Some? && b.0.Some? {
      WithinIsNested(a.0.value, a.1, b.0.value, b.1);
    }
  }

  lemma ContainsIsTransitive(a: Option<Net>, b: Option<Net>, c: Option<Net>)
    requires Contains(a, b) && Contains(b, c)
    ensures Contains(a, c)
  {
    if a.Some? {
      NestedIsTransitive(a.value.addr, a.value.mask, b.value.addr, b.value.mask, c.value.addr, c.value.mask);
    }
  }
}
