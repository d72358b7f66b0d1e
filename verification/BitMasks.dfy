/** Addresses under masks. */
module BitMasks {
  datatype Net = Net(addr: bv32, mask: bv32)

  predicate Inside(addr: bv32, net: bv32, mask: bv32) {
    addr & mask == net
  }

  /** The mask p of net x is part of mask q, and address y lies in the net. */
  predicate Nested(x: bv32, p: bv32, y: bv32, q: bv32) {
    p & q == p && Inside(y, x, p)
  }

  predicate Holds(outer: Net, inner: Net) {
    Nested(outer.addr, outer.mask, inner.addr, inner.mask)
  }

  lemma NestedByMasks(x: bv32, p: bv32, y: bv32, q: bv32, noLonger: bool)
    requires noLonger <==> p & q == p
    ensures Nested(x, p, y, q) <==> noLonger && Inside(y, x, p)
  {
  }

  lemma NestedIsTransitive(x: bv32, p: bv32, y: bv32, q: bv32, z: bv32, r: bv32)
    requires Nested(x, p, y, q) && Nested(y, q, z, r)
    ensures Nested(x, p, z, r)
  {
  }
}
