/**
  Reading items one after the other from a buffer: the loop shared by the list decoders of
  pox/openflow/libopenflow_01.py, for items of any kind that are never empty.
*/
module ItemLists {
  /** The exceptions decoding can end with. */
  datatype Error = Underrun | StructError | AssertionFailed

  datatype Outcome<T> = Done(value: T) | Raised(error: Error)

  /** Every item that can be read takes up space. */
  ghost predicate Advances<A>(at: nat -> Outcome<A>, size: A -> nat) {
    forall offset: nat :: at(offset).Done? ==> size(at(offset).value) > 0
  }

  function Prepend<A>(done: seq<A>, rest: Outcome<(nat, seq<A>)>): Outcome<(nat, seq<A>)> {
    match rest
    case Raised(e) => Raised(e)
    case Done(r) => Done((r.0, done + r.1))
  }

  /** The items from offset up to end, and where they end. */
  function ItemsFrom<A>(at: nat -> Outcome<A>, size: A -> nat, offset: nat, end: int): Outcome<(nat, seq<A>)>
    requires Advances(at, size)
    decreases end - offset
  {
    if offset >= end then Done((offset, []))
    else
      var first := at(offset);
      if first.Raised? then Raised(first.error)
      else Prepend([first.value], ItemsFrom(at, size, offset + size(first.value), end))
  }

  function Total<A>(size: A -> nat, items: seq<A>): nat {
    if items == [] then 0 else size(items[0]) + Total(size, items[1..])
  }

  lemma PrependNothing<A>(rest: Outcome<(nat, seq<A>)>)
    ensures Prepend([], rest) == rest
  {
    if rest.Done? {
      assert [] + rest.value.1 == rest.value.1;
    }
  }

  lemma PrependTwice<A>(a: seq<A>, b: seq<A>, rest: Outcome<(nat, seq<A>)>)
    ensures Prepend(a, Prepend(b, rest)) == Prepend(a + b, rest)
  {
    if rest.Done? {
      assert a + (b + rest.value.1) == a + b + rest.value.1;
    }
  }

  /** The loop of the list decoders.  It always terminates, for no item is empty. */
  method ReadItems<A>(at: nat -> Outcome<A>, size: A -> nat, start: nat, end: int)
    returns (r: Outcome<(nat, seq<A>)>)
    requires Advances(at, size)
    ensures r == ItemsFrom(at, size, start, end)
  {
    var items: seq<A> := [];
    var offset := start;
    PrependNothing(ItemsFrom(at, size, start, end));
    while offset < end
      invariant ItemsFrom(at, size, start, end) == Prepend(items, ItemsFrom(at, size, offset, end))
      decreases end - offset
    {
      var first := at(offset);
      if first.Raised? {
        return Raised(first.error);
      }
      PrependTwice(items, [first.value], ItemsFrom(at, size, offset + size(first.value), end));
      items := items + [first.value];
      offset := offset + size(first.value);
    }
    assert items + [] == items;
    return Done((offset, items));
  }

  /** What was consumed is what the decoded items measure. */
  lemma {:induction false} ConsumedIsTotal<A>(at: nat -> Outcome<A>, size: A -> nat, offset: nat, end: int)
    requires Advances(at, size) && ItemsFrom(at, size, offset, end).Done?
    ensures var r := ItemsFrom(at, size, offset, end).value;
      r.0 == offset + Total(size, r.1) && (offset < end ==> r.0 >= end)
    decreases end - offset
  {
    if offset < end {
      var first := at(offset).value;
      ConsumedIsTotal(at, size, offset + size(first), end);
      var rest := ItemsFrom(at, size, offset + size(first), end).value;
      assert ([first] + rest.1)[1..] == rest.1;
    }
  }

  /** The second reader finds each item that the first finds to end by end. */
  ghost predicate FindsAsMuch<A(!new)>(at: nat -> Outcome<A>, other: nat -> Outcome<A>, size: A -> nat, end: nat) {
    forall o: nat :: at(o).Done? && o + size(at(o).value) <= end ==> other(o) == at(o)
  }

  /** Items that fill their space exactly are found by every reader that finds as much. */
  lemma {:induction false} ItemsStay<A(!new)>(
      at: nat -> Outcome<A>, other: nat -> Outcome<A>, size: A -> nat, offset: nat, end: nat)
    requires Advances(at, size) && Advances(other, size) && FindsAsMuch(at, other, size, end)
    requires ItemsFrom(at, size, offset, end).Done? && ItemsFrom(at, size, offset, end).value.0 == end
    ensures ItemsFrom(other, size, offset, end) == ItemsFrom(at, size, offset, end)
    decreases end - offset
  {
    if offset < end {
      var next := offset + size(at(offset).value);
      ConsumedIsTotal(at, size, next, end);
      ItemsStay(at, other, size, next, end);
    }
  }

  /** Reading from offset on finds these items, one after the other. */
  predicate Reads<A(==)>(at: nat -> Outcome<A>, size: A -> nat, offset: nat, items: seq<A>)
    decreases |items|
  {
    items != [] ==>
      at(offset) == Done(items[0]) && Reads(at, size, offset + size(items[0]), items[1..])
  }

  lemma {:induction false} ReadsAll<A>(at: nat -> Outcome<A>, size: A -> nat, offset: nat, items: seq<A>)
    requires Advances(at, size) && Reads(at, size, offset, items)
    ensures ItemsFrom(at, size, offset, offset + Total(size, items)) == Done((offset + Total(size, items), items))
    decreases |items|
  {
    if items != [] {
      assert at(offset).Done?;
      ReadsAll(at, size, offset + size(items[0]), items[1..]);
      assert [items[0]] + items[1..] == items;
    }
  }

  // ---------------------------------------------------------------- and writing them

  type Bytes = seq<bv8>

  ghost predicate Packable<A>(pack: A --> Bytes, size: A -> nat, items: seq<A>) {
    forall i :: 0 <= i < |items| ==> pack.requires(items[i]) && |pack(items[i])| == size(items[i])
  }

  function Packed<A>(pack: A --> Bytes, items: seq<A>): Bytes
    requires forall i :: 0 <= i < |items| ==> pack.requires(items[i])
  {
    if items == [] then [] else pack(items[0]) + Packed(pack, items[1..])
  }

  function Each<A>(f: A -> A, items: seq<A>): (r: seq<A>) {
    if items == [] then [] else [f(items[0])] + Each(f, items[1..])
  }

  lemma {:induction false} PackedSize<A>(pack: A --> Bytes, size: A -> nat, items: seq<A>)
    requires Packable(pack, size, items)
    ensures |Packed(pack, items)| == Total(size, items)
  {
    if items != [] {
      PackedSize(pack, size, items[1..]);
    }
  }

  lemma SliceOfSlice(b: Bytes, offset: nat, length: nat, from: nat, to: nat)
    requires offset + length <= |b| && from <= to <= length
    ensures b[offset..offset + length][from..to] == b[offset + from..offset + to]
  {
    var inner, outer := b[offset..offset + length][from..to], b[offset + from..offset + to];
    assert |inner| == |outer| && forall i :: 0 <= i < |inner| ==> inner[i] == outer[i];
  }

  lemma FourParts(a: Bytes, b: Bytes, c: Bytes, d: Bytes)
    ensures var s, i, j, k := a + b + c + d, |a|, |a| + |b|, |a| + |b| + |c|;
      s[0..i] == a && s[i..j] == b && s[j..k] == c && s[k..|s|] == d
  {
  }

  /** Four parts written one after the other stand one after the other in the buffer. */
  lemma FourInPlace(a: Bytes, b: Bytes, c: Bytes, d: Bytes, raw: Bytes, o: nat, size: nat)
    requires size == |a| + |b| + |c| + |d| && o + size <= |raw| && raw[o..o + size] == a + b + c + d
    ensures var i, j, k := o + |a|, o + |a| + |b|, o + |a| + |b| + |c|;
      raw[o..i] == a && raw[i..j] == b && raw[j..k] == c && raw[k..o + size] == d
  {
    FourParts(a, b, c, d);
    SliceOfSlice(raw, o, size, 0, |a|);
    SliceOfSlice(raw, o, size, |a|, |a| + |b|);
    SliceOfSlice(raw, o, size, |a| + |b|, |a| + |b| + |c|);
    SliceOfSlice(raw, o, size, |a| + |b| + |c|, size);
  }

  lemma TwoShorts(x: Bytes, y: Bytes, rest: Bytes)
    requires |x| == 2 && |y| == 2
    ensures (x + y + rest)[0..2] == x && (x + y + rest)[2..4] == y
  {
  }

  lemma SplitFirst<A>(pack: A --> Bytes, size: A -> nat, items: seq<A>, b: Bytes, o: nat)
    requires Packable(pack, size, items) && items != [] && o + Total(size, items) <= |b|
    requires b[o..o + Total(size, items)] == Packed(pack, items)
    ensures b[o..o + size(items[0])] == pack(items[0])
    ensures b[o + size(items[0])..o + Total(size, items)] == Packed(pack, items[1..])
  {
    var n, total := size(items[0]), Total(size, items);
    SliceOfSlice(b, o, total, 0, n);
    SliceOfSlice(b, o, total, n, total);
  }

  /** The reader gives back what was packed, as sending changes it, wherever it finds it. */
  ghost predicate GivesBack<A>(
      at: nat -> Outcome<A>, pack: A --> Bytes, size: A -> nat, sent: A -> A, item: A, b: Bytes)
    requires pack.requires(item)
  {
    && size(sent(item)) == size(item)
    && forall o: nat :: o + size(item) <= |b| && b[o..o + size(item)] == pack(item) ==> at(o) == Done(sent(item))
  }

  lemma {:induction false} ReadsPacked<A>(
      at: nat -> Outcome<A>, pack: A --> Bytes, size: A -> nat, sent: A -> A, items: seq<A>, b: Bytes, o: nat)
    requires Packable(pack, size, items) && o + Total(size, items) <= |b|
    requires b[o..o + Total(size, items)] == Packed(pack, items)
    requires forall i :: 0 <= i < |items| ==> GivesBack(at, pack, size, sent, items[i], b)
    ensures Reads(at, size, o, Each(sent, items)) && Total(size, Each(sent, items)) == Total(size, items)
    decreases |items|
  {
    if items != [] {
      SplitFirst(pack, size, items, b, o);
      assert GivesBack(at, pack, size, sent, items[0], b);
      ReadsPacked(at, pack, size, sent, items[1..], b, o + size(items[0]));
    }
  }

  /** A packed list comes back, wherever it stands in a buffer and whatever follows it. */
  lemma ListComesBack<A>(
      at: nat -> Outcome<A>, pack: A --> Bytes, size: A -> nat, sent: A -> A, items: seq<A>, b: Bytes, o: nat)
    requires Advances(at, size)
    requires Packable(pack, size, items) && o + Total(size, items) <= |b|
    requires b[o..o + Total(size, items)] == Packed(pack, items)
    requires forall i :: 0 <= i < |items| ==> GivesBack(at, pack, size, sent, items[i], b)
    ensures ItemsFrom(at, size, o, o + Total(size, items)) == Done((o + Total(size, items), Each(sent, items)))
    ensures Total(size, Each(sent, items)) == Total(size, items)
  {
    ReadsPacked(at, pack, size, sent, items, b, o);
    ReadsAll(at, size, o, Each(sent, items));
  }
}
