/**
  What link events leave of flooding: _handle_LinkEvent of pox/openflow/spanning_tree.py, which
  ignores a link both of whose ports are blocked, and pox/openflow/discovery.py, which raises
  the event of a new link after it is recorded and that of a lost one before it is forgotten.
*/
module LinkEvents {
  import opened Wrappers
  import opened Graphs
  import opened Discovery
  import opened Forests
  import opened SpanningTree
  import opened Flooding

  // ---------------------------------------------------------------- one edge more or less

  function BothDirections(a: Node, b: Node): Edges {
    {(a, b), (b, a)}
  }

  lemma StaysPut(e: Edges, a: Node)
    ensures Reachable(e, a, a)
  {
    assert Joins(e, [a], a, a);
  }

  lemma ReachesOn(e: Edges, a: Node, b: Node, c: Node)
    requires Reachable(e, a, b) && Reachable(e, b, c)
    ensures Reachable(e, a, c)
  {
    var p :| Joins(e, p, a, b);
    var q :| Joins(e, q, b, c);
    var r := JoinWalks(e, p, q, a, b, c);
  }

  lemma ReachesBack(e: Edges, a: Node, b: Node)
    requires Symmetric(e) && Reachable(e, a, b)
    ensures Reachable(e, b, a)
  {
    var p :| Joins(e, p, a, b);
    var q := ReverseWalk(e, p, a, b);
  }

  lemma EdgeReaches(e: Edges, a: Node, b: Node)
    requires (a, b) in e
    ensures Reachable(e, a, b)
  {
    StaysPut(e, a);
    ReachableOn(e, a, a, b);
  }

  /** Going from x to y with one more edge at hand, at most one direction of it is needed once. */
  ghost predicate Detours(e: Edges, a: Node, b: Node, x: Node, y: Node) {
    || Reachable(e, x, y)
    || (Reachable(e, x, a) && Reachable(e, b, y))
    || (Reachable(e, x, b) && Reachable(e, a, y))
  }

  lemma DetourOn(e: Edges, a: Node, b: Node, x: Node, y: Node, z: Node)
    requires Detours(e, a, b, x, y) && (y, z) in e + BothDirections(a, b)
    ensures Detours(e, a, b, x, z)
  {
    StaysPut(e, a);
    StaysPut(e, b);
    if (y, z) in e {
      EdgeReaches(e, y, z);
      if Reachable(e, x, y) {
        ReachesOn(e, x, y, z);
      } else if Reachable(e, x, a) && Reachable(e, b, y) {
        ReachesOn(e, b, y, z);
      } else {
        ReachesOn(e, a, y, z);
      }
    }
  }

  lemma {:induction false} WalkDetours(e: Edges, a: Node, b: Node, p: seq<Node>)
    requires IsWalk(e + BothDirections(a, b), p)
    ensures Detours(e, a, b, p[0], p[|p| - 1])
    decreases |p|
  {
    var n := |p| - 1;
    if n == 0 {
      StaysPut(e, p[0]);
    } else {
      CutWalk(e + BothDirections(a, b), p, 0, n);
      WalkDetours(e, a, b, p[0..n]);
      assert Step(e + BothDirections(a, b), p, n - 1);
      DetourOn(e, a, b, p[0], p[n - 1], p[n]);
    }
  }

  lemma EdgeDetours(e: Edges, a: Node, b: Node, x: Node, y: Node)
    requires Reachable(e + BothDirections(a, b), x, y)
    ensures Detours(e, a, b, x, y)
  {
    var p :| Joins(e + BothDirections(a, b), p, x, y);
    WalkDetours(e, a, b, p);
  }

  lemma {:induction false} StepsReach(e: Edges, f: Edges, p: seq<Node>)
    requires IsWalk(e, p) && forall u, v | (u, v) in e :: Reachable(f, u, v)
    ensures Reachable(f, p[0], p[|p| - 1])
    decreases |p|
  {
    var n := |p| - 1;
    if n == 0 {
      StaysPut(f, p[0]);
    } else {
      CutWalk(e, p, 0, n);
      StepsReach(e, f, p[0..n]);
      assert Step(e, p, n - 1);
      ReachesOn(f, p[0], p[n - 1], p[n]);
    }
  }

  /** What is reached over edges each of which the other graph can follow, it reaches too. */
  lemma Follows(e: Edges, f: Edges, x: Node, y: Node)
    requires Reachable(e, x, y) && forall u, v | (u, v) in e :: Reachable(f, u, v)
    ensures Reachable(f, x, y)
  {
    var p :| Joins(e, p, x, y);
    StepsReach(e, f, p);
  }

  lemma {:induction false} ShortestWalk(e: Edges, p: seq<Node>, i: Node, j: Node) returns (q: seq<Node>)
    requires Joins(e, p, i, j)
    ensures Joins(e, q, i, j) && NoRepeats(q)
    decreases |p|
  {
    if exists r :: Joins(e, r, i, j) && |r| < |p| {
      var r :| Joins(e, r, i, j) && |r| < |p|;
      q := ShortestWalk(e, r, i, j);
    } else {
      q := p;
      ShortestHasNoRepeats(e, p, i, j);
    }
  }

  lemma ClosesCycle(e: Edges, a: Node, b: Node, q: seq<Node>)
    requires Symmetric(e) && (a, b) in e && a != b
    requires Joins(e - BothDirections(a, b), q, a, b) && NoRepeats(q)
    ensures IsCycle(e, q)
  {
    WalkInLarger(e - BothDirections(a, b), e, q);
    assert |q| > 1 ==> Step(e - BothDirections(a, b), q, 0);
  }

  /** In a forest the ends of an edge are joined by that edge only. */
  lemma EdgeIsBridge(e: Edges, a: Node, b: Node)
    requires Acyclic(e) && Symmetric(e) && (a, b) in e
    ensures !Reachable(e - BothDirections(a, b), a, b)
  {
    var less := e - BothDirections(a, b);
    if Reachable(less, a, b) {
      var p :| Joins(less, p, a, b);
      var q := ShortestWalk(less, p, a, b);
      ClosesCycle(e, a, b, q);
    }
  }

  // ---------------------------------------------------------------- flooding that spans

  /** Flooding connects exactly what the two-way links connect. */
  ghost predicate Spans(links: set<Link>, bits: Bits) {
    forall a, b :: Reachable(FloodEdges(links, bits), a, b) <==> Reachable(TwoWayEdges(links), a, b)
  }

  lemma TwoWayIsSymmetric(links: set<Link>)
    ensures Symmetric(TwoWayEdges(links))
  {
    forall a, b | (a, b) in TwoWayEdges(links)
      ensures (b, a) in TwoWayEdges(links)
    {
      var l :| l in links && Flip(l) in links && (a, b) == (l.dpid1, l.dpid2);
      assert Flip(Flip(l)) == l;
    }
  }

  lemma FloodsOverTwoWay(links: set<Link>, bits: Bits)
    ensures FloodEdges(links, bits) <= TwoWayEdges(links)
  {
  }

  /** A link with a blocked end neither floods nor bears on what floods. */
  lemma BlockedLinkIsSilent(links: set<Link>, bits: Bits, l: Link)
    requires Blocked(bits, l.dpid1, l.port1) && Blocked(bits, l.dpid2, l.port2)
    ensures FloodEdges(links + {l}, bits) == FloodEdges(links - {l}, bits)
  {
    forall m: Link
      ensures FloodsAcross(links + {l}, bits, m) <==> FloodsAcross(links - {l}, bits, m)
    {
      assert Flip(m) == l ==> m == Flip(l);
    }
  }

  lemma OneMoreLink(links: set<Link>, l: Link)
    requires Flip(l) in links
    ensures TwoWayEdges(links + {l}) == TwoWayEdges(links) + BothDirections(l.dpid1, l.dpid2)
  {
    assert Flip(Flip(l)) == l;
    forall e
      ensures e in TwoWayEdges(links + {l}) <==> e in TwoWayEdges(links) + BothDirections(l.dpid1, l.dpid2)
    {
      if e in TwoWayEdges(links + {l}) {
        var m :| m in links + {l} && Flip(m) in links + {l} && e == (m.dpid1, m.dpid2);
        assert Flip(m) == l ==> m == Flip(l);
      }
    }
  }

  lemma LoneLinkJoinsNothing(links: set<Link>, l: Link)
    requires Flip(l) !in links
    ensures forall a, b :: Reachable(TwoWayEdges(links + {l}), a, b) <==> Reachable(TwoWayEdges(links), a, b)
  {
    var more, less := TwoWayEdges(links + {l}), TwoWayEdges(links);
    forall u, v | (u, v) in more
      ensures Reachable(less, u, v)
    {
      var m :| m in links + {l} && Flip(m) in links + {l} && (u, v) == (m.dpid1, m.dpid2);
      assert Flip(m) == l ==> m == Flip(l);
      if m == l {
        assert Flip(l) == l;
        StaysPut(less, u);
      } else {
        assert m in links && Flip(m) in links;
        EdgeReaches(less, u, v);
      }
    }
    forall a, b
      ensures Reachable(more, a, b) <==> Reachable(less, a, b)
    {
      if Reachable(more, a, b) {
        Follows(more, less, a, b);
      }
      if Reachable(less, a, b) {
        ReachableInLarger(less, more, a, b);
      }
    }
  }

  /** A new link whose event is ignored leaves flooding spanning exactly if its other direction
      is not known or two-way links connected its ends already. */
  lemma IgnoredAdditionSpans(links: set<Link>, bits: Bits, l: Link)
    requires l !in links && Spans(links, bits)
    requires Blocked(bits, l.dpid1, l.port1) && Blocked(bits, l.dpid2, l.port2)
    ensures Spans(links + {l}, bits) <==>
            Flip(l) !in links || Reachable(TwoWayEdges(links), l.dpid1, l.dpid2)
  {
    var a, b, e := l.dpid1, l.dpid2, TwoWayEdges(links);
    BlockedLinkIsSilent(links, bits, l);
    assert links - {l} == links;
    if Flip(l) !in links {
      LoneLinkJoinsNothing(links, l);
    } else {
      OneMoreLink(links, l);
      if Reachable(e, a, b) {
        TwoWayIsSymmetric(links);
        ReachesBack(e, a, b);
        forall x, y
          ensures Reachable(e + BothDirections(a, b), x, y) <==> Reachable(e, x, y)
        {
          AlreadyJoined(e, a, b, x, y);
        }
      } else {
        EdgeReaches(e + BothDirections(a, b), a, b);
      }
    }
  }

  lemma AlreadyJoined(e: Edges, a: Node, b: Node, x: Node, y: Node)
    requires Reachable(e, a, b) && Reachable(e, b, a)
    ensures Reachable(e + BothDirections(a, b), x, y) <==> Reachable(e, x, y)
  {
    if Reachable(e, x, y) {
      ReachableInLarger(e, e + BothDirections(a, b), x, y);
    }
    if Reachable(e + BothDirections(a, b), x, y) {
      EdgeDetours(e, a, b, x, y);
      if Reachable(e, x, a) && Reachable(e, b, y) {
        ReachesOn(e, x, a, b);
        ReachesOn(e, x, b, y);
      } else if Reachable(e, x, b) && Reachable(e, a, y) {
        ReachesOn(e, x, b, a);
        ReachesOn(e, x, a, y);
      }
    }
  }

  /** Fewer two-way links, with the same flooding over them, are spanned if the more were. */
  lemma FewerAreSpanned(links: set<Link>, rest: set<Link>, bits: Bits)
    requires rest <= links && Spans(links, bits) && FloodEdges(rest, bits) == FloodEdges(links, bits)
    ensures Spans(rest, bits)
  {
    assert TwoWayEdges(rest) <= TwoWayEdges(links);
    FloodsOverTwoWay(rest, bits);
    forall a, b
      ensures Reachable(FloodEdges(rest, bits), a, b) <==> Reachable(TwoWayEdges(rest), a, b)
    {
      if Reachable(TwoWayEdges(rest), a, b) {
        ReachableInLarger(TwoWayEdges(rest), TwoWayEdges(links), a, b);
      }
      if Reachable(FloodEdges(rest, bits), a, b) {
        ReachableInLarger(FloodEdges(rest, bits), TwoWayEdges(rest), a, b);
      }
    }
  }

  /** No other cable ends at a port of this link. */
  ghost predicate AloneAtItsPorts(links: set<Link>, l: Link) {
    forall m | m in links && SharesPort(l, m) :: m == l || m == Flip(l)
  }

  predicate SharesPort(l: Link, m: Link) {
    || (m.dpid1 == l.dpid1 && m.port1 == l.port1) || (m.dpid1 == l.dpid2 && m.port1 == l.port2)
    || (m.dpid2 == l.dpid1 && m.port2 == l.port1) || (m.dpid2 == l.dpid2 && m.port2 == l.port2)
  }

  predicate BlockedEdgePort(links: set<Link>, bits: Bits, sw: Node, p: Port) {
    IsEdgePort(links, sw, p) && Blocked(bits, sw, p)
  }

  /** A lost link whose event is ignored leaves flooding spanning, but its ports stay blocked even
      where they lead to no switch any more: unless the other direction is still known. */
  lemma IgnoredRemovalStrandsPorts(links: set<Link>, bits: Bits, l: Link)
    requires l in links && Spans(links, bits) && AloneAtItsPorts(links, l) && l != Flip(l)
    requires Blocked(bits, l.dpid1, l.port1) && Blocked(bits, l.dpid2, l.port2)
    ensures Spans(links - {l}, bits)
    ensures BlockedEdgePort(links - {l}, bits, l.dpid1, l.port1) <==> Flip(l) !in links
    ensures BlockedEdgePort(links - {l}, bits, l.dpid2, l.port2) <==> Flip(l) !in links
  {
    BlockedLinkIsSilent(links, bits, l);
    assert links + {l} == links;
    FewerAreSpanned(links, links - {l}, bits);
    forall m | m in links - {l} && SharesPort(l, m)
      ensures m == Flip(l)
    {
    }
  }

  // ---------------------------------------------------------------- pruned forests

  /** x and y are joined in the forest without its edge between a and b. */
  ghost predicate JoinedWithout(forest: Edges, a: Node, b: Node, x: Node, y: Node) {
    Reachable(forest - BothDirections(a, b), x, y)
  }

  /** No edge that is gone lies between the ends of one that is left. */
  ghost predicate NothingBetween(forest: Edges, kept: Edges, less: Edges) {
    forall a, b, x, y | (a, b) in forest - kept && (x, y) in less :: JoinedWithout(forest, a, b, x, y)
  }

  lemma PartAvoids(e: Edges, p: seq<Node>, i: nat, lo: nat, hi: nat)
    requires IsWalk(e, p) && NoRepeats(p) && i + 1 < |p| && lo < hi <= |p| && (hi == i + 1 || lo == i + 1)
    ensures IsWalk(e - BothDirections(p[i], p[i + 1]), p[lo..hi])
  {
    var less, q := e - BothDirections(p[i], p[i + 1]), p[lo..hi];
    forall n: nat | n + 1 < |q|
      ensures Step(less, q, n)
    {
      assert Step(e, p, lo + n);
    }
  }

  /** A walk without repeats that takes an edge of a forest has the edge between its ends. */
  lemma WalkNeedsItsSteps(forest: Edges, p: seq<Node>, i: nat)
    requires Acyclic(forest) && Symmetric(forest) && IsWalk(forest, p) && NoRepeats(p) && i + 1 < |p|
    ensures !JoinedWithout(forest, p[i], p[i + 1], p[0], p[|p| - 1])
  {
    var a, b, x, y := p[i], p[i + 1], p[0], p[|p| - 1];
    var less := forest - BothDirections(a, b);
    if Reachable(less, x, y) {
      PartAvoids(forest, p, i, 0, i + 1);
      PartAvoids(forest, p, i, i + 1, |p|);
      assert Joins(less, p[0..i + 1], x, a) && Joins(less, p[i + 1..|p|], b, y);
      ReachesBack(less, x, a);
      ReachesBack(less, b, y);
      ReachesOn(less, a, x, y);
      ReachesOn(less, a, y, b);
      assert Step(forest, p, i);
      EdgeIsBridge(forest, a, b);
    }
  }

  lemma KeptJoins(forest: Edges, kept: Edges, less: Edges, x: Node, y: Node)
    requires Acyclic(forest) && Symmetric(forest) && NothingBetween(forest, kept, less)
    requires (x, y) in less && Reachable(forest, x, y)
    ensures Reachable(kept, x, y)
  {
    var q :| Joins(forest, q, x, y);
    var p := ShortestWalk(forest, q, x, y);
    forall n: nat | n + 1 < |p|
      ensures Step(kept, p, n)
    {
      assert Step(forest, p, n);
      WalkNeedsItsSteps(forest, p, n);
    }
    assert Joins(kept, p, x, y);
  }

  /** What is kept of a spanning forest spans the edges that are left exactly if no edge of the
      forest that is gone lies between the ends of an edge that is left. */
  lemma PrunedForestSpans(forest: Edges, kept: Edges, less: Edges)
    requires Acyclic(forest) && Symmetric(forest) && Symmetric(kept) && kept <= forest && kept <= less
    requires forall x, y | (x, y) in less :: Reachable(forest, x, y)
    ensures (forall x, y :: Reachable(kept, x, y) <==> Reachable(less, x, y)) <==> NothingBetween(forest, kept, less)
  {
    if NothingBetween(forest, kept, less) {
      forall x, y | (x, y) in less
        ensures Reachable(kept, x, y)
      {
        KeptJoins(forest, kept, less, x, y);
      }
      forall x, y
        ensures Reachable(kept, x, y) <==> Reachable(less, x, y)
      {
        SameReach(kept, less, x, y);
      }
    }
    if forall x, y :: Reachable(kept, x, y) <==> Reachable(less, x, y) {
      forall a, b, x, y | (a, b) in forest - kept && (x, y) in less
        ensures JoinedWithout(forest, a, b, x, y)
      {
        EdgeReaches(less, x, y);
        ReachableInLarger(kept, forest - BothDirections(a, b), x, y);
      }
    }
  }

  lemma SameReach(kept: Edges, less: Edges, x: Node, y: Node)
    requires kept <= less && forall u, v | (u, v) in less :: Reachable(kept, u, v)
    ensures Reachable(kept, x, y) <==> Reachable(less, x, y)
  {
    if Reachable(less, x, y) {
      Follows(less, kept, x, y);
    }
    if Reachable(kept, x, y) {
      ReachableInLarger(kept, less, x, y);
    }
  }

  /** The forest without the link, if two-way links do not join its ends any more. */
  lemma CutForestSpans(forest: Edges, e: Edges, less: Edges, a: Node, b: Node)
    requires (a, b) in forest && Symmetric(forest) && Symmetric(less)
    requires less <= e && forest - BothDirections(a, b) <= less
    requires forall x, y :: Reachable(forest, x, y) <==> Reachable(e, x, y)
    requires !Reachable(less, a, b)
    ensures forall x, y :: Reachable(forest - BothDirections(a, b), x, y) <==> Reachable(less, x, y)
  {
    var cut := forest - BothDirections(a, b);
    assert cut + BothDirections(a, b) == forest;
    forall x, y | (x, y) in less
      ensures Reachable(cut, x, y)
    {
      EdgeReaches(e, x, y);
      EdgeDetours(cut, a, b, x, y);
      if !Reachable(cut, x, y) {
        EdgeReaches(less, x, y);
        NotJoined(cut, less, a, b, x, y);
      }
    }
    forall x, y
      ensures Reachable(cut, x, y) <==> Reachable(less, x, y)
    {
      if Reachable(less, x, y) {
        Follows(less, cut, x, y);
      }
      if Reachable(cut, x, y) {
        ReachableInLarger(cut, less, x, y);
      }
    }
  }

  lemma NotJoined(cut: Edges, less: Edges, a: Node, b: Node, x: Node, y: Node)
    requires cut <= less && Symmetric(less) && !Reachable(less, a, b) && Reachable(less, x, y)
    requires Detours(cut, a, b, x, y)
    ensures Reachable(cut, x, y)
  {
    if Reachable(cut, x, a) && Reachable(cut, b, y) {
      ReachableInLarger(cut, less, x, a);
      ReachableInLarger(cut, less, b, y);
      ReachesBack(less, x, a);
      ReachesBack(less, b, y);
      ReachesOn(less, a, x, y);
      ReachesOn(less, a, y, b);
    } else if Reachable(cut, x, b) && Reachable(cut, a, y) {
      ReachableInLarger(cut, less, x, b);
      ReachableInLarger(cut, less, a, y);
      ReachesBack(less, x, y);
      ReachesOn(less, a, y, x);
      ReachesOn(less, a, x, b);
    }
  }

  // ---------------------------------------------------------------- links that are still counted

  lemma FloodIsSymmetric(links: set<Link>, bits: Bits)
    ensures Symmetric(FloodEdges(links, bits))
  {
    forall a, b | (a, b) in FloodEdges(links, bits)
      ensures (b, a) in FloodEdges(links, bits)
    {
      var l :| l in links && FloodsAcross(links, bits, l) && (a, b) == (l.dpid1, l.dpid2);
      assert Flip(Flip(l)) == l && FloodsAcross(links, bits, Flip(l));
    }
  }

  /** Any batch of links is lost.  Flooding that was a spanning forest spans what is left exactly if
      no flooding edge that is gone lies between the ends of a link that is left. */
  lemma CountedRemovalSpans(links: set<Link>, rest: set<Link>, bits: Bits)
    requires rest <= links && Spans(links, bits) && Acyclic(FloodEdges(links, bits))
    ensures Spans(rest, bits) <==> NothingBetween(FloodEdges(links, bits), FloodEdges(rest, bits), TwoWayEdges(rest))
  {
    FloodIsSymmetric(links, bits);
    FloodIsSymmetric(rest, bits);
    FloodsOverTwoWay(rest, bits);
    forall x, y | (x, y) in TwoWayEdges(rest)
      ensures Reachable(FloodEdges(links, bits), x, y)
    {
      EdgeReaches(TwoWayEdges(links), x, y);
    }
    PrunedForestSpans(FloodEdges(links, bits), FloodEdges(rest, bits), TwoWayEdges(rest));
  }

  predicate TreeLink(links: set<Link>, tree: Tree, m: Link) {
    TwoWay(links, m) && m.dpid1 in tree && (m.dpid2, m.port1) in tree[m.dpid1]
  }

  /** No tree link that is gone, in either direction, lies between the ends of a link that is left. */
  ghost predicate NoLostLinkBetween(links: set<Link>, rest: set<Link>, tree: Tree) {
    forall m, l | TreeLink(links, tree, m) && !TwoWay(rest, m) && TwoWay(rest, l) ::
      JoinedWithout(TreeEdges(tree), m.dpid1, m.dpid2, l.dpid1, l.dpid2)
  }

  /** What the update has made of the links, as far as they are left. */
  ghost predicate CountedUpdate(links: set<Link>, rest: set<Link>, tree: Tree, cons: map<Node, Connection>,
                                holdDown: bool, was: Bits, now: Bits) {
    && rest <= links && !SelfLinked(links) && OneCablePerPort(links) && Complete(rest, cons, holdDown, None)
    && IsSpanningForest(links, tree) && SendingEveryPort(links, tree, cons, holdDown, None, was, now)
  }

  lemma KeptFloods(links: set<Link>, rest: set<Link>, tree: Tree, cons: map<Node, Connection>, holdDown: bool,
                   was: Bits, now: Bits, l: Link)
    requires CountedUpdate(links, rest, tree, cons, holdDown, was, now) && TwoWay(rest, l)
    ensures FloodsAcross(rest, now, l) <==> TreeLink(links, tree, l)
  {
    assert Flip(Flip(l)) == l && TwoWay(rest, Flip(l)) && TwoWay(links, l);
    TwoWayEndsAreOnTree(links, tree, l);
    FloodsExactlyOnTree(links, tree, cons, holdDown, None, was, now, l);
  }

  lemma KeptIsOnTree(links: set<Link>, rest: set<Link>, tree: Tree, cons: map<Node, Connection>, holdDown: bool,
                     was: Bits, now: Bits)
    requires CountedUpdate(links, rest, tree, cons, holdDown, was, now)
    ensures FloodEdges(rest, now) <= TreeEdges(tree)
  {
    forall e | e in FloodEdges(rest, now)
      ensures e in TreeEdges(tree)
    {
      var l :| l in rest && FloodsAcross(rest, now, l) && e == (l.dpid1, l.dpid2);
      KeptFloods(links, rest, tree, cons, holdDown, was, now, l);
    }
  }

  lemma GoneEdgeHasLink(links: set<Link>, rest: set<Link>, tree: Tree, cons: map<Node, Connection>, holdDown: bool,
                        was: Bits, now: Bits, v: Node, w: Node) returns (m: Link)
    requires CountedUpdate(links, rest, tree, cons, holdDown, was, now)
    requires (v, w) in TreeEdges(tree) - FloodEdges(rest, now)
    ensures TreeLink(links, tree, m) && !TwoWay(rest, m) && m.dpid1 == v && m.dpid2 == w
  {
    var wp :| wp in tree[v] && wp.0 == w;
    assert HasLink(links, tree, v, w, wp.1) by { assert wp == (w, wp.1); }
    var q :| TwoWay(links, Link(v, wp.1, w, q));
    m := Link(v, wp.1, w, q);
    if TwoWay(rest, m) {
      KeptFloods(links, rest, tree, cons, holdDown, was, now, m);
    }
  }

  lemma OneTreeLink(links: set<Link>, tree: Tree, l: Link, m: Link)
    requires OneCablePerPort(links) && OnePortEach(tree) && TreeLink(links, tree, l) && TreeLink(links, tree, m)
    requires l.dpid1 == m.dpid1 && l.dpid2 == m.dpid2
    ensures l == m
  {
    assert SameCable(l, m);
  }

  lemma GoneLinkLeavesEdge(links: set<Link>, rest: set<Link>, tree: Tree, cons: map<Node, Connection>,
                           holdDown: bool, was: Bits, now: Bits, m: Link)
    requires CountedUpdate(links, rest, tree, cons, holdDown, was, now)
    requires TreeLink(links, tree, m) && !TwoWay(rest, m)
    ensures (m.dpid1, m.dpid2) in TreeEdges(tree) - FloodEdges(rest, now)
  {
    if (m.dpid1, m.dpid2) in FloodEdges(rest, now) {
      var l :| l in rest && FloodsAcross(rest, now, l) && l.dpid1 == m.dpid1 && l.dpid2 == m.dpid2;
      KeptFloods(links, rest, tree, cons, holdDown, was, now, l);
      OneTreeLink(links, tree, l, m);
    }
  }

  /** The update that a batch of lost links brings about still counts them all.  Once discovery has
      forgotten them, flooding spans what is left exactly if no lost link of the tree lies, on the
      tree, between the ends of a link that is left. */
  lemma RemovalSpans(links: set<Link>, rest: set<Link>, tree: Tree, cons: map<Node, Connection>, holdDown: bool,
                     was: Bits, now: Bits)
    requires CountedUpdate(links, rest, tree, cons, holdDown, was, now)
    ensures Spans(rest, now) <==> NoLostLinkBetween(links, rest, tree)
  {
    var forest, kept, less := TreeEdges(tree), FloodEdges(rest, now), TwoWayEdges(rest);
    KeptIsOnTree(links, rest, tree, cons, holdDown, was, now);
    FloodIsSymmetric(rest, now);
    FloodsOverTwoWay(rest, now);
    forall x, y | (x, y) in less
      ensures Reachable(forest, x, y)
    {
      EdgeReaches(TwoWayEdges(links), x, y);
    }
    PrunedForestSpans(forest, kept, less);
    if NoLostLinkBetween(links, rest, tree) {
      forall a, b, x, y | (a, b) in forest - kept && (x, y) in less
        ensures JoinedWithout(forest, a, b, x, y)
      {
        var m := GoneEdgeHasLink(links, rest, tree, cons, holdDown, was, now, a, b);
        var l :| l in rest && Flip(l) in rest && (x, y) == (l.dpid1, l.dpid2);
        assert TwoWay(rest, l);
      }
    }
    if NothingBetween(forest, kept, less) {
      forall m, l | TreeLink(links, tree, m) && !TwoWay(rest, m) && TwoWay(rest, l)
        ensures JoinedWithout(forest, m.dpid1, m.dpid2, l.dpid1, l.dpid2)
      {
        GoneLinkLeavesEdge(links, rest, tree, cons, holdDown, was, now, m);
      }
    }
  }

  /** The link is lost, in this direction or in both. */
  ghost predicate Lost(links: set<Link>, rest: set<Link>, l: Link) {
    rest <= links && forall m | m in links && m !in rest :: m == l || m == Flip(l)
  }

  /** When one link is all that is lost, flooding spans what is left exactly if the link was not on
      the tree or nothing else joins its ends. */
  lemma CableRemovalSpans(links: set<Link>, rest: set<Link>, tree: Tree, cons: map<Node, Connection>, holdDown: bool,
                          was: Bits, now: Bits, l: Link)
    requires CountedUpdate(links, rest, tree, cons, holdDown, was, now)
    requires TwoWay(links, l) && Lost(links, rest, l) && l !in rest
    ensures Spans(rest, now) <==> !TreeLink(links, tree, l) || !Reachable(TwoWayEdges(rest), l.dpid1, l.dpid2)
  {
    var forest, less := TreeEdges(tree), TwoWayEdges(rest);
    RemovalSpans(links, rest, tree, cons, holdDown, was, now);
    TwoWayIsSymmetric(rest);
    if TreeLink(links, tree, l) {
      KeptIsAllButOne(links, rest, tree, cons, holdDown, was, now, l);
      EdgeIsBridge(forest, l.dpid1, l.dpid2);
      if !Reachable(less, l.dpid1, l.dpid2) {
        FloodsOverTwoWay(rest, now);
        CutForestSpans(forest, TwoWayEdges(links), less, l.dpid1, l.dpid2);
      }
    } else {
      forall m | TreeLink(links, tree, m)
        ensures TwoWay(rest, m)
      {
        OtherLinksStay(links, rest, tree, l, m);
      }
    }
  }

  lemma OtherLinksStay(links: set<Link>, rest: set<Link>, tree: Tree, l: Link, m: Link)
    requires OneCablePerPort(links) && OverLinks(links, tree) && TwoWay(links, l) && Lost(links, rest, l)
    requires TreeLink(links, tree, m) && m != l && (m == Flip(l) ==> !TreeLink(links, tree, l))
    ensures TwoWay(rest, m)
  {
    assert Flip(Flip(m)) == m && Flip(Flip(l)) == l;
    if m == Flip(l) {
      TreeLinkIsMutual(links, tree, m);
    }
  }

  lemma KeptIsAllButOne(links: set<Link>, rest: set<Link>, tree: Tree, cons: map<Node, Connection>, holdDown: bool,
                        was: Bits, now: Bits, l: Link)
    requires CountedUpdate(links, rest, tree, cons, holdDown, was, now)
    requires TreeLink(links, tree, l) && Lost(links, rest, l) && l !in rest
    ensures FloodEdges(rest, now) == TreeEdges(tree) - BothDirections(l.dpid1, l.dpid2)
    ensures (l.dpid1, l.dpid2) in TreeEdges(tree)
  {
    KeptIsOnTree(links, rest, tree, cons, holdDown, was, now);
    assert Flip(Flip(l)) == l;
    TreeLinkIsMutual(links, tree, l);
    GoneLinkLeavesEdge(links, rest, tree, cons, holdDown, was, now, l);
    GoneLinkLeavesEdge(links, rest, tree, cons, holdDown, was, now, Flip(l));
    forall v, w | (v, w) in TreeEdges(tree) && (v, w) !in FloodEdges(rest, now)
      ensures (v, w) in BothDirections(l.dpid1, l.dpid2)
    {
      var m := GoneEdgeHasLink(links, rest, tree, cons, holdDown, was, now, v, w);
      assert Flip(Flip(m)) == m;
    }
  }
}
