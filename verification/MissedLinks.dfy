/** Networks on which link events leave flooding short of what the links connect. */
module MissedLinks {
  import opened Wrappers
  import opened Graphs
  import opened Discovery
  import opened Forests
  import opened SpanningTree
  import opened Flooding
  import opened LinkEvents

  /** Switches 1 and 3 and switches 2 and 4 are joined both ways; from 1 to 2 a link was seen. */
  function Seen(): set<Link> {
    {Link(1, 1, 3, 1), Link(3, 1, 1, 1), Link(2, 1, 4, 1), Link(4, 1, 2, 1), Link(1, 2, 2, 2)}
  }

  lemma {:induction false} StaysInside(e: Edges, s: set<Node>, p: seq<Node>)
    requires IsWalk(e, p) && p[0] in s && forall u, v | (u, v) in e && u in s :: v in s
    ensures p[|p| - 1] in s
    decreases |p|
  {
    if |p| > 1 {
      assert Step(e, p, 0);
      CutWalk(e, p, 1, |p|);
      StaysInside(e, s, p[1..|p|]);
    }
  }

  lemma SeenIsApart()
    ensures !Reachable(TwoWayEdges(Seen()), 2, 1)
  {
    var e := TwoWayEdges(Seen());
    if Reachable(e, 2, 1) {
      var p :| Joins(e, p, 2, 1);
      StaysInside(e, {2, 4}, p);
    }
  }

  /** All four switches are connected and old, with ports 1 and 2. */
  function FourSwitches(): map<Node, Connection> {
    var con := Connection({1, 2}, true, false);
    map[1 := con, 2 := con, 3 := con, 4 := con]
  }

  /** The link seen one way is blocked at both its ports. */
  lemma SeenIsBlocked(tree: Tree, was: Bits, now: Bits)
    requires IsSpanningForest(Seen(), tree)
    requires SendingEveryPort(Seen(), tree, FourSwitches(), false, None, was, now)
    ensures RememberedOff(now, 1, 2) && RememberedOff(now, 2, 2)
  {
    TwoWayEndsAreOnTree(Seen(), tree, Link(1, 1, 3, 1));
    TwoWayEndsAreOnTree(Seen(), tree, Link(2, 1, 4, 1));
    NotOnTree(tree, 1);
    NotOnTree(tree, 2);
    assert Link(1, 2, 2, 2) in Seen();
    assert Concerned(tree, FourSwitches(), false, None, 1, 2) && Concerned(tree, FourSwitches(), false, None, 2, 2);
  }

  lemma SeenBothWays(l: Link)
    requires TwoWay(Seen(), l)
    ensures l.port1 != 2
  {
  }

  lemma NotOnTree(tree: Tree, sw: Node)
    requires IsSpanningForest(Seen(), tree) && sw in tree
    ensures !OnTree(tree, sw, 2)
  {
    if OnTree(tree, sw, 2) {
      PortIsOnLink(Seen(), tree, sw, 2);
      var l :| TwoWay(Seen(), l) && l.port1 == 2;
      SeenBothWays(l);
    }
  }

  lemma PortIsOnLink(links: set<Link>, tree: Tree, sw: Node, p: Port)
    requires OverLinks(links, tree) && sw in tree && OnTree(tree, sw, p)
    ensures exists l :: TwoWay(links, l) && l.port1 == p
  {
    var wp :| wp in tree[sw] && wp.1 == p;
    assert HasLink(links, tree, sw, wp.0, p) by { assert wp == (wp.0, wp.1); }
    var q :| TwoWay(links, Link(sw, p, wp.0, q));
  }

  lemma MissedIsApart(bits: Bits)
    requires Blocked(bits, 1, 2) && Blocked(bits, 2, 2)
    ensures var links := Seen() + {Link(2, 2, 1, 2)};
      Reachable(TwoWayEdges(links), 2, 1) && !Reachable(FloodEdges(links, bits), 2, 1)
  {
    var l := Link(2, 2, 1, 2);
    BlockedLinkIsSilent(Seen(), bits, l);
    assert Seen() - {l} == Seen();
    FloodsOverTwoWay(Seen(), bits);
    SeenIsApart();
    if Reachable(FloodEdges(Seen(), bits), 2, 1) {
      ReachableInLarger(FloodEdges(Seen(), bits), TwoWayEdges(Seen()), 2, 1);
    }
    assert Flip(l) == Link(1, 2, 2, 2);
    OneMoreLink(Seen(), l);
    EdgeReaches(TwoWayEdges(Seen() + {l}), 2, 1);
  }

  /** The other direction of the link is seen next: the handler ignores it, and flooding does
      not get from switch 2 to switch 1 although a two-way link joins them. */
  method IgnoredLinkIsMissed() returns (tree: Option<Tree>, ignored: bool, bits: Bits)
    ensures tree.Some? && IsSpanningForest(Seen(), tree.value) && ignored
    ensures SendingEveryPort(Seen(), tree.value, FourSwitches(), false, None, map[], bits)
    ensures RememberedOff(bits, 2, 2) && RememberedOff(bits, 1, 2)
    ensures var links := Seen() + {Link(2, 2, 1, 2)};
      Reachable(TwoWayEdges(links), 2, 1) && !Reachable(FloodEdges(links, bits), 2, 1)
  {
    var links, l := Seen(), Link(2, 2, 1, 2);
    var control := new FloodControl(map[]);
    tree := control.UpdateTree(links, FourSwitches(), false, None);
    SeenIsBlocked(tree.value, map[], control.prev);
    var r;
    ignored, r := control.HandleLinkEvent(links + {l}, l, FourSwitches(), false);
    bits := control.bits;
    MissedIsApart(bits);
  }

  /** Two cables join switches 1 and 2. */
  function Twins(): set<Link> {
    {Link(1, 1, 2, 1), Link(2, 1, 1, 1), Link(1, 2, 2, 2), Link(2, 2, 1, 2)}
  }

  lemma TwinsAreCables()
    ensures !SelfLinked(Twins()) && OneCablePerPort(Twins()) && Complete(Twins(), FourSwitches(), false, None)
    ensures forall l | l in Twins() :: TwoWay(Twins(), l)
  {
  }

  lemma TwinRemains(l: Link)
    requires l in Twins()
    ensures Reachable(TwoWayEdges(Twins() - {l, Flip(l)}), l.dpid1, l.dpid2)
  {
    var rest := Twins() - {l, Flip(l)};
    var other := Link(l.dpid1, 3 - l.port1, l.dpid2, 3 - l.port2);
    assert other in rest && Flip(other) in rest;
    EdgeReaches(TwoWayEdges(rest), l.dpid1, l.dpid2);
  }

  lemma LostOnTree(links: set<Link>, tree: Tree, cons: map<Node, Connection>, was: Bits, now: Bits, l: Link)
    requires !SelfLinked(links) && OneCablePerPort(links) && Complete(links, cons, false, None)
    requires IsSpanningForest(links, tree) && SendingEveryPort(links, tree, cons, false, None, was, now)
    requires TwoWay(links, l) && l.dpid1 in tree && (l.dpid2, l.port1) in tree[l.dpid1]
    requires Reachable(TwoWayEdges(links - {l, Flip(l)}), l.dpid1, l.dpid2)
    ensures !Spans(links - {l, Flip(l)}, now)
  {
    CableRemovalSpans(links, links - {l, Flip(l)}, tree, cons, false, was, now, l);
  }

  /** The cable on the tree is lost: flooding stops between the switches, which the other cable
      still joins. */
  lemma LostLinkIsCounted(tree: Tree, was: Bits, now: Bits, l: Link)
    requires IsSpanningForest(Twins(), tree)
    requires SendingEveryPort(Twins(), tree, FourSwitches(), false, None, was, now)
    requires l in Twins() && l.dpid1 in tree && (l.dpid2, l.port1) in tree[l.dpid1]
    ensures var rest := Twins() - {l, Flip(l)};
      Reachable(TwoWayEdges(rest), l.dpid1, l.dpid2) && !Spans(rest, now)
  {
    TwinsAreCables();
    TwinRemains(l);
    LostOnTree(Twins(), tree, FourSwitches(), was, now, l);
  }

  /** Switches 1, 2 and 3 in a ring. */
  function Ring(): set<Link> {
    {Link(1, 1, 2, 1), Link(2, 1, 1, 1), Link(1, 2, 3, 1), Link(3, 1, 1, 2)} + Opposite()
  }

  /** The cable that does not touch switch 1. */
  function Opposite(): set<Link> {
    {Link(2, 2, 3, 2), Link(3, 2, 2, 2)}
  }

  /** Switch 1 is gone. */
  function WithoutOne(): map<Node, Connection> {
    var con := Connection({1, 2}, true, false);
    map[2 := con, 3 := con]
  }

  lemma RingIsCables()
    ensures !SelfLinked(Ring()) && OneCablePerPort(Ring())
    ensures forall l | l in Ring() :: TwoWay(Ring(), l)
  {
  }

  lemma OppositeIsLeft()
    ensures Opposite() <= Ring() && Complete(Opposite(), WithoutOne(), false, None)
    ensures Reachable(TwoWayEdges(Opposite()), 2, 3)
    ensures forall a: Node | a == 2 || a == 3 :: !Reachable(TwoWayEdges(Opposite()), 1, a)
  {
    var e := TwoWayEdges(Opposite());
    assert Flip(Link(2, 2, 3, 2)) == Link(3, 2, 2, 2);
    EdgeReaches(e, 2, 3);
    forall a: Node | a == 2 || a == 3
      ensures !Reachable(e, 1, a)
    {
      if Reachable(e, 1, a) {
        var p :| Joins(e, p, 1, a);
        StaysInside(e, {1}, p);
      }
    }
  }

  /** On a tree that joins 1 to both others, losing 1-2 parts 2 from 3. */
  lemma TreePartsOpposite(forest: Edges)
    requires Acyclic(forest) && Symmetric(forest) && (1, 2) in forest && (1, 3) in forest
    ensures !JoinedWithout(forest, 1, 2, 2, 3)
  {
    var less := forest - BothDirections(1, 2);
    if Reachable(less, 2, 3) {
      ReachesBack(less, 2, 3);
      EdgeReaches(less, 1, 3);
      ReachesOn(less, 1, 3, 2);
      EdgeIsBridge(forest, 1, 2);
    }
  }

  lemma RingFails(links: set<Link>, rest: set<Link>, tree: Tree, cons: map<Node, Connection>, was: Bits, now: Bits,
                  m: Link, l: Link)
    requires CountedUpdate(links, rest, tree, cons, false, was, now)
    requires TreeLink(links, tree, m) && !TwoWay(rest, m) && TwoWay(rest, l)
    requires !JoinedWithout(TreeEdges(tree), m.dpid1, m.dpid2, l.dpid1, l.dpid2)
    ensures !Spans(rest, now)
  {
    RemovalSpans(links, rest, tree, cons, false, was, now);
  }

  lemma NothingJoinsTheEnds(m: Link)
    requires m in Ring() && m !in Opposite()
    ensures !Reachable(TwoWayEdges(Opposite()), m.dpid1, m.dpid2)
  {
    OppositeIsLeft();
    TwoWayIsSymmetric(Opposite());
    if Reachable(TwoWayEdges(Opposite()), m.dpid1, m.dpid2) {
      ReachesBack(TwoWayEdges(Opposite()), m.dpid1, m.dpid2);
    }
  }

  lemma CrossingSpans(bits: Bits)
    requires Reachable(FloodEdges(Opposite(), bits), 2, 3)
    ensures Spans(Opposite(), bits)
  {
    var kept, less := FloodEdges(Opposite(), bits), TwoWayEdges(Opposite());
    FloodIsSymmetric(Opposite(), bits);
    FloodsOverTwoWay(Opposite(), bits);
    ReachesBack(kept, 2, 3);
    assert forall x, y | (x, y) in less :: x + y == 5 && (x == 2 || x == 3);
    forall x, y
      ensures Reachable(kept, x, y) <==> Reachable(less, x, y)
    {
      SameReach(kept, less, x, y);
    }
  }

  lemma Spokes(tree: Tree)
    requires 1 in tree && (2, 1) in tree[1] && (3, 2) in tree[1]
    ensures TreeLink(Ring(), tree, Link(1, 1, 2, 1)) && (1, 2) in TreeEdges(tree) && (1, 3) in TreeEdges(tree)
    ensures !TwoWay(Opposite(), Link(1, 1, 2, 1)) && TwoWay(Opposite(), Link(2, 2, 3, 2))
  {
    RingIsCables();
    assert Link(1, 1, 2, 1) in Ring();
  }

  /** A switch that joined the other two on the tree goes down, and all its links are lost at once.
      Nothing that is left joins the ends of any lost link, and yet flooding does not cross the cable
      that is left. */
  lemma SwitchOfRingGoesDown(tree: Tree, was: Bits, now: Bits)
    requires IsSpanningForest(Ring(), tree) && 1 in tree && (2, 1) in tree[1] && (3, 2) in tree[1]
    requires SendingEveryPort(Ring(), tree, WithoutOne(), false, None, was, now)
    ensures Reachable(TwoWayEdges(Opposite()), 2, 3) && !Reachable(FloodEdges(Opposite(), now), 2, 3)
    ensures forall m | m in Ring() && m !in Opposite() :: !Reachable(TwoWayEdges(Opposite()), m.dpid1, m.dpid2)
  {
    forall m | m in Ring() && m !in Opposite()
      ensures !Reachable(TwoWayEdges(Opposite()), m.dpid1, m.dpid2)
    {
      NothingJoinsTheEnds(m);
    }
    Spokes(tree);
    TreePartsOpposite(TreeEdges(tree));
    RingIsCables();
    OppositeIsLeft();
    RingFails(Ring(), Opposite(), tree, WithoutOne(), was, now, Link(1, 1, 2, 1), Link(2, 2, 3, 2));
    if Reachable(FloodEdges(Opposite(), now), 2, 3) {
      CrossingSpans(now);
    }
  }
}
