/**
  pox/openflow/spanning_tree.py: _update_tree.  Port flood bits follow the spanning forest,
  and only the changes against the remembered settings are sent to the switches.
*/
module Flooding {
  import opened Wrappers
  import opened Graphs
  import opened Discovery
  import opened Forests
  import opened SpanningTree

  const OFPP_MAX: Port := 65280

  type Bits = map<(Node, Port), bool>

  /** What _update_tree knows of a connected switch: its ports, and whether hold-down applies. */
  datatype Connection = Connection(ports: set<Port>, connected: bool, tooYoung: bool)

  predicate Updated(sw: Node, con: Connection, holdDown: bool, force: Option<Node>) {
    con.connected && (holdDown && con.tooYoung ==> force == Some(sw))
  }

  predicate OnTree(tree: Tree, sw: Node, p: Port) {
    sw in tree && exists wp | wp in tree[sw] :: wp.1 == p
  }

  /** A port floods when it is on the tree or leads to no switch. */
  predicate Floods(links: set<Link>, tree: Tree, sw: Node, p: Port) {
    OnTree(tree, sw, p) || IsEdgePort(links, sw, p)
  }

  /** The ports an update concerns. */
  predicate Concerned(tree: Tree, cons: map<Node, Connection>, holdDown: bool, force: Option<Node>,
                      sw: Node, p: Port) {
    && sw in tree && sw in cons && Updated(sw, cons[sw], holdDown, force)
    && p in cons[sw].ports && p < OFPP_MAX
  }

  /** now is was with every concerned port set, as if every port had been sent. */
  ghost predicate SendingEveryPort(links: set<Link>, tree: Tree, cons: map<Node, Connection>, holdDown: bool,
                                   force: Option<Node>, was: Bits, now: Bits) {
    forall sw: Node, p: Port ::
      if Concerned(tree, cons, holdDown, force, sw, p) then
        (sw, p) in now && now[(sw, p)] == Floods(links, tree, sw, p)
      else
        SameAt(was, now, sw, p)
  }

  /** The same, with some switches still to be done. */
  ghost predicate SendingBut(links: set<Link>, tree: Tree, cons: map<Node, Connection>, holdDown: bool,
                             force: Option<Node>, rest: set<Node>, was: Bits, now: Bits) {
    forall sw: Node, p: Port ::
      if sw !in rest && Concerned(tree, cons, holdDown, force, sw, p) then
        (sw, p) in now && now[(sw, p)] == Floods(links, tree, sw, p)
      else
        SameAt(was, now, sw, p)
  }

  /** now is was with these ports of one switch set. */
  ghost predicate SendingPorts(links: set<Link>, tree: Tree, sw: Node, ports: set<Port>, was: Bits, now: Bits) {
    forall s: Node, p: Port ::
      if s == sw && p in ports && p < OFPP_MAX then
        (s, p) in now && now[(s, p)] == Floods(links, tree, s, p)
      else
        SameAt(was, now, s, p)
  }

  /** What is known, with all that was known of the switch replaced by the settings it brings. */
  function Brought(dpid: Node, settings: Bits, was: Bits): Bits {
    (map k | k in was && k.0 != dpid :: was[k]) + settings
  }

  lemma BroughtIsConnected(dpid: Node, ports: set<Port>, settings: Bits, was: Bits)
    requires forall k | k in settings :: k.0 == dpid
    ensures Connected(dpid, ports, settings, false, was, Brought(dpid, settings, was))
  {
  }

  lemma OffIsConnected(dpid: Node, ports: set<Port>, settings: Bits, was: Bits, mid: Bits, now: Bits)
    requires Connected(dpid, ports, settings, false, was, mid) && Disabled(dpid, ports, mid, now)
    ensures Connected(dpid, ports, settings, true, was, now)
  {
    forall s: Node, p: Port
      ensures s != dpid ==> SameAt(was, now, s, p)
      ensures s == dpid && !(p in ports && p < OFPP_MAX) ==> SameAt(settings, now, s, p)
    {
      assert s != dpid ==> SameAt(was, mid, s, p);
      assert s == dpid ==> SameAt(settings, mid, s, p);
      assert !(s == dpid && p in ports && p < OFPP_MAX) ==> SameAt(mid, now, s, p);
    }
  }

  /** now is was with these ports of one switch off. */
  ghost predicate Disabled(dpid: Node, ports: set<Port>, was: Bits, now: Bits) {
    forall s: Node, p: Port ::
      if s == dpid && p in ports && p < OFPP_MAX then (s, p) in now && !now[(s, p)] else SameAt(was, now, s, p)
  }

  /** now is was with all that is known of the switch replaced: by the settings it brings, and by off
      for its real ports where ports do not flood by default. */
  ghost predicate Connected(dpid: Node, ports: set<Port>, settings: Bits, noFloodByDefault: bool,
                            was: Bits, now: Bits) {
    forall s: Node, p: Port ::
      if s != dpid then SameAt(was, now, s, p)
      else if noFloodByDefault && p in ports && p < OFPP_MAX then (s, p) in now && !now[(s, p)]
      else SameAt(settings, now, s, p)
  }

  ghost predicate SameAt(was: Bits, now: Bits, sw: Node, p: Port) {
    ((sw, p) in now <==> (sw, p) in was) && ((sw, p) in now ==> now[(sw, p)] == was[(sw, p)])
  }

  /** Port by port what an update leaves.  A port no link ends at, where hosts are, floods; a port a link
      ends at floods exactly when a link of the tree starts there; a port above OFPP_MAX, or of a switch
      that is away, off the tree or held down, keeps its bit. */
  lemma HostPortsFlood(links: set<Link>, tree: Tree, cons: map<Node, Connection>, holdDown: bool,
                       force: Option<Node>, was: Bits, now: Bits, sw: Node, p: Port)
    requires SendingEveryPort(links, tree, cons, holdDown, force, was, now)
    ensures
      if sw in tree && sw in cons && cons[sw].connected && (!holdDown || !cons[sw].tooYoung || force == Some(sw))
         && p in cons[sw].ports && p < 65280
      then (sw, p) in now
           && (now[(sw, p)] <==>
                 || (exists w: Node :: (w, p) in tree[sw])
                 || (forall l | l in links ::
                       !(l.dpid1 == sw && l.port1 == p) && !(l.dpid2 == sw && l.port2 == p)))
      else ((sw, p) in now <==> (sw, p) in was) && ((sw, p) in now ==> now[(sw, p)] == was[(sw, p)])
  {
    if Concerned(tree, cons, holdDown, force, sw, p) {
      TreePort(tree, sw, p);
      assert now[(sw, p)] == Floods(links, tree, sw, p);
    } else {
      assert SameAt(was, now, sw, p);
    }
  }

  lemma TreePort(tree: Tree, sw: Node, p: Port)
    requires sw in tree
    ensures OnTree(tree, sw, p) <==> exists w: Node :: (w, p) in tree[sw]
  {
    if OnTree(tree, sw, p) {
      var wp :| wp in tree[sw] && wp.1 == p;
      assert (wp.0, p) in tree[sw];
    }
    if w: Node :| (w, p) in tree[sw] {
      assert (w, p).1 == p;
    }
  }

  class FloodControl {
    /** _prev: the settings last sent. */
    var prev: Bits
    /** The flood settings of the switches' ports (true: NO_FLOOD is clear). */
    var bits: Bits

    /** What is remembered is what the switches have. */
    ghost predicate Synced()
      reads this
    {
      forall k | k in prev :: k in bits && bits[k] == prev[k]
    }

    constructor (bits: Bits)
      ensures Synced() && prev == map[] && this.bits == bits
    {
      prev, this.bits := map[], bits;
    }

    /** A switch connects with settings of its own; what was remembered of it is dropped. */
    method ConnectionUp(dpid: Node, ports: set<Port>, settings: Bits, noFloodByDefault: bool)
      requires Synced() && forall k | k in settings :: k.0 == dpid
      modifies this
      ensures Synced()
      ensures Connected(dpid, ports, settings, noFloodByDefault, old(bits), bits)
      ensures Connected(dpid, ports, map[], noFloodByDefault, old(prev), prev)
    {
      BroughtIsConnected(dpid, ports, settings, bits);
      BroughtIsConnected(dpid, ports, map[], prev);
      prev := Brought(dpid, map[], prev);
      bits := Brought(dpid, settings, bits);
      if noFloodByDefault {
        ghost var on, known := bits, prev;
        DisableAll(dpid, ports);
        OffIsConnected(dpid, ports, settings, old(bits), on, bits);
        OffIsConnected(dpid, ports, map[], old(prev), known, prev);
      }
    }

    /** Every real port of the switch is told not to flood. */
    method DisableAll(dpid: Node, ports: set<Port>)
      requires Synced()
      modifies this
      ensures Synced() && Disabled(dpid, ports, old(bits), bits) && Disabled(dpid, ports, old(prev), prev)
    {
      var rest := ports;
      while rest != {}
        invariant Synced() && rest <= ports
        invariant Disabled(dpid, ports - rest, old(bits), bits) && Disabled(dpid, ports - rest, old(prev), prev)
      {
        var p :| p in rest;
        rest := rest - {p};
        if p < OFPP_MAX {
          prev := prev[(dpid, p) := false];
          bits := bits[(dpid, p) := false];
        }
      }
    }

    /** One port of the innermost loop. */
    method SetPort(links: set<Link>, tree: Tree, sw: Node, p: Port)
      requires Synced()
      modifies this
      ensures Synced()
      ensures bits == old(bits)[(sw, p) := Floods(links, tree, sw, p)]
      ensures prev == old(prev)[(sw, p) := Floods(links, tree, sw, p)]
    {
      var flood := OnTree(tree, sw, p);
      if !flood {
        if IsEdgePort(links, sw, p) {
          flood := true;
        }
      }
      if (sw, p) in prev && prev[(sw, p)] == flood {
        return;
      }
      prev := prev[(sw, p) := flood];
      bits := bits[(sw, p) := flood];
    }

    /** The ports of one switch. */
    method SetSwitch(links: set<Link>, tree: Tree, sw: Node, ports: set<Port>)
      requires Synced()
      modifies this
      ensures Synced()
      ensures SendingPorts(links, tree, sw, ports, old(bits), bits)
      ensures SendingPorts(links, tree, sw, ports, old(prev), prev)
    {
      var rest := ports;
      while rest != {}
        invariant Synced() && rest <= ports
        invariant SendingPorts(links, tree, sw, ports - rest, old(bits), bits)
        invariant SendingPorts(links, tree, sw, ports - rest, old(prev), prev)
      {
        var p :| p in rest;
        rest := rest - {p};
        if p < OFPP_MAX {
          SetPort(links, tree, sw, p);
        }
      }
    }

    /** _update_tree.  None: the spanning tree could not be calculated and nothing changes. */
    method UpdateTree(links: set<Link>, cons: map<Node, Connection>, holdDown: bool, force: Option<Node>)
        returns (r: Option<Tree>)
      requires Synced()
      modifies this
      ensures Synced()
      ensures r.None? <==> SelfLinked(links)
      ensures r.None? ==> bits == old(bits) && prev == old(prev)
      ensures r.Some? ==>
        && IsSpanningForest(links, r.value)
        && SendingEveryPort(links, r.value, cons, holdDown, force, old(bits), bits)
        && SendingEveryPort(links, r.value, cons, holdDown, force, old(prev), prev)
    {
      r := CalcSpanningTree(links);
      if r.None? {
        return;
      }
      var tree := r.value;
      var rest := tree.Keys;
      while rest != {}
        invariant Synced() && rest <= tree.Keys
        invariant SendingBut(links, tree, cons, holdDown, force, rest, old(bits), bits)
        invariant SendingBut(links, tree, cons, holdDown, force, rest, old(prev), prev)
      {
        var sw :| sw in rest;
        rest := rest - {sw};
        if sw !in cons || !cons[sw].connected { continue; }
        if holdDown {
          if cons[sw].tooYoung {
            if force != Some(sw) {
              continue;
            }
          }
        }
        SetSwitch(links, tree, sw, cons[sw].ports);
      }
    }

    /** _handle_LinkEvent, where links is what discovery holds while the event is raised. */
    method HandleLinkEvent(links: set<Link>, l: Link, cons: map<Node, Connection>, holdDown: bool)
        returns (ignored: bool, r: Option<Tree>)
      requires Synced()
      modifies this
      ensures Synced()
      ensures ignored <==> RememberedOff(old(prev), l.dpid1, l.port1) && RememberedOff(old(prev), l.dpid2, l.port2)
      ensures ignored ==> prev == old(prev) && bits == old(bits)
      ensures ignored ==> Blocked(bits, l.dpid1, l.port1) && Blocked(bits, l.dpid2, l.port2)
      ensures !ignored ==> (r.None? <==> SelfLinked(links))
      ensures !ignored && r.None? ==> prev == old(prev) && bits == old(bits)
      ensures !ignored && r.Some? ==>
        && IsSpanningForest(links, r.value)
        && SendingEveryPort(links, r.value, cons, holdDown, None, old(bits), bits)
        && SendingEveryPort(links, r.value, cons, holdDown, None, old(prev), prev)
    {
      if (l.dpid1, l.port1) in prev && !prev[(l.dpid1, l.port1)] {
        if (l.dpid2, l.port2) in prev && !prev[(l.dpid2, l.port2)] {
          return true, None;
        }
      }
      ignored := false;
      r := UpdateTree(links, cons, holdDown, None);
    }
  }

  predicate RememberedOff(prev: Bits, sw: Node, p: Port) {
    (sw, p) in prev && !prev[(sw, p)]
  }

  // ---------------------------------------------------------------- loop-free flooding

  /** Each port is an end of at most one cable: links that share an end are the same link,
      or the two directions of one. */
  ghost predicate OneCablePerPort(links: set<Link>) {
    forall l, m {:trigger SameCable(l, m)} | l in links && m in links :: SameCable(l, m)
  }

  predicate SameCable(l: Link, m: Link) {
    && (l.dpid1 == m.dpid1 && l.port1 == m.port1 ==> l == m)
    && (l.dpid1 == m.dpid2 && l.port1 == m.port2 ==> m == Flip(l))
  }

  predicate Blocked(bits: Bits, sw: Node, p: Port) {
    (sw, p) in bits && !bits[(sw, p)]
  }

  /** Both ends of the two-way link flood. */
  predicate FloodsAcross(links: set<Link>, bits: Bits, l: Link) {
    TwoWay(links, l) && !Blocked(bits, l.dpid1, l.port1) && !Blocked(bits, l.dpid2, l.port2)
  }

  function FloodEdges(links: set<Link>, bits: Bits): Edges {
    set l | l in links && FloodsAcross(links, bits, l) :: (l.dpid1, l.dpid2)
  }

  /** The link leaves by a port of a switch that is updated. */
  predicate LeavesUpdated(l: Link, cons: map<Node, Connection>, holdDown: bool, force: Option<Node>) {
    && l.dpid1 in cons && Updated(l.dpid1, cons[l.dpid1], holdDown, force)
    && l.port1 in cons[l.dpid1].ports && l.port1 < OFPP_MAX
  }

  /** The update reached everything: each end of a two-way link is a port of a switch it updates. */
  ghost predicate Complete(links: set<Link>, cons: map<Node, Connection>, holdDown: bool, force: Option<Node>) {
    forall l | TwoWay(links, l) :: LeavesUpdated(l, cons, holdDown, force)
  }

  lemma TwoWayEndsAreOnTree(links: set<Link>, tree: Tree, l: Link)
    requires IsSpanningForest(links, tree) && TwoWay(links, l) && l.dpid1 != l.dpid2
    ensures l.dpid1 in tree
  {
    var a, b := l.dpid1, l.dpid2;
    assert (a, b) in TwoWayEdges(links);
    assert Step(TwoWayEdges(links), [a, b], 0);
    assert Joins(TwoWayEdges(links), [a, b], a, b);
    assert Reachable(TwoWayEdges(links), a, b);
    var p :| Joins(TreeEdges(tree), p, a, b);
    assert Step(TreeEdges(tree), p, 0);
  }

  /** A two-way link floods at both ends exactly when it is the tree's link between its switches. */
  lemma FloodsExactlyOnTree(links: set<Link>, tree: Tree, cons: map<Node, Connection>, holdDown: bool,
                            force: Option<Node>, was: Bits, now: Bits, l: Link)
    requires !SelfLinked(links) && OneCablePerPort(links)
    requires LeavesUpdated(l, cons, holdDown, force) && LeavesUpdated(Flip(l), cons, holdDown, force)
    requires IsSpanningForest(links, tree) && SendingEveryPort(links, tree, cons, holdDown, force, was, now)
    requires TwoWay(links, l)
    ensures FloodsAcross(links, now, l) <==> l.dpid1 in tree && (l.dpid2, l.port1) in tree[l.dpid1]
  {
    var m := Flip(l);
    assert Flip(m) == l && TwoWay(links, m);
    TwoWayEndsAreOnTree(links, tree, l);
    TwoWayEndsAreOnTree(links, tree, m);
    assert Concerned(tree, cons, holdDown, force, l.dpid1, l.port1);
    assert Concerned(tree, cons, holdDown, force, l.dpid2, l.port2);
    OnTreeMeansTreeLink(links, tree, l);
    OnTreeMeansTreeLink(links, tree, m);
    assert !IsEdgePort(links, l.dpid1, l.port1) && !IsEdgePort(links, l.dpid2, l.port2);
    if (l.dpid2, l.port1) in tree[l.dpid1] {
      TreeLinkIsMutual(links, tree, l);
    }
  }

  lemma OnTreeMeansTreeLink(links: set<Link>, tree: Tree, l: Link)
    requires OneCablePerPort(links) && OverLinks(links, tree) && TwoWay(links, l) && l.dpid1 in tree
    ensures OnTree(tree, l.dpid1, l.port1) <==> (l.dpid2, l.port1) in tree[l.dpid1]
  {
    if OnTree(tree, l.dpid1, l.port1) {
      var wp :| wp in tree[l.dpid1] && wp.1 == l.port1;
      assert HasLink(links, tree, l.dpid1, wp.0, wp.1) by { assert wp == (wp.0, wp.1); }
      var q :| TwoWay(links, Link(l.dpid1, wp.1, wp.0, q));
      var m := Link(l.dpid1, wp.1, wp.0, q);
      assert TwoWay(links, m);
      assert SameCable(m, l);
    }
  }

  lemma TreeLinkIsMutual(links: set<Link>, tree: Tree, l: Link)
    requires OneCablePerPort(links) && OverLinks(links, tree) && TwoWay(links, l)
    requires l.dpid1 in tree && (l.dpid2, l.port1) in tree[l.dpid1]
    ensures l.dpid2 in tree && (l.dpid1, l.port2) in tree[l.dpid2]
  {
    assert HasLink(links, tree, l.dpid1, l.dpid2, l.port1);
    var q :| l.dpid2 in tree && (l.dpid1, q) in tree[l.dpid2] && TwoWay(links, Link(l.dpid1, l.port1, l.dpid2, q));
    assert SameCable(Link(l.dpid1, l.port1, l.dpid2, q), l);
  }

  /** After a complete update the edges that flood are those of the tree. */
  lemma FloodsTree(links: set<Link>, tree: Tree, cons: map<Node, Connection>, holdDown: bool,
                   force: Option<Node>, was: Bits, now: Bits)
    requires !SelfLinked(links) && OneCablePerPort(links) && Complete(links, cons, holdDown, force)
    requires IsSpanningForest(links, tree) && SendingEveryPort(links, tree, cons, holdDown, force, was, now)
    ensures forall l | TwoWay(links, l) ::
      FloodsAcross(links, now, l) <==> l.dpid1 in tree && (l.dpid2, l.port1) in tree[l.dpid1]
    ensures FloodEdges(links, now) == TreeEdges(tree)
  {
    forall l | TwoWay(links, l)
      ensures FloodsAcross(links, now, l) <==> l.dpid1 in tree && (l.dpid2, l.port1) in tree[l.dpid1]
    {
      assert Flip(Flip(l)) == l && TwoWay(links, Flip(l));
      FloodsExactlyOnTree(links, tree, cons, holdDown, force, was, now, l);
    }
    forall e | e in TreeEdges(tree)
      ensures e in FloodEdges(links, now)
    {
      var v, wp :| v in tree && wp in tree[v] && e == (v, wp.0);
      assert HasLink(links, tree, v, wp.0, wp.1) by { assert wp == (wp.0, wp.1); }
      var q :| TwoWay(links, Link(v, wp.1, wp.0, q));
      assert FloodsAcross(links, now, Link(v, wp.1, wp.0, q));
    }
    forall e | e in FloodEdges(links, now)
      ensures e in TreeEdges(tree)
    {
      var l :| l in links && FloodsAcross(links, now, l) && e == (l.dpid1, l.dpid2);
    }
  }

  /** After a complete update the links that flood are a forest, with one link for each of
      its edges, and it still connects what the two-way links connect. */
  lemma FloodingIsLoopFree(links: set<Link>, tree: Tree, cons: map<Node, Connection>, holdDown: bool,
                           force: Option<Node>, was: Bits, now: Bits)
    requires !SelfLinked(links) && OneCablePerPort(links) && Complete(links, cons, holdDown, force)
    requires IsSpanningForest(links, tree) && SendingEveryPort(links, tree, cons, holdDown, force, was, now)
    ensures FloodEdges(links, now) == TreeEdges(tree) && Acyclic(FloodEdges(links, now))
    ensures forall a, b :: Reachable(FloodEdges(links, now), a, b) <==> Reachable(TwoWayEdges(links), a, b)
    ensures forall l, m | FloodsAcross(links, now, l) && FloodsAcross(links, now, m) ::
      l.dpid1 == m.dpid1 && l.dpid2 == m.dpid2 ==> l == m
  {
    FloodsTree(links, tree, cons, holdDown, force, was, now);
    forall l, m | FloodsAcross(links, now, l) && FloodsAcross(links, now, m) && l.dpid1 == m.dpid1 && l.dpid2 == m.dpid2
      ensures l == m
    {
      assert (l.dpid2, l.port1) in tree[l.dpid1] && (m.dpid2, m.port1) in tree[m.dpid1];
    }
  }
}
