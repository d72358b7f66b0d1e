/**
  pox/openflow/spanning_tree.py: _calc_spanning_tree.  Links are culled to one two-way link
  between any two switches, and a worklist that takes new switches from the front grows a
  forest over them.
*/
module SpanningTree {
  import opened Wrappers
  import opened Graphs
  import opened Discovery
  import opened Forests

  // ---------------------------------------------------------------- what is computed

  /** Some two-way link runs between the switches. */
  predicate TwoWayBetween(links: set<Link>, a: Node, b: Node) {
    exists l | l in links :: l.dpid1 == a && l.dpid2 == b && TwoWay(links, l)
  }

  function TwoWayEdges(links: set<Link>): Edges {
    set l | l in links && Flip(l) in links :: (l.dpid1, l.dpid2)
  }

  predicate SelfLinked(links: set<Link>) {
    exists l | l in links :: l.dpid1 == l.dpid2
  }

  function SwitchesOf(links: set<Link>): set<Node> {
    (set l | l in links :: l.dpid1) + (set l | l in links :: l.dpid2)
  }

  /** tree[v] holds (w, port of v towards w). */
  type Tree = map<Node, set<(Node, Port)>>

  function TreeEdges(tree: Tree): Edges {
    set v, wp | v in tree && wp in tree[v] :: (v, wp.0)
  }

  /** Every tree edge runs over one two-way link, named by its port at either end. */
  ghost predicate OverLinks(links: set<Link>, tree: Tree) {
    forall v, w, p {:trigger HasLink(links, tree, v, w, p)} | v in tree && (w, p) in tree[v] ::
      HasLink(links, tree, v, w, p)
  }

  ghost predicate HasLink(links: set<Link>, tree: Tree, v: Node, w: Node, p: Port) {
    exists q :: w in tree && (v, q) in tree[w] && TwoWay(links, Link(v, p, w, q))
  }

  ghost predicate OnePortEach(tree: Tree) {
    forall v, w, p, q | v in tree && (w, p) in tree[v] && (w, q) in tree[v] :: p == q
  }

  ghost predicate IsSpanningForest(links: set<Link>, tree: Tree) {
    && Symmetric(TreeEdges(tree)) && Acyclic(TreeEdges(tree))
    && OverLinks(links, tree) && OnePortEach(tree)
    && (forall a, b :: Reachable(TreeEdges(tree), a, b) <==> Reachable(TwoWayEdges(links), a, b))
  }

  // ---------------------------------------------------------------- culling

  /** A cell of adj: the list of links first collected, later the port of the one kept. */
  datatype Cell = Many(links: seq<Link>) | One(port: Port)

  type Adj = map<(Node, Node), Cell>

  ghost predicate Between(l: Link, a: Node, b: Node) {
    l.dpid1 == a && l.dpid2 == b
  }

  /** The cell still holds all links from a to b, and is there only if there are any. */
  ghost predicate Collected(links: set<Link>, adj: Adj, a: Node, b: Node) {
    if (a, b) in adj then
      && adj[(a, b)].Many? && adj[(a, b)].links != []
      && (forall l :: l in adj[(a, b)].links <==> l in links && Between(l, a, b))
    else
      forall l | l in links :: !Between(l, a, b)
  }

  /** The pair is joined by the two ends of one two-way link. */
  ghost predicate Kept(links: set<Link>, adj: Adj, a: Node, b: Node) {
    && (a, b) in adj && (b, a) in adj && adj[(a, b)].One? && adj[(b, a)].One?
    && TwoWay(links, Link(a, adj[(a, b)].port, b, adj[(b, a)].port))
  }

  /** The pair is done with: kept if some link runs both ways, and gone if not. */
  ghost predicate Settled(links: set<Link>, adj: Adj, a: Node, b: Node) {
    if TwoWayBetween(links, a, b) then Kept(links, adj, a, b) else (a, b) !in adj
  }

  /** Between the passes a pair is settled or untouched, and a two-way pair is so both ways. */
  ghost predicate Culling(links: set<Link>, adj: Adj, a: Node, b: Node) {
    || Settled(links, adj, a, b)
    || (Collected(links, adj, a, b) && (TwoWayBetween(links, a, b) ==> Collected(links, adj, b, a)))
  }

  ghost predicate Culled(links: set<Link>, adj: Adj) {
    forall a, b :: Settled(links, adj, a, b)
  }

  /** All links and switches. */
  method Collect(links: set<Link>) returns (adj: Adj, switches: set<Node>)
    ensures forall a, b :: Collected(links, adj, a, b)
    ensures switches == SwitchesOf(links)
  {
    adj, switches := map[], {};
    var rest := links;
    while rest != {}
      invariant rest <= links
      invariant forall a, b :: Collected(links - rest, adj, a, b)
      invariant switches == SwitchesOf(links - rest)
    {
      var l :| l in rest;
      var key := (l.dpid1, l.dpid2);
      ghost var was, seen := adj, links - rest;
      adj := adj[key := Many((if key in adj && adj[key].Many? then adj[key].links else []) + [l])];
      switches := switches + {l.dpid1, l.dpid2};
      rest := rest - {l};
      assert links - rest == seen + {l};
      forall a, b
        ensures Collected(links - rest, adj, a, b)
      {
        assert Collected(seen, was, a, b);
      }
    }
    assert links - rest == links;
  }

  lemma TwoWayIsMutual(links: set<Link>, a: Node, b: Node)
    ensures TwoWayBetween(links, a, b) <==> TwoWayBetween(links, b, a)
  {
    forall l | TwoWay(links, l)
      ensures TwoWay(links, Flip(l))
    {
      assert Flip(Flip(l)) == l;
    }
    if TwoWayBetween(links, a, b) {
      var l :| l in links && l.dpid1 == a && l.dpid2 == b && TwoWay(links, l);
      assert Flip(l) in links && TwoWay(links, Flip(l));
    }
    if TwoWayBetween(links, b, a) {
      var l :| l in links && l.dpid1 == b && l.dpid2 == a && TwoWay(links, l);
      assert Flip(l) in links && TwoWay(links, Flip(l));
    }
  }

  /** One step of the culling loops; fails on a switch linked to itself. */
  method CullPair(links: set<Link>, adj: Adj, s1: Node, s2: Node) returns (r: Option<Adj>)
    requires forall a, b :: Culling(links, adj, a, b)
    requires forall s :: Collected(links, adj, s, s)
    ensures r.None? <==> s1 == s2 && (s1, s2) in adj
    ensures r.Some? ==>
      && Settled(links, r.value, s1, s2)
      && (forall a, b :: Culling(links, r.value, a, b))
      && (forall s :: Collected(links, r.value, s, s))
      && (forall a, b | Settled(links, adj, a, b) :: Settled(links, r.value, a, b))
  {
    assert Culling(links, adj, s1, s2) && Collected(links, adj, s1, s1);
    if (s1, s2) !in adj {
      return Some(adj);
    }
    if adj[(s1, s2)].One? {
      return Some(adj);
    }
    if s1 == s2 {
      return None;
    }
    var list := adj[(s1, s2)].links;
    for n := 0 to |list|
      invariant forall m | 0 <= m < n :: Flip(list[m]) !in links
    {
      var l := list[n];
      if Flip(l) in links {
        assert TwoWay(links, l) && TwoWayBetween(links, s1, s2);
        var kept := adj[(s1, s2) := One(l.port1)];
        kept := kept[(s2, s1) := One(l.port2)];
        KeptAcross(links, adj, kept, s1, s2, l);
        return Some(kept);
      }
    }
    assert !TwoWayBetween(links, s1, s2);
    var gone := adj - {(s1, s2)};
    if (s2, s1) in gone {
      gone := gone - {(s2, s1)};
    }
    GoneAcross(links, adj, gone, s1, s2);
    return Some(gone);
  }

  lemma KeptAcross(links: set<Link>, adj: Adj, kept: Adj, s1: Node, s2: Node, l: Link)
    requires forall a, b :: Culling(links, adj, a, b)
    requires forall s :: Collected(links, adj, s, s)
    requires s1 != s2 && Between(l, s1, s2) && TwoWay(links, l) && TwoWayBetween(links, s1, s2)
    requires kept == adj[(s1, s2) := One(l.port1)][(s2, s1) := One(l.port2)]
    ensures Settled(links, kept, s1, s2)
    ensures forall a, b :: Culling(links, kept, a, b)
    ensures forall s :: Collected(links, kept, s, s)
    ensures forall a, b | Settled(links, adj, a, b) :: Settled(links, kept, a, b)
  {
    assert Flip(Flip(l)) == l;
    TwoWayIsMutual(links, s1, s2);
    forall a, b
      ensures Culling(links, kept, a, b)
      ensures Settled(links, adj, a, b) ==> Settled(links, kept, a, b)
    {
      assert Culling(links, adj, a, b);
    }
    forall s
      ensures Collected(links, kept, s, s)
    {
      assert Collected(links, adj, s, s);
    }
  }

  lemma GoneAcross(links: set<Link>, adj: Adj, gone: Adj, s1: Node, s2: Node)
    requires forall a, b :: Culling(links, adj, a, b)
    requires forall s :: Collected(links, adj, s, s)
    requires s1 != s2 && !TwoWayBetween(links, s1, s2)
    requires gone == adj - {(s1, s2), (s2, s1)}
    ensures Settled(links, gone, s1, s2)
    ensures forall a, b :: Culling(links, gone, a, b)
    ensures forall s :: Collected(links, gone, s, s)
    ensures forall a, b | Settled(links, adj, a, b) :: Settled(links, gone, a, b)
  {
    TwoWayIsMutual(links, s1, s2);
    forall a, b
      ensures Culling(links, gone, a, b)
      ensures Settled(links, adj, a, b) ==> Settled(links, gone, a, b)
    {
      assert Culling(links, adj, a, b);
    }
    forall s
      ensures Collected(links, gone, s, s)
    {
      assert Collected(links, adj, s, s);
    }
  }

  /** The culling loops.  They fail exactly on a switch linked to itself. */
  method Cull(links: set<Link>, collected: Adj, switches: set<Node>) returns (r: Option<Adj>)
    requires switches == SwitchesOf(links) && forall a, b :: Collected(links, collected, a, b)
    ensures r.None? <==> SelfLinked(links)
    ensures r.Some? ==> Culled(links, r.value)
  {
    var adj := collected;
    var sws := Values(switches);
    for i := 0 to |sws|
      invariant forall a, b :: Culling(links, adj, a, b)
      invariant forall s :: Collected(links, adj, s, s)
      invariant forall x, y | 0 <= x < i && 0 <= y < |sws| :: Settled(links, adj, sws[x], sws[y])
    {
      for j := 0 to |sws|
        invariant forall a, b :: Culling(links, adj, a, b)
        invariant forall s :: Collected(links, adj, s, s)
        invariant forall x, y | 0 <= x < i && 0 <= y < |sws| :: Settled(links, adj, sws[x], sws[y])
        invariant forall y | 0 <= y < j :: Settled(links, adj, sws[i], sws[y])
      {
        var step := CullPair(links, adj, sws[i], sws[j]);
        if step.None? {
          assert Collected(links, adj, sws[i], sws[i]);
          var l := adj[(sws[i], sws[i])].links[0];
          assert l in adj[(sws[i], sws[i])].links;
          return None;
        }
        adj := step.value;
      }
    }
    AllSettled(links, adj, sws);
    return Some(adj);
  }

  lemma CollectedEnds(links: set<Link>, adj: Adj, a: Node, b: Node)
    requires Collected(links, adj, a, b) && (a, b) in adj
    ensures a in SwitchesOf(links) && b in SwitchesOf(links)
  {
    var l := adj[(a, b)].links[0];
    assert l in adj[(a, b)].links;
  }

  lemma SelfLinkStays(links: set<Link>, adj: Adj, l: Link)
    requires l in links && l.dpid1 == l.dpid2 && Collected(links, adj, l.dpid1, l.dpid1)
    ensures !Settled(links, adj, l.dpid1, l.dpid1)
  {
    assert Between(l, l.dpid1, l.dpid1);
  }

  lemma AllSettled(links: set<Link>, adj: Adj, sws: seq<Node>)
    requires forall n :: n in sws <==> n in SwitchesOf(links)
    requires forall a, b :: Culling(links, adj, a, b)
    requires forall s :: Collected(links, adj, s, s)
    requires forall x, y | 0 <= x < |sws| && 0 <= y < |sws| :: Settled(links, adj, sws[x], sws[y])
    ensures Culled(links, adj) && !SelfLinked(links)
  {
    forall a, b
      ensures Settled(links, adj, a, b)
    {
      assert Culling(links, adj, a, b);
      if a in sws && b in sws {
        var x :| 0 <= x < |sws| && sws[x] == a;
        var y :| 0 <= y < |sws| && sws[y] == b;
        assert Settled(links, adj, sws[x], sws[y]);
      } else if (a, b) in adj && Collected(links, adj, a, b) {
        CollectedEnds(links, adj, a, b);
      }
    }
    forall l | l in links
      ensures l.dpid1 != l.dpid2
    {
      if l.dpid1 == l.dpid2 {
        SelfLinkStays(links, adj, l);
      }
    }
  }

  // ---------------------------------------------------------------- growing

  /** Adj after culling: the port of each switch towards each of its neighbours. */
  type Ports = map<(Node, Node), Port>

  function PortsOf(adj: Adj): Ports {
    map ab | ab in adj && adj[ab].One? :: adj[ab].port
  }

  predicate BothWays(ports: Ports, a: Node, b: Node) {
    (a, b) in ports ==> (b, a) in ports && a != b
  }

  ghost predicate Paired(ports: Ports) {
    forall a, b {:trigger BothWays(ports, a, b)} :: BothWays(ports, a, b)
  }

  /** The row of v records exactly its edges in the forest, with their ports. */
  ghost predicate Row(ports: Ports, f: Forest, v: Node, row: set<(Node, Port)>) {
    forall w, p :: (w, p) in row <==> (v, w) in f.edges && (v, w) in ports && ports[(v, w)] == p
  }

  ghost predicate Mirrors(ports: Ports, tree: Tree, f: Forest) {
    && tree.Keys == f.nodes && f.edges <= ports.Keys
    && (forall v {:trigger Row(ports, f, v, tree[v])} | v in tree :: Row(ports, f, v, tree[v]))
  }

  /** The tree with an edge from v to a new switch w. */
  function Attached(ports: Ports, tree: Tree, v: Node, w: Node): Tree
    requires (v, w) in ports && (w, v) in ports
  {
    tree[v := (if v in tree then tree[v] else {}) + {(w, ports[(v, w)])}][w := {(v, ports[(w, v)])}]
  }

  lemma AttachedMirrors(ports: Ports, tree: Tree, f: Forest, v: Node, w: Node)
    requires Mirrors(ports, tree, f) && f.Valid() && v in f.root && v != w
    requires (v, w) in ports && (w, v) in ports && w !in f.nodes
    ensures Mirrors(ports, Attached(ports, tree, v, w), f.Grafted(v, w))
  {
    var t, g := Attached(ports, tree, v, w), f.Grafted(v, w);
    forall u | u in t
      ensures Row(ports, g, u, t[u])
    {
      if u in tree {
        assert Row(ports, f, u, tree[u]);
      }
    }
  }

  method Least(s: set<Node>) returns (least: Node)
    requires s != {}
    ensures least in s && forall n | n in s :: least <= n
  {
    least :| least in s;
    var rest := s - {least};
    while rest != {}
      invariant rest <= s && least in s
      invariant forall n | n in s :: n in rest || least <= n
    {
      var n :| n in rest;
      if n < least {
        least := n;
      }
      rest := rest - {n};
    }
  }

  method Sorted(s: set<Node>) returns (r: seq<Node>)
    ensures |r| == |s| && (forall n :: n in r <==> n in s)
    ensures forall a, b | 0 <= a < b < |r| :: r[a] < r[b]
  {
    r := [];
    var rest := s;
    while rest != {}
      invariant rest <= s && |r| + |rest| == |s|
      invariant forall n :: n in r <==> n in s - rest
      invariant forall a, b | 0 <= a < b < |r| :: r[a] < r[b]
      invariant forall a, m | 0 <= a < |r| && m in rest :: r[a] < m
    {
      var least := Least(rest);
      r, rest := r + [least], rest - {least};
    }
  }

  /** What a visit of v makes of the forest: new switches, all under the root of v. */
  ghost predicate Extends(f: Forest, g: Forest, v: Node, more: set<Node>) {
    && more !! f.nodes && v !in more
    && g.nodes == f.nodes + more + (if more == {} then {} else {v})
    && f.root.Keys <= g.root.Keys && v in f.root && v in g.rank && more <= g.root.Keys
    && (forall w | w in f.root && w !in more :: g.root[w] == f.root[w])
    && (forall w | w in more :: g.root[w] == f.root[v])
  }

  ghost predicate Joined(g: Forest, v: Node, w: Node) {
    v in g.nodes && w in g.nodes && v in g.root && w in g.root && g.root[v] == g.root[w]
  }

  /** A switch whose neighbours were all looked at shares its tree with them. */
  ghost predicate Closed(ports: Ports, f: Forest, v: Node) {
    forall w {:trigger Joined(f, v, w)} | (v, w) in ports :: Joined(f, v, w)
  }

  lemma GraftExtends(f: Forest, g: Forest, v: Node, w: Node, more: set<Node>)
    requires Extends(f, g, v, more) && (v in f.nodes || f.root[v] == v)
    requires v in g.root && v in g.rank && v != w && w !in g.nodes
    ensures Extends(f, g.Grafted(v, w), v, more + {w})
  {
  }

  lemma GraftJoins(g: Forest, v: Node, w: Node)
    requires g.Valid() && v in g.root && v in g.rank && v != w && w !in g.nodes
    ensures Joined(g.Grafted(v, w), v, w)
    ensures forall u | Joined(g, v, u) :: Joined(g.Grafted(v, w), v, u)
  {
  }

  lemma AttachKeeps(ports: Ports, t: Tree, f: Forest, g: Forest, v: Node, w: Node, more: set<Node>)
    requires g.Valid() && Mirrors(ports, t, g) && Extends(f, g, v, more)
    requires v in f.nodes || f.root[v] == v
    requires v != w && (v, w) in ports && (w, v) in ports && w !in g.nodes
    ensures var h := g.Grafted(v, w);
            && h.Valid() && Mirrors(ports, Attached(ports, t, v, w), h) && Extends(f, h, v, more + {w})
            && Joined(h, v, w) && (forall u | Joined(g, v, u) :: Joined(h, v, u))
  {
    GraftedIsValid(g, v, w);
    AttachedMirrors(ports, t, g, v, w);
    GraftExtends(f, g, v, w, more);
    GraftJoins(g, v, w);
  }

  /** All neighbours of v but some share its tree. */
  ghost predicate JoinedBut(ports: Ports, g: Forest, v: Node, neighbours: set<Node>) {
    forall w {:trigger Joined(g, v, w)} | (v, w) in ports && w !in neighbours :: Joined(g, v, w)
  }

  lemma OneMoreJoined(ports: Ports, g: Forest, h: Forest, v: Node, w: Node, neighbours: set<Node>)
    requires JoinedBut(ports, g, v, neighbours + {w}) && Joined(h, v, w)
    requires forall u | Joined(g, v, u) :: Joined(h, v, u)
    ensures JoinedBut(ports, h, v, neighbours)
  {
    forall u | (v, u) in ports && u !in neighbours
      ensures Joined(h, v, u)
    {
      assert u == w || Joined(g, v, u);
    }
  }

  lemma AllButNoneJoined(ports: Ports, g: Forest, v: Node)
    requires JoinedBut(ports, g, v, {})
    ensures Closed(ports, g, v)
  {
  }

  /** The neighbours of v that are not in the tree yet join it. */
  method Visit(ports: Ports, v: Node, tree: Tree, ghost f: Forest)
      returns (t: Tree, more: set<Node>, ghost g: Forest)
    requires Paired(ports) && f.Valid() && Mirrors(ports, tree, f)
    requires v in f.rank && v in f.root && (v in f.nodes || f.root[v] == v)
    requires forall w | w in f.nodes && (v, w) in ports :: Joined(f, v, w)
    ensures g.Valid() && Mirrors(ports, t, g) && Extends(f, g, v, more) && Closed(ports, g, v)
    ensures forall w | w in more :: (v, w) in ports
  {
    t, more, g := tree, {}, f;
    var neighbours := set ab | ab in ports.Keys && ab.0 == v :: ab.1;
    while neighbours != {}
      invariant forall w | w in neighbours || w in more :: (v, w) in ports
      invariant g.Valid() && Mirrors(ports, t, g) && Extends(f, g, v, more)
      invariant JoinedBut(ports, g, v, neighbours)
    {
      var w :| w in neighbours;
      neighbours := neighbours - {w};
      assert w in f.nodes ==> Joined(f, v, w);
      ghost var was := g;
      t, more, g := Meet(ports, v, w, t, more, f, g);
      OneMoreJoined(ports, was, g, v, w, neighbours);
    }
    AllButNoneJoined(ports, g, v);
  }

  /** One neighbour. */
  method Meet(ports: Ports, v: Node, w: Node, tree: Tree, before: set<Node>, ghost f: Forest, ghost g: Forest)
      returns (t: Tree, more: set<Node>, ghost h: Forest)
    requires Paired(ports) && (v, w) in ports && v in f.root && (v in f.nodes || f.root[v] == v)
    requires g.Valid() && Mirrors(ports, tree, g) && Extends(f, g, v, before)
    requires w in f.nodes ==> Joined(f, v, w)
    ensures h.Valid() && Mirrors(ports, t, h) && Extends(f, h, v, more) && before <= more <= before + {w}
    ensures Joined(h, v, w) && forall u | Joined(g, v, u) :: Joined(h, v, u)
  {
    t, more, h := tree, before, g;
    if w in t {
      return;
    }
    assert BothWays(ports, v, w);
    AttachKeeps(ports, t, f, g, v, w, more);
    more := more + {w};
    t := t[v := (if v in t then t[v] else {}) + {(w, ports[(v, w)])}];
    t := t[w := {(v, ports[(w, v)])}];
    h := g.Grafted(v, w);
  }

  /** Between visits: whatever is done shares its tree with all its neighbours, and whatever
      is reached but not done is next in line and belongs to the tree now growing.  So when
      the line is empty, a switch not done has no neighbour in the tree. */
  ghost predicate Orderly(ports: Ports, f: Forest, done: set<Node>, line: set<Node>, cur: Node) {
    && line <= f.nodes
    && (forall v {:trigger Closed(ports, f, v)} | v in done :: Closed(ports, f, v))
    && (forall v | v in f.nodes && v !in done :: v in line && v in f.root && f.root[v] == cur)
  }

  lemma NeighboursJoin(ports: Ports, f: Forest, done: set<Node>, line: set<Node>, cur: Node, v: Node)
    requires Paired(ports) && Orderly(ports, f, done, line, cur) && v !in done
    requires v in f.nodes || line == {}
    ensures v !in line ==> v !in f.nodes
    ensures forall w | w in f.nodes && (v, w) in ports :: Joined(f, v, w)
  {
    forall w | w in f.nodes && (v, w) in ports
      ensures Joined(f, v, w)
    {
      assert BothWays(ports, v, w);
      if w in done {
        assert Closed(ports, f, w);
        assert Joined(f, w, v);
      }
    }
  }

  lemma VisitIsOrderly(ports: Ports, f: Forest, g: Forest, done: set<Node>, line: set<Node>, cur: Node,
                       v: Node, more: set<Node>)
    requires Orderly(ports, f, done, line + {v}, cur) || (line == {} && Orderly(ports, f, done, {}, cur))
    requires Extends(f, g, v, more) && Closed(ports, g, v) && f.root[v] == cur && v !in done
    requires v in f.nodes || line == {}
    ensures Orderly(ports, g, done + {v}, line + more, cur)
  {
    forall u | u in done + {v}
      ensures Closed(ports, g, u)
    {
      if u != v {
        assert Closed(ports, f, u);
        forall w | (u, w) in ports
          ensures Joined(g, u, w)
        {
          assert Joined(f, u, w);
        }
      }
    }
  }

  lemma Plant(ports: Ports, tree: Tree, f: Forest, v: Node, done: set<Node>) returns (g: Forest)
    requires f.Valid() && Mirrors(ports, tree, f) && v !in f.nodes
    requires forall u | u in done :: Closed(ports, f, u)
    requires f.nodes <= done
    ensures g == f.Planted(v) && g.Valid() && Mirrors(ports, tree, g) && Orderly(ports, g, done, {}, v)
    ensures forall w | w in f.nodes && Joined(f, v, w) :: Joined(g, v, w)
  {
    PlantedIsValid(f, v);
    g := f.Planted(v);
    forall u | u in tree
      ensures Row(ports, g, u, tree[u])
    {
      assert Row(ports, f, u, tree[u]);
    }
    forall u | u in done
      ensures Closed(ports, g, u)
    {
      assert Closed(ports, f, u);
      forall w | (u, w) in ports
        ensures Joined(g, u, w)
      {
        assert Joined(f, u, w);
      }
    }
  }

  /** One new switch is taken from the worklist: the next in line, or else a root. */
  method TakeSwitch(ports: Ports, v: Node, tree: Tree, ghost f: Forest, ghost done: set<Node>,
                    ghost line: set<Node>, ghost cur: Node)
      returns (t: Tree, more: set<Node>, ghost g: Forest, ghost root: Node)
    requires Paired(ports) && f.Valid() && Mirrors(ports, tree, f) && v !in done
    requires Orderly(ports, f, done, line, cur)
    requires v in line || line == {}
    ensures g.Valid() && Mirrors(ports, t, g)
    ensures Orderly(ports, g, done + {v}, (line - {v}) + more, root) && f.nodes <= g.nodes
    ensures forall w | w in more :: (v, w) in ports
  {
    ghost var h;
    NeighboursJoin(ports, f, done, line, cur, v);
    if v in f.nodes {
      h, root := f, cur;
    } else {
      h := Plant(ports, tree, f, v, done);
      root := v;
    }
    t, more, g := Visit(ports, v, tree, h);
    assert (line - {v}) + {v} == line || line == {};
    VisitIsOrderly(ports, h, g, done, line - {v}, root, v, more);
  }

  ghost function Elements(s: seq<Node>): set<Node> {
    set n | n in s
  }

  /** The worklist: switches of the growing tree in front, then what is left of the first
      sorting, in which every switch not done still appears. */
  ghost predicate Listed(ports: Ports, switches: set<Node>, q: seq<Node>, more: set<Node>, done: set<Node>,
                         f: Forest, line: seq<Node>, rest: seq<Node>, cur: Node) {
    && q == line + rest
    && Elements(line) + Elements(rest) + more + done <= switches
    && Orderly(ports, f, done, Elements(line) + more, cur)
    && switches <= done + Elements(rest)
  }

  lemma Merged(ports: Ports, switches: set<Node>, q: seq<Node>, more: set<Node>, done: set<Node>,
               f: Forest, line: seq<Node>, rest: seq<Node>, cur: Node, sorted: seq<Node>)
    requires Listed(ports, switches, q, more, done, f, line, rest, cur) && Elements(sorted) == more
    ensures Listed(ports, switches, sorted + q, {}, done, f, sorted + line, rest, cur)
  {
    assert Elements(sorted + line) + {} == Elements(line) + more;
    assert sorted + q == (sorted + line) + rest;
  }

  lemma Popped(ports: Ports, switches: set<Node>, q: seq<Node>, done: set<Node>,
               f: Forest, line: seq<Node>, rest: seq<Node>, cur: Node)
      returns (line': seq<Node>, rest': seq<Node>)
    requires Listed(ports, switches, q, {}, done, f, line, rest, cur) && q != []
    ensures q[1..] == line' + rest' && q[0] in switches
    ensures q[0] in Elements(line) || line == []
    ensures Elements(line) - {q[0]} <= Elements(line') <= Elements(line)
    ensures Elements(rest) - {q[0]} <= Elements(rest') <= Elements(rest)
    ensures Elements(line) + Elements(rest) <= Elements(line') + Elements(rest') + {q[0]}
  {
    if line != [] {
      line', rest' := line[1..], rest;
      assert line == [line[0]] + line';
    } else {
      line', rest' := [], rest[1..];
      assert rest == [rest[0]] + rest';
    }
  }

  lemma OneFewer(switches: set<Node>, done: set<Node>, v: Node)
    requires v in switches && v !in done
    ensures |switches - (done + {v})| < |switches - done|
  {
    assert switches - done == (switches - (done + {v})) + {v};
  }

  lemma Relisted(ports: Ports, switches: set<Node>, q: seq<Node>, v: Node, more: set<Node>, done: set<Node>,
                 f: Forest, g: Forest, all: set<Node>, known: set<Node>, line: seq<Node>, rest: seq<Node>, cur: Node)
    requires q == line + rest && v in done && all + known + done + more <= switches
    requires all - {v} <= Elements(line) <= all && known - {v} <= Elements(rest) <= known
    requires all <= f.nodes <= g.nodes && switches <= done + known
    requires Orderly(ports, g, done, (all - {v}) + more, cur) || (more == {} && Orderly(ports, g, done, all, cur))
    ensures Listed(ports, switches, q, more, done, g, line, rest, cur)
  {
  }

  /** The body of the worklist loop once the worklist is sorted: pop, and visit unless done. */
  method Pop(ports: Ports, switches: set<Node>, q: seq<Node>, tree: Tree, done: set<Node>,
             ghost f: Forest, ghost line: seq<Node>, ghost rest: seq<Node>, ghost cur: Node)
      returns (t: Tree, more: set<Node>, done': set<Node>,
               ghost g: Forest, ghost line': seq<Node>, ghost rest': seq<Node>, ghost root: Node)
    requires Paired(ports) && forall ab | ab in ports :: ab.1 in switches
    requires f.Valid() && Mirrors(ports, tree, f) && q != []
    requires Listed(ports, switches, q, {}, done, f, line, rest, cur)
    ensures g.Valid() && Mirrors(ports, t, g)
    ensures Listed(ports, switches, q[1..], more, done', g, line', rest', root)
    ensures (done' == done && more == {}) || |switches - done'| < |switches - done|
  {
    ghost var all, known := Elements(line), Elements(rest);
    line', rest' := Popped(ports, switches, q, done, f, line, rest, cur);
    var v := q[0];
    if v in done {
      t, more, done', g, root := tree, {}, done, f, cur;
    } else {
      t, more, g, root := TakeSwitch(ports, v, tree, f, done, all, cur);
      OneFewer(switches, done, v);
      done' := done + {v};
      assert more <= switches;
    }
    Relisted(ports, switches, q[1..], v, more, done', f, g, all, known, line', rest', root);
  }

  /** The worklist loop of _calc_spanning_tree. */
  method Grow(ports: Ports, switches: set<Node>) returns (tree: Tree, ghost f: Forest)
    requires Paired(ports) && forall ab | ab in ports :: ab.0 in switches && ab.1 in switches
    ensures f.Valid() && Mirrors(ports, tree, f)
    ensures forall a, b | (a, b) in ports :: Joined(f, a, b)
  {
    var q: seq<Node>, more, done := [], switches, {};
    tree := map[];
    f := Forest({}, {}, map[], 0, map[]);
    ghost var line: seq<Node>, rest: seq<Node>, cur, first := [], [], 0, true;
    while true
      invariant f.Valid() && Mirrors(ports, tree, f)
      invariant first ==> more == switches && q == [] && done == {} && f.nodes == {} && line == []
      invariant !first ==> Listed(ports, switches, q, more, done, f, line, rest, cur)
      decreases |switches - done|, |q| + |more|
    {
      var sorted := Sorted(more);
      if first {
        rest, first := sorted, false;
        FirstListed(ports, switches, f, sorted);
      } else {
        Merged(ports, switches, q, more, done, f, line, rest, cur, sorted);
        line := sorted + line;
      }
      q := sorted + q;
      if |q| == 0 { break; }
      tree, more, done, f, line, rest, cur := Pop(ports, switches, q, tree, done, f, line, rest, cur);
      q := q[1..];
    }
    AllJoined(ports, switches, done, f, line, rest, cur);
  }

  lemma FirstListed(ports: Ports, switches: set<Node>, f: Forest, sorted: seq<Node>)
    requires f.nodes == {} && forall n :: n in sorted <==> n in switches
    ensures sorted + [] == [] + sorted
    ensures Listed(ports, switches, sorted + [], {}, {}, f, [], sorted, 0)
  {
  }

  lemma AllJoined(ports: Ports, switches: set<Node>, done: set<Node>, f: Forest,
                  line: seq<Node>, rest: seq<Node>, cur: Node)
    requires forall ab | ab in ports :: ab.0 in switches
    requires Listed(ports, switches, [], {}, done, f, line, rest, cur)
    ensures forall a, b | (a, b) in ports :: Joined(f, a, b)
  {
    forall a, b | (a, b) in ports
      ensures Joined(f, a, b)
    {
      assert Closed(ports, f, a);
    }
  }

  // ---------------------------------------------------------------- the whole calculation

  lemma CulledIsPaired(links: set<Link>, adj: Adj)
    requires Culled(links, adj) && !SelfLinked(links)
    ensures Paired(PortsOf(adj)) && PortsOf(adj).Keys == TwoWayEdges(links)
    ensures forall ab | ab in PortsOf(adj) :: ab.0 in SwitchesOf(links) && ab.1 in SwitchesOf(links)
    ensures forall a, b | (a, b) in PortsOf(adj) :: Kept(links, adj, a, b)
  {
    var ports := PortsOf(adj);
    forall a, b | (a, b) in ports
      ensures Kept(links, adj, a, b) && a in SwitchesOf(links) && b in SwitchesOf(links) && a != b
    {
      assert Settled(links, adj, a, b);
      var l := Link(a, adj[(a, b)].port, b, adj[(b, a)].port);
      assert l in links;
    }
    forall a: Node, b: Node
      ensures BothWays(ports, a, b)
    {
      if (a, b) in ports {
        assert Kept(links, adj, a, b);
      }
    }
    forall ab
      ensures ab in ports <==> ab in TwoWayEdges(links)
    {
      assert Settled(links, adj, ab.0, ab.1);
      if ab in ports {
        assert Kept(links, adj, ab.0, ab.1);
        var l := Link(ab.0, adj[ab].port, ab.1, adj[(ab.1, ab.0)].port);
        assert l in links && Flip(l) in links;
      }
      if ab in TwoWayEdges(links) {
        var l :| l in links && Flip(l) in links && ab == (l.dpid1, l.dpid2);
        assert TwoWay(links, l);
      }
    }
  }

  lemma MirroredTreeEdges(ports: Ports, tree: Tree, f: Forest)
    requires Mirrors(ports, tree, f) && f.Valid()
    ensures TreeEdges(tree) == f.edges
  {
    forall e | e in TreeEdges(tree)
      ensures e in f.edges
    {
      var v, wp :| v in tree && wp in tree[v] && e == (v, wp.0);
      assert Row(ports, f, v, tree[v]);
      assert wp == (wp.0, wp.1);
    }
    forall e | e in f.edges
      ensures e in TreeEdges(tree)
    {
      var v, w := e.0, e.1;
      assert e == (v, w);
      assert Row(ports, f, v, tree[v]);
      assert (w, ports[(v, w)]) in tree[v];
    }
  }

  lemma MirroredPorts(links: set<Link>, adj: Adj, tree: Tree, f: Forest)
    requires Mirrors(PortsOf(adj), tree, f) && f.Valid()
    requires forall a, b | (a, b) in PortsOf(adj) :: Kept(links, adj, a, b)
    ensures OverLinks(links, tree) && OnePortEach(tree)
  {
    var ports := PortsOf(adj);
    forall v, w, p | v in tree && (w, p) in tree[v]
      ensures HasLink(links, tree, v, w, p)
    {
      assert Row(ports, f, v, tree[v]);
      assert Kept(links, adj, v, w);
      assert (w, v) in f.edges;
      assert Row(ports, f, w, tree[w]);
      assert (v, ports[(w, v)]) in tree[w];
    }
    forall v, w, p, q | v in tree && (w, p) in tree[v] && (w, q) in tree[v]
      ensures p == q
    {
      assert Row(ports, f, v, tree[v]);
    }
  }

  /** _calc_spanning_tree.  None is its assertion failure on a switch linked to itself. */
  method CalcSpanningTree(links: set<Link>) returns (r: Option<Tree>)
    ensures r.None? <==> SelfLinked(links)
    ensures r.Some? ==> IsSpanningForest(links, r.value)
  {
    var adj, switches := Collect(links);
    var culled := Cull(links, adj, switches);
    if culled.None? {
      return None;
    }
    CulledIsPaired(links, culled.value);
    var tree, f := Grow(PortsOf(culled.value), switches);
    MirroredTreeEdges(PortsOf(culled.value), tree, f);
    MirroredPorts(links, culled.value, tree, f);
    ValidForestIsAcyclic(f);
    forall a, b
      ensures Reachable(TreeEdges(tree), a, b) <==> Reachable(TwoWayEdges(links), a, b)
    {
      JoinedSpans(links, PortsOf(culled.value), f, a, b);
    }
    r := Some(tree);
  }

  lemma JoinedSpans(links: set<Link>, ports: Ports, f: Forest, a: Node, b: Node)
    requires f.Valid() && f.edges <= ports.Keys && ports.Keys == TwoWayEdges(links)
    requires forall v, w | (v, w) in ports :: Joined(f, v, w)
    ensures Reachable(f.edges, a, b) <==> Reachable(TwoWayEdges(links), a, b)
  {
    forall v, w | (v, w) in TwoWayEdges(links)
      ensures v in f.nodes && w in f.nodes && f.root[v] == f.root[w]
    {
      assert Joined(f, v, w);
    }
    ForestSpans(f, TwoWayEdges(links), a, b);
  }
}
