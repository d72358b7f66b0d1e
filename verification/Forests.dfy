/**
  Forests grown one edge at a time.  A grown forest carries ranks in which every node has
  at most one lower neighbour; that is what rules out cycles.
*/
module Forests {
  import opened Graphs

  /** A closed walk through at least three different nodes. */
  ghost predicate IsCycle(e: Edges, c: seq<Node>) {
    IsWalk(e, c) && |c| >= 3 && NoRepeats(c) && (c[|c| - 1], c[0]) in e
  }

  ghost predicate Acyclic(e: Edges) {
    && (forall v :: (v, v) !in e)
    && (forall c :: !IsCycle(e, c))
  }

  /** edges: both directions of each tree edge; nodes: what the tree has reached;
      rank: the order in which nodes were reached, all below next; root: where each tree began. */
  datatype Forest = Forest(edges: Edges, nodes: set<Node>, rank: map<Node, nat>, next: nat, root: map<Node, Node>)
  {
    predicate OneParent(v: Node, a: Node, b: Node)
      requires v in rank && a in rank && b in rank
    {
      (v, a) in edges && (v, b) in edges && rank[a] < rank[v] && rank[b] < rank[v] ==> a == b
    }

    ghost predicate Valid() {
      && nodes <= rank.Keys && nodes <= root.Keys
      && (forall v | v in rank :: rank[v] < next)
      && Symmetric(edges)
      && (forall v, w | (v, w) in edges :: v in nodes && w in nodes && rank[v] != rank[w])
      && (forall v, a, b {:trigger OneParent(v, a, b)} | v in nodes && a in nodes && b in nodes :: OneParent(v, a, b))
      && (forall v | v in nodes :: Reachable(edges, root[v], v))
    }

    /** v begins a tree of its own. */
    function Planted(v: Node): Forest {
      this.(rank := rank[v := next], next := next + 1, root := root[v := v])
    }

    /** w joins the tree of v. */
    function Grafted(v: Node, w: Node): Forest
      requires v in root
    {
      Forest(edges + {(v, w), (w, v)}, nodes + {v, w}, rank[w := next], next + 1, root[w := root[v]])
    }
  }

  lemma PlantedIsValid(f: Forest, v: Node)
    requires f.Valid() && v !in f.nodes
    ensures f.Planted(v).Valid()
  {
    var g := f.Planted(v);
    forall u, a, b | u in g.nodes && a in g.nodes && b in g.nodes
      ensures g.OneParent(u, a, b)
    {
      assert f.OneParent(u, a, b);
    }
  }

  lemma ReachableInLarger(e: Edges, f: Edges, i: Node, j: Node)
    requires e <= f && Reachable(e, i, j)
    ensures Reachable(f, i, j)
  {
    var p :| Joins(e, p, i, j);
    WalkInLarger(e, f, p);
    assert Joins(f, p, i, j);
  }

  lemma ReachableOn(e: Edges, i: Node, j: Node, k: Node)
    requires Reachable(e, i, j) && (j, k) in e
    ensures Reachable(e, i, k)
  {
    var p :| Joins(e, p, i, j);
    assert Step(e, [j, k], 0);
    var c := JoinWalks(e, p, [j, k], i, j, k);
  }

  lemma GraftedIsValid(f: Forest, v: Node, w: Node)
    requires f.Valid() && v != w && w !in f.nodes
    requires v in f.rank && v in f.root && (v in f.nodes || f.root[v] == v)
    ensures f.Grafted(v, w).Valid()
  {
    var g := f.Grafted(v, w);
    assert g.rank[v] < g.rank[w];
    forall u, a, b | u in g.nodes && a in g.nodes && b in g.nodes
      ensures g.OneParent(u, a, b)
    {
      if u in f.nodes && a in f.nodes && b in f.nodes {
        assert f.OneParent(u, a, b);
      }
    }
    forall u | u in g.nodes
      ensures Reachable(g.edges, g.root[u], u)
    {
      if u in f.nodes {
        ReachableInLarger(f.edges, g.edges, f.root[u], u);
      } else {
        GraftedReaches(f, v, w);
      }
    }
  }

  lemma GraftedReaches(f: Forest, v: Node, w: Node)
    requires f.Valid() && v != w && w !in f.nodes
    requires v in f.rank && v in f.root && (v in f.nodes || f.root[v] == v)
    ensures var e := f.edges + {(v, w), (w, v)};
            Reachable(e, f.root[v], v) && Reachable(e, f.root[v], w)
  {
    var e := f.edges + {(v, w), (w, v)};
    if v in f.nodes {
      ReachableInLarger(f.edges, e, f.root[v], v);
    } else {
      assert Joins(e, [v], v, v);
    }
    ReachableOn(e, f.root[v], v, w);
  }

  /** The node of a cycle reached last would have two parents. */
  lemma ValidForestIsAcyclic(f: Forest)
    requires f.Valid()
    ensures Acyclic(f.edges)
  {
    forall c | IsCycle(f.edges, c)
      ensures false
    {
      forall n | 0 <= n < |c|
        ensures c[n] in f.nodes
      {
        if n + 1 < |c| { assert Step(f.edges, c, n); }
      }
      var m := HighestOn(f, c);
      var before := c[if m == 0 then |c| - 1 else m - 1];
      var after := c[if m == |c| - 1 then 0 else m + 1];
      if m > 0 { assert Step(f.edges, c, m - 1); }
      if m + 1 < |c| { assert Step(f.edges, c, m); }
      assert (before, c[m]) in f.edges && (c[m], after) in f.edges;
      ParentIsUnique(f, c[m], before, after);
    }
  }

  lemma ParentIsUnique(f: Forest, v: Node, a: Node, b: Node)
    requires f.Valid() && (v, a) in f.edges && (v, b) in f.edges
    requires f.rank[a] <= f.rank[v] && f.rank[b] <= f.rank[v]
    ensures a == b
  {
    assert f.OneParent(v, a, b);
  }

  lemma HighestOn(f: Forest, c: seq<Node>) returns (m: nat)
    requires |c| > 0 && forall n | 0 <= n < |c| :: c[n] in f.rank
    ensures m < |c| && forall n | 0 <= n < |c| :: f.rank[c[n]] <= f.rank[c[m]]
  {
    m := 0;
    for k := 1 to |c|
      invariant m < k && forall n | 0 <= n < k :: f.rank[c[n]] <= f.rank[c[m]]
    {
      if f.rank[c[k]] > f.rank[c[m]] {
        m := k;
      }
    }
  }

  lemma WalkKeepsRoot(f: Forest, e: Edges, p: seq<Node>, n: nat)
    requires IsWalk(e, p) && n < |p| && |p| > 1
    requires forall v, w | (v, w) in e :: v in f.root && w in f.root && f.root[v] == f.root[w]
    ensures p[0] in f.root && p[n] in f.root && f.root[p[0]] == f.root[p[n]]
  {
    if n > 0 {
      WalkKeepsRoot(f, e, p, n - 1);
      assert Step(e, p, n - 1);
    } else {
      assert Step(e, p, 0);
    }
  }

  /** A forest that contains both ends of every link, under one root, connects what the links connect. */
  lemma ForestSpans(f: Forest, e: Edges, a: Node, b: Node)
    requires f.Valid() && f.edges <= e
    requires forall v, w | (v, w) in e :: v in f.nodes && w in f.nodes && f.root[v] == f.root[w]
    ensures Reachable(f.edges, a, b) <==> Reachable(e, a, b)
  {
    if Reachable(f.edges, a, b) {
      ReachableInLarger(f.edges, e, a, b);
    }
    if Reachable(e, a, b) {
      var p :| Joins(e, p, a, b);
      if |p| == 1 {
        assert Joins(f.edges, p, a, b);
      } else {
        WalkKeepsRoot(f, e, p, |p| - 1);
        assert Step(e, p, 0) && Step(e, p, |p| - 2);
        var r := f.root[a];
        var x :| Joins(f.edges, x, r, a);
        var y :| Joins(f.edges, y, r, b);
        var back := ReverseWalk(f.edges, x, r, a);
        var c := JoinWalks(f.edges, back, y, a, r, b);
      }
    }
  }
}
