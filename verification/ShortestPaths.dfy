/**
  The all-pairs table of pox/forwarding/l2_multi.py: what its entries mean, why
  relaxing entries in place through every switch in turn makes them exact, and how
  a path is read back out of the recorded intermediates.
*/
module ShortestPaths {
  import opened Wrappers
  import opened Graphs

  /** path_map[i][j]: a hop count and, unless the pair is adjacent or equal, a switch on the way. */
  datatype Entry = Entry(dist: nat, mid: Option<Node>)

  /** A missing key stands for the default entry (None, None). */
  type PathMap = map<(Node, Node), Entry>

  // ---------------------------------------------------------------- meaning of the table

  ghost predicate HasWalk(e: Edges, i: Node, j: Node, d: nat) {
    exists p :: Joins(e, p, i, j) && Hops(p) == d
  }

  ghost predicate Backed(e: Edges, pm: PathMap) {
    forall i, j {:trigger HasWalk(e, i, j, pm[(i, j)].dist)} | (i, j) in pm :: HasWalk(e, i, j, pm[(i, j)].dist)
  }

  /** A recorded intermediate is no endpoint and splits the pair without lengthening it. */
  predicate EntryWired(e: Edges, pm: PathMap, i: Node, j: Node)
    requires (i, j) in pm
  {
    && (i != j ==> pm[(i, j)].dist > 0)
    && match pm[(i, j)].mid
       case None => if i == j then pm[(i, j)].dist == 0 else pm[(i, j)].dist == 1 && (i, j) in e
       case Some(k) =>
         && i != k && k != j && i != j
         && (i, k) in pm && (k, j) in pm
         && pm[(i, k)].dist + pm[(k, j)].dist <= pm[(i, j)].dist
  }

  ghost predicate Wired(e: Edges, pm: PathMap) {
    forall i, j {:trigger EntryWired(e, pm, i, j)} | (i, j) in pm :: EntryWired(e, pm, i, j)
  }

  /** All nodes strictly between the ends of p are in via. */
  ghost predicate InteriorIn(p: seq<Node>, via: set<Node>) {
    forall n | 0 < n < |p| - 1 :: p[n] in via
  }

  ghost predicate Thru(e: Edges, p: seq<Node>, via: set<Node>) {
    IsWalk(e, p) && InteriorIn(p, via)
  }

  ghost predicate AtMost(pm: PathMap, i: Node, j: Node, d: int) {
    (i, j) in pm && pm[(i, j)].dist <= d
  }

  /** No walk between known switches whose interior stays in via beats the table. */
  ghost predicate Covers(e: Edges, nodes: set<Node>, pm: PathMap, via: set<Node>) {
    forall p | Thru(e, p, via) && p[0] in nodes && p[|p| - 1] in nodes ::
      AtMost(pm, p[0], p[|p| - 1], Hops(p))
  }

  /** What path answers rely on: for two different switches the entry is the distance,
      and there is none exactly when there is no walk. */
  ghost predicate Exact(e: Edges, nodes: set<Node>, pm: PathMap) {
    && Wired(e, pm)
    && (forall i, j | (i, j) in pm :: IsDistance(e, i, j, pm[(i, j)].dist))
    && (forall i, j | i in nodes && j in nodes && i != j && Reachable(e, i, j) :: (i, j) in pm)
  }

  predicate Within(e: Edges, nodes: set<Node>) {
    forall ij | ij in e :: ij.0 in nodes && ij.1 in nodes
  }

  // ---------------------------------------------------------------- relaxing in place

  /** Entries only ever appear or get shorter. */
  ghost predicate Improves(was: PathMap, pm: PathMap) {
    forall ij | ij in was :: ij in pm && pm[ij].dist <= was[ij].dist
  }

  /** The pair was relaxed through k, judged by the table k's round began with. */
  ghost predicate Relaxed(was: PathMap, pm: PathMap, k: Node, i: Node, j: Node) {
    (i, k) in was && (k, j) in was ==> AtMost(pm, i, j, was[(i, k)].dist + was[(k, j)].dist)
  }

  lemma RelaxBacked(e: Edges, pm: PathMap, i: Node, k: Node, j: Node)
    requires Backed(e, pm) && (i, k) in pm && (k, j) in pm
    ensures HasWalk(e, i, j, pm[(i, k)].dist + pm[(k, j)].dist)
  {
    assert HasWalk(e, i, k, pm[(i, k)].dist) && HasWalk(e, k, j, pm[(k, j)].dist);
    var a :| Joins(e, a, i, k) && Hops(a) == pm[(i, k)].dist;
    var b :| Joins(e, b, k, j) && Hops(b) == pm[(k, j)].dist;
    var c := JoinWalks(e, a, b, i, k, j);
  }

  lemma RelaxWired(e: Edges, pm: PathMap, i: Node, k: Node, j: Node, d: nat)
    requires Wired(e, pm)
    requires (k, k) in pm && pm[(k, k)].dist == 0
    requires i == j ==> (i, i) in pm && pm[(i, i)].dist == 0
    requires (i, k) in pm && (k, j) in pm && d == pm[(i, k)].dist + pm[(k, j)].dist
    requires (i, j) in pm ==> d < pm[(i, j)].dist
    ensures Wired(e, pm[(i, j) := Entry(d, Some(k))])
  {
    var next := pm[(i, j) := Entry(d, Some(k))];
    assert EntryWired(e, pm, i, k) && EntryWired(e, pm, k, j);
    forall x, y | (x, y) in next
      ensures EntryWired(e, next, x, y)
    {
      if (x, y) != (i, j) {
        assert EntryWired(e, pm, x, y);
      }
    }
  }

  lemma FirstInteriorVisit(p: seq<Node>, via: set<Node>, k: Node) returns (f: nat)
    requires InteriorIn(p, via + {k}) && !InteriorIn(p, via)
    ensures 0 < f < |p| - 1 && p[f] == k && InteriorIn(p[..f + 1], via)
  {
    f := 1;
    while p[f] != k
      invariant 0 < f < |p| - 1
      invariant forall n | 0 < n < f :: p[n] in via
      invariant exists n :: f <= n < |p| - 1 && p[n] !in via
      decreases |p| - f
    {
      f := f + 1;
    }
  }

  lemma LastInteriorVisit(p: seq<Node>, via: set<Node>, k: Node) returns (l: nat)
    requires InteriorIn(p, via + {k}) && !InteriorIn(p, via)
    ensures 0 < l < |p| - 1 && p[l] == k && InteriorIn(p[l..], via)
  {
    l := |p| - 2;
    while p[l] != k
      invariant 0 < l < |p| - 1
      invariant forall n | l < n < |p| - 1 :: p[n] in via
      invariant exists n :: 0 < n <= l && p[n] !in via
      decreases l
    {
      l := l - 1;
    }
  }

  /** A whole round through k lets walks use k in their interior, although the table
      the round reads is the one it is writing. */
  lemma RoundCovers(e: Edges, nodes: set<Node>, was: PathMap, pm: PathMap, via: set<Node>, k: Node)
    requires k in nodes
    requires Covers(e, nodes, was, via) && Improves(was, pm)
    requires forall i, j | i in nodes && j in nodes :: Relaxed(was, pm, k, i, j)
    ensures Covers(e, nodes, pm, via + {k})
  {
    forall p | Thru(e, p, via + {k}) && p[0] in nodes && p[|p| - 1] in nodes
      ensures AtMost(pm, p[0], p[|p| - 1], Hops(p))
    {
      var i, j := p[0], p[|p| - 1];
      if InteriorIn(p, via) {
        assert Thru(e, p, via);
        assert AtMost(was, i, j, Hops(p));
      } else {
        var f := FirstInteriorVisit(p, via, k);
        var l := LastInteriorVisit(p, via, k);
        CutWalk(e, p, 0, f + 1);
        CutWalk(e, p, l, |p|);
        var a, b := p[0..f + 1], p[l..|p|];
        assert a == p[..f + 1] && b == p[l..];
        assert Thru(e, a, via) && Thru(e, b, via);
        assert AtMost(was, i, k, Hops(a)) && AtMost(was, k, j, Hops(b));
        assert Relaxed(was, pm, k, i, j);
      }
    }
  }

  /** When every known switch has had its round, the table is exact. */
  lemma AllRoundsExact(e: Edges, nodes: set<Node>, pm: PathMap)
    requires Within(e, nodes) && (forall ij | ij in pm :: ij.0 in nodes && ij.1 in nodes)
    requires Backed(e, pm) && Wired(e, pm) && Covers(e, nodes, pm, nodes)
    ensures Exact(e, nodes, pm)
  {
    forall p | IsWalk(e, p)
      ensures p[0] in nodes ==> AtMost(pm, p[0], p[|p| - 1], Hops(p))
    {
      forall n | 0 < n < |p|
        ensures p[n] in nodes
      {
        assert Step(e, p, n - 1);
      }
      assert Thru(e, p, nodes);
    }
    forall i, j | (i, j) in pm
      ensures IsDistance(e, i, j, pm[(i, j)].dist)
    {
      assert HasWalk(e, i, j, pm[(i, j)].dist);
    }
  }

  // ---------------------------------------------------------------- reading a path back

  /** The switches strictly between src and dst, or None when the table has no entry. */
  function RawPath(ghost e: Edges, pm: PathMap, src: Node, dst: Node): (r: Option<seq<Node>>)
    requires Wired(e, pm)
    ensures r.Some? <==> src == dst || (src, dst) in pm
    decreases if (src, dst) in pm then pm[(src, dst)].dist else 0
  {
    if src == dst then
      Some([])
    else if (src, dst) !in pm then
      None
    else
      assert EntryWired(e, pm, src, dst);
      match pm[(src, dst)].mid
      case None => Some([])
      case Some(k) =>
        assert EntryWired(e, pm, src, k) && EntryWired(e, pm, k, dst);
        Some(RawPath(e, pm, src, k).value + [k] + RawPath(e, pm, k, dst).value)
  }

  lemma MidSplits(e: Edges, nodes: set<Node>, pm: PathMap, i: Node, j: Node)
    requires Exact(e, nodes, pm) && (i, j) in pm && pm[(i, j)].mid.Some?
    ensures var k := pm[(i, j)].mid.value;
            && i != k && k != j && i != j && (i, k) in pm && (k, j) in pm
            && pm[(i, k)].dist > 0 && pm[(k, j)].dist > 0
            && pm[(i, j)].dist == pm[(i, k)].dist + pm[(k, j)].dist
  {
    var k := pm[(i, j)].mid.value;
    assert EntryWired(e, pm, i, j);
    assert EntryWired(e, pm, i, k) && EntryWired(e, pm, k, j);
    var a :| Joins(e, a, i, k) && Hops(a) == pm[(i, k)].dist;
    var b :| Joins(e, b, k, j) && Hops(b) == pm[(k, j)].dist;
    var c := JoinWalks(e, a, b, i, k, j);
  }

  lemma JoinPaths(e: Edges, i: Node, x: seq<Node>, k: Node, y: seq<Node>, j: Node)
    requires Joins(e, [i] + x + [k], i, k) && Joins(e, [k] + y + [j], k, j)
    ensures Joins(e, [i] + (x + [k] + y) + [j], i, j)
  {
    var c := JoinWalks(e, [i] + x + [k], [k] + y + [j], i, k, j);
    assert ([k] + y + [j])[1..] == y + [j];
    assert c == [i] + (x + [k] + y) + [j];
  }

  lemma {:induction false} RawPathWalk(e: Edges, nodes: set<Node>, pm: PathMap, src: Node, dst: Node)
    requires Exact(e, nodes, pm) && src != dst && (src, dst) in pm
    ensures var raw := RawPath(e, pm, src, dst).value;
            Joins(e, [src] + raw + [dst], src, dst) && |raw| + 1 == pm[(src, dst)].dist
    decreases pm[(src, dst)].dist
  {
    match pm[(src, dst)].mid {
      case None =>
        assert EntryWired(e, pm, src, dst);
        assert [src] + [] + [dst] == [src, dst];
        assert Step(e, [src, dst], 0);
      case Some(k) =>
        MidSplits(e, nodes, pm, src, dst);
        RawPathWalk(e, nodes, pm, src, k);
        RawPathWalk(e, nodes, pm, k, dst);
        JoinPaths(e, src, RawPath(e, pm, src, k).value, k, RawPath(e, pm, k, dst).value, dst);
    }
  }

  /** The rebuilt path is a real walk of exactly the stored, least hop count, and
      visits no switch twice. */
  lemma RawPathIsShortest(e: Edges, nodes: set<Node>, pm: PathMap, src: Node, dst: Node)
    requires Exact(e, nodes, pm) && src != dst && (src, dst) in pm
    ensures var p := [src] + RawPath(e, pm, src, dst).value + [dst];
            && Joins(e, p, src, dst) && Hops(p) == pm[(src, dst)].dist
            && IsDistance(e, src, dst, Hops(p))
            && NoRepeats(p)
  {
    RawPathWalk(e, nodes, pm, src, dst);
    ShortestHasNoRepeats(e, [src] + RawPath(e, pm, src, dst).value + [dst], src, dst);
  }

  /** Two exact tables for the same links answer alike: both find a path exactly when there is
      one, and then paths of the same length.  So a table kept from before switches joined
      answers like a fresh one. */
  lemma ExactTablesAgree(e: Edges, nodes: set<Node>, pm: PathMap, anew: PathMap, src: Node, dst: Node)
    requires Exact(e, nodes, pm) && Exact(e, nodes, anew) && src in nodes && dst in nodes
    ensures var r, f := RawPath(e, pm, src, dst), RawPath(e, anew, src, dst);
            && (r.Some? <==> f.Some?) && (r.Some? <==> Reachable(e, src, dst))
            && (r.Some? ==> |r.value| == |f.value|)
  {
    if src == dst {
      assert Joins(e, [src], src, dst);
    } else {
      if (src, dst) in pm {
        RawPathIsShortest(e, nodes, pm, src, dst);
      }
      if (src, dst) in anew {
        RawPathIsShortest(e, nodes, anew, src, dst);
      }
    }
  }
}
