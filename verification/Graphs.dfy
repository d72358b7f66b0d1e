/**
  Walks over a directed edge relation.  Both the shortest-path component and the
  spanning-tree component are specified against these definitions, which mention
  no algorithm.
*/
module Graphs {

  type Node = nat
  type Edges = set<(Node, Node)>

  predicate Step(e: Edges, p: seq<Node>, n: nat)
    requires n + 1 < |p|
  {
    (p[n], p[n + 1]) in e
  }

  /** A non-empty string of nodes, each joined to the next by an edge. */
  ghost predicate IsWalk(e: Edges, p: seq<Node>) {
    |p| > 0 && forall n: nat | n + 1 < |p| :: Step(e, p, n)
  }

  ghost predicate Joins(e: Edges, p: seq<Node>, i: Node, j: Node) {
    IsWalk(e, p) && p[0] == i && p[|p| - 1] == j
  }

  function Hops(p: seq<Node>): int {
    |p| - 1
  }

  ghost predicate Reachable(e: Edges, i: Node, j: Node) {
    exists p :: Joins(e, p, i, j)
  }

  /** d is the least hop count over all walks from i to j. */
  ghost predicate IsDistance(e: Edges, i: Node, j: Node, d: nat) {
    && (exists p :: Joins(e, p, i, j) && Hops(p) == d)
    && (forall p | Joins(e, p, i, j) :: d <= Hops(p))
  }

  ghost predicate NoRepeats(p: seq<Node>) {
    forall a, b | 0 <= a < b < |p| :: p[a] != p[b]
  }

  ghost predicate Symmetric(e: Edges) {
    forall i, j | (i, j) in e :: (j, i) in e
  }

  lemma JoinWalks(e: Edges, a: seq<Node>, b: seq<Node>, i: Node, k: Node, j: Node) returns (c: seq<Node>)
    requires Joins(e, a, i, k) && Joins(e, b, k, j)
    ensures c == a + b[1..]
    ensures Joins(e, c, i, j) && Hops(c) == Hops(a) + Hops(b)
  {
    c := a + b[1..];
    forall n: nat | n + 1 < |c|
      ensures Step(e, c, n)
    {
      if n + 1 < |a| {
        assert Step(e, a, n);
      } else {
        assert Step(e, b, n + 1 - |a|);
      }
    }
  }

  lemma CutWalk(e: Edges, p: seq<Node>, lo: nat, hi: nat)
    requires IsWalk(e, p) && lo < hi <= |p|
    ensures IsWalk(e, p[lo..hi])
  {
    forall n: nat | n + 1 < hi - lo
      ensures Step(e, p[lo..hi], n)
    {
      assert Step(e, p, lo + n);
    }
  }

  lemma ReverseWalk(e: Edges, p: seq<Node>, i: Node, j: Node) returns (q: seq<Node>)
    requires Symmetric(e) && Joins(e, p, i, j)
    ensures Joins(e, q, j, i)
  {
    q := seq(|p|, n requires 0 <= n < |p| => p[|p| - 1 - n]);
    forall n: nat | n + 1 < |q|
      ensures Step(e, q, n)
    {
      assert Step(e, p, |p| - 2 - n);
    }
  }

  lemma WalkInLarger(e: Edges, f: Edges, p: seq<Node>)
    requires e <= f && IsWalk(e, p)
    ensures IsWalk(f, p)
  {
    forall n: nat | n + 1 < |p|
      ensures Step(f, p, n)
    {
      assert Step(e, p, n);
    }
  }

  /** A walk that realises the distance never visits a node twice. */
  lemma ShortestHasNoRepeats(e: Edges, p: seq<Node>, i: Node, j: Node)
    requires Joins(e, p, i, j) && IsDistance(e, i, j, Hops(p))
    ensures NoRepeats(p)
  {
    forall a, b | 0 <= a < b < |p|
      ensures p[a] != p[b]
    {
      if p[a] == p[b] {
        CutWalk(e, p, 0, a + 1);
        CutWalk(e, p, b, |p|);
        var shorter := JoinWalks(e, p[0..a + 1], p[b..|p|], i, p[a], j);
        assert false;
      }
    }
  }

  /** The members of a set, in any order. */
  method Values(s: set<Node>) returns (r: seq<Node>)
    ensures NoRepeats(r) && forall n :: n in r <==> n in s
  {
    r := [];
    var rest := s;
    while rest != {}
      invariant NoRepeats(r) && forall n :: n in r <==> n in s - rest
      invariant rest <= s
    {
      var n :| n in rest;
      assert n !in r;
      r, rest := r + [n], rest - {n};
    }
  }
}
