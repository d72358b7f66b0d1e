/**
  The module state of pox/forwarding/l2_multi.py and the handlers that change it: the
  adjacency map that link events edit, the lazily filled path table, and path lookup.
*/
module L2Multi {
  import opened Wrappers
  import opened Graphs
  import opened Discovery
  import opened ShortestPaths

  type Mac = nat

  /** One element of a cooked path: (switch, in_port, out_port). */
  datatype Hop = Hop(sw: Node, inPort: Option<Port>, outPort: Option<Port>)

  function Lookup(adjacency: map<(Node, Node), Port>, i: Node, j: Node): Option<Port> {
    if (i, j) in adjacency then Some(adjacency[(i, j)]) else None
  }

  /** _check_path: every two neighbours are joined by the ports the path names. */
  predicate CheckPath(adjacency: map<(Node, Node), Port>, p: seq<Hop>) {
    forall n: nat | n + 1 < |p| ::
      && Lookup(adjacency, p[n].sw, p[n + 1].sw) == p[n].outPort
      && Lookup(adjacency, p[n + 1].sw, p[n].sw) == p[n + 1].inPort
  }

  function Nodes(p: seq<Hop>): (r: seq<Node>) {
    seq(|p|, n requires 0 <= n < |p| => p[n].sw)
  }

  function InPort(adjacency: map<(Node, Node), Port>, path: seq<Node>, n: nat, first: Port): Option<Port>
    requires n < |path|
  {
    if n == 0 then Some(first) else Lookup(adjacency, path[n], path[n - 1])
  }

  function OutPort(adjacency: map<(Node, Node), Port>, path: seq<Node>, n: nat, final: Port): Option<Port>
    requires n < |path|
  {
    if n == |path| - 1 then Some(final) else Lookup(adjacency, path[n], path[n + 1])
  }

  function Cooked(adjacency: map<(Node, Node), Port>, path: seq<Node>, first: Port, final: Port): seq<Hop> {
    seq(|path|, n requires 0 <= n < |path| =>
      Hop(path[n], InPort(adjacency, path, n, first), OutPort(adjacency, path, n, final)))
  }

  lemma CookedIsGood(adjacency: map<(Node, Node), Port>, path: seq<Node>, src: Node, dst: Node,
                     first: Port, final: Port)
    requires Symmetric(adjacency.Keys) && Joins(adjacency.Keys, path, src, dst)
    requires IsDistance(adjacency.Keys, src, dst, Hops(path)) && NoRepeats(path)
    ensures GoodAnswer(adjacency, src, dst, first, final, Some(Cooked(adjacency, path, first, final)))
  {
    var p := Cooked(adjacency, path, first, final);
    assert Nodes(p) == path;
    CookedPorts(adjacency, path, src, dst, first, final);
  }

  lemma CookedPorts(adjacency: map<(Node, Node), Port>, path: seq<Node>, src: Node, dst: Node, first: Port, final: Port)
    requires Symmetric(adjacency.Keys) && Joins(adjacency.Keys, path, src, dst)
    ensures var p := Cooked(adjacency, path, first, final);
      && (forall n: nat | n + 1 < |p| :: PortsOfLink(adjacency, p[n], p[n + 1]))
      && (forall n: nat | n < |p| :: p[n].inPort.Some? && p[n].outPort.Some?)
  {
    var p := Cooked(adjacency, path, first, final);
    forall n: nat | n < |p|
      ensures p[n].inPort.Some? && p[n].outPort.Some?
      ensures n + 1 < |p| ==> PortsOfLink(adjacency, p[n], p[n + 1])
    {
      if n > 0 {
        assert Step(adjacency.Keys, path, n - 1);
      }
      if n + 1 < |p| {
        assert Step(adjacency.Keys, path, n);
      }
    }
  }

  /** The first switch is left and the second entered by the ports of the link that joins them. */
  predicate PortsOfLink(adjacency: map<(Node, Node), Port>, a: Hop, b: Hop) {
    && (a.sw, b.sw) in adjacency && a.outPort == Some(adjacency[(a.sw, b.sw)])
    && (b.sw, a.sw) in adjacency && b.inPort == Some(adjacency[(b.sw, a.sw)])
  }

  /** No answer exactly when dst is unreachable; otherwise a shortest path without repeats
      that _check_path accepts, with a real port on both sides of every switch. */
  ghost predicate GoodAnswer(adjacency: map<(Node, Node), Port>, src: Node, dst: Node,
                             first: Port, final: Port, r: Option<seq<Hop>>) {
    && (r.Some? <==> Reachable(adjacency.Keys, src, dst))
    && (r.Some? ==>
          var p := r.value;
          && Joins(adjacency.Keys, Nodes(p), src, dst)
          && IsDistance(adjacency.Keys, src, dst, Hops(Nodes(p)))
          && NoRepeats(Nodes(p))
          && CheckPath(adjacency, p)
          && (forall n: nat | n + 1 < |p| :: PortsOfLink(adjacency, p[n], p[n + 1]))
          && (forall h | h in p :: h.inPort.Some? && h.outPort.Some?)
          && p[0].inPort == Some(first) && p[|p| - 1].outPort == Some(final))
  }

  predicate AtLink(place: (Node, Port), l: Link) {
    place == (l.dpid1, l.port1) || place == (l.dpid2, l.port2)
  }

  /** What is left of the learned addresses when a link turns up at their ports. */
  function Unlearned(macs: map<Mac, (Node, Port)>, l: Link): map<Mac, (Node, Port)> {
    map m | m in macs && !AtLink(macs[m], l) :: macs[m]
  }

  /** ll is another known two-way link between the switches of l, in the same direction. */
  predicate Replaces(ll: Link, l: Link, disc: set<Link>) {
    ll != l && ll.dpid1 == l.dpid1 && ll.dpid2 == l.dpid2 && TwoWay(disc, ll)
  }

  /** The pair of switches is joined by the ports of l. */
  predicate JoinedBy(adjacency: map<(Node, Node), Port>, l: Link) {
    && Lookup(adjacency, l.dpid2, l.dpid1) == Some(l.port2)
    && (l.dpid1 != l.dpid2 ==> Lookup(adjacency, l.dpid1, l.dpid2) == Some(l.port1))
  }

  ghost predicate LinkEffect(was: map<(Node, Node), Port>, now: map<(Node, Node), Port>,
                             l: Link, removed: bool, disc: set<Link>) {
    var pair := {(l.dpid1, l.dpid2), (l.dpid2, l.dpid1)};
    && now - pair == was - pair
    && if removed then
         if exists ll :: Replaces(ll, l, disc) then
           exists ll :: Replaces(ll, l, disc) && JoinedBy(now, ll)
         else now.Keys !! pair
       else if (l.dpid1, l.dpid2) !in was && Flip(l) in disc then JoinedBy(now, l)
       else now == was
  }

  /** A new switch has no links, so a filled table stays exact without being cleared. */
  lemma JoiningKeepsExact(e: Edges, nodes: set<Node>, pm: PathMap, dpid: Node)
    requires Within(e, nodes)
    requires pm != map[] ==> Exact(e, nodes, pm)
    ensures pm != map[] ==> Exact(e, nodes + {dpid}, pm)
  {
    if pm != map[] {
      forall i, j | i in nodes + {dpid} && j in nodes + {dpid} && i != j && Reachable(e, i, j)
        ensures (i, j) in pm
      {
        var p :| Joins(e, p, i, j);
        assert Step(e, p, 0) && Step(e, p, |p| - 2);
      }
    }
  }

  ghost predicate Seeded(e: Edges, sws: seq<Node>, pm: PathMap) {
    && (forall ij :: ij in pm <==> ij.0 in sws && (ij in e || ij.0 == ij.1))
    && (forall ij | ij in pm :: pm[ij] == Entry(if ij.0 == ij.1 then 0 else 1, None))
  }

  lemma HasInterior(p: seq<Node>)
    requires |p| > 2
    ensures !InteriorIn(p, {})
  {
    var none: set<Node> := {};
    assert p[1] !in none;
  }

  lemma SeededKept(e: Edges, nodes: set<Node>, sws: seq<Node>, pm: PathMap)
    requires Within(e, nodes) && (forall n :: n in sws <==> n in nodes) && Seeded(e, sws, pm)
    ensures TableKept(e, nodes, pm) && Covers(e, nodes, pm, {})
  {
    forall i, j | (i, j) in pm
      ensures HasWalk(e, i, j, pm[(i, j)].dist)
    {
      if i == j {
        assert Joins(e, [i], i, j);
      } else {
        assert Step(e, [i, j], 0);
        assert Joins(e, [i, j], i, j);
      }
    }
    forall p | Thru(e, p, {}) && p[0] in nodes && p[|p| - 1] in nodes
      ensures AtMost(pm, p[0], p[|p| - 1], Hops(p))
    {
      if |p| > 2 {
        HasInterior(p);
      } else if |p| == 2 {
        assert Step(e, p, 0);
      }
    }
  }

  ghost predicate TableKept(e: Edges, nodes: set<Node>, pm: PathMap) {
    && Backed(e, pm) && Wired(e, pm)
    && (forall ij | ij in pm :: ij.0 in nodes && ij.1 in nodes)
    && (forall k | k in nodes :: (k, k) in pm && pm[(k, k)].dist == 0)
  }

  lemma RelaxKeeps(e: Edges, nodes: set<Node>, pm: PathMap, i: Node, k: Node, j: Node, d: nat)
    requires TableKept(e, nodes, pm) && i in nodes && j in nodes && k in nodes
    requires (i, k) in pm && (k, j) in pm && d == pm[(i, k)].dist + pm[(k, j)].dist
    requires (i, j) in pm ==> d < pm[(i, j)].dist
    ensures TableKept(e, nodes, pm[(i, j) := Entry(d, Some(k))])
  {
    RelaxBacked(e, pm, i, k, j);
    RelaxWired(e, pm, i, k, j, d);
  }

  // ---------------------------------------------------------------- runs

  datatype Event =
    | LinkChanged(link: Link, removed: bool, disc: set<Link>)
    | SwitchUp(dpid: Node)
    | SwitchDown(dpid: Node)
    | PathWanted(src: Node, dst: Node, first: Port, final: Port)

  /** NoPath: the switches are known and not connected.  Nothing: no path was asked for, or for
      switches that are not known. */
  datatype Answer = Path(hops: seq<Hop>) | NoPath | Nothing

  datatype State = State(
    switches: set<Node>, connected: set<Node>, adjacency: map<(Node, Node), Port>, macs: map<Mac, (Node, Port)>)

  ghost predicate Effect(event: Event, was: State, now: State) {
    match event
    case LinkChanged(l, removed, disc) =>
      if l.dpid1 in was.switches && l.dpid2 in was.switches then
        && LinkEffect(was.adjacency, now.adjacency, l, removed, disc)
        && now == was.(adjacency := now.adjacency, macs := if removed then was.macs else Unlearned(was.macs, l))
      else now == was
    case SwitchUp(dpid) => now == was.(switches := was.switches + {dpid}, connected := was.connected + {dpid})
    case SwitchDown(dpid) => now == was.(connected := was.connected - {dpid})
    case PathWanted(_, _, _, _) => now == was
  }

  ghost predicate Answered(event: Event, at: State, answer: Answer) {
    if event.PathWanted? && event.src in at.switches && event.dst in at.switches then
      && !answer.Nothing?
      && GoodAnswer(at.adjacency, event.src, event.dst, event.first, event.final,
                    if answer.Path? then Some(answer.hops) else None)
    else answer.Nothing?
  }

  /** The states a run passes through and what it answers, event by event. */
  ghost predicate Runs(events: seq<Event>, trace: seq<State>, answers: seq<Answer>) {
    && |trace| == |events| + 1 && |answers| == |events|
    && forall n | 0 <= n < |events| :: Happens(events, trace, answers, n)
  }

  ghost predicate Happens(events: seq<Event>, trace: seq<State>, answers: seq<Answer>, n: nat)
    requires n < |events| && |trace| > n + 1 && |answers| > n
  {
    Effect(events[n], trace[n], trace[n + 1]) && Answered(events[n], trace[n], answers[n])
  }

  lemma OneMore(events: seq<Event>, trace: seq<State>, answers: seq<Answer>, event: Event, now: State, answer: Answer)
    requires Runs(events, trace, answers)
    requires Effect(event, trace[|events|], now) && Answered(event, trace[|events|], answer)
    ensures Runs(events + [event], trace + [now], answers + [answer])
  {
    forall n: nat | n < |events| + 1
      ensures Happens(events + [event], trace + [now], answers + [answer], n)
    {
      if n < |events| {
        assert Happens(events, trace, answers, n);
      }
    }
  }

  /** The pairs from these switches on are relaxed against the table the round began with. */
  ghost predicate RowsRelaxed(was: PathMap, pm: PathMap, k: Node, rows: seq<Node>, nodes: set<Node>) {
    forall i, j {:trigger Relaxed(was, pm, k, i, j)} | i in rows && j in nodes :: Relaxed(was, pm, k, i, j)
  }

  lemma OneMoreRow(was: PathMap, before: PathMap, pm: PathMap, k: Node, rows: seq<Node>, i: Node, nodes: set<Node>)
    requires RowsRelaxed(was, before, k, rows, nodes) && Improves(before, pm)
    requires forall j | j in nodes :: Relaxed(was, pm, k, i, j)
    ensures RowsRelaxed(was, pm, k, rows + [i], nodes)
  {
    forall x, j | x in rows + [i] && j in nodes
      ensures Relaxed(was, pm, k, x, j)
    {
      if x != i {
        assert Relaxed(was, before, k, x, j);
      }
    }
  }

  lemma AllRowsRelaxed(was: PathMap, pm: PathMap, k: Node, sws: seq<Node>, nodes: set<Node>)
    requires RowsRelaxed(was, pm, k, sws[..|sws|], nodes) && forall n :: n in sws <==> n in nodes
    ensures forall i, j | i in nodes && j in nodes :: Relaxed(was, pm, k, i, j)
  {
    assert sws[..|sws|] == sws;
  }

  class Forwarder {
    var switches: set<Node>
    /** adjacency[i][j]; a missing key is the default None. */
    var adjacency: map<(Node, Node), Port>
    var pathMap: PathMap
    /** The known switches that have a connection. */
    var connected: set<Node>
    /** Where addresses were learned. */
    var macs: map<Mac, (Node, Port)>

    ghost function Now(): State
      reads this
    {
      State(switches, connected, adjacency, macs)
    }

    ghost function Joined(): Edges
      reads this
    {
      adjacency.Keys
    }

    /** Links join known switches, are defined both ways or not at all, and a filled
        table is exact for them. */
    ghost predicate Valid()
      reads this
    {
      && Within(Joined(), switches)
      && Symmetric(Joined())
      && (pathMap != map[] ==> Exact(Joined(), switches, pathMap))
      && connected <= switches
    }

    constructor ()
      ensures Valid() && switches == {} && adjacency == map[] && pathMap == map[] && macs == map[]
    {
      switches, adjacency, pathMap, connected, macs := {}, map[], map[], {}, map[];
    }

    /** _calc_paths. */
    method CalcPaths()
      requires Within(Joined(), switches)
      modifies `pathMap
      ensures Exact(Joined(), switches, pathMap)
      ensures switches != {} ==> pathMap != map[]
    {
      var sws := Values(switches);
      SeedTable(sws);
      ghost var via: set<Node> := {};
      for a := 0 to |sws|
        invariant via <= switches && forall x | 0 <= x < a :: sws[x] in via
        invariant TableKept(Joined(), switches, pathMap)
        invariant Covers(Joined(), switches, pathMap, via)
      {
        var k := sws[a];
        RelaxAll(sws, k, via);
        via := via + {k};
      }
      assert via == switches;
      AllRoundsExact(Joined(), switches, pathMap);
      if switches != {} {
        var k :| k in switches;
        assert (k, k) in pathMap;
      }
    }

    /** The middle loop of _calc_paths: one round through k. */
    method RelaxAll(sws: seq<Node>, k: Node, ghost via: set<Node>)
      requires forall n :: n in sws <==> n in switches
      requires k in switches
      requires TableKept(Joined(), switches, pathMap) && Covers(Joined(), switches, pathMap, via)
      modifies `pathMap
      ensures TableKept(Joined(), switches, pathMap) && Covers(Joined(), switches, pathMap, via + {k})
    {
      ghost var was := pathMap;
      for b := 0 to |sws|
        invariant TableKept(Joined(), switches, pathMap) && Improves(was, pathMap)
        invariant RowsRelaxed(was, pathMap, k, sws[..b], switches)
      {
        ghost var before := pathMap;
        RelaxRow(sws, sws[b], k, was);
        OneMoreRow(was, before, pathMap, k, sws[..b], sws[b], switches);
        assert sws[..b + 1] == sws[..b] + [sws[b]];
      }
      AllRowsRelaxed(was, pathMap, k, sws, switches);
      RoundCovers(Joined(), switches, was, pathMap, via, k);
    }

    /** The innermost loop of _calc_paths. */
    method RelaxRow(sws: seq<Node>, i: Node, k: Node, ghost was: PathMap)
      requires forall n :: n in sws <==> n in switches
      requires i in switches && k in switches
      requires TableKept(Joined(), switches, pathMap) && Improves(was, pathMap)
      modifies `pathMap
      ensures TableKept(Joined(), switches, pathMap) && Improves(was, pathMap) && Improves(old(pathMap), pathMap)
      ensures forall j | j in switches :: Relaxed(was, pathMap, k, i, j)
    {
      for c := 0 to |sws|
        invariant TableKept(Joined(), switches, pathMap)
        invariant Improves(was, pathMap) && Improves(old(pathMap), pathMap)
        invariant forall x | 0 <= x < c :: Relaxed(was, pathMap, k, i, sws[x])
      {
        ghost var before := pathMap;
        RelaxCell(i, k, sws[c], was);
        forall x | 0 <= x <= c
          ensures Relaxed(was, pathMap, k, i, sws[x])
        {
          if x < c {
            assert Relaxed(was, before, k, i, sws[x]);
          }
        }
      }
    }

    /** Its body. */
    method RelaxCell(i: Node, k: Node, j: Node, ghost was: PathMap)
      requires i in switches && k in switches && j in switches
      requires TableKept(Joined(), switches, pathMap) && Improves(was, pathMap)
      modifies `pathMap
      ensures TableKept(Joined(), switches, pathMap) && Improves(was, pathMap) && Improves(old(pathMap), pathMap)
      ensures Relaxed(was, pathMap, k, i, j)
    {
      if (i, k) in pathMap {
        if (k, j) in pathMap {
          var ikj := pathMap[(i, k)].dist + pathMap[(k, j)].dist;
          if (i, j) !in pathMap || ikj < pathMap[(i, j)].dist {
            RelaxKeeps(Joined(), switches, pathMap, i, k, j, ikj);
            pathMap := pathMap[(i, j) := Entry(ikj, Some(k))];
          }
        }
      }
    }

    /** The initial table: one hop per link, none from a switch to itself. */
    method SeedTable(sws: seq<Node>)
      requires NoRepeats(sws) && forall n :: n in sws <==> n in switches
      requires Within(Joined(), switches)
      modifies `pathMap
      ensures TableKept(Joined(), switches, pathMap) && Covers(Joined(), switches, pathMap, {})
    {
      pathMap := map[];
      for a := 0 to |sws|
        invariant Seeded(Joined(), sws[..a], pathMap)
      {
        SeedRow(sws[..a], sws[a]);
        assert sws[..a + 1] == sws[..a] + [sws[a]];
      }
      assert sws[..|sws|] == sws;
      SeededKept(Joined(), switches, sws, pathMap);
    }

    /** Its body: the row of one switch. */
    method SeedRow(ghost done: seq<Node>, k: Node)
      requires Seeded(Joined(), done, pathMap) && k !in done
      modifies `pathMap
      ensures Seeded(Joined(), done + [k], pathMap)
    {
      var row := set ij | ij in adjacency.Keys && ij.0 == k :: ij.1;
      ghost var was := pathMap;
      while row != {}
        invariant forall j | j in row :: (k, j) in adjacency
        invariant forall ij :: ij in pathMap <==>
          ij in was || (ij.0 == k && ij in adjacency && ij.1 !in row)
        invariant forall ij | ij in pathMap ::
          pathMap[ij] == if ij.0 == k then Entry(1, None) else was[ij]
      {
        var j :| j in row;
        pathMap := pathMap[(k, j) := Entry(1, None)];
        row := row - {j};
      }
      pathMap := pathMap[(k, k) := Entry(0, None)];
    }

    /** _get_raw_path: fills an empty table first. */
    method GetRawPath(src: Node, dst: Node) returns (r: Option<seq<Node>>)
      requires Valid() && src in switches && dst in switches
      modifies `pathMap
      ensures Valid()
      ensures r.Some? <==> Reachable(Joined(), src, dst)
      ensures src == dst ==> r == Some([])
      ensures r.Some? && src != dst ==>
        var p := [src] + r.value + [dst];
        Joins(Joined(), p, src, dst) && IsDistance(Joined(), src, dst, Hops(p)) && NoRepeats(p)
    {
      if |pathMap| == 0 {
        CalcPaths();
      }
      r := RawPath(Joined(), pathMap, src, dst);
      ExactTablesAgree(Joined(), switches, pathMap, pathMap, src, dst);
      if r.Some? && src != dst {
        RawPathIsShortest(Joined(), switches, pathMap, src, dst);
      }
    }

    /** _get_path: a raw path with the ports filled in. */
    method GetPath(src: Node, dst: Node, first: Port, final: Port) returns (r: Option<seq<Hop>>)
      requires Valid() && src in switches && dst in switches
      modifies `pathMap
      ensures Valid()
      ensures GoodAnswer(adjacency, src, dst, first, final, r)
    {
      var path;
      if src == dst {
        path := [src];
        assert Joins(Joined(), path, src, dst);
      } else {
        var raw := GetRawPath(src, dst);
        if raw.None? {
          return None;
        }
        path := [src] + raw.value + [dst];
      }
      var hops := AddPorts(path, first, final);
      CookedIsGood(adjacency, path, src, dst, first, final);
      r := Some(hops);
    }

    /** The loop of _get_path. */
    method AddPorts(path: seq<Node>, first: Port, final: Port) returns (hops: seq<Hop>)
      requires |path| > 0
      ensures hops == Cooked(adjacency, path, first, final)
    {
      hops := [];
      var inPort := Some(first);
      for n := 0 to |path| - 1
        invariant hops == Cooked(adjacency, path, first, final)[..n]
        invariant inPort == InPort(adjacency, path, n, first)
      {
        var s1, s2 := path[n], path[n + 1];
        hops := hops + [Hop(s1, inPort, Lookup(adjacency, s1, s2))];
        inPort := Lookup(adjacency, s2, s1);
      }
      hops := hops + [Hop(path[|path| - 1], inPort, Some(final))];
    }

    /** A discovery link event.  disc is the set of links discovery holds while it raises
        the event.  An unknown switch is a KeyError before anything changes.  cleared are the
        switches told to delete all their flows. */
    method HandleLinkEvent(l: Link, removed: bool, disc: set<Link>) returns (ok: bool, cleared: seq<Node>)
      requires Valid()
      modifies `adjacency, `pathMap, `macs
      ensures Valid()
      ensures ok <==> l.dpid1 in switches && l.dpid2 in switches
      ensures !ok ==> adjacency == old(adjacency) && pathMap == old(pathMap) && macs == old(macs) && cleared == []
      ensures ok ==> pathMap == map[] && LinkEffect(old(adjacency), adjacency, l, removed, disc)
      ensures ok ==> NoRepeats(cleared) && forall sw :: sw in cleared <==> sw in connected
      ensures ok ==> macs == if removed then old(macs) else Unlearned(old(macs), l)
    {
      if l.dpid1 !in switches || l.dpid2 !in switches {
        return false, [];
      }
      cleared := ClearAll();
      pathMap := map[];
      if removed {
        Disconnect(l, disc);
      } else {
        Connect(l, disc);
        Unlearn(l);
      }
      ok := true;
    }

    /** Every connected switch is sent a deletion of all flows. */
    method ClearAll() returns (cleared: seq<Node>)
      requires Valid()
      ensures NoRepeats(cleared) && forall sw :: sw in cleared <==> sw in connected
    {
      cleared := [];
      var sws := Values(switches);
      for n := 0 to |sws|
        invariant NoRepeats(cleared) && forall sw :: sw in cleared <==> sw in sws[..n] && sw in connected
      {
        if sws[n] !in connected { continue; }
        cleared := cleared + [sws[n]];
      }
    }

    /** Addresses learned where the link now turns out to be. */
    method Unlearn(l: Link)
      modifies `macs
      ensures macs == Unlearned(old(macs), l)
    {
      var bad: set<Mac> := {};
      var rest := macs.Keys;
      while rest != {}
        invariant rest <= macs.Keys
        invariant forall m :: m in bad <==> m in macs && m !in rest && AtLink(macs[m], l)
      {
        var m :| m in rest;
        rest := rest - {m};
        if macs[m] == (l.dpid1, l.port1) {
          bad := bad + {m};
        }
        if macs[m] == (l.dpid2, l.port2) {
          bad := bad + {m};
        }
      }
      macs := macs - bad;
    }

    /** The link is gone; another two-way link may take its place. */
    method Disconnect(l: Link, disc: set<Link>)
      modifies `adjacency
      ensures LinkEffect(old(adjacency), adjacency, l, true, disc)
      ensures Symmetric(old(Joined())) ==> Symmetric(Joined())
      ensures Joined() <= old(Joined()) + {(l.dpid1, l.dpid2), (l.dpid2, l.dpid1)}
    {
      var sw1, sw2 := l.dpid1, l.dpid2;
      adjacency := adjacency - {(sw1, sw2)};
      adjacency := adjacency - {(sw2, sw1)};
      var rest := disc;
      while rest != {}
        invariant rest <= disc
        invariant adjacency == old(adjacency) - {(sw1, sw2), (sw2, sw1)}
        invariant forall ll | ll in disc - rest :: !Replaces(ll, l, disc)
      {
        var ll :| ll in rest;
        rest := rest - {ll};
        if ll == l { continue; }
        if ll.dpid1 == l.dpid1 && ll.dpid2 == l.dpid2 {
          if Flip(ll) in disc {
            assert Replaces(ll, l, disc);
            adjacency := adjacency[(sw1, sw2) := ll.port1];
            adjacency := adjacency[(sw2, sw1) := ll.port2];
            break;
          }
        }
      }
    }

    /** A link appeared: it joins its switches if they were not joined and it runs both ways. */
    method Connect(l: Link, disc: set<Link>)
      modifies `adjacency
      ensures LinkEffect(old(adjacency), adjacency, l, false, disc)
      ensures Symmetric(old(Joined())) ==> Symmetric(Joined())
      ensures Joined() <= old(Joined()) + {(l.dpid1, l.dpid2), (l.dpid2, l.dpid1)}
    {
      var sw1, sw2 := l.dpid1, l.dpid2;
      if Lookup(adjacency, sw1, sw2).None? {
        if Flip(l) in disc {
          adjacency := adjacency[(sw1, sw2) := l.port1];
          adjacency := adjacency[(sw2, sw1) := l.port2];
        }
      }
    }

    /** A switch connects.  The table is not cleared. */
    method HandleConnectionUp(dpid: Node)
      requires Valid()
      modifies `switches, `connected
      ensures Valid() && switches == old(switches) + {dpid} && connected == old(connected) + {dpid}
    {
      ghost var before := switches;
      if dpid !in switches {
        switches := switches + {dpid};
        JoiningKeepsExact(Joined(), before, pathMap, dpid);
      }
      connected := connected + {dpid};
    }

    /** One event. */
    method Handle(event: Event) returns (answer: Answer)
      requires Valid()
      modifies this
      ensures Valid()
      ensures Effect(event, old(Now()), Now()) && Answered(event, old(Now()), answer)
    {
      answer := Nothing;
      match event
      case LinkChanged(l, removed, disc) =>
        var _, _ := HandleLinkEvent(l, removed, disc);
      case SwitchUp(dpid) =>
        HandleConnectionUp(dpid);
      case SwitchDown(dpid) =>
        connected := connected - {dpid};
      case PathWanted(src, dst, first, final) =>
        if src in switches && dst in switches {
          var path := GetPath(src, dst, first, final);
          answer := if path.Some? then Path(path.value) else NoPath;
        }
    }

    /** Any run of events: every state is the effect of its event on the one before, and every
        lookup is answered for the links of that moment. */
    method Run(events: seq<Event>) returns (answers: seq<Answer>, ghost trace: seq<State>)
      requires Valid()
      modifies this
      ensures Valid() && Runs(events, trace, answers)
      ensures trace[0] == old(Now()) && trace[|events|] == Now()
    {
      answers, trace := [], [Now()];
      for n := 0 to |events|
        invariant Valid() && Runs(events[..n], trace, answers)
        invariant trace[0] == old(Now()) && trace[n] == Now()
      {
        var answer := Handle(events[n]);
        OneMore(events[..n], trace, answers, events[n], Now(), answer);
        assert events[..n + 1] == events[..n] + [events[n]];
        answers, trace := answers + [answer], trace + [Now()];
      }
      assert events[..|events|] == events;
    }
  }

  // ---------------------------------------------------------------- links lost together

  /** Two cables between switches 1 and 2. */
  function TwoCables(): set<Link> {
    {Link(1, 1, 2, 1), Link(2, 1, 1, 1), Link(1, 2, 2, 2), Link(2, 2, 1, 2)}
  }

  /** Both cables are lost at once.  Discovery still holds all their links while it raises the
      four events, so the last event finds a replacement: the other lost cable. */
  method LostTogether(net: Forwarder) returns (events: seq<Event>, answers: seq<Answer>, ghost trace: seq<State>)
    requires net.Valid() && 1 in net.switches && 2 in net.switches
    modifies net
    ensures net.Valid() && Runs(events, trace, answers) && trace[0] == old(net.Now())
    ensures |events| == 5 && events[4] == PathWanted(1, 2, 9, 9)
    ensures forall l :: l in TwoCables() <==> exists n | 0 <= n < 4 :: events[n] == LinkChanged(l, true, TwoCables())
    ensures (1, 2) in net.adjacency && answers[4].Path?
  {
    var links := TwoCables();
    events := [
      LinkChanged(Link(1, 1, 2, 1), true, links), LinkChanged(Link(2, 1, 1, 1), true, links),
      LinkChanged(Link(1, 2, 2, 2), true, links), LinkChanged(Link(2, 2, 1, 2), true, links),
      PathWanted(1, 2, 9, 9)];
    assert events[0].link == Link(1, 1, 2, 1) && events[1].link == Link(2, 1, 1, 1);
    assert events[2].link == Link(1, 2, 2, 2) && events[3].link == Link(2, 2, 1, 2);
    answers, trace := net.Run(events);
    LostLinkJoins(events, trace, answers);
  }

  lemma LostLinkJoins(events: seq<Event>, trace: seq<State>, answers: seq<Answer>)
    requires Runs(events, trace, answers) && |events| == 5 && 1 in trace[0].switches && 2 in trace[0].switches
    requires forall n | 0 <= n < 4 :: events[n].LinkChanged? && events[n].removed && events[n].disc == TwoCables()
    requires events[3].link == Link(2, 2, 1, 2) && events[4] == PathWanted(1, 2, 9, 9)
    ensures (1, 2) in trace[5].adjacency && answers[4].Path?
  {
    assert Happens(events, trace, answers, 0) && Happens(events, trace, answers, 1);
    assert Happens(events, trace, answers, 2) && Happens(events, trace, answers, 3);
    assert Happens(events, trace, answers, 4);
    assert Replaces(Link(2, 1, 1, 1), Link(2, 2, 1, 2), TwoCables());
    assert (1, 2) in trace[4].adjacency;
    assert Step(trace[4].adjacency.Keys, [1, 2], 0);
    assert Joins(trace[4].adjacency.Keys, [1, 2], 1, 2);
  }
}
