/**
  Whole runs of pox/openflow/spanning_tree.py: what is remembered and what the switches have, after
  any sequence of new links, batches of lost links, connections, and updates when hold-down ends.
*/
module FloodRuns {
  import opened Wrappers
  import opened Graphs
  import opened Discovery
  import opened Forests
  import opened SpanningTree
  import opened Flooding
  import opened LinkEvents

  datatype Event =
    | LinkSeen(link: Link, cons: map<Node, Connection>)
    | LinksLost(lost: seq<Link>, cons: map<Node, Connection>)
    | SwitchUp(dpid: Node, ports: set<Port>, settings: Bits)
    | HoldDownOver(dpid: Node, cons: map<Node, Connection>)

  /** The two options of the component. */
  datatype Config = Config(noFloodByDefault: bool, holdDown: bool)

  /** What discovery holds, what is remembered, and what the switches have. */
  datatype State = State(links: set<Link>, prev: Bits, bits: Bits)

  /** _update_tree: nothing if a switch is linked to itself, else every port it concerns is set for some
      spanning forest. */
  ghost predicate Updates(cfg: Config, cons: map<Node, Connection>, force: Option<Node>, was: State, now: State) {
    && now.links == was.links
    && if SelfLinked(was.links) then now == was
       else exists tree :: ForTree(cfg, cons, force, was, now, tree)
  }

  ghost predicate ForTree(cfg: Config, cons: map<Node, Connection>, force: Option<Node>, was: State, now: State,
                          tree: Tree) {
    && IsSpanningForest(was.links, tree)
    && SendingEveryPort(was.links, tree, cons, cfg.holdDown, force, was.bits, now.bits)
    && SendingEveryPort(was.links, tree, cons, cfg.holdDown, force, was.prev, now.prev)
  }

  /** _handle_LinkEvent. */
  ghost predicate Handles(cfg: Config, l: Link, cons: map<Node, Connection>, was: State, now: State) {
    if RememberedOff(was.prev, l.dpid1, l.port1) && RememberedOff(was.prev, l.dpid2, l.port2) then now == was
    else Updates(cfg, cons, None, was, now)
  }

  function Earlier(lost: seq<Link>): seq<Link>
    requires lost != []
  {
    lost[..|lost| - 1]
  }

  /** The events of a batch, one after the other, while discovery still holds all its links. */
  ghost predicate HandlesAll(cfg: Config, lost: seq<Link>, cons: map<Node, Connection>, was: State, now: State)
    decreases |lost|
  {
    if lost == [] then now == was
    else exists mid ::
      && HandlesAll(cfg, Earlier(lost), cons, was, mid)
      && Handles(cfg, lost[|lost| - 1], cons, mid, now)
  }

  function Left(links: set<Link>, lost: seq<Link>): set<Link> {
    set l | l in links && l !in lost
  }

  ghost predicate Effect(cfg: Config, e: Event, was: State, now: State) {
    match e
    case LinkSeen(l, cons) =>
      if l in was.links then now == was else Handles(cfg, l, cons, was.(links := was.links + {l}), now)
    case LinksLost(lost, cons) =>
      && now.links == Left(was.links, lost)
      && HandlesAll(cfg, lost, cons, was, now.(links := was.links))
    case SwitchUp(dpid, ports, settings) =>
      && now.links == was.links
      && Connected(dpid, ports, settings, cfg.noFloodByDefault, was.bits, now.bits)
      && Connected(dpid, ports, map[], cfg.noFloodByDefault, was.prev, now.prev)
    case HoldDownOver(dpid, cons) => Updates(cfg, cons, Some(dpid), was, now)
  }

  /** What is remembered is what the switches have. */
  ghost predicate Agrees(s: State) {
    forall k | k in s.prev :: k in s.bits && s.bits[k] == s.prev[k]
  }

  ghost predicate IsRun(cfg: Config, events: seq<Event>, trace: seq<State>) {
    && |trace| == |events| + 1
    && forall n | 0 <= n < |events| :: Effect(cfg, events[n], trace[n], trace[n + 1])
  }

  predicate OfItsSwitch(e: Event) {
    e.SwitchUp? ==> forall k | k in e.settings :: k.0 == e.dpid
  }

  method HandleLink(control: FloodControl, cfg: Config, links: set<Link>, l: Link, cons: map<Node, Connection>)
    requires control.Synced()
    modifies control
    ensures control.Synced()
    ensures Handles(cfg, l, cons, State(links, old(control.prev), old(control.bits)),
                    State(links, control.prev, control.bits))
  {
    ghost var was := State(links, control.prev, control.bits);
    var ignored, tree := control.HandleLinkEvent(links, l, cons, cfg.holdDown);
    if !ignored && tree.Some? {
      assert ForTree(cfg, cons, None, was, State(links, control.prev, control.bits), tree.value);
    }
  }

  method HandleLost(control: FloodControl, cfg: Config, links: set<Link>, lost: seq<Link>,
                    cons: map<Node, Connection>)
    requires control.Synced()
    modifies control
    ensures control.Synced()
    ensures HandlesAll(cfg, lost, cons, State(links, old(control.prev), old(control.bits)),
                       State(links, control.prev, control.bits))
  {
    ghost var was := State(links, control.prev, control.bits);
    for n := 0 to |lost|
      invariant control.Synced()
      invariant HandlesAll(cfg, lost[..n], cons, was, State(links, control.prev, control.bits))
    {
      ghost var mid := State(links, control.prev, control.bits);
      HandleLink(control, cfg, links, lost[n], cons);
      OneMoreHandled(cfg, lost[..n], lost[n], cons, was, mid, State(links, control.prev, control.bits));
      assert lost[..n + 1] == lost[..n] + [lost[n]];
    }
    assert lost[..|lost|] == lost;
  }

  lemma OneMoreHandled(cfg: Config, lost: seq<Link>, l: Link, cons: map<Node, Connection>,
                       was: State, mid: State, now: State)
    requires HandlesAll(cfg, lost, cons, was, mid) && Handles(cfg, l, cons, mid, now)
    ensures HandlesAll(cfg, lost + [l], cons, was, now)
  {
    assert Earlier(lost + [l]) == lost;
  }

  method Take(control: FloodControl, cfg: Config, links: set<Link>, e: Event) returns (left: set<Link>)
    requires control.Synced() && OfItsSwitch(e)
    modifies control
    ensures control.Synced()
    ensures Effect(cfg, e, State(links, old(control.prev), old(control.bits)), State(left, control.prev, control.bits))
  {
    left := links;
    match e
    case LinkSeen(l, cons) =>
      if l !in links {
        left := links + {l};
        HandleLink(control, cfg, left, l, cons);
      }
    case LinksLost(lost, cons) =>
      HandleLost(control, cfg, links, lost, cons);
      left := Left(links, lost);
    case SwitchUp(dpid, ports, settings) =>
      control.ConnectionUp(dpid, ports, settings, cfg.noFloodByDefault);
    case HoldDownOver(dpid, cons) =>
      ghost var was := State(links, control.prev, control.bits);
      var tree := control.UpdateTree(links, cons, cfg.holdDown, Some(dpid));
      if tree.Some? {
        assert ForTree(cfg, cons, Some(dpid), was, State(links, control.prev, control.bits), tree.value);
      }
  }

  /** Any run: each state is the effect of its event on the one before, and at every moment what is
      remembered is what the switches have. */
  method Run(control: FloodControl, cfg: Config, links: set<Link>, events: seq<Event>)
      returns (left: set<Link>, ghost trace: seq<State>)
    requires control.Synced() && forall e | e in events :: OfItsSwitch(e)
    modifies control
    ensures control.Synced() && IsRun(cfg, events, trace)
    ensures forall n | 0 <= n < |trace| :: Agrees(trace[n])
    ensures trace[0] == State(links, old(control.prev), old(control.bits))
    ensures trace[|events|] == State(left, control.prev, control.bits)
  {
    left, trace := links, [State(links, control.prev, control.bits)];
    for n := 0 to |events|
      invariant control.Synced() && IsRun(cfg, events[..n], trace)
      invariant forall m | 0 <= m < |trace| :: Agrees(trace[m])
      invariant trace[0] == State(links, old(control.prev), old(control.bits))
      invariant trace[n] == State(left, control.prev, control.bits)
    {
      left := Take(control, cfg, left, events[n]);
      trace := trace + [State(left, control.prev, control.bits)];
    }
    assert events[..|events|] == events;
  }

  /** In every run, after a new link that was not ignored and whose update reached every link, flooding
      spans what discovery holds, without a cycle. */
  lemma NewLinkSpans(cfg: Config, events: seq<Event>, trace: seq<State>, n: nat)
    requires IsRun(cfg, events, trace) && n < |events| && events[n].LinkSeen? && events[n].link !in trace[n].links
    requires var l := events[n].link;
      !(RememberedOff(trace[n].prev, l.dpid1, l.port1) && RememberedOff(trace[n].prev, l.dpid2, l.port2))
    requires var links := trace[n].links + {events[n].link};
      !SelfLinked(links) && OneCablePerPort(links) && Complete(links, events[n].cons, cfg.holdDown, None)
    ensures Spans(trace[n + 1].links, trace[n + 1].bits) && Acyclic(FloodEdges(trace[n + 1].links, trace[n + 1].bits))
  {
    var was := trace[n].(links := trace[n].links + {events[n].link});
    assert Effect(cfg, events[n], trace[n], trace[n + 1]);
    var tree :| ForTree(cfg, events[n].cons, None, was, trace[n + 1], tree);
    FloodingIsLoopFree(was.links, tree, events[n].cons, cfg.holdDown, None, was.bits, trace[n + 1].bits);
  }

  /** now is what an update of the batch made of the ports, for this spanning tree of all the links. */
  ghost predicate SetFor(cfg: Config, cons: map<Node, Connection>, links: set<Link>, now: State, tree: Tree) {
    exists mid: State :: mid.links == links && ForTree(cfg, cons, None, mid, now, tree)
  }

  ghost predicate SomeUpdate(cfg: Config, cons: map<Node, Connection>, links: set<Link>, now: State) {
    exists tree: Tree :: SetFor(cfg, cons, links, now, tree)
  }

  /** The tree the ports were last set for, with the lost links still counted, judges flooding: it spans
      what is left exactly if no lost link of the tree lies between the ends of a link that is left. */
  ghost predicate JudgedByUpdate(cfg: Config, cons: map<Node, Connection>, links: set<Link>, now: State) {
    exists tree: Tree ::
      && SetFor(cfg, cons, links, now.(links := links), tree)
      && (Spans(now.links, now.bits) <==> NoLostLinkBetween(links, now.links, tree))
  }

  /** Every event of the batch is ignored: both ends of every link are remembered as off. */
  predicate AllIgnored(prev: Bits, lost: seq<Link>) {
    forall l | l in lost :: RememberedOff(prev, l.dpid1, l.port1) && RememberedOff(prev, l.dpid2, l.port2)
  }

  /** A batch changes nothing if all its events are ignored; otherwise it leaves what its last update
      made of the ports. */
  lemma {:induction false} LastUpdateDecides(cfg: Config, lost: seq<Link>, cons: map<Node, Connection>,
                                             was: State, now: State)
    requires HandlesAll(cfg, lost, cons, was, now) && !SelfLinked(was.links)
    ensures now.links == was.links
    ensures if AllIgnored(was.prev, lost) then now == was else SomeUpdate(cfg, cons, was.links, now)
    decreases |lost|
  {
    if lost != [] {
      var l := lost[|lost| - 1];
      var mid :| HandlesAll(cfg, Earlier(lost), cons, was, mid) && Handles(cfg, l, cons, mid, now);
      LastUpdateDecides(cfg, Earlier(lost), cons, was, mid);
      assert forall m | m in lost :: m == l || m in Earlier(lost);
      if now != mid || !AllIgnored(was.prev, lost) {
        UpdateOrSame(cfg, l, cons, mid, now);
      }
    }
  }

  lemma UpdateOrSame(cfg: Config, l: Link, cons: map<Node, Connection>, mid: State, now: State)
    requires Handles(cfg, l, cons, mid, now) && !SelfLinked(mid.links)
    ensures RememberedOff(mid.prev, l.dpid1, l.port1) && RememberedOff(mid.prev, l.dpid2, l.port2) ==> now == mid
    ensures !(RememberedOff(mid.prev, l.dpid1, l.port1) && RememberedOff(mid.prev, l.dpid2, l.port2)) ==>
      SomeUpdate(cfg, cons, mid.links, now)
  {
    if !(RememberedOff(mid.prev, l.dpid1, l.port1) && RememberedOff(mid.prev, l.dpid2, l.port2)) {
      var tree :| ForTree(cfg, cons, None, mid, now, tree);
      assert SetFor(cfg, cons, mid.links, now, tree);
    }
  }

  /** Links that are blocked at both ends can go without any change to flooding. */
  lemma IgnoredLossSpans(s: State, lost: seq<Link>)
    requires Agrees(s) && AllIgnored(s.prev, lost) && Spans(s.links, s.bits)
    ensures Spans(Left(s.links, lost), s.bits)
  {
    var rest := Left(s.links, lost);
    forall m | FloodsAcross(s.links, s.bits, m)
      ensures FloodsAcross(rest, s.bits, m)
    {
      assert Flip(Flip(m)) == m;
    }
    assert FloodEdges(rest, s.bits) == FloodEdges(s.links, s.bits);
    FewerAreSpanned(s.links, rest, s.bits);
  }

  /** In every run, at every batch of lost links: if all its events are ignored, the ports stay as they
      were, and flooding that spanned the links spans what is left; otherwise the update that set the
      ports last judges it. */
  lemma LossSpans(cfg: Config, events: seq<Event>, trace: seq<State>, n: nat)
    requires IsRun(cfg, events, trace) && n < |events| && events[n].LinksLost? && Agrees(trace[n])
    requires !SelfLinked(trace[n].links) && OneCablePerPort(trace[n].links)
    requires Complete(trace[n + 1].links, events[n].cons, cfg.holdDown, None)
    ensures var was, now := trace[n], trace[n + 1];
      if AllIgnored(was.prev, events[n].lost) then
        && now == was.(links := now.links)
        && (Spans(was.links, was.bits) ==> Spans(now.links, now.bits))
      else JudgedByUpdate(cfg, events[n].cons, was.links, now)
  {
    var was, now := trace[n], trace[n + 1];
    var links, rest, cons := was.links, now.links, events[n].cons;
    assert Effect(cfg, events[n], was, now);
    var end := now.(links := links);
    LastUpdateDecides(cfg, events[n].lost, cons, was, end);
    if AllIgnored(was.prev, events[n].lost) {
      if Spans(links, was.bits) {
        IgnoredLossSpans(was, events[n].lost);
      }
    } else {
      var tree :| SetFor(cfg, cons, links, end, tree);
      var mid: State :| mid.links == links && ForTree(cfg, cons, None, mid, end, tree);
      RemovalSpans(links, rest, tree, cons, cfg.holdDown, mid.bits, now.bits);
    }
  }
}
