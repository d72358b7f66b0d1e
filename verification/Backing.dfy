/**
  When the adjacency of pox/forwarding/l2_multi.py is backed by links: after links are lost
  together, for pox/openflow/discovery.py raises the event of each while it still holds them all.
*/
module Backing {
  import opened Wrappers
  import opened Graphs
  import opened Discovery
  import opened L2Multi

  type Adjacency = map<(Node, Node), Port>

  /** A link between these switches, in either direction. */
  predicate Touches(l: Link, a: Node, b: Node) {
    (l.dpid1 == a && l.dpid2 == b) || (l.dpid1 == b && l.dpid2 == a)
  }

  predicate JoinsBy(adjacency: Adjacency, links: set<Link>, a: Node, b: Node, l: Link) {
    TwoWay(links, l) && l.dpid1 == a && l.dpid2 == b && JoinedBy(adjacency, l)
  }

  /** The switches are not joined, or by the ports of a two-way link. */
  ghost predicate Backed(adjacency: Adjacency, links: set<Link>, a: Node, b: Node) {
    || (Lookup(adjacency, a, b).None? && Lookup(adjacency, b, a).None?)
    || exists l :: JoinsBy(adjacency, links, a, b, l)
  }

  predicate SameAt(was: Adjacency, now: Adjacency, a: Node, b: Node) {
    Lookup(now, a, b) == Lookup(was, a, b) && Lookup(now, b, a) == Lookup(was, b, a)
  }

  lemma BackedAlike(was: Adjacency, now: Adjacency, links: set<Link>, a: Node, b: Node)
    requires a != b && SameAt(was, now, a, b)
    ensures Backed(now, links, a, b) <==> Backed(was, links, a, b)
  {
    forall l: Link
      ensures JoinsBy(now, links, a, b, l) <==> JoinsBy(was, links, a, b, l)
    {
    }
  }

  lemma BackedEitherWay(adjacency: Adjacency, links: set<Link>, a: Node, b: Node)
    requires a != b && Backed(adjacency, links, a, b)
    ensures Backed(adjacency, links, b, a)
  {
    if l :| JoinsBy(adjacency, links, a, b, l) {
      assert Flip(Flip(l)) == l;
      assert JoinsBy(adjacency, links, b, a, Flip(l));
    }
  }

  // ---------------------------------------------------------------- one event

  /** Every link that can stand in for the lost one is left. */
  ghost predicate ReplacementsStay(l: Link, disc: set<Link>, rest: set<Link>) {
    forall ll | Replaces(ll, l, disc) :: TwoWay(rest, ll)
  }

  /** The switches of the link joined by the ports of another one. */
  function Rejoined(was: Adjacency, l: Link, ll: Link): Adjacency {
    was[(l.dpid1, l.dpid2) := ll.port1][(l.dpid2, l.dpid1) := ll.port2]
  }

  lemma RejoinedIsEffect(was: Adjacency, l: Link, disc: set<Link>, ll: Link)
    requires l.dpid1 != l.dpid2 && Replaces(ll, l, disc)
    ensures LinkEffect(was, Rejoined(was, l, ll), l, true, disc) && JoinedBy(Rejoined(was, l, ll), ll)
  {
    var pair := {(l.dpid1, l.dpid2), (l.dpid2, l.dpid1)};
    assert Rejoined(was, l, ll) - pair == was - pair;
  }

  lemma RejoinedIsUnbacked(was: Adjacency, l: Link, disc: set<Link>, rest: set<Link>, ll: Link)
    requires l.dpid1 != l.dpid2 && Replaces(ll, l, disc) && !TwoWay(rest, ll)
    ensures !Backed(Rejoined(was, l, ll), rest, l.dpid1, l.dpid2)
  {
    forall m | JoinsBy(Rejoined(was, l, ll), rest, l.dpid1, l.dpid2, m)
      ensures m == ll
    {
    }
  }

  /** Whichever replacement the handler comes upon first, the pair is backed by what is left: exactly
      if every possible replacement is left. */
  lemma RemovalBacks(was: Adjacency, l: Link, disc: set<Link>, rest: set<Link>)
    requires l.dpid1 != l.dpid2
    ensures (forall now | LinkEffect(was, now, l, true, disc) :: Backed(now, rest, l.dpid1, l.dpid2)) <==>
            ReplacementsStay(l, disc, rest)
  {
    if ReplacementsStay(l, disc, rest) {
      forall now | LinkEffect(was, now, l, true, disc)
        ensures Backed(now, rest, l.dpid1, l.dpid2)
      {
        if exists ll :: Replaces(ll, l, disc) {
          var ll :| Replaces(ll, l, disc) && JoinedBy(now, ll);
          assert JoinsBy(now, rest, l.dpid1, l.dpid2, ll);
        }
      }
    } else {
      var ll :| Replaces(ll, l, disc) && !TwoWay(rest, ll);
      RejoinedIsEffect(was, l, disc, ll);
      RejoinedIsUnbacked(was, l, disc, rest, ll);
    }
  }

  lemma EffectExists(was: Adjacency, l: Link, disc: set<Link>) returns (now: Adjacency)
    ensures LinkEffect(was, now, l, true, disc)
  {
    var pair := {(l.dpid1, l.dpid2), (l.dpid2, l.dpid1)};
    if ll :| Replaces(ll, l, disc) {
      now := Rejoined(was, l, ll);
      assert now - pair == was - pair;
    } else {
      now := was - pair;
      assert now - pair == was - pair;
    }
  }

  lemma OthersStay(was: Adjacency, now: Adjacency, l: Link, removed: bool, disc: set<Link>, a: Node, b: Node)
    requires LinkEffect(was, now, l, removed, disc) && !Touches(l, a, b)
    ensures SameAt(was, now, a, b)
  {
    var pair := {(l.dpid1, l.dpid2), (l.dpid2, l.dpid1)};
    assert forall k | k !in pair :: (k in now <==> k in now - pair) && (k in was <==> k in was - pair);
    assert forall k | k !in pair && k in now :: now[k] == (now - pair)[k];
    assert forall k | k !in pair && k in was :: was[k] == (was - pair)[k];
  }

  // ---------------------------------------------------------------- a batch of events

  function Front(lost: seq<Link>): seq<Link>
    requires lost != []
  {
    lost[..|lost| - 1]
  }

  function Final(lost: seq<Link>): Link
    requires lost != []
  {
    lost[|lost| - 1]
  }

  /** The events of the lost links, in their order, while discovery holds disc, lead to now. */
  ghost predicate Leads(was: State, lost: seq<Link>, disc: set<Link>, now: State)
    decreases |lost|
  {
    if lost == [] then now == was
    else exists mid :: Leads(was, Front(lost), disc, mid) && Effect(LinkChanged(Final(lost), true, disc), mid, now)
  }

  /** The last of the lost links between these switches. */
  function LastBetween(lost: seq<Link>, a: Node, b: Node): (r: Option<Link>)
    ensures r.Some? ==> r.value in lost && Touches(r.value, a, b)
    ensures r.None? ==> forall l | l in lost :: !Touches(l, a, b)
    decreases |lost|
  {
    if lost == [] then None
    else if Touches(Final(lost), a, b) then Some(Final(lost))
    else
      assert forall l | l in lost :: l == Final(lost) || l in Front(lost);
      LastBetween(Front(lost), a, b)
  }

  lemma {:induction false} LeadsSomewhere(was: State, lost: seq<Link>, disc: set<Link>) returns (now: State)
    ensures Leads(was, lost, disc, now) && now.switches == was.switches
    decreases |lost|
  {
    if lost == [] {
      now := was;
    } else {
      var mid := LeadsSomewhere(was, Front(lost), disc);
      now := StepOn(mid, Final(lost), disc);
    }
  }

  lemma StepOn(mid: State, l: Link, disc: set<Link>) returns (now: State)
    ensures Effect(LinkChanged(l, true, disc), mid, now) && now.switches == mid.switches
  {
    if l.dpid1 in mid.switches && l.dpid2 in mid.switches {
      var adjacency := EffectExists(mid.adjacency, l, disc);
      now := mid.(adjacency := adjacency);
    } else {
      now := mid;
    }
  }

  lemma {:induction false} SwitchesStay(was: State, lost: seq<Link>, disc: set<Link>, now: State)
    requires Leads(was, lost, disc, now)
    ensures now.switches == was.switches
    decreases |lost|
  {
    if lost != [] {
      var mid :| Leads(was, Front(lost), disc, mid) && Effect(LinkChanged(Final(lost), true, disc), mid, now);
      SwitchesStay(was, Front(lost), disc, mid);
    }
  }

  /** Wherever the batch leads, the pair is backed by what is left. */
  ghost predicate AlwaysBacked(was: State, lost: seq<Link>, disc: set<Link>, rest: set<Link>, a: Node, b: Node) {
    forall now | Leads(was, lost, disc, now) :: Backed(now.adjacency, rest, a, b)
  }

  lemma OtherEventKeeps(was: State, lost: seq<Link>, disc: set<Link>, rest: set<Link>, a: Node, b: Node)
    requires a != b && lost != [] && !Touches(Final(lost), a, b)
    ensures AlwaysBacked(was, lost, disc, rest, a, b) <==> AlwaysBacked(was, Front(lost), disc, rest, a, b)
  {
    var l := Final(lost);
    forall mid, now | Leads(was, Front(lost), disc, mid) && Effect(LinkChanged(l, true, disc), mid, now)
      ensures Backed(now.adjacency, rest, a, b) <==> Backed(mid.adjacency, rest, a, b)
    {
      if l.dpid1 in mid.switches && l.dpid2 in mid.switches {
        OthersStay(mid.adjacency, now.adjacency, l, true, disc, a, b);
      }
      BackedAlike(mid.adjacency, now.adjacency, rest, a, b);
    }
    if AlwaysBacked(was, lost, disc, rest, a, b) {
      forall mid | Leads(was, Front(lost), disc, mid)
        ensures Backed(mid.adjacency, rest, a, b)
      {
        var now := StepOn(mid, l, disc);
        assert Leads(was, lost, disc, now);
      }
    }
  }

  lemma LastEventDecides(was: State, lost: seq<Link>, disc: set<Link>, rest: set<Link>)
    requires lost != [] && Final(lost).dpid1 != Final(lost).dpid2
    requires Final(lost).dpid1 in was.switches && Final(lost).dpid2 in was.switches
    ensures AlwaysBacked(was, lost, disc, rest, Final(lost).dpid1, Final(lost).dpid2) <==>
            ReplacementsStay(Final(lost), disc, rest)
  {
    var l := Final(lost);
    if ReplacementsStay(l, disc, rest) {
      forall now | Leads(was, lost, disc, now)
        ensures Backed(now.adjacency, rest, l.dpid1, l.dpid2)
      {
        var mid :| Leads(was, Front(lost), disc, mid) && Effect(LinkChanged(l, true, disc), mid, now);
        SwitchesStay(was, Front(lost), disc, mid);
        RemovalBacks(mid.adjacency, l, disc, rest);
      }
    } else {
      var mid := LeadsSomewhere(was, Front(lost), disc);
      RemovalBacks(mid.adjacency, l, disc, rest);
      var adjacency :|
        LinkEffect(mid.adjacency, adjacency, l, true, disc) && !Backed(adjacency, rest, l.dpid1, l.dpid2);
      var now := mid.(adjacency := adjacency);
      assert Effect(LinkChanged(l, true, disc), mid, now) && Leads(was, lost, disc, now);
    }
  }

  lemma EitherWay(was: State, lost: seq<Link>, disc: set<Link>, rest: set<Link>, a: Node, b: Node)
    requires a != b && AlwaysBacked(was, lost, disc, rest, a, b)
    ensures AlwaysBacked(was, lost, disc, rest, b, a)
  {
    forall now | Leads(was, lost, disc, now)
      ensures Backed(now.adjacency, rest, b, a)
    {
      BackedEitherWay(now.adjacency, rest, a, b);
    }
  }

  /** What decides of a pair after a batch: its last lost link if there is one, else its state before. */
  ghost predicate PairSurvives(was: State, lost: seq<Link>, disc: set<Link>, rest: set<Link>, a: Node, b: Node) {
    match LastBetween(lost, a, b)
    case None => Backed(was.adjacency, rest, a, b)
    case Some(l) => ReplacementsStay(l, disc, rest)
  }

  /** For every batch and every pair of known switches: the pair is backed by what is left, whatever
      order discovery's links come in, exactly if every link that can stand in for the last lost link
      of the pair is left. */
  lemma {:induction false} BatchBacksPair(
      was: State, lost: seq<Link>, disc: set<Link>, rest: set<Link>, a: Node, b: Node)
    requires a != b && a in was.switches && b in was.switches
    ensures AlwaysBacked(was, lost, disc, rest, a, b) <==> PairSurvives(was, lost, disc, rest, a, b)
    decreases |lost|
  {
    if lost == [] {
      assert Leads(was, lost, disc, was);
    } else if Touches(Final(lost), a, b) {
      LastEventDecides(was, lost, disc, rest);
      if AlwaysBacked(was, lost, disc, rest, a, b) {
        EitherWay(was, lost, disc, rest, a, b);
      }
      if AlwaysBacked(was, lost, disc, rest, b, a) {
        EitherWay(was, lost, disc, rest, b, a);
      }
    } else {
      OtherEventKeeps(was, lost, disc, rest, a, b);
      BatchBacksPair(was, Front(lost), disc, rest, a, b);
    }
  }

  // ---------------------------------------------------------------- all pairs, and runs

  /** Every two switches that are joined are joined by a two-way link. */
  ghost predicate AllBacked(s: State, links: set<Link>) {
    forall a, b | a in s.switches && b in s.switches && a != b :: Backed(s.adjacency, links, a, b)
  }

  /** The links of the batch that come last between their switches can be replaced by links that
      are left only. */
  ghost predicate BatchIsHarmless(s: State, lost: seq<Link>, disc: set<Link>, rest: set<Link>) {
    forall a, b | a in s.switches && b in s.switches && a != b ::
      LastBetween(lost, a, b).Some? ==> ReplacementsStay(LastBetween(lost, a, b).value, disc, rest)
  }

  function Left(disc: set<Link>, lost: seq<Link>): set<Link> {
    set l | l in disc && l !in lost
  }

  lemma UntouchedStaysBacked(adjacency: Adjacency, disc: set<Link>, lost: seq<Link>, a: Node, b: Node)
    requires a != b && Backed(adjacency, disc, a, b) && LastBetween(lost, a, b).None?
    ensures Backed(adjacency, Left(disc, lost), a, b)
  {
    if l :| JoinsBy(adjacency, disc, a, b, l) {
      assert Touches(l, a, b) && Touches(Flip(l), a, b);
      assert JoinsBy(adjacency, Left(disc, lost), a, b, l);
    }
  }

  /** The adjacency, backed by what discovery held, is backed by what is left after a batch, whatever
      order the links come in, exactly if the batch is harmless. */
  lemma BatchBacks(was: State, lost: seq<Link>, disc: set<Link>)
    requires AllBacked(was, disc)
    ensures (forall now | Leads(was, lost, disc, now) :: AllBacked(now, Left(disc, lost))) <==>
            BatchIsHarmless(was, lost, disc, Left(disc, lost))
  {
    var rest := Left(disc, lost);
    forall a, b | a in was.switches && b in was.switches && a != b
      ensures AlwaysBacked(was, lost, disc, rest, a, b) <==>
              (LastBetween(lost, a, b).Some? ==> ReplacementsStay(LastBetween(lost, a, b).value, disc, rest))
    {
      BatchBacksPair(was, lost, disc, rest, a, b);
      if LastBetween(lost, a, b).None? {
        UntouchedStaysBacked(was.adjacency, disc, lost, a, b);
      }
    }
    if forall now | Leads(was, lost, disc, now) :: AllBacked(now, rest) {
      forall a, b, now | a in was.switches && b in was.switches && a != b && Leads(was, lost, disc, now)
        ensures Backed(now.adjacency, rest, a, b)
      {
        SwitchesStay(was, lost, disc, now);
        assert AllBacked(now, rest);
      }
    }
    if BatchIsHarmless(was, lost, disc, rest) {
      forall now | Leads(was, lost, disc, now)
        ensures AllBacked(now, rest)
      {
        SwitchesStay(was, lost, disc, now);
        forall a, b | a in now.switches && b in now.switches && a != b
          ensures Backed(now.adjacency, rest, a, b)
        {
          assert AlwaysBacked(was, lost, disc, rest, a, b);
        }
      }
    }
  }

  /** The same at the handlers: what a run of the removal events makes of the adjacency. */
  function Removals(lost: seq<Link>, disc: set<Link>): seq<Event> {
    seq(|lost|, i requires 0 <= i < |lost| => LinkChanged(lost[i], true, disc))
  }

  lemma {:induction false} RunLeads(lost: seq<Link>, disc: set<Link>, trace: seq<State>, answers: seq<Answer>, n: nat)
    requires Runs(Removals(lost, disc), trace, answers) && n <= |lost|
    ensures Leads(trace[0], lost[..n], disc, trace[n])
  {
    if n > 0 {
      RunLeads(lost, disc, trace, answers, n - 1);
      assert Happens(Removals(lost, disc), trace, answers, n - 1);
      assert Front(lost[..n]) == lost[..n - 1] && Final(lost[..n]) == lost[n - 1];
    }
  }

  lemma {:induction false} LeadsRun(was: State, lost: seq<Link>, disc: set<Link>, now: State)
      returns (trace: seq<State>, answers: seq<Answer>)
    requires Leads(was, lost, disc, now)
    ensures Runs(Removals(lost, disc), trace, answers) && trace[0] == was && trace[|lost|] == now
    decreases |lost|
  {
    if lost == [] {
      trace, answers := [was], [];
    } else {
      var event := LinkChanged(Final(lost), true, disc);
      var mid :| Leads(was, Front(lost), disc, mid) && Effect(event, mid, now);
      var states, replies := LeadsRun(was, Front(lost), disc, mid);
      OneMore(Removals(Front(lost), disc), states, replies, event, now, Nothing);
      assert Removals(lost, disc) == Removals(Front(lost), disc) + [event];
      trace, answers := states + [now], replies + [Nothing];
    }
  }

  /** Every run of the removal events ends with all pairs backed by what is left exactly if the batch
      is harmless. */
  lemma BatchRunsBack(was: State, lost: seq<Link>, disc: set<Link>)
    requires AllBacked(was, disc)
    ensures (forall trace, answers | Runs(Removals(lost, disc), trace, answers) && trace[0] == was ::
               AllBacked(trace[|lost|], Left(disc, lost))) <==>
            BatchIsHarmless(was, lost, disc, Left(disc, lost))
  {
    BatchBacks(was, lost, disc);
    forall trace, answers | Runs(Removals(lost, disc), trace, answers) && trace[0] == was
      ensures Leads(was, lost, disc, trace[|lost|])
    {
      RunLeads(lost, disc, trace, answers, |lost|);
      assert lost[..|lost|] == lost;
    }
    if now :| Leads(was, lost, disc, now) && !AllBacked(now, Left(disc, lost)) {
      var trace, answers := LeadsRun(was, lost, disc, now);
    }
  }

  /** A batch, handled event by event.  If it is harmless, the switches are joined by what is left. */
  method LoseAll(net: Forwarder, lost: seq<Link>, disc: set<Link>)
      returns (answers: seq<Answer>, ghost trace: seq<State>)
    requires net.Valid() && AllBacked(net.Now(), disc)
    modifies net
    ensures net.Valid() && Runs(Removals(lost, disc), trace, answers)
    ensures trace[0] == old(net.Now()) && trace[|lost|] == net.Now()
    ensures BatchIsHarmless(old(net.Now()), lost, disc, Left(disc, lost)) ==> AllBacked(net.Now(), Left(disc, lost))
  {
    BatchBacks(net.Now(), lost, disc);
    var events := Removals(lost, disc);
    answers, trace := net.Run(events);
    RunLeads(lost, disc, trace, answers, |lost|);
    assert lost[..|lost|] == lost;
  }

  /** A new link, recorded before its event, keeps the adjacency backed. */
  lemma AdditionBacks(was: State, now: State, l: Link, disc: set<Link>)
    requires l in disc && AllBacked(was, disc - {l}) && Effect(LinkChanged(l, false, disc), was, now)
    ensures AllBacked(now, disc)
  {
    forall a, b | a in now.switches && b in now.switches && a != b
      ensures Backed(now.adjacency, disc, a, b)
    {
      if m :| JoinsBy(was.adjacency, disc - {l}, a, b, m) {
        assert JoinsBy(was.adjacency, disc, a, b, m);
      }
      AdditionBacksPair(was, now, l, disc, a, b);
    }
  }

  lemma AdditionBacksPair(was: State, now: State, l: Link, disc: set<Link>, a: Node, b: Node)
    requires a != b && l in disc && Effect(LinkChanged(l, false, disc), was, now)
    requires Backed(was.adjacency, disc, a, b)
    ensures Backed(now.adjacency, disc, a, b)
  {
    if now.adjacency == was.adjacency {
      BackedAlike(was.adjacency, now.adjacency, disc, a, b);
    } else if !Touches(l, a, b) {
      OthersStay(was.adjacency, now.adjacency, l, false, disc, a, b);
      BackedAlike(was.adjacency, now.adjacency, disc, a, b);
    } else {
      assert JoinsBy(now.adjacency, disc, l.dpid1, l.dpid2, l);
      assert Flip(Flip(l)) == l && JoinsBy(now.adjacency, disc, l.dpid2, l.dpid1, Flip(l));
    }
  }
}
