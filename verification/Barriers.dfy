/**
  The barrier-counting protocol of pox/forwarding/l2_multi.py: a path counts as installed,
  and the packet held for it is released, when the last outstanding barrier is answered.
*/
module Barriers {
  import opened Graphs

  /** A barrier request: the switch it went to and its transaction id. */
  type Barrier = (Node, nat)

  /** The identity of a WaitingPath object. */
  type PathId = nat

  /** The fields of a WaitingPath: what it still waits for, and what it holds. */
  datatype WaitingPath = WaitingPath(xids: set<Barrier>, hasPacket: bool, expiresAt: int)

  const PATH_SETUP_TIME := 4
  const WAITING_LIMIT := 1000

  /** What the component keeps (waiting, paths), what it has put out (PathInstalled events
      and released packets), and the history the protocol is judged by: the barriers each
      path asked for, the paths expiry gave up on, and every reply received. */
  datatype State = State(
    waiting: map<Barrier, PathId>, paths: map<PathId, WaitingPath>,
    installed: multiset<PathId>, released: multiset<PathId>,
    asked: map<PathId, set<Barrier>>, killed: set<PathId>, replies: set<Barrier>)
  {
    /** All barriers of the path were answered and expiry had not given up on it. */
    predicate Complete(id: PathId)
      requires id in asked
    {
      id !in killed && asked[id] <= replies
    }

    /** A live path waits for exactly its unanswered barriers, and each leads back to it. */
    ghost predicate Linked(id: PathId)
      requires id in paths && id in asked
    {
      id !in killed ==>
        && paths[id].xids == asked[id] - replies
        && (forall b | b in paths[id].xids :: b in waiting && waiting[b] == id)
    }

    /** Raised and released exactly once when complete, and never before. */
    predicate Counted(id: PathId)
      requires id in paths && id in asked
    {
      && asked[id] != {}
      && installed[id] == (if Complete(id) then 1 else 0)
      && released[id] == (if Complete(id) && paths[id].hasPacket then 1 else 0)
    }

    predicate LeadsBack(b: Barrier)
      requires b in waiting
    {
      var id := waiting[b];
      id in paths && id in asked && id !in killed && b in paths[id].xids && b in asked[id]
    }

    ghost predicate Valid() {
      && paths.Keys == asked.Keys && killed <= paths.Keys
      && (forall b {:trigger LeadsBack(b)} | b in waiting :: LeadsBack(b))
      && (forall id {:trigger Linked(id)} | id in paths :: Linked(id))
      && (forall id {:trigger Counted(id)} | id in paths :: Counted(id))
      && (forall id | id !in paths :: id !in installed && id !in released)
    }

    predicate IsNew(b: Barrier) {
      b !in replies && forall id | id in asked :: b !in asked[id]
    }
  }

  function Leading(waiting: map<Barrier, PathId>, id: PathId, barriers: set<Barrier>): map<Barrier, PathId> {
    waiting + map b | b in barriers :: id
  }

  lemma LeadingOneMore(waiting: map<Barrier, PathId>, id: PathId, barriers: set<Barrier>, b: Barrier)
    ensures Leading(waiting, id, barriers + {b}) == Leading(waiting, id, barriers)[b := id]
  {
  }

  /** The switches of a path are told one after the other, each by a flow entry and a barrier
      request; the first without a connection ends it with an exception. */
  function Told(barriers: seq<Barrier>, connected: set<Node>): (r: seq<Barrier>)
    ensures r <= barriers
  {
    if barriers == [] || barriers[0].0 !in connected then [] else [barriers[0]] + Told(barriers[1..], connected)
  }

  function Members(barriers: seq<Barrier>): set<Barrier> {
    set b | b in barriers
  }

  predicate AllConnected(barriers: seq<Barrier>, connected: set<Node>) {
    forall b | b in barriers :: b.0 in connected
  }

  /** Every switch of the path is asked exactly if every one has a connection. */
  lemma {:induction false} ToldAll(barriers: seq<Barrier>, connected: set<Node>)
    ensures AllConnected(Told(barriers, connected), connected)
    ensures Members(Told(barriers, connected)) == Members(barriers) <==> AllConnected(barriers, connected)
    ensures AllConnected(barriers, connected) ==> Told(barriers, connected) == barriers
  {
    if barriers != [] && barriers[0].0 in connected {
      ToldAll(barriers[1..], connected);
      assert forall b :: b in barriers <==> b == barriers[0] || b in barriers[1..];
      if AllConnected(barriers[1..], connected) {
        assert Told(barriers, connected) == barriers;
      } else {
        var b :| b in barriers[1..] && b.0 !in connected;
        assert b in Members(barriers) && b !in Members(Told(barriers, connected));
      }
    } else if barriers != [] {
      assert barriers[0] in Members(barriers);
    }
  }

  lemma {:induction false} ToldUpTo(barriers: seq<Barrier>, connected: set<Node>, n: nat)
    requires n < |barriers| && AllConnected(barriers[..n], connected) && barriers[n].0 !in connected
    ensures Told(barriers, connected) == barriers[..n]
  {
    if n > 0 {
      assert barriers[1..][..n - 1] == barriers[..n][1..];
      assert barriers[0] in barriers[..n];
      ToldUpTo(barriers[1..], connected, n - 1);
      assert barriers[..n] == [barriers[0]] + barriers[1..][..n - 1];
    }
  }

  /** A path starts waiting for its barriers. */
  function Begun(s: State, id: PathId, barriers: set<Barrier>, hasPacket: bool, now: int): State {
    s.(waiting := Leading(s.waiting, id, barriers),
       paths := s.paths[id := WaitingPath(barriers, hasPacket, now + PATH_SETUP_TIME)],
       asked := s.asked[id := barriers])
  }

  /** A path of which nobody could be asked is not kept. */
  function Started(s: State, id: PathId, barriers: set<Barrier>, hasPacket: bool, now: int): State {
    if barriers == {} then s else Begun(s, id, barriers, hasPacket, now)
  }

  lemma OneMoreAsked(s: State, id: PathId, done: set<Barrier>, b: Barrier, hasPacket: bool, now: int)
    ensures var t := Started(s, id, done, hasPacket, now);
      && (done != {} ==> id in t.paths && t.paths[id].xids == done)
      && Started(s, id, done + {b}, hasPacket, now) ==
         t.(waiting := t.waiting[b := id], asked := t.asked[id := done + {b}],
            paths := t.paths[id := WaitingPath(done + {b}, hasPacket, now + PATH_SETUP_TIME)])
  {
    LeadingOneMore(s.waiting, id, done, b);
    var expiry := now + PATH_SETUP_TIME;
    var few, more := WaitingPath(done, hasPacket, expiry), WaitingPath(done + {b}, hasPacket, expiry);
    if done == {} {
      assert Leading(s.waiting, id, {}) == s.waiting;
    } else {
      assert s.paths[id := few][id := more] == s.paths[id := more];
      assert s.asked[id := done][id := done + {b}] == s.asked[id := done + {b}];
    }
  }

  function Once(happens: bool, id: PathId): multiset<PathId> {
    if happens then multiset{id} else multiset{}
  }

  /** A barrier reply is counted. */
  function Answered(s: State, b: Barrier): State
    requires b in s.waiting ==> s.waiting[b] in s.paths
  {
    var heard := s.(replies := s.replies + {b});
    if b !in s.waiting then
      heard
    else
      var id := s.waiting[b];
      var left := s.paths[id].xids - {b};
      heard.(waiting := s.waiting - {b},
             paths := s.paths[id := s.paths[id].(xids := left)],
             installed := s.installed + Once(left == {}, id),
             released := s.released + Once(left == {} && s.paths[id].hasPacket, id))
  }

  /** The paths some waiting barrier leads to whose time is up. */
  function LateIds(s: State, now: int): set<PathId> {
    set b | b in s.waiting && s.waiting[b] in s.paths && now >= s.paths[s.waiting[b]].expiresAt :: s.waiting[b]
  }

  function XidsOf(s: State, ids: set<PathId>): set<Barrier> {
    set id, b | id in ids && id in s.paths && b in s.paths[id].xids :: b
  }

  /** Expiry gives up on every late path: its barriers lead nowhere any more. */
  function AfterExpiry(s: State, now: int): State {
    var late := LateIds(s, now);
    s.(waiting := s.waiting - XidsOf(s, late), killed := s.killed + late)
  }

  /** Expiry also runs before a path is added to a table that has grown large. */
  function Relieved(s: State, now: int): State {
    if |s.waiting| > WAITING_LIMIT then AfterExpiry(s, now) else s
  }

  lemma BegunIsValid(s: State, id: PathId, barriers: set<Barrier>, hasPacket: bool, now: int)
    requires s.Valid() && id !in s.paths && barriers != {} && forall b | b in barriers :: s.IsNew(b)
    ensures Begun(s, id, barriers, hasPacket, now).Valid()
  {
    var t := Begun(s, id, barriers, hasPacket, now);
    forall b | b in t.waiting
      ensures t.LeadsBack(b)
    {
      if b !in barriers {
        assert s.LeadsBack(b);
      }
    }
    forall i | i in t.paths
      ensures t.Linked(i) && t.Counted(i)
    {
      if i != id {
        assert s.Linked(i) && s.Counted(i);
      } else {
        var b :| b in barriers;
        assert s.IsNew(b);
      }
    }
  }

  lemma AnsweredIsValid(s: State, b: Barrier)
    requires s.Valid()
    ensures b in s.waiting ==> s.waiting[b] in s.paths
    ensures Answered(s, b).Valid()
  {
    if b in s.waiting {
      assert s.LeadsBack(b);
    }
    var t := Answered(s, b);
    forall c | c in t.waiting
      ensures t.LeadsBack(c)
    {
      assert s.LeadsBack(c);
    }
    forall i | i in t.paths
      ensures t.Linked(i) && t.Counted(i)
    {
      assert s.Linked(i) && s.Counted(i);
      if b in s.waiting {
        assert s.Linked(s.waiting[b]);
      }
    }
  }

  lemma OneOwner(s: State, b: Barrier, i: PathId, j: PathId)
    requires s.Valid() && i in s.paths && i !in s.killed && b in s.paths[i].xids
    requires j in s.paths && j !in s.killed && b in s.paths[j].xids
    ensures i == j
  {
    assert s.Linked(i) && s.Linked(j);
  }

  lemma AfterExpiryIsValid(s: State, now: int)
    requires s.Valid()
    ensures AfterExpiry(s, now).Valid()
  {
    var t := AfterExpiry(s, now);
    var late := LateIds(s, now);
    forall c | c in t.waiting
      ensures t.LeadsBack(c)
    {
      assert s.LeadsBack(c);
    }
    forall i | i in t.paths
      ensures t.Linked(i) && t.Counted(i)
    {
      assert s.Linked(i) && s.Counted(i);
      if i in late {
        var b :| b in s.waiting && s.waiting[b] == i;
        assert s.LeadsBack(b);
      } else {
        forall b | i !in s.killed && b in s.paths[i].xids
          ensures b !in XidsOf(s, late)
        {
          forall id | id in late && b in s.paths[id].xids
            ensures false
          {
            var c :| c in s.waiting && s.waiting[c] == id;
            assert s.LeadsBack(c);
            OneOwner(s, b, i, id);
          }
        }
      }
    }
  }

  /** The barriers that lead to a path are the ones it waits for, unless expiry has given
      up on it, and then there are none. */
  lemma XidsAreItsKeys(s: State, id: PathId)
    requires s.Valid() && id in s.paths
    ensures (set b | b in s.waiting && s.waiting[b] == id) == if id in s.killed then {} else s.paths[id].xids
  {
    assert s.Linked(id);
    forall b | b in s.waiting && s.waiting[b] == id
      ensures id !in s.killed && b in s.paths[id].xids
    {
      assert s.LeadsBack(b);
    }
  }

  /** Never more than once, only after every reply, and never after expiry. */
  lemma InstalledOnceWhenAnswered(s: State, id: PathId)
    requires s.Valid() && id in s.paths
    ensures s.installed[id] <= 1 && s.released[id] <= s.installed[id]
    ensures id in s.installed <==> id !in s.killed && s.asked[id] <= s.replies
    ensures id in s.released <==> id in s.installed && s.paths[id].hasPacket
  {
    assert s.Counted(id);
  }

  // ---------------------------------------------------------------- whole runs

  /** barriers: one for each switch of the path. */
  datatype Event =
    | PathBegun(id: PathId, barriers: seq<Barrier>, connected: set<Node>, hasPacket: bool, now: int)
    | Reply(b: Barrier)
    | Expiry(now: int)

  const NothingYet := State(map[], map[], multiset{}, multiset{}, map[], {}, {})

  /** One event.  Transaction ids are new when they are used. */
  ghost predicate Next(s: State, e: Event, t: State) {
    match e
    case PathBegun(id, barriers, connected, hasPacket, now) =>
      && id !in s.paths && (forall b | b in barriers :: s.IsNew(b))
      && t == Started(Relieved(s, now), id, Members(Told(barriers, connected)), hasPacket, now)
    case Reply(b) => Keyed(s) && t == Answered(s, b)
    case Expiry(now) => t == AfterExpiry(s, now)
  }

  ghost predicate IsRun(states: seq<State>, events: seq<Event>) {
    && |states| == |events| + 1 && states[0] == NothingYet
    && forall n | 0 <= n < |events| :: Next(states[n], events[n], states[n + 1])
  }

  lemma StartedIsValid(s: State, id: PathId, barriers: seq<Barrier>, connected: set<Node>, hasPacket: bool, now: int)
    requires s.Valid() && id !in s.paths && forall b | b in barriers :: s.IsNew(b)
    ensures Started(s, id, Members(Told(barriers, connected)), hasPacket, now).Valid()
  {
    var told := Members(Told(barriers, connected));
    if told != {} {
      BegunIsValid(s, id, told, hasPacket, now);
    }
  }

  lemma NextIsValid(s: State, e: Event, t: State)
    requires s.Valid() && Next(s, e, t)
    ensures t.Valid()
  {
    match e
    case PathBegun(id, barriers, connected, hasPacket, now) =>
      AfterExpiryIsValid(s, now);
      assert forall b | b in barriers :: s.IsNew(b) && Relieved(s, now).IsNew(b);
      StartedIsValid(Relieved(s, now), id, barriers, connected, hasPacket, now);
    case Reply(b) => AnsweredIsValid(s, b);
    case Expiry(now) => AfterExpiryIsValid(s, now);
  }

  /** In every run, at every moment: the protocol's invariant holds, and each path is
      reported installed exactly when all its barriers are answered in time, once. */
  lemma {:induction false} EveryRunKeepsCount(states: seq<State>, events: seq<Event>, n: nat)
    requires IsRun(states, events) && n < |states|
    ensures states[n].Valid()
    ensures forall id | id in states[n].paths ::
      states[n].installed[id] == if states[n].Complete(id) then 1 else 0
  {
    if n > 0 {
      EveryRunKeepsCount(states, events, n - 1);
      NextIsValid(states[n - 1], events[n - 1], states[n]);
    }
    forall id | id in states[n].paths
      ensures states[n].installed[id] == if states[n].Complete(id) then 1 else 0
    {
      assert states[n].Counted(id);
    }
  }

  ghost predicate AsksAt(events: seq<Event>, k: nat, id: PathId, asked: set<Barrier>) {
    && k < |events| && events[k].PathBegun? && events[k].id == id
    && asked == Members(Told(events[k].barriers, events[k].connected))
  }

  lemma AskedBefore(s: State, e: Event, t: State, id: PathId)
    requires Next(s, e, t) && id in t.asked
    ensures if e.PathBegun? && e.id == id then
              t.asked[id] == Members(Told(e.barriers, e.connected)) || s.asked == t.asked
            else id in s.asked && t.asked[id] == s.asked[id]
  {
  }

  lemma {:induction false} WhatWasAsked(states: seq<State>, events: seq<Event>, n: nat, id: PathId) returns (k: nat)
    requires IsRun(states, events) && n < |states| && id in states[n].asked
    ensures k < n && AsksAt(events, k, id, states[n].asked[id])
  {
    var s, e := states[n - 1], events[n - 1];
    assert Next(s, e, states[n]);
    AskedBefore(s, e, states[n], id);
    if e.PathBegun? && e.id == id && states[n].asked[id] == Members(Told(e.barriers, e.connected)) {
      k := n - 1;
    } else {
      k := WhatWasAsked(states, events, n - 1, id);
    }
  }

  /** In every run: a path reported installed was begun, every switch that was asked has answered, and
      all its switches were asked exactly if each of them had a connection when it was begun. */
  lemma ReportedMeansAsked(states: seq<State>, events: seq<Event>, n: nat, id: PathId) returns (k: nat)
    requires IsRun(states, events) && n < |states| && id in states[n].installed
    ensures k < n && events[k].PathBegun? && events[k].id == id && id in states[n].asked
    ensures states[n].asked[id] == Members(Told(events[k].barriers, events[k].connected)) <= states[n].replies
    ensures states[n].asked[id] == Members(events[k].barriers) <==>
            AllConnected(events[k].barriers, events[k].connected)
  {
    EveryRunKeepsCount(states, events, n);
    k := WhatWasAsked(states, events, n, id);
    assert states[n].Counted(id);
    ToldAll(events[k].barriers, events[k].connected);
  }

  /** The event gives up on the path: expiry runs, by itself or ahead of a new path while more than a
      thousand barriers wait, some switch has not answered, and the path's time is up. */
  predicate GivesUp(s: State, e: Event, id: PathId) {
    && id in s.paths && id in s.asked && !(s.asked[id] <= s.replies)
    && (e.Expiry? || (e.PathBegun? && |s.waiting| > 1000))
    && e.now >= s.paths[id].expiresAt
  }

  lemma LateIfUnanswered(s: State, now: int, id: PathId)
    requires s.Valid()
    ensures id in s.killed + LateIds(s, now) <==>
      id in s.killed || (id in s.paths && !(s.asked[id] <= s.replies) && now >= s.paths[id].expiresAt)
  {
    if id in LateIds(s, now) {
      var b :| b in s.waiting && s.waiting[b] == id;
      assert s.LeadsBack(b) && s.Linked(id);
    }
    if id !in s.killed && id in s.paths && !(s.asked[id] <= s.replies) {
      assert s.Linked(id);
      var b :| b in s.asked[id] && b !in s.replies;
      assert b in s.paths[id].xids && s.waiting[b] == id;
    }
  }

  lemma StepGivesUp(s: State, e: Event, t: State, id: PathId)
    requires s.Valid() && Next(s, e, t)
    ensures id in t.killed <==> id in s.killed || GivesUp(s, e, id)
  {
    match e
    case PathBegun(_, _, _, _, now) => LateIfUnanswered(s, now, id);
    case Reply(_) =>
    case Expiry(now) => LateIfUnanswered(s, now, id);
  }

  predicate GaveUpAt(states: seq<State>, events: seq<Event>, m: nat, id: PathId) {
    m < |events| && m < |states| && GivesUp(states[m], events[m], id)
  }

  predicate GaveUpBefore(states: seq<State>, events: seq<Event>, n: nat, id: PathId) {
    exists m | 0 <= m < n :: GaveUpAt(states, events, m, id)
  }

  lemma GaveUpNext(states: seq<State>, events: seq<Event>, n: nat, id: PathId)
    ensures GaveUpBefore(states, events, n + 1, id) <==>
            GaveUpBefore(states, events, n, id) || GaveUpAt(states, events, n, id)
  {
  }

  lemma RunGivesUp(states: seq<State>, events: seq<Event>, n: nat, id: PathId)
    requires IsRun(states, events) && n < |events|
    ensures id in states[n + 1].killed <==> id in states[n].killed || GaveUpAt(states, events, n, id)
  {
    EveryRunKeepsCount(states, events, n);
    StepGivesUp(states[n], events[n], states[n + 1], id);
  }

  lemma NothingGivenUp(states: seq<State>, events: seq<Event>, id: PathId)
    requires IsRun(states, events)
    ensures id !in states[0].killed && !GaveUpBefore(states, events, 0, id)
  {
  }

  /** In every run: expiry has given up on exactly the paths for which some event did. */
  lemma {:induction false} GivenUpInTime(states: seq<State>, events: seq<Event>, n: nat, id: PathId)
    requires IsRun(states, events) && n < |states|
    ensures id in states[n].killed <==> GaveUpBefore(states, events, n, id)
  {
    if n == 0 {
      NothingGivenUp(states, events, id);
    } else {
      GivenUpInTime(states, events, n - 1, id);
      GaveUpNext(states, events, n - 1, id);
      RunGivesUp(states, events, n - 1, id);
    }
  }

  lemma TimeOfPath(s: State, e: Event, t: State, id: PathId)
    requires s.Valid() && Next(s, e, t) && id in t.paths
    ensures if id in s.paths then t.paths[id].expiresAt == s.paths[id].expiresAt
            else e.PathBegun? && e.id == id && t.paths[id].expiresAt == e.now + 4
  {
    if e.Reply? && e.b in s.waiting {
      assert s.LeadsBack(e.b);
    }
  }

  /** In every run: a path's time is up four seconds after it began. */
  lemma {:induction false} TimeIsUpAfterFour(states: seq<State>, events: seq<Event>, n: nat, id: PathId)
      returns (k: nat)
    requires IsRun(states, events) && n < |states| && id in states[n].paths
    ensures k < n && events[k].PathBegun? && events[k].id == id
    ensures states[n].paths[id].expiresAt == events[k].now + 4
  {
    EveryRunKeepsCount(states, events, n - 1);
    TimeOfPath(states[n - 1], events[n - 1], states[n], id);
    if id in states[n - 1].paths {
      k := TimeIsUpAfterFour(states, events, n - 1, id);
    } else {
      k := n - 1;
    }
  }

  /** The second switch of a path has no connection: the first one's reply reports the whole path
      installed and releases its packet. */
  lemma CutPathIsReported() returns (states: seq<State>, events: seq<Event>)
    ensures IsRun(states, events) && |events| == 2 && events[0].PathBegun?
    ensures !AllConnected(events[0].barriers, events[0].connected)
    ensures 1 in states[2].installed && 1 in states[2].released
  {
    var a: Barrier, b: Barrier := (1, 10), (2, 11);
    var e := PathBegun(1, [a, b], {1}, true, 0);
    OnlyFirstTold(a, b, {1});
    var first := Begun(NothingYet, 1, {a}, true, 0);
    assert Next(NothingYet, e, first);
    assert first.waiting.Keys == {a} && first.waiting[a] == 1;
    states, events := [NothingYet, first, Answered(first, a)], [e, Reply(a)];
    assert b in e.barriers;
    LastReply(first, a, 1);
  }

  lemma OnlyFirstTold(a: Barrier, b: Barrier, connected: set<Node>)
    requires a.0 in connected && b.0 !in connected
    ensures Told([a, b], connected) == [a] && Members([a]) == {a}
  {
    assert [a, b][1..] == [b];
  }

  lemma LastReply(s: State, b: Barrier, id: PathId)
    requires b in s.waiting && s.waiting[b] == id && id in s.paths && s.paths[id].xids == {b} && s.paths[id].hasPacket
    ensures id in Answered(s, b).installed && id in Answered(s, b).released
  {
    assert s.paths[id].xids - {b} == {};
  }

  /** Barriers lead to known paths only. */
  predicate Keyed(s: State) {
    forall b | b in s.waiting :: s.waiting[b] in s.paths
  }

  class Protocol {
    /** waiting_paths, and the fields of the WaitingPath objects. */
    var waiting: map<Barrier, PathId>
    var paths: map<PathId, WaitingPath>
    /** PathInstalled events raised, and packets sent out. */
    var installed: multiset<PathId>
    var released: multiset<PathId>
    ghost var asked: map<PathId, set<Barrier>>
    ghost var killed: set<PathId>
    ghost var replies: set<Barrier>

    ghost function Abs(): State
      reads this
    {
      State(waiting, paths, installed, released, asked, killed, replies)
    }

    constructor ()
      ensures Abs() == State(map[], map[], multiset{}, multiset{}, map[], {}, {})
    {
      waiting, paths, installed, released := map[], map[], multiset{}, multiset{};
      asked, killed, replies := map[], {}, {};
    }

    /** _install_path, for the barriers its switches would be asked for.  told: the switches that got
        their flow entry and barrier request; not all of them if one has no connection. */
    method InstallPath(id: PathId, barriers: seq<Barrier>, connected: set<Node>, hasPacket: bool, now: int)
        returns (told: seq<Barrier>)
      requires Keyed(Abs())
      modifies this
      ensures told == Told(barriers, connected)
      ensures Abs() == Started(Relieved(old(Abs()), now), id, Members(told), hasPacket, now)
    {
      if |waiting| > WAITING_LIMIT {
        ExpireWaitingPaths(now);
      }
      told := AskAll(id, barriers, connected, hasPacket, now);
    }

    /** The new WaitingPath object, and the loop over the switches. */
    method AskAll(id: PathId, barriers: seq<Barrier>, connected: set<Node>, hasPacket: bool, now: int)
        returns (told: seq<Barrier>)
      modifies `waiting, `paths, `asked
      ensures told == Told(barriers, connected)
      ensures Abs() == Started(old(Abs()), id, Members(told), hasPacket, now)
    {
      ghost var s := Abs();
      told := [];
      ToldAll(barriers, connected);
      assert barriers[..|barriers|] == barriers;
      for n := 0 to |barriers|
        invariant told == barriers[..n] && AllConnected(told, connected)
        invariant Abs() == Started(s, id, Members(told), hasPacket, now)
      {
        if barriers[n].0 !in connected {
          ToldUpTo(barriers, connected, n);
          return;
        }
        AddXid(id, told, barriers[n], hasPacket, now, s);
        told := told + [barriers[n]];
      }
    }

    /** add_xid; the object comes into the table with the first. */
    method AddXid(id: PathId, told: seq<Barrier>, b: Barrier, hasPacket: bool, now: int, ghost s: State)
      requires Abs() == Started(s, id, Members(told), hasPacket, now)
      modifies `waiting, `paths, `asked
      ensures Abs() == Started(s, id, Members(told + [b]), hasPacket, now)
    {
      assert Members(told + [b]) == Members(told) + {b};
      assert told != [] ==> told[0] in Members(told);
      OneMoreAsked(s, id, Members(told), b, hasPacket, now);
      var xids := if told == [] then {} else paths[id].xids;
      paths := paths[id := WaitingPath(xids + {b}, hasPacket, now + PATH_SETUP_TIME)];
      waiting := waiting[b := id];
      asked := asked[id := Members(told) + {b}];
    }

    /** _handle_openflow_BarrierIn. */
    method BarrierIn(b: Barrier)
      requires Keyed(Abs())
      modifies this
      ensures Abs() == Answered(old(Abs()), b)
    {
      replies := replies + {b};
      if b !in waiting {
        return;
      }
      var id := waiting[b];
      waiting := waiting - {b};
      Notify(id, b);
    }

    /** WaitingPath.notify. */
    method Notify(id: PathId, b: Barrier)
      requires id in paths
      modifies `paths, `installed, `released
      ensures var left := old(paths)[id].xids - {b};
              && paths == old(paths)[id := old(paths)[id].(xids := left)]
              && installed == old(installed) + Once(left == {}, id)
              && released == old(released) + Once(left == {} && old(paths)[id].hasPacket, id)
    {
      paths := paths[id := paths[id].(xids := paths[id].xids - {b})];
      if |paths[id].xids| == 0 {
        if paths[id].hasPacket {
          released := released + multiset{id};
        }
        installed := installed + multiset{id};
      }
    }

    /** expire_waiting_paths. */
    method ExpireWaitingPaths(now: int)
      requires Keyed(Abs())
      modifies `waiting, `killed
      ensures Abs() == AfterExpiry(old(Abs()), now)
    {
      ghost var s := Abs();
      ghost var dead: set<PathId> := {};
      var rest := set b | b in waiting :: waiting[b];
      while rest != {}
        invariant waiting == s.waiting - XidsOf(s, dead) && killed == s.killed + dead
        invariant forall id | id in rest :: id in s.paths && (now >= s.paths[id].expiresAt ==> id in LateIds(s, now))
        invariant dead <= LateIds(s, now) <= dead + rest
      {
        var id :| id in rest;
        rest := rest - {id};
        if now >= paths[id].expiresAt {
          XidsOfOneMore(s, dead, id);
          waiting := waiting - paths[id].xids;
          killed := killed + {id};
          dead := dead + {id};
        }
      }
      assert dead == LateIds(s, now);
    }
  }

  lemma XidsOfOneMore(s: State, ids: set<PathId>, id: PathId)
    requires id in s.paths
    ensures XidsOf(s, ids + {id}) == XidsOf(s, ids) + s.paths[id].xids
    ensures s.waiting - XidsOf(s, ids + {id}) == s.waiting - XidsOf(s, ids) - s.paths[id].xids
  {
    assert XidsOf(s, ids + {id}) == XidsOf(s, ids) + s.paths[id].xids;
  }
}
