/**
  The handshake of a control connection and what becomes of port news during it:
  HandshakeOpenFlowHandlers and the default handlers of pox/openflow/of_01.py.
*/
module Handshake {
  import opened Wrappers
  import opened PortCollections

  type View = map<nat, PhyPort>

  datatype Status = Status(deleted: bool, port: PhyPort)

  datatype Message =
    | FeaturesReply(ports: set<PhyPort>)
    | PortStatus(status: Status)
    | BarrierReply(xid: nat)
    | ErrorReply(xid: nat, badType: bool)
    | Other

  // ---------------------------------------------------------------- what the switch has told

  function Changed(v: View, s: Status): View {
    if s.deleted then v - {s.port.portNo} else v[s.port.portNo := s.port]
  }

  function ChangedAll(v: View, statuses: seq<Status>): View
    decreases |statuses|
  {
    if statuses == [] then v else ChangedAll(Changed(v, statuses[0]), statuses[1..])
  }

  predicate Sound(m: Message) {
    m.FeaturesReply? ==> Distinct(m.ports)
  }

  /** The last features reply's ports with every later port status applied, in order; None before
      the first features reply. */
  function Told(history: seq<Message>): Option<View>
    requires forall i :: 0 <= i < |history| ==> Sound(history[i])
  {
    if history == [] then None
    else
      var before, m := Told(history[..|history| - 1]), history[|history| - 1];
      assert Sound(m);
      if m.FeaturesReply? then Some(ByNumber(m.ports))
      else if m.PortStatus? && before.Some? then Some(Changed(before.value, m.status))
      else before
  }

  lemma {:induction false} ChangedAllAppend(v: View, statuses: seq<Status>, s: Status)
    ensures ChangedAll(v, statuses + [s]) == Changed(ChangedAll(v, statuses), s)
    decreases |statuses|
  {
    if statuses == [] {
      assert [] + [s] == [s] && [s][1..] == [];
    } else {
      assert (statuses + [s])[1..] == statuses[1..] + [s];
      ChangedAllAppend(Changed(v, statuses[0]), statuses[1..], s);
    }
  }

  /** The port news in a history that holds no further features reply. */
  function News(history: seq<Message>): seq<Status> {
    if history == [] then []
    else
      var m := history[|history| - 1];
      News(history[..|history| - 1]) + if m.PortStatus? then [m.status] else []
  }

  /** In other words: the last features reply's ports, then all the news since. */
  lemma {:induction false} ToldIsNewsOnFeatures(before: seq<Message>, ports: set<PhyPort>, after: seq<Message>)
    requires Distinct(ports) && (forall i :: 0 <= i < |before| ==> Sound(before[i]))
    requires forall i :: 0 <= i < |after| ==> !after[i].FeaturesReply?
    ensures var history := before + [FeaturesReply(ports)] + after;
      && (forall i :: 0 <= i < |history| ==> Sound(history[i]))
      && Told(history) == Some(ChangedAll(ByNumber(ports), News(after)))
  {
    var start := before + [FeaturesReply(ports)];
    if after == [] {
      assert start + after == start && start[..|start| - 1] == before;
    } else {
      var last := |after| - 1;
      var history := start + after;
      ToldIsNewsOnFeatures(before, ports, after[..last]);
      assert history[..|history| - 1] == start + after[..last] && history[|history| - 1] == after[last];
      if after[last].PortStatus? {
        ChangedAllAppend(ByNumber(ports), News(after[..last]), after[last].status);
      } else {
        assert News(after[..last]) + [] == News(after[..last]);
      }
    }
  }

  lemma OnNothing(reported: set<PhyPort>)
    requires Distinct(reported)
    ensures Layered(map[], reported, {}) == ByNumber(reported)
  {
  }

  /** ofp_port_status on a collection: a deleted port is forgotten, any other news replaces it. */
  method ApplyStatus(ports: PortCollection, s: Status)
    requires ports.Shape() && ports.Valid()
    modifies ports
    ensures ports.Valid() && ports.View() == Changed(old(ports.View()), s)
  {
    if s.deleted {
      ports.Forget(s.port);
    } else {
      ports.Update(s.port);
    }
  }

  // ---------------------------------------------------------------- the connection

  class Connection {
    const originalPorts: PortCollection
    const ports: PortCollection
    /** The handlers in force: the default ones once the connection is up. */
    var up: bool
    var barrier: Option<nat>
    var deferred: Option<seq<Status>>
    var disconnected: bool
    ghost var history: seq<Message>

    ghost predicate Linked()
    {
      && ports.Shape() && ports.chain == originalPorts && originalPorts.chain == null
      && ports.line == {ports, originalPorts} && originalPorts.line == {originalPorts} && ports != originalPorts
    }

    ghost predicate Valid()
      reads this, ports, originalPorts
    {
      && Linked() && ports.Valid() && originalPorts.masks == {}
      && (forall i :: 0 <= i < |history| ==> Sound(history[i]))
      && (!up ==> (deferred.None? <==> Told(history).None?))
      && (!up && deferred.Some? ==> Told(history) == Some(ChangedAll(ports.View(), deferred.value)))
      && (up ==> Told(history) == Some(ports.View()))
      && (barrier.Some? ==> Told(history).Some?)
    }

    constructor ()
      ensures Valid() && fresh(ports) && fresh(originalPorts) && !up && history == []
      ensures barrier == None && !disconnected
    {
      var original := new PortCollection(null);
      originalPorts := original;
      ports := new PortCollection(original);
      up, barrier, deferred, disconnected, history := false, None, None, false, [];
    }

    /** Both handlers of FEATURES_REPLY start the same way. */
    method TakePorts(reported: set<PhyPort>)
      requires Linked() && ports.Valid() && originalPorts.masks == {} && Distinct(reported)
      modifies ports, originalPorts
      ensures ports.Valid() && originalPorts.masks == {} && ports.View() == ByNumber(reported)
    {
      originalPorts.ports := reported;
      OnNothing(reported);
      assert originalPorts.View() == ByNumber(reported);
      ports.Reset();
    }

    /** handle_FEATURES_REPLY of the handshake: port news starts over, and the barrier of this
        reply is the one that counts.  Without a nexus the connection is cancelled. */
    method EarlyFeatures(reported: set<PhyPort>, nexus: bool, xid: nat)
      requires Valid() && !up && Distinct(reported)
      modifies this, ports, originalPorts
      ensures Valid() && !up && history == old(history) + [FeaturesReply(reported)]
      ensures deferred == Some([]) && ports.View() == ByNumber(reported)
      ensures barrier == if nexus then Some(xid) else old(barrier)
      ensures disconnected == (old(disconnected) || !nexus)
    {
      TakePorts(reported);
      deferred := Some([]);
      history := history + [FeaturesReply(reported)];
      assert history[..|history| - 1] == old(history);
      if !nexus {
        disconnected := true;
        return;
      }
      barrier := Some(xid);
    }

    /** handle_PORT_STATUS of the handshake: news is kept for later, or dropped when the ports it
        is about are not known yet. */
    method EarlyStatus(s: Status)
      requires Valid() && !up
      modifies this
      ensures Valid() && !up && history == old(history) + [PortStatus(s)]
      ensures deferred == if old(deferred).None? then None else Some(old(deferred).value + [s])
      ensures barrier == old(barrier) && disconnected == old(disconnected)
    {
      history := history + [PortStatus(s)];
      assert history[..|history| - 1] == old(history);
      if deferred.Some? {
        ChangedAllAppend(ports.View(), deferred.value, s);
        deferred := Some(deferred.value + [s]);
      }
    }

    /** _finish_connecting: from here on the default handlers are in force, and the deferred news
        is applied in the order of its arrival. */
    method FinishConnecting()
      requires Valid() && !up && barrier.Some?
      modifies this, ports
      ensures Valid() && up && history == old(history) && disconnected == old(disconnected) && barrier == old(barrier)
      ensures ports.View() == ChangedAll(old(ports.View()), old(deferred).value)
      ensures deferred == if old(deferred) == Some([]) then Some([]) else None
    {
      up := true;
      var news := deferred.value;
      if news != [] {
        ghost var target := ChangedAll(ports.View(), news);
        for i := 0 to |news|
          invariant ports.Valid() && up && originalPorts.masks == {}
          invariant ChangedAll(ports.View(), news[i..]) == target
          invariant history == old(history) && deferred == old(deferred) && barrier == old(barrier)
          invariant disconnected == old(disconnected)
        {
          assert news[i..][1..] == news[i + 1..];
          ApplyStatus(ports, news[i]);
        }
        deferred := None;
      }
    }

    /** Messages that say nothing about ports. */
    method Record(m: Message)
      requires Valid() && !m.FeaturesReply? && !m.PortStatus?
      modifies this`history
      ensures Valid() && history == old(history) + [m]
    {
      history := history + [m];
      assert history[..|history| - 1] == old(history);
    }

    /** handle_BARRIER_REPLY of the handshake: another barrier's answer ends the connection. */
    method EarlyBarrier(xid: nat)
      requires Valid() && !up
      modifies this, ports
      ensures Valid() && history == old(history) + [BarrierReply(xid)]
      ensures (up <==> old(barrier) == Some(xid)) && barrier == old(barrier)
      ensures disconnected == (old(disconnected) || (old(barrier).Some? && old(barrier) != Some(xid)))
    {
      Record(BarrierReply(xid));
      if barrier.None? {
        return;
      }
      if xid != barrier.value {
        disconnected := true;
      } else {
        FinishConnecting();
      }
    }

    /** handle_ERROR of the handshake: a switch that knows no barriers is taken for ready. */
    method EarlyError(xid: nat, badType: bool)
      requires Valid() && !up
      modifies this, ports
      ensures Valid() && history == old(history) + [ErrorReply(xid, badType)]
      ensures (up <==> old(barrier) == Some(xid) && badType) && barrier == old(barrier)
      ensures disconnected == old(disconnected)
    {
      Record(ErrorReply(xid, badType));
      if barrier == Some(xid) && badType {
        FinishConnecting();
      }
    }

    /** The default handlers. */
    method LateFeatures(reported: set<PhyPort>)
      requires Valid() && up && Distinct(reported)
      modifies this`history, ports, originalPorts
      ensures Valid() && up && history == old(history) + [FeaturesReply(reported)]
      ensures ports.View() == ByNumber(reported)
    {
      TakePorts(reported);
      history := history + [FeaturesReply(reported)];
      assert history[..|history| - 1] == old(history);
    }

    method LateStatus(s: Status)
      requires Valid() && up
      modifies this`history, ports
      ensures Valid() && up && history == old(history) + [PortStatus(s)]
      ensures ports.View() == Changed(old(ports.View()), s)
    {
      ApplyStatus(ports, s);
      history := history + [PortStatus(s)];
      assert history[..|history| - 1] == old(history);
    }
  }

  // ---------------------------------------------------------------- runs

  /** The id of the barrier sent for the last features reply. */
  function Asked(messages: seq<Message>, xids: seq<nat>): Option<nat>
    requires |messages| <= |xids|
  {
    if messages == [] then None
    else
      var last := |messages| - 1;
      if messages[last].FeaturesReply? then Some(xids[last]) else Asked(messages[..last], xids)
  }

  /** The n-th message answers the barrier that counts then, or says that the switch knows none. */
  predicate Completes(messages: seq<Message>, xids: seq<nat>, n: nat)
    requires n < |messages| <= |xids|
  {
    var asked := Asked(messages[..n], xids);
    asked.Some? && (messages[n] == BarrierReply(asked.value) || messages[n] == ErrorReply(asked.value, true))
  }

  predicate CompletedBy(messages: seq<Message>, xids: seq<nat>, n: nat)
    requires n <= |messages| <= |xids|
  {
    exists k | 0 <= k < n :: Completes(messages, xids, k)
  }

  /** The n-th message makes the controller give up a connection that is not up: there is no nexus for
      the switch, or the message answers a barrier that does not count. */
  predicate Breaks(messages: seq<Message>, xids: seq<nat>, nexus: bool, n: nat)
    requires n < |messages| <= |xids|
  {
    if nexus then
      var asked := Asked(messages[..n], xids);
      && !CompletedBy(messages, xids, n)
      && asked.Some? && messages[n].BarrierReply? && messages[n].xid != asked.value
    else messages[n].FeaturesReply?
  }

  datatype Phase = Phase(up: bool, barrier: Option<nat>, disconnected: bool)

  /** Where a connection stands after the first n messages. */
  ghost predicate Stands(p: Phase, messages: seq<Message>, xids: seq<nat>, nexus: bool, n: nat)
    requires n <= |messages| <= |xids|
  {
    && (p.up <==> nexus && CompletedBy(messages, xids, n))
    && (!p.up ==> p.barrier == if nexus then Asked(messages[..n], xids) else None)
    && (p.disconnected <==> exists k | 0 <= k < n :: Breaks(messages, xids, nexus, k))
  }

  /** What one message makes of it. */
  predicate Follows(p: Phase, m: Message, nexus: bool, xid: nat, q: Phase) {
    && (q.up <==> p.up || (p.barrier.Some? && (m == BarrierReply(p.barrier.value)
                                               || m == ErrorReply(p.barrier.value, true))))
    && (!q.up ==> q.barrier == if m.FeaturesReply? && nexus then Some(xid) else p.barrier)
    && (q.disconnected <==>
          || p.disconnected
          || (!p.up && m.FeaturesReply? && !nexus)
          || (!p.up && m.BarrierReply? && p.barrier.Some? && p.barrier.value != m.xid))
  }

  lemma CompletedNext(messages: seq<Message>, xids: seq<nat>, n: nat)
    requires n < |messages| <= |xids|
    ensures CompletedBy(messages, xids, n + 1) <==> CompletedBy(messages, xids, n) || Completes(messages, xids, n)
    ensures Asked(messages[..n + 1], xids) ==
            if messages[n].FeaturesReply? then Some(xids[n]) else Asked(messages[..n], xids)
  {
    assert messages[..n + 1][..n] == messages[..n];
  }

  lemma StandsNext(p: Phase, messages: seq<Message>, xids: seq<nat>, nexus: bool, n: nat, q: Phase)
    requires n < |messages| <= |xids| && Stands(p, messages, xids, nexus, n)
    requires Follows(p, messages[n], nexus, xids[n], q)
    ensures Stands(q, messages, xids, nexus, n + 1)
  {
    CompletedNext(messages, xids, n);
    assert q.disconnected <==> p.disconnected || Breaks(messages, xids, nexus, n);
  }

  /** Every run.  The connection is up exactly if some message answered the barrier that counted then,
      and given up exactly at the messages that break it; and once it is up, a port's entry is what
      the last features reply and the news since then, including the news that came during the
      handshake, say about it. */
  method Run(c: Connection, messages: seq<Message>, nexus: bool, xids: seq<nat>)
    requires c.Valid() && c.history == [] && !c.up && c.barrier == None && !c.disconnected
    requires |xids| == |messages| && forall i :: 0 <= i < |messages| ==> Sound(messages[i])
    modifies c, c.ports, c.originalPorts
    ensures c.Valid() && c.history == messages
    ensures c.up <==> nexus && exists n | 0 <= n < |messages| :: Completes(messages, xids, n)
    ensures c.disconnected <==> exists n | 0 <= n < |messages| :: Breaks(messages, xids, nexus, n)
    ensures c.up ==> Told(messages) == Some(c.ports.View())
  {
    for i := 0 to |messages|
      invariant c.Valid() && c.history == messages[..i]
      invariant Stands(PhaseOf(c), messages, xids, nexus, i)
    {
      ghost var p := PhaseOf(c);
      assert Sound(messages[i]) && messages[..i + 1] == messages[..i] + [messages[i]];
      Take(c, messages[i], nexus, xids[i]);
      StandsNext(p, messages, xids, nexus, i, PhaseOf(c));
    }
  }

  ghost function PhaseOf(c: Connection): Phase
    reads c
  {
    Phase(c.up, c.barrier, c.disconnected)
  }

  /** The handlers in force take one message. */
  method Take(c: Connection, m: Message, nexus: bool, xid: nat)
    requires c.Valid() && Sound(m)
    modifies c, c.ports, c.originalPorts
    ensures c.Valid() && c.history == old(c.history) + [m]
    ensures Follows(old(PhaseOf(c)), m, nexus, xid, PhaseOf(c))
  {
    if m.FeaturesReply? {
      if c.up {
        c.LateFeatures(m.ports);
      } else {
        c.EarlyFeatures(m.ports, nexus, xid);
      }
    } else if m.PortStatus? {
      if c.up {
        c.LateStatus(m.status);
      } else {
        c.EarlyStatus(m.status);
      }
    } else if m.BarrierReply? && !c.up {
      c.EarlyBarrier(m.xid);
    } else if m.ErrorReply? && !c.up {
      c.EarlyError(m.xid, m.badType);
    } else {
      c.Record(m);
    }
  }
}
