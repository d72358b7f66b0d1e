/** The address translator of pox/misc/nat.py (RFC 3022, section 2.2): records indexed in both
    directions, and the rewrites they install. */
module Nat {
  import opened Wrappers
  import opened NatPorts

  type Mac = nat
  type Ip = nat
  type SwitchPort = nat

  /** What the translator looks at in a TCP or UDP packet; also the key of outgoing flows. */
  datatype Packet = Packet(
    dlSrc: Mac, dlDst: Mac, nwSrc: Ip, nwDst: Ip, tpSrc: Port, tpDst: Port, proto: Proto)

  /** The key of incoming flows: everything but the destination address of the frame. */
  datatype Expected = Expected(dlSrc: Mac, nwSrc: Ip, nwDst: Ip, tpSrc: Port, tpDst: Port, proto: Proto)

  datatype Config = Config(insideIp: Ip, outsideIp: Ip, dnsIp: Option<Ip>, outsidePort: SwitchPort)

  datatype Action =
    | SetDlSrc(mac: Mac) | SetDlDst(mac: Mac) | SetNwSrc(ip: Ip) | SetNwDst(ip: Ip)
    | SetTpSrc(port: Port) | SetTpDst(port: Port) | Output(to: SwitchPort)

  /** A flow's record: the packet that started it, the inside port it came from, whether it is a
      DNS query to the translator itself, its outside port, and the two hardware addresses the
      rules were made with. */
  datatype Record = Record(
    flow: Packet, inPort: SwitchPort, dns: bool, fakePort: Port, outsideEth: Mac, gateway: Mac)

  function Resolver(cfg: Config, r: Record): Ip {
    if r.dns && cfg.dnsIp.Some? then cfg.dnsIp.value else r.flow.nwDst
  }

  function OutgoingActions(cfg: Config, r: Record): seq<Action> {
    [SetDlSrc(r.outsideEth), SetNwSrc(cfg.outsideIp)]
    + (if r.dns && cfg.dnsIp.Some? then [SetNwDst(cfg.dnsIp.value)] else [])
    + (if r.fakePort != r.flow.tpSrc then [SetTpSrc(r.fakePort)] else [])
    + [SetDlDst(r.gateway), Output(cfg.outsidePort)]
  }

  function IncomingActions(cfg: Config, r: Record): seq<Action> {
    [SetDlSrc(r.flow.dlDst), SetDlDst(r.flow.dlSrc), SetNwDst(r.flow.nwSrc)]
    + (if r.dns then [SetNwSrc(cfg.insideIp)] else [])
    + (if r.fakePort != r.flow.tpSrc then [SetTpDst(r.flow.tpSrc)] else [])
    + [Output(r.inPort)]
  }

  /** The flipped match with the outside address, the outside port and the gateway put in. */
  function IncomingMatch(cfg: Config, r: Record): Expected {
    Expected(r.gateway, Resolver(cfg, r), cfg.outsideIp, r.flow.tpDst, r.fakePort, r.flow.proto)
  }

  function Stripped(p: Packet): Expected {
    Expected(p.dlSrc, p.nwSrc, p.nwDst, p.tpSrc, p.tpDst, p.proto)
  }

  function Act(a: Action, p: Packet): Packet {
    match a
    case SetDlSrc(mac) => p.(dlSrc := mac)
    case SetDlDst(mac) => p.(dlDst := mac)
    case SetNwSrc(ip) => p.(nwSrc := ip)
    case SetNwDst(ip) => p.(nwDst := ip)
    case SetTpSrc(port) => p.(tpSrc := port)
    case SetTpDst(port) => p.(tpDst := port)
    case Output(_) => p
  }

  /** What a switch makes of a packet under a list of actions. */
  function Apply(actions: seq<Action>, p: Packet): Packet {
    if actions == [] then p else Apply(actions[1..], Act(actions[0], p))
  }

  /** What a switch sends out under a list of actions: each output takes the packet as it is by then. */
  function Emits(actions: seq<Action>, p: Packet): seq<(SwitchPort, Packet)> {
    if actions == [] then []
    else
      (match actions[0] case Output(to) => [(to, p)] case _ => []) + Emits(actions[1..], Act(actions[0], p))
  }

  lemma {:induction false} EmitsAtLast(rewrites: seq<Action>, port: SwitchPort, p: Packet)
    requires forall a | a in rewrites :: !a.Output?
    ensures Emits(rewrites + [Output(port)], p) == [(port, Apply(rewrites + [Output(port)], p))]
  {
    var actions := rewrites + [Output(port)];
    if rewrites == [] {
      assert actions == [Output(port)] && actions[1..] == [];
      assert Emits(actions[1..], p) == [] && Apply(actions, p) == p;
    } else {
      assert actions[1..] == rewrites[1..] + [Output(port)];
      EmitsAtLast(rewrites[1..], port, Act(actions[0], p));
    }
  }

  /** A packet in the other direction. */
  function Reversed(p: Packet): Packet {
    Packet(p.dlDst, p.dlSrc, p.nwDst, p.nwSrc, p.tpDst, p.tpSrc, p.proto)
  }

  // ---------------------------------------------------------------- state

  /** The two indexes, the ports in use, and when each record expires: both indexes hold the same
      record objects, so the time is kept once, under the outgoing key. */
  datatype State = State(
    gateway: Option<Mac>, used: Taken, byOutgoing: map<Packet, Record>, byIncoming: map<Expected, Record>,
    expiresAt: map<Packet, int>)

  const MEMORY_TIMEOUT := 600

  function Key(r: Record): (Proto, Port) {
    (r.flow.proto, r.fakePort)
  }

  /** The DNS exception: a query to the translator, which claims to be the server. */
  predicate IsDnsQuery(cfg: Config, p: Packet) {
    p.proto == Udp && p.tpDst == 53 && p.nwDst == cfg.insideIp && cfg.dnsIp.Some?
  }

  predicate WellMade(cfg: Config, r: Record) {
    r.dns <==> IsDnsQuery(cfg, r.flow)
  }

  predicate Filed(cfg: Config, s: State, f: Packet) {
    f in s.byOutgoing ==>
      var r := s.byOutgoing[f];
      && r.flow == f && WellMade(cfg, r) && f in s.expiresAt && Key(r) in s.used
      && IncomingMatch(cfg, r) in s.byIncoming && s.byIncoming[IncomingMatch(cfg, r)] == r
  }

  predicate Refiled(cfg: Config, s: State, e: Expected) {
    e in s.byIncoming ==>
      var r := s.byIncoming[e];
      IncomingMatch(cfg, r) == e && r.flow in s.byOutgoing && s.byOutgoing[r.flow] == r
  }

  predicate Apart(s: State, f: Packet, g: Packet) {
    f in s.byOutgoing && g in s.byOutgoing && Key(s.byOutgoing[f]) == Key(s.byOutgoing[g]) ==> f == g
  }

  predicate Owned(s: State, f: Packet, u: (Proto, Port)) {
    f in s.byOutgoing && Key(s.byOutgoing[f]) == u
  }

  /** Both indexes hold the same records; the used ports are exactly those of live records; no two
      live records share one. */
  ghost predicate Valid(cfg: Config, s: State) {
    && (forall f {:trigger Filed(cfg, s, f)} :: Filed(cfg, s, f))
    && (forall e {:trigger Refiled(cfg, s, e)} :: Refiled(cfg, s, e))
    && (forall f, g {:trigger Apart(s, f, g)} :: Apart(s, f, g))
    && (forall u :: u in s.used ==> exists f :: Owned(s, f, u))
    && s.expiresAt.Keys == s.byOutgoing.Keys
  }

  // ---------------------------------------------------------------- steps

  function WithRecord(cfg: Config, s: State, r: Record, now: int): State {
    s.(used := s.used + {Key(r)}, byOutgoing := s.byOutgoing[r.flow := r],
       byIncoming := s.byIncoming[IncomingMatch(cfg, r) := r],
       expiresAt := s.expiresAt[r.flow := now + MEMORY_TIMEOUT])
  }

  function WithoutRecord(cfg: Config, s: State, r: Record): State {
    s.(used := s.used - {Key(r)}, byOutgoing := s.byOutgoing - {r.flow},
       byIncoming := s.byIncoming - {IncomingMatch(cfg, r)}, expiresAt := s.expiresAt - {r.flow})
  }

  function Touched(s: State, f: Packet, now: int): State {
    s.(expiresAt := s.expiresAt[f := now + MEMORY_TIMEOUT])
  }

  lemma AddKeeps(cfg: Config, s: State, r: Record, now: int)
    requires Valid(cfg, s) && WellMade(cfg, r) && r.flow !in s.byOutgoing && Key(r) !in s.used
    ensures Valid(cfg, WithRecord(cfg, s, r, now))
  {
    var t := WithRecord(cfg, s, r, now);
    forall f ensures Filed(cfg, t, f) {
      assert Filed(cfg, s, f);
    }
    forall e ensures Refiled(cfg, t, e) {
      assert Refiled(cfg, s, e);
    }
    forall f, g ensures Apart(t, f, g) {
      assert Apart(s, f, g) && Filed(cfg, s, f) && Filed(cfg, s, g);
    }
    forall u | u in t.used ensures exists f :: Owned(t, f, u) {
      if u in s.used {
        var f :| Owned(s, f, u);
        assert Owned(t, f, u);
      } else {
        assert Owned(t, r.flow, u);
      }
    }
  }

  lemma RemoveKeeps(cfg: Config, s: State, r: Record)
    requires Valid(cfg, s) && r.flow in s.byOutgoing && s.byOutgoing[r.flow] == r
    ensures IncomingMatch(cfg, r) in s.byIncoming && Key(r) in s.used
    ensures Valid(cfg, WithoutRecord(cfg, s, r))
  {
    var t := WithoutRecord(cfg, s, r);
    assert Filed(cfg, s, r.flow);
    forall f ensures Filed(cfg, t, f) {
      assert Filed(cfg, s, f) && Apart(s, f, r.flow);
    }
    forall e ensures Refiled(cfg, t, e) {
      assert Refiled(cfg, s, e);
    }
    forall f, g ensures Apart(t, f, g) {
      assert Apart(s, f, g);
    }
    forall u | u in t.used ensures exists f :: Owned(t, f, u) {
      var f :| Owned(s, f, u);
      assert Owned(t, f, u);
    }
  }

  lemma TouchKeeps(cfg: Config, s: State, f: Packet, now: int)
    requires Valid(cfg, s) && f in s.byOutgoing
    ensures Valid(cfg, Touched(s, f, now))
  {
    var t := Touched(s, f, now);
    forall g ensures Filed(cfg, t, g) {
      assert Filed(cfg, s, g);
    }
    forall e ensures Refiled(cfg, t, e) {
      assert Refiled(cfg, s, e);
    }
    forall g, h ensures Apart(t, g, h) {
      assert Apart(s, g, h);
    }
    forall u | u in t.used ensures exists g :: Owned(t, g, u) {
      var g :| Owned(s, g, u);
      assert Owned(t, g, u);
    }
  }

  /** The second index and the used ports follow from the first. */
  lemma IndexesAgree(cfg: Config, s: State, t: State)
    requires Valid(cfg, s) && Valid(cfg, t) && s.byOutgoing == t.byOutgoing
    ensures s.byIncoming == t.byIncoming && s.used == t.used
  {
    SameIncoming(cfg, s, t);
    SameIncoming(cfg, t, s);
  }

  lemma SameIncoming(cfg: Config, s: State, t: State)
    requires Valid(cfg, s) && Valid(cfg, t) && s.byOutgoing == t.byOutgoing
    ensures s.used <= t.used
    ensures forall e :: e in s.byIncoming ==> e in t.byIncoming && t.byIncoming[e] == s.byIncoming[e]
  {
    forall u | u in s.used ensures u in t.used {
      var f :| Owned(s, f, u);
      assert Filed(cfg, t, f);
    }
    forall e | e in s.byIncoming ensures e in t.byIncoming && t.byIncoming[e] == s.byIncoming[e] {
      assert Refiled(cfg, s, e) && Filed(cfg, t, s.byIncoming[e].flow);
    }
  }

  // ---------------------------------------------------------------- rules and replies

  /** A rule as sent to the switch; without dlDst it takes frames to any address. */
  datatype Rule = Rule(inPort: SwitchPort, key: Expected, dlDst: Option<Mac>, actions: seq<Action>)

  function OutgoingRule(cfg: Config, r: Record): Rule {
    Rule(r.inPort, Stripped(r.flow), Some(r.flow.dlDst), OutgoingActions(cfg, r))
  }

  function IncomingRule(cfg: Config, r: Record): Rule {
    Rule(cfg.outsidePort, IncomingMatch(cfg, r), None, IncomingActions(cfg, r))
  }

  predicate Matches(rule: Rule, port: SwitchPort, p: Packet) {
    port == rule.inPort && Stripped(p) == rule.key && (rule.dlDst.None? || rule.dlDst == Some(p.dlDst))
  }

  lemma ApplyTwo(a: seq<Action>, b: seq<Action>, p: Packet)
    ensures Apply(a + b, p) == Apply(b, Apply(a, p))
  {
    if a == [] {
      assert a + b == b;
    } else {
      assert (a + b)[1..] == a[1..] + b;
    }
  }

  lemma ApplyOne(a: Action, p: Packet)
    ensures Apply([a], p) == Act(a, p)
  {
    assert [a][1..] == [];
  }

  lemma ApplyEach(a: Action, b: Action, c: Action, p: Packet)
    ensures Apply([a], p) == Act(a, p) && Apply([a, b], p) == Act(b, Act(a, p))
    ensures Apply([a, b, c], p) == Act(c, Act(b, Act(a, p)))
  {
    assert [a, b][1..] == [b] && [a, b, c][1..] == [b, c] && [b, c][1..] == [c];
    ApplyOne(a, p);
    ApplyOne(b, Act(a, p));
    ApplyOne(c, Act(b, Act(a, p)));
    assert Apply([b, c], Act(a, p)) == Apply([c], Act(b, Act(a, p)));
  }

  /** What leaves the network. */
  lemma OutgoingRewrite(cfg: Config, r: Record)
    requires WellMade(cfg, r)
    ensures Apply(OutgoingActions(cfg, r), r.flow) ==
            Packet(r.outsideEth, r.gateway, cfg.outsideIp, Resolver(cfg, r), r.fakePort, r.flow.tpDst, r.flow.proto)
  {
    var first := [SetDlSrc(r.outsideEth), SetNwSrc(cfg.outsideIp)];
    var dns := if r.dns && cfg.dnsIp.Some? then [SetNwDst(cfg.dnsIp.value)] else [];
    var port := if r.fakePort != r.flow.tpSrc then [SetTpSrc(r.fakePort)] else [];
    var last := [SetDlDst(r.gateway), Output(cfg.outsidePort)];
    ApplyTwo(first + dns + port, last, r.flow);
    ApplyTwo(first + dns, port, r.flow);
    ApplyTwo(first, dns, r.flow);
    ApplyEach(first[0], first[1], first[0], r.flow);
    ApplyEach(last[0], last[1], last[0], Apply(first + dns + port, r.flow));
  }

  /** What comes back in, from a packet the incoming rule takes. */
  lemma IncomingRewrite(cfg: Config, r: Record, q: Packet)
    requires WellMade(cfg, r) && Stripped(q) == IncomingMatch(cfg, r)
    ensures Apply(IncomingActions(cfg, r), q) == Reversed(r.flow)
  {
    var first := [SetDlSrc(r.flow.dlDst), SetDlDst(r.flow.dlSrc), SetNwDst(r.flow.nwSrc)];
    var dns := if r.dns then [SetNwSrc(cfg.insideIp)] else [];
    var port := if r.fakePort != r.flow.tpSrc then [SetTpDst(r.flow.tpSrc)] else [];
    var last := [Output(r.inPort)];
    ApplyTwo(first + dns + port, last, q);
    ApplyTwo(first + dns, port, q);
    ApplyTwo(first, dns, q);
    ApplyEach(first[0], first[1], first[2], q);
  }

  lemma OutgoingEmits(cfg: Config, r: Record)
    requires WellMade(cfg, r)
    ensures Emits(OutgoingActions(cfg, r), r.flow) ==
      [(cfg.outsidePort,
        Packet(r.outsideEth, r.gateway, cfg.outsideIp, Resolver(cfg, r), r.fakePort, r.flow.tpDst, r.flow.proto))]
  {
    var actions := OutgoingActions(cfg, r);
    var rewrites := actions[..|actions| - 1];
    assert actions == rewrites + [Output(cfg.outsidePort)];
    EmitsAtLast(rewrites, cfg.outsidePort, r.flow);
    OutgoingRewrite(cfg, r);
  }

  lemma IncomingEmits(cfg: Config, r: Record, q: Packet)
    requires WellMade(cfg, r) && Stripped(q) == IncomingMatch(cfg, r)
    ensures Emits(IncomingActions(cfg, r), q) == [(r.inPort, Reversed(r.flow))]
  {
    var actions := IncomingActions(cfg, r);
    var rewrites := actions[..|actions| - 1];
    assert actions == rewrites + [Output(r.inPort)];
    EmitsAtLast(rewrites, r.inPort, q);
    IncomingRewrite(cfg, r, q);
  }

  /** The point of the translator.  A flow's packet leaves once, by the outside port, from the outside
      address and the flow's own port, a DNS query to the translator for the server it stands for.  The
      answer to what left is taken by the flow's incoming rule and by no other live record's, and
      leaves once, by the port the flow came in on, as the answer to what was sent. */
  lemma RepliesComeBack(cfg: Config, s: State, f: Packet)
    requires Valid(cfg, s) && f in s.byOutgoing
    ensures var r := s.byOutgoing[f];
      var server := if f.proto == Udp && f.tpDst == 53 && f.nwDst == cfg.insideIp && cfg.dnsIp.Some?
                    then cfg.dnsIp.value else f.nwDst;
      var left := Packet(r.outsideEth, r.gateway, cfg.outsideIp, server, r.fakePort, f.tpDst, f.proto);
      var reply := Packet(r.gateway, r.outsideEth, server, cfg.outsideIp, f.tpDst, r.fakePort, f.proto);
      var answer := Packet(f.dlDst, f.dlSrc, f.nwDst, f.nwSrc, f.tpDst, f.tpSrc, f.proto);
      && Matches(OutgoingRule(cfg, r), r.inPort, f)
      && Emits(OutgoingRule(cfg, r).actions, f) == [(cfg.outsidePort, left)]
      && Matches(IncomingRule(cfg, r), cfg.outsidePort, reply)
      && Emits(IncomingRule(cfg, r).actions, reply) == [(r.inPort, answer)]
      && Stripped(reply) in s.byIncoming && s.byIncoming[Stripped(reply)] == r
      && forall g :: g in s.byOutgoing && Matches(IncomingRule(cfg, s.byOutgoing[g]), cfg.outsidePort, reply) ==> g == f
  {
    var r := s.byOutgoing[f];
    assert Filed(cfg, s, f);
    OutgoingEmits(cfg, r);
    var reply := Packet(r.gateway, r.outsideEth, Resolver(cfg, r), cfg.outsideIp, f.tpDst, r.fakePort, f.proto);
    IncomingEmits(cfg, r, reply);
    forall g | g in s.byOutgoing && Matches(IncomingRule(cfg, s.byOutgoing[g]), cfg.outsidePort, reply) ensures g == f {
      assert Apart(s, g, f) && Filed(cfg, s, g);
    }
  }

  // ---------------------------------------------------------------- the steps of a run

  /** What goes to the switch: the two rules of a flow, or an entry that has replies nobody asked
      for ignored for a while. */
  datatype Sent =
    | Nothing
    | Rules(first: Rule, second: Rule)
    | Ignore(packet: Packet, idleTimeout: nat, hardTimeout: nat)

  predicate Translates(cfg: Config, s: State, e: Event)
    requires e.FromInside?
  {
    s.gateway.Some? && (!e.isLocal || IsDnsQuery(cfg, e.packet))
  }

  predicate NoPortFor(s: State, proto: Proto) {
    forall q: Port :: FIRST <= q <= LAST ==> (proto, q) in s.used
  }

  /** A packet from inside that stays local changes nothing; one of a known flow renews it; any other
      makes a record with the first free port. */
  ghost predicate InsideEffect(cfg: Config, e: Event, now: int, was: State, next: State, sent: Sent)
    requires e.FromInside?
  {
    if !Translates(cfg, was, e) then next == was && sent == Nothing
    else
      && e.packet in next.byOutgoing
      && var r := next.byOutgoing[e.packet];
         && sent == Rules(IncomingRule(cfg, r), OutgoingRule(cfg, r))
         && if e.packet in was.byOutgoing then next == Touched(was, e.packet, now)
            else
              && FirstFree(was.used, e.packet.proto, Start(e.packet.tpSrc, e.random), r.fakePort)
              && r == Record(e.packet, e.inPort, IsDnsQuery(cfg, e.packet), r.fakePort, e.outsideEth, was.gateway.value)
              && next == WithRecord(cfg, was, r, now)
  }

  /** A packet from outside: what answers a live flow renews it, and anything else addressed to us is
      ignored for a while. */
  ghost predicate OutsideEffect(cfg: Config, e: Event, now: int, was: State, next: State, sent: Sent)
    requires e.FromOutside?
  {
    if was.gateway.None? || e.packet.nwDst != cfg.outsideIp then next == was && sent == Nothing
    else if Stripped(e.packet) !in was.byIncoming then next == was && sent == Ignore(e.packet, 1, 10)
    else
      var r := was.byIncoming[Stripped(e.packet)];
      next == Touched(was, r.flow, now) && sent == Rules(OutgoingRule(cfg, r), IncomingRule(cfg, r))
  }

  /** Exactly the records whose time is over are gone. */
  ghost predicate TimeEffect(was: State, next: State, now: int) {
    && next.gateway == was.gateway
    && next.byOutgoing == (map f | f in was.byOutgoing && !Late(was, f, now) :: was.byOutgoing[f])
    && forall f :: f in next.byOutgoing && f in was.expiresAt ==>
         f in next.expiresAt && next.expiresAt[f] == was.expiresAt[f]
  }

  predicate Late(s: State, f: Packet, now: int) {
    f in s.expiresAt && s.expiresAt[f] < now
  }

  ghost predicate Effect(cfg: Config, e: Event, now: int, was: State, next: State, sent: Sent) {
    match e
    case FromInside(_, _, _, _, _) => InsideEffect(cfg, e, now, was, next, sent)
    case FromOutside(_) => OutsideEffect(cfg, e, now, was, next, sent)
    case GatewayReply(mac) => next == was.(gateway := Some(mac)) && sent == Nothing
    case Timer => TimeEffect(was, next, now) && sent == Nothing
  }

  /** The states a run passes through and what it sends, event by event. */
  ghost predicate Runs(cfg: Config, events: seq<(Event, int)>, trace: seq<State>, sents: seq<Sent>) {
    && |trace| == |sents| + 1 && |sents| <= |events|
    && (forall n | 0 <= n < |trace| :: Valid(cfg, trace[n]))
    && forall n | 0 <= n < |sents| :: Effect(cfg, events[n].0, events[n].1, trace[n], trace[n + 1], sents[n])
  }

  /** A record lives for ten minutes from its flow's last packet, in either direction. */
  lemma RecordsLiveTenMinutes(cfg: Config, e: Event, now: int, was: State, next: State, sent: Sent)
    requires Valid(cfg, was) && Effect(cfg, e, now, was, next, sent)
    ensures e.FromInside? && sent.Rules? ==>
      e.packet in next.expiresAt && next.expiresAt[e.packet] == now + 600
      && forall f :: f in was.expiresAt && f != e.packet ==>
           f in next.expiresAt && next.expiresAt[f] == was.expiresAt[f]
    ensures e.FromOutside? && sent.Rules? ==>
      && Stripped(e.packet) in was.byIncoming
      && var g := was.byIncoming[Stripped(e.packet)].flow;
         && g in next.expiresAt && next.expiresAt[g] == now + 600
         && forall f :: f in was.expiresAt && f != g ==> f in next.expiresAt && next.expiresAt[f] == was.expiresAt[f]
    ensures e.Timer? ==>
      forall f :: f in next.byOutgoing <==> f in was.byOutgoing && f in was.expiresAt && now <= was.expiresAt[f]
  {
  }

  // ---------------------------------------------------------------- the translator

  datatype Event =
    | FromInside(packet: Packet, inPort: SwitchPort, isLocal: bool, outsideEth: Mac, random: Port)
    | FromOutside(packet: Packet)
    | GatewayReply(mac: Mac)
    | Timer

  class Translator {
    const cfg: Config
    var s: State

    ghost predicate Ok()
      reads this
    {
      Valid(cfg, s)
    }

    constructor (cfg: Config)
      ensures this.cfg == cfg && Ok() && s.byOutgoing == map[] && s.gateway == None
    {
      this.cfg := cfg;
      s := State(None, {}, map[], map[], map[]);
    }

    method PickPort(proto: Proto, srcPort: Port, random: Port) returns (r: Option<Port>)
      modifies this
      ensures r == Probe(old(s).used, proto, Start(srcPort, random), 0)
      ensures s == if r.Some? then old(s).(used := old(s).used + {(proto, r.value)}) else old(s)
    {
      var port: Port := srcPort;
      if port < 1024 {
        port := random;
      }
      var cycle := 0;
      while cycle < 2
        invariant cycle <= 2 && (cycle == 1 ==> FIRST <= port <= LAST) && s == old(s)
        invariant Probe(s.used, proto, Start(srcPort, random), 0) == Probe(s.used, proto, port, cycle)
        decreases 2 - cycle, 0x1_0000 - port
      {
        if (proto, port) !in s.used {
          s := s.(used := s.used + {(proto, port)});
          return Some(port);
        }
        if port + 1 >= 65534 {
          port, cycle := FIRST, cycle + 1;
        } else {
          port := port + 1;
        }
      }
      return None;
    }

    /** False: no port was left for the packet. */
    method HandleInside(e: Event, now: int) returns (sent: Sent, ok: bool)
      requires Ok() && e.FromInside?
      modifies this
      ensures Ok()
      ensures ok ==> InsideEffect(cfg, e, now, old(s), s, sent)
      ensures !ok ==>
        s == old(s) && Translates(cfg, s, e) && e.packet !in s.byOutgoing && NoPortFor(s, e.packet.proto)
    {
      var p := e.packet;
      if s.gateway.None? {
        return Nothing, true;
      }
      var dns := IsDnsQuery(cfg, p);
      if e.isLocal && !dns {
        return Nothing, true;
      }
      var r;
      if p in s.byOutgoing {
        r := s.byOutgoing[p];
        assert Filed(cfg, s, p);
        TouchKeeps(cfg, s, p, now);
      } else {
        var start := Start(p.tpSrc, e.random);
        PortIsFirstFree(s.used, p.proto, start);
        var port := PickPort(p.proto, p.tpSrc, e.random);
        if port.None? {
          return Nothing, false;
        }
        r := Record(p, e.inPort, dns, port.value, e.outsideEth, s.gateway.value);
        AddKeeps(cfg, old(s), r, now);
        s := s.(byIncoming := s.byIncoming[IncomingMatch(cfg, r) := r], byOutgoing := s.byOutgoing[p := r]);
      }
      s := s.(expiresAt := s.expiresAt[p := now + MEMORY_TIMEOUT]);
      return Rules(IncomingRule(cfg, r), OutgoingRule(cfg, r)), true;
    }

    method HandleOutside(e: Event, now: int) returns (sent: Sent)
      requires Ok() && e.FromOutside?
      modifies this
      ensures Ok() && OutsideEffect(cfg, e, now, old(s), s, sent)
    {
      if s.gateway.None? || e.packet.nwDst != cfg.outsideIp {
        return Nothing;
      }
      var key := Stripped(e.packet);
      if key !in s.byIncoming {
        return Ignore(e.packet, 1, 10);
      }
      var r := s.byIncoming[key];
      assert Refiled(cfg, s, key);
      TouchKeeps(cfg, s, r.flow, now);
      s := s.(expiresAt := s.expiresAt[r.flow := now + MEMORY_TIMEOUT]);
      return Rules(OutgoingRule(cfg, r), IncomingRule(cfg, r));
    }

    method Delete(r: Record)
      requires Ok() && r.flow in s.byOutgoing && s.byOutgoing[r.flow] == r
      modifies this
      ensures Ok() && s == WithoutRecord(cfg, old(s), r)
    {
      RemoveKeeps(cfg, s, r);
      s := s.(byOutgoing := s.byOutgoing - {r.flow});
      s := s.(byIncoming := s.byIncoming - {IncomingMatch(cfg, r)});
      s := s.(used := s.used - {Key(r)}, expiresAt := s.expiresAt - {r.flow});
    }

    /** _expire: exactly the records whose time is over go, from both indexes, and their ports
        become free. */
    method Expire(now: int)
      requires Ok()
      modifies this
      ensures Ok() && TimeEffect(old(s), s, now)
    {
      var dead := set f | f in s.byOutgoing && s.expiresAt[f] < now;
      ghost var was := s;
      while dead != {}
        invariant Ok() && s.gateway == was.gateway
        invariant forall f :: f in dead ==> f in s.byOutgoing
        invariant forall f :: f in s.byOutgoing <==> f in was.byOutgoing && (now <= was.expiresAt[f] || f in dead)
        invariant forall f :: f in s.byOutgoing ==>
          s.byOutgoing[f] == was.byOutgoing[f] && s.expiresAt[f] == was.expiresAt[f]
        decreases dead
      {
        var f :| f in dead;
        assert Filed(cfg, s, f);
        Delete(s.byOutgoing[f]);
        dead := dead - {f};
      }
    }

    method Take(e: Event, now: int) returns (sent: Sent, ok: bool)
      requires Ok()
      modifies this
      ensures Ok()
      ensures ok ==> Effect(cfg, e, now, old(s), s, sent)
      ensures !ok ==>
        && s == old(s) && e.FromInside? && Translates(cfg, s, e)
        && e.packet !in s.byOutgoing && NoPortFor(s, e.packet.proto)
    {
      sent, ok := Nothing, true;
      match e
      case FromInside(_, _, _, _, _) => sent, ok := HandleInside(e, now);
      case FromOutside(_) => sent := HandleOutside(e, now);
      case GatewayReply(mac) =>
        GatewayKeeps(cfg, s, mac);
        s := s.(gateway := Some(mac));
      case Timer => Expire(now);
    }

    /** Any run: every state is consistent and the effect of its event on the one before; and it ends
        early only at a packet of a new flow for which every port of its protocol is taken. */
    method Run(events: seq<(Event, int)>) returns (sents: seq<Sent>, ghost trace: seq<State>)
      requires Ok()
      modifies this
      ensures Ok() && Runs(cfg, events, trace, sents)
      ensures trace[0] == old(s) && trace[|sents|] == s
      ensures |sents| < |events| ==>
        var e := events[|sents|].0;
        && e.FromInside? && Translates(cfg, s, e) && e.packet !in s.byOutgoing
        && forall q: Port :: 49152 <= q <= 65533 ==> (e.packet.proto, q) in s.used
    {
      sents, trace := [], [s];
      for i := 0 to |events|
        invariant Ok() && |sents| == i && Runs(cfg, events, trace, sents)
        invariant trace[0] == old(s) && trace[i] == s
      {
        var sent, ok := Take(events[i].0, events[i].1);
        if !ok {
          return;
        }
        sents, trace := sents + [sent], trace + [s];
      }
    }
  }

  lemma GatewayKeeps(cfg: Config, s: State, mac: Mac)
    requires Valid(cfg, s)
    ensures Valid(cfg, s.(gateway := Some(mac)))
  {
    var t := s.(gateway := Some(mac));
    forall f ensures Filed(cfg, t, f) {
      assert Filed(cfg, s, f);
    }
    forall e ensures Refiled(cfg, t, e) {
      assert Refiled(cfg, s, e);
    }
    forall f, g ensures Apart(t, f, g) {
      assert Apart(s, f, g);
    }
    forall u | u in t.used ensures exists f :: Owned(t, f, u) {
      var f :| Owned(s, f, u);
      assert Owned(t, f, u);
    }
  }
}
