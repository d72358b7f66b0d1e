/**
  The livestreaming switch of pox/livestreaming/bypass.py: what it learns from RTMP control
  packets, when it stops watching them, and what it does to heartbeats.
*/
module Livestream {
  import opened Wrappers
  import opened RtmpParser
  import opened Heartbeats
  import opened Ipv6Text

  type SwitchPort = nat
  type Mac = nat

  const RTMP_PORT := 1935
  const NOTIFY_PORT := 42857
  const STREAM_KEY := "6829proj"

  /** An IPv4 TCP segment as the switch sees it. */
  datatype Tcp = Tcp(srcIp: Ip, dstIp: Ip, srcPort: nat, dstPort: nat, payload: Bytes)

  datatype Event = Event(port: SwitchPort, src: Mac, dst: Mac, tcp: Option<Tcp>)

  /** What is known of an end host. */
  datatype Host = Host(port: SwitchPort, dl: Mac, nw: Ip, tp: nat)

  /** What the switch sends: the packet (None: flooded), a heartbeat with its payload replaced (None:
      by nothing), a flow entry (None: dropping). */
  datatype Output =
    | Forward(to: Option<SwitchPort>)
    | Push(to: Option<SwitchPort>, payload: Option<string>)
    | Install(to: Option<SwitchPort>)

  // ---------------------------------------------------------------- keywords

  function Codes(s: string): (r: seq<nat>)
    ensures |r| == |s|
  {
    seq(|s|, i requires 0 <= i < |s| => s[i] as nat)
  }

  predicate Contains(payload: Bytes, word: string) {
    exists i: nat | i <= |payload| :: StandsAt(payload, word, i)
  }

  predicate StandsAt(payload: Bytes, word: string, i: nat) {
    i + |word| <= |payload| && payload[i..i + |word|] == Codes(word)
  }

  predicate IsPlayReq(p: Piece) { Contains(p.payload, "play") && Contains(p.payload, STREAM_KEY) }
  predicate IsPlayStart(p: Piece) { Contains(p.payload, "onStatus") && Contains(p.payload, "NetStream.Play.Start") }
  predicate IsPublishReq(p: Piece) { Contains(p.payload, "publish") && Contains(p.payload, STREAM_KEY) }
  predicate IsPublishStart(p: Piece) {
    Contains(p.payload, "onStatus") && Contains(p.payload, "NetStream.Publish.Start")
  }

  /** A parsed packet has the payload its header announces. */
  predicate Full(p: Piece) {
    p.header.msgLength.Some? ==> |p.payload| >= p.header.msgLength.value
  }

  predicate IsStreamBegin(p: Piece)
    requires Full(p)
  {
    p.header.msgLength == Some(6) && p.payload[0] == 0 && p.payload[1] == 0
  }

  // ---------------------------------------------------------------- modes

  datatype Mode = Mode(
    viewer: Option<Host>, broadcaster: Option<Host>, service: Option<Host>,
    vplay: bool, vready: bool, bpublish: bool, bready: bool, begin: bool,
    p2pEnabled: bool, p2pSetOff: bool)

  /** Steering has been decided, one way or the other. */
  predicate Decided(m: Mode) {
    m.p2pEnabled || m.p2pSetOff
  }

  /** What holds between any two packets. */
  predicate Safe(m: Mode) {
    && (m.vplay <==> m.viewer.Some?) && (m.bpublish <==> m.broadcaster.Some?)
    && (m.vready ==> m.viewer.Some? && m.service.Some?)
    && (m.bready ==> m.broadcaster.Some? && m.service.Some?)
    && (m.begin ==> m.vready)
    && (m.p2pEnabled ==> m.vready && m.bready)
    && (m.p2pSetOff ==> m.begin && !m.bready)
  }

  /** Nothing that was once set is taken back. */
  predicate Grows(m: Mode, n: Mode) {
    && (m.vplay ==> n.vplay) && (m.vready ==> n.vready) && (m.bpublish ==> n.bpublish) && (m.bready ==> n.bready)
    && (m.begin ==> n.begin) && (m.p2pEnabled ==> n.p2pEnabled) && (m.p2pSetOff ==> n.p2pSetOff)
    && (m.service.Some? ==> n.service.Some?)
  }

  /** After one packet: the mode, and whether the handler got past its checks. */
  datatype Step = Step(mode: Mode, ok: bool)

  function Sender(e: Event, t: Tcp): Host { Host(e.port, e.src, t.srcIp, t.srcPort) }

  function PlayReq(m: Mode, e: Event, t: Tcp): Step {
    if t.dstPort != RTMP_PORT then Step(m, false)
    else Step(m.(viewer := Some(Sender(e, t)), vplay := true), true)
  }

  function PublishReq(m: Mode, e: Event, t: Tcp): Step {
    if t.dstPort != RTMP_PORT then Step(m, false)
    else Step(m.(broadcaster := Some(Sender(e, t)), bpublish := true), true)
  }

  /** The service is known, and by a port that is true in Python. */
  predicate Pinned(m: Mode) {
    m.service.Some? && m.service.value.port != 0
  }

  predicate SameService(m: Mode, e: Event, t: Tcp)
    requires m.service.Some?
  {
    m.service.value.port == e.port && m.service.value.dl == e.src && m.service.value.nw == t.srcIp
  }

  function MeetService(m: Mode, e: Event, t: Tcp): Step {
    if Pinned(m) then Step(m, SameService(m, e, t))
    else Step(m.(service := Some(Host(e.port, e.src, t.srcIp, RTMP_PORT))), true)
  }

  function PlayStart(m: Mode, e: Event, t: Tcp): Step {
    if t.srcPort != RTMP_PORT || m.viewer.None? then Step(m, false)
    else
      var s := MeetService(m, e, t);
      if s.ok then Step(s.mode.(vready := true), true) else s
  }

  function PublishStart(m: Mode, e: Event, t: Tcp): Step {
    if t.srcPort != RTMP_PORT || m.broadcaster.None? then Step(m, false)
    else
      var s := MeetService(m, e, t);
      if s.ok then Step(s.mode.(bready := true), true) else s
  }

  function StreamBegin(m: Mode, t: Tcp): Step {
    if t.srcPort != RTMP_PORT || !m.vready then Step(m, false) else Step(m.(begin := true), true)
  }

  datatype Keyword = PlayReqWord | PlayStartWord | PublishReqWord | PublishStartWord | BeginWord

  predicate Holds(p: Piece, w: Keyword)
    requires Full(p)
  {
    match w
    case PlayReqWord => IsPlayReq(p)
    case PlayStartWord => IsPlayStart(p)
    case PublishReqWord => IsPublishReq(p)
    case PublishStartWord => IsPublishStart(p)
    case BeginWord => IsStreamBegin(p)
  }

  function OnKeyword(m: Mode, e: Event, t: Tcp, w: Keyword): Step {
    match w
    case PlayReqWord => PlayReq(m, e, t)
    case PlayStartWord => PlayStart(m, e, t)
    case PublishReqWord => PublishReq(m, e, t)
    case PublishStartWord => PublishStart(m, e, t)
    case BeginWord => StreamBegin(m, t)
  }

  const KEYWORDS: seq<Keyword> := [PlayReqWord, PlayStartWord, PublishReqWord, PublishStartWord, BeginWord]

  /** One RTMP packet: the keywords it holds are acted on in turn, until a check fails. */
  function OnWords(m: Mode, e: Event, t: Tcp, p: Piece, words: seq<Keyword>): Step
    requires Full(p)
    decreases |words|
  {
    if words == [] then Step(m, true)
    else
      var s := if Holds(p, words[0]) then OnKeyword(m, e, t, words[0]) else Step(m, true);
      if s.ok then OnWords(s.mode, e, t, p, words[1..]) else s
  }

  function OnPiece(m: Mode, e: Event, t: Tcp, p: Piece): Step
    requires Full(p)
  {
    OnWords(m, e, t, p, KEYWORDS)
  }

  predicate AllFull(pieces: seq<Piece>) {
    forall i :: 0 <= i < |pieces| ==> Full(pieces[i])
  }

  function OnPieces(m: Mode, e: Event, t: Tcp, pieces: seq<Piece>): Step
    requires AllFull(pieces)
    decreases |pieces|
  {
    if pieces == [] then Step(m, true)
    else
      var s := OnPiece(m, e, t, pieces[0]);
      if s.ok then OnPieces(s.mode, e, t, pieces[1..]) else s
  }

  /** The end of the handler: is it time to stop watching RTMP? */
  function Decide(m: Mode): Mode {
    m.(p2pSetOff := m.p2pSetOff || (m.begin && !m.bready), p2pEnabled := m.p2pEnabled || (m.vready && m.bready))
  }

  /** A step from an undecided, safe mode. */
  predicate Fine(m: Mode, s: Step) {
    Safe(s.mode) && !Decided(s.mode) && Grows(m, s.mode)
  }

  lemma RequestsAreFine(m: Mode, e: Event, t: Tcp)
    requires Safe(m) && !Decided(m)
    ensures Fine(m, Step(m, true)) && Fine(m, PlayReq(m, e, t)) && Fine(m, PublishReq(m, e, t))
  {
  }

  lemma AnswersAreFine(m: Mode, e: Event, t: Tcp)
    requires Safe(m) && !Decided(m)
    ensures Fine(m, PlayStart(m, e, t)) && Fine(m, PublishStart(m, e, t)) && Fine(m, StreamBegin(m, t))
  {
  }

  lemma FineTwice(m: Mode, a: Step, b: Step)
    requires Fine(m, a) && Fine(a.mode, b)
    ensures Fine(m, b)
  {
  }

  lemma {:induction false} OnWordsKeeps(m: Mode, e: Event, t: Tcp, p: Piece, words: seq<Keyword>)
    requires Safe(m) && !Decided(m) && Full(p)
    ensures Fine(m, OnWords(m, e, t, p, words))
    decreases |words|
  {
    RequestsAreFine(m, e, t);
    if words != [] {
      AnswersAreFine(m, e, t);
      var s := if Holds(p, words[0]) then OnKeyword(m, e, t, words[0]) else Step(m, true);
      if s.ok {
        OnWordsKeeps(s.mode, e, t, p, words[1..]);
        FineTwice(m, s, OnWords(s.mode, e, t, p, words[1..]));
      }
    }
  }

  lemma {:induction false} OnPiecesKeeps(m: Mode, e: Event, t: Tcp, pieces: seq<Piece>)
    requires Safe(m) && !Decided(m) && AllFull(pieces)
    ensures Fine(m, OnPieces(m, e, t, pieces))
    decreases |pieces|
  {
    if pieces != [] {
      OnWordsKeeps(m, e, t, pieces[0], KEYWORDS);
      var s := OnPiece(m, e, t, pieces[0]);
      if s.ok {
        OnPiecesKeeps(s.mode, e, t, pieces[1..]);
        FineTwice(m, s, OnPieces(s.mode, e, t, pieces[1..]));
      }
    }
  }

  /** A service once known by a true port is never replaced; an answer from another host fails. */
  predicate Holding(m: Mode, n: Mode) {
    Pinned(m) ==> n.service == m.service
  }

  lemma {:induction false} WordsHoldService(m: Mode, e: Event, t: Tcp, p: Piece, words: seq<Keyword>)
    requires Full(p)
    ensures Holding(m, OnWords(m, e, t, p, words).mode)
    decreases |words|
  {
    if words != [] {
      var s := if Holds(p, words[0]) then OnKeyword(m, e, t, words[0]) else Step(m, true);
      assert Holding(m, s.mode);
      if s.ok {
        WordsHoldService(s.mode, e, t, p, words[1..]);
      }
    }
  }

  lemma {:induction false} PiecesHoldService(m: Mode, e: Event, t: Tcp, pieces: seq<Piece>)
    requires AllFull(pieces)
    ensures Holding(m, OnPieces(m, e, t, pieces).mode)
    decreases |pieces|
  {
    if pieces != [] {
      WordsHoldService(m, e, t, pieces[0], KEYWORDS);
      var s := OnPiece(m, e, t, pieces[0]);
      if s.ok {
        PiecesHoldService(s.mode, e, t, pieces[1..]);
      }
    }
  }

  /** After a first answer, one from another host is accepted exactly if the first came in on port 0:
      only a known port that is true pins the service. */
  lemma PortZeroPinsNothing(m: Mode, e: Event, t: Tcp, f: Event, u: Tcp)
    requires m.viewer.Some? && m.service.None? && t.srcPort == RTMP_PORT && u.srcPort == RTMP_PORT
    requires (f.port, f.src, u.srcIp) != (e.port, e.src, t.srcIp)
    ensures var first := PlayStart(m, e, t);
      var second := PlayStart(first.mode, f, u);
      && first.ok && (second.ok <==> e.port == 0)
      && second.mode.service == Some(if e.port == 0 then Host(f.port, f.src, u.srcIp, RTMP_PORT)
                                     else Host(e.port, e.src, t.srcIp, RTMP_PORT))
  {
  }

  /** Deciding is safe, and decides one way only: not both modes, and each for its reason. */
  lemma DecideKeeps(m: Mode)
    requires Safe(m) && !Decided(m)
    ensures var n := Decide(m);
      && Safe(n) && Grows(m, n) && !(n.p2pEnabled && n.p2pSetOff)
      && (n.p2pEnabled ==> n.viewer.Some? && n.broadcaster.Some? && n.service.Some?)
      && (n.p2pSetOff ==> n.viewer.Some? && n.service.Some?)
  {
  }

  // ---------------------------------------------------------------- the switch

  class LearningSwitch {
    var macToPort: map<Mac, SwitchPort>
    var viewer: Option<Host>
    var broadcaster: Option<Host>
    var service: Option<Host>
    var vplay: bool
    var vready: bool
    var bpublish: bool
    var bready: bool
    var begin: bool
    var p2pEnabled: bool
    var p2pSetOff: bool
    var prepended: Option<Bytes>

    function Abs(): Mode
      reads this
    {
      Mode(viewer, broadcaster, service, vplay, vready, bpublish, bready, begin, p2pEnabled, p2pSetOff)
    }

    ghost function Now(): Memory
      reads this
    {
      Memory(Abs(), prepended, macToPort)
    }

    constructor ()
      ensures Safe(Abs()) && !Decided(Abs()) && macToPort == map[] && prepended == None
    {
      macToPort, prepended := map[], None;
      viewer, broadcaster, service := None, None, None;
      vplay, vready, bpublish, bready, begin, p2pEnabled, p2pSetOff := false, false, false, false, false, false, false;
    }

    // The keyword handlers; false when a check of the source fails.

    method TakePlayReq(e: Event, t: Tcp) returns (ok: bool)
      modifies this`viewer, this`vplay
      ensures Step(Abs(), ok) == PlayReq(old(Abs()), e, t)
    {
      if t.dstPort != RTMP_PORT {
        return false;
      }
      viewer := Some(Host(e.port, e.src, t.srcIp, t.srcPort));
      vplay := true;
      return true;
    }

    method TakePublishReq(e: Event, t: Tcp) returns (ok: bool)
      modifies this`broadcaster, this`bpublish
      ensures Step(Abs(), ok) == PublishReq(old(Abs()), e, t)
    {
      if t.dstPort != RTMP_PORT {
        return false;
      }
      broadcaster := Some(Host(e.port, e.src, t.srcIp, t.srcPort));
      bpublish := true;
      return true;
    }

    method TakeService(e: Event, t: Tcp) returns (ok: bool)
      modifies this`service
      ensures Step(Abs(), ok) == MeetService(old(Abs()), e, t)
    {
      if service.Some? && service.value.port != 0 {
        return service.value.port == e.port && service.value.dl == e.src && service.value.nw == t.srcIp;
      }
      service := Some(Host(e.port, e.src, t.srcIp, RTMP_PORT));
      return true;
    }

    method TakePlayStart(e: Event, t: Tcp) returns (ok: bool)
      requires Safe(Abs())
      modifies this`service, this`vready
      ensures Step(Abs(), ok) == PlayStart(old(Abs()), e, t)
    {
      if t.srcPort != RTMP_PORT || viewer.None? {
        return false;
      }
      ok := TakeService(e, t);
      if !ok {
        return;
      }
      assert vplay;
      vready := true;
    }

    method TakePublishStart(e: Event, t: Tcp) returns (ok: bool)
      requires Safe(Abs())
      modifies this`service, this`bready
      ensures Step(Abs(), ok) == PublishStart(old(Abs()), e, t)
    {
      if t.srcPort != RTMP_PORT || broadcaster.None? {
        return false;
      }
      ok := TakeService(e, t);
      if !ok {
        return;
      }
      assert bpublish;
      bready := true;
    }

    method TakeStreamBegin(t: Tcp) returns (ok: bool)
      modifies this`begin
      ensures Step(Abs(), ok) == StreamBegin(old(Abs()), t)
    {
      if t.srcPort != RTMP_PORT || !vready {
        return false;
      }
      begin := true;
      return true;
    }

    method TakeKeyword(e: Event, t: Tcp, w: Keyword) returns (ok: bool)
      requires Safe(Abs())
      modifies this`viewer, this`broadcaster, this`service, this`vplay, this`vready, this`bpublish,
               this`bready, this`begin
      ensures Step(Abs(), ok) == OnKeyword(old(Abs()), e, t, w)
    {
      match w
      case PlayReqWord => ok := TakePlayReq(e, t);
      case PlayStartWord => ok := TakePlayStart(e, t);
      case PublishReqWord => ok := TakePublishReq(e, t);
      case PublishStartWord => ok := TakePublishStart(e, t);
      case BeginWord => ok := TakeStreamBegin(t);
    }

    /** One of the five tests of the loop body, and what follows from it. */
    method TakeIf(e: Event, t: Tcp, p: Piece, k: nat, ghost was: Mode) returns (ok: bool)
      requires Safe(Abs()) && !Decided(Abs()) && Full(p) && k < |KEYWORDS|
      requires OnWords(Abs(), e, t, p, KEYWORDS[k..]) == OnPiece(was, e, t, p)
      modifies this`viewer, this`broadcaster, this`service, this`vplay, this`vready, this`bpublish,
               this`bready, this`begin
      ensures Safe(Abs()) && !Decided(Abs())
      ensures ok ==> OnWords(Abs(), e, t, p, KEYWORDS[k + 1..]) == OnPiece(was, e, t, p)
      ensures !ok ==> Step(Abs(), false) == OnPiece(was, e, t, p)
    {
      assert KEYWORDS[k..][1..] == KEYWORDS[k + 1..];
      RequestsAreFine(Abs(), e, t);
      AnswersAreFine(Abs(), e, t);
      ok := true;
      if Holds(p, KEYWORDS[k]) {
        ok := TakeKeyword(e, t, KEYWORDS[k]);
      }
    }

    method TakePiece(e: Event, t: Tcp, p: Piece) returns (ok: bool)
      requires Safe(Abs()) && !Decided(Abs()) && Full(p)
      modifies this`viewer, this`broadcaster, this`service, this`vplay, this`vready, this`bpublish,
               this`bready, this`begin
      ensures Step(Abs(), ok) == OnPiece(old(Abs()), e, t, p) && Safe(Abs()) && !Decided(Abs())
    {
      ghost var was := Abs();
      assert KEYWORDS[0..] == KEYWORDS && KEYWORDS[5..] == [];
      ok := TakeIf(e, t, p, 0, was);
      if ok {
        ok := TakeIf(e, t, p, 1, was);
      }
      if ok {
        ok := TakeIf(e, t, p, 2, was);
      }
      if ok {
        ok := TakeIf(e, t, p, 3, was);
      }
      if ok {
        ok := TakeIf(e, t, p, 4, was);
      }
    }

    method TakePieces(e: Event, t: Tcp, pieces: seq<Piece>) returns (ok: bool)
      requires Safe(Abs()) && !Decided(Abs()) && AllFull(pieces)
      modifies this`viewer, this`broadcaster, this`service, this`vplay, this`vready, this`bpublish,
               this`bready, this`begin
      ensures Step(Abs(), ok) == OnPieces(old(Abs()), e, t, pieces) && Safe(Abs()) && !Decided(Abs())
    {
      ghost var was := Abs();
      OnPiecesKeeps(was, e, t, pieces);
      ok := true;
      for i := 0 to |pieces|
        invariant ok && Safe(Abs()) && !Decided(Abs())
        invariant OnPieces(Abs(), e, t, pieces[i..]) == OnPieces(was, e, t, pieces)
      {
        assert pieces[i..][1..] == pieces[i + 1..];
        ok := TakePiece(e, t, pieces[i]);
        if !ok {
          return;
        }
      }
    }

    function Route(e: Event): Option<SwitchPort>
      reads this
    {
      Towards(macToPort, e.dst)
    }

    /** The end of the handler: stop watching, or start steering, when it is time. */
    method DecideNow()
      requires Safe(Abs()) && !Decided(Abs())
      modifies this`p2pEnabled, this`p2pSetOff
      ensures Abs() == Decide(old(Abs()))
    {
      if begin && !bready {
        assert viewer.Some? && service.Some?;
        p2pSetOff := true;
      }
      if vready && bready {
        assert viewer.Some? && broadcaster.Some? && service.Some?;
        p2pEnabled := true;
      }
    }

    /** The part of the handler from the splitting loop on. */
    method HandleContent(e: Event, t: Tcp, content: Bytes) returns (ok: bool)
      requires Safe(Abs()) && !Decided(Abs()) && content != []
      modifies this`viewer, this`broadcaster, this`service, this`vplay, this`vready, this`bpublish,
               this`bready, this`begin, this`p2pEnabled, this`p2pSetOff
      ensures Step(Abs(), ok) == OnContent(old(Abs()), e, t, content)
    {
      var pieces := Split(content);
      if pieces.None? {
        return true;
      }
      PiecesAreFull(content);
      assert |pieces.value| > 0;
      ok := TakePieces(e, t, pieces.value);
      if ok {
        DecideNow();
      }
    }

    /** _handle_PacketIn_rtmp.  False: a check failed, and the handler ended there. */
    method HandleRtmp(e: Event, t: Tcp) returns (sends: seq<Output>, ok: bool)
      requires Safe(Abs()) && !Decided(Abs())
      modifies this
      ensures macToPort == old(macToPort)[e.src := e.port]
      ensures t.srcPort != t.dstPort ==>
        var s := OnPayload(old(Abs()), old(prepended), e, t);
        Step(Abs(), ok) == s.0 && prepended == s.1 && sends == if ok then [Forward(Route(e))] else []
      ensures t.srcPort == t.dstPort ==> !ok && Abs() == old(Abs()) && prepended == old(prepended) && sends == []
    {
      macToPort := macToPort[e.src := e.port];
      if t.srcPort == t.dstPort {
        return [], false;
      }
      var content := t.payload;
      if |content| == 0 || |content| == 88 || |content| == 89 {
        return [Forward(Route(e))], true;
      }
      if |content| == 12 {
        prepended := Some(content);
        return [Forward(Route(e))], true;
      } else if prepended.Some? {
        content := prepended.value + content;
        prepended := None;
      }
      ok := HandleContent(e, t, content);
      sends := if ok then [Forward(Route(e))] else [];
    }

    /** _handle_PacketIn_notify. */
    method HandleNotify(e: Event, t: Tcp) returns (sends: seq<Output>, ok: bool)
      requires Safe(Abs())
      modifies this`macToPort
      ensures macToPort == old(macToPort)[e.src := e.port]
      ensures NotifyEffect(Abs(), e, t, Route(e), Done(sends, ok))
    {
      macToPort := macToPort[e.src := e.port];
      if t.srcPort == t.dstPort {
        return [], false;
      }
      if p2pEnabled && t.srcPort == NOTIFY_PORT {
        assert viewer.Some? && broadcaster.Some? && service.Some?;
        if t.srcIp != service.value.nw {
          return [], false;
        }
        var payload: Option<string> := None;
        if t.dstIp == viewer.value.nw {
          payload := Some(Heartbeat(broadcaster.value.nw));
        }
        if t.dstIp == broadcaster.value.nw {
          payload := Some(Heartbeat(viewer.value.nw));
        }
        return [Push(Route(e), payload), Install(None)], true;
      }
      return [Forward(Route(e))], true;
    }

    /** _handle_PacketIn_normal: plain learning and forwarding. */
    method HandleNormal(e: Event) returns (sends: seq<Output>)
      modifies this`macToPort
      ensures macToPort == old(macToPort)[e.src := e.port]
      ensures NormalEffect(e, Route(e), Done(sends, true))
    {
      macToPort := macToPort[e.src := e.port];
      if e.dst !in macToPort {
        return [Forward(None)];
      }
      var out := macToPort[e.dst];
      if out == e.port {
        return [];
      }
      return [Install(Some(out))];
    }

    /** _handle_PacketIn.  Whatever comes in, whether or not a check fails on the way, the mode
        stays safe and nothing set is taken back; and once steering is decided, the roles and the
        mode stay as they are. */
    method HandlePacketIn(e: Event) returns (sends: seq<Output>, ok: bool)
      requires Safe(Abs())
      modifies this
      ensures Safe(Abs()) && Grows(old(Abs()), Abs()) && !(p2pEnabled && p2pSetOff) && Holding(old(Abs()), Abs())
      ensures Effect(e, old(Now()), Now(), Done(sends, ok))
      ensures Decided(old(Abs())) ==> Abs() == old(Abs())
    {
      if !p2pEnabled && !p2pSetOff && e.tcp.Some? && IsRtmp(e.tcp.value) {
        OnPayloadKeeps(Abs(), prepended, e, e.tcp.value);
        sends, ok := HandleRtmp(e, e.tcp.value);
      } else if e.tcp.Some? && IsNotify(e.tcp.value) {
        sends, ok := HandleNotify(e, e.tcp.value);
      } else {
        sends := HandleNormal(e);
        ok := true;
      }
    }

    /** Every sequence of packets: each mode, kept prefix and port table is the effect of its packet on
        the one before, and so is what is sent. */
    method Run(events: seq<Event>) returns (done: seq<Done>, ghost trace: seq<Memory>)
      requires Safe(Abs())
      modifies this
      ensures |trace| == |events| + 1 && |done| == |events|
      ensures trace[0] == old(Now()) && trace[|events|] == Now()
      ensures forall n | 0 <= n < |trace| :: Safe(trace[n].mode)
      ensures forall n | 0 <= n < |events| :: Effect(events[n], trace[n], trace[n + 1], done[n])
      ensures Grows(old(Abs()), Abs()) && !(p2pEnabled && p2pSetOff) && Holding(old(Abs()), Abs())
      ensures Decided(old(Abs())) ==> Abs() == old(Abs())
    {
      done, trace := [], [Now()];
      for i := 0 to |events|
        invariant Safe(Abs()) && Grows(old(Abs()), Abs()) && Holding(old(Abs()), Abs())
        invariant Decided(old(Abs())) ==> Abs() == old(Abs())
        invariant |trace| == i + 1 && |done| == i && trace[0] == old(Now()) && trace[i] == Now()
        invariant forall n | 0 <= n < |trace| :: Safe(trace[n].mode)
        invariant forall n | 0 <= n < i :: Effect(events[n], trace[n], trace[n + 1], done[n])
      {
        var sends, ok := HandlePacketIn(events[i]);
        done, trace := done + [Done(sends, ok)], trace + [Now()];
      }
    }
  }

  // ---------------------------------------------------------------- the effect of a packet

  /** What a switch object remembers. */
  datatype Memory = Memory(mode: Mode, prepended: Option<Bytes>, ports: map<Mac, SwitchPort>)

  /** What handling a packet sends, and whether all its checks held. */
  datatype Done = Done(sends: seq<Output>, ok: bool)

  function Towards(ports: map<Mac, SwitchPort>, dst: Mac): Option<SwitchPort> {
    if dst in ports then Some(ports[dst]) else None
  }

  /** A heartbeat: pushed with the peer's address once steering is on, forwarded before. */
  predicate NotifyEffect(m: Mode, e: Event, t: Tcp, to: Option<SwitchPort>, done: Done)
    requires Safe(m)
  {
    if t.srcPort == t.dstPort then done == Done([], false)
    else if !(m.p2pEnabled && t.srcPort == NOTIFY_PORT) then done == Done([Forward(to)], true)
    else if t.srcIp != m.service.value.nw then done == Done([], false)
    else done == Done([Push(to, Told(Peer(m, t.dstIp))), Install(None)], true)
  }

  predicate NormalEffect(e: Event, to: Option<SwitchPort>, done: Done) {
    done == Done(if to.None? then [Forward(None)] else if to == Some(e.port) then [] else [Install(to)], true)
  }

  /** The source of every packet is learned.  Mode and prefix change by RTMP payloads only, and only
      until steering is decided. */
  predicate Effect(e: Event, was: Memory, now: Memory, done: Done)
    requires Safe(was.mode)
  {
    && now.ports == was.ports[e.src := e.port]
    && var to := Towards(now.ports, e.dst);
       if !Decided(was.mode) && e.tcp.Some? && IsRtmp(e.tcp.value) then
         if e.tcp.value.srcPort == e.tcp.value.dstPort then now == was.(ports := now.ports) && done == Done([], false)
         else
           && (Step(now.mode, done.ok), now.prepended) == OnPayload(was.mode, was.prepended, e, e.tcp.value)
           && done.sends == if done.ok then [Forward(to)] else []
       else
         && now == was.(ports := now.ports)
         && if e.tcp.Some? && IsNotify(e.tcp.value) then NotifyEffect(was.mode, e, e.tcp.value, to, done)
            else NormalEffect(e, to, done)
  }

  predicate IsRtmp(t: Tcp) { t.srcPort == RTMP_PORT || t.dstPort == RTMP_PORT }
  predicate IsNotify(t: Tcp) { t.srcPort == NOTIFY_PORT || t.dstPort == NOTIFY_PORT }

  /** Whose address a heartbeat to dst carries: the other end's. */
  function Peer(m: Mode, dst: Ip): Option<Ip>
    requires m.viewer.Some? && m.broadcaster.Some?
  {
    if dst == m.broadcaster.value.nw then Some(m.viewer.value.nw)
    else if dst == m.viewer.value.nw then Some(m.broadcaster.value.nw)
    else None
  }

  function Told(peer: Option<Ip>): Option<string> {
    match peer
    case None => None
    case Some(ip) => Some(Heartbeat(ip))
  }

  /** The point of the switch.  Once steering is on, a heartbeat of the service tells each of two end
      hosts the other's address, in fifteen characters, and anyone else nothing; the next heartbeats
      are dropped. */
  lemma HeartbeatsCross(e: Event, t: Tcp, was: Memory, now: Memory, done: Done)
    requires Safe(was.mode) && Effect(e, was, now, done) && was.mode.p2pEnabled && e.tcp == Some(t)
    requires t.srcPort == 42857 != t.dstPort && t.srcIp == was.mode.service.value.nw
    ensures was.mode.viewer.Some? && was.mode.broadcaster.Some? && done.ok && |done.sends| == 2
    ensures done.sends[0].Push? && done.sends[1] == Install(None)
    ensures done.sends[0].to == if e.dst in now.ports then Some(now.ports[e.dst]) else None
    ensures var v, b, payload := was.mode.viewer.value.nw, was.mode.broadcaster.value.nw, done.sends[0].payload;
      && (t.dstIp == v && v != b ==> payload.Some? && |payload.value| == 15
                                     && ParseQuad(Unpadded(payload.value)) == Some(b))
      && (t.dstIp == b && v != b ==> payload.Some? && |payload.value| == 15
                                     && ParseQuad(Unpadded(payload.value)) == Some(v))
      && (t.dstIp != v && t.dstIp != b ==> payload == None)
  {
    HeartbeatReads(was.mode.viewer.value.nw);
    HeartbeatReads(was.mode.broadcaster.value.nw);
  }

  /** Any other heartbeat, before steering or on its way to the service, goes where its address says. */
  lemma HeartbeatsPass(e: Event, t: Tcp, was: Memory, now: Memory, done: Done)
    requires Safe(was.mode) && Effect(e, was, now, done) && e.tcp == Some(t) && t.srcPort != t.dstPort
    requires (t.srcPort == 42857 && !was.mode.p2pEnabled) || (t.srcPort != 42857 && t.dstPort == 42857)
    requires was.mode.p2pEnabled || was.mode.p2pSetOff || (t.srcPort != 1935 && t.dstPort != 1935)
    ensures done == Done([Forward(if e.dst in now.ports then Some(now.ports[e.dst]) else None)], true)
  {
  }

  lemma PiecesAreFull(content: Bytes)
    ensures Pieces(content).Some? ==> AllFull(Pieces(content).value) && (content != [] ==> Pieces(content).value != [])
  {
    if Pieces(content).Some? {
      PiecesJoin(content);
      var pieces := Pieces(content).value;
      forall i | 0 <= i < |pieces| ensures Full(pieces[i]) {
        assert Announced(pieces[i], i == |pieces| - 1);
      }
    }
  }

  function OnContent(m: Mode, e: Event, t: Tcp, content: Bytes): Step {
    var pieces := Pieces(content);
    if pieces.None? then Step(m, true)
    else
      PiecesAreFull(content);
      var s := OnPieces(m, e, t, pieces.value);
      if s.ok then Step(Decide(s.mode), true) else s
  }

  lemma OnContentKeeps(m: Mode, e: Event, t: Tcp, content: Bytes)
    requires Safe(m) && !Decided(m)
    ensures var n := OnContent(m, e, t, content).mode;
      Safe(n) && Grows(m, n) && !(n.p2pEnabled && n.p2pSetOff) && Holding(m, n)
  {
    var pieces := Pieces(content);
    if pieces.Some? {
      PiecesAreFull(content);
      OnPiecesKeeps(m, e, t, pieces.value);
      PiecesHoldService(m, e, t, pieces.value);
      var s := OnPieces(m, e, t, pieces.value);
      DecideKeeps(s.mode);
    }
  }

  /** Every payload, a handler cut short by a failed check included: the mode stays safe, nothing
      set is taken back, and never are both ends of the decision true. */
  lemma OnPayloadKeeps(m: Mode, prepended: Option<Bytes>, e: Event, t: Tcp)
    requires Safe(m) && !Decided(m)
    ensures var n := OnPayload(m, prepended, e, t).0.mode;
      Safe(n) && Grows(m, n) && !(n.p2pEnabled && n.p2pSetOff) && Holding(m, n)
  {
    OnContentKeeps(m, e, t, if prepended.Some? then prepended.value + t.payload else t.payload);
  }

  /** What the RTMP handler makes of a payload: the step, and the bytes kept for the next one. */
  function OnPayload(m: Mode, prepended: Option<Bytes>, e: Event, t: Tcp): (Step, Option<Bytes>) {
    if |t.payload| == 0 || |t.payload| == 88 || |t.payload| == 89 then (Step(m, true), prepended)
    else if |t.payload| == 12 then (Step(m, true), Some(t.payload))
    else
      var content := if prepended.Some? then prepended.value + t.payload else t.payload;
      (OnContent(m, e, t, content), None)
  }
}
