/**
  What the livestreaming switch of pox/livestreaming/bypass.py is for, over whole runs: by which words
  it takes whom for what, that it steers only what was asked for and granted, and that it does so.
*/
module Steering {
  import opened Wrappers
  import opened RtmpParser
  import opened Heartbeats
  import opened Livestream

  // ---------------------------------------------------------------- the words

  predicate OccursAt(text: string, payload: Bytes, i: nat) {
    i + |text| <= |payload| && forall k | 0 <= k < |text| :: payload[i + k] == text[k] as nat
  }

  /** The text stands somewhere in the bytes. */
  ghost predicate Occurs(text: string, payload: Bytes) {
    exists i: nat :: OccursAt(text, payload, i)
  }

  lemma ContainsIfOccurs(payload: Bytes, text: string)
    ensures Contains(payload, text) <==> Occurs(text, payload)
  {
    forall i: nat
      ensures StandsAt(payload, text, i) <==> OccursAt(text, payload, i)
    {
      if OccursAt(text, payload, i) {
        assert payload[i..i + |text|] == Codes(text);
      }
    }
  }

  ghost predicate AsksToPlay(p: Piece) { Occurs("play", p.payload) && Occurs("6829proj", p.payload) }
  ghost predicate AsksToPublish(p: Piece) { Occurs("publish", p.payload) && Occurs("6829proj", p.payload) }
  ghost predicate GrantsPlay(p: Piece) { Occurs("onStatus", p.payload) && Occurs("NetStream.Play.Start", p.payload) }
  ghost predicate GrantsPublish(p: Piece) {
    Occurs("onStatus", p.payload) && Occurs("NetStream.Publish.Start", p.payload)
  }
  predicate Begins(p: Piece) { p.header.msgLength == Some(6) && |p.payload| >= 2 && p.payload[..2] == [0, 0] }

  lemma WordsAreHeard(p: Piece)
    requires Full(p)
    ensures (Holds(p, PlayReqWord) <==> AsksToPlay(p)) && (Holds(p, PublishReqWord) <==> AsksToPublish(p))
    ensures (Holds(p, PlayStartWord) <==> GrantsPlay(p)) && (Holds(p, PublishStartWord) <==> GrantsPublish(p))
    ensures Holds(p, BeginWord) <==> Begins(p)
  {
    ContainsIfOccurs(p.payload, "play");
    ContainsIfOccurs(p.payload, "publish");
    ContainsIfOccurs(p.payload, "6829proj");
    ContainsIfOccurs(p.payload, "onStatus");
    ContainsIfOccurs(p.payload, "NetStream.Play.Start");
    ContainsIfOccurs(p.payload, "NetStream.Publish.Start");
  }

  // ---------------------------------------------------------------- one RTMP packet

  function OnWord(m: Mode, e: Event, t: Tcp, p: Piece, w: Keyword): Step
    requires Full(p)
  {
    if Holds(p, w) then OnKeyword(m, e, t, w) else Step(m, true)
  }

  lemma OneWord(m: Mode, e: Event, t: Tcp, p: Piece, w: Keyword, rest: seq<Keyword>)
    requires Full(p)
    ensures var s := OnWord(m, e, t, p, w);
      OnWords(m, e, t, p, [w] + rest) == if s.ok then OnWords(s.mode, e, t, p, rest) else s
  {
    assert ([w] + rest)[1..] == rest;
  }

  /** The five tests one after the other, none of which failed. */
  lemma FiveWords(m: Mode, e: Event, t: Tcp, p: Piece) returns (a: Step, b: Step, c: Step, d: Step)
    requires Full(p) && OnPiece(m, e, t, p).ok
    ensures a == OnWord(m, e, t, p, PlayReqWord) && a.ok && b == OnWord(a.mode, e, t, p, PlayStartWord) && b.ok
    ensures c == OnWord(b.mode, e, t, p, PublishReqWord) && c.ok
    ensures d == OnWord(c.mode, e, t, p, PublishStartWord) && d.ok
    ensures OnPiece(m, e, t, p) == OnWord(d.mode, e, t, p, BeginWord)
  {
    a := OnWord(m, e, t, p, PlayReqWord);
    OneWord(m, e, t, p, PlayReqWord, [PlayStartWord, PublishReqWord, PublishStartWord, BeginWord]);
    b := OnWord(a.mode, e, t, p, PlayStartWord);
    OneWord(a.mode, e, t, p, PlayStartWord, [PublishReqWord, PublishStartWord, BeginWord]);
    c := OnWord(b.mode, e, t, p, PublishReqWord);
    OneWord(b.mode, e, t, p, PublishReqWord, [PublishStartWord, BeginWord]);
    d := OnWord(c.mode, e, t, p, PublishStartWord);
    OneWord(c.mode, e, t, p, PublishStartWord, [BeginWord]);
    OneWord(d.mode, e, t, p, BeginWord, []);
  }

  function Known(was: Option<Host>, sender: Host, says: bool): Option<Host> {
    if says then Some(sender) else was
  }

  /** Only a service known by a port that is true stays. */
  function Met(was: Option<Host>, sender: Host, says: bool): Option<Host> {
    if says && !(was.Some? && was.value.port != 0) then Some(sender) else was
  }

  /** The mode after words of this sender: asked to play, granted play, asked to publish, granted that,
      begun streaming. */
  function Taught(m: Mode, sender: Host, play: bool, plays: bool, publish: bool, publishes: bool, begins: bool): Mode {
    Mode(Known(m.viewer, sender, play), Known(m.broadcaster, sender, publish),
         Met(m.service, sender, plays || publishes), m.vplay || play, m.vready || plays, m.bpublish || publish,
         m.bready || publishes, m.begin || begins, m.p2pEnabled, m.p2pSetOff)
  }

  /** What one packet teaches whose checks all hold: exactly what its words say about its sender. */
  ghost predicate Teaches(m: Mode, e: Event, t: Tcp, p: Piece, n: Mode) {
    && (AsksToPlay(p) || AsksToPublish(p) ==> t.dstPort == 1935)
    && (GrantsPlay(p) || GrantsPublish(p) || Begins(p) ==> t.srcPort == 1935)
    && n == Taught(m, Sends(e, t), AsksToPlay(p), GrantsPlay(p), AsksToPublish(p), GrantsPublish(p), Begins(p))
  }

  function Asked(m: Mode, sender: Host, says: bool): Mode {
    m.(viewer := Known(m.viewer, sender, says), vplay := m.vplay || says)
  }

  function Published(m: Mode, sender: Host, says: bool): Mode {
    m.(broadcaster := Known(m.broadcaster, sender, says), bpublish := m.bpublish || says)
  }

  function Granted(m: Mode, sender: Host, says: bool): Mode {
    m.(service := Met(m.service, sender, says), vready := m.vready || says)
  }

  function Accepted(m: Mode, sender: Host, says: bool): Mode {
    m.(service := Met(m.service, sender, says), bready := m.bready || says)
  }

  function Begun(m: Mode, says: bool): Mode {
    m.(begin := m.begin || says)
  }

  lemma MetTwice(was: Option<Host>, sender: Host, says: bool, again: bool)
    ensures Met(Met(was, sender, says), sender, again) == Met(was, sender, says || again)
  {
  }

  function Sends(e: Event, t: Tcp): Host {
    Host(e.port, e.src, t.srcIp, t.srcPort)
  }

  lemma RequestTeaches(m: Mode, e: Event, t: Tcp)
    ensures PlayReq(m, e, t).ok ==> t.dstPort == 1935 && PlayReq(m, e, t).mode == Asked(m, Sends(e, t), true)
    ensures PublishReq(m, e, t).ok ==> t.dstPort == 1935 && PublishReq(m, e, t).mode == Published(m, Sends(e, t), true)
  {
  }

  lemma PlayStartTeaches(m: Mode, e: Event, t: Tcp)
    ensures PlayStart(m, e, t).ok ==> t.srcPort == 1935 && PlayStart(m, e, t).mode == Granted(m, Sends(e, t), true)
  {
  }

  lemma PublishStartTeaches(m: Mode, e: Event, t: Tcp)
    ensures PublishStart(m, e, t).ok ==>
      t.srcPort == 1935 && PublishStart(m, e, t).mode == Accepted(m, Sends(e, t), true)
  {
  }

  lemma BeginTeaches(m: Mode, t: Tcp)
    ensures StreamBegin(m, t).ok ==> t.srcPort == 1935 && StreamBegin(m, t).mode == Begun(m, true)
  {
  }

  lemma SilenceTeaches(m: Mode, sender: Host)
    ensures Asked(m, sender, false) == m && Granted(m, sender, false) == m && Published(m, sender, false) == m
    ensures Accepted(m, sender, false) == m && Begun(m, false) == m
  {
  }

  predicate WordTaught(m: Mode, e: Event, t: Tcp, w: Keyword, says: bool, n: Mode) {
    match w
    case PlayReqWord => n == Asked(m, Sends(e, t), says) && (says ==> t.dstPort == 1935)
    case PublishReqWord => n == Published(m, Sends(e, t), says) && (says ==> t.dstPort == 1935)
    case PlayStartWord => n == Granted(m, Sends(e, t), says) && (says ==> t.srcPort == 1935)
    case PublishStartWord => n == Accepted(m, Sends(e, t), says) && (says ==> t.srcPort == 1935)
    case BeginWord => n == Begun(m, says) && (says ==> t.srcPort == 1935)
  }

  lemma SaidTeaches(m: Mode, e: Event, t: Tcp, w: Keyword)
    ensures OnKeyword(m, e, t, w).ok ==> WordTaught(m, e, t, w, true, OnKeyword(m, e, t, w).mode)
  {
    match w
    case PlayReqWord => RequestTeaches(m, e, t);
    case PublishReqWord => RequestTeaches(m, e, t);
    case PlayStartWord => PlayStartTeaches(m, e, t);
    case PublishStartWord => PublishStartTeaches(m, e, t);
    case BeginWord => BeginTeaches(m, t);
  }

  lemma UnsaidTeaches(m: Mode, e: Event, t: Tcp, w: Keyword)
    ensures WordTaught(m, e, t, w, false, m)
  {
    SilenceTeaches(m, Sends(e, t));
  }

  lemma WordTeaches(m: Mode, e: Event, t: Tcp, p: Piece, w: Keyword)
    requires Full(p) && OnWord(m, e, t, p, w).ok
    ensures WordTaught(m, e, t, w, Holds(p, w), OnWord(m, e, t, p, w).mode)
  {
    if Holds(p, w) {
      SaidTeaches(m, e, t, w);
    } else {
      UnsaidTeaches(m, e, t, w);
    }
  }

  lemma ThreeTaught(m: Mode, sender: Host, play: bool, plays: bool, publish: bool)
    ensures Published(Granted(Asked(m, sender, play), sender, plays), sender, publish) ==
            Taught(m, sender, play, plays, publish, false, false)
  {
  }

  lemma TwoMoreTaught(m: Mode, sender: Host, play: bool, plays: bool, publish: bool, publishes: bool, begins: bool)
    ensures Begun(Accepted(Taught(m, sender, play, plays, publish, false, false), sender, publishes), begins) ==
            Taught(m, sender, play, plays, publish, publishes, begins)
  {
    MetTwice(m.service, sender, plays, publishes);
  }

  lemma AllTaught<T>(f: T -> T, g: T -> T, h: T -> T, i: T -> T, j: T -> T, m: T, a: T, b: T, c: T, d: T, n: T,
                     x: T, y: T)
    requires a == f(m) && b == g(a) && c == h(b) && d == i(c) && n == j(d) && h(g(f(m))) == x && j(i(x)) == y
    ensures n == y
  {
  }

  lemma FirstTaught(m: Mode, e: Event, t: Tcp, p: Piece, a: Step, b: Step, c: Step)
    requires Full(p) && a == OnWord(m, e, t, p, PlayReqWord) && a.ok && b == OnWord(a.mode, e, t, p, PlayStartWord)
    requires b.ok && c == OnWord(b.mode, e, t, p, PublishReqWord) && c.ok
    ensures a.mode == Asked(m, Sends(e, t), Holds(p, PlayReqWord))
    ensures b.mode == Granted(a.mode, Sends(e, t), Holds(p, PlayStartWord))
    ensures c.mode == Published(b.mode, Sends(e, t), Holds(p, PublishReqWord))
    ensures Holds(p, PlayReqWord) || Holds(p, PublishReqWord) ==> t.dstPort == 1935
    ensures Holds(p, PlayStartWord) ==> t.srcPort == 1935
  {
    WordTeaches(m, e, t, p, PlayReqWord);
    WordTeaches(a.mode, e, t, p, PlayStartWord);
    WordTeaches(b.mode, e, t, p, PublishReqWord);
  }

  lemma LastTaught(c: Mode, e: Event, t: Tcp, p: Piece, d: Step, n: Step)
    requires Full(p) && d == OnWord(c, e, t, p, PublishStartWord) && d.ok && n == OnWord(d.mode, e, t, p, BeginWord)
    requires n.ok
    ensures d.mode == Accepted(c, Sends(e, t), Holds(p, PublishStartWord))
    ensures n.mode == Begun(d.mode, Holds(p, BeginWord))
    ensures Holds(p, PublishStartWord) || Holds(p, BeginWord) ==> t.srcPort == 1935
  {
    WordTeaches(c, e, t, p, PublishStartWord);
    WordTeaches(d.mode, e, t, p, BeginWord);
  }

  lemma WordsTogether(m: Mode, sender: Host, play: bool, plays: bool, publish: bool, publishes: bool, begins: bool,
                      a: Mode, b: Mode, c: Mode, d: Mode, n: Mode)
    requires a == Asked(m, sender, play) && b == Granted(a, sender, plays) && c == Published(b, sender, publish)
    requires d == Accepted(c, sender, publishes) && n == Begun(d, begins)
    ensures n == Taught(m, sender, play, plays, publish, publishes, begins)
  {
    ThreeTaught(m, sender, play, plays, publish);
    TwoMoreTaught(m, sender, play, plays, publish, publishes, begins);
    AllTaught((x: Mode) => Asked(x, sender, play), (x: Mode) => Granted(x, sender, plays),
              (x: Mode) => Published(x, sender, publish), (x: Mode) => Accepted(x, sender, publishes),
              (x: Mode) => Begun(x, begins), m, a, b, c, d, n, Taught(m, sender, play, plays, publish, false, false),
              Taught(m, sender, play, plays, publish, publishes, begins));
  }

  /** What one packet teaches, if none of its checks fails. */
  lemma PieceTeaches(m: Mode, e: Event, t: Tcp, p: Piece)
    requires Full(p) && OnPiece(m, e, t, p).ok
    ensures Teaches(m, e, t, p, OnPiece(m, e, t, p).mode)
  {
    WordsAreHeard(p);
    var a, b, c, d := FiveWords(m, e, t, p);
    FirstTaught(m, e, t, p, a, b, c);
    LastTaught(c.mode, e, t, p, d, OnPiece(m, e, t, p));
    WordsTogether(m, Sends(e, t), Holds(p, PlayReqWord), Holds(p, PlayStartWord), Holds(p, PublishReqWord),
                  Holds(p, PublishStartWord), Holds(p, BeginWord), a.mode, b.mode, c.mode, d.mode,
                  OnPiece(m, e, t, p).mode);
  }

  // ---------------------------------------------------------------- whole runs

  /** Only RTMP segments of an undecided switch teach anything; every packet's source is learned. */
  lemma OnlyRtmpTeaches(e: Event, was: Memory, now: Memory, done: Done)
    requires Safe(was.mode) && Effect(e, was, now, done)
    ensures now.ports == was.ports[e.src := e.port]
    ensures now.mode != was.mode || now.prepended != was.prepended ==>
      && e.tcp.Some? && (e.tcp.value.srcPort == 1935 || e.tcp.value.dstPort == 1935)
      && !was.mode.p2pEnabled && !was.mode.p2pSetOff
  {
  }

  /** The end of a payload that passed all checks decides: to steer once both streams are granted, not to
      once one began and the broadcaster is not known to be granted. */
  lemma ContentDecides(m: Mode, e: Event, t: Tcp, content: Bytes)
    requires Safe(m) && !Decided(m) && Pieces(content).Some? && OnContent(m, e, t, content).ok
    ensures var n := OnContent(m, e, t, content).mode;
      (n.p2pEnabled <==> n.vready && n.bready) && (n.p2pSetOff <==> n.begin && !n.bready)
  {
    PiecesAreFull(content);
    OnPiecesKeeps(m, e, t, Pieces(content).value);
  }

  function Content(prepended: Option<Bytes>, t: Tcp): Bytes {
    if prepended.Some? then prepended.value + t.payload else t.payload
  }

  ghost predicate SomeGrantsPlay(pieces: seq<Piece>) {
    exists k | 0 <= k < |pieces| :: GrantsPlay(pieces[k])
  }

  ghost predicate SomeGrantsPublish(pieces: seq<Piece>) {
    exists k | 0 <= k < |pieces| :: GrantsPublish(pieces[k])
  }

  /** A segment from the RTMP port that grants a viewer its stream. */
  ghost predicate HeardPlay(e: Event, was: Memory) {
    && e.tcp.Some? && e.tcp.value.srcPort == 1935
    && var pieces := Pieces(Content(was.prepended, e.tcp.value)); pieces.Some? && SomeGrantsPlay(pieces.value)
  }

  ghost predicate HeardPublish(e: Event, was: Memory) {
    && e.tcp.Some? && e.tcp.value.srcPort == 1935
    && var pieces := Pieces(Content(was.prepended, e.tcp.value)); pieces.Some? && SomeGrantsPublish(pieces.value)
  }

  predicate Grants(m: Mode, t: Tcp, p: Piece, n: Mode)
    requires Full(p)
  {
    && (n.vready ==> m.vready || (t.srcPort == 1935 && Holds(p, PlayStartWord)))
    && (n.bready ==> m.bready || (t.srcPort == 1935 && Holds(p, PublishStartWord)))
  }

  lemma WordGrants(m: Mode, e: Event, t: Tcp, p: Piece, w: Keyword)
    requires Full(p)
    ensures Grants(m, t, p, OnWord(m, e, t, p, w).mode)
  {
    match w
    case PlayReqWord =>
    case PlayStartWord =>
    case PublishReqWord =>
    case PublishStartWord =>
    case BeginWord =>
  }

  lemma {:induction false} WordsGrant(m: Mode, e: Event, t: Tcp, p: Piece, words: seq<Keyword>)
    requires Full(p)
    ensures Grants(m, t, p, OnWords(m, e, t, p, words).mode)
    decreases |words|
  {
    if words != [] {
      var s := OnWord(m, e, t, p, words[0]);
      WordGrants(m, e, t, p, words[0]);
      OneWord(m, e, t, p, words[0], words[1..]);
      assert [words[0]] + words[1..] == words;
      if s.ok {
        WordsGrant(s.mode, e, t, p, words[1..]);
      }
    }
  }

  lemma {:induction false} PiecesGrant(m: Mode, e: Event, t: Tcp, pieces: seq<Piece>)
    requires AllFull(pieces)
    ensures var n := OnPieces(m, e, t, pieces).mode;
      && (n.vready ==> m.vready || (t.srcPort == 1935 && SomeGrantsPlay(pieces)))
      && (n.bready ==> m.bready || (t.srcPort == 1935 && SomeGrantsPublish(pieces)))
    decreases |pieces|
  {
    if pieces != [] {
      WordsAreHeard(pieces[0]);
      WordsGrant(m, e, t, pieces[0], KEYWORDS);
      var s := OnPiece(m, e, t, pieces[0]);
      if s.ok {
        PiecesGrant(s.mode, e, t, pieces[1..]);
        SomeOfRest(pieces);
      }
    }
  }

  lemma SomeOfRest(pieces: seq<Piece>)
    requires pieces != []
    ensures SomeGrantsPlay(pieces[1..]) ==> SomeGrantsPlay(pieces)
    ensures SomeGrantsPublish(pieces[1..]) ==> SomeGrantsPublish(pieces)
  {
    if k :| 0 <= k < |pieces| - 1 && GrantsPlay(pieces[1..][k]) {
      assert GrantsPlay(pieces[k + 1]);
    }
    if k :| 0 <= k < |pieces| - 1 && GrantsPublish(pieces[1..][k]) {
      assert GrantsPublish(pieces[k + 1]);
    }
  }

  lemma PacketGrants(e: Event, was: Memory, now: Memory, done: Done)
    requires Safe(was.mode) && Effect(e, was, now, done)
    ensures now.mode.vready ==> was.mode.vready || HeardPlay(e, was)
    ensures now.mode.bready ==> was.mode.bready || HeardPublish(e, was)
  {
    if now.mode != was.mode {
      var t := e.tcp.value;
      var content := Content(was.prepended, t);
      assert now.mode == OnContent(was.mode, e, t, content).mode;
      if Pieces(content).Some? {
        PiecesAreFull(content);
        PiecesGrant(was.mode, e, t, Pieces(content).value);
      }
    }
  }

  ghost predicate IsRun(events: seq<Event>, trace: seq<Memory>, done: seq<Done>) {
    && |trace| == |events| + 1 && |done| == |events|
    && (forall n | 0 <= n < |trace| :: Safe(trace[n].mode))
    && forall n | 0 <= n < |events| :: Effect(events[n], trace[n], trace[n + 1], done[n])
  }

  lemma {:induction false} ReadyWasGranted(events: seq<Event>, trace: seq<Memory>, done: seq<Done>, n: nat)
    requires IsRun(events, trace, done) && n < |trace| && !trace[0].mode.vready && !trace[0].mode.bready
    ensures trace[n].mode.vready ==> exists i | 0 <= i < n :: HeardPlay(events[i], trace[i])
    ensures trace[n].mode.bready ==> exists i | 0 <= i < n :: HeardPublish(events[i], trace[i])
  {
    if n > 0 {
      ReadyWasGranted(events, trace, done, n - 1);
      assert Effect(events[n - 1], trace[n - 1], trace[n - 1 + 1], done[n - 1]);
      PacketGrants(events[n - 1], trace[n - 1], trace[n], done[n - 1]);
    }
  }

  /** In every run: the switch steers only after the service has granted both streams, in its own words
      and from its own port. */
  lemma SteeringWasGranted(events: seq<Event>, trace: seq<Memory>, done: seq<Done>, n: nat)
    requires IsRun(events, trace, done) && n < |trace| && !trace[0].mode.vready && !trace[0].mode.bready
    requires trace[n].mode.p2pEnabled
    ensures exists i | 0 <= i < n :: HeardPlay(events[i], trace[i])
    ensures exists i | 0 <= i < n :: HeardPublish(events[i], trace[i])
  {
    assert Safe(trace[n].mode);
    ReadyWasGranted(events, trace, done, n);
  }

  // ---------------------------------------------------------------- it does steer

  ghost predicate OnlySays(p: Piece, play: bool, plays: bool, publish: bool, publishes: bool) {
    && (AsksToPlay(p) <==> play) && (GrantsPlay(p) <==> plays) && (AsksToPublish(p) <==> publish)
    && (GrantsPublish(p) <==> publishes) && !Begins(p)
  }

  lemma OnlyWord(m: Mode, e: Event, t: Tcp, p: Piece, w: Keyword)
    requires Full(p) && forall v :: Holds(p, v) <==> v == w
    ensures OnPiece(m, e, t, p) == OnKeyword(m, e, t, w)
  {
    var s := OnWord(m, e, t, p, PlayReqWord);
    OneWord(m, e, t, p, PlayReqWord, [PlayStartWord, PublishReqWord, PublishStartWord, BeginWord]);
    OneWord(s.mode, e, t, p, PlayStartWord, [PublishReqWord, PublishStartWord, BeginWord]);
    var u := OnWord(s.mode, e, t, p, PlayStartWord);
    OneWord(u.mode, e, t, p, PublishReqWord, [PublishStartWord, BeginWord]);
    var v := OnWord(u.mode, e, t, p, PublishReqWord);
    OneWord(v.mode, e, t, p, PublishStartWord, [BeginWord]);
    OneWord(OnWord(v.mode, e, t, p, PublishStartWord).mode, e, t, p, BeginWord, []);
  }

  /** An RTMP segment, nothing kept before it, that is one packet. */
  ghost predicate OnePiece(e: Event, t: Tcp, was: Memory, p: Piece) {
    && e.tcp == Some(t) && t.srcPort != t.dstPort && (t.srcPort == 1935 || t.dstPort == 1935)
    && |t.payload| !in {0, 12, 88, 89} && was.prepended == None && Pieces(t.payload) == Some([p])
  }

  lemma OnePieceIsFull(t: Tcp, p: Piece)
    requires Pieces(t.payload) == Some([p])
    ensures Full(p)
  {
    PiecesAreFull(t.payload);
    assert [p][0] == p;
  }

  lemma OnePieceEffect(e: Event, t: Tcp, p: Piece, w: Keyword, was: Memory, now: Memory, done: Done)
    requires Safe(was.mode) && !Decided(was.mode) && Effect(e, was, now, done) && OnePiece(e, t, was, p)
    requires Full(p) && (forall v :: Holds(p, v) <==> v == w) && OnKeyword(was.mode, e, t, w).ok
    ensures now.mode == Decide(OnKeyword(was.mode, e, t, w).mode) && now.prepended == None && done.ok
  {
    OnlyWord(was.mode, e, t, p, w);
    PiecesAreFull(t.payload);
    assert [p][1..] == [];
    var s := OnPiece(was.mode, e, t, p);
    assert OnPieces(s.mode, e, t, []) == Step(s.mode, true);
    assert OnPieces(was.mode, e, t, [p]) == Step(s.mode, true);
  }

  const FRESH := Mode(None, None, None, false, false, false, false, false, false, false)

  /** The switch after a viewer was granted its stream. */
  function ViewerGranted(viewer: Host, service: Host): Mode {
    FRESH.(viewer := Some(viewer), vplay := true, service := Some(service), vready := true)
  }

  lemma ViewerIsGranted(e: Event, t: Tcp, p: Piece, f: Event, u: Tcp, q: Piece, m0: Memory, m1: Memory, m2: Memory,
                        d1: Done, d2: Done)
    requires m0.mode == FRESH && Effect(e, m0, m1, d1) && Safe(m1.mode) && Effect(f, m1, m2, d2)
    requires OnePiece(e, t, m0, p) && OnePiece(f, u, m1, q)
    requires OnlySays(p, true, false, false, false) && OnlySays(q, false, true, false, false)
    requires t.dstPort == 1935 == u.srcPort
    ensures m2.mode == ViewerGranted(Sends(e, t), Sends(f, u)) && m2.prepended == None && d1.ok && d2.ok
  {
    OnePieceIsFull(t, p);
    OnePieceIsFull(u, q);
    WordsAreHeard(p);
    WordsAreHeard(q);
    OnePieceEffect(e, t, p, PlayReqWord, m0, m1, d1);
    assert m1.mode == FRESH.(viewer := Some(Sends(e, t)), vplay := true);
    OnePieceEffect(f, u, q, PlayStartWord, m1, m2, d2);
  }

  /** Steering happens.  A viewer asks for the stream and is granted it, a broadcaster asks to publish it
      and is granted that by the same host: then, and with the last of these packets, the switch steers
      between the two. */
  lemma FourPacketsSteer(es: seq<Event>, ts: seq<Tcp>, ps: seq<Piece>, trace: seq<Memory>, done: seq<Done>)
    requires |es| == |ts| == |ps| == 4 && IsRun(es, trace, done) && trace[0].mode == FRESH
    requires forall i | 0 <= i < 4 :: OnePiece(es[i], ts[i], trace[i], ps[i])
    requires OnlySays(ps[0], true, false, false, false) && OnlySays(ps[1], false, true, false, false)
    requires OnlySays(ps[2], false, false, true, false) && OnlySays(ps[3], false, false, false, true)
    requires ts[0].dstPort == 1935 && ts[1].srcPort == 1935 && ts[2].dstPort == 1935 && ts[3].srcPort == 1935
    requires es[3].port == es[1].port && es[3].src == es[1].src && ts[3].srcIp == ts[1].srcIp
    ensures !trace[3].mode.p2pEnabled && trace[4].mode.p2pEnabled && !trace[4].mode.p2pSetOff
    ensures trace[4].mode.viewer == Some(Host(es[0].port, es[0].src, ts[0].srcIp, ts[0].srcPort))
    ensures trace[4].mode.broadcaster == Some(Host(es[2].port, es[2].src, ts[2].srcIp, ts[2].srcPort))
    ensures trace[4].mode.service == Some(Host(es[1].port, es[1].src, ts[1].srcIp, 1935))
  {
    assert Effect(es[0], trace[0], trace[0 + 1], done[0]) && Effect(es[1], trace[1], trace[1 + 1], done[1]);
    assert Effect(es[2], trace[2], trace[2 + 1], done[2]) && Effect(es[3], trace[3], trace[3 + 1], done[3]);
    ViewerIsGranted(es[0], ts[0], ps[0], es[1], ts[1], ps[1], trace[0], trace[1], trace[2], done[0], done[1]);
    BroadcasterIsGranted(es[2], ts[2], ps[2], es[3], ts[3], ps[3], trace[2], trace[3], trace[4], done[2], done[3],
                         Sends(es[0], ts[0]), Sends(es[1], ts[1]));
  }

  lemma BroadcasterIsGranted(e: Event, t: Tcp, p: Piece, f: Event, u: Tcp, q: Piece, m2: Memory, m3: Memory,
                             m4: Memory, d3: Done, d4: Done, viewer: Host, service: Host)
    requires m2.mode == ViewerGranted(viewer, service) && Effect(e, m2, m3, d3)
    requires Safe(m3.mode) && Effect(f, m3, m4, d4)
    requires OnePiece(e, t, m2, p) && OnePiece(f, u, m3, q)
    requires OnlySays(p, false, false, true, false) && OnlySays(q, false, false, false, true)
    requires t.dstPort == 1935 == u.srcPort && Sends(f, u) == service
    ensures m3.mode == m2.mode.(broadcaster := Some(Sends(e, t)), bpublish := true)
    ensures m4.mode == m3.mode.(bready := true, p2pEnabled := true)
  {
    OnePieceIsFull(t, p);
    OnePieceIsFull(u, q);
    WordsAreHeard(p);
    WordsAreHeard(q);
    OnePieceEffect(e, t, p, PublishReqWord, m2, m3, d3);
    assert m3.mode == m2.mode.(broadcaster := Some(Sends(e, t)), bpublish := true);
    OnePieceEffect(f, u, q, PublishStartWord, m3, m4, d4);
  }
}
