/** Cutting the byte stream of a control connection into messages: Connection.read of
    pox/openflow/of_01.py, for any table of unpackers. */
module StreamReader {
  import opened Wrappers
  import opened WireBytes

  const OFP_VERSION: bv8 := 1
  const OFPT_HELLO: bv8 := 0

  /** What an unpacker makes of the buffer from some offset on. */
  datatype Unpacked<M> = Unpacked(consumed: nat, msg: M) | Raised

  /** The unpackers, and what handling a message does to the handler table. */
  datatype Codec<!T, !M> = Codec(unpack: Bytes -> Unpacked<M>, after: (T, M) -> T)

  function Length(b: Bytes): nat
    requires |b| >= 8
  {
    GetShort(b[2..4])
  }

  /** Another version is let through in a HELLO only. */
  predicate Acceptable(b: Bytes)
    requires |b| >= 8
  {
    b[0] == OFP_VERSION || b[1] == OFPT_HELLO
  }

  /** What stands at the front of the buffer: not enough yet, the end of the connection, or a message. */
  datatype Front<M> = Wait | Drop | Take(msg: M)

  function Next<T, M>(c: Codec<T, M>, b: Bytes): (r: Front<M>)
    ensures r.Take? ==> 8 <= |b| && Length(b) <= |b|
  {
    if |b| < 8 then Wait
    else if !Acceptable(b) then Drop
    else if |b| < Length(b) then Wait
    else
      var u := c.unpack(b);
      if u.Raised? || u.consumed != Length(b) then Drop else Take(u.msg)
  }

  // ---------------------------------------------------------------- turns of the loop

  /** The loop between two turns, or after its end.  Each message is logged with the handler table
      that was in force for it. */
  datatype Loop<T, M> =
    | Turning(buf: Bytes, table: T, log: seq<(T, M)>)
    | Ended(open: bool, buf: Bytes, table: T, log: seq<(T, M)>)

  function Turn<T, M>(c: Codec<T, M>, l: Loop<T, M>): Loop<T, M> {
    if l.Ended? then l
    else
      match Next(c, l.buf)
      case Wait => Ended(true, l.buf, l.table, l.log)
      case Drop => Ended(false, l.buf, l.table, l.log)
      case Take(msg) => Turning(l.buf[Length(l.buf)..], c.after(l.table, msg), l.log + [(l.table, msg)])
  }

  function Turns<T, M>(c: Codec<T, M>, l: Loop<T, M>, n: nat): Loop<T, M>
    decreases n
  {
    if n == 0 then l else Turns(c, Turn(c, l), n - 1)
  }

  ghost predicate Ends<T(!new), M(!new)>(c: Codec<T, M>, l: Loop<T, M>) {
    exists n: nat :: Turns(c, l, n).Ended?
  }

  // ---------------------------------------------------------------- where the loop leads

  /** Hung: the loop takes the same empty message over and over. */
  datatype Status = Open | Dropped | Hung

  datatype State<T, M> = State(status: Status, buf: Bytes, table: T, log: seq<(T, M)>)

  /** What the loop leads to.  When it hangs, this is the state after the first time it took the message it repeats. */
  function Outcome<T, M>(c: Codec<T, M>, b: Bytes, table: T, log: seq<(T, M)>): State<T, M>
    decreases |b|
  {
    match Next(c, b)
    case Wait => State(Open, b, table, log)
    case Drop => State(Dropped, [], table, log)
    case Take(msg) =>
      if Length(b) == 0 then State(Hung, [], c.after(table, msg), log + [(table, msg)])
      else Outcome(c, b[Length(b)..], c.after(table, msg), log + [(table, msg)])
  }

  /** Some message the loop reaches unpacks although its header gives it no length. */
  predicate ReachesEmpty<T, M>(c: Codec<T, M>, b: Bytes)
    decreases |b|
  {
    Next(c, b).Take? && (Length(b) == 0 || ReachesEmpty(c, b[Length(b)..]))
  }

  lemma {:induction false} EndedStays<T, M>(c: Codec<T, M>, l: Loop<T, M>, n: nat)
    requires l.Ended?
    ensures Turns(c, l, n) == l
    decreases n
  {
    if n > 0 {
      EndedStays(c, l, n - 1);
    }
  }

  lemma {:induction false} EmptyRepeats<T, M>(c: Codec<T, M>, l: Loop<T, M>, n: nat)
    requires l.Turning? && Next(c, l.buf).Take? && Length(l.buf) == 0
    ensures Turns(c, l, n).Turning? && Turns(c, l, n).buf == l.buf && |Turns(c, l, n).log| == |l.log| + n
    decreases n
  {
    if n > 0 {
      assert l.buf[0..] == l.buf;
      EmptyRepeats(c, Turn(c, l), n - 1);
    }
  }

  lemma {:induction false} NeverEnds<T, M>(c: Codec<T, M>, l: Loop<T, M>, n: nat)
    requires l.Turning? && ReachesEmpty(c, l.buf)
    ensures Turns(c, l, n).Turning?
    decreases n
  {
    if Length(l.buf) == 0 {
      EmptyRepeats(c, l, n);
    } else if n > 0 {
      NeverEnds(c, Turn(c, l), n - 1);
    }
  }

  lemma {:induction false} EndsAtOutcome<T, M>(c: Codec<T, M>, l: Loop<T, M>) returns (n: nat)
    requires l.Turning? && !ReachesEmpty(c, l.buf)
    ensures var s, e := Outcome(c, l.buf, l.table, l.log), Turns(c, l, n);
      && e.Ended? && e.table == s.table && e.log == s.log
      && s.status == (if e.open then Open else Dropped) && (e.open ==> e.buf == s.buf)
    decreases |l.buf|
  {
    if Next(c, l.buf).Take? {
      n := EndsAtOutcome(c, Turn(c, l));
      n := n + 1;
    } else {
      n := 1;
      assert Turns(c, Turn(c, l), 0) == Turn(c, l);
    }
  }

  lemma {:induction false} HangsAtEmpty<T, M>(c: Codec<T, M>, b: Bytes, table: T, log: seq<(T, M)>)
    ensures Outcome(c, b, table, log).status.Hung? <==> ReachesEmpty(c, b)
    decreases |b|
  {
    if Next(c, b).Take? && Length(b) > 0 {
      var msg := Next(c, b).msg;
      HangsAtEmpty(c, b[Length(b)..], c.after(table, msg), log + [(table, msg)]);
    }
  }

  /** The loop ends exactly when it reaches no message without length that unpacks; it then ends
      with the outcome. */
  lemma LoopEndsUnlessEmpty<T(!new), M(!new)>(c: Codec<T, M>, b: Bytes, table: T, log: seq<(T, M)>)
    ensures Ends(c, Turning(b, table, log)) <==> !ReachesEmpty(c, b)
    ensures Ends(c, Turning(b, table, log)) <==> !Outcome(c, b, table, log).status.Hung?
  {
    HangsAtEmpty(c, b, table, log);
    var l: Loop<T, M> := Turning(b, table, log);
    if ReachesEmpty(c, b) {
      forall n: nat ensures !Turns(c, l, n).Ended? {
        NeverEnds(c, l, n);
      }
    } else {
      var n := EndsAtOutcome(c, l);
    }
  }

  // ---------------------------------------------------------------- reads

  /** One read. */
  function Feed<T, M>(c: Codec<T, M>, s: State<T, M>, chunk: Bytes): State<T, M> {
    if s.status.Open? then Outcome(c, s.buf + chunk, s.table, s.log) else s
  }

  function FeedAll<T, M>(c: Codec<T, M>, s: State<T, M>, chunks: seq<Bytes>): State<T, M>
    decreases |chunks|
  {
    if chunks == [] then s else FeedAll(c, Feed(c, s, chunks[0]), chunks[1..])
  }

  function Concat(parts: seq<Bytes>): Bytes {
    if parts == [] then [] else parts[0] + Concat(parts[1..])
  }

  /** A new connection. */
  function Fresh<T, M>(table: T): State<T, M> {
    State(Open, [], table, [])
  }

  /** What one read of the socket gives at most. */
  const RECV: nat := 2048

  /** The stream, cut into chunks that reads can give. */
  ghost predicate Cuts(chunks: seq<Bytes>, x: Bytes, limit: nat) {
    Concat(chunks) == x && forall i | 0 <= i < |chunks| :: 1 <= |chunks[i]| <= limit
  }

  /** All ways to cut the stream have the same fate. */
  ghost predicate SurvivesCuts<T, M(!new)>(c: Codec<T, M>, x: Bytes, table: T, limit: nat) {
    forall cs, ds | Cuts(cs, x, limit) && Cuts(ds, x, limit) ::
      FeedAll(c, Fresh(table), cs) == FeedAll(c, Fresh(table), ds)
  }

  // ---------------------------------------------------------------- when cutting is harmless

  /** How many bytes decide what is in front: a header, and a message of an accepted version. */
  function Need(b: Bytes): (n: nat)
    ensures n >= 8
  {
    if |b| < 8 || !Acceptable(b) || Length(b) < 8 then 8 else Length(b)
  }

  lemma SameHeader(a: Bytes, b: Bytes)
    requires |a| >= 8
    ensures Length(a + b) == Length(a) && Acceptable(a + b) == Acceptable(a)
  {
    assert (a + b)[2..4] == a[2..4];
  }

  lemma NeedStays(a: Bytes, b: Bytes)
    ensures Need(a + b) >= Need(a)
    ensures |a| >= 8 ==> Need(a + b) == Need(a)
  {
    if |a| >= 8 {
      SameHeader(a, b);
    }
  }

  lemma WaitsForNeed<T, M>(c: Codec<T, M>, b: Bytes)
    ensures Next(c, b).Wait? <==> |b| < Need(b)
  {
  }

  /** The fate of a stream that comes byte by byte: every message is judged as soon as it is complete. */
  function Slowly<T, M>(c: Codec<T, M>, b: Bytes, table: T, log: seq<(T, M)>): State<T, M>
    decreases |b|
  {
    if |b| < Need(b) then State(Open, b, table, log)
    else
      SameHeader(b[..Need(b)], b[Need(b)..]);
      assert b[..Need(b)] + b[Need(b)..] == b;
      match Next(c, b[..Need(b)])
      case Wait => State(Open, b, table, log)
      case Drop => State(Dropped, [], table, log)
      case Take(msg) =>
        if Length(b) == 0 then State(Hung, [], c.after(table, msg), log + [(table, msg)])
        else Slowly(c, b[Length(b)..], c.after(table, msg), log + [(table, msg)])
  }

  /** The message in front has another fate when n bytes have come than as soon as it is complete. */
  predicate WeakAt<T(==), M(==)>(c: Codec<T, M>, x: Bytes, n: nat, limit: nat) {
    Need(x) <= n <= |x| && n < Need(x) + limit && Next(c, x[..n]) != Next(c, x[..Need(x)])
  }

  /** The message in front has the same fate whatever of what follows has arrived with its last byte. */
  ghost predicate SteadyFront<T, M>(c: Codec<T, M>, x: Bytes, limit: nat) {
    forall n: nat :: !WeakAt(c, x, n, limit)
  }

  predicate TakesFront<T, M>(c: Codec<T, M>, x: Bytes) {
    |x| >= Need(x) && Next(c, x[..Need(x)]).Take? && Length(x) > 0
  }

  lemma FrontIsInside<T, M>(c: Codec<T, M>, x: Bytes)
    requires TakesFront(c, x)
    ensures 0 < Length(x) <= Need(x) <= |x|
  {
    SameHeader(x[..Need(x)], x[Need(x)..]);
    assert x[..Need(x)] + x[Need(x)..] == x;
  }

  /** So has every message the stream reaches. */
  ghost predicate Steady<T, M>(c: Codec<T, M>, x: Bytes, limit: nat)
    decreases |x|
  {
    && SteadyFront(c, x, limit)
    && (TakesFront(c, x) ==> (FrontIsInside(c, x); Steady(c, x[Length(x)..], limit)))
  }

  /** What is in the buffer after a read: a part that waited and at most one chunk. */
  predicate Fits(b: Bytes, limit: nat) {
    |b| < Need(b) + limit
  }

  lemma FrontOfPrefix<T, M>(c: Codec<T, M>, a: Bytes, b: Bytes, limit: nat)
    requires SteadyFront(c, a + b, limit) && Fits(a, limit) && !Next(c, a).Wait?
    ensures Need(a + b) == Need(a) <= |a| && Next(c, (a + b)[..Need(a)]) == Next(c, a) && Length(a + b) == Length(a)
  {
    WaitsForNeed(c, a);
    NeedStays(a, b);
    SameHeader(a, b);
    assert (a + b)[..|a|] == a;
    assert !WeakAt(c, a + b, |a|, limit);
  }

  /** After a read the stream goes on as if it had come byte by byte. */
  lemma {:induction false} ReadGoesOn<T, M>(
      c: Codec<T, M>, a: Bytes, b: Bytes, table: T, log: seq<(T, M)>, limit: nat)
    requires Steady(c, a + b, limit) && Fits(a, limit)
    ensures var first := Outcome(c, a, table, log);
      if first.status.Open? then
        && |first.buf| < Need(first.buf) && Steady(c, first.buf + b, limit)
        && Slowly(c, a + b, table, log) == Slowly(c, first.buf + b, first.table, first.log)
      else Slowly(c, a + b, table, log) == first
    decreases |a|
  {
    WaitsForNeed(c, a);
    if !Next(c, a).Wait? {
      FrontOfPrefix(c, a, b, limit);
      if Next(c, a).Take? && Length(a) > 0 {
        var n, msg := Length(a), Next(c, a).msg;
        assert (a + b)[n..] == a[n..] + b;
        ReadGoesOn(c, a[n..], b, c.after(table, msg), log + [(table, msg)], limit);
      }
    }
  }

  lemma {:induction false} EndStays<T, M>(c: Codec<T, M>, s: State<T, M>, chunks: seq<Bytes>)
    requires !s.status.Open?
    ensures FeedAll(c, s, chunks) == s
    decreases |chunks|
  {
    if chunks != [] {
      EndStays(c, s, chunks[1..]);
    }
  }

  /** However a steady stream is cut, its fate is that of coming byte by byte. */
  lemma {:induction false} ChunksDoNotMatter<T, M>(c: Codec<T, M>, s: State<T, M>, chunks: seq<Bytes>, limit: nat)
    requires s.status.Open? && |s.buf| < Need(s.buf) && Steady(c, s.buf + Concat(chunks), limit)
    requires forall i | 0 <= i < |chunks| :: |chunks[i]| <= limit
    ensures FeedAll(c, s, chunks) == Slowly(c, s.buf + Concat(chunks), s.table, s.log)
    decreases |chunks|
  {
    if chunks == [] {
      assert s.buf + [] == s.buf;
    } else {
      var b, rest := s.buf + chunks[0], Concat(chunks[1..]);
      var first := Feed(c, s, chunks[0]);
      assert b + rest == s.buf + Concat(chunks);
      NeedStays(s.buf, chunks[0]);
      ReadGoesOn(c, b, rest, s.table, s.log, limit);
      if first.status.Open? {
        ChunksDoNotMatter(c, first, chunks[1..], limit);
      } else {
        EndStays(c, first, chunks[1..]);
      }
    }
  }

  // ---------------------------------------------------------------- byte by byte

  function Singles(x: Bytes): seq<Bytes> {
    seq(|x|, i requires 0 <= i < |x| => [x[i]])
  }

  lemma {:induction false} SinglesJoin(x: Bytes)
    ensures Concat(Singles(x)) == x
  {
    if x != [] {
      assert Singles(x)[1..] == Singles(x[1..]);
      SinglesJoin(x[1..]);
      assert [x[0]] + x[1..] == x;
    }
  }

  lemma {:induction false} SteadyByBytes<T, M>(c: Codec<T, M>, x: Bytes)
    ensures Steady(c, x, 1)
    decreases |x|
  {
    if TakesFront(c, x) {
      FrontIsInside(c, x);
      SteadyByBytes(c, x[Length(x)..]);
    }
  }

  lemma BytesComeSlowly<T, M>(c: Codec<T, M>, s: State<T, M>, x: Bytes)
    requires s.status.Open? && |s.buf| < Need(s.buf)
    ensures FeedAll(c, s, Singles(x)) == Slowly(c, s.buf + x, s.table, s.log)
  {
    SinglesJoin(x);
    SteadyByBytes(c, s.buf + x);
    ChunksDoNotMatter(c, s, Singles(x), 1);
  }

  // ---------------------------------------------------------------- and when cutting matters

  lemma {:induction false} LogGrows<T, M>(c: Codec<T, M>, b: Bytes, table: T, log: seq<(T, M)>)
    ensures var r, f := Outcome(c, b, table, log).log, Next(c, b);
      && |log| <= |r| && r[..|log|] == log
      && (f.Take? <==> |log| < |r|) && (f.Take? ==> r[|log|] == (table, f.msg))
    decreases |b|
  {
    if Next(c, b).Take? && Length(b) > 0 {
      var entry := (table, Next(c, b).msg);
      LogGrows(c, b[Length(b)..], c.after(table, entry.1), log + [entry]);
      assert (log + [entry])[..|log|] == log;
      var r := Outcome(c, b, table, log).log;
      assert r[..|log| + 1][..|log|] == r[..|log|];
    }
  }

  lemma {:induction false} SlowlyGrows<T, M>(c: Codec<T, M>, b: Bytes, table: T, log: seq<(T, M)>)
    ensures var r := Slowly(c, b, table, log).log; |log| <= |r| && r[..|log|] == log
    decreases |b|
  {
    if TakesFront(c, b) {
      FrontIsInside(c, b);
      var entry := (table, Next(c, b[..Need(b)]).msg);
      SlowlyGrows(c, b[Length(b)..], c.after(table, entry.1), log + [entry]);
      assert (log + [entry])[..|log|] == log;
      var r := Slowly(c, b, table, log).log;
      assert r[..|log| + 1][..|log|] == r[..|log|];
    }
  }

  lemma SlowlyShowsFront<T, M>(c: Codec<T, M>, b: Bytes, table: T, log: seq<(T, M)>)
    requires |b| >= Need(b)
    ensures var r, f := Slowly(c, b, table, log).log, Next(c, b[..Need(b)]);
      (f.Take? <==> |log| < |r|) && (f.Take? ==> r[|log|] == (table, f.msg))
  {
    WaitsForNeed(c, b[..Need(b)]);
    NeedStays(b[..Need(b)], b[Need(b)..]);
    assert b[..Need(b)] + b[Need(b)..] == b;
    if TakesFront(c, b) {
      FrontIsInside(c, b);
      var entry := (table, Next(c, b[..Need(b)]).msg);
      SlowlyGrows(c, b[Length(b)..], c.after(table, entry.1), log + [entry]);
      var r := Slowly(c, b, table, log).log;
      assert r[..|log| + 1][|log|] == r[|log|];
    }
  }

  lemma {:induction false} FeedingGrows<T, M>(c: Codec<T, M>, s: State<T, M>, chunks: seq<Bytes>)
    ensures var r := FeedAll(c, s, chunks).log; |s.log| <= |r| && r[..|s.log|] == s.log
    decreases |chunks|
  {
    if chunks != [] {
      var t := Feed(c, s, chunks[0]);
      if s.status.Open? {
        LogGrows(c, s.buf + chunks[0], s.table, s.log);
      }
      FeedingGrows(c, t, chunks[1..]);
      var r := FeedAll(c, s, chunks).log;
      assert r[..|t.log|][..|s.log|] == r[..|s.log|];
    }
  }

  lemma {:induction false} FeedBoth<T, M>(c: Codec<T, M>, s: State<T, M>, first: seq<Bytes>, more: seq<Bytes>)
    ensures FeedAll(c, s, first + more) == FeedAll(c, FeedAll(c, s, first), more)
    decreases |first|
  {
    if first == [] {
      assert first + more == more;
    } else {
      assert (first + more)[1..] == first[1..] + more;
      FeedBoth(c, Feed(c, s, first[0]), first[1..], more);
    }
  }

  lemma {:induction false} ConcatBoth(a: seq<Bytes>, b: seq<Bytes>)
    ensures Concat(a + b) == Concat(a) + Concat(b)
  {
    if a == [] {
      assert a + b == b;
    } else {
      assert (a + b)[1..] == a[1..] + b;
      ConcatBoth(a[1..], b);
    }
  }

  /** A stream as what is past and what is still to be taken, of which a message that is not steady is
      in front; n bytes of it show that; and the state in which all but its last byte has come. */
  datatype Weak<T, M> = Weak(past: Bytes, ahead: Bytes, n: nat, table: T, log: seq<(T, M)>)

  /** The stream comes, byte by byte, to y in front: with its first n bytes waiting, and as a whole. */
  ghost predicate ComesTo<T, M>(c: Codec<T, M>, past: Bytes, y: Bytes, n: nat, table: T, log: seq<(T, M)>,
                                atTable: T, atLog: seq<(T, M)>)
    requires n <= |y|
  {
    && Slowly(c, past + y[..n], table, log) == State(Open, y[..n], atTable, atLog)
    && Slowly(c, past + y, table, log) == Slowly(c, y, atTable, atLog)
  }

  ghost predicate IsWeak<T, M>(c: Codec<T, M>, x: Bytes, table: T, log: seq<(T, M)>, limit: nat, w: Weak<T, M>) {
    && x == w.past + w.ahead && WeakAt(c, w.ahead, w.n, limit)
    && ComesTo(c, w.past, w.ahead, Need(w.ahead) - 1, table, log, w.table, w.log)
  }

  lemma ComesAtOnce<T, M>(c: Codec<T, M>, y: Bytes, n: nat, table: T, log: seq<(T, M)>)
    requires n <= |y| && n < Need(y[..n])
    ensures ComesTo(c, [], y, n, table, log, table, log)
  {
    assert [] + y == y && [] + y[..n] == y[..n];
  }

  lemma WeakFront<T, M>(c: Codec<T, M>, x: Bytes, table: T, log: seq<(T, M)>, limit: nat, n: nat)
    requires WeakAt(c, x, n, limit)
    ensures IsWeak(c, x, table, log, limit, Weak([], x, n, table, log))
  {
    var m := Need(x) - 1;
    assert [] + x == x && x[..m] + x[m..] == x;
    NeedStays(x[..m], x[m..]);
    ComesAtOnce(c, x, m, table, log);
  }

  lemma Regroup(h: Bytes, past: Bytes, y: Bytes, n: nat)
    requires n <= |y|
    ensures h + past + y[..n] == h + (past + y[..n]) && h + past + y == h + (past + y)
    ensures h + (past + y) == h + (past + y[..n]) + y[n..]
  {
  }

  /** The first message is taken alike from the stream and from the part of it that has come. */
  lemma TakenAlike<T, M>(c: Codec<T, M>, h: Bytes, q: Bytes, rest: Bytes, x: Bytes, table: T, log: seq<(T, M)>)
    requires x == h + q + rest && TakesFront(c, x) && |h| == Length(x) && |h + q| >= Need(x)
    ensures var msg := Next(c, x[..Need(x)]).msg;
      Slowly(c, h + q, table, log) == Slowly(c, q, c.after(table, msg), log + [(table, msg)])
  {
    var p := h + q;
    NeedStays(p, rest);
    SameHeader(p, rest);
    assert p[..Need(x)] == x[..Need(x)];
    assert p[|h|..] == q;
  }

  lemma ComesLater<T, M>(c: Codec<T, M>, x: Bytes, h: Bytes, past: Bytes, y: Bytes, n: nat, table: T,
                         log: seq<(T, M)>, msg: M, atTable: T, atLog: seq<(T, M)>)
    requires x == h + (past + y) && TakesFront(c, x) && |h| == Length(x) && 7 <= n <= |y|
    requires msg == Next(c, x[..Need(x)]).msg
    requires ComesTo(c, past, y, n, c.after(table, msg), log + [(table, msg)], atTable, atLog)
    ensures ComesTo(c, h + past, y, n, table, log, atTable, atLog)
  {
    FrontIsInside(c, x);
    Regroup(h, past, y, n);
    TakenAlike(c, h, past + y[..n], y[n..], x, table, log);
    assert x + [] == x;
    TakenAlike(c, h, past + y, [], x, table, log);
  }

  lemma FirstApart(x: Bytes, l: nat, past: Bytes, y: Bytes)
    requires l <= |x| && x[l..] == past + y
    ensures x == x[..l] + (past + y) == x[..l] + past + y && |x[..l]| == l
  {
    assert x == x[..l] + x[l..];
  }

  lemma LaterWeak<T, M>(c: Codec<T, M>, x: Bytes, table: T, log: seq<(T, M)>, limit: nat, msg: M, v: Weak<T, M>)
    requires TakesFront(c, x) && Length(x) <= |x| && msg == Next(c, x[..Need(x)]).msg
    requires IsWeak(c, x[Length(x)..], c.after(table, msg), log + [(table, msg)], limit, v)
    ensures IsWeak(c, x, table, log, limit, Weak(x[..Length(x)] + v.past, v.ahead, v.n, v.table, v.log))
  {
    FirstApart(x, Length(x), v.past, v.ahead);
    ComesLater(c, x, x[..Length(x)], v.past, v.ahead, Need(v.ahead) - 1, table, log, msg, v.table, v.log);
  }

  lemma {:induction false} FindWeak<T, M>(c: Codec<T, M>, x: Bytes, table: T, log: seq<(T, M)>, limit: nat)
      returns (w: Weak<T, M>)
    requires !Steady(c, x, limit)
    ensures IsWeak(c, x, table, log, limit, w)
    decreases |x|
  {
    if !SteadyFront(c, x, limit) {
      var n: nat :| WeakAt(c, x, n, limit);
      WeakFront(c, x, table, log, limit, n);
      w := Weak([], x, n, table, log);
    } else {
      FrontIsInside(c, x);
      var l, msg := Length(x), Next(c, x[..Need(x)]).msg;
      var v := FindWeak(c, x[l..], c.after(table, msg), log + [(table, msg)], limit);
      LaterWeak(c, x, table, log, limit, msg, v);
      w := Weak(x[..l] + v.past, v.ahead, v.n, v.table, v.log);
    }
  }

  /** Byte by byte up to the weak message, then a chunk that completes it with what it depends on, and
      byte by byte again. */
  function WeakCut(past: Bytes, y: Bytes, n: nat): seq<Bytes>
    requires Need(y) <= n <= |y|
  {
    var m := Need(y) - 1;
    Singles(past + y[..m]) + ([y[m..n]] + Singles(y[n..]))
  }

  lemma WeakCutCuts(past: Bytes, y: Bytes, n: nat, limit: nat)
    requires Need(y) <= n <= |y| && n < Need(y) + limit
    ensures Cuts(WeakCut(past, y, n), past + y, limit)
  {
    var m := Need(y) - 1;
    var early, late := Singles(past + y[..m]), [y[m..n]] + Singles(y[n..]);
    ConcatBoth(early, late);
    ConcatBoth([y[m..n]], Singles(y[n..]));
    SinglesJoin(past + y[..m]);
    SinglesJoin(y[n..]);
    assert [y[m..n]][1..] == [];
    assert Concat([y[m..n]]) == y[m..n] + [] == y[m..n];
    assert past + y[..m] + (y[m..n] + y[n..]) == past + y;
  }

  /** A stream that is not steady has a cut whose fate is not that of coming byte by byte. */
  lemma UnsteadyShows<T, M>(c: Codec<T, M>, x: Bytes, table: T, limit: nat) returns (chunks: seq<Bytes>)
    requires !Steady(c, x, limit)
    ensures Cuts(chunks, x, limit) && FeedAll(c, Fresh(table), chunks) != Slowly(c, x, table, [])
  {
    var w := FindWeak(c, x, table, [], limit);
    chunks := WeakCut(w.past, w.ahead, w.n);
    WeakCutCuts(w.past, w.ahead, w.n, limit);
    WeakCutFate(c, table, limit, w.past, w.ahead, w.n, w.table, w.log);
  }

  lemma WeakCutFate<T, M>(c: Codec<T, M>, table: T, limit: nat, past: Bytes, y: Bytes, n: nat,
                          atTable: T, atLog: seq<(T, M)>)
    requires WeakAt(c, y, n, limit) && ComesTo(c, past, y, Need(y) - 1, table, [], atTable, atLog)
    ensures FeedAll(c, Fresh(table), WeakCut(past, y, n)) != Slowly(c, past + y, table, [])
  {
    var m := Need(y) - 1;
    FedUpTo(c, past + y[..m], table, [y[m..n]] + Singles(y[n..]));
    WeakFates(c, y, n, atTable, atLog);
  }

  lemma FedUpTo<T, M>(c: Codec<T, M>, p: Bytes, table: T, late: seq<Bytes>)
    ensures FeedAll(c, Fresh(table), Singles(p) + late) == FeedAll(c, Slowly(c, p, table, []), late)
  {
    var start: State<T, M> := Fresh(table);
    FeedBoth(c, start, Singles(p), late);
    assert start.buf + p == p;
    BytesComeSlowly(c, start, p);
  }

  /** From all but the last byte of the weak message on. */
  lemma WeakFates<T, M>(c: Codec<T, M>, y: Bytes, n: nat, table: T, log: seq<(T, M)>)
    requires Need(y) <= n <= |y| && Next(c, y[..n]) != Next(c, y[..Need(y)])
    ensures FeedAll(c, State(Open, y[..Need(y) - 1], table, log), [y[Need(y) - 1..n]] + Singles(y[n..])) !=
            Slowly(c, y, table, log)
  {
    var s, rest := State(Open, y[..Need(y) - 1], table, log), Singles(y[n..]);
    var late := [y[Need(y) - 1..n]] + rest;
    assert late[0] == y[Need(y) - 1..n] && late[1..] == rest;
    assert s.buf + late[0] == y[..n];
    var next := Outcome(c, y[..n], table, log);
    assert FeedAll(c, s, late) == FeedAll(c, next, rest);
    PrefixDecides(c, y, n);
    PrefixDecides(c, y, Need(y));
    LogGrows(c, y[..n], table, log);
    SlowlyShowsFront(c, y, table, log);
    FateShows(c, next, rest, log, Next(c, y[..n]));
    if Next(c, y[..n]).Take? {
      assert next.log[|log|] == (table, Next(c, y[..n]).msg);
    }
  }

  lemma PrefixDecides<T, M>(c: Codec<T, M>, y: Bytes, n: nat)
    requires Need(y) <= n <= |y|
    ensures !Next(c, y[..n]).Wait?
  {
    WaitsForNeed(c, y[..n]);
    NeedStays(y[..n], y[n..]);
    assert y[..n] + y[n..] == y;
  }

  lemma FateShows<T, M>(c: Codec<T, M>, s: State<T, M>, chunks: seq<Bytes>, log: seq<(T, M)>, f: Front<M>)
    requires |log| <= |s.log| && (f.Take? <==> |log| < |s.log|) && (!f.Take? ==> !s.status.Open?)
    ensures var r := FeedAll(c, s, chunks).log;
      (f.Take? <==> |log| < |r|) && (f.Take? ==> r[|log|] == s.log[|log|])
  {
    FeedingGrows(c, s, chunks);
    if f.Take? {
      var r := FeedAll(c, s, chunks).log;
      assert r[..|s.log|][|log|] == r[|log|];
    } else {
      EndStays(c, s, chunks);
    }
  }

  /** How the network cuts a stream is harmless exactly when every message the stream reaches has the
      same fate whatever of what follows has arrived with its last byte. */
  lemma CutsAreHarmlessWhenSteady<T, M(!new)>(c: Codec<T, M>, x: Bytes, table: T, limit: nat)
    requires limit > 0
    ensures SurvivesCuts(c, x, table, limit) <==> Steady(c, x, limit)
  {
    var start: State<T, M> := Fresh(table);
    assert start.buf + x == x;
    if Steady(c, x, limit) {
      forall cs | Cuts(cs, x, limit) ensures FeedAll(c, start, cs) == Slowly(c, x, table, []) {
        ChunksDoNotMatter(c, start, cs, limit);
      }
    } else {
      var chunks := UnsteadyShows(c, x, table, limit);
      BytesComeSlowly(c, start, x);
      SinglesJoin(x);
      assert Cuts(Singles(x), x, limit);
    }
  }

  // ---------------------------------------------------------------- well-formed streams

  /** A message as a peer sends it: an accepted version, its own length in its header, and
      unpacked to that length whatever follows it. */
  ghost predicate WellFormed<T, M>(c: Codec<T, M>, frame: Bytes) {
    && |frame| >= 8 && Acceptable(frame) && Length(frame) == |frame|
    && c.unpack(frame).Unpacked? && c.unpack(frame).consumed == |frame|
    && forall more: Bytes {:trigger c.unpack(frame + more)} :: c.unpack(frame + more) == c.unpack(frame)
  }

  ghost predicate AllWellFormed<T, M>(c: Codec<T, M>, frames: seq<Bytes>) {
    forall i :: 0 <= i < |frames| ==> WellFormed(c, frames[i])
  }

  /** The messages of the frames, each with the table its predecessors left. */
  function Dispatched<T, M>(c: Codec<T, M>, table: T, frames: seq<Bytes>): seq<(T, M)>
    requires forall i :: 0 <= i < |frames| ==> c.unpack(frames[i]).Unpacked?
  {
    if frames == [] then []
    else
      var msg := c.unpack(frames[0]).msg;
      [(table, msg)] + Dispatched(c, c.after(table, msg), frames[1..])
  }

  function TableAfter<T, M>(c: Codec<T, M>, table: T, frames: seq<Bytes>): T
    requires forall i :: 0 <= i < |frames| ==> c.unpack(frames[i]).Unpacked?
  {
    if frames == [] then table else TableAfter(c, c.after(table, c.unpack(frames[0]).msg), frames[1..])
  }

  lemma FrameInFront<T, M>(c: Codec<T, M>, frame: Bytes, rest: Bytes)
    requires WellFormed(c, frame)
    ensures Length(frame + rest) == |frame| && Next(c, frame + rest) == Take(c.unpack(frame).msg)
    ensures Need(frame + rest) == |frame| && (frame + rest)[..|frame|] == frame
    ensures Next(c, frame) == Take(c.unpack(frame).msg) && (frame + rest)[|frame|..] == rest
  {
    SameHeader(frame, rest);
  }

  lemma FrameIsSteady<T, M>(c: Codec<T, M>, frame: Bytes, rest: Bytes, limit: nat)
    requires WellFormed(c, frame)
    ensures SteadyFront(c, frame + rest, limit)
  {
    var x := frame + rest;
    FrameInFront(c, frame, rest);
    forall n: nat | |frame| <= n <= |x| ensures Next(c, x[..n]) == Next(c, x[..|frame|]) {
      assert x[..n] == frame + rest[..n - |frame|];
      FrameInFront(c, frame, rest[..n - |frame|]);
    }
  }

  lemma {:induction false} FramesAreSteady<T, M>(c: Codec<T, M>, frames: seq<Bytes>, part: Bytes, limit: nat)
    requires AllWellFormed(c, frames) && Next(c, part).Wait?
    ensures Steady(c, Concat(frames) + part, limit)
    decreases |frames|
  {
    if frames != [] {
      var rest := Concat(frames[1..]) + part;
      assert Concat(frames) + part == frames[0] + rest;
      FramesAreSteady(c, frames[1..], part, limit);
      FrameInFront(c, frames[0], rest);
      FrameIsSteady(c, frames[0], rest, limit);
    } else {
      assert [] + part == part;
      WaitsForNeed(c, part);
    }
  }

  lemma OneFrameTaken<T, M>(c: Codec<T, M>, frame: Bytes, rest: Bytes, table: T, log: seq<(T, M)>)
    requires WellFormed(c, frame)
    ensures var msg := c.unpack(frame).msg;
      Outcome(c, frame + rest, table, log) == Outcome(c, rest, c.after(table, msg), log + [(table, msg)])
  {
    FrameInFront(c, frame, rest);
    OneTurn(c, frame + rest, table, log);
  }

  lemma Associates<A>(a: seq<A>, b: seq<A>, c: seq<A>)
    ensures a + b + c == a + (b + c)
  {
  }

  /** One pass takes all complete messages and stops at the part that is left. */
  lemma {:induction false} LoopTakesAll<T, M>(
      c: Codec<T, M>, frames: seq<Bytes>, part: Bytes, table: T, log: seq<(T, M)>)
    requires AllWellFormed(c, frames) && Next(c, part).Wait?
    ensures Outcome(c, Concat(frames) + part, table, log) ==
            State(Open, part, TableAfter(c, table, frames), log + Dispatched(c, table, frames))
    decreases |frames|
  {
    if frames != [] {
      var msg, rest := c.unpack(frames[0]).msg, Concat(frames[1..]) + part;
      Associates(frames[0], Concat(frames[1..]), part);
      OneFrameTaken(c, frames[0], rest, table, log);
      LoopTakesAll(c, frames[1..], part, c.after(table, msg), log + [(table, msg)]);
      Associates(log, [(table, msg)], Dispatched(c, c.after(table, msg), frames[1..]));
    } else {
      assert [] + part == part && log + [] == log;
    }
  }

  lemma ChunksComeSlowly<T, M>(c: Codec<T, M>, chunks: seq<Bytes>, table: T)
    requires Steady(c, Concat(chunks), |Concat(chunks)| + 1)
    ensures FeedAll(c, Fresh(table), chunks) == Slowly(c, Concat(chunks), table, [])
  {
    var start: State<T, M> := Fresh(table);
    assert start.buf + Concat(chunks) == Concat(chunks);
    ChunksAreShort(chunks);
    ChunksDoNotMatter(c, start, chunks, |Concat(chunks)| + 1);
  }

  lemma FramesComeSlowly<T, M>(c: Codec<T, M>, frames: seq<Bytes>, part: Bytes, table: T)
    requires AllWellFormed(c, frames) && Next(c, part).Wait?
    ensures Slowly(c, Concat(frames) + part, table, []) ==
            State(Open, part, TableAfter(c, table, frames), Dispatched(c, table, frames))
  {
    var x := Concat(frames) + part;
    FramesAreSteady(c, frames, part, |x| + 1);
    SlowlyIsOneRead(c, x, table, []);
    LoopTakesAll(c, frames, part, table, []);
    assert [] + Dispatched(c, table, frames) == Dispatched(c, table, frames);
  }

  /** Of a stream of well-formed messages and an incomplete one, cut anyhow, exactly the complete
      messages are dispatched, in order, each under the table its predecessors left. */
  lemma CompleteMessagesAreDispatched<T, M>(
      c: Codec<T, M>, chunks: seq<Bytes>, frames: seq<Bytes>, part: Bytes, table: T)
    requires AllWellFormed(c, frames) && Next(c, part).Wait? && Concat(chunks) == Concat(frames) + part
    ensures FeedAll(c, Fresh(table), chunks) ==
            State(Open, part, TableAfter(c, table, frames), Dispatched(c, table, frames))
  {
    FramesAreSteady(c, frames, part, |Concat(chunks)| + 1);
    ChunksComeSlowly(c, chunks, table);
    FramesComeSlowly(c, frames, part, table);
  }

  /** A stream that is steady whatever follows has the fate of one read of it all. */
  lemma SlowlyIsOneRead<T, M>(c: Codec<T, M>, x: Bytes, table: T, log: seq<(T, M)>)
    requires Steady(c, x, |x| + 1)
    ensures Slowly(c, x, table, log) == Outcome(c, x, table, log)
  {
    assert x + [] == x;
    ReadGoesOn(c, x, [], table, log, |x| + 1);
    var first := Outcome(c, x, table, log);
    assert first.buf + [] == first.buf;
  }

  lemma {:induction false} ChunksAreShort(chunks: seq<Bytes>)
    ensures forall i | 0 <= i < |chunks| :: |chunks[i]| <= |Concat(chunks)|
  {
    if chunks != [] {
      ChunksAreShort(chunks[1..]);
      assert forall i | 0 < i < |chunks| :: chunks[i] == chunks[1..][i - 1];
    }
  }

  // ---------------------------------------------------------------- the connection

  lemma SliceOn(b: Bytes, i: nat, n: nat)
    requires i + n <= |b|
    ensures b[i..][n..] == b[i + n..]
  {
  }

  lemma OneTurn<T, M>(c: Codec<T, M>, b: Bytes, table: T, log: seq<(T, M)>)
    ensures var s := Outcome(c, b, table, log);
      match Next(c, b)
      case Wait => s == State(Open, b, table, log)
      case Drop => s == State(Dropped, [], table, log)
      case Take(msg) =>
        if Length(b) == 0 then s == State(Hung, [], c.after(table, msg), log + [(table, msg)])
        else s == Outcome(c, b[Length(b)..], c.after(table, msg), log + [(table, msg)])
  {
  }

  class Connection<T, M> {
    const codec: Codec<T, M>
    var buf: Bytes
    var table: T
    var log: seq<(T, M)>

    constructor (codec: Codec<T, M>, table: T)
      ensures this.codec == codec && State(Open, buf, this.table, log) == Fresh(table)
    {
      this.codec, buf, this.table, log := codec, [], table, [];
    }

    /** The front of the buffer, as the loop tells it. */
    method FrontOf(offset: nat) returns (front: Front<M>)
      requires offset + 8 <= |buf|
      ensures front == Next(codec, buf[offset..])
    {
      var rest := buf[offset..];
      if buf[offset] != OFP_VERSION && buf[offset + 1] != OFPT_HELLO {
        return Drop;
      }
      var length := GetShort(buf[offset + 2..offset + 4]);
      assert rest[2..4] == buf[offset + 2..offset + 4];
      if |buf| - offset < length {
        return Wait;
      }
      var u := codec.unpack(rest);
      if u.Raised? || u.consumed != length {
        return Drop;
      }
      return Take(u.msg);
    }

    method Handle(msg: M)
      modifies this`table, this`log
      ensures table == codec.after(old(table), msg) && log == old(log) + [(old(table), msg)]
    {
      log := log + [(table, msg)];
      table := codec.after(table, msg);
    }

    /** One read of what the socket gave.  Where the source would repeat an empty message
        for ever, it is handled once and the answer is Hung. */
    method Read(data: Bytes) returns (status: Status)
      modifies this
      ensures data == [] ==> status == Dropped && buf == old(buf) && table == old(table) && log == old(log)
      ensures data != [] ==>
                var s := Outcome(codec, old(buf) + data, old(table), old(log));
                status == s.status && table == s.table && log == s.log && (status.Open? ==> buf == s.buf)
    {
      if |data| == 0 {
        return Dropped;
      }
      buf := buf + data;
      ghost var s := Outcome(codec, buf, table, log);
      var offset := 0;
      assert buf[0..] == buf;
      while |buf| - offset >= 8
        invariant offset <= |buf| && buf == old(buf) + data
        invariant Outcome(codec, buf[offset..], table, log) == s
        decreases |buf| - offset
      {
        var front := FrontOf(offset);
        OneTurn(codec, buf[offset..], table, log);
        if front.Drop? {
          return Dropped;
        } else if front.Wait? {
          break;
        }
        var length := Length(buf[offset..]);
        SliceOn(buf, offset, length);
        Handle(front.msg);
        if length == 0 {
          return Hung;
        }
        offset := offset + length;
      }
      if offset != 0 {
        buf := buf[offset..];
      }
      return Open;
    }
  }
}
