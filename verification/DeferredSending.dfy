/**
  pox/openflow/of_01.py: the two threads that write to switch sockets.  Connection.send
  writes directly unless DeferredSender is busy, and hands over what a socket would not
  take; DeferredSender writes the rest from its own thread.

  The interleaving is a state machine whose steps are single accesses to what the threads
  share: a read of the sending flag, one socket call, one statement under the lock.
*/
module DeferredSending {
  import opened Wrappers

  type Con = nat
  type Bytes = seq<bv8>

  function Flatten(slices: seq<Bytes>): Bytes {
    if slices == [] then [] else slices[0] + Flatten(slices[1..])
  }

  lemma {:induction false} FlattenConcat(a: seq<Bytes>, b: seq<Bytes>)
    ensures Flatten(a + b) == Flatten(a) + Flatten(b)
  {
    if a == [] {
      assert a + b == b;
    } else {
      assert (a + b)[1..] == a[1..] + b;
      FlattenConcat(a[1..], b);
    }
  }

  lemma Rejoin(before: Bytes, data: Bytes, n: nat)
    requires n <= |data|
    ensures before + data[..n] + data[n..] == before + data
  {
    assert data[..n] + data[n..] == data;
  }

  lemma FlattenLast(slices: seq<Bytes>, last: Bytes)
    ensures Flatten(slices + [last]) == Flatten(slices) + last
  {
    FlattenConcat(slices, [last]);
    assert Flatten([last]) == last;
  }

  /** DeferredSender._sliceup. */
  method SliceUp(data: Bytes, pipeBuf: nat) returns (out: seq<Bytes>)
    requires pipeBuf > 0
    ensures Flatten(out) == data
    ensures forall s | s in out :: 0 < |s| <= pipeBuf
  {
    out := [];
    var left := data;
    while |left| > pipeBuf
      invariant Flatten(out) + left == data
      invariant forall s | s in out :: 0 < |s| <= pipeBuf
    {
      FlattenLast(out, left[..pipeBuf]);
      Rejoin(Flatten(out), left, pipeBuf);
      out := out + [left[..pipeBuf]];
      left := left[pipeBuf..];
    }
    if |left| > 0 {
      FlattenLast(out, left);
      out := out + [left];
    }
  }

  // ---------------------------------------------------------------- the state

  /** Where the main thread is in Connection.send. */
  datatype MainPc =
    | Idle
    | Checking(con: Con, data: Bytes)
    | Direct(con: Con, data: Bytes)
    | Deferring(con: Con, data: Bytes)

  /** Where the sender thread is in DeferredSender.run; it holds the lock unless Selecting. */
  datatype SenderPc =
    | Selecting
    | Round(elist: seq<Con>, wlist: seq<Con>)
    | AtCon(con: Con, wlist: seq<Con>)
    | Wrote(con: Con, n: nat, wlist: seq<Con>)
    | Emptied(wlist: seq<Con>)

  datatype State = State(
    pending: map<Con, seq<Bytes>>, sending: bool, main: MainPc, sender: SenderPc,
    written: map<Con, Bytes>, submitted: map<Con, Bytes>, failed: set<Con>, answers: seq<Answer>)
  {
    function Pending(c: Con): Bytes {
      if c in pending then Flatten(pending[c]) else []
    }

    function Written(c: Con): Bytes {
      if c in written then written[c] else []
    }

    function Submitted(c: Con): Bytes {
      if c in submitted then submitted[c] else []
    }

    /** Accepted by Connection.send, but neither written nor handed over yet. */
    function InFlight(c: Con): Bytes {
      if !main.Idle? && main.con == c then main.data else []
    }

    /** Bytes the socket already took from the first slice, which still holds them. */
    function Taken(c: Con): nat {
      if sender.Wrote? && sender.con == c then sender.n else 0
    }

    /** Nothing lost, duplicated or reordered on this connection. */
    ghost predicate Conserved(c: Con) {
      Taken(c) <= |Pending(c)|
      && Submitted(c) == Written(c) + Pending(c)[Taken(c)..] + InFlight(c)
    }

    predicate Ordered() {
      && (pending != map[] ==> sending)
      && (main.Direct? ==> pending == map[])
      && (sender.AtCon? || sender.Wrote? ==> sender.con in pending)
      && (sender.Wrote? ==> pending[sender.con] != [] && sender.n <= |pending[sender.con][0]|)
    }

    ghost predicate Valid() {
      Ordered() && forall c {:trigger Conserved(c)} | c !in failed :: Conserved(c)
    }
  }

  // ---------------------------------------------------------------- the steps

  /** What a non-blocking socket answers. */
  datatype Answer = Took(n: nat) | WouldBlock | Fatal

  datatype Step =
    | Submit(con: Con, data: Bytes)
    | ReadFlag
    | SendDirectly(answer: Answer)
    | HandOver(slices: seq<Bytes>)
    | Selected(elist: seq<Con>, wlist: seq<Con>)
    | DropFailed
    | NextCon
    | SendSlice(answer: Answer)
    | TrimSlices
    | NothingLeft
    | Release

  function Extended(m: map<Con, Bytes>, c: Con, data: Bytes): map<Con, Bytes> {
    m[c := (if c in m then m[c] else []) + data]
  }

  predicate Takes(answer: Answer, data: Bytes) {
    answer.Took? ==> answer.n <= |data|
  }

  /** What the socket itself keeps of a call: the bytes it took, its failure, its answer. */
  function Asked(s: State, con: Con, data: Bytes, answer: Answer): State
    requires Takes(answer, data)
  {
    var t := s.(answers := s.answers + [answer]);
    match answer
    case Took(n) => t.(written := Extended(s.written, con, data[..n]))
    case WouldBlock => t
    case Fatal => t.(failed := s.failed + {con})
  }

  function SentDirectly(s: State, con: Con, data: Bytes, answer: Answer): State
    requires Takes(answer, data)
  {
    var t := Asked(s, con, data, answer);
    match answer
    case Took(n) => t.(main := if n != |data| then Deferring(con, data[n..]) else Idle)
    case WouldBlock => t.(main := Deferring(con, data))
    case Fatal => t.(main := Idle)
  }

  function SentSlice(s: State, con: Con, data: Bytes, rest: seq<Con>, answer: Answer): State
    requires Takes(answer, data)
  {
    var t := Asked(s, con, data, answer);
    match answer
    case Took(n) => t.(sender := Wrote(con, n, rest))
    case WouldBlock => t.(sender := Round([], rest))
    case Fatal => t.(pending := s.pending - {con}, sender := Round([], rest))
  }

  /** Connection.send, one shared access at a time. */
  predicate MainStep(s: State, a: Step, t: State) {
    match a
    case Submit(con, data) =>
      s.main.Idle? && t == s.(main := Checking(con, data), submitted := Extended(s.submitted, con, data))
    case ReadFlag =>
      && s.main.Checking?
      && t == s.(main := if s.sending then Deferring(s.main.con, s.main.data) else Direct(s.main.con, s.main.data))
    case SendDirectly(answer) =>
      s.main.Direct? && Takes(answer, s.main.data) && t == SentDirectly(s, s.main.con, s.main.data, answer)
    case HandOver(slices) =>
      && s.main.Deferring? && s.sender.Selecting? && Flatten(slices) == s.main.data
      && var con := s.main.con;
         t == s.(sending := true, main := Idle,
                 pending := s.pending[con := (if con in s.pending then s.pending[con] else []) + slices])
    case _ => false
  }

  /** DeferredSender.run, one shared access at a time. */
  predicate SenderStep(s: State, a: Step, t: State) {
    match a
    case Selected(elist, wlist) => s.sender.Selecting? && t == s.(sender := Round(elist, wlist))
    case DropFailed =>
      && s.sender.Round? && s.sender.elist != []
      && var con := s.sender.elist[0];
         t == s.(pending := s.pending - {con}, failed := s.failed + {con},
                 sender := Round(s.sender.elist[1..], s.sender.wlist))
    case NextCon =>
      && s.sender.Round? && s.sender.elist == [] && s.sender.wlist != []
      && var con, rest := s.sender.wlist[0], s.sender.wlist[1..];
         t == s.(sender := if con in s.pending then AtCon(con, rest) else Round([], rest))
    case SendSlice(answer) =>
      && s.sender.AtCon? && s.sender.con in s.pending && s.pending[s.sender.con] != []
      && Takes(answer, s.pending[s.sender.con][0])
      && t == SentSlice(s, s.sender.con, s.pending[s.sender.con][0], s.sender.wlist, answer)
    case TrimSlices =>
      && s.sender.Wrote? && s.sender.con in s.pending && s.pending[s.sender.con] != []
      && var con, n, slices := s.sender.con, s.sender.n, s.pending[s.sender.con];
         && n <= |slices[0]|
         && t == if n != |slices[0]|
                 then s.(pending := s.pending[con := slices[0 := slices[0][n..]]], sender := Round([], s.sender.wlist))
                 else s.(pending := s.pending[con := slices[1..]], sender := AtCon(con, s.sender.wlist))
    case NothingLeft =>
      && s.sender.AtCon? && s.sender.con in s.pending && s.pending[s.sender.con] == []
      && t == s.(pending := s.pending - {s.sender.con}, sender := Emptied(s.sender.wlist))
    case Release =>
      if s.sender.Emptied? then
        t == if s.pending == map[] then s.(sending := false, sender := Selecting)
             else s.(sender := Round([], s.sender.wlist))
      else
        s.sender == Round([], []) && t == s.(sender := Selecting)
    case _ => false
  }

  predicate Next(s: State, a: Step, t: State) {
    MainStep(s, a, t) || SenderStep(s, a, t)
  }

  const Start := State(map[], false, Idle, Selecting, map[], map[], {}, [])

  // ---------------------------------------------------------------- no interleaving loses bytes

  lemma SubmitConserves(s: State, con: Con, data: Bytes, t: State, c: Con)
    requires MainStep(s, Submit(con, data), t) && s.Conserved(c)
    ensures t.Conserved(c)
  {
  }

  lemma SendDirectlyConserves(s: State, answer: Answer, t: State, c: Con)
    requires s.Ordered() && MainStep(s, SendDirectly(answer), t) && s.Conserved(c) && c !in t.failed
    ensures t.Conserved(c)
  {
    var con, data := s.main.con, s.main.data;
    if con != c {
      SameElsewhere(s, t, c);
    } else if answer.Took? {
      DirectlyTaken(s, t, c, data, answer.n);
    } else {
      assert answer.WouldBlock?;
      SameElsewhere(s, t, c);
    }
  }

  lemma DirectlyTaken(s: State, t: State, c: Con, data: Bytes, n: nat)
    requires s.Conserved(c) && s.Pending(c) == [] && t.Pending(c) == [] && s.InFlight(c) == data && n <= |data|
    requires t.Taken(c) == 0 && t.Written(c) == s.Written(c) + data[..n] && t.InFlight(c) == data[n..]
    requires t.Submitted(c) == s.Submitted(c)
    ensures t.Conserved(c)
  {
    Rejoin(s.Written(c), data, n);
  }

  /** A connection the step does not touch. */
  lemma SameElsewhere(s: State, t: State, c: Con)
    requires s.Conserved(c)
    requires t.Written(c) == s.Written(c) && t.Submitted(c) == s.Submitted(c) && t.InFlight(c) == s.InFlight(c)
    requires t.Pending(c) == s.Pending(c) && t.Taken(c) == s.Taken(c)
    ensures t.Conserved(c)
  {
  }

  lemma PendingGrows(written: Bytes, pending: Bytes, data: Bytes, n: nat)
    requires n <= |pending|
    ensures n <= |pending + data| && written + (pending + data)[n..] + [] == written + pending[n..] + data
  {
    assert (pending + data)[n..] == pending[n..] + data;
  }

  lemma SliceMoves(written: Bytes, pending: Bytes, first: Bytes, rest: Bytes, n: nat)
    requires pending == first + rest && n <= |first|
    ensures written + first[..n] + pending[n..] == written + pending[0..]
  {
    assert pending[0..] == first[..n] + pending[n..];
  }

  lemma HandedOver(s: State, t: State, c: Con)
    requires s.Conserved(c) && t.Taken(c) == s.Taken(c) && t.InFlight(c) == []
    requires t.Pending(c) == s.Pending(c) + s.InFlight(c)
    requires t.Written(c) == s.Written(c) && t.Submitted(c) == s.Submitted(c)
    ensures t.Conserved(c)
  {
    PendingGrows(s.Written(c), s.Pending(c), s.InFlight(c), s.Taken(c));
  }

  lemma HandOverConserves(s: State, slices: seq<Bytes>, t: State, c: Con)
    requires MainStep(s, HandOver(slices), t) && s.Conserved(c)
    ensures t.Conserved(c)
  {
    if s.main.con == c {
      var before := if c in s.pending then s.pending[c] else [];
      FlattenConcat(before, slices);
      HandedOver(s, t, c);
    } else {
      SameElsewhere(s, t, c);
    }
  }

  lemma SendSliceConserves(s: State, answer: Answer, t: State, c: Con)
    requires SenderStep(s, SendSlice(answer), t) && s.Conserved(c) && c !in t.failed
    ensures t.Conserved(c)
  {
    if s.sender.con != c {
      SameElsewhere(s, t, c);
    } else if answer.Took? {
      var first := s.pending[c][0];
      assert s.Pending(c) == first + Flatten(s.pending[c][1..]);
      SliceTaken(s, t, c, first, Flatten(s.pending[c][1..]), answer.n);
    }
  }

  lemma SliceTaken(s: State, t: State, c: Con, first: Bytes, rest: Bytes, n: nat)
    requires s.Conserved(c) && s.Taken(c) == 0 && s.Pending(c) == first + rest && n <= |first|
    requires t.Taken(c) == n && t.Pending(c) == s.Pending(c) && t.Written(c) == s.Written(c) + first[..n]
    requires t.Submitted(c) == s.Submitted(c) && t.InFlight(c) == s.InFlight(c)
    ensures t.Conserved(c)
  {
    SliceMoves(s.Written(c), s.Pending(c), first, rest, n);
  }

  lemma TrimConserves(s: State, t: State, c: Con)
    requires s.Ordered() && SenderStep(s, TrimSlices, t) && s.Conserved(c)
    ensures t.Conserved(c)
  {
    if s.sender.con == c {
      var slices, n := s.pending[c], s.sender.n;
      assert s.Pending(c)[n..] == slices[0][n..] + Flatten(slices[1..]);
      if n != |slices[0]| {
        assert slices[0 := slices[0][n..]][1..] == slices[1..];
      }
      assert t.Pending(c)[0..] == s.Pending(c)[n..];
    }
  }

  /** Every step of either thread, from any state: no connection that did not fail loses,
      repeats or reorders a byte. */
  lemma StepKeeps(s: State, a: Step, t: State)
    requires s.Valid() && Next(s, a, t)
    ensures t.Valid()
  {
    StepKeepsOrder(s, a, t);
    FailuresStay(s, a, t);
    forall c | c !in t.failed
      ensures t.Conserved(c)
    {
      assert s.Conserved(c);
      StepConserves(s, a, t, c);
    }
  }

  lemma FailuresStay(s: State, a: Step, t: State)
    requires Next(s, a, t)
    ensures s.failed <= t.failed
  {
  }

  lemma StepConserves(s: State, a: Step, t: State, c: Con)
    requires s.Ordered() && Next(s, a, t) && s.Conserved(c) && c !in t.failed
    ensures t.Conserved(c)
  {
    match a
    case Submit(con, data) => SubmitConserves(s, con, data, t, c);
    case SendDirectly(answer) => SendDirectlyConserves(s, answer, t, c);
    case HandOver(slices) => HandOverConserves(s, slices, t, c);
    case SendSlice(answer) => SendSliceConserves(s, answer, t, c);
    case TrimSlices => TrimConserves(s, t, c);
    case DropFailed => RemovalConserves(s, a, t, c);
    case NothingLeft => RemovalConserves(s, a, t, c);
    case _ => QuietStepConserves(s, a, t, c);
  }

  lemma QuietStepConserves(s: State, a: Step, t: State, c: Con)
    requires Next(s, a, t) && s.Conserved(c)
    requires a.ReadFlag? || a.Selected? || a.NextCon? || a.Release?
    ensures t.Conserved(c)
  {
    SameElsewhere(s, t, c);
  }

  lemma RemovalConserves(s: State, a: Step, t: State, c: Con)
    requires s.Ordered() && SenderStep(s, a, t) && s.Conserved(c) && c !in t.failed
    requires a.DropFailed? || a.NothingLeft?
    ensures t.Conserved(c)
  {
    assert t.Pending(c) == s.Pending(c);
    SameElsewhere(s, t, c);
  }

  /** Reading the flag without the lock is safe: data is pending only while the flag is up,
      and only the thread that reads it ever adds data. */
  lemma StepKeepsOrder(s: State, a: Step, t: State)
    requires s.Ordered() && Next(s, a, t)
    ensures t.Ordered()
  {
  }

  ghost predicate IsRun(states: seq<State>, steps: seq<Step>) {
    && |states| == |steps| + 1 && states[0] == Start
    && forall n | 0 <= n < |steps| :: Next(states[n], steps[n], states[n + 1])
  }

  /** Any interleaving, at any moment. */
  lemma {:induction false} NoInterleavingLosesBytes(states: seq<State>, steps: seq<Step>, n: nat, c: Con)
    requires IsRun(states, steps) && n < |states|
    ensures states[n].Valid()
    ensures var s := states[n];
            c !in s.failed ==>
              && s.Taken(c) <= |s.Pending(c)|
              && s.Submitted(c) == s.Written(c) + s.Pending(c)[s.Taken(c)..] + s.InFlight(c)
    ensures var s := states[n];
            c !in s.failed && s.main.Idle? && c !in s.pending ==> s.Written(c) == s.Submitted(c)
  {
    if n > 0 {
      NoInterleavingLosesBytes(states, steps, n - 1, c);
      StepKeeps(states[n - 1], steps[n - 1], states[n]);
    }
    if c !in states[n].failed {
      assert states[n].Conserved(c);
    }
  }
}
