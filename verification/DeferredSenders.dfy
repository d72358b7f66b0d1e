/** The code of the two threads of pox/openflow/of_01.py takes steps of their state machine. */
module DeferredSenders {
  import opened DeferredSending

  // ---------------------------------------------------------------- stretches of steps

  function Front<T>(s: seq<T>): seq<T>
    requires s != []
  {
    s[..|s| - 1]
  }

  function Last<T>(s: seq<T>): T
    requires s != []
  {
    s[|s| - 1]
  }

  /** The steps lead from one state to the other. */
  ghost predicate Path(s: State, steps: seq<Step>, t: State)
    decreases |steps|
  {
    if steps == [] then s == t
    else exists m :: Path(s, Front(steps), m) && Next(m, Last(steps), t)
  }

  lemma PathOn(s: State, steps: seq<Step>, m: State, a: Step, t: State) returns (more: seq<Step>)
    requires Path(s, steps, m) && Next(m, a, t)
    ensures more == steps + [a] && Path(s, more, t)
  {
    more := steps + [a];
    assert Front(more) == steps;
  }

  lemma {:induction false} PathKeeps(s: State, steps: seq<Step>, t: State)
    requires s.Valid() && Path(s, steps, t)
    ensures t.Valid()
    decreases |steps|
  {
    if steps != [] {
      var m :| Path(s, Front(steps), m) && Next(m, Last(steps), t);
      PathKeeps(s, Front(steps), m);
      StepKeeps(m, Last(steps), t);
    }
  }

  /** How Connection.send begins. */
  lemma FirstSteps(s: State, con: Con, bytes: Bytes) returns (steps: seq<Step>)
    requires s.main.Idle?
    ensures steps == [Submit(con, bytes), ReadFlag]
    ensures Path(s, steps, s.(submitted := Extended(s.submitted, con, bytes),
                              main := if s.sending then Deferring(con, bytes) else Direct(con, bytes)))
  {
    var m := s.(submitted := Extended(s.submitted, con, bytes), main := Checking(con, bytes));
    var t := s.(submitted := Extended(s.submitted, con, bytes),
                main := if s.sending then Deferring(con, bytes) else Direct(con, bytes));
    assert MainStep(s, Submit(con, bytes), m) && MainStep(m, ReadFlag, t);
    TwoSteps(s, Submit(con, bytes), m, ReadFlag, t);
    steps := [Submit(con, bytes), ReadFlag];
  }

  lemma TwoSteps(s: State, a: Step, m: State, b: Step, t: State)
    requires Next(s, a, m) && Next(m, b, t)
    ensures Path(s, [a, b], t)
  {
    var one := PathOn(s, [], s, a, m);
    var two := PathOn(s, one, m, b, t);
    assert two == [a, b];
  }

  /** The steps of one round of the sender thread. */
  predicate InRound(a: Step) {
    a.DropFailed? || a.NextCon? || a.SendSlice? || a.TrimSlices? || a.NothingLeft? || a.Release?
  }

  /** A stretch of one round. */
  ghost predicate Stretch(s: State, steps: seq<Step>, t: State) {
    Path(s, steps, t) && forall n | 0 <= n < |steps| :: InRound(steps[n])
  }

  lemma StretchOn(s: State, steps: seq<Step>, m: State, a: Step, t: State) returns (more: seq<Step>)
    requires Stretch(s, steps, m) && SenderStep(m, a, t) && InRound(a)
    ensures more == steps + [a] && Stretch(s, more, t)
  {
    more := PathOn(s, steps, m, a, t);
  }

  lemma DirectStretches(s: State, steps: seq<Step>, m: State, answer: Answer, t: State) returns (more: seq<Step>)
    requires Path(s, steps, m) && m.main.Direct? && Takes(answer, m.main.data)
    requires t == SentDirectly(m, m.main.con, m.main.data, answer)
    ensures Path(s, more, t) && more == steps + [SendDirectly(answer)]
  {
    more := PathOn(s, steps, m, SendDirectly(answer), t);
  }

  predicate Shot(a: Step) {
    (a.SendSlice? || a.SendDirectly?) && a.answer.Fatal?
  }

  predicate SomeShot(steps: seq<Step>) {
    exists n | 0 <= n < |steps| :: Shot(steps[n])
  }

  /** The connections select reported broken that the round has not dropped yet. */
  function Reported(s: State): set<Con> {
    if s.sender.Round? then set c | c in s.sender.elist else {}
  }

  lemma RoundStepFails(s: State, a: Step, t: State)
    requires Next(s, a, t) && InRound(a) && !Shot(a)
    ensures t.failed + Reported(t) <= s.failed + Reported(s)
  {
  }

  /** In a round no connection fails that select did not report, unless a socket refuses for good. */
  lemma {:induction false} NoFailureWithoutCause(s: State, steps: seq<Step>, t: State)
    requires Stretch(s, steps, t) && !SomeShot(steps)
    ensures t.failed + Reported(t) <= s.failed + Reported(s)
    decreases |steps|
  {
    if steps != [] {
      var m :| Path(s, Front(steps), m) && Next(m, Last(steps), t);
      NoFailureWithoutCause(s, Front(steps), m);
      RoundStepFails(m, Last(steps), t);
    }
  }

  // ---------------------------------------------------------------- the code under the lock

  class DeferredSender {
    /** _dataForConnection and sending. */
    var data: map<Con, seq<Bytes>>
    var sending: bool
    /** What was submitted, and which connections failed. */
    ghost var submitted: map<Con, Bytes>
    ghost var failed: set<Con>
    /** The sockets' own record: what each has taken and what they answered.  SockSend alone changes it. */
    ghost var written: map<Con, Bytes>
    ghost var answers: seq<Answer>

    /** The state of the machine, with the threads at these places. */
    ghost function At(main: MainPc, sender: SenderPc): State
      reads this
    {
      State(data, sending, main, sender, written, submitted, failed, answers)
    }

    constructor ()
      ensures At(Idle, Selecting) == Start
    {
      data, sending := map[], false;
      submitted, failed, written, answers := map[], {}, map[], [];
    }

    /** The socket's own send: takes some prefix, or nothing, or fails. */
    method SockSend(con: Con, bytes: Bytes) returns (answer: Answer)
      modifies `written, `answers, `failed
      ensures Takes(answer, bytes) && answers == old(answers) + [answer]
      ensures written == if answer.Took? then Extended(old(written), con, bytes[..answer.n]) else old(written)
      ensures failed == if answer.Fatal? then old(failed) + {con} else old(failed)
    {
      if * {
        var n :| 0 <= n <= |bytes|;
        answer := Took(n);
        written := Extended(written, con, bytes[..n]);
      } else if * {
        answer := WouldBlock;
      } else {
        answer := Fatal;
        failed := failed + {con};
      }
      answers := answers + [answer];
    }

    /** DeferredSender.send, called by Connection.send. */
    method Send(con: Con, bytes: Bytes, pipeBuf: nat, ghost s: State, ghost steps: seq<Step>)
        returns (ghost more: seq<Step>)
      requires pipeBuf > 0 && Path(s, steps, At(Deferring(con, bytes), Selecting))
      modifies `data, `sending
      ensures sending && Path(s, more, At(Idle, Selecting))
      ensures |more| == |steps| + 1 && steps <= more && more[|steps|].HandOver?
    {
      ghost var m := At(Deferring(con, bytes), Selecting);
      sending := true;
      var slices := SliceUp(bytes, pipeBuf);
      if con !in data {
        data := data[con := slices];
        assert [] + slices == slices;
      } else {
        data := data[con := data[con] + slices];
      }
      more := PathOn(s, steps, m, HandOver(slices), At(Idle, Selecting));
    }

    /** Connection.send, with the other thread waiting: steps of the machine from its submission on. */
    method ConnectionSend(con: Con, bytes: Bytes, pipeBuf: nat) returns (ghost steps: seq<Step>)
      requires pipeBuf > 0 && At(Idle, Selecting).Valid()
      modifies this
      ensures At(Idle, Selecting).Valid() && Path(old(At(Idle, Selecting)), steps, At(Idle, Selecting))
      ensures 3 <= |steps| <= 4 && steps[0] == Submit(con, bytes)
      ensures forall n | 0 < n < |steps| :: steps[n].ReadFlag? || steps[n].SendDirectly? || steps[n].HandOver?
      ensures submitted == Extended(old(submitted), con, bytes)
      ensures failed == if SomeShot(steps) then old(failed) + {con} else old(failed)
    {
      ghost var s := At(Idle, Selecting);
      steps := FirstSteps(s, con, bytes);
      submitted := Extended(submitted, con, bytes);
      if sending {
        steps := Send(con, bytes, pipeBuf, s, steps);
      } else {
        steps := SendNow(con, bytes, pipeBuf, s, steps);
      }
      PathKeeps(s, steps, At(Idle, Selecting));
    }

    /** The direct write. */
    method SendNow(con: Con, bytes: Bytes, pipeBuf: nat, ghost s: State, ghost steps: seq<Step>)
        returns (ghost more: seq<Step>)
      requires pipeBuf > 0 && Path(s, steps, At(Direct(con, bytes), Selecting))
      modifies `data, `sending, `written, `answers, `failed
      ensures Path(s, more, At(Idle, Selecting))
      ensures |steps| < |more| <= |steps| + 2 && steps <= more && more[|steps|].SendDirectly?
      ensures |more| == |steps| + 2 ==> more[|steps| + 1].HandOver?
      ensures failed == if more[|steps|].answer.Fatal? then old(failed) + {con} else old(failed)
    {
      ghost var m := At(Direct(con, bytes), Selecting);
      var answer := SockSend(con, bytes);
      ghost var t := SentDirectly(m, con, bytes, answer);
      more := DirectStretches(s, steps, m, answer, t);
      match answer
      case Took(n) =>
        if n != |bytes| {
          more := Send(con, bytes[n..], pipeBuf, s, more);
        }
      case WouldBlock => more := Send(con, bytes, pipeBuf, s, more);
      case Fatal =>
    }

    /** One turn of the inner loop: the first slice is offered to the socket.  again: it was taken
        whole. */
    method SendFirst(con: Con, ghost wlist: seq<Con>, ghost main: MainPc, ghost s: State, ghost steps: seq<Step>)
        returns (again: bool, ghost more: seq<Step>)
      requires con in data && data[con] != [] && Stretch(s, steps, At(main, AtCon(con, wlist)))
      modifies `data, `written, `answers, `failed
      ensures if again then
          con in data && |data[con]| < |old(data)[con]| && Stretch(s, more, At(main, AtCon(con, wlist)))
        else Stretch(s, more, At(main, Round([], wlist)))
    {
      ghost var m := At(main, AtCon(con, wlist));
      var slices := data[con];
      var first := slices[0];
      var answer := SockSend(con, first);
      ghost var t := SentSlice(m, con, first, wlist, answer);
      more := StretchOn(s, steps, m, SendSlice(answer), t);
      again := false;
      match answer
      case Took(n) =>
        again := n == |first|;
        data := data[con := if again then slices[1..] else slices[0 := first[n..]]];
        more := StretchOn(s, more, t, TrimSlices, At(main, if again then AtCon(con, wlist) else Round([], wlist)));
      case WouldBlock =>
      case Fatal =>
        data := data - {con};
    }

    /** A connection's turn: its slices are written until its socket stops taking them.  done: nothing
        is left for any connection. */
    method Serve(con: Con, ghost wlist: seq<Con>, ghost main: MainPc, ghost s: State, ghost steps: seq<Step>)
        returns (done: bool, ghost more: seq<Step>)
      requires con in data && Stretch(s, steps, At(main, AtCon(con, wlist)))
      modifies `data, `written, `answers, `failed, `sending
      ensures Stretch(s, more, At(main, if done then Selecting else Round([], wlist)))
    {
      more := steps;
      done := false;
      while |data[con]| > 0
        invariant con in data && Stretch(s, more, At(main, AtCon(con, wlist)))
        decreases |data[con]|
      {
        var again;
        again, more := SendFirst(con, wlist, main, s, more);
        if !again {
          return;
        }
      }
      ghost var m := At(main, AtCon(con, wlist));
      data := data - {con};
      more := StretchOn(s, more, m, NothingLeft, At(main, Emptied(wlist)));
      m := At(main, Emptied(wlist));
      if |data| == 0 {
        sending := false;
        done := true;
      }
      more := StretchOn(s, more, m, Release, At(main, if done then Selecting else Round([], wlist)));
    }

    /** The loop over the connections select reported broken. */
    method DropBroken(elist: seq<Con>, ghost wlist: seq<Con>, ghost main: MainPc, ghost s: State)
        returns (ghost steps: seq<Step>)
      requires s == At(main, Round(elist, wlist))
      modifies `data, `failed
      ensures Stretch(s, steps, At(main, Round([], wlist)))
    {
      steps := [];
      assert elist[0..] == elist && elist[|elist|..] == [];
      for n := 0 to |elist|
        invariant Stretch(s, steps, At(main, Round(elist[n..], wlist)))
      {
        ghost var m := At(main, Round(elist[n..], wlist));
        assert elist[n..][1..] == elist[n + 1..];
        data := data - {elist[n]};
        failed := failed + {elist[n]};
        steps := StretchOn(s, steps, m, DropFailed, At(main, Round(elist[n + 1..], wlist)));
      }
    }

    /** One round of DeferredSender.run once select has returned, all under the lock, wherever the other
        thread stands: steps of the machine. */
    method RunRound(elist: seq<Con>, wlist: seq<Con>, ghost main: MainPc) returns (ghost steps: seq<Step>)
      requires At(main, Selecting).Valid()
      modifies `data, `written, `answers, `failed, `sending
      ensures At(main, Selecting).Valid()
      ensures Stretch(old(At(main, Round(elist, wlist))), steps, At(main, Selecting))
      ensures !SomeShot(steps) ==> failed <= old(failed) + (set c | c in elist)
    {
      ghost var s := At(main, Round(elist, wlist));
      RoundIsValid(At(main, Selecting), elist, wlist);
      steps := DropBroken(elist, wlist, main, s);
      steps := ServeAll(wlist, main, s, steps);
      PathKeeps(s, steps, At(main, Selecting));
      if !SomeShot(steps) {
        NoFailureWithoutCause(s, steps, At(main, Selecting));
      }
    }

    /** The loop over the connections that may be written to. */
    method ServeAll(wlist: seq<Con>, ghost main: MainPc, ghost s: State, ghost steps: seq<Step>)
        returns (ghost more: seq<Step>)
      requires Stretch(s, steps, At(main, Round([], wlist)))
      modifies `data, `written, `answers, `failed, `sending
      ensures Stretch(s, more, At(main, Selecting))
    {
      more := steps;
      assert wlist[0..] == wlist && wlist[|wlist|..] == [];
      for n := 0 to |wlist|
        invariant Stretch(s, more, At(main, Round([], wlist[n..])))
      {
        var con := wlist[n];
        ghost var m, rest := At(main, Round([], wlist[n..])), wlist[n + 1..];
        assert wlist[n..][1..] == rest && wlist[n..][0] == con;
        more := StretchOn(s, more, m, NextCon, At(main, if con in data then AtCon(con, rest) else Round([], rest)));
        if con in data {
          var done;
          done, more := Serve(con, rest, main, s, more);
          if done {
            return;
          }
        }
      }
      more := StretchOn(s, more, At(main, Round([], [])), Release, At(main, Selecting));
    }
  }

  lemma RoundIsValid(s: State, elist: seq<Con>, wlist: seq<Con>)
    requires s.Valid() && s.sender.Selecting?
    ensures s.(sender := Round(elist, wlist)).Valid()
  {
    StepKeeps(s, Selected(elist, wlist), s.(sender := Round(elist, wlist)));
  }
}
