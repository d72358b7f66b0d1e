/** Why one thread may add to what DeferredSender holds, and not two. */
module TwoAdders {
  import opened DeferredSending

  /** A second thread in Connection.send takes a step, standing at other. */
  predicate OtherStep(s: State, other: MainPc, a: Step, t: State, next: MainPc) {
    t.main == s.main && MainStep(s.(main := other), a, t.(main := next))
  }

  datatype Moment = Moment(shared: State, other: MainPc)

  ghost predicate IsAdderRun(moments: seq<Moment>, steps: seq<Step>) {
    && |moments| == |steps| + 1 && moments[0] == Moment(Start, Idle)
    && forall n | 0 <= n < |steps| :: AdderStep(moments[n], steps[n], moments[n + 1])
  }

  predicate AdderStep(m: Moment, a: Step, n: Moment) {
    || (n.other == m.other && MainStep(m.shared, a, n.shared))
    || OtherStep(m.shared, m.other, a, n.shared, n.other)
  }

  lemma FirstEntry(a: Bytes)
    ensures Extended(map[], 1, a) == map[1 := a]
  {
    assert [] + a == a;
  }

  lemma NextEntry(a: Bytes, b: Bytes)
    ensures Extended(map[1 := a], 1, b) == map[1 := a + b]
  {
  }

  /** Nothing fails and the sender thread waits. */
  function Adding(pending: seq<Bytes>, main: MainPc, written: Bytes, submitted: Bytes, answers: seq<Answer>): State
  {
    State(if pending == [] then map[] else map[1 := pending], pending != [], main, Selecting,
          if written == [] then map[] else map[1 := written],
          if submitted == [] then map[] else map[1 := submitted], {}, answers)
  }

  lemma FirstAdder(a: Bytes)
    requires |a| == 2
    ensures var s1, s2 := Adding([], Checking(1, a), [], a, []), Adding([], Direct(1, a), [], a, []);
      && MainStep(Start, Submit(1, a), s1) && MainStep(s1, ReadFlag, s2)
      && MainStep(s2, SendDirectly(Took(1)), Adding([], Deferring(1, a[1..]), a[..1], a, [Took(1)]))
  {
    FirstEntry(a);
    FirstEntry(a[..1]);
  }

  lemma SecondAdder(first: MainPc, a: Bytes, b: Bytes)
    requires |a| == 2 && |b| == 1
    ensures var s3, s4 := Adding([], first, a[..1], a, [Took(1)]), Adding([], first, a[..1], a + b, [Took(1)]);
      && OtherStep(s3, Idle, Submit(1, b), s4, Checking(1, b))
      && OtherStep(s4, Checking(1, b), ReadFlag, s4, Direct(1, b))
      && OtherStep(s4, Direct(1, b), SendDirectly(Took(1)),
                   Adding([], first, a[..1] + b, a + b, [Took(1), Took(1)]), Idle)
  {
    NextEntry(a, b);
    NextEntry(a[..1], b);
    assert b[..1] == b;
  }

  lemma FirstHandsOver(a: Bytes, written: Bytes, submitted: Bytes, answers: seq<Answer>)
    requires a != []
    ensures MainStep(Adding([], Deferring(1, a), written, submitted, answers), HandOver([a]),
                     Adding([a], Idle, written, submitted, answers))
    ensures Adding([a], Idle, written, submitted, answers).Pending(1) == a
  {
    var none: seq<Bytes> := [];
    assert none + [a] == [a] && Flatten([a]) == a;
  }

  /** The run: the first adder stops before it hands over what its socket left, the second writes. */
  function Tangle(a: Bytes, b: Bytes): seq<Moment>
    requires |a| == 2 && |b| == 1
  {
    var first, one, two := Deferring(1, a[1..]), [Took(1)], [Took(1), Took(1)];
    [Moment(Start, Idle), Moment(Adding([], Checking(1, a), [], a, []), Idle),
     Moment(Adding([], Direct(1, a), [], a, []), Idle), Moment(Adding([], first, a[..1], a, one), Idle),
     Moment(Adding([], first, a[..1], a + b, one), Checking(1, b)),
     Moment(Adding([], first, a[..1], a + b, one), Direct(1, b)),
     Moment(Adding([], first, a[..1] + b, a + b, two), Idle),
     Moment(Adding([a[1..]], Idle, a[..1] + b, a + b, two), Idle)]
  }

  function TangleSteps(a: Bytes, b: Bytes): seq<Step>
    requires |a| == 2 && |b| == 1
  {
    [Submit(1, a), ReadFlag, SendDirectly(Took(1)), Submit(1, b), ReadFlag, SendDirectly(Took(1)), HandOver([a[1..]])]
  }

  lemma FirstSteps(a: Bytes, b: Bytes, n: nat)
    requires |a| == 2 && |b| == 1 && n < 3
    ensures AdderStep(Tangle(a, b)[n], TangleSteps(a, b)[n], Tangle(a, b)[n + 1])
  {
    FirstAdder(a);
  }

  lemma MiddleSteps(a: Bytes, b: Bytes, n: nat)
    requires |a| == 2 && |b| == 1 && 3 <= n < 6
    ensures AdderStep(Tangle(a, b)[n], TangleSteps(a, b)[n], Tangle(a, b)[n + 1])
  {
    SecondAdder(Deferring(1, a[1..]), a, b);
  }

  lemma LastStep(a: Bytes, b: Bytes)
    requires |a| == 2 && |b| == 1
    ensures AdderStep(Tangle(a, b)[6], TangleSteps(a, b)[6], Tangle(a, b)[7])
    ensures Tangle(a, b)[7].shared.Pending(1) == a[1..]
  {
    FirstHandsOver(a[1..], a[..1] + b, a + b, [Took(1), Took(1)]);
  }

  /** Were there two threads that add, the unlocked read would not do: a message of the one can end
      up inside a message of the other, with no socket failing. */
  lemma TwoAddersTangle() returns (moments: seq<Moment>, steps: seq<Step>)
    ensures IsAdderRun(moments, steps)
    ensures var end := moments[|steps|];
      && end.shared.main.Idle? && end.other.Idle? && end.shared.failed == {} && end.shared.Submitted(1) == [1, 2, 3]
      && end.shared.Written(1) + end.shared.Pending(1) == [1, 3, 2]
  {
    var a: Bytes, b: Bytes := [1, 2], [3];
    moments, steps := Tangle(a, b), TangleSteps(a, b);
    forall n | 0 <= n < 7
      ensures AdderStep(moments[n], steps[n], moments[n + 1])
    {
      if n < 3 {
        FirstSteps(a, b, n);
      } else if n < 6 {
        MiddleSteps(a, b, n);
      } else {
        LastStep(a, b);
      }
    }
    LastStep(a, b);
    assert a[..1] == [1] && a[1..] == [2] && a + b == [1, 2, 3];
  }
}
