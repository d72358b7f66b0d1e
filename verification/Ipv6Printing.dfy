/** IPAddr6.to_str of pox/lib/addresses.py: the runs it may drop, the text it builds, and the
    proof that the textual constructor reads that text back. */
module Ipv6Printing {
  import opened Wrappers
  import opened TextPieces
  import opened Numerals
  import opened Ipv6Text

  /** The dropped section, as position and length; None when nothing is dropped. */
  type Cut = Option<(nat, nat)>

  predicate ZeroAt(o: seq<nat>, pos: nat, len: nat) {
    pos + len <= |o| && forall i :: pos <= i < pos + len ==> o[i] == 0
  }

  predicate Droppable(o: seq<nat>, cut: Cut) {
    cut.Some? ==> cut.value.1 >= 2 && ZeroAt(o, cut.value.0, cut.value.1)
  }

  /** The leftmost of the longest runs of at least two zero groups, if there is one
      (RFC 5952, sections 4.2.1 to 4.2.3). */
  ghost predicate LeftmostLongest(o: seq<nat>, cut: Cut) {
    && Droppable(o, cut)
    && forall p: nat, l: nat {:trigger ZeroAt(o, p, l)} ::
         ZeroAt(o, p, l) ==> if cut.None? then l < 2 else l < cut.value.1 || (l == cut.value.1 && cut.value.0 <= p)
  }

  lemma LeftmostLongestIsUnique(o: seq<nat>, a: Cut, b: Cut)
    requires LeftmostLongest(o, a) && LeftmostLongest(o, b)
    ensures a == b
  {
    if a.Some? {
      assert ZeroAt(o, a.value.0, a.value.1);
    }
    if b.Some? {
      assert ZeroAt(o, b.value.0, b.value.1);
    }
  }

  // ---------------------------------------------------------------- finding the run

  /** A run of zeros that cannot be extended within the first n groups; length first, as in the
      list z of to_str. */
  predicate IsRun(o: seq<nat>, n: nat, run: (nat, nat))
    requires n <= |o|
  {
    && run.0 > 0 && run.1 + run.0 <= n && ZeroAt(o, run.1, run.0)
    && (run.1 > 0 ==> o[run.1 - 1] != 0) && (run.1 + run.0 < n ==> o[run.1 + run.0] != 0)
  }

  predicate InRun(j: nat, run: (nat, nat)) {
    run.1 <= j < run.1 + run.0
  }

  ghost predicate AllRuns(o: seq<nat>, n: nat, z: seq<(nat, nat)>)
    requires n <= |o|
  {
    && (forall k :: 0 <= k < |z| ==> IsRun(o, n, z[k]))
    && (forall k, l :: 0 <= k < l < |z| ==> z[k].1 < z[l].1)
    && Covered(o, n, z)
  }

  ghost predicate Covered(o: seq<nat>, n: nat, z: seq<(nat, nat)>)
    requires n <= |o|
  {
    forall j: nat :: j < n && o[j] == 0 ==> exists k :: 0 <= k < |z| && InRun(j, z[k])
  }

  function MaxLength(z: seq<(nat, nat)>): (m: nat)
    requires z != []
    ensures (forall k :: 0 <= k < |z| ==> z[k].0 <= m) && exists k :: 0 <= k < |z| && z[k].0 == m
  {
    if |z| == 1 then z[0].0
    else
      var rest := MaxLength(z[1..]);
      assert forall k :: 0 < k < |z| ==> z[k] == z[1..][k - 1];
      if z[0].0 > rest then z[0].0 else rest
  }

  /** Positions are found in order, so the least position is the first. */
  function FirstOfLength(z: seq<(nat, nat)>, m: nat): (k: nat)
    requires exists k :: 0 <= k < |z| && z[k].0 == m
    ensures k < |z| && z[k].0 == m && forall l :: 0 <= l < k ==> z[l].0 != m
  {
    if z[0].0 == m then 0
    else
      var k :| 0 <= k < |z| && z[k].0 == m;
      assert z[1..][k - 1].0 == m;
      assert forall l :: 0 < l < |z| ==> z[l] == z[1..][l - 1];
      1 + FirstOfLength(z[1..], m)
  }

  /** A stretch of zeros lies inside one run. */
  lemma StretchInRun(o: seq<nat>, z: seq<(nat, nat)>, p: nat, l: nat) returns (k: nat)
    requires AllRuns(o, |o|, z) && ZeroAt(o, p, l) && l > 0
    ensures k < |z| && z[k].1 <= p && p + l <= z[k].1 + z[k].0
  {
    assert o[p] == 0;
    k :| 0 <= k < |z| && InRun(p, z[k]);
    assert IsRun(o, |o|, z[k]);
  }

  lemma ChosenRun(o: seq<nat>, z: seq<(nat, nat)>, k: nat)
    requires AllRuns(o, |o|, z) && z != [] && k == FirstOfLength(z, MaxLength(z)) && z[k].0 > 1
    ensures LeftmostLongest(o, Some((z[k].1, z[k].0)))
  {
    assert IsRun(o, |o|, z[k]);
    forall p: nat, l: nat | ZeroAt(o, p, l) ensures l < z[k].0 || (l == z[k].0 && z[k].1 <= p) {
      if l > 0 {
        var j := StretchInRun(o, z, p, l);
        NotBefore(z, j, k);
      }
    }
  }

  lemma NotBefore(z: seq<(nat, nat)>, j: nat, k: nat)
    requires j < |z| && z != [] && k == FirstOfLength(z, MaxLength(z))
    requires forall a, b :: 0 <= a < b < |z| ==> z[a].1 < z[b].1
    ensures z[j].0 < z[k].0 || (z[j].0 == z[k].0 && z[k].1 <= z[j].1)
  {
  }

  lemma NoRun(o: seq<nat>, z: seq<(nat, nat)>)
    requires AllRuns(o, |o|, z) && (z == [] || MaxLength(z) <= 1)
    ensures LeftmostLongest(o, None)
  {
    forall p: nat, l: nat | ZeroAt(o, p, l) ensures l < 2 {
      if l > 0 {
        var j := StretchInRun(o, z, p, l);
      }
    }
  }

  lemma PassGroup(o: seq<nat>, i: nat, z: seq<(nat, nat)>)
    requires i < |o| && o[i] != 0 && AllRuns(o, i, z)
    ensures AllRuns(o, i + 1, z)
  {
    assert forall k :: 0 <= k < |z| ==> IsRun(o, i, z[k]) && IsRun(o, i + 1, z[k]);
  }

  lemma StartRun(o: seq<nat>, i: nat, z: seq<(nat, nat)>)
    requires i < |o| && o[i] == 0 && AllRuns(o, i, z) && (i > 0 ==> o[i - 1] != 0)
    ensures AllRuns(o, i + 1, z + [(1, i)])
  {
    var y := z + [(1, i)];
    forall k | 0 <= k < |y| ensures IsRun(o, i + 1, y[k]) && y[k].1 <= i {
      if k < |z| {
        assert y[k] == z[k] && IsRun(o, i, z[k]);
      }
    }
    forall j: nat | j < i + 1 && o[j] == 0 ensures exists k :: 0 <= k < |y| && InRun(j, y[k]) {
      if j < i {
        var k :| 0 <= k < |z| && InRun(j, z[k]);
        assert InRun(j, y[k]);
      } else {
        assert InRun(j, y[|z|]);
      }
    }
  }

  /** Earlier runs ended before the last one began. */
  lemma EarlierRun(o: seq<nat>, i: nat, a: (nat, nat), last: (nat, nat))
    requires i < |o| && IsRun(o, i, a) && IsRun(o, i, last) && a.1 < last.1
    ensures IsRun(o, i + 1, a)
  {
    assert o[last.1 - 1] != 0;
    assert !InRun(last.1 - 1, a);
  }

  lemma ExtendCovers(o: seq<nat>, i: nat, z: seq<(nat, nat)>, y: seq<(nat, nat)>)
    requires i < |o| && Covered(o, i, z) && z != [] && z[|z| - 1].1 + z[|z| - 1].0 == i
    requires y == z[|z| - 1 := (z[|z| - 1].0 + 1, z[|z| - 1].1)]
    ensures Covered(o, i + 1, y)
  {
    forall j: nat | j < i + 1 && o[j] == 0 ensures exists k :: 0 <= k < |y| && InRun(j, y[k]) {
      if j < i {
        var k :| 0 <= k < |z| && InRun(j, z[k]);
        assert InRun(j, y[k]);
      } else {
        assert InRun(j, y[|z| - 1]);
      }
    }
  }

  lemma LongerRun(o: seq<nat>, i: nat, run: (nat, nat))
    requires i < |o| && o[i] == 0 && IsRun(o, i, run) && run.1 + run.0 == i
    ensures IsRun(o, i + 1, (run.0 + 1, run.1))
  {
  }

  lemma ExtendRun(o: seq<nat>, i: nat, z: seq<(nat, nat)>)
    requires i < |o| && o[i] == 0 && AllRuns(o, i, z) && z != [] && z[|z| - 1].1 + z[|z| - 1].0 == i
    ensures AllRuns(o, i + 1, z[|z| - 1 := (z[|z| - 1].0 + 1, z[|z| - 1].1)])
  {
    var last := |z| - 1;
    var y := z[last := (z[last].0 + 1, z[last].1)];
    forall k | 0 <= k < |y| ensures IsRun(o, i + 1, y[k]) {
      if k < last {
        EarlierRun(o, i, z[k], z[last]);
      } else {
        LongerRun(o, i, z[last]);
      }
    }
    ExtendCovers(o, i, z, y);
  }

  /** The list z of to_str after group i, from the list before it. */
  function WithGroup(o: seq<nat>, i: nat, z: seq<(nat, nat)>, inRun: bool): seq<(nat, nat)>
    requires i < |o| && (inRun ==> z != [])
  {
    if o[i] != 0 then z
    else if inRun then z[|z| - 1 := (z[|z| - 1].0 + 1, z[|z| - 1].1)]
    else z + [(1, i)]
  }

  /** inRun says that the last run ends where the next group starts. */
  ghost predicate RunsSoFar(o: seq<nat>, i: nat, z: seq<(nat, nat)>, inRun: bool)
    requires i <= |o|
  {
    && AllRuns(o, i, z) && (inRun <==> i > 0 && o[i - 1] == 0)
    && (inRun ==> z != [] && z[|z| - 1].1 + z[|z| - 1].0 == i)
  }

  lemma GroupKeepsRuns(o: seq<nat>, i: nat, z: seq<(nat, nat)>, inRun: bool)
    requires i < |o| && RunsSoFar(o, i, z, inRun)
    ensures RunsSoFar(o, i + 1, WithGroup(o, i, z, inRun), o[i] == 0)
  {
    if o[i] != 0 {
      PassGroup(o, i, z);
    } else if inRun {
      ExtendRun(o, i, z);
    } else {
      StartRun(o, i, z);
    }
  }

  method ZeroRuns(o: seq<nat>) returns (z: seq<(nat, nat)>)
    ensures AllRuns(o, |o|, z)
  {
    z := [];
    var inRun := false;
    for i := 0 to |o|
      invariant RunsSoFar(o, i, z, inRun)
    {
      GroupKeepsRuns(o, i, z, inRun);
      z, inRun := WithGroup(o, i, z, inRun), o[i] == 0;
    }
  }

  /** The section that to_str drops. */
  method FindDropped(o: seq<nat>) returns (cut: Cut)
    ensures LeftmostLongest(o, cut)
  {
    var z := ZeroRuns(o);
    if z != [] && MaxLength(z) > 1 {
      var k := FirstOfLength(z, MaxLength(z));
      ChosenRun(o, z, k);
      return Some((z[k].1, z[k].0));
    }
    NoRun(o, z);
    return None;
  }
}
