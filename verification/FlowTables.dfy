/**
  pox/openflow/flow_table.py: a list of entries kept sorted by effective priority, newest
  first among equals, edited by binary-search insertion and by removals in place.
*/
module FlowTables {
  import opened Wrappers
  import opened OfpMatch
  import opened OfpActions

  /** A TableEntry.  id is its identity; later entries have greater ids. */
  datatype Entry = Entry(
    id: nat, pattern: Match, priority: nat, actions: seq<Action>,
    idleTimeout: nat, hardTimeout: nat, created: int, lastTouched: int)
  {
    /** Exact matches outrank every priority. */
    function EffectivePriority(): nat {
      if pattern.IsWildcarded() then priority else 0x1_0000 + 1
    }

    predicate OutputsTo(port: Option<bv16>) {
      port.None? || exists a | a in actions :: a.Output? && a.port == port.value
    }

    predicate IsMatchedBy(m: Match, priority: nat, strict: bool, outPort: Option<bv16>) {
      && OutputsTo(outPort)
      && if strict then Same(pattern, m) && this.priority == priority else Encompasses(m, pattern, true)
    }

    predicate IsIdleTimedOut(now: int) {
      idleTimeout > 0 && now - lastTouched > idleTimeout
    }

    predicate IsHardTimedOut(now: int) {
      hardTimeout > 0 && now - created > hardTimeout
    }

    predicate IsExpired(now: int) {
      IsIdleTimedOut(now) || IsHardTimedOut(now)
    }

    predicate Matches(packet: Match) {
      Encompasses(pattern, packet, false)
    }
  }

  /** a is looked up before b. */
  predicate Before(a: Entry, b: Entry) {
    || a.EffectivePriority() > b.EffectivePriority()
    || (a.EffectivePriority() == b.EffectivePriority() && a.id > b.id)
  }

  /** Who comes first: an exact match before every other, then the higher priority, then the newer. */
  lemma ExactComesFirst(a: Entry, b: Entry)
    requires a.priority <= 0xffff && b.priority <= 0xffff
    ensures var x, y := a.pattern.wildcards & 0x3f_ffff == 0, b.pattern.wildcards & 0x3f_ffff == 0;
      Before(a, b) <==>
        || (x && !y)
        || (!x && !y && a.priority > b.priority)
        || (((x && y) || (!x && !y && a.priority == b.priority)) && a.id > b.id)
  {
  }

  ghost predicate Ordered(table: seq<Entry>) {
    forall i, j | 0 <= i < j < |table| :: Before(table[i], table[j])
  }

  /** The entries whose ids are not in gone, in their order. */
  function Without(table: seq<Entry>, gone: set<nat>): (r: seq<Entry>)
    ensures forall e :: e in r <==> e in table && e.id !in gone
    ensures |r| <= |table|
  {
    if table == [] then []
    else if table[0].id in gone then Without(table[1..], gone)
    else [table[0]] + Without(table[1..], gone)
  }

  function Ids(entries: seq<Entry>): set<nat> {
    set e | e in entries :: e.id
  }

  lemma {:induction false} WithoutIsOrdered(table: seq<Entry>, gone: set<nat>)
    requires Ordered(table)
    ensures Ordered(Without(table, gone))
  {
    if table != [] {
      WithoutIsOrdered(table[1..], gone);
    }
  }

  lemma {:induction false} WithoutLast(table: seq<Entry>, gone: set<nat>, e: Entry)
    ensures Without(table + [e], gone) == Without(table, gone) + (if e.id in gone then [] else [e])
  {
    if table == [] {
      assert [] + [e] == [e];
    } else {
      assert (table + [e])[1..] == table[1..] + [e];
      WithoutLast(table[1..], gone, e);
    }
  }

  lemma {:induction false} WithoutNone(table: seq<Entry>, gone: set<nat>)
    requires forall e | e in table :: e.id !in gone
    ensures Without(table, gone) == table
  {
    if table != [] {
      WithoutNone(table[1..], gone);
    }
  }

  lemma {:induction false} WithoutConcat(a: seq<Entry>, b: seq<Entry>, gone: set<nat>)
    ensures Without(a + b, gone) == Without(a, gone) + Without(b, gone)
  {
    if a == [] {
      assert a + b == b;
    } else {
      assert (a + b)[1..] == a[1..] + b;
      WithoutConcat(a[1..], b, gone);
    }
  }

  ghost predicate DistinctIds(table: seq<Entry>) {
    forall i, j | 0 <= i < j < |table| :: table[i].id != table[j].id
  }

  lemma WithoutKeepsIds(table: seq<Entry>, gone: set<nat>)
    requires DistinctIds(table)
    ensures DistinctIds(Without(table, gone))
  {
    if table != [] {
      WithoutKeepsIds(table[1..], gone);
    }
  }

  function Inserted(table: seq<Entry>, k: nat, e: Entry): seq<Entry>
    requires k <= |table|
  {
    table[..k] + [e] + table[k..]
  }

  lemma InsertedIsOrdered(table: seq<Entry>, k: nat, e: Entry)
    requires k <= |table| && Ordered(table) && DistinctIds(table)
    requires forall i | 0 <= i < |table| :: table[i].id < e.id
    requires forall i | 0 <= i < k :: table[i].EffectivePriority() > e.EffectivePriority()
    requires forall i | k <= i < |table| :: table[i].EffectivePriority() <= e.EffectivePriority()
    ensures Ordered(Inserted(table, k, e)) && DistinctIds(Inserted(table, k, e))
  {
    var t := Inserted(table, k, e);
    forall i, j | 0 <= i < j < |t|
      ensures Before(t[i], t[j]) && t[i].id != t[j].id
    {
      var x, y := if i < k then i else i - 1, if j < k then j else j - 1;
      if i != k && j != k {
        assert t[i] == table[x] && t[j] == table[y];
        assert Before(table[x], table[y]);
      }
    }
  }

  /** How far a removal pass has come: was[..n] is done, and left are the ids still to find. */
  ghost predicate Removing(was: seq<Entry>, gone: set<nat>, n: nat, table: seq<Entry>, i: nat, left: set<nat>) {
    && n <= |was| && i == |Without(was[..n], gone)|
    && table == Without(was[..n], gone) + was[n..]
    && left == gone - Ids(was[..n])
  }

  lemma RemovingStarts(was: seq<Entry>, gone: set<nat>)
    ensures Removing(was, gone, 0, was, 0, gone)
  {
    assert was[0..] == was && was[..0] == [];
  }

  lemma NextIs(was: seq<Entry>, gone: set<nat>, n: nat, table: seq<Entry>, i: nat, left: set<nat>)
    requires DistinctIds(was) && Removing(was, gone, n, table, i, left) && i < |table|
    ensures n < |was| && table[i] == was[n] && (was[n].id in left <==> was[n].id in gone)
  {
  }

  lemma IdsOneMore(was: seq<Entry>, n: nat)
    requires n < |was|
    ensures Ids(was[..n + 1]) == Ids(was[..n]) + {was[n].id}
    ensures was[..n + 1] == was[..n] + [was[n]]
  {
    assert was[..n + 1] == was[..n] + [was[n]];
    assert was[n] in was[..n + 1];
  }

  lemma RemovingStep(was: seq<Entry>, gone: set<nat>, n: nat, table: seq<Entry>, i: nat, left: set<nat>)
    requires DistinctIds(was) && Removing(was, gone, n, table, i, left) && i < |table|
    ensures n < |was| && table[i] == was[n]
    ensures was[n].id in left ==>
      Removing(was, gone, n + 1, table[..i] + table[i + 1..], i, left - {was[n].id})
    ensures was[n].id !in left ==> Removing(was, gone, n + 1, table, i + 1, left)
  {
    NextIs(was, gone, n, table, i, left);
    if was[n].id in left {
      RemovingOne(was, gone, n, table, i, left);
    } else {
      KeepingOne(was, gone, n, table, i, left);
    }
  }

  lemma DropAt(kept: seq<Entry>, was: seq<Entry>, n: nat)
    requires n < |was|
    ensures var t, i := kept + was[n..], |kept|; t[..i] + t[i + 1..] == kept + was[n + 1..]
  {
    var t, i := kept + was[n..], |kept|;
    assert t[..i] == kept && t[i + 1..] == was[n + 1..];
  }

  lemma PassAt(kept: seq<Entry>, was: seq<Entry>, n: nat)
    requires n < |was|
    ensures kept + was[n..] == kept + [was[n]] + was[n + 1..]
  {
    assert was[n..] == [was[n]] + was[n + 1..];
  }

  lemma RemovingOne(was: seq<Entry>, gone: set<nat>, n: nat, table: seq<Entry>, i: nat, left: set<nat>)
    requires Removing(was, gone, n, table, i, left) && n < |was| && was[n].id in left
    ensures i < |table| && Removing(was, gone, n + 1, table[..i] + table[i + 1..], i, left - {was[n].id})
  {
    WithoutLast(was[..n], gone, was[n]);
    IdsOneMore(was, n);
    DropAt(Without(was[..n], gone), was, n);
  }

  lemma KeepingOne(was: seq<Entry>, gone: set<nat>, n: nat, table: seq<Entry>, i: nat, left: set<nat>)
    requires Removing(was, gone, n, table, i, left) && n < |was| && was[n].id !in gone
    ensures Removing(was, gone, n + 1, table, i + 1, left)
  {
    WithoutLast(was[..n], gone, was[n]);
    IdsOneMore(was, n);
    PassAt(Without(was[..n], gone), was, n);
  }

  lemma RestIsFree(was: seq<Entry>, gone: set<nat>, n: nat)
    requires DistinctIds(was) && n <= |was| && gone <= Ids(was[..n])
    ensures Without(was[n..], gone) == was[n..]
  {
    forall e | e in was[n..]
      ensures e.id !in gone
    {
      var y :| n <= y < |was| && was[y] == e;
      forall f | f in was[..n]
        ensures f.id != e.id
      {
        var x :| 0 <= x < n && was[x] == f;
      }
    }
    WithoutNone(was[n..], gone);
  }

  lemma RemovingDone(was: seq<Entry>, gone: set<nat>, n: nat, table: seq<Entry>, i: nat, left: set<nat>)
    requires DistinctIds(was) && Removing(was, gone, n, table, i, left) && gone <= Ids(was)
    requires left == {} || i == |table|
    ensures left == {} && table == Without(was, gone)
  {
    if i == |table| {
      assert was[n..] == [] && was[..n] == was;
    } else {
      RestStays(was, gone, n, table, i);
    }
  }

  lemma RestStays(was: seq<Entry>, gone: set<nat>, n: nat, table: seq<Entry>, i: nat)
    requires DistinctIds(was) && Removing(was, gone, n, table, i, {})
    ensures table == Without(was, gone)
  {
    forall id | id in gone
      ensures id in Ids(was[..n])
    {
      var none: set<nat> := gone - Ids(was[..n]);
      assert id !in none;
    }
    RestIsFree(was, gone, n);
    assert was == was[..n] + was[n..];
    WithoutConcat(was[..n], was[n..], gone);
  }

  lemma WithoutTwice(table: seq<Entry>, a: set<nat>, b: set<nat>)
    ensures Without(Without(table, a), b) == Without(table, a + b)
  {
    if table != [] {
      WithoutTwice(table[1..], a, b);
      if table[0].id !in a {
        assert Without(table, a)[1..] == Without(table[1..], a);
      }
    }
  }

  /** Among entries of one table, an id identifies its entry. */
  lemma IdsPick(table: seq<Entry>, flows: seq<Entry>, e: Entry)
    requires DistinctIds(table) && e in table && forall f | f in flows :: f in table
    ensures e.id in Ids(flows) <==> e in flows
  {
    if e.id in Ids(flows) {
      var f :| f in flows && f.id == e.id;
      var x :| 0 <= x < |table| && table[x] == e;
      var y :| 0 <= y < |table| && table[y] == f;
    }
  }

  class FlowTable {
    var table: seq<Entry>

    ghost predicate Valid()
      reads this
    {
      Ordered(table) && DistinctIds(table)
    }

    constructor ()
      ensures Valid() && table == []
    {
      table := [];
    }

    /** add_entry: binary search for the place, then insertion. */
    method AddEntry(entry: Entry)
      requires Valid() && forall i | 0 <= i < |table| :: table[i].id < entry.id
      modifies this
      ensures Valid()
      ensures exists k | 0 <= k <= |old(table)| :: table == Inserted(old(table), k, entry)
    {
      var priority, t := entry.EffectivePriority(), table;
      var low, high := 0, |t|;
      while low < high
        invariant 0 <= low <= high <= |t|
        invariant forall i | 0 <= i < low :: t[i].EffectivePriority() > priority
        invariant forall i | high <= i < |t| :: t[i].EffectivePriority() <= priority
      {
        var middle := (low + high) / 2;
        RestNoHigher(t, middle);
        if priority >= t[middle].EffectivePriority() {
          high := middle;
          continue;
        }
        low := middle + 1;
      }
      InsertedIsOrdered(t, low, entry);
      table := Inserted(t, low, entry);
    }

    /** matching_entries. */
    method MatchingEntries(m: Match, priority: nat, strict: bool, outPort: Option<bv16>) returns (r: seq<Entry>)
      ensures forall e :: e in r <==> e in table && e.IsMatchedBy(m, priority, strict, outPort)
    {
      r := [];
      for n := 0 to |table|
        invariant forall e :: e in r <==> e in table[..n] && e.IsMatchedBy(m, priority, strict, outPort)
      {
        if table[n].IsMatchedBy(m, priority, strict, outPort) {
          r := r + [table[n]];
        }
      }
    }

    /** _remove_specific_entries. */
    method RemoveSpecificEntries(flows: seq<Entry>)
      requires Valid() && forall e | e in flows :: e in table
      modifies this
      ensures Valid() && table == Without(old(table), Ids(flows))
    {
      WithoutIsOrdered(table, Ids(flows));
      WithoutKeepsIds(table, Ids(flows));
      if |flows| == 0 {
        WithoutNone(table, Ids(flows));
        return;
      }
      RemovePass(Ids(flows));
    }

    /** Its loop: one pass that deletes in place and stops once all are found. */
    method RemovePass(gone: set<nat>)
      requires DistinctIds(table) && gone <= Ids(table)
      modifies this
      ensures table == Without(old(table), gone)
    {
      ghost var was := table;
      var removeFlows := gone;
      var i: nat := 0;
      ghost var n: nat := 0;
      RemovingStarts(was, gone);
      while i < |table|
        invariant DistinctIds(was) && gone <= Ids(was)
        invariant Removing(was, gone, n, table, i, removeFlows)
        decreases |was| - n
      {
        var deleted;
        deleted, n, i, removeFlows := RemoveTurn(was, gone, n, i, removeFlows);
        if deleted && removeFlows == {} { break; }
      }
      RemovingDone(was, gone, n, table, i, removeFlows);
      assert |removeFlows| == 0;
    }

    /** One turn: the entry at i is deleted or passed by. */
    method RemoveTurn(ghost was: seq<Entry>, ghost gone: set<nat>, ghost n: nat, i: nat, removeFlows: set<nat>)
        returns (deleted: bool, ghost seen: nat, next: nat, rest: set<nat>)
      requires DistinctIds(was) && Removing(was, gone, n, table, i, removeFlows) && i < |table|
      modifies this
      ensures n < seen <= |was| && Removing(was, gone, seen, table, next, rest)
      ensures deleted <==> old(table)[i].id in removeFlows
    {
      RemovingStep(was, gone, n, table, i, removeFlows);
      var entry := table[i];
      deleted, seen, next, rest := false, n + 1, i, removeFlows;
      if entry.id in removeFlows {
        deleted := true;
        table := table[..i] + table[i + 1..];
        rest := removeFlows - {entry.id};
      } else {
        next := i + 1;
      }
    }

    /** remove_matching_entries. */
    method RemoveMatchingEntries(m: Match, priority: nat, strict: bool, outPort: Option<bv16>)
        returns (removed: seq<Entry>)
      requires Valid()
      modifies this
      ensures Valid() && table == Without(old(table), Ids(removed))
      ensures forall e :: e in removed <==> e in old(table) && e.IsMatchedBy(m, priority, strict, outPort)
    {
      removed := MatchingEntries(m, priority, strict, outPort);
      RemoveSpecificEntries(removed);
    }

    /** remove_expired_entries: idle ones first, then those past their hard timeout. */
    method RemoveExpiredEntries(now: int)
      requires Valid()
      modifies this
      ensures Valid()
      ensures forall e :: e in table <==> e in old(table) && !e.IsExpired(now)
      ensures exists gone :: table == Without(old(table), gone)
    {
      var idle, hard := Expired(now);
      ghost var was := table;
      RemoveSpecificEntries(idle);
      ghost var mid := table;
      forall e | e in was
        ensures (e.id in Ids(idle) <==> e in idle) && (e.id in Ids(hard) <==> e in hard)
      {
        IdsPick(was, idle, e);
        IdsPick(was, hard, e);
      }
      RemoveSpecificEntries(hard);
      WithoutTwice(was, Ids(idle), Ids(hard));
    }

    method Expired(now: int) returns (idle: seq<Entry>, hard: seq<Entry>)
      ensures forall e :: e in idle <==> e in table && e.IsIdleTimedOut(now)
      ensures forall e :: e in hard <==> e in table && !e.IsIdleTimedOut(now) && e.IsHardTimedOut(now)
    {
      idle, hard := [], [];
      for n := 0 to |table|
        invariant forall e :: e in idle <==> e in table[..n] && e.IsIdleTimedOut(now)
        invariant forall e :: e in hard <==> e in table[..n] && !e.IsIdleTimedOut(now) && e.IsHardTimedOut(now)
      {
        if table[n].IsIdleTimedOut(now) {
          idle := idle + [table[n]];
        } else if table[n].IsHardTimedOut(now) {
          hard := hard + [table[n]];
        }
      }
    }

    /** entry_for_packet: the first hit is the newest match of greatest effective priority. */
    method EntryForPacket(packet: Match) returns (r: Option<Entry>)
      requires Valid()
      ensures r.None? ==> forall e | e in table :: !e.Matches(packet)
      ensures r.Some? ==> r.value in table && r.value.Matches(packet)
      ensures r.Some? ==> forall e | e in table && e.Matches(packet) && e != r.value :: Before(r.value, e)
    {
      for n := 0 to |table|
        invariant forall i | 0 <= i < n :: !table[i].Matches(packet)
      {
        if table[n].Matches(packet) {
          return Some(table[n]);
        }
      }
      return None;
    }

    /** check_for_overlapping_entry: stopping at the first lower priority misses nothing. */
    method CheckForOverlappingEntry(inEntry: Entry) returns (r: bool)
      requires Valid()
      ensures r <==> exists e | e in table :: Overlaps(inEntry, e)
    {
      var priority := inEntry.EffectivePriority();
      for n := 0 to |table|
        invariant forall i | 0 <= i < n :: !Overlaps(inEntry, table[i])
      {
        var e := table[n];
        if e.EffectivePriority() < priority {
          RestNoHigher(table, n);
          return false;
        } else if e.EffectivePriority() > priority {
          continue;
        } else {
          if e.IsMatchedBy(inEntry.pattern, 0, false, None) || inEntry.IsMatchedBy(e.pattern, 0, false, None) {
            assert Overlaps(inEntry, e);
            return true;
          }
        }
      }
      return false;
    }
  }

  /** Equal effective priority, and one encompasses the other. */
  predicate Overlaps(a: Entry, b: Entry) {
    && a.EffectivePriority() == b.EffectivePriority()
    && (Encompasses(a.pattern, b.pattern, true) || Encompasses(b.pattern, a.pattern, true))
  }

  lemma RestNoHigher(table: seq<Entry>, n: nat)
    requires Ordered(table) && n < |table|
    ensures forall i | n <= i < |table| :: table[i].EffectivePriority() <= table[n].EffectivePriority()
    ensures forall i | 0 <= i <= n :: table[i].EffectivePriority() >= table[n].EffectivePriority()
  {
    forall i | n < i < |table|
      ensures table[i].EffectivePriority() <= table[n].EffectivePriority()
    {
      assert Before(table[n], table[i]);
    }
    forall i | 0 <= i < n
      ensures table[i].EffectivePriority() >= table[n].EffectivePriority()
    {
      assert Before(table[i], table[n]);
    }
  }
}
