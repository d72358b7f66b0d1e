/**
  pox/datapaths/switch.py: the flow-mod handlers (OpenFlow Switch Specification 1.0.0,
  section 4.6).  Seen from outside, the flow table is a finite map from (match, priority)
  to actions, and each command is an operation on that map.
*/
module SwitchTables {
  import opened Wrappers
  import opened WildcardBits
  import opened OfpMatch
  import opened OfpActions
  import opened FlowTables
  import opened FiniteMaps

  const OFPP_NONE: bv16 := 0xffff

  datatype Command = Add | Modify | ModifyStrict | Delete | DeleteStrict

  datatype FlowMod = FlowMod(
    command: Command, pattern: Match, priority: nat, actions: seq<Action>, idleTimeout: nat, hardTimeout: nat,
    sendFlowRem: bool, checkOverlap: bool, emerg: bool, outPort: bv16)

  datatype Refusal = BadEmergTimeout | Eperm | AllTablesFull | Overlapping

  // ---------------------------------------------------------------- the map

  /** (match, priority): two entries with equal matches and priorities have the same key. */
  type Key = (View, nat)

  datatype Rule = Rule(actions: seq<Action>, idleTimeout: nat, hardTimeout: nat, created: int, touched: int)
  {
    predicate IsExpired(now: int) {
      (idleTimeout > 0 && now - touched > idleTimeout) || (hardTimeout > 0 && now - created > hardTimeout)
    }
  }

  type Rules = map<Key, Rule>

  function KeyOf(e: Entry): Key {
    (Observed(e.pattern), e.priority)
  }

  function Target(fm: FlowMod): Key {
    (Observed(fm.pattern), fm.priority)
  }

  function RuleOf(e: Entry): Rule {
    Rule(e.actions, e.idleTimeout, e.hardTimeout, e.created, e.lastTouched)
  }

  function NewRule(fm: FlowMod, now: int): Rule {
    Rule(fm.actions, fm.idleTimeout, fm.hardTimeout, now, now)
  }

  function RulesOf(table: seq<Entry>): Rules {
    MapOf(table, KeyOf, RuleOf)
  }

  /** No two entries share match and priority. */
  ghost predicate NoTwins(table: seq<Entry>) {
    Keyed(table, KeyOf)
  }

  /** Does a command pick what is held under this key? */
  predicate Selects(fm: FlowMod, strict: bool, k: Key) {
    if strict then k == Target(fm) else Wider(Observed(fm.pattern), k.0, true)
  }

  function OutPort(fm: FlowMod): Option<bv16> {
    if fm.outPort == OFPP_NONE then None else Some(fm.outPort)
  }

  predicate SomeOutputTo(actions: seq<Action>, port: Option<bv16>) {
    port.None? || exists a | a in actions :: a.Output? && a.port == port.value
  }

  lemma PicksByKey(fm: FlowMod, strict: bool, e: Entry, outPort: Option<bv16>)
    ensures e.IsMatchedBy(fm.pattern, fm.priority, strict, outPort) <==>
      Selects(fm, strict, KeyOf(e)) && SomeOutputTo(e.actions, outPort)
  {
    SameIsSameView(e.pattern, fm.pattern);
    EncompassesInView(fm.pattern, e.pattern, true);
  }

  function Modified(rules: Rules, fm: FlowMod, strict: bool): Rules {
    map k | k in rules :: if k in Hit(rules, fm, strict) then rules[k].(actions := fm.actions) else rules[k]
  }

  /** The keys a deletion removes. */
  function Gone(rules: Rules, fm: FlowMod, strict: bool): set<Key> {
    set k | k in rules && Selects(fm, strict, k) && SomeOutputTo(rules[k].actions, OutPort(fm))
  }

  lemma GoneByKey(was: seq<Entry>, fm: FlowMod, strict: bool, e: Entry)
    requires NoTwins(was) && e in was
    ensures e.IsMatchedBy(fm.pattern, fm.priority, strict, OutPort(fm)) <==> KeyOf(e) in Gone(RulesOf(was), fm, strict)
  {
    MapHolds(was, KeyOf, RuleOf);
    PicksByKey(fm, strict, e, OutPort(fm));
  }

  lemma DeletedRules(was: seq<Entry>, now: seq<Entry>, fm: FlowMod, strict: bool)
    requires NoTwins(was) && NoTwins(now)
    requires forall f :: f in now <==> f in was && !f.IsMatchedBy(fm.pattern, fm.priority, strict, OutPort(fm))
    ensures RulesOf(now) == RulesOf(was) - Gone(RulesOf(was), fm, strict)
  {
    var gone := Gone(RulesOf(was), fm, strict);
    forall f | f in was
      ensures f.IsMatchedBy(fm.pattern, fm.priority, strict, OutPort(fm)) <==> KeyOf(f) in gone
    {
      GoneByKey(was, fm, strict, f);
    }
    FilteredItems(was, now, KeyOf, RuleOf, gone);
  }

  /** The table with the actions of matched entries replaced. */
  function Rewritten(table: seq<Entry>, fm: FlowMod, strict: bool): (r: seq<Entry>)
    ensures |r| == |table|
  {
    seq(|table|, n requires 0 <= n < |table| => Rewrite(table[n], fm, strict))
  }

  function Rewrite(e: Entry, fm: FlowMod, strict: bool): Entry {
    if e.IsMatchedBy(fm.pattern, fm.priority, strict, None) then e.(actions := fm.actions) else e
  }

  lemma RewrittenOrder(table: seq<Entry>, fm: FlowMod, strict: bool)
    requires Ordered(table) && DistinctIds(table)
    ensures Ordered(Rewritten(table, fm, strict)) && DistinctIds(Rewritten(table, fm, strict))
  {
    var t := Rewritten(table, fm, strict);
    forall i, j | 0 <= i < j < |t|
      ensures Before(t[i], t[j]) && t[i].id != t[j].id
    {
      assert Before(table[i], table[j]) && table[i].id != table[j].id;
    }
  }

  lemma RewrittenTwins(table: seq<Entry>, fm: FlowMod, strict: bool)
    requires NoTwins(table)
    ensures NoTwins(Rewritten(table, fm, strict))
  {
    var t := Rewritten(table, fm, strict);
    forall e, f | e in t && f in t && KeyOf(e) == KeyOf(f)
      ensures e == f
    {
      var i :| 0 <= i < |t| && t[i] == e;
      var j :| 0 <= j < |t| && t[j] == f;
      RewriteKeepsKey(table[i], fm, strict);
      RewriteKeepsKey(table[j], fm, strict);
      assert table[i] in table && table[j] in table;
    }
  }

  lemma RewriteKeepsKey(e: Entry, fm: FlowMod, strict: bool)
    ensures KeyOf(Rewrite(e, fm, strict)) == KeyOf(e)
  {
  }

  lemma RewrittenKeeps(table: seq<Entry>, fm: FlowMod, strict: bool)
    requires Ordered(table) && DistinctIds(table) && NoTwins(table)
    ensures var t := Rewritten(table, fm, strict); Ordered(t) && DistinctIds(t) && NoTwins(t)
  {
    RewrittenOrder(table, fm, strict);
    RewrittenTwins(table, fm, strict);
  }

  function Hit(rules: Rules, fm: FlowMod, strict: bool): set<Key> {
    set k | k in rules && Selects(fm, strict, k)
  }

  lemma HitByKey(was: seq<Entry>, fm: FlowMod, strict: bool, e: Entry)
    requires NoTwins(was) && e in was
    ensures e.IsMatchedBy(fm.pattern, fm.priority, strict, None) <==> KeyOf(e) in Hit(RulesOf(was), fm, strict)
  {
    MapHolds(was, KeyOf, RuleOf);
    PicksByKey(fm, strict, e, None);
  }

  function WithActions(r: Rule, fm: FlowMod): Rule {
    r.(actions := fm.actions)
  }

  lemma ModifiedRules(was: seq<Entry>, fm: FlowMod, strict: bool)
    requires NoTwins(was) && NoTwins(Rewritten(was, fm, strict))
    ensures RulesOf(Rewritten(was, fm, strict)) == Modified(RulesOf(was), fm, strict)
  {
    var now, hit := Rewritten(was, fm, strict), Hit(RulesOf(was), fm, strict);
    forall n | 0 <= n < |was|
      ensures KeyOf(now[n]) == KeyOf(was[n])
      ensures RuleOf(now[n]) == if KeyOf(was[n]) in hit then WithActions(RuleOf(was[n]), fm) else RuleOf(was[n])
    {
      HitByKey(was, fm, strict, was[n]);
    }
    RewrittenItems(was, now, KeyOf, RuleOf, hit, (r: Rule) => WithActions(r, fm));
  }

  // ---------------------------------------------------------------- the handlers

  function NewEntry(fm: FlowMod, id: nat, now: int): Entry {
    Entry(id, fm.pattern, fm.priority, fm.actions, fm.idleTimeout, fm.hardTimeout, now, now)
  }

  /** Exact matches outrank every priority. */
  function Rank(k: Key): nat {
    if k.0.wildcards & OFPFW_ALL != 0 then k.1 else 0x1_0000 + 1
  }

  predicate KeysOverlap(k: Key, l: Key) {
    Rank(k) == Rank(l) && (Wider(k.0, l.0, true) || Wider(l.0, k.0, true))
  }

  /** Why an entry would not be added; the table is full only for keys it does not hold. */
  function Refused(rules: Rules, maxEntries: nat, fm: FlowMod): Option<Refusal> {
    if fm.emerg then
      if fm.idleTimeout != 0 || fm.hardTimeout != 0 then Some(BadEmergTimeout)
      else if fm.sendFlowRem then Some(Eperm)
      else Some(AllTablesFull)
    else if fm.checkOverlap && exists k | k in rules :: KeysOverlap(Target(fm), k) then Some(Overlapping)
    else if |rules| >= maxEntries && Target(fm) !in rules then Some(AllTablesFull)
    else None
  }

  lemma RankByKey(e: Entry)
    ensures e.EffectivePriority() == Rank(KeyOf(e))
  {
  }

  lemma OverlapByKey(a: Entry, b: Entry)
    ensures Overlaps(a, b) <==> KeysOverlap(KeyOf(a), KeyOf(b))
  {
    RankByKey(a);
    RankByKey(b);
    WiderByKey(a, b);
    WiderByKey(b, a);
  }

  lemma WiderByKey(a: Entry, b: Entry)
    ensures Encompasses(a.pattern, b.pattern, true) <==> Wider(KeyOf(a).0, KeyOf(b).0, true)
  {
    EncompassesInView(a.pattern, b.pattern, true);
  }

  /** Overlap and size of the table can be told from its map. */
  lemma RefusedByRules(table: seq<Entry>, fm: FlowMod, id: nat, now: int)
    requires NoTwins(table) && DistinctIds(table)
    ensures |RulesOf(table)| == |table|
    ensures (exists e | e in table :: Overlaps(NewEntry(fm, id, now), e)) <==>
            exists k | k in RulesOf(table) :: KeysOverlap(Target(fm), k)
  {
    MapHolds(table, KeyOf, RuleOf);
    MapSize(table, KeyOf, RuleOf);
    forall e ensures Overlaps(NewEntry(fm, id, now), e) <==> KeysOverlap(Target(fm), KeyOf(e)) {
      OverlapByKey(NewEntry(fm, id, now), e);
    }
    forall k | k in RulesOf(table) && KeysOverlap(Target(fm), k)
      ensures exists e | e in table :: Overlaps(NewEntry(fm, id, now), e)
    {
      var e :| e in table && KeyOf(e) == k;
    }
  }

  /** What every command keeps. */
  ghost predicate TableOk(table: seq<Entry>, maxEntries: nat, nextId: nat) {
    && Ordered(table) && DistinctIds(table) && NoTwins(table) && |table| <= maxEntries
    && forall i | 0 <= i < |table| :: table[i].id < nextId
  }

  lemma TargetByKey(fm: FlowMod, e: Entry)
    ensures e.IsMatchedBy(fm.pattern, fm.priority, true, None) <==> KeyOf(e) == Target(fm)
  {
    SameIsSameView(e.pattern, fm.pattern);
  }

  lemma FewerWithout(table: seq<Entry>, gone: set<nat>, e: Entry)
    requires e in table && e.id in gone
    ensures |Without(table, gone)| < |table|
  {
    if table[0] != e {
      FewerWithout(table[1..], gone, e);
    }
  }

  /** Removing the entries of the new entry's key makes room or changes nothing. */
  lemma ClearedForTarget(was: seq<Entry>, mid: seq<Entry>, removed: seq<Entry>, fm: FlowMod, maxEntries: nat,
                         nextId: nat)
    requires TableOk(was, maxEntries, nextId) && mid == Without(was, Ids(removed))
    requires forall e :: e in removed <==> e in was && e.IsMatchedBy(fm.pattern, fm.priority, true, None)
    ensures TableOk(mid, maxEntries, nextId)
    ensures forall e :: e in mid <==> e in was && KeyOf(e) != Target(fm)
    ensures Target(fm) !in RulesOf(was) ==> mid == was
    ensures Target(fm) in RulesOf(was) ==> |mid| < maxEntries
  {
    MapHolds(was, KeyOf, RuleOf);
    WithoutIsOrdered(was, Ids(removed));
    WithoutKeepsIds(was, Ids(removed));
    forall e | e in was
      ensures e.id in Ids(removed) <==> KeyOf(e) == Target(fm)
    {
      IdsPick(was, removed, e);
      TargetByKey(fm, e);
    }
    if Target(fm) in RulesOf(was) {
      var e :| e in was && KeyOf(e) == Target(fm);
      FewerWithout(was, Ids(removed), e);
    } else {
      WithoutNone(was, Ids(removed));
    }
  }

  lemma InsertedRules(was: seq<Entry>, mid: seq<Entry>, k: nat, e: Entry, maxEntries: nat, nextId: nat)
    requires TableOk(mid, maxEntries, nextId) && |mid| < maxEntries && e.id == nextId && k <= |mid|
    requires NoTwins(was) && forall f :: f in mid <==> f in was && KeyOf(f) != KeyOf(e)
    requires Ordered(Inserted(mid, k, e)) && DistinctIds(Inserted(mid, k, e))
    ensures TableOk(Inserted(mid, k, e), maxEntries, nextId + 1)
    ensures RulesOf(Inserted(mid, k, e)) == RulesOf(was)[KeyOf(e) := RuleOf(e)]
  {
    var now := Inserted(mid, k, e);
    forall f
      ensures f in now <==> f == e || f in mid
    {
      if f in mid {
        var i :| 0 <= i < |mid| && mid[i] == f;
        assert now[if i < k then i else i + 1] == f;
      }
      assert now[k] == e;
    }
    forall i | 0 <= i < |now|
      ensures now[i].id < nextId + 1
    {
      if i != k {
        var x := if i < k then i else i - 1;
        assert now[i] == mid[x];
      }
    }
    AddedItem(was, now, KeyOf, RuleOf, e);
  }

  class SoftwareSwitch {
    const table: FlowTable
    const maxEntries: nat
    var nextId: nat

    ghost predicate Valid()
      reads this, table
    {
      TableOk(table.table, maxEntries, nextId)
    }

    constructor (maxEntries: nat)
      ensures Valid() && this.maxEntries == maxEntries && fresh(table) && table.table == []
    {
      this.maxEntries := maxEntries;
      table := new FlowTable();
      nextId := 0;
    }

    /** _flow_mod_add.  A modification that acts as an addition skips the removal, which is
        safe only because it found nothing under its own key. */
    method FlowModAdd(fm: FlowMod, now: int) returns (err: Option<Refusal>)
      requires Valid() && (fm.command == Add || Target(fm) !in RulesOf(table.table))
      modifies this, table
      ensures Valid() && err == Refused(RulesOf(old(table.table)), maxEntries, fm)
      ensures err.Some? ==> table.table == old(table.table)
      ensures err.None? ==> RulesOf(table.table) == RulesOf(old(table.table))[Target(fm) := NewRule(fm, now)]
    {
      if fm.emerg {
        if fm.idleTimeout != 0 || fm.hardTimeout != 0 {
          return Some(BadEmergTimeout);
        }
        if fm.sendFlowRem {
          return Some(Eperm);
        }
        return Some(AllTablesFull);
      }
      var newEntry := NewEntry(fm, nextId, now);
      RefusedByRules(table.table, fm, nextId, now);
      if fm.checkOverlap {
        var overlap := table.CheckForOverlappingEntry(newEntry);
        if overlap {
          return Some(Overlapping);
        }
      }
      err := Insert(fm, newEntry, now);
    }

    /** The rest of _flow_mod_add, once the entry may be added. */
    method Insert(fm: FlowMod, newEntry: Entry, now: int) returns (err: Option<Refusal>)
      requires Valid() && (fm.command == Add || Target(fm) !in RulesOf(table.table))
      requires newEntry.id == nextId && KeyOf(newEntry) == Target(fm) && RuleOf(newEntry) == NewRule(fm, now)
      modifies this, table
      ensures Valid()
      ensures err == if |old(table.table)| >= maxEntries && Target(fm) !in RulesOf(old(table.table))
                     then Some(AllTablesFull) else None
      ensures err.Some? ==> table.table == old(table.table)
      ensures err.None? ==> RulesOf(table.table) == RulesOf(old(table.table))[Target(fm) := NewRule(fm, now)]
    {
      ghost var was := table.table;
      Clear(fm);
      if |table.table| >= maxEntries {
        return Some(AllTablesFull);
      }
      ghost var mid := table.table;
      table.AddEntry(newEntry);
      ghost var k :| 0 <= k <= |mid| && table.table == Inserted(mid, k, newEntry);
      InsertedRules(was, mid, k, newEntry, maxEntries, nextId);
      nextId := nextId + 1;
      return None;
    }

    method Clear(fm: FlowMod)
      requires Valid() && (fm.command == Add || Target(fm) !in RulesOf(table.table))
      modifies table
      ensures Valid()
      ensures forall e :: e in table.table <==> e in old(table.table) && KeyOf(e) != Target(fm)
      ensures Target(fm) !in RulesOf(old(table.table)) ==> table.table == old(table.table)
      ensures Target(fm) in RulesOf(old(table.table)) ==> |table.table| < maxEntries
    {
      ghost var was := table.table;
      if fm.command == Add {
        var removed := table.RemoveMatchingEntries(fm.pattern, fm.priority, true, None);
        ClearedForTarget(was, table.table, removed, fm, maxEntries, nextId);
      } else {
        MapHolds(was, KeyOf, RuleOf);
      }
    }

    /** _flow_mod_modify and _flow_mod_modify_strict: what is selected gets the new actions;
        if nothing is, the modification acts as an addition. */
    method FlowModModify(fm: FlowMod, strict: bool, now: int) returns (err: Option<Refusal>)
      requires Valid() && fm.command != Add
      modifies this, table
      ensures Valid()
      ensures var rules := RulesOf(old(table.table));
        if Hit(rules, fm, strict) != {} then
          err.None? && RulesOf(table.table) == Modified(rules, fm, strict)
        else
          && err == Refused(RulesOf(old(table.table)), maxEntries, fm)
          && RulesOf(table.table) == (if err.None? then rules[Target(fm) := NewRule(fm, now)] else rules)
    {
      var modified := RewriteAll(fm, strict);
      if !modified {
        TargetIsHit(table.table, fm, strict);
        err := FlowModAdd(fm, now);
      } else {
        err := None;
      }
    }

    /** The loop of _flow_mod_modify. */
    method RewriteAll(fm: FlowMod, strict: bool) returns (modified: bool)
      requires Valid()
      modifies table
      ensures Valid()
      ensures modified <==> Hit(RulesOf(old(table.table)), fm, strict) != {}
      ensures modified ==> RulesOf(table.table) == Modified(RulesOf(old(table.table)), fm, strict)
      ensures !modified ==> table.table == old(table.table)
    {
      ghost var was := table.table;
      modified := false;
      for n := 0 to |table.table|
        invariant |table.table| == |was|
        invariant forall i | 0 <= i < |was| :: table.table[i] == if i < n then Rewrite(was[i], fm, strict) else was[i]
        invariant modified <==> exists i | 0 <= i < n :: was[i].IsMatchedBy(fm.pattern, fm.priority, strict, None)
      {
        var entry := table.table[n];
        if entry.IsMatchedBy(fm.pattern, fm.priority, strict, None) {
          table.table := table.table[n := entry.(actions := fm.actions)];
          modified := true;
        }
      }
      RewriteDone(was, table.table, fm, strict, maxEntries, nextId, modified);
    }

    /** _flow_mod_delete and _flow_mod_delete_strict. */
    method FlowModDelete(fm: FlowMod, strict: bool)
      requires Valid()
      modifies table
      ensures Valid()
      ensures RulesOf(table.table) == RulesOf(old(table.table)) - Gone(RulesOf(old(table.table)), fm, strict)
    {
      ghost var was := table.table;
      var outPort := OutPort(fm);
      var removed := table.RemoveMatchingEntries(fm.pattern, fm.priority, strict, outPort);
      forall e | e in was
        ensures e.id in Ids(removed) <==> e in removed
      {
        IdsPick(was, removed, e);
      }
      SubTableOk(was, table.table, Ids(removed), maxEntries, nextId);
      DeletedRules(was, table.table, fm, strict);
    }

    /** Entries expire: keys only disappear, and each exactly when its entry's time is up. */
    method Expire(now: int)
      requires Valid()
      modifies table
      ensures Valid()
      ensures forall e :: e in table.table <==> e in old(table.table) && !e.IsExpired(now)
      ensures RulesOf(table.table) == RulesOf(old(table.table)) - Outdated(RulesOf(old(table.table)), now)
    {
      ghost var was := table.table;
      table.RemoveExpiredEntries(now);
      ghost var gone :| table.table == Without(was, gone);
      SubTableOk(was, table.table, gone, maxEntries, nextId);
      ExpiredRules(was, table.table, now);
    }

    /** A packet arrives: the entry it hits is touched. */
    method RxPacket(packet: Match, now: int)
      requires Valid()
      modifies table
      ensures Valid()
      ensures PacketSeen(RulesOf(old(table.table)), packet, now, RulesOf(table.table))
    {
      var hit := table.EntryForPacket(packet);
      if hit.Some? {
        BestIsTop(table.table, hit.value, packet);
        TouchedKeeps(table.table, hit.value, now, maxEntries, nextId);
        table.table := Touched(table.table, hit.value, now);
      } else {
        NoneMatches(table.table, packet);
      }
    }

    /** _rx_flow_mod for the five commands. */
    method RxFlowMod(fm: FlowMod, now: int) returns (err: Option<Refusal>)
      requires Valid()
      modifies this, table
      ensures Valid()
      ensures Commanded(RulesOf(old(table.table)), maxEntries, fm, now, RulesOf(table.table), err)
    {
      err := None;
      match fm.command
      case Add => err := FlowModAdd(fm, now);
      case Modify => err := FlowModModify(fm, false, now);
      case ModifyStrict => err := FlowModModify(fm, true, now);
      case Delete => FlowModDelete(fm, false);
      case DeleteStrict => FlowModDelete(fm, true);
    }

    method Take(e: Event) returns (err: Option<Refusal>)
      requires Valid()
      modifies this, table
      ensures Valid() && Follows(RulesOf(old(table.table)), maxEntries, e, RulesOf(table.table), err)
    {
      err := None;
      match e
      case FlowModded(fm, now) => err := RxFlowMod(fm, now);
      case TimePassed(now) => Expire(now);
      case PacketArrived(packet, now) => RxPacket(packet, now);
    }

    /** Any run of flow-mods, packets and expiry keeps the table sorted, free of twins, and within
        maxEntries; and the map it stands for takes exactly the steps of its events, with exactly
        the refusals they deserve. */
    method Run(events: seq<Event>) returns (errs: seq<Option<Refusal>>, ghost history: seq<Rules>)
      requires Valid()
      modifies this, table
      ensures Valid()
      ensures |history| == |events| + 1 && |errs| == |events|
      ensures history[0] == RulesOf(old(table.table)) && history[|events|] == RulesOf(table.table)
      ensures forall n | 0 <= n < |events| :: Follows(history[n], maxEntries, events[n], history[n + 1], errs[n])
    {
      errs, history := [], [RulesOf(table.table)];
      for n := 0 to |events|
        invariant Valid() && |history| == n + 1 && |errs| == n
        invariant history[0] == RulesOf(old(table.table)) && history[n] == RulesOf(table.table)
        invariant forall m | 0 <= m < n :: Follows(history[m], maxEntries, events[m], history[m + 1], errs[m])
      {
        var err := Take(events[n]);
        errs, history := errs + [err], history + [RulesOf(table.table)];
      }
    }
  }

  // ---------------------------------------------------------------- the steps of the map

  datatype Event = FlowModded(fm: FlowMod, now: int) | TimePassed(now: int) | PacketArrived(packet: Match, now: int)

  /** One step of the map. */
  ghost predicate Follows(was: Rules, maxEntries: nat, e: Event, now: Rules, err: Option<Refusal>) {
    match e
    case FlowModded(fm, time) => Commanded(was, maxEntries, fm, time, now, err)
    case TimePassed(time) => err.None? && now == was - Outdated(was, time)
    case PacketArrived(packet, time) => err.None? && PacketSeen(was, packet, time, now)
  }

  /** The five commands as operations on the map. */
  ghost predicate Commanded(was: Rules, maxEntries: nat, fm: FlowMod, time: int, now: Rules, err: Option<Refusal>) {
    var strict := fm.command.ModifyStrict? || fm.command.DeleteStrict?;
    if fm.command.Delete? || fm.command.DeleteStrict? then
      err.None? && now == was - Gone(was, fm, strict)
    else if !fm.command.Add? && Hit(was, fm, strict) != {} then
      err.None? && now == Modified(was, fm, strict)
    else
      && err == Refused(was, maxEntries, fm)
      && now == if err.None? then was[Target(fm) := NewRule(fm, time)] else was
  }

  /** What a deletion leaves, key by key: what it does not select, and, if it names a port, what does
      not output to it. */
  lemma DeletionMeans(was: Rules, maxEntries: nat, fm: FlowMod, time: int, now: Rules, err: Option<Refusal>)
    requires Commanded(was, maxEntries, fm, time, now, err) && (fm.command.Delete? || fm.command.DeleteStrict?)
    ensures err == None && forall k :: k in now ==> k in was && now[k] == was[k]
    ensures forall k :: k in was ==>
      (k !in now <==>
         && (if fm.command.DeleteStrict? then k == (Observed(fm.pattern), fm.priority)
             else Wider(Observed(fm.pattern), k.0, true))
         && (fm.outPort == 0xffff || exists a | a in was[k].actions :: a.Output? && a.port == fm.outPort))
  {
  }

  /** What a modification leaves that selects something: every key, those selected with the new actions and
      all else as it was. */
  lemma ModificationMeans(was: Rules, maxEntries: nat, fm: FlowMod, time: int, now: Rules, err: Option<Refusal>,
                          hit: Key)
    requires Commanded(was, maxEntries, fm, time, now, err) && (fm.command.Modify? || fm.command.ModifyStrict?)
    requires hit in was && if fm.command.ModifyStrict? then hit == (Observed(fm.pattern), fm.priority)
                           else Wider(Observed(fm.pattern), hit.0, true)
    ensures err == None && now.Keys == was.Keys
    ensures forall k :: k in was ==>
      now[k] == if if fm.command.ModifyStrict? then k == (Observed(fm.pattern), fm.priority)
                   else Wider(Observed(fm.pattern), k.0, true)
                then Rule(fm.actions, was[k].idleTimeout, was[k].hardTimeout, was[k].created, was[k].touched)
                else was[k]
  {
    assert hit in Hit(was, fm, fm.command.ModifyStrict?);
  }

  /** What an addition leaves, and a modification that selects nothing: the rule under its key alone, or
      the reason why not. */
  lemma AdditionMeans(was: Rules, maxEntries: nat, fm: FlowMod, time: int, now: Rules, err: Option<Refusal>)
    requires Commanded(was, maxEntries, fm, time, now, err)
    requires match fm.command
             case Add => true
             case Modify => forall k | k in was :: !Wider(Observed(fm.pattern), k.0, true)
             case ModifyStrict => (Observed(fm.pattern), fm.priority) !in was
             case _ => false
    ensures var key := (Observed(fm.pattern), fm.priority);
      now == if err.Some? then was
             else was[key := Rule(fm.actions, fm.idleTimeout, fm.hardTimeout, time, time)]
    ensures fm.emerg ==> err.Some?
    ensures !fm.emerg && !fm.checkOverlap ==>
      (err.Some? <==> |was| >= maxEntries && (Observed(fm.pattern), fm.priority) !in was)
  {
  }

  predicate KeyMatches(k: Key, packet: Match) {
    Wider(k.0, Observed(packet), false)
  }

  /** A key of greatest rank among those that match the packet. */
  ghost predicate IsTop(rules: Rules, packet: Match, k: Key) {
    k in rules && KeyMatches(k, packet) && forall l | l in rules && KeyMatches(l, packet) :: Rank(l) <= Rank(k)
  }

  /** The packet postpones the idle timeout of one best match, and of nothing else. */
  ghost predicate PacketSeen(was: Rules, packet: Match, time: int, now: Rules) {
    if forall k | k in was :: !KeyMatches(k, packet) then now == was
    else exists k :: IsTop(was, packet, k) && now == was[k := was[k].(touched := time)]
  }

  lemma MatchesByKey(e: Entry, packet: Match)
    ensures e.Matches(packet) <==> KeyMatches(KeyOf(e), packet)
    ensures e.EffectivePriority() == Rank(KeyOf(e))
  {
    EncompassesInView(e.pattern, packet, false);
    RankByKey(e);
  }

  lemma NoneMatches(table: seq<Entry>, packet: Match)
    requires NoTwins(table) && forall e | e in table :: !e.Matches(packet)
    ensures forall k | k in RulesOf(table) :: !KeyMatches(k, packet)
  {
    MapHolds(table, KeyOf, RuleOf);
    forall k | k in RulesOf(table)
      ensures !KeyMatches(k, packet)
    {
      var e :| e in table && KeyOf(e) == k;
      MatchesByKey(e, packet);
    }
  }

  lemma BestIsTop(table: seq<Entry>, best: Entry, packet: Match)
    requires NoTwins(table) && best in table && best.Matches(packet)
    requires forall e | e in table && e.Matches(packet) && e != best :: Before(best, e)
    ensures IsTop(RulesOf(table), packet, KeyOf(best))
  {
    MapHolds(table, KeyOf, RuleOf);
    MatchesByKey(best, packet);
    forall l | l in RulesOf(table) && KeyMatches(l, packet)
      ensures Rank(l) <= Rank(KeyOf(best))
    {
      var e :| e in table && KeyOf(e) == l;
      MatchesByKey(e, packet);
    }
  }

  function Touch(e: Entry, now: int): Entry {
    e.(lastTouched := now)
  }

  /** The table with one entry touched. */
  function Touched(table: seq<Entry>, e: Entry, now: int): seq<Entry> {
    seq(|table|, n requires 0 <= n < |table| => if table[n].id == e.id then Touch(table[n], now) else table[n])
  }

  lemma TouchedMembers(was: seq<Entry>, e: Entry, now: int)
    requires DistinctIds(was) && NoTwins(was) && e in was
    ensures forall f :: f in Touched(was, e, now) <==> f == Touch(e, now) || (f in was && KeyOf(f) != KeyOf(e))
  {
    var t := Touched(was, e, now);
    var n :| 0 <= n < |was| && was[n] == e;
    assert t[n] == Touch(e, now);
    forall f | f in was && KeyOf(f) != KeyOf(e)
      ensures f in t
    {
      var i :| 0 <= i < |was| && was[i] == f;
      assert t[i] == f;
    }
    forall f | f in t
      ensures f == Touch(e, now) || (f in was && KeyOf(f) != KeyOf(e))
    {
      var i :| 0 <= i < |t| && t[i] == f;
      assert was[i] in was && (i == n || was[i].id != e.id);
    }
  }

  lemma TouchedOrder(was: seq<Entry>, e: Entry, now: int)
    requires Ordered(was) && DistinctIds(was)
    ensures Ordered(Touched(was, e, now)) && DistinctIds(Touched(was, e, now))
  {
    var t := Touched(was, e, now);
    forall i, j | 0 <= i < j < |t|
      ensures Before(t[i], t[j]) && t[i].id != t[j].id
    {
      assert Before(was[i], was[j]) && was[i].id != was[j].id;
    }
  }

  lemma TouchedKeeps(was: seq<Entry>, e: Entry, now: int, maxEntries: nat, nextId: nat)
    requires TableOk(was, maxEntries, nextId) && e in was
    ensures TableOk(Touched(was, e, now), maxEntries, nextId) && KeyOf(e) in RulesOf(was)
    ensures RulesOf(Touched(was, e, now)) == RulesOf(was)[KeyOf(e) := RulesOf(was)[KeyOf(e)].(touched := now)]
  {
    var t := Touched(was, e, now);
    MapHolds(was, KeyOf, RuleOf);
    TouchedOrder(was, e, now);
    TouchedMembers(was, e, now);
    AddedItem(was, t, KeyOf, RuleOf, Touch(e, now));
  }

  /** Non-strict matching is reflexive, so finding nothing means the key itself is free. */
  lemma TargetIsHit(table: seq<Entry>, fm: FlowMod, strict: bool)
    ensures Target(fm) in RulesOf(table) ==> Target(fm) in Hit(RulesOf(table), fm, strict)
  {
  }

  lemma HitMeansMatched(was: seq<Entry>, fm: FlowMod, strict: bool)
    requires NoTwins(was)
    ensures Hit(RulesOf(was), fm, strict) != {} <==>
      exists i | 0 <= i < |was| :: was[i].IsMatchedBy(fm.pattern, fm.priority, strict, None)
  {
    MapHolds(was, KeyOf, RuleOf);
    var hit := Hit(RulesOf(was), fm, strict);
    if hit != {} {
      var k :| k in hit;
      var e :| e in was && KeyOf(e) == k;
      HitByKey(was, fm, strict, e);
    }
    forall i | 0 <= i < |was| && was[i].IsMatchedBy(fm.pattern, fm.priority, strict, None)
      ensures hit != {}
    {
      HitByKey(was, fm, strict, was[i]);
      assert KeyOf(was[i]) in hit;
    }
  }

  lemma RewriteDone(was: seq<Entry>, now: seq<Entry>, fm: FlowMod, strict: bool, maxEntries: nat, nextId: nat,
                    modified: bool)
    requires TableOk(was, maxEntries, nextId) && |now| == |was|
    requires forall i | 0 <= i < |was| :: now[i] == Rewrite(was[i], fm, strict)
    requires modified <==> exists i | 0 <= i < |was| :: was[i].IsMatchedBy(fm.pattern, fm.priority, strict, None)
    ensures TableOk(now, maxEntries, nextId)
    ensures modified <==> Hit(RulesOf(was), fm, strict) != {}
    ensures RulesOf(now) == Modified(RulesOf(was), fm, strict)
    ensures !modified ==> now == was
  {
    assert now == Rewritten(was, fm, strict);
    RewrittenKeeps(was, fm, strict);
    ModifiedRules(was, fm, strict);
    HitMeansMatched(was, fm, strict);
  }

  lemma SubTableOk(was: seq<Entry>, now: seq<Entry>, gone: set<nat>, maxEntries: nat, nextId: nat)
    requires TableOk(was, maxEntries, nextId) && now == Without(was, gone)
    ensures TableOk(now, maxEntries, nextId)
  {
    WithoutIsOrdered(was, gone);
    WithoutKeepsIds(was, gone);
    forall i | 0 <= i < |now|
      ensures now[i].id < nextId
    {
      assert now[i] in was;
    }
  }

  /** The keys whose time is up. */
  function Outdated(rules: Rules, now: int): set<Key> {
    set k | k in rules && rules[k].IsExpired(now)
  }

  lemma ExpiredRules(was: seq<Entry>, now: seq<Entry>, time: int)
    requires NoTwins(was) && NoTwins(now)
    requires forall e :: e in now <==> e in was && !e.IsExpired(time)
    ensures RulesOf(now) == RulesOf(was) - Outdated(RulesOf(was), time)
  {
    MapHolds(was, KeyOf, RuleOf);
    var gone := Outdated(RulesOf(was), time);
    forall e | e in was
      ensures e.IsExpired(time) <==> KeyOf(e) in gone
    {
      assert RulesOf(was)[KeyOf(e)] == RuleOf(e);
    }
    FilteredItems(was, now, KeyOf, RuleOf, gone);
  }
}
