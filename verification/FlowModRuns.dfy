/** From the wire to the table: what a received flow modification orders the switch to do. */
module FlowModRuns {
  import opened Wrappers
  import opened WireBytes
  import opened OfpMatch
  import opened SwitchTables
  import FlowModCodec

  const OFPFF_SEND_FLOW_REM: bv16 := 1
  const OFPFF_CHECK_OVERLAP: bv16 := 2
  const OFPFF_EMERG: bv16 := 4

  function CommandOf(n: bv16): Option<Command> {
    match n
    case 0 => Some(Add)
    case 1 => Some(Modify)
    case 2 => Some(ModifyStrict)
    case 3 => Some(Delete)
    case 4 => Some(DeleteStrict)
    case _ => None
  }

  /** The message as the handlers of the switch read it; none for an unknown command. */
  function Order(m: FlowModCodec.FlowMod): Option<SwitchTables.FlowMod> {
    var f := m.fields;
    match CommandOf(f.command)
    case None => None
    case Some(command) =>
      Some(FlowMod(command, m.mtch, f.priority as nat, m.actions, f.idleTimeout as nat, f.hardTimeout as nat,
                   f.flags & OFPFF_SEND_FLOW_REM != 0, f.flags & OFPFF_CHECK_OVERLAP != 0,
                   f.flags & OFPFF_EMERG != 0, f.outPort))
  }

  /** What the numbers of a received message mean to the switch: the commands from 0 to 4, the flags by
      their bits, and every other field as it stands. */
  lemma OrderMeans(m: FlowModCodec.FlowMod)
    ensures Order(m).Some? <==> m.fields.command <= 4
    ensures Order(m).Some? ==>
      var fm := Order(m).value;
      && (fm.command == Add <==> m.fields.command == 0) && (fm.command == Modify <==> m.fields.command == 1)
      && (fm.command == ModifyStrict <==> m.fields.command == 2) && (fm.command == Delete <==> m.fields.command == 3)
      && (fm.command == DeleteStrict <==> m.fields.command == 4)
      && (fm.sendFlowRem <==> m.fields.flags & 1 == 1) && (fm.checkOverlap <==> (m.fields.flags >> 1) & 1 == 1)
      && (fm.emerg <==> (m.fields.flags >> 2) & 1 == 1)
      && fm.pattern == m.mtch && fm.actions == m.actions && fm.priority == m.fields.priority as nat
      && fm.idleTimeout == m.fields.idleTimeout as nat && fm.hardTimeout == m.fields.hardTimeout as nat
      && fm.outPort == m.fields.outPort
  {
  }

  /** The two orders differ at most in hidden parts of their match. */
  predicate Alike(fm: SwitchTables.FlowMod, gm: SwitchTables.FlowMod) {
    gm == fm.(pattern := gm.pattern) && Observed(gm.pattern) == Observed(fm.pattern)
  }

  lemma SelectsAlike(fm: SwitchTables.FlowMod, gm: SwitchTables.FlowMod, strict: bool, k: Key)
    requires Alike(fm, gm)
    ensures Selects(gm, strict, k) == Selects(fm, strict, k)
  {
  }

  lemma HitsAlike(was: Rules, fm: SwitchTables.FlowMod, gm: SwitchTables.FlowMod, strict: bool)
    requires Alike(fm, gm)
    ensures Hit(was, gm, strict) == Hit(was, fm, strict) && Gone(was, gm, strict) == Gone(was, fm, strict)
    ensures Modified(was, gm, strict) == Modified(was, fm, strict)
  {
    forall k
      ensures Selects(gm, strict, k) == Selects(fm, strict, k)
    {
      SelectsAlike(fm, gm, strict, k);
    }
    assert Hit(was, gm, strict) == Hit(was, fm, strict);
  }

  lemma RefusedAlike(was: Rules, maxEntries: nat, fm: SwitchTables.FlowMod, gm: SwitchTables.FlowMod)
    requires Alike(fm, gm)
    ensures Target(gm) == Target(fm) && Refused(was, maxEntries, gm) == Refused(was, maxEntries, fm)
  {
  }

  lemma OrdersAlike(fm: SwitchTables.FlowMod, gm: SwitchTables.FlowMod, was: Rules, maxEntries: nat, time: int,
                    now: Rules, err: Option<Refusal>)
    requires Alike(fm, gm)
    ensures Commanded(was, maxEntries, fm, time, now, err) <==> Commanded(was, maxEntries, gm, time, now, err)
  {
    var strict := fm.command.ModifyStrict? || fm.command.DeleteStrict?;
    HitsAlike(was, fm, gm, strict);
    RefusedAlike(was, maxEntries, fm, gm);
  }

  lemma SameModSameOrder(a: FlowModCodec.FlowMod, b: FlowModCodec.FlowMod)
    requires FlowModCodec.SameMod(a, b)
    ensures Order(a).Some? <==> Order(b).Some?
    ensures Order(a).Some? ==> Alike(Order(a).value, Order(b).value)
  {
    SameIsSameView(a.mtch, b.mtch);
  }

  /** A flow modification that was packed, wherever it stands in the stream, changes the table of
      the switch that receives it as the one sent would, with its match fixed. */
  lemma ReceivedIsCarriedOut(sent: FlowModCodec.FlowMod, raw: Bytes, o: nat, was: Rules, maxEntries: nat, time: int,
                             now: Rules, err: Option<Refusal>)
    requires FlowModCodec.PackableMod(sent) && o + FlowModCodec.ModSize(sent) <= |raw|
    requires raw[o..o + FlowModCodec.ModSize(sent)] == FlowModCodec.PackMod(sent)
    ensures FlowModCodec.UnpackMod(raw, o).Done?
    ensures var got, meant := Order(FlowModCodec.UnpackMod(raw, o).value.mod), Order(FlowModCodec.ReceivedMod(sent));
      && (got.Some? <==> meant.Some?)
      && (got.Some? ==> (Commanded(was, maxEntries, got.value, time, now, err) <==>
                         Commanded(was, maxEntries, meant.value, time, now, err)))
  {
    FlowModCodec.ModComesBack(sent, raw, o);
    var got, meant := FlowModCodec.UnpackMod(raw, o).value.mod, FlowModCodec.ReceivedMod(sent);
    SameModSameOrder(got, meant);
    if Order(got).Some? {
      OrdersAlike(Order(got).value, Order(meant).value, was, maxEntries, time, now, err);
    }
  }
}
