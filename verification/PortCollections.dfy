/** PortCollection of pox/openflow/of_01.py: ports by number, kept as changes to a parent. */
module PortCollections {
  import opened Wrappers

  /** ofp_phy_port; the rest of the description is abstract. */
  datatype PhyPort = PhyPort(portNo: nat, desc: nat)

  predicate Distinct(ports: set<PhyPort>) {
    forall p, q :: p in ports && q in ports && p.portNo == q.portNo ==> p == q
  }

  function ByNumber(ports: set<PhyPort>): map<nat, PhyPort>
    requires Distinct(ports)
  {
    map p | p in ports :: p.portNo := p
  }

  /** What a collection shows: its own ports, and those of its parent that it does not mask. */
  function Layered(parent: map<nat, PhyPort>, ports: set<PhyPort>, masks: set<nat>): map<nat, PhyPort>
    requires Distinct(ports)
  {
    (parent - masks) + ByNumber(ports)
  }

  function Without(ports: set<PhyPort>, portNo: nat): (r: set<PhyPort>)
    ensures Distinct(ports) ==> Distinct(r)
  {
    set p | p in ports && p.portNo != portNo
  }

  predicate Has(ports: set<PhyPort>, n: nat) {
    exists p :: p in ports && p.portNo == n
  }

  lemma Shown(parent: map<nat, PhyPort>, ports: set<PhyPort>, masks: set<nat>, n: nat)
    requires Distinct(ports)
    ensures n in Layered(parent, ports, masks) <==> Has(ports, n) || (n in parent && n !in masks)
    ensures n in parent && n !in masks && !Has(ports, n) ==> Layered(parent, ports, masks)[n] == parent[n]
  {
  }

  lemma OwnShown(parent: map<nat, PhyPort>, ports: set<PhyPort>, masks: set<nat>, p: PhyPort)
    requires Distinct(ports) && p in ports
    ensures p.portNo in Layered(parent, ports, masks) && Layered(parent, ports, masks)[p.portNo] == p
  {
  }

  /** Views are equal when they show the same at every number. */
  lemma SameAt(parent: map<nat, PhyPort>, ports: set<PhyPort>, masks: set<nat>, own: set<PhyPort>, masked: set<nat>,
               n: nat)
    requires Distinct(ports) && Distinct(own)
    requires n in masks <==> n in masked
    requires forall p: PhyPort :: p.portNo == n ==> (p in ports <==> p in own)
    ensures var l, r := Layered(parent, own, masked), Layered(parent, ports, masks);
      (n in l <==> n in r) && (n in l ==> l[n] == r[n])
  {
    Shown(parent, ports, masks, n);
    Shown(parent, own, masked, n);
    if p :| p in ports && p.portNo == n {
      OwnShown(parent, ports, masks, p);
      OwnShown(parent, own, masked, p);
    }
  }

  /** Masking and dropping a port removes its number from the view. */
  lemma ForgetRemoves(parent: map<nat, PhyPort>, ports: set<PhyPort>, masks: set<nat>, portNo: nat)
    requires Distinct(ports)
    ensures Layered(parent, Without(ports, portNo), masks + {portNo}) == Layered(parent, ports, masks) - {portNo}
  {
    var own := Without(ports, portNo);
    var l, r := Layered(parent, own, masks + {portNo}), Layered(parent, ports, masks) - {portNo};
    Shown(parent, own, masks + {portNo}, portNo);
    forall n: nat | n != portNo ensures (n in l <==> n in r) && (n in l ==> l[n] == r[n]) {
      SameAt(parent, ports, masks, own, masks + {portNo}, n);
    }
    assert l.Keys == r.Keys;
  }

  /** Unmasking and replacing a port sets its number in the view. */
  lemma UpdateSets(parent: map<nat, PhyPort>, ports: set<PhyPort>, masks: set<nat>, port: PhyPort)
    requires Distinct(ports)
    ensures Distinct(Without(ports, port.portNo) + {port})
    ensures Layered(parent, Without(ports, port.portNo) + {port}, masks - {port.portNo}) ==
            Layered(parent, ports, masks)[port.portNo := port]
  {
    var own := Without(ports, port.portNo) + {port};
    var l, r := Layered(parent, own, masks - {port.portNo}), Layered(parent, ports, masks)[port.portNo := port];
    forall n: nat ensures (n in l <==> n in r) && (n in l ==> l[n] == r[n]) {
      UpdateShown(parent, ports, masks, port, n);
    }
    SameMaps(l, r);
  }

  lemma UpdateShown(parent: map<nat, PhyPort>, ports: set<PhyPort>, masks: set<nat>, port: PhyPort, n: nat)
    requires Distinct(ports)
    ensures var own := Without(ports, port.portNo) + {port};
      var l, r := Layered(parent, own, masks - {port.portNo}), Layered(parent, ports, masks)[port.portNo := port];
      (n in l <==> n in r) && (n in l ==> l[n] == r[n])
  {
    var own := Without(ports, port.portNo) + {port};
    if n == port.portNo {
      OwnShown(parent, own, masks - {port.portNo}, port);
    } else {
      SameAt(parent, ports, masks, own, masks - {port.portNo}, n);
    }
  }

  lemma SameMaps(l: map<nat, PhyPort>, r: map<nat, PhyPort>)
    requires forall n: nat :: (n in l <==> n in r) && (n in l ==> l[n] == r[n])
    ensures l == r
  {
    assert l.Keys == r.Keys;
  }

  class PortCollection {
    var ports: set<PhyPort>
    var masks: set<nat>
    const chain: PortCollection?
    /** The collections up the chain, this one included, and how many they are. */
    ghost const line: set<object>
    ghost const height: nat

    ghost predicate Shape()
      decreases height
    {
      && this in line
      && (chain != null ==>
            chain in line && chain.line <= line && this !in chain.line && chain.height < height && chain.Shape())
    }

    ghost predicate Valid()
      reads line
      requires Shape()
      decreases height
    {
      Distinct(ports) && (chain != null ==> chain.Valid())
    }

    /** The plain map that the collection stands for. */
    ghost function View(): map<nat, PhyPort>
      reads line
      requires Shape() && Valid()
      decreases height
    {
      Layered(if chain == null then map[] else chain.View(), ports, masks)
    }

    constructor (chain: PortCollection?)
      requires chain != null ==> chain.Shape()
      ensures this.chain == chain && Shape() && ports == {} && masks == {}
      ensures line == {this} + if chain == null then {} else chain.line
    {
      this.chain := chain;
      ports, masks := {}, {};
      line := if chain == null then {this} else {this} + chain.line;
      height := if chain == null then 0 else chain.height + 1;
    }

    method Reset()
      requires Shape() && Valid()
      modifies this
      ensures Valid() && View() == if chain == null then map[] else old(chain.View())
    {
      ports := {};
      masks := {};
      assert ByNumber({}) == map[];
    }

    method Forget(port: PhyPort)
      requires Shape() && Valid()
      modifies this
      ensures Valid() && View() == old(View()) - {port.portNo}
    {
      ghost var parent := if chain == null then map[] else chain.View();
      ForgetRemoves(parent, ports, masks, port.portNo);
      masks := masks + {port.portNo};
      ports := set p | p in ports && p.portNo != port.portNo;
    }

    method Update(port: PhyPort)
      requires Shape() && Valid()
      modifies this
      ensures Valid() && View() == old(View())[port.portNo := port]
    {
      ghost var parent := if chain == null then map[] else chain.View();
      UpdateSets(parent, ports, masks, port);
      masks := masks - {port.portNo};
      ports := (set p | p in ports && p.portNo != port.portNo) + {port};
    }

    /** __getitem__ with a number; None stands for IndexError. */
    method GetItem(n: nat) returns (r: Option<PhyPort>)
      requires Shape() && Valid()
      ensures r == if n in View() then Some(View()[n]) else None
      decreases height
    {
      ghost var parent := if chain == null then map[] else chain.View();
      Shown(parent, ports, masks, n);
      var left := ports;
      while left != {}
        invariant left <= ports && forall p :: p in ports && p !in left ==> p.portNo != n
        decreases left
      {
        var p :| p in left;
        if p.portNo == n {
          return Some(p);
        }
        left := left - {p};
      }
      if chain != null {
        var q := chain.GetItem(n);
        if q.Some? && n !in masks {
          return q;
        }
      }
      return None;
    }

    /** keys. */
    method Keys() returns (k: set<nat>)
      requires Shape() && Valid()
      ensures k == View().Keys
      decreases height
    {
      k := {};
      if chain != null {
        k := chain.Keys();
        k := k - masks;
      }
      k := k + set p | p in ports :: p.portNo;
    }
  }
}
