/** Links as pox/openflow/discovery.py reports them. */
module Discovery {
  import opened Graphs

  type Port = nat

  /** A link seen in one direction: out of port1 of dpid1, into port2 of dpid2. */
  datatype Link = Link(dpid1: Node, port1: Port, dpid2: Node, port2: Port)

  function Flip(l: Link): Link {
    Link(l.dpid2, l.port2, l.dpid1, l.port1)
  }

  /** The link was seen in both directions. */
  predicate TwoWay(links: set<Link>, l: Link) {
    l in links && Flip(l) in links
  }

  /** No link ends at this port (Discovery.is_edge_port). */
  predicate IsEdgePort(links: set<Link>, dpid: Node, port: Port) {
    forall l | l in links ::
      !(l.dpid1 == dpid && l.port1 == port) && !(l.dpid2 == dpid && l.port2 == port)
  }
}
