/** The outside ports of the address translator: NAT._pick_port of pox/misc/nat.py. */
module NatPorts {
  import opened Wrappers

  datatype Proto = Tcp | Udp

  type Port = n: nat | n < 0x1_0000

  /** The (proto, port) pairs that are taken. */
  type Taken = set<(Proto, Port)>

  const FIRST: Port := 49152
  const LAST: Port := 65533

  /** Where the search starts: ports below 1024 are never kept but replaced by a random one. */
  function Start(srcPort: Port, random: Port): Port {
    if srcPort < 1024 then random else srcPort
  }

  /** Is p one of the ports the search tries? */
  predicate Tried(start: Port, p: Port) {
    p == start || start <= p <= LAST || FIRST <= p <= LAST
  }

  /** Does the search try q before p?  It goes up from the start, then wraps around to FIRST. */
  predicate Before(start: Port, q: Port, p: Port) {
    Tried(start, q) && if q >= start then p < start || q < p else p < start && q < p
  }

  /** The rest of the search. */
  function Probe(used: Taken, proto: Proto, port: Port, cycle: nat): (r: Option<Port>)
    requires cycle <= 2 && (cycle == 1 ==> FIRST <= port <= LAST)
    decreases 2 - cycle, 0x1_0000 - port
  {
    if cycle == 2 then None
    else if (proto, port) !in used then Some(port)
    else if port + 1 >= 65534 then Probe(used, proto, FIRST, cycle + 1)
    else Probe(used, proto, port + 1, cycle)
  }

  /** The second round finds the first free dynamic port from here on, if there is one. */
  lemma {:induction false} SecondRound(used: Taken, proto: Proto, port: Port)
    requires FIRST <= port <= LAST
    ensures var r := Probe(used, proto, port, 1);
      && (r.Some? ==> port <= r.value <= LAST && (proto, r.value) !in used
                      && forall q: Port :: port <= q < r.value ==> (proto, q) in used)
      && (r.None? ==> forall q: Port :: port <= q <= LAST ==> (proto, q) in used)
    decreases 0x1_0000 - port
  {
    if (proto, port) in used && port < LAST {
      SecondRound(used, proto, port + 1);
    }
  }

  ghost predicate FirstFree(used: Taken, proto: Proto, start: Port, p: Port) {
    && Tried(start, p) && (proto, p) !in used
    && forall q: Port {:trigger Before(start, q, p)} :: Before(start, q, p) ==> (proto, q) in used
  }

  ghost predicate Exhausted(used: Taken, proto: Proto, start: Port) {
    forall p: Port {:trigger Tried(start, p)} :: Tried(start, p) ==> (proto, p) in used
  }

  lemma {:induction false} FirstRound(used: Taken, proto: Proto, start: Port, port: Port)
    requires start <= port && (port <= LAST || port == start)
    requires forall q: Port :: start <= q < port ==> (proto, q) in used
    ensures var r := Probe(used, proto, port, 0);
      && (r.Some? ==> FirstFree(used, proto, start, r.value))
      && (r.None? ==> Exhausted(used, proto, start))
    decreases 0x1_0000 - port
  {
    if (proto, port) in used {
      if port < LAST {
        FirstRound(used, proto, start, port + 1);
      } else {
        SecondRound(used, proto, FIRST);
      }
    }
  }

  /** _pick_port gives the first free port in the order of the search, and gives up exactly when
      every port it tries is taken; then every dynamic port of the protocol is. */
  lemma PortIsFirstFree(used: Taken, proto: Proto, start: Port)
    ensures var r := Probe(used, proto, start, 0);
      && (r.Some? ==> FirstFree(used, proto, start, r.value))
      && (r.None? <==> Exhausted(used, proto, start))
      && (r.None? ==> forall q: Port :: FIRST <= q <= LAST ==> (proto, q) in used)
  {
    FirstRound(used, proto, start, start);
    var r := Probe(used, proto, start, 0);
    if r.Some? {
      assert Tried(start, r.value);
    } else {
      forall q: Port | FIRST <= q <= LAST ensures (proto, q) in used {
        assert Tried(start, q);
      }
    }
  }

  /** The same by numbers: the search goes up from its start to 65533, then from 49152 to 65533. */
  lemma PortByNumber(used: Taken, proto: Proto, start: Port)
    ensures match Probe(used, proto, start, 0)
      case Some(p) =>
        && (proto, p) !in used
        && if p >= start then (p == start || p <= 65533) && forall q: Port :: start <= q < p ==> (proto, q) in used
           else
             && 49152 <= p <= 65533 && (proto, start) in used
             && (forall q: Port :: start <= q <= 65533 ==> (proto, q) in used)
             && (forall q: Port :: 49152 <= q < p ==> (proto, q) in used)
      case None => (proto, start) in used && forall q: Port :: 49152 <= q <= 65533 ==> (proto, q) in used
  {
    PortIsFirstFree(used, proto, start);
    var r := Probe(used, proto, start, 0);
    if r.Some? {
      forall q: Port | Before(start, q, r.value) ensures (proto, q) in used {
      }
      assert forall q: Port | start <= q < r.value :: Tried(start, q) ==> Before(start, q, r.value);
      assert forall q: Port | start <= q <= 65533 && r.value < start :: Before(start, q, r.value);
      assert forall q: Port | 49152 <= q < r.value < start :: Before(start, q, r.value);
      assert r.value < start ==> Before(start, start, r.value);
    } else {
      assert Tried(start, start);
    }
  }
}
