# POX forwarding, switch and livestreaming logic, verified

POX is an OpenFlow controller written in Python; this copy adds a component that steers a live
stream to a viewer on the same switch.  The files here model its hardest parts in Dafny and prove
what those parts are for.

- **Shortest paths** (`Graphs`, `ShortestPaths`, `L2Multi`, `Backing`): the in-place Floyd-Warshall with
  recorded intermediates, path reconstruction by recursion through them, the lazily filled table that
  link events and new switches must not make stale, and when adjacency is backed by links.
- **Barriers** (`Barriers`): the counting protocol that releases a held packet once its path is in.
- **Spanning forest and flooding** (`Discovery`, `Forests`, `SpanningTree`, `Flooding`, `LinkEvents`,
  `MissedLinks`, `FloodRuns`): culling links, the worklist with new switches at the front, flood bits
  sent as changes, what ignored and late link events leave of flooding, and whole runs of them.
- **Deferred sending** (`DeferredSending`, `DeferredSenders`, `TwoAdders`): two threads, one socket, a
  flag read without its lock.  The interleaving is a state machine whose steps are single accesses to
  shared state; the code of either thread is proved to take steps of that machine.
- **Matches and tables** (`WildcardBits`, `BitMasks`, `Prefixes`, `OfpMatch`, `FlowTables`,
  `FiniteMaps`, `SwitchTables`): the encompassing relation, the sorted entry list, and the five
  flow-mod commands as operations on a finite map from (match, priority) to actions and timeouts.
- **Wire formats** (`WireBytes`, `MatchCodec`, `MatchObjects`, `OfpActions`, `ItemLists`,
  `ActionCodec`, `FlowModCodec`, `FlowModRuns`): the round trip of a whole flow modification through
  wildcard normalisation, and what the received message orders the switch to do.
- **IPv6 text** (`TextPieces`, `Numerals`, `Ipv6Text`, `Ipv6Printing`, `Ipv6RoundTrip`): printing
  and parsing for every option (RFC 4291, section 2.2; RFC 5952, section 4).
- **Address translation** (`NatPorts`, `Nat`): two indexes, a port allocator, and rewrites that
  undo each other (RFC 3022, section 2.2).
- **Control channel** (`StreamReader`, `Unpackers`, `PortCollections`, `Handshake`): cutting the byte
  stream into messages, for any unpackers and for those of the program, ports as changes chained to a
  parent, and port news deferred by the handshake.
- **Livestreaming** (`RtmpParser`, `Heartbeats`, `Livestream`, `Steering`): splitting payloads into RTMP
  packets, the mode machine they drive, the padded addresses pushed in heartbeats, and when the switch
  steers.

Code that changes objects in place is modelled by classes whose methods are proved against pure
functions; the promises about whole runs are then lemmas about those functions, or invariants of
the methods that replay a run.  A step that the source may leave half done because a check failed
is modelled with its partial effect.  Python exceptions are results (`Option`, `Outcome`, a boolean
`ok`).  Python's iteration over dictionaries and sets is in any order, so a proof covers every order.

## Findings

- For IPv6 matches `_wire_wildcards` clears other bits than `fix` sets, and `_unwire_wildcards` has no
  case for them at all, yet the round trip still ends in the fixed match
  (`openflow/libopenflow_01.py:1228-1322`).  It is the fixed match itself if and only if the address bit
  counts in its wildcards are at most 32; a wildcard word assigned directly can hold larger counts, which
  unpacking lowers to 32 (`MatchCodec.UnpackPackIsFix`, `LargeCountsArriveLower`).
- The unpacker of generic vendor messages never compares the length in the header with what it reads
  (`openflow/libopenflow_01.py:4176-4183`).  A vendor message of length 0 makes `Connection.read` handle
  it for ever (`Unpackers.ReadNeverEnds`), and one shorter than its twelve bytes of fields is taken or
  costs the connection depending on how the network cut the stream (`Unpackers.CutDecides`).  No other
  message does either: both conditions are proved to be exact.
- `_handle_LinkEvent` ignores a new link both of whose ports are blocked
  (`openflow/spanning_tree.py:156-164`).  If it is the second direction of the only link between two parts
  of the network, flooding does not cross it; exactly then (`LinkEvents.IgnoredAdditionSpans`,
  `MissedLinks.IgnoredLinkIsMissed`).  After an ignored loss the ports stay blocked though they have become
  edge ports.
- Discovery raises the events of lost links before it forgets any of them
  (`openflow/discovery.py:459-463`), so the spanning tree is updated with all of them still counted.
  Flooding then spans what is left exactly if no lost link of the tree lies, on the tree, between the ends
  of a link that is left (`LinkEvents.RemovalSpans`, and over runs `FloodRuns.LossSpans`).  It fails when the tree's one of two cables is lost,
  and when a switch of a ring goes down (`MissedLinks.LostLinkIsCounted`, `SwitchOfRingGoesDown`).
- For the same reason `l2_multi` (`forwarding/l2_multi.py:446-460`) may leave two switches joined by a lost
  link (`L2Multi.LostTogether`); exactly if some link that could replace the last one lost between them is
  lost too (`Backing.BatchBacksPair`).
- `_install_path` ends with an exception at a switch without a connection; the replies of the switches
  before it then report the whole path installed and release its packet
  (`forwarding/l2_multi.py:250-256`, `Barriers.CutPathIsReported`).
- A switch linked to itself makes the spanning tree calculation fail its own assertion, and nothing
  else does (`openflow/spanning_tree.py:73`).
- The unlocked read of the `sending` flag is harmless with one thread that adds data; with two, one
  message can end up inside another (`openflow/of_01.py:869-886`, `TwoAdders.TwoAddersTangle`).
- `ofp_match.unpack` on a short buffer fails only after it has changed the fields before the end; it leaves
  the match alone exactly if it fails on the first six bytes (`openflow/libopenflow_01.py:1334-1354`).
- A modification that acts as an addition skips the removal of entries with its own key; that is
  safe only because non-strict matching is reflexive (`datapaths/switch.py:786-788`).
- The search for an outside port may use 65534 or 65535 as its first candidate, though the wrap
  stops at 65533 (`misc/nat.py:153-169`).
- In the livestreaming switch a service on port 0 is never pinned, because the known port is checked
  for truth and not for presence (`livestreaming/bypass.py:403-410`, `Livestream.PortZeroPinsNothing`); the
  mode stays safe all the same.
- The parser for RTMP reads the three-byte basic header most significant byte first and leaves one
  byte too many in the last payload (`livestreaming/bypass.py:100-124`); it is modelled as written.
- `IPAddr6` fills missing groups with zeros even without a gap (`lib/addresses.py:469-470`,
  `Ipv6RoundTrip.ThreeGroupsRead`); the parser is modelled so.

## Model

| member | source | states |
|---|---|---|
| L2Multi.Forwarder.CalcPaths | src/pox/pox/forwarding/l2_multi.py:67-100 | for the links of the moment, a stored entry is the least hop count over all walks, and an entry is missing exactly when there is no walk |
| L2Multi.Forwarder.RelaxAll | src/pox/pox/forwarding/l2_multi.py:93-100 | one round of the in-place triple loop: entries stay lengths of real walks, and every walk through one more intermediate is covered although entries change during the round |
| L2Multi.Forwarder.RelaxRow | src/pox/pox/forwarding/l2_multi.py:95-100 | one row of that round: every pair of the row is at most its sum through the intermediate as the round began |
| L2Multi.Forwarder.RelaxCell | src/pox/pox/forwarding/l2_multi.py:96-100 | one pair: entries only improve and stay lengths of real walks |
| L2Multi.Forwarder.SeedTable | src/pox/pox/forwarding/l2_multi.py:81-87 | the initial table covers exactly the walks without intermediates |
| L2Multi.Forwarder.SeedRow | src/pox/pox/forwarding/l2_multi.py:84-87 | one switch: one hop to every switch it is linked to, none to itself |
| ShortestPaths.RelaxBacked | src/pox/pox/forwarding/l2_multi.py:97-100 | the sum through an intermediate is the length of a real walk |
| ShortestPaths.RoundCovers | src/pox/pox/forwarding/l2_multi.py:93-100 | relaxing all pairs through k against a table that is itself changing covers all walks whose interior lies in the earlier nodes and k |
| ShortestPaths.AllRoundsExact | src/pox/pox/forwarding/l2_multi.py:93-100 | after a round for every switch the table is exact against the definition over all walks |
| ShortestPaths.MidSplits | src/pox/pox/forwarding/l2_multi.py:115-121 | a recorded intermediate is never an endpoint and splits the final distance into two strictly smaller ones, even though entries improved after it was recorded |
| ShortestPaths.RawPathWalk | src/pox/pox/forwarding/l2_multi.py:106-121 | the recursion through intermediates terminates, and source, raw path and destination form a real walk of the stored length |
| ShortestPaths.RawPathIsShortest | src/pox/pox/forwarding/l2_multi.py:106-121 | that walk is a shortest one and visits no switch twice |
| ShortestPaths.ExactTablesAgree | src/pox/pox/forwarding/l2_multi.py:106-121 | any two exact tables give a path for the same pairs, so an old table answers like a fresh recomputation |
| L2Multi.Forwarder.GetRawPath | src/pox/pox/forwarding/l2_multi.py:106-121 | fills an empty table, then answers with a shortest walk exactly when the destination is reachable |
| L2Multi.Forwarder.GetPath | src/pox/pox/forwarding/l2_multi.py:138-161 | no answer exactly when unreachable; otherwise a shortest path that passes `_check_path`, with a real port on both sides of every switch (the assertion in the source cannot fail) |
| L2Multi.Forwarder.AddPorts | src/pox/pox/forwarding/l2_multi.py:149-157 | the loop gives every switch the port it is entered and left by |
| L2Multi.CookedIsGood | src/pox/pox/forwarding/l2_multi.py:124-161 | adding ports to a shortest walk over two-way adjacency gives a path that `_check_path` accepts, every hop by the two ports of the link it crosses |
| L2Multi.JoiningKeepsExact | src/pox/pox/forwarding/l2_multi.py:483-491 | a new switch without links leaves a filled table as good as a recomputed one |
| L2Multi.Forwarder.HandleLinkEvent | src/pox/pox/forwarding/l2_multi.py:426-481 | adjacency stays defined both ways or neither, the table is emptied, every connected switch is told to delete its flows, addresses learned at the ports of a new link are unlearned and no others; unknown switches change nothing |
| L2Multi.Forwarder.Unlearn | src/pox/pox/forwarding/l2_multi.py:473-481 | exactly the addresses learned at either port of the link go |
| L2Multi.Forwarder.ClearAll | src/pox/pox/forwarding/l2_multi.py:440-443 | each connected switch is told once |
| L2Multi.Forwarder.Disconnect | src/pox/pox/forwarding/l2_multi.py:446-460 | both directions go, and another two-way link between the switches takes their place exactly when there is one |
| L2Multi.Forwarder.Connect | src/pox/pox/forwarding/l2_multi.py:461-471 | the switches are joined exactly when they were not and the link runs both ways |
| L2Multi.Forwarder.HandleConnectionUp | src/pox/pox/forwarding/l2_multi.py:483-491 | a connecting switch is added and the table, not cleared, stays exact |
| L2Multi.Forwarder.Run | src/pox/pox/forwarding/l2_multi.py:124-161 | over any run of link events, connections and lookups: each state is the effect of its event on the one before, and each lookup of known switches has one answer, right for the links of the state it was asked in |
| L2Multi.LostTogether | src/pox/pox/forwarding/l2_multi.py:446-460 | two cables lost at once: discovery still holds them while it raises the events, so the switches end up joined by a lost one and a lookup gets a path over it |
| Backing.RemovalBacks | src/pox/pox/forwarding/l2_multi.py:446-460 | one lost link: whichever replacement the handler comes upon, its switches are joined by what is left if and only if every possible replacement is left |
| Backing.BatchBacksPair | src/pox/pox/forwarding/l2_multi.py:446-460 | any batch of lost links, any two switches: they are joined by what is left, in whatever order links come, if and only if every possible replacement of the last lost link between them is left; with no lost link between them, if and only if they were so before |
| Backing.BatchBacks | src/pox/pox/openflow/discovery.py:459-463 | any batch: an adjacency backed by what discovery held is backed by what is left if and only if that holds for all pairs |
| Backing.BatchRunsBack | src/pox/pox/openflow/discovery.py:459-463 | the same for every run of the removal events through the handlers' effects |
| Backing.LoseAll | src/pox/pox/forwarding/l2_multi.py:424-460 | a batch handled event by event is a run of its removal events, and if it meets the condition the adjacency stays backed |
| Backing.AdditionBacks | src/pox/pox/forwarding/l2_multi.py:461-471 | a new link, recorded before its event, keeps the adjacency backed |
| Barriers.BegunIsValid | src/pox/pox/forwarding/l2_multi.py:164-187 | starting a path with fresh barriers keeps the counting invariant of all paths |
| Barriers.AnsweredIsValid | src/pox/pox/forwarding/l2_multi.py:191-206 | a barrier reply keeps the invariant: a path is reported once, when its last barrier is answered |
| Barriers.AfterExpiryIsValid | src/pox/pox/forwarding/l2_multi.py:208-218 | expiry keeps the invariant and cuts the late paths off from their barriers |
| Barriers.XidsAreItsKeys | src/pox/pox/forwarding/l2_multi.py:183-218 | the barriers that lead to a path are exactly those it still waits for, and none once expiry gave up on it |
| Barriers.InstalledOnceWhenAnswered | src/pox/pox/forwarding/l2_multi.py:191-206 | a path is reported at most once, exactly when all its barriers were answered and it had not expired, and its packet is released exactly then |
| Barriers.EveryRunKeepsCount | src/pox/pox/forwarding/l2_multi.py:164-218 | the same in every state of every run in which transaction ids are fresh, paths cut short by a switch without a connection included |
| Barriers.ToldAll | src/pox/pox/forwarding/l2_multi.py:250-256 | every switch of the path is asked if and only if each has a connection |
| Barriers.ReportedMeansAsked | src/pox/pox/forwarding/l2_multi.py:164-256 | in every run, a reported path has its answers from all switches asked, and these are all its switches if and only if each had a connection when it was begun |
| Barriers.CutPathIsReported | src/pox/pox/forwarding/l2_multi.py:250-256 | the run that fails: the second switch has no connection, and the reply of the first reports the whole path and releases its packet |
| Barriers.GivenUpInTime | src/pox/pox/forwarding/l2_multi.py:188-218 | in every run, expiry has given up on exactly the paths that had an answer outstanding and their time up when it ran, by itself or ahead of a new path with more than a thousand barriers waiting |
| Barriers.TimeIsUpAfterFour | src/pox/pox/forwarding/l2_multi.py:174 | in every run a path's time is up four seconds after it began |
| Barriers.Protocol.InstallPath | src/pox/pox/forwarding/l2_multi.py:250-256 | expires late paths when more than a thousand barriers are waiting, then tells the switches in order up to the first without a connection and waits for those told |
| Barriers.Protocol.AskAll | src/pox/pox/forwarding/l2_multi.py:250-256 | the loop over the switches, cut short by one without a connection: one barrier per switch told, each leading back to the path |
| Barriers.Protocol.BarrierIn | src/pox/pox/forwarding/l2_multi.py:493-499 | the whole new state after a reply, known or unknown |
| Barriers.Protocol.Notify | src/pox/pox/forwarding/l2_multi.py:191-206 | the packet goes out and the event is raised when nothing is left to wait for, and only then |
| Barriers.Protocol.ExpireWaitingPaths | src/pox/pox/forwarding/l2_multi.py:208-218 | exactly the barriers of late paths are dropped |
| SpanningTree.Collect | src/pox/pox/openflow/spanning_tree.py:58-64 | every pair of switches has its links listed, and only those |
| SpanningTree.CullPair | src/pox/pox/openflow/spanning_tree.py:69-86 | one pair is settled: kept with the two ports of one two-way link, or removed both ways |
| SpanningTree.Cull | src/pox/pox/openflow/spanning_tree.py:66-86 | all pairs are settled; fails exactly when a switch links to itself |
| SpanningTree.CulledIsPaired | src/pox/pox/openflow/spanning_tree.py:66-86 | after culling, the edges are exactly those of two-way links, with matching ports |
| SpanningTree.NeighboursJoin | src/pox/pox/openflow/spanning_tree.py:95-106 | when the worklist reaches a fresh root, it has no neighbour in the tree, because new switches went to the front |
| SpanningTree.VisitIsOrderly | src/pox/pox/openflow/spanning_tree.py:95-106 | a visit keeps that order: what is reached but not done is in line and belongs to the tree now growing |
| SpanningTree.Visit | src/pox/pox/openflow/spanning_tree.py:102-106 | all neighbours of the visited switch share its tree afterwards, and the edges still form a forest |
| SpanningTree.Meet | src/pox/pox/openflow/spanning_tree.py:102-106 | one neighbour: skipped when in the tree, else attached by one edge with both its ports |
| SpanningTree.Sorted | src/pox/pox/openflow/spanning_tree.py:96 | the new switches in ascending order |
| SpanningTree.Pop | src/pox/pox/openflow/spanning_tree.py:99-106 | one turn of the worklist: done switches are skipped, others visited, and the order of the line is kept |
| SpanningTree.TakeSwitch | src/pox/pox/openflow/spanning_tree.py:101-106 | a switch not done is visited once |
| SpanningTree.Grow | src/pox/pox/openflow/spanning_tree.py:88-106 | the worklist with duplicates ends, and leaves a forest that joins all neighbours |
| SpanningTree.CalcSpanningTree | src/pox/pox/openflow/spanning_tree.py:47-117 | no result exactly when a switch links to itself; otherwise a symmetric, acyclic graph over two-way links that connects exactly what two-way links connect |
| Forests.ValidForestIsAcyclic | src/pox/pox/openflow/spanning_tree.py:95-106 | a graph grown by attaching new switches has no cycle |
| Forests.ForestSpans | src/pox/pox/openflow/spanning_tree.py:95-106 | such a graph reaches what the larger graph reaches once all neighbours share a root |
| Flooding.FloodControl.ConnectionUp | src/pox/pox/openflow/spanning_tree.py:134-149 | of a connecting switch the bits are those it brings, or off on its real ports where ports do not flood by default; remembered are exactly the ports turned off; other switches stay |
| Flooding.FloodControl.SetPort | src/pox/pox/openflow/spanning_tree.py:206-222 | the port gets its bit (`HostPortsFlood` says which), and skipping it when the remembered bit is already right leaves the same bits as sending it |
| Flooding.FloodControl.SetSwitch | src/pox/pox/openflow/spanning_tree.py:203-222 | all real ports of the switch get their bit and no other port changes |
| Flooding.HostPortsFlood | src/pox/pox/openflow/spanning_tree.py:185-206 | port by port what an update leaves: a port at which no link ends floods, any other real port floods exactly when a link of the tree starts there, and ports above `OFPP_MAX` or of switches away, off the tree or held down keep their bit |
| Flooding.FloodControl.UpdateTree | src/pox/pox/openflow/spanning_tree.py:169-224 | sending only the changes leaves the bits that sending every port would leave, and remembers them, under hold-down and forcing too |
| Flooding.FloodsExactlyOnTree | src/pox/pox/openflow/spanning_tree.py:189-218 | after a complete update, a two-way link floods at both ends exactly when it is the tree link of its switches |
| Flooding.FloodingIsLoopFree | src/pox/pox/openflow/spanning_tree.py:189-224 | the links that flood are a forest with one link per edge, and connect what the two-way links connect |
| Flooding.FloodControl.HandleLinkEvent | src/pox/pox/openflow/spanning_tree.py:156-166 | an event is ignored exactly when both ports are remembered as blocked, and then nothing changes; any other event is an update |
| LinkEvents.IgnoredAdditionSpans | src/pox/pox/openflow/spanning_tree.py:156-164 | after an ignored new link, flooding still connects what two-way links connect if and only if the other direction of the link is unknown or its ends were connected before |
| MissedLinks.IgnoredLinkIsMissed | src/pox/pox/openflow/spanning_tree.py:156-164 | the run that fails: the second direction of the only link between two parts is ignored, and flooding does not cross it |
| LinkEvents.IgnoredRemovalStrandsPorts | src/pox/pox/openflow/spanning_tree.py:156-164 | after an ignored loss flooding still spans, but the ports stay blocked though they lead to no switch, if and only if the other direction was not known |
| LinkEvents.RemovalSpans | src/pox/pox/openflow/discovery.py:459-463 | the update that a batch of lost links brings about still counts them all: flooding then spans what is left if and only if no lost link of the tree lies, on the tree, between the ends of a link that is left |
| LinkEvents.CableRemovalSpans | src/pox/pox/openflow/discovery.py:459-463 | when one link is all that is lost: if and only if it was not on the tree or nothing else joins its ends |
| LinkEvents.PrunedForestSpans | src/pox/pox/openflow/spanning_tree.py:169-224 | what is kept of a spanning forest spans the edges that are left if and only if no edge that is gone lies between the ends of one that is left |
| LinkEvents.CountedRemovalSpans | src/pox/pox/openflow/spanning_tree.py:169-224 | any batch of lost links, any flooding that is a spanning forest: it spans what is left if and only if no flooding edge that is gone lies between the ends of a link that is left |
| MissedLinks.LostLinkIsCounted | src/pox/pox/openflow/discovery.py:459-463 | the network that fails: of two cables the one on the tree is lost, and flooding stops between switches that the other still joins |
| MissedLinks.SwitchOfRingGoesDown | src/pox/pox/openflow/discovery.py:312-316 | a ring of three of which the switch that joins the others on the tree goes down: nothing joins the ends of any lost link, and yet flooding does not cross the cable that is left |
| FloodRuns.Run | src/pox/pox/openflow/spanning_tree.py:134-224 | any run of new links, batches of lost links, connections and ends of hold-down: each state of links, remembered settings and bits is the effect of its event on the one before, and what is remembered is always what the switches have |
| FloodRuns.NewLinkSpans | src/pox/pox/openflow/spanning_tree.py:156-224 | in every run, after a new link that was not ignored and whose update reached everything, flooding spans the links without a cycle |
| FloodRuns.LastUpdateDecides | src/pox/pox/openflow/discovery.py:459-463 | a batch of lost links changes nothing if both ports of every link are remembered as off; otherwise it leaves what its last update made of the ports, for a spanning tree of all the links, the lost ones included |
| FloodRuns.LossSpans | src/pox/pox/openflow/discovery.py:459-463 | in every run, at every batch of lost links: if all its events are ignored, flooding that spanned the links spans what is left; otherwise, for the tree the ports were last set for, it does so if and only if no lost link of that tree lies between the ends of a link that is left |
| FloodRuns.IgnoredLossSpans | src/pox/pox/openflow/spanning_tree.py:156-164 | links blocked at both ends can be lost without flooding ceasing to span |
| LinkEvents.EdgeIsBridge | src/pox/pox/openflow/spanning_tree.py:92-106 | in a forest the ends of an edge are joined by that edge only |
| LinkEvents.CutForestSpans | src/pox/pox/openflow/spanning_tree.py:92-106 | a spanning forest without one edge still spans where the ends of that edge are no longer joined |
| Flooding.OnTreeMeansTreeLink | src/pox/pox/openflow/discovery.py:465-474 | with one cable per port, a port is on the tree exactly when its own link is, so edge ports and tree ports do not overlap |
| DeferredSending.SliceUp | src/pox/pox/openflow/of_01.py:418-429 | the slices join to the data, and none is empty or longer than the limit |
| DeferredSending.StepKeepsOrder | src/pox/pox/openflow/of_01.py:869-886 | pending data implies the flag, and a direct write happens only with nothing pending, though the flag is read without the lock |
| DeferredSending.StepKeeps | src/pox/pox/openflow/of_01.py:418-504 | any single step of either thread keeps every healthy connection free of loss, duplication and reordering |
| DeferredSending.NoInterleavingLosesBytes | src/pox/pox/openflow/of_01.py:418-504 | in every state of every interleaving: written, pending and in-flight bytes join to the bytes submitted |
| DeferredSending.HandOverConserves | src/pox/pox/openflow/of_01.py:431-442 | handing over slices moves the data in flight to the end of what is pending |
| DeferredSending.TrimConserves | src/pox/pox/openflow/of_01.py:478-482 | trimming a partly written slice removes exactly the bytes written |
| DeferredSenders.DeferredSender.SendFirst | src/pox/pox/openflow/of_01.py:475-491 | one turn of the inner loop, in place, on what the socket itself answered and recorded as taken: a slice taken whole goes, a part is trimmed by the bytes taken, a refusal leaves it, a fatal error drops the connection; a step of the state machine each time |
| DeferredSenders.DeferredSender.Send | src/pox/pox/openflow/of_01.py:431-442 | slicing and appending under the lock is one hand-over step of the state machine, and the flag is up |
| DeferredSenders.DeferredSender.ConnectionSend | src/pox/pox/openflow/of_01.py:854-886 | three or four steps of the state machine from the submission on; every connection stays conserved, and the connection fails exactly when its socket answered fatally |
| DeferredSenders.DeferredSender.DropBroken | src/pox/pox/openflow/of_01.py:466-470 | exactly the connections reported broken are dropped, one step of the machine each |
| DeferredSenders.DeferredSender.Serve | src/pox/pox/openflow/of_01.py:472-499 | one connection in turn is a stretch of machine steps; the flag is lowered only with nothing pending |
| DeferredSending.SendSliceConserves | src/pox/pox/openflow/of_01.py:476-491 | a partial write, a refusal and a failure of the socket, before the slice is trimmed |
| DeferredSending.SendDirectlyConserves | src/pox/pox/openflow/of_01.py:873-886 | the same for a direct write |
| DeferredSenders.DeferredSender.RunRound | src/pox/pox/openflow/of_01.py:462-504 | one round is a stretch of machine steps from what select returned back to waiting, wherever the other thread stands, one step for each answer of a socket; every healthy connection stays conserved against what the sockets recorded |
| DeferredSenders.NoFailureWithoutCause | src/pox/pox/openflow/of_01.py:462-504 | in a round no connection fails that select did not report broken, unless a socket answered fatally |
| TwoAdders.TwoAddersTangle | src/pox/pox/openflow/of_01.py:869-886 | why one adding thread is needed: with two, a message can end up inside another without any socket failing |
| OfpMatch.SameIsSameView | src/pox/pox/openflow/libopenflow_01.py:1442-1457 | two matches are equal exactly when their attributes, wildcards and networks are: hidden values do not count |
| OfpMatch.EncompassesInView | src/pox/pox/openflow/libopenflow_01.py:1384-1440 | encompassing depends only on what shows, so equality is a congruence for it and the equality shortcut is sound |
| OfpMatch.EncompassesIsReflexive | src/pox/pox/openflow/libopenflow_01.py:1384-1440 | every match encompasses itself |
| OfpMatch.EncompassesIsTransitive | src/pox/pox/openflow/libopenflow_01.py:1384-1440 | encompassing is transitive, and sound: whatever the encompassed match takes, the encompassing one takes |
| OfpMatch.TakesPacket | src/pox/pox/openflow/libopenflow_01.py:1384-1440 | a match takes a packet if and only if each of its attributes is None or the packet's, and the packet's addresses begin with the leading bits the match asks for |
| OfpMatch.EncompassesByAttributes | src/pox/pox/openflow/libopenflow_01.py:1384-1440 | one match encompasses another if and only if they are equal or the same holds of their attributes; considering the wildcards of the other makes no difference beyond bits that stand for no field |
| OfpMatch.FieldBits | src/pox/pox/openflow/libopenflow_01.py:507-518 | which bit of the word hides which field |
| OfpMatch.AddressCounts | src/pox/pox/openflow/libopenflow_01.py:1036-1048 | a count of 32 or more hides an address, a smaller one leaves that many fewer of its bits |
| Prefixes.LeadingBitsAgree | src/pox/pox/lib/addresses.py:316-334 | an address is in a network if and only if its leading bits are the network's and the network has no other bits |
| Prefixes.WithinIsContains | src/pox/pox/lib/addresses.py:316-334 | the network test of a match on prefix lengths is containment of masked networks |
| Prefixes.MasksNest | src/pox/pox/lib/addresses.py:334 | a prefix is no longer than another exactly when its mask is part of the other mask |
| BitMasks.NestedIsTransitive | src/pox/pox/lib/addresses.py:334 | networks inside networks are inside the outer one |
| OfpMatch.Match.GetNwSrc | src/pox/pox/openflow/libopenflow_01.py:1043-1048 | no address exactly when the number of network bits is zero, and never more than 32 |
| OfpMatch.Match.GetNwDst | src/pox/pox/openflow/libopenflow_01.py:1036-1041 | the same for destinations |
| FlowTables.FlowTable.AddEntry | src/pox/pox/openflow/flow_table.py:223-246 | binary search finds a place that keeps the table sorted by effective priority, newest first |
| FlowTables.FlowTable.MatchingEntries | src/pox/pox/openflow/flow_table.py:254-256 | exactly the entries matched |
| FlowTables.FlowTable.RemoveSpecificEntries | src/pox/pox/openflow/flow_table.py:275-292 | the single pass that stops early removes exactly the given entries and keeps the order |
| FlowTables.FlowTable.RemovePass | src/pox/pox/openflow/flow_table.py:280-291 | deleting in place at a moving index, and stopping when all were found, leaves exactly the other entries in order; the closing assertion cannot fail |
| FlowTables.FlowTable.RemoveMatchingEntries | src/pox/pox/openflow/flow_table.py:306-310 | exactly the matched entries go |
| FlowTables.FlowTable.RemoveExpiredEntries | src/pox/pox/openflow/flow_table.py:294-304 | exactly the entries past a timeout go |
| FlowTables.FlowTable.EntryForPacket | src/pox/pox/openflow/flow_table.py:312-326 | the first hit is the newest match of the greatest effective priority; none only when nothing matches |
| FlowTables.FlowTable.CheckForOverlappingEntry | src/pox/pox/openflow/flow_table.py:328-353 | the scan that stops at lower priorities finds what a full scan over equal priorities would |
| FlowTables.InsertedIsOrdered | src/pox/pox/openflow/flow_table.py:223-246 | inserting between the higher and the not higher keeps the order |
| FlowTables.ExactComesFirst | src/pox/pox/openflow/flow_table.py:79-83 | which of two entries is looked up first: the exact match, else the higher priority, else the newer |
| SwitchTables.PicksByKey | src/pox/pox/openflow/flow_table.py:85-100 | whether a command picks an entry is decided by the key (match, priority) and the output filter |
| SwitchTables.TargetIsHit | src/pox/pox/datapaths/switch.py:799-815 | non-strict matching is reflexive: a modification that hits nothing may be added without removing anything |
| SwitchTables.ModifiedRules | src/pox/pox/datapaths/switch.py:799-815 | replacing actions entry by entry is replacing them in the map under the keys hit |
| SwitchTables.DeletedRules | src/pox/pox/datapaths/switch.py:823-833 | deleting entries is removing their keys from the map |
| SwitchTables.InsertedRules | src/pox/pox/datapaths/switch.py:744-797 | removing the entry of a key and adding a new one is one map update |
| SwitchTables.SoftwareSwitch.FlowModAdd | src/pox/pox/datapaths/switch.py:744-797 | refused for the first reason that applies, with nothing changed; else the map is updated at the key |
| SwitchTables.SoftwareSwitch.Insert | src/pox/pox/datapaths/switch.py:786-797 | a full table refuses only keys it does not hold |
| SwitchTables.SoftwareSwitch.Clear | src/pox/pox/datapaths/switch.py:786-788 | an addition removes exactly the entry of its key; a modification acting as one removes nothing, because there is nothing |
| SwitchTables.ClearedForTarget | src/pox/pox/datapaths/switch.py:786-790 | removing the entry of the key makes room |
| SwitchTables.SoftwareSwitch.RewriteAll | src/pox/pox/datapaths/switch.py:807-811 | the loop reports a modification exactly when some key is hit |
| SwitchTables.SoftwareSwitch.FlowModModify | src/pox/pox/datapaths/switch.py:799-821 | the keys hit get the new actions; if none is hit, it is an addition |
| SwitchTables.SoftwareSwitch.FlowModDelete | src/pox/pox/datapaths/switch.py:823-839 | exactly the selected keys that output to the given port disappear |
| SwitchTables.SoftwareSwitch.Expire | src/pox/pox/openflow/flow_table.py:294-304 | exactly the keys of entries past a timeout disappear |
| SwitchTables.SoftwareSwitch.RxFlowMod | src/pox/pox/datapaths/switch.py:744-839 | each of the five commands refines its operation on a finite map from (match, priority) to actions |
| SwitchTables.SoftwareSwitch.RxPacket | src/pox/pox/datapaths/switch.py:512-517 | a packet postpones the idle timeout of one best match of the map and of nothing else |
| SwitchTables.RefusedByRules | src/pox/pox/openflow/flow_table.py:305-345 | overlap and size of the entry list are told by the map of keys |
| SwitchTables.DeletionMeans | src/pox/pox/datapaths/switch.py:823-839 | which keys a deletion leaves: all but those selected that, if a port is named, output to it |
| SwitchTables.ModificationMeans | src/pox/pox/datapaths/switch.py:799-821 | what a modification that selects something leaves: the same keys, the selected ones with the new actions and their old timeouts |
| SwitchTables.AdditionMeans | src/pox/pox/datapaths/switch.py:744-797 | what an addition leaves: the new rule under its key alone, or nothing changed and a refusal; without the overlap flag exactly when the table is full of other keys |
| SwitchTables.SoftwareSwitch.Run | src/pox/pox/datapaths/switch.py:744-839 | over any run of flow-mods, packets and expiry no two entries share (match, priority), the size stays within `max_entries`, the table stays sorted, and the map with its timeouts takes exactly the steps of its events: refused exactly when the map says so, expired exactly when its times say so |
| WildcardBits.WireAndBack | src/pox/pox/openflow/libopenflow_01.py:1228-1265 | wildcards sent and received again are those `fix` leaves, IPv6 included, although the two directions treat it differently |
| WildcardBits.FixedTwice | src/pox/pox/openflow/libopenflow_01.py:1267-1294 | fixing wildcards twice is fixing them once |
| MatchCodec.ReceivedIsFixed | src/pox/pox/openflow/libopenflow_01.py:1165-1212 | what arrives of a match shows exactly what `fix` leaves of it |
| MatchCodec.FixIsIdempotent | src/pox/pox/openflow/libopenflow_01.py:1267-1294 | fixing a fixed match changes nothing |
| MatchCodec.ParseLayout | src/pox/pox/openflow/libopenflow_01.py:1334-1354 | the forty bytes read back to the values written |
| MatchCodec.UnpackPack | src/pox/pox/openflow/libopenflow_01.py:1165-1354 | for every match, unpacking the packed match equals the fixed match with address counts above 32 read as 32 |
| MatchCodec.UnpackPackIsFix | src/pox/pox/openflow/libopenflow_01.py:1165-1354 | it equals the fixed match itself if and only if both address bit counts of the fixed wildcards are at most 32, as every setter leaves them |
| MatchCodec.FixShows | src/pox/pox/openflow/libopenflow_01.py:1267-1294 | attribute by attribute what a match shows after `fix`: TOS only for IP, protocol and addresses only for IP and ARP, ports only for ICMP, TCP and UDP over IP, the rest as before |
| MatchCodec.UnpackPackShows | src/pox/pox/openflow/libopenflow_01.py:1165-1354 | the same of what arrives, for every match and every wildcard word |
| MatchCodec.TransportStays | src/pox/pox/openflow/libopenflow_01.py:1272-1279 | a match for ICMP, TCP or UDP over IP is left as it is |
| WildcardBits.NormalWhenCountsFit | src/pox/pox/openflow/libopenflow_01.py:1214-1226 | normalisation leaves a word unchanged if and only if both its address bit counts are at most 32 |
| MatchCodec.LargeCountsArriveLower | src/pox/pox/openflow/libopenflow_01.py:1214-1226 | a match whose source count is 63, left alone by `fix`, arrives different |
| MatchObjects.MatchObject.constructor | src/pox/pox/openflow/libopenflow_01.py:1020-1034 | a new match is wildcarded in every field |
| MatchObjects.MatchObject.SetNwSrc | src/pox/pox/openflow/libopenflow_01.py:1061-1098 | the address and network bits, kept between 0 and 32, read back as set; no other field or wildcard bit changes |
| MatchObjects.MatchObject.SetNwDst | src/pox/pox/openflow/libopenflow_01.py:1050-1098 | the same for destinations |
| MatchObjects.MatchObject.Set | src/pox/pox/openflow/libopenflow_01.py:1100-1124 | each of the ten fields reads back as set, None included; the value stored and the wildcard bits are the only changes |
| MatchObjects.SettingShows | src/pox/pox/openflow/libopenflow_01.py:1100-1132 | a field shows what it was set to, None included |
| MatchObjects.OthersShowAsBefore | src/pox/pox/openflow/libopenflow_01.py:1100-1132 | setting one field changes what no other shows |
| MatchObjects.MatchObject.Fix | src/pox/pox/openflow/libopenflow_01.py:1267-1294 | clearing fields one by one in place is the fixing function, and shows exactly the attributes that can matter |
| MatchObjects.MatchObject.Unpack | src/pox/pox/openflow/libopenflow_01.py:1334-1354 | reading in place from any offset; too short a buffer is noticed only after the fields before its end were assigned, the wildcards never |
| MatchObjects.FailedUnpackShows | src/pox/pox/openflow/libopenflow_01.py:1334-1354 | a failed unpack leaves every match alone if and only if it failed on the first six bytes |
| ActionCodec.ParseAction | src/pox/pox/openflow/libopenflow_01.py:1513-2122 | an action that parses is exactly as long as its slice and never shorter than its header |
| ActionCodec.ActionAt | src/pox/pox/openflow/libopenflow_01.py:4357-4367 | the action that stands at an offset, inside the buffer, with the exceptions of the source |
| ActionCodec.ActionComesBack | src/pox/pox/openflow/libopenflow_01.py:1513-2122 | every action packs to its length and unpacks to itself, except that an output to anything but the controller loses `max_len` |
| ActionCodec.GenericComesBack | src/pox/pox/openflow/libopenflow_01.py:1513-1540 | a generic action comes back as one if and only if no class is registered for its type |
| ActionCodec.OutputAction.Pack | src/pox/pox/openflow/libopenflow_01.py:1560-1569 | packing clears `max_len` in place for ports other than the controller |
| ItemLists.ReadItems | src/pox/pox/openflow/libopenflow_01.py:4347-4370 | the decoding loop ends on every input and equals the recursive decoder, with its three exceptions |
| ItemLists.ConsumedIsTotal | src/pox/pox/openflow/libopenflow_01.py:4347-4370 | what a list decoder consumed is the sum of the sizes of what it returns |
| ItemLists.ListComesBack | src/pox/pox/openflow/libopenflow_01.py:4347-4370 | a packed list decodes to its items wherever it stands and whatever follows |
| ActionCodec.UnpackActions | src/pox/pox/openflow/libopenflow_01.py:4347-4370 | `_unpack_actions` ends on every buffer, length and offset, with what the decoder says |
| ActionCodec.ActionsComeBack | src/pox/pox/openflow/libopenflow_01.py:4347-4370 | the round trip of any well-formed action list at any place of a buffer |
| FlowModCodec.ConsumesItsLength | src/pox/pox/openflow/libopenflow_01.py:2337-2347 | a flow modification that unpacks was consumed to the byte, inside the buffer, so the length assertion of `unpack_new` cannot fail |
| ItemLists.ItemsStay | src/pox/pox/openflow/libopenflow_01.py:4347-4370 | a list that fills its space exactly is decoded alike by every reader that finds as much |
| ActionCodec.ActionsStay | src/pox/pox/openflow/libopenflow_01.py:4347-4370 | a list of actions that fills its space is read alike whatever follows that space |
| FlowModCodec.ModStays | src/pox/pox/openflow/libopenflow_01.py:2337-2347 | a complete flow modification that unpacks does so to the same whatever follows, and one that does not never will |
| FlowModCodec.FieldsReturn | src/pox/pox/openflow/libopenflow_01.py:2325-2343 | the fixed fields read back |
| FlowModCodec.PlacesInMessage | src/pox/pox/openflow/libopenflow_01.py:2322-2331 | header, match, fixed fields and actions stand one after the other at fixed places, with the length of the whole in the header |
| FlowModCodec.FieldPlaces | src/pox/pox/openflow/libopenflow_01.py:2325-2328 | each fixed field stands at its place |
| WireBytes.MostSignificantFirst | src/pox/pox/openflow/libopenflow_01.py:2325-2328 | fields of two, four and eight bytes are written most significant byte first |
| FlowModCodec.ModArrives | src/pox/pox/openflow/libopenflow_01.py:2295-2347 | the decoded message, its length and the offset behind it, field by field |
| FlowModCodec.ModComesBack | src/pox/pox/openflow/libopenflow_01.py:2295-2347 | for every match and well-formed action list, unpacking the packed message gives the fixed match, with every attribute that can matter as sent, the same fields and the actions as sent |
| FlowModRuns.OrdersAlike | src/pox/pox/datapaths/switch.py:744-839 | two orders that differ only in hidden parts of their match are refused alike and change the table alike |
| FlowModRuns.OrderMeans | src/pox/pox/openflow/libopenflow_01.py:460-472 | what the numbers of a received message order: commands 0 to 4 and no others, flags by their bits, all other fields as they stand |
| FlowModRuns.ReceivedIsCarriedOut | src/pox/pox/datapaths/switch.py:744-839 | from the wire to the table: what a switch decodes changes its table, or is refused, as the message sent with its match fixed would be |
| Ipv6Printing.FindDropped | src/pox/pox/lib/addresses.py:678-698 | the dropped section is the leftmost longest run of at least two zero groups; none exactly when there is no such run |
| Ipv6Printing.ZeroRuns | src/pox/pox/lib/addresses.py:679-689 | the loop lists exactly the maximal zero runs, in order |
| Ipv6Printing.LeftmostLongestIsUnique | src/pox/pox/lib/addresses.py:693-697 | there is only one such section |
| Ipv6Text.ReadSides | src/pox/pox/lib/addresses.py:452-467 | the loop over the segments builds the two sides that the recursive reading defines, with its exceptions |
| Ipv6Text.ParseGroups | src/pox/pox/lib/addresses.py:446-475 | whatever parses gives eight groups of sixteen bits |
| Ipv6Text.RawGroups | src/pox/pox/lib/addresses.py:658-659 | the raw bytes follow from the groups |
| Ipv6RoundTrip.SidesOfGap | src/pox/pox/lib/addresses.py:452-470 | segments with a gap read as the groups left and right of it |
| Ipv6RoundTrip.GapCount | src/pox/pox/lib/addresses.py:447-448 | the text of a dropped section has exactly one doubled colon, so the check passes |
| Ipv6RoundTrip.FewGroupsRead | src/pox/pox/lib/addresses.py:440-476 | three to eight groups without a gap are read too, with zeros at the end for what is missing |
| Ipv6RoundTrip.ThreeGroupsRead | src/pox/pox/lib/addresses.py:440-476 | `1:2:3` is an address |
| Ipv6RoundTrip.PiecesRead | src/pox/pox/lib/addresses.py:446-470 | eight spelled groups with any zero section of at least two dropped read back to the groups |
| Ipv6RoundTrip.BodyIsJoined | src/pox/pox/lib/addresses.py:671-700 | the formatted text is its tokens and the gap joined at colons |
| Ipv6RoundTrip.TokenLooks | src/pox/pox/lib/addresses.py:671-676 | a group is four lower-case digits, or with zero-drop as few as say the same |
| Ipv6RoundTrip.PlaceholdersStay | src/pox/pox/lib/addresses.py:661-663 | the placeholders of mixed notation are never dropped |
| Ipv6RoundTrip.MixedReads | src/pox/pox/lib/addresses.py:434-479 | text ending in a dotted quad reads back: the quad is cut off, zeros stand in for it, its bytes replace them |
| Ipv6RoundTrip.RoundTrip | src/pox/pox/lib/addresses.py:646-700 | for every address, zero-drop setting, notation and droppable section, parsing the text gives the address back |
| Ipv6RoundTrip.ToStr | src/pox/pox/lib/addresses.py:646-700 | to_str chooses the notation (mixed if asked for, or by default for ::ffff:0:0/96) and the section as promised, and its text parses back to the address |
| Ipv6RoundTrip.LoopbackLooks | src/pox/pox/lib/addresses.py:646-700 | the loopback address prints as `::1`, and as `::0001` with its digits kept |
| Ipv6Text.QuadReads | src/pox/pox/lib/addresses.py:309-311 | a printed dotted quad reads back to its bytes |
| Ipv6Text.RawQuadReads | src/pox/pox/lib/addresses.py:259-265 | four characters are taken for the four bytes themselves |
| Numerals.NumeralReads | src/pox/pox/lib/addresses.py:671-676 | a printed decimal or hexadecimal number reads back, and holds no colon or dot |
| TextPieces.SplitJoin | src/pox/pox/lib/addresses.py:446 | splitting undoes joining |
| TextPieces.OneDouble | src/pox/pox/lib/addresses.py:447-448 | a text with one gap has exactly one doubled colon |
| NatPorts.PortIsFirstFree | src/pox/pox/misc/nat.py:144-171 | the port chosen is the first free one in the order of the search; none exactly when every port tried is taken, and then every dynamic port of the protocol is |
| NatPorts.PortByNumber | src/pox/pox/misc/nat.py:144-171 | the same by numbers: up from the start to 65533, then from 49152 to 65533 |
| Nat.Translator.PickPort | src/pox/pox/misc/nat.py:144-171 | the loop ends, gives that port and marks it as used |
| Nat.AddKeeps | src/pox/pox/misc/nat.py:249-308 | a new flow keeps both indexes on the same records and the used ports exactly those of live records |
| Nat.RemoveKeeps | src/pox/pox/misc/nat.py:126-129 | removing a record keeps the same, and none of its deletions can fail |
| Nat.TouchKeeps | src/pox/pox/misc/nat.py:315 | renewing a record keeps the same |
| Nat.RecordsLiveTenMinutes | src/pox/pox/misc/nat.py:67-129 | a record lives ten minutes from the last packet of its flow in either direction, and the timer drops exactly those past that |
| Nat.Translator.Delete | src/pox/pox/misc/nat.py:126-129 | one record goes from both indexes and its port becomes free |
| Nat.IndexesAgree | src/pox/pox/misc/nat.py:100-106 | the incoming index and the used ports follow from the outgoing index |
| Nat.OutgoingRewrite | src/pox/pox/misc/nat.py:288-305 | what leaves carries the outside address, the outside port and the gateway, and for DNS the real server |
| Nat.IncomingRewrite | src/pox/pox/misc/nat.py:256-286 | what the incoming rule takes comes out as the reversal of the packet that started the flow |
| Nat.EmitsAtLast | src/pox/pox/misc/nat.py:273-305 | rewrites followed by one output send one packet, rewritten by all of them |
| Nat.RepliesComeBack | src/pox/pox/misc/nat.py:232-308 | the packet of a flow leaves once, by the outside port, rewritten field by field; the reply matches the incoming rule of its own record, of no other live record, and leaves once, by the port the flow came in on, as the answer to the original packet, DNS included |
| Nat.Translator.HandleInside | src/pox/pox/misc/nat.py:197-327 | known flows are resent and renewed, new ones recorded with the first free port; the whole new state and what is sent |
| Nat.Translator.HandleOutside | src/pox/pox/misc/nat.py:197-247 | answers to live flows are resent and renew them; other packets to the outside address are ignored by a short-lived entry; the whole new state and what is sent |
| Nat.Translator.Expire | src/pox/pox/misc/nat.py:120-129 | exactly the records past their time go, from both indexes, and their ports become free |
| Nat.Translator.Run | src/pox/pox/misc/nat.py:120-308 | any run: every state is consistent and the exact effect of its event on the one before, and it ends early only at a packet of a new flow when every port of its protocol is taken |
| StreamReader.CutsAreHarmlessWhenSteady | src/pox/pox/openflow/of_01.py:888-942 | for any unpackers, any byte stream and any limit on a read: all ways to cut the stream have the same fate if and only if each message the stream reaches has the same fate whatever of what follows has arrived with its last byte |
| StreamReader.ChunksDoNotMatter | src/pox/pox/openflow/of_01.py:888-942 | then every cutting dispatches the same messages under the same handlers, and fails or hangs alike: as if the stream came byte by byte |
| StreamReader.ReadGoesOn | src/pox/pox/openflow/of_01.py:904-940 | after any read a steady stream goes on as if it had come byte by byte |
| StreamReader.UnsteadyShows | src/pox/pox/openflow/of_01.py:904-940 | where it is not so, some cutting into reads has another fate than coming byte by byte |
| StreamReader.LoopEndsUnlessEmpty | src/pox/pox/openflow/of_01.py:904-937 | the loop, as a machine of single turns, ends if and only if it reaches no message without length that unpacks |
| StreamReader.NeverEnds | src/pox/pox/openflow/of_01.py:904-937 | from such a message on it never ends |
| StreamReader.EndsAtOutcome | src/pox/pox/openflow/of_01.py:904-937 | otherwise it ends with the state the recursive reading gives |
| StreamReader.FramesAreSteady | src/pox/pox/openflow/of_01.py:904-937 | well-formed messages, each judged by itself, make a steady stream |
| StreamReader.LoopTakesAll | src/pox/pox/openflow/of_01.py:904-937 | one pass takes all complete messages and stops at the part that is left |
| StreamReader.CompleteMessagesAreDispatched | src/pox/pox/openflow/of_01.py:888-942 | of a stream of well-formed messages cut anyhow, exactly the complete ones are dispatched in order, each under the table left by its predecessors, and the buffer holds the rest |
| StreamReader.Connection.FrontOf | src/pox/pox/openflow/of_01.py:906-927 | wait for more, drop the connection, or take a message: decided as the source does |
| StreamReader.Connection.Read | src/pox/pox/openflow/of_01.py:888-942 | the loop over an offset equals the recursive reading, failures included; a message without length is handled and reported as hanging |
| Unpackers.ReadEndsUnlessEmptyVendor | src/pox/pox/openflow/libopenflow_01.py:4176-4183 | with the unpackers of the program, a read ends if and only if it reaches no vendor message of length 0 with twelve bytes behind its start |
| Unpackers.ReadNeverEnds | src/pox/pox/openflow/libopenflow_01.py:4176-4183 | twelve bytes on which the loop turns for ever |
| Unpackers.CutsAreHarmlessUnlessShortVendor | src/pox/pox/openflow/libopenflow_01.py:4176-4183 | with the unpackers of the program and reads of 1 to 2048 bytes, all cuttings have the same fate if and only if the stream reaches no vendor message shorter than its fields |
| Unpackers.CutDecides | src/pox/pox/openflow/libopenflow_01.py:4176-4183 | an eight-byte vendor message: dropped when it arrives alone, taken when more arrives with it |
| Unpackers.OnlyShortVendorsAreUnsteady | src/pox/pox/openflow/util.py:20-32 | of all messages the table unpacks, only short vendor messages depend on what follows them |
| Unpackers.OnlyVendorsAreEmpty | src/pox/pox/openflow/util.py:20-32 | only a vendor message is taken without a length |
| Unpackers.PackedIsWellFormed | src/pox/pox/openflow/libopenflow_01.py:566-588 | every packed message of the modelled classes is a well-formed frame of these unpackers and unpacks to itself, a flow modification to itself as received |
| Unpackers.PackedMessagesAreDispatched | src/pox/pox/openflow/of_01.py:888-942 | end to end: any list of packed messages, cut anyhow by the network, is handed out message by message as received, in order, and the incomplete rest is kept |
| PortCollections.ForgetRemoves | src/pox/pox/openflow/of_01.py:618-623 | masking and dropping removes a number from the plain map the collection stands for |
| PortCollections.UpdateSets | src/pox/pox/openflow/of_01.py:625-628 | unmasking and replacing sets it |
| PortCollections.PortCollection.Forget | src/pox/pox/openflow/of_01.py:618-623 | the view loses exactly that number, through the chain |
| PortCollections.PortCollection.Update | src/pox/pox/openflow/of_01.py:625-628 | the view gains exactly that port |
| PortCollections.PortCollection.Reset | src/pox/pox/openflow/of_01.py:614-616 | the view is the parent again |
| PortCollections.PortCollection.GetItem | src/pox/pox/openflow/of_01.py:639-657 | lookup by number through chain and masks is lookup in the plain map |
| PortCollections.PortCollection.Keys | src/pox/pox/openflow/of_01.py:659-666 | the keys are those of the plain map |
| Handshake.ToldIsNewsOnFeatures | src/pox/pox/openflow/of_01.py:183-190 | the expected ports are those of the last features reply with all later port news applied in order |
| Handshake.Connection.EarlyFeatures | src/pox/pox/openflow/of_01.py:327-359 | ports and deferred news start over, and the barrier of this reply is the one that counts |
| Handshake.Connection.TakePorts | src/pox/pox/openflow/of_01.py:327-331 | the reported ports become the parent, and the changes are forgotten |
| Handshake.ApplyStatus | src/pox/pox/openflow/of_01.py:184-187 | a deleted port is forgotten, any other news replaces it |
| Handshake.Connection.EarlyStatus | src/pox/pox/openflow/of_01.py:361-364 | news is deferred once ports are known, and dropped before |
| Handshake.Connection.EarlyBarrier | src/pox/pox/openflow/of_01.py:283-290 | the connection is up exactly when the right barrier is answered; another answer ends it |
| Handshake.Connection.EarlyError | src/pox/pox/openflow/of_01.py:292-300 | so it is when the switch does not know barriers |
| Handshake.Connection.FinishConnecting | src/pox/pox/openflow/of_01.py:366-387 | the deferred news is applied in the order of arrival |
| Handshake.Connection.LateFeatures | src/pox/pox/openflow/of_01.py:245-249 | a features reply on a live connection replaces the ports |
| Handshake.Connection.LateStatus | src/pox/pox/openflow/of_01.py:183-190 | port news on a live connection is applied at once |
| Handshake.Run | src/pox/pox/openflow/of_01.py:271-387 | over any run, the connection is up exactly if some message answered the barrier of the last features reply, or said that the switch knows none; it is given up exactly when another barrier is answered before or no nexus takes the switch; once it is up, its ports by number are what the last features reply and all later news say |
| RtmpParser.OneByteMoreStays | src/pox/pox/livestreaming/bypass.py:119-131 | a packet keeps one byte more than it announces if and only if the content ends there; anything longer is left for the next packet |
| RtmpParser.PiecesJoin | src/pox/pox/livestreaming/bypass.py:366-373 | when all packets parse, their headers and payloads join to the content, and all but the last announce their length |
| RtmpParser.Split | src/pox/pox/livestreaming/bypass.py:366-373 | the splitting loop ends on every payload with the packets the parser defines |
| RtmpParser.Parse | src/pox/pox/livestreaming/bypass.py:86-134 | a packet that parses leaves less than there was, so the loop makes progress |
| RtmpParser.FieldsRead | src/pox/pox/livestreaming/bypass.py:100-118 | the fields of a header stand where its type puts them |
| RtmpParser.HeaderReads | src/pox/pox/livestreaming/bypass.py:86-118 | every header, of any type and stream-id length, reads back from its bytes |
| RtmpParser.ParsedIsHeader | src/pox/pox/livestreaming/bypass.py:86-118 | every header that parses is one of these, so there are no others |
| RtmpParser.PacketsComeBack | src/pox/pox/livestreaming/bypass.py:86-134 | any packets that announce their lengths, sent in one payload, are what the loop finds |
| Livestream.OnPayloadKeeps | src/pox/pox/livestreaming/bypass.py:289-484 | any payload, a failed check included, keeps the mode safe: ready flags imply known roles, both decisions are never true, and a service known by a true port stays the service |
| Livestream.OnPiecesKeeps | src/pox/pox/livestreaming/bypass.py:383-454 | the keyword loop keeps a safe, undecided mode safe wherever it is cut short |
| Livestream.DecideKeeps | src/pox/pox/livestreaming/bypass.py:463-481 | deciding is safe and goes one way only, with the roles it needs known |
| Livestream.PiecesHoldService | src/pox/pox/livestreaming/bypass.py:383-454 | no packet replaces a service that is known by a true port, wherever the loop is cut short |
| Livestream.PortZeroPinsNothing | src/pox/pox/livestreaming/bypass.py:403-410 | after a first answer, one from another host is accepted if and only if the first came in on port 0 |
| Livestream.LearningSwitch.TakePlayStart | src/pox/pox/livestreaming/bypass.py:400-413 | the checks of the source decide; the assertion on the play flag cannot fail |
| Livestream.LearningSwitch.TakePublishStart | src/pox/pox/livestreaming/bypass.py:432-445 | likewise for the publish flag |
| Livestream.LearningSwitch.TakePiece | src/pox/pox/livestreaming/bypass.py:383-454 | the five tests in their order, ending at the first failed check with what was set so far |
| Livestream.LearningSwitch.TakePieces | src/pox/pox/livestreaming/bypass.py:383-454 | the same for all packets of a payload |
| Livestream.LearningSwitch.HandleContent | src/pox/pox/livestreaming/bypass.py:366-484 | the splitting loop, the keywords and the decision |
| Livestream.OnWordsKeeps | src/pox/pox/livestreaming/bypass.py:386-454 | the tests keep a safe, undecided mode safe in any order |
| Livestream.LearningSwitch.DecideNow | src/pox/pox/livestreaming/bypass.py:463-481 | the role assertions cannot fail when the mode is decided |
| Livestream.LearningSwitch.HandleRtmp | src/pox/pox/livestreaming/bypass.py:289-484 | the whole effect of a payload: handshakes, the twelve-byte prefix, unparsable content, keywords |
| Livestream.LearningSwitch.HandleNotify | src/pox/pox/livestreaming/bypass.py:564-624 | a heartbeat in steering mode carries the other end's address as padded text; its role assertion cannot fail |
| Livestream.HeartbeatsCross | src/pox/pox/livestreaming/bypass.py:589-622 | once steering is on, a heartbeat of the service gives each of two end hosts the address of the other, in fifteen characters, and anyone else nothing, and a dropping entry follows |
| Livestream.HeartbeatsPass | src/pox/pox/livestreaming/bypass.py:564-627 | a heartbeat before steering, or on its way to the service, goes where its address says |
| Heartbeats.HeartbeatReads | src/pox/pox/livestreaming/bypass.py:606-613 | for every address the payload is fifteen characters long, and the address reads back from before the padding |
| Livestream.LearningSwitch.HandlePacketIn | src/pox/pox/livestreaming/bypass.py:629-651 | the whole effect of a packet on mode, prefix, learned ports and output; it keeps the mode safe, takes nothing back and leaves a pinned service; once decided, roles and mode are frozen |
| Livestream.LearningSwitch.Run | src/pox/pox/livestreaming/bypass.py:629-651 | over every sequence of packets each state is the effect of its packet on the one before, and all that holds for one packet holds for the sequence |
| Steering.PieceTeaches | src/pox/pox/livestreaming/bypass.py:383-454 | exactly what a packet whose checks hold teaches: who asked to play or to publish, which service granted which, that the stream began, each by its words in the payload and from the right port |
| Steering.WordsAreHeard | src/pox/pox/livestreaming/bypass.py:160-170 | the five tests are occurrences of their words anywhere in the payload |
| Steering.ContentDecides | src/pox/pox/livestreaming/bypass.py:463-481 | a payload that passes all checks ends with steering on if and only if both streams are granted, and set off if and only if the stream began and the broadcaster is not granted |
| Steering.OnlyRtmpTeaches | src/pox/pox/livestreaming/bypass.py:629-651 | nothing but RTMP segments of an undecided switch changes what is known, and every source is learned |
| Steering.SteeringWasGranted | src/pox/pox/livestreaming/bypass.py:289-484 | in every run, the switch steers only after the service granted both streams from its own port |
| Steering.FourPacketsSteer | src/pox/pox/livestreaming/bypass.py:289-484 | it does steer: once a viewer asked and was granted, and a broadcaster asked and was granted by the same host, with those two as its ends, and not a packet before |

## Left out

- Sockets, `select`, SSL, timers, logging and the event library: their outcomes are parameters or
  nondeterministic steps, and time is an integer parameter.
- Packet parsing libraries: packets come as the fields the handlers look at.
- L2Multi.Forwarder.GetPath: which of several shortest paths is taken follows the iteration order of
  dictionaries, so only reachability and length are fixed, not the path itself.
- L2Multi.Forwarder.HandleLinkEvent: that adjacency is backed by links that discovery holds is claimed
  only where it is so, which is stated by `Backing.BatchBacks`; switches linked to themselves are left out
  there.
- Barriers.Protocol.InstallPath: what the flow modifications sent along with the barriers contain is not
  modelled; `WaitingPath` objects are entries of a map under an identity number.
- Flooding.FloodControl.UpdateTree: clearing what is remembered after an exception while sending, and
  the timers that delete flows after a port change, are not modelled.
- DeferredSending.NoInterleavingLosesBytes: `kill` and exceptions other than socket errors are not
  modelled; a fatal socket error ends the claim for that connection.
- FlowTables.FlowTable.EntryForPacket: entries are values with an identity number, and their counters
  and flow statistics are not modelled.
- SwitchTables.SoftwareSwitch.RxPacket: of a packet only its match is modelled, not what the actions do
  with it; which of several best matches is hit is not told by the map.
- FlowTables.FlowTable.CheckForOverlappingEntry: containment one way or the other is what the code
  tests; true overlap in the sense of the OpenFlow specification is not claimed.
- SwitchTables.SoftwareSwitch.RxFlowMod: an unknown command, the buffered packet of a flow
  modification and flow-removed messages are not modelled.
- MatchCodec.UnpackPack: the locking of matches and their hashing are not modelled; the fields are
  machine words, so values too large for their field, which `struct.pack` rejects, do not arise.
- ActionCodec.ActionsComeBack: vendor actions other than the generic one, and Nicira extensions, are
  not modelled; decoding an action from a slice fails as a whole, without the fields already set.
- FlowModCodec.ModComesBack: with `data` set, packing appends a barrier and a packet-out; that case is
  not modelled.
- Ipv6RoundTrip.ToStr: what Python's `int` accepts in a group besides hexadecimal digits (signs, blanks,
  a prefix), and what `inet_aton` accepts besides four plain decimal numbers, counts as malformed here;
  the constructors from other types are not modelled.
- Nat.RepliesComeBack: the packet at hand also travels in the `data` of the flow modification; that copy,
  and the timeout and flags of the rules, are not modelled.
- Nat.Translator.Run: a run ends when no port is left; what the code goes on to do with a missing port
  is not consistent and is not modelled.  The packet filter for local addresses is a parameter.
- StreamReader.CompleteMessagesAreDispatched: a handler's effect is its effect on the handler table.
- Unpackers.CutsAreHarmlessUnlessShortVendor: the unpackers of features replies, port status, packet-out,
  statistics and queue replies are a parameter, of which only what their own length checks give is
  required; messages of a fixed layout keep their fields as bytes; the Nicira extension, which replaces
  the vendor unpacker when it is loaded, is not modelled.
- PortCollections.PortCollection.GetItem: lookup by name or hardware address, which can return a stale
  entry of the parent, is not modelled; port numbers in a features reply are distinct.
- Handshake.Run: the messages sent during the handshake and the events raised are not modelled.
- Livestream.LearningSwitch.HandleNotify: the match of the dropping entry that is installed with a
  heartbeat is not modelled.
- Queue properties, statistics bodies, `epoll_select.py`, the LLDP sender, packet buffer slots, waiters
  of the core and Nicira roles: easier than what is here.
- `topo_proactive.py` repeats the shortest-path algorithm.
