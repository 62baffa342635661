# Network-stack labs: a verified model

This project models the algorithms and protocols inside a set of user-space network labs and proves
properties of them that hold for every input, every run or every reachable state.

| part | modules | main result |
|---|---|---|
| mOSPF routes | `MospfDatabase`, `MospfPaths`, `MospfTopology`, `MospfDijkstra`, `MospfRoutes`, `MospfForwarding` | the link-state database becomes the symmetric closure of its advertised links, Dijkstra yields exact distances, and the predecessor chase yields the first hop of a shortest chain of routers; both assertions hold exactly when the database is closed and connected; with agreeing databases a packet forwarded hop by hop is at its destination after exactly its distance in hops |
| mOSPF tables | `MospfDaemon` | neighbour counters are exact in every run and each address is remembered exactly as its own hellos say, an update fills its LSA region exactly, what a receiver stores links a router to exactly its neighbours, and for every history of updates and ageing passes it is said what an entry holds and until when |
| mOSPF flooding | `MospfFlooding`, `MospfEcho` | flooding stops in any topology, even one that changes at every step; in a fixed network some run locks a router up by its own update exactly if a way leads from it back to it through at most 254 others |
| TCP | `TcpRing`, `TcpReceive`, `TcpStream`, `TcpSend`, `TcpTransfer` | under any loss, repetition and reordering the bytes read are a prefix of the bytes written, and what is delivered is the longest gap-free prefix of what arrived; with overlapping segments this holds exactly when none that arrived lies across rcv_nxt |
| spanning tree | `StpBridge`, `StpNetwork`, `StpDeadEnd` | in every run every (root, cost) pair anywhere in the network is backed by a real walk of exactly that length; a switch can settle on the wrong root for good |
| reader and writer | `WakeUp` | no wake-up is lost in any interleaving and none is used twice; a read that finds data takes all it asked for |
| NAT | `Nat` | in every run with at most as many new flows as ports all live mappings have distinct ports in the range; a reply becomes the exact reverse of the packet it answers exactly if no sweep found the flow idle too long |
| route lookup | `Lookup`, `LookupDigits`, `LeafPush`, `LeafPushTries` | the compressed trie answers as the trie does, at the leaf whose path the address spells; leaf pushing, in place and with its shared carrier nodes, leaves an exactly known trie that compresses at every level, with the entries it should inherit exactly when no shared carrier ends with another one |
| ARP queue | `ArpQueue` | every packet is in exactly one of pending, sent or unreachable, in order; in any run without an answer a request lasts four due sweeps and not five |
| checksum | `Checksum` | two folds suffice, recomputing over a filled-in checksum gives 0 for every buffer, and the TCP checksum is right exactly when 32 bits do not overflow |

Where the source updates arrays, lists or fields in place, the model has a class with those fields and
methods with the source's loops; each method is proved equal to a specification function, and the lemmas
are about those functions. Distributed and concurrent behaviour is a state machine over steps that call
the same functions. An `assert` of the source that can fail is a Boolean result, with the exact condition
for it.

Several of these results are negative: the property one would expect is false of the code. They give a
concrete input, or the exact condition under which the code does meet the property, or both:

| expected | holds exactly when | fails at |
|---|---|---|
| a stored count is within its array | `StoredInBounds` | `ShrinkingUpdateBreaksBounds` |
| an entry holds the newest update | `StaysNewest`; if not renewed it lasts as `StaleEntryLasts` says | `LateUpdateWins`, `WrapEndsEntry` |
| a router goes on after any update | `HandleLsu`, `StuckExactlyOnCycles` | `TriangleGetsStuck` |
| all bytes that could be delivered are | `WhenNewBytesAreLost` | `OverlapsDependOnOrder`, `OvertakenLosesBytes` |
| only acknowledged data leaves the send queue | `WhenAckDropsUnacked` | `SecondSegmentForgotten`, `StrandedSegment`, `HonestAckStrands` |
| belief and root port of a switch agree | `HandledCoherent` | `OnePortSwitchStaysBehind` |
| a switch follows its best port | `ElectionIsBest` | `AbandonsBetterRootPort`, `GoodNewsMakesSwitchRoot`, `WrongRootForGood` |
| NAT ports stay in range | `OutKeepsRange`, `EveryRunInRange` | `ExhaustedPoolMisdelivers` |
| an ARP answer releases all that wait for it | `AnswerFlushesAll` | `SecondInterfaceLeftWaiting` |
| both route lookups agree | `CompressedSearchAgrees` | `MissesDiffer` |
| leaf pushing fills a slot with the entry above it | `WhenPushInherits` | `SharedCarrierMisleads` |
| the TCP checksum is that of RFC 793 | `RightUnlessWrapped` | `LargeAddressesGetItWrong` |

The code decides where it disagrees with its own comments:
- a second ARP request goes out at every sweep once the first is a second old, since `sent` is not renewed
  (12-mospf/arpcache.c:140-146 says otherwise);
- the NAT sweep does not free port resources (10-nat/src/nat.c:144-145 says it does);
- neighbours time out after 3 hello intervals plus two passes, not after the 20 seconds of
  12-mospf/include/mospf_proto.h:18;
- an acknowledgement removes every packet that starts at or before it, not only those it covers.

Inputs from outside are parameters: the clock, payloads, the addresses of interfaces, which router
receives a copy. Packets, list nodes and headers are records and sequences; a freed packet is a dropped one.

## Model

| member | source | states |
|---|---|---|
| MospfDatabase.LinksMeaning | 12-mospf/mospf_daemon.c:410-420 | a pair is a link of the database exactly when some entry advertises it among its first nadv LSAs with a non-zero router id |
| MospfRoutes.RouteTable.InitGraph | 12-mospf/mospf_daemon.c:369-377 | every pair of nodes starts unconnected, every node at distance zero from itself |
| MospfRoutes.RouteTable.GetNode | 12-mospf/mospf_daemon.c:379-388 | finds the first position of a router id, and fails its assertion exactly when the id is unknown |
| MospfRoutes.AddLink | 12-mospf/mospf_daemon.c:416-418 | entering one link changes the two mirrored matrix cells of that pair and no other |
| MospfRoutes.RouteTable.AddEntry | 12-mospf/mospf_daemon.c:410-420 | the matrix gains exactly the links of one entry, or the assertion fails exactly when the entry names an unknown router |
| MospfRoutes.RouteTable.AddEntries | 12-mospf/mospf_daemon.c:410-421 | the matrix gains exactly the links of all entries, or an assertion fails exactly when some entry names an unknown router |
| MospfRoutes.RouteTable.BuildGraph | 12-mospf/mospf_daemon.c:390-422 | one node per router and the symmetric closure of the advertised links; it completes exactly when only known routers are named |
| MospfRoutes.RouteTable.MinDist | 12-mospf/mospf_daemon.c:424-436 | a nearest open node, and the assertion fails exactly when no open node has a finite estimate |
| MospfRoutes.RouteTable.InitDistances | 12-mospf/mospf_daemon.c:440-451 | establishes the round invariant with only the source settled |
| MospfRoutes.RouteTable.Relax | 12-mospf/mospf_daemon.c:456-464 | every open node gets the better of its estimate and the way through the settled node, predecessor included |
| MospfDijkstra.NextRound | 12-mospf/mospf_daemon.c:453-465 | settling a nearest open node keeps the round invariant: tree of settled predecessors, ordered estimates, no settled link improvable |
| MospfDijkstra.StuckMeansUnreachable | 12-mospf/mospf_daemon.c:434 | the assertion of Min_dist fails only if some node is out of reach |
| MospfDijkstra.AllSettled | 12-mospf/mospf_daemon.c:438-467 | when all nodes are settled every estimate is the exact distance of its node |
| MospfPaths.ExactDistance | 12-mospf/mospf_daemon.c:438-467 | a predecessor tree that no link can improve realises the minimum over all paths |
| MospfPaths.Unreachable | 12-mospf/mospf_daemon.c:459-460 | an estimate still at MAX_INT then means that no path is cheaper than MAX_INT |
| MospfRoutes.RouteTable.SettleNext | 12-mospf/mospf_daemon.c:453-465 | one iteration of the main loop settles one more node or reports the failing assertion |
| MospfRoutes.RouteTable.Dijkstra | 12-mospf/mospf_daemon.c:438-467 | for every weighted matrix: completes exactly when all nodes are within MAX_INT of node 0, and then Dist holds the minimum path costs and Prev a shortest-path tree |
| MospfTopology.CostIsHops | 12-mospf/mospf_daemon.c:418 | in the graph of a database a path costs as many units as it has links |
| MospfTopology.PathIsChain | 12-mospf/mospf_daemon.c:410-420 | paths of the matrix are exactly chains of advertised links between known routers |
| MospfTopology.ReachableIsConnected | 12-mospf/include/mospf_daemon.h:8-9 | with at most MAX_NUM nodes the MAX_INT cap never bites: reachable is the same as connected |
| MospfTopology.HopsFromMatrix | 12-mospf/mospf_daemon.c:525-534 | distance and first hop in the matrix are hop count and first router of a shortest chain of routers |
| MospfPaths.LeadsToFirstHop | 12-mospf/mospf_daemon.c:531-533 | the walk back along predecessors is a shortest path whose first hop is where the chase stops |
| MospfRoutes.RouteTable.NextHop | 12-mospf/mospf_daemon.c:531-533 | the chase terminates at a neighbour of the source that is first hop of a shortest path to the starting node |
| MospfRoutes.RouteTable.ComputePaths | 12-mospf/mospf_daemon.c:508-510 | graph construction and Dijkstra both complete exactly when the database names only known routers and connects all of them to this one |
| MospfRoutes.RouteTable.RouteTo | 12-mospf/mospf_daemon.c:525-534 | the next hop found is a router linked to this one and starts a chain of advertised links as short as any |
| MospfForwarding.OwnAdvertNotNeeded | 12-mospf/mospf_daemon.c:261 | a database without its owner's advertisement shows the same links, since the far end of each advertises it too |
| MospfForwarding.NextHopIsNearer | 12-mospf/mospf_daemon.c:525-534 | the next hop on a shortest chain is, by its own database, one hop nearer to the destination |
| MospfForwarding.ForwardingArrives | 12-mospf/mospf_daemon.c:508-534 | with agreeing databases, after n hops a packet is exactly n hops nearer, and it is at its destination after its distance in hops and not before |
| MospfDaemon.HeardMeaning | 12-mospf/mospf_daemon.c:164-180 | a hello leaves its sender just heard from and every other neighbour alone |
| MospfDaemon.HeardNew | 12-mospf/mospf_daemon.c:172-180 | a hello from an unknown address enters its sender with the router id and mask the hello gives |
| MospfDaemon.HeardKeepsCount | 12-mospf/mospf_daemon.c:172-180 | after a hello the counter is still the list length, addresses are still unique and the sender is known |
| MospfDaemon.AgedMeaning | 12-mospf/mospf_daemon.c:110-119 | a timeout pass keeps exactly the neighbours heard from recently enough, one tick older |
| MospfDaemon.SilenceTimesOut | 12-mospf/mospf_daemon.c:105-121 | in every run of hellos and passes without a hello from it on its interface, a neighbour stays while its age and the passes add up to at most sixteen, and is gone from then on |
| MospfDaemon.CountersStayExact | 12-mospf/mospf_daemon.c:100-183 | in every run of hellos and timeouts num_nbr equals the neighbour list length on every interface |
| MospfDaemon.TableRemembers | 12-mospf/mospf_daemon.c:100-183 | in every run from empty tables an interface holds for each address at most one entry, with id and mask of the first hello since it was last forgotten and its age in passes since the last hello |
| MospfDaemon.Daemon.HandleHello | 12-mospf/mospf_daemon.c:152-183 | the in-place loop has the effect of the hello on one interface, counters staying exact |
| MospfDaemon.Daemon.CheckNeighbours | 12-mospf/mospf_daemon.c:105-121 | the in-place sweep ages every interface, counters staying exact |
| MospfDaemon.AdvertMeaning | 12-mospf/mospf_daemon.c:206-222 | the advertisement holds network, mask and router id of each neighbour, and network, mask and id 0 of each interface without neighbours, and nothing else |
| MospfDaemon.Daemon.CountAdverts | 12-mospf/mospf_daemon.c:193-200 | the count taken before packing is the number of LSAs that will be written |
| MospfDaemon.Daemon.PackAll | 12-mospf/mospf_daemon.c:205-222 | packing fills the LSA region from first slot to last, in interface and neighbour order |
| MospfDaemon.Daemon.BuildLsu | 12-mospf/mospf_daemon.c:193-240 | the update carries the whole advertisement and starts with the full TTL |
| MospfDaemon.AdvertisedLinks | 12-mospf/mospf_daemon.c:215-221 | stored, an advertisement links its router to exactly the routers it has as neighbours |
| MospfDaemon.AdvertiseAndStore | 12-mospf/mospf_daemon.c:285-300 | a receiver without an entry for the sender stores exactly its LSAs, in order, with the matching count, and links the sender to exactly the routers in its tables |
| MospfDaemon.HearAdvertiseAndStore | 12-mospf/mospf_daemon.c:152-300 | a router heard for the first time is a link of its hearer in the database of whoever gets the hearer's next update |
| MospfDaemon.StoredKeepsDistinct | 12-mospf/mospf_daemon.c:269-300 | storing an update keeps one entry per router and none for the owner |
| MospfDaemon.FreshMeaning | 12-mospf/mospf_daemon.c:134-146 | an ageing pass keeps exactly the entries renewed less than 35 seconds ago |
| MospfDaemon.Daemon.CheckDatabase | 12-mospf/mospf_daemon.c:134-146 | the removal loop has the effect of an ageing pass, entries staying distinct |
| MospfDaemon.DatabaseStaysDistinct | 12-mospf/mospf_daemon.c:125-300 | whatever updates arrive and whenever entries are dropped, the database has one entry per router and none for its owner |
| MospfDaemon.StoredInBounds | 12-mospf/mospf_daemon.c:272-283 | the recorded count stays within the array exactly when the update does not shrink an array it replaces |
| MospfDaemon.ShrinkingUpdateBreaksBounds | 12-mospf/mospf_daemon.c:272-283 | two links advertised, then one: the count points past the end of the array |
| MospfDaemon.EntryHolds | 12-mospf/mospf_daemon.c:125-300 | for every history of updates and ageing passes: a router has an entry exactly if an update of it came since the entry was last dropped; the entry has sequence number and count of the first such update, array and time of the last one above that number |
| MospfDaemon.StaysNewest | 12-mospf/mospf_daemon.c:137-283 | for every history: an entry with the newest array is dropped exactly by an ageing pass that finds it too old, and otherwise stays newest exactly unless the next event is an update of its router that arrives late, between the first and the newest |
| MospfDaemon.StaleEntryLasts | 12-mospf/mospf_daemon.c:137-276 | an entry whose updates are all ignored stays as it is until the first ageing pass 35 seconds or more after its last renewal; the next update then makes a new entry, whatever its number |
| MospfDaemon.WrapEndsEntry | 12-mospf/mospf_daemon.c:245 | after the 16-bit wrap-around an entry holds update 65535 and ignores what follows until such an ageing pass drops it, and the next update makes a new entry |
| MospfDaemon.LateUpdateWins | 12-mospf/mospf_daemon.c:272-283 | updates 1, 3, 2 in this order leave the array of update 2 |
| MospfDaemon.Daemon.StoreLsu | 12-mospf/mospf_daemon.c:266-300 | the database loop replaces or appends as specified and keeps entries distinct |
| MospfDaemon.CopiesMeaning | 12-mospf/mospf_daemon.c:314-330 | exactly the neighbours on interfaces other than the incoming one, if there is one, get a copy |
| MospfDaemon.Daemon.SendLsu | 12-mospf/mospf_daemon.c:185-250 | one update with the whole advertisement to every neighbour on every interface, and the 16-bit sequence number moves on by one |
| MospfDaemon.Daemon.HandleLsu | 12-mospf/mospf_daemon.c:252-334 | stores and forwards any update that is not the router's own, whether new or not; on its own update, and on no other, the lock is never released again |
| MospfFlooding.ForwardedTtl | 12-mospf/mospf_daemon.c:312-313 | copies leave with one TTL less and never zero, so the u8 decrement does not wrap |
| MospfFlooding.ForwardedWeighsLess | 12-mospf/mospf_daemon.c:312-331 | all copies a delivery causes weigh less than the copy delivered, with weight (K+1)^ttl |
| MospfFlooding.StepDescends | 12-mospf/mospf_daemon.c:261-331 | every delivery or loss keeps TTLs in range and lowers the potential |
| MospfFlooding.FloodingStops | 12-mospf/mospf_daemon.c:261-331 | no run is longer than its initial potential, with topology and neighbour tables free to change at every step |
| MospfFlooding.FreshUpdateStops | 12-mospf/mospf_proto.c:24-30 | a fresh update sent to n neighbours causes at most n (K+1)^255 steps |
| MospfEcho.UpdateTravels | 12-mospf/mospf_daemon.c:252-331 | along any way of at most 255 hops that starts at the origin and then avoids it, each copy going to the owner of its address, the update can be brought onto the last hop |
| MospfEcho.ArrivalExplained | 12-mospf/mospf_daemon.c:252-331 | every delivery keeps every copy in flight explained by a way from the origin, and leaves a router stuck only by a way back to it |
| MospfEcho.StuckExactlyOnCycles | 12-mospf/mospf_daemon.c:252-331 | some run of deliveries and losses leaves the sender of an update stuck exactly if the network has a way from it back to it through at most 254 others; no run makes another router stuck |
| MospfEcho.TriangleGetsStuck | 12-mospf/mospf_daemon.c:261 | three routers linked in a triangle: the update of one goes round and leaves it stuck |
| TcpRing.WindowAppend | 17-tcp_stack/include/ring_buffer.h:87-97 | bytes stored after the tail, going round or not, extend the queue at its end |
| TcpRing.RingBuffer.Used | 17-tcp_stack/include/ring_buffer.h:35-38 | the modular difference of the indices is the number of bytes queued |
| TcpRing.RingBuffer.Free | 17-tcp_stack/include/ring_buffer.h:40-44 | free and queued bytes add up to size minus one |
| TcpRing.RingBuffer.Read | 17-tcp_stack/include/ring_buffer.h:60-78 | hands out exactly the oldest bytes and leaves the rest, across wrap-around |
| TcpRing.RingBuffer.Write | 17-tcp_stack/include/ring_buffer.h:81-99 | appends exactly the given bytes to the queue, across wrap-around |
| TcpReceive.TcpSock.SweepOnce | 17-tcp_stack/tcp_in.c:233-246 | one pass over the buffered segments delivers as specified, failing exactly when the ring lacks room |
| TcpStream.DrainInStep | 17-tcp_stack/tcp_in.c:232-249 | draining any buffered pieces of the stream extends what was delivered to a longer prefix of it, ending where rcv_nxt then stands |
| TcpReceive.TcpSock.DrainAll | 17-tcp_stack/tcp_in.c:232-249 | the loop terminates because each repetition removed an entry, and delivers all that the buffered segments allow |
| TcpReceive.TcpSock.Arrive | 17-tcp_stack/tcp_in.c:223-267 | an arrival is delivered with everything it unblocks, dropped or buffered; it fails exactly when what becomes deliverable does not fit |
| TcpReceive.TcpSock.Read | 17-tcp_stack/tcp_apps.c:124-127 | the application gets the oldest bytes, fewer than asked for only if there are no more |
| TcpStream.ArrivalInStep | 17-tcp_stack/tcp_in.c:223-267 | any piece of the stream, in any order, keeps read bytes plus queue equal to the stream up to rcv_nxt, which never moves back |
| TcpStream.EveryRunInStep | 17-tcp_stack/tcp_in.c:223-267 | in every run, however the stream is cut, bytes read followed by bytes waiting are the stream prefix of length rcv_nxt minus its start |
| TcpStream.ReadAdvances | 17-tcp_stack/tcp_apps.c:124-127 | after any run a read brings the application as far along the stream as it asked for, or to rcv_nxt if that comes first |
| TcpStream.DrainPieces | 17-tcp_stack/tcp_in.c:232-249 | with fixed boundaries draining stops at a boundary where no buffered segment starts, keeping all segments ahead |
| TcpStream.ArrivalAtGap | 17-tcp_stack/tcp_in.c:223-267 | after every arrival the receiver stands at the first segment that has not arrived, with all later arrivals buffered |
| TcpStream.OverlapsDependOnOrder | 17-tcp_stack/tcp_in.c:253-257 | with overlapping segments the amount delivered depends on the order of arrival |
| TcpStream.DrainCovers | 17-tcp_stack/tcp_in.c:232-249 | draining advances only over bytes that have arrived, keeps every segment ahead, and stops where none starts |
| TcpStream.WhenNewBytesAreLost | 17-tcp_stack/tcp_in.c:223-267 | in every run over any cutting of the stream all bytes below rcv_nxt have arrived, and the byte at rcv_nxt has not arrived exactly when no segment that arrived lies across rcv_nxt |
| TcpStream.OvertakenLosesBytes | 17-tcp_stack/tcp_in.c:233-266 | a segment buffered whole and then overtaken keeps a byte that is due and is not delivered |
| TcpStream.OnlyAheadBuffered | 17-tcp_stack/tcp_in.c:253-266 | in every run nothing is buffered but segments the receiver had not reached when they arrived |
| TcpStream.OvertakenStays | 17-tcp_stack/tcp_in.c:233-246 | a buffered segment whose start rcv_nxt has passed stays buffered in every run |
| TcpSend.AckCutsPrefix | 17-tcp_stack/tcp_apps.c:130-145 | an acknowledgement cuts a prefix off the queue and leaves a gap-free run ending at snd_nxt |
| TcpSend.UnackedMeaning | 17-tcp_stack/tcp_apps.c:136 | a packet leaves the queue exactly when it starts at or before the number acknowledged |
| TcpSend.WhenAckDropsUnacked | 17-tcp_stack/tcp_apps.c:136 | data not yet acknowledged is thrown away exactly when the acknowledged number lies inside the queue |
| TcpSend.SecondSegmentForgotten | 17-tcp_stack/tcp_apps.c:133-141 | two segments in flight and the first received: the acknowledgement removes both |
| TcpSend.BudgetKept | 17-tcp_stack/tcp_out.c:56-63 | window plus queued payload, in 16-bit arithmetic, is unchanged by sends, control packets and acknowledgements |
| TcpSend.QueueKept | 17-tcp_stack/tcp_out.c:94-102 | every operation keeps the queue gap-free and advances snd_nxt by what it sends |
| TcpSend.EveryRunKeepsQueue | 17-tcp_stack/tcp_out.c:45-64 | in every run of sends and arbitrary acknowledgements the queue is a gap-free run ending at snd_nxt and the budget is conserved |
| TcpSend.QueueIsSentUnacked | 17-tcp_stack/tcp_out.c:45-105 | in every run, numbers wrapping or not, the queue holds exactly the packets sent, each under the number due at the time, that no later acknowledgement has reached |
| TcpSend.SendSock.SendPacket | 17-tcp_stack/tcp_out.c:32-67 | the packet carries the old snd_nxt; queue, snd_nxt and window advance together |
| TcpSend.SendSock.SendControlPacket | 17-tcp_stack/tcp_out.c:74-105 | SYN and FIN take one sequence number and are queued, other control packets change nothing |
| TcpSend.SendSock.RemoveAckData | 17-tcp_stack/tcp_apps.c:130-145 | the loop removes what the acknowledgement covers and gives back its payload to the window |
| TcpTransfer.RunSound | 17-tcp_stack/tcp_in.c:223-267 | every write, delivery, read and acknowledgement keeps sender, network and receiver consistent |
| TcpTransfer.EveryTransferInOrder | 17-tcp_stack/tcp_apps.c:100-128 | end to end, bytes read are a prefix of bytes written and what is delivered is the longest gap-free prefix of what arrived |
| TcpTransfer.CompleteTransfer | 17-tcp_stack/tcp_in.c:223-252 | once every segment has arrived nothing is missing and rcv_nxt equals the sender's snd_nxt |
| TcpTransfer.StrandedSegment | 17-tcp_stack/tcp_apps.c:130-145 | a lost segment can leave the retransmission queue without ever having arrived |
| TcpTransfer.HonestAckStrands | 17-tcp_stack/tcp_apps.c:130-145 | in every reachable state with something missing, handling the receiver's own rcv_nxt takes the first missing segment out of the queue, and no continuation puts it back |
| StpBridge.PriorIsStrictTotalOrder | 06-stp/include/stp.h:11-15 | PRIOR is irreflexive, transitive and total |
| StpBridge.PriorIsLexicographic | 06-stp/include/stp.h:11-15 | the first of root, cost, switch and port in which two vectors differ decides |
| StpBridge.PickIsLeast | 06-stp/stp.c:160-188 | the selection finds the earliest least ALTERNATE port in PRIOR order, and none exactly when there is none |
| StpBridge.HandledCoherent | 06-stp/stp.c:142-234 | belief, root port and designated ports stay in agreement exactly when the switch is not a one-port switch learning something better on its root port |
| StpBridge.OnePortSwitchStaysBehind | 06-stp/stp.c:174-181 | a one-port switch that hears of a better root keeps the old one |
| StpBridge.ElectionIsBest | 06-stp/stp.c:160-197 | a switch with several ports comes to follow a best port among those it does not serve exactly when it had no root port or some other such port is as good as the root port, which is passed over |
| StpBridge.GoodNewsMakesSwitchRoot | 06-stp/stp.c:174-181 | a switch told of a better root by its only non-designated port declares itself root |
| StpBridge.AbandonsBetterRootPort | 06-stp/stp.c:167-197 | a switch two hops from the root moves to a port three hops away although its old root port is as good as before |
| StpBridge.Switch.SelectRootPort | 06-stp/stp.c:160-188 | both loops together find the earliest least candidate |
| StpBridge.Switch.RefreshPorts | 06-stp/stp.c:199-215 | designated ports take the new belief, and ALTERNATE ports the switch can serve more cheaply become designated |
| StpBridge.RefreshKeeps | 06-stp/stp.c:199-215 | afterwards designated ports hold what the switch announces, ALTERNATE ports are no dearer than the switch, and the root port is untouched |
| StpBridge.RefreshDecides | 06-stp/stp.c:199-215 | exactly the designated ports and those other than the root port that are dearer than the switch end up designated with its belief; the others are left alone |
| StpBridge.AnnouncementsMeaning | 06-stp/stp.c:96-104 | a config goes out on a port exactly if the port is designated and the switch is root or has a root port, and it carries the switch's belief |
| StpBridge.Switch.SendConfig | 06-stp/stp.c:69-104 | the loop sends exactly these announcements, in port order |
| StpBridge.Switch.HandleConfig | 06-stp/stp.c:142-234 | new state and messages for a config packet, whichever branch it takes; the hello timer is stopped exactly if a better config leaves the switch no longer root |
| StpNetwork.HandledTrue | 06-stp/stp.c:142-215 | a switch that hears a truth from its peer holds only pairs backed by walks |
| StpNetwork.AnnouncementTrue | 06-stp/stp.c:69-94 | what a switch announces reaches the peer backed by a walk from the sender |
| StpNetwork.InitTrue | 06-stp/stp.c:279-317 | the initial network satisfies the invariant |
| StpNetwork.StepTrue | 06-stp/stp.c:96-234 | every delivery, repeated or late, and every hello keeps every (root, cost) in the network backed by a walk of exactly that length |
| StpNetwork.HelloSends | 06-stp/stp.c:69-104 | a hello adds exactly the switch's belief through every designated port, and nothing on a silent switch |
| StpNetwork.DeliverSends | 06-stp/stp.c:222-233 | a delivery adds exactly the new belief through every designated port if the config is PRIOR, and otherwise the old belief through the port it came in on |
| StpNetwork.WorseConfigIsAnswered | 06-stp/stp.c:230-233 | a config that is not PRIOR is answered on its port with the switch's belief |
| StpNetwork.EveryRunIsSafe | 06-stp/stp.c:142-234 | in every run no switch names a root below the least id in reach nor a cost below the true distance |
| StpNetwork.EveryRunCoherent | 06-stp/stp.c:142-234 | in every run of every network each switch that does not have exactly one port keeps its belief at (own id, 0) or one more than its non-designated root port |
| StpNetwork.InitAllCoherent | 06-stp/stp.c:279-317 | switches start with belief, root port and ports in agreement |
| StpDeadEnd.FrozenForGood | 06-stp/stp.c:142-160 | a switch whose linked ports remember the best their peers could ever announce keeps belief, root port and port vectors in every continuation |
| StpDeadEnd.WrongRootForGood | 06-stp/stp.c:142-234 | from the start of the chain 1-4-9 some run makes switch 9 declare itself root, and no continuation changes that |
| WakeUp.SynchWait.EnterSleep | 16-tcp_stack/include/synch_wait.h:40-47 | on a live structure records that the caller sleeps, and it waits exactly if not yet notified |
| WakeUp.SynchWait.LeaveSleep | 16-tcp_stack/include/synch_wait.h:48-51 | clears the notification and the sleep flag together |
| WakeUp.SynchWait.WakeUp | 16-tcp_stack/include/synch_wait.h:57-72 | notifies once and signals exactly if somebody sleeps unnotified |
| WakeUp.SynchWait.WaitExit | 16-tcp_stack/include/synch_wait.h:26-37 | marks the structure dead and broadcasts exactly if somebody sleeps on a live one |
| WakeUp.StepKeepsInv | 16-tcp_stack/include/synch_wait.h:40-72 | every step of reader, writer, spurious wake-up or exit keeps locks, flags and data consistent |
| WakeUp.NoLostWakeUp | 16-tcp_stack/tcp_apps.c:125-140 | in every interleaving the reader is blocked with data only while the writer is between its write and the end of wake_up, and no byte is lost or reordered |
| WakeUp.BlockedReaderIsWoken | 16-tcp_stack/tcp_in.c:95-101 | such a writer can always move, and no run keeps the reader blocked through two of its steps |
| WakeUp.DataIsReadAtOnce | 16-tcp_stack/tcp_apps.c:125-140 | a read that finds data takes as many of the oldest bytes as asked for and as there are, whatever the others do meanwhile |
| WakeUp.EmptyBufferSleeps | 16-tcp_stack/tcp_apps.c:129-133 | a read that finds the buffer empty goes through sleep_on before it reads |
| WakeUp.EveryWakingHasACause | 16-tcp_stack/include/synch_wait.h:40-72 | in every run the reader comes out of sleep_on at most as often as wake_up or wait_exit were called or it woke spuriously |
| Nat.NatTable.GetPort | 10-nat/src/nat.c:44-53 | hands out the least port never handed out before, and PORT_MAX without marking it when there is none |
| Nat.HashOfBytes | 10-nat/src/include/hash.h:11-18 | an address goes to the bucket numbered by the exclusive or of its four bytes |
| Nat.OutKeepsRange | 10-nat/src/nat.c:54-64 | all mappings keep ports in range exactly until a packet needs a port with the whole range used |
| Nat.DoKeepsPorts | 10-nat/src/nat.c:67-172 | translation and sweeps keep in-range ports distinct and marked as handed out |
| Nat.EveryRunConsistent | 10-nat/src/nat.c:67-172 | in every run a port in range belongs to at most one live mapping |
| Nat.EveryRunInRange | 10-nat/src/nat.c:44-172 | in every run with at most PORT_MAX - PORT_MIN new flows all live mappings have ports in the range and no two the same |
| Nat.SweptMeaning | 10-nat/src/nat.c:158-170 | a sweep keeps exactly the mappings used within the last 60 seconds whose connection is not closed and acknowledged from both sides |
| Nat.MappedPortFindsOwner | 10-nat/src/nat.c:79-99 | a packet to a mapped port goes to the endpoint it belongs to and to no other |
| Nat.ReplyIsReversed | 10-nat/src/nat.c:67-172 | the payload is kept; after any traffic and any sweeps a reply becomes the exact reverse of the original packet exactly if no sweep came more than 60 seconds after the flow's last packet in either direction, and is dropped otherwise |
| Nat.EveryRunOneEach | 10-nat/src/nat.c:101-119 | in every run no bucket holds two mappings of one internal endpoint |
| Nat.ExhaustedPoolMisdelivers | 10-nat/src/nat.c:44-53 | with the pool used up two flows share a port and the second's replies go to the first |
| Nat.NthFlowGetsNthPort | 10-nat/src/nat.c:44-64 | in every run the n-th new flow gets port PORT_MIN + n, so the pool lasts for exactly PORT_MAX - PORT_MIN flows, timeouts or not |
| Nat.PoolNeverRefills | 10-nat/src/nat.c:163-168 | no operation gives a port back |
| Nat.NatTable.TranslateOut | 10-nat/src/nat.c:101-119 | finds or makes the mapping in the bucket of the destination and rewrites the source |
| Nat.NatTable.TranslateIn | 10-nat/src/nat.c:79-100 | finds the mapping in the bucket of the remote host and rewrites the destination, or drops |
| Nat.NatTable.TimeOut | 10-nat/src/nat.c:154-171 | sweeps all buckets in place, leaving the port pool alone |
| Lookup.CountBits | 09-lookup/src/prefixTree.cpp:303-310 | for prefixes of up to 32 bits: fewer bits than the prefix length are counted exactly when the prefix does not cover the address, whatever the undefined shift by -1 yields |
| Lookup.PrefixAgrees | 09-lookup/src/cvTree.cpp:56-63 | the bit-by-bit check decides whether the prefix covers the address |
| Lookup.MulSearch | 09-lookup/src/prefixTree.cpp:285-315 | the deepest node's entry if its prefix covers the address, otherwise the root's |
| Lookup.Count | 09-lookup/src/cvTree.cpp:71-77 | the rank of a slot among the inner ones |
| Lookup.RankIndex | 09-lookup/src/cvTree.cpp:18-37 | every slot's child or leaf sits in its vector at the position the rank gives |
| Lookup.ConstructCvTree | 09-lookup/src/cvTree.cpp:3-39 | builds the compressed form level by level and succeeds exactly on nodes with four children |
| Lookup.BuildsExactlyFull | 09-lookup/src/cvTree.cpp:15-17 | construction succeeds at every level exactly on full tries |
| Lookup.SameLeaf | 09-lookup/src/cvTree.cpp:47-57 | for every address the walks through trie and compressed form end at the same leaf |
| Lookup.CvSearch | 09-lookup/src/cvTree.cpp:47-69 | the leaf's entry if its prefix covers the address, otherwise a blank leaf |
| Lookup.CompressedSearchAgrees | 09-lookup/src/cvTree.cpp:47-69 | both searches agree on an address exactly when the root entry is blank or the leaf's prefix covers the address |
| Lookup.MissesDiffer | 09-lookup/src/cvTree.cpp:56-69 | a full trie and an address for which the trie answers with the root's entry and the compressed form with a blank leaf |
| LookupDigits.SlotIsDigit | 09-lookup/src/prefixTree.cpp:289-294 | the slot taken at level k is the k-th pair of bits of the address from the top |
| LookupDigits.DeepestByDigits | 09-lookup/src/prefixTree.cpp:285-294 | the walk ends at the node whose path is the longest prefix of the address, digit by digit |
| LookupDigits.BothFindTheLeaf | 09-lookup/src/cvTree.cpp:47-69 | in a full trie whose leaves hold prefixes spelled by their paths both searches return the entry of the leaf whose path is a prefix of the address, and it covers the address |
| LeafPush.PrepareCarrier | 09-lookup/src/prefixTree.cpp:368-387 | the carrier takes over a non-blank entry, and a copy is handed down exactly when a child is missing |
| LeafPush.MleafPush | 09-lookup/src/prefixTree.cpp:364-396 | in place: original nodes keep entries and children, empty slots of inner nodes hold the carrier, children of a node that lacks one are pushed with a copy, and what carrier and copies hold in the end is stated exactly |
| LeafPush.CurrentIsPushed | 09-lookup/src/prefixTree.cpp:364-396 | what can be reached from the root afterwards is the trie determined by the last contents of the shared carriers |
| LeafPushTries.FilledIsFull | 09-lookup/src/prefixTree.cpp:378-394 | a trie whose inner nodes have all empty slots filled with leaves is full |
| LeafPushTries.PushFills | 09-lookup/src/prefixTree.cpp:378-394 | pushing fills every empty slot of every inner node with a leaf and leaves the leaves there were untouched |
| LeafPushTries.InheritedIsFound | 09-lookup/src/prefixTree.cpp:289-294 | where slots hold the nearest non-blank entry above them, the walk of every address ends at the last non-blank entry on its path |
| LeafPushTries.WhenPushInherits | 09-lookup/src/prefixTree.cpp:368-394 | pushing gives every slot the entry it should inherit exactly when each carrier ends with the entry due to every slot it fills |
| LeafPushTries.OneInnerChildInherits | 09-lookup/src/prefixTree.cpp:368-394 | that is so for every trie in which no node has two inner children |
| LeafPushTries.SharedCarrierMisleads | 09-lookup/src/prefixTree.cpp:373-377 | a full root with two inner children: the slots below the first end with the entry of the second |
| LeafPush.LeafPushTrie | 09-lookup/src/prefixTree.cpp:364-396 | on a trie whose root has a child: the trie left is exactly the pushed one, every node has no child or four, every leaf keeps place and contents, and compression succeeds at every level |
| ArpQueue.AppendBalanced | 12-mospf/arpcache.c:44-82 | a packet handed over joins the end of the one request for its interface and address |
| ArpQueue.AnswerBalanced | 12-mospf/arpcache.c:112-133 | an answer moves packets from pending to sent in order, losing and inventing none |
| ArpQueue.AnswerFate | 12-mospf/arpcache.c:115-126 | an answer sends only packets waiting for its address, with its hardware address |
| ArpQueue.AnswerFlushesAll | 12-mospf/arpcache.c:114-132 | no request for the address is left exactly when there was at most one |
| ArpQueue.SecondInterfaceLeftWaiting | 12-mospf/arpcache.c:114-132 | two packets for one address on two interfaces, then the answer: the older request is left behind |
| ArpQueue.SweepBalanced | 12-mospf/arpcache.c:161-196 | a sweep moves packets from pending to unreachable in order, losing and inventing none |
| ArpQueue.SweepFate | 12-mospf/arpcache.c:166-185 | a sweep gives up only on due requests that have used up their retries |
| ArpQueue.EveryRunBalanced | 12-mospf/arpcache.c:44-196 | in every run, per interface and address, packets handed over are packets gone followed by packets pending, in order, with one request each |
| ArpQueue.UnansweredWaits | 12-mospf/arpcache.c:161-196 | through any run without an answer for its address a request waits with one more retry for each due sweep, up to five in all, and with every packet handed over for it, in order |
| ArpQueue.UnansweredIsGone | 12-mospf/arpcache.c:165-185 | after any such run the next due sweep removes the request and reports all its packets unreachable, those handed over meanwhile included |
| ArpQueue.EveryRunAsks | 12-mospf/arpcache.c:44-196 | in every run a key is asked for once for each packet that finds no request pending for it and once for each sweep that finds its request due and short of the limit |
| ArpQueue.WaitingIsAskedFor | 12-mospf/arpcache.c:161-196 | while a request waits its key is asked for once more at every due sweep and at no other time |
| ArpQueue.ArpCache.AppendPacket | 12-mospf/arpcache.c:44-82 | finds or makes the request and appends the packet, asking once for a new request |
| ArpQueue.ArpCache.Insert | 12-mospf/arpcache.c:112-133 | sends off the packets of the first request for the address and removes it |
| ArpQueue.ArpCache.Sweep | 12-mospf/arpcache.c:161-196 | leaves, retries or gives up each request in turn |
| Checksum.TwoFoldsSuffice | 17-tcp_stack/include/checksum.h:13-14 | two folds of any 32-bit value give its one's complement sum |
| Checksum.WrapBreaksSum | 17-tcp_stack/include/checksum.h:10-11 | a truncated sum has the right one's complement sum exactly when nothing was truncated |
| Checksum.ComputeChecksum | 17-tcp_stack/include/checksum.h:8-20 | the complement of the one's complement sum of what the 32-bit accumulator holds |
| Checksum.FilledInFoldsToOnes | 17-tcp_stack/include/checksum.h:8-20 | filling in the checksum makes the whole buffer fold to 0xFFFF |
| Checksum.RecheckGivesZero | 17-tcp_stack/include/checksum.h:8-20 | recomputing the checksum over a buffer with its checksum filled in gives 0, for every buffer and starting value, even where the 32-bit sum wraps |
| Checksum.HalvesOrWholes | 17-tcp_stack/include/tcp.h:82 | adding whole addresses or their 16-bit halves gives the same one's complement sum |
| Checksum.RightUnlessWrapped | 17-tcp_stack/include/tcp.h:74-88 | the TCP checksum equals the one of section 3.1 of RFC 793 exactly when the 32-bit sum does not overflow |
| Checksum.LargeAddressesGetItWrong | 17-tcp_stack/include/tcp.h:82-83 | two addresses that add up past 32 bits give a wrong checksum for every segment |
| Checksum.TcpChecksum | 17-tcp_stack/include/tcp.h:74-88 | leaves the header as found and is right exactly when the 32-bit sum does not overflow |

## Left out

- Raw sockets, poll loops, interface discovery, netlink parsing, Mininet scripts and logging: sending is an output of the model.
- Labs 03, 04, 05, 08, 11 and 15: easy loops, or earlier versions of what is modelled here; the MAC table of lab 05 has no useful property to keep.
- BuildGraph: does not model more than 14 database entries, because the source then writes past its arrays of MAX_NUM; nor reads past an array whose count was left too large, for which StoredInBounds gives the condition.
- Route installation, its removal when a database entry is dropped, and the distance sort whose inner loop tests the wrong variable.
- HandleLsu: a blocked operation is one whose precondition `!stuck` fails; that its thread waits for ever is not a state of the model.
- HandleHello: neighbour masks and addresses are 32-bit words; the wire layout and checksums of mOSPF packets are not modelled.
- TCP connection set-up and tear-down, retransmission timers, `tcp_sock_write` chunking and the accept queue; empty segments, which take another branch of `tcp_process`.
- EveryRunInStep: holds for streams whose sequence numbers do not wrap; the wrap itself is in the model (`SeqEnd`, `SentData`).
- TcpSock: waiting in `tcp_sock_read` is modelled for lab 16 only, since in lab 17 the drain loop writes after its `wake_up`.
- HandledTrue: path costs are unbounded integers, so the wrap-around of a 32-bit cost is not modelled; switch ids are distinct, as they are made from MAC addresses; hello timers may fire at any time.
- Convergence of the spanning tree, because reselection skips the current root port.
- WakeUp: threads, mutexes and the condition variable are a state machine over values, since a class cannot express blocking; one reader and one writer.
- TranslateOut: the route lookup that yields the external address and the direction test are parameters; header checksums are covered by the checksum model.
- MulSearch: the result of a shift by -1, undefined in C++, is a parameter, on which the outcome does not depend; construction of the trie by `Insert` and the one-bit trie are not modelled.
- The table of resolved addresses in the ARP cache, whose slot choice tests the wrong condition.
- ComputeChecksum: odd lengths are not modelled; words are taken in the byte order the machine loads them.
- malloc and free, list pointers, byte order conversions and header offsets.
