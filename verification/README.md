# A verified model of the OpenFlow reference switch

This project models the stateful core of the OpenFlow switch in Dafny and proves what it promises:
the spanning tree protocol of a bridge and of a whole network, the flow tables of the datapath with
their emergency switchover, the action interpreter, DHCP messages, the reliable controller connection,
and three index structures. `dafny verify dfyconfig.toml` checks everything.

Each component has the same shape. Datatypes and functions say what one call does, branch by branch;
lemmas prove what every call keeps and what follows for whole runs; where the C code updates structures
in place, a class does the same and every method is proved against those functions.

| component | specification and theorems | objects |
|---|---|---|
| spanning tree, one bridge (`lib/stp.c`) | `StpModel`, `StpSelection`, `StpInvariants`, `StpRuns`, `StpAgeing`, `StpTimes`, `StpSending`, `StpDelay`, `StpPunctual`, `StpFollowing`, `StpDuties`, `StpTicks`, `StpHold`, `StpAnswers`, `StpManagement`, `StpReports` | `StpBridge` |
| spanning tree, a network of bridges | `StpNetwork`, `StpSettling`, `StpReachable`, `StpHearing`, `StpBroadcast`, `StpRounds`, `StpWalks`, `StpConvergence` | |
| flow keys and tables (`datapath/flow.c`, `table-linear.c`, `table-hash.c`, `chain.c`) | `FlowKey`, `Flow`, `LinearTable`, `HashTable`, `FlowChain`, `FlowEffects`, `FlowInsertion`, `FlowOverlap` | `TableObjects`, `HashObjects` |
| flow-mods and emergency protection (`datapath/forward.c`, `private-msg.c`) | `FlowProtection`, `FlowRestore`, `FlowSwitchover`, `FlowStale`, `FlowSteps`, `FlowRescue` | |
| actions (`datapath/dp_act.c`) | `Actions`, `ActionWire` | |
| DHCP options (`lib/dhcp.c`) | `DhcpCodec`, `DhcpRoom`, `DhcpWire` | `DhcpArena` |
| reliable connection (`lib/rconn.c`, `lib/queue.c`) | `Rconn`, `RconnAccounting`, `RconnTiming`, `RconnProbing`, `RconnHearing` | `RconnObject`, `PacketQueue` |
| resizing hash map (`lib/hmap.c`, `lib/hmap.h`) | `Hmap`, `HmapBits` | `HmapObject` |
| MAC learning (`lib/mac-learning.c`) | `MacCache`, `MacTable` | `MacObject` |
| CRC (`datapath/crc32.c`) | `Crc32` | `Crc32` |

`Prelude` and `BitWords` hold shared definitions.

## Main results

- Spanning tree, every run of one bridge: loop guard, root port, timers (`RunInvariant`), forwarding only
  from learning and only inside a tick (`ForwardingOnlyFromLearning`), stale information always ages out
  (`StaleInformationAgesOut`), vector dominance (`RunDominated`), nothing left to reselect (`RunSettled`),
  consistent times (`RunConsistent`).
- Spanning tree, timing in every run: no port forwards before it has listened and learned for the forward
  delay in force, and each goes on exactly when its timer reaches it (`NoneForwardsEarly`, `DelayIsExact`);
  no port sends more than one BPDU a second (`BpdusAreRare`); no change of state goes unreported
  (`NoChangeGoesUnreported`); the root, and no other bridge, sends hellos and uses its own times, unless one
  of two exactly described calls has upset this (`RunIsDutiful`).
- Spanning tree, one call: which times a BPDU puts in force and how it is passed on (`BpduSetsTimes`,
  `BpduIsPassedOn`), what a tick sends (`QuietTickIsExact`, `HeldBpduLeaves`), how inferior BPDUs are answered
  and a new root is announced (`InferiorBpduIsAnswered`, `NewRootAnnounces`), and what every setting does
  (`StpManagement`).
- Spanning tree, any stable network: the root is the smallest bridge id, path costs are exact shortest
  distances, frames never pass a bridge twice (`RootIsSmallestId`, `RootPathReachesRoot`, `NoShorterWalk`,
  `NoForwardingLoop`); and the same of networks of bridges that have come about by running
  (`RunningRootIsSmallestId`, `RunningBridgesDoNotLoop`).
- Spanning tree, any connected network of bridges that are new or have aged out what they knew: after as many
  rounds of hellos as there are bridges, in any order and with any calls in between that leave the vectors
  alone, the network is stable, with the smallest id for root and shortest distances, and no frame loops
  through ports in state FORWARDING (`ClaimsApproach`, `AgedIsUnaware`, `NewNetworkConverges`).
- Flow tables, every run of flow-mods, timeouts and switchovers, for every pair of hash functions: lookup
  finds a matching flow of maximal priority or none exists (`RunLookupIsBest`); the exact-key fast paths of
  the hash table equal full scans; modification, deletion and timeout act on all tables as on one set
  (`ModifyIsExact`, `DeleteIsExact`, `TimeoutIsExact`); an accepted flow replaces the duplicate of the table
  that accepts it, and copies in later tables never answer in its place (`InsertIsExact`, `LookupIsFresh`);
  the switchover leaves exactly one permanent copy of each emergency flow (`ProtectionIsExact`), so that an
  accepted emergency flow handles its packets after it (`EmergencyFlowTakesOver`). Every command does exactly
  what it says to the table it names (`AddIsExact`, `ModIsExact`, `DelIsExact`), keys match exactly the packets
  that the message means (`ExtractMeans`), and flows conflict exactly if some packet fits both
  (`ConflictMeansAmbiguous`).
- Actions: deferred output emits what an immediate interpreter emits (`ExecuteActions`); decoding and the wire
  form are inverse to each other (`DecodeRendered`, `RenderDecoded`), and the verdict on any bytes is that of
  their first fault (`FirstFaultDecides`).
- DHCP: option round trips for values of any length, and an arena that holds, under every growth, move and
  compaction, exactly what was put into it (`Put`); receiving a message reads live memory only, and then
  yields its options, exactly under a condition on the bytes received (`ReceiveOptions`). What any bytes mean
  and which bytes are sent is stated item by item (`ParseMeans`, `ReceiveMeans`, `AssembleMeans`).
- Connection: nothing is lost, duplicated or reordered and every counter is exact, in every run
  (`NothingLost`); the run loop ends while the clock stands (`Run`); the backoff after any sequence of
  failures of any kind (`BackoffDoubles`, `BackoffAfterConnection`); when a silent peer is dropped, whatever
  is queued, and whether it was probed before (`StaysUpExactly`, `SilentPeerIsDropped`, `ProbeHasLeft`); what
  is queued in any run, to the packet, and when probes are among it (`QueuedExactly`, `SendWithLimitIsExact`,
  `ProbedExactlyWhenSilent`).
- MAC table: an exact least-recently-learned cache, for every hash function (`LookupIsLastLearned`,
  `RunIsCacheRun`). Hash map: resizing keeps the nodes and iteration meets each once. CRC: the table-driven
  loop is polynomial division (`ChecksumIsRemainder`).

Properties that one might expect and the code does not have are stated with the exact condition under which
they hold and an input on which they fail:

| expected | exact condition | fails |
|---|---|---|
| a second configuration update changes nothing | `UpdateIdempotent` | `ZeroCostRootIsLost` |
| recorded vectors stay below the bridge's own | `PriorityKeepsDominance` | `ConfusionIsReachable` |
| every call ends with nothing to reselect | `PrioritySettles` | `PriorityUnsettles` |
| forward delays cover the max age | `RunConsistent` | `DelaysTooShort` |
| only the root sends hellos, by its own times | `StepIsDutiful` | `LargerIdUpsets`, `OwnBpduUpsets` |
| a new flow leaves no duplicate of itself | `DuplicateStays` | `ReplacedFlowReturns`, `SomeFlowReturns` |
| an OpenFlow peer's message comes back | `ReceiveOptions`, `MessageRoundTrip` | `SampleReceivable` |
| a bare list of options comes back | `BareRoundTrip` | `LeadingEmptyIsLost` |
| disconnecting empties the queue | `DisconnectEmptiesQueue` | `QueueOutlivesConnection` |
| every failure doubles the backoff | `BackoffDoubles` | `LateRefusalResets` |
| a peer is probed before it is dropped | `ProbeHasLeft` | `DroppedUnprobed` |
| the reply to a probe revives the connection | `ReplyRevives` | `GenuineReplyIgnored` |

Where code and comments differ the model follows the code: the MAC table masks hash values with
`MAC_HASH_BITS` rather than with a mask of that many bits, so only four of its buckets are ever used
(`MacTable.Masked`), and `rconn_disconnect` keeps the transmit queue although `n_queued` is documented to
drop on disconnection.

## Model

| member | source | states |
|---|---|---|
| StpSelection.RootSelectionIsUniqueMinimum | openflow/lib/stp.c:834-877 | the selected root port is the one candidate that beats every other eligible port: enabled, not designated, recorded root below the bridge id; both directions |
| StpSelection.DesignatedSelectionPointwise | openflow/lib/stp.c:879-906 | the loop makes exactly the ports designated that should be and changes nothing else |
| StpSelection.UpdateDominates | openflow/lib/stp.c:827-832 | after a configuration update every enabled port's recorded vector is at most the bridge's own vector for it, equal exactly on designated ports |
| StpSelection.UpdateIdempotent | openflow/lib/stp.c:827-906 | a second update changes nothing if and only if no zero-cost root port defeats itself |
| StpSelection.PositiveCostsNotSelfDefeating | openflow/lib/stp.c:674-683 | with path costs of at least one the exception cannot occur |
| StpSelection.StateSelectionPointwise | openflow/lib/stp.c:908-962 | port state selection acts port by port: root and designated ports open, all others block, change flags stay tracked |
| StpInvariants.ReselectRestores | openflow/lib/stp.c:827-927 | update and state selection restore every invariant from a weakly consistent state and move no port towards forwarding |
| StpRuns.AcceptedCore | openflow/lib/stp.c:991-1027 | an accepted BPDU acts on the tree by recording and reselecting only |
| StpRuns.ReceivedConfigKeeps | openflow/lib/stp.c:991-1027 | any configuration BPDU, accepted or not, keeps invariants and dominance and moves no port towards forwarding |
| StpRuns.SetBridgeIdKeeps | openflow/lib/stp.c:322-358 | the same for a change of bridge id |
| StpRuns.EnablePortKeeps | openflow/lib/stp.c:641-649 | the same for enabling a port |
| StpRuns.DisablePortKeeps | openflow/lib/stp.c:620-639 | the same for disabling a port |
| StpRuns.SetPathCostKeeps | openflow/lib/stp.c:671-683 | the same for a change of path cost |
| StpRuns.SetPriorityKeeps | openflow/lib/stp.c:651-669 | a change of priority keeps the invariants and moves no port towards forwarding |
| StpRuns.AgePortKeeps | openflow/lib/stp.c:1047-1064 | expiry of one message-age timer keeps the invariants and dominance |
| StpRuns.ForwardDelayMoves | openflow/lib/stp.c:1079-1093 | the port's state stays, or moves from listening to learning or from learning to forwarding; its timer runs exactly in those two states, and nothing else but its change flag and outbox differs; how long it takes is the subject of `NoneForwardsEarly` and `DelayIsExact` |
| StpRuns.TickKeeps | openflow/lib/stp.c:280-320 | a tick keeps the invariants and dominance; every port forwarding after it was forwarding or learning before |
| StpRuns.StepKeeps | openflow/lib/stp.c:280-710 | every public call keeps the invariants; only ticks move ports towards forwarding; only priority changes can break dominance |
| StpRuns.RunInvariant | openflow/lib/stp.c:908-962 | after any sequence of public calls: enabled ports that are neither root nor designated block, the root port is absent exactly when the bridge takes itself for root and otherwise enabled, the forward-delay timer runs exactly in listening and learning, message-age timers run on all enabled non-designated ports |
| StpRuns.ForwardingOnlyFromLearning | openflow/lib/stp.c:1079-1093 | in any run a port turns forwarding only inside a tick and only from learning |
| StpRuns.TakeChangedReportsFirst | openflow/lib/stp.c:476-496 | changed ports are reported lowest first and none is missed |
| StpAgeing.PriorityKeepsDominance | openflow/lib/stp.c:651-669 | a priority change keeps dominance if and only if the port is not an enabled, undesignated one whose record names this bridge and the new port id with a cost other than the bridge's own |
| StpAgeing.RunDominated | openflow/lib/stp.c:827-906 | dominance holds after every run without such a priority change |
| StpAgeing.ConfusionIsReachable | openflow/lib/stp.c:651-669 | on every bridge a concrete run reaches the exception |
| StpAgeing.StaleInformationAgesOut | openflow/lib/stp.c:1047-1064 | in every reachable state one tick of at least both maximum ages leaves the bridge root and all enabled ports designated |
| StpNetwork.SettledMeans | openflow/lib/stp.c:827-906 | a bridge is at a fixpoint of the update if and only if its root, cost, root port and designated ports are what its vectors say |
| StpNetwork.DesignatedIsUnique | openflow/lib/stp.c:879-906 | in a stable network exactly one port of a segment believes that it is designated |
| StpNetwork.SegmentAgrees | openflow/lib/stp.c:712-755 | bridges on a segment agree on the root, and the designated one is closest |
| StpNetwork.RootPortDescends | openflow/lib/stp.c:853-877 | following a root port lowers the root path cost by exactly the cost of the port |
| StpNetwork.RootPathReachesRoot | openflow/lib/stp.c:853-877 | the path of root ports ends at the root at total cost `rootPathCost` |
| StpNetwork.RootIsSmallestId | openflow/lib/stp.c:834-877 | on a connected stable network every bridge takes the smallest bridge id for the root |
| StpNetwork.NoShorterWalk | openflow/lib/stp.c:853-877 | no walk to a root is shorter than the root path cost |
| StpNetwork.UnblockedIsActive | openflow/lib/stp.c:908-927 | by the loop guard only root and designated ports relay |
| StpNetwork.NoForwardingLoop | openflow/lib/stp.c:908-927 | in a stable network a frame never passes the same bridge twice |
| StpNetwork.NoReturnThroughRootPort | openflow/lib/stp.c:908-927 | a frame that left by the root port does not return through it |
| StpNetwork.RepeatedBpdu | openflow/lib/stp.c:757-782 | hearing the recorded vector again restarts its timer and changes nothing else |
| StpNetwork.HelloKeepsStable | openflow/lib/stp.c:712-755 | a hello of the designated port is accepted by the others and leaves the network stable |
| StpNetwork.AcceptedBpduSettles | openflow/lib/stp.c:991-1027 | with positive costs a bridge has nothing left to reselect after an accepted BPDU |
| StpNetwork.TwoBridgesConverge | openflow/lib/stp.c:991-1027 | two fresh bridges on a segment are stable and connected after one hello |
| StpSettling.RunSettled | openflow/lib/stp.c:827-962 | after any run of public calls with positive path costs, in which no priority change was unsettling, the invariants hold and a further update would change nothing |
| StpSettling.PrioritySettles | openflow/lib/stp.c:651-669 | a priority change leaves nothing to reselect if and only if it is not unsettling in the state before it. Unsettling, for an enabled undesignated port that gets another id: its record names this bridge and the new id is not above the recorded one, and the port is the root port, or the ids are equal and the recorded cost is not the root path cost; otherwise the new id decides a tie for the root port another way |
| StpSettling.PriorityUnsettles | openflow/lib/stp.c:651-669 | a run on every bridge after which a priority change leaves another root port to be selected |
| StpSettling.ZeroCostRootIsLost | openflow/lib/stp.c:879-896 | a run on every bridge, with a path cost of zero, after which a call about a disabled port takes the root port away |
| StpReachable.ConvergedIsStable | openflow/lib/stp.c:827-906 | running bridges whose ports have heard what their segments' designated ports send form a stable network |
| StpReachable.RunningRootIsSmallestId | openflow/lib/stp.c:853-877 | on a connected network of running bridges every bridge takes the smallest id for root, at the cost of a walk to it that no other walk undercuts |
| StpReachable.StableIsLoopFree | openflow/lib/stp.c:908-962 | the loop guard of every bridge makes a stable network free of loops through ports in state FORWARDING |
| StpReachable.RunningBridgesDoNotLoop | openflow/lib/stp.c:908-962 | a frame relayed through ports in state FORWARDING of running bridges never passes the same bridge twice |
| StpHearing.Hears | openflow/lib/stp.c:991-1027 | hearing a BPDU never worsens the bridge's claim about the root nor a record on a port, leaves the port with information at least as good, and changes a record only to what was heard or to the bridge's own vector |
| StpHearing.HearsBetter | openflow/lib/stp.c:977-1027 | while the claim stays, other records stay, and a vector better than the port's own that is no worse than the record is recorded |
| StpBroadcast.HeardIsHonest | openflow/lib/stp.c:991-1027 | hearing a neighbour keeps every bridge settled, every claim grounded in a walk to the claimed root of no greater cost, and every record the past vector of a port on the same segment |
| StpBroadcast.SpreadKeeps | openflow/lib/stp.c:991-1027 | the same when a hello reaches all other ports of its segment, one after the other |
| StpRounds.ApplyKeeps | openflow/lib/stp.c:712-811 | in addition what one port of a segment has recorded from another, all ports of the segment have heard |
| StpRounds.ClaimsApproach | openflow/lib/stp.c:834-877 | after k rounds of hellos the claim of a bridge is as good as every walk of at most k hops to any bridge |
| StpWalks.ShortWalk | openflow/lib/stp.c:834-877 | for every walk there is one with fewer hops than bridges that costs no more |
| StpConvergence.RoundsConverge | openflow/lib/stp.c:827-962 | from honest bridges, after at least as many rounds as bridges the network is stable, no frame loops through ports in state FORWARDING, and claims are exact |
| StpConvergence.UnawareNetworkConverges | openflow/lib/stp.c:827-962 | the same from any bridges that know of no other bridge |
| StpConvergence.AgedIsUnaware | openflow/lib/stp.c:1047-1064 | after any orderly run, a tick of at least both maximum ages leaves a consistent bridge that knows of no other |
| StpConvergence.NewNetworkConverges | openflow/lib/stp.c:226-270 | the same of bridges that are new, with any ports enabled at any positive costs, or whose last call was such a long tick: afterwards each bridge claims the smallest id and the cost of its shortest walk to it |
| StpTimes.RunConsistent | openflow/lib/stp.c:360-392 | in every run the times are in range, max age is at least twice the hello time plus a second, and twice the forward delay less a second is at least max age if and only if a long enough delay was asked for; else it lacks at most two ticks |
| StpTimes.DelaysTooShort | openflow/lib/stp.c:1199-1217 | a max age of 6007 ms with the default forward delay breaks that relation by one tick, 6047 ms by two |
| StpSending.GenerationSends | openflow/lib/stp.c:712-811 | the hello loop logs the hellos of the state before it, restarts the hold timer where it sent, and leaves a pending BPDU on ports that are held |
| StpSending.HellosAreExact | openflow/lib/stp.c:801-811 | the hellos: in port order, one for each enabled designated port that is not held, with the bridge's own vector |
| StpSending.HelloContents | openflow/lib/stp.c:712-755 | every hello carries root, cost, bridge and port, the age of the information plus one hop, the three times in force and both flags; none is sent at or beyond its maximum age |
| StpDelay.NoneForwardsEarly | openflow/lib/stp.c:1079-1093 | in every run a port that learns has listened, and one that forwards has listened and learned, for at least the forward delay in force when it went on, counted in ticks since it last blocked |
| StpDelay.DelayInAnyRun | openflow/lib/stp.c:306-318 | one tick after any run: a port that is neither blocked nor opened anew meanwhile leaves listening or learning if and only if its timer reaches the forward delay in force |
| StpPunctual.DelayIsExact | openflow/lib/stp.c:306-318 | after an orderly run no tick blocks a port, and the same holds without exception; forwarding ports go on forwarding |
| StpPunctual.TimerShowsClock | openflow/lib/stp.c:1079-1093 | in every orderly run the timer shows exactly the ticks that the port has spent in its state |
| StpFollowing.BpduSetsTimes | openflow/lib/stp.c:784-793 | the times in force and the topology change flag after a BPDU are those it carries if it is accepted on what is then the root port; otherwise the times are those from before |
| StpFollowing.BpduIsPassedOn | openflow/lib/stp.c:991-1027 | what is sent on accepting a BPDU: notifications, then, if it came in on the root port, exactly the hellos of the designated ports that are not held, each with the received times, flag and age plus one |
| StpDuties.StepIsDutiful | openflow/lib/stp.c:991-1027 | a call leaves it so that the root runs the hello timer, uses its own times and announces changes exactly while the change timer runs, and other bridges do none of this and repeat notifications, if and only if it is neither a BPDU in the name of the receiving port that takes away the only candidate for root port, nor a larger id for a root with an undesignated port |
| StpDuties.RunIsDutiful | openflow/lib/stp.c:280-711 | so it is after every orderly run without such a call |
| StpDuties.LargerIdUpsets | openflow/lib/stp.c:352-358 | a run with such a change of id: a root with two ports on one segment gets a larger id |
| StpDuties.OwnBpduUpsets | openflow/lib/stp.c:991-1027 | a run with such a BPDU |
| StpTicks.QuietTickIsExact | openflow/lib/stp.c:280-320 | a tick in which no information expires sends hellos, sends a notification and ends a topology change exactly when each is due, and ages every record |
| StpTicks.OldInformationIsDiscarded | openflow/lib/stp.c:1047-1064 | the first port whose information is too old becomes designated in that tick |
| StpHold.BpdusAreRare | openflow/lib/stp.c:712-755 | in every run a port has sent at most one configuration BPDU for each second that has passed and each time it was enabled |
| StpAnswers.InferiorBpduIsAnswered | openflow/lib/stp.c:991-1027 | a BPDU that is not accepted changes nothing but the outbox and log of a designated port, which answers with its own vector at once, or marks it pending while it is held |
| StpAnswers.HeldBpduLeaves | openflow/lib/stp.c:1109-1115 | a pending BPDU leaves in the tick that ends the second of holding, with the own vector, if no information expires in that tick and there is something to announce |
| StpAnswers.NewRootAnnounces | openflow/lib/stp.c:1131-1141 | a bridge that becomes root because a port is disabled or its id changes announces itself on every designated port, at once or pending where held |
| StpManagement.VectorsAreLexicographic | openflow/lib/stp.c:757-771 | priority vectors compare as the lists of root, cost, bridge and port |
| StpManagement.OffersAreLexicographic | openflow/lib/stp.c:834-851 | ports compare for root selection as the lists of root, cost to it through the port, bridge, its port and the own port id |
| StpManagement.RootPortOffersLeast | openflow/lib/stp.c:853-877 | on a bridge with nothing to reselect the root port is least among the candidates in that order |
| StpManagement.BpduIsAccepted | openflow/lib/stp.c:757-771 | a BPDU is accepted if and only if the port is enabled, the age below its maximum, and root, cost and bridge are smaller than those recorded, or equal and not from a larger port of the bridge itself |
| StpManagement.EnableTakesEffect | openflow/lib/stp.c:641-649 | a disabled port that is enabled listens from now on as a designated port with the own vector; no other port is enabled or disabled |
| StpManagement.DisableTakesEffect | openflow/lib/stp.c:620-639 | the port is disabled and not the root port; no other port is enabled or disabled |
| StpManagement.CostTakesEffect | openflow/lib/stp.c:671-683 | the port, and no other, has the new path cost |
| StpManagement.PriorityTakesEffect | openflow/lib/stp.c:651-669 | the id of the port, and of no other, has the new high byte and the old low byte |
| StpManagement.ChangeDetectionTakesEffect | openflow/lib/stp.c:698-710 | change detection of the port, and of no other, is switched |
| StpManagement.IdTakesEffect | openflow/lib/stp.c:344-358 | the address and the priority are replaced separately |
| StpManagement.SpeedCosts | openflow/lib/stp.c:685-696 | the costs of IEEE 802.1D for the usual speeds; faster is never dearer |
| StpManagement.TimesTakeEffect | openflow/lib/stp.c:1199-1217 | each requested time is used as nearly as its range, which depends on the others, allows, and by a root at once |
| StpManagement.TcnIsAcknowledged | openflow/lib/stp.c:1029-1038 | a notification on a designated port starts the topology change or is passed on by the root port, and is acknowledged at once or, if the port is held or has nothing valid to send, in the next BPDU |
| StpManagement.TcnIsIgnored | openflow/lib/stp.c:1029-1038 | on any other port it has no effect |
| StpReports.ChangeLeavesMark | openflow/lib/stp.c:952-962 | whatever call changes the state of a port leaves it marked until it is reported |
| StpReports.NoChangeGoesUnreported | openflow/lib/stp.c:476-496 | in every run a port that is not marked is in the state that was last reported |
| StpReports.ChangeIsNoted | openflow/lib/stp.c:929-950 | a port with change detection that stops learning or forwarding, or starts forwarding on a bridge that is designated somewhere, makes the bridge note a topology change |
| StpBridge.Stp.constructor | openflow/lib/stp.c:226-270 | a new bridge is the specified initial state |
| StpBridge.Stp.TransmitConfig | openflow/lib/stp.c:712-755 | the in-place call is the specified step, including the hold timer and the pending flag |
| StpBridge.Stp.TransmitTcn | openflow/lib/stp.c:813-825 | the new state is `StpModel.TransmitTcn` of the old one: a notification leaves by the root port |
| StpBridge.Stp.ConfigGeneration | openflow/lib/stp.c:801-811 | the new state is `StpModel.ConfigGeneration` of the old one, so `GenerationSends` and `HellosAreExact` say what is sent |
| StpBridge.Stp.RootSelection | openflow/lib/stp.c:853-877 | the loop computes the specified selection |
| StpBridge.Stp.DesignatedSelection | openflow/lib/stp.c:879-896 | the loop computes the specified selection |
| StpBridge.Stp.BecomeDesignated | openflow/lib/stp.c:898-906 | the port records the bridge's own vector |
| StpBridge.Stp.ConfigurationUpdate | openflow/lib/stp.c:827-832 | both selections in sequence |
| StpBridge.Stp.SetPortState | openflow/lib/stp.c:952-962 | state, change flag and the lowest changed port are kept in step |
| StpBridge.Stp.MakeForwarding | openflow/lib/stp.c:929-936 | a blocked port starts listening |
| StpBridge.Stp.MakeBlocking | openflow/lib/stp.c:938-950 | a port that leaves forwarding or learning reports a topology change |
| StpBridge.Stp.StateSelection | openflow/lib/stp.c:908-927 | the loop computes the specified selection |
| StpBridge.Stp.TopologyChangeDetection | openflow/lib/stp.c:964-975 | the new state is `StpModel.TopologyChangeDetection` of the old one, for the root and for other bridges |
| StpBridge.Stp.BecomeRootBridge | openflow/lib/stp.c:1131-1141 | the new state is `StpModel.BecomeRootBridge` of the old one: own times, restarted timers and a hello |
| StpBridge.Stp.ReceivedConfig | openflow/lib/stp.c:991-1027 | the new state is `StpModel.ReceivedConfig` of the old one in every branch of reception, so `ReceivedConfigKeeps`, `BpduIsAccepted`, `BpduSetsTimes` and `BpduIsPassedOn` apply |
| StpBridge.Stp.ReceivedTcn | openflow/lib/stp.c:1029-1038 | the new state is `StpModel.ReceivedTcn` of the old one: only a designated port acknowledges and reports the change |
| StpBridge.Stp.MessageAgeExpiry | openflow/lib/stp.c:1047-1064 | the new state is `StpModel.MessageAgeExpiry` of the old one, the step that `AgePortKeeps` and `StaleInformationAgesOut` are about |
| StpBridge.Stp.ForwardDelayExpiry | openflow/lib/stp.c:1079-1093 | the new state is `StpModel.ForwardDelayExpiry` of the old one, the step that `ForwardDelayMoves` is about |
| StpBridge.Stp.IsDesignatedForSomePort | openflow/lib/stp.c:1066-1077 | the search finds a port designated by this bridge if there is one |
| StpBridge.Stp.Tick | openflow/lib/stp.c:280-320 | the new state is `StpModel.Tick` of the old one: all timers in the order of the code, over all ports; `TickKeeps`, `DelayIsExact` and `QuietTickIsExact` say what that does |
| StpBridge.Stp.SetBridgeId | openflow/lib/stp.c:322-342 | the new state is `StpModel.SetBridgeId` of the old one, so `SetBridgeIdKeeps` applies |
| StpBridge.Stp.EnablePort | openflow/lib/stp.c:641-649 | the new state is `StpModel.EnablePort` of the old one, so `EnablePortKeeps` applies |
| StpBridge.Stp.DisablePort | openflow/lib/stp.c:620-639 | the new state is `StpModel.DisablePort` of the old one, so `DisablePortKeeps` applies |
| StpBridge.Stp.SetPriority | openflow/lib/stp.c:651-669 | the new state is `StpModel.SetPriority` of the old one, so `PriorityKeepsDominance` applies |
| StpBridge.Stp.SetPathCost | openflow/lib/stp.c:671-683 | the new state is `StpModel.SetPathCost` of the old one, so `SetPathCostKeeps` applies |
| StpBridge.Stp.GetChangedPort | openflow/lib/stp.c:476-496 | returns the first changed port, clears its flag and moves the mark |
| StpBridge.Stp.UpdateBridgeTimers | openflow/lib/stp.c:1199-1217 | the new state is `StpModel.UpdateBridgeTimers` of the old one, whose relations `RunConsistent` states |
| FlowKey.ExtractFillIdentity | openflow/datapath/flow.c:104-172 | writing a normalised key to a match and extracting it again is the identity |
| FlowKey.SameUnderMaskWord | openflow/datapath/flow.c:28-44 | comparing addresses under a mask is equality of the bits the mask keeps |
| FlowKey.MatchesByMaskWords | openflow/datapath/flow.c:26-66 | both matching predicates are the masked comparisons of the code, under the mask word of the second key or the conjunction of both; `MatchesFieldByField` says what they mean |
| FlowKey.MatchesFieldByField | openflow/datapath/flow.c:26-66 | a key matches another if and only if it equals that key with every field that the other, or for two wildcarded keys either, ignores overwritten by its own, all ten flags and both prefixes one by one |
| FlowKey.ExactMatch | openflow/datapath/flow.c:28-65 | without wildcards matching is equality of the fields |
| FlowKey.SameWildcardsEquivalence | openflow/datapath/flow.c:58-65 | among keys with equal wildcards matching is an equivalence relation |
| FlowKey.AllKeyMatches | openflow/datapath/private-msg.c:48-56 | the key that flushes the tables matches every flow |
| LinearTable.LookupIsBest | openflow/datapath/table-linear.c:25-35 | the first match is one of highest priority; nothing is found only if nothing matches |
| LinearTable.ReplacesAtMostOne | openflow/datapath/table-linear.c:37-73 | an inserted entry duplicates at most one other |
| LinearTable.InsertKeeps | openflow/datapath/table-linear.c:37-73 | insertion keeps order, uniqueness, equal lists and the count within capacity; it replaces exactly the duplicate and is refused exactly when the table is full and holds none |
| LinearTable.ModifyKeeps | openflow/datapath/table-linear.c:75-91 | modification keeps all invariants |
| LinearTable.RemoveKeeps | openflow/datapath/table-linear.c:108-153 | deletion and timeout keep all invariants, including the count |
| HashTable.InsertKeeps | openflow/datapath/table-hash.c:46-71 | every flow stays in the bucket of its key and `nFlows` counts the occupied buckets |
| HashTable.LookupFindsMatch | openflow/datapath/table-hash.c:39-44 | a packet matches a stored flow if and only if lookup returns that flow |
| HashTable.FastModify | openflow/datapath/table-hash.c:73-102 | looking only at the hashed bucket modifies and counts what a full scan would |
| HashTable.FastConflict | openflow/datapath/table-hash.c:104-130 | the fast conflict test equals the scan |
| HashTable.FastDelete | openflow/datapath/table-hash.c:132-171 | fast deletion removes and counts what a full scan would |
| HashTable.FastIterate | openflow/datapath/table-hash.c:208-247 | iteration by an exact key visits what a full scan would |
| FlowChain.LookupIsBest | openflow/datapath/chain.c:69-99 | lookup returns none only if no working flow matches, otherwise a matching flow of maximal priority over all tables |
| FlowChain.InsertKeeps | openflow/datapath/chain.c:101-125 | insertion into the first accepting table, or into the emergency list, keeps the invariant of the chain; what it stores is the subject of `InsertIsExact` and `EmergencyInsertIsExact` |
| FlowChain.ModifyKeeps | openflow/datapath/chain.c:127-154 | so does modification |
| FlowChain.DeleteKeeps | openflow/datapath/chain.c:177-206 | so does deletion |
| FlowChain.TimeoutKeeps | openflow/datapath/chain.c:208-227 | so does timeout |
| FlowEffects.ModifyIsExact | openflow/datapath/chain.c:127-154 | exactly the selected working flows get the new actions, across all tables |
| FlowEffects.ModifyCountZero | openflow/datapath/chain.c:127-154 | the count that turns a modify command into an add is zero if and only if no working flow is selected |
| FlowEffects.DeleteIsExact | openflow/datapath/chain.c:177-206 | exactly the selected working flows go, although the hash tables ignore the priority; the emergency table stays |
| FlowEffects.TimeoutIsExact | openflow/datapath/chain.c:208-227 | exactly the working flows whose time has come go; the emergency table stays |
| FlowInsertion.InsertIsExact | openflow/datapath/chain.c:101-125 | the first table that accepts the flow gains it in place of its own duplicate; no flow of any table is lost, added or changed otherwise |
| FlowInsertion.NoneEarlier | openflow/datapath/table-hash.c:317-324 | a table that was passed over holds no duplicate |
| FlowInsertion.DuplicateStays | openflow/datapath/chain.c:101-125 | a duplicate stays beside the new flow if and only if a table after the accepting one holds a copy |
| FlowInsertion.LookupIsFresh | openflow/datapath/chain.c:69-99 | such a copy never answers: a lookup that ends at the new flow or a duplicate of it ends at the new flow |
| FlowInsertion.InsertTakesEffect | openflow/datapath/chain.c:101-125 | a packet that matches an accepted flow is handled at its priority or a higher one, and never by an older copy |
| FlowOverlap.MatchMeansOverlap | openflow/datapath/flow.c:55-66 | two wildcarded keys match if and only if some packet matches both |
| FlowOverlap.ConflictMeansAmbiguous | openflow/datapath/chain.c:157-182 | the overlap check finds a conflict if and only if a working flow of the same priority shares a packet with the new one |
| FlowOverlap.ExtractMeans | openflow/datapath/flow.c:104-172 | the key made from a message matches exactly the packets that the message means, with irrelevant fields ignored |
| FlowSteps.EmergencyInsertIsExact | openflow/datapath/chain.c:101-125 | an accepted emergency flow joins the emergency list in place of its duplicate; no other flow of any table changes |
| FlowSteps.EmergencyIsFull | openflow/datapath/table-linear.c:37-73 | it is refused if and only if the list is full and holds no duplicate, and then nothing changes |
| FlowSteps.AddIsExact | openflow/datapath/forward.c:211-299 | an add is refused, and nothing changes, if and only if some packet is ambiguous and the check was asked for, an emergency flow would expire, or the tables are full; otherwise the table named gains exactly the flow described |
| FlowSteps.ModIsExact | openflow/datapath/forward.c:301-373 | a modify gives the chosen flows of the table named the new actions and changes no other; if none is chosen the flow is added |
| FlowSteps.DelIsExact | openflow/datapath/forward.c:375-402 | a delete removes exactly the chosen flows of the table named that output to the port asked for, and no flow of the other |
| FlowSteps.ExpireIsExact | openflow/datapath/chain.c:208-229 | exactly the working flows that were not used, or have existed, for longer than they may go; emergency flows stay |
| FlowProtection.StepKeeps | openflow/datapath/forward.c:211-301 | every flow-mod, timeout and switchover keeps the invariant; what each does is the subject of `AddIsExact`, `ModIsExact`, `DelIsExact`, `ExpireIsExact` and `ProtectionIsExact` |
| FlowProtection.RunLookupIsBest | openflow/datapath/chain.c:73-99 | in every state reached from empty tables lookup is best-match, for every pair of hash functions |
| FlowStale.ReplacedFlowReturns | openflow/datapath/table-hash.c:317-324 | for any two flows that collide in the first hash table, a run in which a flow that was replaced answers again when its replacement expires |
| FlowStale.SomeFlowReturns | openflow/datapath/table-hash.c:317-324 | such flows exist for every pair of hash functions |
| FlowProtection.ProtectKeeps | openflow/datapath/private-msg.c:58-110 | the switchover keeps the invariant and does not touch the emergency table |
| FlowSwitchover.FlushEmpties | openflow/datapath/private-msg.c:47-56 | flushing removes every working flow |
| FlowSwitchover.ProtectionIsExact | openflow/datapath/private-msg.c:47-110 | afterwards the working tables hold exactly one permanent copy of each emergency flow, with its key, priority and actions, and nothing else; no insertion is refused |
| FlowRescue.SwitchoverHandles | openflow/datapath/private-msg.c:47-110 | after a switchover a packet that an emergency flow matches is handled by a permanent copy of an emergency flow of at least its priority |
| FlowRescue.EmergencyFlowTakesOver | openflow/datapath/private-msg.c:47-110 | after any run, an accepted emergency add and a switchover, a packet that the added flow matches is handled at its priority or a higher one, with the key, priority and actions of an emergency flow |
| TableObjects.TableLinear.Lookup | openflow/datapath/table-linear.c:25-35 | the list walk computes the specified lookup |
| TableObjects.TableLinear.HasConflict | openflow/datapath/table-linear.c:93-106 | the list walk computes the specified test |
| TableObjects.TableLinear.FindPlace | openflow/datapath/table-linear.c:37-59 | the walk finds the entry to replace or the place to insert |
| TableObjects.TableLinear.Insert | openflow/datapath/table-linear.c:37-73 | both intrusive lists become those of `LinearTable.Insert`, so `InsertKeeps` applies |
| TableObjects.TableLinear.Modify | openflow/datapath/table-linear.c:75-91 | the selected flow objects, and no others, get the new actions |
| TableObjects.TableLinear.Remove | openflow/datapath/table-linear.c:108-153 | the selected flow objects leave both lists and are counted |
| HashObjects.TableHash.constructor | openflow/datapath/table-hash.c:260-294 | a new table is empty |
| HashObjects.TableHash.Lookup | openflow/datapath/table-hash.c:39-44 | returns the object whose entry `HashTable.Lookup` returns, so `LookupFindsMatch` applies |
| HashObjects.TableHash.Insert | openflow/datapath/table-hash.c:46-71 | the table becomes `HashTable.Insert` of the old one and is unchanged when the flow is refused |
| HashObjects.TableHash.HasConflict | openflow/datapath/table-hash.c:104-130 | fast path and scan compute the specified test |
| HashObjects.TableHash.Modify | openflow/datapath/table-hash.c:73-102 | flow objects change in place to `HashTable.Modify` of the old table, by fast path or scan, with its count |
| HashObjects.TableHash.Delete | openflow/datapath/table-hash.c:132-171 | the table becomes `HashTable.Delete` of the old one, by fast path or scan, with its count |
| HashObjects.TableHash.Timeout | openflow/datapath/table-hash.c:173-195 | exactly the elapsed flows go |
| Actions.ValidateActions | openflow/datapath/dp_act.c:384-425 | the loop computes the specified verdict, with its error codes |
| Actions.AcceptedMeansWellFormed | openflow/datapath/dp_act.c:344-425 | a list is accepted if and only if its headers are well formed, its lengths right and no output port forbidden |
| ActionWire.DecodeRendered | openflow/datapath/dp_act.c:384-425 | every list of existing actions, written out byte by byte, is well formed and decodes to itself |
| ActionWire.RenderDecoded | openflow/datapath/dp_act.c:384-425 | every well-formed list is the bytes of the actions it decodes to |
| ActionWire.AnyBytes | openflow/datapath/dp_act.c:384-425 | any bytes are allowed actions up to their end or a first fault |
| ActionWire.FirstFaultDecides | openflow/datapath/dp_act.c:344-425 | the verdict is that of the first fault: a wrong length, an unknown type, an unknown vendor or a forbidden port, each under its exact condition and with its code |
| Actions.FlowHasOutPort | openflow/datapath/flow.c:188-219 | the byte walk finds an output action to the port if and only if there is one |
| Actions.ExecuteActions | openflow/datapath/dp_act.c:463-520 | deferred output emits the same packets, ports and lengths in the same order as an interpreter that outputs at once, and consumes the original packet exactly once |
| DhcpCodec.ParseChunks | openflow/lib/dhcp.c:575-609 | a value of any length, however it is chunked, is appended whole |
| DhcpCodec.ParseRange | openflow/lib/dhcp.c:575-609 | parsing an emitted range of options puts each of them back |
| DhcpCodec.StandardRoundTrip | openflow/lib/dhcp.c:790-841 | assembling a typed message and parsing it yields every standard option with its exact value, empty ones included |
| DhcpCodec.VendorRoundTrip | openflow/lib/dhcp.c:790-841 | parsing the bytes of the vendor option then yields the vendor options too, if they are not freed meanwhile |
| DhcpCodec.BareRoundTrip | openflow/lib/dhcp.c:575-609 | a bare list of options comes back unchanged if and only if no empty option precedes the first non-empty one |
| DhcpCodec.LeadingEmptyIsLost | openflow/lib/dhcp.c:575-609 | such a list: an empty host name before a vendor class is lost |
| DhcpRoom.MessageRoundTrip | openflow/lib/dhcp.c:694-726 | a received message of an OpenFlow peer has all options that were assembled, vendor options included |
| DhcpWire.EveryStringIsField | openflow/lib/dhcp.c:575-609 | any bytes are padding and options up to an end mark, an option cut short, or the end |
| DhcpWire.ParseMeans | openflow/lib/dhcp.c:575-609 | what any bytes mean: each code has the data of its options one after the other, from the first option that is not empty on |
| DhcpWire.ReceiveMeans | openflow/lib/dhcp.c:694-726 | vendor codes have the data of the options inside option 43 if option 60 says "OpenFlow", and are absent otherwise |
| DhcpWire.ChunksArePieces | openflow/lib/dhcp.c:754-787 | a value is written in options of 248 bytes each and a last one of at most 255 |
| DhcpWire.AssembleMeans | openflow/lib/dhcp.c:790-841 | the bytes of a message: the type, the standard options in the order of their codes, the vendor options wrapped into option 43, an end mark |
| DhcpRoom.ShortVendorOptions | openflow/lib/dhcp.c:146-207 | vendor options of at most 255 bytes each are parsed from live memory if and only if all of them fit into what is left of the arena |
| DhcpRoom.SampleReceivable | openflow/lib/dhcp.c:719-726 | a message with a type, the vendor class and one vendor option of up to 53 bytes, which the first arena of 64 bytes still holds, is received if and only if that option has at most 26 bytes |
| DhcpCodec.EmitOption | openflow/lib/dhcp.c:754-787 | the chunking loop appends the specified bytes |
| DhcpCodec.EmitRange | openflow/lib/dhcp.c:807-841 | the option loops append the specified bytes |
| DhcpCodec.EmitMessage | openflow/lib/dhcp.c:807-841 | the options of a message in the order of `dhcp_assemble` |
| DhcpArena.GrowOption | openflow/lib/dhcp.c:196-206 | an option that grows in place at the end, or moves there, keeps the layout and every other option |
| DhcpArena.DhcpMsg.constructor | openflow/lib/dhcp.c:116-122 | a new message has no options |
| DhcpArena.DhcpMsg.Copy | openflow/lib/dhcp.c:134-144 | the copy has the same options in its own arena |
| DhcpArena.DhcpMsg.Append | openflow/lib/dhcp.c:161-168 | bytes are added at the end of the used part |
| DhcpArena.DhcpMsg.CopyData | openflow/lib/dhcp.c:170-183 | all options are gathered into the new buffer with their values; they always fit |
| DhcpArena.DhcpMsg.Prealloc | openflow/lib/dhcp.c:146-159 | room is made and no option changes |
| DhcpArena.DhcpMsg.Put | openflow/lib/dhcp.c:185-207 | the option becomes its old value followed by the new bytes, all others stay, and regions stay inside the used part and disjoint |
| DhcpArena.DhcpMsg.ParseOptions | openflow/lib/dhcp.c:575-609 | from bytes outside the arena the loop collects exactly the options that the specification parses, and uses exactly the room that `ParseRoom` says |
| DhcpArena.DhcpMsg.PutFrom | openflow/lib/dhcp.c:187-207 | a put of bytes that lie in the arena reads freed memory if and only if it does not fit; otherwise it is `Put` |
| DhcpArena.DhcpMsg.ParseVendor | openflow/lib/dhcp.c:575-609 | parsing the vendor option out of the arena that is being filled reads live memory only if and only if `ReadsLive`, and then yields what the specification parses |
| DhcpArena.DhcpMsg.ReceiveOptions | openflow/lib/dhcp.c:694-726 | the option part of `dhcp_parse` reads live memory only if and only if the bytes are `Receivable`, and then yields `Received` |
| Rconn.RunStateSettles | openflow/lib/rconn.c:306-432 | one action keeps the state invariant, and with the clock standing every change of state lowers a rank |
| Rconn.Run | openflow/lib/rconn.c:434-451 | the run loop ends while the clock stands, and keeps the invariant |
| Rconn.Calls | openflow/lib/rconn.c:186-581 | over any sequence of calls at any times: the virtual connection is open exactly in CONNECTING, ACTIVE and IDLE, BACKOFF means reliable with a positive backoff, the backoff is bounded, `seqno` is odd exactly in ACTIVE |
| RconnAccounting.SendConserves | openflow/lib/rconn.c:522-557 | a packet is accepted if and only if connected, and then counted until it leaves |
| RconnAccounting.CallsConserve | openflow/lib/rconn.c:776-860 | over any run every counter changes exactly as the number of queued packets that carry it |
| RconnAccounting.NothingLost | openflow/lib/rconn.c:776-860 | from creation: accepted packets are, in order, those that left followed by those queued, each one either sent or flushed; every counter equals the queued packets that carry it |
| RconnAccounting.QueueLimitHolds | openflow/lib/rconn.c:559-581 | packets sent with a limit never queue beyond it; that none is refused below it is the subject of `SendWithLimitIsExact` |
| RconnAccounting.SendWithLimitIsExact | openflow/lib/rconn.c:559-581 | in every run: EAGAIN if and only if the queued packets that carry the counter reach the limit, ENOTCONN if and only if there is room but no connection, and otherwise exactly this packet is accepted; a refusal changes nothing |
| RconnAccounting.DisconnectEmptiesQueue | openflow/lib/rconn.c:801-841 | the queue is empty after a disconnection if and only if it was empty or a reliable connection was up |
| RconnAccounting.QueueOutlivesConnection | openflow/lib/rconn.c:257-274 | a concrete run that leaves a packet queued without a connection |
| RconnTiming.BackoffDoubles | openflow/lib/rconn.c:174-185 | after any sequence of failed attempts, by open error, refusal or timeout and as late as one likes, the backoff is the smaller of the maximum and 2^k seconds, where k counts the attempts since the first one or the last refusal that came no sooner than the backoff |
| RconnTiming.LateRefusalResets | openflow/lib/rconn.c:804-841 | after three open errors a refusal makes the backoff one second if it took four seconds and eight otherwise |
| RconnTiming.BackoffAfterConnection | openflow/lib/rconn.c:804-841 | when an established connection breaks the backoff returns to one second if it lasted at least the previous backoff and doubles otherwise; nothing stays queued |
| RconnProbing.StaysUpExactly | openflow/lib/rconn.c:384-432 | over any schedule of runs and sends and any answers, with anything queued, the connection stays up if and only if no answer is fatal and no run comes a full interval after the one that probed |
| RconnProbing.SentInOrder | openflow/lib/rconn.c:367-412 | while it stays up packets leave in order, and only by being sent, the probe behind all that were queued before it and before all that are sent after it |
| RconnProbing.SilentPeerIsDropped | openflow/lib/rconn.c:384-432 | without errors a silent peer is dropped if and only if a run comes a full interval after the first run that was late enough to probe, whatever is sent meanwhile |
| RconnProbing.ProbeHasLeft | openflow/lib/rconn.c:384-412 | until then the probe has been sent if and only if nothing is queued but packets sent after it; its place among the packets is exact |
| RconnProbing.DroppedUnprobed | openflow/lib/rconn.c:384-432 | with one packet queued and nothing accepted two runs an interval apart drop a peer that no probe has reached |
| RconnProbing.ReplyRevives | openflow/lib/rconn.c:470-510 | in every run a message revives an idle connection if and only if it is no echo reply, or no packet with another id, not zero, was sent last |
| RconnProbing.GenuineReplyIgnored | openflow/lib/rconn.c:774-799 | the reply to the probe is ignored when a packet with an id of its own was sent meanwhile |
| RconnHearing.CallsHear | openflow/lib/rconn.c:470-510 | in every run the time of reception is that of the last call that received a message on a connection |
| RconnHearing.QueuedExactly | openflow/lib/rconn.c:535-581 | in every run the packets that left the queue and those in it are, in order, the packets users sent on a connection within their limits and the probes that were due, and no others |
| RconnHearing.ProbedExactlyWhenSilent | openflow/lib/rconn.c:384-412 | in every run an active connection queues a probe if and only if probes are asked for and neither a message nor the connection itself came in for the probe interval |
| RconnHearing.MessagePostponesProbe | openflow/lib/rconn.c:470-510 | a message received while active changes nothing but the time of the next probe, which is exactly one interval after it |
| RconnHearing.ConnectIsExact | openflow/lib/rconn.c:233-321 | a call to connect leads to connecting, reliably unless the peer cannot be reconnected, or to a backoff of one second; the queue stays |
| RconnHearing.LossIsExact | openflow/lib/rconn.c:801-841 | a connection that fails backs off, for one second or twice as long as before, and loses its queue if it is reliable; otherwise it is void and keeps it |
| RconnObject.Rconn.constructor | openflow/lib/rconn.c:186-231 | the initial state, with defaulted intervals |
| RconnObject.Rconn.StateTransition | openflow/lib/rconn.c:886-899 | the state, its entry time and the sequence number, which changes on entering and leaving ACTIVE |
| RconnObject.Rconn.TimesOut | openflow/lib/rconn.c:868-884 | the five timeouts |
| RconnObject.Rconn.Flush | openflow/lib/rconn.c:843-860 | every queued packet leaves in order and its counter drops |
| RconnObject.Rconn.RconnDisconnect | openflow/lib/rconn.c:257-274 | the new state is `Rconn.RconnDisconnect` of the old one; the queue stays |
| RconnObject.Rconn.Disconnect | openflow/lib/rconn.c:801-841 | the new state is `Rconn.Disconnect` of the old one: backoff, flush and state |
| RconnObject.Rconn.Reconnect | openflow/lib/rconn.c:306-326 | the new state is `Rconn.Reconnect` of the old one, for both outcomes of opening |
| RconnObject.Rconn.TrySend | openflow/lib/rconn.c:774-799 | the head leaves only when it was sent |
| RconnObject.Rconn.DoTxWork | openflow/lib/rconn.c:367-382 | the loop sends until an error or an empty queue |
| RconnObject.Rconn.Send | openflow/lib/rconn.c:535-557 | result and new state are `Rconn.Send` of the old state, so `SendConserves` applies |
| RconnObject.Rconn.SendWithLimit | openflow/lib/rconn.c:571-581 | result and new state are `Rconn.SendWithLimit` of the old state, so `SendWithLimitIsExact` and `QueueLimitHolds` apply |
| RconnObject.Rconn.RunState | openflow/lib/rconn.c:300-432 | the action of each state |
| RconnObject.Rconn.Run | openflow/lib/rconn.c:434-451 | the loop computes the specified run and ends |
| RconnObject.Rconn.Connect | openflow/lib/rconn.c:233-241 | the new state is `Rconn.Connect` of the old one: disconnect, become reliable, reconnect |
| RconnObject.Rconn.ConnectUnreliably | openflow/lib/rconn.c:243-255 | the new state is `Rconn.ConnectUnreliably` of the old one: ACTIVE on the given connection |
| RconnObject.Rconn.Recv | openflow/lib/rconn.c:470-510 | activity and matching echo replies revive an idle connection |
| PacketQueue.Queue.PushTail | openflow/lib/queue.c:90-105 | the linked list gains the buffer at its end |
| PacketQueue.Queue.AdvanceHead | openflow/lib/queue.c:71-87 | the linked list loses its first buffer |
| PacketQueue.Queue.PopHead | openflow/lib/queue.c:107-116 | the first buffer is returned and removed |
| Hmap.IterationIsExact | openflow/lib/hmap.h:199-233 | the iteration order holds every node of the map once and nothing else |
| Hmap.NextFollows | openflow/lib/hmap.h:220-233 | `hmap_next` of a node is its successor in that order, or none at the end |
| Hmap.ResizeKeeps | openflow/lib/hmap.c:75-101 | resizing to any size keeps the nodes, their number and the bucket invariant |
| Hmap.CalcMaskIsLeast | openflow/lib/hmap.c:103-121 | the mask is the least 2^k - 1 other than one that is at least half the capacity |
| HmapBits.CalcMaskComputesMask | openflow/lib/hmap.c:103-121 | the cascade of shifts and ors on 64-bit words computes that mask |
| HmapBits.AndMaskIsRemainder | openflow/lib/hmap.h:134-142 | masking a hash is taking the remainder by the number of buckets |
| HmapObject.HashMap.constructor | openflow/lib/hmap.c:40-48 | an empty map |
| HmapObject.HashMap.InsertFast | openflow/lib/hmap.h:132-142 | the node joins the map, all others stay |
| HmapObject.HashMap.Insert | openflow/lib/hmap.h:144-153 | in addition the load is restored: n/2 is at most the mask |
| HmapObject.HashMap.Remove | openflow/lib/hmap.h:155-166 | the node leaves the map, all others stay |
| HmapObject.HashMap.Resize | openflow/lib/hmap.c:75-101 | the node set survives the move to a new array |
| HmapObject.HashMap.Expand | openflow/lib/hmap.c:123-131 | restores the load and keeps the nodes |
| HmapObject.HashMap.Shrink | openflow/lib/hmap.c:133-141 | the mask is no larger than the nodes need, the nodes stay |
| HmapObject.HashMap.Reserve | openflow/lib/hmap.c:143-153 | room for the capacity, the nodes stay |
| HmapObject.HashMap.ForEach | openflow/lib/hmap.h:212-233 | first and next visit every node exactly once |
| HmapObject.HashMap.ForEachWithHash | openflow/lib/hmap.h:168-197 | exactly the nodes with the hash are visited |
| MacCache.RunSound | openflow/lib/mac-learning.c:188-232 | in every run with a non-decreasing clock keys are unique, at most 1024 are cached, and learning order is expiry order |
| MacCache.ExpireIsExact | openflow/lib/mac-learning.c:282-292 | expiry looks only at the front yet removes exactly the expired records |
| MacCache.LookupIsLastLearned | openflow/lib/mac-learning.c:234-268 | a lookup gives the last learned port unless since then the table was flushed, the record expired or 1024 other keys were learned, and then floods |
| MacTable.LookupIsCacheLookup | openflow/lib/mac-learning.c:244-268 | searching one bucket is searching the cache |
| MacTable.LearnIsCacheLearn | openflow/lib/mac-learning.c:179-232 | learning keeps the lists and buckets consistent and does to the cache what it should; a full table evicts the least recently learned key |
| MacTable.ExpireIsCacheExpire | openflow/lib/mac-learning.c:282-292 | the loop over the list is expiry of the cache |
| MacTable.FreeFirst | openflow/lib/mac-learning.c:141-149 | freeing an entry keeps the invariant and drops its record |
| MacTable.RunIsCacheRun | openflow/lib/mac-learning.c:103-292 | for every hash function and every run the table answers as the cache |
| MacObject.MacLearning.constructor | openflow/lib/mac-learning.c:151-170 | all entries free, nothing cached |
| MacObject.MacLearning.SearchBucket | openflow/lib/mac-learning.c:113-124 | the walk computes the specified search |
| MacObject.MacLearning.FreeMacEntry | openflow/lib/mac-learning.c:141-149 | the new state is `MacTable.FreeEntry` of the old one, so `FreeFirst` applies |
| MacObject.MacLearning.Learn | openflow/lib/mac-learning.c:179-232 | the cached records become those of `MacCache.Learn`; it reports whether the key was new or had moved, and ignores multicast sources |
| MacObject.MacLearning.Lookup | openflow/lib/mac-learning.c:234-268 | the cached port or flood |
| MacObject.MacLearning.Flush | openflow/lib/mac-learning.c:270-280 | nothing remains cached |
| MacObject.MacLearning.Run | openflow/lib/mac-learning.c:282-292 | the cached records become those of `MacCache.Expire`, so `ExpireIsExact` applies |
| Crc32.StepsXor | openflow/datapath/crc32.c:14-22 | the shift steps are linear |
| Crc32.TableRound | openflow/datapath/crc32.c:37-41 | one table lookup makes the eight steps of one byte |
| Crc32.SerialDivides | openflow/datapath/crc32.c:14-22 | the bit-serial register computes the remainder of polynomial division |
| Crc32.ChecksumIsRemainder | openflow/datapath/crc32.c:29-43 | for every polynomial and byte string the table-driven check is the remainder of the message followed by 32 zeros |
| Crc32.Crc.constructor | openflow/datapath/crc32.c:10-25 | the loops fill the table with the specified entries |
| Crc32.Crc.Calculate | openflow/datapath/crc32.c:29-43 | the loop over a filled table returns that remainder |

## Left out

- Spanning tree: conversion from milliseconds (ticks are the input), the wire format of BPDUs with its flag byte (flags are booleans), and path costs that overflow 32 bits.
- Stale vectors that are still relayed between bridges while they age: networks converge from bridges that have aged out everything. A bound on convergence in seconds: rounds are counted instead.
- StpConvergence.NewNetworkConverges: hellos arrive at once and before they are too old; that enough of them are sent is what a round is, because hold and hello timers are per bridge.
- StpTicks.QuietTickIsExact: speaks of ticks in which no information expires, no port finishes learning and no port with something to send ceases to be held; `OldInformationIsDiscarded`, `DelayInAnyRun` and `HeldBpduLeaves` speak of those, one at a time.
- StpNetwork.HelloKeepsStable: speaks of hellos whose message age is below their maximum age, because receivers ignore others.
- Chain of tables: composed on values; the per-table objects are proved separately, aliasing of flow objects between tables, lookup counters, the hardware table hook, read-copy-update, locks and allocation failure are not modelled.
- Flow statistics (packet and byte counts, time of last use) and the expiry notices sent to the controller.
- Resumed iteration of the linear table.
- Actions.ExecuteActions: packet edits (VLAN, addresses, checksums) are an arbitrary function of packet, key and action, because their byte-level work is separate.
- DHCP header fields, the option cookie, option overload, validation by option class, text formatting, and what the C code does after it has read freed memory, which is undefined.
- Reliable connection: statistics, admission control, monitor connections, questionable connectivity and names; clock values that reach 2^32 - 1; `seqno` and `packetsSent` do not wrap.
- RconnObject.Rconn.Send: the queue is a sequence here; the linked list of `lib/queue.c` is proved on its own in `PacketQueue`.
- HmapObject.HashMap.Resize: nodes move between sequences rather than being relinked, and the old array is not swapped in as a second map (`hmap_swap`).
- HmapObject.HashMap.Insert: chains are sequences of nodes rather than linked nodes, and the inline first bucket with `hmap_swap` is not modelled.
- MacObject.MacLearning.Learn: flow revalidation tags are reduced to whether anything was learned; lists hold indices of entries rather than links.
- Crc32.Crc.Calculate: the mixing of the check into table indices is not modelled; table theorems hold for every hash function.
- Everything else in the repository: sockets, netlink, process and log handling, pretty printing, command line tools, and the user-space datapath.
