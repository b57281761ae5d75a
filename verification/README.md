# Accounting core of the tollwing agent, modelled in Dafny

tollwing counts the bytes Kubernetes workloads exchange, prices them, and attributes the
dollars to the services that cause them. This project models the code that must not lose
or invent a byte or a dollar on the way, and proves what that code keeps:

- **Service graph and attribution** (`Rollup`, `Records`, `ServiceGraph`, `CycleSearch`,
  `Responsibility`, `Charging`, `Conservation`). Rows fold into shared mutable nodes and
  edges with adjacency lists; a three-colour search flags cycles; a pinned power iteration
  computes responsibilities and charges edges. The class is proved against the graph as a
  value, and the laws are about that value: the rollup conserves bytes and dollars, the
  iteration is bounded, monotone and convergent, and the roots together are charged the
  bill, no more on any graph and exactly on an acyclic one.
- **Kernel to poller** (`Hooks`, `FlowLedger`, `MeteredRuns`, `ShutdownOrder`, `Poller`,
  `UdpOwnership`). Hooks on several CPUs, the
  poller, shutdown and the loader's configuration run concurrently, so they are step
  machines over values: every theorem is about every reachable state. Finding a map entry
  and adding to it is one step; missing it and inserting are two, which makes the insert
  race reachable. The hooks and the poll themselves are methods over mutable maps, each
  proved to be such steps. The `metered`, `forgone`, `lost` and `ended` ledgers are bookkeeping.
- **Pricing** (`Tiers`, `TierTables`, `Billing`, `MeterRuns`). The nested tier walk is the
  difference of a piecewise-linear integral for ascending tables, and for merely sorted
  ones exactly when nothing is paid from the first repeated threshold on; concurrent
  callers of the single meter reserve stretches that tile it.
- **Classification** (`Prefixes`, `Classifier`, `Topology`). Containment by leading bits,
  the in-place stable sort, longest-prefix lookup, replace-on-refresh, the peering guard.
- **Bounded indexes** (`EndpointIndex`, `IntentCache`, `EvictionRing`, `DnsRing`,
  `DnsTracker`, `PodMetrics`). Each keeps a simple meaning: a sum of live slices, the
  latest Put, a FIFO, an account of every polled byte.

Dollars, gigabytes and responsibilities are exact reals; byte counters are naturals.
Readings of the clock, random sampling decisions, map iteration order, what the provider
or the kernel returns, and the order of concurrent steps are parameters or arbitrary
choices. `dafny verify dfyconfig.toml` checks the whole project.

`FlowLedger`, `UdpOwnership` and `MeterRuns` each define runs (`Possible`, `After`,
`Reachable`) over their own states and steps. The few lines are repeated on purpose: one
definition over any machine would take the steps and their conditions as function values,
which every proof would then have to open.

Some predicates are also given as function values (`Invariant`, `InRound`, `Restless`,
`Charged`, `Ranked`, `Outcome`, `Sum`): stating a fact through the value keeps the solver
from unfolding it, and small lemmas open it where it is needed.

## Where the code and its comments differ

The model follows the code. Each claim that fails has a lemma with an input and one with
the exact condition.

- `pkg/servicegraph/attribution.go:66-68` says the attributions of an edge over every
  possible origin add up to its cost. They do for roots. Over all origins they do exactly
  when no other node feeds the edge's source (`Conservation.AllOriginsConserveExactlyUnfed`);
  in a chain of three services the last edge is charged twice (`Conservation.ChainIsChargedTwice`).
- `pkg/dns/tracker.go:286-292` says the ring length is the cache's capacity. The bound is
  2N - 1, and it is reached for every N (`EvictionRing.CacheBound`, `DnsRing.BoundIsReached`,
  `EvictionRing.WithinCapacityIff`).
- `pkg/ebpf/bpf/quic.bpf.c:14-35` says UDP transmit bytes have one owner per run. That needs
  SetEnabled not to be called between attachment and the first push of the configuration
  (`UdpOwnership.TwoOwnersWhenToggledEarly`, `UdpOwnership.SingleOwnerIffGuarded`).
- `pkg/cloud/aws/pricing.go:203` only sorts the tiers it fetches, one per price dimension of
  every matching item, so thresholds may repeat. The walk bills such a table correctly
  exactly when nothing is paid from the first repeated positive threshold to the first
  unlimited tier (`TierTables.BilledCorrectlyIff`); a table fetched twice undercharges
  (`TierTables.DoubledTableUndercharges`), a repeated unlimited tier does no harm
  (`TierTables.UnlimitedMayRepeat`).
- `pkg/classifier/traffic.go:472-473` says a bare region name such as us-east-1 is returned
  as it is. It is cut at its last dash (`Topology.BareRegionsAreCut`); exactly the names
  without a later dash and without a zone letter are returned unchanged
  (`Topology.ReturnedAsItIsIff`).
- `pkg/classifier/traffic.go:437` names RFC 6598 space as private. The code's private space
  is RFC 1918, loopback and link-local (`Topology.PrivateExactly`), and an unclaimed RFC 6598
  address is billed as leaving the network (`Topology.SharedSpaceIsPublic`).

## Model

| member | source | states |
|---|---|---|
| Records.Edge.CrossZoneCost | pkg/servicegraph/graph.go:87-95 | walking the per-type slices in any order adds exactly the cross-AZ and cross-region dollars |
| Records.Node.Send | pkg/servicegraph/graph.go:173-179 | the source side of a row: bytes, dollars, and the zone's bytes when a zone is named |
| Records.Node.Receive | pkg/servicegraph/graph.go:175-182 | the destination side of a row |
| Records.Edge.Carry | pkg/servicegraph/graph.go:192-200 | the edge side of a row: totals, and the per-type slice when a type is named |
| ServiceGraph.ServiceGraph.GetNode | pkg/servicegraph/graph.go:156-163 | the node for an id is the one already there, or a new empty one; all other records stay where they are |
| ServiceGraph.ServiceGraph.GetEdge | pkg/servicegraph/graph.go:184-191 | the edge already there, or a new empty one listed once at its source and once at its destination |
| ServiceGraph.ServiceGraph.AddEdgeRow | pkg/servicegraph/graph.go:169-201 | keeps nodes, edges and both list families consistent, with every edge in exactly one out-list and one in-list, each once; the graph afterwards is the rollup with this row folded in, and no record is replaced |
| ServiceGraph.BuildGraph | pkg/servicegraph/source.go:20-28 | a snapshot built row by row is the rollup of its rows |
| Rollup.BuildBalances | pkg/servicegraph/graph.go:169-201 | for any rows, every node's byte and dollar totals are the sums over its incident edges, and edges join known nodes |
| Rollup.EdgesAreTheirRows | pkg/servicegraph/graph.go:184-200 | an edge holds the bytes, connections and dollars of exactly the rows that name its ends, in all and per named traffic type |
| Rollup.EdgesComeFromRows | pkg/servicegraph/graph.go:184-196 | an edge is there exactly when some row names its ends |
| Rollup.NodesAreTheirRows | pkg/servicegraph/graph.go:173-182 | a node holds the bytes and dollars of exactly the rows that leave and reach it, and per named zone the bytes seen there |
| Rollup.EdgesCarryRows | pkg/servicegraph/graph.go:184-200 | the edges carry exactly the rows' bytes, dollars and zone-crossing dollars |
| Rollup.TrafficIsConserved | pkg/servicegraph/graph.go:173-176 | total out equals total in equals the total of the rows, for bytes and for dollars |
| Rollup.AddRowCommutes | pkg/servicegraph/graph.go:169-201 | two rows may be folded in either order, self-loops and shared nodes included |
| Rollup.RowOrderIsIrrelevant | pkg/servicegraph/graph.go:165-201 | the graph depends only on the multiset of rows |
| CycleSearch.CycleSearch.Visit | pkg/servicegraph/graph.go:257-271 | terminates because the white nodes shrink; reports a cycle only when there is one, and otherwise finishes the node after all its successors |
| CycleSearch.CycleSearch.Look | pkg/servicegraph/graph.go:260-267 | a grey end closes a cycle, a white one is visited, a black one is already finished |
| CycleSearch.CycleSearch.Follow | pkg/servicegraph/graph.go:259-268 | unless a cycle is found, every successor of the node is finished |
| CycleSearch.FinishedIsAcyclic | pkg/servicegraph/graph.go:269-277 | nodes that each finished after all their successors leave no cycle |
| CycleSearch.CycleSearch.Search | pkg/servicegraph/graph.go:272-277 | true exactly when the graph has a cycle, from any order of starting nodes |
| ServiceGraph.ServiceGraph.HasCycle | pkg/servicegraph/graph.go:249-278 | true exactly when the dependency graph has a cycle, self-loops and zero-byte edges included |
| ServiceGraph.ServiceGraph.InBytes | pkg/servicegraph/attribution.go:79-87 | holds every node's inbound bytes, zero for nodes without an in-list |
| ServiceGraph.ServiceGraph.PassOn | pkg/servicegraph/attribution.go:108-112 | one inbound edge's term; an idle edge passes nothing |
| ServiceGraph.ServiceGraph.FlowInto | pkg/servicegraph/attribution.go:107-113 | the loop over the in-list computes the share-weighted inflow of the node |
| ServiceGraph.ServiceGraph.Respond | pkg/servicegraph/attribution.go:100-119 | a node's next responsibility and its change; a root other than the origin stays at zero |
| ServiceGraph.ServiceGraph.Round | pkg/servicegraph/attribution.go:95-120 | one round yields the next iterate at every node and the largest change of the round |
| ServiceGraph.ServiceGraph.Iterate | pkg/servicegraph/attribution.go:91-125 | leaves at the first round whose largest change is below epsilon or at the cap, holding that round's iterate |
| ServiceGraph.ServiceGraph.EdgeCharge | pkg/servicegraph/attribution.go:131-139 | one edge's charge; none when it crosses no zone or nobody holds its source |
| ServiceGraph.ServiceGraph.ChargeEdges | pkg/servicegraph/attribution.go:127-154 | direct is the zone-crossing cost of the origin's own edges, and direct plus induced charges every edge by its source's responsibility |
| ServiceGraph.ServiceGraph.AttributeFrom | pkg/servicegraph/attribution.go:73-171 | nothing for an unknown origin; otherwise the charge of the iterate at the round the loop left, the default cap and epsilon where none is given, and the exact cycle flag |
| ServiceGraph.DefaultsAreClose | pkg/servicegraph/attribution.go:18-25 | with the default cap and epsilon, a graph with walks of at most 100 edges is attributed within a billionth per walk edge of the exact share |
| ServiceGraph.DefaultDollarsAreClose | pkg/servicegraph/attribution.go:127-154 | and its charge misses the exact one by at most that part of the zone-crossing cost |
| Responsibility.RespInUnitInterval | pkg/servicegraph/attribution.go:91-93 | every iterate stays within 0 and 1 on any graph |
| Responsibility.RespGrows | pkg/servicegraph/attribution.go:91-93 | every round can only raise a responsibility |
| Responsibility.RespBelowFixedPoint | pkg/servicegraph/attribution.go:60-63 | every iterate lies below every non-negative solution of the recurrence |
| Responsibility.DeltasShrink | pkg/servicegraph/attribution.go:117-124 | the largest change never grows from one round to the next |
| Responsibility.AcyclicBoundsWalks | pkg/servicegraph/attribution.go:7-9 | without a cycle every walk has fewer edges than there are nodes |
| Responsibility.RespFinal | pkg/servicegraph/attribution.go:7-9 | after as many rounds as the longest walk has edges the values no longer change |
| Responsibility.LoopLeavesAfterLongest | pkg/servicegraph/attribution.go:7-9 | so a loop with a positive epsilon leaves at the latest in the round after those |
| Responsibility.HeldIsFixedPoint | pkg/servicegraph/attribution.go:60-63 | those final values solve the recurrence |
| Responsibility.HeldBytesFlow | pkg/servicegraph/attribution.go:103-113 | the round in bytes: what a node holds of its inbound bytes is what its sources held of them, edge by edge |
| Responsibility.UniqueFixedPoint | pkg/servicegraph/attribution.go:60-63 | and they are its only solution |
| Responsibility.EpsilonExitIsClose | pkg/servicegraph/attribution.go:117-124 | leaving at an epsilon round is within one epsilon per edge of the longest walk of the exact value |
| Conservation.RootsNeverOverclaim | pkg/servicegraph/attribution.go:94-125 | on any graph, and wherever each loop stopped, the roots together claim at most the whole of a node |
| Conservation.RootsNeverOvercharged | pkg/servicegraph/attribution.go:127-154 | so the roots together are never charged more than the bill |
| Conservation.EdgeNeverOvercharged | pkg/servicegraph/attribution.go:127-154 | nor more than its own cost for any single edge |
| Conservation.RootsCoverExactly | pkg/servicegraph/attribution.go:56-71 | after as many rounds as the longest walk has edges, the roots claim exactly the whole of every node |
| Conservation.EdgeFullyCharged | pkg/servicegraph/attribution.go:65-68 | after as many rounds each edge is charged exactly its cost |
| Conservation.DollarsConserved | pkg/servicegraph/attribution.go:65-71 | and the roots are charged exactly the bill |
| Conservation.AcyclicDollarsConserved | pkg/servicegraph/attribution.go:65-71 | on any acyclic graph one round less than there are nodes is enough for that |
| Conservation.RootsCoverNearly | pkg/servicegraph/attribution.go:117-124 | with epsilon exits the unclaimed part of a node is at most one epsilon per root and walk edge |
| Conservation.RootBillsAddUp | pkg/servicegraph/attribution.go:91-154 | so the bill the roots are charged is short by at most that slack, from what the loops really do: leave at the first settled round or the cap |
| Conservation.RootBillsOfRowsAddUp | pkg/servicegraph/attribution.go:73-154 | the same for the graph built from any rows of non-negative cost |
| Conservation.AllOriginsCoverExactlyUnfed | pkg/servicegraph/attribution.go:66-71 | over every possible origin a node is claimed exactly once if and only if no other node sends it bytes |
| Conservation.AllOriginsConserveExactlyUnfed | pkg/servicegraph/attribution.go:66-68 | so an edge's charges over every origin add up to its cost exactly then, or when it costs nothing |
| Conservation.ChainIsChargedTwice | pkg/servicegraph/attribution.go:66-68 | in a chain of three services the last edge is charged in full to the first and again to the second, twice its cost over all origins |
| ServiceGraph.ServiceGraph.Chokepoints | pkg/servicegraph/attribution.go:222-243 | describes each node with zone-crossing cost once, no other, and the points together count every zone-crossing dollar twice |
| ServiceGraph.ScoreCountsEdges | pkg/servicegraph/attribution.go:216-241 | a point's score counts its zone-crossing cost once per inbound and outbound edge |
| ServiceGraph.ServiceGraph.Through | pkg/servicegraph/attribution.go:225-231 | the zone-crossing cost on a node's inbound and outbound edges |
| Rollup.ChokepointsCountEdgesTwice | pkg/servicegraph/attribution.go:224-231 | summed over all nodes, incident zone-crossing cost is twice the graph's |
| Hooks.Kernel.TcpSendmsg | pkg/ebpf/bpf/tollwing.bpf.c:566-594 | past its guards the hook takes the machine's send step; otherwise it changes nothing |
| Hooks.Kernel.TcpCleanupRbuf | pkg/ebpf/bpf/tollwing.bpf.c:605-633 | likewise the receive step |
| Hooks.Kernel.UdpSendmsg | pkg/ebpf/bpf/tollwing.bpf.c:705-724 | likewise for UDP entries only |
| Hooks.Kernel.UdpRecvmsgExit | pkg/ebpf/bpf/dns.bpf.c:91-129 | likewise the UDP receive step, which adds to a flow entry only when it is there |
| Hooks.Kernel.UpdateFlowAggregate | pkg/ebpf/bpf/tollwing.bpf.c:534-551 | adds to this CPU's slot of the flow entry, or leaves the insert to come |
| Hooks.Kernel.InsertFlow | pkg/ebpf/bpf/tollwing.bpf.c:553-563 | inserts unless the key has appeared or there is no room, and then counts the drop |
| Hooks.Kernel.Connect4 | pkg/ebpf/bpf/tollwing.bpf.c:146-211 | a tracked, sampled connect records its destination and its event or the drop; a UDP one creates an entry unless there is one, TCP creates none here |
| Hooks.Kernel.HandleEstablished | pkg/ebpf/bpf/tollwing.bpf.c:287-420 | takes the process from the recorded destination of an outgoing connection and uses that record up, replaces any old entry of the cookie by a new one, seeds the flow entry, and sends its event or counts the drop |
| Hooks.Kernel.HandleStateChange | pkg/ebpf/bpf/tollwing.bpf.c:422-477 | only TCP_CLOSE ends the connection, with an event or, when the ring is full, a counted drop |
| Hooks.Kernel.SockOps | pkg/ebpf/bpf/tollwing.bpf.c:479-518 | the callback takes the establish or state-change step, or none: nothing changes while disabled, for other families, or for a connection sampled out |
| Hooks.Kernel.SockRelease | pkg/ebpf/bpf/tollwing.bpf.c:852-863 | deletes entries of every protocol but TCP, and the recorded destination in any case |
| Hooks.ConnectThenEstablish | pkg/ebpf/bpf/tollwing.bpf.c:146-394 | after a connect and its establish the entry has the connecting process and the socket's own addresses and ports, the event names the destination asked for, and the connect's record is gone |
| Hooks.AcceptIncoming | pkg/ebpf/bpf/tollwing.bpf.c:294-330 | an accepted connection has no known process and takes no connect's record |
| Hooks.ConnectUdpSocket | pkg/ebpf/bpf/tollwing.bpf.c:165-189 | a tracked UDP connect enters the destination asked for and the process |
| Hooks.IgnoredConnect | pkg/ebpf/bpf/tollwing.bpf.c:149-158 | a connect changes nothing while disabled, when sampled out, for UDP unless asked for, and for other protocols |
| Hooks.SampledOutIsSkipped | pkg/ebpf/bpf/tollwing.bpf.c:490-518 | with sampling on, an outgoing connection without a connect's record and an incoming one not drawn are skipped, and no others |
| FlowLedger.FlowsStayBalanced | pkg/ebpf/bpf/tollwing.bpf.c:534-564 | every hook, poller and shutdown step keeps, per flow and direction: metered = delivered + batched + resident + pending + lost |
| FlowLedger.ConnsStayBalanced | pkg/ebpf/bpf/tollwing.bpf.c:566-697 | every step keeps the connection tallies, live and ended, equal to the metered bytes plus the UDP receives that found no flow entry |
| FlowLedger.TableStaysKept | pkg/ebpf/bpf/tollwing.bpf.c:422-477 | every step keeps each live entry's and each close event's tally equal to what was recorded for its generation, generations being unique |
| FlowLedger.BytesAreAccountedFor | pkg/ebpf/bpf/tollwing.bpf.c:534-564 | in every reachable state the metered bytes of a flow are delivered, batched, resident, about to be inserted or lost, and the drop counter counts the lost deltas |
| MeteredRuns.OfferedBytesAreAccountedFor | pkg/ebpf/bpf/tollwing.bpf.c:566-724 | over any run the bytes the hooks were called with for a flow are delivered, batched, resident, about to be inserted or lost, and the connection tallies hold them and the UDP receives that found no flow entry |
| MeteredRuns.LostOnlyWhenLate | pkg/ebpf/bpf/tollwing.bpf.c:546-563 | a flow entry that is there takes the bytes at once; an insert drops them exactly when another CPU was faster or there is no room |
| MeteredRuns.EstablishSeeds | pkg/ebpf/bpf/tollwing.bpf.c:371-394 | an established connection starts with an empty tally, and its flow entry is there or about to be inserted |
| MeteredRuns.CloseReportsAll | pkg/ebpf/bpf/tollwing.bpf.c:436-477 | a TCP close with room in the ring adds exactly one event, carrying all bytes metered since the establish; the entry goes in any case |
| MeteredRuns.UdpEntryGoesAtRelease | pkg/ebpf/bpf/tollwing.bpf.c:825-863 | a UDP socket's entry goes with the socket |
| ShutdownOrder.FinalFlushDelivers | pkg/agent/shutdown.go:8-30 | whatever runs between, by the time the poller has stopped every byte resident under a key the final flush listed has been handed over |
| ShutdownOrder.PublisherClosesAfterFlush | pkg/agent/shutdown.go:20-30 | in any run, before any close of the publisher come a final listing and a hand-over, and by then every byte resident under a listed key at the listing has been handed over |
| ShutdownOrder.ClosedOnlyAfterFlush | pkg/agent/shutdown.go:20-30 | a closed publisher or loader got there by such a close, and the loader by its own, which is last |
| ShutdownOrder.FinalFlushComesFirst | pkg/agent/shutdown.go:20-30 | from then on no batch waits and none will be handed over |
| FlowLedger.LedgersAgree | pkg/ebpf/bpf/tollwing.bpf.c:580-697 | the connection ledger equals the flow ledger for sent bytes and for every non-UDP flow, and is never below it |
| FlowLedger.CloseEventsAreExact | pkg/ebpf/bpf/tollwing.bpf.c:422-477 | each establish yields at most one close event, and a TCP one carries exactly the bytes metered since |
| FlowLedger.TcpEntrySurvives | pkg/ebpf/bpf/tollwing.bpf.c:422-436 | over any run of half-closes, socket releases, traffic, polls and other sockets' events a TCP entry stays in place with a tally that never shrinks |
| FlowLedger.InsertRaceLosesDelta | pkg/ebpf/bpf/tollwing.bpf.c:558-562 | two CPUs racing for one insert can lose the second CPU's bytes, and that loss is counted |
| Poller.SumPerCpu | pkg/poller/poller.go:319-337 | the snapshot of a key adds up all its per-CPU values |
| Poller.FlowMap.LookupAndDelete | pkg/poller/poller.go:295 | reads and removes one key at once, or reports that it is gone |
| Poller.PollIterate | pkg/poller/poller.go:274-316 | drains the listed keys in order, skipping keys that are gone |
| Poller.PollConserves | pkg/poller/poller.go:267-273 | whatever the key list, stale, incomplete or repeated, a poll moves bytes from the table to the snapshots, removes the listed keys, reports each at most once and loses nothing |
| Poller.DrainStepsPoll | pkg/poller/poller.go:292-313 | the step machine's drain steps, taken without interruption, are such a poll |
| UdpOwnership.StaysKept | pkg/ebpf/loader.go:237-273 | attachment, push, toggles and hooks keep: the socket path records only when tracked and attached, the egress hook only while it owns the bytes |
| UdpOwnership.OneOwnerWhenGuarded | pkg/ebpf/loader.go:655-669 | in every reachable state of a setup without that overlap UDP transmit bytes were recorded on one side only |
| UdpOwnership.TwoOwnersWhenToggledEarly | pkg/ebpf/loader.go:311-337 | with it, a run with a toggle before the push records on both sides |
| UdpOwnership.SingleOwnerIffGuarded | pkg/ebpf/bpf/quic.bpf.c:14-35 | the single-owner rule holds for a setup exactly when tracking, both attachments and an early toggle do not come together |
| UdpOwnership.OwnerExactlyWhen | pkg/ebpf/loader.go:655-707 | once pushed, without early toggles, and while enabled, the socket path records every connected cookie exactly when UDP is tracked and its hook attached, and the egress hook records exactly when that is not so and it attached |
| UdpOwnership.RunsRecordExactly | pkg/ebpf/loader.go:312-337 | any run records exactly the bytes its hooks were called with, holds exactly the cookies connected and not released, and has the flag of the latest toggle or push |
| Tiers.TieredCost | pkg/cost/engine.go:222-258 | for strictly ascending tiers the nested loops compute the difference of the integral |
| Tiers.TierStart | pkg/cost/engine.go:232-241 | the inner scan finds where the tiers before the first one that reaches this threshold ended |
| Tiers.CostIsIntegral | pkg/cost/engine.go:222-258 | the same for the walk as a function of any stretch |
| Tiers.CostIsAdditive | pkg/cost/engine.go:220-258 | splitting a stretch does not change its price |
| Tiers.CostIsMonotone | pkg/cost/engine.go:220-258 | longer stretches never cost less and no stretch costs less than nothing |
| Tiers.MarginalRateCoversIff | pkg/cost/ratecard.go:86-99 | the flat marginal rate covers every stretch's tiered cost exactly when no tier is dearer than it |
| Tiers.EachGigabyteAtItsTier | pkg/cost/engine.go:220-258 | a stretch inside one tier costs that tier's price per gigabyte |
| Tiers.MarginalRateIsFirstPaid | pkg/cost/ratecard.go:86-99 | the marginal rate prices every stretch inside the first paid tier exactly |
| Tiers.RateIsZeroIff | pkg/cost/ratecard.go:92-99 | and is zero exactly when no tier is paid |
| TierTables.BilledCorrectlyIff | pkg/cloud/aws/pricing.go:166-203 | a table as the fetch sorts it, thresholds repeated or not, is billed correctly on every stretch exactly when nothing is paid from the first repeated positive threshold to the first unlimited tier |
| TierTables.RepeatIsBilledWrongly | pkg/cost/engine.go:231-255 | for every other sorted table, a stretch that is billed wrongly |
| TierTables.DoubledTableUndercharges | pkg/cloud/aws/pricing.go:166-203 | the default thresholds fetched twice: the first 150 GB cost nothing instead of 4.50 |
| TierTables.UnlimitedMayRepeat | pkg/cloud/aws/pricing.go:172-178 | two unlimited tiers after a finite one are billed correctly |
| TierTables.DefaultTablesFit | pkg/cost/ratecard.go:226-370 | the AWS, GCP and Azure default egress tables are billed correctly and covered by their marginal rates |
| TierTables.DefaultRates | pkg/cost/ratecard.go:226-370 | a marginal gigabyte of the default tables costs 0.09, 0.12 and 0.087 |
| TierTables.DefaultBills | pkg/cost/ratecard.go:226-370 | what 163600 GB cost over every tier of the default tables |
| Billing.Engine.Reserve | pkg/cost/engine.go:199-209 | returns where the call's gigabytes start and advances the key's meter, in a fresh meter when the month is strictly over |
| Billing.Engine.PriceTiered | pkg/cost/engine.go:180-212 | flat, marginal or metered price; only the metered one touches the meter |
| Billing.Engine.CalculateFlow | pkg/cost/engine.go:150-176 | the price of a flow and the meter afterwards, NAT and transit gateway included |
| Billing.Engine.Calculate | pkg/cost/engine.go:125-145 | prices a batch in order; without a rate card everything costs nothing and no meter moves |
| Billing.Engine.ResetBillingPeriod | pkg/cost/engine.go:260-266 | empties every meter and starts the period of the given month |
| Billing.NatSharesEgressMeter | pkg/cost/engine.go:154-165 | a NAT flow's transmit leg continues the internet-egress meter: two stretches cost what their sum costs |
| Billing.EgressSharesOneMeter | pkg/cost/engine.go:125-176 | in any batch of flows within a period, the internet and NAT flows together cost the NAT fees and one stretch of the internet-egress meter as long as their total |
| Billing.PeriodEndsAfterNextMonthStarts | pkg/cost/engine.go:199-204 | a period is over strictly after the first moment of the next month, and stays over |
| Billing.MonthIsResetOnce | pkg/cost/engine.go:199-205 | the meter in use is never over, is not reset again in the month it was reset for, and starts empty |
| Billing.DirectionsBill | pkg/cost/ratecard.go:64-79 | which end of a transfer each direction bills; kinds without one bill both; bytes add up |
| Billing.DefaultPriceIsFirstPaidTier | pkg/cost/engine.go:190-194 | without the single meter a tiered flow costs what its gigabytes cost in the first paid tier, and no meter moves |
| Billing.FlatPrices | pkg/cost/engine.go:154-187 | a gibibyte through a gateway or at a flat rate costs the listed price in either mode, a kind without a rate nothing |
| Billing.MetersAreApart | pkg/cost/engine.go:196-197 | a flow leaves the meters of other kinds, providers and regions alone |
| Billing.EachInTurn | pkg/cost/engine.go:136-144 | a batch prices each flow on the meter the flows before it left |
| MeterRuns.PricedReserves | pkg/cost/engine.go:199-211 | a metered pricing call moves the meter as a reservation step does and costs what the reserved stretch costs |
| MeterRuns.NoOverlap | pkg/cost/engine.go:199-211 | in any interleaving of calls and resets no gigabyte of a period is reserved twice |
| MeterRuns.NoGap | pkg/cost/engine.go:199-211 | and none is skipped |
| MeterRuns.PeriodIsChargedOnce | pkg/cost/engine.go:190-212 | charged plus reserved-but-unpriced is the tiered price of the period's total, however it was batched |
| MeterRuns.FreeTierGrantedOnce | pkg/cost/engine.go:70-76 | once all calls are priced a period pays for exactly what exceeds the allowance |
| Prefixes.OverlapIffShared | pkg/cloud/topology.go:151-161 | for valid prefixes the two-containment test holds exactly when they share an address |
| Prefixes.ContainsItsBlock | pkg/classifier/prefixtree.go:45-54 | a prefix contains exactly the addresses of its family in its block of 2^(width - bits) values |
| Classifier.PrefixTree.Build | pkg/classifier/prefixtree.go:33-43 | the in-place insertion sort is the stable sort by length, longest first |
| Classifier.PrefixTree.SinkInto | pkg/classifier/prefixtree.go:39-41 | the inner swaps move one entry left past exactly the shorter ones |
| Classifier.PrefixTree.Lookup | pkg/classifier/prefixtree.go:45-54 | the type of the first entry that contains the address |
| Prefixes.SortedFindsLongest | pkg/classifier/prefixtree.go:12-54 | after the sort, which keeps the entries, the first match is the longest one, ties going to the earliest added |
| Prefixes.LongestWins | pkg/classifier/prefixtree.go:45-54 | what longest means: it beats every other match, strictly the earlier ones, and is absent only when nothing matches |
| Classifier.Classifier.Rebuild | pkg/classifier/traffic.go:352-365 | the tree holds exactly the latest three sets, in category order, sorted |
| Classifier.Classifier.CloneValid | pkg/classifier/traffic.go:367-376 | keeps the valid prefixes in order |
| Classifier.Classifier.SetVPCPeeringCIDRs | pkg/classifier/traffic.go:378-384 | replaces the peering set by the valid prefixes given, and nothing else |
| Classifier.Classifier.SetTransitGatewayCIDRs | pkg/classifier/traffic.go:386-392 | replaces the transit gateway set likewise |
| Classifier.Classifier.SetVPCEndpointCIDRs | pkg/classifier/traffic.go:405-411 | replaces the endpoint set likewise |
| Classifier.Classifier.SetClusterCIDRs | pkg/classifier/traffic.go:221-245 | replaces the cluster set, without invalid or repeated prefixes |
| Topology.ClustersCoverAlike | pkg/classifier/traffic.go:221-245 | the set taken over holds exactly the valid ranges given, none twice, and covers the same addresses |
| Classifier.Classifier.IsClusterInternal | pkg/classifier/traffic.go:208-219 | whether some cluster prefix contains the address |
| Classifier.Classifier.LookupPrefix | pkg/classifier/traffic.go:280-293 | the first match of the sorted tree is the type of the longest known prefix |
| Classifier.Classifier.Classify | pkg/classifier/traffic.go:175-206 | the decision of the documented order over the latest topology |
| Topology.LookupPrefersLongest | pkg/classifier/traffic.go:348-365 | the lookup answers the category whose longest match is longest, ties going to peering, then transit gateway, then endpoint |
| Topology.OnlyLatestSetsCount | pkg/classifier/traffic.go:348-411 | after any run of Set calls the answer depends only on the latest set of each category |
| Topology.OverlapsAny | pkg/cloud/topology.go:154-161 | finds an overlapping prefix exactly when there is one |
| Topology.KeepForeign | pkg/cloud/topology.go:114-130 | the nested loop keeps, in order, exactly the ranges that overlap no local one |
| Topology.RefreshVPCPeerings | pkg/cloud/topology.go:105-133 | a successful refresh installs exactly the peer ranges that overlap no known local range, so that none contains a local address; without local ranges it keeps all valid ones; a failed one changes nothing |
| Topology.LocalIsNeverPeering | pkg/cloud/topology.go:117-128 | after a refresh no address inside a known local range is classified as VPC peering |
| Topology.ForeignPeerStaysPeering | pkg/cloud/topology.go:114-131 | an address of a peer range that shares nothing with the local ranges still is, unless an earlier rule or longer prefix claims it |
| Topology.BilledAsExactlyWhen | pkg/classifier/traffic.go:175-346 | exactly which flows are billed as peering, transit gateway, endpoint, NAT gateway and internet egress |
| Topology.InsideAsExactlyWhen | pkg/classifier/traffic.go:175-325 | exactly which flows are sidecar-internal, node-internal, unknown, same-zone, cross-AZ and cross-region, and which zones the result names |
| Topology.ZonesDecide | pkg/classifier/traffic.go:297-325 | between named zones, one zone is same-zone, two zones of one region cross-AZ, zones of two regions cross-region |
| Topology.ZonesOfOneRegion | pkg/classifier/traffic.go:442-475 | zones of one region compare as one region in the three naming schemes |
| Topology.ReturnedAsItIsIff | pkg/classifier/traffic.go:446-475 | exactly the names without a zone letter and without a dash past their first character are returned unchanged |
| Topology.BareRegionsAreCut | pkg/classifier/traffic.go:472-474 | the bare names us-east-1 and us-east-2 are both cut to us-east |
| Topology.PrivateExactly | pkg/classifier/traffic.go:437-440 | private is exactly RFC 1918 space, loopback and link-local |
| Topology.SharedSpaceIsPublic | pkg/classifier/traffic.go:437-440 | an RFC 6598 address that no rule claims is billed as internet or NAT egress |
| EndpointIndex.Informer.OnEndpointSlice | pkg/k8s/informer.go:456-506 | the slice's old contributions are replaced by its current ones; only the informer's own fields are assigned, so no published list is written |
| EndpointIndex.Informer.LookupService | pkg/k8s/informer.go:247-251 | hands out the published list of an address |
| EndpointIndex.Informer.AddEndpoint | pkg/k8s/informer.go:488-498 | publishes a fresh list with the entry appended |
| EndpointIndex.Informer.AddSlice | pkg/k8s/informer.go:476-502 | adds one entry per endpoint, address and numbered port, and records them |
| EndpointIndex.Informer.RemoveSliceLocked | pkg/k8s/informer.go:508-544 | removes one matching entry per contribution of the slice and forgets the slice |
| EndpointIndex.Informer.RemoveEndpoint | pkg/k8s/informer.go:516-543 | publishes a fresh list without the first matching entry, or drops an emptied address |
| EndpointIndex.Informer.OnEndpointSliceDelete | pkg/k8s/informer.go:546-564 | removes a deleted slice; a tombstone without one changes nothing |
| EndpointIndex.ListsAreTheSlicesSum | pkg/k8s/informer.go:463-544 | after any sequence of events each address's list is, as a multiset, the sum of what the latest versions of the live slices contribute, and is absent when empty |
| EndpointIndex.ContributedExactly | pkg/k8s/informer.go:470-502 | a labelled slice contributes exactly its addresses with its service and numbered ports; an unlabelled one nothing |
| EndpointIndex.FoundExactlyWhenContributed | pkg/k8s/informer.go:463-544 | after any sequence of events a service is found at an address exactly when some live slice's latest version contributes it there |
| EndpointIndex.KeysDiffer | pkg/k8s/informer.go:457 | slices of different namespace or name have different keys, namespaces holding no slash |
| EndpointIndex.FoundExactlyWhenLatest | pkg/k8s/informer.go:456-544 | the same by namespace and name: found exactly when the latest version of some slice contributes it |
| EndpointIndex.OtherSlicesKeepTheirEntries | pkg/k8s/informer.go:463-467 | an event of a slice leaves every entry of every slice with another namespace or name in its list |
| EndpointIndex.SiblingsSurvive | pkg/k8s/informer.go:463-467 | an event of one slice never takes away what another live slice contributes |
| EndpointIndex.ReaderKeepsItsList | pkg/k8s/informer.go:488-498 | a list handed to a reader reads the same after any later events |
| IntentCache.Cache.Put | pkg/intent/cache.go:62-72 | the entry joins the current generation, after a rotation when that one is full, and leaves the previous one |
| IntentCache.Cache.Get | pkg/intent/cache.go:74-83 | the current generation's entry, else the previous one's |
| IntentCache.Cache.Delete | pkg/intent/cache.go:85-91 | removes the key from both generations |
| IntentCache.Cache.Len | pkg/intent/cache.go:93-98 | counts the distinct keys of both generations, at most twice the maximum |
| IntentCache.RunsStayBounded | pkg/intent/cache.go:37-42 | in any run the generations stay disjoint and hold at most 2 * max entries |
| IntentCache.NeverStale | pkg/intent/cache.go:74-91 | whatever Get finds is the latest Put that no Delete followed |
| IntentCache.PutSurvives | pkg/intent/cache.go:37-42 | an entry outlives any max further Puts, if its key is not deleted |
| IntentCache.OneMoreMayDrop | pkg/intent/cache.go:66-69 | max + 1 further Puts can push it out, for every max |
| EvictionRing.CacheBound | pkg/dns/tracker.go:286-300 | for any insertions fewer than N keys are outside the ring and the table holds at most 2N - 1 |
| EvictionRing.WithinCapacityIff | pkg/dns/tracker.go:286-298 | over a run the ring length is the capacity throughout exactly when every insert finds room or a victim in the oldest slot |
| EvictionRing.FifoWhenAllNew | pkg/dns/tracker.go:71-74 | when every inserted key is new, the table is exactly the newest N of them |
| DnsRing.BoundIsReached | pkg/dns/tracker.go:286-300 | the bound 2N - 1 is reached for every ring length |
| DnsTracker.Tracker.CacheInsert | pkg/dns/tracker.go:265-309 | caches, evicts through the ring and counts the query; surviving entries of other addresses are untouched; an invalid address or empty domain changes nothing |
| DnsTracker.Tracker.Advance | pkg/dns/tracker.go:299-300 | rewrites the oldest slot and makes it the newest, wrapping around |
| DnsTracker.Tracker.EvictLowestCount | pkg/dns/tracker.go:311-331 | drops one domain with the fewest observations |
| DnsTracker.Tracker.Lookup | pkg/dns/tracker.go:142-157 | the unexpired entry's domain, and its service or else the domain |
| DnsTracker.JustInsertedIsCachedUnless | pkg/dns/tracker.go:293-299 | an insert evicts its own address exactly when the table was over capacity and the oldest slot named it |
| DnsTracker.AnswerLives | pkg/dns/tracker.go:265-284 | a cached answer is given out for at least the minimum and at most the maximum lifetime, and for its own when that lies between |
| DnsTracker.CountersCountQueries | pkg/dns/tracker.go:302-308 | a counter is never ahead of its domain's queries, and with no more domains than counters each is exact |
| DnsTracker.OnlyALeastSeenLeaves | pkg/dns/tracker.go:311-331 | a query drops a domain only when the counters are full, one at most, and none that was seen more often than a kept one |
| PodMetrics.Exporter.UpdateFromPoll | pkg/exporter/prometheus.go:275-337 | a poll counts every flow in turn on the per-type, per-pod and sidecar counters |
| PodMetrics.Exporter.AddToType | pkg/exporter/prometheus.go:292-308 | the type's counters, unknown types counting as type 0, cost only when positive |
| PodMetrics.Exporter.AdmitPod | pkg/exporter/prometheus.go:314-327 | a new pod takes the oldest slot and, at capacity, drops that slot's pod with its cost |
| PodMetrics.AdmitInserts | pkg/exporter/prometheus.go:314-327 | the pod table stays equal to the used ring slots, each once |
| PodMetrics.OldestPodLeaves | pkg/exporter/prometheus.go:316-322 | only the pod of the oldest slot of a full table leaves, and none while there is room |
| PodMetrics.PodsLeaveInOrder | pkg/exporter/prometheus.go:314-327 | over any run of polls the table and its ring are a FIFO of the admitted pods in first-seen order: exactly the newest are present |
| PodMetrics.PollsAreAccountedFor | pkg/exporter/prometheus.go:275-337 | over any run of polls: the table is the ring and bounded by it; per-type totals are the billed input; live, evicted and unattributed make them up exactly; skipped sidecar bytes are the rest |
| PodMetrics.TypesCountTheirFlows | pkg/exporter/prometheus.go:287-308 | each type's byte and dollar counters are the sums over the flows of that type, unknown types counting as type 0 |
| PodMetrics.PodsCountTheirFlows | pkg/exporter/prometheus.go:310-334 | a pod in the table counts exactly its own flows since one of them last let it in |
| PodMetrics.NamelessAreCounted | pkg/exporter/prometheus.go:310-312 | the unattributed part of the totals is exactly what flows without a namespace or pod brought |

## Left out

- ServiceGraph.ServiceGraph.AttributeFrom: does not model rounding to cents, the contributor list with its sort and TopN, or AttributeAll, which only repeats it.
- ServiceGraph.ServiceGraph.Chokepoints: does not model rounding, the sort by score or the limit.
- FlowLedger.BytesAreAccountedFor: connection and retransmit counters are not part of the ledger; sidecar detection and the sampling decision are parameters of the hooks.
- FlowLedger.ConnsStayBalanced: an eviction from the LRU table may happen at any step instead of only under pressure, which allows more runs than the kernel does.
- Hooks.Kernel.HandleEstablished: connection counts, sidecar marking, process names and cgroup ids are not modelled, and recorded destinations leave only as the hooks remove them, not by LRU eviction; the IPv6 connect hook differs only in its address.
- ShutdownOrder.FinalFlushDelivers: components that never started (nil shutdown steps) are not modelled.
- Poller.PollIterate: the lossy lookup-then-delete fallback for old kernels, the batch call's buffers and the QUIC map's own drain, which has the same two phases, are not modelled.
- Classifier.PrefixTree.Add: appending always moves to a new array; spare capacity is not modelled.
- DnsTracker.Tracker.CacheInsert: packet parsing, the service mapper and locking are parameters or left out.
- PodMetrics.Exporter.UpdateFromPoll: the connection snapshot, retransmit counters and text output are not modelled.
- 64-bit wrap-around of byte counters, and floating-point rounding of dollars and responsibilities.
- IPv6 zones and IPv4-mapped addresses in prefixes; flows carry IPv4 addresses only, as in the classifier's input.
- Torn additions, stale map pointers, the QUIC packet parser, and BPF verifier concerns.
- The meter's string keys: provider, region and traffic type are kept apart instead of being joined by colons.
- All input and output: the cloud APIs, Kubernetes, NATS, ClickHouse, Prometheus scraping, and the ring-buffer readers.
- Governance, reconciliation, terraform estimates and configuration defaults, which would only add easy members.
