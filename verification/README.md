# OmniStack: a verified model of the packet path

OmniStack is a run-to-completion packet stack.  One worker per core polls source modules, pushes
`(node, packet)` tasks on a fixed-size stack and drains that stack through a module graph; packets
end in a pool or in a NIC transmit batch.  This project models that path in Dafny 4.11 and proves
what holds over whole runs:

* every packet reference is accounted for between any two polls or drain iterations of every run,
  also when several workers share the pool, and nothing is released twice (`Packets`, `Scheduler`,
  `Runs`, `Cluster`, `Interlock`);
* the LIFO drain is recursive run-to-completion, and ends from a given stack exactly when no task
  names a node from which packets can be forwarded forever (`Scheduler`, `Acyclic`, `GraphBuild`);
* how high the task stack gets, for every graph, cyclic or not, from a given stack and over whole
  runs: the exact capacity it needs, and exactly when there is one (`Growth`, `Runs`, `Heights`);
* transmission is exactly-once and FIFO under partial NIC writes, with mbufs finished and the pool
  used by others at any moment; mbufs are never attached while in flight, and a completed flush
  leaves nothing pending (`Transmit`, `FlushSet`, `IoNode`);
* header push and pop stay in bounds and agree, up to an exact condition on stale buffer contents
  (`Headers`);
* thread ids are unique over every honest trace, so cache slots never overlap (`ThreadIds`,
  `CacheSlots`); start-up is safe in every interleaving (`Startup`);
* route selection is longest match, route masks are CIDR prefixes exactly at whole octets below
  32, and addresses survive printing and parsing (`Routing`, `Address`, over the bit operators of
  `Words`).

Code that updates state in place is a class (`Worker`, `Dpdk`, `IoNode`, `PacketBuffer`,
`Allocator`, `MemoryPool`).  Its methods are proved to compute functions on values, or to be runs of
steps on values, and the properties are proved of those.  `dafny verify dfyconfig.toml` checks
everything.

## Environment and hypotheses

What a module decides from packet bytes, what the NIC reports, what allocators grant and how threads
are scheduled are arbitrary inputs (functions of a call count, event sequences, schedules).  The
driver's contracts are hypotheses: a mempool get yields distinct free objects or nothing, a receive
burst yields at most 64 distinct mbufs nobody holds, a transmit burst accepts any prefix and keeps
making progress.  Conservation is claimed for graphs whose polled nodes have exactly one out-link and
whose forwarding nodes have at least one; each condition is exact for the step it concerns.  Exact
heights of whole runs are claimed over a pool with a full burst of free packets for every poll.
Integer arithmetic is that of a release build: subtraction, 16-bit sums and 32-bit shift amounts wrap.

## Where the code falls short of what it is for

Each of these is proved, with the exact condition under which the code does meet the property.

* Nothing stops the task stack from growing.  `Graph::new` and `Worker::new` accept a module that
  forwards to itself twice, and one burst of packets then runs past the 2048 slots of the array
  (`GraphBuild.DoublingConfigured`, `GraphBuild.DoublingDeployable`, `Runs.DoublingRun`).  A run stays
  within a given array exactly when every live walk out of what a poll phase can leave does
  (`Heights.RunsWithinIff`), and is bounded at all exactly when no growing cycle is within live reach
  of a polled link that can become active (`Heights.RunsBoundedIff`); from a given stack likewise
  (`Growth.OverrunIff`, `Growth.BoundedFromIff`).
* Nothing stops the drain from running forever: it ends from a stack exactly when no task names a node
  in a trap (`Acyclic.HaltsFromIff`).
* The poll phase copies a chain to every out-link without raising counters, so the books balance
  exactly when the polled node has one (`Runs.PollLinksIff`); forwarding along no link leaks a packet
  held by nobody else (`Packets.ForkConservesIff`).
* `set_version` and `set_ihl` or into the nibbles the getters of the other field read, on a byte that
  is not cleared.  The receiver drops the sender's frames exactly when the stale low nibble was 0 or
  4, which includes every zeroed buffer and every reuse of one (`Headers.RoundTripIff`,
  `Headers.ReuseKeepsOutcome`); the packets the user node makes are such (`Headers.UserPacketDropped`).
  The total length of a received frame is not checked (`Headers.RecvWindowInsideIff`).
* A /32 route gets an empty mask and matches everything, and partial-octet masks take the wrong bits
  (`Routing.MatchIsCidrIff`); a default route is never taken (`Routing.SelectsBestMatchIff`,
  `Routing.DefaultRouteMissed`); the nic of a route is used as an index unchecked
  (`Routing.SelectionInRangeIff`).
* `from_str` indexes out of bounds on a fifth octet and ignores a fifth part that is not one
  (`Address.FifthPart`, `Address.FifthOctetPanics`).
* The once-guard around `port_init` is per process, so start-up with NICs on different ports cannot
  succeed and can panic (`Startup.ComesUpIff`, `Startup.PanicsIff`, `Startup.TwoPortsPanic`).  A port
  gets one queue per cpu of one graph entry while every I/O node of every worker draws a queue id: the
  ids fit exactly when at most one entry initialises I/O nodes and its graph has exactly one
  (`Startup.QueuesFitIff`, `Startup.TwoEntriesOverflow`, `Startup.TwoIoNodesOverflow`).
* The server frees whatever id a client names: ids stay unique afterwards exactly when no other live
  thread holds it (`ThreadIds.ForeignExitIff`, `ThreadIds.ForeignExitWitness`).
* A receive the packet pool cannot serve whole loses mbufs (`Packets.RecvBurstConservesIff`, `Packets.RecvLoses`,
  `Packets.CanReceiveIff`, `Packets.EmptyPoolLosesMbuf`), and whether a flush fails depends on how fast
  the NIC finishes, unless the pool covers the batch from the start (`Transmit.FlushMeaning`,
  `Transmit.FlushSafeIff`, `Transmit.CompletionsDecide`).

## Model

| member | source | states |
|---|---|---|
| `Packets.DeallocateConserves` | omnistack-core/src/packet.rs:150-162 | dropping a reference keeps every count right; the packet reaches the pool exactly at its last reference and its receive mbuf is freed exactly then |
| `Packets.FreshConserved` | omnistack-core/src/packet.rs:100-110 | the books balance over a freshly initialised pool of any size, where every run starts |
| `Packets.ForkConservesIff` | omnistack-core/src/engine.rs:288-297 | turning one reference into one per out-link keeps the books if and only if there is an out-link or another reference |
| `Packets.CompleteConserves` | omnistack-core/src/modules/dpdk.rs:230-233 | any order of free callbacks keeps the books |
| `Packets.CompleteReleases` | omnistack-core/src/modules/dpdk.rs:230-233 | every reported transmission is released: a packet keeps as many outstanding references as were held less those reported |
| `Packets.CompleteFrees` | omnistack-core/src/modules/dpdk.rs:230-233 | a packet is in the pool after the callbacks exactly when it was before or none of its references remains |
| `Packets.FillFromChain` | omnistack-core/src/modules/dpdk.rs:422-454 | the reverse loop builds a terminated list in buffer order of distinct packets that left the pool, each with its buffer |
| `Packets.FillFromBalanced` | omnistack-core/src/packet.rs:101-162 | every packet taken from the pool starts with exactly one reference although the counter is never written |
| `Packets.UserBurstConserves` | omnistack-core/src/user.rs:37-59 | a user burst succeeds exactly when the allocator grants 32 packets, changes nothing otherwise, and keeps the books |
| `Packets.GrantableIff` | omnistack-core/src/packet.rs:137-148 | some grant of n packets is possible if and only if n are free |
| `Packets.RecvBurstConservesIff` | omnistack-core/src/modules/dpdk.rs:409-455 | a receive succeeds, and keeps the books, if and only if the picks are distinct free packets; then it is a chain in buffer order, packet i carrying mbuf i; otherwise mbufs are lost |
| `Packets.CanReceiveIff` | omnistack-core/src/modules/dpdk.rs:409-455 | some allocator answers let a receive succeed if and only if the pool holds as many packets as mbufs arrive |
| `Packets.RecvLoses` | omnistack-core/src/modules/dpdk.rs:424-434 | a failed receive loses exactly the mbufs up to the first, from the end, that gets no packet |
| `Packets.EmptyPoolLosesMbuf` | omnistack-core/src/modules/dpdk.rs:424-434 | with an empty pool one received mbuf is lost |
| `Scheduler.After` | omnistack-core/src/engine.rs:283-295 | after any number of drain steps every task names an existing node |
| `Scheduler.ProcessMeaning` | omnistack-core/src/engine.rs:287-300 | module by module what becomes of the reference: the I/O node hands it to the driver and alone can end the run, the user node and the IPv4 receiver on a bad header release it, all others turn it into one per link with one task each |
| `Scheduler.CallbacksAfter` | omnistack-core/src/modules/dpdk.rs:230-233 | transmissions that finish during the call are released on top of that |
| `Runs.PollAll` | omnistack-core/src/engine.rs:256-278 | so it does after any poll phase |
| `Runs.Rounds` | omnistack-core/src/engine.rs:254-302 | and after any number of rounds |
| `Runs.PollMeaning` | omnistack-core/src/nio.rs:128-151 | what a poll yields, module by module: a user burst or an error, an error when the flush fails, nothing when nothing arrived, the burst or an error otherwise |
| `Runs.PollStepMeaning` | omnistack-core/src/engine.rs:256-278 | an error ends the run and nothing else does; only a chain pushes tasks, copy i of it for link i, packet j in place j |
| `Runs.FanChainAt` | omnistack-core/src/engine.rs:261-273 | which task stands where in the fan-out of a chain |
| `Scheduler.StepAccounted` | omnistack-core/src/engine.rs:280-301 | one drain iteration keeps every counter equal to queued tasks plus transmit references |
| `Scheduler.StepConserves` | omnistack-core/src/engine.rs:280-301 | the same whoever holds the other references |
| `Scheduler.DrainAccounted` | omnistack-core/src/engine.rs:280-301 | the same between any two drain steps of any run, over an unchanged universe of packets |
| `Scheduler.DrainTerminates` | omnistack-core/src/engine.rs:280-301 | the drain halts within the static work of its stack whatever the environment answers |
| `Scheduler.DrainCallsBound` | omnistack-core/src/engine.rs:280-301 | it makes at most that many process calls |
| `Scheduler.DrainCallsExact` | omnistack-core/src/engine.rs:280-301 | it makes exactly that many when nothing is dropped |
| `Scheduler.DrainIsRunToCompletion` | omnistack-core/src/engine.rs:280-301 | the LIFO drain equals recursive run-to-completion, links last-first: same calls in the same order, same memory, same outcome |
| `Scheduler.PeakBoundsRun` | omnistack-core/src/engine.rs:283-295 | no environment drives the stack above its peak |
| `Scheduler.PeakReached` | omnistack-core/src/engine.rs:288-297 | the environment that drops nothing reaches the peak |
| `Scheduler.StackSafeIff` | omnistack-core/src/engine.rs:201-201 | an array of any capacity is never overrun under any environment if and only if the peak fits |
| `Scheduler.PeakAllBound` | omnistack-core/src/engine.rs:256-301 | the peak of P tasks is at most P + (F - 1) * D for fan-out F and longest forwarding path D |
| `Growth.FinishableIff` | omnistack-core/src/engine.rs:287-300 | a node is finishable exactly when it can drop or all its links are finishable |
| `Growth.FinishableMeaning` | omnistack-core/src/engine.rs:280-301 | some environment gets rid of a task and all it causes if and only if its node is finishable; otherwise none ever brings the stack back down |
| `Growth.OverrunIff` | omnistack-core/src/engine.rs:280-301 | for every closed graph, stack and capacity: no environment overruns it if and only if no live walk out of an active task gets above it |
| `Growth.HeightReached` | omnistack-core/src/engine.rs:288-297 | the height a live walk promises is reached by some environment |
| `Growth.HeightsArePeak` | omnistack-core/src/engine.rs:280-301 | on ranked graphs that height is the peak |
| `Growth.BoundedFromIff` | omnistack-core/src/engine.rs:280-301 | from a given stack the height is bounded over all environments if and only if no growing cycle is within live reach of an active task |
| `Growth.BoundedIff` | omnistack-core/src/engine.rs:280-301 | from every stack it is if and only if no live cycle takes a link at a position above 0 |
| `Growth.HeightWithoutGrowth` | omnistack-core/src/engine.rs:280-301 | then P tasks never exceed P + f * N in a graph of N nodes and fan-out f + 1, although the drain need not end |
| `Growth.GrowingOverruns` | omnistack-core/src/engine.rs:280-301 | a growing cycle within reach drives the stack above any capacity |
| `Growth.RankedDoesNotGrow` | omnistack-core/src/engine.rs:280-301 | graphs on which the drain ends have no growing cycle |
| `Growth.DoublingGrows` | omnistack-core/src/engine.rs:288-297 | in the graph whose receiver forwards to itself twice every step adds a task |
| `Growth.DoublingIsGrowing` | omnistack-core/src/engine.rs:288-297 | that graph has a growing cycle |
| `Acyclic.TrapNeverDrains` | omnistack-core/src/engine.rs:280-301 | a task on a forwarding cycle keeps the drain going forever if nothing is dropped |
| `Acyclic.RankXorTrap` | omnistack-core/src/engine.rs:280-301 | every graph's forwarding links can be ranked or contain a trap, never both, and sieving the node set decides which |
| `Acyclic.TameRanked` | omnistack-core/src/engine.rs:280-301 | without the links out of nodes in traps every graph can be ranked |
| `Acyclic.CoreMeaning` | omnistack-core/src/engine.rs:280-301 | the sieve leaves exactly the nodes that are in some trap |
| `Acyclic.DrainHaltsIff` | omnistack-core/src/engine.rs:280-301 | the drain ends from every stack under every environment if and only if the forwarding links can be ranked |
| `Acyclic.HaltsFromIff` | omnistack-core/src/engine.rs:280-301 | from a given stack the drain ends under every environment if and only if no task names a node in a trap |
| `Acyclic.HeightBelowNodeCount` | omnistack-core/src/engine.rs:41-41 | forwarding paths are shorter than the node count |
| `Acyclic.UdpGraphDrains` | config/graph/udp.json:4-18 | the forwarding links of the shipped graph can be ranked, and polled and forwarding modules have one out-link |
| `Acyclic.UdpGraphIsCyclic` | config/graph/udp.json:9-18 | yet its links form a cycle: no ranking decreases along all of them |
| `Runs.PollConserves` | omnistack-core/src/nio.rs:128-151 | a poll that returns packets leaves each with one reference and in a terminated list of at most 64; an idle one keeps the books |
| `Runs.PollLinksIff` | omnistack-core/src/engine.rs:259-273 | after a poll phase copied a chain to the links without raising counters, the books balance if and only if there is exactly one link |
| `Runs.PollStepConserves` | omnistack-core/src/engine.rs:256-278 | polling a node with one out-link keeps the books whoever holds the other references |
| `Runs.PollStepAccounted` | omnistack-core/src/engine.rs:256-278 | polling a node with one out-link keeps every reference accounted for |
| `Runs.PollPhaseAccounted` | omnistack-core/src/engine.rs:256-278 | so does the whole poll phase |
| `Runs.PollStepHeight` | omnistack-core/src/engine.rs:256-278 | polling any node adds at most 64 tasks per out-link |
| `Runs.PollPhaseHeight` | omnistack-core/src/engine.rs:256-278 | and a poll phase at most 64 per polled out-link |
| `Runs.RunConserves` | omnistack-core/src/engine.rs:254-302 | conservation after any number of rounds of any run up to its first fatal error |
| `Runs.AlwaysAccounted` | omnistack-core/src/engine.rs:254-302 | conservation at every instant: between any two polls or drain iterations of any round, for any environment, until a fatal error |
| `Runs.RoundsAreTicks` | omnistack-core/src/engine.rs:254-302 | whole rounds are states of the run of single polls and drain iterations |
| `Runs.HeightAlways` | omnistack-core/src/engine.rs:254-302 | when no growing cycle is within reach of polled links, at every instant of every run the stack holds at most 64 tasks per polled link plus f per node, drains ending or not |
| `Runs.TaskArrayNeverOverrun` | omnistack-core/src/engine.rs:38-57 | such a graph within the worker's capacities and with at most 30 polled out-links never overruns the 2048 slots, at any instant of any run |
| `Runs.PollsNeverOverrun` | omnistack-core/src/engine.rs:256-278 | polls alone never overrun them, whatever the graph |
| `Runs.RankedIsCalm` | omnistack-core/src/engine.rs:254-302 | graphs on which the drain ends meet the hypothesis, and those conservation holds on have at most 8 polled out-links |
| `Runs.DoublingRun` | omnistack-core/src/engine.rs:254-302 | a run from an empty stack that overruns: one poll of 32 packets, then every tick adds a task |
| `Runs.UdpGraphRuns` | config/graph/udp.json:4-18 | the shipped graph meets every hypothesis of the run theorems for its poll list |
| `Runs.UdpRunConserves` | omnistack-core/src/engine.rs:254-302 | its runs from a fresh pool keep every reference accounted for, at every instant and for every environment |
| `Runs.TicksTame` | omnistack-core/src/engine.rs:254-302 | a run whose polled packets cannot be forwarded forever never uses a link out of a trap |
| `Heights.ShapesBoundRuns` | omnistack-core/src/engine.rs:254-302 | no run exceeds a capacity that the live walks out of every shape of a poll phase keep |
| `Heights.ShapeLeft` | omnistack-core/src/engine.rs:256-278 | every such shape is left by some poll phase, user nodes yielding 32 packets and I/O nodes up to 64 |
| `Heights.RunsWithinIff` | omnistack-core/src/engine.rs:254-302 | from an empty stack, for every graph, poll list and capacity: no run exceeds the capacity if and only if no live walk out of a shape does |
| `Heights.RunsBoundedIff` | omnistack-core/src/engine.rs:254-302 | the stack is bounded over all runs if and only if no growing cycle is within live reach of a polled link that can become active |
| `Cluster.ClusterConserves` | omnistack-core/src/packet.rs:116-134 | workers that share a pool keep all references accounted for in every interleaving of their polls and drain iterations, until one fails |
| `Cluster.FreshClusterConserves` | omnistack-core/src/packet.rs:100-134 | in particular any number of workers from a freshly initialised pool |
| `Cluster.TickIsLocal` | omnistack-core/src/packet.rs:116-134 | a tick of one worker is a tick of its own machine over the shared memory and leaves the others alone |
| `Cluster.AloneIsTicks` | omnistack-core/src/engine.rs:254-302 | scheduled on its own a worker runs as a single worker does |
| `GraphBuild.Find` | omnistack-core/src/engine.rs:93-104 | the first module of a name, or none exists |
| `GraphBuild.LinksOfMeaning` | omnistack-core/src/engine.rs:92-107 | a node's links are, in order, exactly the configured links whose source resolves to it, each led to the first module of its target name |
| `GraphBuild.AddLinks` | omnistack-core/src/engine.rs:92-107 | succeeds exactly when all names resolve and no node gets more than four links, and then yields those links |
| `GraphBuild.BuildGraph` | omnistack-core/src/engine.rs:82-110 | succeeds exactly on the configurations that do not panic; the result has the configured kinds and links, and every link leads to a node |
| `GraphBuild.UdpConfigured` | config/graph/udp.json:4-18 | the shipped configuration is built into the graph the theorems speak of |
| `GraphBuild.DoublingConfigured` | omnistack-core/src/engine.rs:82-110 | a configuration that forwards to itself twice is built |
| `GraphBuild.DoublingDeployable` | omnistack-core/src/engine.rs:203-252 | and it is within every capacity of the worker |
| `GraphBuild.TwoIoNodesConfigured` | omnistack-core/src/engine.rs:82-110 | a configuration that lists the I/O node twice is built |
| `Workers.Worker.constructor` | omnistack-core/src/engine.rs:203-219 | a valid worker with an empty stack |
| `Workers.Worker.CollectPolls` | omnistack-core/src/engine.rs:244-252 | the poll list is the pollable nodes in order, and fails exactly above eight |
| `Workers.Worker.Deallocate` | omnistack-core/src/packet.rs:150-162 | computes the deallocation the ownership theorems speak of |
| `Workers.Worker.RunCallbacks` | omnistack-core/src/modules/dpdk.rs:230-233 | computes the callbacks of any list of finished transmissions |
| `Workers.Worker.BuildChain` | omnistack-core/src/user.rs:43-56 | the reverse loop yields the head of a list of exactly the picks, in order, and stops where an allocation fails |
| `Workers.Worker.PollNode` | omnistack-core/src/user.rs:37-59 | computes the poll outcome of the node's module and returns the list it describes |
| `Workers.Worker.PushChain` | omnistack-core/src/engine.rs:262-272 | walking the list ends, and pushes each packet exactly once in list order, in range |
| `Workers.Worker.PushFan` | omnistack-core/src/engine.rs:261-273 | the whole chain once per link, links in order |
| `Workers.Worker.PollOne` | omnistack-core/src/engine.rs:256-278 | one poll as in Runs, in range when a burst per out-link fits |
| `Workers.Worker.PollPhase` | omnistack-core/src/engine.rs:256-278 | computes the poll phase of Runs, in range when a burst per polled out-link fits |
| `Workers.Worker.Process` | omnistack-core/src/engine.rs:287-300 | computes the handling of one task, counter update included |
| `Workers.Worker.PushLinks` | omnistack-core/src/engine.rs:290-296 | one task per out-link, in order, in range |
| `Workers.Worker.DrainOnce` | omnistack-core/src/engine.rs:281-300 | one iteration is one step of Scheduler |
| `Workers.Worker.DrainQueue` | omnistack-core/src/engine.rs:280-301 | from every stack from which it must end, the loop ends, stays in the array whenever the peak fits, and computes run-to-completion |
| `Workers.Worker.RunBody` | omnistack-core/src/engine.rs:255-302 | one round of Runs, in range, whenever polled packets cannot be forwarded forever and polled nodes have at most 30 out-links |
| `Workers.Worker.Run` | omnistack-core/src/engine.rs:254-302 | any number of rounds compute `Rounds`, in range, under the same conditions |
| `Workers.Worker.RunTicks` | omnistack-core/src/engine.rs:254-302 | the loop ends in a state of the run of single polls and drain iterations over the worker's own graph; on sound graphs every reference is accounted for there |
| `Workers.Launch` | omnistack-core/src/engine.rs:187-252 | configuration to ready worker over the configured graph with its poll list, failing exactly when a capacity is exceeded, and within all of them otherwise |
| `Workers.UdpPolls` | config/graph/udp.json:4-8 | the shipped graph polls its I/O node and its user node |
| `Transmit.OpenSlotUnused` | omnistack-core/src/modules/dpdk.rs:307-315 | the mbuf a send is about to write is neither pending nor in flight |
| `Transmit.StepAdds` | omnistack-core/src/modules/dpdk.rs:307-407 | every single step, failed refills and completions inside a flush included, keeps every mbuf in one place and changes the sent packets and references by exactly what it sends |
| `Transmit.FlushMeaning` | omnistack-core/src/modules/dpdk.rs:380-407 | however the batch is cut and whatever finishes meanwhile, a flush hands over exactly the pending packets in order; it succeeds if and only if the pool at its start, plus what comes back and less what others take before the refill, covers the batch |
| `Transmit.FlushSafeIff` | omnistack-core/src/modules/dpdk.rs:380-407 | where nobody else uses the pool, a flush succeeds under every NIC timing if and only if the pool covers the batch when it starts |
| `Transmit.CompletionsDecide` | omnistack-core/src/modules/dpdk.rs:395-404 | the same flush over the same pool fails or succeeds with the NIC finishing an mbuf before the refill |
| `Transmit.WrittenReached` | omnistack-core/src/modules/dpdk.rs:307-393 | the state before that refill is reached by a send and a burst from `LastBatch` |
| `Transmit.LastBatchReady` | omnistack-core/src/modules/dpdk.rs:264-273 | which is a driver ready to send over an empty pool |
| `Transmit.FinishMeaning` | omnistack-core/src/modules/dpdk.rs:230-233 | finishing an mbuf at any moment releases exactly the reference of the packet it was sent with |
| `Transmit.TransmitExactlyOnce` | omnistack-core/src/modules/dpdk.rs:307-407 | over any sequence of steps, accepted then pending packets equal the packets sent in order, releases plus outstanding equal sends, and every mbuf is in exactly one place, none lost |
| `Transmit.Dpdk.Init` | omnistack-core/src/modules/dpdk.rs:264-273 | succeeds exactly when the pool fills the buffer, and then the driver is ready |
| `Transmit.Dpdk.TxBurst` | omnistack-core/src/modules/dpdk.rs:389-392 | a partial write is one step that moves exactly the next mbufs |
| `Transmit.Dpdk.WriteOut` | omnistack-core/src/modules/dpdk.rs:385-393 | however the NIC cuts the batch and whatever happens meanwhile, the loop ends with the whole batch handed over |
| `Transmit.Dpdk.AllocBulk` | omnistack-core/src/modules/dpdk.rs:395-404 | refills the first n slots from the pool, or changes nothing |
| `Transmit.Dpdk.RefillSlots` | omnistack-core/src/modules/dpdk.rs:395-407 | the refill step, reporting whether it worked |
| `Transmit.Dpdk.Elsewhere` | omnistack-core/src/modules/dpdk.rs:230-233 | a completion or a use of the pool by others, as a step |
| `Transmit.Dpdk.Flush` | omnistack-core/src/modules/dpdk.rs:380-407 | a run of steps that sends nothing and leaves nothing pending; success as in FlushMeaning |
| `Transmit.Dpdk.AttachNext` | omnistack-core/src/modules/dpdk.rs:307-369 | fills the open slot, one step |
| `Transmit.Dpdk.Send` | omnistack-core/src/modules/dpdk.rs:307-378 | a run of steps that sends exactly its packet; fails only when it fills the batch and the refill fails |
| `Interlock.SendInterlocks` | omnistack-core/src/nio.rs:109-126 | a send turns the caller's reference into a transmit reference, and no later burst or refill, failed or not, adds or loses one |
| `Interlock.FinishInterlocks` | omnistack-core/src/modules/dpdk.rs:230-233 | a free callback, inside a flush or not, is exactly one deallocation of the right packet and keeps the books |
| `Interlock.DriverRunConserves` | omnistack-core/src/modules/dpdk.rs:307-407 | conservation of packets over any sequence of steps, successful or not |
| `FlushSet.SetRepresents` | omnistack-core/src/nio.rs:118-123 | the bit test is set membership and setting the bit adds the adapter |
| `FlushSet.ToggleRepresents` | omnistack-core/src/nio.rs:132-133 | toggling a set bit removes the adapter |
| `FlushSet.MarkAgrees` | omnistack-core/src/nio.rs:118-123 | mask and stack keep listing the same adapters, each once, and an unmarked adapter finds room |
| `FlushSet.UnmarkAgrees` | omnistack-core/src/nio.rs:129-133 | popping and toggling keep the agreement |
| `FlushSet.EmptyAgrees` | omnistack-core/src/nio.rs:129-141 | the stack is empty if and only if the mask is zero |
| `IoNodes.IoNode.constructor` | omnistack-core/src/nio.rs:64-74 | a fresh node over ready adapters is valid |
| `IoNodes.IoNode.MarkNic` | omnistack-core/src/nio.rs:118-123 | adds the adapter to the set and keeps the representations in agreement, in range |
| `IoNodes.IoNode.UnmarkTop` | omnistack-core/src/nio.rs:129-133 | removes exactly the top adapter |
| `IoNodes.IoNode.Process` | omnistack-core/src/nio.rs:109-126 | appends exactly the packet to what its adapter has sent and marks it, keeping every adapter with pending transmits marked; it fails only on a full batch that the pool does not cover, and then leaves the marks alone |
| `IoNodes.IoNode.FlushTop` | omnistack-core/src/nio.rs:129-141 | unmarks and flushes exactly the top adapter; an error exactly when its refill fails |
| `IoNodes.IoNode.FlushAll` | omnistack-core/src/nio.rs:128-141 | succeeds exactly when every marked adapter's pool, with what comes and goes, covers its batch; then the mask is zero and on every adapter exactly the packets sent have reached the NIC, in order; an error means a refill failed |
| `Headers.SendFitsIff` | omnistack-core/src/modules/udp.rs:16-27 | the send chain stays in the buffer if and only if the payload starts at 42 or later |
| `Headers.SendLayout` | omnistack-core/src/modules/ipv4.rs:47-63 | the whole resulting packet: three adjacent headers ending at the payload, end fixed, all other bytes untouched |
| `Headers.FrameFields` | omnistack-core/src/modules/ipv4.rs:52-63 | the fields the receiver reads: IP total length n + 28, UDP length n + 8, ttl 255 |
| `Headers.WireFields` | omnistack-core/src/modules/ipv4.rs:53-64 | every header field of the frame at its protocol's position: Ethernet addresses and type, all of IPv4, UDP ports and length |
| `Headers.IhlReadsBack` | omnistack-core/src/protocol.rs:162-188 | ihl() after both setters is the stale low nibble with bit 2 set |
| `Headers.VersionNibbles` | omnistack-core/src/protocol.rs:162-188 | both nibbles of the version byte after the two setters, on any stale byte |
| `Headers.RecvWindow` | omnistack-core/src/modules/ipv4.rs:76-91 | the receive chain passes any frame on exactly when ihl >= 5 and ttl is not 0, and its window starts behind the headers and ends at the total length, both modulo 2^16, whatever the padding |
| `Headers.RecvWindowInsideIff` | omnistack-core/src/modules/ipv4.rs:76-91 | for every total length, that window lies in the received bytes if and only if 4 ihl + 8 <= tot_len <= received - 14 |
| `Headers.RoundTripIff` | omnistack-core/src/modules/eth.rs:39-45 | a sent frame, with any checksums filled in and any padding, is passed on if and only if the stale nibble was not 0 or 4, and restores the payload window if and only if it was 1 or 5 |
| `Headers.RoundTripPayload` | omnistack-core/src/modules/udp.rs:37-43 | then the payload bytes are the original ones |
| `Headers.UserPacketDropped` | omnistack-core/src/user.rs:48-53 | a packet the user node makes in a zeroed buffer is received and dropped |
| `Headers.ReuseKeepsOutcome` | omnistack-core/src/protocol.rs:177-188 | the outcome is the same for every reuse of the buffer |
| `Headers.PacketBuffer.Store` | omnistack-core/src/packet.rs:74-92 | writes exactly the header's bytes |
| `Headers.PacketBuffer.UdpSenderProcess` | omnistack-core/src/modules/udp.rs:16-27 | computes the UDP push |
| `Headers.PacketBuffer.Ipv4SenderProcess` | omnistack-core/src/modules/ipv4.rs:48-63 | computes the IPv4 push |
| `Headers.PacketBuffer.EthSenderProcess` | omnistack-core/src/modules/eth.rs:17-29 | computes the Ethernet push |
| `Headers.PacketBuffer.EthReceiverProcess` | omnistack-core/src/modules/eth.rs:39-45 | computes the Ethernet pop |
| `Headers.PacketBuffer.Ipv4ReceiverProcess` | omnistack-core/src/modules/ipv4.rs:76-91 | computes the IPv4 pop and the drop decision |
| `Headers.PacketBuffer.UdpReceiverProcess` | omnistack-core/src/modules/udp.rs:37-43 | computes the UDP pop |
| `ThreadIds.NextMeaning` | omnistack-core/src/service.rs:223-238 | next gives the cyclically first unused id and takes only it; it fails exactly when all 2048 are used, and then changes nothing |
| `ThreadIds.TraceConsistent` | omnistack-core/src/service.rs:114-123 | over every trace of enters and exits of live ids, live ids are distinct, below 2048, and exactly the used ones |
| `ThreadIds.ForeignExitIff` | omnistack-core/src/service.rs:118-121 | after any exit of any thread with any id, live ids stay distinct over all honest continuations if and only if no other live thread holds the id |
| `ThreadIds.ForeignExitWitness` | omnistack-core/src/service.rs:114-123 | from the initial server: an exit naming another thread's id leads to a shared id |
| `ThreadIds.Allocator.NextId` | omnistack-core/src/service.rs:223-238 | the loop computes next |
| `ThreadIds.Allocator.FreeId` | omnistack-core/src/service.rs:240-242 | computes free, with the out-of-range panic as failure |
| `CacheSlots.SlotsInZone` | omnistack-core/src/memory.rs:62-72 | every slot lies behind the header and inside the zone, and slots are disjoint if and only if the ids differ |
| `CacheSlots.LastSlotInsideIff` | omnistack-core/src/memory.rs:95-102 | for any zone start, the slots fit if and only if the start is no further past a cache line than the header's padding |
| `CacheSlots.LiveThreadsHaveOwnSlots` | omnistack-core/src/memory.rs:113-120 | no two live threads share a slot after any honest trace |
| `CacheSlots.MemoryPool.CreateCache` | omnistack-core/src/memory.rs:113-120 | writes one thread's slot and no other |
| `CacheSlots.MemoryPool.AllocationCache` | omnistack-core/src/memory.rs:166-169 | allocation reads the thread's slot |
| `CacheSlots.MemoryPool.DeallocationCache` | omnistack-core/src/memory.rs:140-151 | deallocation reads the same slot through the mempool's private data |
| `Startup.RunSafe` | omnistack-core/src/modules/dpdk.rs:235-258 | every interleaving keeps the queue and once-guard invariants |
| `Startup.QueueIds` | omnistack-core/src/nio.rs:77-107 | once all k I/O nodes have drawn, their queue ids are exactly 0..k-1, and they fit the count the port was configured with if and only if that is at least k |
| `Startup.QueuesFitIff` | omnistack-core/src/nio.rs:80-83 | with one id drawn per I/O node and counts taken from its graph entry, they fit if and only if at most one entry initialises I/O nodes and its graph has exactly one |
| `Startup.OneEntryFits` | omnistack-core/src/nio.rs:80-83 | the ids of one entry whose graph has one I/O node always fit |
| `Startup.TwoEntriesOverflow` | omnistack-core/src/nio.rs:80-83 | with two entries of one cpu and one I/O node each somebody draws queue 1 of a port with one queue |
| `Startup.TwoIoNodesOverflow` | omnistack-core/src/engine.rs:244-245 | so does the second I/O node of a single worker, in the only order it can take |
| `Startup.NobodyPastUnfinishedInit` | omnistack-core/src/modules/dpdk.rs:246-254 | port_init is called at most once and nobody is past adapter initialisation before it has finished |
| `Startup.InitialiserConfigures` | omnistack-core/src/modules/dpdk.rs:246-254 | in every interleaving the one port configured is that of the first NIC, with the queue count of the I/O node seen inside port_init |
| `Startup.StartupNeedsOnePort` | omnistack-core/src/modules/dpdk.rs:246-262 | an I/O node comes up only if all NICs share a port, and panics only if they do not |
| `Startup.ComesUpIff` | omnistack-core/src/modules/dpdk.rs:246-262 | some schedule brings an I/O node up, after those before it in its worker, if and only if all NICs share a port |
| `Startup.PanicsIff` | omnistack-core/src/modules/dpdk.rs:246-262 | some schedule panics over a missing pool if and only if the NICs are on different ports and the I/O node is its worker's first |
| `Startup.TwoPortsPanic` | omnistack-core/src/modules/dpdk.rs:246-262 | one I/O node on ports 0 and 1 can panic and cannot come up |
| `Routing.MatchMeaning` | omnistack-core/src/protocol.rs:201-216 | for cidr up to 31 a match is agreement modulo 2^cidr; a /32 route matches everything |
| `Routing.MatchesNest` | omnistack-core/src/protocol.rs:214-216 | two routes that match an address agree on the shorter mask |
| `Routing.MatchIsCidrIff` | omnistack-core/src/protocol.rs:201-216 | matching is CIDR prefix matching for all 32-bit addresses if and only if cidr is 0, 8, 16 or 24 |
| `Routing.ScanMeaning` | omnistack-core/src/modules/ipv4.rs:37-45 | the scan holds the earliest matching route of the largest positive cidr, or nothing |
| `Routing.Select` | omnistack-core/src/modules/ipv4.rs:37-47 | the loop yields that route's nic, or 0 |
| `Routing.ConfiguredSelection` | omnistack-core/src/modules/ipv4.rs:37-47 | over configured networks: the nic of the earliest one of the largest positive cidr that agrees with the address modulo 2^cidr (a /32 always does), and 0 if there is none |
| `Routing.SelectionIgnoresOrder` | omnistack-core/src/modules/ipv4.rs:40-45 | with distinct cidrs the choice is the same for every order of the table |
| `Routing.SelectsBestMatchIff` | omnistack-core/src/modules/ipv4.rs:37-47 | the code takes the best match if and only if that is not a default route to a nic other than 0 |
| `Routing.DefaultRouteMissed` | omnistack-core/src/modules/ipv4.rs:37-47 | with one default route to nic 1, nic 0 is taken |
| `Routing.SelectionInRangeIff` | omnistack-core/src/nio.rs:109-116 | the selected nic is in range of the adapters if and only if there is one and the longest match leads to one |
| `Address.PrintParseRoundTrip` | omnistack-core/src/protocol.rs:43-105 | parsing a printed address gives it back |
| `Address.Parse8Meaning` | omnistack-core/src/protocol.rs:86-91 | an octet is an optional plus sign and a non-empty list of digits of decimal value at most 255, and is read as that value |
| `Address.Print8Meaning` | omnistack-core/src/protocol.rs:42-50 | an octet is printed as its decimal digits without leading zeros |
| `Address.SplitMeaning` | omnistack-core/src/protocol.rs:87-87 | the parts are what lies between the dots, empty ones included |
| `Address.AcceptsIff` | omnistack-core/src/protocol.rs:86-104 | a string is accepted if and only if exactly its first four parts are octets, and panics if and only if the fifth is one too |
| `Address.FifthPart` | omnistack-core/src/protocol.rs:91-97 | what a fifth part does, for every address and every such part |
| `Address.FifthOctetPanics` | omnistack-core/src/protocol.rs:91-97 | every address followed by a fifth octet panics |
| `Address.Parse` | omnistack-core/src/protocol.rs:86-104 | the loop computes that, including the out-of-bounds panic |
| `Address.ByteOrderRoundTrip` | omnistack-core/src/protocol.rs:57-74 | from_be undoes to_u32_be in both directions |
| `Address.WordOctets` | omnistack-core/src/protocol.rs:66-74 | which octet each byte of the two words is |

## Left out

- Workers.Worker.Run: asks that polled packets cannot be forwarded forever, because otherwise the loop need not end; what holds there is stated of single iterations (`Workers.Worker.DrainOnce`) and of ticks (`Heights.RunsWithinIff`, `Runs.AlwaysAccounted`).
- Runs.TaskArrayNeverOverrun: a closed form for up to 30 polled out-links; for 31 and 32, where polls alone nearly fill the array, the exact condition is `Heights.RunsWithinIff` with capacity 2048.
- IoNodes.IoNode.Process: asks for a nic below the adapter count, which the code does not check; `Routing.SelectionInRangeIff` says when the route table guarantees it.
- CacheSlots.MemoryPool.DeallocationCache: finding the pool from the object header is not modelled, only the slot read through the pool's private data.
- Interleavings finer than a poll or a `process` call of another worker: a call on shared packet memory is one step.
- Completions on other adapters while one adapter sends or flushes: they are steps of those adapters between their own calls.
- Growth of `refcnt` past the width of `usize` is not modelled: it would take 2^64 simultaneous references.
- Which of several adapters a poll receives from: a poll is modelled as one burst, whichever adapter delivered it.
- NICs that stop making progress: the flush loop is proved to end for NICs that keep accepting something now and then.
- Byte-level effects when one packet is fanned out to several header-writing modules: header properties are stated for linear chains.
- Packet fields that do not affect ownership, headers or routing: iova, flow hash, offload flags, checksums.
- Building rust-dpdk-sys, ring channels and EAL start: thin wrappers and code generation.
- Configuration files and the command line: parsed modules, links, routes and NICs are inputs.
- Socket and event handling of the server: only the state changes of entering and leaving threads are modelled.
- Device configuration, RSS and statistics: opaque hardware behaviour and plumbing.
- Runs after an allocation failure, and mempool caches recreated for a reused thread id.
- The socket API crate, whose bodies are unimplemented.
