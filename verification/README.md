# A verified model of DAGEE

DAGEE turns graphs of GPU tasks into work for asynchronous runtimes. This Dafny project models its schedulers and the hard
sequential code around them, and proves what they are for. `dafny verify dfyconfig.toml` checks everything.

- **Graphs.** `Graphs` has directed graphs as values, walks and cycles, and the order in which a last-in first-out worklist visits
  nodes. `TaskDag` is the mutable graph with its counters and successor and predecessor lists; its traversal is shown to follow that order.
- **Asynchronous execution.** `AsyncRuntime` is the runtime as a step relation: the host activates and waits, tasks start and finish.
  `DagExecutor` creates the tasks. Facts are proved of every run: predecessors first, never stuck, and when waiting for the sinks is enough.
- **Out-of-core execution.** `OutOfCore` hands device slots to partitions and adds edges, `OutOfCoreTasks` creates the tasks of all
  partitions, `OutOfCoreStages` proves what every run does inside a partition, `OutOfCoreRuns` when two users of one slot can never overlap,
  `OutOfCoreReturns` when the host gets control back and what is complete by then.
- **Batches on hardware queues.** `QueueProtocol` is several in-order queues with barrier packets and counting signals under any
  interleaving of host, launches, observations and completions (HSA Platform System Architecture Specification, section 2.9).
  `BatchProtocol` proves the batch protocol safe and live, `BatchExecutor` is the host code that produces it, `BfsExecutor` and `BfsRuns`
  run a graph frontier by frontier, and `TreeDag` builds the graphs this is used on.
- **Bits.** `BitUtil`: removing, inserting, extracting and replacing bits by mask, by index list and by inner ranges.
- **Memory.** `KernArgHeaps`: the kernel-argument allocator. `ArgPacking`: two ways to pack arguments. `TiledMatrices`: tiled indexing and copies.
- **ELF.** `ElfSegments` orders segments, `ElfLayout` places them (in `MachineWords`' wrapping 64-bit arithmetic), `ElfSizes` says what
  the resulting sizes and positions mean, `ElfNotes` writes and reads notes,
  `OffloadBundles` parses the code-object section, `BundleSections` writes such sections and proves that they parse back.

`Sequences` and `Arithmetic` hold facts shared by several components.

Each object whose methods change it is a class, and its methods are proved against functions of values; the facts about those functions
are lemmas. Where lemmas say "run", they mean any sequence of steps of the runtime or of the queues, so a lemma about runs holds for every interleaving.

## What the proofs brought to light

The code was followed, and where it does less than its comments promise, the exact condition is stated and proved.

- `executePartitionDAG` creates tasks in insertion order (OutOfCoreATMIexecutor.h:218) but reads predecessors' sink tasks. The handles
  are right if and only if insertion order follows the edges (`NeedsSinksIffEdgesInOrder`). Users of one slot never overlap, in any run, if and only
  if each was inserted before the slot's next user (`SlotsExclusiveIff`); otherwise some run copies for two of them at once. Slots are handed out
  last-in first-out, so whenever there are more unrelated partitions than slots two of them overlap in some run (`UnrelatedPartitionsOverlap`);
  `SharedSlotOverlaps` is a program in which this happens.
- The host waits only for the sink tasks of partitions without successors. When it gets control back everything is complete, in every run, if and
  only if every other partition has a successor inserted after it (`ReturnMeansDoneIff`); in the program `SharedSlotReturnsEarly` it is not. A partition without data blocks or without inner tasks
  has a joining task that needs nothing, is never activated and never runs: with such a partition the host never gets control back, and
  without one it can (`ReturnsIffAllReady`). `NoDataNeverReturns` is a program with such a partition.
- The level-by-level executor launches each node once, and respects every edge in every run, if and only if the graph is graded
  (`LaunchedOnceIffGraded`, `RunsRespectEdgesIffGraded`), even if every batch is submitted as a whole.
  `ShortcutLaunchedTwice` builds and executes a graph of three nodes that is not. On other graphs a node's last launch still follows all launches of its predecessors
  (`LastLaunchAfterPredecessors`). `cojoinedTreeDag` always builds a graded graph, and which one is
  stated exactly (`CojoinedTree`).
- `launchBatch` uses one barrier packet, which is enough for 1 to 4 queues only: at 5 queues `barrierTreeSize` already says more, although a packet has 5 slots
  (`BarrierTreeSize`). In general its sum is not the size of a tree: it is too large for 5 predecessors and too small for 26 (`QuotientSumIsNoTree`).
  The constructor overwrites its own guard, so asking for 0 queues gives an executor that divides by 0.
- Bringing zero-offset segments to the front can leave the one behind that was first already. For which lists of segments it does is stated by
  their positions (`BringZerosToFront`, `ComesRound`); three segments of which the first and the last start at 0 are such a list (`FirstZeroLeftBehind`).
  The comment at elfio.hpp:503-504 says containing segments come last; the code puts them first, and that is what is proved.
- A new segment's offset agrees with its address modulo the alignment if and only if the position does not wrap around or the alignment divides 2^64 (`AlignedIff`;
  `MisalignedSegment` lays out one that does not agree).
  After a wrap the offset is smaller than the alignment, so any new segment at or beyond its alignment is aligned.
- The kernel-argument heap has no bucket for requests of 4081 to 4096 bytes although its maximal size is 4096 (`BucketExistsIff`).
- The bundle parser looks in the right place for the next bundle if and only if no empty entry comes after all the code without being at its end
  (`Hides`, `EndFoundIff`, `EmptyEntryHidesEnd`), and a bundle without entries is found again for ever (`NoBundlesNoProgress`).
- `removeBitsByMask` shifts by the full word width when the mask is all ones, which is undefined; its method requires that some bit is kept. The other bit
  operations need no such guard.
- On a cyclic graph the topological traversal skips everything on or behind a cycle, so nothing there is created (`TopoOrderVisits`). Waiting for the
  sinks is then enough, in every run, if and only if every visited node that is no sink has a visited successor (`ExecuteParallel`,
  `ReturnMeansDoneIffCovered`); for a node before a cycle, `CycleReturnsEarly`, it is not.

## Modelling choices

- Handles are creation positions; handle 0 is the null task. A partition whose sink task has not been created in the current execution holds some older handle.
- The traversal takes a function; the model returns the visiting order and the callers loop over it. The counters do not overflow.
- Signals are named by batch and role, which stands for the pool handing out distinct signals with value 1. A packet is visible to the device once
  enqueued, though the code submits a batch as a whole: what holds in every run holds in those runs too, and where a run is shown to exist (`OverlapRun`) it is such a run.
  Which queues are full, addresses from the backing heap, the byte order of a file and contents of parsed sections are parameters or nondeterministic choices.
- Unordered sets are processed in any order. Kernels are named by their graph nodes.
- Bit operations are on words of any width, without the promotion C++ applies to words narrower than `int`.
- Sections and segments of an ELF file are values in lists that the layout reassigns; fields are 64-bit.

## Model

| member | source | states |
|---|---|---|
| TaskDag.Dag.AddNode | DAGEE-lib/include/dagee/TaskDAG.h:296-302 | a new isolated node at the end; lists and counts still mirror the graph |
| TaskDag.Dag.AddEdge | DAGEE-lib/include/dagee/TaskDAG.h:304-309 | the edge is added at the end of the successors; predecessor list and count follow |
| TaskDag.Dag.AddEdgeIfAbsent | DAGEE-lib/include/dagee/TaskDAG.h:323-329 | adds the edge unless it is there, in which case nothing changes |
| TaskDag.Dag.HasEdge | DAGEE-lib/include/dagee/TaskDAG.h:275-277 | the two list searches together decide whether the edge exists |
| TaskDag.Dag.ForEachNodeTopoOrder | DAGEE-lib/include/dagee/TaskDAG.h:363-388 | terminates on every graph, visits in the worklist's order whatever the counters held before, and leaves the graph as it was, so a second traversal is the same |
| TaskDag.Dag.VisitAll | DAGEE-lib/include/dagee/TaskDAG.h:374-387 | the worklist loop with its counters visits exactly in the order defined on values |
| Graphs.TopoOrderVisits | DAGEE-lib/include/dagee/TaskDAG.h:363-388 | the traversal visits exactly the nodes no cycle leads to, each once, each after all its predecessors |
| Graphs.TopoOrderCompleteIffAcyclic | DAGEE-lib/include/dagee/TaskDAG.h:363-388 | all nodes are visited if and only if the graph has no cycle |
| Graphs.OrderedIsAcyclic | DAGEE-lib/include/dagee/TaskDAG.h:363-388 | an order of all nodes with predecessors first exists only in an acyclic graph |
| Graphs.VisitStep | DAGEE-lib/include/dagee/TaskDAG.h:374-387 | one visit keeps the loop invariant: the queue holds exactly the ready, unvisited nodes |
| DagExecutor.ATMIdagExecutor.MakeLazyTasks | DAGEE-lib/include/dagee/ATMIdagExecutor.h:46-72 | each visited node gets a task that needs exactly its predecessors' tasks; source and sink tasks are collected |
| DagExecutor.ATMIdagExecutor.ExecuteParallel | DAGEE-lib/include/dagee/ATMIdagExecutor.h:134-155 | for any list of graphs: behind the tasks there were, exactly one task per visited node and listed graph, in order, each needing exactly its predecessors' tasks; the activated handles are those of the sources, the ones waited for those of the visited sinks; nodes hold the handles of their tasks, and nothing else changes; the waits cover all tasks if and only if in every graph each visited node that is no sink has a visited successor |
| DagExecutor.EachTaskOneVisit | DAGEE-lib/include/dagee/ATMIdagExecutor.h:141-144 | every new task is that of exactly one visit of one listed graph |
| DagExecutor.EachVisitOneTask | DAGEE-lib/include/dagee/ATMIdagExecutor.h:141-144 | every visit of every listed graph has its own new task |
| DagExecutor.EachTaskOneNode | DAGEE-lib/include/dagee/ATMIdagExecutor.h:141-144 | after executing different graphs, every new task is the own task of exactly one visited node |
| DagExecutor.EndsAreExact | DAGEE-lib/include/dagee/ATMIdagExecutor.h:63-71 | the handles waited for are exactly those of the visited sinks, each once, and the activated ones exactly those of the sources |
| DagExecutor.CycleReturnsEarly | DAGEE-lib/include/dagee/ATMIdagExecutor.h:134-155 | a program with a node before a cycle: some run returns before the created task is complete |
| AsyncRuntime.StepKeepsInv | DAGEE-lib/include/dagee/ATMIcoreDef.h:52-68 | every host call, start and completion keeps the invariant of reachable states |
| AsyncRuntime.NoTaskStartsEarly | DAGEE-lib/include/dagee/ATMIcoreDef.h:52-68 | in every run, whatever has started had everything it needs finished |
| AsyncRuntime.ChainStartsInOrder | DAGEE-lib/include/dagee/ATMIcoreDef.h:52-68 | also through chains of requirements of any length |
| AsyncRuntime.ReturnedMeansAllDone | DAGEE-lib/include/dagee/ATMIdagExecutor.h:146-152 | waiting for the sinks only is enough: when the host returns, every task is complete |
| AsyncRuntime.NeverStuck | DAGEE-lib/include/dagee/ATMIdagExecutor.h:146-152 | until the host has returned, some step is possible in every reachable state |
| AsyncRuntime.EveryRunFinishes | DAGEE-lib/include/dagee/ATMIdagExecutor.h:134-155 | no run is longer than the work there is, and a run that cannot continue has returned with all tasks complete, even if the host waits for too few |
| AsyncRuntime.ReturnMeansDoneIffCovered | DAGEE-lib/include/dagee/ATMIdagExecutor.h:146-152 | everything is complete when the host returns, in every run, if and only if every task nobody waits for is needed by a later one |
| DagExecutor.NodesRunAfterPredecessors | DAGEE-lib/include/dagee/ATMIdagExecutor.h:49-71 | in every run no visited node's task starts before its predecessors' tasks are complete, on cyclic graphs too |
| DagExecutor.LaunchSinksCoverIff | DAGEE-lib/include/dagee/ATMIdagExecutor.h:68-70 | of one graph, the tasks waited for cover all if and only if each visited node that is no sink has a visited successor, as in every acyclic graph |
| DagExecutor.LaunchSourcesExact | DAGEE-lib/include/dagee/ATMIdagExecutor.h:64-66 | the tasks to activate are exactly those that need nothing |
| DagExecutor.JoinLaunches | DAGEE-lib/include/dagee/ATMIdagExecutor.h:141-144 | tasks of several graphs created one after the other are again fit to run, and the waits cover all of them just when they do for each graph |
| OutOfCore.OutOfCoreATMIexecutor.AssignDeviceDataSlots | DAGEE-lib/include/dagee/OutOfCoreATMIexecutor.h:50-74 | the k-th visited partition gets slot k mod N, others keep theirs, and the graph becomes the graph with edges between consecutive users of a slot |
| OutOfCore.SlotGraphMeans | DAGEE-lib/include/dagee/OutOfCoreATMIexecutor.h:71-73 | all old edges stay, and exactly the edges from each visited partition to the next user of its slot are added |
| OutOfCore.SlotOrderStillTopological | DAGEE-lib/include/dagee/OutOfCoreATMIexecutor.h:50-74 | the traversal order is still topological for the extended graph |
| OutOfCore.SlotGraphAcyclicIff | DAGEE-lib/include/dagee/OutOfCoreATMIexecutor.h:50-74 | the extended graph is acyclic if and only if the partition graph was |
| OutOfCore.SharedSlotIsPath | DAGEE-lib/include/dagee/OutOfCoreATMIexecutor.h:63-68 | any two partitions sharing a slot are joined by a directed path |
| OutOfCoreTasks.TaskMaker.MakeMemCpyTasks | DAGEE-lib/include/dagee/OutOfCoreATMIexecutor.h:101-128 | for any number of blocks: one copy per block, each needing exactly the given task, and a joining task needing exactly the copies |
| OutOfCoreTasks.TaskMaker.MakeDAGtasks | DAGEE-lib/include/dagee/OutOfCoreATMIexecutor.h:130-157 | for any inner graph: one task per visited node, sources needing the copy-in, the others exactly their predecessors, and a joining task needing exactly the sinks |
| OutOfCoreTasks.TaskMaker.MakeTasksForPartition | DAGEE-lib/include/dagee/OutOfCoreATMIexecutor.h:159-184 | source task, copies in, inner graph, copies out, each stage behind the joining task of the one before; the source task needs the handles its predecessors hold |
| OutOfCoreTasks.TaskMaker.ExecutePartitionDAG | DAGEE-lib/include/dagee/OutOfCoreATMIexecutor.h:214-224 | the partitions' tasks in insertion order, each partition's exactly those of its blocks and inner graph; each source task needs the handles its predecessors hold at that moment; sources and sinks are collected |
| OutOfCoreTasks.StagesMakeBlock | DAGEE-lib/include/dagee/OutOfCoreATMIexecutor.h:165-179 | three stages in a row make one block: all wait for its source task, its sink task waits for all |
| OutOfCoreStages.StagesInSequence | DAGEE-lib/include/dagee/OutOfCoreATMIexecutor.h:165-179 | in every run all copies in are complete before any inner task starts, and all inner tasks before any copy out |
| OutOfCoreStages.InnerEdgesRespected | DAGEE-lib/include/dagee/OutOfCoreATMIexecutor.h:130-157 | in every run an inner task starts only once its predecessors in the inner graph are complete |
| OutOfCoreRuns.CreatedPlan | DAGEE-lib/include/dagee/OutOfCoreATMIexecutor.h:214-224 | what task creation leaves behind is a plan of the partition graph |
| OutOfCoreRuns.RespectedEdge | DAGEE-lib/include/dagee/OutOfCoreATMIexecutor.h:88-93 | in every run, no copy or kernel of a partition starts before all copies and kernels of a predecessor created earlier are complete |
| OutOfCoreRuns.SlotUsersInSequence | DAGEE-lib/include/dagee/OutOfCoreATMIexecutor.h:50-184 | a slot's later user starts nothing until every earlier user has finished copying out |
| OutOfCoreRuns.SlotsExclusiveIff | DAGEE-lib/include/dagee/OutOfCoreATMIexecutor.h:50-224 | in no run are two users of a slot both between the start of the first copy in and the end of the last copy out, if and only if each is inserted before the slot's next user |
| OutOfCoreRuns.WrongOrderOverlaps | DAGEE-lib/include/dagee/OutOfCoreATMIexecutor.h:214-224 | if an edge's target was inserted first, some run has a copy in under way for both its ends at once |
| OutOfCoreRuns.AtMostNInFlight | DAGEE-lib/include/dagee/OutOfCoreATMIexecutor.h:50-184 | at most as many partitions are under way at once as there are slots |
| OutOfCoreRuns.NeedsSinksIffEdgesInOrder | DAGEE-lib/include/dagee/OutOfCoreATMIexecutor.h:88-93 | the handles read from predecessors are their sink tasks if and only if insertion order follows the edges |
| OutOfCoreRuns.PlanLaunchValid | DAGEE-lib/include/dagee/OutOfCoreATMIexecutor.h:214-224 | then the whole execution is a fit launch: every run finishes and returns after all tasks |
| OutOfCoreRuns.PrepareAndExecute | DAGEE-lib/include/dagee/OutOfCoreATMIexecutor.h:212-224 | handing out slots and then creating tasks gives, for any partition graph, a plan of the graph extended by the slot edges |
| OutOfCoreRuns.UnrelatedPartitionsOverlap | DAGEE-lib/include/dagee/OutOfCoreATMIexecutor.h:50-224 | with more unrelated partitions than slots, whatever they are, two users of one slot overlap in some run |
| OutOfCoreRuns.SharedSlotOverlaps | DAGEE-lib/include/dagee/OutOfCoreATMIexecutor.h:50-224 | a program with one slot and two partitions of one data block and one task each that overlap in some run |
| OutOfCoreReturns.ReturnMeansDoneIff | DAGEE-lib/include/dagee/OutOfCoreATMIexecutor.h:214-224 | for any insertion order: everything is complete when the host returns, in every run, if and only if each partition that is no sink has a successor inserted after it |
| OutOfCoreReturns.UnrelatedReturnEarly | DAGEE-lib/include/dagee/OutOfCoreATMIexecutor.h:50-224 | with more unrelated partitions than slots, whatever they are, some run returns before everything is complete, and some source task needs another handle than its predecessor's sink task |
| OutOfCoreReturns.SharedSlotReturnsEarly | DAGEE-lib/include/dagee/OutOfCoreATMIexecutor.h:212-224 | a program with one slot and two partitions for which this happens |
| OutOfCoreReturns.ReturnsIffAllReady | DAGEE-lib/include/dagee/OutOfCoreATMIexecutor.h:101-184 | with insertion order following the edges, the host can return if and only if every partition has a data block and an inner task |
| OutOfCoreReturns.NoDataNeverReturns | DAGEE-lib/include/dagee/OutOfCoreATMIexecutor.h:101-184 | a program with one partition without data blocks: no run of its tasks returns to the host |
| BatchExecutor.BarrierAndPkt.Init | DAGEE-lib/include/dagr/kernel.h:283-295 | the packet's dependency slots are the given signals, padded with null signals |
| BatchExecutor.BarrierTreeSize | DAGEE-lib/include/dagr/kernel.h:303-312 | the sum of the rounded-up quotients by powers of 5; it is 1 exactly for 1 to 4 predecessors, where it is the size of a barrier tree |
| BatchExecutor.QuotientSumIsNoTree | DAGEE-lib/include/dagr/kernel.h:298-312 | for 5 predecessors the sum is larger than a barrier tree, for 26 smaller |
| BatchExecutor.SerialUnorderedExecutor.constructor | DAGEE-lib/include/dagr/executor.h:237-247 | as many queues as asked for, at most 64, even 0 |
| BatchExecutor.SerialUnorderedExecutor.NextQid | DAGEE-lib/include/dagr/executor.h:220-227 | the first queue after the current one, round robin, that is found not full |
| BatchExecutor.SerialUnorderedExecutor.StartBatch | DAGEE-lib/include/dagr/executor.h:269-299 | fresh signals, each per-queue signal set to 0 |
| BatchExecutor.SerialUnorderedExecutor.StartBatchWithDep | DAGEE-lib/include/dagr/executor.h:306-318 | first a barrier packet on the given signal in every queue, then a new batch |
| BatchExecutor.SerialUnorderedExecutor.AddToBatch | DAGEE-lib/include/dagr/executor.h:320-324 | the queue's signal is counted up before the kernel that counts it down is enqueued |
| BatchExecutor.SerialUnorderedExecutor.LaunchBatch | DAGEE-lib/include/dagr/executor.h:326-341 | one barrier packet on queue 0 joins all per-queue signals into the final signal |
| BatchExecutor.AddKernel | DAGEE-lib/include/dagr/executor.h:320-324 | adding a kernel keeps the host's operations a well-formed batch program |
| BatchExecutor.StartWithDep | DAGEE-lib/include/dagr/executor.h:306-318 | so do the start barriers and the clearing of the signals |
| BatchExecutor.CloseBatch | DAGEE-lib/include/dagr/executor.h:326-341 | and the closing barrier |
| QueueProtocol.StepKeepsQueueInv | DAGEE-lib/include/dagr/executor.h:208-341 | queues launch in order, barrier bits wait for all earlier packets, nothing passes an incomplete barrier packet |
| QueueProtocol.RunsAreBounded | DAGEE-lib/include/dagr/executor.h:208-341 | every run ends: operations, launches, observations and completions are used up |
| BatchProtocol.HostKeepsSignals | DAGEE-lib/include/dagr/executor.h:320-324 | host operations keep each per-queue signal equal to the unfinished kernels of its batch on that queue |
| BatchProtocol.CompleteKeepsSignals | DAGEE-lib/include/dagr/executor.h:269-341 | so do completions, and the final signal is 0 exactly once the batch has ended |
| BatchProtocol.RunKeepsInv | DAGEE-lib/include/dagr/executor.h:269-341 | both hold in every state of every run |
| BatchProtocol.BatchesInOrder | DAGEE-lib/include/dagr/dagExecutor.h:113-142 | in no interleaving is a kernel of a batch launched before every kernel of every earlier batch is complete |
| BatchProtocol.FinalSignalMeansDone | DAGEE-lib/include/dagr/executor.h:326-341 | when the final signal is seen at 0, every kernel of the batch and of all earlier ones is complete |
| BatchProtocol.NeverStuck | DAGEE-lib/include/dagr/executor.h:306-341 | in every reachable state with anything unfinished, the host or the device can take a step |
| BatchProtocol.EveryRunFinishes | DAGEE-lib/include/dagr/dagExecutor.h:113-146 | every run is finite, and one that cannot continue has completed every packet and brought every final signal to 0 |
| BatchProtocol.OverlapRun | DAGEE-lib/include/dagr/executor.h:229-341 | kernels of one batch do not wait for each other, and none waits for a later batch: some run launches one before the other is complete, with every batch enqueued up to its closing barrier before anything of it is launched |
| BfsExecutor.StaticDAGExecutorBFS.ExecuteFromCP | DAGEE-lib/include/dagr/dagExecutor.h:91-148 | each frontier becomes one batch, the first without and every other with start barriers in all queues, until the frontiers are exhausted; the host waits once, for the last, as its last operation; every kernel goes to the next queue that is not full |
| BfsExecutor.StaticDAGExecutorBFS.ExecuteFromHost | DAGEE-lib/include/dagr/dagExecutor.h:43-87 | the same batches without start barriers, and a wait of the host right behind each |
| BfsRuns.OneWait | DAGEE-lib/include/dagr/dagExecutor.h:91-148 | execution from the command processor: start barriers in every queue for every batch but the first, and the only wait is the last operation, for the last batch |
| BfsRuns.SubmitsAhead | DAGEE-lib/include/dagr/dagExecutor.h:113-146 | so some run has the whole execution submitted before anything of it is launched |
| BfsRuns.WaitForEach | DAGEE-lib/include/dagr/dagExecutor.h:56-87 | execution from the host: no start barriers, and a wait for every batch before any operation of a later one |
| BfsRuns.HostStaysBehind | DAGEE-lib/include/dagr/dagExecutor.h:56-87 | so in every run, before anything of a batch is submitted, all kernels of the batches before it are complete |
| BfsExecutor.StaticDAGExecutorBFS.NextLevel | DAGEE-lib/include/dagr/dagExecutor.h:133-139 | the next frontier is the set of all successors of this one |
| BfsExecutor.FrontierStep | DAGEE-lib/include/dagr/dagExecutor.h:133-139 | the k-th frontier is exactly the set of nodes ending a walk of length k from a source |
| BfsExecutor.FrontierBounded | DAGEE-lib/include/dagr/dagExecutor.h:113-142 | in an acyclic graph the loop ends within as many levels as there are nodes |
| BfsRuns.LevelsAreWalkLengths | DAGEE-lib/include/dagr/dagExecutor.h:113-142 | there are as many levels as the longest walk from a source has nodes |
| BfsRuns.ExecutionsAreExecuted | DAGEE-lib/include/dagr/dagExecutor.h:91-148 | the log of either entry point is a program of the batch protocol holding exactly the frontiers, in order |
| BfsRuns.EveryNodeLaunched | DAGEE-lib/include/dagr/dagExecutor.h:125-131 | every node of an acyclic graph is launched |
| BfsRuns.LaunchedOnceIffGraded | DAGEE-lib/include/dagr/dagExecutor.h:43-148 | each node is launched exactly once if and only if the graph is graded |
| BfsRuns.RunsRespectEdgesIffGraded | DAGEE-lib/include/dagr/dagExecutor.h:43-148 | no run launches a node before all launches of its predecessors are complete, if and only if the graph is graded; the same for the runs in which every batch is submitted as a whole |
| BfsRuns.ShortcutLaunchedTwice | DAGEE-lib/include/dagr/dagExecutor.h:91-148 | a program: of a graph with edges from a to b, b to c and a to c, which is not graded, c is launched twice, and some run launches a node before a launch of its predecessor is complete |
| BfsRuns.LastLaunchAfterPredecessors | DAGEE-lib/include/dagr/dagExecutor.h:43-148 | on any graph, a node's last launch follows all launches of its predecessors |
| BfsRuns.ReturnMeansAllDone | DAGEE-lib/include/dagr/dagExecutor.h:144-146 | when the host is past its last wait, every kernel of the execution is complete |
| BfsExecutor.LevelsOrderedIffGraded | DAGEE-lib/include/dagr/dagExecutor.h:43-148 | frontiers respect every edge if and only if all walks from sources to one node are equally long |
| TreeDag.CojoinedTreeDag | dagrTests/treeDagLaunch.cpp:16-83 | the exact graph for any depth and degree, row by row: up to the middle each node has its own `degree` successors, from there each `degree` nodes share one; it is acyclic and graded |
| TreeDag.JoinRows | dagrTests/treeDagLaunch.cpp:64-76 | the lower row's successors, from left to right, are the upper row with every node `degree` times; nothing else changes |
| TreeDag.NodeCount | dagrTests/treeDagLaunch.cpp:16-83 | how many nodes there are, for degree 1 two per level and one more |
| TreeDag.LevelledIsGraded | dagrTests/treeDagLaunch.cpp:16-83 | a graph whose edges each lead one level up from sources on level 0 is graded |
| BitUtil.RemoveBitRange | cppUtils/include/cpputils/BitUtil.h:136-146 | the bits above the range move down over it, zeros come in at the top |
| BitUtil.InsertBitRange | cppUtils/include/cpputils/BitUtil.h:223-237 | a gap of zeros opens, the highest bits fall off |
| BitUtil.GetBitsByMask | cppUtils/include/cpputils/BitUtil.h:71-82 | the bits at the set positions of the mask, in order, at the bottom of the word |
| BitUtil.RemoveBitsByMask | cppUtils/include/cpputils/BitUtil.h:181-199 | the bits at the clear positions, in order: the same as extracting with the complement |
| BitUtil.RemoveBits | cppUtils/include/cpputils/BitUtil.h:204-221 | removing a strictly ascending list of bits equals removing by mask |
| BitUtil.RemoveBitsByInnerBits | cppUtils/include/cpputils/BitUtil.h:164-179 | collecting the kept ranges equals removing by mask |
| BitUtil.InsertBitsByMask | cppUtils/include/cpputils/BitUtil.h:244-252 | the word's bits, in order, at the clear positions of the mask, zeros at the others |
| BitUtil.InsertBitsByInnerBits | cppUtils/include/cpputils/BitUtil.h:257-268 | spreading the kept ranges equals inserting by mask |
| BitUtil.ReplaceBitsByMask | cppUtils/include/cpputils/BitUtil.h:311-322 | the new value's bits, in order, at the set positions, the word's own at the others |
| BitUtil.InsertAfterRemove | cppUtils/include/cpputils/BitUtil.h:181-252 | inserting at a mask after removing it clears exactly the masked bits |
| BitUtil.RemoveAfterInsert | cppUtils/include/cpputils/BitUtil.h:181-252 | removing a mask after inserting at it gives back the bits that did not fall off |
| BitUtil.LosslessSplit | cppUtils/include/cpputils/BitUtil.h:71-322 | removed word and extracted bits together give the word back |
| BitUtil.ExtractAfterReplace | cppUtils/include/cpputils/BitUtil.h:71-322 | extracting what was put in gives it back |
| BitUtil.InnerBitsExist | cppUtils/include/cpputils/BitUtil.h:153-163 | every mask has its inner ranges, one more than it has set bits |
| ElfSegments.Includes | DAGEE-lib/include/elfio/elfio.hpp:426-437 | the merge of the two section lists |
| ElfSegments.MergeMeansSubset | DAGEE-lib/include/elfio/elfio.hpp:426-437 | on sorted lists the merge decides inclusion, counting repetitions |
| ElfSegments.InsideMeansStrictSubset | DAGEE-lib/include/elfio/elfio.hpp:426-437 | for sorted section lists the test is strict containment |
| ElfSegments.BringZerosToFront | DAGEE-lib/include/elfio/elfio.hpp:445-454 | the exact order: zero-offset segments but the first in front, in order, the others behind, the first of them sent to the back for each; zero-offset segments come first if and only if their positions lead from 0 to exactly their number |
| ElfSegments.FirstZeroLeftBehind | DAGEE-lib/include/elfio/elfio.hpp:448-454 | for any three segments of which the first and the last start at 0 and the second does not, they do not |
| ElfSegments.ThreeSegments | DAGEE-lib/include/elfio/elfio.hpp:445-454 | the loop leaves the second of three such segments before one that starts at 0 |
| ElfSegments.GetOrderedSegments | DAGEE-lib/include/elfio/elfio.hpp:440-474 | terminates with every segment once and none before one it is strictly inside of, in exactly the order in which the reordered list is drained |
| ElfSegments.OutermostInOrder | DAGEE-lib/include/elfio/elfio.hpp:440-474 | segments inside no other are never put back: they come in the order the front-bringing step gave them |
| ElfSegments.UnnestedZerosFirst | DAGEE-lib/include/elfio/elfio.hpp:440-474 | if no segment is inside another, the zero-offset ones come first if and only if their positions come round |
| ElfSegments.FrontIsZeros | DAGEE-lib/include/elfio/elfio.hpp:448-454 | in front are exactly the zero-offset positions but the first, ascending |
| ElfSegments.RotateShrinks | DAGEE-lib/include/elfio/elfio.hpp:456-471 | the rotation ends: each one brings the first segment of maximal section count nearer |
| ElfSegments.StrictlyContainedComesLater | DAGEE-lib/include/elfio/elfio.hpp:440-474 | with sorted lists, a segment is ordered before every segment whose sections are a strict part of its own |
| ElfLayout.AlignedIff | DAGEE-lib/include/elfio/elfio.hpp:531-537 | the start agrees with the address modulo the alignment if and only if nothing wraps or the alignment divides 2^64 |
| ElfLayout.MisalignedSegment | DAGEE-lib/include/elfio/elfio.hpp:531-537 | a layout whose position wraps around and whose segment does not agree with its address modulo 3 |
| ElfLayout.Elfio.StartSegment | DAGEE-lib/include/elfio/elfio.hpp:508-540 | start and initial size in each of the five cases; an alignment is needed only where the code divides by it |
| ElfLayout.Elfio.PlaceSection | DAGEE-lib/include/elfio/elfio.hpp:543-602 | a new section keeps its distance to the segment in file and memory; a section laid out before is not touched; sizes follow |
| ElfLayout.Elfio.LayoutSegment | DAGEE-lib/include/elfio/elfio.hpp:507-607 | no section laid out earlier moves; sections, file position, file and memory size are exactly those of the segment's sections in turn; a new segment is aligned exactly as far as nothing wraps or the alignment divides 2^64; one of new sections with data ends at the file position |
| ElfLayout.Elfio.LayoutSegmentsAndTheirSections | DAGEE-lib/include/elfio/elfio.hpp:499-610 | all segments in the order of `GetOrderedSegments`, with exactly the sizes and positions of that; all sections are laid out once, in file and memory at the same distance from their segment; new segments are aligned, whatever their alignment, unless their position wrapped around |
| ElfSizes.SizesAreSums | DAGEE-lib/include/elfio/elfio.hpp:543-606 | file and memory size count exactly the sections that take up space there, thread-local zero-fill only in its own segment, each with its gap, modulo 2^64 |
| ElfSizes.ZeroFillOnTop | DAGEE-lib/include/elfio/elfio.hpp:543-606 | of new data sections followed by new zero-fill sections the file ends with the data, and the memory has on top exactly the zero-fill and the gaps its alignments ask for |
| ElfSizes.DataAndBss | DAGEE-lib/include/elfio/elfio.hpp:507-607 | a layout: 16 bytes of data and 100 of zero-fill take 16 bytes in the file and 116 in memory |
| ElfSizes.NestedMovesNothing | DAGEE-lib/include/elfio/elfio.hpp:571-591 | a segment whose sections have all been laid out moves nothing |
| ElfSizes.NestedFileEnds | DAGEE-lib/include/elfio/elfio.hpp:571-606 | and its file ends where its last section with data ends |
| ElfSizes.SpecialStarts | DAGEE-lib/include/elfio/elfio.hpp:514-527 | sizes of the header segment, of others without sections, and of those that start with the null section |
| ElfSizes.NoOverlap | DAGEE-lib/include/elfio/elfio.hpp:499-610 | over the whole layout, if the file position never moves backwards, no two sections share file space |
| ElfNotes.Section.AppendData | DAGEE-lib/include/elfio/elfio_section.hpp:138-160 | the contents are extended by the new bytes, across every regrowth of the buffer |
| ElfNotes.NoteSectionAccessor.AddNote | DAGEE-lib/include/elfio/elfio_note.hpp:81-107 | the note's encoding is appended and its start recorded; a buffer that is not the old one is new |
| ElfNotes.NoteSectionAccessor.ProcessSection | DAGEE-lib/include/elfio/elfio_note.hpp:111-133 | the starts found by going from header to header |
| ElfNotes.NoteSectionAccessor.GetNote | DAGEE-lib/include/elfio/elfio_note.hpp:53-78 | type, name and descriptor at the recorded start, or refusal |
| ElfNotes.NoteSectionAccessor.AddScanRead | DAGEE-lib/include/elfio/elfio_note.hpp:53-133 | adding a list of notes to a section of notes, scanning it again and reading every note gives all notes in order, across all regrowths |
| ElfNotes.RoomIf | DAGEE-lib/include/elfio/elfio_section.hpp:138-160 | notes of up to an eighth of what 32 bits can count always find room |
| ElfNotes.NotesRoundTrip | DAGEE-lib/include/elfio/elfio_note.hpp:53-133 | scanning a section of notes finds exactly where they start, and reading there gives them all back in order |
| ElfNotes.NotesPush | DAGEE-lib/include/elfio/elfio_note.hpp:81-107 | adding a note to a section of notes gives the section of one more note, and its recorded start |
| ElfNotes.WordRoundTrip | DAGEE-lib/include/elfio/elfio_note.hpp:82-91 | a word written in either byte order is read back |
| ElfNotes.WordDigits | DAGEE-lib/include/elfio/elfio_note.hpp:82-91 | byte k of a word is its k-th digit in base 256, or the other way round |
| ElfNotes.NameTerminated | DAGEE-lib/include/elfio/elfio_note.hpp:92-98 | a name is followed by a zero, and by zeros up to whole words |
| ElfNotes.NoteBytes | DAGEE-lib/include/elfio/elfio_note.hpp:81-104 | a note byte by byte in both byte orders |
| OffloadBundles.KernelSectionParser.ParseOneSection | DAGEE-lib/include/dagee/ProgInfo.h:102-163 | terminates on every well-formed section with the code of all bundles, in order |
| OffloadBundles.KernelSectionParser.ParseBundle | DAGEE-lib/include/dagee/ProgInfo.h:127-151 | exactly the non-empty entries, with their targets and bytes, and where the next bundle is looked for |
| BundleSections.EntryFormat | DAGEE-lib/include/dagee/ProgInfo.h:47-58 | a descriptor's words are, least significant byte first, offset, size and length of the target's name, which follows |
| BundleSections.BundleFormat | DAGEE-lib/include/dagee/ProgInfo.h:47-58 | a written bundle by positions: magic string, count at 24, and each descriptor with the distance of its code from the header, its length, its target; the code stands there |
| BundleSections.ParseBytes | DAGEE-lib/include/dagee/ProgInfo.h:102-163 | a section given byte by byte, with one bundle of one entry, is parsed to its code |
| OffloadBundles.HeadsAscend | DAGEE-lib/include/dagee/ProgInfo.h:118-156 | every header is visited once |
| OffloadBundles.PackedIsParsed | DAGEE-lib/include/dagee/ProgInfo.h:102-163 | on a padded sequence of bundles described without the parser, it finds exactly the bundles' headers |
| BundleSections.BundleReads | DAGEE-lib/include/dagee/ProgInfo.h:118-156 | a bundle written from code with any padding reads back entry by entry, byte by byte, up to its end |
| BundleSections.BundlesRead | DAGEE-lib/include/dagee/ProgInfo.h:102-163 | a section written from bundles of code, each at a multiple of 8, is well-formed, and the code found in it is that of the bundles |
| BundleSections.WriteAndParse | DAGEE-lib/include/dagee/ProgInfo.h:102-163 | writing a list of bundles and parsing the section returns exactly the non-empty code with its targets, in order |
| OffloadBundles.EndFoundIff | DAGEE-lib/include/dagee/ProgInfo.h:123-156 | for entries that do not overlap, the end of a bundle is found if and only if no empty entry lies behind all the code without being at the end |
| OffloadBundles.NoBundlesNoProgress | DAGEE-lib/include/dagee/ProgInfo.h:118-156 | a bundle without entries is its own successor |
| KernArgHeaps.FixedSizeHeap.Replenish | cppUtils/include/cpputils/Heap.h:56-74 | a big block is chopped into blocks of the heap's size; nothing is lost |
| KernArgHeaps.FixedSizeHeap.Allocate | cppUtils/include/cpputils/Heap.h:98-112 | a free block becomes live; free and live blocks stay exactly the chopped big blocks |
| KernArgHeaps.FixedSizeHeap.Deallocate | cppUtils/include/cpputils/Heap.h:114-117 | a live block becomes free again |
| KernArgHeaps.FixedSizeHeap.Conserved | cppUtils/include/cpputils/Heap.h:56-117 | free and live blocks together number the big blocks times the quotient of the sizes |
| KernArgHeaps.KernArgHeap.Allocate | DAGEE-lib/include/dagr/memory.h:219-228 | a 16-byte aligned block of the rounded size, from the bucket of that size, whose heap is new if the bucket had none; a big block is drawn only if the bucket has no free block; all other buckets are untouched |
| KernArgHeaps.KernArgHeap.Deallocate | DAGEE-lib/include/dagr/memory.h:231-245 | the block returns to the bucket it came from |
| KernArgHeaps.KernArgHeap.HeldApart | DAGEE-lib/include/dagr/memory.h:171-245 | any two blocks, free or live, of any buckets, are the same block or do not overlap |
| KernArgHeaps.KernArgHeap.HeldOnce | DAGEE-lib/include/dagr/memory.h:171-245 | no block is held twice |
| KernArgHeaps.BucketExistsIff | DAGEE-lib/include/dagr/memory.h:205-217 | a request has a bucket if and only if it is at most 4080 bytes |
| ArgPacking.PackKernArgsCompOffset | DAGEE-lib/include/dagee/ATMIcoreDef.h:165-199 | both passes agree: the buffer holds the packed arguments at the reported offsets |
| ArgPacking.PackKernArgs | DAGEE-lib/include/dagee/HIPinternal.h:93-103 | growing the buffer argument by argument gives the same bytes |
| ArgPacking.ArgumentInBuffer | DAGEE-lib/include/dagee/ATMIcoreDef.h:159-163 | every argument is aligned, padded by less than one alignment, inside the buffer, and reads back |
| ArgPacking.ArgumentsApart | DAGEE-lib/include/dagee/ATMIcoreDef.h:159-163 | no two arguments overlap |
| TiledMatrices.IndexInRange | cppUtils/include/cpputils/Matrix.h:126-166 | every element, row- or column-major, plain or in tiles of any size, has a place in the storage |
| TiledMatrices.IndexInjective | cppUtils/include/cpputils/Matrix.h:126-159 | no two elements share a place |
| TiledMatrices.TileIsContiguous | cppUtils/include/cpputils/Matrix.h:126-158 | element (i, j) lies in the contiguous tile (i / B, j / B), the tiles standing row by row or column by column |
| TiledMatrices.TileNeighbours | cppUtils/include/cpputils/Matrix.h:126-158 | how far apart neighbours are, within a tile and from one tile to the next |
| TiledMatrices.PlainNeighbours | cppUtils/include/cpputils/Matrix.h:32-40 | the same of plain matrices |
| TiledMatrices.CopyMatrix | cppUtils/include/cpputils/MatrixHelper.h:129-138 | the copy has the same elements, whatever the two layouts |
| TiledMatrices.CopyThereAndBack | cppUtils/include/cpputils/MatrixHelper.h:129-138 | copying into any layout and back is the identity |

## Left out

- Memory fences, cache scopes and atomics orderings: steps and signals stand for them.
- Queue capacity and the ring-buffer index arithmetic of `DispatchQueueSerial`: queues are unbounded and first-in first-out.
- Barrier trees over more than 5 predecessors (`makeBarrierTree`): unused by the executors.
- `ATMImixedDAGexecutor.h` and the CPU, GPU and copy executors: the same creation loop with dispatch on task type.
- The synchronous out-of-core executor: partitions run one after the other in topological order, so nothing overlaps.
- Host and device copies as byte movements: a copy is a task with a start and an end.
- Filling the inner graphs from user code (`fillDAG`, `makePerPartitionDAGs`): partitions come with their inner graphs.
- 32-bit ELF files, dump tables, symbol lookup, string tables, section headers, `layout_sections_without_segments`: plain I/O or easier repeats.
- Byte swapping in `endianess_convertor` as bit masks: a word's bytes in file order stand for it.
- AppendData: allocation failure is not modelled, and a regrowth beyond the 32-bit buffer size is excluded by precondition.
- GetNote: an index from the number of notes up to the section's size, which is not refused, and a note whose fields reach beyond the section, yet
  pass the size check, are excluded by precondition, as reading there is undefined.
- LayoutSegmentsAndTheirSections: a segment with sections and alignment 0 is excluded by precondition unless it starts with the null section or lies inside a larger
  segment, where the code does not divide by it. Of a new segment with an offset below its alignment that does not divide 2^64, alignment is stated in `LayoutSegment`
  only, where the file position before it is known.
- ParseOneSection: sections that are no sequence of well-formed bundles are excluded by precondition, as parsing them is undefined or does not end.
- Single-bit and range helpers of `BitUtil` that only forward, and its pointer specialisation.
- Sub-matrix views and transposition in `Matrix.h`, file loading, regular expressions, timers, command line and kernels.
- `Gauge.h` and `HSAexecutor.h`: they call graph methods that no longer exist.
