/** When the host gets control back from the out-of-core tasks, and what is complete by then. */
module OutOfCoreReturns {
  import opened Sequences
  import opened Graphs
  import opened TaskDag
  import opened AsyncRuntime
  import opened DagExecutor
  import opened OutOfCore
  import opened OutOfCoreTasks
  import opened OutOfCoreRuns

  lemma RecordedDistinct<N, M>(p: Plan<N, M>, x: nat, y: nat)
    requires IsPlan(p) && x < |p.g.nodes| && y < |p.g.nodes| && |p.recorded| == |p.g.nodes| && p.recorded[x] == p.recorded[y]
    ensures x == y
  {
    hide *;
    PlanFacts(p, x);
    PlanFacts(p, y);
    if x < y { BlocksInOrder(p, x + 1, y); }
    if y < x { BlocksInOrder(p, y + 1, x); }
  }

  /** No task needs the sink task of a partition without a successor created later. */
  lemma SinkNotNeeded<N, M>(p: Plan<N, M>, x: nat, t: nat, h: nat)
    requires ValidPlan(p) && x < |p.g.nodes| && !HasLaterSuccessor(p, x) && |p.recorded| == |p.g.nodes|
    requires p.launch.base <= t < |p.launch.tasks| && h in p.launch.tasks[t].needs
    ensures h != p.recorded[x]
  {
    hide *;
    PartitionFacts(p, x);
    PlanEnds(p);
    var y := BlockOf(p, t, |p.g.nodes|);
    PartitionFacts(p, y);
    if t == p.los[y] {
      var z := SourceNeedOrigin(p, y, h);
      if h >= p.launch.base {
        PartitionFacts(p, z);
        BlocksInOrder(p, z + 1, y);
        NotLater(p, x, z, y);
        if h == p.recorded[x] { RecordedDistinct(p, x, z); }
      }
    } else {
      InnerNeedsInBlock(p, y, t);
      if h == p.recorded[x] { OnePartition(p, x, y, h); }
    }
  }

  lemma NotLater<N, M>(p: Plan<N, M>, x: nat, z: nat, y: nat)
    requires x < |p.g.nodes| && !HasLaterSuccessor(p, x) && z < y < |p.g.nodes| && Edge(p.g, p.g.nodes[z], p.g.nodes[y])
    ensures z != x
  {
    hide Edge;
  }

  lemma PlanEnds<N, M>(p: Plan<N, M>)
    requires IsPlan(p)
    ensures |p.los| == |p.g.nodes| + 1 && p.los[|p.g.nodes|] == |p.launch.tasks| && p.launch.base <= |p.launch.tasks|
  {
    hide Lists, PartitionAt;
  }

  lemma TaskNeedsOlder<N, M>(p: Plan<N, M>, t: nat, h: nat)
    requires ValidPlan(p) && |p.recorded| == |p.g.nodes| && p.launch.base <= t < |p.launch.tasks| && h in p.launch.tasks[t].needs
    ensures h < t
  {
    hide *;
    PlanIsPlan(p);
    PlanEnds(p);
    var y := BlockOf(p, t, |p.g.nodes|);
    PartitionFacts(p, y);
    if t == p.los[y] {
      var z := SourceNeedOrigin(p, y, h);
      if h >= p.launch.base {
        PartitionFacts(p, z);
        BlocksInOrder(p, z + 1, y);
      }
    } else {
      InnerNeedsInBlock(p, y, t);
    }
  }

  lemma PlanRunnable<N, M>(p: Plan<N, M>)
    requires ValidPlan(p)
    ensures Runnable(p.launch) && |p.recorded| == |p.g.nodes|
  {
    hide *;
    PlanIsPlan(p);
    PlanSourcesExact(p);
    SinksAreRecorded(p);
    forall t, h | p.launch.base <= t < |p.launch.tasks| && h in p.launch.tasks[t].needs ensures h < t { TaskNeedsOlder(p, t, h); }
    IsRunnable(p.launch);
  }

  lemma IsRunnable(l: Launch)
    requires SourcesExact(l) && forall t, h :: l.base <= t < |l.tasks| && h in l.tasks[t].needs ==> h < t
    requires forall h :: h in l.sinks ==> l.base <= h < |l.tasks|
    ensures Runnable(l)
  {
  }

  lemma RecordedNotAwaited<N, M>(p: Plan<N, M>, x: nat)
    requires ValidPlan(p) && x < |p.g.nodes| && !IsSinkNode(p, x) && |p.recorded| == |p.g.nodes|
    ensures p.recorded[x] !in p.launch.sinks
  {
    PlanIsPlan(p);
    SinksMeans(p, p.recorded[x]);
    hide ValidPlan, IsPlan, IsSinkNode;
    forall k: nat | k < |p.g.nodes| && p.recorded[k] == p.recorded[x] ensures k == x { RecordedDistinct(p, k, x); }
  }

  /** Nothing waits for the sink task of a partition that is no sink and has no successor created after it. */
  lemma SinkForgotten<N, M>(p: Plan<N, M>, x: nat)
    requires ValidPlan(p) && x < |p.g.nodes| && !IsSinkNode(p, x) && !HasLaterSuccessor(p, x) && |p.recorded| == |p.g.nodes|
    ensures Forgotten(p.launch, p.recorded[x])
  {
    PartitionFacts(p, x);
    RecordedNotAwaited(p, x);
    hide ValidPlan, IsSinkNode, HasLaterSuccessor;
    forall u | p.recorded[x] < u < |p.launch.tasks| ensures p.recorded[x] !in p.launch.tasks[u].needs {
      if p.recorded[x] in p.launch.tasks[u].needs { SinkNotNeeded(p, x, u, p.recorded[x]); }
    }
  }

  lemma ForgottenUncovered(l: Launch, t: nat)
    requires Forgotten(l, t)
    ensures !SinksCover(l)
  {
  }

  /** Whatever the creation order, everything is complete when the host gets control back, in every run, if and only if every
      partition that is no sink has a successor created after it. */
  lemma ReturnMeansDoneIff<N, M>(p: Plan<N, M>)
    requires ValidPlan(p)
    ensures ReturnMeansDone(p.launch) <==> SuccessorsCreatedLater(p)
  {
    hide ValidPlan, IsSinkNode, HasLaterSuccessor, ReturnMeansDone, SinksCover, Forgotten, Runnable;
    PlanRunnable(p);
    ReturnMeansDoneIffCovered(p.launch);
    if SuccessorsCreatedLater(p) {
      PlanSinksCover(p);
    } else {
      var x: nat :| x < |p.g.nodes| && !IsSinkNode(p, x) && !HasLaterSuccessor(p, x);
      SinkForgotten(p, x);
      ForgottenUncovered(p.launch, p.recorded[x]);
    }
  }

  /** Unrelated partitions are created in the order opposite to the one in which they get their slots: with more of them than slots,
      whatever they are, some run returns before all is complete, and not every source task needs its predecessors' sink tasks. */
  lemma UnrelatedReturnEarly<N, M>(p: Plan<N, M>, g0: Graph<N>, n: nat)
    requires n > 0 && SlotPlan(p, g0, n) && NoEdges(g0) && n < |g0.nodes|
    ensures !ReturnMeansDone(p.launch) && !NeedsSinksOfPreds(p)
  {
    hide *;
    SlotPlanFacts(p, g0, n);
    PlanIsPlan(p);
    UnrelatedOrder(g0);
    NextUserEdge(g0, n, 0, n);
    LastHasNoLater(p, TopoOrder(g0)[n]);
    ReturnMeansDoneIff(p);
    if NeedsSinksOfPreds(p) {
      NeedsSinksIffEdgesInOrder(p);
      EdgesInOrderMeansLater(p);
    }
  }

  lemma LastHasNoLater<N, M>(p: Plan<N, M>, b: N)
    requires p.g.nodes != [] && Edge(p.g, p.g.nodes[|p.g.nodes| - 1], b)
    ensures !SuccessorsCreatedLater(p)
  {
    var x := |p.g.nodes| - 1;
    hide Edge;
    assert !IsSinkNode(p, x) by { EdgeFromNoSink(p, x, b); }
    assert !HasLaterSuccessor(p, x);
  }

  lemma EdgeFromNoSink<N, M>(p: Plan<N, M>, x: nat, b: N)
    requires x < |p.g.nodes| && Edge(p.g, p.g.nodes[x], b)
    ensures !IsSinkNode(p, x)
  {
  }

  /** A program that leaves such tasks: two partitions, one slot. */
  method SharedSlotReturnsEarly(exec: OutOfCoreATMIexecutor, maker: TaskMaker) returns (ghost p: Plan<PartNode, TaskNode>)
    requires |exec.deviceDataSlots| == 1 && |maker.runtime.tasks| > 0
    modifies maker.runtime
    ensures p.launch.tasks == maker.runtime.tasks && ValidPlan(p) && !ReturnMeansDone(p.launch) && !NeedsSinksOfPreds(p)
  {
    hide *;
    ghost var g0;
    p, g0 := SharedSlotOverlaps(exec, maker);
    SlotPlanFacts(p, g0, 1);
    UnrelatedReturnEarly(p, g0, 1);
  }

  // ---------------------------------------------------------------- partitions without data or work

  /** Whatever the partitions bring, their inner graphs have no cycles. */
  ghost predicate AcyclicParts<N, M>(p: Plan<N, M>) {
    forall n :: n in p.g.nodes ==> n in p.parts && AcyclicPart(p.parts[n])
  }

  ghost predicate CanReturn(l: Launch) {
    exists run, i: nat :: IsRun(l, run) && i < |run| && Returned(l, run[i])
  }

  lemma InsideIsNoSource<N, M>(p: Plan<N, M>, x: nat, t: nat)
    requires IsPlan(p) && x < |p.g.nodes| && |p.los| == |p.g.nodes| + 1 && p.los[x] < t < p.los[x + 1]
    ensures t !in p.launch.sources
  {
    SourcesMeans(p, t);
    hide IsPlan, SourceSet;
    if t in p.launch.sources {
      var k: nat :| k < |p.g.nodes| && p.g.nodes[k] in SourceSet(p.g) && p.los[k] == t;
      PlanFacts(p, k);
      OnePartition(p, x, k, t);
    }
  }

  lemma NoNodesNoOrder<M>(g: Graph<M>)
    requires ValidGraph(g) && g.nodes == []
    ensures TopoOrder(g) == []
  {
    TopoOrderVisits(g);
    EmptyElems(TopoOrder(g));
  }

  /** A join without anything to join needs nothing, yet is no source. */
  lemma EmptyJoin<M>(tasks: seq<Task>, part: Part<M>, lo: nat, hi: nat) returns (t: nat)
    requires PartitionTasks(tasks, part, lo, hi) && AcyclicPart(part) && !ReadyPart(part)
    ensures lo < t < hi <= |tasks| && tasks[t].needs == []
    ensures t < hi - 1 ==> t + 2 < hi && tasks[t + 1].needs == [t] && t + 1 in tasks[hi - 1].needs
  {
    if part.numBlocks == 0 {
      t := hi - 1;
      assert HandlesFrom(OutLo(part, lo), 0) == [];
    } else {
      NoNodesNoOrder(part.g);
      t := OutLo(part, lo) - 1;
      assert Collected([], InnerLo(part, lo), SinkSet(part.g)) == [];
      assert HandlesFrom(OutLo(part, lo), part.numBlocks)[0] == t + 1;
    }
  }

  /** The sink task of a partition without data or work never completes. */
  lemma UnreadyNeverDone<N, M>(p: Plan<N, M>, run: seq<RunState>, k: nat, x: nat)
    requires IsPlan(p) && AcyclicParts(p) && IsRun(p.launch, run) && k < |run| && x < |p.g.nodes|
    requires p.g.nodes[x] in p.parts && !ReadyPart(p.parts[p.g.nodes[x]])
    ensures |p.recorded| == |p.g.nodes| && p.recorded[x] !in run[k].done
  {
    hide *;
    PlanFacts(p, x);
    PlanEnds(p);
    PartIsAcyclic(p, x);
    RunKeepsInv(p.launch, run, k);
    var l, s, lo, hi := p.launch, run[k], p.los[x], p.los[x + 1];
    var t := EmptyJoin(l.tasks, p.parts[p.g.nodes[x]], lo, hi);
    InsideIsNoSource(p, x, t);
    OnlyActivatedStart(l, run, k, t);
    NotStartedNotDone(l, s, t);
    if t < hi - 1 {
      NothingBehind(l, s, t, t + 1);
      NothingBehind(l, s, t + 1, hi - 1);
    }
  }

  lemma NotStartedNotDone(l: Launch, s: RunState, t: nat)
    requires RunInv(l, s) && t !in s.started
    ensures t !in s.done
  {
  }

  lemma NothingBehind(l: Launch, s: RunState, t: nat, u: nat)
    requires RunInv(l, s) && t !in s.done && l.base <= u < |l.tasks| && t in l.tasks[u].needs
    ensures u !in s.done
  {
  }

  lemma PartIsAcyclic<N, M>(p: Plan<N, M>, x: nat)
    requires AcyclicParts(p) && x < |p.g.nodes|
    ensures p.g.nodes[x] in p.parts && AcyclicPart(p.parts[p.g.nodes[x]])
  {
    assert p.g.nodes[x] in p.g.nodes;
    hide Lists, Acyclic;
  }

  /** When the host returns, every partition's sink task is complete. */
  lemma {:induction false} ReturnedSinksDone<N, M>(p: Plan<N, M>, run: seq<RunState>, k: nat, x: nat)
    requires IsPlan(p) && EdgesInCreationOrder(p) && AcyclicParts(p)
    requires IsRun(p.launch, run) && k < |run| && Returned(p.launch, run[k]) && x < |p.g.nodes|
    ensures |p.recorded| == |p.g.nodes| && p.recorded[x] in run[k].done
    decreases |p.g.nodes| - x
  {
    hide *;
    PlanEnds(p);
    PlanFacts(p, x);
    RunKeepsInv(p.launch, run, k);
    if IsSinkNode(p, x) {
      SinksMeans(p, p.recorded[x]);
      AwaitedIsDone(p.launch, run[k], p.recorded[x]);
    } else {
      EdgesInOrderMeansLater(p);
      var y := LaterSuccessor(p, x);
      ReturnedSinksDone(p, run, k, y);
      SinkDoneMeansPredDone(p, run, k, x, y);
    }
  }

  lemma AwaitedIsDone(l: Launch, s: RunState, h: nat)
    requires RunInv(l, s) && Returned(l, s) && h in l.sinks
    ensures h in s.done
  {
    var i :| 0 <= i < |l.sinks| && l.sinks[i] == h;
  }

  lemma LaterSuccessor<N, M>(p: Plan<N, M>, x: nat) returns (y: nat)
    requires SuccessorsCreatedLater(p) && x < |p.g.nodes| && !IsSinkNode(p, x)
    ensures x < y < |p.g.nodes| && Edge(p.g, p.g.nodes[x], p.g.nodes[y])
  {
    assert HasLaterSuccessor(p, x);
    y :| x < y < |p.g.nodes| && Edge(p.g, p.g.nodes[x], p.g.nodes[y]);
  }

  lemma SinkDoneMeansPredDone<N, M>(p: Plan<N, M>, run: seq<RunState>, k: nat, x: nat, y: nat)
    requires IsPlan(p) && AcyclicParts(p) && IsRun(p.launch, run) && k < |run| && |p.recorded| == |p.g.nodes|
    requires x < y < |p.g.nodes| && Edge(p.g, p.g.nodes[x], p.g.nodes[y]) && p.recorded[y] in run[k].done
    ensures p.recorded[x] in run[k].done
  {
    hide *;
    PlanEnds(p);
    PlanFacts(p, x);
    PlanFacts(p, y);
    RunKeepsInv(p.launch, run, k);
    EdgeIsNeeded(p, x, y);
    if !ReadyPart(p.parts[p.g.nodes[y]]) {
      UnreadyNeverDone(p, run, k, y);
    } else {
      PartitionIsBlock(p.launch.tasks, p.parts[p.g.nodes[y]], p.los[y], p.los[y + 1]);
      DoneIsStarted(p.launch, run[k], p.recorded[y]);
      BlockStartsWithSource(p.launch, run[k], p.los[y], p.los[y + 1], p.recorded[y]);
      NeedIsDone(p.launch, run[k], p.los[y], p.recorded[x]);
    }
  }

  lemma DoneIsStarted(l: Launch, s: RunState, t: nat)
    requires RunInv(l, s) && t in s.done
    ensures t in s.started
  {
  }

  /** A launch whose tasks all find what they need can be run to the end. */
  lemma ValidLaunchReturns(l: Launch)
    requires ValidLaunch(l)
    ensures CanReturn(l)
  {
    var d := Handles(l.base, |l.tasks|);
    assert Closed(l, d);
    hide ValidLaunch, Closed, IsRun, Handles;
    var run := RunClosed(l, d, |l.tasks|);
    DoneBelowAll(l, d);
    SinksAreNew(l);
    run := WaitForAll(l, run, |l.sinks|);
    assert Returned(l, run[|run| - 1]);
  }

  lemma SinksAreNew(l: Launch)
    requires ValidLaunch(l)
    ensures forall h :: h in l.sinks ==> h in Handles(l.base, |l.tasks|)
  {
  }

  /** With the creation order following the edges, the host gets control back if and only if every partition has data and work. */
  lemma ReturnsIffAllReady<N, M>(p: Plan<N, M>)
    requires IsPlan(p) && EdgesInCreationOrder(p) && AcyclicParts(p)
    ensures CanReturn(p.launch) <==> AllReady(p)
  {
    hide IsPlan, EdgesInCreationOrder, IsRun, Returned, ReadyPart, Lists, Acyclic;
    if AllReady(p) {
      PlanLaunchValid(p);
      ValidLaunchReturns(p.launch);
    } else if CanReturn(p.launch) {
      var n :| n in p.g.nodes && !(n in p.parts && ReadyPart(p.parts[n]));
      var run, i: nat :| IsRun(p.launch, run) && i < |run| && Returned(p.launch, run[i]);
      var x := IndexOf(p.g.nodes, n);
      ReturnedSinksDone(p, run, i, x);
      UnreadyNeverDone(p, run, i, x);
    }
  }

  // ---------------------------------------------------------------- a partition without data

  lemma OneAdded(dag: PartGraph, a: PartNode)
    requires dag.Abs() == WithNode(Graph([], map[]), a)
    ensures dag.allNodes == [a]
  {
  }

  method OneWithoutData() returns (partDAG: PartGraph, ghost inner: set<TaskNode>)
    ensures fresh(partDAG) && fresh(partDAG.allNodes) && fresh(inner) && partDAG.Valid() && |partDAG.allNodes| == 1
    ensures forall n :: n in partDAG.allNodes ==>
              n.data.sinkTask == 0 && Owned(n.data, inner) && AcyclicPart(PartOf(n.data)) && !ReadyPart(PartOf(n.data))
  {
    hide *;
    var part;
    part, inner := SmallPartition(0);
    partDAG := new Dag<Partition>();
    NothingAdded(partDAG);
    var a := partDAG.AddNode(part);
    OneAdded(partDAG, a);
  }

  lemma OneUnready<N, M>(p: Plan<N, M>)
    requires IsPlan(p) && |p.g.nodes| == 1
    requires forall n :: n in p.g.nodes ==> n in p.parts && AcyclicPart(p.parts[n]) && !ReadyPart(p.parts[n])
    ensures EdgesInCreationOrder(p) && AcyclicParts(p) && !AllReady(p)
  {
    assert ValidGraph(p.g);
    hide IsPlan, ValidGraph, AcyclicPart, ReadyPart;
    assert p.g.nodes[0] in p.g.nodes && !Edge(p.g, p.g.nodes[0], p.g.nodes[0]) by { NoSelfEdge(p.g, p.g.nodes[0]); }
  }

  /** A partition with work but without data blocks: no run of the tasks created for it returns to the host. */
  method NoDataNeverReturns(exec: OutOfCoreATMIexecutor, maker: TaskMaker) returns (ghost p: Plan<PartNode, TaskNode>)
    requires |exec.deviceDataSlots| > 0 && |maker.runtime.tasks| > 0
    modifies maker.runtime
    ensures p.launch.tasks == maker.runtime.tasks && IsPlan(p) && |p.g.nodes| == 1 && !CanReturn(p.launch)
  {
    hide *;
    var partDAG;
    ghost var inner;
    partDAG, inner := OneWithoutData();
    partDAG.NothingVisited();
    SlotGraphNodes(partDAG.Abs(), |exec.deviceDataSlots|);
    p := PrepareAndExecute(exec, maker, partDAG, inner);
    OneUnready(p);
    ReturnsIffAllReady(p);
  }
}
