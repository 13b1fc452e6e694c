/** The tasks created for one partition, and for a whole partition graph. */
module OutOfCoreTasks {
  import opened Sequences
  import opened Graphs
  import opened TaskDag
  import opened AsyncRuntime
  import opened DagExecutor
  import opened OutOfCore

  /** Some task after `t` and before `hi` needs `t`. */
  ghost predicate NeededBefore(tasks: seq<Task>, t: nat, hi: nat) {
    exists u :: t < u < hi && u < |tasks| && t in tasks[u].needs
  }

  /** Task `t` waits for something, and only for `entry` or for tasks between `lo` and itself. */
  ghost predicate WaitsWithin(task: Task, entry: nat, lo: nat, t: nat) {
    task.needs != [] && forall h :: h in task.needs ==> h == entry || lo <= h < t
  }

  /** Tasks `lo..hi` form one stage behind `entry`: all of them wait for it, and the last one waits for all of them. */
  ghost predicate Stage(tasks: seq<Task>, entry: nat, lo: nat, hi: nat) {
    && entry < lo < hi <= |tasks|
    && (forall t :: lo <= t < hi ==> WaitsWithin(tasks[t], entry, lo, t))
    && (forall t: nat :: lo <= t < hi - 1 ==> NeededBefore(tasks, t, hi))
    && NeededBefore(tasks, entry, hi)
  }

  /** Tasks `lo..hi` belong to one partition: `lo` is its source task and `hi - 1` its sink task. */
  ghost predicate IsBlock(tasks: seq<Task>, lo: nat, hi: nat) {
    && lo < hi <= |tasks|
    && (forall t :: lo < t < hi ==> WaitsWithin(tasks[t], lo, lo, t))
    && (forall t: nat :: lo <= t < hi - 1 ==> NeededBefore(tasks, t, hi))
  }

  lemma StagesMakeBlock(tasks: seq<Task>, lo: nat, a: nat, b: nat, hi: nat)
    requires Stage(tasks, lo, lo + 1, a) && Stage(tasks, a - 1, a, b) && Stage(tasks, b - 1, b, hi)
    ensures IsBlock(tasks, lo, hi)
  {
    forall t: nat | lo <= t < hi - 1 ensures NeededBefore(tasks, t, hi) {
      assert NeededBefore(tasks, t, a) || NeededBefore(tasks, t, b) || NeededBefore(tasks, t, hi);
    }
  }

  lemma NeededGrows(tasks: seq<Task>, more: seq<Task>, t: nat, hi: nat)
    requires NeededBefore(tasks, t, hi)
    ensures NeededBefore(tasks + more, t, hi)
  {
    var u :| t < u < hi && u < |tasks| && t in tasks[u].needs;
    assert t in (tasks + more)[u].needs;
  }

  lemma StageGrows(tasks: seq<Task>, more: seq<Task>, entry: nat, lo: nat, hi: nat)
    requires Stage(tasks, entry, lo, hi)
    ensures Stage(tasks + more, entry, lo, hi)
  {
    forall t: nat | lo <= t < hi - 1 ensures NeededBefore(tasks + more, t, hi) { NeededGrows(tasks, more, t, hi); }
    NeededGrows(tasks, more, entry, hi);
  }

  /** What `MakeDAGtasks` creates for the `i`-th visited node of an inner graph. */
  ghost function InnerTask<M>(order: seq<M>, preds: map<M, seq<M>>, entry: nat, base: nat, i: nat): Task
    requires PredsVisitedFirst(order, preds) && i < |order|
  {
    if preds[order[i]] == [] then Task([entry]) else TaskFor(order, preds, base, i)
  }

  ghost function HandlesFrom(lo: nat, n: nat): seq<nat> {
    seq(n, k requires 0 <= k => lo + k)
  }

  /** From `lo` on: one copy per data block, each waiting for `entry` alone, and a null task waiting for all the copies. */
  ghost predicate CopyStage(tasks: seq<Task>, numBlocks: nat, entry: nat, lo: nat) {
    && lo + numBlocks < |tasks|
    && (forall t :: lo <= t < lo + numBlocks ==> tasks[t] == Task([entry]))
    && tasks[lo + numBlocks] == Task(HandlesFrom(lo, numBlocks))
  }

  /** From `lo` on: one task per visited node, the sources waiting for `entry`, and a null task waiting for the sinks. */
  ghost predicate InnerStage<M>(tasks: seq<Task>, g: Graph<M>, preds: map<M, seq<M>>, entry: nat, lo: nat) {
    var order := TopoOrder(g);
    && ValidGraph(g) && PredsVisitedFirst(order, preds) && lo + |order| < |tasks|
    && (forall k :: 0 <= k < |order| ==> tasks[lo + k] == InnerTask(order, preds, entry, lo, k))
    && tasks[lo + |order|] == Task(Collected(order, lo, SinkSet(g)))
  }

  /** What a partition brings: its number of data blocks, and its inner graph with every node's list of predecessors. */
  datatype Part<M> = Part(numBlocks: nat, g: Graph<M>, preds: map<M, seq<M>>)

  /** The first task of the inner graph, and the first copy out, of a partition with source task `lo`. */
  ghost function InnerLo<M>(part: Part<M>, lo: nat): nat { lo + part.numBlocks + 2 }

  ghost function OutLo<M>(part: Part<M>, lo: nat): nat { InnerLo(part, lo) + |TopoOrder(part.g)| + 1 }

  /** Tasks `lo..hi` are one partition's: source task, copies in, inner graph, copies out, the last being its sink task. */
  ghost predicate PartitionTasks<M>(tasks: seq<Task>, part: Part<M>, lo: nat, hi: nat) {
    && CopyStage(tasks, part.numBlocks, lo, lo + 1)
    && InnerStage(tasks, part.g, part.preds, InnerLo(part, lo) - 1, InnerLo(part, lo))
    && CopyStage(tasks, part.numBlocks, OutLo(part, lo) - 1, OutLo(part, lo))
    && hi == OutLo(part, lo) + part.numBlocks + 1
  }

  /** Data to copy, and a non-empty inner graph without cycles. */
  ghost predicate ReadyPart<M>(part: Part<M>) {
    part.numBlocks > 0 && Lists(part.g, part.preds) && Acyclic(part.g) && part.g.nodes != []
  }

  ghost predicate AcyclicPart<M>(part: Part<M>) {
    Lists(part.g, part.preds) && Acyclic(part.g)
  }

  lemma CopyStageGrows(tasks: seq<Task>, more: seq<Task>, numBlocks: nat, entry: nat, lo: nat)
    requires CopyStage(tasks, numBlocks, entry, lo)
    ensures CopyStage(tasks + more, numBlocks, entry, lo)
  {
  }

  lemma InnerStageGrows<M>(tasks: seq<Task>, more: seq<Task>, g: Graph<M>, preds: map<M, seq<M>>, entry: nat, lo: nat)
    requires InnerStage(tasks, g, preds, entry, lo)
    ensures InnerStage(tasks + more, g, preds, entry, lo)
  {
    hide TopoOrder, ValidGraph, PredsVisitedFirst, InnerTask, Collected;
    var order := TopoOrder(g);
    forall k | 0 <= k < |order| ensures (tasks + more)[lo + k] == InnerTask(order, preds, entry, lo, k) {
      assert (tasks + more)[lo + k] == tasks[lo + k];
    }
  }

  lemma PartitionGrows<M>(tasks: seq<Task>, more: seq<Task>, part: Part<M>, lo: nat, hi: nat)
    requires PartitionTasks(tasks, part, lo, hi)
    ensures PartitionTasks(tasks + more, part, lo, hi)
  {
    hide CopyStage, InnerStage, TopoOrder;
    CopyStageGrows(tasks, more, part.numBlocks, lo, lo + 1);
    InnerStageGrows(tasks, more, part.g, part.preds, InnerLo(part, lo) - 1, InnerLo(part, lo));
    CopyStageGrows(tasks, more, part.numBlocks, OutLo(part, lo) - 1, OutLo(part, lo));
  }

  lemma CopyIsStage(tasks: seq<Task>, numBlocks: nat, entry: nat, lo: nat)
    requires CopyStage(tasks, numBlocks, entry, lo) && numBlocks > 0 && entry < lo
    ensures Stage(tasks, entry, lo, lo + numBlocks + 1)
  {
    var hi := lo + numBlocks + 1;
    var needs := tasks[hi - 1].needs;
    forall t: nat | lo <= t < hi - 1 ensures NeededBefore(tasks, t, hi) {
      assert needs[t - lo] == t && t in needs;
    }
    assert entry in tasks[lo].needs;
    assert needs[0] == lo;
  }

  lemma InnerIsStage<M>(tasks: seq<Task>, g: Graph<M>, preds: map<M, seq<M>>, entry: nat, lo: nat)
    requires InnerStage(tasks, g, preds, entry, lo) && Lists(g, preds) && Acyclic(g) && g.nodes != [] && entry < lo
    ensures Stage(tasks, entry, lo, lo + |TopoOrder(g)| + 1)
  {
    hide *;
    InnerStageSplit(tasks, g, preds, entry, lo);
    var n, sinks := |TopoOrder(g)|, Collected(TopoOrder(g), lo, SinkSet(g));
    InnerMakesStage(g, preds, entry, tasks[..lo], tasks[lo..lo + n], sinks);
    StageGrows(tasks[..lo] + tasks[lo..lo + n] + [Task(sinks)], tasks[lo + n + 1..], entry, lo, lo + n + 1);
  }

  lemma InnerStageSplit<M>(tasks: seq<Task>, g: Graph<M>, preds: map<M, seq<M>>, entry: nat, lo: nat)
    requires InnerStage(tasks, g, preds, entry, lo) && Lists(g, preds) && Acyclic(g) && g.nodes != [] && entry < lo
    ensures var n := |TopoOrder(g)|;
            && ValidGraph(g) && lo + n < |tasks| && InnerMatch(g, preds, entry, tasks[..lo], tasks[lo..lo + n])
            && tasks[..lo] + tasks[lo..lo + n] + [Task(Collected(TopoOrder(g), lo, SinkSet(g)))] + tasks[lo + n + 1..] == tasks
  {
    hide TopoOrder, PredsVisitedFirst, InnerTask, ValidGraph, Acyclic, Collected, SinkSet, Lists;
    var order := TopoOrder(g);
    forall k | 0 <= k < |order| ensures tasks[lo..lo + |order|][k] == InnerTask(order, preds, entry, lo, k) {
      assert tasks[lo..lo + |order|][k] == tasks[lo + k];
    }
  }

  /** The tasks of a ready partition are three stages, each behind the last task of the one before. */
  lemma PartitionStages<M>(tasks: seq<Task>, part: Part<M>, lo: nat, hi: nat)
    requires PartitionTasks(tasks, part, lo, hi) && ReadyPart(part)
    ensures Stage(tasks, lo, lo + 1, InnerLo(part, lo)) && lo + 2 < InnerLo(part, lo)
    ensures Stage(tasks, InnerLo(part, lo) - 1, InnerLo(part, lo), OutLo(part, lo)) && InnerLo(part, lo) < OutLo(part, lo)
    ensures Stage(tasks, OutLo(part, lo) - 1, OutLo(part, lo), hi) && OutLo(part, lo) + 1 < hi
  {
    hide CopyStage, InnerStage, Stage, IsBlock, TopoOrder, Lists, Acyclic;
    CopyIsStage(tasks, part.numBlocks, lo, lo + 1);
    InnerIsStage(tasks, part.g, part.preds, InnerLo(part, lo) - 1, InnerLo(part, lo));
    CopyIsStage(tasks, part.numBlocks, OutLo(part, lo) - 1, OutLo(part, lo));
  }

  /** They hang together. */
  lemma PartitionIsBlock<M>(tasks: seq<Task>, part: Part<M>, lo: nat, hi: nat)
    requires PartitionTasks(tasks, part, lo, hi) && ReadyPart(part)
    ensures IsBlock(tasks, lo, hi) && lo + 4 < hi
  {
    hide *;
    PartitionStages(tasks, part, lo, hi);
    StagesMakeBlock(tasks, lo, InnerLo(part, lo), OutLo(part, lo), hi);
  }

  class TaskMaker {
    const exec: ATMIdagExecutor
    const runtime: Runtime

    constructor (e: ATMIdagExecutor)
      ensures exec == e && runtime == e.runtime
    {
      exec, runtime := e, e.runtime;
    }

    method MakeNullTask(preds: seq<nat>) returns (h: nat)
      modifies runtime
      ensures h == |old(runtime.tasks)| && runtime.tasks == old(runtime.tasks) + [Task(preds)]
    {
      h := runtime.CreateTask(preds);
    }

    /** One asynchronous copy per data block, joined by a null task. */
    method MakeMemCpyTasks(numBlocks: nat, predTask: nat) returns (sink: nat)
      modifies runtime
      ensures old(runtime.tasks) <= runtime.tasks && sink == |runtime.tasks| - 1 == |old(runtime.tasks)| + numBlocks
      ensures CopyStage(runtime.tasks, numBlocks, predTask, |old(runtime.tasks)|)
    {
      ghost var base := |runtime.tasks|;
      var memTasks: seq<nat> := [];
      for i := 0 to numBlocks
        invariant |runtime.tasks| == base + i && old(runtime.tasks) <= runtime.tasks
        invariant memTasks == HandlesFrom(base, i)
        invariant forall t :: base <= t < base + i ==> runtime.tasks[t] == Task([predTask])
      {
        var th := runtime.CreateTask([predTask]);
        memTasks := memTasks + [th];
      }
      sink := MakeNullTask(memTasks);
    }

    /** The traversal's function argument in `MakeDAGtasks`: sources wait for the copies in. */
    method CreateInner(task: TaskNode, memCpySink: nat, ghost order: seq<TaskNode>, ghost base: nat) returns (h: nat)
      requires forall p :: p in task.preds ==> p in order && p.data.handle == base + IndexOf(order, p)
      requires task.IsSrc() <==> task.preds == []
      modifies runtime, task`data
      ensures h == |old(runtime.tasks)|
      ensures runtime.tasks == old(runtime.tasks) +
                [if task.preds == [] then Task([memCpySink]) else Task(HandlesOf(order, base, task.preds))]
      ensures task.data == old(task.data).(handle := h)
    {
      var predHandles;
      if task.IsSrc() {
        predHandles := [memCpySink];
      } else {
        predHandles := exec.CollectPredHandles(task, order, base);
      }
      h := runtime.CreateTask(predHandles);
      task.data := task.data.(handle := h);
    }

    method CreateInnerTasks(visits: seq<TaskNode>, memCpySink: nat, ghost preds: map<TaskNode, seq<TaskNode>>,
                            ghost sinkSet: set<TaskNode>)
      returns (sinks: seq<nat>, ghost created: seq<Task>)
      requires NoDup(visits) && PredsVisitedFirst(visits, preds)
      requires forall n :: n in visits ==> preds[n] == n.preds && (n.IsSrc() <==> n.preds == [])
      requires forall n :: n in visits ==> (n.IsSink() <==> n in sinkSet)
      modifies runtime, set n: TaskNode | n in visits :: n`data
      ensures runtime.tasks == old(runtime.tasks) + created && |created| == |visits|
      ensures forall k :: 0 <= k < |visits| ==> created[k] == InnerTask(visits, preds, memCpySink, |old(runtime.tasks)|, k)
      ensures sinks == Collected(visits, |old(runtime.tasks)|, sinkSet)
    {
      hide NoDup, PredsVisitedFirst, HandlesOf, Collected;
      ghost var base := |runtime.tasks|;
      created := [];
      CollectedNone(visits, base, sinkSet);
      sinks := [];
      for i := 0 to |visits|
        invariant runtime.tasks == old(runtime.tasks) + created && |created| == i
        invariant forall k :: 0 <= k < i ==> created[k] == InnerTask(visits, preds, memCpySink, base, k)
        invariant forall k :: 0 <= k < i ==> visits[k].data.handle == base + k
        invariant sinks == Collected(visits[..i], base, sinkSet)
      {
        var task := visits[i];
        assert task in visits;
        PredsHaveHandles(visits, preds, i);
        DistinctFrom(visits, i);
        var h := CreateInner(task, memCpySink, visits, base);
        created := created + [InnerTask(visits, preds, memCpySink, base, i)];
        CollectedPush(visits, base, sinkSet, i);
        sinks := sinks + (if task.IsSink() then [h] else []);
      }
      assert visits[..|visits|] == visits;
    }

    /** The inner graph's tasks, behind the copies in and joined by a null task. */
    method MakeDAGtasks(dag: TaskGraph, memCpySink: nat) returns (finalSink: nat)
      requires dag.Valid()
      modifies runtime, dag.allNodes`depCounter, dag.allNodes`data
      ensures old(runtime.tasks) <= runtime.tasks
      ensures finalSink == |runtime.tasks| - 1 == |old(runtime.tasks)| + |TopoOrder(dag.Abs())|
      ensures InnerStage(runtime.tasks, dag.Abs(), dag.PredLists(), memCpySink, |old(runtime.tasks)|)
    {
      hide *;
      ghost var before := runtime.tasks;
      var order := dag.ForEachNodeTopoOrder();
      InnerOrderFacts(dag, order);
      var sinkHandles;
      ghost var created;
      sinkHandles, created := CreateInnerTasks(order, memCpySink, dag.PredLists(), dag.Sinks());
      finalSink := MakeNullTask(sinkHandles);
      assert runtime.tasks == before + created + [Task(sinkHandles)];
      InnerMatches(dag, order, before, created, memCpySink, sinkHandles);
    }

    /** The sink tasks of a partition's predecessors, as recorded in them right now. */
    method CollectPredHandles(node: PartNode) returns (handles: seq<nat>)
      ensures |handles| == |node.preds|
      ensures forall j :: 0 <= j < |handles| ==> handles[j] == node.preds[j].data.sinkTask
    {
      handles := [];
      for j := 0 to |node.preds|
        invariant |handles| == j
        invariant forall k :: 0 <= k < j ==> handles[k] == node.preds[k].data.sinkTask
      {
        handles := handles + [node.preds[j].data.sinkTask];
      }
    }

    /** Source task, copies in, inner graph, copies out, sink task. */
    method MakeTasksForPartition(pNode: PartNode, allSources: seq<nat>, allSinks: seq<nat>)
      returns (sources: seq<nat>, sinks: seq<nat>)
      requires pNode.data.dag.Valid() && (pNode.IsSrc() <==> pNode.preds == [])
      modifies runtime, pNode`data, pNode.data.dag.allNodes`depCounter, pNode.data.dag.allNodes`data
      ensures old(runtime.tasks) <= runtime.tasks
      ensures PartitionTasks(runtime.tasks, old(PartOf(pNode.data)), |old(runtime.tasks)|, |runtime.tasks|)
      ensures pNode.data == old(pNode.data).(srcTask := |old(runtime.tasks)|, sinkTask := |runtime.tasks| - 1)
      ensures var needs := runtime.tasks[|old(runtime.tasks)|].needs;
              |needs| == |pNode.preds| && forall j :: 0 <= j < |needs| ==> needs[j] == old(pNode.preds[j].data.sinkTask)
      ensures sources == allSources + if pNode.IsSrc() then [pNode.data.srcTask] else []
      ensures sinks == allSinks + if pNode.IsSink() then [pNode.data.sinkTask] else []
    {
      hide *;
      ghost var lo, part := |runtime.tasks|, PartOf(pNode.data);
      PartOfIs(pNode.data);
      var preds := [];
      if !pNode.IsSrc() {
        preds := CollectPredHandles(pNode);
      }
      var srcTask := MakeNullTask(preds);
      pNode.data := pNode.data.(srcTask := srcTask);
      ghost var t0 := runtime.tasks;
      var memCpySink := MakeMemCpyTasks(pNode.data.numBlocks, srcTask);
      ghost var t1 := runtime.tasks;
      var dagSink := MakeDAGtasks(pNode.data.dag, memCpySink);
      ghost var t2 := runtime.tasks;
      var sinkTask := MakeMemCpyTasks(pNode.data.numBlocks, dagSink);
      pNode.data := pNode.data.(sinkTask := sinkTask);
      sources := allSources + (if pNode.IsSrc() then [srcTask] else []);
      sinks := allSinks + (if pNode.IsSink() then [sinkTask] else []);
      StagesMakePartition(t1, t2, runtime.tasks, part, lo);
      assert runtime.tasks[lo] == t0[lo];
    }

    /** `MakeTasksForPartition` for the next inserted partition; `recorded` are the sink tasks read before it. */
    method CreateNext(partDAG: PartGraph, pNode: PartNode, allSources: seq<nat>, allSinks: seq<nat>,
                      ghost parts: map<PartNode, Part<TaskNode>>, ghost base: nat, ghost los: seq<nat>, ghost recorded: seq<nat>,
                      ghost inner: set<TaskNode>)
      returns (sources: seq<nat>, sinks: seq<nat>)
      requires partDAG.Valid() && 0 < |los| <= |partDAG.allNodes| && pNode == partDAG.allNodes[|los| - 1]
      requires Owned(pNode.data, inner) && Records(partDAG.allNodes, recorded)
      requires pNode in parts && parts[pNode] == PartOf(pNode.data)
      requires CreatedSoFar(partDAG.allNodes, partDAG.PredLists(), parts, runtime.tasks, base, los, recorded)
      modifies runtime, pNode`data, inner`depCounter, inner`data
      ensures old(runtime.tasks) <= runtime.tasks && los[|los| - 1] == |old(runtime.tasks)| < |runtime.tasks|
      ensures CreatedSoFar(partDAG.allNodes, partDAG.PredLists(), parts, runtime.tasks, base, los + [|runtime.tasks|],
                           recorded[|los| - 1 := |runtime.tasks| - 1])
      ensures pNode.data == old(pNode.data).(srcTask := |old(runtime.tasks)|, sinkTask := |runtime.tasks| - 1)
      ensures sources == allSources + if pNode.IsSrc() then [pNode.data.srcTask] else []
      ensures sinks == allSinks + if pNode.IsSink() then [pNode.data.sinkTask] else []
    {
      ghost var before, nodes, preds := runtime.tasks, partDAG.allNodes, partDAG.PredLists();
      ReadyToCreate(partDAG, pNode, parts, before, base, los, recorded, inner);
      hide *;
      sources, sinks := MakeTasksForPartition(pNode, allSources, allSinks);
      CreatedNext(nodes, preds, parts, before, runtime.tasks, base, los, recorded);
    }

    /** One round of `ExecutePartitionDAG`. */
    method CreatePartition(partDAG: PartGraph, pNode: PartNode, allSources: seq<nat>, allSinks: seq<nat>,
                           ghost parts: map<PartNode, Part<TaskNode>>, ghost base: nat, ghost los: seq<nat>, ghost recorded: seq<nat>,
                           ghost inner: set<TaskNode>)
      returns (sources: seq<nat>, sinks: seq<nat>, ghost los': seq<nat>, ghost recorded': seq<nat>)
      requires partDAG.Valid() && 0 < |los| <= |partDAG.allNodes| && pNode == partDAG.allNodes[|los| - 1]
      requires Owned(pNode.data, inner) && Records(partDAG.allNodes, recorded)
      requires pNode in parts && parts[pNode] == PartOf(pNode.data)
      requires CreatedSoFar(partDAG.allNodes, partDAG.PredLists(), parts, runtime.tasks, base, los, recorded)
      requires EndsSoFar(partDAG, los, recorded, |los| - 1, allSources, allSinks)
      modifies runtime, pNode`data, inner`depCounter, inner`data
      ensures old(runtime.tasks) <= runtime.tasks && |los'| == |los| + 1
      ensures CreatedSoFar(partDAG.allNodes, partDAG.PredLists(), parts, runtime.tasks, base, los', recorded')
      ensures EndsSoFar(partDAG, los', recorded', |los|, sources, sinks) && Records(partDAG.allNodes, recorded')
      ensures forall k :: |los| <= k < |partDAG.allNodes| ==> partDAG.allNodes[k].data == old(partDAG.allNodes[k].data)
    {
      hide *;
      DistinctNodes(partDAG, |los| - 1);
      RecordsEach(partDAG.allNodes, recorded);
      sources, sinks := CreateNext(partDAG, pNode, allSources, allSinks, parts, base, los, recorded, inner);
      los', recorded' := los + [|runtime.tasks|], recorded[|los| - 1 := |runtime.tasks| - 1];
      RecordsAll(partDAG.allNodes, recorded');
      EndsPush(partDAG, los, recorded, los', recorded', allSources, allSinks);
    }

    /** Create every partition's tasks in insertion order; the host then activates `sources` and waits on `sinks`. */
    method ExecutePartitionDAG(partDAG: PartGraph, ghost inner: set<TaskNode>)
      returns (sources: seq<nat>, sinks: seq<nat>, ghost parts: map<PartNode, Part<TaskNode>>, ghost los: seq<nat>, ghost recorded: seq<nat>)
      requires partDAG.Valid()
      requires forall k :: 0 <= k < |partDAG.allNodes| ==> Owned(partDAG.allNodes[k].data, inner)
      requires forall k :: 0 <= k < |partDAG.allNodes| ==> partDAG.allNodes[k].data.sinkTask < |runtime.tasks|
      modifies runtime, set n: PartNode | n in partDAG.allNodes :: n`data
      modifies inner`depCounter, inner`data
      ensures old(runtime.tasks) <= runtime.tasks && |los| == |partDAG.allNodes| + 1
      ensures forall n :: n in partDAG.allNodes ==> n in parts && parts[n] == old(PartOf(n.data))
      ensures CreatedSoFar(partDAG.allNodes, partDAG.PredLists(), parts, runtime.tasks, |old(runtime.tasks)|, los, recorded)
      ensures EndsSoFar(partDAG, los, recorded, |partDAG.allNodes|, sources, sinks)
    {
      hide *;
      var nodes: seq<PartNode> := partDAG.allNodes;
      ghost var n, base := |nodes|, |runtime.tasks|;
      sources, sinks := [], [];
      parts := map m: PartNode | m in nodes :: PartOf(m.data);
      los := [base];
      recorded := RecordedSinks(nodes);
      NothingCreated(partDAG, parts, runtime.tasks, recorded);
      for i := 0 to |nodes|
        invariant |los| == i + 1 && old(runtime.tasks) <= runtime.tasks
        invariant CreatedSoFar(nodes, partDAG.PredLists(), parts, runtime.tasks, base, los, recorded)
        invariant EndsSoFar(partDAG, los, recorded, i, sources, sinks) && Records(nodes, recorded)
        invariant forall k :: i <= k < n ==> nodes[k].data == old(nodes[k].data)
      {
        var pNode := nodes[i];
        assert pNode in nodes && pNode.data == old(pNode.data);
        sources, sinks, los, recorded := CreatePartition(partDAG, pNode, sources, sinks, parts, base, los, recorded, inner);
      }
    }
  }

  lemma NothingCreated(dag: PartGraph, parts: map<PartNode, Part<TaskNode>>, tasks: seq<Task>, recorded: seq<nat>)
    requires Records(dag.allNodes, recorded)
    requires forall k :: 0 <= k < |dag.allNodes| ==> dag.allNodes[k].data.sinkTask < |tasks|
    ensures CreatedSoFar(dag.allNodes, dag.PredLists(), parts, tasks, |tasks|, [|tasks|], recorded)
    ensures EndsSoFar(dag, [|tasks|], recorded, 0, [], [])
  {
  }

  /** The partition's data blocks and inner graph. */
  ghost function PartOf(p: Partition): Part<TaskNode>
    reads p.dag`allNodes, p.dag.allNodes`succs, p.dag.allNodes`preds
  {
    Part(p.numBlocks, p.dag.Abs(), p.dag.PredLists())
  }

  lemma PartOfIs(p: Partition)
    ensures PartOf(p) == Part(p.numBlocks, p.dag.Abs(), p.dag.PredLists())
  {
  }

  lemma StagesMakePartition<M>(t1: seq<Task>, t2: seq<Task>, tasks: seq<Task>, part: Part<M>, lo: nat)
    requires CopyStage(t1, part.numBlocks, lo, lo + 1) && |t1| == lo + part.numBlocks + 2 && t1 <= t2 <= tasks
    requires InnerStage(t2, part.g, part.preds, |t1| - 1, |t1|) && |t2| == |t1| + |TopoOrder(part.g)| + 1
    requires CopyStage(tasks, part.numBlocks, |t2| - 1, |t2|) && |tasks| == |t2| + part.numBlocks + 1
    ensures PartitionTasks(tasks, part, lo, |tasks|)
  {
    hide CopyStage, InnerStage, TopoOrder;
    assert t1 + tasks[|t1|..] == tasks && t2 + tasks[|t2|..] == tasks;
    CopyStageGrows(t1, tasks[|t1|..], part.numBlocks, lo, lo + 1);
    InnerStageGrows(t2, tasks[|t2|..], part.g, part.preds, |t1| - 1, |t1|);
  }

  /** Sources and sinks collected from the first `i` inserted partitions. */
  ghost predicate EndsSoFar(dag: PartGraph, los: seq<nat>, recorded: seq<nat>, i: nat, sources: seq<nat>, sinks: seq<nat>)
    reads dag`allNodes, dag.allNodes`numPred, dag.allNodes`succs
  {
    && i <= |dag.allNodes| && i <= |los| && i <= |recorded|
    && sources == HandlesAt(dag.allNodes[..i], los[..i], dag.Sources())
    && sinks == HandlesAt(dag.allNodes[..i], recorded[..i], dag.Sinks())
  }

  lemma EndsPush(dag: PartGraph, los: seq<nat>, recorded: seq<nat>, los': seq<nat>, recorded': seq<nat>, sources: seq<nat>, sinks: seq<nat>)
    requires 0 < |los| <= |dag.allNodes| == |recorded| && EndsSoFar(dag, los, recorded, |los| - 1, sources, sinks)
    requires |los'| == |los| + 1 && los'[..|los|] == los
    requires |recorded'| == |recorded| && recorded'[..|los| - 1] == recorded[..|los| - 1]
    ensures var n := dag.allNodes[|los| - 1];
            EndsSoFar(dag, los', recorded', |los|,
                      sources + (if n.IsSrc() then [los[|los| - 1]] else []),
                      sinks + (if n.IsSink() then [recorded'[|los| - 1]] else []))
  {
    var i := |los| - 1;
    assert dag.allNodes[i] in dag.allNodes;
    HandlesPush(dag.allNodes, los', i, dag.Sources());
    HandlesPush(dag.allNodes, recorded', i, dag.Sinks());
    assert los'[..i] == los[..i];
  }

  /** The handles `hs[k]` of the nodes that lie in `s`, in node order. */
  ghost function HandlesAt<N>(nodes: seq<N>, hs: seq<nat>, s: set<N>): (r: seq<nat>)
    requires |hs| == |nodes|
    ensures forall h :: h in r <==> exists k :: 0 <= k < |nodes| && nodes[k] in s && hs[k] == h
  {
    if nodes == [] then []
    else
      var last := |nodes| - 1;
      HandlesAt(nodes[..last], hs[..last], s) + (if nodes[last] in s then [hs[last]] else [])
  }

  lemma HandlesPush<N>(nodes: seq<N>, hs: seq<nat>, i: nat, s: set<N>)
    requires i < |nodes| && i < |hs|
    ensures HandlesAt(nodes[..i + 1], hs[..i + 1], s) == HandlesAt(nodes[..i], hs[..i], s) + if nodes[i] in s then [hs[i]] else []
  {
    assert nodes[..i + 1][..i] == nodes[..i] && hs[..i + 1][..i] == hs[..i];
  }

  lemma DistinctNodes(dag: PartGraph, i: nat)
    requires dag.Valid() && i < |dag.allNodes|
    ensures forall k :: 0 <= k < |dag.allNodes| && k != i ==> dag.allNodes[k] != dag.allNodes[i]
  {
  }

  ghost function RecordedSinks(nodes: seq<PartNode>): (r: seq<nat>)
    reads nodes`data
    ensures Records(nodes, r)
  {
    if nodes == [] then [] else RecordedSinks(nodes[..|nodes| - 1]) + [nodes[|nodes| - 1].data.sinkTask]
  }

  /** `recorded` are the sink tasks currently recorded in the partitions. */
  ghost predicate Records(nodes: seq<PartNode>, recorded: seq<nat>)
    reads nodes`data
  {
    |recorded| == |nodes| && forall k :: 0 <= k < |nodes| ==> nodes[k].data.sinkTask == recorded[k]
  }

  lemma RecordsEach(nodes: seq<PartNode>, recorded: seq<nat>)
    requires Records(nodes, recorded)
    ensures |recorded| == |nodes| && forall k :: 0 <= k < |nodes| ==> nodes[k].data.sinkTask == recorded[k]
  {
  }

  lemma RecordsAll(nodes: seq<PartNode>, recorded: seq<nat>)
    requires |recorded| == |nodes| && forall k :: 0 <= k < |nodes| ==> nodes[k].data.sinkTask == recorded[k]
    ensures Records(nodes, recorded)
  {
  }

  lemma ReadyToCreate(dag: PartGraph, n: PartNode, parts: map<PartNode, Part<TaskNode>>, before: seq<Task>, base: nat, los: seq<nat>,
                      sinks: seq<nat>, inner: set<TaskNode>)
    requires dag.Valid() && 0 < |los| <= |dag.allNodes| && n == dag.allNodes[|los| - 1] && Records(dag.allNodes, sinks)
    requires Owned(n.data, inner) && n in parts && parts[n] == PartOf(n.data)
    requires CreatedSoFar(dag.allNodes, dag.PredLists(), parts, before, base, los, sinks)
    ensures (n.IsSrc() <==> n.preds == []) && los[|los| - 1] == |before|
    ensures n in dag.PredLists() && dag.PredLists()[n] == n.preds
    ensures forall k :: 0 <= k < |dag.allNodes| && k != |los| - 1 ==> dag.allNodes[k] != n
    ensures forall p :: p in n.preds ==> p in dag.allNodes
    ensures forall j :: 0 <= j < |n.preds| ==> n.preds[j].data.sinkTask == sinks[IndexOf(dag.allNodes, n.preds[j])]
    ensures n.data.dag.Valid() && n in parts && parts[n] == PartOf(n.data)
    ensures forall m :: m in n.data.dag.allNodes ==> m in inner
  {
    PredsAmongNodes(dag, n);
    DistinctFrom(dag.allNodes, |los| - 1);
    assert dag.PredLists().Keys == Elems(dag.allNodes);
    hide Dag.Valid, PartitionTasks, PartOf;
  }

  /** The `i`-th partition's source task needs the sink tasks of the predecessors created before it, and old handles for the rest. */
  ghost predicate SrcNeeds<N>(nodes: seq<N>, preds: seq<N>, needs: seq<nat>, base: nat, los: seq<nat>, i: nat) {
    && i < |los| && |needs| == |preds|
    && (forall p :: p in preds ==> p in nodes)
    && (forall j :: 0 <= j < |preds| ==>
          var k := IndexOf(nodes, preds[j]);
          if k < i then needs[j] + 1 == los[k + 1] else needs[j] < base)
  }

  /** The `k`-th inserted partition owns the tasks from `los[k]` up to `los[k + 1]`, and recorded the last as its sink task. */
  ghost predicate PartitionAt<N, M>(nodes: seq<N>, preds: map<N, seq<N>>, parts: map<N, Part<M>>, tasks: seq<Task>, base: nat,
                                    los: seq<nat>, sinks: seq<nat>, k: nat)
  {
    && k + 1 < |los| && k < |nodes| && k < |sinks|
    && los[k] < los[k + 1] <= |tasks| && sinks[k] + 1 == los[k + 1]
    && nodes[k] in parts && PartitionTasks(tasks, parts[nodes[k]], los[k], los[k + 1])
    && nodes[k] in preds && SrcNeeds(nodes, preds[nodes[k]], tasks[los[k]].needs, base, los, k)
  }

  /** The first `|los| - 1` inserted partitions have their tasks; the others still hold handles from before `base`. */
  ghost predicate CreatedSoFar<N, M>(nodes: seq<N>, preds: map<N, seq<N>>, parts: map<N, Part<M>>, tasks: seq<Task>, base: nat,
                                     los: seq<nat>, sinks: seq<nat>)
  {
    && 0 < |los| <= |nodes| + 1 && |sinks| == |nodes|
    && los[0] == base && los[|los| - 1] == |tasks|
    && (forall k: nat :: k < |los| - 1 ==> PartitionAt(nodes, preds, parts, tasks, base, los, sinks, k))
    && (forall k :: |los| - 1 <= k < |nodes| ==> sinks[k] < base)
  }

  lemma PartitionAtGrows<N, M>(nodes: seq<N>, preds: map<N, seq<N>>, parts: map<N, Part<M>>, before: seq<Task>, more: seq<Task>, base: nat,
                               los: seq<nat>, hi: nat, sinks: seq<nat>, i: nat, v: nat, k: nat)
    requires PartitionAt(nodes, preds, parts, before, base, los, sinks, k) && k < i < |sinks|
    ensures PartitionAt(nodes, preds, parts, before + more, base, los + [hi], sinks[i := v], k)
  {
    PartitionGrows(before, more, parts[nodes[k]], los[k], los[k + 1]);
    hide PartitionTasks, IndexOf;
    assert (before + more)[los[k]] == before[los[k]];
    assert forall j :: 0 <= j < |los| ==> (los + [hi])[j] == los[j];
  }

  lemma CreatedNext<N, M>(nodes: seq<N>, preds: map<N, seq<N>>, parts: map<N, Part<M>>, before: seq<Task>, tasks: seq<Task>, base: nat,
                          los: seq<nat>, sinks: seq<nat>)
    requires 0 < |los| <= |nodes| && CreatedSoFar(nodes, preds, parts, before, base, los, sinks)
    requires before <= tasks && |before| < |tasks|
    requires nodes[|los| - 1] in parts && PartitionTasks(tasks, parts[nodes[|los| - 1]], |before|, |tasks|)
    requires nodes[|los| - 1] in preds
    requires var ps, needs := preds[nodes[|los| - 1]], tasks[|before|].needs;
             && |needs| == |ps| && (forall p :: p in ps ==> p in nodes)
             && (forall j :: 0 <= j < |ps| ==> needs[j] == sinks[IndexOf(nodes, ps[j])])
    ensures CreatedSoFar(nodes, preds, parts, tasks, base, los + [|tasks|], sinks[|los| - 1 := |tasks| - 1])
  {
    var i := |los| - 1;
    var los', sinks' := los + [|tasks|], sinks[i := |tasks| - 1];
    assert tasks == before + tasks[|before|..];
    hide PartitionTasks, IndexOf;
    forall k: nat | k < i ensures PartitionAt(nodes, preds, parts, tasks, base, los', sinks', k) {
      PartitionAtGrows(nodes, preds, parts, before, tasks[|before|..], base, los, |tasks|, sinks, i, |tasks| - 1, k);
    }
    forall j | 0 <= j < |preds[nodes[i]]|
      ensures var k := IndexOf(nodes, preds[nodes[i]][j]);
              if k < i then tasks[|before|].needs[j] + 1 == los'[k + 1] else tasks[|before|].needs[j] < base
    {
      var k: nat := IndexOf(nodes, preds[nodes[i]][j]);
      assert k < i ==> PartitionAt(nodes, preds, parts, before, base, los, sinks, k);
    }
    assert PartitionAt(nodes, preds, parts, tasks, base, los', sinks', i);
  }

  lemma PredsAmongNodes(dag: PartGraph, n: PartNode)
    requires dag.Valid() && n in dag.allNodes
    ensures NoDup(dag.allNodes) && forall p :: p in n.preds ==> p in dag.allNodes
  {
    forall p | p in n.preds ensures p in dag.allNodes {
      assert p in Elems(n.preds);
      assert p in Elems(dag.Abs().nodes);
    }
  }

  /** The partition's inner graph is valid, and its nodes are among `inner`. */
  ghost predicate Owned(p: Partition, inner: set<TaskNode>)
    reads p.dag`allNodes, p.dag.allNodes`succs, p.dag.allNodes`preds, p.dag.allNodes`numPred
  {
    p.dag.Valid() && forall n :: n in p.dag.allNodes ==> n in inner
  }

  lemma InnerOrderFacts(dag: TaskGraph, order: seq<TaskNode>)
    requires dag.Valid() && order == TopoOrder(dag.Abs())
    ensures NoDup(order) && PredsVisitedFirst(order, dag.PredLists())
    ensures forall n :: n in order ==> n in dag.allNodes && dag.PredLists()[n] == n.preds
    ensures forall n :: n in order ==> (n.IsSrc() <==> n.preds == []) && (n.IsSink() <==> n in dag.Sinks())
  {
    OrderFacts(dag);
  }

  lemma InnerMatches(dag: TaskGraph, order: seq<TaskNode>, before: seq<Task>, created: seq<Task>, entry: nat, sinks: seq<nat>)
    requires dag.Valid() && order == TopoOrder(dag.Abs()) && PredsVisitedFirst(order, dag.PredLists()) && |created| == |order|
    requires forall k :: 0 <= k < |order| ==> created[k] == InnerTask(order, dag.PredLists(), entry, |before|, k)
    requires sinks == Collected(order, |before|, dag.Sinks())
    ensures InnerStage(before + created + [Task(sinks)], dag.Abs(), dag.PredLists(), entry, |before|)
  {
    DagLists(dag);
    hide Dag.Valid, TopoOrder, PredsVisitedFirst, InnerTask, Collected;
    var tasks := before + created + [Task(sinks)];
    assert forall k :: 0 <= k < |order| ==> tasks[|before| + k] == created[k];
  }

  /** What the created inner tasks are, for a graph value. */
  ghost predicate InnerMatch<N>(g: Graph<N>, preds: map<N, seq<N>>, entry: nat, before: seq<Task>, created: seq<Task>) {
    && Lists(g, preds) && Acyclic(g) && g.nodes != [] && entry < |before|
    && PredsVisitedFirst(TopoOrder(g), preds) && |created| == |TopoOrder(g)|
    && (forall k :: 0 <= k < |created| ==> created[k] == InnerTask(TopoOrder(g), preds, entry, |before|, k))
  }

  lemma InnerNeedsEarlier<N>(g: Graph<N>, preds: map<N, seq<N>>, entry: nat, before: seq<Task>, created: seq<Task>, i: nat)
    requires InnerMatch(g, preds, entry, before, created) && i < |created|
    ensures WaitsWithin(created[i], entry, |before|, |before| + i)
  {
    TopoOrderVisits(g);
    var order := TopoOrder(g);
    assert created[i] == InnerTask(order, preds, entry, |before|, i);
    PredsHaveHandles(order, preds, i);
    var needs := created[i].needs;
    forall h | h in needs ensures h == entry || |before| <= h < |before| + i {
      var j :| 0 <= j < |needs| && needs[j] == h;
      if preds[order[i]] != [] { assert preds[order[i]][j] in preds[order[i]]; }
    }
  }

  /** In an acyclic graph a node that is no sink has a successor later in the order. */
  lemma SuccessorIsLater<N>(g: Graph<N>, i: nat) returns (j: nat)
    requires ValidGraph(g) && Acyclic(g) && i < |TopoOrder(g)| && TopoOrder(g)[i] !in SinkSet(g)
    ensures i < j < |TopoOrder(g)| && Edge(g, TopoOrder(g)[i], TopoOrder(g)[j])
  {
    var order := TopoOrder(g);
    TopoOrderVisits(g);
    TopoOrderCompleteIffAcyclic(g);
    var a := order[i];
    assert a in Elems(order);
    var b := NonSinkHasSucc(g, a);
    assert b in Elems(order);
    j := IndexOf(order, b);
    assert a in Preds(g, order[j]) && Preds(g, order[j]) <= Elems(order[..j]);
    assert a in order[..j] by { assert a in Elems(order[..j]); }
    var k :| 0 <= k < j && order[..j][k] == a;
  }

  lemma InnerIsNeeded<N>(g: Graph<N>, preds: map<N, seq<N>>, entry: nat, before: seq<Task>, created: seq<Task>, i: nat)
    requires InnerMatch(g, preds, entry, before, created) && i < |created|
    ensures TopoOrder(g)[i] in SinkSet(g) || exists j :: i < j < |created| && |before| + i in created[j].needs
  {
    var order := TopoOrder(g);
    if order[i] !in SinkSet(g) {
      var j := SuccessorIsLater(g, i);
      TopoOrderVisits(g);
      var a, b := order[i], order[j];
      assert b in Elems(order);
      assert a in preds[b] by { assert a in Elems(preds[b]); }
      IndexOfUnique(order, i);
      assert created[j] == InnerTask(order, preds, entry, |before|, j);
      PredsHaveHandles(order, preds, j);
      HandlesOfMember(order, |before|, preds[b], a);
      assert |before| + i in created[j].needs;
    }
  }

  lemma InnerEnds<N>(g: Graph<N>, preds: map<N, seq<N>>, entry: nat, before: seq<Task>, created: seq<Task>)
    requires InnerMatch(g, preds, entry, before, created)
    ensures 0 < |created| == |TopoOrder(g)| && created[0] == Task([entry]) && entry < |before|
    ensures TopoOrder(g)[|created| - 1] in SinkSet(g)
  {
    var order := TopoOrder(g);
    TopoOrderCompleteIffAcyclic(g);
    var ps := preds[order[0]];
    assert Elems(ps) == {};
    EmptyElems(ps);
    if order[|created| - 1] !in SinkSet(g) {
      var j := SuccessorIsLater(g, |created| - 1);
    }
  }

  /** Something created later, or the joining task behind `sinks`, needs the `i`-th created task. */
  ghost predicate Covered(created: seq<Task>, sinks: seq<nat>, base: nat, i: nat) {
    base + i in sinks || exists j :: i < j < |created| && base + i in created[j].needs
  }

  lemma StageFrom(before: seq<Task>, created: seq<Task>, sinks: seq<nat>, entry: nat)
    requires entry < |before| && created != [] && entry in created[0].needs
    requires sinks != [] && forall h :: h in sinks ==> |before| <= h < |before| + |created|
    requires forall i :: 0 <= i < |created| ==> WaitsWithin(created[i], entry, |before|, |before| + i)
    requires forall i :: 0 <= i < |created| ==> Covered(created, sinks, |before|, i)
    ensures Stage(before + created + [Task(sinks)], entry, |before|, |before| + |created| + 1)
  {
    var all, lo, hi := before + created + [Task(sinks)], |before|, |before| + |created| + 1;
    assert forall t :: lo <= t < hi - 1 ==> all[t] == created[t - lo];
    assert all[hi - 1] == Task(sinks);
    assert entry in all[lo].needs;
    forall t: nat | lo <= t < hi - 1 ensures NeededBefore(all, t, hi) {
      assert Covered(created, sinks, lo, t - lo);
      if t in sinks {
        assert t in all[hi - 1].needs;
      } else {
        var j :| t - lo < j < |created| && lo + (t - lo) in created[j].needs;
        assert all[lo + j] == created[j];
      }
    }
  }

  lemma CollectedCovers<N>(order: seq<N>, s: set<N>, base: nat, created: seq<Task>)
    requires |created| == |order| && order != [] && order[|order| - 1] in s
    requires forall i :: 0 <= i < |order| ==> order[i] in s || exists j :: i < j < |created| && base + i in created[j].needs
    ensures var sinks := Collected(order, base, s);
            && sinks != [] && (forall h :: h in sinks ==> base <= h < base + |created|)
            && (forall i :: 0 <= i < |created| ==> Covered(created, sinks, base, i))
  {
    var sinks := Collected(order, base, s);
    hide Collected;
    CollectedMembers(order, base, s, base + |created| - 1);
    forall h | h in sinks ensures base <= h < base + |created| { CollectedMembers(order, base, s, h); }
    forall i | 0 <= i < |created| ensures Covered(created, sinks, base, i) {
      CollectedMembers(order, base, s, base + i);
    }
  }

  lemma InnerMakesStage<N>(g: Graph<N>, preds: map<N, seq<N>>, entry: nat, before: seq<Task>, created: seq<Task>, sinks: seq<nat>)
    requires InnerMatch(g, preds, entry, before, created)
    requires ValidGraph(g) && sinks == Collected(TopoOrder(g), |before|, SinkSet(g))
    ensures Stage(before + created + [Task(sinks)], entry, |before|, |before| + |created| + 1)
  {
    hide InnerMatch, ValidGraph, TopoOrder, SinkSet, Collected, Covered, Stage, WaitsWithin;
    var order, s := TopoOrder(g), SinkSet(g);
    InnerEnds(g, preds, entry, before, created);
    forall i | 0 <= i < |order| ensures order[i] in s || exists j :: i < j < |created| && |before| + i in created[j].needs {
      InnerIsNeeded(g, preds, entry, before, created, i);
    }
    CollectedCovers(order, s, |before|, created);
    forall i | 0 <= i < |created| ensures WaitsWithin(created[i], entry, |before|, |before| + i) {
      InnerNeedsEarlier(g, preds, entry, before, created, i);
    }
    StageFrom(before, created, sinks, entry);
  }
}
