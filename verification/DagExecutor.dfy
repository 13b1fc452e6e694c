/** Turning task graphs into runtime tasks (`ATMIdagExecutor`). */
module DagExecutor {
  import opened Sequences
  import opened Graphs
  import opened TaskDag
  import opened AsyncRuntime

  /** A task instance remembers the handle of the runtime task last created for it. */
  datatype TaskInstance = TaskInstance(kernel: nat, handle: nat)

  type TaskNode = Node<TaskInstance>
  type TaskGraph = Dag<TaskInstance>

  /** The handles of `ps` when the `i`-th visited node gets handle `base + i`. */
  ghost function HandlesOf<N>(order: seq<N>, base: nat, ps: seq<N>): seq<nat>
    requires forall p :: p in ps ==> p in order
  {
    seq(|ps|, j requires 0 <= j < |ps| => base + IndexOf(order, ps[j]))
  }

  ghost predicate PredsVisitedFirst<N>(order: seq<N>, preds: map<N, seq<N>>) {
    forall i :: 0 <= i < |order| ==> order[i] in preds && forall p :: p in preds[order[i]] ==> p in order[..i]
  }

  ghost function TaskFor<N>(order: seq<N>, preds: map<N, seq<N>>, base: nat, i: nat): Task
    requires PredsVisitedFirst(order, preds) && i < |order|
  {
    Task(HandlesOf(order, base, preds[order[i]]))
  }

  /** One created task per visited node, needing exactly that node's predecessors. */
  ghost predicate CreatedInOrder<N>(order: seq<N>, preds: map<N, seq<N>>, base: nat, created: seq<Task>)
    requires PredsVisitedFirst(order, preds)
  {
    && |created| == |order|
    && (forall i :: 0 <= i < |order| ==> created[i] == TaskFor(order, preds, base, i))
  }

  lemma PredsHaveHandles<N>(order: seq<N>, preds: map<N, seq<N>>, i: nat)
    requires NoDup(order) && PredsVisitedFirst(order, preds) && i < |order|
    ensures order[i] in preds
    ensures forall p :: p in preds[order[i]] ==> p in order && IndexOf(order, p) < i
  {
    forall p | p in preds[order[i]] ensures p in order && IndexOf(order, p) < i {
      var k: nat :| k < i && order[..i][k] == p;
      IndexOfUnique(order, k);
    }
  }

  lemma DistinctFrom<N>(s: seq<N>, i: nat)
    requires NoDup(s) && i < |s|
    ensures forall k :: 0 <= k < |s| && k != i ==> s[k] != s[i]
  {
  }

  lemma CollectedNone<N>(order: seq<N>, base: nat, s: set<N>)
    ensures Collected(order[..0], base, s) == []
  {
  }

  lemma CollectedPush<N>(order: seq<N>, base: nat, s: set<N>, i: nat)
    requires i < |order|
    ensures Collected(order[..i + 1], base, s) == Collected(order[..i], base, s) + if order[i] in s then [base + i] else []
  {
    assert order[..i + 1][..i] == order[..i];
  }

  /** The handles of the nodes of `order` that lie in `s`. */
  ghost function Collected<N>(order: seq<N>, base: nat, s: set<N>): seq<nat> {
    if order == [] then []
    else
      var last := |order| - 1;
      Collected(order[..last], base, s) + (if order[last] in s then [base + last] else [])
  }

  class ATMIdagExecutor {
    const runtime: Runtime

    constructor (rt: Runtime)
      ensures runtime == rt
    {
      runtime := rt;
    }

    /** Handles of a node's predecessors, read from the predecessors' own data. */
    method CollectPredHandles(task: TaskNode, ghost order: seq<TaskNode>, ghost base: nat) returns (handles: seq<nat>)
      requires forall p :: p in task.preds ==> p in order && p.data.handle == base + IndexOf(order, p)
      ensures handles == HandlesOf(order, base, task.preds)
    {
      handles := [];
      for j := 0 to |task.preds|
        invariant |handles| == j
        invariant forall k :: 0 <= k < j ==> handles[k] == base + IndexOf(order, task.preds[k])
      {
        handles := handles + [task.preds[j].data.handle];
      }
    }

    /** The traversal's function argument: create one visited node's task. */
    method CreateOne(task: TaskNode, ghost order: seq<TaskNode>, ghost base: nat) returns (h: nat)
      requires forall p :: p in task.preds ==> p in order && p.data.handle == base + IndexOf(order, p)
      modifies runtime, task`data
      ensures h == |old(runtime.tasks)|
      ensures runtime.tasks == old(runtime.tasks) + [Task(HandlesOf(order, base, task.preds))]
      ensures task.data == old(task.data).(handle := h)
    {
      var predHandles := CollectPredHandles(task, order, base);
      h := runtime.CreateTask(predHandles);
      task.data := task.data.(handle := h);
    }

    /** `CreateOne` for the visited nodes in turn. */
    method CreateTasks(visits: seq<TaskNode>, ghost preds: map<TaskNode, seq<TaskNode>>,
                       ghost srcSet: set<TaskNode>, ghost sinkSet: set<TaskNode>)
      returns (srcs: seq<nat>, sinks: seq<nat>, ghost created: seq<Task>)
      requires NoDup(visits) && PredsVisitedFirst(visits, preds)
      requires forall n :: n in visits ==> preds[n] == n.preds
      requires forall n :: n in visits ==> (n.IsSrc() <==> n in srcSet) && (n.IsSink() <==> n in sinkSet)
      modifies runtime, visits`data
      ensures runtime.tasks == old(runtime.tasks) + created
      ensures CreatedInOrder(visits, preds, |old(runtime.tasks)|, created)
      ensures forall k :: 0 <= k < |visits| ==> visits[k].data == old(visits[k].data).(handle := |old(runtime.tasks)| + k)
      ensures srcs == Collected(visits, |old(runtime.tasks)|, srcSet)
      ensures sinks == Collected(visits, |old(runtime.tasks)|, sinkSet)
    {
      hide NoDup, PredsVisitedFirst, HandlesOf, Collected;
      ghost var base := |runtime.tasks|;
      created := [];
      CollectedNone(visits, base, srcSet);
      CollectedNone(visits, base, sinkSet);
      srcs, sinks := [], [];
      for i := 0 to |visits|
        invariant runtime.tasks == old(runtime.tasks) + created && |created| == i
        invariant forall k :: 0 <= k < i ==> created[k] == TaskFor(visits, preds, base, k)
        invariant forall k :: 0 <= k < i ==> visits[k].data == old(visits[k].data).(handle := base + k)
        invariant forall k :: i <= k < |visits| ==> visits[k].data == old(visits[k].data)
        invariant srcs == Collected(visits[..i], base, srcSet)
        invariant sinks == Collected(visits[..i], base, sinkSet)
      {
        var task := visits[i];
        PredsHaveHandles(visits, preds, i);
        DistinctFrom(visits, i);
        var h := CreateOne(task, visits, base);
        created := created + [TaskFor(visits, preds, base, i)];
        CollectedPush(visits, base, srcSet, i);
        CollectedPush(visits, base, sinkSet, i);
        srcs := srcs + (if task.IsSrc() then [h] else []);
        sinks := sinks + (if task.IsSink() then [h] else []);
      }
      assert visits[..|visits|] == visits;
    }

    /** Append one graph's tasks to the runtime and its sources and sinks to the caller's lists. */
    method MakeLazyTasks(dag: TaskGraph, srcHandles: seq<nat>, sinkHandles: seq<nat>)
      returns (srcs: seq<nat>, sinks: seq<nat>, ghost created: seq<Task>)
      requires dag.Valid()
      modifies runtime, dag.allNodes`depCounter, dag.allNodes`data
      ensures dag.Valid() && dag.Abs() == old(dag.Abs())
      ensures runtime.tasks == old(runtime.tasks) + created
      ensures var order, base, preds := TopoOrder(dag.Abs()), |old(runtime.tasks)|, dag.PredLists();
              && PredsVisitedFirst(order, preds) && CreatedInOrder(order, preds, base, created)
              && (forall k :: 0 <= k < |order| ==> order[k].data == old(order[k].data).(handle := base + k))
              && srcs == srcHandles + Collected(order, base, dag.Sources())
              && sinks == sinkHandles + Collected(order, base, dag.Sinks())
      ensures forall n :: n in dag.allNodes && n !in TopoOrder(dag.Abs()) ==> n.data == old(n.data)
    {
      hide *;
      var order := dag.ForEachNodeTopoOrder();
      OrderFacts(dag);
      var newSrcs, newSinks;
      newSrcs, newSinks, created := CreateTasks(order, dag.PredLists(), dag.Sources(), dag.Sinks());
      srcs := srcHandles + newSrcs;
      sinks := sinkHandles + newSinks;
    }

    /** One round of `ExecuteParallel`'s loop, after `l` has been built up for the graphs in `linked`. */
    method LaunchOne(dag: TaskGraph, srcHandles: seq<nat>, sinkHandles: seq<nat>, ghost base: nat, ghost linked: set<TaskGraph>)
      returns (srcs: seq<nat>, sinks: seq<nat>, ghost created: seq<Task>)
      requires dag.Valid()
      requires base <= |runtime.tasks| && Fit(Launch(runtime.tasks, base, srcHandles, sinkHandles))
      requires forall d :: d in linked ==> Linked(d, runtime.tasks, base) && forall n :: n in d.allNodes ==> n !in dag.allNodes
      modifies runtime, dag.allNodes`depCounter, dag.allNodes`data
      ensures runtime.tasks == old(runtime.tasks) + created
      ensures OneMade(old(dag.Abs()), old(dag.PredLists()), |old(runtime.tasks)|, created, srcHandles, sinkHandles, srcs, sinks)
      ensures Handled(TopoOrder(old(dag.Abs())), |old(runtime.tasks)|)
      ensures forall n :: n in dag.allNodes ==> n.data.kernel == old(n.data.kernel)
      ensures forall n :: n in dag.allNodes && n !in TopoOrder(old(dag.Abs())) ==> n.data == old(n.data)
      ensures Fit(Launch(runtime.tasks, base, srcs, sinks))
      ensures SinksCover(Launch(runtime.tasks, base, srcs, sinks)) <==>
              old(SinksCover(Launch(runtime.tasks, base, srcHandles, sinkHandles))) && old(VisitedLeadOn(dag.Abs()))
      ensures Linked(dag, runtime.tasks, base)
      ensures forall d :: d in linked ==> Linked(d, runtime.tasks, base)
    {
      hide Dag.Valid, Dag.Abs, Dag.Sources, Dag.Sinks, Dag.PredLists, VisitedLeadOn, Fit, SinksCover;
      hide TopoOrder, CreatedInOrder, PredsVisitedFirst, Collected, SourceSet, SinkSet;
      ghost var before := runtime.tasks;
      DagLists(dag);
      srcs, sinks, created := MakeLazyTasks(dag, srcHandles, sinkHandles);
      DagLists(dag);
      AppendTasks(Launch(before, base, srcHandles, sinkHandles), dag, before, created);
      LinkedNow(dag, before, created, base);
      OrderFacts(dag);
    }

    /** The graph with number `i`, after those before it. */
    method LaunchNext(dags: seq<TaskGraph>, i: nat, srcHandles: seq<nat>, sinkHandles: seq<nat>, ghost nodes: set<TaskNode>,
                      ghost gs: seq<Graph<TaskNode>>, ghost ps: seq<map<TaskNode, seq<TaskNode>>>, ghost before: seq<Task>, ghost data: map<TaskNode, TaskInstance>)
      returns (srcs: seq<nat>, sinks: seq<nat>)
      requires i < |dags| && GivenAs(dags, gs, ps, nodes) && Separate(dags)
      requires AllMade(before, runtime.tasks, gs, ps, i, srcHandles, sinkHandles) && LastHandles(dags, gs, nodes, |before|, i) && DataKept(nodes, data, gs, i)
      requires Fit(Launch(runtime.tasks, |before|, srcHandles, sinkHandles))
      requires forall d :: d in dags[..i] ==> Linked(d, runtime.tasks, |before|)
      modifies runtime, nodes`depCounter, nodes`data
      ensures GivenAs(dags, gs, ps, nodes)
      ensures AllMade(before, runtime.tasks, gs, ps, i + 1, srcs, sinks) && LastHandles(dags, gs, nodes, |before|, i + 1) && DataKept(nodes, data, gs, i + 1)
      ensures Fit(Launch(runtime.tasks, |before|, srcs, sinks))
      ensures SinksCover(Launch(runtime.tasks, |before|, srcs, sinks)) <==>
              old(SinksCover(Launch(runtime.tasks, |before|, srcHandles, sinkHandles))) && VisitedLeadOn(gs[i])
      ensures forall d :: d in dags[..i + 1] ==> Linked(d, runtime.tasks, |before|)
    {
      hide *;
      var dag := dags[i];
      GivenFacts(dags, gs, ps, nodes, i);
      ghost var tasks, linked := runtime.tasks, set d | d in dags[..i] && d != dag;
      Others(dags, i);
      MadeSize(before, tasks, gs, ps, i, srcHandles, sinkHandles);
      forall j: nat | j < i && dags[j] !in dags[j + 1..i + 1]
        ensures forall x :: x in TopoOrder(gs[j]) ==> x in nodes && x !in dag.allNodes
        ensures forall k :: 0 <= k < |TopoOrder(gs[j])| ==> TopoOrder(gs[j])[k].data.handle == StartOf(gs, |before|, j) + k
      {
        StillLast(dags, gs, ps, nodes, |before|, i, j);
        HandledMeans(TopoOrder(gs[j]), StartOf(gs, |before|, j));
      }
      KeptFacts(nodes, data, gs, i);
      ghost var created;
      srcs, sinks, created := LaunchOne(dag, srcHandles, sinkHandles, |before|, linked);
      MadeNext(before, tasks, gs, ps, i, srcHandles, sinkHandles, created, srcs, sinks);
      forall j: nat | j < i && dags[j] !in dags[j + 1..i + 1] ensures HandledIn(nodes, TopoOrder(gs[j]), StartOf(gs, |before|, j)) {
        assert forall k :: 0 <= k < |TopoOrder(gs[j])| ==> TopoOrder(gs[j])[k] in TopoOrder(gs[j]);
        IsHandledIn(nodes, TopoOrder(gs[j]), StartOf(gs, |before|, j));
      }
      NowLast(dags, gs, ps, nodes, |before|, i);
      forall x | x in nodes ensures x in data && x.data.kernel == data[x].kernel && (!VisitedIn(gs, i + 1, x) ==> x.data == data[x]) {
        VisitedMore(gs, i, x);
      }
      IsKept(nodes, data, gs, i + 1);
      assert dags[..i + 1] == dags[..i] + [dag];
    }

    /** Create the tasks of all the graphs, whose values are `gs` and whose predecessor lists are `ps`, graph by graph; the host then
        activates `srcs` and waits on `sinks`. That covers all the tasks if and only if, in every graph, every visited node that is no
        sink has a visited successor. */
    method ExecuteParallel(dags: seq<TaskGraph>, ghost nodes: set<TaskNode>, ghost gs: seq<Graph<TaskNode>>, ghost ps: seq<map<TaskNode, seq<TaskNode>>>)
      returns (srcs: seq<nat>, sinks: seq<nat>)
      requires GivenAs(dags, gs, ps, nodes) && Separate(dags)
      modifies runtime, nodes`depCounter, nodes`data
      ensures GivenAs(dags, gs, ps, nodes)
      ensures AllMade(old(runtime.tasks), runtime.tasks, gs, ps, |dags|, srcs, sinks) && LastHandles(dags, gs, nodes, |old(runtime.tasks)|, |dags|)
      ensures forall n :: n in nodes ==> n.data.kernel == old(n.data.kernel) && (!VisitedIn(gs, |gs|, n) ==> n.data == old(n.data))
      ensures Fit(Launch(runtime.tasks, |old(runtime.tasks)|, srcs, sinks))
      ensures SinksCover(Launch(runtime.tasks, |old(runtime.tasks)|, srcs, sinks)) <==> forall g :: g in gs ==> VisitedLeadOn(g)
      ensures forall d :: d in dags ==> Linked(d, runtime.tasks, |old(runtime.tasks)|)
    {
      hide *;
      ghost var before, data := runtime.tasks, map n | n in nodes :: n.data;
      srcs, sinks := [], [];
      NothingLaunched(runtime.tasks);
      NothingMade(before, dags, gs, ps, nodes, data);
      for i := 0 to |dags|
        invariant GivenAs(dags, gs, ps, nodes) && AllMade(before, runtime.tasks, gs, ps, i, srcs, sinks)
        invariant LastHandles(dags, gs, nodes, |before|, i) && DataKept(nodes, data, gs, i)
        invariant Fit(Launch(runtime.tasks, |before|, srcs, sinks))
        invariant SinksCover(Launch(runtime.tasks, |before|, srcs, sinks)) <==> forall g :: g in gs[..i] ==> VisitedLeadOn(g)
        invariant forall d :: d in dags[..i] ==> Linked(d, runtime.tasks, |before|)
      {
        srcs, sinks := LaunchNext(dags, i, srcs, sinks, nodes, gs, ps, before, data);
        assert gs[..i + 1] == gs[..i] + [gs[i]];
      }
      assert dags[..|dags|] == dags && gs[..|dags|] == gs;
      KeptFacts(nodes, data, gs, |dags|);
    }
  }

  /** The graphs have these values, predecessor lists and nodes. */
  ghost predicate GivenAs(dags: seq<TaskGraph>, gs: seq<Graph<TaskNode>>, ps: seq<map<TaskNode, seq<TaskNode>>>, nodes: set<TaskNode>)
    reads dags`allNodes, nodes`succs, nodes`preds, nodes`numPred
  {
    && |gs| == |ps| == |dags|
    && forall i: nat :: i < |dags| ==>
         && (forall n :: n in dags[i].allNodes ==> n in nodes)
         && dags[i].Valid() && gs[i] == dags[i].Abs() && ps[i] == dags[i].PredLists()
  }

  /** Different graphs have no node in common. */
  ghost predicate Separate(dags: seq<TaskGraph>)
    reads dags`allNodes
  {
    forall d, e, n :: d in dags && e in dags && d != e && n in d.allNodes ==> n !in e.allNodes
  }

  lemma GivenFacts(dags: seq<TaskGraph>, gs: seq<Graph<TaskNode>>, ps: seq<map<TaskNode, seq<TaskNode>>>, nodes: set<TaskNode>, i: nat)
    requires GivenAs(dags, gs, ps, nodes) && i < |dags|
    ensures |gs| == |ps| == |dags| && dags[i].Valid() && gs[i] == dags[i].Abs() && ps[i] == dags[i].PredLists()
    ensures forall n :: n in dags[i].allNodes ==> n in nodes
  {
    hide Dag.Valid, Dag.Abs, Dag.PredLists;
  }

  lemma Others(dags: seq<TaskGraph>, i: nat)
    requires Separate(dags) && i < |dags|
    ensures forall d, n :: d in dags[..i] && d != dags[i] && n in d.allNodes ==> n !in dags[i].allNodes
  {
    assert forall d :: d in dags[..i] ==> d in dags;
  }

  /** A graph that is listed more than once holds the handles of the tasks created for it last. */
  ghost predicate LastHandles(dags: seq<TaskGraph>, gs: seq<Graph<TaskNode>>, nodes: set<TaskNode>, base: nat, n: nat)
    reads nodes`data
  {
    n <= |gs| == |dags| && forall i: nat :: i < n && dags[i] !in dags[i + 1..n] ==> HandledIn(nodes, TopoOrder(gs[i]), StartOf(gs, base, i))
  }

  ghost predicate HandledIn(nodes: set<TaskNode>, order: seq<TaskNode>, start: nat)
    reads nodes`data
  {
    (forall x :: x in order ==> x in nodes) && Handled(order, start)
  }

  /** A graph that is not the `i`-th keeps its handles. */
  lemma StillLast(dags: seq<TaskGraph>, gs: seq<Graph<TaskNode>>, ps: seq<map<TaskNode, seq<TaskNode>>>, nodes: set<TaskNode>, base: nat, i: nat, j: nat)
    requires GivenAs(dags, gs, ps, nodes) && Separate(dags) && LastHandles(dags, gs, nodes, base, i)
    requires j < i < |dags| && dags[j] !in dags[j + 1..i + 1]
    ensures |gs| == |dags| && Handled(TopoOrder(gs[j]), StartOf(gs, base, j))
    ensures forall x :: x in TopoOrder(gs[j]) ==> x in nodes && x !in dags[i].allNodes
  {
    hide *;
    assert dags[j + 1..i + 1] == dags[j + 1..i] + [dags[i]];
    assert dags[j] in dags && dags[i] in dags && dags[j] != dags[i];
    OrderGiven(dags, gs, ps, nodes, j);
    WasLast(dags, gs, nodes, base, i, j);
    DifferentApart(dags, j, i);
  }

  lemma DifferentApart(dags: seq<TaskGraph>, j: nat, i: nat)
    requires Separate(dags) && i < |dags| && j < |dags| && dags[i] != dags[j]
    ensures forall x :: x in dags[j].allNodes ==> x !in dags[i].allNodes
  {
    assert dags[i] in dags && dags[j] in dags;
  }

  lemma WasLast(dags: seq<TaskGraph>, gs: seq<Graph<TaskNode>>, nodes: set<TaskNode>, base: nat, i: nat, j: nat)
    requires LastHandles(dags, gs, nodes, base, i) && j < i && j < |dags| && dags[j] !in dags[j + 1..i]
    ensures |gs| == |dags| && Handled(TopoOrder(gs[j]), StartOf(gs, base, j))
  {
    assert HandledIn(nodes, TopoOrder(gs[j]), StartOf(gs, base, j));
    hide Handled, TopoOrder, StartOf;
  }

  lemma OrderGiven(dags: seq<TaskGraph>, gs: seq<Graph<TaskNode>>, ps: seq<map<TaskNode, seq<TaskNode>>>, nodes: set<TaskNode>, j: nat)
    requires GivenAs(dags, gs, ps, nodes) && j < |dags|
    ensures |gs| == |dags| && forall x :: x in TopoOrder(gs[j]) ==> x in dags[j].allNodes && x in nodes
  {
    hide *;
    GivenFacts(dags, gs, ps, nodes, j);
    OrderFacts(dags[j]);
  }

  lemma NowLast(dags: seq<TaskGraph>, gs: seq<Graph<TaskNode>>, ps: seq<map<TaskNode, seq<TaskNode>>>, nodes: set<TaskNode>, base: nat, i: nat)
    requires GivenAs(dags, gs, ps, nodes) && i < |dags| == |gs| && Handled(TopoOrder(gs[i]), StartOf(gs, base, i))
    requires forall j: nat :: j < i && dags[j] !in dags[j + 1..i + 1] ==> HandledIn(nodes, TopoOrder(gs[j]), StartOf(gs, base, j))
    ensures LastHandles(dags, gs, nodes, base, i + 1)
  {
    GivenLengths(dags, gs, ps, nodes, i);
    hide GivenAs, Handled, TopoOrder, StartOf, HandledIn;
    forall j: nat | j < i + 1 && dags[j] !in dags[j + 1..i + 1] ensures HandledIn(nodes, TopoOrder(gs[j]), StartOf(gs, base, j)) {
      if j == i { NowHandled(dags, gs, ps, nodes, base, i); }
    }
  }

  lemma GivenLengths(dags: seq<TaskGraph>, gs: seq<Graph<TaskNode>>, ps: seq<map<TaskNode, seq<TaskNode>>>, nodes: set<TaskNode>, i: nat)
    requires GivenAs(dags, gs, ps, nodes)
    ensures |gs| == |ps| == |dags|
  {
    hide Dag.Valid, Dag.Abs, Dag.PredLists;
  }

  lemma NowHandled(dags: seq<TaskGraph>, gs: seq<Graph<TaskNode>>, ps: seq<map<TaskNode, seq<TaskNode>>>, nodes: set<TaskNode>, base: nat, i: nat)
    requires GivenAs(dags, gs, ps, nodes) && i < |dags| == |gs| && Handled(TopoOrder(gs[i]), StartOf(gs, base, i))
    ensures HandledIn(nodes, TopoOrder(gs[i]), StartOf(gs, base, i))
  {
    OrderGiven(dags, gs, ps, nodes, i);
    hide GivenAs, Handled, TopoOrder, StartOf;
  }

  lemma IsHandledIn(nodes: set<TaskNode>, order: seq<TaskNode>, start: nat)
    requires (forall x :: x in order ==> x in nodes) && forall k :: 0 <= k < |order| ==> order[k].data.handle == start + k
    ensures HandledIn(nodes, order, start)
  {
  }

  lemma HandledMeans(order: seq<TaskNode>, start: nat)
    requires Handled(order, start)
    ensures forall k :: 0 <= k < |order| ==> order[k].data.handle == start + k
  {
  }

  ghost predicate DataKept(nodes: set<TaskNode>, data: map<TaskNode, TaskInstance>, gs: seq<Graph<TaskNode>>, n: nat)
    requires n <= |gs|
    reads nodes`data
  {
    forall x :: x in nodes ==> x in data && x.data.kernel == data[x].kernel && (!VisitedIn(gs, n, x) ==> x.data == data[x])
  }

  lemma IsKept(nodes: set<TaskNode>, data: map<TaskNode, TaskInstance>, gs: seq<Graph<TaskNode>>, n: nat)
    requires n <= |gs|
    requires forall x :: x in nodes ==> x in data && x.data.kernel == data[x].kernel && (!VisitedIn(gs, n, x) ==> x.data == data[x])
    ensures DataKept(nodes, data, gs, n)
  {
    hide VisitedIn;
  }

  lemma VisitedMore<N>(gs: seq<Graph<N>>, n: nat, x: N)
    requires n < |gs|
    ensures VisitedIn(gs, n + 1, x) <==> VisitedIn(gs, n, x) || x in TopoOrder(gs[n])
  {
    hide TopoOrder;
  }

  lemma KeptFacts(nodes: set<TaskNode>, data: map<TaskNode, TaskInstance>, gs: seq<Graph<TaskNode>>, n: nat)
    requires n <= |gs| && DataKept(nodes, data, gs, n)
    ensures forall x :: x in nodes ==> x in data && x.data.kernel == data[x].kernel && (!VisitedIn(gs, n, x) ==> x.data == data[x])
  {
    hide VisitedIn;
  }

  // ---------------------------------------------------------------- exactly the tasks of the listed graphs

  /** Where the tasks of the graph with number `n` begin: behind one task for every visited node of the graphs before it. */
  ghost function StartOf<N>(gs: seq<Graph<N>>, base: nat, n: nat): (h: nat)
    requires n <= |gs|
    ensures base <= h
  {
    if n == 0 then base else StartOf(gs, base, n - 1) + |TopoOrder(gs[n - 1])|
  }

  /** The sinks, or the sources. */
  ghost function EndSet<N>(g: Graph<N>, sinks: bool): set<N> {
    if sinks then SinkSet(g) else SourceSet(g)
  }

  /** The handles of the visited sinks, or the sources, of the first `n` graphs. */
  ghost function EndsOf<N>(gs: seq<Graph<N>>, base: nat, n: nat, sinks: bool): seq<nat>
    requires n <= |gs|
  {
    if n == 0 then []
    else EndsOf(gs, base, n - 1, sinks) + Collected(TopoOrder(gs[n - 1]), StartOf(gs, base, n - 1), EndSet(gs[n - 1], sinks))
  }

  /** What creating one graph's tasks, the first of them at `start`, adds. */
  ghost predicate OneMade<N>(g: Graph<N>, preds: map<N, seq<N>>, start: nat, created: seq<Task>,
                             srcs0: seq<nat>, sinks0: seq<nat>, srcs: seq<nat>, sinks: seq<nat>) {
    && PredsVisitedFirst(TopoOrder(g), preds) && CreatedInOrder(TopoOrder(g), preds, start, created)
    && srcs == srcs0 + Collected(TopoOrder(g), start, SourceSet(g))
    && sinks == sinks0 + Collected(TopoOrder(g), start, SinkSet(g))
  }

  /** The tasks of the graph with number `k` stand where they should, one for every visited node, each needing its predecessors' tasks. */
  ghost predicate MadeAt<N>(tasks: seq<Task>, gs: seq<Graph<N>>, ps: seq<map<N, seq<N>>>, base: nat, k: nat)
    requires k < |gs| == |ps|
  {
    && StartOf(gs, base, k + 1) <= |tasks| && PredsVisitedFirst(TopoOrder(gs[k]), ps[k])
    && CreatedInOrder(TopoOrder(gs[k]), ps[k], StartOf(gs, base, k), tasks[StartOf(gs, base, k)..StartOf(gs, base, k + 1)])
  }

  /** Behind the tasks there were, exactly the tasks of the first `n` graphs, and the handles of their sources and sinks. */
  ghost predicate AllMade<N>(before: seq<Task>, tasks: seq<Task>, gs: seq<Graph<N>>, ps: seq<map<N, seq<N>>>, n: nat, srcs: seq<nat>, sinks: seq<nat>) {
    && n <= |gs| == |ps| && before <= tasks && |tasks| == StartOf(gs, |before|, n)
    && (forall k: nat :: k < n ==> MadeAt(tasks, gs, ps, |before|, k))
    && srcs == EndsOf(gs, |before|, n, false) && sinks == EndsOf(gs, |before|, n, true)
  }

  /** Visited in this order, the nodes hold the handles of their tasks, the first of which is at `start`. */
  ghost predicate Handled(order: seq<TaskNode>, start: nat)
    reads order`data
  {
    forall k :: 0 <= k < |order| ==> order[k].data.handle == start + k
  }

  ghost predicate VisitedIn<N>(gs: seq<Graph<N>>, n: nat, x: N)
    requires n <= |gs|
  {
    exists i: nat :: i < n && x in TopoOrder(gs[i])
  }

  lemma NothingMade(before: seq<Task>, dags: seq<TaskGraph>, gs: seq<Graph<TaskNode>>, ps: seq<map<TaskNode, seq<TaskNode>>>,
                    nodes: set<TaskNode>, data: map<TaskNode, TaskInstance>)
    requires GivenAs(dags, gs, ps, nodes) && forall x :: x in nodes ==> x in data && x.data == data[x]
    ensures AllMade(before, before, gs, ps, 0, [], []) && LastHandles(dags, gs, nodes, |before|, 0) && DataKept(nodes, data, gs, 0)
    ensures |gs| == |dags|
  {
    hide MadeAt, VisitedIn;
  }

  lemma MadeSize<N>(before: seq<Task>, tasks: seq<Task>, gs: seq<Graph<N>>, ps: seq<map<N, seq<N>>>, n: nat, srcs: seq<nat>, sinks: seq<nat>)
    requires AllMade(before, tasks, gs, ps, n, srcs, sinks)
    ensures before <= tasks && n <= |gs| && |tasks| == StartOf(gs, |before|, n)
  {
    hide StartOf, EndsOf, MadeAt;
  }

  lemma MadeNext<N>(before: seq<Task>, tasks: seq<Task>, gs: seq<Graph<N>>, ps: seq<map<N, seq<N>>>, n: nat, srcs0: seq<nat>, sinks0: seq<nat>,
                    created: seq<Task>, srcs: seq<nat>, sinks: seq<nat>)
    requires AllMade(before, tasks, gs, ps, n, srcs0, sinks0) && n < |gs|
    requires OneMade(gs[n], ps[n], |tasks|, created, srcs0, sinks0, srcs, sinks)
    ensures AllMade(before, tasks + created, gs, ps, n + 1, srcs, sinks)
  {
    var base := |before|;
    MadeLast(tasks, created, gs, ps, base, n, srcs0, sinks0, srcs, sinks);
    hide OneMade, MadeAt, EndsOf;
    forall k: nat | k < n + 1 ensures MadeAt(tasks + created, gs, ps, base, k) {
      if k < n { MadeStays(tasks, created, gs, ps, base, k); }
    }
    MoreOf(gs, base, n);
  }

  lemma MadeStays<N>(tasks: seq<Task>, created: seq<Task>, gs: seq<Graph<N>>, ps: seq<map<N, seq<N>>>, base: nat, k: nat)
    requires k < |gs| == |ps| && MadeAt(tasks, gs, ps, base, k)
    ensures MadeAt(tasks + created, gs, ps, base, k)
  {
    hide TopoOrder, CreatedInOrder, PredsVisitedFirst, StartOf;
    var lo, hi := StartOf(gs, base, k), StartOf(gs, base, k + 1);
    StartGrows(gs, base, k);
    assert (tasks + created)[lo..hi] == tasks[lo..hi];
  }

  lemma StartGrows<N>(gs: seq<Graph<N>>, base: nat, k: nat)
    requires k < |gs|
    ensures StartOf(gs, base, k + 1) == StartOf(gs, base, k) + |TopoOrder(gs[k])|
  {
  }

  lemma MoreOf<N>(gs: seq<Graph<N>>, base: nat, n: nat)
    requires n < |gs|
    ensures EndsOf(gs, base, n + 1, false) == EndsOf(gs, base, n, false) + Collected(TopoOrder(gs[n]), StartOf(gs, base, n), SourceSet(gs[n]))
    ensures EndsOf(gs, base, n + 1, true) == EndsOf(gs, base, n, true) + Collected(TopoOrder(gs[n]), StartOf(gs, base, n), SinkSet(gs[n]))
  {
    hide TopoOrder, Collected, SourceSet, SinkSet, StartOf;
  }

  lemma MadeLast<N>(tasks: seq<Task>, created: seq<Task>, gs: seq<Graph<N>>, ps: seq<map<N, seq<N>>>, base: nat, n: nat,
                    srcs0: seq<nat>, sinks0: seq<nat>, srcs: seq<nat>, sinks: seq<nat>)
    requires n < |gs| == |ps| && |tasks| == StartOf(gs, base, n)
    requires OneMade(gs[n], ps[n], |tasks|, created, srcs0, sinks0, srcs, sinks)
    ensures MadeAt(tasks + created, gs, ps, base, n) && |tasks + created| == StartOf(gs, base, n + 1)
    ensures srcs == srcs0 + Collected(TopoOrder(gs[n]), StartOf(gs, base, n), SourceSet(gs[n]))
    ensures sinks == sinks0 + Collected(TopoOrder(gs[n]), StartOf(gs, base, n), SinkSet(gs[n]))
  {
    assert |created| == |TopoOrder(gs[n])|;
    StartGrows(gs, base, n);
    hide TopoOrder, PredsVisitedFirst, Collected, SourceSet, SinkSet, StartOf, CreatedInOrder;
    assert (tasks + created)[|tasks|..|tasks| + |created|] == created;
  }

  lemma {:induction false} StartsAscend<N>(gs: seq<Graph<N>>, base: nat, i: nat, j: nat)
    requires i <= j <= |gs|
    ensures StartOf(gs, base, i) <= StartOf(gs, base, j)
  {
    if i < j { StartsAscend(gs, base, i, j - 1); }
  }

  /** Handle `h` is that of the `k`-th visited node of the graph with number `i`. */
  ghost predicate IsTaskOf<N>(gs: seq<Graph<N>>, base: nat, n: nat, h: nat, i: nat, k: nat) {
    i < n <= |gs| && k < |TopoOrder(gs[i])| && h == StartOf(gs, base, i) + k
  }

  /** Every new task is that of exactly one visit of one graph. */
  lemma {:induction false} EachTaskOneVisit<N>(gs: seq<Graph<N>>, base: nat, n: nat, h: nat) returns (i: nat, k: nat)
    requires n <= |gs| && base <= h < StartOf(gs, base, n)
    ensures IsTaskOf(gs, base, n, h, i, k)
    ensures forall i': nat, k': nat :: IsTaskOf(gs, base, n, h, i', k') ==> i' == i && k' == k
  {
    hide TopoOrder;
    StartGrows(gs, base, n - 1);
    if h < StartOf(gs, base, n - 1) {
      i, k := EachTaskOneVisit(gs, base, n - 1, h);
    } else {
      i, k := n - 1, h - StartOf(gs, base, n - 1);
    }
    forall i': nat, k': nat | IsTaskOf(gs, base, n, h, i', k') ensures i' == i && k' == k {
      StartGrows(gs, base, i');
      StartGrows(gs, base, i);
      if i' < i { StartsAscend(gs, base, i' + 1, i); }
      if i < i' { StartsAscend(gs, base, i + 1, i'); }
    }
  }

  /** Every visit of a listed graph has its task. */
  lemma EachVisitOneTask<N>(gs: seq<Graph<N>>, base: nat, n: nat, i: nat, k: nat)
    requires i < n <= |gs| && k < |TopoOrder(gs[i])|
    ensures base <= StartOf(gs, base, i) + k < StartOf(gs, base, n)
  {
    hide TopoOrder;
    StartGrows(gs, base, i);
    StartsAscend(gs, base, i + 1, n);
  }

  /** Handle `h` is that of a visited sink, or a source, of one of the first `n` graphs. */
  ghost predicate EndTask<N>(gs: seq<Graph<N>>, base: nat, n: nat, h: nat, sinks: bool) {
    exists i: nat, k: nat :: IsTaskOf(gs, base, n, h, i, k) && TopoOrder(gs[i])[k] in EndSet(gs[i], sinks)
  }

  lemma {:induction false} CollectedOnce<N>(order: seq<N>, base: nat, s: set<N>)
    ensures NoDup(Collected(order, base, s))
  {
    if order != [] {
      var last := |order| - 1;
      CollectedOnce(order[..last], base, s);
      CollectedMembers(order[..last], base, s, base + last);
      hide Collected;
      JoinNoDup(Collected(order[..last], base, s), if order[last] in s then [base + last] else []);
    }
  }

  lemma OneMoreGraph<N>(gs: seq<Graph<N>>, base: nat, n: nat, h: nat, s: set<N>)
    requires n < |gs|
    ensures h in Collected(TopoOrder(gs[n]), StartOf(gs, base, n), s) <==>
            exists k: nat :: IsTaskOf(gs, base, n + 1, h, n, k) && TopoOrder(gs[n])[k] in s
  {
    CollectedMembers(TopoOrder(gs[n]), StartOf(gs, base, n), s, h);
    hide TopoOrder, Collected, StartOf;
    if h in Collected(TopoOrder(gs[n]), StartOf(gs, base, n), s) {
      assert IsTaskOf(gs, base, n + 1, h, n, h - StartOf(gs, base, n));
    }
  }

  /** The handles waited for are exactly those of the visited sinks, each once; so are the activated ones and the sources. */
  lemma {:induction false} EndsAreExact<N>(gs: seq<Graph<N>>, base: nat, n: nat, sinks: bool)
    requires n <= |gs|
    ensures NoDup(EndsOf(gs, base, n, sinks)) && forall h :: h in EndsOf(gs, base, n, sinks) <==> EndTask(gs, base, n, h, sinks)
  {
    hide TopoOrder, Collected, EndSet, StartOf;
    if n > 0 {
      var m := n - 1;
      var more := Collected(TopoOrder(gs[m]), StartOf(gs, base, m), EndSet(gs[m], sinks));
      EndsAreExact(gs, base, m, sinks);
      CollectedOnce(TopoOrder(gs[m]), StartOf(gs, base, m), EndSet(gs[m], sinks));
      forall h ensures h in EndsOf(gs, base, n, sinks) <==> EndTask(gs, base, n, h, sinks)
               ensures h in more ==> h !in EndsOf(gs, base, m, sinks)
      {
        OneMoreGraph(gs, base, m, h, EndSet(gs[m], sinks));
        MoreEnds(gs, base, m, h, sinks);
        EarlierTask(gs, base, m, h);
      }
      JoinNoDup(EndsOf(gs, base, m, sinks), more);
    }
  }

  lemma MoreEnds<N>(gs: seq<Graph<N>>, base: nat, n: nat, h: nat, sinks: bool)
    requires n < |gs|
    ensures EndTask(gs, base, n + 1, h, sinks) <==>
            EndTask(gs, base, n, h, sinks) || exists k: nat :: IsTaskOf(gs, base, n + 1, h, n, k) && TopoOrder(gs[n])[k] in EndSet(gs[n], sinks)
  {
    hide TopoOrder, EndSet, StartOf;
    if EndTask(gs, base, n, h, sinks) {
      var i: nat, k: nat :| IsTaskOf(gs, base, n, h, i, k) && TopoOrder(gs[i])[k] in EndSet(gs[i], sinks);
      assert IsTaskOf(gs, base, n + 1, h, i, k);
    }
    if EndTask(gs, base, n + 1, h, sinks) {
      var i: nat, k: nat :| IsTaskOf(gs, base, n + 1, h, i, k) && TopoOrder(gs[i])[k] in EndSet(gs[i], sinks);
      assert i < n ==> IsTaskOf(gs, base, n, h, i, k);
    }
  }

  lemma EarlierTask<N>(gs: seq<Graph<N>>, base: nat, n: nat, h: nat)
    requires n < |gs|
    ensures (exists i: nat, j: nat :: IsTaskOf(gs, base, n, h, i, j)) ==> h < StartOf(gs, base, n)
  {
    hide TopoOrder;
    if i: nat, j: nat :| IsTaskOf(gs, base, n, h, i, j) {
      StartGrows(gs, base, i);
      StartsAscend(gs, base, i + 1, n);
    }
  }

  /** After executing different graphs, every new task is the own task of exactly one visited node. */
  lemma EachTaskOneNode(dags: seq<TaskGraph>, gs: seq<Graph<TaskNode>>, ps: seq<map<TaskNode, seq<TaskNode>>>, nodes: set<TaskNode>,
                        base: nat, h: nat) returns (n: TaskNode)
    requires GivenAs(dags, gs, ps, nodes) && NoDup(dags) && LastHandles(dags, gs, nodes, base, |dags|)
    requires |gs| == |dags| && base <= h < StartOf(gs, base, |gs|)
    ensures VisitedIn(gs, |gs|, n) && n.data.handle == h
    ensures forall m :: VisitedIn(gs, |gs|, m) && m.data.handle == h ==> m == n
  {
    hide *;
    var i, k := EachTaskOneVisit(gs, base, |gs|, h);
    n := NodeOfTask(dags, gs, nodes, base, h, i, k);
    forall m | VisitedIn(gs, |gs|, m) && m.data.handle == h ensures m == n {
      var i', k' := TaskOfNode(dags, gs, nodes, base, m);
    }
  }

  lemma NodeOfTask(dags: seq<TaskGraph>, gs: seq<Graph<TaskNode>>, nodes: set<TaskNode>, base: nat, h: nat, i: nat, k: nat) returns (n: TaskNode)
    requires NoDup(dags) && LastHandles(dags, gs, nodes, base, |dags|) && IsTaskOf(gs, base, |gs|, h, i, k)
    ensures i < |gs| && k < |TopoOrder(gs[i])| && n == TopoOrder(gs[i])[k] && VisitedIn(gs, |gs|, n) && n.data.handle == h
  {
    hide TopoOrder, StartOf;
    NotListedAgain(dags, i);
    assert HandledIn(nodes, TopoOrder(gs[i]), StartOf(gs, base, i));
    n := TopoOrder(gs[i])[k];
  }

  lemma TaskOfNode(dags: seq<TaskGraph>, gs: seq<Graph<TaskNode>>, nodes: set<TaskNode>, base: nat, m: TaskNode) returns (i: nat, k: nat)
    requires NoDup(dags) && LastHandles(dags, gs, nodes, base, |dags|) && VisitedIn(gs, |gs|, m)
    ensures IsTaskOf(gs, base, |gs|, m.data.handle, i, k) && TopoOrder(gs[i])[k] == m
  {
    hide TopoOrder, StartOf;
    i :| i < |gs| && m in TopoOrder(gs[i]);
    k :| k < |TopoOrder(gs[i])| && TopoOrder(gs[i])[k] == m;
    NotListedAgain(dags, i);
    assert HandledIn(nodes, TopoOrder(gs[i]), StartOf(gs, base, i));
  }

  lemma NotListedAgain<T>(s: seq<T>, i: nat)
    requires NoDup(s) && i < |s|
    ensures s[i] !in s[i + 1..]
  {
  }

  /** What `ExecuteParallel` leaves: tasks needing only earlier tasks of the execution, activated where they need nothing. */
  ghost predicate Fit(l: Launch) {
    NeedsEarlier(l) && Runnable(l)
  }

  lemma NothingLaunched(tasks: seq<Task>)
    ensures Fit(Launch(tasks, |tasks|, [], [])) && SinksCover(Launch(tasks, |tasks|, [], []))
  {
  }

  /** Every visited node's own task, created in this execution, needs exactly its predecessors' own tasks. */
  ghost predicate Linked(dag: TaskGraph, tasks: seq<Task>, base: nat)
    reads dag`allNodes, dag.allNodes`succs, dag.allNodes`preds, dag.allNodes`data
  {
    forall n :: n in dag.allNodes && n in TopoOrder(dag.Abs()) ==>
      && base <= n.data.handle < |tasks|
      && |tasks[n.data.handle].needs| == |n.preds|
      && (forall j :: 0 <= j < |n.preds| && n.preds[j] in dag.allNodes ==>
            tasks[n.data.handle].needs[j] == n.preds[j].data.handle)
  }

  lemma DagLists<D>(dag: Dag<D>)
    requires dag.Valid()
    ensures Lists(dag.Abs(), dag.PredLists())
    ensures SourceSet(dag.Abs()) == dag.Sources() && SinkSet(dag.Abs()) == dag.Sinks()
  {
    dag.NothingVisited();
    assert dag.PredLists().Keys == Elems(dag.allNodes);
    forall n | n in dag.allNodes ensures n.numPred == 0 <==> Preds(dag.Abs(), n) == {} { NoDupCard(n.preds); }
  }

  lemma AppendTasks(l: Launch, dag: TaskGraph, before: seq<Task>, created: seq<Task>)
    requires dag.Valid() && Fit(l) && l.tasks == before
    requires var order := TopoOrder(dag.Abs());
             PredsVisitedFirst(order, dag.PredLists()) && CreatedInOrder(order, dag.PredLists(), |before|, created)
    ensures var order := TopoOrder(dag.Abs());
            var j := Launch(before + created, l.base,
                            l.sources + Collected(order, |before|, dag.Sources()),
                            l.sinks + Collected(order, |before|, dag.Sinks()));
            Fit(j) && (SinksCover(j) <==> SinksCover(l) && VisitedLeadOn(dag.Abs()))
  {
    var g, preds := dag.Abs(), dag.PredLists();
    DagLists(dag);
    assert TasksMatch(g, preds, before, created);
    hide TasksMatch, VisitedLeadOn;
    LaunchIsFit(g, preds, before, created);
    LaunchSinksCoverIff(g, preds, before, created);
    JoinLaunches(l, LaunchOf(g, preds, before, created));
  }

  lemma NodeTask<N>(order: seq<N>, preds: map<N, seq<N>>, before: seq<Task>, created: seq<Task>, n: N)
    requires PredsVisitedFirst(order, preds) && CreatedInOrder(order, preds, |before|, created) && n in order
    ensures |before| + IndexOf(order, n) < |before + created|
    ensures n in preds && forall p :: p in preds[n] ==> p in order
    ensures (before + created)[|before| + IndexOf(order, n)] == Task(HandlesOf(order, |before|, preds[n]))
  {
    var i := IndexOf(order, n);
    assert (before + created)[|before| + i] == created[i] == TaskFor(order, preds, |before|, i);
  }

  lemma LinkedNow(dag: TaskGraph, before: seq<Task>, created: seq<Task>, base: nat)
    requires dag.Valid() && base <= |before|
    requires var order := TopoOrder(dag.Abs());
             && PredsVisitedFirst(order, dag.PredLists()) && CreatedInOrder(order, dag.PredLists(), |before|, created)
             && (forall k :: 0 <= k < |order| ==> order[k].data.handle == |before| + k)
    ensures Linked(dag, before + created, base)
  {
    hide Dag.Valid, Dag.Abs, Dag.PredLists, TopoOrder, IndexOf, PredsVisitedFirst, CreatedInOrder;
    var preds, order := dag.PredLists(), TopoOrder(dag.Abs());
    OrderFacts(dag);
    forall n | n in dag.allNodes && n in order
      ensures n.data.handle == |before| + IndexOf(order, n) < |before + created|
      ensures (forall p :: p in n.preds ==> p in order)
      ensures (before + created)[n.data.handle].needs == HandlesOf(order, |before|, n.preds)
    {
      NodeTask(order, preds, before, created, n);
    }
  }

  /** In every run of the launched tasks, a visited node's task starts only after all its predecessors' tasks are complete. */
  lemma NodesRunAfterPredecessors(dag: TaskGraph, l: Launch, run: seq<RunState>, i: nat, a: TaskNode, b: TaskNode)
    requires dag.Valid() && Linked(dag, l.tasks, l.base) && l.base <= |l.tasks|
    requires IsRun(l, run) && i < |run|
    requires b in TopoOrder(dag.Abs()) && Edge(dag.Abs(), a, b) && b.data.handle in run[i].started
    ensures a.data.handle in run[i].done
  {
    assert a in Elems(dag.allNodes) && a in Elems(b.preds);
    var j :| 0 <= j < |b.preds| && b.preds[j] == a;
    NoTaskStartsEarly(l, run, i, b.data.handle, a.data.handle);
  }

  // ---------------------------------------------------------------- the launch handed to the runtime

  lemma {:induction false} CollectedMembers<N>(order: seq<N>, base: nat, s: set<N>, h: nat)
    ensures h in Collected(order, base, s) <==> base <= h < base + |order| && order[h - base] in s
  {
    if order != [] {
      CollectedMembers(order[..|order| - 1], base, s, h);
    }
  }

  /** The graph facts a set of created tasks inherits. */
  ghost predicate Lists<N>(g: Graph<N>, preds: map<N, seq<N>>) {
    && ValidGraph(g) && preds.Keys == Elems(g.nodes)
    && (forall n :: n in g.nodes ==> n in preds && Elems(preds[n]) == Preds(g, n))
  }

  ghost function SourceSet<N>(g: Graph<N>): set<N> {
    set n | n in g.nodes && Preds(g, n) == {}
  }

  ghost function SinkSet<N>(g: Graph<N>): set<N> {
    set n | n in g.succs && g.succs[n] == []
  }

  /** The handle given to a visited node. */
  ghost function HandleOf<N>(order: seq<N>, base: nat, n: N): (h: nat)
    requires n in order
    ensures base <= h < base + |order|
  {
    base + IndexOf(order, n)
  }

  /** One graph's tasks, appended to whatever the runtime held before. */
  ghost function LaunchOf<N>(g: Graph<N>, preds: map<N, seq<N>>, before: seq<Task>, created: seq<Task>): Launch {
    var order := TopoOrder(g);
    Launch(before + created, |before|, Collected(order, |before|, SourceSet(g)), Collected(order, |before|, SinkSet(g)))
  }

  /** Each task needs exactly the tasks of its node's predecessors. */
  lemma NeedsAreEdges<N>(g: Graph<N>, preds: map<N, seq<N>>, before: seq<Task>, created: seq<Task>, a: N, b: N)
    requires TasksMatch(g, preds, before, created)
    requires a in TopoOrder(g) && b in TopoOrder(g)
    ensures var order := TopoOrder(g);
            var l := LaunchOf(g, preds, before, created);
            && HandleOf(order, l.base, b) < |l.tasks|
            && (HandleOf(order, l.base, a) in l.tasks[HandleOf(order, l.base, b)].needs <==> Edge(g, a, b))
  {
    TopoOrderVisits(g);
    var order := TopoOrder(g);
    assert b in Elems(order);
    var i := IndexOf(order, b);
    var needs := HandlesOf(order, |before|, preds[b]);
    assert (before + created)[|before| + i] == created[i] == TaskFor(order, preds, |before|, i);
    assert Edge(g, a, b) <==> a in Elems(preds[b]);
    HandlesOfMember(order, |before|, preds[b], a);
  }

  /** Some visited node comes next. */
  ghost predicate LeadsOn<N>(g: Graph<N>, a: N) {
    exists b :: b in TopoOrder(g) && Edge(g, a, b)
  }

  /** Every visited node that is no sink has a visited successor. */
  ghost predicate VisitedLeadOn<N>(g: Graph<N>) {
    forall a :: a in TopoOrder(g) && a !in SinkSet(g) ==> LeadsOn(g, a)
  }

  /** Graphs without cycles are among those that qualify. */
  lemma AcyclicLeadsOn<N>(g: Graph<N>)
    requires ValidGraph(g) && Acyclic(g)
    ensures VisitedLeadOn(g)
  {
    TopoOrderVisits(g);
    TopoOrderCompleteIffAcyclic(g);
    hide Acyclic, TopoOrder;
    forall a | a in TopoOrder(g) && a !in SinkSet(g) ensures LeadsOn(g, a) {
      MemberToo(TopoOrder(g), g.nodes, a);
      var b := NonSinkHasSucc(g, a);
      assert b in TopoOrder(g);
    }
  }

  ghost predicate TasksMatch<N>(g: Graph<N>, preds: map<N, seq<N>>, before: seq<Task>, created: seq<Task>) {
    && Lists(g, preds)
    && PredsVisitedFirst(TopoOrder(g), preds)
    && CreatedInOrder(TopoOrder(g), preds, |before|, created)
  }

  lemma LaunchNeedsEarlier<N>(g: Graph<N>, preds: map<N, seq<N>>, before: seq<Task>, created: seq<Task>)
    requires TasksMatch(g, preds, before, created)
    ensures NeedsEarlier(LaunchOf(g, preds, before, created))
  {
    TopoOrderVisits(g);
    var order := TopoOrder(g);
    var l := LaunchOf(g, preds, before, created);
    forall t, h | l.base <= t < |l.tasks| && h in l.tasks[t].needs ensures l.base <= h < t {
      var i := t - |before|;
      assert l.tasks[t] == created[i] == TaskFor(order, preds, |before|, i);
      PredsHaveHandles(order, preds, i);
      var j :| 0 <= j < |l.tasks[t].needs| && l.tasks[t].needs[j] == h;
      assert preds[order[i]][j] in preds[order[i]];
    }
  }

  lemma LaunchSourcesExact<N>(g: Graph<N>, preds: map<N, seq<N>>, before: seq<Task>, created: seq<Task>)
    requires TasksMatch(g, preds, before, created)
    ensures SourcesExact(LaunchOf(g, preds, before, created))
  {
    TopoOrderVisits(g);
    var order := TopoOrder(g);
    var l := LaunchOf(g, preds, before, created);
    forall h | h in l.sources ensures l.base <= h < |l.tasks| { CollectedMembers(order, |before|, SourceSet(g), h); }
    forall t | l.base <= t < |l.tasks| ensures l.tasks[t].needs == [] <==> t in l.sources {
      var i := t - |before|;
      assert l.tasks[t] == created[i] == TaskFor(order, preds, |before|, i);
      CollectedMembers(order, |before|, SourceSet(g), t);
      assert order[i] in Elems(order);
      EmptyElems(preds[order[i]]);
    }
  }

  lemma EmptyElems<T>(s: seq<T>)
    ensures Elems(s) == {} <==> s == []
  {
    if s != [] { assert s[0] in Elems(s); }
  }

  lemma NonSinkHasSucc<N>(g: Graph<N>, a: N) returns (b: N)
    requires ValidGraph(g) && a in g.nodes && a !in SinkSet(g)
    ensures Edge(g, a, b) && b in Elems(g.nodes)
  {
    assert a in Elems(g.nodes);
    b := g.succs[a][0];
  }

  /** A visited node's task is needed if and only if the node has a visited successor, and waited for if and only if the node is a sink. */
  lemma NeededIffLeadsOn<N>(g: Graph<N>, preds: map<N, seq<N>>, before: seq<Task>, created: seq<Task>, i: nat)
    requires TasksMatch(g, preds, before, created) && i < |TopoOrder(g)|
    ensures var l := LaunchOf(g, preds, before, created);
            && (NeededBy(l, l.base + i) <==> LeadsOn(g, TopoOrder(g)[i]))
            && (l.base + i in l.sinks <==> TopoOrder(g)[i] in SinkSet(g))
  {
    hide *;
    AwaitedIffSink(g, preds, before, created, i);
    MatchedIsValid(g, preds, before, created);
    var order, l := TopoOrder(g), LaunchOf(g, preds, before, created);
    TopoOrderVisits(g);
    HandleIs(order, |before|, i);
    LaunchBase(g, preds, before, created);
    if LeadsOn(g, order[i]) {
      var b := NextVisited(g, order[i]);
      NeedsAreEdges(g, preds, before, created, order[i], b);
      IsNeeded(l, l.base + i, HandleOf(order, |before|, b));
    }
    if NeededBy(l, l.base + i) {
      var u := Needer(l, l.base + i);
      LaunchSize(g, preds, before, created);
      HandleIs(order, |before|, u - l.base);
      NeedsAreEdges(g, preds, before, created, order[i], order[u - l.base]);
      IsNext(g, order[i], order[u - l.base]);
    }
  }

  lemma AwaitedIffSink<N>(g: Graph<N>, preds: map<N, seq<N>>, before: seq<Task>, created: seq<Task>, i: nat)
    requires i < |TopoOrder(g)|
    ensures var l := LaunchOf(g, preds, before, created);
            l.base + i in l.sinks <==> TopoOrder(g)[i] in SinkSet(g)
  {
    CollectedMembers(TopoOrder(g), |before|, SinkSet(g), |before| + i);
    hide Collected, SinkSet, TopoOrder;
  }

  ghost predicate NeededBy(l: Launch, t: nat) {
    exists u: nat :: l.base <= u < |l.tasks| && t in l.tasks[u].needs
  }

  lemma IsNeeded(l: Launch, t: nat, u: nat)
    requires l.base <= u < |l.tasks| && t in l.tasks[u].needs
    ensures NeededBy(l, t)
  {
  }

  lemma Needer(l: Launch, t: nat) returns (u: nat)
    requires NeededBy(l, t)
    ensures l.base <= u < |l.tasks| && t in l.tasks[u].needs
  {
    u :| l.base <= u < |l.tasks| && t in l.tasks[u].needs;
  }

  lemma NextVisited<N>(g: Graph<N>, a: N) returns (b: N)
    requires LeadsOn(g, a)
    ensures b in TopoOrder(g) && Edge(g, a, b)
  {
    b :| b in TopoOrder(g) && Edge(g, a, b);
  }

  lemma IsNext<N>(g: Graph<N>, a: N, b: N)
    requires b in TopoOrder(g) && Edge(g, a, b)
    ensures LeadsOn(g, a)
  {
  }

  lemma LaunchSize<N>(g: Graph<N>, preds: map<N, seq<N>>, before: seq<Task>, created: seq<Task>)
    requires TasksMatch(g, preds, before, created)
    ensures |LaunchOf(g, preds, before, created).tasks| == |before| + |TopoOrder(g)|
  {
    hide ValidGraph, TopoOrder, PredsVisitedFirst;
  }

  lemma MatchedIsValid<N>(g: Graph<N>, preds: map<N, seq<N>>, before: seq<Task>, created: seq<Task>)
    requires TasksMatch(g, preds, before, created)
    ensures ValidGraph(g)
  {
    hide ValidGraph, PredsVisitedFirst, CreatedInOrder;
  }

  lemma MemberToo<N>(a: seq<N>, b: seq<N>, x: N)
    requires Elems(a) == Elems(b) && x in a
    ensures x in b
  {
    assert x in Elems(a);
  }

  lemma HandleIs<N>(order: seq<N>, base: nat, i: nat)
    requires NoDup(order) && i < |order|
    ensures HandleOf(order, base, order[i]) == base + i
  {
    IndexOfUnique(order, i);
    hide IndexOf, NoDup;
  }

  lemma LaunchBase<N>(g: Graph<N>, preds: map<N, seq<N>>, before: seq<Task>, created: seq<Task>)
    ensures LaunchOf(g, preds, before, created).base == |before|
  {
  }

  lemma LaunchIsFit<N>(g: Graph<N>, preds: map<N, seq<N>>, before: seq<Task>, created: seq<Task>)
    requires TasksMatch(g, preds, before, created)
    ensures Fit(LaunchOf(g, preds, before, created))
  {
    LaunchNeedsEarlier(g, preds, before, created);
    LaunchSourcesExact(g, preds, before, created);
    LaunchSize(g, preds, before, created);
    var order, l := TopoOrder(g), LaunchOf(g, preds, before, created);
    hide TasksMatch, SourceSet, SinkSet, Collected, TopoOrder;
    forall h | h in l.sinks ensures l.base <= h < |l.tasks| { CollectedMembers(order, |before|, SinkSet(g), h); }
  }

  /** Waiting on the sinks covers all tasks of a graph if and only if its visited nodes lead on to visited nodes, up to the sinks;
      without cycles they do. */
  lemma LaunchSinksCoverIff<N>(g: Graph<N>, preds: map<N, seq<N>>, before: seq<Task>, created: seq<Task>)
    requires TasksMatch(g, preds, before, created)
    ensures SinksCover(LaunchOf(g, preds, before, created)) <==> VisitedLeadOn(g)
    ensures Acyclic(g) ==> SinksCover(LaunchOf(g, preds, before, created))
  {
    hide *;
    if SinksCover(LaunchOf(g, preds, before, created)) { CoverMeansLeadOn(g, preds, before, created); }
    if VisitedLeadOn(g) { LeadOnMeansCover(g, preds, before, created); }
    MatchedIsValid(g, preds, before, created);
    if Acyclic(g) { AcyclicLeadsOn(g); }
  }

  lemma CoverMeansLeadOn<N>(g: Graph<N>, preds: map<N, seq<N>>, before: seq<Task>, created: seq<Task>)
    requires TasksMatch(g, preds, before, created) && SinksCover(LaunchOf(g, preds, before, created))
    ensures VisitedLeadOn(g)
  {
    hide TasksMatch, SinksCover, Fit, LaunchOf, TopoOrder, SinkSet, LeadsOn;
    var order, l := TopoOrder(g), LaunchOf(g, preds, before, created);
    LaunchIsFit(g, preds, before, created);
    LaunchSize(g, preds, before, created);
    LaunchBase(g, preds, before, created);
    forall a | a in order && a !in SinkSet(g) ensures LeadsOn(g, a) {
      var i :| 0 <= i < |order| && order[i] == a;
      NeededIffLeadsOn(g, preds, before, created, i);
      CoverIsNeeded(l);
    }
  }

  lemma LeadOnMeansCover<N>(g: Graph<N>, preds: map<N, seq<N>>, before: seq<Task>, created: seq<Task>)
    requires TasksMatch(g, preds, before, created) && VisitedLeadOn(g)
    ensures SinksCover(LaunchOf(g, preds, before, created))
  {
    hide TasksMatch, SinksCover, Fit, LaunchOf, TopoOrder, SinkSet, LeadsOn, NeededBy;
    var order, l := TopoOrder(g), LaunchOf(g, preds, before, created);
    LaunchIsFit(g, preds, before, created);
    LaunchSize(g, preds, before, created);
    LaunchBase(g, preds, before, created);
    forall t: nat | l.base <= t < |l.tasks| && t !in l.sinks ensures NeededBy(l, t) {
      NeededIffLeadsOn(g, preds, before, created, t - l.base);
      assert order[t - l.base] in order;
    }
    CoverIsNeeded(l);
  }

  /** Creating a second graph's tasks after the first leaves one execution, whose waits cover all its tasks just when they do in both. */
  lemma JoinLaunches(l: Launch, m: Launch)
    requires Fit(l) && Fit(m)
    requires m.base == |l.tasks| && m.tasks[..m.base] == l.tasks
    ensures var j := Launch(m.tasks, l.base, l.sources + m.sources, l.sinks + m.sinks);
            Fit(j) && (SinksCover(j) <==> SinksCover(l) && SinksCover(m))
  {
    var j := Launch(m.tasks, l.base, l.sources + m.sources, l.sinks + m.sinks);
    assert forall t :: 0 <= t < m.base ==> m.tasks[t] == m.tasks[..m.base][t] == l.tasks[t];
    assert Fit(j);
    forall t: nat | l.base <= t < |l.tasks| ensures NeededBy(l, t) <==> NeededBy(j, t) {
      if NeededBy(j, t) {
        var u: nat :| j.base <= u < |j.tasks| && t in j.tasks[u].needs;
        assert t in l.tasks[u].needs;
      }
      if NeededBy(l, t) {
        var u: nat :| l.base <= u < |l.tasks| && t in l.tasks[u].needs;
        assert t in j.tasks[u].needs;
      }
    }
    forall t: nat | m.base <= t < |m.tasks| ensures NeededBy(m, t) <==> NeededBy(j, t) {
      if NeededBy(j, t) {
        var u: nat :| j.base <= u < |j.tasks| && t in j.tasks[u].needs;
        assert t in m.tasks[u].needs;
      }
    }
    CoverIsNeeded(l);
    CoverIsNeeded(m);
    CoverIsNeeded(j);
  }

  lemma CoverIsNeeded(l: Launch)
    requires Fit(l)
    ensures SinksCover(l) <==> forall t: nat :: l.base <= t < |l.tasks| && t !in l.sinks ==> NeededBy(l, t)
  {
  }

  lemma HandlesOfMember<N>(order: seq<N>, base: nat, ps: seq<N>, a: N)
    requires a in order && forall p :: p in ps ==> p in order
    ensures HandleOf(order, base, a) in HandlesOf(order, base, ps) <==> a in ps
  {
    var hs := HandlesOf(order, base, ps);
    if a in ps {
      var j :| 0 <= j < |ps| && ps[j] == a;
      assert hs[j] == HandleOf(order, base, a);
    }
    if HandleOf(order, base, a) in hs {
      var j :| 0 <= j < |hs| && hs[j] == HandleOf(order, base, a);
      assert ps[j] in order && order[IndexOf(order, ps[j])] == order[IndexOf(order, a)];
    }
  }

  lemma OrderFacts(dag: TaskGraph)
    requires dag.Valid()
    ensures var order := TopoOrder(dag.Abs());
            && NoDup(order) && PredsVisitedFirst(order, dag.PredLists())
            && (forall n :: n in order ==> n in dag.allNodes && dag.PredLists()[n] == n.preds)
            && (forall n :: n in order ==> (n.IsSrc() <==> n in dag.Sources()) && (n.IsSink() <==> n in dag.Sinks()))
  {
    var g := dag.Abs();
    var order := TopoOrder(g);
    TopoOrderVisits(g);
    assert forall n :: n in order ==> n in g.nodes by {
      forall n | n in order ensures n in g.nodes { assert n in Elems(order); }
    }
    forall i | 0 <= i < |order| ensures order[i] in dag.allNodes && forall p :: p in order[i].preds ==> p in order[..i] {
      OrderedPreds(dag, order, i);
    }
  }

  lemma OrderedPreds(dag: TaskGraph, order: seq<TaskNode>, i: nat)
    requires dag.Valid() && Ordered(dag.Abs(), order) && i < |order|
    requires forall n :: n in order ==> n in dag.allNodes
    ensures order[i] in dag.allNodes && forall p :: p in order[i].preds ==> p in order[..i]
  {
    var n := order[i];
    assert n in order && Elems(n.preds) == Preds(dag.Abs(), n) <= Elems(order[..i]);
    hide *;
    assert forall p :: p in n.preds ==> p in order[..i] by { ElemsSubset(n.preds, order[..i]); }
  }

  // ---------------------------------------------------------------- a graph with a cycle

  lemma SourceIsVisited<N>(g: Graph<N>, a: N)
    requires ValidGraph(g) && a in g.nodes && Preds(g, a) == {}
    ensures a in TopoOrder(g)
  {
    AfterVisitsInv(g, |g.nodes|);
    assert Ready(g, TopoOrder(g), a);
  }

  lemma CycleIsNotVisited<N>(g: Graph<N>, b: N, c: N)
    requires ValidGraph(g) && Edge(g, b, c) && Edge(g, c, b)
    ensures b !in TopoOrder(g)
  {
    assert b in g.nodes && c in g.nodes;
    assert Walk(g, b, b, 0) && Walk(g, b, c, 1) && Walk(g, b, b, 2);
    TopoOrderVisits(g);
    assert OnCycle(g, b) && Reaches(g, b, b);
    assert b !in Elems(TopoOrder(g));
  }

  /** A node before a cycle is visited, the cycle is not. */
  lemma CycleBehind<N>(a: N, b: N, c: N)
    requires a != b && b != c && a != c
    ensures ValidGraph(Three(a, b, c, [b], [c], [b])) && !VisitedLeadOn(Three(a, b, c, [b], [c], [b]))
  {
    var g := Three(a, b, c, [b], [c], [b]);
    assert g.succs.Keys == {a, b, c} == Elems(g.nodes);
    assert Preds(g, a) == {} && Edge(g, b, c) && Edge(g, c, b);
    hide TopoOrder;
    SourceIsVisited(g, a);
    CycleIsNotVisited(g, b, c);
    assert !LeadsOn(g, a);
  }

  method MakeCycleBehind() returns (dag: TaskGraph, ghost nodes: set<TaskNode>)
    ensures fresh(dag) && fresh(nodes) && dag.Valid() && (forall n :: n in dag.allNodes ==> n in nodes)
    ensures !VisitedLeadOn(dag.Abs())
  {
    hide *;
    var a, b, c;
    dag, a, b, c := MakeThree(TaskInstance(0, 0));
    nodes := {a, b, c};
    Link(dag, a, b, a, b, c, [], [], []);
    assert [] + [b] == [b];
    Link(dag, b, c, a, b, c, [b], [], []);
    assert [] + [c] == [c];
    Link(dag, c, b, a, b, c, [b], [c], []);
    ThreeIs(a, b, c, [b], [c], [b]);
    NodesAre(dag);
    CycleBehind(a, b, c);
  }

  lemma ThreeIs<N>(a: N, b: N, c: N, fromA: seq<N>, fromB: seq<N>, fromC: seq<N>)
    ensures Three(a, b, c, fromA, fromB, fromC).nodes == [a, b, c]
  {
  }

  lemma NodesAre<D>(dag: Dag<D>)
    ensures dag.allNodes == dag.Abs().nodes
  {
  }

  /** Executing that graph, some run returns before the task created for it is complete. */
  method CycleReturnsEarly(exec: ATMIdagExecutor) returns (dag: TaskGraph, ghost l: Launch)
    modifies exec.runtime
    ensures l.tasks == exec.runtime.tasks && Fit(l) && !ReturnMeansDone(l)
  {
    hide *;
    ghost var nodes;
    dag, nodes := MakeCycleBehind();
    ghost var base := |exec.runtime.tasks|;
    OneGiven(dag, nodes);
    var srcs, sinks := exec.ExecuteParallel([dag], nodes, [dag.Abs()], [dag.PredLists()]);
    l := Launch(exec.runtime.tasks, base, srcs, sinks);
    FitIsRunnable(l);
    ReturnMeansDoneIffCovered(l);
    assert dag.Abs() in [dag.Abs()];
  }

  lemma OneGiven(dag: TaskGraph, nodes: set<TaskNode>)
    requires dag.Valid() && forall n :: n in dag.allNodes ==> n in nodes
    ensures GivenAs([dag], [dag.Abs()], [dag.PredLists()], nodes) && Separate([dag])
  {
    hide Dag.Valid, Dag.Abs, Dag.PredLists;
  }

  lemma FitIsRunnable(l: Launch)
    requires Fit(l)
    ensures Runnable(l)
  {
    hide Runnable;
  }
}
