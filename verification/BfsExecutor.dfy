/** The level-by-level executor (`StaticDAGExecutorBFS`): each frontier of the graph becomes one batch. */
module BfsExecutor {
  import opened Sequences
  import opened Graphs
  import opened TaskDag
  import opened DagExecutor
  import opened QueueProtocol
  import opened BatchProtocol
  import opened BatchExecutor

  // ---------------------------------------------------------------- frontiers

  ghost predicate FromSource<N>(g: Graph<N>, n: N, k: nat) {
    exists s :: s in SourceSet(g) && Walk(g, s, n, k)
  }

  /** The nodes that end a walk of length `k` from a source. */
  ghost function Frontier<N>(g: Graph<N>, k: nat): set<N> {
    set n | n in g.nodes && FromSource(g, n, k)
  }

  ghost predicate SuccessorOf<N>(g: Graph<N>, s: set<N>, b: N) {
    exists a :: a in s && Edge(g, a, b)
  }

  ghost function Successors<N>(g: Graph<N>, s: set<N>): set<N> {
    set b | b in g.nodes && SuccessorOf(g, s, b)
  }

  lemma FrontierStart<N>(g: Graph<N>)
    ensures Frontier(g, 0) == SourceSet(g)
  {
    forall n | n in SourceSet(g) ensures FromSource(g, n, 0) { assert Walk(g, n, n, 0); }
  }

  lemma FrontierStep<N>(g: Graph<N>, k: nat)
    requires ValidGraph(g)
    ensures Frontier(g, k + 1) == Successors(g, Frontier(g, k))
  {
    forall b | b in g.nodes ensures FromSource(g, b, k + 1) <==> SuccessorOf(g, Frontier(g, k), b) {
      if FromSource(g, b, k + 1) {
        var s :| s in SourceSet(g) && Walk(g, s, b, k + 1);
        var m :| m in g.nodes && Walk(g, s, m, k) && Edge(g, m, b);
        assert m in Frontier(g, k);
      }
      if SuccessorOf(g, Frontier(g, k), b) {
        var a :| a in Frontier(g, k) && Edge(g, a, b);
        var s :| s in SourceSet(g) && Walk(g, s, a, k);
        assert Walk(g, s, b, k + 1);
      }
    }
  }

  lemma {:induction false} EmptyStays<N>(g: Graph<N>, k: nat, j: nat)
    requires ValidGraph(g) && Frontier(g, k) == {} && k <= j
    ensures Frontier(g, j) == {}
  {
    if k < j {
      EmptyStays(g, k, j - 1);
      FrontierStep(g, j - 1);
    }
  }

  /** No walk of an acyclic graph has as many edges as the graph has nodes. */
  lemma FrontierBounded<N>(g: Graph<N>, k: nat)
    requires ValidGraph(g) && Acyclic(g) && Frontier(g, k) != {}
    ensures k < |g.nodes|
  {
    var n :| n in Frontier(g, k);
    var s :| s in SourceSet(g) && Walk(g, s, n, k);
    TopoOrderVisits(g);
    TopoOrderCompleteIffAcyclic(g);
    var order := TopoOrder(g);
    assert n in Elems(order);
    var i: nat :| i < |order| && order[i] == n;
    var i0 := WalkMovesRight(g, order, s, n, k, i);
  }

  /** In an acyclic graph every node lies on some frontier. */
  lemma {:induction false} EveryNodeReached<N>(g: Graph<N>, i: nat) returns (k: nat)
    requires ValidGraph(g) && Acyclic(g) && i < |TopoOrder(g)|
    ensures TopoOrder(g)[i] in Frontier(g, k)
    decreases i
  {
    var order := TopoOrder(g);
    TopoOrderVisits(g);
    var n := order[i];
    assert n in Elems(order);
    if Preds(g, n) == {} {
      k := 0;
      FrontierStart(g);
    } else {
      var m :| m in Preds(g, n);
      assert m in Elems(order[..i]);
      var j: nat :| j < i && order[..i][j] == m;
      k := EveryNodeReached(g, j);
      FrontierStep(g, k);
      assert SuccessorOf(g, Frontier(g, k), n);
      k := k + 1;
    }
  }

  /** All walks from sources to one node have the same length. */
  ghost predicate Graded<N>(g: Graph<N>) {
    forall n, j: nat, k: nat :: n in Frontier(g, j) && n in Frontier(g, k) ==> j == k
  }

  /** Each frontier a node lies on comes after every frontier its predecessors lie on. */
  ghost predicate LevelsOrdered<N>(g: Graph<N>) {
    forall a, b, j: nat, k: nat :: Edge(g, a, b) && a in Frontier(g, j) && b in Frontier(g, k) ==> j < k
  }

  lemma EdgeMovesUp<N>(g: Graph<N>, a: N, b: N, j: nat)
    requires ValidGraph(g) && Edge(g, a, b) && a in Frontier(g, j)
    ensures b in Frontier(g, j + 1)
  {
    FrontierStep(g, j);
    assert b in g.nodes;
    assert SuccessorOf(g, Frontier(g, j), b);
  }

  lemma HasPredecessor<N>(g: Graph<N>, n: N, k: nat) returns (a: N)
    requires ValidGraph(g) && k > 0 && n in Frontier(g, k)
    ensures a in Frontier(g, k - 1) && Edge(g, a, n)
  {
    FrontierStep(g, k - 1);
    a :| a in Frontier(g, k - 1) && Edge(g, a, n);
  }

  lemma TargetIsNoSource<N>(g: Graph<N>, a: N, b: N)
    requires Edge(g, a, b)
    ensures b !in SourceSet(g)
  {
    assert a in Preds(g, b);
  }

  lemma SameLevel<N>(g: Graph<N>, n: N, j: nat, k: nat)
    requires ValidGraph(g) && LevelsOrdered(g) && n in Frontier(g, j) && n in Frontier(g, k) && j <= k
    ensures j == k
  {
    if j == 0 && k > 0 {
      FrontierStart(g);
      var b := HasPredecessor(g, n, k);
      TargetIsNoSource(g, b, n);
    } else if k > 0 {
      var b := HasPredecessor(g, n, k);
    }
  }

  /** Frontiers respect every edge if and only if the graph is graded. */
  lemma LevelsOrderedIffGraded<N>(g: Graph<N>)
    requires ValidGraph(g)
    ensures LevelsOrdered(g) <==> Graded(g)
  {
    if LevelsOrdered(g) {
      forall n, j: nat, k: nat | n in Frontier(g, j) && n in Frontier(g, k) ensures j == k {
        if j <= k { SameLevel(g, n, j, k); } else { SameLevel(g, n, k, j); }
      }
    }
    if Graded(g) {
      forall a, b, j: nat, k: nat | Edge(g, a, b) && a in Frontier(g, j) && b in Frontier(g, k) ensures j < k {
        EdgeMovesUp(g, a, b, j);
      }
    }
  }

  // ---------------------------------------------------------------- what an execution submits

  /** Batch `base + k` holds exactly the nodes of frontier `k`, once each. */
  ghost predicate LevelRun<N>(tags: seq<Tag<N>>, g: Graph<N>, base: nat, k: nat) {
    && Frontier(g, k) != {}
    && HoldsLevel(tags, base + k, Frontier(g, k))
  }

  ghost predicate LevelsRun<N>(tags: seq<Tag<N>>, g: Graph<N>, base: nat, levels: nat) {
    forall k: nat :: k < levels ==> LevelRun(tags, g, base, k)
  }

  lemma {:induction false} NoRunsYet<T>(tags: seq<Tag<T>>, k: nat)
    requires KeysUpTo(tags, 5 * k - 1)
    ensures BatchRuns(tags, k) == []
  {
    if tags != [] {
      var rest, last := tags[..|tags| - 1], tags[|tags| - 1];
      assert last in tags;
      assert forall x :: x in rest ==> x in tags;
      NoRunsYet(rest, k);
    }
  }

  class StaticDAGExecutorBFS<D> {
    const unordExec: SerialUnorderedExecutor<Node<D>>
    const skips: nat -> nat   // how many queues in turn are found full after so many host operations

    constructor (e: SerialUnorderedExecutor<Node<D>>, skips: nat -> nat)
      ensures unordExec == e && this.skips == skips
    {
      unordExec, this.skips := e, skips;
    }

    /** What the executor has done so far is `tags`: whole batches, none of them still open. */
    ghost predicate Idle(tags: seq<Tag<Node<D>>>)
      reads unordExec
    {
      && 1 <= unordExec.numQueues <= 4
      && Between(tags, unordExec.numQueues, unordExec.batches) && unordExec.log == HostLog(tags, unordExec.numQueues)
      && InTurn(tags, unordExec.numQueues, unordExec.currQid, skips)
    }

    ghost predicate Filling(tags: seq<Tag<Node<D>>>, b: BatchState, k: nat)
      reads unordExec
    {
      && 1 <= unordExec.numQueues <= 4 && unordExec.batches == k + 1
      && Within(tags, unordExec.numQueues, k) && unordExec.log == HostLog(tags, unordExec.numQueues)
      && InTurn(tags, unordExec.numQueues, unordExec.currQid, skips)
      && b == BatchState(QueueSignals(k, unordExec.numQueues), Final(k))
    }

    /** Any number of queues may be found full before one is not. */
    method AskQueues() returns (fulls: seq<bool>)
      ensures false in fulls && FirstFree(fulls) == skips(|unordExec.log|)
    {
      var n := skips(|unordExec.log|);
      fulls := seq(n, _ => true) + [false];
      assert fulls[n] == false;
    }

    method AddOne(n: Node<D>, b: BatchState, ghost tags: seq<Tag<Node<D>>>, ghost k: nat) returns (ghost q: nat, ghost after: seq<Tag<Node<D>>>)
      requires Filling(tags, b, k)
      modifies unordExec
      ensures Filling(after, b, k) && unordExec.numQueues == old(unordExec.numQueues)
      ensures after == tags + [Count(k, q)] + [Run(k, q, n)]
      ensures BatchRuns(after, k) == BatchRuns(tags, k) + [n]
      ensures forall j :: j != k ==> BatchRuns(after, j) == BatchRuns(tags, j)
    {
      hide *;
      FillingFacts(tags, b, k);
      var fulls := AskQueues();
      q := unordExec.AddToBatch(b, n, fulls);
      AddKernel(tags, unordExec.numQueues, k, q, n);
      KernelTurn(tags, k, q, n, unordExec.numQueues, skips);
      after := tags + [Count(k, q)] + [Run(k, q, n)];
      StillFilling(after, b, k);
    }

    lemma FillingFacts(tags: seq<Tag<Node<D>>>, b: BatchState, k: nat)
      requires Filling(tags, b, k)
      ensures 1 <= unordExec.numQueues <= BARRIER_PKT_NUM_PREDS && unordExec.batches == k + 1 && unordExec.numQueues <= 4
      ensures Within(tags, unordExec.numQueues, k) && unordExec.log == HostLog(tags, unordExec.numQueues) && |unordExec.log| == |tags|
      ensures TakesTurns(tags, unordExec.numQueues, skips)
      ensures unordExec.currQid == CurrentQueue(tags, unordExec.numQueues, skips) < unordExec.numQueues
      ensures b == BatchState(QueueSignals(k, unordExec.numQueues), Final(k)) && |b.perQueue| == unordExec.numQueues
      ensures forall q :: 0 <= q < unordExec.numQueues ==> b.perQueue[q] == PerQueue(k, q)
    {
      hide Within, CurrentQueue, TakesTurns;
    }

    lemma StillFilling(tags: seq<Tag<Node<D>>>, b: BatchState, k: nat)
      requires 1 <= unordExec.numQueues <= 4 && unordExec.batches == k + 1
      requires Within(tags, unordExec.numQueues, k) && unordExec.log == HostLog(tags, unordExec.numQueues)
      requires TakesTurns(tags, unordExec.numQueues, skips) && unordExec.currQid == CurrentQueue(tags, unordExec.numQueues, skips)
      requires b == BatchState(QueueSignals(k, unordExec.numQueues), Final(k))
      ensures Filling(tags, b, k)
    {
      hide Within, HostLog, CurrentQueue, TakesTurns;
    }

    /** Adds the nodes of one frontier, in any order, to a batch. */
    method AddLevel(curr: set<Node<D>>, b: BatchState, ghost tags: seq<Tag<Node<D>>>, ghost k: nat)
      returns (ghost ks: seq<Tag<Node<D>>>, ghost after: seq<Tag<Node<D>>>)
      requires Filling(tags, b, k) && BatchRuns(tags, k) == []
      modifies unordExec
      ensures Filling(after, b, k) && unordExec.numQueues == old(unordExec.numQueues)
      ensures after == tags + ks && AreKernels(k, ks)
      ensures NoDup(BatchRuns(after, k)) && Elems(BatchRuns(after, k)) == curr
      ensures KeptRuns(tags, after, k)
    {
      hide *;
      after, ks := tags, [];
      var rest := curr;
      NothingFilled(tags, k);
      while rest != {}
        invariant Filling(after, b, k) && unordExec.numQueues == old(unordExec.numQueues)
        invariant after == tags + ks && AreKernels(k, ks)
        invariant rest <= curr && NoDup(BatchRuns(after, k)) && Elems(BatchRuns(after, k)) == curr - rest
        invariant forall j :: j != k ==> BatchRuns(after, j) == BatchRuns(tags, j)
        decreases |rest|
      {
        var n :| n in rest;
        PushNew(BatchRuns(after, k), n);
        ghost var q;
        q, after := AddOne(n, b, after, k);
        KernelsNext(k, ks, q, n);
        assert tags + ks + [Count(k, q)] + [Run(k, q, n)] == tags + (ks + [Count(k, q)] + [Run(k, q, n)]);
        ks := ks + [Count(k, q)] + [Run(k, q, n)];
        rest := rest - {n};
      }
      OnlyThese(tags, after, k);
    }

    method AddSuccessors(n: Node<D>, before: set<Node<D>>) returns (next: set<Node<D>>)
      ensures next == before + Elems(n.succs)
    {
      next := before;
      for i := 0 to |n.succs|
        invariant next == before + Elems(n.succs[..i])
      {
        assert n.succs[..i + 1] == n.succs[..i] + [n.succs[i]];
        next := next + {n.succs[i]};
      }
      assert n.succs[..|n.succs|] == n.succs;
    }

    /** The frontier after `curr`: everything some member of `curr` has an edge to. */
    method NextLevel(dag: Dag<D>, curr: set<Node<D>>) returns (next: set<Node<D>>)
      requires dag.Valid() && forall n :: n in curr ==> n in dag.allNodes
      ensures next == Successors(dag.Abs(), curr)
    {
      ghost var g := dag.Abs();
      assert forall n :: n in dag.allNodes ==> n in g.succs && n.succs == g.succs[n];
      assert forall a, b :: Edge(g, a, b) ==> b in g.nodes;
      next := {};
      var rest := curr;
      hide Dag.Valid, Dag.Abs;
      while rest != {}
        invariant rest <= curr && next == Successors(g, curr - rest)
        decreases |rest|
      {
        var n :| n in rest;
        next := AddSuccessors(n, next);
        SuccessorsOfOneMore(g, curr - rest, n);
        assert curr - rest + {n} == curr - (rest - {n});
        rest := rest - {n};
      }
      assert curr - {} == curr;
    }

    method NextFrontier(dag: Dag<D>, curr: set<Node<D>>, ghost g: Graph<Node<D>>, ghost levels: nat) returns (next: set<Node<D>>)
      requires dag.Is(g) && curr == Frontier(g, levels)
      ensures next == Frontier(g, levels + 1)
    {
      assert ValidGraph(g) && g.nodes == dag.allNodes;
      hide *;
      FrontierStep(g, levels);
      FrontierNodes(g, levels);
      next := NextLevel(dag, curr);
    }

    method SourceLevel(dag: Dag<D>) returns (sources: set<Node<D>>)
      requires dag.Valid()
      ensures sources == Frontier(dag.Abs(), 0)
    {
      sources := {};
      for i := 0 to |dag.allNodes|
        invariant sources == set n | n in dag.allNodes[..i] && n.numPred == 0
      {
        var n := dag.allNodes[i];
        assert dag.allNodes[..i + 1] == dag.allNodes[..i] + [n];
        if n.IsSrc() {
          sources := sources + {n};
        }
      }
      assert dag.allNodes[..|dag.allNodes|] == dag.allNodes;
      DagLists(dag);
      FrontierStart(dag.Abs());
    }

    method StartFree(ghost tags: seq<Tag<Node<D>>>) returns (b: BatchState, ghost after: seq<Tag<Node<D>>>)
      requires Idle(tags) && Waited(tags, unordExec.batches)
      modifies unordExec
      ensures Filling(after, b, old(unordExec.batches)) && unordExec.numQueues == old(unordExec.numQueues)
      ensures forall j :: BatchRuns(after, j) == BatchRuns(tags, j)
      ensures after == tags + StartTags(old(unordExec.batches), unordExec.numQueues, false)
    {
      hide BatchRuns, Between, Within, Waited, HostLog, ClearOps, InTurn, StartTags;
      after := Start(tags, unordExec.numQueues, unordExec.batches);
      StillInTurn(tags, unordExec.batches, false, unordExec.numQueues, unordExec.currQid, skips);
      b := unordExec.StartBatch();
    }

    method StartBehind(ghost tags: seq<Tag<Node<D>>>) returns (b: BatchState, ghost after: seq<Tag<Node<D>>>)
      requires Idle(tags) && unordExec.batches > 0
      modifies unordExec
      ensures Filling(after, b, old(unordExec.batches)) && unordExec.numQueues == old(unordExec.numQueues)
      ensures forall j :: BatchRuns(after, j) == BatchRuns(tags, j)
      ensures after == tags + StartTags(old(unordExec.batches), unordExec.numQueues, true)
    {
      hide BatchRuns, Between, Within, HostLog, ClearOps, BarrierOps, InTurn, StartTags;
      after := StartWithDep(tags, unordExec.numQueues, unordExec.batches);
      StillInTurn(tags, unordExec.batches, true, unordExec.numQueues, unordExec.currQid, skips);
      b := unordExec.StartBatchWithDep(Final(unordExec.batches - 1));
    }

    /** Opens the next batch, behind barriers on the batch before it if `dep`. */
    method StartLevel(dep: bool, ghost tags: seq<Tag<Node<D>>>) returns (b: BatchState, ghost after: seq<Tag<Node<D>>>)
      requires Idle(tags) && (if dep then unordExec.batches > 0 else Waited(tags, unordExec.batches))
      modifies unordExec
      ensures Filling(after, b, old(unordExec.batches)) && unordExec.numQueues == old(unordExec.numQueues)
      ensures BatchRuns(after, old(unordExec.batches)) == [] && KeptRuns(tags, after, old(unordExec.batches))
      ensures after == tags + StartTags(old(unordExec.batches), unordExec.numQueues, dep)
    {
      NoRunsYet(tags, unordExec.batches);
      hide BatchRuns, Filling, Idle, Waited, StartTags;
      if dep {
        b, after := StartBehind(tags);
      } else {
        b, after := StartFree(tags);
      }
    }

    method FinishLevel(b: BatchState, ghost tags: seq<Tag<Node<D>>>, ghost k: nat) returns (handle: Signal, ghost after: seq<Tag<Node<D>>>)
      requires Filling(tags, b, k)
      modifies unordExec
      ensures Idle(after) && unordExec.batches == k + 1 && unordExec.numQueues == old(unordExec.numQueues)
      ensures handle == Final(k) && KeysUpTo(after, 5 * k + 3)
      ensures forall j :: BatchRuns(after, j) == BatchRuns(tags, j)
      ensures after == tags + [End(k)]
    {
      hide BatchRuns, Between, Within, HostLog, KeysUpTo, InTurn;
      handle := unordExec.LaunchBatch(b);
      CloseBatch(tags, unordExec.numQueues, k);
      OneMoreInTurn(tags, End(k), unordExec.numQueues, unordExec.currQid, skips);
      after := tags + [End(k)];
    }

    method WaitForLast(handle: Signal, ghost next: set<Node<D>>, ghost tags: seq<Tag<Node<D>>>, ghost before: seq<Tag<Node<D>>>,
                       ghost g: Graph<Node<D>>, ghost base: nat, ghost levels: nat, ghost nq: nat) returns (ghost after: seq<Tag<Node<D>>>)
      requires AtLevel(next, tags, before, g, base, levels + 1, nq)
      requires handle == Final(base + levels) && KeysUpTo(before, 5 * (base + levels) + 3)
      modifies unordExec
      ensures AtLevel(next, tags, after, g, base, levels + 1, nq) && Waited(after, base + levels + 1)
      ensures after == before + [Await(base + levels)]
    {
      hide BatchRuns, Between, HostLog, KeysUpTo, Waited, Frontier, Progress, InTurn;
      unordExec.WaitOnTask(handle);
      AddWait(before, unordExec.numQueues, base + levels);
      OneMoreInTurn(before, Await(base + levels), unordExec.numQueues, unordExec.currQid, skips);
      after := before + [Await(base + levels)];
      ProgressKept(tags, before, after, g, base, levels + 1);
    }

    /** One frontier as one batch, up to the end of the batch. */
    method SubmitLevel(curr: set<Node<D>>, dep: bool, ghost tags: seq<Tag<Node<D>>>) returns (handle: Signal, ghost after: seq<Tag<Node<D>>>)
      requires Idle(tags) && (if dep then unordExec.batches > 0 else Waited(tags, unordExec.batches))
      modifies unordExec
      ensures unordExec.batches == old(unordExec.batches) + 1 && Idle(after) && unordExec.numQueues == old(unordExec.numQueues)
      ensures handle == Final(old(unordExec.batches)) && KeysUpTo(after, 5 * old(unordExec.batches) + 3)
      ensures HoldsLevel(after, old(unordExec.batches), curr) && KeptRuns(tags, after, old(unordExec.batches))
      ensures IsBatch(tags, after, old(unordExec.batches), unordExec.numQueues, dep)
    {
      hide *;
      ghost var k := unordExec.batches;
      var b;
      b, after := StartLevel(dep, tags);
      ghost var begun := after;
      ghost var ks;
      ks, after := AddLevel(curr, b, begun, k);
      ghost var filled := after;
      handle, after := FinishLevel(b, filled, k);
      LevelSubmitted(tags, begun, filled, after, k, curr);
      WholeBatch(tags, after, k, unordExec.numQueues, dep, ks);
    }

    /** One round of the loop: the frontier `curr` as a batch, and the frontier after it. */
    method OneLevel(dag: Dag<D>, curr: set<Node<D>>, dep: bool, ghost tags: seq<Tag<Node<D>>>, ghost before: seq<Tag<Node<D>>>,
                    ghost g: Graph<Node<D>>, ghost base: nat, ghost levels: nat, ghost nq: nat)
      returns (handle: Signal, next: set<Node<D>>, ghost after: seq<Tag<Node<D>>>)
      requires AtLevel(curr, tags, before, g, base, levels, nq) && |curr| > 0
      requires if dep then base + levels > 0 else Waited(before, base + levels)
      requires dag.Is(g)
      modifies unordExec
      ensures AtLevel(next, tags, after, g, base, levels + 1, nq)
      ensures handle == Final(base + levels) && KeysUpTo(after, 5 * (base + levels) + 3)
      ensures IsBatch(before, after, base + levels, nq, dep)
    {
      LevelFacts(curr, tags, before, g, base, levels, nq);
      hide *;
      next := NextFrontier(dag, curr, g, levels);
      handle, after := SubmitLevel(curr, dep, before);
      ProgressMade(tags, before, after, g, base, levels);
      assert next == Frontier(g, levels + 1);
      MakeLevel(next, tags, after, g, base, levels + 1, nq);
    }

    lemma LevelFacts(curr: set<Node<D>>, tags: seq<Tag<Node<D>>>, after: seq<Tag<Node<D>>>, g: Graph<Node<D>>, base: nat, levels: nat, nq: nat)
      requires AtLevel(curr, tags, after, g, base, levels, nq)
      ensures unordExec.batches == base + levels && unordExec.numQueues == nq && curr == Frontier(g, levels)
      ensures Idle(after) && Progress(tags, after, g, base, levels)
    {
    }

    lemma MakeLevel(curr: set<Node<D>>, tags: seq<Tag<Node<D>>>, after: seq<Tag<Node<D>>>, g: Graph<Node<D>>, base: nat, levels: nat, nq: nat)
      requires unordExec.batches == base + levels && unordExec.numQueues == nq && curr == Frontier(g, levels)
      requires Idle(after) && Progress(tags, after, g, base, levels)
      ensures AtLevel(curr, tags, after, g, base, levels, nq)
    {
    }

    /** Between two rounds: `levels` frontiers submitted, `curr` the next one. */
    ghost predicate AtLevel(curr: set<Node<D>>, tags: seq<Tag<Node<D>>>, after: seq<Tag<Node<D>>>, g: Graph<Node<D>>, base: nat, levels: nat, nq: nat)
      reads unordExec
    {
      && Idle(after) && unordExec.batches == base + levels && unordExec.numQueues == nq
      && curr == Frontier(g, levels) && Progress(tags, after, g, base, levels)
    }

    /** The loop of `ExecuteFromCP`, between two rounds. The host has not waited yet; `handle` is the last final signal. */
    ghost predicate Unwaited(first: bool, curr: set<Node<D>>, handle: Signal, tags: seq<Tag<Node<D>>>, after: seq<Tag<Node<D>>>, g: Graph<Node<D>>, base: nat, levels: nat, nq: nat)
      reads unordExec
    {
      && AtLevel(curr, tags, after, g, base, levels, nq) && Chained(tags, after, base, levels, nq, false)
      && (first <==> levels == 0)
      && (levels == 0 ==> handle == Null && Waited(after, base))
      && (levels > 0 ==> handle == Final(base + levels - 1) && KeysUpTo(after, 5 * (base + levels - 1) + 3))
    }

    /** The same, with the graph that is being executed. */
    ghost predicate Submitting(dag: Dag<D>, first: bool, curr: set<Node<D>>, handle: Signal, tags: seq<Tag<Node<D>>>, after: seq<Tag<Node<D>>>, g: Graph<Node<D>>, base: nat, levels: nat, nq: nat)
      reads unordExec, dag`allNodes, dag.allNodes`succs, dag.allNodes`preds, dag.allNodes`numPred
    {
      dag.Is(g) && ValidGraph(g) && Acyclic(g) && Unwaited(first, curr, handle, tags, after, g, base, levels, nq)
    }

    method RoundFromCP(dag: Dag<D>, curr: set<Node<D>>, handle: Signal, ghost tags: seq<Tag<Node<D>>>, ghost before: seq<Tag<Node<D>>>,
                       ghost g: Graph<Node<D>>, ghost base: nat, ghost levels: nat, ghost nq: nat, first: bool)
      returns (handle': Signal, next: set<Node<D>>, ghost after: seq<Tag<Node<D>>>)
      requires Submitting(dag, first, curr, handle, tags, before, g, base, levels, nq) && |curr| > 0
      modifies unordExec
      ensures Submitting(dag, false, next, handle', tags, after, g, base, levels + 1, nq) && levels < |g.nodes|
    {
      hide *;
      OpenRound(dag, first, curr, handle, tags, before, g, base, levels, nq);
      MoreLevels(curr, tags, before, g, base, levels, nq);
      handle', next, after := OneLevel(dag, curr, !first, tags, before, g, base, levels, nq);
      dag.StillIs(g);
      ChainOne(tags, before, after, base, levels, nq);
      CloseRound(dag, next, handle', tags, after, g, base, levels + 1, nq);
    }

    lemma OpenRound(dag: Dag<D>, first: bool, curr: set<Node<D>>, handle: Signal, tags: seq<Tag<Node<D>>>, before: seq<Tag<Node<D>>>,
                    g: Graph<Node<D>>, base: nat, levels: nat, nq: nat)
      requires Submitting(dag, first, curr, handle, tags, before, g, base, levels, nq)
      ensures dag.Is(g) && ValidGraph(g) && Acyclic(g) && AtLevel(curr, tags, before, g, base, levels, nq)
      ensures if !first then base + levels > 0 else Waited(before, base + levels)
      ensures Chained(tags, before, base, levels, nq, false) && (first <==> levels == 0)
    {
      hide Dag.Is, ValidGraph, Acyclic, AtLevel, KeysUpTo, Chained;
    }

    lemma CloseRound(dag: Dag<D>, curr: set<Node<D>>, handle: Signal, tags: seq<Tag<Node<D>>>, after: seq<Tag<Node<D>>>,
                     g: Graph<Node<D>>, base: nat, levels: nat, nq: nat)
      requires dag.Is(g) && ValidGraph(g) && Acyclic(g) && AtLevel(curr, tags, after, g, base, levels, nq) && levels > 0
      requires handle == Final(base + levels - 1) && KeysUpTo(after, 5 * (base + levels - 1) + 3)
      requires Chained(tags, after, base, levels, nq, false)
      ensures Submitting(dag, false, curr, handle, tags, after, g, base, levels, nq)
    {
      hide Dag.Is, ValidGraph, Acyclic, AtLevel, KeysUpTo, Chained;
    }

    /** Between two rounds after each of which the host waits. */
    ghost predicate AtWaitedLevel(curr: set<Node<D>>, tags: seq<Tag<Node<D>>>, after: seq<Tag<Node<D>>>, g: Graph<Node<D>>, base: nat, levels: nat, nq: nat)
      reads unordExec
    {
      AtLevel(curr, tags, after, g, base, levels, nq) && Waited(after, base + levels) && Chained(tags, after, base, levels, nq, true)
    }

    method RoundFromHost(dag: Dag<D>, curr: set<Node<D>>, ghost tags: seq<Tag<Node<D>>>, ghost before: seq<Tag<Node<D>>>,
                         ghost g: Graph<Node<D>>, ghost base: nat, ghost levels: nat, ghost nq: nat)
      returns (next: set<Node<D>>, ghost after: seq<Tag<Node<D>>>)
      requires AtWaitedLevel(curr, tags, before, g, base, levels, nq) && |curr| > 0 && dag.Is(g)
      modifies unordExec
      ensures AtWaitedLevel(next, tags, after, g, base, levels + 1, nq) && dag.Is(g)
    {
      hide Idle, Progress, Dag.Is, AtLevel, Waited, KeysUpTo, Chained, IsBatch;
      var th;
      ghost var closed;
      th, next, closed := OneLevel(dag, curr, false, tags, before, g, base, levels, nq);
      after := WaitForLast(th, next, tags, closed, g, base, levels, nq);
      ChainWaited(tags, before, closed, after, base, levels, nq);
      dag.StillIs(g);
    }

    method StartRounds(dag: Dag<D>, ghost tags: seq<Tag<Node<D>>>, ghost g: Graph<Node<D>>) returns (curr: set<Node<D>>)
      requires Idle(tags) && dag.Is(g)
      ensures AtLevel(curr, tags, tags, g, unordExec.batches, 0, unordExec.numQueues)
    {
      NoProgress(tags, g, unordExec.batches);
      hide Idle, Progress, Frontier, Dag.Valid;
      curr := SourceLevel(dag);
    }

    lemma MoreLevels(curr: set<Node<D>>, tags: seq<Tag<Node<D>>>, after: seq<Tag<Node<D>>>, g: Graph<Node<D>>, base: nat, levels: nat, nq: nat)
      requires AtLevel(curr, tags, after, g, base, levels, nq) && ValidGraph(g) && Acyclic(g) && |curr| > 0
      ensures levels < |g.nodes|
    {
      FrontierBounded(g, levels);
    }

    method StartCP(dag: Dag<D>, ghost tags: seq<Tag<Node<D>>>, ghost g: Graph<Node<D>>, ghost base: nat, ghost nq: nat)
      returns (curr: set<Node<D>>)
      requires Idle(tags) && Waited(tags, unordExec.batches) && dag.Is(g) && Acyclic(g)
      requires base == unordExec.batches && nq == unordExec.numQueues
      ensures Submitting(dag, true, curr, Null, tags, tags, g, base, 0, nq)
    {
      assert ValidGraph(g);
      hide Idle, Dag.Is, AtLevel, Waited, Acyclic, ValidGraph;
      curr := StartRounds(dag, tags, g);
    }

    /** The loop of `ExecuteFromCP`. */
    method SubmitFromCP(dag: Dag<D>, ghost tags: seq<Tag<Node<D>>>, ghost g: Graph<Node<D>>, ghost base: nat, ghost nq: nat)
      returns (last: Signal, ghost after: seq<Tag<Node<D>>>, ghost levels: nat)
      requires Idle(tags) && Waited(tags, unordExec.batches) && dag.Is(g) && Acyclic(g)
      requires base == unordExec.batches && nq == unordExec.numQueues
      modifies unordExec
      ensures Unwaited(levels == 0, {}, last, tags, after, g, base, levels, nq)
    {
      hide *;
      var curr := StartCP(dag, tags, g, base, nq);
      var prevBatchSig, first := Null, true;
      after, levels := tags, 0;
      while |curr| > 0
        invariant Submitting(dag, first, curr, prevBatchSig, tags, after, g, base, levels, nq)
        decreases |g.nodes| - levels
      {
        prevBatchSig, curr, after := RoundFromCP(dag, curr, prevBatchSig, tags, after, g, base, levels, nq, first);
        first := false;
        levels := levels + 1;
      }
      AllSubmitted(dag, first, curr, prevBatchSig, tags, after, g, base, levels, nq);
      last := prevBatchSig;
    }

    lemma AllSubmitted(dag: Dag<D>, first: bool, curr: set<Node<D>>, handle: Signal, tags: seq<Tag<Node<D>>>, after: seq<Tag<Node<D>>>, g: Graph<Node<D>>, base: nat, levels: nat, nq: nat)
      requires Submitting(dag, first, curr, handle, tags, after, g, base, levels, nq) && |curr| == 0
      ensures Unwaited(levels == 0, {}, handle, tags, after, g, base, levels, nq)
    {
      assert curr == {};
    }

    /** The graph's frontiers as batches, each behind barriers on the one before; the host waits once, at the end. */
    method ExecuteFromCP(dag: Dag<D>, ghost tags: seq<Tag<Node<D>>>) returns (ghost after: seq<Tag<Node<D>>>, ghost levels: nat)
      requires Idle(tags) && Waited(tags, unordExec.batches) && dag.Valid() && Acyclic(dag.Abs())
      modifies unordExec
      ensures AtLevel({}, tags, after, old(dag.Abs()), old(unordExec.batches), levels, old(unordExec.numQueues))
      ensures Waited(after, old(unordExec.batches) + levels)
      ensures ChainedThenWaited(tags, after, old(unordExec.batches), levels, old(unordExec.numQueues))
    {
      hide *;
      ghost var g, base, nq := dag.Abs(), unordExec.batches, unordExec.numQueues;
      IsItself(dag);
      var prevBatchSig;
      ghost var closed;
      prevBatchSig, closed, levels := SubmitFromCP(dag, tags, g, base, nq);
      after := LastWait(prevBatchSig, tags, closed, g, base, levels, nq);
    }

    /** The wait after the loop, if anything has been submitted. */
    method LastWait(handle: Signal, ghost tags: seq<Tag<Node<D>>>, ghost before: seq<Tag<Node<D>>>,
                    ghost g: Graph<Node<D>>, ghost base: nat, ghost levels: nat, ghost nq: nat) returns (ghost after: seq<Tag<Node<D>>>)
      requires Unwaited(levels == 0, {}, handle, tags, before, g, base, levels, nq)
      modifies unordExec
      ensures AtLevel({}, tags, after, g, base, levels, nq) && Waited(after, base + levels)
      ensures ChainedThenWaited(tags, after, base, levels, nq)
    {
      hide Progress, Waited, KeysUpTo, AtLevel, Chained;
      assert before[..|before|] == before && (before + [Await(if levels > 0 then base + levels - 1 else 0)])[..|before|] == before;
      after := before;
      if handle != Null {
        after := WaitForLast(handle, {}, tags, before, g, base, levels - 1, nq);
      }
    }

    /** The same batches, but the host waits for each before it submits the next. */
    method ExecuteFromHost(dag: Dag<D>, ghost tags: seq<Tag<Node<D>>>) returns (ghost after: seq<Tag<Node<D>>>, ghost levels: nat)
      requires Idle(tags) && Waited(tags, unordExec.batches) && dag.Valid() && Acyclic(dag.Abs())
      modifies unordExec
      ensures AtLevel({}, tags, after, old(dag.Abs()), old(unordExec.batches), levels, old(unordExec.numQueues))
      ensures Waited(after, old(unordExec.batches) + levels)
      ensures Chained(tags, after, old(unordExec.batches), levels, old(unordExec.numQueues), true)
    {
      hide *;
      ghost var g, base, nq := dag.Abs(), unordExec.batches, unordExec.numQueues;
      IsItself(dag);
      var curr := StartRounds(dag, tags, g);
      after, levels := tags, 0;
      StartWaited(curr, tags, g, base, nq);
      while |curr| > 0
        invariant AtWaitedLevel(curr, tags, after, g, base, levels, nq) && dag.Is(g)
        decreases |g.nodes| - levels
      {
        RoundsLeft(curr, tags, after, g, base, levels, nq);
        curr, after := RoundFromHost(dag, curr, tags, after, g, base, levels, nq);
        levels := levels + 1;
      }
      NoLevelLeft(curr, tags, after, g, base, levels, nq);
    }

    lemma IsItself(dag: Dag<D>)
      requires dag.Valid()
      ensures dag.Is(dag.Abs()) && ValidGraph(dag.Abs())
    {
    }

    lemma StartWaited(curr: set<Node<D>>, tags: seq<Tag<Node<D>>>, g: Graph<Node<D>>, base: nat, nq: nat)
      requires AtLevel(curr, tags, tags, g, base, 0, nq) && Waited(tags, base)
      ensures AtWaitedLevel(curr, tags, tags, g, base, 0, nq)
    {
      hide AtLevel, Waited;
    }

    lemma RoundsLeft(curr: set<Node<D>>, tags: seq<Tag<Node<D>>>, after: seq<Tag<Node<D>>>, g: Graph<Node<D>>, base: nat, levels: nat, nq: nat)
      requires AtWaitedLevel(curr, tags, after, g, base, levels, nq) && ValidGraph(g) && Acyclic(g) && |curr| > 0
      ensures levels < |g.nodes|
    {
      MoreLevels(curr, tags, after, g, base, levels, nq);
    }

    lemma NoLevelLeft(curr: set<Node<D>>, tags: seq<Tag<Node<D>>>, after: seq<Tag<Node<D>>>, g: Graph<Node<D>>, base: nat, levels: nat, nq: nat)
      requires AtWaitedLevel(curr, tags, after, g, base, levels, nq) && |curr| == 0
      ensures AtLevel({}, tags, after, g, base, levels, nq) && Waited(after, base + levels) && Chained(tags, after, base, levels, nq, true)
    {
      assert curr == {};
    }
  }

  /** The current queue is the one whose turn it is, and every kernel went to the queue whose turn it was. */
  ghost predicate InTurn<T>(tags: seq<Tag<T>>, nq: nat, q: nat, skips: nat -> nat) {
    nq > 0 && TakesTurns(tags, nq, skips) && q == CurrentQueue(tags, nq, skips)
  }

  lemma StillInTurn<T>(tags: seq<Tag<T>>, k: nat, dep: bool, nq: nat, q: nat, skips: nat -> nat)
    requires InTurn(tags, nq, q, skips)
    ensures InTurn(tags + StartTags(k, nq, dep), nq, q, skips)
  {
    hide TakesTurns, CurrentQueue, StartTags;
    StartHasNoKernels<T>(k, nq, dep);
    TurnsKept(tags, StartTags(k, nq, dep), nq, skips);
  }

  lemma OneMoreInTurn<T>(tags: seq<Tag<T>>, t: Tag<T>, nq: nat, q: nat, skips: nat -> nat)
    requires InTurn(tags, nq, q, skips) && !t.Run?
    ensures InTurn(tags + [t], nq, q, skips)
  {
    hide TakesTurns, CurrentQueue;
    TurnsPush(tags, t, nq, skips);
    QueueNext(tags, t, nq, skips);
  }

  lemma WholeBatch<T>(before: seq<Tag<T>>, after: seq<Tag<T>>, k: nat, nq: nat, dep: bool, ks: seq<Tag<T>>)
    requires after == before + StartTags(k, nq, dep) + ks + [End(k)] && AreKernels(k, ks)
    ensures IsBatch(before, after, k, nq, dep)
  {
    hide StartTags, AreKernels;
    var lo := |before + StartTags<T>(k, nq, dep)|;
    assert after[lo..|after| - 1] == ks;
  }

  /** One batch after the other: with a wait of the host for each, or else every one but the first behind start barriers. */
  ghost predicate Chained<T>(tags: seq<Tag<T>>, after: seq<Tag<T>>, base: nat, levels: nat, nq: nat, waits: bool)
    decreases levels
  {
    if levels == 0 then after == tags
    else
      exists i: nat, j: nat ::
        && i <= j <= |after| && Chained(tags, after[..i], base, levels - 1, nq, waits)
        && IsBatch(after[..i], after[..j], base + levels - 1, nq, !waits && levels > 1)
        && after[j..] == if waits then [Await(base + levels - 1)] else []
  }

  /** The same without waits, but for one at the end, if there is anything to wait for. */
  ghost predicate ChainedThenWaited<T>(tags: seq<Tag<T>>, after: seq<Tag<T>>, base: nat, levels: nat, nq: nat) {
    var end := if levels > 0 then |after| - 1 else |after|;
    && (levels > 0 ==> after != [] && after[end] == Await(base + levels - 1))
    && Chained(tags, after[..end], base, levels, nq, false)
  }

  lemma ChainOne<T>(tags: seq<Tag<T>>, before: seq<Tag<T>>, after: seq<Tag<T>>, base: nat, levels: nat, nq: nat)
    requires Chained(tags, before, base, levels, nq, false) && IsBatch(before, after, base + levels, nq, levels > 0)
    ensures Chained(tags, after, base, levels + 1, nq, false)
  {
    BatchGrows(before, after, base + levels, nq, levels > 0);
    hide IsBatch;
    assert after[..|before|] == before && after[..|after|] == after && after[|after|..] == [];
  }

  lemma BatchGrows<T>(before: seq<Tag<T>>, after: seq<Tag<T>>, k: nat, nq: nat, dep: bool)
    requires IsBatch(before, after, k, nq, dep)
    ensures before <= after
  {
    var start := StartTags<T>(k, nq, dep);
    assert before == (before + start)[..|before|] == after[..|before| + |start|][..|before|] == after[..|before|];
  }

  lemma ChainWaited<T>(tags: seq<Tag<T>>, before: seq<Tag<T>>, closed: seq<Tag<T>>, after: seq<Tag<T>>, base: nat, levels: nat, nq: nat)
    requires Chained(tags, before, base, levels, nq, true) && IsBatch(before, closed, base + levels, nq, false)
    requires after == closed + [Await(base + levels)]
    ensures Chained(tags, after, base, levels + 1, nq, true)
  {
    BatchGrows(before, closed, base + levels, nq, false);
    hide IsBatch;
    assert after[..|before|] == before && after[..|closed|] == closed && after[|closed|..] == [Await(base + levels)];
  }

  lemma NothingFilled<T>(tags: seq<Tag<T>>, k: nat)
    requires BatchRuns(tags, k) == []
    ensures NoDup(BatchRuns(tags, k)) && Elems(BatchRuns(tags, k)) == {} && tags + [] == tags && AreKernels<T>(k, [])
  {
  }

  lemma OnlyThese<T>(before: seq<Tag<T>>, after: seq<Tag<T>>, k: nat)
    requires forall j: nat :: j != k ==> BatchRuns(after, j) == BatchRuns(before, j)
    ensures KeptRuns(before, after, k)
  {
    hide BatchRuns;
  }

  /** Only batch `k` has other kernels than before. */
  ghost predicate KeptRuns<T>(before: seq<Tag<T>>, after: seq<Tag<T>>, k: nat) {
    forall j: nat :: j != k ==> BatchRuns(after, j) == BatchRuns(before, j)
  }

  /** The batches before `base` are as they were. */
  ghost predicate EarlierRuns<T>(before: seq<Tag<T>>, after: seq<Tag<T>>, base: nat) {
    forall j: nat :: j < base ==> BatchRuns(after, j) == BatchRuns(before, j)
  }

  ghost predicate HoldsLevel<T>(tags: seq<Tag<T>>, k: nat, level: set<T>) {
    NoDup(BatchRuns(tags, k)) && Elems(BatchRuns(tags, k)) == level
  }

  lemma LevelSubmitted<T>(tags: seq<Tag<T>>, begun: seq<Tag<T>>, filled: seq<Tag<T>>, after: seq<Tag<T>>, k: nat, level: set<T>)
    requires KeptRuns(tags, begun, k) && KeptRuns(begun, filled, k)
    requires NoDup(BatchRuns(filled, k)) && Elems(BatchRuns(filled, k)) == level
    requires forall j :: BatchRuns(after, j) == BatchRuns(filled, j)
    ensures HoldsLevel(after, k, level) && KeptRuns(tags, after, k)
  {
    hide BatchRuns, NoDup;
  }

  /** The first `levels` frontiers have been submitted since `tags`. */
  ghost predicate Progress<N>(tags: seq<Tag<N>>, after: seq<Tag<N>>, g: Graph<N>, base: nat, levels: nat) {
    LevelsRun(after, g, base, levels) && EarlierRuns(tags, after, base)
  }

  lemma NoProgress<N>(tags: seq<Tag<N>>, g: Graph<N>, base: nat)
    ensures Progress(tags, tags, g, base, 0)
  {
  }

  lemma FrontierNodes<N>(g: Graph<N>, k: nat)
    ensures forall n :: n in Frontier(g, k) ==> n in g.nodes
  {
  }

  lemma ProgressMade<N>(tags: seq<Tag<N>>, before: seq<Tag<N>>, after: seq<Tag<N>>, g: Graph<N>, base: nat, levels: nat)
    requires Progress(tags, before, g, base, levels) && Frontier(g, levels) != {}
    requires HoldsLevel(after, base + levels, Frontier(g, levels)) && KeptRuns(before, after, base + levels)
    ensures Progress(tags, after, g, base, levels + 1)
  {
    hide BatchRuns, Frontier;
    forall k: nat | k < levels + 1 ensures LevelRun(after, g, base, k) {
      assert k < levels ==> LevelRun(before, g, base, k);
    }
  }

  lemma ProgressKept<N>(tags: seq<Tag<N>>, before: seq<Tag<N>>, after: seq<Tag<N>>, g: Graph<N>, base: nat, levels: nat)
    requires Progress(tags, before, g, base, levels) && forall j :: BatchRuns(after, j) == BatchRuns(before, j)
    ensures Progress(tags, after, g, base, levels)
  {
    hide BatchRuns, Frontier;
    forall k: nat | k < levels ensures LevelRun(after, g, base, k) {
      assert LevelRun(before, g, base, k);
    }
  }

  lemma SuccessorsOfOneMore<N>(g: Graph<N>, s: set<N>, n: N)
    requires n in g.succs && forall b :: b in g.succs[n] ==> b in g.nodes
    ensures Successors(g, s + {n}) == Successors(g, s) + Elems(g.succs[n])
  {
    forall b | b in g.nodes ensures SuccessorOf(g, s + {n}, b) <==> SuccessorOf(g, s, b) || b in Elems(g.succs[n]) {
      if b in Elems(g.succs[n]) { assert n in s + {n} && Edge(g, n, b); }
      if SuccessorOf(g, s, b) {
        var a :| a in s && Edge(g, a, b);
        assert a in s + {n};
      }
    }
  }

  lemma PushNew<T>(s: seq<T>, x: T)
    requires NoDup(s) && x !in Elems(s)
    ensures NoDup(s + [x]) && Elems(s + [x]) == Elems(s) + {x}
  {
    JoinNoDup(s, [x]);
  }
}
