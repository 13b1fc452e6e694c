/** In which order the level-by-level executor's kernels run, in every run of the queues. */
module BfsRuns {
  import opened Sequences
  import opened Graphs
  import opened TaskDag
  import opened DagExecutor
  import opened QueueProtocol
  import opened BatchProtocol
  import opened BatchExecutor
  import opened BfsExecutor

  /** The batches from `base` on are the frontiers of `g`, all of them, in order. */
  ghost predicate Executed<N>(tags: seq<Tag<N>>, nq: nat, g: Graph<N>, base: nat, levels: nat) {
    && ValidGraph(g) && WellFormed(tags, nq)
    && LevelsRun(tags, g, base, levels) && Frontier(g, levels) == {}
    && (levels > 0 ==> End(base + levels - 1) in tags)
  }

  /** What either entry point leaves in the log is such a program. */
  lemma ExecutionsAreExecuted<D>(e: StaticDAGExecutorBFS<D>, tags: seq<Tag<Node<D>>>, after: seq<Tag<Node<D>>>,
                                 g: Graph<Node<D>>, base: nat, levels: nat, nq: nat)
    requires ValidGraph(g) && e.AtLevel({}, tags, after, g, base, levels, nq)
    ensures Executed(after, nq, g, base, levels) && nq <= BARRIER_PKT_NUM_PREDS && e.unordExec.log == Program(after, nq)
  {
    e.LevelFacts({}, tags, after, g, base, levels, nq);
  }

  /** Position `i` of the log is a launch of `n` by this execution. */
  ghost predicate Launches<N>(tags: seq<Tag<N>>, base: nat, levels: nat, i: nat, n: N) {
    i < |tags| && tags[i].Run? && base <= tags[i].k < base + levels && tags[i].task == n
  }

  ghost function LaunchesOf<N>(tags: seq<Tag<N>>, base: nat, levels: nat, n: N): set<nat> {
    set i: nat | i < |tags| && Launches(tags, base, levels, i, n)
  }

  lemma {:induction false} RunIsInBatch<T>(tags: seq<Tag<T>>, i: nat)
    requires i < |tags| && tags[i].Run?
    ensures tags[i].task in BatchRuns(tags, tags[i].k)
  {
    var rest := tags[..|tags| - 1];
    if i < |tags| - 1 { RunIsInBatch(rest, i); }
  }

  lemma {:induction false} BatchRunIsSomewhere<T>(tags: seq<Tag<T>>, k: nat, x: T) returns (i: nat)
    requires x in BatchRuns(tags, k)
    ensures i < |tags| && tags[i].Run? && tags[i].k == k && tags[i].task == x
  {
    var last := |tags| - 1;
    if tags[last].Run? && tags[last].k == k && tags[last].task == x {
      i := last;
    } else {
      i := BatchRunIsSomewhere(tags[..last], k, x);
    }
  }

  lemma {:induction false} OncePerBatch<T>(tags: seq<Tag<T>>, k: nat, i: nat, j: nat)
    requires NoDup(BatchRuns(tags, k)) && i < j < |tags|
    requires tags[i].Run? && tags[i].k == k && tags[j].Run? && tags[j].k == k
    ensures tags[i].task != tags[j].task
  {
    var last := |tags| - 1;
    var rest := tags[..last];
    if j < last {
      NoDupPrefix(BatchRuns(rest, k), if tags[last].Run? && tags[last].k == k then [tags[last].task] else []);
      OncePerBatch(rest, k, i, j);
    } else {
      RunIsInBatch(rest, i);
      FreshLast(BatchRuns(rest, k), tags[last].task);
    }
  }

  lemma NoDupPrefix<T>(a: seq<T>, b: seq<T>)
    requires NoDup(a + b)
    ensures NoDup(a)
  {
    forall i, j | 0 <= i < j < |a| ensures a[i] != a[j] { assert (a + b)[i] == a[i] && (a + b)[j] == a[j]; }
  }

  lemma FreshLast<T>(a: seq<T>, x: T)
    requires NoDup(a + [x])
    ensures x !in a
  {
    forall i | 0 <= i < |a| ensures a[i] != x { assert (a + [x])[i] == a[i] && (a + [x])[|a|] == x; }
  }

  lemma ExecutedIsValid<N>(tags: seq<Tag<N>>, nq: nat, g: Graph<N>, base: nat, levels: nat)
    requires Executed(tags, nq, g, base, levels)
    ensures ValidGraph(g) && Frontier(g, levels) == {}
  {
    hide ValidGraph, WellFormed, LevelsRun, Frontier;
  }

  lemma LaunchLevel<N>(tags: seq<Tag<N>>, nq: nat, g: Graph<N>, base: nat, levels: nat, i: nat, n: N)
    requires Executed(tags, nq, g, base, levels) && Launches(tags, base, levels, i, n)
    ensures n in Frontier(g, tags[i].k - base)
  {
    hide *;
    ExecutedIsValid(tags, nq, g, base, levels);
    var k := BatchOf(tags, base, levels, i, n);
    RunLevelHolds(tags, nq, g, base, levels, k);
    RunIsInBatch(tags, i);
    InLevel(tags, tags[i].k, Frontier(g, k), n);
  }

  lemma BatchOf<N>(tags: seq<Tag<N>>, base: nat, levels: nat, i: nat, n: N) returns (k: nat)
    requires Launches(tags, base, levels, i, n)
    ensures i < |tags| && tags[i].Run? && tags[i].task == n && tags[i].k == base + k && k < levels
  {
    k := tags[i].k - base;
  }

  lemma RunLevelHolds<N>(tags: seq<Tag<N>>, nq: nat, g: Graph<N>, base: nat, levels: nat, k: nat)
    requires Executed(tags, nq, g, base, levels) && k < levels
    ensures HoldsLevel(tags, base + k, Frontier(g, k))
  {
    assert LevelRun(tags, g, base, k);
    hide WellFormed, ValidGraph, Frontier, HoldsLevel;
  }

  lemma InLevel<T>(tags: seq<Tag<T>>, k: nat, level: set<T>, x: T)
    requires HoldsLevel(tags, k, level)
    ensures x in BatchRuns(tags, k) <==> x in level
  {
    hide BatchRuns, NoDup;
    assert x in BatchRuns(tags, k) <==> x in Elems(BatchRuns(tags, k));
  }

  lemma OnlyOne<T>(s: set<T>, a: T, b: T)
    requires |s| == 1 && a in s && b in s
    ensures a == b
  {
    if a != b { SubsetCard({a, b}, s); }
  }

  lemma LevelLaunch<N>(tags: seq<Tag<N>>, nq: nat, g: Graph<N>, base: nat, levels: nat, k: nat, n: N) returns (i: nat)
    requires Executed(tags, nq, g, base, levels) && n in Frontier(g, k)
    ensures Launches(tags, base, levels, i, n) && tags[i].k == base + k && k < levels
  {
    hide *;
    ExecutedIsValid(tags, nq, g, base, levels);
    if levels <= k { EmptyStays(g, levels, k); }
    RunLevelHolds(tags, nq, g, base, levels, k);
    InLevel(tags, base + k, Frontier(g, k), n);
    i := BatchRunIsSomewhere(tags, base + k, n);
    IsLaunch(tags, base, levels, i, k, n);
  }

  lemma IsLaunch<N>(tags: seq<Tag<N>>, base: nat, levels: nat, i: nat, k: nat, n: N)
    requires i < |tags| && tags[i].Run? && tags[i].k == base + k && tags[i].task == n && k < levels
    ensures Launches(tags, base, levels, i, n)
  {
  }

  lemma HeldOnceEach<T>(tags: seq<Tag<T>>, k: nat, level: set<T>)
    requires HoldsLevel(tags, k, level)
    ensures NoDup(BatchRuns(tags, k))
  {
    hide BatchRuns, NoDup;
  }

  lemma LaunchUnique<N>(tags: seq<Tag<N>>, nq: nat, g: Graph<N>, base: nat, levels: nat, i: nat, j: nat, n: N)
    requires Executed(tags, nq, g, base, levels)
    requires Launches(tags, base, levels, i, n) && Launches(tags, base, levels, j, n) && tags[i].k == tags[j].k
    ensures i == j
  {
    hide *;
    var k := BatchOf(tags, base, levels, i, n);
    var k' := BatchOf(tags, base, levels, j, n);
    RunLevelHolds(tags, nq, g, base, levels, k);
    HeldOnceEach(tags, base + k, Frontier(g, k));
    if i < j { OncePerBatch(tags, base + k, i, j); }
    if j < i { OncePerBatch(tags, base + k, j, i); }
  }

  // ---------------------------------------------------------------- how often

  /** Every node of an acyclic graph is launched. */
  lemma EveryNodeLaunched<N>(tags: seq<Tag<N>>, nq: nat, g: Graph<N>, base: nat, levels: nat, n: N) returns (i: nat)
    requires Executed(tags, nq, g, base, levels) && Acyclic(g) && n in g.nodes
    ensures Launches(tags, base, levels, i, n)
  {
    TopoOrderCompleteIffAcyclic(g);
    assert n in Elems(TopoOrder(g));
    var p: nat :| p < |TopoOrder(g)| && TopoOrder(g)[p] == n;
    var k := EveryNodeReached(g, p);
    i := LevelLaunch(tags, nq, g, base, levels, k, n);
  }

  ghost predicate OnceEach<N>(tags: seq<Tag<N>>, g: Graph<N>, base: nat, levels: nat) {
    forall n :: n in g.nodes ==> |LaunchesOf(tags, base, levels, n)| == 1
  }

  lemma OnceIfGraded<N>(tags: seq<Tag<N>>, nq: nat, g: Graph<N>, base: nat, levels: nat, n: N)
    requires Executed(tags, nq, g, base, levels) && Acyclic(g) && Graded(g) && n in g.nodes
    ensures |LaunchesOf(tags, base, levels, n)| == 1
  {
    var i := EveryNodeLaunched(tags, nq, g, base, levels, n);
    var all := LaunchesOf(tags, base, levels, n);
    LaunchLevel(tags, nq, g, base, levels, i, n);
    forall j | j in all ensures j == i {
      LaunchLevel(tags, nq, g, base, levels, j, n);
      LaunchUnique(tags, nq, g, base, levels, i, j, n);
    }
    assert all == {i};
  }

  lemma GradedIfOnce<N>(tags: seq<Tag<N>>, nq: nat, g: Graph<N>, base: nat, levels: nat, n: N, j: nat, k: nat)
    requires Executed(tags, nq, g, base, levels) && OnceEach(tags, g, base, levels)
    requires n in Frontier(g, j) && n in Frontier(g, k)
    ensures j == k
  {
    hide *;
    ExecutedIsValid(tags, nq, g, base, levels);
    FrontierNodes(g, j);
    var a := LevelLaunch(tags, nq, g, base, levels, j, n);
    var b := LevelLaunch(tags, nq, g, base, levels, k, n);
    OnceMeansSame(tags, g, base, levels, n, a, b);
    LaunchIsRun(tags, base, levels, a, n);
  }

  lemma OnceMeansSame<N>(tags: seq<Tag<N>>, g: Graph<N>, base: nat, levels: nat, n: N, i: nat, j: nat)
    requires OnceEach(tags, g, base, levels) && n in g.nodes && Launches(tags, base, levels, i, n) && Launches(tags, base, levels, j, n)
    ensures i == j
  {
    OnlyOne(LaunchesOf(tags, base, levels, n), i, j);
  }

  /** Each node is launched exactly once if and only if the graph is graded. */
  lemma LaunchedOnceIffGraded<N>(tags: seq<Tag<N>>, nq: nat, g: Graph<N>, base: nat, levels: nat)
    requires Executed(tags, nq, g, base, levels) && Acyclic(g)
    ensures OnceEach(tags, g, base, levels) <==> Graded(g)
  {
    if Graded(g) {
      forall n | n in g.nodes ensures |LaunchesOf(tags, base, levels, n)| == 1 { OnceIfGraded(tags, nq, g, base, levels, n); }
    }
    if OnceEach(tags, g, base, levels) {
      forall n, j: nat, k: nat | n in Frontier(g, j) && n in Frontier(g, k) ensures j == k {
        GradedIfOnce(tags, nq, g, base, levels, n, j, k);
      }
    }
  }

  /** As many batches as the longest walk from a source has nodes. */
  lemma LevelsAreWalkLengths<N>(tags: seq<Tag<N>>, nq: nat, g: Graph<N>, base: nat, levels: nat, k: nat)
    requires Executed(tags, nq, g, base, levels)
    ensures k < levels <==> exists n :: n in g.nodes && FromSource(g, n, k)
  {
    if k < levels {
      assert LevelRun(tags, g, base, k);
      var n :| n in Frontier(g, k);
      assert n in g.nodes && FromSource(g, n, k);
    } else {
      EmptyStays(g, levels, k);
      forall n | n in g.nodes ensures !FromSource(g, n, k) { assert n !in Frontier(g, k); }
    }
  }

  // ---------------------------------------------------------------- in which order

  lemma LaunchOf<N>(tags: seq<Tag<N>>, nq: nat, g: Graph<N>, base: nat, levels: nat, j: nat, n: N) returns (k: nat)
    requires Executed(tags, nq, g, base, levels) && Launches(tags, base, levels, j, n)
    ensures ValidGraph(g) && j < |tags| && tags[j].Run? && tags[j].k == base + k && n in Frontier(g, k)
  {
    hide Executed, ValidGraph, Frontier;
    ExecutedIsValid(tags, nq, g, base, levels);
    LaunchLevel(tags, nq, g, base, levels, j, n);
    k := tags[j].k - base;
  }

  lemma SuccessorLaunch<N>(tags: seq<Tag<N>>, nq: nat, g: Graph<N>, base: nat, levels: nat, a: N, b: N, j: nat) returns (i: nat)
    requires Executed(tags, nq, g, base, levels) && Edge(g, a, b) && Launches(tags, base, levels, j, a)
    ensures i < |tags| && j < |tags| && tags[i].Run? && tags[j].Run?
    ensures Launches(tags, base, levels, i, b) && tags[i].k == tags[j].k + 1
  {
    hide *;
    var k := LaunchOf(tags, nq, g, base, levels, j, a);
    EdgeMovesUp(g, a, b, k);
    i := LevelLaunch(tags, nq, g, base, levels, k + 1, b);
    LaunchIsRun(tags, base, levels, i, b);
  }

  lemma LaunchIsRun<N>(tags: seq<Tag<N>>, base: nat, levels: nat, i: nat, n: N)
    requires Launches(tags, base, levels, i, n)
    ensures i < |tags| && tags[i].Run?
  {
  }

  /** Once the last launch of a node is under way, every launch of each of its predecessors is complete. */
  lemma LastLaunchAfterPredecessors<N>(tags: seq<Tag<N>>, nq: nat, g: Graph<N>, base: nat, levels: nat, run: seq<State>, t: nat,
                                       a: N, b: N, i: nat, j: nat)
    requires Executed(tags, nq, g, base, levels) && IsRun(Program(tags, nq), run) && t < |run|
    requires Edge(g, a, b) && Launches(tags, base, levels, j, a) && Launches(tags, base, levels, i, b)
    requires forall i': nat :: Launches(tags, base, levels, i', b) ==> tags[i'].k <= tags[i].k
    requires i in run[t].launched
    ensures j in run[t].done
  {
    var i' := SuccessorLaunch(tags, nq, g, base, levels, a, b, j);
    BatchesInOrder(tags, nq, run, t, j, i);
  }

  /** Whenever a launch of a node is under way, all launches of its predecessors are complete: in every run, or at least in those
      in which every batch is submitted as a whole before anything of it is launched. */
  ghost predicate RunsRespectEdges<N>(tags: seq<Tag<N>>, nq: nat, g: Graph<N>, base: nat, levels: nat, submitted: bool)
    requires nq <= BARRIER_PKT_NUM_PREDS
  {
    forall run: seq<State>, t: nat, a, b, i: nat, j: nat ::
      IsRun(Program(tags, nq), run) && t < |run| && a in g.nodes && b in g.nodes && Edge(g, a, b) && (submitted ==> Submitted(tags, run))
      && Launches(tags, base, levels, j, a) && Launches(tags, base, levels, i, b) && i in run[t].launched
      ==> j in run[t].done
  }

  lemma GradedRunsInOrder<N>(tags: seq<Tag<N>>, nq: nat, g: Graph<N>, base: nat, levels: nat, run: seq<State>, t: nat,
                             a: N, b: N, i: nat, j: nat)
    requires Executed(tags, nq, g, base, levels) && Graded(g) && IsRun(Program(tags, nq), run) && t < |run|
    requires Edge(g, a, b) && Launches(tags, base, levels, j, a) && Launches(tags, base, levels, i, b)
    requires i in run[t].launched
    ensures j in run[t].done
  {
    hide Executed, Frontier, IsRun;
    LaunchLevel(tags, nq, g, base, levels, i, b);
    forall i': nat | Launches(tags, base, levels, i', b) ensures tags[i'].k <= tags[i].k {
      LaunchLevel(tags, nq, g, base, levels, i', b);
    }
    LastLaunchAfterPredecessors(tags, nq, g, base, levels, run, t, a, b, i, j);
  }

  lemma BatchClosed<N>(tags: seq<Tag<N>>, nq: nat, g: Graph<N>, base: nat, levels: nat, i: nat, n: N)
    requires Executed(tags, nq, g, base, levels) && Launches(tags, base, levels, i, n)
    ensures WellFormed(tags, nq) && i < |tags| && tags[i].Run? && End(tags[i].k) in tags
  {
    hide *;
    var k := BatchOf(tags, base, levels, i, n);
    LastBatchEnds(tags, nq, g, base, levels);
    if k < levels - 1 {
      var e :| 0 <= e < |tags| && tags[e] == End(base + levels - 1);
      var e0 := EndsBefore(tags, nq, e, tags[i].k);
    }
  }

  lemma LastBatchEnds<N>(tags: seq<Tag<N>>, nq: nat, g: Graph<N>, base: nat, levels: nat)
    requires Executed(tags, nq, g, base, levels) && levels > 0
    ensures WellFormed(tags, nq) && End(base + levels - 1) in tags
  {
    hide WellFormed, ValidGraph, LevelsRun, Frontier;
  }

  lemma OutOfOrderRun<N>(tags: seq<Tag<N>>, nq: nat, g: Graph<N>, base: nat, levels: nat)
    requires nq <= BARRIER_PKT_NUM_PREDS && Executed(tags, nq, g, base, levels) && !Graded(g)
    ensures !RunsRespectEdges(tags, nq, g, base, levels, true)
  {
    ExecutedIsValid(tags, nq, g, base, levels);
    hide Executed, Frontier, WellFormed;
    LevelsOrderedIffGraded(g);
    var a, b, ja: nat, kb: nat :| a in g.nodes && b in g.nodes && Edge(g, a, b) && a in Frontier(g, ja) && b in Frontier(g, kb) && kb <= ja;
    NoSelfEdge(g, a);
    var j := LevelLaunch(tags, nq, g, base, levels, ja, a);
    var i := LevelLaunch(tags, nq, g, base, levels, kb, b);
    BatchClosed(tags, nq, g, base, levels, i, b);
    var run := OverlapRun(tags, nq, i, j);
    assert IsRun(Program(tags, nq), run) && |run| - 1 < |run|;
  }

  /** No run launches a node before its predecessors are complete, if and only if the graph is graded. */
  lemma RunsRespectEdgesIffGraded<N>(tags: seq<Tag<N>>, nq: nat, g: Graph<N>, base: nat, levels: nat, submitted: bool)
    requires nq <= BARRIER_PKT_NUM_PREDS && Executed(tags, nq, g, base, levels)
    ensures RunsRespectEdges(tags, nq, g, base, levels, submitted) <==> Graded(g)
  {
    hide Executed, Graded, Submitted;
    if Graded(g) {
      forall run: seq<State>, t: nat, a, b, i: nat, j: nat |
        IsRun(Program(tags, nq), run) && t < |run| && a in g.nodes && b in g.nodes && Edge(g, a, b)
        && Launches(tags, base, levels, j, a) && Launches(tags, base, levels, i, b) && i in run[t].launched
        ensures j in run[t].done
      {
        GradedRunsInOrder(tags, nq, g, base, levels, run, t, a, b, i, j);
      }
    } else {
      OutOfOrderRun(tags, nq, g, base, levels);
    }
  }

  /** When the host is past its last operation, every kernel it has waited for is complete. */
  lemma ReturnMeansAllDone<N>(tags: seq<Tag<N>>, nq: nat, base: nat, levels: nat, run: seq<State>, t: nat, n: N, j: nat)
    requires WellFormed(tags, nq) && Waited(tags, base + levels)
    requires IsRun(Program(tags, nq), run) && t < |run| && run[t].pos == |tags| && Launches(tags, base, levels, j, n)
    ensures j in run[t].done
  {
    hide *;
    var k := BatchOf(tags, base, levels, j, n);
    var w := WaitFor(tags, base + levels);
    RunKeepsInv(tags, nq, run, t);
    PassedWait(tags, nq, run[t], w);
    EndedEarlier(tags, nq, run[t], base + levels - 1, tags[j].k);
    EndedMeansKernelDone(tags, nq, run[t], j);
  }

  lemma WaitFor<T>(tags: seq<Tag<T>>, n: nat) returns (w: nat)
    requires Waited(tags, n) && n > 0
    ensures w < |tags| && tags[w] == Await(n - 1)
  {
    w :| w < |tags| && tags[w] == Await(n - 1);
  }

  // ---------------------------------------------------------------- what the host waits for

  lemma {:induction false} KernelsAre<T>(k: nat, ks: seq<Tag<T>>)
    requires AreKernels(k, ks)
    ensures forall x :: x in ks ==> x.k == k && (x.Count? || x.Run?)
  {
    if ks != [] {
      var last := |ks| - 1;
      KernelsAre(k, ks[..last - 1]);
      assert ks == ks[..last - 1] + [ks[last - 1]] + [ks[last]];
    }
  }

  /** What `IsBatch` says about single operations. */
  ghost predicate AddsBatch<T>(before: seq<Tag<T>>, after: seq<Tag<T>>, k: nat, nq: nat, dep: bool) {
    && before <= after
    && (forall i :: |before| <= i < |after| ==> after[i].k == k && !after[i].Await? && (after[i].Begin? ==> dep))
    && (dep ==> forall q: nat :: q < nq ==> Begin(k, q) in after)
  }

  lemma BatchConsistsOf<T>(before: seq<Tag<T>>, after: seq<Tag<T>>, k: nat, nq: nat, dep: bool)
    requires IsBatch(before, after, k, nq, dep)
    ensures AddsBatch(before, after, k, nq, dep)
  {
    var start := StartTags<T>(k, nq, dep);
    var lo := |before| + |start|;
    StartHasNoKernels<T>(k, nq, dep);
    if dep { StartHasBegins<T>(k, nq); }
    KernelsAre(k, after[lo..|after| - 1]);
    BatchGrows(before, after, k, nq, dep);
    hide StartTags, AreKernels;
    forall i | |before| <= i < |after| ensures after[i].k == k && !after[i].Await? && (after[i].Begin? ==> dep) {
      if i < lo {
        assert after[i] == after[..lo][i] == (before + start)[i] == start[i - |before|];
        assert start[i - |before|] in start;
      } else if i < |after| - 1 {
        assert after[i] == after[lo..|after| - 1][i - lo];
        assert after[lo..|after| - 1][i - lo] in after[lo..|after| - 1];
      }
    }
    forall x | x in start ensures x in after { assert x in before + start; assert x in after[..lo]; }
  }

  lemma StartHasBegins<T>(k: nat, nq: nat)
    ensures forall q: nat :: q < nq ==> Tag<T>.Begin(k, q) in StartTags<T>(k, nq, true)
  {
    forall q: nat | q < nq ensures Tag<T>.Begin(k, q) in StartTags<T>(k, nq, true) {
      assert Begins<T>(k, nq)[q] in Begins<T>(k, nq);
    }
  }

  /** What a chain says about single operations: without waits there are start barriers in every queue before every batch but the first,
      with waits there are none. */
  ghost predicate AddsLevels<T>(tags: seq<Tag<T>>, after: seq<Tag<T>>, base: nat, levels: nat, nq: nat, waits: bool) {
    && tags <= after
    && (forall i :: |tags| <= i < |after| ==> base <= after[i].k < base + levels)
    && (forall i :: |tags| <= i < |after| && after[i].Await? ==> waits)
    && (forall i :: |tags| <= i < |after| && after[i].Begin? ==> !waits && base < after[i].k)
    && (!waits ==> forall k: nat, q: nat :: base < k < base + levels && q < nq ==> Begin(k, q) in after)
    && (waits ==> forall k: nat :: base <= k < base + levels ==> Await(k) in after)
  }

  lemma {:induction false} ChainConsistsOf<T>(tags: seq<Tag<T>>, after: seq<Tag<T>>, base: nat, levels: nat, nq: nat, waits: bool)
    requires Chained(tags, after, base, levels, nq, waits)
    ensures AddsLevels(tags, after, base, levels, nq, waits)
    decreases levels
  {
    hide *;
    if levels == 0 {
      NoLevels(tags, after, base, nq, waits);
    } else {
      var i, j := LastLevel(tags, after, base, levels, nq, waits);
      ChainConsistsOf(tags, after[..i], base, levels - 1, nq, waits);
      BatchConsistsOf(after[..i], after[..j], base + levels - 1, nq, !waits && levels > 1);
      ChainLengthens(tags, after, base, levels, nq, waits, i, j, base + levels - 1);
    }
  }

  lemma NoLevels<T>(tags: seq<Tag<T>>, after: seq<Tag<T>>, base: nat, nq: nat, waits: bool)
    requires Chained(tags, after, base, 0, nq, waits)
    ensures AddsLevels(tags, after, base, 0, nq, waits)
  {
  }

  lemma LastLevel<T>(tags: seq<Tag<T>>, after: seq<Tag<T>>, base: nat, levels: nat, nq: nat, waits: bool) returns (i: nat, j: nat)
    requires Chained(tags, after, base, levels, nq, waits) && levels > 0
    ensures i <= j <= |after| && Chained(tags, after[..i], base, levels - 1, nq, waits)
    ensures IsBatch(after[..i], after[..j], base + levels - 1, nq, !waits && levels > 1)
    ensures after[j..] == if waits then [Await(base + levels - 1)] else []
  {
    i, j :|
      && i <= j <= |after| && Chained(tags, after[..i], base, levels - 1, nq, waits)
      && IsBatch(after[..i], after[..j], base + levels - 1, nq, !waits && levels > 1)
      && after[j..] == if waits then [Await(base + levels - 1)] else [];
  }

  lemma ChainLengthens<T>(tags: seq<Tag<T>>, after: seq<Tag<T>>, base: nat, levels: nat, nq: nat, waits: bool, i: nat, j: nat, last: nat)
    requires i <= j <= |after| && levels > 0 && last == base + levels - 1 && AddsLevels(tags, after[..i], base, levels - 1, nq, waits)
    requires AddsBatch(after[..i], after[..j], last, nq, !waits && levels > 1)
    requires after[j..] == if waits then [Await(last)] else []
    ensures AddsLevels(tags, after, base, levels, nq, waits)
  {
    assert after == after[..j] + after[j..];
    forall n | |tags| <= n < |after|
      ensures base <= after[n].k < base + levels && (after[n].Await? ==> waits) && (after[n].Begin? ==> !waits && base < after[n].k)
    {
      if n < i { assert after[n] == after[..i][n]; } else if n < j { assert after[n] == after[..j][n]; }
    }
    StillThere(tags, after, base, levels, nq, waits, i, j, last);
  }

  lemma StillThere<T>(tags: seq<Tag<T>>, after: seq<Tag<T>>, base: nat, levels: nat, nq: nat, waits: bool, i: nat, j: nat, last: nat)
    requires i <= j <= |after| && levels > 0 && last == base + levels - 1 && AddsLevels(tags, after[..i], base, levels - 1, nq, waits)
    requires AddsBatch(after[..i], after[..j], last, nq, !waits && levels > 1)
    requires after[j..] == if waits then [Await(last)] else []
    ensures tags <= after
    ensures !waits ==> forall k: nat, q: nat :: base < k < base + levels && q < nq ==> Begin(k, q) in after
    ensures waits ==> forall k: nat :: base <= k < base + levels ==> Await(k) in after
  {
    assert forall x :: x in after[..i] ==> x in after;
    assert forall x :: x in after[..j] ==> x in after;
    assert waits ==> Await(last) in after[j..];
    assert forall x :: x in after[j..] ==> x in after;
  }

  /** Execution from the command processor: every batch but the first is behind start barriers in all queues, and the host waits only
      once, for the last batch, as its last operation. */
  lemma OneWait<T>(tags: seq<Tag<T>>, after: seq<Tag<T>>, base: nat, levels: nat, nq: nat)
    requires ChainedThenWaited(tags, after, base, levels, nq)
    ensures tags <= after
    ensures forall k: nat, q: nat :: base < k < base + levels && q < nq ==> Begin(k, q) in after
    ensures forall i :: |tags| <= i < |after| && after[i].Begin? ==> base < after[i].k < base + levels
    ensures forall i :: |tags| <= i < |after| && after[i].Await? <==> levels > 0 && i == |after| - 1
    ensures levels > 0 ==> after[|after| - 1] == Await(base + levels - 1)
  {
    var end := if levels > 0 then |after| - 1 else |after|;
    ChainConsistsOf(tags, after[..end], base, levels, nq, false);
    assert forall n :: 0 <= n < end ==> after[..end][n] == after[n];
    assert forall x :: x in after[..end] ==> x in after;
    hide Chained;
  }

  /** Execution from the host: no start barriers, and a wait for every batch before anything of the next. */
  lemma WaitForEach<T>(tags: seq<Tag<T>>, after: seq<Tag<T>>, base: nat, levels: nat, nq: nat, k: nat, i: nat)
    requires Chained(tags, after, base, levels, nq, true) && WellFormed(after, nq)
    requires base <= k && i < |after| && k < after[i].k < base + levels
    ensures Await(k) in after[..i]
    ensures forall n :: |tags| <= n < |after| ==> !after[n].Begin?
  {
    hide Chained, WellFormed;
    ChainConsistsOf(tags, after, base, levels, nq, true);
    EachAwaited(tags, after, base, levels, nq, k);
    hide AddsLevels;
    var w :| 0 <= w < |after| && after[w] == Await(k);
    if i < w { InOrder(after, nq, i, w); }
    assert after[..i][w] == Await(k);
  }

  lemma EachAwaited<T>(tags: seq<Tag<T>>, after: seq<Tag<T>>, base: nat, levels: nat, nq: nat, k: nat)
    requires AddsLevels(tags, after, base, levels, nq, true) && base <= k < base + levels
    ensures Await(k) in after && forall n :: |tags| <= n < |after| ==> !after[n].Begin?
  {
  }

  /** So the host can submit the whole execution before the device has launched anything of it. */
  lemma SubmitsAhead<T>(tags: seq<Tag<T>>, after: seq<Tag<T>>, base: nat, levels: nat, nq: nat) returns (run: seq<State>)
    requires ChainedThenWaited(tags, after, base, levels, nq) && WellFormed(after, nq) && nq <= BARRIER_PKT_NUM_PREDS
    ensures IsRun(Program(after, nq), run) && run != [] && Submitted(after, run)
    ensures run[|run| - 1].pos == (if levels > 0 then |after| - 1 else |after|) && LaunchedBelow(run[|run| - 1], |tags|)
  {
    hide *;
    OneWait(tags, after, base, levels, nq);
    var end := if levels > 0 then |after| - 1 else |after|;
    var w;
    run, w := HostFirst(after, nq, end);
    BelowMore(run[|run| - 1], run[|run| - 1], w, if w < |tags| then |tags| else w);
  }

  /** Execution from the host, however, never submits anything of a batch before all kernels of the batches before it are complete. */
  lemma HostStaysBehind<T>(tags: seq<Tag<T>>, after: seq<Tag<T>>, base: nat, levels: nat, nq: nat, run: seq<State>, t: nat, i: nat, j: nat)
    requires Chained(tags, after, base, levels, nq, true) && WellFormed(after, nq) && nq <= BARRIER_PKT_NUM_PREDS
    requires IsRun(Program(after, nq), run) && t < |run| && i < run[t].pos && i < |after| && j < |after|
    requires after[j].Run? && base <= after[j].k < after[i].k < base + levels
    ensures j in run[t].done
  {
    hide *;
    var k := after[j].k;
    WaitForEach(tags, after, base, levels, nq, k, i);
    var w := At(after, Await(k), i);
    RunKeepsInv(after, nq, run, t);
    PassedWait(after, nq, run[t], w);
    EndedMeansKernelDone(after, nq, run[t], j);
  }

  // ---------------------------------------------------------------- a graph that is not graded

  /** Two edges in a row, and one past both. */
  ghost function Shortcut<N>(a: N, b: N, c: N): Graph<N> {
    Three(a, b, c, [b, c], [c], [])
  }

  lemma ShortcutIsAcyclic<N>(a: N, b: N, c: N)
    requires a != b && b != c && a != c
    ensures ValidGraph(Shortcut(a, b, c)) && Acyclic(Shortcut(a, b, c))
  {
    var g := Shortcut(a, b, c);
    assert g.succs.Keys == {a, b, c} == Elems(g.nodes);
    assert Preds(g, a) == {} && Preds(g, b) == {a} && Preds(g, c) == {a, b};
    assert Elems(g.nodes[..1]) == {a} && Elems(g.nodes[..2]) == {a, b};
    OrderedIsAcyclic(g, g.nodes);
  }

  lemma ShortcutIsNotGraded<N>(a: N, b: N, c: N)
    requires a != b && b != c && a != c
    ensures c in Frontier(Shortcut(a, b, c), 1) && c in Frontier(Shortcut(a, b, c), 2) && !Graded(Shortcut(a, b, c))
  {
    var g := Shortcut(a, b, c);
    assert Preds(g, a) == {};
    assert a in SourceSet(g) && Walk(g, a, a, 0);
    assert Edge(g, a, b) && Edge(g, b, c) && Edge(g, a, c);
    assert Walk(g, a, b, 1) && Walk(g, a, c, 1) && Walk(g, a, c, 2);
  }

  method MakeShortcut() returns (dag: Dag<int>, a: Node<int>, b: Node<int>, c: Node<int>)
    ensures a != b && b != c && a != c && dag.Valid() && dag.Abs() == Shortcut(a, b, c)
  {
    hide *;
    dag, a, b, c := MakeThree(0);
    Link(dag, a, b, a, b, c, [], [], []);
    assert [] + [b] == [b];
    Link(dag, b, c, a, b, c, [b], [], []);
    assert [] + [c] == [c];
    Link(dag, a, c, a, b, c, [b], [c], []);
    assert [b] + [c] == [b, c];
    ShortcutIs(a, b, c);
  }

  lemma ShortcutIs<N>(a: N, b: N, c: N)
    ensures Shortcut(a, b, c) == Three(a, b, c, [b, c], [c], [])
  {
  }

  method NewExecutor(numQs: nat) returns (e: StaticDAGExecutorBFS<int>)
    requires 1 <= numQs <= 4
    ensures fresh(e) && fresh(e.unordExec) && e.unordExec.batches == 0 && e.unordExec.numQueues == numQs
    ensures e.Idle([]) && Waited<Node<int>>([], 0)
  {
    var unordered := new SerialUnorderedExecutor<Node<int>>(numQs);
    e := new StaticDAGExecutorBFS(unordered, _ => 0);
    NothingLogged<Node<int>>(numQs);
  }

  lemma NothingLogged<T>(nq: nat)
    requires 0 < nq <= BARRIER_PKT_NUM_PREDS
    ensures Between<T>([], nq, 0) && HostLog<T>([], nq) == [] && InTurn<T>([], nq, 0, _ => 0)
  {
  }

  /** Executing that graph launches its last node twice, and some run launches a node before a predecessor is complete. */
  method ShortcutLaunchedTwice(numQs: nat)
    returns (e: StaticDAGExecutorBFS<int>, dag: Dag<int>, a: Node<int>, b: Node<int>, c: Node<int>,
             ghost tags: seq<Tag<Node<int>>>, ghost levels: nat, ghost i: nat, ghost j: nat)
    requires 1 <= numQs <= 4
    ensures a != b && b != c && a != c && dag.Valid() && dag.Abs() == Shortcut(a, b, c) && !Graded(dag.Abs())
    ensures Executed(tags, numQs, dag.Abs(), 0, levels) && e.unordExec.log == Program(tags, numQs)
    ensures i != j && Launches(tags, 0, levels, i, c) && Launches(tags, 0, levels, j, c)
    ensures !OnceEach(tags, dag.Abs(), 0, levels) && !RunsRespectEdges(tags, numQs, dag.Abs(), 0, levels, true)
  {
    hide *;
    dag, a, b, c := MakeShortcut();
    ShortcutIsAcyclic(a, b, c);
    ShortcutIsNotGraded(a, b, c);
    e := NewExecutor(numQs);
    tags, levels := e.ExecuteFromCP(dag, []);
    ExecutionsAreExecuted(e, [], tags, dag.Abs(), 0, levels, numQs);
    i := LevelLaunch(tags, numQs, dag.Abs(), 0, levels, 1, c);
    j := LevelLaunch(tags, numQs, dag.Abs(), 0, levels, 2, c);
    LaunchedOnceIffGraded(tags, numQs, dag.Abs(), 0, levels);
    RunsRespectEdgesIffGraded(tags, numQs, dag.Abs(), 0, levels, true);
  }
}
