/** What every run does inside one partition: copies in, then its inner graph along the edges, then copies out. */
module OutOfCoreStages {
  import opened Sequences
  import opened Graphs
  import opened AsyncRuntime
  import opened DagExecutor
  import opened OutOfCore
  import opened OutOfCoreTasks
  import opened OutOfCoreRuns

  /** Whatever has started of a stage has waited for the stage's entry. */
  lemma {:induction false} StageEntered(l: Launch, s: RunState, entry: nat, lo: nat, hi: nat, t: nat)
    requires RunInv(l, s) && l.base <= lo && Stage(l.tasks, entry, lo, hi) && lo <= t < hi && t in s.started
    ensures entry in s.done
    decreases t
  {
    assert WaitsWithin(l.tasks[t], entry, lo, t);
    var h := l.tasks[t].needs[0];
    assert h in l.tasks[t].needs;
    NeedIsDone(l, s, t, h);
    if h != entry {
      StageEntered(l, s, entry, lo, hi, h);
    }
  }

  /** Once the last task of a stage is complete, so is all of it. */
  lemma {:induction false} StageCompleted(l: Launch, s: RunState, entry: nat, lo: nat, hi: nat, t: nat)
    requires RunInv(l, s) && l.base <= lo && Stage(l.tasks, entry, lo, hi) && hi - 1 in s.done && lo <= t < hi
    ensures t in s.done
    decreases hi - t
  {
    if t < hi - 1 {
      assert NeededBefore(l.tasks, t, hi);
      var u :| t < u < hi && u < |l.tasks| && t in l.tasks[u].needs;
      StageCompleted(l, s, entry, lo, hi, u);
      NeedIsDone(l, s, u, t);
    }
  }

  /** Tasks `a..b` are all complete before any of `b..c` starts. */
  ghost predicate CompleteBefore(s: RunState, a: nat, b: nat, c: nat) {
    forall t, u :: a <= t < b <= u < c && u in s.started ==> t in s.done
  }

  lemma StageAfterStage(l: Launch, s: RunState, entry: nat, lo: nat, mid: nat, hi: nat)
    requires RunInv(l, s) && l.base <= lo && Stage(l.tasks, entry, lo, mid) && Stage(l.tasks, mid - 1, mid, hi)
    ensures CompleteBefore(s, lo, mid, hi)
  {
    hide RunInv, Stage;
    forall t, u | lo <= t < mid <= u < hi && u in s.started ensures t in s.done {
      assert mid > 0;
      StageEntered(l, s, mid - 1, mid, hi, u);
      StageCompleted(l, s, entry, lo, mid, t);
    }
  }

  /** In every run a partition's copies in are complete before anything of its inner graph starts, all of its inner graph before
      any copy out. */
  lemma StagesInSequence<N, M>(p: Plan<N, M>, run: seq<RunState>, k: nat, i: nat)
    requires ValidPlan(p) && IsRun(p.launch, run) && k < |run| && i < |p.g.nodes|
    ensures |p.los| == |p.g.nodes| + 1 && p.g.nodes[i] in p.parts
    ensures var part, lo, hi := p.parts[p.g.nodes[i]], p.los[i], p.los[i + 1];
            && CompleteBefore(run[k], lo + 1, InnerLo(part, lo), OutLo(part, lo))
            && CompleteBefore(run[k], InnerLo(part, lo), OutLo(part, lo), hi)
  {
    hide *;
    PartitionFacts(p, i);
    PlanFacts(p, i);
    PartIsReady(p, i);
    RunKeepsInv(p.launch, run, k);
    var l, s, part, lo, hi := p.launch, run[k], p.parts[p.g.nodes[i]], p.los[i], p.los[i + 1];
    PartitionStages(l.tasks, part, lo, hi);
    StageAfterStage(l, s, lo, lo + 1, InnerLo(part, lo), OutLo(part, lo));
    StageAfterStage(l, s, InnerLo(part, lo) - 1, InnerLo(part, lo), OutLo(part, lo), hi);
  }

  lemma PartIsReady<N, M>(p: Plan<N, M>, i: nat)
    requires ValidPlan(p) && i < |p.g.nodes|
    ensures p.g.nodes[i] in p.parts && ReadyPart(p.parts[p.g.nodes[i]])
  {
    hide IsPlan, ReadyPart;
    assert p.g.nodes[i] in p.g.nodes;
  }

  /** The task created for a node of the partition's inner graph. */
  ghost function InnerHandle<M>(part: Part<M>, lo: nat, x: M): nat
    requires x in TopoOrder(part.g)
  {
    HandleOf(TopoOrder(part.g), InnerLo(part, lo), x)
  }

  lemma EdgeListed<M>(part: Part<M>, x: M, y: M)
    requires ReadyPart(part) && Edge(part.g, x, y)
    ensures x in TopoOrder(part.g) && y in TopoOrder(part.g) && y in part.preds && x in part.preds[y]
  {
    var g, order, preds := part.g, TopoOrder(part.g), part.preds;
    TopoOrderCompleteIffAcyclic(g);
    assert x in Elems(g.nodes) && y in Elems(g.nodes);
    assert x in Elems(preds[y]);
    assert x in Elems(order) && y in Elems(order);
  }

  lemma InnerEdgeIsNeeded<M>(tasks: seq<Task>, part: Part<M>, lo: nat, hi: nat, x: M, y: M)
    requires PartitionTasks(tasks, part, lo, hi) && ReadyPart(part) && Edge(part.g, x, y)
    ensures x in TopoOrder(part.g) && y in TopoOrder(part.g)
    ensures lo < InnerHandle(part, lo, y) < |tasks| && InnerHandle(part, lo, x) in tasks[InnerHandle(part, lo, y)].needs
  {
    EdgeListed(part, x, y);
    var order, preds, a := TopoOrder(part.g), part.preds, InnerLo(part, lo);
    hide TopoOrder, ValidGraph, Edge, CopyStage, ReadyPart;
    var j := IndexOf(order, y);
    assert tasks[a + j] == InnerTask(order, preds, a - 1, a, j);
    assert order[j] == y && forall q :: q in preds[y] ==> q in order[..j];
    HandlesOfMember(order, a, preds[y], x);
  }

  /** In every run a node's task starts only once those of its predecessors in the inner graph are complete. */
  lemma InnerEdgesRespected<N, M>(p: Plan<N, M>, run: seq<RunState>, k: nat, i: nat, x: M, y: M)
    requires ValidPlan(p) && IsRun(p.launch, run) && k < |run| && i < |p.g.nodes| && p.g.nodes[i] in p.parts
    requires Edge(p.parts[p.g.nodes[i]].g, x, y)
    ensures var part := p.parts[p.g.nodes[i]];
            && |p.los| == |p.g.nodes| + 1 && x in TopoOrder(part.g) && y in TopoOrder(part.g)
            && (InnerHandle(part, p.los[i], y) in run[k].started ==> InnerHandle(part, p.los[i], x) in run[k].done)
  {
    hide *;
    var part := p.parts[p.g.nodes[i]];
    PartitionFacts(p, i);
    PlanFacts(p, i);
    PartIsReady(p, i);
    RunKeepsInv(p.launch, run, k);
    InnerEdgeIsNeeded(p.launch.tasks, part, p.los[i], p.los[i + 1], x, y);
    var t, h := InnerHandle(part, p.los[i], y), InnerHandle(part, p.los[i], x);
    if t in run[k].started { NeedIsDone(p.launch, run[k], t, h); }
  }
}
