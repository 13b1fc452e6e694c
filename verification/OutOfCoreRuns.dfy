/** What every run of the out-of-core tasks does with the device slots. */
module OutOfCoreRuns {
  import opened Arithmetic
  import opened Sequences
  import opened Graphs
  import opened TaskDag
  import opened AsyncRuntime
  import opened DagExecutor
  import opened OutOfCore
  import opened OutOfCoreTasks

  /** A partition graph together with the tasks `ExecutePartitionDAG` created for it. */
  datatype Plan<N, M> = Plan(g: Graph<N>, preds: map<N, seq<N>>, parts: map<N, Part<M>>, launch: Launch, los: seq<nat>, recorded: seq<nat>)

  /** What creating the tasks leaves behind, whatever the partitions are. */
  ghost predicate IsPlan<N, M>(p: Plan<N, M>) {
    && Lists(p.g, p.preds) && |p.los| == |p.g.nodes| + 1
    && p.launch.base <= |p.launch.tasks|
    && CreatedSoFar(p.g.nodes, p.preds, p.parts, p.launch.tasks, p.launch.base, p.los, p.recorded)
    && p.launch.sources == HandlesAt(p.g.nodes, p.los[..|p.g.nodes|], SourceSet(p.g))
    && p.launch.sinks == HandlesAt(p.g.nodes, p.recorded, SinkSet(p.g))
  }

  /** Every partition has data to copy and work to do. */
  ghost predicate AllReady<N, M>(p: Plan<N, M>) {
    forall n :: n in p.g.nodes ==> n in p.parts && ReadyPart(p.parts[n])
  }

  ghost predicate ValidPlan<N, M>(p: Plan<N, M>) {
    IsPlan(p) && AllReady(p)
  }

  // ---------------------------------------------------------------- one partition

  lemma PlanFacts<N, M>(p: Plan<N, M>, i: nat)
    requires IsPlan(p) && i < |p.g.nodes|
    ensures |p.los| == |p.g.nodes| + 1 == |p.recorded| + 1
    ensures p.los[i] < p.los[i + 1] <= |p.launch.tasks| && p.recorded[i] + 1 == p.los[i + 1] && p.launch.base <= p.los[i]
    ensures p.g.nodes[i] in p.preds && p.g.nodes[i] in p.parts
    ensures SrcNeeds(p.g.nodes, p.preds[p.g.nodes[i]], p.launch.tasks[p.los[i]].needs, p.launch.base, p.los, i)
    ensures PartitionTasks(p.launch.tasks, p.parts[p.g.nodes[i]], p.los[i], p.los[i + 1])
    decreases i
  {
    hide Lists, SrcNeeds, PartitionTasks, HandlesAt;
    assert PartitionAt(p.g.nodes, p.preds, p.parts, p.launch.tasks, p.launch.base, p.los, p.recorded, i);
    if i > 0 { PlanFacts(p, i - 1); }
  }

  lemma PartitionFacts<N, M>(p: Plan<N, M>, i: nat)
    requires ValidPlan(p) && i < |p.g.nodes|
    ensures IsPlan(p) && |p.los| == |p.g.nodes| + 1 == |p.recorded| + 1
    ensures p.launch.base <= |p.launch.tasks| && p.los[i] + 4 < p.los[i + 1] <= |p.launch.tasks| && IsBlock(p.launch.tasks, p.los[i], p.los[i + 1])
    ensures p.recorded[i] + 1 == p.los[i + 1] && p.launch.base <= p.los[i]
    ensures p.g.nodes[i] in p.preds
    ensures SrcNeeds(p.g.nodes, p.preds[p.g.nodes[i]], p.launch.tasks[p.los[i]].needs, p.launch.base, p.los, i)
  {
    hide IsPlan, IsBlock, SrcNeeds, PartitionTasks, ReadyPart;
    PlanFacts(p, i);
    assert p.g.nodes[i] in p.g.nodes;
    PartitionIsBlock(p.launch.tasks, p.parts[p.g.nodes[i]], p.los[i], p.los[i + 1]);
  }

  lemma {:induction false} BlocksInOrder<N, M>(p: Plan<N, M>, i: nat, j: nat)
    requires IsPlan(p) && i <= j <= |p.g.nodes|
    ensures |p.los| == |p.g.nodes| + 1 && p.los[i] <= p.los[j]
    decreases j
  {
    if i < j {
      BlocksInOrder(p, i, j - 1);
      PlanFacts(p, j - 1);
    }
  }

  /** Once a partition's sink task is complete, so are all its tasks. */
  lemma {:induction false} SinkDoneMeansBlockDone(l: Launch, s: RunState, lo: nat, hi: nat, t: nat)
    requires RunInv(l, s) && l.base <= lo && IsBlock(l.tasks, lo, hi) && hi - 1 in s.done && lo <= t < hi
    ensures t in s.done
    decreases hi - t
  {
    if t < hi - 1 {
      assert NeededBefore(l.tasks, t, hi);
      var u :| t < u < hi && u < |l.tasks| && t in l.tasks[u].needs;
      SinkDoneMeansBlockDone(l, s, lo, hi, u);
      assert u in s.started;
    }
  }

  /** No task of a partition starts before its source task. */
  lemma {:induction false} BlockStartsWithSource(l: Launch, s: RunState, lo: nat, hi: nat, t: nat)
    requires RunInv(l, s) && l.base <= lo && IsBlock(l.tasks, lo, hi) && lo <= t < hi && t in s.started
    ensures lo in s.started
    decreases t
  {
    if t > lo {
      assert WaitsWithin(l.tasks[t], lo, lo, t);
      var h := l.tasks[t].needs[0];
      assert h in l.tasks[t].needs && h in s.done;
      BlockStartsWithSource(l, s, lo, hi, h);
    }
  }

  /** Some copy into the partition's slot, kernel on it or copy out of it has started. The source and sink tasks touch no slot. */
  ghost predicate Started<N, M>(p: Plan<N, M>, s: RunState, i: nat)
    requires i + 1 < |p.los|
  {
    exists t :: p.los[i] < t && t + 1 < p.los[i + 1] && t in s.started
  }

  ghost predicate AllDone<N, M>(p: Plan<N, M>, s: RunState, i: nat)
    requires i + 1 < |p.los|
  {
    forall t :: p.los[i] < t && t + 1 < p.los[i + 1] ==> t in s.done
  }

  /** Between the start of the first copy in and the end of the last copy out: the partition occupies its slot. */
  ghost predicate InFlight<N, M>(p: Plan<N, M>, s: RunState, i: nat)
    requires i + 1 < |p.los|
  {
    Started(p, s, i) && !AllDone(p, s, i)
  }

  lemma PredListed<N, M>(p: Plan<N, M>, a: nat, b: nat) returns (j: nat)
    requires IsPlan(p) && a < |p.g.nodes| && b < |p.g.nodes| && Edge(p.g, p.g.nodes[a], p.g.nodes[b])
    ensures p.g.nodes[b] in p.preds && j < |p.preds[p.g.nodes[b]]| && p.preds[p.g.nodes[b]][j] == p.g.nodes[a]
    ensures p.g.nodes[a] in p.g.nodes && IndexOf(p.g.nodes, p.g.nodes[a]) == a
  {
    IndexOfUnique(p.g.nodes, a);
    assert p.g.nodes[b] in p.g.nodes;
    var ps := p.preds[p.g.nodes[b]];
    assert p.g.nodes[a] in Elems(ps);
    j :| 0 <= j < |ps| && ps[j] == p.g.nodes[a];
  }

  /** What the source task waits for on behalf of its `j`-th predecessor, if that was created before. */
  lemma NeedOfPred<N, M>(p: Plan<N, M>, i: nat, j: nat)
    requires IsPlan(p) && i < |p.g.nodes| && p.g.nodes[i] in p.preds && j < |p.preds[p.g.nodes[i]]|
    ensures |p.los| == |p.g.nodes| + 1 == |p.recorded| + 1 && p.los[i] < |p.launch.tasks| && j < |p.launch.tasks[p.los[i]].needs|
    ensures var pred, need := p.preds[p.g.nodes[i]][j], p.launch.tasks[p.los[i]].needs[j];
            && pred in p.g.nodes && Edge(p.g, pred, p.g.nodes[i])
            && var k := IndexOf(p.g.nodes, pred);
               if k < i then need + 1 == p.los[k + 1] && need == p.recorded[k] else need < p.launch.base
  {
    hide *;
    PlanFacts(p, i);
    PlanLists(p);
    var ps, needs := p.preds[p.g.nodes[i]], p.launch.tasks[p.los[i]].needs;
    ListedIsEdge(p.g, p.preds, p.g.nodes[i], j);
    NeedOf(p.g.nodes, ps, needs, p.launch.base, p.los, i, j);
    PlanFacts(p, IndexOf(p.g.nodes, ps[j]));
  }

  lemma PlanLists<N, M>(p: Plan<N, M>)
    requires IsPlan(p)
    ensures Lists(p.g, p.preds)
  {
    hide Lists, CreatedSoFar;
  }

  lemma ListedIsEdge<N>(g: Graph<N>, preds: map<N, seq<N>>, n: N, j: nat)
    requires Lists(g, preds) && n in g.nodes && n in preds && j < |preds[n]|
    ensures Edge(g, preds[n][j], n)
  {
    hide ValidGraph;
    assert preds[n][j] in Elems(preds[n]);
  }

  lemma NeedOf<N>(nodes: seq<N>, ps: seq<N>, needs: seq<nat>, base: nat, los: seq<nat>, i: nat, j: nat)
    requires SrcNeeds(nodes, ps, needs, base, los, i) && j < |ps| && |los| == |nodes| + 1
    ensures j < |needs| && ps[j] in nodes
    ensures var k := IndexOf(nodes, ps[j]); if k < i then needs[j] + 1 == los[k + 1] else needs[j] < base
  {
    hide IndexOf;
    assert ps[j] in ps;
  }

  lemma EdgeIsNeeded<N, M>(p: Plan<N, M>, a: nat, b: nat)
    requires IsPlan(p) && a < b < |p.g.nodes| && Edge(p.g, p.g.nodes[a], p.g.nodes[b])
    ensures |p.los| == |p.g.nodes| + 1 && 0 < p.los[a + 1] && p.los[b] < |p.launch.tasks|
    ensures p.los[a + 1] - 1 in p.launch.tasks[p.los[b]].needs
  {
    hide *;
    var j := PredListed(p, a, b);
    NeedOfPred(p, b, j);
    PlanFacts(p, a);
    assert p.launch.tasks[p.los[b]].needs[j] + 1 == p.los[a + 1];
  }

  /** An edge to a partition created later is respected by every run. */
  lemma RespectedEdge<N, M>(p: Plan<N, M>, s: RunState, a: nat, b: nat)
    requires ValidPlan(p) && RunInv(p.launch, s)
    requires a < b < |p.g.nodes| && Edge(p.g, p.g.nodes[a], p.g.nodes[b])
    ensures |p.los| == |p.g.nodes| + 1 && (Started(p, s, b) ==> AllDone(p, s, a))
  {
    hide *;
    PartitionFacts(p, a);
    PartitionFacts(p, b);
    EdgeIsNeeded(p, a, b);
    if Started(p, s, b) {
      StartedMeansSource(p, s, b);
      NeedIsDone(p.launch, s, p.los[b], p.los[a + 1] - 1);
      SinkMeansAllDone(p, s, a);
    }
  }

  lemma NeedIsDone(l: Launch, s: RunState, t: nat, h: nat)
    requires RunInv(l, s) && t in s.started && l.base <= t < |l.tasks| && h in l.tasks[t].needs
    ensures h in s.done
  {
  }

  lemma StartedMeansSource<N, M>(p: Plan<N, M>, s: RunState, i: nat)
    requires i + 1 < |p.los| && Started(p, s, i)
    requires RunInv(p.launch, s) && p.launch.base <= p.los[i] && IsBlock(p.launch.tasks, p.los[i], p.los[i + 1])
    ensures p.los[i] in s.started
  {
    var t :| p.los[i] < t && t + 1 < p.los[i + 1] && t in s.started;
    hide *;
    BlockStartsWithSource(p.launch, s, p.los[i], p.los[i + 1], t);
  }

  lemma SinkMeansAllDone<N, M>(p: Plan<N, M>, s: RunState, i: nat)
    requires i + 1 < |p.los| && p.los[i + 1] > 0 && p.los[i + 1] - 1 in s.done
    requires RunInv(p.launch, s) && p.launch.base <= p.los[i] && IsBlock(p.launch.tasks, p.los[i], p.los[i + 1])
    ensures AllDone(p, s, i)
  {
    hide RunInv, IsBlock;
    forall t | p.los[i] < t && t + 1 < p.los[i + 1] ensures t in s.done {
      SinkDoneMeansBlockDone(p.launch, s, p.los[i], p.los[i + 1], t);
    }
  }

  // ---------------------------------------------------------------- users of one slot

  /** A plan for the graph `g0` after `n` slots have been handed out to all its partitions. */
  ghost predicate SlotPlan<N, M>(p: Plan<N, M>, g0: Graph<N>, n: nat) {
    && n > 0 && ValidGraph(g0) && Acyclic(g0) && ValidPlan(p) && p.g == SlotGraph(g0, n)
  }

  lemma SlotPlanFacts<N, M>(p: Plan<N, M>, g0: Graph<N>, n: nat)
    requires SlotPlan(p, g0, n)
    ensures ValidGraph(g0) && p.g.nodes == g0.nodes && NoDup(p.g.nodes) && NoDup(TopoOrder(g0)) && Elems(TopoOrder(g0)) == Elems(g0.nodes)
    ensures forall k :: 0 <= k < |TopoOrder(g0)| ==> TopoOrder(g0)[k] in p.g.nodes
    ensures n > 0 && ValidPlan(p) && p.g == SlotGraph(g0, n) && |p.los| == |p.g.nodes| + 1
  {
    SlotGraphMeans(g0, n);
    TopoOrderVisits(g0);
    TopoOrderCompleteIffAcyclic(g0);
    forall k | 0 <= k < |TopoOrder(g0)| ensures TopoOrder(g0)[k] in p.g.nodes {
      assert TopoOrder(g0)[k] in Elems(TopoOrder(g0));
    }
  }

  /** When the `k`-th partition to be given a slot was created. */
  ghost function CreatedAt<N>(nodes: seq<N>, order: seq<N>, k: nat): (i: nat)
    requires k < |order| && order[k] in nodes
    ensures i < |nodes| && nodes[i] == order[k]
  {
    IndexOf(nodes, order[k])
  }

  /** The `a`-th partition to be given a slot was created before the `b`-th. */
  ghost predicate CreatedBefore<N>(nodes: seq<N>, order: seq<N>, a: nat, b: nat) {
    a < |order| && b < |order| && order[a] in nodes && order[b] in nodes ==>
      CreatedAt(nodes, order, a) < CreatedAt(nodes, order, b)
  }

  /** Each user of a slot is created before the slot's next user. */
  ghost predicate SlotsInCreationOrder<N>(nodes: seq<N>, order: seq<N>, n: nat) {
    forall a: nat, b: nat :: b == a + n ==> CreatedBefore(nodes, order, a, b)
  }

  /** Nothing of the `b`-th slot user has started before everything of the `a`-th is complete. */
  ghost predicate UserWaits<N, M>(p: Plan<N, M>, order: seq<N>, s: RunState, a: nat, b: nat) {
    && a < |order| && b < |order| && order[a] in p.g.nodes && order[b] in p.g.nodes && |p.los| == |p.g.nodes| + 1
    && (Started(p, s, CreatedAt(p.g.nodes, order, b)) ==> AllDone(p, s, CreatedAt(p.g.nodes, order, a)))
  }

  lemma SlotEdge<N, M>(p: Plan<N, M>, g0: Graph<N>, n: nat, a: nat, b: nat)
    requires SlotPlan(p, g0, n) && b == a + n && b < |TopoOrder(g0)|
    ensures ValidPlan(p) && |p.los| == |p.g.nodes| + 1 && n > 0
    ensures TopoOrder(g0)[a] in p.g.nodes && TopoOrder(g0)[b] in p.g.nodes && TopoOrder(g0)[a] != TopoOrder(g0)[b]
    ensures Edge(p.g, TopoOrder(g0)[a], TopoOrder(g0)[b])
  {
    hide *;
    SlotPlanFacts(p, g0, n);
    NextUserEdge(g0, n, a, b);
    TwoPlaces(TopoOrder(g0), a, b);
  }

  lemma TwoPlaces<N>(s: seq<N>, a: nat, b: nat)
    requires NoDup(s) && a < b < |s|
    ensures s[a] != s[b]
  {
  }

  lemma EdgeWaits<N, M>(p: Plan<N, M>, order: seq<N>, s: RunState, a: nat, b: nat)
    requires ValidPlan(p) && RunInv(p.launch, s) && |p.los| == |p.g.nodes| + 1 && a < |order| && b < |order|
    requires order[a] in p.g.nodes && order[b] in p.g.nodes && Edge(p.g, order[a], order[b])
    requires CreatedBefore(p.g.nodes, order, a, b)
    ensures UserWaits(p, order, s, a, b)
  {
    hide ValidPlan, RunInv, Edge, Started, AllDone;
    RespectedEdge(p, s, CreatedAt(p.g.nodes, order, a), CreatedAt(p.g.nodes, order, b));
  }

  lemma UsersInOrder<N>(nodes: seq<N>, order: seq<N>, n: nat, a: nat)
    requires SlotsInCreationOrder(nodes, order, n)
    ensures CreatedBefore(nodes, order, a, a + n)
  {
    hide CreatedBefore;
  }

  lemma NextUserWaits<N, M>(p: Plan<N, M>, g0: Graph<N>, n: nat, s: RunState, a: nat)
    requires SlotPlan(p, g0, n) && RunInv(p.launch, s) && a + n < |TopoOrder(g0)|
    requires SlotsInCreationOrder(p.g.nodes, TopoOrder(g0), n)
    ensures UserWaits(p, TopoOrder(g0), s, a, a + n)
  {
    hide *;
    UsersInOrder(p.g.nodes, TopoOrder(g0), n, a);
    SlotEdge(p, g0, n, a, a + n);
    EdgeWaits(p, TopoOrder(g0), s, a, a + n);
  }

  lemma UserWaitsChain<N, M>(p: Plan<N, M>, g0: Graph<N>, n: nat, s: RunState, a: nat, b: nat, c: nat)
    requires SlotPlan(p, g0, n) && RunInv(p.launch, s)
    requires UserWaits(p, TopoOrder(g0), s, a, b) && UserWaits(p, TopoOrder(g0), s, b, c)
    ensures UserWaits(p, TopoOrder(g0), s, a, c)
  {
    hide *;
    SlotPlanFacts(p, g0, n);
    WaitsThrough(p, TopoOrder(g0), s, a, b, c);
  }

  lemma WaitsThrough<N, M>(p: Plan<N, M>, order: seq<N>, s: RunState, a: nat, b: nat, c: nat)
    requires ValidPlan(p) && RunInv(p.launch, s) && UserWaits(p, order, s, a, b) && UserWaits(p, order, s, b, c)
    ensures UserWaits(p, order, s, a, c)
  {
    hide ValidPlan, RunInv, CreatedAt, Started, AllDone;
    DoneHasStarted(p, s, CreatedAt(p.g.nodes, order, b));
  }

  lemma DoneHasStarted<N, M>(p: Plan<N, M>, s: RunState, i: nat)
    requires ValidPlan(p) && RunInv(p.launch, s) && i < |p.g.nodes| && |p.los| == |p.g.nodes| + 1
    ensures AllDone(p, s, i) ==> Started(p, s, i)
  {
    assert s.done <= s.started;
    hide ValidPlan, RunInv, IsBlock, SrcNeeds;
    PartitionFacts(p, i);
    if AllDone(p, s, i) { assert p.los[i] + 1 in s.done && p.los[i] + 1 in s.started; }
  }

  /** A slot's later user does not start until all copies and kernels of every earlier user are complete. */
  lemma {:induction false} SlotUsersInSequence<N, M>(p: Plan<N, M>, g0: Graph<N>, n: nat, s: RunState, a: nat, b: nat, m: nat)
    requires SlotPlan(p, g0, n) && RunInv(p.launch, s) && m > 0 && b == a + m * n && b < |TopoOrder(g0)|
    requires SlotsInCreationOrder(p.g.nodes, TopoOrder(g0), n)
    ensures UserWaits(p, TopoOrder(g0), s, a, b)
    decreases m
  {
    hide *;
    assert n > 0 by { SlotPlanFacts(p, g0, n); }
    if m == 1 {
      NextUserWaits(p, g0, n, s, a);
    } else {
      var c := b - n;
      OneLess(a, m, n);
      NextUserWaits(p, g0, n, s, c);
      SlotUsersInSequence(p, g0, n, s, a, c, m - 1);
      UserWaitsChain(p, g0, n, s, a, c, b);
    }
  }

  // ---------------------------------------------------------------- when the creation order is wrong

  /** Task `t` belongs to a partition created before the `i`-th and not downstream of the `j`-th. */
  ghost predicate BeforeAndApart<N, M>(p: Plan<N, M>, i: nat, j: nat, t: nat)
    requires |p.los| == |p.g.nodes| + 1 && i < |p.g.nodes| && j < |p.g.nodes|
  {
    exists x: nat :: x < i && Apart(p, j, x) && p.los[x] <= t < p.los[x + 1]
  }

  ghost predicate Apart<N, M>(p: Plan<N, M>, j: nat, x: nat)
    requires j < |p.g.nodes| && x < |p.g.nodes|
  {
    !Reaches(p.g, p.g.nodes[j], p.g.nodes[x])
  }

  /** The predecessors of `x` created before it are not downstream of `j`. */
  ghost predicate PredsApartFrom<N, M>(p: Plan<N, M>, j: nat, x: nat)
    requires j < |p.g.nodes| && x < |p.g.nodes|
  {
    forall y: nat :: y < x && Edge(p.g, p.g.nodes[y], p.g.nodes[x]) ==> Apart(p, j, y)
  }

  ghost function TasksBefore<N, M>(p: Plan<N, M>, i: nat, j: nat): set<nat>
    requires |p.los| == |p.g.nodes| + 1 && i < |p.g.nodes| && j < |p.g.nodes|
  {
    set t | t in Handles(p.launch.base, |p.launch.tasks|) && BeforeAndApart(p, i, j, t)
  }

  lemma ReachesFurther<N>(g: Graph<N>, a: N, b: N, c: N)
    requires ValidGraph(g) && Reaches(g, a, b) && Edge(g, b, c)
    ensures Reaches(g, a, c)
  {
    var k: nat :| Walk(g, a, b, k);
    WalkEnds(g, a, b, k);
    assert Walk(g, a, c, k + 1);
  }

  lemma NoEdgeBack<N>(g: Graph<N>, a: N, b: N)
    requires ValidGraph(g) && Acyclic(g) && Edge(g, a, b) && a in g.nodes && b in g.nodes
    ensures !Reaches(g, b, a)
  {
    if Reaches(g, b, a) {
      var k: nat :| Walk(g, b, a, k);
      assert Walk(g, b, b, k + 1);
    }
  }

  /** Each thing a source task needs is an old handle, or the sink task of a predecessor created earlier. */
  lemma SourceNeedOrigin<N, M>(p: Plan<N, M>, x: nat, h: nat) returns (y: nat)
    requires IsPlan(p) && x < |p.g.nodes| && |p.los| == |p.g.nodes| + 1
    requires p.los[x] < |p.launch.tasks| && h in p.launch.tasks[p.los[x]].needs
    ensures h < p.launch.base || (y < x && Edge(p.g, p.g.nodes[y], p.g.nodes[x]) && h + 1 == p.los[y + 1])
  {
    hide *;
    var j := NeedListed(p, x, h);
    NeedOfPred(p, x, j);
    y := IndexOf(p.g.nodes, p.preds[p.g.nodes[x]][j]);
  }

  lemma NeedListed<N, M>(p: Plan<N, M>, x: nat, h: nat) returns (j: nat)
    requires IsPlan(p) && x < |p.g.nodes| && |p.los| == |p.g.nodes| + 1
    requires p.los[x] < |p.launch.tasks| && h in p.launch.tasks[p.los[x]].needs
    ensures p.g.nodes[x] in p.preds && j < |p.launch.tasks[p.los[x]].needs| == |p.preds[p.g.nodes[x]]|
    ensures p.launch.tasks[p.los[x]].needs[j] == h
  {
    PlanFacts(p, x);
    hide IsPlan, PartitionTasks;
    var needs := p.launch.tasks[p.los[x]].needs;
    j :| 0 <= j < |needs| && needs[j] == h;
  }

  /** What a source task needs lies among the earlier partitions apart from `j`, if all its recorded predecessors do. */
  lemma SourceNeeds<N, M>(p: Plan<N, M>, i: nat, j: nat, x: nat, h: nat)
    requires ValidPlan(p) && i < |p.g.nodes| && j < |p.g.nodes| && x <= i && |p.los| == |p.g.nodes| + 1
    requires p.los[x] < |p.launch.tasks| && h in p.launch.tasks[p.los[x]].needs
    requires PredsApartFrom(p, j, x)
    ensures h < p.los[x] && (h < p.launch.base || h in TasksBefore(p, i, j))
  {
    hide *;
    PartitionFacts(p, x);
    var y := SourceNeedOrigin(p, x, h);
    if h >= p.launch.base {
      PartitionFacts(p, y);
      BlocksInOrder(p, y + 1, x);
      BlocksInOrder(p, x, |p.g.nodes|);
      EdgeApart(p, j, x, y);
      SinkBefore(p, i, j, y, h);
    }
  }

  lemma EdgeApart<N, M>(p: Plan<N, M>, j: nat, x: nat, y: nat)
    requires j < |p.g.nodes| && x < |p.g.nodes| && y < x && PredsApartFrom(p, j, x) && Edge(p.g, p.g.nodes[y], p.g.nodes[x])
    ensures Apart(p, j, y)
  {
    hide Edge, Apart;
  }

  lemma SinkBefore<N, M>(p: Plan<N, M>, i: nat, j: nat, y: nat, h: nat)
    requires |p.los| == |p.g.nodes| + 1 && i < |p.g.nodes| && j < |p.g.nodes| && y < i && Apart(p, j, y)
    requires p.los[y] <= h < p.los[y + 1] && p.launch.base <= h < |p.launch.tasks|
    ensures h in TasksBefore(p, i, j)
  {
    hide Apart;
    assert h in Handles(p.launch.base, |p.launch.tasks|);
    assert BeforeAndApart(p, i, j, h);
  }

  lemma InnerNeedsInBlock<N, M>(p: Plan<N, M>, x: nat, t: nat)
    requires ValidPlan(p) && x < |p.g.nodes| && |p.los| == |p.g.nodes| + 1 && p.los[x] < t < p.los[x + 1]
    ensures t < |p.launch.tasks| && p.launch.tasks[t].needs != []
    ensures forall h :: h in p.launch.tasks[t].needs ==> p.launch.base <= p.los[x] <= h < t
  {
    PartitionFacts(p, x);
    assert WaitsWithin(p.launch.tasks[t], p.los[x], p.los[x], t);
  }

  /** Every task belongs to one partition. */
  lemma OnePartition<N, M>(p: Plan<N, M>, x: nat, y: nat, h: nat)
    requires IsPlan(p) && x < |p.g.nodes| && y < |p.g.nodes| && |p.los| == |p.g.nodes| + 1
    requires p.los[x] <= h < p.los[x + 1] && p.los[y] <= h < p.los[y + 1]
    ensures x == y
  {
    hide *;
    if x < y { BlocksInOrder(p, x + 1, y); }
    if y < x { BlocksInOrder(p, y + 1, x); }
  }

  lemma SourcesMeans<N, M>(p: Plan<N, M>, h: nat)
    requires IsPlan(p)
    ensures |p.los| == |p.g.nodes| + 1
    ensures h in p.launch.sources <==> exists k: nat :: k < |p.g.nodes| && p.g.nodes[k] in SourceSet(p.g) && p.los[k] == h
  {
    hide Lists, CreatedSoFar, SourceSet;
    var nodes := p.g.nodes;
    if k: nat :| k < |nodes| && nodes[k] in SourceSet(p.g) && p.los[k] == h { assert p.los[..|nodes|][k] == h; }
  }

  lemma SourceIffNoPreds<N, M>(p: Plan<N, M>, x: nat)
    requires IsPlan(p) && x < |p.g.nodes|
    ensures p.g.nodes[x] in p.preds && (p.g.nodes[x] in SourceSet(p.g) <==> p.preds[p.g.nodes[x]] == [])
  {
    hide CreatedSoFar, HandlesAt;
    assert p.g.nodes[x] in p.g.nodes;
    EmptyElems(p.preds[p.g.nodes[x]]);
  }

  /** A partition whose source task needs nothing is activated by the host. */
  lemma FreeSourceIsActivated<N, M>(p: Plan<N, M>, x: nat)
    requires IsPlan(p) && x < |p.g.nodes| && |p.los| == |p.g.nodes| + 1 && p.los[x] < |p.launch.tasks|
    ensures p.launch.tasks[p.los[x]].needs == [] <==> p.los[x] in p.launch.sources
  {
    PlanFacts(p, x);
    hide IsPlan, PartitionTasks, SourceSet, Edge;
    SourceIffNoPreds(p, x);
    SourcesMeans(p, p.los[x]);
    if p.los[x] in p.launch.sources {
      var k: nat :| k < |p.g.nodes| && p.g.nodes[k] in SourceSet(p.g) && p.los[k] == p.los[x];
      PlanFacts(p, k);
      OnePartition(p, x, k, p.los[x]);
    }
  }

  lemma StillApart<N, M>(p: Plan<N, M>, j: nat, x: nat)
    requires ValidGraph(p.g) && j < |p.g.nodes| && x < |p.g.nodes| && Apart(p, j, x)
    ensures PredsApartFrom(p, j, x)
  {
    hide ValidGraph, Edge, Reaches;
    forall y: nat | y < x && Edge(p.g, p.g.nodes[y], p.g.nodes[x]) ensures Apart(p, j, y) {
      if Reaches(p.g, p.g.nodes[j], p.g.nodes[y]) { ReachesFurther(p.g, p.g.nodes[j], p.g.nodes[y], p.g.nodes[x]); }
    }
  }

  lemma TasksBeforeNeeds<N, M>(p: Plan<N, M>, i: nat, j: nat, t: nat)
    requires ValidPlan(p) && i < |p.g.nodes| && j < |p.g.nodes| && |p.los| == |p.g.nodes| + 1 && t in TasksBefore(p, i, j)
    ensures p.launch.base <= t < |p.launch.tasks| && NeedsInside(p.launch, TasksBefore(p, i, j), t)
    ensures p.launch.tasks[t].needs == [] ==> t in p.launch.sources
  {
    var x: nat :| x < i && Apart(p, j, x) && p.los[x] <= t < p.los[x + 1];
    assert ValidGraph(p.g);
    hide ValidPlan, IsPlan, ValidGraph, Apart, PredsApartFrom, SrcNeeds, IsBlock;
    PartitionFacts(p, x);
    if t == p.los[x] {
      StillApart(p, j, x);
      forall h | h in p.launch.tasks[t].needs ensures h < t && (h < p.launch.base || h in TasksBefore(p, i, j)) {
        SourceNeeds(p, i, j, x, h);
      }
      FreeSourceIsActivated(p, x);
    } else {
      InnerNeedsInBlock(p, x, t);
      forall h | h in p.launch.tasks[t].needs ensures h < t && h in TasksBefore(p, i, j) {
        assert h in Handles(p.launch.base, |p.launch.tasks|);
        assert BeforeAndApart(p, i, j, h);
      }
    }
  }

  lemma TasksBeforeClosed<N, M>(p: Plan<N, M>, i: nat, j: nat)
    requires ValidPlan(p) && i < |p.g.nodes| && j < |p.g.nodes| && |p.los| == |p.g.nodes| + 1
    ensures Closed(p.launch, TasksBefore(p, i, j))
  {
    var d := TasksBefore(p, i, j);
    hide ValidPlan, TasksBefore, NeedsInside;
    forall t | t in d
      ensures p.launch.base <= t < |p.launch.tasks| && NeedsInside(p.launch, d, t)
      ensures p.launch.tasks[t].needs == [] ==> t in p.launch.sources
    {
      TasksBeforeNeeds(p, i, j, t);
    }
  }

  lemma SourceCanStart<N, M>(p: Plan<N, M>, i: nat, j: nat, x: nat, s: RunState)
    requires ValidPlan(p) && i < |p.g.nodes| && j < |p.g.nodes| && x <= i && |p.los| == |p.g.nodes| + 1
    requires PredsApartFrom(p, j, x)
    requires p.los[x] !in s.started && s.activated == ActivatedBy(p.launch, |p.launch.sources|)
    requires Handles(0, p.launch.base) + TasksBefore(p, i, j) <= s.done
    ensures CanStart(p.launch, s, p.los[x])
  {
    PartitionFacts(p, x);
    hide ValidPlan, IsPlan, TasksBefore, SrcNeeds, IsBlock, PredsApartFrom;
    FreeSourceIsActivated(p, x);
    assert p.launch.sources[..|p.launch.sources|] == p.launch.sources;
    forall h | h in p.launch.tasks[p.los[x]].needs ensures h in s.done {
      SourceNeeds(p, i, j, x, h);
      if h < p.launch.base { assert h in Handles(0, p.launch.base); }
    }
  }

  lemma PartitionBefore<N, M>(p: Plan<N, M>, i: nat, j: nat, t: nat) returns (y: nat)
    requires i < |p.g.nodes| && j < |p.g.nodes| && |p.los| == |p.g.nodes| + 1 && t in TasksBefore(p, i, j)
    ensures y < i && Apart(p, j, y) && p.los[y] <= t < p.los[y + 1]
  {
    y :| y < i && Apart(p, j, y) && p.los[y] <= t < p.los[y + 1];
  }

  lemma NotBefore<N, M>(p: Plan<N, M>, i: nat, j: nat, x: nat, t: nat)
    requires ValidPlan(p) && i < |p.g.nodes| && j < |p.g.nodes| && x < |p.g.nodes| && |p.los| == |p.g.nodes| + 1
    requires x >= i || !Apart(p, j, x)
    requires p.los[x] <= t < p.los[x + 1]
    ensures t !in TasksBefore(p, i, j) && p.launch.base <= t
  {
    hide *;
    PartitionFacts(p, x);
    PlanIsPlan(p);
    if t in TasksBefore(p, i, j) {
      var y := PartitionBefore(p, i, j, t);
      OnePartition(p, x, y, t);
    }
  }

  lemma PredsApart<N, M>(p: Plan<N, M>, i: nat, j: nat)
    requires ValidPlan(p) && Acyclic(p.g) && j < i < |p.g.nodes| && Edge(p.g, p.g.nodes[i], p.g.nodes[j])
    ensures !Apart(p, j, j)
    ensures PredsApartFrom(p, j, i) && PredsApartFrom(p, j, j)
  {
    var g := p.g;
    assert g.nodes[i] in g.nodes && g.nodes[j] in g.nodes;
    NoEdgeBack(g, g.nodes[i], g.nodes[j]);
    assert Walk(g, g.nodes[j], g.nodes[j], 0);
    forall y: nat | y < i && Edge(g, g.nodes[y], g.nodes[i]) ensures Apart(p, j, y) {
      if Reaches(g, g.nodes[j], g.nodes[y]) { ReachesFurther(g, g.nodes[j], g.nodes[y], g.nodes[i]); }
    }
    forall y: nat | y < j && Edge(g, g.nodes[y], g.nodes[j]) ensures Apart(p, j, y) {
      NoEdgeBack(g, g.nodes[y], g.nodes[j]);
    }
  }

  lemma StartOne(l: Launch, run: seq<RunState>, t: nat) returns (longer: seq<RunState>)
    requires IsRun(l, run) && CanStart(l, run[|run| - 1], t)
    ensures IsRun(l, longer) && |longer| > 0
    ensures var s := run[|run| - 1]; longer[|longer| - 1] == s.(started := s.started + {t})
  {
    var s := run[|run| - 1];
    var s' := s.(started := s.started + {t});
    assert NextBy(l, s, s', Start(t));
    longer := ExtendRun(l, run, s');
  }

  /** The first copy in can start once the partition's source task is complete. */
  lemma FirstCopyCanStart<N, M>(p: Plan<N, M>, s: RunState, x: nat)
    requires ValidPlan(p) && x < |p.g.nodes| && |p.los| == |p.g.nodes| + 1 && p.los[x] in s.done && p.los[x] + 1 !in s.started
    ensures CanStart(p.launch, s, p.los[x] + 1)
  {
    PlanFacts(p, x);
    PartitionFacts(p, x);
    assert p.g.nodes[x] in p.g.nodes;
    hide IsPlan, SrcNeeds, IsBlock, InnerStage, TopoOrder, Lists, Acyclic;
    assert p.launch.tasks[p.los[x] + 1] == Task([p.los[x]]);
  }

  lemma FirstCopyInFlight<N, M>(p: Plan<N, M>, s: RunState, i: nat)
    requires i + 1 < |p.los| && p.los[i] + 2 < p.los[i + 1] && p.los[i] + 1 in s.started && p.los[i] + 1 !in s.done
    ensures InFlight(p, s, i)
  {
  }

  /** Everything upstream of both partitions can be complete, and nothing of either. */
  lemma UpstreamDone<N, M>(p: Plan<N, M>, i: nat, j: nat) returns (run: seq<RunState>)
    requires ValidPlan(p) && Acyclic(p.g) && j < i < |p.g.nodes| && Edge(p.g, p.g.nodes[i], p.g.nodes[j])
    ensures IsRun(p.launch, run) && |run| > 0 && |p.los| == |p.g.nodes| + 1
    ensures var s := run[|run| - 1];
            && s.activated == ActivatedBy(p.launch, |p.launch.sources|)
            && s.started == s.done == Handles(0, p.launch.base) + TasksBefore(p, i, j)
            && p.los[i] !in s.done && p.los[j] !in s.done && p.los[i] + 1 !in s.done && p.los[j] + 1 !in s.done
  {
    hide *;
    PartitionFacts(p, i);
    PartitionFacts(p, j);
    PredsApart(p, i, j);
    var l, d := p.launch, TasksBefore(p, i, j);
    TasksBeforeClosed(p, i, j);
    NotBefore(p, i, j, i, p.los[i]);
    NotBefore(p, i, j, i, p.los[i] + 1);
    NotBefore(p, i, j, j, p.los[j]);
    NotBefore(p, i, j, j, p.los[j] + 1);
    run := RunClosed(l, d, |l.tasks|);
    DoneBelowAll(l, d);
  }

  /** Both partitions' source tasks can be complete, and nothing else of either. */
  lemma BothReached<N, M>(p: Plan<N, M>, i: nat, j: nat) returns (run: seq<RunState>)
    requires ValidPlan(p) && Acyclic(p.g) && j < i < |p.g.nodes| && Edge(p.g, p.g.nodes[i], p.g.nodes[j])
    ensures IsRun(p.launch, run) && |run| > 0 && |p.los| == |p.g.nodes| + 1
    ensures var s := run[|run| - 1];
            && p.los[i] in s.done && p.los[j] in s.done && s.started == s.done
            && p.los[i] + 1 !in s.done && p.los[j] + 1 !in s.done
  {
    hide *;
    run := UpstreamDone(p, i, j);
    PartitionFacts(p, i);
    PartitionFacts(p, j);
    BlocksInOrder(p, j + 1, i);
    PredsApart(p, i, j);
    SourceCanStart(p, i, j, i, run[|run| - 1]);
    run := RunOne(p.launch, run, p.los[i]);
    SourceCanStart(p, i, j, j, run[|run| - 1]);
    run := RunOne(p.launch, run, p.los[j]);
  }

  /** If the target of an edge was created first, some run copies into both partitions' slots at once. */
  lemma WrongOrderOverlaps<N, M>(p: Plan<N, M>, i: nat, j: nat) returns (run: seq<RunState>)
    requires ValidPlan(p) && Acyclic(p.g) && j < i < |p.g.nodes| && Edge(p.g, p.g.nodes[i], p.g.nodes[j])
    ensures IsRun(p.launch, run) && |run| > 0 && |p.los| == |p.g.nodes| + 1
    ensures InFlight(p, run[|run| - 1], i) && InFlight(p, run[|run| - 1], j)
  {
    hide *;
    PartitionFacts(p, i);
    PartitionFacts(p, j);
    BlocksInOrder(p, j + 1, i);
    run := BothReached(p, i, j);
    FirstCopyCanStart(p, run[|run| - 1], i);
    run := StartOne(p.launch, run, p.los[i] + 1);
    FirstCopyCanStart(p, run[|run| - 1], j);
    run := StartOne(p.launch, run, p.los[j] + 1);
    FirstCopyInFlight(p, run[|run| - 1], i);
    FirstCopyInFlight(p, run[|run| - 1], j);
  }

  // ---------------------------------------------------------------- the main results

  /** The `a`-th partition to be given a slot occupies it. */
  ghost predicate Occupies<N, M>(p: Plan<N, M>, order: seq<N>, s: RunState, a: nat) {
    && a < |order| && order[a] in p.g.nodes && |p.los| == |p.g.nodes| + 1
    && InFlight(p, s, CreatedAt(p.g.nodes, order, a))
  }

  /** In no run do two users of one slot ever overlap. */
  ghost predicate SlotsExclusive<N, M>(p: Plan<N, M>, order: seq<N>, n: nat)
    requires n > 0
  {
    forall run, i: nat, a: nat, b: nat ::
      IsRun(p.launch, run) && i < |run| && a < b && Mod(a, n) == Mod(b, n) ==>
        !(Occupies(p, order, run[i], a) && Occupies(p, order, run[i], b))
  }

  lemma SameSlotExcludes<N, M>(p: Plan<N, M>, g0: Graph<N>, n: nat, s: RunState, a: nat, b: nat)
    requires n > 0 && SlotPlan(p, g0, n) && RunInv(p.launch, s) && a < b && Mod(a, n) == Mod(b, n)
    requires SlotsInCreationOrder(p.g.nodes, TopoOrder(g0), n)
    ensures !(Occupies(p, TopoOrder(g0), s, a) && Occupies(p, TopoOrder(g0), s, b))
  {
    hide SlotPlan, RunInv, TopoOrder, SlotsInCreationOrder, Started, AllDone, Mod;
    if b < |TopoOrder(g0)| {
      var m := ModEqual(a, b, n);
      SlotUsersInSequence(p, g0, n, s, a, b, m);
    }
  }

  lemma CreationOrderExcludes<N, M>(p: Plan<N, M>, g0: Graph<N>, n: nat)
    requires n > 0 && SlotPlan(p, g0, n) && SlotsInCreationOrder(p.g.nodes, TopoOrder(g0), n)
    ensures SlotsExclusive(p, TopoOrder(g0), n)
  {
    assert p.launch.base <= |p.launch.tasks|;
    hide SlotPlan, TopoOrder, IsRun, Occupies, RunInv, Mod, SlotsInCreationOrder;
    forall run, i: nat, a: nat, b: nat | IsRun(p.launch, run) && i < |run| && a < b && Mod(a, n) == Mod(b, n)
      ensures !(Occupies(p, TopoOrder(g0), run[i], a) && Occupies(p, TopoOrder(g0), run[i], b))
    {
      RunKeepsInv(p.launch, run, i);
      SameSlotExcludes(p, g0, n, run[i], a, b);
    }
  }

  /** Users of a slot never overlap, in any run, if and only if each was created before the slot's next user. */
  lemma SlotsExclusiveIff<N, M>(p: Plan<N, M>, g0: Graph<N>, n: nat)
    requires n > 0 && SlotPlan(p, g0, n)
    ensures SlotsExclusive(p, TopoOrder(g0), n) <==> SlotsInCreationOrder(p.g.nodes, TopoOrder(g0), n)
  {
    hide SlotPlan, TopoOrder, SlotsExclusive, CreatedBefore;
    if SlotsInCreationOrder(p.g.nodes, TopoOrder(g0), n) {
      CreationOrderExcludes(p, g0, n);
    } else {
      var a: nat, b: nat :| b == a + n && !CreatedBefore(p.g.nodes, TopoOrder(g0), a, b);
      SlotOverlap(p, g0, n, a);
    }
  }

  lemma OverlapShown<N, M>(p: Plan<N, M>, order: seq<N>, n: nat, run: seq<RunState>, a: nat)
    requires n > 0 && IsRun(p.launch, run) && |run| > 0
    requires Occupies(p, order, run[|run| - 1], a) && Occupies(p, order, run[|run| - 1], a + n)
    ensures !SlotsExclusive(p, order, n)
  {
    hide Occupies, IsRun, Mod;
    ModShift(a, n);
  }

  lemma SlotOverlap<N, M>(p: Plan<N, M>, g0: Graph<N>, n: nat, a: nat)
    requires SlotPlan(p, g0, n) && n > 0 && !CreatedBefore(p.g.nodes, TopoOrder(g0), a, a + n)
    ensures !SlotsExclusive(p, TopoOrder(g0), n)
  {
    hide *;
    NotBeforeInRange(p.g.nodes, TopoOrder(g0), a, a + n);
    SlotPlanAcyclic(p, g0, n);
    SlotEdge(p, g0, n, a, a + n);
    var run := UsersOverlap(p, TopoOrder(g0), a, a + n);
    OverlapShown(p, TopoOrder(g0), n, run, a);
  }

  lemma NotBeforeInRange<N>(nodes: seq<N>, order: seq<N>, a: nat, b: nat)
    requires !CreatedBefore(nodes, order, a, b)
    ensures a < |order| && b < |order|
  {
  }

  lemma SlotPlanAcyclic<N, M>(p: Plan<N, M>, g0: Graph<N>, n: nat)
    requires SlotPlan(p, g0, n) && n > 0
    ensures Acyclic(p.g)
  {
    hide ValidPlan, ValidGraph, Acyclic, SlotGraph;
    SlotGraphAcyclicIff(g0, n);
  }

  /** Two users joined by an edge, the second created first: some run copies for both at once. */
  lemma UsersOverlap<N, M>(p: Plan<N, M>, order: seq<N>, a: nat, b: nat) returns (run: seq<RunState>)
    requires ValidPlan(p) && Acyclic(p.g) && |p.los| == |p.g.nodes| + 1 && a < |order| && b < |order| && order[a] != order[b]
    requires order[a] in p.g.nodes && order[b] in p.g.nodes && Edge(p.g, order[a], order[b])
    requires !CreatedBefore(p.g.nodes, order, a, b)
    ensures IsRun(p.launch, run) && |run| > 0
    ensures Occupies(p, order, run[|run| - 1], a) && Occupies(p, order, run[|run| - 1], b)
  {
    hide ValidPlan, Acyclic, Edge, IsRun, InFlight;
    run := WrongOrderOverlaps(p, CreatedAt(p.g.nodes, order, a), CreatedAt(p.g.nodes, order, b));
  }

  /** Distinct slots: a set of indices no two of which share a slot has at most as many members as there are slots. */
  lemma {:induction false} DistinctSlotsCard(s: set<nat>, n: nat)
    requires n > 0 && forall a, b :: a in s && b in s && Mod(a, n) == Mod(b, n) ==> a == b
    ensures |s| <= n
  {
    var slots := set a | a in s :: Mod(a, n);
    ImageCard(s, slots, n);
    SubsetCard(slots, Handles(0, n));
  }

  lemma {:induction false} ImageCard(s: set<nat>, slots: set<nat>, n: nat)
    requires n > 0 && forall a, b :: a in s && b in s && Mod(a, n) == Mod(b, n) ==> a == b
    requires slots == set a | a in s :: Mod(a, n)
    ensures |slots| == |s|
    decreases |s|
  {
    if a :| a in s {
      var rest := s - {a};
      ImageCard(rest, set b | b in rest :: Mod(b, n), n);
      assert slots == (set b | b in rest :: Mod(b, n)) + {Mod(a, n)};
    }
  }

  /** At most as many partitions are under way at once as there are device slots. */
  lemma AtMostNInFlight<N, M>(p: Plan<N, M>, g0: Graph<N>, n: nat, run: seq<RunState>, i: nat)
    requires SlotPlan(p, g0, n) && SlotsInCreationOrder(p.g.nodes, TopoOrder(g0), n)
    requires IsRun(p.launch, run) && i < |run|
    ensures |set a: nat | a < |TopoOrder(g0)| && Occupies(p, TopoOrder(g0), run[i], a)| <= n
  {
    var s := set a: nat | a < |TopoOrder(g0)| && Occupies(p, TopoOrder(g0), run[i], a);
    RunKeepsInv(p.launch, run, i);
    forall a, b | a in s && b in s && Mod(a, n) == Mod(b, n) ensures a == b {
      if a < b { SameSlotExcludes(p, g0, n, run[i], a, b); }
      if b < a { SameSlotExcludes(p, g0, n, run[i], b, a); }
    }
    DistinctSlotsCard(s, n);
  }

  // ---------------------------------------------------------------- insertion order against the edges

  /** Every partition is created after all its predecessors. */
  ghost predicate EdgesInCreationOrder<N, M>(p: Plan<N, M>) {
    forall a: nat, b: nat :: a < |p.g.nodes| && b < |p.g.nodes| && Edge(p.g, p.g.nodes[a], p.g.nodes[b]) ==> a < b
  }

  /** Every source task needs exactly the sink tasks of its partition's predecessors. */
  ghost predicate NeedsSinksOfPreds<N, M>(p: Plan<N, M>) {
    forall i: nat, j: nat :: i < |p.g.nodes| && p.g.nodes[i] in p.preds && j < |p.preds[p.g.nodes[i]]| ==>
      NeedsSinkOf(p, i, j)
  }

  ghost predicate NeedsSinkOf<N, M>(p: Plan<N, M>, i: nat, j: nat)
    requires i < |p.g.nodes| && p.g.nodes[i] in p.preds && j < |p.preds[p.g.nodes[i]]|
  {
    var pred := p.preds[p.g.nodes[i]][j];
    && i < |p.los| && p.los[i] < |p.launch.tasks| && j < |p.launch.tasks[p.los[i]].needs|
    && pred in p.g.nodes && IndexOf(p.g.nodes, pred) < |p.recorded|
    && p.launch.tasks[p.los[i]].needs[j] == p.recorded[IndexOf(p.g.nodes, pred)]
  }

  lemma PredEarlierIffNeeded<N, M>(p: Plan<N, M>, i: nat, j: nat)
    requires IsPlan(p) && i < |p.g.nodes| && p.g.nodes[i] in p.preds && j < |p.preds[p.g.nodes[i]]|
    ensures p.preds[p.g.nodes[i]][j] in p.g.nodes
    ensures Edge(p.g, p.preds[p.g.nodes[i]][j], p.g.nodes[i])
    ensures NeedsSinkOf(p, i, j) <==> IndexOf(p.g.nodes, p.preds[p.g.nodes[i]][j]) < i
  {
    NeedOfPred(p, i, j);
    PlanFacts(p, IndexOf(p.g.nodes, p.preds[p.g.nodes[i]][j]));
    hide IsPlan, Edge, SrcNeeds, PartitionTasks;
  }

  /** The handles read from the predecessors are their sink tasks if and only if insertion order follows the edges. */
  lemma NeedsSinksIffEdgesInOrder<N, M>(p: Plan<N, M>)
    requires IsPlan(p)
    ensures NeedsSinksOfPreds(p) <==> EdgesInCreationOrder(p)
  {
    hide IsPlan, NeedsSinkOf, Edge;
    forall i: nat, j: nat | i < |p.g.nodes| && p.g.nodes[i] in p.preds && j < |p.preds[p.g.nodes[i]]|
      ensures EdgesInCreationOrder(p) ==> NeedsSinkOf(p, i, j)
    {
      PredEarlierIffNeeded(p, i, j);
    }
    forall a: nat, b: nat | a < |p.g.nodes| && b < |p.g.nodes| && Edge(p.g, p.g.nodes[a], p.g.nodes[b])
      ensures NeedsSinksOfPreds(p) ==> a < b
    {
      var j := PredListed(p, a, b);
      PredEarlierIffNeeded(p, b, j);
    }
  }

  // ---------------------------------------------------------------- a launch fit to run

  /** The partition a task belongs to. */
  lemma {:induction false} BlockOf<N, M>(p: Plan<N, M>, t: nat, n: nat) returns (x: nat)
    requires ValidPlan(p) && n <= |p.g.nodes| && |p.los| == |p.g.nodes| + 1 && p.launch.base <= t < p.los[n]
    ensures x < n && p.los[x] <= t < p.los[x + 1]
    decreases n
  {
    if p.los[n - 1] <= t {
      x := n - 1;
    } else {
      x := BlockOf(p, t, n - 1);
    }
  }

  lemma PlanNeedsEarlier<N, M>(p: Plan<N, M>)
    requires ValidPlan(p) && EdgesInCreationOrder(p)
    ensures NeedsEarlier(p.launch)
  {
    var l := p.launch;
    forall t, h | l.base <= t < |l.tasks| && h in l.tasks[t].needs ensures l.base <= h < t {
      var x := BlockOf(p, t, |p.g.nodes|);
      if p.los[x] < t { InnerNeedsInBlock(p, x, t); } else { SourceNeedIsNew(p, x, h); }
    }
  }

  lemma SourceNeedIsSink<N, M>(p: Plan<N, M>, x: nat, h: nat) returns (y: nat)
    requires IsPlan(p) && EdgesInCreationOrder(p) && x < |p.g.nodes| && |p.los| == |p.g.nodes| + 1
    requires p.los[x] < |p.launch.tasks| && h in p.launch.tasks[p.los[x]].needs
    ensures y < x && h + 1 == p.los[y + 1]
  {
    hide IsPlan, Edge;
    var j := NeedListed(p, x, h);
    NeedOfPred(p, x, j);
    y := IndexOf(p.g.nodes, p.preds[p.g.nodes[x]][j]);
    assert Edge(p.g, p.g.nodes[y], p.g.nodes[x]);
  }

  lemma SourceNeedIsNew<N, M>(p: Plan<N, M>, x: nat, h: nat)
    requires IsPlan(p) && EdgesInCreationOrder(p) && x < |p.g.nodes| && |p.los| == |p.g.nodes| + 1
    requires p.los[x] < |p.launch.tasks| && h in p.launch.tasks[p.los[x]].needs
    ensures p.launch.base <= h < p.los[x]
  {
    hide *;
    var y := SourceNeedIsSink(p, x, h);
    PlanFacts(p, y);
    BlocksInOrder(p, y + 1, x);
  }

  lemma PlanSourcesExact<N, M>(p: Plan<N, M>)
    requires ValidPlan(p)
    ensures SourcesExact(p.launch)
  {
    var l, nodes := p.launch, p.g.nodes;
    forall h | h in l.sources ensures l.base <= h < |l.tasks| && exists k: nat :: k < |nodes| && p.los[k] == h {
      var k: nat :| k < |nodes| && nodes[k] in SourceSet(p.g) && p.los[..|nodes|][k] == h;
      PartitionFacts(p, k);
    }
    forall t | l.base <= t < |l.tasks| ensures l.tasks[t].needs == [] <==> t in l.sources {
      var x := BlockOf(p, t, |nodes|);
      if t == p.los[x] {
        FreeSourceIsActivated(p, x);
      } else {
        InnerNeedsInBlock(p, x, t);
        if t in l.sources {
          var k: nat :| k < |nodes| && p.los[k] == t;
          if k <= x { BlocksInOrder(p, k, x); } else { BlocksInOrder(p, x + 1, k); }
        }
      }
    }
  }

  /** Some successor of the partition was created after it. */
  ghost predicate HasLaterSuccessor<N, M>(p: Plan<N, M>, x: nat)
    requires x < |p.g.nodes|
  {
    exists y: nat :: x < y < |p.g.nodes| && Edge(p.g, p.g.nodes[x], p.g.nodes[y])
  }

  ghost predicate IsSinkNode<N, M>(p: Plan<N, M>, x: nat)
    requires x < |p.g.nodes|
  {
    p.g.nodes[x] in p.g.succs && p.g.succs[p.g.nodes[x]] == []
  }

  /** Every partition that is no sink has a successor created after it. */
  ghost predicate SuccessorsCreatedLater<N, M>(p: Plan<N, M>) {
    forall x: nat :: x < |p.g.nodes| && !IsSinkNode(p, x) ==> HasLaterSuccessor(p, x)
  }

  lemma SinksMeans<N, M>(p: Plan<N, M>, h: nat)
    requires IsPlan(p)
    ensures |p.recorded| == |p.g.nodes|
    ensures h in p.launch.sinks <==> exists k: nat :: k < |p.g.nodes| && IsSinkNode(p, k) && p.recorded[k] == h
  {
    hide ValidGraph, PartitionAt;
    var nodes := p.g.nodes;
    assert forall k: nat :: k < |nodes| ==> (nodes[k] in SinkSet(p.g) <==> IsSinkNode(p, k));
  }

  lemma EdgesInOrderMeansLater<N, M>(p: Plan<N, M>)
    requires IsPlan(p) && EdgesInCreationOrder(p)
    ensures SuccessorsCreatedLater(p)
  {
    var nodes := p.g.nodes;
    forall x: nat | x < |nodes| && !IsSinkNode(p, x) ensures HasLaterSuccessor(p, x) {
      var b := NonSinkHasSucc(p.g, nodes[x]);
      assert nodes[IndexOf(nodes, b)] == b;
    }
  }

  lemma SinkIsNeeded<N, M>(p: Plan<N, M>, x: nat)
    requires IsPlan(p) && SuccessorsCreatedLater(p) && x < |p.g.nodes| && |p.los| == |p.g.nodes| + 1 && p.los[x + 1] > 0
    ensures p.los[x + 1] - 1 in p.launch.sinks ||
            exists u :: p.los[x + 1] - 1 < u < |p.launch.tasks| && p.los[x + 1] - 1 in p.launch.tasks[u].needs
  {
    PlanFacts(p, x);
    SinksMeans(p, p.los[x + 1] - 1);
    hide IsPlan, Edge, IsSinkNode, SrcNeeds, PartitionTasks;
    if !IsSinkNode(p, x) {
      var y: nat :| x < y < |p.g.nodes| && Edge(p.g, p.g.nodes[x], p.g.nodes[y]);
      EdgeIsNeeded(p, x, y);
      BlocksInOrder(p, x + 1, y);
    }
  }

  lemma PlanIsPlan<N, M>(p: Plan<N, M>)
    requires ValidPlan(p)
    ensures IsPlan(p)
  {
    hide IsPlan, AllReady;
  }

  lemma SinksAreRecorded<N, M>(p: Plan<N, M>)
    requires ValidPlan(p)
    ensures |p.recorded| == |p.g.nodes| && forall h :: h in p.launch.sinks ==> p.launch.base <= h < |p.launch.tasks|
  {
    PlanIsPlan(p);
    SinksMeans(p, 0);
    hide ValidPlan, IsPlan, IsSinkNode;
    forall h | h in p.launch.sinks ensures p.launch.base <= h < |p.launch.tasks| {
      SinksMeans(p, h);
      var k: nat :| k < |p.g.nodes| && IsSinkNode(p, k) && p.recorded[k] == h;
      PartitionFacts(p, k);
    }
  }

  lemma PlanSinksCover<N, M>(p: Plan<N, M>)
    requires ValidPlan(p) && SuccessorsCreatedLater(p)
    ensures SinksCover(p.launch)
  {
    var l, nodes := p.launch, p.g.nodes;
    assert IsPlan(p) && l.base <= |l.tasks| && |p.los| == |nodes| + 1 && p.los[|nodes|] == |l.tasks|;
    hide ValidPlan, IsPlan, SuccessorsCreatedLater, SrcNeeds;
    SinksAreRecorded(p);
    forall t | l.base <= t < |l.tasks| && t !in l.sinks
      ensures exists u :: t < u < |l.tasks| && t in l.tasks[u].needs
    {
      var x := BlockOf(p, t, |nodes|);
      PartitionFacts(p, x);
      if t == p.los[x + 1] - 1 {
        SinkIsNeeded(p, x);
      } else {
        assert NeededBefore(l.tasks, t, p.los[x + 1]);
      }
    }
  }

  /** Created after all its predecessors, each partition finds everything it needs: every run finishes and returns. */
  lemma PlanLaunchValid<N, M>(p: Plan<N, M>)
    requires ValidPlan(p) && EdgesInCreationOrder(p)
    ensures ValidLaunch(p.launch)
  {
    PlanNeedsEarlier(p);
    PlanSourcesExact(p);
    EdgesInOrderMeansLater(p);
    PlanSinksCover(p);
  }

  /** What `ExecutePartitionDAG` creates is a plan for the graph it was given. */
  lemma CreatedPlan<M>(dag: PartGraph, parts: map<PartNode, Part<M>>, tasks: seq<Task>, base: nat, los: seq<nat>, recorded: seq<nat>,
                       sources: seq<nat>, sinks: seq<nat>)
    requires dag.Valid() && base <= |tasks| && |los| == |dag.allNodes| + 1
    requires CreatedSoFar(dag.allNodes, dag.PredLists(), parts, tasks, base, los, recorded)
    requires EndsSoFar(dag, los, recorded, |dag.allNodes|, sources, sinks)
    ensures IsPlan(Plan(dag.Abs(), dag.PredLists(), parts, Launch(tasks, base, sources, sinks), los, recorded))
  {
    DagLists(dag);
    assert recorded[..|dag.allNodes|] == recorded && dag.allNodes[..|dag.allNodes|] == dag.allNodes;
  }

  // ---------------------------------------------------------------- from a partition graph to its plan

  /** `preparePartitionDAG`: hand out the slots. What the partitions bring stays the same. */
  method Prepare(exec: OutOfCoreATMIexecutor, partDAG: PartGraph, ghost inner: set<TaskNode>)
    requires partDAG.Valid() && |exec.deviceDataSlots| > 0
    requires forall n :: n in partDAG.allNodes ==> Owned(n.data, inner)
    modifies partDAG.allNodes`depCounter, partDAG.allNodes`data
    modifies partDAG.allNodes`succs, partDAG.allNodes`preds, partDAG.allNodes`numPred
    ensures partDAG.Valid() && partDAG.Abs() == SlotGraph(old(partDAG.Abs()), |exec.deviceDataSlots|)
    ensures forall n :: n in partDAG.allNodes ==>
              Owned(n.data, inner) && PartOf(n.data) == old(PartOf(n.data)) && n.data.sinkTask == old(n.data.sinkTask)
  {
    hide *;
    ghost var nodes: seq<PartNode> := partDAG.allNodes;
    partDAG.NothingVisited();
    var order := exec.AssignDeviceDataSlots(partDAG);
    forall n | n in nodes ensures Owned(n.data, inner) && PartOf(n.data) == old(PartOf(n.data)) && n.data.sinkTask == old(n.data.sinkTask) {
      if n in order {
        var k :| 0 <= k < |order| && order[k] == n;
        SlotMattersNot(old(n.data), n.data, inner);
      }
    }
  }

  /** `executePartitionDAG`: create the tasks. */
  method CreatePlan(maker: TaskMaker, partDAG: PartGraph, ghost inner: set<TaskNode>) returns (ghost p: Plan<PartNode, TaskNode>)
    requires partDAG.Valid()
    requires forall n :: n in partDAG.allNodes ==> Owned(n.data, inner) && n.data.sinkTask < |maker.runtime.tasks|
    modifies maker.runtime, partDAG.allNodes`data, inner`depCounter, inner`data
    ensures IsPlan(p) && p.launch.tasks == maker.runtime.tasks && p.launch.base == |old(maker.runtime.tasks)|
    ensures p.g == old(partDAG.Abs())
    ensures forall n :: n in old(partDAG.allNodes) ==> n in p.parts && p.parts[n] == old(PartOf(n.data))
  {
    hide *;
    var sources, sinks;
    ghost var parts, los, recorded;
    sources, sinks, parts, los, recorded := maker.ExecutePartitionDAG(partDAG, inner);
    p := Plan(partDAG.Abs(), partDAG.PredLists(), parts, Launch(maker.runtime.tasks, |old(maker.runtime.tasks)|, sources, sinks), los, recorded);
    CreatedPlan(partDAG, parts, maker.runtime.tasks, |old(maker.runtime.tasks)|, los, recorded, sources, sinks);
  }

  /** `preparePartitionDAG` and `executePartitionDAG` on one graph. */
  method PrepareAndExecute(exec: OutOfCoreATMIexecutor, maker: TaskMaker, partDAG: PartGraph, ghost inner: set<TaskNode>)
    returns (ghost p: Plan<PartNode, TaskNode>)
    requires partDAG.Valid() && |exec.deviceDataSlots| > 0
    requires forall n :: n in partDAG.allNodes ==> Owned(n.data, inner) && n.data.sinkTask < |maker.runtime.tasks|
    modifies maker.runtime, partDAG.allNodes`depCounter, partDAG.allNodes`data
    modifies partDAG.allNodes`succs, partDAG.allNodes`preds, partDAG.allNodes`numPred
    modifies inner`depCounter, inner`data
    ensures IsPlan(p) && p.launch.tasks == maker.runtime.tasks && p.launch.base == |old(maker.runtime.tasks)|
    ensures p.g == SlotGraph(old(partDAG.Abs()), |exec.deviceDataSlots|)
    ensures forall n :: n in old(partDAG.allNodes) ==> n in p.parts && p.parts[n] == old(PartOf(n.data))
    ensures AllReady(p) && Acyclic(old(partDAG.Abs())) ==> SlotPlan(p, old(partDAG.Abs()), |exec.deviceDataSlots|)
  {
    hide *;
    partDAG.NothingVisited();
    ghost var g0 := partDAG.Abs();
    Prepare(exec, partDAG, inner);
    p := CreatePlan(maker, partDAG, inner);
    ReadyIsSlotPlan(p, g0, |exec.deviceDataSlots|);
  }

  lemma ReadyIsSlotPlan<N, M>(p: Plan<N, M>, g0: Graph<N>, n: nat)
    requires n > 0 && ValidGraph(g0) && IsPlan(p) && p.g == SlotGraph(g0, n)
    ensures AllReady(p) && Acyclic(g0) ==> SlotPlan(p, g0, n)
  {
    hide IsPlan, AllReady, ValidGraph, Acyclic, SlotGraph;
  }

  /** The slot a partition is given does not change what it brings. */
  lemma SlotMattersNot(before: Partition, after: Partition, inner: set<TaskNode>)
    requires after == before.(slot := after.slot) && Owned(before, inner)
    ensures Owned(after, inner) && PartOf(after) == PartOf(before)
  {
  }

  // ---------------------------------------------------------------- partitions that do not depend on each other

  ghost predicate NoEdges<N>(g: Graph<N>) {
    forall n :: n in g.succs ==> g.succs[n] == []
  }

  /** The last `t` members, last first. */
  ghost function Backwards<T>(s: seq<T>, t: nat): (r: seq<T>)
    requires t <= |s|
    ensures |r| == t && forall k :: 0 <= k < t ==> r[k] == s[|s| - 1 - k]
  {
    seq(t, k requires 0 <= k < t => s[|s| - 1 - k])
  }

  lemma {:induction false} SelectAll<T>(ds: seq<T>, s: set<T>)
    requires Elems(ds) <= s
    ensures Select(ds, s) == ds
  {
    if ds != [] {
      var last := |ds| - 1;
      assert ds == ds[..last] + [ds[last]] && ds[last] in Elems(ds);
      assert Elems(ds[..last]) <= Elems(ds);
      SelectAll(ds[..last], s);
    }
  }

  lemma AllReadyAtOnce<N>(g: Graph<N>)
    requires ValidGraph(g) && NoEdges(g)
    ensures ReadyOnes(g, [], g.nodes) == g.nodes
  {
    hide ValidGraph;
    forall n | n in g.nodes ensures Ready(g, [], n) { assert Preds(g, n) == {}; }
    SelectAll(g.nodes, ReadySet(g, []));
  }

  /** Unrelated nodes are visited last first. */
  lemma {:induction false} UnrelatedVisits<N>(g: Graph<N>, t: nat)
    requires ValidGraph(g) && NoEdges(g) && t <= |g.nodes|
    ensures AfterVisits(g, t) == Worklist(g.nodes[..|g.nodes| - t], Backwards(g.nodes, t))
  {
    if t == 0 {
      AllReadyAtOnce(g);
    } else {
      UnrelatedVisits(g, t - 1);
      UnrelatedNext(g, t - 1);
      hide ValidGraph, NoEdges, NextVisit;
    }
  }

  lemma UnrelatedNext<N>(g: Graph<N>, t: nat)
    requires ValidGraph(g) && NoEdges(g) && t < |g.nodes|
    ensures NextVisit(g, Worklist(g.nodes[..|g.nodes| - t], Backwards(g.nodes, t)))
         == Worklist(g.nodes[..|g.nodes| - (t + 1)], Backwards(g.nodes, t + 1))
  {
    var queue, done, p := g.nodes[..|g.nodes| - t], Backwards(g.nodes, t), g.nodes[|g.nodes| - t - 1];
    assert p in g.succs by { assert p in Elems(g.nodes); }
    assert g.succs[p] == [] && queue[|queue| - 1] == p;
    hide ValidGraph, NoEdges;
    assert ReadyOnes(g, done + [p], []) == [];
    assert queue[..|queue| - 1] + [] == g.nodes[..|g.nodes| - (t + 1)];
    assert done + [p] == Backwards(g.nodes, t + 1);
  }

  lemma UnrelatedOrder<N>(g: Graph<N>)
    requires ValidGraph(g) && NoEdges(g)
    ensures TopoOrder(g) == Backwards(g.nodes, |g.nodes|) && Acyclic(g)
  {
    UnrelatedVisits(g, |g.nodes|);
    TopoOrderCompleteIffAcyclic(g);
  }

  /** Slots are handed out last first but tasks are created first to last: with more unrelated partitions than slots,
      whatever the partitions are, two of them use one slot at once in some run. */
  lemma UnrelatedPartitionsOverlap<N, M>(p: Plan<N, M>, g0: Graph<N>, n: nat)
    requires n > 0 && SlotPlan(p, g0, n) && NoEdges(g0) && n < |g0.nodes|
    ensures !SlotsExclusive(p, TopoOrder(g0), n)
  {
    hide *;
    SlotPlanFacts(p, g0, n);
    UnrelatedOrder(g0);
    CreatedBackwards(p.g.nodes, n);
    SlotOverlap(p, g0, n, 0);
  }

  lemma CreatedBackwards<N>(nodes: seq<N>, n: nat)
    requires NoDup(nodes) && 0 < n < |nodes|
    ensures !CreatedBefore(nodes, Backwards(nodes, |nodes|), 0, n)
  {
    hide NoDup;
    IndexOfUnique(nodes, |nodes| - 1);
    IndexOfUnique(nodes, |nodes| - 1 - n);
  }

  // ---------------------------------------------------------------- two such partitions sharing one slot

  /** A partition with some data blocks and one task. */
  method SmallPartition(blocks: nat) returns (part: Partition, ghost inner: set<TaskNode>)
    ensures fresh(part.dag) && fresh(part.dag.allNodes) && fresh(inner)
    ensures part.sinkTask == 0 && Owned(part, inner) && AcyclicPart(PartOf(part))
    ensures ReadyPart(PartOf(part)) <==> blocks > 0
  {
    var dag := new Dag<TaskInstance>();
    var n := dag.AddNode(TaskInstance(0, 0));
    assert NoEdges(dag.Abs()) && dag.allNodes == [n];
    inner := {n};
    part := Partition(blocks, 0, dag, 0, 0);
    SmallPart(part);
  }

  lemma SmallPart(p: Partition)
    requires p.dag.Valid() && |p.dag.allNodes| == 1 && NoEdges(p.dag.Abs())
    ensures AcyclicPart(PartOf(p)) && (ReadyPart(PartOf(p)) <==> p.numBlocks > 0)
  {
    hide Acyclic, Lists;
    DagLists(p.dag);
    UnrelatedOrder(p.dag.Abs());
  }

  lemma OwnedByMore(p: Partition, inner: set<TaskNode>, more: set<TaskNode>)
    requires Owned(p, inner) && inner <= more
    ensures Owned(p, more)
  {
  }

  lemma NothingAdded(dag: PartGraph)
    requires dag.Valid() && dag.allNodes == []
    ensures dag.Abs() == Graph([], map[])
  {
  }

  lemma TwoAdded(dag: PartGraph, a: PartNode, b: PartNode)
    requires dag.Abs() == WithNode(WithNode(Graph([], map[]), a), b)
    ensures dag.allNodes == [a, b] && NoEdges(dag.Abs())
  {
  }

  /** Two such partitions that do not depend on each other. */
  method TwoUnrelated() returns (partDAG: PartGraph, ghost inner: set<TaskNode>)
    ensures fresh(partDAG) && fresh(partDAG.allNodes) && fresh(inner)
    ensures partDAG.Valid() && NoEdges(partDAG.Abs()) && |partDAG.allNodes| == 2
    ensures forall n :: n in partDAG.allNodes ==> n.data.sinkTask == 0 && Owned(n.data, inner) && ReadyPart(PartOf(n.data))
  {
    hide *;
    var p1, p2;
    ghost var i1, i2;
    p1, i1 := SmallPartition(1);
    p2, i2 := SmallPartition(1);
    inner := i1 + i2;
    OwnedByMore(p1, i1, inner);
    OwnedByMore(p2, i2, inner);
    partDAG := new Dag<Partition>();
    NothingAdded(partDAG);
    var a := partDAG.AddNode(p1);
    var b := partDAG.AddNode(p2);
    TwoAdded(partDAG, a, b);
  }

  /** With one slot, preparing and executing these leaves tasks of which some run copies for both partitions into the slot at once. */
  method SharedSlotOverlaps(exec: OutOfCoreATMIexecutor, maker: TaskMaker) returns (ghost p: Plan<PartNode, TaskNode>, ghost g0: Graph<PartNode>)
    requires |exec.deviceDataSlots| == 1 && |maker.runtime.tasks| > 0
    modifies maker.runtime
    ensures p.launch.tasks == maker.runtime.tasks && |g0.nodes| == 2 && ValidGraph(g0) && NoEdges(g0)
    ensures SlotPlan(p, g0, 1) && !SlotsExclusive(p, TopoOrder(g0), 1)
  {
    hide *;
    var partDAG;
    ghost var inner;
    partDAG, inner := TwoUnrelated();
    partDAG.NothingVisited();
    g0 := partDAG.Abs();
    UnrelatedOrder(g0);
    p := PrepareAndExecute(exec, maker, partDAG, inner);
    SlotGraphNodes(g0, 1);
    NowAllReady(p);
    UnrelatedPartitionsOverlap(p, g0, 1);
  }

  lemma SlotGraphNodes<N>(g: Graph<N>, n: nat)
    requires ValidGraph(g) && n > 0
    ensures SlotGraph(g, n).nodes == g.nodes
  {
    hide *;
    SlotGraphMeans(g, n);
  }

  lemma NowAllReady<N, M>(p: Plan<N, M>)
    requires forall n :: n in p.g.nodes ==> n in p.parts && ReadyPart(p.parts[n])
    ensures AllReady(p)
  {
    hide ReadyPart;
  }
}
