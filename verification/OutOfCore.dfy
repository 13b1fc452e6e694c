/** Out-of-core execution: a bounded set of device slots shared by the partitions of a graph (`OutOfCoreATMIexecutor`). */
module OutOfCore {
  import opened Arithmetic
  import opened Sequences
  import opened Graphs
  import opened TaskDag
  import opened AsyncRuntime
  import opened DagExecutor

  /** A partition: its host data blocks, the device slot it was given, its inner graph and its end-point tasks. */
  datatype Partition = Partition(numBlocks: nat, slot: nat, dag: TaskGraph, srcTask: nat, sinkTask: nat)

  type PartNode = Node<Partition>
  type PartGraph = Dag<Partition>

  datatype Option<T> = None | Some(value: T)

  // ---------------------------------------------------------------- edges between users of one slot

  /** The edges from each visited partition to the next user of its slot. */
  ghost function SlotEdges<N>(order: seq<N>, n: nat): seq<(N, N)> {
    if |order| <= n then [] else seq(|order| - n, k requires 0 <= k < |order| - n => (order[k], order[k + n]))
  }

  ghost function WithEdgeIfAbsent<N>(g: Graph<N>, a: N, b: N): Graph<N>
    requires a in g.succs
  {
    if Edge(g, a, b) then g else WithEdge(g, a, b)
  }

  ghost predicate EdgesAmong<N>(g: Graph<N>, es: seq<(N, N)>) {
    forall e :: e in es ==> e.0 in g.succs && e.1 in g.succs && e.0 != e.1
  }

  ghost function WithEdges<N>(g: Graph<N>, es: seq<(N, N)>): (h: Graph<N>)
    requires EdgesAmong(g, es)
    ensures h.nodes == g.nodes && h.succs.Keys == g.succs.Keys
  {
    if es == [] then g
    else
      var rest := es[..|es| - 1];
      var last := es[|es| - 1];
      WithEdgeIfAbsent(WithEdges(g, rest), last.0, last.1)
  }

  lemma {:induction false} WithEdgesMeans<N>(g: Graph<N>, es: seq<(N, N)>)
    requires ValidGraph(g) && EdgesAmong(g, es)
    ensures ValidGraph(WithEdges(g, es))
    ensures forall a, b :: Edge(WithEdges(g, es), a, b) <==> Edge(g, a, b) || (a, b) in es
  {
    if es != [] {
      var rest, last := es[..|es| - 1], es[|es| - 1];
      assert es == rest + [last];
      assert last in es;
      WithEdgesMeans(g, rest);
      var h := WithEdges(g, rest);
      assert last.0 in h.nodes && last.1 in h.nodes by { assert last.0 in Elems(h.nodes) && last.1 in Elems(h.nodes); }
      if !Edge(h, last.0, last.1) { WithEdgeEdges(h, last.0, last.1); }
      forall a, b ensures Edge(WithEdges(g, es), a, b) <==> Edge(g, a, b) || (a, b) in es {
        assert Edge(WithEdges(g, es), a, b) <==> Edge(h, a, b) || (a, b) == last;
        assert (a, b) in es <==> (a, b) in rest || (a, b) == last;
      }
    }
  }

  lemma {:induction false} MoreEdgesMoreWalks<N>(g: Graph<N>, h: Graph<N>, a: N, b: N, k: nat)
    requires h.nodes == g.nodes && forall x, y :: Edge(g, x, y) ==> Edge(h, x, y)
    requires Walk(g, a, b, k)
    ensures Walk(h, a, b, k)
  {
    if k > 0 {
      var m :| m in g.nodes && Walk(g, a, m, k - 1) && Edge(g, m, b);
      MoreEdgesMoreWalks(g, h, a, m, k - 1);
    }
  }

  lemma SlotEdgesAmong<N>(g: Graph<N>, n: nat)
    requires ValidGraph(g) && n > 0
    ensures EdgesAmong(g, SlotEdges(TopoOrder(g), n))
  {
    TopoOrderVisits(g);
    var order := TopoOrder(g);
    var es := SlotEdges(order, n);
    forall e | e in es ensures e.0 in g.succs && e.1 in g.succs && e.0 != e.1 {
      var k :| 0 <= k < |es| && es[k] == e;
      assert order[k] in Elems(order) && order[k + n] in Elems(order);
      assert order[k] in Elems(g.nodes) && order[k + n] in Elems(g.nodes);
    }
  }

  /** The partition graph once `n` slots have been handed out. */
  ghost function SlotGraph<N>(g: Graph<N>, n: nat): Graph<N>
    requires ValidGraph(g) && n > 0
  {
    SlotEdgesAmong(g, n);
    WithEdges(g, SlotEdges(TopoOrder(g), n))
  }

  /** `b` was given a slot right after `a` had it. */
  ghost predicate NextUsers<N>(order: seq<N>, n: nat, a: N, b: N) {
    exists k :: 0 <= k && k + n < |order| && order[k] == a && order[k + n] == b
  }

  /** All old edges stay, and exactly the edges between consecutive users of a slot are added. */
  lemma SlotGraphMeans<N>(g: Graph<N>, n: nat)
    requires ValidGraph(g) && n > 0
    ensures var h := SlotGraph(g, n);
            && ValidGraph(h) && h.nodes == g.nodes
            && forall a, b :: Edge(h, a, b) <==> Edge(g, a, b) || NextUsers(TopoOrder(g), n, a, b)
  {
    SlotEdgesAmong(g, n);
    var order := TopoOrder(g);
    var es := SlotEdges(order, n);
    WithEdgesMeans(g, es);
    forall a, b ensures (a, b) in es <==> NextUsers(order, n, a, b) { SlotEdgesMember(order, n, a, b); }
    hide ValidGraph, TopoOrder, SlotEdges, NextUsers, Edge;
  }

  lemma SlotEdgesMember<N>(order: seq<N>, n: nat, a: N, b: N)
    ensures (a, b) in SlotEdges(order, n) <==> NextUsers(order, n, a, b)
  {
    var es := SlotEdges(order, n);
    if k :| 0 <= k && k + n < |order| && order[k] == a && order[k + n] == b {
      assert es[k] == (a, b);
    }
  }

  lemma SlotPredIsEarlier<N>(g: Graph<N>, n: nat, i: nat, a: N)
    requires ValidGraph(g) && n > 0 && i < |TopoOrder(g)| && Edge(SlotGraph(g, n), a, TopoOrder(g)[i])
    ensures a in TopoOrder(g)[..i]
  {
    hide *;
    TopoOrderVisits(g);
    SlotGraphMeans(g, n);
    if Edge(g, a, TopoOrder(g)[i]) {
      OrderedEdge(g, TopoOrder(g), i, a);
    } else {
      NextUserEarlier(TopoOrder(g), n, i, a);
    }
  }

  lemma OrderedEdge<N>(g: Graph<N>, order: seq<N>, i: nat, a: N)
    requires Ordered(g, order) && i < |order| && Edge(g, a, order[i])
    ensures a in order[..i]
  {
    assert a in Preds(g, order[i]);
    assert a in Elems(order[..i]);
  }

  lemma NextUserEarlier<N>(order: seq<N>, n: nat, i: nat, a: N)
    requires NoDup(order) && n > 0 && i < |order| && NextUsers(order, n, a, order[i])
    ensures a in order[..i]
  {
    var k :| 0 <= k && k + n < |order| && order[k] == a && order[k + n] == order[i];
    assert k + n == i;
    assert order[..i][k] == a;
  }

  /** The order the slots were handed out in is a topological order of the extended graph. */
  lemma SlotOrderStillTopological<N>(g: Graph<N>, n: nat)
    requires ValidGraph(g) && n > 0
    ensures Ordered(SlotGraph(g, n), TopoOrder(g))
  {
    var h, order := SlotGraph(g, n), TopoOrder(g);
    hide SlotGraph, TopoOrder, ValidGraph;
    forall i, a | 0 <= i < |order| && a in Preds(h, order[i]) ensures a in Elems(order[..i]) {
      SlotPredIsEarlier(g, n, i, a);
    }
  }

  /** Handing out slots neither creates nor removes cycles. */
  lemma SlotGraphAcyclicIff<N>(g: Graph<N>, n: nat)
    requires ValidGraph(g) && n > 0
    ensures Acyclic(SlotGraph(g, n)) <==> Acyclic(g)
  {
    var h, order := SlotGraph(g, n), TopoOrder(g);
    SlotGraphMeans(g, n);
    if Acyclic(g) {
      TopoOrderVisits(g);
      TopoOrderCompleteIffAcyclic(g);
      SlotOrderStillTopological(g, n);
      forall x | x in h.nodes ensures x in order { assert x in Elems(g.nodes); assert x in Elems(order); }
      OrderedIsAcyclic(h, order);
    } else {
      var c :| c in g.nodes && OnCycle(g, c);
      var k: nat :| k > 0 && Walk(g, c, c, k);
      MoreEdgesMoreWalks(g, h, c, c, k);
      assert OnCycle(h, c);
    }
  }

  /** Two users of one slot are joined by a directed path, in the order they were given the slot. */
  lemma {:induction false} SharedSlotIsPath<N>(g: Graph<N>, n: nat, i: nat, j: nat, m: nat)
    requires ValidGraph(g) && n > 0 && j == i + m * n && j < |TopoOrder(g)|
    ensures i < |TopoOrder(g)| && Walk(SlotGraph(g, n), TopoOrder(g)[i], TopoOrder(g)[j], m)
    decreases m
  {
    hide *;
    if m == 0 {
      SlotUserIsNode(g, n, i);
    } else {
      OneLess(i, m, n);
      SharedSlotIsPath(g, n, i, j - n, m - 1);
      NextUserEdge(g, n, j - n, j);
      WalkOn(SlotGraph(g, n), TopoOrder(g)[i], TopoOrder(g)[j - n], TopoOrder(g)[j], m - 1);
    }
  }

  lemma SlotUserIsNode<N>(g: Graph<N>, n: nat, i: nat)
    requires ValidGraph(g) && n > 0 && i < |TopoOrder(g)|
    ensures TopoOrder(g)[i] in SlotGraph(g, n).nodes && Walk(SlotGraph(g, n), TopoOrder(g)[i], TopoOrder(g)[i], 0)
  {
    TopoOrderVisits(g);
    SlotGraphMeans(g, n);
    hide TopoOrder, SlotGraph, ValidGraph, Edge, Ordered, NoDup;
    assert TopoOrder(g)[i] in Elems(TopoOrder(g));
  }

  lemma NextUserEdge<N>(g: Graph<N>, n: nat, i: nat, j: nat)
    requires ValidGraph(g) && n > 0 && j == i + n && j < |TopoOrder(g)|
    ensures TopoOrder(g)[i] in SlotGraph(g, n).nodes && Edge(SlotGraph(g, n), TopoOrder(g)[i], TopoOrder(g)[j])
  {
    hide *;
    SlotUserIsNode(g, n, i);
    SlotGraphMeans(g, n);
    var h, order := SlotGraph(g, n), TopoOrder(g);
    AreNextUsers(order, n, i, j);
    assert Edge(h, order[i], order[j]);
  }

  lemma AreNextUsers<N>(order: seq<N>, n: nat, i: nat, j: nat)
    requires j == i + n && j < |order|
    ensures NextUsers(order, n, order[i], order[j])
  {
    assert order[i + n] == order[j];
  }

  lemma WalkOn<N>(g: Graph<N>, a: N, b: N, c: N, k: nat)
    requires Walk(g, a, b, k) && b in g.nodes && Edge(g, b, c)
    ensures Walk(g, a, c, k + 1)
  {
  }

  // ---------------------------------------------------------------- handing out slots

  /** The most recent user of every slot after `i` visits. */
  ghost predicate PrevUsers<N>(order: seq<N>, n: nat, i: nat, prev: seq<Option<N>>)
    requires n > 0 && i <= |order|
  {
    && |prev| == n
    && (forall s :: i <= s < n ==> prev[s] == None)
    && (forall k :: 0 <= k < i && i <= k + n ==> prev[Mod(k, n)] == Some(order[k]))
  }

  lemma NextUser<N>(order: seq<N>, n: nat, i: nat, prev: seq<Option<N>>)
    requires n > 0 && i < |order| && PrevUsers(order, n, i, prev)
    ensures prev[Mod(i, n)] == if i < n then None else Some(order[i - n])
    ensures PrevUsers(order, n, i + 1, prev[Mod(i, n) := Some(order[i])])
  {
    hide Mod;
    if i >= n { ModShift(i - n, n); }
    forall k | 0 <= k < i && i + 1 <= k + n ensures Mod(k, n) != Mod(i, n) { ModApart(k, i, n); }
  }

  class OutOfCoreATMIexecutor {
    const exec: ATMIdagExecutor
    var deviceDataSlots: seq<nat>   // one device buffer per slot

    constructor (e: ATMIdagExecutor)
      ensures exec == e && deviceDataSlots == []
    {
      exec := e;
      deviceDataSlots := [];
    }

    /** Hand the slots round robin to the partitions in traversal order, and serialise the users of each slot. */
    method AssignDeviceDataSlots(partDAG: PartGraph) returns (ghost order: seq<PartNode>)
      requires partDAG.Valid() && |deviceDataSlots| > 0
      modifies partDAG.allNodes`depCounter, partDAG.allNodes`data
      modifies partDAG.allNodes`succs, partDAG.allNodes`preds, partDAG.allNodes`numPred
      ensures partDAG.Valid() && partDAG.Abs() == SlotGraph(old(partDAG.Abs()), |deviceDataSlots|)
      ensures order == TopoOrder(old(partDAG.Abs()))
      ensures forall k :: 0 <= k < |order| ==>
                && order[k] in partDAG.allNodes
                && order[k].data == old(order[k].data).(slot := deviceDataSlots[k % |deviceDataSlots|])
      ensures forall n :: n in partDAG.allNodes && n !in order ==> n.data == old(n.data)
    {
      ghost var g := partDAG.Abs();
      var visits := partDAG.ForEachNodeTopoOrder();
      order := visits;
      hide Graphs.TopoOrder, Acyclic, ValidGraph, Dag.Valid, Dag.Abs, SlotEdges, NoDup;
      OrderMembers(partDAG, visits);
      assert forall k :: 0 <= k < |visits| ==> visits[k] in visits && visits[k] in partDAG.allNodes;
      var newEdges := VisitPartitions(visits);
      partDAG.CountersOnly();
      SlotEdgesAmong(g, |deviceDataSlots|);
      AddSlotEdges(partDAG, newEdges);
    }

    /** The traversal's function argument over the visited partitions in turn. */
    method VisitPartitions(order: seq<PartNode>) returns (newEdges: seq<(PartNode, PartNode)>)
      requires |deviceDataSlots| > 0 && NoDup(order)
      modifies set n: PartNode | n in order :: n`data
      ensures newEdges == SlotEdges(order, |deviceDataSlots|)
      ensures forall k :: 0 <= k < |order| ==>
                order[k].data == old(order[k].data).(slot := deviceDataSlots[k % |deviceDataSlots|])
    {
      var n := |deviceDataSlots|;
      var prevUser := seq(n, _ => None);
      newEdges := [];
      var index := 0;
      for i := 0 to |order|
        invariant index == Mod(i, n)
        invariant PrevUsers(order, n, i, prevUser)
        invariant newEdges == SlotEdges(order[..i], n)
        invariant forall k :: 0 <= k < i ==> order[k].data == old(order[k].data).(slot := deviceDataSlots[k % n])
        invariant forall k :: i <= k < |order| ==> order[k].data == old(order[k].data)
      {
        var partNode := order[i];
        assert partNode in order;
        NextUser(order, n, i, prevUser);
        ModStep(i, n);
        SlotEdgesPush(order, n, i);
        partNode.data := partNode.data.(slot := deviceDataSlots[index]);
        if prevUser[index].Some? {
          newEdges := newEdges + [(prevUser[index].value, partNode)];
        }
        prevUser := prevUser[index := Some(partNode)];
        index := (index + 1) % n;
      }
      assert order[..|order|] == order;
    }

    method AddSlotEdges(partDAG: PartGraph, newEdges: seq<(PartNode, PartNode)>)
      requires partDAG.Valid() && EdgesAmong(partDAG.Abs(), newEdges)
      modifies partDAG.allNodes`succs, partDAG.allNodes`preds, partDAG.allNodes`numPred
      ensures partDAG.Valid() && partDAG.Abs() == WithEdges(old(partDAG.Abs()), newEdges)
    {
      ghost var g := partDAG.Abs();
      NoEdgesYet(g, newEdges);
      hide *;
      for k := 0 to |newEdges|
        invariant EdgesAmong(g, newEdges[..k]) && partDAG.Valid() && partDAG.Abs() == WithEdges(g, newEdges[..k])
      {
        var e := newEdges[k];
        OneEdgeMore(g, newEdges, k);
        EndsAreNodes(partDAG, g, newEdges[..k], e);
        partDAG.AddEdgeIfAbsent(e.0, e.1);
      }
      assert newEdges[..|newEdges|] == newEdges;
    }
  }

  lemma NoEdgesYet<N>(g: Graph<N>, es: seq<(N, N)>)
    ensures EdgesAmong(g, es[..0]) && WithEdges(g, es[..0]) == g
  {
  }

  lemma OneEdgeMore<N>(g: Graph<N>, es: seq<(N, N)>, k: nat)
    requires EdgesAmong(g, es) && k < |es|
    ensures EdgesAmong(g, es[..k]) && EdgesAmong(g, es[..k + 1])
    ensures es[k].0 in g.succs && es[k].1 in g.succs && es[k].0 != es[k].1
    ensures es[k].0 in WithEdges(g, es[..k]).succs
    ensures WithEdges(g, es[..k + 1]) == WithEdgeIfAbsent(WithEdges(g, es[..k]), es[k].0, es[k].1)
    ensures var h := WithEdges(g, es[..k]);
            WithEdges(g, es[..k + 1]) == if Edge(h, es[k].0, es[k].1) then h else WithEdge(h, es[k].0, es[k].1)
  {
    assert es[k] in es && es[..k + 1][..k] == es[..k];
  }

  lemma EndsAreNodes(dag: PartGraph, g: Graph<PartNode>, es: seq<(PartNode, PartNode)>, e: (PartNode, PartNode))
    requires EdgesAmong(g, es) && dag.Valid() && dag.Abs() == WithEdges(g, es) && e.0 in g.succs && e.1 in g.succs
    ensures e.0 in dag.allNodes && e.1 in dag.allNodes
  {
    var h := dag.Abs();
    assert h.succs.Keys == g.succs.Keys;
    assert e.0 in h.succs && e.1 in h.succs;
    hide Dag.Valid, WithEdges;
  }

  lemma SlotEdgesPush<N>(order: seq<N>, n: nat, i: nat)
    requires n > 0 && i < |order|
    ensures SlotEdges(order[..i + 1], n) ==
            SlotEdges(order[..i], n) + if i < n then [] else [(order[i - n], order[i])]
  {
  }

  lemma OrderMembers(dag: PartGraph, order: seq<PartNode>)
    requires dag.Valid() && order == TopoOrder(dag.Abs())
    ensures NoDup(order)
    ensures forall n :: n in order ==> n in dag.allNodes
  {
    TopoOrderVisits(dag.Abs());
    forall n | n in order ensures n in dag.allNodes { assert n in Elems(order); }
  }
}
