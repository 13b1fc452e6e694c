/** The mutable task graph (`NodeInOut`, `DAGbase`) and its topological traversal. */
module TaskDag {
  import opened Sequences
  import opened Graphs

  class Node<D> {
    var data: D
    var numPred: nat      // number of incoming edges, bumped as edges are added
    var depCounter: nat   // shadow copy of numPred, consumed by one traversal
    var succs: seq<Node<D>>
    var preds: seq<Node<D>>

    constructor (d: D)
      ensures data == d && numPred == 0 && depCounter == 0 && succs == [] && preds == []
    {
      data := d;
      numPred, depCounter := 0, 0;
      succs, preds := [], [];
    }

    predicate IsSrc()
      reads this
    {
      numPred == 0
    }

    predicate IsSink()
      reads this
    {
      succs == []
    }
  }

  /** `g` with an isolated node added at the end. */
  ghost function WithNode<N>(g: Graph<N>, n: N): Graph<N> {
    Graph(g.nodes + [n], g.succs[n := []])
  }

  /** `g` with an edge added at the end of `a`'s successors. */
  ghost function WithEdge<N>(g: Graph<N>, a: N, b: N): Graph<N>
    requires a in g.succs
  {
    Graph(g.nodes, g.succs[a := g.succs[a] + [b]])
  }

  lemma WithNodePreds<N>(g: Graph<N>, n: N)
    requires ValidGraph(g) && n !in g.nodes
    ensures ValidGraph(WithNode(g, n))
    ensures Preds(WithNode(g, n), n) == {}
    ensures forall x :: x in g.nodes ==> Preds(WithNode(g, n), x) == Preds(g, x)
  {
    var h := WithNode(g, n);
    assert h.succs.Keys == Elems(h.nodes);
    forall x | x in g.nodes ensures Preds(h, x) == Preds(g, x) {
      forall y | y in g.succs ensures y in Preds(h, x) <==> y in Preds(g, x) {}
    }
  }

  lemma WithEdgeEdges<N>(g: Graph<N>, a: N, b: N)
    requires ValidGraph(g) && a in g.nodes && b in g.nodes && a != b && !Edge(g, a, b)
    ensures ValidGraph(WithEdge(g, a, b))
    ensures Preds(WithEdge(g, a, b), b) == Preds(g, b) + {a}
    ensures forall x :: x in g.nodes && x != b ==> Preds(WithEdge(g, a, b), x) == Preds(g, x)
  {
    var h := WithEdge(g, a, b);
    assert h.succs.Keys == g.succs.Keys;
    assert Preds(h, b) == Preds(g, b) + {a} by {
      forall x | x in g.succs ensures x in Preds(h, b) <==> x in Preds(g, b) + {a} {}
    }
    forall x | x in g.nodes && x != b ensures Preds(h, x) == Preds(g, x) {
      forall y | y in g.succs ensures y in Preds(h, x) <==> y in Preds(g, x) {}
    }
  }

  class Dag<D> {
    var allNodes: seq<Node<D>>

    ghost function Abs(): Graph<Node<D>>
      reads `allNodes, allNodes`succs
    {
      Graph(allNodes, map n | n in allNodes :: n.succs)
    }

    /** The successor lists form a graph; predecessor lists and counts mirror them. */
    ghost predicate Valid()
      reads `allNodes, allNodes`succs, allNodes`preds, allNodes`numPred
    {
      && ValidGraph(Abs())
      && (forall n :: n in allNodes ==> NoDup(n.preds) && Elems(n.preds) == Preds(Abs(), n) && n.numPred == |n.preds|)
    }

    ghost function PredLists(): map<Node<D>, seq<Node<D>>>
      reads `allNodes, allNodes`preds
    {
      map n | n in allNodes :: n.preds
    }

    ghost function Sources(): set<Node<D>>
      reads `allNodes, allNodes`numPred
    {
      set n | n in allNodes && n.numPred == 0
    }

    ghost function Sinks(): set<Node<D>>
      reads `allNodes, allNodes`succs
    {
      set n | n in allNodes && n.succs == []
    }

    constructor ()
      ensures Valid() && allNodes == []
    {
      allNodes := [];
    }

    method AddNode(d: D) returns (t: Node<D>)
      requires Valid()
      modifies this
      ensures Valid() && fresh(t) && t.data == d
      ensures Abs() == WithNode(old(Abs()), t)
    {
      ghost var g := Abs();
      t := new Node(d);
      WithNodePreds(g, t);
      allNodes := allNodes + [t];
      assert Abs() == WithNode(g, t);
    }

    method HasEdge(a: Node<D>, b: Node<D>) returns (r: bool)
      requires Valid() && a in allNodes && b in allNodes
      ensures r <==> Edge(Abs(), a, b)
    {
      r := b in a.succs && a in b.preds;
      assert a in b.preds <==> a in Elems(b.preds);
    }

    method AddEdge(a: Node<D>, b: Node<D>)
      requires Valid() && a in allNodes && b in allNodes && a != b
      requires !Edge(Abs(), a, b)
      modifies a`succs, b`preds, b`numPred
      ensures Valid() && Abs() == WithEdge(old(Abs()), a, b)
    {
      ghost var g := Abs();
      WithEdgeEdges(g, a, b);
      a.succs := a.succs + [b];
      b.preds := b.preds + [a];
      b.numPred := b.numPred + 1;
      assert Abs() == WithEdge(g, a, b);
      assert Elems(b.preds) == Elems(old(b.preds)) + {a};
      assert a !in old(b.preds) by { assert a !in Elems(old(b.preds)); }
    }

    method AddEdgeIfAbsent(a: Node<D>, b: Node<D>)
      requires Valid() && a in allNodes && b in allNodes && a != b
      modifies a`succs, b`preds, b`numPred
      ensures Valid()
      ensures Abs() == if Edge(old(Abs()), a, b) then old(Abs()) else WithEdge(old(Abs()), a, b)
    {
      var present := HasEdge(a, b);
      if !present {
        AddEdge(a, b);
      }
    }

    lemma NothingVisited()
      requires Valid()
      ensures forall n :: n in allNodes ==> n.numPred == Waiting(Abs(), [], n)
      ensures forall n :: n in allNodes ==> (n.numPred == 0 <==> n in ReadySet(Abs(), []))
      ensures ValidGraph(Abs()) && Abs().nodes == allNodes
      ensures forall n :: n in allNodes ==> n in Abs().succs && n.succs == Abs().succs[n]
      ensures AfterVisits(Abs(), 0) == Worklist(Select(allNodes, ReadySet(Abs(), [])), [])
    {
      ghost var g := Abs();
      forall n | n in allNodes ensures n.numPred == Waiting(g, [], n) && (n.numPred == 0 <==> n in ReadySet(g, [])) {
        NoDupCard(n.preds);
        assert Preds(g, n) - Elems([]) == Preds(g, n);
        WaitingNone(g, [], n);
      }
    }

    /** The traversal's first loop: queue the sources and reset every shadow counter. */
    method QueueSources(ghost sources: set<Node<D>>) returns (nodeQ: seq<Node<D>>)
      requires forall n :: n in allNodes ==> (n.numPred == 0 <==> n in sources)
      modifies allNodes`depCounter
      ensures nodeQ == Select(allNodes, sources)
      ensures forall n :: n in allNodes ==> n.depCounter == n.numPred
    {
      hide NoDup;
      var nodes := allNodes;
      assert forall k :: 0 <= k < |nodes| ==> (nodes[k].numPred == 0 <==> nodes[k] in sources);
      nodeQ := [];
      for i := 0 to |nodes|
        invariant nodeQ == Select(nodes[..i], sources)
        invariant forall n :: n in nodes[..i] ==> n.depCounter == n.numPred
      {
        var p := nodes[i];
        assert nodes[..i + 1] == nodes[..i] + [p];
        assert p in nodes;
        if p.IsSrc() {
          nodeQ := nodeQ + [p];
        }
        p.depCounter := p.numPred;
      }
      assert nodes[..|nodes|] == nodes;
    }

    /** One visit's inner loop: retire the edges out of `p`, queueing the nodes left waiting for nothing. */
    method VisitSuccessors(p: Node<D>, rest: seq<Node<D>>, ghost left: map<Node<D>, nat>, ghost ready: set<Node<D>>)
      returns (nodeQ: seq<Node<D>>)
      requires NoDup(p.succs) && forall n :: n in p.succs ==> n in allNodes
      requires forall n :: n in allNodes ==> n in left && n.depCounter == left[n] + if n in p.succs then 1 else 0
      requires forall n :: n in allNodes ==> (left[n] == 0 <==> n in ready)
      modifies allNodes`depCounter
      ensures nodeQ == rest + Select(p.succs, ready)
      ensures forall n :: n in allNodes ==> n.depCounter == left[n]
    {
      var succs := p.succs;
      assert succs[0..] == succs;
      hide NoDup, Select;
      SelectNone<Node<D>>(ready);
      var newly := [];
      for j := 0 to |succs|
        invariant newly == Select(succs[..j], ready)
        invariant forall n :: n in allNodes ==> n.depCounter == left[n] + if n in succs[j..] then 1 else 0
      {
        var d := succs[j];
        SelectNext(succs, j, ready);
        FirstOfRest(succs, j);
        d.depCounter := d.depCounter - 1;
        if d.depCounter == 0 {
          newly := newly + [d];
        }
      }
      assert succs[..|succs|] == succs;
      nodeQ := rest + newly;
    }

    /** Shadow counters are no part of the graph. */
    twostate lemma CountersOnly()
      requires old(Valid()) && unchanged(`allNodes)
      requires forall n :: n in allNodes ==> unchanged(n`succs, n`preds, n`numPred)
      ensures Valid() && Abs() == old(Abs()) && PredLists() == old(PredLists())
    {
      assert Abs().succs == old(Abs()).succs;
    }

    /** This is a valid graph, namely `g`. */
    ghost predicate Is(g: Graph<Node<D>>)
      reads `allNodes, allNodes`succs, allNodes`preds, allNodes`numPred
    {
      Valid() && g == Abs()
    }

    twostate lemma StillIs(g: Graph<Node<D>>)
      requires old(Is(g)) && unchanged(`allNodes)
      requires forall n :: n in allNodes ==> unchanged(n`succs, n`preds, n`numPred)
      ensures Is(g)
    {
      CountersOnly();
    }

    /** The order in which the traversal calls its function argument. */
    method ForEachNodeTopoOrder() returns (order: seq<Node<D>>)
      requires Valid()
      modifies allNodes`depCounter
      ensures Valid() && Abs() == old(Abs()) && order == TopoOrder(old(Abs()))
    {
      hide *;
      ghost var g := Abs();
      NothingVisited();
      var nodeQ := QueueSources(ReadySet(g, []));
      order := VisitAll(nodeQ, g);
      CountersOnly();
    }

    /** The traversal's worklist loop. */
    method VisitAll(start: seq<Node<D>>, ghost g: Graph<Node<D>>) returns (order: seq<Node<D>>)
      requires ValidGraph(g) && g.nodes == allNodes
      requires forall n :: n in allNodes ==> n in g.succs && n.succs == g.succs[n]
      requires AfterVisits(g, 0) == Worklist(start, [])
      requires forall n :: n in allNodes ==> n.depCounter == Waiting(g, [], n)
      modifies allNodes`depCounter
      ensures order == TopoOrder(g)
    {
      hide *;
      order := [];
      var nodeQ := start;
      ghost var t := 0;
      ghost var w := AfterVisits(g, 0);
      while nodeQ != []
        invariant w == AfterVisits(g, t) && nodeQ == w.queue && order == w.done && t <= |g.nodes|
        invariant forall n :: n in allNodes ==> n.depCounter == Waiting(g, order, n)
        decreases |g.nodes| - t
      {
        var p := nodeQ[|nodeQ| - 1];
        ghost var left := VisitCounts(g, t, w, p);
        nodeQ := VisitSuccessors(p, nodeQ[..|nodeQ| - 1], left, ReadySet(g, order + [p]));
        order := order + [p];
        t := t + 1;
        w := Worklist(nodeQ, order);
      }
      TopoOrderFinal(g, t);
    }
  }

  lemma SelectNone<T>(s: set<T>)
    ensures Select([], s) == []
  {
  }

  lemma SelectNext<T>(ds: seq<T>, j: nat, s: set<T>)
    requires j < |ds|
    ensures Select(ds[..j + 1], s) == Select(ds[..j], s) + if ds[j] in s then [ds[j]] else []
  {
    assert ds[..j + 1] == ds[..j] + [ds[j]];
  }

  lemma FirstOfRest<T>(ds: seq<T>, j: nat)
    requires NoDup(ds) && j < |ds|
    ensures ds[j] in ds && ds[j] !in ds[j + 1..] && forall n :: n in ds[j..] <==> n == ds[j] || n in ds[j + 1..]
  {
    assert ds[j..] == [ds[j]] + ds[j + 1..];
  }

  /** The counter values one visit must leave behind. */
  lemma VisitCounts<N>(g: Graph<N>, t: nat, w: Worklist<N>, p: N) returns (left: map<N, nat>)
    requires ValidGraph(g) && w == AfterVisits(g, t) && w.queue != [] && p == w.queue[|w.queue| - 1]
    ensures p in g.nodes && p in g.succs && t < |g.nodes| && NoDup(g.succs[p]) && forall n :: n in g.succs[p] ==> n in g.nodes
    ensures AfterVisits(g, t + 1) ==
      Worklist(w.queue[..|w.queue| - 1] + Select(g.succs[p], ReadySet(g, w.done + [p])), w.done + [p])
    ensures forall n :: n in g.nodes ==> n in left && left[n] == Waiting(g, w.done + [p], n)
    ensures forall n :: n in g.nodes ==> Waiting(g, w.done, n) == left[n] + if n in g.succs[p] then 1 else 0
    ensures forall n :: n in g.nodes ==> (left[n] == 0 <==> n in ReadySet(g, w.done + [p]))
  {
    hide *;
    VisitedNode(g, t, w, p);
    left := map n | n in g.nodes :: Waiting(g, w.done + [p], n);
    forall n | n in g.nodes
      ensures Waiting(g, w.done, n) == left[n] + if n in g.succs[p] then 1 else 0
      ensures left[n] == 0 <==> n in ReadySet(g, w.done + [p])
    {
      WaitingAfter(g, w.done, p, n);
      WaitingNone(g, w.done + [p], n);
      ReadySetHas(g, w.done + [p], n);
    }
  }

  lemma VisitedNode<N>(g: Graph<N>, t: nat, w: Worklist<N>, p: N)
    requires ValidGraph(g) && w == AfterVisits(g, t) && w.queue != [] && p == w.queue[|w.queue| - 1]
    ensures p in g.nodes && p in g.succs && t < |g.nodes| && p !in w.done
    ensures NoDup(g.succs[p]) && forall n :: n in g.succs[p] ==> n in g.nodes
    ensures AfterVisits(g, t + 1) ==
      Worklist(w.queue[..|w.queue| - 1] + Select(g.succs[p], ReadySet(g, w.done + [p])), w.done + [p])
  {
    hide *;
    AfterVisitsInv(g, t);
    assert p in w.queue;
    QueueMember(g, w.queue, w.done, p);
    SuccsListed(g, p);
    NextIs(g, t, w, p);
  }

  lemma SuccsListed<N>(g: Graph<N>, p: N)
    requires ValidGraph(g) && p in g.succs
    ensures NoDup(g.succs[p]) && forall n :: n in g.succs[p] ==> n in g.nodes
  {
    hide NoDup;
  }

  lemma NextIs<N>(g: Graph<N>, t: nat, w: Worklist<N>, p: N)
    requires w == AfterVisits(g, t) && w.queue != [] && p == w.queue[|w.queue| - 1] && p in g.succs
    ensures AfterVisits(g, t + 1) ==
      Worklist(w.queue[..|w.queue| - 1] + Select(g.succs[p], ReadySet(g, w.done + [p])), w.done + [p])
  {
    hide ReadySet, Select;
  }

  lemma ReadySetHas<N>(g: Graph<N>, done: seq<N>, n: N)
    requires n in g.nodes
    ensures n in ReadySet(g, done) <==> Ready(g, done, n)
  {
    hide Ready;
  }

  /** How many predecessors of `n` are still unvisited. */
  ghost function Waiting<N>(g: Graph<N>, done: seq<N>, n: N): nat {
    |Preds(g, n) - Elems(done)|
  }

  lemma WaitingNone<N>(g: Graph<N>, done: seq<N>, n: N)
    ensures Waiting(g, done, n) == 0 <==> Ready(g, done, n)
  {
    if Waiting(g, done, n) == 0 {
      assert Preds(g, n) - Elems(done) == {};
      forall x | x in Preds(g, n) ensures x in Elems(done) { assert x !in Preds(g, n) - Elems(done); }
    } else {
      assert Preds(g, n) - Elems(done) != {};
    }
  }

  lemma WaitingAfter<N>(g: Graph<N>, done: seq<N>, p: N, n: N)
    requires p !in done && p in g.succs
    ensures Waiting(g, done, n) == Waiting(g, done + [p], n) + if n in g.succs[p] then 1 else 0
  {
    assert Elems(done + [p]) == Elems(done) + {p};
    if n in g.succs[p] {
      assert Preds(g, n) - Elems(done) == Preds(g, n) - Elems(done + [p]) + {p};
    } else {
      assert Preds(g, n) - Elems(done) == Preds(g, n) - Elems(done + [p]);
    }
  }

  // ---------------------------------------------------------------- small graphs

  /** Three nodes and where their edges go. */
  ghost function Three<N>(a: N, b: N, c: N, fromA: seq<N>, fromB: seq<N>, fromC: seq<N>): Graph<N> {
    Graph([a, b, c], map[a := fromA, b := fromB, c := fromC])
  }

  lemma ThreeNodes<N>(a: N, b: N, c: N)
    requires a != b && b != c && a != c
    ensures WithNode(WithNode(WithNode(Graph([], map[]), a), b), c) == Three(a, b, c, [], [], [])
  {
  }

  lemma ThreeEdge<N>(a: N, b: N, c: N, fromA: seq<N>, fromB: seq<N>, fromC: seq<N>, x: N, y: N)
    requires a != b && b != c && a != c && (x == a || x == b || x == c)
    ensures var g := Three(a, b, c, fromA, fromB, fromC);
            && g.nodes == [a, b, c] && x in g.succs
            && (Edge(g, x, y) <==> y in if x == a then fromA else if x == b then fromB else fromC)
            && WithEdge(g, x, y) == Three(a, b, c, if x == a then fromA + [y] else fromA,
                                          if x == b then fromB + [y] else fromB, if x == c then fromC + [y] else fromC)
  {
  }

  method MakeThree<D>(d: D) returns (dag: Dag<D>, a: Node<D>, b: Node<D>, c: Node<D>)
    ensures fresh(dag) && fresh(a) && fresh(b) && fresh(c) && a != b && b != c && a != c
    ensures dag.Valid() && dag.Abs() == Three(a, b, c, [], [], [])
  {
    dag := new Dag();
    assert dag.Abs().nodes == [] && dag.Abs().succs == map[];
    hide *;
    a := dag.AddNode(d);
    b := dag.AddNode(d);
    c := dag.AddNode(d);
    ThreeNodes(a, b, c);
  }

  method Link<D>(dag: Dag<D>, x: Node<D>, y: Node<D>, ghost a: Node<D>, ghost b: Node<D>, ghost c: Node<D>,
                 ghost fromA: seq<Node<D>>, ghost fromB: seq<Node<D>>, ghost fromC: seq<Node<D>>)
    requires a != b && b != c && a != c && dag.Valid() && dag.Abs() == Three(a, b, c, fromA, fromB, fromC)
    requires (x == a || x == b || x == c) && (y == a || y == b || y == c) && x != y
    requires y !in if x == a then fromA else if x == b then fromB else fromC
    modifies x`succs, y`preds, y`numPred
    ensures dag.Valid()
    ensures dag.Abs() == Three(a, b, c, if x == a then fromA + [y] else fromA,
                               if x == b then fromB + [y] else fromB, if x == c then fromC + [y] else fromC)
  {
    assert dag.allNodes == dag.Abs().nodes;
    hide *;
    ThreeEdge(a, b, c, fromA, fromB, fromC, x, y);
    dag.AddEdge(x, y);
  }
}
