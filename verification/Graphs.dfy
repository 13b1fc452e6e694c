/** Directed graphs as values, and the order in which a last-in first-out worklist visits them. */
module Graphs {
  import opened Sequences

  /** Nodes in insertion order, and for each node its successors in insertion order. */
  datatype Graph<N> = Graph(nodes: seq<N>, succs: map<N, seq<N>>)

  ghost predicate Edge<N>(g: Graph<N>, a: N, b: N) {
    a in g.succs && b in g.succs[a]
  }

  ghost predicate ValidGraph<N>(g: Graph<N>) {
    && NoDup(g.nodes)
    && g.succs.Keys == Elems(g.nodes)
    && (forall a :: a in g.succs ==> NoDup(g.succs[a]) && a !in g.succs[a])
    && (forall a, b :: a in g.succs && b in g.succs[a] ==> b in g.nodes)
  }

  lemma NoSelfEdge<N>(g: Graph<N>, a: N)
    requires ValidGraph(g)
    ensures !Edge(g, a, a)
  {
  }

  ghost function Preds<N>(g: Graph<N>, b: N): set<N> {
    set a | a in g.succs && b in g.succs[a]
  }

  /** There is a walk of exactly `k` edges from `a` to `b`. */
  ghost predicate Walk<N>(g: Graph<N>, a: N, b: N, k: nat) {
    if k == 0 then a == b && a in g.nodes
    else exists m :: m in g.nodes && Walk(g, a, m, k - 1) && Edge(g, m, b)
  }

  ghost predicate OnCycle<N>(g: Graph<N>, c: N) {
    exists k: nat :: k > 0 && Walk(g, c, c, k)
  }

  ghost predicate Reaches<N>(g: Graph<N>, a: N, b: N) {
    exists k: nat :: Walk(g, a, b, k)
  }

  /** `n` lies on a cycle or downstream of one. */
  ghost predicate FromCycle<N>(g: Graph<N>, n: N) {
    exists c :: c in g.nodes && OnCycle(g, c) && Reaches(g, c, n)
  }

  ghost predicate Acyclic<N>(g: Graph<N>) {
    forall c :: c in g.nodes ==> !OnCycle(g, c)
  }

  // ---------------------------------------------------------------- the visiting order

  ghost predicate Ready<N>(g: Graph<N>, done: seq<N>, d: N) {
    Preds(g, d) <= Elems(done)
  }

  ghost function ReadySet<N>(g: Graph<N>, done: seq<N>): set<N> {
    set d | d in g.nodes && Ready(g, done, d)
  }

  /** The members of `ds`, in order, all of whose predecessors have been visited. */
  ghost function ReadyOnes<N>(g: Graph<N>, done: seq<N>, ds: seq<N>): seq<N> {
    Select(ds, ReadySet(g, done))
  }

  /** Every visited node comes after all of its predecessors. */
  ghost predicate Ordered<N>(g: Graph<N>, done: seq<N>) {
    forall i :: 0 <= i < |done| ==> Preds(g, done[i]) <= Elems(done[..i])
  }

  /** `queue` holds exactly the ready but unvisited nodes. */
  ghost predicate QueueExact<N>(g: Graph<N>, queue: seq<N>, done: seq<N>) {
    && NoDup(queue)
    && (forall d :: d in queue ==> d in g.nodes)
    && (forall d :: d in g.nodes ==> (d in queue <==> d !in done && Ready(g, done, d)))
  }

  /** What holds between two visits. */
  ghost predicate VisitInv<N>(g: Graph<N>, queue: seq<N>, done: seq<N>) {
    && ValidGraph(g)
    && NoDup(done) && (forall d :: d in done ==> d in g.nodes)
    && QueueExact(g, queue, done)
    && Ordered(g, done)
  }

  lemma OrderedPush<N>(g: Graph<N>, done: seq<N>, p: N)
    requires Ordered(g, done) && Ready(g, done, p)
    ensures Ordered(g, done + [p])
  {
    forall i | 0 <= i <= |done| ensures Preds(g, (done + [p])[i]) <= Elems((done + [p])[..i]) {
      assert (done + [p])[..i] == done[..i];
      assert done[..|done|] == done;
    }
  }

  lemma QueueMember<N>(g: Graph<N>, queue: seq<N>, done: seq<N>, p: N)
    requires VisitInv(g, queue, done) && p in queue
    ensures p in g.nodes && p in g.succs && p !in done && Ready(g, done, p)
    ensures NoDup(done + [p]) && |done| < |g.nodes|
  {
    assert p in g.succs by { assert p in Elems(g.nodes); }
    JoinNoDup(done, [p]);
    NoDupCard(done + [p]);
    NoDupCard(g.nodes);
    hide NoDup, ValidGraph, QueueExact, Ordered;
    SubsetCard(Elems(done + [p]), Elems(g.nodes));
  }

  lemma VisitStep<N>(g: Graph<N>, queue: seq<N>, done: seq<N>)
    requires VisitInv(g, queue, done) && queue != []
    ensures var p := queue[|queue| - 1];
            && p in g.succs
            && VisitInv(g, queue[..|queue| - 1] + ReadyOnes(g, done + [p], g.succs[p]), done + [p])
    ensures |done| < |g.nodes|
  {
    hide Ordered, Ready, ReadyOnes, NoDup, ValidGraph, QueueExact;
    var rest, p := queue[..|queue| - 1], queue[|queue| - 1];
    assert p in queue;
    QueueMember(g, queue, done, p);
    assert queue == rest + [p];
    VisitStepQueue(g, rest, done, p, rest + ReadyOnes(g, done + [p], g.succs[p]));
    OrderedPush(g, done, p);
  }

  /** Successors of a ready, unvisited node have been neither queued nor visited. */
  lemma SuccsUntouched<N>(g: Graph<N>, queue: seq<N>, done: seq<N>, p: N, x: N)
    requires VisitInv(g, queue, done) && p in queue && p in g.succs && x in g.succs[p]
    ensures p in Preds(g, x) && !Ready(g, done, x) && x !in queue && x !in done
  {
    assert p in Preds(g, x) && p !in done;
  }

  lemma QueuedAfterVisit<N>(g: Graph<N>, rest: seq<N>, done: seq<N>, p: N, d: N)
    requires VisitInv(g, rest + [p], done) && p in g.succs && d in g.nodes
    ensures d in rest + ReadyOnes(g, done + [p], g.succs[p]) <==> d !in done + [p] && Ready(g, done + [p], d)
  {
    assert Elems(done + [p]) == Elems(done) + {p};
    assert p in rest + [p];
    assert p !in rest by {
      assert (rest + [p])[|rest|] == p && forall i :: 0 <= i < |rest| ==> (rest + [p])[i] == rest[i];
    }
    if d in g.succs[p] {
      SuccsUntouched(g, rest + [p], done, p, d);
    } else {
      assert p !in Preds(g, d);
    }
  }

  lemma VisitStepQueue<N>(g: Graph<N>, rest: seq<N>, done: seq<N>, p: N, queue': seq<N>)
    requires VisitInv(g, rest + [p], done)
    requires p in g.succs && queue' == rest + ReadyOnes(g, done + [p], g.succs[p])
    ensures QueueExact(g, queue', done + [p])
  {
    var newly := ReadyOnes(g, done + [p], g.succs[p]);
    assert p in rest + [p];
    forall d | d in g.nodes ensures d in queue' <==> d !in done + [p] && Ready(g, done + [p], d) {
      QueuedAfterVisit(g, rest, done, p, d);
    }
    forall x | x in newly ensures x !in rest + [p] {
      SuccsUntouched(g, rest + [p], done, p, x);
    }
    assert forall d :: d in rest ==> d in rest + [p];
    assert NoDup(rest) by { assert rest == (rest + [p])[..|rest|]; }
    JoinNoDup(rest, newly);
  }

  /** A worklist that always takes its most recent entry, and the nodes visited so far. */
  datatype Worklist<N> = Worklist(queue: seq<N>, done: seq<N>)

  ghost function NextVisit<N>(g: Graph<N>, w: Worklist<N>): Worklist<N> {
    if w.queue == [] || w.queue[|w.queue| - 1] !in g.succs then w
    else
      var p := w.queue[|w.queue| - 1];
      Worklist(w.queue[..|w.queue| - 1] + ReadyOnes(g, w.done + [p], g.succs[p]), w.done + [p])
  }

  ghost function AfterVisits<N>(g: Graph<N>, t: nat): Worklist<N> {
    if t == 0 then Worklist(ReadyOnes(g, [], g.nodes), []) else NextVisit(g, AfterVisits(g, t - 1))
  }

  /** The nodes in visiting order. No traversal visits more nodes than there are. */
  ghost function TopoOrder<N>(g: Graph<N>): seq<N> {
    AfterVisits(g, |g.nodes|).done
  }

  lemma StartInv<N>(g: Graph<N>)
    requires ValidGraph(g)
    ensures VisitInv(g, ReadyOnes(g, [], g.nodes), [])
  {
  }

  lemma {:induction false} AfterVisitsInv<N>(g: Graph<N>, t: nat)
    requires ValidGraph(g)
    ensures VisitInv(g, AfterVisits(g, t).queue, AfterVisits(g, t).done)
    ensures AfterVisits(g, t).queue != [] ==> |AfterVisits(g, t).done| == t < |g.nodes|
  {
    hide VisitInv, ValidGraph, ReadyOnes;
    if t == 0 {
      StartInv(g);
    } else {
      AfterVisitsInv(g, t - 1);
      if AfterVisits(g, t - 1).queue != [] {
        VisitStep(g, AfterVisits(g, t - 1).queue, AfterVisits(g, t - 1).done);
      }
    }
    if AfterVisits(g, t).queue != [] {
      VisitStep(g, AfterVisits(g, t).queue, AfterVisits(g, t).done);
    }
  }

  /** Once the worklist is empty the traversal is over. */
  lemma {:induction false} EmptyIsFinal<N>(g: Graph<N>, t: nat, u: nat)
    requires t <= u && AfterVisits(g, t).queue == []
    ensures AfterVisits(g, u) == AfterVisits(g, t)
  {
    if t < u { EmptyIsFinal(g, t, u - 1); }
  }

  lemma TopoOrderFinal<N>(g: Graph<N>, t: nat)
    requires ValidGraph(g) && AfterVisits(g, t).queue == []
    ensures TopoOrder(g) == AfterVisits(g, t).done
  {
    AfterVisitsInv(g, |g.nodes|);
    if t <= |g.nodes| { EmptyIsFinal(g, t, |g.nodes|); } else { EmptyIsFinal(g, |g.nodes|, t); }
  }

  // ---------------------------------------------------------------- walks

  lemma {:induction false} WalkEnds<N>(g: Graph<N>, a: N, b: N, k: nat)
    requires ValidGraph(g) && Walk(g, a, b, k)
    ensures a in g.nodes && b in g.nodes
  {
    if k > 0 {
      var m :| m in g.nodes && Walk(g, a, m, k - 1) && Edge(g, m, b);
      WalkEnds(g, a, m, k - 1);
    }
  }

  /** Walking forward inside an ordered, downward-closed sequence moves right by at least one place an edge. */
  lemma {:induction false} WalkMovesRight<N>(g: Graph<N>, order: seq<N>, a: N, b: N, k: nat, ib: nat) returns (ia: nat)
    requires Ordered(g, order) && Walk(g, a, b, k)
    requires ib < |order| && order[ib] == b
    ensures ia + k <= ib && order[ia] == a
  {
    if k > 0 {
      var m :| m in g.nodes && Walk(g, a, m, k - 1) && Edge(g, m, b);
      assert m in Preds(g, b);
      var im: nat :| im < ib && order[..ib][im] == m;
      ia := WalkMovesRight(g, order, a, m, k - 1, im);
    } else {
      ia := ib;
    }
  }

  /** Inside a set whose members all have a predecessor in the set, one can walk backwards for ever. */
  lemma {:induction false} BackPath<N>(g: Graph<N>, s: set<N>, n: N, len: nat) returns (p: seq<N>)
    requires n in s && forall x :: x in s ==> x in g.nodes && Preds(g, x) * s != {}
    ensures |p| == len + 1 && p[0] == n
    ensures forall i :: 0 <= i <= len ==> p[i] in s
    ensures forall i :: 0 <= i < len ==> Edge(g, p[i + 1], p[i])
  {
    if len == 0 {
      p := [n];
    } else {
      var p' := BackPath(g, s, n, len - 1);
      var m :| m in Preds(g, p'[len - 1]) * s;
      p := p' + [m];
    }
  }

  lemma {:induction false} PathIsWalk<N>(g: Graph<N>, p: seq<N>, i: nat, j: nat)
    requires i <= j < |p|
    requires forall k :: 0 <= k < |p| ==> p[k] in g.nodes
    requires forall k :: 0 <= k < |p| - 1 ==> Edge(g, p[k + 1], p[k])
    ensures Walk(g, p[j], p[i], j - i)
    decreases j - i
  {
    if i < j {
      PathIsWalk(g, p, i + 1, j);
    }
  }

  lemma StuckIsFromCycle<N>(g: Graph<N>, s: set<N>, n: N)
    requires ValidGraph(g)
    requires n in s && forall x :: x in s ==> x in g.nodes && Preds(g, x) * s != {}
    ensures FromCycle(g, n)
  {
    var nodes := Elems(g.nodes);
    var p := BackPath(g, s, n, |nodes|);
    var i, j := Pigeonhole(p, nodes);
    PathIsWalk(g, p, i, j);
    PathIsWalk(g, p, 0, i);
    assert OnCycle(g, p[i]) by { assert Walk(g, p[i], p[i], j - i); }
    assert Reaches(g, p[i], n);
  }

  // ---------------------------------------------------------------- what the order is

  lemma UnvisitedIsFromCycle<N>(g: Graph<N>, order: seq<N>, n: N)
    requires VisitInv(g, [], order) && n in g.nodes && n !in order
    ensures FromCycle(g, n)
  {
    var s := set x | x in g.nodes && x !in order;
    forall x | x in s ensures Preds(g, x) * s != {} {
      assert !Ready(g, order, x);
      var m :| m in Preds(g, x) && m !in order;
      assert m in Preds(g, x) * s;
    }
    StuckIsFromCycle(g, s, n);
  }

  lemma VisitedIsNotFromCycle<N>(g: Graph<N>, order: seq<N>, n: N)
    requires NoDup(order) && Ordered(g, order) && n in order
    ensures !FromCycle(g, n)
  {
    if FromCycle(g, n) {
      var c :| c in g.nodes && OnCycle(g, c) && Reaches(g, c, n);
      var j: nat :| Walk(g, c, n, j);
      var k: nat :| k > 0 && Walk(g, c, c, k);
      var i: nat :| i < |order| && order[i] == n;
      var ic := WalkMovesRight(g, order, c, n, j, i);
      var ic' := WalkMovesRight(g, order, c, c, k, ic);
      assert false;
    }
  }

  /** The visit calls exactly the nodes no cycle leads to, once each, predecessors first. */
  lemma TopoOrderVisits<N>(g: Graph<N>)
    requires ValidGraph(g)
    ensures NoDup(TopoOrder(g)) && Ordered(g, TopoOrder(g))
    ensures Elems(TopoOrder(g)) == set n | n in g.nodes && !FromCycle(g, n)
  {
    AfterVisitsInv(g, |g.nodes|);
    var order := TopoOrder(g);
    assert VisitInv(g, [], order);
    forall n | n in g.nodes && n !in order ensures FromCycle(g, n) { UnvisitedIsFromCycle(g, order, n); }
    forall n | n in order ensures n in g.nodes && !FromCycle(g, n) { VisitedIsNotFromCycle(g, order, n); }
  }

  /** Every node is visited exactly when the graph has no cycle. */
  lemma TopoOrderCompleteIffAcyclic<N>(g: Graph<N>)
    requires ValidGraph(g)
    ensures |TopoOrder(g)| == |g.nodes| <==> Acyclic(g)
    ensures Acyclic(g) ==> Elems(TopoOrder(g)) == Elems(g.nodes)
  {
    TopoOrderVisits(g);
    var order := TopoOrder(g);
    NoDupCard(order);
    NoDupCard(g.nodes);
    if Acyclic(g) {
      assert Elems(order) == Elems(g.nodes);
    } else {
      var c :| c in g.nodes && OnCycle(g, c);
      assert Reaches(g, c, c) by { assert Walk(g, c, c, 0); }
      assert c !in Elems(order);
      SubsetCard(Elems(order), Elems(g.nodes) - {c});
    }
  }

  /** An order that lists every node after its predecessors witnesses acyclicity. */
  lemma OrderedIsAcyclic<N>(g: Graph<N>, order: seq<N>)
    requires ValidGraph(g) && NoDup(order) && Ordered(g, order)
    requires forall n :: n in g.nodes ==> n in order
    ensures Acyclic(g)
  {
    forall c | c in g.nodes ensures !OnCycle(g, c) {
      if OnCycle(g, c) {
        var k: nat :| k > 0 && Walk(g, c, c, k);
        var i: nat :| i < |order| && order[i] == c;
        var i' := WalkMovesRight(g, order, c, c, k, i);
        assert false;
      }
    }
  }
}
