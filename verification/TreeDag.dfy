/** The graphs the level-by-level executor is run on (`cojoinedTreeDag`): a tree that spreads out and joins again. */
module TreeDag {
  import opened Arithmetic
  import opened Sequences
  import opened Graphs
  import opened TaskDag
  import opened DagExecutor
  import opened BfsExecutor

  // ---------------------------------------------------------------- levels

  ghost predicate EdgeUp<N>(lev: map<N, nat>, a: N, b: N) {
    a in lev && b in lev && lev[b] == lev[a] + 1
  }

  /** Every edge leads one level up, and only nodes on level 0 and `orphans` have no predecessor. */
  ghost predicate Levelled<N>(g: Graph<N>, lev: map<N, nat>, orphans: set<N>) {
    && ValidGraph(g) && lev.Keys == Elems(g.nodes)
    && (forall a, b :: a in g.succs && b in g.succs[a] ==> EdgeUp(lev, a, b))
    && (forall n :: n in g.nodes && Preds(g, n) == {} ==> n in lev && (lev[n] == 0 || n in orphans))
  }

  lemma EdgeLevel<N>(g: Graph<N>, lev: map<N, nat>, a: N, b: N)
    requires Levelled(g, lev, {}) && Edge(g, a, b)
    ensures a in lev && b in lev && lev[b] == lev[a] + 1
  {
  }

  lemma NodeHasLevel<N>(g: Graph<N>, lev: map<N, nat>, a: N)
    requires Levelled(g, lev, {}) && a in g.nodes
    ensures a in lev
  {
    assert a in Elems(g.nodes);
  }

  lemma {:induction false} WalkLevel<N>(g: Graph<N>, lev: map<N, nat>, a: N, b: N, k: nat)
    requires Levelled(g, lev, {}) && Walk(g, a, b, k)
    ensures a in lev && b in lev && lev[b] == lev[a] + k
  {
    hide Levelled;
    if k > 0 {
      var m :| m in g.nodes && Walk(g, a, m, k - 1) && Edge(g, m, b);
      EdgeLevel(g, lev, m, b);
      WalkLevel(g, lev, a, m, k - 1);
    } else {
      NodeHasLevel(g, lev, a);
    }
  }

  lemma LevelledIsAcyclic<N>(g: Graph<N>, lev: map<N, nat>)
    requires Levelled(g, lev, {})
    ensures Acyclic(g)
  {
    forall c | c in g.nodes ensures !OnCycle(g, c) {
      forall k: nat | k > 0 ensures !Walk(g, c, c, k) {
        if Walk(g, c, c, k) { WalkLevel(g, lev, c, c, k); }
      }
    }
  }

  lemma FrontierIsLevel<N>(g: Graph<N>, lev: map<N, nat>, n: N, k: nat)
    requires Levelled(g, lev, {}) && n in Frontier(g, k)
    ensures n in lev && lev[n] == k
  {
    var s :| s in SourceSet(g) && Walk(g, s, n, k);
    WalkLevel(g, lev, s, n, k);
  }

  lemma LevelledIsGraded<N>(g: Graph<N>, lev: map<N, nat>)
    requires Levelled(g, lev, {})
    ensures Graded(g)
  {
    forall n, j: nat, k: nat | n in Frontier(g, j) && n in Frontier(g, k) ensures j == k {
      FrontierIsLevel(g, lev, n, j);
      FrontierIsLevel(g, lev, n, k);
    }
  }

  lemma LevelledFacts<N>(g: Graph<N>, lev: map<N, nat>, orphans: set<N>)
    requires Levelled(g, lev, orphans)
    ensures ValidGraph(g) && forall x :: x in lev <==> x in g.nodes
  {
    hide ValidGraph, Preds;
    assert forall x :: x in lev <==> x in lev.Keys;
  }

  lemma LevelledEdge<N>(g: Graph<N>, lev: map<N, nat>, orphans: set<N>, a: N, b: N)
    requires Levelled(g, lev, orphans) && a in g.succs && b in g.succs[a]
    ensures a in lev && b in lev && lev[b] == lev[a] + 1
  {
    hide ValidGraph, Preds;
  }

  lemma LevelledStart<N>(g: Graph<N>, lev: map<N, nat>, orphans: set<N>, n: N)
    requires Levelled(g, lev, orphans) && n in g.nodes && Preds(g, n) == {}
    ensures n in lev && (lev[n] == 0 || n in orphans)
  {
    hide ValidGraph, Preds;
  }

  lemma MakeLevelled<N>(g: Graph<N>, lev: map<N, nat>, orphans: set<N>)
    requires ValidGraph(g) && forall x :: x in lev <==> x in g.nodes
    requires forall a, b :: a in g.succs && b in g.succs[a] ==> EdgeUp(lev, a, b)
    requires forall n :: n in g.nodes && Preds(g, n) == {} ==> n in lev && (lev[n] == 0 || n in orphans)
    ensures Levelled(g, lev, orphans)
  {
    assert forall x :: x in lev.Keys <==> x in Elems(g.nodes);
    hide ValidGraph, Preds;
  }

  lemma LevelledWithNode<N>(g: Graph<N>, lev: map<N, nat>, orphans: set<N>, n: N, l: nat)
    requires Levelled(g, lev, orphans) && n !in g.nodes
    ensures Levelled(WithNode(g, n), lev[n := l], orphans + {n})
    ensures l == 0 ==> Levelled(WithNode(g, n), lev[n := l], orphans)
  {
    var h, lev' := WithNode(g, n), lev[n := l];
    hide Levelled, ValidGraph, Preds;
    LevelledFacts(g, lev, orphans);
    WithNodePreds(g, n);
    forall a, b | a in h.succs && b in h.succs[a] ensures EdgeUp(lev', a, b) {
      assert a != n;
      LevelledEdge(g, lev, orphans, a, b);
    }
    forall x | x in h.nodes && Preds(h, x) == {} ensures x in lev' && (x == n || lev'[x] == 0 || x in orphans) {
      if x != n { LevelledStart(g, lev, orphans, x); }
    }
    MakeLevelled(h, lev', orphans + {n});
    if l == 0 { MakeLevelled(h, lev', orphans); }
  }

  lemma LevelledWithEdge<N>(g: Graph<N>, lev: map<N, nat>, orphans: set<N>, a: N, b: N)
    requires Levelled(g, lev, orphans) && a in g.nodes && b in g.nodes && !Edge(g, a, b)
    requires a in lev && b in lev && lev[b] == lev[a] + 1
    ensures a in g.succs && Levelled(WithEdge(g, a, b), lev, orphans - {b})
  {
    assert a in Elems(g.nodes);
    WithEdgeEdges(g, a, b);
    var h := WithEdge(g, a, b);
    assert a in Preds(h, b);
  }

  // ---------------------------------------------------------------- rows

  /** The successors of the listed nodes, one list after the other. */
  ghost function SuccsInOrder<N>(g: Graph<N>, s: seq<N>): seq<N> {
    if s == [] then []
    else SuccsInOrder(g, s[..|s| - 1]) + (if s[|s| - 1] in g.succs then g.succs[s[|s| - 1]] else [])
  }

  ghost function Copies<T>(x: T, n: nat): (r: seq<T>)
    ensures |r| == n
  {
    if n == 0 then [] else Copies(x, n - 1) + [x]
  }

  /** Every member of `s`, `degree` times. */
  ghost function Repeated<T>(s: seq<T>, degree: nat): seq<T> {
    if s == [] then [] else Repeated(s[..|s| - 1], degree) + Copies(s[|s| - 1], degree)
  }

  ghost function Concat<T>(rows: seq<seq<T>>): seq<T> {
    if rows == [] then [] else Concat(rows[..|rows| - 1]) + rows[|rows| - 1]
  }

  /** Each node of `curr` has `degree` successors of its own: listed one after the other, they are `next`. */
  ghost predicate Spreads<N>(g: Graph<N>, curr: seq<N>, next: seq<N>, degree: nat) {
    && (forall n :: n in curr ==> n in g.succs && |g.succs[n]| == degree)
    && SuccsInOrder(g, curr) == next
  }

  /** Each node of `curr` has one successor, and `degree` of them, from left to right, share each node of `next`. */
  ghost predicate Joins<N>(g: Graph<N>, curr: seq<N>, next: seq<N>, degree: nat) {
    && (forall n :: n in curr ==> n in g.succs && |g.succs[n]| == 1)
    && SuccsInOrder(g, curr) == Repeated(next, degree)
  }

  /** Below level `levels` the rows spread, above it they join. */
  ghost predicate RowLinked<N>(g: Graph<N>, rows: seq<seq<N>>, l: nat, levels: nat, degree: nat)
    requires l + 1 < |rows|
  {
    if l < levels then Spreads(g, rows[l], rows[l + 1], degree) else Joins(g, rows[l], rows[l + 1], degree)
  }

  /** The graph consists of these rows, each linked to the next. */
  ghost predicate Grid<N>(g: Graph<N>, rows: seq<seq<N>>, levels: nat, degree: nat) {
    && rows != [] && g.nodes == Concat(rows)
    && (forall l: nat :: l + 1 < |rows| ==> RowLinked(g, rows, l, levels, degree))
    && (forall l: nat :: l < |rows| ==> |rows[l]| == RowSize(l, levels, degree))
  }

  ghost function RowSize(l: nat, levels: nat, degree: nat): nat {
    if l <= levels then Pow(degree, l) else if l <= 2 * levels then Pow(degree, 2 * levels - l) else 0
  }

  /** A tree of `levels` levels grown and joined again: the last row has no successors. */
  ghost predicate CojoinedTree<N>(g: Graph<N>, rows: seq<seq<N>>, levels: nat, degree: nat) {
    && Grid(g, rows, levels, degree) && |rows| == 2 * levels + 1
    && (forall n :: n in rows[2 * levels] ==> n in g.succs && g.succs[n] == [])
  }

  /** `next` is new in `g'`, and only nodes of `curr` have new successors. */
  ghost predicate NextRow<N>(g: Graph<N>, g': Graph<N>, curr: seq<N>, next: seq<N>) {
    && g'.nodes == g.nodes + next
    && (forall n :: n in g.succs && n !in curr ==> n in g'.succs && g'.succs[n] == g.succs[n])
  }

  lemma {:induction false} SuccsSame<N>(g: Graph<N>, h: Graph<N>, s: seq<N>)
    requires forall n :: n in s ==> n in g.succs && n in h.succs && h.succs[n] == g.succs[n]
    ensures SuccsInOrder(h, s) == SuccsInOrder(g, s)
  {
    if s != [] {
      assert s[|s| - 1] in s;
      SuccsSame(g, h, s[..|s| - 1]);
    }
  }

  lemma SuccsPush<N>(g: Graph<N>, s: seq<N>, i: nat)
    requires i < |s| && s[i] in g.succs
    ensures SuccsInOrder(g, s[..i + 1]) == SuccsInOrder(g, s[..i]) + g.succs[s[i]]
  {
    assert s[..i + 1][..i] == s[..i];
  }

  lemma ConcatPush<T>(rows: seq<seq<T>>, row: seq<T>)
    ensures Concat(rows + [row]) == Concat(rows) + row
  {
    assert (rows + [row])[..|rows|] == rows;
  }

  lemma {:induction false} ConcatMember<T>(rows: seq<seq<T>>, l: nat, x: T)
    requires l < |rows| && x in rows[l]
    ensures x in Concat(rows)
  {
    var last := |rows| - 1;
    if l < last { ConcatMember(rows[..last], l, x); }
  }

  /** Nodes of earlier rows are not in the last one. */
  lemma RowsApart<N>(g: Graph<N>, rows: seq<seq<N>>, l: nat, n: N)
    requires NoDup(g.nodes) && rows != [] && g.nodes == Concat(rows) && l + 1 < |rows| && n in rows[l]
    ensures n !in rows[|rows| - 1]
  {
    var last := |rows| - 1;
    var before := Concat(rows[..last]);
    ConcatMember(rows[..last], l, n);
    assert g.nodes == before + rows[last];
    var i :| 0 <= i < |before| && before[i] == n;
    forall j | 0 <= j < |rows[last]| ensures rows[last][j] != n { assert g.nodes[i] != g.nodes[|before| + j]; }
  }

  lemma RowStaysLinked<N>(g: Graph<N>, g': Graph<N>, rows: seq<seq<N>>, next: seq<N>, l: nat, levels: nat, degree: nat)
    requires NoDup(g.nodes) && Grid(g, rows, levels, degree) && NextRow(g, g', rows[|rows| - 1], next) && l + 1 < |rows|
    ensures RowLinked(g', rows + [next], l, levels, degree)
  {
    assert RowLinked(g, rows, l, levels, degree);
    forall n | n in rows[l] ensures n in g.succs && n in g'.succs && g'.succs[n] == g.succs[n] { RowsApart(g, rows, l, n); }
    SuccsSame(g, g', rows[l]);
    assert (rows + [next])[l] == rows[l] && (rows + [next])[l + 1] == rows[l + 1];
  }

  /** One more row. */
  lemma GridNext<N>(g: Graph<N>, g': Graph<N>, rows: seq<seq<N>>, next: seq<N>, levels: nat, degree: nat)
    requires NoDup(g.nodes) && Grid(g, rows, levels, degree) && NextRow(g, g', rows[|rows| - 1], next)
    requires |next| == RowSize(|rows|, levels, degree)
    requires if |rows| - 1 < levels then Spreads(g', rows[|rows| - 1], next, degree) else Joins(g', rows[|rows| - 1], next, degree)
    ensures Grid(g', rows + [next], levels, degree)
  {
    ConcatPush(rows, next);
    var rows' := rows + [next];
    forall l: nat | l + 1 < |rows'| ensures RowLinked(g', rows', l, levels, degree) {
      if l + 1 < |rows| {
        RowStaysLinked(g, g', rows, next, l, levels, degree);
      } else {
        assert rows'[l] == rows[|rows| - 1] && rows'[l + 1] == next;
      }
    }
  }

  // ---------------------------------------------------------------- building blocks

  /** `s` lists distinct nodes of level `l` without successors. */
  ghost predicate Row<N>(g: Graph<N>, lev: map<N, nat>, s: seq<N>, l: nat) {
    && NoDup(s)
    && (forall n :: n in s ==> n in g.nodes && n in g.succs && g.succs[n] == [] && n in lev && lev[n] == l)
  }

  lemma RowWithNode<N>(g: Graph<N>, lev: map<N, nat>, s: seq<N>, l: nat, n: N, m: nat)
    requires Row(g, lev, s, l) && n !in g.nodes
    ensures Row(WithNode(g, n), lev[n := m], s, l)
    ensures m == l ==> Row(WithNode(g, n), lev[n := m], s + [n], l)
  {
    assert forall x :: x in s ==> x != n;
    JoinNoDup(s, [n]);
  }

  lemma RowWithEdge<N>(g: Graph<N>, lev: map<N, nat>, s: seq<N>, l: nat, a: N, b: N)
    requires Row(g, lev, s, l) && a in g.succs && a !in s
    ensures Row(WithEdge(g, a, b), lev, s, l)
  {
  }

  method NewNode<D>(dag: Dag<D>, data: D, ghost g: Graph<Node<D>>, ghost lev: map<Node<D>, nat>, ghost orphans: set<Node<D>>, ghost l: nat)
    returns (t: Node<D>)
    requires dag.Is(g) && Levelled(g, lev, orphans)
    modifies dag
    ensures fresh(t) && t !in g.nodes && t !in g.succs && dag.Is(WithNode(g, t)) && dag.allNodes == old(dag.allNodes) + [t]
    ensures Levelled(WithNode(g, t), lev[t := l], orphans + {t})
    ensures l == 0 ==> Levelled(WithNode(g, t), lev[t := l], orphans)
  {
    t := dag.AddNode(data);
    LevelledWithNode(g, lev, orphans, t, l);
  }

  method NewEdge<D>(dag: Dag<D>, a: Node<D>, b: Node<D>, ghost g: Graph<Node<D>>, ghost lev: map<Node<D>, nat>, ghost orphans: set<Node<D>>)
    requires dag.Is(g) && Levelled(g, lev, orphans) && a in g.nodes && b in g.nodes && a in g.succs && !Edge(g, a, b)
    requires a in lev && b in lev && lev[b] == lev[a] + 1
    modifies a`succs, b`preds, b`numPred
    ensures dag.Is(WithEdge(g, a, b)) && Levelled(WithEdge(g, a, b), lev, orphans - {b})
  {
    LevelledWithEdge(g, lev, orphans, a, b);
    dag.AddEdge(a, b);
  }

  // ---------------------------------------------------------------- the spreading half

  /** The nodes of `curr` are on level `l`. */
  ghost predicate OnLevel<N>(g: Graph<N>, lev: map<N, nat>, curr: seq<N>, l: nat) {
    forall n :: n in curr ==> n in g.nodes && n in g.succs && n in lev && lev[n] == l
  }

  /** The state of the graph while nodes of level `l` get children: `next` lists the children so far. */
  ghost predicate Spreading<D>(dag: Dag<D>, g: Graph<Node<D>>, lev: map<Node<D>, nat>, curr: seq<Node<D>>, next: seq<Node<D>>, l: nat)
    reads dag`allNodes, dag.allNodes`succs, dag.allNodes`preds, dag.allNodes`numPred
  {
    dag.Is(g) && g.nodes == dag.allNodes && Levelled(g, lev, {}) && OnLevel(g, lev, curr, l) && Row(g, lev, next, l + 1)
  }

  /** `g` with a new node `child` behind `n`. */
  ghost function WithChild<N>(g: Graph<N>, n: N, child: N): Graph<N>
    requires n in g.succs
  {
    WithEdge(WithNode(g, child), n, child)
  }

  lemma ChildAllowed<N>(g: Graph<N>, lev: map<N, nat>, n: N, child: N, l: nat)
    requires ValidGraph(g) && child !in g.nodes && n in g.nodes && n in g.succs && n in lev && lev[n] == l
    ensures var h := WithNode(g, child);
            n in h.nodes && child in h.nodes && n in h.succs && !Edge(h, n, child) && n in lev[child := l + 1] && lev[child := l + 1][n] == l
  {
  }

  method NewChild<D>(dag: Dag<D>, n: Node<D>, data: D, ghost g: Graph<Node<D>>, ghost lev: map<Node<D>, nat>, ghost l: nat)
    returns (child: Node<D>)
    requires dag.Is(g) && Levelled(g, lev, {}) && n in g.nodes && n in g.succs && n in lev && lev[n] == l
    modifies dag, n`succs
    ensures fresh(child) && child !in g.nodes && child !in g.succs && dag.allNodes == old(dag.allNodes) + [child]
    ensures dag.Is(WithChild(g, n, child)) && Levelled(WithChild(g, n, child), lev[child := l + 1], {})
  {
    assert ValidGraph(g);
    hide Levelled, Dag.Is, Edge;
    child := NewNode(dag, data, g, lev, {}, l + 1);
    ChildAllowed(g, lev, n, child, l);
    hide ValidGraph;
    assert {} + {child} - {child} == {};
    NewEdge(dag, n, child, WithNode(g, child), lev[child := l + 1], {} + {child});
  }

  lemma SpreadChild<N>(g: Graph<N>, lev: map<N, nat>, curr: seq<N>, before: seq<N>, l: nat, n: N, child: N)
    requires OnLevel(g, lev, curr, l) && Row(g, lev, before, l + 1) && n in curr && child !in g.nodes
    ensures n in g.succs && WithChild(g, n, child).nodes == g.nodes + [child]
    ensures OnLevel(WithChild(g, n, child), lev[child := l + 1], curr, l)
    ensures Row(WithChild(g, n, child), lev[child := l + 1], before + [child], l + 1)
  {
    RowWithNode(g, lev, before, l + 1, child, l + 1);
    var h, lev' := WithNode(g, child), lev[child := l + 1];
    assert OnLevel(h, lev', curr, l);
    assert n !in before + [child];
    RowWithEdge(h, lev', before + [child], l + 1, n, child);
  }

  lemma MakeSpreading<D>(dag: Dag<D>, g: Graph<Node<D>>, lev: map<Node<D>, nat>, curr: seq<Node<D>>, next: seq<Node<D>>, l: nat)
    requires dag.Is(g) && g.nodes == dag.allNodes && Levelled(g, lev, {}) && OnLevel(g, lev, curr, l) && Row(g, lev, next, l + 1)
    ensures Spreading(dag, g, lev, curr, next, l)
  {
  }

  method AddChild<D>(dag: Dag<D>, n: Node<D>, data: D, curr: seq<Node<D>>, before: seq<Node<D>>,
                     ghost g: Graph<Node<D>>, ghost lev: map<Node<D>, nat>, ghost l: nat)
    returns (next: seq<Node<D>>, ghost g': Graph<Node<D>>, ghost lev': map<Node<D>, nat>)
    requires Spreading(dag, g, lev, curr, before, l) && n in curr
    modifies dag, n`succs
    ensures Spreading(dag, g', lev', curr, next, l)
    ensures |next| == |before| + 1 && next[..|before|] == before && next[|before|] !in g.nodes && next[|before|] !in g.succs
    ensures n in g.succs
    ensures g' == WithChild(g, n, next[|before|])
    ensures forall x :: x in dag.allNodes ==> x in old(dag.allNodes) || fresh(x)
  {
    assert n in g.nodes && n in g.succs && n in lev && lev[n] == l;
    assert dag.Is(g) && g.nodes == dag.allNodes && Levelled(g, lev, {}) && OnLevel(g, lev, curr, l) && Row(g, lev, before, l + 1);
    hide *;
    var child := NewChild(dag, n, data, g, lev, l);
    SpreadChild(g, lev, curr, before, l, n, child);
    g', lev' := WithChild(g, n, child), lev[child := l + 1];
    next := before + [child];
    assert g'.nodes == dag.allNodes;
    MakeSpreading(dag, g', lev', curr, next, l);
  }

  /** `i` nodes of `curr` have all their `degree` children and the next has `d`: `next` lists them. */
  ghost predicate SpreadSoFar<N>(g: Graph<N>, g': Graph<N>, curr: seq<N>, next: seq<N>, degree: nat, i: nat, d: nat) {
    && i <= |curr| && (d > 0 ==> i < |curr|) && NextRow(g, g', curr, next)
    && (forall n :: n in curr ==> n in g.nodes && n in g'.succs)
    && (forall k :: 0 <= k < i ==> |g'.succs[curr[k]]| == degree)
    && (forall k :: i < k < |curr| ==> g'.succs[curr[k]] == [])
    && (i < |curr| ==> |g'.succs[curr[i]]| == d)
    && SuccsInOrder(g', curr[..if d > 0 then i + 1 else i]) == next
  }

  lemma SpreadStart<N>(g: Graph<N>, lev: map<N, nat>, curr: seq<N>, degree: nat, l: nat)
    requires Row(g, lev, curr, l)
    ensures SpreadSoFar(g, g, curr, [], degree, 0, 0)
  {
    assert forall k :: 0 <= k < |curr| ==> curr[k] in curr;
  }

  lemma ChildGraph<N>(g: Graph<N>, n: N, child: N)
    requires n in g.succs && n != child
    ensures var h := WithChild(g, n, child);
            && h.nodes == g.nodes + [child] && n in h.succs && h.succs[n] == g.succs[n] + [child]
            && forall m :: m in g.succs && m != n && m != child ==> m in h.succs && h.succs[m] == g.succs[m]
  {
  }

  lemma SpreadStep<N>(g: Graph<N>, g1: Graph<N>, curr: seq<N>, before: seq<N>, next: seq<N>, degree: nat, i: nat, d: nat)
    requires NoDup(curr) && SpreadSoFar(g, g1, curr, before, degree, i, d) && i < |curr|
    requires |next| == |before| + 1 && next[..|before|] == before && curr[i] in g1.succs
    requires next[|before|] !in g1.nodes && next[|before|] !in g1.succs
    ensures SpreadSoFar(g, WithChild(g1, curr[i], next[|before|]), curr, next, degree, i, d + 1)
  {
    hide *;
    var n, child := curr[i], next[|before|];
    assert next == before + [child];
    NotInRow(g, g1, curr, before, degree, i, d, child);
    ChildGraph(g1, n, child);
    SpreadGrown(g, g1, WithChild(g1, n, child), curr, before, degree, i, d, child);
  }

  lemma NotInRow<N>(g: Graph<N>, g1: Graph<N>, curr: seq<N>, before: seq<N>, degree: nat, i: nat, d: nat, child: N)
    requires SpreadSoFar(g, g1, curr, before, degree, i, d) && child !in g1.nodes && i < |curr|
    ensures forall k :: 0 <= k < |curr| ==> curr[k] in g1.succs && curr[k] != child
  {
    hide SuccsInOrder;
    forall k | 0 <= k < |curr| ensures curr[k] in g1.succs && curr[k] != child { assert curr[k] in curr; }
  }

  lemma SpreadGrown<N>(g: Graph<N>, g1: Graph<N>, g2: Graph<N>, curr: seq<N>, before: seq<N>, degree: nat, i: nat, d: nat, child: N)
    requires NoDup(curr) && SpreadSoFar(g, g1, curr, before, degree, i, d) && i < |curr| && child !in g1.succs
    requires forall k :: 0 <= k < |curr| ==> curr[k] in g1.succs && curr[k] != child
    requires g2.nodes == g1.nodes + [child] && curr[i] in g2.succs && g2.succs[curr[i]] == g1.succs[curr[i]] + [child]
    requires forall m :: m in g1.succs && m != curr[i] && m != child ==> m in g2.succs && g2.succs[m] == g1.succs[m]
    ensures SpreadSoFar(g, g2, curr, before + [child], degree, i, d + 1)
  {
    DistinctFrom(curr, i);
    SpreadStepSuccs(g, g1, g2, curr, before, degree, i, d);
    hide NoDup, SuccsInOrder;
    assert g2.nodes == g.nodes + (before + [child]);
    forall n | n in curr ensures n in g.nodes && n in g2.succs {
      var k :| 0 <= k < |curr| && curr[k] == n;
    }
  }

  lemma SpreadStepSuccs<N>(g: Graph<N>, g1: Graph<N>, g2: Graph<N>, curr: seq<N>, before: seq<N>, degree: nat, i: nat, d: nat)
    requires NoDup(curr) && SpreadSoFar(g, g1, curr, before, degree, i, d) && i < |curr|
    requires curr[i] in g2.succs && curr[i] in g1.succs && g1.succs[curr[i]] <= g2.succs[curr[i]]
    requires forall k :: 0 <= k < i ==> curr[k] in g2.succs && g2.succs[curr[k]] == g1.succs[curr[k]]
    ensures SuccsInOrder(g2, curr[..i + 1]) == before + g2.succs[curr[i]][|g1.succs[curr[i]]|..]
  {
    forall n | n in curr[..i] ensures n in g1.succs && n in g2.succs && g2.succs[n] == g1.succs[n] {
      var k :| 0 <= k < i && curr[k] == n;
    }
    SuccsSame(g1, g2, curr[..i]);
    SuccsPush(g1, curr, i);
    SuccsPush(g2, curr, i);
    hide SuccsInOrder, NextRow, NoDup;
    if d == 0 { assert g1.succs[curr[i]] == []; }
  }

  lemma SpreadNextNode<N>(g: Graph<N>, g': Graph<N>, curr: seq<N>, next: seq<N>, degree: nat, i: nat)
    requires SpreadSoFar(g, g', curr, next, degree, i, degree) && i < |curr|
    ensures SpreadSoFar(g, g', curr, next, degree, i + 1, 0)
  {
    if degree == 0 {
      SuccsPush(g', curr, i);
      assert g'.succs[curr[i]] == [];
    }
    assert i + 1 < |curr| ==> g'.succs[curr[i + 1]] == [];
  }

  lemma SpreadDone<N>(g: Graph<N>, g': Graph<N>, curr: seq<N>, next: seq<N>, degree: nat)
    requires SpreadSoFar(g, g', curr, next, degree, |curr|, 0)
    ensures NextRow(g, g', curr, next) && Spreads(g', curr, next, degree)
  {
    assert curr[..|curr|] == curr;
    forall n | n in curr ensures n in g'.succs && |g'.succs[n]| == degree {
      var k :| 0 <= k < |curr| && curr[k] == n;
    }
  }

  lemma NodesStay<N>(g: Graph<N>, g': Graph<N>, curr: seq<N>, next: seq<N>, degree: nat, i: nat, d: nat)
    requires SpreadSoFar(g, g', curr, next, degree, i, d)
    ensures forall n :: n in g.nodes ==> n in g'.nodes
    ensures forall n :: n in curr ==> n in g'.succs
  {
  }

  /** One step of the expanding tree: `degree` children for every node of `curr`. */
  method Expand<D>(dag: Dag<D>, curr: seq<Node<D>>, degree: nat, data: D, ghost g: Graph<Node<D>>, ghost lev: map<Node<D>, nat>, ghost l: nat)
    returns (next: seq<Node<D>>, ghost g': Graph<Node<D>>, ghost lev': map<Node<D>, nat>)
    requires Spreading(dag, g, lev, curr, [], l) && Row(g, lev, curr, l) && NoDup(curr)
    modifies dag, set n: Node<D> | n in dag.allNodes :: n`succs
    ensures Spreading(dag, g', lev', curr, next, l) && |next| == |curr| * degree
    ensures NextRow(g, g', curr, next) && Spreads(g', curr, next, degree)
    ensures forall x :: x in dag.allNodes ==> x in old(dag.allNodes) || fresh(x)
  {
    hide *;
    next, g', lev' := [], g, lev;
    SpreadStart(g, lev, curr, degree, l);
    for i := 0 to |curr|
      invariant Spreading(dag, g', lev', curr, next, l) && |next| == i * degree
      invariant SpreadSoFar(g, g', curr, next, degree, i, 0)
      invariant forall x :: x in dag.allNodes ==> x in old(dag.allNodes) || fresh(x)
    {
      for d := 0 to degree
        invariant Spreading(dag, g', lev', curr, next, l) && |next| == i * degree + d
        invariant SpreadSoFar(g, g', curr, next, degree, i, d)
        invariant forall x :: x in dag.allNodes ==> x in old(dag.allNodes) || fresh(x)
      {
        assert curr[i] in dag.allNodes by { SpreadingMember(dag, g', lev', curr, next, l, curr[i]); }
        NodesStay(g, g', curr, next, degree, i, d);
        ghost var g1, before := g', next;
        next, g', lev' := AddChild(dag, curr[i], data, curr, next, g', lev', l);
        SpreadStep(g, g1, curr, before, next, degree, i, d);
      }
      SpreadNextNode(g, g', curr, next, degree, i);
      assert i * degree + degree == (i + 1) * degree;
    }
    SpreadDone(g, g', curr, next, degree);
  }

  lemma SpreadingMember<D>(dag: Dag<D>, g: Graph<Node<D>>, lev: map<Node<D>, nat>, curr: seq<Node<D>>, next: seq<Node<D>>, l: nat, n: Node<D>)
    requires Spreading(dag, g, lev, curr, next, l) && n in curr
    ensures n in dag.allNodes
  {
  }

  // ---------------------------------------------------------------- the joining half

  /** The state of the graph while nodes for level `l + 1` are added above the row `curr`: `next` lists them, none has a predecessor yet. */
  ghost predicate Stacking<D>(dag: Dag<D>, g: Graph<Node<D>>, lev: map<Node<D>, nat>, curr: seq<Node<D>>, next: seq<Node<D>>, l: nat)
    reads dag`allNodes, dag.allNodes`succs, dag.allNodes`preds, dag.allNodes`numPred
  {
    && dag.Is(g) && g.nodes == dag.allNodes && Levelled(g, lev, Elems(next))
    && Row(g, lev, curr, l) && Row(g, lev, next, l + 1)
  }

  lemma StackNode<N>(g: Graph<N>, lev: map<N, nat>, curr: seq<N>, before: seq<N>, l: nat, n: N)
    requires Row(g, lev, curr, l) && Row(g, lev, before, l + 1) && n !in g.nodes
    ensures Row(WithNode(g, n), lev[n := l + 1], curr, l)
    ensures Row(WithNode(g, n), lev[n := l + 1], before + [n], l + 1)
    ensures WithNode(g, n).nodes == g.nodes + [n] && Elems(before + [n]) == Elems(before) + {n}
  {
    RowWithNode(g, lev, curr, l, n, l + 1);
    RowWithNode(g, lev, before, l + 1, n, l + 1);
  }

  method AddRowNode<D>(dag: Dag<D>, data: D, curr: seq<Node<D>>, before: seq<Node<D>>,
                       ghost g: Graph<Node<D>>, ghost lev: map<Node<D>, nat>, ghost l: nat)
    returns (next: seq<Node<D>>, ghost g': Graph<Node<D>>, ghost lev': map<Node<D>, nat>)
    requires Stacking(dag, g, lev, curr, before, l)
    modifies dag
    ensures Stacking(dag, g', lev', curr, next, l) && |next| == |before| + 1 && next[..|before|] == before
    ensures next[|before|] !in g.nodes && next[|before|] !in g.succs && g' == WithNode(g, next[|before|])
    ensures forall x :: x in dag.allNodes ==> x in old(dag.allNodes) || fresh(x)
  {
    hide Levelled, Dag.Is, Row, WithNode;
    var n := NewNode(dag, data, g, lev, Elems(before), l + 1);
    StackNode(g, lev, curr, before, l, n);
    g', lev' := WithNode(g, n), lev[n := l + 1];
    next := before + [n];
  }

  method AddRow<D>(dag: Dag<D>, data: D, curr: seq<Node<D>>, size: nat, ghost g: Graph<Node<D>>, ghost lev: map<Node<D>, nat>, ghost l: nat)
    returns (next: seq<Node<D>>, ghost g': Graph<Node<D>>, ghost lev': map<Node<D>, nat>)
    requires Stacking(dag, g, lev, curr, [], l)
    modifies dag
    ensures Stacking(dag, g', lev', curr, next, l) && |next| == size && NextRow(g, g', [], next)
    ensures forall x :: x in dag.allNodes ==> x in old(dag.allNodes) || fresh(x)
  {
    hide *;
    next, g', lev' := [], g, lev;
    NoRow(g);
    for c := 0 to size
      invariant Stacking(dag, g', lev', curr, next, l) && |next| == c && NextRow(g, g', [], next)
      invariant forall x :: x in dag.allNodes ==> x in old(dag.allNodes) || fresh(x)
    {
      ghost var g1, before := g', next;
      next, g', lev' := AddRowNode(dag, data, curr, next, g', lev', l);
      OneMoreInRow(g, g1, before, next);
    }
  }

  lemma NoRow<N>(g: Graph<N>)
    ensures NextRow(g, g, [], [])
  {
  }

  lemma OneMoreInRow<N>(g: Graph<N>, g1: Graph<N>, before: seq<N>, next: seq<N>)
    requires NextRow(g, g1, [], before) && |next| == |before| + 1 && next[..|before|] == before
    requires next[|before|] !in g1.succs
    ensures NextRow(g, WithNode(g1, next[|before|]), [], next)
  {
    assert next == before + [next[|before|]];
  }

  /** The state of the graph when the first `c` nodes of `curr` have been joined to `next`, `degree` of them to each. */
  ghost predicate Joining<D>(dag: Dag<D>, g: Graph<Node<D>>, lev: map<Node<D>, nat>, curr: seq<Node<D>>, next: seq<Node<D>>, l: nat,
                             c: nat, orphans: set<Node<D>>)
    reads dag`allNodes, dag.allNodes`succs, dag.allNodes`preds, dag.allNodes`numPred
  {
    && dag.Is(g) && g.nodes == dag.allNodes && Levelled(g, lev, orphans) && c <= |curr|
    && Row(g, lev, curr[c..], l) && OnLevel(g, lev, curr, l) && Row(g, lev, next, l + 1)
  }

  lemma JoinEdge<N>(g: Graph<N>, lev: map<N, nat>, curr: seq<N>, next: seq<N>, l: nat, c: nat, b: N)
    requires ValidGraph(g) && c < |curr| && b in next
    requires Row(g, lev, curr[c..], l) && OnLevel(g, lev, curr, l) && Row(g, lev, next, l + 1)
    ensures var a := curr[c];
            && a in g.nodes && b in g.nodes && a in g.succs && !Edge(g, a, b) && a in lev && b in lev && lev[b] == lev[a] + 1
            && WithEdge(g, a, b).nodes == g.nodes
            && Row(WithEdge(g, a, b), lev, curr[c + 1..], l) && OnLevel(WithEdge(g, a, b), lev, curr, l)
            && Row(WithEdge(g, a, b), lev, next, l + 1)
  {
    var a, rest := curr[c], curr[c + 1..];
    assert curr[c..] == [a] + rest;
    assert curr[c..][0] == a && a in curr[c..];
    forall i | 0 <= i < |rest| ensures rest[i] != a && rest[i] in curr[c..] { assert curr[c..][i + 1] == rest[i]; }
    assert NoDup(rest) by {
      forall i, j | 0 <= i < j < |rest| ensures rest[i] != rest[j] { assert curr[c..][i + 1] != curr[c..][j + 1]; }
    }
    RowWithEdge(g, lev, rest, l, a, b);
    RowWithEdge(g, lev, next, l + 1, a, b);
  }

  method JoinOne<D>(dag: Dag<D>, curr: seq<Node<D>>, next: seq<Node<D>>, c: nat, b: Node<D>,
                    ghost g: Graph<Node<D>>, ghost lev: map<Node<D>, nat>, ghost l: nat, ghost orphans: set<Node<D>>)
    returns (ghost g': Graph<Node<D>>)
    requires Joining(dag, g, lev, curr, next, l, c, orphans) && c < |curr| && b in next
    modifies set n: Node<D> | n in dag.allNodes
    ensures Joining(dag, g', lev, curr, next, l, c + 1, orphans - {b}) && dag.allNodes == old(dag.allNodes)
    ensures curr[c] in g.succs && g' == WithEdge(g, curr[c], b)
  {
    assert ValidGraph(g);
    JoinEdge(g, lev, curr, next, l, c, b);
    assert curr[c] in dag.allNodes && b in dag.allNodes;
    hide Levelled, Dag.Is, Row, OnLevel, ValidGraph, Edge, WithEdge;
    NewEdge(dag, curr[c], b, g, lev, orphans);
    g' := WithEdge(g, curr[c], b);
  }

  /** `c` of the nodes have been joined, `degree` to each of the first `k` and `r` to the one after those. */
  ghost predicate Shared(c: nat, k: nat, r: nat, degree: nat) {
    c == k * degree + r && r < degree
  }

  lemma ShareNext(c: nat, k: nat, r: nat, degree: nat, size: nat)
    requires Shared(c, k, r, degree) && c < size * degree
    ensures k < size
    ensures if (c + 1) % degree == 0 then r + 1 == degree && Shared(c + 1, k + 1, 0, degree) else Shared(c + 1, k, r + 1, degree)
  {
    assert k >= size ==> k * degree >= size * degree;
    if r + 1 < degree {
      DivModUnique(k, r + 1, degree);
    } else {
      assert c + 1 == (k + 1) * degree + 0;
      DivModUnique(k + 1, 0, degree);
    }
  }

  lemma ShareAll(k: nat, r: nat, degree: nat, size: nat)
    requires Shared(size * degree, k, r, degree)
    ensures k == size && r == 0
  {
    DivModUnique(k, r, degree);
    DivModUnique(size, 0, degree);
  }

  /** The nodes of `next` that have no predecessor yet are among those after the ones already joined to. */
  ghost predicate Unjoined<N>(orphans: set<N>, next: seq<N>, k: nat, r: nat) {
    k <= |next| && (r > 0 ==> k < |next|) && orphans <= Elems(next[if r > 0 then k + 1 else k..])
  }

  lemma UnjoinedNext<N>(orphans: set<N>, next: seq<N>, k: nat, r: nat)
    requires Unjoined(orphans, next, k, r) && k < |next|
    ensures Unjoined(orphans - {next[k]}, next, k, r + 1) && Unjoined(orphans - {next[k]}, next, k + 1, 0)
  {
    assert next[k..] == [next[k]] + next[k + 1..];
  }

  /** The first `c` nodes of `curr` have their edge: `degree` of them to each of the first `k` of `next`, `r` to the one after. */
  ghost predicate JoinSoFar<N>(g: Graph<N>, g': Graph<N>, curr: seq<N>, next: seq<N>, c: nat, k: nat, r: nat, degree: nat) {
    && c <= |curr| && k <= |next| && (r > 0 ==> k < |next|) && SameBut(g, g', curr)
    && (forall j :: 0 <= j < |curr| ==> curr[j] in g'.succs && |g'.succs[curr[j]]| == if j < c then 1 else 0)
    && SuccsInOrder(g', curr[..c]) == Repeated(next[..k], degree) + if r > 0 then Copies(next[k], r) else []
  }

  /** Only nodes of `curr` have new successors. */
  ghost predicate SameBut<N>(g: Graph<N>, g': Graph<N>, curr: seq<N>) {
    g'.nodes == g.nodes && forall n :: n in g.succs && n !in curr ==> n in g'.succs && g'.succs[n] == g.succs[n]
  }

  lemma JoinStart<N>(g: Graph<N>, lev: map<N, nat>, curr: seq<N>, next: seq<N>, l: nat, degree: nat)
    requires Row(g, lev, curr, l)
    ensures JoinSoFar(g, g, curr, next, 0, 0, 0, degree)
  {
    assert forall j :: 0 <= j < |curr| ==> curr[j] in curr;
  }

  lemma RepeatedPush<T>(next: seq<T>, k: nat, degree: nat)
    requires k < |next|
    ensures Repeated(next[..k + 1], degree) == Repeated(next[..k], degree) + Copies(next[k], degree)
  {
    assert next[..k + 1][..k] == next[..k];
  }

  lemma EdgeGraph<N>(g: Graph<N>, a: N, b: N)
    requires a in g.succs
    ensures var h := WithEdge(g, a, b);
            && h.nodes == g.nodes && a in h.succs && h.succs[a] == g.succs[a] + [b]
            && forall m :: m in g.succs && m != a ==> m in h.succs && h.succs[m] == g.succs[m]
  {
  }

  lemma JoinStep<N>(g: Graph<N>, g1: Graph<N>, curr: seq<N>, next: seq<N>, c: nat, k: nat, r: nat, degree: nat)
    requires NoDup(curr) && JoinSoFar(g, g1, curr, next, c, k, r, degree) && c < |curr| && k < |next| && curr[c] in g1.succs
    ensures JoinSoFar(g, WithEdge(g1, curr[c], next[k]), curr, next, c + 1, k, r + 1, degree)
    ensures r + 1 == degree ==> JoinSoFar(g, WithEdge(g1, curr[c], next[k]), curr, next, c + 1, k + 1, 0, degree)
  {
    hide *;
    EdgeGraph(g1, curr[c], next[k]);
    DistinctFrom(curr, c);
    JoinGrown(g, g1, WithEdge(g1, curr[c], next[k]), curr, next, c, k, r, degree);
    if r + 1 == degree { JoinFull(g, WithEdge(g1, curr[c], next[k]), curr, next, c + 1, k, degree); }
  }

  lemma JoinFull<N>(g: Graph<N>, g': Graph<N>, curr: seq<N>, next: seq<N>, c: nat, k: nat, degree: nat)
    requires JoinSoFar(g, g', curr, next, c, k, degree, degree) && degree > 0
    ensures JoinSoFar(g, g', curr, next, c, k + 1, 0, degree)
  {
    RepeatedPush(next, k, degree);
    hide SuccsInOrder, Repeated, Copies, SameBut;
  }

  lemma JoinGrown<N>(g: Graph<N>, g1: Graph<N>, g2: Graph<N>, curr: seq<N>, next: seq<N>, c: nat, k: nat, r: nat, degree: nat)
    requires JoinSoFar(g, g1, curr, next, c, k, r, degree) && c < |curr| && k < |next| && curr[c] in g1.succs
    requires g2.nodes == g1.nodes && curr[c] in g2.succs && g2.succs[curr[c]] == g1.succs[curr[c]] + [next[k]]
    requires forall m :: m in g1.succs && m != curr[c] ==> m in g2.succs && g2.succs[m] == g1.succs[m]
    requires forall j :: 0 <= j < |curr| && j != c ==> curr[j] != curr[c]
    ensures JoinSoFar(g, g2, curr, next, c + 1, k, r + 1, degree)
  {
    assert curr[c] in curr && g1.succs[curr[c]] == [] && g2.succs[curr[c]] == [next[k]];
    forall n | n in curr[..c] ensures n in g1.succs && n in g2.succs && g2.succs[n] == g1.succs[n] {
      var j :| 0 <= j < c && curr[j] == n;
    }
    SuccsSame(g1, g2, curr[..c]);
    SuccsPush(g2, curr, c);
    assert Copies(next[k], r + 1) == Copies(next[k], r) + [next[k]];
    hide SuccsInOrder, Repeated;
    Assoc(Repeated(next[..k], degree), Copies(next[k], r), [next[k]]);
    assert r == 0 ==> Copies(next[k], r) == [];
  }

  lemma JoinDone<N>(g: Graph<N>, g': Graph<N>, curr: seq<N>, next: seq<N>, degree: nat)
    requires JoinSoFar(g, g', curr, next, |curr|, |next|, 0, degree)
    ensures SameBut(g, g', curr) && Joins(g', curr, next, degree)
  {
    assert curr[..|curr|] == curr && next[..|next|] == next;
    hide SuccsInOrder, Repeated, SameBut;
    forall n | n in curr ensures n in g'.succs && |g'.succs[n]| == 1 {
      var j :| 0 <= j < |curr| && curr[j] == n;
    }
  }

  /** `degree` nodes of `curr` to each node of `next`, left to right. */
  method JoinRows<D>(dag: Dag<D>, curr: seq<Node<D>>, next: seq<Node<D>>, degree: nat,
                     ghost g: Graph<Node<D>>, ghost lev: map<Node<D>, nat>, ghost l: nat)
    returns (ghost g': Graph<Node<D>>)
    requires Stacking(dag, g, lev, curr, next, l) && degree > 0 && |curr| == |next| * degree
    modifies set n: Node<D> | n in dag.allNodes
    ensures Joining(dag, g', lev, curr, next, l, |curr|, {}) && dag.allNodes == old(dag.allNodes)
    ensures SameBut(g, g', curr) && Joins(g', curr, next, degree)
  {
    hide *;
    g' := g;
    ghost var orphans, r := Elems(next), 0;
    JoinReady(dag, g, lev, curr, next, l, degree);
    var nextIndex, counter := 0, 0;
    for c := 0 to |curr|
      invariant Joining(dag, g', lev, curr, next, l, c, orphans) && dag.allNodes == old(dag.allNodes)
      invariant counter == c && Shared(c, nextIndex, r, degree) && Unjoined(orphans, next, nextIndex, r)
      invariant JoinSoFar(g, g', curr, next, c, nextIndex, r, degree)
    {
      ShareNext(c, nextIndex, r, degree, |next|);
      UnjoinedNext(orphans, next, nextIndex, r);
      ghost var g1 := g';
      g' := JoinOne(dag, curr, next, c, next[nextIndex], g', lev, l, orphans);
      JoinStep(g, g1, curr, next, c, nextIndex, r, degree);
      orphans := orphans - {next[nextIndex]};
      counter := counter + 1;
      r := r + 1;
      if counter % degree == 0 {
        nextIndex := nextIndex + 1;
        r := 0;
      }
    }
    ShareAll(nextIndex, r, degree, |next|);
    NoneUnjoined(orphans, next);
    JoinDone(g, g', curr, next, degree);
  }

  lemma JoinReady<D>(dag: Dag<D>, g: Graph<Node<D>>, lev: map<Node<D>, nat>, curr: seq<Node<D>>, next: seq<Node<D>>, l: nat, degree: nat)
    requires Stacking(dag, g, lev, curr, next, l) && degree > 0
    ensures NoDup(curr) && Joining(dag, g, lev, curr, next, l, 0, Elems(next))
    ensures Shared(0, 0, 0, degree) && Unjoined(Elems(next), next, 0, 0) && JoinSoFar(g, g, curr, next, 0, 0, 0, degree)
  {
    JoinStart(g, lev, curr, next, l, degree);
    assert curr[0..] == curr && next[0..] == next;
  }

  lemma NoneUnjoined<N>(orphans: set<N>, next: seq<N>)
    requires Unjoined(orphans, next, |next|, 0)
    ensures orphans == {}
  {
  }

  // ---------------------------------------------------------------- the whole graph

  /** A levelled graph whose last row is `curr`, on level `l`. */
  ghost predicate Rowed<D>(dag: Dag<D>, g: Graph<Node<D>>, lev: map<Node<D>, nat>, curr: seq<Node<D>>, l: nat)
    reads dag`allNodes, dag.allNodes`succs, dag.allNodes`preds, dag.allNodes`numPred
  {
    dag.Is(g) && g.nodes == dag.allNodes && Levelled(g, lev, {}) && Row(g, lev, curr, l)
  }

  method Grow<D>(dag: Dag<D>, curr: seq<Node<D>>, degree: nat, data: D, ghost g: Graph<Node<D>>, ghost lev: map<Node<D>, nat>, ghost l: nat)
    returns (next: seq<Node<D>>, ghost g': Graph<Node<D>>, ghost lev': map<Node<D>, nat>)
    requires Rowed(dag, g, lev, curr, l)
    modifies dag, set n: Node<D> | n in dag.allNodes :: n`succs
    ensures Rowed(dag, g', lev', next, l + 1) && |next| == |curr| * degree
    ensures NextRow(g, g', curr, next) && Spreads(g', curr, next, degree)
    ensures forall x :: x in dag.allNodes ==> x in old(dag.allNodes) || fresh(x)
  {
    assert Spreading(dag, g, lev, curr, [], l) && NoDup(curr);
    hide Levelled, Dag.Is, Row, OnLevel, NextRow, Spreads;
    next, g', lev' := Expand(dag, curr, degree, data, g, lev, l);
  }

  method Shrink<D>(dag: Dag<D>, curr: seq<Node<D>>, degree: nat, size: nat, data: D, ghost g: Graph<Node<D>>, ghost lev: map<Node<D>, nat>, ghost l: nat)
    returns (next: seq<Node<D>>, ghost g': Graph<Node<D>>, ghost lev': map<Node<D>, nat>)
    requires Rowed(dag, g, lev, curr, l) && degree > 0 && |curr| == size * degree
    modifies dag, set n: Node<D> | n in dag.allNodes
    ensures Rowed(dag, g', lev', next, l + 1) && |next| == size
    ensures NextRow(g, g', curr, next) && Joins(g', curr, next, degree)
    ensures forall x :: x in dag.allNodes ==> x in old(dag.allNodes) || fresh(x)
  {
    assert Elems<Node<D>>([]) == {};
    assert Stacking(dag, g, lev, curr, [], l);
    hide Levelled, Dag.Is, Row, OnLevel, Stacking, NextRow, SameBut, Joins;
    next, g', lev' := AddRow(dag, data, curr, size, g, lev, l);
    ghost var g1 := g';
    g' := JoinRows(dag, curr, next, degree, g', lev', l);
    RowThenEdges(g, g1, g', curr, next);
  }

  lemma RowThenEdges<N>(g: Graph<N>, g1: Graph<N>, g2: Graph<N>, curr: seq<N>, next: seq<N>)
    requires NextRow(g, g1, [], next) && SameBut(g1, g2, curr)
    ensures NextRow(g, g2, curr, next)
  {
  }

  ghost function Pow(b: nat, e: nat): (r: nat)
    ensures b > 0 ==> r > 0
  {
    if e == 0 then 1 else Pow(b, e - 1) * b
  }

  /** `Rowed` with all its rows, from the first on. */
  ghost predicate Built<D>(dag: Dag<D>, g: Graph<Node<D>>, lev: map<Node<D>, nat>, rows: seq<seq<Node<D>>>, curr: seq<Node<D>>, l: nat,
                           levels: nat, degree: nat)
    reads dag`allNodes, dag.allNodes`succs, dag.allNodes`preds, dag.allNodes`numPred
  {
    Rowed(dag, g, lev, curr, l) && Grid(g, rows, levels, degree) && |rows| == l + 1 && rows[l] == curr
  }

  method MakeRoot<D>(dag: Dag<D>, data: D, ghost levels: nat, ghost degree: nat)
    returns (root: Node<D>, ghost g: Graph<Node<D>>, ghost lev: map<Node<D>, nat>)
    requires dag.Valid() && dag.allNodes == []
    modifies dag
    ensures Built(dag, g, lev, [[root]], [root], 0, levels, degree) && forall x :: x in dag.allNodes ==> fresh(x)
  {
    ghost var g0: Graph<Node<D>> := dag.Abs();
    assert g0 == Graph([], map[]);
    assert Levelled(g0, map[], {});
    root := NewNode(dag, data, g0, map[], {}, 0);
    g, lev := WithNode(g0, root), map[root := 0];
    assert lev == map[][root := 0] && Row(g, lev, [root], 0);
    OneRow(g, root, levels, degree);
  }

  lemma OneRow<N>(g: Graph<N>, root: N, levels: nat, degree: nat)
    requires g.nodes == [root]
    ensures Grid(g, [[root]], levels, degree)
  {
    assert [[root]][..0] == [];
    assert Concat<N>([]) == [] && Concat([[root]]) == [root];
    assert Pow(degree, 0) == 1;
  }

  lemma BuiltNext<D>(dag: Dag<D>, g: Graph<Node<D>>, g': Graph<Node<D>>, lev': map<Node<D>, nat>, rows: seq<seq<Node<D>>>,
                     curr: seq<Node<D>>, next: seq<Node<D>>, l: nat, levels: nat, degree: nat)
    requires NoDup(g.nodes) && Grid(g, rows, levels, degree) && |rows| == l + 1 && rows[l] == curr
    requires Rowed(dag, g', lev', next, l + 1) && NextRow(g, g', curr, next)
    requires if l < levels then Spreads(g', curr, next, degree) else Joins(g', curr, next, degree)
    requires |next| == RowSize(l + 1, levels, degree)
    ensures Built(dag, g', lev', rows + [next], next, l + 1, levels, degree)
  {
    hide Rowed, Grid, NextRow, Spreads, Joins, RowSize;
    GridNext(g, g', rows, next, levels, degree);
  }

  lemma BuiltFacts<D>(dag: Dag<D>, g: Graph<Node<D>>, lev: map<Node<D>, nat>, rows: seq<seq<Node<D>>>, curr: seq<Node<D>>, l: nat,
                      levels: nat, degree: nat)
    requires Built(dag, g, lev, rows, curr, l, levels, degree)
    ensures Rowed(dag, g, lev, curr, l) && NoDup(g.nodes) && Grid(g, rows, levels, degree) && |rows| == l + 1 && rows[l] == curr
    ensures |curr| == RowSize(l, levels, degree)
  {
    hide Levelled, Row, RowSize, RowLinked;
  }

  lemma RowSizes(l: nat, levels: nat, degree: nat)
    ensures l <= levels ==> RowSize(l, levels, degree) == Pow(degree, l)
    ensures levels <= l <= 2 * levels ==> RowSize(l, levels, degree) == Pow(degree, 2 * levels - l)
  {
  }

  method GrowAll<D>(dag: Dag<D>, root: Node<D>, data: D, levels: nat, degree: nat, ghost g: Graph<Node<D>>, ghost lev: map<Node<D>, nat>)
    returns (curr: seq<Node<D>>, ghost g': Graph<Node<D>>, ghost lev': map<Node<D>, nat>, ghost rows: seq<seq<Node<D>>>)
    requires Built(dag, g, lev, [[root]], [root], 0, levels, degree)
    modifies dag, set n: Node<D> | n in dag.allNodes
    ensures Built(dag, g', lev', rows, curr, levels, levels, degree)
    ensures forall x :: x in dag.allNodes ==> x in old(dag.allNodes) || fresh(x)
  {
    hide *;
    curr, g', lev', rows := [root], g, lev, [[root]];
    for i := 0 to levels
      invariant Built(dag, g', lev', rows, curr, i, levels, degree)
      invariant forall x :: x in dag.allNodes ==> x in old(dag.allNodes) || fresh(x)
    {
      BuiltFacts(dag, g', lev', rows, curr, i, levels, degree);
      RowSizes(i, levels, degree);
      RowSizes(i + 1, levels, degree);
      PowNext(degree, i);
      ghost var g0, below := g', curr;
      curr, g', lev' := Grow(dag, curr, degree, data, g', lev', i);
      BuiltNext(dag, g0, g', lev', rows, below, curr, i, levels, degree);
      rows := rows + [curr];
    }
  }

  method ShrinkAll<D>(dag: Dag<D>, start: seq<Node<D>>, data: D, levels: nat, degree: nat, ghost g: Graph<Node<D>>, ghost lev: map<Node<D>, nat>,
                      ghost grown: seq<seq<Node<D>>>)
    returns (curr: seq<Node<D>>, ghost g': Graph<Node<D>>, ghost lev': map<Node<D>, nat>, ghost rows: seq<seq<Node<D>>>)
    requires Built(dag, g, lev, grown, start, levels, levels, degree) && (levels > 0 ==> degree > 0)
    modifies dag, set n: Node<D> | n in dag.allNodes
    ensures Built(dag, g', lev', rows, curr, levels + levels, levels, degree)
    ensures forall x :: x in dag.allNodes ==> x in old(dag.allNodes) || fresh(x)
  {
    hide *;
    curr, g', lev', rows := start, g, lev, grown;
    for i := 0 to levels
      invariant Built(dag, g', lev', rows, curr, levels + i, levels, degree)
      invariant forall x :: x in dag.allNodes ==> x in old(dag.allNodes) || fresh(x)
    {
      BuiltFacts(dag, g', lev', rows, curr, levels + i, levels, degree);
      RowSizes(levels + i, levels, degree);
      RowSizes(levels + i + 1, levels, degree);
      PowNext(degree, levels - i - 1);
      DivModUnique(Pow(degree, levels - i - 1), 0, degree);
      var nextLevelSz := |curr| / degree;
      assert nextLevelSz > 0;
      ghost var g0, below := g', curr;
      curr, g', lev' := Shrink(dag, curr, degree, nextLevelSz, data, g', lev', levels + i);
      BuiltNext(dag, g0, g', lev', rows, below, curr, levels + i, levels, degree);
      rows := rows + [curr];
    }
  }

  /** A tree of the given depth and degree, grown and joined again. Only a tree without levels may have degree 0. */
  method CojoinedTreeDag<D>(dag: Dag<D>, data: D, levels: nat, degree: nat) returns (ghost rows: seq<seq<Node<D>>>)
    requires dag.Valid() && dag.allNodes == [] && (levels > 0 ==> degree > 0)
    modifies dag
    ensures dag.Valid() && CojoinedTree(dag.Abs(), rows, levels, degree)
    ensures Acyclic(dag.Abs()) && Graded(dag.Abs())
  {
    var root;
    ghost var g, lev;
    root, g, lev := MakeRoot(dag, data, levels, degree);
    hide *;
    var curr;
    curr, g, lev, rows := GrowAll(dag, root, data, levels, degree, g, lev);
    curr, g, lev, rows := ShrinkAll(dag, curr, data, levels, degree, g, lev, rows);
    BuiltIsTree(dag, g, lev, rows, curr, levels, degree);
  }

  lemma PowNext(b: nat, e: nat)
    ensures Pow(b, e + 1) == Pow(b, e) * b
  {
  }

  lemma BuiltIsTree<D>(dag: Dag<D>, g: Graph<Node<D>>, lev: map<Node<D>, nat>, rows: seq<seq<Node<D>>>, curr: seq<Node<D>>, levels: nat, degree: nat)
    requires Built(dag, g, lev, rows, curr, levels + levels, levels, degree)
    ensures dag.Valid() && CojoinedTree(dag.Abs(), rows, levels, degree) && Acyclic(dag.Abs()) && Graded(dag.Abs())
  {
    hide *;
    BuiltFacts(dag, g, lev, rows, curr, levels + levels, levels, degree);
    RowedFacts(dag, g, lev, curr, levels + levels);
    LevelledIsAcyclic(g, lev);
    LevelledIsGraded(g, lev);
    GridIsTree(g, rows, levels, degree);
  }

  lemma RowedFacts<D>(dag: Dag<D>, g: Graph<Node<D>>, lev: map<Node<D>, nat>, curr: seq<Node<D>>, l: nat)
    requires Rowed(dag, g, lev, curr, l)
    ensures dag.Valid() && g == dag.Abs() && Levelled(g, lev, {})
    ensures forall n :: n in curr ==> n in g.succs && g.succs[n] == []
  {
    hide Levelled, Dag.Valid;
  }

  lemma GridIsTree<N>(g: Graph<N>, rows: seq<seq<N>>, levels: nat, degree: nat)
    requires Grid(g, rows, levels, degree) && |rows| == levels + levels + 1
    requires forall n :: n in rows[levels + levels] ==> n in g.succs && g.succs[n] == []
    ensures CojoinedTree(g, rows, levels, degree)
  {
    hide Grid;
  }

  /** The sizes of the first `n` rows together. */
  ghost function RowSum(n: nat, levels: nat, degree: nat): nat {
    if n == 0 then 0 else RowSum(n - 1, levels, degree) + RowSize(n - 1, levels, degree)
  }

  lemma {:induction false} ConcatSize<T>(rows: seq<seq<T>>, levels: nat, degree: nat)
    requires forall l: nat :: l < |rows| ==> |rows[l]| == RowSize(l, levels, degree)
    ensures |Concat(rows)| == RowSum(|rows|, levels, degree)
  {
    if rows != [] { ConcatSize(rows[..|rows| - 1], levels, degree); }
  }

  lemma {:induction false} GrownSum(n: nat, levels: nat, degree: nat)
    requires n <= levels + 1
    ensures (degree - 1) * RowSum(n, levels, degree) == Pow(degree, n) - 1
  {
    if n > 0 {
      GrownSum(n - 1, levels, degree);
      RowSizes(n - 1, levels, degree);
      SumStep(degree, RowSum(n - 1, levels, degree), Pow(degree, n - 1));
    }
  }

  lemma {:induction false} JoinedSum(m: nat, levels: nat, degree: nat)
    requires m <= levels
    ensures (degree - 1) * RowSum(levels + 1 + m, levels, degree) == Pow(degree, levels + 1) + Pow(degree, levels) - Pow(degree, levels - m) - 1
  {
    if m == 0 {
      GrownSum(levels + 1, levels, degree);
    } else {
      JoinedSum(m - 1, levels, degree);
      RowSizes(levels + m, levels, degree);
      SumStep(degree, RowSum(levels + m, levels, degree), Pow(degree, levels - m));
      assert Pow(degree, levels - m + 1) == Pow(degree, levels - m) * degree;
    }
  }

  lemma SumStep(degree: nat, sum: nat, row: nat)
    ensures (degree - 1) * (sum + row) == (degree - 1) * sum + row * degree - row
  {
  }

  lemma {:induction false} PowOne(e: nat)
    ensures Pow(1, e) == 1
  {
    if e > 0 { PowOne(e - 1); }
  }

  lemma {:induction false} ChainSum(n: nat, levels: nat)
    requires n <= levels + levels + 1
    ensures RowSum(n, levels, 1) == n
  {
    if n > 0 {
      ChainSum(n - 1, levels);
      RowSizes(n - 1, levels, 1);
      PowOne(if n - 1 <= levels then n - 1 else 2 * levels - (n - 1));
    }
  }

  /** How many nodes there are; with degree 1 the graph is a chain. */
  lemma NodeCount<N>(g: Graph<N>, rows: seq<seq<N>>, levels: nat, degree: nat)
    requires CojoinedTree(g, rows, levels, degree)
    ensures (degree - 1) * |g.nodes| == Pow(degree, levels + 1) + Pow(degree, levels) - 2
    ensures degree == 1 ==> |g.nodes| == levels + levels + 1
  {
    ConcatSize(rows, levels, degree);
    if degree == 1 { ChainSum(|rows|, levels); }
    JoinedSum(levels, levels, degree);
    assert Pow(degree, 0) == 1;
  }
}
