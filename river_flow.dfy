/**
  The "flow" of `GenerateRiverMask`: the nodes are taken in reverse
  breadth-first order and each node's flow is 1 plus the flow of its tree
  neighbours other than its parent, that is, of its children, so it counts
  the node and everything upstream of it. The river mouth carries all `n`
  nodes. Each tree edge is then drawn with a width interpolated by the flow
  of its downstream end.
 */
module RiverFlow {
  import opened Common
  import opened RiverNetwork
  import opened RiverTree

  // ---------------------------------------------------------------------------
  // Sums over sets of nodes
  // ---------------------------------------------------------------------------

  /** The sum of `f[x]` over the nodes `x < k` in `S`. */
  function SumBelow(S: set<int>, f: seq<int>, k: int): int
    requires k <= |f|
    decreases k
  {
    if k <= 0 then 0 else SumBelow(S, f, k - 1) + (if k - 1 in S then f[k - 1] else 0)
  }

  /** The sum of `f` over the nodes in `S`. */
  function SetSum(S: set<int>, f: seq<int>): int
  {
    SumBelow(S, f, |f|)
  }

  /** Adding a node to a set adds its value to the sum. */
  lemma {:induction false} SumAdd(S: set<int>, y: int, f: seq<int>, k: int)
    requires y !in S && k <= |f|
    ensures SumBelow(S + {y}, f, k) == SumBelow(S, f, k) + (if 0 <= y < k then f[y] else 0)
    decreases k
  {
    if k > 0 {
      SumAdd(S, y, f, k - 1);
    }
  }

  /** The sum over a set is the sum over a subset plus the sum over the rest. */
  lemma {:induction false} SumSplit(S: set<int>, T: set<int>, f: seq<int>, k: int)
    requires T <= S && k <= |f|
    ensures SumBelow(S, f, k) == SumBelow(T, f, k) + SumBelow(S - T, f, k)
    decreases k
  {
    if k > 0 {
      SumSplit(S, T, f, k - 1);
    }
  }

  /** Sums over the same set of two functions that agree on it are equal. */
  lemma {:induction false} SumAgree(S: set<int>, f: seq<int>, g: seq<int>, k: int)
    requires k <= |f| && k <= |g|
    requires forall x :: x in S && 0 <= x < k ==> f[x] == g[x]
    ensures SumBelow(S, f, k) == SumBelow(S, g, k)
    decreases k
  {
    if k > 0 {
      SumAgree(S, f, g, k - 1);
    }
  }

  /** A sum of non-negative values is at least each of them. */
  lemma {:induction false} SumAtLeast(S: set<int>, f: seq<int>, k: int)
    requires k <= |f|
    requires forall x :: x in S && 0 <= x < k ==> 0 <= f[x]
    ensures 0 <= SumBelow(S, f, k)
    ensures forall y :: y in S && 0 <= y < k ==> f[y] <= SumBelow(S, f, k)
    decreases k
  {
    if k > 0 {
      SumAtLeast(S, f, k - 1);
    }
  }

  /** The sum over one node is its value. */
  lemma {:induction false} SumSingle(y: int, f: seq<int>, k: int)
    requires 0 <= y < k <= |f|
    ensures SumBelow({y}, f, k) == f[y]
    decreases k
  {
    if k - 1 > y {
      SumSingle(y, f, k - 1);
    } else {
      SumEmpty({y}, f, k - 1);
    }
  }

  /** The sum over a set with no node below `k` is 0. */
  lemma {:induction false} SumEmpty(S: set<int>, f: seq<int>, k: int)
    requires k <= |f| && forall x :: x in S ==> x < 0 || x >= k
    ensures SumBelow(S, f, k) == 0
    decreases k
  {
    if k > 0 {
      SumEmpty(S, f, k - 1);
    }
  }

  /** The sum of `f` over the entries of `list` other than `skip`, as the inner loop adds them up. */
  function ListSum(list: seq<int>, skip: int, f: seq<int>): int
    requires forall m :: 0 <= m < |list| ==> 0 <= list[m] < |f|
  {
    if |list| == 0 then 0
    else ListSum(list[..|list| - 1], skip, f) + (if list[|list| - 1] != skip then f[list[|list| - 1]] else 0)
  }

  /** Over a list without repetitions, that is the sum over the listed nodes other than `skip`. */
  lemma {:induction false} ListSumIsSetSum(list: seq<int>, skip: int, f: seq<int>)
    requires forall m :: 0 <= m < |list| ==> 0 <= list[m] < |f|
    requires Distinct(list)
    ensures ListSum(list, skip, f) == SetSum(Elements(list) - {skip}, f)
  {
    if |list| > 0 {
      var front, last := list[..|list| - 1], list[|list| - 1];
      assert Distinct(front);
      ListSumIsSetSum(front, skip, f);
      var A := Elements(front) - {skip};
      assert last !in Elements(front);
      assert list == front + [last];
      if last != skip {
        assert Elements(list) - {skip} == A + {last};
        SumAdd(A, last, f, |f|);
      } else {
        assert Elements(list) - {skip} == A;
      }
    } else {
      assert Elements(list) - {skip} == {};
      SumEmpty({}, f, |f|);
    }
  }

  // ---------------------------------------------------------------------------
  // Flow
  // ---------------------------------------------------------------------------

  /** The children of `u`: the nodes whose parent is `u`. */
  ghost function Children(parentMap: seq<int>, u: int): set<int>
  {
    set w | 0 <= w < |parentMap| && parentMap[w] == u
  }

  /** The nodes at positions `i ..` of the order: the ones the reverse loop has finished. */
  ghost function Done(order: seq<int>, i: int): set<int>
  {
    set k | 0 <= k < |order| && i <= k :: order[k]
  }

  /** The finished nodes whose parent is not finished: the roots of the finished part of the tree. */
  ghost function Top(parentMap: seq<int>, order: seq<int>, i: int): set<int>
  {
    set x | x in Done(order, i) && 0 <= x < |parentMap| && parentMap[x] !in Done(order, i)
  }

  /**
    What the reverse loop needs of the walk: `order` lists every node once,
    starting at the root 0, which has no parent; every other node has a
    parent, listed before it.
   */
  ghost predicate Ordered(n: nat, parentMap: seq<int>, order: seq<int>)
  {
    && n >= 1 && |parentMap| == n && |order| == n && Distinct(order)
    && (forall k :: 0 <= k < n ==> 0 <= order[k] < n)
    && (forall v :: 0 <= v < n ==> v in order)
    && order[0] == 0 && parentMap[0] < 0
    && (forall k {:trigger parentMap[order[k]]} :: 0 < k < n ==> 0 <= parentMap[order[k]] < n)
    && (forall i, j {:trigger parentMap[order[i]], order[j]} ::
          0 <= i < n && 0 <= j < n && parentMap[order[i]] == order[j] ==> j < i)
  }

  /** A rooted walk is ordered as the reverse loop needs. */
  lemma RootedOrdered(n: nat, adj: seq<seq<int>>, parentMap: seq<int>, order: seq<int>)
    requires RootedTree(n, adj, parentMap, order)
    ensures Ordered(n, parentMap, order)
  {
    forall i, j | 0 <= i < n && 0 <= j < n && parentMap[order[i]] == order[j]
      ensures j < i
    {
      ParentBefore(n, adj, parentMap, order, i, j);
    }
  }

  /** In an order without repetitions, the node at position `j` is finished exactly when `j >= i`. */
  lemma DoneAt(order: seq<int>, i: int, j: int)
    requires Distinct(order) && 0 <= j < |order|
    ensures order[j] in Done(order, i) <==> i <= j
  {
    if order[j] in Done(order, i) {
      var k :| 0 <= k < |order| && i <= k && order[k] == order[j];
    }
  }

  /**
    What the reverse loop keeps after finishing positions `i ..`: each
    finished node's flow is 1 plus its children's flow and lies in
    `[1, n]`, and the flows of the roots of the finished part add up to the
    number of finished nodes.
   */
  ghost predicate FlowInv(n: nat, parentMap: seq<int>, order: seq<int>, i: int, flow: seq<int>)
  {
    && Ordered(n, parentMap, order) && |flow| == n && 0 <= i <= n
    && (forall k :: i <= k < n ==> flow[order[k]] == 1 + SetSum(Children(parentMap, order[k]), flow))
    && (forall k :: i <= k < n ==> 1 <= flow[order[k]] <= n)
    && SetSum(Top(parentMap, order, i), flow) == n - i
  }

  /** Every finished node has flow at least 1. */
  lemma DonePositive(n: nat, parentMap: seq<int>, order: seq<int>, i: int, flow: seq<int>)
    requires FlowInv(n, parentMap, order, i, flow)
    ensures forall x :: x in Done(order, i) ==> 0 <= x < n && 1 <= flow[x]
  {
  }

  /** The children of the node at position `i - 1` come after it, so they are finished roots. */
  lemma ChildrenFinished(n: nat, parentMap: seq<int>, order: seq<int>, i: int)
    requires Ordered(n, parentMap, order) && 0 < i <= n
    ensures Children(parentMap, order[i - 1]) <= Top(parentMap, order, i)
    ensures order[i - 1] !in Children(parentMap, order[i - 1])
  {
    var u := order[i - 1];
    DoneAt(order, i, i - 1);
    forall w | w in Children(parentMap, u)
      ensures w in Top(parentMap, order, i)
    {
      var kw := PositionOf(order, w);
      assert parentMap[order[kw]] == order[i - 1];
      DoneAt(order, i, kw);
    }
  }

  /** Finishing the node at position `i - 1` makes it a root of the finished part in place of its children. */
  lemma TopStep(n: nat, parentMap: seq<int>, order: seq<int>, i: int)
    requires Ordered(n, parentMap, order) && 0 < i <= n
    ensures Top(parentMap, order, i - 1) == (Top(parentMap, order, i) - Children(parentMap, order[i - 1])) + {order[i - 1]}
    ensures order[i - 1] !in Top(parentMap, order, i)
  {
    var u := order[i - 1];
    var C := Children(parentMap, u);
    assert Done(order, i - 1) == Done(order, i) + {u};
    DoneAt(order, i, i - 1);
    forall x | x in Top(parentMap, order, i - 1) && x != u
      ensures x in Top(parentMap, order, i) - C
    {
    }
    forall x | x in Top(parentMap, order, i) - C
      ensures x in Top(parentMap, order, i - 1)
    {
    }
    assert u in Top(parentMap, order, i - 1) by {
      if i - 1 > 0 {
        var j := PositionOf(order, parentMap[order[i - 1]]);
        DoneAt(order, i - 1, j);
      }
    }
  }

  /**
    Finishing node `order[i]` keeps the flows of the roots of the finished
    part adding up to the number of finished nodes, and gives that node a
    flow of at least 1.
   */
  lemma TopSumStep(n: nat, parentMap: seq<int>, order: seq<int>, i: int, flow: seq<int>)
    requires Ordered(n, parentMap, order) && 0 <= i < n && |flow| == n
    requires forall x :: x in Done(order, i + 1) ==> 1 <= flow[x]
    requires SetSum(Top(parentMap, order, i + 1), flow) == n - (i + 1)
    ensures SetSum(Top(parentMap, order, i), flow[order[i] := 1 + SetSum(Children(parentMap, order[i]), flow)]) == n - i
    ensures 1 <= 1 + SetSum(Children(parentMap, order[i]), flow)
  {
    var u := order[i];
    var C := Children(parentMap, u);
    var next := flow[u := 1 + SetSum(C, flow)];
    ChildrenFinished(n, parentMap, order, i + 1);
    TopStep(n, parentMap, order, i + 1);
    var top := Top(parentMap, order, i + 1);
    SumAgree(C, flow, next, n);
    SumAgree(top - C, flow, next, n);
    SumSplit(top, C, flow, n);
    SumAdd(top - C, u, next, n);
    SumAtLeast(C, flow, n);
  }

  /** One step of the reverse loop: node `order[i]` gets 1 plus its children's flow. */
  lemma FlowStep(n: nat, parentMap: seq<int>, order: seq<int>, i: int, flow: seq<int>)
    requires 0 <= i && FlowInv(n, parentMap, order, i + 1, flow)
    ensures FlowInv(n, parentMap, order, i, flow[order[i] := 1 + SetSum(Children(parentMap, order[i]), flow)])
  {
    var u := order[i];
    var C := Children(parentMap, u);
    var next := flow[u := 1 + SetSum(C, flow)];
    DonePositive(n, parentMap, order, i + 1, flow);
    TopSumStep(n, parentMap, order, i, flow);
    ChildrenFinished(n, parentMap, order, i + 1);
    SumAgree(C, flow, next, n);
    var top' := Top(parentMap, order, i);
    assert 1 <= next[u] <= n by {
      assert Done(order, i) == Done(order, i + 1) + {u};
      assert forall x :: x in top' ==> 0 <= next[x];
      SumAtLeast(top', next, n);
    }
    forall k | i <= k < n
      ensures next[order[k]] == 1 + SetSum(Children(parentMap, order[k]), next)
      ensures 1 <= next[order[k]] <= n
    {
      if k > i {
        assert order[k] != u;
        DoneAt(order, i + 1, k);
        SumAgree(Children(parentMap, order[k]), flow, next, n);
      }
    }
    FlowInvIntro(n, parentMap, order, i, next);
  }

  lemma FlowInvIntro(n: nat, parentMap: seq<int>, order: seq<int>, i: int, flow: seq<int>)
    requires Ordered(n, parentMap, order) && |flow| == n && 0 <= i <= n
    requires forall k :: i <= k < n ==> flow[order[k]] == 1 + SetSum(Children(parentMap, order[k]), flow)
    requires forall k :: i <= k < n ==> 1 <= flow[order[k]] <= n
    requires SetSum(Top(parentMap, order, i), flow) == n - i
    ensures FlowInv(n, parentMap, order, i, flow)
  {
  }

  /** When the loop ends, every node is finished and the only root is node 0, which carries all `n` nodes. */
  lemma FlowDone(n: nat, parentMap: seq<int>, order: seq<int>, flow: seq<int>)
    requires FlowInv(n, parentMap, order, 0, flow)
    ensures forall u :: 0 <= u < n ==> flow[u] == 1 + SetSum(Children(parentMap, u), flow) && 1 <= flow[u] <= n
    ensures flow[0] == n
  {
    forall u | 0 <= u < n
      ensures flow[u] == 1 + SetSum(Children(parentMap, u), flow) && 1 <= flow[u] <= n
    {
      var k := PositionOf(order, u);
    }
    assert Top(parentMap, order, 0) == {0} by {
      forall x | x in Top(parentMap, order, 0)
        ensures x == 0
      {
        var k := PositionOf(order, x);
        if k > 0 {
          var j := PositionOf(order, parentMap[x]);
          DoneAt(order, 0, j);
        }
      }
      DoneAt(order, 0, 0);
    }
    SumSingle(0, flow, n);
  }

  /**
    Lines 147 and 170-178: `flow` starts all 0; the nodes are taken in
    reverse breadth-first order, and each gets 1 plus the flow of every
    neighbour other than its parent. Each node's flow is 1 plus its
    children's flow, lies in `[1, n]`, and the river mouth's is `n`.
   */
  method Flow(n: nat, adj: seq<seq<int>>, parentMap: array<int>, order: seq<int>) returns (flow: array<int>)
    requires RootedTree(n, adj, parentMap[..], order)
    ensures flow.Length == n
    ensures forall u :: 0 <= u < n ==> flow[u] == 1 + SetSum(Children(parentMap[..], u), flow[..])
    ensures forall u :: 0 <= u < n ==> 1 <= flow[u] <= n
    ensures flow[0] == n
  {
    RootedOrdered(n, adj, parentMap[..], order);
    ChildLists(n, adj, parentMap[..], order);
    flow := FlowOver(n, adj, parentMap, order);
  }

  /** The loop of lines 170-178, over a parent map whose tree facts are given. */
  method FlowOver(n: nat, adj: seq<seq<int>>, parentMap: array<int>, order: seq<int>) returns (flow: array<int>)
    requires Ordered(n, parentMap[..], order) && ChildrenListed(n, adj, parentMap[..])
    ensures flow.Length == n
    ensures forall u :: 0 <= u < n ==> flow[u] == 1 + SetSum(Children(parentMap[..], u), flow[..])
    ensures forall u :: 0 <= u < n ==> 1 <= flow[u] <= n
    ensures flow[0] == n
  {
    ghost var P := parentMap[..];
    flow := new int[n](_ => 0);
    assert Top(P, order, n) == {};
    SumEmpty({}, flow[..], n);
    var i := n;
    while i > 0
      invariant flow.Length == n && parentMap[..] == P
      invariant FlowInv(n, P, order, i, flow[..])
    {
      i := i - 1;
      var u := order[i];
      ghost var F := flow[..];
      AddChildren(flow, u, adj[u], parentMap[u]);
      ListSumIsSetSum(adj[u], P[u], F);
      FlowStep(n, P, order, i, F);
    }
    FlowDone(n, P, order, flow[..]);
  }

  /** Each node's list of neighbours, without its parent, is exactly its children, and every entry is a node. */
  ghost predicate ChildrenListed(n: nat, adj: seq<seq<int>>, parentMap: seq<int>)
  {
    && |adj| == n && |parentMap| == n
    && (forall u :: 0 <= u < n ==> Distinct(adj[u]) && u !in adj[u] && Elements(adj[u]) - {parentMap[u]} == Children(parentMap, u))
    && (forall u, m :: 0 <= u < n && 0 <= m < |adj[u]| ==> 0 <= adj[u][m] < n)
  }

  /** Each node's list of neighbours, without its parent, is exactly its children. */
  lemma ChildLists(n: nat, adj: seq<seq<int>>, parentMap: seq<int>, order: seq<int>)
    requires RootedTree(n, adj, parentMap, order)
    ensures ChildrenListed(n, adj, parentMap)
  {
    forall u | 0 <= u < n
      ensures u !in adj[u] && Elements(adj[u]) - {parentMap[u]} == Children(parentMap, u)
    {
    }
  }

  /**
    Lines 173-177 for one node `u`: its flow becomes 1 plus the flow of
    every listed neighbour other than `parent`.
   */
  method AddChildren(flow: array<int>, u: int, neighbours: seq<int>, parent: int)
    requires 0 <= u < flow.Length && u !in neighbours
    requires forall m :: 0 <= m < |neighbours| ==> 0 <= neighbours[m] < flow.Length
    modifies flow
    ensures flow[..] == old(flow[..])[u := 1 + ListSum(neighbours, parent, old(flow[..]))]
  {
    ghost var F := flow[..];
    flow[u] := 1;
    for m := 0 to |neighbours|
      invariant flow[..] == F[u := 1 + ListSum(neighbours[..m], parent, F)]
    {
      var v := neighbours[m];
      assert neighbours[..m + 1][..m] == neighbours[..m];
      if parent != v {
        flow[u] := flow[u] + flow[v];
      }
    }
    assert neighbours[..|neighbours|] == neighbours;
  }

  /** What `Flow` computes: 1 plus the children's flow at every node, and all `n` nodes at the mouth. */
  ghost predicate FlowOf(n: nat, parentMap: seq<int>, flow: seq<int>)
  {
    && |flow| == n && n >= 1
    && (forall u :: 0 <= u < n ==> flow[u] == 1 + SetSum(Children(parentMap, u), flow) && 1 <= flow[u] <= n)
    && flow[0] == n
  }

  /** Flow grows downstream: a node's parent carries strictly more than the node. */
  lemma FlowGrows(n: nat, parentMap: seq<int>, order: seq<int>, flow: seq<int>, v: int)
    requires Ordered(n, parentMap, order) && FlowOf(n, parentMap, flow) && 0 < v < n
    ensures 0 <= parentMap[v] < n && flow[v] < flow[parentMap[v]]
  {
    var k := PositionOf(order, v);
    assert 0 <= parentMap[order[k]] < n;
    var p := parentMap[v];
    assert v in Children(parentMap, p);
    SumAtLeast(Children(parentMap, p), flow, n);
  }

  // ---------------------------------------------------------------------------
  // Width grading
  // ---------------------------------------------------------------------------

  /** Line 183: the end of a tree edge taken as its downstream end. */
  function Downstream(parentMap: seq<int>, e: Edge): (d: int)
    requires 0 <= e.u < |parentMap|
    ensures d == e.u || d == e.v
  {
    if parentMap[e.u] == e.v then e.v else e.u
  }

  /** The other end of an edge. */
  function Upstream(e: Edge, d: int): int
  {
    if d == e.v then e.u else e.v
  }

  /** Lines 184-185: `Lerp(minRiverWidth, maxRiverWidth, (float)flow[downstream] / nodes.Count)`. */
  function EdgeWidth(minRiverWidth: real, maxRiverWidth: real, parentMap: seq<int>, flow: seq<int>, e: Edge): real
    requires 0 <= e.u < |parentMap| && 0 <= e.v < |parentMap| && |flow| == |parentMap| > 0
  {
    Lerp(minRiverWidth, maxRiverWidth, flow[Downstream(parentMap, e)] as real / |flow| as real)
  }

  /** The downstream end of a tree edge is the parent end: the other end hangs below it. */
  lemma DownstreamIsParent(n: nat, tree: seq<Edge>, parentMap: seq<int>, order: seq<int>, e: Edge)
    requires EdgesWithin(n, tree) && DistinctPairs(tree) && e in tree
    requires RootedTree(n, Adjacency(n, tree), parentMap, order)
    ensures 0 <= e.u < n && 0 <= e.v < n
    ensures parentMap[Upstream(e, Downstream(parentMap, e))] == Downstream(parentMap, e)
  {
    var k :| 0 <= k < |tree| && tree[k] == e;
    AdjacencyMeans(n, tree);
    assert Joins(tree[k], e.u, e.v);
    assert Joined(tree, e.u, e.v);
  }

  /**
    Each tree edge's flow ratio lies in `[2 / n, 1]`, so its width lies
    between the two widths; an edge at the mouth has ratio 1 and the
    largest width.
   */
  lemma EdgeWidthBounds(n: nat, parentMap: seq<int>, order: seq<int>, flow: seq<int>,
                        minRiverWidth: real, maxRiverWidth: real, e: Edge)
    requires Ordered(n, parentMap, order) && FlowOf(n, parentMap, flow)
    requires 0 <= e.u < n && 0 <= e.v < n
    requires parentMap[Upstream(e, Downstream(parentMap, e))] == Downstream(parentMap, e)
    ensures 2.0 / n as real <= flow[Downstream(parentMap, e)] as real / n as real <= 1.0
    ensures minRiverWidth <= maxRiverWidth ==>
              minRiverWidth <= EdgeWidth(minRiverWidth, maxRiverWidth, parentMap, flow, e) <= maxRiverWidth
    ensures e.u == 0 || e.v == 0 ==>
              Downstream(parentMap, e) == 0 && EdgeWidth(minRiverWidth, maxRiverWidth, parentMap, flow, e) == maxRiverWidth
  {
    var d := Downstream(parentMap, e);
    var up := Upstream(e, d);
    assert up != 0;
    FlowGrows(n, parentMap, order, flow, up);
    var ratio := flow[d] as real / n as real;
    assert 2.0 <= flow[d] as real <= n as real;
    RatioBetween(flow[d] as real, n as real);
    LerpBetween(minRiverWidth, maxRiverWidth, ratio);
    if e.u == 0 || e.v == 0 {
      assert d == 0;
      assert ratio == 1.0;
    }
  }

  lemma RatioBetween(f: real, n: real)
    requires 2.0 <= f <= n
    ensures 2.0 / n <= f / n <= 1.0
  {
  }
}
