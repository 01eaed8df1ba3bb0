/**
  The breadth-first walk of `GenerateRiverMask` over the spanning tree's
  adjacency lists, from node 0 (the lowest node, the river mouth): it fills
  `parentMap` (-1 for unvisited, -2 for the root, otherwise the node a node
  was reached from) and records the visiting order `bfsOrder`. Over a
  spanning tree the walk visits every node, and the tree's neighbours of a
  node other than its parent are exactly its children in `parentMap`.
 */
module RiverTree {
  import opened UnionFind
  import opened RiverNetwork

  /** No value occurs twice in `s`. */
  predicate Distinct(s: seq<int>)
  {
    forall i, j :: 0 <= i < j < |s| ==> s[i] != s[j]
  }

  /** `n` adjacency lists whose entries are all nodes. */
  predicate ListsWithin(n: nat, adj: seq<seq<int>>)
  {
    |adj| == n && forall u, m :: 0 <= u < n && 0 <= m < |adj[u]| ==> 0 <= adj[u][m] < n
  }

  /** The values in `s`. */
  function Elements(s: seq<int>): set<int>
  {
    set x | x in s
  }

  /** A sequence without repetitions has as many values as positions. */
  lemma {:induction false} DistinctElements(s: seq<int>)
    requires Distinct(s)
    ensures |Elements(s)| == |s|
  {
    if |s| > 0 {
      var front := s[..|s| - 1];
      assert Distinct(front);
      DistinctElements(front);
      assert Elements(s) == Elements(front) + {s[|s| - 1]} by {
        assert s == front + [s[|s| - 1]];
      }
      assert s[|s| - 1] !in Elements(front);
    }
  }

  /** A subset is no larger, and one as large as its superset is all of it. */
  lemma SubsetCard(a: set<int>, b: set<int>)
    requires a <= b
    ensures |a| <= |b|
    ensures |a| == |b| ==> a == b
  {
    assert b == a + (b - a);
    if |a| == |b| {
      assert |b - a| == 0;
    }
  }

  /** Distinct nodes below `n` number at most `n`. */
  lemma DistinctBound(s: seq<int>, n: nat)
    requires Distinct(s) && forall k :: 0 <= k < |s| ==> 0 <= s[k] < n
    ensures |s| <= n
  {
    DistinctElements(s);
    RangeSetSize(n);
    SubsetCard(Elements(s), RangeSet(n));
  }

  /**
    The walk so far: node 0 first with parent -2; the order lists distinct
    nodes, exactly those whose parent entry is no longer -1; and every later
    node was reached from a neighbour listed before it.
   */
  ghost predicate Visited(n: nat, adj: seq<seq<int>>, parentMap: seq<int>, order: seq<int>)
  {
    && n >= 1 && ListsWithin(n, adj) && |parentMap| == n
    && 1 <= |order| && order[0] == 0 && parentMap[0] == -2
    && Distinct(order) && (forall k :: 0 <= k < |order| ==> 0 <= order[k] < n)
    && (forall v :: 0 <= v < n ==> (parentMap[v] != -1 <==> v in order))
    && (forall k {:trigger parentMap[order[k]]} :: 0 < k < |order| ==>
          0 <= parentMap[order[k]] < n && order[k] in adj[parentMap[order[k]]] && parentMap[order[k]] in order[..k])
  }

  /** The first `head` listed nodes have had all their neighbours visited. */
  ghost predicate Expanded(adj: seq<seq<int>>, parentMap: seq<int>, order: seq<int>, head: int)
  {
    && 0 <= head <= |order|
    && (forall k :: 0 <= k < head ==> 0 <= order[k] < |adj|)
    && (forall k, m :: 0 <= k < head && 0 <= m < |adj[order[k]]| ==>
          0 <= adj[order[k]][m] < |parentMap| && parentMap[adj[order[k]][m]] != -1)
  }

  /** What the walk leaves behind: every listed node expanded. */
  ghost predicate BfsResult(n: nat, adj: seq<seq<int>>, parentMap: seq<int>, order: seq<int>)
  {
    Visited(n, adj, parentMap, order) && Expanded(adj, parentMap, order, |order|)
  }

  /** Visiting neighbour `v` of the node at position `head` keeps the walk's invariant. */
  lemma VisitStep(n: nat, adj: seq<seq<int>>, parentMap: seq<int>, order: seq<int>, head: int, v: int)
    requires Visited(n, adj, parentMap, order) && Expanded(adj, parentMap, order, head) && head < |order|
    requires 0 <= v < n && v in adj[order[head]] && parentMap[v] == -1
    ensures Visited(n, adj, parentMap[v := order[head]], order + [v])
    ensures Expanded(adj, parentMap[v := order[head]], order + [v], head)
  {
    var u := order[head];
    var p, o := parentMap[v := u], order + [v];
    assert v !in order;
    forall k | 0 < k < |o|
      ensures 0 <= p[o[k]] < n && o[k] in adj[p[o[k]]] && p[o[k]] in o[..k]
    {
      if k < |order| {
        assert o[k] == order[k] && o[k] != v;
        assert o[..k] == order[..k];
      } else {
        assert o[head] == u;
      }
    }
    forall w | 0 <= w < n
      ensures p[w] != -1 <==> w in o
    {
    }
  }

  /**
    Lines 148-168: `parentMap` all -1, the root enqueued and listed with
    parent -2, then each dequeued node enqueues and lists every neighbour
    still at -1, recording itself as that neighbour's parent.
   */
  method BreadthFirst(n: nat, adj: seq<seq<int>>) returns (parentMap: array<int>, order: seq<int>)
    requires n >= 1 && ListsWithin(n, adj)
    ensures BfsResult(n, adj, parentMap[..], order)
  {
    parentMap := new int[n];
    for i := 0 to n
      invariant forall v :: 0 <= v < i ==> parentMap[v] == -1
    {
      parentMap[i] := -1;
    }
    var queue := [0];
    order := [0];
    parentMap[0] := -2;
    while |queue| > 0
      invariant parentMap.Length == n && |order| <= n
      invariant |queue| <= |order| && queue == order[|order| - |queue|..]
      invariant Visited(n, adj, parentMap[..], order)
      invariant Expanded(adj, parentMap[..], order, |order| - |queue|)
      decreases n - |order| + |queue|
    {
      var head := |order| - |queue|;
      var u := queue[0];
      assert u == order[head];
      queue, order := VisitNeighbours(n, adj, parentMap, queue[1..], order, head);
      DistinctBound(order, n);
    }
  }

  /**
    Lines 160-166, the body of the walk: node `u = order[head]` taken off
    the queue, each neighbour still at -1 gets parent `u` and is enqueued and
    listed; afterwards `u` is expanded too.
   */
  method VisitNeighbours(n: nat, adj: seq<seq<int>>, parentMap: array<int>, queue: seq<int>, order: seq<int>, head: int)
    returns (queue': seq<int>, order': seq<int>)
    requires parentMap.Length == n && Visited(n, adj, parentMap[..], order)
    requires Expanded(adj, parentMap[..], order, head) && head < |order| && queue == order[head + 1..]
    modifies parentMap
    ensures Visited(n, adj, parentMap[..], order') && Expanded(adj, parentMap[..], order', head + 1)
    ensures |order| <= |order'| && queue' == order'[head + 1..]
  {
    var u := order[head];
    queue', order' := queue, order;
    ghost var P := parentMap[..];
    for m := 0 to |adj[u]|
      invariant P == parentMap[..]
      invariant head < |order'| && order'[head] == u && queue' == order'[head + 1..]
      invariant |order| <= |order'|
      invariant Visited(n, adj, P, order') && Expanded(adj, P, order', head)
      invariant NeighboursVisited(adj, P, u, m)
    {
      var v := adj[u][m];
      if parentMap[v] == -1 {
        VisitStep(n, adj, P, order', head, v);
        NeighboursStep(adj, P, u, m, u);
        parentMap[v] := u;
        P := P[v := u];
        AppendSuffix(order', v, head + 1);
        queue' := queue' + [v];
        order' := order' + [v];
      } else {
        NeighboursStep(adj, P, u, m, P[v]);
      }
    }
    ExpandedStep(n, adj, P, order', head);
  }

  /** The first `m` neighbours of `u` are visited. */
  ghost predicate NeighboursVisited(adj: seq<seq<int>>, parentMap: seq<int>, u: int, m: int)
  {
    && 0 <= u < |adj| && 0 <= m <= |adj[u]|
    && forall m' :: 0 <= m' < m ==> 0 <= adj[u][m'] < |parentMap| && parentMap[adj[u][m']] != -1
  }

  /** Giving neighbour `m` of `u` a parent entry other than -1 extends the visited neighbours by one. */
  lemma NeighboursStep(adj: seq<seq<int>>, parentMap: seq<int>, u: int, m: int, x: int)
    requires NeighboursVisited(adj, parentMap, u, m) && m < |adj[u]| && 0 <= adj[u][m] < |parentMap| && x != -1
    requires parentMap[adj[u][m]] == -1 || x == parentMap[adj[u][m]]
    ensures NeighboursVisited(adj, parentMap[adj[u][m] := x], u, m + 1)
  {
  }

  /** Once all neighbours of the node at `head` are visited, the first `head + 1` nodes are expanded. */
  lemma ExpandedStep(n: nat, adj: seq<seq<int>>, parentMap: seq<int>, order: seq<int>, head: int)
    requires Visited(n, adj, parentMap, order) && Expanded(adj, parentMap, order, head) && head < |order|
    requires NeighboursVisited(adj, parentMap, order[head], |adj[order[head]]|)
    ensures Expanded(adj, parentMap, order, head + 1)
  {
  }

  /** Appending to a sequence appends to each of its suffixes. */
  lemma AppendSuffix(s: seq<int>, x: int, h: int)
    requires 0 <= h <= |s|
    ensures (s + [x])[h..] == s[h..] + [x]
  {
  }

  /** The parent of a listed node is listed strictly before it. */
  lemma ParentBefore(n: nat, adj: seq<seq<int>>, parentMap: seq<int>, order: seq<int>, i: int, j: int)
    requires BfsResult(n, adj, parentMap, order) && 0 <= i < |order| && 0 <= j < |order|
    ensures parentMap[order[i]] == order[j] ==> j < i
  {
    if i > 0 && parentMap[order[i]] == order[j] {
      var p :| 0 <= p < i && order[p] == parentMap[order[i]];
    }
  }

  /**
    Over a spanning tree the walk lists every node: the visited nodes are
    closed under the tree's edges and hold node 0. `bfsOrder` is then a
    permutation of the nodes.
   */
  lemma VisitsAll(n: nat, tree: seq<Edge>, adj: seq<seq<int>>, parentMap: seq<int>, order: seq<int>)
    requires EdgesWithin(n, tree) && Spans(n, tree) && AdjacencyOf(n, tree, adj) && BfsResult(n, adj, parentMap, order)
    ensures |order| == n
    ensures forall v :: 0 <= v < n ==> v in order && parentMap[v] != -1
  {
    var R := set v | 0 <= v < n && parentMap[v] != -1;
    assert Closed(R, tree) by {
      forall k | 0 <= k < |tree|
        ensures tree[k].u in R <==> tree[k].v in R
      {
        var a, b := tree[k].u, tree[k].v;
        assert Joins(tree[k], a, b) && Joins(tree[k], b, a);
        if 0 <= a < n && 0 <= b < n {
          assert Joined(tree, a, b) && Joined(tree, b, a);
          VisitedNeighbour(n, adj, parentMap, order, a, b);
          VisitedNeighbour(n, adj, parentMap, order, b, a);
        }
      }
    }
    assert 0 in R;
    forall v | 0 <= v < n
      ensures v in order && parentMap[v] != -1
    {
      assert v in R;
    }
    assert Elements(order) == RangeSet(n);
    DistinctElements(order);
    RangeSetSize(n);
  }

  /** A neighbour of a visited node is visited. */
  lemma VisitedNeighbour(n: nat, adj: seq<seq<int>>, parentMap: seq<int>, order: seq<int>, a: int, b: int)
    requires BfsResult(n, adj, parentMap, order) && 0 <= a < n && b in adj[a]
    ensures parentMap[a] != -1 ==> parentMap[b] != -1
  {
    if parentMap[a] != -1 {
      var k :| 0 <= k < |order| && order[k] == a;
      var m :| 0 <= m < |adj[a]| && adj[a][m] == b;
    }
  }

  /** The position of a listed node. */
  lemma PositionOf(order: seq<int>, v: int) returns (k: int)
    requires v in order
    ensures 0 <= k < |order| && order[k] == v
  {
    k :| 0 <= k < |order| && order[k] == v;
  }

  /** No two listed nodes are each other's parent. */
  lemma NoParentCycle(n: nat, adj: seq<seq<int>>, parentMap: seq<int>, order: seq<int>, a: int, b: int)
    requires BfsResult(n, adj, parentMap, order) && a in order && b in order
    ensures parentMap[a] == b ==> parentMap[b] != a
  {
    var ka := PositionOf(order, a);
    var kb := PositionOf(order, b);
    ParentBefore(n, adj, parentMap, order, ka, kb);
    ParentBefore(n, adj, parentMap, order, kb, ka);
  }

  /** Over a spanning tree every node but the root is joined by a tree edge to its parent. */
  lemma ParentsJoined(n: nat, tree: seq<Edge>, adj: seq<seq<int>>, parentMap: seq<int>, order: seq<int>)
    requires EdgesWithin(n, tree) && Spans(n, tree) && AdjacencyOf(n, tree, adj) && BfsResult(n, adj, parentMap, order)
    ensures forall v :: 0 <= v < n ==> v in order
    ensures forall v :: 0 < v < n ==> 0 <= parentMap[v] < n && Joined(tree, parentMap[v], v)
  {
    VisitsAll(n, tree, adj, parentMap, order);
    forall v | 0 < v < n
      ensures 0 <= parentMap[v] < n && Joined(tree, parentMap[v], v)
    {
      var k := PositionOf(order, v);
      assert parentMap[order[k]] == parentMap[v];
      assert v in adj[parentMap[v]];
    }
  }

  /** An edge that joins `a` and `b`. */
  ghost function LinkOf(tree: seq<Edge>, a: int, b: int): (k: int)
    requires Joined(tree, a, b)
    ensures 0 <= k < |tree| && Joins(tree[k], a, b)
  {
    var k :| 0 <= k < |tree| && Joins(tree[k], a, b); k
  }

  /** For each node `1 .. n - 1`, the edge joining it to its parent. */
  ghost function Links(n: nat, tree: seq<Edge>, parentMap: seq<int>): (links: seq<int>)
    requires n >= 1 && |parentMap| == n
    requires forall v :: 0 < v < n ==> Joined(tree, parentMap[v], v)
    ensures |links| == n - 1
    ensures forall i :: 0 <= i < n - 1 ==> 0 <= links[i] < |tree| && Joins(tree[links[i]], parentMap[i + 1], i + 1)
  {
    seq(n - 1, i requires 0 <= i < n - 1 => LinkOf(tree, parentMap[i + 1], i + 1))
  }

  /** Different nodes lead to different edges: no node is its parent's parent. */
  lemma LinksDistinct(n: nat, tree: seq<Edge>, adj: seq<seq<int>>, parentMap: seq<int>, order: seq<int>)
    requires BfsResult(n, adj, parentMap, order)
    requires forall v :: 0 <= v < n ==> v in order
    requires forall v :: 0 < v < n ==> Joined(tree, parentMap[v], v)
    ensures Distinct(Links(n, tree, parentMap))
  {
    var links := Links(n, tree, parentMap);
    forall i, j | 0 <= i < j < n - 1
      ensures links[i] != links[j]
    {
      NoParentCycle(n, adj, parentMap, order, i + 1, j + 1);
      SharedEdge(tree[links[i]], i + 1, parentMap[i + 1], j + 1, parentMap[j + 1]);
    }
  }

  /** An edge joining each of two different nodes to its parent joins them to each other. */
  lemma SharedEdge(e: Edge, a: int, pa: int, b: int, pb: int)
    requires Joins(e, pa, a) && a != b
    ensures Joins(e, pb, b) ==> pa == b && pb == a
  {
  }

  /** With `n - 1` tree edges, every edge is some node's parent link. */
  lemma LinksCover(n: nat, tree: seq<Edge>, parentMap: seq<int>)
    requires n >= 1 && |parentMap| == n && |tree| == n - 1
    requires forall v :: 0 < v < n ==> Joined(tree, parentMap[v], v)
    requires Distinct(Links(n, tree, parentMap))
    ensures forall k :: 0 <= k < |tree| ==> k in Elements(Links(n, tree, parentMap))
  {
    var links := Links(n, tree, parentMap);
    DistinctElements(links);
    RangeSetSize(n - 1);
    SubsetCard(Elements(links), RangeSet(n - 1));
  }

  /**
    Over a spanning tree of `n - 1` edges, the tree neighbours of `u` other
    than `parentMap[u]` are exactly the nodes whose parent is `u`. Each
    non-root node leads to the tree edge joining it to its parent, different
    nodes to different edges (no node is its parent's parent); so these
    `n - 1` edges are all the tree's edges, and an edge `(u, w)` with `w` not
    `u`'s parent is the one leading to `w`.
   */
  lemma TreeChildren(n: nat, tree: seq<Edge>, adj: seq<seq<int>>, parentMap: seq<int>, order: seq<int>)
    requires EdgesWithin(n, tree) && Spans(n, tree) && |tree| == n - 1 && AdjacencyOf(n, tree, adj) && BfsResult(n, adj, parentMap, order)
    ensures forall u, w :: 0 <= u < n && 0 <= w < n ==> (w in adj[u] && w != parentMap[u] <==> parentMap[w] == u)
  {
    ParentsJoined(n, tree, adj, parentMap, order);
    LinksDistinct(n, tree, adj, parentMap, order);
    LinksCover(n, tree, parentMap);
    forall u, w | 0 <= u < n && 0 <= w < n
      ensures w in adj[u] && w != parentMap[u] <==> parentMap[w] == u
    {
      if parentMap[w] == u {
        ChildIsNeighbour(n, adj, parentMap, order, u, w);
      }
      if w in adj[u] && w != parentMap[u] {
        NeighbourIsChild(n, tree, adj, parentMap, u, w);
      }
    }
  }

  /** A child of `u` is a neighbour of `u` other than its parent. */
  lemma ChildIsNeighbour(n: nat, adj: seq<seq<int>>, parentMap: seq<int>, order: seq<int>, u: int, w: int)
    requires BfsResult(n, adj, parentMap, order)
    requires forall v :: 0 <= v < n ==> v in order
    requires 0 <= u < n && 0 <= w < n && parentMap[w] == u
    ensures w in adj[u] && w != parentMap[u]
  {
    NoParentCycle(n, adj, parentMap, order, u, w);
    var kw := PositionOf(order, w);
    assert parentMap[order[kw]] == u;
  }

  /** A tree neighbour of `u` other than its parent is a child of `u`: the edge joining them is some node's parent link. */
  lemma NeighbourIsChild(n: nat, tree: seq<Edge>, adj: seq<seq<int>>, parentMap: seq<int>, u: int, w: int)
    requires n >= 1 && |parentMap| == n && AdjacencyOf(n, tree, adj)
    requires forall v :: 0 < v < n ==> Joined(tree, parentMap[v], v)
    requires forall k :: 0 <= k < |tree| ==> k in Elements(Links(n, tree, parentMap))
    requires 0 <= u < n && 0 <= w < n && w in adj[u] && w != parentMap[u]
    ensures parentMap[w] == u
  {
    var links := Links(n, tree, parentMap);
    assert Joined(tree, u, w);
    var k :| 0 <= k < |tree| && Joins(tree[k], u, w);
    assert k in Elements(links);
    var i :| 0 <= i < n - 1 && links[i] == k;
  }

  /**
    The walk over a spanning tree, as the flow loop relies on it: every node
    is listed once, no node is its own parent, the lists name no neighbour
    twice, and a neighbour other than the parent is exactly a child.
   */
  ghost predicate RootedTree(n: nat, adj: seq<seq<int>>, parentMap: seq<int>, order: seq<int>)
  {
    && BfsResult(n, adj, parentMap, order) && |order| == n
    && (forall u :: 0 <= u < n ==> u in order && parentMap[u] != u && Distinct(adj[u]))
    && (forall u, w :: 0 <= u < n && 0 <= w < n ==> (w in adj[u] && w != parentMap[u] <==> parentMap[w] == u))
  }

  /** The walk over the adjacency lists of a spanning tree with `n - 1` distinct edges is a rooted tree. */
  lemma SpanningTreeRooted(n: nat, tree: seq<Edge>, parentMap: seq<int>, order: seq<int>)
    requires EdgesWithin(n, tree) && DistinctPairs(tree) && Spans(n, tree) && |tree| == n - 1
    requires BfsResult(n, Adjacency(n, tree), parentMap, order)
    ensures RootedTree(n, Adjacency(n, tree), parentMap, order)
  {
    var adj := Adjacency(n, tree);
    AdjacencyMeans(n, tree);
    AdjacencyDistinct(n, tree);
    VisitsAll(n, tree, adj, parentMap, order);
    TreeChildren(n, tree, adj, parentMap, order);
    forall u | 0 <= u < n
      ensures u in order && parentMap[u] != u && Distinct(adj[u])
    {
      var k := PositionOf(order, u);
      ParentBefore(n, adj, parentMap, order, k, k);
    }
  }
}
