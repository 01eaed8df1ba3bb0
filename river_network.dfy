/**
  The river network of `GenerateRiverMask`: the complete graph on the chosen
  nodes, Kruskal's minimum spanning tree over its edges sorted by length, the
  tree's adjacency lists, the breadth-first parent map from the lowest node
  (node 0, the river mouth), the "flow" of every node (the number of nodes
  upstream of it, itself included) and the width each tree edge is drawn
  with.
 */
module RiverNetwork {
  import opened Common
  import opened Sorting
  import opened UnionFind

  /** An `Edge`: two node indices and `Vector2.Distance` between the nodes. */
  datatype Edge = Edge(u: int, v: int, distance: real)

  /** Every edge joins two of the nodes `0 .. n - 1`. */
  predicate EdgesWithin(n: int, edges: seq<Edge>)
  {
    forall k :: 0 <= k < |edges| ==> 0 <= edges[k].u < n && 0 <= edges[k].v < n
  }

  /** Edge `e` joins `a` and `b`, in either direction. */
  predicate Joins(e: Edge, a: int, b: int)
  {
    (e.u == a && e.v == b) || (e.u == b && e.v == a)
  }

  /** `Vector2.Distance` between two grid cells. */
  function Distance(sqrt: real -> real, a: Int2, b: Int2): real
  {
    sqrt(((a.x - b.x) * (a.x - b.x) + (a.y - b.y) * (a.y - b.y)) as real)
  }

  // ---------------------------------------------------------------------------
  // The complete graph
  // ---------------------------------------------------------------------------

  /** The number of pairs `i < j < n` with `i < rows`: the edges the nested loops add in their first `rows` rows. */
  function PairCount(n: nat, rows: nat): nat
    requires rows <= n
  {
    if rows == 0 then 0 else PairCount(n, rows - 1) + (n - rows)
  }

  /** In closed form: `rows * (2n - rows - 1) / 2`, so `n * (n - 1) / 2` for all `n` rows. */
  lemma {:induction false} PairCountClosed(n: nat, rows: nat)
    requires rows <= n
    ensures 2 * PairCount(n, rows) == rows * (2 * n - rows - 1)
  {
    if rows > 0 {
      var r := rows - 1;
      PairCountClosed(n, r);
      var m := 2 * n - r - 2;
      assert rows * (2 * n - rows - 1) == (r + 1) * m;
      assert (r + 1) * m == r * m + m;
      assert r * (2 * n - r - 1) == r * (m + 1) == r * m + r;
    }
  }

  /** The position of pair `(a, b)` among the edges: the rows before `a`, then `b`'s place in row `a`. */
  function PairIndex(n: nat, a: nat, b: nat): nat
    requires a < b < n
  {
    PairCount(n, a) + (b - a - 1)
  }

  /** A pair of an earlier row lies before the start of row `rows`. */
  lemma {:induction false} PairIndexBelow(n: nat, a: nat, b: nat, rows: nat)
    requires a < b < n && a < rows <= n
    ensures PairIndex(n, a, b) < PairCount(n, rows)
  {
    if rows > a + 1 {
      PairIndexBelow(n, a, b, rows - 1);
    }
  }

  /**
    Lines 113-118: the nested loops add every pair `i < j` of nodes once, with
    its distance, row by row: `n * (n - 1) / 2` edges, pair `(a, b)` at
    position `PairIndex(n, a, b)`.
   */
  method BuildEdges(nodes: seq<Int2>, sqrt: real -> real) returns (edges: seq<Edge>)
    ensures 2 * |edges| == |nodes| * (|nodes| - 1)
    ensures forall k :: 0 <= k < |edges| ==>
              0 <= edges[k].u < edges[k].v < |nodes| && edges[k].distance == Distance(sqrt, nodes[edges[k].u], nodes[edges[k].v])
    ensures forall a, b :: 0 <= a < b < |nodes| ==>
              PairIndex(|nodes|, a, b) < |edges| && edges[PairIndex(|nodes|, a, b)].u == a && edges[PairIndex(|nodes|, a, b)].v == b
  {
    var n := |nodes|;
    edges := [];
    for i := 0 to n
      invariant |edges| == PairCount(n, i)
      invariant forall k :: 0 <= k < |edges| ==>
                  0 <= edges[k].u < i && edges[k].u < edges[k].v < n && edges[k].distance == Distance(sqrt, nodes[edges[k].u], nodes[edges[k].v])
      invariant forall a, b :: 0 <= a < i && a < b < n ==>
                  PairIndex(n, a, b) < |edges| && edges[PairIndex(n, a, b)].u == a && edges[PairIndex(n, a, b)].v == b
    {
      forall a, b | 0 <= a < i && a < b < n
        ensures PairIndex(n, a, b) < PairCount(n, i)
      {
        PairIndexBelow(n, a, b, i);
      }
      for j := i + 1 to n
        invariant |edges| == PairCount(n, i) + (j - i - 1)
        invariant forall k :: 0 <= k < |edges| ==>
                    0 <= edges[k].u <= i && edges[k].u < edges[k].v < n && edges[k].distance == Distance(sqrt, nodes[edges[k].u], nodes[edges[k].v])
        invariant forall a, b :: 0 <= a < i && a < b < n ==>
                    PairIndex(n, a, b) < PairCount(n, i) && edges[PairIndex(n, a, b)].u == a && edges[PairIndex(n, a, b)].v == b
        invariant forall b :: i < b < j ==>
                    PairIndex(n, i, b) < |edges| && edges[PairIndex(n, i, b)].u == i && edges[PairIndex(n, i, b)].v == b
      {
        edges := edges + [Edge(i, j, Distance(sqrt, nodes[i], nodes[j]))];
      }
    }
    PairCountClosed(n, n);
  }

  /** `edges.Sort` by distance, as a stable ascending sort. */
  function SortByDistance(edges: seq<Edge>): (sorted: seq<Edge>)
    ensures multiset(sorted) == multiset(edges)
    ensures forall i, j :: 0 <= i < j < |sorted| ==> sorted[i].distance <= sorted[j].distance
  {
    var r := SortBy(edges, (e: Edge) => e.distance);
    assert Ascending(r, (e: Edge) => e.distance);
    r
  }

  /** Sorting keeps the edges, so every edge still joins two of the nodes. */
  lemma SortedWithin(n: int, edges: seq<Edge>)
    requires EdgesWithin(n, edges)
    ensures EdgesWithin(n, SortByDistance(edges))
    ensures forall e :: e in edges <==> e in SortByDistance(edges)
  {
    var sorted := SortByDistance(edges);
    forall e
      ensures e in edges <==> e in sorted
    {
      assert e in edges <==> e in multiset(edges);
      assert e in sorted <==> e in multiset(sorted);
    }
    forall k | 0 <= k < |sorted|
      ensures 0 <= sorted[k].u < n && 0 <= sorted[k].v < n
    {
      assert sorted[k] in edges;
    }
  }

  // ---------------------------------------------------------------------------
  // Kruskal
  // ---------------------------------------------------------------------------

  /** Set `R` of nodes is closed under the edges: each edge has both ends in `R` or neither. */
  ghost predicate Closed(R: set<int>, edges: seq<Edge>)
  {
    forall k :: 0 <= k < |edges| ==> (edges[k].u in R <==> edges[k].v in R)
  }

  /** Set `R` contains each class of `labels` whole or not at all. */
  ghost predicate Respects(R: set<int>, labels: seq<int>)
  {
    forall a, b :: 0 <= a < |labels| && 0 <= b < |labels| && labels[a] == labels[b] ==> (a in R <==> b in R)
  }

  /** The tree connects all `n` nodes: a set closed under its edges holding one node holds them all. */
  ghost predicate Spans(n: int, tree: seq<Edge>)
  {
    forall R: set<int> :: Closed(R, tree) ==> forall a, b :: 0 <= a < n && 0 <= b < n && a in R ==> b in R
  }

  /** With two nodes or more, every node is an end of some edge of a tree that spans them. */
  lemma EveryNodeTouched(n: int, tree: seq<Edge>, v: int)
    requires Spans(n, tree) && 2 <= n && 0 <= v < n
    ensures exists k :: 0 <= k < |tree| && (tree[k].u == v || tree[k].v == v)
  {
    var other := if v == 0 then 1 else 0;
    var R := {v};
    assert v in R && other !in R;
    assert !Closed(R, tree);
    var k :| 0 <= k < |tree| && !(tree[k].u in R <==> tree[k].v in R);
    assert tree[k].u == v || tree[k].v == v;
  }

  /** No two edges join the same pair and no edge is a loop. */
  predicate DistinctPairs(edges: seq<Edge>)
  {
    && (forall k :: 0 <= k < |edges| ==> edges[k].u != edges[k].v)
    && (forall i, j :: 0 <= i < j < |edges| ==> !Joins(edges[j], edges[i].u, edges[i].v))
  }

  /** Every pair of distinct nodes is joined by some edge. */
  ghost predicate Connects(n: int, edges: seq<Edge>)
  {
    forall a, b :: 0 <= a < b < n ==> Joined(edges, a, b)
  }

  /** Some edge joins `a` and `b`. */
  ghost predicate Joined(edges: seq<Edge>, a: int, b: int)
  {
    exists k :: 0 <= k < |edges| && Joins(edges[k], a, b)
  }

  /** Each class under the identity labelling is one element, so there are `n` classes. */
  lemma IdentityClasses(n: nat)
    ensures |Classes(seq(n, i => i))| == n
    ensures forall R: set<int> :: Closed(R, []) ==> Respects(R, seq(n, i => i))
  {
    var labels := seq(n, i => i);
    assert Classes(labels) == RangeSet(n) by {
      forall c | c in RangeSet(n)
        ensures c in Classes(labels)
      {
        assert labels[c] == c;
      }
    }
    RangeSetSize(n);
  }

  /** The nodes `0 .. n - 1`. */
  function RangeSet(n: nat): (r: set<int>)
    ensures forall i :: i in r <==> 0 <= i < n
  {
    if n == 0 then {} else RangeSet(n - 1) + {n - 1}
  }

  lemma {:induction false} RangeSetSize(n: nat)
    ensures |RangeSet(n)| == n
  {
    if n > 0 {
      RangeSetSize(n - 1);
    }
  }

  /** Adding an edge whose ends the merge joins keeps every closed set respecting the classes. */
  lemma MergeRespects(labels: seq<int>, tree: seq<Edge>, e: Edge)
    requires 0 <= e.u < |labels| && 0 <= e.v < |labels|
    requires forall R: set<int> :: Closed(R, tree) ==> Respects(R, labels)
    ensures forall R: set<int> :: Closed(R, tree + [e]) ==> Respects(R, Merged(labels, labels[e.u], labels[e.v]))
  {
    var merged := Merged(labels, labels[e.u], labels[e.v]);
    forall R: set<int> | Closed(R, tree + [e])
      ensures Respects(R, merged)
    {
      assert Closed(R, tree) by {
        forall k | 0 <= k < |tree|
          ensures tree[k].u in R <==> tree[k].v in R
        {
          assert (tree + [e])[k] == tree[k];
        }
      }
      assert (tree + [e])[|tree|] == e;
      assert Respects(R, labels);
    }
  }

  /** After one Kruskal step the accepted edges still join distinct pairs. */
  lemma AcceptDistinct(labels: seq<int>, tree: seq<Edge>, e: Edge)
    requires 0 <= e.u < |labels| && 0 <= e.v < |labels| && labels[e.u] != labels[e.v]
    requires EdgesWithin(|labels|, tree) && DistinctPairs(tree)
    requires forall k :: 0 <= k < |tree| ==> labels[tree[k].u] == labels[tree[k].v]
    ensures DistinctPairs(tree + [e])
  {
    var all := tree + [e];
    forall i, j | 0 <= i < j < |all|
      ensures !Joins(all[j], all[i].u, all[i].v)
    {
      if j == |tree| {
        assert all[i] == tree[i];
      } else {
        assert all[i] == tree[i] && all[j] == tree[j];
      }
    }
  }

  /** What the Kruskal loop keeps after the first `k` edges. */
  ghost predicate KruskalInvariant(n: nat, edges: seq<Edge>, k: nat, tree: seq<Edge>, labels: seq<int>)
  {
    && EdgesWithin(n, edges) && k <= |edges| && |labels| == n
    && EdgesWithin(n, tree) && DistinctPairs(tree)
    && (forall m :: 0 <= m < |tree| ==> tree[m] in edges)
    && (forall m :: 0 <= m < k ==> labels[edges[m].u] == labels[edges[m].v])
    && (forall m :: 0 <= m < |tree| ==> labels[tree[m].u] == labels[tree[m].v])
    && |tree| + |Classes(labels)| == n
    && (forall R: set<int> :: Closed(R, tree) ==> Respects(R, labels))
  }

  /** Edge `k` accepted: the invariant holds for `k + 1` with the merged labels. */
  lemma AcceptStep(n: nat, edges: seq<Edge>, k: nat, tree: seq<Edge>, labels: seq<int>)
    requires EdgesWithin(n, edges) && k < |edges|
    requires KruskalInvariant(n, edges, k, tree, labels)
    requires labels[edges[k].u] != labels[edges[k].v]
    ensures KruskalInvariant(n, edges, k + 1, tree + [edges[k]], Merged(labels, labels[edges[k].u], labels[edges[k].v]))
  {
    var e := edges[k];
    var merged := Merged(labels, labels[e.u], labels[e.v]);
    var all := tree + [e];
    MergedClasses(labels, e.u, e.v);
    MergeRespects(labels, tree, e);
    AcceptDistinct(labels, tree, e);
    forall m | 0 <= m < |all|
      ensures all[m] in edges && 0 <= all[m].u < n && 0 <= all[m].v < n
      ensures merged[all[m].u] == merged[all[m].v]
    {
      if m < |tree| {
        assert all[m] == tree[m];
      }
    }
  }

  /** Edge `k` rejected: its ends already share a class. */
  lemma RejectStep(n: nat, edges: seq<Edge>, k: nat, tree: seq<Edge>, labels: seq<int>)
    requires EdgesWithin(n, edges) && k < |edges|
    requires KruskalInvariant(n, edges, k, tree, labels)
    requires labels[edges[k].u] == labels[edges[k].v]
    ensures KruskalInvariant(n, edges, k + 1, tree, labels)
  {
  }

  /** With every pair joined by some edge, at the end there is one class: `n - 1` tree edges spanning all nodes. */
  lemma KruskalDone(n: nat, edges: seq<Edge>, tree: seq<Edge>, labels: seq<int>)
    requires n >= 1 && EdgesWithin(n, edges) && Connects(n, edges)
    requires KruskalInvariant(n, edges, |edges|, tree, labels)
    ensures |tree| == n - 1
    ensures Spans(n, tree)
  {
    forall a | 0 < a < n
      ensures labels[a] == labels[0]
    {
      assert Joined(edges, 0, a);
      var m :| 0 <= m < |edges| && Joins(edges[m], 0, a);
    }
    assert Classes(labels) == {labels[0]} by {
      forall c | c in Classes(labels)
        ensures c == labels[0]
      {
        var a :| 0 <= a < |labels| && labels[a] == c;
      }
    }
    forall R: set<int> | Closed(R, tree)
      ensures forall a, b :: 0 <= a < n && 0 <= b < n && a in R ==> b in R
    {
      assert Respects(R, labels);
    }
  }

  /** The list `BuildEdges` produces, holding the pair `(a, b)` at `PairIndex`, joins every two nodes. */
  lemma CompleteConnects(n: nat, edges: seq<Edge>)
    requires forall a, b :: 0 <= a < b < n ==>
               PairIndex(n, a, b) < |edges| && edges[PairIndex(n, a, b)].u == a && edges[PairIndex(n, a, b)].v == b
    ensures Connects(n, edges)
  {
    forall a, b | 0 <= a < b < n
      ensures Joined(edges, a, b)
    {
      assert Joins(edges[PairIndex(n, a, b)], a, b);
    }
  }

  /** Sorting keeps every edge, so a list that joins every two nodes still does. */
  lemma SortedConnects(n: int, edges: seq<Edge>)
    requires EdgesWithin(n, edges) && Connects(n, edges)
    ensures Connects(n, SortByDistance(edges))
  {
    var sorted := SortByDistance(edges);
    SortedWithin(n, edges);
    forall a, b | 0 <= a < b < n
      ensures Joined(sorted, a, b)
    {
      assert Joined(edges, a, b);
      var k :| 0 <= k < |edges| && Joins(edges[k], a, b);
      assert edges[k] in sorted;
      var m :| 0 <= m < |sorted| && sorted[m] == edges[k];
    }
  }

  /**
    Lines 121-135: Kruskal's loop over the sorted edges with the disjoint-set
    forest. An edge joins the tree exactly when its ends are in different
    classes; accepted edges join distinct pairs; tree edges plus classes
    always number `n`; and when the edges connect every pair, the tree has
    `n - 1` edges and spans all nodes.
   */
  method SpanningTree(n: nat, edges: seq<Edge>) returns (tree: seq<Edge>)
    requires EdgesWithin(n, edges)
    ensures EdgesWithin(n, tree) && DistinctPairs(tree)
    ensures forall m :: 0 <= m < |tree| ==> tree[m] in edges
    ensures |tree| < n || n == 0
    ensures n >= 1 && Connects(n, edges) ==> |tree| == n - 1 && Spans(n, tree)
  {
    var forest := new DisjointSets(n);
    tree := [];
    IdentityClasses(n);
    for k := 0 to |edges|
      invariant forest.Valid() && forest.parent.Length == n
      invariant KruskalInvariant(n, edges, k, tree, forest.Roots())
    {
      var e := edges[k];
      var rootU := forest.Find(e.u);
      var rootV := forest.Find(e.v);
      if rootU != rootV {
        AcceptStep(n, edges, k, tree, forest.Roots());
        forest.Unite(e.u, e.v);
        tree := tree + [e];
      } else {
        RejectStep(n, edges, k, tree, forest.Roots());
      }
    }
    ClassesNonEmpty(forest.Roots());
    if n >= 1 && Connects(n, edges) {
      KruskalDone(n, edges, tree, forest.Roots());
    }
  }

  /** A non-empty labelling has at least one class. */
  lemma ClassesNonEmpty(labels: seq<int>)
    ensures |labels| > 0 ==> |Classes(labels)| >= 1
  {
    if |labels| > 0 {
      assert labels[0] in Classes(labels);
    }
  }

  // ---------------------------------------------------------------------------
  // Adjacency
  // ---------------------------------------------------------------------------

  /** The adjacency lists after adding the first `|tree|` edges, each edge to both ends' lists. */
  function Adjacency(n: nat, tree: seq<Edge>): (adj: seq<seq<int>>)
    requires EdgesWithin(n, tree)
    ensures |adj| == n
  {
    if |tree| == 0 then seq(n, _ => [])
    else
      var e := tree[|tree| - 1];
      var adj := Adjacency(n, tree[..|tree| - 1]);
      var withV := adj[e.u := adj[e.u] + [e.v]];
      withV[e.v := withV[e.v] + [e.u]]
  }

  /** `v` is in `u`'s list exactly when some edge joins them. */
  lemma {:induction false} AdjacencyExact(n: nat, tree: seq<Edge>)
    requires EdgesWithin(n, tree)
    ensures forall u, v :: 0 <= u < n ==> (v in Adjacency(n, tree)[u] <==> exists k :: 0 <= k < |tree| && Joins(tree[k], u, v))
  {
    if |tree| > 0 {
      var prefix := tree[..|tree| - 1];
      AdjacencyExact(n, prefix);
      forall u, v | 0 <= u < n
        ensures v in Adjacency(n, tree)[u] <==> exists k :: 0 <= k < |tree| && Joins(tree[k], u, v)
      {
        if exists k :: 0 <= k < |prefix| && Joins(prefix[k], u, v) {
          var k :| 0 <= k < |prefix| && Joins(prefix[k], u, v);
          assert tree[k] == prefix[k];
        }
        if exists k :: 0 <= k < |tree| && Joins(tree[k], u, v) {
          var k :| 0 <= k < |tree| && Joins(tree[k], u, v);
          if k < |prefix| {
            assert prefix[k] == tree[k];
          }
        }
      }
    }
  }

  /** `adj` holds the adjacency lists of `tree`: `v` is in `u`'s list exactly when a tree edge joins them. */
  ghost predicate AdjacencyOf(n: nat, tree: seq<Edge>, adj: seq<seq<int>>)
  {
    |adj| == n && forall u, v :: 0 <= u < n ==> (v in adj[u] <==> Joined(tree, u, v))
  }

  /** The lists the loop builds are the tree's adjacency lists. */
  lemma AdjacencyMeans(n: nat, tree: seq<Edge>)
    requires EdgesWithin(n, tree)
    ensures AdjacencyOf(n, tree, Adjacency(n, tree))
  {
    AdjacencyExact(n, tree);
  }

  /** Every entry of every list is a node. */
  lemma {:induction false} AdjacencyWithin(n: nat, tree: seq<Edge>)
    requires EdgesWithin(n, tree)
    ensures forall u, m :: 0 <= u < n && 0 <= m < |Adjacency(n, tree)[u]| ==> 0 <= Adjacency(n, tree)[u][m] < n
  {
    AdjacencyExact(n, tree);
    forall u, m | 0 <= u < n && 0 <= m < |Adjacency(n, tree)[u]|
      ensures 0 <= Adjacency(n, tree)[u][m] < n
    {
      var v := Adjacency(n, tree)[u][m];
      assert v in Adjacency(n, tree)[u];
    }
  }

  /** With distinct pairs and no loops, no list names a neighbour twice. */
  lemma {:induction false} AdjacencyDistinct(n: nat, tree: seq<Edge>)
    requires EdgesWithin(n, tree) && DistinctPairs(tree)
    ensures forall u, i, j :: 0 <= u < n && 0 <= i < j < |Adjacency(n, tree)[u]| ==> Adjacency(n, tree)[u][i] != Adjacency(n, tree)[u][j]
  {
    if |tree| > 0 {
      var prefix := tree[..|tree| - 1];
      var e := tree[|tree| - 1];
      assert DistinctPairs(prefix) by {
        forall i, j | 0 <= i < j < |prefix|
          ensures !Joins(prefix[j], prefix[i].u, prefix[i].v)
        {
          assert prefix[i] == tree[i] && prefix[j] == tree[j];
        }
      }
      AdjacencyDistinct(n, prefix);
      AdjacencyExact(n, prefix);
      var adj := Adjacency(n, prefix);
      forall k | 0 <= k < |prefix|
        ensures !Joins(prefix[k], e.u, e.v) && !Joins(prefix[k], e.v, e.u)
      {
        assert tree[k] == prefix[k];
      }
      assert e.v !in adj[e.u] && e.u !in adj[e.v];
      assert e.u != e.v;
    }
  }

  /** Lines 141-146: an empty list per node, then each tree edge added to both of its ends' lists. */
  method BuildAdjacency(n: nat, tree: seq<Edge>) returns (adj: seq<seq<int>>)
    requires EdgesWithin(n, tree)
    ensures adj == Adjacency(n, tree)
  {
    adj := [];
    for i := 0 to n
      invariant adj == seq(i, _ => [])
    {
      adj := adj + [[]];
    }
    for k := 0 to |tree|
      invariant |adj| == n
      invariant adj == Adjacency(n, tree[..k])
    {
      var e := tree[k];
      assert tree[..k + 1][..k] == tree[..k];
      adj := adj[e.u := adj[e.u] + [e.v]];
      adj := adj[e.v := adj[e.v] + [e.u]];
    }
    assert tree[..|tree|] == tree;
  }
}
