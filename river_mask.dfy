/**
  `GenerateRiverMask`: chooses the nodes, joins them by Kruskal's spanning
  tree over the complete graph, roots the tree at the lowest node by a
  breadth-first walk, counts each node's upstream flow and draws every
  tree edge with a width graded by the flow of its downstream end.
 */
module RiverMask {
  import opened Common
  import opened RiverNetwork
  import opened RiverTree
  import opened RiverFlow
  import opened RiverNodes
  import opened RiverDraw

  /** How `GenerateRiverMask` ends: one of its early returns, the exception of `First()`, or a finished river map. */
  datatype Outcome =
    | MissingTexture
    | Unreadable
    | MaskTooSmall
    | NoValidPoint
    | TooFewNodes
    | RiverMap(riverMap: array2<real>)

  /** Every cell of the map holds a value in `[0, 1]`. */
  ghost predicate InUnit(riverMap: array2<real>)
    reads riverMap
  {
    forall py, px :: 0 <= py < riverMap.Length0 && 0 <= px < riverMap.Length1 ==> 0.0 <= riverMap[py, px] <= 1.0
  }

  /** The width `GenerateRiverMask` gives tree edge `k`. */
  ghost predicate GradedWidths(minRiverWidth: real, maxRiverWidth: real, tree: seq<Edge>, widths: seq<real>)
  {
    && |widths| == |tree|
    && (minRiverWidth <= maxRiverWidth ==> forall k :: 0 <= k < |tree| ==> minRiverWidth <= widths[k] <= maxRiverWidth)
    && (forall k :: 0 <= k < |tree| && (tree[k].u == 0 || tree[k].v == 0) ==> widths[k] == maxRiverWidth)
  }

  /** Cell `c`, when it lies on the map, holds 1: the core of the river covers it. */
  ghost predicate OnRiver(riverMap: array2<real>, c: Int2)
    reads riverMap
  {
    OnMap(riverMap, c.y, c.x) ==> riverMap[c.y, c.x] == 1.0
  }

  /** Both end nodes of each of the first `k` tree edges lie on the river. */
  ghost predicate EndsOnRiver(riverMap: array2<real>, nodes: seq<Int2>, tree: seq<Edge>, k: int)
    requires EdgesWithin(|nodes|, tree) && k <= |tree|
    reads riverMap
  {
    forall j :: 0 <= j < k ==> OnRiver(riverMap, nodes[tree[j].u]) && OnRiver(riverMap, nodes[tree[j].v])
  }

  /**
    Lines 180-188: the value cell `cell` holds once the edges of `tree` are
    drawn in order over the value `v`, each with the width the flow of its
    downstream end gives it.
   */
  function RiverValue(sqrt: real -> real, minRiverWidth: real, maxRiverWidth: real, smoothingWidth: real,
                      nodes: seq<Int2>, parentMap: seq<int>, flow: seq<int>, tree: seq<Edge>, cell: Int2, v: real): real
    requires EdgesWithin(|nodes|, tree) && |parentMap| == |nodes| && |flow| == |nodes|
    decreases |tree|
  {
    if tree == [] then v
    else
      var e := tree[|tree| - 1];
      var before := RiverValue(sqrt, minRiverWidth, maxRiverWidth, smoothingWidth, nodes, parentMap, flow, tree[..|tree| - 1], cell, v);
      Drawn(sqrt, EdgeWidth(minRiverWidth, maxRiverWidth, parentMap, flow, e), smoothingWidth,
            Centres(sqrt, nodes[e.u], nodes[e.v]), cell, before)
  }

  /** Drawing the tree never lowers a cell and never lifts it above 1. */
  lemma {:induction false} RiverValueBetween(sqrt: real -> real, minRiverWidth: real, maxRiverWidth: real, smoothingWidth: real,
                                             nodes: seq<Int2>, parentMap: seq<int>, flow: seq<int>, tree: seq<Edge>, cell: Int2, v: real)
    requires EdgesWithin(|nodes|, tree) && |parentMap| == |nodes| && |flow| == |nodes| && 0.0 <= v <= 1.0
    ensures v <= RiverValue(sqrt, minRiverWidth, maxRiverWidth, smoothingWidth, nodes, parentMap, flow, tree, cell, v) <= 1.0
    decreases |tree|
  {
    if tree != [] {
      var e := tree[|tree| - 1];
      RiverValueBetween(sqrt, minRiverWidth, maxRiverWidth, smoothingWidth, nodes, parentMap, flow, tree[..|tree| - 1], cell, v);
      var before := RiverValue(sqrt, minRiverWidth, maxRiverWidth, smoothingWidth, nodes, parentMap, flow, tree[..|tree| - 1], cell, v);
      DrawnBetween(sqrt, EdgeWidth(minRiverWidth, maxRiverWidth, parentMap, flow, e), smoothingWidth,
                   Centres(sqrt, nodes[e.u], nodes[e.v]), cell, before);
    }
  }

  /** Widths and smoothing that are never negative. */
  predicate SolidWidths(minRiverWidth: real, maxRiverWidth: real, smoothingWidth: real)
  {
    0.0 <= minRiverWidth <= maxRiverWidth && 0.0 <= smoothingWidth
  }

  /** Lines 186-187 for one edge: the line between its end nodes drawn with `width`. */
  method DrawEdge(riverMap: array2<real>, resolution: int, a: Int2, b: Int2,
                  width: real, smoothingWidth: real, sqrt: real -> real)
    requires riverMap.Length0 == resolution && riverMap.Length1 == resolution && InUnit(riverMap)
    requires IsSqrt(sqrt) && a != b
    modifies riverMap
    ensures InUnit(riverMap)
    ensures forall py, px :: OnMap(riverMap, py, px) ==>
              && old(riverMap[py, px]) <= riverMap[py, px]
              && riverMap[py, px] == Drawn(sqrt, width, smoothingWidth, Centres(sqrt, a, b), Int2(px, py), old(riverMap[py, px]))
    ensures 0.0 <= width && 0.0 <= smoothingWidth ==> OnRiver(riverMap, a) && OnRiver(riverMap, b)
  {
    DrawRiver(riverMap, resolution, a, b, width, smoothingWidth, sqrt);
    forall py, px | OnMap(riverMap, py, px)
      ensures old(riverMap[py, px]) <= riverMap[py, px] <= 1.0
    {
      DrawnBetween(sqrt, width, smoothingWidth, Centres(sqrt, a, b), Int2(px, py), old(riverMap[py, px]));
    }
    if 0.0 <= width && 0.0 <= smoothingWidth {
      if OnMap(riverMap, a.y, a.x) && OnMap(riverMap, b.y, b.x) {
        LineCoversEnds(sqrt, width, smoothingWidth, a, b, old(riverMap[a.y, a.x]), old(riverMap[b.y, b.x]));
      } else if OnMap(riverMap, a.y, a.x) {
        LineCoversEnds(sqrt, width, smoothingWidth, a, b, old(riverMap[a.y, a.x]), 0.0);
      } else if OnMap(riverMap, b.y, b.x) {
        LineCoversEnds(sqrt, width, smoothingWidth, a, b, 0.0, old(riverMap[b.y, b.x]));
      }
    }
  }

  /** Lines 180-188: every tree edge drawn with the width its downstream flow gives it. */
  method DrawEdges(riverMap: array2<real>, resolution: int, nodes: seq<Int2>, tree: seq<Edge>,
                   parentMap: array<int>, order: seq<int>, flow: array<int>,
                   minRiverWidth: real, maxRiverWidth: real, smoothingWidth: real, sqrt: real -> real)
    returns (ghost widths: seq<real>)
    requires riverMap.Length0 == resolution && riverMap.Length1 == resolution && InUnit(riverMap)
    requires IsSqrt(sqrt) && DistinctCells(nodes) && EdgesWithin(|nodes|, tree) && DistinctPairs(tree)
    requires Ordered(|nodes|, parentMap[..], order) && FlowOf(|nodes|, parentMap[..], flow[..])
    requires forall k :: 0 <= k < |tree| ==>
               parentMap[..][Upstream(tree[k], Downstream(parentMap[..], tree[k]))] == Downstream(parentMap[..], tree[k])
    modifies riverMap
    ensures InUnit(riverMap)
    ensures GradedWidths(minRiverWidth, maxRiverWidth, tree, widths)
    ensures forall k :: 0 <= k < |tree| ==> widths[k] == EdgeWidth(minRiverWidth, maxRiverWidth, parentMap[..], flow[..], tree[k])
    ensures forall py, px :: OnMap(riverMap, py, px) ==>
              riverMap[py, px] == RiverValue(sqrt, minRiverWidth, maxRiverWidth, smoothingWidth, nodes, parentMap[..], flow[..],
                                             tree, Int2(px, py), old(riverMap[py, px]))
    ensures SolidWidths(minRiverWidth, maxRiverWidth, smoothingWidth) ==> EndsOnRiver(riverMap, nodes, tree, |tree|)
  {
    ghost var P, F := parentMap[..], flow[..];
    widths := [];
    for k := 0 to |tree|
      invariant InUnit(riverMap)
      invariant |widths| == k && GradedWidths(minRiverWidth, maxRiverWidth, tree[..k], widths)
      invariant forall j :: 0 <= j < k ==> widths[j] == EdgeWidth(minRiverWidth, maxRiverWidth, P, F, tree[j])
      invariant forall py, px :: OnMap(riverMap, py, px) ==>
                  riverMap[py, px] == RiverValue(sqrt, minRiverWidth, maxRiverWidth, smoothingWidth, nodes, P, F,
                                                 tree[..k], Int2(px, py), old(riverMap[py, px]))
      invariant SolidWidths(minRiverWidth, maxRiverWidth, smoothingWidth) ==> EndsOnRiver(riverMap, nodes, tree, k)
    {
      var e := tree[k];
      var downstreamNode := if parentMap[e.u] == e.v then e.v else e.u;
      var flowRatio := flow[downstreamNode] as real / |nodes| as real;
      var currentWidth := Lerp(minRiverWidth, maxRiverWidth, flowRatio);
      assert currentWidth == EdgeWidth(minRiverWidth, maxRiverWidth, P, F, e);
      EdgeWidthBounds(|nodes|, P, order, F, minRiverWidth, maxRiverWidth, e);
      label before:
      DrawEdge(riverMap, resolution, nodes[e.u], nodes[e.v], currentWidth, smoothingWidth, sqrt);
      assert tree[..k + 1][..k] == tree[..k] && tree[..k + 1][k] == e;
      forall py, px | OnMap(riverMap, py, px)
        ensures riverMap[py, px] == RiverValue(sqrt, minRiverWidth, maxRiverWidth, smoothingWidth, nodes, P, F,
                                               tree[..k + 1], Int2(px, py), old(riverMap[py, px]))
      {
      }
      widths := widths + [currentWidth];
      assert tree[..k + 1] == tree[..k] + [e];
    }
    assert tree[..|tree|] == tree;
  }

  /**
    What drawing the river over `nodes` leaves: a `resolution` square map
    with values in `[0, 1]`, a spanning tree of `|nodes| - 1` node pairs
    with their distances, rooted at node 0 by the breadth-first walk
    `parentMap`/`order`, the upstream `flow` of every node, each edge drawn
    with the width its downstream flow gives it over an all-zero map, and
    with widths that are never negative, every node under the core of the
    river.
   */
  ghost predicate RiverDrawn(riverMap: array2<real>, resolution: nat, minRiverWidth: real, maxRiverWidth: real,
                             smoothingWidth: real, sqrt: real -> real, nodes: seq<Int2>, tree: seq<Edge>,
                             parentMap: seq<int>, order: seq<int>, flow: seq<int>, widths: seq<real>)
    reads riverMap
  {
    && riverMap.Length0 == resolution && riverMap.Length1 == resolution && InUnit(riverMap)
    && |nodes| >= 2 && EdgesWithin(|nodes|, tree) && |tree| == |nodes| - 1 && Spans(|nodes|, tree)
    && (forall m :: 0 <= m < |tree| ==>
          tree[m].u < tree[m].v && tree[m].distance == Distance(sqrt, nodes[tree[m].u], nodes[tree[m].v]))
    && RootedTree(|nodes|, Adjacency(|nodes|, tree), parentMap, order)
    && Ordered(|nodes|, parentMap, order) && FlowOf(|nodes|, parentMap, flow)
    && (forall m :: 0 <= m < |tree| ==>
          parentMap[Upstream(tree[m], Downstream(parentMap, tree[m]))] == Downstream(parentMap, tree[m]))
    && GradedWidths(minRiverWidth, maxRiverWidth, tree, widths)
    && (forall m :: 0 <= m < |tree| ==> widths[m] == EdgeWidth(minRiverWidth, maxRiverWidth, parentMap, flow, tree[m]))
    && (forall py, px :: OnMap(riverMap, py, px) ==>
          riverMap[py, px] == RiverValue(sqrt, minRiverWidth, maxRiverWidth, smoothingWidth, nodes, parentMap, flow,
                                         tree, Int2(px, py), 0.0))
    && (SolidWidths(minRiverWidth, maxRiverWidth, smoothingWidth) ==> forall m :: 0 <= m < |nodes| ==> OnRiver(riverMap, nodes[m]))
  }

  /** Lines 113-135: the complete graph on the nodes, sorted by length, reduced to Kruskal's spanning tree. */
  method ConnectNodes(chosen: seq<Int2>, sqrt: real -> real) returns (mstEdges: seq<Edge>)
    requires |chosen| >= 1
    ensures EdgesWithin(|chosen|, mstEdges) && DistinctPairs(mstEdges)
    ensures |mstEdges| == |chosen| - 1 && Spans(|chosen|, mstEdges)
    ensures forall m :: 0 <= m < |mstEdges| ==>
              mstEdges[m].u < mstEdges[m].v && mstEdges[m].distance == Distance(sqrt, chosen[mstEdges[m].u], chosen[mstEdges[m].v])
  {
    var n := |chosen|;
    var edges := BuildEdges(chosen, sqrt);
    CompleteConnects(n, edges);
    var sorted := SortByDistance(edges);
    SortedWithin(n, edges);
    SortedConnects(n, edges);
    mstEdges := SpanningTree(n, sorted);
    forall m | 0 <= m < |mstEdges|
      ensures mstEdges[m].u < mstEdges[m].v && mstEdges[m].distance == Distance(sqrt, chosen[mstEdges[m].u], chosen[mstEdges[m].v])
    {
      assert mstEdges[m] in edges;
    }
  }

  /**
    Lines 139-178: the tree rooted at node 0 by the breadth-first walk, and
    the flow of every node. Each tree edge hangs from its downstream end.
   */
  method RootedFlow(n: nat, mstEdges: seq<Edge>)
    returns (adjacencyList: seq<seq<int>>, parentMap: array<int>, bfsOrder: seq<int>, flow: array<int>)
    requires n >= 1 && EdgesWithin(n, mstEdges) && DistinctPairs(mstEdges)
    requires |mstEdges| == n - 1 && Spans(n, mstEdges)
    ensures adjacencyList == Adjacency(n, mstEdges)
    ensures RootedTree(n, adjacencyList, parentMap[..], bfsOrder)
    ensures Ordered(n, parentMap[..], bfsOrder) && FlowOf(n, parentMap[..], flow[..])
    ensures forall k :: 0 <= k < |mstEdges| ==>
              parentMap[..][Upstream(mstEdges[k], Downstream(parentMap[..], mstEdges[k]))] == Downstream(parentMap[..], mstEdges[k])
  {
    adjacencyList := BuildAdjacency(n, mstEdges);
    AdjacencyWithin(n, mstEdges);
    parentMap, bfsOrder := BreadthFirst(n, adjacencyList);
    SpanningTreeRooted(n, mstEdges, parentMap[..], bfsOrder);
    flow := Flow(n, adjacencyList, parentMap, bfsOrder);
    RootedOrdered(n, adjacencyList, parentMap[..], bfsOrder);
    forall k | 0 <= k < |mstEdges|
      ensures parentMap[..][Upstream(mstEdges[k], Downstream(parentMap[..], mstEdges[k]))] == Downstream(parentMap[..], mstEdges[k])
    {
      DownstreamIsParent(n, mstEdges, parentMap[..], bfsOrder, mstEdges[k]);
    }
  }

  /** Lines 113-188: Kruskal's tree over the nodes, rooted at node 0, drawn edge by edge with graded widths. */
  method RiverFromNodes(chosen: seq<Int2>, resolution: nat, minRiverWidth: real, maxRiverWidth: real,
                        smoothingWidth: real, sqrt: real -> real)
    returns (riverMap: array2<real>, ghost tree: seq<Edge>, ghost parents: seq<int>, ghost order: seq<int>,
             ghost flows: seq<int>, ghost widths: seq<real>)
    requires IsSqrt(sqrt) && |chosen| >= 2 && DistinctCells(chosen)
    ensures fresh(riverMap)
    ensures RiverDrawn(riverMap, resolution, minRiverWidth, maxRiverWidth, smoothingWidth, sqrt, chosen, tree,
                       parents, order, flows, widths)
  {
    var n := |chosen|;
    var mstEdges := ConnectNodes(chosen, sqrt);
    var adjacencyList, parentMap, bfsOrder, flow := RootedFlow(n, mstEdges);
    riverMap := new real[resolution, resolution]((_, _) => 0.0);
    widths := DrawEdges(riverMap, resolution, chosen, mstEdges, parentMap, bfsOrder, flow,
                        minRiverWidth, maxRiverWidth, smoothingWidth, sqrt);
    tree, parents, order, flows := mstEdges, parentMap[..], bfsOrder, flow[..];
    if SolidWidths(minRiverWidth, maxRiverWidth, smoothingWidth) {
      forall m | 0 <= m < n
        ensures OnRiver(riverMap, chosen[m])
      {
        EveryNodeTouched(n, tree, m);
        var k :| 0 <= k < |tree| && (tree[k].u == m || tree[k].v == m);
      }
    }
  }

  /** A cell the method keeps: inside the grid, mask above a half, with the height sampled there. */
  ghost predicate ValidSample(resolution: nat, bilinear: (real, real) -> real, maskAt: (int, int) -> real, p: PointData)
  {
    && 0 <= p.position.y < resolution && 0 <= p.position.x < resolution
    && maskAt(p.position.x, p.position.y) > 0.5
    && p.height == bilinear(p.position.x as real / resolution as real, p.position.y as real / resolution as real)
  }

  /**
    Lines 54-75: the sampled heights and the cells whose mask value is above a
    half, with their heights, listed row by row and left to right as the scan
    meets them (`ScanPoints` over the sampled grid `heights`).
   */
  method ValidSamples(resolution: nat, bilinear: (real, real) -> real, maskAt: (int, int) -> real)
    returns (validPoints: seq<PointData>, ghost heights: array2<real>)
    ensures fresh(heights) && heights.Length0 == resolution && heights.Length1 == resolution
    ensures forall y, x :: 0 <= y < resolution && 0 <= x < resolution ==>
              heights[y, x] == bilinear(x as real / resolution as real, y as real / resolution as real)
    ensures validPoints == ScanPoints(maskAt, heights, resolution)
    ensures UniquePositions(validPoints)
    ensures forall p :: p in validPoints <==> ValidSample(resolution, bilinear, maskAt, p)
  {
    var originalHeights := SampleHeights(resolution, bilinear);
    validPoints := ScanValid(maskAt, originalHeights);
    ScanExact(maskAt, originalHeights, originalHeights.Length0);
    heights := originalHeights;
  }

  /** Lines 84-103: the mouth, then up to `numberOfTributaries` cells drawn from the candidates. */
  method ChooseNodes(validPoints: seq<PointData>, numberOfTributaries: int, draws: nat -> nat) returns (nodes: seq<Int2>)
    requires |validPoints| > 0 && UniquePositions(validPoints)
    ensures nodes == Nodes(validPoints, numberOfTributaries, draws)
    ensures |nodes| == 1 + MinInt(Iterations(numberOfTributaries), |validPoints| - 1) && DistinctCells(nodes)
    ensures forall k :: 0 <= k < |nodes| ==> exists p :: p in validPoints && p.position == nodes[k]
  {
    var lowestPoint := Lowest(validPoints);
    var tributaryCandidates := Candidates(validPoints, lowestPoint);
    var picked := DrawTributaries(Cells(tributaryCandidates), numberOfTributaries, draws);
    nodes := [lowestPoint.position] + picked;
    NodesChosen(validPoints, numberOfTributaries, draws);
  }

  /**
    Lines 43-188. The texture checks, the valid points, the nodes, the
    spanning tree, the flow and the drawn river map, with each early return
    as its own outcome.
   */
  method GenerateRiverMask(heightmapPresent: bool, maskPresent: bool, heightmapReadable: bool, maskReadable: bool,
                           resolution: nat, bilinear: (real, real) -> real, maskAt: (int, int) -> real,
                           numberOfTributaries: int, minRiverWidth: real, maxRiverWidth: real, smoothingWidth: real,
                           draws: nat -> nat, sqrt: real -> real)
    returns (outcome: Outcome, ghost heights: array2?<real>, ghost validPoints: seq<PointData>,
             ghost nodes: seq<Int2>, ghost tree: seq<Edge>, ghost parents: seq<int>, ghost order: seq<int>,
             ghost flows: seq<int>, ghost widths: seq<real>)
    requires IsSqrt(sqrt)
    ensures outcome == MissingTexture <==> !heightmapPresent || !maskPresent
    ensures outcome == Unreadable <==> heightmapPresent && maskPresent && (!heightmapReadable || !maskReadable)
    ensures heightmapPresent && maskPresent && heightmapReadable && maskReadable ==>
              && heights != null && fresh(heights)
              && heights.Length0 == resolution && heights.Length1 == resolution
              && (forall y, x :: 0 <= y < resolution && 0 <= x < resolution ==>
                    heights[y, x] == bilinear(x as real / resolution as real, y as real / resolution as real))
              && validPoints == ScanPoints(maskAt, heights, resolution)
              && UniquePositions(validPoints)
              && (forall p :: p in validPoints <==> ValidSample(resolution, bilinear, maskAt, p))
              && (outcome == MaskTooSmall <==> |validPoints| < 1 + numberOfTributaries)
              && (outcome == NoValidPoint <==> |validPoints| == 0 && 1 + numberOfTributaries <= 0)
              && (outcome == TooFewNodes <==> 0 < |validPoints| && 1 + numberOfTributaries <= |validPoints| && numberOfTributaries <= 0)
    ensures outcome.RiverMap? || outcome == TooFewNodes ==>
              0 < |validPoints| && nodes == Nodes(validPoints, numberOfTributaries, draws)
    ensures outcome.RiverMap? ==>
              && fresh(outcome.riverMap)
              && RiverDrawn(outcome.riverMap, resolution, minRiverWidth, maxRiverWidth, smoothingWidth, sqrt, nodes, tree,
                            parents, order, flows, widths)
              && forall m :: 0 <= m < |nodes| ==> 0 <= nodes[m].y < resolution && 0 <= nodes[m].x < resolution
  {
    heights, validPoints, nodes, tree, parents, order, flows, widths := null, [], [], [], [], [], [], [];
    if !heightmapPresent || !maskPresent {
      return MissingTexture, heights, validPoints, nodes, tree, parents, order, flows, widths;
    }
    if !heightmapReadable || !maskReadable {
      return Unreadable, heights, validPoints, nodes, tree, parents, order, flows, widths;
    }
    var valid;
    valid, heights := ValidSamples(resolution, bilinear, maskAt);
    validPoints := valid;
    if |valid| < 1 + numberOfTributaries {
      return MaskTooSmall, heights, validPoints, nodes, tree, parents, order, flows, widths;
    }
    if |valid| == 0 {
      // `OrderBy(...).First()` throws on an empty sequence.
      return NoValidPoint, heights, validPoints, nodes, tree, parents, order, flows, widths;
    }
    var chosen := ChooseNodes(valid, numberOfTributaries, draws);
    nodes := chosen;
    if |chosen| < 2 {
      return TooFewNodes, heights, validPoints, nodes, tree, parents, order, flows, widths;
    }
    var riverMap: array2<real>;
    riverMap, tree, parents, order, flows, widths := RiverFromNodes(chosen, resolution, minRiverWidth, maxRiverWidth, smoothingWidth, sqrt);
    forall m | 0 <= m < |chosen|
      ensures 0 <= chosen[m].y < resolution && 0 <= chosen[m].x < resolution
    {
      var p :| p in valid && p.position == chosen[m];
    }
    outcome := RiverMap(riverMap);
  }
}
