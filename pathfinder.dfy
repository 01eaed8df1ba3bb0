/**
  Slope-aware A* over the 8-connected grid of a height map (`Pathfinder` in
  algorithm/PathNode.cs). Node objects live in a grid indexed `[x, y]`; the open
  list is a sequence, the closed set a set of nodes.
 */
module Pathfinder {
  import opened Common

  class PathNode {
    const x: int
    const y: int
    var gCost: real
    var hCost: real
    var fCost: real
    var parentNode: PathNode?

    constructor (x: int, y: int)
      ensures this.x == x && this.y == y
      ensures parentNode == null && gCost == 0.0 && hCost == 0.0 && fCost == 0.0
    {
      this.x := x;
      this.y := y;
      gCost, hCost, fCost := 0.0, 0.0, 0.0;
      parentNode := null;
    }

    method CalculateFCost()
      modifies this
      ensures fCost == gCost + hCost
      ensures gCost == old(gCost) && hCost == old(hCost) && parentNode == old(parentNode)
    {
      fCost := gCost + hCost;
    }
  }

  function Coords(n: PathNode): Int2
  {
    Int2(n.x, n.y)
  }

  function Chebyshev(a: Int2, b: Int2): nat
  {
    var dx := AbsInt(a.x - b.x);
    var dy := AbsInt(a.y - b.y);
    if dx >= dy then dx else dy
  }

  /** Two distinct cells that touch, orthogonally or diagonally. */
  predicate IsNeighbour(a: Int2, b: Int2)
  {
    Chebyshev(a, b) == 1
  }

  predicate InBounds(c: Int2, width: int, height: int)
  {
    0 <= c.x < width && 0 <= c.y < height
  }

  /** `GetDistance`: the octile distance, 14 per diagonal step and 10 per orthogonal one. */
  function Distance(a: Int2, b: Int2): nat
  {
    var dx := AbsInt(a.x - b.x);
    var dy := AbsInt(a.y - b.y);
    14 * MinInt(dx, dy) + 10 * AbsInt(dx - dy)
  }

  /**
    The octile distance lies between 10 and 14 times the Chebyshev distance, so
    it is zero exactly when the cells coincide.
   */
  lemma DistanceBounds(a: Int2, b: Int2)
    ensures 10 * Chebyshev(a, b) <= Distance(a, b) <= 14 * Chebyshev(a, b)
    ensures Distance(a, b) == 0 <==> a == b
  {
  }

  lemma DistanceSymmetric(a: Int2, b: Int2)
    ensures Distance(a, b) == Distance(b, a)
  {
  }

  /** One step of the grid costs 10 orthogonally and 14 diagonally. */
  lemma NeighbourDistance(a: Int2, b: Int2)
    requires IsNeighbour(a, b)
    ensures Distance(a, b) == if a.x == b.x || a.y == b.y then 10 else 14
  {
  }

  /**
    The octile distance obeys the triangle inequality, so the heuristic is
    consistent: it never drops by more than the base cost of a move.
   */
  lemma {:induction false} DistanceTriangle(a: Int2, b: Int2, c: Int2)
    ensures Distance(a, c) <= Distance(a, b) + Distance(b, c)
  {
    OctileAsMax(a, b);
    OctileAsMax(b, c);
    OctileAsMax(a, c);
    AbsTriangle(a.x - b.x, b.x - c.x);
    AbsTriangle(a.y - b.y, b.y - c.y);
    WeightedSubadditive(AbsInt(a.x - b.x), AbsInt(a.y - b.y), AbsInt(b.x - c.x), AbsInt(b.y - c.y),
                        AbsInt(a.x - c.x), AbsInt(a.y - c.y), Distance(a, b), Distance(b, c), Distance(a, c));
  }

  /** The larger of two subadditive weighted lengths is subadditive. */
  lemma WeightedSubadditive(ux: int, uy: int, vx: int, vy: int, wx: int, wy: int, d1: int, d2: int, d3: int)
    requires wx <= ux + vx && wy <= uy + vy
    requires 10 * ux + 4 * uy <= d1 && 4 * ux + 10 * uy <= d1
    requires 10 * vx + 4 * vy <= d2 && 4 * vx + 10 * vy <= d2
    requires d3 == 10 * wx + 4 * wy || d3 == 4 * wx + 10 * wy
    ensures d3 <= d1 + d2
  {
  }

  /**
    The octile distance is the larger of the two weighted lengths
    `10 dx + 4 dy` and `4 dx + 10 dy`, each of which is subadditive.
   */
  lemma OctileAsMax(a: Int2, b: Int2)
    ensures var dx, dy := AbsInt(a.x - b.x), AbsInt(a.y - b.y);
            && 10 * dx + 4 * dy <= Distance(a, b)
            && 4 * dx + 10 * dy <= Distance(a, b)
            && (Distance(a, b) == 10 * dx + 4 * dy || Distance(a, b) == 4 * dx + 10 * dy)
  {
  }

  lemma AbsTriangle(p: int, q: int)
    ensures AbsInt(p + q) <= AbsInt(p) + AbsInt(q)
  {
  }

  /** `CalculateMovementCost`: the step distance plus the slope penalty. */
  function MovementCost(heightMap: array2<real>, from: Int2, to: Int2, slopePenaltyMultiplier: real): (c: real)
    reads heightMap
    requires InBounds(from, heightMap.Length0, heightMap.Length1)
    requires InBounds(to, heightMap.Length0, heightMap.Length1)
    ensures slopePenaltyMultiplier >= 0.0 ==> c >= Distance(from, to) as real
    ensures slopePenaltyMultiplier == 0.0 ==> c == Distance(from, to) as real
  {
    var heightDifference := Abs(heightMap[from.x, from.y] - heightMap[to.x, to.y]);
    var slopePenalty := heightDifference * slopePenaltyMultiplier;
    assert slopePenaltyMultiplier >= 0.0 ==> slopePenalty >= 0.0;
    Distance(from, to) as real + slopePenalty
  }

  /** A move between neighbours costs 10 or 14 plus the slope penalty. */
  lemma NeighbourMovementCost(heightMap: array2<real>, from: Int2, to: Int2, m: real)
    requires InBounds(from, heightMap.Length0, heightMap.Length1)
    requires InBounds(to, heightMap.Length0, heightMap.Length1)
    requires IsNeighbour(from, to)
    ensures var base := if from.x == to.x || from.y == to.y then 10.0 else 14.0;
            MovementCost(heightMap, from, to, m) == base + Abs(heightMap[from.x, from.y] - heightMap[to.x, to.y]) * m
  {
    NeighbourDistance(from, to);
  }

  /** With a non-negative multiplier the octile heuristic is consistent. */
  lemma HeuristicConsistent(heightMap: array2<real>, n: Int2, m: Int2, goal: Int2, multiplier: real)
    requires InBounds(n, heightMap.Length0, heightMap.Length1)
    requires InBounds(m, heightMap.Length0, heightMap.Length1)
    requires multiplier >= 0.0
    ensures Distance(n, goal) as real <= MovementCost(heightMap, n, m, multiplier) + Distance(m, goal) as real
  {
    DistanceTriangle(n, m, goal);
  }

  // ---------------------------------------------------------------------------
  // Neighbour enumeration

  /** The nine offsets in the order of `GetNeighbours`' loops: x outer, y inner. */
  const Offsets: seq<Int2> := [Int2(-1, -1), Int2(-1, 0), Int2(-1, 1),
                               Int2(0, -1), Int2(0, 0), Int2(0, 1),
                               Int2(1, -1), Int2(1, 0), Int2(1, 1)]

  function Offset(k: nat): Int2
    requires k < 9
  {
    Offsets[k]
  }

  predicate Keeps(c: Int2, k: nat, width: int, height: int)
    requires k < 9
  {
    Offset(k) != Int2(0, 0) && InBounds(Int2(c.x + Offset(k).x, c.y + Offset(k).y), width, height)
  }

  /** The in-bounds neighbour cells among the first `k` offsets, in loop order. */
  function NeighbourCoords(c: Int2, width: int, height: int, k: nat): (r: seq<Int2>)
    requires k <= 9
    ensures |r| <= k
  {
    if k == 0 then []
    else
      NeighbourCoords(c, width, height, k - 1)
      + (if Keeps(c, k - 1, width, height) then [Int2(c.x + Offset(k - 1).x, c.y + Offset(k - 1).y)] else [])
  }

  lemma {:induction false} NeighbourCoordsPrefix(c: Int2, width: int, height: int, k: nat, d: Int2)
    requires k <= 9
    ensures d in NeighbourCoords(c, width, height, k) <==>
            exists j :: 0 <= j < k && Keeps(c, j, width, height) && d == Int2(c.x + Offset(j).x, c.y + Offset(j).y)
  {
    if k > 0 {
      NeighbourCoordsPrefix(c, width, height, k - 1, d);
    }
  }

  /**
    The neighbour list holds exactly the in-bounds cells at Chebyshev distance 1
    (never the cell itself), each once, and so at most 8 of them.
   */
  lemma NeighbourCoordsExact(c: Int2, width: int, height: int)
    ensures forall d :: d in NeighbourCoords(c, width, height, 9) <==> InBounds(d, width, height) && IsNeighbour(c, d)
    ensures |NeighbourCoords(c, width, height, 9)| <= 8
    ensures forall i, j :: 0 <= i < j < |NeighbourCoords(c, width, height, 9)| ==>
              NeighbourCoords(c, width, height, 9)[i] != NeighbourCoords(c, width, height, 9)[j]
  {
    forall d ensures d in NeighbourCoords(c, width, height, 9) <==> InBounds(d, width, height) && IsNeighbour(c, d) {
      NeighbourCoordsPrefix(c, width, height, 9, d);
      if InBounds(d, width, height) && IsNeighbour(c, d) {
        var j := (d.x - c.x + 1) * 3 + (d.y - c.y + 1);
        assert 0 <= j < 9 && Offset(j) == Int2(d.x - c.x, d.y - c.y);
      }
    }
    NeighbourCoordsBelow(c, width, height, 9);
    NeighbourCoordsDistinct(c, width, height, 9);
  }

  lemma {:induction false} NeighbourCoordsBelow(c: Int2, width: int, height: int, k: nat)
    requires k <= 9
    ensures |NeighbourCoords(c, width, height, k)| <= (if k <= 4 then k else k - 1)
  {
    if k > 0 {
      NeighbourCoordsBelow(c, width, height, k - 1);
      assert Offset(4) == Int2(0, 0);
    }
  }

  /** Consecutive entries come from strictly increasing offset positions. */
  lemma {:induction false} NeighbourCoordsDistinct(c: Int2, width: int, height: int, k: nat)
    requires k <= 9
    ensures forall i, j :: 0 <= i < j < |NeighbourCoords(c, width, height, k)| ==>
              NeighbourCoords(c, width, height, k)[i] != NeighbourCoords(c, width, height, k)[j]
    ensures forall i :: 0 <= i < |NeighbourCoords(c, width, height, k)| ==>
              OffsetIndex(c, NeighbourCoords(c, width, height, k)[i]) < k
  {
    if k > 0 {
      NeighbourCoordsDistinct(c, width, height, k - 1);
    }
  }

  function OffsetIndex(c: Int2, d: Int2): int
  {
    (d.x - c.x + 1) * 3 + (d.y - c.y + 1)
  }

  // ---------------------------------------------------------------------------
  // The node grid

  ghost predicate GridOk(grid: array2<PathNode?>)
    reads grid
  {
    forall i, j :: 0 <= i < grid.Length0 && 0 <= j < grid.Length1 ==>
      grid[i, j] != null && grid[i, j].x == i && grid[i, j].y == j
  }

  ghost predicate InGrid(grid: array2<PathNode?>, n: PathNode)
    reads grid
  {
    0 <= n.x < grid.Length0 && 0 <= n.y < grid.Length1 && grid[n.x, n.y] == n
  }

  ghost function CoordsOf(s: seq<PathNode>): (r: seq<Int2>)
    ensures |r| == |s| && forall k :: 0 <= k < |s| ==> r[k] == Coords(s[k])
  {
    seq(|s|, k requires 0 <= k < |s| => Coords(s[k]))
  }

  lemma CoordsOfAppend(s: seq<PathNode>, n: PathNode)
    ensures CoordsOf(s + [n]) == CoordsOf(s) + [Coords(n)]
  {
  }

  /** One pass of the offset loop that keeps its node. */
  lemma NeighbourKept(s: seq<PathNode>, n: PathNode, c: Int2, width: int, height: int, x: int, y: int)
    requires -1 <= x <= 1 && -1 <= y <= 1 && (x != 0 || y != 0)
    requires InBounds(Int2(c.x + x, c.y + y), width, height) && Coords(n) == Int2(c.x + x, c.y + y)
    requires CoordsOf(s) == NeighbourCoords(c, width, height, (x + 1) * 3 + (y + 1))
    ensures CoordsOf(s + [n]) == NeighbourCoords(c, width, height, (x + 1) * 3 + (y + 1) + 1)
  {
    assert Offset((x + 1) * 3 + (y + 1)) == Int2(x, y);
    CoordsOfAppend(s, n);
  }

  /** One pass of the offset loop that skips its cell. */
  lemma NeighbourSkipped(s: seq<PathNode>, c: Int2, width: int, height: int, x: int, y: int)
    requires -1 <= x <= 1 && -1 <= y <= 1
    requires (x == 0 && y == 0) || !InBounds(Int2(c.x + x, c.y + y), width, height)
    requires CoordsOf(s) == NeighbourCoords(c, width, height, (x + 1) * 3 + (y + 1))
    ensures CoordsOf(s) == NeighbourCoords(c, width, height, (x + 1) * 3 + (y + 1) + 1)
  {
    assert Offset((x + 1) * 3 + (y + 1)) == Int2(x, y);
  }

  /** `GetNeighbours`: the grid nodes of `NeighbourCoords`, in loop order. */
  method GetNeighbours(node: PathNode, grid: array2<PathNode?>, width: int, height: int)
    returns (neighbours: seq<PathNode>)
    requires GridOk(grid) && width == grid.Length0 && height == grid.Length1
    requires InGrid(grid, node)
    ensures CoordsOf(neighbours) == NeighbourCoords(Coords(node), width, height, 9)
    ensures forall k :: 0 <= k < |neighbours| ==> InGrid(grid, neighbours[k])
  {
    var c := Coords(node);
    neighbours := [];
    for x := -1 to 2
      invariant CoordsOf(neighbours) == NeighbourCoords(c, width, height, (x + 1) * 3)
      invariant forall k :: 0 <= k < |neighbours| ==> InGrid(grid, neighbours[k])
    {
      for y := -1 to 2
        invariant CoordsOf(neighbours) == NeighbourCoords(c, width, height, (x + 1) * 3 + (y + 1))
        invariant forall k :: 0 <= k < |neighbours| ==> InGrid(grid, neighbours[k])
      {
        if x == 0 && y == 0 {
          NeighbourSkipped(neighbours, c, width, height, x, y);
          continue;
        }
        var checkX := node.x + x;
        var checkY := node.y + y;
        if checkX >= 0 && checkX < width && checkY >= 0 && checkY < height {
          var n := grid[checkX, checkY];
          NeighbourKept(neighbours, n, c, width, height, x, y);
          neighbours := neighbours + [n];
        } else {
          NeighbourSkipped(neighbours, c, width, height, x, y);
        }
      }
    }
  }

  /**
    `GetLowestFCostNode`: a node of minimal `fCost`; on ties the earliest in list
    order, because only a strictly smaller cost replaces the current choice.
   */
  method GetLowestFCostNode(pathNodeList: seq<PathNode>) returns (lowest: PathNode, index: nat)
    requires |pathNodeList| > 0
    ensures index < |pathNodeList| && lowest == pathNodeList[index]
    ensures forall j :: 0 <= j < |pathNodeList| ==> lowest.fCost <= pathNodeList[j].fCost
    ensures forall j :: 0 <= j < index ==> pathNodeList[j].fCost > lowest.fCost
  {
    lowest, index := pathNodeList[0], 0;
    for i := 1 to |pathNodeList|
      invariant index < i && lowest == pathNodeList[index]
      invariant forall j :: 0 <= j < i ==> lowest.fCost <= pathNodeList[j].fCost
      invariant forall j :: 0 <= j < index ==> pathNodeList[j].fCost > lowest.fCost
    {
      if pathNodeList[i].fCost < lowest.fCost {
        lowest, index := pathNodeList[i], i;
      }
    }
  }

  // ---------------------------------------------------------------------------
  // Paths

  function Reverse<T>(s: seq<T>): (r: seq<T>)
    ensures |r| == |s|
    ensures forall k :: 0 <= k < |s| ==> r[k] == s[|s| - 1 - k]
  {
    if s == [] then [] else Reverse(s[1..]) + [s[0]]
  }

  /** A path from `start` to `end` through in-bounds cells, each step to a neighbour. */
  predicate IsPath(path: seq<Int2>, start: Int2, end: Int2, width: int, height: int)
  {
    && |path| >= 1
    && path[0] == start
    && path[|path| - 1] == end
    && (forall k :: 0 <= k < |path| ==> InBounds(path[k], width, height))
    && (forall k :: 0 <= k < |path| - 1 ==> IsNeighbour(path[k], path[k + 1]))
  }

  /**
    The parent links of the nodes in `S` stay inside `S`, lead to a neighbouring
    in-bounds cell and strictly decrease `rank`; only the start has no parent.
   */
  ghost predicate ParentChain(S: set<PathNode>, rank: map<PathNode, nat>, start: Int2, width: int, height: int)
    reads S
  {
    && (forall n :: n in S ==> n in rank && InBounds(Coords(n), width, height))
    && (forall n {:trigger n.parentNode} :: n in S ==>
          && (n.parentNode == null ==> Coords(n) == start)
          && (n.parentNode != null ==>
                n.parentNode in S && rank[n.parentNode] < rank[n] && IsNeighbour(Coords(n.parentNode), Coords(n))))
  }

  /** `RetracePath`: follow the parent links back from `endNode`, then reverse. */
  method RetracePath(endNode: PathNode, ghost S: set<PathNode>, ghost rank: map<PathNode, nat>,
                     ghost start: Int2, ghost width: int, ghost height: int)
    returns (path: seq<Int2>)
    requires endNode in S && ParentChain(S, rank, start, width, height)
    ensures IsPath(path, start, Coords(endNode), width, height)
  {
    var backwards: seq<Int2> := [];
    var currentNode: PathNode? := endNode;
    ghost var previous: PathNode := endNode;
    while currentNode != null
      invariant currentNode != null ==> currentNode in S
      invariant |backwards| == 0 ==> currentNode == endNode
      invariant |backwards| > 0 ==> previous in S && backwards[|backwards| - 1] == Coords(previous) &&
                                    currentNode == previous.parentNode
      invariant |backwards| > 0 ==> backwards[0] == Coords(endNode)
      invariant forall k :: 0 <= k < |backwards| ==> InBounds(backwards[k], width, height)
      invariant forall k :: 0 <= k < |backwards| - 1 ==> IsNeighbour(backwards[k + 1], backwards[k])
      decreases if currentNode == null then 0 else rank[currentNode] + 1
    {
      backwards := backwards + [Coords(currentNode)];
      previous := currentNode;
      currentNode := currentNode.parentNode;
    }
    path := Reverse(backwards);
  }

  // ---------------------------------------------------------------------------
  // The search

  /** A set of cells that contains `s` and every in-bounds neighbour of its members is the whole grid. */
  lemma {:induction false} FloodFill(C: set<Int2>, s: Int2, width: int, height: int, d: Int2)
    requires s in C && InBounds(s, width, height) && InBounds(d, width, height)
    requires forall a, b :: a in C && InBounds(b, width, height) && IsNeighbour(a, b) ==> b in C
    ensures d in C
    decreases AbsInt(d.x - s.x) + AbsInt(d.y - s.y)
  {
    if d != s {
      var p := if d.x < s.x then Int2(d.x + 1, d.y)
               else if d.x > s.x then Int2(d.x - 1, d.y)
               else if d.y < s.y then Int2(d.x, d.y + 1)
               else Int2(d.x, d.y - 1);
      FloodFill(C, s, width, height, p);
      assert IsNeighbour(p, d);
    }
  }

  /**
    Closed nodes whose in-bounds neighbours are all closed, with the start
    among them, are every node of the grid.
   */
  lemma FloodFillNodes(grid: array2<PathNode?>, closedSet: set<PathNode>, startCoords: Int2, d: Int2)
    requires GridOk(grid) && InBounds(startCoords, grid.Length0, grid.Length1) && InBounds(d, grid.Length0, grid.Length1)
    requires grid[startCoords.x, startCoords.y] in closedSet
    requires forall n, e :: n in closedSet && InBounds(e, grid.Length0, grid.Length1) && IsNeighbour(Coords(n), e) ==>
               grid[e.x, e.y] in closedSet
    ensures grid[d.x, d.y] in closedSet
  {
    var C := set i, j | 0 <= i < grid.Length0 && 0 <= j < grid.Length1 && grid[i, j] in closedSet :: Int2(i, j);
    forall a, b | a in C && InBounds(b, grid.Length0, grid.Length1) && IsNeighbour(a, b) ensures b in C {
      assert Coords(grid[a.x, a.y]) == a;
    }
    assert startCoords in C;
    FloodFill(C, startCoords, grid.Length0, grid.Length1, d);
  }

  ghost predicate Distinct<T>(s: seq<T>)
  {
    forall k, l :: 0 <= k < l < |s| ==> s[k] != s[l]
  }

  /** `List.Remove` on a list without duplicates drops exactly the element at `i`. */
  lemma RemoveAt<T>(s: seq<T>, i: nat)
    requires i < |s| && Distinct(s)
    ensures |s[..i] + s[i + 1..]| == |s| - 1
    ensures forall k :: 0 <= k < |s| - 1 ==> (s[..i] + s[i + 1..])[k] == if k < i then s[k] else s[k + 1]
    ensures Distinct(s[..i] + s[i + 1..])
    ensures forall v :: v in s[..i] + s[i + 1..] <==> v in s && v != s[i]
  {
    var r := s[..i] + s[i + 1..];
    assert forall k :: 0 <= k < |r| ==> r[k] == if k < i then s[k] else s[k + 1];
    forall v | v in s && v != s[i] ensures v in r {
      var k :| 0 <= k < |s| && s[k] == v;
      assert r[if k < i then k else k - 1] == v;
    }
  }

  /** Open nodes are grid nodes, not closed, and listed once. */
  ghost predicate OpenOk(grid: array2<PathNode?>, openList: seq<PathNode>, closedSet: set<PathNode>)
    reads grid
  {
    && (forall k :: 0 <= k < |openList| ==> InGrid(grid, openList[k]) && openList[k] !in closedSet)
    && Distinct(openList)
  }

  /** An open node is the start, or its parent is a closed neighbour. */
  ghost predicate OpenLinks(openList: seq<PathNode>, closedSet: set<PathNode>, start: Int2)
    reads openList
  {
    forall k :: 0 <= k < |openList| ==>
      && (openList[k].parentNode == null ==> Coords(openList[k]) == start)
      && (openList[k].parentNode != null ==>
            openList[k].parentNode in closedSet && IsNeighbour(Coords(openList[k].parentNode), Coords(openList[k])))
  }

  /** Every in-bounds neighbour of a closed node is closed or open. */
  ghost predicate Expanded(grid: array2<PathNode?>, openList: seq<PathNode>, closedSet: set<PathNode>)
    reads grid
  {
    forall n, d {:trigger IsNeighbour(Coords(n), d)} ::
      n in closedSet && InBounds(d, grid.Length0, grid.Length1) && IsNeighbour(Coords(n), d) ==>
      grid[d.x, d.y] in closedSet || grid[d.x, d.y] in openList
  }

  /** The cost through `currentNode` that `FindPath` compares against a neighbour's `gCost`. */
  ghost function TentativeGCost(heightMap: array2<real>, currentG: real, from: Int2, to: Int2,
                                slopePenaltyMultiplier: real): real
    reads heightMap
    requires InBounds(from, heightMap.Length0, heightMap.Length1)
    requires InBounds(to, heightMap.Length0, heightMap.Length1)
  {
    currentG + MovementCost(heightMap, from, to, slopePenaltyMultiplier)
  }

  /**
    The fields a relaxation leaves a neighbour with, given its fields before:
    the new parent, cost and heuristic when the tentative cost is lower or the
    neighbour was not open, and the old fields otherwise.
   */
  ghost predicate Relaxed(parent: PathNode?, g: real, h: real, f: real,
                          oldParent: PathNode?, oldG: real, oldH: real, oldF: real,
                          currentNode: PathNode, tentative: real, heuristic: real, wasOpen: bool)
  {
    if tentative < oldG || !wasOpen then
      parent == currentNode && g == tentative && h == heuristic && f == g + h
    else
      parent == oldParent && g == oldG && h == oldH && f == oldF
  }

  /** `n` now has the fields `Relaxed` gives it from its fields in the old state. */
  twostate predicate RelaxedSince(n: PathNode, currentNode: PathNode, tentative: real, heuristic: real, wasOpen: bool)
    reads n
  {
    Relaxed(n.parentNode, n.gCost, n.hCost, n.fCost, old(n.parentNode), old(n.gCost), old(n.hCost), old(n.fCost),
            currentNode, tentative, heuristic, wasOpen)
  }

  /**
    One pass of the inner loop of `FindPath` for a neighbour that is not
    closed: it gets `currentNode` as parent, the tentative cost and a fresh
    heuristic when that cost is lower or it is not yet open, and it is open
    afterwards.
   */
  method RelaxNeighbour(heightMap: array2<real>, grid: array2<PathNode?>, currentNode: PathNode, endNode: PathNode,
                        neighbourNode: PathNode, openList0: seq<PathNode>, closedSet: set<PathNode>,
                        slopePenaltyMultiplier: real, ghost rank: map<PathNode, nat>, ghost startCoords: Int2)
    returns (openList: seq<PathNode>)
    modifies neighbourNode
    requires grid.Length0 == heightMap.Length0 && grid.Length1 == heightMap.Length1
    requires currentNode in closedSet && InGrid(grid, currentNode)
    requires InGrid(grid, neighbourNode) && IsNeighbour(Coords(currentNode), Coords(neighbourNode))
    requires neighbourNode !in closedSet
    requires OpenOk(grid, openList0, closedSet) && OpenLinks(openList0, closedSet, startCoords)
    requires ParentChain(closedSet, rank, startCoords, grid.Length0, grid.Length1)
    ensures OpenOk(grid, openList, closedSet) && OpenLinks(openList, closedSet, startCoords)
    ensures ParentChain(closedSet, rank, startCoords, grid.Length0, grid.Length1)
    ensures forall n :: n in openList <==> n in openList0 || n == neighbourNode
    ensures Relaxed(neighbourNode.parentNode, neighbourNode.gCost, neighbourNode.hCost, neighbourNode.fCost,
                    old(neighbourNode.parentNode), old(neighbourNode.gCost), old(neighbourNode.hCost),
                    old(neighbourNode.fCost), currentNode,
                    TentativeGCost(heightMap, old(currentNode.gCost), Coords(currentNode), Coords(neighbourNode),
                                   slopePenaltyMultiplier),
                    Distance(Coords(neighbourNode), Coords(endNode)) as real, neighbourNode in openList0)
  {
    openList := openList0;
    var tentativeGCost := currentNode.gCost +
      MovementCost(heightMap, Coords(currentNode), Coords(neighbourNode), slopePenaltyMultiplier);
    if tentativeGCost < neighbourNode.gCost || neighbourNode !in openList {
      neighbourNode.parentNode := currentNode;
      neighbourNode.gCost := tentativeGCost;
      neighbourNode.hCost := Distance(Coords(neighbourNode), Coords(endNode)) as real;
      neighbourNode.CalculateFCost();
      if neighbourNode !in openList {
        openList := openList + [neighbourNode];
      }
    }
  }

  /**
    The inner loop of `FindPath`: each neighbour that is not closed is relaxed
    (see `RelaxNeighbour`) and is open afterwards; closed nodes are untouched.
   */
  method RelaxNeighbours(heightMap: array2<real>, grid: array2<PathNode?>, currentNode: PathNode, endNode: PathNode,
                         neighbours: seq<PathNode>, openList0: seq<PathNode>, closedSet: set<PathNode>,
                         slopePenaltyMultiplier: real, ghost rank: map<PathNode, nat>, ghost startCoords: Int2)
    returns (openList: seq<PathNode>)
    modifies neighbours
    requires grid.Length0 == heightMap.Length0 && grid.Length1 == heightMap.Length1
    requires currentNode in closedSet && InGrid(grid, currentNode)
    requires forall m :: 0 <= m < |neighbours| ==>
               InGrid(grid, neighbours[m]) && IsNeighbour(Coords(currentNode), Coords(neighbours[m]))
    requires Distinct(neighbours)
    requires OpenOk(grid, openList0, closedSet) && OpenLinks(openList0, closedSet, startCoords)
    requires ParentChain(closedSet, rank, startCoords, grid.Length0, grid.Length1)
    ensures OpenOk(grid, openList, closedSet) && OpenLinks(openList, closedSet, startCoords)
    ensures ParentChain(closedSet, rank, startCoords, grid.Length0, grid.Length1)
    ensures forall n :: n in openList0 ==> n in openList
    ensures forall m :: 0 <= m < |neighbours| ==> neighbours[m] in closedSet || neighbours[m] in openList
    ensures forall m :: 0 <= m < |neighbours| && neighbours[m] in closedSet ==> unchanged(neighbours[m])
    ensures forall m :: 0 <= m < |neighbours| && neighbours[m] !in closedSet ==>
              RelaxedSince(neighbours[m], currentNode,
                           TentativeGCost(heightMap, old(currentNode.gCost), Coords(currentNode), Coords(neighbours[m]),
                                          slopePenaltyMultiplier),
                           Distance(Coords(neighbours[m]), Coords(endNode)) as real, neighbours[m] in openList0)
  {
    openList := openList0;
    for k := 0 to |neighbours|
      invariant OpenOk(grid, openList, closedSet) && OpenLinks(openList, closedSet, startCoords)
      invariant ParentChain(closedSet, rank, startCoords, grid.Length0, grid.Length1)
      invariant forall n :: n in openList0 ==> n in openList
      invariant forall m :: 0 <= m < k ==> neighbours[m] in closedSet || neighbours[m] in openList
      invariant forall m :: k <= m < |neighbours| ==> (neighbours[m] in openList <==> neighbours[m] in openList0)
      invariant forall m :: 0 <= m < |neighbours| && (k <= m || neighbours[m] in closedSet) ==> unchanged(neighbours[m])
      invariant forall m :: 0 <= m < k && neighbours[m] !in closedSet ==>
                  RelaxedSince(neighbours[m], currentNode,
                               TentativeGCost(heightMap, old(currentNode.gCost), Coords(currentNode), Coords(neighbours[m]),
                                              slopePenaltyMultiplier),
                               Distance(Coords(neighbours[m]), Coords(endNode)) as real, neighbours[m] in openList0)
    {
      var neighbourNode := neighbours[k];
      if neighbourNode in closedSet {
        continue;
      }
      openList := RelaxNeighbour(heightMap, grid, currentNode, endNode, neighbourNode, openList, closedSet,
                                 slopePenaltyMultiplier, rank, startCoords);
    }
  }

  /**
    Moving the open node at `index` to the closed set, with the next rank,
    keeps the open list and the parent links well formed.
   */
  lemma CloseStep(grid: array2<PathNode?>, openList: seq<PathNode>, closedSet: set<PathNode>,
                  rank: map<PathNode, nat>, step: nat, index: nat, startCoords: Int2)
    requires index < |openList|
    requires OpenOk(grid, openList, closedSet) && OpenLinks(openList, closedSet, startCoords)
    requires forall n :: n in closedSet ==> InGrid(grid, n) && n in rank && rank[n] < step
    requires ParentChain(closedSet, rank, startCoords, grid.Length0, grid.Length1)
    ensures var open' := openList[..index] + openList[index + 1..];
            var closed' := closedSet + {openList[index]};
            var rank' := rank[openList[index] := step];
            && OpenOk(grid, open', closed') && OpenLinks(open', closed', startCoords)
            && (forall n :: n in closed' ==> InGrid(grid, n) && n in rank' && rank'[n] < step + 1)
            && ParentChain(closed', rank', startCoords, grid.Length0, grid.Length1)
            && (forall v :: v in openList ==> v in open' || v in closed')
  {
    RemoveAt(openList, index);
    var current := openList[index];
    var closed' := closedSet + {current};
    var rank' := rank[current := step];
    forall n | n in closed'
      ensures n in rank' && InBounds(Coords(n), grid.Length0, grid.Length1)
      ensures n.parentNode == null ==> Coords(n) == startCoords
      ensures n.parentNode != null ==>
                n.parentNode in closed' && n.parentNode in rank' && rank'[n.parentNode] < rank'[n] &&
                IsNeighbour(Coords(n.parentNode), Coords(n))
    {
      if n != current {
        assert n in closedSet;
        if n.parentNode != null {
          assert n.parentNode in closedSet;
        }
      }
    }
  }

  /** Neighbour nodes of distinct coordinates are distinct objects. */
  lemma NeighboursDistinct(grid: array2<PathNode?>, c: Int2, neighbours: seq<PathNode>)
    requires CoordsOf(neighbours) == NeighbourCoords(c, grid.Length0, grid.Length1, 9)
    ensures Distinct(neighbours)
    ensures forall k :: 0 <= k < |neighbours| ==> IsNeighbour(c, Coords(neighbours[k]))
  {
    NeighbourCoordsExact(c, grid.Length0, grid.Length1);
    forall k, l | 0 <= k < l < |neighbours| ensures neighbours[k] != neighbours[l] {
      assert Coords(neighbours[k]) != Coords(neighbours[l]);
    }
    forall k | 0 <= k < |neighbours| ensures IsNeighbour(c, Coords(neighbours[k])) {
      assert NeighbourCoords(c, grid.Length0, grid.Length1, 9)[k] in NeighbourCoords(c, grid.Length0, grid.Length1, 9);
    }
  }

  /**
    Expanding `currentNode` keeps every closed node's neighbourhood inside the
    open and closed sets: the earlier closed nodes because no open node is
    lost, `currentNode` because all its neighbours were visited.
   */
  lemma ExpandStep(grid: array2<PathNode?>, openOld: seq<PathNode>, closedOld: set<PathNode>,
                   currentNode: PathNode, openNew: seq<PathNode>, neighbours: seq<PathNode>)
    requires GridOk(grid) && InGrid(grid, currentNode)
    requires Expanded(grid, openOld, closedOld)
    requires forall v :: v in openOld ==> v in openNew || v in closedOld + {currentNode}
    requires CoordsOf(neighbours) == NeighbourCoords(Coords(currentNode), grid.Length0, grid.Length1, 9)
    requires forall k :: 0 <= k < |neighbours| ==> InGrid(grid, neighbours[k])
    requires forall m :: 0 <= m < |neighbours| ==> neighbours[m] in closedOld + {currentNode} || neighbours[m] in openNew
    ensures Expanded(grid, openNew, closedOld + {currentNode})
  {
    var c := Coords(currentNode);
    NeighbourCoordsExact(c, grid.Length0, grid.Length1);
    forall n, d | n in closedOld + {currentNode} && InBounds(d, grid.Length0, grid.Length1) && IsNeighbour(Coords(n), d)
      ensures grid[d.x, d.y] in closedOld + {currentNode} || grid[d.x, d.y] in openNew
    {
      if n == currentNode {
        var m :| 0 <= m < |neighbours| && NeighbourCoords(c, grid.Length0, grid.Length1, 9)[m] == d;
        assert neighbours[m] == grid[d.x, d.y];
      } else {
        assert grid[d.x, d.y] in closedOld || grid[d.x, d.y] in openOld;
      }
    }
  }

  /** Node objects for every cell, `grid[x, y]` at coordinates `(x, y)`, with no parents. */
  method BuildGrid(width: nat, height: nat) returns (grid: array2<PathNode?>, ghost nodes: set<PathNode>)
    ensures fresh(grid) && grid.Length0 == width && grid.Length1 == height && GridOk(grid)
    ensures forall i, j :: 0 <= i < width && 0 <= j < height ==> grid[i, j] in nodes && grid[i, j].parentNode == null
    ensures forall n :: n in nodes ==> fresh(n)
  {
    grid := new PathNode?[width, height];
    nodes := {};
    for x := 0 to width
      invariant forall i, j :: 0 <= i < x && 0 <= j < height ==>
                  grid[i, j] != null && grid[i, j] in nodes && grid[i, j].x == i && grid[i, j].y == j &&
                  grid[i, j].parentNode == null
      invariant forall n :: n in nodes ==> fresh(n)
    {
      for y := 0 to height
        invariant forall i, j :: (0 <= i < x && 0 <= j < height) || (i == x && 0 <= j < y) ==>
                    grid[i, j] != null && grid[i, j] in nodes && grid[i, j].x == i && grid[i, j].y == j &&
                    grid[i, j].parentNode == null
        invariant forall n :: n in nodes ==> fresh(n)
      {
        var node := new PathNode(x, y);
        grid[x, y] := node;
        nodes := nodes + {node};
      }
    }
  }

  /**
    `FindPath`. On a rectangular grid every cell is reachable, so the search
    always succeeds: the returned path starts at `startCoords`, ends at
    `endCoords`, and each step moves to one of the 8 neighbours.
   */
  method FindPath(heightMap: array2<real>, startCoords: Int2, endCoords: Int2, slopePenaltyMultiplier: real)
    returns (path: Option<seq<Int2>>)
    requires InBounds(startCoords, heightMap.Length0, heightMap.Length1)
    requires InBounds(endCoords, heightMap.Length0, heightMap.Length1)
    ensures path.Some? && IsPath(path.value, startCoords, endCoords, heightMap.Length0, heightMap.Length1)
  {
    var grid, nodes := BuildGrid(heightMap.Length0, heightMap.Length1);
    path := Search(heightMap, grid, nodes, startCoords, endCoords, slopePenaltyMultiplier);
  }

  /**
    The search loop of `FindPath` over a freshly built grid. It returns `null`
    only when the open list runs empty, and that cannot happen: the closed
    nodes would then be closed under neighbourhood and so contain the end node,
    which is returned as soon as it is selected.
   */
  method Search(heightMap: array2<real>, grid: array2<PathNode?>, ghost nodes: set<PathNode>,
                startCoords: Int2, endCoords: Int2, slopePenaltyMultiplier: real)
    returns (path: Option<seq<Int2>>)
    modifies nodes
    requires GridOk(grid) && grid.Length0 == heightMap.Length0 && grid.Length1 == heightMap.Length1
    requires forall i, j :: 0 <= i < grid.Length0 && 0 <= j < grid.Length1 ==> grid[i, j] in nodes
    requires InBounds(startCoords, grid.Length0, grid.Length1) && InBounds(endCoords, grid.Length0, grid.Length1)
    requires grid[startCoords.x, startCoords.y].parentNode == null
    ensures path.Some? && IsPath(path.value, startCoords, endCoords, grid.Length0, grid.Length1)
  {
    var width := grid.Length0;
    var height := grid.Length1;
    var startNode: PathNode := grid[startCoords.x, startCoords.y];
    var endNode: PathNode := grid[endCoords.x, endCoords.y];

    var openList: seq<PathNode> := [startNode];
    var closedSet: set<PathNode> := {};

    startNode.gCost := 0.0;
    startNode.hCost := Distance(Coords(startNode), Coords(endNode)) as real;
    startNode.CalculateFCost();

    ghost var rank: map<PathNode, nat> := map[];
    ghost var step: nat := 0;

    while |openList| > 0
      invariant OpenOk(grid, openList, closedSet) && OpenLinks(openList, closedSet, startCoords)
      invariant forall n :: n in closedSet ==> InGrid(grid, n) && n in rank && rank[n] < step
      invariant ParentChain(closedSet, rank, startCoords, width, height)
      invariant closedSet <= nodes
      invariant startNode in closedSet || startNode in openList
      invariant endNode !in closedSet
      invariant Expanded(grid, openList, closedSet)
      decreases nodes - closedSet
    {
      var currentNode, index := GetLowestFCostNode(openList);
      CloseStep(grid, openList, closedSet, rank, step, index, startCoords);
      if currentNode == endNode {
        var retraced := RetracePath(endNode, closedSet + {endNode}, rank[endNode := step],
                                    startCoords, width, height);
        return Some(retraced);
      }

      ghost var openOld, closedOld := openList, closedSet;
      openList := openList[..index] + openList[index + 1..];
      closedSet := closedSet + {currentNode};
      rank := rank[currentNode := step];
      step := step + 1;

      var neighbours := GetNeighbours(currentNode, grid, width, height);
      NeighboursDistinct(grid, Coords(currentNode), neighbours);
      openList := RelaxNeighbours(heightMap, grid, currentNode, endNode, neighbours, openList, closedSet,
                                  slopePenaltyMultiplier, rank, startCoords);
      ExpandStep(grid, openOld, closedOld, currentNode, openList, neighbours);
    }

    // The open list is exhausted: the closed nodes are closed under
    // neighbourhood, so they cover the grid, the end node included.
    FloodFillNodes(grid, closedSet, startCoords, endCoords);
    assert false;
    return None;
  }
}
