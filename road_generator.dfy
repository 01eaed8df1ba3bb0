/**
  `RoadGenerator.GenerateRoads`: nodes are rejection-sampled on the white part
  of a flat-area mask, every unordered pair of nodes is joined by a sampled
  straight line, and a square stamp around every sample flattens a clone of
  the height grid towards the sample's height. The height grids are indexed
  `[y, x]`, the mask and the visualiser by `(x, y)`.
 */
module RoadGenerator {
  import opened Common

  // ---------------------------------------------------------------------------
  // Node sampling
  // ---------------------------------------------------------------------------

  /** The two integer draws of one try of the `do`-`while` loop. */
  datatype NodeDraw = NodeDraw(x: nat, y: nat)

  function DrawPoint(resolution: int, d: NodeDraw): Int2
  {
    Int2(RangeInt(resolution, d.x), RangeInt(resolution, d.y))
  }

  /** A try is kept unless the mask's red channel there is below 0.5. */
  predicate OnMask(maskAt: (int, int) -> real, p: Int2)
  {
    !(maskAt(p.x, p.y) < 0.5)
  }

  /** The points of the accepted tries of `draws`, in order. */
  function Accepted(maskAt: (int, int) -> real, resolution: int, draws: seq<NodeDraw>): seq<Int2>
  {
    if |draws| == 0 then []
    else
      var p := DrawPoint(resolution, draws[|draws| - 1]);
      Accepted(maskAt, resolution, draws[..|draws| - 1]) + if OnMask(maskAt, p) then [p] else []
  }

  /** Every accepted point lies on the mask, and inside the grid when the grid is not empty. */
  lemma {:induction false} AcceptedOnMask(maskAt: (int, int) -> real, resolution: int, draws: seq<NodeDraw>)
    ensures forall k :: 0 <= k < |Accepted(maskAt, resolution, draws)| ==>
              var p := Accepted(maskAt, resolution, draws)[k];
              && OnMask(maskAt, p)
              && (resolution > 0 ==> 0 <= p.x < resolution && 0 <= p.y < resolution)
              && (resolution <= 0 ==> p == Int2(0, 0))
    ensures |Accepted(maskAt, resolution, draws)| <= |draws|
  {
    if |draws| > 0 {
      AcceptedOnMask(maskAt, resolution, draws[..|draws| - 1]);
    }
  }

  /** The points accepted from a prefix of the draws are a prefix of those accepted from all of them. */
  lemma {:induction false} AcceptedPrefix(maskAt: (int, int) -> real, resolution: int, draws: seq<NodeDraw>, d: nat)
    requires d <= |draws|
    ensures Accepted(maskAt, resolution, draws[..d]) <= Accepted(maskAt, resolution, draws)
  {
    if d < |draws| {
      AcceptedPrefix(maskAt, resolution, draws[..|draws| - 1], d);
      assert draws[..|draws| - 1][..d] == draws[..d];
    } else {
      assert draws[..d] == draws;
    }
  }

  /**
    The node loop. `maskAt` is `flatAreaMask.GetPixel(x, y).r` and `draws` the
    stream of `Random.Range` pairs. The source retries without bound; `None`
    stands for a stream that runs out before every node is found, which in the
    source is a loop that does not end.
   */
  method SampleNodes(maskAt: (int, int) -> real, resolution: int, numberOfNodes: int, draws: seq<NodeDraw>)
    returns (nodes: Option<seq<Int2>>)
    ensures var n := if numberOfNodes < 0 then 0 else numberOfNodes;
            var accepted := Accepted(maskAt, resolution, draws);
            && (nodes.Some? <==> |accepted| >= n)
            && (nodes.Some? ==> nodes.value == accepted[..n])
  {
    var n: nat := if numberOfNodes < 0 then 0 else numberOfNodes;
    var found: seq<Int2> := [];
    var d := 0;
    for i := 0 to n
      invariant 0 <= d <= |draws| && |found| == i
      invariant found == Accepted(maskAt, resolution, draws[..d])
    {
      var x, y;
      while true
        invariant d <= |draws|
        invariant found == Accepted(maskAt, resolution, draws[..d])
        decreases |draws| - d
      {
        if d == |draws| {
          assert draws[..d] == draws;
          return None;
        }
        x := RangeInt(resolution, draws[d].x);
        y := RangeInt(resolution, draws[d].y);
        assert draws[..d + 1][..d] == draws[..d];
        d := d + 1;
        if !(maskAt(x, y) < 0.5) {
          break;
        }
      }
      found := found + [Int2(x, y)];
    }
    AcceptedPrefix(maskAt, resolution, draws, d);
    nodes := Some(found);
  }

  // ---------------------------------------------------------------------------
  // Line sampling and the square stamp
  // ---------------------------------------------------------------------------

  predicate InGrid(resolution: int, c: Int2)
  {
    0 <= c.x < resolution && 0 <= c.y < resolution
  }

  function ToVec(c: Int2): Vec2
  {
    Vec2(c.x as real, c.y as real)
  }

  /** `(int)Vector2.Distance(start, end)`. */
  function PointsCount(sqrt: real -> real, a: Int2, b: Int2): int
  {
    TruncToInt(sqrt(Dist2Sq(ToVec(a), ToVec(b))))
  }

  /** Sample `k` of the line: both coordinates of `Lerp(start, end, k / pointsCount)` cast to `int`. */
  function SamplePoint(sqrt: real -> real, a: Int2, b: Int2, k: int): Int2
    requires PointsCount(sqrt, a, b) >= 1
  {
    var t := k as real / PointsCount(sqrt, a, b) as real;
    Int2(TruncToInt(Lerp(a.x as real, b.x as real, t)), TruncToInt(Lerp(a.y as real, b.y as real, t)))
  }

  /** No samples are taken between coincident nodes; distinct nodes give at least one. */
  lemma PointsCountZeroIffSame(sqrt: real -> real, a: Int2, b: Int2)
    requires IsSqrt(sqrt)
    ensures PointsCount(sqrt, a, b) >= 0
    ensures PointsCount(sqrt, a, b) == 0 <==> a == b
  {
    var q := Dist2Sq(ToVec(a), ToVec(b));
    SqrtAtMost(sqrt, q, 0.0);
    if a != b {
      var dx, dy := a.x - b.x, a.y - b.y;
      assert q == (dx * dx + dy * dy) as real;
      assert dx * dx >= 1 || dy * dy >= 1 by {
        if dx != 0 {
          assert dx * dx == AbsInt(dx) * AbsInt(dx);
          MulAtLeast(AbsInt(dx), AbsInt(dx));
        } else {
          assert dy * dy == AbsInt(dy) * AbsInt(dy);
          MulAtLeast(AbsInt(dy), AbsInt(dy));
        }
      }
      SqrtLess(sqrt, q, 1.0);
    }
  }

  /** The first sample is the start node and the last the end node. */
  lemma SampleEndpoints(sqrt: real -> real, a: Int2, b: Int2)
    requires PointsCount(sqrt, a, b) >= 1
    ensures SamplePoint(sqrt, a, b, 0) == a
    ensures SamplePoint(sqrt, a, b, PointsCount(sqrt, a, b)) == b
  {
    var n := PointsCount(sqrt, a, b) as real;
    assert 0 as real / n == 0.0;
    assert n / n == 1.0;
    LerpBetween(a.x as real, b.x as real, 0.0);
    LerpBetween(a.y as real, b.y as real, 0.0);
    LerpBetween(a.x as real, b.x as real, 1.0);
    LerpBetween(a.y as real, b.y as real, 1.0);
  }

  lemma TruncBetween(m: int, n: int, v: real)
    requires 0 <= m && 0 <= n
    requires (m as real <= v <= n as real) || (n as real <= v <= m as real)
    ensures (m <= TruncToInt(v) <= n) || (n <= TruncToInt(v) <= m)
  {
  }

  /** Every sample between two grid nodes is a grid cell. */
  lemma SampleInGrid(sqrt: real -> real, resolution: int, a: Int2, b: Int2, k: int)
    requires PointsCount(sqrt, a, b) >= 1 && InGrid(resolution, a) && InGrid(resolution, b)
    ensures InGrid(resolution, SamplePoint(sqrt, a, b, k))
  {
    var t := k as real / PointsCount(sqrt, a, b) as real;
    LerpBetween(a.x as real, b.x as real, t);
    LerpBetween(a.y as real, b.y as real, t);
    TruncBetween(a.x, b.x, Lerp(a.x as real, b.x as real, t));
    TruncBetween(a.y, b.y, Lerp(a.y as real, b.y as real, t));
  }

  /** `-(int)roadWidth / 2` and `(int)roadWidth / 2`, with C#'s truncating division. */
  function HalfLow(roadWidth: real): int
  {
    TruncDiv(-TruncToInt(roadWidth), 2)
  }

  function HalfHigh(roadWidth: real): int
  {
    TruncDiv(TruncToInt(roadWidth), 2)
  }

  /** For a non-negative width the stamp is the square from `-(w / 2)` to `w / 2` around its centre. */
  lemma HalfWidthSymmetric(roadWidth: real)
    requires roadWidth >= 0.0
    ensures HalfLow(roadWidth) == -HalfHigh(roadWidth) && HalfHigh(roadWidth) == roadWidth.Floor / 2
  {
  }

  /** The stamp around `c` covers `cell`. */
  predicate SquareCovers(roadWidth: real, c: Int2, cell: Int2)
  {
    HalfLow(roadWidth) <= cell.x - c.x <= HalfHigh(roadWidth) && HalfLow(roadWidth) <= cell.y - c.y <= HalfHigh(roadWidth)
  }

  /** Some sample of the line from `a` to `b` stamps `cell`. */
  ghost predicate SegmentCovers(sqrt: real -> real, roadWidth: real, a: Int2, b: Int2, cell: Int2)
  {
    PointsCount(sqrt, a, b) >= 1
    && exists k :: 0 <= k <= PointsCount(sqrt, a, b) && SampleCovers(sqrt, roadWidth, a, b, k, cell)
  }

  /** The stamp around sample `k` of the line from `a` to `b` covers `cell`. */
  predicate SampleCovers(sqrt: real -> real, roadWidth: real, a: Int2, b: Int2, k: int, cell: Int2)
  {
    PointsCount(sqrt, a, b) >= 1 && SquareCovers(roadWidth, SamplePoint(sqrt, a, b, k), cell)
  }

  /** Some unordered pair of nodes stamps `cell`: the network is all pairs, not a tree. */
  ghost predicate NetworkCovers(sqrt: real -> real, roadWidth: real, nodes: seq<Int2>, cell: Int2)
  {
    exists i, j :: PairCovers(sqrt, roadWidth, nodes, i, j, cell)
  }

  /** The line between nodes `i < j` stamps `cell`. */
  ghost predicate PairCovers(sqrt: real -> real, roadWidth: real, nodes: seq<Int2>, i: int, j: int, cell: Int2)
  {
    0 <= i < j < |nodes| && SegmentCovers(sqrt, roadWidth, nodes[i], nodes[j], cell)
  }

  /** `c` is one of the samples of the network. */
  ghost predicate NetworkSample(sqrt: real -> real, nodes: seq<Int2>, c: Int2)
  {
    exists i, j, k :: 0 <= i < j < |nodes| && PointsCount(sqrt, nodes[i], nodes[j]) >= 1
                      && 0 <= k <= PointsCount(sqrt, nodes[i], nodes[j])
                      && SamplePoint(sqrt, nodes[i], nodes[j], k) == c
  }

  /** The height a stamp with centre `c` gives `cell`: both read from the original grid. */
  function StampedHeight(originalHeights: array2<real>, flattenStrength: real, cell: Int2, c: Int2): real
    reads originalHeights
    requires 0 <= cell.y < originalHeights.Length0 && 0 <= cell.x < originalHeights.Length1
    requires 0 <= c.y < originalHeights.Length0 && 0 <= c.x < originalHeights.Length1
  {
    Lerp(originalHeights[cell.y, cell.x], originalHeights[c.y, c.x], flattenStrength)
  }

  /** A stamped height lies between the cell's original height and that of the stamp's centre. */
  lemma StampedHeightBetween(originalHeights: array2<real>, flattenStrength: real, cell: Int2, c: Int2)
    requires 0 <= cell.y < originalHeights.Length0 && 0 <= cell.x < originalHeights.Length1
    requires 0 <= c.y < originalHeights.Length0 && 0 <= c.x < originalHeights.Length1
    ensures var h, ch := originalHeights[cell.y, cell.x], originalHeights[c.y, c.x];
            var r := StampedHeight(originalHeights, flattenStrength, cell, c);
            (h <= ch ==> h <= r <= ch) && (ch <= h ==> ch <= r <= h)
  {
    LerpBetween(originalHeights[cell.y, cell.x], originalHeights[c.y, c.x], flattenStrength);
  }

  /**
    The state the stamping keeps: the painted cells are grid cells, and they are
    exactly the cells with a recorded stamp centre. A painted cell holds the
    height its last stamp gave it, from a centre that is a grid sample of the
    network covering it. Every other cell keeps its original height.
   */
  ghost predicate Stamped(originalHeights: array2<real>, modifiedHeights: array2<real>, painted: set<Int2>,
                          stampOf: map<Int2, Int2>, sqrt: real -> real, nodes: seq<Int2>, roadWidth: real,
                          flattenStrength: real)
    reads originalHeights, modifiedHeights
  {
    var resolution := originalHeights.Length0;
    && originalHeights.Length1 == resolution
    && modifiedHeights.Length0 == resolution && modifiedHeights.Length1 == resolution
    && painted == stampOf.Keys
    && CentresValid(resolution, stampOf, sqrt, nodes, roadWidth)
    && forall y, x {:trigger CellState(originalHeights, modifiedHeights, flattenStrength, stampOf, Int2(x, y))} ::
         0 <= y < resolution && 0 <= x < resolution ==>
         CellState(originalHeights, modifiedHeights, flattenStrength, stampOf, Int2(x, y))
  }

  /** Every recorded centre is a grid sample of the network whose stamp covers its grid cell. */
  ghost predicate CentresValid(resolution: int, stampOf: map<Int2, Int2>, sqrt: real -> real, nodes: seq<Int2>,
                               roadWidth: real)
  {
    forall cell {:trigger stampOf[cell]} :: cell in stampOf ==>
      && InGrid(resolution, cell)
      && InGrid(resolution, stampOf[cell])
      && SquareCovers(roadWidth, stampOf[cell], cell)
      && NetworkSample(sqrt, nodes, stampOf[cell])
  }

  /**
    A grid cell with a recorded centre holds the height that centre's stamp
    gives it; any other grid cell keeps its original height.
   */
  ghost predicate CellState(originalHeights: array2<real>, modifiedHeights: array2<real>, flattenStrength: real,
                            stampOf: map<Int2, Int2>, cell: Int2)
    reads originalHeights, modifiedHeights
  {
    var resolution := originalHeights.Length0;
    && InGrid(resolution, cell)
    && originalHeights.Length1 == resolution
    && modifiedHeights.Length0 == resolution && modifiedHeights.Length1 == resolution
    && if cell in stampOf then
         && InGrid(resolution, stampOf[cell])
         && modifiedHeights[cell.y, cell.x] == StampedHeight(originalHeights, flattenStrength, cell, stampOf[cell])
       else
         modifiedHeights[cell.y, cell.x] == originalHeights[cell.y, cell.x]
  }

  /** `cell` was painted by this stage of the stamping. */
  predicate Added(painted0: set<Int2>, painted: set<Int2>, cell: Int2)
  {
    cell in painted && cell !in painted0
  }

  /** `cell` is in row `offsetY` of the stamp around `c`, left of column offset `limit`. */
  predicate InRowPrefix(roadWidth: real, c: Int2, offsetY: int, limit: int, cell: Int2)
  {
    cell.y == c.y + offsetY && HalfLow(roadWidth) <= cell.x - c.x < limit
  }

  /** One write of the stamp around `c`: cell `(px, py)` of the grid. */
  method StampCell(originalHeights: array2<real>, modifiedHeights: array2<real>, painted0: set<Int2>,
                   ghost stampOf0: map<Int2, Int2>, sqrt: real -> real, ghost nodes: seq<Int2>, roadWidth: real,
                   flattenStrength: real, c: Int2, px: int, py: int)
    returns (painted: set<Int2>, ghost stampOf: map<Int2, Int2>)
    requires originalHeights != modifiedHeights
    requires Stamped(originalHeights, modifiedHeights, painted0, stampOf0, sqrt, nodes, roadWidth, flattenStrength)
    requires InGrid(originalHeights.Length0, c) && NetworkSample(sqrt, nodes, c)
    requires InGrid(originalHeights.Length0, Int2(px, py)) && SquareCovers(roadWidth, c, Int2(px, py))
    modifies modifiedHeights
    ensures Stamped(originalHeights, modifiedHeights, painted, stampOf, sqrt, nodes, roadWidth, flattenStrength)
    ensures painted == painted0 + {Int2(px, py)}
  {
    var originalHeight := originalHeights[py, px];
    var targetHeight := originalHeights[c.y, c.x];
    modifiedHeights[py, px] := Lerp(originalHeight, targetHeight, flattenStrength);
    painted := painted0 + {Int2(px, py)};
    stampOf := stampOf0[Int2(px, py) := c];
    CentresExtend(originalHeights.Length0, stampOf0, sqrt, nodes, roadWidth, Int2(px, py), c);
    forall y, x | 0 <= y < originalHeights.Length0 && 0 <= x < originalHeights.Length0
      ensures CellState(originalHeights, modifiedHeights, flattenStrength, stampOf, Int2(x, y))
    {
      if (y, x) != (py, px) {
        assert old(CellState(originalHeights, modifiedHeights, flattenStrength, stampOf0, Int2(x, y)));
      }
    }
  }

  lemma CentresExtend(resolution: int, stampOf: map<Int2, Int2>, sqrt: real -> real, nodes: seq<Int2>,
                      roadWidth: real, cell: Int2, c: Int2)
    requires CentresValid(resolution, stampOf, sqrt, nodes, roadWidth)
    requires InGrid(resolution, cell) && InGrid(resolution, c) && SquareCovers(roadWidth, c, cell)
    requires NetworkSample(sqrt, nodes, c)
    ensures CentresValid(resolution, stampOf[cell := c], sqrt, nodes, roadWidth)
  {
  }

  /** One iteration of the `offsetX` loop: the write at `(c.x + offsetX, c.y + offsetY)` if it is a grid cell. */
  method StampOffset(originalHeights: array2<real>, modifiedHeights: array2<real>, ghost rowStart: set<Int2>,
                     painted0: set<Int2>, ghost stampOf0: map<Int2, Int2>, sqrt: real -> real, ghost nodes: seq<Int2>,
                     roadWidth: real, flattenStrength: real, c: Int2, offsetY: int, offsetX: int)
    returns (painted: set<Int2>, ghost stampOf: map<Int2, Int2>)
    requires originalHeights != modifiedHeights
    requires Stamped(originalHeights, modifiedHeights, painted0, stampOf0, sqrt, nodes, roadWidth, flattenStrength)
    requires InGrid(originalHeights.Length0, c) && NetworkSample(sqrt, nodes, c)
    requires HalfLow(roadWidth) <= offsetY <= HalfHigh(roadWidth) && HalfLow(roadWidth) <= offsetX <= HalfHigh(roadWidth)
    requires rowStart <= painted0
    requires forall cell {:trigger Added(rowStart, painted0, cell)} ::
               Added(rowStart, painted0, cell) ==> InRowPrefix(roadWidth, c, offsetY, offsetX, cell)
    requires forall cell {:trigger InRowPrefix(roadWidth, c, offsetY, offsetX, cell)} ::
               InGrid(originalHeights.Length0, cell) && InRowPrefix(roadWidth, c, offsetY, offsetX, cell) ==>
                 cell in painted0
    modifies modifiedHeights
    ensures Stamped(originalHeights, modifiedHeights, painted, stampOf, sqrt, nodes, roadWidth, flattenStrength)
    ensures rowStart <= painted
    ensures forall cell {:trigger Added(rowStart, painted, cell)} ::
              Added(rowStart, painted, cell) ==> InRowPrefix(roadWidth, c, offsetY, offsetX + 1, cell)
    ensures forall cell {:trigger InRowPrefix(roadWidth, c, offsetY, offsetX + 1, cell)} ::
              InGrid(originalHeights.Length0, cell) && InRowPrefix(roadWidth, c, offsetY, offsetX + 1, cell) ==>
                cell in painted
  {
    var resolution := originalHeights.Length0;
    var px := c.x + offsetX;
    var py := c.y + offsetY;
    painted, stampOf := painted0, stampOf0;
    if px >= 0 && px < resolution && py >= 0 && py < resolution {
      painted, stampOf := StampCell(originalHeights, modifiedHeights, painted, stampOf, sqrt, nodes, roadWidth,
                                    flattenStrength, c, px, py);
    }
    forall cell | Added(rowStart, painted, cell)
      ensures InRowPrefix(roadWidth, c, offsetY, offsetX + 1, cell)
    {
      if cell != Int2(px, py) {
        assert Added(rowStart, painted0, cell);
      }
    }
    forall cell | InGrid(resolution, cell) && InRowPrefix(roadWidth, c, offsetY, offsetX + 1, cell)
      ensures cell in painted
    {
      if cell.x - c.x < offsetX {
        assert InRowPrefix(roadWidth, c, offsetY, offsetX, cell);
      } else {
        assert cell == Int2(px, py);
      }
    }
  }

  /** The inner `offsetX` loop of the stamp around `c`, for row offset `offsetY`. */
  method StampRow(originalHeights: array2<real>, modifiedHeights: array2<real>, painted0: set<Int2>,
                  ghost stampOf0: map<Int2, Int2>, sqrt: real -> real, ghost nodes: seq<Int2>, roadWidth: real,
                  flattenStrength: real, c: Int2, offsetY: int)
    returns (painted: set<Int2>, ghost stampOf: map<Int2, Int2>)
    requires originalHeights != modifiedHeights
    requires Stamped(originalHeights, modifiedHeights, painted0, stampOf0, sqrt, nodes, roadWidth, flattenStrength)
    requires InGrid(originalHeights.Length0, c) && NetworkSample(sqrt, nodes, c)
    requires HalfLow(roadWidth) <= offsetY <= HalfHigh(roadWidth)
    modifies modifiedHeights
    ensures Stamped(originalHeights, modifiedHeights, painted, stampOf, sqrt, nodes, roadWidth, flattenStrength)
    ensures painted0 <= painted
    ensures forall cell :: cell in painted && cell !in painted0 ==> SquareCovers(roadWidth, c, cell)
    ensures forall cell ::
              (InGrid(originalHeights.Length0, cell) && cell.y == c.y + offsetY
               && HalfLow(roadWidth) <= cell.x - c.x <= HalfHigh(roadWidth)) ==> cell in painted
  {
    var resolution := originalHeights.Length0;
    painted, stampOf := painted0, stampOf0;
    var lo, hi := HalfLow(roadWidth), HalfHigh(roadWidth);
    if hi < lo {
      return;
    }
    for offsetX := lo to hi + 1
      invariant Stamped(originalHeights, modifiedHeights, painted, stampOf, sqrt, nodes, roadWidth, flattenStrength)
      invariant painted0 <= painted
      invariant forall cell {:trigger Added(painted0, painted, cell)} ::
                  Added(painted0, painted, cell) ==> InRowPrefix(roadWidth, c, offsetY, offsetX, cell)
      invariant forall cell {:trigger InRowPrefix(roadWidth, c, offsetY, offsetX, cell)} ::
                  InGrid(resolution, cell) && InRowPrefix(roadWidth, c, offsetY, offsetX, cell) ==> cell in painted
    {
      painted, stampOf := StampOffset(originalHeights, modifiedHeights, painted0, painted, stampOf, sqrt, nodes,
                                      roadWidth, flattenStrength, c, offsetY, offsetX);
    }
    forall cell | cell in painted && cell !in painted0
      ensures SquareCovers(roadWidth, c, cell)
    {
      assert Added(painted0, painted, cell);
    }
    forall cell | InGrid(resolution, cell) && cell.y == c.y + offsetY
                  && HalfLow(roadWidth) <= cell.x - c.x <= HalfHigh(roadWidth)
      ensures cell in painted
    {
      assert InRowPrefix(roadWidth, c, offsetY, hi + 1, cell);
    }
  }

  /** The stamp around sample `c`: the square clipped to the grid. */
  method StampSquare(originalHeights: array2<real>, modifiedHeights: array2<real>, painted0: set<Int2>,
                     ghost stampOf0: map<Int2, Int2>, sqrt: real -> real, ghost nodes: seq<Int2>, roadWidth: real,
                     flattenStrength: real, c: Int2)
    returns (painted: set<Int2>, ghost stampOf: map<Int2, Int2>)
    requires originalHeights != modifiedHeights
    requires Stamped(originalHeights, modifiedHeights, painted0, stampOf0, sqrt, nodes, roadWidth, flattenStrength)
    requires InGrid(originalHeights.Length0, c) && NetworkSample(sqrt, nodes, c)
    modifies modifiedHeights
    ensures Stamped(originalHeights, modifiedHeights, painted, stampOf, sqrt, nodes, roadWidth, flattenStrength)
    ensures painted0 <= painted
    ensures forall cell :: cell in painted && cell !in painted0 ==> SquareCovers(roadWidth, c, cell)
    ensures forall cell :: InGrid(originalHeights.Length0, cell) && SquareCovers(roadWidth, c, cell) ==> cell in painted
  {
    painted, stampOf := painted0, stampOf0;
    var lo, hi := HalfLow(roadWidth), HalfHigh(roadWidth);
    if hi < lo {
      return;
    }
    for offsetY := lo to hi + 1
      invariant Stamped(originalHeights, modifiedHeights, painted, stampOf, sqrt, nodes, roadWidth, flattenStrength)
      invariant painted0 <= painted
      invariant forall cell :: cell in painted && cell !in painted0 ==> SquareCovers(roadWidth, c, cell)
      invariant forall cell ::
                  (InGrid(originalHeights.Length0, cell) && SquareCovers(roadWidth, c, cell)
                   && cell.y - c.y < offsetY) ==> cell in painted
    {
      painted, stampOf := StampRow(originalHeights, modifiedHeights, painted, stampOf, sqrt, nodes, roadWidth,
                                   flattenStrength, c, offsetY);
    }
  }

  /**
    The `k` loop for the pair `(nodes[i], nodes[j])`. For coincident nodes
    `pointsCount` is 0 and the single sample has `t = 0 / 0`, which is not a
    number; what C# makes of casting it to `int` is not specified, and the
    model chooses to write nothing for that sample.
   */
  method RasteriseSegment(originalHeights: array2<real>, modifiedHeights: array2<real>, painted0: set<Int2>,
                          ghost stampOf0: map<Int2, Int2>, sqrt: real -> real, nodes: seq<Int2>, roadWidth: real,
                          flattenStrength: real, i: int, j: int)
    returns (painted: set<Int2>, ghost stampOf: map<Int2, Int2>)
    requires 0 <= i < j < |nodes|
    requires originalHeights != modifiedHeights
    requires Stamped(originalHeights, modifiedHeights, painted0, stampOf0, sqrt, nodes, roadWidth, flattenStrength)
    requires PointsCount(sqrt, nodes[i], nodes[j]) >= 1 ==>
               InGrid(originalHeights.Length0, nodes[i]) && InGrid(originalHeights.Length0, nodes[j])
    modifies modifiedHeights
    ensures Stamped(originalHeights, modifiedHeights, painted, stampOf, sqrt, nodes, roadWidth, flattenStrength)
    ensures painted0 <= painted
    ensures forall cell :: cell in painted && cell !in painted0 ==>
              SegmentCovers(sqrt, roadWidth, nodes[i], nodes[j], cell)
    ensures forall cell :: InGrid(originalHeights.Length0, cell) && SegmentCovers(sqrt, roadWidth, nodes[i], nodes[j], cell)
              ==> cell in painted
  {
    painted, stampOf := painted0, stampOf0;
    var start, end := nodes[i], nodes[j];
    var pointsCount := PointsCount(sqrt, start, end);
    if pointsCount < 1 {
      return;
    }
    for k := 0 to pointsCount + 1
      invariant Stamped(originalHeights, modifiedHeights, painted, stampOf, sqrt, nodes, roadWidth, flattenStrength)
      invariant painted0 <= painted
      invariant forall cell {:trigger Added(painted0, painted, cell)} ::
                  Added(painted0, painted, cell) ==> SegmentCovers(sqrt, roadWidth, start, end, cell)
      invariant forall cell, k' {:trigger SampleCovers(sqrt, roadWidth, start, end, k', cell)} ::
                  (InGrid(originalHeights.Length0, cell) && 0 <= k' < k
                   && SampleCovers(sqrt, roadWidth, start, end, k', cell)) ==> cell in painted
    {
      var t := k as real / pointsCount as real;
      var currentX := TruncToInt(Lerp(start.x as real, end.x as real, t));
      var currentY := TruncToInt(Lerp(start.y as real, end.y as real, t));
      var centre := Int2(currentX, currentY);
      assert centre == SamplePoint(sqrt, start, end, k);
      SampleInGrid(sqrt, originalHeights.Length0, start, end, k);
      assert NetworkSample(sqrt, nodes, centre) by {
        assert PointsCount(sqrt, nodes[i], nodes[j]) >= 1 && SamplePoint(sqrt, nodes[i], nodes[j], k) == centre;
      }
      ghost var before := painted;
      painted, stampOf := StampSquare(originalHeights, modifiedHeights, painted, stampOf, sqrt, nodes, roadWidth,
                                      flattenStrength, centre);
      forall cell | Added(painted0, painted, cell)
        ensures SegmentCovers(sqrt, roadWidth, start, end, cell)
      {
        if cell in before {
          assert Added(painted0, before, cell);
        } else {
          assert SampleCovers(sqrt, roadWidth, start, end, k, cell);
        }
      }
      forall cell, k' | InGrid(originalHeights.Length0, cell) && 0 <= k' < k + 1
                        && SampleCovers(sqrt, roadWidth, start, end, k', cell)
        ensures cell in painted
      {
        if k' == k {
          assert SquareCovers(roadWidth, centre, cell);
        }
      }
    }
    forall cell | cell in painted && cell !in painted0
      ensures SegmentCovers(sqrt, roadWidth, nodes[i], nodes[j], cell)
    {
      assert Added(painted0, painted, cell);
    }
    forall cell | InGrid(originalHeights.Length0, cell) && SegmentCovers(sqrt, roadWidth, nodes[i], nodes[j], cell)
      ensures cell in painted
    {
      var k' :| 0 <= k' <= pointsCount && SampleCovers(sqrt, roadWidth, start, end, k', cell);
    }
  }

  /** The `j` loop for node `i`: the pairs `(i, j)` with `j > i`. */
  method RasteriseFrom(originalHeights: array2<real>, modifiedHeights: array2<real>, painted0: set<Int2>,
                       ghost stampOf0: map<Int2, Int2>, sqrt: real -> real, nodes: seq<Int2>, roadWidth: real,
                       flattenStrength: real, i: int)
    returns (painted: set<Int2>, ghost stampOf: map<Int2, Int2>)
    requires 0 <= i < |nodes|
    requires originalHeights != modifiedHeights
    requires Stamped(originalHeights, modifiedHeights, painted0, stampOf0, sqrt, nodes, roadWidth, flattenStrength)
    requires forall a, b :: 0 <= a < b < |nodes| && PointsCount(sqrt, nodes[a], nodes[b]) >= 1 ==>
               InGrid(originalHeights.Length0, nodes[a]) && InGrid(originalHeights.Length0, nodes[b])
    modifies modifiedHeights
    ensures Stamped(originalHeights, modifiedHeights, painted, stampOf, sqrt, nodes, roadWidth, flattenStrength)
    ensures painted0 <= painted
    ensures forall cell :: cell in painted && cell !in painted0 ==> NetworkCovers(sqrt, roadWidth, nodes, cell)
    ensures forall cell, j ::
              (InGrid(originalHeights.Length0, cell) && i < j < |nodes|
               && SegmentCovers(sqrt, roadWidth, nodes[i], nodes[j], cell)) ==> cell in painted
  {
    painted, stampOf := painted0, stampOf0;
    for j := i + 1 to |nodes|
      invariant Stamped(originalHeights, modifiedHeights, painted, stampOf, sqrt, nodes, roadWidth, flattenStrength)
      invariant painted0 <= painted
      invariant forall cell {:trigger Added(painted0, painted, cell)} ::
                  Added(painted0, painted, cell) ==> NetworkCovers(sqrt, roadWidth, nodes, cell)
      invariant forall cell, j' {:trigger PairCovers(sqrt, roadWidth, nodes, i, j', cell)} ::
                  (InGrid(originalHeights.Length0, cell) && j' < j && PairCovers(sqrt, roadWidth, nodes, i, j', cell))
                  ==> cell in painted
    {
      ghost var before := painted;
      painted, stampOf := RasteriseSegment(originalHeights, modifiedHeights, painted, stampOf, sqrt, nodes, roadWidth,
                                           flattenStrength, i, j);
      forall cell | Added(painted0, painted, cell)
        ensures NetworkCovers(sqrt, roadWidth, nodes, cell)
      {
        if cell in before {
          assert Added(painted0, before, cell);
        } else {
          assert PairCovers(sqrt, roadWidth, nodes, i, j, cell);
        }
      }
      forall cell, j' | InGrid(originalHeights.Length0, cell) && j' < j + 1
                        && PairCovers(sqrt, roadWidth, nodes, i, j', cell)
        ensures cell in painted
      {
      }
    }
    forall cell | cell in painted && cell !in painted0
      ensures NetworkCovers(sqrt, roadWidth, nodes, cell)
    {
      assert Added(painted0, painted, cell);
    }
    forall cell, j | InGrid(originalHeights.Length0, cell) && i < j < |nodes|
                     && SegmentCovers(sqrt, roadWidth, nodes[i], nodes[j], cell)
      ensures cell in painted
    {
      assert PairCovers(sqrt, roadWidth, nodes, i, j, cell);
    }
  }

  /**
    The pair loops: every unordered pair of nodes is rasterised onto
    `modifiedHeights`, which starts as a copy of `originalHeights`.
    `painted` is the set of cells the visualiser sets white.
   */
  method RasteriseNetwork(originalHeights: array2<real>, modifiedHeights: array2<real>, sqrt: real -> real,
                          nodes: seq<Int2>, roadWidth: real, flattenStrength: real)
    returns (painted: set<Int2>, ghost stampOf: map<Int2, Int2>)
    requires originalHeights != modifiedHeights
    requires Stamped(originalHeights, modifiedHeights, {}, map[], sqrt, nodes, roadWidth, flattenStrength)
    requires forall a, b :: 0 <= a < b < |nodes| && PointsCount(sqrt, nodes[a], nodes[b]) >= 1 ==>
               InGrid(originalHeights.Length0, nodes[a]) && InGrid(originalHeights.Length0, nodes[b])
    modifies modifiedHeights
    ensures Stamped(originalHeights, modifiedHeights, painted, stampOf, sqrt, nodes, roadWidth, flattenStrength)
    ensures forall cell :: cell in painted <==>
              InGrid(originalHeights.Length0, cell) && NetworkCovers(sqrt, roadWidth, nodes, cell)
  {
    painted, stampOf := {}, map[];
    for i := 0 to |nodes|
      invariant Stamped(originalHeights, modifiedHeights, painted, stampOf, sqrt, nodes, roadWidth, flattenStrength)
      invariant forall cell :: cell in painted ==> NetworkCovers(sqrt, roadWidth, nodes, cell)
      invariant forall cell, a, b {:trigger PairCovers(sqrt, roadWidth, nodes, a, b, cell)} ::
                  (InGrid(originalHeights.Length0, cell) && a < i && PairCovers(sqrt, roadWidth, nodes, a, b, cell))
                  ==> cell in painted
    {
      painted, stampOf := RasteriseFrom(originalHeights, modifiedHeights, painted, stampOf, sqrt, nodes, roadWidth,
                                        flattenStrength, i);
      forall cell, a, b | InGrid(originalHeights.Length0, cell) && a < i + 1
                          && PairCovers(sqrt, roadWidth, nodes, a, b, cell)
        ensures cell in painted
      {
      }
    }
    forall cell | InGrid(originalHeights.Length0, cell) && NetworkCovers(sqrt, roadWidth, nodes, cell)
      ensures cell in painted
    {
      var a, b :| PairCovers(sqrt, roadWidth, nodes, a, b, cell);
    }
  }

  /** `originalHeights.Clone()`: a fresh grid with the same heights, where nothing is stamped yet. */
  method CloneHeights(originalHeights: array2<real>, ghost sqrt: real -> real, ghost roadWidth: real,
                      ghost flattenStrength: real)
    returns (modifiedHeights: array2<real>)
    requires originalHeights.Length0 == originalHeights.Length1
    ensures fresh(modifiedHeights)
    ensures forall nodes :: Stamped(originalHeights, modifiedHeights, {}, map[], sqrt, nodes, roadWidth, flattenStrength)
  {
    var resolution := originalHeights.Length0;
    modifiedHeights := new real[resolution, resolution]((y, x) reads originalHeights =>
                                                          if 0 <= y < resolution && 0 <= x < resolution
                                                          then originalHeights[y, x] else 0.0);
    forall y, x | 0 <= y < resolution && 0 <= x < resolution
      ensures CellState(originalHeights, modifiedHeights, flattenStrength, map[], Int2(x, y))
    {
    }
  }

  /** What the stamping state says about each cell of the grid. */
  lemma StampedCells(originalHeights: array2<real>, modifiedHeights: array2<real>, painted: set<Int2>,
                     stampOf: map<Int2, Int2>, sqrt: real -> real, nodes: seq<Int2>, roadWidth: real,
                     flattenStrength: real)
    requires Stamped(originalHeights, modifiedHeights, painted, stampOf, sqrt, nodes, roadWidth, flattenStrength)
    ensures forall y, x ::
              (0 <= y < originalHeights.Length0 && 0 <= x < originalHeights.Length0 && Int2(x, y) !in painted) ==>
                modifiedHeights[y, x] == originalHeights[y, x]
    ensures forall cell :: cell in painted ==>
              exists c :: InGrid(originalHeights.Length0, c) && SquareCovers(roadWidth, c, cell)
                          && NetworkSample(sqrt, nodes, c)
                          && modifiedHeights[cell.y, cell.x] == StampedHeight(originalHeights, flattenStrength, cell, c)
  {
    forall cell | cell in painted
      ensures exists c :: InGrid(originalHeights.Length0, c) && SquareCovers(roadWidth, c, cell)
                          && NetworkSample(sqrt, nodes, c)
                          && modifiedHeights[cell.y, cell.x] == StampedHeight(originalHeights, flattenStrength, cell, c)
    {
      assert CellState(originalHeights, modifiedHeights, flattenStrength, stampOf, Int2(cell.x, cell.y));
      var c := stampOf[cell];
    }
    forall y, x | 0 <= y < originalHeights.Length0 && 0 <= x < originalHeights.Length0 && Int2(x, y) !in painted
      ensures modifiedHeights[y, x] == originalHeights[y, x]
    {
      assert CellState(originalHeights, modifiedHeights, flattenStrength, stampOf, Int2(x, y));
    }
  }

  /** The outcome of `GenerateRoads`. */
  datatype RoadOutcome =
    | MissingMask
    | DrawsExhausted
    | Roads(nodes: seq<Int2>, modifiedHeights: array2<real>, painted: set<Int2>)

  /**
    `GenerateRoads`. `hasMask` is `flatAreaMask != null` and `originalHeights`
    the `resolution x resolution` grid `GetHeights` returns.
   */
  method GenerateRoads(hasMask: bool, maskAt: (int, int) -> real, draws: seq<NodeDraw>, originalHeights: array2<real>,
                       sqrt: real -> real, numberOfNodes: int, roadWidth: real, flattenStrength: real)
    returns (out: RoadOutcome)
    requires IsSqrt(sqrt)
    requires originalHeights.Length0 == originalHeights.Length1
    ensures !hasMask ==> out == MissingMask
    ensures hasMask ==> (out.DrawsExhausted? <==> |Accepted(maskAt, originalHeights.Length0, draws)| < numberOfNodes)
    ensures out.Roads? ==>
              var resolution := originalHeights.Length0;
              && hasMask
              && |out.nodes| == (if numberOfNodes < 0 then 0 else numberOfNodes)
              && |out.nodes| <= |Accepted(maskAt, resolution, draws)|
              && out.nodes == Accepted(maskAt, resolution, draws)[..|out.nodes|]
              && fresh(out.modifiedHeights)
              && out.modifiedHeights.Length0 == resolution && out.modifiedHeights.Length1 == resolution
              && (forall cell :: cell in out.painted <==>
                    InGrid(resolution, cell) && NetworkCovers(sqrt, roadWidth, out.nodes, cell))
              && (forall y, x :: 0 <= y < resolution && 0 <= x < resolution && Int2(x, y) !in out.painted ==>
                    out.modifiedHeights[y, x] == originalHeights[y, x])
              && (forall cell :: cell in out.painted ==>
                    exists c :: InGrid(resolution, c) && SquareCovers(roadWidth, c, cell)
                                && NetworkSample(sqrt, out.nodes, c)
                                && out.modifiedHeights[cell.y, cell.x] == StampedHeight(originalHeights, flattenStrength, cell, c))
  {
    if !hasMask {
      return MissingMask;
    }
    var resolution := originalHeights.Length0;
    var modifiedHeights := CloneHeights(originalHeights, sqrt, roadWidth, flattenStrength);
    var sampled := SampleNodes(maskAt, resolution, numberOfNodes, draws);
    if sampled.None? {
      return DrawsExhausted;
    }
    var nodes := sampled.value;
    assert Stamped(originalHeights, modifiedHeights, {}, map[], sqrt, nodes, roadWidth, flattenStrength);
    AcceptedOnMask(maskAt, resolution, draws);
    forall a, b | 0 <= a < b < |nodes| && PointsCount(sqrt, nodes[a], nodes[b]) >= 1
      ensures InGrid(resolution, nodes[a]) && InGrid(resolution, nodes[b])
    {
      PointsCountZeroIffSame(sqrt, nodes[a], nodes[b]);
    }
    var painted;
    ghost var stampOf;
    painted, stampOf := RasteriseNetwork(originalHeights, modifiedHeights, sqrt, nodes, roadWidth, flattenStrength);
    StampedCells(originalHeights, modifiedHeights, painted, stampOf, sqrt, nodes, roadWidth, flattenStrength);
    return Roads(nodes, modifiedHeights, painted);
  }
}
