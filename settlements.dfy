/**
  What the settlement and paddy placers share: the road points read off a
  road mask, the nearest-point queries written as `OrderBy(...).First()`,
  `Vector2.normalized`, the point offset sideways from a road, and the
  "is anything within `r`" checks.
 */
module Settlements {
  import opened Common
  import opened Trees

  // ---------------------------------------------------------------------------
  // Road points
  // ---------------------------------------------------------------------------

  /** A `Texture2D` mask as the placers read it: its size and the red channel of `GetPixel(x, y)`. */
  datatype Mask = Mask(width: int, height: int, red: (int, int) -> real)

  /** Pixel `(x, y)` of a `width` by `height` mask, scaled to `(x / width * scaleX, y / height * scaleZ)`. */
  function PixelPoint(x: nat, y: nat, width: int, height: int, scaleX: real, scaleZ: real): Vec2
    requires width > 0 && height > 0
  {
    Vec2(Normalised(x as real, width as real) * scaleX, Normalised(y as real, height as real) * scaleZ)
  }

  /** `roadMask.GetPixel(x, y).r > 0.5`; `maskAt` is the red channel. */
  function RoadPixels(maskAt: (int, int) -> real, width: int, height: int, scaleX: real, scaleZ: real)
    : (nat, nat) -> Option<Vec2>
  {
    (y: nat, x: nat) =>
      if width > 0 && height > 0 && maskAt(x, y) > 0.5 then Some(PixelPoint(x, y, width, height, scaleX, scaleZ))
      else None
  }

  /** The road points, rows `y` outer and columns `x` inner, in the order the loops add them. */
  function RoadPoints(maskAt: (int, int) -> real, width: int, height: int, scaleX: real, scaleZ: real): seq<Vec2>
  {
    Scan(RoadPixels(maskAt, width, height, scaleX, scaleZ), Iterations(height), Iterations(width))
  }

  /** `p` is the scaled image of a road pixel of the mask. */
  ghost predicate IsRoadPoint(maskAt: (int, int) -> real, width: int, height: int, scaleX: real, scaleZ: real, p: Vec2)
  {
    exists x: nat, y: nat :: x < width && y < height && maskAt(x, y) > 0.5 && p == PixelPoint(x, y, width, height, scaleX, scaleZ)
  }

  /** The road points are exactly the road pixels above 0.5, scaled: nothing else, and none missing. */
  lemma RoadPointsExact(maskAt: (int, int) -> real, width: int, height: int, scaleX: real, scaleZ: real)
    ensures forall k :: 0 <= k < |RoadPoints(maskAt, width, height, scaleX, scaleZ)| ==>
              IsRoadPoint(maskAt, width, height, scaleX, scaleZ, RoadPoints(maskAt, width, height, scaleX, scaleZ)[k])
    ensures forall x: nat, y: nat :: x < width && y < height && maskAt(x, y) > 0.5 ==>
              PixelPoint(x, y, width, height, scaleX, scaleZ) in RoadPoints(maskAt, width, height, scaleX, scaleZ)
  {
    var cell := RoadPixels(maskAt, width, height, scaleX, scaleZ);
    var points := RoadPoints(maskAt, width, height, scaleX, scaleZ);
    ScanFrom(cell, Iterations(height), Iterations(width));
    forall k | 0 <= k < |points|
      ensures IsRoadPoint(maskAt, width, height, scaleX, scaleZ, points[k])
    {
      var y: nat, x: nat :| y < Iterations(height) && x < Iterations(width) && cell(y, x) == Some(points[k]);
      assert x < width && y < height && maskAt(x, y) > 0.5;
    }
    forall x: nat, y: nat | x < width && y < height && maskAt(x, y) > 0.5
      ensures PixelPoint(x, y, width, height, scaleX, scaleZ) in points
    {
      ScanComplete(cell, Iterations(height), Iterations(width), y, x);
    }
  }

  /** There is a road point exactly when the mask has a road pixel. */
  lemma RoadPointsEmpty(maskAt: (int, int) -> real, width: int, height: int, scaleX: real, scaleZ: real)
    ensures |RoadPoints(maskAt, width, height, scaleX, scaleZ)| > 0 <==>
              exists x: nat, y: nat :: x < width && y < height && maskAt(x, y) > 0.5
  {
    RoadPointsExact(maskAt, width, height, scaleX, scaleZ);
    if |RoadPoints(maskAt, width, height, scaleX, scaleZ)| > 0 {
      assert IsRoadPoint(maskAt, width, height, scaleX, scaleZ, RoadPoints(maskAt, width, height, scaleX, scaleZ)[0]);
    }
  }

  /** One row of the mask scan. */
  method CollectRoadRow(maskAt: (int, int) -> real, width: int, height: int, scaleX: real, scaleZ: real, y: nat)
    returns (points: seq<Vec2>)
    ensures points == RowScan(RoadPixels(maskAt, width, height, scaleX, scaleZ), y, Iterations(width))
  {
    points := [];
    ghost var cell := RoadPixels(maskAt, width, height, scaleX, scaleZ);
    for x := 0 to Iterations(width)
      invariant points == RowScan(cell, y, x)
    {
      if width > 0 && height > 0 && maskAt(x, y) > 0.5 {
        points := points + [PixelPoint(x, y, width, height, scaleX, scaleZ)];
      }
    }
  }

  /** The nested loops of the placers' `Initialize` that fill the road point list. */
  method CollectRoadPoints(maskAt: (int, int) -> real, width: int, height: int, scaleX: real, scaleZ: real)
    returns (points: seq<Vec2>)
    ensures points == RoadPoints(maskAt, width, height, scaleX, scaleZ)
  {
    points := [];
    ghost var cell := RoadPixels(maskAt, width, height, scaleX, scaleZ);
    for y := 0 to Iterations(height)
      invariant points == Scan(cell, y, Iterations(width))
    {
      var row := CollectRoadRow(maskAt, width, height, scaleX, scaleZ, y);
      points := points + row;
    }
  }

  // ---------------------------------------------------------------------------
  // Nearest points
  // ---------------------------------------------------------------------------

  /**
    Among the first `n` points other than index `skip`, the first one nearest
    to `q`, or -1 when there is none. `OrderBy(p => Distance(q, p))` is a
    stable sort, so `.First()` is this index with no `skip`, and
    `.Skip(1).First()` is this index skipping the first one. Distances are
    compared squared, which orders them the same way (`SqrtOrder`).
   */
  function FirstNearest(points: seq<Vec2>, q: Vec2, skip: int, n: nat): (i: int)
    requires n <= |points|
    ensures -1 <= i < n
    ensures i == -1 <==> n == 0 || (n == 1 && skip == 0)
    ensures i >= 0 ==> i != skip
    ensures i >= 0 ==> forall j :: 0 <= j < n && j != skip ==> Dist2Sq(q, points[i]) <= Dist2Sq(q, points[j])
    ensures i >= 0 ==> forall j :: 0 <= j < i && j != skip ==> Dist2Sq(q, points[i]) < Dist2Sq(q, points[j])
  {
    if n == 0 then -1
    else
      var i := FirstNearest(points, q, skip, n - 1);
      if n - 1 == skip then i
      else if i == -1 || Dist2Sq(q, points[n - 1]) < Dist2Sq(q, points[i]) then n - 1
      else i
  }

  /** `points.OrderBy(p => Distance(q, p)).First()`, an index; `None` is the exception on an empty list. */
  function Nearest(points: seq<Vec2>, q: Vec2): (i: Option<nat>)
    ensures i.Some? <==> |points| > 0
    ensures i.Some? ==> i.value < |points| && forall j :: 0 <= j < |points| ==>
              Dist2Sq(q, points[i.value]) <= Dist2Sq(q, points[j])
  {
    var i := FirstNearest(points, q, -1, |points|);
    if i == -1 then None else Some(i)
  }

  /**
    `points.OrderBy(p => Distance(q, p)).Skip(1).First()`, an index; `None` is
    the exception thrown when there are fewer than two points.
   */
  function SecondNearest(points: seq<Vec2>, q: Vec2): (i: Option<nat>)
    ensures i.Some? <==> |points| >= 2
    ensures i.Some? ==> i.value < |points| && Some(i.value) != Nearest(points, q)
    ensures i.Some? ==> forall j :: 0 <= j < |points| && Some(j) != Nearest(points, q) ==>
              Dist2Sq(q, points[i.value]) <= Dist2Sq(q, points[j])
  {
    match Nearest(points, q)
    case None => None
    case Some(first) =>
      var i := FirstNearest(points, q, first, |points|);
      if i == -1 then
        None
      else Some(i)
  }

  /**
    `points.OrderBy(p => Distance(q, p)).Skip(1).First()`: the point after
    the nearest in distance order, which the placers steer the road direction by.
   */
  function Neighbour(points: seq<Vec2>, q: Vec2): Vec2
    requires |points| >= 2
  {
    points[SecondNearest(points, q).value]
  }

  // ---------------------------------------------------------------------------
  // Directions and offsets
  // ---------------------------------------------------------------------------

  /** `Vector2.kEpsilon`: below this length `normalized` gives the zero vector. */
  const NormalizeEpsilon: real := 0.00001

  /** `Vector2.magnitude`. */
  function Length(sqrt: real -> real, v: Vec2): real
  {
    sqrt(Dist2Sq(v, Vec2(0.0, 0.0)))
  }

  /** `Vector2.normalized`. */
  function Normalized(sqrt: real -> real, v: Vec2): Vec2
  {
    var m := Length(sqrt, v);
    if m > NormalizeEpsilon then Vec2(v.x / m, v.y / m) else Vec2(0.0, 0.0)
  }

  function Dot(a: Vec2, b: Vec2): real
  {
    a.x * b.x + a.y * b.y
  }

  function Sub(a: Vec2, b: Vec2): Vec2
  {
    Vec2(a.x - b.x, a.y - b.y)
  }

  function Scale(v: Vec2, k: real): Vec2
  {
    Vec2(v.x * k, v.y * k)
  }

  lemma CancelFactor(u: real, k: real, a: real, b: real)
    requires k > 0.0 && u * k == a + b && k == a + b
    ensures u == 1.0
  {
    if u > 1.0 {
      MulPositive(u - 1.0, k);
    } else if u < 1.0 {
      MulPositive(1.0 - u, k);
    }
  }

  /** The components of a vector divided by its length, when that length exceeds `kEpsilon`, have squares summing to 1. */
  lemma UnitFromParts(nx: real, ny: real, vx: real, vy: real, m: real)
    requires m > NormalizeEpsilon && nx * m == vx && ny * m == vy && m * m == vx * vx + vy * vy
    ensures nx * nx + ny * ny == 1.0
  {
    MulPositive(m, m);
    assert (nx * nx + ny * ny) * (m * m) == (nx * m) * (nx * m) + (ny * m) * (ny * m);
    assert (nx * m) * (nx * m) == vx * vx;
    assert (ny * m) * (ny * m) == vy * vy;
    CancelFactor(nx * nx + ny * ny, m * m, vx * vx, vy * vy);
  }

  lemma DotScale(w: Vec2, d: Vec2, m: real)
    ensures Dot(w, Scale(d, m)) == Dot(w, d) * m
  {
    assert w.x * (d.x * m) + w.y * (d.y * m) == (w.x * d.x + w.y * d.y) * m;
  }

  /**
    A vector longer than `kEpsilon` normalises to length 1 in its own
    direction (scaling it back by its length gives the vector); a shorter one
    normalises to zero.
   */
  lemma NormalizedUnit(sqrt: real -> real, v: Vec2)
    requires IsSqrt(sqrt)
    ensures Length(sqrt, v) > NormalizeEpsilon ==>
              Dot(Normalized(sqrt, v), Normalized(sqrt, v)) == 1.0
              && Scale(Normalized(sqrt, v), Length(sqrt, v)) == v
    ensures Length(sqrt, v) <= NormalizeEpsilon ==> Normalized(sqrt, v) == Vec2(0.0, 0.0)
  {
    var q := Dist2Sq(v, Vec2(0.0, 0.0));
    var m := Length(sqrt, v);
    assert m * m == q;
    if m > NormalizeEpsilon {
      var n := Normalized(sqrt, v);
      assert n == Vec2(v.x / m, v.y / m);
      assert q == v.x * v.x + v.y * v.y;
      UnitFromParts(n.x, n.y, v.x, v.y, m);
    }
  }

  /**
    The point `offset` away from `roadPoint`, at right angles to the unit
    road direction `direction`, on the side `flip` chooses: `(d.y, -d.x)`, or
    its negation.
   */
  function SideOffset(roadPoint: Vec2, direction: Vec2, flip: bool, offset: real): Vec2
  {
    var side := if flip then Vec2(-direction.y, direction.x) else Vec2(direction.y, -direction.x);
    Vec2(roadPoint.x + side.x * offset, roadPoint.y + side.y * offset)
  }

  /**
    The offset point is at right angles to the road direction, and its
    squared distance from the road point is `offset²` times the direction's
    squared length.
   */
  lemma SideOffsetGeometry(roadPoint: Vec2, direction: Vec2, flip: bool, offset: real)
    ensures Dot(Sub(SideOffset(roadPoint, direction, flip, offset), roadPoint), direction) == 0.0
    ensures Dist2Sq(SideOffset(roadPoint, direction, flip, offset), roadPoint) == offset * offset * Dot(direction, direction)
  {
    var p := SideOffset(roadPoint, direction, flip, offset);
    var d := Sub(p, roadPoint);
    if flip {
      assert d == Vec2(-direction.y * offset, direction.x * offset);
    } else {
      assert d == Vec2(direction.y * offset, -direction.x * offset);
    }
  }

  /**
    Offsetting along the normalised direction to a neighbour: the placement is
    at right angles to the road segment towards the neighbour and, when the
    neighbour is farther than `kEpsilon`, exactly `offset` from the road point;
    otherwise it is the road point itself.
   */
  lemma OffsetFromRoad(sqrt: real -> real, roadPoint: Vec2, neighbour: Vec2, flip: bool, offset: real)
    requires IsSqrt(sqrt)
    ensures var p := SideOffset(roadPoint, Normalized(sqrt, Sub(neighbour, roadPoint)), flip, offset);
            Dot(Sub(p, roadPoint), Sub(neighbour, roadPoint)) == 0.0
            && (Length(sqrt, Sub(neighbour, roadPoint)) > NormalizeEpsilon ==> Dist2Sq(p, roadPoint) == offset * offset)
            && (Length(sqrt, Sub(neighbour, roadPoint)) <= NormalizeEpsilon ==> p == roadPoint)
  {
    var v := Sub(neighbour, roadPoint);
    var d := Normalized(sqrt, v);
    var p := SideOffset(roadPoint, d, flip, offset);
    var w := Sub(p, roadPoint);
    var m := Length(sqrt, v);
    NormalizedUnit(sqrt, v);
    if m > NormalizeEpsilon {
      SideOffsetGeometry(roadPoint, d, flip, offset);
      DotScale(w, d, m);
    } else {
      assert w == Vec2(0.0, 0.0);
    }
  }

  /**
    `p` is at right angles to the road from `roadPoint` towards `neighbour`
    and, unless the neighbour is within `kEpsilon`, between `lo` and `hi`
    from the road point.
   */
  ghost predicate OffsetBetween(sqrt: real -> real, roadPoint: Vec2, neighbour: Vec2, p: Vec2, lo: real, hi: real)
  {
    && Dot(Sub(p, roadPoint), Sub(neighbour, roadPoint)) == 0.0
    && (Length(sqrt, Sub(neighbour, roadPoint)) > NormalizeEpsilon && 0.0 <= lo <= hi ==>
          lo * lo <= Dist2Sq(p, roadPoint) <= hi * hi)
  }

  /** An offset in `[lo, hi]` along the normalised road direction gives an `OffsetBetween` placement. */
  lemma OffsetWithin(sqrt: real -> real, roadPoint: Vec2, neighbour: Vec2, flip: bool, offset: real, lo: real, hi: real)
    requires IsSqrt(sqrt) && (lo <= hi ==> lo <= offset <= hi)
    ensures OffsetBetween(sqrt, roadPoint, neighbour,
                          SideOffset(roadPoint, Normalized(sqrt, Sub(neighbour, roadPoint)), flip, offset), lo, hi)
  {
    OffsetFromRoad(sqrt, roadPoint, neighbour, flip, offset);
    if Length(sqrt, Sub(neighbour, roadPoint)) > NormalizeEpsilon && 0.0 <= lo <= hi {
      SquareMonotone(lo, offset);
      SquareMonotone(offset, hi);
    }
  }

  // ---------------------------------------------------------------------------
  // "Is anything within r"
  // ---------------------------------------------------------------------------

  /** `points.Min(p => Vector2.Distance(p, q))`. */
  function MinDistance(sqrt: real -> real, points: seq<Vec2>, q: Vec2): (m: real)
    requires |points| > 0
    ensures forall i :: 0 <= i < |points| ==> m <= sqrt(Dist2Sq(points[i], q))
    ensures exists i :: 0 <= i < |points| && m == sqrt(Dist2Sq(points[i], q))
  {
    var here := sqrt(Dist2Sq(points[|points| - 1], q));
    if |points| == 1 then here
    else
      var rest := MinDistance(sqrt, points[..|points| - 1], q);
      assert forall i :: 0 <= i < |points| - 1 ==> points[..|points| - 1][i] == points[i];
      if here <= rest then here else rest
  }

  /** The nearest point is closer than `r` exactly when some point is. */
  lemma MinDistanceBelow(sqrt: real -> real, points: seq<Vec2>, q: Vec2, r: real)
    requires IsSqrt(sqrt) && |points| > 0
    ensures MinDistance(sqrt, points, q) < r <==> AnyCloser2(points, q, r)
  {
    var m := MinDistance(sqrt, points, q);
    if m < r {
      var i :| 0 <= i < |points| && m == sqrt(Dist2Sq(points[i], q));
      SqrtLess(sqrt, Dist2Sq(points[i], q), r);
    }
    if AnyCloser2(points, q, r) {
      var i :| 0 <= i < |points| && Closer2(points[i], q, r);
      SqrtLess(sqrt, Dist2Sq(points[i], q), r);
    }
  }

  /** Some point of `points` is strictly closer to `q` than `r` (`Distance < r`). */
  predicate AnyCloser2(points: seq<Vec2>, q: Vec2, r: real)
  {
    exists i :: 0 <= i < |points| && Closer2(points[i], q, r)
  }

  /** Some position of `points` is strictly closer to `q` than `r` (`Vector3.Distance < r`). */
  predicate AnyCloser3(points: seq<Vec3>, q: Vec3, r: real)
  {
    exists i :: 0 <= i < |points| && Closer3(points[i], q, r)
  }

  /** The `foreach` with an early `return true`, on `Vector3` positions. */
  method IsTooClose3(q: Vec3, points: seq<Vec3>, r: real) returns (tooClose: bool)
    ensures tooClose <==> AnyCloser3(points, q, r)
  {
    for i := 0 to |points|
      invariant !AnyCloser3(points[..i], q, r)
    {
      if Closer3(q, points[i], r) {
        assert Closer3(points[i], q, r) by {
          assert Dist3Sq(q, points[i]) == Dist3Sq(points[i], q);
        }
        return true;
      }
      assert Dist3Sq(q, points[i]) == Dist3Sq(points[i], q);
      assert points[..i + 1] == points[..i] + [points[i]];
    }
    assert points[..|points|] == points;
    return false;
  }

  /** `Distance(a, b) < r` in the source is `Closer2` / `Closer3` here. */
  lemma DistanceBelow(sqrt: real -> real, a: Vec2, b: Vec2, u: Vec3, w: Vec3, r: real)
    requires IsSqrt(sqrt)
    ensures sqrt(Dist2Sq(a, b)) < r <==> Closer2(a, b, r)
    ensures sqrt(Dist3Sq(u, w)) < r <==> Closer3(u, w, r)
  {
    SqrtLess(sqrt, Dist2Sq(a, b), r);
    SqrtLess(sqrt, Dist3Sq(u, w), r);
  }

  /** Every position of a list is at least `r` from every later one. */
  ghost predicate Spaced(points: seq<Vec3>, r: real)
  {
    forall i, j :: 0 <= i < j < |points| ==> !Closer3(points[i], points[j], r)
  }

  /** Appending a position that is not too close to any of a spaced list keeps it spaced. */
  lemma SpacedAppend(points: seq<Vec3>, q: Vec3, r: real)
    requires Spaced(points, r) && !AnyCloser3(points, q, r)
    ensures Spaced(points + [q], r)
  {
    var all := points + [q];
    forall i, j | 0 <= i < j < |all|
      ensures !Closer3(all[i], all[j], r)
    {
      if j == |points| {
        assert all[i] == points[i] && all[j] == q;
      } else {
        assert all[i] == points[i] && all[j] == points[j];
      }
    }
  }

  // ---------------------------------------------------------------------------
  // The attempt loops of the settlement placers
  // ---------------------------------------------------------------------------

  /** An instantiated house: its position, its prefab and the road point it is turned to face. */
  datatype House = House(position: Vec3, prefabIndex: nat, roadPoint: Vec2)

  /** What one attempt does: nothing, throw, or build a house. */
  datatype Try = Skipped | Threw | Built(house: House)

  /**
    A placement loop's state: the house count, the attempt count, the
    placed positions, the houses instantiated so far, and whether an attempt
    threw.
   */
  datatype Run = Run(count: nat, attempts: nat, positions: seq<Vec3>, houses: seq<House>, aborted: bool)

  /** Where a run starts: nothing placed, no attempt made. */
  const Start: Run := Run(0, 0, [], [], false)

  /** The state after one attempt: always counted, and a built house is recorded. */
  function Apply(run: Run, t: Try): Run
  {
    var tried := run.(attempts := run.attempts + 1);
    match t
    case Skipped => tried
    case Threw => tried.(aborted := true)
    case Built(h) => tried.(count := run.count + 1, positions := run.positions + [h.position], houses := run.houses + [h])
  }

  /** The loop condition `placed < total && attempts < budget`, and no exception so far. */
  predicate Continues(total: int, budget: int, run: Run)
  {
    !run.aborted && run.count < total && run.attempts < budget
  }

  /** The rest of the loop from `run`; `results` says what the attempt with the given positions and number does. */
  function Settle(total: int, budget: int, results: (seq<Vec3>, nat) -> Try, run: Run): Run
    decreases budget - run.attempts
  {
    if !Continues(total, budget, run) then run
    else Settle(total, budget, results, Apply(run, results(run.positions, run.attempts)))
  }
}
