/**
  `FieldPlacer`: random attempts inside the terrain mesh's bounds, each cast
  down onto the mesh and kept only where the ground is nearly flat and, when a
  road path is given, close enough to the road.
 */
module FieldPlacer {
  import opened Common

  /** `float.MaxValue`. */
  const FloatMax: real := 340282346638528859811704183484516925440.0

  datatype Bounds = Bounds(min: Vec3, max: Vec3)

  /** A raycast hit: the point, and the angle between the world up vector and the surface normal. */
  datatype Hit = Hit(point: Vec3, slope: real)

  /** The values one attempt draws: two unit draws for the position and one integer draw for the yaw. */
  datatype FieldDraw = FieldDraw(ux: real, uz: real, yaw: nat)

  datatype Field = Field(position: Vec3, yaw: int)

  /** `Vector2.Distance` between the hit point's ground projection `(x, z)` and a road cell. */
  function RoadDistance(sqrt: real -> real, point: Vec3, roadPoint: Int2): real
  {
    sqrt(Dist2Sq(Vec2(point.x, point.z), Vec2(roadPoint.x as real, roadPoint.y as real)))
  }

  /** The running minimum of the loop in `GetClosestDistanceToRoad` over a prefix of the road. */
  function Closest(sqrt: real -> real, point: Vec3, road: seq<Int2>): real
  {
    if |road| == 0 then FloatMax
    else
      var m := Closest(sqrt, point, road[..|road| - 1]);
      var d := RoadDistance(sqrt, point, road[|road| - 1]);
      if d < m then d else m
  }

  /**
    The result is at most every road distance, and it is one of them unless none
    is below `float.MaxValue` (in particular for an empty road).
   */
  lemma {:induction false} ClosestIsMinimum(sqrt: real -> real, point: Vec3, road: seq<Int2>)
    ensures Closest(sqrt, point, road) <= FloatMax
    ensures forall k :: 0 <= k < |road| ==> Closest(sqrt, point, road) <= RoadDistance(sqrt, point, road[k])
    ensures Closest(sqrt, point, road) == FloatMax
            || exists k :: 0 <= k < |road| && Closest(sqrt, point, road) == RoadDistance(sqrt, point, road[k])
  {
    if |road| > 0 {
      var front := road[..|road| - 1];
      ClosestIsMinimum(sqrt, point, front);
      assert forall k :: 0 <= k < |front| ==> front[k] == road[k];
    }
  }

  /** Some road point lies within `r` of the ground projection of `point`, compared in squares. */
  predicate SomeRoadPointWithin(point: Vec3, road: seq<Int2>, r: real)
  {
    exists k :: 0 <= k < |road| && Dist2Sq(Vec2(point.x, point.z), Vec2(road[k].x as real, road[k].y as real)) <= r * r
  }

  /**
    With the square root supplied, "the closest road point is within `r`" is the
    same as "some road point is within `r`", in squared terms.
   */
  lemma ClosestWithin(sqrt: real -> real, point: Vec3, road: seq<Int2>, r: real)
    requires IsSqrt(sqrt) && r < FloatMax
    ensures Closest(sqrt, point, road) <= r <==> r >= 0.0 && SomeRoadPointWithin(point, road, r)
  {
    ClosestIsMinimum(sqrt, point, road);
    var m := Closest(sqrt, point, road);
    if m <= r {
      var k :| 0 <= k < |road| && m == RoadDistance(sqrt, point, road[k]);
      SqrtAtMost(sqrt, Dist2Sq(Vec2(point.x, point.z), Vec2(road[k].x as real, road[k].y as real)), r);
    }
    if r >= 0.0 && SomeRoadPointWithin(point, road, r) {
      var k :| 0 <= k < |road| &&
        Dist2Sq(Vec2(point.x, point.z), Vec2(road[k].x as real, road[k].y as real)) <= r * r;
      SqrtAtMost(sqrt, Dist2Sq(Vec2(point.x, point.z), Vec2(road[k].x as real, road[k].y as real)), r);
    }
  }

  /** `GetClosestDistanceToRoad`: a running minimum that starts at `float.MaxValue`. */
  method GetClosestDistanceToRoad(sqrt: real -> real, point: Vec3, roadPath: seq<Int2>) returns (minDistance: real)
    ensures minDistance == Closest(sqrt, point, roadPath)
  {
    minDistance := FloatMax;
    for k := 0 to |roadPath|
      invariant minDistance == Closest(sqrt, point, roadPath[..k])
    {
      assert roadPath[..k + 1][..k] == roadPath[..k];
      var dist := RoadDistance(sqrt, point, roadPath[k]);
      if dist < minDistance {
        minDistance := dist;
      }
    }
    assert roadPath[..|roadPath|] == roadPath;
  }

  /** Whether the road filter applies: a road path that is present and not empty. */
  predicate HasRoad(roadPath: Option<seq<Int2>>)
  {
    roadPath.Some? && |roadPath.value| > 0
  }

  /** The outcome of attempt `i`: the field it places, if any. */
  function Attempt(sqrt: real -> real, raycast: (real, real) -> Option<Hit>, draw: nat -> FieldDraw, i: nat,
                   bounds: Bounds, roadPath: Option<seq<Int2>>, maxSlope: real, maxDistanceFromRoad: real)
    : Option<Field>
  {
    var x := RangeFloat(bounds.min.x, bounds.max.x, draw(i).ux);
    var z := RangeFloat(bounds.min.z, bounds.max.z, draw(i).uz);
    match raycast(x, z)
    case None => None
    case Some(hit) =>
      if hit.slope > maxSlope then None
      else if HasRoad(roadPath) && Closest(sqrt, hit.point, roadPath.value) > maxDistanceFromRoad then None
      else Some(Field(hit.point, RangeInt(360, draw(i).yaw)))
  }

  /** The fields placed by the first `n` attempts, in order. */
  function Placed(sqrt: real -> real, raycast: (real, real) -> Option<Hit>, draw: nat -> FieldDraw, n: nat,
                  bounds: Bounds, roadPath: Option<seq<Int2>>, maxSlope: real, maxDistanceFromRoad: real)
    : seq<Field>
  {
    if n == 0 then []
    else
      Placed(sqrt, raycast, draw, n - 1, bounds, roadPath, maxSlope, maxDistanceFromRoad)
      + match Attempt(sqrt, raycast, draw, n - 1, bounds, roadPath, maxSlope, maxDistanceFromRoad)
        case None => []
        case Some(f) => [f]
  }

  /** `Placed` grows by the outcome of one more attempt. */
  lemma PlacedStep(sqrt: real -> real, raycast: (real, real) -> Option<Hit>, draw: nat -> FieldDraw, n: nat,
                   bounds: Bounds, roadPath: Option<seq<Int2>>, maxSlope: real, maxDistanceFromRoad: real,
                   field: Option<Field>)
    requires field == Attempt(sqrt, raycast, draw, n, bounds, roadPath, maxSlope, maxDistanceFromRoad)
    ensures Placed(sqrt, raycast, draw, n + 1, bounds, roadPath, maxSlope, maxDistanceFromRoad)
            == Placed(sqrt, raycast, draw, n, bounds, roadPath, maxSlope, maxDistanceFromRoad)
               + (if field.Some? then [field.value] else [])
  {
  }

  /** What a placed field satisfies: a hit of attempt `i` that passes both filters, and a yaw in [0, 360). */
  predicate PlacedBy(sqrt: real -> real, raycast: (real, real) -> Option<Hit>, draw: nat -> FieldDraw, i: nat,
                     bounds: Bounds, roadPath: Option<seq<Int2>>, maxSlope: real, maxDistanceFromRoad: real, f: Field)
  {
    && 0 <= f.yaw < 360
    && var hit := raycast(RangeFloat(bounds.min.x, bounds.max.x, draw(i).ux),
                          RangeFloat(bounds.min.z, bounds.max.z, draw(i).uz));
       && hit.Some? && hit.value.point == f.position && hit.value.slope <= maxSlope
       && (HasRoad(roadPath) ==> Closest(sqrt, hit.value.point, roadPath.value) <= maxDistanceFromRoad)
  }

  /** A field that attempt `i` places passes the filters. */
  lemma AttemptFiltered(sqrt: real -> real, raycast: (real, real) -> Option<Hit>, draw: nat -> FieldDraw, i: nat,
                        bounds: Bounds, roadPath: Option<seq<Int2>>, maxSlope: real, maxDistanceFromRoad: real)
    ensures var a := Attempt(sqrt, raycast, draw, i, bounds, roadPath, maxSlope, maxDistanceFromRoad);
            a.Some? ==> PlacedBy(sqrt, raycast, draw, i, bounds, roadPath, maxSlope, maxDistanceFromRoad, a.value)
  {
  }

  /**
    Every placed field comes from a raycast hit of some attempt with a slope of
    at most `maxSlope`, within `maxDistanceFromRoad` of the road when there is
    one, and with a yaw in [0, 360); there are at most as many fields as attempts.
   */
  lemma {:induction false} PlacedFiltered(sqrt: real -> real, raycast: (real, real) -> Option<Hit>,
                                          draw: nat -> FieldDraw, n: nat, bounds: Bounds,
                                          roadPath: Option<seq<Int2>>, maxSlope: real, maxDistanceFromRoad: real)
    ensures var placed := Placed(sqrt, raycast, draw, n, bounds, roadPath, maxSlope, maxDistanceFromRoad);
            && |placed| <= n
            && forall f :: f in placed ==>
                 exists i :: 0 <= i < n && PlacedBy(sqrt, raycast, draw, i, bounds, roadPath, maxSlope, maxDistanceFromRoad, f)
  {
    if n > 0 {
      PlacedFiltered(sqrt, raycast, draw, n - 1, bounds, roadPath, maxSlope, maxDistanceFromRoad);
      AttemptFiltered(sqrt, raycast, draw, n - 1, bounds, roadPath, maxSlope, maxDistanceFromRoad);
    }
  }

  /** One iteration of the placement loop: the field attempt `i` places, if any. */
  method TryPlace(sqrt: real -> real, raycast: (real, real) -> Option<Hit>, draw: nat -> FieldDraw, i: nat,
                  bounds: Bounds, roadPath: Option<seq<Int2>>, maxSlope: real, maxDistanceFromRoad: real)
    returns (field: Option<Field>)
    ensures field == Attempt(sqrt, raycast, draw, i, bounds, roadPath, maxSlope, maxDistanceFromRoad)
  {
    var randomX := RangeFloat(bounds.min.x, bounds.max.x, draw(i).ux);
    var randomZ := RangeFloat(bounds.min.z, bounds.max.z, draw(i).uz);
    var hit := raycast(randomX, randomZ);
    if hit.None? {
      return None;
    }
    if hit.value.slope > maxSlope {
      return None;
    }
    if roadPath.Some? && |roadPath.value| > 0 {
      var closestDistanceToRoad := GetClosestDistanceToRoad(sqrt, hit.value.point, roadPath.value);
      if closestDistanceToRoad > maxDistanceFromRoad {
        return None;
      }
    }
    var yaw := RangeInt(360, draw(i).yaw);
    return Some(Field(hit.value.point, yaw));
  }

  /**
    `PlaceFields`. `hasPrefab` is `fieldPrefab != null`; `raycast(x, z)` is the
    downward `Physics.Raycast` from above the bounds at `(x, z)`; `draw(i)` gives
    the random values of attempt `i`. The placed fields are returned in
    placement order instead of being instantiated.
   */
  method PlaceFields(sqrt: real -> real, raycast: (real, real) -> Option<Hit>, draw: nat -> FieldDraw,
                     hasPrefab: bool, placementAttempts: int, bounds: Bounds, roadPath: Option<seq<Int2>>,
                     maxSlope: real, maxDistanceFromRoad: real)
    returns (placed: seq<Field>)
    ensures !hasPrefab ==> placed == []
    ensures hasPrefab ==>
              placed == Placed(sqrt, raycast, draw, if placementAttempts < 0 then 0 else placementAttempts,
                               bounds, roadPath, maxSlope, maxDistanceFromRoad)
  {
    placed := [];
    if !hasPrefab {
      return;
    }
    var attempts: nat := if placementAttempts < 0 then 0 else placementAttempts;
    for i := 0 to attempts
      invariant placed == Placed(sqrt, raycast, draw, i, bounds, roadPath, maxSlope, maxDistanceFromRoad)
    {
      var field := TryPlace(sqrt, raycast, draw, i, bounds, roadPath, maxSlope, maxDistanceFromRoad);
      PlacedStep(sqrt, raycast, draw, i, bounds, roadPath, maxSlope, maxDistanceFromRoad, field);
      if field.Some? {
        placed := placed + [field.value];
      }
    }
  }
}
