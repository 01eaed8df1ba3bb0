/**
  `RicePaddyPlacer` (RicePaddyPlacer.cs): visits a lattice of square plots,
  and at each plot centre that lies in the rice-field mask, away from the
  houses and the roads, on a shallow enough slope and clear of the paddies
  already placed, instantiates one paddy turned by a quarter-turn step chosen
  by Perlin noise, optionally pressing the terrain flat under its footprint.
 */
module RicePaddy {
  import opened Common
  import opened Trees
  import opened Settlements
  import opened Scene

  datatype Settings = Settings(paddyPlotSize: real, paddyDimensions: Vec3, exclusionRadiusHouses: real,
                               exclusionRadiusRoads: real, maxSlopeAngle: real, rotationCoherence: real,
                               sinkAmount: real, modifyTerrainHeight: bool, terrainLowerAmount: real)

  /** A `RaycastHit`: the point hit and the surface normal there. */
  datatype Hit = Hit(point: Vec3, normal: Vec3)

  /**
    The paddy's `finalRotation`: the rotation taking up to `normal`, then the
    yaw `angle`, then the rotation of prefab `prefab`.
   */
  datatype Rotation = Rotation(normal: Vec3, angle: int, prefab: nat)

  /** An instantiated paddy: its plot, the raycast hit, its prefab, its yaw and its final position. */
  datatype Paddy = Paddy(plotX: nat, plotY: nat, hit: Hit, prefab: nat, angle: int, position: Vec3)

  function RotationOf(p: Paddy): Rotation
  {
    Rotation(p.hit.normal, p.angle, p.prefab)
  }

  /**
    The engine services the placer uses: the terrain's size, position and
    heightmap resolution, `Mathf.Sqrt`, `Mathf.PerlinNoise`, the downward
    `Physics.Raycast` from an origin, `Vector3.Angle(Vector3.up, normal)`,
    applying `Quaternion.Inverse(rotation)` to a vector, and
    `Physics.OverlapBox(center, halfExtents, rotation, paddyLayer).Length > 0`
    given the paddies placed so far.
   */
  datatype World = World(size: Vec3, terrainPosition: Vec3, heightmapResolution: int, sqrt: real -> real,
                         perlin: (real, real) -> real, raycast: Vec3 -> Option<Hit>, slopeAngle: Vec3 -> real,
                         toLocal: (Rotation, Vec3) -> Vec3, overlaps: (Vec3, Vec3, Rotation, seq<Paddy>) -> bool)

  /**
    What a run works with once it is initialised: the world, the rice-field
    mask's `GetPixelBilinear(u, v).r`, the number of paddy prefabs, the house
    positions and the normalised road points.
   */
  datatype Env = Env(world: World, riceAt: (real, real) -> real, prefabCount: nat, housePositions: seq<Vec3>,
                     roadPoints: seq<Vec2>)

  /** A Unity terrain: positive extents and a heightmap of at least 2 by 2 samples. */
  predicate Sized(w: World)
  {
    w.size.x > 0.0 && w.size.y > 0.0 && w.size.z > 0.0 && w.heightmapResolution >= 2
  }

  // ---------------------------------------------------------------------------
  // Road points and distance checks
  // ---------------------------------------------------------------------------

  /** The road points `Initialize` collects: mask pixels above 0.5, divided by the mask's size. */
  function NormalizedRoadPoints(maskAt: (int, int) -> real, width: int, height: int): seq<Vec2>
  {
    RoadPoints(maskAt, width, height, 1.0, 1.0)
  }

  /** Every normalised road point lies in `[0, 1) x [0, 1)`. */
  lemma NormalizedRoadPointsUnit(maskAt: (int, int) -> real, width: int, height: int)
    ensures forall k :: 0 <= k < |NormalizedRoadPoints(maskAt, width, height)| ==>
              var p := NormalizedRoadPoints(maskAt, width, height)[k];
              0.0 <= p.x < 1.0 && 0.0 <= p.y < 1.0
  {
    var points := NormalizedRoadPoints(maskAt, width, height);
    RoadPointsExact(maskAt, width, height, 1.0, 1.0);
    forall k | 0 <= k < |points|
      ensures 0.0 <= points[k].x < 1.0 && 0.0 <= points[k].y < 1.0
    {
      assert IsRoadPoint(maskAt, width, height, 1.0, 1.0, points[k]);
      var x: nat, y: nat :| x < width && y < height && maskAt(x, y) > 0.5
                            && points[k] == PixelPoint(x, y, width, height, 1.0, 1.0);
      NormalisedUnit(x as real, width as real);
      NormalisedUnit(y as real, height as real);
    }
  }

  /** Some target is strictly within `radius` of `point` by `distance`. */
  ghost predicate WithinRadius<T>(point: T, targets: seq<T>, radius: real, distance: (T, T) -> real)
  {
    exists i :: 0 <= i < |targets| && distance(point, targets[i]) < radius
  }

  /**
    `IsTooClose<T>`. `targets` is `None` for a null list; `distanceFunc` is
    the distance `typeof(T)` selects, `None` when `T` is neither `Vector3`
    nor `Vector2`. Either gives `false`; otherwise the `foreach` returns
    `true` at the first target strictly within `radius`.
   */
  method IsTooClose<T>(point: T, targets: Option<seq<T>>, radius: real, distanceFunc: Option<(T, T) -> real>)
    returns (tooClose: bool)
    ensures tooClose <==> targets.Some? && distanceFunc.Some?
                          && WithinRadius(point, targets.value, radius, distanceFunc.value)
  {
    if targets.None? || distanceFunc.None? {
      return false;
    }
    var list, distance := targets.value, distanceFunc.value;
    for i := 0 to |list|
      invariant !WithinRadius(point, list[..i], radius, distance)
    {
      if distance(point, list[i]) < radius {
        return true;
      }
      assert list[..i + 1] == list[..i] + [list[i]];
    }
    assert list[..|list|] == list;
    return false;
  }

  /** `Vector3.Distance`. */
  function Distance3(sqrt: real -> real): (Vec3, Vec3) -> real
  {
    (a: Vec3, b: Vec3) => sqrt(Dist3Sq(a, b))
  }

  /** `Vector2.Distance`. */
  function Distance2(sqrt: real -> real): (Vec2, Vec2) -> real
  {
    (a: Vec2, b: Vec2) => sqrt(Dist2Sq(a, b))
  }

  /** Within `radius` by `Vector3.Distance` is `AnyCloser3`, compared squared. */
  lemma WithinRadius3(sqrt: real -> real, point: Vec3, targets: seq<Vec3>, radius: real)
    requires IsSqrt(sqrt)
    ensures WithinRadius(point, targets, radius, Distance3(sqrt)) <==> AnyCloser3(targets, point, radius)
  {
    var f := Distance3(sqrt);
    forall i | 0 <= i < |targets|
      ensures f(point, targets[i]) < radius <==> Closer3(targets[i], point, radius)
    {
      assert Dist3Sq(point, targets[i]) == Dist3Sq(targets[i], point);
      SqrtLess(sqrt, Dist3Sq(point, targets[i]), radius);
    }
  }

  /** Within `radius` by `Vector2.Distance` is `AnyCloser2`, compared squared. */
  lemma WithinRadius2(sqrt: real -> real, point: Vec2, targets: seq<Vec2>, radius: real)
    requires IsSqrt(sqrt)
    ensures WithinRadius(point, targets, radius, Distance2(sqrt)) <==> AnyCloser2(targets, point, radius)
  {
    var f := Distance2(sqrt);
    forall i | 0 <= i < |targets|
      ensures f(point, targets[i]) < radius <==> Closer2(targets[i], point, radius)
    {
      assert Dist2Sq(point, targets[i]) == Dist2Sq(targets[i], point);
      SqrtLess(sqrt, Dist2Sq(point, targets[i]), radius);
    }
  }

  /** A plot centre divided by the terrain's extents. */
  function NormalizedPosition(w: World, plotCenter: Vec3): Vec2
    requires Sized(w)
  {
    Vec2(Normalised(plotCenter.x, w.size.x), Normalised(plotCenter.z, w.size.z))
  }

  /**
    A paddy may go at `plotCenter`: the rice-field mask is at least 0.5
    there, no house is nearer than `exclusionRadiusHouses`, and no road point
    is nearer than `exclusionRadiusRoads` divided by the terrain's width, in
    normalised coordinates.
   */
  predicate PlacementAllowed(env: Env, s: Settings, plotCenter: Vec3)
    requires Sized(env.world)
  {
    var n := NormalizedPosition(env.world, plotCenter);
    && !(env.riceAt(n.x, n.y) < 0.5)
    && !AnyCloser3(env.housePositions, plotCenter, s.exclusionRadiusHouses)
    && !AnyCloser2(env.roadPoints, n, Normalised(s.exclusionRadiusRoads, env.world.size.x))
  }

  /**
    `IsPlacementAllowed`: the mask test, then `IsTooClose` on the houses with
    `Vector3.Distance`, then on the road points with `Vector2.Distance`.
   */
  method IsPlacementAllowed(env: Env, s: Settings, plotCenter: Vec3) returns (allowed: bool)
    requires Sized(env.world) && IsSqrt(env.world.sqrt)
    ensures allowed <==> PlacementAllowed(env, s, plotCenter)
    ensures allowed <==>
              var n := NormalizedPosition(env.world, plotCenter);
              && env.riceAt(n.x, n.y) >= 0.5
              && (forall i :: 0 <= i < |env.housePositions| ==>
                    env.world.sqrt(Dist3Sq(plotCenter, env.housePositions[i])) >= s.exclusionRadiusHouses)
              && (forall i :: 0 <= i < |env.roadPoints| ==>
                    env.world.sqrt(Dist2Sq(n, env.roadPoints[i])) >= Normalised(s.exclusionRadiusRoads, env.world.size.x))
  {
    var n := NormalizedPosition(env.world, plotCenter);
    var roadRadius := Normalised(s.exclusionRadiusRoads, env.world.size.x);
    WithinRadius3(env.world.sqrt, plotCenter, env.housePositions, s.exclusionRadiusHouses);
    WithinRadius2(env.world.sqrt, n, env.roadPoints, roadRadius);
    if env.riceAt(n.x, n.y) < 0.5 {
      return false;
    }
    var nearHouse := IsTooClose(plotCenter, Some(env.housePositions), s.exclusionRadiusHouses,
                                Some(Distance3(env.world.sqrt)));
    if nearHouse {
      return false;
    }
    var nearRoad := IsTooClose(n, Some(env.roadPoints), roadRadius, Some(Distance2(env.world.sqrt)));
    if nearRoad {
      return false;
    }
    return true;
  }

  // ---------------------------------------------------------------------------
  // Rotation
  // ---------------------------------------------------------------------------

  /** `Mathf.FloorToInt(noise * 4)`: a noise value in `[0, 1)` picks one of four steps. */
  function AngleStep(noise: real): (step: int)
    ensures 0.0 <= noise < 1.0 ==> 0 <= step < 4
  {
    FloorToInt(noise * 4.0)
  }

  /**
    The yaw `CalculateFinalRotation` gives the plot at lattice corner `(x, y)`:
    always a multiple of 90 degrees, and a quarter turn from 0 to 270 when the
    noise is in `[0, 1)`.
   */
  function TargetAngle(w: World, s: Settings, x: real, y: real): (angle: int)
    ensures angle % 90 == 0
    ensures var noise := w.perlin(x * s.rotationCoherence, y * s.rotationCoherence);
            0.0 <= noise < 1.0 ==> angle in {0, 90, 180, 270}
  {
    AngleStep(w.perlin(x * s.rotationCoherence, y * s.rotationCoherence)) * 90
  }

  // ---------------------------------------------------------------------------
  // Flattening the terrain
  // ---------------------------------------------------------------------------

  /** The heightmap rectangle `FlattenTerrainUnderPaddy` reads and writes back. */
  datatype Window = Window(startX: int, startY: int, width: int, height: int)

  /** Half the paddy's diagonal, in heightmap samples, rounded up. */
  function SearchRadius(w: World, s: Settings): int
    requires Sized(w)
  {
    var worldRadius := Length(w.sqrt, Vec2(s.paddyDimensions.x, s.paddyDimensions.z)) * 0.5;
    CeilToInt(Normalised(worldRadius, w.size.x) * (w.heightmapResolution - 1) as real)
  }

  /** With a true square root the search radius is never negative. */
  lemma SearchRadiusNonnegative(w: World, s: Settings)
    requires Sized(w) && IsSqrt(w.sqrt)
    ensures SearchRadius(w, s) >= 0
  {
    var diagonal := Length(w.sqrt, Vec2(s.paddyDimensions.x, s.paddyDimensions.z));
    assert diagonal >= 0.0;
    var n := Normalised(diagonal * 0.5, w.size.x);
    NormalisedMonotone(0.0, diagonal * 0.5, w.size.x);
    MulNonneg(n, (w.heightmapResolution - 1) as real);
  }

  /**
    The window around the hit point: its corner is clamped into the
    heightmap and its extent cut at the far edge, so the whole window lies
    inside the `heightmapResolution` square, and it is at most twice the
    search radius across.
   */
  function FlattenWindow(w: World, s: Settings, hit: Hit): (win: Window)
    requires Sized(w)
    ensures 0 <= win.startX <= w.heightmapResolution - 1 && 0 <= win.startY <= w.heightmapResolution - 1
    ensures win.startX + win.width <= w.heightmapResolution && win.startY + win.height <= w.heightmapResolution
    ensures win.width <= SearchRadius(w, s) * 2 && win.height <= SearchRadius(w, s) * 2
    ensures SearchRadius(w, s) >= 0 ==> win.width >= 0 && win.height >= 0
  {
    var res := w.heightmapResolution;
    var searchRadius := SearchRadius(w, s);
    var centerX := TruncToInt(Normalised(hit.point.x - w.terrainPosition.x, w.size.x) * (res - 1) as real);
    var centerY := TruncToInt(Normalised(hit.point.z - w.terrainPosition.z, w.size.z) * (res - 1) as real);
    var startX := ClampInt(centerX - searchRadius, 0, res - 1);
    var startY := ClampInt(centerY - searchRadius, 0, res - 1);
    Window(startX, startY, MinInt(searchRadius * 2, res - startX), MinInt(searchRadius * 2, res - startY))
  }

  predicate InWindow(win: Window, x: int, y: int)
  {
    win.startX <= x < win.startX + win.width && win.startY <= y < win.startY + win.height
  }

  /** `(hit.point.y - terrainLowerAmount) / size.y`: the flattened height, normalised. */
  function TargetHeight(w: World, s: Settings, hit: Hit): real
    requires Sized(w)
  {
    Normalised(hit.point.y - s.terrainLowerAmount, w.size.y)
  }

  /**
    Heightmap sample `(x, y)`, taken to world space and into the paddy's
    frame, lies strictly inside the paddy's `x` and `z` half-extents.
   */
  predicate InFootprint(w: World, s: Settings, p: Paddy, x: int, y: int)
    requires Sized(w)
  {
    var last := (w.heightmapResolution - 1) as real;
    var worldX := Normalised(x as real, last) * w.size.x + w.terrainPosition.x;
    var worldZ := Normalised(y as real, last) * w.size.z + w.terrainPosition.z;
    var local := w.toLocal(RotationOf(p), Vec3(worldX - p.hit.point.x, 0.0, worldZ - p.hit.point.z));
    Abs(local.x) < s.paddyDimensions.x / 2.0 && Abs(local.z) < s.paddyDimensions.z / 2.0
  }

  /** Heightmap sample `[y, x]` after paddy `p` flattened the terrain, given its height `h` before. */
  function Flattened(w: World, s: Settings, p: Paddy, y: int, x: int, h: real): real
    requires Sized(w)
  {
    if InWindow(FlattenWindow(w, s, p.hit), x, y) && InFootprint(w, s, p, x, y) then TargetHeight(w, s, p.hit) else h
  }

  /** The heightmap after the paddies, in order, each flattened the terrain under it (when enabled). */
  function Terrain(w: World, s: Settings, paddies: seq<Paddy>, y: int, x: int, h0: real): real
    requires Sized(w)
  {
    if !s.modifyTerrainHeight || |paddies| == 0 then h0
    else Flattened(w, s, paddies[|paddies| - 1], y, x, Terrain(w, s, paddies[..|paddies| - 1], y, x, h0))
  }

  /**
    A sample the paddies change lies inside the heightmap, inside the window
    and footprint of one of them, and holds that paddy's target height; with
    flattening switched off nothing changes.
   */
  lemma {:induction false} TerrainChanges(w: World, s: Settings, paddies: seq<Paddy>, y: int, x: int, h0: real)
    requires Sized(w)
    ensures !s.modifyTerrainHeight ==> Terrain(w, s, paddies, y, x, h0) == h0
    ensures Terrain(w, s, paddies, y, x, h0) == h0
            || (&& 0 <= x < w.heightmapResolution && 0 <= y < w.heightmapResolution
                && exists k :: 0 <= k < |paddies|
                                 && InWindow(FlattenWindow(w, s, paddies[k].hit), x, y)
                                 && InFootprint(w, s, paddies[k], x, y)
                                 && Terrain(w, s, paddies, y, x, h0) == TargetHeight(w, s, paddies[k].hit))
  {
    if s.modifyTerrainHeight && |paddies| > 0 {
      var front, p := paddies[..|paddies| - 1], paddies[|paddies| - 1];
      var win := FlattenWindow(w, s, p.hit);
      if InWindow(win, x, y) && InFootprint(w, s, p, x, y) {
        assert paddies[|paddies| - 1] == p;
      } else {
        TerrainChanges(w, s, front, y, x, h0);
        if Terrain(w, s, paddies, y, x, h0) != h0 {
          var k :| 0 <= k < |front| && InWindow(FlattenWindow(w, s, front[k].hit), x, y)
                   && InFootprint(w, s, front[k], x, y)
                   && Terrain(w, s, front, y, x, h0) == TargetHeight(w, s, front[k].hit);
          assert paddies[k] == front[k];
        }
      }
    }
  }

  /** Flattening under one more paddy is one more `Flattened` on top of the earlier ones. */
  lemma TerrainExtend(w: World, s: Settings, placed: seq<Paddy>, r: Option<Paddy>, y: int, x: int, h0: real)
    requires Sized(w)
    ensures Terrain(w, s, Extend(placed, r), y, x, h0) ==
              if s.modifyTerrainHeight && r.Some? then Flattened(w, s, r.value, y, x, Terrain(w, s, placed, y, x, h0))
              else Terrain(w, s, placed, y, x, h0)
  {
    if r.Some? {
      assert (placed + [r.value])[..|placed|] == placed;
    }
  }

  /** One row `hmY` of the window: every footprint sample in it gets the target height. */
  method FlattenRow(heights: array2<real>, w: World, s: Settings, p: Paddy, win: Window, hmY: int)
    requires Sized(w) && win == FlattenWindow(w, s, p.hit) && win.width >= 0
    requires heights.Length0 == w.heightmapResolution && heights.Length1 == w.heightmapResolution
    requires win.startY <= hmY < win.startY + win.height
    modifies heights
    ensures forall a, b :: 0 <= a < heights.Length0 && 0 <= b < heights.Length1 ==>
              heights[a, b] == if a == hmY then Flattened(w, s, p, a, b, old(heights[a, b])) else old(heights[a, b])
  {
    var targetHeight := TargetHeight(w, s, p.hit);
    for i := 0 to win.width
      invariant forall a, b :: 0 <= a < heights.Length0 && 0 <= b < heights.Length1 ==>
                  heights[a, b] == if a == hmY && b < win.startX + i then Flattened(w, s, p, a, b, old(heights[a, b]))
                                   else old(heights[a, b])
    {
      var hmX := win.startX + i;
      if InFootprint(w, s, p, hmX, hmY) {
        heights[hmY, hmX] := targetHeight;
      }
    }
  }

  /**
    `FlattenTerrainUnderPaddy`: reading the window, setting the footprint
    samples to the target height and writing the window back changes exactly
    the samples `Flattened` says.
   */
  method FlattenTerrainUnderPaddy(heights: array2<real>, w: World, s: Settings, p: Paddy)
    requires Sized(w) && IsSqrt(w.sqrt)
    requires heights.Length0 == w.heightmapResolution && heights.Length1 == w.heightmapResolution
    modifies heights
    ensures forall a, b :: 0 <= a < heights.Length0 && 0 <= b < heights.Length1 ==>
              heights[a, b] == Flattened(w, s, p, a, b, old(heights[a, b]))
  {
    SearchRadiusNonnegative(w, s);
    var win := FlattenWindow(w, s, p.hit);
    for j := 0 to win.height
      invariant forall a, b :: 0 <= a < heights.Length0 && 0 <= b < heights.Length1 ==>
                  heights[a, b] == if a < win.startY + j then Flattened(w, s, p, a, b, old(heights[a, b]))
                                   else old(heights[a, b])
    {
      FlattenRow(heights, w, s, p, win, win.startY + j);
    }
  }

  // ---------------------------------------------------------------------------
  // The plot lattice
  // ---------------------------------------------------------------------------

  /** The plot lattice fits the terrain and its step is positive (otherwise the loops would not end). */
  predicate Valid(w: World, s: Settings)
  {
    Sized(w) && s.paddyPlotSize > 0.0
  }

  /** The `x` and `y` loop variables at lattice index `k`. */
  function PlotCorner(s: Settings, k: nat): real
  {
    k as real * s.paddyPlotSize
  }

  /** `plotCenter`: the lattice corner moved half a plot along both axes. */
  function PlotCenter(s: Settings, kx: nat, ky: nat): Vec3
  {
    Vec3(PlotCorner(s, kx) + s.paddyPlotSize / 2.0, 0.0, PlotCorner(s, ky) + s.paddyPlotSize / 2.0)
  }

  /** The inner loop's trip count: lattice corners below the terrain's width. */
  function Cols(w: World, s: Settings): nat
    requires Valid(w, s)
  {
    LatticeCount(w.size.x, s.paddyPlotSize)
  }

  /** The outer loop's trip count: lattice corners below the terrain's length. */
  function Rows(w: World, s: Settings): nat
    requires Valid(w, s)
  {
    LatticeCount(w.size.z, s.paddyPlotSize)
  }

  /** The box `IsOverlapping` tests: centred half the paddy's height above the hit, along the normal. */
  function BoxCenter(s: Settings, hit: Hit): Vec3
  {
    var k := s.paddyDimensions.y * 0.5;
    Vec3(hit.point.x + hit.normal.x * k, hit.point.y + hit.normal.y * k, hit.point.z + hit.normal.z * k)
  }

  function HalfExtents(s: Settings): Vec3
  {
    Vec3(s.paddyDimensions.x * 0.5, s.paddyDimensions.y * 0.5, s.paddyDimensions.z * 0.5)
  }

  /**
    What plot `(kx, ky)` places, given the paddies placed before it: nothing
    unless placement is allowed at its centre, the ray from 100 units above
    hits, the slope is at most `maxSlopeAngle` and the paddy's box is clear.
   */
  function PlotResult(env: Env, s: Settings, draw: (nat, nat) -> nat, placed: seq<Paddy>, kx: nat, ky: nat)
    : Option<Paddy>
    requires Sized(env.world)
  {
    var w := env.world;
    var center := PlotCenter(s, kx, ky);
    if !PlacementAllowed(env, s, center) then None
    else
      match w.raycast(Vec3(center.x, center.y + 100.0, center.z))
      case None => None
      case Some(hit) =>
        if w.slopeAngle(hit.normal) > s.maxSlopeAngle then None
        else
          var prefab := RangeInt(env.prefabCount, draw(ky, kx));
          var angle := TargetAngle(w, s, PlotCorner(s, kx), PlotCorner(s, ky));
          var p := Paddy(kx, ky, hit, prefab, angle, Vec3(hit.point.x, hit.point.y - s.sinkAmount, hit.point.z));
          if w.overlaps(BoxCenter(s, hit), HalfExtents(s), RotationOf(p), placed) then None else Some(p)
  }

  /** The placed list after a plot: one paddy longer when it placed one. */
  function Extend(placed: seq<Paddy>, r: Option<Paddy>): seq<Paddy>
  {
    match r
    case Some(p) => placed + [p]
    case None => placed
  }

  /** The paddies after the first `n` plots of row `ky`, starting from `before`. */
  function RowPaddies(env: Env, s: Settings, draw: (nat, nat) -> nat, before: seq<Paddy>, ky: nat, n: nat)
    : seq<Paddy>
    requires Sized(env.world)
  {
    if n == 0 then before
    else
      var placed := RowPaddies(env, s, draw, before, ky, n - 1);
      Extend(placed, PlotResult(env, s, draw, placed, n - 1, ky))
  }

  /** The paddies after the first `rows` rows of the lattice. */
  function GridPaddies(env: Env, s: Settings, draw: (nat, nat) -> nat, rows: nat): seq<Paddy>
    requires Valid(env.world, s)
  {
    if rows == 0 then [] else RowPaddies(env, s, draw, GridPaddies(env, s, draw, rows - 1), rows - 1, Cols(env.world, s))
  }

  /** The paddies `GeneratePaddies` places, in placement order. */
  function Paddies(env: Env, s: Settings, draw: (nat, nat) -> nat): seq<Paddy>
    requires Valid(env.world, s)
  {
    GridPaddies(env, s, draw, Rows(env.world, s))
  }

  /** Plot `(x, y)` comes before plot `(kx, ky)` in the scan: an earlier row, or the same row further left. */
  predicate PlotBefore(x: nat, y: nat, kx: nat, ky: nat)
  {
    y < ky || (y == ky && x < kx)
  }

  /**
    Paddy `p` is what its plot places: the plot is on the lattice, its centre
    is allowed, the ray hit is `p.hit` on a shallow enough slope, the prefab
    and yaw are the plot's, and the paddy is sunk `sinkAmount` below the hit.
   */
  ghost predicate PaddyFrom(env: Env, s: Settings, draw: (nat, nat) -> nat, p: Paddy)
    requires Valid(env.world, s)
  {
    var w := env.world;
    var center := PlotCenter(s, p.plotX, p.plotY);
    && p.plotX < Cols(w, s) && p.plotY < Rows(w, s)
    && PlotCorner(s, p.plotX) < w.size.x && PlotCorner(s, p.plotY) < w.size.z
    && PlacementAllowed(env, s, center)
    && w.raycast(Vec3(center.x, center.y + 100.0, center.z)) == Some(p.hit)
    && w.slopeAngle(p.hit.normal) <= s.maxSlopeAngle
    && p.prefab == RangeInt(env.prefabCount, draw(p.plotY, p.plotX))
    && (env.prefabCount > 0 ==> p.prefab < env.prefabCount)
    && p.angle == TargetAngle(w, s, PlotCorner(s, p.plotX), PlotCorner(s, p.plotY))
    && p.position == Vec3(p.hit.point.x, p.hit.point.y - s.sinkAmount, p.hit.point.z)
  }

  /** Every paddy of a placed list is what its plot places. */
  ghost predicate FromPlots(env: Env, s: Settings, draw: (nat, nat) -> nat, paddies: seq<Paddy>)
    requires Valid(env.world, s)
  {
    forall k :: 0 <= k < |paddies| ==> PaddyFrom(env, s, draw, paddies[k])
  }

  /**
    A placed list as the scan builds it up to plot `(kx, ky)`: every paddy's
    plot comes before it, the plots strictly increase along the list in scan
    order (so no plot has two paddies), and no paddy's box overlapped the
    paddies before it.
   */
  ghost predicate Scanned(env: Env, s: Settings, paddies: seq<Paddy>, kx: nat, ky: nat)
  {
    && (forall k :: 0 <= k < |paddies| ==> PlotBefore(paddies[k].plotX, paddies[k].plotY, kx, ky))
    && (forall i, j :: 0 <= i < j < |paddies| ==>
          PlotBefore(paddies[i].plotX, paddies[i].plotY, paddies[j].plotX, paddies[j].plotY))
    && (forall k :: 0 <= k < |paddies| ==>
          !env.world.overlaps(BoxCenter(s, paddies[k].hit), HalfExtents(s), RotationOf(paddies[k]), paddies[..k]))
  }

  /** What a plot places is `PaddyFrom`, carries its plot, and did not overlap the paddies before it. */
  lemma PlotResultFrom(env: Env, s: Settings, draw: (nat, nat) -> nat, placed: seq<Paddy>, kx: nat, ky: nat)
    requires Valid(env.world, s) && kx < Cols(env.world, s) && ky < Rows(env.world, s)
    ensures PlotResult(env, s, draw, placed, kx, ky).Some? ==>
              var p := PlotResult(env, s, draw, placed, kx, ky).value;
              && PaddyFrom(env, s, draw, p) && p.plotX == kx && p.plotY == ky
              && !env.world.overlaps(BoxCenter(s, p.hit), HalfExtents(s), RotationOf(p), placed)
  {
    LatticeCountExact(env.world.size.x, s.paddyPlotSize, kx);
    LatticeCountExact(env.world.size.z, s.paddyPlotSize, ky);
  }

  /** One more plot of row `ky` keeps the row `FromPlots` and `Scanned` up to the next plot, adding at most one paddy. */
  lemma ExtendRow(env: Env, s: Settings, draw: (nat, nat) -> nat, before: seq<Paddy>, ky: nat, kx: nat)
    requires Valid(env.world, s) && kx < Cols(env.world, s) && ky < Rows(env.world, s)
    requires FromPlots(env, s, draw, RowPaddies(env, s, draw, before, ky, kx))
    requires Scanned(env, s, RowPaddies(env, s, draw, before, ky, kx), kx, ky)
    ensures FromPlots(env, s, draw, RowPaddies(env, s, draw, before, ky, kx + 1))
    ensures Scanned(env, s, RowPaddies(env, s, draw, before, ky, kx + 1), kx + 1, ky)
  {
    var placed := RowPaddies(env, s, draw, before, ky, kx);
    var r := PlotResult(env, s, draw, placed, kx, ky);
    var all := RowPaddies(env, s, draw, before, ky, kx + 1);
    assert all == Extend(placed, r);
    if r.Some? {
      PlotResultFrom(env, s, draw, placed, kx, ky);
      assert all == placed + [r.value];
      assert all[..|placed|] == placed;
      forall k | 0 <= k < |all|
        ensures PaddyFrom(env, s, draw, all[k])
        ensures !env.world.overlaps(BoxCenter(s, all[k].hit), HalfExtents(s), RotationOf(all[k]), all[..k])
      {
        if k < |placed| {
          assert all[k] == placed[k] && all[..k] == placed[..k];
        }
      }
    }
  }

  /** A row of the scan keeps `FromPlots` and `Scanned`, one plot at a time. */
  lemma {:induction false} RowScanned(env: Env, s: Settings, draw: (nat, nat) -> nat, before: seq<Paddy>, ky: nat, n: nat)
    requires Valid(env.world, s) && ky < Rows(env.world, s) && n <= Cols(env.world, s)
    requires FromPlots(env, s, draw, before) && Scanned(env, s, before, 0, ky)
    ensures FromPlots(env, s, draw, RowPaddies(env, s, draw, before, ky, n))
    ensures Scanned(env, s, RowPaddies(env, s, draw, before, ky, n), n, ky)
  {
    if n > 0 {
      RowScanned(env, s, draw, before, ky, n - 1);
      ExtendRow(env, s, draw, before, ky, n - 1);
    }
  }

  /** The first `rows` rows are `FromPlots` and `Scanned` up to the start of the next row. */
  lemma {:induction false} GridScanned(env: Env, s: Settings, draw: (nat, nat) -> nat, rows: nat)
    requires Valid(env.world, s) && rows <= Rows(env.world, s)
    ensures FromPlots(env, s, draw, GridPaddies(env, s, draw, rows))
    ensures Scanned(env, s, GridPaddies(env, s, draw, rows), 0, rows)
  {
    if rows > 0 {
      var cols := Cols(env.world, s);
      var previous := GridPaddies(env, s, draw, rows - 1);
      GridScanned(env, s, draw, rows - 1);
      RowScanned(env, s, draw, previous, rows - 1, cols);
      assert GridPaddies(env, s, draw, rows) == RowPaddies(env, s, draw, previous, rows - 1, cols);
    }
  }

  /** A row adds at most one paddy per plot. */
  lemma {:induction false} RowCount(env: Env, s: Settings, draw: (nat, nat) -> nat, before: seq<Paddy>, ky: nat, n: nat)
    requires Sized(env.world)
    ensures before <= RowPaddies(env, s, draw, before, ky, n)
    ensures |RowPaddies(env, s, draw, before, ky, n)| <= |before| + n
  {
    if n > 0 {
      RowCount(env, s, draw, before, ky, n - 1);
    }
  }

  /** The first `rows` rows hold at most `rows * cols` paddies. */
  lemma {:induction false} GridCount(env: Env, s: Settings, draw: (nat, nat) -> nat, rows: nat)
    requires Valid(env.world, s)
    ensures |GridPaddies(env, s, draw, rows)| <= rows * Cols(env.world, s)
  {
    if rows > 0 {
      var cols := Cols(env.world, s);
      GridCount(env, s, draw, rows - 1);
      RowCount(env, s, draw, GridPaddies(env, s, draw, rows - 1), rows - 1, cols);
      assert (rows - 1) * cols + cols == rows * cols;
    }
  }

  /**
    Every paddy of the run comes from its own lattice plot: each is
    `PaddyFrom`, at most one per plot and at most one paddy per plot in all,
    in scan order, none overlapping an earlier one.
   */
  lemma PaddiesFromPlots(env: Env, s: Settings, draw: (nat, nat) -> nat)
    requires Valid(env.world, s)
    ensures FromPlots(env, s, draw, Paddies(env, s, draw))
    ensures Scanned(env, s, Paddies(env, s, draw), 0, Rows(env.world, s))
    ensures |Paddies(env, s, draw)| <= Rows(env.world, s) * Cols(env.world, s)
  {
    GridScanned(env, s, draw, Rows(env.world, s));
    GridCount(env, s, draw, Rows(env.world, s));
  }

  // ---------------------------------------------------------------------------
  // The component
  // ---------------------------------------------------------------------------

  /** The positions of the houses under the houses' parent, in child order. */
  ghost predicate PositionsOf(positions: seq<Vec3>, houses: seq<House>)
  {
    |positions| == |houses| && forall k :: 0 <= k < |houses| ==> positions[k] == houses[k].position
  }

  /** The part of the `RicePaddyPlacer` component that changes between runs, and the terrain's heightmap `[y, x]`. */
  class RicePaddyPlacer {
    var housePositions: seq<Vec3>
    var roadPointsNormalized: seq<Vec2>
    const paddiesParent: Transform?<Paddy>
    const housesParent: Transform?<House>
    const heights: array2<real>

    constructor (paddiesParent: Transform?<Paddy>, housesParent: Transform?<House>, heights: array2<real>)
      ensures this.paddiesParent == paddiesParent && this.housesParent == housesParent && this.heights == heights
      ensures housePositions == [] && roadPointsNormalized == []
    {
      this.paddiesParent := paddiesParent;
      this.housesParent := housesParent;
      this.heights := heights;
      housePositions := [];
      roadPointsNormalized := [];
    }

    /**
      `Initialize`: a missing mask or no prefabs fails and changes nothing;
      otherwise the house positions are read off the houses' parent (none
      without one), the normalised road points off the road mask, and it
      succeeds even when there are no road points.
     */
    method Initialize(riceFieldMask: Option<(real, real) -> real>, roadMask: Option<Mask>, prefabCount: nat)
      returns (ok: bool)
      modifies this
      ensures ok <==> riceFieldMask.Some? && roadMask.Some? && prefabCount > 0
      ensures !ok ==> housePositions == old(housePositions) && roadPointsNormalized == old(roadPointsNormalized)
      ensures ok ==>
                && PositionsOf(housePositions, if housesParent == null then [] else housesParent.children)
                && roadPointsNormalized == NormalizedRoadPoints(roadMask.value.red, roadMask.value.width, roadMask.value.height)
    {
      if riceFieldMask.None? || roadMask.None? {
        return false;
      }
      if prefabCount == 0 {
        return false;
      }
      housePositions := [];
      if housesParent != null {
        var children := housesParent.children;
        for i := 0 to |children|
          invariant PositionsOf(housePositions, children[..i])
        {
          housePositions := housePositions + [children[i].position];
        }
        assert children[..|children|] == children;
      }
      var m := roadMask.value;
      roadPointsNormalized := CollectRoadPoints(m.red, m.width, m.height, 1.0, 1.0);
      ok := true;
    }

    /** `ClearPreviousPaddies`: every child of the paddies' parent is destroyed. */
    method ClearPreviousPaddies()
      modifies paddiesParent
      ensures paddiesParent != null ==> paddiesParent.children == []
    {
      if paddiesParent != null {
        paddiesParent.DestroyChildren();
      }
    }

    /**
      One pass of the inner loop body at plot `(kx, ky)`: the placement
      filters, then the paddy is flattened into the terrain (when enabled) and
      parented.
     */
    method PlacePlot(env: Env, s: Settings, draw: (nat, nat) -> nat, placed: seq<Paddy>, kx: nat, ky: nat)
      returns (next: seq<Paddy>)
      requires Valid(env.world, s) && IsSqrt(env.world.sqrt)
      requires heights.Length0 == env.world.heightmapResolution && heights.Length1 == env.world.heightmapResolution
      requires paddiesParent != null ==> paddiesParent.children == placed
      modifies paddiesParent, heights
      ensures next == Extend(placed, PlotResult(env, s, draw, placed, kx, ky))
      ensures paddiesParent != null ==> paddiesParent.children == next
      ensures forall a, b :: 0 <= a < heights.Length0 && 0 <= b < heights.Length1 ==>
                heights[a, b] == if s.modifyTerrainHeight && PlotResult(env, s, draw, placed, kx, ky).Some?
                                 then Flattened(env.world, s, PlotResult(env, s, draw, placed, kx, ky).value, a, b, old(heights[a, b]))
                                 else old(heights[a, b])
    {
      var w := env.world;
      var plotCenter := PlotCenter(s, kx, ky);
      next := placed;
      var allowed := IsPlacementAllowed(env, s, plotCenter);
      if !allowed {
        return;
      }
      var hit := w.raycast(Vec3(plotCenter.x, plotCenter.y + 100.0, plotCenter.z));
      if hit.None? || w.slopeAngle(hit.value.normal) > s.maxSlopeAngle {
        return;
      }
      var prefab := RangeInt(env.prefabCount, draw(ky, kx));
      var angle := TargetAngle(w, s, PlotCorner(s, kx), PlotCorner(s, ky));
      var h := hit.value;
      var paddy := Paddy(kx, ky, h, prefab, angle, Vec3(h.point.x, h.point.y - s.sinkAmount, h.point.z));
      if w.overlaps(BoxCenter(s, h), HalfExtents(s), RotationOf(paddy), placed) {
        return;
      }
      if s.modifyTerrainHeight {
        FlattenTerrainUnderPaddy(heights, w, s, paddy);
      }
      if paddiesParent != null {
        paddiesParent.Adopt(paddy);
      }
      next := placed + [paddy];
    }

    /**
      `GeneratePaddies`. A failed `Initialize` stops without a change to the
      terrain; otherwise the old paddies are cleared, the plots are visited
      row by row, the parent ends up holding exactly `Paddies`, and the
      heightmap is the old one flattened under each of them in turn.
     */
    method GeneratePaddies(riceFieldMask: Option<(real, real) -> real>, roadMask: Option<Mask>, prefabCount: nat,
                           w: World, s: Settings, draw: (nat, nat) -> nat)
      returns (ok: bool)
      requires Valid(w, s) && IsSqrt(w.sqrt)
      requires heights.Length0 == w.heightmapResolution && heights.Length1 == w.heightmapResolution
      modifies this, paddiesParent, heights
      ensures ok <==> riceFieldMask.Some? && roadMask.Some? && prefabCount > 0
      ensures !ok ==> forall a, b :: 0 <= a < heights.Length0 && 0 <= b < heights.Length1 ==>
                        heights[a, b] == old(heights[a, b])
      ensures ok ==>
                && PositionsOf(housePositions, if housesParent == null then [] else housesParent.children)
                && roadPointsNormalized == NormalizedRoadPoints(roadMask.value.red, roadMask.value.width, roadMask.value.height)
      ensures !ok ==>
                && housePositions == old(housePositions) && roadPointsNormalized == old(roadPointsNormalized)
                && (paddiesParent != null ==> paddiesParent.children == old(paddiesParent.children))
      ensures ok ==>
                var env := Env(w, riceFieldMask.value, prefabCount, housePositions, roadPointsNormalized);
                && (paddiesParent != null ==> paddiesParent.children == Paddies(env, s, draw))
                && forall a, b :: 0 <= a < heights.Length0 && 0 <= b < heights.Length1 ==>
                     heights[a, b] == Terrain(w, s, Paddies(env, s, draw), a, b, old(heights[a, b]))
    {
      ok := Initialize(riceFieldMask, roadMask, prefabCount);
      if !ok {
        return;
      }
      ClearPreviousPaddies();
      var env := Env(w, riceFieldMask.value, prefabCount, housePositions, roadPointsNormalized);
      var rows, cols := Rows(w, s), Cols(w, s);
      var placed: seq<Paddy> := [];
      for ky := 0 to rows
        invariant housePositions == env.housePositions && roadPointsNormalized == env.roadPoints
        invariant placed == GridPaddies(env, s, draw, ky)
        invariant paddiesParent != null ==> paddiesParent.children == placed
        invariant forall a, b :: 0 <= a < heights.Length0 && 0 <= b < heights.Length1 ==>
                    heights[a, b] == Terrain(w, s, placed, a, b, old(heights[a, b]))
      {
        ghost var before := placed;
        for kx := 0 to cols
          invariant housePositions == env.housePositions && roadPointsNormalized == env.roadPoints
          invariant placed == RowPaddies(env, s, draw, before, ky, kx)
          invariant paddiesParent != null ==> paddiesParent.children == placed
          invariant forall a, b :: 0 <= a < heights.Length0 && 0 <= b < heights.Length1 ==>
                      heights[a, b] == Terrain(w, s, placed, a, b, old(heights[a, b]))
        {
          ghost var r := PlotResult(env, s, draw, placed, kx, ky);
          ghost var previous := placed;
          placed := PlacePlot(env, s, draw, placed, kx, ky);
          forall a, b | 0 <= a < heights.Length0 && 0 <= b < heights.Length1
            ensures heights[a, b] == Terrain(w, s, placed, a, b, old(heights[a, b]))
          {
            TerrainExtend(w, s, previous, r, a, b, old(heights[a, b]));
          }
        }
      }
    }
  }
}
