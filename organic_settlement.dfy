/**
  `OrganicSettlementPlacer` (OrganicSettlementPlacer.cs): repeatedly draws a
  road point, accepts it when `Random.value` is not above 1.5 times the
  Perlin density noise there, offsets a house sideways from the road by
  `offsetFromRoad` plus up to 5 units, and keeps it when it is not too close
  to an earlier house. There are no settlement centres and no check against
  the road itself.
 */
module OrganicSettlement {
  import opened Common
  import opened Trees
  import opened Settlements
  import opened Scene

  datatype Settings = Settings(totalHouses: int, densityNoiseScale: real, offsetFromRoad: real,
                               minDistanceBetweenHouses: real)

  /**
    The draws attempt `k` consumes: the road point index, `Random.value` for
    the noise gate and for the side of the road, the offset draw and the prefab.
   */
  datatype AttemptDraw = AttemptDraw(road: nat, gate: real, side: real, offset: real, prefab: nat)

  /**
    What a run works with once it is initialised: `Mathf.Sqrt`, the road
    points, the terrain size, `Mathf.PerlinNoise`, `Terrain.SampleHeight`
    and the number of house prefabs.
   */
  datatype Env = Env(sqrt: real -> real, roadPoints: seq<Vec2>, size: Vec3, perlin: (real, real) -> real,
                     sampleHeight: Vec3 -> real, prefabCount: nat)

  /** The terrain's horizontal extents are nonzero, so that road points can be normalised by them. */
  predicate Sized(env: Env)
  {
    env.size.x != 0.0 && env.size.z != 0.0
  }

  // ---------------------------------------------------------------------------
  // The density noise
  // ---------------------------------------------------------------------------

  /** The noise at a road point: Perlin noise at its normalised position times `densityNoiseScale`. */
  function NoiseAt(env: Env, s: Settings, roadPoint: Vec2): real
    requires Sized(env)
  {
    env.perlin(Normalised(roadPoint.x, env.size.x) * s.densityNoiseScale,
               Normalised(roadPoint.y, env.size.z) * s.densityNoiseScale)
  }

  /** The gate `Random.value > noiseValue * 1.5` that skips an attempt. */
  predicate RejectedByNoise(env: Env, s: Settings, roadPoint: Vec2, value: real)
    requires Sized(env)
  {
    value > NoiseAt(env, s, roadPoint) * 1.5
  }

  // ---------------------------------------------------------------------------
  // The placement position
  // ---------------------------------------------------------------------------

  /** The offset of draw `offsetDraw`: `offsetFromRoad + Random.Range(0f, 5f)`. */
  function Offset(s: Settings, offsetDraw: real): (offset: real)
    ensures s.offsetFromRoad <= offset <= s.offsetFromRoad + 5.0
  {
    s.offsetFromRoad + RangeFloat(0.0, 5.0, offsetDraw)
  }

  /** The 2D candidate: `roadPoint` moved `offset` at right angles to the direction to the neighbour. */
  function Candidate(env: Env, s: Settings, roadPoint: Vec2, side: real, offsetDraw: real): Vec2
    requires |env.roadPoints| >= 2
  {
    var direction := Normalized(env.sqrt, Sub(Neighbour(env.roadPoints, roadPoint), roadPoint));
    SideOffset(roadPoint, direction, side < 0.5, Offset(s, offsetDraw))
  }

  /** `CalculatePlacementPosition`; `None` is the exception `Skip(1).First()` throws with fewer than two road points. */
  function CalculatePlacementPosition(env: Env, s: Settings, roadPoint: Vec2, side: real, offsetDraw: real)
    : (p: Option<Vec2>)
    ensures p.None? <==> |env.roadPoints| < 2
  {
    if |env.roadPoints| < 2 then None else Some(Candidate(env, s, roadPoint, side, offsetDraw))
  }

  /** The 3D position: the 2D candidate at the terrain's height there. */
  function OnTerrain(env: Env, p: Vec2): Vec3
  {
    Vec3(p.x, env.sampleHeight(Vec3(p.x, 0.0, p.y)), p.y)
  }

  /**
    The candidate is at right angles to the road towards the neighbour and,
    unless the neighbour is within `kEpsilon` of the road point, between
    `offsetFromRoad` and `offsetFromRoad + 5` from the road point.
   */
  lemma CandidateOffset(env: Env, s: Settings, roadPoint: Vec2, side: real, offsetDraw: real)
    requires IsSqrt(env.sqrt) && |env.roadPoints| >= 2
    ensures OffsetBetween(env.sqrt, roadPoint, Neighbour(env.roadPoints, roadPoint),
                          Candidate(env, s, roadPoint, side, offsetDraw), s.offsetFromRoad, s.offsetFromRoad + 5.0)
  {
    OffsetWithin(env.sqrt, roadPoint, Neighbour(env.roadPoints, roadPoint), side < 0.5, Offset(s, offsetDraw),
                 s.offsetFromRoad, s.offsetFromRoad + 5.0);
  }

  // ---------------------------------------------------------------------------
  // The placement loop
  // ---------------------------------------------------------------------------

  /**
    One pass of the `while` body on draw `d`, given the positions placed so
    far: a road point is drawn, then the noise gate, the placement and the
    spacing filters are applied in the source's order.
   */
  function AttemptResult(env: Env, s: Settings, positions: seq<Vec3>, d: AttemptDraw): Try
    requires |env.roadPoints| > 0 && Sized(env)
  {
    var roadPoint := env.roadPoints[RangeInt(|env.roadPoints|, d.road)];
    if RejectedByNoise(env, s, roadPoint, d.gate) then Skipped
    else
      match CalculatePlacementPosition(env, s, roadPoint, d.side, d.offset)
      case None => Threw
      case Some(p) =>
        var position := OnTerrain(env, p);
        if AnyCloser3(positions, position, s.minDistanceBetweenHouses) then Skipped
        else Built(House(position, RangeInt(env.prefabCount, d.prefab), roadPoint))
  }

  /**
    A house this placer builds: its road point is one of the road points,
    there are at least two of them, it is offset at right angles from it by
    `offsetFromRoad` to `offsetFromRoad + 5`, it stands at the sampled
    terrain height and its prefab is one of the prefabs.
   */
  ghost predicate HousePlaced(env: Env, s: Settings, h: House)
    requires Sized(env)
  {
    var p := Vec2(h.position.x, h.position.z);
    && h.roadPoint in env.roadPoints
    && |env.roadPoints| >= 2
    && OffsetBetween(env.sqrt, h.roadPoint, Neighbour(env.roadPoints, h.roadPoint), p,
                     s.offsetFromRoad, s.offsetFromRoad + 5.0)
    && h.position == OnTerrain(env, p)
    && (env.prefabCount > 0 ==> h.prefabIndex < env.prefabCount)
  }

  /**
    The three outcomes of an attempt: it is skipped whenever the draw is above
    1.5 times the noise at its road point; past that gate it throws exactly
    when there are fewer than two road points; otherwise it builds exactly
    when the position is not too close to a placed one, and what it builds is
    `HousePlaced`.
   */
  lemma AttemptOutcome(env: Env, s: Settings, positions: seq<Vec3>, d: AttemptDraw)
    requires IsSqrt(env.sqrt) && |env.roadPoints| > 0 && Sized(env)
    ensures var roadPoint := env.roadPoints[RangeInt(|env.roadPoints|, d.road)];
            RejectedByNoise(env, s, roadPoint, d.gate) ==> AttemptResult(env, s, positions, d) == Skipped
    ensures var roadPoint := env.roadPoints[RangeInt(|env.roadPoints|, d.road)];
            AttemptResult(env, s, positions, d) == Threw <==>
              !RejectedByNoise(env, s, roadPoint, d.gate) && |env.roadPoints| < 2
    ensures var roadPoint := env.roadPoints[RangeInt(|env.roadPoints|, d.road)];
            !RejectedByNoise(env, s, roadPoint, d.gate) && |env.roadPoints| >= 2 ==>
              var position := OnTerrain(env, Candidate(env, s, roadPoint, d.side, d.offset));
              (AttemptResult(env, s, positions, d).Built? <==> !AnyCloser3(positions, position, s.minDistanceBetweenHouses))
    ensures AttemptResult(env, s, positions, d).Built? ==>
              var h := AttemptResult(env, s, positions, d).house;
              HousePlaced(env, s, h) && !AnyCloser3(positions, h.position, s.minDistanceBetweenHouses)
              && h.roadPoint == env.roadPoints[RangeInt(|env.roadPoints|, d.road)]
              && !RejectedByNoise(env, s, h.roadPoint, d.gate)
  {
    var roadPoint := env.roadPoints[RangeInt(|env.roadPoints|, d.road)];
    if AttemptResult(env, s, positions, d).Built? {
      CandidateOffset(env, s, roadPoint, d.side, d.offset);
    }
  }

  /** The attempts of a run: attempt `k`, with the positions placed before it, uses draw `k`. */
  function Results(env: Env, s: Settings, draw: nat -> AttemptDraw): (seq<Vec3>, nat) -> Try
  {
    (positions: seq<Vec3>, k: nat) =>
      if |env.roadPoints| > 0 && Sized(env) then AttemptResult(env, s, positions, draw(k)) else Skipped
  }

  /** The attempt budget of `PlaceSettlements`. */
  function Budget(s: Settings): int
  {
    s.totalHouses * 10
  }

  /** The run `PlaceSettlements` makes. */
  function Settlement(env: Env, s: Settings, draw: nat -> AttemptDraw): Run
  {
    Settle(s.totalHouses, Budget(s), Results(env, s, draw), Start)
  }

  /** The facts the loop keeps: counts within budget, one position per house, houses spaced and well placed. */
  ghost predicate Good(env: Env, s: Settings, run: Run)
    requires Sized(env)
  {
    && run.count <= Iterations(s.totalHouses)
    && run.attempts <= Iterations(Budget(s))
    && run.count == |run.positions| == |run.houses|
    && (forall k :: 0 <= k < |run.houses| ==> run.houses[k].position == run.positions[k])
    && (forall k :: 0 <= k < |run.houses| ==> HousePlaced(env, s, run.houses[k]))
    && Spaced(run.positions, s.minDistanceBetweenHouses)
  }

  /** One attempt counts exactly once, adds at most one house to the end, and keeps `Good`. */
  lemma AttemptGood(env: Env, s: Settings, run: Run, d: AttemptDraw)
    requires IsSqrt(env.sqrt) && |env.roadPoints| > 0 && Sized(env)
    requires Good(env, s, run) && Continues(s.totalHouses, Budget(s), run)
    ensures var next := Apply(run, AttemptResult(env, s, run.positions, d));
            && Good(env, s, next)
            && next.attempts == run.attempts + 1
            && (next.count == run.count || next.count == run.count + 1)
            && run.positions <= next.positions && run.houses <= next.houses
  {
    var r := AttemptResult(env, s, run.positions, d);
    var next := Apply(run, r);
    if r.Built? {
      var h := r.house;
      AttemptOutcome(env, s, run.positions, d);
      SpacedAppend(run.positions, h.position, s.minDistanceBetweenHouses);
      forall k | 0 <= k < |next.houses|
        ensures next.houses[k].position == next.positions[k] && HousePlaced(env, s, next.houses[k])
      {
        if k < |run.houses| {
          assert next.houses[k] == run.houses[k] && next.positions[k] == run.positions[k];
        }
      }
    }
  }

  /**
    The whole loop keeps `Good`, only appends, and ends either on an
    exception or with the house count or the attempt budget reached.
   */
  lemma {:induction false} SettleGood(env: Env, s: Settings, draw: nat -> AttemptDraw, run: Run)
    requires IsSqrt(env.sqrt) && |env.roadPoints| > 0 && Sized(env)
    requires Good(env, s, run)
    ensures var last := Settle(s.totalHouses, Budget(s), Results(env, s, draw), run);
            && Good(env, s, last)
            && (last.aborted || last.count >= s.totalHouses || last.attempts >= Budget(s))
            && run.positions <= last.positions && run.houses <= last.houses && run.attempts <= last.attempts
    decreases Budget(s) - run.attempts
  {
    if Continues(s.totalHouses, Budget(s), run) {
      var results := Results(env, s, draw);
      assert results(run.positions, run.attempts) == AttemptResult(env, s, run.positions, draw(run.attempts));
      AttemptGood(env, s, run, draw(run.attempts));
      SettleGood(env, s, draw, Apply(run, results(run.positions, run.attempts)));
    }
  }

  /**
    From the start, at most `totalHouses` houses are placed in at most
    `totalHouses * 10` attempts; the house count is the number of positions
    recorded, the positions are pairwise at least `minDistanceBetweenHouses`
    apart, and each house is `HousePlaced`.
   */
  lemma SettlementGood(env: Env, s: Settings, draw: nat -> AttemptDraw)
    requires IsSqrt(env.sqrt) && |env.roadPoints| > 0 && Sized(env)
    ensures var last := Settlement(env, s, draw);
            && last.count <= Iterations(s.totalHouses) && last.attempts <= Iterations(Budget(s))
            && last.count == |last.positions| == |last.houses|
            && Spaced(last.positions, s.minDistanceBetweenHouses)
            && (forall k :: 0 <= k < |last.houses| ==> HousePlaced(env, s, last.houses[k]))
            && (last.aborted || last.count >= s.totalHouses || last.attempts >= Budget(s))
  {
    SettleGood(env, s, draw, Start);
  }

  /**
    One pass of the loop body: draw a road point, `continue` when the noise
    gate rejects it, then `CalculatePlacementPosition`, the terrain height and
    the `foreach` of `IsTooCloseToOtherHouses`.
   */
  method MakeAttempt(env: Env, s: Settings, positions: seq<Vec3>, d: AttemptDraw) returns (r: Try)
    requires |env.roadPoints| > 0 && Sized(env)
    ensures r == AttemptResult(env, s, positions, d)
  {
    var roadPoint := env.roadPoints[RangeInt(|env.roadPoints|, d.road)];
    var noiseValue := NoiseAt(env, s, roadPoint);
    if d.gate > noiseValue * 1.5 {
      return Skipped;
    }
    var placement := CalculatePlacementPosition(env, s, roadPoint, d.side, d.offset);
    if placement.None? {
      return Threw;
    }
    var position := OnTerrain(env, placement.value);
    var tooClose := IsTooClose3(position, positions, s.minDistanceBetweenHouses);
    if tooClose {
      return Skipped;
    }
    r := Built(House(position, RangeInt(env.prefabCount, d.prefab), roadPoint));
  }

  datatype Outcome = NotInitialized | Finished(run: Run)

  /** The part of the `OrganicSettlementPlacer` component that changes between runs. */
  class OrganicSettlementPlacer {
    var roadPointsWorld: seq<Vec2>
    var placedHousePositions: seq<Vec3>
    const objectsParent: Transform?<House>

    constructor (objectsParent: Transform?<House>)
      ensures this.objectsParent == objectsParent
      ensures roadPointsWorld == [] && placedHousePositions == []
    {
      this.objectsParent := objectsParent;
      roadPointsWorld := [];
      placedHousePositions := [];
    }

    /**
      `Initialize`: a missing road mask or no prefabs fails and changes
      nothing; otherwise the placed positions are cleared, the road points
      are read off the mask, and it succeeds when there is at least one.
     */
    method Initialize(roadMask: Option<Mask>, prefabCount: nat, size: Vec3) returns (ok: bool)
      modifies this
      ensures ok <==> roadMask.Some? && prefabCount > 0
                      && |RoadPoints(roadMask.value.red, roadMask.value.width, roadMask.value.height, size.x, size.z)| > 0
      ensures roadMask.None? || prefabCount == 0 ==>
                roadPointsWorld == old(roadPointsWorld) && placedHousePositions == old(placedHousePositions)
      ensures roadMask.Some? && prefabCount > 0 ==>
                placedHousePositions == []
                && roadPointsWorld == RoadPoints(roadMask.value.red, roadMask.value.width, roadMask.value.height, size.x, size.z)
    {
      if roadMask.None? {
        return false;
      }
      if prefabCount == 0 {
        return false;
      }
      var m := roadMask.value;
      roadPointsWorld := CollectRoadPoints(m.red, m.width, m.height, size.x, size.z);
      placedHousePositions := [];
      ok := |roadPointsWorld| > 0;
    }

    /** `ClearPreviousHouses`: every child of the parent is destroyed. */
    method ClearPreviousHouses()
      modifies objectsParent
      ensures objectsParent != null ==> objectsParent.children == []
    {
      if objectsParent != null {
        objectsParent.DestroyChildren();
      }
    }

    /**
      `PlaceSettlements`. A failed `Initialize` stops before any house;
      otherwise the loop runs as `Settle` says from the start, the placed
      positions are exactly the run's, and the parent ends up holding exactly
      the houses of the run.
     */
    method PlaceSettlements(roadMask: Option<Mask>, prefabCount: nat, size: Vec3, sqrt: real -> real,
                            perlin: (real, real) -> real, sampleHeight: Vec3 -> real, s: Settings,
                            draw: nat -> AttemptDraw)
      returns (outcome: Outcome)
      requires size.x != 0.0 && size.z != 0.0
      modifies this, objectsParent
      ensures outcome.Finished? ==>
                roadMask.Some?
                && roadPointsWorld == RoadPoints(roadMask.value.red, roadMask.value.width, roadMask.value.height, size.x, size.z)
      ensures outcome.Finished? ==>
                var env := Env(sqrt, roadPointsWorld, size, perlin, sampleHeight, prefabCount);
                && |env.roadPoints| > 0
                && outcome.run == Settlement(env, s, draw)
                && placedHousePositions == outcome.run.positions
                && (objectsParent != null ==> objectsParent.children == outcome.run.houses)
      ensures outcome == NotInitialized ==>
                objectsParent != null ==> objectsParent.children == old(objectsParent.children)
      ensures roadMask.None? || prefabCount == 0 ==>
                roadPointsWorld == old(roadPointsWorld) && placedHousePositions == old(placedHousePositions)
      ensures outcome == NotInitialized <==>
                !(roadMask.Some? && prefabCount > 0
                  && |RoadPoints(roadMask.value.red, roadMask.value.width, roadMask.value.height, size.x, size.z)| > 0)
    {
      var ok := Initialize(roadMask, prefabCount, size);
      if !ok {
        return NotInitialized;
      }
      ClearPreviousHouses();
      var env := Env(sqrt, roadPointsWorld, size, perlin, sampleHeight, prefabCount);
      var run := PlaceHousesAlongRoads(env, s, draw);
      outcome := Finished(run);
    }

    /**
      The `while` loop of `PlaceSettlements` on the initialised placer: each
      house is parented as it is built and its position recorded.
     */
    method PlaceHousesAlongRoads(env: Env, s: Settings, draw: nat -> AttemptDraw) returns (run: Run)
      requires roadPointsWorld == env.roadPoints && |env.roadPoints| > 0 && Sized(env)
      requires placedHousePositions == []
      requires objectsParent != null ==> objectsParent.children == []
      modifies this, objectsParent
      ensures run == Settlement(env, s, draw)
      ensures roadPointsWorld == old(roadPointsWorld) && placedHousePositions == run.positions
      ensures objectsParent != null ==> objectsParent.children == run.houses
    {
      ghost var results := Results(env, s, draw);
      var placedHouses := 0;
      var attempts := 0;
      var houses: seq<House> := [];
      while placedHouses < s.totalHouses && attempts < s.totalHouses * 10
        invariant roadPointsWorld == env.roadPoints
        invariant Settle(s.totalHouses, Budget(s), results, Run(placedHouses, attempts, placedHousePositions, houses, false))
                  == Settle(s.totalHouses, Budget(s), results, Start)
        invariant objectsParent != null ==> objectsParent.children == houses
        decreases Budget(s) - attempts
      {
        var d := draw(attempts);
        ghost var before := Run(placedHouses, attempts, placedHousePositions, houses, false);
        var r := MakeAttempt(env, s, placedHousePositions, d);
        assert results(placedHousePositions, attempts) == r;
        ghost var after := Apply(before, r);
        assert Settle(s.totalHouses, Budget(s), results, after) == Settle(s.totalHouses, Budget(s), results, Start) by {
          assert Continues(s.totalHouses, Budget(s), before);
        }
        match r {
          case Threw =>
            return Run(placedHouses, attempts + 1, placedHousePositions, houses, true);
          case Skipped =>
            attempts := attempts + 1;
            assert Run(placedHouses, attempts, placedHousePositions, houses, false) == after;
          case Built(house) =>
            if objectsParent != null {
              objectsParent.Adopt(house);
            }
            houses := houses + [house];
            placedHousePositions := placedHousePositions + [house.position];
            placedHouses := placedHouses + 1;
            attempts := attempts + 1;
            assert Run(placedHouses, attempts, placedHousePositions, houses, false) == after;
        }
      }
      run := Run(placedHouses, attempts, placedHousePositions, houses, false);
    }
  }
}
