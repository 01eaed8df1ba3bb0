/**
  `SettlementPlacer` (PlaceHouses.cs): picks settlement centres among the
  road points in the flat area, then repeatedly draws a road point, accepts
  it with a chance that falls off with the distance to the nearest centre,
  offsets a house sideways from the road and keeps it when it is neither on
  the road nor too close to an earlier house.
 */
module PlaceHouses {
  import opened Common
  import opened Trees
  import opened Settlements
  import opened Scene

  datatype Settings = Settings(numberOfSettlements: int, totalHouses: int, coreRadius: real, maxRadius: real,
                               minOffsetFromRoad: real, maxOffsetFromRoad: real, minDistanceBetweenHouses: real)

  /**
    The draws attempt `k` consumes: the road point index, `Random.value` for
    the placement chance and for the side of the road, the offset and the prefab.
   */
  datatype AttemptDraw = AttemptDraw(road: nat, chance: real, side: real, offset: real, prefab: nat)

  /**
    What a run works with once it is initialised: `Mathf.Sqrt`, the road
    points, the settlement centres, `Terrain.SampleHeight` and the number of
    house prefabs.
   */
  datatype Env = Env(sqrt: real -> real, roadPoints: seq<Vec2>, centers: seq<Vec2>, sampleHeight: Vec3 -> real,
                     prefabCount: nat)

  // ---------------------------------------------------------------------------
  // Settlement centres
  // ---------------------------------------------------------------------------

  /** `IsInFlatArea`: the flat-area mask pixel under a world position is above 0.5. */
  predicate IsInFlatArea(flat: Mask, size: Vec3, p: Vec2)
    requires size.x != 0.0 && size.z != 0.0
  {
    var px := TruncToInt(Normalised(p.x, size.x) * flat.width as real);
    var py := TruncToInt(Normalised(p.y, size.z) * flat.height as real);
    flat.red(px, py) > 0.5
  }

  /** `roadPointsWorld.Where(IsInFlatArea).ToList()`. */
  function FlatCandidates(points: seq<Vec2>, flat: Mask, size: Vec3): (c: seq<Vec2>)
    requires size.x != 0.0 && size.z != 0.0
    ensures forall p :: p in c <==> p in points && IsInFlatArea(flat, size, p)
  {
    if |points| == 0 then []
    else
      var rest := FlatCandidates(points[..|points| - 1], flat, size);
      var p := points[|points| - 1];
      assert points == points[..|points| - 1] + [p];
      if IsInFlatArea(flat, size, p) then rest + [p] else rest
  }

  /**
    The centres `DetermineSettlementCenters` returns: none when no road point
    is in the flat area, otherwise `numberOfSettlements` candidates, the
    `i`-th chosen by draw `i`.
   */
  function SettlementCenters(points: seq<Vec2>, flat: Mask, size: Vec3, n: int, draw: nat -> nat): seq<Vec2>
    requires size.x != 0.0 && size.z != 0.0
  {
    var candidates := FlatCandidates(points, flat, size);
    if |candidates| == 0 then []
    else seq(Iterations(n), (i: int) requires 0 <= i => candidates[RangeInt(|candidates|, draw(i))])
  }

  /**
    Each centre is a road point inside the flat area; there are none exactly
    when no road point is in the flat area (or none is asked for), and
    otherwise `numberOfSettlements` of them.
   */
  lemma SettlementCentersFromFlatRoad(points: seq<Vec2>, flat: Mask, size: Vec3, n: int, draw: nat -> nat)
    requires size.x != 0.0 && size.z != 0.0
    ensures forall c :: c in SettlementCenters(points, flat, size, n, draw) ==> c in points && IsInFlatArea(flat, size, c)
    ensures |SettlementCenters(points, flat, size, n, draw)| == 0 <==>
              n <= 0 || forall p :: p in points ==> !IsInFlatArea(flat, size, p)
    ensures |SettlementCenters(points, flat, size, n, draw)| > 0 ==> |SettlementCenters(points, flat, size, n, draw)| == n
  {
    var candidates := FlatCandidates(points, flat, size);
    var centers := SettlementCenters(points, flat, size, n, draw);
    forall c | c in centers
      ensures c in points && IsInFlatArea(flat, size, c)
    {
      var i :| 0 <= i < |centers| && centers[i] == c;
      assert c == candidates[RangeInt(|candidates|, draw(i))];
    }
    if |centers| == 0 && n > 0 {
      assert |candidates| == 0;
    }
    if forall p :: p in points ==> !IsInFlatArea(flat, size, p) {
      if |candidates| > 0 {
        assert candidates[0] in candidates;
      }
    }
    if n > 0 && exists p :: p in points && IsInFlatArea(flat, size, p) {
      var p :| p in points && IsInFlatArea(flat, size, p);
      assert p in candidates;
    }
  }

  // ---------------------------------------------------------------------------
  // The placement chance
  // ---------------------------------------------------------------------------

  /**
    The chance of building at a road point `distance` from the nearest
    centre: 1 inside the core radius, then falling linearly. Only asked for
    distances within `maxRadius`, so the divisor is positive when it is used.
   */
  function PlacementChance(s: Settings, distance: real): (chance: real)
    requires distance <= s.maxRadius
    ensures 0.0 <= chance <= 1.0
    ensures distance <= s.coreRadius ==> chance == 1.0
  {
    if distance > s.coreRadius then
      var ratio := Normalised(distance - s.coreRadius, s.maxRadius - s.coreRadius);
      NormalisedFraction(distance - s.coreRadius, s.maxRadius - s.coreRadius);
      1.0 - ratio
    else 1.0
  }

  /** Between the core radius and `maxRadius` the chance is the fraction of the band still ahead. */
  lemma PlacementChanceLinear(s: Settings, distance: real)
    requires s.coreRadius < distance <= s.maxRadius
    ensures PlacementChance(s, distance) * (s.maxRadius - s.coreRadius) == s.maxRadius - distance
    ensures distance == s.maxRadius ==> PlacementChance(s, distance) == 0.0
  {
    var band := s.maxRadius - s.coreRadius;
    NormalisedInverse(distance - s.coreRadius, band);
    assert PlacementChance(s, distance) * band == band - Normalised(distance - s.coreRadius, band) * band;
  }

  /** The chance never grows with the distance. */
  lemma PlacementChanceAntitone(s: Settings, near: real, far: real)
    requires near <= far <= s.maxRadius
    ensures PlacementChance(s, far) <= PlacementChance(s, near)
  {
    if near > s.coreRadius {
      NormalisedMonotone(near - s.coreRadius, far - s.coreRadius, s.maxRadius - s.coreRadius);
    }
  }

  /** `Vector2.Distance` from `roadPoint` to the nearest settlement centre. */
  function DistanceToNearestCenter(env: Env, roadPoint: Vec2): real
    requires |env.centers| > 0
  {
    env.sqrt(Dist2Sq(roadPoint, env.centers[Nearest(env.centers, roadPoint).value]))
  }

  /** The nearest centre is at the least distance of all of them (the square root keeps the order). */
  lemma DistanceToNearestCenterMin(env: Env, roadPoint: Vec2, i: nat)
    requires IsSqrt(env.sqrt) && i < |env.centers|
    ensures DistanceToNearestCenter(env, roadPoint) <= env.sqrt(Dist2Sq(roadPoint, env.centers[i]))
  {
    var j := Nearest(env.centers, roadPoint).value;
    SqrtOrder(env.sqrt, Dist2Sq(roadPoint, env.centers[i]), Dist2Sq(roadPoint, env.centers[j]));
  }

  /** `ShouldPlaceHouseAt`: within `maxRadius` of the nearest centre, and `value` below the chance. */
  predicate ShouldPlaceHouseAt(env: Env, s: Settings, roadPoint: Vec2, value: real)
    requires |env.centers| > 0
  {
    var distance := DistanceToNearestCenter(env, roadPoint);
    if distance > s.maxRadius then false else value < PlacementChance(s, distance)
  }

  /** Some settlement centre is within `maxRadius` of the road point. */
  ghost predicate NearSomeCenter(env: Env, s: Settings, roadPoint: Vec2)
  {
    exists i :: 0 <= i < |env.centers| && env.sqrt(Dist2Sq(roadPoint, env.centers[i])) <= s.maxRadius
  }

  /**
    A road point farther than `maxRadius` from every centre is always
    rejected; one within the core radius of its nearest centre is accepted
    whenever `Random.value < 1`.
   */
  lemma ShouldPlaceHouseAtRadius(env: Env, s: Settings, roadPoint: Vec2, value: real)
    requires IsSqrt(env.sqrt) && |env.centers| > 0
    ensures ShouldPlaceHouseAt(env, s, roadPoint, value) ==> NearSomeCenter(env, s, roadPoint)
    ensures !NearSomeCenter(env, s, roadPoint) ==> !ShouldPlaceHouseAt(env, s, roadPoint, value)
    ensures DistanceToNearestCenter(env, roadPoint) <= s.coreRadius && DistanceToNearestCenter(env, roadPoint) <= s.maxRadius ==>
              (ShouldPlaceHouseAt(env, s, roadPoint, value) <==> value < 1.0)
  {
    var j := Nearest(env.centers, roadPoint).value;
    if ShouldPlaceHouseAt(env, s, roadPoint, value) {
      assert env.sqrt(Dist2Sq(roadPoint, env.centers[j])) <= s.maxRadius;
    }
    if NearSomeCenter(env, s, roadPoint) {
      var i :| 0 <= i < |env.centers| && env.sqrt(Dist2Sq(roadPoint, env.centers[i])) <= s.maxRadius;
      DistanceToNearestCenterMin(env, roadPoint, i);
    } else {
      assert !(env.sqrt(Dist2Sq(roadPoint, env.centers[j])) <= s.maxRadius);
    }
  }

  // ---------------------------------------------------------------------------
  // The placement position
  // ---------------------------------------------------------------------------

  datatype Placement = NoNeighbour | TooCloseToRoad | At(position: Vec3)

  /** The offset of draw `offsetDraw`: `Random.Range(minOffsetFromRoad, maxOffsetFromRoad)`. */
  function Offset(s: Settings, offsetDraw: real): real
  {
    RangeFloat(s.minOffsetFromRoad, s.maxOffsetFromRoad, offsetDraw)
  }

  /** The 2D candidate: `roadPoint` moved `offset` at right angles to the direction to the neighbour. */
  function Candidate(env: Env, s: Settings, roadPoint: Vec2, side: real, offsetDraw: real): Vec2
    requires |env.roadPoints| >= 2
  {
    var direction := Normalized(env.sqrt, Sub(Neighbour(env.roadPoints, roadPoint), roadPoint));
    SideOffset(roadPoint, direction, side < 0.5, Offset(s, offsetDraw))
  }

  /**
    `CalculatePlacementPosition`. With fewer than two road points
    `Skip(1).First()` throws (`NoNeighbour`); a candidate nearer than
    `minOffsetFromRoad / 2` to a road point is refused; otherwise the house
    stands on the terrain at the candidate.
   */
  function CalculatePlacementPosition(env: Env, s: Settings, roadPoint: Vec2, side: real, offsetDraw: real): Placement
  {
    if |env.roadPoints| < 2 then NoNeighbour
    else
      var p := Candidate(env, s, roadPoint, side, offsetDraw);
      if MinDistance(env.sqrt, env.roadPoints, p) < s.minOffsetFromRoad / 2.0 then TooCloseToRoad
      else At(Vec3(p.x, env.sampleHeight(Vec3(p.x, 0.0, p.y)), p.y))
  }

  /**
    The candidate is at right angles to the road towards the neighbour and,
    unless the neighbour is within `kEpsilon` of the road point, between
    `minOffsetFromRoad` and `maxOffsetFromRoad` from the road point.
   */
  lemma CandidateOffset(env: Env, s: Settings, roadPoint: Vec2, side: real, offsetDraw: real)
    requires IsSqrt(env.sqrt) && |env.roadPoints| >= 2
    ensures OffsetBetween(env.sqrt, roadPoint, Neighbour(env.roadPoints, roadPoint), Candidate(env, s, roadPoint, side, offsetDraw),
                          s.minOffsetFromRoad, s.maxOffsetFromRoad)
  {
    OffsetWithin(env.sqrt, roadPoint, Neighbour(env.roadPoints, roadPoint), side < 0.5, Offset(s, offsetDraw),
                 s.minOffsetFromRoad, s.maxOffsetFromRoad);
  }

  /**
    The three outcomes of `CalculatePlacementPosition`: it throws exactly
    when there are fewer than two road points, refuses exactly when some road
    point is nearer than `minOffsetFromRoad / 2` to the candidate, and
    otherwise places the house at the candidate at the sampled height.
   */
  lemma PlacementOutcome(env: Env, s: Settings, roadPoint: Vec2, side: real, offsetDraw: real)
    requires IsSqrt(env.sqrt)
    ensures CalculatePlacementPosition(env, s, roadPoint, side, offsetDraw).NoNeighbour? <==> |env.roadPoints| < 2
    ensures CalculatePlacementPosition(env, s, roadPoint, side, offsetDraw).TooCloseToRoad? <==>
              |env.roadPoints| >= 2
              && AnyCloser2(env.roadPoints, Candidate(env, s, roadPoint, side, offsetDraw), s.minOffsetFromRoad / 2.0)
    ensures CalculatePlacementPosition(env, s, roadPoint, side, offsetDraw).At? ==>
              var p := Candidate(env, s, roadPoint, side, offsetDraw);
              CalculatePlacementPosition(env, s, roadPoint, side, offsetDraw).position ==
                Vec3(p.x, env.sampleHeight(Vec3(p.x, 0.0, p.y)), p.y)
  {
    if |env.roadPoints| >= 2 {
      MinDistanceBelow(env.sqrt, env.roadPoints, Candidate(env, s, roadPoint, side, offsetDraw), s.minOffsetFromRoad / 2.0);
    }
  }

  // ---------------------------------------------------------------------------
  // The placement loop
  // ---------------------------------------------------------------------------

  /**
    One pass of the `while` body on draw `d`, given the positions placed so
    far: a road point is drawn, then the chance, the placement and the
    spacing filters are applied in the source's order.
   */
  function AttemptResult(env: Env, s: Settings, positions: seq<Vec3>, d: AttemptDraw): Try
    requires |env.roadPoints| > 0 && |env.centers| > 0
  {
    var roadPoint := env.roadPoints[RangeInt(|env.roadPoints|, d.road)];
    if !ShouldPlaceHouseAt(env, s, roadPoint, d.chance) then Skipped
    else
      match CalculatePlacementPosition(env, s, roadPoint, d.side, d.offset)
      case NoNeighbour => Threw
      case TooCloseToRoad => Skipped
      case At(p) =>
        if AnyCloser3(positions, p, s.minDistanceBetweenHouses) then Skipped
        else Built(House(p, RangeInt(env.prefabCount, d.prefab), roadPoint))
  }

  /** The attempts of a run: attempt `k`, with the positions placed before it, uses draw `k`. */
  function Results(env: Env, s: Settings, draw: nat -> AttemptDraw): (seq<Vec3>, nat) -> Try
  {
    (positions: seq<Vec3>, k: nat) =>
      if |env.roadPoints| > 0 && |env.centers| > 0 then AttemptResult(env, s, positions, draw(k)) else Skipped
  }

  /** The attempt budget of `PlaceSettlements`. */
  function Budget(s: Settings): int
  {
    s.totalHouses * 20
  }

  /** The run `PlaceSettlements` makes. */
  function Settlement(env: Env, s: Settings, draw: nat -> AttemptDraw): Run
  {
    Settle(s.totalHouses, Budget(s), Results(env, s, draw), Start)
  }

  /**
    A house this placer builds: its road point is a road point near some
    centre, it is offset at right angles from it, no road point is nearer
    than `minOffsetFromRoad / 2`, it stands at the sampled terrain height
    and its prefab is one of the prefabs.
   */
  ghost predicate HousePlaced(env: Env, s: Settings, h: House)
  {
    var p := Vec2(h.position.x, h.position.z);
    && h.roadPoint in env.roadPoints
    && NearSomeCenter(env, s, h.roadPoint)
    && |env.roadPoints| >= 2
    && OffsetBetween(env.sqrt, h.roadPoint, Neighbour(env.roadPoints, h.roadPoint), p, s.minOffsetFromRoad, s.maxOffsetFromRoad)
    && !AnyCloser2(env.roadPoints, p, s.minOffsetFromRoad / 2.0)
    && h.position.y == env.sampleHeight(Vec3(p.x, 0.0, p.y))
    && (env.prefabCount > 0 ==> h.prefabIndex < env.prefabCount)
  }

  /** The facts the loop keeps: counts within budget, one position per house, houses spaced and well placed. */
  ghost predicate Good(env: Env, s: Settings, run: Run)
  {
    && run.count <= Iterations(s.totalHouses)
    && run.attempts <= Iterations(Budget(s))
    && run.count == |run.positions| == |run.houses|
    && (forall k :: 0 <= k < |run.houses| ==> run.houses[k].position == run.positions[k])
    && (forall k :: 0 <= k < |run.houses| ==> HousePlaced(env, s, run.houses[k]))
    && Spaced(run.positions, s.minDistanceBetweenHouses)
  }

  /** One attempt counts once, adds at most one house to the end, and keeps `Good`. */
  lemma AttemptGood(env: Env, s: Settings, run: Run, d: AttemptDraw)
    requires IsSqrt(env.sqrt) && |env.roadPoints| > 0 && |env.centers| > 0
    requires Good(env, s, run) && Continues(s.totalHouses, Budget(s), run)
    ensures var next := Apply(run, AttemptResult(env, s, run.positions, d));
            && Good(env, s, next)
            && next.attempts == run.attempts + 1
            && (next.count == run.count || next.count == run.count + 1)
            && run.positions <= next.positions && run.houses <= next.houses
  {
    var r := AttemptResult(env, s, run.positions, d);
    var next := Apply(run, r);
    var roadPoint := env.roadPoints[RangeInt(|env.roadPoints|, d.road)];
    if r.Built? {
      var h := r.house;
      var placement := CalculatePlacementPosition(env, s, roadPoint, d.side, d.offset);
      PlacementOutcome(env, s, roadPoint, d.side, d.offset);
      assert h == House(placement.position, RangeInt(env.prefabCount, d.prefab), roadPoint);
      ShouldPlaceHouseAtRadius(env, s, roadPoint, d.chance);
      CandidateOffset(env, s, roadPoint, d.side, d.offset);
      assert HousePlaced(env, s, h);
      SpacedAppend(run.positions, h.position, s.minDistanceBetweenHouses);
      forall k | 0 <= k < |next.houses|
        ensures next.houses[k].position == next.positions[k] && HousePlaced(env, s, next.houses[k])
      {
        if k < |run.houses| {
          assert next.houses[k] == run.houses[k] && next.positions[k] == run.positions[k];
        }
      }
    }
  }

  /**
    The whole loop keeps `Good`, only appends, and ends either on an
    exception or with the house count or the attempt budget reached.
   */
  lemma {:induction false} SettleGood(env: Env, s: Settings, draw: nat -> AttemptDraw, run: Run)
    requires IsSqrt(env.sqrt) && |env.roadPoints| > 0 && |env.centers| > 0
    requires Good(env, s, run)
    ensures var last := Settle(s.totalHouses, Budget(s), Results(env, s, draw), run);
            && Good(env, s, last)
            && (last.aborted || last.count >= s.totalHouses || last.attempts >= Budget(s))
            && run.positions <= last.positions && run.houses <= last.houses && run.attempts <= last.attempts
    decreases Budget(s) - run.attempts
  {
    if Continues(s.totalHouses, Budget(s), run) {
      var results := Results(env, s, draw);
      assert results(run.positions, run.attempts) == AttemptResult(env, s, run.positions, draw(run.attempts));
      AttemptGood(env, s, run, draw(run.attempts));
      SettleGood(env, s, draw, Apply(run, results(run.positions, run.attempts)));
    }
  }

  /**
    From the start, at most `totalHouses` houses are placed in at most
    `totalHouses * 20` attempts, one position per house, pairwise at least
    `minDistanceBetweenHouses` apart, and each is `HousePlaced`.
   */
  lemma SettlementGood(env: Env, s: Settings, draw: nat -> AttemptDraw)
    requires IsSqrt(env.sqrt) && |env.roadPoints| > 0 && |env.centers| > 0
    ensures var last := Settlement(env, s, draw);
            && last.count <= Iterations(s.totalHouses) && last.attempts <= Iterations(Budget(s))
            && last.count == |last.positions| == |last.houses|
            && Spaced(last.positions, s.minDistanceBetweenHouses)
            && (forall k :: 0 <= k < |last.houses| ==> HousePlaced(env, s, last.houses[k]))
  {
    SettleGood(env, s, draw, Start);
  }

  /**
    One pass of the loop body: draw a road point, `continue` unless
    `ShouldPlaceHouseAt`, then `CalculatePlacementPosition` and the spacing
    check of `IsTooCloseToOtherHouses`.
   */
  method MakeAttempt(env: Env, s: Settings, positions: seq<Vec3>, d: AttemptDraw) returns (r: Try)
    requires |env.roadPoints| > 0 && |env.centers| > 0
    ensures r == AttemptResult(env, s, positions, d)
  {
    var roadPoint := env.roadPoints[RangeInt(|env.roadPoints|, d.road)];
    if !ShouldPlaceHouseAt(env, s, roadPoint, d.chance) {
      return Skipped;
    }
    var placement := CalculatePlacementPosition(env, s, roadPoint, d.side, d.offset);
    if placement.NoNeighbour? {
      return Threw;
    }
    if placement.At? && !AnyCloser3(positions, placement.position, s.minDistanceBetweenHouses) {
      return Built(House(placement.position, RangeInt(env.prefabCount, d.prefab), roadPoint));
    }
    r := Skipped;
  }

  datatype Outcome = NotInitialized | NoCenters | Finished(run: Run)

  /** The part of the `SettlementPlacer` component that changes between runs. */
  class SettlementPlacer {
    var roadPointsWorld: seq<Vec2>
    var placedHousePositions: seq<Vec3>
    const objectsParent: Transform?<House>

    constructor (objectsParent: Transform?<House>)
      ensures this.objectsParent == objectsParent
      ensures roadPointsWorld == [] && placedHousePositions == []
    {
      this.objectsParent := objectsParent;
      roadPointsWorld := [];
      placedHousePositions := [];
    }

    /**
      `Initialize`: a missing mask or no prefabs fails and changes nothing;
      otherwise the placed positions are reset, the road points are read off
      the road mask, and it succeeds when there is at least one.
     */
    method Initialize(roadMask: Option<Mask>, flatAreaMask: Option<Mask>, prefabCount: nat, size: Vec3)
      returns (ok: bool)
      modifies this
      ensures ok <==> roadMask.Some? && flatAreaMask.Some? && prefabCount > 0
                      && |RoadPoints(roadMask.value.red, roadMask.value.width, roadMask.value.height, size.x, size.z)| > 0
      ensures roadMask.None? || flatAreaMask.None? || prefabCount == 0 ==>
                roadPointsWorld == old(roadPointsWorld) && placedHousePositions == old(placedHousePositions)
      ensures roadMask.Some? && flatAreaMask.Some? && prefabCount > 0 ==>
                placedHousePositions == []
                && roadPointsWorld == RoadPoints(roadMask.value.red, roadMask.value.width, roadMask.value.height, size.x, size.z)
    {
      if roadMask.None? || flatAreaMask.None? {
        return false;
      }
      if prefabCount == 0 {
        return false;
      }
      placedHousePositions := [];
      var m := roadMask.value;
      roadPointsWorld := CollectRoadPoints(m.red, m.width, m.height, size.x, size.z);
      ok := |roadPointsWorld| > 0;
    }

    /** `DetermineSettlementCenters`: the candidates, then one draw per settlement. */
    method DetermineSettlementCenters(flat: Mask, size: Vec3, numberOfSettlements: int, draw: nat -> nat)
      returns (centers: seq<Vec2>)
      requires size.x != 0.0 && size.z != 0.0
      ensures centers == SettlementCenters(roadPointsWorld, flat, size, numberOfSettlements, draw)
    {
      centers := [];
      var candidates := FlatCandidates(roadPointsWorld, flat, size);
      if |candidates| == 0 {
        return;
      }
      for i := 0 to Iterations(numberOfSettlements)
        invariant centers == seq(i, (k: int) requires 0 <= k => candidates[RangeInt(|candidates|, draw(k))])
      {
        centers := centers + [candidates[RangeInt(|candidates|, draw(i))]];
      }
    }

    /** `ClearPreviousHouses`: every child of the parent is destroyed. */
    method ClearPreviousHouses()
      modifies objectsParent
      ensures objectsParent != null ==> objectsParent.children == []
    {
      if objectsParent != null {
        objectsParent.DestroyChildren();
      }
    }

    /**
      `PlaceSettlements`. A failed `Initialize` or no centre stops before
      any house; otherwise the loop runs as `Settle` says from the start,
      and the parent ends up holding exactly the houses of the run.
     */
    method PlaceSettlements(roadMask: Option<Mask>, flatAreaMask: Option<Mask>, prefabCount: nat, size: Vec3,
                            sqrt: real -> real, sampleHeight: Vec3 -> real, s: Settings,
                            centreDraw: nat -> nat, draw: nat -> AttemptDraw)
      returns (outcome: Outcome)
      requires size.x != 0.0 && size.z != 0.0
      modifies this, objectsParent
      ensures outcome.Finished? || outcome == NoCenters ==>
                roadMask.Some?
                && roadPointsWorld == RoadPoints(roadMask.value.red, roadMask.value.width, roadMask.value.height, size.x, size.z)
      ensures outcome.Finished? ==>
                flatAreaMask.Some? &&
                var env := Env(sqrt, roadPointsWorld, SettlementCenters(roadPointsWorld, flatAreaMask.value, size,
                                                                       s.numberOfSettlements, centreDraw),
                               sampleHeight, prefabCount);
                && |env.roadPoints| > 0 && |env.centers| > 0
                && outcome.run == Settlement(env, s, draw)
                && placedHousePositions == outcome.run.positions
                && (objectsParent != null ==> objectsParent.children == outcome.run.houses)
      ensures outcome == NoCenters ==>
                flatAreaMask.Some?
                && SettlementCenters(roadPointsWorld, flatAreaMask.value, size, s.numberOfSettlements, centreDraw) == []
                && placedHousePositions == []
                && (objectsParent != null ==> objectsParent.children == [])
      ensures outcome == NotInitialized ==>
                objectsParent != null ==> objectsParent.children == old(objectsParent.children)
      ensures roadMask.None? || flatAreaMask.None? || prefabCount == 0 ==>
                roadPointsWorld == old(roadPointsWorld) && placedHousePositions == old(placedHousePositions)
      ensures outcome == NotInitialized <==>
                !(roadMask.Some? && flatAreaMask.Some? && prefabCount > 0
                  && |RoadPoints(roadMask.value.red, roadMask.value.width, roadMask.value.height, size.x, size.z)| > 0)
    {
      var ok := Initialize(roadMask, flatAreaMask, prefabCount, size);
      if !ok {
        return NotInitialized;
      }
      ClearPreviousHouses();
      var centers := DetermineSettlementCenters(flatAreaMask.value, size, s.numberOfSettlements, centreDraw);
      if |centers| == 0 {
        return NoCenters;
      }
      var env := Env(sqrt, roadPointsWorld, centers, sampleHeight, prefabCount);
      var run := PlaceHousesAlongRoads(env, s, draw);
      outcome := Finished(run);
    }

    /**
      The `while` loop of `PlaceSettlements` on the initialised placer: each
      house is parented as it is built and its position recorded.
     */
    method PlaceHousesAlongRoads(env: Env, s: Settings, draw: nat -> AttemptDraw) returns (run: Run)
      requires roadPointsWorld == env.roadPoints && |env.roadPoints| > 0 && |env.centers| > 0
      requires placedHousePositions == []
      requires objectsParent != null ==> objectsParent.children == []
      modifies this, objectsParent
      ensures run == Settlement(env, s, draw)
      ensures roadPointsWorld == old(roadPointsWorld) && placedHousePositions == run.positions
      ensures objectsParent != null ==> objectsParent.children == run.houses
    {
      ghost var results := Results(env, s, draw);
      var placedHousesCount := 0;
      var attempts := 0;
      var houses: seq<House> := [];
      while placedHousesCount < s.totalHouses && attempts < s.totalHouses * 20
        invariant roadPointsWorld == env.roadPoints
        invariant Settle(s.totalHouses, Budget(s), results, Run(placedHousesCount, attempts, placedHousePositions, houses, false))
                  == Settle(s.totalHouses, Budget(s), results, Start)
        invariant objectsParent != null ==> objectsParent.children == houses
        decreases Budget(s) - attempts
      {
        var d := draw(attempts);
        ghost var before := Run(placedHousesCount, attempts, placedHousePositions, houses, false);
        var r := MakeAttempt(env, s, placedHousePositions, d);
        assert results(placedHousePositions, attempts) == r;
        ghost var after := Apply(before, r);
        assert Settle(s.totalHouses, Budget(s), results, after) == Settle(s.totalHouses, Budget(s), results, Start) by {
          assert Continues(s.totalHouses, Budget(s), before);
        }
        attempts := attempts + 1;
        match r {
          case Threw =>
            return Run(placedHousesCount, attempts, placedHousePositions, houses, true);
          case Skipped =>
            assert Run(placedHousesCount, attempts, placedHousePositions, houses, false) == after;
          case Built(house) =>
            if objectsParent != null {
              objectsParent.Adopt(house);
            }
            houses := houses + [house];
            placedHousePositions := placedHousePositions + [house.position];
            placedHousesCount := placedHousesCount + 1;
            assert Run(placedHousesCount, attempts, placedHousePositions, houses, false) == after;
        }
      }
      run := Run(placedHousesCount, attempts, placedHousePositions, houses, false);
    }
  }
}
