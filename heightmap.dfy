/**
  `HeightMapGenerator`: fractal noise normalised by the geometric sum of the
  octave amplitudes, plateau rectangles blended into it by the distance to
  their nearest edge, and a circular road brush that flattens the cells around
  every path point and paints them into a road colour buffer. The height map is
  indexed `[x, y]`; the colour buffer is a flat array indexed `y * mapWidth + x`
  holding the red channel (black 0, white 1).
 */
module Heightmap {
  import opened Common

  // ---------------------------------------------------------------------------
  // Octave normalisation (`GenerateInitialHeightMap`)
  // ---------------------------------------------------------------------------

  function Power(p: real, i: nat): real
  {
    if i == 0 then 1.0 else Power(p, i - 1) * p
  }

  /** The sum of the amplitudes `persistence^i` for `i < n`. */
  function GeometricSum(p: real, n: nat): real
  {
    if n == 0 then 0.0 else GeometricSum(p, n - 1) + Power(p, n - 1)
  }

  lemma {:induction false} PowerNonneg(p: real, i: nat)
    requires p >= 0.0
    ensures Power(p, i) >= 0.0
  {
    if i > 0 {
      PowerNonneg(p, i - 1);
      MulNonneg(Power(p, i - 1), p);
    }
  }

  /** With a non-negative persistence, one octave or more sum to at least 1. */
  lemma {:induction false} GeometricSumAtLeastOne(p: real, n: nat)
    requires p >= 0.0 && n >= 1
    ensures GeometricSum(p, n) >= 1.0
  {
    if n > 1 {
      GeometricSumAtLeastOne(p, n - 1);
      PowerNonneg(p, n - 1);
    }
  }

  /** The closed form of the geometric sum: `(1 - p) * sum == 1 - p^n`. */
  lemma {:induction false} GeometricSumClosedForm(p: real, n: nat)
    ensures (1.0 - p) * GeometricSum(p, n) == 1.0 - Power(p, n)
  {
    if n > 0 {
      GeometricSumClosedForm(p, n - 1);
      calc {
        (1.0 - p) * GeometricSum(p, n);
        (1.0 - p) * GeometricSum(p, n - 1) + (1.0 - p) * Power(p, n - 1);
        1.0 - Power(p, n - 1) + Power(p, n - 1) - Power(p, n - 1) * p;
      }
    }
  }

  /** `maxPossibleHeight` as the first loop of `GenerateInitialHeightMap` accumulates it. */
  method MaxPossibleHeight(octaves: int, persistence: real) returns (maxPossibleHeight: real)
    ensures maxPossibleHeight == GeometricSum(persistence, if octaves < 0 then 0 else octaves)
  {
    maxPossibleHeight := 0.0;
    var amplitudeForNormalization := 1.0;
    var n: nat := if octaves < 0 then 0 else octaves;
    for i := 0 to n
      invariant amplitudeForNormalization == Power(persistence, i)
      invariant maxPossibleHeight == GeometricSum(persistence, i)
    {
      maxPossibleHeight := maxPossibleHeight + amplitudeForNormalization;
      amplitudeForNormalization := amplitudeForNormalization * persistence;
    }
  }

  /** Octave settings of the noise. */
  datatype NoiseSettings = NoiseSettings(noiseScale: real, octaves: nat, persistence: real, lacunarity: real,
                                         offset: Vec2)

  /** The noise coordinate of cell coordinate `c` at one octave: `(c / noiseScale) * frequency + offset`. */
  function SampleCoordinate(c: int, noiseScale: real, frequency: real, offset: real): real
    requires noiseScale != 0.0
  {
    (c as real / noiseScale) * frequency + offset
  }

  /** The signed Perlin sample of octave `i` at cell `(x, y)`, in [-1, 1] when `perlin` is in [0, 1]. */
  function OctaveSample(perlin: (real, real) -> real, s: NoiseSettings, x: int, y: int, i: nat): real
    requires s.noiseScale != 0.0
  {
    var frequency := Power(s.lacunarity, i);
    perlin(SampleCoordinate(x, s.noiseScale, frequency, s.offset.x),
           SampleCoordinate(y, s.noiseScale, frequency, s.offset.y)) * 2.0 - 1.0
  }

  /** `noiseHeight` after the first `n` octaves at `(x, y)`. */
  function OctaveNoise(perlin: (real, real) -> real, s: NoiseSettings, x: int, y: int, n: nat): real
    requires s.noiseScale != 0.0
  {
    if n == 0 then 0.0
    else OctaveNoise(perlin, s, x, y, n - 1) + OctaveSample(perlin, s, x, y, n - 1) * Power(s.persistence, n - 1)
  }

  /** The stored height: `(noiseHeight + maxPossibleHeight) / (maxPossibleHeight * 2)`. */
  function NormalisedHeight(perlin: (real, real) -> real, s: NoiseSettings, x: int, y: int): real
    requires s.noiseScale != 0.0 && s.octaves >= 1 && s.persistence >= 0.0
  {
    GeometricSumAtLeastOne(s.persistence, s.octaves);
    (OctaveNoise(perlin, s, x, y, s.octaves) + GeometricSum(s.persistence, s.octaves))
      / (GeometricSum(s.persistence, s.octaves) * 2.0)
  }

  ghost predicate UnitNoise(perlin: (real, real) -> real)
  {
    forall a, b :: 0.0 <= perlin(a, b) <= 1.0
  }

  /** With Perlin values in [0, 1] each octave adds at most its amplitude in either direction. */
  lemma {:induction false} OctaveNoiseBounded(perlin: (real, real) -> real, s: NoiseSettings, x: int, y: int, n: nat)
    requires s.noiseScale != 0.0 && s.persistence >= 0.0 && UnitNoise(perlin)
    ensures -GeometricSum(s.persistence, n) <= OctaveNoise(perlin, s, x, y, n) <= GeometricSum(s.persistence, n)
  {
    if n > 0 {
      OctaveNoiseBounded(perlin, s, x, y, n - 1);
      var a := Power(s.persistence, n - 1);
      var v := OctaveSample(perlin, s, x, y, n - 1);
      PowerNonneg(s.persistence, n - 1);
      assert -1.0 <= v <= 1.0;
      MulNonneg(1.0 - v, a);
      MulNonneg(v + 1.0, a);
    }
  }

  /** With Perlin values in [0, 1] every initial height lies in [0, 1]. */
  lemma NormalisedHeightInUnit(perlin: (real, real) -> real, s: NoiseSettings, x: int, y: int)
    requires s.noiseScale != 0.0 && s.octaves >= 1 && s.persistence >= 0.0 && UnitNoise(perlin)
    ensures 0.0 <= NormalisedHeight(perlin, s, x, y) <= 1.0
  {
    OctaveNoiseBounded(perlin, s, x, y, s.octaves);
    GeometricSumAtLeastOne(s.persistence, s.octaves);
    var m := GeometricSum(s.persistence, s.octaves);
    var v := OctaveNoise(perlin, s, x, y, s.octaves);
    assert (v + m) / (m * 2.0) * (m * 2.0) == v + m;
  }

  /** The octave loop for one cell. */
  method NoiseHeight(perlin: (real, real) -> real, s: NoiseSettings, x: int, y: int) returns (noiseHeight: real)
    requires s.noiseScale != 0.0
    ensures noiseHeight == OctaveNoise(perlin, s, x, y, s.octaves)
  {
    var amplitude := 1.0;
    var frequency := 1.0;
    noiseHeight := 0.0;
    for i := 0 to s.octaves
      invariant amplitude == Power(s.persistence, i) && frequency == Power(s.lacunarity, i)
      invariant noiseHeight == OctaveNoise(perlin, s, x, y, i)
    {
      var sampleX := (x as real / s.noiseScale) * frequency + s.offset.x;
      var sampleY := (y as real / s.noiseScale) * frequency + s.offset.y;
      var perlinValue := perlin(sampleX, sampleY) * 2.0 - 1.0;
      assert sampleX == SampleCoordinate(x, s.noiseScale, frequency, s.offset.x);
      assert sampleY == SampleCoordinate(y, s.noiseScale, frequency, s.offset.y);
      noiseHeight := noiseHeight + perlinValue * amplitude;
      amplitude := amplitude * s.persistence;
      frequency := frequency * s.lacunarity;
    }
  }

  /** `GenerateInitialHeightMap`: a `mapWidth x mapHeight` grid of normalised heights. */
  method GenerateInitialHeightMap(perlin: (real, real) -> real, s: NoiseSettings, mapWidth: nat, mapHeight: nat)
    returns (heightMap: array2<real>)
    requires s.noiseScale != 0.0 && s.octaves >= 1 && 0.0 <= s.persistence <= 1.0
    ensures fresh(heightMap) && heightMap.Length0 == mapWidth && heightMap.Length1 == mapHeight
    ensures forall x, y :: 0 <= x < mapWidth && 0 <= y < mapHeight ==>
              heightMap[x, y] == NormalisedHeight(perlin, s, x, y)
  {
    heightMap := new real[mapWidth, mapHeight];
    var maxPossibleHeight := MaxPossibleHeight(s.octaves, s.persistence);
    for y := 0 to mapHeight
      invariant forall i, j :: 0 <= i < mapWidth && 0 <= j < y ==> heightMap[i, j] == NormalisedHeight(perlin, s, i, j)
    {
      for x := 0 to mapWidth
        invariant forall i, j :: 0 <= i < mapWidth && 0 <= j < y ==> heightMap[i, j] == NormalisedHeight(perlin, s, i, j)
        invariant forall i :: 0 <= i < x ==> heightMap[i, y] == NormalisedHeight(perlin, s, i, y)
      {
        var noiseHeight := NoiseHeight(perlin, s, x, y);
        GeometricSumAtLeastOne(s.persistence, s.octaves);
        heightMap[x, y] := (noiseHeight + maxPossibleHeight) / (maxPossibleHeight * 2.0);
      }
    }
  }

  // ---------------------------------------------------------------------------
  // Plateau blending (`GenerateMap`, first loop)
  // ---------------------------------------------------------------------------

  /** A `PlateauArea`: the rectangle `[xMin, xMax) x [yMin, yMax)`, its target height and falloff. */
  datatype PlateauArea = PlateauArea(xMin: int, yMin: int, xMax: int, yMax: int, height: real, falloff: int)

  /** The cells the area's loops write: inside both the rectangle and the map. */
  predicate Affects(area: PlateauArea, mapWidth: int, mapHeight: int, x: int, y: int)
  {
    area.xMin <= x < area.xMax && area.yMin <= y < area.yMax && 0 <= x < mapWidth && 0 <= y < mapHeight
  }

  /** `closestDistToEdge`: the distance to the nearest of the four edges of the rectangle. */
  function EdgeDistance(area: PlateauArea, x: int, y: int): (d: int)
    ensures area.xMin <= x < area.xMax && area.yMin <= y < area.yMax ==> d >= 0
  {
    MinInt(MinInt(x - area.xMin, area.xMax - 1 - x), MinInt(y - area.yMin, area.yMax - 1 - y))
  }

  function BlendFactor(area: PlateauArea, x: int, y: int): real
    requires area.falloff != 0
  {
    Clamp01(EdgeDistance(area, x, y) as real / area.falloff as real)
  }

  /** The new height of a written cell whose height before the area was `prior`. */
  function Blend(area: PlateauArea, x: int, y: int, prior: real): real
    requires area.falloff != 0
  {
    Lerp(area.height, prior, BlendFactor(area, x, y))
  }

  /**
    A cell on an edge of the rectangle takes the plateau's height, a cell at
    least `falloff` from every edge keeps its height, and every blended height
    lies between the target and the prior height.
   */
  lemma BlendProperties(area: PlateauArea, x: int, y: int, prior: real)
    requires area.falloff != 0
    ensures EdgeDistance(area, x, y) == 0 ==> Blend(area, x, y, prior) == area.height
    ensures area.falloff > 0 && EdgeDistance(area, x, y) >= area.falloff ==> Blend(area, x, y, prior) == prior
    ensures area.height <= prior ==> area.height <= Blend(area, x, y, prior) <= prior
    ensures prior <= area.height ==> prior <= Blend(area, x, y, prior) <= area.height
  {
    LerpBetween(area.height, prior, BlendFactor(area, x, y));
    if area.falloff > 0 && EdgeDistance(area, x, y) >= area.falloff {
      assert EdgeDistance(area, x, y) as real / area.falloff as real >= 1.0;
    }
  }

  predicate FalloffsNonzero(areas: seq<PlateauArea>)
  {
    forall k :: 0 <= k < |areas| ==> areas[k].falloff != 0
  }

  /** The height of cell `(x, y)` after the areas in order, starting from `h0`. */
  function Plateaued(areas: seq<PlateauArea>, mapWidth: int, mapHeight: int, x: int, y: int, h0: real): real
    requires FalloffsNonzero(areas)
  {
    if |areas| == 0 then h0
    else
      var prior := Plateaued(areas[..|areas| - 1], mapWidth, mapHeight, x, y, h0);
      var area := areas[|areas| - 1];
      if Affects(area, mapWidth, mapHeight, x, y) then Blend(area, x, y, prior) else prior
  }

  /** A cell that no area's rectangle covers keeps its initial height. */
  lemma {:induction false} PlateauedUncovered(areas: seq<PlateauArea>, mapWidth: int, mapHeight: int,
                                              x: int, y: int, h0: real)
    requires FalloffsNonzero(areas)
    requires forall k :: 0 <= k < |areas| ==> !Affects(areas[k], mapWidth, mapHeight, x, y)
    ensures Plateaued(areas, mapWidth, mapHeight, x, y, h0) == h0
  {
    if |areas| > 0 {
      PlateauedUncovered(areas[..|areas| - 1], mapWidth, mapHeight, x, y, h0);
    }
  }

  /**
    When all areas share the height `t`, every cell ends between its initial
    height and `t`, whatever the order and overlap of the areas.
   */
  lemma {:induction false} PlateauedBetween(areas: seq<PlateauArea>, mapWidth: int, mapHeight: int,
                                            x: int, y: int, h0: real, t: real)
    requires FalloffsNonzero(areas)
    requires forall k :: 0 <= k < |areas| ==> areas[k].height == t
    ensures t <= h0 ==> t <= Plateaued(areas, mapWidth, mapHeight, x, y, h0) <= h0
    ensures h0 <= t ==> h0 <= Plateaued(areas, mapWidth, mapHeight, x, y, h0) <= t
  {
    if |areas| > 0 {
      var front := areas[..|areas| - 1];
      PlateauedBetween(front, mapWidth, mapHeight, x, y, h0, t);
      BlendProperties(areas[|areas| - 1], x, y, Plateaued(front, mapWidth, mapHeight, x, y, h0));
    }
  }

  /** The inner `x` loop of one area for row `y`. */
  method BlendRow(heightMap: array2<real>, area: PlateauArea, y: int)
    requires area.falloff != 0 && area.yMin <= y < area.yMax
    modifies heightMap
    ensures forall i, j :: 0 <= i < heightMap.Length0 && 0 <= j < heightMap.Length1 ==>
              heightMap[i, j] == if j == y && Affects(area, heightMap.Length0, heightMap.Length1, i, j)
                                 then Blend(area, i, j, old(heightMap[i, j])) else old(heightMap[i, j])
  {
    var mapWidth, mapHeight := heightMap.Length0, heightMap.Length1;
    var x := area.xMin;
    while x < area.xMax
      invariant area.xMin <= x || area.xMax <= area.xMin
      invariant forall i, j :: 0 <= i < mapWidth && 0 <= j < mapHeight ==>
                  heightMap[i, j] == if j == y && i < x && Affects(area, mapWidth, mapHeight, i, j)
                                     then Blend(area, i, j, old(heightMap[i, j])) else old(heightMap[i, j])
      decreases area.xMax - x
    {
      if x >= 0 && x < mapWidth && y >= 0 && y < mapHeight {
        var distToEdgeX := MinInt(x - area.xMin, area.xMax - 1 - x);
        var distToEdgeY := MinInt(y - area.yMin, area.yMax - 1 - y);
        var closestDistToEdge := MinInt(distToEdgeX, distToEdgeY);
        var blendFactor := Clamp01(closestDistToEdge as real / area.falloff as real);
        var originalHeight := heightMap[x, y];
        heightMap[x, y] := Lerp(area.height, originalHeight, blendFactor);
      }
      x := x + 1;
    }
  }

  /** The loops of one area: every cell inside the rectangle and the map is blended once. */
  method ApplyPlateau(heightMap: array2<real>, area: PlateauArea)
    requires area.falloff != 0
    modifies heightMap
    ensures forall i, j :: 0 <= i < heightMap.Length0 && 0 <= j < heightMap.Length1 ==>
              heightMap[i, j] == if Affects(area, heightMap.Length0, heightMap.Length1, i, j)
                                 then Blend(area, i, j, old(heightMap[i, j])) else old(heightMap[i, j])
  {
    var mapWidth, mapHeight := heightMap.Length0, heightMap.Length1;
    var y := area.yMin;
    while y < area.yMax
      invariant area.yMin <= y || area.yMax <= area.yMin
      invariant forall i, j :: 0 <= i < mapWidth && 0 <= j < mapHeight ==>
                  heightMap[i, j] == if j < y && Affects(area, mapWidth, mapHeight, i, j)
                                     then Blend(area, i, j, old(heightMap[i, j])) else old(heightMap[i, j])
      decreases area.yMax - y
    {
      BlendRow(heightMap, area, y);
      y := y + 1;
    }
  }

  /**
    The `foreach` over `plateauAreas`: the areas are applied in list order,
    each reading the heights the earlier ones left.
   */
  method ApplyPlateaus(heightMap: array2<real>, plateauAreas: seq<PlateauArea>)
    requires FalloffsNonzero(plateauAreas)
    modifies heightMap
    ensures forall i, j :: 0 <= i < heightMap.Length0 && 0 <= j < heightMap.Length1 ==>
              heightMap[i, j] == Plateaued(plateauAreas, heightMap.Length0, heightMap.Length1, i, j, old(heightMap[i, j]))
  {
    var mapWidth, mapHeight := heightMap.Length0, heightMap.Length1;
    for k := 0 to |plateauAreas|
      invariant forall i, j :: 0 <= i < mapWidth && 0 <= j < mapHeight ==>
                  heightMap[i, j] == Plateaued(plateauAreas[..k], mapWidth, mapHeight, i, j, old(heightMap[i, j]))
    {
      assert plateauAreas[..k + 1][..k] == plateauAreas[..k];
      ApplyPlateau(heightMap, plateauAreas[k]);
    }
    assert plateauAreas[..|plateauAreas|] == plateauAreas;
  }

  // ---------------------------------------------------------------------------
  // Road brush (`GenerateMap`, second loop)
  // ---------------------------------------------------------------------------

  datatype RoadBrush = RoadBrush(roadWidth: int, roadShoulderFalloff: real)

  /** `drawRadius = roadWidth + (int)roadShoulderFalloff + 1`. */
  function DrawRadius(b: RoadBrush): int
  {
    b.roadWidth + TruncToInt(b.roadShoulderFalloff) + 1
  }

  /** The offsets the two brush loops visit. */
  predicate InSquare(b: RoadBrush, dx: int, dy: int)
  {
    -DrawRadius(b) <= dx <= DrawRadius(b) && -DrawRadius(b) <= dy <= DrawRadius(b)
  }

  function CentreDistance(sqrt: real -> real, dx: int, dy: int): real
  {
    sqrt((dx * dx + dy * dy) as real)
  }

  /** The road core: within `roadWidth` of the path point. */
  predicate InCore(sqrt: real -> real, b: RoadBrush, dx: int, dy: int)
  {
    CentreDistance(sqrt, dx, dy) <= b.roadWidth as real
  }

  /** The shoulder: outside the core, within `roadWidth + roadShoulderFalloff`. */
  predicate InShoulder(sqrt: real -> real, b: RoadBrush, dx: int, dy: int)
  {
    !InCore(sqrt, b, dx, dy) && CentreDistance(sqrt, dx, dy) <= b.roadWidth as real + b.roadShoulderFalloff
  }

  /** The shoulder's blend factor; the shoulder is empty unless the falloff is positive. */
  function ShoulderBlend(sqrt: real -> real, b: RoadBrush, dx: int, dy: int): (t: real)
    requires InShoulder(sqrt, b, dx, dy)
    ensures 0.0 < t <= 1.0
  {
    (CentreDistance(sqrt, dx, dy) - b.roadWidth as real) / b.roadShoulderFalloff
  }

  /** The height of the cell at offset `(dx, dy)` after the brush, from its own and the path point's height. */
  function BrushedHeight(sqrt: real -> real, b: RoadBrush, dx: int, dy: int, prior: real, roadHeight: real): real
  {
    if InCore(sqrt, b, dx, dy) then roadHeight
    else if InShoulder(sqrt, b, dx, dy) then Lerp(roadHeight, prior, ShoulderBlend(sqrt, b, dx, dy))
    else prior
  }

  /** The road colour of the cell at offset `(dx, dy)` after the brush. */
  function BrushedColour(sqrt: real -> real, b: RoadBrush, dx: int, dy: int, prior: real): real
  {
    if InCore(sqrt, b, dx, dy) then 1.0
    else if InShoulder(sqrt, b, dx, dy) && prior < 1.0 - ShoulderBlend(sqrt, b, dx, dy)
    then Lerp(1.0, 0.0, ShoulderBlend(sqrt, b, dx, dy))
    else prior
  }

  /** A colour in [0, 1] never gets darker and stays in [0, 1]; core cells become white. */
  lemma BrushedColourBrighter(sqrt: real -> real, b: RoadBrush, dx: int, dy: int, prior: real)
    requires 0.0 <= prior <= 1.0
    ensures prior <= BrushedColour(sqrt, b, dx, dy, prior) <= 1.0
    ensures InCore(sqrt, b, dx, dy) ==> BrushedColour(sqrt, b, dx, dy, prior) == 1.0
  {
  }

  /** The path point itself keeps its height under its own brush. */
  lemma BrushedHeightFixesCentre(sqrt: real -> real, b: RoadBrush, h: real)
    ensures BrushedHeight(sqrt, b, 0, 0, h, h) == h
  {
  }

  /** Every brushed height lies between the cell's prior height and the road height. */
  lemma BrushedHeightBetween(sqrt: real -> real, b: RoadBrush, dx: int, dy: int, prior: real, roadHeight: real)
    ensures roadHeight <= prior ==> roadHeight <= BrushedHeight(sqrt, b, dx, dy, prior, roadHeight) <= prior
    ensures prior <= roadHeight ==> prior <= BrushedHeight(sqrt, b, dx, dy, prior, roadHeight) <= roadHeight
  {
    if !InCore(sqrt, b, dx, dy) && InShoulder(sqrt, b, dx, dy) {
      LerpBetween(roadHeight, prior, ShoulderBlend(sqrt, b, dx, dy));
    }
  }

  /** With a square root supplied, the core test is the squared comparison `dx^2 + dy^2 <= roadWidth^2`. */
  lemma InCoreSquared(sqrt: real -> real, b: RoadBrush, dx: int, dy: int)
    requires IsSqrt(sqrt)
    ensures InCore(sqrt, b, dx, dy) <==>
              b.roadWidth >= 0 && (dx * dx + dy * dy) as real <= (b.roadWidth * b.roadWidth) as real
  {
    SqrtAtMost(sqrt, (dx * dx + dy * dy) as real, b.roadWidth as real);
  }

  /**
    With a non-negative falloff the square of side `2 * drawRadius + 1` holds
    the whole core and shoulder, so the brush is never clipped by its own loops.
   */
  lemma BrushCoversShoulder(sqrt: real -> real, b: RoadBrush, dx: int, dy: int)
    requires IsSqrt(sqrt) && b.roadShoulderFalloff >= 0.0
    requires InCore(sqrt, b, dx, dy) || InShoulder(sqrt, b, dx, dy)
    ensures InSquare(b, dx, dy)
  {
    var r := b.roadWidth as real + b.roadShoulderFalloff;
    var q := (dx * dx + dy * dy) as real;
    SqrtAtMost(sqrt, q, r);
    assert q <= r * r;
    OffsetWithin(dx, dy, r);
    OffsetWithin(dy, dx, r);
    assert b.roadShoulderFalloff < TruncToInt(b.roadShoulderFalloff) as real + 1.0;
  }

  lemma OffsetWithin(dx: int, dy: int, r: real)
    requires r >= 0.0 && (dx * dx + dy * dy) as real <= r * r
    ensures AbsInt(dx) as real <= r
  {
    var a := AbsInt(dx) as real;
    assert a * a == (dx * dx) as real;
    assert (dy * dy) as real >= 0.0;
    if a > r {
      SquareMonotone(r, a);
    }
  }

  /** Map cell `(i, j)` lies in the core of the brush stamped at path point `p`. */
  predicate OnCore(sqrt: real -> real, b: RoadBrush, p: Int2, i: int, j: int)
  {
    InSquare(b, i - p.x, j - p.y) && InCore(sqrt, b, i - p.x, j - p.y)
  }

  /** Map cell `(i, j)` lies in the square the brush visits around path point `p`. */
  predicate Covered(b: RoadBrush, p: Int2, i: int, j: int)
  {
    InSquare(b, i - p.x, j - p.y)
  }

  /** The flat colour index of a map cell lies inside the buffer. */
  lemma ColourIndexInRange(x: int, y: int, mapWidth: int, mapHeight: int)
    requires 0 <= x < mapWidth && 0 <= y < mapHeight
    ensures 0 <= y * mapWidth + x < mapWidth * mapHeight
  {
    var d := mapHeight - 1 - y;
    assert mapWidth * mapHeight == y * mapWidth + mapWidth + d * mapWidth;
    assert d * mapWidth >= 0;
    assert y * mapWidth >= 0;
  }

  /** The map cell of flat colour index `k`: the buffer holds the map row by row, `mapWidth` cells to a row. */
  function CellAt(mapWidth: int, k: int): Int2
    requires mapWidth > 0
  {
    Int2(k % mapWidth, k / mapWidth)
  }

  /** Index `y * mapWidth + x` is the index of cell `(x, y)`. */
  lemma IndexCell(mapWidth: int, x: int, y: int)
    requires 0 <= x < mapWidth
    ensures CellAt(mapWidth, y * mapWidth + x) == Int2(x, y)
  {
    var k := y * mapWidth + x;
    var q, r := k / mapWidth, k % mapWidth;
    assert (y - q) * mapWidth == r - x;
    SmallMultiple(y - q, mapWidth);
  }

  /** The only multiple of a positive `w` strictly between `-w` and `w` is 0. */
  lemma SmallMultiple(d: int, w: int)
    requires w > 0 && -w < d * w < w
    ensures d == 0
  {
  }

  /** Every index of a `mapWidth * mapHeight` buffer is the index of one map cell. */
  lemma CellInMap(mapWidth: int, mapHeight: int, k: int)
    requires 0 <= k < mapWidth * mapHeight && mapWidth > 0
    ensures 0 <= CellAt(mapWidth, k).x < mapWidth && 0 <= CellAt(mapWidth, k).y < mapHeight
    ensures k == CellAt(mapWidth, k).y * mapWidth + CellAt(mapWidth, k).x
  {
    var q := k / mapWidth;
    if q >= mapHeight {
      assert q * mapWidth >= mapHeight * mapWidth;
    }
  }

  /**
    The road colour of cell `c` once every point of `path` has stamped the
    brush, in path order, over the black buffer.
   */
  function RoadColour(sqrt: real -> real, b: RoadBrush, path: seq<Int2>, c: Int2): real
    decreases |path|
  {
    if path == [] then 0.0
    else
      var p := path[|path| - 1];
      var prior := RoadColour(sqrt, b, path[..|path| - 1], c);
      if Covered(b, p, c.x, c.y) then BrushedColour(sqrt, b, c.x - p.x, c.y - p.y, prior) else prior
  }

  /** The value of grid `g` at cell `c`, indexed `[x][y]` like the height map; 0 off the grid. */
  function At(g: seq<seq<real>>, c: Int2): real
  {
    if 0 <= c.x < |g| && 0 <= c.y < |g[c.x]| then g[c.x][c.y] else 0.0
  }

  /**
    The height of cell `c` once every point of `path` has stamped the brush,
    in path order, over the heights `g`: each point flattens towards its own
    height as the earlier points left it.
   */
  function RoadHeight(sqrt: real -> real, b: RoadBrush, g: seq<seq<real>>, path: seq<Int2>, c: Int2): real
    decreases |path|
  {
    if path == [] then At(g, c)
    else
      var p := path[|path| - 1];
      var prior := RoadHeight(sqrt, b, g, path[..|path| - 1], c);
      if Covered(b, p, c.x, c.y)
      then BrushedHeight(sqrt, b, c.x - p.x, c.y - p.y, prior, RoadHeight(sqrt, b, g, path[..|path| - 1], p))
      else prior
  }

  /** The heights of the map as a grid value, indexed `[x][y]`. */
  ghost function Grid(heightMap: array2<real>): (g: seq<seq<real>>)
    reads heightMap
    ensures |g| == heightMap.Length0
    ensures forall i :: 0 <= i < |g| ==> |g[i]| == heightMap.Length1
    ensures forall i, j :: InMap(heightMap, i, j) ==> At(g, Int2(i, j)) == heightMap[i, j]
  {
    seq(heightMap.Length0, i reads heightMap requires 0 <= i < heightMap.Length0 =>
      seq(heightMap.Length1, j reads heightMap requires 0 <= j < heightMap.Length1 => heightMap[i, j]))
  }

  /** The road colours stay in `[0, 1]` and never darken as the path goes on. */
  lemma {:induction false} RoadColourBrighter(sqrt: real -> real, b: RoadBrush, path: seq<Int2>, n: nat, c: Int2)
    requires n <= |path|
    ensures 0.0 <= RoadColour(sqrt, b, path[..n], c) <= RoadColour(sqrt, b, path, c) <= 1.0
    decreases |path|
  {
    assert path[..|path|] == path;
    if n < |path| {
      var prefix := path[..|path| - 1];
      assert prefix[..n] == path[..n];
      RoadColourBrighter(sqrt, b, prefix, n, c);
      BrushedColourBrighter(sqrt, b, c.x - path[|path| - 1].x, c.y - path[|path| - 1].y, RoadColour(sqrt, b, prefix, c));
    } else if path != [] {
      RoadColourBrighter(sqrt, b, path[..|path| - 1], 0, c);
      assert path[..|path| - 1][..0] == path[..0];
      BrushedColourBrighter(sqrt, b, c.x - path[|path| - 1].x, c.y - path[|path| - 1].y, RoadColour(sqrt, b, path[..|path| - 1], c));
    }
  }

  /** A cell on the core of any path point ends white. */
  lemma RoadColourCore(sqrt: real -> real, b: RoadBrush, path: seq<Int2>, k: int, c: Int2)
    requires 0 <= k < |path| && OnCore(sqrt, b, path[k], c.x, c.y)
    ensures RoadColour(sqrt, b, path, c) == 1.0
  {
    var prefix := path[..k + 1];
    assert prefix[..k] == path[..k] && prefix[k] == path[k];
    RoadColourBrighter(sqrt, b, path[..k], 0, c);
    assert path[..k][..0] == path[..0];
    assert RoadColour(sqrt, b, prefix, c) == 1.0;
    RoadColourBrighter(sqrt, b, path, k + 1, c);
  }

  /** A cell outside the square of every path point keeps its height. */
  lemma {:induction false} RoadHeightUncovered(sqrt: real -> real, b: RoadBrush, g: seq<seq<real>>, path: seq<Int2>, c: Int2)
    requires forall k :: 0 <= k < |path| ==> !Covered(b, path[k], c.x, c.y)
    ensures RoadHeight(sqrt, b, g, path, c) == At(g, c)
    decreases |path|
  {
    if path != [] {
      var prefix := path[..|path| - 1];
      assert forall k :: 0 <= k < |prefix| ==> prefix[k] == path[k];
      RoadHeightUncovered(sqrt, b, g, prefix, c);
    }
  }

  predicate InMap(heightMap: array2<real>, x: int, y: int)
  {
    0 <= x < heightMap.Length0 && 0 <= y < heightMap.Length1
  }

  ghost predicate UnitColours(colours: array<real>)
    reads colours
  {
    forall k :: 0 <= k < colours.Length ==> 0.0 <= colours[k] <= 1.0
  }

  /** The colour of map cell `(x, y)` in the flat buffer is white. */
  predicate WhiteAt(colours: seq<real>, mapWidth: int, x: int, y: int)
  {
    0 <= y * mapWidth + x < |colours| && colours[y * mapWidth + x] == 1.0
  }

  /**
    Buffer `after` is `before` with the brush stamped at path point `p` over
    the offsets `x0 <= dx < x1`, `y0 <= dy < y1`: every index whose map cell
    lies at such an offset from `p` holds its brushed colour, and every other
    index keeps its colour.
   */
  ghost predicate ColoursBrushed(after: seq<real>, before: seq<real>, mapWidth: int, sqrt: real -> real, b: RoadBrush,
                                 p: Int2, x0: int, x1: int, y0: int, y1: int)
    requires mapWidth > 0
  {
    && |after| == |before|
    && forall k :: 0 <= k < |after| ==>
         after[k] == if x0 <= CellAt(mapWidth, k).x - p.x < x1 && y0 <= CellAt(mapWidth, k).y - p.y < y1
                     then BrushedColour(sqrt, b, CellAt(mapWidth, k).x - p.x, CellAt(mapWidth, k).y - p.y, before[k])
                     else before[k]
  }

  /** Brushing offsets `y0 .. y1`, then `y1 .. y2`, of the same columns brushes `y0 .. y2`. */
  lemma BrushedBelow(a: seq<real>, m: seq<real>, c: seq<real>, mapWidth: int, sqrt: real -> real, b: RoadBrush,
                     p: Int2, x0: int, x1: int, y0: int, y1: int, y2: int)
    requires mapWidth > 0 && y0 <= y1 <= y2
    requires ColoursBrushed(m, a, mapWidth, sqrt, b, p, x0, x1, y0, y1)
    requires ColoursBrushed(c, m, mapWidth, sqrt, b, p, x0, x1, y1, y2)
    ensures ColoursBrushed(c, a, mapWidth, sqrt, b, p, x0, x1, y0, y2)
  {
  }

  /** Brushing columns `x0 .. x1`, then `x1 .. x2`, of the same rows brushes `x0 .. x2`. */
  lemma BrushedBeside(a: seq<real>, m: seq<real>, c: seq<real>, mapWidth: int, sqrt: real -> real, b: RoadBrush,
                      p: Int2, x0: int, x1: int, x2: int, y0: int, y1: int)
    requires mapWidth > 0 && x0 <= x1 <= x2
    requires ColoursBrushed(m, a, mapWidth, sqrt, b, p, x0, x1, y0, y1)
    requires ColoursBrushed(c, m, mapWidth, sqrt, b, p, x1, x2, y0, y1)
    ensures ColoursBrushed(c, a, mapWidth, sqrt, b, p, x0, x2, y0, y1)
  {
  }

  /**
    A brushed buffer that was in `[0, 1]` only got brighter, stays in `[0, 1]`,
    and is white on every map cell of the brushed offsets that lies in the core.
   */
  lemma BrushedBrighter(after: seq<real>, before: seq<real>, mapWidth: int, mapHeight: int, sqrt: real -> real, b: RoadBrush,
                        p: Int2, x0: int, x1: int, y0: int, y1: int)
    requires mapWidth > 0 && |before| == mapWidth * mapHeight
    requires ColoursBrushed(after, before, mapWidth, sqrt, b, p, x0, x1, y0, y1)
    requires forall k :: 0 <= k < |before| ==> 0.0 <= before[k] <= 1.0
    ensures forall k :: 0 <= k < |after| ==> before[k] <= after[k] <= 1.0
    ensures forall i, j :: (0 <= i < mapWidth && 0 <= j < mapHeight && x0 <= i - p.x < x1 && y0 <= j - p.y < y1
                            && InCore(sqrt, b, i - p.x, j - p.y)) ==> WhiteAt(after, mapWidth, i, j)
  {
    forall k | 0 <= k < |after|
      ensures before[k] <= after[k] <= 1.0
    {
      BrushedColourBrighter(sqrt, b, CellAt(mapWidth, k).x - p.x, CellAt(mapWidth, k).y - p.y, before[k]);
    }
    forall i, j | 0 <= i < mapWidth && 0 <= j < mapHeight && x0 <= i - p.x < x1 && y0 <= j - p.y < y1
                  && InCore(sqrt, b, i - p.x, j - p.y)
      ensures WhiteAt(after, mapWidth, i, j)
    {
      ColourIndexInRange(i, j, mapWidth, mapHeight);
      IndexCell(mapWidth, i, j);
      BrushedColourBrighter(sqrt, b, i - p.x, j - p.y, before[j * mapWidth + i]);
    }
  }

  /** One iteration of the brush loops: the cell `p + (dx, dy)`, when it lies in the map. */
  method StampCell(heightMap: array2<real>, colours: array<real>, sqrt: real -> real, b: RoadBrush,
                   p: Int2, dx: int, dy: int)
    requires colours.Length == heightMap.Length0 * heightMap.Length1
    requires InMap(heightMap, p.x, p.y) && UnitColours(colours)
    modifies heightMap, colours
    ensures UnitColours(colours)
    ensures forall k :: 0 <= k < colours.Length ==> old(colours[k]) <= colours[k]
    ensures forall i, j :: InMap(heightMap, i, j) ==>
              heightMap[i, j] == if i == p.x + dx && j == p.y + dy
                                 then BrushedHeight(sqrt, b, dx, dy, old(heightMap[i, j]), old(heightMap[p.x, p.y]))
                                 else old(heightMap[i, j])
    ensures ColoursBrushed(colours[..], old(colours[..]), heightMap.Length0, sqrt, b, p, dx, dx + 1, dy, dy + 1)
    ensures InMap(heightMap, p.x + dx, p.y + dy) && InCore(sqrt, b, dx, dy) ==>
              WhiteAt(colours[..], heightMap.Length0, p.x + dx, p.y + dy)
  {
    var mapWidth, mapHeight := heightMap.Length0, heightMap.Length1;
    ghost var before := colours[..];
    var distanceToCenter := CentreDistance(sqrt, dx, dy);
    var currentX := p.x + dx;
    var currentY := p.y + dy;
    if currentX >= 0 && currentX < mapWidth && currentY >= 0 && currentY < mapHeight {
      ColourIndexInRange(currentX, currentY, mapWidth, mapHeight);
      var index := currentY * mapWidth + currentX;
      BrushedColourBrighter(sqrt, b, dx, dy, colours[index]);
      if distanceToCenter <= b.roadWidth as real {
        heightMap[currentX, currentY] := heightMap[p.x, p.y];
        colours[index] := 1.0;
      } else if distanceToCenter <= b.roadWidth as real + b.roadShoulderFalloff {
        var blendFactor := (distanceToCenter - b.roadWidth as real) / b.roadShoulderFalloff;
        var roadHeight := heightMap[p.x, p.y];
        var originalHeight := heightMap[currentX, currentY];
        heightMap[currentX, currentY] := Lerp(roadHeight, originalHeight, blendFactor);
        if colours[index] < 1.0 - blendFactor {
          colours[index] := Lerp(1.0, 0.0, blendFactor);
        }
      }
      assert colours[..] == before[index := BrushedColour(sqrt, b, dx, dy, before[index])];
    }
    CellBrushed(colours[..], before, mapWidth, mapHeight, sqrt, b, p, dx, dy);
  }

  /** Brushing offset `(dx, dy)` changes the index of that cell when it lies in the map, and nothing else. */
  lemma CellBrushed(after: seq<real>, before: seq<real>, mapWidth: int, mapHeight: int, sqrt: real -> real, b: RoadBrush,
                    p: Int2, dx: int, dy: int)
    requires mapWidth > 0 && |before| == mapWidth * mapHeight
    requires 0 <= p.x + dx < mapWidth && 0 <= p.y + dy < mapHeight ==>
               && 0 <= (p.y + dy) * mapWidth + p.x + dx < |before|
               && after == before[(p.y + dy) * mapWidth + p.x + dx :=
                                   BrushedColour(sqrt, b, dx, dy, before[(p.y + dy) * mapWidth + p.x + dx])]
    requires !(0 <= p.x + dx < mapWidth && 0 <= p.y + dy < mapHeight) ==> after == before
    ensures ColoursBrushed(after, before, mapWidth, sqrt, b, p, dx, dx + 1, dy, dy + 1)
  {
    forall k | 0 <= k < |before|
      ensures k == CellAt(mapWidth, k).y * mapWidth + CellAt(mapWidth, k).x
      ensures 0 <= CellAt(mapWidth, k).x < mapWidth && 0 <= CellAt(mapWidth, k).y < mapHeight
    {
      CellInMap(mapWidth, mapHeight, k);
    }
    if 0 <= p.x + dx < mapWidth && 0 <= p.y + dy < mapHeight {
      IndexCell(mapWidth, p.x + dx, p.y + dy);
    }
  }

  /** The inner `y` loop of the brush for column offset `dx`. */
  method StampColumn(heightMap: array2<real>, colours: array<real>, sqrt: real -> real, b: RoadBrush,
                     p: Int2, dx: int)
    requires colours.Length == heightMap.Length0 * heightMap.Length1
    requires InMap(heightMap, p.x, p.y) && UnitColours(colours)
    modifies heightMap, colours
    ensures UnitColours(colours)
    ensures forall k :: 0 <= k < colours.Length ==> old(colours[k]) <= colours[k]
    ensures heightMap[p.x, p.y] == old(heightMap[p.x, p.y])
    ensures forall i, j :: InMap(heightMap, i, j) ==>
              heightMap[i, j] == if i == p.x + dx && -DrawRadius(b) <= j - p.y <= DrawRadius(b)
                                 then BrushedHeight(sqrt, b, dx, j - p.y, old(heightMap[i, j]), old(heightMap[p.x, p.y]))
                                 else old(heightMap[i, j])
    ensures ColoursBrushed(colours[..], old(colours[..]), heightMap.Length0, sqrt, b, p, dx, dx + 1, -DrawRadius(b), DrawRadius(b) + 1)
    ensures forall i, j :: (InMap(heightMap, i, j) && i == p.x + dx && -DrawRadius(b) <= j - p.y <= DrawRadius(b)
                            && InCore(sqrt, b, dx, j - p.y)) ==> WhiteAt(colours[..], heightMap.Length0, i, j)
  {
    var mapWidth := heightMap.Length0;
    var drawRadius := DrawRadius(b);
    var dy := -drawRadius;
    while dy <= drawRadius
      invariant dy == -drawRadius || -drawRadius < dy <= drawRadius + 1
      invariant UnitColours(colours)
      invariant heightMap[p.x, p.y] == old(heightMap[p.x, p.y])
      invariant forall i, j :: InMap(heightMap, i, j) ==>
                  heightMap[i, j] == if i == p.x + dx && -drawRadius <= j - p.y < dy
                                     then BrushedHeight(sqrt, b, dx, j - p.y, old(heightMap[i, j]), old(heightMap[p.x, p.y]))
                                     else old(heightMap[i, j])
      invariant ColoursBrushed(colours[..], old(colours[..]), mapWidth, sqrt, b, p, dx, dx + 1, -drawRadius, dy)
      decreases drawRadius - dy
    {
      BrushedHeightFixesCentre(sqrt, b, heightMap[p.x, p.y]);
      ghost var before := colours[..];
      StampCell(heightMap, colours, sqrt, b, p, dx, dy);
      BrushedBelow(old(colours[..]), before, colours[..], mapWidth, sqrt, b, p, dx, dx + 1, -drawRadius, dy, dy + 1);
      dy := dy + 1;
    }
    BrushedBrighter(colours[..], old(colours[..]), mapWidth, heightMap.Length1, sqrt, b, p, dx, dx + 1, -drawRadius, drawRadius + 1);
  }

  /** All the brush iterations around one path point: the whole square of offsets within `DrawRadius`. */
  method StampPoint(heightMap: array2<real>, colours: array<real>, sqrt: real -> real, b: RoadBrush, p: Int2)
    requires colours.Length == heightMap.Length0 * heightMap.Length1
    requires InMap(heightMap, p.x, p.y) && UnitColours(colours)
    modifies heightMap, colours
    ensures UnitColours(colours)
    ensures forall k :: 0 <= k < colours.Length ==> old(colours[k]) <= colours[k]
    ensures forall i, j :: InMap(heightMap, i, j) ==>
              heightMap[i, j] == if InSquare(b, i - p.x, j - p.y)
                                 then BrushedHeight(sqrt, b, i - p.x, j - p.y, old(heightMap[i, j]), old(heightMap[p.x, p.y]))
                                 else old(heightMap[i, j])
    ensures ColoursBrushed(colours[..], old(colours[..]), heightMap.Length0, sqrt, b, p,
                           -DrawRadius(b), DrawRadius(b) + 1, -DrawRadius(b), DrawRadius(b) + 1)
    ensures forall i, j :: InMap(heightMap, i, j) && OnCore(sqrt, b, p, i, j) ==> WhiteAt(colours[..], heightMap.Length0, i, j)
  {
    var mapWidth := heightMap.Length0;
    var drawRadius := DrawRadius(b);
    var dx := -drawRadius;
    while dx <= drawRadius
      invariant dx == -drawRadius || -drawRadius < dx <= drawRadius + 1
      invariant UnitColours(colours)
      invariant heightMap[p.x, p.y] == old(heightMap[p.x, p.y])
      invariant forall i, j :: InMap(heightMap, i, j) ==>
                  heightMap[i, j] == if -drawRadius <= i - p.x < dx && -drawRadius <= j - p.y <= drawRadius
                                     then BrushedHeight(sqrt, b, i - p.x, j - p.y, old(heightMap[i, j]), old(heightMap[p.x, p.y]))
                                     else old(heightMap[i, j])
      invariant ColoursBrushed(colours[..], old(colours[..]), mapWidth, sqrt, b, p, -drawRadius, dx, -drawRadius, drawRadius + 1)
      decreases drawRadius - dx
    {
      ghost var before := colours[..];
      StampColumn(heightMap, colours, sqrt, b, p, dx);
      BrushedBeside(old(colours[..]), before, colours[..], mapWidth, sqrt, b, p, -drawRadius, dx, dx + 1, -drawRadius, drawRadius + 1);
      dx := dx + 1;
    }
    PointBrighter(colours[..], old(colours[..]), mapWidth, heightMap.Length1, sqrt, b, p);
  }

  /** `BrushedBrighter` for the whole square of one path point. */
  lemma PointBrighter(after: seq<real>, before: seq<real>, mapWidth: int, mapHeight: int, sqrt: real -> real, b: RoadBrush, p: Int2)
    requires mapWidth > 0 && |before| == mapWidth * mapHeight
    requires ColoursBrushed(after, before, mapWidth, sqrt, b, p, -DrawRadius(b), DrawRadius(b) + 1, -DrawRadius(b), DrawRadius(b) + 1)
    requires forall k :: 0 <= k < |before| ==> 0.0 <= before[k] <= 1.0
    ensures forall k :: 0 <= k < |after| ==> before[k] <= after[k] <= 1.0
    ensures forall i, j :: 0 <= i < mapWidth && 0 <= j < mapHeight && OnCore(sqrt, b, p, i, j) ==> WhiteAt(after, mapWidth, i, j)
  {
    BrushedBrighter(after, before, mapWidth, mapHeight, sqrt, b, p, -DrawRadius(b), DrawRadius(b) + 1, -DrawRadius(b), DrawRadius(b) + 1);
  }

  /**
    The road pass of `GenerateMap`: the colour buffer starts black and every
    path point stamps the brush in path order, so the buffer ends at
    `RoadColour` and the heights at `RoadHeight` of the heights before the
    pass. Path points must lie in the map, as they index the height map
    directly.
   */
  method PaintRoad(heightMap: array2<real>, sqrt: real -> real, b: RoadBrush, roadPath: seq<Int2>)
    returns (roadMapColors: array<real>)
    requires forall k :: 0 <= k < |roadPath| ==> InMap(heightMap, roadPath[k].x, roadPath[k].y)
    modifies heightMap
    ensures fresh(roadMapColors) && roadMapColors.Length == heightMap.Length0 * heightMap.Length1
    ensures forall k :: 0 <= k < roadMapColors.Length ==>
              roadMapColors[k] == RoadColour(sqrt, b, roadPath, CellAt(heightMap.Length0, k))
    ensures forall i, j :: InMap(heightMap, i, j) ==>
              heightMap[i, j] == RoadHeight(sqrt, b, old(Grid(heightMap)), roadPath, Int2(i, j))
    ensures UnitColours(roadMapColors)
    ensures forall k, i, j :: 0 <= k < |roadPath| && InMap(heightMap, i, j) && OnCore(sqrt, b, roadPath[k], i, j)
              ==> WhiteAt(roadMapColors[..], heightMap.Length0, i, j)
    ensures forall i, j :: InMap(heightMap, i, j) && (forall k :: 0 <= k < |roadPath| ==> !Covered(b, roadPath[k], i, j))
              ==> heightMap[i, j] == old(heightMap[i, j])
  {
    ghost var g := Grid(heightMap);
    var mapWidth, mapHeight := heightMap.Length0, heightMap.Length1;
    roadMapColors := new real[mapWidth * mapHeight](_ => 0.0);
    for n := 0 to |roadPath|
      invariant UnitColours(roadMapColors)
      invariant forall k :: 0 <= k < roadMapColors.Length ==>
                  roadMapColors[k] == RoadColour(sqrt, b, roadPath[..n], CellAt(mapWidth, k))
      invariant forall i, j :: InMap(heightMap, i, j) ==>
                  heightMap[i, j] == RoadHeight(sqrt, b, g, roadPath[..n], Int2(i, j))
    {
      StampNext(heightMap, roadMapColors, sqrt, b, g, roadPath, n);
    }
    assert roadPath[..|roadPath|] == roadPath;
    RoadPainted(heightMap, roadMapColors, sqrt, b, g, roadPath);
  }

  /** Stamping path point `n` over the colours of the first `n` points gives the colours of the first `n + 1`. */
  lemma ColourStep(after: seq<real>, before: seq<real>, mapWidth: int, sqrt: real -> real, b: RoadBrush,
                   path: seq<Int2>, n: int)
    requires mapWidth > 0 && 0 <= n < |path|
    requires ColoursBrushed(after, before, mapWidth, sqrt, b, path[n],
                            -DrawRadius(b), DrawRadius(b) + 1, -DrawRadius(b), DrawRadius(b) + 1)
    requires forall k :: 0 <= k < |before| ==> before[k] == RoadColour(sqrt, b, path[..n], CellAt(mapWidth, k))
    ensures forall k :: 0 <= k < |after| ==> after[k] == RoadColour(sqrt, b, path[..n + 1], CellAt(mapWidth, k))
  {
    assert path[..n + 1][..n] == path[..n] && path[..n + 1][n] == path[n];
  }

  /** One iteration of the path loop: point `n` stamps over the colours and heights the first `n` points left. */
  method StampNext(heightMap: array2<real>, colours: array<real>, sqrt: real -> real, b: RoadBrush,
                   ghost g: seq<seq<real>>, roadPath: seq<Int2>, n: int)
    requires 0 <= n < |roadPath| && InMap(heightMap, roadPath[n].x, roadPath[n].y)
    requires colours.Length == heightMap.Length0 * heightMap.Length1 && UnitColours(colours)
    requires forall k :: 0 <= k < colours.Length ==> colours[k] == RoadColour(sqrt, b, roadPath[..n], CellAt(heightMap.Length0, k))
    requires forall i, j :: InMap(heightMap, i, j) ==> heightMap[i, j] == RoadHeight(sqrt, b, g, roadPath[..n], Int2(i, j))
    modifies heightMap, colours
    ensures UnitColours(colours)
    ensures forall k :: 0 <= k < colours.Length ==> colours[k] == RoadColour(sqrt, b, roadPath[..n + 1], CellAt(heightMap.Length0, k))
    ensures forall i, j :: InMap(heightMap, i, j) ==> heightMap[i, j] == RoadHeight(sqrt, b, g, roadPath[..n + 1], Int2(i, j))
  {
    var p := roadPath[n];
    ghost var before := colours[..];
    StampPoint(heightMap, colours, sqrt, b, p);
    ColourStep(colours[..], before, heightMap.Length0, sqrt, b, roadPath, n);
    assert roadPath[..n + 1][..n] == roadPath[..n] && roadPath[..n + 1][n] == p;
  }

  /** What the fold equations of `PaintRoad` give: colours in `[0, 1]`, white cores and untouched heights outside every square. */
  lemma RoadPainted(heightMap: array2<real>, colours: array<real>, sqrt: real -> real, b: RoadBrush,
                    g: seq<seq<real>>, roadPath: seq<Int2>)
    requires colours.Length == heightMap.Length0 * heightMap.Length1
    requires forall k :: 0 <= k < colours.Length ==> colours[k] == RoadColour(sqrt, b, roadPath, CellAt(heightMap.Length0, k))
    requires forall i, j :: InMap(heightMap, i, j) ==> heightMap[i, j] == RoadHeight(sqrt, b, g, roadPath, Int2(i, j))
    ensures UnitColours(colours)
    ensures forall k, i, j :: 0 <= k < |roadPath| && InMap(heightMap, i, j) && OnCore(sqrt, b, roadPath[k], i, j)
              ==> WhiteAt(colours[..], heightMap.Length0, i, j)
    ensures forall i, j :: InMap(heightMap, i, j) && (forall k :: 0 <= k < |roadPath| ==> !Covered(b, roadPath[k], i, j))
              ==> heightMap[i, j] == At(g, Int2(i, j))
  {
    var mapWidth := heightMap.Length0;
    forall k | 0 <= k < colours.Length
      ensures 0.0 <= colours[k] <= 1.0
    {
      RoadColourBrighter(sqrt, b, roadPath, 0, CellAt(mapWidth, k));
    }
    forall n, i, j | 0 <= n < |roadPath| && InMap(heightMap, i, j) && OnCore(sqrt, b, roadPath[n], i, j)
      ensures WhiteAt(colours[..], mapWidth, i, j)
    {
      ColourIndexInRange(i, j, mapWidth, heightMap.Length1);
      IndexCell(mapWidth, i, j);
      RoadColourCore(sqrt, b, roadPath, n, Int2(i, j));
    }
    forall i, j | InMap(heightMap, i, j) && (forall k :: 0 <= k < |roadPath| ==> !Covered(b, roadPath[k], i, j))
      ensures heightMap[i, j] == At(g, Int2(i, j))
    {
      RoadHeightUncovered(sqrt, b, g, roadPath, Int2(i, j));
    }
  }

  /**
    The gate around the road pass: a road map exists only when roads are
    enabled and the path search found a path, and it is then the road pass's
    buffer; otherwise the heights are left as they are.
   */
  method GenerateRoadMap(heightMap: array2<real>, sqrt: real -> real, b: RoadBrush, generateRoad: bool,
                         roadPath: Option<seq<Int2>>)
    returns (roadMap: Option<array<real>>)
    requires roadPath.Some? ==>
               forall k :: 0 <= k < |roadPath.value| ==> InMap(heightMap, roadPath.value[k].x, roadPath.value[k].y)
    modifies heightMap
    ensures roadMap.Some? <==> generateRoad && roadPath.Some?
    ensures roadMap.None? ==> forall i, j :: InMap(heightMap, i, j) ==> heightMap[i, j] == old(heightMap[i, j])
    ensures roadMap.Some? ==>
              && fresh(roadMap.value) && roadMap.value.Length == heightMap.Length0 * heightMap.Length1
              && UnitColours(roadMap.value)
              && (forall k :: 0 <= k < roadMap.value.Length ==>
                    roadMap.value[k] == RoadColour(sqrt, b, roadPath.value, CellAt(heightMap.Length0, k)))
              && (forall i, j :: InMap(heightMap, i, j) ==>
                    heightMap[i, j] == RoadHeight(sqrt, b, old(Grid(heightMap)), roadPath.value, Int2(i, j)))
  {
    roadMap := None;
    if generateRoad {
      if roadPath.Some? {
        var roadMapColors := PaintRoad(heightMap, sqrt, b, roadPath.value);
        roadMap := Some(roadMapColors);
      }
    }
  }
}
