/**
  `DrawRiverOnMap`: a tree edge is sampled at `(int)Distance + 1` points,
  and around each sample a square of cells is painted: cells within half the
  river width become 1, and cells within half the river width plus
  smoothing get at least a blend that falls off linearly. The river map is
  indexed `[y, x]`.
 */
module RiverDraw {
  import opened Common
  import opened RoadGenerator

  /** `Mathf.Sqrt(x * x + y * y)` for a cell at offset `(dx, dy)` from the sample. */
  function OffsetLength(sqrt: real -> real, dx: int, dy: int): real
  {
    sqrt((dx * dx + dy * dy) as real)
  }

  /** Line 215: `1 - (dist - riverWidth / 2) / smoothingWidth`. */
  function Blend(dist: real, riverWidth: real, smoothingWidth: real): real
    requires smoothingWidth != 0.0
  {
    1.0 - (dist - riverWidth / 2.0) / smoothingWidth
  }

  /** Lines 212-217: the new value of a cell at distance `dist` from the sample. */
  function Paint(v: real, dist: real, riverWidth: real, smoothingWidth: real): real
  {
    if dist <= riverWidth / 2.0 then 1.0
    else if dist <= (riverWidth + smoothingWidth) / 2.0 then MaxReal(v, Blend(dist, riverWidth, smoothingWidth))
    else v
  }

  /** The offsets the two inner loops visit: `-reach .. reach` in both axes. */
  predicate InSquare(reach: int, dx: int, dy: int)
  {
    -reach <= dx <= reach && -reach <= dy <= reach
  }

  /** The value of `cell` after the square around sample `c` is painted, from its value `v` before. */
  function StampValue(sqrt: real -> real, riverWidth: real, smoothingWidth: real, c: Int2, cell: Int2, v: real): real
  {
    var dx, dy := cell.x - c.x, cell.y - c.y;
    if InSquare(CeilToInt(riverWidth + smoothingWidth), dx, dy)
    then Paint(v, OffsetLength(sqrt, dx, dy), riverWidth, smoothingWidth)
    else v
  }

  /**
    The samples `k = 0 .. pointsCount` of the line. Coincident end points
    (`pointsCount == 0`) would make `t = 0 / 0` NaN in C#; no sample is
    drawn for them.
   */
  function Centres(sqrt: real -> real, start: Int2, end: Int2): (cs: seq<Int2>)
    ensures PointsCount(sqrt, start, end) >= 1 ==> |cs| == PointsCount(sqrt, start, end) + 1
    ensures PointsCount(sqrt, start, end) < 1 ==> cs == []
    ensures forall k :: 0 <= k < |cs| ==> cs[k] == SamplePoint(sqrt, start, end, k)
  {
    if PointsCount(sqrt, start, end) < 1 then []
    else seq(PointsCount(sqrt, start, end) + 1, k => SamplePoint(sqrt, start, end, k))
  }

  /** The value of `cell` after the squares around all of `centres` are painted in order. */
  function Drawn(sqrt: real -> real, riverWidth: real, smoothingWidth: real, centres: seq<Int2>, cell: Int2, v: real): real
  {
    if |centres| == 0 then v
    else
      StampValue(sqrt, riverWidth, smoothingWidth, centres[|centres| - 1], cell,
                 Drawn(sqrt, riverWidth, smoothingWidth, centres[..|centres| - 1], cell, v))
  }

  // ---------------------------------------------------------------------------
  // What painting does to a value
  // ---------------------------------------------------------------------------

  /** In the band the blend lies in `[1/2, 1)`. */
  lemma BlendBetween(dist: real, riverWidth: real, smoothingWidth: real)
    requires riverWidth / 2.0 < dist <= (riverWidth + smoothingWidth) / 2.0
    ensures smoothingWidth > 0.0
    ensures 0.5 <= Blend(dist, riverWidth, smoothingWidth) < 1.0
  {
    var over := dist - riverWidth / 2.0;
    assert 0.0 < over <= smoothingWidth / 2.0;
  }

  /** A value in `[0, 1]` stays in `[0, 1]` and never decreases. */
  lemma PaintBetween(v: real, dist: real, riverWidth: real, smoothingWidth: real)
    requires 0.0 <= v <= 1.0
    ensures v <= Paint(v, dist, riverWidth, smoothingWidth) <= 1.0
  {
    if riverWidth / 2.0 < dist <= (riverWidth + smoothingWidth) / 2.0 {
      BlendBetween(dist, riverWidth, smoothingWidth);
    }
  }

  /** Painting all the samples keeps a value in `[0, 1]` and never lowers it. */
  lemma {:induction false} DrawnBetween(sqrt: real -> real, riverWidth: real, smoothingWidth: real, centres: seq<Int2>, cell: Int2, v: real)
    requires 0.0 <= v <= 1.0
    ensures v <= Drawn(sqrt, riverWidth, smoothingWidth, centres, cell, v) <= 1.0
  {
    if |centres| > 0 {
      var c := centres[|centres| - 1];
      DrawnBetween(sqrt, riverWidth, smoothingWidth, centres[..|centres| - 1], cell, v);
      var before := Drawn(sqrt, riverWidth, smoothingWidth, centres[..|centres| - 1], cell, v);
      PaintBetween(before, OffsetLength(sqrt, cell.x - c.x, cell.y - c.y), riverWidth, smoothingWidth);
    }
  }

  /** Sample `c` puts `cell` in the core of the river: within the square and within half the width. */
  predicate InCore(sqrt: real -> real, riverWidth: real, smoothingWidth: real, c: Int2, cell: Int2)
  {
    && InSquare(CeilToInt(riverWidth + smoothingWidth), cell.x - c.x, cell.y - c.y)
    && OffsetLength(sqrt, cell.x - c.x, cell.y - c.y) <= riverWidth / 2.0
  }

  /**
    Sample `c` reaches `cell` at all: within the square, and within half the
    width or within half the width plus smoothing (the first is the larger
    when the smoothing is negative).
   */
  predicate Reaches(sqrt: real -> real, riverWidth: real, smoothingWidth: real, c: Int2, cell: Int2)
  {
    && InSquare(CeilToInt(riverWidth + smoothingWidth), cell.x - c.x, cell.y - c.y)
    && (|| OffsetLength(sqrt, cell.x - c.x, cell.y - c.y) <= riverWidth / 2.0
        || OffsetLength(sqrt, cell.x - c.x, cell.y - c.y) <= (riverWidth + smoothingWidth) / 2.0)
  }

  /** A cell in the core of any sample ends at 1. */
  lemma {:induction false} DrawnCore(sqrt: real -> real, riverWidth: real, smoothingWidth: real, centres: seq<Int2>, cell: Int2, v: real, k: int)
    requires 0.0 <= v <= 1.0 && 0 <= k < |centres|
    requires InCore(sqrt, riverWidth, smoothingWidth, centres[k], cell)
    ensures Drawn(sqrt, riverWidth, smoothingWidth, centres, cell, v) == 1.0
  {
    var last := |centres| - 1;
    var prefix := centres[..last];
    var c := centres[last];
    var before := Drawn(sqrt, riverWidth, smoothingWidth, prefix, cell, v);
    if k < last {
      assert prefix[k] == centres[k];
      DrawnCore(sqrt, riverWidth, smoothingWidth, prefix, cell, v, k);
      PaintBetween(before, OffsetLength(sqrt, cell.x - c.x, cell.y - c.y), riverWidth, smoothingWidth);
    }
  }

  /** With non-negative widths, the cell under every sample ends at 1. */
  lemma SampleOnRiver(sqrt: real -> real, riverWidth: real, smoothingWidth: real, centres: seq<Int2>, v: real, k: int)
    requires IsSqrt(sqrt) && 0.0 <= riverWidth && 0.0 <= smoothingWidth
    requires 0.0 <= v <= 1.0 && 0 <= k < |centres|
    ensures Drawn(sqrt, riverWidth, smoothingWidth, centres, centres[k], v) == 1.0
  {
    var c := centres[k];
    SqrtAtMost(sqrt, 0.0, 0.0);
    assert OffsetLength(sqrt, c.x - c.x, c.y - c.y) <= 0.0;
    DrawnCore(sqrt, riverWidth, smoothingWidth, centres, c, v, k);
  }

  /** With non-negative widths, the line between two different cells covers both of them. */
  lemma LineCoversEnds(sqrt: real -> real, riverWidth: real, smoothingWidth: real, start: Int2, end: Int2, vs: real, ve: real)
    requires IsSqrt(sqrt) && 0.0 <= riverWidth && 0.0 <= smoothingWidth && start != end
    requires 0.0 <= vs <= 1.0 && 0.0 <= ve <= 1.0
    ensures Drawn(sqrt, riverWidth, smoothingWidth, Centres(sqrt, start, end), start, vs) == 1.0
    ensures Drawn(sqrt, riverWidth, smoothingWidth, Centres(sqrt, start, end), end, ve) == 1.0
  {
    var cs := Centres(sqrt, start, end);
    PointsCountZeroIffSame(sqrt, start, end);
    SampleEndpoints(sqrt, start, end);
    SampleOnRiver(sqrt, riverWidth, smoothingWidth, cs, vs, 0);
    SampleOnRiver(sqrt, riverWidth, smoothingWidth, cs, ve, |cs| - 1);
  }

  /** A cell in the blended band of a sample ends at least at that sample's blend. */
  lemma {:induction false} DrawnBand(sqrt: real -> real, riverWidth: real, smoothingWidth: real, centres: seq<Int2>, cell: Int2, v: real, k: int)
    requires 0.0 <= v <= 1.0 && 0 <= k < |centres|
    requires Reaches(sqrt, riverWidth, smoothingWidth, centres[k], cell)
    requires !InCore(sqrt, riverWidth, smoothingWidth, centres[k], cell)
    ensures smoothingWidth > 0.0
    ensures Blend(OffsetLength(sqrt, cell.x - centres[k].x, cell.y - centres[k].y), riverWidth, smoothingWidth)
            <= Drawn(sqrt, riverWidth, smoothingWidth, centres, cell, v)
  {
    var last := |centres| - 1;
    var prefix := centres[..last];
    var c := centres[last];
    var before := Drawn(sqrt, riverWidth, smoothingWidth, prefix, cell, v);
    DrawnBetween(sqrt, riverWidth, smoothingWidth, prefix, cell, v);
    PaintBetween(before, OffsetLength(sqrt, cell.x - c.x, cell.y - c.y), riverWidth, smoothingWidth);
    BlendBetween(OffsetLength(sqrt, cell.x - centres[k].x, cell.y - centres[k].y), riverWidth, smoothingWidth);
    if k < last {
      assert prefix[k] == centres[k];
      DrawnBand(sqrt, riverWidth, smoothingWidth, prefix, cell, v, k);
    }
  }

  /** A cell no sample reaches keeps its value. */
  lemma {:induction false} DrawnOutside(sqrt: real -> real, riverWidth: real, smoothingWidth: real, centres: seq<Int2>, cell: Int2, v: real)
    requires forall k :: 0 <= k < |centres| ==> !Reaches(sqrt, riverWidth, smoothingWidth, centres[k], cell)
    ensures Drawn(sqrt, riverWidth, smoothingWidth, centres, cell, v) == v
  {
    if |centres| > 0 {
      var last := |centres| - 1;
      assert !Reaches(sqrt, riverWidth, smoothingWidth, centres[last], cell);
      assert forall k :: 0 <= k < last ==> centres[..last][k] == centres[k];
      DrawnOutside(sqrt, riverWidth, smoothingWidth, centres[..last], cell, v);
    }
  }

  // ---------------------------------------------------------------------------
  // The drawing loops
  // ---------------------------------------------------------------------------

  /** The cells of a `resolution` by `resolution` map indexed `[y, x]`. */
  predicate OnMap(riverMap: array2<real>, py: int, px: int)
  {
    0 <= py < riverMap.Length0 && 0 <= px < riverMap.Length1
  }

  /** Lines 197-221: paints every sample of the line from `start` to `end` onto `riverMap`. */
  method DrawRiver(riverMap: array2<real>, resolution: int, start: Int2, end: Int2,
                   riverWidth: real, smoothingWidth: real, sqrt: real -> real)
    requires riverMap.Length0 == resolution && riverMap.Length1 == resolution
    modifies riverMap
    ensures forall py, px :: OnMap(riverMap, py, px) ==>
              riverMap[py, px] == Drawn(sqrt, riverWidth, smoothingWidth, Centres(sqrt, start, end), Int2(px, py), old(riverMap[py, px]))
  {
    var pointsCount := PointsCount(sqrt, start, end);
    ghost var cs := Centres(sqrt, start, end);
    if pointsCount < 1 {
      return;
    }
    var totalWidth := riverWidth + smoothingWidth;
    var reach := CeilToInt(totalWidth);
    for k := 0 to pointsCount + 1
      invariant forall py, px :: OnMap(riverMap, py, px) ==>
                  riverMap[py, px] == Drawn(sqrt, riverWidth, smoothingWidth, cs[..k], Int2(px, py), old(riverMap[py, px]))
    {
      var c := SamplePoint(sqrt, start, end, k);
      assert cs[..k + 1][..k] == cs[..k] && cs[..k + 1][k] == c;
      StampSample(riverMap, resolution, c, reach, riverWidth, smoothingWidth, sqrt);
    }
    assert cs[..pointsCount + 1] == cs;
  }

  /** Lines 204-219 for one sample `c`: rows `-reach .. reach` of the square around it. */
  method StampSample(riverMap: array2<real>, resolution: int, c: Int2, reach: int,
                     riverWidth: real, smoothingWidth: real, sqrt: real -> real)
    requires riverMap.Length0 == resolution && riverMap.Length1 == resolution
    requires reach == CeilToInt(riverWidth + smoothingWidth)
    modifies riverMap
    ensures forall py, px :: OnMap(riverMap, py, px) ==>
              riverMap[py, px] == StampValue(sqrt, riverWidth, smoothingWidth, c, Int2(px, py), old(riverMap[py, px]))
  {
    if reach < 0 {
      return;
    }
    for y := -reach to reach + 1
      invariant forall py, px :: OnMap(riverMap, py, px) ==>
                  riverMap[py, px] == if py - c.y < y then StampValue(sqrt, riverWidth, smoothingWidth, c, Int2(px, py), old(riverMap[py, px]))
                                      else old(riverMap[py, px])
    {
      StampRow(riverMap, resolution, c, reach, y, riverWidth, smoothingWidth, sqrt);
    }
  }

  /** Lines 205-218 for one row `y` of the square around sample `c`. */
  method StampRow(riverMap: array2<real>, resolution: int, c: Int2, reach: int, y: int,
                  riverWidth: real, smoothingWidth: real, sqrt: real -> real)
    requires riverMap.Length0 == resolution && riverMap.Length1 == resolution
    requires reach == CeilToInt(riverWidth + smoothingWidth) && -reach <= y <= reach
    modifies riverMap
    ensures forall py, px :: OnMap(riverMap, py, px) ==>
              riverMap[py, px] == if py - c.y == y then StampValue(sqrt, riverWidth, smoothingWidth, c, Int2(px, py), old(riverMap[py, px]))
                                  else old(riverMap[py, px])
  {
    for x := -reach to reach + 1
      invariant forall py, px :: OnMap(riverMap, py, px) ==>
                  riverMap[py, px] == if py - c.y == y && px - c.x < x then StampValue(sqrt, riverWidth, smoothingWidth, c, Int2(px, py), old(riverMap[py, px]))
                                      else old(riverMap[py, px])
    {
      var px := c.x + x;
      var py := c.y + y;
      if px >= 0 && px < resolution && py >= 0 && py < resolution {
        var dist := OffsetLength(sqrt, x, y);
        if dist <= riverWidth / 2.0 {
          riverMap[py, px] := 1.0;
        } else if dist <= (riverWidth + smoothingWidth) / 2.0 {
          var blendFactor := 1.0 - (dist - riverWidth / 2.0) / smoothingWidth;
          riverMap[py, px] := MaxReal(riverMap[py, px], blendFactor);
        }
      }
    }
  }
}
