/**
  `ClusteredZoneAnalyzer.AnalyzeAndGenerateMasks`: every cell of the height
  grid is classified as forest (high ground), rice field or town (flat ground,
  split by Perlin noise), and written to three binary masks.
 */
module Zones {
  import opened Common

  datatype Zone = Forest | RiceField | Town

  const White: real := 1.0
  const Black: real := 0.0

  /** The per-cell decision: forest above the threshold, otherwise rice or town by the noise value. */
  function Classify(height: real, threshold: real, perlinValue: real, riceFieldRatio: real): (z: Zone)
  {
    if height > threshold then Forest
    else if perlinValue < riceFieldRatio then RiceField
    else Town
  }

  /** Forest exactly above the threshold; among the rest, rice exactly below the ratio. */
  lemma ClassifyCases(height: real, threshold: real, perlinValue: real, riceFieldRatio: real)
    ensures Classify(height, threshold, perlinValue, riceFieldRatio) == Forest <==> height > threshold
    ensures Classify(height, threshold, perlinValue, riceFieldRatio) == RiceField <==>
              !(height > threshold) && perlinValue < riceFieldRatio
    ensures Classify(height, threshold, perlinValue, riceFieldRatio) == Town <==>
              !(height > threshold) && !(perlinValue < riceFieldRatio)
  {
  }

  /** Raising the threshold never turns a cell into forest, and lowering it never takes forest away. */
  lemma ClassifyThresholdMonotone(height: real, t1: real, t2: real, perlinValue: real, riceFieldRatio: real)
    requires t1 <= t2
    ensures Classify(height, t2, perlinValue, riceFieldRatio) == Forest ==>
              Classify(height, t1, perlinValue, riceFieldRatio) == Forest
  {
  }

  /** The pixel a cell of zone `z` gets in the mask of `zone`. */
  function MaskPixel(z: Zone, zone: Zone): (v: real)
    ensures v == White <==> z == zone
    ensures v == White || v == Black
  {
    if z == zone then White else Black
  }

  /** Exactly one of the three masks is white at each cell. */
  lemma MasksPartition(z: Zone)
    ensures MaskPixel(z, Forest) + MaskPixel(z, RiceField) + MaskPixel(z, Town) == White
  {
  }

  /** The noise coordinate of column (or row) `i`: `i / resolution * clusterScale + offset`. */
  function NoiseCoordinate(i: int, resolution: int, clusterScale: real, offset: real): real
    requires resolution > 0
  {
    i as real / resolution as real * clusterScale + offset
  }

  /** The zone of cell `(x, y)` for the threshold and noise offsets of one run. */
  function ZoneAt(heightAt: (int, int) -> real, perlin: (real, real) -> real, x: int, y: int, resolution: int,
                  threshold: real, offset: Vec2, clusterScale: real, riceFieldRatio: real): Zone
    requires resolution > 0
  {
    Classify(heightAt(x, y), threshold,
             perlin(NoiseCoordinate(x, resolution, clusterScale, offset.x),
                    NoiseCoordinate(y, resolution, clusterScale, offset.y)),
             riceFieldRatio)
  }

  /**
    `AnalyzeAndGenerateMasks`. `heightAt(x, y)` is the terrain's `GetHeight(x, y) /
    size.y`, `perlin` is `Mathf.PerlinNoise`, and `drawThreshold`, `drawOffsetX`,
    `drawOffsetY` are the three unit draws behind the `Random.Range` calls.
   */
  method AnalyzeAndGenerateMasks(resolution: nat, heightAt: (int, int) -> real, perlin: (real, real) -> real,
                                 minMountainHeight: real, maxMountainHeight: real, clusterScale: real,
                                 riceFieldRatio: real, drawThreshold: real, drawOffsetX: real, drawOffsetY: real)
    returns (threshold: real, offset: Vec2, townMask: array2<real>, riceFieldMask: array2<real>,
             forestMask: array2<real>)
    ensures minMountainHeight <= maxMountainHeight ==> minMountainHeight <= threshold <= maxMountainHeight
    ensures threshold == RangeFloat(minMountainHeight, maxMountainHeight, drawThreshold)
    ensures 0.0 <= offset.x <= 1000.0 && 0.0 <= offset.y <= 1000.0
    ensures fresh(townMask) && fresh(riceFieldMask) && fresh(forestMask)
    ensures townMask.Length0 == resolution && townMask.Length1 == resolution
    ensures riceFieldMask.Length0 == resolution && riceFieldMask.Length1 == resolution
    ensures forestMask.Length0 == resolution && forestMask.Length1 == resolution
    ensures forall x, y :: 0 <= x < resolution && 0 <= y < resolution ==>
              var z := ZoneAt(heightAt, perlin, x, y, resolution, threshold, offset, clusterScale, riceFieldRatio);
              && forestMask[x, y] == MaskPixel(z, Forest)
              && riceFieldMask[x, y] == MaskPixel(z, RiceField)
              && townMask[x, y] == MaskPixel(z, Town)
  {
    threshold := RangeFloat(minMountainHeight, maxMountainHeight, drawThreshold);
    offset := Vec2(RangeFloat(0.0, 1000.0, drawOffsetX), RangeFloat(0.0, 1000.0, drawOffsetY));
    townMask := new real[resolution, resolution];
    riceFieldMask := new real[resolution, resolution];
    forestMask := new real[resolution, resolution];

    for y := 0 to resolution
      invariant forall i, j :: 0 <= i < resolution && 0 <= j < y ==>
                  var z := ZoneAt(heightAt, perlin, i, j, resolution, threshold, offset, clusterScale, riceFieldRatio);
                  forestMask[i, j] == MaskPixel(z, Forest) && riceFieldMask[i, j] == MaskPixel(z, RiceField)
                  && townMask[i, j] == MaskPixel(z, Town)
    {
      for x := 0 to resolution
        invariant forall i, j :: 0 <= i < resolution && 0 <= j < y ==>
                    var z := ZoneAt(heightAt, perlin, i, j, resolution, threshold, offset, clusterScale, riceFieldRatio);
                    forestMask[i, j] == MaskPixel(z, Forest) && riceFieldMask[i, j] == MaskPixel(z, RiceField)
                    && townMask[i, j] == MaskPixel(z, Town)
        invariant forall i :: 0 <= i < x ==>
                    var z := ZoneAt(heightAt, perlin, i, y, resolution, threshold, offset, clusterScale, riceFieldRatio);
                    forestMask[i, y] == MaskPixel(z, Forest) && riceFieldMask[i, y] == MaskPixel(z, RiceField)
                    && townMask[i, y] == MaskPixel(z, Town)
      {
        var height := heightAt(x, y);
        var isTownArea, isRiceFieldArea, isForestArea := false, false, false;
        if height > threshold {
          isForestArea := true;
        } else {
          var sampleX := NoiseCoordinate(x, resolution, clusterScale, offset.x);
          var sampleY := NoiseCoordinate(y, resolution, clusterScale, offset.y);
          var perlinValue := perlin(sampleX, sampleY);
          if perlinValue < riceFieldRatio {
            isRiceFieldArea := true;
          } else {
            isTownArea := true;
          }
        }
        townMask[x, y] := if isTownArea then White else Black;
        riceFieldMask[x, y] := if isRiceFieldArea then White else Black;
        forestMask[x, y] := if isForestArea then White else Black;
      }
    }
  }
}
