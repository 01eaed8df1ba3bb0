/**
  `ElevatedRoadGenerator.GenerateTrees` (GenarateTerrainGround.cs): throws
  `treeDensity` random points at the terrain and keeps a tree at each point
  whose world height lies in the band `[minPlacementHeight, maxPlacementHeight]`.
 */
module TerrainGround {
  import opened Common
  import opened Trees

  datatype Settings = Settings(treeDensity: int, minPlacementHeight: real, maxPlacementHeight: real,
                               minTreeScale: real, maxTreeScale: real)

  /** The draws attempt `i` consumes: the two coordinates, then the prototype and the scale. */
  datatype GroundDraw = GroundDraw(x: real, z: real, prototype: nat, scale: real)

  /**
    The terrain as the generator sees it. `heightAt` is `TerrainData.GetHeight`
    on heightmap indices, in world units; `positionY` is the terrain's `y`.
   */
  datatype Ground = Ground(size: Vec3, heightmapResolution: int, positionY: real, heightAt: (int, int) -> real,
                           prototypeCount: nat)

  /** A normalised coordinate scaled by a resolution stays within `[0, resolution]`. */
  lemma ScaledWithin(u: real, resolution: int)
    ensures 0.0 <= u <= 1.0 && resolution >= 0 ==> 0.0 <= u * resolution as real <= resolution as real
  {
    if 0.0 <= u <= 1.0 && resolution >= 0 {
      MulNonneg(u, resolution as real);
      assert resolution as real - u * resolution as real == (1.0 - u) * resolution as real;
      MulNonneg(1.0 - u, resolution as real);
    }
  }

  /** `(int)(u * heightmapResolution)`: the heightmap index of normalised coordinate `u`. */
  function SampleIndex(u: real, resolution: int): (i: int)
    ensures 0.0 <= u <= 1.0 && resolution >= 0 ==> 0 <= i <= resolution
  {
    ScaledWithin(u, resolution);
    TruncToInt(u * resolution as real)
  }

  /** The terrain's height at normalised `(x, z)`, divided by `size.y`. */
  function NormalizedHeight(g: Ground, x: real, z: real): real
    requires g.size.y != 0.0
  {
    Normalised(g.heightAt(SampleIndex(x, g.heightmapResolution), SampleIndex(z, g.heightmapResolution)), g.size.y)
  }

  /** Attempt `d`: a tree at `(x, normalizedHeight, z)` when the world height is in the band. */
  function Attempt(g: Ground, s: Settings, d: GroundDraw): Option<TreeInstance>
    requires g.size.y != 0.0
  {
    var randomX, randomZ := RangeFloat(0.0, 1.0, d.x), RangeFloat(0.0, 1.0, d.z);
    var normalizedHeight := NormalizedHeight(g, randomX, randomZ);
    var worldY := normalizedHeight * g.size.y + g.positionY;
    if worldY >= s.minPlacementHeight && worldY <= s.maxPlacementHeight then
      var randomScale := RangeFloat(s.minTreeScale, s.maxTreeScale, d.scale);
      Some(TreeInstance(Vec3(randomX, normalizedHeight, randomZ), RangeInt(g.prototypeCount, d.prototype),
                        randomScale, randomScale))
    else None
  }

  /** The attempts as a one-row lattice, so that `RowScan` lists their trees in order. */
  function Attempts(g: Ground, s: Settings, draw: nat -> GroundDraw): (nat, nat) -> Option<TreeInstance>
  {
    (row: nat, i: nat) => if g.size.y != 0.0 then Attempt(g, s, draw(i)) else None
  }

  /** The trees of all `treeDensity` attempts. */
  function GroundTrees(g: Ground, s: Settings, draw: nat -> GroundDraw): seq<TreeInstance>
  {
    RowScan(Attempts(g, s, draw), 0, Iterations(s.treeDensity))
  }

  /**
    `tree` is what attempt `d` places: it stands on the terrain's own height
    at its heightmap cell, that height plus the terrain's `y` lies in the band,
    and the prototype and the common width and height scale are in range.
   */
  predicate GroundTreeFrom(g: Ground, s: Settings, tree: TreeInstance)
    requires g.size.y != 0.0
  {
    var p := tree.position;
    var height := g.heightAt(SampleIndex(p.x, g.heightmapResolution), SampleIndex(p.z, g.heightmapResolution));
    && 0.0 <= p.x <= 1.0 && 0.0 <= p.z <= 1.0
    && (g.heightmapResolution >= 0 ==>
          0 <= SampleIndex(p.x, g.heightmapResolution) <= g.heightmapResolution
          && 0 <= SampleIndex(p.z, g.heightmapResolution) <= g.heightmapResolution)
    && p.y == Normalised(height, g.size.y)
    && s.minPlacementHeight <= height + g.positionY <= s.maxPlacementHeight
    && (g.prototypeCount > 0 ==> tree.prototypeIndex < g.prototypeCount)
    && tree.widthScale == tree.heightScale
    && (s.minTreeScale <= s.maxTreeScale ==> s.minTreeScale <= tree.widthScale <= s.maxTreeScale)
  }

  /** An attempt places a tree exactly when the height under it, plus the terrain's `y`, is in the band. */
  lemma AttemptBand(g: Ground, s: Settings, d: GroundDraw)
    requires g.size.y != 0.0
    ensures var randomX, randomZ := RangeFloat(0.0, 1.0, d.x), RangeFloat(0.0, 1.0, d.z);
            var height := g.heightAt(SampleIndex(randomX, g.heightmapResolution), SampleIndex(randomZ, g.heightmapResolution));
            Attempt(g, s, d).Some? <==> s.minPlacementHeight <= height + g.positionY <= s.maxPlacementHeight
    ensures Attempt(g, s, d).Some? ==> GroundTreeFrom(g, s, Attempt(g, s, d).value)
  {
    var randomX, randomZ := RangeFloat(0.0, 1.0, d.x), RangeFloat(0.0, 1.0, d.z);
    var height := g.heightAt(SampleIndex(randomX, g.heightmapResolution), SampleIndex(randomZ, g.heightmapResolution));
    NormalisedInverse(height, g.size.y);
  }

  /**
    At most `treeDensity` trees are placed, each by one attempt and each with
    the properties `GroundTreeFrom` lists.
   */
  lemma GroundTreesFrom(g: Ground, s: Settings, draw: nat -> GroundDraw)
    requires g.size.y != 0.0
    ensures |GroundTrees(g, s, draw)| <= Iterations(s.treeDensity)
    ensures forall k :: 0 <= k < |GroundTrees(g, s, draw)| ==> GroundTreeFrom(g, s, GroundTrees(g, s, draw)[k])
  {
    var cell := Attempts(g, s, draw);
    var n := Iterations(s.treeDensity);
    var trees := GroundTrees(g, s, draw);
    RowScanFrom(cell, 0, n);
    forall k | 0 <= k < |trees|
      ensures GroundTreeFrom(g, s, trees[k])
    {
      var row: nat, i: nat :| row < 1 && i < n && cell(row, i) == Some(trees[k]);
      AttemptBand(g, s, draw(i));
    }
  }

  /** Every attempt whose point lies in the band has its tree in the list. */
  lemma GroundTreesComplete(g: Ground, s: Settings, draw: nat -> GroundDraw, i: nat)
    requires g.size.y != 0.0
    requires i < Iterations(s.treeDensity) && Attempt(g, s, draw(i)).Some?
    ensures Attempt(g, s, draw(i)).value in GroundTrees(g, s, draw)
  {
    RowScanComplete(Attempts(g, s, draw), 0, Iterations(s.treeDensity), i);
  }

  datatype Outcome = MissingTerrain | MissingPrefabs | Generated

  /**
    The loop of `GenerateTrees`. A tree is appended for every attempt in the
    band; the draws of an attempt outside it that the source never makes are
    simply not consulted.
   */
  method ThrowTrees(g: Ground, s: Settings, draw: nat -> GroundDraw) returns (trees: seq<TreeInstance>)
    requires g.size.y != 0.0
    ensures trees == GroundTrees(g, s, draw)
  {
    trees := [];
    ghost var cell := Attempts(g, s, draw);
    for i := 0 to Iterations(s.treeDensity)
      invariant trees == RowScan(cell, 0, i)
    {
      var d := draw(i);
      var randomX := RangeFloat(0.0, 1.0, d.x);
      var randomZ := RangeFloat(0.0, 1.0, d.z);
      var normalizedHeight := NormalizedHeight(g, randomX, randomZ);
      var worldY := normalizedHeight * g.size.y + g.positionY;
      if worldY >= s.minPlacementHeight && worldY <= s.maxPlacementHeight {
        var randomScale := RangeFloat(s.minTreeScale, s.maxTreeScale, d.scale);
        var tree := TreeInstance(Vec3(randomX, normalizedHeight, randomZ), RangeInt(g.prototypeCount, d.prototype),
                                 randomScale, randomScale);
        trees := trees + [tree];
      }
      assert cell(0, i) == Attempt(g, s, d);
    }
  }

  /**
    `GenerateTrees`. A missing terrain, or no prefabs (`prefabCount` 0 covers
    both a null and an empty array), is an error that changes nothing;
    otherwise one prototype per prefab is registered and the terrain's trees
    are replaced by the generated ones.
   */
  method GenerateTrees(terrainData: TerrainData?, prefabCount: nat, positionY: real, heightmapResolution: int,
                       heightAt: (int, int) -> real, s: Settings, draw: nat -> GroundDraw)
    returns (outcome: Outcome)
    requires terrainData != null ==> terrainData.size.y != 0.0
    modifies terrainData
    ensures terrainData == null <==> outcome == MissingTerrain
    ensures outcome == MissingPrefabs <==> terrainData != null && prefabCount == 0
    ensures outcome != Generated && terrainData != null ==>
              terrainData.treePrototypeCount == old(terrainData.treePrototypeCount)
              && terrainData.treeInstances == old(terrainData.treeInstances)
    ensures outcome == Generated ==>
              terrainData.treePrototypeCount == prefabCount
              && terrainData.treeInstances ==
                   GroundTrees(Ground(terrainData.size, heightmapResolution, positionY, heightAt, prefabCount), s, draw)
  {
    if terrainData == null {
      return MissingTerrain;
    }
    if prefabCount == 0 {
      return MissingPrefabs;
    }
    terrainData.SetTreePrototypes(prefabCount);
    var g := Ground(terrainData.size, heightmapResolution, positionY, heightAt, prefabCount);
    var trees := ThrowTrees(g, s, draw);
    terrainData.SetTreeInstances(trees);
    outcome := Generated;
  }

  /** `ClearTrees`: a missing terrain is an error (`false`); otherwise its trees are all removed. */
  method ClearTrees(terrainData: TerrainData?) returns (cleared: bool)
    modifies terrainData
    ensures cleared <==> terrainData != null
    ensures terrainData != null ==>
              terrainData.treeInstances == [] && terrainData.treePrototypeCount == old(terrainData.treePrototypeCount)
  {
    if terrainData == null {
      return false;
    }
    terrainData.SetTreeInstances([]);
    cleared := true;
  }
}
