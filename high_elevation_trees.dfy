/**
  `HighElevationTreePlacer.PlaceTrees`: a 5-unit lattice over the terrain; a
  point gets a tree when it is high enough, not too steep, and passes the
  density draw. The tree is jittered by up to 2.5 units on each axis.
 */
module HighElevationTrees {
  import opened Common
  import opened Trees

  datatype Settings = Settings(minPlacementHeight: real, maxPlacementSlope: real, density: real)

  /** The draws a lattice point consumes: the density draw, two jitters, the prototype and two scales. */
  datatype TreeDraw = TreeDraw(gate: real, jitterX: real, jitterZ: real, prototype: nat, widthScale: real,
                               heightScale: real)

  /**
    The terrain as the placer sees it. `heightAt` is `GetInterpolatedHeight / size.y`
    and `steepnessAt` is `GetSteepness`, both at normalised coordinates.
   */
  datatype Terrain = Terrain(size: Vec3, prototypeCount: nat, heightAt: (real, real) -> real,
                             steepnessAt: (real, real) -> real)

  /** `p` is the normalised image of a point within `radius` of world coordinate `v`. */
  predicate Near(p: real, v: real, radius: real, extent: real)
    requires extent > 0.0
  {
    Normalised(v - radius, extent) <= p <= Normalised(v + radius, extent)
  }

  /** What lattice point `(col, row)`, at world `(5 * col, 5 * row)`, contributes. */
  function CellTree(t: Terrain, s: Settings, draw: (nat, nat) -> TreeDraw, row: nat, col: nat): Option<TreeInstance>
    requires t.size.x > 0.0 && t.size.z > 0.0
  {
    var x, y := Coord(col), Coord(row);
    var normalizedX, normalizedZ := Normalised(x, t.size.x), Normalised(y, t.size.z);
    if t.heightAt(normalizedX, normalizedZ) < s.minPlacementHeight then None
    else if t.steepnessAt(normalizedX, normalizedZ) > s.maxPlacementSlope then None
    else
      var d := draw(row, col);
      if !(RangeFloat(0.0, 1.0, d.gate) < s.density) then None
      else
        var jitterX := Normalised(x + RangeFloat(-2.5, 2.5, d.jitterX), t.size.x);
        var jitterZ := Normalised(y + RangeFloat(-2.5, 2.5, d.jitterZ), t.size.z);
        Some(TreeInstance(Vec3(jitterX, 0.0, jitterZ), RangeInt(t.prototypeCount, d.prototype),
                          RangeFloat(0.8, 1.5, d.widthScale), RangeFloat(0.8, 1.5, d.heightScale)))
  }

  /** The lattice point function; a lattice over an empty extent has no points, so the guard never applies. */
  function Cells(t: Terrain, s: Settings, draw: (nat, nat) -> TreeDraw): (nat, nat) -> Option<TreeInstance>
  {
    (row: nat, col: nat) => if t.size.x > 0.0 && t.size.z > 0.0 then CellTree(t, s, draw, row, col) else None
  }

  /** The trees of the whole scan: `y` from 0 while below `size.z`, `x` from 0 while below `size.x`. */
  function PlacedTrees(t: Terrain, s: Settings, draw: (nat, nat) -> TreeDraw): seq<TreeInstance>
  {
    Scan(Cells(t, s, draw), LatticeCount(t.size.z, LatticeStep), LatticeCount(t.size.x, LatticeStep))
  }

  /** A tree from point `(col, row)`: the point is on the terrain and passed the filters, and the draws are in range. */
  predicate TreeFrom(t: Terrain, s: Settings, row: nat, col: nat, tree: TreeInstance)
    requires t.size.x > 0.0 && t.size.z > 0.0
  {
    var x, y := Coord(col), Coord(row);
    var normalizedX, normalizedZ := Normalised(x, t.size.x), Normalised(y, t.size.z);
    && x < t.size.x && y < t.size.z
    && t.heightAt(normalizedX, normalizedZ) >= s.minPlacementHeight
    && t.steepnessAt(normalizedX, normalizedZ) <= s.maxPlacementSlope
    && Near(tree.position.x, x, 2.5, t.size.x)
    && Near(tree.position.z, y, 2.5, t.size.z)
    && tree.position.y == 0.0
    && (t.prototypeCount > 0 ==> tree.prototypeIndex < t.prototypeCount)
    && 0.8 <= tree.widthScale <= 1.5 && 0.8 <= tree.heightScale <= 1.5
  }

  /** `tree` comes from some lattice point, as `TreeFrom` says. */
  ghost predicate FromSomePoint(t: Terrain, s: Settings, tree: TreeInstance)
    requires t.size.x > 0.0 && t.size.z > 0.0
  {
    exists row: nat, col: nat :: TreeFrom(t, s, row, col, tree)
  }

  /**
    Tree `k` comes from lattice point `sites[k]`, as `TreeFrom` says, and the
    points strictly increase in scan order, so no point yields two trees.
   */
  ghost predicate FromSites(t: Terrain, s: Settings, trees: seq<TreeInstance>, sites: seq<Site>)
    requires t.size.x > 0.0 && t.size.z > 0.0
  {
    && |sites| == |trees|
    && (forall k :: 0 <= k < |trees| ==> TreeFrom(t, s, sites[k].row, sites[k].col, trees[k]))
    && (forall i, j :: 0 <= i < j < |sites| ==> SiteBefore(sites[i], sites[j]))
  }

  /** A point that yields a tree passed the height, slope and density checks, and the tree has its ranges. */
  lemma CellTreeFrom(t: Terrain, s: Settings, draw: (nat, nat) -> TreeDraw, row: nat, col: nat)
    requires t.size.x > 0.0 && t.size.z > 0.0
    requires Coord(col) < t.size.x && Coord(row) < t.size.z
    ensures CellTree(t, s, draw, row, col).Some? ==> TreeFrom(t, s, row, col, CellTree(t, s, draw, row, col).value)
    ensures CellTree(t, s, draw, row, col).Some? ==> RangeFloat(0.0, 1.0, draw(row, col).gate) < s.density
  {
    var d := draw(row, col);
    var jx, jz := RangeFloat(-2.5, 2.5, d.jitterX), RangeFloat(-2.5, 2.5, d.jitterZ);
    NormalisedMonotone(Coord(col) - 2.5, Coord(col) + jx, t.size.x);
    NormalisedMonotone(Coord(col) + jx, Coord(col) + 2.5, t.size.x);
    NormalisedMonotone(Coord(row) - 2.5, Coord(row) + jz, t.size.z);
    NormalisedMonotone(Coord(row) + jz, Coord(row) + 2.5, t.size.z);
  }

  /**
    Every placed tree comes from a lattice point on the terrain that passed the
    height and slope filters, lies within 2.5 units of it, has a valid prototype
    and scales in [0.8, 1.5]; tree `k` comes from the `k`-th yielding point in
    scan order (`Sites`), so there is at most one tree per lattice point.
   */
  lemma PlacedTreesFrom(t: Terrain, s: Settings, draw: (nat, nat) -> TreeDraw)
    ensures |PlacedTrees(t, s, draw)| <= LatticeCount(t.size.z, LatticeStep) * LatticeCount(t.size.x, LatticeStep)
    ensures !(t.size.x > 0.0 && t.size.z > 0.0) ==> PlacedTrees(t, s, draw) == []
    ensures t.size.x > 0.0 && t.size.z > 0.0 ==>
              forall k :: 0 <= k < |PlacedTrees(t, s, draw)| ==> FromSomePoint(t, s, PlacedTrees(t, s, draw)[k])
    ensures t.size.x > 0.0 && t.size.z > 0.0 ==>
              FromSites(t, s, PlacedTrees(t, s, draw),
                        Sites(Cells(t, s, draw), LatticeCount(t.size.z, LatticeStep), LatticeCount(t.size.x, LatticeStep)))
  {
    var cell := Cells(t, s, draw);
    var rows, cols := LatticeCount(t.size.z, LatticeStep), LatticeCount(t.size.x, LatticeStep);
    var trees := PlacedTrees(t, s, draw);
    ScanFrom(cell, rows, cols);
    if !(t.size.x > 0.0 && t.size.z > 0.0) {
      assert rows == 0 || cols == 0;
      assert |trees| <= rows * cols == 0;
    } else {
      var sites := Sites(cell, rows, cols);
      forall k | 0 <= k < |trees|
        ensures TreeFrom(t, s, sites[k].row, sites[k].col, trees[k])
        ensures FromSomePoint(t, s, trees[k])
      {
        var row, col := sites[k].row, sites[k].col;
        assert row < rows && col < cols && cell(row, col) == Some(trees[k]);
        LatticeCountExact(t.size.z, LatticeStep, row);
        LatticeCountExact(t.size.x, LatticeStep, col);
        assert CellTree(t, s, draw, row, col) == Some(trees[k]);
        CellTreeFrom(t, s, draw, row, col);
        assert TreeFrom(t, s, row, col, trees[k]);
      }
    }
  }

  /** Every lattice point on the terrain that passes all three checks has its tree in the list. */
  lemma PlacedTreesComplete(t: Terrain, s: Settings, draw: (nat, nat) -> TreeDraw, row: nat, col: nat)
    requires t.size.x > 0.0 && t.size.z > 0.0
    requires Coord(col) < t.size.x && Coord(row) < t.size.z
    requires CellTree(t, s, draw, row, col).Some?
    ensures CellTree(t, s, draw, row, col).value in PlacedTrees(t, s, draw)
  {
    LatticeCountExact(t.size.z, LatticeStep, row);
    LatticeCountExact(t.size.x, LatticeStep, col);
    ScanComplete(Cells(t, s, draw), LatticeCount(t.size.z, LatticeStep), LatticeCount(t.size.x, LatticeStep), row, col);
  }

  /** One lattice point, with the source's `continue` filters. */
  method VisitPoint(t: Terrain, s: Settings, draw: (nat, nat) -> TreeDraw, row: nat, col: nat)
    returns (tree: Option<TreeInstance>)
    requires t.size.x > 0.0 && t.size.z > 0.0
    ensures tree == CellTree(t, s, draw, row, col)
  {
    var x, y := Coord(col), Coord(row);
    var normalizedX := Normalised(x, t.size.x);
    var normalizedZ := Normalised(y, t.size.z);
    var height := t.heightAt(normalizedX, normalizedZ);
    if height < s.minPlacementHeight {
      return None;
    }
    var slope := t.steepnessAt(normalizedX, normalizedZ);
    if slope > s.maxPlacementSlope {
      return None;
    }
    var d := draw(row, col);
    if RangeFloat(0.0, 1.0, d.gate) < s.density {
      var jitterX := Normalised(x + RangeFloat(-2.5, 2.5, d.jitterX), t.size.x);
      var jitterZ := Normalised(y + RangeFloat(-2.5, 2.5, d.jitterZ), t.size.z);
      tree := Some(TreeInstance(Vec3(jitterX, 0.0, jitterZ), RangeInt(t.prototypeCount, d.prototype),
                                RangeFloat(0.8, 1.5, d.widthScale), RangeFloat(0.8, 1.5, d.heightScale)));
    } else {
      tree := None;
    }
  }

  /** One row of the `PlaceTrees` scan. */
  method ScanRow(t: Terrain, s: Settings, draw: (nat, nat) -> TreeDraw, row: nat, cols: nat)
    returns (trees: seq<TreeInstance>)
    requires t.size.x > 0.0 && t.size.z > 0.0
    ensures trees == RowScan(Cells(t, s, draw), row, cols)
  {
    trees := [];
    ghost var cell := Cells(t, s, draw);
    for col := 0 to cols
      invariant trees == RowScan(cell, row, col)
    {
      var tree := VisitPoint(t, s, draw, row, col);
      assert tree == cell(row, col);
      if tree.Some? {
        trees := trees + [tree.value];
      }
    }
  }

  /** The nested loops of `PlaceTrees`: rows along z, points along x, 5 units apart. */
  method ScanLattice(t: Terrain, s: Settings, draw: (nat, nat) -> TreeDraw) returns (trees: seq<TreeInstance>)
    ensures trees == PlacedTrees(t, s, draw)
  {
    trees := [];
    var rows := LatticeCount(t.size.z, LatticeStep);
    var cols := LatticeCount(t.size.x, LatticeStep);
    ghost var cell := Cells(t, s, draw);
    if rows == 0 || cols == 0 {
      assert Scan(cell, rows, cols) == [] by {
        ScanFrom(cell, rows, cols);
      }
      return;
    }
    for row := 0 to rows
      invariant trees == Scan(cell, row, cols)
    {
      var rowTrees := ScanRow(t, s, draw, row, cols);
      trees := trees + rowTrees;
    }
  }

  /**
    `PlaceTrees`. `terrainData` holds the prototype count and the tree list; a
    terrain without prototypes is left untouched, and otherwise its trees are
    replaced by those of the lattice scan.
   */
  method PlaceTrees(terrainData: TerrainData, heightAt: (real, real) -> real, steepnessAt: (real, real) -> real,
                    s: Settings, draw: (nat, nat) -> TreeDraw)
    modifies terrainData
    ensures terrainData.treePrototypeCount == old(terrainData.treePrototypeCount)
    ensures old(terrainData.treePrototypeCount) == 0 ==> terrainData.treeInstances == old(terrainData.treeInstances)
    ensures old(terrainData.treePrototypeCount) > 0 ==>
              terrainData.treeInstances ==
                PlacedTrees(Terrain(terrainData.size, terrainData.treePrototypeCount, heightAt, steepnessAt), s, draw)
  {
    var prototypeCount := terrainData.treePrototypeCount;
    if prototypeCount == 0 {
      return;
    }
    var t := Terrain(terrainData.size, prototypeCount, heightAt, steepnessAt);
    var treeInstances := ScanLattice(t, s, draw);
    terrainData.SetTreeInstances(treeInstances);
  }

  /** `ClearTrees`: a present terrain is left with no trees. */
  method ClearTrees(terrainData: TerrainData?)
    modifies terrainData
    ensures terrainData != null ==> terrainData.treeInstances == []
    ensures terrainData != null ==> terrainData.treePrototypeCount == old(terrainData.treePrototypeCount)
  {
    if terrainData != null {
      terrainData.SetTreeInstances([]);
    }
  }
}
