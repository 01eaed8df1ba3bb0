/**
  `ObjectGenerator`: clears what an earlier run placed, then scans a 5-unit
  lattice for trees under the forest mask and a `houseGridSize` lattice for
  houses under the town mask.
 */
module ObjectGenerator {
  import opened Common
  import opened Trees
  import opened Scene

  datatype TreeSettings = TreeSettings(treePrefabCount: nat, treePlacementThreshold: real, treeDensity: real)

  datatype HouseSettings = HouseSettings(housePrefabCount: nat, housePlacementThreshold: real, houseGridSize: real)

  /** The draws a tree lattice point consumes: the density draw, the prototype and the two scales. */
  datatype TreeDraw = TreeDraw(gate: real, prototype: nat, widthScale: real, heightScale: real)

  /** The draws a house lattice point consumes: two jitters, the prefab and the yaw. */
  datatype HouseDraw = HouseDraw(jitterX: real, jitterY: real, prefab: nat, yaw: nat)

  /** An instantiated house: world position, prefab index and yaw in whole degrees. */
  datatype House = House(position: Vec3, prefabIndex: nat, yaw: nat)

  // ---------------------------------------------------------------------------
  // Trees
  // ---------------------------------------------------------------------------

  /**
    Tree lattice point `(col, row)`. `forestAt` is the red channel of
    `forestMask.GetPixelBilinear` at normalised coordinates.
   */
  function TreeCell(size: Vec3, forestAt: (real, real) -> real, s: TreeSettings, draw: (nat, nat) -> TreeDraw,
                    row: nat, col: nat): Option<TreeInstance>
    requires size.x > 0.0 && size.z > 0.0
  {
    var normalizedX, normalizedY := Normalised(Coord(col), size.x), Normalised(Coord(row), size.z);
    if forestAt(normalizedX, normalizedY) > s.treePlacementThreshold then
      var d := draw(row, col);
      if RangeFloat(0.0, 1.0, d.gate) < s.treeDensity then
        Some(TreeInstance(Vec3(normalizedX, 0.0, normalizedY), RangeInt(s.treePrefabCount, d.prototype),
                          RangeFloat(0.8, 1.2, d.widthScale), RangeFloat(0.8, 1.2, d.heightScale)))
      else None
    else None
  }

  function TreeCells(size: Vec3, forestAt: (real, real) -> real, s: TreeSettings, draw: (nat, nat) -> TreeDraw)
    : (nat, nat) -> Option<TreeInstance>
  {
    (row: nat, col: nat) => if size.x > 0.0 && size.z > 0.0 then TreeCell(size, forestAt, s, draw, row, col) else None
  }

  /** The trees of the whole 5-unit scan, rows along z and points along x. */
  function LatticeTrees(size: Vec3, forestAt: (real, real) -> real, s: TreeSettings, draw: (nat, nat) -> TreeDraw)
    : seq<TreeInstance>
  {
    Scan(TreeCells(size, forestAt, s, draw), LatticeCount(size.z, LatticeStep), LatticeCount(size.x, LatticeStep))
  }

  /** `tree` stands exactly on lattice point `(col, row)` of the terrain, under the forest mask, with its ranges. */
  predicate TreeAt(size: Vec3, forestAt: (real, real) -> real, s: TreeSettings, row: nat, col: nat, tree: TreeInstance)
    requires size.x > 0.0 && size.z > 0.0
  {
    && Coord(col) < size.x && Coord(row) < size.z
    && tree.position == Vec3(Normalised(Coord(col), size.x), 0.0, Normalised(Coord(row), size.z))
    && 0.0 <= tree.position.x < 1.0 && 0.0 <= tree.position.z < 1.0
    && forestAt(tree.position.x, tree.position.z) > s.treePlacementThreshold
    && (s.treePrefabCount > 0 ==> tree.prototypeIndex < s.treePrefabCount)
    && 0.8 <= tree.widthScale <= 1.2 && 0.8 <= tree.heightScale <= 1.2
  }

  ghost predicate TreeAtSomePoint(size: Vec3, forestAt: (real, real) -> real, s: TreeSettings, tree: TreeInstance)
    requires size.x > 0.0 && size.z > 0.0
  {
    exists row: nat, col: nat :: TreeAt(size, forestAt, s, row, col, tree)
  }

  /** Tree `k` stands on lattice point `sites[k]`, and the points strictly increase in scan order. */
  ghost predicate TreesAtSites(size: Vec3, forestAt: (real, real) -> real, s: TreeSettings,
                               trees: seq<TreeInstance>, sites: seq<Site>)
    requires size.x > 0.0 && size.z > 0.0
  {
    && |sites| == |trees|
    && (forall k :: 0 <= k < |trees| ==> TreeAt(size, forestAt, s, sites[k].row, sites[k].col, trees[k]))
    && (forall i, j :: 0 <= i < j < |sites| ==> SiteBefore(sites[i], sites[j]))
  }

  /**
    Every tree stands on a lattice point of the terrain whose forest value
    exceeds the threshold, with a prototype inside the prefab array and scales
    in [0.8, 1.2]; tree `k` comes from the `k`-th yielding point in scan order
    (`Sites`), so there is at most one tree per point.
   */
  lemma LatticeTreesFrom(size: Vec3, forestAt: (real, real) -> real, s: TreeSettings, draw: (nat, nat) -> TreeDraw)
    ensures |LatticeTrees(size, forestAt, s, draw)| <= LatticeCount(size.z, LatticeStep) * LatticeCount(size.x, LatticeStep)
    ensures !(size.x > 0.0 && size.z > 0.0) ==> LatticeTrees(size, forestAt, s, draw) == []
    ensures size.x > 0.0 && size.z > 0.0 ==>
              forall k :: 0 <= k < |LatticeTrees(size, forestAt, s, draw)| ==>
                TreeAtSomePoint(size, forestAt, s, LatticeTrees(size, forestAt, s, draw)[k])
    ensures size.x > 0.0 && size.z > 0.0 ==>
              TreesAtSites(size, forestAt, s, LatticeTrees(size, forestAt, s, draw),
                           Sites(TreeCells(size, forestAt, s, draw), LatticeCount(size.z, LatticeStep), LatticeCount(size.x, LatticeStep)))
  {
    var cell := TreeCells(size, forestAt, s, draw);
    var rows, cols := LatticeCount(size.z, LatticeStep), LatticeCount(size.x, LatticeStep);
    var trees := LatticeTrees(size, forestAt, s, draw);
    ScanFrom(cell, rows, cols);
    if !(size.x > 0.0 && size.z > 0.0) {
      assert rows == 0 || cols == 0;
      assert |trees| <= rows * cols == 0;
    } else {
      var sites := Sites(cell, rows, cols);
      forall k | 0 <= k < |trees|
        ensures TreeAt(size, forestAt, s, sites[k].row, sites[k].col, trees[k])
        ensures TreeAtSomePoint(size, forestAt, s, trees[k])
      {
        var row, col := sites[k].row, sites[k].col;
        assert row < rows && col < cols && cell(row, col) == Some(trees[k]);
        LatticeCountExact(size.z, LatticeStep, row);
        LatticeCountExact(size.x, LatticeStep, col);
        NormalisedUnit(Coord(col), size.x);
        NormalisedUnit(Coord(row), size.z);
        assert TreeCell(size, forestAt, s, draw, row, col) == Some(trees[k]);
        assert TreeAt(size, forestAt, s, row, col, trees[k]);
      }
    }
  }

  /** Every lattice point whose forest value and density draw pass has its tree in the list. */
  lemma LatticeTreesComplete(size: Vec3, forestAt: (real, real) -> real, s: TreeSettings, draw: (nat, nat) -> TreeDraw,
                             row: nat, col: nat)
    requires size.x > 0.0 && size.z > 0.0
    requires Coord(col) < size.x && Coord(row) < size.z
    requires TreeCell(size, forestAt, s, draw, row, col).Some?
    ensures TreeCell(size, forestAt, s, draw, row, col).value in LatticeTrees(size, forestAt, s, draw)
  {
    LatticeCountExact(size.z, LatticeStep, row);
    LatticeCountExact(size.x, LatticeStep, col);
    ScanComplete(TreeCells(size, forestAt, s, draw), LatticeCount(size.z, LatticeStep),
                 LatticeCount(size.x, LatticeStep), row, col);
  }

  /** One tree lattice point. */
  method VisitTreePoint(size: Vec3, forestAt: (real, real) -> real, s: TreeSettings, draw: (nat, nat) -> TreeDraw,
                        row: nat, col: nat) returns (tree: Option<TreeInstance>)
    requires size.x > 0.0 && size.z > 0.0
    ensures tree == TreeCell(size, forestAt, s, draw, row, col)
  {
    var normalizedX := Normalised(Coord(col), size.x);
    var normalizedY := Normalised(Coord(row), size.z);
    tree := None;
    if forestAt(normalizedX, normalizedY) > s.treePlacementThreshold {
      var d := draw(row, col);
      if RangeFloat(0.0, 1.0, d.gate) < s.treeDensity {
        tree := Some(TreeInstance(Vec3(normalizedX, 0.0, normalizedY), RangeInt(s.treePrefabCount, d.prototype),
                                  RangeFloat(0.8, 1.2, d.widthScale), RangeFloat(0.8, 1.2, d.heightScale)));
      }
    }
  }

  /** One row of the `PlaceTrees` scan. */
  method ScanTreeRow(size: Vec3, forestAt: (real, real) -> real, s: TreeSettings, draw: (nat, nat) -> TreeDraw,
                     row: nat, cols: nat) returns (trees: seq<TreeInstance>)
    requires size.x > 0.0 && size.z > 0.0
    ensures trees == RowScan(TreeCells(size, forestAt, s, draw), row, cols)
  {
    trees := [];
    ghost var cell := TreeCells(size, forestAt, s, draw);
    for col := 0 to cols
      invariant trees == RowScan(cell, row, col)
    {
      var tree := VisitTreePoint(size, forestAt, s, draw, row, col);
      assert tree == cell(row, col);
      if tree.Some? {
        trees := trees + [tree.value];
      }
    }
  }

  /** The nested loops of `PlaceTrees`. */
  method ScanTrees(size: Vec3, forestAt: (real, real) -> real, s: TreeSettings, draw: (nat, nat) -> TreeDraw)
    returns (trees: seq<TreeInstance>)
    ensures trees == LatticeTrees(size, forestAt, s, draw)
  {
    trees := [];
    var rows := LatticeCount(size.z, LatticeStep);
    var cols := LatticeCount(size.x, LatticeStep);
    ghost var cell := TreeCells(size, forestAt, s, draw);
    if rows == 0 || cols == 0 {
      assert Scan(cell, rows, cols) == [] by {
        ScanFrom(cell, rows, cols);
      }
      return;
    }
    for row := 0 to rows
      invariant trees == Scan(cell, row, cols)
    {
      var rowTrees := ScanTreeRow(size, forestAt, s, draw, row, cols);
      trees := trees + rowTrees;
    }
  }

  /**
    `PlaceTrees`: one prototype per prefab is registered when there are
    prefabs, and the terrain's trees are replaced by the scan's.
   */
  method PlaceTrees(terrainData: TerrainData, forestAt: (real, real) -> real, s: TreeSettings,
                    draw: (nat, nat) -> TreeDraw)
    modifies terrainData
    ensures terrainData.treePrototypeCount ==
              if s.treePrefabCount > 0 then s.treePrefabCount else old(terrainData.treePrototypeCount)
    ensures terrainData.treeInstances == LatticeTrees(terrainData.size, forestAt, s, draw)
  {
    if s.treePrefabCount > 0 {
      terrainData.SetTreePrototypes(s.treePrefabCount);
    }
    var treeInstances := ScanTrees(terrainData.size, forestAt, s, draw);
    terrainData.SetTreeInstances(treeInstances);
  }

  // ---------------------------------------------------------------------------
  // Houses
  // ---------------------------------------------------------------------------

  /** The world coordinate of house lattice index `k`. */
  function GridCoord(k: nat, gridSize: real): (v: real)
    requires gridSize > 0.0
    ensures v >= 0.0
  {
    MulNonneg(k as real, gridSize);
    k as real * gridSize
  }

  /**
    House lattice point `(col, row)`. `townAt` is the red channel of
    `townMask.GetPixelBilinear`; `sampleHeight` is `Terrain.SampleHeight` at a
    world `(x, z)`.
   */
  function HouseCell(size: Vec3, townAt: (real, real) -> real, sampleHeight: (real, real) -> real, s: HouseSettings,
                     draw: (nat, nat) -> HouseDraw, row: nat, col: nat): Option<House>
    requires size.x > 0.0 && size.z > 0.0 && s.houseGridSize > 0.0
  {
    var x, y := GridCoord(col, s.houseGridSize), GridCoord(row, s.houseGridSize);
    if townAt(Normalised(x, size.x), Normalised(y, size.z)) > s.housePlacementThreshold then
      var d := draw(row, col);
      var half := s.houseGridSize / 2.0;
      var jitterX := x + RangeFloat(-half, half, d.jitterX);
      var jitterY := y + RangeFloat(-half, half, d.jitterY);
      Some(House(Vec3(jitterX, sampleHeight(jitterX, jitterY), jitterY), RangeInt(s.housePrefabCount, d.prefab),
                 RangeInt(360, d.yaw)))
    else None
  }

  function HouseCells(size: Vec3, townAt: (real, real) -> real, sampleHeight: (real, real) -> real, s: HouseSettings,
                      draw: (nat, nat) -> HouseDraw): (nat, nat) -> Option<House>
  {
    (row: nat, col: nat) =>
      if size.x > 0.0 && size.z > 0.0 && s.houseGridSize > 0.0 then HouseCell(size, townAt, sampleHeight, s, draw, row, col)
      else None
  }

  /**
    `PlaceHouses` ends: without prefabs it returns at once, and when
    `size.z <= 0` the outer loop's condition fails before its first row,
    whatever the grid size; otherwise the lattice loops only advance for a
    positive `houseGridSize`.
   */
  predicate HousesTerminate(size: Vec3, s: HouseSettings)
  {
    s.housePrefabCount == 0 || size.z <= 0.0 || s.houseGridSize > 0.0
  }

  /** The houses of the whole scan; none at all without prefabs or on a terrain of no depth. */
  function LatticeHouses(size: Vec3, townAt: (real, real) -> real, sampleHeight: (real, real) -> real,
                         s: HouseSettings, draw: (nat, nat) -> HouseDraw): seq<House>
    requires HousesTerminate(size, s)
  {
    if s.housePrefabCount == 0 || !(s.houseGridSize > 0.0) then []
    else Scan(HouseCells(size, townAt, sampleHeight, s, draw), LatticeCount(size.z, s.houseGridSize),
              LatticeCount(size.x, s.houseGridSize))
  }

  /**
    `house` comes from lattice point `(col, row)`: the point is on the terrain
    under the town mask, the house is within half a grid cell of it on each
    axis and stands on the terrain, and its prefab and yaw are in range.
   */
  predicate HouseAt(size: Vec3, townAt: (real, real) -> real, sampleHeight: (real, real) -> real, s: HouseSettings,
                    row: nat, col: nat, house: House)
    requires size.x > 0.0 && size.z > 0.0 && s.houseGridSize > 0.0
  {
    var x, y := GridCoord(col, s.houseGridSize), GridCoord(row, s.houseGridSize);
    var half := s.houseGridSize / 2.0;
    var p := house.position;
    && x < size.x && y < size.z
    && townAt(Normalised(x, size.x), Normalised(y, size.z)) > s.housePlacementThreshold
    && x - half <= p.x <= x + half && y - half <= p.z <= y + half
    && p.y == sampleHeight(p.x, p.z)
    && house.prefabIndex < s.housePrefabCount
    && house.yaw < 360
  }

  ghost predicate HouseAtSomePoint(size: Vec3, townAt: (real, real) -> real, sampleHeight: (real, real) -> real,
                                   s: HouseSettings, house: House)
    requires size.x > 0.0 && size.z > 0.0 && s.houseGridSize > 0.0
  {
    exists row: nat, col: nat :: HouseAt(size, townAt, sampleHeight, s, row, col, house)
  }

  /** House `k` stands on lattice point `sites[k]`, and the points strictly increase in scan order. */
  ghost predicate HousesAtSites(size: Vec3, townAt: (real, real) -> real, sampleHeight: (real, real) -> real,
                                s: HouseSettings, houses: seq<House>, sites: seq<Site>)
    requires size.x > 0.0 && size.z > 0.0 && s.houseGridSize > 0.0
  {
    && |sites| == |houses|
    && (forall k :: 0 <= k < |houses| ==> HouseAt(size, townAt, sampleHeight, s, sites[k].row, sites[k].col, houses[k]))
    && (forall i, j :: 0 <= i < j < |sites| ==> SiteBefore(sites[i], sites[j]))
  }

  /**
    Every house comes from a lattice point under the town mask, with its
    ranges; house `k` comes from the `k`-th yielding point in scan order
    (`Sites`), so there is at most one house per point.
   */
  lemma LatticeHousesFrom(size: Vec3, townAt: (real, real) -> real, sampleHeight: (real, real) -> real,
                          s: HouseSettings, draw: (nat, nat) -> HouseDraw)
    requires s.houseGridSize > 0.0
    ensures |LatticeHouses(size, townAt, sampleHeight, s, draw)| <=
              LatticeCount(size.z, s.houseGridSize) * LatticeCount(size.x, s.houseGridSize)
    ensures !(size.x > 0.0 && size.z > 0.0) || s.housePrefabCount == 0 ==>
              LatticeHouses(size, townAt, sampleHeight, s, draw) == []
    ensures size.x > 0.0 && size.z > 0.0 ==>
              forall k :: 0 <= k < |LatticeHouses(size, townAt, sampleHeight, s, draw)| ==>
                HouseAtSomePoint(size, townAt, sampleHeight, s, LatticeHouses(size, townAt, sampleHeight, s, draw)[k])
    ensures size.x > 0.0 && size.z > 0.0 && s.housePrefabCount > 0 ==>
              HousesAtSites(size, townAt, sampleHeight, s, LatticeHouses(size, townAt, sampleHeight, s, draw),
                            Sites(HouseCells(size, townAt, sampleHeight, s, draw),
                                  LatticeCount(size.z, s.houseGridSize), LatticeCount(size.x, s.houseGridSize)))
  {
    var cell := HouseCells(size, townAt, sampleHeight, s, draw);
    var rows, cols := LatticeCount(size.z, s.houseGridSize), LatticeCount(size.x, s.houseGridSize);
    var houses := LatticeHouses(size, townAt, sampleHeight, s, draw);
    ScanFrom(cell, rows, cols);
    if s.housePrefabCount == 0 {
    } else if !(size.x > 0.0 && size.z > 0.0) {
      assert rows == 0 || cols == 0;
      assert |houses| <= rows * cols == 0;
    } else {
      var sites := Sites(cell, rows, cols);
      forall k | 0 <= k < |houses|
        ensures HouseAt(size, townAt, sampleHeight, s, sites[k].row, sites[k].col, houses[k])
        ensures HouseAtSomePoint(size, townAt, sampleHeight, s, houses[k])
      {
        var row, col := sites[k].row, sites[k].col;
        assert row < rows && col < cols && cell(row, col) == Some(houses[k]);
        HouseCellAt(size, townAt, sampleHeight, s, draw, row, col);
        assert HouseCell(size, townAt, sampleHeight, s, draw, row, col) == Some(houses[k]);
        assert HouseAt(size, townAt, sampleHeight, s, row, col, houses[k]);
      }
    }
  }

  /** The properties of the house one lattice point produces. */
  lemma HouseCellAt(size: Vec3, townAt: (real, real) -> real, sampleHeight: (real, real) -> real, s: HouseSettings,
                    draw: (nat, nat) -> HouseDraw, row: nat, col: nat)
    requires size.x > 0.0 && size.z > 0.0 && s.houseGridSize > 0.0 && s.housePrefabCount > 0
    requires row < LatticeCount(size.z, s.houseGridSize) && col < LatticeCount(size.x, s.houseGridSize)
    ensures HouseCell(size, townAt, sampleHeight, s, draw, row, col).Some? ==>
              HouseAt(size, townAt, sampleHeight, s, row, col, HouseCell(size, townAt, sampleHeight, s, draw, row, col).value)
  {
    LatticeCountExact(size.z, s.houseGridSize, row);
    LatticeCountExact(size.x, s.houseGridSize, col);
  }

  /** Every lattice point under the town mask has its house in the list when there are prefabs. */
  lemma LatticeHousesComplete(size: Vec3, townAt: (real, real) -> real, sampleHeight: (real, real) -> real,
                              s: HouseSettings, draw: (nat, nat) -> HouseDraw, row: nat, col: nat)
    requires size.x > 0.0 && size.z > 0.0 && s.houseGridSize > 0.0 && s.housePrefabCount > 0
    requires GridCoord(col, s.houseGridSize) < size.x && GridCoord(row, s.houseGridSize) < size.z
    requires HouseCell(size, townAt, sampleHeight, s, draw, row, col).Some?
    ensures HouseCell(size, townAt, sampleHeight, s, draw, row, col).value in LatticeHouses(size, townAt, sampleHeight, s, draw)
  {
    LatticeCountExact(size.z, s.houseGridSize, row);
    LatticeCountExact(size.x, s.houseGridSize, col);
    ScanComplete(HouseCells(size, townAt, sampleHeight, s, draw), LatticeCount(size.z, s.houseGridSize),
                 LatticeCount(size.x, s.houseGridSize), row, col);
  }

  /** One house lattice point. */
  method VisitHousePoint(size: Vec3, townAt: (real, real) -> real, sampleHeight: (real, real) -> real,
                         s: HouseSettings, draw: (nat, nat) -> HouseDraw, row: nat, col: nat) returns (house: Option<House>)
    requires size.x > 0.0 && size.z > 0.0 && s.houseGridSize > 0.0
    ensures house == HouseCell(size, townAt, sampleHeight, s, draw, row, col)
  {
    var x, y := GridCoord(col, s.houseGridSize), GridCoord(row, s.houseGridSize);
    house := None;
    if townAt(Normalised(x, size.x), Normalised(y, size.z)) > s.housePlacementThreshold {
      var d := draw(row, col);
      var half := s.houseGridSize / 2.0;
      var jitterX := x + RangeFloat(-half, half, d.jitterX);
      var jitterY := y + RangeFloat(-half, half, d.jitterY);
      var position := Vec3(jitterX, 0.0, jitterY);
      position := position.(y := sampleHeight(position.x, position.z));
      house := Some(House(position, RangeInt(s.housePrefabCount, d.prefab), RangeInt(360, d.yaw)));
    }
  }

  /** One row of the `PlaceHouses` scan. */
  method ScanHouseRow(size: Vec3, townAt: (real, real) -> real, sampleHeight: (real, real) -> real,
                      s: HouseSettings, draw: (nat, nat) -> HouseDraw, row: nat, cols: nat) returns (houses: seq<House>)
    requires size.x > 0.0 && size.z > 0.0 && s.houseGridSize > 0.0
    ensures houses == RowScan(HouseCells(size, townAt, sampleHeight, s, draw), row, cols)
  {
    houses := [];
    ghost var cell := HouseCells(size, townAt, sampleHeight, s, draw);
    for col := 0 to cols
      invariant houses == RowScan(cell, row, col)
    {
      var house := VisitHousePoint(size, townAt, sampleHeight, s, draw, row, col);
      assert house == cell(row, col);
      if house.Some? {
        houses := houses + [house.value];
      }
    }
  }

  /** The nested loops of `PlaceHouses`, returning the instantiated houses in order. */
  method ScanHouses(size: Vec3, townAt: (real, real) -> real, sampleHeight: (real, real) -> real, s: HouseSettings,
                    draw: (nat, nat) -> HouseDraw) returns (houses: seq<House>)
    requires size.z <= 0.0 || s.houseGridSize > 0.0
    ensures s.houseGridSize > 0.0 ==>
              houses == Scan(HouseCells(size, townAt, sampleHeight, s, draw), LatticeCount(size.z, s.houseGridSize),
                             LatticeCount(size.x, s.houseGridSize))
    ensures size.z <= 0.0 ==> houses == []
  {
    houses := [];
    if size.z <= 0.0 {
      // `y < size.z` already fails for `y = 0`.
      return;
    }
    var rows := LatticeCount(size.z, s.houseGridSize);
    var cols := LatticeCount(size.x, s.houseGridSize);
    ghost var cell := HouseCells(size, townAt, sampleHeight, s, draw);
    if rows == 0 || cols == 0 {
      assert Scan(cell, rows, cols) == [] by {
        ScanFrom(cell, rows, cols);
      }
      return;
    }
    for row := 0 to rows
      invariant houses == Scan(cell, row, cols)
    {
      var rowHouses := ScanHouseRow(size, townAt, sampleHeight, s, draw, row, cols);
      houses := houses + rowHouses;
    }
  }

  /**
    `PlaceHouses`: nothing without prefabs; otherwise every house the scan
    instantiates, and with a parent they are appended to its children.
   */
  method PlaceHouses(parent: Transform?<House>, size: Vec3, townAt: (real, real) -> real, sampleHeight: (real, real) -> real,
                     s: HouseSettings, draw: (nat, nat) -> HouseDraw) returns (houses: seq<House>)
    requires HousesTerminate(size, s)
    modifies parent
    ensures houses == LatticeHouses(size, townAt, sampleHeight, s, draw)
    ensures parent != null ==> parent.children == old(parent.children) + houses
    ensures s.housePrefabCount == 0 || size.z <= 0.0 ==>
              houses == [] && (parent != null ==> parent.children == old(parent.children))
  {
    if s.housePrefabCount == 0 {
      return [];
    }
    houses := ScanHouses(size, townAt, sampleHeight, s, draw);
    if parent != null {
      ghost var before := parent.children;
      for k := 0 to |houses|
        invariant parent.children == before + houses[..k]
      {
        parent.Adopt(houses[k]);
      }
    }
  }

  // ---------------------------------------------------------------------------
  // Clearing and the whole run
  // ---------------------------------------------------------------------------

  /** `ClearPreviousObjects`: the terrain loses its trees and the parent its children, where present. */
  method ClearPreviousObjects(terrainData: TerrainData?, parent: Transform?<House>)
    modifies terrainData, parent
    ensures terrainData != null ==>
              terrainData.treeInstances == [] && terrainData.treePrototypeCount == old(terrainData.treePrototypeCount)
    ensures parent != null ==> parent.children == []
  {
    if terrainData != null {
      terrainData.SetTreeInstances([]);
    }
    if parent != null {
      parent.DestroyChildren();
    }
  }

  /**
    `PlaceObjects`: after it the terrain holds exactly the scanned trees and
    the parent exactly the scanned houses; nothing from an earlier run is left.
   */
  method PlaceObjects(terrainData: TerrainData, parent: Transform?<House>, forestAt: (real, real) -> real,
                      townAt: (real, real) -> real, sampleHeight: (real, real) -> real, trees: TreeSettings,
                      houses: HouseSettings, treeDraw: (nat, nat) -> TreeDraw, houseDraw: (nat, nat) -> HouseDraw)
    returns (placed: seq<House>)
    requires HousesTerminate(terrainData.size, houses)
    modifies terrainData, parent
    ensures terrainData.treePrototypeCount ==
              if trees.treePrefabCount > 0 then trees.treePrefabCount else old(terrainData.treePrototypeCount)
    ensures terrainData.treeInstances == LatticeTrees(terrainData.size, forestAt, trees, treeDraw)
    ensures placed == LatticeHouses(terrainData.size, townAt, sampleHeight, houses, houseDraw)
    ensures parent != null ==> parent.children == placed
  {
    ClearPreviousObjects(terrainData, parent);
    PlaceTrees(terrainData, forestAt, trees, treeDraw);
    placed := PlaceHouses(parent, terrainData.size, townAt, sampleHeight, houses, houseDraw);
  }
}
