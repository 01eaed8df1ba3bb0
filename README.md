# A verified model of a terrain and settlement generator

This project models, in Dafny, the algorithmic core of a Unity generator for a Japanese countryside map. The generator builds a heightmap and a terrain mesh, lays out roads, a river network and land-use zones, and scatters trees, houses, fields and rice paddies over the result. Almost every C# script mixes engine calls with plain logic on grids, lists and counters. The model keeps that logic. It turns every engine service, random draw and noise sample into a supplied function or value, and proves what each script promises about its output.

Modules follow the scripts:

- `Common`: Unity's `Mathf.Clamp`, `Clamp01`, `Lerp` (with `t` clamped), `CeilToInt`/`FloorToInt`, C#'s truncating `(int)` cast and integer `/`, and `Random.Range` written over a supplied draw. A square root is a supplied function constrained by `IsSqrt`.
- `Pathfinder`: the slope-aware A\* search of `PathNode.cs`. `PathNode` is a class whose cost and parent fields the search updates in place over an `array2` grid.
- `RiverNodes`, `Sorting`, `UnionFind`, `RiverNetwork`, `RiverTree`, `RiverFlow`, `RiverDraw` and `RiverMask` together model `YatoTerrainFromHeightmap.GenerateRiverMask`:
  - `RiverNodes`: the valid cells, the mouth and the tributaries drawn without replacement.
  - `Sorting` and `UnionFind`: the stable sort, and the path-compressing union-find class.
  - `RiverNetwork`: the complete graph, Kruskal's spanning tree and the adjacency lists.
  - `RiverTree`: the breadth-first parent map.
  - `RiverFlow`: the subtree flow and the downstream end of each edge.
  - `RiverDraw`: the radial stamp of `DrawRiverOnMap`.
  - `RiverMask`: the whole method with its early returns.
- `Heightmap`: octave normalisation, plateau blending and the road brush of `HeightMapGenerator.cs`.
- `RoadGenerator`: node rejection sampling, all-pairs line sampling and the square flatten stamp.
- `Zones` and `MaskCombiner`: the forest/rice/town classifier and the thresholded OR of two masks.
- `Settlements`: the parts shared by the two house placers, namely road points, nearest-point queries, the perpendicular offset, spacing checks, and the attempt loop as a fold `Settle`.
- `PlaceHouses`, `OrganicSettlement` and `RicePaddy`: the three placer classes, with their fields as class fields.
- `Trees`, `HighElevationTrees`, `ObjectGenerator` and `TerrainGround`: the tree and house lattices and the random tree scatter. `Trees` holds the engine's `TerrainData`, and `Scene` the `Transform` hierarchy.
- `FieldPlacer`: the field attempt loop and the running minimum distance to the road.
- `TerrainMesh`: the vertex, UV and triangle buffers of `TerrainGenerator.GenerateTerrain`.

Floats are modelled as `real` and C# `int` as unbounded `int` (see "Left out"). Each file keeps its own grid index order: `heightMap[x, y]` in the heightmap, path-finding and mesh code, and `[y, x]` in the river and road code. Loops in the source are `while`/`for` loops in methods. Each such method is proved against a specification function (a fold over the lattice, the attempt stream or the node list), and the properties are proved about that function.

## Model

| member | source | states |
|---|---|---|
| Pathfinder.PathNode.constructor | Assets/_Project/Scripts/algorithm/PathNode.cs:11 | a new node has the given coordinates, no parent and zero costs |
| Pathfinder.PathNode.CalculateFCost | Assets/_Project/Scripts/algorithm/PathNode.cs:12 | `fCost` becomes `gCost + hCost`; the other fields keep their values |
| Pathfinder.DistanceBounds | Assets/_Project/Scripts/algorithm/PathNode.cs:76-81 | the octile distance lies between 10 and 14 times the Chebyshev distance, so it is 0 exactly when the cells coincide |
| Pathfinder.DistanceSymmetric | Assets/_Project/Scripts/algorithm/PathNode.cs:76-81 | the octile distance is symmetric |
| Pathfinder.NeighbourDistance | Assets/_Project/Scripts/algorithm/PathNode.cs:76-81 | between 8-neighbours it is 10 for an orthogonal step and 14 for a diagonal one |
| Pathfinder.DistanceTriangle | Assets/_Project/Scripts/algorithm/PathNode.cs:76-81 | the octile distance obeys the triangle inequality |
| Pathfinder.OctileAsMax | Assets/_Project/Scripts/algorithm/PathNode.cs:76-81 | the octile distance is the larger of `10 dx + 4 dy` and `4 dx + 10 dy` |
| Pathfinder.MovementCost | Assets/_Project/Scripts/algorithm/PathNode.cs:63-73 | with a non-negative multiplier the cost is at least the step distance, and it is exactly the distance with multiplier 0 |
| Pathfinder.NeighbourMovementCost | Assets/_Project/Scripts/algorithm/PathNode.cs:63-73 | a move between neighbours costs 10 or 14 plus `abs(h_from - h_to) * multiplier` |
| Pathfinder.HeuristicConsistent | Assets/_Project/Scripts/algorithm/PathNode.cs:63-81 | with a non-negative multiplier the heuristic never drops by more than the cost of a move |
| Pathfinder.NeighbourCoordsPrefix | Assets/_Project/Scripts/algorithm/PathNode.cs:106-114 | a cell is among the first `k` offsets kept exactly when one of those offsets is in bounds and lands on it |
| Pathfinder.NeighbourCoordsExact | Assets/_Project/Scripts/algorithm/PathNode.cs:103-117 | the neighbour list holds exactly the in-bounds cells at Chebyshev distance 1, never the cell itself, each once, at most 8 |
| Pathfinder.NeighbourCoordsDistinct | Assets/_Project/Scripts/algorithm/PathNode.cs:106-114 | the offset loop lists no cell twice, each from an earlier offset |
| Pathfinder.NeighbourKept | Assets/_Project/Scripts/algorithm/PathNode.cs:113 | an in-bounds offset appends its grid node to the list |
| Pathfinder.NeighbourSkipped | Assets/_Project/Scripts/algorithm/PathNode.cs:110-113 | the centre offset and out-of-bounds offsets add nothing |
| Pathfinder.GetNeighbours | Assets/_Project/Scripts/algorithm/PathNode.cs:103-117 | the returned nodes are the grid nodes of the in-bounds neighbour cells, in loop order |
| Pathfinder.GetLowestFCostNode | Assets/_Project/Scripts/algorithm/PathNode.cs:96-101 | the result is a member of the list with minimal `fCost`, and every earlier node costs strictly more (the earliest on ties) |
| Pathfinder.Reverse | Assets/_Project/Scripts/algorithm/PathNode.cs:92 | `path.Reverse()`: the same length, element `k` taken from position `length - 1 - k` |
| Pathfinder.RetracePath | Assets/_Project/Scripts/algorithm/PathNode.cs:83-94 | following parent links from the end node and reversing gives a path from the start to the end node whose consecutive cells are 8-neighbours inside the grid |
| Pathfinder.FloodFill | Assets/_Project/Scripts/algorithm/PathNode.cs:103-117 | a set of cells that holds the start and every in-bounds neighbour of its members holds every cell of the grid |
| Pathfinder.FloodFillNodes | Assets/_Project/Scripts/algorithm/PathNode.cs:34-59 | a closed set whose members' neighbours are all closed, with the start in it, holds every grid node, so the open list cannot run dry before the end node is reached |
| Pathfinder.RemoveAt | Assets/_Project/Scripts/algorithm/PathNode.cs:39 | `openList.Remove` on a list without repeats drops exactly the chosen node and keeps the list without repeats |
| Pathfinder.RelaxNeighbour | Assets/_Project/Scripts/algorithm/PathNode.cs:44-56 | a neighbour that is not closed gets `currentNode` as parent with the tentative cost when that cost is lower or the node is not open, and is open afterwards, added once |
| Pathfinder.RelaxNeighbours | Assets/_Project/Scripts/algorithm/PathNode.cs:42-57 | each neighbour that is not closed is relaxed and open afterwards; a closed neighbour is left exactly as it was (never relaxed again); the open list keeps its members and the parent links keep leading back to the start |
| Pathfinder.CloseStep | Assets/_Project/Scripts/algorithm/PathNode.cs:39-40 | moving the chosen node from the open list to the closed set keeps the open list without repeats and the parent links well founded |
| Pathfinder.NeighboursDistinct | Assets/_Project/Scripts/algorithm/PathNode.cs:103-117 | the neighbour nodes are distinct objects, each an 8-neighbour of the cell |
| Pathfinder.ExpandStep | Assets/_Project/Scripts/algorithm/PathNode.cs:39-57 | after a node is expanded, every neighbour of every closed node is open or closed |
| Pathfinder.BuildGrid | Assets/_Project/Scripts/algorithm/PathNode.cs:21-22 | a fresh `width x height` grid with one node per cell, at its coordinates, without a parent |
| Pathfinder.Search | Assets/_Project/Scripts/algorithm/PathNode.cs:27-59 | the loop always returns a path from the start cell to the end cell whose steps are 8-neighbours inside the grid |
| Pathfinder.FindPath | Assets/_Project/Scripts/algorithm/PathNode.cs:16-60 | `FindPath` returns such a path for every height map and in-bounds start and end cells; it never returns `null` |
| MaskCombiner.CombinePixel | Assets/_Project/Scripts/Mask/MaskCombiner.cs:51-58 | the output pixel is pure white or pure black, and it is white exactly when either input's red channel is above 0.5 |
| MaskCombiner.CombinePixelCommutes | Assets/_Project/Scripts/Mask/MaskCombiner.cs:51 | combining is symmetric in the two masks |
| MaskCombiner.CombineMasks | Assets/_Project/Scripts/Mask/MaskCombiner.cs:17-62 | a missing mask, then a size mismatch, then an unreadable mask are reported in that order; otherwise a fresh mask of the same size whose every pixel is the combination of the two input pixels |
| Zones.ClassifyCases | Assets/_Project/Scripts/Terrain/Generate/TerrainAnalyzer.cs:56-80 | a cell is forest exactly when its height exceeds the threshold; a non-forest cell is rice exactly when its noise is below `riceFieldRatio`, and town otherwise |
| Zones.ClassifyThresholdMonotone | Assets/_Project/Scripts/Terrain/Generate/TerrainAnalyzer.cs:61-64 | a cell that is forest under a higher threshold is forest under any lower one |
| Zones.MaskPixel | Assets/_Project/Scripts/Terrain/Generate/TerrainAnalyzer.cs:82-84 | a mask pixel is white exactly when the cell's zone is the mask's zone, and black otherwise |
| Zones.MasksPartition | Assets/_Project/Scripts/Terrain/Generate/TerrainAnalyzer.cs:56-84 | the three masks of a cell add up to one white pixel: the zones are exclusive and cover the grid |
| Zones.AnalyzeAndGenerateMasks | Assets/_Project/Scripts/Terrain/Generate/TerrainAnalyzer.cs:39-86 | the threshold is the draw from `[minMountainHeight, maxMountainHeight]`, the noise offset lies in `[0, 1000]` squared, and the three fresh `resolution x resolution` masks hold, at every cell, the pixel of that cell's zone |
| Scene.Transform.constructor | Assets/_Project/Scripts/Terrain/Generate/ObjectGenerator.cs:115 | a parent transform starts with exactly the given children |
| Scene.Transform.Adopt | Assets/_Project/Scripts/Terrain/Generate/ObjectGenerator.cs:114-115 | `SetParent` after `Instantiate` appends the new object as the last child and keeps the earlier children |
| Scene.Transform.DestroyChildren | Assets/_Project/Scripts/Terrain/Generate/ObjectGenerator.cs:131-134 | destroying children from the last index down to 0 leaves no child |
| TerrainMesh.VertexIndexBijective | Assets/_Project/Scripts/Generate/TerrainGenerator.cs:42-51 | `y * width + x` maps the grid one-to-one onto `[0, width * height)`, and every index in that range comes from the cell `(k % width, k / width)` |
| TerrainMesh.VertexInGrid | Assets/_Project/Scripts/Generate/TerrainGenerator.cs:51 | an index below `width * height` decodes to a cell of the grid |
| TerrainMesh.VertexAtSample | Assets/_Project/Scripts/Generate/TerrainGenerator.cs:51-53 | the vertex stored at cell `(x, y)`'s index is `(x, heightMap[x, y] * heightMultiplier, y)` |
| TerrainMesh.UvAt | Assets/_Project/Scripts/Generate/TerrainGenerator.cs:54 | every UV component lies in `[0, 1)` |
| TerrainMesh.TriangleEntryAt | Assets/_Project/Scripts/Generate/TerrainGenerator.cs:56-64 | the six entries written for cell `(x, y)` start at `6 * (y * (width - 1) + x)` and are its vertex index plus the corner offsets `0, width, 1, 1, width, width + 1` |
| TerrainMesh.CellInRange | Assets/_Project/Scripts/Generate/TerrainGenerator.cs:56-63 | for a cell with a quad, the cell number fits in `(width - 1) * (height - 1)` and the largest corner index is below `width * height` |
| TerrainMesh.CellsStep | Assets/_Project/Scripts/Generate/TerrainGenerator.cs:47-65 | the number of quads written so far grows by one exactly at cells with `x < width - 1` and `y < height - 1`, and never exceeds `(width - 1) * (height - 1)` |
| TerrainMesh.FinalCounts | Assets/_Project/Scripts/Generate/TerrainGenerator.cs:42-64 | after the loops the vertex counter has reached `width * height` and exactly `(width - 1) * (height - 1) * 6` triangle entries are written |
| TerrainMesh.WriteSample | Assets/_Project/Scripts/Generate/TerrainGenerator.cs:51-54 | writing one cell extends the prefix of correct vertices and UVs by that cell |
| TerrainMesh.WriteCellTriangles | Assets/_Project/Scripts/Generate/TerrainGenerator.cs:56-64 | writing one quad extends the prefix of correct triangle entries by six and changes no other entry |
| TerrainMesh.FillRow | Assets/_Project/Scripts/Generate/TerrainGenerator.cs:49-66 | one pass of the inner loop extends the correct vertex, UV and triangle prefixes over row `y` and advances `triangleIndex` by six per quad of the row |
| TerrainMesh.GenerateTerrain | Assets/_Project/Scripts/Generate/TerrainGenerator.cs:16-67 | a missing material returns before any mesh data; a negative triangle-array size is reported as the exception C# throws; otherwise the fresh arrays have lengths `width * height` and `(width - 1) * (height - 1) * 6`, every vertex and UV is the one of its cell, `triangleIndex` ends at the array length, and every triangle entry is the corner index of its quad and below `width * height` |
| FieldPlacer.ClosestIsMinimum | Assets/_Project/Scripts/Generate/FieldPlacer.cs:62-71 | the closest distance is at most `float.MaxValue` and at most every road point's distance, and it is one of those distances unless it is `float.MaxValue` (always the case for an empty path) |
| FieldPlacer.ClosestWithin | Assets/_Project/Scripts/Generate/FieldPlacer.cs:45-67 | the closest road point is within `r` exactly when some road point is within `r` in squared terms |
| FieldPlacer.GetClosestDistanceToRoad | Assets/_Project/Scripts/Generate/FieldPlacer.cs:62-71 | the running minimum that starts at `float.MaxValue` returns the closest distance |
| FieldPlacer.PlacedStep | Assets/_Project/Scripts/Generate/FieldPlacer.cs:26-59 | one more attempt appends exactly the field that attempt places, if any |
| FieldPlacer.AttemptFiltered | Assets/_Project/Scripts/Generate/FieldPlacer.cs:33-54 | a placed field sits at the raycast hit of its attempt, with slope at most `maxSlope`, within `maxDistanceFromRoad` of the road when the path is non-empty, and a yaw in `[0, 360)` |
| FieldPlacer.PlacedFiltered | Assets/_Project/Scripts/Generate/FieldPlacer.cs:21-59 | after `n` attempts at most `n` fields are placed, and each passed the filters at one of the attempts |
| FieldPlacer.TryPlace | Assets/_Project/Scripts/Generate/FieldPlacer.cs:28-57 | one iteration of the attempt loop places the field its draws and raycast determine, or none |
| FieldPlacer.PlaceFields | Assets/_Project/Scripts/Generate/FieldPlacer.cs:19-60 | no prefab places nothing; otherwise the fields placed are those of the first `placementAttempts` attempts, in order |
| Heightmap.GeometricSumAtLeastOne | Assets/_Project/Scripts/Generate/HeightMapGenerator.cs:181-187 | with a non-negative persistence and at least one octave the normaliser `maxPossibleHeight` is at least 1, so the division at line 207 is well defined |
| Heightmap.GeometricSumClosedForm | Assets/_Project/Scripts/Generate/HeightMapGenerator.cs:181-187 | `(1 - persistence) * maxPossibleHeight == 1 - persistence^octaves` |
| Heightmap.MaxPossibleHeight | Assets/_Project/Scripts/Generate/HeightMapGenerator.cs:181-187 | the first loop accumulates the geometric sum of `persistence^i` over `i < octaves` (zero for a non-positive `octaves`) |
| Heightmap.OctaveNoiseBounded | Assets/_Project/Scripts/Generate/HeightMapGenerator.cs:193-205 | with Perlin values in `[0, 1]` the octave noise lies between minus and plus the geometric sum |
| Heightmap.NormalisedHeightInUnit | Assets/_Project/Scripts/Generate/HeightMapGenerator.cs:197-207 | with Perlin values in `[0, 1]` every normalised height `(noise + max) / (2 * max)` lies in `[0, 1]` |
| Heightmap.NoiseHeight | Assets/_Project/Scripts/Generate/HeightMapGenerator.cs:193-205 | the octave loop for one cell computes the octave noise of that cell |
| Heightmap.GenerateInitialHeightMap | Assets/_Project/Scripts/Generate/HeightMapGenerator.cs:177-212 | a fresh `mapWidth x mapHeight` grid whose every cell holds that cell's normalised height |
| Heightmap.EdgeDistance | Assets/_Project/Scripts/Generate/HeightMapGenerator.cs:75-77 | inside the rectangle the distance to the nearest edge is non-negative |
| Heightmap.BlendProperties | Assets/_Project/Scripts/Generate/HeightMapGenerator.cs:75-84 | an edge cell becomes `area.height`, a cell at least `falloff` from every edge keeps its prior height, and the result always lies between the target and the prior height |
| Heightmap.PlateauedUncovered | Assets/_Project/Scripts/Generate/HeightMapGenerator.cs:66-88 | a cell that no area affects keeps its height through all the areas |
| Heightmap.PlateauedBetween | Assets/_Project/Scripts/Generate/HeightMapGenerator.cs:66-88 | when every area has the same target, the final height lies between that target and the initial height |
| Heightmap.BlendRow | Assets/_Project/Scripts/Generate/HeightMapGenerator.cs:70-86 | one row of an area blends exactly the cells of that row inside both the rectangle and the map and leaves every other cell unchanged |
| Heightmap.ApplyPlateau | Assets/_Project/Scripts/Generate/HeightMapGenerator.cs:68-87 | one area blends exactly the cells inside both its rectangle and the map, each from its prior height, and leaves every other cell unchanged |
| Heightmap.ApplyPlateaus | Assets/_Project/Scripts/Generate/HeightMapGenerator.cs:66-88 | the areas are applied in list order, each to the heights the earlier ones left |
| Heightmap.ShoulderBlend | Assets/_Project/Scripts/Generate/HeightMapGenerator.cs:130-133 | on the shoulder the blend factor lies in `(0, 1]` |
| Heightmap.BrushedColourBrighter | Assets/_Project/Scripts/Generate/HeightMapGenerator.cs:124-145 | the brush never darkens a road-map pixel, keeps it at most white, and makes it white on the core |
| Heightmap.BrushedHeightFixesCentre | Assets/_Project/Scripts/Generate/HeightMapGenerator.cs:124-127 | the brush leaves the path point's own height unchanged, so later cells of the same stamp read the same road height |
| Heightmap.BrushedHeightBetween | Assets/_Project/Scripts/Generate/HeightMapGenerator.cs:124-138 | a brushed height lies between the cell's prior height and the road height |
| Heightmap.InCoreSquared | Assets/_Project/Scripts/Generate/HeightMapGenerator.cs:115-124 | `sqrt(x*x + y*y) <= roadWidth` is the same as the squared comparison |
| Heightmap.BrushCoversShoulder | Assets/_Project/Scripts/Generate/HeightMapGenerator.cs:109-130 | every core and shoulder offset lies inside the `drawRadius` square the loops visit |
| Heightmap.IndexCell | Assets/_Project/Scripts/Generate/HeightMapGenerator.cs:121-146 | the flat index `currentY * mapWidth + currentX` of an in-map cell names that cell back (`CellAt`) |
| Heightmap.CellInMap | Assets/_Project/Scripts/Generate/HeightMapGenerator.cs:100-103 | every index of the `mapWidth * mapHeight` buffer is the index of exactly one map cell |
| Heightmap.RoadColourBrighter | Assets/_Project/Scripts/Generate/HeightMapGenerator.cs:106-149 | stamping more path points never darkens a road colour, which stays in `[0, 1]` |
| Heightmap.RoadColourCore | Assets/_Project/Scripts/Generate/HeightMapGenerator.cs:124-129 | a cell in the core of any path point ends white, whatever later points do |
| Heightmap.RoadHeightUncovered | Assets/_Project/Scripts/Generate/HeightMapGenerator.cs:106-149 | a cell outside the square of every path point keeps its height |
| Heightmap.BrushedBrighter | Assets/_Project/Scripts/Generate/HeightMapGenerator.cs:124-145 | a brushed buffer only gets brighter, stays in `[0, 1]` and is white on every in-map core cell of the brushed offsets |
| Heightmap.PointBrighter | Assets/_Project/Scripts/Generate/HeightMapGenerator.cs:106-149 | the brushed square of one path point only brightens the buffer, keeps it in `[0, 1]` and whitens every in-map cell on that point's core |
| Heightmap.CellBrushed | Assets/_Project/Scripts/Generate/HeightMapGenerator.cs:121-146 | writing the brushed colour at the flat index of the target cell, or nothing when the cell is off the map, is exactly the one-offset brush (`ColoursBrushed`) |
| Heightmap.StampCell | Assets/_Project/Scripts/Generate/HeightMapGenerator.cs:115-147 | one brush offset changes only the in-map cell it targets: its height to `BrushedHeight` from its own and the path point's height, its colour to `BrushedColour` of its old colour; every other height and colour is unchanged; colours stay in `[0, 1]`, never decrease, and a core cell becomes white |
| Heightmap.StampColumn | Assets/_Project/Scripts/Generate/HeightMapGenerator.cs:112-148 | one column of the brush sets exactly the in-map cells of that column within the radius to their brushed height and brushed colour, leaves everything else and the path point's height unchanged, with the same colour guarantees |
| Heightmap.StampPoint | Assets/_Project/Scripts/Generate/HeightMapGenerator.cs:109-149 | one path point sets exactly the in-map cells of its square to their brushed heights, read against the point's height before the stamp, and their brushed colours; everything else is unchanged; colours never decrease and its core cells become white |
| Heightmap.ColourStep | Assets/_Project/Scripts/Generate/HeightMapGenerator.cs:106-149 | stamping path point `n` over the colours of the first `n` points gives the colours of the first `n + 1` (`RoadColour`) |
| Heightmap.StampNext | Assets/_Project/Scripts/Generate/HeightMapGenerator.cs:106-149 | one iteration of the path loop takes the colour buffer and the heights from the fold over the first `n` points to the fold over the first `n + 1` |
| Heightmap.PaintRoad | Assets/_Project/Scripts/Generate/HeightMapGenerator.cs:100-150 | a fresh colour buffer of `mapWidth * mapHeight` entries, index by index equal to `RoadColour` of the path over black, and every height equal to `RoadHeight` of the path over the heights before the pass; hence colours in `[0, 1]`, white on every core cell of every path point, and every cell outside all squares keeps its height |
| Heightmap.RoadPainted | Assets/_Project/Scripts/Generate/HeightMapGenerator.cs:100-150 | the fold equations give colours in `[0, 1]`, white cores and unchanged heights outside every square |
| Heightmap.GenerateRoadMap | Assets/_Project/Scripts/Generate/HeightMapGenerator.cs:90-159 | a road map is made exactly when roads are enabled and a path was found, and it is then the brushed buffer `RoadColour` of the path with the heights at `RoadHeight`; otherwise no height changes |
| RoadGenerator.AcceptedOnMask | Assets/_Project/Scripts/Terrain/Generate/RoadGenerator.cs:47-52 | every accepted node lies on a mask cell with red value at least 0.5 and inside the grid, and there are no more accepted nodes than draws |
| RoadGenerator.AcceptedPrefix | Assets/_Project/Scripts/Terrain/Generate/RoadGenerator.cs:43-53 | the nodes accepted from a prefix of the draws are a prefix of those accepted from all of them |
| RoadGenerator.SampleNodes | Assets/_Project/Scripts/Terrain/Generate/RoadGenerator.cs:42-53 | the node list is the first `numberOfNodes` accepted draws, and it exists exactly when the draws supply that many |
| RoadGenerator.PointsCountZeroIffSame | Assets/_Project/Scripts/Terrain/Generate/RoadGenerator.cs:65 | `pointsCount` is non-negative and zero exactly when the two nodes coincide |
| RoadGenerator.SampleEndpoints | Assets/_Project/Scripts/Terrain/Generate/RoadGenerator.cs:67-71 | for distinct nodes the first sample is the start node and the last is the end node |
| RoadGenerator.SampleInGrid | Assets/_Project/Scripts/Terrain/Generate/RoadGenerator.cs:67-71 | every sample between two in-grid nodes is in the grid |
| RoadGenerator.HalfWidthSymmetric | Assets/_Project/Scripts/Terrain/Generate/RoadGenerator.cs:74-76 | the stamp square runs from `-⌊w⌋ / 2` to `⌊w⌋ / 2` on both axes |
| RoadGenerator.StampedHeightBetween | Assets/_Project/Scripts/Terrain/Generate/RoadGenerator.cs:84-86 | a stamped height lies between the cell's original height and the original height at the sample |
| RoadGenerator.StampCell | Assets/_Project/Scripts/Terrain/Generate/RoadGenerator.cs:78-89 | stamping one in-grid cell sets it to the blend of original heights, paints it, and keeps the stamp invariant |
| RoadGenerator.CentresExtend | Assets/_Project/Scripts/Terrain/Generate/RoadGenerator.cs:78-86 | recording a new covering sample for a cell keeps every recorded centre a sample of the network whose square covers the cell |
| RoadGenerator.StampOffset | Assets/_Project/Scripts/Terrain/Generate/RoadGenerator.cs:76-91 | one `offsetX` step paints the in-grid cell at that offset and keeps the row's painted cells exactly the row prefix |
| RoadGenerator.StampRow | Assets/_Project/Scripts/Terrain/Generate/RoadGenerator.cs:76-91 | one `offsetY` row paints exactly the in-grid cells of that row of the square |
| RoadGenerator.StampSquare | Assets/_Project/Scripts/Terrain/Generate/RoadGenerator.cs:74-92 | one sample paints exactly the in-grid cells of its square |
| RoadGenerator.RasteriseSegment | Assets/_Project/Scripts/Terrain/Generate/RoadGenerator.cs:63-93 | one node pair paints exactly the in-grid cells covered by the squares of its samples |
| RoadGenerator.RasteriseFrom | Assets/_Project/Scripts/Terrain/Generate/RoadGenerator.cs:60-94 | the inner pair loop for node `i` paints every cell covered by a segment from `i` to a later node, and only network cells |
| RoadGenerator.RasteriseNetwork | Assets/_Project/Scripts/Terrain/Generate/RoadGenerator.cs:58-95 | every pair `i < j` is rasterised: the painted cells are exactly the in-grid cells the all-pairs network covers |
| RoadGenerator.CloneHeights | Assets/_Project/Scripts/Terrain/Generate/RoadGenerator.cs:37-38 | the output starts as a fresh copy of the original heights, with nothing painted |
| RoadGenerator.StampedCells | Assets/_Project/Scripts/Terrain/Generate/RoadGenerator.cs:38-89 | an unpainted cell keeps its original height; a painted cell holds the blend toward the original height at some network sample whose square covers it |
| RoadGenerator.GenerateRoads | Assets/_Project/Scripts/Terrain/Generate/RoadGenerator.cs:26-98 | a missing mask is reported; running out of draws is reported exactly when fewer than `numberOfNodes` draws land on the mask; otherwise the nodes are the first accepted draws, the visualiser marks exactly the network's in-grid cells, unpainted cells keep their height and painted cells hold a stamp blend |
| Trees.TerrainData.constructor | Assets/_Project/Scripts/Terrain/Generate/HighElevationTreePlacer.cs:33-34 | the terrain data holds the given size, prototype count and tree list |
| Trees.TerrainData.SetTreeInstances | Assets/_Project/Scripts/Terrain/Generate/HighElevationTreePlacer.cs:74 | the new list replaces every earlier tree and the prototypes are unchanged |
| Trees.TerrainData.SetTreePrototypes | Assets/_Project/Scripts/Terrain/Generate/ObjectGenerator.cs:54-60 | assigning the prototype array sets the prototype count and keeps the trees |
| Trees.LatticeCountExact | Assets/_Project/Scripts/Terrain/Generate/HighElevationTreePlacer.cs:43-45 | the loop `for (v = 0; v < size; v += step)` visits lattice point `k` exactly when `k * step < size` |
| Trees.Coord | Assets/_Project/Scripts/Terrain/Generate/HighElevationTreePlacer.cs:43-45 | every lattice coordinate is non-negative |
| Trees.NormalisedInverse | Assets/_Project/Scripts/Terrain/Generate/HighElevationTreePlacer.cs:47-48 | normalising by the extent can be undone by multiplying by it |
| Trees.NormalisedMonotone | Assets/_Project/Scripts/Terrain/Generate/HighElevationTreePlacer.cs:47-48 | normalising by a positive extent preserves order |
| Trees.NormalisedUnit | Assets/_Project/Scripts/Terrain/Generate/ObjectGenerator.cs:67-68 | a coordinate in `[0, extent)` normalises into `[0, 1)` |
| Trees.NormalisedFraction | Assets/_Project/Scripts/Terrain/Generate/GenarateTerrainGround.cs:94-97 | a coordinate in `(0, extent]` normalises into `(0, 1]` |
| Trees.RowScanFrom | Assets/_Project/Scripts/Terrain/Generate/HighElevationTreePlacer.cs:45-71 | one lattice row of `n` points yields at most `n` entries, each produced by one of its points; entry `k` comes from the `k`-th producing point of the row (`RowSites`), the points strictly left to right, so no point yields two entries |
| Trees.ScanSites | Assets/_Project/Scripts/Terrain/Generate/HighElevationTreePlacer.cs:43-72 | entry `k` of the lattice scan is what the `k`-th producing point in row-major order produced, and those points strictly increase |
| Trees.ScanFrom | Assets/_Project/Scripts/Terrain/Generate/HighElevationTreePlacer.cs:43-72 | a lattice of `rows x cols` points yields at most `rows * cols` entries, each produced by one of its points; entry `k` comes from the `k`-th producing point in row-major order (`Sites`), the points strictly increasing, so no point yields two entries |
| Trees.RowScanComplete | Assets/_Project/Scripts/Terrain/Generate/HighElevationTreePlacer.cs:45-71 | every entry a point of the row produces is in the row's output |
| Trees.ScanComplete | Assets/_Project/Scripts/Terrain/Generate/HighElevationTreePlacer.cs:43-72 | every entry a lattice point produces is in the output |
| HighElevationTrees.CellTreeFrom | Assets/_Project/Scripts/Terrain/Generate/HighElevationTreePlacer.cs:47-69 | a tree from a lattice point comes from a point on the terrain whose height is at least `minPlacementHeight`, whose slope is at most `maxPlacementSlope` and whose density draw is below `density`; it is within 2.5 units of the point on each axis, with a prototype below the count and both scales in `[0.8, 1.5]` |
| HighElevationTrees.PlacedTreesFrom | Assets/_Project/Scripts/Terrain/Generate/HighElevationTreePlacer.cs:41-72 | there are at most as many trees as lattice points, none on an empty terrain, and every tree satisfies the filters at some lattice point; tree `k` satisfies them at the `k`-th yielding point in row-major order, and those points strictly increase, so each lattice point yields at most one tree |
| HighElevationTrees.PlacedTreesComplete | Assets/_Project/Scripts/Terrain/Generate/HighElevationTreePlacer.cs:43-72 | every tree a lattice point produces is in the placed list |
| HighElevationTrees.VisitPoint | Assets/_Project/Scripts/Terrain/Generate/HighElevationTreePlacer.cs:47-70 | the body of the inner loop yields exactly the tree of that lattice point, if any |
| HighElevationTrees.ScanRow | Assets/_Project/Scripts/Terrain/Generate/HighElevationTreePlacer.cs:45-71 | the inner loop yields the trees of its row, in order |
| HighElevationTrees.ScanLattice | Assets/_Project/Scripts/Terrain/Generate/HighElevationTreePlacer.cs:41-72 | the nested loops yield the placed trees, in scan order |
| HighElevationTrees.PlaceTrees | Assets/_Project/Scripts/Terrain/Generate/HighElevationTreePlacer.cs:29-76 | no prototypes leaves the trees unchanged; otherwise the terrain's trees become the placed list; the prototypes are untouched |
| HighElevationTrees.ClearTrees | Assets/_Project/Scripts/Terrain/Generate/HighElevationTreePlacer.cs:87-93 | with a terrain, no tree remains and the prototypes are untouched |
| ObjectGenerator.LatticeTreesFrom | Assets/_Project/Scripts/Terrain/Generate/ObjectGenerator.cs:63-86 | there are at most as many trees as 5-unit lattice points, none on an empty terrain, and each stands exactly on a lattice point whose forest value exceeds `treePlacementThreshold`, at a normalised position in `[0, 1)`, with a prototype index below the prefab count and scales in `[0.8, 1.2]`; tree `k` comes from the `k`-th yielding point in row-major order, and those points strictly increase, so each lattice point yields at most one tree |
| ObjectGenerator.LatticeTreesComplete | Assets/_Project/Scripts/Terrain/Generate/ObjectGenerator.cs:63-86 | every tree a lattice point produces is in the list |
| ObjectGenerator.VisitTreePoint | Assets/_Project/Scripts/Terrain/Generate/ObjectGenerator.cs:67-84 | the body of the inner loop yields exactly the tree of that lattice point, if any |
| ObjectGenerator.ScanTreeRow | Assets/_Project/Scripts/Terrain/Generate/ObjectGenerator.cs:65-85 | the inner loop yields the trees of its row, in order |
| ObjectGenerator.ScanTrees | Assets/_Project/Scripts/Terrain/Generate/ObjectGenerator.cs:63-86 | the nested loops yield the lattice trees, in scan order |
| ObjectGenerator.PlaceTrees | Assets/_Project/Scripts/Terrain/Generate/ObjectGenerator.cs:46-89 | the prototype count becomes the prefab count when there are prefabs and is kept otherwise, and the trees become the lattice trees |
| ObjectGenerator.GridCoord | Assets/_Project/Scripts/Terrain/Generate/ObjectGenerator.cs:96-98 | every house lattice coordinate is non-negative |
| ObjectGenerator.LatticeHousesFrom | Assets/_Project/Scripts/Terrain/Generate/ObjectGenerator.cs:91-120 | there are at most as many houses as lattice points and none without house prefabs or on an empty terrain; each comes from a lattice point whose town value exceeds `housePlacementThreshold`, is jittered by at most `houseGridSize / 2` on each axis, stands on the sampled height, and has a prefab index in range and a yaw in `[0, 360)`; house `k` comes from the `k`-th yielding point in row-major order, and those points strictly increase, so each lattice point yields at most one house |
| ObjectGenerator.HouseCellAt | Assets/_Project/Scripts/Terrain/Generate/ObjectGenerator.cs:100-112 | a house produced by one lattice point satisfies those conditions at that point |
| ObjectGenerator.LatticeHousesComplete | Assets/_Project/Scripts/Terrain/Generate/ObjectGenerator.cs:96-118 | every house a lattice point produces is in the list |
| ObjectGenerator.VisitHousePoint | Assets/_Project/Scripts/Terrain/Generate/ObjectGenerator.cs:100-116 | the body of the inner loop yields exactly the house of that lattice point, if any |
| ObjectGenerator.ScanHouseRow | Assets/_Project/Scripts/Terrain/Generate/ObjectGenerator.cs:98-117 | the inner loop yields the houses of its row, in order |
| ObjectGenerator.ScanHouses | Assets/_Project/Scripts/Terrain/Generate/ObjectGenerator.cs:96-118 | the nested loops yield the houses of the lattice, in scan order; when `size.z <= 0` they yield none, whatever the grid size |
| ObjectGenerator.PlaceHouses | Assets/_Project/Scripts/Terrain/Generate/ObjectGenerator.cs:91-120 | the houses are the lattice houses, appended in order to the parent's children when there is a parent; with no house prefabs, or on a terrain with `size.z <= 0`, nothing is placed and the parent's children are unchanged, whatever the grid size |
| ObjectGenerator.ClearPreviousObjects | Assets/_Project/Scripts/Terrain/Generate/ObjectGenerator.cs:123-136 | the terrain keeps no tree and the parent no child |
| ObjectGenerator.PlaceObjects | Assets/_Project/Scripts/Terrain/Generate/ObjectGenerator.cs:36-44 | after clearing, the terrain holds exactly the lattice trees and the parent exactly the lattice houses |
| TerrainGround.ScaledWithin | Assets/_Project/Scripts/Terrain/Generate/GenarateTerrainGround.cs:80-81 | a unit draw times the resolution lies in `[0, resolution]` |
| TerrainGround.SampleIndex | Assets/_Project/Scripts/Terrain/Generate/GenarateTerrainGround.cs:80-81 | the truncated sample index of a unit draw lies in `[0, resolution]` |
| TerrainGround.AttemptBand | Assets/_Project/Scripts/Terrain/Generate/GenarateTerrainGround.cs:75-109 | an attempt makes a tree exactly when the world height at its sample lies in `[minPlacementHeight, maxPlacementHeight]`, and such a tree has normalised coordinates in `[0, 1]`, a prototype index in range, and equal width and height scales in `[minTreeScale, maxTreeScale]` |
| TerrainGround.GroundTreesFrom | Assets/_Project/Scripts/Terrain/Generate/GenarateTerrainGround.cs:70-110 | at most `treeDensity` trees are made, and every one satisfies those conditions |
| TerrainGround.GroundTreesComplete | Assets/_Project/Scripts/Terrain/Generate/GenarateTerrainGround.cs:72-110 | every tree an attempt makes is in the list |
| TerrainGround.ThrowTrees | Assets/_Project/Scripts/Terrain/Generate/GenarateTerrainGround.cs:70-110 | the attempt loop yields the trees of the first `treeDensity` attempts, in order |
| TerrainGround.GenerateTrees | Assets/_Project/Scripts/Terrain/Generate/GenarateTerrainGround.cs:44-117 | a missing terrain or no prefabs is reported and changes nothing; otherwise the prototypes become the prefabs and the new list replaces every earlier tree |
| TerrainGround.ClearTrees | Assets/_Project/Scripts/Terrain/Generate/GenarateTerrainGround.cs:123-133 | a missing terrain is reported; otherwise no tree remains and the prototypes are untouched |
| Settlements.RoadPointsExact | Assets/_Project/Scripts/Terrain/Generate/PlaceHouses.cs:142-148 | every road point is the world-scaled position of a road-mask pixel with red value above 0.5, and every such pixel contributes its point |
| Settlements.RoadPointsEmpty | Assets/_Project/Scripts/Terrain/Generate/PlaceHouses.cs:149 | the road point list is non-empty exactly when some road-mask pixel is above 0.5 |
| Settlements.CollectRoadRow | Assets/_Project/Scripts/Terrain/Generate/PlaceHouses.cs:143-147 | the inner loop collects the road points of one mask row, in order |
| Settlements.CollectRoadPoints | Assets/_Project/Scripts/Terrain/Generate/PlaceHouses.cs:140-148 | the nested loops collect the road points, row by row |
| Settlements.FirstNearest | Assets/_Project/Scripts/Terrain/Generate/PlaceHouses.cs:79-93 | the earliest point, among the first `n` other than `skip`, whose distance to the query is minimal: `OrderBy` is stable and `First` takes the earliest of equal keys; -1 when there is no such point |
| Settlements.Nearest | Assets/_Project/Scripts/Terrain/Generate/PlaceHouses.cs:79 | `OrderBy(distance).First()` exists exactly for a non-empty list and is a point of minimal distance |
| Settlements.SecondNearest | Assets/_Project/Scripts/Terrain/Generate/PlaceHouses.cs:93 | `OrderBy(distance).Skip(1).First()` exists exactly for two points or more, is not the nearest, and is at distance at most every other point's |
| Settlements.NormalizedUnit | Assets/_Project/Scripts/Terrain/Generate/PlaceHouses.cs:94 | `normalized` gives a unit vector in the same direction when the length exceeds `1e-5`, and the zero vector otherwise |
| Settlements.SideOffsetGeometry | Assets/_Project/Scripts/Terrain/Generate/PlaceHouses.cs:95-99 | the offset from the road point is perpendicular to the direction and has length `offset` times the direction's length |
| Settlements.OffsetFromRoad | Assets/_Project/Scripts/Terrain/Generate/PlaceHouses.cs:93-99 | the candidate is offset perpendicular to the road, at distance exactly `offset` when the neighbour is not at the road point, and at the road point itself otherwise |
| Settlements.OffsetWithin | Assets/_Project/Scripts/Terrain/Generate/PlaceHouses.cs:98-99 | an offset drawn from `[min, max]` places the candidate on the perpendicular to the road; when the neighbour lies farther than `kEpsilon` (1e-5) from the road point and `0 <= min <= max`, the candidate lies at a distance in `[min, max]` from it (otherwise the normalised direction is the zero vector and the candidate is the road point itself) |
| Settlements.MinDistance | Assets/_Project/Scripts/Terrain/Generate/PlaceHouses.cs:102 | `Min` over the road points is at most every point's distance and equal to one of them |
| Settlements.MinDistanceBelow | Assets/_Project/Scripts/Terrain/Generate/PlaceHouses.cs:102-106 | the nearest road point is closer than `r` exactly when some road point is, compared squared |
| Settlements.IsTooClose3 | Assets/_Project/Scripts/Terrain/Generate/OrganicSettlementPlacer.cs:112-122 | the loop with an early return reports a placed position closer than `r` exactly when one exists |
| Settlements.DistanceBelow | Assets/_Project/Scripts/Terrain/Generate/PlaceHouses.cs:115 | a distance below `r` is the squared comparison, in two and in three dimensions |
| Settlements.SpacedAppend | Assets/_Project/Scripts/Terrain/Generate/PlaceHouses.cs:66-70 | appending a position that is not too close to any placed one keeps the placed list pairwise spaced |
| PlaceHouses.FlatCandidates | Assets/_Project/Scripts/Terrain/Generate/PlaceHouses.cs:155-171 | the centre candidates are exactly the road points whose flat-area mask pixel is above 0.5 |
| PlaceHouses.SettlementCentersFromFlatRoad | Assets/_Project/Scripts/Terrain/Generate/PlaceHouses.cs:152-163 | every centre is a road point in the flat area; there are none exactly when `numberOfSettlements <= 0` or no road point is flat, and otherwise exactly `numberOfSettlements` |
| PlaceHouses.PlacementChance | Assets/_Project/Scripts/Terrain/Generate/PlaceHouses.cs:83-87 | the chance lies in `[0, 1]` and is 1 within `coreRadius` |
| PlaceHouses.PlacementChanceLinear | Assets/_Project/Scripts/Terrain/Generate/PlaceHouses.cs:84-87 | between `coreRadius` and `maxRadius` the chance falls linearly and reaches 0 at `maxRadius` |
| PlaceHouses.PlacementChanceAntitone | Assets/_Project/Scripts/Terrain/Generate/PlaceHouses.cs:83-87 | a farther road point never has a higher chance |
| PlaceHouses.DistanceToNearestCenterMin | Assets/_Project/Scripts/Terrain/Generate/PlaceHouses.cs:79-80 | the distance to the nearest centre is at most the distance to every centre |
| PlaceHouses.ShouldPlaceHouseAtRadius | Assets/_Project/Scripts/Terrain/Generate/PlaceHouses.cs:77-89 | a road point farther than `maxRadius` from every centre is always rejected, and within `coreRadius` it is accepted exactly when the draw is below 1 |
| PlaceHouses.CandidateOffset | Assets/_Project/Scripts/Terrain/Generate/PlaceHouses.cs:93-99 | the candidate lies on the perpendicular to the road direction; when the neighbour lies farther than `kEpsilon` (1e-5) from the road point and `0 <= minOffsetFromRoad <= maxOffsetFromRoad`, it lies at a distance in `[minOffsetFromRoad, maxOffsetFromRoad]` from its road point |
| PlaceHouses.PlacementOutcome | Assets/_Project/Scripts/Terrain/Generate/PlaceHouses.cs:91-111 | a single road point has no neighbour (the `First` on an empty sequence throws); a candidate closer than `minOffsetFromRoad / 2` to a road point is rejected; any other candidate is returned at the sampled terrain height |
| PlaceHouses.AttemptGood | Assets/_Project/Scripts/Terrain/Generate/PlaceHouses.cs:57-72 | one iteration adds one attempt and at most one house, and keeps the counts within budget, the houses well placed and the positions spaced |
| PlaceHouses.SettleGood | Assets/_Project/Scripts/Terrain/Generate/PlaceHouses.cs:57-72 | the loop ends with the counts within budget, or by an exception, and only appends to the positions and houses |
| PlaceHouses.SettlementGood | Assets/_Project/Scripts/Terrain/Generate/PlaceHouses.cs:54-72 | at the end `placedHousesCount <= totalHouses` and `attempts <= totalHouses * 20`, one position per house, the positions pairwise at least `minDistanceBetweenHouses` apart, and each house near a centre, offset from its road point as above, not too near the road and on the terrain |
| PlaceHouses.MakeAttempt | Assets/_Project/Scripts/Terrain/Generate/PlaceHouses.cs:60-71 | one iteration of the loop yields the attempt's result: skipped, thrown, or a built house |
| PlaceHouses.SettlementPlacer.constructor | Assets/_Project/Scripts/Terrain/Generate/PlaceHouses.cs:42-43 | a new placer has no road points and no placed positions |
| PlaceHouses.SettlementPlacer.Initialize | Assets/_Project/Scripts/Terrain/Generate/PlaceHouses.cs:132-150 | it succeeds exactly when both masks and a prefab exist and some road pixel is above 0.5; a missing mask or prefab changes nothing, and otherwise the placed positions are cleared and the road points collected |
| PlaceHouses.SettlementPlacer.DetermineSettlementCenters | Assets/_Project/Scripts/Terrain/Generate/PlaceHouses.cs:152-163 | the centres are the draws from the flat road points |
| PlaceHouses.SettlementPlacer.ClearPreviousHouses | Assets/_Project/Scripts/Terrain/Generate/PlaceHouses.cs:174-181 | the parent keeps no child |
| PlaceHouses.SettlementPlacer.PlaceSettlements | Assets/_Project/Scripts/Terrain/Generate/PlaceHouses.cs:46-75 | a failed initialisation is reported exactly when it fails, and leaves the parent's children as they were (and, with a mask or the prefabs missing, the road points and positions too); once initialised the road points are exactly those read off the road mask; no flat centre stops with the parent cleared and no house; otherwise the run is the settlement the loop computes, the placed positions are its positions and the parent holds exactly its houses |
| PlaceHouses.SettlementPlacer.PlaceHousesAlongRoads | Assets/_Project/Scripts/Terrain/Generate/PlaceHouses.cs:54-72 | the `while` loop performs the settlement run, recording each position and parenting each house as it is built |
| OrganicSettlement.Offset | Assets/_Project/Scripts/Terrain/Generate/OrganicSettlementPlacer.cs:109 | the distance from the road is `offsetFromRoad` plus a draw from `[0, 5]` |
| OrganicSettlement.CalculatePlacementPosition | Assets/_Project/Scripts/Terrain/Generate/OrganicSettlementPlacer.cs:102-110 | there is no candidate exactly when the road has fewer than two points (`Skip(1).First()` throws) |
| OrganicSettlement.CandidateOffset | Assets/_Project/Scripts/Terrain/Generate/OrganicSettlementPlacer.cs:104-109 | the candidate lies on the perpendicular to the road direction; when the neighbour lies farther than `kEpsilon` (1e-5) from the road point and `offsetFromRoad >= 0`, it lies at a distance in `[offsetFromRoad, offsetFromRoad + 5]` from its road point |
| OrganicSettlement.AttemptOutcome | Assets/_Project/Scripts/Terrain/Generate/OrganicSettlementPlacer.cs:48-79 | a draw above `1.5 * noise` skips the attempt; otherwise a single road point throws; otherwise the house is built exactly when no placed position is closer than `minDistanceBetweenHouses`; a built house is offset from its road point as above and stands on the terrain |
| OrganicSettlement.AttemptGood | Assets/_Project/Scripts/Terrain/Generate/OrganicSettlementPlacer.cs:45-80 | every iteration adds exactly one attempt and at most one house, and keeps the counts within budget, the houses well placed and the positions spaced |
| OrganicSettlement.SettleGood | Assets/_Project/Scripts/Terrain/Generate/OrganicSettlementPlacer.cs:45-80 | the loop ends with the counts within budget, or by an exception, and only appends to the positions and houses |
| OrganicSettlement.SettlementGood | Assets/_Project/Scripts/Terrain/Generate/OrganicSettlementPlacer.cs:41-80 | at the end `placedHouses <= totalHouses` and `attempts <= totalHouses * 10`, the placed count equals the number of positions appended, the positions are pairwise at least `minDistanceBetweenHouses` apart, and every house is offset from its road point as above |
| OrganicSettlement.MakeAttempt | Assets/_Project/Scripts/Terrain/Generate/OrganicSettlementPlacer.cs:48-79 | one iteration of the loop yields the attempt's result |
| OrganicSettlement.OrganicSettlementPlacer.constructor | Assets/_Project/Scripts/Terrain/Generate/OrganicSettlementPlacer.cs:32-33 | a new placer has no road points and no placed positions |
| OrganicSettlement.OrganicSettlementPlacer.Initialize | Assets/_Project/Scripts/Terrain/Generate/OrganicSettlementPlacer.cs:125-145 | it succeeds exactly when the road mask and a prefab exist and some road pixel is above 0.5; a missing mask or prefab changes nothing, and otherwise the placed positions are cleared and the road points collected |
| OrganicSettlement.OrganicSettlementPlacer.ClearPreviousHouses | Assets/_Project/Scripts/Terrain/Generate/OrganicSettlementPlacer.cs:148-155 | the parent keeps no child |
| OrganicSettlement.OrganicSettlementPlacer.PlaceSettlements | Assets/_Project/Scripts/Terrain/Generate/OrganicSettlementPlacer.cs:36-83 | a failed initialisation is reported exactly when it fails, and leaves the parent's children as they were (and, with the mask or the prefabs missing, the road points and positions too); otherwise the road points are exactly those read off the road mask, the run is the settlement the loop computes, the placed positions are its positions and the parent holds exactly its houses |
| OrganicSettlement.OrganicSettlementPlacer.PlaceHousesAlongRoads | Assets/_Project/Scripts/Terrain/Generate/OrganicSettlementPlacer.cs:41-80 | the `while` loop performs the settlement run, recording each position and parenting each house as it is built |
| RicePaddy.NormalizedRoadPointsUnit | Assets/_Project/Scripts/Terrain/Generate/RicePaddyPlacer.cs:187-197 | every normalised road point lies in `[0, 1)` squared |
| RicePaddy.IsTooClose | Assets/_Project/Scripts/Terrain/Generate/RicePaddyPlacer.cs:201-214 | true exactly when the list is not null, the type has a distance, and some target is strictly within `radius`; false for a null list or an unsupported type |
| RicePaddy.WithinRadius3 | Assets/_Project/Scripts/Terrain/Generate/RicePaddyPlacer.cs:205-211 | with `Vector3.Distance` the test is the squared comparison against some target |
| RicePaddy.WithinRadius2 | Assets/_Project/Scripts/Terrain/Generate/RicePaddyPlacer.cs:206-211 | with `Vector2.Distance` the test is the squared comparison against some target |
| RicePaddy.IsPlacementAllowed | Assets/_Project/Scripts/Terrain/Generate/RicePaddyPlacer.cs:165-173 | allowed exactly when the rice mask at the normalised centre is at least 0.5, no house is within `exclusionRadiusHouses` and no road point is within the normalised road radius |
| RicePaddy.AngleStep | Assets/_Project/Scripts/Terrain/Generate/RicePaddyPlacer.cs:151 | for noise in `[0, 1)` the step `⌊4 * noise⌋` is in `[0, 4)` |
| RicePaddy.TargetAngle | Assets/_Project/Scripts/Terrain/Generate/RicePaddyPlacer.cs:150-152 | the angle is a multiple of 90, and one of 0, 90, 180 and 270 for noise in `[0, 1)` |
| RicePaddy.SearchRadiusNonnegative | Assets/_Project/Scripts/Terrain/Generate/RicePaddyPlacer.cs:104-107 | the search radius in heightmap pixels is non-negative |
| RicePaddy.FlattenWindow | Assets/_Project/Scripts/Terrain/Generate/RicePaddyPlacer.cs:107-116 | `startX` and `startY` lie in `[0, res - 1]`, the window ends inside the heightmap, each side is at most twice the search radius, and neither is negative |
| RicePaddy.TerrainChanges | Assets/_Project/Scripts/Terrain/Generate/RicePaddyPlacer.cs:81-145 | without `modifyTerrainHeight` no height changes; otherwise a changed cell is in the heightmap, inside the window and footprint of some paddy, and holds that paddy's target height |
| RicePaddy.TerrainExtend | Assets/_Project/Scripts/Terrain/Generate/RicePaddyPlacer.cs:81-84 | one more paddy flattens under itself, on top of the earlier paddies, exactly when terrain modification is on |
| RicePaddy.FlattenRow | Assets/_Project/Scripts/Terrain/Generate/RicePaddyPlacer.cs:125-143 | one row of the window sets that row's cells in the footprint to the target height and leaves every other cell unchanged |
| RicePaddy.FlattenTerrainUnderPaddy | Assets/_Project/Scripts/Terrain/Generate/RicePaddyPlacer.cs:96-146 | every cell becomes its flattened value: the target height inside both the window and the footprint, unchanged elsewhere |
| RicePaddy.PlotResultFrom | Assets/_Project/Scripts/Terrain/Generate/RicePaddyPlacer.cs:67-88 | a paddy placed at plot `(kx, ky)` comes from that plot's centre `(x + s/2, y + s/2)`, which passed `IsPlacementAllowed`, the raycast and the slope test; it has the prefab, angle and sunk position the source computes, and it does not overlap the paddies before it |
| RicePaddy.ExtendRow | Assets/_Project/Scripts/Terrain/Generate/RicePaddyPlacer.cs:65-90 | one more plot of a row keeps every paddy from its plot, in scan order and not overlapping earlier ones |
| RicePaddy.RowScanned | Assets/_Project/Scripts/Terrain/Generate/RicePaddyPlacer.cs:65-90 | a row of plots keeps those facts |
| RicePaddy.GridScanned | Assets/_Project/Scripts/Terrain/Generate/RicePaddyPlacer.cs:63-91 | the whole lattice keeps those facts |
| RicePaddy.RowCount | Assets/_Project/Scripts/Terrain/Generate/RicePaddyPlacer.cs:65-90 | a row only appends, and at most one paddy per plot |
| RicePaddy.GridCount | Assets/_Project/Scripts/Terrain/Generate/RicePaddyPlacer.cs:63-91 | the lattice places at most one paddy per plot |
| RicePaddy.PaddiesFromPlots | Assets/_Project/Scripts/Terrain/Generate/RicePaddyPlacer.cs:63-91 | every paddy comes from its own plot, the paddies are in strict scan order (so no plot has two), none overlaps an earlier one, and there are at most as many as plots |
| RicePaddy.RicePaddyPlacer.constructor | Assets/_Project/Scripts/Terrain/Generate/RicePaddyPlacer.cs:47-48 | a new placer has no house positions and no road points |
| RicePaddy.RicePaddyPlacer.Initialize | Assets/_Project/Scripts/Terrain/Generate/RicePaddyPlacer.cs:175-199 | it succeeds exactly when both masks and a prefab exist; otherwise nothing changes; on success the house positions are those of the houses parent's children and the road points are the normalised road pixels |
| RicePaddy.RicePaddyPlacer.ClearPreviousPaddies | Assets/_Project/Scripts/Terrain/Generate/RicePaddyPlacer.cs:217-224 | the paddies parent keeps no child |
| RicePaddy.RicePaddyPlacer.PlacePlot | Assets/_Project/Scripts/Terrain/Generate/RicePaddyPlacer.cs:67-89 | one plot appends its paddy, if any, to the placed list and the parent, and flattens the terrain under it when terrain modification is on |
| RicePaddy.RicePaddyPlacer.GeneratePaddies | Assets/_Project/Scripts/Terrain/Generate/RicePaddyPlacer.cs:56-94 | it runs exactly when initialisation succeeds; otherwise it changes no height, neither the house positions nor the road points, and not the paddies' parent; on success the house positions are those of the houses' parent's children, the road points are the road mask's normalised ones, the parent holds exactly the lattice's paddies and every height is the result of flattening under them in order |
| UnionFind.Root | Assets/_Project/Scripts/Terrain/Generate/YatoTerrainFromHeightmap.cs:124 | the element `find` reaches is a root, ranked at least as high as the start and strictly higher unless the start is itself a root |
| UnionFind.RootsOf | Assets/_Project/Scripts/Terrain/Generate/YatoTerrainFromHeightmap.cs:124 | the class labelling gives every element its root |
| UnionFind.PointAtRoot | Assets/_Project/Scripts/Terrain/Generate/YatoTerrainFromHeightmap.cs:124 | pointing one element straight at its root keeps the forest ranked and changes no element's root |
| UnionFind.CompressedKeepsRoots | Assets/_Project/Scripts/Terrain/Generate/YatoTerrainFromHeightmap.cs:124 | path compression keeps the forest ranked, points the start at its root, changes each element's link only to its own root, and leaves every root as it was |
| UnionFind.Merged | Assets/_Project/Scripts/Terrain/Generate/YatoTerrainFromHeightmap.cs:125-129 | relabelling one class changes exactly the elements labelled `from` to `to` |
| UnionFind.LinkRoots | Assets/_Project/Scripts/Terrain/Generate/YatoTerrainFromHeightmap.cs:128 | hanging one root under another keeps the forest ranked and merges exactly those two classes |
| UnionFind.MergedClasses | Assets/_Project/Scripts/Terrain/Generate/YatoTerrainFromHeightmap.cs:125-129 | merging two different classes removes exactly one class label |
| UnionFind.DisjointSets.constructor | Assets/_Project/Scripts/Terrain/Generate/YatoTerrainFromHeightmap.cs:122-123 | every element starts as its own root, in a class of its own |
| UnionFind.DisjointSets.Find | Assets/_Project/Scripts/Terrain/Generate/YatoTerrainFromHeightmap.cs:124 | `find` returns the element's root, compresses the path it climbed, and changes no element's root |
| UnionFind.DisjointSets.Unite | Assets/_Project/Scripts/Terrain/Generate/YatoTerrainFromHeightmap.cs:125-129 | `unite` merges the class of `i` into the class of `j` and no other class changes |
| Sorting.InsertBy | Assets/_Project/Scripts/Terrain/Generate/YatoTerrainFromHeightmap.cs:119 | inserting one element adds exactly that element |
| Sorting.InsertAscending | Assets/_Project/Scripts/Terrain/Generate/YatoTerrainFromHeightmap.cs:119 | inserting into an ascending sequence keeps it ascending |
| Sorting.SortBy | Assets/_Project/Scripts/Terrain/Generate/YatoTerrainFromHeightmap.cs:119 | the sorted sequence is a permutation of its input, ascending by the key |
| Sorting.InsertWithKey | Assets/_Project/Scripts/Terrain/Generate/YatoTerrainFromHeightmap.cs:87-94 | inserting an element puts it in front of every element with its own key and keeps the order of the elements of each key |
| Sorting.SortStable | Assets/_Project/Scripts/Terrain/Generate/YatoTerrainFromHeightmap.cs:87-94 | the sort is stable: for every key, the elements with that key appear in the output in their input order |
| Sorting.WithKeyFirst | Assets/_Project/Scripts/Terrain/Generate/YatoTerrainFromHeightmap.cs:87 | the first element with a given key is preceded in the input only by elements with other keys |
| Sorting.SortHeadFirst | Assets/_Project/Scripts/Terrain/Generate/YatoTerrainFromHeightmap.cs:87 | the head of the sorted list is the first input element of least key: every element before it has a larger key |
| RiverNetwork.PairCountClosed | Assets/_Project/Scripts/Terrain/Generate/YatoTerrainFromHeightmap.cs:114-118 | the first `rows` rows of the pair loop produce `rows * (2n - rows - 1) / 2` edges |
| RiverNetwork.PairIndexBelow | Assets/_Project/Scripts/Terrain/Generate/YatoTerrainFromHeightmap.cs:114-118 | the position of pair `(a, b)` falls inside the rows up to `a` |
| RiverNetwork.BuildEdges | Assets/_Project/Scripts/Terrain/Generate/YatoTerrainFromHeightmap.cs:113-118 | the complete graph: `n(n - 1) / 2` edges, each `(i, j)` with `i < j` and its node distance, and every pair present at its position |
| RiverNetwork.SortByDistance | Assets/_Project/Scripts/Terrain/Generate/YatoTerrainFromHeightmap.cs:119 | the sorted edges are a permutation of the input, in non-decreasing distance |
| RiverNetwork.SortedWithin | Assets/_Project/Scripts/Terrain/Generate/YatoTerrainFromHeightmap.cs:119 | sorting keeps exactly the same edges |
| RiverNetwork.EveryNodeTouched | Assets/_Project/Scripts/Terrain/Generate/YatoTerrainFromHeightmap.cs:143-146 | with two nodes or more every node is an end of some tree edge |
| RiverNetwork.IdentityClasses | Assets/_Project/Scripts/Terrain/Generate/YatoTerrainFromHeightmap.cs:122-123 | the initial forest has `n` classes and respects every node set |
| RiverNetwork.RangeSetSize | Assets/_Project/Scripts/Terrain/Generate/YatoTerrainFromHeightmap.cs:122 | the node indices number `n` |
| RiverNetwork.MergeRespects | Assets/_Project/Scripts/Terrain/Generate/YatoTerrainFromHeightmap.cs:131-133 | after adding an edge and merging its ends' classes, every set closed under the tree still respects the classes |
| RiverNetwork.AcceptDistinct | Assets/_Project/Scripts/Terrain/Generate/YatoTerrainFromHeightmap.cs:131-133 | an edge between different classes joins a pair no tree edge joins yet |
| RiverNetwork.AcceptStep | Assets/_Project/Scripts/Terrain/Generate/YatoTerrainFromHeightmap.cs:131-134 | accepting an edge between different classes keeps the Kruskal invariant: tree edges plus classes number `n`, and classes are exactly what the tree connects |
| RiverNetwork.RejectStep | Assets/_Project/Scripts/Terrain/Generate/YatoTerrainFromHeightmap.cs:131 | skipping an edge inside one class keeps the invariant |
| RiverNetwork.KruskalDone | Assets/_Project/Scripts/Terrain/Generate/YatoTerrainFromHeightmap.cs:130-135 | over edges that connect every node, the loop ends with exactly `n - 1` tree edges spanning all nodes |
| RiverNetwork.CompleteConnects | Assets/_Project/Scripts/Terrain/Generate/YatoTerrainFromHeightmap.cs:113-118 | the complete graph connects every node |
| RiverNetwork.SortedConnects | Assets/_Project/Scripts/Terrain/Generate/YatoTerrainFromHeightmap.cs:119 | sorting keeps the graph connected |
| RiverNetwork.SpanningTree | Assets/_Project/Scripts/Terrain/Generate/YatoTerrainFromHeightmap.cs:121-135 | the tree takes edges of the graph, joins distinct pairs, has fewer than `n` edges, and over a connected graph has exactly `n - 1` edges that span every node |
| RiverNetwork.ClassesNonEmpty | Assets/_Project/Scripts/Terrain/Generate/YatoTerrainFromHeightmap.cs:122 | a non-empty forest has at least one class |
| RiverNetwork.Adjacency | Assets/_Project/Scripts/Terrain/Generate/YatoTerrainFromHeightmap.cs:141-146 | there is one neighbour list per node |
| RiverNetwork.AdjacencyExact | Assets/_Project/Scripts/Terrain/Generate/YatoTerrainFromHeightmap.cs:141-146 | `v` is in `u`'s list exactly when some tree edge joins `u` and `v` |
| RiverNetwork.AdjacencyWithin | Assets/_Project/Scripts/Terrain/Generate/YatoTerrainFromHeightmap.cs:141-146 | every listed neighbour is a node index |
| RiverNetwork.AdjacencyDistinct | Assets/_Project/Scripts/Terrain/Generate/YatoTerrainFromHeightmap.cs:141-146 | over distinct pairs no neighbour is listed twice |
| RiverNetwork.BuildAdjacency | Assets/_Project/Scripts/Terrain/Generate/YatoTerrainFromHeightmap.cs:141-146 | the loops build the adjacency lists of the tree |
| RiverNodes.SampleHeights | Assets/_Project/Scripts/Terrain/Generate/YatoTerrainFromHeightmap.cs:54-61 | a fresh `resolution x resolution` grid whose cell `[y, x]` is the bilinear sample at `(x / res, y / res)` |
| RiverNodes.RowExact | Assets/_Project/Scripts/Terrain/Generate/YatoTerrainFromHeightmap.cs:70-74 | one row of the scan lists, with distinct positions, exactly the valid points of that row before `x` |
| RiverNodes.ScanExact | Assets/_Project/Scripts/Terrain/Generate/YatoTerrainFromHeightmap.cs:69-75 | the scan lists, with distinct positions, exactly the cells whose mask value is above 0.5, with their heights |
| RiverNodes.UniqueConcat | Assets/_Project/Scripts/Terrain/Generate/YatoTerrainFromHeightmap.cs:69-75 | joining two lists with disjoint positions keeps positions distinct |
| RiverNodes.ScanValid | Assets/_Project/Scripts/Terrain/Generate/YatoTerrainFromHeightmap.cs:68-75 | the nested loops collect the valid points in scan order |
| RiverNodes.Lowest | Assets/_Project/Scripts/Terrain/Generate/YatoTerrainFromHeightmap.cs:87 | `OrderBy(height).First()` is a valid point of minimum height, and the first such in the scan order of the valid points: every point before it is strictly higher |
| RiverNodes.Without | Assets/_Project/Scripts/Terrain/Generate/YatoTerrainFromHeightmap.cs:92 | the `Where` keeps exactly the points not at the given cell |
| RiverNodes.WithoutOne | Assets/_Project/Scripts/Terrain/Generate/YatoTerrainFromHeightmap.cs:92 | removing the position of one listed point of a list with distinct positions removes exactly one point |
| RiverNodes.WithoutNone | Assets/_Project/Scripts/Terrain/Generate/YatoTerrainFromHeightmap.cs:92 | removing an absent cell changes nothing |
| RiverNodes.WithoutUnique | Assets/_Project/Scripts/Terrain/Generate/YatoTerrainFromHeightmap.cs:92 | removing keeps positions distinct |
| RiverNodes.InsertUnique | Assets/_Project/Scripts/Terrain/Generate/YatoTerrainFromHeightmap.cs:93 | inserting a point with a new position keeps positions distinct |
| RiverNodes.SortUnique | Assets/_Project/Scripts/Terrain/Generate/YatoTerrainFromHeightmap.cs:93 | sorting keeps positions distinct |
| RiverNodes.Candidates | Assets/_Project/Scripts/Terrain/Generate/YatoTerrainFromHeightmap.cs:91-94 | the candidates are a permutation of the valid points other than the lowest, by non-increasing height; points of equal height keep their scan order (`OrderByDescending` is stable) |
| RiverNodes.Cells | Assets/_Project/Scripts/Terrain/Generate/YatoTerrainFromHeightmap.cs:101 | the candidate cells are the points' positions, in order |
| RiverNodes.CandidatesExact | Assets/_Project/Scripts/Terrain/Generate/YatoTerrainFromHeightmap.cs:87-94 | there is one candidate fewer than valid points, the candidate cells are distinct, and the candidates are exactly the valid points away from the lowest |
| RiverNodes.RemoveAt | Assets/_Project/Scripts/Terrain/Generate/YatoTerrainFromHeightmap.cs:102 | `RemoveAt` drops exactly the element at the index |
| RiverNodes.RemoveAtDistinct | Assets/_Project/Scripts/Terrain/Generate/YatoTerrainFromHeightmap.cs:102 | removing from distinct cells keeps them distinct, drops the removed cell, and adds none |
| RiverNodes.DraftTakes | Assets/_Project/Scripts/Terrain/Generate/YatoTerrainFromHeightmap.cs:96-103 | the draw loop picks `min(numberOfTributaries, candidates)` cells |
| RiverNodes.DraftDistinct | Assets/_Project/Scripts/Terrain/Generate/YatoTerrainFromHeightmap.cs:96-103 | the picked cells are distinct candidates: sampling without replacement |
| RiverNodes.DrawTributaries | Assets/_Project/Scripts/Terrain/Generate/YatoTerrainFromHeightmap.cs:96-103 | the `for` loop with its `break` and `RemoveAt` picks the draft |
| RiverNodes.Nodes | Assets/_Project/Scripts/Terrain/Generate/YatoTerrainFromHeightmap.cs:84-88 | the node list starts with the lowest valid point |
| RiverNodes.PrependDistinct | Assets/_Project/Scripts/Terrain/Generate/YatoTerrainFromHeightmap.cs:88-101 | adding the lowest point before tributaries it is not among keeps the nodes distinct |
| RiverNodes.NodesChosen | Assets/_Project/Scripts/Terrain/Generate/YatoTerrainFromHeightmap.cs:84-103 | there are `1 + min(numberOfTributaries, valid - 1)` nodes, all distinct, each the position of a valid point, the first of minimum height |
| RiverNodes.CellsOf | Assets/_Project/Scripts/Terrain/Generate/YatoTerrainFromHeightmap.cs:91-101 | a candidate cell is never the lowest point's cell and is the position of a valid point |
| RiverTree.BreadthFirst | Assets/_Project/Scripts/Terrain/Generate/YatoTerrainFromHeightmap.cs:148-168 | the walk from node 0 lists each node at most once, gives node 0 the parent mark -2, gives every listed node other than 0 a listed parent that is its neighbour, lists every neighbour of a listed node, and leaves unlisted nodes at -1 |
| RiverTree.VisitNeighbours | Assets/_Project/Scripts/Terrain/Generate/YatoTerrainFromHeightmap.cs:160-166 | dequeuing node `u` and giving each unvisited neighbour parent `u` keeps the walk's invariant and expands one more node |
| RiverTree.VisitStep | Assets/_Project/Scripts/Terrain/Generate/YatoTerrainFromHeightmap.cs:163-165 | visiting one unvisited neighbour keeps the walk's invariant |
| RiverTree.ParentBefore | Assets/_Project/Scripts/Terrain/Generate/YatoTerrainFromHeightmap.cs:163-165 | a listed node's parent is listed before it |
| RiverTree.VisitsAll | Assets/_Project/Scripts/Terrain/Generate/YatoTerrainFromHeightmap.cs:148-168 | over a spanning tree the walk lists all `n` nodes and gives each a parent entry other than -1 |
| RiverTree.NoParentCycle | Assets/_Project/Scripts/Terrain/Generate/YatoTerrainFromHeightmap.cs:163-165 | no two listed nodes are each other's parent |
| RiverTree.ParentsJoined | Assets/_Project/Scripts/Terrain/Generate/YatoTerrainFromHeightmap.cs:163-165 | over a spanning tree every node but the root is joined to its parent by a tree edge |
| RiverTree.LinksDistinct | Assets/_Project/Scripts/Terrain/Generate/YatoTerrainFromHeightmap.cs:163-165 | different nodes reach their parents along different tree edges |
| RiverTree.LinksCover | Assets/_Project/Scripts/Terrain/Generate/YatoTerrainFromHeightmap.cs:113-135 | with `n - 1` tree edges every edge is the parent link of some node |
| RiverTree.TreeChildren | Assets/_Project/Scripts/Terrain/Generate/YatoTerrainFromHeightmap.cs:173-177 | a tree neighbour of `u` other than `u`'s parent is exactly a node whose parent is `u` |
| RiverTree.SpanningTreeRooted | Assets/_Project/Scripts/Terrain/Generate/YatoTerrainFromHeightmap.cs:139-168 | the walk over a spanning tree of `n - 1` distinct edges is a rooted tree: every node listed, every parent a tree neighbour listed earlier, node 0 the root |
| RiverFlow.ListSumIsSetSum | Assets/_Project/Scripts/Terrain/Generate/YatoTerrainFromHeightmap.cs:173-177 | adding up a list of distinct neighbours other than the parent sums over the set of those nodes |
| RiverFlow.RootedOrdered | Assets/_Project/Scripts/Terrain/Generate/YatoTerrainFromHeightmap.cs:170-178 | a rooted walk lists each node after its parent, as the reverse loop needs |
| RiverFlow.FlowStep | Assets/_Project/Scripts/Terrain/Generate/YatoTerrainFromHeightmap.cs:172-177 | one step of the reverse loop gives node `order[i]` one plus its children's flow and keeps the loop invariant |
| RiverFlow.FlowDone | Assets/_Project/Scripts/Terrain/Generate/YatoTerrainFromHeightmap.cs:170-178 | when the loop ends every node's flow is one plus its children's, between 1 and `n`, and the mouth carries all `n` nodes |
| RiverFlow.Flow | Assets/_Project/Scripts/Terrain/Generate/YatoTerrainFromHeightmap.cs:147-178 | every node's flow counts the nodes of its subtree: one plus the flow of its children, between 1 and `n`, and `n` at the mouth |
| RiverFlow.FlowOver | Assets/_Project/Scripts/Terrain/Generate/YatoTerrainFromHeightmap.cs:170-178 | the reverse loop, given the tree facts, computes the same subtree counts |
| RiverFlow.ChildLists | Assets/_Project/Scripts/Terrain/Generate/YatoTerrainFromHeightmap.cs:173-177 | each node's neighbour list without its parent lists exactly its children |
| RiverFlow.AddChildren | Assets/_Project/Scripts/Terrain/Generate/YatoTerrainFromHeightmap.cs:173-177 | one node's flow becomes one plus the flow of every listed neighbour other than its parent; nothing else changes |
| RiverFlow.FlowGrows | Assets/_Project/Scripts/Terrain/Generate/YatoTerrainFromHeightmap.cs:170-178 | flow grows downstream: a parent carries more than each child |
| RiverFlow.Downstream | Assets/_Project/Scripts/Terrain/Generate/YatoTerrainFromHeightmap.cs:183 | the chosen downstream end is one of the edge's ends |
| RiverFlow.DownstreamIsParent | Assets/_Project/Scripts/Terrain/Generate/YatoTerrainFromHeightmap.cs:183 | the downstream end of each tree edge is the parent of its other end |
| RiverFlow.EdgeWidthBounds | Assets/_Project/Scripts/Terrain/Generate/YatoTerrainFromHeightmap.cs:184-185 | each edge's flow ratio lies in `[2 / n, 1]`, its width between the two widths, and an edge at the mouth gets the largest width |
| RiverDraw.Centres | Assets/_Project/Scripts/Terrain/Generate/YatoTerrainFromHeightmap.cs:197-203 | the samples `k = 0 .. pointsCount` of the line, `pointsCount + 1` of them, and none when the end points coincide |
| RiverDraw.BlendBetween | Assets/_Project/Scripts/Terrain/Generate/YatoTerrainFromHeightmap.cs:214-215 | in the smoothing band the blended value lies in `[1/2, 1)` |
| RiverDraw.PaintBetween | Assets/_Project/Scripts/Terrain/Generate/YatoTerrainFromHeightmap.cs:212-216 | painting one cell keeps its value in `[0, 1]` and never lowers it |
| RiverDraw.DrawnBetween | Assets/_Project/Scripts/Terrain/Generate/YatoTerrainFromHeightmap.cs:200-221 | painting all the samples keeps a value in `[0, 1]` and never lowers it |
| RiverDraw.DrawnCore | Assets/_Project/Scripts/Terrain/Generate/YatoTerrainFromHeightmap.cs:212-213 | a cell within half the river width of any sample ends at 1 |
| RiverDraw.SampleOnRiver | Assets/_Project/Scripts/Terrain/Generate/YatoTerrainFromHeightmap.cs:200-213 | the cell under every sample ends at 1 |
| RiverDraw.LineCoversEnds | Assets/_Project/Scripts/Terrain/Generate/YatoTerrainFromHeightmap.cs:197-213 | the line between two different cells paints both ends at 1 |
| RiverDraw.DrawnBand | Assets/_Project/Scripts/Terrain/Generate/YatoTerrainFromHeightmap.cs:214-216 | a cell in a sample's smoothing band ends at least at that sample's blend |
| RiverDraw.DrawnOutside | Assets/_Project/Scripts/Terrain/Generate/YatoTerrainFromHeightmap.cs:205-209 | a cell no sample reaches keeps its value |
| RiverDraw.DrawRiver | Assets/_Project/Scripts/Terrain/Generate/YatoTerrainFromHeightmap.cs:195-222 | every in-bounds cell ends at the value painting all the line's samples gives it; out-of-bounds offsets are skipped |
| RiverDraw.StampSample | Assets/_Project/Scripts/Terrain/Generate/YatoTerrainFromHeightmap.cs:204-219 | stamping one sample paints each in-bounds cell of its square and leaves the rest |
| RiverDraw.StampRow | Assets/_Project/Scripts/Terrain/Generate/YatoTerrainFromHeightmap.cs:205-218 | stamping one row of the square changes only that row |
| RiverMask.RiverValueBetween | Assets/_Project/Scripts/Terrain/Generate/YatoTerrainFromHeightmap.cs:180-188 | drawing all tree edges over a value in `[0, 1]` (`RiverValue`) never lowers it and never lifts it above 1 |
| RiverMask.DrawEdge | Assets/_Project/Scripts/Terrain/Generate/YatoTerrainFromHeightmap.cs:186-187 | one edge's line leaves every cell at `Drawn` of its previous value, never lower, the map in `[0, 1]`, and with non-negative widths both end cells at 1 |
| RiverMask.DrawEdges | Assets/_Project/Scripts/Terrain/Generate/YatoTerrainFromHeightmap.cs:180-188 | edge `k` gets exactly `Lerp(min, max, flow[downstream] / n)` (`EdgeWidth`), between the two widths with the mouth edges at the largest; every cell ends at `RiverValue`, the tree's edges drawn in order over its previous value; the map stays in `[0, 1]`, and with solid widths every edge's two ends are on the river |
| RiverMask.ConnectNodes | Assets/_Project/Scripts/Terrain/Generate/YatoTerrainFromHeightmap.cs:113-135 | the result is a spanning tree of the nodes: `n - 1` distinct edges with `u < v`, each weighted by its length, connecting every node |
| RiverMask.RootedFlow | Assets/_Project/Scripts/Terrain/Generate/YatoTerrainFromHeightmap.cs:139-178 | the adjacency lists are the tree's, the walk roots it at node 0, every node's flow counts its subtree, and each tree edge hangs from its downstream end |
| RiverMask.RiverFromNodes | Assets/_Project/Scripts/Terrain/Generate/YatoTerrainFromHeightmap.cs:113-188 | a fresh map equal, cell by cell, to the spanning tree's edges drawn in order with their flow-graded widths over zero (`RiverDrawn`): the tree, its breadth-first rooting at node 0, every node's flow and each edge's width are returned with it |
| RiverMask.ValidSamples | Assets/_Project/Scripts/Terrain/Generate/YatoTerrainFromHeightmap.cs:54-75 | the sampled grid holds the bilinear height at `(x / resolution, y / resolution)` in every cell; the valid points are that grid's cells whose mask value is above a half, with their sampled heights, each once, listed row by row and left to right (`ScanPoints`) |
| RiverMask.ChooseNodes | Assets/_Project/Scripts/Terrain/Generate/YatoTerrainFromHeightmap.cs:84-103 | the nodes are the mouth and the drawn tributaries: `1 + min(numberOfTributaries, valid - 1)` distinct valid cells |
| RiverMask.GenerateRiverMask | Assets/_Project/Scripts/Terrain/Generate/YatoTerrainFromHeightmap.cs:43-188 | each early return exactly under its condition (missing or unreadable texture, mask too small, no valid point, fewer than two nodes); once both textures are readable, the valid points are the row-by-row scan of the freshly sampled height grid; otherwise a fresh map equal, cell by cell, to the river tree of the chosen in-bounds nodes drawn with flow-graded widths over zero (`RiverDrawn`, with the tree, rooting, flow and widths) |

## Left out

- Texture and file I/O are not modelled. This covers `CreateMaskTexture`, `SaveTextureAsPNG`, `EncodeToPNG`, `File.WriteAllBytes` and the `SetPixel`/`Apply` plumbing, for example YatoTerrainFromHeightmap.cs lines 190-192 and 224-248. Masks and maps are `array2<real>` values or supplied read functions, and a written mask is its array.
- Engine services are parameters. `GetPixelBilinear`, `Terrain.SampleHeight`, `GetInterpolatedHeight`, `GetSteepness`, `Physics.Raycast` and `Mathf.PerlinNoise` are supplied functions. `Physics.OverlapBox` is a supplied `overlaps` function, and the rotated paddy footprint test is a supplied predicate.
- RicePaddy.RicePaddyPlacer.GeneratePaddies: the supplied raycast (`World.raycast`) is one fixed function for the whole run, so it does not see the run's own flattening. In the source every `FlattenTerrainUnderPaddy` ends in `SetHeights`, and the next plot's `Physics.Raycast` hits the edited terrain. The plot step (10 by default) is smaller than a paddy, so a later ray can land inside an earlier flatten window, where the source reads the flattened height and slope and the model reads the supplied ones.
- `Instantiate`, `DestroyImmediate` and the transform hierarchy are modelled only as the `Scene.Transform` child list. The supplied `TerrainData` holds only the tree instances and prototypes.
- Randomness is a supplied draw stream, one draw record per loop iteration. This covers `UnityEngine.Random`, `Random.InitState`, the `DateTime.Now` seeding and the `seed != 0` test. The model states what the code does for every stream, not how the streams are distributed.
- Quaternion and orientation maths are abstracted. `Quaternion.Euler`/`LookRotation` in `PlaceSingleHouse`, `Vector3.Angle` in `CalculateFinalRotation` and the inverse rotation in `FlattenTerrainUnderPaddy` become supplied values or predicates. Only the angle step `floor(4 * noise) * 90` is modelled.
- Floats are `real`. Rounding, NaN and infinities are not modelled, and `Mathf.Sqrt` is a supplied function satisfying `IsSqrt`. Where the source would compute `0 / 0`, the model names that case. Line sampling between coincident points (`pointsCount == 0`, RoadGenerator.cs line 66, YatoTerrainFromHeightmap.cs line 197) draws no sample.
- C# `int` is unbounded here: 32-bit overflow of products such as `width * height` is not modelled.
- `Debug.Log`, `Debug.LogWarning` and `Debug.LogError` are not modelled. An error log followed by a return is an outcome value naming the error.
- Exceptions from LINQ's `First()` on an empty sequence are outcome values (`NoValidPoint`, `NoNeighbour`, `None`). `OrderBy` and `List.Sort` are a stable insertion sort by key. .NET's `List.Sort` is unstable, so among edges of equal length the model fixes one order the engine need not use.
- RoadGenerator.SampleNodes: the source's `do`/`while` rejection loop has no attempt bound. The model reads a finite draw stream and reports exhaustion, which stands for the source never terminating.
- Pathfinder.FindPath: does not state that the returned path is the cheapest; it states the path's ends and step shape and that it always exists.
- RiverNetwork.SpanningTree: does not state that the tree has minimum total length; it states that it is a spanning tree of the sorted complete graph, with exactly `n - 1` edges.
- UnionFind.DisjointSets: the ghost `rank` field exists only to prove that `find` terminates. The source has no union by rank, and `unite` hangs the root of `i` under the root of `j` (line 128).
- ObjectGenerator.PlaceHouses: requires `HousesTerminate`: no house prefabs, or `size.z <= 0`, or `houseGridSize > 0`. When none of these holds, the source's outer lattice loop never advances and never ends. ObjectGenerator.PlaceObjects passes the same requirement on.
- RicePaddy.RicePaddyPlacer.GeneratePaddies: requires `paddyPlotSize > 0` for the same reason. It also requires a positive terrain size, which Unity terrains have, because the normalised coordinates and the target height divide by it. It requires a heightmap resolution of at least 2, because the window's world coordinates divide by `heightmapResolution - 1`.
- TerrainGround.GenerateTrees: requires `size.y != 0` for a present terrain, because the normalised height divides by it.
- Heightmap.GenerateInitialHeightMap: requires `octaves >= 1`, because otherwise the normalisation divides 0 by 0. It requires a persistence in `[0, 1]`, the range the inspector attribute declares, and `noiseScale != 0`, because the sample coordinates divide by it.
- Heightmap.ApplyPlateaus: requires every `falloff` to be non-zero, because otherwise an edge cell's blend is `0 / 0`.
- PlaceHouses.SettlementPlacer.DetermineSettlementCenters and OrganicSettlement: require a non-zero terrain `size.x` and `size.z`, because the mask coordinates divide by them.
- Mesh application in `TerrainGenerator.cs` is not modelled: normals, `MeshCollider` and material setup (lines 18-31 and 70-90) are engine-side.
- `HillyTerrainGenerator.cs` is not part of this model, since it is float numerics only. Neither are `ObjectPlacer.cs` and `GrassInstancer.cs`, which are rendering, `PlayerMover.cs`, which is input and camera, `DebugVisualizer.cs`, which is debug markers, or `GenerateAll.cs`, which is orchestration over classes not present.
