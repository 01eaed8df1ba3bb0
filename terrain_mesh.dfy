/**
  The mesh buffers of `TerrainGenerator.GenerateTerrain`: one vertex and one UV
  per height sample, numbered row by row as `y * width + x`, and two triangles
  (six indices) per grid cell.
 */
module TerrainMesh {
  import opened Common

  datatype MeshBuffers = MeshBuffers(vertices: array<Vec3>, uvs: array<Vec2>, triangles: array<int>, triangleIndex: int)

  /** A missing material, an index buffer of negative size (C# throws), or the filled buffers. */
  datatype MeshOutcome = NoMaterial | NegativeArraySize | Built(buffers: MeshBuffers)

  /** The vertex number of sample `(x, y)`. */
  function VertexIndex(x: int, y: int, width: int): int
  {
    y * width + x
  }

  /** `y * width + x` is a bijection from the grid onto `[0, width * height)`. */
  lemma VertexIndexBijective(width: nat, height: nat)
    ensures forall x, y :: 0 <= x < width && 0 <= y < height ==> 0 <= VertexIndex(x, y, width) < width * height
    ensures forall x1, y1, x2, y2 ::
              (0 <= x1 < width && 0 <= x2 < width && 0 <= y1 && 0 <= y2
               && VertexIndex(x1, y1, width) == VertexIndex(x2, y2, width)) ==> x1 == x2 && y1 == y2
    ensures forall k :: 0 <= k < width * height ==>
              0 <= k % width < width && 0 <= k / width < height && VertexIndex(k % width, k / width, width) == k
  {
    forall x, y | 0 <= x < width && 0 <= y < height
      ensures 0 <= VertexIndex(x, y, width) < width * height
    {
      VertexInRange(x, y, width, height);
    }
    forall x1, y1, x2, y2 | 0 <= x1 < width && 0 <= x2 < width && 0 <= y1 && 0 <= y2
      && VertexIndex(x1, y1, width) == VertexIndex(x2, y2, width)
      ensures x1 == x2 && y1 == y2
    {
      DivModUnique(VertexIndex(x1, y1, width), width, y1, x1);
      DivModUnique(VertexIndex(x2, y2, width), width, y2, x2);
    }
    forall k | 0 <= k < width * height
      ensures 0 <= k % width < width && 0 <= k / width < height && VertexIndex(k % width, k / width, width) == k
    {
      if k / width >= height {
        MulMonotone(height, k / width, width);
      }
    }
  }

  lemma VertexInRange(x: int, y: int, width: int, height: int)
    requires 0 <= x < width && 0 <= y < height
    ensures 0 <= VertexIndex(x, y, width) < width * height
  {
    MulMonotone(y + 1, height, width);
  }

  lemma MulMonotone(a: int, b: int, k: int)
    requires 0 <= a <= b && k >= 0
    ensures a * k <= b * k
  {
    assert b * k - a * k == (b - a) * k;
  }

  /** The vertex of sample `k`, as the loop writes it. */
  function VertexAt(heightMap: array2<real>, heightMultiplier: real, k: int): Vec3
    requires heightMap.Length0 > 0 && 0 <= k < heightMap.Length0 * heightMap.Length1
    reads heightMap
  {
    var width := heightMap.Length0;
    VertexInGrid(k, width, heightMap.Length1);
    Vec3((k % width) as real, heightMap[k % width, k / width] * heightMultiplier, (k / width) as real)
  }

  lemma VertexInGrid(k: int, width: int, height: int)
    requires width > 0 && 0 <= k < width * height
    ensures 0 <= k % width < width && 0 <= k / width < height
  {
    if k / width >= height {
      MulMonotone(height, k / width, width);
    }
  }

  /** Each vertex is `(x, heightMap[x, y] * heightMultiplier, y)`. */
  lemma VertexAtSample(heightMap: array2<real>, heightMultiplier: real, x: int, y: int)
    requires 0 <= x < heightMap.Length0 && 0 <= y < heightMap.Length1
    ensures 0 <= VertexIndex(x, y, heightMap.Length0) < heightMap.Length0 * heightMap.Length1
    ensures VertexAt(heightMap, heightMultiplier, VertexIndex(x, y, heightMap.Length0))
            == Vec3(x as real, heightMap[x, y] * heightMultiplier, y as real)
  {
    VertexInRange(x, y, heightMap.Length0, heightMap.Length1);
    DivModUnique(VertexIndex(x, y, heightMap.Length0), heightMap.Length0, y, x);
  }

  /** The texture coordinate of sample `k`: `(x / width, y / height)`. */
  function UvAt(width: int, height: int, k: int): (uv: Vec2)
    requires width > 0 && height > 0 && 0 <= k < width * height
    ensures 0.0 <= uv.x < 1.0 && 0.0 <= uv.y < 1.0
  {
    VertexInGrid(k, width, height);
    Vec2((k % width) as real / width as real, (k / width) as real / height as real)
  }

  /** The offset of corner `r` of a cell's two triangles from the cell's own vertex. */
  function Corner(r: int, width: int): int
  {
    if r == 0 then 0 else if r == 1 then width else if r == 2 then 1
    else if r == 3 then 1 else if r == 4 then width else width + 1
  }

  /** Entry `t` of the index buffer: cell `t / 6` in row-major order over the `width - 1` cells of a row. */
  function TriangleEntry(t: int, width: int): int
  {
    if width >= 2 && t >= 0 then
      var cell := t / 6;
      VertexIndex(cell % (width - 1), cell / (width - 1), width) + Corner(t % 6, width)
    else 0
  }

  /** The six entries written for the cell at `(x, y)`. */
  lemma TriangleEntryAt(x: int, y: int, width: int, r: int)
    requires 0 <= x < width - 1 && 0 <= y && 0 <= r < 6
    ensures TriangleEntry(6 * (y * (width - 1) + x) + r, width) == VertexIndex(x, y, width) + Corner(r, width)
  {
    var cell := y * (width - 1) + x;
    DivModUnique(6 * cell + r, 6, cell, r);
    DivModUnique(cell, width - 1, y, x);
  }

  /** The triangles of the last cell index the last vertex, so every entry is below `width * height`. */
  lemma CellInRange(x: int, y: int, width: int, height: int)
    requires 0 <= x < width - 1 && 0 <= y < height - 1
    ensures 0 <= y * (width - 1) + x && y * (width - 1) + x + 1 <= (width - 1) * (height - 1)
    ensures VertexIndex(x, y, width) + width + 1 < width * height
  {
    MulMonotone(y + 1, height - 1, width - 1);
    MulMonotone(y + 1, height - 1, width);
    assert (height - 1) * width == width * height - width;
  }

  /** The number of cells the loop has completed before sample `(x, y)`, in row-major order. */
  function CellsBefore(x: int, y: int, width: int, height: int): int
  {
    if y < height - 1 then y * (width - 1) + (if x < width - 1 then x else width - 1)
    else if height >= 1 then (height - 1) * (width - 1)
    else 0
  }

  /** One step of the inner loop: the count grows by one exactly at a cell with triangles. */
  lemma CellsStep(x: int, y: int, width: int, height: int)
    requires 0 <= x < width && 0 <= y < height && (width - 1) * (height - 1) >= 0
    ensures CellsBefore(x + 1, y, width, height)
            == CellsBefore(x, y, width, height) + (if x < width - 1 && y < height - 1 then 1 else 0)
    ensures x + 1 == width ==> CellsBefore(x + 1, y, width, height) == CellsBefore(0, y + 1, width, height)
    ensures 0 <= CellsBefore(x, y, width, height) <= (width - 1) * (height - 1)
    ensures x < width - 1 && y < height - 1 ==> CellsBefore(x, y, width, height) == y * (width - 1) + x
  {
    if y < height - 1 {
      MulMonotone(y + 1, height - 1, width - 1);
      assert (y + 1) * (width - 1) == y * (width - 1) + (width - 1);
    }
  }

  /** One row of the outer loop advances the vertex count by `width`. */
  lemma RowStep(y: int, width: int)
    ensures VertexIndex(0, y + 1, width) == VertexIndex(width, y, width)
  {
  }

  /** The first `n` vertices are those of the samples they number. */
  ghost predicate VerticesOk(s: seq<Vec3>, n: int, heightMap: array2<real>, heightMultiplier: real)
    reads heightMap
  {
    && 0 <= n <= |s| && n <= heightMap.Length0 * heightMap.Length1
    && (n > 0 ==> heightMap.Length0 > 0)
    && forall k :: 0 <= k < n ==> s[k] == VertexAt(heightMap, heightMultiplier, k)
  }

  /** The first `n` texture coordinates are those of the samples they number. */
  ghost predicate UvsOk(s: seq<Vec2>, n: int, width: int, height: int)
  {
    && 0 <= n <= |s| && n <= width * height
    && (n > 0 ==> width > 0 && height > 0)
    && forall k :: 0 <= k < n ==> s[k] == UvAt(width, height, k)
  }

  /** The first `n` index entries follow the cell pattern and index existing vertices. */
  ghost predicate TrianglesOk(s: seq<int>, n: int, width: int, height: int)
  {
    0 <= n <= |s| && forall t :: 0 <= t < n ==> s[t] == TriangleEntry(t, width) && 0 <= s[t] < width * height
  }

  lemma VertexStep(s: seq<Vec3>, s': seq<Vec3>, heightMap: array2<real>, heightMultiplier: real, x: int, y: int)
    requires 0 <= x < heightMap.Length0 && 0 <= y < heightMap.Length1
    requires VerticesOk(s, VertexIndex(x, y, heightMap.Length0), heightMap, heightMultiplier)
    requires |s'| == |s| && VertexIndex(x, y, heightMap.Length0) < |s|
    requires forall k :: 0 <= k < |s| && k != VertexIndex(x, y, heightMap.Length0) ==> s'[k] == s[k]
    requires s'[VertexIndex(x, y, heightMap.Length0)] == Vec3(x as real, heightMap[x, y] * heightMultiplier, y as real)
    ensures VerticesOk(s', VertexIndex(x, y, heightMap.Length0) + 1, heightMap, heightMultiplier)
  {
    VertexAtSample(heightMap, heightMultiplier, x, y);
  }

  lemma UvStep(s: seq<Vec2>, s': seq<Vec2>, width: int, height: int, x: int, y: int)
    requires 0 <= x < width && 0 <= y < height
    requires UvsOk(s, VertexIndex(x, y, width), width, height)
    requires |s'| == |s| && VertexIndex(x, y, width) < |s|
    requires forall k :: 0 <= k < |s| && k != VertexIndex(x, y, width) ==> s'[k] == s[k]
    requires s'[VertexIndex(x, y, width)] == Vec2(x as real / width as real, y as real / height as real)
    ensures UvsOk(s', VertexIndex(x, y, width) + 1, width, height)
  {
    VertexInRange(x, y, width, height);
    DivModUnique(VertexIndex(x, y, width), width, y, x);
  }

  lemma TriangleStep(s: seq<int>, s': seq<int>, n: int, width: int, height: int, x: int, y: int)
    requires 0 <= x < width - 1 && 0 <= y < height - 1 && n == 6 * (y * (width - 1) + x)
    requires TrianglesOk(s, n, width, height) && |s'| == |s| && n + 6 <= |s|
    requires forall t :: 0 <= t < n ==> s'[t] == s[t]
    requires forall r :: 0 <= r < 6 ==> s'[n + r] == VertexIndex(x, y, width) + Corner(r, width)
    ensures TrianglesOk(s', n + 6, width, height)
  {
    CellInRange(x, y, width, height);
    forall t | n <= t < n + 6
      ensures s'[t] == TriangleEntry(t, width) && 0 <= s'[t] < width * height
    {
      TriangleEntryAt(x, y, width, t - n);
    }
  }

  /** The vertex and texture coordinate writes for sample `(x, y)`. */
  method WriteSample(vertices: array<Vec3>, uvs: array<Vec2>, heightMap: array2<real>, heightMultiplier: real,
                     vertexIndex: int, x: int, y: int)
    requires 0 <= x < heightMap.Length0 && 0 <= y < heightMap.Length1
    requires vertexIndex == VertexIndex(x, y, heightMap.Length0)
    requires vertices.Length == heightMap.Length0 * heightMap.Length1 && uvs.Length == vertices.Length
    requires VerticesOk(vertices[..], vertexIndex, heightMap, heightMultiplier)
    requires UvsOk(uvs[..], vertexIndex, heightMap.Length0, heightMap.Length1)
    modifies vertices, uvs
    ensures VerticesOk(vertices[..], vertexIndex + 1, heightMap, heightMultiplier)
    ensures UvsOk(uvs[..], vertexIndex + 1, heightMap.Length0, heightMap.Length1)
  {
    var width, height := heightMap.Length0, heightMap.Length1;
    VertexInRange(x, y, width, height);
    var vertexHeight := heightMap[x, y];
    ghost var v0, u0 := vertices[..], uvs[..];
    vertices[vertexIndex] := Vec3(x as real, vertexHeight * heightMultiplier, y as real);
    VertexStep(v0, vertices[..], heightMap, heightMultiplier, x, y);
    uvs[vertexIndex] := Vec2(x as real / width as real, y as real / height as real);
    UvStep(u0, uvs[..], width, height, x, y);
  }

  /** The six index writes for the cell at `(x, y)`, whose first vertex is `vertexIndex`. */
  method WriteCellTriangles(triangles: array<int>, triangleIndex: int, vertexIndex: int, width: int, height: int,
                            x: int, y: int)
    requires 0 <= x < width - 1 && 0 <= y < height - 1
    requires triangleIndex == 6 * (y * (width - 1) + x) && vertexIndex == VertexIndex(x, y, width)
    requires triangles.Length == (width - 1) * (height - 1) * 6
    requires TrianglesOk(triangles[..], triangleIndex, width, height)
    modifies triangles
    ensures TrianglesOk(triangles[..], triangleIndex + 6, width, height)
    ensures forall t :: 0 <= t < triangles.Length && !(triangleIndex <= t < triangleIndex + 6) ==>
              triangles[t] == old(triangles[t])
  {
    CellInRange(x, y, width, height);
    ghost var t0 := triangles[..];
    triangles[triangleIndex] := vertexIndex;
    triangles[triangleIndex + 1] := vertexIndex + width;
    triangles[triangleIndex + 2] := vertexIndex + 1;
    triangles[triangleIndex + 3] := vertexIndex + 1;
    triangles[triangleIndex + 4] := vertexIndex + width;
    triangles[triangleIndex + 5] := vertexIndex + width + 1;
    TriangleStep(t0, triangles[..], triangleIndex, width, height, x, y);
  }

  /** One pass of the outer loop: the samples and cells of row `y`. */
  method FillRow(vertices: array<Vec3>, uvs: array<Vec2>, triangles: array<int>, heightMap: array2<real>,
                 heightMultiplier: real, y: int, triangleIndex0: int)
    returns (triangleIndex: int)
    requires 0 <= y < heightMap.Length1
    requires vertices.Length == heightMap.Length0 * heightMap.Length1 && uvs.Length == vertices.Length
    requires triangles.Length == (heightMap.Length0 - 1) * (heightMap.Length1 - 1) * 6
    requires triangleIndex0 == 6 * CellsBefore(0, y, heightMap.Length0, heightMap.Length1)
    requires VerticesOk(vertices[..], VertexIndex(0, y, heightMap.Length0), heightMap, heightMultiplier)
    requires UvsOk(uvs[..], VertexIndex(0, y, heightMap.Length0), heightMap.Length0, heightMap.Length1)
    requires TrianglesOk(triangles[..], triangleIndex0, heightMap.Length0, heightMap.Length1)
    modifies vertices, uvs, triangles
    ensures triangleIndex == 6 * CellsBefore(0, y + 1, heightMap.Length0, heightMap.Length1)
    ensures VerticesOk(vertices[..], VertexIndex(0, y + 1, heightMap.Length0), heightMap, heightMultiplier)
    ensures UvsOk(uvs[..], VertexIndex(0, y + 1, heightMap.Length0), heightMap.Length0, heightMap.Length1)
    ensures TrianglesOk(triangles[..], triangleIndex, heightMap.Length0, heightMap.Length1)
  {
    var width, height := heightMap.Length0, heightMap.Length1;
    triangleIndex := triangleIndex0;
    for x := 0 to width
      invariant triangleIndex == 6 * CellsBefore(x, y, width, height)
      invariant VerticesOk(vertices[..], VertexIndex(x, y, width), heightMap, heightMultiplier)
      invariant UvsOk(uvs[..], VertexIndex(x, y, width), width, height)
      invariant TrianglesOk(triangles[..], triangleIndex, width, height)
    {
      var vertexIndex := y * width + x;
      CellsStep(x, y, width, height);
      WriteSample(vertices, uvs, heightMap, heightMultiplier, vertexIndex, x, y);
      if x < width - 1 && y < height - 1 {
        WriteCellTriangles(triangles, triangleIndex, vertexIndex, width, height, x, y);
        triangleIndex := triangleIndex + 6;
      }
    }
    RowStep(y, width);
  }

  /** After the last row every sample and every cell has been written. */
  lemma FinalCounts(width: int, height: int)
    requires width >= 0 && height >= 0
    ensures VertexIndex(0, height, width) == width * height
    ensures width >= 1 && height >= 1 ==> 6 * CellsBefore(0, height, width, height) == (width - 1) * (height - 1) * 6
  {
  }

  /**
    `GenerateTerrain` up to the mesh buffers. It returns before building any
    vertex data when the material is missing; the index buffer's size
    `(width - 1) * (height - 1) * 6` is negative, and C# throws, when exactly one
    dimension of the height map is zero and the other is at least 2.
   */
  method GenerateTerrain(heightMap: array2<real>, hasMaterial: bool, heightMultiplier: real)
    returns (out: MeshOutcome)
    ensures !hasMaterial ==> out == NoMaterial
    ensures hasMaterial && (heightMap.Length0 - 1) * (heightMap.Length1 - 1) < 0 ==> out == NegativeArraySize
    ensures out.Built? ==>
              var width, height := heightMap.Length0, heightMap.Length1;
              var b := out.buffers;
              && fresh(b.vertices) && fresh(b.uvs) && fresh(b.triangles)
              && b.vertices.Length == width * height && b.uvs.Length == width * height
              && b.triangles.Length == (width - 1) * (height - 1) * 6
              && 0 <= b.triangleIndex <= b.triangles.Length
              && (width >= 1 && height >= 1 ==> b.triangleIndex == b.triangles.Length)
              && (forall k :: 0 <= k < width * height ==> b.vertices[k] == VertexAt(heightMap, heightMultiplier, k))
              && (forall k :: 0 <= k < width * height ==> b.uvs[k] == UvAt(width, height, k))
              && (forall t :: 0 <= t < b.triangleIndex ==>
                    b.triangles[t] == TriangleEntry(t, width) && 0 <= b.triangles[t] < width * height)
  {
    if !hasMaterial {
      return NoMaterial;
    }
    var width := heightMap.Length0;
    var height := heightMap.Length1;
    if (width - 1) * (height - 1) < 0 {
      return NegativeArraySize;
    }
    var vertices := new Vec3[width * height];
    var triangles := new int[(width - 1) * (height - 1) * 6];
    var uvs := new Vec2[width * height];

    var triangleIndex := 0;
    for y := 0 to height
      invariant triangleIndex == 6 * CellsBefore(0, y, width, height)
      invariant VerticesOk(vertices[..], VertexIndex(0, y, width), heightMap, heightMultiplier)
      invariant UvsOk(uvs[..], VertexIndex(0, y, width), width, height)
      invariant TrianglesOk(triangles[..], triangleIndex, width, height)
    {
      triangleIndex := FillRow(vertices, uvs, triangles, heightMap, heightMultiplier, y, triangleIndex);
    }
    FinalCounts(width, height);
    return Built(MeshBuffers(vertices, uvs, triangles, triangleIndex));
  }
}
