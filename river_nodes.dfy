/**
  Node selection of `GenerateRiverMask`: the heightmap is sampled into a
  `[y, x]` grid, every cell whose mask value is above 0.5 is a valid point,
  the lowest valid point becomes node 0 (the river mouth), and tributary
  sources are drawn without replacement from the remaining valid points,
  listed from highest to lowest.
 */
module RiverNodes {
  import opened Common
  import opened Sorting

  /** A valid point: its cell and its height. */
  datatype PointData = PointData(position: Int2, height: real)

  /** No two points share a cell. */
  predicate UniquePositions(ps: seq<PointData>)
  {
    forall i, j :: 0 <= i < j < |ps| ==> ps[i].position != ps[j].position
  }

  /** No cell is listed twice. */
  predicate DistinctCells(cells: seq<Int2>)
  {
    forall i, j :: 0 <= i < j < |cells| ==> cells[i] != cells[j]
  }

  // ---------------------------------------------------------------------------
  // Heights and valid points
  // ---------------------------------------------------------------------------

  /**
    Lines 54-61: `originalHeights[y, x]` is the red channel of the bilinear
    sample of the heightmap at `(x / resolution, y / resolution)`.
   */
  method SampleHeights(resolution: nat, bilinear: (real, real) -> real) returns (heights: array2<real>)
    ensures fresh(heights) && heights.Length0 == resolution && heights.Length1 == resolution
    ensures forall y, x :: 0 <= y < resolution && 0 <= x < resolution ==>
              heights[y, x] == bilinear(x as real / resolution as real, y as real / resolution as real)
  {
    heights := new real[resolution, resolution];
    for y := 0 to resolution
      invariant forall y', x :: 0 <= y' < y && 0 <= x < resolution ==>
                  heights[y', x] == bilinear(x as real / resolution as real, y' as real / resolution as real)
    {
      for x := 0 to resolution
        invariant forall y', x' :: 0 <= y' < resolution && 0 <= x' < resolution && (y' < y || (y' == y && x' < x)) ==>
                    heights[y', x'] == bilinear(x' as real / resolution as real, y' as real / resolution as real)
      {
        heights[y, x] := bilinear(x as real / resolution as real, y as real / resolution as real);
      }
    }
  }

  /** A cell of the grid whose mask value is above 0.5, with the height of that cell. */
  ghost predicate IsValidPoint(maskAt: (int, int) -> real, heights: array2<real>, p: PointData)
    reads heights
  {
    && 0 <= p.position.y < heights.Length0 && 0 <= p.position.x < heights.Length1
    && maskAt(p.position.x, p.position.y) > 0.5
    && p.height == heights[p.position.y, p.position.x]
  }

  /** The valid points of row `y` among its first `x` cells, left to right. */
  function RowPoints(maskAt: (int, int) -> real, heights: array2<real>, y: int, x: nat): seq<PointData>
    requires 0 <= y < heights.Length0 && x <= heights.Length1
    reads heights
  {
    if x == 0 then []
    else
      RowPoints(maskAt, heights, y, x - 1)
      + (if maskAt(x - 1, y) > 0.5 then [PointData(Int2(x - 1, y), heights[y, x - 1])] else [])
  }

  /** The valid points of the first `y` rows, in the order of the scan. */
  function ScanPoints(maskAt: (int, int) -> real, heights: array2<real>, y: nat): seq<PointData>
    requires y <= heights.Length0
    reads heights
  {
    if y == 0 then []
    else ScanPoints(maskAt, heights, y - 1) + RowPoints(maskAt, heights, y - 1, heights.Length1)
  }

  /** A row lists exactly its valid cells before `x`, each once. */
  lemma {:induction false} RowExact(maskAt: (int, int) -> real, heights: array2<real>, y: int, x: nat)
    requires 0 <= y < heights.Length0 && x <= heights.Length1
    ensures UniquePositions(RowPoints(maskAt, heights, y, x))
    ensures forall p :: p in RowPoints(maskAt, heights, y, x) <==>
              IsValidPoint(maskAt, heights, p) && p.position.y == y && p.position.x < x
  {
    if x > 0 {
      RowExact(maskAt, heights, y, x - 1);
      var before := RowPoints(maskAt, heights, y, x - 1);
      assert forall k :: 0 <= k < |before| ==> before[k] in before;
    }
  }

  /** The scan lists exactly the valid cells of the first `y` rows, each once. */
  lemma {:induction false} ScanExact(maskAt: (int, int) -> real, heights: array2<real>, y: nat)
    requires y <= heights.Length0
    ensures UniquePositions(ScanPoints(maskAt, heights, y))
    ensures forall p :: p in ScanPoints(maskAt, heights, y) <==> IsValidPoint(maskAt, heights, p) && p.position.y < y
  {
    if y > 0 {
      ScanExact(maskAt, heights, y - 1);
      RowExact(maskAt, heights, y - 1, heights.Length1);
      var a := ScanPoints(maskAt, heights, y - 1);
      var b := RowPoints(maskAt, heights, y - 1, heights.Length1);
      forall i, j | 0 <= i < |a| && 0 <= j < |b|
        ensures a[i].position != b[j].position
      {
        assert a[i] in a && b[j] in b;
      }
      UniqueConcat(a, b);
    }
  }

  /** Two lists of points in different cells, with no cell in both, join into one. */
  lemma UniqueConcat(a: seq<PointData>, b: seq<PointData>)
    requires UniquePositions(a) && UniquePositions(b)
    requires forall i, j :: 0 <= i < |a| && 0 <= j < |b| ==> a[i].position != b[j].position
    ensures UniquePositions(a + b)
  {
    var ab := a + b;
    forall i, j | 0 <= i < j < |ab|
      ensures ab[i].position != ab[j].position
    {
      if j >= |a| && i < |a| {
        assert ab[i] == a[i] && ab[j] == b[j - |a|];
      } else if i >= |a| {
        assert ab[i] == b[i - |a|] && ab[j] == b[j - |a|];
      }
    }
  }

  /** Lines 68-75: the valid points in scan order, rows bottom to top and each row left to right. */
  method ScanValid(maskAt: (int, int) -> real, heights: array2<real>) returns (validPoints: seq<PointData>)
    ensures validPoints == ScanPoints(maskAt, heights, heights.Length0)
  {
    validPoints := [];
    for y := 0 to heights.Length0
      invariant validPoints == ScanPoints(maskAt, heights, y)
    {
      ghost var rowStart := validPoints;
      for x := 0 to heights.Length1
        invariant validPoints == rowStart + RowPoints(maskAt, heights, y, x)
      {
        if maskAt(x, y) > 0.5 {
          validPoints := validPoints + [PointData(Int2(x, y), heights[y, x])];
        }
      }
    }
  }

  // ---------------------------------------------------------------------------
  // The mouth and the candidates
  // ---------------------------------------------------------------------------

  function Height(p: PointData): real
  {
    p.height
  }

  function NegHeight(p: PointData): real
  {
    -p.height
  }

  /**
    Line 87: `validPoints.OrderBy(p => p.height).First()`: a valid point of
    least height, and since the sort is stable, the first such in scan order.
   */
  function Lowest(validPoints: seq<PointData>): (lowest: PointData)
    requires |validPoints| > 0
    ensures lowest in validPoints
    ensures forall q :: q in validPoints ==> lowest.height <= q.height
    ensures exists k :: 0 <= k < |validPoints| && validPoints[k] == lowest &&
              forall j :: 0 <= j < k ==> validPoints[j].height > lowest.height
  {
    var sorted := SortBy(validPoints, Height);
    SortHeadFirst(validPoints, Height);
    assert sorted[0] in multiset(sorted);
    forall q | q in validPoints
      ensures sorted[0].height <= q.height
    {
      assert q in multiset(sorted);
      var k :| 0 <= k < |sorted| && sorted[k] == q;
      if k > 0 {
        assert Height(sorted[0]) <= Height(sorted[k]);
      }
    }
    sorted[0]
  }

  /** `.Where(p => p.position != cell)`: the points in another cell, in their order. */
  function Without(ps: seq<PointData>, cell: Int2): (r: seq<PointData>)
    ensures forall p :: p in r <==> p in ps && p.position != cell
  {
    if |ps| == 0 then []
    else
      var rest := Without(ps[..|ps| - 1], cell);
      assert ps == ps[..|ps| - 1] + [ps[|ps| - 1]];
      if ps[|ps| - 1].position != cell then rest + [ps[|ps| - 1]] else rest
  }

  /** Dropping a point's cell from points in different cells leaves one point fewer and the rest in different cells. */
  lemma {:induction false} WithoutOne(ps: seq<PointData>, k: int)
    requires UniquePositions(ps) && 0 <= k < |ps|
    ensures |Without(ps, ps[k].position)| == |ps| - 1
    ensures UniquePositions(Without(ps, ps[k].position))
  {
    WithoutUnique(ps, ps[k].position);
    var last := |ps| - 1;
    var init := ps[..last];
    var cell := ps[k].position;
    if k < last {
      assert init[k] == ps[k];
      assert ps[last].position != cell;
      WithoutOne(init, k);
      assert Without(ps, cell) == Without(init, cell) + [ps[last]];
    } else {
      WithoutNone(init, cell);
      assert Without(ps, cell) == Without(init, cell);
    }
  }

  lemma {:induction false} WithoutNone(ps: seq<PointData>, cell: Int2)
    requires forall i :: 0 <= i < |ps| ==> ps[i].position != cell
    ensures Without(ps, cell) == ps
  {
    if |ps| > 0 {
      WithoutNone(ps[..|ps| - 1], cell);
      assert ps == ps[..|ps| - 1] + [ps[|ps| - 1]];
    }
  }

  lemma {:induction false} WithoutUnique(ps: seq<PointData>, cell: Int2)
    requires UniquePositions(ps)
    ensures UniquePositions(Without(ps, cell))
  {
    if |ps| > 0 {
      var last := |ps| - 1;
      var init := ps[..last];
      WithoutUnique(init, cell);
      var rest := Without(init, cell);
      if ps[last].position != cell {
        var r := rest + [ps[last]];
        forall i, j | 0 <= i < j < |r|
          ensures r[i].position != r[j].position
        {
          if j == |rest| {
            assert r[i] in rest;
            var m :| 0 <= m < |init| && init[m] == r[i];
            assert ps[m] == r[i];
          } else {
            assert r[i] == rest[i] && r[j] == rest[j];
          }
        }
      }
    }
  }

  /** Inserting a point whose cell is new keeps every cell once. */
  lemma {:induction false} InsertUnique(x: PointData, s: seq<PointData>, key: PointData -> real)
    requires UniquePositions(s) && forall k :: 0 <= k < |s| ==> s[k].position != x.position
    ensures UniquePositions(InsertBy(x, s, key))
  {
    if |s| > 0 && key(x) > key(s[0]) {
      var tail := s[1..];
      InsertUnique(x, tail, key);
      var ins := InsertBy(x, tail, key);
      var r := [s[0]] + ins;
      forall j | 0 < j < |r|
        ensures r[0].position != r[j].position
      {
        assert r[j] in multiset(ins);
        if r[j] != x {
          assert r[j] in multiset(tail);
          var m :| 0 <= m < |tail| && tail[m] == r[j];
          assert s[m + 1] == r[j];
        }
      }
      forall i, j | 0 < i < j < |r|
        ensures r[i].position != r[j].position
      {
        assert r[i] == ins[i - 1] && r[j] == ins[j - 1];
      }
    }
  }

  /** Sorting points in different cells keeps them in different cells. */
  lemma {:induction false} SortUnique(s: seq<PointData>, key: PointData -> real)
    requires UniquePositions(s)
    ensures UniquePositions(SortBy(s, key))
  {
    if |s| > 0 {
      var tail := s[1..];
      SortUnique(tail, key);
      var sorted := SortBy(tail, key);
      forall k | 0 <= k < |sorted|
        ensures sorted[k].position != s[0].position
      {
        assert sorted[k] in multiset(tail);
        var m :| 0 <= m < |tail| && tail[m] == sorted[k];
        assert s[m + 1] == sorted[k];
      }
      InsertUnique(s[0], sorted, key);
    }
  }

  /** Lines 91-94: the valid points other than the mouth, from highest to lowest (ties in scan order). */
  function Candidates(validPoints: seq<PointData>, lowest: PointData): (cands: seq<PointData>)
    ensures multiset(cands) == multiset(Without(validPoints, lowest.position))
    ensures forall i, j :: 0 <= i < j < |cands| ==> cands[i].height >= cands[j].height
    ensures forall h :: WithKey(cands, NegHeight, h) == WithKey(Without(validPoints, lowest.position), NegHeight, h)
  {
    var r := SortBy(Without(validPoints, lowest.position), NegHeight);
    forall h
      ensures WithKey(r, NegHeight, h) == WithKey(Without(validPoints, lowest.position), NegHeight, h)
    {
      SortStable(Without(validPoints, lowest.position), NegHeight, h);
    }
    assert Ascending(r, NegHeight);
    assert forall i, j :: 0 <= i < j < |r| ==> NegHeight(r[i]) <= NegHeight(r[j]);
    r
  }

  /** The cells of a list of points. */
  function Cells(ps: seq<PointData>): (cells: seq<Int2>)
    ensures |cells| == |ps| && forall k :: 0 <= k < |ps| ==> cells[k] == ps[k].position
  {
    seq(|ps|, k requires 0 <= k < |ps| => ps[k].position)
  }

  /**
    The candidates are the valid points in other cells than the mouth's, one
    per cell, one fewer than the valid points.
   */
  lemma CandidatesExact(validPoints: seq<PointData>)
    requires |validPoints| > 0 && UniquePositions(validPoints)
    ensures |Candidates(validPoints, Lowest(validPoints))| == |validPoints| - 1
    ensures DistinctCells(Cells(Candidates(validPoints, Lowest(validPoints))))
    ensures forall p :: p in Candidates(validPoints, Lowest(validPoints)) <==>
              p in validPoints && p.position != Lowest(validPoints).position
  {
    var lowest := Lowest(validPoints);
    var k :| 0 <= k < |validPoints| && validPoints[k] == lowest;
    WithoutOne(validPoints, k);
    var w := Without(validPoints, lowest.position);
    SortUnique(w, NegHeight);
    var cands := Candidates(validPoints, lowest);
    assert cands == SortBy(w, NegHeight);
    SameElements(cands, w);
  }

  /** Lists with the same multiset hold the same points. */
  lemma SameElements(a: seq<PointData>, b: seq<PointData>)
    requires multiset(a) == multiset(b)
    ensures forall p :: p in a <==> p in b
  {
    forall p
      ensures p in a <==> p in b
    {
      assert p in a <==> p in multiset(a);
      assert p in b <==> p in multiset(b);
    }
  }

  // ---------------------------------------------------------------------------
  // Drawing the tributary sources
  // ---------------------------------------------------------------------------

  /** `list.RemoveAt(r)`. */
  function RemoveAt(s: seq<Int2>, r: int): (t: seq<Int2>)
    requires 0 <= r < |s|
    ensures |t| == |s| - 1
    ensures multiset(t) + multiset{s[r]} == multiset(s)
  {
    assert s == s[..r] + [s[r]] + s[r + 1..];
    s[..r] + s[r + 1..]
  }

  /** Removing from a list without repeats leaves the other cells, without the removed one. */
  lemma RemoveAtDistinct(s: seq<Int2>, r: int)
    requires 0 <= r < |s| && DistinctCells(s)
    ensures DistinctCells(RemoveAt(s, r))
    ensures s[r] !in RemoveAt(s, r)
    ensures forall c :: c in RemoveAt(s, r) ==> c in s
  {
    var t := RemoveAt(s, r);
    assert t == s[..r] + s[r + 1..];
    forall a, b | 0 <= a < b < |t|
      ensures t[a] != t[b]
    {
      var a', b' := if a < r then a else a + 1, if b < r then b else b + 1;
      assert t[a] == s[a'] && t[b] == s[b'];
    }
    forall m | 0 <= m < |t|
      ensures t[m] != s[r]
    {
      var m' := if m < r then m else m + 1;
      assert t[m] == s[m'];
    }
  }

  /**
    The cells the loop of lines 96-103 picks, from iteration `i` on: while
    picks remain and candidates are left, the one at `Random.Range(0, Count)`
    is taken and removed.
   */
  function Draft(rest: seq<Int2>, picks: int, draws: nat -> nat, i: nat): seq<Int2>
    decreases |rest|
  {
    if picks <= 0 || |rest| == 0 then []
    else
      var r := RangeInt(|rest|, draws(i));
      [rest[r]] + Draft(RemoveAt(rest, r), picks - 1, draws, i + 1)
  }

  /** The draft takes `min(picks, |rest|)` cells: it stops when the picks or the candidates run out. */
  lemma {:induction false} DraftTakes(rest: seq<Int2>, picks: int, draws: nat -> nat, i: nat)
    ensures |Draft(rest, picks, draws, i)| == MinInt(Iterations(picks), |rest|)
    decreases |rest|
  {
    if picks > 0 && |rest| > 0 {
      var r := RangeInt(|rest|, draws(i));
      DraftTakes(RemoveAt(rest, r), picks - 1, draws, i + 1);
    }
  }

  /** From a list without repeats the draft takes listed cells, none twice. */
  lemma {:induction false} DraftDistinct(rest: seq<Int2>, picks: int, draws: nat -> nat, i: nat)
    requires DistinctCells(rest)
    ensures DistinctCells(Draft(rest, picks, draws, i))
    ensures forall c :: c in Draft(rest, picks, draws, i) ==> c in rest
    decreases |rest|
  {
    if picks > 0 && |rest| > 0 {
      var r := RangeInt(|rest|, draws(i));
      var left := RemoveAt(rest, r);
      RemoveAtDistinct(rest, r);
      DraftDistinct(left, picks - 1, draws, i + 1);
      var tail := Draft(left, picks - 1, draws, i + 1);
      var d := [rest[r]] + tail;
      forall a, b | 0 <= a < b < |d|
        ensures d[a] != d[b]
      {
        if a == 0 {
          assert d[b] == tail[b - 1] && tail[b - 1] in tail;
        } else {
          assert d[a] == tail[a - 1] && d[b] == tail[b - 1];
        }
      }
    }
  }

  /** Lines 96-103: draws `numberOfTributaries` cells (fewer if the candidates run out) without replacement. */
  method DrawTributaries(candidates: seq<Int2>, numberOfTributaries: int, draws: nat -> nat) returns (picked: seq<Int2>)
    ensures picked == Draft(candidates, numberOfTributaries, draws, 0)
  {
    picked := [];
    var rest := candidates;
    var i := 0;
    while i < numberOfTributaries
      invariant 0 <= i
      invariant picked + Draft(rest, numberOfTributaries - i, draws, i) == Draft(candidates, numberOfTributaries, draws, 0)
      decreases numberOfTributaries - i
    {
      if |rest| == 0 {
        break;
      }
      var randIndex := RangeInt(|rest|, draws(i));
      picked := picked + [rest[randIndex]];
      rest := RemoveAt(rest, randIndex);
      i := i + 1;
    }
  }

  /** Lines 85-103: the mouth, the lowest valid point, followed by the drawn tributary sources. */
  function Nodes(validPoints: seq<PointData>, numberOfTributaries: int, draws: nat -> nat): (nodes: seq<Int2>)
    requires |validPoints| > 0
    ensures |nodes| >= 1 && nodes[0] == Lowest(validPoints).position
  {
    var lowest := Lowest(validPoints);
    [lowest.position] + Draft(Cells(Candidates(validPoints, lowest)), numberOfTributaries, draws, 0)
  }

  /** A cell not in a list without repeats can go in front of it. */
  lemma PrependDistinct(x: Int2, s: seq<Int2>)
    requires DistinctCells(s) && x !in s
    ensures DistinctCells([x] + s)
  {
    var r := [x] + s;
    forall a, b | 0 <= a < b < |r|
      ensures r[a] != r[b]
    {
      if a == 0 {
        assert r[b] == s[b - 1] && s[b - 1] in s;
      } else {
        assert r[a] == s[a - 1] && r[b] == s[b - 1];
      }
    }
  }

  /**
    There are `1 + min(numberOfTributaries, |validPoints| - 1)` nodes, all in
    different cells, each the cell of a valid point; node 0 has the least height.
   */
  lemma NodesChosen(validPoints: seq<PointData>, numberOfTributaries: int, draws: nat -> nat)
    requires |validPoints| > 0 && UniquePositions(validPoints)
    ensures |Nodes(validPoints, numberOfTributaries, draws)| == 1 + MinInt(Iterations(numberOfTributaries), |validPoints| - 1)
    ensures DistinctCells(Nodes(validPoints, numberOfTributaries, draws))
    ensures forall k :: 0 <= k < |Nodes(validPoints, numberOfTributaries, draws)| ==>
              exists p :: p in validPoints && p.position == Nodes(validPoints, numberOfTributaries, draws)[k]
    ensures forall q :: q in validPoints ==> Lowest(validPoints).height <= q.height
  {
    var lowest := Lowest(validPoints);
    CandidatesExact(validPoints);
    var cells := Cells(Candidates(validPoints, lowest));
    DraftTakes(cells, numberOfTributaries, draws, 0);
    DraftDistinct(cells, numberOfTributaries, draws, 0);
    CellsOf(validPoints, lowest, cells);
    var picked := Draft(cells, numberOfTributaries, draws, 0);
    PrependDistinct(lowest.position, picked);
    var nodes := [lowest.position] + picked;
    assert nodes == Nodes(validPoints, numberOfTributaries, draws);
    forall k | 0 <= k < |nodes|
      ensures exists p :: p in validPoints && p.position == nodes[k]
    {
      if k > 0 {
        assert nodes[k] == picked[k - 1] && picked[k - 1] in picked;
      }
    }
  }

  /** Every candidate cell is the cell of a valid point, and none is the mouth's. */
  lemma CellsOf(validPoints: seq<PointData>, lowest: PointData, cells: seq<Int2>)
    requires cells == Cells(Candidates(validPoints, lowest))
    requires forall p :: p in Candidates(validPoints, lowest) <==> p in validPoints && p.position != lowest.position
    ensures forall c :: c in cells ==> c != lowest.position && exists p :: p in validPoints && p.position == c
  {
    var cands := Candidates(validPoints, lowest);
    forall c | c in cells
      ensures c != lowest.position && exists p :: p in validPoints && p.position == c
    {
      var m :| 0 <= m < |cells| && cells[m] == c;
      assert cands[m] in cands;
    }
  }
}
