/**
  The terrain's tree list and the 5-unit lattices the tree placers scan. A
  placer builds a new list of tree instances and hands it to
  `SetTreeInstances`, which replaces every tree the terrain had.
 */
module Trees {
  import opened Common

  /** A `TreeInstance`: position normalised to the terrain, prototype and scales (colours are always white). */
  datatype TreeInstance = TreeInstance(position: Vec3, prototypeIndex: nat, widthScale: real, heightScale: real)

  /** The part of `TerrainData` the placers read and write. */
  class TerrainData {
    const size: Vec3
    var treePrototypeCount: nat
    var treeInstances: seq<TreeInstance>

    constructor (size: Vec3, treePrototypeCount: nat, treeInstances: seq<TreeInstance>)
      ensures this.size == size && this.treePrototypeCount == treePrototypeCount
      ensures this.treeInstances == treeInstances
    {
      this.size := size;
      this.treePrototypeCount := treePrototypeCount;
      this.treeInstances := treeInstances;
    }

    /** `SetTreeInstances`: the new list replaces the old one. */
    method SetTreeInstances(instances: seq<TreeInstance>)
      modifies this
      ensures treeInstances == instances
      ensures treePrototypeCount == old(treePrototypeCount)
    {
      treeInstances := instances;
    }

    /** Assigning `treePrototypes`: the terrain now has `count` prototypes. */
    method SetTreePrototypes(count: nat)
      modifies this
      ensures treePrototypeCount == count
      ensures treeInstances == old(treeInstances)
    {
      treePrototypeCount := count;
    }
  }

  /**
    The number of points `0, step, 2 * step, ...` below `size`: the trip count
    of `for (float v = 0; v < size; v += step)`.
   */
  function LatticeCount(size: real, step: real): nat
    requires step > 0.0
  {
    if size <= 0.0 then 0 else CeilToInt(size / step)
  }

  /** Point `k` of the lattice is visited exactly when it lies below `size`. */
  lemma LatticeCountExact(size: real, step: real, k: nat)
    requires step > 0.0
    ensures k < LatticeCount(size, step) <==> (k as real) * step < size
  {
    if size > 0.0 {
      var v := size / step;
      assert v * step == size;
      if k as real < v {
        assert (k as real) * step < v * step;
      } else {
        assert (k as real) * step >= v * step;
      }
    }
  }

  /** The spacing of the tree lattices, in world units. */
  const LatticeStep: real := 5.0

  /** The world coordinate of tree lattice index `k`. */
  function Coord(k: nat): (v: real)
    ensures v >= 0.0
  {
    k as real * LatticeStep
  }

  /** A world coordinate divided by the terrain's extent along that axis: `TreeInstance` positions are in [0, 1]. */
  function Normalised(v: real, extent: real): real
    requires extent != 0.0
  {
    v / extent
  }

  /** Normalising and scaling back is the identity. */
  lemma NormalisedInverse(v: real, extent: real)
    requires extent != 0.0
    ensures Normalised(v, extent) * extent == v
  {
  }

  /** Dividing by a positive extent keeps the order. */
  lemma NormalisedMonotone(a: real, b: real, extent: real)
    requires extent > 0.0 && a <= b
    ensures Normalised(a, extent) <= Normalised(b, extent)
  {
    assert Normalised(b, extent) - Normalised(a, extent) == (b - a) / extent;
  }

  /** A coordinate in `[0, extent)` normalises into `[0, 1)`. */
  lemma NormalisedUnit(v: real, extent: real)
    requires 0.0 <= v < extent
    ensures 0.0 <= Normalised(v, extent) < 1.0
  {
  }

  /** A positive part of a positive extent normalises into `(0, 1]`. */
  lemma NormalisedFraction(v: real, extent: real)
    requires 0.0 < v <= extent
    ensures 0.0 < Normalised(v, extent) <= 1.0
  {
  }

  /** What the first `n` points of lattice row `row` produce, in scan order; `cell(row, col)` is one point. */
  function RowScan<T>(cell: (nat, nat) -> Option<T>, row: nat, n: nat): seq<T>
  {
    if n == 0 then []
    else
      var prefix := RowScan(cell, row, n - 1);
      match cell(row, n - 1)
      case Some(v) => prefix + [v]
      case None => prefix
  }

  /** What the first `rows` rows of `cols` points produce: rows outer, points inner. */
  function Scan<T>(cell: (nat, nat) -> Option<T>, rows: nat, cols: nat): seq<T>
  {
    if rows == 0 then [] else Scan(cell, rows - 1, cols) + RowScan(cell, rows - 1, cols)
  }

  /** Point `(row, col)` of a lattice with `rows` rows and `cols` points per row produced `v`. */
  ghost predicate ProducedBy<T>(cell: (nat, nat) -> Option<T>, rows: nat, cols: nat, v: T)
  {
    exists row: nat, col: nat {:trigger cell(row, col)} :: row < rows && col < cols && cell(row, col) == Some(v)
  }

  /** A lattice point: row `row`, point `col` of that row. */
  datatype Site = Site(row: nat, col: nat)

  /** `a` comes strictly before `b` in the scan: an earlier row, or the same row and an earlier point. */
  predicate SiteBefore(a: Site, b: Site)
  {
    a.row < b.row || (a.row == b.row && a.col < b.col)
  }

  /** The points of row `row`, among its first `n`, that produce an entry, in scan order. */
  function RowSites<T>(cell: (nat, nat) -> Option<T>, row: nat, n: nat): seq<Site>
  {
    if n == 0 then []
    else RowSites(cell, row, n - 1) + (if cell(row, n - 1).Some? then [Site(row, n - 1)] else [])
  }

  /** The points of the first `rows` rows of `cols` points that produce an entry, in scan order. */
  function Sites<T>(cell: (nat, nat) -> Option<T>, rows: nat, cols: nat): seq<Site>
  {
    if rows == 0 then [] else Sites(cell, rows - 1, cols) + RowSites(cell, rows - 1, cols)
  }

  /**
    `sites[k]` is the lattice point that produced `entries[k]`, and the points
    strictly increase in scan order: no point produced two entries.
   */
  ghost predicate SitesOf<T>(cell: (nat, nat) -> Option<T>, rows: nat, cols: nat, entries: seq<T>, sites: seq<Site>)
  {
    && |sites| == |entries|
    && (forall k :: 0 <= k < |sites| ==>
          sites[k].row < rows && sites[k].col < cols && cell(sites[k].row, sites[k].col) == Some(entries[k]))
    && (forall i, j :: 0 <= i < j < |sites| ==> SiteBefore(sites[i], sites[j]))
  }

  /** Each element of a row scan comes from its own point of that row, in order, so at most one per point. */
  lemma {:induction false} RowScanFrom<T>(cell: (nat, nat) -> Option<T>, row: nat, n: nat)
    ensures |RowScan(cell, row, n)| <= n
    ensures forall k :: 0 <= k < |RowScan(cell, row, n)| ==> ProducedBy(cell, row + 1, n, RowScan(cell, row, n)[k])
    ensures SitesOf(cell, row + 1, n, RowScan(cell, row, n), RowSites(cell, row, n))
    ensures forall k :: 0 <= k < |RowSites(cell, row, n)| ==> RowSites(cell, row, n)[k].row == row
  {
    if n > 0 {
      RowScanFrom(cell, row, n - 1);
      var prefix := RowScan(cell, row, n - 1);
      var all := RowScan(cell, row, n);
      var sites := RowSites(cell, row, n);
      var before := RowSites(cell, row, n - 1);
      assert |sites| == |all|;
      forall k | 0 <= k < |sites|
        ensures sites[k].row == row && sites[k].col < n && cell(sites[k].row, sites[k].col) == Some(all[k])
      {
        if k < |before| {
          assert sites[k] == before[k] && all[k] == prefix[k];
        }
      }
      forall k | 0 <= k < |all|
        ensures ProducedBy(cell, row + 1, n, all[k])
      {
        assert cell(sites[k].row, sites[k].col) == Some(all[k]);
      }
      forall i, j | 0 <= i < j < |sites|
        ensures SiteBefore(sites[i], sites[j])
      {
        if j < |before| {
          assert sites[i] == before[i] && sites[j] == before[j];
        } else {
          assert sites[i] == before[i];
        }
      }
    }
  }

  /** An entry whose site is recorded by `SitesOf` was produced by a point of the lattice. */
  lemma SitesProduced<T>(cell: (nat, nat) -> Option<T>, rows: nat, cols: nat, entries: seq<T>, sites: seq<Site>)
    requires SitesOf(cell, rows, cols, entries, sites)
    ensures forall k :: 0 <= k < |entries| ==> ProducedBy(cell, rows, cols, entries[k])
  {
    forall k | 0 <= k < |entries|
      ensures ProducedBy(cell, rows, cols, entries[k])
    {
      assert cell(sites[k].row, sites[k].col) == Some(entries[k]);
    }
  }

  /** Sites within the first `rows` rows are within any larger number of rows. */
  lemma SitesWiden<T>(cell: (nat, nat) -> Option<T>, rows: nat, rows': nat, cols: nat, entries: seq<T>, sites: seq<Site>)
    requires rows <= rows' && SitesOf(cell, rows, cols, entries, sites)
    ensures SitesOf(cell, rows', cols, entries, sites)
  {
  }

  /** Two recorded scans, every site of the first before every site of the second, join into one. */
  lemma SitesAppend<T>(cell: (nat, nat) -> Option<T>, rows: nat, cols: nat,
                       entries: seq<T>, sites: seq<Site>, entries': seq<T>, sites': seq<Site>)
    requires SitesOf(cell, rows, cols, entries, sites) && SitesOf(cell, rows, cols, entries', sites')
    requires forall i, j :: 0 <= i < |sites| && 0 <= j < |sites'| ==> SiteBefore(sites[i], sites'[j])
    ensures SitesOf(cell, rows, cols, entries + entries', sites + sites')
  {
    var all, both := entries + entries', sites + sites';
    forall k | 0 <= k < |both|
      ensures both[k].row < rows && both[k].col < cols && cell(both[k].row, both[k].col) == Some(all[k])
    {
      if k < |sites| {
        assert both[k] == sites[k] && all[k] == entries[k];
      } else {
        assert both[k] == sites'[k - |sites|] && all[k] == entries'[k - |entries|];
      }
    }
    forall i, j | 0 <= i < j < |both|
      ensures SiteBefore(both[i], both[j])
    {
      if j < |sites| {
        assert both[i] == sites[i] && both[j] == sites[j];
      } else if i < |sites| {
        assert both[i] == sites[i] && both[j] == sites'[j - |sites|];
      } else {
        assert both[i] == sites'[i - |sites|] && both[j] == sites'[j - |sites|];
      }
    }
  }

  /** Entry `k` of a lattice scan comes from site `k` of `Sites`, and the sites strictly increase. */
  lemma {:induction false} ScanSites<T>(cell: (nat, nat) -> Option<T>, rows: nat, cols: nat)
    ensures SitesOf(cell, rows, cols, Scan(cell, rows, cols), Sites(cell, rows, cols))
  {
    if rows > 0 {
      ScanSites(cell, rows - 1, cols);
      RowScanFrom(cell, rows - 1, cols);
      var early := Sites(cell, rows - 1, cols);
      var late := RowSites(cell, rows - 1, cols);
      SitesWiden(cell, rows - 1, rows, cols, Scan(cell, rows - 1, cols), early);
      assert forall i, j :: 0 <= i < |early| && 0 <= j < |late| ==> SiteBefore(early[i], late[j]) by {
        assert forall i :: 0 <= i < |early| ==> early[i].row < rows - 1;
        assert forall j :: 0 <= j < |late| ==> late[j].row == rows - 1;
      }
      SitesAppend(cell, rows, cols, Scan(cell, rows - 1, cols), early, RowScan(cell, rows - 1, cols), late);
    }
  }

  /** Each element of a lattice scan comes from its own point, in scan order, so at most one per point. */
  lemma {:induction false} ScanFrom<T>(cell: (nat, nat) -> Option<T>, rows: nat, cols: nat)
    ensures |Scan(cell, rows, cols)| <= rows * cols
    ensures forall k :: 0 <= k < |Scan(cell, rows, cols)| ==> ProducedBy(cell, rows, cols, Scan(cell, rows, cols)[k])
    ensures SitesOf(cell, rows, cols, Scan(cell, rows, cols), Sites(cell, rows, cols))
  {
    ScanSites(cell, rows, cols);
    SitesProduced(cell, rows, cols, Scan(cell, rows, cols), Sites(cell, rows, cols));
    if rows > 0 {
      ScanFrom(cell, rows - 1, cols);
      RowScanFrom(cell, rows - 1, cols);
      assert (rows - 1) * cols + cols == rows * cols;
    }
  }

  /** Conversely, whatever a point of the row produces is in the row scan. */
  lemma {:induction false} RowScanComplete<T>(cell: (nat, nat) -> Option<T>, row: nat, n: nat, col: nat)
    requires col < n && cell(row, col).Some?
    ensures cell(row, col).value in RowScan(cell, row, n)
  {
    if col < n - 1 {
      RowScanComplete(cell, row, n - 1, col);
    }
  }

  /** Whatever a point of the lattice produces is in the lattice scan. */
  lemma {:induction false} ScanComplete<T>(cell: (nat, nat) -> Option<T>, rows: nat, cols: nat, row: nat, col: nat)
    requires row < rows && col < cols && cell(row, col).Some?
    ensures cell(row, col).value in Scan(cell, rows, cols)
  {
    var v := cell(row, col).value;
    assert Scan(cell, rows, cols) == Scan(cell, rows - 1, cols) + RowScan(cell, rows - 1, cols);
    if row < rows - 1 {
      ScanComplete(cell, rows - 1, cols, row, col);
      assert v in Scan(cell, rows - 1, cols);
    } else {
      RowScanComplete(cell, row, cols, col);
      assert v in RowScan(cell, rows - 1, cols);
    }
  }
}
