/**
 * The availability grid drawn around a destination: nine cells of about
 * 300 m, each reporting how many rows of the snapshot fall inside it, how many
 * of those are unoccupied, and the level of that ratio.
 */
module Grid {
  import opened Wrappers
  import opened JsNumbers
  import opened Text
  import opened Bays
  import opened Availability
  import opened Seqs

  /** Each cell is about 300 m on a side. */
  const CellSizeM: real := 300.0
  /** Offsets run from -1 to 1: a 3x3 grid. */
  const HalfGrid: int := 1

  /** `latMetersToDeg(m)`: 111111 m per degree of latitude. */
  function LatMetersToDeg(m: real): real {
    m / 111111.0
  }

  function Min(a: real, b: real): real {
    if a <= b then a else b
  }

  function Max(a: real, b: real): real {
    if a <= b then b else a
  }

  /** The closed latitude/longitude box of a cell. */
  datatype Box = Box(minLat: real, maxLat: real, minLon: real, maxLon: real)

  /** One cell of the grid, as drawn and described in its popup. */
  datatype Cell = Cell(gx: int, gy: int, box: Box, freeCount: nat, totalCount: nat, ratio: Option<real>, level: Level)

  /** The box of cell (gx, gy): latitude steps with `gy`, longitude with `gx`. */
  function CellBox(centerLat: real, centerLon: real, dLat: real, dLon: real, gx: int, gy: int): (b: Box)
    ensures b.minLat <= b.maxLat && b.minLon <= b.maxLon
    ensures {b.minLat, b.maxLat} == {centerLat + gy as real * dLat, centerLat + (gy + 1) as real * dLat}
    ensures {b.minLon, b.maxLon} == {centerLon + gx as real * dLon, centerLon + (gx + 1) as real * dLon}
  {
    var lat1 := centerLat + gy as real * dLat;
    var lat2 := centerLat + (gy + 1) as real * dLat;
    var lon1 := centerLon + gx as real * dLon;
    var lon2 := centerLon + (gx + 1) as real * dLon;
    Box(Min(lat1, lat2), Max(lat1, lat2), Min(lon1, lon2), Max(lon1, lon2))
  }

  /** The cell test: both converted coordinates are not NaN and lie in the closed box. */
  predicate InCell(row: Row, b: Box) {
    var lat := ToNumber(row.fields.latitude);
    var lon := ToNumber(row.fields.longitude);
    !lat.NaN? && !lon.NaN? &&
    WithinClosed(lat, b.minLat, b.maxLat) && WithinClosed(lon, b.minLon, b.maxLon)
  }

  /** A row is in a cell iff its coordinates are finite and within every edge of the box, edges included. */
  lemma InCellIff(row: Row, b: Box)
    ensures InCell(row, b) <==>
      var lat := ToNumber(row.fields.latitude);
      var lon := ToNumber(row.fields.longitude);
      lat.Finite? && lon.Finite? &&
      b.minLat <= lat.value <= b.maxLat && b.minLon <= lon.value <= b.maxLon
  {
    WithinClosedIsFinite(ToNumber(row.fields.latitude), b.minLat, b.maxLat);
    WithinClosedIsFinite(ToNumber(row.fields.longitude), b.minLon, b.maxLon);
  }

  /** The grid's free test: the trimmed, lower-cased status is "unoccupied". */
  predicate IsFree(row: Row) {
    Lower(Trim(row.fields.statusDescription)) == "unoccupied"
  }

  /** The cell test of one box, as a function value. */
  function InCellOf(b: Box): Row -> bool {
    row => InCell(row, b)
  }

  /** The test that adds to `freeCount` of one box. */
  function FreeInCellOf(b: Box): Row -> bool {
    row => InCell(row, b) && IsFree(row)
  }

  /** `totalCount`: how many rows fall in the box. */
  function TotalCount(rows: seq<Row>, b: Box): (n: nat)
    ensures n <= |rows|
  {
    Count(rows, InCellOf(b))
  }

  /** `freeCount`: how many rows fall in the box and are free; never more than `totalCount`. */
  function FreeCount(rows: seq<Row>, b: Box): (n: nat)
    ensures n <= TotalCount(rows, b)
  {
    CountMonotone(rows, FreeInCellOf(b), InCellOf(b));
    Count(rows, FreeInCellOf(b))
  }

  /** `totalCount` counts exactly the rows in the box, each once. */
  lemma TotalCountIsCardinality(rows: seq<Row>, b: Box)
    ensures TotalCount(rows, b) == |set i: nat | i < |rows| && InCell(rows[i], b)|
  {
    CountIsCardinality(rows, InCellOf(b));
    assert Positions(rows, InCellOf(b)) == set i: nat | i < |rows| && InCell(rows[i], b);
  }

  /** `freeCount` counts exactly the free rows in the box, each once. */
  lemma FreeCountIsCardinality(rows: seq<Row>, b: Box)
    ensures FreeCount(rows, b) == |set i: nat | i < |rows| && InCell(rows[i], b) && IsFree(rows[i])|
  {
    CountIsCardinality(rows, FreeInCellOf(b));
    assert Positions(rows, FreeInCellOf(b)) == set i: nat | i < |rows| && InCell(rows[i], b) && IsFree(rows[i]);
  }

  /** `ratio`: free over total, or `null` for an empty cell. */
  function CellRatio(free: nat, total: nat): (r: Option<real>)
    ensures r.None? <==> total == 0
    ensures r.Some? ==> r.value * total as real == free as real
    ensures r.Some? && free <= total ==> 0.0 <= r.value <= 1.0
  {
    if total > 0 then Some(free as real / total as real) else None
  }

  /** Cell (gx, gy) of the grid around the centre, computed from the snapshot `rows`. */
  function GridCell(rows: seq<Row>, centerLat: real, centerLon: real, dLat: real, dLon: real, gx: int, gy: int): Cell {
    var b := CellBox(centerLat, centerLon, dLat, dLon, gx, gy);
    var total := TotalCount(rows, b);
    var free := FreeCount(rows, b);
    var ratio := CellRatio(free, total);
    Cell(gx, gy, b, free, total, ratio, GetAvailabilityLevel(ratio))
  }

  /** Position `i` of the grid holds cell (i / 3 - 1, i % 3 - 1): `gx` outer, `gy` inner. */
  function GridOffsets(i: nat): (offsets: (int, int))
    requires i < 9
    ensures -HalfGrid <= offsets.0 <= HalfGrid && -HalfGrid <= offsets.1 <= HalfGrid
    ensures i == 3 * (offsets.0 + 1) + (offsets.1 + 1)
  {
    (i / 3 - 1, i % 3 - 1)
  }

  /**
   * In every cell, 0 <= free <= total <= |rows|; the ratio is null exactly when
   * the cell is empty, and the level follows the counts: 'na' iff total is 0,
   * 'high' iff 2*free > total, 'low' iff 5*free < total, 'mid' otherwise.
   */
  lemma CellLevelFromCounts(rows: seq<Row>, centerLat: real, centerLon: real, dLat: real, dLon: real, gx: int, gy: int)
    ensures var c := GridCell(rows, centerLat, centerLon, dLat, dLon, gx, gy);
      c.freeCount <= c.totalCount <= |rows| &&
      (c.ratio.None? <==> c.totalCount == 0) &&
      (c.level == NoData <==> c.totalCount == 0) &&
      (c.totalCount > 0 ==>
         (c.level == High <==> 2 * c.freeCount > c.totalCount) &&
         (c.level == Low <==> 5 * c.freeCount < c.totalCount) &&
         (c.level == Mid <==> 2 * c.freeCount <= c.totalCount <= 5 * c.freeCount))
  {
    var c := GridCell(rows, centerLat, centerLon, dLat, dLon, gx, gy);
    if c.totalCount > 0 {
      LevelOfCounts(c.freeCount, c.totalCount);
    }
  }

  /** With an empty snapshot every cell is empty, has no ratio and is 'na'. */
  lemma EmptySnapshotHasNoData(centerLat: real, centerLon: real, dLat: real, dLon: real, gx: int, gy: int)
    ensures var c := GridCell([], centerLat, centerLon, dLat, dLon, gx, gy);
      c.totalCount == 0 && c.freeCount == 0 && c.ratio.None? && c.level == NoData
  {
  }

  /**
   * A row on the edge between cell (gx, gy) and the cell above it,
   * (gx, gy + 1), anywhere within the column's longitudes, is counted in both.
   */
  lemma SharedEdgeCountedTwice(row: Row, centerLat: real, centerLon: real, dLat: real, dLon: real, gx: int, gy: int)
    requires ToNumber(row.fields.latitude) == Finite(centerLat + (gy + 1) as real * dLat)
    requires var lon := ToNumber(row.fields.longitude);
      var lon1 := centerLon + gx as real * dLon;
      var lon2 := centerLon + (gx + 1) as real * dLon;
      lon.Finite? && Min(lon1, lon2) <= lon.value <= Max(lon1, lon2)
    ensures InCell(row, CellBox(centerLat, centerLon, dLat, dLon, gx, gy))
    ensures InCell(row, CellBox(centerLat, centerLon, dLat, dLon, gx, gy + 1))
  {
    InCellIff(row, CellBox(centerLat, centerLon, dLat, dLon, gx, gy));
    InCellIff(row, CellBox(centerLat, centerLon, dLat, dLon, gx, gy + 1));
  }

  /**
   * A row on the edge between cell (gx, gy) and the cell beside it,
   * (gx + 1, gy), anywhere within the row's latitudes, is counted in both.
   */
  lemma SideEdgeCountedTwice(row: Row, centerLat: real, centerLon: real, dLat: real, dLon: real, gx: int, gy: int)
    requires ToNumber(row.fields.longitude) == Finite(centerLon + (gx + 1) as real * dLon)
    requires var lat := ToNumber(row.fields.latitude);
      var lat1 := centerLat + gy as real * dLat;
      var lat2 := centerLat + (gy + 1) as real * dLat;
      lat.Finite? && Min(lat1, lat2) <= lat.value <= Max(lat1, lat2)
    ensures InCell(row, CellBox(centerLat, centerLon, dLat, dLon, gx, gy))
    ensures InCell(row, CellBox(centerLat, centerLon, dLat, dLon, gx + 1, gy))
  {
    InCellIff(row, CellBox(centerLat, centerLon, dLat, dLon, gx, gy));
    InCellIff(row, CellBox(centerLat, centerLon, dLat, dLon, gx + 1, gy));
  }

  /** A row with a NaN coordinate is in no cell. */
  lemma NaNRowInNoCell(row: Row, b: Box)
    requires ToNumber(row.fields.latitude).NaN? || ToNumber(row.fields.longitude).NaN?
    ensures !InCell(row, b)
  {
  }
}
