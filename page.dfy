/**
 * The page's in-memory state and the handlers that change it: loading a
 * snapshot, filtering the list, finding and highlighting the nearest free
 * bay, and drawing the availability grid for a destination.
 */
module Page {
  import opened Wrappers
  import opened JsNumbers
  import opened Text
  import opened Bays
  import opened Seqs
  import opened Availability
  import opened Grid
  import opened Nearest
  import opened ListView

  /** A resolved destination, as `geocodeAddress` returns it. */
  datatype GeoPoint = GeoPoint(lat: real, lon: real)

  /**
   * How the promise of `geocodeAddress` settles: it rejects (a failed
   * `fetch` or a body that is not JSON), resolves to `null` (a response that
   * is not ok, or no match), or resolves to a point.
   */
  datatype Geocoded = Rejected | NoMatch | Located(point: GeoPoint)

  /** How `findNearestFromDestination` ends: one of its two alerts, or a highlighted bay. */
  datatype NearestOutcome =
    | NoAvailableBays
    | NoResult
    | Highlighted(bay: Row, candidateIndex: nat)

  /**
   * How the destination button's handler ends: one of its four alerts, an
   * unhandled rejection of the awaited geocode (no alert, nothing drawn), or a search.
   */
  datatype SearchOutcome =
    | DataLoading
    | NoParkingData
    | NoDestination
    | DestinationNotFound
    | Unhandled
    | Searched(destination: GeoPoint, nearest: NearestOutcome, grid: seq<Cell>)

  /**
   * `outcome` is what the finder reports for the snapshot `rows`: no
   * candidates, no distance below Infinity, or the first nearest candidate.
   */
  ghost predicate IsNearestOutcome(rows: seq<Row>, haversine: DistanceFn, destLat: real, destLon: real, outcome: NearestOutcome) {
    var cands := Candidates(rows);
    var ds := Distances(haversine, destLat, destLon, cands);
    (outcome == NoAvailableBays <==> cands == []) &&
    (outcome == NoResult <==> cands != [] && NoneBelowInfinity(ds)) &&
    (outcome.Highlighted? ==>
       outcome.candidateIndex < |cands| && outcome.bay == cands[outcome.candidateIndex] &&
       IsFirstNearest(ds, outcome.candidateIndex))
  }

  /** `cells` is the 3x3 grid around the centre, `gx` outer and `gy` inner. */
  ghost predicate IsPredictionGrid(rows: seq<Row>, centerLat: real, centerLon: real, dLat: real, dLon: real, cells: seq<Cell>) {
    |cells| == 9 && IsGridPrefix(rows, centerLat, centerLon, dLat, dLon, cells)
  }

  /** The first `|cells|` cells of the grid, in drawing order. */
  ghost predicate IsGridPrefix(rows: seq<Row>, centerLat: real, centerLon: real, dLat: real, dLon: real, cells: seq<Cell>) {
    |cells| <= 9 &&
    forall i :: 0 <= i < |cells| ==>
      cells[i] == GridCell(rows, centerLat, centerLon, dLat, dLon, GridOffsets(i).0, GridOffsets(i).1)
  }

  /** Appending the next cell in drawing order extends the prefix. */
  lemma GridPrefixExtend(rows: seq<Row>, centerLat: real, centerLon: real, dLat: real, dLon: real,
                         cells: seq<Cell>, gx: int, gy: int)
    requires IsGridPrefix(rows, centerLat, centerLon, dLat, dLon, cells)
    requires -HalfGrid <= gx <= HalfGrid && -HalfGrid <= gy <= HalfGrid
    requires |cells| == 3 * (gx + HalfGrid) + (gy + HalfGrid)
    ensures IsGridPrefix(rows, centerLat, centerLon, dLat, dLon,
                         cells + [GridCell(rows, centerLat, centerLon, dLat, dLon, gx, gy)])
  {
    assert GridOffsets(|cells|) == (gx, gy);
  }

  /** `rows` is `kept` with each row given its marker, in order. */
  ghost predicate PlacedFrom(rows: seq<Row>, kept: seq<RawRow>)
  {
    |rows| == |kept| && forall i :: 0 <= i < |kept| ==> rows[i] == Place(kept[i])
  }

  /**
   * The cells come in drawing order, `gx` outer and `gy` inner: position `i`
   * holds cell (i / 3 - 1, i % 3 - 1), and every (gx, gy) with both offsets
   * in {-1, 0, 1} is drawn at position 3 * (gx + 1) + (gy + 1).
   */
  lemma PredictionGridOrder(rows: seq<Row>, centerLat: real, centerLon: real, dLat: real, dLon: real, cells: seq<Cell>)
    requires IsPredictionGrid(rows, centerLat, centerLon, dLat, dLon, cells)
    ensures forall i :: 0 <= i < 9 ==> cells[i].gx == i / 3 - 1 && cells[i].gy == i % 3 - 1
    ensures forall gx, gy :: -HalfGrid <= gx <= HalfGrid && -HalfGrid <= gy <= HalfGrid ==>
      GridCell(rows, centerLat, centerLon, dLat, dLon, gx, gy) in cells
  {
    forall gx, gy | -HalfGrid <= gx <= HalfGrid && -HalfGrid <= gy <= HalfGrid
      ensures GridCell(rows, centerLat, centerLon, dLat, dLon, gx, gy) in cells
    {
      var i := 3 * (gx + HalfGrid) + (gy + HalfGrid);
      assert GridOffsets(i) == (gx, gy);
      assert cells[i] == GridCell(rows, centerLat, centerLon, dLat, dLon, gx, gy);
    }
  }

  /** With an empty snapshot all nine cells are empty and 'na'. */
  lemma EmptySnapshotGridIsNoData(centerLat: real, centerLon: real, dLat: real, dLon: real, cells: seq<Cell>)
    requires IsPredictionGrid([], centerLat, centerLon, dLat, dLon, cells)
    ensures |cells| == 9
    ensures forall i :: 0 <= i < |cells| ==> cells[i].totalCount == 0 && cells[i].ratio.None? && cells[i].level == NoData
  {
    forall i | 0 <= i < |cells|
      ensures cells[i].totalCount == 0 && cells[i].ratio.None? && cells[i].level == NoData
    {
      EmptySnapshotHasNoData(centerLat, centerLon, dLat, dLon, GridOffsets(i).0, GridOffsets(i).1);
    }
  }

  /**
   * After a load, `rows` is the order-preserving subsequence of the parsed
   * rows whose coordinates are present, and a row has a marker exactly when
   * both of its coordinates convert to numbers other than NaN.
   */
  lemma IngestedRows(parsed: seq<RawRow>, rows: seq<Row>) returns (idx: seq<nat>)
    requires PlacedFrom(rows, Filter(parsed, HasCoordinates))
    ensures |idx| == |rows| && IncreasingIndices(idx, |parsed|)
    ensures forall j :: 0 <= j < |rows| ==> rows[j].fields == parsed[idx[j]]
    ensures forall i :: 0 <= i < |parsed| ==> (HasCoordinates(parsed[i]) <==> i in idx)
    ensures forall j :: 0 <= j < |rows| ==>
      (rows[j].marker.Some? <==>
         !rows[j].fields.latitude.asNumber.NaN? && !rows[j].fields.longitude.asNumber.NaN?)
  {
    idx := FilterIndices(parsed, HasCoordinates);
    forall j | 0 <= j < |rows|
      ensures rows[j].fields == parsed[idx[j]]
      ensures rows[j].marker.Some? <==>
        !rows[j].fields.latitude.asNumber.NaN? && !rows[j].fields.longitude.asNumber.NaN?
    {
      var r := Filter(parsed, HasCoordinates)[j];
      assert HasCoordinates(r);
      assert rows[j] == Place(r);
    }
  }

  /**
   * The finder's free test (lower-case, then trim) and the grid's free test
   * (trim, then lower-case) pick the same rows; the finder also needs a marker.
   */
  lemma FinderAndGridAgreeOnFree(row: Row)
    ensures IsCandidate(row) <==> IsFree(row) && row.marker.Some?
  {
    LowerTrimCommute(row.fields.statusDescription);
  }

  class ParkingPage {
    /** All rows of the last snapshot that have coordinates. */
    var rowsAll: seq<Row>
    /** The rows the list and the map currently show. */
    var currentFilteredRows: seq<Row>
    /** The row whose marker is highlighted. */
    var lastHighlight: Option<Row>
    /** When the CSV was last loaded, in milliseconds. */
    var lastRefreshed: Option<int>
    var dataReady: bool

    constructor ()
      ensures rowsAll == [] && currentFilteredRows == [] && lastHighlight == None
      ensures lastRefreshed == None && !dataReady
    {
      rowsAll := [];
      currentFilteredRows := [];
      lastHighlight := None;
      lastRefreshed := None;
      dataReady := false;
    }

    /** `applyFilters` with the search box holding `term` and the checkbox `onlyAvailable`. */
    method ApplyFilters(term: string, onlyAvailable: bool)
      modifies this`currentFilteredRows
      ensures currentFilteredRows == Filter(rowsAll, Matcher(term, onlyAvailable))
    {
      currentFilteredRows := Filter(rowsAll, Matcher(term, onlyAvailable));
    }

    /**
     * `rowsAll` becomes the rows `kept`, and then the marker pass of
     * `loadParking` visits each in order, giving `lat`, `lng` and a marker
     * to those whose coordinates convert to numbers.
     */
    method PlaceMarkers(kept: seq<RawRow>)
      modifies this`rowsAll
      ensures PlacedFrom(rowsAll, kept)
    {
      rowsAll := seq(|kept|, i requires 0 <= i < |kept| => Row(kept[i], None));
      for i := 0 to |rowsAll|
        invariant |rowsAll| == |kept|
        invariant forall j :: 0 <= j < i ==> rowsAll[j] == Place(kept[j])
        invariant forall j :: i <= j < |kept| ==> rowsAll[j] == Row(kept[j], None)
      {
        rowsAll := rowsAll[i := Place(rowsAll[i].fields)];
      }
    }

    /**
     * `loadParking` once Papa Parse has finished: `parsed` is the parsed rows,
     * or `None` when parsing failed (only an alert), and `now` the clock.
     * The rows with both coordinates become `rowsAll`, each given a marker when
     * its coordinates convert to numbers, and the list is filtered again.
     */
    method LoadParking(parsed: Option<seq<RawRow>>, now: int, term: string, onlyAvailable: bool)
      modifies this
      ensures lastHighlight == old(lastHighlight)
      ensures parsed.None? ==>
        rowsAll == old(rowsAll) && currentFilteredRows == old(currentFilteredRows) &&
        lastRefreshed == old(lastRefreshed) && dataReady == old(dataReady)
      ensures parsed.Some? ==>
        var kept := Filter(parsed.value, HasCoordinates);
        PlacedFrom(rowsAll, kept) &&
        currentFilteredRows == Filter(rowsAll, Matcher(term, onlyAvailable)) &&
        lastRefreshed == Some(now) && dataReady
    {
      if parsed.None? {
        return;
      }
      lastRefreshed := Some(now);
      var kept := Filter(parsed.value, HasCoordinates);
      PlaceMarkers(kept);
      ghost var placed := rowsAll;
      currentFilteredRows := rowsAll;
      ApplyFilters(term, onlyAvailable);
      assert rowsAll == placed;
      dataReady := true;
    }

    /**
     * `findNearestFromDestination`: pick the first nearest candidate and
     * make it the highlighted row; with no candidate, or no distance below
     * Infinity, report that and leave the highlight as it was.
     */
    method FindNearestFromDestination(destLat: real, destLon: real, haversine: DistanceFn)
      returns (outcome: NearestOutcome)
      modifies this`lastHighlight
      ensures IsNearestOutcome(rowsAll, haversine, destLat, destLon, outcome)
      ensures lastHighlight == if outcome.Highlighted? then Some(outcome.bay) else old(lastHighlight)
    {
      var candidates := Candidates(rowsAll);
      if |candidates| == 0 {
        return NoAvailableBays;
      }
      var best := NearestCandidate(candidates, destLat, destLon, haversine);
      if best.None? {
        return NoResult;
      }
      lastHighlight := Some(candidates[best.value]);
      outcome := Highlighted(candidates[best.value], best.value);
    }

    /**
     * The `rowsAll.forEach` of `drawPredictionGrid` for one cell: skip rows
     * with a NaN coordinate, count those inside the box, and among them those
     * whose trimmed, lower-cased status is "unoccupied".
     */
    method CountCell(box: Box) returns (totalCount: nat, freeCount: nat)
      ensures totalCount == TotalCount(rowsAll, box)
      ensures freeCount == FreeCount(rowsAll, box)
    {
      totalCount, freeCount := 0, 0;
      for k := 0 to |rowsAll|
        invariant totalCount == TotalCount(rowsAll[..k], box)
        invariant freeCount == FreeCount(rowsAll[..k], box)
      {
        CountStep(rowsAll, k, InCellOf(box));
        CountStep(rowsAll, k, FreeInCellOf(box));
        var row := rowsAll[k];
        var lat := ToNumber(row.fields.latitude);
        var lon := ToNumber(row.fields.longitude);
        if !(lat.NaN? || lon.NaN?) {
          if WithinClosed(lat, box.minLat, box.maxLat) && WithinClosed(lon, box.minLon, box.maxLon) {
            totalCount := totalCount + 1;
            var status := Lower(Trim(row.fields.statusDescription));
            if status == "unoccupied" {
              freeCount := freeCount + 1;
            }
          }
        }
      }
      assert rowsAll[..|rowsAll|] == rowsAll;
    }

    /**
     * One cell of `drawPredictionGrid`: the box of cell (gx, gy), its counts,
     * the ratio (null for an empty cell) and the level of that ratio.
     */
    method ComputeCell(centerLat: real, centerLon: real, dLat: real, dLon: real, gx: int, gy: int)
      returns (cell: Cell)
      ensures cell == GridCell(rowsAll, centerLat, centerLon, dLat, dLon, gx, gy)
    {
      var lat1 := centerLat + gy as real * dLat;
      var lat2 := centerLat + (gy + 1) as real * dLat;
      var lon1 := centerLon + gx as real * dLon;
      var lon2 := centerLon + (gx + 1) as real * dLon;
      var box := Box(Min(lat1, lat2), Max(lat1, lat2), Min(lon1, lon2), Max(lon1, lon2));
      var totalCount, freeCount := CountCell(box);
      var ratio := if totalCount > 0 then Some(freeCount as real / totalCount as real) else None;
      var level := GetAvailabilityLevel(ratio);
      cell := Cell(gx, gy, box, freeCount, totalCount, ratio, level);
    }

    /**
     * The counting part of `drawPredictionGrid`: for each of the nine cells,
     * `gx` outer and `gy` inner, count the rows in the cell and the free ones
     * among them, and classify the ratio.
     */
    method DrawPredictionGrid(centerLat: real, centerLon: real, lonMetersToDeg: (real, real) -> real)
      returns (cells: seq<Cell>)
      ensures IsPredictionGrid(rowsAll, centerLat, centerLon, LatMetersToDeg(CellSizeM),
                               lonMetersToDeg(CellSizeM, centerLat), cells)
    {
      var dLat := LatMetersToDeg(CellSizeM);
      var dLon := lonMetersToDeg(CellSizeM, centerLat);
      cells := [];
      for gx := -HalfGrid to HalfGrid + 1
        invariant |cells| == 3 * (gx + HalfGrid)
        invariant IsGridPrefix(rowsAll, centerLat, centerLon, dLat, dLon, cells)
      {
        for gy := -HalfGrid to HalfGrid + 1
          invariant |cells| == 3 * (gx + HalfGrid) + (gy + HalfGrid)
          invariant IsGridPrefix(rowsAll, centerLat, centerLon, dLat, dLon, cells)
        {
          var cell := ComputeCell(centerLat, centerLon, dLat, dLon, gx, gy);
          GridPrefixExtend(rowsAll, centerLat, centerLon, dLat, dLon, cells, gx, gy);
          cells := cells + [cell];
        }
      }
    }

    /**
     * The destination button: refuse while loading, with no rows, or with an
     * empty (trimmed) query; geocode the query, stopping with no alert when
     * that rejects and with an alert when it finds nothing; with a point, run
     * the finder and then draw the grid, whatever the finder reported.
     */
    method SubmitDestination(input: string, geocode: string -> Geocoded, haversine: DistanceFn,
                             lonMetersToDeg: (real, real) -> real)
      returns (outcome: SearchOutcome)
      modifies this`lastHighlight
      ensures outcome == DataLoading <==> !dataReady
      ensures outcome == NoParkingData <==> dataReady && rowsAll == []
      ensures outcome == NoDestination <==> dataReady && rowsAll != [] && Trim(input) == ""
      ensures outcome == DestinationNotFound <==>
        dataReady && rowsAll != [] && Trim(input) != "" && geocode(Trim(input)) == NoMatch
      ensures outcome == Unhandled <==>
        dataReady && rowsAll != [] && Trim(input) != "" && geocode(Trim(input)) == Rejected
      ensures outcome.Searched? ==>
        geocode(Trim(input)) == Located(outcome.destination) &&
        IsNearestOutcome(rowsAll, haversine, outcome.destination.lat, outcome.destination.lon, outcome.nearest) &&
        IsPredictionGrid(rowsAll, outcome.destination.lat, outcome.destination.lon, LatMetersToDeg(CellSizeM),
                         lonMetersToDeg(CellSizeM, outcome.destination.lat), outcome.grid)
      ensures lastHighlight ==
        if outcome.Searched? && outcome.nearest.Highlighted? then Some(outcome.nearest.bay) else old(lastHighlight)
    {
      if !dataReady {
        return DataLoading;
      }
      if |rowsAll| == 0 {
        return NoParkingData;
      }
      var q := Trim(input);
      if q == "" {
        return NoDestination;
      }
      var geocoded := geocode(q);
      if geocoded.Rejected? {
        return Unhandled;
      }
      if geocoded.NoMatch? {
        return DestinationNotFound;
      }
      var pt := geocoded.point;
      var nearest := FindNearestFromDestination(pt.lat, pt.lon, haversine);
      var grid := DrawPredictionGrid(pt.lat, pt.lon, lonMetersToDeg);
      outcome := Searched(pt, nearest, grid);
    }
  }
}
