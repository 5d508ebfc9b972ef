# Parking-bay availability page: a Dafny model of its matching core

The page in `parking-website/script.js` shows the on-street parking bays of a
CSV snapshot on a map. It keeps the parsed rows in `rowsAll`, the rows the
list and the map show in `currentFilteredRows`, and the highlighted bay in
`lastHighlight`. This project models the logic that works on that snapshot:

- **Loading a snapshot** (`loadParking`). Only rows whose latitude and
  longitude are not `undefined`, `null` or `''` enter `rowsAll`. In a second
  pass, each row whose `Number(...)` coordinates are both not NaN gets `lat`,
  `lng` and a marker. The marker is red for status 'present' and green for
  any other status. The list is then filtered again.
- **The list filter** (`applyFilters`). It combines a case-insensitive
  substring search over id, status and street with the "only available"
  checkbox. The list shows at most 200 rows.
- **The nearest free bay** (`findNearestFromDestination`). Among the rows
  that are 'unoccupied' and have a marker, it takes the first one of least
  distance, using a strict `<` against an initial `Infinity`. That row
  becomes `lastHighlight`.
- **The availability grid** (`drawPredictionGrid`). It builds a 3x3 grid of
  300 m cells around the destination, `gx` outer and `gy` inner. Each cell
  counts the rows inside its closed box, and the unoccupied ones among them.
  It classifies `free / total` (or `null` for an empty cell) into the levels
  'high', 'mid', 'low' and 'na'.
- **The helpers** `getAvailabilityLevel`, `getLevelColor` and
  `getRelativeTime`.
- **The destination button**, which checks, in order:
  1. that the data has loaded;
  2. that there are rows;
  3. that the query is not empty;
  4. that the geocoder found a point.

  Then it runs the finder and the grid. When the awaited geocode rejects,
  the handler ends without an alert and draws nothing.

Modules, one per file:

- `Wrappers` holds `Option`.
- `Seqs` holds the order-preserving `Filter` and its position characterisation, `Count` and `Take`.
- `Text` holds JavaScript `trim`, `toLowerCase`, `includes` and decimal rendering.
- `JsNumbers` holds JavaScript numbers with NaN and the infinities, and `<` / `<=`.
- `Bays` holds the raw and placed rows.
- `Availability` holds the level and its colour.
- `RelativeTime` holds the "… ago" messages.
- `Grid` holds the cell boxes and counts.
- `Nearest` holds the argmin loop and its specification.
- `ListView` holds the row test of the list filter and the 200-row cap.
- `Page` holds a class `ParkingPage` with the page's global state and a method per handler.

Rows are values. The in-place assignment of `lat`/`lng`/`marker` in
`loadParking` becomes a loop that rebuilds each element of `rowsAll`.

Some behaviour of the code is easy to miss:

- The grid is drawn `gx` outer and `gy` inner (script.js:90-91).
- There is no guard on the cosine in the longitude step. The step is a
  parameter `lonMetersToDeg`, and any real it returns is accepted.
- Status is only compared with 'unoccupied' and 'present'. There is no
  separate "Unknown" status, and every status other than 'present' gets a
  green marker.
- A row whose coordinates are present but NaN stays in `rowsAll` without a
  marker. It is still listed (see `NoFilterKeepsAll`), but it is in no
  grid cell and is never a candidate.
- The finder itself updates `lastHighlight`.
- A destination is not checked for finite coordinates. `GeoPoint` holds two
  reals, so it is always finite in the model.

## Model

| member | source | states |
|---|---|---|
| Seqs.Filter | parking-website/script.js:250-256 | The result of `Array.prototype.filter` is no longer than the input, and every element it keeps passes the test. |
| Seqs.FilterIndices | parking-website/script.js:250-256 | The filtered sequence is the order-preserving subsequence of the input at strictly increasing positions, and a position is taken iff its element passes the test. |
| Seqs.FilterAll | parking-website/script.js:390-402 | When every element passes, the filter keeps the whole sequence. |
| Seqs.FilterNone | parking-website/script.js:187-190 | When no element passes, the filter is empty. |
| Seqs.Count | parking-website/script.js:101-111 | A counter bumped inside a `forEach` never exceeds the number of rows. |
| Seqs.CountIsCardinality | parking-website/script.js:101-111 | The counter equals the number of positions whose row passes the test, so each row counts exactly once. |
| Seqs.CountMonotone | parking-website/script.js:107-109 | A stronger test never counts more rows than a weaker one. |
| Seqs.CountStep | parking-website/script.js:101-111 | One more row raises the counter by one exactly when that row passes the test. |
| Seqs.Take | parking-website/script.js:311 | `slice(0, n)` is a prefix of length min(n, length). |
| Text.TrimStart | parking-website/script.js:108 | It removes only leading whitespace, and what is left does not start with whitespace. |
| Text.TrimEnd | parking-website/script.js:108 | It removes only trailing whitespace, and what is left does not end with whitespace. |
| Text.Trim | parking-website/script.js:108 | `trim()` is never longer than its input, and what it leaves neither starts nor ends with whitespace; `Text.TrimIsInnerSlice` gives the full characterisation. |
| Text.TrimIsInnerSlice | parking-website/script.js:108 | `trim()` is a slice of the string: everything cut off on either side is whitespace, and the kept slice neither starts nor ends with whitespace. |
| Text.Lower | parking-website/script.js:391-393 | `toLowerCase()` keeps the length. |
| Text.LowerAt | parking-website/script.js:391-393 | Each character of `toLowerCase()` is the case mapping of the character at the same position. |
| Text.LowerSlice | parking-website/script.js:391-393 | Lower-casing commutes with taking a slice. |
| Text.LowerCharKeepsWhitespace | parking-website/script.js:108 | Lower-casing a character neither creates nor removes whitespace. |
| Text.TrimStartLower | parking-website/script.js:188 | Removing leading whitespace commutes with lower-casing. |
| Text.TrimEndLower | parking-website/script.js:188 | Removing trailing whitespace commutes with lower-casing. |
| Text.LowerTrimCommute | parking-website/script.js:108 | `s.trim().toLowerCase()` (grid, marker colour) equals `s.toLowerCase().trim()` (finder, list). |
| Text.OccursAtShift | parking-website/script.js:396 | An occurrence in the tail is an occurrence one position further on in the whole string. |
| Text.ContainsIffSlice | parking-website/script.js:396 | `s.includes(sub)` holds exactly when `sub` is the slice of `s` at some position. |
| Text.Contains | parking-website/script.js:396 | The empty term is included in every string, and an included term is no longer than the string; `Text.ContainsIffSlice` states exactly when it holds. |
| Text.ContainsEmpty | parking-website/script.js:396 | Every string includes the empty string. |
| Text.DigitChar | parking-website/script.js:45 | A decimal digit value maps to a digit character. |
| Text.NatToString | parking-website/script.js:45 | The template rendering of a non-negative integer is non-empty, made of digits and has no leading zero unless it is "0". |
| Text.NatToStringRoundTrip | parking-website/script.js:45 | Reading the digits back gives the number. |
| Text.NatToStringInjective | parking-website/script.js:45 | Different numbers render differently. |
| JsNumbers.Less | parking-website/script.js:202 | JavaScript `<`, false whenever a side is NaN; its order properties are stated by `JsNumbers.LessTrichotomy` and `JsNumbers.LessTransitive`. |
| JsNumbers.LessTrichotomy | parking-website/script.js:202 | On numbers other than NaN, `<` is a strict total order and `<=` means not `>`. |
| JsNumbers.LessTransitive | parking-website/script.js:202 | `<` is transitive. |
| JsNumbers.WithinClosedIsFinite | parking-website/script.js:105-106 | `x >= lo && x <= hi` with finite bounds holds iff `x` is finite and within them. |
| Bays.ToNumber | parking-website/script.js:260-261 | `Number(undefined)` is NaN, `Number(null)` and `Number('')` are 0, and any other cell is its converted value. |
| Bays.HasCoordinates | parking-website/script.js:250-256 | The ingestion test: both coordinates present; `Bays.PresentIsGiven` states what presence means, and `Page.IngestedRows` that exactly these rows enter `rowsAll`, in order. |
| Bays.PresentIsGiven | parking-website/script.js:252-255 | A coordinate passes the ingestion test iff it is not `undefined`, `null` or `''`. |
| Bays.MarkerColorFor | parking-website/script.js:264-265 | The marker is red iff the trimmed, lower-cased status is 'present'. |
| Bays.Place | parking-website/script.js:259-287 | A row gets a marker iff both converted coordinates are not NaN. The marker's lat/lng are those numbers and its colour follows the status. The CSV fields are unchanged. |
| Availability.GetAvailabilityLevel | parking-website/script.js:61-66 | `null` gives 'na', and nothing else does. A ratio above 0.5 gives 'high', one in [0.2, 0.5] gives 'mid' and one below 0.2 gives 'low'. |
| Availability.LevelMonotone | parking-website/script.js:61-66 | A larger ratio never gets a lower level. |
| Availability.ThresholdsAreMid | parking-website/script.js:63-64 | Exactly 0.5 and exactly 0.2 are both 'mid'. |
| Availability.QuotientCompare | parking-website/script.js:113-114 | Comparing `free / total` with a constant is comparing `free` with the constant times `total`. |
| Availability.LevelOfCounts | parking-website/script.js:113-114 | For `total > 0`, the level of `free / total` is 'high' iff 2·free > total, 'low' iff 5·free < total, and 'mid' otherwise. |
| Availability.LevelNamed | parking-website/script.js:68-73 | Any name other than 'high', 'mid' and 'low' falls through to no data. |
| Availability.LevelNameRoundTrip | parking-website/script.js:68-73 | Every level's name is read back as that level. |
| Availability.GetLevelColor | parking-website/script.js:68-73 | The colour identifies the level it was drawn for (the partner `LevelOfColor` inverts it). It is grey exactly for names other than high, mid and low. |
| RelativeTime.MulLeq | parking-website/script.js:40-42 | Helper for floor division: a smaller multiple of a positive divisor is at most the dividend. |
| RelativeTime.DivUnique | parking-website/script.js:40-42 | Floor division has a unique quotient. |
| RelativeTime.DivDiv | parking-website/script.js:40-42 | `floor(floor(a/b)/c) = floor(a/(b·c))`, so `min` and `hr` are whole minutes and hours of the difference. |
| RelativeTime.GetRelativeTime | parking-website/script.js:36-50 | The message is 'just now' exactly for a null date or one less than 1000 ms ago; `RelativeTime.Classify` and `RelativeTime.MessageOfElapsed` give every other message. |
| RelativeTime.Classify | parking-website/script.js:36-50 | 'just now' iff the date is null or less than 1000 ms ago (future dates included). There is one bucket per range (1-59 s, 60-119 s as "1 minute", 2-59 min, 1-23 h, days), and its amount is the difference floor-divided by the unit. |
| RelativeTime.Unit | parking-website/script.js:45-49 | Every unit text starts with a space. |
| RelativeTime.Render | parking-website/script.js:44-49 | Every message other than 'just now' is the decimal amount followed by its unit. |
| RelativeTime.FirstNonDigit | parking-website/script.js:45-49 | In digits followed by a space, the first non-digit is the space. |
| RelativeTime.DigitsThenSpace | parking-website/script.js:45-49 | A message splits into amount and unit in only one way. |
| RelativeTime.RenderInjective | parking-website/script.js:44-49 | Different buckets or amounts never print the same message. |
| RelativeTime.MessageOfElapsed | parking-website/script.js:36-50 | The exact message for a null date and for each range of the elapsed milliseconds. |
| RelativeTime.OneHourIsPlural | parking-website/script.js:48 | One hour prints as "1 hours ago". |
| Grid.CellBox | parking-website/script.js:92-95 | The cell box has ordered bounds whose latitudes are `c.lat + gy·dLat` and `c.lat + (gy+1)·dLat`, and whose longitudes are the same with `gx` and `dLon`. |
| Grid.InCellIff | parking-website/script.js:102-106 | A row is in a cell iff both converted coordinates are finite and lie in the closed box, edges included. |
| Grid.TotalCount | parking-website/script.js:98-107 | `totalCount` is at most the number of rows. |
| Grid.FreeCount | parking-website/script.js:108-109 | `freeCount` is at most `totalCount`. |
| Grid.TotalCountIsCardinality | parking-website/script.js:101-107 | `totalCount` is the number of rows in the cell. |
| Grid.FreeCountIsCardinality | parking-website/script.js:101-111 | `freeCount` is the number of rows in the cell whose trimmed, lower-cased status is 'unoccupied'. |
| Grid.CellRatio | parking-website/script.js:113 | The ratio is `null` iff the cell is empty. Otherwise it times `total` is `free`, and it lies in [0, 1]. |
| Grid.GridOffsets | parking-website/script.js:90-91 | Position i of the nine holds offsets in {-1,0,1} with i = 3·(gx+1) + (gy+1). |
| Grid.InCell | parking-website/script.js:101-106 | The cell test; `Grid.InCellIff` states it as finite coordinates within the closed box. |
| Grid.IsFree | parking-website/script.js:108-109 | The test that adds to `freeCount`; `Page.FinderAndGridAgreeOnFree` relates it to the finder's test. |
| Grid.GridCell | parking-website/script.js:92-114 | One cell from the snapshot; `Grid.CellLevelFromCounts` states its counts, ratio and level. |
| Grid.CellLevelFromCounts | parking-website/script.js:98-114 | In every cell, 0 ≤ free ≤ total ≤ the number of rows. The ratio is null, and the level 'na', exactly when total is 0, and the level follows the integer thresholds. |
| Grid.EmptySnapshotHasNoData | parking-website/script.js:98-114 | With no rows, a cell is empty, has no ratio and is 'na'. |
| Grid.SharedEdgeCountedTwice | parking-website/script.js:105-106 | A row anywhere on the edge shared by cell (gx, gy) and the cell above it, (gx, gy + 1), is counted in both. |
| Grid.SideEdgeCountedTwice | parking-website/script.js:105-106 | A row anywhere on the edge shared by cell (gx, gy) and the cell beside it, (gx + 1, gy), is counted in both. |
| Grid.NaNRowInNoCell | parking-website/script.js:104 | A row with a NaN coordinate is in no cell. |
| Nearest.IsCandidate | parking-website/script.js:187-190 | The finder's test; `Page.FinderAndGridAgreeOnFree` states it as the grid's free test plus a marker. |
| Nearest.Candidates | parking-website/script.js:187-190 | Every candidate has a marker, hence a `lat`/`lng`. |
| Nearest.Distances | parking-website/script.js:201 | One distance per candidate, in candidate order. |
| Nearest.LessEqThenLess | parking-website/script.js:202 | `a <= b < c` gives `a < c`. |
| Nearest.LessThenNotLessEq | parking-website/script.js:202 | `a < b` rules out `b <= a`. |
| Nearest.NearestCandidate | parking-website/script.js:197-208 | The strict-`<` argmin from `Infinity` returns nothing iff no distance is below Infinity. Otherwise it returns the first nearest position: every earlier distance is NaN or strictly larger, and no later one is strictly smaller. |
| Nearest.FirstNearestUnique | parking-website/script.js:198-203 | The chosen position is determined by the distances alone. |
| Nearest.FirstNearestIsMinimum | parking-website/script.js:198-203 | The chosen distance is ≤ every distance that is not NaN, and no earlier candidate ties with it. |
| Nearest.CompareInSnapshot | parking-website/script.js:187-203 | Any candidate row before the chosen one in `rowsAll` is farther or NaN, and any after it is not nearer. |
| Nearest.NearestInSnapshotOrder | parking-website/script.js:187-203 | The chosen candidate is a candidate row of `rowsAll`, and it is the earliest of the nearest in snapshot order. |
| ListView.MatchesFilters | parking-website/script.js:390-402 | The row test of `applyFilters`; `ListView.SearchIsSubstringMatch`, `ListView.OnlyAvailableNarrows` and `ListView.FilteredIsSubsequence` state what it keeps. |
| ListView.VisibleRows | parking-website/script.js:311 | The list shows the first min(200, n) filtered rows. |
| ListView.FilteredIsSubsequence | parking-website/script.js:390-402 | `currentFilteredRows` is the order-preserving subsequence of `rowsAll` made of exactly the rows that pass search and checkbox. |
| ListView.SearchIsSubstringMatch | parking-website/script.js:396-401 | A row matches iff (the term is empty or occurs as a slice of id, status or street) and (the checkbox is off or the status is 'unoccupied'). |
| ListView.EmptyTermIsEmptyLowered | parking-website/script.js:387 | The lower-cased term is empty iff the term is. |
| ListView.NoFilterKeepsAll | parking-website/script.js:390-402 | With an empty term and the checkbox off, every row is listed, in order. |
| ListView.OnlyAvailableListsFree | parking-website/script.js:399 | With the checkbox ticked, every listed row's status is 'unoccupied'. |
| ListView.OnlyAvailableNarrows | parking-website/script.js:399 | Ticking the checkbox never adds a row. |
| Page.GridPrefixExtend | parking-website/script.js:90-91 | Appending cell (gx, gy) at position 3·(gx+1) + (gy+1) extends the drawn prefix of the grid. |
| Page.PredictionGridOrder | parking-website/script.js:90-95 | Position i holds cell (i/3 − 1, i%3 − 1), and every cell with offsets in {-1, 0, 1} is drawn. |
| Page.EmptySnapshotGridIsNoData | parking-website/script.js:98-114 | An empty snapshot gives nine empty 'na' cells without ratio. |
| Page.IngestedRows | parking-website/script.js:250-287 | After a load, `rowsAll` is the order-preserving subsequence of the parsed rows that have both coordinates present. A row has a marker exactly when both coordinates convert to numbers other than NaN. |
| Page.FinderAndGridAgreeOnFree | parking-website/script.js:108 | The finder's free test and the grid's free test select the same rows. The finder also needs a marker. |
| Page.ParkingPage.constructor | parking-website/script.js:23-31 | The page starts with no rows, no filter result, no refresh time and data not ready, and with no highlight (`lastHighlight = null`, declared at script.js:182). |
| Page.ParkingPage.ApplyFilters | parking-website/script.js:386-402 | `currentFilteredRows` becomes the rows of `rowsAll` that pass search and checkbox. |
| Page.ParkingPage.PlaceMarkers | parking-website/script.js:259-287 | The marker pass, element by element, leaves `rowsAll[i]` as the placed form of the i-th kept row. |
| Page.ParkingPage.LoadParking | parking-website/script.js:244-293 | On a failed parse nothing changes. Otherwise `lastRefreshed` is now, `rowsAll` is the placed rows with coordinates, `currentFilteredRows` is its filtered form and `dataReady` is set. `lastHighlight` never changes. |
| Page.ParkingPage.FindNearestFromDestination | parking-website/script.js:185-217 | The result is 'no available bays' iff there is no candidate, and 'no result' iff no distance is below Infinity. Otherwise it highlights the first nearest candidate and `lastHighlight` becomes it. In the alert cases `lastHighlight` is unchanged. |
| Page.ParkingPage.CountCell | parking-website/script.js:98-111 | The counters after the `forEach` are the cell's `totalCount` and `freeCount`. |
| Page.ParkingPage.ComputeCell | parking-website/script.js:92-114 | One iteration of the grid builds the cell's box, counts, ratio and level. |
| Page.ParkingPage.DrawPredictionGrid | parking-website/script.js:80-114 | The nested loops produce exactly the nine cells in `gx`-outer, `gy`-inner order, each computed from `rowsAll`. |
| Page.ParkingPage.SubmitDestination | parking-website/script.js:339-370 | Each of the four alerts happens exactly when its guard is the first to fail. A rejected geocode ends the handler with nothing done. Otherwise the finder and then the grid run on the geocoded point, and only the finder's highlight changes the state. |

## Left out

- Floating point: finite numbers are exact reals. Rounding in `free / total`,
  in the grid corners and in distances is not modelled.
- `haversineMeters` (script.js:145-154) is not part of this model. The
  distance is a parameter, any function of the destination and a marker
  position that may return NaN or Infinity.
- `lonMetersToDeg` (script.js:56-58) is a parameter, and its missing cos guard
  carries over as "any real". `latMetersToDeg` is modelled as `m / 111111`.
- `geocodeAddress` (script.js:157-180) is not part of this model. It is a
  network fetch and becomes a parameter saying how its promise settles:
  rejected (a failed `fetch` or `res.json()`), `null`, or a point. Which
  inputs lead to which is not modelled. Its `await` is a suspension point;
  the model runs the handler without interleaving, and the unhandled
  rejection is only an outcome, not a logged error.
- Papa Parse download and parsing, `Date.now()`, `console.log` and the 10 s
  `setInterval` refresh (script.js:239-245, 411-412) are I/O and timers. The
  parse result and the clock are parameters of `LoadParking`, and the
  `error` callback is the `None` case.
- `(result.data || [])` and the `r &&` guard (script.js:250-251): the parse
  result is always a list of row records, so null rows are not modelled.
- Leaflet rendering is not modelled: map setup, layers, `circleMarker`,
  `rectangle`, popups, `setStyle`, `setView`, `openPopup` and `renderMarkers`.
  A marker is a value holding its position and colour.
- The DOM is not modelled: `updateList`'s elements, the click handler on list
  items, the alerts (they are result values), and the reading of the search
  box and checkbox (their values are parameters).
- The popup and list texts, including the percent rounding of the grid popup
  (script.js:131-135, 273-281, 314-323), are display strings.
- `toLowerCase` maps ASCII and Latin-1 capitals only. Other Unicode case
  mappings are not modelled.
- `trim` removes the JavaScript WhiteSpace and LineTerminator characters.
- `Number(...)` of a CSV cell is data: a present coordinate carries the
  number it converts to, and the text-to-number conversion is not modelled.
- `String(x || '')` (script.js:108, 264) versus `String(x ?? '')`: text
  fields hold `String(x ?? '')`. The two differ only for falsy values (0,
  false, NaN), whose text is never 'unoccupied' or 'present', so every test on
  them agrees.
- Rows are values: the in-place update of a row object in
  `loadParking` becomes rebuilding `rowsAll[i]`. Object identity (the same
  row reachable from `currentFilteredRows` and `lastHighlight`) is not
  modelled; `lastHighlight` holds a copy of the row.
- The reset of the previous highlight's style (script.js:211-213) is
  presentation only.
- `currentFilteredRows = rowsAll.slice()` (script.js:290) is overwritten by the
  `applyFilters` call that follows it, so only the filtered result is stated.
- Concurrency between a refresh and a pending geocode is not modelled.
  `SubmitDestination` runs the finder and the grid on the same `rowsAll`.
