/**
 * The parking-bay rows of the CSV snapshot, before and after the page
 * attaches a map position and a marker to them.
 */
module Bays {
  import opened Wrappers
  import opened JsNumbers
  import opened Text

  /**
   * A coordinate cell as Papa Parse hands it over. Every value other than
   * `undefined`, `null` and `''` is represented by the number `Number(...)`
   * turns it into (NaN for text that is not numeric).
   */
  datatype FieldValue = Undefined | Null | EmptyText | Given(asNumber: Number)

  /** `Number(v)`. */
  function ToNumber(v: FieldValue): (n: Number)
    ensures v.Given? ==> n == v.asNumber
    ensures v.Undefined? ==> n.NaN?
    ensures (v.Null? || v.EmptyText?) ==> n == Finite(0.0)
  {
    match v
    case Undefined => NaN
    case Null => Finite(0.0)
    case EmptyText => Finite(0.0)
    case Given(n) => n
  }

  /**
   * One parsed CSV row. The descriptive columns hold `String(column ?? '')`;
   * the `||` spelling of that conversion differs only for falsy values
   * (0, false, NaN), whose text is never "unoccupied" or "present".
   */
  datatype RawRow = RawRow(
    latitude: FieldValue,
    longitude: FieldValue,
    kerbsideId: string,
    statusDescription: string,
    onStreet: string)

  datatype MarkerColor = Red | Green

  /** The circle marker of a bay, with the `lat`/`lng` stored beside it on the row. */
  datatype Marker = Marker(lat: Number, lng: Number, color: MarkerColor)

  /** A row of `rowsAll`: the CSV columns plus `lat`, `lng` and `marker`, which are set together or not at all. */
  datatype Row = Row(fields: RawRow, marker: Option<Marker>)

  /** The ingestion test of a coordinate: not `undefined`, not `null`, not `''`. */
  predicate IsPresent(v: FieldValue) {
    v != Undefined && v != Null && v != EmptyText
  }

  /** A parsed row that has both coordinates and so enters `rowsAll`. */
  predicate HasCoordinates(r: RawRow) {
    IsPresent(r.latitude) && IsPresent(r.longitude)
  }

  /** A present coordinate is one that carries a conversion result. */
  lemma PresentIsGiven(v: FieldValue)
    ensures IsPresent(v) <==> v.Given?
  {
  }

  /** Red for an occupied bay ('present'), green for every other status. */
  function MarkerColorFor(statusDescription: string): (c: MarkerColor)
    ensures c == Red <==> Lower(Trim(statusDescription)) == "present"
  {
    if Lower(Trim(statusDescription)) == "present" then Red else Green
  }

  /**
   * What the marker pass does to one row of `rowsAll`: a row whose converted
   * coordinates are both not NaN gets `lat`, `lng` and a marker at that point;
   * any other row is left as it is.
   */
  function Place(r: RawRow): (row: Row)
    ensures row.fields == r
    ensures row.marker.Some? <==> !ToNumber(r.latitude).NaN? && !ToNumber(r.longitude).NaN?
    ensures row.marker.Some? ==>
      row.marker.value.lat == ToNumber(r.latitude) &&
      row.marker.value.lng == ToNumber(r.longitude) &&
      row.marker.value.color == MarkerColorFor(r.statusDescription)
  {
    var lat := ToNumber(r.latitude);
    var lng := ToNumber(r.longitude);
    if lat.NaN? || lng.NaN? then Row(r, None)
    else Row(r, Some(Marker(lat, lng, MarkerColorFor(r.statusDescription))))
  }
}
