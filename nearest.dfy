/**
 * The nearest-available finder: among the unoccupied rows that have a
 * marker, the one closest to the destination, the first one winning a tie.
 */
module Nearest {
  import opened Wrappers
  import opened JsNumbers
  import opened Text
  import opened Bays
  import opened Seqs

  /** `haversineMeters(destLat, destLon, lat, lng)`; it may return NaN. */
  type DistanceFn = (real, real, Number, Number) -> Number

  /** The finder's test: status "unoccupied" (lower-cased, then trimmed) and a marker with `lat`/`lng`. */
  predicate IsCandidate(row: Row) {
    Trim(Lower(row.fields.statusDescription)) == "unoccupied" && row.marker.Some?
  }

  /** `rowsAll.filter(...)`: the candidates, in snapshot order. */
  function Candidates(rows: seq<Row>): (c: seq<Row>)
    ensures forall i :: 0 <= i < |c| ==> c[i].marker.Some?
  {
    Filter(rows, IsCandidate)
  }

  /** The distance the finder computes for a row with a marker. */
  function DistanceTo(haversine: DistanceFn, destLat: real, destLon: real, row: Row): Number
    requires row.marker.Some?
  {
    haversine(destLat, destLon, row.marker.value.lat, row.marker.value.lng)
  }

  /** The candidates' distances, in candidate order. */
  function Distances(haversine: DistanceFn, destLat: real, destLon: real, candidates: seq<Row>): (ds: seq<Number>)
    requires forall i :: 0 <= i < |candidates| ==> candidates[i].marker.Some?
    ensures |ds| == |candidates|
    ensures forall i :: 0 <= i < |ds| ==> ds[i] == DistanceTo(haversine, destLat, destLon, candidates[i])
  {
    seq(|candidates|, i requires 0 <= i < |candidates| => DistanceTo(haversine, destLat, destLon, candidates[i]))
  }

  /** No distance is below the initial `bestDist = Infinity`: each is NaN or Infinity. */
  ghost predicate NoneBelowInfinity(ds: seq<Number>) {
    forall j :: 0 <= j < |ds| ==> !Less(ds[j], PosInfinity)
  }

  /**
   * Position `k` holds the first smallest distance: it is below Infinity,
   * every earlier distance is NaN or strictly larger, and no later distance
   * is strictly smaller.
   */
  ghost predicate IsFirstNearest(ds: seq<Number>, k: nat) {
    k < |ds| && Less(ds[k], PosInfinity) &&
    (forall j :: 0 <= j < k ==> !LessEq(ds[j], ds[k])) &&
    (forall j :: k < j < |ds| ==> !Less(ds[j], ds[k]))
  }

  lemma LessEqThenLess(a: Number, b: Number, c: Number)
    requires LessEq(a, b) && Less(b, c)
    ensures Less(a, c)
  {
    if a != b {
      LessTransitive(a, b, c);
    }
  }

  lemma LessThenNotLessEq(a: Number, b: Number)
    requires Less(a, b)
    ensures !LessEq(b, a)
  {
  }

  /**
   * The `forEach` with `if (d < bestDist) { bestDist = d; best = r; }`:
   * returns the position of the first nearest candidate, or `None` when no
   * distance beats Infinity (the "No result found" case).
   */
  method NearestCandidate(candidates: seq<Row>, destLat: real, destLon: real, haversine: DistanceFn)
    returns (best: Option<nat>)
    requires forall i :: 0 <= i < |candidates| ==> candidates[i].marker.Some?
    ensures best.None? <==> NoneBelowInfinity(Distances(haversine, destLat, destLon, candidates))
    ensures best.Some? ==> IsFirstNearest(Distances(haversine, destLat, destLon, candidates), best.value)
  {
    ghost var ds := Distances(haversine, destLat, destLon, candidates);
    best := None;
    var bestDist := PosInfinity;
    for i := 0 to |candidates|
      invariant best.None? ==> bestDist == PosInfinity && forall j :: 0 <= j < i ==> !Less(ds[j], PosInfinity)
      invariant best.Some? ==> best.value < i && bestDist == ds[best.value] && Less(bestDist, PosInfinity)
      invariant best.Some? ==> forall j :: 0 <= j < best.value ==> !LessEq(ds[j], bestDist)
      invariant best.Some? ==> forall j :: best.value < j < i ==> !Less(ds[j], bestDist)
    {
      var r := candidates[i];
      var d := haversine(destLat, destLon, r.marker.value.lat, r.marker.value.lng);
      assert d == ds[i];
      if Less(d, bestDist) {
        if best.Some? {
          forall j | 0 <= j < i
            ensures !LessEq(ds[j], d)
          {
            if LessEq(ds[j], d) {
              LessEqThenLess(ds[j], d, bestDist);
              LessThenNotLessEq(ds[j], bestDist);
            }
          }
        }
        bestDist := d;
        best := Some(i);
      }
    }
  }

  /** The first nearest position is determined by the distances alone. */
  lemma FirstNearestUnique(ds: seq<Number>, k1: nat, k2: nat)
    requires IsFirstNearest(ds, k1) && IsFirstNearest(ds, k2)
    ensures k1 == k2
  {
    if k1 < k2 {
      LessTrichotomy(ds[k1], ds[k2]);
    } else if k2 < k1 {
      LessTrichotomy(ds[k1], ds[k2]);
    }
  }

  /**
   * The chosen distance is at most every distance that is not NaN, and every
   * earlier candidate is strictly farther (or NaN), so a tie goes to the first.
   */
  lemma FirstNearestIsMinimum(ds: seq<Number>, k: nat)
    requires IsFirstNearest(ds, k)
    ensures forall j :: 0 <= j < |ds| && !ds[j].NaN? ==> LessEq(ds[k], ds[j])
    ensures forall j :: 0 <= j < k ==> ds[j] != ds[k]
  {
    forall j | 0 <= j < |ds| && !ds[j].NaN?
      ensures LessEq(ds[k], ds[j])
    {
      LessTrichotomy(ds[k], ds[j]);
    }
  }

  /**
   * One candidate `q` of `rows` against the chosen one, at `idx[k]`, where
   * `idx` lists the positions of the candidates: one before it is strictly
   * farther or NaN, one after it is not strictly nearer.
   */
  lemma CompareInSnapshot(rows: seq<Row>, haversine: DistanceFn, destLat: real, destLon: real, k: nat,
                          idx: seq<nat>, q: nat)
    requires IsFirstNearest(Distances(haversine, destLat, destLon, Candidates(rows)), k)
    requires FilterIndexed(rows, IsCandidate, idx)
    requires q < |rows| && IsCandidate(rows[q]) && q != idx[k]
    ensures var dq := DistanceTo(haversine, destLat, destLon, rows[q]);
      var dp := DistanceTo(haversine, destLat, destLon, rows[idx[k]]);
      (q < idx[k] ==> !LessEq(dq, dp)) && (idx[k] < q ==> !Less(dq, dp))
  {
    var ds := Distances(haversine, destLat, destLon, Candidates(rows));
    var j :| 0 <= j < |idx| && idx[j] == q;
    assert j != k;
    assert q < idx[k] <==> j < k;
    assert ds[j] == DistanceTo(haversine, destLat, destLon, rows[q]);
    assert ds[k] == DistanceTo(haversine, destLat, destLon, rows[idx[k]]);
  }

  /**
   * In snapshot order: the chosen candidate sits at a position `pos` of
   * `rows`; every candidate before it is strictly farther or NaN, and no
   * candidate after it is strictly nearer.
   */
  lemma NearestInSnapshotOrder(rows: seq<Row>, haversine: DistanceFn, destLat: real, destLon: real, k: nat)
    returns (pos: nat)
    requires IsFirstNearest(Distances(haversine, destLat, destLon, Candidates(rows)), k)
    ensures pos < |rows| && rows[pos] == Candidates(rows)[k] && IsCandidate(rows[pos])
    ensures forall q :: 0 <= q < pos && IsCandidate(rows[q]) ==>
      !LessEq(DistanceTo(haversine, destLat, destLon, rows[q]), DistanceTo(haversine, destLat, destLon, rows[pos]))
    ensures forall q :: pos < q < |rows| && IsCandidate(rows[q]) ==>
      !Less(DistanceTo(haversine, destLat, destLon, rows[q]), DistanceTo(haversine, destLat, destLon, rows[pos]))
  {
    var idx := FilterIndices(rows, IsCandidate);
    pos := idx[k];
    forall q | 0 <= q < |rows| && q != pos && IsCandidate(rows[q])
      ensures var dq := DistanceTo(haversine, destLat, destLon, rows[q]);
        var dp := DistanceTo(haversine, destLat, destLon, rows[pos]);
        (q < pos ==> !LessEq(dq, dp)) && (pos < q ==> !Less(dq, dp))
    {
      CompareInSnapshot(rows, haversine, destLat, destLon, k, idx, q);
    }
  }
}
