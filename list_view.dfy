/**
 * The side list: the search and "only available" filter over the snapshot,
 * and the cap on how many rows the list shows.
 */
module ListView {
  import opened JsNumbers
  import opened Text
  import opened Bays
  import opened Seqs

  /** The list shows at most this many rows. */
  const ListLimit: nat := 200

  /**
   * The row test of `applyFilters` on the already normalised term `t` and
   * fields: `t` is empty or occurs in the id, status or street; and, with
   * the checkbox ticked, the status is "unoccupied".
   */
  predicate MatchesFields(t: string, id: string, status: string, street: string, onlyAvailable: bool) {
    var matchesSearch := t == "" || Contains(id, t) || Contains(status, t) || Contains(street, t);
    var matchesAvailability := !onlyAvailable || status == "unoccupied";
    matchesSearch && matchesAvailability
  }

  /** The row test of `applyFilters`: the term is lower-cased, the fields lower-cased and trimmed. */
  predicate MatchesFilters(term: string, onlyAvailable: bool, row: Row) {
    MatchesFields(Lower(term), Trim(Lower(row.fields.kerbsideId)),
                  Trim(Lower(row.fields.statusDescription)), Trim(Lower(row.fields.onStreet)), onlyAvailable)
  }

  /** The filter callback for one term and checkbox state. */
  function Matcher(term: string, onlyAvailable: bool): Row -> bool {
    row => MatchesFilters(term, onlyAvailable, row)
  }

  /** `rows.slice(0, 200)`: what `updateList` shows. */
  function VisibleRows(rows: seq<Row>): (shown: seq<Row>)
    ensures |shown| == if |rows| < ListLimit then |rows| else ListLimit
    ensures shown <= rows
    ensures |rows| <= ListLimit ==> shown == rows
  {
    Take(rows, ListLimit)
  }

  /**
   * The search test spelled out with substrings: a row matches the search iff
   * the term is empty or is a contiguous piece of one of the three fields.
   */
  lemma SearchIsSubstringMatch(t: string, id: string, status: string, street: string, onlyAvailable: bool)
    ensures MatchesFields(t, id, status, street, onlyAvailable) <==>
      (t == "" ||
       (exists i: nat :: OccursAt(id, t, i)) ||
       (exists i: nat :: OccursAt(status, t, i)) ||
       (exists i: nat :: OccursAt(street, t, i))) &&
      (!onlyAvailable || status == "unoccupied")
  {
    ContainsIffSlice(id, t);
    ContainsIffSlice(status, t);
    ContainsIffSlice(street, t);
  }

  /** The lower-cased term is empty exactly when the term is. */
  lemma EmptyTermIsEmptyLowered(term: string)
    ensures Lower(term) == "" <==> term == ""
  {
  }

  /**
   * `currentFilteredRows` is an order-preserving subsequence of `rowsAll`:
   * the listed rows sit at increasing positions of `rows`, and a row of
   * `rows` is listed iff it passes the search and the checkbox.
   */
  lemma FilteredIsSubsequence(rows: seq<Row>, term: string, onlyAvailable: bool) returns (idx: seq<nat>)
    ensures |idx| == |Filter(rows, Matcher(term, onlyAvailable))|
    ensures IncreasingIndices(idx, |rows|)
    ensures forall j :: 0 <= j < |idx| ==> Filter(rows, Matcher(term, onlyAvailable))[j] == rows[idx[j]]
    ensures forall i :: 0 <= i < |rows| ==> (MatchesFilters(term, onlyAvailable, rows[i]) <==> i in idx)
  {
    idx := FilterIndices(rows, Matcher(term, onlyAvailable));
    assert forall i :: 0 <= i < |rows| ==> Matcher(term, onlyAvailable)(rows[i]) == MatchesFilters(term, onlyAvailable, rows[i]);
  }

  /** With an empty term and the checkbox off every row is listed, in order. */
  lemma NoFilterKeepsAll(rows: seq<Row>)
    ensures Filter(rows, Matcher("", false)) == rows
  {
    FilterAll(rows, Matcher("", false));
  }

  /** With the checkbox ticked, only rows whose status is "unoccupied" are listed. */
  lemma OnlyAvailableListsFree(rows: seq<Row>, term: string)
    ensures forall i :: 0 <= i < |Filter(rows, Matcher(term, true))| ==>
      Trim(Lower(Filter(rows, Matcher(term, true))[i].fields.statusDescription)) == "unoccupied"
  {
    var kept := Filter(rows, Matcher(term, true));
    assert forall i :: 0 <= i < |kept| ==> Matcher(term, true)(kept[i]);
  }

  /** Ticking the checkbox never adds a row: every row it lists is also listed with it off. */
  lemma OnlyAvailableNarrows(row: Row, term: string)
    ensures MatchesFilters(term, true, row) ==> MatchesFilters(term, false, row)
  {
  }
}
