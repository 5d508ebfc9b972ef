/** Classification of a free/total ratio into an availability level, and its colour. */
module Availability {
  import opened Wrappers

  /** The levels 'high', 'mid', 'low' and 'na'. */
  datatype Level = High | Mid | Low | NoData {

    function Name(): string {
      match this
      case High => "high"
      case Mid => "mid"
      case Low => "low"
      case NoData => "na"
    }

    /** Higher availability has a higher rank; no data ranks lowest. */
    function Rank(): nat {
      match this
      case NoData => 0
      case Low => 1
      case Mid => 2
      case High => 3
    }
  }

  /** `getAvailabilityLevel(ratio)`, with `None` for `null`. */
  function GetAvailabilityLevel(ratio: Option<real>): (l: Level)
    ensures l == NoData <==> ratio.None?
    ensures ratio.Some? ==>
      (l == High <==> ratio.value > 0.5) &&
      (l == Mid <==> 0.2 <= ratio.value <= 0.5) &&
      (l == Low <==> ratio.value < 0.2)
  {
    match ratio
    case None => NoData
    case Some(r) => if r > 0.5 then High else if r >= 0.2 then Mid else Low
  }

  /** A larger ratio never gets a lower level. */
  lemma LevelMonotone(r1: real, r2: real)
    requires r1 <= r2
    ensures GetAvailabilityLevel(Some(r1)).Rank() <= GetAvailabilityLevel(Some(r2)).Rank()
  {
  }

  /** Both thresholds fall in the middle band: exactly 0.5 and exactly 0.2 are 'mid'. */
  lemma ThresholdsAreMid()
    ensures GetAvailabilityLevel(Some(0.5)) == Mid
    ensures GetAvailabilityLevel(Some(0.2)) == Mid
  {
  }

  /** Comparing a quotient with a constant is comparing the dividend with a product. */
  lemma QuotientCompare(f: real, t: real, c: real)
    requires t > 0.0
    ensures f / t > c <==> f > c * t
    ensures f / t >= c <==> f >= c * t
  {
    var q := f / t;
    assert q * t == f;
    if q > c {
      assert (q - c) * t > 0.0;
    } else {
      assert (c - q) * t >= 0.0;
    }
    if q >= c {
      assert (q - c) * t >= 0.0;
    } else {
      assert (c - q) * t > 0.0;
    }
  }

  /**
   * For a cell with `free` unoccupied bays out of `total > 0`, the level of
   * `free / total` follows from integer comparisons alone: 'high' iff
   * 2*free > total, 'low' iff 5*free < total, 'mid' otherwise.
   */
  lemma LevelOfCounts(free: nat, total: nat)
    requires total > 0
    ensures var l := GetAvailabilityLevel(Some(free as real / total as real));
      (l == High <==> 2 * free > total) &&
      (l == Low <==> 5 * free < total) &&
      (l == Mid <==> 2 * free <= total <= 5 * free)
  {
    QuotientCompare(free as real, total as real, 0.5);
    QuotientCompare(free as real, total as real, 0.2);
  }

  /** The level a level name denotes in `getLevelColor`: unknown names fall through to 'na'. */
  function LevelNamed(name: string): (l: Level)
    ensures l != NoData ==> l.Name() == name
  {
    if name == "high" then High
    else if name == "mid" then Mid
    else if name == "low" then Low
    else NoData
  }

  lemma LevelNameRoundTrip(l: Level)
    ensures LevelNamed(l.Name()) == l
  {
  }

  /** The level a fill colour stands for (the partner of `GetLevelColor`). */
  function LevelOfColor(color: string): Level {
    if color == "#3cb371" then High
    else if color == "#ffd166" then Mid
    else if color == "#ef476f" then Low
    else NoData
  }

  /**
   * `getLevelColor(level)`: green, yellow, red, and grey for anything else.
   * The colour identifies the level it was drawn for.
   */
  function GetLevelColor(level: string): (color: string)
    ensures LevelOfColor(color) == LevelNamed(level)
    ensures LevelNamed(level) == NoData <==> color == "#cccccc"
  {
    if level == "high" then "#3cb371"
    else if level == "mid" then "#ffd166"
    else if level == "low" then "#ef476f"
    else "#cccccc"
  }
}
