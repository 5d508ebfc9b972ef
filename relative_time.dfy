/**
 * `getRelativeTime`: how long ago a timestamp was, as "3 minutes ago".
 * Timestamps are integers of milliseconds; the clock reading `now` is a
 * parameter. For a positive divisor Dafny's `/` rounds down, as `Math.floor`
 * of the quotient does.
 */
module RelativeTime {
  import opened Wrappers
  import opened Text

  /** The bucket the formatter picks, with the amount it prints. */
  datatype Ago = JustNow | Seconds(n: nat) | OneMinute | Minutes(n: nat) | Hours(n: nat) | Days(n: nat)

  /** Multiplying by a positive number keeps a non-strict order. */
  lemma MulLeq(x: int, y: int, d: int)
    requires x <= y && d > 0
    ensures x * d <= y * d
  {
    assert y * d - x * d == (y - x) * d;
  }

  /** A quotient and remainder in range are the ones `/` computes. */
  lemma DivUnique(a: int, d: int, q: int, r: int)
    requires d > 0 && a == q * d + r && 0 <= r < d
    ensures a / d == q
  {
    var q' := a / d;
    var r' := a % d;
    assert (q - q') * d == r' - r;
    if q > q' {
      MulLeq(1, q - q', d);
    } else if q < q' {
      MulLeq(1, q' - q, d);
    }
  }

  /** Dividing in two steps rounds down the same as dividing once. */
  lemma DivDiv(a: int, b: int, c: int)
    requires b > 0 && c > 0
    ensures a / b / c == a / (b * c)
  {
    var q, r := a / b, a % b;
    var q2, r2 := q / c, q % c;
    assert a == q * b + r;
    assert q * b == (q2 * c + r2) * b;
    assert (q2 * c + r2) * b == q2 * (b * c) + r2 * b;
    MulLeq(r2, c - 1, b);
    assert (c - 1) * b == b * c - b;
    DivUnique(a, b * c, q2, r2 * b + r);
  }

  /**
   * Which bucket `getRelativeTime` chooses for a timestamp taken at `stamp`
   * (`None` for a null date) when the clock reads `now`.
   */
  function Classify(stamp: Option<int>, now: int): (a: Ago)
    ensures a == JustNow <==> stamp.None? || now - stamp.value < 1000
    ensures stamp.Some? ==> var diff := now - stamp.value;
      (a.Seconds? <==> 1000 <= diff < 60000) &&
      (a.Seconds? ==> a.n == diff / 1000) &&
      (a == OneMinute <==> 60000 <= diff < 120000) &&
      (a.Minutes? <==> 120000 <= diff < 3600000) &&
      (a.Minutes? ==> a.n == diff / 60000) &&
      (a.Hours? <==> 3600000 <= diff < 86400000) &&
      (a.Hours? ==> a.n == diff / 3600000) &&
      (a.Days? <==> 86400000 <= diff) &&
      (a.Days? ==> a.n == diff / 86400000)
  {
    match stamp
    case None => JustNow
    case Some(t) =>
      var diffMs := now - t;
      var sec := diffMs / 1000;
      var min := sec / 60;
      var hr := min / 60;
      DivDiv(diffMs, 1000, 60);
      DivDiv(diffMs, 60000, 60);
      DivDiv(diffMs, 3600000, 24);
      if sec < 1 then JustNow
      else if sec < 60 then Seconds(sec)
      else if min == 1 then OneMinute
      else if min < 60 then Minutes(min)
      else if hr < 24 then Hours(hr)
      else Days(hr / 24)
  }

  /** The amount printed in front of the unit, for the buckets that print one. */
  function Amount(a: Ago): nat
    requires a != JustNow
  {
    match a
    case Seconds(n) => n
    case OneMinute => 1
    case Minutes(n) => n
    case Hours(n) => n
    case Days(n) => n
  }

  /** The text after the amount. */
  function Unit(a: Ago): (u: string)
    requires a != JustNow
    ensures u != [] && u[0] == ' '
  {
    match a
    case Seconds(_) => " seconds ago"
    case OneMinute => " minute ago"
    case Minutes(_) => " minutes ago"
    case Hours(_) => " hours ago"
    case Days(_) => " days ago"
  }

  /** The message for a bucket. */
  function Render(a: Ago): (s: string)
    ensures a != JustNow ==> s == NatToString(Amount(a)) + Unit(a)
  {
    match a
    case JustNow => "just now"
    case Seconds(n) => NatToString(n) + " seconds ago"
    case OneMinute => "1 minute ago"
    case Minutes(n) => NatToString(n) + " minutes ago"
    case Hours(n) => NatToString(n) + " hours ago"
    case Days(n) => NatToString(n) + " days ago"
  }

  /** `getRelativeTime(dateObj)` with the clock at `now`. */
  function GetRelativeTime(stamp: Option<int>, now: int): (message: string)
    ensures message == "just now" <==> stamp.None? || now - stamp.value < 1000
  {
    var a := Classify(stamp, now);
    assert a != JustNow ==> IsDigit(Render(a)[0]);
    Render(a)
  }

  /** In a digit string followed by a space, the first non-digit is at the end of the digits. */
  lemma FirstNonDigit(p: string, x: string)
    requires forall i :: 0 <= i < |p| ==> IsDigit(p[i])
    requires x != [] && x[0] == ' '
    ensures forall i :: 0 <= i < |p| ==> IsDigit((p + x)[i])
    ensures !IsDigit((p + x)[|p|])
  {
  }

  /** Two digit strings each followed by a text that starts with a space split the same way. */
  lemma DigitsThenSpace(p: string, x: string, q: string, y: string)
    requires forall i :: 0 <= i < |p| ==> IsDigit(p[i])
    requires forall i :: 0 <= i < |q| ==> IsDigit(q[i])
    requires x != [] && x[0] == ' ' && y != [] && y[0] == ' '
    requires p + x == q + y
    ensures p == q && x == y
  {
    FirstNonDigit(p, x);
    FirstNonDigit(q, y);
    assert |p| == |q|;
    assert p == (p + x)[..|p|];
    assert q == (q + y)[..|q|];
  }

  /** Different buckets or amounts never print the same message. */
  lemma RenderInjective(a: Ago, b: Ago)
    requires Render(a) == Render(b)
    ensures a == b
  {
    if a != JustNow && b != JustNow {
      DigitsThenSpace(NatToString(Amount(a)), Unit(a), NatToString(Amount(b)), Unit(b));
      NatToStringInjective(Amount(a), Amount(b));
    }
  }

  /** The message names the elapsed time rounded down to whole units of the bucket. */
  lemma MessageOfElapsed(stamp: int, now: int)
    ensures GetRelativeTime(None, now) == "just now"
    ensures var diff := now - stamp;
      (diff < 1000 ==> GetRelativeTime(Some(stamp), now) == "just now") &&
      (1000 <= diff < 60000 ==>
         GetRelativeTime(Some(stamp), now) == NatToString(diff / 1000) + " seconds ago") &&
      (60000 <= diff < 120000 ==> GetRelativeTime(Some(stamp), now) == "1 minute ago") &&
      (120000 <= diff < 3600000 ==>
         GetRelativeTime(Some(stamp), now) == NatToString(diff / 60000) + " minutes ago") &&
      (3600000 <= diff < 86400000 ==>
         GetRelativeTime(Some(stamp), now) == NatToString(diff / 3600000) + " hours ago") &&
      (86400000 <= diff ==>
         GetRelativeTime(Some(stamp), now) == NatToString(diff / 86400000) + " days ago")
  {
  }

  /** There is no singular for hours: one hour prints as "1 hours ago". */
  lemma OneHourIsPlural()
    ensures GetRelativeTime(Some(0), 3600000) == "1 hours ago"
  {
    assert NatToString(1) == "1";
  }
}
