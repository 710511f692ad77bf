/**
 * The streak widget (components/WeeklyStreak.tsx): the bar, the row of ten
 * dots and the two "N week(s)" labels drawn from a profile's counters.  The
 * profile fetch is left out; the counters arrive as a parameter.
 */
module WeeklyStreak {
  import opened Base
  import JsText

  /** Line 11. */
  const MaxStreakDisplay: int := 10

  /** Lines 6-9: the two profile columns, either of which may be null in the table. */
  datatype StreakStats = StreakStats(streakCount: Option<int>, longestStreak: Option<int>)

  /** Lines 39-40: the bar width in percent, over the real numbers. */
  function BarPercent(count: int): (p: real)
    ensures count >= 0 ==> 0.0 <= p <= 100.0
    ensures count >= MaxStreakDisplay ==> p == 100.0
    ensures 0 <= count <= MaxStreakDisplay ==> p == (count * 10) as real
  {
    (Min(count, MaxStreakDisplay) as real) / (MaxStreakDisplay as real) * 100.0
  }

  /** Lines 70-77: ten dots, dot `i` lit while `i` is below the count. */
  function Dots(count: int): (d: seq<bool>)
    ensures |d| == MaxStreakDisplay
    ensures forall i :: 0 <= i < |d| ==> (d[i] <==> i < count)
  {
    seq(MaxStreakDisplay, i => i < count)
  }

  /** The number of lit dots: none exactly when every dot is dark, all exactly when every dot is lit. */
  function LitCount(d: seq<bool>): (n: nat)
    ensures n <= |d|
    ensures n == 0 <==> forall i :: 0 <= i < |d| ==> !d[i]
    ensures n == |d| <==> forall i :: 0 <= i < |d| ==> d[i]
  {
    if d == [] then 0 else (if d[|d| - 1] then 1 else 0) + LitCount(d[..|d| - 1])
  }

  lemma {:induction false} LitPrefix(d: seq<bool>, k: nat)
    requires k <= |d|
    requires forall i :: 0 <= i < |d| ==> (d[i] <==> i < k)
    ensures LitCount(d) == k
  {
    if d != [] {
      var init := d[..|d| - 1];
      if k == |d| {
        LitPrefix(init, k - 1);
      } else {
        LitPrefix(init, k);
      }
    }
  }

  /** Exactly `min(count, 10)` dots are lit (none for a negative count). */
  lemma LitDots(count: int)
    ensures LitCount(Dots(count)) == Max(0, Min(count, MaxStreakDisplay))
  {
    LitPrefix(Dots(count), Max(0, Min(count, MaxStreakDisplay)));
  }

  /** Lines 51 and 59: "week" for exactly the value 1, "weeks" otherwise (null included). */
  function Suffix(c: Option<int>): (s: string)
    ensures s == "" <==> c == Some(1)
    ensures s != "" ==> s == "s"
  {
    if c != Some(1) then "s" else ""
  }

  /** A counter rendered as JSX text: its decimal digits, nothing at all for null. */
  function CountText(c: Option<int>): (s: string)
    ensures c.None? <==> s == ""
    ensures c.Some? ==> JsText.ParseInt(s) == Some(c.value)
  {
    match c
    case None => ""
    case Some(n) => JsText.IntToStringRoundTrip(n); JsText.IntToString(n)
  }

  /** Lines 51 and 59: the counter's text, then " week", with an "s" unless the counter is 1. */
  function WeeksLabel(c: Option<int>): (s: string)
    ensures |s| >= |CountText(c)| && s[..|CountText(c)|] == CountText(c)
    ensures s[|CountText(c)|..] == if c == Some(1) then " week" else " weeks"
  {
    CountText(c) + " week" + Suffix(c)
  }

  /** The label carries the number back out: it starts with the count's decimal text. */
  lemma WeeksLabelReadsBack(n: int)
    ensures var s := WeeksLabel(Some(n));
      exists k :: 1 <= k <= |s| && s[..k] == JsText.IntToString(n) && JsText.ParseInt(s[..k]) == Some(n)
  {
    var s := WeeksLabel(Some(n));
    var k := |JsText.IntToString(n)|;
    assert s[..k] == JsText.IntToString(n);
    JsText.IntToStringRoundTrip(n);
  }

  datatype StreakView =
    | Loading
    | Shown(current: string, longest: string, bar: real, dots: seq<bool>)

  /** Lines 31-78: "Loading" until the counters arrive, then the card. The bar and the dots use the
      current counter as a number (`Math.min(c, 10)`, `i < c`), where null converts to 0. */
  function Card(stats: Option<StreakStats>): (v: StreakView)
    ensures v.Loading? <==> stats.None?
    ensures stats.Some? ==> v.current == WeeksLabel(stats.value.streakCount)
    ensures stats.Some? ==> v.longest == WeeksLabel(stats.value.longestStreak)
    ensures stats.Some? ==>
      v.bar == BarPercent(stats.value.streakCount.GetOr(0)) && v.dots == Dots(stats.value.streakCount.GetOr(0))
  {
    match stats
    case None => Loading
    case Some(s) =>
      var n := s.streakCount.GetOr(0);
      Shown(WeeksLabel(s.streakCount), WeeksLabel(s.longestStreak), BarPercent(n), Dots(n))
  }

  /** A null current counter shows " weeks" with no number, an empty bar and no lit dot. */
  lemma NullCountShowsNothing(longest: Option<int>)
    ensures var v := Card(Some(StreakStats(None, longest)));
      v.current == " weeks" && v.bar == 0.0 && LitCount(v.dots) == 0
  {
    LitDots(0);
  }

  /** The bar and the dots depend on the current count only, never on the longest streak. */
  lemma BarIgnoresLongest(a: StreakStats, b: StreakStats)
    requires a.streakCount == b.streakCount
    ensures Card(Some(a)).bar == Card(Some(b)).bar
    ensures Card(Some(a)).dots == Card(Some(b)).dots
  {
  }
}
