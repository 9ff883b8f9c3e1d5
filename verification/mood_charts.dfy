/** The two mood line charts: the dashboard's last seven days (`weekly-mood-chart.tsx`) and the
    mood page's last thirty days (`mood-trend-chart.tsx`). Each point is the mean rating of the
    day's timestamped logs, kept as an exact fraction. */
module MoodCharts {
  import opened Wrappers
  import opened Numeric
  import opened Calendar
  import opened Seqs
  import opened Logs
  import opened Heatmaps

  /** The logs dated `day`, in collection order; a log without a timestamp is on no day. */
  function LogsOn(logs: seq<MoodLog>, day: int): seq<MoodLog> {
    Filter(logs, (l: MoodLog) => OnDay(l, day))
  }

  lemma LogsOnEmptyIff(logs: seq<MoodLog>, day: int)
    ensures LogsOn(logs, day) == [] <==> forall j | 0 <= j < |logs| :: !OnDay(logs[j], day)
  {
    var f := LogsOn(logs, day);
    if f != [] {
      assert f[0] in multiset(logs);
    }
  }

  /** `logsOnDate.reduce((sum, log) => sum + log.rating, 0) / logsOnDate.length`. */
  function Mean(ratings: seq<int>): (r: Ratio)
    requires ratings != []
    ensures r.Valid() && r.den == |ratings|
    ensures r.num == Sum(ratings)
  {
    Ratio(Sum(ratings), |ratings|)
  }

  /** Ratings that are all `x` average to exactly `x`. */
  lemma MeanOfEqualRatings(ratings: seq<int>, x: int)
    requires ratings != []
    requires forall i | 0 <= i < |ratings| :: ratings[i] == x
    ensures Mean(ratings).num == x * Mean(ratings).den
  {
    SumOfEqual(ratings, x);
  }

  /** A mean lies between any bounds of the ratings it averages. */
  lemma MeanBetween(ratings: seq<int>, lo: int, hi: int)
    requires ratings != []
    requires forall i | 0 <= i < |ratings| :: lo <= ratings[i] <= hi
    ensures Mean(ratings).Between(lo, hi)
  {
    SumBetween(ratings, lo, hi);
  }

  /** The mean of the day's ratings, if the day has any log. */
  function DayMean(logs: seq<MoodLog>, day: int): (m: Option<Ratio>)
    ensures m.None? <==> forall j | 0 <= j < |logs| :: !OnDay(logs[j], day)
    ensures m.Some? ==> m.value.Valid() && m.value.den == |LogsOn(logs, day)|
    ensures m.Some? ==> m.value == Mean(Ratings(LogsOn(logs, day)))
  {
    LogsOnEmptyIff(logs, day);
    var on := LogsOn(logs, day);
    if on == [] then None else Some(Mean(Ratings(on)))
  }

  /** A day whose logs are all rated `x` plots exactly `x`. */
  lemma DayMeanOfEqualRatings(logs: seq<MoodLog>, day: int, x: int)
    requires forall j | 0 <= j < |logs| && OnDay(logs[j], day) :: logs[j].rating == x
    ensures DayMean(logs, day).Some? ==> DayMean(logs, day).value.num == x * DayMean(logs, day).value.den
  {
    var on := LogsOn(logs, day);
    if on != [] {
      var rs := Ratings(on);
      forall i | 0 <= i < |rs|
        ensures rs[i] == x
      {
        assert on[i] in multiset(logs);
        var j :| 0 <= j < |logs| && logs[j] == on[i];
      }
      MeanOfEqualRatings(rs, x);
    }
  }

  /** When every rating of the day lies in [lo, hi], so does the day's mean. */
  lemma DayMeanBetween(logs: seq<MoodLog>, day: int, lo: int, hi: int)
    requires forall j | 0 <= j < |logs| && OnDay(logs[j], day) :: lo <= logs[j].rating <= hi
    ensures DayMean(logs, day).Some? ==> DayMean(logs, day).value.Between(lo, hi)
  {
    var on := LogsOn(logs, day);
    if on != [] {
      var rs := Ratings(on);
      forall i | 0 <= i < |rs|
        ensures lo <= rs[i] <= hi
      {
        assert on[i] in multiset(logs);
        var j :| 0 <= j < |logs| && logs[j] == on[i];
      }
      MeanBetween(rs, lo, hi);
    }
  }

  /** A chart point: the day and the value plotted for it. */
  datatype Point = Point(day: int, value: Option<Ratio>)

  /** `Array.from({length: n}, (_, i) => subDays(now, i)).reverse()` with each day's mean: the
      point for `i` days ago is at index `n - 1 - i`. */
  function LastDays(logs: seq<MoodLog>, now: int, n: nat): (pts: seq<Point>)
    ensures |pts| == n
    ensures forall k | 0 <= k < n :: pts[k].day == DayOf(now) - (n - 1) + k
    ensures forall k | 0 <= k < n :: pts[k].value == DayMean(logs, pts[k].day)
  {
    seq(n, k requires 0 <= k < n => DayPoint(logs, now, n - 1 - k))
  }

  /** The point `i` days before `now`; `subDays` keeps the time of day, so the day is `i` before
      today. */
  function DayPoint(logs: seq<MoodLog>, now: int, i: int): (p: Point)
    ensures p.day == DayOf(now) - i && p.value == DayMean(logs, p.day)
  {
    DaysBefore(now, i);
    var day := DayOf(now - i * MS_PER_DAY);
    Point(day, DayMean(logs, day))
  }

  /** `last7DaysData` (weekly-mood-chart.tsx lines 37-53): seven points, today last; a day
      without logs is plotted as 0. */
  function WeeklyMood(moodLogs: Option<seq<MoodLog>>, now: int): (pts: seq<Ratio>)
    ensures |pts| == 7
    ensures forall k | 0 <= k < 7 :: pts[k] == DayMean(moodLogs.GetOr([]), DayOf(now) - 6 + k).GetOr(Ratio(0, 1))
  {
    ZeroForGaps(LastDays(moodLogs.GetOr([]), now, 7))
  }

  /** `avgRating` with `: 0` for a day without logs. */
  function ZeroForGaps(pts: seq<Point>): (vs: seq<Ratio>)
    ensures |vs| == |pts| && forall k | 0 <= k < |pts| :: vs[k] == pts[k].value.GetOr(Ratio(0, 1))
  {
    seq(|pts|, k requires 0 <= k < |pts| => pts[k].value.GetOr(Ratio(0, 1)))
  }

  /** `last30DaysData` (mood-trend-chart.tsx lines 18-29): thirty points, today last; a day
      without logs is a gap (`null`), not 0. */
  function MoodTrend(logs: seq<MoodLog>, now: int): (pts: seq<Point>)
    ensures |pts| == 30 && pts[29].day == DayOf(now)
    ensures forall k | 0 <= k < 30 :: pts[k].day == DayOf(now) - 29 + k
    ensures forall k | 0 <= k < 30 :: pts[k].value == DayMean(logs, pts[k].day)
    ensures forall k | 0 <= k < 30 :: pts[k].value.None? <==> forall j | 0 <= j < |logs| :: !OnDay(logs[j], pts[k].day)
  {
    LastDays(logs, now, 30)
  }

  /** With ratings on the 1..10 scale, a weekly point is 0 exactly when its day has no log. */
  lemma WeeklyZeroIffNoLog(logs: seq<MoodLog>, now: int, k: int)
    requires 0 <= k < 7
    requires forall j | 0 <= j < |logs| :: 1 <= logs[j].rating <= 10
    ensures var day := DayOf(now) - 6 + k;
      (WeeklyMood(Some(logs), now)[k].num == 0 <==> forall j | 0 <= j < |logs| :: !OnDay(logs[j], day))
  {
    var day := DayOf(now) - 6 + k;
    var pts := LastDays(logs, now, 7);
    assert pts[k].day == day;
    DayMeanBetween(logs, day, 1, 10);
  }

  /** On the seven days both charts cover, the weekly value is the trend value, with the trend's
      gaps drawn as 0. */
  lemma WeeklyAgreesWithTrend(logs: seq<MoodLog>, now: int, k: int)
    requires 0 <= k < 7
    ensures MoodTrend(logs, now)[23 + k].day == DayOf(now) - 6 + k
    ensures WeeklyMood(Some(logs), now)[k] == MoodTrend(logs, now)[23 + k].value.GetOr(Ratio(0, 1))
  {
    var w := LastDays(logs, now, 7);
    var t := LastDays(logs, now, 30);
    assert w[k].day == t[23 + k].day;
  }

  /** With every rating on the 1..10 scale, every plotted mean stays on that scale. */
  lemma TrendOnScale(logs: seq<MoodLog>, now: int)
    requires forall j | 0 <= j < |logs| :: 1 <= logs[j].rating <= 10
    ensures forall k | 0 <= k < 30 && MoodTrend(logs, now)[k].value.Some? :: MoodTrend(logs, now)[k].value.value.Between(1, 10)
  {
    var t := MoodTrend(logs, now);
    forall k | 0 <= k < 30 && t[k].value.Some?
      ensures t[k].value.value.Between(1, 10)
    {
      DayMeanBetween(logs, t[k].day, 1, 10);
    }
  }
}
