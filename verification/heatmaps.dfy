/** The two calendar heatmaps (`habit-heatmap.tsx`, `mood-heatmap.tsx`): month grids padded to
    the weekday of the first of the month, the four months shown, the per-day completion tally
    and the colour buckets. Days are day numbers (see `Calendar.DayOf`). */
module Heatmaps {
  import opened Wrappers
  import opened Calendar
  import opened Seqs
  import opened Logs

  // ---------------------------------------------------------------- month grids

  /** A grid cell: padding before the first of the month, or a day. */
  datatype Cell = Blank | Day(day: int)

  /** `getMonthData` (both heatmaps, lines 7-15): one blank per weekday before the first of the
      month, then every day of the month in order. */
  function MonthGrid(ym: YearMonth): (g: seq<Cell>)
    requires ym.Valid()
    ensures |g| == Weekday(FirstDay(ym)) + DaysInMonth(ym)
    ensures forall i | 0 <= i < |g| :: g[i].Blank? <==> i < Weekday(FirstDay(ym))
  {
    var first := FirstDay(ym);
    seq(Weekday(first), _ => Blank) + seq(DaysInMonth(ym), k => Day(first + k))
  }

  /** The grid is laid out in columns of seven rows, so a cell's row is its index mod 7: every
      day lands in the row of its own weekday (Sunday first). */
  lemma GridRowIsWeekday(ym: YearMonth)
    requires ym.Valid()
    ensures forall i | 0 <= i < |MonthGrid(ym)| && MonthGrid(ym)[i].Day? ::
      i % 7 == Weekday(MonthGrid(ym)[i].day)
  {
    var g, first, b := MonthGrid(ym), FirstDay(ym), Weekday(FirstDay(ym));
    forall i | 0 <= i < |g| && g[i].Day?
      ensures i % 7 == Weekday(g[i].day)
    {
      var k := i - b;
      assert g[i].day == first + k;
      ModShift(first + 4, k);
    }
  }

  /** Every day of the month appears exactly once, in increasing order. */
  lemma GridCoversMonth(ym: YearMonth)
    requires ym.Valid()
    ensures forall d :: Day(d) in MonthGrid(ym) <==> FirstDay(ym) <= d < FirstDay(ym) + DaysInMonth(ym)
    ensures forall i, j | 0 <= i < j < |MonthGrid(ym)| && MonthGrid(ym)[i].Day? ::
      MonthGrid(ym)[j].Day? && MonthGrid(ym)[i].day < MonthGrid(ym)[j].day
  {
    var g, first, b := MonthGrid(ym), FirstDay(ym), Weekday(FirstDay(ym));
    forall d | first <= d < first + DaysInMonth(ym)
      ensures Day(d) in g
    {
      assert g[b + d - first] == Day(d);
    }
  }

  /** `months` (lines 17-19): the current month and the three before it, oldest first. */
  function ShownMonths(current: YearMonth): (ms: seq<YearMonth>)
    requires current.Valid()
    ensures |ms| == 4 && ms[3] == current
    ensures forall i | 0 <= i < 4 :: ms[i].Valid()
    ensures forall i | 0 <= i < 3 :: ms[i].Valid() && NextMonth(ms[i]) == ms[i + 1]
  {
    var m1 := PrevMonth(current);
    var m2 := PrevMonth(m1);
    var m3 := PrevMonth(m2);
    [m3, m2, m1, current]
  }

  // ---------------------------------------------------------------- habit heatmap

  /** `dailyCounts` (lines 31-35): the reduce that adds one per log to its day's entry. */
  function DailyCounts(days: seq<int>): (m: map<int, nat>)
    ensures forall d :: d in m <==> d in days
    ensures forall d | d in m :: m[d] == Count(days, d)
  {
    if days == [] then map[]
    else
      var init, d := days[..|days| - 1], days[|days| - 1];
      assert days == init + [d];
      var m0 := DailyCounts(init);
      m0[d := (if d in m0 then m0[d] else 0) + 1]
  }

  /** `dailyCounts[dayString] || 0`. */
  function CountAt(m: map<int, nat>, d: int): nat {
    if d in m then m[d] else 0
  }

  /** A cell shows the number of logs dated that day, zero for a day without logs. */
  lemma CountAtIsCount(days: seq<int>, d: int)
    ensures CountAt(DailyCounts(days), d) == Count(days, d)
  {
  }

  function SumAt(m: map<int, nat>, keys: seq<int>): nat {
    if keys == [] then 0 else CountAt(m, keys[0]) + SumAt(m, keys[1..])
  }

  lemma {:induction false} SumAtIsSumCounts(days: seq<int>, keys: seq<int>)
    ensures SumAt(DailyCounts(days), keys) == SumCounts(keys, days)
  {
    if keys != [] {
      CountAtIsCount(days, keys[0]);
      SumAtIsSumCounts(days, keys[1..]);
    }
  }

  /** Summed over the days that have an entry, the counts add up to the number of logs. */
  lemma DailyCountsSum(days: seq<int>)
    ensures SumAt(DailyCounts(days), Dedupe(days)) == |days|
  {
    SumAtIsSumCounts(days, Dedupe(days));
    CountsSumToLength(days);
  }

  /** The days of the logs; the heatmap reads every timestamp, so none may be pending. */
  function LogDays(logs: seq<HabitLog>): (ds: seq<int>)
    requires forall i | 0 <= i < |logs| :: logs[i].timestamp.Some?
    ensures |ds| == |logs| && forall i | 0 <= i < |logs| :: ds[i] == DayOf(logs[i].timestamp.value)
  {
    seq(|logs|, i requires 0 <= i < |logs| && logs[i].timestamp.Some? => DayOf(logs[i].timestamp.value))
  }

  /** `HabitHeatmap` (lines 21-35): nothing is rendered while the logs are not loaded. */
  function HabitHeatmap(logs: Option<seq<HabitLog>>): (counts: Option<map<int, nat>>)
    requires logs.Some? ==> forall i | 0 <= i < |logs.value| :: logs.value[i].timestamp.Some?
    ensures counts.None? <==> logs.None?
    ensures counts.Some? ==> forall d :: CountAt(counts.value, d) == Count(LogDays(logs.value), d)
  {
    if logs.None? then None
    else
      var days := LogDays(logs.value);
      var m := DailyCounts(days);
      assert forall d :: CountAt(m, d) == Count(days, d);
      Some(m)
  }

  /** The habit cell colours, palest to fullest. */
  datatype Shade = Muted | Primary20 | Primary40 | Primary60 | Primary80 | Primary

  function ShadeLevel(s: Shade): nat {
    match s
    case Muted => 0
    case Primary20 => 1
    case Primary40 => 2
    case Primary60 => 3
    case Primary80 => 4
    case Primary => 5
  }

  /** Lines 60-65: each threshold passed overrides the colour chosen so far, so the shade is
      the count capped at five: non-decreasing in the count and saturating at 5. */
  function CountShade(count: nat): (s: Shade)
    ensures ShadeLevel(s) == if count < 5 then count else 5
  {
    var s0 := Muted;
    var s1 := if count > 0 then Primary20 else s0;
    var s2 := if count > 1 then Primary40 else s1;
    var s3 := if count > 2 then Primary60 else s2;
    var s4 := if count > 3 then Primary80 else s3;
    if count > 4 then Primary else s4
  }

  // ---------------------------------------------------------------- mood heatmap

  predicate OnDay(l: MoodLog, day: int) {
    l.timestamp.Some? && DayOf(l.timestamp.value) == day
  }

  /** `data.find(d => isSameDay(d.date, day))` over the timestamped mood logs (line 42): the
      index of the first log dated that day. */
  function FirstOnDay(logs: seq<MoodLog>, day: int): (r: Option<nat>)
    ensures r.Some? ==> r.value < |logs| && OnDay(logs[r.value], day)
    ensures r.Some? ==> forall j | 0 <= j < r.value :: !OnDay(logs[j], day)
    ensures r.None? <==> forall j | 0 <= j < |logs| :: !OnDay(logs[j], day)
  {
    if logs == [] then None
    else if OnDay(logs[0], day) then Some(0)
    else
      var rest := FirstOnDay(logs[1..], day);
      assert forall j | 1 <= j < |logs| :: logs[j] == logs[1..][j - 1];
      if rest.None? then None else Some(rest.value + 1)
  }

  /** A day's cell keeps showing its first log whatever is logged after it. */
  lemma {:induction false} FirstOnDayStable(logs: seq<MoodLog>, more: seq<MoodLog>, day: int)
    requires FirstOnDay(logs, day).Some?
    ensures FirstOnDay(logs + more, day) == FirstOnDay(logs, day)
  {
    if !OnDay(logs[0], day) {
      assert (logs + more)[1..] == logs[1..] + more;
      FirstOnDayStable(logs[1..], more, day);
    }
  }

  /** The mood cell colours, from the lowest ratings to the highest. */
  datatype MoodShade = Destructive | Chart4 | Chart2 | Primary75 | Full

  function MoodLevel(s: MoodShade): nat {
    match s
    case Destructive => 0
    case Chart4 => 1
    case Chart2 => 2
    case Primary75 => 3
    case Full => 4
  }

  function Passed(rating: int, threshold: int): nat {
    if rating > threshold then 1 else 0
  }

  /** Lines 46-50: the shade counts the thresholds 2, 4, 6 and 8 the rating exceeds, so the
      buckets partition the ratings and the shade never darkens as the rating drops. */
  function RatingShade(rating: int): (s: MoodShade)
    ensures MoodLevel(s) == Passed(rating, 2) + Passed(rating, 4) + Passed(rating, 6) + Passed(rating, 8)
  {
    if rating > 8 then Full
    else if rating > 6 then Primary75
    else if rating > 4 then Chart2
    else if rating > 2 then Chart4
    else Destructive
  }

  lemma RatingShadeMonotone(r1: int, r2: int)
    requires r1 <= r2
    ensures MoodLevel(RatingShade(r1)) <= MoodLevel(RatingShade(r2))
  {
  }

  /** Lines 42-51: a day with a log takes the shade of its first log's rating, any other day
      is muted. */
  function MoodCell(logs: seq<MoodLog>, day: int): (shade: Option<MoodShade>)
    ensures shade.None? <==> forall j | 0 <= j < |logs| :: !OnDay(logs[j], day)
    ensures shade.Some? ==> FirstOnDay(logs, day).Some? && shade.value == RatingShade(logs[FirstOnDay(logs, day).value].rating)
  {
    var found := FirstOnDay(logs, day);
    if found.None? then None else Some(RatingShade(logs[found.value].rating))
  }
}
