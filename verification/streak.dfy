/** The habit streak and completion rate of the habits page (`src/app/habits/page.tsx`) and the
    second copy of the streak on the dashboard's quick stats (`quick-stats.tsx`). */
module Streak {
  import opened Wrappers
  import opened Numeric
  import opened Calendar
  import opened Seqs
  import opened Logs

  datatype HabitStats = HabitStats(streak: nat, completionRate: int)

  /** The calendar days on which some log falls. */
  function DaySet(timestamps: seq<int>): set<int> {
    set t | t in timestamps :: DayOf(t)
  }

  function Negate(t: int): int {
    -t
  }

  /** Each timestamp's calendar day, in order. */
  function DaysOf(ts: seq<int>): (ds: seq<int>)
    ensures |ds| == |ts| && forall i | 0 <= i < |ts| :: ds[i] == DayOf(ts[i])
  {
    seq(|ts|, i requires 0 <= i < |ts| => DayOf(ts[i]))
  }

  lemma {:induction false} DedupeOfNonIncreasing(xs: seq<int>)
    requires forall i, j | 0 <= i < j < |xs| :: xs[i] >= xs[j]
    ensures StrictlyDecreasing(Dedupe(xs))
  {
    if xs != [] {
      var init := xs[..|xs| - 1];
      var x := xs[|xs| - 1];
      DedupeOfNonIncreasing(init);
      var rest := Dedupe(init);
      if x !in rest {
        forall i | 0 <= i < |rest|
          ensures rest[i] > x
        {
          assert rest[i] in init;
          var j :| 0 <= j < |init| && init[j] == rest[i];
          assert xs[j] >= x;
        }
      }
    }
  }

  /** Lines 38-39: sort newest first, take `startOfDay`, keep each day once. The result lists
      exactly the days of the logs, strictly newest first. */
  function UniqueDays(timestamps: seq<int>): (days: seq<int>)
    ensures StrictlyDecreasing(days)
    ensures forall d :: d in days <==> d in DaySet(timestamps)
    ensures |days| <= |timestamps|
    ensures |timestamps| > 0 ==> |days| > 0
  {
    UniqueDaysFacts(timestamps);
    Dedupe(DaysOf(SortBy(timestamps, Negate)))
  }

  lemma UniqueDaysFacts(timestamps: seq<int>)
    ensures var r := Dedupe(DaysOf(SortBy(timestamps, Negate)));
      StrictlyDecreasing(r) && (forall d :: d in r <==> d in DaySet(timestamps))
      && (|timestamps| > 0 ==> |r| > 0)
  {
    var sorted := SortBy(timestamps, Negate);
    var days := DaysOf(sorted);
    forall i, j | 0 <= i < j < |days|
      ensures days[i] >= days[j]
    {
      assert Negate(sorted[i]) <= Negate(sorted[j]);
    }
    DedupeOfNonIncreasing(days);
    var r := Dedupe(days);
    forall d
      ensures d in r <==> d in DaySet(timestamps)
    {
      if d in r {
        var j :| 0 <= j < |days| && days[j] == d;
        assert sorted[j] in multiset(timestamps);
      }
      if d in DaySet(timestamps) {
        var t :| t in timestamps && DayOf(t) == d;
        assert t in multiset(sorted);
        var j :| 0 <= j < |sorted| && sorted[j] == t;
        assert days[j] == d;
      }
    }
    if |timestamps| > 0 {
      assert DayOf(timestamps[0]) in DaySet(timestamps);
    }
  }

  lemma SameDaySets(a: seq<int>, b: seq<int>)
    requires multiset(a) == multiset(b)
    ensures DaySet(a) == DaySet(b)
  {
    forall d | d in DaySet(a)
      ensures d in DaySet(b)
    {
      var t :| t in a && DayOf(t) == d;
      assert t in multiset(b);
    }
    forall d | d in DaySet(b)
      ensures d in DaySet(a)
    {
      var t :| t in b && DayOf(t) == d;
      assert t in multiset(a);
    }
  }

  /** The distinct days depend only on which logs there are, not on their order. */
  lemma UniqueDaysOrderIndependent(a: seq<int>, b: seq<int>)
    requires multiset(a) == multiset(b)
    ensures UniqueDays(a) == UniqueDays(b)
  {
    var da, db := UniqueDays(a), UniqueDays(b);
    SameDaySets(a, b);
    forall i | 0 <= i < |da|
      ensures da[i] in db
    {
      assert da[i] in DaySet(b);
    }
    forall i | 0 <= i < |db|
      ensures db[i] in da
    {
      assert db[i] in DaySet(a);
    }
    StrictlyDecreasingUnique(da, db);
  }

  /** The loop of lines 54-62 (and quick-stats lines 59-67): from position i, count on while the
      next day is exactly one whole day before `last`, which then moves to that day. */
  function CountBack(days: seq<int>, i: nat, last: int, acc: nat): nat
    requires i <= |days|
    decreases |days| - i
  {
    if i == |days| then acc
    else if DifferenceInDays(last, DayStart(days[i])) == 1 then CountBack(days, i + 1, DayStart(days[i]), acc + 1)
    else acc
  }

  /** `isToday(day) || differenceInDays(new Date(), day) === 1` for a day start. */
  predicate TodayOrYesterday(d: int, now: int) {
    DayOf(DayStart(d)) == DayOf(now) || DifferenceInDays(now, DayStart(d)) == 1
  }

  /** Lines 33-72 of the habits page. */
  function HabitsPageStats(timestamps: seq<int>, now: int): (r: HabitStats)
    ensures r.streak <= |UniqueDays(timestamps)|
    ensures r.completionRate == 0 || r.streak >= 1
  {
    if |timestamps| == 0 then HabitStats(0, 0)
    else
      var days := UniqueDays(timestamps);
      if TodayOrYesterday(days[0], now) then
        var streak := CountBack(days, 1, DayStart(days[0]), 1);
        CountBackBounded(days, 1, DayStart(days[0]), 1);
        var first := days[|days| - 1];
        var tracked := DifferenceInDays(now, DayStart(first)) + 1;
        HabitStats(streak, if tracked > 0 then Percent(|days|, tracked) else 0)
      else HabitStats(0, 0)
  }

  lemma {:induction false} CountBackBounded(days: seq<int>, i: nat, last: int, acc: nat)
    requires 1 <= i <= |days| && acc <= i
    ensures acc <= CountBack(days, i, last, acc) <= acc + |days| - i
    decreases |days| - i
  {
    if i < |days| && DifferenceInDays(last, DayStart(days[i])) == 1 {
      CountBackBounded(days, i + 1, DayStart(days[i]), acc + 1);
    }
  }

  // ---------------------------------------------------------------- the streak as a property of the day set

  ghost function Elements(s: seq<int>): set<int> {
    set x | x in s
  }

  ghost predicate IsNewest(D: set<int>, d: int) {
    d in D && forall x | x in D :: x <= d
  }

  ghost predicate IsOldest(D: set<int>, d: int) {
    d in D && forall x | x in D :: d <= x
  }

  /** k consecutive active days end at `top`, and the day before them is inactive. */
  ghost predicate RunEndingAt(D: set<int>, top: int, k: nat) {
    (forall x | top - k < x <= top :: x in D) && top - k !in D
  }

  ghost predicate ConsecutivePrefix(days: seq<int>, k: nat) {
    1 <= k <= |days| && forall j | 0 <= j < k :: days[j] == days[0] - j
  }

  lemma {:induction false} CountBackConsecutive(days: seq<int>, i: nat)
    requires StrictlyDecreasing(days)
    requires ConsecutivePrefix(days, i)
    ensures var k := CountBack(days, i, DayStart(days[i - 1]), i);
      ConsecutivePrefix(days, k) && (k == |days| || days[k] != days[0] - k)
    decreases |days| - i
  {
    if i < |days| {
      DifferenceBetweenDayStarts(days[i - 1], days[i]);
      if days[i - 1] - days[i] == 1 {
        CountBackConsecutive(days, i + 1);
      }
    }
  }

  lemma ConsecutivePrefixIsRun(days: seq<int>, k: nat)
    requires StrictlyDecreasing(days)
    requires ConsecutivePrefix(days, k)
    requires k == |days| || days[k] != days[0] - k
    ensures RunEndingAt(Elements(days), days[0], k)
  {
    var top := days[0];
    forall x | top - k < x <= top
      ensures x in days
    {
      assert days[top - x] == x;
    }
    forall j | 0 <= j < |days|
      ensures days[j] != top - k
    {
      if j > k {
        assert days[j] < days[k] < days[k - 1];
      }
    }
  }

  /** When the newest active day is neither today nor yesterday, both figures are 0. */
  lemma HabitsPageDeadStreak(timestamps: seq<int>, now: int, newest: int)
    requires IsNewest(DaySet(timestamps), newest)
    requires newest != DayOf(now) && newest != DayOf(now) - 1
    ensures HabitsPageStats(timestamps, now) == HabitStats(0, 0)
  {
    var days := UniqueDays(timestamps);
    HeadIsNewest(timestamps, newest);
    DayOfUnique(DayStart(newest), newest);
    YesterdayIff(now, newest);
  }

  /** When the newest active day is today or yesterday, the streak is the length of the run of
      consecutive active days ending there: at least 1, stopping at the first gap. */
  lemma HabitsPageLiveStreak(timestamps: seq<int>, now: int, newest: int)
    requires IsNewest(DaySet(timestamps), newest)
    requires newest == DayOf(now) || newest == DayOf(now) - 1
    ensures HabitsPageStats(timestamps, now).streak >= 1
    ensures RunEndingAt(DaySet(timestamps), newest, HabitsPageStats(timestamps, now).streak)
  {
    var days := UniqueDays(timestamps);
    HeadIsNewest(timestamps, newest);
    DayOfUnique(DayStart(newest), newest);
    YesterdayIff(now, newest);
    CountBackConsecutive(days, 1);
    var k := CountBack(days, 1, DayStart(days[0]), 1);
    ConsecutivePrefixIsRun(days, k);
    assert Elements(days) == DaySet(timestamps);
  }

  lemma HeadIsNewest(timestamps: seq<int>, newest: int)
    requires IsNewest(DaySet(timestamps), newest)
    ensures UniqueDays(timestamps)[0] == newest
  {
    var days := UniqueDays(timestamps);
    var D := DaySet(timestamps);
    assert newest in D && newest in days;
    var j :| 0 <= j < |days| && days[j] == newest;
    assert days[0] in days && days[0] in D;
    assert days[0] <= newest;
    assert j == 0;
  }

  lemma LastIsOldest(timestamps: seq<int>, oldest: int)
    requires IsOldest(DaySet(timestamps), oldest)
    ensures UniqueDays(timestamps)[|UniqueDays(timestamps)| - 1] == oldest
  {
    var days := UniqueDays(timestamps);
    var D := DaySet(timestamps);
    assert oldest in D && oldest in days;
    var j :| 0 <= j < |days| && days[j] == oldest;
    var last := days[|days| - 1];
    assert last in days && last in D;
    assert oldest <= last;
    assert j == |days| - 1;
  }

  lemma {:induction false} DecreasingSpan(days: seq<int>)
    requires StrictlyDecreasing(days) && |days| > 0
    ensures days[0] - days[|days| - 1] >= |days| - 1
  {
    if |days| > 1 {
      DecreasingSpan(days[..|days| - 1]);
    }
  }

  /** When the streak is alive, the completion rate is the rounded percentage of distinct active
      days among the days from the first active day through today, and lies in [0, 100]. */
  lemma HabitsPageRate(timestamps: seq<int>, now: int, newest: int, oldest: int)
    requires IsNewest(DaySet(timestamps), newest) && IsOldest(DaySet(timestamps), oldest)
    requires newest == DayOf(now) || newest == DayOf(now) - 1
    ensures HabitsPageStats(timestamps, now).completionRate
         == Percent(|UniqueDays(timestamps)|, DayOf(now) - oldest + 1)
    ensures 0 <= HabitsPageStats(timestamps, now).completionRate <= 100
  {
    var days := UniqueDays(timestamps);
    HeadIsNewest(timestamps, newest);
    LastIsOldest(timestamps, oldest);
    LiveIsTodayOrYesterday(now, newest);
    DecreasingSpan(days);
    var tracked := DayOf(now) - oldest + 1;
    DifferenceToDayStart(now, oldest);
    LiveRate(timestamps, now);
    assert 0 < |days| <= tracked;
  }

  lemma LiveIsTodayOrYesterday(now: int, newest: int)
    requires newest == DayOf(now) || newest == DayOf(now) - 1
    ensures TodayOrYesterday(newest, now)
  {
    DayOfUnique(DayStart(newest), newest);
    YesterdayIff(now, newest);
  }

  /** The rate the habits page computes once the streak is alive. */
  lemma LiveRate(timestamps: seq<int>, now: int)
    requires |timestamps| > 0 && TodayOrYesterday(UniqueDays(timestamps)[0], now)
    ensures var days := UniqueDays(timestamps);
      var tracked := DifferenceInDays(now, DayStart(days[|days| - 1])) + 1;
      HabitsPageStats(timestamps, now).completionRate == if tracked > 0 then Percent(|days|, tracked) else 0
  {
  }

  /** With no logs at all, both figures are 0. */
  lemma HabitsPageNoLogs(now: int)
    ensures HabitsPageStats([], now) == HabitStats(0, 0)
  {
  }

  /** The figures depend only on which logs there are, not on the order they arrive in. */
  lemma HabitsPageOrderIndependent(a: seq<int>, b: seq<int>, now: int)
    requires multiset(a) == multiset(b)
    ensures HabitsPageStats(a, now) == HabitsPageStats(b, now)
  {
    UniqueDaysOrderIndependent(a, b);
    assert |a| == |multiset(a)| == |b|;
  }

  // ---------------------------------------------------------------- the dashboard's copy

  /** quick-stats lines 44-69: logs without a timestamp are skipped; when the newest day is not
      today or yesterday the loop still runs, measured from `now`. */
  function QuickStatsStreak(habitLogs: Option<seq<HabitLog>>, now: int): (streak: nat)
    ensures habitLogs.None? ==> streak == 0
  {
    if habitLogs.None? || |habitLogs.value| == 0 then 0
    else
      var days := UniqueDays(Timestamps(habitLogs.value));
      if |days| == 0 then 0
      else if TodayOrYesterday(days[0], now) then CountBack(days, 1, DayStart(days[0]), 1)
      else CountBack(days, 1, now, 0)
  }

  /** For logs none of which lies in the future, the dashboard's streak is the habits page's
      streak over the timestamped logs. */
  lemma QuickStatsMatchesHabitsPage(logs: seq<HabitLog>, now: int)
    requires forall i | 0 <= i < |logs| && logs[i].timestamp.Some? :: logs[i].timestamp.value <= now
    ensures QuickStatsStreak(Some(logs), now) == HabitsPageStats(Timestamps(logs), now).streak
  {
    var ts := Timestamps(logs);
    var days := UniqueDays(ts);
    if |days| > 1 && !TodayOrYesterday(days[0], now) {
      TimestampsNotAfter(logs, now);
      StaleNewestCountsNothing(ts, now);
    }
  }

  lemma TimestampsNotAfter(logs: seq<HabitLog>, now: int)
    requires forall i | 0 <= i < |logs| && logs[i].timestamp.Some? :: logs[i].timestamp.value <= now
    ensures forall t | t in Timestamps(logs) :: t <= now
  {
    var ts := Timestamps(logs);
    forall t | t in ts
      ensures t <= now
    {
      var i :| 0 <= i < |ts| && ts[i] == t;
      var j :| 0 <= j < |logs| && logs[j].timestamp == Some(ts[i]);
    }
  }

  /** With no future log, a newest day before yesterday leaves nothing to count from `now`. */
  lemma StaleNewestCountsNothing(ts: seq<int>, now: int)
    requires forall t | t in ts :: t <= now
    requires |UniqueDays(ts)| > 1 && !TodayOrYesterday(UniqueDays(ts)[0], now)
    ensures CountBack(UniqueDays(ts), 1, now, 0) == 0
  {
    var days := UniqueDays(ts);
    var today := DayOf(now);
    assert days[0] in days;
    assert days[0] in DaySet(ts);
    var t :| t in ts && DayOf(t) == days[0];
    assert t <= now;
    DayOfUnique(DayStart(days[0]), days[0]);
    YesterdayIff(now, days[0]);
    assert days[0] <= today - 2;
    assert days[1] < days[0];
    DifferenceToDayStart(now, days[1]);
  }

  lemma DivergenceDays()
    ensures UniqueDays([11 * MS_PER_DAY + 5, 9 * MS_PER_DAY + 5]) == [11, 9]
  {
    var ts := [11 * MS_PER_DAY + 5, 9 * MS_PER_DAY + 5];
    DayOfUnique(ts[0], 11);
    DayOfUnique(ts[1], 9);
    assert DaySet(ts) == {11, 9};
    var days := UniqueDays(ts);
    assert 11 in days && 9 in days;
    StrictlyDecreasingUnique(days, [11, 9]);
  }

  lemma DivergenceStreaks(now: int)
    requires now == 10 * MS_PER_DAY + 1000
    ensures HabitsPageStats([11 * MS_PER_DAY + 5, 9 * MS_PER_DAY + 5], now).streak == 0
    ensures CountBack([11, 9], 1, now, 0) == 1
  {
    var ts := [11 * MS_PER_DAY + 5, 9 * MS_PER_DAY + 5];
    DivergenceDays();
    DayOfUnique(now, 10);
    DayOfUnique(DayStart(11), 11);
    YesterdayIff(now, 11);
    assert !TodayOrYesterday(11, now);
    DifferenceToDayStart(now, 9);
    assert CountBack([11, 9], 2, DayStart(9), 1) == 1;
  }

  lemma DivergenceTimestamps(logs: seq<HabitLog>)
    requires logs == [HabitLog("a", "h", Some(11 * MS_PER_DAY + 5), "u"), HabitLog("b", "h", Some(9 * MS_PER_DAY + 5), "u")]
    ensures Timestamps(logs) == [11 * MS_PER_DAY + 5, 9 * MS_PER_DAY + 5]
  {
    assert logs[1..][1..] == [];
  }

  /** A log dated tomorrow makes the two copies disagree: the habits page reports no streak,
      while quick stats counts the run that ends yesterday. */
  lemma QuickStatsDivergesOnFutureLog()
    ensures var now := 10 * MS_PER_DAY + 1000;
      var logs := [HabitLog("a", "h", Some(11 * MS_PER_DAY + 5), "u"), HabitLog("b", "h", Some(9 * MS_PER_DAY + 5), "u")];
      QuickStatsStreak(Some(logs), now) == 1 && HabitsPageStats(Timestamps(logs), now).streak == 0
  {
    var now := 10 * MS_PER_DAY + 1000;
    var logs := [HabitLog("a", "h", Some(11 * MS_PER_DAY + 5), "u"), HabitLog("b", "h", Some(9 * MS_PER_DAY + 5), "u")];
    DivergenceTimestamps(logs);
    DivergenceDays();
    DivergenceStreaks(now);
  }
}
